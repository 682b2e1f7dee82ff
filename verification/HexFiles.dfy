/**
 Whole HEX files of data and extended address records, with gaps and in any order: such a
 file is loaded as a copy, whatever its bytes are, if and only if every word finds its
 page open.
 */
module HexFiles {
  import opened Bytes
  import opened Flash
  import opened Folds
  import opened HexLoader
  import opened HexRecords
  import opened HexBase
  import opened HexLoad
  import opened HexMoves

  // ----- Files and what they do to the memory

  /** A word of data, in the order of its bytes in memory. */
  datatype Pair = Pair(low: byte, high: byte)

  datatype Entry =
    | Data(at: word, words: seq<Pair>)
    | Extended(at: word, kind: byte, high: byte, low: byte)

  /** The base address after a record, as the loader takes it. */
  function BaseAfter(base: nat, r: Entry): nat {
    match r
    case Data(_, _) => base
    case Extended(_, kind, high, low) => (256 * (low as int) + high) * Scale(kind)
  }

  function FinalBase(file: seq<Entry>): nat {
    if file == [] then 0 else BaseAfter(FinalBase(file[..|file| - 1]), file[|file| - 1])
  }

  /** Whole words below the bootloader. */
  predicate StaysBelow(base: nat, r: Entry) {
    base + r.at < BOOT_START &&
    match r
    case Data(at, words) => |words| < 128 && (base + at) % 2 == 0 && base + at + 2 * |words| <= BOOT_START
    case Extended(_, kind, _, _) => IsExtended(kind)
  }

  predicate AllStayBelow(file: seq<Entry>) {
    file == [] || (AllStayBelow(file[..|file| - 1]) && StaysBelow(FinalBase(file[..|file| - 1]), file[|file| - 1]))
  }

  /** The bytes of words. */
  function Spelled(words: seq<Pair>): (data: seq<byte>)
    ensures |data| == 2 * |words|
  {
    if words == [] then [] else [words[0].low, words[0].high] + Spelled(words[1..])
  }

  function EntryText(r: Entry): string
    requires r.Data? ==> |r.words| < 128
  {
    match r
    case Data(at, words) => Record(at, TYPE_DATA, Spelled(words))
    case Extended(at, kind, high, low) => Record(at, kind, [high, low])
  }

  function FileText(file: seq<Entry>): string
    requires AllStayBelow(file)
  {
    if file == [] then [] else FileText(file[..|file| - 1]) + EntryText(file[|file| - 1])
  }

  /** What a record does: it programs words, and at its end visits the address it has reached. */
  function Words(address: nat, words: seq<Pair>): seq<Move> {
    seq(|words|, k requires 0 <= k < |words| => Word(address + 2 * k, words[k].low, words[k].high))
  }

  function DataMoves(address: nat, words: seq<Pair>): seq<Move> {
    Words(address, words) + [Visit(address + 2 * |words|)]
  }

  function EntryMoves(base: nat, r: Entry): seq<Move> {
    match r
    case Data(at, words) => DataMoves(base + at, words)
    case Extended(at, _, _, _) => [Visit(base + at)]
  }

  function Moves(file: seq<Entry>): seq<Move> {
    if file == [] then []
    else Moves(file[..|file| - 1]) + EntryMoves(FinalBase(file[..|file| - 1]), file[|file| - 1])
  }

  lemma {:induction false} WordsArePut(c: Cursor, address: nat, words: seq<Pair>)
    ensures Fold(Act, c, Words(address, words)) == Puts(c, address, Spelled(words))
    decreases |words|
  {
    if words == [] {
    } else {
      var first, data := words[0], Spelled(words);
      assert Words(address, words)[1..] == Words(address + 2, words[1..]);
      assert data[0] == first.low && data[1] == first.high && data[2..] == Spelled(words[1..]);
      WordsArePut(Put(c, address, first.low, first.high), address + 2, words[1..]);
    }
  }

  ghost predicate ActsAs(p: Parser, q: Parser, r: Entry) {
    && CursorOf(q) == Fold(Act, CursorOf(p), EntryMoves(p.base, r))
    && q.base == BaseAfter(p.base, r) && q.running == p.running
  }

  lemma DataIsActed(c: Cursor, address: nat, words: seq<Pair>)
    ensures Fold(Act, c, DataMoves(address, words)) ==
            Moved(Puts(c, address, Spelled(words)), address + 2 * |words|)
  {
    WordsArePut(c, address, words);
    FoldNext(Act, c, Words(address, words), Visit(address + 2 * |words|));
  }

  lemma EvenRecordIsPut(p: Parser, at: word, data: seq<byte>, n: nat)
    requires |data| == 2 * n < 256 && p.base + at < BOOT_START && p.base + at + 2 * n <= BOOT_START
    ensures var q := Run(p, Record(at, TYPE_DATA, data));
            && CursorOf(q) == Moved(Puts(CursorOf(p), p.base + at, data), p.base + at + 2 * n)
            && q.base == p.base && q.running == p.running
  {
    assert |data| % 2 == 0 && Programmed(p.prevData, data) == data;
    DataRecordIsPut(p, at, data);
  }

  lemma PutsActsAs(p: Parser, q: Parser, at: word, words: seq<Pair>)
    requires CursorOf(q) == Moved(Puts(CursorOf(p), p.base + at, Spelled(words)), p.base + at + 2 * |words|)
    requires q.base == p.base && q.running == p.running
    ensures ActsAs(p, q, Data(at, words))
  {
    DataIsActed(CursorOf(p), p.base + at, words);
  }

  lemma DataEntryIsActed(p: Parser, at: word, words: seq<Pair>)
    requires StaysBelow(p.base, Data(at, words))
    ensures ActsAs(p, Run(p, Record(at, TYPE_DATA, Spelled(words))), Data(at, words))
  {
    EvenRecordIsPut(p, at, Spelled(words), |words|);
    PutsActsAs(p, Run(p, Record(at, TYPE_DATA, Spelled(words))), at, words);
  }

  lemma EntryIsActed(p: Parser, r: Entry)
    requires StaysBelow(p.base, r)
    ensures ActsAs(p, Run(p, EntryText(r)), r)
  {
    match r
    case Data(at, words) =>
      DataEntryIsActed(p, at, words);
    case Extended(at, kind, high, low) =>
      ExtendedRecord(p, at, kind, high, low);
      FoldOne(Act, CursorOf(p), Visit(p.base + at));
  }

  lemma {:induction false} FileIsActed(p: Parser, file: seq<Entry>)
    requires p.base == 0 && AllStayBelow(file)
    ensures var q := Run(p, FileText(file));
            && CursorOf(q) == Fold(Act, CursorOf(p), Moves(file))
            && q.base == FinalBase(file) && q.running == p.running
    decreases |file|
  {
    if file == [] {
    } else {
      var before, r := file[..|file| - 1], file[|file| - 1];
      FileIsActed(p, before);
      FoldConcat(Step, p, FileText(before), EntryText(r));
      EntryIsActed(Run(p, FileText(before)), r);
      FoldConcat(Act, CursorOf(p), Moves(before), EntryMoves(FinalBase(before), r));
    }
  }

  /** A file: its records, and the end-of-file record. */
  function WholeText(file: seq<Entry>): string
    requires AllStayBelow(file)
  {
    FileText(file) + Record(0, TYPE_END_OF_FILE, [])
  }

  lemma BaseIsBounded(file: seq<Entry>)
    ensures FinalBase(file) <= MAX_BASE
  {
  }

  /** Loading a whole file: the moves of its records, and the visit of the end record to the base address. */
  lemma FileEnds(p: Parser, file: seq<Entry>)
    requires Initial(p) && AllStayBelow(file)
    ensures var q := Run(p, WholeText(file));
            !q.running && q.memory.flash == EndFlash(CursorOf(p), Moves(file), FinalBase(file))
  {
    BaseIsBounded(file);
    FileIsActed(p, file);
    FoldConcat(Step, p, FileText(file), Record(0, TYPE_END_OF_FILE, []));
    EndRecordExits(Run(p, FileText(file)));
  }

  lemma WordsAreMoves(address: nat, words: seq<Pair>)
    requires address % 2 == 0 && address + 2 * |words| <= BOOT_START
    ensures AreMoves(Words(address, words))
  {
  }

  lemma {:induction false} FileIsMoves(file: seq<Entry>)
    requires AllStayBelow(file)
    ensures AreMoves(Moves(file))
    decreases |file|
  {
    if file == [] {
    } else {
      var before, r := file[..|file| - 1], file[|file| - 1];
      FileIsMoves(before);
      if r.Data? {
        WordsAreMoves(FinalBase(before) + r.at, r.words);
      }
    }
  }

  // ----- Files that differ in their bytes alone

  predicate SameEntry(r: Entry, s: Entry) {
    if r.Data? then s.Data? && s.at == r.at && |s.words| == |r.words| else r == s
  }

  ghost predicate SameEntries(file: seq<Entry>, other: seq<Entry>) {
    |file| == |other| && forall k :: 0 <= k < |file| ==> SameEntry(file[k], other[k])
  }

  lemma SameEntryMoves(base: nat, r: Entry, s: Entry)
    requires SameEntry(r, s)
    ensures SameMoves(EntryMoves(base, r), EntryMoves(base, s))
    ensures BaseAfter(base, r) == BaseAfter(base, s) && StaysBelow(base, r) == StaysBelow(base, s)
  {
  }

  lemma SameConcat(a: seq<Move>, b: seq<Move>, c: seq<Move>, d: seq<Move>)
    requires SameMoves(a, c) && SameMoves(b, d)
    ensures SameMoves(a + b, c + d)
  {
  }

  lemma {:induction false} SameFile(file: seq<Entry>, other: seq<Entry>)
    requires SameEntries(file, other)
    ensures FinalBase(file) == FinalBase(other) && AllStayBelow(file) == AllStayBelow(other)
    ensures SameMoves(Moves(file), Moves(other))
    decreases |file|
  {
    if file == [] {
    } else {
      var n := |file| - 1;
      var base := FinalBase(file[..n]);
      SameFile(file[..n], other[..n]);
      SameEntryMoves(base, file[n], other[n]);
      SameConcat(Moves(file[..n]), EntryMoves(base, file[n]), Moves(other[..n]), EntryMoves(base, other[n]));
    }
  }

  /** The words with another first byte in word `j`. */
  function OtherWords(words: seq<Pair>, j: nat): seq<Pair>
    requires j < |words|
  {
    words[j := words[j].(low := Low8(words[j].low as int + 1))]
  }

  lemma ChangedWord(address: nat, words: seq<Pair>, j: nat)
    requires j < |words|
    ensures Words(address, OtherWords(words, j)) == Changed(Words(address, words), j)
  {
  }

  lemma ChangedConcat(a: seq<Move>, b: seq<Move>, k: nat)
    requires k < |a| + |b| && (a + b)[k].Word?
    ensures Changed(a + b, k) == if k < |a| then Changed(a, k) + b else a + Changed(b, k - |a|)
  {
  }

  lemma ChangedData(address: nat, words: seq<Pair>, j: nat)
    requires j < |words|
    ensures j < |DataMoves(address, words)| && DataMoves(address, words)[j].Word?
    ensures DataMoves(address, OtherWords(words, j)) == Changed(DataMoves(address, words), j)
  {
    ChangedWord(address, words, j);
    ChangedConcat(Words(address, words), [Visit(address + 2 * |words|)], j);
  }

  /** The record with another first byte in the word of move `j`. */
  lemma ChangedEntry(base: nat, r: Entry, j: nat) returns (other: Entry)
    requires j < |EntryMoves(base, r)| && EntryMoves(base, r)[j].Word?
    ensures SameEntry(r, other) && EntryMoves(base, other) == Changed(EntryMoves(base, r), j)
  {
    assert r.Data? && j < |r.words|;
    other := Data(r.at, OtherWords(r.words, j));
    ChangedData(base + r.at, r.words, j);
  }

  lemma MovesConcat(before: seq<Entry>, r: Entry)
    ensures Moves(before + [r]) == Moves(before) + EntryMoves(FinalBase(before), r)
  {
    assert (before + [r])[..|before|] == before;
  }

  lemma ChangedLast(before: seq<Entry>, r: Entry, k: nat) returns (other: Entry)
    requires |Moves(before)| <= k < |Moves(before + [r])| && Moves(before + [r])[k].Word?
    ensures SameEntry(r, other) && Moves(before + [other]) == Changed(Moves(before + [r]), k)
  {
    MovesConcat(before, r);
    other := ChangedEntry(FinalBase(before), r, k - |Moves(before)|);
    MovesConcat(before, other);
    ChangedConcat(Moves(before), EntryMoves(FinalBase(before), r), k);
  }

  lemma ChangedBefore(before: seq<Entry>, r: Entry, k: nat, others: seq<Entry>)
    requires k < |Moves(before)| && Moves(before)[k].Word? && SameEntries(before, others)
    requires Moves(others) == Changed(Moves(before), k)
    ensures k < |Moves(before + [r])| && Moves(before + [r])[k].Word?
    ensures Moves(others + [r]) == Changed(Moves(before + [r]), k)
  {
    SameFile(before, others);
    MovesConcat(before, r);
    MovesConcat(others, r);
    ChangedConcat(Moves(before), EntryMoves(FinalBase(before), r), k);
  }

  /** The file with another first byte in the word of move `k`. */
  lemma {:induction false} ChangedFile(file: seq<Entry>, k: nat) returns (other: seq<Entry>)
    requires k < |Moves(file)| && Moves(file)[k].Word?
    ensures SameEntries(file, other) && Moves(other) == Changed(Moves(file), k)
    decreases |file|
  {
    var before, r := file[..|file| - 1], file[|file| - 1];
    assert before + [r] == file;
    MovesConcat(before, r);
    if k < |Moves(before)| {
      var others := ChangedFile(before, k);
      ChangedBefore(before, r, k, others);
      other := others + [r];
    } else {
      var r' := ChangedLast(before, r, k);
      other := before + [r'];
    }
  }

  // ----- The exact condition

  /** The file is loaded as a copy: its words in their places, the rest of their pages blank. */
  ghost predicate LoadsAsCopy(p: Parser, file: seq<Entry>)
    requires AllStayBelow(file)
  {
    forall i :: 0 <= i < FLASH_SIZE ==>
      Run(p, WholeText(file)).memory.flash[i] == Wanted(p.memory.flash, Moves(file), i)
  }

  /** And so is every file with the same records, whatever their bytes. */
  ghost predicate AlwaysLoadsAsCopy(p: Parser, file: seq<Entry>) {
    forall other: seq<Entry> | SameEntries(file, other) :: AllStayBelow(other) && LoadsAsCopy(p, other)
  }

  lemma LoadsByMoves(p: Parser, file: seq<Entry>)
    requires Initial(p) && AllStayBelow(file)
    ensures LoadsAsCopy(p, file) <==> IsCopy(CursorOf(p), Moves(file), FinalBase(file))
  {
    FileEnds(p, file);
  }

  /**
   A file of data and extended address records below the bootloader, with gaps, in any order, each address
   given once: it is loaded as a copy whatever its bytes are if and only if every word finds its own page open,
   in which no word was before unless it is dirty, and the last page is written.
   */
  lemma CopiesExactlyInOrder(p: Parser, file: seq<Entry>)
    requires Initial(p) && AllStayBelow(file) && IsDistinct(Moves(file))
    ensures AlwaysLoadsAsCopy(p, file) <==> IsOrdered(Moves(file), FinalBase(file))
  {
    var ms, end := Moves(file), FinalBase(file);
    if IsOrdered(ms, end) {
      forall other: seq<Entry> | SameEntries(file, other) ensures AllStayBelow(other) && LoadsAsCopy(p, other) {
        SameFile(file, other);
        SameOrder(ms, Moves(other), end);
        FileIsMoves(other);
        OrderedIsCopy(CursorOf(p), Moves(other), end);
        LoadsByMoves(p, other);
      }
    } else {
      FileIsMoves(file);
      var k := DisorderIsNoCopy(CursorOf(p), ms, end);
      var other := ChangedFile(file, k);
      SameFile(file, other);
      LoadsByMoves(p, file);
      LoadsByMoves(p, other);
      assert SameEntries(file, file) && SameEntries(file, other);
    }
  }
}
