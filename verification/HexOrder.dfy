/**
 The order of the records in a HEX file: with data alone, a file is loaded as a copy if and
 only if every record starts in the page where the one before it ended.
 */
module HexOrder {
  import opened Bytes
  import opened Flash
  import opened HexLoader
  import opened HexRecords
  import opened HexLoad
  import opened HexMoves
  import opened HexFiles

  /** The address after the data of a record, or where it was. */
  function EndAfter(end: nat, base: nat, r: Entry): nat {
    if r.Data? && r.words != [] then base + r.at + 2 * |r.words| else end
  }

  /** The address after the last data. */
  function EndOf(file: seq<Entry>): nat {
    if file == [] then 0
    else EndAfter(EndOf(file[..|file| - 1]), FinalBase(file[..|file| - 1]), file[|file| - 1])
  }

  /**
   Data starts in the page where the data before it ended. Records without data come at a page's end, or are
   addressed to that page themselves.
   */
  predicate Continues(end: nat, base: nat, r: Entry) {
    PageStart(base + r.at) == PageStart(end) || (PageStart(end) == end && !(r.Data? && r.words != []))
  }

  predicate AllContinue(file: seq<Entry>) {
    file == [] ||
    (AllContinue(file[..|file| - 1]) &&
     Continues(EndOf(file[..|file| - 1]), FinalBase(file[..|file| - 1]), file[|file| - 1]))
  }

  /** The page of `end` is open, dirty unless it starts there, and no word is in or above it if it is clean. */
  ghost predicate OpenAt(ms: seq<Move>, end: nat) {
    && Opened(ms) == Open(PageStart(end), PageStart(end) != end)
    && forall page: nat :: Touches(ms, page) ==> page <= PageStart(end) && page != end
  }

  lemma AtPageEnd(address: nat)
    requires address % 2 == 0
    ensures PageStart(address + 2) == PageStart(address) || PageStart(address + 2) == address + 2
    ensures PageStart(address) <= address < address + 2
  {
  }

  /** One word of the page of `end`. */
  lemma NextWordFollows(ms: seq<Move>, end: nat, m: Move)
    requires OpenAt(ms, end) && m.Word? && m.address % 2 == 0 && PageStart(m.address) == PageStart(end)
    ensures OpenAt(ms + [m], m.address + 2) && InPlace(ms + [m], |ms|)
  {
    var more := ms + [m];
    assert more[..|ms|] == ms && more[|ms|] == m;
    AtPageEnd(m.address);
  }

  lemma InPlaceConcat(ms: seq<Move>, m: Move)
    ensures AllInPlace(ms + [m]) <==> AllInPlace(ms) && InPlace(ms + [m], |ms|)
  {
    forall n: nat | n < |ms| ensures InPlace(ms + [m], n) == InPlace(ms, n) {
      assert (ms + [m])[..n] == ms[..n];
    }
  }

  lemma NextVisitFollows(ms: seq<Move>, end: nat, address: nat)
    requires OpenAt(ms, end) && (PageStart(address) == PageStart(end) || PageStart(end) == end)
    ensures OpenAt(ms + [Visit(address)], end) && InPlace(ms + [Visit(address)], |ms|)
  {
    var more := ms + [Visit(address)];
    assert more[..|ms|] == ms && more[|ms|] == Visit(address);
  }

  ghost predicate Following(ms: seq<Move>, end: nat) {
    OpenAt(ms, end) && AllInPlace(ms)
  }

  lemma WordFollows(ms: seq<Move>, end: nat, m: Move)
    requires Following(ms, end) && m.Word? && m.address % 2 == 0 && PageStart(m.address) == PageStart(end)
    ensures Following(ms + [m], m.address + 2)
  {
    NextWordFollows(ms, end, m);
    InPlaceConcat(ms, m);
  }

  lemma VisitFollows(ms: seq<Move>, end: nat, address: nat)
    requires Following(ms, end) && (PageStart(address) == PageStart(end) || PageStart(end) == end)
    ensures Following(ms + [Visit(address)], end)
  {
    NextVisitFollows(ms, end, address);
    InPlaceConcat(ms, Visit(address));
  }

  lemma NextWords(ms: seq<Move>, address: nat, words: seq<Pair>)
    requires words != []
    ensures ms + Words(address, words) ==
            ms + [Word(address, words[0].low, words[0].high)] + Words(address + 2, words[1..])
  {
  }

  lemma {:induction false} WordsFollow(ms: seq<Move>, end: nat, address: nat, words: seq<Pair>)
    requires Following(ms, end) && words != [] && address % 2 == 0 && PageStart(address) == PageStart(end)
    ensures Following(ms + Words(address, words), address + 2 * |words|)
    decreases |words|
  {
    var m := Word(address, words[0].low, words[0].high);
    NextWords(ms, address, words);
    WordFollows(ms, end, m);
    if words[1..] == [] {
      assert ms + [m] + Words(address + 2, words[1..]) == ms + [m];
    } else {
      WordsFollow(ms + [m], address + 2, address + 2, words[1..]);
    }
  }

  lemma Regroups(a: seq<Move>, b: seq<Move>, m: Move)
    ensures a + (b + [m]) == a + b + [m]
  {
  }

  lemma DataFollows(ms: seq<Move>, end: nat, address: nat, words: seq<Pair>)
    requires Following(ms, end) && words != [] && address % 2 == 0 && PageStart(address) == PageStart(end)
    ensures Following(ms + DataMoves(address, words), address + 2 * |words|)
  {
    WordsFollow(ms, end, address, words);
    VisitFollows(ms + Words(address, words), address + 2 * |words|, address + 2 * |words|);
    Regroups(ms, Words(address, words), Visit(address + 2 * |words|));
  }

  lemma VisitOfEntry(base: nat, r: Entry)
    requires !(r.Data? && r.words != [])
    ensures EntryMoves(base, r) == [Visit(base + r.at)]
  {
  }

  lemma EntryFollows(ms: seq<Move>, end: nat, base: nat, r: Entry)
    requires Following(ms, end) && StaysBelow(base, r) && Continues(end, base, r)
    ensures Following(ms + EntryMoves(base, r), EndAfter(end, base, r))
  {
    if r.Data? && r.words != [] {
      DataFollows(ms, end, base + r.at, r.words);
    } else {
      VisitFollows(ms, end, base + r.at);
      VisitOfEntry(base, r);
    }
  }

  lemma LastEntry(before: seq<Entry>, r: Entry)
    ensures var file := before + [r];
            && Moves(file) == Moves(before) + EntryMoves(FinalBase(before), r)
            && EndOf(file) == EndAfter(EndOf(before), FinalBase(before), r)
            && (AllStayBelow(file) <==> AllStayBelow(before) && StaysBelow(FinalBase(before), r))
            && (AllContinue(file) <==> AllContinue(before) && Continues(EndOf(before), FinalBase(before), r))
  {
    assert (before + [r])[..|before|] == before;
  }

  ghost predicate IsInPlace(file: seq<Entry>) {
    Following(Moves(file), EndOf(file))
  }

  lemma NextIsInPlace(before: seq<Entry>, r: Entry)
    requires IsInPlace(before) && StaysBelow(FinalBase(before), r) && Continues(EndOf(before), FinalBase(before), r)
    ensures IsInPlace(before + [r])
  {
    EntryFollows(Moves(before), EndOf(before), FinalBase(before), r);
    LastEntry(before, r);
  }

  /** Records that follow each other program every word in place. */
  lemma {:induction false} FollowingIsInPlace(file: seq<Entry>)
    requires AllStayBelow(file) && AllContinue(file)
    ensures IsInPlace(file)
    decreases |file|
  {
    if file == [] {
      EmptyIsInPlace();
    } else {
      var before, r := file[..|file| - 1], file[|file| - 1];
      assert before + [r] == file;
      LastEntry(before, r);
      FollowingIsInPlace(before);
      NextIsInPlace(before, r);
    }
  }

  lemma EmptyIsInPlace()
    ensures IsInPlace([])
  {
  }

  ghost predicate OnlyData(file: seq<Entry>) {
    forall k :: 0 <= k < |file| ==> file[k].Data? && file[k].words != []
  }

  lemma InPlaceSplit(a: seq<Move>, b: seq<Move>)
    requires AllInPlace(a + b) && b != [] && b[0].Word?
    ensures AllInPlace(a) && PageStart(b[0].address) == Opened(a).page
  {
    assert InPlace(a + b, |a|) && (a + b)[..|a|] == a;
    forall k: nat | k < |a| ensures InPlace(a, k) {
      assert InPlace(a + b, k) && (a + b)[..k] == a[..k];
    }
  }

  lemma MovesOfData(before: seq<Entry>, at: word, words: seq<Pair>, n: nat)
    requires FinalBase(before) + at == n
    ensures Moves(before + [Data(at, words)]) == Moves(before) + DataMoves(n, words)
  {
    assert EntryMoves(FinalBase(before), Data(at, words)) == DataMoves(n, words);
    MovesConcat(before, Data(at, words));
  }

  lemma InPlaceBefore(before: seq<Entry>, r: Entry)
    requires r.Data? && r.words != [] && AllInPlace(Moves(before + [r]))
    ensures AllInPlace(Moves(before)) && PageStart(FinalBase(before) + r.at) == Opened(Moves(before)).page
  {
    MovesOfData(before, r.at, r.words, FinalBase(before) + r.at);
    InPlaceSplit(Moves(before), DataMoves(FinalBase(before) + r.at, r.words));
  }

  lemma InPlaceContinues(before: seq<Entry>, r: Entry)
    requires r.Data? && r.words != [] && AllInPlace(Moves(before + [r])) && IsInPlace(before)
    ensures Continues(EndOf(before), FinalBase(before), r)
  {
    InPlaceBefore(before, r);
  }

  lemma OnlyDataBefore(before: seq<Entry>, r: Entry)
    requires OnlyData(before + [r])
    ensures OnlyData(before) && r.Data? && r.words != []
  {
    var file := before + [r];
    assert file[|before|] == r;
    assert forall k :: 0 <= k < |before| ==> file[k] == before[k];
  }

  lemma {:induction false} InPlaceIsFollowing(file: seq<Entry>)
    requires AllStayBelow(file) && OnlyData(file) && AllInPlace(Moves(file))
    ensures AllContinue(file)
    decreases |file|
  {
    if file == [] {
    } else {
      var before, r := file[..|file| - 1], file[|file| - 1];
      assert before + [r] == file;
      OnlyDataBefore(before, r);
      LastEntry(before, r);
      InPlaceBefore(before, r);
      InPlaceIsFollowing(before);
      FollowingIsInPlace(before);
      InPlaceContinues(before, r);
    }
  }

  // ----- When files are copies

  lemma WrittenAtEnd(ms: seq<Move>, end: nat, base: nat)
    requires OpenAt(ms, end)
    ensures Control(Opened(ms), Visit(base)).dirty <==> PageStart(end) != end && PageStart(end) == PageStart(base)
  {
  }

  lemma {:induction false} DataKeepsBase(file: seq<Entry>)
    requires OnlyData(file)
    ensures FinalBase(file) == 0
    decreases |file|
  {
    if file == [] {
    } else {
      assert file[|file| - 1].Data?;
      DataKeepsBase(file[..|file| - 1]);
    }
  }

  lemma FirstPageOnly(end: nat)
    ensures PageStart(end) != end && PageStart(end) == PageStart(0) <==> 0 < end < PAGE_SIZE
  {
  }

  /**
   A file of data records, with any gaps, each address given once: it is loaded as a copy whatever its bytes
   are if and only if every record starts in the page where the one before it ended, from page 0 on, and the
   last one ends beyond the first page.
   */
  lemma DataCopiesExactly(p: Parser, file: seq<Entry>)
    requires Initial(p) && AllStayBelow(file) && OnlyData(file) && IsDistinct(Moves(file))
    ensures AlwaysLoadsAsCopy(p, file) <==> AllContinue(file) && (file == [] || EndOf(file) >= PAGE_SIZE)
  {
    CopiesExactlyInOrder(p, file);
    DataKeepsBase(file);
    if AllInPlace(Moves(file)) {
      InPlaceIsFollowing(file);
    }
    if AllContinue(file) {
      FollowingIsInPlace(file);
      WrittenAtEnd(Moves(file), EndOf(file), 0);
      FirstPageOnly(EndOf(file));
      assert file != [] ==> file[|file| - 1].Data?;
    }
  }

  /** With extended addresses, records that follow each other are a copy if the last page is not the base's. */
  lemma FollowingIsCopy(p: Parser, file: seq<Entry>)
    requires Initial(p) && AllStayBelow(file) && AllContinue(file)
    requires PageStart(EndOf(file)) == EndOf(file) || PageStart(EndOf(file)) != PageStart(FinalBase(file))
    ensures LoadsAsCopy(p, file)
  {
    FollowingIsInPlace(file);
    WrittenAtEnd(Moves(file), EndOf(file), FinalBase(file));
    FileIsMoves(file);
    OrderedIsCopy(CursorOf(p), Moves(file), FinalBase(file));
    LoadsByMoves(p, file);
  }

  // ----- Every image can be loaded

  /** The base address in force at page `n`: the segments 0x0101 and 0x1010 read the same both ways. */
  function PageBase(n: nat): nat {
    if n < 0x20 then 0 else if n < 0x110 then 0x1010 else 0x10100
  }

  function Switch(n: nat): seq<Entry> {
    if n == 0x20 then [Extended(0, TYPE_EXTENDED_SEGMENT, 0x01, 0x01)]
    else if n == 0x110 then [Extended(0, TYPE_EXTENDED_SEGMENT, 0x10, 0x10)]
    else []
  }

  const HALF := 64                       // words in half a page

  /** Half a page of an image, from word `n` on. */
  function HalfPage(image: seq<Pair>, n: nat, base: nat): Entry
    requires n + HALF <= |image| && 0 <= 2 * n - base < 0x10000
  {
    Data(2 * n - base, image[n..n + HALF])
  }

  lemma PageStarts(n: nat)
    requires PAGE_SIZE * (n + 1) <= BOOT_START
    ensures 0 <= PAGE_SIZE * n - PageBase(n) < 0x10000 - 2 * HALF && PageBase(n) % 2 == 0
  {
  }

  /** The file with the records of page `n`. */
  function WithPage(file: seq<Entry>, image: seq<Pair>, n: nat): seq<Entry>
    requires 2 * HALF * (n + 1) <= |image| && 2 * |image| <= BOOT_START
  {
    PageStarts(n);
    var start, base := 2 * HALF * n, PageBase(n);
    file + Switch(n) + [HalfPage(image, start, base)] + [HalfPage(image, start + HALF, base)]
  }

  /** A file for the first `n` pages of an image. */
  function PagesFile(image: seq<Pair>, n: nat): seq<Entry>
    requires 2 * HALF * n <= |image| && 2 * |image| <= BOOT_START
  {
    if n == 0 then [] else WithPage(PagesFile(image, n - 1), image, n - 1)
  }

  /** Word `k` is given its two bytes. */
  predicate GivesWord(ms: seq<Move>, address: nat, word: Pair) {
    Given(ms, address) == Some(word.low) && Given(ms, address + 1) == Some(word.high)
  }

  lemma {:induction false} GivenByWords(ms: seq<Move>, address: nat, words: seq<Pair>, n: nat)
    requires n <= |words| && address % 2 == 0
    ensures forall k: nat :: k < n ==> GivesWord(ms + Words(address, words[..n]), address + 2 * k, words[k])
    ensures forall i: nat :: !(address <= i < address + 2 * n) ==>
              Given(ms + Words(address, words[..n]), i) == Given(ms, i)
    decreases n
  {
    if n == 0 {
      assert ms + Words(address, words[..0]) == ms;
    } else {
      var m := Word(address + 2 * (n - 1), words[n - 1].low, words[n - 1].high);
      var rest := ms + Words(address, words[..n - 1]);
      assert ms + Words(address, words[..n]) == rest + [m];
      assert (rest + [m])[..|rest|] == rest;
      GivenByWords(ms, address, words, n - 1);
    }
  }

  lemma GivenByVisit(ms: seq<Move>, address: nat, i: nat)
    ensures Given(ms + [Visit(address)], i) == Given(ms, i)
  {
    assert (ms + [Visit(address)])[..|ms|] == ms;
  }

  lemma GivenByData(ms: seq<Move>, address: nat, words: seq<Pair>)
    requires address % 2 == 0
    ensures forall k: nat :: k < |words| ==> GivesWord(ms + DataMoves(address, words), address + 2 * k, words[k])
    ensures forall i: nat :: !(address <= i < address + 2 * |words|) ==>
              Given(ms + DataMoves(address, words), i) == Given(ms, i)
  {
    GivenByWords(ms, address, words, |words|);
    assert words[..|words|] == words;
    Regroups(ms, Words(address, words), Visit(address + 2 * |words|));
    forall i: nat ensures Given(ms + DataMoves(address, words), i) == Given(ms + Words(address, words), i) {
      GivenByVisit(ms + Words(address, words), address + 2 * |words|, i);
    }
  }

  ghost predicate GivesWords(ms: seq<Move>, image: seq<Pair>, n: nat)
    requires n <= |image|
  {
    && (forall k: nat :: k < n ==> GivesWord(ms, 2 * k, image[k]))
    && (forall i: nat :: i >= 2 * n ==> Given(ms, i) == None)
  }

  /** The file gives the first `n` words of an image, one after the other, and is at base `base`. */
  ghost predicate Gives(file: seq<Entry>, image: seq<Pair>, n: nat, base: nat)
    requires n <= |image|
  {
    && AllStayBelow(file) && AllContinue(file) && EndOf(file) == 2 * n && FinalBase(file) == base
    && GivesWords(Moves(file), image, n)
  }

  lemma LastBase(before: seq<Entry>, r: Entry)
    ensures FinalBase(before + [r]) == BaseAfter(FinalBase(before), r)
  {
    assert (before + [r])[..|before|] == before;
  }

  lemma StaysInImage(base: nat, at: word, words: seq<Pair>, n: nat)
    requires base + at == 2 * n && 0 < |words| < 128 && 2 * (n + |words|) <= BOOT_START
    ensures StaysBelow(base, Data(at, words)) && Continues(2 * n, base, Data(at, words))
    ensures EndAfter(2 * n, base, Data(at, words)) == 2 * (n + |words|)
  {
  }

  lemma GivesMoreWords(ms: seq<Move>, image: seq<Pair>, n: nat, words: seq<Pair>, k: nat)
    requires n + |words| <= |image| && words == image[n..n + |words|] && k < n + |words|
    requires k < n ==> GivesWord(ms, 2 * k, image[k])
    ensures GivesWord(ms + DataMoves(2 * n, words), 2 * k, image[k])
  {
    GivenByData(ms, 2 * n, words);
    if k >= n {
      assert GivesWord(ms + DataMoves(2 * n, words), 2 * n + 2 * (k - n), words[k - n]);
    }
  }

  lemma GivesAllWords(ms: seq<Move>, image: seq<Pair>, n: nat, words: seq<Pair>)
    requires n + |words| <= |image| && words == image[n..n + |words|] && GivesWords(ms, image, n)
    ensures GivesWords(ms + DataMoves(2 * n, words), image, n + |words|)
  {
    GivenByData(ms, 2 * n, words);
    forall k: nat | k < n + |words| ensures GivesWord(ms + DataMoves(2 * n, words), 2 * k, image[k]) {
      GivesMoreWords(ms, image, n, words, k);
    }
  }

  lemma GivesMore(file: seq<Entry>, image: seq<Pair>, n: nat, base: nat, r: Entry)
    requires r.Data? && n + |r.words| <= |image| && 2 * |image| <= BOOT_START && r.words == image[n..n + |r.words|]
    requires Gives(file, image, n, base) && 0 < |r.words| < 128 && base + r.at == 2 * n
    ensures Gives(file + [r], image, n + |r.words|, base)
  {
    StaysInImage(base, r.at, r.words, n);
    LastEntry(file, r);
    LastBase(file, r);
    MovesOfData(file, r.at, r.words, 2 * n);
    GivesAllWords(Moves(file), image, n, r.words);
  }

  lemma GivesAfterVisit(ms: seq<Move>, image: seq<Pair>, n: nat, address: nat)
    requires n <= |image| && GivesWords(ms, image, n)
    ensures GivesWords(ms + [Visit(address)], image, n)
  {
    forall i: nat ensures Given(ms + [Visit(address)], i) == Given(ms, i) {
      GivenByVisit(ms, address, i);
    }
    forall k: nat | k < n ensures GivesWord(ms + [Visit(address)], 2 * k, image[k]) {
      assert GivesWord(ms, 2 * k, image[k]);
    }
  }

  lemma GivesAfterSwitch(file: seq<Entry>, image: seq<Pair>, n: nat, base: nat, r: Entry)
    requires n <= |image| && Gives(file, image, n, base) && r.Extended? && StaysBelow(base, r)
    requires PageStart(2 * n) == 2 * n
    ensures Gives(file + [r], image, n, BaseAfter(base, r))
  {
    LastEntry(file, r);
    LastBase(file, r);
    GivesAfterVisit(Moves(file), image, n, FinalBase(file) + r.at);
  }

  /** The base in force after `n` pages. */
  function BaseOfPages(n: nat): nat {
    if n == 0 then 0 else PageBase(n - 1)
  }

  ghost predicate GivesPages(file: seq<Entry>, image: seq<Pair>, n: nat) {
    2 * HALF * n <= |image| && Gives(file, image, 2 * HALF * n, BaseOfPages(n))
  }

  lemma PagesEnd(n: nat)
    ensures PageStart(PAGE_SIZE * n) == PAGE_SIZE * n
  {
  }

  lemma GivesSwitch(file: seq<Entry>, image: seq<Pair>, n: nat)
    requires GivesPages(file, image, n) && PAGE_SIZE * n < BOOT_START
    ensures Gives(file + Switch(n), image, 2 * HALF * n, PageBase(n))
  {
    if Switch(n) == [] {
      assert file + Switch(n) == file;
    } else {
      PagesEnd(n);
      GivesAfterSwitch(file, image, 2 * HALF * n, BaseOfPages(n), Switch(n)[0]);
    }
  }

  /** Half a page more. */
  lemma GivesHalf(file: seq<Entry>, image: seq<Pair>, n: nat, base: nat)
    requires n + HALF <= |image| && 2 * |image| <= BOOT_START && 0 <= 2 * n - base < 0x10000
    requires Gives(file, image, n, base)
    ensures Gives(file + [HalfPage(image, n, base)], image, n + HALF, base)
  {
    GivesMore(file, image, n, base, HalfPage(image, n, base));
  }

  lemma GivesBoth(file: seq<Entry>, image: seq<Pair>, n: nat, base: nat)
    requires n + 2 * HALF <= |image| && 2 * |image| <= BOOT_START && 0 <= 2 * n - base < 0x10000 - 2 * HALF
    requires Gives(file, image, n, base)
    ensures Gives(file + [HalfPage(image, n, base)] + [HalfPage(image, n + HALF, base)], image, n + 2 * HALF, base)
  {
    GivesHalf(file, image, n, base);
    GivesHalf(file + [HalfPage(image, n, base)], image, n + HALF, base);
  }

  /** A page more. */
  lemma GivesPage(file: seq<Entry>, image: seq<Pair>, n: nat)
    requires 2 * HALF * (n + 1) <= |image| && 2 * |image| <= BOOT_START && GivesPages(file, image, n)
    ensures GivesPages(WithPage(file, image, n), image, n + 1)
  {
    PageStarts(n);
    GivesSwitch(file, image, n);
    GivesBoth(file + Switch(n), image, 2 * HALF * n, PageBase(n));
    assert BaseOfPages(n + 1) == PageBase(n) && 2 * HALF * (n + 1) == 2 * HALF * n + 2 * HALF;
  }

  lemma NoPages(image: seq<Pair>)
    ensures GivesPages([], image, 0)
  {
  }

  lemma {:induction false} PagesAreGiven(image: seq<Pair>, n: nat)
    requires 2 * HALF * n <= |image| && 2 * |image| <= BOOT_START
    ensures GivesPages(PagesFile(image, n), image, n)
    decreases n
  {
    if n == 0 {
      NoPages(image);
    } else {
      PagesAreGiven(image, n - 1);
      GivesPage(PagesFile(image, n - 1), image, n - 1);
    }
  }

  lemma Untouched(ms: seq<Move>, end: nat, i: nat)
    requires OpenAt(ms, end) && PageStart(end) == end <= i
    ensures !Touches(ms, PageStart(i))
  {
  }

  /** Flash holds the image from address 0 on, and is otherwise as before. */
  ghost predicate HoldsImage(after: FlashBytes, before: FlashBytes, image: seq<Pair>)
    requires 2 * |image| <= FLASH_SIZE
  {
    && (forall k :: 0 <= k < |image| ==> after[2 * k] == image[k].low && after[2 * k + 1] == image[k].high)
    && (forall i :: 2 * |image| <= i < FLASH_SIZE ==> after[i] == before[i])
  }

  lemma WantedOfPages(flash: FlashBytes, file: seq<Entry>, image: seq<Pair>, n: nat, after: FlashBytes)
    requires |image| == 2 * HALF * n && 2 * |image| <= BOOT_START && GivesPages(file, image, n) && IsInPlace(file)
    requires forall i :: 0 <= i < FLASH_SIZE ==> after[i] == Wanted(flash, Moves(file), i)
    ensures HoldsImage(after, flash, image)
  {
    forall k: nat | k < |image|
      ensures after[2 * k] == image[k].low && after[2 * k + 1] == image[k].high
    {
      assert GivesWord(Moves(file), 2 * k, image[k]);
    }
    PagesEnd(n);
    forall i | 2 * |image| <= i < FLASH_SIZE ensures after[i] == flash[i] {
      assert Given(Moves(file), i) == None;
      Untouched(Moves(file), 2 * |image|, i);
    }
  }

  /**
   Every image of whole pages below the bootloader has a file that loads it, also beyond 64 KiB: its extended
   addresses are ones that read the same both ways.
   */
  lemma EveryImageLoads(p: Parser, image: seq<Pair>, n: nat)
    requires Initial(p) && |image| == 2 * HALF * n && 2 * |image| <= BOOT_START
    ensures AllStayBelow(PagesFile(image, n))
    ensures HoldsImage(Run(p, WholeText(PagesFile(image, n))).memory.flash, p.memory.flash, image)
  {
    var file := PagesFile(image, n);
    PagesAreGiven(image, n);
    FollowingIsInPlace(file);
    PagesEnd(n);
    FollowingIsCopy(p, file);
    WantedOfPages(p.memory.flash, file, image, n, Run(p, WholeText(file)).memory.flash);
  }
}
