/**
 The HEX loader's protection of the bootloader section: when flash at and above the
 bootloader stays as it is, what happens when it does not, and a file that erases it.
 */
module HexGuard {
  import opened Bytes
  import opened Flash
  import opened Folds
  import opened HexLoader
  import opened HexRecords
  import opened HexBase
  import opened HexLoad

  /** The bytes at and above the bootloader's start are the same. */
  ghost predicate SameBoot(m: Memory, m': Memory) {
    forall i :: BOOT_START <= i < FLASH_SIZE ==> m'.flash[i] == m.flash[i]
  }

  /** The open page is one of the bootloader's. */
  predicate OpensBoot(c: Cursor) {
    PageOf(c.page) >= BOOT_START
  }

  /** The byte completes a data word. */
  predicate CompletesWord(p: Parser) {
    p.state == ReadData && p.dataRem % 2 == 1 && p.address < BOOT_START && p.recordType == TYPE_DATA
  }

  /** This character completes a data word while the open page is one of the bootloader's. */
  predicate Strikes(p: Parser, c: char) {
    OpensBoot(CursorOf(p)) && CompletesWord(p) && EndsByte(p, c)
  }

  // ----- What a step can do to the bootloader section

  /** A page below the bootloader's start is all below it. */
  lemma PageIsBelow(page: nat)
    requires PageOf(page) < BOOT_START
    ensures PageOf(page) + PAGE_SIZE <= BOOT_START
  {
  }

  lemma PutKeepsBoot(c: Cursor, address: nat, low: byte, high: byte)
    requires !OpensBoot(c)
    ensures SameBoot(c.memory, Put(c, address, low, high).memory)
  {
    PageIsBelow(c.page);
  }

  lemma MovedKeepsBoot(c: Cursor, address: nat)
    requires !OpensBoot(c) || !c.dirty
    ensures SameBoot(c.memory, Moved(c, address).memory)
  {
    if !OpensBoot(c) {
      PageIsBelow(c.page);
    }
  }

  lemma WordEffect(p: Parser)
    requires CompletesWord(p)
    ensures CursorOf(CompleteByte(p)) == Put(CursorOf(p), p.address, p.prevData, p.data)
  {
    assert p.(data := p.data) == p;
    SecondByteIsRead(p, p.data);
  }

  lemma CheckEffect(p: Parser)
    requires p.state == Checksum
    ensures CursorOf(CompleteByte(p)) == CursorOf(p) || CursorOf(CompleteByte(p)) == Moved(CursorOf(p), p.address)
  {
  }

  lemma OtherEffect(p: Parser)
    requires p.state != WaitLine && p.state != Checksum && !CompletesWord(p)
    ensures var q := CompleteByte(p);
            q.memory == p.memory && q.pageStart == p.pageStart && (q.dirty ==> p.dirty)
  {
    if p.state == ReadData {
      Parity(p.dataRem);
    }
  }

  lemma Parity(n: byte)
    ensures Low8(n as int - 1) % 2 == 0 <==> n % 2 == 1
  {
  }

  /** What a byte of a record does to the memory and the open page. */
  lemma ByteEffect(p: Parser)
    requires p.state != WaitLine
    ensures var q := CompleteByte(p);
            || (q.memory == p.memory && q.pageStart == p.pageStart && (q.dirty ==> p.dirty))
            || CursorOf(q) == Moved(CursorOf(p), p.address)
            || (CompletesWord(p) && CursorOf(q) == Put(CursorOf(p), p.address, p.prevData, p.data))
  {
    if CompletesWord(p) {
      WordEffect(p);
    } else if p.state == Checksum {
      CheckEffect(p);
    } else {
      OtherEffect(p);
    }
  }

  lemma OtherStep(p: Parser, c: char)
    requires !EndsByte(p, c)
    ensures CursorOf(Step(p, c)) == CursorOf(p)
  {
  }

  lemma StepEffect(p: Parser, c: char)
    ensures var q := Step(p, c);
            || (q.memory == p.memory && q.pageStart == p.pageStart && (q.dirty ==> p.dirty))
            || CursorOf(q) == Moved(CursorOf(p), p.address)
            || ((exists low: byte, high: byte :: CursorOf(q) == Put(CursorOf(p), p.address, low, high))
                && (OpensBoot(CursorOf(p)) ==> Strikes(p, c)))
  {
    if EndsByte(p, c) {
      var p1 := WithByte(p, c);
      assert Step(p, c) == CompleteByte(p1) && CursorOf(p1) == CursorOf(p);
      ByteEffect(p1);
    } else {
      OtherStep(p, c);
    }
  }

  /** A page of the bootloader is only ever open clean. */
  predicate Clean(p: Parser) {
    OpensBoot(CursorOf(p)) ==> !p.dirty
  }

  lemma StepKeepsBoot(p: Parser, c: char)
    requires Clean(p) && !Strikes(p, c)
    ensures SameBoot(p.memory, Step(p, c).memory) && Clean(Step(p, c))
  {
    var q, cursor := Step(p, c), CursorOf(p);
    StepEffect(p, c);
    if CursorOf(q) == Moved(cursor, p.address) {
      MovedKeepsBoot(cursor, p.address);
    } else if q.memory == p.memory && q.pageStart == p.pageStart && (q.dirty ==> p.dirty) {
    } else {
      var low: byte, high: byte :| CursorOf(q) == Put(cursor, p.address, low, high);
      PutKeepsBoot(cursor, p.address, low, high);
    }
  }

  /** No character of the text completes a data word while a page of the bootloader is open. */
  ghost predicate NeverStrikes(p: Parser, text: string) {
    forall n :: 0 <= n < |text| ==> !Strikes(Run(p, text[..n]), text[n])
  }

  /**
   For every text: as long as no data word is completed while a page of the bootloader is open, the
   bootloader section stays as it is.
   */
  lemma {:induction false} BootIsKept(p: Parser, text: string)
    requires Clean(p) && NeverStrikes(p, text)
    ensures SameBoot(p.memory, Run(p, text).memory) && Clean(Run(p, text))
    decreases |text|
  {
    if text == [] {
    } else {
      var before, c := text[..|text| - 1], text[|text| - 1];
      assert before + [c] == text;
      assert forall n :: 0 <= n < |before| ==> before[..n] == text[..n] && before[n] == text[n];
      BootIsKept(p, before);
      FoldNext(Step, p, before, c);
      StepKeepsBoot(Run(p, before), c);
    }
  }

  /** What such a word leaves in byte `i` of the page: nothing of what was there. */
  function Struck(p: Parser, c: char, i: nat): byte
    requires EndsByte(p, c) && InPage(i, PageOf(p.pageStart))
  {
    if p.pageStart == PageStart(p.address + 2) then BLANK
    else Fill(p.memory, p.address, p.prevData, WithByte(p, c).data).buffer[i - PageOf(p.pageStart)]
  }

  /**
   And if one is, the section survives the step exactly when the page already was what is left of it: blank
   if the page stays open, or else what the page buffer and the word make of it.
   */
  lemma StrikeIsExact(p: Parser, c: char)
    requires Strikes(p, c) && !p.dirty
    ensures SameBoot(p.memory, Step(p, c).memory) <==>
            forall i :: InPage(i, PageOf(p.pageStart)) && i < FLASH_SIZE ==> p.memory.flash[i] == Struck(p, c, i)
  {
    var q, page := Step(p, c), PageOf(p.pageStart);
    forall i | 0 <= i < FLASH_SIZE
      ensures q.memory.flash[i] == if InPage(i, page) then Struck(p, c, i) else p.memory.flash[i]
    {
      StruckByte(WithByte(p, c), i);
    }
  }

  lemma StruckByte(p: Parser, i: nat)
    requires CompletesWord(p) && !p.dirty && i < FLASH_SIZE
    ensures var q, page := CompleteByte(p), PageOf(p.pageStart);
            var buffer := Fill(p.memory, p.address, p.prevData, p.data).buffer;
            q.memory.flash[i] ==
            if !InPage(i, page) then p.memory.flash[i]
            else if p.pageStart == PageStart(p.address + 2) then BLANK else buffer[i - page]
  {
    assert p.(data := p.data) == p;
    SecondByteIsRead(p, p.data);
    PutErases(CursorOf(p), p.address, p.prevData, p.data, i);
  }

  lemma PutErases(c: Cursor, address: nat, low: byte, high: byte, i: nat)
    requires !c.dirty && i < FLASH_SIZE
    ensures var c', page := Put(c, address, low, high), PageOf(c.page);
            c'.memory.flash[i] ==
            if !InPage(i, page) then c.memory.flash[i]
            else if c.page == PageStart(address + 2) then BLANK
            else Fill(c.memory, address, low, high).buffer[i - page]
  {
    if InPage(i, PageOf(c.page)) {
      BlankIsNeutral(Fill(c.memory, address, low, high).buffer[i - PageOf(c.page)]);
    }
  }

  // ----- Runs that differ in flash alone

  const NOWHERE := FLASH_SIZE

  /** The same but for flash, where byte `i`, if it is one, is the same as well. */
  predicate Twins(p: Parser, q: Parser, i: nat) {
    && q == p.(memory := Memory(q.memory.flash, p.memory.buffer))
    && (i < FLASH_SIZE ==> p.memory.flash[i] == q.memory.flash[i])
  }

  lemma FlushTwins(p: Parser, q: Parser, i: nat)
    requires Twins(p, q, i)
    ensures Twins(Flush(p), Flush(q), i)
  {
  }

  lemma WordTwins(p: Parser, q: Parser, i: nat)
    requires Twins(p, q, i)
    ensures Twins(Word(p), Word(q), i)
  {
    if p.recordType == TYPE_DATA {
      var m := if p.dirty then p.memory else Erase(p.memory, p.pageStart);
      var n := if q.dirty then q.memory else Erase(q.memory, q.pageStart);
      FlushTwins(
        p.(memory := Fill(m, p.address, p.prevData, p.data), dirty := true, address := (p.address + 2) % TWO_32),
        q.(memory := Fill(n, q.address, q.prevData, q.data), dirty := true, address := (q.address + 2) % TWO_32), i);
    }
  }

  /** A byte of data that completes a word, and the end of the data. */
  function WordOrEnd(p: Parser): Parser {
    var p := Word(p);
    if p.dataRem == 0 then p.(state := Checksum) else p
  }

  lemma EndTwins(p: Parser, q: Parser, i: nat)
    requires Twins(p, q, i)
    ensures Twins(
              if p.dataRem == 0 then p.(state := Checksum) else p,
              if q.dataRem == 0 then q.(state := Checksum) else q, i)
  {
  }

  lemma WordOrEndTwins(p: Parser, q: Parser, i: nat)
    requires Twins(p, q, i)
    ensures Twins(WordOrEnd(p), WordOrEnd(q), i)
  {
    WordTwins(p, q, i);
    EndTwins(Word(p), Word(q), i);
  }

  lemma DataTwins(p: Parser, q: Parser, i: nat)
    requires Twins(p, q, i)
    ensures Twins(DataByte(p), DataByte(q), i)
  {
    var p1, q1 := p.(dataRem := Low8(p.dataRem as int - 1)), q.(dataRem := Low8(p.dataRem as int - 1));
    if p1.address < BOOT_START && p1.dataRem % 2 == 0 {
      WordOrEndTwins(p1, q1, i);
      assert DataByte(p) == WordOrEnd(p1) && DataByte(q) == WordOrEnd(q1);
    }
  }

  lemma CheckTwins(p: Parser, q: Parser, i: nat)
    requires Twins(p, q, i)
    ensures Twins(ChecksumByte(p), ChecksumByte(q), i)
  {
    FlushTwins(p, q, i);
  }

  lemma HeaderTwins(p: Parser, q: Parser, i: nat)
    requires Twins(p, q, i)
    ensures Twins(HeaderByte(p), HeaderByte(q), i)
  {
  }

  lemma ByteTwins(p: Parser, q: Parser, i: nat)
    requires Twins(p, q, i)
    ensures Twins(CompleteByte(p), CompleteByte(q), i)
  {
    var p1, q1 := p.(checksum := Low8(p.checksum as int + p.data)), q.(checksum := Low8(p.checksum as int + p.data));
    if p.state == Checksum {
      CheckTwins(p, q, i);
      assert CompleteByte(p) == ChecksumByte(p) && CompleteByte(q) == ChecksumByte(q);
    } else if p.state == ReadData {
      DataTwins(p1, q1, i);
      assert CompleteByte(p) == DataByte(p1) && CompleteByte(q) == DataByte(q1);
    } else {
      HeaderTwins(p1, q1, i);
      assert CompleteByte(p) == HeaderByte(p1) && CompleteByte(q) == HeaderByte(q1);
    }
  }

  /** What flash holds has no influence on anything else. */
  lemma StepTwins(p: Parser, q: Parser, c: char, i: nat)
    requires Twins(p, q, i)
    ensures Twins(Step(p, c), Step(q, c), i)
  {
    if EndsByte(p, c) {
      ByteTwins(WithByte(p, c), WithByte(q, c), i);
      assert Step(p, c) == CompleteByte(WithByte(p, c)) && Step(q, c) == CompleteByte(WithByte(q, c));
    } else {
      OtherTwins(p, q, c, i);
    }
  }

  lemma OtherTwins(p: Parser, q: Parser, c: char, i: nat)
    requires Twins(p, q, i) && !EndsByte(p, c)
    ensures Twins(Step(p, c), Step(q, c), i)
  {
  }

  lemma StruckTwins(p: Parser, q: Parser, i: nat)
    requires Twins(p, q, NOWHERE) && CompletesWord(p) && !p.dirty && InPage(i, PageOf(p.pageStart)) && i < FLASH_SIZE
    ensures CompleteByte(p).memory.flash[i] == CompleteByte(q).memory.flash[i]
  {
    StruckByte(p, i);
    StruckByte(q, i);
  }

  /** A struck page no longer depends on what it held. */
  lemma StrikeTwins(p: Parser, q: Parser, c: char, i: nat)
    requires Twins(p, q, NOWHERE) && Strikes(p, c) && !p.dirty && InPage(i, PageOf(p.pageStart)) && i < FLASH_SIZE
    ensures Twins(Step(p, c), Step(q, c), i)
  {
    StepTwins(p, q, c, NOWHERE);
    StruckTwins(WithByte(p, c), WithByte(q, c), i);
    assert Step(p, c) == CompleteByte(WithByte(p, c)) && Step(q, c) == CompleteByte(WithByte(q, c));
  }

  lemma {:induction false} RunTwins(p: Parser, q: Parser, text: string, i: nat)
    requires Twins(p, q, i)
    ensures Twins(Run(p, text), Run(q, text), i)
    decreases |text|
  {
    if text == [] {
    } else {
      StepTwins(p, q, text[0], i);
      RunTwins(Step(p, text[0]), Step(q, text[0]), text[1..], i);
    }
  }

  // ----- The exact condition, over every text

  function WithFlash(p: Parser, flash: FlashBytes): Parser {
    p.(memory := Memory(flash, p.memory.buffer))
  }

  /** The section is kept, whatever flash holds. */
  ghost predicate AlwaysKept(p: Parser, text: string) {
    forall flash: FlashBytes :: SameBoot(WithFlash(p, flash).memory, Run(WithFlash(p, flash), text).memory)
  }

  /** The first character that strikes, with no page of the bootloader dirty before. */
  lemma {:induction false} FirstStrike(p: Parser, text: string) returns (n: nat)
    requires Clean(p) && !NeverStrikes(p, text)
    ensures n < |text| && Strikes(Run(p, text[..n]), text[n]) && Clean(Run(p, text[..n]))
    decreases |text|
  {
    var last := |text| - 1;
    var before := text[..last];
    assert forall k :: 0 <= k < last ==> before[..k] == text[..k];
    if NeverStrikes(p, before) {
      BootIsKept(p, before);
      n := last;
    } else {
      n := FirstStrike(p, before);
    }
  }

  /** Two contents of flash that differ in a byte of the struck page end with the same byte there. */
  lemma StrikeSpoils(p: Parser, text: string, n: nat, i: nat)
    requires n < |text| && Strikes(Run(p, text[..n]), text[n]) && !Run(p, text[..n]).dirty
    requires InPage(i, PageOf(Run(p, text[..n]).pageStart)) && BOOT_START <= i < FLASH_SIZE
    ensures !AlwaysKept(p, text)
  {
    var flash := p.memory.flash;
    var other: FlashBytes := flash[i := Low8(flash[i] as int + 1)];
    var a, b := WithFlash(p, flash), WithFlash(p, other);
    assert a == p && Twins(a, b, NOWHERE);
    RunTwins(a, b, text[..n], NOWHERE);
    StrikeTwins(Run(a, text[..n]), Run(b, text[..n]), text[n], i);
    RunTwins(Step(Run(a, text[..n]), text[n]), Step(Run(b, text[..n]), text[n]), text[n + 1..], i);
    SplitRun(a, text, n);
    SplitRun(b, text, n);
    assert !(SameBoot(a.memory, Run(a, text).memory) && SameBoot(b.memory, Run(b, text).memory));
  }

  lemma SplitRun(p: Parser, text: string, n: nat)
    requires n < |text|
    ensures Run(p, text) == Run(Step(Run(p, text[..n]), text[n]), text[n + 1..])
  {
    assert text == (text[..n] + [text[n]]) + text[n + 1..];
    FoldConcat(Step, p, text[..n] + [text[n]], text[n + 1..]);
    FoldNext(Step, p, text[..n], text[n]);
  }

  lemma PageOfBoot(page: nat)
    requires PageOf(page) >= BOOT_START
    ensures PageOf(page) < FLASH_SIZE && InPage(PageOf(page), PageOf(page))
  {
  }

  /**
   For every text, the bootloader section is kept whatever flash holds if and only if no character completes a
   data word while a page of the bootloader is open.
   */
  lemma BootIsKeptExactly(p: Parser, text: string)
    requires Clean(p)
    ensures AlwaysKept(p, text) <==> NeverStrikes(p, text)
  {
    if NeverStrikes(p, text) {
      forall flash: FlashBytes
        ensures SameBoot(WithFlash(p, flash).memory, Run(WithFlash(p, flash), text).memory)
      {
        TwinNeverStrikes(p, WithFlash(p, flash), text);
        BootIsKept(WithFlash(p, flash), text);
      }
    } else {
      var n := FirstStrike(p, text);
      var page := Run(p, text[..n]).pageStart;
      PageOfBoot(page);
      StrikeSpoils(p, text, n, PageOf(page));
    }
  }

  lemma TwinNeverStrikes(p: Parser, q: Parser, text: string)
    requires Twins(p, q, NOWHERE) && NeverStrikes(p, text)
    ensures NeverStrikes(q, text)
  {
    forall n | 0 <= n < |text| ensures !Strikes(Run(q, text[..n]), text[n]) {
      RunTwins(p, q, text[..n], NOWHERE);
      assert !Strikes(Run(p, text[..n]), text[n]);
    }
  }

  // ----- A file that erases the bootloader

  const LAST_WORD: word := 0xDFFE        // the last word below the bootloader, from base 0x10000

  /** An extended address, and a word just below the bootloader. */
  function Approach(a: byte, b: byte): string {
    Record(0, TYPE_EXTENDED_SEGMENT, [0x00, 0x10]) + Record(LAST_WORD, TYPE_DATA, [a, b])
  }

  function FatalFile(a: byte, b: byte, x: byte, y: byte): string {
    Approach(a, b) + Record(0, TYPE_DATA, [x, y])
  }

  /** A word just below the bootloader makes its first page the open one. */
  lemma WordBelowBoot(c: Cursor, a: byte, b: byte)
    requires c.page == 0 && !c.dirty
    ensures var c' := Puts(c, BOOT_START - 2, [a, b]);
            && c'.page == BOOT_START && !c'.dirty && c'.memory.buffer == EmptyBuffer()
            && Moved(c', BOOT_START) == c'
  {
    var data := [a, b];
    assert data[2..] == [];
  }

  /** The next word, anywhere below, erases that page. */
  lemma NextWordErases(c: Cursor, x: byte, y: byte, i: nat)
    requires c.page == BOOT_START && !c.dirty && c.memory.buffer == EmptyBuffer()
    requires BOOT_START + 2 <= i < BOOT_START + PAGE_SIZE
    ensures Moved(Puts(c, 0x10000, [x, y]), 0x10002).memory.flash[i] == BLANK
  {
    var data := [x, y];
    assert data[2..] == [];
    PutErases(c, 0x10000, x, y, i);
  }

  lemma BootIsOpened(p: Parser, a: byte, b: byte, data: seq<byte>)
    requires Initial(p) && data == [a, b]
    ensures var q := Run(p, Approach(a, b));
            q.base == 0x10000 && q.pageStart == BOOT_START && !q.dirty && q.memory.buffer == EmptyBuffer()
  {
    DataAfterExtended(p, TYPE_EXTENDED_SEGMENT, 0x00, 0x10, LAST_WORD, data, 0x10000);
    WordBelowBoot(CursorOf(p), a, b);
  }

  /**
   Three correct records below the bootloader: after them the bootloader's first page, but for its first
   word, is blank.
   */
  lemma BootloaderIsErased(p: Parser, a: byte, b: byte, x: byte, y: byte, i: nat)
    requires Initial(p) && BOOT_START + 2 <= i < BOOT_START + PAGE_SIZE
    ensures Run(p, FatalFile(a, b, x, y)).memory.flash[i] == BLANK
  {
    var q := Run(p, Approach(a, b));
    BootIsOpened(p, a, b, [a, b]);
    FoldConcat(Step, p, Approach(a, b), Record(0, TYPE_DATA, [x, y]));
    DataRecordIsPut(q, 0, [x, y]);
    NextWordErases(CursorOf(q), x, y, i);
  }
}
