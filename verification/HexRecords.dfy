/**
 The records of an Intel HEX file, from their text to the words they program: a data
 record of any length, at any address below the bootloader, in any state of the loader.
 */
module HexRecords {
  import opened Bytes
  import opened Flash
  import opened Folds
  import opened HexLoader

  // ----- The text of a HEX file

  function Digit(n: nat): char
    requires n < 16
  {
    if n < 10 then '0' + n as char else 'A' + (n - 10) as char
  }

  function Hex2(b: byte): string {
    [Digit(b / 16), Digit(b % 16)]
  }

  function Hex(bs: seq<byte>): string {
    if bs == [] then [] else Hex2(bs[0]) + Hex(bs[1..])
  }

  function Sum(bs: seq<byte>): nat {
    if bs == [] then 0 else bs[0] + Sum(bs[1..])
  }

  /** The sum as the parser keeps it, byte by byte. */
  function SumFrom(c: byte, bs: seq<byte>): byte
    decreases bs
  {
    if bs == [] then c else SumFrom(Low8(c as int + bs[0]), bs[1..])
  }

  lemma {:induction false} SumFromIsSum(c: byte, bs: seq<byte>)
    ensures SumFrom(c, bs) == Low8(c + Sum(bs))
    decreases bs
  {
    if bs == [] {
    } else {
      SumFromIsSum(Low8(c as int + bs[0]), bs[1..]);
      Low8Add(c as int + bs[0], Sum(bs[1..]));
    }
  }

  lemma {:induction false} SumFromConcat(c: byte, a: seq<byte>, b: seq<byte>)
    ensures SumFrom(c, a + b) == SumFrom(SumFrom(c, a), b)
    decreases a
  {
    if a == [] {
      assert a + b == b;
    } else {
      assert (a + b)[1..] == a[1..] + b;
      SumFromConcat(Low8(c as int + a[0]), a[1..], b);
    }
  }

  lemma SumFromTwo(c: byte, a: byte, b: byte)
    ensures SumFrom(c, [a, b]) == Low8(Low8(c as int + a) as int + b)
  {
    var bs: seq<byte> := [a, b];
    assert bs[1..] == [b] && bs[1..][1..] == [];
    assert SumFrom(Low8(c as int + a), bs[1..]) == Low8(Low8(c as int + a) as int + b);
  }

  lemma SumFromHeader(at: word, kind: byte, count: byte)
    ensures SumFrom(0, Header(at, kind, count)) ==
            Low8(Low8(Low8(count + at / 256) as int + at % 256) as int + kind)
  {
    SumFromFour(count, at / 256, at % 256, kind);
  }

  lemma SumFromFour(a: byte, b: byte, c: byte, d: byte)
    ensures SumFrom(0, [a, b, c, d]) == Low8(Low8(Low8(a + b) as int + c) as int + d)
  {
    var first, second: seq<byte> := [a, b], [c, d];
    assert first + second == [a, b, c, d];
    SumFromConcat(0, first, second);
    SumFromTwo(0, a, b);
    SumFromTwo(Low8(a + b), c, d);
  }

  function Header(at: word, kind: byte, count: byte): seq<byte> {
    [count, at / 256, at % 256, kind]
  }

  /** A record without its checksum. */
  function RecordBody(at: word, kind: byte, data: seq<byte>): seq<byte>
    requires |data| < 256
  {
    Header(at, kind, |data|) + data
  }

  /** The byte that makes the record's bytes sum to zero. */
  function Check(at: word, kind: byte, data: seq<byte>): byte
    requires |data| < 256
  {
    Complement(RecordBody(at, kind, data))
  }

  function Complement(bs: seq<byte>): byte {
    Low8(-(Sum(bs) as int))
  }

  /** The text of a record with any checksum byte. */
  function RawRecord(at: word, kind: byte, data: seq<byte>, check: byte): string
    requires |data| < 256
  {
    ":" + Hex(RecordBody(at, kind, data) + [check])
  }

  function Record(at: word, kind: byte, data: seq<byte>): string
    requires |data| < 256
  {
    RawRecord(at, kind, data, Check(at, kind, data))
  }

  // ----- Bytes instead of characters

  /** A complete byte arrives. */
  function Take(p: Parser, b: byte): Parser {
    CompleteByte(p.(data := b))
  }

  type Taker = (Parser, byte) -> Parser

  /** The parser keeps reading the record while these bytes arrive. */
  predicate Live(take: Taker, p: Parser, bs: seq<byte>)
    decreases bs
  {
    bs != [] ==> p.state != WaitLine && Live(take, take(p, bs[0]), bs[1..])
  }

  lemma {:induction false} LiveConcat(take: Taker, p: Parser, a: seq<byte>, b: seq<byte>)
    ensures Live(take, p, a + b) <==> Live(take, p, a) && Live(take, Fold(take, p, a), b)
    decreases a
  {
    if a == [] {
      assert a + b == b;
    } else {
      assert (a + b)[1..] == a[1..] + b;
      LiveConcat(take, take(p, a[0]), a[1..], b);
    }
  }

  lemma LiveTwo(take: Taker, p: Parser, a: byte, b: byte)
    ensures Live(take, p, [a, b]) <==> p.state != WaitLine && take(p, a).state != WaitLine
  {
    var bs: seq<byte> := [a, b];
    assert bs[1..] == [b];
    LiveOne(take, take(p, a), b);
  }

  lemma LiveOne(take: Taker, p: Parser, b: byte)
    ensures Live(take, p, [b]) <==> p.state != WaitLine
  {
    var bs: seq<byte> := [b];
    assert bs[1..] == [];
  }

  lemma DigitRoundTrip(n: nat)
    requires n < 16
    ensures HexDigit(Digit(n)) == Some(n) && Digit(n) != ':'
  {
  }

  lemma NibblesMakeByte(d: byte, b: byte)
    ensures Low8(16 * (Low8(16 * (d as int) + b / 16) as int) + b % 16) == b
  {
    var x := 16 * (d as int) + b / 16;
    assert Low8(x) == x - 256 * (x / 256);
    Low8Is(16 * (Low8(x) as int) + b % 16, d - 16 * (x / 256), b);
  }

  lemma RunByte(p: Parser, b: byte)
    requires p.state != WaitLine && !p.readMSB
    ensures Run(p, Hex2(b)) == Take(p, b)
  {
    DigitRoundTrip(b / 16);
    DigitRoundTrip(b % 16);
    NibblesMakeByte(p.data, b);
    FoldTwo(Step, p, Digit(b / 16), Digit(b % 16));
    assert Step(p, Digit(b / 16)) == Nibble(p, b / 16);
    assert Step(Nibble(p, b / 16), Digit(b % 16)) == Nibble(Nibble(p, b / 16), b % 16);
  }

  lemma TakeKeepsPhase(p: Parser, b: byte)
    ensures Take(p, b).readMSB == p.readMSB
  {
  }

  lemma {:induction false} RunHex(p: Parser, bs: seq<byte>)
    requires !p.readMSB && Live(Take, p, bs)
    ensures Run(p, Hex(bs)) == Fold(Take, p, bs)
    decreases bs
  {
    if bs == [] {
    } else {
      RunByte(p, bs[0]);
      TakeKeepsPhase(p, bs[0]);
      FoldConcat(Step, p, Hex2(bs[0]), Hex(bs[1..]));
      RunHex(Take(p, bs[0]), bs[1..]);
    }
  }

  // ----- Headers

  /** The parser after the four header bytes of a record. */
  function AfterHeader(p: Parser, at: word, kind: byte, count: byte): Parser {
    p.(state := if count != 0 then ReadData else Checksum, data := kind, readMSB := false, recordType := kind,
       dataRem := count, checksum := SumFrom(0, Header(at, kind, count)), address := p.base + at)
  }

  lemma CountIsRead(p: Parser, count: byte)
    ensures Take(Step(p, ':'), count) ==
            p.(state := AddressHigh, data := count, readMSB := false, dataRem := count, checksum := count,
               address := p.base)
  {
  }

  lemma HighIsRead(p: Parser, high: byte)
    requires p.state == AddressHigh && p.address + 256 * high < TWO_32
    ensures Take(p, high) ==
            p.(state := AddressLow, data := high, checksum := Low8(p.checksum as int + high),
               address := p.address + 256 * high)
  {
  }

  lemma LowIsRead(p: Parser, low: byte)
    requires p.state == AddressLow && p.address + low < TWO_32
    ensures Take(p, low) ==
            p.(state := State.RecordType, data := low, checksum := Low8(p.checksum as int + low),
               address := p.address + low)
  {
  }

  lemma TypeIsRead(p: Parser, kind: byte)
    requires p.state == State.RecordType
    ensures Take(p, kind) ==
            p.(state := if p.dataRem != 0 then ReadData else Checksum, data := kind, recordType := kind,
               checksum := Low8(p.checksum as int + kind))
  {
  }

  lemma FoldFour(take: Taker, p: Parser, a: byte, b: byte, c: byte, d: byte, p1: Parser, p2: Parser, p3: Parser)
    requires take(p, a) == p1 && take(p1, b) == p2 && take(p2, c) == p3
    requires p.state != WaitLine && p1.state != WaitLine && p2.state != WaitLine && p3.state != WaitLine
    ensures Live(take, p, [a, b, c, d]) && Fold(take, p, [a, b, c, d]) == take(p3, d)
  {
    FoldTwo(take, p, a, b);
    FoldTwo(take, p2, c, d);
    LiveTwo(take, p, a, b);
    LiveTwo(take, p2, c, d);
    FoldConcat(take, p, [a, b], [c, d]);
    LiveConcat(take, p, [a, b], [c, d]);
    assert [a, b] + [c, d] == [a, b, c, d];
  }

  lemma Low8Add(a: int, b: int)
    ensures Low8(Low8(a) as int + b) == Low8(a + b)
  {
  }

  ghost predicate ReadsHeader(
    step: (Parser, char) -> Parser, take: Taker, p: Parser, at: word, kind: byte, count: byte)
  {
    && Live(take, step(p, ':'), Header(at, kind, count))
    && Fold(take, step(p, ':'), Header(at, kind, count)) == AfterHeader(p, at, kind, count)
  }

  lemma HeaderBytes(p: Parser, count: byte, high: byte, low: byte, kind: byte)
    requires p.base + 256 * high + low < TWO_32
    ensures Live(Take, Step(p, ':'), [count, high, low, kind])
    ensures Fold(Take, Step(p, ':'), [count, high, low, kind]) ==
            p.(state := if count != 0 then ReadData else Checksum, data := kind, readMSB := false, recordType := kind,
               dataRem := count, checksum := Low8(Low8(Low8(count + high) as int + low) as int + kind),
               address := p.base + 256 * high + low)
  {
    var p1 := p.(state := AddressHigh, data := count, readMSB := false, dataRem := count, checksum := count,
                 address := p.base);
    var p2 := p1.(state := AddressLow, data := high, checksum := Low8(count + high), address := p.base + 256 * high);
    var p3 := p2.(state := State.RecordType, data := low, checksum := Low8(p2.checksum as int + low),
                  address := p.base + 256 * high + low);
    CountIsRead(p, count);
    HighIsRead(p1, high);
    LowIsRead(p2, low);
    TypeIsRead(p3, kind);
    FoldFour(Take, Step(p, ':'), count, high, low, kind, p1, p2, p3);
  }

  lemma HeaderIsRead(p: Parser, at: word, kind: byte, count: byte)
    requires p.base + at < TWO_32
    ensures ReadsHeader(Step, Take, p, at, kind, count)
  {
    HeaderBytes(p, count, at / 256, at % 256, kind);
    SumFromHeader(at, kind, count);
  }

  // ----- Words

  /** The part of the parser that programming changes: the memory, the open page and whether it is dirty. */
  datatype Cursor = Cursor(memory: Memory, page: nat, dirty: bool)

  function CursorOf(p: Parser): Cursor {
    Cursor(p.memory, p.pageStart, p.dirty)
  }

  function WithCursor(p: Parser, c: Cursor): Parser {
    p.(memory := c.memory, pageStart := c.page, dirty := c.dirty)
  }

  /** The page is written when the address has left it. */
  function Moved(c: Cursor, address: nat): Cursor {
    if c.dirty && c.page != PageStart(address) then Cursor(WritePage(c.memory, c.page), PageStart(address), false)
    else c
  }

  /** One word: the open page is erased first unless it is dirty, whatever page the word belongs to. */
  function Put(c: Cursor, address: nat, low: byte, high: byte): Cursor {
    var m := if c.dirty then c.memory else Erase(c.memory, c.page);
    Moved(Cursor(Fill(m, address, low, high), c.page, true), address + 2)
  }

  /** Words at consecutive addresses. */
  function Puts(c: Cursor, address: nat, data: seq<byte>): Cursor
    decreases |data|
  {
    if |data| < 2 then c else Puts(Put(c, address, data[0], data[1]), address + 2, data[2..])
  }

  lemma {:induction false} PutsConcat(c: Cursor, address: nat, a: seq<byte>, b: seq<byte>)
    requires |a| % 2 == 0
    ensures Puts(c, address, a + b) == Puts(Puts(c, address, a), address + |a|, b)
    decreases |a|
  {
    if a == [] {
      assert a + b == b;
    } else {
      assert (a + b)[2..] == a[2..] + b;
      PutsConcat(Put(c, address, a[0], a[1]), address + 2, a[2..], b);
    }
  }

  lemma DataWordIsPut(p: Parser)
    requires p.address + 2 < TWO_32
    ensures DataWord(p) ==
            WithCursor(p, Put(CursorOf(p), p.address, p.prevData, p.data)).(address := p.address + 2)
  {
  }

  /** Between the words of a data record, with `n` bytes to come, all of them below the bootloader. */
  predicate InData(p: Parser, n: nat) {
    && p.state == (if n == 0 then Checksum else ReadData) && p.dataRem == n
    && p.recordType == TYPE_DATA && (n > 0 ==> p.address + n + n % 2 <= BOOT_START + 1)
  }

  /** The parser after one word `a`, `b` of record data and `n` bytes of it read. */
  function AfterWord(p: Parser, a: byte, b: byte, checksum: byte, n: nat): Parser
    requires n <= p.dataRem
  {
    WithCursor(p, Put(CursorOf(p), p.address, a, b)).(
      data := b, prevData := a, dataRem := p.dataRem - n, checksum := checksum, address := p.address + 2,
      state := if p.dataRem == n then Checksum else p.state)
  }

  lemma FirstByteIsRead(p: Parser, b: byte)
    requires p.state == ReadData && p.dataRem > 0 && p.dataRem % 2 == 0 && p.address < BOOT_START
    ensures Take(p, b) ==
            p.(data := b, prevData := b, dataRem := p.dataRem - 1, checksum := Low8(p.checksum as int + b))
  {
    assert Low8(p.dataRem as int - 1) == p.dataRem - 1 && (p.dataRem - 1) % 2 == 1;
  }

  /** A byte that completes a word: what was kept as the first byte of the word goes before it. */
  lemma SecondByteIsRead(p: Parser, b: byte)
    requires p.state == ReadData && p.dataRem % 2 == 1 && p.address < BOOT_START && p.recordType == TYPE_DATA
    ensures Take(p, b) == AfterWord(p, p.prevData, b, Low8(p.checksum as int + b), 1)
  {
    assert Low8(p.dataRem as int - 1) == p.dataRem - 1 && (p.dataRem - 1) % 2 == 0;
    DataWordIsPut(p.(data := b, dataRem := p.dataRem - 1, checksum := Low8(p.checksum as int + b)));
  }

  function AfterPair(p: Parser, a: byte, b: byte): Parser
    requires p.dataRem >= 2
  {
    AfterWord(p, a, b, Low8(Low8(p.checksum as int + a) as int + b), 2)
  }

  lemma PairIsRead(p: Parser, a: byte, b: byte)
    requires p.state == ReadData && p.dataRem >= 2 && p.dataRem % 2 == 0 && p.address < BOOT_START
    requires p.recordType == TYPE_DATA
    ensures Take(p, a).state == ReadData && Take(Take(p, a), b) == AfterPair(p, a, b)
  {
    FirstByteIsRead(p, a);
    SecondByteIsRead(
      p.(data := a, prevData := a, dataRem := p.dataRem - 1, checksum := Low8(p.checksum as int + a)), b);
  }

  // ----- The data of a record

  ghost predicate PairTaken(p: Parser, p1: Parser, p2: Parser, a: byte, b: byte) {
    p.dataRem >= 2 && p1.state == ReadData && p2 == AfterPair(p, a, b)
  }

  ghost predicate ReadsPairs(take: Taker) {
    forall p: Parser, a: byte, b: byte {:trigger take(take(p, a), b)} ::
      p.state == ReadData && p.dataRem >= 2 && p.dataRem % 2 == 0 && p.address < BOOT_START && p.recordType == TYPE_DATA
      ==> PairTaken(p, take(p, a), take(take(p, a), b), a, b)
  }

  lemma TakeReadsPairs()
    ensures ReadsPairs(Take)
  {
    forall p: Parser, a: byte, b: byte |
      p.state == ReadData && p.dataRem >= 2 && p.dataRem % 2 == 0 && p.address < BOOT_START && p.recordType == TYPE_DATA
      ensures PairTaken(p, Take(p, a), Take(Take(p, a), b), a, b)
    {
      PairIsRead(p, a, b);
    }
  }

  /**
   The bytes that a data record programs. Words are counted from the end of the record, so in a record of odd
   length the first byte already completes a word: the byte before it is one left over from an earlier record.
   */
  function Programmed(left: byte, data: seq<byte>): seq<byte> {
    if |data| % 2 == 1 then [left] + data else data
  }

  /** The parser when all the data of a record has been read. */
  function AfterData(p: Parser, data: seq<byte>): Parser {
    if data == [] then p
    else
      var words := Programmed(p.prevData, data);
      WithCursor(p, Puts(CursorOf(p), p.address, words)).(
        data := data[|data| - 1], prevData := if |data| >= 2 then data[|data| - 2] else p.prevData, dataRem := 0,
        checksum := SumFrom(p.checksum, data), address := p.address + |words|, state := Checksum)
  }

  lemma AfterDataPair(p: Parser, data: seq<byte>)
    requires InData(p, |data|) && |data| >= 2 && |data| % 2 == 0
    ensures InData(AfterPair(p, data[0], data[1]), |data| - 2)
    ensures AfterData(p, data) == AfterData(AfterPair(p, data[0], data[1]), data[2..])
  {
    var q, rest := AfterPair(p, data[0], data[1]), data[2..];
    assert SumFrom(p.checksum, data) == SumFrom(q.checksum, rest) by {
      SumFromTwo(p.checksum, data[0], data[1]);
      SumFromConcat(p.checksum, [data[0], data[1]], rest);
      assert [data[0], data[1]] + rest == data;
    }
    AfterEven(p, data, q, Put(CursorOf(p), p.address, data[0], data[1]));
  }

  lemma AfterEven(p: Parser, data: seq<byte>, q: Parser, c: Cursor)
    requires p.state == ReadData && p.dataRem == |data| && |data| >= 2 && |data| % 2 == 0
    requires Puts(CursorOf(p), p.address, data) == Puts(c, p.address + 2, data[2..])
    requires q == WithCursor(p, c).(
                    data := data[1], prevData := data[0], dataRem := p.dataRem - 2, checksum := q.checksum,
                    address := p.address + 2, state := if p.dataRem == 2 then Checksum else p.state)
    requires SumFrom(p.checksum, data) == SumFrom(q.checksum, data[2..])
    ensures AfterData(p, data) == AfterData(q, data[2..])
  {
    var rest := data[2..];
    if rest != [] {
      assert rest[|rest| - 1] == data[|data| - 1] && rest[|rest| - 2] == data[|data| - 2];
    }
  }

  /** Data of even length. */
  lemma {:induction false} EvenDataIsRead(take: Taker, p: Parser, data: seq<byte>)
    requires ReadsPairs(take) && InData(p, |data|) && |data| % 2 == 0
    ensures Live(take, p, data) && Fold(take, p, data) == AfterData(p, data)
    decreases |data|
  {
    if data == [] {
    } else {
      var p2 := take(take(p, data[0]), data[1]);
      assert PairTaken(p, take(p, data[0]), p2, data[0], data[1]);
      AfterDataPair(p, data);
      EvenDataIsRead(take, p2, data[2..]);
      TwoFirst(take, p, data);
    }
  }

  lemma TwoFirst(take: Taker, p: Parser, data: seq<byte>)
    requires |data| >= 2
    ensures Fold(take, p, data) == Fold(take, take(take(p, data[0]), data[1]), data[2..])
    ensures Live(take, p, data) <==>
            && p.state != WaitLine && take(p, data[0]).state != WaitLine
            && Live(take, take(take(p, data[0]), data[1]), data[2..])
  {
    var two := [data[0], data[1]];
    assert two + data[2..] == data;
    FoldTwo(take, p, data[0], data[1]);
    LiveTwo(take, p, data[0], data[1]);
    FoldConcat(take, p, two, data[2..]);
    LiveConcat(take, p, two, data[2..]);
  }

  ghost predicate OddByteTaken(p: Parser, q: Parser, b: byte) {
    p.dataRem >= 1 && q == AfterWord(p, p.prevData, b, Low8(p.checksum as int + b), 1)
  }

  ghost predicate ReadsOddByte(take: Taker) {
    forall p: Parser, b: byte {:trigger take(p, b)} ::
      p.state == ReadData && p.dataRem % 2 == 1 && p.address < BOOT_START && p.recordType == TYPE_DATA
      ==> OddByteTaken(p, take(p, b), b)
  }

  lemma TakeReadsOddByte()
    ensures ReadsOddByte(Take)
  {
    forall p: Parser, b: byte |
      p.state == ReadData && p.dataRem % 2 == 1 && p.address < BOOT_START && p.recordType == TYPE_DATA
      ensures OddByteTaken(p, Take(p, b), b)
    {
      SecondByteIsRead(p, b);
    }
  }

  /** The first byte of data of odd length, and the rest. */
  lemma AfterOddByte(p: Parser, q: Parser, data: seq<byte>)
    requires p.state == ReadData && p.dataRem == |data| && |data| % 2 == 1 && OddByteTaken(p, q, data[0])
    ensures AfterData(p, data) == AfterData(q, data[1..])
  {
    var rest, words := data[1..], Programmed(p.prevData, data);
    assert words[0] == p.prevData && words[1] == data[0] && words[2..] == rest;
    assert SumFrom(p.checksum, data) == SumFrom(q.checksum, rest);
    assert Puts(CursorOf(p), p.address, words) == Puts(CursorOf(q), q.address, rest);
    if rest == [] {
      assert SumFrom(q.checksum, rest) == q.checksum;
      assert Puts(CursorOf(q), q.address, rest) == CursorOf(q);
    } else {
      assert rest[|rest| - 1] == data[|data| - 1];
      assert |data| >= 3 && rest[|rest| - 2] == data[|data| - 2];
      assert Programmed(q.prevData, rest) == rest;
    }
  }

  /** Data of any length. */
  lemma DataIsRead(take: Taker, p: Parser, data: seq<byte>)
    requires ReadsPairs(take) && ReadsOddByte(take) && InData(p, |data|)
    ensures Live(take, p, data) && Fold(take, p, data) == AfterData(p, data)
  {
    if |data| % 2 == 0 {
      EvenDataIsRead(take, p, data);
    } else {
      var q := take(p, data[0]);
      assert OddByteTaken(p, q, data[0]);
      AfterOddByte(p, q, data);
      EvenDataIsRead(take, q, data[1..]);
    }
  }

  // ----- Whole records

  ghost predicate Spells(step: (Parser, char) -> Parser, take: Taker) {
    forall p: Parser, bs: seq<byte> {:trigger Live(take, p, bs)} ::
      !p.readMSB && Live(take, p, bs) ==> Fold(step, p, Hex(bs)) == Fold(take, p, bs)
  }

  /** The text of a record feeds its bytes to the parser. */
  lemma RunRecord(
    step: (Parser, char) -> Parser, take: Taker, p: Parser, at: word, kind: byte, data: seq<byte>, check: byte)
    requires Spells(step, take) && |data| < 256 && ReadsHeader(step, take, p, at, kind, |data|)
    requires !step(p, ':').readMSB
    requires Live(take, AfterHeader(p, at, kind, |data|), data + [check])
    ensures Fold(step, p, RawRecord(at, kind, data, check)) ==
            Fold(take, AfterHeader(p, at, kind, |data|), data + [check])
  {
    var header: seq<byte> := Header(at, kind, |data|);
    var tail: seq<byte> := data + [check];
    FoldConcat(take, step(p, ':'), header, tail);
    LiveConcat(take, step(p, ':'), header, tail);
    assert header + tail == RecordBody(at, kind, data) + [check];
    assert RawRecord(at, kind, data, check)[1..] == Hex(header + tail);
  }

  lemma CheckOfBoth(header: seq<byte>, data: seq<byte>, checksum: byte)
    requires checksum == SumFrom(SumFrom(0, header), data)
    ensures Complement(header + data) == Low8(-(checksum as int))
  {
    SumFromConcat(0, header, data);
    SumFromIsSum(0, header + data);
    Low8Negates(Sum(header + data));
  }

  /** The checksum byte matches what the parser has summed. */
  lemma CheckMatches(at: word, kind: byte, data: seq<byte>, checksum: byte)
    requires |data| < 256 && checksum == SumFrom(SumFrom(0, Header(at, kind, |data|)), data)
    ensures Check(at, kind, data) == Low8(-(checksum as int))
  {
    CheckOfBoth(Header(at, kind, |data|), data, checksum);
  }

  lemma Low8Negates(a: int)
    ensures Low8(-a) == Low8(-(Low8(a) as int))
  {
    var negated := -(Low8(a) as int);
    assert Low8(a) == a - 256 * (a / 256);
    Low8Is(-a, negated / 256 - a / 256, Low8(negated));
  }

  lemma StepSpells()
    ensures Spells(Step, Take)
  {
    forall p: Parser, bs: seq<byte> | !p.readMSB && Live(Take, p, bs)
      ensures Fold(Step, p, Hex(bs)) == Fold(Take, p, bs)
    {
      RunHex(p, bs);
    }
  }

  /** A correct checksum at the end of a data record only writes a page that the record has left. */
  lemma DataIsAccepted(p: Parser, check: byte)
    requires p.state == Checksum && check == Low8(-(p.checksum as int)) && p.recordType != TYPE_END_OF_FILE
    ensures Take(p, check) == WithCursor(p, Moved(CursorOf(p), p.address)).(data := check)
  {
  }

  /** The record's text is its header, its data and its check byte. */
  lemma RecordIsTakenBy(
    step: (Parser, char) -> Parser, take: Taker, p: Parser, p1: Parser, at: word, kind: byte, data: seq<byte>,
    check: byte)
    requires Spells(step, take) && |data| < 256 && ReadsHeader(step, take, p, at, kind, |data|)
    requires !step(p, ':').readMSB && p1 == AfterHeader(p, at, kind, |data|)
    requires Live(take, p1, data) && Fold(take, p1, data).state != WaitLine
    ensures Fold(step, p, RawRecord(at, kind, data, check)) == take(Fold(take, p1, data), check)
  {
    LiveConcat(take, p1, data, [check]);
    LiveOne(take, Fold(take, p1, data), check);
    RunRecord(step, take, p, at, kind, data, check);
    FoldNext(take, p1, data, check);
  }

  lemma RecordIsTaken(p: Parser, p1: Parser, at: word, kind: byte, data: seq<byte>, check: byte)
    requires |data| < 256 && p.base + at < TWO_32
    requires p1 == AfterHeader(p, at, kind, |data|)
    requires Live(Take, p1, data) && Fold(Take, p1, data).state != WaitLine
    ensures Run(p, RawRecord(at, kind, data, check)) == Take(Fold(Take, p1, data), check)
  {
    HeaderIsRead(p, at, kind, |data|);
    StepSpells();
    RecordIsTakenBy(Step, Take, p, p1, at, kind, data, check);
  }

  /** A record that stays below the bootloader, whose own pages the loader does not write. */
  predicate Fits(p: Parser, at: word, data: seq<byte>) {
    |data| < 256 && p.base + at < TWO_32 && (data != [] ==> p.base + at + |data| + |data| % 2 <= BOOT_START + 1)
  }

  lemma DataRecordRuns(p: Parser, p1: Parser, at: word, data: seq<byte>, check: byte)
    requires Fits(p, at, data) && p1 == AfterHeader(p, at, TYPE_DATA, |data|)
    ensures Run(p, RawRecord(at, TYPE_DATA, data, check)) == Take(AfterData(p1, data), check)
  {
    TakeReadsPairs();
    TakeReadsOddByte();
    DataIsRead(Take, p1, data);
    RecordIsTaken(p, p1, at, TYPE_DATA, data, check);
  }

  lemma DataCheck(p: Parser, p1: Parser, at: word, data: seq<byte>)
    requires |data| < 256 && p1 == AfterHeader(p, at, TYPE_DATA, |data|)
    ensures Check(at, TYPE_DATA, data) == Low8(-(AfterData(p1, data).checksum as int))
  {
    CheckMatches(at, TYPE_DATA, data, AfterData(p1, data).checksum);
  }

  /**
   A data record, of any length and at any address that keeps it below the bootloader, programs its words at
   consecutive addresses and leaves everything else of the loader alone.
   */
  lemma DataRecordIsPut(p: Parser, at: word, data: seq<byte>)
    requires Fits(p, at, data)
    ensures var q, words := Run(p, Record(at, TYPE_DATA, data)), Programmed(p.prevData, data);
            && CursorOf(q) == Moved(Puts(CursorOf(p), p.base + at, words), p.base + at + |words|)
            && q.base == p.base && q.running == p.running
            && q.prevData == if |data| >= 2 then data[|data| - 2] else p.prevData
  {
    var p1, check := AfterHeader(p, at, TYPE_DATA, |data|), Check(at, TYPE_DATA, data);
    DataRecordRuns(p, p1, at, data, check);
    DataCheck(p, p1, at, data);
    DataIsPut(p, p1, data, check);
  }

  lemma DataIsPut(p: Parser, p1: Parser, data: seq<byte>, check: byte)
    requires CursorOf(p1) == CursorOf(p) && p1.base == p.base && p1.running == p.running && p1.prevData == p.prevData
    requires p1.state == (if data == [] then Checksum else ReadData) && p1.recordType == TYPE_DATA
    requires check == Low8(-(AfterData(p1, data).checksum as int))
    ensures var r, words := Take(AfterData(p1, data), check), Programmed(p.prevData, data);
            && CursorOf(r) == Moved(Puts(CursorOf(p), p1.address, words), p1.address + |words|)
            && r.base == p.base && r.running == p.running
            && r.prevData == if |data| >= 2 then data[|data| - 2] else p.prevData
  {
    DataIsAccepted(AfterData(p1, data), check);
  }
}
