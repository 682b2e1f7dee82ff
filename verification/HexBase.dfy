/**
 Extended address records of the HEX loader: their two bytes are taken the wrong way
 round, and a base address in or above the bootloader is never left again.
 */
module HexBase {
  import opened Bytes
  import opened Flash
  import opened Folds
  import opened HexLoader
  import opened HexRecords

  /** What an extended address is multiplied with. */
  function Scale(kind: byte): nat {
    if kind == TYPE_EXTENDED_SEGMENT then 16 else 65536
  }

  predicate IsExtended(kind: byte) {
    kind == TYPE_EXTENDED_SEGMENT || kind == TYPE_EXTENDED_LINEAR
  }

  // ----- One extended address record

  function AfterExtended(p: Parser, high: byte, low: byte): Parser {
    p.(data := low, prevData := high, dataRem := 0, checksum := SumFrom(p.checksum, [high, low]),
       base := (256 * (low as int) + high) * Scale(p.recordType), state := Checksum)
  }

  lemma ExtendedIsRead(p: Parser, high: byte, low: byte)
    requires p.state == ReadData && p.dataRem == 2 && p.address < BOOT_START && IsExtended(p.recordType)
    ensures Take(p, high).state == ReadData && Take(Take(p, high), low) == AfterExtended(p, high, low)
  {
    SumFromTwo(p.checksum, high, low);
    FirstByteIsRead(p, high);
    LowIsTaken(p.(data := high, prevData := high, dataRem := 1, checksum := Low8(p.checksum as int + high)), low);
  }

  lemma LowIsTaken(p: Parser, low: byte)
    requires p.state == ReadData && p.dataRem == 1 && p.address < BOOT_START && IsExtended(p.recordType)
    ensures Take(p, low) ==
            p.(data := low, dataRem := 0, checksum := Low8(p.checksum as int + low),
               base := (256 * (low as int) + p.prevData) * Scale(p.recordType), state := Checksum)
  {
  }

  lemma ExtendedIsTaken(p: Parser, p1: Parser, at: word, kind: byte, high: byte, low: byte, check: byte)
    requires p.base + at < BOOT_START && IsExtended(kind)
    requires p1 == AfterHeader(p, at, kind, 2)
    ensures Run(p, RawRecord(at, kind, [high, low], check)) == Take(AfterExtended(p1, high, low), check)
  {
    ExtendedIsRead(p1, high, low);
    FoldTwo(Take, p1, high, low);
    LiveTwo(Take, p1, high, low);
    RecordIsTaken(p, p1, at, kind, [high, low], check);
  }

  lemma ExtendedCheck(p: Parser, p1: Parser, at: word, kind: byte, high: byte, low: byte)
    requires p1 == AfterHeader(p, at, kind, 2)
    ensures Check(at, kind, [high, low]) == Low8(-(AfterExtended(p1, high, low).checksum as int))
  {
    CheckMatches(at, kind, [high, low], AfterExtended(p1, high, low).checksum);
  }

  /** An extended address record sets the base from its two bytes, the second one first. */
  lemma ExtendedRecord(p: Parser, at: word, kind: byte, high: byte, low: byte)
    requires p.base + at < BOOT_START && IsExtended(kind)
    ensures var q := Run(p, Record(at, kind, [high, low]));
            && q.base == (256 * (low as int) + high) * Scale(kind)
            && CursorOf(q) == Moved(CursorOf(p), p.base + at)
            && q.state == Checksum && q.running == p.running && q.prevData == high
  {
    var p1, check := AfterHeader(p, at, kind, 2), Check(at, kind, [high, low]);
    ExtendedIsTaken(p, p1, at, kind, high, low, check);
    ExtendedCheck(p, p1, at, kind, high, low);
    DataIsAccepted(AfterExtended(p1, high, low), check);
  }

  /** Intel HEX sends the high byte first: the loader takes the address that is meant only if both are equal. */
  lemma ExtendedAddressIsSwapped(p: Parser, at: word, kind: byte, high: byte, low: byte)
    requires p.base + at < BOOT_START && IsExtended(kind)
    ensures Run(p, Record(at, kind, [high, low])).base == (256 * (high as int) + low) * Scale(kind) <==> high == low
  {
    ExtendedRecord(p, at, kind, high, low);
  }

  /** In the data of a record, with `n` bytes to come. */
  predicate InRecord(p: Parser, n: nat) {
    p.state == (if n == 0 then Checksum else ReadData) && p.dataRem == n
  }

  lemma CheckIsAccepted(p: Parser, check: byte)
    requires p.state == Checksum && check == Low8(-(p.checksum as int))
    ensures var q := Take(p, check);
            && CursorOf(q) == Moved(CursorOf(p), p.address) && q.base == p.base
            && q.running == (p.running && p.recordType != TYPE_END_OF_FILE)
  {
  }

  /** More or fewer than two bytes: the last two decide, and a single one comes after a byte left over. */
  function BaseFrom(p: Parser, data: seq<byte>): nat
    requires IsExtended(p.recordType)
  {
    var n := |data|;
    if n == 0 then p.base
    else (256 * (data[n - 1] as int) + (if n == 1 then p.prevData else data[n - 2])) * Scale(p.recordType)
  }

  /** The memory, the place and the kind of a record stay while its data is read. */
  predicate SameRecord(p: Parser, q: Parser) {
    CursorOf(q) == CursorOf(p) && q.address == p.address && q.running == p.running && q.recordType == p.recordType
  }

  lemma ExtendedByteIsRead(p: Parser, b: byte)
    requires p.state == ReadData && p.dataRem > 0 && p.address < BOOT_START && IsExtended(p.recordType)
    ensures var q := Take(p, b);
            && SameRecord(p, q) && InRecord(q, p.dataRem - 1) && q.checksum == Low8(p.checksum as int + b)
            && (p.dataRem == 1 ==> q.base == (256 * (b as int) + p.prevData) * Scale(p.recordType))
            && (p.dataRem == 2 ==> q.prevData == b)
  {
    assert Low8(p.dataRem as int - 1) == p.dataRem - 1;
  }

  lemma {:induction false} ExtendedDataIsRead(p: Parser, data: seq<byte>)
    requires InRecord(p, |data|) && p.address < BOOT_START && IsExtended(p.recordType)
    ensures var q := Fold(Take, p, data);
            && Live(Take, p, data) && SameRecord(p, q) && InRecord(q, 0) && q.base == BaseFrom(p, data)
            && q.checksum == SumFrom(p.checksum, data)
    decreases |data|
  {
    if data == [] {
    } else {
      ExtendedByteIsRead(p, data[0]);
      ExtendedDataIsRead(Take(p, data[0]), data[1..]);
    }
  }

  /** An extended address record of any length. */
  lemma ExtendedOfAnyLength(p: Parser, at: word, kind: byte, data: seq<byte>)
    requires p.base + at < BOOT_START && IsExtended(kind) && |data| < 256
    ensures var q := Run(p, Record(at, kind, data));
            && q.base == BaseFrom(p.(recordType := kind), data)
            && CursorOf(q) == Moved(CursorOf(p), p.base + at) && q.running == p.running
  {
    var p1, check := AfterHeader(p, at, kind, |data|), Check(at, kind, data);
    ExtendedDataIsRead(p1, data);
    RecordIsTaken(p, p1, at, kind, data, check);
    CheckMatches(at, kind, data, Fold(Take, p1, data).checksum);
    CheckIsAccepted(Fold(Take, p1, data), check);
  }

  // ----- Records of any other type

  /** Types that the loader has no use for, but for the end of the file. */
  predicate IsOther(kind: byte) {
    kind != TYPE_DATA && !IsExtended(kind)
  }

  /** Nothing but the bytes of the record has been taken notice of. */
  predicate OnlyRead(p: Parser, q: Parser) {
    && CursorOf(q) == CursorOf(p) && q.base == p.base && q.address == p.address && q.running == p.running
    && q.recordType == p.recordType
  }

  lemma OtherByteIsRead(p: Parser, b: byte)
    requires p.state == ReadData && p.dataRem > 0 && p.address < BOOT_START && IsOther(p.recordType)
    ensures var q := Take(p, b);
            OnlyRead(p, q) && InRecord(q, p.dataRem - 1) && q.checksum == Low8(p.checksum as int + b)
  {
    assert Low8(p.dataRem as int - 1) == p.dataRem - 1;
  }

  lemma {:induction false} OtherDataIsRead(p: Parser, data: seq<byte>)
    requires InRecord(p, |data|) && p.address < BOOT_START && IsOther(p.recordType)
    ensures var q := Fold(Take, p, data);
            && Live(Take, p, data) && OnlyRead(p, q) && InRecord(q, 0)
            && q.checksum == SumFrom(p.checksum, data)
    decreases |data|
  {
    if data == [] {
    } else {
      OtherByteIsRead(p, data[0]);
      OtherDataIsRead(Take(p, data[0]), data[1..]);
    }
  }

  /**
   A record of any other type, in any state of the loader: whatever its data is, the base stays as it was, and
   flash changes at most by the open page, which is written if the record is addressed elsewhere.
   */
  lemma OtherRecordIsIgnored(p: Parser, at: word, kind: byte, data: seq<byte>)
    requires p.base + at < BOOT_START && IsOther(kind) && |data| < 256
    ensures var q := Run(p, Record(at, kind, data));
            && q.base == p.base && CursorOf(q) == Moved(CursorOf(p), p.base + at)
            && q.running == (p.running && kind != TYPE_END_OF_FILE)
  {
    var p1, check := AfterHeader(p, at, kind, |data|), Check(at, kind, data);
    OtherDataIsRead(p1, data);
    RecordIsTaken(p, p1, at, kind, data, check);
    CheckMatches(at, kind, data, Fold(Take, p1, data).checksum);
    CheckIsAccepted(Fold(Take, p1, data), check);
  }

  // ----- A base address that is never left

  const MAX_BASE := 0xFFFF_0000

  /** The base is in or above the bootloader, and so is the address of the record being read. */
  predicate Stuck(p: Parser) {
    && BOOT_START <= p.base <= MAX_BASE
    && (p.state in {ByteCount, AddressHigh} ==> p.address == p.base)
    && (p.state == AddressLow ==> p.base <= p.address <= p.base + 0xFF00)
    && (p.state in {State.RecordType, ReadData} ==> p.base <= p.address < TWO_32)
  }

  /** What such a loader has done to the flash since `p`: nothing, or written the page that was open. */
  predicate AtMostWritten(p: Parser, q: Parser) {
    || (q.memory == p.memory && (q.dirty ==> p.dirty && q.pageStart == p.pageStart))
    || (q.memory == WritePage(p.memory, p.pageStart) && !q.dirty)
  }

  lemma StuckByte(p: Parser)
    requires Stuck(p) && p.state != WaitLine
    ensures Stuck(CompleteByte(p)) && CompleteByte(p).base == p.base
    ensures AtMostWritten(p, CompleteByte(p))
  {
  }

  /** The second digit of a byte. */
  predicate EndsByte(p: Parser, c: char) {
    p.state != WaitLine && c != ':' && HexDigit(c).Some? && p.readMSB
  }

  /** The parser with that byte in `data`. */
  function WithByte(p: Parser, c: char): Parser
    requires EndsByte(p, c)
  {
    p.(data := Low8(16 * (p.data as int) + HexDigit(c).value), readMSB := false)
  }

  lemma StuckOtherwise(p: Parser, c: char)
    requires Stuck(p) && !EndsByte(p, c)
    ensures Stuck(Step(p, c)) && Step(p, c).base == p.base && AtMostWritten(p, Step(p, c))
  {
  }

  lemma StuckStep(p: Parser, c: char)
    requires Stuck(p)
    ensures Stuck(Step(p, c)) && Step(p, c).base == p.base && AtMostWritten(p, Step(p, c))
  {
    if EndsByte(p, c) {
      assert Step(p, c) == CompleteByte(WithByte(p, c));
      StuckByte(WithByte(p, c));
    } else {
      StuckOtherwise(p, c);
    }
  }

  /**
   Once the base is in or above the bootloader every later data or address record is dropped, whatever the
   text: the base never changes again, and flash changes at most by the page that was open.
   */
  lemma {:induction false} BaseIsStuck(p: Parser, text: string)
    requires Stuck(p)
    ensures Stuck(Run(p, text)) && Run(p, text).base == p.base && AtMostWritten(p, Run(p, text))
    decreases |text|
  {
    if text == [] {
    } else {
      var before, c := text[..|text| - 1], text[|text| - 1];
      assert before + [c] == text;
      BaseIsStuck(p, before);
      FoldNext(Step, p, before, c);
      StuckStep(Run(p, before), c);
    }
  }

  /** Of all extended address records exactly those that set the base this high do so. */
  lemma ExtendedIsStuckExactly(p: Parser, at: word, kind: byte, high: byte, low: byte)
    requires p.base + at < BOOT_START && IsExtended(kind)
    ensures Stuck(Run(p, Record(at, kind, [high, low]))) <==>
            (256 * (low as int) + high) * Scale(kind) >= BOOT_START
  {
    ExtendedRecord(p, at, kind, high, low);
  }

  /** Whatever follows such a record is dropped. */
  lemma RestIsDropped(p: Parser, at: word, kind: byte, high: byte, low: byte, text: string)
    requires p.base + at < BOOT_START && IsExtended(kind)
    requires (256 * (low as int) + high) * Scale(kind) >= BOOT_START
    ensures var q, r := Run(p, Record(at, kind, [high, low])), Run(p, Record(at, kind, [high, low]) + text);
            r.base == q.base && AtMostWritten(q, r)
  {
    ExtendedIsStuckExactly(p, at, kind, high, low);
    FoldConcat(Step, p, Record(at, kind, [high, low]), text);
    BaseIsStuck(Run(p, Record(at, kind, [high, low])), text);
  }

  // ----- The second 64 KiB

  /** The linear record that asks for the second 64 KiB sets the base to 16 MiB: all that follows is dropped. */
  lemma LinearHalfIsDropped(p: Parser, text: string)
    requires p.base == 0
    ensures var q := Run(p, Record(0, TYPE_EXTENDED_LINEAR, [0x00, 0x01]));
            var r := Run(p, Record(0, TYPE_EXTENDED_LINEAR, [0x00, 0x01]) + text);
            q.base == r.base == 0x100_0000 && AtMostWritten(q, r)
  {
    ExtendedRecord(p, 0, TYPE_EXTENDED_LINEAR, 0x00, 0x01);
    RestIsDropped(p, 0, TYPE_EXTENDED_LINEAR, 0x00, 0x01, text);
  }

  /** Data after an extended address: programmed from the base that it has set. */
  lemma DataAfterExtended(p: Parser, kind: byte, high: byte, low: byte, at: word, data: seq<byte>, base: nat)
    requires p.base == 0 && IsExtended(kind) && base == (256 * (low as int) + high) * Scale(kind) && |data| < 256
    requires base + at + |data| + |data| % 2 <= BOOT_START
    ensures var q := Run(p, Record(0, kind, [high, low]) + Record(at, TYPE_DATA, data));
            var words := Programmed(high, data);
            && q.base == base
            && CursorOf(q) == Moved(Puts(Moved(CursorOf(p), 0), base + at, words), base + at + |words|)
  {
    var p1 := Run(p, Record(0, kind, [high, low]));
    ExtendedRecord(p, 0, kind, high, low);
    FoldConcat(Step, p, Record(0, kind, [high, low]), Record(at, TYPE_DATA, data));
    assert Fits(p1, at, data);
    DataRecordIsPut(p1, at, data);
  }

  /**
   The segment record that asks for it sets the base to 256: data meant for the second 64 KiB is programmed
   over the first.
   */
  lemma SegmentHalfIsMisplaced(p: Parser, at: word, data: seq<byte>, segment: string)
    requires p.base == 0 && |data| < 256 && segment == Record(0, TYPE_EXTENDED_SEGMENT, [0x10, 0x00])
    ensures var q, words := Run(p, segment + Record(at, TYPE_DATA, data)), Programmed(0x10, data);
            && q.base == 0x100
            && CursorOf(q) ==
               Moved(Puts(Moved(CursorOf(p), 0), 0x100 + at, words), 0x100 + at + |words|)
  {
    DataAfterExtended(p, TYPE_EXTENDED_SEGMENT, 0x10, 0x00, at, data, 0x100);
  }
}
