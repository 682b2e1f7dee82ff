/**
 The Intel HEX loader of the Printer class bootloader (BootloaderPrinter.c): a
 character-at-a-time parser that programs flash as it goes.
 */
module HexLoader {
  import opened Bytes
  import opened Flash
  import opened Folds

  datatype State = WaitLine | ByteCount | AddressHigh | AddressLow | RecordType | ReadData | Checksum

  const TYPE_DATA := 0
  const TYPE_END_OF_FILE := 1
  const TYPE_EXTENDED_SEGMENT := 2
  const TYPE_EXTENDED_LINEAR := 4
  const TWO_32 := 0x1_0000_0000

  /** The fields of `HEXParser`, the two flags beside it, and the memory it programs. */
  datatype Parser = Parser(
    state: State, prevData: byte, data: byte, readMSB: bool, recordType: byte, dataRem: byte, checksum: byte,
    pageStart: nat, base: nat, address: nat, dirty: bool, running: bool, memory: Memory)

  // ----- Specification

  /** `HexToDecimal`: upper-case digits only. */
  function HexDigit(c: char): Option<nat> {
    if 'A' <= c <= 'F' then Some(10 + (c as int - 'A' as int))
    else if '0' <= c <= '9' then Some(c as int - '0' as int)
    else None
  }

  /** `FlushPageIfRequired`. */
  function Flush(p: Parser): Parser {
    var page := PageStart(p.address);
    if p.dirty && p.pageStart != page
    then p.(memory := WritePage(p.memory, p.pageStart), pageStart := page, dirty := false)
    else p
  }

  /** A data word: `prevData` and `data`, in this order in memory. */
  function DataWord(p: Parser): Parser {
    var m := if p.dirty then p.memory else Erase(p.memory, p.pageStart);
    Flush(p.(memory := Fill(m, p.address, p.prevData, p.data), dirty := true, address := (p.address + 2) % TWO_32))
  }

  /** The effect of a complete word of a record, by record type. */
  function Word(p: Parser): Parser {
    if p.recordType == TYPE_DATA then DataWord(p)
    else if p.recordType == TYPE_EXTENDED_SEGMENT then p.(base := (256 * p.data + p.prevData) * 16)
    else if p.recordType == TYPE_EXTENDED_LINEAR then p.(base := (256 * p.data + p.prevData) * 65536)
    else p
  }

  /** A byte of record data. */
  function DataByte(p: Parser): Parser {
    var p := p.(dataRem := Low8(p.dataRem as int - 1));
    if p.address >= BOOT_START then p.(state := WaitLine, dirty := false)
    else if p.dataRem % 2 == 1 then p.(prevData := p.data)
    else
      var p := Word(p);
      if p.dataRem == 0 then p.(state := Checksum) else p
  }

  /** The byte after the record data: accepted when it makes the sum zero. */
  function ChecksumByte(p: Parser): Parser {
    if p.data != Low8(-(p.checksum as int)) then p
    else
      var p := Flush(p);
      if p.recordType == TYPE_END_OF_FILE then p.(running := false) else p
  }

  /** A byte of the header, if the parser is in one. */
  function HeaderByte(p: Parser): Parser {
    match p.state
    case ByteCount => p.(dataRem := p.data, state := AddressHigh)
    case AddressHigh => p.(address := (p.address + 256 * p.data) % TWO_32, state := AddressLow)
    case AddressLow => p.(address := (p.address + p.data) % TWO_32, state := RecordType)
    case RecordType => p.(recordType := p.data, state := if p.dataRem != 0 then ReadData else Checksum)
    case ReadData | Checksum | WaitLine => p
  }

  /** A complete byte, already in `data`. */
  function CompleteByte(p: Parser): Parser {
    var p := if p.state == Checksum then p else p.(checksum := Low8(p.checksum as int + p.data));
    match p.state
    case ReadData => DataByte(p)
    case Checksum => ChecksumByte(p)
    case ByteCount | AddressHigh | AddressLow | RecordType | WaitLine => HeaderByte(p)
  }

  /** `ParseIntelHEXByte`. */
  function Step(p: Parser, c: char): Parser {
    if p.state == WaitLine || c == ':' then
      p.(checksum := 0, address := p.base, readMSB := false, state := if c == ':' then ByteCount else p.state)
    else
      match HexDigit(c)
      case None => p
      case Some(digit) => Nibble(p, digit)
  }

  /** Half a byte; every second one completes a byte. */
  function Nibble(p: Parser, digit: nat): Parser {
    var p := p.(data := Low8(16 * (p.data as int) + digit), readMSB := !p.readMSB);
    if p.readMSB then p else CompleteByte(p)
  }

  /** The parser after a whole text. */
  function Run(p: Parser, text: string): Parser {
    Fold(Step, p, text)
  }

  // ----- Noise

  predicate IsSignificant(c: char) {
    c == ':' || HexDigit(c).Some?
  }

  function Significant(text: string): string {
    if text == [] then []
    else (if IsSignificant(text[0]) then [text[0]] else []) + Significant(text[1..])
  }

  /** The parser without the fields that every character resets while it waits for a line. */
  function Settled(p: Parser): Parser {
    if p.state == WaitLine then p.(checksum := 0, address := p.base, readMSB := false) else p
  }

  lemma StepSettled(p: Parser, c: char)
    ensures Step(Settled(p), c) == Step(p, c)
    ensures !IsSignificant(c) ==> Settled(Step(p, c)) == Settled(p)
  {
  }

  /** Characters other than upper-case hex digits and colons change nothing, wherever they are inserted. */
  lemma {:induction false} NoiseIsIgnored(p: Parser, q: Parser, text: string)
    requires Settled(p) == Settled(q)
    ensures Settled(Run(p, text)) == Settled(Run(q, Significant(text)))
    decreases text
  {
    if text == [] {
    } else {
      var c := text[0];
      StepSettled(p, c);
      StepSettled(q, c);
      if IsSignificant(c) {
        assert Significant(text)[1..] == Significant(text[1..]);
        NoiseIsIgnored(Step(p, c), Step(q, c), text[1..]);
      } else {
        assert Significant(text) == Significant(text[1..]);
        NoiseIsIgnored(Step(p, c), q, text[1..]);
      }
    }
  }

  // ----- The firmware

  class Loader {
    var state: State
    var prevData: byte
    var data: byte
    var readMSB: bool
    var recordType: byte
    var dataRem: byte
    var checksum: byte
    var pageStart: nat
    var base: nat
    var address: nat
    var dirty: bool
    var running: bool
    var memory: Memory

    ghost function Value(): Parser
      reads this
    {
      Parser(
        state, prevData, data, readMSB, recordType, dataRem, checksum, pageStart, base, address, dirty, running, memory)
    }

    constructor (memory: Memory)
      ensures Value() == Parser(WaitLine, 0, 0, false, 0, 0, 0, 0, 0, 0, false, true, memory)
    {
      state, prevData, data, readMSB, recordType, dataRem, checksum := WaitLine, 0, 0, false, 0, 0, 0;
      pageStart, base, address, dirty, running := 0, 0, 0, false, true;
      this.memory := memory;
    }

    /** `FlushPageIfRequired`. */
    method FlushPageIfRequired()
      modifies this
      ensures Value() == Flush(old(Value()))
    {
      if !dirty {
        return;
      }
      var newPageStart := PageStart(address);
      if pageStart != newPageStart {
        memory := WritePage(memory, pageStart);
        pageStart := newPageStart;
        dirty := false;
      }
    }

    /** A complete word of record data. */
    method ReadWord()
      modifies this
      ensures Value() == Word(old(Value()))
    {
      if recordType == TYPE_DATA {
        if !dirty {
          memory := Erase(memory, pageStart);
          dirty := true;
        }
        memory := Fill(memory, address, prevData, data);
        address := (address + 2) % TWO_32;
        FlushPageIfRequired();
      } else if recordType == TYPE_EXTENDED_SEGMENT {
        base := (256 * data + prevData) * 16;
      } else if recordType == TYPE_EXTENDED_LINEAR {
        base := (256 * data + prevData) * 65536;
      }
    }

    /** The `READ_DATA` case of `ParseIntelHEXByte`. */
    method ReadDataByte()
      modifies this
      ensures Value() == DataByte(old(Value()))
    {
      dataRem := Low8(dataRem as int - 1);
      if address >= BOOT_START {
        state := WaitLine;
        dirty := false;
        return;
      }
      if dataRem % 2 == 1 {
        prevData := data;
        return;
      }
      ReadWord();
      if dataRem == 0 {
        state := Checksum;
      }
    }

    /** The four header cases of the switch of `ParseIntelHEXByte`. */
    method ReadHeaderByte()
      requires state in {ByteCount, AddressHigh, AddressLow, State.RecordType}
      modifies this
      ensures Value() == HeaderByte(old(Value()))
    {
      match state
      case ByteCount =>
        dataRem := data;
        state := AddressHigh;
      case AddressHigh =>
        address := (address + 256 * data) % TWO_32;
        state := AddressLow;
      case AddressLow =>
        address := (address + data) % TWO_32;
        state := State.RecordType;
      case RecordType =>
        recordType := data;
        state := if dataRem != 0 then ReadData else Checksum;
    }

    /** The checksum and the switch of `ParseIntelHEXByte`, on a complete byte. */
    method ProcessByte()
      requires state != WaitLine
      modifies this
      ensures Value() == CompleteByte(old(Value()))
    {
      if state != Checksum {
        checksum := Low8(checksum as int + data);
      }
      match state
      case ReadData =>
        ReadDataByte();
      case Checksum =>
        VerifyChecksum();
      case ByteCount | AddressHigh | AddressLow | RecordType =>
        ReadHeaderByte();
    }

    /** The `CHECKSUM` case of `ParseIntelHEXByte`. */
    method VerifyChecksum()
      modifies this
      ensures Value() == ChecksumByte(old(Value()))
    {
      if data != Low8(-(checksum as int)) {
        return;
      }
      FlushPageIfRequired();
      if recordType == TYPE_END_OF_FILE {
        running := false;
      }
    }

    /** `ParseIntelHEXByte`. */
    method Parse(c: char)
      modifies this
      ensures Value() == Step(old(Value()), c)
    {
      if state == WaitLine || c == ':' {
        checksum := 0;
        address := base;
        readMSB := false;
        if c == ':' {
          state := ByteCount;
        }
        return;
      }
      var digit := HexDigit(c);
      if digit.None? {
        return;
      }
      data := Low8(16 * (data as int) + digit.value);
      readMSB := !readMSB;
      if readMSB {
        return;
      }
      ProcessByte();
    }

    /** The receive loop of `main`. */
    method ParseAll(text: string)
      modifies this
      ensures Value() == Run(old(Value()), text)
    {
      for i := 0 to |text|
        invariant Run(old(Value()), text) == Run(Value(), text[i..])
      {
        assert text[i..][1..] == text[i + 1..];
        Parse(text[i]);
      }
    }
  }
}
