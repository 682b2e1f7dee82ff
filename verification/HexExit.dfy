/**
 The HEX bootloader ends only on a checked end-of-file record: for every text, the
 parser's checksum is the sum of the bytes decoded since the last colon, and the
 loader stops running only when such a line is an end-of-file record whose bytes
 sum to zero.
 */
module HexExit {
  import opened Bytes
  import opened Flash
  import opened Folds
  import opened HexBase
  import opened HexLoader
  import opened HexRecords

  // ----- What a text says, independently of the parser

  /** The hex digits after the last colon, if there is a colon. */
  function Line(text: string): Option<seq<nat>> {
    if text == [] then None
    else
      var c := text[|text| - 1];
      if c == ':' then Some([])
      else
        match Line(text[..|text| - 1])
        case None => None
        case Some(digits) => Some(digits + ToSeq(HexDigit(c)))
  }

  /** Digits paired into bytes; an odd last digit is left over. */
  function Paired(digits: seq<nat>): seq<byte> {
    seq<byte>(|digits| / 2, i requires 0 <= i < |digits| / 2 => Low8(16 * digits[2 * i] + digits[2 * i + 1]))
  }

  /** The bytes decoded since the last colon. */
  function LineBytes(text: string): seq<byte> {
    match Line(text)
    case None => []
    case Some(digits) => Paired(digits)
  }

  /** The last character is the second digit of a byte. */
  predicate CompletesByte(text: string) {
    && text != [] && HexDigit(text[|text| - 1]).Some?
    && Line(text).Some? && |Line(text).value| % 2 == 0
  }

  /** The length of a record without its checksum. */
  function BodyLength(bs: seq<byte>): nat
    requires bs != []
  {
    4 + (bs[0] as int)
  }

  /** A line that is an end-of-file record followed by a byte that makes its sum zero. */
  predicate EndsFile(bs: seq<byte>) {
    && |bs| >= 4 && bs[3] == TYPE_END_OF_FILE
    && |bs| > BodyLength(bs)
    && (Sum(bs[..BodyLength(bs)]) + bs[|bs| - 1]) % 256 == 0
  }

  // ----- What the parser knows of it

  /** The parser's fields, from the bytes of the line. */
  ghost predicate TracksBytes(p: Parser, bs: seq<byte>) {
    match p.state
    case WaitLine => true
    case ByteCount => |bs| == 0 && p.checksum == 0
    case AddressHigh => |bs| == 1 && p.dataRem == bs[0] && p.checksum == Low8(Sum(bs))
    case AddressLow => |bs| == 2 && p.dataRem == bs[0] && p.checksum == Low8(Sum(bs))
    case RecordType => |bs| == 3 && p.dataRem == bs[0] && p.checksum == Low8(Sum(bs))
    case ReadData =>
      && |bs| >= 4 && p.recordType == bs[3] && p.dataRem > 0 && |bs| + p.dataRem == BodyLength(bs)
      && p.checksum == Low8(Sum(bs))
    case Checksum =>
      && |bs| >= 4 && p.recordType == bs[3] && |bs| >= BodyLength(bs)
      && p.checksum == Low8(Sum(bs[..BodyLength(bs)]))
  }

  ghost predicate TracksDigits(p: Parser, digits: seq<nat>) {
    && p.readMSB == (|digits| % 2 == 1)
    && (p.readMSB ==> p.data % 16 == digits[|digits| - 1])
    && (forall i :: 0 <= i < |digits| ==> digits[i] < 16)
    && TracksBytes(p, Paired(digits))
  }

  ghost predicate Tracks(p: Parser, text: string) {
    p.state != WaitLine ==> Line(text).Some? && TracksDigits(p, Line(text).value)
  }

  lemma LineNext(text: string, c: char)
    ensures Line(text + [c]) ==
            if c == ':' then Some([])
            else if Line(text).None? then None else Some(Line(text).value + ToSeq(HexDigit(c)))
  {
    assert (text + [c])[..|text|] == text;
  }

  lemma {:induction false} SumNext(bs: seq<byte>, b: byte)
    ensures Sum(bs + [b]) == Sum(bs) + b
    decreases bs
  {
    if bs == [] {
      assert bs + [b] == [b] && (bs + [b])[1..] == [];
    } else {
      assert (bs + [b])[1..] == bs[1..] + [b];
      SumNext(bs[1..], b);
    }
  }

  lemma PairedNext(digits: seq<nat>, digit: nat)
    requires (forall i :: 0 <= i < |digits| ==> digits[i] < 16) && digit < 16
    ensures Paired(digits + [digit]) ==
            if |digits| % 2 == 1 then Paired(digits) + [Low8(16 * digits[|digits| - 1] + digit)] else Paired(digits)
  {
  }

  /** One more byte of the line, in every state. */
  lemma ByteIsTracked(p: Parser, bs: seq<byte>, b: byte)
    requires p.state != WaitLine && TracksBytes(p, bs)
    ensures TracksBytes(Take(p, b), bs + [b])
    ensures p.running ==> (!Take(p, b).running <==> EndsFile(bs + [b]))
  {
    if p.state == ReadData {
      DataByteIsTracked(p, bs, b);
    } else if p.state == Checksum {
      ChecksumByteIsTracked(p, bs, b);
    } else {
      HeaderByteIsTracked(p, bs, b);
    }
  }

  lemma HeaderByteIsTracked(p: Parser, bs: seq<byte>, b: byte)
    requires p.state in {ByteCount, AddressHigh, AddressLow, State.RecordType} && TracksBytes(p, bs)
    ensures TracksBytes(Take(p, b), bs + [b]) && Take(p, b).running == p.running
  {
    SumNext(bs, b);
    Low8Add(Sum(bs), b);
    var bs' := bs + [b];
    assert bs'[..|bs'|] == bs';
  }

  lemma DataByteEffect(p: Parser, b: byte)
    requires p.state == ReadData && p.dataRem > 0
    ensures var q := Take(p, b);
            && q.running == p.running && q.recordType == p.recordType
            && q.dataRem == p.dataRem - 1 && q.checksum == Low8(p.checksum as int + b)
            && (q.state == WaitLine || q.state == if p.dataRem == 1 then Checksum else ReadData)
  {
    assert Low8(p.dataRem as int - 1) == p.dataRem - 1;
  }

  lemma DataByteIsTracked(p: Parser, bs: seq<byte>, b: byte)
    requires p.state == ReadData && TracksBytes(p, bs)
    ensures TracksBytes(Take(p, b), bs + [b]) && Take(p, b).running == p.running
  {
    DataByteEffect(p, b);
    SumNext(bs, b);
    Low8Add(Sum(bs), b);
    var bs' := bs + [b];
    assert bs'[..|bs'|] == bs';
  }

  lemma ChecksumByteIsTracked(p: Parser, bs: seq<byte>, b: byte)
    requires p.state == Checksum && TracksBytes(p, bs)
    ensures TracksBytes(Take(p, b), bs + [b])
    ensures p.running ==> (!Take(p, b).running <==> EndsFile(bs + [b]))
  {
    var bs' := bs + [b];
    assert bs'[..BodyLength(bs')] == bs[..BodyLength(bs)];
    ZeroSum(Sum(bs[..BodyLength(bs)]), b);
  }

  lemma ZeroSum(sum: nat, b: byte)
    ensures b == Low8(-(Low8(sum) as int)) <==> (sum + b) % 256 == 0
  {
  }

  lemma OnlyLowNibble(data: byte, digit: nat)
    requires digit < 16
    ensures Low8(16 * (data as int) + digit) == Low8(16 * (data % 16) + digit)
    ensures Low8(16 * (data as int) + digit) % 16 == digit
  {
    Low8Is(16 * (data as int) + digit, data / 16, 16 * (data % 16) + digit);
    Low8Is(16 * (data % 16) + digit, 0, 16 * (data % 16) + digit);
  }

  /** The first digit of a byte. */
  lemma FirstDigit(p: Parser, digits: seq<nat>, digit: nat)
    requires p.state != WaitLine && digit < 16 && TracksDigits(p, digits) && !p.readMSB
    ensures TracksDigits(Nibble(p, digit), digits + [digit]) && Nibble(p, digit).running == p.running
  {
    PairedNext(digits, digit);
    OnlyLowNibble(p.data, digit);
  }

  /** The second one, from what the complete byte has done. */
  lemma SecondDigit(q: Parser, digits: seq<nat>, digit: nat, b: byte)
    requires (forall i :: 0 <= i < |digits| ==> digits[i] < 16) && digit < 16 && |digits| % 2 == 1
    requires b == Low8(16 * digits[|digits| - 1] + digit) && !q.readMSB && TracksBytes(q, Paired(digits) + [b])
    ensures TracksDigits(q, digits + [digit]) && Paired(digits + [digit]) == Paired(digits) + [b]
  {
    PairedNext(digits, digit);
  }

  lemma NibbleIsTracked(p: Parser, digits: seq<nat>, digit: nat)
    requires p.state != WaitLine && digit < 16 && TracksDigits(p, digits)
    ensures TracksDigits(Nibble(p, digit), digits + [digit])
    ensures p.running ==>
              (!Nibble(p, digit).running <==> (|digits| + 1) % 2 == 0 && EndsFile(Paired(digits + [digit])))
  {
    if p.readMSB {
      var p1, b := p.(readMSB := false), Low8(16 * (p.data as int) + digit);
      OnlyLowNibble(p.data, digit);
      TakeKeepsPhase(p1, b);
      ByteIsTracked(p1, Paired(digits), b);
      SecondDigit(Take(p1, b), digits, digit, b);
    } else {
      FirstDigit(p, digits, digit);
    }
  }

  /** The step stops the loader exactly when it completes the checksum of an end-of-file record. */
  ghost predicate StopsExactly(p: Parser, q: Parser, text: string) {
    p.running ==> (!q.running <==> p.state != WaitLine && CompletesByte(text) && EndsFile(LineBytes(text)))
  }

  lemma DigitIsTracked(p: Parser, text: string, c: char)
    requires Tracks(p, text) && p.state != WaitLine && c != ':' && HexDigit(c).Some?
    ensures Tracks(Step(p, c), text + [c]) && StopsExactly(p, Step(p, c), text + [c])
  {
    LineNext(text, c);
    NibbleIsTracked(p, Line(text).value, HexDigit(c).value);
  }

  lemma OtherIsTracked(p: Parser, text: string, c: char)
    requires Tracks(p, text) && (p.state == WaitLine || c == ':' || HexDigit(c).None?)
    ensures Tracks(Step(p, c), text + [c]) && StopsExactly(p, Step(p, c), text + [c])
  {
    LineNext(text, c);
    if p.state != WaitLine && c != ':' {
      assert Line(text).value + [] == Line(text).value;
    }
  }

  lemma StepIsTracked(p: Parser, text: string, c: char)
    requires Tracks(p, text)
    ensures Tracks(Step(p, c), text + [c]) && StopsExactly(p, Step(p, c), text + [c])
  {
    if p.state != WaitLine && c != ':' && HexDigit(c).Some? {
      DigitIsTracked(p, text, c);
    } else {
      OtherIsTracked(p, text, c);
    }
  }

  lemma StoppedStays(p: Parser, c: char)
    ensures !p.running ==> !Step(p, c).running
  {
  }

  /** The parser's fields always reflect the line being read. */
  lemma {:induction false} RunIsTracked(p: Parser, text: string)
    requires p.state == WaitLine
    ensures Tracks(Run(p, text), text)
    decreases |text|
  {
    if text == [] {
    } else {
      var before, c := text[..|text| - 1], text[|text| - 1];
      assert before + [c] == text;
      RunIsTracked(p, before);
      FoldNext(Step, p, before, c);
      StepIsTracked(Run(p, before), before, c);
    }
  }

  // ----- Lines that the loader gives up

  /** The address in a record's header. */
  function HeaderAddress(bs: seq<byte>): nat
    requires |bs| >= 3
  {
    256 * (bs[1] as int) + bs[2]
  }

  /** An end-of-file record whose data, if it has any, is below the bootloader. */
  predicate IsBelow(base: nat, bs: seq<byte>)
    requires |bs| >= 3
  {
    bs[0] == 0 || base + HeaderAddress(bs) < BOOT_START
  }

  /**
   The parser's address, from the bytes of the line, as far as an end-of-file record is concerned. Waiting for
   a line in the middle of one means that data at or above the bootloader's start has been met.
   */
  ghost predicate Addressed(p: Parser, bs: seq<byte>) {
    && p.base <= MAX_BASE
    && match p.state
       case WaitLine => |bs| >= 5 && (bs[3] == TYPE_END_OF_FILE ==> !IsBelow(p.base, bs))
       case ByteCount => p.address == p.base
       case AddressHigh => p.address == p.base
       case AddressLow => |bs| >= 2 && p.address == p.base + 256 * (bs[1] as int)
       case RecordType => |bs| >= 3 && p.address == p.base + HeaderAddress(bs)
       case ReadData =>
         |bs| >= 4 && (bs[3] == TYPE_END_OF_FILE ==>
           p.address == p.base + HeaderAddress(bs) && (|bs| > 4 ==> IsBelow(p.base, bs)))
       case Checksum => |bs| >= 4 && (bs[3] == TYPE_END_OF_FILE ==> IsBelow(p.base, bs))
  }

  lemma HeaderIsAddressed(p: Parser, bs: seq<byte>, b: byte)
    requires p.state in {ByteCount, AddressHigh, AddressLow, State.RecordType}
    requires TracksBytes(p, bs) && Addressed(p, bs)
    ensures Addressed(Take(p, b), bs + [b])
  {
  }

  lemma DataIsAddressed(p: Parser, bs: seq<byte>, b: byte)
    requires p.state == ReadData && TracksBytes(p, bs) && Addressed(p, bs)
    ensures Addressed(Take(p, b), bs + [b])
  {
    var bs' := bs + [b];
    assert bs'[0] == bs[0] && bs'[1] == bs[1] && bs'[2] == bs[2] && bs'[3] == bs[3];
    DataByteEffect(p, b);
    DataBase(p, b);
  }

  /** What a data byte does to base and address. */
  lemma DataBase(p: Parser, b: byte)
    requires p.state == ReadData && p.dataRem > 0 && p.base <= MAX_BASE
    ensures var q := Take(p, b);
            && q.base <= MAX_BASE && (q.state == WaitLine <==> p.address >= BOOT_START)
            && (p.recordType == TYPE_END_OF_FILE ==> q.base == p.base && q.address == p.address)
  {
  }

  lemma CheckIsAddressed(p: Parser, bs: seq<byte>, b: byte)
    requires p.state == Checksum && Addressed(p, bs)
    ensures Addressed(Take(p, b), bs + [b])
  {
  }

  lemma ByteIsAddressed(p: Parser, bs: seq<byte>, b: byte)
    requires p.state != WaitLine && TracksBytes(p, bs) && Addressed(p, bs)
    ensures Addressed(Take(p, b), bs + [b])
  {
    if p.state == ReadData {
      DataIsAddressed(p, bs, b);
    } else if p.state == Checksum {
      CheckIsAddressed(p, bs, b);
    } else {
      HeaderIsAddressed(p, bs, b);
    }
  }

  /** The parser's address follows the line being read. */
  ghost predicate Follows(p: Parser, text: string) {
    if Line(text).Some? then Addressed(p, LineBytes(text)) else p.state == WaitLine && p.base <= MAX_BASE
  }

  lemma NibbleFollows(p: Parser, digits: seq<nat>, digit: nat)
    requires p.state != WaitLine && digit < 16 && TracksDigits(p, digits) && Addressed(p, Paired(digits))
    ensures Addressed(Nibble(p, digit), Paired(digits + [digit]))
  {
    PairedNext(digits, digit);
    if p.readMSB {
      var b := Low8(16 * (p.data as int) + digit);
      OnlyLowNibble(p.data, digit);
      ByteIsAddressed(p.(readMSB := false), Paired(digits), b);
      assert Paired(digits + [digit]) == Paired(digits) + [b];
    }
  }

  /** Digits after the loader has given the line up. */
  lemma GivenUpStays(p: Parser, digits: seq<nat>, digit: nat)
    requires p.state == WaitLine && Addressed(p, Paired(digits)) && digit < 16
    requires forall i :: 0 <= i < |digits| ==> digits[i] < 16
    ensures Addressed(p, Paired(digits + [digit]))
  {
    PairedNext(digits, digit);
  }

  lemma {:induction false} LineIsHex(text: string)
    requires Line(text).Some?
    ensures forall i :: 0 <= i < |Line(text).value| ==> Line(text).value[i] < 16
    decreases |text|
  {
    if text == [] {
    } else if text[|text| - 1] != ':' {
      LineIsHex(text[..|text| - 1]);
    }
  }

  lemma DigitFollows(p: Parser, text: string, c: char)
    requires Tracks(p, text) && Follows(p, text) && Line(text).Some? && c != ':' && HexDigit(c).Some?
    ensures Follows(Step(p, c), text + [c])
  {
    var digits, digit := Line(text).value, HexDigit(c).value;
    LineNext(text, c);
    LineIsHex(text);
    if p.state == WaitLine {
      GivenUpStays(p, digits, digit);
    } else {
      NibbleFollows(p, digits, digit);
    }
  }

  lemma OtherFollows(p: Parser, text: string, c: char)
    requires Follows(p, text) && (Line(text).None? || c == ':' || HexDigit(c).None?)
    ensures Follows(Step(p, c), text + [c])
  {
    LineNext(text, c);
    if c != ':' && Line(text).Some? {
      assert Line(text).value + [] == Line(text).value;
    }
  }

  lemma StepFollows(p: Parser, text: string, c: char)
    requires Tracks(p, text) && Follows(p, text)
    ensures Follows(Step(p, c), text + [c])
  {
    if c != ':' && Line(text).Some? && HexDigit(c).Some? {
      DigitFollows(p, text, c);
    } else {
      OtherFollows(p, text, c);
    }
  }

  lemma {:induction false} RunFollows(p: Parser, text: string)
    requires p.state == WaitLine && p.base <= MAX_BASE
    ensures Follows(Run(p, text), text)
    decreases |text|
  {
    if text == [] {
    } else {
      var before, c := text[..|text| - 1], text[|text| - 1];
      assert before + [c] == text;
      RunFollows(p, before);
      RunIsTracked(p, before);
      FoldNext(Step, p, before, c);
      StepFollows(Run(p, before), before, c);
    }
  }

  /** The text ends with a correctly summed end-of-file record. */
  predicate EndsRecord(text: string) {
    CompletesByte(text) && EndsFile(LineBytes(text))
  }

  /**
   A text that ends with a correctly summed end-of-file record. The record has no data, as in every standard
   file, or its data is addressed below the bootloader, from the extended address in force.
   */
  ghost predicate EndsHere(p: Parser, text: string) {
    EndsRecord(text) && IsBelow(Run(p, text).base, LineBytes(text))
  }

  /** The last byte of an end-of-file record, as the parser sees it. */
  lemma LastByte(p: Parser, bs: seq<byte>, b: byte)
    requires EndsFile(bs + [b]) && TracksBytes(p, bs) && Addressed(p, bs)
    ensures |bs| >= 4 && p.state in {WaitLine, Checksum}
    ensures p.state != WaitLine <==> IsBelow(p.base, bs)
  {
    var bs' := bs + [b];
    assert bs'[0] == bs[0] && bs'[3] == bs[3];
  }

  /** It completes an end-of-file record exactly when the loader has not given the line up. */
  lemma LiveExactly(p: Parser, text: string, c: char)
    requires Tracks(p, text) && Follows(p, text)
    requires CompletesByte(text + [c]) && EndsFile(LineBytes(text + [c]))
    ensures p.state != WaitLine <==> IsBelow(Step(p, c).base, LineBytes(text + [c]))
  {
    LineNext(text, c);
    LineIsHex(text);
    var digits, digit := Line(text).value, HexDigit(c).value;
    PairedNext(digits, digit);
    var bs, b := Paired(digits), Low8(16 * digits[|digits| - 1] + digit);
    assert LineBytes(text + [c]) == bs + [b];
    LastByte(p, bs, b);
    assert (bs + [b])[0] == bs[0] && (bs + [b])[1] == bs[1] && (bs + [b])[2] == bs[2];
    BaseIsSame(p, c);
  }

  lemma BaseIsSame(p: Parser, c: char)
    requires p.state in {WaitLine, Checksum}
    ensures Step(p, c).base == p.base
  {
  }

  lemma NextCharacterStops(p: Parser, text: string, c: char)
    requires p.state == WaitLine && p.base <= MAX_BASE
    ensures !Run(p, text + [c]).running <==> !Run(p, text).running || EndsHere(p, text + [c])
  {
    RunIsTracked(p, text);
    RunFollows(p, text);
    FoldNext(Step, p, text, c);
    assert (text + [c])[..|text|] == text;
    StepIsTracked(Run(p, text), text, c);
    StoppedStays(Run(p, text), c);
    if CompletesByte(text + [c]) && EndsFile(LineBytes(text + [c])) {
      LiveExactly(Run(p, text), text, c);
    }
  }

  /** Something happened along a text exactly when it happened at some beginning of it. */
  lemma {:induction false} SomeBeginning(happened: string -> bool, here: string -> bool, text: string)
    requires !happened([])
    requires forall t: string, c: char {:trigger happened(t + [c])} ::
               happened(t + [c]) <==> happened(t) || here(t + [c])
    ensures happened(text) <==> exists n :: 1 <= n <= |text| && here(text[..n])
    decreases |text|
  {
    if text == [] {
    } else {
      var before, c := text[..|text| - 1], text[|text| - 1];
      assert before + [c] == text && text[..|text|] == text;
      assert happened(before + [c]) <==> happened(before) || here(before + [c]);
      SomeBeginning(happened, here, before);
      forall n | 1 <= n <= |before|
        ensures before[..n] == text[..n]
      {
      }
    }
  }

  /** Whatever text the loader is given, it stops running if and only if some beginning of the text ends
      with a complete, correctly summed end-of-file record. */
  lemma ExitIsChecked(p: Parser, text: string)
    requires p.state == WaitLine && p.running && p.base <= MAX_BASE
    ensures !Run(p, text).running <==> exists n :: 1 <= n <= |text| && EndsHere(p, text[..n])
  {
    var happened := (t: string) => !Run(p, t).running;
    var here := (t: string) => EndsHere(p, t);
    forall t: string, c: char
      ensures happened(t + [c]) <==> happened(t) || here(t + [c])
    {
      NextCharacterStops(p, t, c);
    }
    SomeBeginning(happened, here, text);
    assert forall n :: 1 <= n <= |text| ==> here(text[..n]) == EndsHere(p, text[..n]);
  }

  /**
   In a text without end-of-file records that carry data, as every standard file is, the condition is one on the
   text alone.
   */
  lemma StandardExit(p: Parser, text: string)
    requires p.state == WaitLine && p.running && p.base <= MAX_BASE
    requires forall n :: 1 <= n <= |text| && EndsRecord(text[..n]) ==> LineBytes(text[..n])[0] == 0
    ensures !Run(p, text).running <==> exists n :: 1 <= n <= |text| && EndsRecord(text[..n])
  {
    ExitIsChecked(p, text);
    assert forall n :: 1 <= n <= |text| ==> EndsHere(p, text[..n]) == EndsRecord(text[..n]);
  }
}
