/**
 HEX records that are not accepted: with a wrong checksum, or with data in or above the
 bootloader. What has been programmed before the fault is found stays programmed.
 */
module HexFaults {
  import opened Bytes
  import opened Flash
  import opened Folds
  import opened HexLoader
  import opened HexRecords
  import opened HexBase

  // ----- A wrong checksum

  lemma WrongCheckIsRead(p: Parser, check: byte)
    requires p.state == Checksum && check != Low8(-(p.checksum as int))
    ensures Take(p, check) == p.(data := check)
  {
  }

  /**
   A data record with a wrong checksum programs its words like a correct one; the page that it ends in is left
   only when it crosses its end.
   */
  lemma WrongDataIsPut(p: Parser, at: word, data: seq<byte>, check: byte)
    requires Fits(p, at, data) && check != Check(at, TYPE_DATA, data)
    ensures var q, words := Run(p, RawRecord(at, TYPE_DATA, data, check)), Programmed(p.prevData, data);
            && CursorOf(q) == Puts(CursorOf(p), p.base + at, words)
            && q.base == p.base && q.running == p.running
  {
    var p1 := AfterHeader(p, at, TYPE_DATA, |data|);
    DataRecordRuns(p, p1, at, data, check);
    DataCheck(p, p1, at, data);
    WrongCheckIsRead(AfterData(p1, data), check);
  }

  /** One of another type, in particular an end-of-file record, does nothing at all. */
  lemma WrongOtherIsIgnored(p: Parser, at: word, kind: byte, data: seq<byte>, check: byte)
    requires p.base + at < BOOT_START && IsOther(kind) && |data| < 256 && check != Check(at, kind, data)
    ensures var q := Run(p, RawRecord(at, kind, data, check));
            CursorOf(q) == CursorOf(p) && q.base == p.base && q.running == p.running
  {
    var p1 := AfterHeader(p, at, kind, |data|);
    OtherDataIsRead(p1, data);
    RecordIsTaken(p, p1, at, kind, data, check);
    CheckMatches(at, kind, data, Fold(Take, p1, data).checksum);
    WrongCheckIsRead(Fold(Take, p1, data), check);
  }

  /** An extended address is taken whatever the checksum is. */
  lemma WrongExtendedIsTaken(p: Parser, at: word, kind: byte, high: byte, low: byte, check: byte)
    requires p.base + at < BOOT_START && IsExtended(kind) && check != Check(at, kind, [high, low])
    ensures var q := Run(p, RawRecord(at, kind, [high, low], check));
            && q.base == (256 * (low as int) + high) * Scale(kind)
            && CursorOf(q) == CursorOf(p) && q.running == p.running
  {
    var p1 := AfterHeader(p, at, kind, 2);
    ExtendedIsTaken(p, p1, at, kind, high, low, check);
    ExtendedCheck(p, p1, at, kind, high, low);
    WrongCheckIsRead(AfterExtended(p1, high, low), check);
  }

  // ----- Data in or above the bootloader

  /** Only the fields that every line resets may have changed. */
  predicate Waits(p: Parser, q: Parser) {
    q.state == WaitLine && CursorOf(q) == CursorOf(p) && q.base == p.base && q.running == p.running
  }

  lemma WaitingStep(p: Parser, c: char)
    requires p.state == WaitLine && c != ':'
    ensures Waits(p, Step(p, c))
  {
  }

  lemma {:induction false} WaitingRun(p: Parser, text: string)
    requires p.state == WaitLine && ':' !in text
    ensures Waits(p, Run(p, text))
    decreases |text|
  {
    if text == [] {
    } else {
      WaitingStep(p, text[0]);
      WaitingRun(Step(p, text[0]), text[1..]);
    }
  }

  lemma {:induction false} HexHasNoColon(bs: seq<byte>)
    ensures ':' !in Hex(bs)
    decreases |bs|
  {
    if bs == [] {
    } else {
      DigitRoundTrip(bs[0] / 16);
      DigitRoundTrip(bs[0] % 16);
      HexHasNoColon(bs[1..]);
    }
  }

  lemma HighByteIsGivenUp(p: Parser, b: byte)
    requires p.state == ReadData && p.address >= BOOT_START
    ensures var q := Take(p, b);
            && q.state == WaitLine && CursorOf(q) == CursorOf(p).(dirty := false)
            && q.base == p.base && q.running == p.running
  {
  }

  lemma {:induction false} HexConcat(a: seq<byte>, b: seq<byte>)
    ensures Hex(a + b) == Hex(a) + Hex(b)
    decreases |a|
  {
    if a == [] {
      assert a + b == b;
    } else {
      assert (a + b)[1..] == a[1..] + b;
      HexConcat(a[1..], b);
    }
  }

  /** The text of a record, up to its first data byte and from there. */
  lemma RecordSplits(at: word, kind: byte, data: seq<byte>, check: byte)
    requires 0 < |data| < 256
    ensures RawRecord(at, kind, data, check) ==
            ":" + Hex(Header(at, kind, |data|) + [data[0]]) + Hex(data[1..] + [check])
  {
    var header := Header(at, kind, |data|);
    HexConcat(header + [data[0]], data[1..] + [check]);
    assert RecordBody(at, kind, data) + [check] == (header + [data[0]]) + (data[1..] + [check]);
  }

  lemma HeaderAndByte(p: Parser, at: word, kind: byte, n: byte, b: byte)
    requires p.base + at < TWO_32 && n > 0
    ensures Run(p, ":" + Hex(Header(at, kind, n) + [b])) == Take(AfterHeader(p, at, kind, n), b)
  {
    var header, p0 := Header(at, kind, n), Step(p, ':');
    HeaderIsRead(p, at, kind, n);
    LiveConcat(Take, p0, header, [b]);
    LiveOne(Take, AfterHeader(p, at, kind, n), b);
    RunHex(p0, header + [b]);
    FoldNext(Take, p0, header, b);
    var text := ":" + Hex(header + [b]);
    assert text[1..] == Hex(header + [b]);
  }

  /**
   A record of any type with data in or above the bootloader, whatever its checksum: the line is given up, and
   with it what the open page's buffer has not written yet.
   */
  lemma HighRecordIsGivenUp(p: Parser, at: word, kind: byte, data: seq<byte>, check: byte)
    requires BOOT_START <= p.base + at < TWO_32 && 0 < |data| < 256
    ensures var q := Run(p, RawRecord(at, kind, data, check));
            && q.state == WaitLine && CursorOf(q) == CursorOf(p).(dirty := false)
            && q.base == p.base && q.running == p.running
  {
    var first, rest := ":" + Hex(Header(at, kind, |data|) + [data[0]]), Hex(data[1..] + [check]);
    RecordSplits(at, kind, data, check);
    FoldConcat(Step, p, first, rest);
    HeaderAndByte(p, at, kind, |data|, data[0]);
    HighByteIsGivenUp(AfterHeader(p, at, kind, |data|), data[0]);
    HexHasNoColon(data[1..] + [check]);
    WaitingRun(Run(p, first), rest);
  }
}
