/**
 The end-to-end property of the SysEx pipeline: what the device sends on a bulk pull
 can be fed back to it.
 */
module Echo {
  import opened Bytes
  import opened UsbMidi
  import opened SysEx
  import opened Palette
  import opened Eeprom
  import opened Config
  import opened Pushes

  // ----- Pull, then push back

  /** Every triple of a table echoed. */
  function EchoedTable(t: Table): Table {
    Mapped(t, 0, TABLE_BYTES, Echoed)
  }

  /** What is stored for a triple that was pulled and pushed back. */
  lemma StoredPartData(t: Table, part: nat, q: nat, adjust: Rgb -> Rgb)
    requires 1 <= part <= NUM_PARTS && InPart(q, part)
    ensures Stored(PartData(t, part), q - TRIPLES_PER_PART * (part - 1), adjust) == adjust(RescaledColour(At(t, 3 * q)))
  {
    var k := q - TRIPLES_PER_PART * (part - 1);
    assert PartStart(part) + 3 * k == 3 * q;
  }

  /** The messages of a pull from `part` on. */
  function PullMessages(t: Table, tag: byte, part: nat): seq<seq<byte>>
    requires 1 <= part <= NUM_PARTS + 1
    decreases |t|, NUM_PARTS + 1 - part
  {
    if part > NUM_PARTS then [] else [PullMessage(t, tag, part)] + PullMessages(t, tag, part + 1)
  }

  lemma {:induction false} PullMessagesAreReceived(t: Table, tag: byte, part: nat)
    requires 1 <= part <= NUM_PARTS + 1
    ensures Messages(Idle, PulledFrom(t, tag, part)) == PullMessages(t, tag, part)
    decreases |t|, NUM_PARTS + 1 - part
  {
    if part > NUM_PARTS {
    } else {
      var m := PullMessage(t, tag, part);
      PacketizeRoundTrip(m);
      CollectConcat(Idle, Packetize(m), PulledFrom(t, tag, part + 1));
      PullMessagesAreReceived(t, tag, part + 1);
    }
  }

  /** One pulled message, received, pushes the part it carries. */
  lemma PullMessagePushes(d: Device, t: Table, tag: byte, part: nat)
    requires 1 <= tag <= 2 && 1 <= part <= NUM_PARTS
    ensures HandleMessage(d, PullMessage(t, tag, part)) ==
            Done(WithTable(d, tag, Pushed(TableOf(d, tag), part, PartData(t, part), Adjusted)), [])
  {
    MessagePushes(d, TaggedPush(tag, NUM_PARTS, PartPush(part, PartData(t, part))));
  }

  /** The table `u` after the first `n` parts of `t` have been pushed into it. */
  function PushedBack(u: Table, t: Table, n: nat, adjust: Rgb -> Rgb): Table
    requires n <= NUM_PARTS
    decreases |t|, n
  {
    if n == 0 then u else Pushed(PushedBack(u, t, n - 1, adjust), n, PartData(t, n), adjust)
  }

  /** Pushing part `n` changes its triples, and no others. */
  lemma PushedPartTriple(u: Table, t: Table, n: nat, adjust: Rgb -> Rgb, q: nat)
    requires 1 <= n <= NUM_PARTS && q < NUM_TRIPLES
    ensures At(Pushed(u, n, PartData(t, n), adjust), 3 * q) ==
            if InPart(q, n) then adjust(RescaledColour(At(t, 3 * q))) else At(u, 3 * q)
  {
    PushedTriple(u, n, PartData(t, n), adjust, q);
    if InPart(q, n) {
      StoredPartData(t, n, q, adjust);
    }
  }

  lemma {:induction false} PushedBackTriple(u: Table, t: Table, n: nat, adjust: Rgb -> Rgb, q: nat)
    requires n <= NUM_PARTS && q < NUM_TRIPLES
    ensures At(PushedBack(u, t, n, adjust), 3 * q) ==
            if q < TRIPLES_PER_PART * n then adjust(RescaledColour(At(t, 3 * q))) else At(u, 3 * q)
    decreases n
  {
    if n == 0 {
    } else {
      PushedPartTriple(PushedBack(u, t, n - 1, adjust), t, n, adjust, q);
      PushedBackTriple(u, t, n - 1, adjust, q);
    }
  }

  lemma PushedBackIsEcho(t: Table, adjust: Rgb -> Rgb, echo: Rgb -> Rgb)
    requires forall c :: echo(c) == adjust(RescaledColour(c))
    ensures PushedBack(t, t, NUM_PARTS, adjust) == Mapped(t, 0, TABLE_BYTES, echo)
  {
    forall q | 0 <= q < NUM_TRIPLES
      ensures At(PushedBack(t, t, NUM_PARTS, adjust), 3 * q) == At(Mapped(t, 0, TABLE_BYTES, echo), 3 * q)
    {
      PushedBackTriple(t, t, NUM_PARTS, adjust, q);
      MappedTriple(t, 0, TABLE_BYTES, echo, q);
    }
    SameTriples(PushedBack(t, t, NUM_PARTS, adjust), Mapped(t, 0, TABLE_BYTES, echo));
  }

  /** Handling the pulled parts one after the other leads from each device to the next. */
  ghost predicate Chain(handle: (Device, seq<byte>) -> Outcome, devices: nat -> Device, t: Table, tag: byte) {
    forall part {:trigger PullMessage(t, tag, part)} :: 1 <= part <= NUM_PARTS ==>
      handle(devices(part - 1), PullMessage(t, tag, part)) == Done(devices(part), [])
  }

  lemma {:induction false} HandleChain(
    handle: (Device, seq<byte>) -> Outcome, devices: nat -> Device, t: Table, tag: byte, part: nat)
    requires 1 <= part <= NUM_PARTS + 1 && Chain(handle, devices, t, tag)
    ensures HandleAll(handle, devices(part - 1), PullMessages(t, tag, part)) == Done(devices(NUM_PARTS), [])
    decreases NUM_PARTS + 1 - part
  {
    if part > NUM_PARTS {
    } else {
      HandleChain(handle, devices, t, tag, part + 1);
      HandleNext(handle, devices(part - 1), PullMessage(t, tag, part), PullMessages(t, tag, part + 1), devices(part));
    }
  }

  /** The device with the first `n` pulled parts pushed back. */
  function Halfway(d: Device, t: Table, tag: byte, n: nat): Device {
    WithTable(d, tag, PushedBack(TableOf(d, tag), t, if n <= NUM_PARTS then n else NUM_PARTS, Adjusted))
  }

  lemma HalfwayNext(d: Device, t: Table, tag: byte, part: nat)
    requires 1 <= tag <= 2 && 1 <= part <= NUM_PARTS
    ensures HandleMessage(Halfway(d, t, tag, part - 1), PullMessage(t, tag, part)) == Done(Halfway(d, t, tag, part), [])
  {
    var u := PushedBack(TableOf(d, tag), t, part - 1, Adjusted);
    PullMessagePushes(Halfway(d, t, tag, part - 1), t, tag, part);
    SameDevice(d, tag, u, Pushed(u, part, PartData(t, part), Adjusted));
  }

  /** Replacing a table twice keeps the last. */
  lemma SameDevice(d: Device, tag: byte, t: Table, u: Table)
    requires 1 <= tag <= 2
    ensures TableOf(WithTable(d, tag, t), tag) == t
    ensures WithTable(WithTable(d, tag, t), tag, u) == WithTable(d, tag, u)
    ensures WithTable(d, tag, TableOf(d, tag)) == d
  {
  }

  lemma HalfwayChain(devices: nat -> Device, d: Device, t: Table, tag: byte)
    requires 1 <= tag <= 2 && forall n: nat :: devices(n) == Halfway(d, t, tag, n)
    ensures Chain(HandleMessage, devices, t, tag)
  {
    forall part | 1 <= part <= NUM_PARTS
      ensures HandleMessage(devices(part - 1), PullMessage(t, tag, part)) == Done(devices(part), [])
    {
      HalfwayNext(d, t, tag, part);
    }
  }

  /** All pulled messages, received in order. */
  lemma PushBack(d: Device, t: Table, tag: byte)
    requires 1 <= tag <= 2
    ensures HandleAll(HandleMessage, d, PullMessages(t, tag, 1)) == Done(Halfway(d, t, tag, NUM_PARTS), [])
  {
    var devices := (n: nat) => Halfway(d, t, tag, n);
    HalfwayChain(devices, d, t, tag);
    HandleChain(HandleMessage, devices, t, tag, 1);
    SameDevice(d, tag, TableOf(d, tag), TableOf(d, tag));
  }

  lemma HandleNext(
    handle: (Device, seq<byte>) -> Outcome, d: Device, m: seq<byte>, rest: seq<seq<byte>>, d': Device)
    requires handle(d, m) == Done(d', [])
    ensures HandleAll(handle, d, [m] + rest) == HandleAll(handle, d', rest)
  {
    var ms: seq<seq<byte>> := [m] + rest;
    assert ms[1..] == rest;
    if HandleAll(handle, d', rest).Done? {
      assert [] + HandleAll(handle, d', rest).sent == HandleAll(handle, d', rest).sent;
    }
  }

  /** A bulk pull request for a colour table. */
  function PullRequest(tag: byte): seq<byte> {
    VENDOR_HEADER + [COMMAND_BULK_XFER, 1, tag, 0xF7]
  }

  /** The device answers a pull request with packets that, received by the device, echo every triple of the
      table, and nothing else changes. So the table survives exactly when all its colours are palette colours. */
  lemma EchoIdentity(d: Device, tag: byte)
    requires 1 <= tag <= 2
    ensures var answer := Receive(d, Packetize(PullRequest(tag)));
            && answer.Done? && answer.device == d
            && Receive(d, answer.sent) == Done(WithTable(d, tag, EchoedTable(TableOf(d, tag))), [])
            && (Receive(d, answer.sent) == Done(d, []) <==>
                forall q :: 0 <= q < NUM_TRIPLES ==> At(TableOf(d, tag), 3 * q) in PALETTE)
  {
    var t := TableOf(d, tag);
    PullIsAnswered(d, tag);
    PullMessagesAreReceived(t, tag, 1);
    PushBack(d, t, tag);
    PushedBackIsEcho(t, Adjusted, Echoed);
    EchoedTableIsSame(t);
  }

  lemma PullIsAnswered(d: Device, tag: byte)
    requires 1 <= tag <= 2
    ensures Receive(d, Packetize(PullRequest(tag))) == Done(d, PulledFrom(TableOf(d, tag), tag, 1))
  {
    var m := PullRequest(tag);
    ReceiveMessage(d, m);
    assert m[5..] == [1, tag, 0xF7];
    assert Judge(m, COMMANDS) == Some(Run(BulkXfer, m[5..]));
  }

  lemma EchoedTableIsSame(t: Table)
    ensures EchoedTable(t) == t <==> forall q :: 0 <= q < NUM_TRIPLES ==> At(t, 3 * q) in PALETTE
  {
    forall q | 0 <= q < NUM_TRIPLES
      ensures At(EchoedTable(t), 3 * q) == At(t, 3 * q) <==> At(t, 3 * q) in PALETTE
    {
      MappedTriple(t, 0, TABLE_BYTES, Echoed, q);
      EchoKeepsExactlyThePalette(At(t, 3 * q));
    }
    if forall q :: 0 <= q < NUM_TRIPLES ==> At(t, 3 * q) in PALETTE {
      SameTriples(EchoedTable(t), t);
    }
  }
}
