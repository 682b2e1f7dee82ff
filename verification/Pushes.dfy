/**
 Bulk pushes of colour table parts: what one push stores, and why the order in which
 parts of either table are pushed does not matter.
 */
module Pushes {
  import opened Bytes
  import opened UsbMidi
  import opened SysEx
  import opened Palette
  import opened Eeprom
  import opened Config

  const NUM_TRIPLES := 128
  const TRIPLES_PER_PART := 8

  // ----- One push, triple by triple

  lemma SameTriples(t: Table, u: Table)
    requires forall q {:trigger At(t, 3 * q)} :: 0 <= q < NUM_TRIPLES ==> At(t, 3 * q) == At(u, 3 * q)
    ensures t == u
  {
    forall i | 0 <= i < TABLE_BYTES
      ensures t[i] == u[i]
    {
      var q := i / 3;
      assert At(t, 3 * q) == At(u, 3 * q);
    }
  }

  predicate InPart(q: nat, part: nat) {
    TRIPLES_PER_PART * (part - 1) <= q < TRIPLES_PER_PART * part
  }

  /** A triple of full part data, as it is stored. */
  function Stored(data: seq<byte>, k: nat, adjust: Rgb -> Rgb): Rgb
    requires 3 * k + 2 < |data|
  {
    adjust(Rgb(FromSysEx(data[3 * k]), FromSysEx(data[3 * k + 1]), FromSysEx(data[3 * k + 2])))
  }

  /** Pushing a full part replaces exactly that part's window, and what it stores does not depend on the table. */
  lemma PushedTriple(t: Table, part: nat, data: seq<byte>, adjust: Rgb -> Rgb, q: nat)
    requires 1 <= part <= NUM_PARTS && |data| == PART_BYTES && q < NUM_TRIPLES
    ensures At(Pushed(t, part, data, adjust), 3 * q) ==
            if InPart(q, part) then Stored(data, q - TRIPLES_PER_PART * (part - 1), adjust) else At(t, 3 * q)
  {
    var at := PartStart(part);
    var t' := Overwritten(t, at, Doubled(data));
    if InPart(q, part) {
      var k := q - TRIPLES_PER_PART * (part - 1);
      MappedTriple(t', at, at + PART_BYTES, adjust, k);
      assert at + 3 * k == 3 * q;
      assert forall i :: 0 <= i < PART_BYTES ==> t'[at + i] == FromSysEx(data[i]);
    }
  }

  // ----- A run of pushes

  datatype AnyPush = PartPush(part: nat, data: seq<byte>)

  /** A push of 24 bytes to one of the sixteen parts. */
  type FullPush = p: AnyPush | 1 <= p.part <= NUM_PARTS && |p.data| == PART_BYTES
    witness PartPush(1, seq(PART_BYTES, _ => 0))

  function PushAll(t: Table, pushes: seq<FullPush>, adjust: Rgb -> Rgb): Table {
    if pushes == [] then t
    else
      var last := pushes[|pushes| - 1];
      Pushed(PushAll(t, pushes[..|pushes| - 1], adjust), last.part, last.data, adjust)
  }

  /** The data of the last push of a part. */
  function LastPush(pushes: seq<FullPush>, part: nat): (r: Option<seq<byte>>)
    ensures r.Some? ==> |r.value| == PART_BYTES
  {
    if pushes == [] then None
    else if pushes[|pushes| - 1].part == part then Some(pushes[|pushes| - 1].data)
    else LastPush(pushes[..|pushes| - 1], part)
  }

  /** Each triple of the final table comes from the last push of its part, or was never pushed. */
  lemma {:induction false} PushAllTriple(t: Table, pushes: seq<FullPush>, adjust: Rgb -> Rgb, part: nat, q: nat)
    requires 1 <= part <= NUM_PARTS && InPart(q, part)
    ensures At(PushAll(t, pushes, adjust), 3 * q) ==
            match LastPush(pushes, part)
            case None => At(t, 3 * q)
            case Some(data) => Stored(data, q - TRIPLES_PER_PART * (part - 1), adjust)
  {
    if pushes == [] {
    } else {
      var before, last := pushes[..|pushes| - 1], pushes[|pushes| - 1];
      PushAllTriple(t, before, adjust, part, q);
      PushedTriple(PushAll(t, before, adjust), last.part, last.data, adjust, q);
    }
  }

  /** The final table depends only on the last push of each part: the order of the parts does not matter. */
  lemma SameTable(t: Table, pushes: seq<FullPush>, others: seq<FullPush>, adjust: Rgb -> Rgb)
    requires forall part | 1 <= part <= NUM_PARTS :: LastPush(pushes, part) == LastPush(others, part)
    ensures PushAll(t, pushes, adjust) == PushAll(t, others, adjust)
  {
    forall q | 0 <= q < NUM_TRIPLES
      ensures At(PushAll(t, pushes, adjust), 3 * q) == At(PushAll(t, others, adjust), 3 * q)
    {
      var part := q / TRIPLES_PER_PART + 1;
      PushAllTriple(t, pushes, adjust, part, q);
      PushAllTriple(t, others, adjust, part, q);
    }
    SameTriples(PushAll(t, pushes, adjust), PushAll(t, others, adjust));
  }

  // ----- Push messages

  function TableOf(d: Device, tag: byte): Table {
    if tag == 1 then d.idle else d.active
  }

  function WithTable(d: Device, tag: byte, t: Table): Device {
    if tag == 1 then d.(idle := t) else d.(active := t)
  }

  /** A push message: the tag names the table, and the part count is sent but never looked at. */
  datatype TaggedPush = TaggedPush(tag: byte, total: byte, push: FullPush)

  function Message(p: TaggedPush): seq<byte> {
    VENDOR_HEADER + [COMMAND_BULK_XFER, 0, p.tag, p.push.part, p.total, PART_BYTES] + p.push.data + [0xF7]
  }

  /** The pushes of one tag, in order. */
  function OfTag(pushes: seq<TaggedPush>, tag: byte): seq<FullPush> {
    if pushes == [] then []
    else
      var last := pushes[|pushes| - 1];
      OfTag(pushes[..|pushes| - 1], tag) + if last.tag == tag then [last.push] else []
  }

  /** A full push, received, changes its own part of its own tag's table; other tags have none. */
  lemma MessagePushes(d: Device, p: TaggedPush)
    ensures HandleMessage(d, Message(p)) ==
            Done(if 1 <= p.tag <= 2
                 then WithTable(d, p.tag, Pushed(TableOf(d, p.tag), p.push.part, p.push.data, Adjusted)) else d, [])
  {
    var m := Message(p);
    var payload := m[5..];
    assert payload == [0, p.tag, p.push.part, p.total, PART_BYTES] + p.push.data + [0xF7];
    assert payload[5..5 + PART_BYTES] == p.push.data;
    assert Judge(m, COMMANDS) == Some(Run(BulkXfer, payload));
    assert React(d, Run(BulkXfer, payload)) == Bulk(d, payload);
  }

  /**
   A bulk push message of any size: the bytes from the eleventh on, as many as the size says, are pushed into the
   part of the tag's table; the end byte counts among them. A size that the message does not cover, and a tag or
   part that does not exist, push nothing.
   */
  lemma PushOfAnySize(d: Device, m: seq<byte>)
    requires IsVendor(m) && 11 <= |m| <= 67 && m[4] == COMMAND_BULK_XFER && m[5] == 0 && !OverrunsTable(m[5..])
    ensures var tag, part, size := m[6], m[7], m[9];
            if 1 <= tag <= 2 && 1 <= part <= NUM_PARTS && size <= |m| - 10 then
              && PushFits(part, size)
              && HandleMessage(d, m) ==
                 Done(WithTable(d, tag, Pushed(TableOf(d, tag), part, m[10..10 + size], Adjusted)), [])
            else HandleMessage(d, m) == Done(d, [])
  {
    var payload, size := m[5..], m[9];
    assert Judge(m, COMMANDS) == Some(Run(BulkXfer, payload));
    BulkStraysExactly(d, payload);
    if size <= |m| - 10 {
      assert payload[5..5 + size] == m[10..10 + size];
    }
  }

  function PushMessages(pushes: seq<TaggedPush>): seq<seq<byte>> {
    seq(|pushes|, i requires 0 <= i < |pushes| => Message(pushes[i]))
  }

  /** The device with every table changed by the pushes of its own tag. */
  function AllPushed(d: Device, pushes: seq<TaggedPush>): Device {
    d.(idle := PushAll(d.idle, OfTag(pushes, 1), Adjusted), active := PushAll(d.active, OfTag(pushes, 2), Adjusted))
  }

  lemma PushAllNext(t: Table, pushes: seq<FullPush>, p: FullPush, adjust: Rgb -> Rgb)
    ensures PushAll(t, pushes + [p], adjust) == Pushed(PushAll(t, pushes, adjust), p.part, p.data, adjust)
  {
    assert (pushes + [p])[..|pushes|] == pushes;
  }

  lemma AllPushedNext(d: Device, pushes: seq<TaggedPush>)
    requires pushes != []
    ensures HandleMessage(AllPushed(d, pushes[..|pushes| - 1]), Message(pushes[|pushes| - 1])) ==
            Done(AllPushed(d, pushes), [])
  {
    var before, last := pushes[..|pushes| - 1], pushes[|pushes| - 1];
    MessagePushes(AllPushed(d, before), last);
    if 1 <= last.tag <= 2 {
      PushAllNext(TableOf(d, last.tag), OfTag(before, last.tag), last.push, Adjusted);
    }
    assert last.tag != 1 ==> OfTag(before, 1) + [] == OfTag(before, 1);
    assert last.tag != 2 ==> OfTag(before, 2) + [] == OfTag(before, 2);
  }

  /** Messages that send nothing, each taking the device from one state of a run to the next. */
  lemma {:induction false} HandleRun(
    handle: (Device, seq<byte>) -> Outcome, ms: seq<seq<byte>>, after: nat -> Device, n: nat)
    requires n <= |ms|
    requires forall i: nat :: i < n ==> handle(after(i), ms[i]) == Done(after(i + 1), [])
    ensures HandleAll(handle, after(0), ms[..n]) == Done(after(n), [])
    decreases n
  {
    if n == 0 {
    } else {
      HandleRun(handle, ms, after, n - 1);
      HandleConcat(handle, after(0), ms[..n - 1], [ms[n - 1]]);
      assert ms[..n] == ms[..n - 1] + [ms[n - 1]];
      HandleOne(handle, after(n - 1), ms[n - 1]);
    }
  }

  /** Any run of push messages, the tags mixed at will, changes each table by its own pushes alone. */
  lemma PushesAreHandled(d: Device, pushes: seq<TaggedPush>)
    ensures HandleAll(HandleMessage, d, PushMessages(pushes)) == Done(AllPushed(d, pushes), [])
  {
    var ms := PushMessages(pushes);
    var after := (i: nat) => if i <= |pushes| then AllPushed(d, pushes[..i]) else d;
    forall i: nat | i < |ms|
      ensures HandleMessage(after(i), ms[i]) == Done(after(i + 1), [])
    {
      AllPushedNext(d, pushes[..i + 1]);
      assert pushes[..i + 1][..i] == pushes[..i];
    }
    HandleRun(HandleMessage, ms, after, |ms|);
    assert ms[..|ms|] == ms && pushes[..|pushes|] == pushes;
    assert AllPushed(d, pushes[..0]) == d;
  }

  /** The packets of a run of messages. */
  function Packets(ms: seq<seq<byte>>): seq<Packet> {
    if ms == [] then [] else Packetize(ms[0]) + Packets(ms[1..])
  }

  lemma {:induction false} PacketsAreMessages(ms: seq<seq<byte>>)
    requires forall m :: m in ms ==> |m| >= 4
    ensures Messages(Idle, Packets(ms)) == ms
    decreases |ms|
  {
    if ms == [] {
    } else {
      PacketizeRoundTrip(ms[0]);
      CollectConcat(Idle, Packetize(ms[0]), Packets(ms[1..]));
      PacketsAreMessages(ms[1..]);
      assert [ms[0]] + ms[1..] == ms;
    }
  }

  /** The last push of every part of every table is the same in both runs. */
  predicate SameLastPushes(pushes: seq<TaggedPush>, others: seq<TaggedPush>) {
    forall tag: byte, part | 1 <= tag <= 2 && 1 <= part <= NUM_PARTS ::
      LastPush(OfTag(pushes, tag), part) == LastPush(OfTag(others, tag), part)
  }

  /**
   Bulk pushes are independent of their order: two runs of push packets with the same last push of each
   part of each table leave the same device, whatever else they push and however they mix the tables.
   */
  lemma PushOrderIsIrrelevant(d: Device, pushes: seq<TaggedPush>, others: seq<TaggedPush>)
    requires SameLastPushes(pushes, others)
    ensures Receive(d, Packets(PushMessages(pushes))) == Done(AllPushed(d, pushes), [])
    ensures Receive(d, Packets(PushMessages(others))) == Receive(d, Packets(PushMessages(pushes)))
  {
    PushesAreReceived(d, pushes);
    PushesAreReceived(d, others);
    SameTable(d.idle, OfTag(pushes, 1), OfTag(others, 1), Adjusted);
    SameTable(d.active, OfTag(pushes, 2), OfTag(others, 2), Adjusted);
  }

  lemma PushesAreReceived(d: Device, pushes: seq<TaggedPush>)
    ensures Receive(d, Packets(PushMessages(pushes))) == Done(AllPushed(d, pushes), [])
  {
    PacketsAreMessages(PushMessages(pushes));
    PushesAreHandled(d, pushes);
  }
}
