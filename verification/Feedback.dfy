/**
 Note feedback from the host to the LEDs (midifighter64.c). A NoteOff is not shown at
 once: it leaves a time stamp, and a later LED refresh darkens the key unless a NoteOn
 has come first.
 */
module Feedback {
  import opened Bytes
  import opened Folds
  import opened UsbMidi

  const MAX_NOTES := 128
  const NUM_BUTTONS := 64
  const DELAY_LIMIT := 2
  const FLAG := 0x80

  type Table = t: seq<byte> | |t| == MAX_NOTES witness seq(MAX_NOTES, _ => 0)

  /**
   Velocities shown, pending NoteOff stamps (0 when none) and animation velocities. `strayed` once
   a store has gone past the end of the animation table: nothing is promised of the tables then.
   */
  datatype Lights = Lights(shown: Table, pending: Table, anims: Table, strayed: bool)

  /** A packet received, with the configured channel and the time in ms, or an LED refresh. */
  datatype Event = Message(packet: Packet, channel: byte, time: word) | Refresh(time: word)

  // ----- Addressing

  /** The entry that a note message on one of the two bank channels addresses. */
  function Addressed(p: Packet, channel: byte): Option<nat> {
    var key := Low8(p.d2 - BASE_NOTE);
    if key >= NUM_BUTTONS then None
    else if p.d1 % 16 == channel then Some(key)
    else if p.d1 % 16 == (channel - 1) % 16 then Some(key + NUM_BUTTONS)
    else None
  }

  predicate IsAnimation(p: Packet, channel: byte) {
    p.d1 % 16 != channel && p.d1 % 16 != (channel - 1) % 16 && p.d1 % 16 == (channel + 1) % 16
  }

  predicate IsNoteOn(p: Packet) {
    Cin(p) == 0x9
  }

  predicate IsNoteOff(p: Packet) {
    Cin(p) == 0x8
  }

  // ----- The deferred table

  function Stamp(time: word): byte {
    FLAG + time % 128
  }

  /** A stamp of zero or one ticks ago, as 16-bit arithmetic on the low seven bits sees it. */
  predicate Young(stamp: byte, time: word) {
    (time % 128 - stamp % 128) % 65536 < DELAY_LIMIT
  }

  predicate Expired(stamp: byte, time: word) {
    stamp >= FLAG && !Young(stamp, time)
  }

  function Refreshed(t: Table, pending: Table, time: word): Table {
    seq<byte>(MAX_NOTES, k requires 0 <= k < MAX_NOTES => if Expired(pending[k], time) then 0 else t[k])
  }

  function Received(l: Lights, p: Packet, channel: byte, time: word): Lights {
    if !IsNoteOn(p) && !IsNoteOff(p) then l
    else
      var velocity: byte := if IsNoteOn(p) then p.d3 else 0;
      match Addressed(p, channel)
      case Some(k) =>
        if IsNoteOn(p) then l.(shown := l.shown[k := velocity], pending := l.pending[k := 0])
        else l.(pending := l.pending[k := Stamp(time)])
      case None =>
        if !IsAnimation(p, channel) then l
        else if p.d2 < MAX_NOTES then l.(anims := l.anims[p.d2 := velocity])
        else l.(strayed := true)
  }

  function Next(l: Lights, e: Event): Lights {
    match e
    case Message(p, channel, time) => Received(l, p, channel, time)
    case Refresh(time) =>
      l.(shown := Refreshed(l.shown, l.pending, time), pending := Refreshed(l.pending, l.pending, time))
  }

  // ----- The references, which know no time

  /** The table in which every note message takes effect at once. */
  function EagerNext(t: Table, e: Event): Table {
    if e.Message? && (IsNoteOn(e.packet) || IsNoteOff(e.packet)) && Addressed(e.packet, e.channel).Some? then
      t[Addressed(e.packet, e.channel).value := if IsNoteOn(e.packet) then e.packet.d3 else 0]
    else t
  }

  /** The velocity of the last NoteOn of every key. */
  function LastOnNext(t: Table, e: Event): Table {
    if e.Message? && IsNoteOn(e.packet) then EagerNext(t, e) else t
  }

  function Run(l: Lights, es: seq<Event>): Lights {
    Fold(Next, l, es)
  }

  function Eager(t: Table, es: seq<Event>): Table {
    Fold(EagerNext, t, es)
  }

  function LastOn(t: Table, es: seq<Event>): Table {
    Fold(LastOnNext, t, es)
  }

  // ----- Laws

  /**
   What a key shows: without a pending NoteOff, what the eager table has. With one, the eager
   table has 0 and the key still shows its last NoteOn, or 0 if it is dark already.
   */
  ghost predicate Lags(l: Lights, eager: Table, lastOn: Table, k: nat)
    requires k < MAX_NOTES
  {
    if l.pending[k] >= FLAG then eager[k] == 0 && (l.shown[k] == lastOn[k] || l.shown[k] == 0)
    else l.pending[k] == 0 && l.shown[k] == eager[k] && (eager[k] == lastOn[k] || eager[k] == 0)
  }

  ghost predicate AllLag(l: Lights, eager: Table, lastOn: Table) {
    l.strayed || forall k :: 0 <= k < MAX_NOTES ==> Lags(l, eager, lastOn, k)
  }

  lemma LagsNext(l: Lights, eager: Table, lastOn: Table, e: Event, k: nat)
    requires k < MAX_NOTES && Lags(l, eager, lastOn, k)
    ensures Lags(Next(l, e), EagerNext(eager, e), LastOnNext(lastOn, e), k)
  {
  }

  /** Every run keeps it, whatever messages and refreshes it consists of and whenever they come. */
  lemma {:induction false} RunLags(l: Lights, eager: Table, lastOn: Table, es: seq<Event>)
    requires AllLag(l, eager, lastOn)
    ensures AllLag(Run(l, es), Eager(eager, es), LastOn(lastOn, es))
    decreases |es|
  {
    if es == [] {
    } else {
      forall k | !l.strayed && 0 <= k < MAX_NOTES
        ensures Lags(Next(l, es[0]), EagerNext(eager, es[0]), LastOnNext(lastOn, es[0]), k)
      {
        LagsNext(l, eager, lastOn, es[0], k);
      }
      RunLags(Next(l, es[0]), EagerNext(eager, es[0]), LastOnNext(lastOn, es[0]), es[1..]);
    }
  }

  /** A note message on the animation channel whose note is no MIDI data byte. */
  predicate OverrunsAnims(e: Event) {
    && e.Message?
    && (IsNoteOn(e.packet) || IsNoteOff(e.packet))
    && IsAnimation(e.packet, e.channel)
    && e.packet.d2 >= MAX_NOTES
  }

  /** A run leaves the tables exactly when it contains such a message. */
  lemma {:induction false} StraysExactly(l: Lights, es: seq<Event>)
    ensures Run(l, es).strayed <==> l.strayed || exists e :: e in es && OverrunsAnims(e)
    decreases |es|
  {
    if es == [] {
    } else {
      StraysExactly(Next(l, es[0]), es[1..]);
      assert Next(l, es[0]).strayed <==> l.strayed || OverrunsAnims(es[0]);
      assert es == [es[0]] + es[1..];
    }
  }

  /** The dark table of start-up lags behind nothing. */
  lemma DarkLags(zero: Table)
    requires forall k :: 0 <= k < MAX_NOTES ==> zero[k] == 0
    ensures AllLag(Lights(zero, zero, zero, false), zero, zero)
  {
  }

  /**
   After a refresh that ends a run, a key shows what the eager table has, except exactly the keys
   with a pending NoteOff so young that it is still held back: those show their last NoteOn.
   */
  lemma RefreshShows(l: Lights, eager: Table, lastOn: Table, es: seq<Event>, time: word, k: nat)
    requires AllLag(l, eager, lastOn) && k < MAX_NOTES
    requires !l.strayed && forall e :: e in es ==> !OverrunsAnims(e)
    ensures var before, after := Run(l, es), Run(l, es + [Refresh(time)]);
            var held := before.pending[k] >= FLAG && Young(before.pending[k], time) && before.shown[k] != 0;
            && after.shown[k] == (if held then LastOn(lastOn, es)[k] else Eager(eager, es)[k])
            && (after.shown[k] != Eager(eager, es)[k] <==> held)
  {
    RunLags(l, eager, lastOn, es);
    StraysExactly(l, es);
    assert Lags(Run(l, es), Eager(eager, es), LastOn(lastOn, es), k);
    FoldNext(Next, l, es, Refresh(time));
  }

  /**
   How young is young: `d` ms after a NoteOff the refresh holds it back exactly when the low seven
   bits of `d` are 0 or 1 and the low seven bits of the clock have not wrapped on the way.
   */
  lemma YoungExactly(time: word, d: nat)
    ensures Young(Stamp(time), (time + d) % 65536) <==> d % 128 < DELAY_LIMIT && time % 128 + d % 128 < 128
  {
    var now: word := (time + d) % 65536;
    Low7(time, d);
    assert Stamp(time) % 128 == time % 128;
  }

  lemma Low7(time: word, d: nat)
    ensures (time + d) % 65536 % 128 == (time % 128 + d % 128) % 128
  {
    var q := (time + d) / 65536;
    assert time + d == 65536 * q + (time + d) % 65536;
    Mod128((time + d) % 65536, 512 * q);
    Mod128(time % 128 + d % 128, time / 128 + d / 128);
  }

  lemma Mod128(x: int, q: int)
    ensures (x + 128 * q) % 128 == x % 128
  {
  }

  // ----- The tables in place

  class Monitor {
    const shown: array<byte>
    const pending: array<byte>
    const anims: array<byte>
    ghost var strayed: bool

    ghost predicate Valid()
      reads this
    {
      && shown.Length == pending.Length == anims.Length == MAX_NOTES
      && shown != pending && pending != anims && anims != shown
    }

    ghost function Value(): Lights
      requires Valid()
      reads this, shown, pending, anims
    {
      Lights(shown[..], pending[..], anims[..], strayed)
    }

    constructor ()
      ensures Valid() && fresh(shown) && fresh(pending) && fresh(anims) && !strayed
      ensures forall k :: 0 <= k < MAX_NOTES ==> shown[k] == pending[k] == anims[k] == 0
    {
      shown := new byte[MAX_NOTES](_ => 0);
      pending := new byte[MAX_NOTES](_ => 0);
      anims := new byte[MAX_NOTES](_ => 0);
      strayed := false;
    }

    method NoteOn(p: Packet, channel: byte, time: word)
      requires Valid() && IsNoteOn(p)
      modifies this, shown, pending, anims
      ensures Value() == Received(old(Value()), p, channel, time)
    {
      var sent := p.d1 % 16;
      var key := Low8(p.d2 - BASE_NOTE);
      if sent == channel {
        if key < NUM_BUTTONS {
          shown[key], pending[key] := p.d3, 0;
        }
      } else if sent == (channel - 1) % 16 {
        if key < NUM_BUTTONS {
          shown[key + NUM_BUTTONS], pending[key + NUM_BUTTONS] := p.d3, 0;
        }
      } else if sent == (channel + 1) % 16 {
        if p.d2 < MAX_NOTES {
          anims[p.d2] := p.d3;
        } else {
          strayed := true;
        }
      }
    }

    method NoteOff(p: Packet, channel: byte, time: word)
      requires Valid() && IsNoteOff(p)
      modifies this, pending, anims
      ensures Value() == Received(old(Value()), p, channel, time)
    {
      var sent := p.d1 % 16;
      var key := Low8(p.d2 - BASE_NOTE);
      if sent == channel {
        if key < NUM_BUTTONS {
          pending[key] := Stamp(time);
        }
      } else if sent == (channel - 1) % 16 {
        if key < NUM_BUTTONS {
          pending[key + NUM_BUTTONS] := Stamp(time);
        }
      } else if sent == (channel + 1) % 16 {
        if p.d2 < MAX_NOTES {
          anims[p.d2] := 0;
        } else {
          strayed := true;
        }
      }
    }

    /** The pass over all keys before the LEDs are refreshed. */
    method UpdateNoteOffs(time: word)
      requires Valid()
      modifies shown, pending
      ensures Value() == Next(old(Value()), Refresh(time))
    {
      var now := time % 128;
      for k := 0 to MAX_NOTES
        invariant forall j :: k <= j < MAX_NOTES ==> shown[j] == old(shown[j]) && pending[j] == old(pending[j])
        invariant forall j :: 0 <= j < k ==>
                    && shown[j] == (if Expired(old(pending[j]), time) then 0 else old(shown[j]))
                    && pending[j] == (if Expired(old(pending[j]), time) then 0 else old(pending[j]))
      {
        var stamp := pending[k];
        if stamp >= FLAG {
          if (now - stamp % 128) % 65536 >= DELAY_LIMIT {
            shown[k], pending[k] := 0, 0;
          }
        }
      }
      assert shown[..] == Refreshed(old(shown[..]), old(pending[..]), time);
      assert pending[..] == Refreshed(old(pending[..]), old(pending[..]), time);
    }
  }
}
