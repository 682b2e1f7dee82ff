/**
 What the note feedback shows, from the events alone: which keys are held back at any point of
 a run from start-up.
 */
module FeedbackHistory {
  import opened Bytes
  import opened Folds
  import opened Feedback
  import opened UsbMidi

  /**
   A note message for key `k`: keys 0 to 63 are the notes 36 to 99 on the configured channel, keys 64 to 127 the
   same notes on the channel before it, where channel 0 comes after channel 15.
   */
  predicate IsFor(e: Event, k: nat) {
    e.Message? &&
    if k < NUM_BUTTONS then e.packet.d2 == 36 + k && e.packet.d1 % 16 == e.channel
    else k < 2 * NUM_BUTTONS && e.packet.d2 == 36 + k - NUM_BUTTONS && (e.packet.d1 % 16 + 1) % 16 == e.channel % 16
  }

  /** Which entry a message addresses. */
  lemma AddressedExactly(p: Packet, channel: byte, time: word, k: nat)
    ensures Addressed(p, channel) == Some(k) <==> IsFor(Message(p, channel, time), k)
  {
  }

  predicate IsOnFor(e: Event, k: nat) {
    IsFor(e, k) && IsNoteOn(e.packet)
  }

  predicate IsOffFor(e: Event, k: nat) {
    IsFor(e, k) && IsNoteOff(e.packet)
  }

  /** The position of the last NoteOn for the key, or -1. */
  function LastOnAt(es: seq<Event>, k: nat): (n: int)
    ensures -1 <= n < |es| && (n >= 0 ==> IsOnFor(es[n], k))
    ensures forall j :: n < j < |es| ==> !IsOnFor(es[j], k)
  {
    if es == [] then -1
    else if IsOnFor(es[|es| - 1], k) then |es| - 1
    else LastOnAt(es[..|es| - 1], k)
  }

  /** The position of the last NoteOff for the key, or -1. */
  function LastOffAt(es: seq<Event>, k: nat): (n: int)
    ensures -1 <= n < |es| && (n >= 0 ==> IsOffFor(es[n], k))
    ensures forall j :: n < j < |es| ==> !IsOffFor(es[j], k)
  {
    if es == [] then -1
    else if IsOffFor(es[|es| - 1], k) then |es| - 1
    else LastOffAt(es[..|es| - 1], k)
  }

  /** Event `r`, if it is a refresh, finds no NoteOff for the key since event `on` that is not young. */
  predicate SparesAt(es: seq<Event>, k: nat, on: int, r: nat)
    requires r < |es|
  {
    var off := LastOffAt(es[..r], k);
    es[r].Refresh? && off > on && off >= 0 ==> Young(Stamp(es[off].time), es[r].time)
  }

  predicate Spares(es: seq<Event>, k: nat, on: int) {
    forall r: nat :: on < r < |es| ==> SparesAt(es, k, on, r)
  }

  /** The key's last NoteOn was not 0, and no refresh since then found an old NoteOff for it. */
  predicate IsLit(es: seq<Event>, k: nat) {
    var on := LastOnAt(es, k);
    on >= 0 && es[on].packet.d3 != 0 && Spares(es, k, on)
  }

  /** And a NoteOff has come after it. */
  predicate IsHeldBack(es: seq<Event>, k: nat) {
    IsLit(es, k) && LastOffAt(es, k) > LastOnAt(es, k)
  }

  // ----- The tables follow the history

  predicate Remembers(l: Lights, es: seq<Event>, k: nat)
    requires k < MAX_NOTES
  {
    var on, off := LastOnAt(es, k), LastOffAt(es, k);
    && (l.pending[k] >= FLAG ==> off >= 0 && off > on && l.pending[k] == Stamp(es[off].time))
    && (l.pending[k] < FLAG ==> l.pending[k] == 0)
    && l.shown[k] == (if IsLit(es, k) then es[on].packet.d3 else 0)
    && (off > on >= 0 && Spares(es, k, on) ==> l.pending[k] >= FLAG)
  }

  lemma SparesPrefix(es: seq<Event>, e: Event, k: nat, on: int)
    requires on < |es|
    ensures Spares(es + [e], k, on) <==> Spares(es, k, on) && SparesAt(es + [e], k, on, |es|)
  {
    forall r: nat | on < r < |es| ensures SparesAt(es + [e], k, on, r) == SparesAt(es, k, on, r) {
      assert (es + [e])[..r] == es[..r];
    }
  }

  lemma HistoryNext(es: seq<Event>, e: Event, k: nat)
    ensures LastOnAt(es + [e], k) == if IsOnFor(e, k) then |es| else LastOnAt(es, k)
    ensures LastOffAt(es + [e], k) == if IsOffFor(e, k) then |es| else LastOffAt(es, k)
  {
    assert (es + [e])[..|es|] == es;
  }

  /** The tables' entries for the key after one more event. */
  lemma EntryNext(l: Lights, e: Event, k: nat)
    requires k < MAX_NOTES
    ensures var l' := Next(l, e);
            if IsOnFor(e, k) then l'.shown[k] == e.packet.d3 && l'.pending[k] == 0
            else if IsOffFor(e, k) then l'.shown[k] == l.shown[k] && l'.pending[k] == Stamp(e.time)
            else if e.Refresh? && Expired(l.pending[k], e.time) then l'.shown[k] == 0 && l'.pending[k] == 0
            else l'.shown[k] == l.shown[k] && l'.pending[k] == l.pending[k]
  {
    if e.Message? {
      AddressedExactly(e.packet, e.channel, e.time, k);
    }
  }

  lemma RefreshIsRemembered(l: Lights, es: seq<Event>, time: word, k: nat)
    requires k < MAX_NOTES && Remembers(l, es, k)
    ensures Remembers(Next(l, Refresh(time)), es + [Refresh(time)], k)
  {
    EntryNext(l, Refresh(time), k);
    HistoryNext(es, Refresh(time), k);
    SparesPrefix(es, Refresh(time), k, LastOnAt(es, k));
    assert (es + [Refresh(time)])[..|es|] == es;
  }

  lemma MessageIsRemembered(l: Lights, es: seq<Event>, e: Event, k: nat)
    requires k < MAX_NOTES && Remembers(l, es, k) && e.Message?
    ensures Remembers(Next(l, e), es + [e], k)
  {
    EntryNext(l, e, k);
    HistoryNext(es, e, k);
    SparesPrefix(es, e, k, LastOnAt(es, k));
  }

  lemma {:induction false} RunRemembers(l: Lights, es: seq<Event>, k: nat)
    requires k < MAX_NOTES && l.shown[k] == 0 && l.pending[k] == 0
    ensures Remembers(Run(l, es), es, k)
    decreases |es|
  {
    if es == [] {
    } else {
      var before, e := es[..|es| - 1], es[|es| - 1];
      assert before + [e] == es;
      RunRemembers(l, before, k);
      FoldNext(Next, l, before, e);
      match e
      case Message(_, _, _) => MessageIsRemembered(Run(l, before), before, e, k);
      case Refresh(time) => RefreshIsRemembered(Run(l, before), before, time, k);
    }
  }

  /** At any point of a run from start-up a key that is lit shows its last NoteOn, and every other one nothing. */
  lemma LitExactly(zero: Table, es: seq<Event>, k: nat)
    requires (forall j :: 0 <= j < MAX_NOTES ==> zero[j] == 0) && k < MAX_NOTES
    ensures Run(Lights(zero, zero, zero, false), es).shown[k] ==
            if IsLit(es, k) then es[LastOnAt(es, k)].packet.d3 else 0
  {
    RunRemembers(Lights(zero, zero, zero, false), es, k);
  }

  /**
   At any point of a run from start-up that stays in the tables, a key shows what the eager table has, unless it
   is held back: its last NoteOn was not 0, a NoteOff has come since, and every refresh in between found the
   latest NoteOff young. Then, exactly, it still shows that NoteOn.
   */
  lemma ShownExactly(zero: Table, es: seq<Event>, k: nat)
    requires (forall j :: 0 <= j < MAX_NOTES ==> zero[j] == 0) && k < MAX_NOTES
    requires forall e :: e in es ==> !OverrunsAnims(e)
    ensures var shown := Run(Lights(zero, zero, zero, false), es).shown;
            && shown[k] == (if IsHeldBack(es, k) then LastOn(zero, es)[k] else Eager(zero, es)[k])
            && (shown[k] != Eager(zero, es)[k] <==> IsHeldBack(es, k))
  {
    var dark := Lights(zero, zero, zero, false);
    DarkLags(zero);
    RunLags(dark, zero, zero, es);
    StraysExactly(dark, es);
    assert Lags(Run(dark, es), Eager(zero, es), LastOn(zero, es), k);
    RunRemembers(dark, es, k);
  }

  // ----- One message

  /** The packet of a note message on `channel` for the note of button `k`. */
  predicate IsNoteFor(p: Packet, channel: int, k: nat) {
    p.d1 % 16 == channel && p.d2 == 36 + k
  }

  /** A NoteOn after any run: the two banks on the two channels, and no other entry. */
  lemma NoteOnShows(l: Lights, es: seq<Event>, p: Packet, channel: byte, time: word, k: nat)
    requires IsNoteOn(p) && channel < 16 && k < NUM_BUTTONS
    ensures var before, after := Run(l, es), Run(l, es + [Message(p, channel, time)]);
            && (IsNoteFor(p, channel, k) ==>
                  after == before.(shown := before.shown[k := p.d3], pending := before.pending[k := 0]))
            && (IsNoteFor(p, (channel + 15) % 16, k) ==>
                  after == before.(shown := before.shown[k + 64 := p.d3], pending := before.pending[k + 64 := 0]))
  {
    FoldNext(Next, l, es, Message(p, channel, time));
  }

  /** A NoteOff stamps the entry and leaves what is shown. */
  lemma NoteOffStamps(l: Lights, es: seq<Event>, p: Packet, channel: byte, time: word, k: nat)
    requires IsNoteOff(p) && channel < 16 && k < NUM_BUTTONS
    ensures var before, after := Run(l, es), Run(l, es + [Message(p, channel, time)]);
            && (IsNoteFor(p, channel, k) ==> after == before.(pending := before.pending[k := 128 + time % 128]))
            && (IsNoteFor(p, (channel + 15) % 16, k) ==>
                  after == before.(pending := before.pending[k + 64 := 128 + time % 128]))
  {
    FoldNext(Next, l, es, Message(p, channel, time));
  }

  /** On the channel after it every note sets its own animation, and a NoteOff ends it at once. */
  lemma AnimationIsSet(l: Lights, es: seq<Event>, p: Packet, channel: byte, time: word)
    requires (IsNoteOn(p) || IsNoteOff(p)) && channel < 16 && p.d1 % 16 == (channel + 1) % 16 && p.d2 < MAX_NOTES
    ensures var before := Run(l, es);
            Run(l, es + [Message(p, channel, time)]) ==
            before.(anims := before.anims[p.d2 := if IsNoteOn(p) then p.d3 else 0])
  {
    FoldNext(Next, l, es, Message(p, channel, time));
  }

  /** Off the animation channel: other messages, other channels and notes of no button change nothing. */
  lemma OtherMessageIsIgnored(l: Lights, es: seq<Event>, p: Packet, channel: byte, time: word)
    requires channel < 16 && p.d1 % 16 != (channel + 1) % 16
    requires (!IsNoteOn(p) && !IsNoteOff(p)) || p.d2 < 36 || p.d2 > 99 ||
             (p.d1 % 16 != channel && p.d1 % 16 != (channel + 15) % 16)
    ensures Run(l, es + [Message(p, channel, time)]) == Run(l, es)
  {
    FoldNext(Next, l, es, Message(p, channel, time));
  }
}
