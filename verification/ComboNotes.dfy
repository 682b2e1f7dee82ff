/**
 The notes that the combos play: the action switch of midifighter64.c, driven by the
 recognizer and heard by the host.
 */
module ComboNotes {
  import opened Combo
  import opened Keys
  import opened Folds
  import opened Notes
  import opened UsbMidi

  const FIRST_COMBO_NOTE := 8

  /** Combos A to E play the notes 8 to 12, on the channel of the bank selected at the moment. */
  function ActionPackets(action: Action, env: Env): seq<Packet> {
    if action == NONE then []
    else if action <= E_DOWN then
      [NotePacket(env.channel - env.bank, FIRST_COMBO_NOTE + action - A_DOWN, env.velocity, true)]
    else [NotePacket(env.channel - env.bank, FIRST_COMBO_NOTE + action - A_RELEASE, env.velocity, false)]
  }

  /** The note of the combo `held`, on `channel`: 8 for A to 12 for E. */
  function ComboSound(held: Action, channel: int): Sounding {
    if A_DOWN <= held <= E_DOWN then {(channel, 7 + held)} else {}
  }

  lemma ActionIsHeard(s: Sounding, action: Action, env: Env)
    requires action != NONE
    ensures HearAll(s, ActionPackets(action, env)) ==
            if action > E_DOWN then s - ComboSound(action - (A_RELEASE - A_DOWN), OnChannel(env))
            else if env.velocity % 128 != 0 then s + ComboSound(action, OnChannel(env))
            else s - ComboSound(action, OnChannel(env))
  {
    FoldOne(Hear, s, ActionPackets(action, env)[0]);
  }

  // ----- Runs of actions, each sent with the settings of its moment

  datatype Sent = Sent(action: Action, env: Env)

  function AllPackets(sent: seq<Sent>): seq<Packet> {
    if sent == [] then []
    else AllPackets(sent[..|sent| - 1]) + ActionPackets(sent[|sent| - 1].action, sent[|sent| - 1].env)
  }

  function Actions(sent: seq<Sent>): seq<Action> {
    seq(|sent|, i requires 0 <= i < |sent| => sent[i].action)
  }

  predicate IsDown(action: Action) {
    A_DOWN <= action <= E_DOWN
  }

  /** The note that should sound: that of the combo left open, on the channel it was opened on. */
  function OpenSound(sent: seq<Sent>): Sounding {
    if sent == [] || sent[|sent| - 1].env.velocity % 128 == 0 then {}
    else ComboSound(sent[|sent| - 1].action, OnChannel(sent[|sent| - 1].env))
  }

  /** A RELEASE is sent on the channel of the DOWN before it, unless that one was silent. */
  predicate ReleaseMatches(sent: seq<Sent>, i: nat)
    requires 1 <= i < |sent|
  {
    !IsDown(sent[i].action) && sent[i - 1].env.velocity % 128 != 0 ==>
      OnChannel(sent[i].env) == OnChannel(sent[i - 1].env)
  }

  ghost predicate AllMatch(sent: seq<Sent>) {
    forall i :: 1 <= i < |sent| ==> ReleaseMatches(sent, i)
  }

  lemma {:induction false} AlternatesAt(actions: seq<Action>, i: nat)
    requires Alternates(actions, NONE) && i < |actions|
    ensures if i % 2 == 0 then IsDown(actions[i])
            else IsDown(actions[i - 1]) && actions[i] == actions[i - 1] + A_RELEASE - A_DOWN
    decreases i
  {
    if i < 2 {
      assert |actions| > 1 ==> Alternates(actions[1..], actions[0]);
    } else {
      assert Alternates(actions[1..], actions[0]) && Alternates(actions[1..][1..], NONE);
      assert actions[1..][1..] == actions[2..];
      AlternatesAt(actions[2..], i - 2);
    }
  }

  lemma RemovesAll(x: (int, int), y: (int, int))
    ensures {x} - {y} == {} <==> x == y
  {
    assert x != y ==> x in {x} - {y};
  }

  /** A DOWN opens its note in silence. */
  lemma DownIsExact(s: Sounding, action: Action, env: Env)
    requires IsDown(action) && s == {}
    ensures HearAll(s, ActionPackets(action, env)) ==
            if env.velocity % 128 == 0 then {} else ComboSound(action, OnChannel(env))
  {
    ActionIsHeard(s, action, env);
  }

  /** A RELEASE silences its DOWN, if that one sounds, exactly when it is on the same channel. */
  lemma ReleaseIsExact(down: Sent, up: Sent)
    requires IsDown(down.action) && up.action == down.action + A_RELEASE - A_DOWN
    ensures var s := if down.env.velocity % 128 == 0 then {} else ComboSound(down.action, OnChannel(down.env));
            HearAll(s, ActionPackets(up.action, up.env)) == {} <==>
            (down.env.velocity % 128 != 0 ==> OnChannel(up.env) == OnChannel(down.env))
  {
    var s := if down.env.velocity % 128 == 0 then {} else ComboSound(down.action, OnChannel(down.env));
    var note := FIRST_COMBO_NOTE + down.action - A_DOWN;
    ActionIsHeard(s, up.action, up.env);
    RemovesAll((OnChannel(down.env), note), (OnChannel(up.env), note));
  }

  /** One more action: exact before, it is exact after exactly when a RELEASE matches its DOWN. */
  lemma NextIsExact(sent: seq<Sent>)
    requires sent != [] && Alternates(Actions(sent), NONE)
    ensures var last := sent[|sent| - 1];
            HearAll(OpenSound(sent[..|sent| - 1]), ActionPackets(last.action, last.env)) == OpenSound(sent) <==>
            |sent| == 1 || ReleaseMatches(sent, |sent| - 1)
  {
    var n := |sent| - 1;
    AlternatesAt(Actions(sent), n);
    if n > 0 {
      AlternatesAt(Actions(sent), n - 1);
      assert sent[..n][n - 1] == sent[n - 1];
    }
    if n % 2 == 0 {
      DownIsExact(OpenSound(sent[..n]), sent[n].action, sent[n].env);
    } else {
      ReleaseIsExact(sent[n - 1], sent[n]);
    }
  }

  /** What the host sounds after the packets of `sent`, from silence. */
  function Heard(sent: seq<Sent>): Sounding {
    HearAll({}, AllPackets(sent))
  }

  lemma HeardNext(sent: seq<Sent>)
    requires sent != []
    ensures var last := sent[|sent| - 1];
            Heard(sent) == HearAll(Heard(sent[..|sent| - 1]), ActionPackets(last.action, last.env))
  {
    var last := sent[|sent| - 1];
    FoldConcat(Hear, {}, AllPackets(sent[..|sent| - 1]), ActionPackets(last.action, last.env));
  }

  /** After `n` actions the host sounds exactly the note of the open combo. */
  predicate ExactAt(sent: seq<Sent>, n: nat)
    requires n <= |sent|
  {
    Heard(sent[..n]) == OpenSound(sent[..n])
  }

  ghost predicate AlwaysExact(sent: seq<Sent>) {
    forall n: nat :: n <= |sent| ==> ExactAt(sent, n)
  }

  lemma ExactNext(sent: seq<Sent>)
    requires sent != []
    ensures AlwaysExact(sent) <==> AlwaysExact(sent[..|sent| - 1]) && ExactAt(sent, |sent|)
  {
    var before := sent[..|sent| - 1];
    forall n: nat | n <= |before| ensures ExactAt(before, n) == ExactAt(sent, n) {
      assert before[..n] == sent[..n];
    }
  }

  lemma MatchNext(sent: seq<Sent>)
    requires sent != []
    ensures AllMatch(sent) <==>
            AllMatch(sent[..|sent| - 1]) && (|sent| == 1 || ReleaseMatches(sent, |sent| - 1))
  {
    var before := sent[..|sent| - 1];
    assert forall i :: 1 <= i < |sent| - 1 ==> ReleaseMatches(before, i) == ReleaseMatches(sent, i);
  }

  /**
   Over any alternating run, with the bank and the settings changing at will: the host is exact
   throughout if and only if each RELEASE is sent on the channel of its DOWN.
   */
  lemma {:induction false} ExactIffMatched(sent: seq<Sent>)
    requires Alternates(Actions(sent), NONE)
    ensures AlwaysExact(sent) <==> AllMatch(sent)
    decreases |sent|
  {
    if sent == [] {
      assert sent[..0] == [];
    } else {
      var before := sent[..|sent| - 1];
      AlternatesPrefix(Actions(sent), |before|, NONE);
      assert Actions(before) == Actions(sent)[..|before|];
      ExactIffMatched(before);
      ExactNext(sent);
      MatchNext(sent);
      assert ExactAt(before, |before|) == (Heard(before) == OpenSound(before)) by {
        assert before[..|before|] == before;
      }
      assert sent[..|sent|] == sent;
      HeardNext(sent);
      NextIsExact(sent);
    }
  }

  lemma {:induction false} AlternatesPrefix(actions: seq<Action>, n: nat, held: Action)
    requires Alternates(actions, held) && n <= |actions|
    ensures Alternates(actions[..n], held)
    decreases n
  {
    if n == 0 {
    } else {
      assert actions[..n][1..] == actions[1..][..n - 1];
      AlternatesPrefix(actions[1..], n - 1, if held == NONE then actions[0] else NONE);
    }
  }

  /**
   A combo that goes down in one bank and is released in another leaves its note sounding: with
   an unchanged configuration the channels are the same if and only if the banks are.
   */
  lemma ChannelFollowsBank(down: Env, up: Env)
    requires down.channel == up.channel
    ensures OnChannel(down) == OnChannel(up) <==> down.bank == up.bank
  {
  }

  /**
   From start-up, over any run of key masks in which the chord never replaces another held combo,
   whatever the bank and the settings are at each action: the host sounds exactly the note of the
   open combo throughout if and only if each RELEASE is sent on the channel of its DOWN.
   */
  lemma ComboRunIsHeard(masks: seq<KeyWord>, sent: seq<Sent>)
    requires (forall keys :: keys in masks ==> IsMask(keys)) && NeverClobbers(IDLE, {}, masks)
    requires Actions(sent) == Reported(IDLE, {}, masks)
    ensures AlwaysExact(sent) <==> AllMatch(sent)
  {
    RunIsBracketed(IDLE, {}, masks);
    ExactIffMatched(sent);
  }
}
