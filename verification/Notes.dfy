/**
 The notes that the keys play: the key loop of midifighter64.c with the note and control
 change messages of midi.c, and what a host that listens to them keeps sounding.
 */
module Notes {
  import opened Bytes
  import opened Folds
  import opened Keys
  import opened UsbMidi

  const MODE_NOTES_ONLY := 0
  const MODE_CCS_ONLY := 2

  type Bank = b: int | 0 <= b < 2

  /** The settings in force while one key is served. */
  datatype Env = Env(channel: byte, velocity: byte, mode: byte, bank: Bank)

  function Nibble(x: int): int {
    x % 16
  }

  // ----- Messages

  function NotePacket(channel: int, pitch: nat, velocity: byte, on: bool): Packet {
    Packet(if on then 0x9 else 0x8, (if on then 0x90 else 0x80) + Nibble(channel), pitch % 128, velocity % 128)
  }

  function CcPacket(channel: int, controller: nat, value: byte): Packet {
    Packet(0xB, 0xB0 + Nibble(channel), controller % 128, value % 128)
  }

  function Note(k: Key): nat {
    BASE_NOTE + k
  }

  /** The channel of a key that goes down: one below the configured one in the second bank. */
  function OnChannel(env: Env): int {
    Nibble(env.channel - env.bank)
  }

  /** The channel of a key that goes up, by the bank it was last pressed in. */
  function OffChannel(env: Env, second: bool): int {
    Nibble(if second then env.channel - 1 else env.channel)
  }

  function DownPackets(env: Env, k: Key): seq<Packet> {
    (if env.mode < MODE_CCS_ONLY then [NotePacket(env.channel - env.bank, Note(k), env.velocity, true)] else []) +
    (if env.mode > MODE_NOTES_ONLY then [CcPacket(env.channel, Note(k), 127)] else [])
  }

  function UpPackets(env: Env, k: Key, second: bool): seq<Packet> {
    (if env.mode < MODE_CCS_ONLY then [NotePacket(OffChannel(env, second), Note(k), env.velocity, false)] else []) +
    (if env.mode > MODE_NOTES_ONLY then [CcPacket(env.channel, Note(k), 0)] else [])
  }

  /** Whether key `k` was last pressed in the second bank, once it has been served. */
  predicate Second(lastUp: KeyWord, down: KeyWord, env: Env, k: Key) {
    if k in down then env.bank > 0 else k in lastUp
  }

  function KeyPackets(lastUp: KeyWord, down: KeyWord, up: KeyWord, env: Env, k: Key): seq<Packet> {
    (if k in down then DownPackets(env, k) else []) +
    (if k in up then UpPackets(env, k, Second(lastUp, down, env, k)) else [])
  }

  /** A main loop turn: the key edges and, for each key, the settings while it is served. */
  datatype Turn = Turn(down: KeyWord, up: KeyWord, envs: seq<Env>)

  predicate ValidTurn(t: Turn) {
    |t.envs| == NUM_KEYS
  }

  /** The packets of the first `n` keys. */
  function TurnPackets(lastUp: KeyWord, t: Turn, n: nat): seq<Packet>
    requires ValidTurn(t) && n <= NUM_KEYS
    decreases t, n
  {
    if n == 0 then []
    else TurnPackets(lastUp, t, n - 1) + KeyPackets(lastUp, t.down, t.up, t.envs[n - 1], n - 1)
  }

  /** The keys last pressed in the second bank, once the first `n` keys have been served. */
  function LastUp(lastUp: KeyWord, t: Turn, n: nat): KeyWord
    requires ValidTurn(t) && n <= NUM_KEYS
  {
    set k: Key | k in AllKeys() && if k < n then Second(lastUp, t.down, t.envs[k], k) else k in lastUp
  }

  // ----- The host

  /** The notes sounding at the host, as pairs of channel and pitch. */
  type Sounding = set<(int, int)>

  /** A NoteOn with velocity zero is a NoteOff (MIDI 1.0 Detailed Specification, Note-Off). */
  function Hear(s: Sounding, p: Packet): Sounding {
    var note := (Nibble(p.d1), p.d2);
    if Cin(p) == 0x9 && p.d3 > 0 then s + {note}
    else if Cin(p) == 0x9 || Cin(p) == 0x8 then s - {note}
    else s
  }

  function HearAll(s: Sounding, ps: seq<Packet>): Sounding {
    Fold(Hear, s, ps)
  }

  // ----- The reference: which keys should sound, and on what channel

  predicate Opens(env: Env) {
    env.mode < MODE_CCS_ONLY && env.velocity % 128 != 0
  }

  /** The keys held down with a note that was opened, each with the channel it was opened on. */
  type Playing = map<Key, int>

  function Played(held: Playing, t: Turn): Playing
    requires ValidTurn(t)
  {
    map k: Key | k in AllKeys() && (if k in t.down then Opens(t.envs[k]) else k in held && k !in t.up) ::
      if k in t.down then OnChannel(t.envs[k]) else held[k]
  }

  function SoundOf(held: Playing): Sounding {
    set k | k in held :: (held[k], Note(k))
  }

  /** The message of a key that goes up is a NoteOff on the channel that its note was opened on. */
  predicate Closes(env: Env, second: bool, channel: int) {
    env.mode < MODE_CCS_ONLY && OffChannel(env, second) == channel
  }

  ghost predicate AllClosed(held: Playing, lastUp: KeyWord, t: Turn)
    requires ValidTurn(t)
  {
    forall k :: k in held && k in t.up ==> Closes(t.envs[k], k in lastUp, held[k])
  }

  // ----- Laws

  /** Whether the note of key `k` on `channel` sounds after the key is served. */
  predicate Effect(lastUp: KeyWord, t: Turn, k: Key, channel: int, before: bool)
    requires ValidTurn(t)
  {
    var env := t.envs[k];
    var pressed :=
      if k in t.down && env.mode < MODE_CCS_ONLY && OnChannel(env) == channel then env.velocity % 128 != 0 else before;
    pressed && !(k in t.up && Closes(env, Second(lastUp, t.down, env, k), channel))
  }

  /** What a host makes of the messages of one key edge, with or without the control change. */
  lemma HearEdge(s: Sounding, note: Packet, cc: Packet, mode: byte)
    requires Cin(cc) == 0xB
    ensures HearAll(s, (if mode < MODE_CCS_ONLY then [note] else []) + (if mode > MODE_NOTES_ONLY then [cc] else []))
         == if mode < MODE_CCS_ONLY then Hear(s, note) else s
  {
    FoldOne(Hear, s, note);
    FoldOne(Hear, s, cc);
    FoldTwo(Hear, s, note, cc);
    assert [note] + [cc] == [note, cc];
    assert [note] + [] == [note] && [] + [cc] == [cc];
  }

  lemma HearNote(s: Sounding, channel: int, k: Key, velocity: byte, on: bool)
    ensures Hear(s, NotePacket(channel, Note(k), velocity, on))
         == if on && velocity % 128 != 0 then s + {(Nibble(channel), Note(k))} else s - {(Nibble(channel), Note(k))}
  {
  }

  lemma HearDown(s: Sounding, env: Env, k: Key)
    ensures HearAll(s, DownPackets(env, k)) ==
            if env.mode >= MODE_CCS_ONLY then s
            else if env.velocity % 128 != 0 then s + {(OnChannel(env), Note(k))} else s - {(OnChannel(env), Note(k))}
  {
    var note := NotePacket(env.channel - env.bank, Note(k), env.velocity, true);
    HearEdge(s, note, CcPacket(env.channel, Note(k), 127), env.mode);
    HearNote(s, env.channel - env.bank, k, env.velocity, true);
  }

  lemma HearUp(s: Sounding, env: Env, k: Key, second: bool)
    ensures HearAll(s, UpPackets(env, k, second)) ==
            if env.mode >= MODE_CCS_ONLY then s else s - {(OffChannel(env, second), Note(k))}
  {
    var note := NotePacket(OffChannel(env, second), Note(k), env.velocity, false);
    HearEdge(s, note, CcPacket(env.channel, Note(k), 0), env.mode);
    HearNote(s, OffChannel(env, second), k, env.velocity, false);
    assert Nibble(OffChannel(env, second)) == OffChannel(env, second);
  }

  /** The messages of one key touch no other note, and its own as `Effect` says. */
  lemma KeyEffect(s: Sounding, lastUp: KeyWord, t: Turn, k: Key, channel: int, pitch: int)
    requires ValidTurn(t)
    ensures (channel, pitch) in HearAll(s, KeyPackets(lastUp, t.down, t.up, t.envs[k], k)) <==>
            if pitch == Note(k) then Effect(lastUp, t, k, channel, (channel, pitch) in s) else (channel, pitch) in s
  {
    var env := t.envs[k];
    var second := Second(lastUp, t.down, env, k);
    var onPackets := if k in t.down then DownPackets(env, k) else [];
    var offPackets := if k in t.up then UpPackets(env, k, second) else [];
    FoldConcat(Hear, s, onPackets, offPackets);
    HearDown(s, env, k);
    HearUp(HearAll(s, onPackets), env, k, second);
  }

  lemma {:induction false} TurnEffect(s: Sounding, lastUp: KeyWord, t: Turn, n: nat, k: Key, channel: int)
    requires ValidTurn(t) && n <= NUM_KEYS
    ensures (channel, Note(k)) in HearAll(s, TurnPackets(lastUp, t, n)) <==>
            if k < n then Effect(lastUp, t, k, channel, (channel, Note(k)) in s) else (channel, Note(k)) in s
  {
    if n == 0 {
    } else {
      TurnEffect(s, lastUp, t, n - 1, k, channel);
      var before := TurnPackets(lastUp, t, n - 1);
      FoldConcat(Hear, s, before, KeyPackets(lastUp, t.down, t.up, t.envs[n - 1], n - 1));
      KeyEffect(HearAll(s, before), lastUp, t, n - 1, channel, Note(k));
    }
  }

  /** Notes that no key plays are not touched. */
  lemma {:induction false} OtherNotes(s: Sounding, lastUp: KeyWord, t: Turn, n: nat, channel: int, pitch: int)
    requires ValidTurn(t) && n <= NUM_KEYS && !(BASE_NOTE <= pitch < BASE_NOTE + NUM_KEYS)
    ensures (channel, pitch) in HearAll(s, TurnPackets(lastUp, t, n)) <==> (channel, pitch) in s
  {
    if n == 0 {
    } else {
      OtherNotes(s, lastUp, t, n - 1, channel, pitch);
      var before := TurnPackets(lastUp, t, n - 1);
      FoldConcat(Hear, s, before, KeyPackets(lastUp, t.down, t.up, t.envs[n - 1], n - 1));
      KeyEffect(HearAll(s, before), lastUp, t, n - 1, channel, pitch);
    }
  }

  /** The keys that go down were up and those that go up were down, as the key scanner derives them. */
  predicate Edges(t: Turn, prev: KeyWord) {
    t.down !! prev && t.up <= prev
  }

  lemma SoundsAs(held: Playing, k: Key, channel: int)
    ensures (channel, Note(k)) in SoundOf(held) <==> k in held && held[k] == channel
  {
  }

  lemma IsKey(k: Key)
    ensures k in AllKeys()
  {
  }

  /** After a turn, a note that sounds should, or its key went up without closing it. */
  lemma SoundsPlayed(held: Playing, lastUp: KeyWord, prev: KeyWord, t: Turn, k: Key, channel: int)
    requires ValidTurn(t) && Edges(t, prev) && held.Keys <= prev
    ensures (channel, Note(k)) in HearAll(SoundOf(held), TurnPackets(lastUp, t, NUM_KEYS)) <==>
            || (k in Played(held, t) && Played(held, t)[k] == channel)
            || (k in held && held[k] == channel && k in t.up && !Closes(t.envs[k], k in lastUp, channel))
  {
    TurnEffect(SoundOf(held), lastUp, t, NUM_KEYS, k, channel);
    SoundsAs(held, k, channel);
    IsKey(k);
  }

  /**
   After a turn the host sounds exactly the notes of the keys that are held, each on the channel it
   was opened on, if and only if every key that went up closes the note it had opened.
   */
  lemma TurnIsExact(held: Playing, lastUp: KeyWord, prev: KeyWord, t: Turn)
    requires ValidTurn(t) && Edges(t, prev) && held.Keys <= prev
    ensures HearAll(SoundOf(held), TurnPackets(lastUp, t, NUM_KEYS)) == SoundOf(Played(held, t))
            <==> AllClosed(held, lastUp, t)
    ensures Played(held, t).Keys <= prev - t.up + t.down
  {
    var after, wanted := HearAll(SoundOf(held), TurnPackets(lastUp, t, NUM_KEYS)), SoundOf(Played(held, t));
    if AllClosed(held, lastUp, t) {
      forall note: (int, int) ensures note in after <==> note in wanted {
        var (channel, pitch) := note;
        if BASE_NOTE <= pitch < BASE_NOTE + NUM_KEYS {
          SoundsPlayed(held, lastUp, prev, t, pitch - BASE_NOTE, channel);
          SoundsAs(Played(held, t), pitch - BASE_NOTE, channel);
        } else {
          OtherNotes(SoundOf(held), lastUp, t, NUM_KEYS, channel, pitch);
        }
      }
      assert after == wanted;
    } else {
      var k :| k in held && k in t.up && !Closes(t.envs[k], k in lastUp, held[k]);
      SoundsPlayed(held, lastUp, prev, t, k, held[k]);
      SoundsAs(Played(held, t), k, held[k]);
    }
  }

  // ----- Runs

  /** The first configured channel and the note output stay the same while a turn is served. */
  predicate Steady(t: Turn, channel: int) {
    ValidTurn(t) && forall k: Key :: t.envs[k].mode < MODE_CCS_ONLY && Nibble(t.envs[k].channel) == channel
  }

  /** The bank bits record on which of the two channels each held note was opened. */
  ghost predicate Tied(held: Playing, lastUp: KeyWord, channel: int) {
    forall k :: k in held ==> held[k] == Nibble(channel - if k in lastUp then 1 else 0)
  }

  lemma ChannelIsTied(env: Env, channel: int, second: bool)
    requires Nibble(env.channel) == channel
    ensures OnChannel(env) == Nibble(channel - env.bank)
    ensures OffChannel(env, second) == Nibble(channel - if second then 1 else 0)
  {
  }

  lemma TiedNext(held: Playing, lastUp: KeyWord, t: Turn, channel: int)
    requires Steady(t, channel) && Tied(held, lastUp, channel)
    ensures AllClosed(held, lastUp, t)
    ensures Tied(Played(held, t), LastUp(lastUp, t, NUM_KEYS), channel)
  {
    forall k | k in held && k in t.up ensures Closes(t.envs[k], k in lastUp, held[k]) {
      ChannelIsTied(t.envs[k], channel, k in lastUp);
    }
    var held', lastUp' := Played(held, t), LastUp(lastUp, t, NUM_KEYS);
    forall k | k in held' ensures held'[k] == Nibble(channel - if k in lastUp' then 1 else 0) {
      ChannelIsTied(t.envs[k], channel, k in lastUp);
    }
  }

  predicate ValidRun(prev: KeyWord, turns: seq<Turn>)
    decreases |turns|
  {
    turns == [] ||
    (ValidTurn(turns[0]) && Edges(turns[0], prev) && ValidRun(prev - turns[0].up + turns[0].down, turns[1..]))
  }

  function RunPackets(prev: KeyWord, lastUp: KeyWord, turns: seq<Turn>): seq<Packet>
    requires ValidRun(prev, turns)
    decreases |turns|
  {
    if turns == [] then []
    else TurnPackets(lastUp, turns[0], NUM_KEYS) +
         RunPackets(prev - turns[0].up + turns[0].down, LastUp(lastUp, turns[0], NUM_KEYS), turns[1..])
  }

  function RunPlayed(prev: KeyWord, held: Playing, turns: seq<Turn>): Playing
    requires ValidRun(prev, turns)
    decreases |turns|
  {
    if turns == [] then held
    else RunPlayed(prev - turns[0].up + turns[0].down, Played(held, turns[0]), turns[1..])
  }

  /** The keys that are down after a run. */
  function RunKeys(prev: KeyWord, turns: seq<Turn>): KeyWord
    decreases |turns|
  {
    if turns == [] then prev else RunKeys(prev - turns[0].up + turns[0].down, turns[1..])
  }

  /** Every key that goes down in the run opens a note. */
  predicate AllOpen(turns: seq<Turn>) {
    forall t :: t in turns ==> ValidTurn(t) && forall k: Key :: Opens(t.envs[k])
  }

  lemma PlayedKeys(held: Playing, prev: KeyWord, t: Turn)
    requires ValidTurn(t) && Edges(t, prev) && held.Keys == prev && forall k: Key :: Opens(t.envs[k])
    ensures Played(held, t).Keys == prev - t.up + t.down
  {
    forall k: Key ensures k in AllKeys() {
      IsKey(k);
    }
  }

  /**
   No stuck notes. Whatever keys are pressed and released and however often the bank changes in
   between, the host sounds exactly the notes of the held keys, each on the channel of the bank it
   was pressed in; once all keys are up it sounds nothing. If every key that goes down opens a note,
   there is one for every key that is down.
   */
  lemma {:induction false} NoStuckNotes(prev: KeyWord, lastUp: KeyWord, held: Playing, turns: seq<Turn>, channel: int)
    requires ValidRun(prev, turns) && held.Keys <= prev && Tied(held, lastUp, channel)
    requires forall t :: t in turns ==> Steady(t, channel)
    ensures HearAll(SoundOf(held), RunPackets(prev, lastUp, turns)) == SoundOf(RunPlayed(prev, held, turns))
    ensures RunPlayed(prev, held, turns).Keys <= RunKeys(prev, turns)
    ensures RunKeys(prev, turns) == {} ==> HearAll(SoundOf(held), RunPackets(prev, lastUp, turns)) == {}
    ensures held.Keys == prev && AllOpen(turns) ==> RunPlayed(prev, held, turns).Keys == RunKeys(prev, turns)
    decreases |turns|
  {
    if turns == [] {
    } else {
      var t := turns[0];
      if held.Keys == prev && AllOpen(turns) {
        PlayedKeys(held, prev, t);
      }
      TiedNext(held, lastUp, t, channel);
      TurnIsExact(held, lastUp, prev, t);
      var prev', lastUp', held' := prev - t.up + t.down, LastUp(lastUp, t, NUM_KEYS), Played(held, t);
      FoldConcat(Hear, SoundOf(held), TurnPackets(lastUp, t, NUM_KEYS), RunPackets(prev', lastUp', turns[1..]));
      NoStuckNotes(prev', lastUp', held', turns[1..], channel);
    }
  }

  /** A message as the MIDI wire carries it: the status byte says what the packet says, and data has seven bits. */
  predicate IsMidi(p: Packet) {
    && p.event in {0x8, 0x9, 0xB} && p.event * 16 <= p.d1 < p.event * 16 + 16
    && p.d2 < 128 && p.d3 < 128
  }

  predicate All(test: Packet -> bool, ps: seq<Packet>) {
    forall p :: p in ps ==> test(p)
  }

  lemma AllConcat(test: Packet -> bool, ps: seq<Packet>, qs: seq<Packet>, all: seq<Packet>)
    requires All(test, ps) && All(test, qs) && all == ps + qs
    ensures All(test, all)
  {
  }

  lemma NoteIsMidi(channel: int, pitch: nat, velocity: byte, on: bool)
    ensures IsMidi(NotePacket(channel, pitch, velocity, on)) && IsMidi(CcPacket(channel, pitch, velocity))
  {
  }

  lemma KeyIsMidi(lastUp: KeyWord, down: KeyWord, up: KeyWord, env: Env, k: Key)
    ensures All(IsMidi, KeyPackets(lastUp, down, up, env, k))
  {
    var second := Second(lastUp, down, env, k);
    NoteIsMidi(env.channel - env.bank, Note(k), env.velocity, true);
    NoteIsMidi(OffChannel(env, second), Note(k), env.velocity, false);
    NoteIsMidi(env.channel, Note(k), 127, true);
    NoteIsMidi(env.channel, Note(k), 0, true);
  }

  /** Notes carry the configured velocity, both when the key goes down and when it goes up. */
  lemma VelocityIsSent(lastUp: KeyWord, down: KeyWord, up: KeyWord, env: Env, k: Key, p: Packet)
    requires p in KeyPackets(lastUp, down, up, env, k) && p.event != 0xB
    ensures p.d3 == env.velocity % 128
  {
  }

  /** What holds of the packets of every key holds of those of a turn. */
  lemma {:induction false} TurnAll(test: Packet -> bool, lastUp: KeyWord, t: Turn, n: nat)
    requires ValidTurn(t) && n <= NUM_KEYS
    requires forall k: Key {:trigger KeyPackets(lastUp, t.down, t.up, t.envs[k], k)} ::
               All(test, KeyPackets(lastUp, t.down, t.up, t.envs[k], k))
    ensures All(test, TurnPackets(lastUp, t, n))
    decreases n
  {
    if n == 0 {
    } else {
      TurnAll(test, lastUp, t, n - 1);
      var k: Key := n - 1;
      var last := KeyPackets(lastUp, t.down, t.up, t.envs[k], k);
      AllConcat(test, TurnPackets(lastUp, t, n - 1), last, TurnPackets(lastUp, t, n));
    }
  }

  lemma TurnIsMidi(lastUp: KeyWord, t: Turn, n: nat)
    requires ValidTurn(t) && n <= NUM_KEYS
    ensures All(IsMidi, TurnPackets(lastUp, t, n))
  {
    forall k: Key ensures All(IsMidi, KeyPackets(lastUp, t.down, t.up, t.envs[k], k)) {
      KeyIsMidi(lastUp, t.down, t.up, t.envs[k], k);
    }
    TurnAll(IsMidi, lastUp, t, n);
  }

  /** Every packet of every run is such a message, whatever the settings. */
  lemma {:induction false} RunIsMidi(prev: KeyWord, lastUp: KeyWord, turns: seq<Turn>)
    requires ValidRun(prev, turns)
    ensures All(IsMidi, RunPackets(prev, lastUp, turns))
    decreases |turns|
  {
    if turns == [] {
    } else {
      TurnIsMidi(lastUp, turns[0], NUM_KEYS);
      RunIsMidi(prev - turns[0].up + turns[0].down, LastUp(lastUp, turns[0], NUM_KEYS), turns[1..]);
    }
  }

  // ----- The key loop in place

  class Player {
    var lastUp: KeyWord

    constructor ()
      ensures lastUp == {}
    {
      lastUp := {};
    }

    /** A key that went down: its messages, and the bank it was pressed in. */
    method Press(k: Key, env: Env) returns (packets: seq<Packet>)
      modifies this
      ensures packets == DownPackets(env, k)
      ensures lastUp == if env.bank > 0 then old(lastUp) + {k} else old(lastUp) - {k}
    {
      packets := [];
      if env.mode < MODE_CCS_ONLY {
        packets := packets + [NotePacket(env.channel - env.bank, Note(k), env.velocity, true)];
      }
      if env.mode > MODE_NOTES_ONLY {
        packets := packets + [CcPacket(env.channel, Note(k), 127)];
      }
      if env.bank <= 0 {
        lastUp := lastUp - {k};
      } else {
        lastUp := lastUp + {k};
      }
    }

    /** A key that went up. */
    method Release(k: Key, env: Env) returns (packets: seq<Packet>)
      ensures packets == UpPackets(env, k, k in lastUp)
    {
      packets := [];
      var channel := if k in lastUp then Nibble(env.channel - 1) else env.channel;
      assert Nibble(channel) == Nibble(OffChannel(env, k in lastUp));
      if env.mode < MODE_CCS_ONLY {
        packets := packets + [NotePacket(channel, Note(k), env.velocity, false)];
      }
      if env.mode > MODE_NOTES_ONLY {
        packets := packets + [CcPacket(env.channel, Note(k), 0)];
      }
    }

    /** Serves key `k` and returns the packets it sends. */
    method ServeKey(k: Key, t: Turn) returns (packets: seq<Packet>)
      requires ValidTurn(t)
      modifies this
      ensures packets == KeyPackets(old(lastUp), t.down, t.up, t.envs[k], k)
      ensures forall j: Key ::
                j in lastUp <==> if j == k then Second(old(lastUp), t.down, t.envs[k], k) else j in old(lastUp)
    {
      packets := [];
      if k in t.down {
        packets := Press(k, t.envs[k]);
      }
      if k in t.up {
        var more := Release(k, t.envs[k]);
        packets := packets + more;
      }
    }

    /** Serves the 64 keys in order. */
    method Serve(t: Turn) returns (packets: seq<Packet>)
      requires ValidTurn(t)
      modifies this
      ensures packets == TurnPackets(old(lastUp), t, NUM_KEYS)
      ensures lastUp == LastUp(old(lastUp), t, NUM_KEYS)
    {
      packets := [];
      for k := 0 to NUM_KEYS
        invariant packets == TurnPackets(old(lastUp), t, k)
        invariant forall j: Key :: j in lastUp <==>
                    if j < k then Second(old(lastUp), t.down, t.envs[j], j) else j in old(lastUp)
      {
        var more := ServeKey(k, t);
        assert more == KeyPackets(old(lastUp), t.down, t.up, t.envs[k], k);
        packets := packets + more;
      }
      forall j: Key ensures j in AllKeys() {
        IsKey(j);
      }
    }
  }
}
