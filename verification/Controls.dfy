/**
 The control changes that the keys send beside or instead of their notes, and what a host
 that keeps controller values makes of them.
 */
module Controls {
  import opened Bytes
  import opened Folds
  import opened Keys
  import opened Notes
  import opened UsbMidi

  /** The controller values at the host, by channel and controller number. */
  type Values = map<(int, int), byte>

  function Keep(v: Values, p: Packet): Values {
    if Cin(p) == 0xB then v[(p.d1 % 16, p.d2) := p.d3] else v
  }

  function KeepAll(v: Values, ps: seq<Packet>): Values {
    Fold(Keep, v, ps)
  }

  // ----- One key

  lemma KeepEdge(v: Values, note: Packet, cc: Packet, mode: byte)
    requires Cin(cc) == 0xB && Cin(note) != 0xB
    ensures KeepAll(v, (if mode < MODE_CCS_ONLY then [note] else []) + (if mode > MODE_NOTES_ONLY then [cc] else []))
         == if mode > MODE_NOTES_ONLY then Keep(v, cc) else v
  {
    FoldOne(Keep, v, note);
    FoldOne(Keep, v, cc);
    FoldTwo(Keep, v, note, cc);
    assert [note] + [cc] == [note, cc];
    assert [note] + [] == [note] && [] + [cc] == [cc];
  }

  lemma KeepDown(v: Values, env: Env, k: Key)
    requires env.mode > MODE_NOTES_ONLY
    ensures KeepAll(v, DownPackets(env, k)) == v[(env.channel % 16, 36 + k) := 127]
  {
    KeepEdge(v, NotePacket(env.channel - env.bank, Note(k), env.velocity, true), CcPacket(env.channel, Note(k), 127),
             env.mode);
  }

  lemma KeepUp(v: Values, env: Env, k: Key, second: bool)
    requires env.mode > MODE_NOTES_ONLY
    ensures KeepAll(v, UpPackets(env, k, second)) == v[(env.channel % 16, 36 + k) := 0]
  {
    KeepEdge(v, NotePacket(OffChannel(env, second), Note(k), env.velocity, false), CcPacket(env.channel, Note(k), 0),
             env.mode);
  }

  /** Control changes are on in the whole turn, on one channel, whatever the bank. */
  predicate Controlling(t: Turn, channel: int) {
    ValidTurn(t) && forall k: Key :: t.envs[k].mode > MODE_NOTES_ONLY && t.envs[k].channel % 16 == channel
  }

  /** The value of a key's controller after a turn. */
  function After(t: Turn, k: Key, before: byte): byte {
    if k in t.up then 0 else if k in t.down then 127 else before
  }

  lemma KeyKeeps(v: Values, lastUp: KeyWord, t: Turn, k: Key, channel: int)
    requires Controlling(t, channel) && (channel, 36 + k) in v
    ensures KeepAll(v, KeyPackets(lastUp, t.down, t.up, t.envs[k], k)) ==
            v[(channel, 36 + k) := After(t, k, v[(channel, 36 + k)])]
  {
    var env := t.envs[k];
    var second := Second(lastUp, t.down, env, k);
    var onPackets := if k in t.down then DownPackets(env, k) else [];
    var offPackets := if k in t.up then UpPackets(env, k, second) else [];
    FoldConcat(Keep, v, onPackets, offPackets);
    KeepDown(v, env, k);
    KeepUp(KeepAll(v, onPackets), env, k, second);
  }

  // ----- Turns and runs

  /** The controller of key `k` has the value `x`. */
  predicate Has(v: Values, channel: int, k: Key, x: byte) {
    (channel, 36 + k) in v && v[(channel, 36 + k)] == x
  }

  /** 127 for a key that is down, 0 for one that is up. */
  function Level(keys: KeyWord, k: Key): byte {
    if k in keys then 127 else 0
  }

  predicate Shows(v: Values, keys: KeyWord, channel: int) {
    forall k: Key :: Has(v, channel, k, Level(keys, k))
  }

  lemma {:induction false} TurnKeeps(v: Values, lastUp: KeyWord, t: Turn, n: nat, channel: int, prev: KeyWord, k: Key)
    requires Controlling(t, channel) && n <= NUM_KEYS && Shows(v, prev, channel)
    ensures Has(KeepAll(v, TurnPackets(lastUp, t, n)), channel, k,
                if k < n then After(t, k, Level(prev, k)) else Level(prev, k))
    decreases n
  {
    if n == 0 {
    } else {
      var before, last := TurnPackets(lastUp, t, n - 1), n - 1;
      TurnKeeps(v, lastUp, t, n - 1, channel, prev, k);
      TurnKeeps(v, lastUp, t, n - 1, channel, prev, last);
      FoldConcat(Keep, v, before, KeyPackets(lastUp, t.down, t.up, t.envs[last], last));
      KeyKeeps(KeepAll(v, before), lastUp, t, last, channel);
    }
  }

  lemma TurnShows(v: Values, lastUp: KeyWord, t: Turn, channel: int, prev: KeyWord)
    requires Controlling(t, channel) && Edges(t, prev) && Shows(v, prev, channel)
    ensures Shows(KeepAll(v, TurnPackets(lastUp, t, NUM_KEYS)), prev - t.up + t.down, channel)
  {
    forall k: Key
      ensures Has(KeepAll(v, TurnPackets(lastUp, t, NUM_KEYS)), channel, k, Level(prev - t.up + t.down, k))
    {
      TurnKeeps(v, lastUp, t, NUM_KEYS, channel, prev, k);
    }
  }

  /** With control changes on, the host's values are at every moment a picture of the keys. */
  lemma {:induction false} ControlsFollowKeys(
    prev: KeyWord, lastUp: KeyWord, v: Values, turns: seq<Turn>, channel: int)
    requires ValidRun(prev, turns) && Shows(v, prev, channel)
    requires forall t :: t in turns ==> Controlling(t, channel)
    ensures Shows(KeepAll(v, RunPackets(prev, lastUp, turns)), RunKeys(prev, turns), channel)
    decreases |turns|
  {
    if turns == [] {
    } else {
      var t := turns[0];
      var prev', lastUp' := prev - t.up + t.down, LastUp(lastUp, t, NUM_KEYS);
      TurnShows(v, lastUp, t, channel, prev);
      FoldConcat(Keep, v, TurnPackets(lastUp, t, NUM_KEYS), RunPackets(prev', lastUp', turns[1..]));
      ControlsFollowKeys(prev', lastUp', KeepAll(v, TurnPackets(lastUp, t, NUM_KEYS)), turns[1..], channel);
    }
  }

  /** With notes only, it is never told anything. */
  lemma NotesAreNoControls(v: Values, env: Env, k: Key, second: bool)
    requires env.mode == MODE_NOTES_ONLY
    ensures KeepAll(v, DownPackets(env, k)) == v && KeepAll(v, UpPackets(env, k, second)) == v
  {
    KeepEdge(v, NotePacket(env.channel - env.bank, Note(k), env.velocity, true), CcPacket(env.channel, Note(k), 127),
             env.mode);
    KeepEdge(v, NotePacket(OffChannel(env, second), Note(k), env.velocity, false), CcPacket(env.channel, Note(k), 0),
             env.mode);
  }
}
