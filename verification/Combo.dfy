/**
 The combo recognizer of combo.c: a table-driven state machine over key edges, plus a
 chord that is recognized in any order of its keys. A 16-bit key mask is the set of the
 keys whose bit is set.
 */
module Combo {
  import opened Keys

  // combo_action_t: DOWN actions are 1..5 for combos A..E, RELEASE actions 6..10.
  type Action = a: int | 0 <= a <= 10
  const NONE := 0
  const A_DOWN := 1
  const B_DOWN := 2
  const C_DOWN := 3
  const D_DOWN := 4
  const E_DOWN := 5
  const A_RELEASE := 6

  const NUM_COMBO_KEYS := 16
  const CHORD: KeyWord := {4, 5, 6, 7}

  function LowKeys(keys: KeyWord): KeyWord {
    set k | k in keys && k < NUM_COMBO_KEYS
  }

  // ----- The rule tables

  datatype Test = KeyDown | KeyUp
  datatype Rule = Rule(state: nat, key: Key, test: Test, next: nat, action: Action)

  const LAST_STATE := 36
  const RULES := 44

  const STATE_OFFSET: seq<nat> := [
    0,
    4, 5, 6, 7,
    8, 9, 10, 11,
    12, 13, 14,
    16, 17, 18, 19, 20, 21,
    22, 23, 24, 25, 26, 27, 28, 29, 30,
    32, 33, 34, 35, 36,
    38, 39,
    41, 42, 43]

  const STATE_TABLE: seq<Rule> := [
    Rule(0, 0, KeyDown, 1, 0), Rule(0, 5, KeyDown, 5, 0), Rule(0, 4, KeyDown, 9, 0), Rule(0, 8, KeyDown, 18, 0),
    Rule(1, 1, KeyDown, 2, 0), Rule(2, 2, KeyDown, 3, 0), Rule(3, 3, KeyDown, 4, 1), Rule(4, 3, KeyUp, 0, 6),
    Rule(5, 6, KeyDown, 6, 0), Rule(6, 9, KeyDown, 7, 0), Rule(7, 10, KeyDown, 8, 3), Rule(8, 10, KeyUp, 0, 8),
    Rule(9, 4, KeyUp, 10, 0), Rule(10, 5, KeyDown, 11, 0), Rule(11, 5, KeyUp, 12, 0), Rule(11, 6, KeyDown, 6, 0),
    Rule(12, 6, KeyDown, 13, 0), Rule(13, 6, KeyUp, 14, 0), Rule(14, 6, KeyDown, 15, 0), Rule(15, 6, KeyUp, 16, 0),
    Rule(16, 7, KeyDown, 17, 4), Rule(17, 7, KeyUp, 0, 9),
    Rule(18, 8, KeyUp, 19, 0), Rule(19, 8, KeyDown, 20, 0), Rule(20, 8, KeyUp, 21, 0), Rule(21, 0, KeyDown, 22, 0),
    Rule(22, 0, KeyUp, 23, 0), Rule(23, 0, KeyDown, 24, 0), Rule(24, 0, KeyUp, 25, 0), Rule(25, 4, KeyDown, 26, 0),
    Rule(26, 4, KeyUp, 27, 0), Rule(26, 6, KeyDown, 6, 0), Rule(27, 5, KeyDown, 28, 0), Rule(28, 5, KeyUp, 29, 0),
    Rule(29, 4, KeyDown, 30, 0), Rule(30, 4, KeyUp, 31, 0), Rule(31, 5, KeyDown, 32, 0), Rule(31, 6, KeyDown, 13, 0),
    Rule(32, 5, KeyUp, 33, 0), Rule(33, 7, KeyDown, 34, 0), Rule(33, 5, KeyDown, 11, 0), Rule(34, 7, KeyUp, 35, 0),
    Rule(35, 6, KeyDown, 36, 5), Rule(36, 6, KeyUp, 0, 10)]

  /** The states that the table enters with a DOWN action, and that action. */
  function HeldIn(state: nat): Action {
    if state == 4 then A_DOWN else if state == 8 then C_DOWN
    else if state == 17 then D_DOWN else if state == 36 then E_DOWN else NONE
  }

  /** The offset table points at a rule of its state. */
  lemma OffsetIsARule(state: nat)
    requires state <= LAST_STATE
    ensures |STATE_OFFSET| == LAST_STATE + 1 && |STATE_TABLE| == RULES
    ensures STATE_OFFSET[state] < RULES && STATE_TABLE[STATE_OFFSET[state]].state == state
  {
    assert |STATE_OFFSET| == LAST_STATE + 1 && |STATE_TABLE| == RULES;
  }

  /** The states, by the number of their second rules that come before. */
  lemma Offset(state: nat)
    requires 0 < state <= LAST_STATE
    ensures |STATE_OFFSET| > state
    ensures STATE_OFFSET[state] == state +
      if state < 12 then 3 else if state < 27 then 4 else if state < 32 then 5 else if state < 34 then 6 else 7
  {
  }

  /** The rule before it belongs to an earlier state, so it is the first of its state. */
  lemma OffsetIsFirst(state: nat)
    requires 0 < state <= LAST_STATE
    ensures |STATE_OFFSET| > state && |STATE_TABLE| == RULES
    ensures 0 < STATE_OFFSET[state] < RULES && STATE_TABLE[STATE_OFFSET[state] - 1].state < state
  {
    Offset(state);
    RuleBefore(state, STATE_OFFSET[state] - 1);
  }

  lemma RuleBefore(state: nat, row: nat)
    requires 0 < state <= LAST_STATE
    requires row == state +
      if state < 12 then 2 else if state < 27 then 3 else if state < 32 then 4 else if state < 34 then 5 else 6
    ensures |STATE_TABLE| == RULES && STATE_TABLE[row].state < state
  {
    assert |STATE_TABLE| == RULES;
  }

  /** The rules are sorted by state, in steps of at most one. */
  lemma RulesAreSorted(row: nat)
    requires row + 1 < RULES
    ensures |STATE_TABLE| == RULES
    ensures STATE_TABLE[row].state <= STATE_TABLE[row + 1].state <= STATE_TABLE[row].state + 1
  {
  }

  /** Every rule leads to a state and tests a combo key; the last state has the last rule alone. */
  lemma RuleIsInRange(row: nat)
    requires row < RULES
    ensures |STATE_TABLE| == RULES
    ensures var r := STATE_TABLE[row];
            r.next <= LAST_STATE && r.key < NUM_COMBO_KEYS && (r.state == LAST_STATE <==> row == RULES - 1)
  {
  }

  /** What a rule may emit: in a state that holds no combo, the DOWN action of the state it leads to. */
  predicate Sound(r: Rule) {
    if HeldIn(r.state) == NONE then r.action == HeldIn(r.next) && (r.action != NONE ==> r.test == KeyDown)
    else r.action == HeldIn(r.state) + A_RELEASE - A_DOWN
  }

  lemma RuleIsSound(row: nat)
    requires row < RULES
    ensures |STATE_TABLE| == RULES && Sound(STATE_TABLE[row])
  {
    if row < 22 {
      LowRuleIsSound(row);
    } else {
      HighRuleIsSound(row);
    }
  }

  lemma LowRuleIsSound(row: nat)
    requires row < 22
    ensures |STATE_TABLE| == RULES && Sound(STATE_TABLE[row])
  {
    assert |STATE_TABLE| == RULES;
  }

  lemma HighRuleIsSound(row: nat)
    requires 22 <= row < RULES
    ensures |STATE_TABLE| == RULES && Sound(STATE_TABLE[row])
  {
    assert |STATE_TABLE| == RULES;
  }

  // ----- The recognizer, on values

  datatype Machine = Machine(state: nat, action: Action, release: KeyWord)
  datatype Walk = Walked(next: nat, action: Action) | OffTable
  datatype Outcome = Step(machine: Machine, emitted: Action) | Lost

  const IDLE := Machine(0, NONE, {})

  predicate Matches(r: Rule, down: KeyWord, up: KeyWord) {
    r.key in if r.test.KeyDown? then down else up
  }

  /** The walk over the rules of `state` from `row` on; `action` is the one set so far. */
  function WalkFrom(row: nat, state: nat, action: Action, down: KeyWord, up: KeyWord): Walk
    decreases down, RULES - row
  {
    if row >= |STATE_TABLE| then OffTable
    else if STATE_TABLE[row].state != state then Walked(0, action)
    else if Matches(STATE_TABLE[row], down, up) then Walked(STATE_TABLE[row].next, STATE_TABLE[row].action)
    else WalkFrom(row + 1, state, NONE, down, up)
  }

  predicate Held(m: Machine) {
    A_DOWN <= m.action <= E_DOWN
  }

  /** The rightmost set bit of a mask, as a mask. */
  function Rightmost(keys: KeyWord): (bit: KeyWord)
    ensures LowKeys(keys) == {} ==> bit == {}
    ensures LowKeys(keys) != {} ==> exists k :: k in LowKeys(keys) && bit == {k} && forall j :: j in keys ==> k <= j
  {
    RightmostFrom(keys, 0)
  }

  function RightmostFrom(keys: KeyWord, n: nat): (bit: KeyWord)
    requires n <= NUM_COMBO_KEYS && forall k :: k in keys ==> n <= k
    ensures LowKeys(keys) == {} ==> bit == {}
    ensures LowKeys(keys) != {} ==> exists k :: k in LowKeys(keys) && bit == {k} && forall j :: j in keys ==> k <= j
    decreases keys, NUM_COMBO_KEYS - n
  {
    if n == NUM_COMBO_KEYS then {}
    else if n in keys then assert n in LowKeys(keys); {n}
    else RightmostFrom(keys, n + 1)
  }

  /** One call of the recognizer, on the low sixteen bits of the key edges and the key state. */
  function Recognized(m: Machine, down: KeyWord, up: KeyWord, keys: KeyWord): Outcome
    requires m.state <= LAST_STATE
  {
    if down == {} && up == {} then Step(m, NONE)
    else if keys == CHORD && m.action != B_DOWN then
      if down == {} then Step(m.(action := NONE), NONE)
      else Step(m.(action := B_DOWN, release := Rightmost(down)), B_DOWN)
    else if Held(m) then
      if keys * m.release == {} then
        Step(m.(state := 0, action := m.action + A_RELEASE - A_DOWN), m.action + A_RELEASE - A_DOWN)
      else Step(m, NONE)
    else Transition(m, down, up)
  }

  function Transition(m: Machine, down: KeyWord, up: KeyWord): Outcome
    requires m.state <= LAST_STATE
  {
    OffsetIsARule(m.state);
    match WalkFrom(STATE_OFFSET[m.state], m.state, m.action, down, up)
    case OffTable => Lost
    case Walked(next, action) =>
      Step(Machine(next, action, if action != NONE then Rightmost(down) else m.release), action)
  }

  // ----- Laws

  /** Key masks: the combo keys that are down. */
  predicate IsMask(keys: KeyWord) {
    forall k :: k in keys ==> k < NUM_COMBO_KEYS
  }

  /**
   The state that every run keeps: the machine state is one of the table's, it is the held state
   of the combo that is held (combo B has none), and the release key of a held combo is down.
   */
  ghost predicate Inv(m: Machine, keys: KeyWord) {
    && m.state <= LAST_STATE
    && HeldIn(m.state) == (if Held(m) && m.action != B_DOWN then m.action else NONE)
    && (Held(m) ==> exists k :: k in keys && m.release == {k})
  }

  /** The chord replaces another combo that is held, whose release is then never reported. */
  predicate Clobbers(m: Machine, prev: KeyWord, keys: KeyWord) {
    keys != prev && keys == CHORD && Held(m) && m.action != B_DOWN
  }

  /**
   A well-bracketed step from the mask `prev` to `keys`. A held combo is released exactly when
   its release key is up, with its own RELEASE action, and otherwise stays as it is. With no combo
   held only a DOWN action is reported, which is then the held one; its release key just went down.
   */
  ghost predicate Bracketed(m: Machine, prev: KeyWord, keys: KeyWord, o: Outcome) {
    o.Step? &&
    if Held(m) then
      if m.release * keys == {} then o.emitted == m.action + A_RELEASE - A_DOWN && !Held(o.machine)
      else o == Step(m, NONE)
    else
      && o.emitted <= E_DOWN
      && (Held(o.machine) <==> o.emitted != NONE)
      && (o.emitted != NONE ==>
            o.machine.action == o.emitted && exists k :: k in keys - prev && o.machine.release == {k})
  }

  function Scan(m: Machine, prev: KeyWord, keys: KeyWord): Outcome
    requires m.state <= LAST_STATE
  {
    Recognized(m, keys - prev, prev - keys, keys)
  }

  /** The recognizer on whole key words, with the edges that the key scanner derives, is a scan of masks. */
  lemma WordsAreScanned(m: Machine, prev: KeyWord, state: KeyWord)
    requires m.state <= LAST_STATE
    ensures Recognized(m, LowKeys(state - prev), LowKeys(prev - state), LowKeys(state)) ==
            Scan(m, LowKeys(prev), LowKeys(state))
  {
    assert LowKeys(state - prev) == LowKeys(state) - LowKeys(prev);
    assert LowKeys(prev - state) == LowKeys(prev) - LowKeys(state);
  }

  /** The walk stays in the table and ends in a state that holds exactly what it emits. */
  lemma {:induction false} WalkIsSound(row: nat, state: nat, action: Action, down: KeyWord, up: KeyWord)
    requires row < RULES && HeldIn(state) == NONE && state != LAST_STATE && state <= LAST_STATE
    requires action == NONE || STATE_TABLE[row].state == state
    ensures var w := WalkFrom(row, state, action, down, up);
            && w.Walked? && w.next <= LAST_STATE && w.action == HeldIn(w.next)
            && (w.action != NONE ==> down != {})
    decreases RULES - row
  {
    RuleIsSound(row);
    RuleIsInRange(row);
    if STATE_TABLE[row].state != state || Matches(STATE_TABLE[row], down, up) {
    } else {
      WalkIsSound(row + 1, state, NONE, down, up);
    }
  }

  lemma TransitionIsBracketed(m: Machine, prev: KeyWord, keys: KeyWord)
    requires IsMask(prev) && IsMask(keys) && Inv(m, prev) && !Held(m)
    ensures var o := Transition(m, keys - prev, prev - keys);
            Bracketed(m, prev, keys, o) && Inv(o.machine, keys)
  {
    OffsetIsARule(m.state);
    var down := keys - prev;
    WalkIsSound(STATE_OFFSET[m.state], m.state, m.action, down, prev - keys);
    assert LowKeys(down) == down;
  }

  /** A step is well bracketed exactly when the chord does not replace another held combo. */
  lemma StepIsBracketed(m: Machine, prev: KeyWord, keys: KeyWord)
    requires IsMask(prev) && IsMask(keys) && Inv(m, prev)
    ensures Bracketed(m, prev, keys, Scan(m, prev, keys)) <==> !Clobbers(m, prev, keys)
    ensures !Clobbers(m, prev, keys) ==> Inv(Scan(m, prev, keys).machine, keys)
  {
    var down, up := keys - prev, prev - keys;
    assert LowKeys(down) == down;
    if down == {} && up == {} {
      assert keys == prev;
    } else if keys == CHORD && m.action != B_DOWN {
    } else if !Held(m) {
      TransitionIsBracketed(m, prev, keys);
    }
  }

  lemma {:induction false} StatesAscend(i: nat, j: nat)
    requires i <= j < RULES
    ensures |STATE_TABLE| == RULES && STATE_TABLE[i].state <= STATE_TABLE[j].state
    decreases j
  {
    if i == j {
    } else {
      StatesAscend(i, j - 1);
      RulesAreSorted(j - 1);
    }
  }

  /** Rule `row` of the table is a rule of `state` that the key edges satisfy. */
  predicate Applies(row: nat, state: nat, down: KeyWord, up: KeyWord) {
    row < |STATE_TABLE| && STATE_TABLE[row].state == state && Matches(STATE_TABLE[row], down, up)
  }

  /**
   The transition is the first rule of the whole table that applies, wherever it stands, and back
   to state 0 with no action when none applies.
   */
  lemma TransitionIsFirstRule(state: nat, action: Action, down: KeyWord, up: KeyWord, row: nat)
    requires state < LAST_STATE
    ensures |STATE_OFFSET| > state && |STATE_TABLE| == RULES
    ensures var w := WalkFrom(STATE_OFFSET[state], state, action, down, up);
            && (Applies(row, state, down, up) && (forall r :: 0 <= r < row ==> !Applies(r, state, down, up)) ==>
                w == Walked(STATE_TABLE[row].next, STATE_TABLE[row].action))
            && ((forall r: nat :: !Applies(r, state, down, up)) ==> w == Walked(0, NONE))
  {
    OffsetIsARule(state);
    var first := STATE_OFFSET[state];
    if Applies(row, state, down, up) && row < first {
      OffsetIsFirst(state);
      StatesAscend(row, first - 1);
      assert false;
    }
    WalkFromFirst(first, state, action, down, up, row);
  }

  lemma {:induction false} WalkFromFirst(first: nat, state: nat, action: Action, down: KeyWord, up: KeyWord, row: nat)
    requires first < RULES && state < LAST_STATE && |STATE_TABLE| == RULES
    requires action == NONE || STATE_TABLE[first].state == state
    requires STATE_TABLE[first].state >= state && (Applies(row, state, down, up) ==> first <= row)
    ensures var w := WalkFrom(first, state, action, down, up);
            && (Applies(row, state, down, up) && (forall r :: 0 <= r < row ==> !Applies(r, state, down, up)) ==>
                w == Walked(STATE_TABLE[row].next, STATE_TABLE[row].action))
            && ((forall r: nat :: !Applies(r, state, down, up)) ==> w == Walked(0, NONE))
    decreases RULES - first
  {
    if STATE_TABLE[first].state != state {
      if Applies(row, state, down, up) {
        StatesAscend(first, row);
      }
    } else if !Matches(STATE_TABLE[first], down, up) {
      assert !Applies(first, state, down, up);
      RuleIsInRange(first);
      RulesAreSorted(first);
      WalkFromFirst(first + 1, state, NONE, down, up, row);
    } else {
      assert Applies(first, state, down, up);
    }
  }

  lemma {:induction false} WalkEnds(row: nat, state: nat, action: Action, down: KeyWord, up: KeyWord)
    requires row < RULES && state != LAST_STATE
    ensures WalkFrom(row, state, action, down, up).Walked?
    decreases RULES - row
  {
    RuleIsInRange(row);
    if STATE_TABLE[row].state != state || Matches(STATE_TABLE[row], down, up) {
    } else {
      WalkEnds(row + 1, state, NONE, down, up);
    }
  }

  /** The walk reads past the table exactly in the last state, unless key 6 goes up. */
  lemma LostExactly(m: Machine, down: KeyWord, up: KeyWord)
    requires m.state <= LAST_STATE
    ensures Transition(m, down, up).Lost? <==> m.state == LAST_STATE && 6 !in up
  {
    OffsetIsARule(m.state);
    if m.state != LAST_STATE {
      WalkEnds(STATE_OFFSET[m.state], m.state, m.action, down, up);
    } else {
      Offset(LAST_STATE);
      assert STATE_TABLE[RULES - 1] == Rule(LAST_STATE, 6, KeyUp, 0, 10);
      assert WalkFrom(RULES, LAST_STATE, NONE, down, up) == OffTable;
    }
  }

  // ----- Runs

  /** A run over successive key masks: the actions it reports, up to a step that leaves the table. */
  function Reported(m: Machine, prev: KeyWord, masks: seq<KeyWord>): seq<Action>
    requires m.state <= LAST_STATE
    decreases |masks|
  {
    if masks == [] then []
    else
      match Scan(m, prev, masks[0])
      case Lost => []
      case Step(m', emitted) =>
        (if emitted == NONE then [] else [emitted]) +
        if m'.state <= LAST_STATE then Reported(m', masks[0], masks[1..]) else []
  }

  /** Every step of the run is well bracketed, and none leaves the table. */
  ghost predicate AllBracketed(m: Machine, prev: KeyWord, masks: seq<KeyWord>)
    requires m.state <= LAST_STATE
    decreases |masks|
  {
    masks == [] ||
    var o := Scan(m, prev, masks[0]);
    Bracketed(m, prev, masks[0], o) && o.machine.state <= LAST_STATE && AllBracketed(o.machine, masks[0], masks[1..])
  }

  /** No step of the run replaces a held combo by the chord, as far as the run goes. */
  ghost predicate NeverClobbers(m: Machine, prev: KeyWord, masks: seq<KeyWord>)
    requires m.state <= LAST_STATE
    decreases |masks|
  {
    masks == [] ||
    (!Clobbers(m, prev, masks[0]) &&
     var o := Scan(m, prev, masks[0]);
     (o.Step? && o.machine.state <= LAST_STATE ==> NeverClobbers(o.machine, masks[0], masks[1..])))
  }

  /** Every DOWN is followed by the RELEASE of the same combo before anything else; `held` is open. */
  ghost predicate Alternates(actions: seq<Action>, held: Action) {
    if actions == [] then true
    else if held == NONE then A_DOWN <= actions[0] <= E_DOWN && Alternates(actions[1..], actions[0])
    else actions[0] == held + A_RELEASE - A_DOWN && Alternates(actions[1..], NONE)
  }

  /**
   A run is well bracketed exactly when the chord never replaces another held combo. Such a run
   stays in the table and reports alternating DOWN and RELEASE actions of the same combo.
   */
  lemma {:induction false} RunIsBracketed(m: Machine, prev: KeyWord, masks: seq<KeyWord>)
    requires Inv(m, prev) && IsMask(prev) && forall keys :: keys in masks ==> IsMask(keys)
    ensures AllBracketed(m, prev, masks) <==> NeverClobbers(m, prev, masks)
    ensures NeverClobbers(m, prev, masks) ==>
              Alternates(Reported(m, prev, masks), if Held(m) then m.action else NONE)
    decreases |masks|
  {
    if masks == [] {
    } else {
      StepIsBracketed(m, prev, masks[0]);
      if !Clobbers(m, prev, masks[0]) {
        var o := Scan(m, prev, masks[0]);
        RunIsBracketed(o.machine, masks[0], masks[1..]);
        var rest := Reported(o.machine, masks[0], masks[1..]);
        assert o.emitted == NONE ==> [] + rest == rest;
        assert o.emitted != NONE ==> ([o.emitted] + rest)[1..] == rest;
      }
    }
  }

  /**
   The machine state in which combo A is held: the chord then reports B without the release of A,
   and when keys only went up it reports nothing and forgets that A is held.
   */
  lemma ChordForgetsA(prev: KeyWord)
    requires IsMask(prev) && prev != CHORD && 3 in prev
    ensures var m := Machine(4, A_DOWN, {3});
            && Inv(m, prev)
            && Scan(m, prev, CHORD).emitted == (if CHORD <= prev then NONE else B_DOWN)
            && Scan(m, prev, CHORD).machine.action == Scan(m, prev, CHORD).emitted
            && !Alternates([A_DOWN, B_DOWN], NONE)
  {
    var m := Machine(4, A_DOWN, {3});
    assert 3 in prev - CHORD;
    if CHORD - prev == {} {
      forall k | k in CHORD ensures k in prev {
        assert k !in CHORD - prev;
      }
    }
    assert [A_DOWN, B_DOWN][1..] == [B_DOWN];
  }

  /** Pressing the key of a state's first rule. */
  lemma KeyOfFirstRule(m: Machine, prev: KeyWord, key: Key, row: nat, next: nat, action: Action)
    requires m.state <= LAST_STATE && !Held(m) && key < NUM_COMBO_KEYS && key !in prev && prev + {key} != CHORD
    requires |STATE_OFFSET| > m.state && STATE_OFFSET[m.state] == row
    requires row < |STATE_TABLE| && STATE_TABLE[row] == Rule(m.state, key, KeyDown, next, action)
    ensures Scan(m, prev, prev + {key}) ==
            Step(Machine(next, action, if action != NONE then {key} else m.release), action)
  {
    var keys := prev + {key};
    assert keys - prev == {key} && key in LowKeys({key});
  }

  /** Keys 0 to 3 pressed one after the other: the first two. */
  lemma ComboAStarts()
    ensures Scan(IDLE, {}, {0}) == Step(Machine(1, NONE, {}), NONE)
    ensures Scan(Machine(1, NONE, {}), {0}, {0, 1}) == Step(Machine(2, NONE, {}), NONE)
  {
    assert {} + {0} == {0} && 0 !in CHORD;
    KeyOfFirstRule(IDLE, {}, 0, 0, 1, NONE);
    assert {0} + {1} == {0, 1};
    KeyOfFirstRule(Machine(1, NONE, {}), {0}, 1, 4, 2, NONE);
  }

  /** And the last two, which report combo A with key 3 to release it. */
  lemma ComboAIsReported()
    ensures Scan(Machine(2, NONE, {}), {0, 1}, {0, 1, 2}) == Step(Machine(3, NONE, {}), NONE)
    ensures Scan(Machine(3, NONE, {}), {0, 1, 2}, {0, 1, 2, 3}) == Step(Machine(4, A_DOWN, {3}), A_DOWN)
  {
    assert {0, 1} + {2} == {0, 1, 2} && 0 !in CHORD;
    KeyOfFirstRule(Machine(2, NONE, {}), {0, 1}, 2, 5, 3, NONE);
    assert {0, 1, 2} + {3} == {0, 1, 2, 3};
    KeyOfFirstRule(Machine(3, NONE, {}), {0, 1, 2}, 3, 6, 4, A_DOWN);
  }

  /** With combo A held, the chord reports B. */
  lemma ChordAfterA()
    ensures Reported(Machine(4, A_DOWN, {3}), {0, 1, 2, 3}, [CHORD]) == [B_DOWN]
  {
    var m, masks := Machine(4, A_DOWN, {3}), [CHORD];
    ChordForgetsA({0, 1, 2, 3});
    assert 5 in CHORD && 5 !in {0, 1, 2, 3} && masks[1..] == [];
    ReportedNext(m, {0, 1, 2, 3}, masks, Scan(m, {0, 1, 2, 3}, CHORD).machine, B_DOWN);
  }

  /** A run from start-up that is not well bracketed: A goes down, then B, and A is never released. */
  lemma ClobberedRun()
    ensures Reported(IDLE, {}, [{0}, {0, 1}, {0, 1, 2}, {0, 1, 2, 3}, CHORD]) == [A_DOWN, B_DOWN]
    ensures !Alternates([A_DOWN, B_DOWN], NONE)
  {
    ComboAStarts();
    ComboAIsReported();
    ChordAfterA();
    var masks: seq<KeyWord> := [{0}, {0, 1}, {0, 1, 2}, {0, 1, 2, 3}, CHORD];
    assert masks[4..] == [CHORD];
    ReportedNext(Machine(3, NONE, {}), {0, 1, 2}, masks[3..], Machine(4, A_DOWN, {3}), A_DOWN);
    ReportedNext(Machine(2, NONE, {}), {0, 1}, masks[2..], Machine(3, NONE, {}), NONE);
    ReportedNext(Machine(1, NONE, {}), {0}, masks[1..], Machine(2, NONE, {}), NONE);
    ReportedNext(IDLE, {}, masks, Machine(1, NONE, {}), NONE);
    assert [A_DOWN, B_DOWN][1..] == [B_DOWN];
  }

  lemma ReportedNext(m: Machine, prev: KeyWord, masks: seq<KeyWord>, m': Machine, emitted: Action)
    requires m.state <= LAST_STATE && m'.state <= LAST_STATE && masks != []
    requires Scan(m, prev, masks[0]) == Step(m', emitted)
    ensures Reported(m, prev, masks) ==
            (if emitted == NONE then [] else [emitted]) + Reported(m', masks[0], masks[1..])
  {
  }

  // ----- The recognizer in place

  /** Scans the bits of a mask upwards for the first that is set. */
  method RightmostBit(value: KeyWord) returns (bit: KeyWord)
    requires IsMask(value)
    ensures bit == Rightmost(value)
  {
    var n := 0;
    while n < NUM_COMBO_KEYS && n !in value
      invariant 0 <= n <= NUM_COMBO_KEYS && forall k :: k in value ==> n <= k
      invariant Rightmost(value) == RightmostFrom(value, n)
    {
      n := n + 1;
    }
    bit := if n < NUM_COMBO_KEYS then {n} else {};
  }

  class Recognizer {
    var comboState: nat
    var comboAction: Action
    var releaseKey: KeyWord

    ghost function Value(): Machine
      reads this
    {
      Machine(comboState, comboAction, releaseKey)
    }

    constructor ()
      ensures Value() == IDLE
    {
      comboState, comboAction, releaseKey := 0, NONE, {};
    }

    /** Follows the rules of the current state; `lost` when the walk runs past the table. */
    method FollowRules(down: KeyWord, up: KeyWord) returns (lost: bool)
      requires IsMask(down) && comboState <= LAST_STATE
      modifies this
      ensures lost <==> Transition(old(Value()), down, up).Lost?
      ensures !lost ==> Value() == Transition(old(Value()), down, up).machine
    {
      OffsetIsARule(comboState);
      var row, next := STATE_OFFSET[comboState], 0;
      ghost var walk := WalkFrom(row, comboState, comboAction, down, up);
      var found := false;
      while !found && row < RULES && STATE_TABLE[row].state == comboState
        invariant row <= RULES
        invariant comboState == old(comboState) && releaseKey == old(releaseKey)
        invariant if found then walk == Walked(next, comboAction)
                  else next == 0 && walk == WalkFrom(row, comboState, comboAction, down, up)
        decreases RULES - row, !found
      {
        var rule := STATE_TABLE[row];
        var mask := if rule.test.KeyDown? then down else up;
        if rule.key in mask {
          next, comboAction := rule.next, rule.action;
          found := true;
        } else {
          next, comboAction := 0, NONE;
          row := row + 1;
        }
      }
      lost := !found && row == RULES;
      comboState := next;
      if comboAction != NONE {
        releaseKey := RightmostBit(down);
      }
    }

    /** One call of the recognizer, on whole key words. */
    method Recognize(keyDown: KeyWord, keyUp: KeyWord, keyState: KeyWord) returns (emitted: Action, lost: bool)
      requires comboState <= LAST_STATE
      modifies this
      ensures var o := Recognized(old(Value()), LowKeys(keyDown), LowKeys(keyUp), LowKeys(keyState));
              (lost <==> o.Lost?) && (!lost ==> o == Step(Value(), emitted))
    {
      var down, up, keys := LowKeys(keyDown), LowKeys(keyUp), LowKeys(keyState);
      lost := false;
      if down == {} && up == {} {
        return NONE, false;
      }
      if keys == CHORD && comboAction != B_DOWN {
        comboAction := B_DOWN;
        var bit := RightmostBit(down);
        if bit == {} {
          comboAction := NONE;
        } else {
          releaseKey := bit;
          comboAction := B_DOWN;
        }
        assert LowKeys(down) == down;
        return comboAction, false;
      }
      if comboAction != NONE && comboAction <= E_DOWN {
        if keys * releaseKey == {} {
          comboState := 0;
          comboAction := comboAction + (A_RELEASE - A_DOWN);
          return comboAction, false;
        } else {
          return NONE, false;
        }
      }
      lost := FollowRules(down, up);
      emitted := comboAction;
    }
  }
}
