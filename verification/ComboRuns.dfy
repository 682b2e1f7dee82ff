/**
 The key sequences that the combo recognizer reports, over runs from start-up: the chord in
 every order of its keys and after anything else, and the paths through the rule table.
 */
module ComboRuns {
  import opened Bytes
  import opened Keys
  import opened Combo
  import opened ComboLost

  // ----- The chord

  const B_RELEASE: Action := 7

  /** The least key of the chord that is in `keys`. */
  function LeastOfChord(keys: KeyWord): Key {
    if 4 in keys then 4 else if 5 in keys then 5 else if 6 in keys then 6 else 7
  }

  /** A step that presses a key and leaves exactly the keys of the chord down. */
  predicate CompletesChord(prev: KeyWord, keys: KeyWord) {
    keys == CHORD && !(CHORD <= prev)
  }

  lemma LeastIsRightmost(pressed: KeyWord)
    requires pressed <= CHORD && pressed != {}
    ensures LeastOfChord(pressed) in pressed && Rightmost(pressed) == {LeastOfChord(pressed)}
  {
    var k :| k in pressed;
    assert k in LowKeys(pressed);
    var low :| low in LowKeys(pressed) && Rightmost(pressed) == {low} && forall j :: j in pressed ==> low <= j;
    assert low in CHORD;
  }

  /** Whatever the state of the table, a step that completes the chord reports B unless B is held already. */
  lemma ChordIsReported(m: Machine, prev: KeyWord, keys: KeyWord)
    requires m.state <= LAST_STATE && m.action != B_DOWN && CompletesChord(prev, keys)
    ensures LeastOfChord(keys - prev) in keys - prev
    ensures Scan(m, prev, keys) == Step(Machine(m.state, B_DOWN, {LeastOfChord(keys - prev)}), B_DOWN)
  {
    NoneNew(prev, keys);
    LeastIsRightmost(keys - prev);
  }

  /** With B held: it is released when its release key goes up, and stays otherwise. */
  lemma HeldBStep(m: Machine, prev: KeyWord, keys: KeyWord, k: Key)
    requires m.state <= LAST_STATE && m.action == B_DOWN && m.release == {k} && k in prev
    ensures Scan(m, prev, keys) ==
            if k in keys then Step(m, NONE) else Step(Machine(0, B_DOWN + A_RELEASE - A_DOWN, {k}), B_RELEASE)
  {
    if k !in keys {
      assert k in prev - keys;
      assert keys * m.release == {};
    } else {
      assert k in keys * m.release;
    }
  }

  lemma RuleIsNotB(row: nat)
    requires row < RULES
    ensures |STATE_TABLE| == RULES && STATE_TABLE[row].action != B_DOWN && STATE_TABLE[row].action != B_RELEASE
  {
  }

  lemma {:induction false} WalkIsNotB(row: nat, state: nat, action: Action, down: KeyWord, up: KeyWord)
    requires row < |STATE_TABLE| ==> STATE_TABLE[row].state == state || action == NONE
    ensures var w := WalkFrom(row, state, action, down, up);
            w.Walked? ==> w.action != B_DOWN && w.action != B_RELEASE
    decreases RULES - row
  {
    if row >= RULES {
    } else {
      RuleIsNotB(row);
      WalkIsNotB(row + 1, state, NONE, down, up);
    }
  }

  /** No other step reports combo B or its release. */
  lemma OtherStepIsNotB(m: Machine, prev: KeyWord, keys: KeyWord)
    requires m.state <= LAST_STATE && m.action != B_DOWN && !CompletesChord(prev, keys)
    ensures var o := Scan(m, prev, keys);
            o.Step? ==> o.machine.action != B_DOWN && o.emitted != B_DOWN && o.emitted != B_RELEASE
  {
    NoneNew(prev, keys);
    OffsetIsARule(m.state);
    WalkIsNotB(STATE_OFFSET[m.state], m.state, m.action, keys - prev, prev - keys);
  }

  /** The release key of combo B after a run, when B is held: a matter of the masks alone. */
  function HeldB(masks: seq<KeyWord>): Option<Key> {
    if masks == [] then None
    else
      var before, keys := masks[..|masks| - 1], masks[|masks| - 1];
      match HeldB(before)
      case Some(k) => if k in keys then Some(k) else None
      case None =>
        if CompletesChord(Previous(before), keys) then Some(LeastOfChord(keys - Previous(before))) else None
  }

  /** What the last mask of a run reports. */
  function LastReport(masks: seq<KeyWord>): Action {
    if masks == [] then NONE
    else
      match MachineAfter(Next, masks[..|masks| - 1])
      case None => NONE
      case Some(m) =>
        if m.state > LAST_STATE then NONE
        else
          match Scan(m, Previous(masks[..|masks| - 1]), masks[|masks| - 1])
          case Lost => NONE
          case Step(_, emitted) => emitted
  }

  /** The machine holds B as `held` says. */
  predicate HoldsB(m: Machine, keys: KeyWord, held: Option<Key>) {
    match held
    case None => m.action != B_DOWN
    case Some(k) => m.action == B_DOWN && m.release == {k} && k in keys
  }

  lemma BStep(m: Machine, prev: KeyWord, keys: KeyWord, held: Option<Key>, held': Option<Key>)
    requires m.state <= LAST_STATE && HoldsB(m, prev, held) && Next(m, prev, keys).Some?
    requires held' == match held
                      case Some(k) => if k in keys then Some(k) else None
                      case None => if CompletesChord(prev, keys) then Some(LeastOfChord(keys - prev)) else None
    ensures var o := Scan(m, prev, keys);
            && o.Step? && HoldsB(o.machine, keys, held')
            && (o.emitted == B_DOWN <==> held.None? && held'.Some?)
            && (o.emitted == B_RELEASE <==> held.Some? && held'.None?)
  {
    match held
    case Some(k) => HeldBStep(m, prev, keys, k);
    case None =>
      if CompletesChord(prev, keys) {
        ChordIsReported(m, prev, keys);
      } else {
        OtherStepIsNotB(m, prev, keys);
      }
  }

  /**
   In every run that stays in the table combo B is held as the masks alone say, and it is reported down and
   released at exactly the steps that begin and end that.
   */
  lemma {:induction false} BIsHeldExactly(masks: seq<KeyWord>)
    requires MachineAfter(Next, masks).Some?
    ensures HoldsB(MachineAfter(Next, masks).value, Previous(masks), HeldB(masks))
    ensures masks != [] ==>
              var before := HeldB(masks[..|masks| - 1]);
              && (LastReport(masks) == B_DOWN <==> before.None? && HeldB(masks).Some?)
              && (LastReport(masks) == B_RELEASE <==> before.Some? && HeldB(masks).None?)
    decreases |masks|
  {
    if masks == [] {
    } else {
      var before, keys := masks[..|masks| - 1], masks[|masks| - 1];
      BIsHeldExactly(before);
      NextSteps();
      StateIsInTable(Next, before);
      BStep(MachineAfter(Next, before).value, Previous(before), keys, HeldB(before), HeldB(masks));
    }
  }

  // ----- The first chord of a run

  lemma {:induction false} NoChordNoB(masks: seq<KeyWord>)
    requires CHORD !in masks
    ensures HeldB(masks).None?
    decreases |masks|
  {
    if masks == [] {
    } else {
      NoChordNoB(masks[..|masks| - 1]);
      assert masks[|masks| - 1] in masks;
    }
  }

  lemma NoChordIsNotLost(masks: seq<KeyWord>)
    requires CHORD !in masks
    ensures MachineAfter(Next, masks).Some?
  {
    LostRunExactly(masks);
  }

  /** The first chord of a run is reported, in whatever order its keys went down and whatever came before. */
  lemma FirstChordIsReported(masks: seq<KeyWord>)
    requires CHORD !in masks && !(CHORD <= Previous(masks))
    ensures var k, run := LeastOfChord(CHORD - Previous(masks)), masks + [CHORD];
            && LastReport(run) == B_DOWN && k in CHORD - Previous(masks)
            && MachineAfter(Next, run).Some? && MachineAfter(Next, run).value.release == {k}
  {
    var run := masks + [CHORD];
    assert run[..|run| - 1] == masks;
    NoChordNoB(masks);
    NoChordIsNotLost(masks);
    BIsHeldExactly(masks);
    NextSteps();
    StateIsInTable(Next, masks);
    ChordIsReported(MachineAfter(Next, masks).value, Previous(masks), CHORD);
  }

  // ----- Paths through the table

  /** A run that has the machine in `state`, with no combo held, and leaves `keys` down. */
  predicate Reaches(masks: seq<KeyWord>, state: nat, keys: KeyWord) {
    && MachineAfter(Next, masks).Some? && Previous(masks) == keys
    && MachineAfter(Next, masks).value.state == state && !Held(MachineAfter(Next, masks).value)
  }

  /** The key edges of a step along a rule: its own key alone changes. */
  predicate Edits(r: Rule, prev: KeyWord, keys: KeyWord) {
    && keys != CHORD
    && if r.test.KeyDown? then r.key !in prev && keys == prev + {r.key} else r.key in prev && keys == prev - {r.key}
  }

  lemma EditsAreEdges(r: Rule, prev: KeyWord, keys: KeyWord)
    requires Edits(r, prev, keys)
    ensures keys - prev == (if r.test.KeyDown? then {r.key} else {})
    ensures prev - keys == (if r.test.KeyDown? then {} else {r.key})
    ensures keys - prev != {} || prev - keys != {}
  {
    if r.test.KeyDown? {
      assert r.key in keys - prev;
    } else {
      assert r.key in prev - keys;
    }
  }

  lemma NeighboursDiffer(row: nat)
    requires row + 1 < RULES
    ensures |STATE_TABLE| == RULES
    ensures STATE_TABLE[row].state == STATE_TABLE[row + 1].state ==> STATE_TABLE[row].key != STATE_TABLE[row + 1].key
  {
  }

  /** Past state 0 a state has at most two rules. */
  lemma TwoRulesOn(row: nat)
    requires 2 <= row && row + 2 < RULES
    ensures |STATE_TABLE| == RULES && STATE_TABLE[row].state < STATE_TABLE[row + 2].state
  {
  }

  lemma FirstRulesDiffer(row: nat, other: nat)
    requires other < row <= 4
    ensures |STATE_TABLE| == RULES
    ensures if row == 4 then STATE_TABLE[row].state > STATE_TABLE[other].state
            else STATE_TABLE[other].key != STATE_TABLE[row].key
  {
  }

  /** The rules of a state test different keys. */
  lemma RulesDiffer(row: nat, other: nat)
    requires other < row < RULES
    ensures |STATE_TABLE| == RULES
    ensures STATE_TABLE[other].state == STATE_TABLE[row].state ==> STATE_TABLE[other].key != STATE_TABLE[row].key
  {
    if row < 4 {
      FirstRulesDiffer(row, other);
    } else if row == other + 1 {
      NeighboursDiffer(other);
    } else if other < 2 {
      FirstRulesDiffer(4, other);
      StatesAscend(4, row);
    } else {
      TwoRulesOn(other);
      StatesAscend(other + 2, row);
    }
  }

  /** One key pressed or released as a rule asks: the machine takes that rule. */
  lemma RuleIsTaken(m: Machine, prev: KeyWord, keys: KeyWord, row: nat, r: Rule)
    requires row < |STATE_TABLE| && STATE_TABLE[row] == r && r.state == m.state < LAST_STATE && !Held(m)
    requires Edits(r, prev, keys)
    ensures Scan(m, prev, keys) ==
            Step(Machine(r.next, r.action, if r.action != NONE then Rightmost(keys - prev) else m.release), r.action)
  {
    EditsAreEdges(r, prev, keys);
    var down, up := keys - prev, prev - keys;
    forall other | 0 <= other < row ensures !Applies(other, m.state, down, up) {
      RulesDiffer(row, other);
    }
    assert Applies(row, m.state, down, up);
    TransitionIsFirstRule(m.state, m.action, down, up, row);
  }

  /** A run that goes on along a rule without an action. */
  lemma Follow(masks: seq<KeyWord>, prev: KeyWord, keys: KeyWord, row: nat, r: Rule)
    requires row < |STATE_TABLE| && STATE_TABLE[row] == r && r.state < LAST_STATE && r.action == NONE
    requires Reaches(masks, r.state, prev) && Edits(r, prev, keys)
    ensures Reaches(masks + [keys], r.next, keys) && LastReport(masks + [keys]) == NONE
  {
    RuleIsTaken(MachineAfter(Next, masks).value, prev, keys, row, r);
    AfterOne(Next, masks, keys);
    assert (masks + [keys])[..|masks|] == masks;
  }

  /** A run whose last step reported `action`, which `key` is to release. */
  predicate Reports(masks: seq<KeyWord>, state: nat, action: Action, key: Key) {
    && LastReport(masks) == action && MachineAfter(Next, masks).Some?
    && MachineAfter(Next, masks).value == Machine(state, action, {key})
  }

  /** A run that goes on along a rule that reports a combo. */
  lemma Conclude(masks: seq<KeyWord>, prev: KeyWord, keys: KeyWord, row: nat, r: Rule)
    requires row < |STATE_TABLE| && STATE_TABLE[row] == r && r.state < LAST_STATE && r.key < NUM_COMBO_KEYS
    requires r.test.KeyDown? && r.action != NONE && Reaches(masks, r.state, prev) && Edits(r, prev, keys)
    ensures Reports(masks + [keys], r.next, r.action, r.key)
  {
    RuleIsTaken(MachineAfter(Next, masks).value, prev, keys, row, r);
    EditsAreEdges(r, prev, keys);
    assert r.key in LowKeys({r.key});
    AfterOne(Next, masks, keys);
    assert (masks + [keys])[..|masks|] == masks;
  }

  /** The run goes on with `key` pressed and released, over the keys that stay down. */
  function Tapped(masks: seq<KeyWord>, keys: KeyWord, key: Key): seq<KeyWord> {
    masks + [keys + {key}] + [keys]
  }

  lemma Tap(masks: seq<KeyWord>, keys: KeyWord, key: Key, down: nat, up: nat, state: nat, mid: nat, next: nat)
    requires Reaches(masks, state, keys) && key !in keys && keys !! CHORD && state < LAST_STATE && mid < LAST_STATE
    requires down < |STATE_TABLE| && STATE_TABLE[down] == Rule(state, key, KeyDown, mid, NONE)
    requires up < |STATE_TABLE| && STATE_TABLE[up] == Rule(mid, key, KeyUp, next, NONE)
    ensures Reaches(Tapped(masks, keys, key), next, keys)
  {
    var more := keys + {key};
    assert 4 in CHORD && 5 in CHORD && !(4 in more && 5 in more);
    assert more - {key} == keys;
    Follow(masks, keys, more, down, STATE_TABLE[down]);
    Follow(masks + [more], more, keys, up, STATE_TABLE[up]);
  }

  // ----- Combo C

  /** From the point where keys 5 and 6 have gone down, in one of the three ways. */
  lemma NineAndTen(masks: seq<KeyWord>, keys: KeyWord)
    requires Reaches(masks, 6, keys) && 9 !in keys && 10 !in keys
    ensures Reports(masks + [keys + {9}] + [keys + {9} + {10}], 8, C_DOWN, 10)
  {
    var more, all := keys + {9}, keys + {9} + {10};
    assert 9 in more && 9 in all && 9 !in CHORD;
    assert STATE_TABLE[9] == Rule(6, 9, KeyDown, 7, 0) && STATE_TABLE[10] == Rule(7, 10, KeyDown, 8, 3);
    Follow(masks, keys, more, 9, STATE_TABLE[9]);
    Conclude(masks + [more], more, all, 10, STATE_TABLE[10]);
  }

  /** Keys 5, 6, 9 and 10 pressed one after the other. */
  lemma ComboCIsReported(masks: seq<KeyWord>, keys: KeyWord)
    requires Reaches(masks, 0, keys) && keys !! {5, 6, 9, 10} && !({4, 7} <= keys)
    ensures var held := keys + {5} + {6};
            Reports(masks + [keys + {5}] + [held] + [held + {9}] + [held + {9} + {10}], 8, C_DOWN, 10)
  {
    var five, held := keys + {5}, keys + {5} + {6};
    assert 6 in CHORD && 6 !in five && 4 in CHORD && 7 in CHORD && !(4 in held && 7 in held);
    assert STATE_TABLE[1] == Rule(0, 5, KeyDown, 5, 0) && STATE_TABLE[8] == Rule(5, 6, KeyDown, 6, 0);
    Follow(masks, keys, five, 1, STATE_TABLE[1]);
    Follow(masks + [five], five, held, 8, STATE_TABLE[8]);
    NineAndTen(masks + [five] + [held], held);
  }

  /** The same after key 4 was tapped, by the second rule of state 11. */
  lemma ComboCAfterFour(masks: seq<KeyWord>, keys: KeyWord)
    requires Reaches(masks, 0, keys) && keys !! {4, 5, 6, 7, 9, 10}
    ensures var held := keys + {5} + {6};
            var run := Tapped(masks, keys, 4) + [keys + {5}] + [held];
            Reports(run + [held + {9}] + [held + {9} + {10}], 8, C_DOWN, 10)
  {
    var five, held := keys + {5}, keys + {5} + {6};
    var run := Tapped(masks, keys, 4);
    assert 4 in CHORD && 4 !in five && 4 !in held;
    FourIsTapped(masks, keys);
    assert STATE_TABLE[13] == Rule(10, 5, KeyDown, 11, 0) && STATE_TABLE[15] == Rule(11, 6, KeyDown, 6, 0);
    Follow(run, keys, five, 13, STATE_TABLE[13]);
    Follow(run + [five], five, held, 15, STATE_TABLE[15]);
    NineAndTen(run + [five] + [held], held);
  }

  lemma FourIsTapped(masks: seq<KeyWord>, keys: KeyWord)
    requires Reaches(masks, 0, keys) && keys !! CHORD
    ensures Reaches(Tapped(masks, keys, 4), 10, keys)
  {
    assert 4 in CHORD;
    assert STATE_TABLE[2] == Rule(0, 4, KeyDown, 9, 0) && STATE_TABLE[12] == Rule(9, 4, KeyUp, 10, 0);
    Tap(masks, keys, 4, 2, 12, 0, 9, 10);
  }

  /** And in the middle of combo E, by the second rule of state 26: key 4 stays down. */
  lemma ComboCWithinE(masks: seq<KeyWord>, keys: KeyWord)
    requires Reaches(masks, 0, keys) && keys !! {0, 4, 5, 6, 7, 8, 9, 10}
    ensures var held := keys + {4} + {6};
            var run := EightsAndZeros(masks, keys) + [keys + {4}] + [held];
            Reports(run + [held + {9}] + [held + {9} + {10}], 8, C_DOWN, 10)
  {
    var four, held := keys + {4}, keys + {4} + {6};
    var run := EightsAndZeros(masks, keys);
    assert 5 in CHORD && 5 !in four && 5 !in held;
    EStarts(masks, keys);
    assert STATE_TABLE[29] == Rule(25, 4, KeyDown, 26, 0) && STATE_TABLE[31] == Rule(26, 6, KeyDown, 6, 0);
    Follow(run, keys, four, 29, STATE_TABLE[29]);
    Follow(run + [four], four, held, 31, STATE_TABLE[31]);
    NineAndTen(run + [four] + [held], held);
  }

  // ----- Combo D

  /** The end of combo D: the second tap of key 6, and key 7. */
  lemma SixAndSeven(masks: seq<KeyWord>, keys: KeyWord)
    requires Reaches(masks, 14, keys) && keys !! CHORD
    ensures Reports(Tapped(masks, keys, 6) + [keys + {7}], 17, D_DOWN, 7)
  {
    assert 6 in CHORD && 7 in CHORD && 4 in CHORD && 4 !in keys + {7};
    assert STATE_TABLE[18] == Rule(14, 6, KeyDown, 15, 0) && STATE_TABLE[19] == Rule(15, 6, KeyUp, 16, 0);
    Tap(masks, keys, 6, 18, 19, 14, 15, 16);
    assert STATE_TABLE[20] == Rule(16, 7, KeyDown, 17, 4);
    Conclude(Tapped(masks, keys, 6), keys, keys + {7}, 20, STATE_TABLE[20]);
  }

  lemma SixIsTapped(masks: seq<KeyWord>, keys: KeyWord)
    requires Reaches(masks, 12, keys) && keys !! CHORD
    ensures Reaches(Tapped(masks, keys, 6), 14, keys)
  {
    assert 6 in CHORD;
    assert STATE_TABLE[16] == Rule(12, 6, KeyDown, 13, 0) && STATE_TABLE[17] == Rule(13, 6, KeyUp, 14, 0);
    Tap(masks, keys, 6, 16, 17, 12, 13, 14);
  }

  /** Keys 4, 5, 6 and 6 tapped, and key 7 pressed. */
  lemma ComboDIsReported(masks: seq<KeyWord>, keys: KeyWord)
    requires Reaches(masks, 0, keys) && keys !! CHORD
    ensures var run := Tapped(Tapped(Tapped(Tapped(masks, keys, 4), keys, 5), keys, 6), keys, 6);
            Reports(run + [keys + {7}], 17, D_DOWN, 7)
  {
    var run := Tapped(masks, keys, 4);
    FourIsTapped(masks, keys);
    assert 5 in CHORD;
    assert STATE_TABLE[13] == Rule(10, 5, KeyDown, 11, 0) && STATE_TABLE[14] == Rule(11, 5, KeyUp, 12, 0);
    Tap(run, keys, 5, 13, 14, 10, 11, 12);
    SixIsTapped(Tapped(run, keys, 5), keys);
    SixAndSeven(Tapped(Tapped(run, keys, 5), keys, 6), keys);
  }

  /** Combo D out of combo E, by the second rule of state 31. */
  lemma ComboDAfterFour(masks: seq<KeyWord>, keys: KeyWord)
    requires Reaches(masks, 0, keys) && keys !! {0, 4, 5, 6, 7, 8}
    ensures var run := FourFiveFour(EightsAndZeros(masks, keys), keys);
            Reports(Tapped(Tapped(run, keys, 6), keys, 6) + [keys + {7}], 17, D_DOWN, 7)
  {
    var run := FourFiveFour(EightsAndZeros(masks, keys), keys);
    EStarts(masks, keys);
    EGoesOn(EightsAndZeros(masks, keys), keys);
    assert STATE_TABLE[37] == Rule(31, 6, KeyDown, 13, 0) && STATE_TABLE[17] == Rule(13, 6, KeyUp, 14, 0);
    Tap(run, keys, 6, 37, 17, 31, 13, 14);
    SixAndSeven(Tapped(run, keys, 6), keys);
  }

  /** And one tap later, by the second rule of state 33. */
  lemma ComboDAfterFive(masks: seq<KeyWord>, keys: KeyWord)
    requires Reaches(masks, 0, keys) && keys !! {0, 4, 5, 6, 7, 8}
    ensures var run := Tapped(FourFiveFour(EightsAndZeros(masks, keys), keys), keys, 5);
            Reports(Tapped(Tapped(Tapped(run, keys, 5), keys, 6), keys, 6) + [keys + {7}], 17, D_DOWN, 7)
  {
    var run := FourFiveFour(EightsAndZeros(masks, keys), keys);
    EStarts(masks, keys);
    EGoesOn(EightsAndZeros(masks, keys), keys);
    FiveIsTapped(run, keys);
    var five := Tapped(run, keys, 5);
    assert STATE_TABLE[40] == Rule(33, 5, KeyDown, 11, 0) && STATE_TABLE[14] == Rule(11, 5, KeyUp, 12, 0);
    Tap(five, keys, 5, 40, 14, 33, 11, 12);
    SixIsTapped(Tapped(five, keys, 5), keys);
    SixAndSeven(Tapped(Tapped(five, keys, 5), keys, 6), keys);
  }

  // ----- Combo E

  function EightsAndZeros(masks: seq<KeyWord>, keys: KeyWord): seq<KeyWord> {
    Tapped(Tapped(Tapped(Tapped(masks, keys, 8), keys, 8), keys, 0), keys, 0)
  }

  function FourFiveFour(masks: seq<KeyWord>, keys: KeyWord): seq<KeyWord> {
    Tapped(Tapped(Tapped(masks, keys, 4), keys, 5), keys, 4)
  }

  lemma EStarts(masks: seq<KeyWord>, keys: KeyWord)
    requires Reaches(masks, 0, keys) && keys !! CHORD && 0 !in keys && 8 !in keys
    ensures Reaches(EightsAndZeros(masks, keys), 25, keys)
  {
    var one := Tapped(masks, keys, 8);
    assert STATE_TABLE[3] == Rule(0, 8, KeyDown, 18, 0) && STATE_TABLE[22] == Rule(18, 8, KeyUp, 19, 0);
    Tap(masks, keys, 8, 3, 22, 0, 18, 19);
    assert STATE_TABLE[23] == Rule(19, 8, KeyDown, 20, 0) && STATE_TABLE[24] == Rule(20, 8, KeyUp, 21, 0);
    Tap(one, keys, 8, 23, 24, 19, 20, 21);
    ZerosAreTapped(Tapped(one, keys, 8), keys);
  }

  lemma ZerosAreTapped(masks: seq<KeyWord>, keys: KeyWord)
    requires Reaches(masks, 21, keys) && keys !! CHORD && 0 !in keys
    ensures Reaches(Tapped(Tapped(masks, keys, 0), keys, 0), 25, keys)
  {
    assert STATE_TABLE[25] == Rule(21, 0, KeyDown, 22, 0) && STATE_TABLE[26] == Rule(22, 0, KeyUp, 23, 0);
    Tap(masks, keys, 0, 25, 26, 21, 22, 23);
    assert STATE_TABLE[27] == Rule(23, 0, KeyDown, 24, 0) && STATE_TABLE[28] == Rule(24, 0, KeyUp, 25, 0);
    Tap(Tapped(masks, keys, 0), keys, 0, 27, 28, 23, 24, 25);
  }

  lemma EGoesOn(masks: seq<KeyWord>, keys: KeyWord)
    requires Reaches(masks, 25, keys) && keys !! CHORD
    ensures Reaches(FourFiveFour(masks, keys), 31, keys)
  {
    assert 4 in CHORD && 5 in CHORD;
    assert STATE_TABLE[29] == Rule(25, 4, KeyDown, 26, 0) && STATE_TABLE[30] == Rule(26, 4, KeyUp, 27, 0);
    Tap(masks, keys, 4, 29, 30, 25, 26, 27);
    assert STATE_TABLE[32] == Rule(27, 5, KeyDown, 28, 0) && STATE_TABLE[33] == Rule(28, 5, KeyUp, 29, 0);
    Tap(Tapped(masks, keys, 4), keys, 5, 32, 33, 27, 28, 29);
    assert STATE_TABLE[34] == Rule(29, 4, KeyDown, 30, 0) && STATE_TABLE[35] == Rule(30, 4, KeyUp, 31, 0);
    Tap(Tapped(Tapped(masks, keys, 4), keys, 5), keys, 4, 34, 35, 29, 30, 31);
  }

  lemma FiveIsTapped(masks: seq<KeyWord>, keys: KeyWord)
    requires Reaches(masks, 31, keys) && keys !! CHORD
    ensures Reaches(Tapped(masks, keys, 5), 33, keys)
  {
    assert 5 in CHORD;
    assert STATE_TABLE[36] == Rule(31, 5, KeyDown, 32, 0) && STATE_TABLE[38] == Rule(32, 5, KeyUp, 33, 0);
    Tap(masks, keys, 5, 36, 38, 31, 32, 33);
  }

  /** Keys 8, 8, 0, 0, 4, 5, 4, 5 and 7 tapped over the keys that stay down, and key 6 pressed. */
  function ERun(masks: seq<KeyWord>, keys: KeyWord): seq<KeyWord> {
    Tapped(Tapped(FourFiveFour(EightsAndZeros(masks, keys), keys), keys, 5), keys, 7) + [keys + {6}]
  }

  lemma ComboEIsReported(masks: seq<KeyWord>, keys: KeyWord)
    requires Reaches(masks, 0, keys) && keys !! {0, 4, 5, 6, 7, 8}
    ensures Reports(ERun(masks, keys), LAST_STATE, E_DOWN, 6)
  {
    var run := FourFiveFour(EightsAndZeros(masks, keys), keys);
    EStarts(masks, keys);
    EGoesOn(EightsAndZeros(masks, keys), keys);
    FiveIsTapped(run, keys);
    var five := Tapped(run, keys, 5);
    assert STATE_TABLE[39] == Rule(33, 7, KeyDown, 34, 0) && STATE_TABLE[41] == Rule(34, 7, KeyUp, 35, 0);
    Tap(five, keys, 7, 39, 41, 33, 34, 35);
    assert STATE_TABLE[42] == Rule(35, 6, KeyDown, LAST_STATE, E_DOWN);
    assert 4 in CHORD && 4 !in keys + {6};
    Conclude(Tapped(five, keys, 7), keys, keys + {6}, 42, STATE_TABLE[42]);
  }

  // ----- A run that is lost

  /** With E held, more keys are pressed, key 0 is released so that the chord is left, and key 1 is pressed. */
  const MORE: KeyWord := {0, 4, 5, 6, 7}
  const OTHER: KeyWord := {1, 4, 5, 6, 7}

  lemma HeldOn(m: Machine, prev: KeyWord)
    requires m == Machine(LAST_STATE, E_DOWN, {6}) && prev == {6}
    ensures Next(m, prev, MORE) == Some(m)
  {
    assert 0 in MORE && 0 !in CHORD && 6 in MORE && 6 in MORE * m.release && 0 in MORE - prev;
  }

  lemma ForgetsAfterMore(m: Machine)
    requires m == Machine(LAST_STATE, E_DOWN, {6})
    ensures Forgets(m, MORE, CHORD)
  {
    assert 0 in MORE && 0 !in CHORD;
  }

  /** The run that taps combo E from start-up, forgets it and goes on. */
  function LostRun(): seq<KeyWord> {
    ERun([], {}) + [MORE] + [CHORD] + [OTHER]
  }

  /** A run from start-up that is lost. */
  lemma LostRunIsLost()
    ensures MachineAfter(Next, LostRun()).None?
  {
    var run, m := ERun([], {}), Machine(LAST_STATE, E_DOWN, {6});
    ComboEIsReported([], {});
    HeldOn(m, {6});
    assert Previous(run) == {6};
    AfterOne(Next, run, MORE);
    ForgetsAfterMore(m);
    ForgetNext(m, MORE, CHORD);
    AfterOne(Next, run + [MORE], CHORD);
    var m' := Next(m, MORE, CHORD).value;
    assert 1 in OTHER && 1 !in CHORD && 6 in OTHER;
    LostNext(m', CHORD, OTHER);
    AfterOne(Next, run + [MORE] + [CHORD], OTHER);
  }
}
