/**
 Runs of the combo recognizer that read past its rule table: once the chord has made it
 forget that combo E is held, the table has no rule for most of what may come next.
 */
module ComboLost {
  import opened Bytes
  import opened Keys
  import opened Combo

  // ----- Steps stay in the table or leave it

  lemma {:induction false} WalkIsInTable(row: nat, state: nat, action: Action, down: KeyWord, up: KeyWord)
    ensures var w := WalkFrom(row, state, action, down, up);
            w.Walked? ==> w.next <= LAST_STATE && (w.next == LAST_STATE ==> w.action == E_DOWN)
    decreases RULES - row
  {
    if row >= RULES {
    } else {
      RuleIsInRange(row);
      RuleTo36(row);
      WalkIsInTable(row + 1, state, NONE, down, up);
    }
  }

  lemma RuleTo36(row: nat)
    requires row < RULES
    ensures |STATE_TABLE| == RULES
    ensures STATE_TABLE[row].next == LAST_STATE ==> STATE_TABLE[row].action == E_DOWN
  {
  }

  /** What a step does to a machine that is not in the last state, or still holds a combo there. */
  lemma StepIsInTable(m: Machine, prev: KeyWord, keys: KeyWord)
    requires m.state <= LAST_STATE
    ensures var o := Scan(m, prev, keys);
            o.Step? ==>
              && o.machine.state <= LAST_STATE
              && (o.machine.state == LAST_STATE && !Held(o.machine) ==>
                    m.state == LAST_STATE &&
                    ((keys == prev && o.machine == m) || (keys == CHORD && keys - prev == {} && m.action != B_DOWN)))
  {
    OffsetIsARule(m.state);
    var down, up := keys - prev, prev - keys;
    if down == {} && up == {} {
      assert keys == prev;
    }
    WalkIsInTable(STATE_OFFSET[m.state], m.state, m.action, down, up);
  }

  // ----- What a step can do, without the table

  type Stepper = (Machine, KeyWord, KeyWord) -> Option<Machine>

  /** The machine after one more mask, unless the walk leaves the table. */
  function Next(m: Machine, prev: KeyWord, keys: KeyWord): Option<Machine> {
    if m.state > LAST_STATE then None
    else
      match Scan(m, prev, keys)
      case Lost => None
      case Step(m', _) => Some(m')
  }

  /** In the last state with no combo held. */
  predicate Unheld(m: Option<Machine>) {
    m.Some? && m.value.state == LAST_STATE && !Held(m.value)
  }

  /** The chord, reached by releasing keys only, while combo E is held. */
  predicate Forgets(m: Machine, prev: KeyWord, keys: KeyWord) {
    && m.state == LAST_STATE && Held(m) && m.action != B_DOWN
    && keys == CHORD && keys != prev && keys <= prev
  }

  /** Where the last state comes into it. */
  predicate IsStep(m: Machine, prev: KeyWord, keys: KeyWord, m': Option<Machine>) {
    && (m'.Some? ==> m'.value.state <= LAST_STATE)
    && (m'.None? <==> Unheld(Some(m)) && keys != prev && keys != CHORD && 6 !in prev - keys)
    && (Unheld(m') ==> Forgets(m, prev, keys) || (Unheld(Some(m)) && (keys == prev || keys == CHORD)))
    && (Forgets(m, prev, keys) || (Unheld(Some(m)) && keys == prev) ==> Unheld(m'))
  }

  lemma LostNext(m: Machine, prev: KeyWord, keys: KeyWord)
    requires m.state <= LAST_STATE
    ensures Next(m, prev, keys).None? <==> Unheld(Some(m)) && keys != prev && keys != CHORD && 6 !in prev - keys
  {
    LostExactly(m, keys - prev, prev - keys);
    if keys - prev == {} && prev - keys == {} {
      assert keys == prev;
    }
  }

  lemma NoneNew(prev: KeyWord, keys: KeyWord)
    ensures keys - prev == {} <==> keys <= prev
  {
    if keys - prev == {} {
      forall k | k in keys ensures k in prev {
        assert k !in keys - prev;
      }
    }
  }

  lemma UnheldNext(m: Machine, prev: KeyWord, keys: KeyWord)
    requires m.state <= LAST_STATE && Unheld(Next(m, prev, keys))
    ensures Forgets(m, prev, keys) || (Unheld(Some(m)) && (keys == prev || keys == CHORD))
  {
    StepIsInTable(m, prev, keys);
    NoneNew(prev, keys);
  }

  lemma ForgetNext(m: Machine, prev: KeyWord, keys: KeyWord)
    requires Forgets(m, prev, keys)
    ensures Unheld(Next(m, prev, keys))
  {
    NoneNew(prev, keys);
    NoneNew(keys, prev);
    assert prev - keys != {} || prev == keys;
  }

  lemma StayNext(m: Machine, keys: KeyWord)
    requires m.state <= LAST_STATE
    ensures Next(m, keys, keys) == Some(m)
  {
    NoneNew(keys, keys);
  }

  lemma NextIsStep(m: Machine, prev: KeyWord, keys: KeyWord)
    requires m.state <= LAST_STATE
    ensures IsStep(m, prev, keys, Next(m, prev, keys))
  {
    StepIsInTable(m, prev, keys);
    LostNext(m, prev, keys);
    StayNext(m, prev);
    if Unheld(Next(m, prev, keys)) {
      UnheldNext(m, prev, keys);
    }
    if Forgets(m, prev, keys) {
      ForgetNext(m, prev, keys);
    }
  }

  ghost predicate Steps(next: Stepper) {
    forall m: Machine, prev: KeyWord, keys: KeyWord {:trigger next(m, prev, keys)} ::
      m.state <= LAST_STATE ==> IsStep(m, prev, keys, next(m, prev, keys))
  }

  lemma NextSteps()
    ensures Steps(Next)
  {
    forall m: Machine, prev: KeyWord, keys: KeyWord | m.state <= LAST_STATE
      ensures IsStep(m, prev, keys, Next(m, prev, keys))
    {
      NextIsStep(m, prev, keys);
    }
  }

  // ----- Runs from start-up

  /** The key mask before the next one. */
  function Previous(masks: seq<KeyWord>): KeyWord {
    if masks == [] then {} else masks[|masks| - 1]
  }

  /** The machine after a run from start-up, unless the run has left the table. */
  function MachineAfter(next: Stepper, masks: seq<KeyWord>): Option<Machine> {
    if masks == [] then Some(IDLE)
    else
      var before := masks[..|masks| - 1];
      match MachineAfter(next, before)
      case None => None
      case Some(m) => next(m, Previous(before), masks[|masks| - 1])
  }

  lemma AfterOne(next: Stepper, masks: seq<KeyWord>, keys: KeyWord)
    requires MachineAfter(next, masks).Some?
    ensures MachineAfter(next, masks + [keys]) == next(MachineAfter(next, masks).value, Previous(masks), keys)
    ensures Previous(masks + [keys]) == keys
  {
    assert (masks + [keys])[..|masks|] == masks;
  }

  lemma {:induction false} StateIsInTable(next: Stepper, masks: seq<KeyWord>)
    requires Steps(next)
    ensures MachineAfter(next, masks).Some? ==> MachineAfter(next, masks).value.state <= LAST_STATE
    decreases |masks|
  {
    if masks == [] {
    } else {
      StateIsInTable(next, masks[..|masks| - 1]);
    }
  }

  lemma LastIsStep(next: Stepper, masks: seq<KeyWord>)
    requires Steps(next) && masks != [] && MachineAfter(next, masks[..|masks| - 1]).Some?
    ensures var n := |masks| - 1;
            IsStep(MachineAfter(next, masks[..n]).value, Previous(masks[..n]), masks[n], MachineAfter(next, masks))
  {
    StateIsInTable(next, masks[..|masks| - 1]);
  }

  /** Mask `j` makes the machine forget combo E. */
  predicate ForgetsE(next: Stepper, masks: seq<KeyWord>, j: nat)
    requires j < |masks|
  {
    var m := MachineAfter(next, masks[..j]);
    m.Some? && Forgets(m.value, Previous(masks[..j]), masks[j])
  }

  /** From mask `j + 1` on nothing changes before mask `n`. */
  predicate StaysFrom(masks: seq<KeyWord>, j: nat, n: nat)
    requires n <= |masks|
  {
    forall l :: j < l < n ==> masks[l] == CHORD
  }

  lemma ForgetsPrefix(next: Stepper, masks: seq<KeyWord>, n: nat, j: nat)
    requires j < n <= |masks|
    ensures ForgetsE(next, masks[..n], j) == ForgetsE(next, masks, j)
    ensures StaysFrom(masks[..n], j, n) == StaysFrom(masks, j, n)
  {
    assert masks[..n][..j] == masks[..j];
  }

  /** In the last state with no combo held, combo E has been forgotten, and the keys have not changed since. */
  lemma {:induction false} UnheldIsForgotten(next: Stepper, masks: seq<KeyWord>) returns (j: nat)
    requires Steps(next) && Unheld(MachineAfter(next, masks))
    ensures j < |masks| && ForgetsE(next, masks, j) && StaysFrom(masks, j, |masks|) && Previous(masks) == CHORD
    decreases |masks|
  {
    var n := |masks| - 1;
    LastIsStep(next, masks);
    if ForgetsE(next, masks, n) {
      j := n;
    } else {
      j := UnheldIsForgotten(next, masks[..n]);
      ForgetsPrefix(next, masks, n, j);
      assert masks[n] == CHORD;
    }
  }

  // ----- Lost runs

  /** E is forgotten at `j`, and `k` is the first mask that differs from the chord: key 6 is still down in it. */
  predicate LosesAt(next: Stepper, masks: seq<KeyWord>, j: nat, k: nat)
    requires j < k < |masks|
  {
    ForgetsE(next, masks, j) && StaysFrom(masks, j, k) && masks[k] != CHORD && 6 in masks[k]
  }

  ghost predicate Loses(next: Stepper, masks: seq<KeyWord>) {
    exists j: nat, k: nat :: j < k < |masks| && LosesAt(next, masks, j, k)
  }

  lemma LosesPrefix(next: Stepper, masks: seq<KeyWord>, n: nat, j: nat, k: nat)
    requires j < k < n <= |masks|
    ensures LosesAt(next, masks[..n], j, k) == LosesAt(next, masks, j, k)
  {
    ForgetsPrefix(next, masks, n, j);
    assert StaysFrom(masks[..n], j, k) == StaysFrom(masks, j, k);
  }

  /** Once E is forgotten the machine stays as it is while the chord does. */
  lemma {:induction false} StaysUnheld(next: Stepper, masks: seq<KeyWord>, j: nat, n: nat)
    requires Steps(next) && j < n <= |masks| && ForgetsE(next, masks, j) && StaysFrom(masks, j, n)
    ensures Unheld(MachineAfter(next, masks[..n])) && Previous(masks[..n]) == CHORD
    decreases n
  {
    var last := n - 1;
    assert masks[..n][..last] == masks[..last];
    if last == j {
    } else {
      StaysUnheld(next, masks, j, last);
    }
    LastIsStep(next, masks[..n]);
  }

  lemma {:induction false} LostStays(next: Stepper, masks: seq<KeyWord>, n: nat)
    requires n <= |masks| && MachineAfter(next, masks[..n]).None?
    ensures MachineAfter(next, masks).None?
    decreases |masks|
  {
    if n == |masks| {
      assert masks[..n] == masks;
    } else {
      assert masks[..|masks| - 1][..n] == masks[..n];
      LostStays(next, masks[..|masks| - 1], n);
    }
  }

  lemma LosesIsLost(next: Stepper, masks: seq<KeyWord>, j: nat, k: nat)
    requires Steps(next) && j < k < |masks| && LosesAt(next, masks, j, k)
    ensures MachineAfter(next, masks).None?
  {
    StaysUnheld(next, masks, j, k);
    assert masks[..k + 1][..k] == masks[..k];
    LastIsStep(next, masks[..k + 1]);
    LostStays(next, masks, k + 1);
  }

  lemma LostLast(next: Stepper, masks: seq<KeyWord>)
    requires Steps(next) && masks != [] && MachineAfter(next, masks).None?
    requires MachineAfter(next, masks[..|masks| - 1]).Some?
    ensures Loses(next, masks)
  {
    var n := |masks| - 1;
    LastIsStep(next, masks);
    var j := UnheldIsForgotten(next, masks[..n]);
    ForgetsPrefix(next, masks, n, j);
    assert LosesAt(next, masks, j, n);
  }

  lemma {:induction false} LostIsLoses(next: Stepper, masks: seq<KeyWord>)
    requires Steps(next) && MachineAfter(next, masks).None?
    ensures Loses(next, masks)
    decreases |masks|
  {
    var n := |masks| - 1;
    if MachineAfter(next, masks[..n]).Some? {
      LostLast(next, masks);
    } else {
      LostIsLoses(next, masks[..n]);
      var j: nat, k: nat :| j < k < n && LosesAt(next, masks[..n], j, k);
      LosesPrefix(next, masks, n, j, k);
    }
  }

  /**
   A run from start-up reads past the table if and only if the chord makes it forget combo E and key 6 is still
   down when the keys next change.
   */
  lemma LostRunExactly(masks: seq<KeyWord>)
    ensures MachineAfter(Next, masks).None? <==> Loses(Next, masks)
  {
    NextSteps();
    if Loses(Next, masks) {
      var j: nat, k: nat :| j < k < |masks| && LosesAt(Next, masks, j, k);
      LosesIsLost(Next, masks, j, k);
    } else if MachineAfter(Next, masks).None? {
      LostIsLoses(Next, masks);
    }
  }
}
