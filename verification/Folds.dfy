/** Runs: a step function applied along a sequence. */
module Folds {

  /** The state after all of `es` have been taken, first to last. */
  function Fold<S, E>(step: (S, E) -> S, s: S, es: seq<E>): S
    decreases es
  {
    if es == [] then s else Fold(step, step(s, es[0]), es[1..])
  }

  lemma {:induction false} FoldConcat<S, E>(step: (S, E) -> S, s: S, a: seq<E>, b: seq<E>)
    ensures Fold(step, s, a + b) == Fold(step, Fold(step, s, a), b)
    decreases a
  {
    if a == [] {
      assert a + b == b;
    } else {
      assert (a + b)[1..] == a[1..] + b;
      FoldConcat(step, step(s, a[0]), a[1..], b);
    }
  }

  lemma FoldOne<S, E>(step: (S, E) -> S, s: S, e: E)
    ensures Fold(step, s, [e]) == step(s, e)
  {
    var es := [e];
    assert es[1..] == [];
  }

  lemma FoldTwo<S, E>(step: (S, E) -> S, s: S, a: E, b: E)
    ensures Fold(step, s, [a, b]) == step(step(s, a), b)
  {
    FoldOne(step, step(s, a), b);
    var es := [a, b];
    assert es[1..] == [b];
  }

  lemma FoldNext<S, E>(step: (S, E) -> S, s: S, es: seq<E>, e: E)
    ensures Fold(step, s, es + [e]) == step(Fold(step, s, es), e)
  {
    FoldConcat(step, s, es, [e]);
    FoldOne(step, Fold(step, s, es), e);
  }
}
