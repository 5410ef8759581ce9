/** Runs of a transition system: a step function applied to one event after the other. */
module Runs {
  function After<S, E>(step: (S, E) -> S, s: S, run: seq<E>): S {
    if run == [] then s else step(After(step, s, run[..|run| - 1]), run[|run| - 1])
  }

  lemma {:induction false} AfterConcat<S, E>(step: (S, E) -> S, s: S, a: seq<E>, b: seq<E>)
    ensures After(step, s, a + b) == After(step, After(step, s, a), b)
    decreases |b|
  {
    if b == [] {
      assert a + b == a;
    } else {
      assert (a + b)[..|a + b| - 1] == a + b[..|b| - 1];
      AfterConcat(step, s, a, b[..|b| - 1]);
    }
  }

  lemma AfterFirst<S, E>(step: (S, E) -> S, s: S, e: E, run: seq<E>)
    ensures After(step, s, [e] + run) == After(step, step(s, e), run)
  {
    assert [e][..0] == [];
    assert After(step, s, [e]) == step(s, e);
    AfterConcat(step, s, [e], run);
  }

  lemma AfterTwo<S, E>(step: (S, E) -> S, s: S, e: E, f: E)
    ensures After(step, s, [e, f]) == step(step(s, e), f)
  {
    assert [e, f] == [e] + ([f] + []);
    AfterFirst(step, s, e, [f] + []);
    AfterFirst(step, step(s, e), f, []);
  }

  /** What holds at first, and is kept by exactly the good steps, holds throughout exactly if all are good. */
  lemma {:induction false} ThroughoutIff(holds: nat -> bool, good: nat -> bool, n: nat)
    requires holds(0) && forall m: nat :: m < n && holds(m) ==> (holds(m + 1) <==> good(m))
    ensures (forall m: nat :: m <= n ==> holds(m)) <==> forall i: nat :: i < n ==> good(i)
    decreases n
  {
    if n > 0 {
      ThroughoutIff(holds, good, n - 1);
      assert holds(n - 1) ==> (holds(n - 1 + 1) <==> good(n - 1));
    }
  }
}
