/** Runs of a state machine: sequences of states, each of which follows from the one before. */
module Runs {

  ghost predicate StepAt<S(!new)>(run: seq<S>, next: (S, S) -> bool, i: nat) {
    i + 1 < |run| && next(run[i], run[i + 1])
  }

  ghost predicate Run<S(!new)>(run: seq<S>, next: (S, S) -> bool) {
    |run| > 0 && forall i :: 0 <= i < |run| - 1 ==> StepAt(run, next, i)
  }

  /** What holds at the start and is kept by every step holds at every state. */
  lemma {:induction false} Preserved<S(!new)>(run: seq<S>, next: (S, S) -> bool, kept: S -> bool, n: nat)
    requires Run(run, next) && n < |run| && kept(run[0])
    requires forall s, t :: kept(s) && next(s, t) ==> kept(t)
    ensures kept(run[n])
  {
    if n > 0 {
      Preserved(run, next, kept, n - 1);
      assert StepAt(run, next, n - 1);
    }
  }

  /** A reflexive and transitive relation that every step respects holds from any state to
      any later one. */
  lemma {:induction false} Spanned<S(!new)>(run: seq<S>, next: (S, S) -> bool, relation: (S, S) -> bool, m: nat, n: nat)
    requires Run(run, next) && m <= n < |run|
    requires forall s :: relation(s, s)
    requires forall s, t :: next(s, t) ==> relation(s, t)
    requires forall s, t, u :: relation(s, t) && relation(t, u) ==> relation(s, u)
    ensures relation(run[m], run[n])
    decreases n - m
  {
    if m < n {
      Spanned(run, next, relation, m, n - 1);
      assert StepAt(run, next, n - 1);
    }
  }

  lemma Extended<S(!new)>(run: seq<S>, next: (S, S) -> bool, t: S)
    requires Run(run, next) && next(run[|run| - 1], t)
    ensures Run(run + [t], next) && (run + [t])[0] == run[0] && (run + [t])[|run|] == t
  {
    var all := run + [t];
    forall i | 0 <= i < |all| - 1 ensures StepAt(all, next, i) {
      assert i < |run| - 1 ==> StepAt(run, next, i) && all[i + 1] == run[i + 1];
    }
  }

  /** A run, and one that goes on from its end. */
  lemma Joined<S(!new)>(run: seq<S>, more: seq<S>, next: (S, S) -> bool) returns (whole: seq<S>)
    requires Run(run, next) && Run(more, next) && run[|run| - 1] == more[0]
    ensures Run(whole, next) && whole[0] == run[0] && whole[|whole| - 1] == more[|more| - 1]
  {
    whole := run + more[1..];
    forall i | 0 <= i < |whole| - 1 ensures StepAt(whole, next, i) {
      if i < |run| - 1 {
        assert StepAt(run, next, i);
      } else {
        assert StepAt(more, next, i - (|run| - 1));
        assert whole[i] == more[i - (|run| - 1)] && whole[i + 1] == more[i + 1 - (|run| - 1)];
      }
    }
  }

  lemma ThreeSteps<S(!new)>(next: (S, S) -> bool, t: S, a: S, b: S, c: S) returns (run: seq<S>)
    requires next(t, a) && next(a, b) && next(b, c)
    ensures Run(run, next) && run[0] == t && run[|run| - 1] == c
  {
    Extended([t], next, a);
    Extended([t] + [a], next, b);
    Extended([t] + [a] + [b], next, c);
    run := [t] + [a] + [b] + [c];
  }
}
