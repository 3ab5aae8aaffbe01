/** State machines given by a partial step function, and their runs. */
module Machines {
  datatype Option<+T> = None | Some(value: T)

  /** Where a run leads, if all its steps are possible. */
  function Run<S, A>(next: (S, A) -> Option<S>, s: S, steps: seq<A>): Option<S>
    decreases |steps|
  {
    if steps == [] then Some(s)
    else
      match next(s, steps[0])
      case None => None
      case Some(t) => Run(next, t, steps[1..])
  }

  lemma {:induction false} RunsCompose<S, A>(next: (S, A) -> Option<S>, s: S, a: seq<A>, b: seq<A>)
    requires Run(next, s, a).Some?
    ensures Run(next, s, a + b) == Run(next, Run(next, s, a).value, b)
    decreases |a|
  {
    if a == [] {
      assert a + b == b;
    } else {
      assert (a + b)[1..] == a[1..] + b;
      RunsCompose(next, next(s, a[0]).value, a[1..], b);
    }
  }

  lemma {:induction false} StuckStaysStuck<S, A>(next: (S, A) -> Option<S>, s: S, a: seq<A>, b: seq<A>)
    requires Run(next, s, a).None?
    ensures Run(next, s, a + b).None?
    decreases |a|
  {
    assert (a + b)[1..] == a[1..] + b;
    if next(s, a[0]).Some? {
      StuckStaysStuck(next, next(s, a[0]).value, a[1..], b);
    }
  }

  lemma OneStep<S, A>(next: (S, A) -> Option<S>, s: S, a: A)
    ensures Run(next, s, [a]) == next(s, a)
  {
    assert [a][1..] == [];
    if next(s, a).Some? {
      assert Run(next, next(s, a).value, []) == next(s, a);
    }
  }

  lemma StepAfterRun<S, A>(next: (S, A) -> Option<S>, s: S, steps: seq<A>, a: A)
    requires Run(next, s, steps).Some?
    ensures Run(next, s, steps + [a]) == next(Run(next, s, steps).value, a)
  {
    RunsCompose(next, s, steps, [a]);
    OneStep(next, Run(next, s, steps).value, a);
  }

  /** A run up to its last step. */
  lemma LastOfRun<S, A>(next: (S, A) -> Option<S>, s: S, steps: seq<A>)
    requires steps != [] && Run(next, s, steps).Some?
    ensures var init := steps[..|steps| - 1];
            Run(next, s, init).Some? && Run(next, s, steps) == next(Run(next, s, init).value, steps[|steps| - 1])
  {
    var init, last := steps[..|steps| - 1], steps[|steps| - 1];
    assert steps == init + [last];
    if Run(next, s, init).None? {
      StuckStaysStuck(next, s, init, [last]);
    } else {
      StepAfterRun(next, s, init, last);
    }
  }

  ghost predicate Keeps<S(!new), A(!new)>(next: (S, A) -> Option<S>, inv: S -> bool) {
    forall s, a :: inv(s) && next(s, a).Some? ==> inv(next(s, a).value)
  }

  /** What every step keeps holds after every run. */
  lemma {:induction false} KeptByRuns<S(!new), A(!new)>(next: (S, A) -> Option<S>, inv: S -> bool, s: S, steps: seq<A>)
    requires Keeps(next, inv) && inv(s) && Run(next, s, steps).Some?
    ensures inv(Run(next, s, steps).value)
    decreases |steps|
  {
    if steps != [] {
      KeptByRuns(next, inv, next(s, steps[0]).value, steps[1..]);
    }
  }
}
