/** Runs of the transition system: their prefixes, their steps and their continuations. */
module Runs {
  import opened Prelude
  import opened Protocol

  /** The first n steps lead to the state in which step n happens. */
  ghost predicate Taken(steps: seq<Step>, n: nat) {
    n < |steps| && Exec(steps[..n]).Some? && Enabled(Exec(steps[..n]).value, steps[n])
  }

  /** The last step of a run that took place. */
  lemma LastTaken(steps: seq<Step>) returns (n: nat)
    requires steps != [] && Exec(steps).Some?
    ensures n == |steps| - 1 && Taken(steps, n) && Exec(steps).value == Apply(Exec(steps[..n]).value, steps[n])
  {
    n := |steps| - 1;
  }

  /** A prefix of a run is a run. */
  lemma {:induction false} PrefixRuns(steps: seq<Step>, k: nat)
    requires Exec(steps).Some? && k <= |steps|
    ensures Exec(steps[..k]).Some?
  {
    if k == |steps| {
      assert steps[..k] == steps;
    } else {
      var init := steps[..|steps| - 1];
      PrefixRuns(init, k);
      assert init[..k] == steps[..k];
    }
  }

  lemma Extend(steps: seq<Step>, s: Step) returns (steps': seq<Step>)
    requires Exec(steps).Some? && Enabled(Exec(steps).value, s)
    ensures steps' == steps + [s] && Exec(steps') == Some(Apply(Exec(steps).value, s))
  {
    steps' := steps + [s];
    assert steps'[..|steps'| - 1] == steps;
  }

  lemma ExecAppend(steps: seq<Step>, more: seq<Step>, s: Step)
    requires Exec(steps + more).Some? && Enabled(Exec(steps + more).value, s)
    ensures Exec(steps + (more + [s])) == Some(Apply(Exec(steps + more).value, s))
  {
    var all := steps + (more + [s]);
    assert all[..|all| - 1] == steps + more && all[|all| - 1] == s;
  }

  /** The last step of a continuation. */
  lemma LastOfMore(steps: seq<Step>, more: seq<Step>) returns (before: seq<Step>, s: Step)
    requires more != [] && Exec(steps + more).Some?
    ensures more == before + [s] && Exec(steps + before).Some? && Enabled(Exec(steps + before).value, s)
    ensures Exec(steps + more) == Some(Apply(Exec(steps + before).value, s))
  {
    var all := steps + more;
    before, s := more[..|more| - 1], more[|more| - 1];
    assert all[..|all| - 1] == steps + before && all[|all| - 1] == s;
  }
}
