/**
  Runs of a machine whose steps are a function: a schedule is any sequence of actions, taken in
  order. The machines here treat an action that is not enabled as one that changes nothing, so
  the runs of all schedules are all the interleavings.
*/
module Schedules {

  function Run<S, A>(step: (S, A) -> S, s: S, schedule: seq<A>): S {
    if schedule == [] then s
    else step(Run(step, s, schedule[..|schedule| - 1]), schedule[|schedule| - 1])
  }

  lemma {:induction false} RunInParts<S, A>(step: (S, A) -> S, s: S, before: seq<A>, after: seq<A>)
    ensures Run(step, s, before + after) == Run(step, Run(step, s, before), after)
  {
    if after == [] {
      assert before + after == before;
    } else {
      var whole := before + after;
      assert whole[..|whole| - 1] == before + after[..|after| - 1];
      RunInParts(step, s, before, after[..|after| - 1]);
    }
  }

  lemma {:induction false} RunOne<S, A>(step: (S, A) -> S, s: S, schedule: seq<A>, a: A)
    ensures Run(step, s, schedule + [a]) == step(Run(step, s, schedule), a)
  {
    assert (schedule + [a])[..|schedule|] == schedule;
  }

  /** What every step keeps, every run keeps. */
  lemma {:induction false} RunKeeps<S(!new), A(!new)>(
    step: (S, A) -> S, inv: S -> bool, s: S, schedule: seq<A>)
    requires inv(s)
    requires forall t, a :: inv(t) ==> inv(step(t, a))
    ensures inv(Run(step, s, schedule))
  {
    if schedule != [] {
      RunKeeps(step, inv, s, schedule[..|schedule| - 1]);
    }
  }
}
