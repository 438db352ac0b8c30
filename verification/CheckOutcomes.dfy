/** What becomes of each caller of the password queue at its next step, after any run. */
module CheckOutcomes {
  import opened CheckQueue
  import opened Counting
  import opened Schedules

  /** A caller runs at once, and one let in goes ahead, if and only if fewer permits are held than there
      are; one let in who does not joins the end of the queue. */
  lemma {:induction false} PlaceIff(limits: Limits, schedule: seq<Action>, id: nat)
    ensures
      var s := Run(Next(limits), Init(limits), schedule);
      var place := Count(s.tasks, Holds) < limits.concurrent;
      && (id in s.tasks && s.tasks[id].Trying? ==>
            Step(limits, s, TryAcquire(id)).tasks[id] == if place then Working(true) else Counting)
      && (id in s.tasks && s.tasks[id].Admitted? ==>
            var t := Step(limits, s, Acquire(id));
            if place then t.tasks[id] == Leaving && t.queue == s.queue
            else t.tasks[id] == Queued && t.queue == s.queue + [id])
  {
    RunKeepsInv(limits, schedule);
  }

  /** A permit is given back: `t` is `s` but for `id`, who has moved on, and whoever waits longest has it
      in `t`; it is free only if nobody waits. */
  ghost predicate HandsOn(s: State, id: nat, t: State) {
    if s.queue == [] then
      t.free == s.free + 1 && t.queue == [] && forall other :: other != id ==> Same(s, t, other)
    else
      && t.free == s.free && s.queue == [s.queue[0]] + t.queue
      && s.queue[0] in t.tasks && t.tasks[s.queue[0]] == Assigned
      && forall other :: other != id && other != s.queue[0] ==> Same(s, t, other)
  }

  ghost predicate Same(s: State, t: State, id: nat) {
    (id in s.tasks <==> id in t.tasks) && (id in s.tasks ==> t.tasks[id] == s.tasks[id])
  }

  lemma {:induction false} WorkHandsOn(limits: Limits, s: State, id: nat)
    requires QueueOk(s) && id in s.tasks && s.tasks[id].Working?
    ensures
      var t := Step(limits, s, WorkEnds(id));
      t.counter == s.counter && id in t.tasks && t.tasks[id] == Finished && HandsOn(s, id, t)
  {
    assert s.queue != [] ==> s.queue[0] in s.queue;
    assert Step(limits, s, WorkEnds(id)) == Release(To(s, id, Finished));
  }

  /** Work that ends hands its permit on. */
  lemma {:induction false} EndingHandsOn(limits: Limits, schedule: seq<Action>, id: nat)
    requires
      var s := Run(Next(limits), Init(limits), schedule);
      id in s.tasks && s.tasks[id].Working?
    ensures
      var s := Run(Next(limits), Init(limits), schedule);
      var t := Step(limits, s, WorkEnds(id));
      t.counter == s.counter && id in t.tasks && t.tasks[id] == Finished && HandsOn(s, id, t)
  {
    RunKeepsInv(limits, schedule);
    WorkHandsOn(limits, Run(Next(limits), Init(limits), schedule), id);
  }

  /** Whoever is handed a permit is uncounted and at work two steps on. */
  lemma {:induction false} HandedOnWorks(limits: Limits, schedule: seq<Action>, id: nat)
    requires
      var s := Run(Next(limits), Init(limits), schedule);
      id in s.tasks && s.tasks[id].Assigned?
    ensures
      var s := Run(Next(limits), Init(limits), schedule);
      var t := Run(Next(limits), Init(limits), schedule + [Resume(id)] + [Uncount(id)]);
      && id in t.tasks && t.tasks[id] == Working(true) && t.counter == s.counter - 1
      && t.queue == s.queue && t.free == s.free && forall other :: other != id ==> Same(s, t, other)
  {
    RunKeepsInv(limits, schedule);
    var s := Run(Next(limits), Init(limits), schedule);
    RunOne(Next(limits), Init(limits), schedule, Resume(id));
    RunOne(Next(limits), Init(limits), schedule + [Resume(id)], Uncount(id));
    CountSome(s.tasks, Counted, id);
  }

  /** `id` is out of the queue, which is otherwise as it was. */
  ghost predicate Leaves(s: State, id: nat, t: State) {
    && t.free == s.free
    && (exists a, b :: s.queue == a + [id] + b && t.queue == a + b)
    && forall other :: other != id ==> Same(s, t, other)
  }

  lemma {:induction false} WithoutLeaves(queue: seq<nat>, id: nat) returns (a: seq<nat>, b: seq<nat>)
    requires id in queue
    ensures queue == a + [id] + b && Without(queue, id) == a + b
  {
    if queue[0] == id {
      a, b := [], queue[1..];
    } else {
      a, b := WithoutLeaves(queue[1..], id);
      a := [queue[0]] + a;
    }
  }

  lemma {:induction false} QueuedLeaves(limits: Limits, s: State, id: nat)
    requires QueueOk(s) && id in s.tasks && s.tasks[id].Queued?
    ensures
      var t := Step(limits, s, HangUp(id));
      id in t.tasks && t.tasks[id] == Dropping && id !in t.queue && t.counter == s.counter && Leaves(s, id, t)
  {
    assert id !in Without(s.queue, id) by {
      WithoutFacts(s.queue, id);
    }
    var a, b := WithoutLeaves(s.queue, id);
    assert Step(limits, s, HangUp(id)) == To(s.(queue := a + b), id, Dropping);
  }

  lemma {:induction false} AssignedHandsOn(limits: Limits, s: State, id: nat)
    requires QueueOk(s) && id in s.tasks && s.tasks[id].Assigned?
    ensures
      var t := Step(limits, s, HangUp(id));
      id in t.tasks && t.tasks[id] == Dropping && id !in t.queue && t.counter == s.counter && HandsOn(s, id, t)
  {
    assert s.queue != [] ==> s.queue[0] in s.queue;
  }

  lemma {:induction false} DroppingIsUncounted(limits: Limits, t: State, id: nat)
    requires Inv(limits, t) && id in t.tasks && t.tasks[id].Dropping?
    ensures
      var u := Step(limits, t, Uncount(id));
      && u.counter == t.counter - 1 && u == t.(counter := u.counter, tasks := t.tasks[id := Cancelled])
      && Count(u.tasks, LetIn) == Count(t.tasks, LetIn) - 1
  {
    CountSome(t.tasks, Counted, id);
    Moved(t, id, Cancelled);
  }

  /** A waiter who hangs up is no longer in the queue and holds nothing; those who wait stay in their
      order, and the permit it had been handed, if any, is handed on. At its next step it is uncounted:
      the counter is one less, and so are those let in. */
  lemma {:induction false} HangingUpLeaves(limits: Limits, schedule: seq<Action>, id: nat)
    requires
      var s := Run(Next(limits), Init(limits), schedule);
      id in s.tasks && (s.tasks[id].Queued? || s.tasks[id].Assigned?)
    ensures
      var s := Run(Next(limits), Init(limits), schedule);
      var t := Step(limits, s, HangUp(id));
      var u := Step(limits, t, Uncount(id));
      && id in t.tasks && t.tasks[id] == Dropping && id !in t.queue && t.counter == s.counter
      && (if s.tasks[id].Assigned? then HandsOn(s, id, t) else Leaves(s, id, t))
      && u.counter == s.counter - 1 && u == t.(counter := u.counter, tasks := t.tasks[id := Cancelled])
      && Count(u.tasks, LetIn) == Count(t.tasks, LetIn) - 1
  {
    RunKeepsInv(limits, schedule);
    var s := Run(Next(limits), Init(limits), schedule);
    StepKeepsInv(limits, s, HangUp(id));
    if s.tasks[id].Queued? {
      QueuedLeaves(limits, s, id);
    } else {
      AssignedHandsOn(limits, s, id);
    }
    DroppingIsUncounted(limits, Step(limits, s, HangUp(id)), id);
  }

  /** A caller being refused is uncounted at its next step. */
  lemma {:induction false} RefusedIsUncounted(limits: Limits, schedule: seq<Action>, id: nat)
    requires
      var s := Run(Next(limits), Init(limits), schedule);
      id in s.tasks && s.tasks[id].Overshot?
    ensures
      var s := Run(Next(limits), Init(limits), schedule);
      var t := Step(limits, s, BackOut(id));
      t.counter == s.counter - 1 && t == s.(counter := t.counter, tasks := s.tasks[id := Refused])
  {
    RunKeepsInv(limits, schedule);
    CountSome(Run(Next(limits), Init(limits), schedule).tasks, Counted, id);
  }

  predicate HungUp(p: Phase) {
    p.Dropping? || p.Cancelled? || p == Working(false)
  }

  lemma {:induction false} OnlyHangUpHangsUp(limits: Limits, s: State, a: Action, id: nat)
    requires QueueOk(s) && (id in s.tasks ==> !HungUp(s.tasks[id])) && a != HangUp(id)
    ensures
      var t := Step(limits, s, a);
      id in t.tasks ==> !HungUp(t.tasks[id])
  {
    assert s.queue != [] ==> s.queue[0] in s.queue;
  }

  /** Nobody is taken to have hung up who did not. */
  lemma {:induction false} OnlyHangingUpEnds(limits: Limits, schedule: seq<Action>, id: nat)
    requires HangUp(id) !in schedule
    ensures
      var s := Run(Next(limits), Init(limits), schedule);
      id in s.tasks ==> !HungUp(s.tasks[id])
  {
    if schedule != [] {
      var front, last := schedule[..|schedule| - 1], schedule[|schedule| - 1];
      OnlyHangingUpEnds(limits, front, id);
      RunKeepsInv(limits, front);
      assert last in schedule;
      OnlyHangUpHangsUp(limits, Run(Next(limits), Init(limits), front), last, id);
    }
  }

  predicate IsOver(s: State, id: nat, phase: Phase) {
    id in s.tasks && s.tasks[id] == phase && (phase.Refused? || phase.Cancelled? || phase.Finished?)
  }

  lemma {:induction false} OverStays(limits: Limits, s: State, a: Action, id: nat, phase: Phase)
    requires QueueOk(s) && IsOver(s, id, phase)
    ensures IsOver(Step(limits, s, a), id, phase)
  {
    assert s.queue != [] ==> s.queue[0] in s.queue;
  }

  /** A caller that is refused, gone or done stays so. */
  lemma {:induction false} EndsAreFinal(
    limits: Limits, before: seq<Action>, after: seq<Action>, id: nat, phase: Phase)
    requires IsOver(Run(Next(limits), Init(limits), before), id, phase)
    ensures IsOver(Run(Next(limits), Init(limits), before + after), id, phase)
  {
    RunKeepsInv(limits, before);
    forall t, a | Inv(limits, t) && IsOver(t, id, phase)
      ensures Inv(limits, Next(limits)(t, a)) && IsOver(Next(limits)(t, a), id, phase)
    {
      StepKeepsInv(limits, t, a);
      OverStays(limits, t, a, id, phase);
    }
    var s := Run(Next(limits), Init(limits), before);
    RunKeeps(Next(limits), t => Inv(limits, t) && IsOver(t, id, phase), s, after);
    RunInParts(Next(limits), Init(limits), before, after);
  }
}
