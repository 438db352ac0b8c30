/**
  The bounded queue every password check and hash goes through: a semaphore, an atomic counter of
  those waiting for it, and a guard that uncounts a waiter however its wait ends.

  Each atomic operation of `enter` and of the work behind it is one step. The semaphore is fair: a
  released permit goes to the waiter at the head of its queue, before that waiter runs again, and
  is free only when nobody queues. A client may hang up at the two places its request is suspended:
  waiting for a permit, and waiting for the work.
*/
module CheckQueue {
  import opened Counting
  import opened Schedules

  /** `usize` on the machines this runs on; an unchecked decrement of 0 wraps to the largest. */
  const USIZE_MAX: nat := 0xffff_ffff_ffff_ffff

  datatype Limits = Limits(concurrent: nat, maxWaiting: nat)

  datatype Phase =
    | Trying
    | Counting
    | Overshot
    | Admitted
    | Queued
    | Assigned
    | Leaving
    | Dropping
    | Working(attended: bool)
    | Refused
    | Cancelled
    | Finished

  /** Holds a permit. */
  predicate Holds(p: Phase) {
    p.Assigned? || p.Leaving? || p.Working?
  }

  /** Let into the queue: counted, and not about to be refused. */
  predicate LetIn(p: Phase) {
    p.Admitted? || p.Queued? || p.Assigned? || p.Leaving? || p.Dropping?
  }

  /** Included in the counter. */
  predicate Counted(p: Phase) {
    p.Overshot? || LetIn(p)
  }

  predicate MidRefusal(p: Phase) {
    p.Overshot?
  }

  datatype State = State(free: nat, counter: nat, queue: seq<nat>, tasks: map<nat, Phase>)

  datatype Action =
    | Arrive(id: nat)
    | TryAcquire(id: nat)
    | FetchAdd(id: nat)
    | BackOut(id: nat)
    | Acquire(id: nat)
    | Resume(id: nat)
    | Uncount(id: nat)
    | HangUp(id: nat)
    | WorkEnds(id: nat)

  function Init(limits: Limits): State {
    State(limits.concurrent, 0, [], map[])
  }

  function Decremented(counter: nat): nat {
    if counter == 0 then USIZE_MAX else counter - 1
  }

  function To(s: State, id: nat, phase: Phase): State {
    s.(tasks := s.tasks[id := phase])
  }

  /** A permit given back: to the head of the queue, or free when nobody waits. */
  function Release(s: State): State {
    if s.queue == [] then s.(free := s.free + 1)
    else s.(queue := s.queue[1..], tasks := s.tasks[s.queue[0] := Assigned])
  }

  function Without(queue: seq<nat>, id: nat): seq<nat> {
    if queue == [] then []
    else if queue[0] == id then queue[1..]
    else [queue[0]] + Without(queue[1..], id)
  }

  function Step(limits: Limits, s: State, a: Action): State {
    if a.Arrive? then
      if a.id in s.tasks then s else To(s, a.id, Trying)
    else if a.id !in s.tasks then s
    else
      match (a, s.tasks[a.id])
      case (TryAcquire(id), Trying) =>
        if s.free > 0 then To(s.(free := s.free - 1), id, Working(true)) else To(s, id, Counting)
      case (FetchAdd(id), Counting) =>
        To(s.(counter := s.counter + 1), id, if s.counter >= limits.maxWaiting then Overshot else Admitted)
      case (BackOut(id), Overshot) =>
        To(s.(counter := Decremented(s.counter)), id, Refused)
      case (Acquire(id), Admitted) =>
        if s.free > 0 then To(s.(free := s.free - 1), id, Leaving)
        else To(s.(queue := s.queue + [id]), id, Queued)
      case (Resume(id), Assigned) => To(s, id, Leaving)
      case (Uncount(id), Leaving) =>
        To(s.(counter := Decremented(s.counter)), id, Working(true))
      case (Uncount(id), Dropping) =>
        To(s.(counter := Decremented(s.counter)), id, Cancelled)
      case (HangUp(id), Queued) => To(s.(queue := Without(s.queue, id)), id, Dropping)
      case (HangUp(id), Assigned) => Release(To(s, id, Dropping))
      case (HangUp(id), Working(_)) => To(s, id, Working(false))
      case (WorkEnds(id), Working(_)) => Release(To(s, id, Finished))
      case _ => s
  }

  function Next(limits: Limits): (State, Action) -> State {
    (s, a) => Step(limits, s, a)
  }

  ghost predicate Distinct(queue: seq<nat>) {
    queue != [] ==> queue[0] !in queue[1..] && Distinct(queue[1..])
  }

  /** The queue lists, once each, exactly those waiting in it. */
  ghost predicate QueueOk(s: State) {
    && Distinct(s.queue)
    && (forall id :: id in s.queue <==> id in s.tasks && s.tasks[id].Queued?)
    && (s.queue != [] ==> s.free == 0)
  }

  ghost predicate Inv(limits: Limits, s: State) {
    && s.free + Count(s.tasks, Holds) == limits.concurrent
    && s.counter == Count(s.tasks, Counted)
    && Count(s.tasks, LetIn) <= limits.maxWaiting
    && QueueOk(s)
  }

  lemma {:induction false} Moved(s: State, id: nat, phase: Phase)
    ensures
      var was := if id in s.tasks then s.tasks[id] else Trying;
      var tasks := To(s, id, phase).tasks;
      && Count(tasks, Holds) == Count(s.tasks, Holds)
           - (if Holds(was) then 1 else 0) + (if Holds(phase) then 1 else 0)
      && Count(tasks, LetIn) == Count(s.tasks, LetIn)
           - (if LetIn(was) then 1 else 0) + (if LetIn(phase) then 1 else 0)
      && Count(tasks, Counted) == Count(s.tasks, Counted)
           - (if Counted(was) then 1 else 0) + (if Counted(phase) then 1 else 0)
  {
    CountUpdate(s.tasks, Holds, id, phase);
    CountUpdate(s.tasks, LetIn, id, phase);
    CountUpdate(s.tasks, Counted, id, phase);
  }

  lemma {:induction false} WithoutFacts(queue: seq<nat>, id: nat)
    requires Distinct(queue)
    ensures Distinct(Without(queue, id))
    ensures forall x :: x in Without(queue, id) <==> x in queue && x != id
  {
    if queue != [] {
      assert queue == [queue[0]] + queue[1..];
      WithoutFacts(queue[1..], id);
    }
  }

  lemma {:induction false} JoinedFacts(queue: seq<nat>, id: nat)
    requires Distinct(queue) && id !in queue
    ensures Distinct(queue + [id])
  {
    if queue != [] {
      assert (queue + [id])[1..] == queue[1..] + [id];
      JoinedFacts(queue[1..], id);
    }
  }

  /** `Inv`, but for one permit that nobody holds and that is not free yet. */
  ghost predicate InvBut(limits: Limits, s: State) {
    && s.free + Count(s.tasks, Holds) + 1 == limits.concurrent
    && s.counter == Count(s.tasks, Counted)
    && Count(s.tasks, LetIn) <= limits.maxWaiting
    && QueueOk(s)
  }

  lemma {:induction false} ReleaseKeeps(limits: Limits, s: State)
    requires InvBut(limits, s)
    ensures Inv(limits, Release(s))
  {
    if s.queue != [] {
      var head := s.queue[0];
      Moved(s, head, Assigned);
      var s' := Release(s);
      forall id
        ensures id in s'.queue <==> id in s'.tasks && s'.tasks[id].Queued?
      {
        assert id in s.queue <==> id == head || id in s'.queue;
      }
    }
  }

  lemma {:induction false} LeavingQueueKeeps(s: State, id: nat)
    requires QueueOk(s) && id in s.tasks && s.tasks[id].Queued?
    ensures QueueOk(To(s.(queue := Without(s.queue, id)), id, Dropping))
  {
    WithoutFacts(s.queue, id);
  }

  lemma {:induction false} JoiningQueueKeeps(s: State, id: nat)
    requires QueueOk(s) && id in s.tasks && !s.tasks[id].Queued? && s.free == 0
    ensures QueueOk(To(s.(queue := s.queue + [id]), id, Queued))
  {
    JoinedFacts(s.queue, id);
  }

  lemma {:induction false} PlainMoveKeeps(s: State, s': State, id: nat, phase: Phase)
    requires QueueOk(s) && s'.queue == s.queue && s'.tasks == s.tasks[id := phase] && s'.free <= s.free
    requires !phase.Queued? && (id in s.tasks ==> !s.tasks[id].Queued?)
    ensures QueueOk(s')
  {
  }

  /** The steps that neither queue, nor leave the queue, nor give a permit back. */
  lemma {:induction false} PlainStepKeeps(limits: Limits, s: State, a: Action)
    requires Inv(limits, s)
    requires !a.HangUp? && !a.WorkEnds? && !(a.Acquire? && s.free == 0)
    ensures Inv(limits, Step(limits, s, a))
  {
    var s' := Step(limits, s, a);
    if s' != s {
      PlainMoveKeeps(s, s', a.id, s'.tasks[a.id]);
      Moved(s, a.id, s'.tasks[a.id]);
      CountNarrower(s.tasks, LetIn, Counted);
      if a.id in s.tasks && Counted(s.tasks[a.id]) {
        CountSome(s.tasks, Counted, a.id);
      }
    }
  }

  lemma {:induction false} QueueingKeeps(limits: Limits, s: State, id: nat)
    requires Inv(limits, s) && id in s.tasks && s.tasks[id].Admitted? && s.free == 0
    ensures Inv(limits, To(s.(queue := s.queue + [id]), id, Queued))
  {
    Moved(s, id, Queued);
    JoiningQueueKeeps(s, id);
  }

  lemma {:induction false} HangingUpKeeps(limits: Limits, s: State, id: nat)
    requires Inv(limits, s) && id in s.tasks
    ensures Inv(limits, Step(limits, s, HangUp(id)))
  {
    match s.tasks[id]
    case Queued =>
      Moved(s, id, Dropping);
      LeavingQueueKeeps(s, id);
    case Assigned =>
      Moved(s, id, Dropping);
      ReleaseKeeps(limits, To(s, id, Dropping));
    case Working(_) =>
      Moved(s, id, Working(false));
      PlainMoveKeeps(s, To(s, id, Working(false)), id, Working(false));
    case _ =>
  }

  lemma {:induction false} EndingKeeps(limits: Limits, s: State, id: nat)
    requires Inv(limits, s) && id in s.tasks && s.tasks[id].Working?
    ensures Inv(limits, Release(To(s, id, Finished)))
  {
    Moved(s, id, Finished);
    ReleaseKeeps(limits, To(s, id, Finished));
  }

  lemma {:induction false} StepKeepsInv(limits: Limits, s: State, a: Action)
    requires Inv(limits, s)
    ensures Inv(limits, Step(limits, s, a))
  {
    if !a.HangUp? && !a.WorkEnds? && !(a.Acquire? && s.free == 0) {
      PlainStepKeeps(limits, s, a);
    } else if a.id in s.tasks {
      if a.HangUp? {
        HangingUpKeeps(limits, s, a.id);
      } else if s.tasks[a.id].Working? {
        EndingKeeps(limits, s, a.id);
      } else if s.tasks[a.id].Admitted? && s.free == 0 {
        QueueingKeeps(limits, s, a.id);
      }
    }
  }

  lemma {:induction false} RunKeepsInv(limits: Limits, schedule: seq<Action>)
    ensures Inv(limits, Run(Next(limits), Init(limits), schedule))
  {
    forall t, a | Inv(limits, t)
      ensures Inv(limits, Next(limits)(t, a))
    {
      StepKeepsInv(limits, t, a);
    }
    RunKeeps(Next(limits), t => Inv(limits, t), Init(limits), schedule);
  }

  /** In every run: permits free and permits held add up to the number there are, so no more
      checks run at once than that; those let in to wait never pass the bound, however far
      refused callers push the counter; and the counter counts exactly those inside. */
  lemma {:induction false} EveryRunIsBounded(limits: Limits, schedule: seq<Action>)
    ensures
      var s := Run(Next(limits), Init(limits), schedule);
      && s.free + Count(s.tasks, Holds) == limits.concurrent
      && Count(s.tasks, (p: Phase) => p.Working?) <= limits.concurrent
      && Count(s.tasks, LetIn) <= limits.maxWaiting
      && s.counter == Count(s.tasks, LetIn) + Count(s.tasks, MidRefusal)
      && ((forall id :: id in s.tasks ==> !Counted(s.tasks[id])) ==> s.counter == 0)
  {
    RunKeepsInv(limits, schedule);
    var s := Run(Next(limits), Init(limits), schedule);
    CountNarrower(s.tasks, (p: Phase) => p.Working?, Holds);
    CountSplit(s.tasks, LetIn, MidRefusal, Counted);
    if forall id :: id in s.tasks ==> !Counted(s.tasks[id]) {
      CountNone(s.tasks, Counted);
    }
  }

  lemma {:induction false} WorkStep(limits: Limits, s: State, a: Action, id: nat)
    requires QueueOk(s) && id in s.tasks && s.tasks[id].Working? && a != WorkEnds(id)
    ensures id in Step(limits, s, a).tasks && Step(limits, s, a).tasks[id].Working?
  {
    assert s.queue != [] ==> s.queue[0] in s.queue;
  }

  lemma {:induction false} WorkStays(limits: Limits, s: State, after: seq<Action>, id: nat)
    requires Inv(limits, s) && id in s.tasks && s.tasks[id].Working?
    requires WorkEnds(id) !in after
    ensures
      var t := Run(Next(limits), s, after);
      Inv(limits, t) && id in t.tasks && t.tasks[id].Working?
  {
    if after != [] {
      var last := after[|after| - 1];
      WorkStays(limits, s, after[..|after| - 1], id);
      var t := Run(Next(limits), s, after[..|after| - 1]);
      StepKeepsInv(limits, t, last);
      WorkStep(limits, t, last, id);
    }
  }

  /** A permit taken for work is held until the work ends, whoever hangs up meanwhile: only
      `WorkEnds` moves a task out of `Working`, and while it is there its permit is not free. */
  lemma {:induction false} PermitTravelsWithTheWork(limits: Limits, before: seq<Action>, after: seq<Action>, id: nat)
    requires
      var s := Run(Next(limits), Init(limits), before);
      id in s.tasks && s.tasks[id].Working?
    requires WorkEnds(id) !in after
    ensures
      var t := Run(Next(limits), Init(limits), before + after);
      id in t.tasks && t.tasks[id].Working? && t.free < limits.concurrent
  {
    RunKeepsInv(limits, before);
    RunInParts(Next(limits), Init(limits), before, after);
    WorkStays(limits, Run(Next(limits), Init(limits), before), after, id);
    CountSome(Run(Next(limits), Init(limits), before + after).tasks, Holds, id);
  }

  /** `first` stands in the queue ahead of `second`. */
  ghost predicate Ahead(queue: seq<nat>, first: nat, second: nat) {
    queue != [] && if queue[0] == first then second in queue[1..] else Ahead(queue[1..], first, second)
  }

  lemma {:induction false} AheadWithout(queue: seq<nat>, id: nat, first: nat, second: nat)
    requires Distinct(queue) && Ahead(queue, first, second) && id != first && id != second
    ensures Ahead(Without(queue, id), first, second)
  {
    if queue[0] == first {
      WithoutFacts(queue[1..], id);
    } else if queue[0] != id {
      AheadWithout(queue[1..], id, first, second);
    }
  }

  lemma {:induction false} AheadJoined(queue: seq<nat>, id: nat, first: nat, second: nat)
    requires Ahead(queue, first, second)
    ensures Ahead(queue + [id], first, second)
  {
    assert (queue + [id])[1..] == queue[1..] + [id];
    if queue[0] != first {
      AheadJoined(queue[1..], id, first, second);
    }
  }

  lemma {:induction false} AheadFacts(queue: seq<nat>, first: nat, second: nat)
    requires Ahead(queue, first, second) && Distinct(queue)
    ensures first in queue && second in queue && first != second && queue[0] != second
  {
    if queue[0] != first {
      AheadFacts(queue[1..], first, second);
    }
  }

  /** While `first` queues, `second` is behind it or has given up. */
  ghost predicate InTurn(s: State, first: nat, second: nat) {
    && first in s.tasks && second in s.tasks && !s.tasks[first].Trying? && !s.tasks[second].Trying?
    && (s.tasks[first].Queued? ==>
          Ahead(s.queue, first, second) || s.tasks[second].Dropping? || s.tasks[second].Cancelled?)
    && !s.tasks[first].Counting? && !s.tasks[first].Admitted?
  }

  /** A task that neither queues nor leaves the queue. */
  lemma {:induction false} TurnMoves(s: State, id: nat, phase: Phase, first: nat, second: nat)
    requires InTurn(s, first, second) && id in s.tasks && !s.tasks[id].Queued? && !phase.Queued? && !phase.Trying?
    requires id == first ==> !phase.Counting? && !phase.Admitted?
    requires id == second && (s.tasks[id].Dropping? || s.tasks[id].Cancelled?) ==> phase.Dropping? || phase.Cancelled?
    ensures InTurn(To(s, id, phase), first, second)
  {
  }

  lemma {:induction false} TurnJoins(s: State, id: nat, first: nat, second: nat)
    requires QueueOk(s) && InTurn(s, first, second) && id in s.tasks && s.tasks[id].Admitted?
    ensures InTurn(To(s.(queue := s.queue + [id]), id, Queued), first, second)
  {
    if s.tasks[first].Queued? && Ahead(s.queue, first, second) {
      AheadFacts(s.queue, first, second);
      AheadJoined(s.queue, id, first, second);
    }
  }

  lemma {:induction false} TurnLeaves(s: State, id: nat, first: nat, second: nat)
    requires QueueOk(s) && InTurn(s, first, second) && id in s.tasks && s.tasks[id].Queued?
    ensures InTurn(To(s.(queue := Without(s.queue, id)), id, Dropping), first, second)
  {
    if s.tasks[first].Queued? && Ahead(s.queue, first, second) && id != first && id != second {
      AheadWithout(s.queue, id, first, second);
    }
  }

  lemma {:induction false} TurnReleases(s: State, first: nat, second: nat)
    requires QueueOk(s) && InTurn(s, first, second)
    ensures InTurn(Release(s), first, second)
  {
    if s.tasks[first].Queued? && Ahead(s.queue, first, second) {
      AheadFacts(s.queue, first, second);
    }
  }

  lemma {:induction false} TurnMovesAndReleases(s: State, id: nat, phase: Phase, first: nat, second: nat)
    requires QueueOk(s) && InTurn(s, first, second) && id in s.tasks && Holds(s.tasks[id])
    requires phase.Dropping? || phase.Finished?
    ensures InTurn(Release(To(s, id, phase)), first, second)
  {
    TurnMoves(s, id, phase, first, second);
    PlainMoveKeeps(s, To(s, id, phase), id, phase);
    TurnReleases(To(s, id, phase), first, second);
  }

  lemma {:induction false} TurnStep(limits: Limits, s: State, a: Action, first: nat, second: nat)
    requires QueueOk(s) && InTurn(s, first, second)
    ensures InTurn(Step(limits, s, a), first, second)
  {
    if a.id in s.tasks {
      match (a, s.tasks[a.id])
      case (Acquire(id), Admitted) =>
        if s.free == 0 {
          TurnJoins(s, id, first, second);
        }
      case (HangUp(id), Queued) => TurnLeaves(s, id, first, second);
      case (HangUp(id), Assigned) => TurnMovesAndReleases(s, id, Dropping, first, second);
      case (WorkEnds(id), Working(_)) => TurnMovesAndReleases(s, id, Finished, first, second);
      case _ =>
    }
  }

  /** Waiters are served in the order they queued: in any run on from a state where `first` queues
      ahead of `second`, as long as `first` still queues `second` has no permit. */
  lemma {:induction false} ServedInTurn(
    limits: Limits, before: seq<Action>, after: seq<Action>, first: nat, second: nat)
    requires Ahead(Run(Next(limits), Init(limits), before).queue, first, second)
    ensures
      var t := Run(Next(limits), Init(limits), before + after);
      && first in t.tasks && second in t.tasks
      && (t.tasks[first].Queued? ==> !Holds(t.tasks[second]))
  {
    var s := Run(Next(limits), Init(limits), before);
    RunKeepsInv(limits, before);
    AheadFacts(s.queue, first, second);
    forall t, a | Inv(limits, t) && InTurn(t, first, second)
      ensures Inv(limits, Next(limits)(t, a)) && InTurn(Next(limits)(t, a), first, second)
    {
      StepKeepsInv(limits, t, a);
      TurnStep(limits, t, a, first, second);
    }
    RunKeeps(Next(limits), t => Inv(limits, t) && InTurn(t, first, second), s, after);
    RunInParts(Next(limits), Init(limits), before, after);
    var t := Run(Next(limits), s, after);
    if t.tasks[first].Queued? && Ahead(t.queue, first, second) {
      AheadFacts(t.queue, first, second);
    }
  }

  /** A caller is refused exactly when those let in and those being refused at that moment
      together fill the queue; with nobody else being refused, exactly when those let in do. */
  lemma {:induction false} BusyIff(limits: Limits, schedule: seq<Action>, id: nat)
    requires
      var s := Run(Next(limits), Init(limits), schedule);
      id in s.tasks && s.tasks[id].Counting?
    ensures
      var s := Run(Next(limits), Init(limits), schedule);
      var refused := Step(limits, s, FetchAdd(id)).tasks[id].Overshot?;
      && (refused <==> Count(s.tasks, LetIn) + Count(s.tasks, MidRefusal) >= limits.maxWaiting)
      && (Count(s.tasks, MidRefusal) == 0 ==> (refused <==> Count(s.tasks, LetIn) == limits.maxWaiting))
  {
    EveryRunIsBounded(limits, schedule);
  }

  ghost predicate Reachable(limits: Limits, s: State) {
    exists schedule :: Run(Next(limits), Init(limits), schedule) == s
  }

  lemma {:induction false} ReachNext(limits: Limits, s: State, a: Action)
    requires Reachable(limits, s)
    ensures Reachable(limits, Step(limits, s, a))
  {
    var schedule :| Run(Next(limits), Init(limits), schedule) == s;
    RunOne(Next(limits), Init(limits), schedule, a);
  }

  /** A newcomer that finds every place taken. */
  lemma {:induction false} FindsNoPlace(limits: Limits, s: State, id: nat) returns (t: State)
    requires Reachable(limits, s) && s.free == 0 && id !in s.tasks
    ensures Reachable(limits, t) && t == s.(tasks := t.tasks)
    ensures t.tasks == s.tasks[id := Counting]
  {
    ReachNext(limits, s, Arrive(id));
    var arrived := Step(limits, s, Arrive(id));
    ReachNext(limits, arrived, TryAcquire(id));
    t := Step(limits, arrived, TryAcquire(id));
    assert t.tasks == s.tasks[id := Counting];
  }

  /** A newcomer that finds every place taken and room to wait. */
  lemma {:induction false} Waits(limits: Limits, s: State, id: nat) returns (t: State)
    requires Reachable(limits, s) && s.free == 0 && s.counter < limits.maxWaiting && id !in s.tasks
    ensures Reachable(limits, t)
    ensures t == State(0, s.counter + 1, s.queue + [id], s.tasks[id := Queued])
  {
    var trying := FindsNoPlace(limits, s, id);
    ReachNext(limits, trying, FetchAdd(id));
    var admitted := Step(limits, trying, FetchAdd(id));
    ReachNext(limits, admitted, Acquire(id));
    t := Step(limits, admitted, Acquire(id));
    assert t.tasks == s.tasks[id := Queued];
  }

  /** Work that ends while one waits: its place goes to the waiter, who leaves the queue for it. */
  lemma {:induction false} HandsOver(limits: Limits, s: State, worker: nat, waiter: nat) returns (t: State)
    requires Reachable(limits, s) && s.queue == [waiter] && worker in s.tasks && waiter in s.tasks
    requires s.tasks[worker].Working? && s.tasks[waiter].Queued?
    ensures Reachable(limits, t) && t.free == s.free && t.counter == Decremented(s.counter)
    ensures t.tasks == s.tasks[worker := Finished][waiter := Working(true)]
  {
    ReachNext(limits, s, WorkEnds(worker));
    var ended := Step(limits, s, WorkEnds(worker));
    ReachNext(limits, ended, Resume(waiter));
    var resumed := Step(limits, ended, Resume(waiter));
    ReachNext(limits, resumed, Uncount(waiter));
    t := Step(limits, resumed, Uncount(waiter));
    assert t.tasks == s.tasks[worker := Finished][waiter := Working(true)];
  }

  /** 0 works, and 1 waits for its place. */
  lemma {:induction false} OneWorksOneWaits() returns (s: State)
    ensures Reachable(Limits(1, 1), s) && s.free == 0 && s.counter == 1 && s.queue == [1]
    ensures s.tasks.Keys == {0, 1} && s.tasks[0] == Working(true) && s.tasks[1] == Queued
  {
    var l := Limits(1, 1);
    assert Run(Next(l), Init(l), []) == Init(l);
    ReachNext(l, Init(l), Arrive(0));
    s := Step(l, Init(l), Arrive(0));
    ReachNext(l, s, TryAcquire(0));
    s := Step(l, s, TryAcquire(0));
    s := Waits(l, s, 1);
  }

  /** And 2 is being refused. */
  lemma {:induction false} AnotherIsRefused() returns (s: State)
    ensures Reachable(Limits(1, 1), s) && s.free == 0 && s.counter == 2 && s.queue == [1]
    ensures s.tasks.Keys == {0, 1, 2} && s.tasks[0] == Working(true) && s.tasks[1] == Queued && s.tasks[2] == Overshot
  {
    var l := Limits(1, 1);
    s := OneWorksOneWaits();
    s := FindsNoPlace(l, s, 2);
    ReachNext(l, s, FetchAdd(2));
    s := Step(l, s, FetchAdd(2));
  }

  /** So "busy" does not always mean that `maxWaiting` wait. With one place and room for one to
      wait: 0 works and 1 waits, 2 is being refused, 0 ends and 1 leaves the queue for its place,
      and 3 is refused although nobody waits at all. */
  lemma {:induction false} BusyThoughNobodyWaits() returns (s: State)
    ensures Reachable(Limits(1, 1), s) && 3 in s.tasks && s.tasks[3].Counting?
    ensures Count(s.tasks, LetIn) == 0
    ensures Step(Limits(1, 1), s, FetchAdd(3)).tasks[3].Overshot?
  {
    var l := Limits(1, 1);
    s := AnotherIsRefused();
    s := HandsOver(l, s, 0, 1);
    s := FindsNoPlace(l, s, 3);
    CountNone(s.tasks, LetIn);
  }
}
