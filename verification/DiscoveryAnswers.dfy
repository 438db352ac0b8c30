/**
  What a request for the identity provider's client is answered, said of the discoveries there were
  before it and not of what is remembered of them.
*/
module DiscoveryAnswers {
  import opened Discovery
  import opened Schedules
  import opened Wrappers

  const NANOS := 1_000_000_000

  const SUCCEEDED: Entry -> bool := (e: Entry) => e.outcome.Succeeded?
  const COMPLETED: Entry -> bool := (e: Entry) => Completed(e)

  /** The last of its kind. */
  ghost predicate LastOf(log: seq<Entry>, kind: Entry -> bool, i: nat) {
    i < |log| && kind(log[i]) && forall j :: i < j < |log| ==> !kind(log[j])
  }

  ghost predicate NoneOf(log: seq<Entry>, kind: Entry -> bool) {
    forall i :: 0 <= i < |log| ==> !kind(log[i])
  }

  /** The client kept is the last one found. */
  ghost predicate CurrentIs(log: seq<Entry>, current: Option<Discovered>) {
    match current
    case None => NoneOf(log, SUCCEEDED)
    case Some(d) => LastOf(log, SUCCEEDED, d.run) && d.until == log[d.run].end + 300 * NANOS
  }

  /** The failure kept is the last discovery's that was not abandoned, if it failed. */
  ghost predicate FailedIs(log: seq<Entry>, failed: Option<Instant>) {
    match failed
    case None => NoneOf(log, COMPLETED) || exists i: nat :: LastOf(log, COMPLETED, i) && log[i].outcome.Succeeded?
    case Some(at) => exists i: nat :: LastOf(log, COMPLETED, i) && log[i].outcome.Failed? && log[i].end == at
  }

  /** The moment kept is when the last forced discovery began, one that runs included. */
  ghost predicate ForcedIs(s: State) {
    if s.holder.Some? && s.holder.value in s.requests && s.requests[s.holder.value].Discovering?
       && s.requests[s.holder.value].forced
    then s.forced == Some(s.requests[s.holder.value].start)
    else
      match s.forced
      case None => NoneOf(s.log, FORCED)
      case Some(at) => exists i: nat :: LastOf(s.log, FORCED, i) && s.log[i].start == at
  }

  ghost predicate Remembers(s: State) {
    CurrentIs(s.log, s.current) && FailedIs(s.log, s.failed) && ForcedIs(s)
  }

  lemma LastIsNew(log: seq<Entry>, kind: Entry -> bool, e: Entry)
    requires kind(e)
    ensures LastOf(log + [e], kind, |log|)
  {
  }

  lemma LastStays(log: seq<Entry>, kind: Entry -> bool, e: Entry, i: nat)
    requires !kind(e) && LastOf(log, kind, i)
    ensures LastOf(log + [e], kind, i) && (log + [e])[i] == log[i]
  {
  }

  lemma NoneStays(log: seq<Entry>, kind: Entry -> bool, e: Entry)
    requires !kind(e) && NoneOf(log, kind)
    ensures NoneOf(log + [e], kind)
  {
  }

  lemma {:induction false} CurrentStays(log: seq<Entry>, current: Option<Discovered>, e: Entry)
    requires CurrentIs(log, current) && !e.outcome.Succeeded?
    ensures CurrentIs(log + [e], current)
  {
    match current
    case None => NoneStays(log, SUCCEEDED, e);
    case Some(d) => LastStays(log, SUCCEEDED, e, d.run);
  }

  lemma {:induction false} FailedStays(log: seq<Entry>, failed: Option<Instant>, e: Entry)
    requires FailedIs(log, failed) && e.outcome.Abandoned?
    ensures FailedIs(log + [e], failed)
  {
    if NoneOf(log, COMPLETED) {
      NoneStays(log, COMPLETED, e);
    } else {
      var i: nat :| LastOf(log, COMPLETED, i);
      LastStays(log, COMPLETED, e, i);
    }
  }

  lemma {:induction false} ForcedEnds(s: State, id: nat, outcome: Outcome, t: State)
    requires HolderOk(s) && ForcedIs(s) && id in s.requests && s.requests[id].Discovering?
    requires t.forced == s.forced && t.holder.None?
    requires t.log == s.log + [Entry(s.requests[id].forced, s.requests[id].start, s.now, outcome)]
    ensures ForcedIs(t)
  {
    var e := Entry(s.requests[id].forced, s.requests[id].start, s.now, outcome);
    if e.forced {
      LastIsNew(s.log, FORCED, e);
    } else if s.forced.None? {
      NoneStays(s.log, FORCED, e);
    } else {
      var i: nat :| LastOf(s.log, FORCED, i) && s.log[i].start == s.forced.value;
      LastStays(s.log, FORCED, e, i);
    }
  }

  lemma {:induction false} FinishRemembers(s: State, id: nat, reached: bool)
    requires Inv(s) && Remembers(s) && id in s.requests && s.requests[id].Discovering?
    ensures Remembers(Step(s, Finish(id, reached)))
  {
    var outcome := if reached then Succeeded else Failed;
    var e, t := Entry(s.requests[id].forced, s.requests[id].start, s.now, outcome), Step(s, Finish(id, reached));
    ForcedEnds(s, id, outcome, t);
    LastIsNew(s.log, COMPLETED, e);
    if reached {
      LastIsNew(s.log, SUCCEEDED, e);
    } else {
      CurrentStays(s.log, s.current, e);
    }
  }

  lemma {:induction false} DropRemembers(s: State, id: nat)
    requires Inv(s) && Remembers(s) && id in s.requests && s.requests[id].Discovering?
    ensures Remembers(Step(s, Drop(id)))
  {
    var e := Entry(s.requests[id].forced, s.requests[id].start, s.now, Abandoned);
    ForcedEnds(s, id, Abandoned, Step(s, Drop(id)));
    CurrentStays(s.log, s.current, e);
    FailedStays(s.log, s.failed, e);
  }

  lemma ForcedStays(s: State, t: State)
    requires HolderOk(s) && ForcedIs(s)
    requires t.log == s.log && t.forced == s.forced && t.holder == s.holder
    requires s.holder.Some? ==> s.holder.value in t.requests && t.requests[s.holder.value] == s.requests[s.holder.value]
    ensures ForcedIs(t)
  {
  }

  lemma ForcedBegins(s: State, id: nat, t: State)
    requires ForcedIs(s) && s.holder.None? && t.log == s.log && t.holder == Some(id)
    requires id in t.requests && t.requests[id].Discovering?
    requires t.forced == if t.requests[id].forced then Some(t.requests[id].start) else s.forced
    ensures ForcedIs(t)
  {
  }

  lemma LockChanges(s: State, id: nat)
    requires HolderOk(s)
    ensures
      var t := Step(s, Lock(id));
      && t.log == s.log && t.current == s.current && t.failed == s.failed
      && (|| (&& t.holder == s.holder && t.forced == s.forced
              && (s.holder.Some? ==>
                    s.holder.value in t.requests && t.requests[s.holder.value] == s.requests[s.holder.value]))
          || (&& s.holder.None? && t.holder == Some(id) && id in t.requests && t.requests[id].Discovering?
              && t.forced == if t.requests[id].forced then Some(t.requests[id].start) else s.forced))
  {
  }

  lemma {:induction false} LockRemembers(s: State, id: nat)
    requires Inv(s) && Remembers(s)
    ensures Remembers(Step(s, Lock(id)))
  {
    var t := Step(s, Lock(id));
    LockChanges(s, id);
    assert ForcedIs(t) by {
      if t.holder == s.holder {
        ForcedStays(s, t);
      } else {
        ForcedBegins(s, id, t);
      }
    }
  }

  lemma {:induction false} OtherStepsRemember(s: State, a: Action)
    requires Inv(s) && Remembers(s) && !a.Lock?
    requires a.Finish? || a.Drop? ==> !(a.id in s.requests && s.requests[a.id].Discovering?)
    ensures Remembers(Step(s, a))
  {
    var t := Step(s, a);
    assert t.log == s.log && t.current == s.current && t.failed == s.failed;
    ForcedStays(s, t);
  }

  lemma {:induction false} StepRemembers(s: State, a: Action)
    requires Inv(s) && Remembers(s)
    ensures Remembers(Step(s, a))
  {
    if a.Finish? && a.id in s.requests && s.requests[a.id].Discovering? {
      FinishRemembers(s, a.id, a.reached);
    } else if a.Drop? && a.id in s.requests && s.requests[a.id].Discovering? {
      DropRemembers(s, a.id);
    } else if a.Lock? {
      LockRemembers(s, a.id);
    } else {
      OtherStepsRemember(s, a);
    }
  }

  lemma {:induction false} RunRemembers(schedule: seq<Action>)
    ensures Inv(Run(NEXT, INIT, schedule)) && Remembers(Run(NEXT, INIT, schedule))
  {
    forall t, a | Inv(t) && Remembers(t)
      ensures Inv(NEXT(t, a)) && Remembers(NEXT(t, a))
    {
      StepKeepsInv(t, a);
      StepRemembers(t, a);
    }
    RunKeeps(NEXT, t => Inv(t) && Remembers(t), INIT, schedule);
  }

  // What a request that gets the lock is told.

  /** The last client found is good until its time is up, or is newer than the one it is to replace. */
  ghost predicate Serves(s: State, question: Question, i: nat) {
    && LastOf(s.log, SUCCEEDED, i)
    && match question
       case Client => s.now < s.log[i].end + 300 * NANOS
       case Rediscover(used) => used < s.log[i].end + 300 * NANOS
  }

  /** The last discovery that came to an end failed, less than five seconds ago. */
  ghost predicate FailedLately(s: State) {
    exists i: nat ::
      LastOf(s.log, COMPLETED, i) && s.log[i].outcome.Failed? && s.now < s.log[i].end + 5 * NANOS
  }

  /** The last forced discovery began less than thirty seconds ago. */
  ghost predicate ForcedLately(s: State) {
    exists i: nat :: LastOf(s.log, FORCED, i) && s.now < s.log[i].start + 30 * NANOS
  }

  lemma {:induction false} LastIsOne(log: seq<Entry>, kind: Entry -> bool, i: nat, j: nat)
    requires LastOf(log, kind, i) && LastOf(log, kind, j)
    ensures i == j
  {
  }

  lemma {:induction false} CurrentServes(s: State, question: Question, client: Discovered)
    requires Remembers(s)
    ensures (&& s.current == Some(client)
             && (question.Client? ==> s.now < client.until)
             && (question.Rediscover? ==> question.used < client.until)) <==>
            && Serves(s, question, client.run)
            && client.until == s.log[client.run].end + 300 * NANOS
  {
    if Serves(s, question, client.run) && s.current.Some? {
      LastIsOne(s.log, SUCCEEDED, client.run, s.current.value.run);
    }
  }

  lemma {:induction false} FailureIsRecent(s: State)
    requires Remembers(s) && MemoryOk(s)
    ensures FailedLately(s) <==> s.failed.Some? && s.now - s.failed.value < DISCOVERY_RETRY
  {
    forall i: nat, j: nat | LastOf(s.log, COMPLETED, i) && LastOf(s.log, COMPLETED, j) ensures i == j {
      LastIsOne(s.log, COMPLETED, i, j);
    }
  }

  lemma {:induction false} ForceIsRecent(s: State)
    requires Remembers(s) && MemoryOk(s) && s.holder.None?
    ensures ForcedLately(s) <==> s.forced.Some? && s.now - s.forced.value < REDISCOVERY_INTERVAL
  {
    forall i: nat, j: nat | LastOf(s.log, FORCED, i) && LastOf(s.log, FORCED, j) ensures i == j {
      LastIsOne(s.log, FORCED, i, j);
    }
  }

  ghost predicate Told(s: State, question: Question, phase: Phase) {
    && (forall client :: phase == Answered(Found(client)) <==>
          Serves(s, question, client.run) && client.until == s.log[client.run].end + 300 * NANOS)
    && var served := exists i: nat :: Serves(s, question, i);
       && (phase == Answered(Unreachable) <==> question.Client? && !served && FailedLately(s))
       && (phase == Answered(TooSoon) <==> question.Rediscover? && !served && ForcedLately(s))
       && (phase == Discovering(question.Rediscover?, s.now) <==>
             !served && if question.Client? then !FailedLately(s) else !ForcedLately(s))
  }

  lemma {:induction false} ServedIff(s: State, question: Question)
    requires Remembers(s)
    ensures (exists i: nat :: Serves(s, question, i)) <==>
            && s.current.Some?
            && (question.Client? ==> s.now < s.current.value.until)
            && (question.Rediscover? ==> question.used < s.current.value.until)
  {
    if s.current.Some? {
      CurrentServes(s, question, s.current.value);
    }
    forall i: nat | Serves(s, question, i) ensures s.current.Some? && s.current.value.run == i {
      if s.current.Some? {
        LastIsOne(s.log, SUCCEEDED, i, s.current.value.run);
      }
    }
  }

  lemma {:induction false} LockedTold(s: State, id: nat, question: Question)
    requires Remembers(s) && MemoryOk(s) && s.holder.None? && id in s.requests && s.requests[id] == Waiting(question)
    ensures Told(s, question, Step(s, Lock(id)).requests[id])
  {
    var phase := Step(s, Lock(id)).requests[id];
    ServedIff(s, question);
    FailureIsRecent(s);
    ForceIsRecent(s);
    forall client
      ensures phase == Answered(Found(client)) <==>
              Serves(s, question, client.run) && client.until == s.log[client.run].end + 300 * NANOS
    {
      CurrentServes(s, question, client);
    }
  }

  /** In every run, a request that gets the lock is handed the last client found if and only if that one
      is still good or is newer than the one asked to be replaced; is told the provider is unreachable if
      and only if it is a plain one, no client serves, and the last discovery that ended failed less than
      5 s ago; is told it is too soon if and only if it asks for another client, none is newer, and the
      last forced discovery began less than 30 s ago; and runs a discovery in every other case. */
  lemma {:induction false} EveryRequestIsTold(schedule: seq<Action>, id: nat)
    requires
      var s := Run(NEXT, INIT, schedule);
      s.holder.None? && id in s.requests && s.requests[id].Waiting?
    ensures
      var s := Run(NEXT, INIT, schedule);
      Told(s, s.requests[id].question, Step(s, Lock(id)).requests[id])
  {
    RunRemembers(schedule);
    var s := Run(NEXT, INIT, schedule);
    LockedTold(s, id, s.requests[id].question);
  }

  // What the request that discovers is told.

  /** A discovery that comes to an end is logged, and the request that ran it is handed the client found
      if and only if it succeeded, and told the provider is unreachable if and only if it failed. */
  lemma {:induction false} EveryDiscoveryIsTold(s: State, a: Action, id: nat)
    requires id in s.requests && s.requests[id].Discovering? && HolderOk(s)
    ensures
      var t := Step(s, a);
      var e := if |t.log| > |s.log| then Some(t.log[|s.log|]) else None;
      && (t.requests[id] == s.requests[id] <==> e.None?)
      && (e.Some? ==> e.value.end == s.now && e.value.forced == s.requests[id].forced
                      && e.value.start == s.requests[id].start)
      && (t.requests[id] == Answered(Found(Discovered(|s.log|, s.now + 300 * NANOS))) <==>
            e.Some? && e.value.outcome.Succeeded?)
      && (t.requests[id] == Answered(Unreachable) <==> e.Some? && e.value.outcome.Failed?)
      && (t.requests[id] == Dropped <==> e.Some? && e.value.outcome.Abandoned?)
  {
    assert s.holder == Some(id);
  }

  ghost predicate Ended(s: State, id: nat, phase: Phase) {
    id in s.requests && s.requests[id] == phase
  }

  /** An answer is not changed after it is given. */
  lemma {:induction false} AnswersAreFinal(before: seq<Action>, after: seq<Action>, id: nat)
    requires
      var s := Run(NEXT, INIT, before);
      id in s.requests && (s.requests[id].Answered? || s.requests[id].Dropped?)
    ensures
      Ended(Run(NEXT, INIT, before + after), id, Run(NEXT, INIT, before).requests[id])
  {
    var s := Run(NEXT, INIT, before);
    var phase := s.requests[id];
    forall t, a | Ended(t, id, phase) ensures Ended(NEXT(t, a), id, phase) {
    }
    RunKeeps(NEXT, t => Ended(t, id, phase), s, after);
    RunInParts(NEXT, INIT, before, after);
  }

  // The clock.

  function Elapsed(schedule: seq<Action>): nat {
    if schedule == [] then 0
    else
      var last := schedule[|schedule| - 1];
      Elapsed(schedule[..|schedule| - 1]) + if last.Tick? then last.elapsed else 0
  }

  /** It shows all the time that passed, whatever else happened. */
  lemma {:induction false} ClockShowsElapsed(schedule: seq<Action>)
    ensures Run(NEXT, INIT, schedule).now == Elapsed(schedule)
  {
    if schedule != [] {
      ClockShowsElapsed(schedule[..|schedule| - 1]);
    }
  }
}
