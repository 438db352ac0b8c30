/**
  The shared discovery of the identity provider: one client kept for its time to live, one lock
  held across a discovery, a failure remembered for a while, and a forced refresh at most so often.

  A request waits for the lock, and once it has it is answered from what is kept or runs a
  discovery under it. The clock never goes back. A request may be dropped while it waits or while
  its discovery runs, which releases the lock and records nothing, except that a forced refresh
  has already been marked.
*/
module Discovery {
  import opened Schedules
  import opened Wrappers

  /** Nanoseconds since some fixed moment. */
  type Instant = nat

  const SECOND: nat := 1_000_000_000
  const DISCOVERY_TTL: nat := 300 * SECOND
  const DISCOVERY_RETRY: nat := 5 * SECOND
  const REDISCOVERY_INTERVAL: nat := 30 * SECOND

  /** A client built by discovery number `run`, and until when it is used. */
  datatype Discovered = Discovered(run: nat, until: Instant)

  /** What a request asks: a client, or one newer than the one whose keys lacked a token's. */
  datatype Question = Client | Rediscover(used: Instant)

  datatype Result = Found(client: Discovered) | Unreachable | TooSoon

  datatype Phase =
    | Waiting(question: Question)
    | Discovering(forced: bool, start: Instant)
    | Answered(result: Result)
    | Dropped

  datatype Outcome = Succeeded | Failed | Abandoned

  /** One discovery that is over. */
  datatype Entry = Entry(forced: bool, start: Instant, end: Instant, outcome: Outcome)

  datatype State = State(
    now: Instant,
    current: Option<Discovered>,
    failed: Option<Instant>,
    forced: Option<Instant>,
    holder: Option<nat>,
    requests: map<nat, Phase>,
    log: seq<Entry>)

  datatype Action =
    | Tick(elapsed: nat)
    | Ask(id: nat, question: Question)
    | Lock(id: nat)
    | Finish(id: nat, reached: bool)
    | Drop(id: nat)

  const INIT: State := State(0, None, None, None, None, map[], [])

  function To(s: State, id: nat, phase: Phase): State {
    s.(requests := s.requests[id := phase])
  }

  /** What a request does once it has the lock. */
  function Locked(s: State, id: nat, question: Question): State {
    match question
    case Client =>
      if s.current.Some? && s.now < s.current.value.until then
        To(s, id, Answered(Found(s.current.value)))
      else if s.failed.Some? && s.now - s.failed.value < DISCOVERY_RETRY then
        To(s, id, Answered(Unreachable))
      else
        To(s.(holder := Some(id)), id, Discovering(false, s.now))
    case Rediscover(used) =>
      if s.current.Some? && s.current.value.until > used then
        To(s, id, Answered(Found(s.current.value)))
      else if s.forced.Some? && s.now - s.forced.value < REDISCOVERY_INTERVAL then
        To(s, id, Answered(TooSoon))
      else
        To(s.(forced := Some(s.now), holder := Some(id)), id, Discovering(true, s.now))
  }

  function Step(s: State, a: Action): State {
    match a
    case Tick(elapsed) => s.(now := s.now + elapsed)
    case Ask(id, question) => if id in s.requests then s else To(s, id, Waiting(question))
    case Lock(id) =>
      if id in s.requests && s.requests[id].Waiting? && s.holder.None?
      then Locked(s, id, s.requests[id].question)
      else s
    case Finish(id, reached) =>
      if id !in s.requests || !s.requests[id].Discovering? then s
      else
        var Discovering(forced, start) := s.requests[id];
        var over := s.(holder := None);
        if reached then
          var found := Discovered(|s.log|, s.now + DISCOVERY_TTL);
          To(over.(current := Some(found), failed := None,
                   log := s.log + [Entry(forced, start, s.now, Succeeded)]),
             id, Answered(Found(found)))
        else
          To(over.(failed := Some(s.now), log := s.log + [Entry(forced, start, s.now, Failed)]),
             id, Answered(Unreachable))
    case Drop(id) =>
      if id !in s.requests then s
      else if s.requests[id].Waiting? then To(s, id, Dropped)
      else if s.requests[id].Discovering? then
        To(s.(holder := None,
              log := s.log + [Entry(s.requests[id].forced, s.requests[id].start, s.now, Abandoned)]),
           id, Dropped)
      else s
  }

  const NEXT: (State, Action) -> State := (s, a) => Step(s, a)

  predicate Completed(e: Entry) {
    !e.outcome.Abandoned?
  }

  /** A discovery that began at `start` after those in `log`: it began after they ended, one that
      was forced long enough after every forced one began, and one that was not, long enough after
      every one that failed ended and after every success had run out. */
  ghost predicate FollowsAll(log: seq<Entry>, forced: bool, start: Instant) {
    forall i :: 0 <= i < |log| ==>
      && log[i].end <= start
      && (forced && log[i].forced ==> log[i].start + REDISCOVERY_INTERVAL <= start)
      && (!forced && log[i].outcome.Failed? ==> log[i].end + DISCOVERY_RETRY <= start)
      && (!forced && log[i].outcome.Succeeded? ==> log[i].end + DISCOVERY_TTL <= start)
  }

  ghost predicate LogOk(log: seq<Entry>) {
    forall j :: 0 <= j < |log| ==>
      log[j].start <= log[j].end && FollowsAll(log[..j], log[j].forced, log[j].start)
  }

  /** What is remembered agrees with what has happened. */
  ghost predicate MemoryOk(s: State) {
    && (s.failed.Some? ==> s.failed.value <= s.now)
    && (s.forced.Some? ==> s.forced.value <= s.now)
    && (s.current.Some? ==> s.current.value.until <= s.now + DISCOVERY_TTL)
    && forall i :: 0 <= i < |s.log| ==>
         && s.log[i].end <= s.now
         && (s.log[i].forced ==> s.forced.Some? && s.log[i].start <= s.forced.value)
         && (s.log[i].outcome.Succeeded? ==>
               s.current.Some? && s.log[i].end + DISCOVERY_TTL <= s.current.value.until)
         && (s.log[i].outcome.Failed? ==>
               || (s.failed.Some? && s.log[i].end <= s.failed.value)
               || (s.current.Some? && s.log[i].end + DISCOVERY_TTL <= s.current.value.until))
  }

  /** The lock is held by exactly the one request whose discovery runs. */
  ghost predicate HolderOk(s: State) {
    && (forall id :: id in s.requests && s.requests[id].Discovering? ==> s.holder == Some(id))
    && (s.holder.Some? ==>
          && s.holder.value in s.requests && s.requests[s.holder.value].Discovering?
          && s.requests[s.holder.value].start <= s.now
          && FollowsAll(s.log, s.requests[s.holder.value].forced, s.requests[s.holder.value].start)
          && (s.requests[s.holder.value].forced ==> s.forced == Some(s.requests[s.holder.value].start)))
  }

  ghost predicate Genuine(log: seq<Entry>, d: Discovered) {
    d.run < |log| && log[d.run].outcome.Succeeded? && d.until == log[d.run].end + DISCOVERY_TTL
  }

  /** Every client kept or handed out was found by a discovery that succeeded. */
  ghost predicate ClientsOk(s: State) {
    && (s.current.Some? ==> Genuine(s.log, s.current.value))
    && (forall id :: id in s.requests && s.requests[id].Answered? && s.requests[id].result.Found? ==>
          Genuine(s.log, s.requests[id].result.client))
  }

  ghost predicate Inv(s: State) {
    LogOk(s.log) && MemoryOk(s) && HolderOk(s) && ClientsOk(s)
  }

  lemma {:induction false} LogGrows(log: seq<Entry>, e: Entry)
    requires LogOk(log) && e.start <= e.end && FollowsAll(log, e.forced, e.start)
    ensures LogOk(log + [e])
  {
    forall j | 0 <= j < |log + [e]|
      ensures FollowsAll((log + [e])[..j], (log + [e])[j].forced, (log + [e])[j].start)
    {
      assert j < |log| ==> (log + [e])[..j] == log[..j];
      assert (log + [e])[..|log|] == log;
    }
  }

  /** A discovery begun because nothing kept answers comes after everything before it. */
  lemma {:induction false} ClientStartFollows(s: State)
    requires MemoryOk(s)
    requires s.current.Some? ==> s.current.value.until <= s.now
    requires s.failed.Some? ==> s.failed.value + DISCOVERY_RETRY <= s.now
    ensures FollowsAll(s.log, false, s.now)
  {
  }

  lemma {:induction false} ForcedStartFollows(s: State)
    requires MemoryOk(s)
    requires s.forced.Some? ==> s.forced.value + REDISCOVERY_INTERVAL <= s.now
    ensures FollowsAll(s.log, true, s.now)
  {
  }

  lemma {:induction false} AnswerKeeps(s: State, id: nat, result: Result)
    requires Inv(s) && id in s.requests && s.requests[id].Waiting?
    requires result.Found? ==> s.current == Some(result.client)
    ensures Inv(To(s, id, Answered(result)))
  {
  }

  lemma {:induction false} StartKeeps(s: State, id: nat, forced: bool)
    requires Inv(s) && s.holder.None? && id in s.requests && FollowsAll(s.log, forced, s.now)
    ensures Inv(To(s.(forced := if forced then Some(s.now) else s.forced, holder := Some(id)),
                   id, Discovering(forced, s.now)))
  {
  }

  lemma {:induction false} ClientKeeps(s: State, id: nat)
    requires Inv(s) && id in s.requests && s.requests[id] == Waiting(Client) && s.holder.None?
    ensures Inv(Locked(s, id, Client))
  {
    if s.current.Some? && s.now < s.current.value.until {
      AnswerKeeps(s, id, Found(s.current.value));
    } else if s.failed.Some? && s.now - s.failed.value < DISCOVERY_RETRY {
      AnswerKeeps(s, id, Unreachable);
    } else {
      ClientStartFollows(s);
      StartKeeps(s, id, false);
    }
  }

  lemma {:induction false} RediscoverKeeps(s: State, id: nat, used: Instant)
    requires Inv(s) && id in s.requests && s.requests[id] == Waiting(Rediscover(used)) && s.holder.None?
    ensures Inv(Locked(s, id, Rediscover(used)))
  {
    if s.current.Some? && s.current.value.until > used {
      AnswerKeeps(s, id, Found(s.current.value));
    } else if s.forced.Some? && s.now - s.forced.value < REDISCOVERY_INTERVAL {
      AnswerKeeps(s, id, TooSoon);
    } else {
      ForcedStartFollows(s);
      StartKeeps(s, id, true);
    }
  }

  /** Adding the discovery that just ended to the log. */
  lemma {:induction false} EndKeepsLog(s: State, id: nat, outcome: Outcome)
    requires Inv(s) && id in s.requests && s.requests[id].Discovering?
    ensures LogOk(s.log + [Entry(s.requests[id].forced, s.requests[id].start, s.now, outcome)])
  {
    LogGrows(s.log, Entry(s.requests[id].forced, s.requests[id].start, s.now, outcome));
  }

  lemma {:induction false} FinishKeeps(s: State, id: nat, reached: bool)
    requires Inv(s) && id in s.requests && s.requests[id].Discovering?
    ensures Inv(Step(s, Finish(id, reached)))
  {
    var outcome := if reached then Succeeded else Failed;
    EndKeepsLog(s, id, outcome);
    var s' := Step(s, Finish(id, reached));
    var e := Entry(s.requests[id].forced, s.requests[id].start, s.now, outcome);
    assert s'.log == s.log + [e];
    assert forall i :: 0 <= i < |s.log| ==> s'.log[i] == s.log[i];
    assert s'.log[|s.log|] == e;
    assert MemoryOk(s');
    assert HolderOk(s');
    assert ClientsOk(s');
  }

  lemma {:induction false} DropKeeps(s: State, id: nat)
    requires Inv(s) && id in s.requests
    ensures Inv(Step(s, Drop(id)))
  {
    if s.requests[id].Discovering? {
      AbandonKeeps(s, id);
    }
  }

  lemma {:induction false} AbandonKeeps(s: State, id: nat)
    requires Inv(s) && id in s.requests && s.requests[id].Discovering?
    ensures Inv(Step(s, Drop(id)))
  {
    EndKeepsLog(s, id, Abandoned);
    var s' := Step(s, Drop(id));
    var e := Entry(s.requests[id].forced, s.requests[id].start, s.now, Abandoned);
    assert s'.log == s.log + [e];
    assert forall i :: 0 <= i < |s.log| ==> s'.log[i] == s.log[i];
    assert s'.log[|s.log|] == e;
    assert MemoryOk(s');
    assert HolderOk(s');
    assert ClientsOk(s');
  }

  lemma {:induction false} StepKeepsInv(s: State, a: Action)
    requires Inv(s)
    ensures Inv(Step(s, a))
  {
    match a
    case Tick(_) =>
    case Ask(_, _) =>
    case Lock(id) =>
      if id in s.requests && s.requests[id].Waiting? && s.holder.None? {
        match s.requests[id].question {
          case Client => ClientKeeps(s, id);
          case Rediscover(used) => RediscoverKeeps(s, id, used);
        }
      }
    case Finish(id, reached) =>
      if id in s.requests && s.requests[id].Discovering? {
        FinishKeeps(s, id, reached);
      }
    case Drop(id) =>
      if id in s.requests {
        DropKeeps(s, id);
      }
  }

  lemma {:induction false} RunKeepsInv(schedule: seq<Action>)
    ensures Inv(Run(NEXT, INIT, schedule))
  {
    forall t, a | Inv(t)
      ensures Inv(NEXT(t, a))
    {
      StepKeepsInv(t, a);
    }
    RunKeeps(NEXT, t => Inv(t), INIT, schedule);
  }

  /** In every run: no two discoveries overlap, finished or running; forced ones begin at least
      `REDISCOVERY_INTERVAL` apart; one that was not forced begins no sooner than
      `DISCOVERY_RETRY` after any before it failed and not before any success had run out. */
  lemma {:induction false} DiscoveriesAreSpaced(schedule: seq<Action>)
    ensures
      var s := Run(NEXT, INIT, schedule);
      && (forall i, j :: 0 <= i < j < |s.log| ==>
            && s.log[i].end <= s.log[j].start
            && (s.log[i].forced && s.log[j].forced ==>
                  s.log[i].start + REDISCOVERY_INTERVAL <= s.log[j].start)
            && (!s.log[j].forced && s.log[i].outcome.Failed? ==>
                  s.log[i].end + DISCOVERY_RETRY <= s.log[j].start)
            && (!s.log[j].forced && s.log[i].outcome.Succeeded? ==>
                  s.log[i].end + DISCOVERY_TTL <= s.log[j].start))
      && (forall id, other ::
            (&& id in s.requests && s.requests[id].Discovering?
             && other in s.requests && s.requests[other].Discovering?) ==> id == other)
      && (forall id :: id in s.requests && s.requests[id].Discovering? ==>
            FollowsAll(s.log, s.requests[id].forced, s.requests[id].start))
  {
    RunKeepsInv(schedule);
    var s := Run(NEXT, INIT, schedule);
    forall i, j | 0 <= i < j < |s.log|
      ensures
        && s.log[i].end <= s.log[j].start
        && (s.log[i].forced && s.log[j].forced ==>
              s.log[i].start + REDISCOVERY_INTERVAL <= s.log[j].start)
        && (!s.log[j].forced && s.log[i].outcome.Failed? ==>
              s.log[i].end + DISCOVERY_RETRY <= s.log[j].start)
        && (!s.log[j].forced && s.log[i].outcome.Succeeded? ==>
              s.log[i].end + DISCOVERY_TTL <= s.log[j].start)
    {
      assert FollowsAll(s.log[..j], s.log[j].forced, s.log[j].start);
      assert s.log[..j][i] == s.log[i];
    }
  }

  ghost predicate LaterThan(s: State, until: Instant) {
    s.current.Some? && until <= s.current.value.until
  }

  lemma {:induction false} LaterStep(s: State, a: Action, until: Instant)
    requires MemoryOk(s) && LaterThan(s, until)
    ensures LaterThan(Step(s, a), until)
  {
  }

  /** Once a client is kept, one is always kept, and it is never replaced by one that runs out
      sooner. */
  lemma {:induction false} UntilNeverDecreases(before: seq<Action>, after: seq<Action>)
    requires Run(NEXT, INIT, before).current.Some?
    ensures
      var s := Run(NEXT, INIT, before);
      var t := Run(NEXT, INIT, before + after);
      t.current.Some? && s.current.value.until <= t.current.value.until
  {
    var s := Run(NEXT, INIT, before);
    RunKeepsInv(before);
    forall t, a | Inv(t) && LaterThan(t, s.current.value.until)
      ensures Inv(NEXT(t, a)) && LaterThan(NEXT(t, a), s.current.value.until)
    {
      StepKeepsInv(t, a);
      LaterStep(t, a, s.current.value.until);
    }
    RunKeeps(NEXT, t => Inv(t) && LaterThan(t, s.current.value.until), s, after);
    RunInParts(NEXT, INIT, before, after);
  }

  /** A request is handed only a client that a successful discovery found: one asked for plainly
      is still within its time to live, and one asked for in place of another is newer. */
  lemma {:induction false} ClientsAreFresh(schedule: seq<Action>, id: nat)
    requires
      var s := Run(NEXT, INIT, schedule);
      id in s.requests && s.requests[id].Waiting?
    ensures
      var s := Run(NEXT, INIT, schedule);
      var phase := Step(s, Lock(id)).requests[id];
      phase.Answered? && phase.result.Found? ==>
        && Genuine(s.log, phase.result.client)
        && (s.requests[id].question.Client? ==> s.now < phase.result.client.until)
        && (s.requests[id].question.Rediscover? ==> s.requests[id].question.used < phase.result.client.until)
  {
    RunKeepsInv(schedule);
  }

  /** How many of `log` are of a kind and began within `lo` and `hi`. */
  function Starts(log: seq<Entry>, kind: Entry -> bool, lo: int, hi: int): nat {
    if log == [] then 0
    else
      var e := log[|log| - 1];
      Starts(log[..|log| - 1], kind, lo, hi) + if kind(e) && lo <= e.start <= hi then 1 else 0
  }

  const ANY: Entry -> bool := (e: Entry) => true
  const FORCED: Entry -> bool := (e: Entry) => e.forced
  const PLAIN: Entry -> bool := (e: Entry) => !e.forced && Completed(e)
  const PLAIN_ABANDONED: Entry -> bool := (e: Entry) => !e.forced && !Completed(e)

  ghost predicate Spaced(log: seq<Entry>, kind: Entry -> bool, gap: nat) {
    forall i, j ::
      0 <= i < j < |log| && kind(log[i]) && kind(log[j]) ==> log[i].start + gap <= log[j].start
  }

  lemma {:induction false} StartsWithin(log: seq<Entry>, kind: Entry -> bool, lo: int, hi: int, hi': int)
    requires hi' <= hi
    requires forall i :: 0 <= i < |log| && kind(log[i]) ==> log[i].start <= hi'
    ensures Starts(log, kind, lo, hi) == Starts(log, kind, lo, hi')
  {
    if log != [] {
      StartsWithin(log[..|log| - 1], kind, lo, hi, hi');
    }
  }

  lemma {:induction false} StartsOutside(log: seq<Entry>, kind: Entry -> bool, lo: int, hi: int)
    requires hi < lo
    ensures Starts(log, kind, lo, hi) == 0
  {
    if log != [] {
      StartsOutside(log[..|log| - 1], kind, lo, hi);
    }
  }

  /** Every discovery is forced, or runs to its end, or is abandoned. */
  lemma {:induction false} StartsSplit(log: seq<Entry>, lo: int, hi: int)
    ensures Starts(log, ANY, lo, hi) ==
            Starts(log, FORCED, lo, hi) + Starts(log, PLAIN, lo, hi) + Starts(log, PLAIN_ABANDONED, lo, hi)
  {
    if log != [] {
      StartsSplit(log[..|log| - 1], lo, hi);
    }
  }

  lemma {:induction false} OneMore(n: int, gap: nat, d: int)
    requires (n - 1) * gap <= d - gap
    ensures n * gap <= d
  {
    assert n * gap == (n - 1) * gap + gap;
  }

  lemma {:induction false} MulKeepsOrder(a: int, b: int, gap: nat)
    ensures a >= b ==> a * gap >= b * gap
  {
    assert a * gap - b * gap == (a - b) * gap;
  }

  lemma {:induction false} AtMost(n: int, gap: nat, w: nat)
    requires gap > 0 && (n - 1) * gap <= w
    ensures n <= w / gap + 1
  {
    assert w < (w / gap + 1) * gap;
    MulKeepsOrder(n - 1, w / gap + 1, gap);
  }

  /** Entries `gap` apart: at most one, and one more for each `gap` the window holds. */
  lemma {:induction false} SpacedAreFew(log: seq<Entry>, kind: Entry -> bool, gap: nat, lo: int, hi: int)
    requires gap > 0 && lo <= hi && Spaced(log, kind, gap)
    ensures (Starts(log, kind, lo, hi) - 1) * gap <= hi - lo
  {
    if log != [] {
      var rest := log[..|log| - 1];
      var e := log[|log| - 1];
      assert Spaced(rest, kind, gap);
      if kind(e) && lo <= e.start <= hi {
        forall i | 0 <= i < |rest| && kind(rest[i])
          ensures rest[i].start <= e.start - gap
        {
          assert log[i].start + gap <= log[|log| - 1].start;
        }
        StartsWithin(rest, kind, lo, hi, e.start - gap);
        if e.start - gap < lo {
          StartsOutside(rest, kind, lo, e.start - gap);
        } else {
          SpacedAreFew(rest, kind, gap, lo, e.start - gap);
          OneMore(Starts(rest, kind, lo, e.start - gap), gap, e.start - lo);
        }
      } else {
        SpacedAreFew(rest, kind, gap, lo, hi);
      }
    }
  }

  /** Every discovery begun: those in the log, and the one that runs as if it ended now. */
  function Begun(s: State): seq<Entry> {
    if s.holder.None? then s.log else Step(s, Finish(s.holder.value, false)).log
  }

  lemma {:induction false} BegunIsOk(schedule: seq<Action>)
    ensures LogOk(Begun(Run(NEXT, INIT, schedule)))
  {
    RunKeepsInv(schedule);
    var s := Run(NEXT, INIT, schedule);
    if s.holder.Some? {
      FinishKeeps(s, s.holder.value, false);
    }
  }

  lemma {:induction false} BegunIsSpaced(log: seq<Entry>)
    requires LogOk(log)
    ensures Spaced(log, PLAIN, DISCOVERY_RETRY) && Spaced(log, FORCED, REDISCOVERY_INTERVAL)
  {
    forall i, j | 0 <= i < j < |log|
      ensures PLAIN(log[i]) && PLAIN(log[j]) ==> log[i].start + DISCOVERY_RETRY <= log[j].start
      ensures FORCED(log[i]) && FORCED(log[j]) ==> log[i].start + REDISCOVERY_INTERVAL <= log[j].start
    {
      assert FollowsAll(log[..j], log[j].forced, log[j].start);
      assert log[..j][i] == log[i];
    }
  }

  /** The rate at which the provider is asked. In every run, of the discoveries begun within any
      window of length `w`, running or over: the forced ones, abandoned or not, are at most
      `w / 30 s + 1`; the others that were not abandoned are at most `w / 5 s + 1`; and so all are at
      most the sum of these and the plain ones abandoned. */
  lemma {:induction false} DiscoveriesAreFew(schedule: seq<Action>, lo: Instant, w: nat)
    ensures
      var begun := Begun(Run(NEXT, INIT, schedule));
      && Starts(begun, FORCED, lo, lo + w) <= w / REDISCOVERY_INTERVAL + 1
      && Starts(begun, PLAIN, lo, lo + w) <= w / DISCOVERY_RETRY + 1
      && Starts(begun, ANY, lo, lo + w) <=
           w / DISCOVERY_RETRY + w / REDISCOVERY_INTERVAL + 2 + Starts(begun, PLAIN_ABANDONED, lo, lo + w)
  {
    BegunIsOk(schedule);
    var begun := Begun(Run(NEXT, INIT, schedule));
    BegunIsSpaced(begun);
    SpacedAreFew(begun, PLAIN, DISCOVERY_RETRY, lo, lo + w);
    SpacedAreFew(begun, FORCED, REDISCOVERY_INTERVAL, lo, lo + w);
    AtMost(Starts(begun, PLAIN, lo, lo + w), DISCOVERY_RETRY, w);
    AtMost(Starts(begun, FORCED, lo, lo + w), REDISCOVERY_INTERVAL, w);
    StartsSplit(begun, lo, lo + w);
  }

  /** Nothing bounds that last term: a request dropped while its discovery runs records
      nothing, so the next begins another, any number of times at one instant. */
  lemma {:induction false} AbandonedDiscoveriesAreUnbounded(n: nat) returns (schedule: seq<Action>)
    ensures
      var s := Run(NEXT, INIT, schedule);
      && |s.log| == n
      && (forall i :: 0 <= i < n ==> s.log[i] == Entry(false, 0, 0, Abandoned))
      && s == INIT.(log := s.log, requests := s.requests)
      && (forall id :: id in s.requests ==> id < n)
  {
    schedule := [];
    if n > 0 {
      var before := AbandonedDiscoveriesAreUnbounded(n - 1);
      var s := Run(NEXT, INIT, before);
      RunOne(NEXT, INIT, before, Ask(n - 1, Client));
      var asked := before + [Ask(n - 1, Client)];
      RunOne(NEXT, INIT, asked, Lock(n - 1));
      RunOne(NEXT, INIT, asked + [Lock(n - 1)], Drop(n - 1));
      schedule := asked + [Lock(n - 1)] + [Drop(n - 1)];
      assert Run(NEXT, INIT, asked) == To(s, n - 1, Waiting(Client));
      assert Run(NEXT, INIT, schedule).log == s.log + [Entry(false, 0, 0, Abandoned)];
    }
  }
}
