/**
  The configuration poll: `GET /v1/config`, held until a write may have changed what is served.

  Writers commit, the database notifies, one listening connection counts what it hears into a
  watch channel, and every poll goes through subscribe, read, compile, perhaps wait and re-read,
  and answer. Each of those is one step here, and a schedule is any sequence of steps; a step
  that is not enabled changes nothing, so every interleaving is a schedule and every schedule an
  interleaving. A client may hang up at any of them.
*/
module LongPoll {
  import opened Schedules
  import opened Wrappers

  /** The committed contents of the database, named by a number. */
  type Snapshot = int
  type Bytes = seq<int>
  type Tag = seq<int>

  /** What a data plane that names no features is taken to read. */
  const LEGACY_FEATURES: set<string> := {"jwt", "key_auth"}

  /** The compiler and the hash, opaque: only that they are functions of the snapshot matters. */
  datatype Compiler = Compiler(
    body: Snapshot -> Option<Bytes>,
    needs: Snapshot -> set<string>,
    digest: Bytes -> Tag)

  datatype Served = Served(body: Bytes, etag: Tag, needs: set<string>)

  /** The bytes of what `snapshot` compiles to, their tag, and what reading them takes; none when
      they do not serialise. */
  function ServedFrom(c: Compiler, snapshot: Snapshot): Option<Served> {
    match c.body(snapshot)
    case None => None
    case Some(body) => Some(Served(body, c.digest(body), c.needs(snapshot)))
  }

  datatype Request = Request(sent: Option<Tag>, has: Option<set<string>>, waits: bool)

  function Missing(needs: set<string>, has: Option<set<string>>): set<string> {
    needs - (if has.Some? then has.value else LEGACY_FEATURES)
  }

  datatype Answer =
    | NotModified(etag: Tag)
    | Incompatible(missing: set<string>)
    | Configuration(body: Bytes, etag: Tag)
    | Unavailable
    | Failed

  function Reply(request: Request, served: Served): Answer {
    if request.sent == Some(served.etag) then
      NotModified(served.etag)
    else if Missing(served.needs, request.has) != {} then
      Incompatible(Missing(served.needs, request.has))
    else
      Configuration(served.body, served.etag)
  }

  /** How far a poll has got. `seen` is the watch counter it marked as seen, `at` the place in the
      commit log of the snapshot it holds. */
  datatype Phase =
    | Arrived
    | Subscribed(seen: nat)
    | HasRead(seen: nat, at: nat)
    | Held(seen: nat, at: nat)
    | Woken
    | Answered(answer: Answer, at: nat)
    | Gone

  /** `since` is the length of the commit log when the poll subscribed. */
  datatype Poll = Poll(request: Request, since: nat, phase: Phase)

  /** The listening connection. After `LISTEN` succeeds it is `Listening`, and `Up` once that has
      been counted into the watch channel for whatever was missed. */
  datatype Link = Down | Listening | Up

  datatype State = State(
    log: seq<Snapshot>,
    counter: nat,
    link: Link,
    undelivered: nat,
    polls: map<nat, Poll>)

  datatype Action =
    | Commit(snapshot: Snapshot)
    | Connect
    | Announce
    | Deliver
    | LoseLink
    | Arrive(id: nat, request: Request)
    | Subscribe(id: nat)
    | Read(id: nat, readable: bool)
    | Compile(id: nat)
    | Wake(id: nat)
    | TimeOut(id: nat)
    | Reread(id: nat, readable: bool)
    | HangUp(id: nat)

  function Init(first: Snapshot): State {
    State([first], 0, Down, 0, map[])
  }

  function WithPhase(s: State, id: nat, phase: Phase): State
    requires id in s.polls
  {
    s.(polls := s.polls[id := s.polls[id].(phase := phase)])
  }

  /** The writers, the notifications and the listening connection. */
  function StoreStep(s: State, a: Action): State {
    match a
    case Commit(snapshot) =>
      s.(log := s.log + [snapshot],
         undelivered := if s.link.Down? then s.undelivered else s.undelivered + 1)
    case Connect => if s.link.Down? then s.(link := Listening) else s
    case Announce => if s.link.Listening? then s.(link := Up, counter := s.counter + 1) else s
    case Deliver =>
      if s.link.Up? && s.undelivered > 0
      then s.(undelivered := s.undelivered - 1, counter := s.counter + 1)
      else s
    case LoseLink => s.(link := Down, undelivered := 0)
    case _ => s
  }

  /** One step of the poll `id`, in the order `serve` takes them. */
  function PollStep(c: Compiler, s: State, id: nat, a: Action): State
    requires id in s.polls && s.log != []
  {
    var poll := s.polls[id];
    var newest := |s.log| - 1;
    match (a, poll.phase)
    case (Subscribe(_), Arrived) =>
      s.(polls := s.polls[id := Poll(poll.request, |s.log|, Subscribed(s.counter))])
    case (Read(_, readable), Subscribed(seen)) =>
      WithPhase(s, id, if readable then HasRead(seen, newest) else Answered(Unavailable, newest))
    case (Compile(_), HasRead(seen, at)) =>
      if at >= |s.log| then s else
      (match ServedFrom(c, s.log[at])
       case None => WithPhase(s, id, Answered(Failed, at))
       case Some(served) =>
         if poll.request.waits && poll.request.sent == Some(served.etag)
         then WithPhase(s, id, Held(seen, at))
         else WithPhase(s, id, Answered(Reply(poll.request, served), at)))
    case (Wake(_), Held(seen, _)) =>
      if s.counter != seen then WithPhase(s, id, Woken) else s
    case (TimeOut(_), Held(seen, at)) =>
      if s.counter != seen || at >= |s.log| then s else
      (match ServedFrom(c, s.log[at])
       case None => s
       case Some(served) => WithPhase(s, id, Answered(Reply(poll.request, served), at)))
    case (Reread(_, readable), Woken) =>
      (match ServedFrom(c, s.log[newest])
       case Some(served) =>
         WithPhase(s, id, Answered(if readable then Reply(poll.request, served) else Unavailable, newest))
       case None => WithPhase(s, id, Answered(Unavailable, newest)))
    case (HangUp(_), Answered(_, _)) => s
    case (HangUp(_), _) => WithPhase(s, id, Gone)
    case _ => s
  }

  /** The poll an action is a step of, if it is one of a poll's own steps. */
  function PollOf(a: Action): Option<nat> {
    match a
    case Subscribe(id) => Some(id)
    case Read(id, _) => Some(id)
    case Compile(id) => Some(id)
    case Wake(id) => Some(id)
    case TimeOut(id) => Some(id)
    case Reread(id, _) => Some(id)
    case HangUp(id) => Some(id)
    case _ => None
  }

  function Step(c: Compiler, s: State, a: Action): State {
    if a.Arrive? then
      if a.id in s.polls then s else s.(polls := s.polls[a.id := Poll(a.request, 0, Arrived)])
    else if PollOf(a).Some? then
      if PollOf(a).value in s.polls && s.log != [] then PollStep(c, s, PollOf(a).value, a) else s
    else
      StoreStep(s, a)
  }

  function Next(c: Compiler): (State, Action) -> State {
    (s, a) => Step(c, s, a)
  }

  /** Nothing was committed after place `at` of the log, or the news of it has reached the counter
      since it read `seen`, or is still on its way: a notification not yet delivered, or a
      connection whose making will be counted. */
  ghost predicate Covered(s: State, seen: nat, at: nat) {
    at + 1 == |s.log| || s.counter > seen || s.undelivered > 0 || s.link != Up
  }

  /** What an answer says is true of the one snapshot `snapshot`. */
  ghost predicate AnswerHolds(c: Compiler, request: Request, snapshot: Snapshot, answer: Answer) {
    var needs := c.needs(snapshot);
    match answer
    case NotModified(etag) =>
      request.sent == Some(etag) && c.body(snapshot).Some? && etag == c.digest(c.body(snapshot).value)
    case Configuration(body, etag) =>
      && c.body(snapshot) == Some(body)
      && etag == c.digest(body)
      && request.sent != Some(etag)
      && needs <= (if request.has.Some? then request.has.value else LEGACY_FEATURES)
    case Incompatible(missing) =>
      && missing != {}
      && (forall f :: f in missing <==>
            f in needs && f !in (if request.has.Some? then request.has.value else LEGACY_FEATURES))
      && c.body(snapshot).Some?
      && request.sent != Some(c.digest(c.body(snapshot).value))
    case Unavailable => true
    case Failed => c.body(snapshot).None?
  }

  ghost predicate PollOk(c: Compiler, s: State, poll: Poll) {
    match poll.phase
    case Arrived => true
    case Subscribed(seen) => seen <= s.counter && poll.since <= |s.log|
    case HasRead(seen, at) =>
      seen <= s.counter && poll.since <= at + 1 <= |s.log| && Covered(s, seen, at)
    case Held(seen, at) =>
      && seen <= s.counter && poll.since <= at + 1 <= |s.log| && Covered(s, seen, at)
      && c.body(s.log[at]).Some?
      && poll.request.sent == Some(c.digest(c.body(s.log[at]).value))
    case Woken => poll.since <= |s.log|
    case Answered(answer, at) =>
      poll.since <= at + 1 <= |s.log| && AnswerHolds(c, poll.request, s.log[at], answer)
    case Gone => true
  }

  ghost predicate Inv(c: Compiler, s: State) {
    s.log != [] && forall id :: id in s.polls ==> PollOk(c, s, s.polls[id])
  }

  lemma {:induction false} ReplyHolds(c: Compiler, request: Request, snapshot: Snapshot)
    requires ServedFrom(c, snapshot).Some?
    ensures AnswerHolds(c, request, snapshot, Reply(request, ServedFrom(c, snapshot).value))
  {
    var needs := c.needs(snapshot);
    var readable := if request.has.Some? then request.has.value else LEGACY_FEATURES;
    if needs - readable == {} {
      forall f | f in needs
        ensures f in readable
      {
        assert f !in needs - readable;
      }
    }
  }

  lemma {:induction false} StoreStepKeeps(c: Compiler, s: State, a: Action, id: nat)
    requires s.log != [] && id in s.polls && PollOk(c, s, s.polls[id])
    ensures StoreStep(s, a).polls == s.polls
    ensures StoreStep(s, a).log != [] && PollOk(c, StoreStep(s, a), s.polls[id])
  {
  }

  lemma {:induction false} PollStepKeeps(c: Compiler, s: State, a: Action, id: nat)
    requires s.log != [] && id in s.polls && PollOk(c, s, s.polls[id])
    ensures
      var s' := PollStep(c, s, id, a);
      && s' == s.(polls := s.polls[id := s'.polls[id]])
      && PollOk(c, s, s'.polls[id])
  {
    var s' := PollStep(c, s, id, a);
    var phase := s'.polls[id].phase;
    if phase.Answered? && phase != s.polls[id].phase && ServedFrom(c, s.log[phase.at]).Some? {
      ReplyHolds(c, s.polls[id].request, s.log[phase.at]);
    }
  }

  /** Changing one poll leaves the others as they were. */
  lemma {:induction false} OtherPollsKeep(c: Compiler, s: State, id: nat, poll: Poll)
    requires Inv(c, s) && PollOk(c, s, poll)
    ensures Inv(c, s.(polls := s.polls[id := poll]))
  {
    var s' := s.(polls := s.polls[id := poll]);
    forall other | other in s'.polls
      ensures PollOk(c, s', s'.polls[other])
    {
      assert PollOk(c, s, s'.polls[other]);
    }
  }

  lemma {:induction false} StepKeepsInv(c: Compiler, s: State, a: Action)
    requires Inv(c, s)
    ensures Inv(c, Step(c, s, a))
  {
    if a.Arrive? {
      OtherPollsKeep(c, s, a.id, Poll(a.request, 0, Arrived));
    } else if PollOf(a).Some? {
      var id := PollOf(a).value;
      if id in s.polls {
        PollStepKeeps(c, s, a, id);
        OtherPollsKeep(c, s, id, PollStep(c, s, id, a).polls[id]);
      }
    } else {
      forall id | id in s.polls
        ensures PollOk(c, StoreStep(s, a), s.polls[id])
      {
        StoreStepKeeps(c, s, a, id);
      }
    }
  }

  lemma {:induction false} RunKeepsInv(c: Compiler, s: State, schedule: seq<Action>)
    requires Inv(c, s)
    ensures Inv(c, Run(Next(c), s, schedule))
  {
    forall t, a | Inv(c, t)
      ensures Inv(c, Next(c)(t, a))
    {
      StepKeepsInv(c, t, a);
    }
    RunKeeps(Next(c), t => Inv(c, t), s, schedule);
  }

  /** Every answer given in any run is about one snapshot that was the newest at some moment after
      the poll subscribed: a 200 carries its body and tag, asks nothing the caller cannot read and
      is not what the caller holds; a 304 names what it is; a 409 names exactly what is lacking. */
  lemma {:induction false} AnswersAreOneSnapshot(c: Compiler, first: Snapshot, schedule: seq<Action>, id: nat)
    requires id in Run(Next(c), Init(first), schedule).polls
    requires Run(Next(c), Init(first), schedule).polls[id].phase.Answered?
    ensures
      var s := Run(Next(c), Init(first), schedule);
      var poll := s.polls[id];
      && poll.since <= poll.phase.at + 1 <= |s.log|
      && AnswerHolds(c, poll.request, s.log[poll.phase.at], poll.phase.answer)
  {
    RunKeepsInv(c, Init(first), schedule);
  }

  /** When the connection is up, nothing is undelivered and the counter is what a held poll marked,
      what the poll holds is what is committed: no change is slept through. */
  lemma {:induction false} QuietMeansCurrent(c: Compiler, first: Snapshot, schedule: seq<Action>, id: nat)
    requires id in Run(Next(c), Init(first), schedule).polls
    requires
      var s := Run(Next(c), Init(first), schedule);
      && s.polls[id].phase.Held?
      && s.link.Up? && s.undelivered == 0 && s.counter == s.polls[id].phase.seen
    ensures
      var s := Run(Next(c), Init(first), schedule);
      && s.polls[id].phase.at + 1 == |s.log|
      && c.body(s.log[|s.log| - 1]).Some?
      && s.polls[id].request.sent == Some(c.digest(c.body(s.log[|s.log| - 1]).value))
  {
    RunKeepsInv(c, Init(first), schedule);
  }

  /** With a hash that tells bodies apart, a poll holding `body` is told 304 exactly when the
      snapshot it is answered from still compiles to `body`. */
  lemma {:induction false} NotModifiedIffSameBody(
    c: Compiler, first: Snapshot, schedule: seq<Action>, id: nat, body: Bytes)
    requires forall x, y :: c.digest(x) == c.digest(y) ==> x == y
    requires id in Run(Next(c), Init(first), schedule).polls
    requires
      var poll := Run(Next(c), Init(first), schedule).polls[id];
      && poll.request.sent == Some(c.digest(body))
      && poll.phase.Answered? && !poll.phase.answer.Unavailable? && !poll.phase.answer.Failed?
    ensures
      var s := Run(Next(c), Init(first), schedule);
      var phase := s.polls[id].phase;
      && phase.at < |s.log|
      && (phase.answer.NotModified? <==> c.body(s.log[phase.at]) == Some(body))
  {
    AnswersAreOneSnapshot(c, first, schedule, id);
  }

  /** The mark a poll took when it subscribed, while it still has it. */
  function Mark(phase: Phase): Option<nat> {
    match phase
    case Subscribed(seen) => Some(seen)
    case HasRead(seen, _) => Some(seen)
    case Held(seen, _) => Some(seen)
    case _ => None
  }

  /** What a poll past its subscription keeps, whatever happens next. */
  ghost predicate Kept(s: State, t: State, id: nat)
    requires id in s.polls
  {
    && id in t.polls && !t.polls[id].phase.Arrived?
    && t.polls[id].since == s.polls[id].since
    && (Mark(t.polls[id].phase).Some? ==> Mark(t.polls[id].phase) == Mark(s.polls[id].phase))
    && s.counter <= t.counter && s.log <= t.log
  }

  lemma {:induction false} StepKeepsMark(c: Compiler, s: State, t: State, a: Action, id: nat)
    requires id in s.polls && Kept(s, t, id)
    ensures Kept(s, Step(c, t, a), id)
  {
  }

  lemma {:induction false} MarksAreKept(c: Compiler, s: State, schedule: seq<Action>, id: nat)
    requires id in s.polls && !s.polls[id].phase.Arrived?
    ensures Kept(s, Run(Next(c), s, schedule), id)
  {
    forall t, a | Kept(s, t, id)
      ensures Kept(s, Next(c)(t, a), id)
    {
      StepKeepsMark(c, s, t, a, id);
    }
    RunKeeps(Next(c), t => Kept(s, t, id), s, schedule);
  }

  lemma {:induction false} CounterStoodStill(c: Compiler, s: State, after: seq<Action>, id: nat)
    requires id in s.polls && s.polls[id].phase == Subscribed(s.counter)
    requires
      var t := Run(Next(c), s, after);
      id in t.polls && t.polls[id].phase.Held? && t.counter == t.polls[id].phase.seen
    ensures forall k :: 0 <= k <= |after| ==> Run(Next(c), s, after[..k]).counter == s.counter
  {
    MarksAreKept(c, s, after, id);
    forall k | 0 <= k <= |after|
      ensures Run(Next(c), s, after[..k]).counter == s.counter
    {
      assert after == after[..k] + after[k..];
      RunInParts(Next(c), s, after[..k], after[k..]);
      MarksAreKept(c, s, after[..k], id);
      MarksAreKept(c, Run(Next(c), s, after[..k]), after[k..], id);
    }
  }

  lemma {:induction false} TimeOutAnswers(c: Compiler, t: State, id: nat)
    requires Inv(c, t) && id in t.polls && t.polls[id].phase.Held?
    requires t.counter == t.polls[id].phase.seen
    ensures
      var poll := t.polls[id];
      && poll.phase.at < |t.log| && ServedFrom(c, t.log[poll.phase.at]).Some?
      && Step(c, t, TimeOut(id)).polls[id] == poll.(phase :=
           Answered(NotModified(ServedFrom(c, t.log[poll.phase.at]).value.etag), poll.phase.at))
      && (poll.phase.at + 1 == |t.log| || t.undelivered > 0 || t.link != Up)
  {
    assert PollOk(c, t, t.polls[id]);
  }

  /** A held poll times out only if no notification arrived from the moment it subscribed: the
      counter stood still through the whole schedule `after`. It is then told 304, about a snapshot
      no older than its subscription, and anything committed since is still on its way. */
  lemma {:induction false} NoNotificationIsSleptThrough(
    c: Compiler, first: Snapshot, before: seq<Action>, after: seq<Action>, id: nat)
    requires
      var s := Run(Next(c), Init(first), before);
      id in s.polls && s.polls[id].phase.Arrived?
    requires
      var t := Run(Next(c), Init(first), before + [Subscribe(id)] + after);
      id in t.polls && t.polls[id].phase.Held? && Step(c, t, TimeOut(id)) != t
    ensures
      var s := Run(Next(c), Init(first), before + [Subscribe(id)]);
      var t := Run(Next(c), Init(first), before + [Subscribe(id)] + after);
      var answered := Step(c, t, TimeOut(id)).polls[id];
      && (forall k :: 0 <= k <= |after| ==> Run(Next(c), s, after[..k]).counter == s.counter)
      && answered.phase.Answered? && answered.phase.answer.NotModified?
      && |s.log| <= answered.phase.at + 1 <= |t.log|
      && (answered.phase.at + 1 == |t.log| || t.undelivered > 0 || t.link != Up)
  {
    var s0 := Run(Next(c), Init(first), before);
    var s := Run(Next(c), Init(first), before + [Subscribe(id)]);
    RunKeepsInv(c, Init(first), before);
    RunOne(Next(c), Init(first), before, Subscribe(id));
    assert s.polls[id] == Poll(s0.polls[id].request, |s.log|, Subscribed(s.counter));
    RunInParts(Next(c), Init(first), before + [Subscribe(id)], after);
    var t := Run(Next(c), s, after);
    RunKeepsInv(c, Init(first), before + [Subscribe(id)] + after);
    assert PollOk(c, t, t.polls[id]);
    MarksAreKept(c, s, after, id);
    CounterStoodStill(c, s, after, id);
    TimeOutAnswers(c, t, id);
  }
}
