/**
  Which read each answer of a poll came from, and so when a poll must be answered with what: an
  answer that says nothing of the configuration is given only where there was nothing to read, and
  whatever is committed reaches every poll that is held.
*/
module LongPollAnswers {
  import opened LongPoll
  import opened Schedules
  import opened Wrappers

  // What a run has done for one poll.

  /** The state before step `i`. */
  function Before(c: Compiler, first: Snapshot, schedule: seq<Action>, i: nat): State
    requires i <= |schedule|
  {
    Run(Next(c), Init(first), schedule[..i])
  }

  /** Step `k` subscribed the poll, at the counter and the length of the log there were then. */
  ghost predicate SubscribedAt(
    c: Compiler, first: Snapshot, schedule: seq<Action>, id: nat, k: nat, seen: nat, since: nat)
  {
    && k < |schedule| && schedule[k] == Subscribe(id)
    && Before(c, first, schedule, k).counter == seen
    && |Before(c, first, schedule, k).log| == since
  }

  /** Step `j` read the snapshot at place `at`, the newest there was then; `again` says which of the
      two reads it was. */
  ghost predicate ReadAt(
    c: Compiler, first: Snapshot, schedule: seq<Action>, id: nat, j: nat, again: bool, readable: bool, at: nat)
  {
    && j < |schedule|
    && schedule[j] == (if again then Reread(id, readable) else Read(id, readable))
    && |Before(c, first, schedule, j).log| == at + 1
  }

  ghost predicate WasSubscribed(
    c: Compiler, first: Snapshot, schedule: seq<Action>, id: nat, seen: nat, since: nat)
  {
    exists k: nat :: SubscribedAt(c, first, schedule, id, k, seen, since)
  }

  ghost predicate WasRead(
    c: Compiler, first: Snapshot, schedule: seq<Action>, id: nat, again: bool, readable: bool, at: nat)
  {
    exists j: nat :: ReadAt(c, first, schedule, id, j, again, readable, at)
  }

  /** Something was counted since the poll subscribed. */
  ghost predicate HasNews(c: Compiler, first: Snapshot, schedule: seq<Action>, id: nat, since: nat) {
    exists seen: nat ::
      && WasSubscribed(c, first, schedule, id, seen, since)
      && seen < Run(Next(c), Init(first), schedule).counter
  }

  /** What an answer owes to the read it was given from. */
  ghost predicate Owed(c: Compiler, request: Request, snapshot: Snapshot, again: bool, readable: bool, answer: Answer) {
    if !readable then answer == Unavailable
    else if c.body(snapshot).None? then answer == if again then Unavailable else Failed
    else (answer.NotModified? || answer.Configuration? || answer.Incompatible?) &&
         AnswerHolds(c, request, snapshot, answer)
  }

  ghost predicate Told(c: Compiler, first: Snapshot, schedule: seq<Action>, id: nat, poll: Poll) {
    match poll.phase
    case Arrived => true
    case Subscribed(seen) => WasSubscribed(c, first, schedule, id, seen, poll.since)
    case HasRead(seen, at) =>
      && WasSubscribed(c, first, schedule, id, seen, poll.since)
      && WasRead(c, first, schedule, id, false, true, at)
    case Held(seen, at) =>
      && WasSubscribed(c, first, schedule, id, seen, poll.since)
      && WasRead(c, first, schedule, id, false, true, at)
      && poll.request.waits
    case Woken => poll.request.waits && HasNews(c, first, schedule, id, poll.since)
    case Answered(answer, at) =>
      exists again, readable ::
        && WasRead(c, first, schedule, id, again, readable, at)
        && (again ==> poll.request.waits && HasNews(c, first, schedule, id, poll.since))
        && at < |Run(Next(c), Init(first), schedule).log|
        && Owed(c, poll.request, Run(Next(c), Init(first), schedule).log[at], again, readable, answer)
    case Gone => exists i :: 0 <= i < |schedule| && schedule[i] == HangUp(id)
  }

  // What was done stays done.

  lemma {:induction false} StaysSubscribed(
    c: Compiler, first: Snapshot, schedule: seq<Action>, a: Action, id: nat, seen: nat, since: nat)
    requires WasSubscribed(c, first, schedule, id, seen, since)
    ensures WasSubscribed(c, first, schedule + [a], id, seen, since)
  {
    var k: nat :| SubscribedAt(c, first, schedule, id, k, seen, since);
    assert (schedule + [a])[..k] == schedule[..k];
    assert SubscribedAt(c, first, schedule + [a], id, k, seen, since);
  }

  lemma {:induction false} StaysRead(
    c: Compiler, first: Snapshot, schedule: seq<Action>, a: Action, id: nat, again: bool, readable: bool, at: nat)
    requires WasRead(c, first, schedule, id, again, readable, at)
    ensures WasRead(c, first, schedule + [a], id, again, readable, at)
  {
    var j: nat :| ReadAt(c, first, schedule, id, j, again, readable, at);
    assert (schedule + [a])[..j] == schedule[..j];
    assert ReadAt(c, first, schedule + [a], id, j, again, readable, at);
  }

  lemma StepOnlyAdds(c: Compiler, s: State, a: Action)
    ensures s.counter <= Step(c, s, a).counter && s.log <= Step(c, s, a).log
  {
  }

  lemma {:induction false} StaysNews(
    c: Compiler, first: Snapshot, schedule: seq<Action>, a: Action, id: nat, since: nat)
    requires HasNews(c, first, schedule, id, since)
    ensures HasNews(c, first, schedule + [a], id, since)
  {
    var seen: nat :| && WasSubscribed(c, first, schedule, id, seen, since)
                && seen < Run(Next(c), Init(first), schedule).counter;
    StaysSubscribed(c, first, schedule, a, id, seen, since);
    RunOne(Next(c), Init(first), schedule, a);
    StepOnlyAdds(c, Run(Next(c), Init(first), schedule), a);
  }

  /** The rest of a run leaves a poll's story true. */
  lemma {:induction false} StaysTold(
    c: Compiler, first: Snapshot, schedule: seq<Action>, a: Action, id: nat, poll: Poll)
    requires Told(c, first, schedule, id, poll)
    ensures Told(c, first, schedule + [a], id, poll)
  {
    var longer := schedule + [a];
    RunOne(Next(c), Init(first), schedule, a);
    StepOnlyAdds(c, Run(Next(c), Init(first), schedule), a);
    match poll.phase
    case Arrived =>
    case Subscribed(seen) => StaysSubscribed(c, first, schedule, a, id, seen, poll.since);
    case HasRead(seen, at) =>
      StaysSubscribed(c, first, schedule, a, id, seen, poll.since);
      StaysRead(c, first, schedule, a, id, false, true, at);
    case Held(seen, at) =>
      StaysSubscribed(c, first, schedule, a, id, seen, poll.since);
      StaysRead(c, first, schedule, a, id, false, true, at);
    case Woken => StaysNews(c, first, schedule, a, id, poll.since);
    case Answered(answer, at) =>
      var again, readable :|
        && WasRead(c, first, schedule, id, again, readable, at)
        && (again ==> poll.request.waits && HasNews(c, first, schedule, id, poll.since))
        && at < |Run(Next(c), Init(first), schedule).log|
        && Owed(c, poll.request, Run(Next(c), Init(first), schedule).log[at], again, readable, answer);
      StaysRead(c, first, schedule, a, id, again, readable, at);
      if again {
        StaysNews(c, first, schedule, a, id, poll.since);
      }
    case Gone =>
      var i :| 0 <= i < |schedule| && schedule[i] == HangUp(id);
      assert longer[i] == HangUp(id);
  }

  // And a poll's own step makes it true.

  lemma {:induction false} ReadNow(
    c: Compiler, first: Snapshot, schedule: seq<Action>, id: nat, again: bool, readable: bool)
    requires Run(Next(c), Init(first), schedule).log != []
    ensures
      var a := if again then Reread(id, readable) else Read(id, readable);
      WasRead(c, first, schedule + [a], id, again, readable, |Run(Next(c), Init(first), schedule).log| - 1)
  {
    var a := if again then Reread(id, readable) else Read(id, readable);
    assert (schedule + [a])[..|schedule|] == schedule;
    assert ReadAt(c, first, schedule + [a], id, |schedule|, again, readable,
                  |Run(Next(c), Init(first), schedule).log| - 1);
  }

  lemma {:induction false} SubscribedNow(c: Compiler, first: Snapshot, schedule: seq<Action>, id: nat)
    ensures
      var s := Run(Next(c), Init(first), schedule);
      WasSubscribed(c, first, schedule + [Subscribe(id)], id, s.counter, |s.log|)
  {
    var s := Run(Next(c), Init(first), schedule);
    assert (schedule + [Subscribe(id)])[..|schedule|] == schedule;
    assert SubscribedAt(c, first, schedule + [Subscribe(id)], id, |schedule|, s.counter, |s.log|);
  }

  /** The reply is what the read owes. */
  lemma {:induction false} ReplyIsOwed(c: Compiler, request: Request, snapshot: Snapshot, again: bool)
    requires ServedFrom(c, snapshot).Some?
    ensures Owed(c, request, snapshot, again, true, Reply(request, ServedFrom(c, snapshot).value))
  {
    ReplyHolds(c, request, snapshot);
  }

  /** An answer told by the read it came from. */
  lemma AnswerTells(
    c: Compiler, first: Snapshot, schedule: seq<Action>, id: nat, poll: Poll, again: bool, readable: bool)
    requires poll.phase.Answered? && WasRead(c, first, schedule, id, again, readable, poll.phase.at)
    requires again ==> poll.request.waits && HasNews(c, first, schedule, id, poll.since)
    requires
      var log := Run(Next(c), Init(first), schedule).log;
      poll.phase.at < |log| && Owed(c, poll.request, log[poll.phase.at], again, readable, poll.phase.answer)
    ensures Told(c, first, schedule, id, poll)
  {
  }

  /** Held where it waits and has this already, and otherwise answered. */
  ghost predicate HeldOrOwed(c: Compiler, log: seq<Snapshot>, poll: Poll, after: Poll, seen: nat, at: nat)
    requires at < |log|
  {
    && after == poll.(phase := after.phase)
    && if poll.request.waits && c.body(log[at]).Some? &&
          poll.request.sent == Some(c.digest(c.body(log[at]).value))
       then after.phase == Held(seen, at)
       else after.phase.Answered? && after.phase.at == at &&
            Owed(c, poll.request, log[at], false, true, after.phase.answer)
  }

  lemma {:induction false} CompileAnswers(c: Compiler, s: State, id: nat)
    requires id in s.polls && s.polls[id].phase.HasRead? && s.polls[id].phase.at < |s.log|
    ensures
      var t := Step(c, s, Compile(id));
      && t.log == s.log && t.polls.Keys == s.polls.Keys
      && HeldOrOwed(c, s.log, s.polls[id], t.polls[id], s.polls[id].phase.seen, s.polls[id].phase.at)
  {
    var snapshot := s.log[s.polls[id].phase.at];
    if ServedFrom(c, snapshot).Some? {
      ReplyIsOwed(c, s.polls[id].request, snapshot, false);
    }
  }

  lemma {:induction false} CompileTells(c: Compiler, first: Snapshot, schedule: seq<Action>, id: nat)
    requires
      var s := Run(Next(c), Init(first), schedule);
      && id in s.polls && PollOk(c, s, s.polls[id]) && s.polls[id].phase.HasRead?
      && Told(c, first, schedule, id, s.polls[id])
    ensures
      var s := Run(Next(c), Init(first), schedule);
      Told(c, first, schedule + [Compile(id)], id, Step(c, s, Compile(id)).polls[id])
  {
    var s, a := Run(Next(c), Init(first), schedule), Compile(id);
    var poll := s.polls[id];
    RunOne(Next(c), Init(first), schedule, a);
    StaysSubscribed(c, first, schedule, a, id, poll.phase.seen, poll.since);
    StaysRead(c, first, schedule, a, id, false, true, poll.phase.at);
    CompileAnswers(c, s, id);
    if Step(c, s, a).polls[id].phase.Answered? {
      AnswerTells(c, first, schedule + [a], id, Step(c, s, a).polls[id], false, true);
    }
  }

  lemma {:induction false} TimeOutTells(c: Compiler, first: Snapshot, schedule: seq<Action>, id: nat)
    requires
      var s := Run(Next(c), Init(first), schedule);
      && Inv(c, s) && id in s.polls && s.polls[id].phase.Held? && Told(c, first, schedule, id, s.polls[id])
    ensures
      var s := Run(Next(c), Init(first), schedule);
      Told(c, first, schedule + [TimeOut(id)], id, Step(c, s, TimeOut(id)).polls[id])
  {
    var s, a := Run(Next(c), Init(first), schedule), TimeOut(id);
    var poll := s.polls[id];
    var at := poll.phase.at;
    assert PollOk(c, s, poll);
    RunOne(Next(c), Init(first), schedule, a);
    StaysTold(c, first, schedule, a, id, poll);
    ReplyIsOwed(c, poll.request, s.log[at], false);
  }

  lemma {:induction false} RereadAnswers(c: Compiler, s: State, id: nat, readable: bool)
    requires s.log != [] && id in s.polls && s.polls[id].phase.Woken?
    ensures
      var t := Step(c, s, Reread(id, readable));
      && t.log == s.log && t.polls.Keys == s.polls.Keys
      && t.polls[id] == s.polls[id].(phase := t.polls[id].phase)
      && t.polls[id].phase.Answered? && t.polls[id].phase.at == |s.log| - 1
      && Owed(c, s.polls[id].request, s.log[|s.log| - 1], true, readable, t.polls[id].phase.answer)
  {
    var newest := s.log[|s.log| - 1];
    if ServedFrom(c, newest).Some? {
      ReplyIsOwed(c, s.polls[id].request, newest, true);
    }
  }

  lemma {:induction false} RereadTells(
    c: Compiler, first: Snapshot, schedule: seq<Action>, id: nat, readable: bool)
    requires
      var s := Run(Next(c), Init(first), schedule);
      && s.log != [] && id in s.polls && s.polls[id].phase.Woken? && Told(c, first, schedule, id, s.polls[id])
    ensures
      var s := Run(Next(c), Init(first), schedule);
      Told(c, first, schedule + [Reread(id, readable)], id, Step(c, s, Reread(id, readable)).polls[id])
  {
    var s, a := Run(Next(c), Init(first), schedule), Reread(id, readable);
    RunOne(Next(c), Init(first), schedule, a);
    StaysNews(c, first, schedule, a, id, s.polls[id].since);
    ReadNow(c, first, schedule, id, true, readable);
    RereadAnswers(c, s, id, readable);
    AnswerTells(c, first, schedule + [a], id, Step(c, s, a).polls[id], true, readable);
  }

  lemma {:induction false} WakeTells(c: Compiler, first: Snapshot, schedule: seq<Action>, id: nat)
    requires
      var s := Run(Next(c), Init(first), schedule);
      && Inv(c, s) && id in s.polls && s.polls[id].phase.Held? && Told(c, first, schedule, id, s.polls[id])
    ensures
      var s := Run(Next(c), Init(first), schedule);
      Told(c, first, schedule + [Wake(id)], id, Step(c, s, Wake(id)).polls[id])
  {
    var s, a := Run(Next(c), Init(first), schedule), Wake(id);
    var poll := s.polls[id];
    assert PollOk(c, s, poll);
    RunOne(Next(c), Init(first), schedule, a);
    StaysTold(c, first, schedule, a, id, poll);
  }

  lemma {:induction false} ReadTells(
    c: Compiler, first: Snapshot, schedule: seq<Action>, id: nat, readable: bool)
    requires
      var s := Run(Next(c), Init(first), schedule);
      && Inv(c, s) && id in s.polls && s.polls[id].phase.Subscribed? && Told(c, first, schedule, id, s.polls[id])
    ensures
      var s := Run(Next(c), Init(first), schedule);
      Told(c, first, schedule + [Read(id, readable)], id, Step(c, s, Read(id, readable)).polls[id])
  {
    var s, a := Run(Next(c), Init(first), schedule), Read(id, readable);
    var poll := s.polls[id];
    RunOne(Next(c), Init(first), schedule, a);
    StaysSubscribed(c, first, schedule, a, id, poll.phase.seen, poll.since);
    ReadNow(c, first, schedule, id, false, readable);
    assert WasRead(c, first, schedule + [a], id, false, readable, |s.log| - 1);
  }

  lemma {:induction false} HangUpTells(c: Compiler, first: Snapshot, schedule: seq<Action>, id: nat)
    requires
      var s := Run(Next(c), Init(first), schedule);
      Inv(c, s) && id in s.polls && Told(c, first, schedule, id, s.polls[id])
    ensures
      var s := Run(Next(c), Init(first), schedule);
      Told(c, first, schedule + [HangUp(id)], id, Step(c, s, HangUp(id)).polls[id])
  {
    var s, a := Run(Next(c), Init(first), schedule), HangUp(id);
    StaysTold(c, first, schedule, a, id, s.polls[id]);
    assert (schedule + [a])[|schedule|] == HangUp(id);
  }

  lemma {:induction false} OwnStepTells(c: Compiler, first: Snapshot, schedule: seq<Action>, a: Action, id: nat)
    requires PollOf(a) == Some(id)
    requires
      var s := Run(Next(c), Init(first), schedule);
      Inv(c, s) && id in s.polls && Told(c, first, schedule, id, s.polls[id])
    ensures
      var s := Run(Next(c), Init(first), schedule);
      id in Step(c, s, a).polls && Told(c, first, schedule + [a], id, Step(c, s, a).polls[id])
  {
    var s := Run(Next(c), Init(first), schedule);
    StaysTold(c, first, schedule, a, id, s.polls[id]);
    match (a, s.polls[id].phase)
    case (Subscribe(_), Arrived) => SubscribedNow(c, first, schedule, id);
    case (Read(_, readable), Subscribed(_)) => ReadTells(c, first, schedule, id, readable);
    case (Compile(_), HasRead(_, _)) => CompileTells(c, first, schedule, id);
    case (Wake(_), Held(_, _)) => WakeTells(c, first, schedule, id);
    case (TimeOut(_), Held(_, _)) => TimeOutTells(c, first, schedule, id);
    case (Reread(_, readable), Woken) => RereadTells(c, first, schedule, id, readable);
    case (HangUp(_), _) => HangUpTells(c, first, schedule, id);
    case _ =>
  }

  lemma {:induction false} OneMoreIsTold(c: Compiler, first: Snapshot, schedule: seq<Action>, a: Action, id: nat)
    requires id in Run(Next(c), Init(first), schedule).polls
    requires Told(c, first, schedule, id, Run(Next(c), Init(first), schedule).polls[id])
    ensures
      var t := Run(Next(c), Init(first), schedule + [a]);
      id in t.polls && Told(c, first, schedule + [a], id, t.polls[id])
  {
    var s := Run(Next(c), Init(first), schedule);
    RunKeepsInv(c, Init(first), schedule);
    RunOne(Next(c), Init(first), schedule, a);
    if PollOf(a) == Some(id) {
      OwnStepTells(c, first, schedule, a, id);
    } else {
      StaysTold(c, first, schedule, a, id, s.polls[id]);
    }
  }

  lemma {:induction false} EveryPollIsTold(c: Compiler, first: Snapshot, schedule: seq<Action>, id: nat)
    requires id in Run(Next(c), Init(first), schedule).polls
    ensures Told(c, first, schedule, id, Run(Next(c), Init(first), schedule).polls[id])
  {
    if schedule != [] {
      var front, a := schedule[..|schedule| - 1], schedule[|schedule| - 1];
      assert schedule == front + [a];
      if id in Run(Next(c), Init(first), front).polls {
        EveryPollIsTold(c, first, front, id);
        OneMoreIsTold(c, first, front, a, id);
      }
    }
  }

  // What every answer owes to its read.

  /** In every run, each answer comes from one read of the poll, of the snapshot newest at that
      moment. It says the store was unavailable if and only if that read failed, or was a second one
      whose snapshot does not compile; that it failed itself if and only if it was a first one whose
      snapshot does not compile; and otherwise what is true of the snapshot. A second read is
      made only for a poll that waits, and only once something was counted since it subscribed. */
  lemma {:induction false} AnswersComeFromReads(c: Compiler, first: Snapshot, schedule: seq<Action>, id: nat)
    returns (again: bool, readable: bool)
    requires id in Run(Next(c), Init(first), schedule).polls
    requires Run(Next(c), Init(first), schedule).polls[id].phase.Answered?
    ensures
      var s := Run(Next(c), Init(first), schedule);
      var poll := s.polls[id];
      var answer, at := poll.phase.answer, poll.phase.at;
      && at < |s.log|
      && WasRead(c, first, schedule, id, again, readable, at)
      && (answer.Unavailable? <==> !readable || (again && c.body(s.log[at]).None?))
      && (answer.Failed? <==> readable && !again && c.body(s.log[at]).None?)
      && AnswerHolds(c, poll.request, s.log[at], answer)
      && (again ==> poll.request.waits && HasNews(c, first, schedule, id, poll.since))
  {
    EveryPollIsTold(c, first, schedule, id);
    var s := Run(Next(c), Init(first), schedule);
    var poll := s.polls[id];
    again, readable :|
      && WasRead(c, first, schedule, id, again, readable, poll.phase.at)
      && (again ==> poll.request.waits && HasNews(c, first, schedule, id, poll.since))
      && poll.phase.at < |s.log|
      && Owed(c, poll.request, s.log[poll.phase.at], again, readable, poll.phase.answer);
  }

  /** Of the answers true of a snapshot there is one that tells of the configuration. */
  lemma {:induction false} OneAnswerHolds(c: Compiler, request: Request, snapshot: Snapshot, x: Answer, y: Answer)
    requires AnswerHolds(c, request, snapshot, x) && AnswerHolds(c, request, snapshot, y)
    requires !x.Unavailable? && !y.Unavailable?
    ensures x == y
  {
    if x.Incompatible? && y.Incompatible? {
      assert forall f :: f in x.missing <==> f in y.missing;
    }
  }

  // Every poll gets its answer.

  /** Told of the newest commit: 200, 304 or 409 where it compiles, and 503 where it does not. */
  ghost predicate ToldOfNewest(c: Compiler, s: State, poll: Poll) {
    && s.log != []
    && poll.phase.Answered? && poll.phase.at == |s.log| - 1
    && Owed(c, poll.request, s.log[|s.log| - 1], true, true, poll.phase.answer)
  }

  /** A poll told of the newest commit after its second read, or that it could not be read. */
  ghost predicate ToldAgain(c: Compiler, s: State, t: State, id: nat, readable: bool)
    requires id in s.polls
  {
    && id in t.polls && t.log == s.log && t.polls[id].request == s.polls[id].request
    && if readable then ToldOfNewest(c, t, t.polls[id])
       else t.polls[id].phase.Answered? && t.polls[id].phase.answer.Unavailable?
  }

  lemma {:induction false} WokenIsTold(c: Compiler, s: State, id: nat, readable: bool)
    requires s.log != [] && id in s.polls && s.polls[id].phase.Held? && s.counter != s.polls[id].phase.seen
    ensures ToldAgain(c, s, Step(c, Step(c, s, Wake(id)), Reread(id, readable)), id, readable)
  {
    RereadAnswers(c, Step(c, s, Wake(id)), id, readable);
  }

  lemma {:induction false} TwoSteps<S, A>(step: (S, A) -> S, s: S, a: A, b: A)
    ensures Run(step, s, [a, b]) == step(step(s, a), b)
  {
    assert [a, b] == [] + [a] + [b];
    RunOne(step, s, [] + [a], b);
    RunOne(step, s, [], a);
  }

  /** From every reachable state, a held poll whose counter moved is woken, reads again and is told of
      the newest commit; or that the store is unavailable, if it cannot be read. */
  lemma {:induction false} MovedCounterIsAnswered(
    c: Compiler, first: Snapshot, schedule: seq<Action>, id: nat, readable: bool)
    requires
      var s := Run(Next(c), Init(first), schedule);
      id in s.polls && s.polls[id].phase.Held? && s.counter != s.polls[id].phase.seen
    ensures
      var s := Run(Next(c), Init(first), schedule);
      ToldAgain(c, s, Run(Next(c), s, [Wake(id), Reread(id, readable)]), id, readable)
  {
    var s := Run(Next(c), Init(first), schedule);
    RunKeepsInv(c, Init(first), schedule);
    TwoSteps(Next(c), s, Wake(id), Reread(id, readable));
    WokenIsTold(c, s, id, readable);
  }

  lemma {:induction false} NewsIsCounted(c: Compiler, s: State, id: nat)
    requires Inv(c, s) && id in s.polls && s.polls[id].phase.Held? && s.polls[id].phase.at + 1 < |s.log|
    ensures
      var t := Run(Next(c), s, [Connect, Announce, Deliver]);
      t.polls == s.polls && t.log == s.log && t.counter > s.polls[id].phase.seen
  {
    assert PollOk(c, s, s.polls[id]);
    assert [Connect, Announce, Deliver] == [Connect, Announce] + [Deliver];
    RunOne(Next(c), s, [Connect, Announce], Deliver);
    TwoSteps(Next(c), s, Connect, Announce);
  }

  /** And whatever was committed reaches it: from every reachable state in which a held poll has not
      what is newest, the connection made and announced if it is down, one notification delivered if
      one is on its way, and its own two steps end in its being told. */
  lemma {:induction false} NewsReachesHeldPolls(c: Compiler, first: Snapshot, schedule: seq<Action>, id: nat)
    requires
      var s := Run(Next(c), Init(first), schedule);
      id in s.polls && s.polls[id].phase.Held? && s.polls[id].phase.at + 1 < |s.log|
    ensures
      var s := Run(Next(c), Init(first), schedule);
      ToldAgain(c, s, Run(Next(c), s, [Connect, Announce, Deliver] + [Wake(id), Reread(id, true)]), id, true)
  {
    var s, news := Run(Next(c), Init(first), schedule), [Connect, Announce, Deliver];
    RunKeepsInv(c, Init(first), schedule);
    NewsIsCounted(c, s, id);
    RunInParts(Next(c), Init(first), schedule, news);
    RunInParts(Next(c), s, news, [Wake(id), Reread(id, true)]);
    MovedCounterIsAnswered(c, first, schedule + news, id, true);
  }

  lemma {:induction false} ArrivesAndSubscribes(c: Compiler, s: State, id: nat, request: Request)
    requires s.log != [] && id !in s.polls
    ensures Step(c, Step(c, s, Arrive(id, request)), Subscribe(id)) ==
            s.(polls := s.polls[id := Poll(request, |s.log|, Subscribed(s.counter))])
  {
    var t := Step(c, Step(c, s, Arrive(id, request)), Subscribe(id));
    assert t.polls == s.polls[id := Poll(request, |s.log|, Subscribed(s.counter))];
  }

  /** Answered from what is newest, unless it waits and holds that already. */
  ghost predicate ServedNewest(
    c: Compiler, log: seq<Snapshot>, counter: nat, t: State, id: nat, request: Request, readable: bool)
  {
    && log != [] && t.log == log && id in t.polls
    && if readable then HeldOrOwed(c, log, Poll(request, |log|, Arrived), t.polls[id], counter, |log| - 1)
       else t.polls[id] == Poll(request, |log|, Answered(Unavailable, |log| - 1))
  }

  lemma {:induction false} ReadsAndCompiles(c: Compiler, s: State, id: nat, request: Request, readable: bool)
    requires s.log != []
    requires id in s.polls && s.polls[id] == Poll(request, |s.log|, Subscribed(s.counter))
    ensures ServedNewest(
              c, s.log, s.counter, Step(c, Step(c, s, Read(id, readable)), Compile(id)), id, request, readable)
  {
    if readable {
      CompileAnswers(c, Step(c, s, Read(id, true)), id);
    }
  }

  lemma {:induction false} ServesNewPoll(c: Compiler, s: State, id: nat, request: Request, readable: bool)
    requires s.log != [] && id !in s.polls
    ensures
      var t := Step(c, Step(c, s, Arrive(id, request)), Subscribe(id));
      ServedNewest(
        c, s.log, s.counter, Step(c, Step(c, t, Read(id, readable)), Compile(id)), id, request, readable)
  {
    ArrivesAndSubscribes(c, s, id, request);
    ReadsAndCompiles(c, Step(c, Step(c, s, Arrive(id, request)), Subscribe(id)), id, request, readable);
  }

  /** Every poll that arrives is served what is newest. */
  lemma {:induction false} NewPollIsServed(
    c: Compiler, first: Snapshot, schedule: seq<Action>, id: nat, request: Request, readable: bool)
    requires id !in Run(Next(c), Init(first), schedule).polls
    ensures
      var s := Run(Next(c), Init(first), schedule);
      var t := Run(Next(c), Run(Next(c), s, [Arrive(id, request), Subscribe(id)]), [Read(id, readable), Compile(id)]);
      ServedNewest(c, s.log, s.counter, t, id, request, readable)
  {
    var s := Run(Next(c), Init(first), schedule);
    RunKeepsInv(c, Init(first), schedule);
    TwoSteps(Next(c), s, Arrive(id, request), Subscribe(id));
    TwoSteps(Next(c), Run(Next(c), s, [Arrive(id, request), Subscribe(id)]), Read(id, readable), Compile(id));
    ServesNewPoll(c, s, id, request, readable);
  }

  /** An answer is given once, and a poll that hung up gets none. */
  lemma {:induction false} AnswersAreFinal(c: Compiler, s: State, after: seq<Action>, id: nat)
    requires id in s.polls && (s.polls[id].phase.Answered? || s.polls[id].phase.Gone?)
    ensures
      var t := Run(Next(c), s, after);
      id in t.polls && t.polls[id] == s.polls[id]
  {
    if after != [] {
      AnswersAreFinal(c, s, after[..|after| - 1], id);
    }
  }

  /** A poll that hangs up before it is answered is gone. */
  lemma HangingUpEnds(c: Compiler, s: State, id: nat)
    requires s.log != [] && id in s.polls && !s.polls[id].phase.Answered?
    ensures Step(c, s, HangUp(id)).polls == s.polls[id := s.polls[id].(phase := Gone)]
  {
  }

  lemma {:induction false} RequestStep(c: Compiler, s: State, a: Action, id: nat)
    ensures id in Step(c, s, a).polls <==> id in s.polls || (a.Arrive? && a.id == id)
    ensures id in s.polls ==> Step(c, s, a).polls[id].request == s.polls[id].request
    ensures id !in s.polls && a.Arrive? && a.id == id ==> Step(c, s, a).polls[id].request == a.request
  {
  }

  /** Each poll's request is the one it first arrived with. */
  lemma {:induction false} RequestsAreAsSent(c: Compiler, first: Snapshot, schedule: seq<Action>, id: nat)
    ensures
      var polls := Run(Next(c), Init(first), schedule).polls;
      && (id !in polls ==> forall i :: 0 <= i < |schedule| ==> !(schedule[i].Arrive? && schedule[i].id == id))
      && (id in polls ==> exists i :: FirstArrival(schedule, i, id) && schedule[i].request == polls[id].request)
  {
    if schedule != [] {
      var front, a := schedule[..|schedule| - 1], schedule[|schedule| - 1];
      RequestsAreAsSent(c, first, front, id);
      var s := Run(Next(c), Init(first), front);
      RequestStep(c, s, a, id);
      if id in s.polls {
        var i :| FirstArrival(front, i, id) && front[i].request == s.polls[id].request;
        assert FirstArrival(schedule, i, id);
      } else if a.Arrive? && a.id == id {
        assert FirstArrival(schedule, |schedule| - 1, id);
      }
    }
  }

  predicate FirstArrival(schedule: seq<Action>, i: int, id: nat) {
    && 0 <= i < |schedule| && schedule[i].Arrive? && schedule[i].id == id
    && forall k :: 0 <= k < i ==> !(schedule[k].Arrive? && schedule[k].id == id)
  }
}
