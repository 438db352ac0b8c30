/**
  And the other way: however an attempt is settled, something happened that settles it so. With
  what `ExchangeHistory` says, an attempt succeeds, fails or is given back if and only if it should.
*/
module ExchangeOutcomes {
  import opened Exchange
  import opened ExchangeHistory
  import opened Schedules
  import opened Wrappers

  // What happened is not undone by what comes after.

  lemma {:induction false} SameBefore(schedule: seq<Action>, a: Action, i: nat)
    requires i <= |schedule|
    ensures At(schedule + [a], i) == At(schedule, i)
  {
    assert (schedule + [a])[..i] == schedule[..i];
  }

  lemma FirstStays(schedule: seq<Action>, a: Action, from: nat, at: nat, decides: Action -> bool)
    requires FirstAt(schedule, from, at, decides)
    ensures FirstAt(schedule + [a], from, at, decides) && (schedule + [a])[at] == schedule[at]
  {
  }

  lemma ArrivedStays(schedule: seq<Action>, a: Action, id: nat, query: Query, at: nat)
    requires ArrivedAt(schedule, id, query, at)
    ensures ArrivedAt(schedule + [a], id, query, at)
  {
    FirstStays(schedule, a, 0, at, Arrives(id));
  }

  lemma {:induction false} BeganStays(
    schedule: seq<Action>, a: Action, id: nat, query: Query, allowed: bool, at: nat)
    requires BeganAt(schedule, id, query, allowed, at)
    ensures BeganAt(schedule + [a], id, query, allowed, at)
  {
    var arrived: nat :|
      && ArrivedAt(schedule, id, query, arrived)
      && FirstAt(schedule, arrived + 1, at, Begins(id)) && schedule[at] == Begin(id, allowed);
    ArrivedStays(schedule, a, id, query, arrived);
    FirstStays(schedule, a, arrived + 1, at, Begins(id));
  }

  lemma {:induction false} CheckedStays(
    schedule: seq<Action>, a: Action, id: nat, query: Query, resumes: bool, cookie: bool, at: nat)
    requires CheckedAt(schedule, id, query, resumes, cookie, at)
    ensures CheckedAt(schedule + [a], id, query, resumes, cookie, at)
  {
    var begun: nat :|
      && BeganAt(schedule, id, query, true, begun)
      && FirstAt(schedule, begun + 1, at, Checks(id)) && schedule[at] == Check(id, resumes, cookie);
    BeganStays(schedule, a, id, query, true, begun);
    FirstStays(schedule, a, begun + 1, at, Checks(id));
  }

  lemma {:induction false} PassedStays(schedule: seq<Action>, a: Action, id: nat, at: nat)
    requires PassedAt(schedule, id, at)
    ensures PassedAt(schedule + [a], id, at)
  {
    var query :| Passes(query, true, true) && CheckedAt(schedule, id, query, true, true, at);
    CheckedStays(schedule, a, id, query, true, true, at);
  }

  lemma {:induction false} ClientStays(schedule: seq<Action>, a: Action, id: nat, at: nat)
    requires at < |schedule| && ClientAt(schedule, id, at)
    ensures ClientAt(schedule + [a], id, at) && HasPlace(schedule + [a], id, at) == HasPlace(schedule, id, at)
  {
    var passed: nat :| PassedAt(schedule, id, passed) && FirstAt(schedule, passed + 1, at, ClientOrHangUp(id));
    PassedStays(schedule, a, id, passed);
    FirstStays(schedule, a, passed + 1, at, ClientOrHangUp(id));
    SameBefore(schedule, a, at);
  }

  lemma {:induction false} SendingStays(schedule: seq<Action>, a: Action, id: nat, at: nat)
    requires SentAt(schedule, id, at)
    ensures SentAt(schedule + [a], id, at)
  {
    ClientStays(schedule, a, id, at);
  }

  lemma {:induction false} EndedStays(
    schedule: seq<Action>, a: Action, id: nat, sent: nat, answer: Answer, at: nat)
    requires EndedAt(schedule, id, sent, answer, at)
    ensures EndedAt(schedule + [a], id, sent, answer, at)
  {
    SendingStays(schedule, a, id, sent);
    FirstStays(schedule, a, sent + 1, at, Answers(id));
  }

  lemma {:induction false} JoinedStays(schedule: seq<Action>, a: Action, id: nat, answer: Answer, at: nat)
    requires JoinedAt(schedule, id, answer, at)
    ensures JoinedAt(schedule + [a], id, answer, at)
  {
    var sent: nat, ended: nat :|
      && EndedAt(schedule, id, sent, answer, ended)
      && FirstAt(schedule, ended + 1, at, Joins(id))
      && Quiet(schedule, sent + 1, at, HangsUp(id));
    EndedStays(schedule, a, id, sent, answer, ended);
    FirstStays(schedule, a, ended + 1, at, Joins(id));
    assert Quiet(schedule + [a], sent + 1, at, HangsUp(id));
  }

  lemma {:induction false} KeysStays(schedule: seq<Action>, a: Action, id: nat, at: nat)
    requires at < |schedule| && KeysAt(schedule, id, at)
    ensures KeysAt(schedule + [a], id, at)
  {
    var joined: nat :|
      JoinedAt(schedule, id, Tokens(UnknownKey), joined) && FirstAt(schedule, joined + 1, at, KeysOrHangUp(id));
    JoinedStays(schedule, a, id, Tokens(UnknownKey), joined);
    FirstStays(schedule, a, joined + 1, at, KeysOrHangUp(id));
  }

  lemma {:induction false} UnheardStays(schedule: seq<Action>, a: Action, id: nat, sent: nat, at: nat)
    requires at <= |schedule| && Unheard(schedule, id, sent, at)
    ensures Unheard(schedule + [a], id, sent, at)
  {
    if Quiet(schedule, sent + 1, at, Answers(id)) {
      assert Quiet(schedule + [a], sent + 1, at, Answers(id));
    } else {
      var answer, ended: nat :|
        ended < at && EndedAt(schedule, id, sent, answer, ended) && Quiet(schedule, ended + 1, at, Joins(id));
      EndedStays(schedule, a, id, sent, answer, ended);
      assert Quiet(schedule + [a], ended + 1, at, Joins(id));
    }
  }

  lemma {:induction false} HungUpStays(schedule: seq<Action>, a: Action, id: nat, at: nat)
    requires HungUpAt(schedule, id, at)
    ensures HungUpAt(schedule + [a], id, at)
  {
    var sent: nat :|
      && SentAt(schedule, id, sent) && FirstAt(schedule, sent + 1, at, HangsUp(id))
      && Unheard(schedule, id, sent, at);
    SendingStays(schedule, a, id, sent);
    FirstStays(schedule, a, sent + 1, at, HangsUp(id));
    UnheardStays(schedule, a, id, sent, at);
  }

  lemma {:induction false} RefusedStays(schedule: seq<Action>, a: Action, id: nat, at: nat)
    requires RefusedAt(schedule, id, at)
    ensures RefusedAt(schedule + [a], id, at)
  {
    if query: Query, resumes, cookie :| query.error && CheckedAt(schedule, id, query, resumes, cookie, at) {
      CheckedStays(schedule, a, id, query, resumes, cookie, at);
    } else if answer :|
        answer != Tokens(Verifies) && answer != Tokens(UnknownKey) && JoinedAt(schedule, id, answer, at) {
      JoinedStays(schedule, a, id, answer, at);
    } else if HungUpAt(schedule, id, at) {
      HungUpStays(schedule, a, id, at);
    } else {
      KeysStays(schedule, a, id, at);
    }
  }

  lemma {:induction false} SettledStays(schedule: seq<Action>, a: Action, id: nat, outcome: Outcome, at: nat)
    requires SettledAt(schedule, id, outcome, at)
    ensures SettledAt(schedule + [a], id, outcome, at)
  {
    match outcome
    case Succeeded =>
      if JoinedAt(schedule, id, Tokens(Verifies), at) {
        JoinedStays(schedule, a, id, Tokens(Verifies), at);
      } else {
        KeysStays(schedule, a, id, at);
      }
    case Failed => RefusedStays(schedule, a, id, at);
    case Refunded =>
      if query: Query, resumes, cookie :|
          && !query.error && !Passes(query, resumes, cookie)
          && CheckedAt(schedule, id, query, resumes, cookie, at) {
        CheckedStays(schedule, a, id, query, resumes, cookie, at);
      } else {
        ClientStays(schedule, a, id, at);
      }
  }

  // Where a callback stands tells what happened.

  ghost predicate Unanswered(schedule: seq<Action>, id: nat) {
    exists sent: nat ::
      && SentAt(schedule, id, sent)
      && Quiet(schedule, sent + 1, |schedule|, HangsUp(id)) && Quiet(schedule, sent + 1, |schedule|, Answers(id))
  }

  ghost predicate AnsweredUnheard(schedule: seq<Action>, id: nat, answer: Answer) {
    exists sent: nat, ended: nat ::
      && EndedAt(schedule, id, sent, answer, ended)
      && Quiet(schedule, sent + 1, |schedule|, HangsUp(id)) && Quiet(schedule, ended + 1, |schedule|, Joins(id))
  }

  ghost predicate Awaiting(schedule: seq<Action>, id: nat, task: Option<Task>) {
    match task
    case Some(Running) => Unanswered(schedule, id)
    case Some(Over(answer)) => AnsweredUnheard(schedule, id, answer)
    case None => false
  }

  ghost predicate WasSettled(schedule: seq<Action>, id: nat, outcome: Outcome) {
    exists at: nat :: SettledAt(schedule, id, outcome, at)
  }

  ghost predicate Traced(schedule: seq<Action>, id: nat, c: Callback, task: Option<Task>) {
    match c.phase
    case Arrived =>
      exists at: nat ::
        ArrivedAt(schedule, id, c.query, at) && Quiet(schedule, at + 1, |schedule|, Begins(id))
    case Begun =>
      exists at: nat ::
        BeganAt(schedule, id, c.query, true, at) && Quiet(schedule, at + 1, |schedule|, Checks(id))
    case AwaitsClient =>
      exists at: nat :: PassedAt(schedule, id, at) && Quiet(schedule, at + 1, |schedule|, ClientOrHangUp(id))
    case AwaitsAnswer => Awaiting(schedule, id, task)
    case AwaitsKeys =>
      exists at: nat ::
        && JoinedAt(schedule, id, Tokens(UnknownKey), at)
        && Quiet(schedule, at + 1, |schedule|, KeysOrHangUp(id))
    case _ => forall o :: o in c.outcomes ==> WasSettled(schedule, id, o)
  }

  lemma QuietOn(schedule: seq<Action>, a: Action, from: nat, decides: Action -> bool)
    requires Quiet(schedule, from, |schedule|, decides) && !decides(a)
    ensures Quiet(schedule + [a], from, |schedule + [a]|, decides)
  {
  }

  lemma FirstNow(schedule: seq<Action>, a: Action, from: nat, decides: Action -> bool)
    requires from <= |schedule| && Quiet(schedule, from, |schedule|, decides) && decides(a)
    ensures FirstAt(schedule + [a], from, |schedule|, decides) && (schedule + [a])[|schedule|] == a
  {
  }

  lemma {:induction false} WasSettledStays(schedule: seq<Action>, a: Action, id: nat, outcome: Outcome)
    requires WasSettled(schedule, id, outcome)
    ensures WasSettled(schedule + [a], id, outcome)
  {
    var at: nat :| SettledAt(schedule, id, outcome, at);
    SettledStays(schedule, a, id, outcome, at);
  }

  lemma {:induction false} UnansweredStays(schedule: seq<Action>, a: Action, id: nat)
    requires Unanswered(schedule, id) && !HangsUp(id)(a) && !Answers(id)(a)
    ensures Unanswered(schedule + [a], id)
  {
    var sent: nat :|
      && SentAt(schedule, id, sent)
      && Quiet(schedule, sent + 1, |schedule|, HangsUp(id)) && Quiet(schedule, sent + 1, |schedule|, Answers(id));
    SendingStays(schedule, a, id, sent);
    QuietOn(schedule, a, sent + 1, HangsUp(id));
    QuietOn(schedule, a, sent + 1, Answers(id));
  }

  lemma {:induction false} AnsweredUnheardStays(schedule: seq<Action>, a: Action, id: nat, answer: Answer)
    requires AnsweredUnheard(schedule, id, answer) && !HangsUp(id)(a) && !Joins(id)(a)
    ensures AnsweredUnheard(schedule + [a], id, answer)
  {
    var sent: nat, ended: nat :|
      && EndedAt(schedule, id, sent, answer, ended)
      && Quiet(schedule, sent + 1, |schedule|, HangsUp(id)) && Quiet(schedule, ended + 1, |schedule|, Joins(id));
    EndedStays(schedule, a, id, sent, answer, ended);
    QuietOn(schedule, a, sent + 1, HangsUp(id));
    QuietOn(schedule, a, ended + 1, Joins(id));
  }

  lemma {:induction false} OutcomesStay(schedule: seq<Action>, a: Action, id: nat, c: Callback)
    requires forall o :: o in c.outcomes ==> WasSettled(schedule, id, o)
    ensures forall o :: o in c.outcomes ==> WasSettled(schedule + [a], id, o)
  {
    forall o | o in c.outcomes ensures WasSettled(schedule + [a], id, o) {
      WasSettledStays(schedule, a, id, o);
    }
  }

  /** A step that does not decide leaves the trace as it was. */
  lemma {:induction false} TraceStays(schedule: seq<Action>, a: Action, id: nat, c: Callback, task: Option<Task>)
    requires Traced(schedule, id, c, task) && !(a.id == id && Decides((c, task), a))
    ensures Traced(schedule + [a], id, c, task)
  {
    match c.phase
    case Arrived =>
      var at: nat :|
        ArrivedAt(schedule, id, c.query, at) && Quiet(schedule, at + 1, |schedule|, Begins(id));
      ArrivedStays(schedule, a, id, c.query, at);
      QuietOn(schedule, a, at + 1, Begins(id));
    case Begun =>
      var at: nat :|
        BeganAt(schedule, id, c.query, true, at) && Quiet(schedule, at + 1, |schedule|, Checks(id));
      BeganStays(schedule, a, id, c.query, true, at);
      QuietOn(schedule, a, at + 1, Checks(id));
    case AwaitsClient =>
      var at: nat :| PassedAt(schedule, id, at) && Quiet(schedule, at + 1, |schedule|, ClientOrHangUp(id));
      PassedStays(schedule, a, id, at);
      QuietOn(schedule, a, at + 1, ClientOrHangUp(id));
    case AwaitsAnswer =>
      if task == Some(Running) {
        UnansweredStays(schedule, a, id);
      } else {
        AnsweredUnheardStays(schedule, a, id, task.value.answer);
      }
    case AwaitsKeys =>
      var at: nat :|
        && JoinedAt(schedule, id, Tokens(UnknownKey), at)
        && Quiet(schedule, at + 1, |schedule|, KeysOrHangUp(id));
      JoinedStays(schedule, a, id, Tokens(UnknownKey), at);
      QuietOn(schedule, a, at + 1, KeysOrHangUp(id));
    case _ => OutcomesStay(schedule, a, id, c);
  }

  // And a step that does adds what it decides.

  lemma {:induction false} BeginIsTraced(schedule: seq<Action>, id: nat, query: Query, allowed: bool)
    requires Traced(schedule, id, Callback(query, Arrived, NotBegun, [], false, false), None)
    ensures BeganAt(schedule + [Begin(id, allowed)], id, query, allowed, |schedule|)
  {
    var a := Begin(id, allowed);
    var at: nat :| ArrivedAt(schedule, id, query, at) && Quiet(schedule, at + 1, |schedule|, Begins(id));
    ArrivedStays(schedule, a, id, query, at);
    FirstNow(schedule, a, at + 1, Begins(id));
  }

  lemma {:induction false} CheckIsTraced(
    schedule: seq<Action>, id: nat, query: Query, resumes: bool, cookie: bool)
    requires Traced(schedule, id, HasBegun(query), None)
    ensures CheckedAt(schedule + [Check(id, resumes, cookie)], id, query, resumes, cookie, |schedule|)
  {
    var a := Check(id, resumes, cookie);
    var at: nat :| BeganAt(schedule, id, query, true, at) && Quiet(schedule, at + 1, |schedule|, Checks(id));
    BeganStays(schedule, a, id, query, true, at);
    FirstNow(schedule, a, at + 1, Checks(id));
  }

  lemma {:induction false} ClientIsTraced(schedule: seq<Action>, a: Action, id: nat, c: Callback)
    requires c.phase.AwaitsClient? && Traced(schedule, id, c, None) && ClientOrHangUp(id)(a)
    ensures ClientAt(schedule + [a], id, |schedule|)
    ensures HasPlace(schedule + [a], id, |schedule|) <==>
            a == ClientReady(id, true, true) && Run(NEXT, INIT, schedule).free > 0
  {
    var at: nat :| PassedAt(schedule, id, at) && Quiet(schedule, at + 1, |schedule|, ClientOrHangUp(id));
    PassedStays(schedule, a, id, at);
    FirstNow(schedule, a, at + 1, ClientOrHangUp(id));
    assert (schedule + [a])[..|schedule|] == schedule;
  }

  lemma {:induction false} AnswerIsTraced(schedule: seq<Action>, id: nat, answer: Answer)
    requires Unanswered(schedule, id)
    ensures AnsweredUnheard(schedule + [ProviderAnswers(id, answer)], id, answer)
  {
    var a := ProviderAnswers(id, answer);
    var sent: nat :|
      && SentAt(schedule, id, sent)
      && Quiet(schedule, sent + 1, |schedule|, HangsUp(id)) && Quiet(schedule, sent + 1, |schedule|, Answers(id));
    SendingStays(schedule, a, id, sent);
    QuietOn(schedule, a, sent + 1, HangsUp(id));
    FirstNow(schedule, a, sent + 1, Answers(id));
    assert EndedAt(schedule + [a], id, sent, answer, |schedule|);
    assert Quiet(schedule + [a], |schedule| + 1, |schedule + [a]|, Joins(id));
  }

  lemma {:induction false} JoinIsTraced(schedule: seq<Action>, id: nat, answer: Answer)
    requires AnsweredUnheard(schedule, id, answer)
    ensures JoinedAt(schedule + [Join(id)], id, answer, |schedule|)
  {
    var a := Join(id);
    var sent: nat, ended: nat :|
      && EndedAt(schedule, id, sent, answer, ended)
      && Quiet(schedule, sent + 1, |schedule|, HangsUp(id)) && Quiet(schedule, ended + 1, |schedule|, Joins(id));
    EndedStays(schedule, a, id, sent, answer, ended);
    FirstNow(schedule, a, ended + 1, Joins(id));
    assert Quiet(schedule + [a], sent + 1, |schedule|, HangsUp(id));
  }

  lemma {:induction false} HangUpUnanswered(schedule: seq<Action>, id: nat)
    requires Unanswered(schedule, id)
    ensures HungUpAt(schedule + [HangUp(id)], id, |schedule|)
  {
    var a := HangUp(id);
    var sent: nat :|
      && SentAt(schedule, id, sent)
      && Quiet(schedule, sent + 1, |schedule|, HangsUp(id)) && Quiet(schedule, sent + 1, |schedule|, Answers(id));
    UnheardStays(schedule, a, id, sent, |schedule|);
    SendingStays(schedule, a, id, sent);
    FirstNow(schedule, a, sent + 1, HangsUp(id));
  }

  lemma {:induction false} HangUpUnheard(schedule: seq<Action>, id: nat, answer: Answer)
    requires AnsweredUnheard(schedule, id, answer)
    ensures HungUpAt(schedule + [HangUp(id)], id, |schedule|)
  {
    var a := HangUp(id);
    var sent: nat, ended: nat :|
      && EndedAt(schedule, id, sent, answer, ended)
      && Quiet(schedule, sent + 1, |schedule|, HangsUp(id)) && Quiet(schedule, ended + 1, |schedule|, Joins(id));
    assert Unheard(schedule, id, sent, |schedule|);
    UnheardStays(schedule, a, id, sent, |schedule|);
    SendingStays(schedule, a, id, sent);
    FirstNow(schedule, a, sent + 1, HangsUp(id));
  }

  lemma {:induction false} KeysAreTraced(schedule: seq<Action>, a: Action, id: nat, c: Callback)
    requires c.phase.AwaitsKeys? && Traced(schedule, id, c, None) && KeysOrHangUp(id)(a)
    ensures KeysAt(schedule + [a], id, |schedule|)
  {
    var at: nat :|
      && JoinedAt(schedule, id, Tokens(UnknownKey), at)
      && Quiet(schedule, at + 1, |schedule|, KeysOrHangUp(id));
    JoinedStays(schedule, a, id, Tokens(UnknownKey), at);
    FirstNow(schedule, a, at + 1, KeysOrHangUp(id));
  }

  // Each phase's own step.

  /** What the next state shows of the callback is traced. */
  ghost predicate TracedAfter(schedule: seq<Action>, a: Action, id: nat) {
    var t := Step(Run(NEXT, INIT, schedule), a);
    id in t.callbacks && Traced(schedule + [a], id, View(t, id).0, View(t, id).1)
  }

  /** The callback is there, in order, and traced. */
  ghost predicate Tracked(schedule: seq<Action>, id: nat) {
    var s := Run(NEXT, INIT, schedule);
    && id in s.callbacks && CallbackOk(s.callbacks[id])
    && Traced(schedule, id, View(s, id).0, View(s, id).1)
  }

  lemma {:induction false} OneOutcome(schedule: seq<Action>, id: nat, c: Callback, outcome: Outcome, at: nat)
    requires c.phase.Finished? || c.phase.SignedIn?
    requires c.outcomes == [outcome] && SettledAt(schedule, id, outcome, at)
    ensures Traced(schedule, id, c, None)
  {
    assert WasSettled(schedule, id, outcome);
  }

  lemma {:induction false} ArrivedGoesOn(schedule: seq<Action>, id: nat, allowed: bool)
    requires Tracked(schedule, id) && Run(NEXT, INIT, schedule).callbacks[id].phase.Arrived?
    ensures TracedAfter(schedule, Begin(id, allowed), id)
  {
    var c := Run(NEXT, INIT, schedule).callbacks[id];
    assert c == Callback(c.query, Arrived, NotBegun, [], false, false);
    BeginIsTraced(schedule, id, c.query, allowed);
  }

  lemma {:induction false} BegunGoesOn(schedule: seq<Action>, id: nat, resumes: bool, cookie: bool)
    requires Tracked(schedule, id) && Run(NEXT, INIT, schedule).callbacks[id].phase.Begun?
    ensures TracedAfter(schedule, Check(id, resumes, cookie), id)
  {
    var s, a := Run(NEXT, INIT, schedule), Check(id, resumes, cookie);
    var query := s.callbacks[id].query;
    assert s.callbacks[id] == HasBegun(query);
    CheckIsTraced(schedule, id, query, resumes, cookie);
    CheckMoves(s, id, query, resumes, cookie);
    if query.error {
      OneOutcome(schedule + [a], id, Checked(query, resumes, cookie), Failed, |schedule|);
    } else if Passes(query, resumes, cookie) {
      assert PassedAt(schedule + [a], id, |schedule|);
    } else {
      OneOutcome(schedule + [a], id, Checked(query, resumes, cookie), Refunded, |schedule|);
    }
  }

  lemma {:induction false} ClientGoesOn(schedule: seq<Action>, a: Action, id: nat)
    requires Tracked(schedule, id) && Run(NEXT, INIT, schedule).callbacks[id].phase.AwaitsClient?
    requires ClientOrHangUp(id)(a)
    ensures TracedAfter(schedule, a, id)
  {
    var s := Run(NEXT, INIT, schedule);
    var query := s.callbacks[id].query;
    assert s.callbacks[id] == Callback(query, AwaitsClient, Owned, [], false, false);
    ClientIsTraced(schedule, a, id, s.callbacks[id]);
    ClientMoves(s, a, id, query);
    if HasPlace(schedule + [a], id, |schedule|) {
      assert SentAt(schedule + [a], id, |schedule|);
    } else {
      assert SettledAt(schedule + [a], id, Refunded, |schedule|);
      OneOutcome(schedule + [a], id, Step(s, a).callbacks[id], Refunded, |schedule|);
    }
  }

  lemma {:induction false} JoinGoesOn(schedule: seq<Action>, id: nat, answer: Answer)
    requires Tracked(schedule, id) && View(Run(NEXT, INIT, schedule), id).1 == Some(Over(answer))
    ensures TracedAfter(schedule, Join(id), id)
  {
    var s, a := Run(NEXT, INIT, schedule), Join(id);
    var query := s.callbacks[id].query;
    assert s.callbacks[id] == Sending(query);
    JoinIsTraced(schedule, id, answer);
    HearingMoves(s, id, query, answer);
    if answer == Tokens(Verifies) {
      OneOutcome(schedule + [a], id, Heard(query, answer), Succeeded, |schedule|);
    } else if answer != Tokens(UnknownKey) {
      assert RefusedAt(schedule + [a], id, |schedule|);
      OneOutcome(schedule + [a], id, Heard(query, answer), Failed, |schedule|);
    }
  }

  lemma {:induction false} HangUpGoesOn(schedule: seq<Action>, id: nat, task: Task)
    requires Tracked(schedule, id) && View(Run(NEXT, INIT, schedule), id).1 == Some(task)
    ensures TracedAfter(schedule, HangUp(id), id)
  {
    var s, a := Run(NEXT, INIT, schedule), HangUp(id);
    var query := s.callbacks[id].query;
    assert s.callbacks[id] == Sending(query);
    if task == Running {
      HangUpUnanswered(schedule, id);
    } else {
      HangUpUnheard(schedule, id, task.answer);
    }
    HangUpMoves(s, id, query);
    OneOutcome(schedule + [a], id, Step(s, a).callbacks[id], Failed, |schedule|);
  }

  lemma {:induction false} KeysGoOn(schedule: seq<Action>, a: Action, id: nat)
    requires Tracked(schedule, id) && Run(NEXT, INIT, schedule).callbacks[id].phase.AwaitsKeys?
    requires KeysOrHangUp(id)(a)
    ensures TracedAfter(schedule, a, id)
  {
    var s := Run(NEXT, INIT, schedule);
    var query := s.callbacks[id].query;
    assert s.callbacks[id] == Heard(query, Tokens(UnknownKey));
    KeysAreTraced(schedule, a, id, s.callbacks[id]);
    KeysMove(s, a, id, query);
    var outcome := if a == KeysReady(id, true) then Succeeded else Failed;
    assert SettledAt(schedule + [a], id, outcome, |schedule|);
    OneOutcome(schedule + [a], id, Step(s, a).callbacks[id], outcome, |schedule|);
  }

  lemma {:induction false} SignedInGoesOn(schedule: seq<Action>, a: Action, id: nat)
    requires Tracked(schedule, id) && Run(NEXT, INIT, schedule).callbacks[id].phase.SignedIn?
    requires a == Complete(id) || a == HangUp(id)
    ensures TracedAfter(schedule, a, id)
  {
    OutcomesStay(schedule, a, id, Run(NEXT, INIT, schedule).callbacks[id]);
  }

  lemma {:induction false} AnswerMoves(s: State, id: nat, answer: Answer)
    requires id in s.callbacks && s.callbacks[id].phase.AwaitsAnswer? && View(s, id).1 == Some(Running)
    ensures
      var t := Step(s, ProviderAnswers(id, answer));
      id in t.callbacks && View(t, id) == (s.callbacks[id], Some(Over(answer)))
  {
  }

  lemma {:induction false} AnswerGoesOn(schedule: seq<Action>, id: nat, answer: Answer)
    requires Tracked(schedule, id) && View(Run(NEXT, INIT, schedule), id).1 == Some(Running)
    ensures TracedAfter(schedule, ProviderAnswers(id, answer), id)
  {
    AnswerIsTraced(schedule, id, answer);
    AnswerMoves(Run(NEXT, INIT, schedule), id, answer);
  }

  lemma {:induction false} AwaitsAnswerGoesOn(schedule: seq<Action>, a: Action, id: nat)
    requires Tracked(schedule, id) && Run(NEXT, INIT, schedule).callbacks[id].phase.AwaitsAnswer?
    requires a.id == id && Decides(View(Run(NEXT, INIT, schedule), id), a)
    ensures TracedAfter(schedule, a, id)
  {
    var task := View(Run(NEXT, INIT, schedule), id).1.value;
    if a.HangUp? {
      HangUpGoesOn(schedule, id, task);
    } else if task == Running {
      AnswerGoesOn(schedule, id, a.answer);
    } else {
      JoinGoesOn(schedule, id, task.answer);
    }
  }

  lemma {:induction false} GoesOn(schedule: seq<Action>, a: Action, id: nat)
    requires Tracked(schedule, id)
    ensures TracedAfter(schedule, a, id)
  {
    var s := Run(NEXT, INIT, schedule);
    var view := View(s, id);
    if a.id == id && Decides(view, a) {
      match view.0.phase
      case Arrived => ArrivedGoesOn(schedule, id, a.allowed);
      case Begun => BegunGoesOn(schedule, id, a.resumes, a.cookie);
      case AwaitsClient => ClientGoesOn(schedule, a, id);
      case AwaitsAnswer => AwaitsAnswerGoesOn(schedule, a, id);
      case AwaitsKeys => KeysGoOn(schedule, a, id);
      case _ => SignedInGoesOn(schedule, a, id);
    } else {
      StepLeaves(s, a, id);
      TraceStays(schedule, a, id, view.0, view.1);
    }
  }

  lemma {:induction false} ArrivesNow(schedule: seq<Action>, id: nat, query: Query)
    requires Quiet(schedule, 0, |schedule|, Arrives(id))
    ensures TracedAfter(schedule, Arrive(id, query), id)
  {
    var a := Arrive(id, query);
    assert schedule[..|schedule|] == schedule;
    NotThereYet(schedule, id, |schedule|);
    FirstNow(schedule, a, 0, Arrives(id));
    assert ArrivedAt(schedule + [a], id, query, |schedule|);
    assert Quiet(schedule + [a], |schedule| + 1, |schedule + [a]|, Begins(id));
  }

  /** Every callback is traced, and one that is not there has not arrived. */
  lemma {:induction false} EveryCallbackIsTraced(schedule: seq<Action>, id: nat)
    ensures
      var s := Run(NEXT, INIT, schedule);
      if id in s.callbacks then Traced(schedule, id, View(s, id).0, View(s, id).1)
      else Quiet(schedule, 0, |schedule|, Arrives(id))
  {
    if schedule != [] {
      var front, a := schedule[..|schedule| - 1], schedule[|schedule| - 1];
      assert schedule == front + [a];
      EveryCallbackIsTraced(front, id);
      RunKeepsInv(front);
      if id in Run(NEXT, INIT, front).callbacks {
        GoesOn(front, a, id);
      } else if Arrives(id)(a) {
        ArrivesNow(front, id, a.query);
      } else {
        QuietOn(front, a, 0, Arrives(id));
      }
    }
  }

  // So it is if and only if.

  lemma {:induction false} AloneOnlyAdds(c: Callback, a: Action)
    ensures c.outcomes <= Alone(c, a).outcomes && Alone(c, a).sent == c.sent
  {
  }

  lemma {:induction false} JoinedOnlyAdds(c: Callback, answer: Answer)
    requires c.attempt.InSent?
    ensures c.outcomes <= Joined(c, answer).outcomes && Joined(c, answer).sent == c.sent
  {
  }

  lemma {:induction false} StepOnlyAdds(s: State, a: Action, id: nat)
    requires id in s.callbacks
    ensures
      var t := Step(s, a);
      && id in t.callbacks && s.callbacks[id].outcomes <= t.callbacks[id].outcomes
      && (s.callbacks[id].sent ==> t.callbacks[id].sent)
      && (t.callbacks[id].sent && !s.callbacks[id].sent ==>
            && s.callbacks[id].phase.AwaitsClient? && a == ClientReady(id, true, true) && s.free > 0)
  {
    if a.id == id {
      AloneOnlyAdds(s.callbacks[id], a);
      if a.Join? && s.callbacks[id].attempt.InSent? && id in s.tasks && s.tasks[id].Over? {
        JoinedOnlyAdds(s.callbacks[id], s.tasks[id].answer);
      }
    }
  }

  /** What it has come to by step `at` stays. */
  lemma {:induction false} OnlyAdds(schedule: seq<Action>, id: nat, at: nat, to: nat)
    requires at <= to <= |schedule| && id in At(schedule, at).callbacks
    ensures
      var s, t := At(schedule, at), At(schedule, to);
      && id in t.callbacks && s.callbacks[id].outcomes <= t.callbacks[id].outcomes
      && (s.callbacks[id].sent ==> t.callbacks[id].sent)
  {
    if at < to {
      OnlyAdds(schedule, id, at, to - 1);
      NextAt(schedule, to - 1);
      StepOnlyAdds(At(schedule, to - 1), schedule[to - 1], id);
    }
  }

  lemma {:induction false} SettledIsFinal(schedule: seq<Action>, id: nat, outcome: Outcome)
    requires WasSettled(schedule, id, outcome)
    ensures
      var s := At(schedule, |schedule|);
      id in s.callbacks && outcome in s.callbacks[id].outcomes
  {
    var at: nat :| SettledAt(schedule, id, outcome, at);
    SettledStands(schedule, id, outcome, at);
    OnlyAdds(schedule, id, at + 1, |schedule|);
    assert At(schedule, at + 1).callbacks[id].outcomes[0] == outcome;
  }

  /** In every run, and for each of the three outcomes: an attempt is settled so if and only if
      something happened to its callback that settles it so, and then with no other. It succeeds if and
      only if the provider's answer to a code sent for it was a token that verifies, or one with an
      unknown key that verifies under fresh keys, and the client was still there to hear of it. */
  lemma {:induction false} SettledIff(schedule: seq<Action>, id: nat, outcome: Outcome)
    requires id in Run(NEXT, INIT, schedule).callbacks
    ensures
      var outcomes := Run(NEXT, INIT, schedule).callbacks[id].outcomes;
      outcomes == [outcome] <==> WasSettled(schedule, id, outcome)
  {
    var c := Run(NEXT, INIT, schedule).callbacks[id];
    EveryCallbackIsTraced(schedule, id);
    RunKeepsInv(schedule);
    OkIsSettledOnce(c);
    assert schedule[..|schedule|] == schedule;
    if WasSettled(schedule, id, outcome) {
      SettledIsFinal(schedule, id, outcome);
    }
    if c.outcomes == [outcome] {
      assert outcome in c.outcomes;
    }
  }

  ghost predicate WasSent(schedule: seq<Action>, id: nat) {
    exists at: nat :: SentAt(schedule, id, at)
  }

  lemma {:induction false} SentStays(schedule: seq<Action>, a: Action, id: nat)
    requires WasSent(schedule, id)
    ensures WasSent(schedule + [a], id)
  {
    var at: nat :| SentAt(schedule, id, at);
    SendingStays(schedule, a, id, at);
  }

  lemma {:induction false} SentIsTraced(schedule: seq<Action>, id: nat)
    requires id in Run(NEXT, INIT, schedule).callbacks && Run(NEXT, INIT, schedule).callbacks[id].sent
    ensures WasSent(schedule, id)
  {
    if schedule != [] {
      var front, a := schedule[..|schedule| - 1], schedule[|schedule| - 1];
      assert schedule == front + [a];
      var s := Run(NEXT, INIT, front);
      if id in s.callbacks {
        StepOnlyAdds(s, a, id);
        if s.callbacks[id].sent {
          SentIsTraced(front, id);
          SentStays(front, a, id);
        } else {
          EveryCallbackIsTraced(front, id);
          ClientIsTraced(front, a, id, s.callbacks[id]);
          assert SentAt(schedule, id, |front|);
        }
      }
    }
  }

  lemma {:induction false} SentIsFinal(schedule: seq<Action>, id: nat)
    requires WasSent(schedule, id)
    ensures id in Run(NEXT, INIT, schedule).callbacks && Run(NEXT, INIT, schedule).callbacks[id].sent
  {
    var at: nat :| SentAt(schedule, id, at);
    var query := ClientStands(schedule, id, at);
    assert schedule[..|schedule|] == schedule;
    OnlyAdds(schedule, id, at + 1, |schedule|);
  }

  /** A code is sent for a callback if and only if it was let through, its query has a code, a state and
      no error, the state resumes a sign-in that this browser began, and there was a client and a
      place for it before anyone hung up. */
  lemma {:induction false} SentIff(schedule: seq<Action>, id: nat)
    requires id in Run(NEXT, INIT, schedule).callbacks
    ensures Run(NEXT, INIT, schedule).callbacks[id].sent <==> WasSent(schedule, id)
  {
    if Run(NEXT, INIT, schedule).callbacks[id].sent {
      SentIsTraced(schedule, id);
    }
    if WasSent(schedule, id) {
      SentIsFinal(schedule, id);
    }
  }
}
