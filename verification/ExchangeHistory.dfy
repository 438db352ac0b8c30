/**
  How an attempt of a callback is settled, told by what happened to it alone: which of its own steps
  came first where it stood, what the query said, what the provider answered, and whether a place
  was free. Nothing here asks what the machine wrote down.
*/
module ExchangeHistory {
  import opened Exchange
  import opened Schedules
  import opened Wrappers

  // The first step that decides.

  /** None of the steps from `from` on and before `to` decides. */
  predicate Quiet(schedule: seq<Action>, from: nat, to: nat, decides: Action -> bool)
    requires to <= |schedule|
  {
    forall i :: from <= i < to ==> !decides(schedule[i])
  }

  predicate FirstAt(schedule: seq<Action>, from: nat, at: nat, decides: Action -> bool) {
    from <= at < |schedule| && decides(schedule[at]) && Quiet(schedule, from, at, decides)
  }

  function Arrives(id: nat): Action -> bool {
    (a: Action) => a.Arrive? && a.id == id
  }

  function Begins(id: nat): Action -> bool {
    (a: Action) => a.Begin? && a.id == id
  }

  function Checks(id: nat): Action -> bool {
    (a: Action) => a.Check? && a.id == id
  }

  function HangsUp(id: nat): Action -> bool {
    (a: Action) => a == HangUp(id)
  }

  function ClientOrHangUp(id: nat): Action -> bool {
    (a: Action) => (a.ClientReady? || a.HangUp?) && a.id == id
  }

  function Answers(id: nat): Action -> bool {
    (a: Action) => a.ProviderAnswers? && a.id == id
  }

  function Joins(id: nat): Action -> bool {
    (a: Action) => a == Join(id)
  }

  function KeysOrHangUp(id: nat): Action -> bool {
    (a: Action) => (a.KeysReady? || a.HangUp?) && a.id == id
  }

  // How far a callback got.

  ghost predicate ArrivedAt(schedule: seq<Action>, id: nat, query: Query, at: nat) {
    FirstAt(schedule, 0, at, Arrives(id)) && schedule[at] == Arrive(id, query)
  }

  ghost predicate BeganAt(schedule: seq<Action>, id: nat, query: Query, allowed: bool, at: nat) {
    exists arrived: nat ::
      && ArrivedAt(schedule, id, query, arrived)
      && FirstAt(schedule, arrived + 1, at, Begins(id)) && schedule[at] == Begin(id, allowed)
  }

  ghost predicate CheckedAt(
    schedule: seq<Action>, id: nat, query: Query, resumes: bool, cookie: bool, at: nat)
  {
    exists begun: nat ::
      && BeganAt(schedule, id, query, true, begun)
      && FirstAt(schedule, begun + 1, at, Checks(id)) && schedule[at] == Check(id, resumes, cookie)
  }

  /** The query has a code and a state and no error, and the state resumes a sign-in this browser began. */
  predicate Passes(query: Query, resumes: bool, cookie: bool) {
    !query.error && query.code && query.state && resumes && cookie
  }

  ghost predicate PassedAt(schedule: seq<Action>, id: nat, at: nat) {
    exists query :: Passes(query, true, true) && CheckedAt(schedule, id, query, true, true, at)
  }

  ghost predicate ClientAt(schedule: seq<Action>, id: nat, at: nat) {
    exists passed: nat ::
      PassedAt(schedule, id, passed) && FirstAt(schedule, passed + 1, at, ClientOrHangUp(id))
  }

  /** There is a client with a token endpoint, and a place is free. */
  predicate HasPlace(schedule: seq<Action>, id: nat, at: nat)
    requires at < |schedule|
  {
    schedule[at] == ClientReady(id, true, true) && Run(NEXT, INIT, schedule[..at]).free > 0
  }

  /** The code is sent. */
  ghost predicate SentAt(schedule: seq<Action>, id: nat, at: nat) {
    at < |schedule| && ClientAt(schedule, id, at) && HasPlace(schedule, id, at)
  }

  /** The exchange begun at `sent` ends. */
  ghost predicate EndedAt(schedule: seq<Action>, id: nat, sent: nat, answer: Answer, at: nat) {
    && SentAt(schedule, id, sent)
    && FirstAt(schedule, sent + 1, at, Answers(id)) && schedule[at] == ProviderAnswers(id, answer)
  }

  /** The callback is there to hear of it. */
  ghost predicate JoinedAt(schedule: seq<Action>, id: nat, answer: Answer, at: nat) {
    exists sent: nat, ended: nat ::
      && EndedAt(schedule, id, sent, answer, ended)
      && FirstAt(schedule, ended + 1, at, Joins(id))
      && Quiet(schedule, sent + 1, at, HangsUp(id))
  }

  /** It asked for fresh keys, and this came first after that. */
  ghost predicate KeysAt(schedule: seq<Action>, id: nat, at: nat) {
    exists joined: nat ::
      JoinedAt(schedule, id, Tokens(UnknownKey), joined) && FirstAt(schedule, joined + 1, at, KeysOrHangUp(id))
  }

  /** The exchange begun at `sent` has not been heard of before `at`. */
  ghost predicate Unheard(schedule: seq<Action>, id: nat, sent: nat, at: nat)
    requires at <= |schedule|
  {
    || Quiet(schedule, sent + 1, at, Answers(id))
    || exists answer, ended: nat ::
         ended < at && EndedAt(schedule, id, sent, answer, ended) && Quiet(schedule, ended + 1, at, Joins(id))
  }

  /** The client hangs up while the code is with the provider, or its answer unheard. */
  ghost predicate HungUpAt(schedule: seq<Action>, id: nat, at: nat) {
    exists sent: nat ::
      && SentAt(schedule, id, sent) && FirstAt(schedule, sent + 1, at, HangsUp(id))
      && Unheard(schedule, id, sent, at)
  }

  // What settles it.

  /** The token verified, under the keys at hand or under fresh ones. */
  ghost predicate VerifiedAt(schedule: seq<Action>, id: nat, at: nat) {
    || JoinedAt(schedule, id, Tokens(Verifies), at)
    || (at < |schedule| && KeysAt(schedule, id, at) && schedule[at] == KeysReady(id, true))
  }

  /** The provider reported an error, or refused the code, or answered with a token that does not
      verify, or the client hung up once the code was sent. */
  ghost predicate RefusedAt(schedule: seq<Action>, id: nat, at: nat) {
    || (exists query: Query, resumes, cookie ::
          query.error && CheckedAt(schedule, id, query, resumes, cookie, at))
    || (exists answer ::
          answer != Tokens(Verifies) && answer != Tokens(UnknownKey) && JoinedAt(schedule, id, answer, at))
    || (at < |schedule| && KeysAt(schedule, id, at) && schedule[at] != KeysReady(id, true))
    || HungUpAt(schedule, id, at)
  }

  /** No code was sent, and the provider reported no error. */
  ghost predicate GivenBackAt(schedule: seq<Action>, id: nat, at: nat) {
    || (exists query: Query, resumes, cookie ::
          && !query.error && !Passes(query, resumes, cookie)
          && CheckedAt(schedule, id, query, resumes, cookie, at))
    || (at < |schedule| && ClientAt(schedule, id, at) && !HasPlace(schedule, id, at))
  }

  ghost predicate SettledAt(schedule: seq<Action>, id: nat, outcome: Outcome, at: nat) {
    match outcome
    case Succeeded => VerifiedAt(schedule, id, at)
    case Failed => RefusedAt(schedule, id, at)
    case Refunded => GivenBackAt(schedule, id, at)
  }

  // Where a callback stands, nothing but what decides there moves it.

  /** The callback, and its exchange while it awaits that. */
  function View(s: State, id: nat): (Callback, Option<Task>)
    requires id in s.callbacks
  {
    var c := s.callbacks[id];
    (c, if c.phase.AwaitsAnswer? && id in s.tasks then Some(s.tasks[id]) else None)
  }

  predicate Decides(view: (Callback, Option<Task>), a: Action) {
    match view.0.phase
    case Arrived => a.Begin?
    case Begun => a.Check?
    case AwaitsClient => a.ClientReady? || a.HangUp?
    case AwaitsAnswer => a.HangUp? || if view.1 == Some(Running) then a.ProviderAnswers? else a.Join?
    case AwaitsKeys => a.KeysReady? || a.HangUp?
    case SignedIn => a.Complete? || a.HangUp?
    case Finished => false
  }

  lemma {:induction false} StepLeaves(s: State, a: Action, id: nat)
    requires id in s.callbacks && !(a.id == id && Decides(View(s, id), a))
    ensures id in Step(s, a).callbacks && View(Step(s, a), id) == View(s, id)
  {
  }

  function At(schedule: seq<Action>, i: nat): State
    requires i <= |schedule|
  {
    Run(NEXT, INIT, schedule[..i])
  }

  lemma {:induction false} NextAt(schedule: seq<Action>, i: nat)
    requires i < |schedule|
    ensures At(schedule, i + 1) == Step(At(schedule, i), schedule[i])
  {
    assert schedule[..i + 1] == schedule[..i] + [schedule[i]];
    RunOne(NEXT, INIT, schedule[..i], schedule[i]);
  }

  lemma {:induction false} Leaves(schedule: seq<Action>, id: nat, from: nat, to: nat)
    requires from <= to <= |schedule| && id in At(schedule, from).callbacks
    requires forall i :: from <= i < to ==>
               !(schedule[i].id == id && Decides(View(At(schedule, from), id), schedule[i]))
    ensures id in At(schedule, to).callbacks && View(At(schedule, to), id) == View(At(schedule, from), id)
  {
    if from < to {
      Leaves(schedule, id, from, to - 1);
      NextAt(schedule, to - 1);
      StepLeaves(At(schedule, to - 1), schedule[to - 1], id);
    }
  }

  lemma {:induction false} NotThereYet(schedule: seq<Action>, id: nat, to: nat)
    requires to <= |schedule| && Quiet(schedule, 0, to, Arrives(id))
    ensures id !in At(schedule, to).callbacks && id !in At(schedule, to).tasks
  {
    if to > 0 {
      NotThereYet(schedule, id, to - 1);
      NextAt(schedule, to - 1);
      assert !Arrives(id)(schedule[to - 1]);
    }
  }

  // What happened decides where a callback stands.

  /** After step `at`, the callback is `c` and its exchange, if awaited, `task`. */
  predicate Stands(schedule: seq<Action>, id: nat, at: nat, c: Callback, task: Option<Task>) {
    at < |schedule| && id in At(schedule, at + 1).callbacks && View(At(schedule, at + 1), id) == (c, task)
  }

  /** It stood so until `to`, if nothing decided before that. */
  lemma {:induction false} StoodUntil(
    schedule: seq<Action>, id: nat, from: nat, to: nat, c: Callback, task: Option<Task>, decides: Action -> bool)
    requires from < to < |schedule| && Stands(schedule, id, from, c, task)
    requires Quiet(schedule, from + 1, to, decides)
    requires forall a: Action :: a.id == id && Decides((c, task), a) ==> decides(a)
    ensures id in At(schedule, to).callbacks && View(At(schedule, to), id) == (c, task)
    ensures At(schedule, to + 1) == Step(At(schedule, to), schedule[to])
  {
    forall i | from < i < to ensures !(schedule[i].id == id && Decides((c, task), schedule[i])) {
      assert !decides(schedule[i]);
    }
    Leaves(schedule, id, from + 1, to);
    NextAt(schedule, to);
  }

  function Either(a: Action -> bool, b: Action -> bool): Action -> bool {
    x => a(x) || b(x)
  }

  lemma QuietBoth(schedule: seq<Action>, from: nat, to: nat, a: Action -> bool, b: Action -> bool)
    requires to <= |schedule| && Quiet(schedule, from, to, a) && Quiet(schedule, from, to, b)
    ensures Quiet(schedule, from, to, Either(a, b))
  {
  }

  lemma {:induction false} ArrivedStands(schedule: seq<Action>, id: nat, query: Query, at: nat)
    requires ArrivedAt(schedule, id, query, at)
    ensures Stands(schedule, id, at, Callback(query, Arrived, NotBegun, [], false, false), None)
  {
    NotThereYet(schedule, id, at);
    NextAt(schedule, at);
  }

  function HasBegun(query: Query): Callback {
    Callback(query, Begun, Owned, [], false, false)
  }

  lemma {:induction false} BegunStands(schedule: seq<Action>, id: nat, query: Query, at: nat)
    requires BeganAt(schedule, id, query, true, at)
    ensures Stands(schedule, id, at, HasBegun(query), None)
  {
    var arrived: nat :|
      && ArrivedAt(schedule, id, query, arrived)
      && FirstAt(schedule, arrived + 1, at, Begins(id)) && schedule[at] == Begin(id, true);
    ArrivedStands(schedule, id, query, arrived);
    var c := Callback(query, Arrived, NotBegun, [], false, false);
    StoodUntil(schedule, id, arrived, at, c, None, Begins(id));
  }

  /** What a check makes of it. */
  function Checked(query: Query, resumes: bool, cookie: bool): Callback {
    if query.error then Callback(query, Finished, Gone, [Failed], false, false)
    else if Passes(query, resumes, cookie) then Callback(query, AwaitsClient, Owned, [], false, false)
    else Callback(query, Finished, Gone, [Refunded], false, false)
  }

  lemma {:induction false} CheckMoves(s: State, id: nat, query: Query, resumes: bool, cookie: bool)
    requires id in s.callbacks && View(s, id) == (HasBegun(query), None)
    ensures id in Step(s, Check(id, resumes, cookie)).callbacks
    ensures View(Step(s, Check(id, resumes, cookie)), id) == (Checked(query, resumes, cookie), None)
  {
    assert [] + [Failed] == [Failed] && [] + [Refunded] == [Refunded];
  }

  lemma {:induction false} CheckedStands(
    schedule: seq<Action>, id: nat, query: Query, resumes: bool, cookie: bool, at: nat)
    requires CheckedAt(schedule, id, query, resumes, cookie, at)
    ensures Stands(schedule, id, at, Checked(query, resumes, cookie), None)
  {
    var begun: nat :|
      && BeganAt(schedule, id, query, true, begun)
      && FirstAt(schedule, begun + 1, at, Checks(id)) && schedule[at] == Check(id, resumes, cookie);
    BegunStands(schedule, id, query, begun);
    var c := HasBegun(query);
    StoodUntil(schedule, id, begun, at, c, None, Checks(id));
    CheckMoves(At(schedule, at), id, query, resumes, cookie);
  }

  /** The callback once its code is sent. */
  function Sending(query: Query): Callback {
    Callback(query, AwaitsAnswer, InSent(true), [], true, false)
  }

  lemma {:induction false} ClientMoves(s: State, a: Action, id: nat, query: Query)
    requires id in s.callbacks && View(s, id) == (Callback(query, AwaitsClient, Owned, [], false, false), None)
    requires ClientOrHangUp(id)(a)
    ensures id in Step(s, a).callbacks
    ensures View(Step(s, a), id) ==
            if a == ClientReady(id, true, true) && s.free > 0 then (Sending(query), Some(Running))
            else (Callback(query, Finished, Gone, [Refunded], false, false), None)
  {
    assert [] + [Refunded] == [Refunded];
  }

  lemma {:induction false} ClientStands(schedule: seq<Action>, id: nat, at: nat) returns (query: Query)
    requires at < |schedule| && ClientAt(schedule, id, at)
    ensures !query.error
    ensures if HasPlace(schedule, id, at) then Stands(schedule, id, at, Sending(query), Some(Running))
            else Stands(schedule, id, at, Callback(query, Finished, Gone, [Refunded], false, false), None)
  {
    var passed: nat :| PassedAt(schedule, id, passed) && FirstAt(schedule, passed + 1, at, ClientOrHangUp(id));
    query :| Passes(query, true, true) && CheckedAt(schedule, id, query, true, true, passed);
    CheckedStands(schedule, id, query, true, true, passed);
    var c := Checked(query, true, true);
    StoodUntil(schedule, id, passed, at, c, None, ClientOrHangUp(id));
    ClientMoves(At(schedule, at), schedule[at], id, query);
  }

  lemma {:induction false} EndedStands(schedule: seq<Action>, id: nat, sent: nat, answer: Answer, at: nat)
    returns (query: Query)
    requires EndedAt(schedule, id, sent, answer, at) && Quiet(schedule, sent + 1, at, HangsUp(id))
    ensures Stands(schedule, id, at, Sending(query), Some(Over(answer)))
  {
    query := ClientStands(schedule, id, sent);
    var c := Sending(query);
    QuietBoth(schedule, sent + 1, at, Answers(id), HangsUp(id));
    StoodUntil(schedule, id, sent, at, c, Some(Running), Either(Answers(id), HangsUp(id)));
  }

  /** What an answer makes of it, once heard. */
  function Heard(query: Query, answer: Answer): Callback {
    if answer == Tokens(Verifies) then Callback(query, SignedIn, Gone, [Succeeded], true, true)
    else if answer == Tokens(UnknownKey) then Callback(query, AwaitsKeys, InSent(true), [], true, false)
    else Callback(query, Finished, Gone, [Failed], true, false)
  }

  lemma {:induction false} HearingMoves(s: State, id: nat, query: Query, answer: Answer)
    requires id in s.callbacks && View(s, id) == (Sending(query), Some(Over(answer)))
    ensures id in Step(s, Join(id)).callbacks && View(Step(s, Join(id)), id) == (Heard(query, answer), None)
  {
    assert [] + [Failed] == [Failed] && [] + [Succeeded] == [Succeeded];
  }

  lemma {:induction false} JoinedStands(schedule: seq<Action>, id: nat, answer: Answer, at: nat)
    returns (query: Query)
    requires JoinedAt(schedule, id, answer, at)
    ensures Stands(schedule, id, at, Heard(query, answer), None)
  {
    var sent: nat, ended: nat :|
      && EndedAt(schedule, id, sent, answer, ended)
      && FirstAt(schedule, ended + 1, at, Joins(id))
      && Quiet(schedule, sent + 1, at, HangsUp(id));
    query := EndedStands(schedule, id, sent, answer, ended);
    var c := Sending(query);
    QuietBoth(schedule, ended + 1, at, Joins(id), HangsUp(id));
    StoodUntil(schedule, id, ended, at, c, Some(Over(answer)), Either(Joins(id), HangsUp(id)));
    HearingMoves(At(schedule, at), id, query, answer);
  }

  lemma {:induction false} KeysMove(s: State, a: Action, id: nat, query: Query)
    requires id in s.callbacks && View(s, id) == (Heard(query, Tokens(UnknownKey)), None) && KeysOrHangUp(id)(a)
    ensures id in Step(s, a).callbacks
    ensures View(Step(s, a), id) ==
            (if a == KeysReady(id, true) then Callback(query, SignedIn, Gone, [Succeeded], true, true)
             else Callback(query, Finished, Gone, [Failed], true, false),
             None)
  {
    assert [] + [Failed] == [Failed] && [] + [Succeeded] == [Succeeded];
  }

  lemma {:induction false} KeysStands(schedule: seq<Action>, id: nat, at: nat) returns (query: Query)
    requires at < |schedule| && KeysAt(schedule, id, at)
    ensures Stands(
              schedule, id, at,
              if schedule[at] == KeysReady(id, true) then Callback(query, SignedIn, Gone, [Succeeded], true, true)
              else Callback(query, Finished, Gone, [Failed], true, false),
              None)
  {
    var joined: nat :|
      JoinedAt(schedule, id, Tokens(UnknownKey), joined) && FirstAt(schedule, joined + 1, at, KeysOrHangUp(id));
    query := JoinedStands(schedule, id, Tokens(UnknownKey), joined);
    var c := Heard(query, Tokens(UnknownKey));
    StoodUntil(schedule, id, joined, at, c, None, KeysOrHangUp(id));
    KeysMove(At(schedule, at), schedule[at], id, query);
  }

  lemma {:induction false} HangUpMoves(s: State, id: nat, query: Query)
    requires id in s.callbacks && s.callbacks[id] == Sending(query)
    ensures id in Step(s, HangUp(id)).callbacks
    ensures View(Step(s, HangUp(id)), id) == (Callback(query, Finished, Gone, [Failed], true, false), None)
  {
    assert [] + [Failed] == [Failed];
  }

  lemma {:induction false} HungUpUnanswered(schedule: seq<Action>, id: nat, sent: nat, at: nat) returns (query: Query)
    requires SentAt(schedule, id, sent) && FirstAt(schedule, sent + 1, at, HangsUp(id))
    requires Quiet(schedule, sent + 1, at, Answers(id))
    ensures Stands(schedule, id, at, Callback(query, Finished, Gone, [Failed], true, false), None)
  {
    query := ClientStands(schedule, id, sent);
    QuietBoth(schedule, sent + 1, at, Answers(id), HangsUp(id));
    StoodUntil(schedule, id, sent, at, Sending(query), Some(Running), Either(Answers(id), HangsUp(id)));
    HangUpMoves(At(schedule, at), id, query);
  }

  lemma {:induction false} HungUpAnswered(
    schedule: seq<Action>, id: nat, sent: nat, answer: Answer, ended: nat, at: nat) returns (query: Query)
    requires EndedAt(schedule, id, sent, answer, ended) && FirstAt(schedule, sent + 1, at, HangsUp(id))
    requires ended < at && Quiet(schedule, ended + 1, at, Joins(id))
    ensures Stands(schedule, id, at, Callback(query, Finished, Gone, [Failed], true, false), None)
  {
    query := EndedStands(schedule, id, sent, answer, ended);
    QuietBoth(schedule, ended + 1, at, Joins(id), HangsUp(id));
    StoodUntil(schedule, id, ended, at, Sending(query), Some(Over(answer)), Either(Joins(id), HangsUp(id)));
    HangUpMoves(At(schedule, at), id, query);
  }

  lemma {:induction false} HungUpStands(schedule: seq<Action>, id: nat, at: nat) returns (query: Query)
    requires HungUpAt(schedule, id, at)
    ensures Stands(schedule, id, at, Callback(query, Finished, Gone, [Failed], true, false), None)
  {
    var sent: nat :|
      && SentAt(schedule, id, sent) && FirstAt(schedule, sent + 1, at, HangsUp(id))
      && Unheard(schedule, id, sent, at);
    if Quiet(schedule, sent + 1, at, Answers(id)) {
      query := HungUpUnanswered(schedule, id, sent, at);
    } else {
      var answer, ended: nat :|
        ended < at && EndedAt(schedule, id, sent, answer, ended) && Quiet(schedule, ended + 1, at, Joins(id));
      query := HungUpAnswered(schedule, id, sent, answer, ended, at);
    }
  }

  /** So what settles an attempt is what it is settled as, then and for good. */
  lemma {:induction false} SettledStands(schedule: seq<Action>, id: nat, outcome: Outcome, at: nat)
    requires SettledAt(schedule, id, outcome, at)
    ensures at < |schedule| && id in At(schedule, at + 1).callbacks
    ensures At(schedule, at + 1).callbacks[id].outcomes == [outcome]
  {
    match outcome
    case Succeeded => VerifiedStands(schedule, id, at);
    case Failed => RefusedStands(schedule, id, at);
    case Refunded => GivenBackStands(schedule, id, at);
  }

  lemma {:induction false} VerifiedStands(schedule: seq<Action>, id: nat, at: nat)
    requires VerifiedAt(schedule, id, at)
    ensures at < |schedule| && id in At(schedule, at + 1).callbacks
    ensures At(schedule, at + 1).callbacks[id].outcomes == [Succeeded]
  {
    if JoinedAt(schedule, id, Tokens(Verifies), at) {
      var query := JoinedStands(schedule, id, Tokens(Verifies), at);
    } else {
      var query := KeysStands(schedule, id, at);
    }
  }

  lemma {:induction false} RefusedStands(schedule: seq<Action>, id: nat, at: nat)
    requires RefusedAt(schedule, id, at)
    ensures at < |schedule| && id in At(schedule, at + 1).callbacks
    ensures At(schedule, at + 1).callbacks[id].outcomes == [Failed]
  {
    if query: Query, resumes, cookie :| query.error && CheckedAt(schedule, id, query, resumes, cookie, at) {
      CheckedStands(schedule, id, query, resumes, cookie, at);
    } else if answer :|
        answer != Tokens(Verifies) && answer != Tokens(UnknownKey) && JoinedAt(schedule, id, answer, at) {
      var query := JoinedStands(schedule, id, answer, at);
    } else if HungUpAt(schedule, id, at) {
      var query := HungUpStands(schedule, id, at);
    } else {
      var query := KeysStands(schedule, id, at);
    }
  }

  lemma {:induction false} GivenBackStands(schedule: seq<Action>, id: nat, at: nat)
    requires GivenBackAt(schedule, id, at)
    ensures at < |schedule| && id in At(schedule, at + 1).callbacks
    ensures At(schedule, at + 1).callbacks[id].outcomes == [Refunded]
  {
    if query: Query, resumes, cookie :|
        && !query.error && !Passes(query, resumes, cookie)
        && CheckedAt(schedule, id, query, resumes, cookie, at) {
      CheckedStands(schedule, id, query, resumes, cookie, at);
    } else {
      var query := ClientStands(schedule, id, at);
    }
  }
}
