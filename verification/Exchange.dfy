/**
  The callback of a sign-in at the identity provider: a throttle attempt reserved when it arrives
  and settled by what comes of it, and a code exchanged in a task of its own, under one of a fixed
  number of places.

  A callback is suspended in four places: waiting for the discovered client, for the provider's
  answer, for fresh signing keys, and, once its claims are verified, for the store. Its client may
  hang up at any of them, which drops what the callback holds. The task that sends the code runs
  on to the provider's answer either way, and holds its place until then.
*/
module Exchange {
  import opened Counting
  import opened Schedules

  const MAX_EXCHANGES: nat := 8

  /** How an attempt is settled with the throttle. */
  datatype Outcome = Succeeded | Failed | Refunded

  /** What the provider put in the query string. */
  datatype Query = Query(error: bool, code: bool, state: bool)

  /** What the ID token in the provider's answer amounts to under the keys at hand. */
  datatype Token = Verifies | UnknownKey | DoesNotVerify

  /** How an exchange ended: with tokens, with the provider's refusal, or by failing itself. */
  datatype Answer = Tokens(token: Token) | RefusedCode | Crashed

  datatype Task = Running | Over(answer: Answer)

  /** Who would settle the attempt if dropped now: nobody, the callback itself, which gives it back
      (the sign-in policy), or `Sent`, which counts it as failed unless it was taken out. */
  datatype Attempt = NotBegun | Owned | InSent(present: bool) | Gone

  datatype Phase =
    | Arrived
    | Begun
    | AwaitsClient
    | AwaitsAnswer
    | AwaitsKeys
    | SignedIn
    | Finished

  /** `sent` and `verified` say what has happened; nothing decides by them. */
  datatype Callback = Callback(
    query: Query, phase: Phase, attempt: Attempt, outcomes: seq<Outcome>, sent: bool, verified: bool)

  datatype State = State(free: nat, tasks: map<nat, Task>, callbacks: map<nat, Callback>)

  datatype Action =
    | Arrive(id: nat, query: Query)
    | Begin(id: nat, allowed: bool)
    | /** Whether the state resumes a sign-in, and whether its cookie is the browser's; a cookie is not
          asked for where the console's own origin cannot keep one. */
      Check(id: nat, resumes: bool, cookie: bool)
    | ClientReady(id: nat, found: bool, tokenUri: bool)
    | ProviderAnswers(id: nat, answer: Answer)
    | Join(id: nat)
    | KeysReady(id: nat, verifies: bool)
    | Complete(id: nat)
    | HangUp(id: nat)

  const INIT: State := State(MAX_EXCHANGES, map[], map[])

  // What becomes of the attempt.

  function FailNow(c: Callback): Callback
    requires c.attempt.Owned?
  {
    c.(attempt := Gone, outcomes := c.outcomes + [Failed])
  }

  /** The callback's own variables go out of scope: an attempt still owned is given back, and a
      `Sent` still holding one counts it as failed. */
  function DropAll(c: Callback): Callback {
    match c.attempt
    case Owned => c.(attempt := Gone, outcomes := c.outcomes + [Refunded])
    case InSent(present) => DropSent(c)
    case _ => c
  }

  function DropSent(c: Callback): Callback
    requires c.attempt.InSent?
  {
    c.(attempt := Gone, outcomes := if c.attempt.present then c.outcomes + [Failed] else c.outcomes)
  }

  /** `Sent::settle`: takes the attempt out, settles it, and is then dropped itself. */
  function Settle(c: Callback, succeeded: bool): Callback
    requires c.attempt.InSent?
  {
    var taken :=
      if c.attempt.present
      then c.(attempt := InSent(false), outcomes := c.outcomes + [if succeeded then Succeeded else Failed])
      else c;
    DropSent(taken)
  }

  function Ends(c: Callback): Callback {
    DropAll(c).(phase := Finished)
  }

  /** The steps that touch nothing but the callback itself. */
  function Alone(c: Callback, a: Action): Callback {
    match (a, c.phase)
    case (Begin(_, allowed), Arrived) =>
      if allowed then c.(phase := Begun, attempt := Owned) else c.(phase := Finished)
    case (Check(_, resumes, cookie), Begun) =>
      if !c.attempt.Owned? then c
      else if c.query.error then FailNow(c).(phase := Finished)
      else if !c.query.code || !c.query.state then Ends(c)
      else if !resumes || !cookie then Ends(c)
      else c.(phase := AwaitsClient)
    case (KeysReady(_, verifies), AwaitsKeys) =>
      if !c.attempt.InSent? then c
      else if verifies then Settle(c, true).(phase := SignedIn, verified := true)
      else Settle(c, false).(phase := Finished)
    case (Complete(_), SignedIn) => Ends(c)
    case (HangUp(_), AwaitsClient) => Ends(c)
    case (HangUp(_), AwaitsAnswer) => Ends(c)
    case (HangUp(_), AwaitsKeys) => Ends(c)
    case (HangUp(_), SignedIn) => Ends(c)
    case _ => c
  }

  /** What the callback does with an exchange's answer. */
  function Joined(c: Callback, answer: Answer): Callback
    requires c.attempt.InSent?
  {
    if answer == Tokens(Verifies) then Settle(c, true).(phase := SignedIn, verified := true)
    else if answer == Tokens(UnknownKey) then c.(phase := AwaitsKeys)
    else Settle(c, false).(phase := Finished)
  }

  function Step(s: State, a: Action): State {
    if a.Arrive? then
      if a.id in s.callbacks || a.id in s.tasks then s
      else s.(callbacks := s.callbacks[a.id := Callback(a.query, Arrived, NotBegun, [], false, false)])
    else if a.id !in s.callbacks then s
    else
      var c := s.callbacks[a.id];
      match a
      case ClientReady(id, found, tokenUri) =>
        if !c.phase.AwaitsClient? then s
        else if !found || !tokenUri || s.free == 0 then s.(callbacks := s.callbacks[id := Ends(c)])
        else
          State(
            s.free - 1,
            s.tasks[id := Running],
            s.callbacks[id := c.(phase := AwaitsAnswer, attempt := InSent(true), sent := true)])
      case ProviderAnswers(id, answer) =>
        if id in s.tasks && s.tasks[id].Running?
        then s.(free := s.free + 1, tasks := s.tasks[id := Over(answer)])
        else s
      case Join(id) =>
        if c.phase.AwaitsAnswer? && c.attempt.InSent? && id in s.tasks && s.tasks[id].Over?
        then s.(callbacks := s.callbacks[id := Joined(c, s.tasks[id].answer)])
        else s
      case _ => s.(callbacks := s.callbacks[a.id := Alone(c, a)])
  }

  const NEXT: (State, Action) -> State := (s, a) => Step(s, a)

  /** What the attempt of a callback must come to, from what happened to it. */
  function Deserved(c: Callback): Outcome {
    if c.verified then Succeeded
    else if c.sent || c.query.error then Failed
    else Refunded
  }

  ghost predicate CallbackOk(c: Callback) {
    && (c.verified ==> c.sent)
    && (c.sent ==> !c.query.error)
    && match c.phase
       case Arrived => c.attempt.NotBegun? && c.outcomes == [] && !c.sent
       case Begun => c.attempt.Owned? && c.outcomes == [] && !c.sent
       case AwaitsClient => c.attempt.Owned? && c.outcomes == [] && !c.sent && !c.query.error
       case AwaitsAnswer => c.attempt == InSent(true) && c.outcomes == [] && c.sent && !c.verified
       case AwaitsKeys => c.attempt == InSent(true) && c.outcomes == [] && c.sent && !c.verified
       case SignedIn => c.attempt.Gone? && c.outcomes == [Succeeded] && c.verified
       case Finished =>
         || (c.attempt.NotBegun? && c.outcomes == [] && !c.sent)
         || (c.attempt.Gone? && c.outcomes == [Deserved(c)])
  }

  predicate IsRunning(t: Task) {
    t.Running?
  }

  ghost predicate Inv(s: State) {
    && s.free + Count(s.tasks, IsRunning) == 8
    && (forall id :: id in s.callbacks ==> CallbackOk(s.callbacks[id]))
    && (forall id :: id in s.tasks ==> id in s.callbacks && s.callbacks[id].sent)
  }

  lemma {:induction false} AloneKeeps(c: Callback, a: Action)
    requires CallbackOk(c)
    ensures CallbackOk(Alone(c, a)) && Alone(c, a).sent == c.sent
  {
  }

  lemma {:induction false} JoinedKeeps(c: Callback, answer: Answer)
    requires CallbackOk(c) && c.phase.AwaitsAnswer?
    ensures CallbackOk(Joined(c, answer)) && Joined(c, answer).sent
  {
  }

  lemma {:induction false} EndsKeeps(c: Callback)
    requires CallbackOk(c) && c.phase.AwaitsClient?
    ensures CallbackOk(Ends(c)) && !Ends(c).sent
  {
  }

  /** A callback replaced by one that is as it should be. */
  lemma {:induction false} ReplacedKeeps(s: State, id: nat, c: Callback)
    requires Inv(s) && id in s.callbacks && CallbackOk(c) && (s.callbacks[id].sent ==> c.sent)
    ensures Inv(s.(callbacks := s.callbacks[id := c]))
  {
  }

  lemma {:induction false} ClientKeeps(s: State, id: nat, found: bool, tokenUri: bool)
    requires Inv(s) && id in s.callbacks && s.callbacks[id].phase.AwaitsClient?
    ensures Inv(Step(s, ClientReady(id, found, tokenUri)))
  {
    var c := s.callbacks[id];
    EndsKeeps(c);
    ReplacedKeeps(s, id, Ends(c));
    ReplacedKeeps(s, id, c.(phase := AwaitsAnswer, attempt := InSent(true), sent := true));
    CountUpdate(s.tasks, IsRunning, id, Running);
  }

  lemma {:induction false} StepKeepsInv(s: State, a: Action)
    requires Inv(s)
    ensures Inv(Step(s, a))
  {
    if !a.Arrive? && a.id in s.callbacks {
      var c := s.callbacks[a.id];
      match a
      case ClientReady(id, found, tokenUri) =>
        if c.phase.AwaitsClient? {
          ClientKeeps(s, id, found, tokenUri);
        }
      case ProviderAnswers(id, answer) =>
        CountUpdate(s.tasks, IsRunning, id, Over(answer));
      case Join(id) =>
        if c.phase.AwaitsAnswer? && id in s.tasks && s.tasks[id].Over? {
          JoinedKeeps(c, s.tasks[id].answer);
          ReplacedKeeps(s, id, Joined(c, s.tasks[id].answer));
        }
      case _ =>
        AloneKeeps(c, a);
        ReplacedKeeps(s, a.id, Alone(c, a));
    }
  }

  lemma {:induction false} RunKeepsInv(schedule: seq<Action>)
    ensures Inv(Run(NEXT, INIT, schedule))
  {
    forall t, a | Inv(t)
      ensures Inv(NEXT(t, a))
    {
      StepKeepsInv(t, a);
    }
    RunKeeps(NEXT, t => Inv(t), INIT, schedule);
  }

  /** Settled once if over, and not before; and as what happened deserves. */
  ghost predicate SettledOnce(c: Callback) {
    && |c.outcomes| <= 1
    && (c.phase.Finished? && !c.attempt.NotBegun? ==> |c.outcomes| == 1)
    && (c.attempt.Owned? || c.attempt.InSent? ==> c.outcomes == [])
    && (Succeeded in c.outcomes <==> c.verified)
    && (Refunded in c.outcomes ==> !c.sent && !c.query.error)
    && (Failed in c.outcomes ==> (c.sent || c.query.error) && !c.verified)
    && (c.verified ==> c.sent)
  }

  lemma {:induction false} OkIsSettledOnce(c: Callback)
    requires CallbackOk(c)
    ensures SettledOnce(c)
  {
  }

  /** In every run, cut short anywhere or not: an attempt is settled exactly once by the time its
      callback is over, and not while the callback or `Sent` still holds it; succeeded exactly when
      its claims verified, given back only when no code was sent and the provider reported no
      error, and failed otherwise. */
  lemma {:induction false} AttemptsAreSettledOnce(schedule: seq<Action>, id: nat)
    requires id in Run(NEXT, INIT, schedule).callbacks
    ensures SettledOnce(Run(NEXT, INIT, schedule).callbacks[id])
  {
    RunKeepsInv(schedule);
    OkIsSettledOnce(Run(NEXT, INIT, schedule).callbacks[id]);
  }

  /** Free places and exchanges still with the provider always add up to eight, so no more
      codes than that are ever with it at once. */
  lemma {:induction false} PlacesAddUp(schedule: seq<Action>)
    ensures
      var s := Run(NEXT, INIT, schedule);
      s.free + Count(s.tasks, IsRunning) == MAX_EXCHANGES
  {
    RunKeepsInv(schedule);
  }

  lemma {:induction false} TaskStep(s: State, a: Action, id: nat)
    requires Inv(s) && id in s.tasks && s.tasks[id].Running? && (a.ProviderAnswers? ==> a.id != id)
    ensures id in Step(s, a).tasks && Step(s, a).tasks[id].Running?
  {
  }

  /** An exchange holds its place until the provider has answered, whatever became of its request. */
  lemma {:induction false} PlacesAreHeldUntilAnswered(before: seq<Action>, after: seq<Action>, id: nat)
    requires
      var s := Run(NEXT, INIT, before);
      id in s.tasks && s.tasks[id].Running?
    requires forall i :: 0 <= i < |after| && after[i].ProviderAnswers? ==> after[i].id != id
    ensures
      var t := Run(NEXT, INIT, before + after);
      id in t.tasks && t.tasks[id].Running? && t.free < MAX_EXCHANGES
  {
    RunKeepsInv(before + after);
    if after == [] {
      assert before + after == before;
    } else {
      var last := after[|after| - 1];
      var rest := after[..|after| - 1];
      assert before + after == before + rest + [last];
      PlacesAreHeldUntilAnswered(before, rest, id);
      RunKeepsInv(before + rest);
      RunOne(NEXT, INIT, before + rest, last);
      TaskStep(Run(NEXT, INIT, before + rest), last, id);
    }
    CountSome(Run(NEXT, INIT, before + after).tasks, IsRunning, id);
  }
}
