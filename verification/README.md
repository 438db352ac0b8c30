# gapura-control, verified

A Dafny model of the hard reasoning in gapura's control plane, and of the pieces of `gapura-core`
it shares with the data plane. `dafny verify dfyconfig.toml` checks all of it.

**Concurrent protocols.** Each is a machine with a total step function; a step that is not enabled
changes nothing, so the runs of all schedules are all the interleavings, with a client free to
hang up at any step (`Schedules`).

- `LongPoll`: the held configuration poll against writers, notifications and a listening
  connection that can be lost. `LongPollAnswers` says which answer each poll gets, of the schedule,
  and `LongPollStore` what there is to tell.
- `CheckQueue`: the bounded queue in front of password hashing, with its overshooting counter.
  `CheckOutcomes` says what becomes of each caller.
- `Discovery`: the identity provider's metadata, kept, retried and force-refreshed under one lock.
  `DiscoveryAnswers` says what each request is told, of the discoveries before it.
- `Throttle`: the limits on failed sign-ins and on sign-ups, with attempts in flight reserved against
  the name at the address and every rule of the address. Its invariant is in `ThrottleLimits`, what
  follows for every run in `ThrottleRuns`, when locks hold in `ThrottleLocks`, what is written down in
  `ThrottleHistory`, how many attempts of a span are not given back in `ThrottleSpans`, runs that
  reach the limits in `ThrottleWitnesses`, runs that pass them in `ThrottleFailOpen`, sign-ups in
  `ThrottleSignUps`, sign-ins in `ThrottleSignIns`, and the size of the table in `ThrottleTable`.
- `Exchange`: the sign-in callback, its throttle attempt, and the places for code exchanges.
  `ExchangeHistory` says of a schedule what happened to a callback, without its state, and
  `ExchangeOutcomes` that this decides how its attempt is settled and whether its code is sent.

**Who may do what.** `Access` computes roles from rows. `AdminPages` is what a workspace admin is
shown, and `PageMeanings` what that says. `Grants` is every write to roles and group mappings, decided
and applied in one step, with its audit log; `GrantWrites` says how each is answered. `Accounts` is
every change to accounts; `AccountChanges` says when one is made. `Scope` is what a session's groups
may read.

**Normal forms, parsers and printers.** `Alphabets` writes out the characters. `Paths` is the data plane's path normaliser and matcher.
`RoutePaths` and `Routes` are the checks on a route. `Policies`, with `Json`, `PolicyFields`,
`ListPolicies`, `Transformers` and `CorsPolicies`, reads and writes policies of every kind. `Origin`
is the canonical form of a cors origin and how it is matched. `Duration` is the GEP-2257 format.
`Session` is signed tokens. `Consumers` is targets and request limits. `Hostnames` is which hosts a
route's hostnames stand for, alone and on a listener. `PathMeanings`, `RouteMeanings`,
`PolicyMeanings` and `LimitMeanings` say what a path, a route request, a policy and a limit mean, of
their own text or JSON and with every bound written out, and that each is read as exactly that;
`PolicyRefusals` says what is wrong with the field a refused policy is told of.

**A fast form against a simple one.** `RouteRows` has the routes screen's index against a scan, and
`Cookies` has cookies over split header fields against one joined field.

## Results that differ from the source's own words

- A path with a `%` and a sign, such as `/%+1`, passes the route checks, because the escape is read
  by a number parser that takes a sign. The data plane refuses every request for such a path, so the
  route can never match. `RoutePaths.ReachableIff` gives the exact condition: an accepted prefix or
  exact path can be matched if and only if it holds no `%+`.
- The hashing queue's doc comment says that a caller is told "busy" when as many as allowed already
  wait. A refused caller is counted until it backs out, so a caller can be told "busy" while nobody
  waits (`CheckQueue.BusyThoughNobodyWaits`). `CheckQueue.BusyIff` gives the exact condition.
- The pause after a failed discovery does not bound requests to the provider on its own: a request
  dropped while its discovery runs leaves no trace, so any number can begin at one instant
  (`Discovery.AbandonedDiscoveriesAreUnbounded`). `Discovery.DiscoveriesAreFew` gives the bound of
  everything else: forced discoveries, abandoned or not, and plain ones that were not abandoned.
- The sign-in policy fails open: met with a table full of counters still worth keeping, an attempt
  on a key that has none is let through uncounted. For every policy like it, whatever its limits and
  its size, every name at an address and every n, there is a run that passes the limit by n, and in
  which a success then clears the lock at once (`ThrottleFailOpen.UncountedAttemptsPassTheLimit`).
  What always holds: attempts reserved stay within the limit, and reserved attempts with counted
  failures pass it by no more than the failures of uncounted attempts
  (`ThrottleRuns.BurstsAreBounded`); a lock holds in every run on if and only if it is an address's or
  no attempt in flight touches its key (`ThrottleLocks.LocksHoldIff`). On a key that no attempt met
  uncounted, whatever happened on others, the limit and the lock hold outright
  (`ThrottleRuns.CountedBurstsAreBounded`, `ThrottleLocks.CountedLocksAreFirm`). The sign-up policy
  fails closed and counts everything.
- A limit per window is not a limit per span of that length. Where every attempt on an address is
  counted and a lock lasts a window, fewer than twice the limit's worth let through in such a span are
  not given back (`ThrottleSpans.LetThroughAreFew`). For a policy with one rule for an address, as the
  sign-in policy has, one less than that begin and fail within two instants
  (`ThrottleWitnesses.TwiceLessOneFits`). The sign-up policy has two rules, and each sign-up is held to
  both: nine begin and fail within two seconds (`ThrottleSignUps.NineFit`), and thirty-nine, the most a
  day allows, need the ten-minute rule to lapse between them and still fit in eighty minutes and a
  second (`ThrottleSignUps.ThirtyNineFit`).
- An account change keeps an enabled superuser only because the count is taken over locked rows: one
  too many in the count is enough to lose the last (`Accounts.OneTooManyLosesTheLast`).
- The routes screen and the overview attribute a listener to a Gateway by different tests. They
  agree unless the listener's id goes on after the Gateway's slash with another slash, or the
  Gateway's id is empty and the listener's has no slash (`RouteRows.AttributionAgreesIff`).
  Well-formed ids rule both out.
- A `cookie` field that cannot be read is skipped when fields are split, but had they been joined it
  would take every cookie with it. `Cookies.JoiningAgreesIff` gives the exact condition.

## What is taken as given

The snapshot compiler, the body hash, HMAC, base64url, JSON text, IP address notation, regular
expression compilation and Unicode lowercase are function parameters. Where a result needs
something of them it says so in a `requires`: the hash and the code are injective, base64url is
invertible with neither `.` nor NUL in its alphabet, an address printed is read back and has no
slash, JSON written is read back. Clocks are natural numbers that do not go back. Ids are natural
numbers. Sentences of refusals are left out; the field a refusal names is kept. A JSON object's
field names are the ones policies read, and every other one. A store write is one atomic step, as
its transaction and row locks make it.

## Model

| member | source | states |
|---|---|---|
| `LongPoll.StepKeepsInv` | crates/gapura-control/src/config_api.rs:163-296 | every step of a poll, a writer or the listening connection keeps that whatever was committed after the snapshot a poll read has moved the counter, or is undelivered, or the connection is yet to be announced |
| `LongPoll.AnswersAreOneSnapshot` | crates/gapura-control/src/config_api.rs:182-296 | in every interleaving, an answer is about one snapshot no older than the subscription: a 200 carries its body and tag, lacks nothing for the caller and differs from the tag sent; a 304 names the tag sent; a 409 names exactly what is missing; which of them, and when 503 or 500, is in `LongPollAnswers` |
| `LongPoll.NoNotificationIsSleptThrough` | crates/gapura-control/src/config_api.rs:182-250 | a held poll times out only if the counter stood still at every step since it subscribed; it is then told 304, and anything committed since is still on its way |
| `LongPoll.QuietMeansCurrent` | crates/gapura-control/src/store/mod.rs:580-660 | with the connection up, nothing undelivered and the counter as marked, what a held poll holds is the newest commit |
| `LongPoll.NotModifiedIffSameBody` | crates/gapura-control/src/config_api.rs:145-153 | with an injective hash, 304 exactly when the snapshot answered from compiles to the body the caller holds |
| `LongPoll.CounterStoodStill` | crates/gapura-control/src/config_api.rs:182-250 | a poll whose mark is still the counter saw it stand still over the whole run since |
| `LongPoll.ReplyHolds` | crates/gapura-core/src/features.rs:64-73 | the three answers, told apart by tag and by the features the caller lacks, are true of the snapshot |
| `LongPollAnswers.EveryPollIsTold` | crates/gapura-control/src/config_api.rs:182-296 | over every run, where each poll stands and what it was told is what the schedule says of it: when it subscribed, which reads it made of which commits, and what those owe it |
| `LongPollAnswers.AnswersComeFromReads` | crates/gapura-control/src/config_api.rs:182-296 | an answer is 503 if and only if a read failed or the re-read does not compile, 500 if and only if the first read does not compile, and otherwise true of the last snapshot read; only a poll that waited and had news reads twice |
| `LongPollAnswers.OneAnswerHolds` | crates/gapura-control/src/config_api.rs:145-153 | of the answers true of a snapshot, only one tells of the configuration, so the answer is determined |
| `LongPollAnswers.MovedCounterIsAnswered` | crates/gapura-control/src/config_api.rs:216-250 | after every run, a held poll whose counter moved is woken, reads again and is told of the newest commit, or that the store is unavailable if it cannot be read |
| `LongPollAnswers.NewsReachesHeldPolls` | crates/gapura-control/src/config_api.rs:216-250 | after every run, a held poll that lacks the newest commit is told of it once the connection is made and announced, a notification delivered and its own two steps taken |
| `LongPollAnswers.NewPollIsServed` | crates/gapura-control/src/config_api.rs:163-214 | after every run, a poll that arrives is answered from the newest commit, or held if it waits and has that already |
| `LongPollAnswers.AnswersAreFinal` | crates/gapura-control/src/config_api.rs:182-296 | in every run on, a poll that was answered or hung up stays as it is |
| `LongPollAnswers.HangingUpEnds` | crates/gapura-control/src/config_api.rs:216-250 | a poll that hangs up before it is answered is gone, and nothing else changes |
| `LongPollAnswers.RequestsAreAsSent` | crates/gapura-control/src/config_api.rs:163-214 | over every run, the request a poll is answered by is the one it first arrived with |
| `LongPollStore.StoreIsAsLeft` | crates/gapura-control/src/store/mod.rs:580-660 | after every run the log is the commits in order, and the connection is down unless it was made and not lost since, and up once that was announced |
| `LongPollStore.NotificationsAddUp` | crates/gapura-control/src/store/mod.rs:580-660 | after every run each notification sent was delivered, lost with the connection or is on its way, and the counter counts those delivered and the connections announced |
| `CheckQueue.StepKeepsInv` | crates/gapura-control/src/password.rs:97-121 | every step of arriving, counting, queueing, cancelling and finishing keeps permits conserved, the counter exact and the queue well formed |
| `CheckQueue.EveryRunIsBounded` | crates/gapura-control/src/password.rs:81-198 | in every run free and held permits add up, admitted waiters never pass the bound however far refused callers push the counter, and the counter counts exactly those inside |
| `CheckQueue.PermitTravelsWithTheWork` | crates/gapura-control/src/password.rs:129-198 | a permit is held until its work ends even if the caller went away |
| `CheckQueue.ServedInTurn` | crates/gapura-control/src/password.rs:97-121 | waiters get permits in the order they queued |
| `CheckQueue.BusyIff` | crates/gapura-control/src/password.rs:97-121 | a caller is refused exactly when those let in and those being refused fill the queue |
| `CheckQueue.BusyThoughNobodyWaits` | crates/gapura-control/src/password.rs:97-121 | a run in which a caller is refused while nobody waits |
| `CheckOutcomes.PlaceIff` | crates/gapura-control/src/password.rs:97-121 | a caller runs at once, and one let in goes ahead, if and only if fewer permits are held than there are; else it counts itself, or joins the end of the queue |
| `CheckOutcomes.EndingHandsOn` | crates/gapura-control/src/password.rs:129-198 | work that ends gives its permit to whoever waits longest, and frees it only if nobody waits |
| `CheckOutcomes.HandedOnWorks` | crates/gapura-control/src/password.rs:97-121 | whoever is handed a permit is uncounted and at work two steps on, and nobody else is touched |
| `CheckOutcomes.HangingUpLeaves` | crates/gapura-control/src/password.rs:106-121 | a waiter who hangs up is out of the queue, which keeps its order, hands on any permit it was given, and is uncounted at its next step |
| `CheckOutcomes.RefusedIsUncounted` | crates/gapura-control/src/password.rs:102-105 | a caller being refused is uncounted at its next step |
| `CheckOutcomes.OnlyHangingUpEnds` | crates/gapura-control/src/password.rs:106-121 | over every run, nobody is taken to have hung up who did not |
| `CheckOutcomes.EndsAreFinal` | crates/gapura-control/src/password.rs:97-198 | over every run, a caller that is refused, gone or done stays so |
| `Discovery.StepKeepsInv` | crates/gapura-control/src/login.rs:246-308 | every step, a dropped request included, keeps the log of discoveries spaced and apart |
| `Discovery.DiscoveriesAreSpaced` | crates/gapura-control/src/login.rs:246-308 | over every run discoveries never overlap, forced ones begin at least 30 s apart, and others begin at least 5 s after a failure and not before a success ran out |
| `Discovery.UntilNeverDecreases` | crates/gapura-control/src/login.rs:285-308 | a client once kept is only replaced by one that lasts at least as long |
| `Discovery.ClientsAreFresh` | crates/gapura-control/src/login.rs:246-283 | a request is handed only a discovered client within its time, or one newer than the one it replaces |
| `Discovery.DiscoveriesAreFew` | crates/gapura-control/src/login.rs:168-308 | over every run, of the discoveries begun in any window of length w, running or over, the forced ones, abandoned included, are at most w/30 s + 1, the plain ones not abandoned at most w/5 s + 1, and all together at most the sum of both and the plain ones abandoned |
| `Discovery.AbandonedDiscoveriesAreUnbounded` | crates/gapura-control/src/login.rs:285-308 | for every n a run that begins n discoveries at one instant, each abandoned |
| `DiscoveryAnswers.EveryRequestIsTold` | crates/gapura-control/src/login.rs:246-283 | over every run, a request that gets the lock is handed the last client found if and only if it is within its 300 s or newer than the one to replace, told unreachable if and only if it is a plain one, none serves and the last discovery that ended failed less than 5 s ago, told too soon if and only if it asks for another, none is newer and the last forced one began less than 30 s ago, and else discovers |
| `DiscoveryAnswers.EveryDiscoveryIsTold` | crates/gapura-control/src/login.rs:285-308 | a discovery that ends is logged, and its request is handed the client found if and only if it succeeded and told unreachable if and only if it failed |
| `DiscoveryAnswers.AnswersAreFinal` | crates/gapura-control/src/login.rs:246-308 | over every run an answer once given never changes |
| `DiscoveryAnswers.ClockShowsElapsed` | crates/gapura-control/src/login.rs:246-283 | after every run the clock the answers are decided by shows all the time that passed |
| `ThrottleLimits.StepKeepsInv` | crates/gapura-control/src/throttle.rs:329-460 | every reservation, settlement and lapse of time, full tables under either policy included, keeps each counter's pending exactly the attempts in flight on it, failures and pending within the limit but for failures of uncounted attempts, and an address's failures sorted into windows |
| `ThrottleRuns.LockedExactlyAtTheLimit` | crates/gapura-control/src/throttle.rs:164-170 | after every run a key carries a lock, run out or not, exactly when its counted failures reach the limit, and an address is locked now exactly while the failure of its window that set the lock is younger than the lock is long |
| `ThrottleRuns.BurstsAreBounded` | crates/gapura-control/src/throttle.rs:18-20 | over every run, attempts reserved on a key never pass its limit, and with the failures counted there they pass it at most by the failures of attempts let through uncounted |
| `ThrottleRuns.CountedBurstsAreBounded` | crates/gapura-control/src/throttle.rs:18-20 | on a key that no attempt met uncounted, attempts in flight and failures together never pass the limit, whatever went uncounted on other keys |
| `ThrottleRuns.ClosedCountsEverything` | crates/gapura-control/src/throttle.rs:103-116 | a policy that fails closed counts every attempt it lets through |
| `ThrottleRuns.RoomCountsEverything` | crates/gapura-control/src/throttle.rs:118-120 | while there is room for its keys, an attempt is counted under either policy |
| `ThrottleRuns.KnownKeysAreCounted` | crates/gapura-control/src/throttle.rs:433-460 | however full the table, an attempt on a key with a counter still worth keeping is counted |
| `ThrottleRuns.FailuresAreFew` | crates/gapura-control/src/throttle.rs:14-20 | over every run, at most twice the limit's worth of reserved attempts from an address fail in any span no longer than its window |
| `ThrottleRuns.CountedFailuresAreFewer` | crates/gapura-control/src/throttle.rs:14-20 | on an address that no attempt met uncounted, with a lock that lasts a window, fewer than twice the limit's worth fail in any such span |
| `ThrottleSpans.LetThroughAreFew` | crates/gapura-control/src/throttle.rs:18-31 | on an address that no attempt met uncounted, with a lock that lasts a window, fewer than twice the limit's worth of the attempts let through in a span no longer than the window fail, are dropped as failures or stay in flight, whenever that is |
| `ThrottleHistory.EveryKeyHasItsRule` | crates/gapura-control/src/throttle.rs:89-95 | in every run each key counted, in flight or logged has a rule, so the rule asked for is always there |
| `ThrottleHistory.DroppedCountsIff` | crates/gapura-control/src/throttle.rs:271-279 | an attempt dropped unsettled counts against each key it is reserved on exactly if the policy takes it as a failure |
| `ThrottleHistory.RulesCountAlike` | crates/gapura-control/src/throttle.rs:342-348 | under a policy that fails closed, every rule of an address counts the same attempts at the same times |
| `ThrottleSignUps.SignUpsAreFew` | crates/gapura-control/src/throttle.rs:63-116 | whatever is sent, of the sign-ups let through from an address in any ten minutes at most nine are not given back, and in any day at most thirty-nine; both rules count the same ones |
| `ThrottleSignUps.NineFit` | crates/gapura-control/src/throttle.rs:63-68 | a run in which nine sign-ups begin and fail within two seconds |
| `ThrottleSignUps.ThirtyNineFit` | crates/gapura-control/src/throttle.rs:70-75 | a run in which, beside the ten-minute rule, thirty-nine begin and fail within eighty minutes and a second |
| `ThrottleLocks.LocksHold` | crates/gapura-control/src/throttle.rs:164-198 | in every run on from a firm lock, until it runs out, the lock is unchanged and no attempt held to the key is let through |
| `ThrottleLocks.LocksHoldIff` | crates/gapura-control/src/throttle.rs:382-421 | a lock holds in every run on if and only if it is an address's or no attempt in flight touches its key |
| `ThrottleLocks.CountedLocksAreFirm` | crates/gapura-control/src/throttle.rs:8-31 | every lock of a key that no attempt met uncounted is firm, with nothing in flight on it |
| `ThrottleFailOpen.UncountedAttemptsPassTheLimit` | crates/gapura-control/src/throttle.rs:349-374 | for every policy that fails open with a rule for a name at an address and one for the address, every name and every n, a run in which the name passes its limit by n and a success clears its lock |
| `ThrottleFailOpen.SignInsPassTheLimit` | crates/gapura-control/src/throttle.rs:97-120 | the shipped sign-in policy has such a run for every name, address and n |
| `ThrottleWitnesses.TwiceLessOneFits` | crates/gapura-control/src/throttle.rs:172-198 | for every policy with one rule for an address, a run in which twice the limit's worth of attempts but one begin and fail within two instants |
| `ThrottleTable.FullIff` | crates/gapura-control/src/throttle.rs:433-460 | a key has no counter and gets none if and only if the counters that still say something fill the table |
| `ThrottleTable.TableIsBounded` | crates/gapura-control/src/throttle.rs:118-120 | over every run there are never more counters than the table holds, 100,000 as shipped |
| `ThrottleSignIns.SignInsAreFew` | crates/gapura-control/src/throttle.rs:49-59 | over every run, at most 5 sign-ins for a name at an address and 10 from an address are in flight; where none went uncounted, that holds with their failures, and at most 19 let through from an address in a minute are not given back; the locks come at 5 and at 10 |
| `ThrottleSignIns.LetThroughIff` | crates/gapura-control/src/throttle.rs:329-374 | over every run, a sign-in is let through if and only if neither its name at the address nor the address is locked or full: 5 in 15 minutes, 10 in one |
| `Exchange.StepKeepsInv` | crates/gapura-control/src/login.rs:1310-1587 | every step of a callback, its exchange task and the provider keeps places and attempts accounted for |
| `Exchange.AttemptsAreSettledOnce` | crates/gapura-control/src/login.rs:1310-1540 | over every run an attempt is settled exactly once: succeeded only with verified claims, given back only if no code was sent and the provider reported no error, otherwise failed; `ExchangeOutcomes.SettledIff` says when each |
| `ExchangeHistory.SettledStands` | crates/gapura-control/src/login.rs:1310-1590 | whatever in a schedule settles an attempt, told without the machine's state, is what it is settled as at that step, with no other outcome |
| `ExchangeOutcomes.EveryCallbackIsTraced` | crates/gapura-control/src/login.rs:1310-1590 | over every run, where a callback stands and how its attempt was settled is told by its own steps, its query, the provider's answer and the free places |
| `ExchangeOutcomes.SettledIff` | crates/gapura-control/src/login.rs:1310-1590 | over every run and for each outcome, an attempt is settled so if and only if what happened settles it so: success only by a token for a code sent that verifies, under the keys at hand or fresh ones, with the client there to hear of it; failure by a provider's error, a refused code, a token that does not verify, or hanging up once the code was sent; given back where no code was sent |
| `ExchangeOutcomes.SentIff` | crates/gapura-control/src/login.rs:1341-1500 | over every run, a code is sent if and only if the attempt was allowed, the query has a code, a state and no error, the state resumes and its cookie passes, and a client and a place were there before anyone hung up |
| `Exchange.PlacesAddUp` | crates/gapura-control/src/login.rs:1489-1540 | free places and running exchanges always add up to eight |
| `Exchange.PlacesAreHeldUntilAnswered` | crates/gapura-control/src/login.rs:1489-1540 | an exchange keeps its place until the provider answered, whatever became of its request |
| `Access.ComputeEffective` | crates/gapura-control/src/access.rs:148-180 | pushing, sorting and removing repeats computes the effective role and sources |
| `Access.EffectiveMeans` | crates/gapura-control/src/access.rs:148-180 | a role is held exactly by an enabled account with a grant, is the highest any grant gives, and its sources are exactly the grants, strictly rising |
| `Access.RoleMeans` | crates/gapura-control/src/access.rs:148-180 | an enabled account is an admin if any grant makes it one, else an editor if any does, else a viewer if any does |
| `Access.SourcesComeInOrder` | crates/gapura-control/src/access.rs:148-180 | sources are listed superuser first, then direct, then groups by name, of one group the lower role first |
| `Access.EffectiveDependsOnGrants` | crates/gapura-control/src/access.rs:148-180 | the role and the sources depend only on the set of grants to that account in that workspace |
| `Access.MoreGrantsNeverLess` | crates/gapura-control/src/access.rs:1-7 | nothing subtracts: more grants never lower a role |
| `Access.AdminMeans` | crates/gapura-control/src/access.rs:182-193 | who administers a workspace, spelled out over the rows |
| `Access.AccessInHolds` | crates/gapura-control/src/access.rs:207-215 | access listed within a set is exactly the roles held in it |
| `AdminPages.ShowUsers` | crates/gapura-control/src/access_api.rs:272-313 | the loop that hands out notes and the sort compute the users page |
| `AdminPages.ShowRoles` | crates/gapura-control/src/access_api.rs:352-398 | the counting loop and the mappings compute the roles page |
| `AdminPages.PagesDependOnlyOnOwnWorkspaces` | crates/gapura-control/src/access_api.rs:258-398 | row sets with the same accounts, workspaces and grantable set, and the same grants inside it, show the caller identical pages |
| `AdminPages.SuperuserSeesWhoWaits` | crates/gapura-control/src/access_api.rs:287-298 | to an enabled superuser an account shows as waiting exactly when it is |
| `AdminPages.WaitingIsNeverHidden` | crates/gapura-control/src/access.rs:195-205 | to anyone, an account that waits shows as waiting |
| `AdminPages.SeenIsListed` | crates/gapura-control/src/access_api.rs:326-397 | every account a mapping counts as seen is listed on the users page with that group as a source in that workspace |
| `AdminPages.UsersPageListsEveryone` | crates/gapura-control/src/access_api.rs:310-313 | the page is a permutation of the accounts' views, waiting ones first, then by name |
| `PageMeanings.EveryViewShows` | crates/gapura-control/src/access_api.rs:272-313 | each account is shown in its place with its own fields, its note once, the workspaces it holds a role in within the caller's, in order, and its status: disabled if and only if it is, waiting if and only if it is enabled, no superuser and holds no role there |
| `PageMeanings.CountsMean` | crates/gapura-control/src/access_api.rs:352-372 | each count of the roles page is the number of enabled accounts, superusers apart, that hold the role in some workspace of the caller's, and of enabled superusers |
| `PageMeanings.EveryMappingShows` | crates/gapura-control/src/access_api.rs:373-397 | the mappings shown are those on known workspaces of the caller's, each with its workspace's name, its role and the number of enabled accounts in its group |
| `PageMeanings.RolesPageListsEveryMapping` | crates/gapura-control/src/access_api.rs:373-398 | the page is a permutation of them, by workspace and then by group |
| `Grants.ChangesOverride` | crates/gapura-control/src/grants.rs:119-129 | applied, the changes give what was held overridden by what was wanted |
| `Grants.ChangesAreMinimal` | crates/gapura-control/src/grants.rs:94-129 | there is a change exactly for each workspace whose role changes, with its before and after |
| `Grants.ChangesComeInOrder` | crates/gapura-control/src/grants.rs:119-129 | changes come in strictly rising workspace order |
| `Grants.RepeatingIsEmpty` | crates/gapura-control/src/grants.rs:119-129 | the same request made again changes nothing |
| `Grants.AllRowsDecide` | crates/gapura-control/src/grants.rs:82-92 | authorising over every row agrees with who may grant by the store |
| `Grants.RightsDecideAlike` | crates/gapura-control/src/store/grants.rs:176-304 | authorising over only the rows a caller's rights rest on gives the same answer, unknown workspaces included |
| `Grants.StepChangesRoles` | crates/gapura-control/src/store/grants.rs:357-444 | a direct role changes only by a request from an enabled admin of that workspace, to what was wanted |
| `Grants.RolesChangeOnlyByAdmins` | crates/gapura-control/src/store/grants.rs:357-444 | over every run, a changed role was asked for at some step by someone who was enabled and admin there at that moment; mappings likewise, in `GrantWrites` |
| `GrantWrites.StepChangesMappings` | crates/gapura-control/src/store/grants.rs:446-540 | a group mapping changes only by a request for it from an enabled admin of its workspace, to what was wanted |
| `GrantWrites.MappingsChangeOnlyByAdmins` | crates/gapura-control/src/store/grants.rs:446-540 | over every run, a changed mapping was asked for at some step by someone who was enabled and admin there at that moment |
| `GrantWrites.MappingAnswers` | crates/gapura-control/src/store/grants.rs:446-540 | a request for a mapping is forbidden if and only if its caller may not grant there, not found if and only if there is nothing to remove, a conflict if and only if no admin but superusers would be left and none asks; otherwise it is made, that alone, with one row naming its caller and the role before |
| `GrantWrites.RolesAnswers` | crates/gapura-control/src/store/grants.rs:357-444 | a request for roles is forbidden if and only if its caller is not enabled or may not grant in every workspace named, not found if and only if there is no such account, a conflict if and only if a workspace named would be left without an admin and no superuser asks; otherwise it is made, that alone, with a row for each role that changes |
| `GrantWrites.EveryRowIsTrue` | crates/gapura-control/src/store/grants.rs:328-540 | over every run, each row written is true of some step: whom it names asked then and might, and the role was as it says before that step and after it |
| `GrantWrites.AccountsAreAsLastChanged` | crates/gapura-control/src/store/grants.rs:176-304 | over every run, requests leave accounts alone and are decided by them as they last were |
| `Grants.LogStaysComplete` | crates/gapura-control/src/store/grants.rs:328-444 | over every run, the audit log played back over the first roles and mappings gives the current ones |
| `Grants.OrdinaryStepKeepsAdmins` | crates/gapura-control/src/store/grants.rs:121-169 | a write by someone other than a superuser leaves every workspace that had an admin with one |
| `Grants.OrdinaryRunsKeepAdmins` | crates/gapura-control/src/store/grants.rs:121-169 | no run of such writes takes a workspace's last admin away |
| `Accounts.StepKeepsOne` | crates/gapura-control/src/accounts.rs:104-175 | a change that passes the guard with a count not above the true one leaves an enabled superuser, whoever asks |
| `Accounts.ASuperuserRemains` | crates/gapura-control/src/accounts.rs:104-175 | so does every run of them, from any callers, stale records included |
| `Accounts.OneTooManyLosesTheLast` | crates/gapura-control/src/store/accounts.rs:82-131 | whenever one enabled superuser is left, a count too high by one lets a change disable them |
| `AccountChanges.MadeIff` | crates/gapura-control/src/accounts.rs:104-175 | a change is made if and only if an enabled superuser asks it of an account there is, a reset or deletion of a local one, and what takes an account away of someone else and of an enabled superuser only with two counted; then exactly what was asked changes, of that account alone |
| `AccountChanges.RefusalMeans` | crates/gapura-control/src/accounts.rs:135-175 | each refusal is given exactly when what it says is so |
| `AccountChanges.OnlyOthersTakeAway` | crates/gapura-control/src/accounts.rs:104-175 | over every run, whoever was an enabled superuser and no longer is was made so by another one, never by their own request |
| `AccountChanges.OnlySuperusersRaise` | crates/gapura-control/src/accounts.rs:104-175 | over every run, whoever became one was raised by an enabled superuser or created as one |
| `Scope.ComputeVisible` | crates/gapura-control/src/scope.rs:30-41 | the loops with their early return answer all namespaces if some held group is granted `*`, and otherwise the union of grants |
| `Scope.MeaningIsUnique` | crates/gapura-control/src/scope.rs:30-41 | that answer is unique |
| `Scope.OnlyTheSetMatters` | crates/gapura-control/src/scope.rs:30-41 | the answer depends only on which mapped groups are held |
| `Scope.MappedGroupsHold` | crates/gapura-control/src/login.rs:1103-1111 | the groups kept are exactly the mapped ones held, strictly rising |
| `Scope.MappedGroupsAreEnough` | crates/gapura-control/src/login.rs:1100-1111 | the reduced groups of a session see exactly what all the groups do |
| `Alphabets.CharactersMean` | crates/gapura-control/src/configuration.rs:684-691 | letters, digits and the characters of a header name are the ones written out |
| `Alphabets.CasesMean` | crates/gapura-control/src/configuration.rs:832-895 | lowercasing and uppercasing change letters alone, each to the one at its place in the alphabet |
| `Alphabets.BlanksMean` | crates/gapura-control/src/consumers.rs:170-176 | what trimming takes away is Unicode's White_Space |
| `Paths.UppercaseEscapes` | crates/gapura-core/src/store.rs:441-457 | the in-place loop uppercases each character that is a digit of an escape, and leaves every other as it is |
| `Paths.NormalizePath` | crates/gapura-core/src/path.rs:24-76 | the two loops compute the normalised path or the refusal, which `PathMeanings.NormalisedMeans` says of the text |
| `Paths.NormalisedIsNormal` | crates/gapura-core/src/path.rs:5-76 | every normalised path is a fixed point of the normaliser: clean escapes, no empty and no dot segments |
| `PathMeanings.EscapeIsRead` | crates/gapura-core/src/path.rs:41-46 | for every byte, its escape in hexadecimal digits of either case is read as that byte |
| `PathMeanings.DecodeMeans` | crates/gapura-core/src/path.rs:39-58 | a text spelled in characters and escapes is decoded to its meaning: escapes of letters, digits and `- . _ ~` as the character, all others in uppercase |
| `PathMeanings.DecodedIsSpelled` | crates/gapura-core/src/path.rs:39-58 | only such texts are decoded |
| `PathMeanings.EscapedAlike` | crates/gapura-core/src/path.rs:14-18 | wherever it stands, a character that needs no escape and its escape are normalised alike |
| `PathMeanings.MergeMeans` | crates/gapura-core/src/path.rs:61-67 | merging keeps exactly the characters that are not a slash after a slash, in order |
| `PathMeanings.DotsMean` | crates/gapura-core/src/path.rs:68-81 | a path is refused for dots exactly if a segment is `.` or `..`, with or without parameters |
| `PathMeanings.NormalisedMeans` | crates/gapura-core/src/path.rs:5-76 | what a request's path is matched as, or when it is refused, said of the characters and escapes it is spelled with |
| `PathMeanings.MatchesMeans` | crates/gapura-core/src/matcher.rs:167-178 | a prefix matches exactly the paths whose first segments are its own, and the root every path; an exact path matches itself |
| `RoutePaths.PlainPath` | crates/gapura-control/src/configuration.rs:612-682 | the escape loop and the popping loop accept and store exactly the plain paths |
| `RoutePaths.StoredIsNormalForm` | crates/gapura-control/src/configuration.rs:612-682 | a stored path is accepted again and stored as it is, and a stored prefix is `/` or has no trailing slash |
| `RoutePaths.MatchedAsWritten` | crates/gapura-control/src/configuration.rs:641-681 | a request for the path as written normalises to one the stored path matches |
| `RoutePaths.StoredIsNormalIff` | crates/gapura-control/src/configuration.rs:641-681 | a stored path is left alone by the data plane's normaliser if and only if it was written without `%+` |
| `RoutePaths.ReachableIff` | crates/gapura-control/src/configuration.rs:641-681 | some request can match an accepted path if and only if it was written without `%+` |
| `RoutePaths.SignedEscapeIsAccepted` | crates/gapura-control/src/configuration.rs:655-672 | `/%+1` is accepted and no request matches it |
| `Routes.CollectEntries` | crates/gapura-control/src/configuration.rs:831-905 | the loop over a list computes its entries' results, each once, or the first refusal |
| `Routes.CollectHolds` | crates/gapura-control/src/configuration.rs:819-905 | an accepted list has no repeats and holds exactly what its entries are checked to |
| `Routes.CollectRefuses` | crates/gapura-control/src/configuration.rs:831-905 | a list is refused with an error if and only if its first refused entry gives that error |
| `Routes.CheckedHeaders` | crates/gapura-control/src/configuration.rs:697-757 | the headers loop computes the checked headers or the refusal |
| `Routes.HeadersHold` | crates/gapura-control/src/configuration.rs:693-757 | accepted headers are the given ones in order, lowercase, no name twice, none reserved |
| `Routes.AcceptedIsNormal` | crates/gapura-control/src/configuration.rs:819-929 | every accepted route is in normal form: no repeats, stored paths, at most 1024 combinations, no stripped regex |
| `Routes.NormalIsKept` | crates/gapura-control/src/configuration.rs:819-929 | every route in normal form, sent back, is accepted as it is |
| `Routes.RouteIsIdempotent` | crates/gapura-control/src/configuration.rs:819-929 | an accepted route fed back through the checks is the same route |
| `Routes.AcceptedPathsAreReachable` | crates/gapura-control/src/configuration.rs:641-681 | each prefix or exact path of an accepted route can be matched, by a request for itself, if and only if it holds no `%+` |
| `RouteMeanings.RouteIsRead` | crates/gapura-control/src/configuration.rs:819-929 | a request is accepted as a route if and only if it says that route: names, hosts, paths and methods each once in order of first mention, headers, at most 1024 combinations, no stripped regex, no stripping and no headers where they are left out |
| `RouteMeanings.RefusalNamesAFault` | crates/gapura-control/src/configuration.rs:819-929 | every refusal names a field or an entry that is at fault |
| `RouteMeanings.CollectIff` | crates/gapura-control/src/configuration.rs:831-905 | a list is kept as what its entries mean, each once, in the order they first come up, and only so |
| `RouteMeanings.DomainIff` | crates/gapura-control/src/configuration.rs:430-443 | a host name is labels of 1 to 63 letters, digits and inner hyphens between dots, 253 characters at most, the last beginning with a letter |
| `RouteMeanings.PlainIff` | crates/gapura-control/src/configuration.rs:612-672 | a plain path is an absolute one in visible characters without `? # ;`, empty or dot segments, in which every `%` begins an escape that is needed, or a plus and a digit |
| `ListPolicies.CidrReadsBack` | crates/gapura-core/src/client_ip.rs:16-46 | a network printed is read back |
| `Transformers.SomeEditsReadBack` | crates/gapura-control/src/policies.rs:651-767 | the edits of a section, written and read again, are the same edits |
| `Transformers.AcceptedEditsAreOk` | crates/gapura-control/src/policies.rs:651-767 | no accepted edit names a refused header in any of the five lists, header names are lowercase tokens, and no header value could end its line |
| `Transformers.AcceptedTransformerIsOk` | crates/gapura-control/src/policies.rs:281-297 | an accepted request transformer makes 1 to 64 edits, each allowed |
| `ListPolicies.AcceptedNetworksFit` | crates/gapura-control/src/policies.rs:133-171 | an accepted ip restriction lists 1 to 1000 networks, each prefix within its address; `PolicyMeanings.IpRestrictionIsRead` says which |
| `ListPolicies.AcceptedGroupsAreAsSent` | crates/gapura-control/src/policies.rs:184-208 | an accepted acl is the lists sent, not both empty, of valid group names |
| `CorsPolicies.AcceptedCorsIsOk` | crates/gapura-control/src/policies.rs:385-469 | an accepted cors policy lists canonical origins, `*` only alone and without credentials, and known methods |
| `CorsPolicies.CorsIsReadBack` | crates/gapura-control/src/policies.rs:385-469 | a cors policy shown by its fields is read back |
| `Policies.ShownIsReadBack` | crates/gapura-control/src/policies.rs:110-259 | a JSON object that shows an accepted policy's fields is read as that policy, for every kind |
| `Policies.StoredPolicyReadsBack` | crates/gapura-control/src/policies.rs:110-122 | for every kind and every JSON value, if it is read as p then what is stored for p is read as p |
| `Policies.StoredUnderItsName` | crates/gapura-control/src/policies.rs:110-122 | a policy is written under the name of the kind it was read as, and read back under it |
| `Policies.ParsedIsOfItsKind` | crates/gapura-control/src/policies.rs:110-122 | a policy read under a kind is of that kind, and no transformer touches what frames a message |
| `Policies.ConfigHolds` | crates/gapura-control/src/policies.rs:799-806 | the stored row holds every field that is not left out, and not the kind |
| `PolicyMeanings.CidrMeans` | crates/gapura-core/src/client_ip.rs:16-46 | a text is read as a network if and only if it is an address alone, for all its bits, or an address, the first slash and a number no greater than its width |
| `PolicyMeanings.IpRestrictionIsRead` | crates/gapura-control/src/policies.rs:133-171 | an ip restriction is read if and only if its lists, together of 1 to 1000 texts, are place by place the networks the texts mean |
| `PolicyMeanings.AclIsRead` | crates/gapura-control/src/policies.rs:184-208 | an acl is read if and only if its lists are those sent, not both empty, at most 100 names each of 1 to 64 allowed characters |
| `PolicyMeanings.AuthIsRead` | crates/gapura-control/src/policies.rs:210-234 | an auth policy names nobody where nothing or only blanks are said, and else a consumer by a valid name |
| `PolicyMeanings.RequestSizeLimitIsRead` | crates/gapura-control/src/policies.rs:236-259 | a size limit is read if and only if it is a whole number from 1 to 1 GiB |
| `PolicyMeanings.SectionIsRead` | crates/gapura-control/src/policies.rs:651-767 | a section of edits is read if and only if its five lists are place by place the names and values sent, header names lowercased |
| `PolicyMeanings.CorsIsRead` | crates/gapura-control/src/policies.rs:385-469 | a cors policy is read if and only if each of its seven fields says it |
| `PolicyMeanings.ParsedAsMeant` | crates/gapura-control/src/policies.rs:110-122 | for every kind and every JSON value, it is accepted as a policy if and only if it says that policy, every bound and every list of names written out |
| `PolicyRefusals.RefusalNamesAFault` | crates/gapura-control/src/policies.rs:110-469 | for every kind and every JSON value, a refusal names a field, or a list of a section, that is at fault |
| `Origin.SpellingsAreCanonical` | crates/gapura-control/src/policies.rs:475-541 | every spelling of an origin, in any case, with default ports and leading zeros, is accepted as its canonical form |
| `Origin.CanonicalIsSpelled` | crates/gapura-control/src/policies.rs:475-541 | nothing else is accepted |
| `Origin.CanonicalIsFixed` | crates/gapura-control/src/policies.rs:475-541 | the canonical form is a fixed point |
| `Origin.SameFormIffSameOrigin` | crates/gapura-control/src/policies.rs:475-541 | two accepted entries other than `*` get one form exactly when scheme, host and effective port agree |
| `Origin.ValidMeans` | crates/gapura-control/src/policies.rs:475-541 | an entry's name is at most 253 characters, its labels 1 to 63 lowercase letters, digits and hyphens, two or more below a wildcard, and its port 1 to 65535 |
| `Origin.SerialisedMeans` | crates/gapura-control/src/policies.rs:475-541 | the form stored, spelled out: the port is left out exactly where it is 80 with http or 443 with https |
| `Origin.EntryAdmitsWhatItMeans` | crates/gapura-core/src/config.rs:711-727 | a stored entry matches exactly the origins it means, one label for a wildcard |
| `Origin.EntryMatchesText` | crates/gapura-core/src/config.rs:711-727 | whatever text is sent as an origin, a stored entry matches it exactly if it is the entry's scheme, host or one label below it, and port |
| `Origin.WildcardMeans` | crates/gapura-core/src/config.rs:711-727 | a wildcard matches exactly the texts with one label, not empty, before its name |
| `Origin.PolicyAllowsWhatItMeans` | crates/gapura-core/src/config.rs:707-737 | a policy written in any spelling answers any origin text: never `null`, `*` if that is listed, and otherwise the text itself exactly when one of its entries means it |
| `Origin.BrowsersAreAnswered` | crates/gapura-core/src/config.rs:707-737 | of well-formed origins those are the ones whose scheme, host and effective port an entry covers |
| `Duration.ParseMillis` | crates/gapura-core/src/duration.rs:23-58 | accepts exactly the GEP-2257 texts, gives the sum, at most 1,439,985,600,000, so no checked operation fails |
| `Duration.SpellingIsUnique` | crates/gapura-core/src/duration.rs:39-49 | a text is spelled in one way at most, despite `m` and `ms` |
| `Duration.JoinedTextsAddUp` | crates/gapura-core/src/duration.rs:23-58 | durations add up as texts are joined, up to four components |
| `Duration.LongestDuration` | crates/gapura-core/src/duration.rs:50-55 | the bound is reached |
| `Duration.UnitsConvert` | crates/gapura-core/src/duration.rs:39-49 | n hours are 60n minutes, n minutes 60n seconds and n seconds 1000n milliseconds |
| `Session.SessionReadsBack` | crates/gapura-control/src/session.rs:51-65 | a session round-trips until it expires and not after |
| `Session.SealedOpens` | crates/gapura-control/src/session.rs:93-109 | a sealed value round-trips for its purpose |
| `Session.MessagesHaveShapes` | crates/gapura-control/src/session.rs:51-115 | no two kinds of call sign the same message |
| `Session.SessionsWereEncoded` | crates/gapura-control/src/session.rs:58-91 | over every run of calls under one key, a token decodes as a session only if that session was encoded |
| `Session.OpenedWereSealed` | crates/gapura-control/src/session.rs:93-109 | a token opens for a purpose only if a value that reads as its own was sealed for that purpose |
| `Session.DerivedAreDistinct` | crates/gapura-control/src/session.rs:111-115 | derived secrets differ exactly where purpose or input do |
| `Session.ResumedAsBegun` | crates/gapura-control/src/login.rs:439-474 | any replica resumes a sign-in as it was begun until it expires, with the verifier and the nonce derived from its own random value |
| `Session.SecretsAreTheirOwn` | crates/gapura-control/src/login.rs:468-475 | two sign-ins share a verifier, and a nonce, exactly if they share the random value, and no verifier is a nonce |
| `Session.ResumedWasBegun` | crates/gapura-control/src/login.rs:455-466 | a state resumes only if such a sign-in was begun and has not expired |
| `Session.CheckState` | crates/gapura-control/src/login.rs:476-495 | the loop over every byte tells exactly whether two states are equal |
| `Cookies.Cookie` | crates/gapura-control/src/api.rs:271-287 | stepping the iterator twice gives the only match |
| `Cookies.SplittingChangesNothing` | crates/gapura-control/src/api.rs:272-282 | however cookies are split over fields, those found are those of the one field the readable ones would be joined into |
| `Cookies.JoiningAgreesIff` | crates/gapura-control/src/api.rs:269-287 | split and joined fields give the same answer if and only if every field is readable or the split ones give none |
| `Cookies.CookieMeans` | crates/gapura-control/src/api.rs:269-287 | a value is given exactly when one piece of all the fields is `name=value` and no other has that name |
| `RouteRows.BuildIndex` | crates/gapura-control/src/rows.rs:88-108 | the nested loops build the index that the lookups below are proved about |
| `RouteRows.IndexServesAsScanned` | crates/gapura-control/src/rows.rs:75-131 | a lookup answers what a scan of every rule of every listener would |
| `RouteRows.GatewayOfIff` | crates/gapura-control/src/rows.rs:82-92 | which Gateway an id belongs to, as a prefix and a rest without a slash |
| `RouteRows.AttributionAgreesIff` | crates/gapura-control/src/api.rs:537-545 | for all ids, exactly when the screen's and the overview's tests agree on a listener |
| `RouteRows.ScreenAgreesWithOverview` | crates/gapura-control/src/api.rs:537-545 | for well-formed ids, a Gateway serves a route on the screen exactly when the overview shows a listener of it carrying the route |
| `RouteRows.RowsAreTheRoutes` | crates/gapura-control/src/rows.rs:133-138 | the rows are the declared routes, a permutation sorted by id, equal ids in their order |
| `RouteRows.StateMeans` | crates/gapura-control/src/rows.rs:149-174 | what each attachment's state says about acceptance, references and the served listeners, and that its reason is that of the references exactly where these are what is wrong |
| `RouteRows.UnreachableOnlyBlurs` | crates/gapura-control/src/rows.rs:132-202 | an unreachable gateway changes rows only in served or missing becoming unknown, and a mixed row becomes unknown exactly when all its attachments were served or missing |
| `RouteRows.SummaryMeans` | crates/gapura-control/src/rows.rs:59-73 | a row's state is that of every attachment, or mixed |
| `Consumers.TargetReadsBack` | crates/gapura-control/src/consumers.rs:112-134 | reading and writing a target undo each other in both directions |
| `Consumers.HeaderIsFixed` | crates/gapura-control/src/consumers.rs:170-193 | an accepted header name is read again as itself |
| `Consumers.ByTextReadsBack` | crates/gapura-control/src/consumers.rs:520-547 | what a limit counts by is read back from its text |
| `Consumers.LimitReadsBack` | crates/gapura-control/src/consumers.rs:481-515 | every limit accepted from any JSON values is recovered from the JSON row written for it |
| `Consumers.EveryStoredLimitCouldBeSent` | crates/gapura-control/src/consumers.rs:490-586 | whatever JSON value a row holds, a limit it is read as is one some request would be accepted with, and what that request stores reads as it |
| `Consumers.RowIsAsWrittenIff` | crates/gapura-control/src/consumers.rs:470-492 | a row read as a limit is the very one written for it if and only if it is an object that does not spell the address out and names the consumer alone |
| `LimitMeanings.HeaderIsRead` | crates/gapura-control/src/consumers.rs:170-193 | a header name is accepted if and only if it is 1 to 64 token characters between blanks, or blank for `x-api-key`, and none accepted is reserved |
| `LimitMeanings.LimitIsRead` | crates/gapura-control/src/consumers.rs:520-586 | a limit is accepted if and only if its number is 1 to 1,000,000, its unit is named and what it counts by is said |
| `LimitMeanings.StoredIsRead` | crates/gapura-control/src/consumers.rs:481-515 | a row is read as a limit if and only if it holds it, as an object or as an array |
| `Hostnames.OverlapIff` | crates/gapura-control/src/configuration.rs:759-769 | two hosts of routes overlap if and only if some request host is matched by both |
| `Hostnames.Intersect` | crates/gapura-core/src/hostname.rs:31-54 | the loop, sort and removal of repeats compute the intersection the next rows explain |
| `Hostnames.IntersectionMeans` | crates/gapura-core/src/hostname.rs:26-54 | a route's effective hostnames on a listener match exactly the hosts that the listener and the route both match |
| `Hostnames.SomethingIsLeft` | crates/gapura-core/src/hostname.rs:26-54 | an attachment is rejected only where no host is matched by both |

## Left out

- HTTP handlers, pages, tracing and authentication of data planes: plumbing around what is modelled.
- Recording a data plane's call during a poll, and the headers of answers: nothing in the protocol reads them.
- The watch counter and the hashing counter are unbounded here; the originals are 64-bit.
- Classes: the machines' state is a value and each step a function of it, because a step of one task interleaves with steps of others; update in place by a single task is not shown.
- `parse_role_changes` and the other readers of request bodies in `grants.rs`: single-function case analysis.
- Deleting accounts and workspaces, which also removes roles: `Grants` covers requests that change roles and anything else that happens to accounts.
- Consumers.HeaderIsFixed: holds for any list of reserved names, so the list itself is not written out.
- How long a refused attempt is told to wait, and IPv6 addresses counted by their /64: in `Throttle` a name is its digest and an address the one it is counted under, and only whether an attempt must wait is told. In `Exchange` an attempt is a token with three outcomes.
- `audited` and `newly_reserved` in `policies.rs`: the first hides values by field and the second is one search of a list.
- `may_claim_wildcard`, `may_route_any_host`, `own_limits` in `configuration.rs`, and services, upstreams and timeouts there.
- The regular expressions of routes beyond whether they compile and are spelled in uppercase.
- `temporary_password`: a random loop.
- `only_visible` in `api.rs`, `named_features` and `wait` in `config_api.rs`: one filter and two bounded readers.
- The translator, the proxy and the rest of the data plane; the web console; the chart.
