/** Changes a superuser makes to accounts, and the superuser that every run of them leaves. */
module Accounts {
  import opened Access
  import opened Counting
  import opened Schedules
  import opened Wrappers

  datatype Change = Reset | Disable | Enable | SetSuperuser(superuser: bool) | Delete

  datatype Refusal = NoPassword | WouldBeBack | Yourself | LastSuperuser

  predicate LocksOut(change: Change) {
    change.Disable? || change.Delete? || change == SetSuperuser(false)
  }

  /** Whether `caller` may make `change` to `target`, told how many enabled superusers there are. */
  function Guard(caller: User, target: User, change: Change, enabledSuperusers: nat): Option<Refusal> {
    if change.Reset? && !target.local then Some(NoPassword)
    else if change.Delete? && !target.local then Some(WouldBeBack)
    else if LocksOut(change) && caller.id == target.id then Some(Yourself)
    else if LocksOut(change) && target.superuser && !target.disabled && enabledSuperusers <= 1 then Some(LastSuperuser)
    else None
  }

  predicate MayAdminister(caller: User) {
    caller.superuser && !caller.disabled
  }

  /** Accounts by id. */
  type Users = map<nat, User>

  predicate IsEnabledSuperuser(u: User) {
    u.superuser && !u.disabled
  }

  const COUNTED: User -> bool := u => IsEnabledSuperuser(u)

  function EnabledSuperusers(users: Users): nat {
    Count(users, COUNTED)
  }

  function Make(users: Users, target: nat, change: Change): Users
    requires target in users
  {
    var u := users[target];
    match change
    case Reset => users[target := u.(mustChangePassword := true)]
    case Disable => users[target := u.(disabled := true)]
    case Enable => users[target := u.(disabled := false)]
    case SetSuperuser(superuser) => users[target := u.(superuser := superuser)]
    case Delete => users - {target}
  }

  datatype Action =
    | /** A change asked for by `caller`, as their record was when it was read, and decided with
          `count` taken for the number of enabled superusers. */
      Ask(caller: User, target: nat, change: Change, count: nat)
    | /** An account made, by sign-up, by a sign-in or by a superuser, under an id not in use. */
      Create(user: User)
    | /** A sign-in brings an account's groups and time of sign-in. */
      SignIn(id: nat, groups: seq<string>, at: int)

  predicate Passes(users: Users, a: Action)
    requires a.Ask?
  {
    && MayAdminister(a.caller)
    && a.target in users
    && Guard(a.caller, users[a.target], a.change, a.count).None?
  }

  function Step(users: Users, a: Action): Users {
    match a
    case Ask(_, target, change, _) => if Passes(users, a) then Make(users, target, change) else users
    case Create(user) => if user.id in users then users else users[user.id := user]
    case SignIn(id, groups, at) =>
      if id !in users || users[id].disabled then users
      else users[id := users[id].(groups := groups, lastSignIn := Some(at))]
  }

  const NEXT: (Users, Action) -> Users := (s, a) => Step(s, a)

  /** The count a request is decided with is no more than there are. */
  predicate CountIsTrue(users: Users, a: Action) {
    a.Ask? ==> a.count <= EnabledSuperusers(users)
  }

  lemma {:induction false} ChangeKeepsOne(users: Users, target: nat, change: Change)
    requires target in users && EnabledSuperusers(users) >= 1
    requires LocksOut(change) && IsEnabledSuperuser(users[target]) ==> EnabledSuperusers(users) >= 2
    ensures EnabledSuperusers(Make(users, target, change)) >= 1
  {
    CountRemove(users, COUNTED, target);
    if !change.Delete? {
      var u := Make(users, target, change)[target];
      CountUpdate(users, COUNTED, target, u);
      assert Make(users, target, change) == users[target := u];
    }
  }

  /** Whoever asks, and however old the record of them is, a change that passes with a count that
      is not too high leaves an enabled superuser. */
  lemma {:induction false} StepKeepsOne(users: Users, a: Action)
    requires EnabledSuperusers(users) >= 1 && CountIsTrue(users, a)
    ensures EnabledSuperusers(Step(users, a)) >= 1
  {
    match a
    case Ask(_, target, change, _) =>
      if Passes(users, a) {
        ChangeKeepsOne(users, target, change);
      }
    case Create(user) =>
      if user.id !in users {
        CountUpdate(users, COUNTED, user.id, user);
      }
    case SignIn(id, groups, at) =>
      if id in users && !users[id].disabled {
        CountUpdate(users, COUNTED, id, users[id].(groups := groups, lastSignIn := Some(at)));
      }
  }

  /** Every request of the run is decided with a count that is not too high when it is decided. */
  predicate CountsAreTrue(users: Users, schedule: seq<Action>) {
    forall i :: 0 <= i < |schedule| ==> CountIsTrue(Run(NEXT, users, schedule[..i]), schedule[i])
  }

  lemma {:induction false} ASuperuserRemains(users: Users, schedule: seq<Action>)
    requires EnabledSuperusers(users) >= 1 && CountsAreTrue(users, schedule)
    ensures EnabledSuperusers(Run(NEXT, users, schedule)) >= 1
  {
    if schedule != [] {
      var last := |schedule| - 1;
      var front := schedule[..last];
      forall i | 0 <= i < last ensures CountIsTrue(Run(NEXT, users, front[..i]), front[i]) {
        assert front[..i] == schedule[..i];
      }
      ASuperuserRemains(users, front);
      StepKeepsOne(Run(NEXT, users, front), schedule[last]);
    }
  }

  /** A count that is too high by one is enough to lose the last of them: whenever there is just
      one, someone whose record still calls them a superuser can disable them. */
  lemma {:induction false} OneTooManyLosesTheLast(users: Users, caller: User, target: nat)
    requires EnabledSuperusers(users) == 1 && target in users && IsEnabledSuperuser(users[target])
    requires MayAdminister(caller) && caller.id != users[target].id
    ensures EnabledSuperusers(Step(users, Ask(caller, target, Disable, 2))) == 0
  {
    CountUpdate(users, COUNTED, target, users[target].(disabled := true));
  }
}
