/** When a change to an account is made, what it changes, and who can have locked out whom. */
module AccountChanges {
  import opened Access
  import opened Accounts
  import opened Schedules
  import opened Wrappers

  /** Disabling, deleting, and taking the superuser away. */
  predicate TakesAway(change: Change) {
    change in [Disable, Delete, SetSuperuser(false)]
  }

  /** An enabled superuser asks it of an account there is: a password is reset, or an account deleted,
      only if it is a local one, and what takes an account away is asked of someone else, and of an
      enabled superuser only while two are counted. */
  predicate IsAllowed(users: Users, a: Action)
    requires a.Ask?
  {
    && a.caller.superuser && !a.caller.disabled && a.target in users
    && var target := users[a.target];
       && (a.change.Reset? || a.change.Delete? ==> target.local)
       && (TakesAway(a.change) ==>
             a.caller.id != target.id && (target.superuser && !target.disabled ==> a.count >= 2))
  }

  /** Nobody else's account is touched, and of the target's own only what was asked for. */
  ghost predicate IsMade(users: Users, a: Action, after: Users)
    requires a.Ask? && a.target in users
  {
    && (forall id :: id != a.target ==> (id in after <==> id in users) && (id in users ==> after[id] == users[id]))
    && (a.target in after <==> !a.change.Delete?)
    && (a.target in after ==>
          var u, v := users[a.target], after[a.target];
          && v.id == u.id && v.name == u.name && v.local == u.local && v.groups == u.groups
          && v.lastSignIn == u.lastSignIn
          && (v.mustChangePassword <==> u.mustChangePassword || a.change.Reset?)
          && (v.disabled <==> a.change.Disable? || (u.disabled && !a.change.Enable?))
          && (v.superuser <==> a.change == SetSuperuser(true) || (u.superuser && a.change != SetSuperuser(false))))
  }

  /** A change is made if and only if it is allowed, and then it is what was asked for. */
  lemma {:induction false} MadeIff(users: Users, a: Action)
    requires a.Ask?
    ensures if IsAllowed(users, a) then IsMade(users, a, Step(users, a)) else Step(users, a) == users
  {
    assert Passes(users, a) <==> IsAllowed(users, a);
  }

  /** What a refusal says is so, and a change that is not allowed is refused. */
  lemma {:induction false} RefusalMeans(caller: User, target: User, change: Change, count: nat)
    ensures
      var refusal := Guard(caller, target, change, count);
      var another := caller.id != target.id;
      var last := target.superuser && !target.disabled && count < 2;
      && (refusal == Some(NoPassword) <==> change.Reset? && !target.local)
      && (refusal == Some(WouldBeBack) <==> change.Delete? && !target.local)
      && (refusal == Some(Yourself) <==> TakesAway(change) && !another && (change.Delete? ==> target.local))
      && (refusal == Some(LastSuperuser) <==>
            TakesAway(change) && another && last && (change.Delete? ==> target.local))
  {
  }

  // Over runs.

  ghost predicate UnderTheirIds(users: Users) {
    forall id :: id in users ==> users[id].id == id
  }

  predicate IsOne(users: Users, id: nat) {
    id in users && users[id].superuser && !users[id].disabled
  }

  /** Another enabled superuser, with two counted, took `id` away. */
  predicate TakenAway(a: Action, id: nat) {
    && a.Ask? && a.target == id && TakesAway(a.change)
    && a.caller.superuser && !a.caller.disabled && a.caller.id != id && a.count >= 2
  }

  /** An enabled superuser made `id` one or enabled it, or it was made as one. */
  predicate Raised(a: Action, id: nat) {
    || (&& a.Ask? && a.target == id && (a.change == SetSuperuser(true) || a.change.Enable?)
        && a.caller.superuser && !a.caller.disabled)
    || (a.Create? && a.user.id == id && a.user.superuser && !a.user.disabled)
  }

  lemma {:induction false} StepKeepsIds(users: Users, a: Action)
    requires UnderTheirIds(users)
    ensures UnderTheirIds(Step(users, a))
  {
    if a.Ask? {
      MadeIff(users, a);
    }
  }

  lemma {:induction false} StepTakesAway(users: Users, a: Action, id: nat)
    requires UnderTheirIds(users) && IsOne(users, id) && !IsOne(Step(users, a), id)
    ensures TakenAway(a, id)
  {
    if a.Ask? {
      MadeIff(users, a);
    }
  }

  lemma {:induction false} StepRaises(users: Users, a: Action, id: nat)
    requires UnderTheirIds(users) && !IsOne(users, id) && IsOne(Step(users, a), id)
    ensures Raised(a, id)
  {
    if a.Ask? {
      MadeIff(users, a);
    }
  }

  lemma {:induction false} RunKeepsIds(users: Users, schedule: seq<Action>)
    requires UnderTheirIds(users)
    ensures UnderTheirIds(Run(NEXT, users, schedule))
  {
    forall t, a | UnderTheirIds(t) ensures UnderTheirIds(NEXT(t, a)) {
      StepKeepsIds(t, a);
    }
    RunKeeps(NEXT, t => UnderTheirIds(t), users, schedule);
  }

  /** Over every run, whoever was an enabled superuser and no longer is was made so by another one, never
      by their own request. */
  lemma {:induction false} OnlyOthersTakeAway(users: Users, schedule: seq<Action>, id: nat)
    requires UnderTheirIds(users) && IsOne(users, id) && !IsOne(Run(NEXT, users, schedule), id)
    ensures exists i :: 0 <= i < |schedule| && TakenAway(schedule[i], id)
  {
    var last := |schedule| - 1;
    var front := schedule[..last];
    if IsOne(Run(NEXT, users, front), id) {
      RunKeepsIds(users, front);
      StepTakesAway(Run(NEXT, users, front), schedule[last], id);
    } else {
      OnlyOthersTakeAway(users, front, id);
      var i :| 0 <= i < |front| && TakenAway(front[i], id);
      assert TakenAway(schedule[i], id);
    }
  }

  /** And whoever is one and was not was raised by an enabled superuser, or made as one. */
  lemma {:induction false} OnlySuperusersRaise(users: Users, schedule: seq<Action>, id: nat)
    requires UnderTheirIds(users) && !IsOne(users, id) && IsOne(Run(NEXT, users, schedule), id)
    ensures exists i :: 0 <= i < |schedule| && Raised(schedule[i], id)
  {
    var last := |schedule| - 1;
    var front := schedule[..last];
    if !IsOne(Run(NEXT, users, front), id) {
      RunKeepsIds(users, front);
      StepRaises(Run(NEXT, users, front), schedule[last], id);
    } else {
      OnlySuperusersRaise(users, front, id);
      var i :| 0 <= i < |front| && Raised(front[i], id);
      assert Raised(schedule[i], id);
    }
  }
}
