/**
  What each request for a role or a mapping is answered and what exactly it changes, and that every
  row of the audit log is true: it names who asked, what there was before and what there was after.
*/
module GrantWrites {
  import opened Access
  import opened Grants
  import opened Schedules
  import opened Wrappers

  // Mappings.

  /** `a` is a request to change what `group` is mapped to in `workspace`, from someone who may. */
  predicate AllowedMapping(s: Store, a: Action, workspace: nat, group: string) {
    a.Mapping? && a.workspace == workspace && a.group == group && MayGrant(s, a.caller, workspace)
  }

  /** A mapping changes only by an allowed request for it, and then to what was asked for. */
  lemma {:induction false} StepChangesMappings(s: Store, a: Action, workspace: nat, group: string)
    ensures
      var before, after := Get(MappedIn(s, workspace), group), Get(MappedIn(Step(s, a), workspace), group);
      before != after ==> AllowedMapping(s, a, workspace, group) && a.after == after
  {
  }

  ghost predicate AllowedMappingAt(s: Store, schedule: seq<Action>, i: nat, workspace: nat, group: string)
    requires i < |schedule|
  {
    AllowedMapping(Run(NEXT, s, schedule[..i]), schedule[i], workspace, group)
  }

  /** If a run changes what a group is mapped to, then at some step of it a caller who was enabled and
      admin of that workspace at that moment asked for the change. */
  lemma {:induction false} MappingsChangeOnlyByAdmins(
    s: Store, schedule: seq<Action>, workspace: nat, group: string)
    requires Get(MappedIn(s, workspace), group) != Get(MappedIn(Run(NEXT, s, schedule), workspace), group)
    ensures exists i :: 0 <= i < |schedule| && AllowedMappingAt(s, schedule, i, workspace, group)
  {
    if schedule != [] {
      var last := |schedule| - 1;
      var front := schedule[..last];
      var before := Run(NEXT, s, front);
      if Get(MappedIn(s, workspace), group) != Get(MappedIn(before, workspace), group) {
        MappingsChangeOnlyByAdmins(s, front, workspace, group);
        var i :| 0 <= i < |front| && AllowedMappingAt(s, front, i, workspace, group);
        assert front[..i] == schedule[..i];
        assert AllowedMappingAt(s, schedule, i, workspace, group);
      } else {
        StepChangesMappings(before, schedule[last], workspace, group);
        assert AllowedMappingAt(s, schedule, last, workspace, group);
      }
    }
  }

  /** Some enabled account other than a superuser would be admin of `workspace` if `group` were mapped
      to `after` there. */
  ghost predicate AdminWithMapping(s: Store, workspace: nat, group: string, after: Option<Role>) {
    exists id :: id in s.users && IsAdminWithMapping(s, id, workspace, group, after)
  }

  ghost predicate IsAdminWithMapping(s: Store, id: nat, workspace: nat, group: string, after: Option<Role>)
    requires id in s.users
  {
    var u := s.users[id];
    && !u.disabled && !u.superuser
    && (|| Get(DirectOf(s, id), workspace) == Some(Admin)
        || (group in u.groups && after == Some(Admin))
        || exists g :: g in u.groups && g != group && Get(MappedIn(s, workspace), g) == Some(Admin))
  }

  /** `t` is `s` with one mapping changed and the change written down. */
  ghost predicate HasMapped(
    s: Store, t: Store, caller: nat, workspace: nat, group: string, after: Option<Role>)
  {
    var before := Get(MappedIn(s, workspace), group);
    && t.users == s.users && t.workspaces == s.workspaces && t.direct == s.direct
    && (forall w, g ::
          Get(MappedIn(t, w), g) == if w == workspace && g == group then after else Get(MappedIn(s, w), g))
    && t.audit == s.audit + [MappingEntry(caller, group, workspace, Change(before, after))]
  }

  lemma {:induction false} AdminsAfterMapping(
    s: Store, t: Store, caller: nat, workspace: nat, group: string, after: Option<Role>)
    requires HasMapped(s, t, caller, workspace, group, after)
    ensures AnAdminIsLeft(t, workspace) <==> AdminWithMapping(s, workspace, group, after)
  {
    forall id | id in s.users
      ensures (!s.users[id].disabled && !s.users[id].superuser && AdminByGrant(t, id, s.users[id].groups, workspace))
              <==> IsAdminWithMapping(s, id, workspace, group, after)
    {
      var groups := s.users[id].groups;
      if g :| g in groups && Get(MappedIn(t, workspace), g) == Some(Admin) {
        assert g != group ==> Get(MappedIn(s, workspace), g) == Some(Admin);
      }
      if g :| g in groups && g != group && Get(MappedIn(s, workspace), g) == Some(Admin) {
        assert Get(MappedIn(t, workspace), g) == Some(Admin);
      }
      assert group in groups ==> Get(MappedIn(t, workspace), group) == after;
    }
  }

  lemma {:induction false} MappingIsMade(
    s: Store, caller: nat, workspace: nat, group: string, after: Option<Role>) returns (t: Store)
    requires MayGrant(s, caller, workspace) && Get(MappedIn(s, workspace), group) != after
    ensures HasMapped(s, t, caller, workspace, group, after)
    ensures Decide(s, Mapping(caller, workspace, group, after)) ==
            if s.users[caller].superuser || AdminWithMapping(s, workspace, group, after) then Ok(t)
            else Err(Conflict)
  {
    var before := Get(MappedIn(s, workspace), group);
    var mappings :=
      if after.Some? then MappedIn(s, workspace)[group := after.value] else MappedIn(s, workspace) - {group};
    t := s.(mapped := s.mapped[workspace := mappings],
            audit := s.audit + [MappingEntry(caller, group, workspace, Change(before, after))]);
    AdminsAfterMapping(s, t, caller, workspace, group, after);
  }

  /** What a request for a mapping is answered: refused unless its caller may grant there; not found
      where there is nothing to remove; nothing done where it is so already; refused where it would
      leave the workspace without an admin, unless a superuser asks; and otherwise made, and that
      alone, with one row that names its caller and the role there was before. */
  lemma {:induction false} MappingAnswers(
    s: Store, caller: nat, workspace: nat, group: string, after: Option<Role>)
    ensures
      var before := Get(MappedIn(s, workspace), group);
      var answer := Decide(s, Mapping(caller, workspace, group, after));
      && (answer == Err(Forbidden) <==> !MayGrant(s, caller, workspace))
      && (answer == Err(NotFound) <==> MayGrant(s, caller, workspace) && before == after == None)
      && (answer == Err(Conflict) <==>
            && MayGrant(s, caller, workspace) && before != after
            && !s.users[caller].superuser && !AdminWithMapping(s, workspace, group, after))
      && (answer.Ok? ==>
            if before == after then answer.value == s
            else HasMapped(s, answer.value, caller, workspace, group, after))
  {
    if MayGrant(s, caller, workspace) && Get(MappedIn(s, workspace), group) != after {
      var t := MappingIsMade(s, caller, workspace, group, after);
    }
  }

  // Direct roles.

  /** What `id` holds in `workspace` once `target`'s roles are as wanted. */
  function RoleWith(s: Store, target: nat, wanted: RoleChanges, id: nat, workspace: nat): Option<Role> {
    if id == target then Overridden(DirectOf(s, target), wanted, workspace) else Get(DirectOf(s, id), workspace)
  }

  ghost predicate AdminWithRoles(s: Store, target: nat, wanted: RoleChanges, workspace: nat) {
    exists id :: id in s.users && IsAdminWithRoles(s, target, wanted, id, workspace)
  }

  ghost predicate IsAdminWithRoles(s: Store, target: nat, wanted: RoleChanges, id: nat, workspace: nat)
    requires id in s.users
  {
    var u := s.users[id];
    && !u.disabled && !u.superuser
    && (|| RoleWith(s, target, wanted, id, workspace) == Some(Admin)
        || exists g :: g in u.groups && Get(MappedIn(s, workspace), g) == Some(Admin))
  }

  /** A row for each role that changes, in rising order of workspace. */
  ghost predicate RecordsRoles(
    s: Store, rows: seq<Entry>, caller: nat, target: nat, wanted: RoleChanges)
  {
    && (forall i :: 0 <= i < |rows| ==> IsRoleRow(s, rows[i], caller, target, wanted))
    && (forall w :: Overridden(DirectOf(s, target), wanted, w) != Get(DirectOf(s, target), w) ==>
          exists i :: 0 <= i < |rows| && rows[i].workspace == w)
    && (forall i, j :: 0 <= i < j < |rows| ==> rows[i].workspace < rows[j].workspace)
  }

  ghost predicate IsRoleRow(s: Store, row: Entry, caller: nat, target: nat, wanted: RoleChanges) {
    var held := DirectOf(s, target);
    && row.DirectEntry? && row.actor == caller && row.target == target
    && row.change.before == Get(held, row.workspace)
    && row.change.after == Overridden(held, wanted, row.workspace)
    && row.change.before != row.change.after
  }

  ghost predicate HasRoles(s: Store, t: Store, caller: nat, target: nat, wanted: RoleChanges) {
    && t.users == s.users && t.workspaces == s.workspaces && t.mapped == s.mapped
    && (forall id, w :: Get(DirectOf(t, id), w) == RoleWith(s, target, wanted, id, w))
    && s.audit <= t.audit && RecordsRoles(s, t.audit[|s.audit|..], caller, target, wanted)
  }

  lemma {:induction false} EntriesAre(actor: nat, target: nat, changes: seq<(nat, Change)>)
    ensures
      var rows := DirectEntries(actor, target, changes);
      && |rows| == |changes|
      && forall i :: 0 <= i < |rows| ==> rows[i] == DirectEntry(actor, target, changes[i].0, changes[i].1)
  {
    if changes != [] {
      EntriesAre(actor, target, changes[1..]);
    }
  }

  lemma {:induction false} ChangesRiseEverywhere(changes: seq<(nat, Change)>, i: nat, j: nat)
    requires ChangesRise(changes) && i < j < |changes|
    ensures changes[i].0 < changes[j].0
    decreases changes
  {
    if i == 0 {
      if j > 1 {
        ChangesRiseEverywhere(changes[1..], 0, j - 1);
      }
    } else {
      ChangesRiseEverywhere(changes[1..], i - 1, j - 1);
    }
  }

  /** In rising order, a change is the one at its workspace. */
  lemma {:induction false} ChangeIsAt(changes: seq<(nat, Change)>, i: nat)
    requires ChangesRise(changes) && i < |changes|
    ensures ChangeAt(changes, changes[i].0) == Some(changes[i].1)
    decreases changes
  {
    if i > 0 {
      ChangesRiseEverywhere(changes, 0, i);
      ChangeIsAt(changes[1..], i - 1);
    }
  }

  lemma {:induction false} ChangeIsSomewhere(changes: seq<(nat, Change)>, workspace: nat) returns (i: nat)
    requires ChangeAt(changes, workspace).Some?
    ensures i < |changes| && changes[i].0 == workspace
    decreases changes
  {
    if changes[0].0 == workspace {
      i := 0;
    } else {
      i := ChangeIsSomewhere(changes[1..], workspace);
      i := i + 1;
    }
  }

  lemma {:induction false} RolesAreRecorded(s: Store, caller: nat, target: nat, wanted: RoleChanges)
    requires Rises(wanted)
    ensures RecordsRoles(
              s, DirectEntries(caller, target, DirectChanges(DirectOf(s, target), wanted)), caller, target, wanted)
  {
    var held := DirectOf(s, target);
    var changes := DirectChanges(held, wanted);
    var rows := DirectEntries(caller, target, changes);
    EntriesAre(caller, target, changes);
    ChangesComeInOrder(held, wanted);
    forall i | 0 <= i < |rows| ensures IsRoleRow(s, rows[i], caller, target, wanted) {
      ChangeIsAt(changes, i);
      ChangesAreMinimal(held, wanted, changes[i].0);
    }
    forall w | Overridden(held, wanted, w) != Get(held, w)
      ensures exists i :: 0 <= i < |rows| && rows[i].workspace == w
    {
      ChangesAreMinimal(held, wanted, w);
      var i := ChangeIsSomewhere(changes, w);
      assert rows[i].workspace == w;
    }
    forall i, j | 0 <= i < j < |rows| ensures rows[i].workspace < rows[j].workspace {
      ChangesRiseEverywhere(changes, i, j);
    }
  }

  lemma {:induction false} AdminsAfterRoles(
    s: Store, t: Store, target: nat, wanted: RoleChanges, workspace: nat)
    requires t.users == s.users && t.mapped == s.mapped
    requires forall id :: Get(DirectOf(t, id), workspace) == RoleWith(s, target, wanted, id, workspace)
    ensures AnAdminIsLeft(t, workspace) <==> AdminWithRoles(s, target, wanted, workspace)
  {
    forall id | id in s.users
      ensures (!s.users[id].disabled && !s.users[id].superuser && AdminByGrant(t, id, s.users[id].groups, workspace))
              <==> IsAdminWithRoles(s, target, wanted, id, workspace)
    {
    }
  }

  lemma {:induction false} RolesAreMade(s: Store, caller: nat, target: nat, wanted: RoleChanges) returns (t: Store)
    requires Rises(wanted) && Authorised(s, caller, Concerned(wanted)) && target in s.users
    ensures HasRoles(s, t, caller, target, wanted)
    ensures Decide(s, DirectRoles(caller, target, wanted)) ==
            if s.users[caller].superuser ||
               forall w :: w in Concerned(wanted) ==> AdminWithRoles(s, target, wanted, w)
            then Ok(t) else Err(Conflict)
  {
    var held := DirectOf(s, target);
    var changes := DirectChanges(held, wanted);
    t := s.(direct := s.direct[target := Apply(held, changes)],
            audit := s.audit + DirectEntries(caller, target, changes));
    forall id, w ensures Get(DirectOf(t, id), w) == RoleWith(s, target, wanted, id, w) {
      ChangesOverride(held, wanted, w);
    }
    RolesAreRecorded(s, caller, target, wanted);
    assert t.audit[|s.audit|..] == DirectEntries(caller, target, changes);
    forall w | w in Concerned(wanted) ensures AnAdminIsLeft(t, w) <==> AdminWithRoles(s, target, wanted, w) {
      AdminsAfterRoles(s, t, target, wanted, w);
    }
  }

  /** What a request for direct roles is answered: refused unless its caller is there, enabled and may
      grant in every workspace it names; not found without an account to give them to; refused where
      it would leave one of those workspaces without an admin, unless a superuser asks; and
      otherwise made, and that alone, with a row for each role that changes. */
  lemma {:induction false} RolesAnswers(s: Store, caller: nat, target: nat, wanted: RoleChanges)
    requires Rises(wanted)
    ensures
      var answer := Decide(s, DirectRoles(caller, target, wanted));
      var may := caller in s.users && !s.users[caller].disabled &&
                 forall w :: Wanted(wanted, w).Some? ==> MayGrant(s, caller, w);
      && (answer == Err(Forbidden) <==> !may)
      && (answer == Err(NotFound) <==> may && target !in s.users)
      && (answer == Err(Conflict) <==>
            && may && target in s.users && !s.users[caller].superuser
            && exists w :: Wanted(wanted, w).Some? && !AdminWithRoles(s, target, wanted, w))
      && (answer.Ok? ==> HasRoles(s, answer.value, caller, target, wanted))
  {
    forall w ensures w in Concerned(wanted) <==> Wanted(wanted, w).Some? {
      ConcernedIff(wanted, w);
    }
    if Authorised(s, caller, Concerned(wanted)) && target in s.users {
      var t := RolesAreMade(s, caller, target, wanted);
    }
  }

  // Every row of the log is true.

  /** What the row is about, in `s`. */
  function Held(s: Store, row: Entry): Option<Role> {
    match row
    case DirectEntry(_, target, workspace, _) => Get(DirectOf(s, target), workspace)
    case MappingEntry(_, group, workspace, _) => Get(MappedIn(s, workspace), group)
  }

  /** Between `s` and `t` its actor, who might, changed what it says from what it says to what it says. */
  ghost predicate IsTrue(s: Store, a: Action, t: Store, row: Entry) {
    && !a.Accounts? && a.caller == row.actor && MayGrant(s, row.actor, row.workspace)
    && Held(s, row) == row.change.before != row.change.after == Held(t, row)
  }

  lemma {:induction false} NewRowsAreTrue(s: Store, a: Action, i: nat)
    requires WellFormed(a) && |s.audit| <= i < |Step(s, a).audit|
    ensures IsTrue(s, a, Step(s, a), Step(s, a).audit[i])
  {
    var t := Step(s, a);
    match a
    case DirectRoles(caller, target, wanted) =>
      RolesAnswers(s, caller, target, wanted);
      var rows := t.audit[|s.audit|..];
      var row := rows[i - |s.audit|];
      assert IsRoleRow(s, row, caller, target, wanted);
      assert Get(DirectOf(t, target), row.workspace) == RoleWith(s, target, wanted, target, row.workspace);
    case Mapping(caller, workspace, group, after) =>
      MappingAnswers(s, caller, workspace, group, after);
      assert Get(MappedIn(t, workspace), group) == after;
    case Accounts(_) =>
  }

  lemma {:induction false} OldRowsStay(s: Store, a: Action)
    requires WellFormed(a)
    ensures s.audit <= Step(s, a).audit
  {
    match a
    case DirectRoles(caller, target, wanted) => RolesAnswers(s, caller, target, wanted);
    case Mapping(caller, workspace, group, after) => MappingAnswers(s, caller, workspace, group, after);
    case Accounts(_) =>
  }

  ghost predicate TrueAt(s: Store, schedule: seq<Action>, i: nat, row: Entry)
    requires i < |schedule|
  {
    IsTrue(Run(NEXT, s, schedule[..i]), schedule[i], Run(NEXT, s, schedule[..i + 1]), row)
  }

  /** In every run, each row written is true of some step of it: whom it names asked then and might, and
      what it names was what it says before that step and what it says after it. */
  lemma {:induction false} EveryRowIsTrue(s: Store, schedule: seq<Action>, k: nat)
    requires AllWellFormed(schedule) && |s.audit| <= k < |Run(NEXT, s, schedule).audit|
    ensures exists i :: 0 <= i < |schedule| && TrueAt(s, schedule, i, Run(NEXT, s, schedule).audit[k])
  {
    if schedule != [] {
      var last := |schedule| - 1;
      var front, before := schedule[..last], Run(NEXT, s, schedule[..last]);
      OldRowsStay(before, schedule[last]);
      if k < |before.audit| {
        EveryRowIsTrue(s, front, k);
        var i :| 0 <= i < |front| && TrueAt(s, front, i, before.audit[k]);
        assert front[..i] == schedule[..i] && front[..i + 1] == schedule[..i + 1];
        assert TrueAt(s, schedule, i, before.audit[k]);
      } else {
        NewRowsAreTrue(before, schedule[last], k);
        assert schedule[..last + 1] == schedule;
        assert TrueAt(s, schedule, last, Run(NEXT, s, schedule).audit[k]);
      }
    }
  }

  // Accounts.

  /** The last time accounts were changed. */
  predicate LastAccounts(schedule: seq<Action>, i: nat) {
    i < |schedule| && schedule[i].Accounts? && forall j :: i < j < |schedule| ==> !schedule[j].Accounts?
  }

  /** Requests leave accounts alone, and decide by them as they last were. */
  lemma {:induction false} AccountsAreAsLastChanged(s: Store, schedule: seq<Action>)
    ensures
      var users := Run(NEXT, s, schedule).users;
      || (users == s.users && forall i :: 0 <= i < |schedule| ==> !schedule[i].Accounts?)
      || exists i: nat :: LastAccounts(schedule, i) && users == schedule[i].users
  {
    if schedule != [] {
      var last := |schedule| - 1;
      var front, a := schedule[..last], schedule[last];
      AccountsAreAsLastChanged(s, front);
      if a.Accounts? {
        assert LastAccounts(schedule, last);
      } else {
        RequestsLeaveAccounts(Run(NEXT, s, front), a);
        if i: nat :| LastAccounts(front, i) && Run(NEXT, s, front).users == front[i].users {
          assert LastAccounts(schedule, i);
        }
      }
    }
  }

  lemma RequestsLeaveAccounts(s: Store, a: Action)
    requires !a.Accounts?
    ensures Step(s, a).users == s.users
  {
  }
}
