/**
  Giving, changing and taking away roles: who may, what one request changes, and what every run of
  requests keeps.
*/
module Grants {
  import opened Access
  import opened Schedules
  import opened Wrappers

  function Get<K, V>(m: map<K, V>, k: K): Option<V> {
    if k in m then Some(m[k]) else None
  }

  // One account's direct roles.

  /** What a request asks for, by workspace in rising order: a role to hold there, or none. */
  type RoleChanges = seq<(nat, Option<Role>)>

  predicate Rises(wanted: RoleChanges) {
    |wanted| <= 1 || (wanted[0].0 < wanted[1].0 && Rises(wanted[1..]))
  }

  /** One binding before and after a write, where the two differ. */
  datatype Change = Change(before: Option<Role>, after: Option<Role>)

  function DirectChanges(held: map<nat, Role>, wanted: RoleChanges): seq<(nat, Change)> {
    if wanted == [] then []
    else
      var (workspace, after) := wanted[0];
      var before := Get(held, workspace);
      (if before != after then [(workspace, Change(before, after))] else []) + DirectChanges(held, wanted[1..])
  }

  function Set(held: map<nat, Role>, workspace: nat, after: Option<Role>): map<nat, Role> {
    if after.Some? then held[workspace := after.value] else held - {workspace}
  }

  function Apply(held: map<nat, Role>, changes: seq<(nat, Change)>): map<nat, Role>
    decreases changes
  {
    if changes == [] then held else Apply(Set(held, changes[0].0, changes[0].1.after), changes[1..])
  }

  /** What is wanted of `workspace`, if anything is. */
  function Wanted(wanted: RoleChanges, workspace: nat): Option<Option<Role>> {
    if wanted == [] then None
    else if wanted[0].0 == workspace then Some(wanted[0].1)
    else Wanted(wanted[1..], workspace)
  }

  /** What the account should hold in `workspace`: what is wanted, or else what it held. */
  function Overridden(held: map<nat, Role>, wanted: RoleChanges, workspace: nat): Option<Role> {
    var w := Wanted(wanted, workspace);
    if w.Some? then w.value else Get(held, workspace)
  }

  lemma {:induction false} LaterAreNotWanted(wanted: RoleChanges, workspace: nat)
    requires Rises(wanted) && wanted != [] && workspace <= wanted[0].0
    ensures Wanted(wanted[1..], workspace).None?
  {
    if |wanted| > 1 {
      LaterAreNotWanted(wanted[1..], workspace);
    }
  }

  /** Changes made to other workspaces are not seen in this one. */
  lemma {:induction false} ChangesElsewhere(held: map<nat, Role>, other: map<nat, Role>, wanted: RoleChanges)
    requires forall w :: Wanted(wanted, w).Some? ==> Get(held, w) == Get(other, w)
    ensures DirectChanges(held, wanted) == DirectChanges(other, wanted)
  {
    if wanted != [] {
      forall w | Wanted(wanted[1..], w).Some? ensures Get(held, w) == Get(other, w) {
        assert Wanted(wanted, w).Some?;
      }
      assert Wanted(wanted, wanted[0].0).Some?;
      ChangesElsewhere(held, other, wanted[1..]);
    }
  }

  /** Applied, the changes give exactly what was held, overridden by what was wanted. */
  lemma {:induction false} ChangesOverride(held: map<nat, Role>, wanted: RoleChanges, workspace: nat)
    requires Rises(wanted)
    ensures Get(Apply(held, DirectChanges(held, wanted)), workspace) == Overridden(held, wanted, workspace)
    decreases wanted
  {
    if wanted != [] {
      var (first, after) := wanted[0];
      var changes := DirectChanges(held, wanted);
      LaterAreNotWanted(wanted, first);
      if Get(held, first) != after {
        var set1 := Set(held, first, after);
        assert changes[1..] == DirectChanges(held, wanted[1..]);
        ChangesElsewhere(held, set1, wanted[1..]);
        ChangesOverride(set1, wanted[1..], workspace);
      } else {
        assert changes == DirectChanges(held, wanted[1..]);
        ChangesOverride(held, wanted[1..], workspace);
      }
    }
  }

  function ChangeAt(changes: seq<(nat, Change)>, workspace: nat): Option<Change> {
    if changes == [] then None
    else if changes[0].0 == workspace then Some(changes[0].1)
    else ChangeAt(changes[1..], workspace)
  }

  predicate ChangesRise(changes: seq<(nat, Change)>) {
    |changes| <= 1 || (changes[0].0 < changes[1].0 && ChangesRise(changes[1..]))
  }

  /** The first thing wanted is a change of its own or none. */
  lemma {:induction false} FirstChange(held: map<nat, Role>, wanted: RoleChanges)
    requires wanted != []
    ensures
      var changes, rest := DirectChanges(held, wanted), DirectChanges(held, wanted[1..]);
      if Get(held, wanted[0].0) == wanted[0].1 then changes == rest
      else
        && changes != []
        && changes[0] == (wanted[0].0, Change(Get(held, wanted[0].0), wanted[0].1))
        && changes[1..] == rest
  {
  }

  /** There is a change for exactly the workspaces where the role changes, with what it was and what
      it becomes. */
  lemma {:induction false} ChangesAreMinimal(held: map<nat, Role>, wanted: RoleChanges, workspace: nat)
    requires Rises(wanted)
    ensures
      var before, after := Get(held, workspace), Overridden(held, wanted, workspace);
      ChangeAt(DirectChanges(held, wanted), workspace) ==
      if before == after then None else Some(Change(before, after))
  {
    if wanted != [] {
      FirstChange(held, wanted);
      LaterAreNotWanted(wanted, wanted[0].0);
      ChangesAreMinimal(held, wanted[1..], workspace);
    }
  }

  /** They come in strictly rising workspace order, the order the store locks rows in. */
  lemma {:induction false} ChangesComeInOrder(held: map<nat, Role>, wanted: RoleChanges)
    requires Rises(wanted)
    ensures
      var changes := DirectChanges(held, wanted);
      ChangesRise(changes) && (changes != [] ==> wanted != [] && wanted[0].0 <= changes[0].0)
  {
    if wanted != [] {
      FirstChange(held, wanted);
      ChangesComeInOrder(held, wanted[1..]);
    }
  }

  lemma {:induction false} NothingToChange(held: map<nat, Role>, wanted: RoleChanges)
    requires forall w :: Wanted(wanted, w).Some? ==> Get(held, w) == Wanted(wanted, w).value
    requires Rises(wanted)
    ensures DirectChanges(held, wanted) == []
  {
    if wanted != [] {
      assert Wanted(wanted, wanted[0].0).Some?;
      forall w | Wanted(wanted[1..], w).Some? ensures Get(held, w) == Wanted(wanted[1..], w).value {
        if w <= wanted[0].0 {
          LaterAreNotWanted(wanted, w);
        }
        assert Wanted(wanted, w) == Wanted(wanted[1..], w);
      }
      NothingToChange(held, wanted[1..]);
    }
  }

  /** Asking again changes nothing. */
  lemma {:induction false} RepeatingIsEmpty(held: map<nat, Role>, wanted: RoleChanges)
    requires Rises(wanted)
    ensures DirectChanges(Apply(held, DirectChanges(held, wanted)), wanted) == []
  {
    var result := Apply(held, DirectChanges(held, wanted));
    forall w | Wanted(wanted, w).Some? ensures Get(result, w) == Wanted(wanted, w).value {
      ChangesOverride(held, wanted, w);
    }
    NothingToChange(result, wanted);
  }

  // The store.

  /** One row of the audit log: who changed which binding, and how. */
  datatype Entry =
    | DirectEntry(actor: nat, target: nat, workspace: nat, change: Change)
    | MappingEntry(actor: nat, group: string, workspace: nat, change: Change)

  datatype Store = Store(
    users: map<nat, User>,
    workspaces: map<nat, string>,
    direct: map<nat, map<nat, Role>>,
    mapped: map<nat, map<string, Role>>,
    audit: seq<Entry>)

  function DirectOf(s: Store, user: nat): map<nat, Role> {
    if user in s.direct then s.direct[user] else map[]
  }

  function MappedIn(s: Store, workspace: nat): map<string, Role> {
    if workspace in s.mapped then s.mapped[workspace] else map[]
  }

  predicate AdminByGrant(s: Store, id: nat, groups: seq<string>, workspace: nat) {
    || Get(DirectOf(s, id), workspace) == Some(Admin)
    || exists g :: g in groups && Get(MappedIn(s, workspace), g) == Some(Admin)
  }

  /** Whether an enabled account other than a superuser is an admin of the workspace. */
  predicate AnAdminIsLeft(s: Store, workspace: nat) {
    exists id :: id in s.users &&
                 var u := s.users[id];
                 !u.disabled && !u.superuser && AdminByGrant(s, id, u.groups, workspace)
  }

  /** Enabled, and admin of an existing workspace. */
  predicate MayGrant(s: Store, caller: nat, workspace: nat) {
    && caller in s.users
    && !s.users[caller].disabled
    && workspace in s.workspaces
    && (s.users[caller].superuser || AdminByGrant(s, caller, s.users[caller].groups, workspace))
  }

  /** The caller is there and enabled, and may grant in every one of `concerned`. */
  predicate Authorised(s: Store, caller: nat, concerned: set<nat>) {
    && caller in s.users
    && !s.users[caller].disabled
    && forall w :: w in concerned ==> MayGrant(s, caller, w)
  }

  // The decision is `authorise` over rows read from the store, all of them or only those the
  // caller's rights in the workspaces concerned rest on.

  predicate Authorise(rows: Rows, caller: User, workspaces: set<nat>) {
    !caller.disabled && workspaces <= Grantable(rows, caller)
  }

  predicate HoldsDirect(s: Store, g: Grant) {
    Get(DirectOf(s, g.user), g.workspace) == Some(g.role)
  }

  predicate HoldsMapping(s: Store, g: GroupGrant) {
    Get(MappedIn(s, g.workspace), g.group) == Some(g.role)
  }

  /** `rows` are everything in the store, in any order. */
  ghost predicate ReadsAll(rows: Rows, s: Store) {
    && (forall w :: w in rows.workspaces <==> Get(s.workspaces, w.id) == Some(w.name))
    && (forall g :: g in rows.grants <==> HoldsDirect(s, g))
    && (forall g :: g in rows.groupGrants <==> HoldsMapping(s, g))
  }

  /** `rows` are what `caller`'s rights in `concerned` rest on, in any order. */
  ghost predicate ReadsRights(rows: Rows, s: Store, caller: User, concerned: set<nat>) {
    && (forall w :: w in rows.workspaces <==> w.id in concerned && Get(s.workspaces, w.id) == Some(w.name))
    && (forall g :: g in rows.grants <==> g.user == caller.id && g.workspace in concerned && HoldsDirect(s, g))
    && (forall g :: g in rows.groupGrants <==>
                    g.workspace in concerned && g.group in caller.groups && HoldsMapping(s, g))
  }

  /** Admin of `workspace` by these rows, where they hold what concerns the caller there. */
  lemma {:induction false} AdminByRows(rows: Rows, s: Store, caller: User, workspace: nat)
    requires !caller.disabled
    requires forall role ::
               Grant(caller.id, workspace, role) in rows.grants <==>
               HoldsDirect(s, Grant(caller.id, workspace, role))
    requires forall g, role ::
               (g in caller.groups && GroupGrant(g, workspace, role) in rows.groupGrants) <==>
               (g in caller.groups && HoldsMapping(s, GroupGrant(g, workspace, role)))
    ensures IsAdminOf(rows, caller, workspace) <==>
            caller.superuser || AdminByGrant(s, caller.id, caller.groups, workspace)
  {
    AdminMeans(rows, caller, workspace);
    assert GrantsDirectly(rows, caller, workspace, Admin) <==> HoldsDirect(s, Grant(caller.id, workspace, Admin));
    forall g ensures GrantsToGroup(rows, caller, workspace, g, Admin) <==>
                     g in caller.groups && HoldsMapping(s, GroupGrant(g, workspace, Admin)) {
    }
    if g :| GrantsToGroup(rows, caller, workspace, g, Admin) {
      assert g in caller.groups && Get(MappedIn(s, workspace), g) == Some(Admin);
    }
    if g :| g in caller.groups && Get(MappedIn(s, workspace), g) == Some(Admin) {
      assert GrantsToGroup(rows, caller, workspace, g, Admin);
    }
  }

  lemma {:induction false} GrantableHolds(rows: Rows, caller: User, workspace: nat)
    ensures workspace in Grantable(rows, caller) <==>
            (exists w :: w in rows.workspaces && w.id == workspace) && IsAdminOf(rows, caller, workspace)
  {
  }

  lemma {:induction false} WorkspaceIsRead(rows: Rows, s: Store, workspace: nat)
    requires forall w: Workspace :: w.id == workspace ==>
               (w in rows.workspaces <==> Get(s.workspaces, w.id) == Some(w.name))
    ensures (exists w :: w in rows.workspaces && w.id == workspace) <==> workspace in s.workspaces
  {
    if workspace in s.workspaces {
      assert Workspace(workspace, s.workspaces[workspace]) in rows.workspaces;
    }
  }

  /** Deciding over every row gives the answer the store holds. */
  lemma {:induction false} AllRowsDecide(rows: Rows, s: Store, caller: nat, concerned: set<nat>)
    requires caller in s.users && s.users[caller].id == caller && ReadsAll(rows, s)
    ensures Authorise(rows, s.users[caller], concerned) <==> Authorised(s, caller, concerned)
  {
    var u := s.users[caller];
    if !u.disabled {
      forall w | w in concerned ensures w in Grantable(rows, u) <==> MayGrant(s, caller, w) {
        GrantableHolds(rows, u, w);
        WorkspaceIsRead(rows, s, w);
        AdminByRows(rows, s, u, w);
      }
    }
  }

  /** And so does deciding over only the rows the caller's rights rest on. */
  lemma {:induction false} RightsDecideAlike(rows: Rows, s: Store, caller: nat, concerned: set<nat>)
    requires caller in s.users && s.users[caller].id == caller
    requires ReadsRights(rows, s, s.users[caller], concerned)
    ensures Authorise(rows, s.users[caller], concerned) <==> Authorised(s, caller, concerned)
  {
    var u := s.users[caller];
    if !u.disabled {
      forall w | w in concerned ensures w in Grantable(rows, u) <==> MayGrant(s, caller, w) {
        GrantableHolds(rows, u, w);
        WorkspaceIsRead(rows, s, w);
        AdminByRows(rows, s, u, w);
      }
    }
  }

  // Writes.

  datatype Refusal = Forbidden | NotFound | Conflict

  function Concerned(wanted: RoleChanges): set<nat> {
    set i | 0 <= i < |wanted| :: wanted[i].0
  }

  function DirectEntries(actor: nat, target: nat, changes: seq<(nat, Change)>): seq<Entry> {
    if changes == [] then []
    else [DirectEntry(actor, target, changes[0].0, changes[0].1)] + DirectEntries(actor, target, changes[1..])
  }

  /** Refuses a write by someone other than a superuser that leaves a workspace it touched with no
      admin. */
  function KeepingAnAdmin(s: Store, caller: nat, touched: set<nat>): Result<Store, Refusal>
    requires caller in s.users
  {
    if s.users[caller].superuser || forall w :: w in touched ==> AnAdminIsLeft(s, w) then Ok(s)
    else Err(Conflict)
  }

  function SetDirectRoles(s: Store, caller: nat, target: nat, wanted: RoleChanges): Result<Store, Refusal> {
    if !Authorised(s, caller, Concerned(wanted)) then Err(Forbidden)
    else if target !in s.users then Err(NotFound)
    else
      var changes := DirectChanges(DirectOf(s, target), wanted);
      var written := s.(direct := s.direct[target := Apply(DirectOf(s, target), changes)],
                        audit := s.audit + DirectEntries(caller, target, changes));
      KeepingAnAdmin(written, caller, Concerned(wanted))
  }

  function WriteMapping(
    s: Store, caller: nat, workspace: nat, group: string, after: Option<Role>): Result<Store, Refusal>
  {
    if !Authorised(s, caller, {workspace}) then Err(Forbidden)
    else
      var before := Get(MappedIn(s, workspace), group);
      if before.None? && after.None? then Err(NotFound)
      else if before == after then Ok(s)
      else
        var mappings :=
          if after.Some? then MappedIn(s, workspace)[group := after.value] else MappedIn(s, workspace) - {group};
        var written := s.(mapped := s.mapped[workspace := mappings],
                          audit := s.audit + [MappingEntry(caller, group, workspace, Change(before, after))]);
        KeepingAnAdmin(written, caller, {workspace})
  }

  /** A request, or anything that changes accounts: signing in, disabling, promoting. */
  datatype Action =
    | DirectRoles(caller: nat, target: nat, wanted: RoleChanges)
    | Mapping(caller: nat, workspace: nat, group: string, after: Option<Role>)
    | Accounts(users: map<nat, User>)

  function Decide(s: Store, a: Action): Result<Store, Refusal> {
    match a
    case DirectRoles(caller, target, wanted) => SetDirectRoles(s, caller, target, wanted)
    case Mapping(caller, workspace, group, after) => WriteMapping(s, caller, workspace, group, after)
    case Accounts(users) => Ok(s.(users := users))
  }

  /** All of a request, or, refused, none of it. */
  function Step(s: Store, a: Action): Store {
    match Decide(s, a)
    case Ok(written) => written
    case Err(_) => s
  }

  const NEXT: (Store, Action) -> Store := (s, a) => Step(s, a)

  // What a request changes.

  lemma {:induction false} ConcernedIff(wanted: RoleChanges, workspace: nat)
    ensures workspace in Concerned(wanted) <==> Wanted(wanted, workspace).Some?
  {
    if wanted != [] {
      ConcernedIff(wanted[1..], workspace);
      assert forall i :: 1 <= i < |wanted| ==> wanted[i] == wanted[1..][i - 1];
      assert Concerned(wanted) == {wanted[0].0} + Concerned(wanted[1..]);
    }
  }

  /** `a` is a request to change what `target` holds in `workspace`, from someone who may. */
  predicate AllowedChange(s: Store, a: Action, target: nat, workspace: nat) {
    && a.DirectRoles?
    && a.target == target
    && workspace in Concerned(a.wanted)
    && MayGrant(s, a.caller, workspace)
  }

  predicate WellFormed(a: Action) {
    a.DirectRoles? ==> Rises(a.wanted)
  }

  /** A direct role changes only by an allowed request, and then to what was wanted. */
  lemma {:induction false} StepChangesRoles(s: Store, a: Action, target: nat, workspace: nat)
    requires WellFormed(a)
    ensures
      var before, after := Get(DirectOf(s, target), workspace), Get(DirectOf(Step(s, a), target), workspace);
      before != after ==>
        AllowedChange(s, a, target, workspace) && Wanted(a.wanted, workspace) == Some(after)
  {
    if a.DirectRoles? && a.target == target {
      ChangesOverride(DirectOf(s, target), a.wanted, workspace);
      ConcernedIff(a.wanted, workspace);
    }
  }

  ghost predicate AllWellFormed(schedule: seq<Action>) {
    forall i :: 0 <= i < |schedule| ==> WellFormed(schedule[i])
  }

  /** Step `i` of a run is such a request. */
  ghost predicate AllowedAt(s: Store, schedule: seq<Action>, i: nat, target: nat, workspace: nat)
    requires i < |schedule|
  {
    AllowedChange(Run(NEXT, s, schedule[..i]), schedule[i], target, workspace)
  }

  /** If a run changes what `target` holds in `workspace`, then at some step of it a caller who was
      enabled and admin of that workspace at that moment asked for the change. */
  lemma {:induction false} RolesChangeOnlyByAdmins(s: Store, schedule: seq<Action>, target: nat, workspace: nat)
    requires AllWellFormed(schedule)
    requires Get(DirectOf(s, target), workspace) != Get(DirectOf(Run(NEXT, s, schedule), target), workspace)
    ensures exists i :: 0 <= i < |schedule| && AllowedAt(s, schedule, i, target, workspace)
  {
    if schedule != [] {
      var last := |schedule| - 1;
      var front := schedule[..last];
      var before := Run(NEXT, s, front);
      if Get(DirectOf(s, target), workspace) != Get(DirectOf(before, target), workspace) {
        RolesChangeOnlyByAdmins(s, front, target, workspace);
        var i :| 0 <= i < |front| && AllowedAt(s, front, i, target, workspace);
        assert front[..i] == schedule[..i];
        assert AllowedAt(s, schedule, i, target, workspace);
      } else {
        StepChangesRoles(before, schedule[last], target, workspace);
        assert AllowedAt(s, schedule, last, target, workspace);
      }
    }
  }

  // The audit log.

  function Replay(direct: map<nat, map<nat, Role>>, audit: seq<Entry>, target: nat, workspace: nat): Option<Role> {
    if audit == [] then Get(if target in direct then direct[target] else map[], workspace)
    else
      var e := audit[|audit| - 1];
      if e.DirectEntry? && e.target == target && e.workspace == workspace then e.change.after
      else Replay(direct, audit[..|audit| - 1], target, workspace)
  }

  lemma {:induction false} ReplayMore(
    direct: map<nat, map<nat, Role>>, audit: seq<Entry>, actor: nat, target: nat, changes: seq<(nat, Change)>,
    user: nat, workspace: nat)
    requires ChangesRise(changes)
    ensures
      var more := audit + DirectEntries(actor, target, changes);
      Replay(direct, more, user, workspace) ==
      if user == target && ChangeAt(changes, workspace).Some? then ChangeAt(changes, workspace).value.after
      else Replay(direct, audit, user, workspace)
    decreases changes
  {
    if changes == [] {
      assert audit + DirectEntries(actor, target, changes) == audit;
    } else {
      var first := DirectEntry(actor, target, changes[0].0, changes[0].1);
      var one := audit + [first];
      assert audit + DirectEntries(actor, target, changes) == one + DirectEntries(actor, target, changes[1..]);
      ReplayMore(direct, one, actor, target, changes[1..], user, workspace);
      assert one[..|audit|] == audit;
      if workspace == changes[0].0 {
        NoLaterChange(changes, workspace);
      }
    }
  }

  lemma {:induction false} NoLaterChange(changes: seq<(nat, Change)>, workspace: nat)
    requires ChangesRise(changes) && changes != [] && workspace <= changes[0].0
    ensures ChangeAt(changes[1..], workspace).None?
  {
    if |changes| > 1 {
      NoLaterChange(changes[1..], workspace);
    }
  }

  function ReplayMapped(
    mapped: map<nat, map<string, Role>>, audit: seq<Entry>, workspace: nat, group: string): Option<Role>
  {
    if audit == [] then Get(if workspace in mapped then mapped[workspace] else map[], group)
    else
      var e := audit[|audit| - 1];
      if e.MappingEntry? && e.workspace == workspace && e.group == group then e.change.after
      else ReplayMapped(mapped, audit[..|audit| - 1], workspace, group)
  }

  lemma {:induction false} ReplayMappedSkips(
    mapped: map<nat, map<string, Role>>, audit: seq<Entry>, actor: nat, target: nat, changes: seq<(nat, Change)>,
    workspace: nat, group: string)
    ensures ReplayMapped(mapped, audit + DirectEntries(actor, target, changes), workspace, group) ==
            ReplayMapped(mapped, audit, workspace, group)
    decreases changes
  {
    if changes == [] {
      assert audit + DirectEntries(actor, target, changes) == audit;
    } else {
      var one := audit + [DirectEntry(actor, target, changes[0].0, changes[0].1)];
      assert audit + DirectEntries(actor, target, changes) == one + DirectEntries(actor, target, changes[1..]);
      ReplayMappedSkips(mapped, one, actor, target, changes[1..], workspace, group);
      assert one[..|audit|] == audit;
    }
  }

  /** The audit log tells the whole story: played back over the roles and mappings there were, it
      gives those there are. */
  ghost predicate LogIsComplete(start: Store, s: Store) {
    && (forall target, workspace ::
          Replay(start.direct, s.audit, target, workspace) == Get(DirectOf(s, target), workspace))
    && forall workspace, group ::
         ReplayMapped(start.mapped, s.audit, workspace, group) == Get(MappedIn(s, workspace), group)
  }

  lemma {:induction false} StepKeepsDirectLog(start: Store, s: Store, a: Action, target: nat, workspace: nat)
    requires WellFormed(a) && LogIsComplete(start, s)
    ensures Replay(start.direct, Step(s, a).audit, target, workspace) == Get(DirectOf(Step(s, a), target), workspace)
  {
    var t := Step(s, a);
    assert Replay(start.direct, s.audit, target, workspace) == Get(DirectOf(s, target), workspace);
    if a.DirectRoles? && Decide(s, a).Ok? {
      var held := DirectOf(s, a.target);
      ChangesComeInOrder(held, a.wanted);
      ReplayMore(start.direct, s.audit, a.caller, a.target, DirectChanges(held, a.wanted), target, workspace);
      ChangesAreMinimal(held, a.wanted, workspace);
      ChangesOverride(held, a.wanted, workspace);
    } else if a.Mapping? && t != s {
      assert t.audit[..|t.audit| - 1] == s.audit;
    }
  }

  lemma {:induction false} StepKeepsMappedLog(start: Store, s: Store, a: Action, workspace: nat, group: string)
    requires LogIsComplete(start, s)
    ensures ReplayMapped(start.mapped, Step(s, a).audit, workspace, group) ==
            Get(MappedIn(Step(s, a), workspace), group)
  {
    var t := Step(s, a);
    assert ReplayMapped(start.mapped, s.audit, workspace, group) == Get(MappedIn(s, workspace), group);
    if a.DirectRoles? && Decide(s, a).Ok? {
      ReplayMappedSkips(
        start.mapped, s.audit, a.caller, a.target, DirectChanges(DirectOf(s, a.target), a.wanted), workspace, group);
    } else if a.Mapping? && t != s {
      assert t.audit[..|t.audit| - 1] == s.audit;
    }
  }

  lemma {:induction false} LogStaysComplete(s: Store, schedule: seq<Action>)
    requires AllWellFormed(schedule) && s.audit == []
    ensures LogIsComplete(s, Run(NEXT, s, schedule))
  {
    if schedule != [] {
      var before, last := Run(NEXT, s, schedule[..|schedule| - 1]), schedule[|schedule| - 1];
      LogStaysComplete(s, schedule[..|schedule| - 1]);
      forall target, workspace
        ensures Replay(s.direct, Step(before, last).audit, target, workspace) ==
                Get(DirectOf(Step(before, last), target), workspace)
      {
        StepKeepsDirectLog(s, before, last, target, workspace);
      }
      forall workspace, group
        ensures ReplayMapped(s.mapped, Step(before, last).audit, workspace, group) ==
                Get(MappedIn(Step(before, last), workspace), group)
      {
        StepKeepsMappedLog(s, before, last, workspace, group);
      }
    }
  }

  // Workspaces keep an admin.

  /** A request from someone who is not a superuser. */
  predicate IsOrdinary(s: Store, a: Action) {
    match a
    case Accounts(_) => false
    case _ => a.caller in s.users && !s.users[a.caller].superuser
  }

  lemma {:induction false} OthersKeepAdmins(s: Store, t: Store, workspace: nat)
    requires s.users == t.users && MappedIn(s, workspace) == MappedIn(t, workspace)
    requires forall id :: Get(DirectOf(s, id), workspace) == Get(DirectOf(t, id), workspace)
    ensures AnAdminIsLeft(s, workspace) <==> AnAdminIsLeft(t, workspace)
  {
    forall id, groups ensures AdminByGrant(s, id, groups, workspace) == AdminByGrant(t, id, groups, workspace) {
    }
  }

  /** An ordinary request never takes a workspace's last admin away. */
  lemma {:induction false} OrdinaryStepKeepsAdmins(s: Store, a: Action, workspace: nat)
    requires WellFormed(a) && IsOrdinary(s, a) && AnAdminIsLeft(s, workspace)
    ensures AnAdminIsLeft(Step(s, a), workspace)
  {
    var t := Step(s, a);
    if a.DirectRoles? && Decide(s, a).Ok? {
      if workspace !in Concerned(a.wanted) {
        forall id ensures Get(DirectOf(s, id), workspace) == Get(DirectOf(t, id), workspace) {
          StepChangesRoles(s, a, id, workspace);
        }
        OthersKeepAdmins(s, t, workspace);
      }
    } else if a.Mapping? && Decide(s, a).Ok? {
      if workspace != a.workspace {
        OthersKeepAdmins(s, t, workspace);
      }
    }
  }

  ghost predicate AllOrdinary(s: Store, schedule: seq<Action>) {
    forall i :: 0 <= i < |schedule| ==> IsOrdinary(s, schedule[i]) && WellFormed(schedule[i])
  }

  /** No run of ordinary requests, in any order and from any callers, leaves a workspace that has an
      admin without one. */
  lemma {:induction false} OrdinaryRunsKeepAdmins(s: Store, schedule: seq<Action>, workspace: nat)
    requires AllOrdinary(s, schedule) && AnAdminIsLeft(s, workspace)
    ensures AnAdminIsLeft(Run(NEXT, s, schedule), workspace)
    ensures Run(NEXT, s, schedule).users == s.users
  {
    if schedule != [] {
      var last := |schedule| - 1;
      OrdinaryRunsKeepAdmins(s, schedule[..last], workspace);
      var before := Run(NEXT, s, schedule[..last]);
      assert IsOrdinary(before, schedule[last]);
      OrdinaryStepKeepsAdmins(before, schedule[last], workspace);
    }
  }
}
