/**
  The pages that show a workspace admin other people's access, and what they can tell: nothing
  about workspaces the admin does not administer.
*/
module AdminPages {
  import opened Access
  import opened Sorting
  import opened Wrappers

  // The users page.

  datatype Status = Active | IsWaiting | Disabled

  datatype UserView = UserView(
    id: nat, name: string, local: bool, superuser: bool, status: Status, mustChangePassword: bool,
    lastSignIn: Option<int>, note: Option<string>, access: seq<(Workspace, Held)>)

  function StatusOf(u: User, access: seq<(Workspace, Held)>): Status {
    if u.disabled then Disabled
    else if !u.superuser && access == [] then IsWaiting
    else Active
  }

  function ViewOf(rows: Rows, within: set<nat>, notes: map<nat, string>, u: User): UserView {
    var access := AccessIn(rows, rows.workspaces, u, within);
    UserView(
      u.id, u.name, u.local, u.superuser, StatusOf(u, access), u.mustChangePassword, u.lastSignIn,
      if u.id in notes then Some(notes[u.id]) else None, access)
  }

  /** One view per account, each note handed out once. */
  function ViewsOf(rows: Rows, within: set<nat>, users: seq<User>, notes: map<nat, string>): seq<UserView> {
    if users == [] then []
    else [ViewOf(rows, within, notes, users[0])] + ViewsOf(rows, within, users[1..], notes - {users[0].id})
  }

  /** Waiting accounts first, then by name without regard to case. */
  function ViewOrder(lowered: string -> string): (UserView, UserView) -> bool {
    (a: UserView, b: UserView) =>
      || (a.status == IsWaiting && b.status != IsWaiting)
      || (a.status.IsWaiting? == b.status.IsWaiting? && TextLe(lowered(a.name), lowered(b.name)))
  }

  /** What `/api/users` answers a caller who administers `within`. `lowered` is Unicode's
      lowercase. */
  function UsersPage(rows: Rows, within: set<nat>, notes: map<nat, string>, lowered: string -> string): seq<UserView> {
    SortBy(ViewsOf(rows, within, rows.users, notes), ViewOrder(lowered))
  }

  method ShowUsers(rows: Rows, within: set<nat>, signupNotes: map<nat, string>, lowered: string -> string)
    returns (views: seq<UserView>)
    ensures views == UsersPage(rows, within, signupNotes, lowered)
  {
    var notes := signupNotes;
    views := [];
    for i := 0 to |rows.users|
      invariant views + ViewsOf(rows, within, rows.users[i..], notes) == ViewsOf(rows, within, rows.users, signupNotes)
    {
      assert rows.users[i..][1..] == rows.users[i + 1..];
      views := views + [ViewOf(rows, within, notes, rows.users[i])];
      notes := notes - {rows.users[i].id};
    }
    assert views == ViewsOf(rows, within, rows.users, signupNotes);
    views := SortBy(views, ViewOrder(lowered));
  }

  // The roles page.

  datatype HeldBy = HeldBy(viewer: nat, editor: nat, admin: nat, superuser: nat)

  datatype MappingView = MappingView(group: string, workspaceId: nat, workspace: string, role: Role, seen: nat)

  datatype RolesView = RolesView(heldBy: HeldBy, mappings: seq<MappingView>)

  function RolesIn(access: seq<(Workspace, Held)>): set<Role> {
    set i | 0 <= i < |access| :: access[i].1.role
  }

  function One(b: bool): nat {
    if b then 1 else 0
  }

  /** A superuser is counted as one, not again as the admin they are everywhere; anyone else once
      for each role they hold somewhere. */
  function CountOne(h: HeldBy, u: User, held: set<Role>): HeldBy {
    if u.disabled then h
    else if u.superuser then h.(superuser := h.superuser + 1)
    else
      HeldBy(h.viewer + One(Viewer in held), h.editor + One(Editor in held), h.admin + One(Admin in held),
             h.superuser)
  }

  function HeldByAll(rows: Rows, within: set<nat>, users: seq<User>): HeldBy {
    if users == [] then HeldBy(0, 0, 0, 0)
    else
      var last := users[|users| - 1];
      CountOne(
        HeldByAll(rows, within, users[..|users| - 1]), last,
        RolesIn(AccessIn(rows, rows.workspaces, last, within)))
  }

  function FindWorkspace(workspaces: seq<Workspace>, id: nat): Option<Workspace> {
    if workspaces == [] then None
    else if workspaces[0].id == id then Some(workspaces[0])
    else FindWorkspace(workspaces[1..], id)
  }

  predicate SeenIn(u: User, group: string) {
    !u.disabled && group in u.groups
  }

  function MappingOf(rows: Rows, within: set<nat>, g: GroupGrant): Option<MappingView> {
    if g.workspace !in within then None
    else
      match FindWorkspace(rows.workspaces, g.workspace)
      case None => None
      case Some(w) =>
        Some(MappingView(g.group, g.workspace, w.name, g.role, |Filter(rows.users, (u: User) => SeenIn(u, g.group))|))
  }

  function MappingsOf(rows: Rows, within: set<nat>, grants: seq<GroupGrant>): seq<MappingView> {
    if grants == [] then []
    else
      (if MappingOf(rows, within, grants[0]).Some? then [MappingOf(rows, within, grants[0]).value] else []) +
      MappingsOf(rows, within, grants[1..])
  }

  predicate MappingLe(a: MappingView, b: MappingView) {
    if a.workspace == b.workspace then TextLe(a.group, b.group) else TextLe(a.workspace, b.workspace)
  }

  /** What `/api/roles` answers a caller who administers `within`. */
  function RolesPage(rows: Rows, within: set<nat>): RolesView {
    RolesView(
      HeldByAll(rows, within, rows.users),
      SortBy(MappingsOf(rows, within, rows.groupGrants), MappingLe))
  }

  method ShowRoles(rows: Rows, within: set<nat>) returns (view: RolesView)
    ensures view == RolesPage(rows, within)
  {
    var heldBy := HeldBy(0, 0, 0, 0);
    for i := 0 to |rows.users|
      invariant heldBy == HeldByAll(rows, within, rows.users[..i])
    {
      var user := rows.users[i];
      assert rows.users[..i + 1][..i] == rows.users[..i];
      if !user.disabled {
        if user.superuser {
          heldBy := heldBy.(superuser := heldBy.superuser + 1);
        } else {
          var held := RolesIn(AccessIn(rows, rows.workspaces, user, within));
          if Viewer in held {
            heldBy := heldBy.(viewer := heldBy.viewer + 1);
          }
          if Editor in held {
            heldBy := heldBy.(editor := heldBy.editor + 1);
          }
          if Admin in held {
            heldBy := heldBy.(admin := heldBy.admin + 1);
          }
        }
      }
    }
    assert rows.users[..|rows.users|] == rows.users;
    return RolesView(heldBy, SortBy(MappingsOf(rows, within, rows.groupGrants), MappingLe));
  }

  // Non-interference.

  /** The grants and group grants on the workspaces of `within`, in order. */
  function GrantsIn(rows: Rows, within: set<nat>): seq<Grant> {
    Filter(rows.grants, (g: Grant) => g.workspace in within)
  }

  function GroupGrantsIn(rows: Rows, within: set<nat>): seq<GroupGrant> {
    Filter(rows.groupGrants, (g: GroupGrant) => g.workspace in within)
  }

  /** The same accounts and workspaces, and the same grants on the workspaces of `within`. */
  predicate SameWithin(rows: Rows, other: Rows, within: set<nat>) {
    && rows.users == other.users
    && rows.workspaces == other.workspaces
    && GrantsIn(rows, within) == GrantsIn(other, within)
    && GroupGrantsIn(rows, within) == GroupGrantsIn(other, within)
  }

  lemma {:induction false} GrantedWithin(rows: Rows, within: set<nat>, user: User, workspace: nat, s: Source)
    requires workspace in within
    ensures Granted(rows, user, workspace, s) <==>
            match s
            case Superuser(role) => user.superuser && role == Admin
            case Direct(role) => Grant(user.id, workspace, role) in GrantsIn(rows, within)
            case Group(name, role) =>
              name in user.groups && GroupGrant(name, workspace, role) in GroupGrantsIn(rows, within)
  {
    match s
    case Superuser(_) =>
    case Direct(role) =>
      FilterHolds(rows.grants, (g: Grant) => g.workspace in within, Grant(user.id, workspace, role));
    case Group(name, role) =>
      FilterHolds(rows.groupGrants, (g: GroupGrant) => g.workspace in within, GroupGrant(name, workspace, role));
  }

  lemma {:induction false} SameEffectiveWithin(rows: Rows, other: Rows, within: set<nat>, user: User, workspace: nat)
    requires SameWithin(rows, other, within) && workspace in within
    ensures Effective(rows, user, workspace) == Effective(other, user, workspace)
  {
    forall s ensures Granted(rows, user, workspace, s) <==> Granted(other, user, workspace, s) {
      GrantedWithin(rows, within, user, workspace, s);
      GrantedWithin(other, within, user, workspace, s);
    }
    EffectiveDependsOnGrants(rows, other, user, workspace);
  }

  lemma {:induction false} SameAccessWithin(rows: Rows, other: Rows, within: set<nat>, user: User)
    requires SameWithin(rows, other, within)
    ensures AccessIn(rows, rows.workspaces, user, within) == AccessIn(other, other.workspaces, user, within)
  {
    forall w | w in within ensures Effective(rows, user, w) == Effective(other, user, w) {
      SameEffectiveWithin(rows, other, within, user, w);
    }
    AccessInDependsOn(rows, other, rows.workspaces, user, within);
  }

  lemma {:induction false} SameViews(
    rows: Rows, other: Rows, within: set<nat>, users: seq<User>, notes: map<nat, string>)
    requires SameWithin(rows, other, within)
    ensures ViewsOf(rows, within, users, notes) == ViewsOf(other, within, users, notes)
  {
    if users != [] {
      SameAccessWithin(rows, other, within, users[0]);
      SameViews(rows, other, within, users[1..], notes - {users[0].id});
    }
  }

  lemma {:induction false} SameHeldBy(rows: Rows, other: Rows, within: set<nat>, users: seq<User>)
    requires SameWithin(rows, other, within)
    ensures HeldByAll(rows, within, users) == HeldByAll(other, within, users)
  {
    if users != [] {
      SameAccessWithin(rows, other, within, users[|users| - 1]);
      SameHeldBy(rows, other, within, users[..|users| - 1]);
    }
  }

  lemma {:induction false} MappingsAreWithin(rows: Rows, within: set<nat>, grants: seq<GroupGrant>)
    ensures MappingsOf(rows, within, grants) ==
            MappingsOf(rows, within, Filter(grants, (g: GroupGrant) => g.workspace in within))
  {
    if grants != [] {
      var inside := (g: GroupGrant) => g.workspace in within;
      MappingsAreWithin(rows, within, grants[1..]);
      if inside(grants[0]) {
        assert Filter(grants, inside)[1..] == Filter(grants[1..], inside);
      } else {
        assert Filter(grants, inside) == Filter(grants[1..], inside);
      }
    }
  }

  lemma {:induction false} SameMappings(rows: Rows, other: Rows, within: set<nat>, grants: seq<GroupGrant>)
    requires SameWithin(rows, other, within)
    ensures MappingsOf(rows, within, grants) == MappingsOf(other, within, grants)
  {
    if grants != [] {
      SameMappings(rows, other, within, grants[1..]);
    }
  }

  /** A caller sees on both pages only what their own workspaces hold: two stores that give them
      the same workspaces to administer, and agree on the grants there, show them the same. */
  lemma {:induction false} PagesDependOnlyOnOwnWorkspaces(
    rows: Rows, other: Rows, caller: User, notes: map<nat, string>, lowered: string -> string)
    requires Grantable(rows, caller) == Grantable(other, caller)
    requires SameWithin(rows, other, Grantable(rows, caller))
    ensures
      var within := Grantable(rows, caller);
      && UsersPage(rows, within, notes, lowered) == UsersPage(other, within, notes, lowered)
      && RolesPage(rows, within) == RolesPage(other, within)
  {
    var within := Grantable(rows, caller);
    SameViews(rows, other, within, rows.users, notes);
    SameHeldBy(rows, other, within, rows.users);
    MappingsAreWithin(rows, within, rows.groupGrants);
    MappingsAreWithin(other, within, other.groupGrants);
    SameMappings(rows, other, within, GroupGrantsIn(rows, within));
  }

  // What the pages do show.

  lemma {:induction false} NoAccessIff(rows: Rows, workspaces: seq<Workspace>, user: User, within: set<nat>)
    ensures AccessIn(rows, workspaces, user, within) == [] <==>
            forall w :: w in workspaces && w.id in within ==> Effective(rows, user, w.id).None?
  {
    if workspaces != [] {
      NoAccessIff(rows, workspaces[1..], user, within);
      assert workspaces == [workspaces[0]] + workspaces[1..];
    }
  }

  /** To an enabled superuser an account shows as waiting exactly when it is. */
  lemma {:induction false} SuperuserSeesWhoWaits(rows: Rows, caller: User, notes: map<nat, string>, u: User)
    requires caller.superuser && !caller.disabled
    ensures ViewOf(rows, Grantable(rows, caller), notes, u).status == IsWaiting <==> Waiting(rows, u)
  {
    var within := Grantable(rows, caller);
    forall w | w in rows.workspaces ensures w.id in within {
      AdminMeans(rows, caller, w.id);
    }
    NoAccessIff(rows, rows.workspaces, u, within);
  }

  /** Whoever else looks, an account that waits shows as waiting. */
  lemma {:induction false} WaitingIsNeverHidden(rows: Rows, within: set<nat>, notes: map<nat, string>, u: User)
    requires Waiting(rows, u)
    ensures ViewOf(rows, within, notes, u).status == IsWaiting
  {
    NoAccessIff(rows, rows.workspaces, u, within);
  }

  lemma {:induction false} FoundIsThere(workspaces: seq<Workspace>, id: nat)
    ensures FindWorkspace(workspaces, id).Some? ==>
              FindWorkspace(workspaces, id).value in workspaces && FindWorkspace(workspaces, id).value.id == id
  {
    if workspaces != [] {
      FoundIsThere(workspaces[1..], id);
      assert workspaces == [workspaces[0]] + workspaces[1..];
    }
  }

  /** Every account a mapping counts as seen is listed on the users page with that group as a
      source in that workspace. */
  lemma {:induction false} SeenIsListed(rows: Rows, within: set<nat>, notes: map<nat, string>, g: GroupGrant, u: User)
    requires g in rows.groupGrants && MappingOf(rows, within, g).Some? && SeenIn(u, g.group)
    ensures exists w, held ::
              && (w, held) in ViewOf(rows, within, notes, u).access
              && w.id == g.workspace
              && Group(g.group, g.role) in held.sources
  {
    var w := FindWorkspace(rows.workspaces, g.workspace).value;
    FoundIsThere(rows.workspaces, g.workspace);
    assert Granted(rows, u, w.id, Group(g.group, g.role));
    EffectiveMeans(rows, u, w.id);
    var held := Effective(rows, u, w.id).value;
    AccessInHolds(rows, rows.workspaces, u, within, w, held);
    assert (w, held) in ViewOf(rows, within, notes, u).access;
  }

  lemma {:induction false} ViewOrderIsOrder(lowered: string -> string)
    ensures IsOrder(ViewOrder(lowered))
  {
    var le := ViewOrder(lowered);
    forall a, b ensures le(a, b) || le(b, a) {
      TextLeTotal(lowered(a.name), lowered(b.name));
    }
    forall a, b, c | le(a, b) && le(b, c) ensures le(a, c) {
      if a.status.IsWaiting? == b.status.IsWaiting? == c.status.IsWaiting? {
        TextLeTransitive(lowered(a.name), lowered(b.name), lowered(c.name));
      }
    }
  }

  /** The users page lists every account's view once, those who wait first and then by name. */
  lemma {:induction false} UsersPageListsEveryone(
    rows: Rows, within: set<nat>, notes: map<nat, string>, lowered: string -> string)
    ensures multiset(UsersPage(rows, within, notes, lowered)) == multiset(ViewsOf(rows, within, rows.users, notes))
    ensures Sorted(UsersPage(rows, within, notes, lowered), ViewOrder(lowered))
  {
    ViewOrderIsOrder(lowered);
    SortPermutes(ViewsOf(rows, within, rows.users, notes), ViewOrder(lowered));
    SortSorts(ViewsOf(rows, within, rows.users, notes), ViewOrder(lowered));
  }
}
