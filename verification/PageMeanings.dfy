/** What the admin pages show of each account, and what their counts count. */
module PageMeanings {
  import opened Access
  import opened AdminPages
  import opened Sorting
  import opened Wrappers

  // Accounts.

  /** `u` holds `role` in some workspace of `within`, whoever gave it to them. */
  ghost predicate HoldsIn(rows: Rows, within: set<nat>, u: User, role: Role) {
    exists w :: w in rows.workspaces && w.id in within && HeldRole(rows, u, w.id) == Some(role)
  }

  function HeldRole(rows: Rows, u: User, workspace: nat): Option<Role> {
    match Effective(rows, u, workspace)
    case None => None
    case Some(held) => Some(held.role)
  }

  lemma {:induction false} RolesInAre(rows: Rows, within: set<nat>, u: User, role: Role)
    ensures role in RolesIn(AccessIn(rows, rows.workspaces, u, within)) <==> HoldsIn(rows, within, u, role)
  {
    var access := AccessIn(rows, rows.workspaces, u, within);
    if role in RolesIn(access) {
      var i :| 0 <= i < |access| && access[i].1.role == role;
      assert (access[i].0, access[i].1) in access;
      AccessInHolds(rows, rows.workspaces, u, within, access[i].0, access[i].1);
    }
    if HoldsIn(rows, within, u, role) {
      var w :| w in rows.workspaces && w.id in within && HeldRole(rows, u, w.id) == Some(role);
      var held := Effective(rows, u, w.id).value;
      AccessInHolds(rows, rows.workspaces, u, within, w, held);
      assert (w, held) in access;
    }
  }

  /** Who a count of the roles page counts. */
  ghost function Holders(rows: Rows, within: set<nat>, role: Role): User -> bool {
    (u: User) => !u.disabled && !u.superuser && HoldsIn(rows, within, u, role)
  }

  const SUPERUSERS: User -> bool := (u: User) => !u.disabled && u.superuser

  lemma {:induction false} FilterLast<T>(s: seq<T>, keep: T -> bool)
    requires s != []
    ensures |Filter(s, keep)| == |Filter(s[..|s| - 1], keep)| + if keep(s[|s| - 1]) then 1 else 0
  {
    var front, last := s[..|s| - 1], s[|s| - 1];
    assert s == front + [last];
    FilterJoined(front, [last], keep);
    assert [last][1..] == [];
  }

  /** Each count is the number of enabled accounts that hold the role in some workspace of `within` and
      are no superusers, and of enabled superusers. */
  lemma {:induction false} CountsMean(rows: Rows, within: set<nat>, users: seq<User>)
    ensures
      var h := HeldByAll(rows, within, users);
      && h.viewer == |Filter(users, Holders(rows, within, Viewer))|
      && h.editor == |Filter(users, Holders(rows, within, Editor))|
      && h.admin == |Filter(users, Holders(rows, within, Admin))|
      && h.superuser == |Filter(users, SUPERUSERS)|
  {
    if users != [] {
      var last := users[|users| - 1];
      CountsMean(rows, within, users[..|users| - 1]);
      FilterLast(users, Holders(rows, within, Viewer));
      FilterLast(users, Holders(rows, within, Editor));
      FilterLast(users, Holders(rows, within, Admin));
      FilterLast(users, SUPERUSERS);
      RolesInAre(rows, within, last, Viewer);
      RolesInAre(rows, within, last, Editor);
      RolesInAre(rows, within, last, Admin);
    }
  }

  /** An account shows as disabled if and only if it is, as waiting if and only if it is enabled, no
      superuser and holds no role in the caller's workspaces, and else as active. */
  ghost predicate StatusMeans(rows: Rows, within: set<nat>, u: User, status: Status) {
    && (status == Disabled <==> u.disabled)
    && (status == IsWaiting <==> !u.disabled && !u.superuser && forall role :: !HoldsIn(rows, within, u, role))
    && (status == Active <==> !u.disabled && (u.superuser || exists role :: HoldsIn(rows, within, u, role)))
  }

  ghost function Reached(rows: Rows, within: set<nat>, u: User): Workspace -> bool {
    (w: Workspace) => w.id in within && Effective(rows, u, w.id).Some?
  }

  /** The workspaces of `within` the account holds a role in, in order, each with what it holds. */
  ghost predicate AccessMeans(
    rows: Rows, workspaces: seq<Workspace>, within: set<nat>, u: User, access: seq<(Workspace, Held)>)
  {
    var reached := Filter(workspaces, Reached(rows, within, u));
    && |access| == |reached|
    && forall i :: 0 <= i < |access| ==>
         access[i].0 == reached[i] && Effective(rows, u, reached[i].id) == Some(access[i].1)
  }

  lemma {:induction false} AccessIsMeant(rows: Rows, workspaces: seq<Workspace>, within: set<nat>, u: User)
    ensures AccessMeans(rows, workspaces, within, u, AccessIn(rows, workspaces, u, within))
  {
    if workspaces != [] {
      AccessIsMeant(rows, workspaces[1..], within, u);
    }
  }

  ghost predicate Shows(rows: Rows, within: set<nat>, u: User, note: Option<string>, view: UserView) {
    && view.id == u.id && view.name == u.name && view.local == u.local && view.superuser == u.superuser
    && view.mustChangePassword == u.mustChangePassword && view.lastSignIn == u.lastSignIn && view.note == note
    && StatusMeans(rows, within, u, view.status) && AccessMeans(rows, rows.workspaces, within, u, view.access)
  }

  lemma {:induction false} ViewShows(rows: Rows, within: set<nat>, notes: map<nat, string>, u: User)
    ensures Shows(
              rows, within, u, if u.id in notes then Some(notes[u.id]) else None, ViewOf(rows, within, notes, u))
  {
    NoAccessIff(rows, rows.workspaces, u, within);
    if w :| w in rows.workspaces && w.id in within && Effective(rows, u, w.id).Some? {
      assert HoldsIn(rows, within, u, Effective(rows, u, w.id).value.role);
    }
    AccessIsMeant(rows, rows.workspaces, within, u);
  }

  /** The note an account left when it signed up, shown with it once. */
  ghost function NoteOf(users: seq<User>, notes: map<nat, string>, i: nat): Option<string>
    requires i < |users|
  {
    if users[i].id in notes && forall j :: 0 <= j < i ==> users[j].id != users[i].id
    then Some(notes[users[i].id]) else None
  }

  /** Every account is shown, in its place, as what it is. */
  lemma {:induction false} EveryViewShows(rows: Rows, within: set<nat>, users: seq<User>, notes: map<nat, string>)
    ensures
      var views := ViewsOf(rows, within, users, notes);
      && |views| == |users|
      && forall i :: 0 <= i < |users| ==> Shows(rows, within, users[i], NoteOf(users, notes, i), views[i])
  {
    if users != [] {
      var views, rest, left := ViewsOf(rows, within, users, notes), users[1..], notes - {users[0].id};
      EveryViewShows(rows, within, rest, left);
      ViewShows(rows, within, notes, users[0]);
      forall i | 1 <= i < |users| ensures Shows(rows, within, users[i], NoteOf(users, notes, i), views[i]) {
        assert users[i] == rest[i - 1] && views[i] == ViewsOf(rows, within, rest, left)[i - 1];
        NoteOfRest(users, notes, i);
      }
    }
  }

  lemma {:induction false} NoteOfRest(users: seq<User>, notes: map<nat, string>, i: nat)
    requires 1 <= i < |users|
    ensures NoteOf(users, notes, i) == NoteOf(users[1..], notes - {users[0].id}, i - 1)
  {
    var rest := users[1..];
    assert forall j :: 0 <= j < |rest| ==> rest[j] == users[j + 1];
    if forall j :: 0 <= j < i - 1 ==> rest[j].id != users[i].id {
      assert forall j :: 1 <= j < i ==> users[j] == rest[j - 1];
    }
  }

  // Mappings.

  /** A mapping on a workspace there is, of those in `within`. */
  predicate IsShown(rows: Rows, within: set<nat>, g: GroupGrant) {
    g.workspace in within && exists w :: w in rows.workspaces && w.id == g.workspace
  }

  ghost function Shown(rows: Rows, within: set<nat>): GroupGrant -> bool {
    (g: GroupGrant) => IsShown(rows, within, g)
  }

  /** The first workspace with that id. */
  ghost predicate IsFirst(workspaces: seq<Workspace>, id: nat, w: Workspace) {
    w.id == id &&
    exists i :: 0 <= i < |workspaces| && workspaces[i] == w && forall j :: 0 <= j < i ==> workspaces[j].id != id
  }

  ghost predicate ShowsMapping(rows: Rows, g: GroupGrant, view: MappingView) {
    && view.group == g.group && view.workspaceId == g.workspace && view.role == g.role
    && (exists w :: IsFirst(rows.workspaces, g.workspace, w) && view.workspace == w.name)
    && view.seen == |Filter(rows.users, (u: User) => !u.disabled && g.group in u.groups)|
  }

  lemma {:induction false} FindIff(workspaces: seq<Workspace>, id: nat)
    ensures FindWorkspace(workspaces, id).Some? <==> exists w :: w in workspaces && w.id == id
    ensures FindWorkspace(workspaces, id).Some? ==> IsFirst(workspaces, id, FindWorkspace(workspaces, id).value)
  {
    if workspaces != [] {
      var rest := workspaces[1..];
      FindIff(rest, id);
      assert workspaces == [workspaces[0]] + rest;
      if workspaces[0].id != id && FindWorkspace(rest, id).Some? {
        var w := FindWorkspace(rest, id).value;
        var i :| 0 <= i < |rest| && rest[i] == w && forall j :: 0 <= j < i ==> rest[j].id != id;
        assert workspaces[i + 1] == w;
        assert forall j :: 1 <= j < i + 1 ==> workspaces[j] == rest[j - 1];
      }
    }
  }

  lemma {:induction false} FilterAlike<T>(s: seq<T>, keep: T -> bool, other: T -> bool)
    requires forall x :: x in s ==> keep(x) == other(x)
    ensures Filter(s, keep) == Filter(s, other)
  {
    if s != [] {
      assert s[0] in s;
      assert forall x :: x in s[1..] ==> x in s;
      FilterAlike(s[1..], keep, other);
    }
  }

  lemma {:induction false} MappingShows(rows: Rows, within: set<nat>, g: GroupGrant)
    ensures MappingOf(rows, within, g).Some? <==> IsShown(rows, within, g)
    ensures MappingOf(rows, within, g).Some? ==> ShowsMapping(rows, g, MappingOf(rows, within, g).value)
  {
    FindIff(rows.workspaces, g.workspace);
    FilterAlike(
      rows.users, (u: User) => SeenIn(u, g.group), (u: User) => !u.disabled && g.group in u.groups);
  }

  /** The mappings shown are those on workspaces of `within`, each with its workspace's name, its role
      and the number of enabled accounts in its group. */
  lemma {:induction false} EveryMappingShows(rows: Rows, within: set<nat>, grants: seq<GroupGrant>)
    ensures
      var shown, views := Filter(grants, Shown(rows, within)), MappingsOf(rows, within, grants);
      |views| == |shown| && forall i :: 0 <= i < |shown| ==> ShowsMapping(rows, shown[i], views[i])
  {
    if grants != [] {
      EveryMappingShows(rows, within, grants[1..]);
      MappingShows(rows, within, grants[0]);
    }
  }

  lemma {:induction false} MappingLeIsOrder()
    ensures IsOrder(MappingLe)
  {
    forall a, b ensures MappingLe(a, b) || MappingLe(b, a) {
      TextLeTotal(a.workspace, b.workspace);
      TextLeTotal(a.group, b.group);
    }
    forall a, b, c | MappingLe(a, b) && MappingLe(b, c) ensures MappingLe(a, c) {
      if a.workspace == b.workspace == c.workspace {
        TextLeTransitive(a.group, b.group, c.group);
      } else {
        TextLeTotal(b.workspace, b.workspace);
        TextLeTransitive(a.workspace, b.workspace, c.workspace);
        TextLeTotal(a.workspace, b.workspace);
      }
    }
  }

  /** The roles page lists them by workspace, then by group. */
  lemma {:induction false} RolesPageListsEveryMapping(rows: Rows, within: set<nat>)
    ensures
      var page := RolesPage(rows, within);
      && multiset(page.mappings) == multiset(MappingsOf(rows, within, rows.groupGrants))
      && Sorted(page.mappings, MappingLe)
  {
    MappingLeIsOrder();
    SortPermutes(MappingsOf(rows, within, rows.groupGrants), MappingLe);
    SortSorts(MappingsOf(rows, within, rows.groupGrants), MappingLe);
  }
}
