/** Who holds which role in which workspace, computed from rows. */
module Access {
  import opened Sorting
  import opened Wrappers

  /** In rising order: each can do everything the one before it can. */
  datatype Role = Viewer | Editor | Admin

  function Rank(r: Role): nat {
    match r
    case Viewer => 0
    case Editor => 1
    case Admin => 2
  }

  /** Why someone holds a role, and the role that one grant gives. */
  datatype Source = Superuser(role: Role) | Direct(role: Role) | Group(name: string, role: Role)

  datatype User = User(
    id: nat, name: string, local: bool, superuser: bool, disabled: bool, groups: seq<string>,
    lastSignIn: Option<int>, mustChangePassword: bool)

  datatype Workspace = Workspace(id: nat, name: string)

  datatype Grant = Grant(user: nat, workspace: nat, role: Role)

  datatype GroupGrant = GroupGrant(group: string, workspace: nat, role: Role)

  datatype Rows = Rows(
    users: seq<User>, workspaces: seq<Workspace>, grants: seq<Grant>, groupGrants: seq<GroupGrant>)

  datatype Held = Held(role: Role, sources: seq<Source>)

  // The order sources are listed in: as declared, groups by name, then by role.

  function Place(s: Source): nat {
    match s
    case Superuser(_) => 0
    case Direct(_) => 1
    case Group(_, _) => 2
  }

  function NameOf(s: Source): string {
    if s.Group? then s.name else ""
  }

  predicate SourceLe(a: Source, b: Source) {
    || Place(a) < Place(b)
    || (Place(a) == Place(b) && NameOf(a) != NameOf(b) && TextLe(NameOf(a), NameOf(b)))
    || (Place(a) == Place(b) && NameOf(a) == NameOf(b) && Rank(a.role) <= Rank(b.role))
  }

  lemma SourceLeTotal(a: Source, b: Source)
    ensures SourceLe(a, b) || SourceLe(b, a)
    ensures SourceLe(a, b) && SourceLe(b, a) ==> a == b
  {
    TextLeTotal(NameOf(a), NameOf(b));
  }

  lemma SourceLeTransitive(a: Source, b: Source, c: Source)
    requires SourceLe(a, b) && SourceLe(b, c)
    ensures SourceLe(a, c)
  {
    if Place(a) == Place(b) == Place(c) && NameOf(a) != NameOf(b) && NameOf(b) != NameOf(c) {
      TextLeTransitive(NameOf(a), NameOf(b), NameOf(c));
      TextLeTotal(NameOf(a), NameOf(b));
    }
  }

  lemma SourceOrder()
    ensures IsStrict(SourceLe)
  {
    forall a, b ensures (SourceLe(a, b) || SourceLe(b, a)) && (SourceLe(a, b) && SourceLe(b, a) ==> a == b) {
      SourceLeTotal(a, b);
    }
    forall a, b, c | SourceLe(a, b) && SourceLe(b, c) ensures SourceLe(a, c) {
      SourceLeTransitive(a, b, c);
    }
  }

  // Effective roles.

  predicate DirectTo(user: User, workspace: nat, g: Grant) {
    g.user == user.id && g.workspace == workspace
  }

  predicate MappedTo(user: User, workspace: nat, g: GroupGrant) {
    g.workspace == workspace && g.group in user.groups
  }

  function DirectSources(grants: seq<Grant>, user: User, workspace: nat): seq<Source> {
    if grants == [] then []
    else
      (if DirectTo(user, workspace, grants[0]) then [Direct(grants[0].role)] else []) +
      DirectSources(grants[1..], user, workspace)
  }

  function GroupSources(grants: seq<GroupGrant>, user: User, workspace: nat): seq<Source> {
    if grants == [] then []
    else
      (if MappedTo(user, workspace, grants[0]) then [Group(grants[0].group, grants[0].role)] else []) +
      GroupSources(grants[1..], user, workspace)
  }

  /** Every grant that gives `user` a role in `workspace`, as the rows list them. */
  function Sources(rows: Rows, user: User, workspace: nat): seq<Source> {
    (if user.superuser then [Superuser(Admin)] else []) +
    DirectSources(rows.grants, user, workspace) +
    GroupSources(rows.groupGrants, user, workspace)
  }

  function Highest(sources: seq<Source>): (r: Role)
    requires sources != []
    ensures exists i :: 0 <= i < |sources| && sources[i].role == r
    ensures forall i :: 0 <= i < |sources| ==> Rank(sources[i].role) <= Rank(r)
  {
    if |sources| == 1 then sources[0].role
    else
      var rest := Highest(sources[1..]);
      if Rank(rest) < Rank(sources[0].role) then sources[0].role
      else
        assert forall i :: 1 <= i < |sources| ==> sources[i] == sources[1..][i - 1];
        assert exists i :: 0 <= i < |sources[1..]| && sources[1..][i].role == rest && sources[i + 1].role == rest;
        rest
  }

  function Effective(rows: Rows, user: User, workspace: nat): Option<Held> {
    var sources := Sources(rows, user, workspace);
    if user.disabled || sources == [] then None
    else Some(Held(Highest(sources), Dedup(SortBy(sources, SourceLe))))
  }

  method PushDirect(grants: seq<Grant>, user: User, workspace: nat) returns (sources: seq<Source>)
    ensures sources == DirectSources(grants, user, workspace)
  {
    sources := [];
    for i := 0 to |grants|
      invariant sources + DirectSources(grants[i..], user, workspace) == DirectSources(grants, user, workspace)
    {
      assert grants[i..][1..] == grants[i + 1..];
      if DirectTo(user, workspace, grants[i]) {
        sources := sources + [Direct(grants[i].role)];
      }
    }
  }

  method PushMapped(grants: seq<GroupGrant>, user: User, workspace: nat) returns (sources: seq<Source>)
    ensures sources == GroupSources(grants, user, workspace)
  {
    sources := [];
    for i := 0 to |grants|
      invariant sources + GroupSources(grants[i..], user, workspace) == GroupSources(grants, user, workspace)
    {
      assert grants[i..][1..] == grants[i + 1..];
      if MappedTo(user, workspace, grants[i]) {
        sources := sources + [Group(grants[i].group, grants[i].role)];
      }
    }
  }

  /** Pushes every source, then sorts them and removes repeats. */
  method ComputeEffective(rows: Rows, user: User, workspace: nat) returns (held: Option<Held>)
    ensures held == Effective(rows, user, workspace)
  {
    if user.disabled {
      return None;
    }
    var sources := if user.superuser then [Superuser(Admin)] else [];
    var direct := PushDirect(rows.grants, user, workspace);
    var mapped := PushMapped(rows.groupGrants, user, workspace);
    sources := sources + direct + mapped;
    if sources == [] {
      return None;
    }
    var role := Highest(sources);
    sources := SortBy(sources, SourceLe);
    sources := Dedup(sources);
    return Some(Held(role, sources));
  }

  // What the sources mean.

  ghost predicate GrantsDirectly(rows: Rows, user: User, workspace: nat, role: Role) {
    Grant(user.id, workspace, role) in rows.grants
  }

  ghost predicate GrantsToGroup(rows: Rows, user: User, workspace: nat, group: string, role: Role) {
    group in user.groups && GroupGrant(group, workspace, role) in rows.groupGrants
  }

  /** `s` is a grant that the rows hold for `user` in `workspace`. */
  ghost predicate Granted(rows: Rows, user: User, workspace: nat, s: Source) {
    match s
    case Superuser(role) => user.superuser && role == Admin
    case Direct(role) => GrantsDirectly(rows, user, workspace, role)
    case Group(name, role) => GrantsToGroup(rows, user, workspace, name, role)
  }

  lemma {:induction false} DirectSourcesHold(grants: seq<Grant>, user: User, workspace: nat, s: Source)
    ensures s in DirectSources(grants, user, workspace) <==>
            s.Direct? && Grant(user.id, workspace, s.role) in grants
  {
    if grants != [] {
      DirectSourcesHold(grants[1..], user, workspace, s);
      assert grants == [grants[0]] + grants[1..];
    }
  }

  lemma {:induction false} GroupSourcesHold(grants: seq<GroupGrant>, user: User, workspace: nat, s: Source)
    ensures s in GroupSources(grants, user, workspace) <==>
            s.Group? && s.name in user.groups && GroupGrant(s.name, workspace, s.role) in grants
  {
    if grants != [] {
      GroupSourcesHold(grants[1..], user, workspace, s);
      assert grants == [grants[0]] + grants[1..];
    }
  }

  lemma {:induction false} SourcesHold(rows: Rows, user: User, workspace: nat, s: Source)
    ensures s in Sources(rows, user, workspace) <==> Granted(rows, user, workspace, s)
  {
    DirectSourcesHold(rows.grants, user, workspace, s);
    GroupSourcesHold(rows.groupGrants, user, workspace, s);
  }

  /** A role is held exactly by an enabled account with some grant; it is the highest any grant
      gives; and the sources listed are exactly the grants, in order, each once. */
  lemma {:induction false} EffectiveMeans(rows: Rows, user: User, workspace: nat)
    ensures
      var held := Effective(rows, user, workspace);
      && (held.Some? <==> !user.disabled && exists s :: Granted(rows, user, workspace, s))
      && (held.Some? ==>
            && Rising(held.value.sources, SourceLe)
            && (forall s :: s in held.value.sources <==> Granted(rows, user, workspace, s))
            && (exists s :: Granted(rows, user, workspace, s) && s.role == held.value.role)
            && (forall s :: Granted(rows, user, workspace, s) ==> Rank(s.role) <= Rank(held.value.role)))
  {
    var sources := Sources(rows, user, workspace);
    forall s ensures s in sources <==> Granted(rows, user, workspace, s) {
      SourcesHold(rows, user, workspace, s);
    }
    if sources != [] {
      assert sources[0] in sources;
      SourceOrder();
      SortSorts(sources, SourceLe);
      DedupRises(SortBy(sources, SourceLe), SourceLe);
      forall s ensures s in Dedup(SortBy(sources, SourceLe)) <==> s in sources {
        DedupHolds(SortBy(sources, SourceLe), s);
        SortHolds(sources, SourceLe, s);
      }
      var i :| 0 <= i < |sources| && sources[i].role == Highest(sources);
      assert Granted(rows, user, workspace, sources[i]);
    }
  }

  /** Rows that hold the same grants for `user` in `workspace` give the same role and sources,
      whatever order the grants are in and whatever else the rows hold. */
  lemma {:induction false} EffectiveDependsOnGrants(rows: Rows, other: Rows, user: User, workspace: nat)
    requires forall s :: Granted(rows, user, workspace, s) <==> Granted(other, user, workspace, s)
    ensures Effective(rows, user, workspace) == Effective(other, user, workspace)
  {
    EffectiveMeans(rows, user, workspace);
    EffectiveMeans(other, user, workspace);
    if Effective(rows, user, workspace).Some? {
      var a, b := Effective(rows, user, workspace).value, Effective(other, user, workspace).value;
      SourceOrder();
      RisingIsUnique(a.sources, b.sources, SourceLe);
      var s :| Granted(rows, user, workspace, s) && s.role == a.role;
      var t :| Granted(other, user, workspace, t) && t.role == b.role;
      assert Rank(a.role) == Rank(b.role);
    }
  }

  /** Nothing subtracts: with more grants, an account holds at least what it held. */
  lemma {:induction false} MoreGrantsNeverLess(rows: Rows, more: Rows, user: User, workspace: nat)
    requires forall g :: g in rows.grants ==> g in more.grants
    requires forall g :: g in rows.groupGrants ==> g in more.groupGrants
    requires Effective(rows, user, workspace).Some?
    ensures Effective(more, user, workspace).Some?
    ensures Rank(Effective(rows, user, workspace).value.role) <= Rank(Effective(more, user, workspace).value.role)
  {
    EffectiveMeans(rows, user, workspace);
    EffectiveMeans(more, user, workspace);
    var s :| Granted(rows, user, workspace, s) && s.role == Effective(rows, user, workspace).value.role;
    assert Granted(more, user, workspace, s);
  }

  // Workspaces.

  predicate IsAdminOf(rows: Rows, user: User, workspace: nat) {
    var held := Effective(rows, user, workspace);
    held.Some? && held.value.role == Admin
  }

  /** The workspaces where `caller` is admin. */
  function Grantable(rows: Rows, caller: User): set<nat> {
    set w | w in rows.workspaces && IsAdminOf(rows, caller, w.id) :: w.id
  }

  /** Enabled, not a superuser, and reaching nothing. */
  predicate Waiting(rows: Rows, user: User) {
    && !user.disabled
    && !user.superuser
    && forall w :: w in rows.workspaces ==> Effective(rows, user, w.id).None?
  }

  /** `user`'s access in `within` only, in workspace order. */
  function AccessIn(rows: Rows, workspaces: seq<Workspace>, user: User, within: set<nat>): seq<(Workspace, Held)> {
    if workspaces == [] then []
    else
      var held := if workspaces[0].id in within then Effective(rows, user, workspaces[0].id) else None;
      (if held.Some? then [(workspaces[0], held.value)] else []) +
      AccessIn(rows, workspaces[1..], user, within)
  }

  /** The admins of a workspace, spelled out: an enabled account that is a superuser or has an
      admin grant there, its own or its group's. */
  lemma {:induction false} AdminMeans(rows: Rows, user: User, workspace: nat)
    ensures IsAdminOf(rows, user, workspace) <==>
            && !user.disabled
            && (|| user.superuser
                || GrantsDirectly(rows, user, workspace, Admin)
                || exists g :: GrantsToGroup(rows, user, workspace, g, Admin))
  {
    EffectiveMeans(rows, user, workspace);
    if !user.disabled {
      if user.superuser {
        assert Granted(rows, user, workspace, Superuser(Admin));
      } else if GrantsDirectly(rows, user, workspace, Admin) {
        assert Granted(rows, user, workspace, Direct(Admin));
      } else if g :| GrantsToGroup(rows, user, workspace, g, Admin) {
        assert Granted(rows, user, workspace, Group(g, Admin));
      }
      if IsAdminOf(rows, user, workspace) {
        var s :| Granted(rows, user, workspace, s) && s.role == Admin;
        if s.Group? {
          assert GrantsToGroup(rows, user, workspace, s.name, Admin);
        }
      }
    }
  }

  /** What the lists of access say: every workspace in reach where a role is held, and no other. */
  lemma {:induction false} AccessInHolds(
    rows: Rows, workspaces: seq<Workspace>, user: User, within: set<nat>, w: Workspace, held: Held)
    ensures (w, held) in AccessIn(rows, workspaces, user, within) <==>
            w in workspaces && w.id in within && Effective(rows, user, w.id) == Some(held)
  {
    if workspaces != [] {
      AccessInHolds(rows, workspaces[1..], user, within, w, held);
      assert workspaces == [workspaces[0]] + workspaces[1..];
    }
  }

  /** Where the rows agree inside `within`, so does the access listed there. */
  lemma {:induction false} AccessInDependsOn(
    rows: Rows, other: Rows, workspaces: seq<Workspace>, user: User, within: set<nat>)
    requires forall w :: w in within ==> Effective(rows, user, w) == Effective(other, user, w)
    ensures AccessIn(rows, workspaces, user, within) == AccessIn(other, workspaces, user, within)
  {
    if workspaces != [] {
      AccessInDependsOn(rows, other, workspaces[1..], user, within);
    }
  }

  // The order of roles and of sources, written out.

  ghost predicate Gives(rows: Rows, user: User, workspace: nat, role: Role) {
    exists s :: Granted(rows, user, workspace, s) && s.role == role
  }

  /** An enabled account is an admin if any grant makes it one, else an editor if any does, else a
      viewer if any does. */
  lemma {:induction false} RoleMeans(rows: Rows, user: User, workspace: nat)
    ensures
      var held := Effective(rows, user, workspace);
      var viewer, editor, admin :=
        Gives(rows, user, workspace, Viewer), Gives(rows, user, workspace, Editor), Gives(rows, user, workspace, Admin);
      && (held.Some? && held.value.role == Admin <==> !user.disabled && admin)
      && (held.Some? && held.value.role == Editor <==> !user.disabled && editor && !admin)
      && (held.Some? && held.value.role == Viewer <==> !user.disabled && viewer && !editor && !admin)
  {
    EffectiveMeans(rows, user, workspace);
    if s :| Granted(rows, user, workspace, s) {
      assert Gives(rows, user, workspace, s.role);
    }
  }

  predicate Below(a: Role, b: Role) {
    (a == Viewer && b != Viewer) || (a == Editor && b == Admin)
  }

  /** The superuser first, then what was given directly, then groups by name; of one group, the lower
      role. */
  predicate ComesBefore(a: Source, b: Source) {
    match (a, b)
    case (Superuser(_), Superuser(_)) => Below(a.role, b.role)
    case (Superuser(_), _) => true
    case (Direct(_), Direct(_)) => Below(a.role, b.role)
    case (Direct(_), Group(_, _)) => true
    case (Group(x, _), Group(y, _)) => if x == y then Below(a.role, b.role) else TextLe(x, y)
    case _ => false
  }

  lemma {:induction false} RisingApart<T(!new)>(s: seq<T>, le: (T, T) -> bool, i: nat, j: nat)
    requires IsStrict(le) && Rising(s, le) && i < j < |s|
    ensures le(s[i], s[j]) && s[i] != s[j]
  {
    if i > 0 {
      RisingApart(s[1..], le, i - 1, j - 1);
    } else if j > 1 {
      RisingApart(s[1..], le, 0, j - 1);
    }
  }

  lemma {:induction false} SourcesComeInOrder(rows: Rows, user: User, workspace: nat, i: nat, j: nat)
    requires
      var held := Effective(rows, user, workspace);
      held.Some? && i < j < |held.value.sources|
    ensures
      var sources := Effective(rows, user, workspace).value.sources;
      ComesBefore(sources[i], sources[j])
  {
    EffectiveMeans(rows, user, workspace);
    SourceOrder();
    RisingApart(Effective(rows, user, workspace).value.sources, SourceLe, i, j);
  }
}
