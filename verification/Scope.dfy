/** Which namespaces a session's groups may read, and why the groups kept in it are enough. */
module Scope {
  import opened Sorting

  datatype Visible = AllNamespaces | Only(namespaces: set<string>)

  /** The namespaces each group is granted. */
  type Mapping = map<string, seq<string>>

  function Granted(mapping: Mapping, group: string): seq<string> {
    if group in mapping then mapping[group] else []
  }

  /** Some group held is granted `namespace`. */
  predicate IsGranted(groups: seq<string>, mapping: Mapping, namespace: string) {
    exists i :: 0 <= i < |groups| && namespace in Granted(mapping, groups[i])
  }

  /** What the groups may read, whatever order they are looked at in: everything when one of them is
      granted `*`, and otherwise what any of them is granted. */
  ghost predicate Means(visible: Visible, groups: seq<string>, mapping: Mapping) {
    match visible
    case AllNamespaces => IsGranted(groups, mapping, "*")
    case Only(namespaces) =>
      !IsGranted(groups, mapping, "*") && forall n :: n in namespaces <==> IsGranted(groups, mapping, n)
  }

  lemma {:induction false} GrantedOneMore(groups: seq<string>, mapping: Mapping, n: nat, namespace: string)
    requires n < |groups|
    ensures IsGranted(groups[..n + 1], mapping, namespace) <==>
            IsGranted(groups[..n], mapping, namespace) || namespace in Granted(mapping, groups[n])
  {
    var more, fewer := groups[..n + 1], groups[..n];
    if IsGranted(fewer, mapping, namespace) {
      var i :| 0 <= i < |fewer| && namespace in Granted(mapping, fewer[i]);
      assert more[i] == fewer[i];
    }
    if namespace in Granted(mapping, groups[n]) {
      assert more[n] == groups[n];
    }
    if IsGranted(more, mapping, namespace) {
      var i :| 0 <= i < |more| && namespace in Granted(mapping, more[i]);
      assert i < n ==> fewer[i] == more[i];
    }
  }

  /** Walks every grant of every group, and stops at the first `*`. */
  method ComputeVisible(groups: seq<string>, mapping: Mapping) returns (visible: Visible)
    ensures Means(visible, groups, mapping)
  {
    var namespaces := {};
    for i := 0 to |groups|
      invariant Means(Only(namespaces), groups[..i], mapping)
    {
      var granted := Granted(mapping, groups[i]);
      ghost var before := namespaces;
      for j := 0 to |granted|
        invariant forall n :: n in namespaces <==> n in before || n in granted[..j]
        invariant "*" !in granted[..j]
      {
        assert granted[..j + 1] == granted[..j] + [granted[j]];
        if granted[j] == "*" {
          assert granted[j] in Granted(mapping, groups[i]);
          return AllNamespaces;
        }
        namespaces := namespaces + {granted[j]};
      }
      assert granted[..|granted|] == granted;
      forall n ensures IsGranted(groups[..i + 1], mapping, n) <==> IsGranted(groups[..i], mapping, n) || n in granted {
        GrantedOneMore(groups, mapping, i, n);
      }
    }
    assert groups[..|groups|] == groups;
    return Only(namespaces);
  }

  /** There is one answer. */
  lemma {:induction false} MeaningIsUnique(a: Visible, b: Visible, groups: seq<string>, mapping: Mapping)
    requires Means(a, groups, mapping) && Means(b, groups, mapping)
    ensures a == b
  {
    if a.Only? {
      assert forall n :: n in a.namespaces <==> n in b.namespaces;
    }
  }

  /** Only which groups are held matters, not their order or how often each is named. */
  lemma {:induction false} OnlyTheSetMatters(
    visible: Visible, groups: seq<string>, others: seq<string>, mapping: Mapping)
    requires forall g :: g in mapping ==> (g in groups <==> g in others)
    ensures Means(visible, groups, mapping) <==> Means(visible, others, mapping)
  {
    forall n ensures IsGranted(groups, mapping, n) <==> IsGranted(others, mapping, n) {
      GrantedByOthers(groups, others, mapping, n);
      GrantedByOthers(others, groups, mapping, n);
    }
  }

  lemma {:induction false} GrantedByOthers(
    groups: seq<string>, others: seq<string>, mapping: Mapping, namespace: string)
    requires forall g :: g in mapping && g in groups ==> g in others
    ensures IsGranted(groups, mapping, namespace) ==> IsGranted(others, mapping, namespace)
  {
    if IsGranted(groups, mapping, namespace) {
      var i :| 0 <= i < |groups| && namespace in Granted(mapping, groups[i]);
      assert groups[i] in mapping && groups[i] in groups;
      var j :| 0 <= j < |others| && others[j] == groups[i];
    }
  }

  /** The groups a session keeps: those the mapping names, sorted, each once. */
  function MappedGroups(groups: seq<string>, mapping: Mapping): seq<string> {
    Dedup(SortBy(Filter(groups, (g: string) => g in mapping), TextLe))
  }

  lemma TextOrder()
    ensures IsStrict(TextLe)
  {
    forall a, b ensures (TextLe(a, b) || TextLe(b, a)) && (TextLe(a, b) && TextLe(b, a) ==> a == b) {
      TextLeTotal(a, b);
    }
    forall a, b, c | TextLe(a, b) && TextLe(b, c) ensures TextLe(a, c) {
      TextLeTransitive(a, b, c);
    }
  }

  /** The groups kept are exactly the mapped ones held, in rising order. */
  lemma {:induction false} MappedGroupsHold(groups: seq<string>, mapping: Mapping, g: string)
    ensures g in MappedGroups(groups, mapping) <==> g in groups && g in mapping
    ensures Rising(MappedGroups(groups, mapping), TextLe)
  {
    var kept := Filter(groups, (g: string) => g in mapping);
    TextOrder();
    SortSorts(kept, TextLe);
    DedupRises(SortBy(kept, TextLe), TextLe);
    DedupHolds(SortBy(kept, TextLe), g);
    SortHolds(kept, TextLe, g);
    FilterHolds(groups, (g: string) => g in mapping, g);
  }

  /** The reduced groups of a session read exactly what all of the person's groups do. */
  lemma {:induction false} MappedGroupsAreEnough(visible: Visible, groups: seq<string>, mapping: Mapping)
    ensures Means(visible, MappedGroups(groups, mapping), mapping) <==> Means(visible, groups, mapping)
  {
    forall g | g in mapping ensures g in MappedGroups(groups, mapping) <==> g in groups {
      MappedGroupsHold(groups, mapping, g);
    }
    OnlyTheSetMatters(visible, MappedGroups(groups, mapping), groups, mapping);
  }
}
