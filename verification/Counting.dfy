/** How many values of a map are of a kind. */
module Counting {

  function Count<K, V>(m: map<K, V>, kind: V -> bool): nat {
    |set k | k in m && kind(m[k])|
  }

  /** One entry written changes a count by at most that entry. */
  lemma {:induction false} CountUpdate<K, V>(m: map<K, V>, kind: V -> bool, k: K, v: V)
    ensures Count(m[k := v], kind) ==
            Count(m, kind)
            - (if k in m && kind(m[k]) then 1 else 0)
            + (if kind(v) then 1 else 0)
  {
    var m' := m[k := v];
    var before := set x | x in m && kind(m[x]);
    var after := set x | x in m' && kind(m'[x]);
    assert forall x :: x in after <==> if x == k then kind(v) else x in before;
    if kind(v) {
      assert after == before + {k};
    } else {
      assert after == before - {k};
    }
  }

  lemma {:induction false} CountRemove<K, V>(m: map<K, V>, kind: V -> bool, k: K)
    ensures Count(m - {k}, kind) == Count(m, kind) - (if k in m && kind(m[k]) then 1 else 0)
  {
    var m' := m - {k};
    var before := set x | x in m && kind(m[x]);
    var after := set x | x in m' && kind(m'[x]);
    assert after == before - {k};
  }

  lemma {:induction false} SubsetSize<T>(a: set<T>, b: set<T>)
    requires a <= b
    ensures |a| <= |b|
  {
    assert b == a + (b - a);
  }

  /** A narrower kind is no more numerous. */
  lemma {:induction false} CountNarrower<K, V(!new)>(m: map<K, V>, kind: V -> bool, wider: V -> bool)
    requires forall v :: kind(v) ==> wider(v)
    ensures Count(m, kind) <= Count(m, wider)
  {
    SubsetSize(set k | k in m && kind(m[k]), set k | k in m && wider(m[k]));
  }

  lemma {:induction false} CountAlike<K, V>(m: map<K, V>, kind: V -> bool, other: V -> bool)
    requires forall k :: k in m ==> kind(m[k]) == other(m[k])
    ensures Count(m, kind) == Count(m, other)
  {
    assert (set k | k in m && kind(m[k])) == (set k | k in m && other(m[k]));
  }

  /** A kind and its complement within a wider one add up to it. */
  lemma {:induction false} CountSplit<K, V(!new)>(m: map<K, V>, kind: V -> bool, rest: V -> bool, wider: V -> bool)
    requires forall v :: wider(v) <==> kind(v) || rest(v)
    requires forall v :: !(kind(v) && rest(v))
    ensures Count(m, wider) == Count(m, kind) + Count(m, rest)
  {
    var a := set k | k in m && kind(m[k]);
    var b := set k | k in m && rest(m[k]);
    assert (set k | k in m && wider(m[k])) == a + b;
    assert a !! b;
  }

  lemma {:induction false} CountNone<K, V>(m: map<K, V>, kind: V -> bool)
    requires forall k :: k in m ==> !kind(m[k])
    ensures Count(m, kind) == 0
  {
    assert (set k | k in m && kind(m[k])) == {};
  }

  lemma {:induction false} CountSome<K, V>(m: map<K, V>, kind: V -> bool, k: K)
    requires k in m && kind(m[k])
    ensures Count(m, kind) > 0
  {
    var those := set x | x in m && kind(m[x]);
    assert k in those;
  }
}
