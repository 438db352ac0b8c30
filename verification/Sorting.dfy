/** Filtering, and the standard library's stable sort and removal of adjacent repeats. */
module Sorting {
  function Filter<T>(s: seq<T>, keep: T -> bool): seq<T> {
    if s == [] then []
    else (if keep(s[0]) then [s[0]] else []) + Filter(s[1..], keep)
  }

  lemma {:induction false} FilterHolds<T>(s: seq<T>, keep: T -> bool, x: T)
    ensures x in Filter(s, keep) <==> x in s && keep(x)
  {
    if s != [] {
      FilterHolds(s[1..], keep, x);
      assert s == [s[0]] + s[1..];
    }
  }

  lemma {:induction false} FilterJoined<T>(a: seq<T>, b: seq<T>, keep: T -> bool)
    ensures Filter(a + b, keep) == Filter(a, keep) + Filter(b, keep)
  {
    if a == [] {
      assert a + b == b;
    } else {
      var head, rest := if keep(a[0]) then [a[0]] else [], Filter(a[1..], keep);
      assert (a + b)[0] == a[0] && (a + b)[1..] == a[1..] + b;
      FilterJoined(a[1..], b, keep);
      assert head + (rest + Filter(b, keep)) == (head + rest) + Filter(b, keep);
    }
  }

  // Sorting.

  function Insert<T>(x: T, s: seq<T>, le: (T, T) -> bool): seq<T> {
    if s == [] || le(x, s[0]) then [x] + s else [s[0]] + Insert(x, s[1..], le)
  }

  /** A stable sort: entries that are equal in the order keep their places. */
  function SortBy<T>(s: seq<T>, le: (T, T) -> bool): seq<T> {
    if s == [] then [] else Insert(s[0], SortBy(s[1..], le), le)
  }

  ghost predicate IsOrder<T(!new)>(le: (T, T) -> bool) {
    && (forall a, b :: le(a, b) || le(b, a))
    && forall a, b, c :: le(a, b) && le(b, c) ==> le(a, c)
  }

  predicate Sorted<T>(s: seq<T>, le: (T, T) -> bool) {
    |s| <= 1 || (le(s[0], s[1]) && Sorted(s[1..], le))
  }

  lemma {:induction false} InsertPermutes<T>(x: T, s: seq<T>, le: (T, T) -> bool)
    ensures multiset(Insert(x, s, le)) == multiset([x] + s)
  {
    if s != [] && !le(x, s[0]) {
      InsertPermutes(x, s[1..], le);
      assert s == [s[0]] + s[1..];
    }
  }

  lemma {:induction false} SortPermutes<T>(s: seq<T>, le: (T, T) -> bool)
    ensures multiset(SortBy(s, le)) == multiset(s)
  {
    if s != [] {
      SortPermutes(s[1..], le);
      InsertPermutes(s[0], SortBy(s[1..], le), le);
      assert s == [s[0]] + s[1..];
    }
  }

  lemma {:induction false} InsertSorts<T(!new)>(x: T, s: seq<T>, le: (T, T) -> bool)
    requires IsOrder(le) && Sorted(s, le)
    ensures Sorted(Insert(x, s, le), le)
  {
    if s != [] && !le(x, s[0]) {
      InsertSorts(x, s[1..], le);
      assert Insert(x, s, le)[1..] == Insert(x, s[1..], le);
    }
  }

  lemma {:induction false} SortSorts<T(!new)>(s: seq<T>, le: (T, T) -> bool)
    requires IsOrder(le)
    ensures Sorted(SortBy(s, le), le)
  {
    if s != [] {
      SortSorts(s[1..], le);
      InsertSorts(s[0], SortBy(s[1..], le), le);
    }
  }

  lemma {:induction false} SortHolds<T>(s: seq<T>, le: (T, T) -> bool, x: T)
    ensures x in SortBy(s, le) <==> x in s
  {
    SortPermutes(s, le);
    assert x in SortBy(s, le) <==> x in multiset(SortBy(s, le));
    assert x in s <==> x in multiset(s);
  }

  // Stability.

  function LikeThis<T>(x: T, le: (T, T) -> bool): T -> bool {
    y => le(x, y) && le(y, x)
  }

  lemma {:induction false} InsertIsStable<T(!new)>(x: T, s: seq<T>, le: (T, T) -> bool, like: T)
    requires IsOrder(le)
    ensures Filter(Insert(x, s, le), LikeThis(like, le)) == Filter([x] + s, LikeThis(like, le))
  {
    var keep := LikeThis(like, le);
    if s != [] && !le(x, s[0]) {
      InsertIsStable(x, s[1..], le, like);
      FilterJoined([s[0]], Insert(x, s[1..], le), keep);
      FilterJoined([s[0]], s[1..], keep);
      FilterJoined([x], s, keep);
      FilterJoined([x], s[1..], keep);
      assert s == [s[0]] + s[1..];
      assert !(keep(x) && keep(s[0]));
    }
  }

  /** Entries that are equal in the order come out as they went in. */
  lemma {:induction false} SortIsStable<T(!new)>(s: seq<T>, le: (T, T) -> bool, like: T)
    requires IsOrder(le)
    ensures Filter(SortBy(s, le), LikeThis(like, le)) == Filter(s, LikeThis(like, le))
  {
    if s != [] {
      SortIsStable(s[1..], le, like);
      InsertIsStable(s[0], SortBy(s[1..], le), le, like);
      FilterJoined([s[0]], SortBy(s[1..], le), LikeThis(like, le));
    }
  }

  // Adjacent repeats.

  function Dedup<T(==)>(s: seq<T>): seq<T> {
    if |s| <= 1 then s else if s[0] == s[1] then Dedup(s[1..]) else [s[0]] + Dedup(s[1..])
  }

  lemma {:induction false} DedupHolds<T>(s: seq<T>, x: T)
    ensures x in Dedup(s) <==> x in s
    ensures s != [] ==> Dedup(s) != [] && Dedup(s)[0] == s[0]
  {
    if |s| > 1 {
      DedupHolds(s[1..], x);
      assert s == [s[0]] + s[1..];
    }
  }

  /** Strictly rising. */
  predicate Rising<T>(s: seq<T>, le: (T, T) -> bool) {
    |s| <= 1 || (le(s[0], s[1]) && !le(s[1], s[0]) && Rising(s[1..], le))
  }

  ghost predicate IsStrict<T(!new)>(le: (T, T) -> bool) {
    IsOrder(le) && forall a, b :: le(a, b) && le(b, a) ==> a == b
  }

  lemma {:induction false} DedupRises<T(!new)>(s: seq<T>, le: (T, T) -> bool)
    requires IsStrict(le) && Sorted(s, le)
    ensures Rising(Dedup(s), le)
  {
    if |s| > 1 {
      DedupRises(s[1..], le);
      DedupHolds(s[1..], s[0]);
      if s[0] != s[1] {
        assert Dedup(s)[1..] == Dedup(s[1..]);
      }
    }
  }

  lemma {:induction false} RisingAbove<T(!new)>(s: seq<T>, le: (T, T) -> bool, x: T)
    requires IsStrict(le) && Rising(s, le) && s != [] && x in s[1..]
    ensures le(s[0], x) && !le(x, s[0])
  {
    if x in s[1..][1..] {
      RisingAbove(s[1..], le, x);
    } else {
      assert x == s[1];
    }
  }

  lemma {:induction false} RisingTail<T(!new)>(a: seq<T>, b: seq<T>, le: (T, T) -> bool)
    requires IsStrict(le) && Rising(a, le) && Rising(b, le) && a != [] && b != [] && a[0] == b[0]
    requires forall x :: x in a <==> x in b
    ensures forall x :: x in a[1..] <==> x in b[1..]
  {
    forall x ensures x in a[1..] <==> x in b[1..] {
      assert x in a <==> x == a[0] || x in a[1..];
      assert x in b <==> x == b[0] || x in b[1..];
      if x in a[1..] {
        RisingAbove(a, le, x);
      }
      if x in b[1..] {
        RisingAbove(b, le, x);
      }
    }
  }

  lemma EmptyTogether<T(!new)>(a: seq<T>, b: seq<T>)
    requires forall x :: x in a <==> x in b
    ensures a == [] <==> b == []
  {
    if a != [] {
      assert a[0] in b;
    }
    if b != [] {
      assert b[0] in a;
    }
  }

  /** There is one strictly rising sequence of given entries. */
  lemma {:induction false} RisingIsUnique<T(!new)>(a: seq<T>, b: seq<T>, le: (T, T) -> bool)
    requires IsStrict(le) && Rising(a, le) && Rising(b, le)
    requires forall x :: x in a <==> x in b
    ensures a == b
  {
    EmptyTogether(a, b);
    if a != [] {
      assert a[0] in b;
      assert b[0] in a;
      if a[0] != b[0] {
        assert a[0] in b[1..];
        assert b[0] in a[1..];
        RisingAbove(a, le, b[0]);
        RisingAbove(b, le, a[0]);
      }
      RisingTail(a, b, le);
      RisingIsUnique(a[1..], b[1..], le);
    }
  }

  // Texts in the order of their characters, which is that of their UTF-8 bytes.

  predicate TextLe(a: string, b: string) {
    a == [] || (b != [] && (a[0] < b[0] || (a[0] == b[0] && TextLe(a[1..], b[1..]))))
  }

  lemma {:induction false} TextLeTotal(a: string, b: string)
    ensures TextLe(a, b) || TextLe(b, a)
    ensures TextLe(a, b) && TextLe(b, a) ==> a == b
  {
    if a != [] && b != [] {
      TextLeTotal(a[1..], b[1..]);
      if a[0] == b[0] && a[1..] == b[1..] {
        assert a == [a[0]] + a[1..] && b == [b[0]] + b[1..];
      }
    }
  }

  lemma {:induction false} TextLeTransitive(a: string, b: string, c: string)
    requires TextLe(a, b) && TextLe(b, c)
    ensures TextLe(a, c)
  {
    if a != [] && a[0] == b[0] == c[0] {
      TextLeTransitive(a[1..], b[1..], c[1..]);
    }
  }
}
