/**
  Which request hosts a route's hostname stands for, when two of them share one, and what is left of
  a route's hostnames on a listener that has its own.
*/
module Hostnames {
  import opened Sorting
  import opened Text
  import opened Wrappers

  /** An exact name, or `*.` and a name that one or more labels go before; case does not matter. */
  predicate Matches(pattern: string, host: string) {
    if "*." <= pattern then
      var suffix := pattern[2..];
      && |host| > |suffix| + 1
      && host[|host| - |suffix| - 1] == '.'
      && Lower(host[|host| - |suffix|..]) == Lower(suffix)
    else Lower(pattern) == Lower(host)
  }

  /** Whether two hosts of routes can name the same request host. */
  predicate HostsOverlap(a: string, b: string) {
    a == b || Matches(a, b) || Matches(b, a)
  }

  // Ends of texts.

  predicate Ends(s: string, tail: string) {
    |tail| <= |s| && s[|s| - |tail|..] == tail
  }

  /** Of two ends of a text, the longer ends in the shorter. */
  lemma {:induction false} EndsMeet(s: string, a: string, b: string)
    requires Ends(s, a) && Ends(s, b) && |a| <= |b|
    ensures Ends(b, a)
  {
    assert s[|s| - |b|..][|b| - |a|..] == s[|s| - |a|..];
  }

  lemma {:induction false} EndsThrough(s: string, b: string, a: string)
    requires Ends(s, b) && Ends(b, a)
    ensures Ends(s, a)
  {
    assert s[|s| - |b|..][|b| - |a|..] == s[|s| - |a|..];
  }

  /** The end a wildcard asks of a host. */
  function Tail(pattern: string): string
    requires "*." <= pattern
  {
    Lower(pattern)[1..]
  }

  lemma {:induction false} WildcardMatches(pattern: string, host: string)
    requires "*." <= pattern
    ensures Matches(pattern, host) <==> |host| >= |pattern| && Ends(Lower(host), Tail(pattern))
  {
    var tail, from := Tail(pattern), |host| - |pattern| + 1;
    if |host| >= |pattern| {
      assert forall i :: 0 <= i < |tail| ==> Lower(host)[from..][i] == LowerChar(host[from + i]);
      assert forall i :: 0 <= i < |tail| ==> tail[i] == LowerChar(pattern[1 + i]);
      assert tail[0] == '.' && LowerChar(host[from]) == '.' <==> host[from] == '.';
      assert Lower(host[from + 1..]) == Lower(host)[from..][1..];
      assert Lower(pattern[2..]) == tail[1..];
      assert Lower(host)[from..] == [LowerChar(host[from])] + Lower(host)[from..][1..];
      assert tail == ['.'] + tail[1..];
    }
  }

  lemma StaysWildcard(pattern: string)
    ensures "*." <= pattern <==> "*." <= Lower(pattern)
  {
    if "*." <= Lower(pattern) {
      assert Lower(pattern)[0] == '*' && Lower(pattern)[1] == '.';
    }
  }

  /** Case does not matter, on either side. */
  lemma {:induction false} CaseDoesNotMatter(pattern: string, host: string)
    ensures Matches(Lower(pattern), host) == Matches(pattern, host) == Matches(pattern, Lower(host))
  {
    LowerIsLower(pattern);
    LowerIsLower(host);
    StaysWildcard(pattern);
    if "*." <= pattern {
      WildcardMatches(pattern, host);
      WildcardMatches(pattern, Lower(host));
      WildcardMatches(Lower(pattern), host);
    }
  }

  /** A pattern matched by a wider one matches only hosts that the wider one does. */
  lemma {:induction false} Narrower(wide: string, narrow: string, host: string)
    requires Matches(wide, narrow) && Matches(narrow, host)
    ensures Matches(wide, host)
  {
    StaysWildcard(wide);
    StaysWildcard(narrow);
    if "*." <= narrow {
      WildcardMatches(narrow, host);
      WildcardMatches(wide, narrow);
      WildcardMatches(wide, host);
      EndsMeet(Lower(narrow), Tail(wide), Tail(narrow));
      EndsThrough(Lower(host), Tail(narrow), Tail(wide));
    } else if "*." <= wide {
      WildcardMatches(wide, narrow);
      WildcardMatches(wide, host);
    }
  }

  /** Of two patterns that match one host, one matches the other. */
  lemma {:induction false} MeetIsNarrower(a: string, b: string, host: string)
    requires Matches(a, host) && Matches(b, host)
    ensures Matches(a, b) || Matches(b, a)
  {
    CaseDoesNotMatter(a, host);
    CaseDoesNotMatter(b, host);
    if "*." <= a && "*." <= b {
      if |a| <= |b| {
        WildcardsMeet(a, b, host);
      } else {
        WildcardsMeet(b, a, host);
      }
    } else if "*." <= a {
      CaseDoesNotMatter(a, b);
    } else {
      CaseDoesNotMatter(b, a);
    }
  }

  lemma {:induction false} WildcardsMeet(a: string, b: string, host: string)
    requires "*." <= a && "*." <= b && |a| <= |b| && Matches(a, host) && Matches(b, host)
    ensures Matches(a, b)
  {
    WildcardMatches(a, host);
    WildcardMatches(b, host);
    WildcardMatches(a, b);
    EndsMeet(Lower(host), Tail(a), Tail(b));
    assert Ends(Lower(b), Tail(b));
    EndsThrough(Lower(b), Tail(b), Tail(a));
  }

  /** A host the pattern matches: itself, or one label before a wildcard's name. */
  function Sample(pattern: string): string {
    if "*." <= pattern then "a" + pattern[1..] else pattern
  }

  lemma {:induction false} SampleMatches(pattern: string)
    ensures Matches(pattern, Sample(pattern)) && !("*." <= Sample(pattern))
  {
    if "*." <= pattern {
      var host := Sample(pattern);
      assert host[2..] == pattern[2..] && host[0] == 'a';
    }
  }

  /** Two hosts of routes overlap if and only if some request host is matched by both, one that does
      not itself begin with a wildcard. */
  lemma {:induction false} OverlapIff(a: string, b: string)
    ensures HostsOverlap(a, b) <==>
            exists host :: !("*." <= host) && Matches(a, host) && Matches(b, host)
  {
    SampleMatches(a);
    SampleMatches(b);
    if Matches(a, b) {
      Narrower(a, b, Sample(b));
    } else if Matches(b, a) {
      Narrower(b, a, Sample(a));
    }
    forall host | Matches(a, host) && Matches(b, host) ensures HostsOverlap(a, b) {
      MeetIsNarrower(a, b, host);
    }
  }

  // A route's hostnames on a listener.

  /** The narrower of a hostname and the listener's, where they meet. */
  function Both(listener: string, hostname: string): seq<string> {
    if Matches(listener, hostname) then [Lower(hostname)]
    else if Matches(hostname, listener) then [Lower(listener)]
    else []
  }

  function Narrowed(listener: string, route: seq<string>): seq<string> {
    if route == [] then []
    else Narrowed(listener, route[..|route| - 1]) + Both(listener, route[|route| - 1])
  }

  function Lowered(route: seq<string>): (r: seq<string>)
    ensures |r| == |route| && forall i :: 0 <= i < |r| ==> r[i] == Lower(route[i])
  {
    seq(|route|, i requires 0 <= i < |route| => Lower(route[i]))
  }

  /** `None` where nothing is left, `[]` for any host. */
  function Intersection(listener: Option<string>, route: seq<string>): Option<seq<string>> {
    var out :=
      if listener.None? then Lowered(route)
      else if route == [] then [Lower(listener.value)]
      else Narrowed(listener.value, route);
    if listener.Some? && out == [] then None else Some(Dedup(SortBy(out, TextLe)))
  }

  method Intersect(listener: Option<string>, route: seq<string>) returns (r: Option<seq<string>>)
    ensures r == Intersection(listener, route)
  {
    var out: seq<string> := [];
    if listener.None? {
      if route == [] {
        return Some([]);
      }
      out := Lowered(route);
    } else if route == [] {
      out := [Lower(listener.value)];
    } else {
      for i := 0 to |route|
        invariant out == Narrowed(listener.value, route[..i])
      {
        assert route[..i + 1][..i] == route[..i];
        if Matches(listener.value, route[i]) {
          out := out + [Lower(route[i])];
        } else if Matches(route[i], listener.value) {
          out := out + [Lower(listener.value)];
        }
      }
      assert route[..|route|] == route;
      if out == [] {
        return None;
      }
    }
    return Some(Dedup(SortBy(out, TextLe)));
  }

  predicate AnyMatches(hostnames: seq<string>, host: string) {
    exists i :: 0 <= i < |hostnames| && Matches(hostnames[i], host)
  }

  /** A host is for any of the hostnames, or there are none to be for. */
  predicate Admits(hostnames: seq<string>, host: string) {
    hostnames == [] || AnyMatches(hostnames, host)
  }

  lemma {:induction false} SameAdmitted(a: seq<string>, b: seq<string>, host: string)
    requires forall x :: x in a <==> x in b
    ensures Admits(a, host) == Admits(b, host)
  {
    if a != [] {
      assert a[0] in b;
    }
    if b != [] {
      assert b[0] in a;
    }
    if i :| 0 <= i < |a| && Matches(a[i], host) {
      assert a[i] in b;
    }
    if i :| 0 <= i < |b| && Matches(b[i], host) {
      assert b[i] in a;
    }
  }

  lemma {:induction false} SortedAdmits(out: seq<string>, host: string)
    ensures Admits(Dedup(SortBy(out, TextLe)), host) == Admits(out, host)
  {
    forall x ensures x in Dedup(SortBy(out, TextLe)) <==> x in out {
      DedupHolds(SortBy(out, TextLe), x);
      SortHolds(out, TextLe, x);
    }
    SameAdmitted(Dedup(SortBy(out, TextLe)), out, host);
  }

  lemma {:induction false} LoweredAdmits(route: seq<string>, host: string)
    ensures Admits(Lowered(route), host) == Admits(route, host)
  {
    forall i | 0 <= i < |route| ensures Matches(Lowered(route)[i], host) == Matches(route[i], host) {
      CaseDoesNotMatter(route[i], host);
    }
  }

  lemma {:induction false} AnyOneMore(front: seq<string>, more: seq<string>, host: string)
    ensures AnyMatches(front + more, host) <==> AnyMatches(front, host) || AnyMatches(more, host)
  {
    var all := front + more;
    if i :| 0 <= i < |front| && Matches(front[i], host) {
      assert all[i] == front[i];
    }
    if i :| 0 <= i < |more| && Matches(more[i], host) {
      assert all[|front| + i] == more[i];
    }
  }

  /** It stands for what both match. */
  lemma {:induction false} BothMeans(listener: string, hostname: string, host: string)
    ensures AnyMatches(Both(listener, hostname), host) <==> Matches(listener, host) && Matches(hostname, host)
  {
    CaseDoesNotMatter(hostname, host);
    CaseDoesNotMatter(listener, host);
    if Matches(listener, hostname) {
      assert Both(listener, hostname)[0] == Lower(hostname);
      if Matches(hostname, host) {
        Narrower(listener, hostname, host);
      }
    } else if Matches(hostname, listener) {
      assert Both(listener, hostname)[0] == Lower(listener);
      if Matches(listener, host) {
        Narrower(hostname, listener, host);
      }
    } else if Matches(listener, host) && Matches(hostname, host) {
      MeetIsNarrower(listener, hostname, host);
    }
  }

  lemma OneMatches(hostname: string, host: string)
    ensures AnyMatches([hostname], host) == Matches(hostname, host)
  {
    assert [hostname][0] == hostname;
  }

  lemma {:induction false} NarrowedMeans(listener: string, route: seq<string>, host: string)
    ensures AnyMatches(Narrowed(listener, route), host) <==> Matches(listener, host) && AnyMatches(route, host)
  {
    if route != [] {
      var front, last := route[..|route| - 1], route[|route| - 1];
      assert route == front + [last];
      NarrowedMeans(listener, front, host);
      BothMeans(listener, last, host);
      OneMatches(last, host);
      AnyOneMore(front, [last], host);
      AnyOneMore(Narrowed(listener, front), Both(listener, last), host);
    }
  }

  /** What is left stands for exactly the hosts that both the listener and the route are for. */
  lemma {:induction false} IntersectionMeans(listener: Option<string>, route: seq<string>, host: string)
    ensures
      var both := (listener.None? || Matches(listener.value, host)) && Admits(route, host);
      if Intersection(listener, route).None? then !both
      else Admits(Intersection(listener, route).value, host) == both
  {
    if listener.None? {
      SortedAdmits(Lowered(route), host);
      LoweredAdmits(route, host);
    } else if route == [] {
      SortedAdmits([Lower(listener.value)], host);
      CaseDoesNotMatter(listener.value, host);
    } else {
      NarrowedMeans(listener.value, route, host);
      SortedAdmits(Narrowed(listener.value, route), host);
    }
  }

  /** And nothing is left only where there is no such host. */
  lemma {:induction false} SomethingIsLeft(listener: Option<string>, route: seq<string>)
    requires Intersection(listener, route).Some?
    ensures exists host :: (listener.None? || Matches(listener.value, host)) && Admits(route, host)
  {
    var out := Intersection(listener, route).value;
    var host := if out == [] then "a" else Sample(out[0]);
    if out != [] {
      SampleMatches(out[0]);
    }
    IntersectionMeans(listener, route, host);
  }
}
