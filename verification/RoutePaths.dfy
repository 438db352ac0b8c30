/**
  The prefix and exact paths an operator may write, the form they are stored in, and when the data
  plane can match them.
*/
module RoutePaths {
  import opened Paths
  import opened Text
  import opened Wrappers

  predicate IsVisible(c: char) {
    '!' <= c <= '~'
  }

  /** `u8::from_str_radix` on two characters: also a sign before one digit. */
  function ReadEscape(h: char, l: char): Option<nat> {
    if IsHex(h) && IsHex(l) then Some(Byte(h, l))
    else if h == '+' && IsHex(l) then Some(HexValue(l))
    else None
  }

  /** Nothing is wrong with a `%` at the start of `s`. */
  predicate EscapeOk(s: string) {
    (s != [] && s[0] == '%') ==>
      && |s| >= 3
      && ReadEscape(s[1], s[2]).Some?
      && ReadEscape(s[1], s[2]).value < 256
      && !Unreserved(ReadEscape(s[1], s[2]).value)
  }

  predicate EscapesOk(s: string) {
    s == [] || (EscapeOk(s) && EscapesOk(s[1..]))
  }

  predicate SegmentsOk(s: string) {
    forall i :: 0 <= i < |Split(s, '/')| ==> !IsDots(Split(s, '/')[i])
  }

  /** What `plain_path` accepts. */
  predicate Plain(value: string) {
    && "/" <= value
    && All(value, c => IsVisible(c) && c !in "?#;")
    && !Contains(value, "//")
    && SegmentsOk(value)
    && EscapesOk(value)
  }

  function StripSlashes(s: string): string {
    if |s| > 1 && s[|s| - 1] == '/' then StripSlashes(s[..|s| - 1]) else s
  }

  function Stored(kind: Kind, value: string): string {
    if kind == Prefix then StripSlashes(UpperEscapes(value)) else UpperEscapes(value)
  }

  method PlainPath(kind: Kind, value: string) returns (path: Option<string>)
    ensures path == if Plain(value) then Some(Stored(kind, value)) else None
  {
    if !("/" <= value && All(value, c => IsVisible(c) && c !in "?#;") && !Contains(value, "//") && SegmentsOk(value)) {
      return None;
    }
    var i := 0;
    while i < |value|
      invariant 0 <= i <= |value|
      invariant EscapesOk(value) == EscapesOk(value[i..])
    {
      assert value[i..][1..] == value[i + 1..];
      if !EscapeOk(value[i..]) {
        return None;
      }
      i := i + 1;
    }
    var stored := UppercaseEscapes(value);
    if kind == Prefix {
      while |stored| > 1 && stored[|stored| - 1] == '/'
        invariant StripSlashes(stored) == StripSlashes(UpperEscapes(value))
      {
        stored := stored[..|stored| - 1];
      }
    }
    return Some(stored);
  }

  lemma {:induction false} UpperKeepsEscapesOk(s: string)
    requires EscapesOk(s)
    ensures EscapesOk(UpperEscapes(s))
  {
    var u := UpperEscapes(s);
    if s == [] {
    } else if EscapeAt(s, 0) {
      assert s[1..][1..] == s[2..] && s[2..][1..] == s[3..];
      assert EscapesOk(s[1..]) && EscapesOk(s[2..]);
      UpperKeepsEscapesOk(s[3..]);
      UpperSpellsTheSameByte(s[1], s[2]);
      assert u[1..][1..] == u[2..] && u[2..][1..] == u[3..] == UpperEscapes(s[3..]);
      assert u[1..][0] != '%' && u[2..][0] != '%';
    } else {
      UpperKeepsEscapesOk(s[1..]);
      assert u[1..] == UpperEscapes(s[1..]);
      if s[0] == '%' {
        assert s[1] == '+' && s[2] != '%';
        assert UpperEscapes(s[1..]) == ['+'] + UpperEscapes(s[1..][1..]);
        assert s[1..][1..] == s[2..];
        assert UpperEscapes(s[2..]) == [s[2]] + UpperEscapes(s[2..][1..]);
        assert u[1] == '+' && u[2] == s[2];
      }
    }
  }

  lemma {:induction false} EscapesOkEnd(s: string)
    requires EscapesOk(s + "/")
    ensures EscapesOk(s)
  {
    if s != [] {
      var t := s + "/";
      assert t[1..] == s[1..] + "/";
      EscapesOkEnd(s[1..]);
      assert EscapeOk(t);
    }
  }

  lemma {:induction false} PlainWithoutSlash(s: string)
    requires s != "" && Plain(s + "/")
    ensures Plain(s)
  {
    var t := s + "/";
    assert s[0] == t[0];
    assert forall i :: 0 <= i < |s| ==> s[i] == t[i];
    if Contains(s, "//") {
      ContainsMore(s, "/", "//");
    }
    assert t == s + ['/'] + "";
    SplitJoined(s, '/', "");
    assert forall i :: 0 <= i < |Split(s, '/')| ==> Split(s, '/')[i] == Split(t, '/')[i];
    EscapesOkEnd(s);
  }

  lemma {:induction false} DotsAreExact(a: string, b: string)
    requires Alike(a, b) && IsDots(b)
    ensures IsDots(a)
  {
    assert forall i :: 0 <= i < |a| ==> a[i] == '.';
    assert a == b;
  }

  lemma {:induction false} UpperKeepsPlain(value: string)
    requires Plain(value)
    ensures Plain(UpperEscapes(value))
  {
    var u := UpperEscapes(value);
    UpperEscapesAlike(value);
    assert u[0] == value[0] == '/';
    ContainsAlike(value, u, "//");
    SplitAlike(value, u, '/');
    forall i | 0 <= i < |Split(u, '/')| ensures !IsDots(Split(u, '/')[i]) {
      if IsDots(Split(u, '/')[i]) {
        DotsAreExact(Split(value, '/')[i], Split(u, '/')[i]);
      }
    }
    UpperKeepsEscapesOk(value);
  }

  /** There is at most one trailing slash to lose. */
  lemma StripsOne(s: string)
    requires !Contains(s, "//")
    ensures
      var t := StripSlashes(s);
      (t == s && (|s| > 1 ==> s[|s| - 1] != '/')) || (t != "" && s == t + "/" && t[|t| - 1] != '/')
  {
    if |s| > 1 && s[|s| - 1] == '/' {
      var t := s[..|s| - 1];
      assert s == t + "/";
      if t[|t| - 1] == '/' {
        EndsInTwo(s);
      }
    }
  }

  lemma {:induction false} EndsInTwo(s: string)
    requires |s| > 1 && s[|s| - 2] == s[|s| - 1] == '/'
    ensures Contains(s, "//")
  {
    if |s| > 2 {
      EndsInTwo(s[1..]);
    }
  }

  /** What is stored would be accepted again, and is stored as it is. */
  lemma {:induction false} StoredIsNormalForm(kind: Kind, value: string)
    requires Plain(value)
    ensures
      var stored := Stored(kind, value);
      && Plain(stored)
      && Stored(kind, stored) == stored
      && 1 <= |stored| <= |value|
      && (kind == Prefix ==> stored == "/" || stored[|stored| - 1] != '/')
  {
    var u := UpperEscapes(value);
    UpperEscapesAlike(value);
    UpperKeepsPlain(value);
    UpperEscapesFixes(value);
    if kind == Prefix {
      StrippedIsNormalForm(u);
    }
  }

  /** Without its trailing slash, it is plain and spelled alike still. */
  lemma {:induction false} StrippedIsNormalForm(u: string)
    requires Plain(u) && UpperEscapes(u) == u
    ensures
      var t := StripSlashes(u);
      && Plain(t) && UpperEscapes(t) == t && StripSlashes(t) == t
      && 1 <= |t| <= |u| && (t == "/" || t[|t| - 1] != '/')
  {
    StripsOne(u);
    var t := StripSlashes(u);
    if u == t + "/" {
      PlainWithoutSlash(t);
      UpperEscapesEnd(t);
    }
  }

  lemma {:induction false} UpperEscapesEnd(s: string)
    ensures UpperEscapes(s + "/") == UpperEscapes(s) + "/"
  {
    var t := s + "/";
    if s == [] {
      assert t[1..] == "";
    } else if EscapeAt(s, 0) {
      assert t[3..] == s[3..] + "/";
      UpperEscapesEnd(s[3..]);
    } else {
      assert t[1..] == s[1..] + "/";
      UpperEscapesEnd(s[1..]);
    }
  }

  // What the data plane makes of a stored path.

  lemma {:induction false} WithoutPlusIsClean(s: string)
    requires EscapesOk(s) && !Contains(s, "%+")
    ensures Clean(UpperEscapes(s))
    ensures Decode(s) == Some(UpperEscapes(s))
  {
    var u := UpperEscapes(s);
    if s == [] {
    } else if s[0] != '%' {
      WithoutPlusIsClean(s[1..]);
      assert u[1..] == UpperEscapes(s[1..]);
    } else {
      assert s[1..][1..] == s[2..] && s[2..][1..] == s[3..];
      assert EscapesOk(s[1..]) && EscapesOk(s[2..]);
      assert !Contains(s[1..], "%+") && !Contains(s[2..], "%+");
      assert EscapeAt(s, 0);
      WithoutPlusIsClean(s[3..]);
      KeptIsClean(s[1], s[2], UpperEscapes(s[3..]));
    }
  }

  lemma {:induction false} CleanEnd(s: string)
    ensures Clean(s + "/") == Clean(s)
  {
    var t := s + "/";
    if s == [] {
      assert t[1..] == "";
    } else if s[0] != '%' {
      assert t[1..] == s[1..] + "/";
      CleanEnd(s[1..]);
    } else if EscapeAt(s, 0) {
      assert t[3..] == s[3..] + "/";
      assert t[..3] == s[..3];
      CleanEnd(s[3..]);
    }
  }

  lemma {:induction false} PiecesLack(s: string, at: char, c: char)
    requires c !in s
    ensures forall i :: 0 <= i < |Split(s, at)| ==> c !in Split(s, at)[i]
  {
    if s != [] {
      assert s[0] in s;
      PiecesLack(s[1..], at, c);
    }
  }

  lemma {:induction false} PlainHasNoDots(s: string)
    requires Plain(s)
    ensures !HasDots(s)
  {
    assert ';' !in s;
    PiecesLack(s, '/', ';');
    forall i | 0 <= i < |Split(s, '/')| ensures WithoutParams(Split(s, '/')[i]) == Split(s, '/')[i] {
      SplitOnceNone(Split(s, '/')[i], ';');
    }
  }

  lemma {:induction false} PlusIsKept(kind: Kind, value: string)
    requires Plain(value)
    ensures Contains(Stored(kind, value), "%+") == Contains(value, "%+")
  {
    var u := UpperEscapes(value);
    UpperEscapesAlike(value);
    ContainsAlike(value, u, "%+");
    UpperKeepsPlain(value);
    StripsOne(u);
    var t := StripSlashes(u);
    if u == t + "/" {
      PlusBeforeSlash(t);
    }
  }

  lemma {:induction false} PlusBeforeSlash(s: string)
    ensures Contains(s + "/", "%+") == Contains(s, "%+")
  {
    var t := s + "/";
    if s == [] {
      assert t[1..] == "";
    } else {
      assert t[1..] == s[1..] + "/";
      PlusBeforeSlash(s[1..]);
      assert t[1] == if |s| > 1 then s[1] else '/';
      assert "%+" <= t <==> "%+" <= s;
    }
  }

  /** A stored path is one that the data plane's normaliser leaves alone, exactly unless it holds a
      `%` and a sign, which only the control plane reads as an escape. */
  lemma {:induction false} StoredIsNormalIff(kind: Kind, value: string)
    requires Plain(value)
    ensures Normal(Stored(kind, value)) <==> !Contains(value, "%+")
  {
    var u, stored := UpperEscapes(value), Stored(kind, value);
    StoredIsNormalForm(kind, value);
    PlainHasNoDots(stored);
    PlusIsKept(kind, value);
    if Contains(value, "%+") {
      if Clean(stored) {
        CleanHasNoPlus(stored);
      }
    } else {
      WithoutPlusIsClean(value);
      UpperKeepsPlain(value);
      StripsOne(u);
      var t := StripSlashes(u);
      if u == t + "/" {
        CleanEnd(t);
      }
    }
  }

  /** A request for the path as the operator wrote it is matched by what was stored. */
  lemma {:induction false} MatchedAsWritten(kind: Kind, value: string)
    requires kind != Regex && Plain(value) && !Contains(value, "%+")
    ensures Normalised(value) == Some(UpperEscapes(value))
    ensures Matches(kind, Stored(kind, value), UpperEscapes(value))
  {
    var u := UpperEscapes(value);
    WithoutPlusIsClean(value);
    UpperKeepsPlain(value);
    NothingToMerge(u);
    PlainHasNoDots(u);
    StripsOne(u);
  }

  /** An accepted prefix or exact path can be matched at all exactly if it was written without a
      `%` and a sign. */
  lemma {:induction false} ReachableIff(kind: Kind, value: string)
    requires kind != Regex && Plain(value)
    ensures Reachable(kind, Stored(kind, value)) <==> !Contains(value, "%+")
  {
    var stored := Stored(kind, value);
    if Contains(value, "%+") {
      PlusIsKept(kind, value);
      forall raw, path | Normalised(raw) == Some(path) ensures !Matches(kind, stored, path) {
        NormalisedIsNormal(raw, path);
        CleanHasNoPlus(path);
        if Matches(kind, stored, path) {
          assert path == stored + path[|stored|..];
          ContainsMore(stored, path[|stored|..], "%+");
        }
      }
    } else {
      MatchedAsWritten(kind, value);
    }
  }

  lemma SignedEscapeIsOk()
    ensures EscapesOk("/%+1")
  {
    var s, t := "/%+1", "%+1";
    assert s[1..] == t && t[1..] == "+1" && "+1"[1..] == "1" && "1"[1..] == "";
    assert EscapesOk("+1");
  }

  /** One character more in front. */
  lemma NoDoubleSlash(s: string)
    ensures |s| < 2 || s[0] != '/' || s[1] != '/' ==>
              (Contains(s, "//") <==> s != [] && Contains(s[1..], "//"))
  {
    if "//" <= s {
      assert s[0] == '/' && s[1] == '/';
    }
  }

  lemma SignedEscapeHasSegments()
    ensures SegmentsOk("/%+1") && !Contains("/%+1", "//")
  {
    var s, t := "/%+1", "%+1";
    NoDoubleSlash("");
    NoDoubleSlash("1");
    assert "1"[1..] == "";
    NoDoubleSlash("+1");
    assert "+1"[1..] == "1";
    NoDoubleSlash(t);
    assert t[1..] == "+1";
    NoDoubleSlash(s);
    assert s[1..] == t;
    SplitWhole(t, '/');
    assert s == "" + ['/'] + t;
    SplitJoined("", '/', t);
    assert Split(s, '/') == ["", t];
  }

  /** The control plane does accept such a path. */
  lemma SignedEscapeIsAccepted()
    ensures Plain("/%+1") && !Reachable(Exact, Stored(Exact, "/%+1"))
  {
    var s := "/%+1";
    SignedEscapeIsOk();
    SignedEscapeHasSegments();
    assert "%+" <= s[1..];
    assert Contains(s[1..], "%+");
    ReachableIff(Exact, s);
  }
}
