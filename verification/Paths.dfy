/**
  The path a request is matched on: the data plane's normaliser, its prefix and exact rules, and
  the spelling of escapes that stored paths share with it. Texts are sequences of characters;
  the originals work on bytes, which differ only where neither reads anything.
*/
module Paths {
  import opened Text
  import opened Wrappers

  predicate IsHex(c: char) {
    IsDigit(c) || 'a' <= c <= 'f' || 'A' <= c <= 'F'
  }

  function HexValue(c: char): nat
    requires IsHex(c)
  {
    if IsDigit(c) then (c - '0') as nat
    else if IsLower(c) then (c - 'a') as nat + 10
    else (c - 'A') as nat + 10
  }

  function Byte(h: char, l: char): (b: nat)
    requires IsHex(h) && IsHex(l)
    ensures b < 256
  {
    16 * HexValue(h) + HexValue(l)
  }

  /** A letter, a digit or one of `- . _ ~`: what the normaliser decodes. */
  predicate Unreserved(b: nat)
    requires b < 256
  {
    var c := b as char;
    IsAlphanumeric(c) || c in "-._~"
  }

  lemma UpperSpellsTheSameByte(h: char, l: char)
    requires IsHex(h) && IsHex(l)
    ensures IsHex(UpperChar(h)) && IsHex(UpperChar(l))
    ensures Byte(UpperChar(h), UpperChar(l)) == Byte(h, l)
  {
  }

  predicate Contains(s: string, pattern: string) {
    pattern <= s || (s != [] && Contains(s[1..], pattern))
  }

  lemma {:induction false} ContainsMore(a: string, b: string, pattern: string)
    requires Contains(a, pattern)
    ensures Contains(a + b, pattern)
  {
    if !(pattern <= a) {
      assert (a + b)[1..] == a[1..] + b;
      ContainsMore(a[1..], b, pattern);
    }
  }

  // Uppercase escapes.

  predicate EscapeAt(s: string, i: nat) {
    i + 2 < |s| && s[i] == '%' && IsHex(s[i + 1]) && IsHex(s[i + 2])
  }

  function UpperEscapes(s: string): string {
    if s == [] then []
    else if EscapeAt(s, 0) then ['%', UpperChar(s[1]), UpperChar(s[2])] + UpperEscapes(s[3..])
    else [s[0]] + UpperEscapes(s[1..])
  }

  /** One step over the rest of a path, behind what is done. */
  lemma {:induction false} UpperStep(done: string, rest: string)
    requires rest != []
    ensures
      done + UpperEscapes(rest) ==
      if EscapeAt(rest, 0) then (done + ['%', UpperChar(rest[1]), UpperChar(rest[2])]) + UpperEscapes(rest[3..])
      else (done + [rest[0]]) + UpperEscapes(rest[1..])
  {
  }

  /** Character `i` is a digit of an escape. */
  predicate InEscape(s: string, i: nat) {
    (i >= 1 && EscapeAt(s, i - 1)) || (i >= 2 && EscapeAt(s, i - 2))
  }

  /** No escape reaches from what is skipped into the rest. */
  lemma TailKeepsEscapes(s: string, skipped: nat, i: nat)
    requires skipped == if EscapeAt(s, 0) then 3 else 1
    requires skipped <= i < |s|
    ensures InEscape(s, i) == InEscape(s[skipped..], i - skipped)
  {
    var rest := s[skipped..];
    assert i >= skipped + 1 ==> EscapeAt(s, i - 1) == EscapeAt(rest, i - 1 - skipped);
    assert i >= skipped + 2 ==> EscapeAt(s, i - 2) == EscapeAt(rest, i - 2 - skipped);
  }

  /** The digits of every escape are uppercased, and nothing else is changed. */
  lemma {:induction false} UpperEscapesAt(s: string, i: nat)
    requires i < |s|
    ensures |UpperEscapes(s)| == |s|
    ensures UpperEscapes(s)[i] == if InEscape(s, i) then UpperChar(s[i]) else s[i]
  {
    UpperEscapesAlike(s);
    var skipped := if EscapeAt(s, 0) then 3 else 1;
    if i >= skipped {
      UpperEscapesAt(s[skipped..], i - skipped);
      assert UpperEscapes(s)[skipped..] == UpperEscapes(s[skipped..]);
      TailKeepsEscapes(s, skipped, i);
    }
  }

  lemma {:induction false} UpperEscapesEverywhere(s: string)
    ensures |UpperEscapes(s)| == |s|
    ensures forall i :: 0 <= i < |s| ==> UpperEscapes(s)[i] == if InEscape(s, i) then UpperChar(s[i]) else s[i]
  {
    UpperEscapesAlike(s);
    forall i | 0 <= i < |s| ensures UpperEscapes(s)[i] == if InEscape(s, i) then UpperChar(s[i]) else s[i] {
      UpperEscapesAt(s, i);
    }
  }

  method UppercaseEscapes(path: string) returns (bytes: string)
    ensures bytes == UpperEscapes(path)
    ensures |bytes| == |path|
    ensures forall i :: 0 <= i < |path| ==> bytes[i] == if InEscape(path, i) then UpperChar(path[i]) else path[i]
  {
    bytes := path;
    var i := 0;
    while i < |bytes|
      invariant 0 <= i <= |bytes| == |path|
      invariant bytes[i..] == path[i..]
      invariant bytes[..i] + UpperEscapes(path[i..]) == UpperEscapes(path)
    {
      EscapeAtTail(bytes, i);
      UpperStep(bytes[..i], path[i..]);
      if EscapeAt(bytes, i) {
        assert path[i..][3..] == path[i + 3..];
        bytes := bytes[..i] + ['%', UpperChar(bytes[i + 1]), UpperChar(bytes[i + 2])] + bytes[i + 3..];
        i := i + 3;
      } else {
        assert path[i..][1..] == path[i + 1..];
        assert bytes[..i + 1] == bytes[..i] + [bytes[i]];
        i := i + 1;
      }
    }
    assert bytes[..i] == bytes && path[i..] == [];
    UpperEscapesEverywhere(path);
  }

  lemma EscapeAtTail(s: string, i: nat)
    requires i <= |s|
    ensures EscapeAt(s, i) == EscapeAt(s[i..], 0)
  {
  }

  /** Two texts that differ at most in the case of letters. */
  predicate Alike(a: string, b: string) {
    |a| == |b| && forall i :: 0 <= i < |a| ==> (a[i] == b[i] || (IsLower(a[i]) && b[i] == UpperChar(a[i])))
  }

  lemma {:induction false} UpperEscapesAlike(s: string)
    ensures Alike(s, UpperEscapes(s))
  {
    if s == [] {
    } else if EscapeAt(s, 0) {
      UpperEscapesAlike(s[3..]);
      assert s == ['%', s[1], s[2]] + s[3..];
    } else {
      UpperEscapesAlike(s[1..]);
      assert s == [s[0]] + s[1..];
    }
  }

  lemma {:induction false} UpperEscapesFixes(s: string)
    ensures UpperEscapes(UpperEscapes(s)) == UpperEscapes(s)
  {
    var u := UpperEscapes(s);
    if s == [] {
    } else if EscapeAt(s, 0) {
      UpperEscapesFixes(s[3..]);
      assert u[3..] == UpperEscapes(s[3..]);
    } else {
      UpperEscapesFixes(s[1..]);
      assert u[1..] == UpperEscapes(s[1..]);
      UpperEscapesAlike(s);
      assert !EscapeAt(u, 0);
    }
  }

  lemma {:induction false} SplitAlike(a: string, b: string, at: char)
    requires Alike(a, b) && !IsLower(at) && !IsUpper(at)
    ensures |Split(a, at)| == |Split(b, at)|
    ensures forall i :: 0 <= i < |Split(a, at)| ==> Alike(Split(a, at)[i], Split(b, at)[i])
  {
    if a != [] {
      SplitAlike(a[1..], b[1..], at);
      var x, y := Split(a[1..], at), Split(b[1..], at);
      assert a[0] == at <==> b[0] == at;
      if a[0] != at {
        var c, d := [a[0]] + x[0], [b[0]] + y[0];
        AlikeJoined(a[0], b[0], x[0], y[0]);
        assert Split(a, at) == [c] + x[1..] && Split(b, at) == [d] + y[1..];
      } else {
        assert Split(a, at) == [""] + x && Split(b, at) == [""] + y;
      }
    }
  }

  lemma AlikeJoined(c: char, d: char, a: string, b: string)
    requires Alike(a, b) && (c == d || (IsLower(c) && d == UpperChar(c)))
    ensures Alike([c] + a, [d] + b)
  {
  }

  lemma {:induction false} ContainsAlike(a: string, b: string, pattern: string)
    requires Alike(a, b) && All(pattern, c => !IsLower(c) && !IsUpper(c))
    ensures Contains(a, pattern) == Contains(b, pattern)
  {
    assert pattern <= a <==> pattern <= b by {
      if pattern <= a {
        assert forall i :: 0 <= i < |pattern| ==> a[i] == pattern[i];
        assert forall i :: 0 <= i < |pattern| ==> b[i] == pattern[i];
      }
      if pattern <= b {
        assert forall i :: 0 <= i < |pattern| ==> b[i] == pattern[i];
        assert forall i :: 0 <= i < |pattern| ==> a[i] == pattern[i];
      }
    }
    if a != [] {
      ContainsAlike(a[1..], b[1..], pattern);
    }
  }

  // Normalising.

  /** `s` with escaped unreserved characters decoded and the other escapes in uppercase; none if an
      escape is not a `%` and two hexadecimal digits. */
  function Decode(s: string): Option<string> {
    if s == [] then Some("")
    else if s[0] != '%' then
      match Decode(s[1..])
      case None => None
      case Some(rest) => Some([s[0]] + rest)
    else if !EscapeAt(s, 0) then None
    else
      match Decode(s[3..])
      case None => None
      case Some(rest) => Some(Kept(s[1], s[2]) + rest)
  }

  /** What an escape becomes. */
  function Kept(h: char, l: char): string
    requires IsHex(h) && IsHex(l)
  {
    if Unreserved(Byte(h, l)) then [Byte(h, l) as char] else ['%', UpperChar(h), UpperChar(l)]
  }

  /** Repeated slashes merged. */
  function Merge(s: string): string {
    if s == [] then [] else if "//" <= s then Merge(s[1..]) else [s[0]] + Merge(s[1..])
  }

  function WithoutParams(segment: string): string {
    match SplitOnce(segment, ";")
    case None => segment
    case Some((name, _)) => name
  }

  predicate IsDots(segment: string) {
    segment == "." || segment == ".."
  }

  predicate HasDots(path: string) {
    exists i :: 0 <= i < |Split(path, '/')| && IsDots(WithoutParams(Split(path, '/')[i]))
  }

  /** The path a route is matched against, or none for a request that is refused. */
  function Normalised(raw: string): Option<string> {
    if raw == "" then Some("/")
    else if raw[0] != '/' then None
    else
      match Decode(raw)
      case None => None
      case Some(decoded) => if HasDots(Merge(decoded)) then None else Some(Merge(decoded))
  }

  method NormalizePath(raw: string) returns (path: Option<string>)
    ensures path == Normalised(raw)
  {
    if raw == "" {
      return Some("/");
    }
    if raw[0] != '/' {
      return None;
    }
    var decoded, i := "", 0;
    assert raw[0..] == raw && forall t: string :: "" + t == t;
    while i < |raw|
      invariant 0 <= i <= |raw|
      invariant Decode(raw) == (match Decode(raw[i..]) case None => None case Some(rest) => Some(decoded + rest))
      decreases |raw| - i
    {
      ghost var rest := raw[i..];
      assert EscapeAt(raw, i) == EscapeAt(rest, 0);
      if raw[i] == '%' {
        if !EscapeAt(raw, i) {
          return None;
        }
        assert rest[3..] == raw[i + 3..];
        ghost var was := decoded;
        decoded := decoded + Kept(raw[i + 1], raw[i + 2]);
        assert forall t: string :: was + (Kept(rest[1], rest[2]) + t) == decoded + t;
        i := i + 3;
      } else {
        assert rest[1..] == raw[i + 1..];
        ghost var was := decoded;
        decoded := decoded + [raw[i]];
        assert forall t: string :: was + ([rest[0]] + t) == decoded + t;
        i := i + 1;
      }
    }
    assert raw[i..] == "" && decoded + "" == decoded;
    var out := MergeSlashes(decoded);
    return if HasDots(out) then None else Some(out);
  }

  method MergeSlashes(decoded: string) returns (out: string)
    ensures out == Merge(decoded)
  {
    out := "";
    for i := 0 to |decoded|
      invariant out == Merge(decoded[..i])
      invariant (out != "" && out[|out| - 1] == '/') <==> (i > 0 && decoded[i - 1] == '/')
    {
      MergeOneMore(decoded[..i], decoded[i]);
      assert decoded[..i + 1] == decoded[..i] + [decoded[i]];
      if !(decoded[i] == '/' && out != "" && out[|out| - 1] == '/') {
        out := out + [decoded[i]];
      }
    }
    assert decoded[..|decoded|] == decoded;
  }

  lemma {:induction false} MergeOneMore(s: string, c: char)
    ensures Merge(s + [c]) == if s != [] && s[|s| - 1] == '/' == c then Merge(s) else Merge(s) + [c]
  {
    if s != [] {
      assert (s + [c])[1..] == s[1..] + [c];
      MergeOneMore(s[1..], c);
      if |s| > 1 {
        assert "//" <= s + [c] <==> "//" <= s;
      }
    }
  }

  /** Every escape is one the normaliser keeps, spelled as it spells it. */
  predicate Clean(s: string) {
    s == [] ||
    if s[0] != '%' then Clean(s[1..])
    else EscapeAt(s, 0) && Kept(s[1], s[2]) == s[..3] && Clean(s[3..])
  }

  lemma KeptIsClean(h: char, l: char, rest: string)
    requires IsHex(h) && IsHex(l) && Clean(rest)
    ensures Clean(Kept(h, l) + rest)
  {
    var s := Kept(h, l) + rest;
    if Unreserved(Byte(h, l)) {
      assert s[1..] == rest;
    } else {
      UpperSpellsTheSameByte(h, l);
      assert s[3..] == rest;
    }
  }

  lemma {:induction false} DecodedIsClean(s: string)
    requires Decode(s).Some?
    ensures Clean(Decode(s).value)
  {
    if s == [] {
    } else if s[0] != '%' {
      DecodedIsClean(s[1..]);
      assert Decode(s).value[1..] == Decode(s[1..]).value;
    } else {
      DecodedIsClean(s[3..]);
      KeptIsClean(s[1], s[2], Decode(s[3..]).value);
    }
  }

  lemma {:induction false} CleanIsDecoded(s: string)
    requires Clean(s)
    ensures Decode(s) == Some(s)
  {
    if s == [] {
    } else if s[0] != '%' {
      CleanIsDecoded(s[1..]);
      assert s == [s[0]] + s[1..];
    } else {
      CleanIsDecoded(s[3..]);
      assert s == s[..3] + s[3..];
    }
  }

  lemma {:induction false} MergeKeepsClean(s: string)
    requires Clean(s)
    ensures Clean(Merge(s))
  {
    if s == [] {
    } else if s[0] != '%' {
      MergeKeepsClean(s[1..]);
      assert ([s[0]] + Merge(s[1..]))[1..] == Merge(s[1..]);
    } else {
      MergeKeepsClean(s[3..]);
      var rest := Merge(s[3..]);
      assert s[1] != '/' && s[2] != '/';
      assert s[1..][1..] == s[2..] && s[2..][1..] == s[3..];
      assert Merge(s[2..]) == [s[2]] + rest;
      assert Merge(s[1..]) == [s[1]] + Merge(s[2..]);
      var m := s[..3] + rest;
      assert Merge(s) == m;
      assert m[..3] == s[..3] && m[3..] == rest;
    }
  }

  lemma {:induction false} MergeLeavesNone(s: string)
    ensures s != [] ==> (Merge(s) != [] && Merge(s)[0] == s[0])
    ensures !Contains(Merge(s), "//")
  {
    if s != [] {
      MergeLeavesNone(s[1..]);
      if !("//" <= s) {
        assert Merge(s)[1..] == Merge(s[1..]);
      }
    }
  }

  lemma {:induction false} NothingToMerge(s: string)
    requires !Contains(s, "//")
    ensures Merge(s) == s
  {
    if s != [] {
      NothingToMerge(s[1..]);
    }
  }

  lemma {:induction false} CleanHasNoPlus(s: string)
    requires Clean(s)
    ensures !Contains(s, "%+")
  {
    if s == [] {
    } else if s[0] != '%' {
      CleanHasNoPlus(s[1..]);
    } else {
      CleanHasNoPlus(s[3..]);
      assert s[1..][1..] == s[2..] && s[2..][1..] == s[3..];
      assert s[1] != '+' && s[1..][0] != '%' && s[2..][0] != '%';
      assert !Contains(s[2..], "%+");
      assert !Contains(s[1..], "%+");
    }
  }

  /** A path the normaliser leaves alone. */
  predicate Normal(path: string) {
    path != "" && path[0] == '/' && Clean(path) && !Contains(path, "//") && !HasDots(path)
  }

  /** What comes out of the normaliser is normal, and what is normal comes out as itself. */
  lemma {:induction false} NormalisedIsNormal(raw: string, path: string)
    ensures Normalised(raw) == Some(path) ==> Normal(path)
    ensures Normal(path) ==> Normalised(path) == Some(path)
  {
    if Normalised(raw) == Some(path) {
      if raw == "" {
        SplitJoined("", '/', "");
        assert "/" == "" + ['/'] + "";
        assert Split("/", '/') == ["", ""];
      } else {
        var decoded := Decode(raw).value;
        DecodedIsClean(raw);
        MergeKeepsClean(decoded);
        MergeLeavesNone(decoded);
        assert decoded[0] == '/';
      }
    }
    if Normal(path) {
      CleanIsDecoded(path);
      NothingToMerge(path);
    }
  }

  // Matching.

  datatype Kind = Prefix | Exact | Regex

  /** The data plane's rule for an exact or prefix path. */
  predicate Matches(kind: Kind, stored: string, path: string) {
    match kind
    case Exact => path == stored
    case Prefix => stored == "/" || path == stored || stored + "/" <= path
    case Regex => false
  }

  /** Some request is matched on a path that the stored one matches. */
  ghost predicate Reachable(kind: Kind, stored: string) {
    exists raw, path :: Normalised(raw) == Some(path) && Matches(kind, stored, path)
  }
}
