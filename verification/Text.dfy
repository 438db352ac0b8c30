/** The string operations the validators are written with. */
module Text {
  import opened Wrappers

  predicate IsUpper(c: char) {
    'A' <= c <= 'Z'
  }

  predicate IsLower(c: char) {
    'a' <= c <= 'z'
  }

  predicate IsDigit(c: char) {
    '0' <= c <= '9'
  }

  predicate IsAlphanumeric(c: char) {
    IsUpper(c) || IsLower(c) || IsDigit(c)
  }

  /** `char::is_whitespace`: Unicode's White_Space. */
  predicate IsWhitespace(c: char) {
    || '\U{9}' <= c <= '\U{d}' || c == ' ' || c == '\U{85}' || c == '\U{a0}' || c == '\U{1680}'
    || '\U{2000}' <= c <= '\U{200a}' || c == '\U{2028}' || c == '\U{2029}' || c == '\U{202f}'
    || c == '\U{205f}' || c == '\U{3000}'
  }

  /** A character of a token (section 5.6.2 of RFC 9110). */
  predicate IsTokenChar(c: char) {
    IsAlphanumeric(c) || c in "!#$%&'*+-.^_`|~"
  }

  predicate All(s: string, ok: char -> bool) {
    forall i :: 0 <= i < |s| ==> ok(s[i])
  }

  // Case.

  function LowerChar(c: char): char {
    if IsUpper(c) then ((c as int) + 32) as char else c
  }

  function UpperChar(c: char): char {
    if IsLower(c) then ((c as int) - 32) as char else c
  }

  function Lower(s: string): (r: string)
    ensures |r| == |s|
    ensures forall i :: 0 <= i < |s| ==> r[i] == LowerChar(s[i])
  {
    seq(|s|, i requires 0 <= i < |s| => LowerChar(s[i]))
  }

  function Upper(s: string): (r: string)
    ensures |r| == |s|
    ensures forall i :: 0 <= i < |s| ==> r[i] == UpperChar(s[i])
  {
    seq(|s|, i requires 0 <= i < |s| => UpperChar(s[i]))
  }

  lemma LowerFixes(s: string)
    requires All(s, c => !IsUpper(c))
    ensures Lower(s) == s
  {
  }

  lemma LowerIsLower(s: string)
    ensures All(Lower(s), c => !IsUpper(c)) && Lower(Lower(s)) == Lower(s)
  {
    LowerFixes(Lower(s));
  }

  lemma UpperFixes(s: string)
    requires All(s, c => !IsLower(c))
    ensures Upper(s) == s
  {
  }

  // Splitting.

  /** `str::split` at a character: at least one piece. */
  function Split(s: string, at: char): (r: seq<string>)
    ensures r != []
  {
    if s == [] then [""]
    else if s[0] == at then [""] + Split(s[1..], at)
    else
      var rest := Split(s[1..], at);
      [[s[0]] + rest[0]] + rest[1..]
  }

  lemma {:induction false} SplitJoined(a: string, at: char, b: string)
    ensures Split(a + [at] + b, at) == Split(a, at) + Split(b, at)
  {
    var s := a + [at] + b;
    if a == [] {
      assert s[1..] == b;
    } else {
      assert s[1..] == a[1..] + [at] + b;
      SplitJoined(a[1..], at, b);
    }
  }

  lemma {:induction false} SplitWhole(s: string, at: char)
    requires at !in s
    ensures Split(s, at) == [s]
  {
    if s != [] {
      assert s[0] in s;
      SplitWhole(s[1..], at);
      assert s == [s[0]] + s[1..];
    }
  }

  /** If every piece is made of `ok` characters, the whole is, but for where it was split. */
  lemma {:induction false} SplitChars(s: string, at: char, ok: char -> bool)
    requires forall i :: 0 <= i < |Split(s, at)| ==> All(Split(s, at)[i], ok)
    ensures All(s, c => ok(c) || c == at)
  {
    if s != [] {
      var rest := Split(s[1..], at);
      var whole := Split(s, at);
      if s[0] == at {
        assert forall i :: 0 <= i < |rest| ==> rest[i] == whole[i + 1];
      } else {
        assert forall i :: 1 <= i < |rest| ==> rest[i] == whole[i];
        assert whole[0] == [s[0]] + rest[0];
        assert forall k :: 0 <= k < |rest[0]| ==> rest[0][k] == whole[0][k + 1];
        assert whole[0][0] == s[0];
      }
      SplitChars(s[1..], at, ok);
    }
  }

  /** `str::split_once`: at the first place `pattern` occurs. */
  function SplitOnce(s: string, pattern: string): Option<(string, string)>
    requires pattern != []
  {
    if pattern <= s then Some(("", s[|pattern|..]))
    else if s == [] then None
    else
      match SplitOnce(s[1..], pattern)
      case None => None
      case Some((before, after)) => Some(([s[0]] + before, after))
  }

  lemma Reassociate<T>(a: seq<T>, b: seq<T>, c: seq<T>, d: seq<T>)
    ensures a + (b + c + d) == (a + b) + c + d
  {
  }

  lemma {:induction false} SplitOnceJoins(s: string, pattern: string)
    requires pattern != [] && SplitOnce(s, pattern).Some?
    ensures s == SplitOnce(s, pattern).value.0 + pattern + SplitOnce(s, pattern).value.1
  {
    if pattern <= s {
      assert s == "" + pattern + s[|pattern|..];
    } else {
      SplitOnceJoins(s[1..], pattern);
      var (before, after) := SplitOnce(s[1..], pattern).value;
      Reassociate([s[0]], before, pattern, after);
      assert s == [s[0]] + s[1..];
    }
  }

  lemma {:induction false} SplitOnceLacks(s: string, c: char)
    requires SplitOnce(s, [c]).Some?
    ensures c !in SplitOnce(s, [c]).value.0
  {
    if !([c] <= s) {
      SplitOnceLacks(s[1..], c);
      assert s[0] != c;
    }
  }

  /** What is split is the parts around the pattern, and a single character is not in the first. */
  lemma {:induction false} SplitOnceSound(s: string, pattern: string)
    requires pattern != [] && SplitOnce(s, pattern).Some?
    ensures
      var (before, after) := SplitOnce(s, pattern).value;
      s == before + pattern + after && (|pattern| == 1 ==> pattern[0] !in before)
  {
    SplitOnceJoins(s, pattern);
    if |pattern| == 1 {
      assert pattern == [pattern[0]];
      SplitOnceLacks(s, pattern[0]);
    }
  }

  lemma {:induction false} SplitOnceAt(before: string, pattern: string, after: string)
    requires pattern != [] && pattern[0] !in before
    ensures SplitOnce(before + pattern + after, pattern) == Some((before, after))
  {
    var s := before + pattern + after;
    if before == [] {
      assert s == pattern + after;
    } else {
      assert s[0] == before[0] != pattern[0];
      assert !(pattern <= s);
      assert s[1..] == before[1..] + pattern + after;
      SplitOnceAt(before[1..], pattern, after);
      assert [before[0]] + before[1..] == before;
    }
  }

  lemma {:induction false} SplitOnceNone(s: string, c: char)
    ensures SplitOnce(s, [c]).None? <==> c !in s
  {
    if s != [] {
      SplitOnceNone(s[1..], c);
      assert s == [s[0]] + s[1..];
    }
  }

  /** A text without the first character of `pattern` does not hold `pattern`. */
  lemma {:induction false} SplitOnceAbsent(s: string, pattern: string)
    requires pattern != [] && pattern[0] !in s
    ensures SplitOnce(s, pattern).None?
  {
    if s != [] {
      assert s[0] in s;
      assert !(pattern <= s);
      SplitOnceAbsent(s[1..], pattern);
    } else {
      assert !(pattern <= s);
    }
  }

  predicate EndsWith(s: string, suffix: string) {
    |suffix| <= |s| && s[|s| - |suffix|..] == suffix
  }

  // Trimming.

  function TrimStart(s: string): string {
    if s != [] && IsWhitespace(s[0]) then TrimStart(s[1..]) else s
  }

  function TrimEnd(s: string): string {
    if s != [] && IsWhitespace(s[|s| - 1]) then TrimEnd(s[..|s| - 1]) else s
  }

  function Trim(s: string): string {
    TrimEnd(TrimStart(s))
  }
}
