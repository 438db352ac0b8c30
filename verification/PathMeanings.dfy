/**
  What the normaliser makes of a path, said of the path's own parts: the characters and escapes it
  is spelled with, the slashes that are kept, and its segments. Digits and the characters that need no
  escape are taken from their own texts.
*/
module PathMeanings {
  import opened Alphabets
  import opened Paths
  import opened Pieces
  import opened Text
  import opened Wrappers

  // Escapes.

  const DIGITS := "0123456789ABCDEF"

  const MARKS := "-._~"

  type Octet = n: nat | n < 256

  /** The characters that mean the same escaped or not (section 2.3 of RFC 3986). */
  predicate NeedsNoEscape(n: Octet) {
    var c := n as char;
    c in UPPERCASE || c in LOWERCASE || c in NUMERALS || c in MARKS
  }

  /** A digit, in uppercase or in lowercase. */
  function Digit(d: nat, lower: bool): char
    requires d < 16
  {
    if lower then LowerChar(DIGITS[d]) else DIGITS[d]
  }

  function Escape(n: Octet, lowerHigh: bool, lowerLow: bool): string {
    ['%', Digit(n / 16, lowerHigh), Digit(n % 16, lowerLow)]
  }

  lemma DigitIsRead(d: nat, lower: bool)
    requires d < 16
    ensures IsHex(Digit(d, lower)) && HexValue(Digit(d, lower)) == d
    ensures UpperChar(Digit(d, lower)) == DIGITS[d]
  {
  }

  /** The escape of `n` is read as `n`, in either case. */
  lemma {:induction false} EscapeIsRead(n: Octet, lowerHigh: bool, lowerLow: bool)
    ensures
      var e := Escape(n, lowerHigh, lowerLow);
      EscapeAt(e, 0) && Byte(e[1], e[2]) == n
  {
    DigitIsRead(n / 16, lowerHigh);
    DigitIsRead(n % 16, lowerLow);
  }

  lemma {:induction false} HexIsADigit(c: char) returns (d: nat, lower: bool)
    requires IsHex(c)
    ensures d < 16 && c == Digit(d, lower)
  {
    d, lower := HexValue(c), 'a' <= c <= 'f';
    DigitIsRead(d, lower);
  }

  lemma TwoDigits(high: nat, low: nat)
    requires high < 16 && low < 16
    ensures (16 * high + low) / 16 == high && (16 * high + low) % 16 == low && 16 * high + low < 256
  {
  }

  lemma {:induction false} EscapeIsOne(h: char, l: char) returns (n: Octet, lowerHigh: bool, lowerLow: bool)
    requires IsHex(h) && IsHex(l)
    ensures ['%', h, l] == Escape(n, lowerHigh, lowerLow)
  {
    var high, low;
    high, lowerHigh := HexIsADigit(h);
    low, lowerLow := HexIsADigit(l);
    TwoDigits(high, low);
    n := 16 * high + low;
  }

  lemma {:induction false} UnreservedNeedsNone(n: Octet)
    ensures Unreserved(n) <==> NeedsNoEscape(n)
  {
    UppercaseIs(n as char);
    LowercaseIs(n as char);
    NumeralIs(n as char);
  }

  // What a text is spelled with.

  datatype Token =
    | Plain(c: char)
    | Escaped(n: Octet, lowerHigh: bool, lowerLow: bool)

  predicate AreTokens(tokens: seq<Token>) {
    forall i :: 0 <= i < |tokens| ==> tokens[i] != Plain('%')
  }

  function Joined(tokens: seq<Token>, one: Token -> string): string {
    if tokens == [] then "" else one(tokens[0]) + Joined(tokens[1..], one)
  }

  function SpelledOne(t: Token): string {
    match t
    case Plain(c) => [c]
    case Escaped(n, lowerHigh, lowerLow) => Escape(n, lowerHigh, lowerLow)
  }

  function Spelled(tokens: seq<Token>): string {
    Joined(tokens, SpelledOne)
  }

  /** A character is itself; an escape is the character where that needs none, and is otherwise kept,
      in uppercase. */
  function MeaningOne(t: Token): string {
    match t
    case Plain(c) => [c]
    case Escaped(n, _, _) => if NeedsNoEscape(n) then [n as char] else Escape(n, false, false)
  }

  function Meaning(tokens: seq<Token>): string {
    Joined(tokens, MeaningOne)
  }

  lemma {:induction false} KeptIsMeant(n: Octet, lowerHigh: bool, lowerLow: bool)
    ensures
      var e := Escape(n, lowerHigh, lowerLow);
      && IsHex(e[1]) && IsHex(e[2])
      && Kept(e[1], e[2]) == MeaningOne(Escaped(n, lowerHigh, lowerLow))
  {
    EscapeIsRead(n, lowerHigh, lowerLow);
    DigitIsRead(n / 16, lowerHigh);
    DigitIsRead(n % 16, lowerLow);
    UnreservedNeedsNone(n);
  }

  /** One token read, and then the rest. */
  lemma {:induction false} DecodeOne(t: Token, rest: string)
    requires t != Plain('%')
    ensures Decode(SpelledOne(t) + rest) ==
            if Decode(rest).None? then None else Some(MeaningOne(t) + Decode(rest).value)
  {
    var s := SpelledOne(t) + rest;
    assert s[|SpelledOne(t)|..] == rest;
    if t.Escaped? {
      KeptIsMeant(t.n, t.lowerHigh, t.lowerLow);
      assert s[1] == SpelledOne(t)[1] && s[2] == SpelledOne(t)[2];
    }
  }

  /** What is spelled is decoded to what it means. */
  lemma {:induction false} DecodeMeans(tokens: seq<Token>)
    requires AreTokens(tokens)
    ensures Decode(Spelled(tokens)) == Some(Meaning(tokens))
  {
    if tokens != [] {
      DecodeMeans(tokens[1..]);
      DecodeOne(tokens[0], Spelled(tokens[1..]));
    }
  }

  lemma {:induction false} OneMore(t: Token, rest: seq<Token>)
    requires t != Plain('%') && AreTokens(rest)
    ensures AreTokens([t] + rest) && Spelled([t] + rest) == SpelledOne(t) + Spelled(rest)
  {
    assert ([t] + rest)[1..] == rest;
  }

  /** And nothing else is decoded: each `%` must begin an escape. */
  lemma {:induction false} DecodedIsSpelled(s: string) returns (tokens: seq<Token>)
    requires Decode(s).Some?
    ensures AreTokens(tokens) && Spelled(tokens) == s
  {
    tokens := [];
    if s != [] {
      if s[0] != '%' {
        var rest := DecodedIsSpelled(s[1..]);
        tokens := [Plain(s[0])] + rest;
        OneMore(Plain(s[0]), rest);
        assert s == [s[0]] + s[1..];
      } else {
        var rest := DecodedIsSpelled(s[3..]);
        var n, high, low := EscapeIsOne(s[1], s[2]);
        tokens := [Escaped(n, high, low)] + rest;
        OneMore(Escaped(n, high, low), rest);
        assert s == ['%', s[1], s[2]] + s[3..];
      }
    }
  }

  /** What follows a text is read as it would be alone, if the text is read to its end. */
  lemma {:induction false} DecodeAfter(tokens: seq<Token>, rest: string)
    requires AreTokens(tokens)
    ensures Decode(Spelled(tokens) + rest) ==
            if Decode(rest).None? then None else Some(Meaning(tokens) + Decode(rest).value)
  {
    if tokens == [] {
      assert Spelled(tokens) + rest == rest;
      assert Decode(rest).Some? ==> "" + Decode(rest).value == Decode(rest).value;
    } else {
      var first, others := SpelledOne(tokens[0]), Spelled(tokens[1..]);
      assert (first + others) + rest == first + (others + rest);
      DecodeAfter(tokens[1..], rest);
      DecodeOne(tokens[0], others + rest);
      var meant, more := MeaningOne(tokens[0]), Meaning(tokens[1..]);
      assert Decode(rest).Some? ==>
               meant + (more + Decode(rest).value) == (meant + more) + Decode(rest).value;
    }
  }

  lemma {:induction false} ReadAlike(a: string, x: string, y: string)
    requires Decode(a).Some? && Decode(x) == Decode(y)
    ensures Decode(a + x) == Decode(a + y)
  {
    var tokens := DecodedIsSpelled(a);
    DecodeAfter(tokens, x);
    DecodeAfter(tokens, y);
  }

  lemma {:induction false} EscapedAloneAlike(n: Octet, lowerHigh: bool, lowerLow: bool, b: string)
    requires NeedsNoEscape(n)
    ensures Decode(Escape(n, lowerHigh, lowerLow) + b) == Decode([n as char] + b)
  {
    UnreservedNeedsNone(n);
    assert n as char != '%';
    DecodeOne(Escaped(n, lowerHigh, lowerLow), b);
    DecodeOne(Plain(n as char), b);
  }

  /** Escaped or not, a character that needs no escape is matched alike, wherever it stands that is not
      within an escape. */
  lemma {:induction false} EscapedAlike(a: string, n: Octet, lowerHigh: bool, lowerLow: bool, b: string)
    requires NeedsNoEscape(n) && Decode(a).Some?
    ensures Decode(a + (Escape(n, lowerHigh, lowerLow) + b)) == Decode(a + ([n as char] + b))
  {
    EscapedAloneAlike(n, lowerHigh, lowerLow, b);
    ReadAlike(a, Escape(n, lowerHigh, lowerLow) + b, [n as char] + b);
  }

  // Slashes.

  /** A slash after a slash. */
  predicate IsRepeat(s: string, i: nat)
    requires i < |s|
  {
    i > 0 && s[i] == '/' && s[i - 1] == '/'
  }

  /** The places of the other characters, in order. */
  function Places(s: string, n: nat): seq<nat>
    requires n <= |s|
  {
    if n == 0 then [] else Places(s, n - 1) + if IsRepeat(s, n - 1) then [] else [n - 1]
  }

  lemma {:induction false} PlacesAre(s: string, n: nat)
    requires n <= |s|
    ensures
      var places := Places(s, n);
      && (forall k: nat :: k in places <==> k < n && !IsRepeat(s, k))
      && forall i, j :: 0 <= i < j < |places| ==> places[i] < places[j]
  {
    if n > 0 {
      PlacesAre(s, n - 1);
      var front := Places(s, n - 1);
      assert forall i :: 0 <= i < |front| ==> front[i] in front;
    }
  }

  lemma {:induction false} MergePicks(s: string, n: nat)
    requires n <= |s|
    ensures
      var places := Places(s, n);
      && |Merge(s[..n])| == |places|
      && forall j :: 0 <= j < |places| ==> places[j] < |s| && Merge(s[..n])[j] == s[places[j]]
  {
    if n > 0 {
      MergePicks(s, n - 1);
      MergeOneMore(s[..n - 1], s[n - 1]);
      assert s[..n] == s[..n - 1] + [s[n - 1]];
    }
  }

  /** Merging takes out exactly each slash that follows a slash, and leaves the rest in order. */
  lemma {:induction false} MergeMeans(s: string)
    ensures
      var places := Places(s, |s|);
      && (forall k: nat :: k in places <==> k < |s| && !IsRepeat(s, k))
      && (forall i, j :: 0 <= i < j < |places| ==> places[i] < places[j])
      && |Merge(s)| == |places|
      && forall j :: 0 <= j < |places| ==> places[j] < |s| && Merge(s)[j] == s[places[j]]
  {
    assert s[..|s|] == s;
    PlacesAre(s, |s|);
    MergePicks(s, |s|);
  }

  // Segments.

  /** `x` stands between slashes or the ends of `path`. */
  ghost predicate IsSegment(path: string, x: string) {
    IsPiece(path, '/', x)
  }

  /** A dot segment, with or without parameters. */
  predicate IsDotted(x: string) {
    x == "." || x == ".." || ".;" <= x || "..;" <= x
  }

  lemma {:induction false} DotsAreDotted(x: string)
    ensures IsDots(WithoutParams(x)) <==> IsDotted(x)
  {
    if ".;" <= x {
      assert x == "." + ";" + x[2..];
      SplitOnceAt(".", ";", x[2..]);
    } else if "..;" <= x {
      assert x == ".." + ";" + x[3..];
      SplitOnceAt("..", ";", x[3..]);
    } else if SplitOnce(x, ";").Some? {
      SplitOnceSound(x, ";");
      var name := SplitOnce(x, ";").value.0;
      assert name == "." ==> ".;" <= x;
      assert name == ".." ==> "..;" <= x;
    }
  }

  /** A path has dots exactly where one of its segments is a dot segment. */
  lemma {:induction false} DotsMean(path: string)
    ensures HasDots(path) <==> exists x :: IsDotted(x) && IsSegment(path, x)
  {
    if HasDots(path) {
      var i :| 0 <= i < |Split(path, '/')| && IsDots(WithoutParams(Split(path, '/')[i]));
      var a, b := SplitStands(path, '/', i);
      DotsAreDotted(Split(path, '/')[i]);
      assert IsSegment(path, Split(path, '/')[i]);
    }
    forall x | IsDotted(x) && IsSegment(path, x) ensures HasDots(path) {
      var a, b :| StandsBetween(path, '/', a, x, b);
      SplitIsThere(path, '/', a, x, b);
      DotsAreDotted(x);
      var i :| 0 <= i < |Split(path, '/')| && Split(path, '/')[i] == x;
    }
  }

  /** What a request's path is matched as: nothing stands for the root; a path is refused if and only if
      it is not absolute, is not spelled in characters and escapes, or has a dot segment once those are
      read and slashes merged; and otherwise it is what is left then. */
  lemma {:induction false} NormalisedMeans(raw: string)
    ensures raw == "" ==> Normalised(raw) == Some("/")
    ensures raw != "" && raw[0] != '/' ==> Normalised(raw) == None
    ensures (forall tokens :: AreTokens(tokens) ==> Spelled(tokens) != raw) ==> Normalised(raw) == None
    ensures forall tokens :: AreTokens(tokens) && Spelled(tokens) == raw && raw != "" && raw[0] == '/' ==>
              var path := Merge(Meaning(tokens));
              Normalised(raw) == if exists x :: IsDotted(x) && IsSegment(path, x) then None else Some(path)
  {
    if raw != "" && Decode(raw).Some? {
      var tokens := DecodedIsSpelled(raw);
    }
    if raw == "" {
      assert Spelled([]) == raw;
    }
    forall tokens | AreTokens(tokens) && Spelled(tokens) == raw && raw != "" && raw[0] == '/'
      ensures
        var path := Merge(Meaning(tokens));
        Normalised(raw) == if exists x :: IsDotted(x) && IsSegment(path, x) then None else Some(path)
    {
      DecodeMeans(tokens);
      DotsMean(Merge(Meaning(tokens)));
    }
  }

  // Matching.

  lemma {:induction false} SplitPrefix(a: string, b: string)
    ensures Split(a, '/') <= Split(b, '/') <==> b == a || a + "/" <= b
  {
    if a + "/" <= b {
      assert b == a + ['/'] + b[|a| + 1..];
      SplitJoined(a, '/', b[|a| + 1..]);
    }
    if Split(a, '/') <= Split(b, '/') {
      SplitPrefixOnly(a, b);
    }
  }

  lemma HeadAndTail(c: char, x: string, d: char, y: string)
    requires [c] + x == [d] + y
    ensures c == d && x == y
  {
    assert ([c] + x)[0] == ([d] + y)[0];
    assert ([c] + x)[1..] == x && ([d] + y)[1..] == y;
  }

  lemma {:induction false} PiecesAreAPrefix(x: seq<string>, y: seq<string>)
    requires x != [] && y != [] && x[0] == y[0] && x[1..] <= y[1..]
    ensures x <= y
  {
    assert x == [x[0]] + x[1..] && y == [y[0]] + y[1..];
  }

  lemma {:induction false} SplitPrefixOnly(a: string, b: string)
    requires Split(a, '/') <= Split(b, '/')
    ensures b == a || a + "/" <= b
    decreases |a|
  {
    if a != "" {
      var c, x := a[0], Split(a[1..], '/');
      assert a == [c] + a[1..];
      SplitOneMore(c, a[1..], '/');
      assert Split(a, '/')[0] == Split(b, '/')[0];
      assert Split("", '/') == [""];
      assert b != "";
      var d, y := b[0], Split(b[1..], '/');
      assert b == [d] + b[1..];
      SplitOneMore(d, b[1..], '/');
      if c != '/' {
        HeadAndTail(c, x[0], d, y[0]);
        assert Split(a, '/')[1..] == x[1..] && Split(b, '/')[1..] == y[1..];
        PiecesAreAPrefix(x, y);
      } else {
        assert Split(a, '/')[1..] == x && Split(b, '/')[1..] == y;
      }
      SplitPrefixOnly(a[1..], b[1..]);
    } else if b != "" {
      assert b == [b[0]] + b[1..];
      SplitOneMore(b[0], b[1..], '/');
      assert Split(a, '/')[0] == "" && Split(b, '/')[0] == Split(a, '/')[0];
      assert b[0] == '/';
    }
  }

  /** A prefix matches the paths whose first segments are its own, and the root every path; an exact
      path matches itself. */
  lemma {:induction false} MatchesMeans(stored: string, path: string)
    ensures Matches(Prefix, stored, path) <==> stored == "/" || Split(stored, '/') <= Split(path, '/')
    ensures Matches(Exact, stored, path) <==> path == stored
  {
    SplitPrefix(stored, path);
  }
}
