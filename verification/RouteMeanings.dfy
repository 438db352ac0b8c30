/**
  What a route request says, field by field, with the bounds written out, and that it is accepted if
  and only if it says a route, as that route; and that a refusal names a field that is at fault.
*/
module RouteMeanings {
  import opened PathMeanings
  import opened Paths
  import opened Pieces
  import opened RoutePaths
  import opened Routes
  import opened Text
  import opened Wrappers

  // Lists in which a value given twice is kept once.

  /** `x` comes up before `y` first does. */
  ghost predicate Precedes<T>(all: seq<T>, x: T, y: T) {
    exists k :: 0 <= k < |all| && all[k] == x && y !in all[..k + 1]
  }

  /** The values of a list, each once, in the order they first come up. */
  ghost predicate Firsts<T(!new)>(all: seq<T>, kept: seq<T>) {
    && NoRepeats(kept)
    && (forall x :: x in all <==> x in kept)
    && forall i, j :: 0 <= i < j < |kept| ==> Precedes(all, kept[i], kept[j])
  }

  lemma {:induction false} PrecedesStill<T>(all: seq<T>, m: T, x: T, y: T)
    requires y in all
    ensures Precedes(all + [m], x, y) <==> Precedes(all, x, y)
  {
    var more := all + [m];
    if k :| 0 <= k < |more| && more[k] == x && y !in more[..k + 1] {
      assert k < |all| by {
        assert more[..|all| + 1] == more && y in more;
      }
      assert more[..k + 1] == all[..k + 1];
    }
    if k :| 0 <= k < |all| && all[k] == x && y !in all[..k + 1] {
      assert more[k] == x && more[..k + 1] == all[..k + 1];
    }
  }

  lemma {:induction false} FirstsWithRepeat<T(!new)>(all: seq<T>, m: T, kept: seq<T>)
    requires m in all
    ensures Firsts(all + [m], kept) <==> Firsts(all, kept)
  {
    assert forall x :: x in all + [m] <==> x in all;
    if forall x :: x in all <==> x in kept {
      forall i, j | 0 <= i < j < |kept|
        ensures Precedes(all + [m], kept[i], kept[j]) <==> Precedes(all, kept[i], kept[j])
      {
        assert kept[j] in all;
        PrecedesStill(all, m, kept[i], kept[j]);
      }
    }
  }

  lemma {:induction false} FirstsWithNew<T(!new)>(all: seq<T>, m: T, kept: seq<T>)
    requires m !in all && Firsts(all, kept)
    ensures Firsts(all + [m], kept + [m])
  {
    var more, out := all + [m], kept + [m];
    forall i, j | 0 <= i < j < |out| ensures Precedes(more, out[i], out[j]) {
      if j < |kept| {
        assert kept[j] in all;
        PrecedesStill(all, m, kept[i], kept[j]);
      } else {
        assert kept[i] in all;
        var k :| 0 <= k < |all| && all[k] == kept[i];
        assert more[k] == kept[i] && more[..k + 1] == all[..k + 1];
      }
    }
  }

  lemma {:induction false} NothingFollowsNew<T>(all: seq<T>, m: T, y: T)
    requires m !in all && Precedes(all + [m], m, y)
    ensures y !in all + [m]
  {
    var more := all + [m];
    var k :| 0 <= k < |more| && more[k] == m && y !in more[..k + 1];
    assert k == |all| && more[..k + 1] == more;
  }

  lemma {:induction false} NewIsLast<T(!new)>(all: seq<T>, m: T, kept: seq<T>)
    requires m !in all && Firsts(all + [m], kept)
    ensures kept != [] && kept[|kept| - 1] == m
  {
    assert (all + [m])[|all|] == m && m in kept;
    var p :| 0 <= p < |kept| && kept[p] == m;
    var last := |kept| - 1;
    assert kept[last] in all + [m];
    if p < last {
      NothingFollowsNew(all, m, kept[last]);
    }
  }

  lemma {:induction false} FirstsWithoutNew<T(!new)>(all: seq<T>, m: T, kept: seq<T>)
    requires m !in all && Firsts(all + [m], kept + [m])
    ensures Firsts(all, kept)
  {
    var more, out := all + [m], kept + [m];
    assert forall i :: 0 <= i < |kept| ==> out[i] == kept[i];
    assert m !in kept by {
      assert forall i :: 0 <= i < |kept| ==> out[i] != out[|kept|];
    }
    forall x ensures x in all <==> x in kept {
      assert x in more <==> x in out;
    }
    forall i, j | 0 <= i < j < |kept| ensures Precedes(all, kept[i], kept[j]) {
      assert Precedes(more, out[i], out[j]) && kept[j] in all;
      PrecedesStill(all, m, kept[i], kept[j]);
    }
  }

  lemma FirstComesUp<T(!new)>(all: seq<T>, kept: seq<T>)
    requires Firsts(all, kept)
    ensures kept != [] ==> kept[0] in all
  {
  }

  ghost predicate EachMeans<A, B>(items: seq<A>, means: (A, B) -> bool, all: seq<B>) {
    |items| == |all| && forall i :: 0 <= i < |items| ==> means(items[i], all[i])
  }

  /** What the entries mean, each once, in order. */
  ghost predicate ListMeans<A, B(!new)>(items: seq<A>, means: (A, B) -> bool, kept: seq<B>) {
    exists all :: EachMeans(items, means, all) && Firsts(all, kept)
  }

  ghost predicate Decides<A(!new), B(!new)>(check: (nat, A) -> Result<B, Field>, means: (A, B) -> bool) {
    forall i: nat, a, b :: check(i, a) == Ok(b) <==> means(a, b)
  }

  lemma {:induction false} CollectMeans<A(!new), B(!new)>(
    items: seq<A>, check: (nat, A) -> Result<B, Field>, means: (A, B) -> bool, kept: seq<B>)
    requires Decides(check, means) && Collect(items, check) == Ok(kept)
    ensures ListMeans(items, means, kept)
  {
    if items == [] {
      assert EachMeans(items, means, []) && Firsts([], kept);
    } else {
      var last := |items| - 1;
      var out := Collect(items[..last], check).value;
      CollectMeans(items[..last], check, means, out);
      var all :| EachMeans(items[..last], means, all) && Firsts(all, out);
      var m := check(last, items[last]).value;
      assert EachMeans(items, means, all + [m]);
      if m in out {
        FirstsWithRepeat(all, m, kept);
      } else {
        FirstsWithNew(all, m, out);
      }
    }
  }

  lemma FirstsOfNone<T(!new)>(kept: seq<T>)
    requires Firsts([], kept)
    ensures kept == []
  {
    FirstComesUp([], kept);
  }

  lemma {:induction false} EachMeansFront<A, B>(items: seq<A>, means: (A, B) -> bool, all: seq<B>)
    requires items != [] && EachMeans(items, means, all)
    ensures
      var last := |items| - 1;
      EachMeans(items[..last], means, all[..last]) && means(items[last], all[last]) && all == all[..last] + [all[last]]
  {
  }

  lemma {:induction false} MeantIsCollected<A(!new), B(!new)>(
    items: seq<A>, check: (nat, A) -> Result<B, Field>, means: (A, B) -> bool, all: seq<B>, kept: seq<B>)
    requires Decides(check, means) && EachMeans(items, means, all) && Firsts(all, kept)
    ensures Collect(items, check) == Ok(kept)
  {
    if items == [] {
      assert all == [];
      FirstsOfNone(kept);
    } else {
      var last := |items| - 1;
      var front, m := all[..last], all[last];
      EachMeansFront(items, means, all);
      assert check(last, items[last]) == Ok(m);
      if m in front {
        FirstsWithRepeat(front, m, kept);
        MeantIsCollected(items[..last], check, means, front, kept);
        assert m in kept;
      } else {
        NewIsLast(front, m, kept);
        var out := kept[..|kept| - 1];
        assert kept == out + [m];
        FirstsWithoutNew(front, m, out);
        MeantIsCollected(items[..last], check, means, front, out);
        assert m !in out;
      }
    }
  }

  lemma {:induction false} CollectIff<A(!new), B(!new)>(
    items: seq<A>, check: (nat, A) -> Result<B, Field>, means: (A, B) -> bool, kept: seq<B>)
    requires Decides(check, means)
    ensures Collect(items, check) == Ok(kept) <==> ListMeans(items, means, kept)
  {
    if Collect(items, check) == Ok(kept) {
      CollectMeans(items, check, means, kept);
    }
    if ListMeans(items, means, kept) {
      var all :| EachMeans(items, means, all) && Firsts(all, kept);
      MeantIsCollected(items, check, means, all, kept);
    }
  }

  // Hosts.

  /** 1 to 63 letters, digits and hyphens, no hyphen at either end. */
  predicate LabelIsOk(x: string) {
    && 1 <= |x| <= 63 && x[0] != '-' && x[|x| - 1] != '-'
    && forall i :: 0 <= i < |x| ==> IsAlphanumeric(x[i]) || x[i] == '-'
  }

  /** Labels between dots, 253 characters at most in all, the last label beginning with a letter. */
  ghost predicate IsDomain(name: string) {
    && |name| <= 253
    && (forall x :: IsPiece(name, '.', x) ==> LabelIsOk(x))
    && exists a, x :: StandsBetween(name, '.', a, x, "") && '.' !in x && x != "" && (IsUpper(x[0]) || IsLower(x[0]))
  }

  lemma {:induction false} LabelsIff(name: string)
    ensures (forall i :: 0 <= i < |Split(name, '.')| ==> IsLabel(Split(name, '.')[i])) <==>
            forall x :: IsPiece(name, '.', x) ==> LabelIsOk(x)
  {
    var labels := Split(name, '.');
    if forall i :: 0 <= i < |labels| ==> IsLabel(labels[i]) {
      forall x | IsPiece(name, '.', x) ensures LabelIsOk(x) {
        PiecesAre(name, '.', x);
        var i :| 0 <= i < |labels| && labels[i] == x;
      }
    }
    if forall x :: IsPiece(name, '.', x) ==> LabelIsOk(x) {
      forall i | 0 <= i < |labels| ensures IsLabel(labels[i]) {
        PiecesAre(name, '.', labels[i]);
      }
    }
  }

  lemma {:induction false} LastLabelIs(name: string, a: string, x: string)
    requires StandsBetween(name, '.', a, x, "") && '.' !in x
    ensures x == Split(name, '.')[|Split(name, '.')| - 1]
  {
    SplitIsThere(name, '.', a, x, "");
  }

  lemma {:induction false} DomainIff(name: string)
    ensures IsDnsName(name) <==> IsDomain(name)
  {
    LabelsIff(name);
    var last := |Split(name, '.')| - 1;
    var a, b := SplitStands(name, '.', last);
    forall c, x | StandsBetween(name, '.', c, x, "") && '.' !in x ensures x == Split(name, '.')[last] {
      LastLabelIs(name, c, x);
    }
  }

  /** A host is lowercased: a domain, or `*.` and one. */
  ghost predicate HostMeans(sent: string, kept: string) {
    kept == Lower(sent) && (IsDomain(kept) || exists name :: kept == "*." + name && IsDomain(name))
  }

  lemma {:induction false} StarIsNoLabel(name: string)
    ensures !IsDnsName("*." + name)
  {
    var host := "*." + name;
    assert StandsBetween(host, '.', "", "*", host[1..]);
    SplitIsThere(host, '.', "", "*", host[1..]);
    assert !IsLabel("*");
  }

  lemma {:induction false} HostIsRead(i: nat, sent: string, kept: string)
    ensures CheckHost(i, sent) == Ok(kept) <==> HostMeans(sent, kept)
  {
    var lowered := Lower(sent);
    DomainIff(lowered);
    if "*." <= lowered {
      assert lowered == "*." + lowered[2..];
      StarIsNoLabel(lowered[2..]);
      DomainIff(lowered[2..]);
    }
    forall name | lowered == "*." + name ensures "*." <= lowered && name == lowered[2..] {
    }
  }

  // Paths.

  /** Three characters that `%` may begin: an escape of a character that needs one, or a plus and a
      digit. */
  ghost predicate IsEscape(x: string) {
    || (exists n: Octet, h, l :: !NeedsNoEscape(n) && x == Escape(n, h, l))
    || (exists d: nat, lower :: d < 16 && x == ['%', '+', Digit(d, lower)])
  }

  /** An absolute path in visible characters, none of them `?`, `#` or `;`, without empty and dot
      segments, in which every `%` begins an escape. */
  ghost predicate IsPlain(value: string) {
    && value != "" && value[0] == '/'
    && (forall i :: 0 <= i < |value| ==> '!' <= value[i] <= '~' && value[i] !in ['?', '#', ';'])
    && (forall i :: 0 <= i < |value| - 1 ==> !(value[i] == '/' && value[i + 1] == '/'))
    && !IsPiece(value, '/', ".") && !IsPiece(value, '/', "..")
    && forall i :: 0 <= i < |value| && value[i] == '%' ==> i + 3 <= |value| && IsEscape(value[i..i + 3])
  }

  lemma {:induction false} EscapeIsOk(s: string)
    requires s != "" && s[0] == '%'
    ensures EscapeOk(s) <==> 3 <= |s| && IsEscape(s[..3])
  {
    if |s| >= 3 {
      var x := s[..3];
      assert x == ['%', s[1], s[2]];
      if EscapeOk(s) {
        OkIsEscape(x);
      }
      if IsEscape(x) {
        EscapeReads(x);
      }
    }
  }

  lemma {:induction false} HexIsEscape(h: char, l: char)
    requires IsHex(h) && IsHex(l) && !Unreserved(Byte(h, l))
    ensures IsEscape(['%', h, l])
  {
    var n, upper, lower := EscapeIsOne(h, l);
    assert Byte(h, l) == n by {
      EscapeIsRead(n, upper, lower);
    }
    UnreservedNeedsNone(n);
    assert !NeedsNoEscape(n);
  }

  lemma {:induction false} SignedIsEscape(l: char)
    requires IsHex(l)
    ensures IsEscape(['%', '+', l])
  {
    var d, lower := HexIsADigit(l);
  }

  lemma {:induction false} OkIsEscape(x: string)
    requires |x| == 3 && x[0] == '%' && EscapeOk(x)
    ensures IsEscape(x)
  {
    assert x == ['%', x[1], x[2]];
    if IsHex(x[1]) && IsHex(x[2]) {
      HexIsEscape(x[1], x[2]);
    } else {
      SignedIsEscape(x[2]);
    }
  }

  lemma {:induction false} EscapeReads(x: string)
    requires |x| == 3 && IsEscape(x)
    ensures x[0] == '%' && EscapeOk(x)
  {
    if n: Octet, h, l :| !NeedsNoEscape(n) && x == Escape(n, h, l) {
      EscapeIsRead(n, h, l);
      UnreservedNeedsNone(n);
    } else {
      var d: nat, lower :| d < 16 && x == ['%', '+', Digit(d, lower)];
      DigitIsRead(d, lower);
      SmallNeedsEscape(d);
    }
  }

  lemma SmallNeedsEscape(d: nat)
    requires d < 16
    ensures !Unreserved(d)
  {
  }

  lemma {:induction false} EscapesAreOk(s: string)
    ensures EscapesOk(s) <==> forall i :: 0 <= i < |s| ==> EscapeOk(s[i..])
  {
    if s != "" {
      EscapesAreOk(s[1..]);
      assert forall i :: 0 <= i < |s| - 1 ==> s[1..][i..] == s[i + 1..];
      assert s[0..] == s;
      assert forall i :: 1 <= i < |s| ==> s[i..] == s[1..][i - 1..];
    }
  }

  lemma {:induction false} EscapesIff(s: string)
    ensures EscapesOk(s) <==>
            forall i :: 0 <= i < |s| && s[i] == '%' ==> i + 3 <= |s| && IsEscape(s[i..i + 3])
  {
    EscapesAreOk(s);
    forall i | 0 <= i < |s|
      ensures EscapeOk(s[i..]) <==> (s[i] == '%' ==> i + 3 <= |s| && IsEscape(s[i..i + 3]))
    {
      if s[i] == '%' {
        EscapeIsOk(s[i..]);
        if i + 3 <= |s| {
          assert s[i..][..3] == s[i..i + 3];
        }
      }
    }
  }

  lemma {:induction false} EmptySegmentIff(s: string)
    ensures Contains(s, "//") <==> exists i :: 0 <= i < |s| - 1 && s[i] == '/' && s[i + 1] == '/'
  {
    if s != "" {
      EmptySegmentIff(s[1..]);
      if Contains(s[1..], "//") {
        var i :| 0 <= i < |s[1..]| - 1 && s[1..][i] == '/' && s[1..][i + 1] == '/';
        assert s[i + 1] == '/' && s[i + 1 + 1] == '/';
      } else if "//" <= s {
        assert s[0] == '/' && s[0 + 1] == '/';
      }
      forall i | 0 <= i < |s| - 1 && s[i] == '/' && s[i + 1] == '/' ensures Contains(s, "//") {
        if i > 0 {
          assert s[1..][i - 1] == '/' && s[1..][i - 1 + 1] == '/';
        }
      }
    }
  }

  lemma {:induction false} DotSegmentsIff(s: string)
    ensures SegmentsOk(s) <==> !IsPiece(s, '/', ".") && !IsPiece(s, '/', "..")
  {
    PiecesAre(s, '/', ".");
    PiecesAre(s, '/', "..");
  }

  lemma {:induction false} PlainIff(value: string)
    ensures RoutePaths.Plain(value) <==> IsPlain(value)
  {
    EmptySegmentIff(value);
    DotSegmentsIff(value);
    EscapesIff(value);
    assert "/" <= value <==> value != "" && value[0] == '/';
    assert forall c: char :: c in "?#;" <==> c == '?' || c == '#' || c == ';';
  }

  /** The digits of escapes are uppercased, and nothing else. */
  ghost predicate UppercasesEscapes(sent: string, kept: string) {
    && |kept| == |sent|
    && forall i :: 0 <= i < |sent| ==> kept[i] == if InEscape(sent, i) then UpperChar(sent[i]) else sent[i]
  }

  lemma {:induction false} UppercasesIff(sent: string, kept: string)
    ensures UpperEscapes(sent) == kept <==> UppercasesEscapes(sent, kept)
  {
    UpperEscapesEverywhere(sent);
  }

  /** Two texts apart by a slash at the end, which the root does not lose. */
  predicate LosesSlash(value: string, kept: string) {
    if |value| > 1 && value[|value| - 1] == '/' then value == kept + "/" else kept == value
  }

  lemma {:induction false} StripsIff(value: string, kept: string)
    requires RoutePaths.Plain(value)
    ensures StripSlashes(value) == kept <==> LosesSlash(value, kept)
  {
    if |value| > 1 && value[|value| - 1] == '/' {
      EmptySegmentIff(value);
      var front := value[..|value| - 1];
      assert value == front + "/";
      assert |front| > 1 ==> front[|front| - 1] != '/';
      assert StripSlashes(front) == front;
    }
  }

  /** The path kept of a plain one. */
  ghost predicate StoredMeans(kind: Kind, sent: string, kept: string) {
    if kind == Prefix then exists upper :: UppercasesEscapes(sent, upper) && LosesSlash(upper, kept)
    else UppercasesEscapes(sent, kept)
  }

  ghost predicate PathMeans(compiles: string -> bool, sent: PathInput, kept: PathMatch) {
    && sent.kind == (match kept.kind case Regex => "regex" case Exact => "exact" case Prefix => "prefix")
    && 1 <= |sent.value| <= 1024
    && if kept.kind == Regex then
         kept.value == sent.value && compiles(sent.value) && UppercasesEscapes(sent.value, sent.value)
       else IsPlain(sent.value) && StoredMeans(kept.kind, sent.value, kept.value)
  }

  lemma {:induction false} StoredIff(kind: Kind, sent: string, kept: string)
    requires RoutePaths.Plain(sent)
    ensures Stored(kind, sent) == kept <==> StoredMeans(kind, sent, kept)
  {
    var upper := UpperEscapes(sent);
    UppercasesIff(sent, upper);
    UppercasesIff(sent, kept);
    UpperKeepsPlain(sent);
    StripsIff(upper, kept);
    forall other | UppercasesEscapes(sent, other) ensures other == upper {
      UppercasesIff(sent, other);
    }
  }

  lemma {:induction false} KindNamedIff(text: string, kind: Kind)
    ensures KindNamed(text) == Some(kind) <==>
            text == (match kind case Regex => "regex" case Exact => "exact" case Prefix => "prefix")
  {
    assert "prefix"[0] == 'p' && "exact"[0] == 'e' && "regex"[0] == 'r';
  }

  lemma {:induction false} PathIsRead(compiles: string -> bool, i: nat, sent: PathInput, kept: PathMatch)
    ensures CheckPath(compiles, i, sent) == Ok(kept) <==> PathMeans(compiles, sent, kept)
  {
    KindNamedIff(sent.kind, kept.kind);
    if KindNamed(sent.kind) == Some(kept.kind) {
      if kept.kind == Regex {
        UppercasesIff(sent.value, sent.value);
      } else {
        PlainIff(sent.value);
        if RoutePaths.Plain(sent.value) {
          StoredIff(kept.kind, sent.value, kept.value);
        }
      }
    }
  }

  // Methods and headers.

  ghost predicate MethodMeans(sent: string, kept: string) {
    && kept == Upper(sent)
    && kept in ["GET", "HEAD", "POST", "PUT", "PATCH", "DELETE", "OPTIONS", "CONNECT", "TRACE"]
  }

  /** 1 to 1024 visible characters, spaces and tabs, visible at both ends. */
  predicate ValueIsOk(value: string) {
    && 1 <= |value| <= 1024
    && (forall i :: 0 <= i < |value| ==> '!' <= value[i] <= '~' || value[i] == ' ' || value[i] == '\t')
    && '!' <= value[0] <= '~' && '!' <= value[|value| - 1] <= '~'
  }

  predicate HeaderNameMeans(sent: string, kept: string) {
    && 1 <= |sent| <= 64 && (forall i :: 0 <= i < |sent| ==> IsTokenChar(sent[i])) && kept == Lower(sent)
    && kept !in ["host", "x-consumer-username", "x-consumer-groups", "x-anonymous-consumer"]
  }

  predicate HeaderMeans(sent: HeaderMatch, kept: HeaderMatch) {
    HeaderNameMeans(sent.name, kept.name) && kept.value == sent.value && ValueIsOk(sent.value)
  }

  ghost predicate HeadersMean(sent: seq<HeaderMatch>, kept: seq<HeaderMatch>) {
    && |sent| == |kept|
    && (forall i :: 0 <= i < |sent| ==> HeaderMeans(sent[i], kept[i]))
    && forall i, j :: 0 <= i < j < |kept| ==> kept[i].name != kept[j].name
  }

  lemma HeaderNameIff(sent: string, kept: string)
    ensures HeaderNameMeans(sent, kept) <==>
            && kept == Lower(sent) && |sent| <= MAX_HEADER_NAME_CHARS && IsToken(sent)
            && kept != "host" && kept !in GATEWAY_HEADERS
  {
  }

  lemma {:induction false} HeaderIsRead(before: seq<HeaderMatch>, i: nat, sent: HeaderMatch, kept: HeaderMatch)
    ensures CheckHeader(before, i, sent) == Ok(kept) <==> HeaderMeans(sent, kept) && !Names(before, kept.name)
  {
    HeaderNameIff(sent.name, Lower(sent.name));
    assert IsHeaderValue(sent.value) <==> ValueIsOk(sent.value);
  }

  lemma {:induction false} HeadersOneMore(sent: seq<HeaderMatch>, kept: seq<HeaderMatch>)
    requires |sent| == |kept| > 0
    ensures
      var last := |sent| - 1;
      HeadersMean(sent, kept) <==>
      && HeadersMean(sent[..last], kept[..last])
      && HeaderMeans(sent[last], kept[last]) && !Names(kept[..last], kept[last].name)
  {
    var last := |sent| - 1;
    if HeadersMean(sent, kept) {
      assert forall i :: 0 <= i < last ==> sent[..last][i] == sent[i] && kept[..last][i] == kept[i];
    }
    if && HeadersMean(sent[..last], kept[..last])
       && HeaderMeans(sent[last], kept[last]) && !Names(kept[..last], kept[last].name)
    {
      assert forall i :: 0 <= i < last ==> sent[i] == sent[..last][i] && kept[i] == kept[..last][i];
    }
  }

  lemma {:induction false} HeadersAreRead(sent: seq<HeaderMatch>, kept: seq<HeaderMatch>)
    ensures CollectHeaders(sent) == Ok(kept) <==> HeadersMean(sent, kept)
  {
    if sent == [] || kept == [] {
      HeadersAreAsMany(sent);
    } else {
      var last := |sent| - 1;
      var front := kept[..|kept| - 1];
      assert kept == front + [kept[|kept| - 1]];
      HeadersAreAsMany(sent);
      HeadersAreRead(sent[..last], front);
      HeaderIsRead(front, last, sent[last], kept[|kept| - 1]);
      if |sent| == |kept| {
        HeadersOneMore(sent, kept);
      }
    }
  }

  lemma {:induction false} HeadersAreAsMany(sent: seq<HeaderMatch>)
    ensures CollectHeaders(sent).Ok? ==> |CollectHeaders(sent).value| == |sent|
  {
    if CollectHeaders(sent).Ok? {
      HeadersHold(sent);
    }
  }

  // Routes.

  /** 1 to 63 letters, digits and `. _ ~ -`, the first a letter or a digit. */
  predicate NameIsOk(name: string) {
    && 1 <= |name| <= 63 && IsAlphanumeric(name[0])
    && forall i :: 0 <= i < |name| ==> IsAlphanumeric(name[i]) || name[i] in ['.', '_', '~', '-']
  }

  function OneAtLeast(n: nat): nat {
    if n == 0 then 1 else n
  }

  ghost function PathsMean(compiles: string -> bool): (PathInput, PathMatch) -> bool {
    (sent, kept) => PathMeans(compiles, sent, kept)
  }

  /** Its headers, none where they are left out. */
  function HeadersSent(input: RouteInput): seq<HeaderMatch> {
    match input.headers
    case None => []
    case Some(headers) => headers
  }

  ghost predicate ListsMean(input: RouteInput, compiles: string -> bool, route: Route) {
    && |input.hosts| <= 32 && ListMeans(input.hosts, HostMeans, route.hosts)
    && |input.paths| <= 32 && ListMeans(input.paths, PathsMean(compiles), route.paths)
    && ListMeans(input.methods, MethodMeans, route.methods)
    && |HeadersSent(input)| <= 16 && HeadersMean(HeadersSent(input), route.headers)
  }

  /** A path is not stripped where the request does not say so, and no regex is. */
  ghost predicate RouteMeans(
    input: RouteInput, write: Write, compiles: string -> bool, route: Route, updatedAt: Option<string>)
  {
    && route.name == input.name && NameIsOk(input.name)
    && route.service == input.service && NameIsOk(input.service)
    && ListsMean(input, compiles, route)
    && OneAtLeast(|route.hosts|) * OneAtLeast(|route.paths|) * OneAtLeast(|route.methods|) <= 1024
    && (route.stripPath <==> input.stripPath == Some(true))
    && (route.stripPath ==> forall i :: 0 <= i < |route.paths| ==> route.paths[i].kind != Regex)
    && route.priority == input.priority
    && updatedAt == input.updatedAt && (write.Create? <==> updatedAt.None?)
  }

  lemma NameIff(name: string)
    ensures IsName(name) <==> NameIsOk(name)
  {
    assert forall c: char :: c in "._~-" <==> c in ['.', '_', '~', '-'];
  }

  lemma HostsDecide()
    ensures Decides(CheckHost, HostMeans)
  {
    forall i: nat, sent, kept ensures CheckHost(i, sent) == Ok(kept) <==> HostMeans(sent, kept) {
      HostIsRead(i, sent, kept);
    }
  }

  lemma PathsDecide(compiles: string -> bool)
    ensures Decides(PathCheck(compiles), PathsMean(compiles))
  {
    forall i: nat, sent, kept
      ensures PathCheck(compiles)(i, sent) == Ok(kept) <==> PathsMean(compiles)(sent, kept)
    {
      PathIsRead(compiles, i, sent, kept);
    }
  }

  lemma MethodsDecide()
    ensures Decides(CheckMethod, MethodMeans)
  {
  }

  lemma {:induction false} ListsAreRead(input: RouteInput, compiles: string -> bool, route: Route)
    ensures ListsMean(input, compiles, route) <==>
            && |input.hosts| <= MAX_HOSTS && Collect(input.hosts, CheckHost) == Ok(route.hosts)
            && |input.paths| <= MAX_PATHS && Collect(input.paths, PathCheck(compiles)) == Ok(route.paths)
            && Collect(input.methods, CheckMethod) == Ok(route.methods)
            && CheckHeaders(HeadersSent(input)) == Ok(route.headers)
  {
    HostsDecide();
    CollectIff(input.hosts, CheckHost, HostMeans, route.hosts);
    PathsDecide(compiles);
    CollectIff(input.paths, PathCheck(compiles), PathsMean(compiles), route.paths);
    MethodsDecide();
    CollectIff(input.methods, CheckMethod, MethodMeans, route.methods);
    HeadersAreRead(HeadersSent(input), route.headers);
  }

  lemma RouteParts(
    input: RouteInput, write: Write, compiles: string -> bool, route: Route, updatedAt: Option<string>)
    ensures CheckRoute(input, write, compiles) == Ok((route, updatedAt)) <==>
            && IsName(input.name) && IsName(input.service)
            && |input.hosts| <= MAX_HOSTS && Collect(input.hosts, CheckHost) == Ok(route.hosts)
            && |input.paths| <= MAX_PATHS && Collect(input.paths, PathCheck(compiles)) == Ok(route.paths)
            && Collect(input.methods, CheckMethod) == Ok(route.methods)
            && CheckHeaders(HeadersSent(input)) == Ok(route.headers)
            && route.name == input.name && route.service == input.service && route.priority == input.priority
            && route.stripPath == (input.stripPath == Some(true)) && StripPathFits(route)
            && Combinations(|route.hosts|, |route.paths|, |route.methods|) <= MAX_COMBINATIONS
            && CheckUpdatedAt(write, input.updatedAt) == Ok(updatedAt)
  {
  }

  /** A request is accepted if and only if it says a route, as that route. */
  lemma {:induction false} RouteIsRead(
    input: RouteInput, write: Write, compiles: string -> bool, route: Route, updatedAt: Option<string>)
    ensures CheckRoute(input, write, compiles) == Ok((route, updatedAt)) <==>
            RouteMeans(input, write, compiles, route, updatedAt)
  {
    RouteParts(input, write, compiles, route, updatedAt);
    ListsAreRead(input, compiles, route);
    NameIff(input.name);
    NameIff(input.service);
  }

  // Refusals.

  ghost predicate SaysNothing<A, B(!new)>(items: seq<A>, means: (A, B) -> bool, i: nat) {
    i < |items| && forall b :: !means(items[i], b)
  }

  ghost predicate ExpandsTo(
    input: RouteInput, compiles: string -> bool, hosts: seq<string>, paths: seq<PathMatch>, methods: seq<string>)
  {
    && ListMeans(input.hosts, HostMeans, hosts) && ListMeans(input.paths, PathsMean(compiles), paths)
    && ListMeans(input.methods, MethodMeans, methods)
  }

  ghost predicate TooMany(input: RouteInput, compiles: string -> bool) {
    exists hosts, paths, methods ::
      && ExpandsTo(input, compiles, hosts, paths, methods)
      && OneAtLeast(|hosts|) * OneAtLeast(|paths|) * OneAtLeast(|methods|) > 1024
  }

  /** A name that may not be matched on or was listed before, or a value. */
  ghost predicate HeaderAtFault(headers: seq<HeaderMatch>, field: Field) {
    match field
    case HeaderName(i) =>
      && i < |headers|
      && (|| (forall kept :: !HeaderNameMeans(headers[i].name, kept))
          || exists j :: 0 <= j < i && Lower(headers[j].name) == Lower(headers[i].name))
    case HeaderValue(i) => i < |headers| && !ValueIsOk(headers[i].value)
    case _ => false
  }

  /** What is wrong with the field a refusal names. */
  ghost predicate AtFault(input: RouteInput, write: Write, compiles: string -> bool, field: Field) {
    match field
    case Name => !NameIsOk(input.name)
    case Service => !NameIsOk(input.service)
    case Hosts => |input.hosts| > 32
    case Host(i) => SaysNothing(input.hosts, HostMeans, i)
    case Paths => |input.paths| > 32 || TooMany(input, compiles)
    case PathType(i) => i < |input.paths| && input.paths[i].kind !in ["prefix", "exact", "regex"]
    case PathValue(i) =>
      && SaysNothing(input.paths, PathsMean(compiles), i)
      && input.paths[i].kind in ["prefix", "exact", "regex"]
    case Method(i) => SaysNothing(input.methods, MethodMeans, i)
    case Headers => |HeadersSent(input)| > 16
    case HeaderName(_) => HeaderAtFault(HeadersSent(input), field)
    case HeaderValue(_) => HeaderAtFault(HeadersSent(input), field)
    case StripPath =>
      input.stripPath == Some(true) && exists i :: 0 <= i < |input.paths| && input.paths[i].kind == "regex"
    case UpdatedAt => write.Create? <==> input.updatedAt.Some?
  }

  lemma {:induction false} RefusedSaysNothing<A(!new), B(!new)>(
    items: seq<A>, check: (nat, A) -> Result<B, Field>, means: (A, B) -> bool, field: Field) returns (i: nat)
    requires Decides(check, means) && Collect(items, check) == Err(field)
    ensures SaysNothing(items, means, i) && check(i, items[i]) == Err(field)
  {
    CollectRefuses(items, check, field);
    i :| 0 <= i < |items| && FirstRefused(items, check, i) && check(i, items[i]) == Err(field);
    assert forall b :: check(i, items[i]) == Ok(b) <==> means(items[i], b);
  }

  lemma {:induction false} HeaderRefusal(
    sent: seq<HeaderMatch>, before: seq<HeaderMatch>, last: nat, field: Field)
    requires last < |sent| && CollectHeaders(sent[..last]) == Ok(before)
    requires CheckHeader(before, last, sent[last]) == Err(field)
    ensures HeaderAtFault(sent, field)
  {
    HeadersHold(sent[..last]);
    var name := Lower(sent[last].name);
    assert IsHeaderValue(sent[last].value) <==> ValueIsOk(sent[last].value);
    if Names(before, name) {
      var j :| 0 <= j < |before| && before[j].name == name;
      assert Lower(sent[j].name) == name;
    } else {
      HeaderNameIff(sent[last].name, name);
    }
  }

  lemma {:induction false} HeadersAreAtFault(sent: seq<HeaderMatch>, n: nat, field: Field)
    requires n <= |sent| && CollectHeaders(sent[..n]) == Err(field)
    ensures HeaderAtFault(sent, field)
  {
    var last := n - 1;
    assert sent[..n][..last] == sent[..last];
    if CollectHeaders(sent[..last]).Err? {
      HeadersAreAtFault(sent, last, field);
    } else {
      HeaderRefusal(sent, CollectHeaders(sent[..last]).value, last, field);
    }
  }

  lemma {:induction false} HostsAreAtFault(input: RouteInput, field: Field)
    requires Collect(input.hosts, CheckHost) == Err(field)
    ensures forall write, compiles :: AtFault(input, write, compiles, field)
  {
    HostsDecide();
    var i := RefusedSaysNothing(input.hosts, CheckHost, HostMeans, field);
    assert field == Host(i);
  }

  lemma {:induction false} PathRefusal(compiles: string -> bool, i: nat, path: PathInput)
    requires CheckPath(compiles, i, path).Err?
    ensures CheckPath(compiles, i, path) ==
            Err(if path.kind in ["prefix", "exact", "regex"] then PathValue(i) else PathType(i))
  {
    assert KindNamed(path.kind).Some? <==> path.kind in ["prefix", "exact", "regex"];
  }

  lemma {:induction false} PathsAreAtFault(input: RouteInput, compiles: string -> bool, field: Field)
    requires Collect(input.paths, PathCheck(compiles)) == Err(field)
    ensures forall write :: AtFault(input, write, compiles, field)
  {
    PathsDecide(compiles);
    var i := RefusedSaysNothing(input.paths, PathCheck(compiles), PathsMean(compiles), field);
    PathRefusal(compiles, i, input.paths[i]);
  }

  lemma {:induction false} MethodsAreAtFault(input: RouteInput, field: Field)
    requires Collect(input.methods, CheckMethod) == Err(field)
    ensures forall write, compiles :: AtFault(input, write, compiles, field)
  {
    MethodsDecide();
    var i := RefusedSaysNothing(input.methods, CheckMethod, MethodMeans, field);
    assert field == Method(i);
  }

  lemma {:induction false} RouteExpandsTo(
    input: RouteInput, compiles: string -> bool, hosts: seq<string>, paths: seq<PathMatch>, methods: seq<string>)
    requires Collect(input.hosts, CheckHost) == Ok(hosts) && Collect(input.methods, CheckMethod) == Ok(methods)
    requires Collect(input.paths, PathCheck(compiles)) == Ok(paths)
    ensures ExpandsTo(input, compiles, hosts, paths, methods)
  {
    HostsDecide();
    CollectMeans(input.hosts, CheckHost, HostMeans, hosts);
    PathsDecide(compiles);
    CollectMeans(input.paths, PathCheck(compiles), PathsMean(compiles), paths);
    MethodsDecide();
    CollectMeans(input.methods, CheckMethod, MethodMeans, methods);
  }

  lemma {:induction false} StrippedIsARegex(input: RouteInput, compiles: string -> bool, i: nat)
    requires Collect(input.paths, PathCheck(compiles)).Ok? && i < |Collect(input.paths, PathCheck(compiles)).value|
    requires Collect(input.paths, PathCheck(compiles)).value[i].kind == Regex
    ensures exists j :: 0 <= j < |input.paths| && input.paths[j].kind == "regex"
  {
    var check := PathCheck(compiles);
    var paths := Collect(input.paths, check).value;
    CollectHolds(input.paths, check);
    assert Given(input.paths, check, paths[i]);
    var j :| 0 <= j < |input.paths| && check(j, input.paths[j]) == Ok(paths[i]);
    KindNamedIff(input.paths[j].kind, Regex);
  }

  lemma LaterRefusal(
    input: RouteInput, write: Write, compiles: string -> bool, field: Field,
    hosts: seq<string>, paths: seq<PathMatch>, methods: seq<string>)
    requires Collect(input.hosts, CheckHost) == Ok(hosts) && Collect(input.methods, CheckMethod) == Ok(methods)
    requires Collect(input.paths, PathCheck(compiles)) == Ok(paths) && CheckHeaders(HeadersSent(input)).Ok?
    requires CheckRoute(input, write, compiles) == Err(field)
    requires IsName(input.name) && IsName(input.service) && |input.hosts| <= MAX_HOSTS && |input.paths| <= MAX_PATHS
    ensures || (field == Field.Paths && Combinations(|hosts|, |paths|, |methods|) > MAX_COMBINATIONS)
            || (&& field == StripPath && input.stripPath == Some(true)
                && exists i :: 0 <= i < |paths| && paths[i].kind == Regex)
            || (field == UpdatedAt && write.Create? != input.updatedAt.None?)
  {
  }

  lemma {:induction false} LaterFaults(
    input: RouteInput, write: Write, compiles: string -> bool, field: Field,
    hosts: seq<string>, paths: seq<PathMatch>, methods: seq<string>)
    requires Collect(input.hosts, CheckHost) == Ok(hosts) && Collect(input.methods, CheckMethod) == Ok(methods)
    requires Collect(input.paths, PathCheck(compiles)) == Ok(paths) && CheckHeaders(HeadersSent(input)).Ok?
    requires CheckRoute(input, write, compiles) == Err(field)
    requires IsName(input.name) && IsName(input.service) && |input.hosts| <= MAX_HOSTS && |input.paths| <= MAX_PATHS
    ensures AtFault(input, write, compiles, field)
  {
    LaterRefusal(input, write, compiles, field, hosts, paths, methods);
    if field == Field.Paths {
      RouteExpandsTo(input, compiles, hosts, paths, methods);
    } else if field == StripPath {
      var i :| 0 <= i < |paths| && paths[i].kind == Regex;
      StrippedIsARegex(input, compiles, i);
    }
  }

  /** A refusal names a field, or an entry of one, that is at fault. */
  lemma {:induction false} RefusalNamesAFault(
    input: RouteInput, write: Write, compiles: string -> bool, field: Field)
    requires CheckRoute(input, write, compiles) == Err(field)
    ensures AtFault(input, write, compiles, field)
  {
    NameIff(input.name);
    NameIff(input.service);
    if IsName(input.name) && IsName(input.service) && |input.hosts| <= MAX_HOSTS {
      var hosts := Collect(input.hosts, CheckHost);
      if hosts.Err? {
        HostsAreAtFault(input, field);
      } else if |input.paths| <= MAX_PATHS {
        var paths := Collect(input.paths, PathCheck(compiles));
        var methods := Collect(input.methods, CheckMethod);
        if paths.Err? {
          PathsAreAtFault(input, compiles, field);
        } else if methods.Err? {
          MethodsAreAtFault(input, field);
        } else if CheckHeaders(HeadersSent(input)).Ok? {
          LaterFaults(input, write, compiles, field, hosts.value, paths.value, methods.value);
        } else if |HeadersSent(input)| <= MAX_HEADERS {
          assert HeadersSent(input)[..|HeadersSent(input)|] == HeadersSent(input);
          HeadersAreAtFault(HeadersSent(input), |HeadersSent(input)|, field);
        }
      }
    }
  }
}
