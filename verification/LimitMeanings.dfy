/** What a request limit's fields say, as they are sent and as a row stores them, and that they are
    accepted exactly so. */
module LimitMeanings {
  import opened Consumers
  import opened Json
  import opened PolicyMeanings
  import opened Text
  import opened Wrappers
  import Routes

  // Header names.

  predicate IsBlank(s: string) {
    All(s, IsWhitespace)
  }

  /** A name of 1 to 64 token characters, and what it is kept as. */
  predicate NameIsKept(reserved: seq<string>, sent: string, kept: string) {
    && 1 <= |sent| <= 64 && (forall i :: 0 <= i < |sent| ==> IsTokenChar(sent[i]))
    && kept == Lower(sent) && kept !in reserved
  }

  /** A name between blanks, or `x-api-key` where nothing is said but blanks. */
  ghost predicate HeaderMeans(reserved: seq<string>, value: Option<string>, kept: string) {
    if value.None? || IsBlank(value.value) then NameIsKept(reserved, "x-api-key", kept)
    else
      exists a: string, sent: string, b: string ::
        value.value == a + sent + b && IsBlank(a) && IsBlank(b) && NameIsKept(reserved, sent, kept)
  }

  lemma {:induction false} TrimStandsIn(s: string) returns (a: string, b: string)
    ensures s == a + Trim(s) + b && IsBlank(a) && IsBlank(b)
  {
    if s != "" && IsWhitespace(s[0]) {
      a, b := TrimStandsIn(s[1..]);
      assert Trim(s) == Trim(s[1..]) && s == [s[0]] + s[1..];
      a := [s[0]] + a;
    } else {
      a := "";
      b := TrimEndStandsIn(s);
    }
  }

  lemma {:induction false} TrimEndStandsIn(s: string) returns (b: string)
    ensures s == TrimEnd(s) + b && IsBlank(b)
  {
    b := "";
    if s != "" && IsWhitespace(s[|s| - 1]) {
      b := TrimEndStandsIn(s[..|s| - 1]);
      b := b + [s[|s| - 1]];
    }
  }

  lemma {:induction false} TrimEndOf(x: string, b: string)
    requires IsBlank(b) && (x != "" ==> !IsWhitespace(x[|x| - 1]))
    ensures TrimEnd(x + b) == x
  {
    if b == "" {
      assert x + b == x;
    } else {
      var front := b[..|b| - 1];
      assert (x + b)[..|x + b| - 1] == x + front;
      TrimEndOf(x, front);
    }
  }

  lemma {:induction false} TrimOf(a: string, x: string, b: string)
    requires IsBlank(a) && IsBlank(b) && x != "" && !IsWhitespace(x[0]) && !IsWhitespace(x[|x| - 1])
    ensures Trim(a + x + b) == x
  {
    if a == "" {
      assert a + x + b == x + b && (x + b)[0] == x[0];
      TrimEndOf(x, b);
    } else {
      assert (a + x + b)[1..] == a[1..] + x + b;
      TrimOf(a[1..], x, b);
    }
  }

  lemma TokenIsNoBlank(c: char)
    requires IsTokenChar(c)
    ensures !IsWhitespace(c)
  {
  }

  lemma {:induction false} KeptIff(reserved: seq<string>, sent: string, kept: string)
    ensures NameIsKept(reserved, sent, kept) <==>
            |sent| <= MAX_HEADER_CHARS && Routes.IsToken(sent) && kept == Lower(sent) && kept !in reserved
  {
  }

  lemma {:induction false} KeptIsTrimmed(reserved: seq<string>, a: string, sent: string, b: string, kept: string)
    requires IsBlank(a) && IsBlank(b) && NameIsKept(reserved, sent, kept)
    ensures Trim(a + sent + b) == sent
  {
    TokenIsNoBlank(sent[0]);
    TokenIsNoBlank(sent[|sent| - 1]);
    TrimOf(a, sent, b);
  }

  /** A header's name is accepted as exactly what it says; so none that is accepted is reserved, and
      a blank one is the default. */
  lemma {:induction false} HeaderIsRead(reserved: seq<string>, value: Option<string>, kept: string)
    ensures Header(reserved, value) == Some(kept) <==> HeaderMeans(reserved, value, kept)
    ensures Header(reserved, value) == Some(kept) ==> kept !in reserved
  {
    if value.None? {
      KeptIff(reserved, "x-api-key", kept);
    } else {
      TrimsToNothing(value.value);
      if IsBlank(value.value) {
        KeptIff(reserved, "x-api-key", kept);
      } else {
        NameIsRead(reserved, value.value, kept);
      }
    }
  }

  lemma {:induction false} NameIsRead(reserved: seq<string>, value: string, kept: string)
    requires Trim(value) != "" && !IsBlank(value)
    ensures Header(reserved, Some(value)) == Some(kept) <==> HeaderMeans(reserved, Some(value), kept)
  {
    KeptIff(reserved, Trim(value), kept);
    var a, b := TrimStandsIn(value);
    forall a', sent, b' |
      value == a' + sent + b' && IsBlank(a') && IsBlank(b') && NameIsKept(reserved, sent, kept)
      ensures sent == Trim(value)
    {
      KeptIsTrimmed(reserved, a', sent, b', kept);
    }
  }

  // A limit as it is sent.

  ghost predicate ByMeans(reserved: seq<string>, x: Option<Json>, by_: LimitBy) {
    match by_
    case Ip => IsAbsentOrNull(x) || x == Some(Str("ip"))
    case Consumer => x == Some(Str("consumer"))
    case ByHeader(name) =>
      exists rest: string ::
        x == Some(Str("header:" + rest)) && !IsBlank(rest) && HeaderMeans(reserved, Some(rest), name)
  }

  ghost predicate LimitMeans(reserved: seq<string>, input: LimitInput, l: Limit) {
    && input.limit == Some(Int(l.limit)) && 1 <= l.limit <= 1_000_000
    && input.per == Some(Str(match l.per case Second => "second" case Minute => "minute" case Hour => "hour"))
    && ByMeans(reserved, input.by_, l.by_)
  }

  lemma {:induction false} TrimmedHeaderIsRead(reserved: seq<string>, rest: string, name: string)
    ensures ReadHeader(reserved, rest) == Some(ByHeader(name)) <==>
            !IsBlank(rest) && HeaderMeans(reserved, Some(rest), name)
  {
    TrimsToNothing(rest);
    if !IsBlank(rest) {
      HeaderIsRead(reserved, Some(rest), name);
      TrimTwice(rest);
    }
  }

  lemma {:induction false} TrimTwice(s: string)
    requires Trim(s) != ""
    ensures Trim(Trim(s)) == Trim(s)
  {
    TrimHasNoBlankEnds(s);
    TrimOf("", Trim(s), "");
    assert "" + Trim(s) + "" == Trim(s);
  }

  lemma {:induction false} TrimHasNoBlankEnds(s: string)
    requires Trim(s) != ""
    ensures !IsWhitespace(Trim(s)[0]) && !IsWhitespace(Trim(s)[|Trim(s)| - 1])
  {
    if s != "" && IsWhitespace(s[0]) {
      assert Trim(s) == Trim(s[1..]);
      TrimHasNoBlankEnds(s[1..]);
    } else {
      TrimEndIsNoBlank(s);
      var b := TrimEndStandsIn(s);
      assert TrimEnd(s)[0] == s[0];
    }
  }

  lemma {:induction false} TrimEndIsNoBlank(s: string)
    requires TrimEnd(s) != ""
    ensures !IsWhitespace(TrimEnd(s)[|TrimEnd(s)| - 1])
  {
    if s != "" && IsWhitespace(s[|s| - 1]) {
      TrimEndIsNoBlank(s[..|s| - 1]);
    }
  }

  lemma {:induction false} ByIsRead(reserved: seq<string>, x: Option<Json>, by_: LimitBy)
    ensures ReadBy(reserved, x) == Some(by_) <==> ByMeans(reserved, x, by_)
  {
    if x.Some? && x.value.Str? {
      var text := x.value.text;
      if "header:" <= text {
        assert text[0] == 'h' && text == "header:" + text[7..];
        assert "ip"[0] == 'i' && "consumer"[0] == 'c';
        if by_.ByHeader? {
          TrimmedHeaderIsRead(reserved, text[7..], by_.name);
        }
      }
      forall rest: string | text == "header:" + rest ensures "header:" <= text && rest == text[7..] {
      }
    }
  }

  lemma PerIsRead(x: Option<Json>, per: Per)
    ensures ReadPer(x) == Some(per) <==>
            x == Some(Str(match per case Second => "second" case Minute => "minute" case Hour => "hour"))
  {
  }

  /** A limit is accepted as exactly what is sent. */
  lemma {:induction false} LimitIsRead(reserved: seq<string>, input: LimitInput, l: Limit)
    ensures RateLimit(reserved, input) == Some(l) <==> LimitMeans(reserved, input, l)
  {
    PerIsRead(input.per, l.per);
    ByIsRead(reserved, input.by_, l.by_);
  }

  // A limit as a row stores it.

  const FIELDS := [LIMIT, WINDOW_MS, BY]

  /** By name alone, or as the one field of an object; a header's name is in the form it is kept in. */
  ghost predicate StoredByMeans(reserved: seq<string>, x: Option<Json>, by_: LimitBy) {
    match by_
    case Ip => IsAbsent(x) || x.value == Str("ip") || x.value == Obj(map[Other("ip") := Null])
    case Consumer => x == Some(Str("consumer")) || x == Some(Obj(map[Other("consumer") := Null]))
    case ByHeader(name) => x == Some(Obj(map[Other("header") := Str(name)])) && NameIsKept(reserved, name, name)
  }

  ghost predicate StoredMeans(reserved: seq<string>, v: Json, l: Limit) {
    && RecordOf(v, FIELDS)
    && Part(v, FIELDS, 0) == Some(Int(l.limit)) && 1 <= l.limit <= 1_000_000
    && Part(v, FIELDS, 1) == Some(Int(match l.per case Second => 1_000 case Minute => 60_000 case Hour => 3_600_000))
    && StoredByMeans(reserved, Part(v, FIELDS, 2), l.by_)
  }

  lemma {:induction false} OneField(v: Json, tag: Key, x: Json)
    ensures IsTagged(v, tag) && v.fields[tag] == x <==> v == Obj(map[tag := x])
  {
    if IsTagged(v, tag) && v.fields[tag] == x {
      assert v.fields == map[tag := x];
    }
  }

  lemma {:induction false} StoredNameIff(reserved: seq<string>, name: string)
    ensures Header(reserved, Some(name)) == Some(name) <==> NameIsKept(reserved, name, name)
  {
    if NameIsKept(reserved, name, name) {
      KeptIff(reserved, name, name);
      KeptIsTrimmed(reserved, "", name, "", name);
      assert "" + name + "" == name;
    }
    if Header(reserved, Some(name)) == Some(name) {
      HeaderIsFixed(reserved, Some(name));
      KeptIff(reserved, name, name);
    }
  }

  lemma {:induction false} StoredByIsRead(reserved: seq<string>, x: Option<Json>, by_: LimitBy)
    ensures (&& (if x.Some? then ReadStoredBy(x.value) else Some(Ip)) == Some(by_)
             && (by_.ByHeader? ==> Header(reserved, Some(by_.name)) == Some(by_.name))) <==>
            StoredByMeans(reserved, x, by_)
  {
    if x.Some? {
      OneField(x.value, IP, Null);
      OneField(x.value, CONSUMER, Null);
      if by_.ByHeader? {
        OneField(x.value, HEADER, Str(by_.name));
      }
    }
    if by_.ByHeader? {
      StoredNameIff(reserved, by_.name);
    }
  }

  lemma {:induction false} FieldsAreParts(v: Json)
    ensures IsRecord(v, STORED, 3) <==> RecordOf(v, FIELDS)
    ensures RecordOf(v, FIELDS) ==>
              && FieldAt(v, LIMIT, 0) == Part(v, FIELDS, 0) && FieldAt(v, WINDOW_MS, 1) == Part(v, FIELDS, 1)
              && FieldAt(v, BY, 2) == Part(v, FIELDS, 2)
  {
    assert forall k :: STORED(k) <==> k in FIELDS;
  }

  /** And a row is read as exactly what it holds. */
  lemma {:induction false} StoredIsRead(reserved: seq<string>, v: Json, l: Limit)
    ensures FromConfig(reserved, v) == Some(l) <==> StoredMeans(reserved, v, l)
  {
    FieldsAreParts(v);
    if RecordOf(v, FIELDS) {
      StoredByIsRead(reserved, Part(v, FIELDS, 2), l.by_);
    }
  }
}
