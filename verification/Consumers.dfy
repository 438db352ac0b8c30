/** Targets and request limits: how each is spelled, and that no spelling loses anything. */
module Consumers {
  import opened Text
  import opened Wrappers
  import Json
  import Routes

  // Targets.

  datatype Target = Workspace | Service(name: string) | Route(name: string)

  function ParseTarget(text: string): Option<Target> {
    match SplitOnce(text, ":")
    case None => if text == "workspace" then Some(Workspace) else None
    case Some((kind, name)) =>
      if !Routes.IsName(name) then None
      else if kind == "service" then Some(Service(name))
      else if kind == "route" then Some(Route(name))
      else None
  }

  function TargetText(t: Target): string {
    match t
    case Workspace => "workspace"
    case Service(name) => "service:" + name
    case Route(name) => "route:" + name
  }

  predicate IsNamed(t: Target) {
    t.Workspace? || Routes.IsName(t.name)
  }

  /** Reading and writing a target undo each other, whichever comes first. */
  lemma {:induction false} TargetReadsBack(t: Target, text: string)
    ensures IsNamed(t) ==> ParseTarget(TargetText(t)) == Some(t)
    ensures ParseTarget(text) == Some(t) ==> TargetText(t) == text && IsNamed(t)
  {
    match t {
      case Workspace => SplitOnceNone("workspace", ':');
      case Service(name) =>
        SplitOnceAt("service", ":", name);
        assert "service" + ":" + name == "service:" + name;
      case Route(name) =>
        SplitOnceAt("route", ":", name);
        assert "route" + ":" + name == "route:" + name;
    }
    if ParseTarget(text) == Some(t) && SplitOnce(text, ":").Some? {
      SplitOnceSound(text, ":");
    }
  }

  // Header names.

  const DEFAULT_HEADER := "x-api-key"
  const MAX_HEADER_CHARS := 64

  /** A header name, trimmed and lowercased; the default when there is none. `reserved` names are
      refused. */
  function Header(reserved: seq<string>, value: Option<string>): Option<string> {
    var trimmed := if value.Some? then Trim(value.value) else "";
    var name := if trimmed == "" then DEFAULT_HEADER else trimmed;
    if |name| > MAX_HEADER_CHARS || !Routes.IsToken(name) || Lower(name) in reserved then None else Some(Lower(name))
  }

  lemma {:induction false} NothingToTrim(s: string)
    requires All(s, c => !IsWhitespace(c))
    ensures Trim(s) == s
  {
  }

  lemma LowerToken(name: string)
    requires Routes.IsToken(name)
    ensures Routes.IsToken(Lower(name)) && Lower(Lower(name)) == Lower(name) && Trim(Lower(name)) == Lower(name)
  {
    LowerIsLower(name);
    NothingToTrim(Lower(name));
  }

  /** An accepted header name is read again as itself. */
  lemma {:induction false} HeaderIsFixed(reserved: seq<string>, value: Option<string>)
    requires Header(reserved, value).Some?
    ensures Header(reserved, Header(reserved, value)) == Header(reserved, value)
    ensures Trim(Header(reserved, value).value) == Header(reserved, value).value != ""
  {
    var trimmed := if value.Some? then Trim(value.value) else "";
    LowerToken(if trimmed == "" then DEFAULT_HEADER else trimmed);
  }

  // Limits.

  const MAX_RATE_LIMIT := 1_000_000

  datatype Per = Second | Minute | Hour

  function WindowMs(per: Per): nat {
    match per
    case Second => 1_000
    case Minute => 60_000
    case Hour => 3_600_000
  }

  function OfWindow(ms: nat): Option<Per> {
    if ms == 1_000 then Some(Second)
    else if ms == 60_000 then Some(Minute)
    else if ms == 3_600_000 then Some(Hour)
    else None
  }

  datatype LimitBy = Ip | Consumer | ByHeader(name: string)

  datatype Limit = Limit(limit: nat, per: Per, by_: LimitBy)

  // A limit as a row stores it.

  const LIMIT := Json.Other("limit")
  const WINDOW_MS := Json.Other("window_ms")
  const BY := Json.Other("by")

  const IP := Json.Other("ip")
  const CONSUMER := Json.Other("consumer")
  const HEADER := Json.Other("header")

  const STORED: Json.Key -> bool := (k: Json.Key) => k in {LIMIT, WINDOW_MS, BY}

  function StoredBy(by_: LimitBy): Json.Json {
    match by_
    case Ip => Json.Str("ip")
    case Consumer => Json.Str("consumer")
    case ByHeader(name) => Json.Obj(map[HEADER := Json.Str(name)])
  }

  /** What the row stores; what it counts by is left out when that is the address. */
  function ConfigOf(l: Limit): Json.Json {
    var both := map[LIMIT := Json.Int(l.limit), WINDOW_MS := Json.Int(WindowMs(l.per))];
    Json.Obj(if l.by_.Ip? then both else both[BY := StoredBy(l.by_)])
  }

  predicate IsWhole(v: Json.Json, bits: nat) {
    v.Int? && 0 <= v.n < if bits == 32 then 0x1_0000_0000 else 0x1_0000_0000_0000_0000
  }

  /** The one field of an object that has one. */
  predicate IsTagged(v: Json.Json, tag: Json.Key) {
    v.Obj? && v.fields.Keys == {tag}
  }

  /** One of the three, by its name alone or as the one field of an object. */
  function ReadStoredBy(v: Json.Json): Option<LimitBy> {
    if v == Json.Str("ip") || (IsTagged(v, IP) && v.fields[IP].Null?) then Some(Ip)
    else if v == Json.Str("consumer") || (IsTagged(v, CONSUMER) && v.fields[CONSUMER].Null?) then Some(Consumer)
    else if IsTagged(v, HEADER) && v.fields[HEADER].Str? then Some(ByHeader(v.fields[HEADER].text))
    else None
  }

  /** The record a row holds, and nothing else; the address when it says nothing about it. */
  function ReadStored(v: Json.Json): Option<(nat, nat, LimitBy)> {
    if !Json.IsRecord(v, STORED, 3) then None
    else
      match (Json.FieldAt(v, LIMIT, 0), Json.FieldAt(v, WINDOW_MS, 1), Json.FieldAt(v, BY, 2))
      case (Some(limit), Some(window), counted) =>
        var by_ := if counted.Some? then ReadStoredBy(counted.value) else Some(Ip);
        if IsWhole(limit, 32) && IsWhole(window, 64) && by_.Some? then Some((limit.n, window.n, by_.value)) else None
      case _ => None
  }

  function FromConfig(reserved: seq<string>, v: Json.Json): Option<Limit> {
    match ReadStored(v)
    case None => None
    case Some((limit, window, by_)) =>
      if !(1 <= limit <= MAX_RATE_LIMIT) then None
      else if by_.ByHeader? && Header(reserved, Some(by_.name)) != Some(by_.name) then None
      else if OfWindow(window).None? then None
      else Some(Limit(limit, OfWindow(window).value, by_))
  }

  // A limit as a request sends it.

  /** The three fields, each any JSON value or absent. */
  datatype LimitInput = LimitInput(limit: Option<Json.Json>, per: Option<Json.Json>, by_: Option<Json.Json>)

  /** The header after `header:`, when there is one. */
  function ReadHeader(reserved: seq<string>, rest: string): Option<LimitBy> {
    var name := Trim(rest);
    if name == "" || Header(reserved, Some(name)).None? then None
    else Some(ByHeader(Header(reserved, Some(name)).value))
  }

  function ReadBy(reserved: seq<string>, sent: Option<Json.Json>): Option<LimitBy> {
    if sent.None? || sent.value.Null? then Some(Ip)
    else if !sent.value.Str? then None
    else
      var text := sent.value.text;
      if text == "ip" then Some(Ip)
      else if text == "consumer" then Some(Consumer)
      else if "header:" <= text then ReadHeader(reserved, text[7..])
      else None
  }

  function ByText(by_: LimitBy): string {
    match by_
    case Ip => "ip"
    case Consumer => "consumer"
    case ByHeader(name) => "header:" + name
  }

  function ReadPer(sent: Option<Json.Json>): Option<Per> {
    if sent == Some(Json.Str("second")) then Some(Second)
    else if sent == Some(Json.Str("minute")) then Some(Minute)
    else if sent == Some(Json.Str("hour")) then Some(Hour)
    else None
  }

  function PerText(per: Per): string {
    match per
    case Second => "second"
    case Minute => "minute"
    case Hour => "hour"
  }

  function RateLimit(reserved: seq<string>, input: LimitInput): Option<Limit> {
    if input.limit.None? || !input.limit.value.Int? || !(1 <= input.limit.value.n <= MAX_RATE_LIMIT) then None
    else
      match (ReadPer(input.per), ReadBy(reserved, input.by_))
      case (Some(per), Some(by_)) => Some(Limit(input.limit.value.n, per, by_))
      case _ => None
  }

  // No spelling loses anything.

  /** What a limit may count by: any header in it is one `Header` leaves alone. */
  predicate IsSettled(reserved: seq<string>, by_: LimitBy) {
    by_.ByHeader? ==> Header(reserved, Some(by_.name)) == Some(by_.name) && by_.name != ""
  }

  lemma {:induction false} ReadBySettles(reserved: seq<string>, sent: Option<Json.Json>)
    ensures ReadBy(reserved, sent).Some? ==> IsSettled(reserved, ReadBy(reserved, sent).value)
  {
    if ReadBy(reserved, sent).Some? && ReadBy(reserved, sent).value.ByHeader? {
      HeaderIsFixed(reserved, Some(Trim(sent.value.text[7..])));
    }
  }

  lemma {:induction false} HeaderTextReadsBack(reserved: seq<string>, name: string)
    ensures ReadBy(reserved, Some(Json.Str("header:" + name))) == ReadHeader(reserved, name)
  {
    var text := "header:" + name;
    assert text[7..] == name;
    assert text[0] == 'h' && "ip"[0] == 'i' && "consumer"[0] == 'c';
  }

  /** What a limit counts by is read back from its text. */
  lemma {:induction false} ByTextReadsBack(reserved: seq<string>, by_: LimitBy)
    requires IsSettled(reserved, by_)
    ensures ReadBy(reserved, Some(Json.Str(ByText(by_)))) == Some(by_)
  {
    if by_.ByHeader? {
      HeaderIsFixed(reserved, Some(by_.name));
      HeaderTextReadsBack(reserved, by_.name);
    }
  }

  lemma StoredByReadsBack(by_: LimitBy)
    ensures ReadStoredBy(StoredBy(by_)) == Some(by_)
  {
  }

  lemma {:induction false} ConfigReadsBack(l: Limit)
    requires l.limit <= MAX_RATE_LIMIT
    ensures ReadStored(ConfigOf(l)) == Some((l.limit, WindowMs(l.per), l.by_))
  {
    StoredByReadsBack(l.by_);
  }

  /** What a request could have asked for: within the bound, and any header as it is stored. */
  predicate IsSendable(reserved: seq<string>, l: Limit) {
    1 <= l.limit <= MAX_RATE_LIMIT && IsSettled(reserved, l.by_)
  }

  lemma {:induction false} SendableReadsBack(reserved: seq<string>, l: Limit)
    requires IsSendable(reserved, l)
    ensures FromConfig(reserved, ConfigOf(l)) == Some(l)
  {
    ConfigReadsBack(l);
  }

  /** Every limit a request is accepted with is recovered from the row written for it. */
  lemma {:induction false} LimitReadsBack(reserved: seq<string>, input: LimitInput)
    requires RateLimit(reserved, input).Some?
    ensures FromConfig(reserved, ConfigOf(RateLimit(reserved, input).value)) == RateLimit(reserved, input)
  {
    ReadBySettles(reserved, input.by_);
    SendableReadsBack(reserved, RateLimit(reserved, input).value);
  }

  lemma {:induction false} ReadIsSendable(reserved: seq<string>, v: Json.Json)
    requires FromConfig(reserved, v).Some?
    ensures IsSendable(reserved, FromConfig(reserved, v).value)
  {
    var l := FromConfig(reserved, v).value;
    if l.by_.ByHeader? {
      HeaderIsFixed(reserved, Some(l.by_.name));
    }
  }

  lemma {:induction false} SendableCanBeSent(reserved: seq<string>, l: Limit)
    requires IsSendable(reserved, l)
    ensures RateLimit(
              reserved,
              LimitInput(Some(Json.Int(l.limit)), Some(Json.Str(PerText(l.per))), Some(Json.Str(ByText(l.by_))))) ==
            Some(l)
  {
    ByTextReadsBack(reserved, l.by_);
  }

  /** Whatever JSON value a row holds, if it is read as a limit then some request would have been
      accepted with that limit, and what that request stores is read as it too. */
  lemma {:induction false} EveryStoredLimitCouldBeSent(reserved: seq<string>, v: Json.Json)
    requires FromConfig(reserved, v).Some?
    ensures
      var l := FromConfig(reserved, v).value;
      && RateLimit(
           reserved,
           LimitInput(Some(Json.Int(l.limit)), Some(Json.Str(PerText(l.per))), Some(Json.Str(ByText(l.by_))))) ==
         Some(l)
      && FromConfig(reserved, ConfigOf(l)) == Some(l)
  {
    ReadIsSendable(reserved, v);
    SendableReadsBack(reserved, FromConfig(reserved, v).value);
    SendableCanBeSent(reserved, FromConfig(reserved, v).value);
  }

  /** The row is the very one that request writes if and only if it is an object that does not spell
      the address out, and names the consumer alone. */
  lemma {:induction false} RowIsAsWrittenIff(reserved: seq<string>, v: Json.Json)
    requires FromConfig(reserved, v).Some?
    ensures v == ConfigOf(FromConfig(reserved, v).value) <==>
            && v.Obj?
            && (BY in v.fields ==>
                  && v.fields[BY] != Json.Str("ip")
                  && !IsTagged(v.fields[BY], IP)
                  && !IsTagged(v.fields[BY], CONSUMER))
  {
    if v.Obj? {
      WindowIsRead(ReadStored(v).value.1);
      FieldsAsWritten(v, FromConfig(reserved, v).value);
      if BY in v.fields {
        ByAsWritten(v.fields[BY]);
      }
    }
  }

  lemma WindowIsRead(ms: nat)
    ensures OfWindow(ms).Some? ==> WindowMs(OfWindow(ms).value) == ms
  {
  }

  lemma ByAsWritten(v: Json.Json)
    ensures ReadStoredBy(v).Some? && !ReadStoredBy(v).value.Ip? ==>
              (v == StoredBy(ReadStoredBy(v).value) <==> !IsTagged(v, CONSUMER))
    ensures ReadStoredBy(v) == Some(Ip) <==> v == Json.Str("ip") || (IsTagged(v, IP) && v.fields[IP].Null?)
  {
    if IsTagged(v, HEADER) && v.fields[HEADER].Str? {
      assert v.fields == map[HEADER := v.fields[HEADER]];
    }
  }

  lemma {:induction false} FieldsAsWritten(v: Json.Json, l: Limit)
    requires Json.IsObject(v, STORED) && LIMIT in v.fields && WINDOW_MS in v.fields
    requires v.fields[LIMIT] == Json.Int(l.limit) && v.fields[WINDOW_MS] == Json.Int(WindowMs(l.per))
    ensures v == ConfigOf(l) <==>
            if BY in v.fields then !l.by_.Ip? && v.fields[BY] == StoredBy(l.by_) else l.by_.Ip?
  {
    var both := map[LIMIT := v.fields[LIMIT], WINDOW_MS := v.fields[WINDOW_MS]];
    assert v.fields == if BY in v.fields then both[BY := v.fields[BY]] else both;
  }
}
