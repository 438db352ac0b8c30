/**
  The origins a cors policy lists: the canonical form the control plane stores each in, and how
  the data plane matches a request's `Origin` against it.
*/
module Origin {
  import opened Decimal
  import opened Pieces
  import opened Text
  import opened Wrappers

  datatype Scheme = Http | Https

  function SchemeText(s: Scheme): string {
    match s
    case Http => "http"
    case Https => "https"
  }

  function DefaultPort(s: Scheme): nat {
    match s
    case Http => 80
    case Https => 443
  }

  /** What an entry other than `*` names: a scheme, a host or every host one label below it, and
      the port, given or the scheme's own. */
  datatype Entry = Entry(scheme: Scheme, wildcard: bool, name: string, port: nat)

  predicate LabelChar(c: char) {
    IsLower(c) || IsDigit(c) || c == '-'
  }

  predicate IsLabel(l: string) {
    1 <= |l| <= 63 && All(l, LabelChar)
  }

  predicate IsName(name: string) {
    |name| <= 253 && forall i :: 0 <= i < |Split(name, '.')| ==> IsLabel(Split(name, '.')[i])
  }

  predicate Valid(e: Entry) {
    && IsName(e.name) && 1 <= e.port <= 65535
    && (e.wildcard ==> '.' in e.name)
  }

  function Host(e: Entry): string {
    (if e.wildcard then "*." else "") + e.name
  }

  /** An entry as a browser writes an origin: without the scheme's own port. */
  function Serialise(e: Entry): string {
    SchemeText(e.scheme) + "://" + Host(e) +
    if e.port == DefaultPort(e.scheme) then "" else ":" + Print(e.port)
  }

  /** `text` is some spelling of `e`: any case, the scheme's own port named or not, and any number
      of leading zeros before a port. */
  ghost predicate Spells(text: string, e: Entry) {
    || (e.port == DefaultPort(e.scheme) && Lower(text) == SchemeText(e.scheme) + "://" + Host(e))
    || exists digits :: SpellsPort(text, e, digits)
  }

  ghost predicate SpellsPort(text: string, e: Entry, digits: string) {
    && AllDigits(digits) && digits != [] && Value(digits) == e.port
    && Lower(text) == SchemeText(e.scheme) + "://" + Host(e) + ":" + digits
  }

  datatype Refusal = NullOrigin | NotAnOrigin | TooWide

  /** The port after the colon: `None` when it is not a number from 1 to 65535. */
  function PortOf(port: string): Option<nat> {
    if AllDigits(port) && port != [] && 1 <= Value(port) <= 65535 then Some(Value(port)) else None
  }

  function Named(scheme: Scheme, host: string, port: Option<nat>): Result<string, Refusal> {
    var wildcard := "*." <= host;
    var name := if wildcard then host[2..] else host;
    if !IsName(name) then Err(NotAnOrigin)
    else if wildcard && '.' !in name then Err(TooWide)
    else
      Ok(SchemeText(scheme) + "://" + host +
         if port.None? || port.value == DefaultPort(scheme) then "" else ":" + Print(port.value))
  }

  function AfterScheme(scheme: Scheme, rest: string): Result<string, Refusal> {
    match SplitOnce(rest, ":")
    case None => Named(scheme, rest, None)
    case Some((host, port)) =>
      if PortOf(port).None? then Err(NotAnOrigin) else Named(scheme, host, PortOf(port))
  }

  /** One origin entry in the form the data plane matches, or why it is not one. */
  function Canonical(text: string): Result<string, Refusal> {
    var lower := Lower(text);
    if lower == "*" then Ok(lower)
    else if lower == "null" then Err(NullOrigin)
    else
      match SplitOnce(lower, "://")
      case None => Err(NotAnOrigin)
      case Some((scheme, rest)) =>
        if scheme != "http" && scheme != "https" then Err(NotAnOrigin)
        else
          AfterScheme(if scheme == "http" then Http else Https, rest)
  }

  // A name holds nothing that could be read as another part of an entry.

  lemma {:induction false} NameChars(name: string)
    requires IsName(name)
    ensures All(name, c => LabelChar(c) || c == '.') && ':' !in name && '*' !in name && '/' !in name
  {
    SplitChars(name, '.', LabelChar);
  }

  lemma {:induction false} HostReadsBack(e: Entry)
    requires Valid(e)
    ensures "*." <= Host(e) <==> e.wildcard
    ensures if e.wildcard then Host(e)[2..] == e.name else Host(e) == e.name
    ensures ':' !in Host(e)
  {
    NameChars(e.name);
    assert "*." <= Host(e) ==> Host(e)[0] == '*';
    if !e.wildcard {
      assert Host(e) == e.name;
    }
  }

  function EntryOf(scheme: Scheme, host: string, port: Option<nat>): Entry {
    Entry(scheme, "*." <= host, if "*." <= host then host[2..] else host,
          if port.Some? then port.value else DefaultPort(scheme))
  }

  lemma {:induction false} NamedIsSerialised(scheme: Scheme, host: string, port: Option<nat>)
    requires Named(scheme, host, port).Ok? && (port.Some? ==> 1 <= port.value <= 65535)
    ensures
      var e := EntryOf(scheme, host, port);
      Valid(e) && Host(e) == host && Named(scheme, host, port) == Ok(Serialise(e))
  {
  }

  lemma {:induction false} SerialisedIsNamed(e: Entry, port: Option<nat>)
    requires Valid(e) && e.port == if port.Some? then port.value else DefaultPort(e.scheme)
    ensures Named(e.scheme, Host(e), port) == Ok(Serialise(e))
  {
    HostReadsBack(e);
  }

  lemma {:induction false} CanonicalParts(lower: string, scheme: Scheme, rest: string)
    requires Lower(lower) == lower && lower == SchemeText(scheme) + "://" + rest
    ensures SplitOnce(lower, "://") == Some((SchemeText(scheme), rest))
    ensures lower != "*" && lower != "null"
    ensures Canonical(lower) == AfterScheme(scheme, rest)
  {
    SplitOnceAt(SchemeText(scheme), "://", rest);
    assert lower[0] == 'h';
  }

  lemma {:induction false} PortIsRead(e: Entry, digits: string)
    requires Valid(e) && AllDigits(digits) && digits != [] && Value(digits) == e.port
    ensures AfterScheme(e.scheme, Host(e) + ":" + digits) == Ok(Serialise(e))
  {
    HostReadsBack(e);
    SplitOnceAt(Host(e), ":", digits);
    SerialisedIsNamed(e, Some(e.port));
  }

  lemma {:induction false} NoPortIsRead(e: Entry)
    requires Valid(e) && e.port == DefaultPort(e.scheme)
    ensures AfterScheme(e.scheme, Host(e)) == Ok(Serialise(e))
  {
    HostReadsBack(e);
    SplitOnceNone(Host(e), ':');
    SerialisedIsNamed(e, None);
  }

  lemma {:induction false} PortedIsCanonical(lower: string, e: Entry, digits: string)
    requires Valid(e) && AllDigits(digits) && digits != [] && Value(digits) == e.port
    requires Lower(lower) == lower == SchemeText(e.scheme) + "://" + Host(e) + ":" + digits
    ensures Canonical(lower) == Ok(Serialise(e))
  {
    assert lower == SchemeText(e.scheme) + "://" + (Host(e) + ":" + digits);
    CanonicalParts(lower, e.scheme, Host(e) + ":" + digits);
    PortIsRead(e, digits);
  }

  /** Every spelling of a valid entry is accepted, as that entry. */
  lemma {:induction false} SpellingsAreCanonical(text: string, e: Entry)
    requires Valid(e) && Spells(text, e)
    ensures Canonical(text) == Ok(Serialise(e))
  {
    var lower := Lower(text);
    LowerIsLower(text);
    assert Canonical(text) == Canonical(lower);
    if exists digits :: SpellsPort(text, e, digits) {
      var digits :| SpellsPort(text, e, digits);
      PortedIsCanonical(lower, e, digits);
    } else {
      CanonicalParts(lower, e.scheme, Host(e));
      NoPortIsRead(e);
    }
  }

  lemma {:induction false} RestIsSpelled(scheme: Scheme, rest: string) returns (e: Entry, digits: string)
    requires AfterScheme(scheme, rest).Ok?
    ensures Valid(e) && e.scheme == scheme && AfterScheme(scheme, rest) == Ok(Serialise(e))
    ensures AllDigits(digits)
    ensures if digits == [] then rest == Host(e) && e.port == DefaultPort(scheme)
            else rest == Host(e) + ":" + digits && Value(digits) == e.port
  {
    if SplitOnce(rest, ":").None? {
      e, digits := EntryOf(scheme, rest, None), "";
      NamedIsSerialised(scheme, rest, None);
    } else {
      SplitOnceSound(rest, ":");
      var (host, port) := SplitOnce(rest, ":").value;
      e, digits := EntryOf(scheme, host, PortOf(port)), port;
      NamedIsSerialised(scheme, host, PortOf(port));
    }
  }

  lemma {:induction false} SchemeIsThere(text: string) returns (scheme: Scheme, rest: string)
    requires Canonical(text).Ok? && Lower(text) != "*"
    ensures Lower(text) == SchemeText(scheme) + "://" + rest && Canonical(text) == AfterScheme(scheme, rest)
  {
    var lower := Lower(text);
    SplitOnceSound(lower, "://");
    scheme := if SplitOnce(lower, "://").value.0 == "http" then Http else Https;
    rest := SplitOnce(lower, "://").value.1;
  }

  lemma {:induction false} SpelledWhole(text: string, e: Entry, rest: string, digits: string)
    requires Lower(text) == SchemeText(e.scheme) + "://" + rest && AllDigits(digits)
    requires if digits == [] then rest == Host(e) && e.port == DefaultPort(e.scheme)
             else rest == Host(e) + ":" + digits && Value(digits) == e.port
    ensures Spells(text, e)
  {
    if digits != [] {
      assert Lower(text) == SchemeText(e.scheme) + "://" + Host(e) + ":" + digits;
      assert SpellsPort(text, e, digits);
    }
  }

  /** And nothing else is accepted: an accepted text other than `*` spells one valid entry. */
  lemma {:induction false} CanonicalIsSpelled(text: string) returns (e: Entry)
    requires Canonical(text).Ok? && Lower(text) != "*"
    ensures Valid(e) && Spells(text, e) && Canonical(text) == Ok(Serialise(e))
  {
    var scheme, rest := SchemeIsThere(text);
    var digits;
    e, digits := RestIsSpelled(scheme, rest);
    SpelledWhole(text, e, rest, digits);
  }

  predicate NoUpper(s: string) {
    forall i :: 0 <= i < |s| ==> !IsUpper(s[i])
  }

  lemma NoUpperJoined(a: string, b: string)
    requires NoUpper(a) && NoUpper(b)
    ensures NoUpper(a + b)
  {
  }

  lemma {:induction false} PartsAreLower(e: Entry)
    requires Valid(e)
    ensures NoUpper(SchemeText(e.scheme)) && NoUpper(Host(e)) && NoUpper(":" + Print(e.port))
  {
    NameChars(e.name);
    PrintReadsBack(e.port);
    NoUpperJoined("*.", e.name);
    NoUpperJoined(":", Print(e.port));
  }

  lemma {:induction false} SerialiseIsLower(e: Entry)
    requires Valid(e)
    ensures Lower(Serialise(e)) == Serialise(e)
  {
    PartsAreLower(e);
    var scheme, port := SchemeText(e.scheme), if e.port == DefaultPort(e.scheme) then "" else ":" + Print(e.port);
    NoUpperJoined(scheme, "://");
    NoUpperJoined(scheme + "://", Host(e));
    NoUpperJoined(scheme + "://" + Host(e), port);
    LowerFixes(Serialise(e));
  }

  lemma {:induction false} SerialiseSpells(e: Entry)
    requires Valid(e)
    ensures Lower(Serialise(e)) == Serialise(e) && Spells(Serialise(e), e)
  {
    SerialiseIsLower(e);
    PrintReadsBack(e.port);
    if e.port == DefaultPort(e.scheme) {
      assert Serialise(e) == SchemeText(e.scheme) + "://" + Host(e);
    } else {
      assert Serialise(e) == SchemeText(e.scheme) + "://" + Host(e) + ":" + Print(e.port);
      assert SpellsPort(Serialise(e), e, Print(e.port));
    }
  }

  /** The form stored is a fixed point: read again, it is itself. */
  lemma {:induction false} CanonicalIsFixed(text: string)
    requires Canonical(text).Ok?
    ensures Canonical(Canonical(text).value) == Canonical(text)
  {
    if Lower(text) != "*" {
      var e := CanonicalIsSpelled(text);
      SerialiseSpells(e);
      SpellingsAreCanonical(Serialise(e), e);
    } else {
      LowerIsLower(text);
    }
  }

  /** Where a host ends is decided by the first colon. */
  lemma {:induction false} HostEnds(host: string, port: string)
    requires ':' !in host && (port == [] || port[0] == ':')
    ensures SplitOnce(host + port, ":") == if port == [] then None else Some((host, port[1..]))
    ensures port != [] ==> port == ":" + port[1..]
  {
    if port == [] {
      assert host + port == host;
      SplitOnceNone(host, ':');
    } else {
      assert host + port == host + ":" + port[1..];
      SplitOnceAt(host, ":", port[1..]);
    }
  }

  lemma {:induction false} PartsAreUnique(e: Entry, f: Entry, ePort: string, fPort: string)
    requires Valid(e) && Valid(f)
    requires ePort == [] || ePort[0] == ':'
    requires fPort == [] || fPort[0] == ':'
    requires SchemeText(e.scheme) + "://" + (Host(e) + ePort) == SchemeText(f.scheme) + "://" + (Host(f) + fPort)
    ensures e.scheme == f.scheme && e.wildcard == f.wildcard && e.name == f.name && ePort == fPort
  {
    SplitOnceAt(SchemeText(e.scheme), "://", Host(e) + ePort);
    SplitOnceAt(SchemeText(f.scheme), "://", Host(f) + fPort);
    HostReadsBack(e);
    HostReadsBack(f);
    HostEnds(Host(e), ePort);
    HostEnds(Host(f), fPort);
    if ePort == [] {
      assert Host(e) + ePort == Host(e) && Host(f) + fPort == Host(f);
    }
  }

  lemma {:induction false} PortsAreUnique(a: nat, b: nat, usual: nat, aText: string, bText: string)
    requires aText == bText && aText == (if a == usual then "" else ":" + Print(a))
    requires bText == if b == usual then "" else ":" + Print(b)
    ensures a == b
  {
    PrintReadsBack(a);
    PrintReadsBack(b);
    if aText != [] {
      assert aText[1..] == Print(a) && bText[1..] == Print(b);
    }
  }

  /** Two valid entries are written alike only if they are the same. */
  lemma {:induction false} SerialiseIsInjective(e: Entry, f: Entry)
    requires Valid(e) && Valid(f) && Serialise(e) == Serialise(f)
    ensures e == f
  {
    var ePort := if e.port == DefaultPort(e.scheme) then "" else ":" + Print(e.port);
    var fPort := if f.port == DefaultPort(f.scheme) then "" else ":" + Print(f.port);
    assert Serialise(e) == SchemeText(e.scheme) + "://" + (Host(e) + ePort);
    assert Serialise(f) == SchemeText(f.scheme) + "://" + (Host(f) + fPort);
    PartsAreUnique(e, f, ePort, fPort);
    PortsAreUnique(e.port, f.port, DefaultPort(e.scheme), ePort, fPort);
  }

  /** Two accepted texts other than `*` are stored alike exactly when they spell the same scheme,
      host, wildcard and port. */
  lemma {:induction false} SameFormIffSameOrigin(text: string, other: string, e: Entry, f: Entry)
    requires Valid(e) && Spells(text, e) && Valid(f) && Spells(other, f)
    ensures Canonical(text) == Canonical(other) <==> e == f
  {
    SpellingsAreCanonical(text, e);
    SpellingsAreCanonical(other, f);
    if Serialise(e) == Serialise(f) {
      SerialiseIsInjective(e, f);
    }
  }

  // How the data plane reads what is stored.

  predicate IsAnyLabel(l: string) {
    l != [] && All(l, LabelChar)
  }

  /** Whether a stored entry other than `*` lets in a request whose `Origin` is `origin`. */
  predicate Matches(stored: string, origin: string) {
    match SplitOnce(stored, "*.")
    case None => stored == origin
    case Some((scheme, tail)) =>
      && scheme <= origin
      && var rest := origin[|scheme|..];
         && EndsWith(rest, "." + tail)
         && IsAnyLabel(rest[..|rest| - |tail| - 1])
  }

  /** The `Access-Control-Allow-Origin` a policy with these entries answers `origin` with. */
  function Allowed(stored: seq<string>, origin: string): Option<string> {
    if origin == "null" then None
    else if "*" in stored then Some("*")
    else if exists i :: 0 <= i < |stored| && Matches(stored[i], origin) then Some(origin)
    else None
  }

  /** The origins an entry means: the one it names, or every host one label below its name. */
  ghost predicate Covers(e: Entry, o: Entry) {
    && e.scheme == o.scheme && e.port == o.port
    && if e.wildcard then exists below :: IsAnyLabel(below) && o.name == below + "." + e.name
       else o.name == e.name
  }

  function PortText(e: Entry): string {
    if e.port == DefaultPort(e.scheme) then "" else ":" + Print(e.port)
  }

  lemma {:induction false} SerialisedParts(e: Entry)
    ensures Serialise(e) == SchemeText(e.scheme) + "://" + (Host(e) + PortText(e))
    ensures e.wildcard ==> Serialise(e) == (SchemeText(e.scheme) + "://") + "*." + (e.name + PortText(e))
  {
  }

  lemma {:induction false} PortTextIsUnique(e: Entry, o: Entry)
    requires e.scheme == o.scheme && PortText(e) == PortText(o)
    ensures e.port == o.port
  {
    PrintReadsBack(e.port);
    PrintReadsBack(o.port);
    if PortText(e) != [] {
      assert PortText(e)[1..] == Print(e.port) && PortText(o)[1..] == Print(o.port);
    }
  }

  lemma {:induction false} MatchedOneBelow(scheme: string, tail: string, origin: string) returns (below: string)
    requires '*' !in scheme && Matches(scheme + "*." + tail, origin)
    ensures IsAnyLabel(below) && origin == scheme + (below + ("." + tail))
  {
    SplitOnceAt(scheme, "*.", tail);
    var rest := origin[|scheme|..];
    below := rest[..|rest| - |tail| - 1];
    assert rest == below + ("." + tail);
  }

  lemma {:induction false} OneBelowMatches(scheme: string, tail: string, below: string)
    requires '*' !in scheme && IsAnyLabel(below)
    ensures Matches(scheme + "*." + tail, scheme + (below + ("." + tail)))
  {
    SplitOnceAt(scheme, "*.", tail);
    var rest := below + ("." + tail);
    assert (scheme + rest)[|scheme|..] == rest;
    assert rest[|below|..] == "." + tail && rest[..|below|] == below;
  }

  lemma {:induction false} WildcardMatches(e: Entry, origin: string)
    requires Valid(e) && e.wildcard
    ensures Matches(Serialise(e), origin) <==>
      exists below :: IsAnyLabel(below) &&
        origin == SchemeText(e.scheme) + "://" + (below + "." + e.name + PortText(e))
  {
    var scheme, tail := SchemeText(e.scheme) + "://", e.name + PortText(e);
    SerialisedParts(e);
    if Matches(Serialise(e), origin) {
      var below := MatchedOneBelow(scheme, tail, origin);
      RestIsOne(below, e);
    }
    forall below | IsAnyLabel(below) && origin == scheme + (below + "." + e.name + PortText(e))
      ensures Matches(Serialise(e), origin)
    {
      RestIsOne(below, e);
      OneBelowMatches(scheme, tail, below);
    }
  }

  lemma RestIsOne(below: string, e: Entry)
    ensures below + "." + e.name + PortText(e) == below + ("." + (e.name + PortText(e)))
  {
  }

  lemma {:induction false} BelowName(e: Entry, o: Entry, below: string)
    requires Valid(e) && Valid(o) && !o.wildcard && IsAnyLabel(below)
    ensures Serialise(o) == SchemeText(e.scheme) + "://" + (below + "." + e.name + PortText(e)) <==>
            e.scheme == o.scheme && e.port == o.port && o.name == below + "." + e.name
  {
    SerialisedParts(o);
    HostReadsBack(o);
    NameChars(e.name);
    var host := below + "." + e.name;
    assert Host(o) + PortText(o) == o.name + PortText(o);
    if Serialise(o) == SchemeText(e.scheme) + "://" + (host + PortText(e)) {
      SplitOnceAt(SchemeText(e.scheme), "://", host + PortText(e));
      SplitOnceAt(SchemeText(o.scheme), "://", Host(o) + PortText(o));
      HostEnds(host, PortText(e));
      HostEnds(Host(o), PortText(o));
      assert PortText(e) == [] ==> host + PortText(e) == host && Host(o) + PortText(o) == Host(o);
      PortTextIsUnique(e, o);
    }
  }

  /** An entry without a wildcard matches itself and nothing else. */
  lemma {:induction false} ExactMatches(e: Entry, origin: string)
    requires Valid(e) && !e.wildcard
    ensures Matches(Serialise(e), origin) <==> origin == Serialise(e)
  {
    NameChars(e.name);
    PrintReadsBack(e.port);
    SplitOnceAbsent(Serialise(e), "*.");
  }

  lemma {:induction false} WildcardAdmits(e: Entry, o: Entry)
    requires Valid(e) && Valid(o) && !o.wildcard && e.wildcard
    ensures Matches(Serialise(e), Serialise(o)) <==> Covers(e, o)
  {
    WildcardMatches(e, Serialise(o));
    forall below | IsAnyLabel(below)
      ensures Serialise(o) == SchemeText(e.scheme) + "://" + (below + "." + e.name + PortText(e)) <==>
              e.scheme == o.scheme && e.port == o.port && o.name == below + "." + e.name
    {
      BelowName(e, o, below);
    }
  }

  /** Stored and matched, an entry lets in exactly the origins it means: the one a browser writes
      for the same scheme, host and port, or for any one label below the name of a wildcard. */
  lemma {:induction false} EntryAdmitsWhatItMeans(e: Entry, o: Entry)
    requires Valid(e) && Valid(o) && !o.wildcard
    ensures Matches(Serialise(e), Serialise(o)) <==> Covers(e, o)
  {
    if e.wildcard {
      WildcardAdmits(e, o);
    } else {
      ExactMatches(e, Serialise(o));
      if Serialise(e) == Serialise(o) {
        SerialiseIsInjective(e, o);
      }
    }
  }

  lemma SerialiseStartsWithScheme(e: Entry)
    ensures Serialise(e) != [] && Serialise(e)[0] == 'h'
  {
  }

  /** The origin texts an entry means: its scheme, its host or any one label below it, its port. */
  ghost predicate Means(e: Entry, origin: string) {
    exists host ::
      && origin == SchemeText(e.scheme) + "://" + (host + PortText(e))
      && if e.wildcard then OneBelow(host, e.name) else host == e.name
  }

  ghost predicate OneBelow(host: string, name: string) {
    exists below :: IsAnyLabel(below) && host == below + "." + name
  }

  /** Whatever text is sent, a stored entry matches it exactly if it means it. */
  lemma {:induction false} EntryMatchesText(e: Entry, origin: string)
    requires Valid(e)
    ensures Matches(Serialise(e), origin) <==> Means(e, origin)
  {
    if e.wildcard {
      WildcardMatches(e, origin);
      forall below | IsAnyLabel(below) && origin == SchemeText(e.scheme) + "://" + (below + "." + e.name + PortText(e))
        ensures Means(e, origin)
      {
        assert OneBelow(below + "." + e.name, e.name);
      }
    } else {
      ExactMatches(e, origin);
      SerialisedParts(e);
      assert Host(e) == e.name;
    }
  }

  ghost predicate TextMeans(text: string, origin: string) {
    exists e :: Valid(e) && Spells(text, e) && Means(e, origin)
  }

  ghost predicate TextCovers(text: string, o: Entry) {
    exists e :: Valid(e) && Spells(text, e) && Covers(e, o)
  }

  lemma {:induction false} SpellsOne(text: string, e: Entry, f: Entry)
    requires Valid(e) && Spells(text, e) && Valid(f) && Spells(text, f)
    ensures e == f
  {
    SameFormIffSameOrigin(text, text, e, f);
  }

  lemma {:induction false} StoredMatches(text: string, stored: string, origin: string)
    requires Canonical(text) == Ok(stored) && text != "*"
    ensures stored != "*" && (Matches(stored, origin) <==> TextMeans(text, origin))
  {
    StarIsItself(text);
    var e := CanonicalIsSpelled(text);
    SerialiseStartsWithScheme(e);
    EntryMatchesText(e, origin);
    forall f | Valid(f) && Spells(text, f) ensures f == e {
      SpellsOne(text, e, f);
    }
  }

  lemma StarIsItself(text: string)
    ensures Lower(text) == "*" <==> text == "*"
  {
    assert text == "*" ==> Lower(text) == "*";
    if Lower(text) == "*" {
      assert |text| == 1 && text == [text[0]];
    }
  }

  /** Whatever text a request sends as its origin, a policy written as `texts`, in any spelling,
      answers it with `*` if that is listed and with itself exactly when one of the entries means it. */
  lemma {:induction false} PolicyAllowsWhatItMeans(texts: seq<string>, stored: seq<string>, origin: string)
    requires |texts| == |stored| && forall i :: 0 <= i < |texts| ==> Canonical(texts[i]) == Ok(stored[i])
    ensures Allowed(stored, origin) ==
            if origin == "null" then None
            else if "*" in texts then Some("*")
            else if exists i :: 0 <= i < |texts| && TextMeans(texts[i], origin) then Some(origin)
            else None
  {
    forall i | 0 <= i < |texts|
      ensures stored[i] == "*" <==> texts[i] == "*"
      ensures texts[i] != "*" ==> (Matches(stored[i], origin) <==> TextMeans(texts[i], origin))
    {
      if texts[i] == "*" {
        StarIsItself(texts[i]);
      } else {
        StoredMatches(texts[i], stored[i], origin);
      }
    }
  }

  /** Of the origins browsers send, those are the ones whose scheme, host and port an entry names. */
  lemma {:induction false} BrowsersAreAnswered(texts: seq<string>, stored: seq<string>, o: Entry)
    requires |texts| == |stored| && forall i :: 0 <= i < |texts| ==> Canonical(texts[i]) == Ok(stored[i])
    requires Valid(o) && !o.wildcard
    ensures Allowed(stored, Serialise(o)) ==
            if "*" in texts then Some("*")
            else if exists i :: 0 <= i < |texts| && TextCovers(texts[i], o) then Some(Serialise(o))
            else None
  {
    PolicyAllowsWhatItMeans(texts, stored, Serialise(o));
    SerialiseStartsWithScheme(o);
    forall e | Valid(e) ensures Means(e, Serialise(o)) <==> Covers(e, o) {
      EntryMatchesText(e, Serialise(o));
      EntryAdmitsWhatItMeans(e, o);
    }
    forall text: string ensures TextMeans(text, Serialise(o)) <==> TextCovers(text, o) {
    }
  }

  // What is written, written out.

  /** A lowercase letter, a digit or a hyphen. */
  predicate MayStandInALabel(c: char) {
    'a' <= c <= 'z' || '0' <= c <= '9' || c == '-'
  }

  /** An entry has a name of at most 253 characters, labels of 1 to 63 between dots, two or more below a
      wildcard, and a port. */
  lemma {:induction false} ValidMeans(e: Entry)
    ensures Valid(e) <==>
            && |e.name| <= 253 && 1 <= e.port <= 65535 && (e.wildcard ==> '.' in e.name)
            && forall x :: IsPiece(e.name, '.', x) ==>
                 1 <= |x| <= 63 && forall i :: 0 <= i < |x| ==> MayStandInALabel(x[i])
  {
    var labels := Split(e.name, '.');
    if IsName(e.name) {
      forall x | IsPiece(e.name, '.', x)
        ensures 1 <= |x| <= 63 && forall i :: 0 <= i < |x| ==> MayStandInALabel(x[i])
      {
        PiecesAre(e.name, '.', x);
        var i :| 0 <= i < |labels| && labels[i] == x;
      }
    }
    forall i | 0 <= i < |labels| ensures IsPiece(e.name, '.', labels[i]) {
      PiecesAre(e.name, '.', labels[i]);
    }
  }

  /** It is stored with its port, but for 80 with `http` and 443 with `https`. */
  lemma {:induction false} SerialisedMeans(e: Entry)
    ensures
      var usual := if e.scheme.Http? then 80 else 443;
      Serialise(e) ==
      (if e.scheme.Http? then "http" else "https") + "://" + (if e.wildcard then "*." else "") + e.name +
      (if e.port == usual then "" else ":" + Print(e.port))
  {
    var scheme := SchemeText(e.scheme);
    assert Host(e) == (if e.wildcard then "*." else "") + e.name;
    assert scheme + "://" + (Host(e) + PortText(e)) ==
           scheme + "://" + (if e.wildcard then "*." else "") + e.name + PortText(e);
    SerialisedParts(e);
  }

  /** A wildcard matches its name with one label, of any length but none, before it. */
  lemma {:induction false} WildcardMeans(e: Entry, origin: string)
    requires Valid(e) && e.wildcard
    ensures
      Matches(Serialise(e), origin) <==>
      exists below: string ::
        && below != "" && (forall i :: 0 <= i < |below| ==> MayStandInALabel(below[i]))
        && origin == SchemeText(e.scheme) + "://" + (below + "." + e.name + PortText(e))
  {
    WildcardMatches(e, origin);
    forall below: string
      ensures IsAnyLabel(below) <==> below != "" && forall i :: 0 <= i < |below| ==> MayStandInALabel(below[i])
    {
    }
  }
}
