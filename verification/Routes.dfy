/** Checking a route an operator writes, and the normal form the checked route is in. */
module Routes {
  import opened Paths
  import opened RoutePaths
  import opened Text
  import opened Wrappers

  const MAX_NAME_CHARS := 63
  const MAX_HOSTS := 32
  const MAX_PATHS := 32
  const MAX_COMBINATIONS := 1024
  const MAX_PATH_CHARS := 1024
  const MAX_HEADERS := 16
  const MAX_HEADER_NAME_CHARS := 64
  const MAX_HEADER_VALUE_CHARS := 1024

  const METHODS := ["GET", "HEAD", "POST", "PUT", "PATCH", "DELETE", "OPTIONS", "CONNECT", "TRACE"]

  /** What the data plane sets about the caller after a route is matched. */
  const GATEWAY_HEADERS := ["x-consumer-username", "x-consumer-groups", "x-anonymous-consumer"]

  /** The field a refusal names. */
  datatype Field =
    | Name
    | Service
    | Hosts
    | Host(i: nat)
    | Paths
    | PathType(i: nat)
    | PathValue(i: nat)
    | Method(i: nat)
    | Headers
    | HeaderName(i: nat)
    | HeaderValue(i: nat)
    | StripPath
    | UpdatedAt

  datatype PathInput = PathInput(kind: string, value: string)
  datatype PathMatch = PathMatch(kind: Kind, value: string)
  datatype HeaderMatch = HeaderMatch(name: string, value: string)

  datatype RouteInput = RouteInput(
    name: string, service: string, hosts: seq<string>, paths: seq<PathInput>, methods: seq<string>,
    headers: Option<seq<HeaderMatch>>, stripPath: Option<bool>, priority: int,
    updatedAt: Option<string>)

  datatype Route = Route(
    name: string, service: string, hosts: seq<string>, paths: seq<PathMatch>, methods: seq<string>,
    headers: seq<HeaderMatch>, stripPath: bool, priority: int)

  datatype Write = Create | Replace

  // Lists checked entry by entry.

  /** Every entry checked in turn, up to the first refusal, each result kept once. */
  function Collect<A, B(==)>(items: seq<A>, check: (nat, A) -> Result<B, Field>): Result<seq<B>, Field> {
    if items == [] then Ok([])
    else
      var last := |items| - 1;
      var out :- Collect(items[..last], check);
      var entry :- check(last, items[last]);
      Ok(if entry in out then out else out + [entry])
  }

  method CollectEntries<A, B(==)>(items: seq<A>, check: (nat, A) -> Result<B, Field>)
    returns (r: Result<seq<B>, Field>)
    ensures r == Collect(items, check)
  {
    var out: seq<B> := [];
    for i := 0 to |items|
      invariant Collect(items[..i], check) == Ok(out)
    {
      assert items[..i + 1][..i] == items[..i];
      var entry := check(i, items[i]);
      if entry.Err? {
        CollectStops(items, check, i + 1);
        return Err(entry.error);
      }
      if entry.value !in out {
        out := out + [entry.value];
      }
    }
    assert items[..|items|] == items;
    return Ok(out);
  }

  lemma {:induction false} CollectStops<A, B>(items: seq<A>, check: (nat, A) -> Result<B, Field>, n: nat)
    requires n <= |items| && Collect(items[..n], check).Err?
    ensures Collect(items, check) == Collect(items[..n], check)
  {
    if n == |items| {
      assert items[..n] == items;
    } else {
      var front := items[..|items| - 1];
      assert front[..n] == items[..n];
      CollectStops(front, check, n);
    }
  }

  predicate NoRepeats<T(==)>(s: seq<T>) {
    forall i, j :: 0 <= i < j < |s| ==> s[i] != s[j]
  }

  /** Some entry is kept as `b`. */
  ghost predicate Given<A, B>(items: seq<A>, check: (nat, A) -> Result<B, Field>, b: B) {
    exists i :: 0 <= i < |items| && check(i, items[i]) == Ok(b)
  }

  lemma {:induction false} GivenOneMore<A, B>(items: seq<A>, check: (nat, A) -> Result<B, Field>, b: B)
    requires items != []
    ensures
      var last := |items| - 1;
      Given(items, check, b) <==> Given(items[..last], check, b) || check(last, items[last]) == Ok(b)
  {
    var front := items[..|items| - 1];
    if i :| 0 <= i < |front| && check(i, front[i]) == Ok(b) {
      assert check(i, items[i]) == Ok(b);
    }
    if i :| 0 <= i < |items| && check(i, items[i]) == Ok(b) {
      assert i < |front| ==> check(i, front[i]) == Ok(b);
    }
  }

  /** An accepted list holds what its entries are checked to, each once. */
  lemma {:induction false} CollectHolds<A, B(!new)>(items: seq<A>, check: (nat, A) -> Result<B, Field>)
    requires Collect(items, check).Ok?
    ensures NoRepeats(Collect(items, check).value) && |Collect(items, check).value| <= |items|
    ensures forall i :: 0 <= i < |items| ==> check(i, items[i]).Ok?
    ensures forall b :: b in Collect(items, check).value <==> Given(items, check, b)
  {
    if items != [] {
      var last := |items| - 1;
      var front := items[..last];
      CollectHolds(front, check);
      forall b ensures b in Collect(items, check).value <==> Given(items, check, b) {
        GivenOneMore(items, check, b);
      }
    }
  }

  /** A list of distinct entries that are checked to themselves is kept as it is. */
  lemma {:induction false} CollectKeeps<A, B>(
    items: seq<A>, check: (nat, A) -> Result<B, Field>, out: seq<B>)
    requires |items| == |out| && NoRepeats(out)
    requires forall i :: 0 <= i < |items| ==> check(i, items[i]) == Ok(out[i])
    ensures Collect(items, check) == Ok(out)
  {
    if items != [] {
      var last := |items| - 1;
      CollectKeeps(items[..last], check, out[..last]);
      assert out[last] !in out[..last];
      assert out[..last] + [out[last]] == out;
    }
  }

  /** A list is refused at its first entry that is. */
  lemma {:induction false} CollectRefuses<A, B>(
    items: seq<A>, check: (nat, A) -> Result<B, Field>, error: Field)
    ensures Collect(items, check) == Err(error) <==>
            exists i :: 0 <= i < |items| && FirstRefused(items, check, i) && check(i, items[i]) == Err(error)
  {
    if items != [] {
      var last := |items| - 1;
      var front := items[..last];
      CollectRefuses(front, check, error);
      forall i | 0 <= i < last ensures FirstRefused(items, check, i) == FirstRefused(front, check, i) {
      }
      if Collect(front, check).Ok? {
        CollectAccepts(front, check);
        assert forall i :: 0 <= i < last ==> front[i] == items[i];
      } else {
        CollectRefuses(front, check, Collect(front, check).error);
      }
    }
  }

  ghost predicate FirstRefused<A, B>(items: seq<A>, check: (nat, A) -> Result<B, Field>, i: nat)
    requires i < |items|
  {
    check(i, items[i]).Err? && forall j :: 0 <= j < i ==> check(j, items[j]).Ok?
  }

  lemma {:induction false} CollectAccepts<A, B>(items: seq<A>, check: (nat, A) -> Result<B, Field>)
    requires Collect(items, check).Ok?
    ensures forall i :: 0 <= i < |items| ==> check(i, items[i]).Ok?
  {
    if items != [] {
      var last := |items| - 1;
      CollectAccepts(items[..last], check);
      assert forall i :: 0 <= i < last ==> items[i] == items[..last][i];
    }
  }

  // Names, hosts, paths and methods.

  /** 1 to 63 letters, digits and `. _ ~ -`, the first a letter or a digit. */
  predicate IsName(value: string) {
    && 1 <= |value| <= MAX_NAME_CHARS
    && IsAlphanumeric(value[0])
    && All(value, c => IsAlphanumeric(c) || c in "._~-")
  }

  predicate IsLabel(piece: string) {
    && 1 <= |piece| <= 63
    && piece[0] != '-'
    && piece[|piece| - 1] != '-'
    && All(piece, c => IsAlphanumeric(c) || c == '-')
  }

  predicate IsDnsName(value: string) {
    var labels := Split(value, '.');
    var last := labels[|labels| - 1];
    && |value| <= 253
    && (forall i :: 0 <= i < |labels| ==> IsLabel(labels[i]))
    && (IsUpper(last[0]) || IsLower(last[0]))
  }

  function CheckHost(i: nat, host: string): Result<string, Field> {
    var lowered := Lower(host);
    var bare := if "*." <= lowered then lowered[2..] else lowered;
    if IsDnsName(bare) then Ok(lowered) else Err(Host(i))
  }

  function KindNamed(text: string): Option<Kind> {
    if text == "prefix" then Some(Prefix)
    else if text == "exact" then Some(Exact)
    else if text == "regex" then Some(Regex)
    else None
  }

  function KindText(kind: Kind): string {
    match kind
    case Prefix => "prefix"
    case Exact => "exact"
    case Regex => "regex"
  }

  /** `compiles` tells which regular expressions the data plane can compile. */
  function CheckPath(compiles: string -> bool, i: nat, path: PathInput): Result<PathMatch, Field> {
    match KindNamed(path.kind)
    case None => Err(PathType(i))
    case Some(kind) =>
      if !(1 <= |path.value| <= MAX_PATH_CHARS) then Err(PathValue(i))
      else if kind == Regex then
        if compiles(path.value) && UpperEscapes(path.value) == path.value
        then Ok(PathMatch(Regex, path.value)) else Err(PathValue(i))
      else if Plain(path.value) then Ok(PathMatch(kind, Stored(kind, path.value)))
      else Err(PathValue(i))
  }

  function PathCheck(compiles: string -> bool): (nat, PathInput) -> Result<PathMatch, Field> {
    (i: nat, path: PathInput) => CheckPath(compiles, i, path)
  }

  function CheckMethod(i: nat, name: string): Result<string, Field> {
    if Upper(name) in METHODS then Ok(Upper(name)) else Err(Method(i))
  }

  // Headers.

  predicate IsToken(value: string) {
    value != "" && All(value, IsTokenChar)
  }

  predicate IsHeaderValue(value: string) {
    && 1 <= |value| <= MAX_HEADER_VALUE_CHARS
    && All(value, c => IsVisible(c) || c == ' ' || c == '\t')
    && IsVisible(value[0])
    && IsVisible(value[|value| - 1])
  }

  predicate Names(headers: seq<HeaderMatch>, name: string) {
    exists i :: 0 <= i < |headers| && headers[i].name == name
  }

  function CheckHeader(before: seq<HeaderMatch>, i: nat, header: HeaderMatch): Result<HeaderMatch, Field> {
    var name := Lower(header.name);
    if || |header.name| > MAX_HEADER_NAME_CHARS
       || !IsToken(header.name)
       || name == "host"
       || name in GATEWAY_HEADERS
       || Names(before, name)
    then Err(HeaderName(i))
    else if !IsHeaderValue(header.value) then Err(HeaderValue(i))
    else Ok(HeaderMatch(name, header.value))
  }

  function CollectHeaders(input: seq<HeaderMatch>): Result<seq<HeaderMatch>, Field> {
    if input == [] then Ok([])
    else
      var last := |input| - 1;
      var before :- CollectHeaders(input[..last]);
      var header :- CheckHeader(before, last, input[last]);
      Ok(before + [header])
  }

  function CheckHeaders(input: seq<HeaderMatch>): Result<seq<HeaderMatch>, Field> {
    if |input| > MAX_HEADERS then Err(Headers) else CollectHeaders(input)
  }

  method CheckedHeaders(input: seq<HeaderMatch>) returns (r: Result<seq<HeaderMatch>, Field>)
    ensures r == CheckHeaders(input)
  {
    if |input| > MAX_HEADERS {
      return Err(Headers);
    }
    var out := [];
    for i := 0 to |input|
      invariant CollectHeaders(input[..i]) == Ok(out)
    {
      assert input[..i + 1][..i] == input[..i];
      var header := CheckHeader(out, i, input[i]);
      if header.Err? {
        HeadersStop(input, i + 1);
        return Err(header.error);
      }
      out := out + [header.value];
    }
    assert input[..|input|] == input;
    return Ok(out);
  }

  lemma {:induction false} HeadersStop(input: seq<HeaderMatch>, n: nat)
    requires n <= |input| && CollectHeaders(input[..n]).Err?
    ensures CollectHeaders(input) == CollectHeaders(input[..n])
  {
    if n == |input| {
      assert input[..n] == input;
    } else {
      var front := input[..|input| - 1];
      assert front[..n] == input[..n];
      HeadersStop(front, n);
    }
  }

  function NamesOf(headers: seq<HeaderMatch>): (r: seq<string>)
    ensures |r| == |headers| && forall i :: 0 <= i < |headers| ==> r[i] == headers[i].name
  {
    seq(|headers|, i requires 0 <= i < |headers| => headers[i].name)
  }

  predicate HeaderIsChecked(header: HeaderMatch) {
    && |header.name| <= MAX_HEADER_NAME_CHARS
    && IsToken(header.name)
    && Lower(header.name) == header.name
    && header.name != "host"
    && header.name !in GATEWAY_HEADERS
    && IsHeaderValue(header.value)
  }

  /** Accepted headers are the ones given, in order, with lowercase names, no name twice. */
  lemma {:induction false} HeadersHold(input: seq<HeaderMatch>)
    requires CollectHeaders(input).Ok?
    ensures
      var out := CollectHeaders(input).value;
      && |out| == |input|
      && NoRepeats(NamesOf(out))
      && (forall i :: 0 <= i < |out| ==>
            HeaderIsChecked(out[i]) && out[i] == HeaderMatch(Lower(input[i].name), input[i].value))
  {
    if input != [] {
      var last := |input| - 1;
      HeadersHold(input[..last]);
      var before, header := CollectHeaders(input[..last]).value, CollectHeaders(input).value[last];
      LowerIsLower(input[last].name);
      assert HeaderIsChecked(header);
      forall i | 0 <= i < last ensures before[i].name != header.name {
        assert !Names(before, header.name);
      }
    }
  }

  lemma CheckedHeaderPasses(before: seq<HeaderMatch>, i: nat, header: HeaderMatch)
    requires HeaderIsChecked(header) && !Names(before, header.name)
    ensures CheckHeader(before, i, header) == Ok(header)
  {
  }

  lemma {:induction false} LastIsNotNamed(out: seq<HeaderMatch>)
    requires out != [] && NoRepeats(NamesOf(out))
    ensures
      var before := out[..|out| - 1];
      !Names(before, out[|out| - 1].name) && NoRepeats(NamesOf(before))
  {
    var last := |out| - 1;
    var before := out[..last];
    assert forall i :: 0 <= i < last ==> NamesOf(before)[i] == NamesOf(out)[i];
    forall i | 0 <= i < last ensures before[i].name != out[last].name {
      assert NamesOf(out)[i] != NamesOf(out)[last];
    }
  }

  /** Headers that were accepted are accepted again, unchanged. */
  lemma {:induction false} HeadersKeep(out: seq<HeaderMatch>)
    requires NoRepeats(NamesOf(out)) && forall i :: 0 <= i < |out| ==> HeaderIsChecked(out[i])
    ensures CollectHeaders(out) == Ok(out)
  {
    if out != [] {
      var last := |out| - 1;
      LastIsNotNamed(out);
      HeadersKeep(out[..last]);
      CheckedHeaderPasses(out[..last], last, out[last]);
      assert out[..last] + [out[last]] == out;
    }
  }

  // Routes.

  function AtLeastOne(n: nat): nat {
    if n == 0 then 1 else n
  }

  /** The host, path and method combinations a route expands to; an empty list means any. */
  function Combinations(hosts: nat, paths: nat, methods: nat): nat {
    AtLeastOne(hosts) * AtLeastOne(paths) * AtLeastOne(methods)
  }

  predicate StripPathFits(route: Route) {
    route.stripPath ==> forall i :: 0 <= i < |route.paths| ==> route.paths[i].kind != Regex
  }

  function CheckUpdatedAt(write: Write, updatedAt: Option<string>): Result<Option<string>, Field> {
    if write.Create? == updatedAt.None? then Ok(updatedAt) else Err(UpdatedAt)
  }

  function CheckRoute(input: RouteInput, write: Write, compiles: string -> bool)
    : Result<(Route, Option<string>), Field>
  {
    if !IsName(input.name) then Err(Name)
    else if !IsName(input.service) then Err(Service)
    else if |input.hosts| > MAX_HOSTS then Err(Hosts)
    else
      var hosts :- Collect(input.hosts, CheckHost);
      if |input.paths| > MAX_PATHS then Err(Field.Paths)
      else
        var paths :- Collect(input.paths, PathCheck(compiles));
        var methods :- Collect(input.methods, CheckMethod);
        var headers :- CheckHeaders(if input.headers.Some? then input.headers.value else []);
        var route := Route(
                       input.name, input.service, hosts, paths, methods, headers,
                       input.stripPath == Some(true), input.priority);
        if Combinations(|hosts|, |paths|, |methods|) > MAX_COMBINATIONS then Err(Field.Paths)
        else if !StripPathFits(route) then Err(StripPath)
        else
          var updatedAt :- CheckUpdatedAt(write, input.updatedAt);
          Ok((route, updatedAt))
  }

  // The normal form.

  ghost predicate HostsAreNormal(hosts: seq<string>) {
    && |hosts| <= MAX_HOSTS
    && NoRepeats(hosts)
    && forall i, k :: 0 <= i < |hosts| ==> CheckHost(k, hosts[i]) == Ok(hosts[i])
  }

  predicate PathIsNormal(path: PathMatch, compiles: string -> bool) {
    && 1 <= |path.value| <= MAX_PATH_CHARS
    && match path.kind
       case Regex => compiles(path.value) && UpperEscapes(path.value) == path.value
       case Exact => Plain(path.value) && Stored(Exact, path.value) == path.value
       case Prefix =>
         && Plain(path.value)
         && Stored(Prefix, path.value) == path.value
         && (path.value == "/" || path.value[|path.value| - 1] != '/')
  }

  ghost predicate PathsAreNormal(paths: seq<PathMatch>, compiles: string -> bool) {
    && |paths| <= MAX_PATHS
    && NoRepeats(paths)
    && forall i :: 0 <= i < |paths| ==> PathIsNormal(paths[i], compiles)
  }

  predicate MethodsAreNormal(methods: seq<string>) {
    && NoRepeats(methods)
    && forall i :: 0 <= i < |methods| ==> methods[i] in METHODS
  }

  predicate HeadersAreNormal(headers: seq<HeaderMatch>) {
    && |headers| <= MAX_HEADERS
    && NoRepeats(NamesOf(headers))
    && forall i :: 0 <= i < |headers| ==> HeaderIsChecked(headers[i])
  }

  ghost predicate IsNormal(route: Route, compiles: string -> bool) {
    && IsName(route.name)
    && IsName(route.service)
    && HostsAreNormal(route.hosts)
    && PathsAreNormal(route.paths, compiles)
    && MethodsAreNormal(route.methods)
    && HeadersAreNormal(route.headers)
    && Combinations(|route.hosts|, |route.paths|, |route.methods|) <= MAX_COMBINATIONS
    && StripPathFits(route)
  }

  lemma HostIsFixed(i: nat, host: string, k: nat)
    requires CheckHost(i, host).Ok?
    ensures CheckHost(k, CheckHost(i, host).value) == CheckHost(i, host)
  {
    LowerIsLower(host);
  }

  lemma PathIsFixed(i: nat, path: PathInput, compiles: string -> bool)
    requires CheckPath(compiles, i, path).Ok?
    ensures PathIsNormal(CheckPath(compiles, i, path).value, compiles)
  {
    if path.kind != "regex" {
      StoredIsNormalForm(KindNamed(path.kind).value, path.value);
    }
  }

  lemma MethodsAreUpper(name: string)
    requires name in METHODS
    ensures Upper(name) == name
  {
    assert All(name, c => !IsLower(c));
    UpperFixes(name);
  }

  lemma {:induction false} HostsBecomeNormal(hosts: seq<string>)
    requires |hosts| <= MAX_HOSTS && Collect(hosts, CheckHost).Ok?
    ensures HostsAreNormal(Collect(hosts, CheckHost).value)
  {
    var out := Collect(hosts, CheckHost).value;
    CollectHolds(hosts, CheckHost);
    forall i, k: nat | 0 <= i < |out| ensures CheckHost(k, out[i]) == Ok(out[i]) {
      assert Given(hosts, CheckHost, out[i]);
      var j :| 0 <= j < |hosts| && CheckHost(j, hosts[j]) == Ok(out[i]);
      HostIsFixed(j, hosts[j], k);
    }
  }

  lemma {:induction false} PathsBecomeNormal(paths: seq<PathInput>, compiles: string -> bool)
    requires |paths| <= MAX_PATHS && Collect(paths, PathCheck(compiles)).Ok?
    ensures PathsAreNormal(Collect(paths, PathCheck(compiles)).value, compiles)
  {
    var check := PathCheck(compiles);
    var out := Collect(paths, check).value;
    CollectHolds(paths, check);
    forall i | 0 <= i < |out| ensures PathIsNormal(out[i], compiles) {
      assert Given(paths, check, out[i]);
      var j :| 0 <= j < |paths| && check(j, paths[j]) == Ok(out[i]);
      PathIsFixed(j, paths[j], compiles);
    }
  }

  lemma {:induction false} MethodsBecomeNormal(methods: seq<string>)
    requires Collect(methods, CheckMethod).Ok?
    ensures MethodsAreNormal(Collect(methods, CheckMethod).value)
  {
    var out := Collect(methods, CheckMethod).value;
    CollectHolds(methods, CheckMethod);
    forall i | 0 <= i < |out| ensures out[i] in METHODS {
      assert Given(methods, CheckMethod, out[i]);
    }
  }

  /** Every accepted route is in normal form. */
  lemma {:induction false} AcceptedIsNormal(input: RouteInput, write: Write, compiles: string -> bool)
    requires CheckRoute(input, write, compiles).Ok?
    ensures IsNormal(CheckRoute(input, write, compiles).value.0, compiles)
  {
    HostsBecomeNormal(input.hosts);
    PathsBecomeNormal(input.paths, compiles);
    MethodsBecomeNormal(input.methods);
    HeadersHold(if input.headers.Some? then input.headers.value else []);
  }

  /** The request that writes `route` out again. */
  function AsInput(route: Route, updatedAt: Option<string>): RouteInput {
    RouteInput(
      route.name, route.service, route.hosts,
      seq(|route.paths|, i requires 0 <= i < |route.paths| =>
          PathInput(KindText(route.paths[i].kind), route.paths[i].value)),
      route.methods, Some(route.headers), Some(route.stripPath), route.priority, updatedAt)
  }

  lemma NormalPathsAreKept(route: Route, compiles: string -> bool, updatedAt: Option<string>)
    requires PathsAreNormal(route.paths, compiles)
    ensures Collect(AsInput(route, updatedAt).paths, PathCheck(compiles)) == Ok(route.paths)
  {
    CollectKeeps(AsInput(route, updatedAt).paths, PathCheck(compiles), route.paths);
  }

  lemma NormalMethodsAreKept(methods: seq<string>)
    requires MethodsAreNormal(methods)
    ensures Collect(methods, CheckMethod) == Ok(methods)
  {
    forall i | 0 <= i < |methods| ensures CheckMethod(i, methods[i]) == Ok(methods[i]) {
      MethodsAreUpper(methods[i]);
    }
    CollectKeeps(methods, CheckMethod, methods);
  }

  /** A route in normal form, sent back, is accepted and comes out as it is. */
  lemma {:induction false} NormalIsKept(route: Route, write: Write, updatedAt: Option<string>, compiles: string -> bool)
    requires IsNormal(route, compiles) && write.Create? == updatedAt.None?
    ensures CheckRoute(AsInput(route, updatedAt), write, compiles) == Ok((route, updatedAt))
  {
    CollectKeeps(route.hosts, CheckHost, route.hosts);
    NormalPathsAreKept(route, compiles, updatedAt);
    NormalMethodsAreKept(route.methods);
    HeadersKeep(route.headers);
  }

  /** Checking an accepted route again gives it back: the checks only ever store fixed points. */
  lemma {:induction false} RouteIsIdempotent(
    input: RouteInput, write: Write, again: Write, updatedAt: Option<string>, compiles: string -> bool)
    requires CheckRoute(input, write, compiles).Ok? && again.Create? == updatedAt.None?
    ensures
      var route := CheckRoute(input, write, compiles).value.0;
      CheckRoute(AsInput(route, updatedAt), again, compiles) == Ok((route, updatedAt))
  {
    AcceptedIsNormal(input, write, compiles);
    NormalIsKept(CheckRoute(input, write, compiles).value.0, again, updatedAt, compiles);
  }

  /** An accepted route's plain paths are matched by some request exactly if none holds a `%` and a
      sign, and then a request for the stored path itself is. */
  lemma {:induction false} AcceptedPathsAreReachable(
    input: RouteInput, write: Write, compiles: string -> bool, i: nat)
    requires CheckRoute(input, write, compiles).Ok?
    requires i < |CheckRoute(input, write, compiles).value.0.paths|
    requires CheckRoute(input, write, compiles).value.0.paths[i].kind != Regex
    ensures
      var path := CheckRoute(input, write, compiles).value.0.paths[i];
      && (Reachable(path.kind, path.value) <==> !Contains(path.value, "%+"))
      && (!Contains(path.value, "%+") ==> Normalised(path.value) == Some(path.value))
  {
    AcceptedIsNormal(input, write, compiles);
    var path := CheckRoute(input, write, compiles).value.0.paths[i];
    assert PathIsNormal(path, compiles);
    ReachableIff(path.kind, path.value);
    StoredIsNormalIff(path.kind, path.value);
    NormalisedIsNormal(path.value, path.value);
  }
}
