/** The cors policies: which origins may call a route, and with what. */
module CorsPolicies {
  import opened Json
  import opened PolicyFields
  import opened Text
  import opened Wrappers
  import Origin

  const MAX_ORIGINS := 100
  const MAX_CORS_HEADERS := 64
  const MAX_AGE_SECS := 86_400

  datatype CorsPolicy = CorsPolicy(
    origins: seq<string>, methods: seq<string>, headers: seq<string>, exposeHeaders: seq<string>,
    credentials: bool, maxAge: Option<nat>, preflightContinue: bool)

  predicate IsCors(k: Key) {
    || k.Origins? || k.Methods? || k.Headers? || k.ExposeHeaders?
    || k.Credentials? || k.MaxAge? || k.PreflightContinue?
  }

  function ReadFlag(v: Json, at: At): Result<bool, At> {
    match v
    case Null => Ok(false)
    case Bool(b) => Ok(b)
    case _ => Err(at)
  }

  function CheckOrigin(text: string): Result<string, At> {
    if Origin.Canonical(text).Ok? then Ok(Origin.Canonical(text).value) else Err(One(Origins))
  }

  function ReadOrigins(v: Json, credentials: bool): Result<seq<string>, At> {
    var texts :- ReadTexts(v, One(Origins));
    if texts == [] || |texts| > MAX_ORIGINS then Err(One(Origins))
    else
      var origins :- MapAll(texts, CheckOrigin);
      if "*" in origins && (credentials || |origins| > 1) then Err(One(Origins)) else Ok(origins)
  }

  function CheckMethod(known: seq<string>): string -> Result<string, At> {
    name => if Upper(name) in known then Ok(Upper(name)) else Err(One(Methods))
  }

  /** The methods listed, of those there are, or the `usual` ones when none is. */
  function ReadMethods(known: seq<string>, usual: seq<string>, v: Json): Result<seq<string>, At> {
    var names :- ReadTexts(v, One(Methods));
    if names == [] then Ok(usual) else MapAll(names, CheckMethod(known))
  }

  function ReadMaxAge(v: Json): Result<Option<nat>, At> {
    match v
    case Null => Ok(None)
    case Int(n) => if 0 <= n <= MAX_AGE_SECS then Ok(Some(n)) else Err(One(MaxAge))
    case _ => Err(One(MaxAge))
  }

  function CheckCorsHeader(at: At): string -> Result<string, At> {
    name => if 1 <= |name| <= MAX_NAME_CHARS && AllTokens(name) then Ok(Lower(name)) else Err(at)
  }

  function ReadHeaderNames(v: Json, at: At): Result<seq<string>, At> {
    var names :- ReadTexts(v, at);
    if |names| > MAX_CORS_HEADERS then Err(at) else MapAll(names, CheckCorsHeader(at))
  }

  /** A cors policy of its parts, or the first refusal among them. */
  function CorsOf(
    credentials: Result<bool, At>, origins: Result<seq<string>, At>, methods: Result<seq<string>, At>,
    maxAge: Result<Option<nat>, At>, headers: Result<seq<string>, At>, exposed: Result<seq<string>, At>,
    preflight: Result<bool, At>): Result<CorsPolicy, At>
  {
    var credentials :- credentials;
    var origins :- origins;
    var methods :- methods;
    var maxAge :- maxAge;
    var headers :- headers;
    var exposed :- exposed;
    var preflight :- preflight;
    Ok(CorsPolicy(origins, methods, headers, exposed, credentials, maxAge, preflight))
  }

  function ReadCors(known: seq<string>, usual: seq<string>, v: Json): Result<CorsPolicy, At> {
    if !IsObject(v, IsCors) then Err(Config)
    else
      var credentials := ReadFlag(Field(v, Credentials), One(Credentials));
      CorsOf(
        credentials,
        ReadOrigins(Field(v, Origins), credentials == Ok(true)),
        ReadMethods(known, usual, Field(v, Methods)),
        ReadMaxAge(Field(v, MaxAge)),
        ReadHeaderNames(Field(v, Headers), One(Headers)),
        ReadHeaderNames(Field(v, ExposeHeaders), One(ExposeHeaders)),
        ReadFlag(Field(v, PreflightContinue), One(PreflightContinue)))
  }

  function SomeFlag(b: bool): Option<Json> {
    if b then Some(Bool(true)) else None
  }

  function SomeInt(o: Option<nat>): Option<Json> {
    if o.Some? then Some(Int(o.value)) else None
  }

  lemma OriginsSettle()
    ensures Settles(CheckOrigin)
  {
    forall t | CheckOrigin(t).Ok? ensures CheckOrigin(CheckOrigin(t).value) == CheckOrigin(t) {
      Origin.CanonicalIsFixed(t);
    }
  }

  lemma {:induction false} OriginsReadBack(v: Json, credentials: bool)
    requires ReadOrigins(v, credentials).Ok?
    ensures
      var origins := ReadOrigins(v, credentials).value;
      ReadOrigins(OfTexts(origins), credentials) == Ok(origins)
  {
    OriginsSettle();
    MapAllSettles(ReadTexts(v, One(Origins)).value, CheckOrigin);
    TextsReadBack(ReadOrigins(v, credentials).value);
  }

  /** Every method there is is in uppercase, and so the usual ones are read as they are. */
  ghost predicate UsualMethods(known: seq<string>, usual: seq<string>) {
    && usual != []
    && (forall m :: m in usual ==> m in known)
    && forall m :: m in known ==> Upper(m) == m
  }

  lemma {:induction false} MethodsReadBack(known: seq<string>, usual: seq<string>, v: Json)
    requires UsualMethods(known, usual) && ReadMethods(known, usual, v).Ok?
    ensures
      var methods := ReadMethods(known, usual, v).value;
      methods != [] && ReadMethods(known, usual, OfTexts(methods)) == Ok(methods)
  {
    var names, methods := ReadTexts(v, One(Methods)).value, ReadMethods(known, usual, v).value;
    if names == [] {
      MapAllIff(usual, CheckMethod(known), usual);
    } else {
      MapAllSettles(names, CheckMethod(known));
    }
    TextsReadBack(methods);
  }

  lemma {:induction false} HeaderNamesReadBack(v: Json, at: At)
    requires ReadHeaderNames(v, at).Ok?
    ensures
      var names := ReadHeaderNames(v, at).value;
      ReadHeaderNames(OrNull(SomeTexts(names)), at) == Ok(names)
  {
    var check := CheckCorsHeader(at);
    forall name | check(name).Ok? ensures check(check(name).value) == check(name) {
      LowerKeepsTokens(name);
    }
    MapAllSettles(ReadTexts(v, at).value, check);
    TextsReadBack(ReadHeaderNames(v, at).value);
  }

  lemma CorsParts(
    credentials: Result<bool, At>, origins: Result<seq<string>, At>, methods: Result<seq<string>, At>,
    maxAge: Result<Option<nat>, At>, headers: Result<seq<string>, At>, exposed: Result<seq<string>, At>,
    preflight: Result<bool, At>, p: CorsPolicy)
    ensures CorsOf(credentials, origins, methods, maxAge, headers, exposed, preflight) == Ok(p) <==>
            && credentials == Ok(p.credentials) && origins == Ok(p.origins) && methods == Ok(p.methods)
            && maxAge == Ok(p.maxAge) && headers == Ok(p.headers) && exposed == Ok(p.exposeHeaders)
            && preflight == Ok(p.preflightContinue)
  {
  }

  /** Every field of `v` is read as that of `p`. */
  ghost predicate ReadAs(known: seq<string>, usual: seq<string>, v: Json, p: CorsPolicy) {
    IsObject(v, IsCors) && ListsReadAs(known, usual, v, p) && ValuesReadAs(v, p)
  }

  ghost predicate ListsReadAs(known: seq<string>, usual: seq<string>, v: Json, p: CorsPolicy)
    requires v.Obj?
  {
    && ReadOrigins(Field(v, Origins), p.credentials) == Ok(p.origins)
    && ReadMethods(known, usual, Field(v, Methods)) == Ok(p.methods)
    && ReadHeaderNames(Field(v, Headers), One(Headers)) == Ok(p.headers)
    && ReadHeaderNames(Field(v, ExposeHeaders), One(ExposeHeaders)) == Ok(p.exposeHeaders)
  }

  ghost predicate ValuesReadAs(v: Json, p: CorsPolicy)
    requires v.Obj?
  {
    && ReadFlag(Field(v, Credentials), One(Credentials)) == Ok(p.credentials)
    && ReadMaxAge(Field(v, MaxAge)) == Ok(p.maxAge)
    && ReadFlag(Field(v, PreflightContinue), One(PreflightContinue)) == Ok(p.preflightContinue)
  }

  lemma ReadCorsIff(known: seq<string>, usual: seq<string>, v: Json, p: CorsPolicy)
    ensures ReadCors(known, usual, v) == Ok(p) <==> ReadAs(known, usual, v, p)
  {
    if IsObject(v, IsCors) {
      var credentials := ReadFlag(Field(v, Credentials), One(Credentials));
      CorsParts(
        credentials,
        ReadOrigins(Field(v, Origins), credentials == Ok(true)),
        ReadMethods(known, usual, Field(v, Methods)),
        ReadMaxAge(Field(v, MaxAge)),
        ReadHeaderNames(Field(v, Headers), One(Headers)),
        ReadHeaderNames(Field(v, ExposeHeaders), One(ExposeHeaders)),
        ReadFlag(Field(v, PreflightContinue), One(PreflightContinue)), p);
    }
  }

  /** What is written of one field, if it does not have its default. */
  function CorsField(p: CorsPolicy, key: Key): Option<Json> {
    match key
    case Origins => Some(OfTexts(p.origins))
    case Methods => SomeTexts(p.methods)
    case Headers => SomeTexts(p.headers)
    case ExposeHeaders => SomeTexts(p.exposeHeaders)
    case Credentials => SomeFlag(p.credentials)
    case MaxAge => SomeInt(p.maxAge)
    case PreflightContinue => SomeFlag(p.preflightContinue)
    case _ => None
  }

  /** `c` is an object of those fields. */
  predicate ShowsCors(c: Json, p: CorsPolicy) {
    IsObject(c, IsCors) && ShowsLists(c, p) && ShowsValues(c, p)
  }

  predicate ShowsLists(c: Json, p: CorsPolicy)
    requires c.Obj?
  {
    && Look(c, Origins) == Some(OfTexts(p.origins))
    && Look(c, Methods) == SomeTexts(p.methods)
    && Look(c, Headers) == SomeTexts(p.headers)
    && Look(c, ExposeHeaders) == SomeTexts(p.exposeHeaders)
  }

  predicate ShowsValues(c: Json, p: CorsPolicy)
    requires c.Obj?
  {
    && Look(c, Credentials) == SomeFlag(p.credentials)
    && Look(c, MaxAge) == SomeInt(p.maxAge)
    && Look(c, PreflightContinue) == SomeFlag(p.preflightContinue)
  }

  lemma {:induction false} ListsReadBack(known: seq<string>, usual: seq<string>, v: Json, p: CorsPolicy, c: Json)
    requires UsualMethods(known, usual) && v.Obj? && ListsReadAs(known, usual, v, p) && c.Obj? && ShowsLists(c, p)
    ensures ListsReadAs(known, usual, c, p)
  {
    OriginsReadBack(Field(v, Origins), p.credentials);
    MethodsReadBack(known, usual, Field(v, Methods));
    HeaderNamesReadBack(Field(v, Headers), One(Headers));
    HeaderNamesReadBack(Field(v, ExposeHeaders), One(ExposeHeaders));
  }

  lemma {:induction false} ValuesReadBack(v: Json, p: CorsPolicy, c: Json)
    requires v.Obj? && ValuesReadAs(v, p) && c.Obj? && ShowsValues(c, p)
    ensures ValuesReadAs(c, p)
  {
  }

  lemma {:induction false} CorsIsReadBack(known: seq<string>, usual: seq<string>, v: Json, p: CorsPolicy, c: Json)
    requires UsualMethods(known, usual) && ReadCors(known, usual, v) == Ok(p) && ShowsCors(c, p)
    ensures ReadCors(known, usual, c) == Ok(p)
  {
    ReadCorsIff(known, usual, v, p);
    ListsReadBack(known, usual, v, p, c);
    ValuesReadBack(v, p, c);
    ReadCorsIff(known, usual, c, p);
  }

  /** What an accepted cors policy promises the data plane. */
  predicate CorsIsOk(known: seq<string>, p: CorsPolicy) {
    && 1 <= |p.origins| <= MAX_ORIGINS
    && (forall i :: 0 <= i < |p.origins| ==> Origin.Canonical(p.origins[i]) == Ok(p.origins[i]))
    && ("*" in p.origins ==> p.origins == ["*"] && !p.credentials)
    && p.methods != []
    && (forall i :: 0 <= i < |p.methods| ==> p.methods[i] in known)
    && (p.maxAge.Some? ==> p.maxAge.value <= MAX_AGE_SECS)
  }

  lemma {:induction false} AcceptedOriginsAreOk(v: Json, credentials: bool)
    requires ReadOrigins(v, credentials).Ok?
    ensures
      var origins := ReadOrigins(v, credentials).value;
      && 1 <= |origins| <= MAX_ORIGINS
      && (forall i :: 0 <= i < |origins| ==> Origin.Canonical(origins[i]) == Ok(origins[i]))
      && ("*" in origins ==> origins == ["*"] && !credentials)
  {
    var texts, origins := ReadTexts(v, One(Origins)).value, ReadOrigins(v, credentials).value;
    MapAllIff(texts, CheckOrigin, origins);
    forall i | 0 <= i < |origins| ensures Origin.Canonical(origins[i]) == Ok(origins[i]) {
      assert CheckOrigin(texts[i]) == Ok(origins[i]);
      Origin.CanonicalIsFixed(texts[i]);
    }
  }

  lemma {:induction false} AcceptedMethodsAreKnown(known: seq<string>, usual: seq<string>, v: Json)
    requires UsualMethods(known, usual) && ReadMethods(known, usual, v).Ok?
    ensures
      var methods := ReadMethods(known, usual, v).value;
      methods != [] && forall i :: 0 <= i < |methods| ==> methods[i] in known
  {
    var names, methods := ReadTexts(v, One(Methods)).value, ReadMethods(known, usual, v).value;
    if names != [] {
      MapAllIff(names, CheckMethod(known), methods);
      forall i | 0 <= i < |methods| ensures methods[i] in known {
        assert CheckMethod(known)(names[i]) == Ok(methods[i]);
      }
    }
  }

  /** Every accepted cors policy lists canonical origins, `*` only alone and without credentials, and
      methods that there are. */
  lemma {:induction false} AcceptedCorsIsOk(known: seq<string>, usual: seq<string>, v: Json, p: CorsPolicy)
    requires UsualMethods(known, usual) && ReadCors(known, usual, v) == Ok(p)
    ensures CorsIsOk(known, p)
  {
    ReadCorsIff(known, usual, v, p);
    AcceptedOriginsAreOk(Field(v, Origins), p.credentials);
    AcceptedMethodsAreKnown(known, usual, Field(v, Methods));
  }
}
