/** What is wrong with the field that a refused policy is told of. */
module PolicyRefusals {
  import opened CorsPolicies
  import opened Json
  import opened ListPolicies
  import opened Policies
  import opened PolicyFields
  import opened PolicyMeanings
  import opened Text
  import opened Transformers
  import opened Wrappers
  import Routes

  lemma {:induction false} MapAllRefuses<A, B>(items: seq<A>, check: A -> Result<B, At>, at: At) returns (i: nat)
    requires MapAll(items, check) == Err(at)
    ensures i < |items| && check(items[i]) == Err(at)
  {
    if check(items[0]).Err? {
      i := 0;
    } else {
      i := MapAllRefuses(items[1..], check, at);
      i := i + 1;
    }
  }

  // Lists.

  ghost predicate NamesNoNetwork(notation: Notation, texts: seq<string>) {
    exists i :: 0 <= i < |texts| && forall c :: !NetworkMeans(notation, texts[i], c)
  }

  ghost predicate NamesNoGroup(names: seq<string>) {
    |names| > 100 || exists i :: 0 <= i < |names| && !GroupIsOk(names[i])
  }

  ghost predicate IpRestrictionAtFault(notation: Notation, v: Json, at: At) {
    match at
    case Config => forall allow, deny :: !TwoLists(v, allow, deny)
    case One(Allow) =>
      exists allow, deny ::
        && TwoLists(v, allow, deny)
        && (!(1 <= |allow| + |deny| <= 1000) || NamesNoNetwork(notation, allow))
    case One(Deny) => exists allow, deny :: TwoLists(v, allow, deny) && NamesNoNetwork(notation, deny)
    case _ => false
  }

  ghost predicate AclAtFault(v: Json, at: At) {
    match at
    case Config => forall allow, deny :: !TwoLists(v, allow, deny)
    case One(Allow) =>
      exists allow, deny :: TwoLists(v, allow, deny) && (allow + deny == [] || NamesNoGroup(allow))
    case One(Deny) => exists allow, deny :: TwoLists(v, allow, deny) && NamesNoGroup(deny)
    case _ => false
  }

  lemma {:induction false} TwoListsIff(v: Json)
    ensures match ReadAllowDeny(v)
            case None => forall allow, deny :: !TwoLists(v, allow, deny)
            case Some((allow, deny)) => TwoLists(v, allow, deny)
  {
    match ReadAllowDeny(v)
    case None =>
      forall allow, deny ensures !TwoLists(v, allow, deny) {
        TwoListsAreRead(v, allow, deny);
      }
    case Some((allow, deny)) => TwoListsAreRead(v, allow, deny);
  }

  lemma {:induction false} RefusedNetwork(notation: Notation, texts: seq<string>, at: At, error: At)
    requires MapAll(texts, CheckNetwork(notation, at)) == Err(error)
    ensures error == at && NamesNoNetwork(notation, texts)
  {
    var i := MapAllRefuses(texts, CheckNetwork(notation, at), error);
    forall c ensures !NetworkMeans(notation, texts[i], c) {
      CidrMeans(notation, texts[i], c);
    }
  }

  lemma {:induction false} RefusedGroup(names: seq<string>, at: At, error: At)
    requires CheckGroups(names, at) == Err(error)
    ensures error == at && NamesNoGroup(names)
  {
    if |names| <= MAX_ACL_GROUPS {
      var i := MapAllRefuses(names, CheckGroup(at), error);
      assert !GroupIsOk(names[i]);
    }
  }

  lemma {:induction false} IpRestrictionIsAtFault(notation: Notation, v: Json, at: At)
    requires ReadIpRestriction(notation, v) == Err(at)
    ensures IpRestrictionAtFault(notation, v, at)
  {
    TwoListsIff(v);
    if ReadAllowDeny(v).Some? {
      var (allow, deny) := ReadAllowDeny(v).value;
      if 1 <= |allow| + |deny| <= MAX_NETWORKS {
        if MapAll(allow, CheckNetwork(notation, One(Allow))).Err? {
          RefusedNetwork(notation, allow, One(Allow), at);
        } else {
          RefusedNetwork(notation, deny, One(Deny), at);
        }
      }
    }
  }

  lemma {:induction false} AclIsAtFault(v: Json, at: At)
    requires ReadAcl(v) == Err(at)
    ensures AclAtFault(v, at)
  {
    TwoListsIff(v);
    if ReadAllowDeny(v).Some? {
      var (allow, deny) := ReadAllowDeny(v).value;
      if allow + deny != [] {
        if CheckGroups(allow, One(Allow)).Err? {
          RefusedGroup(allow, One(Allow), at);
        } else {
          RefusedGroup(deny, One(Deny), at);
        }
      }
    }
  }

  // One value.

  ghost predicate AuthAtFault(v: Json, at: At) {
    var x := Part(v, [Anonymous], 0);
    match at
    case Config => !RecordOf(v, [Anonymous]) || !(IsAbsentOrNull(x) || x.value.Str?)
    case One(Anonymous) =>
      x.Some? && x.value.Str? && !All(x.value.text, IsWhitespace) && !Routes.IsName(x.value.text)
    case _ => false
  }

  lemma {:induction false} AuthIsAtFault(v: Json, at: At)
    requires ReadAuth(v) == Err(at)
    ensures AuthAtFault(v, at)
  {
    assert IsRecord(v, IsAnonymous, 1) <==> RecordOf(v, [Anonymous]);
    if RecordOf(v, [Anonymous]) {
      var x := Part(v, [Anonymous], 0);
      assert FieldAt(v, Anonymous, 0) == x;
      if x.Some? && x.value.Str? {
        TrimsToNothing(x.value.text);
      }
    }
  }

  ghost predicate RequestSizeLimitAtFault(v: Json, at: At) {
    var x := Part(v, [MaxBytes], 0);
    match at
    case Config => !RecordOf(v, [MaxBytes]) || IsAbsent(x)
    case One(MaxBytes) => x.Some? && !(x.value.Int? && 1 <= x.value.n <= 1024 * 1024 * 1024)
    case _ => false
  }

  lemma {:induction false} RequestSizeLimitIsAtFault(v: Json, at: At)
    requires ReadRequestSizeLimit(v) == Err(at)
    ensures RequestSizeLimitAtFault(v, at)
  {
    assert IsRecord(v, IsMaxBytes, 1) <==> RecordOf(v, [MaxBytes]);
    if RecordOf(v, [MaxBytes]) {
      assert FieldAt(v, MaxBytes, 0) == Part(v, [MaxBytes], 0);
    }
  }

  // Edits.

  /** It is no list of texts, or `each` makes nothing of one of them. */
  ghost predicate TextsAtFault(x: Option<Json>, each: (string, string) -> bool) {
    || (forall texts :: !TextsSaid(x, texts))
    || exists texts, i :: TextsSaid(x, texts) && 0 <= i < |texts| && SaysNothing(texts[i], each)
  }

  ghost predicate SaysNothing(text: string, each: (string, string) -> bool) {
    forall kept :: !each(text, kept)
  }

  ghost predicate PairsAtFault(x: Option<Json>, first: (string, string) -> bool, second: (string, string) -> bool) {
    || (forall pairs :: !PairsSaid(x, pairs))
    || exists pairs: seq<(string, string)>, i ::
         && PairsSaid(x, pairs) && 0 <= i < |pairs|
         && (SaysNothing(pairs[i].0, first) || SaysNothing(pairs[i].1, second))
  }

  ghost predicate RefusesAt(check: string -> Result<string, At>, at: At) {
    forall s :: check(s).Err? ==> check(s) == Err(at)
  }

  lemma {:induction false} TextsAreAtFault(
    x: Option<Json>, at: At, check: string -> Result<string, At>, each: (string, string) -> bool, error: At)
    requires Decides(check, each) && RefusesAt(check, at)
    requires ReadTexts(OrNull(x), at) == Err(error) ||
             (ReadTexts(OrNull(x), at).Ok? && MapAll(ReadTexts(OrNull(x), at).value, check) == Err(error))
    ensures error == at && TextsAtFault(x, each)
  {
    if ReadTexts(OrNull(x), at).Err? {
      forall texts ensures !TextsSaid(x, texts) {
        TextsAreSaid(x, at, texts);
      }
    } else {
      var texts := ReadTexts(OrNull(x), at).value;
      TextsAreSaid(x, at, texts);
      var i := MapAllRefuses(texts, check, error);
      assert SaysNothing(texts[i], each);
    }
  }

  lemma {:induction false} PairsAreAtFault(
    x: Option<Json>, at: At, first: string -> Result<string, At>, second: string -> Result<string, At>,
    p: (string, string) -> bool, q: (string, string) -> bool, error: At)
    requires Decides(first, p) && Decides(second, q) && RefusesAt(first, at) && RefusesAt(second, at)
    requires ReadPairs(OrNull(x), at) == Err(error) ||
             (&& ReadPairs(OrNull(x), at).Ok?
              && MapAll(ReadPairs(OrNull(x), at).value, CheckPair(first, second)) == Err(error))
    ensures error == at && PairsAtFault(x, p, q)
  {
    if ReadPairs(OrNull(x), at).Err? {
      forall pairs ensures !PairsSaid(x, pairs) {
        PairsAreSaid(x, at, pairs);
      }
    } else {
      var pairs := ReadPairs(OrNull(x), at).value;
      PairsAreSaid(x, at, pairs);
      var i := MapAllRefuses(pairs, CheckPair(first, second), error);
      assert first(pairs[i].0).Err? ==> SaysNothing(pairs[i].0, p);
      assert second(pairs[i].1).Err? ==> SaysNothing(pairs[i].1, q);
    }
  }

  /** Which list of the section `x` is at fault. */
  ghost predicate ListAtFault(x: Option<Json>, header: bool, refused: seq<string>, op: Key) {
    && x.Some?
    && var names, values := Names(header, refused), Values(header);
       match op
       case Remove => TextsAtFault(Part(x.value, EDITS, 0), names)
       case Rename => PairsAtFault(Part(x.value, EDITS, 1), names, names)
       case Replace => PairsAtFault(Part(x.value, EDITS, 2), names, values)
       case Add => PairsAtFault(Part(x.value, EDITS, 3), names, values)
       case Append => PairsAtFault(Part(x.value, EDITS, 4), names, values)
       case _ => false
  }

  /** A section that is no object of lists, or a list of it. */
  ghost predicate SectionAtFault(x: Option<Json>, section: Key, header: bool, refused: seq<string>, at: At) {
    match at
    case One(key) => key == section && !IsAbsentOrNull(x) && !ObjectOf(x.value, EDITS)
    case Dotted(key, op) => key == section && ListAtFault(x, header, refused, op)
    case Config => false
  }

  lemma ChecksRefuseAt(header: bool, refused: seq<string>, at: At)
    ensures RefusesAt(CheckName(header, refused, at), at) && RefusesAt(CheckValue(header, at), at)
  {
  }

  lemma {:induction false} RemovesAreAtFault(
    section: Key, header: bool, refused: seq<string>, x: Option<Json>, error: At)
    requires ReadRemoves(section, header, refused, OrNull(x)) == Err(error)
    ensures error == Dotted(section, Remove) && TextsAtFault(x, Names(header, refused))
  {
    var at := Dotted(section, Remove);
    ChecksDecide(header, refused, at);
    ChecksRefuseAt(header, refused, at);
    TextsAreAtFault(x, at, CheckName(header, refused, at), Names(header, refused), error);
  }

  lemma {:induction false} RenamesAreAtFault(
    section: Key, header: bool, refused: seq<string>, x: Option<Json>, error: At)
    requires ReadRenames(section, header, refused, OrNull(x)) == Err(error)
    ensures error == Dotted(section, Rename) && PairsAtFault(x, Names(header, refused), Names(header, refused))
  {
    var at := Dotted(section, Rename);
    ChecksDecide(header, refused, at);
    ChecksRefuseAt(header, refused, at);
    var check, names := CheckName(header, refused, at), Names(header, refused);
    PairsAreAtFault(x, at, check, check, names, names, error);
  }

  lemma {:induction false} WrittenAreAtFault(
    section: Key, header: bool, refused: seq<string>, op: Key, x: Option<Json>, error: At)
    requires ReadWritten(section, header, refused, op, OrNull(x)) == Err(error)
    ensures error == Dotted(section, op) && PairsAtFault(x, Names(header, refused), Values(header))
  {
    var at := Dotted(section, op);
    ChecksDecide(header, refused, at);
    ChecksRefuseAt(header, refused, at);
    PairsAreAtFault(
      x, at, CheckName(header, refused, at), CheckValue(header, at), Names(header, refused), Values(header), error);
  }

  lemma FirstRefusal(
    remove: Result<seq<string>, At>, rename: Result<seq<(string, string)>, At>,
    replace: Result<seq<(string, string)>, At>, add: Result<seq<(string, string)>, At>,
    append: Result<seq<(string, string)>, At>, error: At)
    requires EditsOf(remove, rename, replace, add, append) == Err(error)
    ensures remove == Err(error) || rename == Err(error) || replace == Err(error) || add == Err(error) ||
            append == Err(error)
  {
  }

  lemma {:induction false} NamesListIsAtFault(section: Key, header: bool, refused: seq<string>, v: Json, error: At)
    requires v.Obj?
    requires || ReadRemoves(section, header, refused, Field(v, Remove)) == Err(error)
             || ReadRenames(section, header, refused, Field(v, Rename)) == Err(error)
    ensures error.Dotted? && error.section == section && ListAtFault(Some(v), header, refused, error.op)
  {
    EditPartsAreFields(v);
    if ReadRemoves(section, header, refused, Field(v, Remove)) == Err(error) {
      RemovesAreAtFault(section, header, refused, Part(v, EDITS, 0), error);
    } else {
      RenamesAreAtFault(section, header, refused, Part(v, EDITS, 1), error);
    }
  }

  lemma {:induction false} WrittenListIsAtFault(
    section: Key, header: bool, refused: seq<string>, op: Key, v: Json, error: At)
    requires v.Obj? && op in [Replace, Add, Append]
    requires ReadWritten(section, header, refused, op, Field(v, op)) == Err(error)
    ensures error == Dotted(section, op) && ListAtFault(Some(v), header, refused, op)
  {
    EditPartsAreFields(v);
    var i := if op == Replace then 2 else if op == Add then 3 else 4;
    WrittenAreAtFault(section, header, refused, op, Part(v, EDITS, i), error);
  }

  lemma {:induction false} SomeListIsAtFault(section: Key, header: bool, refused: seq<string>, v: Json, error: At)
    requires IsObject(v, IsList) && ReadEdits(section, header, refused, v) == Err(error)
    ensures error.Dotted? && error.section == section && ListAtFault(Some(v), header, refused, error.op)
  {
    var remove := ReadRemoves(section, header, refused, Field(v, Remove));
    var rename := ReadRenames(section, header, refused, Field(v, Rename));
    var replace := ReadWritten(section, header, refused, Replace, Field(v, Replace));
    var add := ReadWritten(section, header, refused, Add, Field(v, Add));
    var append := ReadWritten(section, header, refused, Append, Field(v, Append));
    FirstRefusal(remove, rename, replace, add, append, error);
    if remove == Err(error) || rename == Err(error) {
      NamesListIsAtFault(section, header, refused, v, error);
    } else if replace == Err(error) {
      WrittenListIsAtFault(section, header, refused, Replace, v, error);
    } else if add == Err(error) {
      WrittenListIsAtFault(section, header, refused, Add, v, error);
    } else {
      WrittenListIsAtFault(section, header, refused, Append, v, error);
    }
  }

  lemma {:induction false} EditsAreAtFault(
    section: Key, header: bool, refused: seq<string>, x: Option<Json>, error: At)
    requires ReadEdits(section, header, refused, OrNull(x)) == Err(error)
    ensures SectionAtFault(x, section, header, refused, error)
  {
    assert IsObject(x.value, IsList) <==> ObjectOf(x.value, EDITS);
    if ObjectOf(x.value, EDITS) {
      SomeListIsAtFault(section, header, refused, x.value, error);
    }
  }

  /** The number of edits is what is wrong: none at all, or too many in one section, or in both. */
  ghost predicate NumberAtFault(headers: Edits, query: Edits, at: At) {
    match at
    case One(Headers) => Count(headers) + Count(query) == 0 || Count(headers) > 64
    case One(Query) => Count(query) > 64
    case Config => Count(headers) <= 64 && Count(query) <= 64 < Count(headers) + Count(query)
    case _ => false
  }

  ghost predicate RequestTransformerAtFault(refused: seq<string>, v: Json, at: At) {
    || (at == Config && !ObjectOf(v, SECTIONS))
    || SectionAtFault(Part(v, SECTIONS, 0), Headers, true, refused, at)
    || SectionAtFault(Part(v, SECTIONS, 1), Query, false, [], at)
    || exists headers, query ::
         && EditsMean(Part(v, SECTIONS, 0), true, refused, headers)
         && EditsMean(Part(v, SECTIONS, 1), false, [], query)
         && NumberAtFault(headers, query, at)
  }

  lemma CountedNames(headers: Edits, query: Edits)
    ensures Counted(headers, query).Some? ==> NumberAtFault(headers, query, Counted(headers, query).value)
  {
  }

  lemma {:induction false} RequestTransformerIsAtFault(refused: seq<string>, v: Json, at: At)
    requires ReadRequestTransformer(refused, v) == Err(at)
    ensures RequestTransformerAtFault(refused, v, at)
  {
    assert IsObject(v, IsSection) <==> ObjectOf(v, SECTIONS);
    if ObjectOf(v, SECTIONS) {
      var x, y := Part(v, SECTIONS, 0), Part(v, SECTIONS, 1);
      assert Field(v, Headers) == OrNull(x) && Field(v, Query) == OrNull(y);
      var headers, query := ReadEdits(Headers, true, refused, OrNull(x)), ReadEdits(Query, false, [], OrNull(y));
      if headers.Err? {
        EditsAreAtFault(Headers, true, refused, x, at);
      } else if query.Err? {
        EditsAreAtFault(Query, false, [], y, at);
      } else {
        SectionIsRead(Headers, true, refused, x, headers.value);
        SectionIsRead(Query, false, [], y, query.value);
        CountedNames(headers.value, query.value);
      }
    }
  }

  ghost predicate ResponseTransformerAtFault(refused: seq<string>, v: Json, at: At) {
    || (at == Config && !ObjectOf(v, [Headers]))
    || SectionAtFault(Part(v, [Headers], 0), Headers, true, refused, at)
    || (&& at == One(Headers)
        && exists headers ::
             EditsMean(Part(v, [Headers], 0), true, refused, headers) && !(1 <= Count(headers) <= 64))
  }

  lemma {:induction false} ResponseTransformerIsAtFault(refused: seq<string>, v: Json, at: At)
    requires ReadResponseTransformer(refused, v) == Err(at)
    ensures ResponseTransformerAtFault(refused, v, at)
  {
    assert IsObject(v, IsHeaders) <==> ObjectOf(v, [Headers]);
    if ObjectOf(v, [Headers]) {
      var x := Part(v, [Headers], 0);
      assert Field(v, Headers) == OrNull(x);
      var headers := ReadEdits(Headers, true, refused, OrNull(x));
      if headers.Err? {
        EditsAreAtFault(Headers, true, refused, x, at);
      } else {
        SectionIsRead(Headers, true, refused, x, headers.value);
        CountedNames(headers.value, NO_EDITS);
      }
    }
  }

  // Cors.

  ghost predicate NoFlag(x: Option<Json>) {
    !IsAbsentOrNull(x) && !x.value.Bool?
  }

  /** An entry is no origin, or there are none or too many, or any origin beside others or with
      credentials. */
  ghost predicate OriginsAtFault(x: Option<Json>, credentials: bool) {
    || TextsAtFault(x, CanonicalForms())
    || (exists texts :: TextsSaid(x, texts) && !(1 <= |texts| <= 100))
    || exists origins :: TextsMean(x, CanonicalForms(), origins) && "*" in origins && (credentials || |origins| > 1)
  }

  ghost predicate HeaderNamesAtFault(x: Option<Json>) {
    TextsAtFault(x, Names(true, [])) || exists texts :: TextsSaid(x, texts) && |texts| > 64
  }

  ghost predicate CorsAtFault(known: seq<string>, v: Json, at: At) {
    match at
    case Config => !ObjectOf(v, CORS)
    case One(Origins) => OriginsAtFault(Part(v, CORS, 0), Part(v, CORS, 4) == Some(Bool(true)))
    case One(Methods) => TextsAtFault(Part(v, CORS, 1), KnownMethods(known))
    case One(Headers) => HeaderNamesAtFault(Part(v, CORS, 2))
    case One(ExposeHeaders) => HeaderNamesAtFault(Part(v, CORS, 3))
    case One(Credentials) => NoFlag(Part(v, CORS, 4))
    case One(MaxAge) =>
      var x := Part(v, CORS, 5);
      !IsAbsentOrNull(x) && !(x.value.Int? && 0 <= x.value.n <= 24 * 60 * 60)
    case One(PreflightContinue) => NoFlag(Part(v, CORS, 6))
    case _ => false
  }

  lemma {:induction false} OriginsAreAtFault(x: Option<Json>, credentials: bool, at: At)
    requires ReadOrigins(OrNull(x), credentials) == Err(at)
    ensures at == One(Origins) && OriginsAtFault(x, credentials)
  {
    var texts := ReadTexts(OrNull(x), One(Origins));
    CanonicalFormsDecide();
    if texts.Ok? {
      TextsAreSaid(x, One(Origins), texts.value);
    }
    if texts.Err? || (1 <= |texts.value| <= MAX_ORIGINS && MapAll(texts.value, CheckOrigin).Err?) {
      TextsAreAtFault(x, One(Origins), CheckOrigin, CanonicalForms(), at);
    } else if 1 <= |texts.value| <= MAX_ORIGINS {
      TextsMeanAsRead(
        x, One(Origins), CheckOrigin, CanonicalForms(), MapAll(texts.value, CheckOrigin).value);
    }
  }

  lemma {:induction false} MethodsAreAtFault(x: Option<Json>, known: seq<string>, usual: seq<string>, at: At)
    requires ReadMethods(known, usual, OrNull(x)) == Err(at)
    ensures at == One(Methods) && TextsAtFault(x, KnownMethods(known))
  {
    TextsAreAtFault(x, One(Methods), CorsPolicies.CheckMethod(known), KnownMethods(known), at);
  }

  lemma {:induction false} HeaderNamesAreAtFault(x: Option<Json>, at: At, error: At)
    requires ReadHeaderNames(OrNull(x), at) == Err(error)
    ensures error == at && HeaderNamesAtFault(x)
  {
    var texts := ReadTexts(OrNull(x), at);
    if texts.Ok? && |texts.value| > MAX_CORS_HEADERS {
      TextsAreSaid(x, at, texts.value);
    } else {
      assert Decides(CheckCorsHeader(at), Names(true, []));
      TextsAreAtFault(x, at, CheckCorsHeader(at), Names(true, []), error);
    }
  }

  lemma FirstCorsRefusal(
    credentials: Result<bool, At>, origins: Result<seq<string>, At>, methods: Result<seq<string>, At>,
    maxAge: Result<Option<nat>, At>, headers: Result<seq<string>, At>, exposed: Result<seq<string>, At>,
    preflight: Result<bool, At>, at: At)
    requires CorsOf(credentials, origins, methods, maxAge, headers, exposed, preflight) == Err(at)
    ensures || credentials == Err(at) || (credentials.Ok? && (origins == Err(at) || methods == Err(at)))
            || maxAge == Err(at) || headers == Err(at) || exposed == Err(at) || preflight == Err(at)
  {
  }

  lemma {:induction false} CorsListIsAtFault(known: seq<string>, usual: seq<string>, v: Json, credentials: bool, at: At)
    requires v.Obj? && ReadFlag(Field(v, Credentials), One(Credentials)) == Ok(credentials)
    requires || ReadOrigins(Field(v, Origins), credentials) == Err(at)
             || ReadMethods(known, usual, Field(v, Methods)) == Err(at)
    ensures CorsAtFault(known, v, at)
  {
    CorsPartsAreFields(v);
    if ReadOrigins(Field(v, Origins), credentials) == Err(at) {
      OriginsAreAtFault(Part(v, CORS, 0), credentials, at);
    } else {
      MethodsAreAtFault(Part(v, CORS, 1), known, usual, at);
    }
  }

  lemma {:induction false} CorsHeadersAreAtFault(known: seq<string>, v: Json, at: At)
    requires v.Obj?
    requires || ReadHeaderNames(Field(v, Headers), One(Headers)) == Err(at)
             || ReadHeaderNames(Field(v, ExposeHeaders), One(ExposeHeaders)) == Err(at)
    ensures CorsAtFault(known, v, at)
  {
    CorsPartsAreFields(v);
    if ReadHeaderNames(Field(v, Headers), One(Headers)) == Err(at) {
      HeaderNamesAreAtFault(Part(v, CORS, 2), One(Headers), at);
    } else {
      HeaderNamesAreAtFault(Part(v, CORS, 3), One(ExposeHeaders), at);
    }
  }

  lemma {:induction false} CorsValueIsAtFault(known: seq<string>, v: Json, at: At)
    requires v.Obj?
    requires || ReadFlag(Field(v, Credentials), One(Credentials)) == Err(at)
             || ReadMaxAge(Field(v, MaxAge)) == Err(at)
             || ReadFlag(Field(v, PreflightContinue), One(PreflightContinue)) == Err(at)
    ensures CorsAtFault(known, v, at)
  {
    CorsPartsAreFields(v);
  }

  lemma {:induction false} CorsIsAtFault(known: seq<string>, usual: seq<string>, v: Json, at: At)
    requires ReadCors(known, usual, v) == Err(at)
    ensures CorsAtFault(known, v, at)
  {
    assert IsObject(v, IsCors) <==> ObjectOf(v, CORS);
    if ObjectOf(v, CORS) {
      var credentials := ReadFlag(Field(v, Credentials), One(Credentials));
      var origins := ReadOrigins(Field(v, Origins), credentials == Ok(true));
      var methods := ReadMethods(known, usual, Field(v, Methods));
      var maxAge := ReadMaxAge(Field(v, MaxAge));
      var headers := ReadHeaderNames(Field(v, Headers), One(Headers));
      var exposed := ReadHeaderNames(Field(v, ExposeHeaders), One(ExposeHeaders));
      var preflight := ReadFlag(Field(v, PreflightContinue), One(PreflightContinue));
      FirstCorsRefusal(credentials, origins, methods, maxAge, headers, exposed, preflight, at);
      if credentials == Err(at) || maxAge == Err(at) || preflight == Err(at) {
        CorsValueIsAtFault(known, v, at);
      } else if headers == Err(at) || exposed == Err(at) {
        CorsHeadersAreAtFault(known, v, at);
      } else {
        CorsListIsAtFault(known, usual, v, credentials.value, at);
      }
    }
  }

  // Every kind.

  ghost predicate AtFault(notation: Notation, kind: PolicyKind, v: Json, at: At) {
    match kind
    case OfIpRestriction => IpRestrictionAtFault(notation, v, at)
    case OfRequestSizeLimit => RequestSizeLimitAtFault(v, at)
    case OfRequestTransformer => RequestTransformerAtFault(UNTOUCHED + ["x-consumer-username"], v, at)
    case OfResponseTransformer => ResponseTransformerAtFault(UNTOUCHED, v, at)
    case OfCors =>
      CorsAtFault(["GET", "HEAD", "POST", "PUT", "PATCH", "DELETE", "OPTIONS", "CONNECT", "TRACE"], v, at)
    case OfAuth => AuthAtFault(v, at)
    case OfAcl => AclAtFault(v, at)
    case NoSuchKind(_) => at == One(Kind)
  }

  /** Under every kind, a refusal names a field that is at fault. */
  lemma {:induction false} RefusalNamesAFault(notation: Notation, kind: PolicyKind, v: Json, at: At)
    requires Parse(notation, kind, v) == Err(at)
    ensures AtFault(notation, kind, v, at)
  {
    match kind
    case OfIpRestriction => IpRestrictionIsAtFault(notation, v, at);
    case OfRequestSizeLimit => RequestSizeLimitIsAtFault(v, at);
    case OfRequestTransformer => RequestTransformerIsAtFault(FRAMING + [CONSUMER_HEADER], v, at);
    case OfResponseTransformer => ResponseTransformerIsAtFault(FRAMING, v, at);
    case OfCors => CorsIsAtFault(Routes.METHODS, CORS_METHODS, v, at);
    case OfAuth => AuthIsAtFault(v, at);
    case OfAcl => AclIsAtFault(v, at);
    case NoSuchKind(_) =>
  }
}
