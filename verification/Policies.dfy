/**
  Policies of every kind, read from JSON and written back: what is written is read as the same
  policy, so every stored row is readable and in a fixed normal form.
*/
module Policies {
  import opened CorsPolicies
  import opened Json
  import opened ListPolicies
  import opened PolicyFields
  import opened Transformers
  import opened Wrappers
  import Routes
  import Text

  const CORS_METHODS := ["GET", "HEAD", "PUT", "PATCH", "POST", "DELETE"]

  const FRAMING := [
    "host", "content-length", "transfer-encoding", "connection", "keep-alive", "te", "trailer",
    "upgrade", "proxy-connection"]

  const CONSUMER_HEADER := "x-consumer-username"

  datatype Plugin =
    | IpRestriction(ips: IpRestrictionPolicy)
    | RequestSizeLimit(maxBytes: nat)
    | RequestTransformer(request: RequestTransformerPolicy)
    | ResponseTransformer(response: Edits)
    | Cors(cors: CorsPolicy)
    | Auth(auth: AuthPolicy)
    | Acl(acl: AclPolicy)

  datatype PolicyKind =
    | OfIpRestriction | OfRequestSizeLimit | OfRequestTransformer | OfResponseTransformer
    | OfCors | OfAuth | OfAcl
    | NoSuchKind(name: string)

  function Wrap<P>(r: Result<P, At>, wrap: P -> Plugin): Result<Plugin, At> {
    match r
    case Ok(p) => Ok(wrap(p))
    case Err(at) => Err(at)
  }

  function Parse(notation: Notation, kind: PolicyKind, v: Json): Result<Plugin, At> {
    match kind
    case OfIpRestriction => Wrap(ReadIpRestriction(notation, v), p => IpRestriction(p))
    case OfRequestSizeLimit => Wrap(ReadRequestSizeLimit(v), n => RequestSizeLimit(n))
    case OfRequestTransformer =>
      Wrap(ReadRequestTransformer(FRAMING + [CONSUMER_HEADER], v), p => RequestTransformer(p))
    case OfResponseTransformer => Wrap(ReadResponseTransformer(FRAMING, v), e => ResponseTransformer(e))
    case OfCors => Wrap(ReadCors(Routes.METHODS, CORS_METHODS, v), p => Cors(p))
    case OfAuth => Wrap(ReadAuth(v), p => Auth(p))
    case OfAcl => Wrap(ReadAcl(v), p => Acl(p))
    case NoSuchKind(_) => Err(One(Kind))
  }

  function KindName(p: Plugin): string {
    match p
    case IpRestriction(_) => "ip_restriction"
    case RequestSizeLimit(_) => "request_size_limit"
    case RequestTransformer(_) => "request_transformer"
    case ResponseTransformer(_) => "response_transformer"
    case Cors(_) => "cors"
    case Auth(_) => "auth"
    case Acl(_) => "acl"
  }

  /** What is written of each field that is not left out. */
  function PolicyField(notation: Notation, p: Plugin, key: Key): Option<Json> {
    match (p, key)
    case (IpRestriction(p), Allow) => SomeTexts(Networks(notation, p.allow))
    case (IpRestriction(p), Deny) => SomeTexts(Networks(notation, p.deny))
    case (RequestSizeLimit(n), MaxBytes) => Some(Int(n))
    case (RequestTransformer(p), Headers) => SomeEdits(p.headers)
    case (RequestTransformer(p), Query) => SomeEdits(p.query)
    case (ResponseTransformer(e), Headers) => SomeEdits(e)
    case (Cors(p), _) => CorsField(p, key)
    case (Auth(p), Anonymous) => SomeText(p.anonymous)
    case (Auth(p), Workspace) => SomeText(p.workspace)
    case (Acl(p), Allow) => SomeTexts(p.allow)
    case (Acl(p), Deny) => SomeTexts(p.deny)
    case _ => None
  }

  function Untagged(notation: Notation, p: Plugin): Key -> Option<Json> {
    key => PolicyField(notation, p, key)
  }

  function Tagged(tag: string, value: Key -> Option<Json>): Key -> Option<Json> {
    key => if key == Kind then Some(Str(tag)) else value(key)
  }

  /** A policy on the wire, its kind among its fields. */
  function ToValue(notation: Notation, p: Plugin): map<Key, Json> {
    Fields(Tagged(KindName(p), Untagged(notation, p)))
  }

  /** What a stored row holds: the policy without its kind. */
  function ConfigOf(notation: Notation, p: Plugin): Json {
    Obj(ToValue(notation, p) - {Kind})
  }

  lemma {:induction false} UntaggedHolds(tag: string, value: Key -> Option<Json>)
    requires value(Kind).None? && forall k: Key :: k.Other? ==> value(k).None?
    ensures Holds(Obj(Fields(Tagged(tag, value)) - {Kind}), value)
  {
    FieldsHold(Tagged(tag, value));
    var all, c := Obj(Fields(Tagged(tag, value))), Obj(Fields(Tagged(tag, value)) - {Kind});
    forall k ensures Look(c, k) == value(k) {
      assert Look(all, k) == Tagged(tag, value)(k);
    }
  }

  lemma ConfigHolds(notation: Notation, p: Plugin)
    ensures Holds(ConfigOf(notation, p), Untagged(notation, p))
  {
    UntaggedHolds(KindName(p), Untagged(notation, p));
  }

  /** `c` is an object of the fields of `p` that are not left out. */
  predicate Shows(notation: Notation, c: Json, p: Plugin) {
    match p
    case IpRestriction(p) => ShowsIpRestriction(notation, c, p)
    case RequestSizeLimit(n) => ShowsRequestSizeLimit(c, n)
    case RequestTransformer(p) => ShowsRequest(c, p)
    case ResponseTransformer(e) => ShowsResponse(c, e)
    case Cors(p) => ShowsCors(c, p)
    case Auth(p) => ShowsAuth(c, p)
    case Acl(p) => ShowsAcl(c, p)
  }

  // What a stored row holds is what the policy's kind reads.

  lemma OnlyFields(c: Json, value: Key -> Option<Json>, known: Key -> bool)
    requires Holds(c, value) && forall k :: value(k).Some? ==> known(k)
    ensures IsObject(c, known)
  {
    forall k | k in c.fields ensures known(k) {
      assert Look(c, k) == value(k);
    }
  }

  lemma CorsFieldsAreCors(notation: Notation, p: CorsPolicy, c: Json)
    requires Holds(c, Untagged(notation, Cors(p)))
    ensures IsObject(c, IsCors)
  {
    OnlyFields(c, Untagged(notation, Cors(p)), IsCors);
  }

  lemma ShowsCorsLists(notation: Notation, p: CorsPolicy, c: Json)
    requires Holds(c, Untagged(notation, Cors(p)))
    ensures ShowsLists(c, p)
  {
  }

  lemma ShowsCorsValues(notation: Notation, p: CorsPolicy, c: Json)
    requires Holds(c, Untagged(notation, Cors(p)))
    ensures ShowsValues(c, p)
  {
  }

  lemma ShowsCorsConfig(notation: Notation, p: CorsPolicy, c: Json)
    requires Holds(c, Untagged(notation, Cors(p)))
    ensures ShowsCors(c, p)
  {
    CorsFieldsAreCors(notation, p, c);
    ShowsCorsLists(notation, p, c);
    ShowsCorsValues(notation, p, c);
  }

  lemma ShowsIpRestrictionConfig(notation: Notation, p: IpRestrictionPolicy, c: Json)
    requires Holds(c, Untagged(notation, IpRestriction(p)))
    ensures ShowsIpRestriction(notation, c, p)
  {
    OnlyFields(c, Untagged(notation, IpRestriction(p)), AllowOrDeny);
  }

  lemma ShowsAclConfig(notation: Notation, p: AclPolicy, c: Json)
    requires Holds(c, Untagged(notation, Acl(p)))
    ensures ShowsAcl(c, p)
  {
    OnlyFields(c, Untagged(notation, Acl(p)), AllowOrDeny);
  }

  lemma ShowsAuthConfig(notation: Notation, p: AuthPolicy, c: Json)
    requires Holds(c, Untagged(notation, Auth(p)))
    ensures ShowsAuth(c, p)
  {
    OnlyFields(c, Untagged(notation, Auth(p)), IsAuth);
  }

  lemma ShowsRequestSizeLimitConfig(notation: Notation, p: nat, c: Json)
    requires Holds(c, Untagged(notation, RequestSizeLimit(p)))
    ensures ShowsRequestSizeLimit(c, p)
  {
    OnlyFields(c, Untagged(notation, RequestSizeLimit(p)), IsMaxBytes);
  }

  lemma SectionsOnly(notation: Notation, p: RequestTransformerPolicy, key: Key)
    requires PolicyField(notation, RequestTransformer(p), key).Some?
    ensures IsSection(key)
  {
  }

  lemma SectionsAreObject(notation: Notation, p: RequestTransformerPolicy, c: Json)
    requires Holds(c, Untagged(notation, RequestTransformer(p)))
    ensures IsObject(c, IsSection)
  {
    forall k | k in c.fields ensures IsSection(k) {
      assert Look(c, k) == Untagged(notation, RequestTransformer(p))(k);
      SectionsOnly(notation, p, k);
    }
  }

  lemma HeldField(c: Json, value: Key -> Option<Json>, key: Key, field: Option<Json>)
    requires Holds(c, value) && value(key) == field
    ensures Look(c, key) == field
  {
  }

  lemma ShowsHeaders(notation: Notation, p: RequestTransformerPolicy, c: Json)
    requires Holds(c, Untagged(notation, RequestTransformer(p)))
    ensures Look(c, Headers) == SomeEdits(p.headers)
  {
    HeldField(c, Untagged(notation, RequestTransformer(p)), Headers, SomeEdits(p.headers));
  }

  lemma ShowsQuery(notation: Notation, p: RequestTransformerPolicy, c: Json)
    requires Holds(c, Untagged(notation, RequestTransformer(p)))
    ensures Look(c, Query) == SomeEdits(p.query)
  {
    HeldField(c, Untagged(notation, RequestTransformer(p)), Query, SomeEdits(p.query));
  }

  lemma ShowsRequestTransformerConfig(notation: Notation, p: RequestTransformerPolicy, c: Json)
    requires Holds(c, Untagged(notation, RequestTransformer(p)))
    ensures ShowsRequest(c, p)
  {
    SectionsAreObject(notation, p, c);
    ShowsHeaders(notation, p, c);
    ShowsQuery(notation, p, c);
  }

  lemma ShowsResponseTransformerConfig(notation: Notation, p: Edits, c: Json)
    requires Holds(c, Untagged(notation, ResponseTransformer(p)))
    ensures ShowsResponse(c, p)
  {
    OnlyFields(c, Untagged(notation, ResponseTransformer(p)), IsHeaders);
  }

  lemma ConfigIsShown(notation: Notation, p: Plugin, c: Json)
    requires Holds(c, Untagged(notation, p))
    ensures Shows(notation, c, p)
  {
    match p
    case IpRestriction(p) => ShowsIpRestrictionConfig(notation, p, c);
    case RequestSizeLimit(n) => ShowsRequestSizeLimitConfig(notation, n, c);
    case RequestTransformer(p) => ShowsRequestTransformerConfig(notation, p, c);
    case ResponseTransformer(e) => ShowsResponseTransformerConfig(notation, e, c);
    case Cors(p) => ShowsCorsConfig(notation, p, c);
    case Auth(p) => ShowsAuthConfig(notation, p, c);
    case Acl(p) => ShowsAclConfig(notation, p, c);
  }

  lemma CorsMethodsAreUsual()
    ensures UsualMethods(Routes.METHODS, CORS_METHODS)
  {
    forall m | m in Routes.METHODS ensures Text.Upper(m) == m {
      Routes.MethodsAreUpper(m);
    }
  }

  lemma {:induction false} ShownIsReadBack(notation: Notation, kind: PolicyKind, v: Json, p: Plugin, c: Json)
    requires Sound(notation) && Parse(notation, kind, v) == Ok(p) && Shows(notation, c, p)
    ensures Parse(notation, kind, c) == Ok(p)
  {
    match kind
    case OfIpRestriction => IpRestrictionReadsBack(notation, v, p.ips, c);
    case OfRequestSizeLimit => RequestSizeLimitReadsBack(v, p.maxBytes, c);
    case OfRequestTransformer => RequestTransformerReadsBack(FRAMING + [CONSUMER_HEADER], v, p.request, c);
    case OfResponseTransformer => ResponseTransformerReadsBack(FRAMING, v, p.response, c);
    case OfCors =>
      CorsMethodsAreUsual();
      CorsIsReadBack(Routes.METHODS, CORS_METHODS, v, p.cors, c);
    case OfAuth => AuthReadsBack(v, p.auth, c);
    case OfAcl => AclReadsBack(v, p.acl, c);
  }

  /** Whatever JSON a policy of whatever kind was read from, the row written for it is read as the
      same policy. */
  lemma {:induction false} StoredPolicyReadsBack(notation: Notation, kind: PolicyKind, v: Json, p: Plugin)
    requires Sound(notation) && Parse(notation, kind, v) == Ok(p)
    ensures Parse(notation, kind, ConfigOf(notation, p)) == Ok(p)
  {
    var c := ConfigOf(notation, p);
    ConfigHolds(notation, p);
    ConfigIsShown(notation, p, c);
    ShownIsReadBack(notation, kind, v, p, c);
  }

  function KindOf(p: Plugin): PolicyKind {
    match p
    case IpRestriction(_) => OfIpRestriction
    case RequestSizeLimit(_) => OfRequestSizeLimit
    case RequestTransformer(_) => OfRequestTransformer
    case ResponseTransformer(_) => OfResponseTransformer
    case Cors(_) => OfCors
    case Auth(_) => OfAuth
    case Acl(_) => OfAcl
  }

  /** A policy read under a kind is of that kind, so a row written under its own kind is read back
      under it; and no transformer of either direction touches what frames a message. */
  lemma {:induction false} ParsedIsOfItsKind(notation: Notation, kind: PolicyKind, v: Json, p: Plugin)
    requires Parse(notation, kind, v) == Ok(p)
    ensures KindOf(p) == kind
    ensures p.RequestTransformer? ==> EditsAreOk(true, FRAMING + [CONSUMER_HEADER], p.request.headers)
    ensures p.ResponseTransformer? ==> EditsAreOk(true, FRAMING, p.response)
  {
    if p.RequestTransformer? {
      AcceptedTransformerIsOk(FRAMING + [CONSUMER_HEADER], v, p.request);
    } else if p.ResponseTransformer? {
      AcceptedEditsAreOk(Headers, true, FRAMING, Field(v, Headers));
    }
  }

  // Kinds by name.

  function KindCalled(name: string): PolicyKind {
    match name
    case "ip_restriction" => OfIpRestriction
    case "request_size_limit" => OfRequestSizeLimit
    case "request_transformer" => OfRequestTransformer
    case "response_transformer" => OfResponseTransformer
    case "cors" => OfCors
    case "auth" => OfAuth
    case "acl" => OfAcl
    case _ => NoSuchKind(name)
  }

  lemma KindsAreNamed(p: Plugin, name: string)
    ensures KindOf(p) == KindCalled(name) <==> KindName(p) == name
  {
  }

  /** A policy is written under the name of the kind it was read as, and read back under it; under no
      other name is anything read. */
  lemma {:induction false} StoredUnderItsName(notation: Notation, name: string, v: Json, p: Plugin)
    requires Sound(notation) && Parse(notation, KindCalled(name), v) == Ok(p)
    ensures KindName(p) == name
    ensures Parse(notation, KindCalled(KindName(p)), ConfigOf(notation, p)) == Ok(p)
  {
    assert KindName(p) == name by {
      ParsedIsOfItsKind(notation, KindCalled(name), v, p);
      KindsAreNamed(p, name);
    }
    StoredPolicyReadsBack(notation, KindCalled(name), v, p);
  }
}
