/** The policies that are lists or a single value: ip_restriction, acl, auth and
    request_size_limit. */
module ListPolicies {
  import opened Decimal
  import opened Json
  import opened PolicyFields
  import opened Text
  import opened Wrappers
  import Routes

  const MAX_NETWORKS := 1000
  const MAX_BODY_BYTES := 0x4000_0000
  const MAX_ACL_GROUPS := 100
  const MAX_GROUP_CHARS := 64

  datatype Address = V4(n: nat) | V6(n: nat)

  /** A network: an address and the length of its prefix. */
  datatype Cidr = Cidr(addr: Address, bits: nat)

  datatype IpRestrictionPolicy = IpRestrictionPolicy(allow: seq<Cidr>, deny: seq<Cidr>)
  datatype AclPolicy = AclPolicy(allow: seq<string>, deny: seq<string>)
  datatype AuthPolicy = AuthPolicy(anonymous: Option<string>, workspace: Option<string>)

  /** How addresses are written, which is the standard library's. */
  datatype Notation = Notation(read: string -> Option<Address>, write: Address -> string)

  /** An address printed is read back, and an address has no slash in it. */
  ghost predicate Sound(notation: Notation) {
    forall a :: notation.read(notation.write(a)) == Some(a) && '/' !in notation.write(a)
  }

  // ip_restriction.

  function Width(a: Address): nat {
    if a.V4? then 32 else 128
  }

  /** `str::parse::<u32>`: a sign is allowed. */
  function ParseBits(text: string): Option<nat> {
    var digits := if "+" <= text then text[1..] else text;
    if digits != "" && AllDigits(digits) && Value(digits) < 0x1_0000_0000 then Some(Value(digits)) else None
  }

  function ParseCidr(notation: Notation, text: string): Option<Cidr> {
    var (address, prefix) :=
      match SplitOnce(text, "/")
      case None => (text, None)
      case Some((a, b)) => (a, Some(b));
    match notation.read(address)
    case None => None
    case Some(addr) =>
      if prefix.None? then Some(Cidr(addr, Width(addr)))
      else
        match ParseBits(prefix.value)
        case None => None
        case Some(bits) => if bits <= Width(addr) then Some(Cidr(addr, bits)) else None
  }

  function PrintCidr(notation: Notation, c: Cidr): string {
    notation.write(c.addr) + "/" + Print(c.bits)
  }

  /** A network printed is read back as itself. */
  lemma {:induction false} CidrReadsBack(notation: Notation, c: Cidr)
    requires Sound(notation) && c.bits <= Width(c.addr)
    ensures ParseCidr(notation, PrintCidr(notation, c)) == Some(c)
  {
    SplitOnceAt(notation.write(c.addr), "/", Print(c.bits));
    PrintReadsBack(c.bits);
    assert Print(c.bits)[0] != '+';
  }

  function CheckNetwork(notation: Notation, at: At): string -> Result<Cidr, At> {
    text => if ParseCidr(notation, text).Some? then Ok(ParseCidr(notation, text).value) else Err(at)
  }

  /** A list of text that may be absent. */
  function OptionalTexts(v: Option<Json>): Option<seq<string>> {
    if v.None? then Some([]) else Texts(v.value)
  }

  predicate AllowOrDeny(k: Key) {
    k.Allow? || k.Deny?
  }

  function ReadAllowDeny(v: Json): Option<(seq<string>, seq<string>)> {
    if !IsRecord(v, AllowOrDeny, 2) then None
    else
      match (OptionalTexts(FieldAt(v, Allow, 0)), OptionalTexts(FieldAt(v, Deny, 1)))
      case (Some(allow), Some(deny)) => Some((allow, deny))
      case _ => None
  }

  lemma {:induction false} AllowDenyReadBack(c: Json, allow: seq<string>, deny: seq<string>)
    requires IsObject(c, AllowOrDeny)
    requires Look(c, Allow) == SomeTexts(allow) && Look(c, Deny) == SomeTexts(deny)
    ensures ReadAllowDeny(c) == Some((allow, deny))
  {
    TextsReadBack(allow);
    TextsReadBack(deny);
  }

  function ReadIpRestriction(notation: Notation, v: Json): Result<IpRestrictionPolicy, At> {
    match ReadAllowDeny(v)
    case None => Err(Config)
    case Some((allow, deny)) =>
      if allow == [] && deny == [] then Err(One(Allow))
      else if |allow| + |deny| > MAX_NETWORKS then Err(One(Allow))
      else
        var allowed :- MapAll(allow, CheckNetwork(notation, One(Allow)));
        var denied :- MapAll(deny, CheckNetwork(notation, One(Deny)));
        Ok(IpRestrictionPolicy(allowed, denied))
  }

  function Networks(notation: Notation, list: seq<Cidr>): (r: seq<string>)
    ensures |r| == |list| && forall i :: 0 <= i < |list| ==> r[i] == PrintCidr(notation, list[i])
  {
    seq(|list|, i requires 0 <= i < |list| => PrintCidr(notation, list[i]))
  }

  lemma {:induction false} NetworksReadBack(notation: Notation, texts: seq<string>, at: At)
    requires Sound(notation) && MapAll(texts, CheckNetwork(notation, at)).Ok?
    ensures
      var networks := MapAll(texts, CheckNetwork(notation, at)).value;
      && |networks| == |texts|
      && MapAll(Networks(notation, networks), CheckNetwork(notation, at)) == Ok(networks)
  {
    var check := CheckNetwork(notation, at);
    var networks := MapAll(texts, check).value;
    MapAllIff(texts, check, networks);
    forall i | 0 <= i < |networks| ensures check(PrintCidr(notation, networks[i])) == Ok(networks[i]) {
      assert check(texts[i]) == Ok(networks[i]);
      CidrReadsBack(notation, networks[i]);
    }
    MapAllIff(Networks(notation, networks), check, networks);
  }

  /** `c` is an object of the lists that hold something. */
  predicate ShowsIpRestriction(notation: Notation, c: Json, p: IpRestrictionPolicy) {
    && IsObject(c, AllowOrDeny)
    && Look(c, Allow) == SomeTexts(Networks(notation, p.allow))
    && Look(c, Deny) == SomeTexts(Networks(notation, p.deny))
  }

  lemma {:induction false} IpRestrictionReadsBack(notation: Notation, v: Json, p: IpRestrictionPolicy, c: Json)
    requires Sound(notation) && ReadIpRestriction(notation, v) == Ok(p) && ShowsIpRestriction(notation, c, p)
    ensures ReadIpRestriction(notation, c) == Ok(p)
  {
    var (allow, deny) := ReadAllowDeny(v).value;
    NetworksReadBack(notation, allow, One(Allow));
    NetworksReadBack(notation, deny, One(Deny));
    AllowDenyReadBack(c, Networks(notation, p.allow), Networks(notation, p.deny));
  }

  // acl.

  predicate IsGroup(name: string) {
    1 <= |name| <= MAX_GROUP_CHARS && All(name, c => IsAlphanumeric(c) || c in ".-_:")
  }

  function CheckGroup(at: At): string -> Result<string, At> {
    name => if IsGroup(name) then Ok(name) else Err(at)
  }

  function CheckGroups(names: seq<string>, at: At): Result<seq<string>, At> {
    if |names| > MAX_ACL_GROUPS then Err(at) else MapAll(names, CheckGroup(at))
  }

  function ReadAcl(v: Json): Result<AclPolicy, At> {
    match ReadAllowDeny(v)
    case None => Err(Config)
    case Some((allow, deny)) =>
      if allow == [] && deny == [] then Err(One(Allow))
      else
        var allowed :- CheckGroups(allow, One(Allow));
        var denied :- CheckGroups(deny, One(Deny));
        Ok(AclPolicy(allowed, denied))
  }

  predicate ShowsAcl(c: Json, p: AclPolicy) {
    IsObject(c, AllowOrDeny) && Look(c, Allow) == SomeTexts(p.allow) && Look(c, Deny) == SomeTexts(p.deny)
  }

  lemma {:induction false} AclReadsBack(v: Json, p: AclPolicy, c: Json)
    requires ReadAcl(v) == Ok(p) && ShowsAcl(c, p)
    ensures ReadAcl(c) == Ok(p)
  {
    var (allow, deny) := ReadAllowDeny(v).value;
    MapAllSettles(allow, CheckGroup(One(Allow)));
    MapAllSettles(deny, CheckGroup(One(Deny)));
    AllowDenyReadBack(c, p.allow, p.deny);
  }

  // auth.

  predicate IsAnonymous(k: Key) {
    k.Anonymous?
  }

  predicate IsAuth(k: Key) {
    k.Anonymous? || k.Workspace?
  }

  function ReadAuth(v: Json): Result<AuthPolicy, At> {
    if !IsRecord(v, IsAnonymous, 1) then Err(Config)
    else
      match FieldAt(v, Anonymous, 0)
      case None | Some(Null) => Ok(AuthPolicy(None, None))
      case Some(Str(name)) =>
        if Trim(name) == "" then Ok(AuthPolicy(None, None))
        else if Routes.IsName(name) then Ok(AuthPolicy(Some(name), None))
        else Err(One(Anonymous))
      case _ => Err(Config)
  }

  function SomeText(o: Option<string>): Option<Json> {
    if o.Some? then Some(Str(o.value)) else None
  }

  lemma NameIsNotBlank(name: string)
    requires Routes.IsName(name)
    ensures Trim(name) != ""
  {
    assert TrimStart(name) == name;
    TrimEndKeepsFirst(name);
  }

  lemma {:induction false} TrimEndKeepsFirst(s: string)
    requires s != "" && !IsWhitespace(s[0])
    ensures TrimEnd(s) != ""
  {
    if |s| > 1 {
      TrimEndKeepsFirst(s[..|s| - 1]);
    }
  }

  predicate ShowsAuth(c: Json, p: AuthPolicy) {
    && IsObject(c, IsAuth)
    && Look(c, Anonymous) == SomeText(p.anonymous)
    && Look(c, Workspace) == SomeText(p.workspace)
  }

  lemma {:induction false} AuthReadsBack(v: Json, p: AuthPolicy, c: Json)
    requires ReadAuth(v) == Ok(p) && ShowsAuth(c, p)
    ensures ReadAuth(c) == Ok(p)
  {
    assert Workspace !in c.fields;
    if p.anonymous.Some? {
      NameIsNotBlank(p.anonymous.value);
    }
  }

  // request_size_limit.

  predicate IsMaxBytes(k: Key) {
    k.MaxBytes?
  }

  function ReadRequestSizeLimit(v: Json): Result<nat, At> {
    if !IsRecord(v, IsMaxBytes, 1) || FieldAt(v, MaxBytes, 0).None? then Err(Config)
    else
      match FieldAt(v, MaxBytes, 0).value
      case Int(n) => if 1 <= n <= MAX_BODY_BYTES then Ok(n) else Err(One(MaxBytes))
      case _ => Err(One(MaxBytes))
  }

  predicate ShowsRequestSizeLimit(c: Json, n: nat) {
    IsObject(c, IsMaxBytes) && Look(c, MaxBytes) == Some(Int(n))
  }

  lemma {:induction false} RequestSizeLimitReadsBack(v: Json, n: nat, c: Json)
    requires ReadRequestSizeLimit(v) == Ok(n) && ShowsRequestSizeLimit(c, n)
    ensures ReadRequestSizeLimit(c) == Ok(n)
  {
  }

  // What an accepted policy holds.

  /** An accepted list of networks restricts something, and every prefix fits its address. */
  lemma {:induction false} AcceptedNetworksFit(notation: Notation, v: Json, p: IpRestrictionPolicy)
    requires ReadIpRestriction(notation, v) == Ok(p)
    ensures 1 <= |p.allow| + |p.deny| <= MAX_NETWORKS
    ensures forall i :: 0 <= i < |p.allow| ==> p.allow[i].bits <= Width(p.allow[i].addr)
    ensures forall i :: 0 <= i < |p.deny| ==> p.deny[i].bits <= Width(p.deny[i].addr)
  {
    var (allow, deny) := ReadAllowDeny(v).value;
    NetworksFit(notation, allow, One(Allow));
    NetworksFit(notation, deny, One(Deny));
  }

  lemma {:induction false} NetworksFit(notation: Notation, texts: seq<string>, at: At)
    requires MapAll(texts, CheckNetwork(notation, at)).Ok?
    ensures
      var networks := MapAll(texts, CheckNetwork(notation, at)).value;
      |networks| == |texts| && forall i :: 0 <= i < |networks| ==> networks[i].bits <= Width(networks[i].addr)
  {
    var networks := MapAll(texts, CheckNetwork(notation, at)).value;
    MapAllIff(texts, CheckNetwork(notation, at), networks);
    forall i | 0 <= i < |networks| ensures networks[i].bits <= Width(networks[i].addr) {
      assert CheckNetwork(notation, at)(texts[i]) == Ok(networks[i]);
    }
  }

  /** An accepted acl names some group, at most 100 a list, each one a consumer could be in, as it
      was sent. */
  lemma {:induction false} AcceptedGroupsAreAsSent(v: Json, p: AclPolicy)
    requires ReadAcl(v) == Ok(p)
    ensures ReadAllowDeny(v) == Some((p.allow, p.deny))
    ensures 1 <= |p.allow| + |p.deny| && |p.allow| <= MAX_ACL_GROUPS && |p.deny| <= MAX_ACL_GROUPS
    ensures forall i :: 0 <= i < |p.allow| ==> IsGroup(p.allow[i])
    ensures forall i :: 0 <= i < |p.deny| ==> IsGroup(p.deny[i])
  {
    var (allow, deny) := ReadAllowDeny(v).value;
    GroupsAreAsSent(allow, One(Allow));
    GroupsAreAsSent(deny, One(Deny));
  }

  lemma {:induction false} GroupsAreAsSent(names: seq<string>, at: At)
    requires MapAll(names, CheckGroup(at)).Ok?
    ensures MapAll(names, CheckGroup(at)).value == names
    ensures forall i :: 0 <= i < |names| ==> IsGroup(names[i])
  {
    var out := MapAll(names, CheckGroup(at)).value;
    MapAllIff(names, CheckGroup(at), out);
    forall i | 0 <= i < |names| ensures names[i] == out[i] && IsGroup(names[i]) {
      assert CheckGroup(at)(names[i]) == Ok(out[i]);
    }
  }
}
