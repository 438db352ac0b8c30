/**
  What a JSON value says as a policy of a kind, field by field and place by place, with the bounds
  written out, and that each kind is read exactly so: a value is accepted if and only if it says
  something, as what it says.
*/
module PolicyMeanings {
  import opened CorsPolicies
  import opened Decimal
  import opened Json
  import opened ListPolicies
  import opened Policies
  import opened PolicyFields
  import opened Text
  import opened Transformers
  import opened Wrappers
  import Origin
  import Routes

  // What a value holds.

  /** An object with no field but these, or an array of no more than these, in this order. */
  predicate RecordOf(v: Json, keys: seq<Key>) {
    || (v.Obj? && forall k :: k in v.fields ==> k in keys)
    || (v.Arr? && |v.items| <= |keys|)
  }

  predicate ObjectOf(v: Json, keys: seq<Key>) {
    v.Obj? && forall k :: k in v.fields ==> k in keys
  }

  /** What it holds for the `i`-th of its keys. */
  function Part(v: Json, keys: seq<Key>, i: nat): Option<Json>
    requires i < |keys|
  {
    if v.Obj? && keys[i] in v.fields then Some(v.fields[keys[i]])
    else if v.Arr? && i < |v.items| then Some(v.items[i])
    else None
  }

  predicate IsAbsent(x: Option<Json>) {
    x.None?
  }

  predicate IsAbsentOrNull(x: Option<Json>) {
    x.None? || x.value.Null?
  }

  predicate AreTexts(v: Json, texts: seq<string>) {
    v.Arr? && |v.items| == |texts| && forall i :: 0 <= i < |texts| ==> v.items[i] == Str(texts[i])
  }

  predicate ArePairs(v: Json, pairs: seq<(string, string)>) {
    && v.Arr? && |v.items| == |pairs|
    && forall i :: 0 <= i < |pairs| ==> v.items[i] == Arr([Str(pairs[i].0), Str(pairs[i].1)])
  }

  lemma {:induction false} TextsAre(v: Json, texts: seq<string>)
    ensures Texts(v) == Some(texts) <==> AreTexts(v, texts)
  {
    if AreTexts(v, texts) {
      assert Texts(v).value == texts;
    }
  }

  lemma {:induction false} PairsAre(v: Json, pairs: seq<(string, string)>)
    ensures Pairs(v) == Some(pairs) <==> ArePairs(v, pairs)
  {
    if ArePairs(v, pairs) {
      forall i | 0 <= i < |v.items| ensures IsPair(v.items[i]) {
        assert v.items[i] == Arr([Str(pairs[i].0), Str(pairs[i].1)]);
      }
      assert Pairs(v).value == pairs;
    }
    if Pairs(v) == Some(pairs) {
      forall i | 0 <= i < |pairs| ensures v.items[i] == Arr([Str(pairs[i].0), Str(pairs[i].1)]) {
        assert IsPair(v.items[i]);
        assert v.items[i].items == [Str(pairs[i].0), Str(pairs[i].1)];
      }
    }
  }

  // Networks.

  /** Decimal digits of `n`, a plus before them or not. */
  predicate IsNumber(text: string, n: nat) {
    || (text != "" && AllDigits(text) && Value(text) == n)
    || ("+" <= text && text[1..] != "" && AllDigits(text[1..]) && Value(text[1..]) == n)
  }

  /** An address alone is the network of that address; an address, a slash and a number no greater than
      the address is wide is the network of so many of its bits. */
  ghost predicate NetworkMeans(notation: Notation, text: string, c: Cidr) {
    var width := if c.addr.V4? then 32 else 128;
    || ('/' !in text && notation.read(text) == Some(c.addr) && c.bits == width)
    || exists address: string, prefix: string ::
         && text == address + "/" + prefix && '/' !in address
         && notation.read(address) == Some(c.addr) && IsNumber(prefix, c.bits) && c.bits <= width
  }

  lemma {:induction false} BitsAre(text: string, n: nat)
    requires n < 0x1_0000_0000
    ensures ParseBits(text) == Some(n) <==> IsNumber(text, n)
  {
    if "+" <= text {
      assert text[0] == '+';
    }
  }

  lemma {:induction false} CidrMeans(notation: Notation, text: string, c: Cidr)
    ensures ParseCidr(notation, text) == Some(c) <==> NetworkMeans(notation, text, c)
  {
    SplitOnceNone(text, '/');
    if SplitOnce(text, "/").Some? {
      SplitOnceSound(text, "/");
      var (address, prefix) := SplitOnce(text, "/").value;
      if c.bits < 0x1_0000_0000 {
        BitsAre(prefix, c.bits);
      }
      forall a: string, b: string | text == a + "/" + b && '/' !in a ensures a == address && b == prefix {
        SplitOnceAt(a, "/", b);
      }
    }
  }

  ghost predicate NetworksMean(notation: Notation, texts: seq<string>, list: seq<Cidr>) {
    |texts| == |list| && forall i :: 0 <= i < |texts| ==> NetworkMeans(notation, texts[i], list[i])
  }

  lemma {:induction false} NetworksAreRead(notation: Notation, texts: seq<string>, at: At, list: seq<Cidr>)
    ensures MapAll(texts, CheckNetwork(notation, at)) == Ok(list) <==> NetworksMean(notation, texts, list)
  {
    MapAllIff(texts, CheckNetwork(notation, at), list);
    if |texts| == |list| {
      forall i | 0 <= i < |texts|
        ensures CheckNetwork(notation, at)(texts[i]) == Ok(list[i]) <==> NetworkMeans(notation, texts[i], list[i])
      {
        CidrMeans(notation, texts[i], list[i]);
      }
    }
  }

  // Two lists, to allow and to deny.

  const ALLOW_DENY := [Allow, Deny]

  ghost predicate ListSaid(x: Option<Json>, texts: seq<string>) {
    if IsAbsent(x) then texts == [] else AreTexts(x.value, texts)
  }

  ghost predicate TwoLists(v: Json, allow: seq<string>, deny: seq<string>) {
    RecordOf(v, ALLOW_DENY) && ListSaid(Part(v, ALLOW_DENY, 0), allow) && ListSaid(Part(v, ALLOW_DENY, 1), deny)
  }

  lemma {:induction false} ListIsRead(x: Option<Json>, texts: seq<string>)
    ensures OptionalTexts(x) == Some(texts) <==> ListSaid(x, texts)
  {
    if x.Some? {
      TextsAre(x.value, texts);
    }
  }

  lemma {:induction false} TwoListsAreRead(v: Json, allow: seq<string>, deny: seq<string>)
    ensures ReadAllowDeny(v) == Some((allow, deny)) <==> TwoLists(v, allow, deny)
  {
    assert IsRecord(v, AllowOrDeny, 2) <==> RecordOf(v, ALLOW_DENY);
    if RecordOf(v, ALLOW_DENY) {
      assert FieldAt(v, Allow, 0) == Part(v, ALLOW_DENY, 0);
      assert FieldAt(v, Deny, 1) == Part(v, ALLOW_DENY, 1);
      ListIsRead(Part(v, ALLOW_DENY, 0), allow);
      ListIsRead(Part(v, ALLOW_DENY, 1), deny);
    }
  }

  ghost predicate IpRestrictionMeans(notation: Notation, v: Json, p: IpRestrictionPolicy) {
    exists allow, deny ::
      && TwoLists(v, allow, deny) && 1 <= |allow| + |deny| <= 1000
      && NetworksMean(notation, allow, p.allow) && NetworksMean(notation, deny, p.deny)
  }

  lemma {:induction false} IpRestrictionIsRead(notation: Notation, v: Json, p: IpRestrictionPolicy)
    ensures ReadIpRestriction(notation, v) == Ok(p) <==> IpRestrictionMeans(notation, v, p)
  {
    if ReadAllowDeny(v).Some? {
      var (allow, deny) := ReadAllowDeny(v).value;
      TwoListsAreRead(v, allow, deny);
      NetworksAreRead(notation, allow, One(Allow), p.allow);
      NetworksAreRead(notation, deny, One(Deny), p.deny);
    }
    forall allow, deny | TwoLists(v, allow, deny) ensures ReadAllowDeny(v) == Some((allow, deny)) {
      TwoListsAreRead(v, allow, deny);
    }
  }

  /** 1 to 64 letters, digits and `. - _ :`. */
  predicate GroupIsOk(name: string) {
    1 <= |name| <= 64 && forall i :: 0 <= i < |name| ==> IsAlphanumeric(name[i]) || name[i] in {'.', '-', '_', ':'}
  }

  ghost predicate AclMeans(v: Json, p: AclPolicy) {
    && TwoLists(v, p.allow, p.deny) && p.allow + p.deny != []
    && |p.allow| <= 100 && |p.deny| <= 100
    && (forall i :: 0 <= i < |p.allow| ==> GroupIsOk(p.allow[i]))
    && forall i :: 0 <= i < |p.deny| ==> GroupIsOk(p.deny[i])
  }

  lemma {:induction false} GroupsAreRead(names: seq<string>, at: At, out: seq<string>)
    ensures CheckGroups(names, at) == Ok(out) <==>
            out == names && |names| <= 100 && forall i :: 0 <= i < |names| ==> GroupIsOk(names[i])
  {
    MapAllIff(names, CheckGroup(at), out);
    forall name ensures IsGroup(name) <==> GroupIsOk(name) {
    }
    if |names| == |out| && forall i :: 0 <= i < |names| ==> CheckGroup(at)(names[i]) == Ok(out[i]) {
      assert forall i :: 0 <= i < |names| ==> CheckGroup(at)(names[i]) == Ok(out[i]) ==> out[i] == names[i];
    }
  }

  lemma {:induction false} AclIsRead(v: Json, p: AclPolicy)
    ensures ReadAcl(v) == Ok(p) <==> AclMeans(v, p)
  {
    TwoListsAreRead(v, p.allow, p.deny);
    if ReadAllowDeny(v).Some? {
      var (allow, deny) := ReadAllowDeny(v).value;
      GroupsAreRead(allow, One(Allow), p.allow);
      GroupsAreRead(deny, One(Deny), p.deny);
    }
  }

  // One value.

  /** Nobody where nothing is said, or only blanks; else a consumer by name. The workspace is not for a
      request to say. */
  ghost predicate AuthMeans(v: Json, p: AuthPolicy) {
    && RecordOf(v, [Anonymous]) && p.workspace.None?
    && var x := Part(v, [Anonymous], 0);
       match p.anonymous
       case None => IsAbsentOrNull(x) || (x.value.Str? && All(x.value.text, IsWhitespace))
       case Some(name) => x == Some(Str(name)) && Routes.IsName(name)
  }

  lemma {:induction false} TrimsToNothing(s: string)
    ensures Trim(s) == "" <==> All(s, IsWhitespace)
  {
    if s != "" {
      if IsWhitespace(s[0]) {
        TrimsToNothing(s[1..]);
        assert s == [s[0]] + s[1..];
        assert Trim(s) == Trim(s[1..]);
      } else {
        TrimEndKeepsFirst(s);
      }
    }
  }

  lemma {:induction false} AuthIsRead(v: Json, p: AuthPolicy)
    ensures ReadAuth(v) == Ok(p) <==> AuthMeans(v, p)
  {
    assert IsRecord(v, IsAnonymous, 1) <==> RecordOf(v, [Anonymous]);
    if RecordOf(v, [Anonymous]) {
      var x := Part(v, [Anonymous], 0);
      assert FieldAt(v, Anonymous, 0) == x;
      if x.Some? && x.value.Str? {
        TrimsToNothing(x.value.text);
        if Routes.IsName(x.value.text) {
          NameIsNotBlank(x.value.text);
        }
      }
    }
  }

  /** A whole number of bytes, from 1 to 1 GiB. */
  ghost predicate RequestSizeLimitMeans(v: Json, n: nat) {
    RecordOf(v, [MaxBytes]) && Part(v, [MaxBytes], 0) == Some(Int(n)) && 1 <= n <= 1024 * 1024 * 1024
  }

  lemma {:induction false} RequestSizeLimitIsRead(v: Json, n: nat)
    ensures ReadRequestSizeLimit(v) == Ok(n) <==> RequestSizeLimitMeans(v, n)
  {
    assert IsRecord(v, IsMaxBytes, 1) <==> RecordOf(v, [MaxBytes]);
    if RecordOf(v, [MaxBytes]) {
      assert FieldAt(v, MaxBytes, 0) == Part(v, [MaxBytes], 0);
    }
  }

  // Edits.

  /** A name as it was sent and as it is kept: 1 to 256 characters and not refused, and a header's is a
      token and lowercased. */
  ghost predicate NameMeans(header: bool, refused: seq<string>, sent: string, kept: string) {
    && 1 <= |sent| <= 256 && kept !in refused
    && if header then (forall i :: 0 <= i < |sent| ==> IsTokenChar(sent[i])) && kept == Lower(sent) else kept == sent
  }

  /** A value is kept as it was sent: at most 4096 characters, and a header's are visible ones, spaces
      and tabs. */
  ghost predicate ValueMeans(header: bool, sent: string, kept: string) {
    && kept == sent && |sent| <= 4096
    && (header ==> forall i :: 0 <= i < |sent| ==> sent[i] == '\t' || ' ' <= sent[i] <= '~')
  }

  lemma NameIsRead(header: bool, refused: seq<string>, at: At, sent: string, kept: string)
    ensures CheckName(header, refused, at)(sent) == Ok(kept) <==> NameMeans(header, refused, sent, kept)
  {
  }

  lemma ValueIsRead(header: bool, at: At, sent: string, kept: string)
    ensures CheckValue(header, at)(sent) == Ok(kept) <==> ValueMeans(header, sent, kept)
  {
  }

  /** A list as it was sent: null and absent are empty. */
  ghost predicate TextsSaid(x: Option<Json>, texts: seq<string>) {
    if IsAbsentOrNull(x) then texts == [] else AreTexts(x.value, texts)
  }

  ghost predicate PairsSaid(x: Option<Json>, pairs: seq<(string, string)>) {
    if IsAbsentOrNull(x) then pairs == [] else ArePairs(x.value, pairs)
  }

  lemma {:induction false} TextsAreSaid(x: Option<Json>, at: At, texts: seq<string>)
    ensures ReadTexts(OrNull(x), at) == Ok(texts) <==> TextsSaid(x, texts)
  {
    if x.Some? {
      TextsAre(x.value, texts);
    }
  }

  lemma {:induction false} PairsAreSaid(x: Option<Json>, at: At, pairs: seq<(string, string)>)
    ensures ReadPairs(OrNull(x), at) == Ok(pairs) <==> PairsSaid(x, pairs)
  {
    if x.Some? {
      PairsAre(x.value, pairs);
    }
  }

  /** Place by place, what `each` makes of the texts sent. */
  ghost predicate TextsMean(x: Option<Json>, each: (string, string) -> bool, kept: seq<string>) {
    exists sent: seq<string> ::
      TextsSaid(x, sent) && |sent| == |kept| && forall i :: 0 <= i < |sent| ==> each(sent[i], kept[i])
  }

  ghost predicate PairsMean(
    x: Option<Json>, first: (string, string) -> bool, second: (string, string) -> bool, kept: seq<(string, string)>)
  {
    exists sent: seq<(string, string)> ::
      && PairsSaid(x, sent) && |sent| == |kept|
      && forall i :: 0 <= i < |sent| ==> first(sent[i].0, kept[i].0) && second(sent[i].1, kept[i].1)
  }

  ghost predicate Decides(check: string -> Result<string, At>, each: (string, string) -> bool) {
    forall sent, kept :: check(sent) == Ok(kept) <==> each(sent, kept)
  }

  lemma {:induction false} TextsMeanAsRead(
    x: Option<Json>, at: At, check: string -> Result<string, At>, each: (string, string) -> bool, kept: seq<string>)
    requires Decides(check, each)
    ensures (ReadTexts(OrNull(x), at).Ok? && MapAll(ReadTexts(OrNull(x), at).value, check) == Ok(kept)) <==>
            TextsMean(x, each, kept)
  {
    if ReadTexts(OrNull(x), at).Ok? {
      var sent := ReadTexts(OrNull(x), at).value;
      TextsAreSaid(x, at, sent);
      MapAllIff(sent, check, kept);
    }
    forall sent | TextsSaid(x, sent) ensures ReadTexts(OrNull(x), at) == Ok(sent) {
      TextsAreSaid(x, at, sent);
    }
  }

  lemma {:induction false} PairsMeanAsRead(
    x: Option<Json>, at: At, first: string -> Result<string, At>, second: string -> Result<string, At>,
    p: (string, string) -> bool, q: (string, string) -> bool, kept: seq<(string, string)>)
    requires Decides(first, p) && Decides(second, q)
    ensures
      (ReadPairs(OrNull(x), at).Ok? && MapAll(ReadPairs(OrNull(x), at).value, CheckPair(first, second)) == Ok(kept))
      <==> PairsMean(x, p, q, kept)
  {
    var check := CheckPair(first, second);
    if ReadPairs(OrNull(x), at).Ok? {
      var sent := ReadPairs(OrNull(x), at).value;
      PairsAreSaid(x, at, sent);
      MapAllIff(sent, check, kept);
      if |sent| == |kept| {
        forall i | 0 <= i < |sent|
          ensures check(sent[i]) == Ok(kept[i]) <==> p(sent[i].0, kept[i].0) && q(sent[i].1, kept[i].1)
        {
          PairMeansAsChecked(first, second, p, q, sent[i], kept[i]);
        }
      }
    }
    forall sent | PairsSaid(x, sent) ensures ReadPairs(OrNull(x), at) == Ok(sent) {
      PairsAreSaid(x, at, sent);
    }
  }

  lemma PairMeansAsChecked(
    first: string -> Result<string, At>, second: string -> Result<string, At>,
    p: (string, string) -> bool, q: (string, string) -> bool, sent: (string, string), kept: (string, string))
    requires Decides(first, p) && Decides(second, q)
    ensures CheckPair(first, second)(sent) == Ok(kept) <==> p(sent.0, kept.0) && q(sent.1, kept.1)
  {
    assert first(sent.0) == Ok(kept.0) <==> p(sent.0, kept.0);
    assert second(sent.1) == Ok(kept.1) <==> q(sent.1, kept.1);
  }

  const EDITS := [Remove, Rename, Replace, Add, Append]

  ghost function Names(header: bool, refused: seq<string>): (string, string) -> bool {
    (sent, kept) => NameMeans(header, refused, sent, kept)
  }

  ghost function Values(header: bool): (string, string) -> bool {
    (sent, kept) => ValueMeans(header, sent, kept)
  }

  ghost predicate EditListsMean(
    v: Json, names: (string, string) -> bool, values: (string, string) -> bool, e: Edits)
  {
    && TextsMean(Part(v, EDITS, 0), names, e.remove)
    && PairsMean(Part(v, EDITS, 1), names, names, e.rename)
    && PairsMean(Part(v, EDITS, 2), names, values, e.replace)
    && PairsMean(Part(v, EDITS, 3), names, values, e.add)
    && PairsMean(Part(v, EDITS, 4), names, values, e.append)
  }

  /** A section's five lists; a section left out edits nothing. */
  ghost predicate EditsMean(x: Option<Json>, header: bool, refused: seq<string>, e: Edits) {
    if IsAbsentOrNull(x) then e == Edits([], [], [], [], [])
    else ObjectOf(x.value, EDITS) && EditListsMean(x.value, Names(header, refused), Values(header), e)
  }

  lemma ChecksDecide(header: bool, refused: seq<string>, at: At)
    ensures Decides(CheckName(header, refused, at), Names(header, refused))
    ensures Decides(CheckValue(header, at), Values(header))
  {
    forall sent, kept
      ensures CheckName(header, refused, at)(sent) == Ok(kept) <==> Names(header, refused)(sent, kept)
    {
      NameIsRead(header, refused, at, sent, kept);
    }
    forall sent, kept ensures CheckValue(header, at)(sent) == Ok(kept) <==> Values(header)(sent, kept) {
      ValueIsRead(header, at, sent, kept);
    }
  }

  lemma {:induction false} RemovesMean(
    section: Key, header: bool, refused: seq<string>, x: Option<Json>, kept: seq<string>)
    ensures ReadRemoves(section, header, refused, OrNull(x)) == Ok(kept) <==>
            TextsMean(x, Names(header, refused), kept)
  {
    var at := Dotted(section, Remove);
    ChecksDecide(header, refused, at);
    TextsMeanAsRead(x, at, CheckName(header, refused, at), Names(header, refused), kept);
  }

  lemma {:induction false} RenamesMean(
    section: Key, header: bool, refused: seq<string>, x: Option<Json>, kept: seq<(string, string)>)
    ensures ReadRenames(section, header, refused, OrNull(x)) == Ok(kept) <==>
            PairsMean(x, Names(header, refused), Names(header, refused), kept)
  {
    var at := Dotted(section, Rename);
    ChecksDecide(header, refused, at);
    var check, names := CheckName(header, refused, at), Names(header, refused);
    PairsMeanAsRead(x, at, check, check, names, names, kept);
  }

  lemma {:induction false} WrittenMean(
    section: Key, header: bool, refused: seq<string>, op: Key, x: Option<Json>, kept: seq<(string, string)>)
    ensures ReadWritten(section, header, refused, op, OrNull(x)) == Ok(kept) <==>
            PairsMean(x, Names(header, refused), Values(header), kept)
  {
    var at := Dotted(section, op);
    ChecksDecide(header, refused, at);
    PairsMeanAsRead(
      x, at, CheckName(header, refused, at), CheckValue(header, at), Names(header, refused), Values(header), kept);
  }

  lemma EditsParts(
    remove: Result<seq<string>, At>, rename: Result<seq<(string, string)>, At>,
    replace: Result<seq<(string, string)>, At>, add: Result<seq<(string, string)>, At>,
    append: Result<seq<(string, string)>, At>, e: Edits)
    ensures EditsOf(remove, rename, replace, add, append) == Ok(e) <==>
            && remove == Ok(e.remove) && rename == Ok(e.rename) && replace == Ok(e.replace)
            && add == Ok(e.add) && append == Ok(e.append)
  {
  }

  lemma EditPartsAreFields(v: Json)
    requires v.Obj?
    ensures Field(v, Remove) == OrNull(Part(v, EDITS, 0)) && Field(v, Rename) == OrNull(Part(v, EDITS, 1))
    ensures Field(v, Replace) == OrNull(Part(v, EDITS, 2)) && Field(v, Add) == OrNull(Part(v, EDITS, 3))
    ensures Field(v, Append) == OrNull(Part(v, EDITS, 4))
  {
  }

  lemma {:induction false} EditListsAreRead(section: Key, header: bool, refused: seq<string>, v: Json, e: Edits)
    requires v.Obj?
    ensures (&& ReadRemoves(section, header, refused, Field(v, Remove)) == Ok(e.remove)
             && ReadRenames(section, header, refused, Field(v, Rename)) == Ok(e.rename)
             && ReadWritten(section, header, refused, Replace, Field(v, Replace)) == Ok(e.replace)
             && ReadWritten(section, header, refused, Add, Field(v, Add)) == Ok(e.add)
             && ReadWritten(section, header, refused, Append, Field(v, Append)) == Ok(e.append)) <==>
            EditListsMean(v, Names(header, refused), Values(header), e)
  {
    EditPartsAreFields(v);
    RemovesMean(section, header, refused, Part(v, EDITS, 0), e.remove);
    RenamesMean(section, header, refused, Part(v, EDITS, 1), e.rename);
    WrittenMean(section, header, refused, Replace, Part(v, EDITS, 2), e.replace);
    WrittenMean(section, header, refused, Add, Part(v, EDITS, 3), e.add);
    WrittenMean(section, header, refused, Append, Part(v, EDITS, 4), e.append);
  }

  lemma {:induction false} SectionIsRead(
    section: Key, header: bool, refused: seq<string>, x: Option<Json>, e: Edits)
    ensures ReadEdits(section, header, refused, OrNull(x)) == Ok(e) <==> EditsMean(x, header, refused, e)
  {
    if !IsAbsentOrNull(x) {
      var v := x.value;
      assert IsObject(v, IsList) <==> ObjectOf(v, EDITS);
      if ObjectOf(v, EDITS) {
        EditListsAreRead(section, header, refused, v, e);
        EditsParts(
          ReadRemoves(section, header, refused, Field(v, Remove)),
          ReadRenames(section, header, refused, Field(v, Rename)),
          ReadWritten(section, header, refused, Replace, Field(v, Replace)),
          ReadWritten(section, header, refused, Add, Field(v, Add)),
          ReadWritten(section, header, refused, Append, Field(v, Append)), e);
      }
    }
  }

  function Count(e: Edits): nat {
    |e.remove| + |e.rename| + |e.replace| + |e.add| + |e.append|
  }

  const SECTIONS := [Headers, Query]

  ghost predicate RequestTransformerMeans(refused: seq<string>, v: Json, p: RequestTransformerPolicy) {
    && ObjectOf(v, SECTIONS)
    && EditsMean(Part(v, SECTIONS, 0), true, refused, p.headers)
    && EditsMean(Part(v, SECTIONS, 1), false, [], p.query)
    && 1 <= Count(p.headers) + Count(p.query) <= 64
  }

  lemma CountedIff(headers: Edits, query: Edits)
    ensures Counted(headers, query).None? <==> 1 <= Count(headers) + Count(query) <= 64
  {
  }

  lemma RequestTransformerParts(refused: seq<string>, v: Json, p: RequestTransformerPolicy)
    requires IsObject(v, IsSection)
    ensures ReadRequestTransformer(refused, v) == Ok(p) <==>
            && ReadEdits(Headers, true, refused, OrNull(Part(v, SECTIONS, 0))) == Ok(p.headers)
            && ReadEdits(Query, false, [], OrNull(Part(v, SECTIONS, 1))) == Ok(p.query)
            && Counted(p.headers, p.query).None?
  {
    assert Field(v, Headers) == OrNull(Part(v, SECTIONS, 0)) && Field(v, Query) == OrNull(Part(v, SECTIONS, 1));
  }

  lemma {:induction false} RequestTransformerIsRead(refused: seq<string>, v: Json, p: RequestTransformerPolicy)
    ensures ReadRequestTransformer(refused, v) == Ok(p) <==> RequestTransformerMeans(refused, v, p)
  {
    assert IsObject(v, IsSection) <==> ObjectOf(v, SECTIONS);
    if ObjectOf(v, SECTIONS) {
      RequestTransformerParts(refused, v, p);
      SectionIsRead(Headers, true, refused, Part(v, SECTIONS, 0), p.headers);
      SectionIsRead(Query, false, [], Part(v, SECTIONS, 1), p.query);
      CountedIff(p.headers, p.query);
    }
  }

  ghost predicate ResponseTransformerMeans(refused: seq<string>, v: Json, e: Edits) {
    ObjectOf(v, [Headers]) && EditsMean(Part(v, [Headers], 0), true, refused, e) && 1 <= Count(e) <= 64
  }

  lemma {:induction false} ResponseTransformerIsRead(refused: seq<string>, v: Json, e: Edits)
    ensures ReadResponseTransformer(refused, v) == Ok(e) <==> ResponseTransformerMeans(refused, v, e)
  {
    assert IsObject(v, IsHeaders) <==> ObjectOf(v, [Headers]);
    if ObjectOf(v, [Headers]) {
      assert Field(v, Headers) == OrNull(Part(v, [Headers], 0));
      SectionIsRead(Headers, true, refused, Part(v, [Headers], 0), e);
      CountedIff(e, NO_EDITS);
    }
  }

  // Cors.

  const CORS := [Origins, Methods, Headers, ExposeHeaders, Credentials, MaxAge, PreflightContinue]

  ghost predicate FlagMeans(x: Option<Json>, b: bool) {
    x == Some(Bool(b)) || (IsAbsentOrNull(x) && !b)
  }

  ghost function CanonicalForms(): (string, string) -> bool {
    (sent, kept) => Origin.Canonical(sent) == Ok(kept)
  }

  /** 1 to 100 origins, each in its one form; any origin stands alone, and without credentials. */
  ghost predicate OriginsMean(x: Option<Json>, credentials: bool, origins: seq<string>) {
    && TextsMean(x, CanonicalForms(), origins) && 1 <= |origins| <= 100
    && ("*" in origins ==> origins == ["*"] && !credentials)
  }

  ghost function KnownMethods(known: seq<string>): (string, string) -> bool {
    (sent, kept) => kept == Upper(sent) && kept in known
  }

  ghost predicate MethodsMean(x: Option<Json>, known: seq<string>, usual: seq<string>, methods: seq<string>) {
    if TextsSaid(x, []) then methods == usual else TextsMean(x, KnownMethods(known), methods)
  }

  /** At most a day. */
  ghost predicate MaxAgeMeans(x: Option<Json>, maxAge: Option<nat>) {
    match maxAge
    case None => IsAbsentOrNull(x)
    case Some(n) => x == Some(Int(n)) && n <= 24 * 60 * 60
  }

  ghost predicate HeaderNamesMean(x: Option<Json>, names: seq<string>) {
    TextsMean(x, Names(true, []), names) && |names| <= 64
  }

  ghost predicate CorsListsMean(known: seq<string>, usual: seq<string>, v: Json, p: CorsPolicy) {
    && OriginsMean(Part(v, CORS, 0), p.credentials, p.origins)
    && MethodsMean(Part(v, CORS, 1), known, usual, p.methods)
    && HeaderNamesMean(Part(v, CORS, 2), p.headers)
    && HeaderNamesMean(Part(v, CORS, 3), p.exposeHeaders)
  }

  ghost predicate CorsValuesMean(v: Json, p: CorsPolicy) {
    && FlagMeans(Part(v, CORS, 4), p.credentials)
    && MaxAgeMeans(Part(v, CORS, 5), p.maxAge)
    && FlagMeans(Part(v, CORS, 6), p.preflightContinue)
  }

  ghost predicate CorsMeans(known: seq<string>, usual: seq<string>, v: Json, p: CorsPolicy) {
    ObjectOf(v, CORS) && CorsListsMean(known, usual, v, p) && CorsValuesMean(v, p)
  }

  lemma CanonicalFormsDecide()
    ensures Decides(CheckOrigin, CanonicalForms())
  {
    forall sent, kept ensures CheckOrigin(sent) == Ok(kept) <==> CanonicalForms()(sent, kept) {
    }
  }

  lemma {:induction false} AsManyAreRead<A, B>(sent: seq<A>, check: A -> Result<B, At>)
    requires MapAll(sent, check).Ok?
    ensures |MapAll(sent, check).value| == |sent|
  {
    MapAllIff(sent, check, MapAll(sent, check).value);
  }

  lemma AnyOriginAlone(origins: seq<string>, credentials: bool)
    ensures ("*" in origins && (credentials || |origins| > 1)) <==>
            !("*" in origins ==> origins == ["*"] && !credentials)
  {
  }

  lemma {:induction false} OriginsAreRead(x: Option<Json>, credentials: bool, origins: seq<string>)
    ensures ReadOrigins(OrNull(x), credentials) == Ok(origins) <==> OriginsMean(x, credentials, origins)
  {
    var texts := ReadTexts(OrNull(x), One(Origins));
    assert (texts.Ok? && MapAll(texts.value, CheckOrigin) == Ok(origins)) <==>
           TextsMean(x, CanonicalForms(), origins) by {
      CanonicalFormsDecide();
      TextsMeanAsRead(x, One(Origins), CheckOrigin, CanonicalForms(), origins);
    }
    if texts.Ok? && MapAll(texts.value, CheckOrigin).Ok? {
      AsManyAreRead(texts.value, CheckOrigin);
      AnyOriginAlone(origins, credentials);
    }
  }

  lemma {:induction false} MethodsAreRead(
    x: Option<Json>, known: seq<string>, usual: seq<string>, methods: seq<string>)
    ensures ReadMethods(known, usual, OrNull(x)) == Ok(methods) <==> MethodsMean(x, known, usual, methods)
  {
    TextsAreSaid(x, One(Methods), []);
    TextsMeanAsRead(x, One(Methods), CorsPolicies.CheckMethod(known), KnownMethods(known), methods);
  }

  lemma {:induction false} HeaderNamesAreRead(x: Option<Json>, at: At, names: seq<string>)
    ensures ReadHeaderNames(OrNull(x), at) == Ok(names) <==> HeaderNamesMean(x, names)
  {
    assert Decides(CheckCorsHeader(at), Names(true, []));
    TextsMeanAsRead(x, at, CheckCorsHeader(at), Names(true, []), names);
    if ReadTexts(OrNull(x), at).Ok? {
      MapAllIff(ReadTexts(OrNull(x), at).value, CheckCorsHeader(at), names);
    }
  }

  lemma CorsPartsAreFields(v: Json)
    requires v.Obj?
    ensures Field(v, Origins) == OrNull(Part(v, CORS, 0)) && Field(v, Methods) == OrNull(Part(v, CORS, 1))
    ensures Field(v, Headers) == OrNull(Part(v, CORS, 2)) && Field(v, ExposeHeaders) == OrNull(Part(v, CORS, 3))
    ensures Field(v, Credentials) == OrNull(Part(v, CORS, 4)) && Field(v, MaxAge) == OrNull(Part(v, CORS, 5))
    ensures Field(v, PreflightContinue) == OrNull(Part(v, CORS, 6))
  {
  }

  lemma {:induction false} CorsListsAreRead(known: seq<string>, usual: seq<string>, v: Json, p: CorsPolicy)
    requires v.Obj?
    ensures ListsReadAs(known, usual, v, p) <==> CorsListsMean(known, usual, v, p)
  {
    CorsPartsAreFields(v);
    OriginsAreRead(Part(v, CORS, 0), p.credentials, p.origins);
    MethodsAreRead(Part(v, CORS, 1), known, usual, p.methods);
    HeaderNamesAreRead(Part(v, CORS, 2), One(Headers), p.headers);
    HeaderNamesAreRead(Part(v, CORS, 3), One(ExposeHeaders), p.exposeHeaders);
  }

  lemma {:induction false} CorsValuesAreRead(v: Json, p: CorsPolicy)
    requires v.Obj?
    ensures ValuesReadAs(v, p) <==> CorsValuesMean(v, p)
  {
    CorsPartsAreFields(v);
  }

  lemma {:induction false} CorsIsRead(known: seq<string>, usual: seq<string>, v: Json, p: CorsPolicy)
    ensures ReadCors(known, usual, v) == Ok(p) <==> CorsMeans(known, usual, v, p)
  {
    ReadCorsIff(known, usual, v, p);
    assert IsObject(v, IsCors) <==> ObjectOf(v, CORS);
    if v.Obj? {
      CorsListsAreRead(known, usual, v, p);
      CorsValuesAreRead(v, p);
    }
  }

  // Every kind.

  /** The headers that frame a message, which no transformer touches, and the one that says who calls. */
  const UNTOUCHED := [
    "host", "content-length", "transfer-encoding", "connection", "keep-alive", "te", "trailer",
    "upgrade", "proxy-connection"]

  ghost predicate Means(notation: Notation, kind: PolicyKind, v: Json, p: Plugin) {
    match (kind, p)
    case (OfIpRestriction, IpRestriction(q)) => IpRestrictionMeans(notation, v, q)
    case (OfRequestSizeLimit, RequestSizeLimit(n)) => RequestSizeLimitMeans(v, n)
    case (OfRequestTransformer, RequestTransformer(q)) =>
      RequestTransformerMeans(UNTOUCHED + ["x-consumer-username"], v, q)
    case (OfResponseTransformer, ResponseTransformer(e)) => ResponseTransformerMeans(UNTOUCHED, v, e)
    case (OfCors, Cors(q)) =>
      CorsMeans(
        ["GET", "HEAD", "POST", "PUT", "PATCH", "DELETE", "OPTIONS", "CONNECT", "TRACE"],
        ["GET", "HEAD", "PUT", "PATCH", "POST", "DELETE"], v, q)
    case (OfAuth, Auth(q)) => AuthMeans(v, q)
    case (OfAcl, Acl(q)) => AclMeans(v, q)
    case _ => false
  }

  lemma ReadOfItsKind(notation: Notation, kind: PolicyKind, v: Json, p: Plugin)
    ensures Parse(notation, kind, v) == Ok(p) <==>
            match (kind, p)
            case (OfIpRestriction, IpRestriction(q)) => ReadIpRestriction(notation, v) == Ok(q)
            case (OfRequestSizeLimit, RequestSizeLimit(n)) => ReadRequestSizeLimit(v) == Ok(n)
            case (OfRequestTransformer, RequestTransformer(q)) =>
              ReadRequestTransformer(FRAMING + [CONSUMER_HEADER], v) == Ok(q)
            case (OfResponseTransformer, ResponseTransformer(e)) => ReadResponseTransformer(FRAMING, v) == Ok(e)
            case (OfCors, Cors(q)) => ReadCors(Routes.METHODS, CORS_METHODS, v) == Ok(q)
            case (OfAuth, Auth(q)) => ReadAuth(v) == Ok(q)
            case (OfAcl, Acl(q)) => ReadAcl(v) == Ok(q)
            case _ => false
  {
  }

  /** Every value, under every kind, is accepted as exactly what it says. */
  lemma {:induction false} ParsedAsMeant(notation: Notation, kind: PolicyKind, v: Json, p: Plugin)
    ensures Parse(notation, kind, v) == Ok(p) <==> Means(notation, kind, v, p)
  {
    ReadOfItsKind(notation, kind, v, p);
    match (kind, p)
    case (OfIpRestriction, IpRestriction(q)) => IpRestrictionIsRead(notation, v, q);
    case (OfRequestSizeLimit, RequestSizeLimit(n)) => RequestSizeLimitIsRead(v, n);
    case (OfRequestTransformer, RequestTransformer(q)) =>
      RequestTransformerIsRead(FRAMING + [CONSUMER_HEADER], v, q);
    case (OfResponseTransformer, ResponseTransformer(e)) => ResponseTransformerIsRead(FRAMING, v, e);
    case (OfCors, Cors(q)) => CorsIsRead(Routes.METHODS, CORS_METHODS, v, q);
    case (OfAuth, Auth(q)) => AuthIsRead(v, q);
    case (OfAcl, Acl(q)) => AclIsRead(v, q);
    case _ =>
  }
}
