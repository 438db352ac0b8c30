/** The policies that edit a request's headers and query or a response's headers. */
module Transformers {
  import opened Json
  import opened PolicyFields
  import opened Text
  import opened Wrappers

  const MAX_EDITS := 64
  const MAX_VALUE_CHARS := 4096

  datatype Edits = Edits(
    remove: seq<string>, rename: seq<(string, string)>, replace: seq<(string, string)>,
    add: seq<(string, string)>, append: seq<(string, string)>)

  datatype RequestTransformerPolicy = RequestTransformerPolicy(headers: Edits, query: Edits)

  predicate IsList(k: Key) {
    k.Remove? || k.Rename? || k.Replace? || k.Add? || k.Append?
  }

  function Size(e: Edits): nat {
    |e.remove| + |e.rename| + |e.replace| + |e.add| + |e.append|
  }

  const NO_EDITS := Edits([], [], [], [], [])

  /** A name an edit may use: of a header, lowercased, or of a query parameter. */
  function CheckName(header: bool, refused: seq<string>, at: At): string -> Result<string, At> {
    name =>
      if !(1 <= |name| <= MAX_NAME_CHARS) || (header && !AllTokens(name)) then Err(at)
      else
        var kept := if header then Lower(name) else name;
        if kept in refused then Err(at) else Ok(kept)
  }

  function CheckValue(header: bool, at: At): string -> Result<string, At> {
    value =>
      if |value| > MAX_VALUE_CHARS || (header && !All(value, c => c == '\t' || ' ' <= c <= '~')) then Err(at)
      else Ok(value)
  }

  function CheckPair(first: string -> Result<string, At>, second: string -> Result<string, At>)
    : ((string, string)) -> Result<(string, string), At>
  {
    (pair: (string, string)) =>
      match first(pair.0)
      case Err(e) => Err(e)
      case Ok(a) =>
        match second(pair.1)
        case Err(e) => Err(e)
        case Ok(b) => Ok((a, b))
  }

  /** Edits of their lists, or the first refusal among them. */
  function EditsOf(
    remove: Result<seq<string>, At>, rename: Result<seq<(string, string)>, At>,
    replace: Result<seq<(string, string)>, At>, add: Result<seq<(string, string)>, At>,
    append: Result<seq<(string, string)>, At>): Result<Edits, At>
  {
    var remove :- remove;
    var rename :- rename;
    var replace :- replace;
    var add :- add;
    var append :- append;
    Ok(Edits(remove, rename, replace, add, append))
  }

  function ReadEdits(section: Key, header: bool, refused: seq<string>, v: Json): Result<Edits, At> {
    if v.Null? then Ok(NO_EDITS)
    else if !IsObject(v, IsList) then Err(One(section))
    else
      EditsOf(
        ReadRemoves(section, header, refused, Field(v, Remove)),
        ReadRenames(section, header, refused, Field(v, Rename)),
        ReadWritten(section, header, refused, Replace, Field(v, Replace)),
        ReadWritten(section, header, refused, Add, Field(v, Add)),
        ReadWritten(section, header, refused, Append, Field(v, Append)))
  }

  function ReadRemoves(section: Key, header: bool, refused: seq<string>, v: Json): Result<seq<string>, At> {
    var names :- ReadTexts(v, Dotted(section, Remove));
    MapAll(names, CheckName(header, refused, Dotted(section, Remove)))
  }

  function ReadRenames(section: Key, header: bool, refused: seq<string>, v: Json)
    : Result<seq<(string, string)>, At>
  {
    var name := CheckName(header, refused, Dotted(section, Rename));
    var pairs :- ReadPairs(v, Dotted(section, Rename));
    MapAll(pairs, CheckPair(name, name))
  }

  function ReadWritten(section: Key, header: bool, refused: seq<string>, op: Key, v: Json)
    : Result<seq<(string, string)>, At>
  {
    var at := Dotted(section, op);
    var pairs :- ReadPairs(v, at);
    MapAll(pairs, CheckPair(CheckName(header, refused, at), CheckValue(header, at)))
  }

  /** A transformer edits something, and not too much; a section over the bound on its own is
      named. */
  function Counted(headers: Edits, query: Edits): Option<At> {
    if Size(headers) + Size(query) == 0 then Some(One(Headers))
    else if Size(headers) > MAX_EDITS then Some(One(Headers))
    else if Size(query) > MAX_EDITS then Some(One(Query))
    else if Size(headers) + Size(query) > MAX_EDITS then Some(Config)
    else None
  }

  predicate IsSection(k: Key) {
    k.Headers? || k.Query?
  }

  predicate IsHeaders(k: Key) {
    k.Headers?
  }

  function ReadRequestTransformer(refused: seq<string>, v: Json): Result<RequestTransformerPolicy, At> {
    if !IsObject(v, IsSection) then Err(Config)
    else
      var headers :- ReadEdits(Headers, true, refused, Field(v, Headers));
      var query :- ReadEdits(Query, false, [], Field(v, Query));
      if Counted(headers, query).Some? then Err(Counted(headers, query).value)
      else Ok(RequestTransformerPolicy(headers, query))
  }

  function ReadResponseTransformer(refused: seq<string>, v: Json): Result<Edits, At> {
    if !IsObject(v, IsHeaders) then Err(Config)
    else
      var headers :- ReadEdits(Headers, true, refused, Field(v, Headers));
      if Counted(headers, NO_EDITS).Some? then Err(Counted(headers, NO_EDITS).value) else Ok(headers)
  }

  /** What is written of one list of edits. */
  function EditsField(e: Edits): Key -> Option<Json> {
    (key: Key) =>
      match key
      case Remove => SomeTexts(e.remove)
      case Rename => SomePairs(e.rename)
      case Replace => SomePairs(e.replace)
      case Add => SomePairs(e.add)
      case Append => SomePairs(e.append)
      case _ => None
  }

  function SomeEdits(e: Edits): Option<Json> {
    if Size(e) == 0 then None else Some(Obj(Fields(EditsField(e))))
  }

  lemma NamesSettle(header: bool, refused: seq<string>, at: At)
    ensures Settles(CheckName(header, refused, at))
  {
    forall name | CheckName(header, refused, at)(name).Ok?
      ensures CheckName(header, refused, at)(CheckName(header, refused, at)(name).value) ==
              CheckName(header, refused, at)(name)
    {
      if header {
        LowerKeepsTokens(name);
      }
    }
  }

  lemma PairsSettle(first: string -> Result<string, At>, second: string -> Result<string, At>)
    requires Settles(first) && Settles(second)
    ensures Settles(CheckPair(first, second))
  {
    var check := CheckPair(first, second);
    forall pair | check(pair).Ok? ensures check(check(pair).value) == check(pair) {
      assert first(first(pair.0).value) == first(pair.0);
      assert second(second(pair.1).value) == second(pair.1);
    }
  }

  lemma WrittenSettle(header: bool, refused: seq<string>, at: At)
    ensures Settles(CheckPair(CheckName(header, refused, at), CheckValue(header, at)))
  {
    NamesSettle(header, refused, at);
    PairsSettle(CheckName(header, refused, at), CheckValue(header, at));
  }

  lemma {:induction false} RenamesReadBack(section: Key, header: bool, refused: seq<string>, v: Json)
    requires ReadRenames(section, header, refused, v).Ok?
    ensures
      var pairs := ReadRenames(section, header, refused, v).value;
      ReadRenames(section, header, refused, OrNull(SomePairs(pairs))) == Ok(pairs)
  {
    var name := CheckName(header, refused, Dotted(section, Rename));
    NamesSettle(header, refused, Dotted(section, Rename));
    PairsSettle(name, name);
    MapAllSettles(ReadPairs(v, Dotted(section, Rename)).value, CheckPair(name, name));
    PairsReadBack(ReadRenames(section, header, refused, v).value);
  }

  lemma {:induction false} WrittenReadsBack(section: Key, header: bool, refused: seq<string>, op: Key, v: Json)
    requires ReadWritten(section, header, refused, op, v).Ok?
    ensures
      var pairs := ReadWritten(section, header, refused, op, v).value;
      ReadWritten(section, header, refused, op, OrNull(SomePairs(pairs))) == Ok(pairs)
  {
    var at := Dotted(section, op);
    var check := CheckPair(CheckName(header, refused, at), CheckValue(header, at));
    WrittenSettle(header, refused, at);
    MapAllSettles(ReadPairs(v, at).value, check);
    PairsReadBack(ReadWritten(section, header, refused, op, v).value);
  }

  lemma {:induction false} RemovesReadBack(section: Key, header: bool, refused: seq<string>, v: Json)
    requires ReadRemoves(section, header, refused, v).Ok?
    ensures
      var names := ReadRemoves(section, header, refused, v).value;
      ReadRemoves(section, header, refused, OrNull(SomeTexts(names))) == Ok(names)
  {
    var at := Dotted(section, Remove);
    NamesSettle(header, refused, at);
    MapAllSettles(ReadTexts(v, at).value, CheckName(header, refused, at));
    TextsReadBack(ReadRemoves(section, header, refused, v).value);
  }

  /** `c` is an object of the lists of `e` that hold something. */
  predicate Lists(c: Json, e: Edits) {
    && IsObject(c, IsList)
    && Look(c, Remove) == SomeTexts(e.remove)
    && Look(c, Rename) == SomePairs(e.rename)
    && Look(c, Replace) == SomePairs(e.replace)
    && Look(c, Add) == SomePairs(e.add)
    && Look(c, Append) == SomePairs(e.append)
  }

  /** The edits of a section, written and read again, are the same edits. */
  lemma {:induction false} EditsReadBack(section: Key, header: bool, refused: seq<string>, v: Json, c: Json)
    requires v.Obj? && ReadEdits(section, header, refused, v).Ok?
    requires Lists(c, ReadEdits(section, header, refused, v).value)
    ensures ReadEdits(section, header, refused, c) == ReadEdits(section, header, refused, v)
  {
    RemovesReadBack(section, header, refused, Field(v, Remove));
    RenamesReadBack(section, header, refused, Field(v, Rename));
    WrittenReadsBack(section, header, refused, Replace, Field(v, Replace));
    WrittenReadsBack(section, header, refused, Add, Field(v, Add));
    WrittenReadsBack(section, header, refused, Append, Field(v, Append));
  }

  lemma HeldEditsAreListed(c: Json, e: Edits)
    requires Holds(c, EditsField(e))
    ensures Lists(c, e)
  {
    forall k | k in c.fields ensures IsList(k) {
      assert Look(c, k) == EditsField(e)(k);
    }
  }

  lemma EditsAreListed(e: Edits)
    requires Size(e) > 0
    ensures Lists(SomeEdits(e).value, e)
  {
    FieldsHold(EditsField(e));
    HeldEditsAreListed(SomeEdits(e).value, e);
  }

  lemma {:induction false} SomeEditsReadBack(section: Key, header: bool, refused: seq<string>, v: Json)
    requires ReadEdits(section, header, refused, v).Ok?
    ensures
      var e := ReadEdits(section, header, refused, v).value;
      ReadEdits(section, header, refused, OrNull(SomeEdits(e))) == Ok(e)
  {
    var e := ReadEdits(section, header, refused, v).value;
    if Size(e) == 0 {
      assert e == NO_EDITS;
    } else {
      EditsAreListed(e);
      EditsReadBack(section, header, refused, v, SomeEdits(e).value);
    }
  }

  /** `c` is an object of the sections that edit something. */
  predicate ShowsRequest(c: Json, p: RequestTransformerPolicy) {
    && IsObject(c, IsSection)
    && Look(c, Headers) == SomeEdits(p.headers)
    && Look(c, Query) == SomeEdits(p.query)
  }

  predicate ShowsResponse(c: Json, e: Edits) {
    IsObject(c, IsHeaders) && Look(c, Headers) == SomeEdits(e)
  }

  lemma {:induction false} RequestTransformerReadsBack(
    refused: seq<string>, v: Json, p: RequestTransformerPolicy, c: Json)
    requires ReadRequestTransformer(refused, v) == Ok(p) && ShowsRequest(c, p)
    ensures ReadRequestTransformer(refused, c) == Ok(p)
  {
    SomeEditsReadBack(Headers, true, refused, Field(v, Headers));
    SomeEditsReadBack(Query, false, [], Field(v, Query));
  }

  lemma {:induction false} ResponseTransformerReadsBack(refused: seq<string>, v: Json, e: Edits, c: Json)
    requires ReadResponseTransformer(refused, v) == Ok(e) && ShowsResponse(c, e)
    ensures ReadResponseTransformer(refused, c) == Ok(e)
  {
    var headers := Field(v, Headers);
    assert ReadEdits(Headers, true, refused, headers) == Ok(e);
    SomeEditsReadBack(Headers, true, refused, headers);
    assert ReadEdits(Headers, true, refused, Field(c, Headers)) == Ok(e);
  }

  // What an accepted policy may hold.

  /** A name that may be edited, as it is stored. */
  predicate NameIsOk(header: bool, refused: seq<string>, name: string) {
    && 1 <= |name| <= MAX_NAME_CHARS
    && name !in refused
    && (header ==> AllTokens(name) && Lower(name) == name)
  }

  /** A value that may be written: in a header, nothing that could end its line. */
  predicate ValueIsOk(header: bool, value: string) {
    |value| <= MAX_VALUE_CHARS && (header ==> All(value, c => c == '\t' || ' ' <= c <= '~'))
  }

  predicate WrittenAreOk(header: bool, refused: seq<string>, pairs: seq<(string, string)>) {
    forall i :: 0 <= i < |pairs| ==> NameIsOk(header, refused, pairs[i].0) && ValueIsOk(header, pairs[i].1)
  }

  predicate EditsAreOk(header: bool, refused: seq<string>, e: Edits) {
    && (forall i :: 0 <= i < |e.remove| ==> NameIsOk(header, refused, e.remove[i]))
    && (forall i :: 0 <= i < |e.rename| ==>
          NameIsOk(header, refused, e.rename[i].0) && NameIsOk(header, refused, e.rename[i].1))
    && WrittenAreOk(header, refused, e.replace)
    && WrittenAreOk(header, refused, e.add)
    && WrittenAreOk(header, refused, e.append)
  }

  lemma CheckedNameIsOk(header: bool, refused: seq<string>, at: At, name: string)
    requires CheckName(header, refused, at)(name).Ok?
    ensures NameIsOk(header, refused, CheckName(header, refused, at)(name).value)
  {
    if header {
      LowerKeepsTokens(name);
    }
  }

  lemma {:induction false} RemovedAreOk(section: Key, header: bool, refused: seq<string>, v: Json)
    requires ReadRemoves(section, header, refused, v).Ok?
    ensures forall i :: 0 <= i < |ReadRemoves(section, header, refused, v).value| ==>
                          NameIsOk(header, refused, ReadRemoves(section, header, refused, v).value[i])
  {
    var at := Dotted(section, Remove);
    var names, out := ReadTexts(v, at).value, ReadRemoves(section, header, refused, v).value;
    MapAllIff(names, CheckName(header, refused, at), out);
    forall i | 0 <= i < |out| ensures NameIsOk(header, refused, out[i]) {
      CheckedNameIsOk(header, refused, at, names[i]);
    }
  }

  lemma {:induction false} RenamedAreOk(section: Key, header: bool, refused: seq<string>, v: Json)
    requires ReadRenames(section, header, refused, v).Ok?
    ensures
      var pairs := ReadRenames(section, header, refused, v).value;
      forall i :: 0 <= i < |pairs| ==> NameIsOk(header, refused, pairs[i].0) && NameIsOk(header, refused, pairs[i].1)
  {
    var at := Dotted(section, Rename);
    var name := CheckName(header, refused, at);
    var pairs, out := ReadPairs(v, at).value, ReadRenames(section, header, refused, v).value;
    MapAllIff(pairs, CheckPair(name, name), out);
    forall i | 0 <= i < |out| ensures NameIsOk(header, refused, out[i].0) && NameIsOk(header, refused, out[i].1) {
      CheckedNameIsOk(header, refused, at, pairs[i].0);
      CheckedNameIsOk(header, refused, at, pairs[i].1);
    }
  }

  lemma {:induction false} WrittenIsOk(section: Key, header: bool, refused: seq<string>, op: Key, v: Json)
    requires ReadWritten(section, header, refused, op, v).Ok?
    ensures WrittenAreOk(header, refused, ReadWritten(section, header, refused, op, v).value)
  {
    var at := Dotted(section, op);
    var check := CheckPair(CheckName(header, refused, at), CheckValue(header, at));
    var pairs, out := ReadPairs(v, at).value, ReadWritten(section, header, refused, op, v).value;
    MapAllIff(pairs, check, out);
    forall i | 0 <= i < |out| ensures NameIsOk(header, refused, out[i].0) && ValueIsOk(header, out[i].1) {
      assert check(pairs[i]) == Ok(out[i]);
      CheckedNameIsOk(header, refused, at, pairs[i].0);
    }
  }

  /** No accepted edit names a refused header in any list, and none writes a value that could break
      out of its line. */
  lemma {:induction false} AcceptedEditsAreOk(section: Key, header: bool, refused: seq<string>, v: Json)
    requires ReadEdits(section, header, refused, v).Ok?
    ensures EditsAreOk(header, refused, ReadEdits(section, header, refused, v).value)
  {
    if v.Obj? {
      RemovedAreOk(section, header, refused, Field(v, Remove));
      RenamedAreOk(section, header, refused, Field(v, Rename));
      WrittenIsOk(section, header, refused, Replace, Field(v, Replace));
      WrittenIsOk(section, header, refused, Add, Field(v, Add));
      WrittenIsOk(section, header, refused, Append, Field(v, Append));
    }
  }

  /** An accepted request transformer edits something, at most 64 things, and each of them may be. */
  lemma {:induction false} AcceptedTransformerIsOk(refused: seq<string>, v: Json, p: RequestTransformerPolicy)
    requires ReadRequestTransformer(refused, v) == Ok(p)
    ensures EditsAreOk(true, refused, p.headers) && EditsAreOk(false, [], p.query)
    ensures 1 <= Size(p.headers) + Size(p.query) <= MAX_EDITS
  {
    AcceptedEditsAreOk(Headers, true, refused, Field(v, Headers));
    AcceptedEditsAreOk(Query, false, [], Field(v, Query));
  }
}
