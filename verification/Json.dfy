/** JSON values, and how records, lists and pairs are read from them and written to them. */
module Json {
  import opened Wrappers

  /** The field names policies read, and every other one. */
  datatype Key =
    | Kind | Allow | Deny | Anonymous | Workspace | MaxBytes | Headers | Query
    | Remove | Rename | Replace | Add | Append
    | Origins | Methods | ExposeHeaders | Credentials | MaxAge | PreflightContinue
    | Other(name: string)

  datatype Json =
    | Null
    | Bool(b: bool)
    | Int(n: int)
    | Float(x: real)
    | Str(text: string)
    | Arr(items: seq<Json>)
    | Obj(fields: map<Key, Json>)

  /** An object with no fields but those. */
  predicate IsObject(v: Json, known: Key -> bool) {
    v.Obj? && forall k :: k in v.fields ==> known(k)
  }

  /** A record of `n` fields is also read from an array of them in order, of which the last may be
      left out, where nothing asks for an object. */
  predicate IsRecord(v: Json, known: Key -> bool, n: nat) {
    IsObject(v, known) || (v.Arr? && |v.items| <= n)
  }

  /** The field `key` of a record, the `i`-th in its order. */
  function FieldAt(v: Json, key: Key, i: nat): Option<Json>
    requires v.Obj? || v.Arr?
  {
    if v.Obj? then Look(v, key) else if i < |v.items| then Some(v.items[i]) else None
  }

  function Look(v: Json, key: Key): Option<Json>
    requires v.Obj?
  {
    if key in v.fields then Some(v.fields[key]) else None
  }

  /** A field of an object, null when it is not there. */
  function Field(v: Json, key: Key): Json
    requires v.Obj?
  {
    OrNull(Look(v, key))
  }

  function OrNull(v: Option<Json>): Json {
    if v.Some? then v.value else Null
  }

  const KEYS := [
    Kind, Allow, Deny, Anonymous, Workspace, MaxBytes, Headers, Query, Remove, Rename, Replace, Add,
    Append, Origins, Methods, ExposeHeaders, Credentials, MaxAge, PreflightContinue]

  /** The fields among the first `n` keys that are not left out. */
  function FieldsAmong(keys: seq<Key>, n: nat, value: Key -> Option<Json>): map<Key, Json>
    requires n <= |keys|
  {
    if n == 0 then map[]
    else
      var rest, key := FieldsAmong(keys, n - 1, value), keys[n - 1];
      if value(key).Some? then rest[key := value(key).value] else rest
  }

  /** The fields of a record that are not left out. */
  function Fields(value: Key -> Option<Json>): map<Key, Json> {
    FieldsAmong(KEYS, |KEYS|, value)
  }

  lemma {:induction false} FieldsAmongHold(keys: seq<Key>, n: nat, value: Key -> Option<Json>)
    requires n <= |keys|
    ensures forall k :: k in FieldsAmong(keys, n, value) <==> k in keys[..n] && value(k).Some?
    ensures forall k :: k in FieldsAmong(keys, n, value) ==> FieldsAmong(keys, n, value)[k] == value(k).value
  {
    if n > 0 {
      FieldsAmongHold(keys, n - 1, value);
      assert keys[..n] == keys[..n - 1] + [keys[n - 1]];
    }
  }

  lemma EveryKey(k: Key)
    ensures k.Other? || k in KEYS
  {
  }

  /** `v` is an object of exactly the fields `value` gives. */
  ghost predicate Holds(v: Json, value: Key -> Option<Json>) {
    v.Obj? && forall k :: Look(v, k) == value(k)
  }

  lemma {:induction false} FieldsHold(value: Key -> Option<Json>)
    requires forall k: Key :: k.Other? ==> value(k).None?
    ensures Holds(Obj(Fields(value)), value)
  {
    forall k ensures Look(Obj(Fields(value)), k) == value(k) {
      EveryKey(k);
      FieldsAmongHold(KEYS, |KEYS|, value);
      assert KEYS[..|KEYS|] == KEYS;
    }
  }

  // Lists.

  /** A list of text. */
  function Texts(v: Json): Option<seq<string>> {
    if v.Arr? && forall i :: 0 <= i < |v.items| ==> v.items[i].Str?
    then Some(seq(|v.items|, i requires 0 <= i < |v.items| && v.items[i].Str? => v.items[i].text))
    else None
  }

  function OfTexts(texts: seq<string>): Json {
    Arr(seq(|texts|, i requires 0 <= i < |texts| => Str(texts[i])))
  }

  lemma TextsReadBack(texts: seq<string>)
    ensures Texts(OfTexts(texts)) == Some(texts)
  {
    var items := OfTexts(texts).items;
    assert forall i :: 0 <= i < |items| ==> items[i] == Str(texts[i]);
    assert Texts(OfTexts(texts)).value == texts;
  }

  predicate IsPair(v: Json) {
    v.Arr? && |v.items| == 2 && v.items[0].Str? && v.items[1].Str?
  }

  /** A list of pairs of text. */
  function Pairs(v: Json): Option<seq<(string, string)>> {
    if v.Arr? && forall i :: 0 <= i < |v.items| ==> IsPair(v.items[i])
    then
      Some(seq(|v.items|, i requires 0 <= i < |v.items| && IsPair(v.items[i]) =>
               (v.items[i].items[0].text, v.items[i].items[1].text)))
    else None
  }

  function OfPairs(pairs: seq<(string, string)>): Json {
    Arr(seq(|pairs|, i requires 0 <= i < |pairs| => Arr([Str(pairs[i].0), Str(pairs[i].1)])))
  }

  lemma PairsReadBack(pairs: seq<(string, string)>)
    ensures Pairs(OfPairs(pairs)) == Some(pairs)
  {
    var items := OfPairs(pairs).items;
    assert forall i :: 0 <= i < |items| ==> items[i] == Arr([Str(pairs[i].0), Str(pairs[i].1)]);
    assert Pairs(OfPairs(pairs)).value == pairs;
  }

  /** A list written only when it is not empty. */
  function SomeTexts(texts: seq<string>): Option<Json> {
    if texts == [] then None else Some(OfTexts(texts))
  }

  function SomePairs(pairs: seq<(string, string)>): Option<Json> {
    if pairs == [] then None else Some(OfPairs(pairs))
  }
}
