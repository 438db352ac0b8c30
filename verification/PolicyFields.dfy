/** What the readers of every policy kind share: the field a refusal names, and lists of entries
    that are checked one by one. */
module PolicyFields {
  import opened Json
  import opened Text
  import opened Wrappers

  /** The field a refusal names: the whole configuration, one field, or one list of a section. */
  datatype At = Config | One(key: Key) | Dotted(section: Key, op: Key)

  const MAX_NAME_CHARS := 256

  /** Every entry checked in turn, up to the first refusal. */
  function MapAll<A, B>(items: seq<A>, check: A -> Result<B, At>): Result<seq<B>, At> {
    if items == [] then Ok([])
    else
      var first :- check(items[0]);
      var rest :- MapAll(items[1..], check);
      Ok([first] + rest)
  }

  /** An accepted list holds what each entry is checked to, in order; a list of entries that are
      each checked to something is accepted. */
  lemma {:induction false} MapAllIff<A, B>(items: seq<A>, check: A -> Result<B, At>, out: seq<B>)
    ensures MapAll(items, check) == Ok(out) <==>
            |items| == |out| && forall i :: 0 <= i < |items| ==> check(items[i]) == Ok(out[i])
  {
    if items == [] {
    } else if out == [] {
      assert MapAll(items, check) != Ok(out);
    } else {
      MapAllIff(items[1..], check, out[1..]);
      assert out == [out[0]] + out[1..];
      if |items| == |out| {
        assert forall i :: 0 <= i < |items| - 1 ==> items[1..][i] == items[i + 1] && out[1..][i] == out[i + 1];
        assert forall i :: 1 <= i < |items| ==> items[i] == items[1..][i - 1] && out[i] == out[1..][i - 1];
      }
    }
  }

  /** A check whose results it leaves alone. */
  ghost predicate Settles<T(!new)>(check: T -> Result<T, At>) {
    forall t :: check(t).Ok? ==> check(check(t).value) == check(t)
  }

  lemma {:induction false} MapAllSettles<T(!new)>(items: seq<T>, check: T -> Result<T, At>)
    requires Settles(check) && MapAll(items, check).Ok?
    ensures MapAll(MapAll(items, check).value, check) == MapAll(items, check)
    ensures |MapAll(items, check).value| == |items|
  {
    var out := MapAll(items, check).value;
    MapAllIff(items, check, out);
    MapAllIff(out, check, out);
  }

  /** A list at `at`, empty when it is null. */
  function ReadTexts(v: Json, at: At): Result<seq<string>, At> {
    if v.Null? then Ok([]) else if Texts(v).Some? then Ok(Texts(v).value) else Err(at)
  }

  function ReadPairs(v: Json, at: At): Result<seq<(string, string)>, At> {
    if v.Null? then Ok([]) else if Pairs(v).Some? then Ok(Pairs(v).value) else Err(at)
  }

  predicate AllTokens(name: string) {
    All(name, IsTokenChar)
  }

  lemma LowerKeepsTokens(name: string)
    requires AllTokens(name)
    ensures AllTokens(Lower(name)) && Lower(Lower(name)) == Lower(name)
  {
    LowerIsLower(name);
  }
}
