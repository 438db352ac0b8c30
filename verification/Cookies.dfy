/**
  Finding one cookie among the `cookie` fields of a request, however an intermediary split them.
*/
module Cookies {
  import opened Sorting
  import opened Text
  import opened Wrappers

  /** `HeaderValue::to_str` succeeds: visible ASCII, spaces and tabs. */
  predicate Readable(field: string) {
    All(field, c => ' ' <= c <= '~' || c == '\t')
  }

  /** What `piece` gives the cookie `name`, when it is that cookie. */
  function ValueIn(piece: string, name: string): Option<string> {
    var trimmed := Trim(piece);
    if name + "=" <= trimmed then Some(trimmed[|name| + 1..]) else None
  }

  /** The values of every piece that is the cookie `name`, in order. */
  function Values(pieces: seq<string>, name: string): seq<string> {
    if pieces == [] then [] else OneOrNone(ValueIn(pieces[0], name)) + Values(pieces[1..], name)
  }

  function OneOrNone(value: Option<string>): seq<string> {
    if value.Some? then [value.value] else []
  }

  /** The pieces of every readable field, in order. */
  function Pieces(fields: seq<string>): seq<string> {
    if fields == [] then []
    else (if Readable(fields[0]) then Split(fields[0], ';') else []) + Pieces(fields[1..])
  }

  /** The one value, when there is exactly one. */
  function Only(values: seq<string>): Option<string> {
    if |values| == 1 then Some(values[0]) else None
  }

  /** Steps the iterator over `pieces` to the next match at or after `start`. */
  method NextMatch(pieces: seq<string>, name: string, start: nat) returns (at: nat)
    requires start <= |pieces|
    ensures start <= at <= |pieces|
    ensures Values(pieces[start..], name) == Values(pieces[at..], name)
    ensures at < |pieces| ==> ValueIn(pieces[at], name).Some?
  {
    at := start;
    while at < |pieces| && ValueIn(pieces[at], name).None?
      invariant start <= at <= |pieces|
      invariant Values(pieces[start..], name) == Values(pieces[at..], name)
    {
      assert pieces[at..][1..] == pieces[at + 1..];
      at := at + 1;
    }
  }

  /** The first match, provided that the iterator then has no second one. */
  method Cookie(fields: seq<string>, name: string) returns (value: Option<string>)
    ensures value == Only(Values(Pieces(fields), name))
  {
    var pieces := Pieces(fields);
    var at := NextMatch(pieces, name, 0);
    assert pieces[0..] == pieces;
    if at == |pieces| {
      return None;
    }
    var second := NextMatch(pieces, name, at + 1);
    assert pieces[at..][1..] == pieces[at + 1..];
    return if second == |pieces| then ValueIn(pieces[at], name) else None;
  }

  lemma {:induction false} ValuesOf(a: seq<string>, b: seq<string>, name: string)
    ensures Values(a + b, name) == Values(a, name) + Values(b, name)
  {
    if a == [] {
      assert a + b == b;
    } else {
      assert (a + b)[0] == a[0] && (a + b)[1..] == a[1..] + b;
      ValuesOf(a[1..], b, name);
      var first, rest, more := OneOrNone(ValueIn(a[0], name)), Values(a[1..], name), Values(b, name);
      assert first + (rest + more) == (first + rest) + more;
    }
  }

  /** A value is found exactly where one piece, and no other, is `name=value`. */
  ghost predicate OneAndOnly(pieces: seq<string>, name: string, value: string) {
    exists i :: 0 <= i < |pieces| && IsTheOne(pieces, name, value, i)
  }

  ghost predicate IsTheOne(pieces: seq<string>, name: string, value: string, i: nat)
    requires i < |pieces|
  {
    && Trim(pieces[i]) == name + "=" + value
    && forall j :: 0 <= j < |pieces| && j != i ==> !(name + "=" <= Trim(pieces[j]))
  }

  lemma {:induction false} NoValues(pieces: seq<string>, name: string)
    ensures Values(pieces, name) == [] <==>
            forall j :: 0 <= j < |pieces| ==> !(name + "=" <= Trim(pieces[j]))
  {
    if pieces != [] {
      NoValues(pieces[1..], name);
      assert forall j :: 1 <= j < |pieces| ==> pieces[j] == pieces[1..][j - 1];
    }
  }

  /** Where the first piece has another name, the rest decides. */
  lemma {:induction false} TheOneIsLater(pieces: seq<string>, name: string, value: string)
    requires pieces != [] && !(name + "=" <= Trim(pieces[0]))
    ensures OneAndOnly(pieces, name, value) <==> OneAndOnly(pieces[1..], name, value)
  {
    var rest := pieces[1..];
    assert forall j :: 1 <= j < |pieces| ==> pieces[j] == rest[j - 1];
    if OneAndOnly(rest, name, value) {
      var i :| 0 <= i < |rest| && IsTheOne(rest, name, value, i);
      assert IsTheOne(pieces, name, value, i + 1);
    }
    if OneAndOnly(pieces, name, value) {
      var i :| 0 <= i < |pieces| && IsTheOne(pieces, name, value, i);
      assert IsTheOne(rest, name, value, i - 1);
    }
  }

  /** Where it has the name, it is the one if no other has. */
  lemma {:induction false} TheOneIsFirst(pieces: seq<string>, name: string, value: string)
    requires pieces != [] && name + "=" <= Trim(pieces[0])
    ensures OneAndOnly(pieces, name, value) <==>
            Trim(pieces[0]) == name + "=" + value && Values(pieces[1..], name) == []
  {
    var rest := pieces[1..];
    NoValues(rest, name);
    assert forall j :: 1 <= j < |pieces| ==> pieces[j] == rest[j - 1];
    assert OneAndOnly(pieces, name, value) <==> IsTheOne(pieces, name, value, 0);
  }

  lemma {:induction false} OneValue(pieces: seq<string>, name: string, value: string)
    ensures Only(Values(pieces, name)) == Some(value) <==> OneAndOnly(pieces, name, value)
  {
    if pieces != [] {
      var trimmed := Trim(pieces[0]);
      if name + "=" <= trimmed {
        TheOneIsFirst(pieces, name, value);
        assert trimmed == name + "=" + trimmed[|name| + 1..];
      } else {
        TheOneIsLater(pieces, name, value);
        OneValue(pieces[1..], name, value);
      }
    }
  }

  // One field or many.

  function Joined(fields: seq<string>): string {
    if fields == [] then "" else if |fields| == 1 then fields[0] else fields[0] + "; " + Joined(fields[1..])
  }

  lemma LeadingSpaceIsTrimmed(piece: string, name: string)
    ensures ValueIn(" " + piece, name) == ValueIn(piece, name)
  {
    assert (" " + piece)[1..] == piece;
  }

  /** A field that continues another after `; ` has the pieces of both, up to one leading space. */
  lemma {:induction false} ContinuedField(a: string, b: string, name: string)
    ensures Values(Split(a + "; " + b, ';'), name) == Values(Split(a, ';') + Split(b, ';'), name)
  {
    assert a + "; " + b == a + [';'] + (" " + b);
    SplitJoined(a, ';', " " + b);
    assert (" " + b)[1..] == b;
    var pieces := Split(b, ';');
    assert Split(" " + b, ';') == [" " + pieces[0]] + pieces[1..];
    LeadingSpaceIsTrimmed(pieces[0], name);
    assert ([" " + pieces[0]] + pieces[1..])[1..] == pieces[1..];
    ValuesOf(Split(a, ';'), Split(" " + b, ';'), name);
    ValuesOf(Split(a, ';'), pieces, name);
  }

  predicate AllReadable(fields: seq<string>) {
    forall i :: 0 <= i < |fields| ==> Readable(fields[i])
  }

  lemma {:induction false} JoinedIsReadable(fields: seq<string>)
    ensures Readable(Joined(fields)) <==> AllReadable(fields)
  {
    if |fields| > 1 {
      JoinedIsReadable(fields[1..]);
      var joined := Joined(fields);
      assert joined[..|fields[0]|] == fields[0];
      assert joined[|fields[0]| + 2..] == Joined(fields[1..]);
      assert fields == [fields[0]] + fields[1..];
    }
  }

  lemma {:induction false} ReadableFieldsJoin(fields: seq<string>, name: string)
    requires AllReadable(fields)
    ensures Values(Pieces(fields), name) == Values(Pieces([Joined(fields)]), name)
  {
    JoinedIsReadable(fields);
    assert Pieces([Joined(fields)]) == Split(Joined(fields), ';');
    if |fields| == 1 {
      assert fields == [Joined(fields)];
    } else if |fields| > 1 {
      var rest := fields[1..];
      ReadableFieldsJoin(rest, name);
      JoinedIsReadable(rest);
      assert Pieces([Joined(rest)]) == Split(Joined(rest), ';');
      ContinuedField(fields[0], Joined(rest), name);
      ValuesOf(Split(fields[0], ';'), Pieces(rest), name);
      ValuesOf(Split(fields[0], ';'), Split(Joined(rest), ';'), name);
    }
  }

  lemma {:induction false} UnreadableFieldsAreSkipped(fields: seq<string>)
    ensures Pieces(fields) == Pieces(Filter(fields, Readable))
    ensures AllReadable(Filter(fields, Readable))
    ensures AllReadable(fields) ==> Filter(fields, Readable) == fields
  {
    if fields != [] {
      var rest := Filter(fields[1..], Readable);
      UnreadableFieldsAreSkipped(fields[1..]);
      assert fields == [fields[0]] + fields[1..];
      assert ([fields[0]] + rest)[1..] == rest;
      if Readable(fields[0]) {
        assert Filter(fields, Readable) == [fields[0]] + rest;
      } else {
        assert Filter(fields, Readable) == rest;
        assert Pieces(fields) == Pieces(fields[1..]);
      }
    }
  }

  /** However a request's cookies are split over fields, the cookies found are those of the one field
      that the readable ones would be joined into (section 8.2.3 of RFC 9113). */
  lemma {:induction false} SplittingChangesNothing(fields: seq<string>, name: string)
    ensures Values(Pieces(fields), name) == Values(Pieces([Joined(Filter(fields, Readable))]), name)
  {
    UnreadableFieldsAreSkipped(fields);
    ReadableFieldsJoin(Filter(fields, Readable), name);
  }

  /** Split, an unreadable field is lost alone; joined, it takes every cookie with it. So what
      `cookie` answers for the split fields and for the joined one is the same exactly if every
      field is readable or the split ones have no one value. */
  lemma {:induction false} JoiningAgreesIff(fields: seq<string>, name: string)
    ensures !AllReadable(fields) ==> Only(Values(Pieces([Joined(fields)]), name)) == None
    ensures Only(Values(Pieces(fields), name)) == Only(Values(Pieces([Joined(fields)]), name)) <==>
            AllReadable(fields) || Only(Values(Pieces(fields), name)) == None
  {
    JoinedIsReadable(fields);
    if AllReadable(fields) {
      ReadableFieldsJoin(fields, name);
    } else {
      assert Pieces([Joined(fields)]) == [];
    }
  }

  /** `cookie` answers a value exactly when one and only one piece of all the fields gives it. */
  lemma {:induction false} CookieMeans(fields: seq<string>, name: string, value: string)
    ensures Only(Values(Pieces(fields), name)) == Some(value) <==> OneAndOnly(Pieces(fields), name, value)
  {
    OneValue(Pieces(fields), name, value);
  }
}
