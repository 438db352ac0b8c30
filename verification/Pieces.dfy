/** The pieces a text is split into at a character, said of the places they stand at. */
module Pieces {
  import opened Text

  /** `x` is what stands between two of `at`, or one and an end, or the ends. */
  ghost predicate IsPiece(s: string, at: char, x: string) {
    at !in x && exists a, b :: StandsBetween(s, at, a, x, b)
  }

  predicate StandsBetween(s: string, at: char, a: string, x: string, b: string) {
    s == a + x + b && (a == "" || a[|a| - 1] == at) && (b == "" || b[0] == at)
  }

  lemma {:induction false} SplitIsThere(s: string, at: char, a: string, x: string, b: string)
    requires at !in x && StandsBetween(s, at, a, x, b)
    ensures x in Split(s, at)
    ensures b == "" ==> x == Split(s, at)[|Split(s, at)| - 1]
  {
    var rest := x + b;
    assert x in Split(rest, at) && (b == "" ==> Split(rest, at) == [x]) by {
      SplitWhole(x, at);
      if b == "" {
        assert rest == x;
      } else {
        assert rest == x + [at] + b[1..];
        SplitJoined(x, at, b[1..]);
      }
    }
    if a == "" {
      assert s == rest;
    } else {
      assert s == a[..|a| - 1] + [at] + rest;
      SplitJoined(a[..|a| - 1], at, rest);
    }
  }

  /** A character before a text is before its first piece, or that piece's end. */
  lemma {:induction false} SplitOneMore(c: char, rest: string, at: char)
    ensures
      var pieces, whole := Split(rest, at), Split([c] + rest, at);
      whole == if c == at then [""] + pieces else [[c] + pieces[0]] + pieces[1..]
  {
    assert ([c] + rest)[1..] == rest;
  }

  lemma {:induction false} SplitStands(s: string, at: char, i: nat) returns (a: string, b: string)
    requires i < |Split(s, at)|
    ensures at !in Split(s, at)[i] && StandsBetween(s, at, a, Split(s, at)[i], b)
    ensures (i == 0 <==> a == "") && (i == |Split(s, at)| - 1 <==> b == "")
  {
    a, b := "", "";
    if s != "" {
      var c, rest := s[0], s[1..];
      assert s == [c] + rest;
      SplitOneMore(c, rest, at);
      if c == at && i == 0 {
        b := s;
      } else if c == at {
        a, b := SplitStands(rest, at, i - 1);
        StandsFurther(c, rest, at, a, Split(rest, at)[i - 1], b);
        a := [c] + a;
      } else if i == 0 {
        a, b := SplitStands(rest, at, 0);
        assert s == "" + ([c] + Split(rest, at)[0]) + b;
      } else {
        a, b := SplitStands(rest, at, i);
        StandsFurther(c, rest, at, a, Split(rest, at)[i], b);
        a := [c] + a;
      }
    }
  }

  lemma StandsFurther(c: char, rest: string, at: char, a: string, x: string, b: string)
    requires StandsBetween(rest, at, a, x, b) && (a != "" || c == at)
    ensures StandsBetween([c] + rest, at, [c] + a, x, b)
  {
  }

  /** What holds of the pieces is what holds of everything the text is split into. */
  lemma {:induction false} PiecesAre(s: string, at: char, x: string)
    ensures x in Split(s, at) <==> IsPiece(s, at, x)
  {
    if x in Split(s, at) {
      var i :| 0 <= i < |Split(s, at)| && Split(s, at)[i] == x;
      var a, b := SplitStands(s, at, i);
    }
    if IsPiece(s, at, x) {
      var a, b :| StandsBetween(s, at, a, x, b);
      SplitIsThere(s, at, a, x, b);
    }
  }
}
