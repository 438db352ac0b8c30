/**
  The Gateway API duration format (GEP-2257): `([0-9]{1,5}(h|m|s|ms)){1,4}`, read into
  milliseconds.
*/
module Duration {
  import opened Decimal
  import opened Text
  import opened Wrappers

  const U64_MAX: nat := 0xffff_ffff_ffff_ffff

  datatype Unit = H | M | S | Ms

  /** One number and its unit. */
  datatype Component = Component(digits: string, unit: Unit)

  function UnitText(u: Unit): string {
    match u
    case H => "h"
    case M => "m"
    case S => "s"
    case Ms => "ms"
  }

  function UnitMillis(u: Unit): nat {
    match u
    case H => 3_600_000
    case M => 60_000
    case S => 1_000
    case Ms => 1
  }

  predicate WellFormed(c: Component) {
    1 <= |c.digits| <= 5 && AllDigits(c.digits)
  }

  predicate AllWellFormed(cs: seq<Component>) {
    forall i :: 0 <= i < |cs| ==> WellFormed(cs[i])
  }

  function Print(cs: seq<Component>): string {
    if cs == [] then "" else cs[0].digits + UnitText(cs[0].unit) + Print(cs[1..])
  }

  function Sum(cs: seq<Component>): nat
    requires AllWellFormed(cs)
  {
    if cs == [] then 0 else Value(cs[0].digits) * UnitMillis(cs[0].unit) + Sum(cs[1..])
  }

  /** `s` is one to four well-formed components, `cs`, written one after another. */
  ghost predicate Spells(s: string, cs: seq<Component>) {
    1 <= |cs| <= 4 && AllWellFormed(cs) && s == Print(cs)
  }

  /** How many digits `s` starts with. */
  function DigitsEnd(s: string): (n: nat)
    ensures n <= |s|
    ensures AllDigits(s[..n])
    ensures n < |s| ==> !IsDigit(s[n])
  {
    if s == [] || !IsDigit(s[0]) then 0
    else
      var n := DigitsEnd(s[1..]);
      assert s[..n + 1] == [s[0]] + s[1..][..n];
      n + 1
  }

  /** The unit `s` starts with, `ms` before `m`. */
  function UnitAt(s: string): Option<Unit> {
    if "ms" <= s then Some(Ms)
    else if "h" <= s then Some(H)
    else if "m" <= s then Some(M)
    else if "s" <= s then Some(S)
    else None
  }

  /** The component `s` starts with. */
  function First(s: string): Option<Component> {
    var n := DigitsEnd(s);
    if n == 0 || n > 5 || UnitAt(s[n..]).None? then None
    else Some(Component(s[..n], UnitAt(s[n..]).value))
  }

  function Length(c: Component): nat {
    |c.digits| + |UnitText(c.unit)|
  }

  lemma {:induction false} FirstIsThere(s: string)
    requires First(s).Some?
    ensures WellFormed(First(s).value) && 0 < Length(First(s).value) <= |s|
    ensures s == First(s).value.digits + UnitText(First(s).value.unit) + s[Length(First(s).value)..]
  {
  }

  lemma {:induction false} DigitsEndIs(digits: string, rest: string)
    requires AllDigits(digits) && (rest == [] || !IsDigit(rest[0]))
    ensures DigitsEnd(digits + rest) == |digits|
  {
    if digits == [] {
      assert digits + rest == rest;
    } else {
      assert (digits + rest)[1..] == digits[1..] + rest;
      DigitsEndIs(digits[1..], rest);
    }
  }

  lemma {:induction false} UnitReadsBack(u: Unit, rest: string)
    requires rest == [] || IsDigit(rest[0])
    ensures UnitAt(UnitText(u) + rest) == Some(u)
  {
    var s := UnitText(u) + rest;
    assert |s| >= 2 ==> s[1] == if u.Ms? then 's' else rest[0];
    assert s[0] == UnitText(u)[0];
  }

  /** A component is read back from its text, whatever digits follow: no component after `m` begins
      with the `s` that would make it `ms`. */
  lemma {:induction false} FirstReadsBack(c: Component, rest: string)
    requires WellFormed(c) && (rest == [] || IsDigit(rest[0]))
    ensures First(c.digits + UnitText(c.unit) + rest) == Some(c)
  {
    var s := c.digits + UnitText(c.unit) + rest;
    var tail := UnitText(c.unit) + rest;
    assert s == c.digits + tail;
    DigitsEndIs(c.digits, tail);
    assert s[|c.digits|..] == tail;
    assert s[..|c.digits|] == c.digits;
    UnitReadsBack(c.unit, rest);
  }

  lemma {:induction false} PrintStartsWithDigit(cs: seq<Component>)
    requires AllWellFormed(cs)
    ensures Print(cs) == [] || IsDigit(Print(cs)[0])
  {
    if cs != [] {
      assert Print(cs)[0] == cs[0].digits[0];
    }
  }

  /** A text is spelled in one way at most, despite `m` and `ms`. */
  lemma {:induction false} SpellingIsUnique(cs: seq<Component>, ds: seq<Component>)
    requires AllWellFormed(cs) && AllWellFormed(ds) && Print(cs) == Print(ds)
    ensures cs == ds
  {
    if cs != [] && ds != [] {
      PrintStartsWithDigit(cs[1..]);
      PrintStartsWithDigit(ds[1..]);
      FirstReadsBack(cs[0], Print(cs[1..]));
      FirstReadsBack(ds[0], Print(ds[1..]));
      assert Print(cs)[Length(cs[0])..] == Print(cs[1..]);
      assert Print(ds)[Length(ds[0])..] == Print(ds[1..]);
      SpellingIsUnique(cs[1..], ds[1..]);
      assert cs == [cs[0]] + cs[1..] && ds == [ds[0]] + ds[1..];
    }
  }

  lemma {:induction false} PrintAppends(cs: seq<Component>, ds: seq<Component>)
    ensures Print(cs + ds) == Print(cs) + Print(ds)
  {
    if cs == [] {
      assert cs + ds == ds;
    } else {
      assert (cs + ds)[1..] == cs[1..] + ds;
      PrintAppends(cs[1..], ds);
    }
  }

  lemma {:induction false} SumAppends(cs: seq<Component>, ds: seq<Component>)
    requires AllWellFormed(cs) && AllWellFormed(ds)
    ensures AllWellFormed(cs + ds) && Sum(cs + ds) == Sum(cs) + Sum(ds)
  {
    if cs == [] {
      assert cs + ds == ds;
    } else {
      assert (cs + ds)[1..] == cs[1..] + ds;
      SumAppends(cs[1..], ds);
    }
  }

  lemma {:induction false} ValueIsBounded(digits: string, n: nat)
    requires AllDigits(digits) && |digits| <= n <= 5
    ensures Value(digits) <= (if n == 0 then 0 else if n == 1 then 9 else if n == 2 then 99
                              else if n == 3 then 999 else if n == 4 then 9_999 else 99_999)
  {
    if digits != [] {
      ValueIsBounded(digits[..|digits| - 1], n - 1);
    }
  }

  lemma {:induction false} ComponentIsBounded(c: Component)
    requires WellFormed(c)
    ensures Value(c.digits) * UnitMillis(c.unit) <= 99_999 * 3_600_000
  {
    ValueIsBounded(c.digits, 5);
  }

  lemma {:induction false} FirstOfPrint(cs: seq<Component>)
    requires AllWellFormed(cs) && cs != []
    ensures First(Print(cs)) == Some(cs[0])
  {
    PrintStartsWithDigit(cs[1..]);
    FirstReadsBack(cs[0], Print(cs[1..]));
  }

  /** What is left of a text after the components `done` decides every spelling of it. */
  ghost predicate ReadSoFar(s: string, done: seq<Component>, rest: string) {
    && AllWellFormed(done) && s == Print(done) + rest
    && forall cs :: AllWellFormed(cs) && s == Print(cs) ==> done <= cs
  }

  lemma {:induction false} LeftIsPrinted(done: seq<Component>, rest: string, left: seq<Component>)
    requires Print(done + left) == Print(done) + rest
    ensures rest == Print(left)
  {
    PrintAppends(done, left);
    assert rest == (Print(done) + rest)[|Print(done)|..];
    assert Print(left) == (Print(done) + Print(left))[|Print(done)|..];
  }

  lemma {:induction false} NextIsFirst(done: seq<Component>, rest: string, cs: seq<Component>)
    requires AllWellFormed(cs) && done <= cs && Print(cs) == Print(done) + rest && rest != []
    ensures |done| < |cs| && First(rest) == Some(cs[|done|])
  {
    var left := cs[|done|..];
    assert cs == done + left;
    assert rest == Print(left) by {
      LeftIsPrinted(done, rest, left);
    }
    assert left != [];
    assert First(rest) == Some(left[0]) by {
      FirstOfPrint(left);
    }
  }

  /** Nothing spells a text whose rest starts with no component. */
  lemma {:induction false} Unreadable(s: string, done: seq<Component>, rest: string)
    requires ReadSoFar(s, done, rest) && rest != [] && First(rest).None?
    ensures forall cs :: !Spells(s, cs)
  {
    forall cs
      ensures !Spells(s, cs)
    {
      if Spells(s, cs) {
        NextIsFirst(done, rest, cs);
      }
    }
  }

  lemma {:induction false} EmptySpellsNothing()
    ensures forall cs :: !Spells("", cs)
  {
    forall cs: seq<Component> | AllWellFormed(cs) && 0 < |cs|
      ensures |Print(cs)| > 0
    {
      assert |Print(cs)| >= |cs[0].digits|;
    }
  }

  lemma {:induction false} TooManySpellNothing(s: string, done: seq<Component>, rest: string)
    requires ReadSoFar(s, done, rest) && |done| > 4
    ensures forall cs :: !Spells(s, cs)
  {
    forall cs | AllWellFormed(cs) && s == Print(cs)
      ensures |cs| > 4
    {
    }
  }

  lemma {:induction false} PrintOneMore(done: seq<Component>, rest: string, c: Component)
    requires AllWellFormed(done) && First(rest) == Some(c)
    ensures WellFormed(c) && 0 < Length(c) <= |rest|
    ensures Print(done) + rest == Print(done + [c]) + rest[Length(c)..]
  {
    FirstIsThere(rest);
    PrintAppends(done, [c]);
    assert Print([c]) == c.digits + UnitText(c.unit);
  }

  lemma {:induction false} SumOneMore(done: seq<Component>, c: Component)
    requires AllWellFormed(done) && WellFormed(c)
    ensures AllWellFormed(done + [c])
    ensures Sum(done + [c]) == Sum(done) + Value(c.digits) * UnitMillis(c.unit)
    ensures Value(c.digits) * UnitMillis(c.unit) <= 359_996_400_000
  {
    ComponentIsBounded(c);
    SumAppends(done, [c]);
  }

  lemma {:induction false} ReadOneMore(s: string, done: seq<Component>, rest: string, c: Component)
    requires ReadSoFar(s, done, rest) && First(rest) == Some(c)
    ensures WellFormed(c) && 0 < Length(c) <= |rest|
    ensures ReadSoFar(s, done + [c], rest[Length(c)..])
  {
    PrintOneMore(done, rest, c);
    forall cs | AllWellFormed(cs) && s == Print(cs)
      ensures done + [c] <= cs
    {
      NextIsFirst(done, rest, cs);
    }
  }

  /** `Some` of the sum exactly for what the format spells, and `None` for everything else: neither
      checked operation ever fails. */
  method ParseMillis(s: string) returns (r: Option<nat>)
    ensures r.Some? <==> exists cs :: Spells(s, cs)
    ensures forall cs :: Spells(s, cs) ==> r == Some(Sum(cs))
    ensures r.Some? ==> r.value <= 1_439_985_600_000
  {
    if s == [] {
      EmptySpellsNothing();
      return None;
    }
    var rest := s;
    var total := 0;
    var parts := 0;
    ghost var done: seq<Component> := [];
    while rest != []
      invariant ReadSoFar(s, done, rest)
      invariant parts == |done| <= 4 && (rest == [] ==> done != [])
      invariant total == Sum(done) <= parts * 359_996_400_000
      decreases |rest|
    {
      var digitsEnd := DigitsEnd(rest);
      if digitsEnd == 0 || digitsEnd > 5 {
        Unreadable(s, done, rest);
        return None;
      }
      var n := Value(rest[..digitsEnd]);
      var after := rest[digitsEnd..];
      var unit := UnitAt(after);
      if unit.None? {
        Unreadable(s, done, rest);
        return None;
      }
      var multiplier, unitLen := UnitMillis(unit.value), |UnitText(unit.value)|;
      ghost var c := Component(rest[..digitsEnd], unit.value);
      ReadOneMore(s, done, rest, c);
      SumOneMore(done, c);
      if n * multiplier > U64_MAX || total + n * multiplier > U64_MAX {
        return None;
      }
      total := total + n * multiplier;
      done := done + [c];
      assert after[unitLen..] == rest[Length(c)..];
      rest := after[unitLen..];
      parts := parts + 1;
      if parts > 4 {
        TooManySpellNothing(s, done, rest);
        return None;
      }
    }
    assert Spells(s, done);
    forall cs | Spells(s, cs)
      ensures cs == done
    {
      SpellingIsUnique(cs, done);
    }
    return Some(total);
  }

  /** Durations add up as their texts are joined, while there are at most four components. */
  lemma {:induction false} JoinedTextsAddUp(s: string, t: string, cs: seq<Component>, ds: seq<Component>)
    requires Spells(s, cs) && Spells(t, ds)
    ensures |cs| + |ds| <= 4 ==> Spells(s + t, cs + ds) && Sum(cs + ds) == Sum(cs) + Sum(ds)
    ensures |cs| + |ds| > 4 ==> !exists es :: Spells(s + t, es)
  {
    PrintAppends(cs, ds);
    SumAppends(cs, ds);
    forall es | Spells(s + t, es)
      ensures es == cs + ds
    {
      SpellingIsUnique(es, cs + ds);
    }
  }

  lemma {:induction false} OneNineMore(digits: string)
    requires AllDigits(digits)
    ensures AllDigits(digits + "9") && Value(digits + "9") == 10 * Value(digits) + 9
  {
    assert (digits + "9")[..|digits|] == digits;
  }

  lemma {:induction false} FiveNines()
    ensures Value("99999") == 99_999
  {
    OneNineMore("");
    OneNineMore("" + "9");
    OneNineMore("" + "9" + "9");
    OneNineMore("" + "9" + "9" + "9");
    OneNineMore("" + "9" + "9" + "9" + "9");
    assert "" + "9" + "9" + "9" + "9" + "9" == "99999";
  }

  /** The longest duration there is. */
  lemma {:induction false} LongestDuration()
    ensures
      var cs := seq(4, _ => Component("99999", H));
      Spells("99999h99999h99999h99999h", cs) && Sum(cs) == 1_439_985_600_000
  {
    var c := Component("99999", H);
    var cs := seq(4, _ => c);
    assert cs == [c, c, c, c];
    FiveNines();
    assert Print([c]) == "99999h" by { assert [c][1..] == []; }
    assert Print([c, c]) == "99999h99999h" by { assert [c, c][1..] == [c]; }
    assert Print([c, c, c]) == "99999h99999h99999h" by { assert [c, c, c][1..] == [c, c]; }
    assert Print([c, c, c, c]) == "99999h99999h99999h99999h" by { assert [c, c, c, c][1..] == [c, c, c]; }
    assert Sum([c]) == 359_996_400_000 by { assert [c][1..] == []; }
    assert Sum([c, c]) == 2 * 359_996_400_000 by { assert [c, c][1..] == [c]; }
    assert Sum([c, c, c]) == 3 * 359_996_400_000 by { assert [c, c, c][1..] == [c, c]; }
    assert Sum([c, c, c, c]) == 4 * 359_996_400_000 by { assert [c, c, c, c][1..] == [c, c, c]; }
  }

  /** The component says `n` of these. */
  predicate Says(c: Component, n: nat) {
    WellFormed(c) && Value(c.digits) == n
  }

  /** An hour is 60 minutes, a minute 60 seconds, and a second 1000 of the last unit, which is one. */
  lemma {:induction false} UnitsConvert(n: nat, long: Component, short: Component)
    requires long.unit != Ms && Says(long, n)
    requires short.unit == match long.unit case H => M case M => S case _ => Ms
    requires Says(short, if long.unit == S then 1000 * n else 60 * n)
    ensures Sum([long]) == Sum([short])
    ensures short.unit == Ms ==> Sum([short]) == Value(short.digits)
  {
    assert [long][1..] == [] && [short][1..] == [];
    assert Sum([long]) == n * UnitMillis(long.unit);
    assert Sum([short]) == Value(short.digits) * UnitMillis(short.unit);
  }
}
