/** Whole numbers written in decimal. */
module Decimal {
  import opened Text

  predicate AllDigits(s: string) {
    forall i :: 0 <= i < |s| ==> IsDigit(s[i])
  }

  function Value(digits: string): nat
    requires AllDigits(digits)
  {
    if digits == [] then 0
    else 10 * Value(digits[..|digits| - 1]) + (digits[|digits| - 1] - '0') as nat
  }

  function Print(n: nat): string {
    (if n < 10 then [] else Print(n / 10)) + [('0' as int + n % 10) as char]
  }

  /** What is printed is read back, and has no sign, no separators and no leading zero. */
  lemma {:induction false} PrintReadsBack(n: nat)
    ensures Print(n) != [] && AllDigits(Print(n)) && Value(Print(n)) == n
    ensures n > 0 ==> Print(n)[0] != '0'
  {
    var s := Print(n);
    assert s[..|s| - 1] == if n < 10 then [] else Print(n / 10);
    if n >= 10 {
      PrintReadsBack(n / 10);
      assert s[0] == Print(n / 10)[0];
    }
  }
}
