/** The characters the texts here are made of, written out, and that each class of them holds exactly
    those. */
module Alphabets {
  import opened Text

  const UPPERCASE := "ABCDEFGHIJKLMNOPQRSTUVWXYZ"
  const LOWERCASE := "abcdefghijklmnopqrstuvwxyz"
  const NUMERALS := "0123456789"

  /** What a token may hold beside letters and digits (section 5.6.2 of RFC 9110). */
  const TOKEN_MARKS := "!#$%&'*+-.^_`|~"

  /** Unicode's White_Space. */
  const BLANKS := [
    0x9, 0xa, 0xb, 0xc, 0xd, 0x20, 0x85, 0xa0, 0x1680, 0x2000, 0x2001, 0x2002, 0x2003, 0x2004, 0x2005, 0x2006,
    0x2007, 0x2008, 0x2009, 0x200a, 0x2028, 0x2029, 0x202f, 0x205f, 0x3000]

  lemma UppercaseAt(i: nat)
    requires i < 26
    ensures UPPERCASE[i] == ('A' as int + i) as char
  {
  }

  lemma LowercaseAt(i: nat)
    requires i < 26
    ensures LOWERCASE[i] == ('a' as int + i) as char
  {
  }

  lemma NumeralAt(i: nat)
    requires i < 10
    ensures NUMERALS[i] == ('0' as int + i) as char
  {
  }

  lemma {:induction false} UppercaseIs(c: char)
    ensures c in UPPERCASE <==> IsUpper(c)
  {
    if IsUpper(c) {
      UppercaseAt((c - 'A') as nat);
    }
    if i :| 0 <= i < |UPPERCASE| && UPPERCASE[i] == c {
      UppercaseAt(i);
    }
  }

  lemma {:induction false} LowercaseIs(c: char)
    ensures c in LOWERCASE <==> IsLower(c)
  {
    if IsLower(c) {
      LowercaseAt((c - 'a') as nat);
    }
    if i :| 0 <= i < |LOWERCASE| && LOWERCASE[i] == c {
      LowercaseAt(i);
    }
  }

  lemma {:induction false} NumeralIs(c: char)
    ensures c in NUMERALS <==> IsDigit(c)
  {
    if IsDigit(c) {
      NumeralAt((c - '0') as nat);
    }
    if i :| 0 <= i < |NUMERALS| && NUMERALS[i] == c {
      NumeralAt(i);
    }
  }

  lemma {:induction false} BlankAt(i: nat)
    requires i < 25
    ensures IsWhitespace(BLANKS[i] as char)
  {
  }

  /** Letters, digits and the characters of a token are the ones written out. */
  lemma {:induction false} CharactersMean(c: char)
    ensures IsUpper(c) <==> c in UPPERCASE
    ensures IsLower(c) <==> c in LOWERCASE
    ensures IsDigit(c) <==> c in NUMERALS
    ensures IsTokenChar(c) <==> c in UPPERCASE || c in LOWERCASE || c in NUMERALS || c in TOKEN_MARKS
  {
    UppercaseIs(c);
    LowercaseIs(c);
    NumeralIs(c);
  }

  /** The cases of a letter stand at one place of the alphabet, and nothing else has any. */
  lemma {:induction false} CasesMean(c: char, i: nat)
    requires i < 26
    ensures c == UPPERCASE[i] ==> LowerChar(c) == LOWERCASE[i] && UpperChar(c) == c
    ensures c == LOWERCASE[i] ==> UpperChar(c) == UPPERCASE[i] && LowerChar(c) == c
    ensures c !in UPPERCASE && c !in LOWERCASE ==> LowerChar(c) == UpperChar(c) == c
  {
    UppercaseAt(i);
    LowercaseAt(i);
    UppercaseIs(c);
    LowercaseIs(c);
  }

  /** Blanks are Unicode's. */
  lemma {:induction false} BlanksMean(c: char)
    ensures IsWhitespace(c) <==> c as int in BLANKS
  {
    if i :| 0 <= i < |BLANKS| && BLANKS[i] == c as int {
      BlankAt(i);
    }
  }
}
