/**
 * Decimal strings as Python's `int()` reads them and `str()` writes them.
 * Team numbers and tpids travel as strings (regex matches, memcache values)
 * and are stored as integers, so both directions matter to the model.
 */
module Digits {

  predicate IsDigit(c: char) {
    '0' <= c <= '9'
  }

  predicate AllDigits(s: string) {
    forall i :: 0 <= i < |s| ==> IsDigit(s[i])
  }

  /** A non-empty run of decimal digits: what the pattern `\d+` matches. */
  predicate IsDigits(s: string) {
    |s| > 0 && AllDigits(s)
  }

  /** A digit string without a leading zero, the only form `str()` produces. */
  predicate Canonical(s: string) {
    IsDigits(s) && (s[0] == '0' ==> |s| == 1)
  }

  function DigitValue(c: char): (d: nat)
    requires IsDigit(c)
    ensures d < 10
  {
    c as int - '0' as int
  }

  function DigitChar(d: nat): (c: char)
    requires d < 10
    ensures IsDigit(c) && DigitValue(c) == d
  {
    ('0' as int + d) as char
  }

  /** Python's `int(s)` on a string of decimal digits. */
  function ParseDecimal(s: string): nat
    requires AllDigits(s)
    decreases |s|
  {
    if s == [] then 0 else ParseDecimal(s[..|s| - 1]) * 10 + DigitValue(s[|s| - 1])
  }

  /** Python's `str(n)` on a non-negative integer. */
  function FormatDecimal(n: nat): (s: string)
    ensures IsDigits(s)
    ensures s[0] == '0' <==> n == 0
    ensures Canonical(s)
  {
    if n < 10 then [DigitChar(n)] else FormatDecimal(n / 10) + [DigitChar(n % 10)]
  }

  /** `int(str(n)) == n`. */
  lemma {:induction false} ParseFormat(n: nat)
    ensures ParseDecimal(FormatDecimal(n)) == n
  {
    var s := FormatDecimal(n);
    if n >= 10 {
      ParseFormat(n / 10);
      assert s[..|s| - 1] == FormatDecimal(n / 10);
    }
  }

  /** A canonical digit string with at least two digits reads as at least ten. */
  lemma {:induction false} ParseLeadingNonZero(s: string)
    requires IsDigits(s) && s[0] != '0'
    ensures ParseDecimal(s) >= 1
    ensures |s| > 1 ==> ParseDecimal(s) >= 10
    decreases |s|
  {
    if |s| > 1 {
      ParseLeadingNonZero(s[..|s| - 1]);
    }
  }

  /** `str(int(s)) == s` exactly when `s` has no leading zero. */
  lemma {:induction false} FormatParse(s: string)
    requires Canonical(s)
    ensures FormatDecimal(ParseDecimal(s)) == s
    decreases |s|
  {
    var v := ParseDecimal(s);
    if |s| == 1 {
      assert s[..0] == [];
      assert DigitChar(DigitValue(s[0])) == s[0];
    } else {
      var p := s[..|s| - 1];
      ParseLeadingNonZero(s);
      FormatParse(p);
      assert v / 10 == ParseDecimal(p) && v % 10 == DigitValue(s[|s| - 1]);
      assert DigitChar(DigitValue(s[|s| - 1])) == s[|s| - 1];
      assert p + [s[|s| - 1]] == s;
    }
  }
}
