/** Decimal numerals: the strings the admin panel uses as post ids.
    `Value` is what `parseInt` computes on a string made only of decimal digits,
    and `Show` is what `String(n)` produces for a natural number. */
module Decimal {

  predicate IsDigit(c: char)
  {
    '0' <= c <= '9'
  }

  /** Every character is a decimal digit (the empty string included). */
  predicate AllDigits(s: string)
  {
    forall i :: 0 <= i < |s| ==> IsDigit(s[i])
  }

  /** A non-empty string of decimal digits, possibly with leading zeros. */
  predicate IsNumeral(s: string)
  {
    |s| > 0 && AllDigits(s)
  }

  /** A numeral as `String(n)` writes it: no leading zero unless it is "0". */
  predicate IsCanonical(s: string)
  {
    IsNumeral(s) && (|s| == 1 || s[0] != '0')
  }

  function DigitValue(c: char): (d: nat)
    requires IsDigit(c)
    ensures d < 10
  {
    (c as int - '0' as int) as nat
  }

  function DigitChar(d: nat): (c: char)
    requires d < 10
    ensures IsDigit(c)
    ensures DigitValue(c) == d
  {
    ('0' as int + d) as char
  }

  /** The number a string of digits denotes, read most significant digit
      first; leading zeros do not change it. The empty string reads as 0 here,
      where `parseInt` gives NaN; ids are non-empty, so that case never arises. */
  function Value(s: string): (n: nat)
    requires AllDigits(s)
    ensures |s| > 0 && s[0] == '0' ==> n == Value(s[1..])
  {
    if |s| == 0 then 0
    else
      var prefix := s[..|s| - 1];
      assert |s| > 1 ==> s[1..][..|s| - 2] == prefix[1..];
      10 * Value(prefix) + DigitValue(s[|s| - 1])
  }

  /** The canonical decimal numeral of `n`; reading it back gives `n`. */
  function Show(n: nat): (s: string)
    ensures IsCanonical(s)
    ensures Value(s) == n
    decreases n
  {
    if n < 10 then [DigitChar(n)]
    else
      var prefix := Show(n / 10);
      var s := prefix + [DigitChar(n % 10)];
      assert s[..|s| - 1] == prefix;
      assert |prefix| == 1 ==> prefix[0] != '0' by {
        if |prefix| == 1 {
          assert prefix[..0] == [];
        }
      }
      s
  }

  /** A numeral whose first digit is not '0' denotes a positive number. */
  lemma {:induction false} NoLeadingZeroIsPositive(s: string)
    requires IsNumeral(s) && s[0] != '0'
    ensures Value(s) >= 1
    decreases |s|
  {
    if |s| > 1 {
      NoLeadingZeroIsPositive(s[..|s| - 1]);
    } else {
      assert s[..0] == [];
    }
  }

  /** `Show` inverts `Value` on canonical numerals: the two are a bijection
      between natural numbers and canonical numerals. */
  lemma {:induction false} ShowValue(s: string)
    requires IsCanonical(s)
    ensures Show(Value(s)) == s
    decreases |s|
  {
    if |s| == 1 {
      assert s[..0] == [];
      assert Show(Value(s)) == [s[0]];
    } else {
      var prefix := s[..|s| - 1];
      assert prefix[0] == s[0];
      NoLeadingZeroIsPositive(prefix);
      ShowValue(prefix);
      assert Value(s) >= 10;
      assert Value(s) / 10 == Value(prefix);
      assert Value(s) % 10 == DigitValue(s[|s| - 1]);
      assert s == prefix + [s[|s| - 1]];
    }
  }

  /** Two numerals that denote different numbers are different strings; two
      canonical numerals that denote the same number are the same string. */
  lemma CanonicalValueInjective(a: string, b: string)
    requires IsCanonical(a) && IsCanonical(b)
    ensures a == b <==> Value(a) == Value(b)
  {
    if Value(a) == Value(b) {
      ShowValue(a);
      ShowValue(b);
    }
  }
}
