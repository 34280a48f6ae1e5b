/**
 * ASCII decimal numerals: the digit strings that `int` reads and `str` writes.
 */
module Decimal {

  predicate IsDigit(c: char) { '0' <= c <= '9' }

  predicate AllDigits(s: string) { forall k :: 0 <= k < |s| ==> IsDigit(s[k]) }

  /** The length of the longest prefix of s whose characters all satisfy p. */
  function Span(s: string, p: char -> bool): (n: nat)
    ensures n <= |s|
    ensures forall k :: 0 <= k < n ==> p(s[k])
    ensures n < |s| ==> !p(s[n])
  {
    if s == [] || !p(s[0]) then 0 else 1 + Span(s[1..], p)
  }

  function DigitValue(c: char): (d: nat)
    requires IsDigit(c)
    ensures d < 10
  {
    c as int - '0' as int
  }

  function DigitChar(d: nat): (c: char)
    requires d < 10
    ensures IsDigit(c) && DigitValue(c) == d
  {
    ('0' as int + d) as char
  }

  /** The value of a string of decimal digits, most significant first. */
  function DigitsValue(s: string): nat
    requires AllDigits(s)
  {
    if s == [] then 0 else 10 * DigitsValue(s[..|s| - 1]) + DigitValue(s[|s| - 1])
  }

  /** `str(n)` for a non-negative n: no sign and no leading zero. */
  function DecString(n: nat): (s: string)
    ensures |s| >= 1 && AllDigits(s)
    ensures |s| > 1 ==> s[0] != '0'
  {
    if n < 10 then [DigitChar(n)] else DecString(n / 10) + [DigitChar(n % 10)]
  }

  /** Reading back what `str` wrote gives the number. */
  lemma {:induction false} DecStringValue(n: nat)
    ensures DigitsValue(DecString(n)) == n
  {
    if n >= 10 {
      var s := DecString(n);
      assert s[..|s| - 1] == DecString(n / 10);
      DecStringValue(n / 10);
    }
  }

  /** Distinct numbers are written differently (a corollary of DecStringValue). */
  lemma DecStringInjective(m: nat, n: nat)
    requires DecString(m) == DecString(n)
    ensures m == n
  {
    DecStringValue(m);
    DecStringValue(n);
  }
}
