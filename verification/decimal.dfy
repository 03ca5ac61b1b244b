/** `Number.prototype.toString()` on the non-negative integers the signup
    flow draws as slug suffixes: plain base-10 digits, no sign, no leading
    zeros. */
module Decimal {

  predicate IsDigit(c: char)
  {
    '0' <= c <= '9'
  }

  predicate AllDigits(s: string)
  {
    forall i :: 0 <= i < |s| ==> IsDigit(s[i])
  }

  function DigitValue(c: char): (d: nat)
    requires IsDigit(c)
    ensures d < 10
  {
    c as int - '0' as int
  }

  function DigitChar(d: nat): (c: char)
    requires d < 10
    ensures IsDigit(c) && DigitValue(c) == d
  {
    ('0' as int + d) as char
  }

  /** The decimal text of `n`. */
  function ToString(n: nat): (s: string)
    ensures 1 <= |s|
    ensures AllDigits(s)
    ensures s[0] == '0' <==> n == 0
    ensures n < 10 <==> |s| == 1
    decreases n
  {
    if n < 10 then [DigitChar(n)] else ToString(n / 10) + [DigitChar(n % 10)]
  }

  /** The number a digit string denotes, read most significant digit first. */
  function Value(s: string): nat
    requires AllDigits(s)
    decreases |s|
  {
    if |s| == 0 then 0 else 10 * Value(s[..|s| - 1]) + DigitValue(s[|s| - 1])
  }

  /** Reading back the decimal text of `n` gives `n`. */
  lemma {:induction false} ValueOfToString(n: nat)
    ensures Value(ToString(n)) == n
    decreases n
  {
    if n >= 10 {
      var s := ToString(n);
      assert s[..|s| - 1] == ToString(n / 10);
      ValueOfToString(n / 10);
    }
  }

  /** Distinct suffixes have distinct decimal texts. */
  lemma ToStringInjective(m: nat, n: nat)
    ensures ToString(m) == ToString(n) <==> m == n
  {
    if ToString(m) == ToString(n) {
      ValueOfToString(m);
      ValueOfToString(n);
    }
  }
}
