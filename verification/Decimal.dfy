/** Decimal numerals. */
module Decimal {

  function Digit(d: nat): char
    requires d < 10
  {
    '0' + d as char
  }

  predicate IsDigit(c: char) { '0' <= c <= '9' }

  function ToString(n: nat): (s: string)
    ensures s != [] && forall i :: 0 <= i < |s| ==> IsDigit(s[i])
  {
    if n < 10 then [Digit(n)] else ToString(n / 10) + [Digit(n % 10)]
  }

  /** The number a numeral stands for. */
  function Value(s: string): nat
    requires forall i :: 0 <= i < |s| ==> IsDigit(s[i])
  {
    if s == [] then 0
    else
      assert IsDigit(s[|s| - 1]);
      10 * Value(s[..|s| - 1]) + (s[|s| - 1] as int - '0' as int)
  }

  lemma {:induction false} ValueOfToString(n: nat)
    ensures Value(ToString(n)) == n
  {
    var s := ToString(n);
    if n >= 10 {
      ValueOfToString(n / 10);
      assert s[..|s| - 1] == ToString(n / 10);
    } else {
      assert s[..|s| - 1] == [];
    }
  }

  /** A numeral of a number: digits without a leading zero. */
  ghost predicate IsNumeral(s: string, n: nat) {
    && s != [] && (forall i :: 0 <= i < |s| ==> IsDigit(s[i]))
    && Value(s) == n
    && (n > 0 ==> s[0] != '0')
  }

  lemma {:induction false} ToStringIsNumeral(n: nat)
    ensures IsNumeral(ToString(n), n)
  {
    ValueOfToString(n);
    if n >= 10 {
      ToStringIsNumeral(n / 10);
    }
  }

  lemma ToStringInjective(m: nat, n: nat)
    ensures ToString(m) == ToString(n) ==> m == n
  {
    ValueOfToString(m);
    ValueOfToString(n);
  }
}
