/** Decimal numerals, as the key names and the hash string spell numbers. */
module Decimal {

  predicate IsDecimal(s: string) {
    forall i :: 0 <= i < |s| ==> '0' <= s[i] <= '9'
  }

  /** The numeral of a natural number, without leading zeros. */
  function Dec(n: nat): (s: string)
    ensures IsDecimal(s) && s != ""
  {
    if n < 10 then [('0' as int + n) as char]
    else Dec(n / 10) + [('0' as int + n % 10) as char]
  }

  /** The number a string of decimal digits spells. */
  function Numeral(s: string): nat
    requires IsDecimal(s)
  {
    if s == "" then 0 else 10 * Numeral(s[..|s| - 1]) + (s[|s| - 1] as int - '0' as int)
  }

  lemma {:induction false} NumeralOfDec(n: nat)
    ensures Numeral(Dec(n)) == n
  {
    var s := Dec(n);
    if n < 10 {
      assert s[..0] == "";
    } else {
      NumeralOfDec(n / 10);
      assert s[..|s| - 1] == Dec(n / 10);
    }
  }

  lemma DecIsInjective(m: nat, n: nat)
    requires Dec(m) == Dec(n)
    ensures m == n
  {
    NumeralOfDec(m);
    NumeralOfDec(n);
  }

  /** A numeral ends where the first other character stands: what follows a
      separator can be read back. */
  lemma {:induction false} SeparatedIsInjective(a: string, x: string, b: string, y: string, separator: char)
    requires IsDecimal(a) && IsDecimal(b) && !('0' <= separator <= '9')
    requires a + [separator] + x == b + [separator] + y
    ensures a == b && x == y
  {
    var s := a + [separator] + x;
    assert s[|a|] == separator && s[|b|] == separator;
    assert a == s[..|a|] && forall i :: 0 <= i < |a| ==> s[i] == a[i];
    assert b == s[..|b|] && forall i :: 0 <= i < |b| ==> s[i] == b[i];
    assert |a| == |b|;
    assert x == s[|a| + 1..] && y == s[|b| + 1..];
  }

  /** No other numeral of a number is shorter. */
  lemma {:induction false} DecIsShortest(digits: string)
    requires IsDecimal(digits) && digits != ""
    ensures |Dec(Numeral(digits))| <= |digits|
  {
    if |digits| > 1 {
      var front := digits[..|digits| - 1];
      DecIsShortest(front);
      assert Numeral(digits) / 10 == Numeral(front);
    } else {
      assert digits[..0] == "";
    }
  }
}
