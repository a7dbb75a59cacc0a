/** Base-62 digits in ASCII order, byte order on strings, and the two ways a
    string of digits names a number: as an integer and as a fraction. */
module Base62 {

  type DigitValue = d: int | 0 <= d < 62

  // ---------------------------------------------------------------- digits

  predicate IsDigit(c: char) {
    '0' <= c <= '9' || 'A' <= c <= 'Z' || 'a' <= c <= 'z'
  }

  /** The index of a character in the alphabet 0-9 A-Z a-z, or -1. */
  function IndexOf(c: char): (d: int)
    ensures IsDigit(c) <==> 0 <= d
    ensures -1 <= d < 62
  {
    if '0' <= c <= '9' then c as int - '0' as int
    else if 'A' <= c <= 'Z' then c as int - 'A' as int + 10
    else if 'a' <= c <= 'z' then c as int - 'a' as int + 36
    else -1
  }

  function Digit(d: DigitValue): (c: char)
    ensures IsDigit(c) && IndexOf(c) == d
  {
    if d < 10 then ('0' as int + d) as char
    else if d < 36 then ('A' as int + d - 10) as char
    else ('a' as int + d - 36) as char
  }

  const ALPHABET := "0123456789" + "ABCDEFGHIJKLMNOPQRSTUVWXYZ" + "abcdefghijklmnopqrstuvwxyz"

  lemma DigitsOfTheAlphabet(d: DigitValue)
    ensures |ALPHABET| == 62 && Digit(d) == ALPHABET[d] && IndexOf(ALPHABET[d]) == d
  {
  }

  predicate AllDigits(s: string) {
    forall i :: 0 <= i < |s| ==> IsDigit(s[i])
  }

  // ------------------------------------------------------------ byte order

  /** Strict byte-by-byte order; a proper prefix sorts first. */
  predicate Below(a: string, b: string) {
    b != "" && (a == "" || a[0] < b[0] || (a[0] == b[0] && Below(a[1..], b[1..])))
  }

  lemma {:induction false} BelowIsTotal(a: string, b: string)
    ensures Below(a, b) || a == b || Below(b, a)
  {
    if a != "" && b != "" && a[0] == b[0] {
      BelowIsTotal(a[1..], b[1..]);
      assert a == [a[0]] + a[1..] && b == [b[0]] + b[1..];
    }
  }

  lemma {:induction false} BelowIsAsymmetric(a: string, b: string)
    requires Below(a, b)
    ensures a != b && !Below(b, a)
  {
    if a != "" && a[0] == b[0] {
      BelowIsAsymmetric(a[1..], b[1..]);
    }
  }

  lemma {:induction false} BelowIsTransitive(a: string, b: string, c: string)
    requires Below(a, b) && Below(b, c)
    ensures Below(a, c)
  {
    if a != "" && a[0] == b[0] && b[0] == c[0] {
      BelowIsTransitive(a[1..], b[1..], c[1..]);
    }
  }

  /** Strings cut at the same length compare by their heads, then their tails. */
  lemma {:induction false} BelowByParts(a: string, x: string, b: string, y: string)
    requires |a| == |b|
    ensures Below(a + x, b + y) <==> Below(a, b) || (a == b && Below(x, y))
  {
    if a == "" {
      assert a + x == x && b + y == y;
    } else {
      BelowByParts(a[1..], x, b[1..], y);
      assert (a + x)[1..] == a[1..] + x && (b + y)[1..] == b[1..] + y;
      assert a == [a[0]] + a[1..] && b == [b[0]] + b[1..];
      BelowIsIrreflexive(a[1..]);
    }
  }

  lemma BelowIsIrreflexive(a: string)
    ensures !Below(a, a)
  {
    if Below(a, a) {
      BelowIsAsymmetric(a, a);
    }
  }

  // -------------------------------------------------------------- integers

  function Pow62(n: nat): (p: nat)
    ensures p >= 1
  {
    if n == 0 then 1 else 62 * Pow62(n - 1)
  }

  /** The integer a string of digits spells, most significant digit first. */
  function Num(s: string): (n: nat)
    requires AllDigits(s)
    ensures n < Pow62(|s|)
  {
    if s == "" then 0 else 62 * Num(s[..|s| - 1]) + IndexOf(s[|s| - 1])
  }

  lemma {:induction false} NumOrder(a: string, b: string)
    requires AllDigits(a) && AllDigits(b) && |a| == |b|
    ensures Below(a, b) <==> Num(a) < Num(b)
    ensures a == b <==> Num(a) == Num(b)
  {
    if a != "" {
      var n := |a| - 1;
      var a', b' := a[..n], b[..n];
      assert a == a' + [a[n]] && b == b' + [b[n]];
      assert Below([a[n]], [b[n]]) <==> a[n] < b[n];
      assert Num(a) == 62 * Num(a') + IndexOf(a[n]) && Num(b) == 62 * Num(b') + IndexOf(b[n]);
      hide Below, Num;
      NumOrder(a', b');
      BelowByParts(a', [a[n]], b', [b[n]]);
    }
  }

  // ------------------------------------------------------------- fractions

  /** The fraction a string of digits spells after the point. */
  function Frac(s: string): (f: real)
    requires AllDigits(s)
    ensures 0.0 <= f < 1.0
  {
    if s == "" then 0.0 else (IndexOf(s[0]) as real + Frac(s[1..])) / 62.0
  }

  /** Digits with no trailing zero: the one spelling of each fraction. */
  predicate IsFraction(s: string) {
    AllDigits(s) && (s == "" || s[|s| - 1] != '0')
  }

  lemma {:induction false} FractionIsPositive(s: string)
    requires IsFraction(s) && s != ""
    ensures Frac(s) > 0.0
  {
    if |s| > 1 {
      FractionIsPositive(s[1..]);
    } else {
      assert s[0] == s[|s| - 1] != '0';
    }
  }

  /** Byte order on fractions is numeric order, and the reading is injective. */
  lemma {:induction false} FracOrder(a: string, b: string)
    requires IsFraction(a) && IsFraction(b)
    ensures Below(a, b) <==> Frac(a) < Frac(b)
    ensures a == b <==> Frac(a) == Frac(b)
  {
    if a != "" && b != "" {
      FracOrder(a[1..], b[1..]);
      assert a == [a[0]] + a[1..] && b == [b[0]] + b[1..];
      IndexIsMonotone(a[0], b[0]);
    } else if a != "" {
      FractionIsPositive(a);
    } else if b != "" {
      FractionIsPositive(b);
    }
  }

  lemma IndexIsMonotone(a: char, b: char)
    requires IsDigit(a) && IsDigit(b)
    ensures a < b <==> IndexOf(a) < IndexOf(b)
    ensures a == b <==> IndexOf(a) == IndexOf(b)
  {
  }

  /** A shared prefix changes no comparison of what follows it. */
  lemma {:induction false} FracAfterPrefix(p: string, x: string, y: string)
    requires AllDigits(p) && AllDigits(x) && AllDigits(y)
    ensures AllDigits(p + x) && AllDigits(p + y)
    ensures Frac(p + x) < Frac(p + y) <==> Frac(x) < Frac(y)
    ensures Frac(p + x) == Frac(p + y) <==> Frac(x) == Frac(y)
  {
    if p == "" {
      assert p + x == x && p + y == y;
    } else {
      FracAfterPrefix(p[1..], x, y);
      assert (p + x)[1..] == p[1..] + x && (p + y)[1..] == p[1..] + y;
    }
  }
}
