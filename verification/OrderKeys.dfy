/** Fractional order keys: a variable-width base-62 integer part, whose first
    character declares its width, followed by an optional fraction.

    Strings stand for byte strings; every character a key may hold is ASCII. */
module OrderKeys {
  import opened Results
  import opened Base62

  datatype KeyError = InvalidKey | NotAscending | Exhausted

  const FIRST_KEY := "a0"

  /** The bottom of the integer space: header 'A' and twenty-six zeros. */
  const SMALLEST_INTEGER := "A" + Zeros(26)

  function Zeros(n: nat): string {
    seq(n, _ => '0')
  }

  // ------------------------------------------------------- shape of a key

  function IntegerWidth(header: char): Result<nat, KeyError> {
    if 'a' <= header <= 'z' then Success(header as int - 'a' as int + 2)
    else if 'A' <= header <= 'Z' then Success('Z' as int - header as int + 2)
    else Failure(InvalidKey)
  }

  /** A header and exactly the digits it claims. */
  predicate IsInteger(s: string) {
    s != "" && IntegerWidth(s[0]) == Success(|s|) && AllDigits(s)
  }

  /** A key cut into integer part and fraction, or refused. */
  function Split(key: string): Result<(string, string), KeyError> {
    if key == "" then Failure(InvalidKey)
    else if key == SMALLEST_INTEGER then Failure(InvalidKey)
    else
      var width :- IntegerWidth(key[0]);
      if width > |key| then Failure(InvalidKey)
      else if !AllDigits(key) then Failure(InvalidKey)
      else
        var (integer, fraction) := (key[..width], key[width..]);
        if fraction != "" && fraction[|fraction| - 1] == '0' then Failure(InvalidKey)
        else Success((integer, fraction))
  }

  /** The scan of `Split`, character by character as it is written. */
  method SplitKey(key: string) returns (r: Result<(string, string), KeyError>)
    ensures r == Split(key)
  {
    if key == "" || key == SMALLEST_INTEGER {
      return Failure(InvalidKey);
    }
    var width := IntegerWidth(key[0]);
    if width.Failure? {
      return Failure(width.error);
    }
    if width.value > |key| {
      return Failure(InvalidKey);
    }
    for i := 0 to |key|
      invariant forall j :: 0 <= j < i ==> IsDigit(key[j])
    {
      if IndexOf(key[i]) < 0 {
        return Failure(InvalidKey);
      }
    }
    var integer, fraction := key[..width.value], key[width.value..];
    if fraction != "" && fraction[|fraction| - 1] == '0' {
      return Failure(InvalidKey);
    }
    return Success((integer, fraction));
  }

  predicate Valid(key: string) {
    Split(key).Success?
  }

  function SplitBound(key: string): Result<(string, string), KeyError> {
    if key == "" then Success(("", "")) else Split(key)
  }

  // -------------------------------------------------- stepping an integer

  /** The digits plus one, and whether a carry falls out of the front. */
  function AddOne(body: string): (r: (string, bool))
    requires AllDigits(body)
    ensures |r.0| == |body| && AllDigits(r.0)
  {
    if body == "" then ("", true)
    else
      var n := |body| - 1;
      var next := IndexOf(body[n]) + 1;
      if next == 62 then
        var (rest, carry) := AddOne(body[..n]);
        (rest + "0", carry)
      else (body[..n] + [Digit(next)], false)
  }

  /** The digits minus one, and whether a borrow falls out of the front. */
  function SubtractOne(body: string): (r: (string, bool))
    requires AllDigits(body)
    ensures |r.0| == |body| && AllDigits(r.0)
  {
    if body == "" then ("", true)
    else
      var n := |body| - 1;
      var next := IndexOf(body[n]) - 1;
      if next < 0 then
        var (rest, borrow) := SubtractOne(body[..n]);
        (rest + "z", borrow)
      else (body[..n] + [Digit(next)], false)
  }

  /** The next integer above the one given. */
  function Increment(integer: string): Result<string, KeyError>
    requires IsInteger(integer)
  {
    var header := integer[0];
    var (body, carry) := AddOne(integer[1..]);
    if !carry then Success([header] + body)
    else if header == 'Z' then Success(FIRST_KEY)
    else if header == 'z' then Failure(Exhausted)
    else
      var wider := (header as int + 1) as char;
      if wider > 'a' then Success([wider] + body + "0")
      else Success([wider] + body[..|body| - 1])
  }

  /** The next integer below the one given. */
  function Decrement(integer: string): Result<string, KeyError>
    requires IsInteger(integer)
  {
    var header := integer[0];
    var (body, borrow) := SubtractOne(integer[1..]);
    if !borrow then Success([header] + body)
    else if header == 'a' then Success("Zz")
    else if header == 'A' then Failure(Exhausted)
    else
      var lower := (header as int - 1) as char;
      if lower < 'Z' then Success([lower] + body + "z")
      else Success([lower] + body[..|body| - 1])
  }

  /** The carry loop of `increment`, over the byte slice it rewrites. */
  method CarryThrough(body: array<char>) returns (carry: bool)
    requires AllDigits(body[..])
    modifies body
    ensures (body[..], carry) == AddOne(old(body[..]))
  {
    ghost var start := body[..];
    carry := true;
    var i := body.Length - 1;
    assert start == start[..i + 1];
    while carry && i >= 0
      invariant -1 <= i < body.Length
      invariant carry ==> body[..i + 1] == start[..i + 1]
      invariant carry ==> AddOne(start).0 == AddOne(start[..i + 1]).0 + body[i + 1..]
      invariant carry ==> AddOne(start).1 == AddOne(start[..i + 1]).1
      invariant !carry ==> AddOne(start) == (body[..], false)
      decreases i, carry
    {
      assert start[..i + 1][..i] == start[..i] && body[i] == start[..i + 1][i];
      ghost var tail := body[i + 1..];
      var next := IndexOf(body[i]) + 1;
      if next == 62 {
        body[i] := '0';
        assert body[i..] == "0" + tail;
        ghost var rest := AddOne(start[..i]).0;
        assert (rest + "0") + tail == rest + ("0" + tail);
      } else {
        body[i] := Digit(next);
        carry := false;
        assert body[..] == start[..i] + [Digit(next)] + tail;
      }
      i := i - 1;
    }
    assert carry ==> start[..0] == "" && AddOne(start).0 == body[..];
  }

  /** The borrow loop of `decrement`, over the byte slice it rewrites. */
  method BorrowThrough(body: array<char>) returns (borrow: bool)
    requires AllDigits(body[..])
    modifies body
    ensures (body[..], borrow) == SubtractOne(old(body[..]))
  {
    ghost var start := body[..];
    borrow := true;
    var i := body.Length - 1;
    assert start == start[..i + 1];
    while borrow && i >= 0
      invariant -1 <= i < body.Length
      invariant borrow ==> body[..i + 1] == start[..i + 1]
      invariant borrow ==> SubtractOne(start).0 == SubtractOne(start[..i + 1]).0 + body[i + 1..]
      invariant borrow ==> SubtractOne(start).1 == SubtractOne(start[..i + 1]).1
      invariant !borrow ==> SubtractOne(start) == (body[..], false)
      decreases i, borrow
    {
      assert start[..i + 1][..i] == start[..i] && body[i] == start[..i + 1][i];
      ghost var tail := body[i + 1..];
      var next := IndexOf(body[i]) - 1;
      if next < 0 {
        body[i] := 'z';
        assert body[i..] == "z" + tail;
        ghost var rest := SubtractOne(start[..i]).0;
        assert (rest + "z") + tail == rest + ("z" + tail);
      } else {
        body[i] := Digit(next);
        borrow := false;
        assert body[..] == start[..i] + [Digit(next)] + tail;
      }
      i := i - 1;
    }
    assert borrow ==> start[..0] == "" && SubtractOne(start).0 == body[..];
  }

  method IncrementInteger(integer: string) returns (r: Result<string, KeyError>)
    requires IsInteger(integer)
    ensures r == Increment(integer)
  {
    var header := integer[0];
    var body := new char[|integer| - 1](i requires 0 <= i < |integer| - 1 => integer[i + 1]);
    assert body[..] == integer[1..];
    var carry := CarryThrough(body);
    if !carry {
      return Success([header] + body[..]);
    }
    if header == 'Z' {
      return Success(FIRST_KEY);
    }
    if header == 'z' {
      return Failure(Exhausted);
    }
    header := (header as int + 1) as char;
    if header > 'a' {
      return Success([header] + body[..] + "0");
    }
    return Success([header] + body[..body.Length - 1]);
  }

  method DecrementInteger(integer: string) returns (r: Result<string, KeyError>)
    requires IsInteger(integer)
    ensures r == Decrement(integer)
  {
    var header := integer[0];
    var body := new char[|integer| - 1](i requires 0 <= i < |integer| - 1 => integer[i + 1]);
    assert body[..] == integer[1..];
    var borrow := BorrowThrough(body);
    if !borrow {
      return Success([header] + body[..]);
    }
    if header == 'a' {
      return Success("Zz");
    }
    if header == 'A' {
      return Failure(Exhausted);
    }
    header := (header as int - 1) as char;
    if header < 'Z' {
      return Success([header] + body[..] + "z");
    }
    return Success([header] + body[..body.Length - 1]);
  }

  // ------------------------------------------------- subdividing fractions

  /** The first digit of a fraction; a missing one is a zero. */
  function LeadingDigit(fraction: string): (d: DigitValue)
    requires AllDigits(fraction)
  {
    if fraction == "" then 0 else IndexOf(fraction[0])
  }

  /** A fraction without its leading n digits; past its end stand zeros. */
  function Drop(fraction: string, n: nat): string {
    if n >= |fraction| then "" else fraction[n..]
  }

  /** How many leading digits two fractions share, the first zero-padded. */
  function CommonPrefixLen(a: string, b: string): (n: nat)
    ensures n <= |b|
    decreases |b|
  {
    if b == "" || (if a == "" then '0' else a[0]) != b[0] then 0
    else 1 + CommonPrefixLen(Drop(a, 1), b[1..])
  }

  method SharedDigits(a: string, b: string) returns (shared: nat)
    ensures shared == CommonPrefixLen(a, b)
  {
    shared := 0;
    while shared < |b|
      invariant shared <= |b|
      invariant CommonPrefixLen(a, b) == shared + CommonPrefixLen(Drop(a, shared), b[shared..])
    {
      var digit := '0';
      if shared < |a| {
        digit := a[shared];
      }
      if digit != b[shared] {
        break;
      }
      assert Drop(Drop(a, shared), 1) == Drop(a, shared + 1);
      assert b[shared..][1..] == b[shared + 1..];
      shared := shared + 1;
    }
  }

  lemma FractionTail(s: string)
    requires IsFraction(s)
    ensures IsFraction(Drop(s, 1))
    ensures Frac(s) == (LeadingDigit(s) as real + Frac(Drop(s, 1))) / 62.0
  {
    if |s| > 1 {
      assert s[1..][|s| - 2] == s[|s| - 1];
    }
  }

  lemma FracOfDigits(c: char, tail: string)
    requires IsDigit(c) && AllDigits(tail)
    ensures AllDigits([c] + tail) && Frac([c] + tail) == (IndexOf(c) as real + Frac(tail)) / 62.0
  {
    assert ([c] + tail)[1..] == tail;
  }

  lemma SameLeadingDigit(a: string, b: string)
    requires AllDigits(a) && AllDigits(b) && Frac(a) < Frac(b)
    ensures b != "" && (CommonPrefixLen(a, b) > 0 <==> LeadingDigit(a) == LeadingDigit(b))
  {
    IndexIsMonotone(if a == "" then '0' else a[0], b[0]);
  }

  /** What is left after the shared digits keeps the order of the whole. */
  lemma {:induction false} SharedDigitsDecideNothing(a: string, b: string)
    requires IsFraction(a) && IsFraction(b) && Frac(a) < Frac(b)
    ensures var n := CommonPrefixLen(a, b);
            && n < |b| && IsFraction(Drop(a, n)) && IsFraction(b[n..])
            && Frac(Drop(a, n)) < Frac(b[n..])
            && LeadingDigit(Drop(a, n)) < LeadingDigit(b[n..])
    decreases |b|
  {
    FractionTail(a);
    FractionTail(b);
    var n := CommonPrefixLen(a, b);
    SameLeadingDigit(a, b);
    hide Frac, IsFraction, LeadingDigit;
    if n == 0 {
      assert Drop(a, 0) == a && b[0..] == b;
    } else {
      var a', b' := Drop(a, 1), b[1..];
      assert Drop(b, 1) == b';
      SharedDigitsDecideNothing(a', b');
      assert Drop(a', n - 1) == Drop(a, n) && b'[n - 1..] == b[n..];
    }
  }

  /** The shared digits, followed by what is left of `a`, still name `a`. */
  lemma {:induction false} SharedDigitsPad(a: string, b: string)
    requires IsFraction(a) && AllDigits(b)
    ensures var n := CommonPrefixLen(a, b);
            && AllDigits(Drop(a, n)) && AllDigits(b[..n] + Drop(a, n))
            && Frac(b[..n] + Drop(a, n)) == Frac(a)
    decreases |b|
  {
    hide Frac, AllDigits, IsFraction;
    var n := CommonPrefixLen(a, b);
    FractionTail(a);
    if n == 0 {
      FractionsAreDigits(a);
      assert b[..0] + Drop(a, 0) == a && Drop(a, 0) == a;
    } else {
      SharedFirstDigit(a, b);
      SharedDigitsPad(Drop(a, 1), b[1..]);
      PadByOne(a, b, n);
      FracOfDigits(b[0], b[1..][..n - 1] + Drop(Drop(a, 1), n - 1));
    }
  }

  lemma FractionsAreDigits(a: string)
    requires IsFraction(a)
    ensures AllDigits(a)
  {
  }

  lemma SharedFirstDigit(a: string, b: string)
    requires IsFraction(a) && AllDigits(b) && CommonPrefixLen(a, b) > 0
    ensures b != "" && IsDigit(b[0]) && AllDigits(b[1..]) && LeadingDigit(a) == IndexOf(b[0])
    ensures CommonPrefixLen(a, b) == CommonPrefixLen(Drop(a, 1), b[1..]) + 1
  {
  }

  lemma PadByOne(a: string, b: string, n: nat)
    requires 0 < n <= |b|
    ensures b[..n] + Drop(a, n) == [b[0]] + (b[1..][..n - 1] + Drop(Drop(a, 1), n - 1))
  {
    assert b[..n] == [b[0]] + b[1..][..n - 1];
    assert Drop(Drop(a, 1), n - 1) == Drop(a, n);
  }

  lemma DigitFraction(d: DigitValue, tail: string)
    requires IsFraction(tail) && (tail == "" ==> d > 0)
    ensures IsFraction([Digit(d)] + tail)
    ensures Frac([Digit(d)] + tail) == (d as real + Frac(tail)) / 62.0
  {
    FracOfDigits(Digit(d), tail);
  }

  /** A fraction above `a` and below every fraction with a higher first digit. */
  function MidpointAfter(a: string): (m: string)
    requires IsFraction(a)
    ensures IsFraction(m) && m != "" && |m| <= |a| + 1
    ensures Frac(a) < Frac(m)
    decreases |a|
  {
    var low := LeadingDigit(a);
    if low < 61 then
      FractionTail(a);
      DigitFraction((low + 63) / 2, "");
      [Digit((low + 63) / 2)] + ""
    else
      FractionTail(a);
      var m := MidpointAfter(Drop(a, 1));
      DigitFraction(low, m);
      [Digit(low)] + m
  }

  /** Between two fractions whose first digits already differ. */
  function MidpointApart(a: string, b: string): (m: string)
    requires IsFraction(a) && IsFraction(b) && LeadingDigit(a) < LeadingDigit(b)
    ensures IsFraction(m) && m != ""
    ensures Frac(a) < Frac(m) < Frac(b)
    ensures |m| <= (if |a| < |b| then |b| else |a|) + 1
  {
    FractionTail(a);
    FractionTail(b);
    var low, high := LeadingDigit(a), LeadingDigit(b);
    if high - low > 1 then
      var digit := (low + high + 1) / 2;
      DigitFraction(digit, "");
      [Digit(digit)] + ""
    else if |b| > 1 then
      FractionIsPositive(Drop(b, 1));
      DigitFraction(high, "");
      [Digit(high)] + ""
    else
      var m := MidpointAfter(Drop(a, 1));
      DigitFraction(low, m);
      [Digit(low)] + m
  }

  /** A fraction strictly between two fractions of one integer part. */
  function Midpoint(a: string, b: string): (m: string)
    requires IsFraction(a) && IsFraction(b) && Frac(a) < Frac(b)
    ensures IsFraction(m) && m != ""
    ensures Frac(a) < Frac(m) < Frac(b)
    ensures |m| <= (if |a| < |b| then |b| else |a|) + 1
    decreases |b|
  {
    SharedDigitsDecideNothing(a, b);
    var shared := CommonPrefixLen(a, b);
    if shared > 0 then
      var m := Midpoint(Drop(a, shared), b[shared..]);
      UnderSharedDigits(a, b, m);
      b[..shared] + m
    else
      assert Drop(a, 0) == a && b[0..] == b;
      MidpointApart(a, b)
  }

  lemma UnderSharedDigits(a: string, b: string, m: string)
    requires IsFraction(a) && IsFraction(b) && IsFraction(m) && m != ""
    requires var n := CommonPrefixLen(a, b);
             AllDigits(Drop(a, n)) && AllDigits(b[n..]) && Frac(Drop(a, n)) < Frac(m) < Frac(b[n..])
    ensures var s := b[..CommonPrefixLen(a, b)] + m;
            IsFraction(s) && Frac(a) < Frac(s) < Frac(b)
  {
    var n := CommonPrefixLen(a, b);
    SharedDigitsPad(a, b);
    FracAfterPrefix(b[..n], Drop(a, n), m);
    FracAfterPrefix(b[..n], m, b[n..]);
    assert b[..n] + b[n..] == b;
  }

  // --------------------------------------------------------------- between

  /** A key below the one that splits into this integer and fraction. */
  function Before(integer: string, fraction: string): Result<string, KeyError>
    requires IsInteger(integer) && IsFraction(fraction)
    requires integer + fraction != SMALLEST_INTEGER
  {
    if integer == SMALLEST_INTEGER then
      assert integer + "" == integer;
      FractionIsPositive(fraction);
      Success(integer + Midpoint("", fraction))
    else if fraction != "" then Success(integer)
    else
      var stepped :- Decrement(integer);
      if stepped == SMALLEST_INTEGER then Success(stepped + MidpointAfter(""))
      else Success(stepped)
  }

  /** A key above the one that splits into this integer and fraction. */
  function After(integer: string, fraction: string): string
    requires IsInteger(integer) && IsFraction(fraction)
  {
    var stepped := Increment(integer);
    if stepped.Failure? then integer + MidpointAfter(fraction) else stepped.value
  }

  lemma SplitGivesParts(key: string)
    ensures Split(key).Failure? ==> Split(key).error == InvalidKey
    ensures Valid(key) ==>
              var (integer, fraction) := Split(key).value;
              && IsInteger(integer) && IsFraction(fraction)
              && integer + fraction == key && key != SMALLEST_INTEGER && key != ""
  {
  }

  /** Integer parts are prefix-free: at most one cut of a string is a key. */
  lemma SplitOfParts(integer: string, fraction: string)
    requires IsInteger(integer) && IsFraction(fraction)
    requires integer + fraction != SMALLEST_INTEGER
    ensures Split(integer + fraction) == Success((integer, fraction))
  {
    var key := integer + fraction;
    assert key[0] == integer[0];
    assert key[..|integer|] == integer && key[|integer|..] == fraction;
    assert AllDigits(key);
  }

  lemma SameIntegerOrder(integer: string, a: string, b: string)
    requires IsFraction(a) && IsFraction(b)
    ensures Below(integer + a, integer + b) <==> Frac(a) < Frac(b)
  {
    BelowByParts(integer, a, integer, b);
    BelowIsIrreflexive(integer);
    FracOrder(a, b);
  }

  /** A key strictly after `prev` and strictly before `next`; an empty bound is
      no bound. */
  function Between(prev: string, next: string): Result<string, KeyError> {
    var (prevInt, prevFrac) :- SplitBound(prev);
    var (nextInt, nextFrac) :- SplitBound(next);
    SplitGivesParts(prev);
    SplitGivesParts(next);
    if prev != "" && next != "" && !Below(prev, next) then Failure(NotAscending)
    else if prev == "" && next == "" then Success(FIRST_KEY)
    else if prev == "" then Before(nextInt, nextFrac)
    else if next == "" then Success(After(prevInt, prevFrac))
    else if prevInt == nextInt then
      SameIntegerOrder(prevInt, prevFrac, nextFrac);
      Success(prevInt + Midpoint(prevFrac, nextFrac))
    else
      var stepped :- Increment(prevInt);
      if Below(stepped, next) then Success(stepped)
      else Success(prevInt + MidpointAfter(prevFrac))
  }
}
