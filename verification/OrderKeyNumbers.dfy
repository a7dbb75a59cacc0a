/** The number an order key names, and why byte order on keys is its order. */
module OrderKeyNumbers {
  import opened Results
  import opened Base62
  import opened OrderKeys

  // ------------------------------------------------------- integer parts

  /** 62 + 62^2 + ... + 62^k: how many integers need fewer than k + 1 digits on
      one side of the seam between "Zz" and "a0". */
  function Offset(k: nat): (n: nat)
    ensures n >= k
  {
    if k == 0 then 0 else Offset(k - 1) + Pow62(k)
  }

  /** "a0" is zero; the headers count outwards from it in both directions. */
  function IntegerValue(s: string): int
    requires IsInteger(s)
  {
    var n := |s| - 1;
    if s[0] >= 'a' then Offset(n - 1) + Num(s[1..]) else Num(s[1..]) - Offset(n)
  }

  lemma {:induction false} OffsetIsMonotone(j: nat, k: nat)
    requires j <= k
    ensures Offset(j) <= Offset(k)
  {
    if j < k {
      OffsetIsMonotone(j, k - 1);
    }
  }

  lemma OffsetStep(k: nat)
    requires k > 0
    ensures Offset(k) == Offset(k - 1) + Pow62(k)
  {
  }

  /** Byte order on integer parts is numeric order, and no two share a value. */
  lemma IntegerOrder(i: string, j: string)
    requires IsInteger(i) && IsInteger(j)
    ensures Below(i, j) <==> IntegerValue(i) < IntegerValue(j)
    ensures i == j <==> IntegerValue(i) == IntegerValue(j)
  {
    if i[0] == j[0] {
      NumOrder(i[1..], j[1..]);
      assert i == [i[0]] + i[1..] && j == [j[0]] + j[1..];
    } else if i[0] < j[0] {
      HeadersOrder(i, j);
    } else {
      HeadersOrder(j, i);
    }
  }

  lemma HeadersOrder(i: string, j: string)
    requires IsInteger(i) && IsInteger(j) && i[0] < j[0]
    ensures IntegerValue(i) < IntegerValue(j)
  {
    hide Num, Offset;
    var m, n := |i| - 1, |j| - 1;
    OffsetStep(m);
    OffsetStep(n);
    if 'a' <= i[0] {
      OffsetIsMonotone(m, n - 1);
    } else if j[0] <= 'Z' {
      OffsetIsMonotone(n, m - 1);
    }
  }

  /** No integer part is a proper prefix of another. */
  lemma IntegersArePrefixFree(i: string, j: string)
    requires IsInteger(i) && IsInteger(j) && i <= j
    ensures i == j
  {
  }

  // ----------------------------------------------------------- whole keys

  function IntegerOf(key: string): string
    requires Valid(key)
  {
    Split(key).value.0
  }

  function FractionOf(key: string): string
    requires Valid(key)
  {
    Split(key).value.1
  }

  /** A key reads as its integer plus its fraction. */
  function Value(key: string): real
    requires Valid(key)
  {
    SplitGivesParts(key);
    IntegerValue(IntegerOf(key)) as real + Frac(FractionOf(key))
  }

  /** Comparing two keys byte by byte compares the numbers they name, and every
      number is named by at most one key. */
  lemma ByteOrderIsNumericOrder(k1: string, k2: string)
    requires Valid(k1) && Valid(k2)
    ensures Below(k1, k2) <==> Value(k1) < Value(k2)
    ensures k1 == k2 <==> Value(k1) == Value(k2)
  {
    SplitGivesParts(k1);
    SplitGivesParts(k2);
    var i1, i2 := IntegerOf(k1), IntegerOf(k2);
    var f1, f2 := FractionOf(k1), FractionOf(k2);
    IntegerOrder(i1, i2);
    FracOrder(f1, f2);
    if |i1| == |i2| {
      BelowByParts(i1, f1, i2, f2);
      BelowIsIrreflexive(i1);
    } else {
      assert i1[0] == k1[0] && i2[0] == k2[0];
    }
  }

  // ------------------------------------------------------------- stepping

  lemma {:induction false} AddOneAddsOne(body: string)
    requires AllDigits(body)
    ensures var (sum, carry) := AddOne(body);
            && Num(sum) + (if carry then Pow62(|body|) else 0) == Num(body) + 1
            && (carry ==> Num(sum) == 0)
  {
    if body != "" {
      var n := |body| - 1;
      AddOneAddsOne(body[..n]);
      var (rest, _) := AddOne(body[..n]);
      assert (rest + "0")[..n] == rest;
      var next := IndexOf(body[n]) + 1;
      if next < 62 {
        assert (body[..n] + [Digit(next)])[..n] == body[..n];
      }
    }
  }

  lemma {:induction false} SubtractOneSubtractsOne(body: string)
    requires AllDigits(body)
    ensures var (difference, borrow) := SubtractOne(body);
            && Num(difference) - (if borrow then Pow62(|body|) else 0) == Num(body) - 1
  {
    if body != "" {
      var n := |body| - 1;
      SubtractOneSubtractsOne(body[..n]);
      var (rest, _) := SubtractOne(body[..n]);
      assert (rest + "z")[..n] == rest;
      var next := IndexOf(body[n]) - 1;
      if 0 <= next {
        assert (body[..n] + [Digit(next)])[..n] == body[..n];
      }
    }
  }

  lemma NumOfSnoc(s: string, c: char)
    requires AllDigits(s) && IsDigit(c)
    ensures AllDigits(s + [c]) && Num(s + [c]) == 62 * Num(s) + IndexOf(c)
  {
    assert (s + [c])[..|s|] == s;
  }

  lemma ValueOfParts(h: char, body: string)
    requires IntegerWidth(h) == Success(|body| + 1) && AllDigits(body)
    ensures IsInteger([h] + body)
    ensures IntegerValue([h] + body) ==
            if h >= 'a' then Offset(|body| - 1) + Num(body) else Num(body) - Offset(|body|)
  {
    hide Num, Offset;
    assert ([h] + body)[1..] == body;
  }

  /** One step up: the value rises by exactly one across every carry, change of
      width and the seam, and only the topmost integer has no successor. */
  lemma IncrementIsSuccessor(i: string)
    requires IsInteger(i)
    ensures match Increment(i)
            case Success(j) => IsInteger(j) && IntegerValue(j) == IntegerValue(i) + 1
            case Failure(e) => e == Exhausted && forall j | IsInteger(j) :: IntegerValue(j) <= IntegerValue(i)
  {
    hide AddOne, IntegerValue, IsInteger, Num, Offset, Pow62;
    HeadAndBody(i);
    var body := i[1..];
    AddOneAddsOne(body);
    var (sum, carry) := AddOne(body);
    if !carry {
      ValueOfParts(i[0], sum);
    } else if i[0] == 'Z' {
      SeamIsZero(body);
    } else if i[0] == 'z' {
      TopIsHighest(i);
    } else {
      WiderOrNarrowerUp(i, sum);
    }
  }

  lemma HeadAndBody(i: string)
    requires IsInteger(i)
    ensures i != "" && IntegerWidth(i[0]) == Success(|i|) && AllDigits(i[1..])
    ensures |i| >= 2 && i == [i[0]] + i[1..]
    ensures IntegerValue(i) == if i[0] >= 'a' then Offset(|i| - 2) + Num(i[1..]) else Num(i[1..]) - Offset(|i| - 1)
  {
    hide Num, Offset, Pow62;
  }

  lemma SeamIsZero(body: string)
    requires |body| == 1 && AllDigits(body) && Num(body) == Pow62(1) - 1
    ensures IsInteger(FIRST_KEY) && IntegerValue(FIRST_KEY) == 0 == Num(body) - Offset(1) + 1
  {
    ValueOfParts('a', "0");
  }

  lemma {:induction false} TopIsHighest(i: string)
    requires IsInteger(i) && i[0] == 'z' && Num(i[1..]) == Pow62(|i| - 1) - 1
    ensures forall j | IsInteger(j) :: IntegerValue(j) <= IntegerValue(i)
    ensures IntegerValue(i) == Offset(|i| - 1) - 1
  {
    OffsetStep(|i| - 1);
    hide Num, Offset;
    forall j | IsInteger(j) ensures IntegerValue(j) <= IntegerValue(i) {
      WidestBounds(j, |i| - 1);
    }
  }

  lemma WiderOrNarrowerUp(i: string, sum: string)
    requires IsInteger(i) && AllDigits(sum) && |sum| == |i| - 1 && i[0] != 'Z' && i[0] != 'z'
    requires Num(sum) == 0 && Num(i[1..]) == Pow62(|sum|) - 1
    ensures var h := (i[0] as int + 1) as char;
            var j := if h > 'a' then [h] + sum + "0" else [h] + sum[..|sum| - 1];
            IsInteger(j) && IntegerValue(j) == IntegerValue(i) + 1
  {
    hide IntegerValue, IsInteger, Num, Offset, Pow62;
    HeadAndBody(i);
    var h := (i[0] as int + 1) as char;
    OffsetStep(|sum|);
    if h > 'a' {
      WiderUp(h, sum);
      assert [h] + sum + "0" == [h] + (sum + "0");
    } else {
      NarrowerUp(h, sum);
    }
  }

  lemma WiderUp(h: char, zeros: string)
    requires AllDigits(zeros) && Num(zeros) == 0 && 'a' <= h <= 'z' && IntegerWidth(h) == Success(|zeros| + 2)
    ensures IsInteger([h] + (zeros + "0")) && IntegerValue([h] + (zeros + "0")) == Offset(|zeros|)
  {
    hide Num, IntegerValue, IsInteger, Offset, Pow62;
    NumOfSnoc(zeros, '0');
    ValueOfParts(h, zeros + "0");
  }

  lemma NarrowerUp(h: char, zeros: string)
    requires AllDigits(zeros) && zeros != "" && Num(zeros) == 0
    requires 'A' <= h <= 'Z' && IntegerWidth(h) == Success(|zeros|)
    ensures IsInteger([h] + zeros[..|zeros| - 1])
    ensures IntegerValue([h] + zeros[..|zeros| - 1]) == 0 - Offset(|zeros| - 1)
  {
    hide Num, IntegerValue, IsInteger, Offset, Pow62;
    ZeroShortened(zeros);
    ValueOfParts(h, zeros[..|zeros| - 1]);
  }

  /** One step down, failing only at the floor. */
  lemma DecrementIsPredecessor(i: string)
    requires IsInteger(i)
    ensures match Decrement(i)
            case Success(j) => IsInteger(j) && IntegerValue(j) == IntegerValue(i) - 1
            case Failure(e) => e == Exhausted && i == SMALLEST_INTEGER
  {
    hide SubtractOne, IntegerValue, IsInteger, Num, Offset, Pow62;
    HeadAndBody(i);
    var body := i[1..];
    SubtractOneSubtractsOne(body);
    var (difference, borrow) := SubtractOne(body);
    if !borrow {
      ValueOfParts(i[0], difference);
    } else if i[0] == 'a' {
      SeamIsMinusOne();
    } else if i[0] == 'A' {
      ZeroIsSpeltWithZeros(body);
    } else {
      WiderOrNarrowerDown(i, difference);
    }
  }

  lemma SeamIsMinusOne()
    ensures IsInteger("Zz") && IntegerValue("Zz") == -1 && Offset(0) == 0
  {
    ValueOfParts('Z', "z");
    assert Offset(1) == 62 && Num("z") == 61;
  }

  lemma ZeroShortened(s: string)
    requires AllDigits(s) && s != "" && Num(s) == 0
    ensures Num(s[..|s| - 1]) == 0
  {
  }

  lemma AllNinesShortened(s: string)
    requires AllDigits(s) && s != "" && Num(s) == Pow62(|s|) - 1
    ensures Num(s[..|s| - 1]) == Pow62(|s| - 1) - 1
  {
  }

  lemma WiderOrNarrowerDown(i: string, difference: string)
    requires IsInteger(i) && AllDigits(difference) && |difference| == |i| - 1 && i[0] != 'a' && i[0] != 'A'
    requires Num(i[1..]) == 0 && Num(difference) == Pow62(|difference|) - 1
    ensures var h := (i[0] as int - 1) as char;
            var j := if h < 'Z' then [h] + difference + "z" else [h] + difference[..|difference| - 1];
            IsInteger(j) && IntegerValue(j) == IntegerValue(i) - 1
  {
    hide IntegerValue, IsInteger, Num, Offset, Pow62;
    HeadAndBody(i);
    var h := (i[0] as int - 1) as char;
    if h < 'Z' {
      WiderDown(h, difference);
      assert [h] + difference + "z" == [h] + (difference + "z");
    } else {
      NarrowerDown(h, difference);
    }
  }

  lemma WiderDown(h: char, nines: string)
    requires AllDigits(nines) && Num(nines) == Pow62(|nines|) - 1
    requires 'A' <= h < 'Z' && IntegerWidth(h) == Success(|nines| + 2)
    ensures IsInteger([h] + (nines + "z"))
    ensures IntegerValue([h] + (nines + "z")) == 0 - Offset(|nines|) - 1
  {
    var n := |nines|;
    OffsetStep(n + 1);
    assert Pow62(n + 1) == 62 * Pow62(n);
    hide Num, IntegerValue, IsInteger, Offset, Pow62;
    NumOfSnoc(nines, 'z');
    ValueOfParts(h, nines + "z");
  }

  lemma NarrowerDown(h: char, nines: string)
    requires AllDigits(nines) && nines != "" && Num(nines) == Pow62(|nines|) - 1
    requires 'a' <= h <= 'z' && IntegerWidth(h) == Success(|nines|) && |nines| >= 2
    ensures IsInteger([h] + nines[..|nines| - 1])
    ensures IntegerValue([h] + nines[..|nines| - 1]) == Offset(|nines| - 1) - 1
  {
    var n := |nines|;
    OffsetStep(n - 1);
    hide Num, IntegerValue, IsInteger, Offset, Pow62;
    AllNinesShortened(nines);
    ValueOfParts(h, nines[..n - 1]);
  }

  /** Every integer part lies within the range its widest spelling spans. */
  lemma WidestBounds(j: string, n: nat)
    requires IsInteger(j) && |j| - 1 <= n
    ensures 0 - Offset(n) <= IntegerValue(j) < Offset(n)
  {
    OffsetIsMonotone(|j| - 1, n);
  }

  lemma {:induction false} ZeroIsSpeltWithZeros(s: string)
    requires AllDigits(s)
    ensures Num(s) == 0 <==> s == Zeros(|s|)
  {
    if s != "" {
      var n := |s| - 1;
      ZeroIsSpeltWithZeros(s[..n]);
      assert Zeros(n + 1)[..n] == Zeros(n);
      assert s == s[..n] + [s[n]];
    }
  }

  /** The floor is an integer part, and no integer part lies below it. */
  lemma FloorIsLowest(j: string)
    requires IsInteger(j)
    ensures IsInteger(SMALLEST_INTEGER)
    ensures IntegerValue(SMALLEST_INTEGER) <= IntegerValue(j)
    ensures IntegerValue(SMALLEST_INTEGER) == IntegerValue(j) <==> j == SMALLEST_INTEGER
  {
    var i := SMALLEST_INTEGER;
    assert i[1..] == Zeros(26);
    FloorBounds(i, j);
    IntegerOrder(i, j);
  }

  lemma FloorBounds(i: string, j: string)
    requires IsInteger(i) && IsInteger(j) && i[0] == 'A' && i[1..] == Zeros(|i| - 1)
    ensures IntegerValue(i) <= IntegerValue(j)
  {
    ZeroIsSpeltWithZeros(i[1..]);
    WidestBounds(j, |i| - 1);
  }

  /** The two steps undo each other wherever they are defined. */
  lemma StepsUndoEachOther(i: string)
    requires IsInteger(i)
    ensures Increment(i).Success? ==>
              IsInteger(Increment(i).value) && Decrement(Increment(i).value) == Success(i)
    ensures Decrement(i).Success? ==>
              IsInteger(Decrement(i).value) && Increment(Decrement(i).value) == Success(i)
  {
    IncrementIsSuccessor(i);
    DecrementIsPredecessor(i);
    var up, down := Increment(i), Decrement(i);
    if up.Success? {
      DecrementIsPredecessor(up.value);
      FloorIsLowest(i);
      IntegerOrder(i, Decrement(up.value).value);
    }
    if down.Success? {
      IncrementIsSuccessor(down.value);
      IntegerOrder(i, Increment(down.value).value);
    }
  }
}
