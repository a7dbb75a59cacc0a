/** How short the keys are that `Between` chooses. Under one integer its key is as
    short as any that fits; stepping to the next integer promises as much in a
    comment, and keeps it except where a narrower integer lies further up. */
module OrderKeyLengths {
  import opened Results
  import opened Base62
  import opened OrderKeys
  import opened OrderKeyNumbers
  import opened OrderKeyBetween

  // ------------------------------------------------------------- fractions

  /** No fraction above `a` is shorter than the one appended after it. */
  lemma {:induction false} MidpointAfterIsShortest(a: string, x: string)
    requires IsFraction(a) && IsFraction(x) && Frac(a) < Frac(x)
    ensures |MidpointAfter(a)| <= |x|
    decreases |a|
  {
    FractionTail(a);
    FractionTail(x);
    if LeadingDigit(a) == 61 {
      assert LeadingDigit(x) == 61;
      MidpointAfterIsShortest(Drop(a, 1), Drop(x, 1));
    }
  }

  lemma LeadingDigitDropped(a: string, b: string)
    requires IsFraction(a) && IsFraction(b) && Frac(a) < Frac(b) && LeadingDigit(a) == LeadingDigit(b)
    ensures b != "" && Drop(b, 1) == b[1..] && IsFraction(Drop(a, 1)) && IsFraction(b[1..])
    ensures Frac(Drop(a, 1)) < Frac(b[1..])
    ensures CommonPrefixLen(a, b) == CommonPrefixLen(Drop(a, 1), b[1..]) + 1
  {
    FractionTail(a);
    FractionTail(b);
    SameLeadingDigit(a, b);
    assert Drop(b, 1) == b[1..];
  }

  lemma DroppedTwice(a: string, b: string, n: nat)
    requires 0 < n <= |b|
    ensures Drop(Drop(a, 1), n - 1) == Drop(a, n) && b[1..][n - 1..] == b[n..]
    ensures b[..n] == [b[0]] + b[1..][..n - 1]
  {
  }

  /** A shared digit is kept and the rest is divided as if it were not there. */
  lemma {:induction false} MidpointUnderDigit(a: string, b: string)
    requires IsFraction(a) && IsFraction(b) && Frac(a) < Frac(b) && LeadingDigit(a) == LeadingDigit(b)
    ensures b != "" && IsFraction(Drop(a, 1)) && IsFraction(b[1..]) && Frac(Drop(a, 1)) < Frac(b[1..])
    ensures Midpoint(a, b) == [b[0]] + Midpoint(Drop(a, 1), b[1..])
  {
    hide Frac, IsFraction, LeadingDigit, Midpoint, MidpointApart, CommonPrefixLen;
    LeadingDigitDropped(a, b);
    var shared := CommonPrefixLen(a, b);
    var a', b' := Drop(a, 1), b[1..];
    MidpointApartOnly(a, b, shared);
    MidpointApartOnly(a', b', shared - 1);
    DroppedTwice(a, b, shared);
  }

  lemma ApartSharesNothing(a: string, b: string)
    requires IsFraction(a) && IsFraction(b) && Frac(a) < Frac(b) && LeadingDigit(a) < LeadingDigit(b)
    ensures CommonPrefixLen(a, b) == 0 && Midpoint(a, b) == MidpointApart(a, b)
  {
    hide Frac, IsFraction, MidpointApart;
    assert AllDigits(a) && AllDigits(b) by { FractionsAreDigits(a); FractionsAreDigits(b); }
    SameLeadingDigit(a, b);
  }

  lemma {:induction false} MidpointApartOnly(a: string, b: string, shared: nat)
    requires IsFraction(a) && IsFraction(b) && Frac(a) < Frac(b) && shared == CommonPrefixLen(a, b)
    ensures shared < |b| && IsFraction(Drop(a, shared)) && IsFraction(b[shared..])
    ensures LeadingDigit(Drop(a, shared)) < LeadingDigit(b[shared..])
    ensures Midpoint(a, b) == b[..shared] + MidpointApart(Drop(a, shared), b[shared..])
  {
    hide Frac, IsFraction, LeadingDigit, MidpointApart, CommonPrefixLen;
    SharedDigitsDecideNothing(a, b);
    ApartSharesNothing(Drop(a, shared), b[shared..]);
    assert Drop(a, 0) == a && b[0..] == b;
  }

  /** No fraction strictly between two others is shorter than their midpoint. */
  lemma {:induction false} MidpointIsShortest(a: string, b: string, x: string)
    requires IsFraction(a) && IsFraction(b) && IsFraction(x) && Frac(a) < Frac(x) < Frac(b)
    ensures |Midpoint(a, b)| <= |x|
    decreases |b|
  {
    FractionTail(a);
    FractionTail(b);
    FractionTail(x);
    SameLeadingDigit(a, b);
    assert Drop(b, 1) == b[1..];
    if LeadingDigit(a) == LeadingDigit(b) {
      assert LeadingDigit(x) == LeadingDigit(b);
      MidpointUnderDigit(a, b);
      MidpointIsShortest(Drop(a, 1), b[1..], Drop(x, 1));
    } else {
      assert Drop(a, 0) == a && b[0..] == b;
      if LeadingDigit(b) == LeadingDigit(a) + 1 && |b| == 1 {
        assert LeadingDigit(x) == LeadingDigit(a);
        MidpointAfterIsShortest(Drop(a, 1), Drop(x, 1));
      }
    }
  }

  /** Where a single digit fits, the one chosen halves the room, rounding up. */
  lemma SingleDigitsHalve(a: string, b: string)
    requires IsFraction(a) && IsFraction(b)
    ensures LeadingDigit(a) < 61 ==>
              var m := MidpointAfter(a);
              |m| == 1 && 0 <= 2 * LeadingDigit(m) - (LeadingDigit(a) + 62) <= 1
    ensures LeadingDigit(a) + 1 < LeadingDigit(b) ==>
              && Frac(a) < Frac(b)
              && var m := Midpoint(a, b);
              |m| == 1 && 0 <= 2 * LeadingDigit(m) - (LeadingDigit(a) + LeadingDigit(b)) <= 1
  {
    FractionTail(a);
    FractionTail(b);
    if LeadingDigit(a) + 1 < LeadingDigit(b) {
      SameLeadingDigit(a, b);
      assert Drop(a, 0) == a && b[0..] == b;
    }
  }

  // ------------------------------------------------------------------ keys

  /** No valid key inside the bounds is shorter; an empty bound is no bound. */
  ghost predicate ShortestInside(prev: string, key: string, next: string) {
    forall x :: Valid(x) && Inside(prev, x, next) ==> |key| <= |x|
  }

  /** Between two keys of one integer no valid key is shorter than `Between`'s. */
  lemma SameIntegerIsShortest(prev: string, next: string)
    requires Valid(prev) && Valid(next) && Below(prev, next) && IntegerOf(prev) == IntegerOf(next)
    ensures Between(prev, next).Success? && ShortestInside(prev, Between(prev, next).value, next)
  {
    SplitGivesParts(prev);
    SplitGivesParts(next);
    var i, f, g := IntegerOf(prev), FractionOf(prev), FractionOf(next);
    SameIntegerOrder(i, f, g);
    hide Split, Below, IsInteger, IntegerValue;
    forall x | Valid(x) && Inside(prev, x, next) ensures |i + Midpoint(f, g)| <= |x| {
      SplitGivesParts(x);
      ByteOrderIsNumericOrder(prev, x);
      ByteOrderIsNumericOrder(x, next);
      IntegerOrder(IntegerOf(x), i);
      MidpointIsShortest(f, g, FractionOf(x));
    }
  }

  /** The lowest integer one digit narrower than a negative one. */
  function Narrower(integer: string): string
    requires IsInteger(integer) && integer[0] < 'Z'
  {
    [(integer[0] as int + 1) as char] + Zeros(|integer| - 2)
  }

  /** A narrower integer lies above the step and below the upper bound. */
  predicate PassesNarrower(stepped: string, next: string)
    requires IsInteger(stepped)
  {
    stepped[0] < 'Z' && Below(Narrower(stepped), next)
  }

  lemma NarrowerIsLowest(i: string, j: string)
    requires IsInteger(i) && IsInteger(j) && i[0] < 'Z'
    ensures IsInteger(Narrower(i)) && |Narrower(i)| == |i| - 1
    ensures IntegerValue(i) < IntegerValue(Narrower(i))
    ensures i[0] < j[0] ==> IntegerValue(Narrower(i)) <= IntegerValue(j)
  {
    var n := Narrower(i);
    assert n[1..] == Zeros(|i| - 2);
    HeadersOrder(i, n);
    ZeroIsSpeltWithZeros(n[1..]);
    if n[0] < j[0] {
      HeadersOrder(n, j);
    }
  }

  /** An integer at or above another, and narrower, has passed the seam or the
      lowest integer of the next width down. */
  lemma NarrowerAbove(i: string, j: string)
    requires IsInteger(i) && IsInteger(j) && IntegerValue(i) <= IntegerValue(j) && |j| < |i|
    ensures i[0] < 'Z' && IntegerValue(Narrower(i)) <= IntegerValue(j)
  {
    if j[0] < i[0] {
      HeadersOrder(j, i);
    }
    assert i[0] < j[0];
    NarrowerIsLowest(i, j);
  }

  /** Stepping to the next integer gives the shortest key that fits exactly when
      no narrower integer lies between the step and the upper bound. */
  lemma StepIsShortestIff(prev: string, next: string)
    requires Valid(prev) && Valid(next) && Below(prev, next) && IntegerOf(prev) != IntegerOf(next)
    requires Increment(IntegerOf(prev)).Success? && Below(Increment(IntegerOf(prev)).value, next)
    ensures var stepped := Increment(IntegerOf(prev)).value;
            && Between(prev, next) == Success(stepped) && IsInteger(stepped)
            && (ShortestInside(prev, stepped, next) <==> !PassesNarrower(stepped, next))
  {
    SplitGivesParts(prev);
    SplitGivesParts(next);
    var i := IntegerOf(prev);
    IncrementIsSuccessor(i);
    IncrementLength(i);
    FloorIsLowest(i);
    var stepped := Increment(i).value;
    hide Split, Below, IsInteger, IntegerValue, Increment;
    if PassesNarrower(stepped, next) {
      NarrowerFits(prev, next, stepped);
    } else {
      forall x | Valid(x) && Inside(prev, x, next) ensures |stepped| <= |x| {
        NothingShorterFits(prev, next, stepped, x);
      }
    }
  }

  lemma {:induction false} NarrowerFits(prev: string, next: string, stepped: string)
    requires Valid(prev) && Valid(next) && IsInteger(stepped) && IsInteger(IntegerOf(prev))
    requires IntegerValue(stepped) == IntegerValue(IntegerOf(prev)) + 1 && PassesNarrower(stepped, next)
    ensures var x := Narrower(stepped);
            Valid(x) && Below(prev, x) && Below(x, next) && |x| < |stepped|
  {
    SplitGivesParts(prev);
    var x := Narrower(stepped);
    NarrowerIsLowest(stepped, stepped);
    FloorIsLowest(stepped);
    IntegerMakesAKey(x);
    ByteOrderIsNumericOrder(prev, x);
  }

  lemma {:induction false} NothingShorterFits(prev: string, next: string, stepped: string, x: string)
    requires Valid(prev) && Valid(next) && Valid(x) && Below(prev, x) && Below(x, next)
    requires IsInteger(stepped) && IsInteger(IntegerOf(prev)) && |stepped| <= |IntegerOf(prev)| + 1
    requires IntegerValue(stepped) == IntegerValue(IntegerOf(prev)) + 1 && !PassesNarrower(stepped, next)
    ensures |stepped| <= |x|
  {
    SplitGivesParts(prev);
    SplitGivesParts(x);
    ByteOrderIsNumericOrder(prev, x);
    ByteOrderIsNumericOrder(x, next);
    var i, j := IntegerOf(prev), IntegerOf(x);
    IntegerOrder(i, j);
    hide Split, Below, IntegerValue, IsFraction;
    if i == j {
      assert FractionOf(x) != "";
    } else if |x| < |stepped| {
      NarrowerAbove(stepped, j);
      var n := Narrower(stepped);
      NarrowerIsLowest(stepped, j);
      FloorIsLowest(stepped);
      IntegerMakesAKey(n);
      ByteOrderIsNumericOrder(n, next);
      assert false;
    }
  }

  /** Where it does not: three characters are chosen though two fit. */
  lemma StepIsNotAlwaysShortest()
    ensures Between("Y00", "a0") == Success("Y01")
    ensures Valid("Zz") && Below("Y00", "Zz") && Below("Zz", "a0")
  {
    assert |SMALLEST_INTEGER| == 27;
    assert "Y00"[..3] == "Y00" && "Y00"[3..] == "";
    assert "a0"[..2] == "a0" && "a0"[2..] == "";
    assert AllDigits("Y00") && AllDigits("a0") && AllDigits("Zz");
    var body := "00";
    assert "Y00"[1..] == body && body[..1] == "0";
    assert IndexOf(body[1]) == 0 && Digit(1) == '1' && body[..1] + [Digit(1)] == "01";
    assert AddOne(body) == ("01", false);
    assert ['Y'] + "01" == "Y01";
  }

  // ------------------------------------------------------------- list ends

  /** Appending takes the lowest integer above the last key, wherever there is
      any: no integer key lies between. */
  lemma AppendTakesNextInteger(k: string, y: string)
    requires Valid(k) && Valid(y) && IsInteger(y) && Below(k, y)
    ensures Between(k, "").Success?
    ensures var x := Between(k, "").value; IsInteger(x) && Below(k, x) && !Below(y, x)
  {
    SplitGivesParts(k);
    SplitGivesParts(y);
    var i := IntegerOf(k);
    IncrementIsSuccessor(i);
    FloorIsLowest(i);
    hide Split, Below, IsInteger, IntegerValue, Increment;
    IntegerMakesAKey(y);
    ByteOrderIsNumericOrder(k, y);
    var x := Increment(i).value;
    IntegerMakesAKey(x);
    ByteOrderIsNumericOrder(k, x);
    IntegerOrder(y, x);
  }

  /** Prepending takes the highest integer below the first key, wherever there is
      any that is itself a key. */
  lemma PrependTakesLastInteger(k: string, y: string)
    requires Valid(k) && Valid(y) && IsInteger(y) && Below(y, k)
    ensures Between("", k).Success?
    ensures var x := Between("", k).value; IsInteger(x) && Below(x, k) && !Below(x, y)
  {
    SplitGivesParts(k);
    SplitGivesParts(y);
    var i, f := IntegerOf(k), FractionOf(k);
    DecrementIsPredecessor(i);
    FloorIsLowest(i);
    FloorIsLowest(y);
    hide Split, Below, IsInteger, IntegerValue, Decrement;
    IntegerMakesAKey(y);
    ByteOrderIsNumericOrder(y, k);
    var x := if f != "" then i else Decrement(i).value;
    if f != "" {
      FractionIsPositive(f);
    }
    IntegerMakesAKey(x);
    ByteOrderIsNumericOrder(x, k);
    IntegerOrder(x, y);
  }

  // -------------------------------------------------------- every branch

  /** Every key has a header and a digit at least. */
  lemma KeysHaveTwo(x: string)
    requires Valid(x)
    ensures |x| >= 2 && |IntegerOf(x)| <= |x| && IsInteger(IntegerOf(x))
    ensures IntegerOf(x)[0] == x[0] && (FractionOf(x) != "" ==> |x| >= |IntegerOf(x)| + 1)
  {
    SplitGivesParts(x);
  }

  /** Two integers at one side of the seam are as wide as they are far from it. */
  lemma WidthGrowsAway(i: string, j: string)
    requires IsInteger(i) && IsInteger(j) && IntegerValue(i) <= IntegerValue(j)
    ensures j[0] <= 'a' ==> |j| <= |i|
    ensures i[0] >= 'Z' ==> |i| <= |j|
  {
    if j[0] < i[0] {
      HeadersOrder(j, i);
    }
    assert i[0] <= j[0];
  }

  /** Where the step up does not fit, the bounds leave only fractions of the lower
      integer, and the one chosen is the shortest. */
  lemma NoStepIsShortest(prev: string, next: string)
    requires Valid(prev) && Valid(next) && Below(prev, next) && IntegerOf(prev) != IntegerOf(next)
    requires IsInteger(IntegerOf(prev)) && Increment(IntegerOf(prev)).Success?
             && !Below(Increment(IntegerOf(prev)).value, next)
    ensures Between(prev, next).Success? && ShortestInside(prev, Between(prev, next).value, next)
  {
    SplitGivesParts(prev);
    SplitGivesParts(next);
    var i, f := IntegerOf(prev), FractionOf(prev);
    IncrementIsSuccessor(i);
    FloorIsLowest(i);
    var stepped := Increment(i).value;
    hide Split, Below, IsInteger, IntegerValue, Increment;
    IntegerMakesAKey(stepped);
    ByteOrderIsNumericOrder(stepped, next);
    forall x | Valid(x) && Inside(prev, x, next) ensures |i + MidpointAfter(f)| <= |x| {
      SplitGivesParts(x);
      ByteOrderIsNumericOrder(prev, x);
      ByteOrderIsNumericOrder(x, next);
      IntegerOrder(IntegerOf(x), i);
      MidpointAfterIsShortest(f, FractionOf(x));
    }
  }

  /** The integers up to the width of "a0" are those below "b00". */
  lemma NarrowPositives(i: string)
    requires IsInteger(i)
    ensures IsInteger("b00") && (i[0] <= 'a' <==> IntegerValue(i) < IntegerValue("b00"))
  {
    var first := "b00";
    assert first[1..] == Zeros(2);
    ZeroIsSpeltWithZeros(first[1..]);
    if i[0] < first[0] {
      HeadersOrder(i, first);
    } else if first[0] < i[0] {
      HeadersOrder(first, i);
    }
  }

  /** The integers from the width of "Zz" up are those above "Yzz". */
  lemma NarrowNegatives(i: string)
    requires IsInteger(i)
    ensures IsInteger("Yzz") && (i[0] >= 'Z' <==> IntegerValue("Yzz") < IntegerValue(i))
  {
    var last := "Yzz";
    assert last[1..][..1] == "z" && last[1..] == "zz" && "z"[..0] == "";
    assert Num("z") == 61 && Num("zz") == 62 * 62 - 1 && Pow62(2) == 62 * 62;
    if i[0] < last[0] {
      HeadersOrder(i, last);
    } else if last[0] < i[0] {
      HeadersOrder(last, i);
    } else {
      hide Num, Offset, Pow62;
      assert |i| == 3 && Num(i[1..]) < Pow62(2);
    }
  }

  lemma HeaderBefore(k: string)
    requires Valid(k)
    ensures Between("", k).Success? && Between("", k).value != ""
    ensures Between("", k).value[0] <= 'a' <==> k[0] <= 'a' || k == "b00"
  {
    BetweenIsTotalAndStrict("", k);
    BetweenIsBefore(k);
    KeysHaveTwo(k);
    var i, f := IntegerOf(k), FractionOf(k);
    PartsOf(k);
    DecrementIsPredecessor(i);
    hide Between, Split, Below, IntegerValue, Decrement, Valid, Midpoint, MidpointAfter;
    if i != SMALLEST_INTEGER && f == "" {
      var stepped := Decrement(i).value;
      NarrowPositives(i);
      NarrowPositives(stepped);
      IntegerOrder(i, "b00");
    }
  }

  lemma HeaderAfter(k: string)
    requires Valid(k)
    ensures Between(k, "").Success? && Between(k, "").value != ""
    ensures Between(k, "").value[0] >= 'Z' <==> k[0] >= 'Z' || IntegerOf(k) == "Yzz"
  {
    BetweenIsTotalAndStrict(k, "");
    BetweenIsAfter(k);
    KeysHaveTwo(k);
    var i := IntegerOf(k);
    IncrementIsSuccessor(i);
    FailsOnlyAtTop(i);
    NarrowNegatives(i);
    IntegerOrder(i, "Yzz");
    hide Between, Split, Below, IntegerValue, Increment, Valid, MidpointAfter;
    if Increment(i).Success? {
      NarrowNegatives(Increment(i).value);
    }
  }

  lemma PartsOf(k: string)
    requires Valid(k)
    ensures k != ""
    ensures IntegerOf(k) + FractionOf(k) == k && (FractionOf(k) == "" ==> IntegerOf(k) == k)
    ensures FractionOf(k) != "" && k[0] == 'b' ==> |k| > 3
  {
    SplitGivesParts(k);
    assert IntegerOf(k) + "" == IntegerOf(k);
  }

  /** A key put before the first one is the shortest below it exactly when that one
      is no wider than "a0", which lies below every wider one, or is the first of
      those. */
  lemma PrependIsShortestIff(k: string)
    requires Valid(k)
    ensures Between("", k).Success?
    ensures ShortestInside("", Between("", k).value, k) <==> k[0] <= 'a' || k == "b00"
  {
    HeaderBefore(k);
    BetweenIsTotalAndStrict("", k);
    var key := Between("", k).value;
    hide Between, Below, Split;
    if key[0] > 'a' {
      FirstKeyIsShorter(key, k);
    } else {
      forall x | Valid(x) && Inside("", x, k) ensures |key| <= |x| {
        PrependedIsShortest(k, x);
      }
    }
  }

  lemma FirstKeyIsShorter(key: string, k: string)
    requires Valid(key) && Valid(k) && Below(key, k) && key[0] > 'a'
    ensures Valid(FIRST_KEY) && Below(FIRST_KEY, k) && |FIRST_KEY| < |key|
  {
    KeysHaveTwo(key);
    IntegerMakesAKey(FIRST_KEY);
    assert Below(FIRST_KEY, key);
    BelowIsTransitive(FIRST_KEY, key, k);
  }

  /** A lower key has a lower integer, or the same one and a lower fraction. */
  lemma LowerKeys(x: string, k: string)
    requires Valid(x) && Valid(k) && Below(x, k)
    ensures IsInteger(IntegerOf(x)) && IsInteger(IntegerOf(k)) && IsFraction(FractionOf(x)) && IsFraction(FractionOf(k))
    ensures |x| == |IntegerOf(x)| + |FractionOf(x)| && |k| == |IntegerOf(k)| + |FractionOf(k)|
    ensures IntegerValue(IntegerOf(x)) <= IntegerValue(IntegerOf(k))
    ensures IntegerOf(x) == IntegerOf(k) ==> Frac(FractionOf(x)) < Frac(FractionOf(k))
    ensures IntegerOf(x) == SMALLEST_INTEGER ==> FractionOf(x) != ""
    ensures FractionOf(k) == "" ==> IntegerValue(IntegerOf(x)) < IntegerValue(IntegerOf(k))
  {
    SplitGivesParts(x);
    SplitGivesParts(k);
    hide Split, Below, IsInteger, IntegerValue;
    ByteOrderIsNumericOrder(x, k);
    IntegerOrder(IntegerOf(x), IntegerOf(k));
  }

  lemma PrependedIsShortest(k: string, x: string)
    requires Valid(k) && Valid(x) && Below(x, k)
    requires Between("", k).Success? && Between("", k).value != "" && Between("", k).value[0] <= 'a'
    ensures |Between("", k).value| <= |x|
  {
    LowerKeys(x, k);
    BetweenIsBefore(k);
    hide Between, Split, Valid, Below, IntegerValue, IsInteger, Frac, IsFraction, MidpointAfter, Midpoint;
    var i, f, j, g := IntegerOf(k), FractionOf(k), IntegerOf(x), FractionOf(x);
    if i == SMALLEST_INTEGER {
      FloorIsLowest(j);
      UnderTheFloor(f, g);
    } else if f != "" {
      WidthGrowsAway(j, i);
    } else {
      DecrementIsPredecessor(i);
      var stepped := Decrement(i).value;
      FloorIsLowest(j);
      if stepped != SMALLEST_INTEGER {
        WidthGrowsAway(j, stepped);
      } else {
        IntegerOrder(j, stepped);
        LengthAfterNothing();
      }
    }
  }

  lemma BetweenIsBefore(k: string)
    requires Valid(k)
    ensures IsInteger(IntegerOf(k)) && IsFraction(FractionOf(k)) && IntegerOf(k) + FractionOf(k) != SMALLEST_INTEGER
    ensures Between("", k) == Before(IntegerOf(k), FractionOf(k))
  {
    SplitGivesParts(k);
  }

  lemma UnderTheFloor(f: string, g: string)
    requires IsFraction(f) && IsFraction(g) && g != "" && Frac(g) < Frac(f)
    ensures Frac("") < Frac(f) && |Midpoint("", f)| <= |g|
  {
    FractionIsPositive(g);
    MidpointIsShortest("", f, g);
  }

  lemma LengthAfterNothing()
    ensures |MidpointAfter("")| == 1
  {
  }

  lemma BetweenIsAfter(k: string)
    requires Valid(k)
    ensures IsInteger(IntegerOf(k)) && IsFraction(FractionOf(k))
    ensures Between(k, "") == Success(After(IntegerOf(k), FractionOf(k)))
  {
    SplitGivesParts(k);
  }

  /** A key put after the last one is the shortest above it exactly when that one
      is not negative and wider than "Zz", or is under the last such integer. */
  lemma AppendIsShortestIff(k: string)
    requires Valid(k)
    ensures Between(k, "").Success? && Between(k, "").value != ""
    ensures ShortestInside(k, Between(k, "").value, "") <==> k[0] >= 'Z' || IntegerOf(k) == "Yzz"
  {
    HeaderAfter(k);
    BetweenIsTotalAndStrict(k, "");
    var key := Between(k, "").value;
    hide Between, Below, Split, IsInteger;
    if key[0] < 'Z' {
      AppendedNarrower(k);
    } else {
      forall x | Valid(x) && Inside(k, x, "") ensures |key| <= |x| {
        EmptyIsNoKey(k);
        AppendedIsShortest(k, x);
      }
    }
  }

  lemma EmptyIsNoKey(k: string)
    requires Valid(k)
    ensures k != ""
  {
  }

  lemma AppendedNarrower(k: string)
    requires Valid(k) && Between(k, "").Success? && Between(k, "").value != "" && Between(k, "").value[0] < 'Z'
    ensures var key := Between(k, "").value;
            IsInteger(key) && Valid(Narrower(key)) && Inside(k, Narrower(key), "") && |Narrower(key)| < |key|
  {
    BetweenIsAfter(k);
    BetweenIsTotalAndStrict(k, "");
    IncrementIsSuccessor(IntegerOf(k));
    FailsOnlyAtTop(IntegerOf(k));
    var key := Between(k, "").value;
    hide Between, Below, Split, IntegerValue;
    FloorIsLowest(key);
    NarrowerIsLowest(key, key);
    var narrow := Narrower(key);
    IntegerMakesAKey(narrow);
    IntegerOrder(key, narrow);
    BelowIsTransitive(k, key, narrow);
  }

  lemma FailsOnlyAtTop(i: string)
    requires IsInteger(i)
    ensures Increment(i).Failure? ==> i[0] == 'z'
  {
    hide AddOne;
  }

  lemma AppendedIsShortest(k: string, x: string)
    requires Valid(k) && Valid(x) && Below(k, x)
    requires Between(k, "").Success? && Between(k, "").value != "" && Between(k, "").value[0] >= 'Z'
    ensures |Between(k, "").value| <= |x|
  {
    LowerKeys(k, x);
    BetweenIsAfter(k);
    hide Between, Split, Valid, Below, IntegerValue, IsInteger, Frac, IsFraction, MidpointAfter;
    var i, f, j, g := IntegerOf(k), FractionOf(k), IntegerOf(x), FractionOf(x);
    IncrementIsSuccessor(i);
    IntegerOrder(i, j);
    if i == j {
      MidpointAfterIsShortest(f, g);
      NotEmptyAbove(f, g);
      if Increment(i).Success? {
        IncrementLength(i);
      }
    } else {
      WidthGrowsAway(Increment(i).value, j);
    }
  }

  lemma NotEmptyAbove(f: string, g: string)
    requires IsFraction(f) && IsFraction(g) && Frac(f) < Frac(g)
    ensures g != ""
  {
  }

  /** When the key chosen is as short as any that fits: a condition on the bounds. */
  predicate AsShortAsAny(prev: string, next: string)
    requires IsBound(prev) && IsBound(next)
  {
    if prev == "" && next == "" then true
    else if prev == "" then next[0] <= 'a' || next == "b00"
    else if next == "" then prev[0] >= 'Z' || IntegerOf(prev) == "Yzz"
    else
      SplitGivesParts(prev);
      IncrementIsSuccessor(IntegerOf(prev));
      var stepped := Increment(IntegerOf(prev));
      IntegerOf(prev) == IntegerOf(next) || stepped.Failure? || !PassesNarrower(stepped.value, next)
  }

  /** For all bounds `Between` accepts: no key inside is shorter than the one it
      returns, except before a positive key wider than "a0" other than "b00", after
      a negative one wider than "Zz" other than under "Yzz", and where a narrower
      integer lies between the next one up and the upper bound. */
  lemma {:induction false} BetweenIsShortestIff(prev: string, next: string)
    requires IsBound(prev) && IsBound(next) && Ascending(prev, next)
    ensures Between(prev, next).Success?
    ensures ShortestInside(prev, Between(prev, next).value, next) <==> AsShortAsAny(prev, next)
  {
    hide ShortestInside, PassesNarrower, Below, Valid;
    BetweenIsTotalAndStrict(prev, next);
    if prev == "" && next == "" {
      FirstIsShortest();
    } else if prev == "" {
      PrependIsShortestIff(next);
    } else if next == "" {
      AppendIsShortestIff(prev);
    } else if IntegerOf(prev) == IntegerOf(next) {
      SameIntegerIsShortest(prev, next);
    } else {
      ApartIsShortestIff(prev, next);
    }
  }

  lemma FirstIsShortest()
    ensures Between("", "") == Success(FIRST_KEY) && ShortestInside("", FIRST_KEY, "")
  {
    forall x | Valid(x) && Inside("", x, "") ensures |FIRST_KEY| <= |x| {
      KeysHaveTwo(x);
    }
  }

  lemma ApartIsShortestIff(prev: string, next: string)
    requires Valid(prev) && Valid(next) && Below(prev, next) && IntegerOf(prev) != IntegerOf(next)
    ensures Between(prev, next).Success? && IsInteger(IntegerOf(prev)) && Increment(IntegerOf(prev)).Success?
    ensures IsInteger(Increment(IntegerOf(prev)).value)
    ensures ShortestInside(prev, Between(prev, next).value, next) <==>
            !PassesNarrower(Increment(IntegerOf(prev)).value, next)
  {
    hide ShortestInside, PassesNarrower, Below, Between;
    LowerKeys(prev, next);
    StepExists(prev, next);
    IncrementIsSuccessor(IntegerOf(prev));
    if Below(Increment(IntegerOf(prev)).value, next) {
      StepIsShortestIff(prev, next);
    } else {
      NoStepIsShortest(prev, next);
      NarrowerIsAboveTheStep(Increment(IntegerOf(prev)).value, next);
    }
  }

  lemma NarrowerIsAboveTheStep(stepped: string, next: string)
    requires IsInteger(stepped) && !Below(stepped, next)
    ensures !PassesNarrower(stepped, next)
  {
    if stepped[0] < 'Z' {
      NarrowerIsLowest(stepped, stepped);
      IntegerOrder(stepped, Narrower(stepped));
      if Below(Narrower(stepped), next) {
        BelowIsTransitive(stepped, Narrower(stepped), next);
      }
    }
  }

  lemma StepExists(prev: string, next: string)
    requires Valid(prev) && Valid(next) && Below(prev, next) && IntegerOf(prev) != IntegerOf(next)
    ensures IsInteger(IntegerOf(prev)) && Increment(IntegerOf(prev)).Success?
  {
    LowerKeys(prev, next);
    IncrementIsSuccessor(IntegerOf(prev));
    IntegerOrder(IntegerOf(prev), IntegerOf(next));
  }
}
