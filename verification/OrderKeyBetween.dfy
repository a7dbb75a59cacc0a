/** `Between` always finds room: it fails only on bounds it must refuse, and what
    it returns is a valid key strictly inside them and barely longer. */
module OrderKeyBetween {
  import opened Results
  import opened Base62
  import opened OrderKeys
  import opened OrderKeyNumbers

  predicate IsBound(key: string) {
    key == "" || Valid(key)
  }

  predicate Ascending(prev: string, next: string) {
    prev != "" && next != "" ==> Below(prev, next)
  }

  predicate Inside(prev: string, key: string, next: string) {
    (prev != "" ==> Below(prev, key)) && (next != "" ==> Below(key, next))
  }

  function Longer(prev: string, next: string): nat {
    if |prev| < |next| then |next| else |prev|
  }

  lemma PartsMakeAKey(integer: string, fraction: string)
    requires IsInteger(integer) && IsFraction(fraction)
    requires integer + fraction != SMALLEST_INTEGER
    ensures Valid(integer + fraction)
    ensures Value(integer + fraction) == IntegerValue(integer) as real + Frac(fraction)
  {
    SplitOfParts(integer, fraction);
  }

  lemma IntegerMakesAKey(integer: string)
    requires IsInteger(integer) && integer != SMALLEST_INTEGER
    ensures Valid(integer) && Value(integer) == IntegerValue(integer) as real
  {
    assert integer + "" == integer;
    PartsMakeAKey(integer, "");
  }

  lemma FractionMakesAKey(integer: string, fraction: string)
    requires IsInteger(integer) && IsFraction(fraction) && fraction != ""
    ensures Valid(integer + fraction)
    ensures Value(integer + fraction) == IntegerValue(integer) as real + Frac(fraction)
  {
    assert integer + fraction != SMALLEST_INTEGER by {
      assert |SMALLEST_INTEGER| == 27;
      assert (integer + fraction)[0] == integer[0];
    }
    PartsMakeAKey(integer, fraction);
  }

  /** A stepped integer, or a fraction put under it when it is the floor. */
  function Landed(stepped: string): string {
    if stepped == SMALLEST_INTEGER then stepped + MidpointAfter("") else stepped
  }

  lemma LandedIsAKey(stepped: string)
    requires IsInteger(stepped)
    ensures Valid(Landed(stepped)) && |Landed(stepped)| <= |stepped| + 1
    ensures stepped == SMALLEST_INTEGER ==> |Landed(stepped)| == 28
    ensures IntegerValue(stepped) as real <= Value(Landed(stepped)) < IntegerValue(stepped) as real + 1.0
  {
    if stepped == SMALLEST_INTEGER {
      FractionMakesAKey(stepped, MidpointAfter(""));
    } else {
      IntegerMakesAKey(stepped);
    }
  }

  lemma DecrementLength(integer: string)
    requires IsInteger(integer) && Decrement(integer).Success?
    ensures var j := Decrement(integer).value;
            |j| <= |integer| + 1 && (j == SMALLEST_INTEGER ==> |j| == |integer|)
  {
    var (body, borrow) := SubtractOne(integer[1..]);
    var j := Decrement(integer).value;
    if borrow && |j| == |integer| + 1 {
      assert j[|j| - 1] == 'z' && SMALLEST_INTEGER[26] == '0';
    }
  }

  lemma IncrementLength(integer: string)
    requires IsInteger(integer) && Increment(integer).Success?
    ensures |Increment(integer).value| <= |integer| + 1
  {
  }

  /** What `Before` returns is a key whose number is lower. */
  lemma BeforeIsLower(integer: string, fraction: string)
    requires IsInteger(integer) && IsFraction(fraction) && integer + fraction != SMALLEST_INTEGER
    ensures var r := Before(integer, fraction);
            && r.Success? && Valid(r.value) && |r.value| <= |integer + fraction| + 1
            && Value(r.value) < IntegerValue(integer) as real + Frac(fraction)
  {
    if integer == SMALLEST_INTEGER {
      assert integer + "" == integer;
      FractionIsPositive(fraction);
      FractionMakesAKey(integer, Midpoint("", fraction));
    } else if fraction != "" {
      IntegerMakesAKey(integer);
      FractionIsPositive(fraction);
    } else {
      StepDownIsLower(integer);
    }
  }

  lemma StepDownIsLower(integer: string)
    requires IsInteger(integer) && integer != SMALLEST_INTEGER
    ensures var r := Before(integer, "");
            && r.Success? && Valid(r.value) && |r.value| <= |integer| + 1
            && Value(r.value) < IntegerValue(integer) as real
  {
    assert integer + "" == integer;
    DecrementIsPredecessor(integer);
    DecrementLength(integer);
    var stepped := Decrement(integer).value;
    LandedIsAKey(stepped);
    assert Before(integer, "") == Success(Landed(stepped));
  }

  lemma BeforeIsBelow(next: string, integer: string, fraction: string)
    requires Split(next) == Success((integer, fraction))
    requires IsInteger(integer) && IsFraction(fraction) && integer + fraction == next != SMALLEST_INTEGER
    ensures var r := Before(integer, fraction);
            r.Success? && Valid(r.value) && Below(r.value, next) && |r.value| <= |next| + 1
  {
    BeforeIsLower(integer, fraction);
    ByteOrderIsNumericOrder(Before(integer, fraction).value, next);
  }

  /** What `After` returns is a key whose number is higher. */
  lemma AfterIsHigher(integer: string, fraction: string)
    requires IsInteger(integer) && IsFraction(fraction)
    ensures var key := After(integer, fraction);
            && Valid(key) && |key| <= |integer + fraction| + 1
            && Value(key) > IntegerValue(integer) as real + Frac(fraction)
  {
    IncrementIsSuccessor(integer);
    if Increment(integer).Failure? {
      FractionMakesAKey(integer, MidpointAfter(fraction));
    } else {
      FloorIsLowest(integer);
      IncrementLength(integer);
      IntegerMakesAKey(Increment(integer).value);
    }
  }

  lemma {:induction false} AfterIsAbove(prev: string, integer: string, fraction: string)
    requires Split(prev) == Success((integer, fraction))
    requires IsInteger(integer) && IsFraction(fraction) && integer + fraction == prev
    ensures var key := After(integer, fraction);
            Valid(key) && Below(prev, key) && |key| <= |prev| + 1
  {
    AfterIsHigher(integer, fraction);
    ByteOrderIsNumericOrder(prev, After(integer, fraction));
  }

  /** Two integers apart: the next integer up, or a fraction under the lower. */
  lemma ApartIsInside(prevInt: string, prevFrac: string, nextInt: string, nextFrac: string)
    requires IsInteger(prevInt) && IsFraction(prevFrac) && IsInteger(nextInt) && IsFraction(nextFrac)
    requires prevInt != nextInt && Below(prevInt + prevFrac, nextInt + nextFrac)
    requires prevInt + prevFrac != SMALLEST_INTEGER && nextInt + nextFrac != SMALLEST_INTEGER
    ensures var stepped := Increment(prevInt);
            && stepped.Success?
            && var key := if Below(stepped.value, nextInt + nextFrac) then stepped.value
                          else prevInt + MidpointAfter(prevFrac);
               && Valid(key) && |key| <= |prevInt + prevFrac| + 1
               && Below(prevInt + prevFrac, key) && Below(key, nextInt + nextFrac)
  {
    var prev, next := prevInt + prevFrac, nextInt + nextFrac;
    PartsMakeAKey(prevInt, prevFrac);
    PartsMakeAKey(nextInt, nextFrac);
    IncrementIsSuccessor(prevInt);
    FloorIsLowest(prevInt);
    IntegerOrder(prevInt, nextInt);
    FractionMakesAKey(prevInt, MidpointAfter(prevFrac));
    hide Valid, Below, Value, Increment, IntegerValue, IsInteger, Frac;
    ByteOrderIsNumericOrder(prev, next);
    IncrementLength(prevInt);
    var stepped := Increment(prevInt).value;
    IntegerMakesAKey(stepped);
    ByteOrderIsNumericOrder(stepped, next);
    ByteOrderIsNumericOrder(prev, stepped);
    var under := prevInt + MidpointAfter(prevFrac);
    ByteOrderIsNumericOrder(prev, under);
    ByteOrderIsNumericOrder(under, next);
  }

  lemma BetweenTwoKeys(prev: string, next: string)
    requires Valid(prev) && Valid(next) && Below(prev, next)
    ensures Between(prev, next).Success?
    ensures var key := Between(prev, next).value;
            && Valid(key) && Below(prev, key) && Below(key, next)
            && |key| <= Longer(prev, next) + 1
  {
    SplitGivesParts(prev);
    SplitGivesParts(next);
    var (prevInt, prevFrac) := Split(prev).value;
    var (nextInt, nextFrac) := Split(next).value;
    hide Split, Below, IsInteger;
    if prevInt == nextInt {
      SameIntegerOrder(prevInt, prevFrac, nextFrac);
      var m := Midpoint(prevFrac, nextFrac);
      FractionMakesAKey(prevInt, m);
      SameIntegerOrder(prevInt, prevFrac, m);
      SameIntegerOrder(prevInt, m, nextFrac);
    } else {
      ApartIsInside(prevInt, prevFrac, nextInt, nextFrac);
    }
  }

  /** For all strings: `Between` succeeds exactly on well-formed ascending
      bounds, the key it returns is valid, strictly inside and at most one
      character longer than the longer bound, and it never reports exhaustion. */
  lemma BetweenIsTotalAndStrict(prev: string, next: string)
    ensures Between(prev, next).Success? <==> IsBound(prev) && IsBound(next) && Ascending(prev, next)
    ensures match Between(prev, next)
            case Success(key) =>
              && Valid(key) && Inside(prev, key, next)
              && |key| <= (if prev == "" && next == "" then 2 else Longer(prev, next) + 1)
            case Failure(e) =>
              e == if IsBound(prev) && IsBound(next) then NotAscending else InvalidKey
  {
    SplitGivesParts(prev);
    SplitGivesParts(next);
    if IsBound(prev) && IsBound(next) && Ascending(prev, next) {
      if prev == "" && next == "" {
        IntegerMakesAKey(FIRST_KEY);
      } else if prev == "" {
        BeforeIsBelow(next, Split(next).value.0, Split(next).value.1);
      } else if next == "" {
        AfterIsAbove(prev, Split(prev).value.0, Split(prev).value.1);
      } else {
        BetweenTwoKeys(prev, next);
      }
    }
  }

  /** `Between` with its integer steps taken on byte slices. */
  method BetweenKeys(prev: string, next: string) returns (r: Result<string, KeyError>)
    ensures r == Between(prev, next)
  {
    var prevParts, nextParts := Success(("", "")), Success(("", ""));
    if prev != "" {
      prevParts := SplitKey(prev);
    }
    if prevParts.Failure? {
      return Failure(prevParts.error);
    }
    if next != "" {
      nextParts := SplitKey(next);
    }
    if nextParts.Failure? {
      return Failure(nextParts.error);
    }
    SplitGivesParts(prev);
    SplitGivesParts(next);
    var (prevInt, prevFrac) := prevParts.value;
    var (nextInt, nextFrac) := nextParts.value;
    if prev != "" && next != "" && !Below(prev, next) {
      return Failure(NotAscending);
    }
    if prev == "" && next == "" {
      return Success(FIRST_KEY);
    }
    if prev == "" {
      r := KeyBefore(nextInt, nextFrac);
      return;
    }
    var stepped := IncrementInteger(prevInt);
    if next == "" {
      return Success(if stepped.Failure? then prevInt + MidpointAfter(prevFrac) else stepped.value);
    }
    if prevInt == nextInt {
      SameIntegerOrder(prevInt, prevFrac, nextFrac);
      return Success(prevInt + Midpoint(prevFrac, nextFrac));
    }
    if stepped.Failure? || Below(stepped.value, next) {
      return stepped;
    }
    return Success(prevInt + MidpointAfter(prevFrac));
  }

  method KeyBefore(integer: string, fraction: string) returns (r: Result<string, KeyError>)
    requires IsInteger(integer) && IsFraction(fraction)
    requires integer + fraction != SMALLEST_INTEGER
    ensures r == Before(integer, fraction)
  {
    if integer == SMALLEST_INTEGER {
      assert integer + "" == integer;
      FractionIsPositive(fraction);
      return Success(integer + Midpoint("", fraction));
    }
    if fraction != "" {
      return Success(integer);
    }
    var stepped := DecrementInteger(integer);
    if stepped.Success? && stepped.value == SMALLEST_INTEGER {
      return Success(stepped.value + MidpointAfter(""));
    }
    return stepped;
  }
}
