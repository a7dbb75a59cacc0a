/** Which of the shortest fractions `Between` takes, digit by digit, and how slowly
    keys grow when insertions pile up at one spot. */
module OrderKeyGrowth {
  import opened Results
  import opened Base62
  import opened OrderKeys
  import opened OrderKeyNumbers
  import opened OrderKeyBetween
  import opened OrderKeyLengths

  /** The digit at a place of a fraction; past its end stand zeros. */
  function DigitAt(s: string, place: nat): DigitValue
    requires AllDigits(s)
  {
    if place < |s| then IndexOf(s[place]) else 0
  }

  predicate SameDigits(a: string, b: string, n: nat)
    requires AllDigits(a) && AllDigits(b)
  {
    forall i :: 0 <= i < n ==> DigitAt(a, i) == DigitAt(b, i)
  }

  /** Room under one integer part; without an upper end it reaches the next one. */
  datatype Gap = Gap(low: string, high: Option<string>)

  predicate IsGap(g: Gap) {
    IsFraction(g.low) && (g.high.Some? ==> IsFraction(g.high.value) && Frac(g.low) < Frac(g.high.value))
  }

  predicate InGap(g: Gap, x: string)
    requires IsGap(g)
  {
    IsFraction(x) && Frac(g.low) < Frac(x) && (g.high.Some? ==> Frac(x) < Frac(g.high.value))
  }

  /** The fraction the code puts into a gap. */
  function Middle(g: Gap): (m: string)
    requires IsGap(g)
    ensures InGap(g, m) && m != ""
  {
    if g.high.None? then MidpointAfter(g.low) else Midpoint(g.low, g.high.value)
  }

  // ------------------------------------------------------- the middle digit

  /** The digit a place must stay below, if the digits before it are those of the
      lower end: the upper end's, while that agrees so far, or one past the last. */
  function Ceiling(g: Gap, place: nat): int
    requires IsGap(g)
  {
    if g.high.Some? && SameDigits(g.low, g.high.value, place) then DigitAt(g.high.value, place) else 62
  }

  /** How many digits apart the two ends are at the last of n places. */
  function Room(g: Gap, n: nat): int
    requires IsGap(g) && n > 0
  {
    Ceiling(g, n - 1) - DigitAt(g.low, n - 1)
  }

  /** The lower end's digits, and at the last place the rounded middle of the room. */
  predicate Halves(g: Gap, x: string)
    requires IsGap(g) && AllDigits(x)
  {
    && x != "" && SameDigits(g.low, x, |x| - 1)
    && 0 <= 2 * DigitAt(x, |x| - 1) - (DigitAt(g.low, |x| - 1) + Ceiling(g, |x| - 1)) <= 1
  }

  /** No fraction in the gap is shorter. */
  ghost predicate ShortestInGap(g: Gap, x: string)
    requires IsGap(g)
  {
    forall y :: InGap(g, y) ==> |x| <= |y|
  }

  lemma DigitsShift(s: string, i: nat)
    requires AllDigits(s)
    ensures AllDigits(Drop(s, 1)) && DigitAt(Drop(s, 1), i) == DigitAt(s, i + 1)
    ensures DigitAt(s, 0) == LeadingDigit(s)
  {
  }

  lemma SameDigitsShift(a: string, b: string, n: nat)
    requires AllDigits(a) && AllDigits(b)
    ensures AllDigits(Drop(a, 1)) && AllDigits(Drop(b, 1))
    ensures SameDigits(a, b, n + 1) <==> LeadingDigit(a) == LeadingDigit(b) && SameDigits(Drop(a, 1), Drop(b, 1), n)
  {
    hide DigitAt, LeadingDigit;
    DigitsShift(a, 0);
    DigitsShift(b, 0);
    if SameDigits(a, b, n + 1) {
      forall i | 0 <= i < n ensures DigitAt(Drop(a, 1), i) == DigitAt(Drop(b, 1), i) {
        DigitsShift(a, i);
        DigitsShift(b, i);
        assert DigitAt(a, i + 1) == DigitAt(b, i + 1);
      }
    }
    if LeadingDigit(a) == LeadingDigit(b) && SameDigits(Drop(a, 1), Drop(b, 1), n) {
      forall i | 0 <= i < n + 1 ensures DigitAt(a, i) == DigitAt(b, i) {
        if i > 0 {
          DigitsShift(a, i - 1);
          DigitsShift(b, i - 1);
        }
      }
    }
  }

  /** A gap without its first digit: one end's, when the other has a different one. */
  function Inner(g: Gap): Gap
    requires IsGap(g)
  {
    Gap(Drop(g.low, 1),
        if g.high.Some? && LeadingDigit(g.low) == LeadingDigit(g.high.value)
        then Some(Drop(g.high.value, 1)) else None)
  }

  lemma InnerIsGap(g: Gap)
    requires IsGap(g)
    ensures IsGap(Inner(g))
  {
    FractionTail(g.low);
    if g.high.Some? {
      FractionTail(g.high.value);
    }
  }

  /** Either one digit is enough, or the first is the lower end's and the rest is
      the middle of what lies behind it. */
  ghost predicate Steps(g: Gap)
    requires IsGap(g) && IsGap(Inner(g))
  {
    && (|Middle(g)| == 1 || Middle(g) == [Digit(LeadingDigit(g.low))] + Middle(Inner(g)))
    && (|Middle(g)| == 1 ==> Halves(g, Middle(g)))
    && (Room(g, 1) >= 2 ==> |Middle(g)| == 1)
  }

  lemma SharedDigitSteps(g: Gap)
    requires IsGap(g) && g.high.Some? && LeadingDigit(g.low) == LeadingDigit(g.high.value)
    ensures IsGap(Inner(g)) && Steps(g)
  {
    InnerIsGap(g);
    var b := g.high.value;
    assert LeadingDigit(g.low) == DigitAt(g.low, 0) && LeadingDigit(b) == DigitAt(b, 0);
    hide Midpoint, Frac, IsFraction, DigitAt;
    MidpointUnderDigit(g.low, b);
    assert Drop(b, 1) == b[1..];
    DigitOfIndex(b[0]);
  }

  lemma DigitOfIndex(c: char)
    requires IsDigit(c)
    ensures Digit(IndexOf(c)) == c
  {
    IndexIsMonotone(Digit(IndexOf(c)), c);
  }

  lemma ApartSteps(g: Gap)
    requires IsGap(g) && g.high.Some? && LeadingDigit(g.low) != LeadingDigit(g.high.value)
    ensures IsGap(Inner(g)) && Steps(g)
  {
    InnerIsGap(g);
    FractionTail(g.low);
    FractionTail(g.high.value);
    ApartSharesNothing(g.low, g.high.value);
    hide Frac, Midpoint, CommonPrefixLen;
  }

  lemma OpenSteps(g: Gap)
    requires IsGap(g) && g.high.None?
    ensures IsGap(Inner(g)) && Steps(g)
  {
    InnerIsGap(g);
    hide Frac;
  }

  lemma MiddleSteps(g: Gap)
    requires IsGap(g)
    ensures IsGap(Inner(g)) && Steps(g)
  {
    hide Steps, Inner;
    if g.high.None? {
      OpenSteps(g);
    } else if LeadingDigit(g.low) == LeadingDigit(g.high.value) {
      SharedDigitSteps(g);
    } else {
      ApartSteps(g);
    }
  }

  lemma CeilingShifts(g: Gap, place: nat)
    requires IsGap(g) && IsGap(Inner(g))
    ensures Ceiling(g, place + 1) == Ceiling(Inner(g), place)
    ensures DigitAt(g.low, place + 1) == DigitAt(Inner(g).low, place)
  {
    hide DigitAt, LeadingDigit, SameDigits;
    DigitsShift(g.low, place);
    if g.high.Some? {
      DigitsShift(g.high.value, place);
      SameDigitsShift(g.low, g.high.value, place);
    }
  }

  /** In every gap the digits before the last are those of the lower end, and the
      last is the rounded middle of the room there, however many digits are shared
      and however long a run of top digits is. */
  lemma {:induction false} MiddleHalves(g: Gap)
    requires IsGap(g)
    ensures Halves(g, Middle(g))
    decreases |Middle(g)|
  {
    MiddleSteps(g);
    var m := Middle(g);
    if |m| > 1 {
      var rest := Middle(Inner(g));
      MiddleHalves(Inner(g));
      hide Middle, DigitAt, LeadingDigit, Ceiling, SameDigits, Inner;
      assert Drop(m, 1) == rest && Drop(g.low, 1) == Inner(g).low by { InnerLow(g); }
      LeadingDigitOf(LeadingDigit(g.low), rest);
      CeilingShifts(g, |rest| - 1);
      DigitsShift(m, |rest| - 1);
      SameDigitsShift(g.low, m, |rest| - 1);
    }
  }

  lemma InnerLow(g: Gap)
    requires IsGap(g)
    ensures Inner(g).low == Drop(g.low, 1)
  {
  }

  lemma LeadingDigitOf(d: DigitValue, rest: string)
    requires AllDigits(rest)
    ensures AllDigits([Digit(d)] + rest) && LeadingDigit([Digit(d)] + rest) == d
  {
  }

  lemma MiddleIsShortest(g: Gap)
    requires IsGap(g)
    ensures ShortestInGap(g, Middle(g))
  {
    hide Midpoint, MidpointAfter;
    forall y | InGap(g, y) ensures |Middle(g)| <= |y| {
      if g.high.None? {
        MidpointAfterIsShortest(g.low, y);
      } else {
        MidpointIsShortest(g.low, g.high.value, y);
      }
    }
  }

  /** The fraction taken is the only one that is as short as any in the gap and
      halves its room. */
  lemma OnlyTheMiddle(g: Gap, x: string)
    requires IsGap(g)
    ensures x == Middle(g) <==> InGap(g, x) && ShortestInGap(g, x) && Halves(g, x)
  {
    MiddleHalves(g);
    MiddleIsShortest(g);
    var m := Middle(g);
    hide Middle, Ceiling;
    if InGap(g, x) && ShortestInGap(g, x) && Halves(g, x) {
      assert |x| == |m|;
      assert DigitAt(x, |x| - 1) == DigitAt(m, |m| - 1);
      forall i | 0 <= i < |x| ensures x[i] == m[i] {
        assert i < |x| - 1 ==> DigitAt(x, i) == DigitAt(g.low, i) == DigitAt(m, i);
        IndexIsMonotone(x[i], m[i]);
      }
    }
  }

  // ------------------------------------------------------ growth in one gap

  /** An insertion into a gap; the next one goes below it or above it. */
  function Side(g: Gap, below: bool): (g': Gap)
    requires IsGap(g)
    ensures IsGap(g')
  {
    if below then Gap(g.low, Some(Middle(g))) else Gap(Middle(g), g.high)
  }

  /** What is left of a gap after one insertion for each side named. */
  function Squeezed(g: Gap, sides: seq<bool>): (g': Gap)
    requires IsGap(g)
    ensures IsGap(g')
    decreases |sides|
  {
    if sides == [] then g else Squeezed(Side(g, sides[0]), sides[1..])
  }

  predicate FitsIn(g: Gap, k: nat) {
    |g.low| <= k && (g.high.Some? ==> |g.high.value| <= k)
  }

  /** An insertion halves the room at its own place, either side of it. */
  lemma RoomHalves(g: Gap, below: bool)
    requires IsGap(g)
    ensures var n := |Middle(g)|;
            Room(g, n) / 2 <= Room(Side(g, below), n) <= (Room(g, n) + 1) / 2
  {
    MiddleHalves(g);
    var m := Middle(g);
    hide Middle, DigitAt;
    if g.high.Some? {
      assert SameDigits(m, g.high.value, |m| - 1) <==> SameDigits(g.low, g.high.value, |m| - 1);
    }
  }

  /** Where two digits fit at a place, no more places are needed. */
  lemma {:induction false} RoomIsUsed(g: Gap, k: nat)
    requires IsGap(g) && k > 0 && Room(g, k) >= 2
    ensures |Middle(g)| <= k
    decreases k
  {
    MiddleSteps(g);
    if k > 1 && |Middle(g)| > 1 {
      CeilingShifts(g, k - 2);
      RoomIsUsed(Inner(g), k - 1);
    }
  }

  lemma {:induction false} SameDigitsSameNumber(a: string, b: string, k: nat)
    requires IsFraction(a) && IsFraction(b) && |a| <= k && |b| <= k && SameDigits(a, b, k)
    ensures Frac(a) == Frac(b)
    decreases k
  {
    if k > 0 {
      FractionTail(a);
      FractionTail(b);
      SameDigitsShift(a, b, k - 1);
      SameDigitsSameNumber(Drop(a, 1), Drop(b, 1), k - 1);
    }
  }

  /** A key that outgrows both ends finds all the digits free at its last place. */
  lemma GrowingFindsRoom(g: Gap, k: nat)
    requires IsGap(g) && FitsIn(g, k)
    ensures Room(g, k + 1) == 62
  {
    if g.high.Some? && SameDigits(g.low, g.high.value, k) {
      SameDigitsSameNumber(g.low, g.high.value, k);
    }
  }

  lemma SidesOnlyGrow(g: Gap, below: bool)
    requires IsGap(g)
    ensures |Middle(g)| <= |Middle(Side(g, below))|
  {
    MiddleIsShortest(g);
    assert InGap(g, Middle(Side(g, below)));
  }

  /** The room at a place that is enough for this many more insertions there. */
  function Enough(spare: nat): nat {
    if spare == 0 then 1 else 2 * Enough(spare - 1) + 1
  }

  /** Digits beyond a length of k, for an insertion after n others, when there is
      room for `spare` insertions of that length. */
  function Beyond(n: nat, spare: nat): nat {
    if n < spare then 0 else 1 + (n - spare) / 5
  }

  lemma {:induction false} SqueezingGrows(g: Gap, sides: seq<bool>, k: nat, spare: nat)
    requires IsGap(g) && FitsIn(g, k) && spare <= 4
    requires spare > 0 ==> 0 < k <= |Middle(g)| && Room(g, k) >= Enough(spare)
    ensures |Middle(Squeezed(g, sides))| <= k + Beyond(|sides|, spare)
    decreases |sides|
  {
    hide IsGap, InGap, Middle, Room;
    assert |Middle(g)| <= k + 1 by { MiddleIsLittleLonger(g, k); }
    if spare > 0 {
      assert Enough(spare) >= 3;
      RoomIsUsed(g, k);
    }
    if sides != [] {
      var g', rest := Side(g, sides[0]), sides[1..];
      RoomHalves(g, sides[0]);
      SidesOnlyGrow(g, sides[0]);
      if |Middle(g)| <= k {
        SideFitsIn(g, sides[0], k);
        SqueezingGrows(g', rest, k, if spare > 0 then spare - 1 else 0);
      } else {
        GrowingFindsRoom(g, k);
        SideFitsIn(g, sides[0], k + 1);
        assert Enough(4) == 31;
        SqueezingGrows(g', rest, k + 1, 4);
      }
    }
  }

  lemma MiddleIsLittleLonger(g: Gap, k: nat)
    requires IsGap(g) && FitsIn(g, k)
    ensures |Middle(g)| <= k + 1
  {
  }

  lemma SideFitsIn(g: Gap, below: bool, k: nat)
    requires IsGap(g) && FitsIn(g, k) && |Middle(g)| <= k
    ensures FitsIn(Side(g, below), k)
  {
  }

  // ------------------------------------------------------- growth of keys

  /** Two keys with the room of a gap between them, under one integer; where the
      upper one has another integer, the next integer up does not fit below it. */
  predicate Under(prev: string, next: string, i: string, g: Gap) {
    && Valid(prev) && Valid(next) && Below(prev, next) && IsInteger(i) && IsGap(g)
    && IntegerOf(prev) == i && FractionOf(prev) == g.low
    && match g.high
       case Some(high) => IntegerOf(next) == i && FractionOf(next) == high
       case None =>
         && IntegerOf(next) != i && Increment(i).Success?
         && !Below(Increment(i).value, next)
  }

  lemma UnderTakesMiddle(prev: string, next: string, i: string, g: Gap)
    requires Under(prev, next, i, g)
    ensures IsGap(g) && Between(prev, next) == Success(i + Middle(g))
  {
    SplitGivesParts(prev);
    SplitGivesParts(next);
    hide Below, Midpoint, MidpointAfter, Increment, IsInteger;
  }

  /** The valid keys between two such keys are those of the gap. */
  lemma KeysUnderAreInGap(prev: string, next: string, i: string, g: Gap, x: string)
    requires Under(prev, next, i, g) && Valid(x) && Below(prev, x) && Below(x, next)
    ensures IntegerOf(x) == i && InGap(g, FractionOf(x)) && x == i + FractionOf(x)
  {
    SplitGivesParts(x);
    SplitGivesParts(prev);
    SplitGivesParts(next);
    IncrementIsSuccessor(i);
    FloorIsLowest(i);
    hide Split, Below, IsInteger, IntegerValue, Increment;
    ByteOrderIsNumericOrder(prev, x);
    ByteOrderIsNumericOrder(x, next);
    IntegerOrder(IntegerOf(x), i);
    if g.high.None? {
      var stepped := Increment(i).value;
      IntegerMakesAKey(stepped);
      ByteOrderIsNumericOrder(stepped, next);
    }
  }

  lemma GapsAreKeysUnder(prev: string, next: string, i: string, g: Gap, y: string)
    requires Under(prev, next, i, g) && InGap(g, y) && y != ""
    ensures Valid(i + y) && Below(prev, i + y) && Below(i + y, next)
  {
    PartsOfNewKey(i, y);
    LowerKeys(prev, next);
    SplitGivesParts(prev);
    SplitGivesParts(next);
    hide Split, Below, IsInteger, IntegerValue, Increment, Valid, IsFraction;
    IntegerOrder(i, IntegerOf(next));
    ByteOrderIsNumericOrder(prev, i + y);
    ByteOrderIsNumericOrder(i + y, next);
  }

  /** Between two keys with no integer to step to, the key returned is the only one
      that is as short as any inside and takes the rounded middle of the room. */
  lemma OnlyTheMiddleKey(prev: string, next: string, i: string, g: Gap, key: string)
    requires Under(prev, next, i, g)
    ensures Between(prev, next) == Success(key) <==>
            && Valid(key) && Below(prev, key) && Below(key, next) && ShortestInside(prev, key, next)
            && AllDigits(FractionOf(key)) && Halves(g, FractionOf(key))
  {
    UnderTakesMiddle(prev, next, i, g);
    var m := Middle(g);
    MiddleHalves(g);
    GapsAreKeysUnder(prev, next, i, g, m);
    PartsOfNewKey(i, m);
    MiddleIsShortest(g);
    hide Split, Below, IsInteger, Between, Middle, Halves, Increment, Valid;
    forall x | Valid(x) && Inside(prev, x, next) ensures |i + m| <= |x| {
      BoundsAreKeys(prev, next);
      KeysUnderAreInGap(prev, next, i, g, x);
    }
    if && Valid(key) && Below(prev, key) && Below(key, next) && ShortestInside(prev, key, next)
       && AllDigits(FractionOf(key)) && Halves(g, FractionOf(key)) {
      KeysUnderAreInGap(prev, next, i, g, key);
      forall y | InGap(g, y) ensures |FractionOf(key)| <= |y| {
        NotEmptyAbove(g.low, y);
        GapsAreKeysUnder(prev, next, i, g, y);
        assert Inside(prev, i + y, next);
      }
      OnlyTheMiddle(g, FractionOf(key));
    }
  }

  lemma BoundsAreKeys(prev: string, next: string)
    requires Valid(prev) && Valid(next)
    ensures prev != "" && next != ""
  {
  }

  lemma PartsOfNewKey(i: string, m: string)
    requires IsInteger(i) && IsFraction(m) && m != ""
    ensures Valid(i + m) && IntegerOf(i + m) == i && FractionOf(i + m) == m
  {
    FractionMakesAKey(i, m);
    PartsMakeKeyOnce(i, m);
  }

  lemma PartsMakeKeyOnce(i: string, m: string)
    requires IsInteger(i) && IsFraction(m) && i + m != SMALLEST_INTEGER
    ensures IntegerOf(i + m) == i && FractionOf(i + m) == m
  {
    SplitOfParts(i, m);
  }

  lemma UnderStaysUnder(prev: string, next: string, i: string, g: Gap)
    requires Under(prev, next, i, g)
    ensures Under(prev, i + Middle(g), i, Side(g, true)) && Under(i + Middle(g), next, i, Side(g, false))
  {
    UnderTakesMiddle(prev, next, i, g);
    hide Below, Middle, Between, Split, IsInteger, Increment;
    BetweenTwoKeys(prev, next);
    PartsOfNewKey(i, Middle(g));
  }

  /** Where no integer key lies below the first key, the key put before it stands
      under the lowest integer, in the middle of the room there. */
  lemma FloorTakesTheMiddle(k: string)
    requires Valid(k) && forall y :: Valid(y) && IsInteger(y) ==> !Below(y, k)
    ensures Between("", k).Success? && IsFraction(FractionOf(k))
    ensures var g := Gap("", if IntegerOf(k) == SMALLEST_INTEGER then Some(FractionOf(k)) else None);
            && IsGap(g)
            && exists x :: Between("", k).value == SMALLEST_INTEGER + x
                           && InGap(g, x) && ShortestInGap(g, x) && Halves(g, x)
  {
    SplitGivesParts(k);
    BetweenIsBefore(k);
    var i, f := IntegerOf(k), FractionOf(k);
    var g := Gap("", if i == SMALLEST_INTEGER then Some(f) else None);
    hide Between, Midpoint, MidpointAfter;
    if i == SMALLEST_INTEGER {
      assert i + "" == i;
      FractionIsPositive(f);
    } else {
      NothingBelowButTheFloor(k, i, f);
    }
    MiddleHalves(g);
    MiddleIsShortest(g);
    assert Between("", k).value == SMALLEST_INTEGER + Middle(g);
  }

  lemma NothingBelowButTheFloor(k: string, i: string, f: string)
    requires Valid(k) && i == IntegerOf(k) && f == FractionOf(k) && i != SMALLEST_INTEGER
    requires forall y :: Valid(y) && IsInteger(y) ==> !Below(y, k)
    ensures IsInteger(i) && f == "" && Decrement(i) == Success(SMALLEST_INTEGER)
  {
    SplitGivesParts(k);
    DecrementIsPredecessor(i);
    hide Split, Below, IsInteger, IntegerValue, Decrement;
    IntegerMakesAKey(i);
    if f != "" {
      FractionIsPositive(f);
      ByteOrderIsNumericOrder(i, k);
    } else {
      var stepped := Decrement(i).value;
      if stepped != SMALLEST_INTEGER {
        IntegerMakesAKey(stepped);
        ByteOrderIsNumericOrder(stepped, k);
      }
    }
  }

  /** Where no integer key lies above the last key, the key put after it stays under
      its integer, in the middle of the room there. */
  lemma CeilingTakesTheMiddle(k: string)
    requires Valid(k) && forall y :: Valid(y) && IsInteger(y) ==> !Below(k, y)
    ensures Between(k, "").Success? && IsFraction(FractionOf(k))
    ensures var g := Gap(FractionOf(k), None);
            exists x :: Between(k, "").value == IntegerOf(k) + x
                        && InGap(g, x) && ShortestInGap(g, x) && Halves(g, x)
  {
    SplitGivesParts(k);
    BetweenIsAfter(k);
    var i, g := IntegerOf(k), Gap(FractionOf(k), None);
    IncrementIsSuccessor(i);
    FloorIsLowest(i);
    hide Between, Below, Split, IsInteger, IntegerValue, Increment, MidpointAfter;
    if Increment(i).Success? {
      IntegerMakesAKey(Increment(i).value);
      ByteOrderIsNumericOrder(k, Increment(i).value);
    }
    MiddleHalves(g);
    MiddleIsShortest(g);
    assert Between(k, "").value == i + Middle(g);
  }

  /** The two neighbours left at a spot after one insertion for each side named. */
  function KeysSqueezed(prev: string, next: string, sides: seq<bool>): (r: (string, string))
    requires Valid(prev) && Valid(next) && Below(prev, next)
    ensures Valid(r.0) && Valid(r.1) && Below(r.0, r.1)
    decreases |sides|
  {
    BetweenTwoKeys(prev, next);
    if sides == [] then (prev, next)
    else
      var key := Between(prev, next).value;
      if sides[0] then KeysSqueezed(prev, key, sides[1..]) else KeysSqueezed(key, next, sides[1..])
  }

  lemma {:induction false} UnderOneInteger(prev: string, next: string, i: string, g: Gap, sides: seq<bool>)
    requires Under(prev, next, i, g)
    ensures var (p, n) := KeysSqueezed(prev, next, sides);
            Between(p, n).Success? && |Between(p, n).value| == |i| + |Middle(Squeezed(g, sides))|
    decreases |sides|
  {
    hide Under, Below, Middle, Between, Side, Valid;
    UnderTakesMiddle(prev, next, i, g);
    if sides != [] {
      UnderStaysUnder(prev, next, i, g);
      if sides[0] {
        UnderOneInteger(prev, i + Middle(g), i, Side(g, true), sides[1..]);
      } else {
        UnderOneInteger(i + Middle(g), next, i, Side(g, false), sides[1..]);
      }
    }
  }

  lemma StepIsNoWider(prev: string, next: string)
    requires Valid(prev) && Valid(next) && Below(prev, next) && IntegerOf(prev) != IntegerOf(next)
    requires IsInteger(IntegerOf(prev)) && Increment(IntegerOf(prev)).Success?
             && Below(Increment(IntegerOf(prev)).value, next)
    ensures Between(prev, next) == Success(Increment(IntegerOf(prev)).value)
    ensures |Between(prev, next).value| <= Longer(prev, next)
  {
    SplitGivesParts(prev);
    SplitGivesParts(next);
    var i, j := IntegerOf(prev), IntegerOf(next);
    IncrementIsSuccessor(i);
    FloorIsLowest(i);
    var stepped := Increment(i).value;
    hide Split, Below, IsInteger, IntegerValue, Increment;
    IntegerMakesAKey(stepped);
    LowerKeys(stepped, next);
    PartsMakeKeyOnce(stepped, "");
    assert stepped + "" == stepped;
    WidthGrowsAway(i, stepped);
    WidthGrowsAway(stepped, j);
  }

  lemma SameIntegerGrows(prev: string, next: string, sides: seq<bool>)
    requires Valid(prev) && Valid(next) && Below(prev, next) && IntegerOf(prev) == IntegerOf(next)
    ensures var (p, n) := KeysSqueezed(prev, next, sides);
            Between(p, n).Success? && |Between(p, n).value| <= Longer(prev, next) + 1 + |sides| / 5
  {
    LowerKeys(prev, next);
    hide Valid, Below, Between, IsInteger, IsFraction, Frac, KeysSqueezed;
    var f, h := FractionOf(prev), FractionOf(next);
    assert Under(prev, next, IntegerOf(prev), Gap(f, Some(h)));
    UnderOneInteger(prev, next, IntegerOf(prev), Gap(f, Some(h)), sides);
    SqueezingGrows(Gap(f, Some(h)), sides, Longer(f, h), 0);
  }

  lemma NoStepGrows(prev: string, next: string, sides: seq<bool>)
    requires Valid(prev) && Valid(next) && Below(prev, next) && IntegerOf(prev) != IntegerOf(next)
    requires IsInteger(IntegerOf(prev)) && Increment(IntegerOf(prev)).Success?
             && !Below(Increment(IntegerOf(prev)).value, next)
    ensures var (p, n) := KeysSqueezed(prev, next, sides);
            Between(p, n).Success? && |Between(p, n).value| <= Longer(prev, next) + 1 + |sides| / 5
  {
    LowerKeys(prev, next);
    hide Valid, Below, Between, IsInteger, IsFraction, Frac, KeysSqueezed, Increment;
    var g := Gap(FractionOf(prev), None);
    UnderOneInteger(prev, next, IntegerOf(prev), g, sides);
    SqueezingGrows(g, sides, |g.low|, 0);
  }

  /** However insertions pile up at one spot between two keys, each above or below
      the one before, the one after n others is at most 1 + n / 5 bytes longer than
      the two keys were. */
  lemma {:induction false} SpotGrowth(prev: string, next: string, sides: seq<bool>)
    requires Valid(prev) && Valid(next) && Below(prev, next)
    ensures var (p, n) := KeysSqueezed(prev, next, sides);
            Between(p, n).Success? && |Between(p, n).value| <= Longer(prev, next) + 1 + |sides| / 5
    decreases |sides|
  {
    hide Valid, Below, Between, IsInteger, Increment, IntegerOf;
    if IntegerOf(next) == IntegerOf(prev) {
      SameIntegerGrows(prev, next, sides);
    } else {
      StepExists(prev, next);
      if !Below(Increment(IntegerOf(prev)).value, next) {
        NoStepGrows(prev, next, sides);
      } else {
        BetweenTwoKeys(prev, next);
        StepIsNoWider(prev, next);
        if sides != [] {
          var key := Between(prev, next).value;
          if sides[0] {
            SpotGrowth(prev, key, sides[1..]);
          } else {
            SpotGrowth(key, next, sides[1..]);
          }
        }
      }
    }
  }

  // --------------------------------------------------- the bound is attained

  function TopDigits(n: nat): string {
    seq(n, _ => 'z')
  }

  /** Insertions each above the one before. */
  function Upwards(n: nat): seq<bool> {
    seq(n, _ => false)
  }

  lemma MidpointAfterTopDigit(t: string)
    requires IsFraction(t)
    ensures IsFraction("z" + t) && MidpointAfter("z" + t) == "z" + MidpointAfter(t)
  {
    var s := "z" + t;
    assert IsFraction(s) by { assert t != "" ==> s[|s| - 1] == t[|t| - 1]; }
    DigitOfIndex('z');
    assert IndexOf(s[0]) == 61 && Drop(s, 1) == t;
  }

  lemma TopDigitsFirst(q: nat, t: string)
    requires q > 0
    ensures TopDigits(q) + t == "z" + (TopDigits(q - 1) + t)
  {
  }

  lemma {:induction false} MidpointAfterTopDigits(q: nat, t: string)
    requires IsFraction(t)
    ensures IsFraction(TopDigits(q) + t) && MidpointAfter(TopDigits(q) + t) == TopDigits(q) + MidpointAfter(t)
  {
    if q == 0 {
      assert TopDigits(0) + t == t;
    } else {
      hide MidpointAfter, IsFraction, TopDigits;
      MidpointAfterTopDigits(q - 1, t);
      MidpointAfterTopDigit(TopDigits(q - 1) + t);
      TopDigitsFirst(q, t);
      TopDigitsFirst(q, MidpointAfter(t));
    }
  }

  function TopGap(q: nat, t: string): (g: Gap)
    requires IsFraction(t)
    ensures IsGap(g)
  {
    MidpointAfterTopDigits(q, t);
    Gap(TopDigits(q) + t, None)
  }

  lemma OneUp(q: nat, t: string)
    requires IsFraction(t)
    ensures Side(TopGap(q, t), false) == TopGap(q, MidpointAfter(t))
    ensures |Middle(TopGap(q, t))| == q + |MidpointAfter(t)|
  {
    MidpointAfterTopDigits(q, t);
  }

  lemma UpwardsFirst(n: nat)
    requires n > 0
    ensures Upwards(n) != [] && !Upwards(n)[0] && Upwards(n)[1..] == Upwards(n - 1)
  {
  }

  /** Five insertions use up a place: 31, 47, 55, 59 and 61. */
  function Spent(used: nat): string {
    if used == 0 then "" else if used == 1 then "V" else if used == 2 then "l"
    else if used == 3 then "t" else if used == 4 then "x" else "z"
  }

  lemma NextSpent(used: nat)
    requires used < 5
    ensures IsFraction(Spent(used)) && MidpointAfter(Spent(used)) == Spent(used + 1) && |Spent(used + 1)| == 1
  {
    DigitOfIndex(Spent(used + 1)[0]);
  }

  lemma SpentPlace(q: nat)
    ensures IsFraction("z") && IsFraction("") && TopGap(q, "z") == TopGap(q + 1, "")
  {
    assert TopDigits(q) + "z" == TopDigits(q + 1) + "";
    assert IndexOf('z') == 61;
  }

  /** The bound is attained: insertions each above the one before take a new place
      every fifth time. */
  lemma {:induction false} UpwardsGrows(q: nat, used: nat, n: nat)
    requires used < 5
    ensures IsFraction(Spent(used))
    ensures |Middle(Squeezed(TopGap(q, Spent(used)), Upwards(n)))| == q + 1 + (used + n) / 5
    decreases n
  {
    hide Middle, Side, MidpointAfter, IsFraction, TopGap, Spent, Upwards;
    NextSpent(used);
    OneUp(q, Spent(used));
    if n > 0 {
      UpwardsFirst(n);
      if used < 4 {
        UpwardsGrows(q, used + 1, n - 1);
      } else {
        SpentPlace(q);
        LastSpent();
        UpwardsGrows(q + 1, 0, n - 1);
      }
    } else {
      NoInsertions();
    }
  }

  lemma LastSpent()
    ensures Spent(5) == "z" && Spent(0) == ""
  {
  }

  lemma NoInsertions()
    ensures Upwards(0) == []
  {
  }

  /** At one spot, between "a0" and "a1", the key after n others has n / 5 + 3 bytes. */
  lemma GrowthIsAttained(n: nat)
    ensures Valid("a0") && Valid("a1") && Below("a0", "a1")
    ensures var (p, x) := KeysSqueezed("a0", "a1", Upwards(n));
            Between(p, x).Success? && |Between(p, x).value| == Longer("a0", "a1") + 1 + n / 5
  {
    ZeroAndOne();
    hide Valid, Below, Between, IsInteger, IsFraction, Increment, KeysSqueezed, Middle, IntegerOf, FractionOf;
    assert Under("a0", "a1", "a0", Gap("", None));
    UnderOneInteger("a0", "a1", "a0", Gap("", None), Upwards(n));
    UpwardsGrows(0, 0, n);
    assert TopDigits(0) + "" == "";
  }

  lemma ZeroAndOne()
    ensures Valid("a0") && Valid("a1") && Below("a0", "a1") && IsInteger("a0") && IsFraction("")
    ensures IntegerOf("a0") == "a0" && FractionOf("a0") == "" && IntegerOf("a1") == "a1"
    ensures Increment("a0") == Success("a1") && !Below("a1", "a1")
  {
    assert IsInteger("a0") && IsInteger("a1") && IsFraction("") && Below("a0", "a1");
    OneAboveZero();
    hide Split, IsInteger, IsFraction, Below, Increment;
    IntegerMakesAKey("a0");
    IntegerMakesAKey("a1");
    assert "a0" + "" == "a0" && "a1" + "" == "a1";
    PartsMakeKeyOnce("a0", "");
    PartsMakeKeyOnce("a1", "");
    BelowIsIrreflexive("a1");
  }

  lemma OneAboveZero()
    requires IsInteger("a0")
    ensures Increment("a0") == Success("a1")
  {
    hide IsInteger;
    var body := "0";
    assert "a0"[1..] == body && body[..0] == "";
    assert IndexOf(body[0]) == 0 && Digit(1) == '1' && body[..0] + [Digit(1)] == "1";
    assert AddOne(body) == ("1", false);
    assert ['a'] + "1" == "a1";
  }
}
