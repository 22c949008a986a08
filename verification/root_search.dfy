/** The square-root digit search of main.py. Starting from the integer
    square root of x, the search appends one fractional digit at a time,
    keeping the largest digit 9..1 whose squared approximation has a floor
    below x and falling back to 0, until 100 digits are stored. The
    floating-point `sqrt` the code uses for the seed and for `is_square` is
    replaced by the exact integer square root `Isqrt`. */
module RootSearch {
  import opened Arith
  import opened DigitSeq
  import opened Decimals
  import opened DecimalLaws

  /** Digits kept per root, integer part included. */
  const DigitBudget: nat := 100

  // ---------------------------------------------------------------------
  // decimal_square

  /** `decimal_square`: the digits of Value(ds)², least significant first,
      with twice the decimal places. The list and the count are checked
      first; an empty list then fails in `int('')`. */
  function DecimalSquare(ds: seq<int>, count: int): (r: Result<(seq<Digit>, int)>)
    ensures r.Failure? <==> !AllDigits(ds) || !(0 <= count <= |ds|) || ds == []
    ensures r.Failure? && AllDigits(ds) && 0 <= count <= |ds| ==> r.error == ValueError
    ensures r.Failure? && !(AllDigits(ds) && 0 <= count <= |ds|) ==> r.error == AssertionError
    ensures r.Success? ==> Value(r.value.0) == Sq(Value(AsDigits(ds)))
    ensures r.Success? ==> r.value.1 == 2 * count && IsCanonical(r.value.0)
  {
    if !(AllDigits(ds) && 0 <= count <= |ds|) then Failure(AssertionError)
    else
      match IntOfDigits(AsDigits(ds))
      case Failure(e) => Failure(e)
      case Success(n) =>
        Success((ToDigits(Sq(n)), 2 * count))
  }

  /** `decimal_square` agrees with squaring through `DecimalArray.__mul__`:
      the same digits and places, before `clean`. */
  lemma {:induction false} DecimalSquareIsSelfProduct(ds: seq<int>, count: int)
    requires AllDigits(ds) && 0 <= count <= |ds| && ds != []
    ensures DecimalSquare(ds, count).Success?
    ensures var a := DecimalArray(AsDigits(ds), count);
            var sq := DecimalSquare(ds, count).value;
            MulDecimal(a, a) == Success(Clean(DecimalArray(sq.0, sq.1)))
  {
    var a := DecimalArray(AsDigits(ds), count);
    DecimalSquareSucceeds(ds, count, Value(a.digits));
    SelfProduct(a);
  }

  lemma {:induction false} DecimalSquareSucceeds(ds: seq<int>, count: int, v: nat)
    requires AllDigits(ds) && 0 <= count <= |ds| && ds != []
    requires v == Value(AsDigits(ds))
    ensures DecimalSquare(ds, count) == Success((ToDigits(Sq(v)), 2 * count))
  {
    assert IntOfDigits(AsDigits(ds)) == Success(v);
  }

  // ---------------------------------------------------------------------
  // Integer square roots (in place of floating-point `sqrt`)

  /** The largest integer whose square is below X. */
  function RootBelow(X: nat): (r: nat)
    requires X > 0
    ensures Sq(r) < X <= Sq(r + 1)
    decreases X
  {
    if X == 1 then 0
    else
      var r := RootBelow(X - 1);
      SqSucc(r + 1);
      if Sq(r + 1) < X then r + 1 else r
  }

  /** The square bracket determines its root. */
  lemma {:induction false} RootBelowUnique(X: nat, a: nat)
    requires X > 0
    requires Sq(a) < X <= Sq(a + 1)
    ensures a == RootBelow(X)
  {
    var r := RootBelow(X);
    if a < r {
      SqMonotone(a + 1, r);
    } else if r < a {
      SqMonotone(r + 1, a);
    }
  }

  /** ⌊√x⌋ computed exactly. */
  function Isqrt(x: nat): (r: nat)
    ensures Sq(r) <= x < Sq(r + 1)
  {
    RootBelow(x + 1)
  }

  /** m is the exact square root of x. */
  predicate IsRootOf(m: nat, x: nat)
  {
    Sq(m) == x
  }

  ghost predicate IsPerfectSquare(x: nat)
  {
    exists m: nat :: IsRootOf(m, x)
  }

  /** `is_square`: the argument check, then whether x is a perfect square. */
  function IsSquare(n: int): (r: Result<bool>)
    ensures r.Failure? <==> n <= 0
    ensures r.Failure? ==> r.error == AssertionError
    ensures r.Success? ==> (r.value <==> IsPerfectSquare(n))
  {
    if n <= 0 then Failure(AssertionError)
    else
      IsqrtDecidesSquare(n);
      Success(Sq(Isqrt(n)) == n)
  }

  lemma {:induction false} IsqrtDecidesSquare(x: nat)
    ensures IsPerfectSquare(x) <==> Sq(Isqrt(x)) == x
  {
    if IsPerfectSquare(x) {
      var m: nat :| IsRootOf(m, x);
      RootBelowUnique(x + 1, m);
    } else {
      assert !IsRootOf(Isqrt(x), x);
    }
  }

  /** A square that is a multiple of 100 has a root that is a multiple of
      10: no square ends in a single zero. */
  lemma {:induction false} RootOfHundredfold(m: nat, t: nat)
    requires Sq(m) == 100 * t
    ensures m % 10 == 0
  {
    SqIsProduct(m);
    var q, r := m / 10, m % 10;
    SquareOfSplit(q, r);
    var w := 10 * t - 10 * (q * q) - 2 * (q * r);
    assert r * r == 10 * w;
    SquareDigitEndsInZero(r, w);
  }

  /** (10q + r)² written out by place. */
  lemma {:induction false} SquareOfSplit(q: nat, r: nat)
    ensures (10 * q + r) * (10 * q + r) == 100 * (q * q) + 10 * (2 * (q * r)) + r * r
  {
  }

  /** Among the squares of 0..9 only 0 is a multiple of ten. */
  lemma {:induction false} SquareDigitEndsInZero(r: nat, w: int)
    requires r < 10 && r * r == 10 * w
    ensures r == 0
  {
  }

  /** A square a hundredfold of t makes t a square. */
  lemma {:induction false} HundredthOfSquare(t: nat)
    requires IsPerfectSquare(100 * t)
    ensures IsPerfectSquare(t)
  {
    var m: nat :| IsRootOf(m, 100 * t);
    RootOfHundredfold(m, t);
    var q := m / 10;
    SqTimesTen(q);
    assert IsRootOf(q, t);
  }

  /** Scaling a non-square by 100^k never gives a square. */
  lemma {:induction false} ScaledNonSquare(x: nat, k: nat)
    requires !IsPerfectSquare(x)
    ensures !IsPerfectSquare(Target(x, k))
  {
    if k > 0 {
      ScaledNonSquare(x, k - 1);
      if IsPerfectSquare(Target(x, k)) {
        HundredthOfSquare(Target(x, k - 1));
      }
    }
  }

  /** Below a non-square X, the largest integer whose square is below X is
      ⌊√X⌋. */
  lemma {:induction false} RootBelowNonSquare(X: nat)
    requires X > 0 && !IsPerfectSquare(X)
    ensures RootBelow(X) == Isqrt(X)
  {
    var r := RootBelow(X);
    assert !IsRootOf(r + 1, X);
    RootBelowUnique(X + 1, r);
  }

  // ---------------------------------------------------------------------
  // The digit search

  /** Fractional digits the search appends after a seed s: enough to reach
      the digit budget, none when the seed alone reaches it. */
  function Places(s: nat): nat
  {
    if |ToDigits(s)| < DigitBudget then DigitBudget - |ToDigits(s)| else 0
  }

  /** The approximation with candidate digit d in its new lowest place:
      the scaled value becomes d + 10·Value(rest). */
  function Trial(rest: seq<Digit>, places: nat, d: Digit): (r: DecimalArray)
    ensures r.places == places && |r.digits| == |rest| + 1 && r.digits[0] == d
    ensures Value(r.digits) == d + 10 * Value(rest)
  {
    assert ([d] + rest)[1..] == rest;
    DecimalArray([d] + rest, places)
  }

  /** x·100^k: what the square of a root scaled by 10^k is compared with. */
  function Target(x: nat, k: nat): (r: nat)
    ensures x > 0 ==> r > 0
  {
    if k == 0 then x else 100 * Target(x, k - 1)
  }

  /** x·100^k is x shifted by 2k places. */
  lemma {:induction false} TargetIsShift(x: nat, k: nat)
    ensures Target(x, k) == Shift(x, 2 * k)
  {
    if k > 0 {
      TargetIsShift(x, k - 1);
      assert Shift(x, 2 * k) == 10 * Shift(x, 2 * k - 1);
      assert Shift(x, 2 * k - 1) == 10 * Shift(x, 2 * (k - 1));
    }
  }

  /** Digit e in the new lowest place keeps the square of the scaled
      approximation below x·100^places. */
  predicate Fits(x: nat, rest: seq<Digit>, places: nat, e: Digit)
  {
    Sq(e + 10 * Value(rest)) < Target(x, places)
  }

  /** A trial extending a number of at least one is at least one. */
  lemma {:induction false} TrialAtLeastOne(rest: seq<Digit>, places: nat, d: Digit)
    requires places >= 1 && Value(rest) >= Pow10(places - 1)
    ensures Value(Trial(rest, places, d).digits) == d + 10 * Value(rest) >= Pow10(places)
  {
  }

  /** The floor comparison against x is the square comparison against
      x·100^k. */
  lemma {:induction false} FloorBelowIff(f: int, v: nat, k: nat, x: nat)
    requires f == Unshift(Sq(v), 2 * k)
    ensures f < x <==> Sq(v) < Target(x, k)
  {
    TargetIsShift(x, k);
    UnshiftLessIff(Sq(v), 2 * k, x);
  }

  /** Lines 115-116 of `main`: square the trial approximation through
      `__mul__`, take its floor, and compare with x. Neither step fails on
      an approximation of at least one, and the comparison holds exactly
      when the digit fits. */
  method FloorBelow(x: nat, rest: seq<Digit>, places: nat, d: Digit) returns (below: bool)
    requires places >= 1 && Value(rest) >= Pow10(places - 1)
    ensures below <==> Fits(x, rest, places, d)
  {
    var t := Trial(rest, places, d);
    var v := d + 10 * Value(rest);
    TrialAtLeastOne(rest, places, d);
    var floor := SquareThenFloor(t, v);
    FloorBelowIff(floor, v, places, x);
    below := floor < x;
  }

  /** `(approx_root * approx_root).floor()` on an approximation of at
      least one: neither step fails, and the result is the scaled square
      with its 2·places fractional digits dropped. */
  method SquareThenFloor(t: DecimalArray, v: nat) returns (floor: nat)
    requires v == Value(t.digits) && v >= Pow10(t.places)
    ensures floor == Unshift(Sq(v), 2 * t.places)
  {
    SquareFloor(t, v);
    var square := MulDecimal(t, t).value;
    floor := Floor(square).value;
  }

  /** The inner `for d in range(9, -1, -1)` loop: the largest digit 9..1
      that fits, else 0 (which is taken without a test). */
  method NextDigit(x: nat, rest: seq<Digit>, places: nat) returns (d: Digit)
    requires places >= 1 && Value(rest) >= Pow10(places - 1)
    ensures d == 0 || Fits(x, rest, places, d)
    ensures forall e: Digit :: d < e ==> !Fits(x, rest, places, e)
  {
    d := 9;
    while d > 0
      invariant forall e: Digit :: d < e ==> !Fits(x, rest, places, e)
      decreases d
    {
      var below := FloorBelow(x, rest, places, d);
      if below {
        return;
      }
      d := d - 1;
    }
  }

  /** One greedy step keeps the bracket A² < x·100^k <= (A+1)² one decimal
      place further on: the largest fitting digit d, or 0, gives the bracket
      for B = 10·A + d. */
  lemma {:induction false} GreedyStep(x: nat, a: nat, b: nat, k: nat, d: Digit)
    requires b == d + 10 * a
    requires Sq(a) < Target(x, k) <= Sq(a + 1)
    requires d == 0 || Sq(d + 10 * a) < Target(x, k + 1)
    requires d == 9 || Sq(d + 1 + 10 * a) >= Target(x, k + 1)
    ensures Sq(b) < Target(x, k + 1) <= Sq(b + 1)
  {
    assert Target(x, k + 1) == 100 * Target(x, k);
    if d == 0 {
      SqTimesTen(a);
    }
    if d == 9 {
      SqTimesTen(a + 1);
      assert b + 1 == 10 * (a + 1);
    }
    assert b + 1 == d + 1 + 10 * a;
  }

  /** How many of ds's digits the sum takes: the budget, or all of them. */
  function Taken(ds: seq<Digit>): nat
  {
    if |ds| >= DigitBudget then DigitBudget else |ds|
  }

  /** Python's `digits[-100:]`: the budgeted most significant digits. */
  function LastDigits(ds: seq<Digit>): (r: seq<Digit>)
    ensures |r| == Taken(ds)
    ensures forall i :: 0 <= i < |r| ==> r[i] == ds[|ds| - |r| + i]
  {
    SliceIsSubsequence(ds, |ds| - Taken(ds), |ds|);
    Slice(ds, |ds| - Taken(ds), |ds|)
  }

  /** The digits of ds from position lo upwards, summed. */
  function SumFrom(ds: seq<Digit>, lo: nat): nat
    requires lo <= |ds|
    decreases |ds| - lo
  {
    if lo == |ds| then 0 else ds[lo] + SumFrom(ds, lo + 1)
  }

  /** The sum of the budgeted most significant digits of ds. */
  function TopDigitSum(ds: seq<Digit>): nat
  {
    SumFrom(ds, |ds| - Taken(ds))
  }

  /** Summing from position lo is summing the suffix that starts there. */
  lemma {:induction false} SumFromIsDigitSum(ds: seq<Digit>, lo: nat)
    requires lo <= |ds|
    ensures SumFrom(ds, lo) == DigitSum(Slice(ds, lo, |ds|))
    decreases |ds| - lo
  {
    if lo < |ds| {
      SumFromIsDigitSum(ds, lo + 1);
      var rest := Slice(ds, lo + 1, |ds|);
      assert ([ds[lo]] + rest)[1..] == rest;
    }
  }

  /** Summing the top digits in place is summing the list `digits[-100:]`. */
  lemma {:induction false} TopDigitSumIsLastDigits(ds: seq<Digit>)
    ensures TopDigitSum(ds) == DigitSum(LastDigits(ds))
  {
    SumFromIsDigitSum(ds, |ds| - Taken(ds));
  }

  /** Fractional places the search appends for x, read off x's own length:
      a root of x has about half as many integer digits as x. */
  function RootPlaces(x: nat): nat
  {
    var k := (|ToDigits(x)| + 1) / 2;
    if k < DigitBudget then DigitBudget - k else 0
  }

  /** The integer root of a d-digit x has ⌈d/2⌉ digits, so the places the
      search appends after its seed are those `RootPlaces` reads off x. */
  lemma {:induction false} RootPlacesOfSeed(x: nat, s: nat)
    requires x > 0 && Sq(s) <= x < Sq(s + 1)
    ensures Places(s) == RootPlaces(x)
  {
    assert Sq(1) == 1;
    var k := |ToDigits(s)|;
    SquareBetweenPow10(x, s, k);
    DigitCountBetween(x, 2 * k - 2, 2 * k);
  }

  /** If s has k digits, s² ≤ x < (s + 1)² puts x in [10^(2k-2), 10^(2k)). */
  lemma {:induction false} SquareBetweenPow10(x: nat, s: nat, k: nat)
    requires s > 0 && k == |ToDigits(s)|
    requires Sq(s) <= x < Sq(s + 1)
    ensures k >= 1 && Pow10(2 * k - 2) <= x < Pow10(2 * k)
  {
    ToDigitsLength(s);
    SquareAtLeastPow10(s, k - 1);
    SqMonotone(s + 1, Pow10(k));
    SqShift(1, k);
    assert Sq(1) == 1;
  }

  /** A number in [10^lo, 10^hi) has more than lo and at most hi digits. */
  lemma {:induction false} DigitCountBetween(x: nat, lo: nat, hi: nat)
    requires Pow10(lo) <= x < Pow10(hi)
    ensures lo < |ToDigits(x)| <= hi
  {
    var d := |ToDigits(x)|;
    ToDigitsLength(x);
    if d <= lo {
      Pow10Monotone(d, lo);
    }
    if d > hi {
      Pow10Monotone(hi, d - 1);
    }
  }

  /** The digit sum `main` adds for x, from an independent description: the
      budgeted most significant digits of the largest integer whose square
      lies below x·100^k, with k the places `RootPlaces` reads off x. */
  function RootDigitSum(x: nat): nat
    requires x > 0
  {
    TopDigitSum(ToDigits(RootBelow(Target(x, RootPlaces(x)))))
  }

  /** What the search keeps true of the approximation for x seeded with s:
      the seed's digits on top of the fractional digits found so far, and
      the square bracket of `GreedyStep`. */
  predicate Approximates(x: nat, s: nat, approx: DecimalArray)
  {
    SeedOnTop(s, approx.digits, approx.places) && Brackets(x, approx.digits, approx.places)
  }

  /** ds is the seed's digits with `places` fractional digits below them,
      within the budget, with no leading zero. */
  predicate SeedOnTop(s: nat, ds: seq<Digit>, places: nat)
  {
    && |ds| == |ToDigits(s)| + places
    && places <= Places(s)
    && ds[places..] == ToDigits(s)
    && IsCanonical(ds)
  }

  /** The scaled value of ds is at least one and is the largest integer
      whose square lies below x·100^places. */
  predicate Brackets(x: nat, ds: seq<Digit>, places: nat)
  {
    && Value(ds) >= Pow10(places)
    && Sq(Value(ds)) < Target(x, places) <= Sq(Value(ds) + 1)
  }

  lemma {:induction false} SearchStart(x: nat, s: nat)
    requires Sq(s) < x < Sq(s + 1)
    ensures Approximates(x, s, OfNat(s))
  {
  }

  /** Appending the digit `NextDigit` chooses keeps the search invariant. */
  lemma {:induction false} SearchStep(x: nat, s: nat, approx: DecimalArray, d: Digit)
    requires Approximates(x, s, approx) && |approx.digits| < DigitBudget
    requires d == 0 || Fits(x, approx.digits, approx.places + 1, d)
    requires d == 9 || !Fits(x, approx.digits, approx.places + 1, d + 1)
    ensures Approximates(x, s, Trial(approx.digits, approx.places + 1, d))
  {
    SeedStep(s, approx.digits, approx.places, d);
    BracketStep(x, approx.digits, approx.places, d);
  }

  /** A new lowest digit keeps the seed on top and adds one place. */
  lemma {:induction false} SeedStep(s: nat, ds: seq<Digit>, places: nat, d: Digit)
    requires SeedOnTop(s, ds, places) && |ds| < DigitBudget && Value(ds) > 0
    ensures SeedOnTop(s, [d] + ds, places + 1)
  {
    SliceBelowNewDigit(ds, d, places);
    NewDigitBelowTop(ds, d);
  }

  /** Putting a digit below ds shifts every position up by one. */
  lemma {:induction false} SliceBelowNewDigit(ds: seq<Digit>, d: Digit, k: nat)
    requires k <= |ds|
    ensures ([d] + ds)[k + 1..] == ds[k..]
  {
  }

  /** A digit put below a canonical list of non-zero value keeps it
      canonical: the top digit is unchanged and non-zero. */
  lemma {:induction false} NewDigitBelowTop(ds: seq<Digit>, d: Digit)
    requires IsCanonical(ds) && Value(ds) > 0
    ensures IsCanonical([d] + ds)
  {
    if |ds| == 1 {
      assert Value(ds) == ds[0] + 10 * Value(ds[1..]);
    }
    assert ([d] + ds)[|ds|] == ds[|ds| - 1];
  }

  /** The chosen digit keeps the bracket one place further on. */
  lemma {:induction false} BracketStep(x: nat, ds: seq<Digit>, places: nat, d: Digit)
    requires Brackets(x, ds, places)
    requires d == 0 || Fits(x, ds, places + 1, d)
    requires d == 9 || !Fits(x, ds, places + 1, d + 1)
    ensures Brackets(x, [d] + ds, places + 1)
  {
    var a, b := Value(ds), Value([d] + ds);
    TrialAtLeastOne(ds, places + 1, d);
    assert b == d + 10 * a;
    FitsValue(x, ds, a, places + 1, d);
    if d < 9 {
      FitsValue(x, ds, a, places + 1, d + 1);
    }
    GreedyStep(x, a, b, places, d);
  }

  /** `Fits` in terms of the scaled value a of the digits already found. */
  lemma {:induction false} FitsValue(x: nat, rest: seq<Digit>, a: nat, places: nat, e: Digit)
    requires a == Value(rest)
    ensures Fits(x, rest, places, e) <==> Sq(e + 10 * a) < Target(x, places)
  {
  }

  /** At the budget, the search has appended all the places `Places` allows. */
  lemma {:induction false} SeedDone(s: nat, ds: seq<Digit>, places: nat)
    requires SeedOnTop(s, ds, places) && |ds| >= DigitBudget
    ensures places == Places(s)
  {
  }

  /** A bracketed canonical digit list is the root of x·100^places. */
  lemma {:induction false} BracketsRoot(x: nat, ds: seq<Digit>, places: nat)
    requires Brackets(x, ds, places) && IsCanonical(ds)
    ensures ds == ToDigits(RootBelow(Target(x, places)))
  {
    RootBelowUnique(Target(x, places), Value(ds));
    CanonicalRoundTrip(ds);
  }

  /** The seed the search starts from is the integer square root. */
  lemma {:induction false} IsqrtOfBracket(x: nat, s: nat)
    requires Sq(s) < x < Sq(s + 1)
    ensures Isqrt(x) == s
  {
    RootBelowUnique(x + 1, s);
  }

  /** The search loop of `main` for one non-square x, seeded with its
      integer root: it stops at exactly 100 digits unless the seed alone
      has more, the digits it ends with are those of ⌊√x·10^places⌋ (the
      largest integer whose square is below x·100^places), and their
      budgeted digit sum is `RootDigitSum(x)`. */
  method SearchRoot(x: nat) returns (approx: DecimalArray, digitSum: nat)
    requires x > 0 && !IsPerfectSquare(x)
    ensures approx.places == RootPlaces(x) && |approx.digits| >= DigitBudget
    ensures |ToDigits(Isqrt(x))| <= DigitBudget ==> |approx.digits| == DigitBudget
    ensures approx.digits == ToDigits(RootBelow(Target(x, approx.places)))
    ensures approx.digits == ToDigits(Isqrt(Target(x, approx.places)))
    ensures digitSum == RootDigitSum(x)
  {
    var s := Isqrt(x);
    IsqrtDecidesSquare(x);
    approx := OfNat(s);
    SearchStart(x, s);
    while |approx.digits| < DigitBudget
      invariant Approximates(x, s, approx)
      decreases DigitBudget - |approx.digits|
    {
      var d := NextDigit(x, approx.digits, approx.places + 1);
      SearchStep(x, s, approx, d);
      approx := Trial(approx.digits, approx.places + 1, d);
    }
    SeedDone(s, approx.digits, approx.places);
    BracketsRoot(x, approx.digits, approx.places);
    ScaledNonSquare(x, approx.places);
    RootBelowNonSquare(Target(x, approx.places));
    RootPlacesOfSeed(x, s);
    digitSum := DigitSum(LastDigits(approx.digits));
    TopDigitSumIsLastDigits(approx.digits);
  }

  // ---------------------------------------------------------------------
  // main

  /** The total `main(n)` returns: the digit sums of every x in 1..n that
      is not a perfect square. */
  ghost function TotalOfSums(n: nat): nat
  {
    if n == 0 then 0 else TotalOfSums(n - 1) + Term(n)
  }

  /** What x contributes to the total: nothing for a perfect square. */
  ghost function Term(x: nat): nat
    requires x > 0
  {
    if IsPerfectSquare(x) then 0 else RootDigitSum(x)
  }

  /** `main`: the argument check, then the per-x search over 1..n with
      perfect squares skipped, summed. */
  method SumOfRootDigitSums(n: int) returns (r: Result<nat>)
    ensures r.Failure? <==> n <= 0
    ensures r.Failure? ==> r.error == AssertionError
    ensures r.Success? ==> r.value == TotalOfSums(n)
  {
    if n <= 0 {
      return Failure(AssertionError);
    }
    var total := 0;
    var x := 0;
    while x < n
      invariant 0 <= x <= n
      invariant total == TotalOfSums(x)
    {
      var term := TermOf(x + 1);
      total := total + term;
      x := x + 1;
    }
    return Success(total);
  }

  /** One pass of `main`'s loop: zero for a perfect square, otherwise the
      digit sum the search for its root produces. */
  method TermOf(x: nat) returns (term: nat)
    requires x >= 1
    ensures term == Term(x)
  {
    var square := IsSquare(x).value;
    if square {
      return 0;
    }
    var _, digitSum := SearchRoot(x);
    return digitSum;
  }
}
