/** Properties of `DecimalArray` that relate several operations: integer
    round trips through the constructor and `floor`, the identities the
    single-digit multiply keeps, and concrete inputs on which the code as
    written departs from its evident intent. */
module DecimalLaws {
  import opened Arith
  import opened DigitSeq
  import opened Decimals

  /** Cleaning a non-empty whole number yields the int constructor's digits. */
  lemma {:induction false} CleanWholeNumber(a: DecimalArray, n: nat)
    requires a.places == 0 && |a.digits| > 0 && Value(a.digits) == n
    ensures Clean(a) == OfNat(n)
  {
    var r := Clean(a);
    assert r.places == 0 && Value(r.digits) == Value(a.digits);
    assert IsCanonical(r.digits);
    CanonicalRoundTrip(r.digits);
  }

  /** `DecimalArray(int_value=n).floor() == n`. */
  lemma {:induction false} FloorOfInt(n: int)
    requires n >= 0
    ensures FromInt(n).Success?
    ensures Floor(FromInt(n).value) == Success(n)
  {
  }

  /** Adding two whole numbers succeeds exactly when the left one has at
      least as many digits, and then gives their sum. */
  lemma {:induction false} AddOfIntegers(a: nat, b: nat)
    ensures Add(OfNat(a), Int(b)).Success? <==> |ToDigits(b)| <= |ToDigits(a)|
    ensures Add(OfNat(a), Int(b)).Success? ==> Add(OfNat(a), Int(b)) == Success(OfNat(a + b))
  {
    var raw := AddRaw(OfNat(a), OfNat(b));
    if raw.Success? {
      CleanWholeNumber(raw.value, a + b);
    }
  }

  /** With the corrected padding, any two whole numbers add. */
  lemma {:induction false} AddFixedOfIntegers(a: nat, b: nat)
    ensures AddFixed(OfNat(a), Int(b)) == Success(OfNat(a + b))
  {
    var raw := AddRawFixed(OfNat(a), OfNat(b));
    assert AddFixed(OfNat(a), Int(b)) == Success(Clean(raw));
    WholeSum(raw, a, b);
    CleanWholeNumber(raw, a + b);
  }

  lemma {:induction false} WholeSum(raw: DecimalArray, a: nat, b: nat)
    requires raw == AddRawFixed(OfNat(a), OfNat(b))
    ensures raw.places == 0 && Value(raw.digits) == a + b && |raw.digits| > 0
  {
    assert Scaled(OfNat(a), 0) == a && Scaled(OfNat(b), 0) == b;
  }

  /** 1 + 10: the left operand has fewer digits, and the code pops past the
      end of its list; the corrected addition gives 11. */
  lemma {:induction false} AddShorterLeftFails()
    ensures Add(OfNat(1), Int(10)) == Failure(IndexError)
    ensures AddFixed(OfNat(1), Int(10)) == Success(OfNat(11))
  {
    assert ToDigits(10) == [0, 1];
    AddFixedOfIntegers(1, 10);
  }

  /** Multiplying two whole numbers gives their product. */
  lemma {:induction false} MulDecimalOfIntegers(a: nat, b: nat)
    ensures MulDecimal(OfNat(a), OfNat(b)) == Success(OfNat(Mul(a, b)))
  {
    CleanWholeNumber(DecimalArray(ToDigits(Mul(a, b)), 0), Mul(a, b));
  }

  /** As written, multiplying by 0 or 1 returns the (cleaned) operand: the
      final carry is zero and the original digits are kept. */
  lemma {:induction false} MulDigitByZeroOrOne(a: DecimalArray, d: int)
    requires 0 <= d <= 1
    ensures MulDigit(a, d) == Success(Clean(a))
  {
    NoFinalCarry(a.digits, d);
  }

  /** Times 0 or 1 the carry out of the top digit is zero, so nothing is
      appended. */
  lemma {:induction false} NoFinalCarry(ds: seq<Digit>, d: int)
    requires 0 <= d <= 1
    ensures ds + CarryDigits(Unshift(Mul(d, Value(ds)), |ds|)) == ds
  {
    var v := Value(ds);
    ValueBelowPow10(ds);
    MulByZeroOrOne(d, v);
    UnshiftShift(0, Mul(d, v), |ds|);
    assert ds + [] == ds;
  }

  /** The corrected single-digit multiply of a whole number is the product. */
  lemma {:induction false} MulDigitFixedOfInteger(a: nat, d: int)
    requires 0 <= d < 10
    ensures MulDigitFixed(OfNat(a), d) == Success(OfNat(Mul(d, a)))
  {
    var loop := MulDigitLoopFixed(ToDigits(a), d, 0);
    ValueAppend(loop.0, CarryDigits(loop.1));
    CleanWholeNumber(DecimalArray(loop.0 + CarryDigits(loop.1), 0), Mul(d, a));
  }

  /** As written, multiplying a decimal whose n stored digits scale to v by
      d keeps those digits and puts the final carry ⌊d·v / 10^n⌋ above
      them: the result represents v + ⌊d·v / 10^n⌋·10^n, not d·v. */
  lemma {:induction false} MulDigitValue(a: DecimalArray, d: int, v: nat, n: nat)
    requires 0 <= d < 10 && v == Value(a.digits) && n == |a.digits|
    ensures MulDigit(a, d).Success?
    ensures HasValue(MulDigit(a, d).value, v + Shift(Unshift(Mul(d, v), n), n), a.places)
  {
    var c := Unshift(Mul(d, v), n);
    ValueAppend(a.digits, CarryDigits(c));
  }

  /** a · 2 for a single digit a from 5 to 9 (5 · 2, say): the code keeps
      the digit a and appends the carry 1, so the result represents a + 10;
      the corrected multiply gives 2a, which differs. */
  lemma {:induction false} MulDigitKeepsOperandDigits(a: nat)
    requires 5 <= a <= 9
    ensures MulDigit(OfNat(a), 2).Success?
    ensures HasValue(MulDigit(OfNat(a), 2).value, a + 10, 0)
    ensures MulDigitFixed(OfNat(a), 2) == Success(OfNat(2 * a))
    ensures a + 10 != 2 * a
  {
    assert ToDigits(a) == [a];
    MulIsProduct(2, a);
    MulDigitValue(OfNat(a), 2, a, 1);
    assert Unshift(2 * a, 1) == 1;
    MulDigitFixedOfInteger(a, 2);
  }

  /** 0.d · 0.1 = 0.0d for a non-zero digit d (0.5 · 0.1 = 0.05, say) is
      stored as the single digit d with two decimal places; `floor` then
      slices an empty list and fails in `int('')`, where the corrected
      floor gives 0. */
  lemma {:induction false} FloorFailsBelowOneTenth(d: Digit)
    requires d != 0
    ensures MulDecimal(DecimalArray([d], 1), DecimalArray([1], 1)) == Success(DecimalArray([d], 2))
    ensures Floor(DecimalArray([d], 2)) == Failure(ValueError)
    ensures FloorFixed(DecimalArray([d], 2)) == 0
  {
    HundredthsProduct(d);
    assert Value([d]) == d;
  }

  /** 0.d · 0.1 through `__mul__` is 0.0d, already clean. */
  lemma {:induction false} HundredthsProduct(d: Digit)
    requires d != 0
    ensures MulDecimal(DecimalArray([d], 1), DecimalArray([1], 1)) == Success(DecimalArray([d], 2))
  {
    assert Value([d]) == d && Value([1]) == 1;
    assert Mul(d, 1) == d;
    MulDecimalDigits(DecimalArray([d], 1), DecimalArray([1], 1), d, 2);
    assert ToDigits(d) == [d];
    CleanFixesClean(DecimalArray([d], 2));
  }

  /** A zero with no integer digit cleans to an empty digit list, on which
      the decimal multiply then fails in `int('')`. */
  lemma {:induction false} CleanZeroLeavesNoDigits()
    ensures Clean(DecimalArray([0], 1)) == DecimalArray([], 0)
    ensures MulDecimal(DecimalArray([], 0), OfNat(3)) == Failure(ValueError)
  {
    assert Value([0]) == 0;
  }

  /** Squaring a decimal of at least one through `__mul__` and taking the
      floor never fails, and gives ⌊v² / 10^(2·places)⌋. */
  lemma {:induction false} SquareFloor(t: DecimalArray, v: nat)
    requires v == Value(t.digits) && v >= Pow10(t.places)
    ensures MulDecimal(t, t).Success?
    ensures Floor(MulDecimal(t, t).value) == Success(Unshift(Sq(v), 2 * t.places))
  {
    var raw := DecimalArray(ToDigits(Sq(v)), 2 * t.places);
    SelfProduct(t);
    SquareAtLeastPow10(v, t.places);
    FloorOfClean(raw);
  }

  /** Multiplying a number by itself squares the digit value and doubles the places. */
  lemma {:induction false} SelfProduct(t: DecimalArray)
    requires |t.digits| > 0
    ensures MulDecimal(t, t)
            == Success(Clean(DecimalArray(ToDigits(Sq(Value(t.digits))), 2 * t.places)))
  {
    var v := Value(t.digits);
    SqIsMul(v);
    MulDecimalDigits(t, t, Sq(v), 2 * t.places);
  }
}
