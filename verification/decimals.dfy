/** `DecimalArray` (decimal_array.py): a non-negative finite decimal held as
    a list of digits, least significant first, of which the lowest
    `places` lie after the decimal point. The represented value is
    Value(digits) · 10^-places.

    Python's exceptions become `Failure` results: a failed `assert` is
    `AssertionError`, `int('')` on an empty digit list is `ValueError`, and
    `pop(0)` on an exhausted list is `IndexError`. Where the code departs
    from its evident intent, the member modelling the code as written is
    accompanied by a `Fixed` member carrying the intended property. */
module Decimals {
  import opened Arith
  import opened DigitSeq

  datatype Error =
    | AssertionError
    | ValueError
    | IndexError

  datatype Result<T> = Success(value: T) | Failure(error: Error)

  datatype DecimalArray = DecimalArray(digits: seq<Digit>, places: nat)

  /** The right operand of `__add__`: another decimal or a Python int. */
  datatype Operand = Num(num: DecimalArray) | Int(n: int)

  function Max(a: int, b: int): int
  {
    if a >= b then a else b
  }

  /** a represents n · 10^-k: its value written with k decimal places is n. */
  predicate HasValue(a: DecimalArray, n: nat, k: nat)
  {
    a.places <= k && Shift(Value(a.digits), k - a.places) == n
  }

  /** The value of a written with k >= a.places decimal places. */
  function Scaled(a: DecimalArray, k: nat): nat
    requires a.places <= k
  {
    Shift(Value(a.digits), k - a.places)
  }

  /** |digits| - places: the digits stored before the decimal point, or,
      when negative, how many leading fractional zeros are not stored. */
  function IntegerLength(a: DecimalArray): int
  {
    |a.digits| - a.places
  }

  // ---------------------------------------------------------------------
  // Construction

  /** `DecimalArray(int_value=n)`: the digits of `str(n)` reversed, no
      decimal places; a negative n fails the argument check. */
  function FromInt(n: int): (r: Result<DecimalArray>)
    ensures r.Failure? <==> n < 0
    ensures r.Failure? ==> r.error == AssertionError
    ensures r.Success? ==> r.value.places == 0 && Value(r.value.digits) == n
    ensures r.Success? ==> IsCanonical(r.value.digits)
  {
    if n < 0 then Failure(AssertionError) else Success(OfNat(n))
  }

  /** The successful branch of `FromInt`: the canonical digits of n as a
      whole number. */
  function OfNat(n: nat): (r: DecimalArray)
    ensures r.places == 0 && Value(r.digits) == n
    ensures IsCanonical(r.digits)
  {
    DecimalArray(ToDigits(n), 0)
  }

  /** `DecimalArray(digits=ds, decimal_places=places, reverse=reverse)`:
      the list is taken as given, or reversed when `reverse` is set. */
  function FromDigits(ds: seq<int>, places: int, reverse: bool): (r: Result<DecimalArray>)
    ensures r.Success? <==> AllDigits(ds) && places >= 0
    ensures r.Failure? ==> r.error == AssertionError
    ensures r.Success? ==> r.value.places == places && |r.value.digits| == |ds|
    ensures r.Success? && !reverse ==>
              forall i :: 0 <= i < |ds| ==> r.value.digits[i] == ds[i]
    ensures r.Success? && reverse ==>
              forall i :: 0 <= i < |ds| ==> r.value.digits[i] == ds[|ds| - 1 - i]
  {
    if !(AllDigits(ds) && places >= 0) then Failure(AssertionError)
    else
      var stored: seq<Digit> := if reverse then Reverse(ds) else ds;
      Success(DecimalArray(stored, places))
  }

  // ---------------------------------------------------------------------
  // Normalisation

  /** The first loop of `clean`: the number of zero digits popped off the
      low end, counting on from the i already popped. Popping stops at a
      non-zero digit, at the end of the list, or once no decimal place is
      left. */
  function LowZeros(ds: seq<Digit>, places: nat, i: nat): (j: nat)
    requires i <= |ds| && i <= places
    ensures i <= j <= |ds| && j <= places
    ensures j == |ds| || j == places || ds[j] != 0
    ensures forall k :: i <= k < j ==> ds[k] == 0
    decreases |ds| - i
  {
    if i < |ds| && ds[i] == 0 && i < places then LowZeros(ds, places, i + 1) else i
  }

  /** The second loop of `clean`, over the digits from index lo on: the end
      of the list after popping zero digits off the high end while more
      than one digit remains. */
  function HighEnd(ds: seq<Digit>, lo: nat, n: nat): (e: nat)
    requires lo <= n <= |ds|
    ensures lo <= e <= n && (n > lo ==> e > lo)
    ensures e > lo + 1 ==> ds[e - 1] != 0
    ensures forall k :: e <= k < n ==> ds[k] == 0
    decreases n
  {
    if n > lo + 1 && ds[n - 1] == 0 then HighEnd(ds, lo, n - 1) else n
  }

  /** No zero digit `clean` would remove: the lowest stored digit is not a
      redundant fractional zero, and the highest is not a leading zero. */
  predicate IsClean(a: DecimalArray)
  {
    && (a.places > 0 && |a.digits| > 0 ==> a.digits[0] != 0)
    && (|a.digits| > 1 ==> a.digits[|a.digits| - 1] != 0)
  }

  /** The digits from index j up to (not including) e, built one digit at
      a time; equal to `ds[j..e]` (`SliceIsSubsequence`). */
  function Slice(ds: seq<Digit>, j: nat, e: nat): (r: seq<Digit>)
    requires j <= e <= |ds|
    ensures |r| == e - j
    decreases e - j
  {
    if j == e then [] else [ds[j]] + Slice(ds, j + 1, e)
  }

  lemma {:induction false} SliceIsSubsequence(ds: seq<Digit>, j: nat, e: nat)
    requires j <= e <= |ds|
    ensures Slice(ds, j, e) == ds[j..e]
    decreases e - j
  {
    if j < e {
      SliceIsSubsequence(ds, j + 1, e);
      assert ds[j..e] == [ds[j]] + ds[j + 1..e];
    }
  }

  /** `clean`: strip redundant fractional zeros, then leading zeros. The
      value is kept, no removable zero is left, and a zero whose stored
      digits are all fractional ends with no digits at all, having given
      up one place per digit. */
  function Clean(a: DecimalArray): (r: DecimalArray)
    ensures IsClean(r)
    ensures HasValue(r, Value(a.digits), a.places)
    ensures r.places <= a.places && a.places - r.places + |r.digits| <= |a.digits|
    ensures |r.digits| == 0 <==> Value(a.digits) == 0 && a.places >= |a.digits|
    ensures |r.digits| == 0 ==> r.places == a.places - |a.digits|
  {
    var j := LowZeros(a.digits, a.places, 0);
    var e := HighEnd(a.digits, j, |a.digits|);
    SliceIsSubsequence(a.digits, j, e);
    CleanKeepsValue(a.digits, j, e);
    CleanLeavesNoZero(a.digits, a.places, j, e);
    CleanEmptyIff(a.digits, a.places, j, e);
    DecimalArray(Slice(a.digits, j, e), a.places - j)
  }

  /** `clean` only removes digits from the two ends: what remains is a
      contiguous run of the original digits. */
  lemma {:induction false} CleanIsSlice(a: DecimalArray)
    ensures var r := Clean(a);
            var j := a.places - r.places;
            0 <= j && j + |r.digits| <= |a.digits| && r.digits == a.digits[j..j + |r.digits|]
  {
    var j := LowZeros(a.digits, a.places, 0);
    SliceIsSubsequence(a.digits, j, HighEnd(a.digits, j, |a.digits|));
  }

  /** Removing zeros below index j and from index e on keeps the value,
      up to the shift by the j fractional places given up. */
  lemma {:induction false} CleanKeepsValue(ds: seq<Digit>, j: nat, e: nat)
    requires j <= e <= |ds|
    requires forall k :: 0 <= k < j ==> ds[k] == 0
    requires forall k :: e <= k < |ds| ==> ds[k] == 0
    ensures Shift(Value(ds[j..e]), j) == Value(ds)
  {
    var low, mid, high := ds[..j], ds[j..e], ds[e..];
    assert ds == low + (mid + high);
    ValueAppend(low, mid + high);
    ValueAppend(mid, high);
    ValueZeroIff(low);
    ValueZeroIff(high);
  }

  /** The two loops stop at the digits `IsClean` asks about. */
  lemma {:induction false} CleanLeavesNoZero(ds: seq<Digit>, places: nat, j: nat, e: nat)
    requires j == LowZeros(ds, places, 0) && e == HighEnd(ds, j, |ds|)
    ensures IsClean(DecimalArray(ds[j..e], places - j))
  {
  }

  /** Nothing is left exactly when every digit is a zero after the point. */
  lemma {:induction false} CleanEmptyIff(ds: seq<Digit>, places: nat, j: nat, e: nat)
    requires j == LowZeros(ds, places, 0) && e == HighEnd(ds, j, |ds|)
    ensures e == j <==> Value(ds) == 0 && places >= |ds|
  {
    ValueZeroIff(ds);
  }

  /** A clean value is a fixed point of `clean`. */
  lemma {:induction false} CleanFixesClean(a: DecimalArray)
    requires IsClean(a)
    ensures Clean(a) == a
  {
    assert LowZeros(a.digits, a.places, 0) == 0;
    assert HighEnd(a.digits, 0, |a.digits|) == |a.digits|;
    SliceIsSubsequence(a.digits, 0, |a.digits|);
    assert a.digits[0..|a.digits|] == a.digits;
  }

  /** `clean` is idempotent. */
  lemma {:induction false} CleanIdempotent(a: DecimalArray)
    ensures Clean(Clean(a)) == Clean(a)
  {
    CleanFixesClean(Clean(a));
  }

  // ---------------------------------------------------------------------
  // Floor

  /** `int(''.join(map(str, ds[::-1])))`: the digits read as an integer,
      failing on an empty list. */
  function IntOfDigits(ds: seq<Digit>): (r: Result<nat>)
    ensures r.Failure? <==> |ds| == 0
    ensures r.Failure? ==> r.error == ValueError
    ensures r.Success? ==> r.value == Value(ds)
  {
    if |ds| == 0 then Failure(ValueError) else Success(Value(ds))
  }

  /** `floor`: one zero is appended before slicing off the fractional
      digits, which covers `places == |digits|` but leaves an empty list,
      and so `int('')`, whenever `places > |digits|`. */
  function Floor(a: DecimalArray): (r: Result<nat>)
    ensures r.Failure? <==> a.places > |a.digits|
    ensures r.Failure? ==> r.error == ValueError
    ensures r.Success? ==> r.value == Unshift(Value(a.digits), a.places)
  {
    var padded := a.digits + [0];
    var intPart := if a.places <= |padded| then padded[a.places..] else [];
    FloorIntPart(a);
    IntOfDigits(intPart)
  }

  lemma {:induction false} FloorIntPart(a: DecimalArray)
    ensures a.places <= |a.digits| ==>
              Value((a.digits + [0])[a.places..]) == Unshift(Value(a.digits), a.places)
  {
    if a.places > |a.digits| {
      return;
    }
    var ds := a.digits;
    assert (ds + [0])[a.places..] == ds[a.places..] + Zeros(1);
    ValueHighZeros(ds[a.places..], 1);
    ValueSuffix(ds, a.places);
  }

  /** `floor` with enough zeros appended that the slice is never empty: the
      integer part of every decimal. */
  function FloorFixed(a: DecimalArray): (r: nat)
    ensures r == Unshift(Value(a.digits), a.places)
  {
    var padded := a.digits + Zeros(a.places + 1 - |a.digits|);
    ValueHighZeros(a.digits, a.places + 1 - |a.digits|);
    ValueSuffix(padded, a.places);
    Value(padded[a.places..])
  }

  /** Where the code's `floor` succeeds it agrees with the corrected one. */
  lemma {:induction false} FloorAgreesWithFixed(a: DecimalArray)
    requires a.places <= |a.digits|
    ensures Floor(a) == Success(FloorFixed(a))
  {
  }

  /** `clean` keeps the integer part of any value of at least one, so
      `floor` after `clean` then succeeds. */
  lemma {:induction false} FloorOfClean(a: DecimalArray)
    requires Value(a.digits) >= Pow10(a.places)
    ensures Floor(Clean(a)) == Success(Unshift(Value(a.digits), a.places))
  {
    var r := Clean(a);
    var v := Value(r.digits);
    ValueBelowPow10(r.digits);
    ShiftedFloor(v, a.places - r.places, r.places, a.places, |r.digits|, Value(a.digits));
    FloorSucceeds(r);
  }

  lemma {:induction false} FloorSucceeds(a: DecimalArray)
    requires a.places <= |a.digits|
    ensures Floor(a) == Success(Unshift(Value(a.digits), a.places))
  {
  }

  /** The integer-part arithmetic behind `FloorOfClean`: a number v of n
      digits whose shift by j is at least 10^(p+j) has more than p digits,
      and dropping p + j digits of the shifted number drops p of v. */
  lemma {:induction false} ShiftedFloor(v: nat, j: nat, p: nat, k: nat, n: nat, total: nat)
    requires k == j + p
    requires Shift(v, j) == total && total >= Pow10(k) && v < Pow10(n)
    ensures p < n && Unshift(total, k) == Unshift(v, p)
  {
    ShiftAdd(1, p, j);
    ShiftLe(Pow10(p), v, j);
    if n <= p {
      Pow10Monotone(n, p);
      assert false;
    }
    UnshiftShiftCancel(v, j, p);
  }

  // ---------------------------------------------------------------------
  // Addition

  /** The digit loop of `__add__`: `count` rounds, each popping one digit
      from both lists; the final carry becomes one more digit. */
  function AddLoop(xs: seq<Digit>, ys: seq<Digit>, carry: nat, count: nat): (r: Result<seq<Digit>>)
    requires carry <= 1
    ensures r.Success? <==> count <= |xs| && count <= |ys|
    ensures r.Failure? ==> r.error == IndexError
    ensures r.Success? ==> Value(r.value) == Value(xs[..count]) + Value(ys[..count]) + carry
    ensures r.Success? ==> count <= |r.value| <= count + 1
    ensures r.Success? && Value(r.value) == 0 ==> |r.value| == count
    decreases count
  {
    if count == 0 then
      Success(if carry > 0 then [carry] else [])
    else if |xs| == 0 || |ys| == 0 then
      Failure(IndexError)
    else
      var s := xs[0] + ys[0] + carry;
      match AddLoop(xs[1..], ys[1..], s / 10, count - 1)
      case Failure(e) => Failure(e)
      case Success(rest) =>
        assert xs[..count][1..] == xs[1..][..count - 1];
        assert ys[..count][1..] == ys[1..][..count - 1];
        Success([s % 10] + rest)
  }

  /** Lines 45-55 of `__add__`: the operand with fewer decimal places gets
      zeros on its low end, so both have `Max(places)` decimal places. */
  function AlignPlaces(a: DecimalArray, b: DecimalArray): (r: (seq<Digit>, seq<Digit>))
    ensures |r.0| == |a.digits| + (Max(a.places, b.places) - a.places)
    ensures |r.1| == |b.digits| + (Max(a.places, b.places) - b.places)
    ensures Value(r.0) == Scaled(a, Max(a.places, b.places))
    ensures Value(r.1) == Scaled(b, Max(a.places, b.places))
  {
    if a.places > b.places then
      ValueLowZeros(a.places - b.places, b.digits);
      (a.digits, Zeros(a.places - b.places) + b.digits)
    else
      ValueLowZeros(b.places - a.places, a.digits);
      (Zeros(b.places - a.places) + a.digits, b.digits)
  }

  /** `__add__` before `clean`, as written: the aligned lists summed by
      `AddDigitsRaw`, so it fails exactly when the left operand's
      `IntegerLength` (|digits| - places, possibly negative) is the
      smaller. */
  function AddRaw(a: DecimalArray, b: DecimalArray): (r: Result<DecimalArray>)
    ensures r.Failure? <==> IntegerLength(a) < IntegerLength(b)
    ensures r.Failure? ==> r.error == IndexError
    ensures r.Success? ==> r.value.places == Max(a.places, b.places)
    ensures r.Success? ==>
              Value(r.value.digits) == Scaled(a, r.value.places) + Scaled(b, r.value.places)
    ensures r.Success? ==> |r.value.digits| >= |a.digits|
    ensures r.Success? && Value(r.value.digits) == 0 ==>
              |r.value.digits| == |a.digits| + (Max(a.places, b.places) - a.places)
  {
    var (xs, ys) := AlignPlaces(a, b);
    match AddDigitsRaw(xs, ys)
    case Failure(e) => Failure(e)
    case Success(ds) => Success(DecimalArray(ds, Max(a.places, b.places)))
  }

  /** Lines 57-76 of `__add__`, as written: when the left list is the
      shorter one it is "padded" with `range(count1 - count2)` zeros, that
      is none, and the loop pops past its end. */
  function AddDigitsRaw(xs: seq<Digit>, ys: seq<Digit>): (r: Result<seq<Digit>>)
    ensures r.Failure? <==> |xs| < |ys|
    ensures r.Failure? ==> r.error == IndexError
    ensures r.Success? ==> Value(r.value) == Value(xs) + Value(ys) && |r.value| >= |xs|
    ensures r.Success? && Value(r.value) == 0 ==> |r.value| == |xs|
  {
    var (xs', ys') :=
      if |xs| > |ys| then (xs, ys + Zeros(|xs| - |ys|))
      else (xs + Zeros(|xs| - |ys|), ys);
    ValueHighZeros(ys, |xs| - |ys|);
    assert |xs'| >= |ys'| ==> xs'[..|xs'|] == xs' && ys'[..|xs'|] == ys';
    AddLoop(xs', ys', 0, Max(|xs|, |ys|))
  }

  /** `__add__` before `clean` with line 63 padding the left list by
      `count2 - count1` zeros: the evidently intended version, which never
      fails. */
  function AddRawFixed(a: DecimalArray, b: DecimalArray): (r: DecimalArray)
    ensures r.places == Max(a.places, b.places)
    ensures Value(r.digits) == Scaled(a, r.places) + Scaled(b, r.places)
    ensures |r.digits| >= |a.digits| && |r.digits| >= |b.digits|
  {
    var (xs, ys) := AlignPlaces(a, b);
    DecimalArray(AddDigits(xs, ys), Max(a.places, b.places))
  }

  /** Lines 57-76 of `__add__` with both lists padded to the longer one:
      the digits of the sum. */
  function AddDigits(xs: seq<Digit>, ys: seq<Digit>): (r: seq<Digit>)
    ensures Value(r) == Value(xs) + Value(ys)
    ensures |r| >= |xs| && |r| >= |ys|
  {
    var n := Max(|xs|, |ys|);
    var xs', ys' := xs + Zeros(n - |xs|), ys + Zeros(n - |ys|);
    ValueHighZeros(xs, n - |xs|);
    ValueHighZeros(ys, n - |ys|);
    assert xs'[..n] == xs' && ys'[..n] == ys';
    AddLoop(xs', ys', 0, n).value
  }

  /** The decimal `__add__` works with: an int operand goes through the
      int constructor. */
  function AsDecimal(b: Operand): (r: DecimalArray)
    requires b.Num? || b.n >= 0
    ensures b.Num? ==> r == b.num
    ensures b.Int? ==> FromInt(b.n) == Success(r)
  {
    if b.Num? then b.num else OfNat(b.n)
  }

  /** `__add__`: a negative int is refused; otherwise the sum, cleaned, or
      `IndexError` when the left operand's `IntegerLength` is the smaller
      (so 0.05 + 0.5 fails as well as 1 + 10). */
  function Add(a: DecimalArray, b: Operand): (r: Result<DecimalArray>)
    ensures b.Int? && b.n < 0 ==> r == Failure(AssertionError)
    ensures (b.Num? || b.n >= 0) ==>
              (r.Failure? <==> IntegerLength(a) < IntegerLength(AsDecimal(b)))
    ensures (b.Num? || b.n >= 0) && r.Failure? ==> r.error == IndexError
    ensures r.Success? ==> IsClean(r.value)
    ensures r.Success? ==>
              var m := Max(a.places, AsDecimal(b).places);
              HasValue(r.value, Scaled(a, m) + Scaled(AsDecimal(b), m), m)
    ensures r.Success? ==>
              var m := Max(a.places, AsDecimal(b).places);
              (|r.value.digits| == 0 <==>
                 Scaled(a, m) + Scaled(AsDecimal(b), m) == 0 && IntegerLength(a) <= 0)
    ensures r.Success? && |r.value.digits| == 0 ==> r.value.places == -IntegerLength(a)
  {
    if b.Int? && b.n < 0 then Failure(AssertionError)
    else
      match AddRaw(a, AsDecimal(b))
      case Failure(e) => Failure(e)
      case Success(sum) => Success(Clean(sum))
  }

  /** `__add__` with the corrected padding: only a negative int fails. */
  function AddFixed(a: DecimalArray, b: Operand): (r: Result<DecimalArray>)
    ensures r.Failure? <==> b.Int? && b.n < 0
    ensures r.Failure? ==> r.error == AssertionError
    ensures r.Success? ==> IsClean(r.value)
    ensures r.Success? ==>
              var m := Max(a.places, AsDecimal(b).places);
              HasValue(r.value, Scaled(a, m) + Scaled(AsDecimal(b), m), m)
  {
    if b.Int? && b.n < 0 then Failure(AssertionError)
    else Success(Clean(AddRawFixed(a, AsDecimal(b))))
  }

  /** Where the code's `__add__` succeeds, the corrected one gives the
      same decimal. */
  lemma {:induction false} AddAgreesWithFixed(a: DecimalArray, b: Operand)
    requires Add(a, b).Success?
    ensures AddFixed(a, b) == Add(a, b)
  {
    var (xs, ys) := AlignPlaces(a, AsDecimal(b));
    AddDigitsAgree(xs, ys);
  }

  /** Where the as-written padding succeeds it sums the same digits as the
      corrected one. */
  lemma {:induction false} AddDigitsAgree(xs: seq<Digit>, ys: seq<Digit>)
    requires |xs| >= |ys|
    ensures AddDigitsRaw(xs, ys) == Success(AddDigits(xs, ys))
  {
    assert Zeros(0) == [];
    assert xs + [] == xs && ys + [] == ys;
  }

  // ---------------------------------------------------------------------
  // Multiplication by a single digit

  /** The digit loop of `__mul__` by an int, as written: each round pops d1,
      computes the carry from other·d1, and appends d1 itself rather than
      the product digit. It returns the appended list and the final carry. */
  function MulDigitLoop(ds: seq<Digit>, other: Digit, carry: nat): (r: (seq<Digit>, nat))
    ensures r.0 == ds
    ensures r.1 == Unshift(Mul(other, Value(ds)) + carry, |ds|)
    decreases |ds|
  {
    if |ds| == 0 then ([], carry)
    else
      var x := Mul(other, ds[0]) + carry;
      var rest := MulDigitLoop(ds[1..], other, x / 10);
      CarryStep(ds, other, carry);
      ([ds[0]] + rest.0, rest.1)
  }

  /** The digit loop of `__mul__` by an int with `d` appended, as intended:
      the appended digits and the final carry together make other·ds + carry. */
  function MulDigitLoopFixed(ds: seq<Digit>, other: Digit, carry: nat): (r: (seq<Digit>, nat))
    ensures |r.0| == |ds|
    ensures Value(r.0) + Shift(r.1, |ds|) == Mul(other, Value(ds)) + carry
    decreases |ds|
  {
    if |ds| == 0 then ([], carry)
    else
      var x := Mul(other, ds[0]) + carry;
      var rest := MulDigitLoopFixed(ds[1..], other, x / 10);
      ProductDigitStep(ds, other, carry, rest.0, rest.1);
      ([x % 10] + rest.0, rest.1)
  }

  /** One round of the intended loop: the product digit in front of the
      rest of the product keeps the loop's equation. */
  lemma {:induction false} ProductDigitStep(ds: seq<Digit>, other: Digit, carry: nat, rest: seq<Digit>, c: nat)
    requires |ds| > 0
    requires Value(rest) + Shift(c, |ds| - 1) == Mul(other, Value(ds[1..])) + (Mul(other, ds[0]) + carry) / 10
    ensures Value([(Mul(other, ds[0]) + carry) % 10] + rest) + Shift(c, |ds|) == Mul(other, Value(ds)) + carry
  {
    var x := Mul(other, ds[0]) + carry;
    var v0, vr := ds[0], Value(ds[1..]);
    MulStep(other, v0, vr, carry);
    assert ([x % 10] + rest)[1..] == rest;
    assert Value([x % 10] + rest) == x % 10 + 10 * Value(rest);
    assert Shift(c, |ds|) == 10 * Shift(c, |ds| - 1);
    assert Value(ds) == v0 + 10 * vr;
  }

  /** One round of the carry: ⌊(other·ds + carry) / 10^n⌋ computed digit by digit. */
  lemma {:induction false} CarryStep(ds: seq<Digit>, other: Digit, carry: nat)
    requires |ds| > 0
    ensures Unshift(Mul(other, Value(ds[1..])) + (Mul(other, ds[0]) + carry) / 10, |ds| - 1)
            == Unshift(Mul(other, Value(ds)) + carry, |ds|)
  {
    var v0, vr := ds[0], Value(ds[1..]);
    CarryDivTen(other, v0, vr, carry);
    assert Value(ds) == v0 + 10 * vr;
  }

  /** The second loop of `__mul__` by an int: the final carry's digits,
      least significant first. */
  function CarryDigits(c: nat): (ds: seq<Digit>)
    ensures Value(ds) == c
    ensures c == 0 <==> ds == []
    ensures c > 0 ==> ds == ToDigits(c)
  {
    if c == 0 then [] else [c % 10] + CarryDigits(c / 10)
  }

  /** `__mul__` by an int, as written: the argument check, then the
      original digits followed by the digits of the final carry
      ⌊other·Value(digits) / 10^|digits|⌋, decimal places kept, cleaned. */
  function MulDigit(a: DecimalArray, other: int): (r: Result<DecimalArray>)
    ensures r.Failure? <==> !(0 <= other < 10)
    ensures r.Failure? ==> r.error == AssertionError
    ensures r.Success? ==>
              r.value == Clean(DecimalArray(
                a.digits + CarryDigits(Unshift(Mul(other, Value(a.digits)), |a.digits|)), a.places))
  {
    if !(0 <= other < 10) then Failure(AssertionError)
    else
      var (ds, carry) := MulDigitLoop(a.digits, other, 0);
      Success(Clean(DecimalArray(ds + CarryDigits(carry), a.places)))
  }

  /** `__mul__` by an int with the product digit appended: the product. */
  function MulDigitFixed(a: DecimalArray, other: int): (r: Result<DecimalArray>)
    ensures r.Failure? <==> !(0 <= other < 10)
    ensures r.Failure? ==> r.error == AssertionError
    ensures r.Success? ==> IsClean(r.value)
    ensures r.Success? ==> HasValue(r.value, Mul(other, Value(a.digits)), a.places)
  {
    if !(0 <= other < 10) then Failure(AssertionError)
    else
      var (ds, carry) := MulDigitLoopFixed(a.digits, other, 0);
      ValueAppend(ds, CarryDigits(carry));
      Success(Clean(DecimalArray(ds + CarryDigits(carry), a.places)))
  }

  // ---------------------------------------------------------------------
  // Multiplication by a decimal

  /** `__mul__` by a `DecimalArray`: both digit lists read as integers (an
      empty list fails in `int('')`), multiplied, and given the sum of the
      decimal places. A zero product with places left cleans to no digits
      and one place fewer: a further `*` on it fails, and so does `floor`
      when the places add up to two or more. */
  function MulDecimal(a: DecimalArray, b: DecimalArray): (r: Result<DecimalArray>)
    ensures r.Failure? <==> |a.digits| == 0 || |b.digits| == 0
    ensures r.Failure? ==> r.error == ValueError
    ensures r.Success? ==> IsClean(r.value)
    ensures r.Success? ==>
              HasValue(r.value, Mul(Value(a.digits), Value(b.digits)), a.places + b.places)
    ensures r.Success? ==>
              (|r.value.digits| == 0 <==>
                 Mul(Value(a.digits), Value(b.digits)) == 0 && a.places + b.places > 0)
    ensures r.Success? && |r.value.digits| == 0 ==> r.value.places == a.places + b.places - 1
  {
    match IntOfDigits(a.digits)
    case Failure(e) => Failure(e)
    case Success(va) =>
      match IntOfDigits(b.digits)
      case Failure(e) => Failure(e)
      case Success(vb) =>
        Success(Clean(DecimalArray(ToDigits(Mul(va, vb)), a.places + b.places)))
  }

  /** The product `__mul__` forms before cleaning, for a given value n of
      the integer product. */
  lemma {:induction false} MulDecimalDigits(a: DecimalArray, b: DecimalArray, n: nat, k: nat)
    requires |a.digits| > 0 && |b.digits| > 0
    requires n == Mul(Value(a.digits), Value(b.digits)) && k == a.places + b.places
    ensures MulDecimal(a, b) == Success(Clean(DecimalArray(ToDigits(n), k)))
  {
  }
}
