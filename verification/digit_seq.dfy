/** Lists of decimal digits stored least-significant first, the
    representation `DecimalArray` keeps in its `digits` field, and their
    value read as a whole number. Python's `str`/`int` conversions between
    an integer and its digit list become `ToDigits` and `Value` here. */
module DigitSeq {
  import opened Arith

  type Digit = d: int | 0 <= d <= 9

  /** The scaled value Σ ds[i]·10^i (the decimal point ignored). */
  function Value(ds: seq<Digit>): nat
  {
    if |ds| == 0 then 0 else ds[0] + 10 * Value(ds[1..])
  }

  /** Every element is a decimal digit (the range check on a Python list). */
  predicate AllDigits(xs: seq<int>)
  {
    forall i :: 0 <= i < |xs| ==> 0 <= xs[i] <= 9
  }

  /** A list already checked by `AllDigits`, as a digit list. */
  function AsDigits(xs: seq<int>): (ds: seq<Digit>)
    requires AllDigits(xs)
    ensures ds == xs
  {
    xs
  }

  /** The most significant digit is non-zero, or the list is the single
      digit of zero: the shape `str(n)` produces. */
  predicate IsCanonical(ds: seq<Digit>)
  {
    |ds| >= 1 && (ds[|ds| - 1] != 0 || |ds| == 1)
  }

  /** The digits of `str(n)`, least significant first. */
  function ToDigits(n: nat): (ds: seq<Digit>)
    ensures Value(ds) == n
    ensures IsCanonical(ds)
    ensures n == 0 <==> ds == [0]
  {
    if n < 10 then [n] else [n % 10] + ToDigits(n / 10)
  }

  /** Python's `[0 for _ in range(k)]`: empty when k is not positive. */
  function Zeros(k: int): (zs: seq<Digit>)
    ensures |zs| == if k > 0 then k else 0
    ensures forall i :: 0 <= i < |zs| ==> zs[i] == 0
    ensures Value(zs) == 0
  {
    if k <= 0 then [] else [0] + Zeros(k - 1)
  }

  /** Python's `xs[::-1]`. */
  function Reverse<T>(xs: seq<T>): (r: seq<T>)
    ensures |r| == |xs|
    ensures forall i :: 0 <= i < |xs| ==> r[i] == xs[|xs| - 1 - i]
  {
    if |xs| == 0 then [] else Reverse(xs[1..]) + [xs[0]]
  }

  /** The sum of the digits. */
  function DigitSum(ds: seq<Digit>): (s: nat)
    ensures s <= 9 * |ds|
    ensures s == 0 <==> Value(ds) == 0
  {
    if |ds| == 0 then 0 else ds[0] + DigitSum(ds[1..])
  }

  /** Concatenation shifts the high part by the length of the low part. */
  lemma {:induction false} ValueAppend(xs: seq<Digit>, ys: seq<Digit>)
    ensures Value(xs + ys) == Value(xs) + Shift(Value(ys), |xs|)
    decreases |xs|
  {
    if |xs| > 0 {
      assert (xs + ys)[1..] == xs[1..] + ys;
      ValueAppend(xs[1..], ys);
    } else {
      assert xs + ys == ys;
    }
  }

  /** A list of digits is zero exactly when every digit is zero. */
  lemma {:induction false} ValueZeroIff(ds: seq<Digit>)
    ensures Value(ds) == 0 <==> forall i :: 0 <= i < |ds| ==> ds[i] == 0
    decreases |ds|
  {
    if |ds| > 0 {
      ValueZeroIff(ds[1..]);
      if Value(ds) == 0 {
        forall i | 0 <= i < |ds|
          ensures ds[i] == 0
        {
          if i > 0 {
            assert ds[i] == ds[1..][i - 1];
          }
        }
      }
      if forall i :: 0 <= i < |ds| ==> ds[i] == 0 {
        forall i | 0 <= i < |ds| - 1
          ensures ds[1..][i] == 0
        {
          assert ds[1..][i] == ds[i + 1];
        }
      }
    }
  }

  /** Zero digits on the low end multiply the value by a power of ten. */
  lemma {:induction false} ValueLowZeros(k: nat, ds: seq<Digit>)
    ensures Value(Zeros(k) + ds) == Shift(Value(ds), k)
  {
    ValueAppend(Zeros(k), ds);
  }

  /** Zero digits on the high end leave the value unchanged. */
  lemma {:induction false} ValueHighZeros(ds: seq<Digit>, k: int)
    ensures Value(ds + Zeros(k)) == Value(ds)
  {
    ValueAppend(ds, Zeros(k));
  }

  /** n digits hold a value below 10^n. */
  lemma {:induction false} ValueBelowPow10(ds: seq<Digit>)
    ensures Value(ds) < Pow10(|ds|)
    decreases |ds|
  {
    if |ds| > 0 {
      ValueBelowPow10(ds[1..]);
    }
  }

  /** A non-zero most significant digit puts the value at or above 10^(n-1). */
  lemma {:induction false} ValueAtLeastTop(ds: seq<Digit>)
    requires |ds| > 0 && ds[|ds| - 1] != 0
    ensures Value(ds) >= Pow10(|ds| - 1)
    decreases |ds|
  {
    if |ds| > 1 {
      assert ds[1..][|ds| - 2] == ds[|ds| - 1];
      ValueAtLeastTop(ds[1..]);
    }
  }

  /** Splitting at k: the low k digits and the high rest. */
  lemma {:induction false} ValueSplit(ds: seq<Digit>, k: nat)
    requires k <= |ds|
    ensures Value(ds) == Shift(Value(ds[k..]), k) + Value(ds[..k])
    ensures Value(ds[..k]) < Pow10(k)
  {
    assert ds == ds[..k] + ds[k..];
    ValueAppend(ds[..k], ds[k..]);
    assert |ds[..k]| == k;
    ValueBelowPow10(ds[..k]);
  }

  /** Dropping the k lowest digits is floor division by 10^k. */
  lemma {:induction false} ValueSuffix(ds: seq<Digit>, k: nat)
    requires k <= |ds|
    ensures Value(ds[k..]) == Unshift(Value(ds), k)
  {
    ValueSplit(ds, k);
    UnshiftShift(Value(ds[k..]), Value(ds[..k]), k);
  }

  /** A canonical digit list is the one `str` would print for its value:
      `ToDigits` and `Value` are inverse on canonical lists. */
  lemma {:induction false} CanonicalRoundTrip(ds: seq<Digit>)
    requires IsCanonical(ds)
    ensures ToDigits(Value(ds)) == ds
    decreases |ds|
  {
    if |ds| > 1 {
      var rest := ds[1..];
      assert rest[|rest| - 1] == ds[|ds| - 1];
      ValueAtLeastTop(rest);
      CanonicalRoundTrip(rest);
      var v := Value(ds);
      assert v == ds[0] + 10 * Value(rest);
      assert v / 10 == Value(rest) && v % 10 == ds[0];
      assert ToDigits(v) == [ds[0]] + ToDigits(Value(rest));
    }
  }

  /** `str(n)` has exactly as many digits as the power of ten above n needs. */
  lemma {:induction false} ToDigitsLength(n: nat)
    ensures n < Pow10(|ToDigits(n)|)
    ensures n > 0 ==> Pow10(|ToDigits(n)| - 1) <= n
  {
    ValueBelowPow10(ToDigits(n));
    if n > 0 {
      ValueAtLeastTop(ToDigits(n));
    }
  }
}
