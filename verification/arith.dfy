/** Integer facts shared by the decimal model. Scaling by powers of ten is
    written as the recursive `Shift` (v·10^k) and `Unshift` (⌊v/10^k⌋), one
    factor of ten per step, and products and squares as the recursive `Mul`
    and `Sq`; that they agree with `*` is proved here once, so that the rest
    of the model reasons about decimal positions and products without
    general multiplication. On the
    non-negative operands used throughout, Dafny's `/` agrees with Python's
    floor division. */
module Arith {

  /** v·10^k. */
  function Shift(v: nat, k: nat): (r: nat)
    ensures r >= v
    ensures k > 0 ==> r >= 10 * v
    ensures r == 0 <==> v == 0
  {
    if k <= 0 then v else 10 * Shift(v, k - 1)
  }

  /** 10^k. */
  function Pow10(k: nat): (p: nat)
    ensures p >= 1
  {
    Shift(1, k)
  }

  /** ⌊v / 10^k⌋: v with its k lowest decimal digits dropped. */
  function Unshift(v: nat, k: nat): (r: nat)
    ensures r <= v
  {
    if k <= 0 then v else Unshift(v / 10, k - 1)
  }

  /** a·b, built up as b additions of a. */
  function Mul(a: nat, b: nat): nat
  {
    if b <= 0 then 0 else Mul(a, b - 1) + a
  }

  /** n², built up as the sum of the first n odd numbers. */
  function Sq(n: nat): nat
  {
    if n <= 0 then 0 else Sq(n - 1) + 2 * n - 1
  }

  // ---------------------------------------------------------------------
  // Shift and Unshift

  lemma {:induction false} ShiftIsProduct(v: nat, k: nat)
    ensures Shift(v, k) == v * Pow10(k)
    decreases k
  {
    if k > 0 {
      ShiftIsProduct(v, k - 1);
      var p := Pow10(k - 1);
      assert Pow10(k) == 10 * p;
      assert v * (10 * p) == 10 * (v * p);
    }
  }

  /** Shifting by a and then by b is shifting by a + b. */
  lemma {:induction false} ShiftAdd(v: nat, a: nat, b: nat)
    ensures Shift(Shift(v, a), b) == Shift(v, a + b)
    decreases b
  {
    if b > 0 {
      ShiftAdd(v, a, b - 1);
    }
  }

  /** Shifting preserves and reflects order. */
  lemma {:induction false} ShiftLe(u: nat, v: nat, k: nat)
    ensures u <= v <==> Shift(u, k) <= Shift(v, k)
  {
    if k > 0 {
      ShiftLe(u, v, k - 1);
    }
  }

  lemma {:induction false} Pow10Monotone(a: nat, b: nat)
    requires a <= b
    ensures Pow10(a) <= Pow10(b)
  {
    ShiftAdd(1, a, b - a);
  }

  /** Division by 10^k recovers the quotient q from q·10^k + r, r < 10^k. */
  lemma {:induction false} UnshiftShift(q: nat, r: nat, k: nat)
    requires r < Pow10(k)
    ensures Unshift(Shift(q, k) + r, k) == q
  {
    if k > 0 {
      var s := Shift(q, k - 1);
      assert (10 * s + r) / 10 == s + r / 10;
      UnshiftShift(q, r / 10, k - 1);
    }
  }

  /** A shift by j cancels against the first j digits dropped. */
  lemma {:induction false} UnshiftShiftCancel(v: nat, j: nat, m: nat)
    ensures Unshift(Shift(v, j), j + m) == Unshift(v, m)
  {
    if j > 0 {
      UnshiftShiftCancel(v, j - 1, m);
    }
  }

  /** A floor quotient against a bound: ⌊v / 10^k⌋ < x exactly when v < x·10^k. */
  lemma {:induction false} UnshiftLessIff(v: nat, k: nat, x: nat)
    ensures Unshift(v, k) < x <==> v < Shift(x, k)
  {
    if k > 0 {
      UnshiftLessIff(v / 10, k - 1, x);
    }
  }

  // ---------------------------------------------------------------------
  // Squares

  lemma {:induction false} SqIsProduct(n: nat)
    ensures Sq(n) == n * n
  {
    if n > 0 {
      SqIsProduct(n - 1);
      assert (n - 1) * (n - 1) == n * n - 2 * n + 1;
    }
  }

  lemma {:induction false} SqSucc(n: nat)
    ensures Sq(n + 1) == Sq(n) + 2 * n + 1
  {
  }

  lemma {:induction false} SqMonotone(a: nat, b: nat)
    requires a <= b
    ensures Sq(a) <= Sq(b)
    decreases b
  {
    if a < b {
      SqMonotone(a, b - 1);
    }
  }

  /** Scaling by ten scales the square by a hundred. */
  lemma {:induction false} SqTimesTen(a: nat)
    ensures Sq(10 * a) == 100 * Sq(a)
  {
    SqIsProduct(10 * a);
    SqIsProduct(a);
    assert (10 * a) * (10 * a) == 100 * (a * a);
  }

  /** Squaring a shifted number shifts the square twice as far. */
  lemma {:induction false} SqShift(v: nat, k: nat)
    ensures Sq(Shift(v, k)) == Shift(Sq(v), 2 * k)
  {
    if k > 0 {
      var s := Shift(v, k - 1);
      SqShift(v, k - 1);
      SqTimesTen(s);
      assert Shift(v, k) == 10 * s;
      assert Shift(Sq(v), 2 * k) == 10 * Shift(Sq(v), 2 * k - 1);
      assert Shift(Sq(v), 2 * k - 1) == 10 * Shift(Sq(v), 2 * (k - 1));
    }
  }

  /** A number of at least 10^k has a square of at least 10^(2k). */
  lemma {:induction false} SquareAtLeastPow10(v: nat, k: nat)
    requires v >= Pow10(k)
    ensures Sq(v) >= Pow10(2 * k)
  {
    SqMonotone(Pow10(k), v);
    SqShift(1, k);
  }

  // ---------------------------------------------------------------------
  // Products

  lemma {:induction false} MulIsProduct(a: nat, b: nat)
    ensures Mul(a, b) == a * b
  {
    if b > 0 {
      MulIsProduct(a, b - 1);
      assert a * b == a * (b - 1) + a;
    }
  }

  /** Squaring is multiplying a number by itself. */
  lemma {:induction false} SqIsMul(n: nat)
    ensures Sq(n) == Mul(n, n)
  {
    SqIsProduct(n);
    MulIsProduct(n, n);
  }

  /** Multiplying by zero gives zero and by one gives the other factor. */
  lemma {:induction false} MulByZeroOrOne(d: nat, v: nat)
    requires d <= 1
    ensures Mul(d, v) == if d == 0 then 0 else v
  {
    if v > 0 {
      MulByZeroOrOne(d, v - 1);
    }
  }

  /** A product distributes over a number's low digit and the rest. */
  lemma {:induction false} MulSplit(d: nat, v0: nat, vr: nat)
    ensures Mul(d, v0 + 10 * vr) == Mul(d, v0) + 10 * Mul(d, vr)
  {
    MulIsProduct(d, v0 + 10 * vr);
    MulIsProduct(d, v0);
    MulIsProduct(d, vr);
    assert d * (v0 + 10 * vr) == d * v0 + 10 * (d * vr);
  }

  // ---------------------------------------------------------------------
  // One round of digit-by-digit multiplication

  /** A product d·(v0 + 10·vr) + carry splits into its low digit and the
      rest. */
  lemma {:induction false} MulStep(d: nat, v0: nat, vr: nat, carry: nat)
    ensures Mul(d, v0 + 10 * vr) + carry
            == (Mul(d, v0) + carry) % 10 + 10 * (Mul(d, vr) + (Mul(d, v0) + carry) / 10)
  {
    MulSplit(d, v0, vr);
  }

  /** The carry out of the low digit: (d·(v0 + 10·vr) + carry) / 10. */
  lemma {:induction false} CarryDivTen(d: nat, v0: nat, vr: nat, carry: nat)
    ensures (Mul(d, v0 + 10 * vr) + carry) / 10 == Mul(d, vr) + (Mul(d, v0) + carry) / 10
  {
    MulSplit(d, v0, vr);
  }
}
