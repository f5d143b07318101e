/** Rounding of real numbers to binary64, to nearest with ties to even, as Python's floats
    compute. Exponents are not bounded above: overflow to infinity is not modelled. */
module Binary64 {
  const SCALE: real := 4503599627370496.0
  const HALF_UNIT: real := 1.0 / 9007199254740992.0
  const LOWEST_EXPONENT: nat := 1022

  /** The integer nearest to `q`, the even one of two equally near. */
  function Nearest(q: real): (n: int)
    ensures n as real - 0.5 <= q <= n as real + 0.5
  {
    var f := q.Floor;
    var part := q - f as real;
    if part < 0.5 || (part == 0.5 && f % 2 == 0) then f else f + 1
  }

  lemma NearestIsMonotone(q: real, p: real)
    requires q <= p
    ensures Nearest(q) <= Nearest(p)
  {
    assert q.Floor <= p.Floor;
  }

  lemma NearestFixesIntegers(n: int)
    ensures Nearest(n as real) == n
  {}

  /** Rounding in the binade from 1 to 2, whose floats are 2^-52 apart. */
  function RoundMantissa(x: real): real {
    Nearest(x * SCALE) as real / SCALE
  }

  /** Rounding below 2: smaller binades have proportionally finer floats, down to the
      subnormal spacing after `n` halvings. */
  function RoundBelowTwo(x: real, n: nat): real
    decreases n
  {
    if x >= 1.0 || n == 0 then RoundMantissa(x) else RoundBelowTwo(2.0 * x, n - 1) / 2.0
  }

  function RoundPositive(x: real): real
    requires x >= 0.0
    decreases x
  {
    if x < 2.0 then RoundBelowTwo(x, LOWEST_EXPONENT) else 2.0 * RoundPositive(x / 2.0)
  }

  function Round(x: real): real {
    if x >= 0.0 then RoundPositive(x) else -RoundPositive(-x)
  }

  // ---------- one binade ----------

  lemma MantissaIsMonotone(x: real, y: real)
    requires x <= y
    ensures RoundMantissa(x) <= RoundMantissa(y)
  {
    assert x * SCALE <= y * SCALE;
    NearestIsMonotone(x * SCALE, y * SCALE);
  }

  lemma MantissaIsIdempotent(x: real)
    ensures RoundMantissa(RoundMantissa(x)) == RoundMantissa(x)
  {
    var n := Nearest(x * SCALE);
    assert n as real / SCALE * SCALE == n as real;
    NearestFixesIntegers(n);
  }

  lemma MantissaFixesSmallIntegers()
    ensures RoundMantissa(0.0) == 0.0 && RoundMantissa(1.0) == 1.0 && RoundMantissa(2.0) == 2.0
  {
    NearestFixesIntegers(0);
    NearestFixesIntegers(4503599627370496);
    NearestFixesIntegers(9007199254740992);
  }

  lemma MantissaIsNear(x: real)
    ensures x - HALF_UNIT <= RoundMantissa(x) <= x + HALF_UNIT
  {
    var n := Nearest(x * SCALE);
    assert n as real - 0.5 <= x * SCALE <= n as real + 0.5;
  }

  // ---------- below two ----------

  lemma {:induction false} BelowTwoStaysInBinade(x: real, n: nat)
    requires 0.0 <= x < 2.0
    ensures 0.0 <= RoundBelowTwo(x, n) <= 2.0
    ensures x <= 1.0 ==> RoundBelowTwo(x, n) <= 1.0
    ensures x >= 1.0 ==> RoundBelowTwo(x, n) >= 1.0
    decreases n
  {
    MantissaFixesSmallIntegers();
    if x >= 1.0 || n == 0 {
      MantissaIsMonotone(0.0, x);
      MantissaIsMonotone(x, 2.0);
      if x <= 1.0 { MantissaIsMonotone(x, 1.0); }
      if x >= 1.0 { MantissaIsMonotone(1.0, x); }
    } else {
      BelowTwoStaysInBinade(2.0 * x, n - 1);
    }
  }

  lemma {:induction false} BelowTwoIsMonotone(x: real, y: real, n: nat)
    requires 0.0 <= x <= y < 2.0
    ensures RoundBelowTwo(x, n) <= RoundBelowTwo(y, n)
    decreases n
  {
    if x >= 1.0 || n == 0 {
      MantissaIsMonotone(x, y);
    } else if y < 1.0 {
      BelowTwoIsMonotone(2.0 * x, 2.0 * y, n - 1);
    } else {
      BelowTwoStaysInBinade(x, n);
      BelowTwoStaysInBinade(y, n);
    }
  }

  lemma {:induction false} BelowTwoIsIdempotent(x: real, n: nat)
    requires 0.0 <= x < 2.0
    ensures RoundBelowTwo(RoundBelowTwo(x, n), n) == RoundBelowTwo(x, n)
    decreases n
  {
    var r := RoundBelowTwo(x, n);
    MantissaFixesSmallIntegers();
    BelowTwoStaysInBinade(x, n);
    if x >= 1.0 || n == 0 {
      MantissaIsIdempotent(x);
    } else if r < 1.0 {
      BelowTwoIsIdempotent(2.0 * x, n - 1);
    }
  }

  lemma {:induction false} BelowTwoIsNear(x: real, n: nat)
    requires 0.0 <= x < 2.0
    ensures x - HALF_UNIT <= RoundBelowTwo(x, n) <= x + HALF_UNIT
    decreases n
  {
    if x >= 1.0 || n == 0 {
      MantissaIsNear(x);
    } else {
      BelowTwoIsNear(2.0 * x, n - 1);
    }
  }

  // ---------- every number ----------

  lemma {:induction false} PositiveIsMonotone(x: real, y: real)
    requires 0.0 <= x <= y
    ensures 0.0 <= RoundPositive(x) <= RoundPositive(y)
    ensures x < 2.0 ==> RoundPositive(x) <= 2.0
    ensures y >= 1.0 ==> RoundPositive(y) >= 1.0
    decreases y
  {
    if y < 2.0 {
      BelowTwoIsMonotone(x, y, LOWEST_EXPONENT);
      BelowTwoStaysInBinade(x, LOWEST_EXPONENT);
      BelowTwoStaysInBinade(y, LOWEST_EXPONENT);
    } else if x < 2.0 {
      BelowTwoStaysInBinade(x, LOWEST_EXPONENT);
      PositiveIsMonotone(y / 2.0, y / 2.0);
    } else {
      PositiveIsMonotone(x / 2.0, y / 2.0);
    }
  }

  lemma RoundsTwo()
    ensures RoundPositive(0.0) == 0.0 && RoundPositive(1.0) == 1.0 && RoundPositive(2.0) == 2.0
  {
    MantissaFixesSmallIntegers();
    BelowTwoIsIdempotent(0.0, LOWEST_EXPONENT);
    ZeroStaysZero(LOWEST_EXPONENT);
    assert RoundPositive(2.0) == 2.0 * RoundPositive(1.0);
  }

  lemma {:induction false} ZeroStaysZero(n: nat)
    ensures RoundBelowTwo(0.0, n) == 0.0
  {
    MantissaFixesSmallIntegers();
    if n > 0 {
      ZeroStaysZero(n - 1);
    }
  }

  lemma {:induction false} PositiveIsIdempotent(x: real)
    requires x >= 0.0
    ensures RoundPositive(x) >= 0.0 && RoundPositive(RoundPositive(x)) == RoundPositive(x)
    decreases x
  {
    PositiveIsMonotone(x, x);
    if x < 2.0 {
      BelowTwoIsIdempotent(x, LOWEST_EXPONENT);
      RoundsTwo();
    } else {
      PositiveIsIdempotent(x / 2.0);
      PositiveIsMonotone(x / 2.0, x / 2.0);
    }
  }

  predicate KeepsOrder(fl: real -> real, x: real, y: real) {
    x <= y ==> fl(x) <= fl(y)
  }

  predicate RoundsOnce(fl: real -> real, x: real) {
    fl(fl(x)) == fl(x)
  }

  predicate IsNear(fl: real -> real, x: real, unit: real) {
    -2.0 <= x <= 2.0 ==> x - unit <= fl(x) <= x + unit
  }

  /** What the proofs about rounded arithmetic use of a rounding function: it is monotone
      and idempotent, fixes 0, 1 and 2, and errs by at most `unit` between -2 and 2. */
  ghost predicate IsRounding(fl: real -> real, unit: real) {
    && 0.0 <= unit <= 0.000001
    && (forall x, y :: KeepsOrder(fl, x, y))
    && (forall x :: RoundsOnce(fl, x))
    && fl(0.0) == 0.0 && fl(1.0) == 1.0 && fl(2.0) == 2.0
    && (forall x :: IsNear(fl, x, unit))
  }

  lemma RoundIsMonotone(x: real, y: real)
    requires x <= y
    ensures Round(x) <= Round(y)
  {
    if x >= 0.0 {
      PositiveIsMonotone(x, y);
    } else if y >= 0.0 {
      PositiveIsMonotone(-x, -x);
      PositiveIsMonotone(y, y);
    } else {
      PositiveIsMonotone(-y, -x);
    }
  }

  lemma RoundIsIdempotent(x: real)
    ensures Round(Round(x)) == Round(x)
  {
    if x >= 0.0 {
      PositiveIsIdempotent(x);
    } else {
      PositiveIsIdempotent(-x);
      RoundsTwo();
    }
  }

  lemma RoundIsNear(x: real)
    requires -2.0 <= x <= 2.0
    ensures x - HALF_UNIT <= Round(x) <= x + HALF_UNIT
  {
    RoundsTwo();
    if 0.0 <= x < 2.0 {
      BelowTwoIsNear(x, LOWEST_EXPONENT);
    } else if -2.0 < x < 0.0 {
      BelowTwoIsNear(-x, LOWEST_EXPONENT);
    }
  }

  /** Binary64 rounding is such a function, with half a unit in the last place of 1. */
  lemma RoundIsRounding()
    ensures IsRounding(Round, HALF_UNIT)
  {
    RoundsTwo();
    forall x, y ensures KeepsOrder(Round, x, y) {
      if x <= y {
        RoundIsMonotone(x, y);
      }
    }
    forall x ensures RoundsOnce(Round, x) {
      RoundIsIdempotent(x);
    }
    forall x ensures IsNear(Round, x, HALF_UNIT) {
      if -2.0 <= x <= 2.0 {
        RoundIsNear(x);
      }
    }
  }

  /** So is exact arithmetic, with no error at all. */
  lemma ExactIsRounding()
    ensures IsRounding(Exact, 0.0)
  {}

  function Exact(x: real): real {
    x
  }

  // ---------- rounding a given number ----------

  function Doubled(x: real, k: nat): real
    decreases k
  {
    if k == 0 then x else Doubled(2.0 * x, k - 1)
  }

  function Halved(x: real, k: nat): real
    decreases k
  {
    if k == 0 then x else Halved(x, k - 1) / 2.0
  }

  lemma {:induction false} DoubledGrows(x: real, k: nat)
    requires x >= 0.0
    ensures Doubled(x, k) >= x && (k > 0 ==> Doubled(x, k) >= 2.0 * x)
    decreases k
  {
    if k > 0 {
      DoubledGrows(2.0 * x, k - 1);
    }
  }

  lemma {:induction false} BelowTwoInBinade(x: real, n: nat, k: nat)
    requires k <= n && x >= 0.0 && 1.0 <= Doubled(x, k) < 2.0
    ensures RoundBelowTwo(x, n) == Halved(RoundMantissa(Doubled(x, k)), k)
    decreases k
  {
    if k > 0 {
      DoubledGrows(x, k);
      BelowTwoInBinade(2.0 * x, n - 1, k - 1);
    }
  }

  predicate NearestTo(q: real, m: int) {
    m as real - 0.5 < q < m as real + 0.5 || (m % 2 == 0 && m as real - 0.5 <= q <= m as real + 0.5)
  }

  lemma NearestExactly(q: real, m: int)
    requires NearestTo(q, m)
    ensures Nearest(q) == m
  {}

  /** A number of the binade `k` below 1 rounds to the number of units nearest to it. */
  lemma RoundsTo(x: real, k: nat, m: int)
    requires k <= LOWEST_EXPONENT && 0.0 <= x < 2.0 && 1.0 <= Doubled(x, k) < 2.0
    requires NearestTo(Doubled(x, k) * SCALE, m)
    ensures Round(x) == Halved(m as real / SCALE, k)
  {
    BelowTwoInBinade(x, LOWEST_EXPONENT, k);
    NearestExactly(Doubled(x, k) * SCALE, m);
  }

  lemma SmallScalings(x: real)
    ensures Doubled(x, 1) == 2.0 * x && Halved(x, 1) == x / 2.0
    ensures Doubled(x, 2) == 4.0 * x && Halved(x, 2) == x / 4.0
    ensures Doubled(x, 5) == 32.0 * x && Halved(x, 5) == x / 32.0
    ensures Doubled(x, 6) == 64.0 * x && Halved(x, 6) == x / 64.0
  {
    assert Doubled(8.0 * x, 3) == Doubled(32.0 * x, 1);
    assert Doubled(x, 5) == Doubled(4.0 * x, 3) == Doubled(16.0 * x, 1);
    assert Doubled(x, 6) == Doubled(2.0 * x, 5) == Doubled(8.0 * x, 3);
    assert Halved(x, 4) == Halved(x, 2) / 4.0;
    assert Halved(x, 6) == Halved(x, 4) / 4.0;
  }

  // ---------- numbers that are floats already ----------

  lemma {:induction false} BelowTwoFixesFloats(m: nat, n: nat)
    requires m as real / SCALE < 2.0
    ensures RoundBelowTwo(m as real / SCALE, n) == m as real / SCALE
    decreases n
  {
    var x := m as real / SCALE;
    if x >= 1.0 || n == 0 {
      assert x * SCALE == m as real;
      NearestFixesIntegers(m);
    } else {
      assert 2.0 * x == (2 * m) as real / SCALE;
      BelowTwoFixesFloats(2 * m, n - 1);
    }
  }

  lemma {:induction false} PositiveFixesFloats(m: nat, j: nat)
    requires m as real / SCALE < 2.0
    ensures Doubled(m as real / SCALE, j) >= 0.0
    ensures RoundPositive(Doubled(m as real / SCALE, j)) == Doubled(m as real / SCALE, j)
    decreases j
  {
    var x := Doubled(m as real / SCALE, j);
    DoubledGrows(m as real / SCALE, j);
    if x < 2.0 {
      var k := DoubledFloat(m, j);
      BelowTwoFixesFloats(k, LOWEST_EXPONENT);
    } else {
      DoubledTwice(m as real / SCALE, j - 1);
      PositiveFixesFloats(m, j - 1);
    }
  }

  lemma {:induction false} DoubledFloat(m: nat, j: nat) returns (k: nat)
    ensures Doubled(m as real / SCALE, j) == k as real / SCALE
    decreases j
  {
    if j == 0 {
      k := m;
    } else {
      assert 2.0 * (m as real / SCALE) == (2 * m) as real / SCALE;
      k := DoubledFloat(2 * m, j - 1);
    }
  }

  lemma {:induction false} DoubledTwice(x: real, j: nat)
    ensures Doubled(x, j + 1) == 2.0 * Doubled(x, j)
    decreases j
  {
    if j > 0 {
      DoubledTwice(2.0 * x, j - 1);
    }
  }

  const STEP: real := 1.0 / 1099511627776.0

  /** Integers up to 127, and the numbers one step below them, are floats. */
  lemma SmallFloats(k: nat)
    requires k <= 127
    ensures Round(k as real) == k as real
    ensures k >= 1 ==> Round(k as real - STEP) == k as real - STEP
  {
    FixedAtSix(k * 70368744177664);
    if k >= 1 {
      FixedAtSix(k * 70368744177664 - 64);
    }
  }

  lemma FixedAtSix(m: nat)
    requires m < 9007199254740992
    ensures Round(m as real / 70368744177664.0) == m as real / 70368744177664.0
  {
    var x := m as real / SCALE;
    SmallScalings(x);
    PositiveFixesFloats(m, 6);
    assert 64.0 * x == m as real / 70368744177664.0;
  }
}
