/** Progress percentages as the code computes them (apps/applications/services.py,
    `int((verified / total) * 100)`): division and multiplication are rounded to binary64
    and the result is truncated. */
module Percentages {
  import opened Binary64

  function Ratio(verified: nat, total: nat): real
    requires total > 0
  {
    verified as real / total as real
  }

  function Percent(verified: nat, total: nat): nat
    requires total > 0
  {
    NotNegative(Ratio(verified, total));
    NotNegative(Round(Ratio(verified, total)) * 100.0);
    Round(Round(Ratio(verified, total)) * 100.0).Floor
  }

  lemma NotNegative(x: real)
    requires x >= 0.0
    ensures Round(x) >= 0.0
  {
    PositiveIsMonotone(x, x);
  }

  lemma NothingVerified(total: nat)
    requires total > 0
    ensures Percent(0, total) == 0
  {
    RoundsTwo();
    assert Ratio(0, total) == 0.0;
  }

  /** Longer lists would bring ratios within a rounding error of 1 and of 1.01. */
  const LIMIT: nat := 549755813888

  lemma RatioAbove(verified: nat, total: nat, low: real)
    requires total > 0 && low * total as real <= verified as real
    ensures low <= Ratio(verified, total)
  {
    assert Ratio(verified, total) * total as real == verified as real;
  }

  lemma RatioBelow(verified: nat, total: nat, high: real)
    requires total > 0 && verified as real <= high * total as real
    ensures 0.0 <= Ratio(verified, total) <= high
  {
    assert Ratio(verified, total) * total as real == verified as real;
  }

  /** A ratio short of `k` per cent is short of it by at least `2 * STEP / 100`. */
  lemma ShortOf(verified: nat, total: nat, k: nat)
    requires 0 < total <= LIMIT && k >= 1 && 100 * verified < k * total
    ensures 0.0 <= Ratio(verified, total) <= (k as real - 2.0 * STEP) / 100.0
  {
    var high := (k as real - 2.0 * STEP) / 100.0;
    assert high * total as real == ((k * total) as real - 2.0 * STEP * total as real) / 100.0;
    assert 2.0 * STEP * total as real <= 1.0;
    RatioBelow(verified, total, high);
  }

  lemma StaysBelow(verified: nat, total: nat, k: nat)
    requires 0 < total <= LIMIT && 1 <= k <= 101
    requires 100 * verified < k * total
    ensures Percent(verified, total) < k
  {
    ShortOf(verified, total, k);
    var q := Ratio(verified, total);
    RoundIsNear(q);
    RoundIsMonotone(Round(q) * 100.0, k as real - STEP);
    SmallFloats(k);
  }

  lemma ReachesHundred(verified: nat, total: nat)
    requires 0 < total <= verified
    ensures Percent(verified, total) >= 100
  {
    RatioAbove(verified, total, 1.0);
    var q := Ratio(verified, total);
    RoundsTwo();
    RoundIsMonotone(1.0, q);
    RoundIsMonotone(100.0, Round(q) * 100.0);
    SmallFloats(100);
  }

  lemma PassesHundred(verified: nat, total: nat)
    requires 0 < total && 100 * verified >= 101 * total
    ensures Percent(verified, total) >= 101
  {
    assert 1.01 * total as real <= verified as real;
    RatioAbove(verified, total, 1.01);
    var q := Ratio(verified, total);
    RoundIsMonotone(1.01, q);
    var r := Round(q);
    OnePercentOver();
    assert r * 100.0 >= 101.0;
    RoundIsMonotone(101.0, r * 100.0);
    SmallFloats(101);
  }

  lemma OnePercentOver()
    ensures Round(1.01) * 100.0 >= 101.0
  {
    RoundsTo(1.01, 0, 4548635623644201);
  }

  /** Rounding never moves the two thresholds that decide completion. */
  lemma ThresholdsAreExact(verified: nat, total: nat)
    requires 0 < total <= LIMIT
    ensures Percent(verified, total) >= 100 <==> verified >= total
    ensures Percent(verified, total) > 100 <==> 100 * (verified - total) >= total
  {
    if verified >= total {
      ReachesHundred(verified, total);
    } else {
      StaysBelow(verified, total, 100);
    }
    if 100 * verified >= 101 * total {
      PassesHundred(verified, total);
    } else {
      StaysBelow(verified, total, 101);
    }
  }

  lemma AtLeast(verified: nat, total: nat, k: nat)
    requires total > 0 && verified <= total && 1 <= k <= 100
    requires k * total <= 100 * verified
    ensures Percent(verified, total) >= k - 1
  {
    var low := k as real / 100.0;
    assert low * total as real == (k * total) as real / 100.0;
    RatioAbove(verified, total, low);
    RatioBelow(verified, total, 1.0);
    var q := Ratio(verified, total);
    RoundIsNear(q);
    var r := Round(q);
    SmallFloats(k);
    assert r * 100.0 >= k as real - STEP;
    RoundIsMonotone(k as real - STEP, r * 100.0);
  }

  /** Up to 100 the percentage is the floor of the exact one, or one less. */
  lemma FloorOrOneLess(verified: nat, total: nat)
    requires 0 < total <= LIMIT && verified <= total
    ensures 100 * verified / total - 1 <= Percent(verified, total) <= 100 * verified / total
  {
    var floor := 100 * verified / total;
    FloorIs(verified, total);
    StaysBelow(verified, total, floor + 1);
    if floor >= 1 {
      AtLeast(verified, total, floor);
    }
  }

  lemma FloorIs(verified: nat, total: nat)
    requires total > 0 && verified <= total
    ensures var floor := 100 * verified / total;
      floor <= 100 && floor * total <= 100 * verified < (floor + 1) * total
  {
    var a := 100 * verified;
    var floor, rest := a / total, a % total;
    assert a == floor * total + rest && 0 <= rest < total;
    assert (floor + 1) * total == floor * total + total;
    assert (floor - 100) * total == floor * total - 100 * total;
    NotPositive(floor - 100, total);
  }

  lemma NotPositive(a: int, t: nat)
    requires t > 0 && a * t <= 0
    ensures a <= 0
  {}

  /** 29 of 50 is 58 per cent; the code says 57. */
  lemma TwentyNineOfFifty()
    ensures Percent(29, 50) == 57 && 100 * 29 / 50 == 58
  {
    SmallScalings(0.58);
    RoundsTo(0.58, 1, 5224175567749775);
    SmallScalings(5224175567749775.0 / SCALE);
    assert Ratio(29, 50) == 0.58;
    var x := 5224175567749775.0 / 9007199254740992.0 * 100.0;
    RoundsTo(x / 32.0, 0, 8162774324609023);
    RoundInLargerBinade(x / 32.0);
  }

  lemma RoundInLargerBinade(y: real)
    requires 1.0 <= y < 2.0
    ensures Round(32.0 * y) == 32.0 * Round(y)
  {
    assert RoundPositive(32.0 * y) == 2.0 * RoundPositive(16.0 * y);
    assert RoundPositive(16.0 * y) == 2.0 * RoundPositive(8.0 * y);
    assert RoundPositive(8.0 * y) == 2.0 * RoundPositive(4.0 * y);
    assert RoundPositive(4.0 * y) == 2.0 * RoundPositive(2.0 * y);
    assert RoundPositive(2.0 * y) == 2.0 * RoundPositive(y);
  }

  // ---------- what completion needs of a percentage ----------

  type Percentage = (nat, nat) -> nat

  predicate IsPercentAt(percent: Percentage, verified: nat, total: nat) {
    0 < total ==>
      && (verified == 0 ==> percent(verified, total) == 0)
      && (total <= LIMIT ==>
           && (percent(verified, total) >= 100 <==> verified >= total)
           && (percent(verified, total) > 100 <==> 100 * (verified - total) >= total)
           && (verified <= total ==>
                100 * verified / total - 1 <= percent(verified, total) <= 100 * verified / total <= 100))
  }

  /** A percentage that reaches and passes 100 exactly when the exact one does, and up to
      there is its floor or one less. */
  ghost predicate IsPercentage(percent: Percentage) {
    forall v, t :: IsPercentAt(percent, v, t)
  }

  /** The percentage of the code. */
  function CodePercent(verified: nat, total: nat): nat {
    if total == 0 then 0 else Percent(verified, total)
  }

  /** The code's percentage is such a one. */
  lemma CodePercentIsPercentage()
    ensures IsPercentage(CodePercent)
  {
    forall v: nat, t: nat ensures IsPercentAt(CodePercent, v, t) {
      if 0 < t {
        if v == 0 {
          NothingVerified(t);
        }
        if t <= LIMIT {
          ThresholdsAreExact(v, t);
          if v <= t {
            FloorOrOneLess(v, t);
            FloorIs(v, t);
          }
        }
      }
    }
  }
}
