/** `Math.round(part / total * 100)` for a count `part` out of `total > 0`,
    idealised as exact rational arithmetic rounded half up. */
module Percent {

  /** The rounded percentage: the integer nearest to 100·part/total, halves
      rounding up, i.e. the unique r with r - 1/2 <= 100·part/total < r + 1/2. */
  function RoundedPercent(part: nat, total: nat): (r: nat)
    requires total > 0
    ensures 2 * total * r <= 200 * part + total < 2 * total * (r + 1)
  {
    var n, d := 200 * part + total, 2 * total;
    DivBounds(n, d);
    n / d
  }

  /** Euclidean division brackets its dividend. */
  lemma DivBounds(n: nat, d: nat)
    requires d > 0
    ensures d * (n / d) <= n < d * (n / d + 1)
  {
    assert n == d * (n / d) + n % d;
  }

  /** Any r satisfying the half-up bracket is the rounded percentage. */
  lemma RoundedPercentUnique(part: nat, total: nat, r: nat)
    requires total > 0
    requires 2 * total * r <= 200 * part + total < 2 * total * (r + 1)
    ensures RoundedPercent(part, total) == r
  {
    var q := RoundedPercent(part, total);
    if q < r {
      MulMonotone(2 * total, q + 1, r);
    } else if r < q {
      MulMonotone(2 * total, r + 1, q);
    }
  }

  lemma MulMonotone(k: nat, a: nat, b: nat)
    requires a <= b
    ensures k * a <= k * b
  {
  }

  /** The percentage of nothing is 0. */
  lemma RoundedPercentZero(total: nat)
    requires total > 0
    ensures RoundedPercent(0, total) == 0
  {
    RoundedPercentUnique(0, total, 0);
  }

  /** The percentage of everything is 100. */
  lemma RoundedPercentFull(total: nat)
    requires total > 0
    ensures RoundedPercent(total, total) == 100
  {
    RoundedPercentUnique(total, total, 100);
  }

  /** A part no larger than the whole gives at most 100. */
  lemma RoundedPercentAtMost100(part: nat, total: nat)
    requires 0 < total
    ensures part <= total ==> RoundedPercent(part, total) <= 100
  {
    var r := RoundedPercent(part, total);
    if part <= total && r > 100 {
      MulMonotone(2 * total, 101, r);
    }
  }

  /** Rounding preserves the order of the parts. */
  lemma RoundedPercentMonotone(p1: nat, p2: nat, total: nat)
    requires total > 0 && p1 <= p2
    ensures RoundedPercent(p1, total) <= RoundedPercent(p2, total)
  {
    var r1, r2 := RoundedPercent(p1, total), RoundedPercent(p2, total);
    if r2 < r1 {
      MulMonotone(2 * total, r2 + 1, r1);
    }
  }

  /** The percentage is 0 exactly when the part is below half a percent of
      the whole, so a non-zero count can still show as 0 %. */
  lemma RoundedPercentZeroIff(part: nat, total: nat)
    requires total > 0
    ensures RoundedPercent(part, total) == 0 <==> 200 * part < total
  {
    var r := RoundedPercent(part, total);
    if r > 0 {
      MulMonotone(2 * total, 1, r);
    }
  }

  /** It is 100 exactly when the part is above 199/200 of the whole and below 201/200 of it. */
  lemma RoundedPercentHundredIff(part: nat, total: nat)
    requires total > 0
    ensures RoundedPercent(part, total) == 100 <==> 199 * total <= 200 * part < 201 * total
  {
    var r := RoundedPercent(part, total);
    if r < 100 {
      MulMonotone(2 * total, r + 1, 100);
    } else if r > 100 {
      MulMonotone(2 * total, 101, r);
    }
  }
}
