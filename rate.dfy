/** The attendance rate `total > 0 ? Math.round(present / total * 100) : 0`,
    in exact integer arithmetic: `Math.round(x)` is `floor(x + 1/2)`, and
    `floor(100p/t + 1/2) == (200p + t) div 2t`. */
module Rates {

  function Rate(present: nat, total: nat): nat {
    if total == 0 then 0 else (200 * present + total) / (2 * total)
  }

  /** The rate is the percentage rounded half up: `rate - 1/2 <= 100p/t < rate + 1/2`. */
  lemma RateRounds(present: nat, total: nat)
    requires total > 0
    ensures 2 * total * Rate(present, total) <= 200 * present + total < 2 * total * (Rate(present, total) + 1)
  {
    var q := Rate(present, total);
    var n := 200 * present + total;
    var d := 2 * total;
    assert n == d * (n / d) + n % d;
  }

  /** A rate of a part never exceeds 100 and is 0 when nothing counts. */
  lemma RateBounds(present: nat, total: nat)
    requires present <= total
    ensures Rate(present, total) <= 100
    ensures present == 0 ==> Rate(present, total) == 0
    ensures total > 0 && present == total ==> Rate(present, total) == 100
  {
    if total > 0 {
      RateRounds(present, total);
      var r := Rate(present, total);
      var d := 2 * total;
      assert d * r < d * 101 by {
        assert 200 * present <= 200 * total;
      }
      MulCancel(d, r, 101);
      if present == 0 {
        assert d * r < d * 1;
        MulCancel(d, r, 1);
      }
      if present == total {
        assert d * 100 < d * (r + 1) by {
          assert 200 * present + total == d * 100 + total;
        }
        MulCancel(d, 100, r + 1);
      }
    }
  }

  lemma MulCancel(d: nat, x: nat, y: nat)
    requires d > 0 && d * x < d * y
    ensures x < y
  {
    if x >= y {
      MulMonotone(d, y, x);
    }
  }

  lemma MulMonotone(d: nat, x: nat, y: nat)
    requires x <= y
    ensures d * x <= d * y
  {
    assert d * y == d * x + d * (y - x);
  }

  /** More present never lowers the rate. */
  lemma RateMonotone(p1: nat, p2: nat, total: nat)
    requires p1 <= p2
    ensures Rate(p1, total) <= Rate(p2, total)
  {
    if total > 0 {
      RateRounds(p1, total);
      RateRounds(p2, total);
      var d := 2 * total;
      assert d * Rate(p1, total) < d * (Rate(p2, total) + 1) by {
        assert 200 * p1 <= 200 * p2;
      }
      MulCancel(d, Rate(p1, total), Rate(p2, total) + 1);
    }
  }
}
