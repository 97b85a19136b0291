/** Facts about floor division. Everything about rounding in this project goes through `FloorGalois`. */
module Arithmetic {
  import opened Common

  lemma MulMono(x: int, y: int, m: int)
    requires x <= y && 0 <= m
    ensures x * m <= y * m && m * x <= m * y
  {
  }

  lemma MulCancel(x: int, y: int, m: int)
    requires 0 < m && x * m <= y * m
    ensures x <= y
  {
  }

  lemma OneMore(x: int, n: int)
    ensures x * (n + 1) == x * n + x
  {
  }

  /** `t <= floor(n / d)` exactly when `t * d <= n`. */
  lemma FloorGalois(n: int, d: int, t: int)
    requires 0 < d
    ensures t <= n / d <==> t * d <= n
  {
    var q := n / d;
    assert n == d * q + n % d;
    if t <= q {
      MulMono(t, q, d);
    } else {
      MulMono(q + 1, t, d);
    }
  }

  /** The two-sided bound that defines the floor. */
  lemma FloorBounds(n: int, d: int)
    requires 0 < d
    ensures (n / d) * d <= n < (n / d) * d + d
  {
  }

  lemma DivMono(x: int, y: int, d: int)
    requires 0 < d && x <= y
    ensures x / d <= y / d
  {
    FloorGalois(y, d, x / d);
  }

  /** Comparing two fractions by cross multiplication orders their floors. */
  lemma FractionMono(n1: int, d1: int, n2: int, d2: int)
    requires 0 < d1 && 0 < d2 && n1 * d2 <= n2 * d1
    ensures n1 / d1 <= n2 / d2
  {
    var t := n1 / d1;
    if t * d2 > n2 {
      assert false;
    }
    FloorGalois(n2, d2, t);
  }

  /** Division with remainder is unique. */
  lemma DivUnique(n: int, d: int, q: int, r: int)
    requires 0 < d && n == d * q + r && 0 <= r < d
    ensures n / d == q && n % d == r
  {
    FloorGalois(n, d, q);
    FloorGalois(n, d, q + 1);
  }

  lemma AfterFeeMono(x: int, y: int, feeBps: int)
    requires 0 <= x <= y
    ensures feeBps <= BPS ==> 0 <= AfterFee(x, feeBps) <= AfterFee(y, feeBps)
    ensures feeBps > BPS ==> AfterFee(x, feeBps) <= 0 && AfterFee(y, feeBps) <= 0
  {
    var m := BPS - feeBps;
    if m >= 0 {
      MulMono(x, y, m);
    }
  }

  /** A fee between 0 and 100% leaves between nothing and everything. */
  lemma AfterFeeRange(x: int, feeBps: int)
    requires 0 <= x && 0 <= feeBps <= BPS
    ensures 0 <= AfterFee(x, feeBps) <= x
  {
    MulMono(0, x, BPS - feeBps);
    MulMono(BPS - feeBps, BPS, x);
    FloorGalois(x * (BPS - feeBps), BPS, x + 1);
  }

  /** What a fee in basis points leaves: every whole unit that `10_000 - feeBps` ten-thousandths of the input hold. */
  lemma FeeLeaves(x: int, feeBps: int, a: int)
    requires 0 <= x && feeBps <= 10_000
    ensures a <= AfterFee(x, feeBps) <==> a * 10_000 <= x * (10_000 - feeBps)
  {
    MulMono(0, x, 10_000 - feeBps);
    FloorGalois(x * (10_000 - feeBps), 10_000, a);
  }

  /** So what the fee takes is its rate of the input, rounded up to a whole unit. */
  lemma FeeTakesItsRate(x: int, feeBps: int)
    requires 0 <= x && feeBps <= 10_000
    ensures x * feeBps <= (x - AfterFee(x, feeBps)) * 10_000 < x * feeBps + 10_000
  {
    var a := AfterFee(x, feeBps);
    FeeLeaves(x, feeBps, a);
    FeeLeaves(x, feeBps, a + 1);
    assert x * (10_000 - feeBps) == x * 10_000 - x * feeBps;
  }

  /** The planner's minimum is the largest whole amount within the slippage. */
  lemma MinimumWithinSlippage(quoted: int, slippageBps: int, m: int)
    requires 0 <= quoted && slippageBps <= 10_000
    ensures m <= MinAmountOut(quoted, slippageBps) <==> m * 10_000 <= quoted * (10_000 - slippageBps)
  {
    MulMono(0, quoted, 10_000 - slippageBps);
    FloorGalois(quoted * (10_000 - slippageBps), 10_000, m);
  }

  // ---------------------------------------------------------------- real division

  /** The floor of a fraction, against the fraction itself. */
  lemma RealFloor(n: int, d: int)
    requires 0 < d
    ensures (n / d) as real <= n as real / d as real < (n / d) as real + 1.0
  {
    var q, x := n / d, n as real / d as real;
    FloorBounds(n, d);
    assert x * d as real == n as real;
    assert (q * d) as real == q as real * d as real;
    assert (q as real + 1.0) * d as real == q as real * d as real + d as real;
    if x < q as real {
      RealMulStrict(x, q as real, d as real);
    } else if x >= q as real + 1.0 {
      RealMulMono(q as real + 1.0, x, d as real);
    }
  }

  lemma RealMulStrict(x: real, y: real, m: real)
    requires x < y && 0.0 < m
    ensures x * m < y * m
  {
  }

  lemma RealMulMono(x: real, y: real, m: real)
    requires x <= y && 0.0 <= m
    ensures x * m <= y * m
  {
  }

  lemma RealDivMono(x: real, y: real, d: real)
    requires x <= y && 0.0 < d
    ensures x / d <= y / d
  {
  }

  lemma RealReciprocalMono(m: real, x: real, y: real)
    requires 0.0 <= m && 0.0 < x <= y
    ensures 0.0 <= m / y <= m / x
  {
  }
}
