/** Water-filling over constant-product pools: how far rounding can push the greedy split from the best one. */
module AmmSplitting {
  import opened Common
  import opened Arithmetic
  import opened Amm
  import opened WaterFill

  /** The quote curve of a constant-product pool. */
  function PoolCurve(reserveIn: int, reserveOut: int, feeBps: int): Curve {
    x => GetAmountOut(x, reserveIn, reserveOut, feeBps)
  }

  /** What one more unit of input can buy, plus two units of rounding. */
  function Slack(reserveIn: int, reserveOut: int): int
    requires 0 < reserveIn
  {
    2 + reserveOut / (reserveIn + 1)
  }

  /** The curve before rounding, as a real function of the input after the fee. */
  function Exact(a: int, I: int, R: int): real
    requires 0 < I && 0 <= a
  {
    R as real - (I * R) as real / (I + a) as real
  }

  lemma CurveRounding(a: int, I: int, R: int)
    requires 0 < I && 0 < R && 0 <= a
    ensures CurveOut(a, I, R) as real <= Exact(a, I, R) < CurveOut(a, I, R) as real + 1.0
  {
    RealFloor(a * R, I + a);
    var x := (a * R) as real / (I + a) as real;
    var y := (I * R) as real / (I + a) as real;
    assert (x + y) * (I + a) as real == R as real * (I + a) as real;
  }

  /** The exact curve is concave: the same step yields less further along. */
  lemma ExactConcave(a: int, b: int, d: int, I: int, R: int)
    requires 0 < I && 0 < R && 0 <= a <= b && 0 <= d
    ensures Exact(b + d, I, R) - Exact(b, I, R) <= Exact(a + d, I, R) - Exact(a, I, R)
  {
    ReciprocalConvex((I * R) as real, (I + a) as real, (I + b) as real, d as real);
  }

  lemma ReciprocalConvex(m: real, x: real, y: real, s: real)
    requires 0.0 <= m && 0.0 < x <= y && 0.0 <= s
    ensures m / y - m / (y + s) <= m / x - m / (x + s)
  {
  }

  /** One unit of input buys at most reserveOut / (reserveIn + 1). */
  lemma ExactUnit(a: int, I: int, R: int)
    requires 0 < I && 0 < R && 0 <= a
    ensures Exact(a + 1, I, R) - Exact(a, I, R) <= R as real / (I + 1) as real
  {
    ExactConcave(0, a, 1, I, R);
    var m := (I * R) as real;
    assert m / I as real == R as real;
    var y := m / (I + 1) as real;
    assert (R as real - y) * (I + 1) as real == R as real;
  }

  /** Consecutive chunk boundaries after the fee are equally spaced, up to one unit. */
  lemma FeeSteps(w: int, j: int, k: int)
    requires 0 <= w && 0 <= j && 0 <= k
    ensures (k + 1) * w / BPS - k * w / BPS <= (j + 1) * w / BPS - j * w / BPS + 1
    ensures 0 <= j * w / BPS <= (j + 1) * w / BPS
    ensures j <= k ==> j * w / BPS <= k * w / BPS
  {
  }

  /** After `k` chunks the pool quotes the curve at the floored input. */
  lemma ChunkQuote(chunk: int, k: int, I: int, R: int, feeBps: int)
    requires 0 < chunk && 0 <= k && 0 < I && 0 < R && feeBps <= BPS
    ensures var a := k * (chunk * (BPS - feeBps)) / BPS;
            0 <= a && PoolCurve(I, R, feeBps)(k * chunk) == CurveOut(a, I, R)
  {
    var w := chunk * (BPS - feeBps);
    MulMono(0, k, w) by { MulMono(0, chunk, BPS - feeBps); }
    assert k * chunk * (BPS - feeBps) == k * w;
  }

  /** A constant-product pool's chunk gains fall, up to the slack. */
  lemma PoolIsNearConcave(chunk: int, I: int, R: int, feeBps: int)
    requires 0 < chunk && 0 < I && 0 < R && feeBps <= BPS
    ensures NearConcave(PoolCurve(I, R, feeBps), chunk, Slack(I, R))
  {
    var f := PoolCurve(I, R, feeBps);
    forall j, k | 0 <= j <= k ensures ChunkGain(f, chunk, k) <= ChunkGain(f, chunk, j) + Slack(I, R) {
      var w := chunk * (BPS - feeBps);
      FeeSteps(w, j, k);
      ChunkQuote(chunk, j, I, R, feeBps);
      ChunkQuote(chunk, j + 1, I, R, feeBps);
      ChunkQuote(chunk, k, I, R, feeBps);
      ChunkQuote(chunk, k + 1, I, R, feeBps);
      GainsFall(j * w / BPS, (j + 1) * w / BPS, k * w / BPS, (k + 1) * w / BPS, I, R);
    }
  }

  /** Two steps on the floored curve, the later one at most one unit longer. */
  lemma GainsFall(a: int, a': int, b: int, b': int, I: int, R: int)
    requires 0 <= a <= a' && a <= b <= b' && b' - b <= a' - a + 1 && 0 < I && 0 < R
    ensures CurveOut(b', I, R) - CurveOut(b, I, R) <= CurveOut(a', I, R) - CurveOut(a, I, R) + Slack(I, R)
  {
    CurveRounding(a, I, R);
    CurveRounding(a', I, R);
    CurveRounding(b, I, R);
    CurveRounding(b', I, R);
    ExactConcave(a, b, b' - b, I, R);
    if b' - b == a' - a + 1 {
      ExactUnit(a', I, R);
    } else {
      ExactMono(a + (b' - b), a', I, R);
    }
    RealFloor(R, I + 1);
  }

  lemma ExactMono(a: int, b: int, I: int, R: int)
    requires 0 < I && 0 < R && 0 <= a <= b
    ensures Exact(a, I, R) <= Exact(b, I, R)
  {
  }

  /** A constant-product pool never pays less for more chunks. */
  lemma PoolIsRising(chunk: int, I: int, R: int, feeBps: int)
    requires 0 < chunk
    ensures Rising(PoolCurve(I, R, feeBps), chunk)
  {
    forall k | 0 <= k ensures 0 <= ChunkGain(PoolCurve(I, R, feeBps), chunk, k) {
      AmountOutMonotone(k * chunk, (k + 1) * chunk, I, R, feeBps);
    }
  }

  datatype Reserves = Reserves(reserveIn: int, reserveOut: int, feeBps: int)

  function PoolCurves(pools: seq<Reserves>): (c: seq<Curve>)
    ensures |c| == |pools|
    ensures forall i :: 0 <= i < |pools| ==> c[i] == PoolCurve(pools[i].reserveIn, pools[i].reserveOut, pools[i].feeBps)
  {
    if pools == [] then []
    else [PoolCurve(pools[0].reserveIn, pools[0].reserveOut, pools[0].feeBps)] + PoolCurves(pools[1..])
  }

  /**
   * On real constant-product pools, the greedy split of any amount pays at least the best split of its `n` whole
   * chunks, less `n * e` output units, where `e` bounds what one input unit buys in any of them, plus two.
   */
  lemma {:induction false} GreedyOnConstantProduct(pools: seq<Reserves>, chunk: int, amountIn: int, e: int,
                                                   other: seq<int>)
    requires |pools| > 0 && 0 < chunk && 0 <= amountIn
    requires forall i :: 0 <= i < |pools| ==>
               && 0 < pools[i].reserveIn && 0 < pools[i].reserveOut && pools[i].feeBps <= BPS
               && Slack(pools[i].reserveIn, pools[i].reserveOut) <= e
    requires |other| == |pools| && NonNegative(other) && Sum(other) == amountIn / chunk
    ensures var curves := PoolCurves(pools);
            Total(curves, Chunks(other, chunk))
            <= Total(curves, Distribute(curves, Zeros(|curves|), amountIn, chunk)) + e * Sum(other)
  {
    var curves := PoolCurves(pools);
    forall i | 0 <= i < |curves| ensures Rising(curves[i], chunk) && NearConcave(curves[i], chunk, e) {
      PoolIsRising(chunk, pools[i].reserveIn, pools[i].reserveOut, pools[i].feeBps);
      PoolIsNearConcave(chunk, pools[i].reserveIn, pools[i].reserveOut, pools[i].feeBps);
    }
    forall i, x, y | 0 <= i < |curves| && 0 <= x <= y ensures curves[i](x) <= curves[i](y) {
      AmountOutMonotone(x, y, pools[i].reserveIn, pools[i].reserveOut, pools[i].feeBps);
    }
    DivMono(0, pools[0].reserveOut, pools[0].reserveIn + 1);
    GreedyOnAnyAmount(curves, chunk, amountIn, e, other);
  }
}
