/** Water-filling over concentrated liquidity: how far the chunk gains of a tick walk are from falling. */
module ClmmSplitting {
  import opened Common
  import opened Arithmetic
  import opened WaterFill
  import opened AmmSplitting
  import opened TickMath
  import opened Clmm
  import opened ClmmPath
  import opened ExactCurve
  import opened ClmmRounding

  /** The quote curve of a concentrated pool. */
  function ClmmCurve(s: ClmmState, feeBps: int, zeroForOne: bool): Curve {
    x => ClmmQuote(s, feeBps, zeroForOne, x)
  }

  // ---------------------------------------------------------------- what can go wrong anywhere on the way

  /** The most that rounding the final price moves a payment, in any of the ranges. */
  function EndSlack(zeroForOne: bool, bounds: seq<ClmmTick>, p: int, L: int): real
    requires 0 < p
    decreases |bounds|
  {
    var here := GainAtEnd(zeroForOne, Ending(0, p, L)) + LossAtEnd(zeroForOne, Ending(0, p, L));
    if L <= 0 || bounds == [] then here
    else
      var rest := EndSlack(zeroForOne, bounds[1..], SqrtRatioAtTick(bounds[0].tickIndex),
                           LiquidityAfter(zeroForOne, L, bounds[0]));
      if here <= rest then rest else here
  }

  lemma {:induction false} EndWithinSlack(zeroForOne: bool, bounds: seq<ClmmTick>, rem: int, p: int, L: int)
    requires 0 < p
    ensures var e := EndOf(zeroForOne, bounds, rem, p, L);
            0.0 <= GainAtEnd(zeroForOne, e) + LossAtEnd(zeroForOne, e) <= EndSlack(zeroForOne, bounds, p, L)
    decreases |bounds|
  {
    AtEndNonNegative(zeroForOne, Ending(0, p, L));
    if rem > 0 && L > 0 && bounds != [] {
      var t := SqrtRatioAtTick(bounds[0].tickIndex);
      EndWithinSlack(zeroForOne, bounds[1..], rem - MaxIn(zeroForOne, p, t, L), t,
                     LiquidityAfter(zeroForOne, L, bounds[0]));
    }
  }

  // ---------------------------------------------------------------- a quote is near the exact, concave curve

  ghost predicate Near(c: Ranges, out: int, rem: int, below: real, above: real)
    requires Chained(c) && 0 <= rem
  {
    Pays(c, rem as real) - below < out as real <= Pays(c, rem as real) + above
  }

  lemma {:induction false} WithinIsNear(c: Ranges, out: int, rem: int, n: nat, k: nat, s: real, gain: real, loss: real,
                                        below: real, above: real, d: real, m: real)
    requires Chained(c) && 0 <= rem && RoundedWithin(c, out as real, rem, n, gain, loss) && n <= k
    requires d == n as real && m == k as real && Spot(c) <= s && 0.0 <= s
    requires m + 1.0 + loss <= below && s * m + gain <= above
    ensures Near(c, out, rem, below, above)
  {
    PaysAtMostSpot(c, rem as real, (rem + n) as real, s, d);
    NearScalars(Pays(c, rem as real), Pays(c, (rem + n) as real), out as real, d, m, s, gain, loss, below, above);
  }

  lemma NearScalars(x: real, y: real, out: real, d: real, m: real, s: real, gain: real, loss: real, below: real,
                    above: real)
    requires x - d - 1.0 - loss < out <= y + gain && y <= x + s * d && d <= m && 0.0 <= s
    requires m + 1.0 + loss <= below && s * m + gain <= above
    ensures x - below < out <= x + above
  {
    RealMulMono(d, m, s);
  }

  /** Two steps on the exact curve, the later one at most one unit longer. */
  lemma ExactGainsFall(c: Ranges, a: int, a': int, b: int, b': int, s: real)
    requires Chained(c) && 0 <= a <= a' && a <= b <= b' && b' - b <= a' - a + 1 && Spot(c) <= s
    ensures Pays(c, b' as real) - Pays(c, b as real) <= Pays(c, a' as real) - Pays(c, a as real) + s
  {
    var m := a + (b' - b);
    PaysConcave(c, a as real, b as real, (b' - b) as real, m as real, b' as real);
    MarginalBelowSpot(c, 0.0);
    if m <= a' {
      PaysMore(c, m as real, a' as real);
    } else {
      PaysAtMostSpot(c, a' as real, m as real, s, 1.0);
    }
  }

  /** The same for outputs near the curve. */
  lemma {:induction false} GainsNearlyFall(c: Ranges, a: int, a': int, b: int, b': int, qa: int, qa': int, qb: int,
                                           qb': int, s: real, below: real, above: real, e: int)
    requires Chained(c) && 0 <= a <= a' && a <= b <= b' && b' - b <= a' - a + 1 && Spot(c) <= s
    requires Near(c, qa, a, below, above) && Near(c, qa', a', below, above)
    requires Near(c, qb, b, below, above) && Near(c, qb', b', below, above)
    requires s + 2.0 * below + 2.0 * above <= e as real
    ensures qb' - qb <= qa' - qa + e
  {
    ExactGainsFall(c, a, a', b, b', s);
  }

  // ---------------------------------------------------------------- chunk gains

  /** From the unit price `s`, `n` roundings of the input, as many of the output and one more, and the end slack `g`. */
  function ChunkSlack(s: real, n: real, g: real): real {
    s * n + (n + 1.0) + 2.0 * g
  }

  /**
   * What rounding can add to a chunk gain of the pool: twice for each boundary in reach and once more, and
   * at the end.
   */
  function ClmmSlack(s: ClmmState, zeroForOne: bool): real {
    var b := Reached(zeroForOne, s);
    ChunkSlack(SpotPrice(zeroForOne, s.sqrtPriceX64), (2 * |b| + 1) as real,
               EndSlack(zeroForOne, b, s.sqrtPriceX64, s.liquidity))
  }

  lemma EndIsOneSided(zeroForOne: bool, e: Ending, g: real)
    requires 0 < e.price && GainAtEnd(zeroForOne, e) + LossAtEnd(zeroForOne, e) <= g
    ensures GainAtEnd(zeroForOne, e) <= if zeroForOne then g else 0.0
    ensures LossAtEnd(zeroForOne, e) <= if zeroForOne then 0.0 else g
  {
    AtEndNonNegative(zeroForOne, e);
  }

  lemma {:induction false} WalkIsNear(zeroForOne: bool, b: seq<ClmmTick>, rem: int, p: int, L: int, c: Ranges,
                                      e: Ending, s: real, g: real, m: real, below: real, above: real)
    requires 0 < p && 0 <= rem && Downstream(zeroForOne, p, b) && AlwaysRoomy(zeroForOne, b, p, L) && m == |b| as real
    requires c == RangesOf(zeroForOne, b, p, L) && Chained(c) && Spot(c) <= s && g == EndSlack(zeroForOne, b, p, L)
    requires e == EndOf(zeroForOne, b, rem, p, L)
    requires below == m + 1.0 + (if zeroForOne then 0.0 else g) && above == s * m + (if zeroForOne then g else 0.0)
    ensures Near(c, Walk(zeroForOne, b, rem, p, L).out, rem, below, above)
  {
    RoomyForAll(zeroForOne, b, rem, p, L);
    WalkRounding(zeroForOne, b, rem, p, L, c, e);
    EndWithinSlack(zeroForOne, b, rem, p, L);
    EndIsOneSided(zeroForOne, e, g);
    MarginalBelowSpot(c, 0.0);
    WithinEnds(c, Walk(zeroForOne, b, rem, p, L).out, rem, e, zeroForOne, |b|, s, g, m, below, above);
  }

  lemma {:induction false} WithinEnds(c: Ranges, out: int, rem: int, e: Ending, zeroForOne: bool, k: nat, s: real,
                                      g: real, m: real, below: real, above: real)
    requires Chained(c) && 0 <= rem && 0 < e.price && e.crossed <= k && m == k as real && Spot(c) <= s && 0.0 <= s
    requires RoundedWithin(c, out as real, rem, e.crossed, GainAtEnd(zeroForOne, e), LossAtEnd(zeroForOne, e))
    requires GainAtEnd(zeroForOne, e) <= if zeroForOne then g else 0.0
    requires LossAtEnd(zeroForOne, e) <= if zeroForOne then 0.0 else g
    requires below == m + 1.0 + (if zeroForOne then 0.0 else g) && above == s * m + (if zeroForOne then g else 0.0)
    ensures Near(c, out, rem, below, above)
  {
    WithinIsNear(c, out, rem, e.crossed, k, s, GainAtEnd(zeroForOne, e), LossAtEnd(zeroForOne, e), below, above,
                 e.crossed as real, m);
  }

  /** After `j` chunks the pool is quoted at the floored input. */
  lemma {:induction false} ChunkOfWalk(s: ClmmState, feeBps: int, zeroForOne: bool, chunk: int, j: int)
    requires 0 < chunk && 0 <= j && feeBps <= BPS
    ensures 0 <= j * (chunk * (BPS - feeBps)) / BPS
    ensures ClmmQuote(s, feeBps, zeroForOne, j * chunk)
         == Walk(zeroForOne, Boundaries(zeroForOne, s), j * (chunk * (BPS - feeBps)) / BPS, s.sqrtPriceX64,
                 s.liquidity).out
  {
    var w := chunk * (BPS - feeBps);
    MulMono(0, j, chunk);
    assert j * chunk * (BPS - feeBps) == j * w;
    QuoteIsWalk(s, feeBps, zeroForOne, j * chunk);
  }

  /**
   * A concentrated pool's chunk gains fall, up to the slack, across crossings and changes of liquidity, and past
   * boundaries before which nothing fits.
   */
  lemma ClmmIsNearConcave(s: ClmmState, feeBps: int, zeroForOne: bool, chunk: int, e: int)
    requires Consistent(s) && feeBps <= BPS && 0 < chunk
    requires ClmmSlack(s, zeroForOne) <= e as real
    ensures NearConcave(ClmmCurve(s, feeBps, zeroForOne), chunk, e)
  {
    var f, w := ClmmCurve(s, feeBps, zeroForOne), chunk * (BPS - feeBps);
    MulMono(0, chunk, BPS - feeBps);
    forall j, k | 0 <= j <= k ensures ChunkGain(f, chunk, k) <= ChunkGain(f, chunk, j) + e {
      FeeSteps(w, j, k);
      FeeSteps(w, k, k);
      ChunkOfWalk(s, feeBps, zeroForOne, chunk, j);
      ChunkOfWalk(s, feeBps, zeroForOne, chunk, j + 1);
      ChunkOfWalk(s, feeBps, zeroForOne, chunk, k);
      ChunkOfWalk(s, feeBps, zeroForOne, chunk, k + 1);
      WalkGainsFall(s, zeroForOne, j * w / BPS, (j + 1) * w / BPS, k * w / BPS, (k + 1) * w / BPS, e);
    }
  }

  lemma {:induction false} WalkGainsFall(s: ClmmState, zeroForOne: bool, a: int, a': int, b: int, b': int, e: int)
    requires Consistent(s) && ClmmSlack(s, zeroForOne) <= e as real
    requires 0 <= a <= a' && a <= b <= b' && b' - b <= a' - a + 1
    ensures var bs, p, L := Boundaries(zeroForOne, s), s.sqrtPriceX64, s.liquidity;
            Walk(zeroForOne, bs, b', p, L).out - Walk(zeroForOne, bs, b, p, L).out
            <= Walk(zeroForOne, bs, a', p, L).out - Walk(zeroForOne, bs, a, p, L).out + e
  {
    var bs, p, L := Reached(zeroForOne, s), s.sqrtPriceX64, s.liquidity;
    ConsistentIsDownstream(zeroForOne, s);
    ReachIsRoomy(zeroForOne, Boundaries(zeroForOne, s), p, L);
    forall x ensures Walk(zeroForOne, Boundaries(zeroForOne, s), x, p, L) == Walk(zeroForOne, bs, x, p, L) {
      WalkWithinReach(zeroForOne, Boundaries(zeroForOne, s), x, p, L);
    }
    ForwardGainsFall(zeroForOne, bs, p, L, SpotPrice(zeroForOne, p), EndSlack(zeroForOne, bs, p, L), |bs| as real,
                     (2 * |bs| + 1) as real, a, a', b, b', e);
  }

  lemma {:induction false} ForwardGainsFall(zeroForOne: bool, bs: seq<ClmmTick>, p: int, L: int, s: real, g: real,
                                            m: real, n: real, a: int, a': int, b: int, b': int, e: int)
    requires 0 < p && Downstream(zeroForOne, p, bs) && AlwaysRoomy(zeroForOne, bs, p, L)
    requires s == SpotPrice(zeroForOne, p) && g == EndSlack(zeroForOne, bs, p, L)
    requires m == |bs| as real && n == (2 * |bs| + 1) as real && ChunkSlack(s, n, g) <= e as real
    requires 0 <= a <= a' && a <= b <= b' && b' - b <= a' - a + 1
    ensures Walk(zeroForOne, bs, b', p, L).out - Walk(zeroForOne, bs, b, p, L).out
         <= Walk(zeroForOne, bs, a', p, L).out - Walk(zeroForOne, bs, a, p, L).out + e
  {
    var c := RangesOf(zeroForOne, bs, p, L);
    var below, above := m + 1.0 + (if zeroForOne then 0.0 else g), s * m + (if zeroForOne then g else 0.0);
    RangesAreChained(zeroForOne, bs, p, L);
    WalkIsNear(zeroForOne, bs, a, p, L, c, EndOf(zeroForOne, bs, a, p, L), s, g, m, below, above);
    WalkIsNear(zeroForOne, bs, a', p, L, c, EndOf(zeroForOne, bs, a', p, L), s, g, m, below, above);
    WalkIsNear(zeroForOne, bs, b, p, L, c, EndOf(zeroForOne, bs, b, p, L), s, g, m, below, above);
    WalkIsNear(zeroForOne, bs, b', p, L, c, EndOf(zeroForOne, bs, b', p, L), s, g, m, below, above);
    SlackAdds(s, m, g, below, above, n);
    GainsNearlyFall(c, a, a', b, b', Walk(zeroForOne, bs, a, p, L).out, Walk(zeroForOne, bs, a', p, L).out,
                    Walk(zeroForOne, bs, b, p, L).out, Walk(zeroForOne, bs, b', p, L).out, s, below, above, e);
  }

  lemma SlackAdds(s: real, m: real, g: real, below: real, above: real, n: real)
    requires below + above == m + 1.0 + s * m + g && n == 2.0 * m + 1.0
    ensures s + 2.0 * below + 2.0 * above == ChunkSlack(s, n, g)
  {
    assert s * n == 2.0 * (s * m) + s;
  }
}
