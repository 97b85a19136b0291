/** How the tick walk moves the price, and how far its integer rounding strays from the exact curve. */
module ClmmPath {
  import opened Common
  import opened Arithmetic
  import opened TickMath
  import opened Clmm

  // ---------------------------------------------------------------- the boundary list

  ghost predicate Ordered(zeroForOne: bool, b: seq<ClmmTick>) {
    forall i, j :: 0 <= i < j < |b| ==> InOrder(zeroForOne, b[i], b[j])
  }

  lemma {:induction false} InsertKeepsOrder(zeroForOne: bool, t: ClmmTick, b: seq<ClmmTick>)
    requires Ordered(zeroForOne, b)
    ensures Ordered(zeroForOne, Insert(zeroForOne, t, b))
    ensures multiset(Insert(zeroForOne, t, b)) == multiset(b) + multiset{t}
  {
    if b == [] || InOrder(zeroForOne, t, b[0]) {
    } else {
      InsertKeepsOrder(zeroForOne, t, b[1..]);
      var rest := Insert(zeroForOne, t, b[1..]);
      assert b == [b[0]] + b[1..];
      forall x | x in rest ensures InOrder(zeroForOne, b[0], x) {
        assert x in multiset(rest);
        assert x == t || x in b[1..];
      }
    }
  }

  lemma {:induction false} SortIsSorted(zeroForOne: bool, ticks: seq<ClmmTick>)
    ensures Ordered(zeroForOne, Sort(zeroForOne, ticks))
    ensures multiset(Sort(zeroForOne, ticks)) == multiset(ticks)
  {
    if ticks != [] {
      SortIsSorted(zeroForOne, ticks[1..]);
      InsertKeepsOrder(zeroForOne, ticks[0], Sort(zeroForOne, ticks[1..]));
      assert ticks == [ticks[0]] + ticks[1..];
    }
  }

  lemma {:induction false} FilterKeepsExactly(zeroForOne: bool, current: int, ticks: seq<ClmmTick>, t: ClmmTick)
    ensures multiset(FilterAhead(zeroForOne, current, ticks))[t]
         == if Ahead(zeroForOne, current, t) then multiset(ticks)[t] else 0
  {
    if ticks != [] {
      FilterKeepsExactly(zeroForOne, current, ticks[1..], t);
      assert ticks == [ticks[0]] + ticks[1..];
    }
  }

  /** The walk meets exactly the ticks ahead of the price, each as often as it is listed, nearest first. */
  lemma BoundariesAreTheTicksAhead(zeroForOne: bool, s: ClmmState, t: ClmmTick)
    ensures Ordered(zeroForOne, Boundaries(zeroForOne, s))
    ensures multiset(Boundaries(zeroForOne, s))[t]
         == if Ahead(zeroForOne, s.tickCurrent, t) then multiset(s.ticks)[t] else 0
  {
    SortIsSorted(zeroForOne, FilterAhead(zeroForOne, s.tickCurrent, s.ticks));
    FilterKeepsExactly(zeroForOne, s.tickCurrent, s.ticks, t);
  }

  // ---------------------------------------------------------------- the price path

  /** `q` is at or beyond `p` in the direction of travel. */
  predicate Beyond(zeroForOne: bool, p: int, q: int) {
    if zeroForOne then q <= p else p <= q
  }

  /** Every boundary price is at or beyond the price, and the next one is the nearest. */
  ghost predicate Downstream(zeroForOne: bool, p: int, bounds: seq<ClmmTick>)
    decreases |bounds|
  {
    bounds != [] ==>
      && Beyond(zeroForOne, p, SqrtRatioAtTick(bounds[0].tickIndex))
      && Downstream(zeroForOne, SqrtRatioAtTick(bounds[0].tickIndex), bounds[1..])
  }

  predicate TickInRange(tick: int) {
    -TICK_BOUND < tick < TICK_BOUND
  }

  /** The snapshot's price belongs to the tick it names. */
  ghost predicate Consistent(s: ClmmState) {
    && TickInRange(s.tickCurrent) && TickInRange(s.tickCurrent + 1)
    && (forall t :: t in s.ticks ==> TickInRange(t.tickIndex))
    && SqrtRatioAtTick(s.tickCurrent) <= s.sqrtPriceX64 <= SqrtRatioAtTick(s.tickCurrent + 1)
  }

  lemma {:induction false} OrderedTicksAreDownstream(zeroForOne: bool, p: int, bounds: seq<ClmmTick>)
    requires Ordered(zeroForOne, bounds)
    requires forall i :: 0 <= i < |bounds| ==> TickInRange(bounds[i].tickIndex)
    requires bounds != [] ==> Beyond(zeroForOne, p, SqrtRatioAtTick(bounds[0].tickIndex))
    ensures Downstream(zeroForOne, p, bounds)
    decreases |bounds|
  {
    if |bounds| > 1 {
      if zeroForOne {
        SqrtRatioMono(bounds[1].tickIndex, bounds[0].tickIndex);
      } else {
        SqrtRatioMono(bounds[0].tickIndex, bounds[1].tickIndex);
      }
      OrderedTicksAreDownstream(zeroForOne, SqrtRatioAtTick(bounds[0].tickIndex), bounds[1..]);
    }
  }

  /** In a consistent snapshot the boundary prices line up ahead of the current price. */
  lemma {:induction false} ConsistentIsDownstream(zeroForOne: bool, s: ClmmState)
    requires Consistent(s)
    ensures Downstream(zeroForOne, s.sqrtPriceX64, Boundaries(zeroForOne, s))
  {
    var b := Boundaries(zeroForOne, s);
    SortIsSorted(zeroForOne, FilterAhead(zeroForOne, s.tickCurrent, s.ticks));
    forall i | 0 <= i < |b|
      ensures TickInRange(b[i].tickIndex) && Ahead(zeroForOne, s.tickCurrent, b[i])
    {
      BoundariesAreTheTicksAhead(zeroForOne, s, b[i]);
    }
    if b != [] {
      if zeroForOne {
        SqrtRatioMono(b[0].tickIndex, s.tickCurrent);
      } else {
        SqrtRatioMono(s.tickCurrent + 1, b[0].tickIndex);
      }
    }
    OrderedTicksAreDownstream(zeroForOne, s.sqrtPriceX64, b);
  }

  /** The walk only ever moves the price forward. */
  lemma {:induction false} WalkMovesForward(zeroForOne: bool, bounds: seq<ClmmTick>, rem: int, p: int, L: int)
    requires 0 < p && Downstream(zeroForOne, p, bounds)
    ensures Beyond(zeroForOne, p, Walk(zeroForOne, bounds, rem, p, L).price)
    decreases |bounds|
  {
    if rem > 0 && L > 0 {
      NextSqrtRange(zeroForOne, rem, p, L);
      if bounds != [] {
        var t := SqrtRatioAtTick(bounds[0].tickIndex);
        if Crosses(zeroForOne, rem, p, t, L) {
          WalkMovesForward(zeroForOne, bounds[1..], rem - MaxIn(zeroForOne, p, t, L), t,
                           LiquidityAfter(zeroForOne, L, bounds[0]));
        }
      }
    }
  }

  /** More input never leaves the price short of where less input leaves it. */
  lemma {:induction false} WalkPriceMono(zeroForOne: bool, bounds: seq<ClmmTick>, r1: int, r2: int, p: int, L: int)
    requires 0 < p && r1 <= r2 && Downstream(zeroForOne, p, bounds)
    ensures Beyond(zeroForOne, Walk(zeroForOne, bounds, r1, p, L).price, Walk(zeroForOne, bounds, r2, p, L).price)
    decreases |bounds|
  {
    WalkMovesForward(zeroForOne, bounds, r2, p, L);
    if r1 > 0 && L > 0 {
      NextSqrtMono(zeroForOne, r1, r2, p, L);
      if bounds != [] {
        var t := SqrtRatioAtTick(bounds[0].tickIndex);
        var maxIn, L' := MaxIn(zeroForOne, p, t, L), LiquidityAfter(zeroForOne, L, bounds[0]);
        if Crosses(zeroForOne, r1, p, t, L) {
          WalkPriceMono(zeroForOne, bounds[1..], r1 - maxIn, r2 - maxIn, t, L');
        } else if Crosses(zeroForOne, r2, p, t, L) {
          NeverOvershoots(zeroForOne, r1, p, t, L);
          WalkMovesForward(zeroForOne, bounds[1..], r2 - maxIn, t, L');
        }
      }
    }
  }

  /** The end price of a whole quote moves with the trade, further for a larger trade. */
  lemma {:induction false} QuotePriceMonotone(zeroForOne: bool, s: ClmmState, r1: int, r2: int)
    requires Consistent(s) && r1 <= r2
    ensures var b := Boundaries(zeroForOne, s);
            var q1 := Walk(zeroForOne, b, r1, s.sqrtPriceX64, s.liquidity).price;
            var q2 := Walk(zeroForOne, b, r2, s.sqrtPriceX64, s.liquidity).price;
            Beyond(zeroForOne, s.sqrtPriceX64, q1) && Beyond(zeroForOne, q1, q2)
  {
    ConsistentIsDownstream(zeroForOne, s);
    var b := Boundaries(zeroForOne, s);
    WalkMovesForward(zeroForOne, b, r1, s.sqrtPriceX64, s.liquidity);
    WalkPriceMono(zeroForOne, b, r1, r2, s.sqrtPriceX64, s.liquidity);
  }

  // ---------------------------------------------------------------- overshoot

  /** A partial fill with a positive `maxIn` stops at or before the target tick. */
  lemma NeverOvershoots(zeroForOne: bool, rem: int, p: int, t: int, L: int)
    requires 0 < p && 0 < t && 0 < L && 0 <= rem && Beyond(zeroForOne, p, t)
    requires 0 < MaxIn(zeroForOne, p, t, L) && !Crosses(zeroForOne, rem, p, t, L)
    ensures Beyond(zeroForOne, p, NextSqrt(zeroForOne, rem, p, L))
    ensures Beyond(zeroForOne, NextSqrt(zeroForOne, rem, p, L), t)
  {
    MoveAtMostWidth(zeroForOne, rem, p, t, L);
    NextSqrtRange(zeroForOne, rem, p, L);
  }

  /** Going down, the partial-fill branch stays at or above the tick exactly when `maxIn > 0`. */
  lemma OvershootsDownIffNoCapacity(rem: int, p: int, t: int, L: int)
    requires 0 < t <= p && 0 < L && 0 < rem && !Crosses(true, rem, p, t, L)
    ensures t <= NextSqrt(true, rem, p, L) <==> MaxIn(true, p, t, L) > 0
  {
    if MaxIn(true, p, t, L) > 0 {
      NeverOvershoots(true, rem, p, t, L);
    } else {
      FallsPast(L * Q64, p, t, rem);
    }
  }

  lemma FallsPast(m: int, p: int, t: int, rem: int)
    requires 0 < m && 0 < t <= p && 0 < rem && m * (p - t) < p * t
    ensures 0 < m + rem * p && m * p / (m + rem * p) < t
  {
    MulMono(1, rem, p);
    MulMono(p, rem * p, t);
    assert t * (m + rem * p) == m * t + rem * p * t;
    assert m * (p - t) == m * p - m * t;
    FloorGalois(m * p, m + rem * p, t);
  }

  /** Going up, flooring leaves slack: the price passes the tick exactly when the input reaches the next price unit. */
  lemma OvershootsUpIff(rem: int, p: int, t: int, L: int)
    requires 0 < p <= t && 0 < L && 0 <= rem
    ensures NextSqrt(false, rem, p, L) <= t <==> rem * Q64 < L * (t - p + 1)
  {
    FloorGalois(rem * Q64, L, t - p + 1);
  }

  lemma OneTickAhead(zeroForOne: bool, s: ClmmState, t: ClmmTick)
    requires s.ticks == [t] && Ahead(zeroForOne, s.tickCurrent, t)
    ensures Boundaries(zeroForOne, s) == [t]
  {
    assert s.ticks[1..] == [];
    assert FilterAhead(zeroForOne, s.tickCurrent, s.ticks[1..]) == [];
    assert FilterAhead(zeroForOne, s.tickCurrent, s.ticks) == [t];
    assert Sort(zeroForOne, [t][1..]) == [];
  }

  /**
   * A snapshot sitting on its only initialized tick: the whole trade is filled below that tick, whatever
   * liquidity it carries.
   */
  lemma OvershootWitness(net: int)
    ensures var s: ClmmState := RawState(Q64, 1000, 0, [ClmmTick(0, net)]);
            && Consistent(s)
            && ClmmQuote(s, 0, true, 1000) == 500
            && Walk(true, Boundaries(true, s), 1000, Q64, 1000).price < SqrtRatioAtTick(0)
  {
    var t := ClmmTick(0, net);
    var s: ClmmState := RawState(Q64, 1000, 0, [t]);
    TickZeroIsOne();
    TickOneIsAboveOne();
    OneTickAhead(true, s, t);
    assert !Crosses(true, 1000, Q64, Q64, 1000);
    DivUnique(1000 * Q64 * Q64, 1000 * Q64 + 1000 * Q64, Q64 / 2, 0);
    assert AfterFee(1000, 0) == 1000;
  }

  /** Going up, one price unit short of a tick: no unit of input fits before it, and the whole trade is filled above. */
  lemma OvershootUpWitness(s: ClmmState, net: int)
    requires s == RawState(SqrtRatioAtTick(1) - 1, 1000, 0, [ClmmTick(1, net)])
    ensures Consistent(s)
    ensures Walk(false, Boundaries(false, s), 1000, s.sqrtPriceX64, 1000).price
            == s.sqrtPriceX64 + Q64 > SqrtRatioAtTick(1)
  {
    TickZeroIsOne();
    TickOneIsAboveOne();
    var p := s.sqrtPriceX64;
    OneTickAhead(false, s, ClmmTick(1, net));
    assert !Crosses(false, 1000, p, p + 1, 1000);
    assert NextSqrt(false, 1000, p, 1000) == p + Q64;
  }

  // ---------------------------------------------------------------- rounding against the exact curve

  /** The exact square-root price after adding `rem` of token0. */
  function ExactNext0(rem: int, p: int, L: int): real
    requires 0 < p && 0 < L && 0 <= rem
  {
    FractionDenominator(rem, p, L);
    (L * Q64 * p) as real / (L * Q64 + rem * p) as real
  }

  /** The exact token1 output between `p` and the exact next price. */
  function ExactOut0(rem: int, p: int, L: int): real
    requires 0 < p && 0 < L && 0 <= rem
  {
    L as real * (p as real - ExactNext0(rem, p, L)) / Q64 as real
  }

  /** A zeroForOne fill pays within one unit below, and less than L / 2^64 above, the exact curve. */
  lemma FillDownRounding(rem: int, p: int, L: int)
    requires 0 < p && 0 < L && 0 <= rem
    ensures ExactOut0(rem, p, L) - 1.0 < FillOut(true, rem, p, L) as real
    ensures FillOut(true, rem, p, L) as real < ExactOut0(rem, p, L) + L as real / Q64 as real
  {
    FractionDenominator(rem, p, L);
    NextSqrtRange(true, rem, p, L);
    var next := NextSqrt(true, rem, p, L);
    RealFloor(L * Q64 * p, L * Q64 + rem * p);
    assert (L * (p - next)) as real == L as real * (p - next) as real;
    DownError(L as real, Q64 as real, (p - next) as real, p as real - ExactNext0(rem, p, L),
              FillOut(true, rem, p, L) as real);
  }

  /** Rounding the move up by less than one unit, then the amount down by less than one unit. */
  lemma DownError(l: real, q: real, moved: real, exact: real, out: real)
    requires 0.0 < l && 0.0 < q && exact <= moved < exact + 1.0
    requires out <= l * moved / q < out + 1.0
    ensures l * exact / q - 1.0 < out < l * exact / q + l / q
  {
    RealMulMono(exact, moved, l);
    RealDivMono(l * exact, l * moved, q);
    var a, b, c := l * moved / q, l * exact / q, l / q;
    assert a * q == l * moved && b * q == l * exact && c * q == l;
    RealMulStrict(moved, exact + 1.0, l);
    if a >= b + c {
      RealMulMono(b + c, a, q);
      calc {
        l * moved;
        a * q;
        >= (b + c) * q;
        b * q + c * q;
        l * exact + l;
        l * (exact + 1.0);
        (exact + 1.0) * l;
        > moved * l;
        l * moved;
      }
    }
  }

  /** The exact square-root price after adding `rem` of token1. */
  function ExactNext1(rem: int, p: int, L: int): real
    requires 0 < L
  {
    p as real + (rem * Q64) as real / L as real
  }

  /** token0 on the exact curve between `p` and the square-root price `q`. */
  function Curve0(p: real, q: real, L: int): real
    requires 0.0 < p && 0.0 < q
  {
    (L * Q64) as real / p - (L * Q64) as real / q
  }

  lemma CurveIsQuotient(p: int, q: int, L: int)
    requires 0 < p <= q && 0 < L
    ensures 0 < q * p
    ensures (L * Q64 * (q - p)) as real / (q * p) as real == Curve0(p as real, q as real, L)
  {
  }

  /** Crossing a whole range takes and pays the exact amounts of the curve, each rounded down. */
  lemma CrossingIsRounded(zeroForOne: bool, p: int, t: int, L: int)
    requires 0 < p && 0 < t && 0 < L && Beyond(zeroForOne, p, t)
    ensures var lo, hi := if zeroForOne then t else p, if zeroForOne then p else t;
            var token0, token1 := Curve0(lo as real, hi as real, L), (L * (hi - lo)) as real / Q64 as real;
            var taken, paid := MaxIn(zeroForOne, p, t, L) as real, CrossOut(zeroForOne, p, t, L) as real;
            && (zeroForOne ==> taken <= token0 < taken + 1.0 && paid <= token1 < paid + 1.0)
            && (!zeroForOne ==> taken <= token1 < taken + 1.0 && paid <= token0 < paid + 1.0)
  {
    var lo, hi := if zeroForOne then t else p, if zeroForOne then p else t;
    CurveIsQuotient(lo, hi, L);
    MulMono(0, hi - lo, L * Q64);
    RealFloor(L * Q64 * (hi - lo), hi * lo);
    RealFloor(L * (hi - lo), Q64);
  }

  /** A oneForZero fill never pays more than the exact curve, and loses less than 1 + L * 2^64 / p^2 to rounding. */
  lemma FillUpRounding(rem: int, p: int, L: int)
    requires 0 < p && 0 < L && 0 <= rem
    ensures 0.0 < ExactNext1(rem, p, L)
    ensures FillOut(false, rem, p, L) as real <= Curve0(p as real, ExactNext1(rem, p, L), L)
    ensures FillOut(false, rem, p, L) as real
          > Curve0(p as real, ExactNext1(rem, p, L), L) - 1.0 - (L * Q64) as real / p as real / p as real
  {
    var next, exact, m := NextSqrt(false, rem, p, L), ExactNext1(rem, p, L), (L * Q64) as real;
    RealFloor(rem * Q64, L);
    CurveIsQuotient(p, next, L);
    RealFloor(L * Q64 * (next - p), next * p);
    MulMono(0, next - p, L * Q64);
    RealReciprocalMono(m, next as real, exact);
    OneUnitCosts(m, p as real, next as real, exact);
  }

  lemma OneUnitCosts(m: real, p: real, q: real, e: real)
    requires 0.0 < m && 0.0 < p <= q <= e < q + 1.0
    ensures m / q - m / e <= m / p / p
  {
    var a, b, c := m / q, m / e, m / p;
    RealReciprocalMono(m, q, e);
    RealReciprocalMono(m, p, q);
    assert a * q == m && b * e == m && c * p == m;
    // (a - b) * q == b * (e - q) <= b <= c, hence a - b <= c / q <= c / p
    assert (a - b) * q == b * (e - q);
    RealMulMono(e - q, 1.0, b);
    var d := c / p;
    assert d * p == c;
    RealMulMono(p, q, a - b);
    if a - b > d {
      RealMulStrict(d, a - b, p);
    }
  }
}
