/** The running liquidity of the tick walk against the liquidity of each price range, summed afresh from the ticks. */
module ClmmLiquidity {
  import opened Arithmetic
  import opened TickMath
  import opened Clmm
  import opened ClmmPath

  /** The liquidity active just above tick `i`: what all ticks at or below it add. */
  function NetUpTo(ticks: seq<ClmmTick>, i: int): int {
    if ticks == [] then 0
    else (if ticks[0].tickIndex <= i then ticks[0].liquidityNet else 0) + NetUpTo(ticks[1..], i)
  }

  /** The tick whose range the price enters by crossing `t`. */
  function RangeBehind(zeroForOne: bool, t: ClmmTick): int {
    if zeroForOne then t.tickIndex - 1 else t.tickIndex
  }

  /** The walk as a reference: the same fills, with every range's liquidity computed from the whole tick list. */
  function WalkAfresh(zeroForOne: bool, ticks: seq<ClmmTick>, at: int, bounds: seq<ClmmTick>, rem: int, p: int): Fill
    requires 0 < p
    decreases |bounds|
  {
    var L := NetUpTo(ticks, at);
    if rem <= 0 || L <= 0 then Fill(0, p)
    else if bounds == [] then Fill(FillOut(zeroForOne, rem, p, L), NextSqrt(zeroForOne, rem, p, L))
    else
      var t := SqrtRatioAtTick(bounds[0].tickIndex);
      if Crosses(zeroForOne, rem, p, t, L) then
        var rest := WalkAfresh(zeroForOne, ticks, RangeBehind(zeroForOne, bounds[0]), bounds[1..],
                               rem - MaxIn(zeroForOne, p, t, L), t);
        Fill(CrossOut(zeroForOne, p, t, L) + rest.out, rest.price)
      else
        Fill(FillOut(zeroForOne, rem, p, L), NextSqrt(zeroForOne, rem, p, L))
  }

  /** No tick is listed twice. */
  ghost predicate DistinctTicks(ticks: seq<ClmmTick>) {
    && (forall t :: multiset(ticks)[t] <= 1)
    && (forall t, u :: t in ticks && u in ticks && t.tickIndex == u.tickIndex ==> t == u)
  }

  /** `bounds` lists the ticks ahead of `at`, nearest first. */
  ghost predicate AreAhead(zeroForOne: bool, ticks: seq<ClmmTick>, at: int, bounds: seq<ClmmTick>) {
    && Ordered(zeroForOne, bounds)
    && (forall t :: multiset(bounds)[t] == if Ahead(zeroForOne, at, t) then multiset(ticks)[t] else 0)
  }

  /** If all ticks in (lo, hi] are copies of `t`, they make the whole difference. */
  lemma {:induction false} NetBetween(ticks: seq<ClmmTick>, lo: int, hi: int, t: ClmmTick)
    requires lo < t.tickIndex <= hi
    requires forall u :: u in ticks && lo < u.tickIndex <= hi ==> u == t
    ensures NetUpTo(ticks, hi) == NetUpTo(ticks, lo) + t.liquidityNet * multiset(ticks)[t]
  {
    if ticks != [] {
      NetBetween(ticks[1..], lo, hi, t);
      assert ticks == [ticks[0]] + ticks[1..];
      assert ticks[0] in ticks;
      OneMore(t.liquidityNet, multiset(ticks[1..])[t]);
    }
  }

  /** The nearest boundary is the only tick that crossing it leaves behind. */
  lemma NearestIsOnly(zeroForOne: bool, ticks: seq<ClmmTick>, at: int, bounds: seq<ClmmTick>, u: ClmmTick)
    requires DistinctTicks(ticks) && bounds != [] && AreAhead(zeroForOne, ticks, at, bounds)
    ensures var t := bounds[0];
            && t in ticks && multiset(ticks)[t] == 1 && Ahead(zeroForOne, at, t)
            && (u in ticks && Ahead(zeroForOne, at, u) && !Ahead(zeroForOne, RangeBehind(zeroForOne, t), u) ==> u == t)
  {
    var t := bounds[0];
    assert t in multiset(bounds);
    assert t in multiset(ticks);
    if u in ticks && Ahead(zeroForOne, at, u) {
      assert u in multiset(ticks);
      assert u in multiset(bounds);
      var k :| 0 <= k < |bounds| && bounds[k] == u;
      assert k == 0 || InOrder(zeroForOne, t, u);
    }
  }

  /** Crossing the nearest boundary updates the running liquidity to that of the range behind it. */
  lemma {:induction false} CrossingUpdatesLiquidity(zeroForOne: bool, ticks: seq<ClmmTick>, at: int,
                                                    bounds: seq<ClmmTick>)
    requires DistinctTicks(ticks) && bounds != [] && AreAhead(zeroForOne, ticks, at, bounds)
    ensures LiquidityAfter(zeroForOne, NetUpTo(ticks, at), bounds[0])
            == NetUpTo(ticks, RangeBehind(zeroForOne, bounds[0]))
  {
    var t := bounds[0];
    forall u
      ensures u in ticks && Ahead(zeroForOne, at, u) && !Ahead(zeroForOne, RangeBehind(zeroForOne, t), u) ==> u == t
    {
      NearestIsOnly(zeroForOne, ticks, at, bounds, u);
    }
    NearestIsOnly(zeroForOne, ticks, at, bounds, t);
    if zeroForOne {
      NetBetween(ticks, t.tickIndex - 1, at, t);
    } else {
      NetBetween(ticks, at, t.tickIndex, t);
    }
  }

  lemma RestIsAhead(zeroForOne: bool, ticks: seq<ClmmTick>, at: int, bounds: seq<ClmmTick>)
    requires DistinctTicks(ticks) && bounds != [] && AreAhead(zeroForOne, ticks, at, bounds)
    ensures AreAhead(zeroForOne, ticks, RangeBehind(zeroForOne, bounds[0]), bounds[1..])
  {
    var t := bounds[0];
    assert bounds == [t] + bounds[1..];
    forall u ensures multiset(bounds[1..])[u]
                  == if Ahead(zeroForOne, RangeBehind(zeroForOne, t), u) then multiset(ticks)[u] else 0
    {
      NearestIsOnly(zeroForOne, ticks, at, bounds, u);
      assert u in multiset(ticks) <==> u in ticks;
    }
  }

  /** The running liquidity never drifts from the ticks. */
  lemma {:induction false} WalkMatchesReference(zeroForOne: bool, ticks: seq<ClmmTick>, at: int, bounds: seq<ClmmTick>,
                                                rem: int, p: int)
    requires 0 < p && DistinctTicks(ticks) && AreAhead(zeroForOne, ticks, at, bounds)
    ensures Walk(zeroForOne, bounds, rem, p, NetUpTo(ticks, at)) == WalkAfresh(zeroForOne, ticks, at, bounds, rem, p)
    decreases |bounds|
  {
    var L := NetUpTo(ticks, at);
    if rem > 0 && L > 0 && bounds != [] {
      var t := SqrtRatioAtTick(bounds[0].tickIndex);
      if Crosses(zeroForOne, rem, p, t, L) {
        CrossingUpdatesLiquidity(zeroForOne, ticks, at, bounds);
        RestIsAhead(zeroForOne, ticks, at, bounds);
        WalkMatchesReference(zeroForOne, ticks, RangeBehind(zeroForOne, bounds[0]), bounds[1..],
                             rem - MaxIn(zeroForOne, p, t, L), t);
      }
    }
  }

  /**
   * If the snapshot's liquidity is that of its tick, each range of the quote is filled with that range's
   * own liquidity.
   */
  lemma {:induction false} QuoteUsesRangeLiquidity(s: ClmmState, zeroForOne: bool, rem: int)
    requires DistinctTicks(s.ticks) && s.liquidity == NetUpTo(s.ticks, s.tickCurrent)
    ensures var b := Boundaries(zeroForOne, s);
            Walk(zeroForOne, b, rem, s.sqrtPriceX64, s.liquidity)
            == WalkAfresh(zeroForOne, s.ticks, s.tickCurrent, b, rem, s.sqrtPriceX64)
  {
    var b := Boundaries(zeroForOne, s);
    forall t ensures multiset(b)[t] == if Ahead(zeroForOne, s.tickCurrent, t) then multiset(s.ticks)[t] else 0 {
      BoundariesAreTheTicksAhead(zeroForOne, s, t);
    }
    SortIsSorted(zeroForOne, FilterAhead(zeroForOne, s.tickCurrent, s.ticks));
    WalkMatchesReference(zeroForOne, s.ticks, s.tickCurrent, b, rem, s.sqrtPriceX64);
  }
}
