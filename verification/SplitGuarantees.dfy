/** How close the router's split is to the best one, over the pools it really prices. */
module SplitGuarantees {
  import opened Common
  import opened Arithmetic
  import opened WaterFill
  import opened AmmSplitting
  import opened ClmmPath
  import opened ClmmSplitting
  import opened Dlmm
  import opened Pricing
  import opened PoolGraphs
  import opened Router
  import opened RouteGuarantees

  /** Priced as concentrated liquidity; or at constant product, from these reserves. */
  predicate IsTickPool(p: Pool) {
    p.kind == Concentrated && p.clmm.Some?
  }

  predicate IsProductPool(p: Pool, t: Mint) {
    !IsTickPool(p) && !(p.kind == DiscreteBins && p.dlmm.Some?) && Orient(p, t).Some?
  }

  /** What rounding can add to a chunk gain is at most `e`. */
  ghost predicate RoundsWithin(p: Pool, t: Mint, e: int) {
    p.feeBps <= BPS &&
    if IsTickPool(p) then
      var s, zeroForOne := p.clmm.value, t == p.tokenA;
      Consistent(s) && ClmmSlack(s, zeroForOne) <= e as real
    else
      && IsProductPool(p, t)
      && var (rIn, rOut) := Orient(p, t).value; 0 < rIn && 0 < rOut && Slack(rIn, rOut) <= e
  }

  lemma QuoteOfTickPool(d: Doubles, p: Pool, t: Mint, x: int)
    requires IsTickPool(p)
    ensures QuoteCurve(QuoteWith(d), p, t)(x) == ClmmCurve(p.clmm.value, p.feeBps, t == p.tokenA)(x)
  {
  }

  lemma QuoteOfProductPool(d: Doubles, p: Pool, t: Mint, x: int)
    requires IsProductPool(p, t)
    ensures var (rIn, rOut) := Orient(p, t).value;
            QuoteCurve(QuoteWith(d), p, t)(x) == PoolCurve(rIn, rOut, p.feeBps)(x)
  {
  }

  lemma SameGains(f: Curve, g: Curve, chunk: int, e: int)
    requires forall x :: f(x) == g(x)
    requires NearConcave(g, chunk, e)
    ensures NearConcave(f, chunk, e)
  {
    forall j, k | 0 <= j <= k ensures ChunkGain(f, chunk, k) <= ChunkGain(f, chunk, j) + e {
      assert ChunkGain(f, chunk, k) == ChunkGain(g, chunk, k) && ChunkGain(f, chunk, j) == ChunkGain(g, chunk, j);
    }
  }

  lemma LooserSlack(f: Curve, chunk: int, e: int, e': int)
    requires NearConcave(f, chunk, e) && e <= e'
    ensures NearConcave(f, chunk, e')
  {
  }

  /** Chunk gains fall up to the pool's rounding, whichever way it is priced. */
  lemma PoolGainsFall(d: Doubles, p: Pool, t: Mint, chunk: int, e: int)
    requires 0 < chunk && RoundsWithin(p, t, e)
    ensures NearConcave(QuoteCurve(QuoteWith(d), p, t), chunk, e)
  {
    var f := QuoteCurve(QuoteWith(d), p, t);
    if IsTickPool(p) {
      var g := ClmmCurve(p.clmm.value, p.feeBps, t == p.tokenA);
      ClmmIsNearConcave(p.clmm.value, p.feeBps, t == p.tokenA, chunk, e);
      forall x ensures f(x) == g(x) { QuoteOfTickPool(d, p, t, x); }
      SameGains(f, g, chunk, e);
    } else {
      var (rIn, rOut) := Orient(p, t).value;
      var g := PoolCurve(rIn, rOut, p.feeBps);
      PoolIsNearConcave(chunk, rIn, rOut, p.feeBps);
      LooserSlack(g, chunk, Slack(rIn, rOut), e);
      forall x ensures f(x) == g(x) { QuoteOfProductPool(d, p, t, x); }
      SameGains(f, g, chunk, e);
    }
  }

  /** And the pool is never paid less for more. */
  lemma PoolRises(d: Doubles, p: Pool, t: Mint, x: int, y: int, e: int)
    requires x <= y && RoundsWithin(p, t, e)
    ensures QuoteCurve(QuoteWith(d), p, t)(x) <= QuoteCurve(QuoteWith(d), p, t)(y)
  {
    ExactQuotesRise(d, p, t, x, y);
  }

  lemma PoolIsSuitable(d: Doubles, p: Pool, t: Mint, chunk: int, e: int)
    requires 0 < chunk && RoundsWithin(p, t, e)
    ensures SuitablePool(QuoteWith(d), p, t, chunk, e) && AscendingPool(QuoteWith(d), p, t)
  {
    forall x, y | 0 <= x <= y ensures QuoteWith(d)(p, t, x) <= QuoteWith(d)(p, t, y) {
      PoolRises(d, p, t, x, y, e);
    }
    PoolGainsFall(d, p, t, chunk, e);
    forall k | 0 <= k ensures 0 <= ChunkGain(QuoteCurve(QuoteWith(d), p, t), chunk, k) {
      MulMono(k, k + 1, chunk);
      PoolRises(d, p, t, k * chunk, (k + 1) * chunk, e);
    }
  }

  /**
   * A step over constant-product and concentrated pools, mixed in any way: it pays at least every division of the
   * whole chunks of its input among the `n` best ranked pools, up to `e` per chunk, where `e` bounds their rounding.
   */
  lemma StepNearOptimalOnPools(d: Doubles, pools: seq<Pool>, tokenIn: Mint, tokenOut: Mint, amountIn: int,
                               opts: RouteOptions, s: RouteStep, n: int, chunk: int, e: int)
    returns (ranked: seq<Pool>)
    requires IsStep(QuoteWith(d), pools, tokenIn, tokenOut, amountIn, opts, s) && 0 <= e
    requires Considered(opts, |pools|, n)
    requires 0 < opts.splitGranularity <= amountIn && chunk == amountIn / opts.splitGranularity
    requires forall p :: p in pools ==> RoundsWithin(p, tokenIn, e)
    ensures multiset(ranked) == multiset(pools) && 1 <= n <= |ranked|
    ensures forall i, j :: 0 <= i < j < |ranked| ==>
              QuoteWith(d)(ranked[i], tokenIn, amountIn) >= QuoteWith(d)(ranked[j], tokenIn, amountIn)
    ensures NoDivisionBeats(QuoteWith(d), ranked[..n], tokenIn, chunk, amountIn / chunk, e, s.amountOut)
  {
    FloorGalois(amountIn, opts.splitGranularity, 1);
    forall p | p in pools
      ensures SuitablePool(QuoteWith(d), p, tokenIn, chunk, e) && AscendingPool(QuoteWith(d), p, tokenIn)
    {
      PoolIsSuitable(d, p, tokenIn, chunk, e);
    }
    ranked := StepNearOptimal(QuoteWith(d), pools, tokenIn, tokenOut, amountIn, opts, s, n, chunk, e);
  }

  /** So is the route that is found, against every division among the direct pools. */
  lemma RouteNearOptimalOnPools(d: Doubles, pools: seq<Pool>, a: Mint, b: Mint, amountIn: int, opts: RouteOptions,
                                r: Option<Route>, n: int, chunk: int, e: int) returns (ranked: seq<Pool>)
    requires BestRoute(QuoteWith(d), pools, a, b, amountIn, opts, r) && DirectPools(pools, a, b) != [] && 0 <= e
    requires Considered(opts, |DirectPools(pools, a, b)|, n)
    requires 0 < opts.splitGranularity <= amountIn && chunk == amountIn / opts.splitGranularity
    requires forall p :: p in DirectPools(pools, a, b) ==> RoundsWithin(p, a, e)
    ensures r.Some? && multiset(ranked) == multiset(DirectPools(pools, a, b)) && 1 <= n <= |ranked|
    ensures forall i, j :: 0 <= i < j < |ranked| ==>
              QuoteWith(d)(ranked[i], a, amountIn) >= QuoteWith(d)(ranked[j], a, amountIn)
    ensures NoDivisionBeats(QuoteWith(d), ranked[..n], a, chunk, amountIn / chunk, e, r.value.amountOut)
  {
    FloorGalois(amountIn, opts.splitGranularity, 1);
    forall p | p in DirectPools(pools, a, b)
      ensures SuitablePool(QuoteWith(d), p, a, chunk, e) && AscendingPool(QuoteWith(d), p, a)
    {
      PoolIsSuitable(d, p, a, chunk, e);
    }
    ranked := RouteNearOptimal(QuoteWith(d), pools, a, b, amountIn, opts, r, n, chunk, e);
  }
}
