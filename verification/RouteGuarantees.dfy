/** What follows for whole routes: conservation, length, and how close a split is to the best one. */
module RouteGuarantees {
  import opened Common
  import opened Arithmetic
  import opened WaterFill
  import opened Dlmm
  import opened Pricing
  import opened PoolGraphs
  import opened Router

  /** With the default options a route has between one and six hops. */
  lemma {:induction false} DefaultRoutesAreShort(q: Quoter, pools: seq<Pool>, a: Mint, b: Mint, amountIn: int, r: Route)
    requires ZeroAtZero(q) && IsRoute(q, pools, a, b, amountIn, DEFAULTS, r)
    ensures 1 <= HopCount(r.steps) <= 6
  {
    var s := r.steps;
    RouteIsBounded(q, pools, a, b, amountIn, DEFAULTS, r);
    if |s| == 2 {
      assert HopCount(s[1..]) == |s[1].hops|;
    }
  }

  lemma StepIsBounded(q: Quoter, pools: seq<Pool>, a: Mint, b: Mint, amountIn: int, opts: RouteOptions, s: RouteStep)
    requires ZeroAtZero(q) && IsGraphStep(q, pools, a, b, amountIn, opts, s)
    ensures 1 <= |s.hops| <= Max(1, opts.maxSplits)
  {
    StepsAreGood(q, DirectPools(pools, a, b), a, b, amountIn, opts, s);
  }

  /** The options bound the steps of a route, and the hops of each of them. */
  lemma {:induction false} RouteIsBounded(q: Quoter, pools: seq<Pool>, a: Mint, b: Mint, amountIn: int,
                                          opts: RouteOptions, r: Route)
    requires ZeroAtZero(q) && IsRoute(q, pools, a, b, amountIn, opts, r)
    ensures |r.steps| == 1 || (|r.steps| == 2 && opts.maxHops >= 2)
    ensures forall i :: 0 <= i < |r.steps| ==> 1 <= |r.steps[i].hops| <= Max(1, opts.maxSplits)
  {
    if |r.steps| == 1 {
      StepIsBounded(q, pools, a, b, amountIn, opts, r.steps[0]);
    } else {
      ChainIsBounded(q, pools, a, b, amountIn, opts, r.steps);
    }
  }

  lemma ChainIsBounded(q: Quoter, pools: seq<Pool>, a: Mint, b: Mint, amountIn: int, opts: RouteOptions,
                       s: seq<RouteStep>)
    requires ZeroAtZero(q) && |s| == 2 && IsGraphStep(q, pools, a, s[0].tokenOut, amountIn, opts, s[0])
    requires IsGraphStep(q, pools, s[0].tokenOut, b, s[0].amountOut, opts, s[1])
    ensures forall i :: 0 <= i < 2 ==> 1 <= |s[i].hops| <= Max(1, opts.maxSplits)
  {
    StepIsBounded(q, pools, a, s[0].tokenOut, amountIn, opts, s[0]);
    StepIsBounded(q, pools, s[0].tokenOut, b, s[0].amountOut, opts, s[1]);
  }

  /**
   * No profitable pair of pools beats the route, unless the second one is a discrete-bin pool that overpays
   * before a bin is drained.
   */
  lemma SoundPairsAreBeaten(d: Doubles, pools: seq<Pool>, a: Mint, mid: Mint, b: Mint, amountIn: int,
                            opts: RouteOptions, r: Option<Route>, p1: Pool, p2: Pool)
    requires RoundsMonotonically(d) && BestRoute(QuoteWith(d), pools, a, b, amountIn, opts, r)
    requires opts.maxHops >= 2 && 0 < amountIn && mid !in {a, b}
    requires Offers(pools, p1, a, mid) && Offers(pools, p2, mid, b) && SoundPool(d, p2, mid)
    ensures var out := QuoteWith(d)(p2, mid, QuoteWith(d)(p1, a, amountIn));
            0 <= out && (0 < out ==> r.Some? && out <= r.value.amountOut)
  {
    QuotesAreZeroAtZero(d);
    BestIsUnbeaten(QuoteWith(d), pools, a, b, amountIn, opts, r);
    QuotesAreMonotoneIff(d, p2, mid);
    QuotesAreNonNegative(d, p2, mid, QuoteWith(d)(p1, a, amountIn));
  }

  function HopCount(steps: seq<RouteStep>): nat {
    if steps == [] then 0 else |steps[0].hops| + HopCount(steps[1..])
  }

  /** Distinct pools stay distinct between two different tokens. */
  lemma DirectStaysDistinct(pools: seq<Pool>, a: Mint, b: Mint)
    requires Distinct(pools) && a != b
    ensures Distinct(DirectPools(pools, a, b))
  {
    forall p ensures multiset(DirectPools(pools, a, b))[p] <= 1 {
      DirectCount(pools, a, b, p);
    }
  }

  /** The hops of a step carry exactly its input and exactly its output. */
  ghost predicate Conserves(s: RouteStep) {
    SumIn(s.hops) == s.amountIn && SumOut(s.hops) == s.amountOut
  }

  lemma {:induction false} GraphStepConserves(q: Quoter, pools: seq<Pool>, a: Mint, b: Mint, amountIn: int,
                                              opts: RouteOptions, s: RouteStep)
    requires ZeroAtZero(q) && Distinct(pools) && a != b && IsGraphStep(q, pools, a, b, amountIn, opts, s)
    ensures Conserves(s) && s.tokenIn == a && s.tokenOut == b && s.amountIn == amountIn
  {
    DirectStaysDistinct(pools, a, b);
    StepsAreGood(q, DirectPools(pools, a, b), a, b, amountIn, opts, s);
  }

  /** The steps lead from `a` to `b`, each starting with what the one before delivers, and each conserves. */
  ghost predicate ConservesFrom(steps: seq<RouteStep>, a: Mint, amountIn: int, b: Mint, amountOut: int) {
    if steps == [] then a == b && amountIn == amountOut
    else
      && steps[0].tokenIn == a && steps[0].amountIn == amountIn && Conserves(steps[0])
      && ConservesFrom(steps[1..], steps[0].tokenOut, steps[0].amountOut, b, amountOut)
  }

  /** Over distinct pools, a route between two different tokens neither loses nor invents anything on the way. */
  lemma {:induction false} RouteConserves(q: Quoter, pools: seq<Pool>, a: Mint, b: Mint, amountIn: int,
                                          opts: RouteOptions, r: Route)
    requires ZeroAtZero(q) && Distinct(pools) && a != b && IsRoute(q, pools, a, b, amountIn, opts, r)
    ensures ConservesFrom(r.steps, a, amountIn, b, r.amountOut)
  {
    if |r.steps| == 1 {
      DirectRouteConserves(q, pools, a, b, amountIn, opts, r);
    } else {
      TwoHopRouteConserves(q, pools, a, b, amountIn, opts, r);
    }
  }

  lemma {:induction false} DirectRouteConserves(q: Quoter, pools: seq<Pool>, a: Mint, b: Mint, amountIn: int,
                                                opts: RouteOptions, r: Route)
    requires ZeroAtZero(q) && Distinct(pools) && a != b && IsRoute(q, pools, a, b, amountIn, opts, r)
    requires |r.steps| == 1
    ensures ConservesFrom(r.steps, a, amountIn, b, r.amountOut)
  {
    GraphStepConserves(q, pools, a, b, amountIn, opts, r.steps[0]);
    OneStepChain(r.steps, a, amountIn, b);
  }

  lemma {:induction false} TwoHopRouteConserves(q: Quoter, pools: seq<Pool>, a: Mint, b: Mint, amountIn: int,
                                                opts: RouteOptions, r: Route)
    requires ZeroAtZero(q) && Distinct(pools) && a != b && IsRoute(q, pools, a, b, amountIn, opts, r)
    requires |r.steps| == 2
    ensures ConservesFrom(r.steps, a, amountIn, b, r.amountOut)
  {
    var mid := r.steps[0].tokenOut;
    GraphStepConserves(q, pools, a, mid, amountIn, opts, r.steps[0]);
    GraphStepConserves(q, pools, mid, b, r.steps[0].amountOut, opts, r.steps[1]);
    TwoStepChain(r.steps, a, amountIn, b);
  }

  lemma {:induction false} OneStepChain(steps: seq<RouteStep>, a: Mint, amountIn: int, b: Mint)
    requires |steps| == 1 && Conserves(steps[0])
    requires steps[0].tokenIn == a && steps[0].amountIn == amountIn && steps[0].tokenOut == b
    ensures ConservesFrom(steps, a, amountIn, b, steps[0].amountOut)
  {
  }

  lemma {:induction false} TwoStepChain(steps: seq<RouteStep>, a: Mint, amountIn: int, b: Mint)
    requires |steps| == 2 && Conserves(steps[0]) && Conserves(steps[1])
    requires steps[0].tokenIn == a && steps[0].amountIn == amountIn
    requires steps[1].tokenIn == steps[0].tokenOut && steps[1].amountIn == steps[0].amountOut && steps[1].tokenOut == b
    ensures ConservesFrom(steps, a, amountIn, b, steps[1].amountOut)
  {
  }

  // ---------------------------------------------------------------- how close a step is to the best one

  /** The pool's chunk gains never fall below zero, and fall from chunk to chunk up to the slack `e`. */
  ghost predicate SuitablePool(q: Quoter, p: Pool, t: Mint, chunk: int, e: int) {
    Rising(QuoteCurve(q, p, t), chunk) && NearConcave(QuoteCurve(q, p, t), chunk, e)
  }

  /** The pool never pays less for more. */
  ghost predicate AscendingPool(q: Quoter, p: Pool, t: Mint) {
    forall x, y :: 0 <= x <= y ==> q(p, t, x) <= q(p, t, y)
  }

  /** `paid` is, up to `e` per chunk, at least what every division of the chunks among these pools pays. */
  ghost predicate NoDivisionBeats(q: Quoter, chosen: seq<Pool>, t: Mint, chunk: int, chunks: int, e: int, paid: int) {
    forall units :: |units| == |chosen| && NonNegative(units) && Sum(units) == chunks ==>
      Total(Curves(q, chosen, t), Chunks(units, chunk)) <= paid + e * chunks
  }

  /** How many pools a step considers. */
  predicate Considered(opts: RouteOptions, pools: int, n: int) {
    n == if opts.maxSplits <= 1 || pools <= 1 then 1 else if opts.maxSplits < pools then opts.maxSplits else pools
  }

  /**
   * The step pays at least every division of the whole chunks of its input among the first `maxSplits` pools of a
   * ranking by their quotes, up to `e` per chunk, where `e` is how far the pools' chunk gains are from falling; with
   * `e == 0` it is optimal.
   */
  lemma StepNearOptimal(q: Quoter, pools: seq<Pool>, tokenIn: Mint, tokenOut: Mint, amountIn: int, opts: RouteOptions,
                        s: RouteStep, n: int, chunk: int, e: int) returns (ranked: seq<Pool>)
    requires IsStep(q, pools, tokenIn, tokenOut, amountIn, opts, s) && 0 <= e && Considered(opts, |pools|, n)
    requires 0 < opts.splitGranularity <= amountIn && chunk == amountIn / opts.splitGranularity
    requires forall p :: p in pools ==> SuitablePool(q, p, tokenIn, chunk, e)
    requires amountIn % chunk == 0 || forall p :: p in pools ==> AscendingPool(q, p, tokenIn)
    ensures multiset(ranked) == multiset(pools) && 1 <= n <= |ranked|
    ensures forall i, j :: 0 <= i < j < |ranked| ==> q(ranked[i], tokenIn, amountIn) >= q(ranked[j], tokenIn, amountIn)
    ensures NoDivisionBeats(q, ranked[..n], tokenIn, chunk, amountIn / chunk, e, s.amountOut)
  {
    FloorGalois(amountIn, opts.splitGranularity, 1);
    ranked := RankingOf(q, pools, tokenIn, tokenOut, amountIn, opts, s, n);
    CandidatesCome(pools, ranked, ranked[..n]);
    ChosenAreSuitable(q, ranked[..n], tokenIn, chunk, e, amountIn % chunk == 0);
    RankedBeatDivisions(q, ranked, ranked[..n], tokenIn, tokenOut, amountIn, opts, chunk, e);
  }

  lemma RankingOf(q: Quoter, pools: seq<Pool>, tokenIn: Mint, tokenOut: Mint, amountIn: int, opts: RouteOptions,
                  s: RouteStep, n: int) returns (ranked: seq<Pool>)
    requires IsStep(q, pools, tokenIn, tokenOut, amountIn, opts, s) && Considered(opts, |pools|, n)
    ensures ranked != [] && Ranking(q, tokenIn, amountIn, pools, ranked) && 1 <= n <= |ranked|
    ensures s == StepFrom(q, ranked, tokenIn, tokenOut, amountIn, opts)
    ensures Candidates(ranked, opts.maxSplits) == ranked[..n]
  {
    ranked :| ranked != [] && Ranking(q, tokenIn, amountIn, pools, ranked)
              && s == StepFrom(q, ranked, tokenIn, tokenOut, amountIn, opts);
    assert |multiset(ranked)| == |multiset(pools)|;
  }

  lemma {:induction false} ChosenAreSuitable(q: Quoter, chosen: seq<Pool>, t: Mint, chunk: int, e: int, divides: bool)
    requires forall p :: p in chosen ==> SuitablePool(q, p, t, chunk, e)
    requires divides || forall p :: p in chosen ==> AscendingPool(q, p, t)
    ensures Suitable(Curves(q, chosen, t), chunk, e) && (divides || Ascending(Curves(q, chosen, t)))
  {
    var curves := Curves(q, chosen, t);
    forall i | 0 <= i < |curves| ensures Rising(curves[i], chunk) && NearConcave(curves[i], chunk, e) {
      assert SuitablePool(q, chosen[i], t, chunk, e);
    }
    if !divides {
      forall i, x, y | 0 <= i < |curves| && 0 <= x <= y ensures curves[i](x) <= curves[i](y) {
        assert AscendingPool(q, chosen[i], t);
      }
    }
  }

  lemma {:induction false} RankedBeatDivisions(q: Quoter, ranked: seq<Pool>, c: seq<Pool>, tokenIn: Mint,
                                               tokenOut: Mint, amountIn: int, opts: RouteOptions, chunk: int, e: int)
    requires ranked != [] && 0 < amountIn && 0 <= e && c == Candidates(ranked, opts.maxSplits)
    requires chunk == ChunkSize(amountIn, opts.splitGranularity) && 0 < chunk
    requires Suitable(Curves(q, c, tokenIn), chunk, e) && (amountIn % chunk == 0 || Ascending(Curves(q, c, tokenIn)))
    ensures NoDivisionBeats(q, c, tokenIn, chunk, amountIn / chunk, e,
                            StepFrom(q, ranked, tokenIn, tokenOut, amountIn, opts).amountOut)
  {
    forall units | |units| == |c| && NonNegative(units) && Sum(units) == amountIn / chunk
      ensures Total(Curves(q, c, tokenIn), Chunks(units, chunk))
           <= StepFrom(q, ranked, tokenIn, tokenOut, amountIn, opts).amountOut + e * (amountIn / chunk)
    {
      RankedNearOptimal(q, ranked, c, tokenIn, tokenOut, amountIn, opts, chunk, e, units);
    }
  }

  lemma {:induction false} StepTakesTheBetter(q: Quoter, ranked: seq<Pool>, c: seq<Pool>, tokenIn: Mint, tokenOut: Mint,
                                              amountIn: int, opts: RouteOptions, chunk: int, paid: int)
    requires ranked != [] && c == Candidates(ranked, opts.maxSplits)
    requires chunk == ChunkSize(amountIn, opts.splitGranularity) && 0 < chunk
    requires paid == StepFrom(q, ranked, tokenIn, tokenOut, amountIn, opts).amountOut
    ensures 1 < |c| ==>
              Total(Curves(q, c, tokenIn), Distribute(Curves(q, c, tokenIn), Zeros(|c|), amountIn, chunk)) <= paid
    ensures |c| == 1 ==> q(c[0], tokenIn, amountIn) <= paid
  {
  }

  lemma {:induction false} RankedNearOptimal(q: Quoter, ranked: seq<Pool>, c: seq<Pool>, tokenIn: Mint, tokenOut: Mint,
                                             amountIn: int, opts: RouteOptions, chunk: int, e: int, units: seq<int>)
    requires ranked != [] && 0 < amountIn && 0 <= e && c == Candidates(ranked, opts.maxSplits)
    requires chunk == ChunkSize(amountIn, opts.splitGranularity) && 0 < chunk
    requires Suitable(Curves(q, c, tokenIn), chunk, e) && (amountIn % chunk == 0 || Ascending(Curves(q, c, tokenIn)))
    requires |units| == |c| && NonNegative(units) && Sum(units) == amountIn / chunk
    ensures Total(Curves(q, c, tokenIn), Chunks(units, chunk))
         <= StepFrom(q, ranked, tokenIn, tokenOut, amountIn, opts).amountOut + e * Sum(units)
  {
    var curves := Curves(q, c, tokenIn);
    StepTakesTheBetter(q, ranked, c, tokenIn, tokenOut, amountIn, opts, chunk,
                       StepFrom(q, ranked, tokenIn, tokenOut, amountIn, opts).amountOut);
    if |c| > 1 {
      GreedyOnAnyAmount(curves, chunk, amountIn, e, units);
    } else {
      OnePoolTakesAll(curves[0], curves, chunk, amountIn, e, units);
    }
  }

  /** Where there is nothing to split, or only one pool to take, the step pays the best single quote. */
  lemma UnsplitStepPaysBest(q: Quoter, pools: seq<Pool>, a: Mint, b: Mint, amountIn: int, opts: RouteOptions,
                            s: RouteStep)
    requires opts.splitGranularity <= 0 || amountIn < opts.splitGranularity || opts.maxSplits <= 1 || |pools| == 1
    requires IsStep(q, pools, a, b, amountIn, opts, s)
    ensures exists p :: p in pools && s.amountOut == q(p, a, amountIn)
    ensures forall p :: p in pools ==> q(p, a, amountIn) <= s.amountOut
  {
    var ranked :| ranked != [] && Ranking(q, a, amountIn, pools, ranked)
      && s == StepFrom(q, ranked, a, b, amountIn, opts);
    assert |multiset(ranked)| == |multiset(pools)|;
    if 0 < opts.splitGranularity {
      FloorGalois(amountIn, opts.splitGranularity, 1);
    }
    assert !StepSplits(q, ranked, a, amountIn, opts);
    assert ranked[0] in multiset(ranked);
    forall p | p in pools ensures q(p, a, amountIn) <= s.amountOut {
      BestSingleFirst(q, pools, ranked, a, amountIn, p);
    }
  }

  /** The route that is found pays at least every such division of its input among the direct pools. */
  lemma RouteNearOptimal(q: Quoter, pools: seq<Pool>, a: Mint, b: Mint, amountIn: int, opts: RouteOptions,
                         r: Option<Route>, n: int, chunk: int, e: int) returns (ranked: seq<Pool>)
    requires BestRoute(q, pools, a, b, amountIn, opts, r) && DirectPools(pools, a, b) != [] && 0 <= e
    requires Considered(opts, |DirectPools(pools, a, b)|, n)
    requires 0 < opts.splitGranularity <= amountIn && chunk == amountIn / opts.splitGranularity
    requires forall p :: p in DirectPools(pools, a, b) ==> SuitablePool(q, p, a, chunk, e) && AscendingPool(q, p, a)
    ensures r.Some? && multiset(ranked) == multiset(DirectPools(pools, a, b)) && 1 <= n <= |ranked|
    ensures forall i, j :: 0 <= i < j < |ranked| ==> q(ranked[i], a, amountIn) >= q(ranked[j], a, amountIn)
    ensures NoDivisionBeats(q, ranked[..n], a, chunk, amountIn / chunk, e, r.value.amountOut)
  {
    var s := DirectStepMatched(q, pools, a, b, amountIn, opts, r);
    ranked := StepNearOptimal(q, DirectPools(pools, a, b), a, b, amountIn, opts, s, n, chunk, e);
    PayingMore(q, ranked[..n], a, chunk, amountIn / chunk, e, s.amountOut, r.value.amountOut);
  }

  lemma DirectStepMatched(q: Quoter, pools: seq<Pool>, a: Mint, b: Mint, amountIn: int, opts: RouteOptions,
                          r: Option<Route>) returns (s: RouteStep)
    requires CoversDirect(q, pools, a, b, amountIn, opts, Found(r)) && DirectPools(pools, a, b) != [] && 0 < amountIn
    ensures IsStep(q, DirectPools(pools, a, b), a, b, amountIn, opts, s)
    ensures r.Some? && s.amountOut <= r.value.amountOut
  {
    s :| IsGraphStep(q, pools, a, b, amountIn, opts, s) && Reached(Found(r), s.amountOut);
  }

  lemma PayingMore(q: Quoter, chosen: seq<Pool>, t: Mint, chunk: int, chunks: int, e: int, paid: int, more: int)
    requires NoDivisionBeats(q, chosen, t, chunk, chunks, e, paid) && paid <= more
    ensures NoDivisionBeats(q, chosen, t, chunk, chunks, e, more)
  {
  }

  /** A single curve pays for the whole amount at least what it pays for the whole chunks in it. */
  lemma {:induction false} OnePoolTakesAll(f: Curve, curves: seq<Curve>, chunk: int, amountIn: int, e: int,
                                           other: seq<int>)
    requires curves == [f] && |other| == 1 && 0 < chunk && 0 <= amountIn && 0 <= e
    requires NonNegative(other) && Sum(other) == amountIn / chunk && (amountIn % chunk == 0 || Ascending(curves))
    ensures Total(curves, Chunks(other, chunk)) <= f(amountIn) + e * Sum(other)
  {
    var n := amountIn / chunk;
    assert Sum(other[1..]) == 0 && Sum(other) == other[0] == n;
    assert Total(curves[1..], Chunks(other, chunk)[1..]) == 0;
    FloorBounds(amountIn, chunk);
    MulMono(0, n, chunk);
    MulMono(0, e, n);
    if amountIn % chunk != 0 {
      assert curves[0](n * chunk) <= curves[0](amountIn);
    } else {
      assert amountIn == chunk * n;
    }
  }
}
