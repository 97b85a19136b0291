/** The routing engine: single pools, water-filled splits, and two-hop routes. */
module Router {
  import opened Common
  import opened Arithmetic
  import opened WaterFill
  import opened Pricing
  import opened PoolGraphs

  /** A zero granularity makes the code divide by zero. */
  datatype RawOptions = RawOptions(maxSplits: int, maxHops: int, splitGranularity: int)

  type RouteOptions = o: RawOptions | o.splitGranularity != 0 witness RawOptions(3, 2, 100)

  const DEFAULTS: RouteOptions := RawOptions(3, 2, 100)

  datatype RouteHop = RouteHop(pool: Pool, tokenIn: Mint, tokenOut: Mint, amountIn: int, amountOut: int)

  datatype RouteStep = RouteStep(tokenIn: Mint, tokenOut: Mint, amountIn: int, amountOut: int, hops: seq<RouteHop>)

  datatype Route = Route(tokenIn: Mint, tokenOut: Mint, amountIn: int, amountOut: int, steps: seq<RouteStep>)

  // ---------------------------------------------------------------- one step, from ranked pools

  function QuoteCurve(q: Quoter, p: Pool, t: Mint): Curve {
    x => q(p, t, x)
  }

  function Curves(q: Quoter, ps: seq<Pool>, t: Mint): (c: seq<Curve>)
    ensures |c| == |ps|
    ensures forall i :: 0 <= i < |ps| ==> c[i] == QuoteCurve(q, ps[i], t)
  {
    if ps == [] then [] else [QuoteCurve(q, ps[0], t)] + Curves(q, ps[1..], t)
  }

  function Max(a: int, b: int): int {
    if a > b then a else b
  }

  /** BigInt `amountIn / granularity`; a negative granularity gives no positive chunk. */
  function ChunkSize(amountIn: int, granularity: int): (chunk: int)
    ensures 0 < granularity ==> chunk * granularity <= amountIn < (chunk + 1) * granularity
    ensures granularity <= 0 ==> chunk == 0
  {
    if granularity > 0 then FloorBounds(amountIn, granularity); amountIn / granularity else 0
  }

  /** Everything to the candidates equal to the first one. */
  function AllToFirst(candidates: seq<Pool>, amountIn: int): seq<int>
    requires candidates != []
  {
    seq(|candidates|, i requires 0 <= i < |candidates| => if candidates[i] == candidates[0] then amountIn else 0)
  }

  /** The greedy split of the amount over the candidates. */
  function GreedySplit(q: Quoter, candidates: seq<Pool>, t: Mint, amountIn: int, chunk: int): (alloc: seq<int>)
    requires candidates != [] && 0 < chunk
    ensures |alloc| == |candidates|
  {
    Distribute(Curves(q, candidates, t), Zeros(|candidates|), amountIn, chunk)
  }

  /** The split is used only if it beats the best single pool. */
  predicate UsesSplit(q: Quoter, candidates: seq<Pool>, t: Mint, amountIn: int, chunk: int)
    requires candidates != []
  {
    && chunk > 0 && |candidates| != 1
    && Total(Curves(q, candidates, t), GreedySplit(q, candidates, t, amountIn, chunk)) > q(candidates[0], t, amountIn)
  }

  /** The hops of the candidates that receive something. */
  function Hops(q: Quoter, candidates: seq<Pool>, alloc: seq<int>, tokenIn: Mint, tokenOut: Mint): seq<RouteHop>
    requires |alloc| == |candidates|
  {
    if candidates == [] then []
    else
      (if alloc[0] > 0
       then [RouteHop(candidates[0], tokenIn, tokenOut, alloc[0], q(candidates[0], tokenIn, alloc[0]))]
       else [])
      + Hops(q, candidates[1..], alloc[1..], tokenIn, tokenOut)
  }

  function Candidates(ranked: seq<Pool>, maxSplits: int): (c: seq<Pool>)
    requires ranked != []
    ensures c != [] && c[0] == ranked[0] && c <= ranked
    ensures |c| == if |ranked| <= 1 || maxSplits <= 1 then 1 else if maxSplits < |ranked| then maxSplits else |ranked|
  {
    if Max(1, maxSplits) < |ranked| then ranked[..Max(1, maxSplits)] else ranked
  }

  /** The step `computeStep` builds once the pools are ranked. */
  function StepFrom(q: Quoter, ranked: seq<Pool>, tokenIn: Mint, tokenOut: Mint, amountIn: int,
                    opts: RouteOptions): RouteStep
    requires ranked != []
  {
    var c := Candidates(ranked, opts.maxSplits);
    var chunk := ChunkSize(amountIn, opts.splitGranularity);
    if UsesSplit(q, c, tokenIn, amountIn, chunk) then
      var alloc := GreedySplit(q, c, tokenIn, amountIn, chunk);
      RouteStep(tokenIn, tokenOut, amountIn, Total(Curves(q, c, tokenIn), alloc), Hops(q, c, alloc, tokenIn, tokenOut))
    else
      RouteStep(tokenIn, tokenOut, amountIn, q(c[0], tokenIn, amountIn),
                Hops(q, c, AllToFirst(c, amountIn), tokenIn, tokenOut))
  }

  /** The sort's outcome: best quote first; its comparator leaves the order of ties open. */
  ghost predicate Ranking(q: Quoter, t: Mint, amountIn: int, pools: seq<Pool>, ranked: seq<Pool>) {
    && multiset(ranked) == multiset(pools)
    && Descending(q, t, amountIn, ranked)
  }

  ghost predicate Descending(q: Quoter, t: Mint, amountIn: int, ranked: seq<Pool>) {
    forall i, j :: 0 <= i < j < |ranked| ==> q(ranked[i], t, amountIn) >= q(ranked[j], t, amountIn)
  }

  function InsertRanked(q: Quoter, p: Pool, ranked: seq<Pool>, t: Mint, amountIn: int): seq<Pool> {
    if ranked == [] || q(p, t, amountIn) > q(ranked[0], t, amountIn) then [p] + ranked
    else [ranked[0]] + InsertRanked(q, p, ranked[1..], t, amountIn)
  }

  lemma {:induction false} InsertAdds(q: Quoter, p: Pool, ranked: seq<Pool>, t: Mint, amountIn: int)
    ensures multiset(InsertRanked(q, p, ranked, t, amountIn)) == multiset(ranked) + multiset{p}
  {
    if ranked == [] || q(p, t, amountIn) > q(ranked[0], t, amountIn) {
    } else {
      InsertAdds(q, p, ranked[1..], t, amountIn);
      assert ranked == [ranked[0]] + ranked[1..];
    }
  }

  lemma {:induction false} InsertKeepsOrder(q: Quoter, p: Pool, ranked: seq<Pool>, t: Mint, amountIn: int)
    requires Descending(q, t, amountIn, ranked)
    ensures Descending(q, t, amountIn, InsertRanked(q, p, ranked, t, amountIn))
  {
    if ranked == [] || q(p, t, amountIn) > q(ranked[0], t, amountIn) {
    } else {
      InsertKeepsOrder(q, p, ranked[1..], t, amountIn);
      InsertAdds(q, p, ranked[1..], t, amountIn);
      var rest := InsertRanked(q, p, ranked[1..], t, amountIn);
      forall k | 0 <= k < |rest| ensures q(ranked[0], t, amountIn) >= q(rest[k], t, amountIn) {
        assert rest[k] in multiset(rest);
        assert rest[k] == p || rest[k] in ranked[1..];
      }
    }
  }

  method Rank(q: Quoter, pools: seq<Pool>, t: Mint, amountIn: int) returns (ranked: seq<Pool>)
    ensures Ranking(q, t, amountIn, pools, ranked)
  {
    ranked := [];
    for i := 0 to |pools|
      invariant Ranking(q, t, amountIn, pools[..i], ranked)
    {
      assert pools[..i + 1] == pools[..i] + [pools[i]];
      InsertKeepsOrder(q, pools[i], ranked, t, amountIn);
      InsertAdds(q, pools[i], ranked, t, amountIn);
      ranked := InsertRanked(q, pools[i], ranked, t, amountIn);
    }
    assert pools[..|pools|] == pools;
  }

  /** `computeStep`. */
  method ComputeStep(q: Quoter, pools: seq<Pool>, tokenIn: Mint, tokenOut: Mint, amountIn: int, opts: RouteOptions)
    returns (step: Option<RouteStep>)
    ensures step.None? <==> pools == [] || amountIn <= 0
    ensures step.Some? ==> IsStep(q, pools, tokenIn, tokenOut, amountIn, opts, step.value)
  {
    if |pools| == 0 || amountIn <= 0 {
      return None;
    }
    var ranked := Rank(q, pools, tokenIn, amountIn);
    assert ranked != [] by {
      assert pools[0] in multiset(ranked);
    }
    var candidates := Candidates(ranked, opts.maxSplits);
    var single := candidates[0];
    var singleOut := q(single, tokenIn, amountIn);
    var chunk := ChunkSize(amountIn, opts.splitGranularity);
    var alloc, out;
    if chunk <= 0 || |candidates| == 1 {
      alloc := AllToFirst(candidates, amountIn);
      out := singleOut;
    } else {
      var rounds;
      alloc, rounds := Split(Curves(q, candidates, tokenIn), amountIn, chunk);
      out := Total(Curves(q, candidates, tokenIn), alloc);
      if out <= singleOut {
        alloc := AllToFirst(candidates, amountIn);
        out := singleOut;
      }
    }
    var s := RouteStep(tokenIn, tokenOut, amountIn, out, Hops(q, candidates, alloc, tokenIn, tokenOut));
    assert s == StepFrom(q, ranked, tokenIn, tokenOut, amountIn, opts);
    step := Some(s);
  }

  /** The step is one that `computeStep` may return for these pools. */
  ghost predicate IsStep(q: Quoter, pools: seq<Pool>, tokenIn: Mint, tokenOut: Mint, amountIn: int, opts: RouteOptions,
                         s: RouteStep)
  {
    && pools != [] && amountIn > 0
    && exists ranked :: ranked != [] && Ranking(q, tokenIn, amountIn, pools, ranked)
                        && s == StepFrom(q, ranked, tokenIn, tokenOut, amountIn, opts)
  }

  // ---------------------------------------------------------------- what a step guarantees

  function SumIn(hops: seq<RouteHop>): int {
    if hops == [] then 0 else hops[0].amountIn + SumIn(hops[1..])
  }

  function SumOut(hops: seq<RouteHop>): int {
    if hops == [] then 0 else hops[0].amountOut + SumOut(hops[1..])
  }

  /** The hops carry the whole allocation and, with nothing quoted for nothing, its whole output. */
  lemma {:induction false} HopSums(q: Quoter, candidates: seq<Pool>, alloc: seq<int>, tokenIn: Mint, tokenOut: Mint)
    requires |alloc| == |candidates| && ZeroAtZero(q) && forall i :: 0 <= i < |alloc| ==> 0 <= alloc[i]
    ensures var hops := Hops(q, candidates, alloc, tokenIn, tokenOut);
            SumIn(hops) == Sum(alloc) && SumOut(hops) == Total(Curves(q, candidates, tokenIn), alloc)
  {
    if candidates != [] {
      HopSums(q, candidates[1..], alloc[1..], tokenIn, tokenOut);
      var rest := Hops(q, candidates[1..], alloc[1..], tokenIn, tokenOut);
      var hops := Hops(q, candidates, alloc, tokenIn, tokenOut);
      if alloc[0] <= 0 {
        assert hops == rest;
      }
    }
  }

  /** Each hop is a candidate with a positive input, quoted at that input. */
  lemma {:induction false} HopsAreQuotes(q: Quoter, candidates: seq<Pool>, alloc: seq<int>, tokenIn: Mint,
                                         tokenOut: Mint)
    requires |alloc| == |candidates|
    ensures var hops := Hops(q, candidates, alloc, tokenIn, tokenOut);
            && |hops| <= |candidates|
            && (forall h :: h in hops ==> h.pool in candidates && h.amountIn > 0 && h.tokenIn == tokenIn
                                          && h.tokenOut == tokenOut && h.amountOut == q(h.pool, tokenIn, h.amountIn))
  {
    if candidates != [] {
      HopsAreQuotes(q, candidates[1..], alloc[1..], tokenIn, tokenOut);
    }
  }

  /** Giving everything to one pool gives it to each of its copies. */
  lemma {:induction false} CopiesOfFirst(candidates: seq<Pool>, p: Pool, alloc: seq<int>, amountIn: int, f: Curve,
                                         curves: seq<Curve>)
    requires |alloc| == |candidates| == |curves| && f(0) == 0
    requires forall i :: 0 <= i < |alloc| ==> alloc[i] == if candidates[i] == p then amountIn else 0
    requires forall i :: 0 <= i < |curves| ==> curves[i](0) == 0 && (candidates[i] == p ==> curves[i] == f)
    ensures Sum(alloc) == amountIn * multiset(candidates)[p]
    ensures Total(curves, alloc) == f(amountIn) * multiset(candidates)[p]
  {
    if candidates != [] {
      CopiesOfFirst(candidates[1..], p, alloc[1..], amountIn, f, curves[1..]);
      assert candidates == [candidates[0]] + candidates[1..];
      var n := multiset(candidates[1..])[p];
      assert multiset(candidates)[p] == n + (if candidates[0] == p then 1 else 0);
      OneMore(amountIn, n);
      OneMore(f(amountIn), n);
    }
  }

  /** Copies of the best single pool among the candidates. */
  function Copies(ranked: seq<Pool>, opts: RouteOptions): nat
    requires ranked != []
  {
    var c := Candidates(ranked, opts.maxSplits);
    multiset(c)[c[0]]
  }

  predicate StepSplits(q: Quoter, ranked: seq<Pool>, t: Mint, amountIn: int, opts: RouteOptions)
    requires ranked != []
  {
    UsesSplit(q, Candidates(ranked, opts.maxSplits), t, amountIn, ChunkSize(amountIn, opts.splitGranularity))
  }

  /** A split conserves its input and its output; a single-pool step repeats them once per copy of the pool. */
  lemma {:induction false} StepSums(q: Quoter, ranked: seq<Pool>, tokenIn: Mint, tokenOut: Mint, amountIn: int,
                                    opts: RouteOptions)
    requires ranked != [] && ZeroAtZero(q) && 0 < amountIn
    ensures var s := StepFrom(q, ranked, tokenIn, tokenOut, amountIn, opts);
            var n := if StepSplits(q, ranked, tokenIn, amountIn, opts) then 1 else Copies(ranked, opts);
            SumIn(s.hops) == amountIn * n && SumOut(s.hops) == s.amountOut * n
  {
    var c := Candidates(ranked, opts.maxSplits);
    var curves := Curves(q, c, tokenIn);
    if StepSplits(q, ranked, tokenIn, amountIn, opts) {
      var chunk := ChunkSize(amountIn, opts.splitGranularity);
      DistributeConserves(curves, Zeros(|c|), amountIn, chunk);
      SumZeros(|c|);
      HopSums(q, c, GreedySplit(q, c, tokenIn, amountIn, chunk), tokenIn, tokenOut);
    } else {
      var alloc := AllToFirst(c, amountIn);
      HopSums(q, c, alloc, tokenIn, tokenOut);
      CopiesOfFirst(c, c[0], alloc, amountIn, QuoteCurve(q, c[0], tokenIn), curves);
    }
  }

  /** The hops of a step add up to it exactly when it splits or its pool is listed once. */
  lemma StepConservesIff(q: Quoter, ranked: seq<Pool>, tokenIn: Mint, tokenOut: Mint, amountIn: int, opts: RouteOptions)
    requires ranked != [] && ZeroAtZero(q) && 0 < amountIn
    ensures var s := StepFrom(q, ranked, tokenIn, tokenOut, amountIn, opts);
            SumIn(s.hops) == amountIn <==> StepSplits(q, ranked, tokenIn, amountIn, opts) || Copies(ranked, opts) == 1
  {
    StepSums(q, ranked, tokenIn, tokenOut, amountIn, opts);
  }

  ghost predicate Distinct(pools: seq<Pool>) {
    forall p :: multiset(pools)[p] <= 1
  }

  /** Everything a caller may rely on in a step over distinct pools. */
  ghost predicate GoodStep(q: Quoter, pools: seq<Pool>, opts: RouteOptions, s: RouteStep) {
    && (forall p :: p in pools ==> q(p, s.tokenIn, s.amountIn) <= s.amountOut)
    && (forall h :: h in s.hops ==> h.pool in pools && h.amountIn > 0 && h.tokenIn == s.tokenIn
                                    && h.tokenOut == s.tokenOut && h.amountOut == q(h.pool, s.tokenIn, h.amountIn))
    && 1 <= |s.hops| <= Max(1, opts.maxSplits)
    && (Distinct(pools) && 1 < |s.hops| ==> forall p :: p in pools ==> q(p, s.tokenIn, s.amountIn) < s.amountOut)
    && (Distinct(pools) ==> SumIn(s.hops) == s.amountIn && SumOut(s.hops) == s.amountOut)
  }

  /** One hop for each copy of the pool that takes everything. */
  lemma {:induction false} HopsToOne(q: Quoter, candidates: seq<Pool>, p: Pool, alloc: seq<int>, amountIn: int,
                                     tokenIn: Mint, tokenOut: Mint)
    requires |alloc| == |candidates| && 0 < amountIn
    requires forall i :: 0 <= i < |alloc| ==> alloc[i] == if candidates[i] == p then amountIn else 0
    ensures |Hops(q, candidates, alloc, tokenIn, tokenOut)| == multiset(candidates)[p]
  {
    if candidates != [] {
      HopsToOne(q, candidates[1..], p, alloc[1..], amountIn, tokenIn, tokenOut);
      assert candidates == [candidates[0]] + candidates[1..];
    }
  }

  /** A step is only divided where that pays more than every single pool. */
  lemma SplitsOnlyToGain(q: Quoter, pools: seq<Pool>, ranked: seq<Pool>, tokenIn: Mint, tokenOut: Mint, amountIn: int,
                         opts: RouteOptions)
    requires ranked != [] && Ranking(q, tokenIn, amountIn, pools, ranked) && Distinct(pools) && 0 < amountIn
    ensures var s := StepFrom(q, ranked, tokenIn, tokenOut, amountIn, opts);
            1 < |s.hops| ==> forall p :: p in pools ==> q(p, tokenIn, amountIn) < s.amountOut
  {
    var c := Candidates(ranked, opts.maxSplits);
    if StepSplits(q, ranked, tokenIn, amountIn, opts) {
      forall p | p in pools ensures q(p, tokenIn, amountIn) <= q(c[0], tokenIn, amountIn) {
        BestSingleFirst(q, pools, ranked, tokenIn, amountIn, p);
      }
    } else {
      CandidatesCome(pools, ranked, c);
      HopsToOne(q, c, c[0], AllToFirst(c, amountIn), amountIn, tokenIn, tokenOut);
    }
  }

  /** A step beats every single pool, is made of real quotes, and conserves both amounts. */
  lemma StepsAreGood(q: Quoter, pools: seq<Pool>, tokenIn: Mint, tokenOut: Mint, amountIn: int, opts: RouteOptions,
                     s: RouteStep)
    requires ZeroAtZero(q) && IsStep(q, pools, tokenIn, tokenOut, amountIn, opts, s)
    ensures GoodStep(q, pools, opts, s) && s.tokenIn == tokenIn && s.tokenOut == tokenOut && s.amountIn == amountIn
  {
    var ranked :| ranked != [] && Ranking(q, tokenIn, amountIn, pools, ranked)
                  && s == StepFrom(q, ranked, tokenIn, tokenOut, amountIn, opts);
    StepBeatsSingles(q, pools, ranked, tokenIn, tokenOut, amountIn, opts);
    StepHops(q, ranked, tokenIn, tokenOut, amountIn, opts);
    StepConserves(q, pools, ranked, tokenIn, tokenOut, amountIn, opts);
    if Distinct(pools) {
      SplitsOnlyToGain(q, pools, ranked, tokenIn, tokenOut, amountIn, opts);
    }
  }

  lemma StepBeatsSingles(q: Quoter, pools: seq<Pool>, ranked: seq<Pool>, tokenIn: Mint, tokenOut: Mint, amountIn: int,
                         opts: RouteOptions)
    requires ranked != [] && Ranking(q, tokenIn, amountIn, pools, ranked)
    ensures forall p :: p in pools ==>
              q(p, tokenIn, amountIn) <= StepFrom(q, ranked, tokenIn, tokenOut, amountIn, opts).amountOut
    ensures forall p :: p in Candidates(ranked, opts.maxSplits) ==> p in pools
  {
    forall p | p in pools ensures q(p, tokenIn, amountIn) <= q(ranked[0], tokenIn, amountIn) {
      BestSingleFirst(q, pools, ranked, tokenIn, amountIn, p);
    }
    CandidatesCome(pools, ranked, Candidates(ranked, opts.maxSplits));
  }

  lemma {:induction false} StepConserves(q: Quoter, pools: seq<Pool>, ranked: seq<Pool>, tokenIn: Mint, tokenOut: Mint,
                                         amountIn: int, opts: RouteOptions)
    requires ranked != [] && multiset(ranked) == multiset(pools) && ZeroAtZero(q) && 0 < amountIn
    ensures var s := StepFrom(q, ranked, tokenIn, tokenOut, amountIn, opts);
            s.hops != [] && (Distinct(pools) ==> SumIn(s.hops) == amountIn && SumOut(s.hops) == s.amountOut)
  {
    var s := StepFrom(q, ranked, tokenIn, tokenOut, amountIn, opts);
    var c := Candidates(ranked, opts.maxSplits);
    CandidatesCome(pools, ranked, c);
    StepSums(q, ranked, tokenIn, tokenOut, amountIn, opts);
    assert c[0] in multiset(c);
    NoHopsNoInput(s.hops, amountIn, if StepSplits(q, ranked, tokenIn, amountIn, opts) then 1 else Copies(ranked, opts));
  }

  lemma {:induction false} NoHopsNoInput(hops: seq<RouteHop>, amountIn: int, n: nat)
    requires 0 < amountIn && 0 < n && SumIn(hops) == amountIn * n
    ensures hops != []
  {
  }

  lemma BestSingleFirst(q: Quoter, pools: seq<Pool>, ranked: seq<Pool>, t: Mint, amountIn: int, p: Pool)
    requires ranked != [] && Ranking(q, t, amountIn, pools, ranked) && p in pools
    ensures q(p, t, amountIn) <= q(ranked[0], t, amountIn)
  {
    assert p in multiset(ranked);
    var i :| 0 <= i < |ranked| && ranked[i] == p;
  }

  /** The hops of a step are quotes of its candidates. */
  lemma StepHops(q: Quoter, ranked: seq<Pool>, tokenIn: Mint, tokenOut: Mint, amountIn: int, opts: RouteOptions)
    requires ranked != []
    ensures var s := StepFrom(q, ranked, tokenIn, tokenOut, amountIn, opts);
            var c := Candidates(ranked, opts.maxSplits);
            && |s.hops| <= |c|
            && (forall h :: h in s.hops ==> h.pool in c && h.amountIn > 0 && h.tokenIn == tokenIn
                                            && h.tokenOut == tokenOut && h.amountOut == q(h.pool, tokenIn, h.amountIn))
  {
    var c := Candidates(ranked, opts.maxSplits);
    if StepSplits(q, ranked, tokenIn, amountIn, opts) {
      var alloc := GreedySplit(q, c, tokenIn, amountIn, ChunkSize(amountIn, opts.splitGranularity));
      HopsAreQuotes(q, c, alloc, tokenIn, tokenOut);
    } else {
      HopsAreQuotes(q, c, AllToFirst(c, amountIn), tokenIn, tokenOut);
    }
  }

  lemma CandidatesCome(pools: seq<Pool>, ranked: seq<Pool>, c: seq<Pool>)
    requires multiset(ranked) == multiset(pools) && c <= ranked && c != []
    ensures forall p :: p in c ==> p in pools
    ensures Distinct(pools) ==> multiset(c)[c[0]] == 1
  {
    assert ranked == c + ranked[|c|..];
    forall p | p in c ensures p in pools {
      assert p in multiset(ranked);
    }
    assert multiset(c)[c[0]] <= multiset(pools)[c[0]];
  }

  // ---------------------------------------------------------------- whole routes

  /** The pools the graph offers between two tokens. */
  ghost predicate IsGraphStep(q: Quoter, pools: seq<Pool>, a: Mint, b: Mint, amountIn: int, opts: RouteOptions,
                              s: RouteStep)
  {
    IsStep(q, DirectPools(pools, a, b), a, b, amountIn, opts, s)
  }

  /** The route is a direct step, or two chained steps through a third token. */
  ghost predicate IsRoute(q: Quoter, pools: seq<Pool>, a: Mint, b: Mint, amountIn: int, opts: RouteOptions, r: Route) {
    && r.tokenIn == a && r.tokenOut == b && r.amountIn == amountIn
    && 1 <= |r.steps| <= 2
    && r.amountOut == r.steps[|r.steps| - 1].amountOut
    && (|r.steps| == 1 ==> IsGraphStep(q, pools, a, b, amountIn, opts, r.steps[0]))
    && (|r.steps| == 2 ==>
          && opts.maxHops >= 2
          && r.steps[0].tokenOut !in {a, b}
          && IsGraphStep(q, pools, a, r.steps[0].tokenOut, amountIn, opts, r.steps[0])
          && IsGraphStep(q, pools, r.steps[0].tokenOut, b, r.steps[0].amountOut, opts, r.steps[1]))
  }

  predicate Offers(pools: seq<Pool>, p: Pool, a: Mint, b: Mint) {
    p in pools && Live(p) && Joins(p, a, b)
  }

  /** A route paying at least `x` has been found. */
  ghost predicate Reached(routes: seq<Route>, x: int) {
    exists i :: 0 <= i < |routes| && x <= routes[i].amountOut
  }

  /** Some best step over the direct pools is matched. */
  ghost predicate CoversDirect(q: Quoter, pools: seq<Pool>, a: Mint, b: Mint, amountIn: int, opts: RouteOptions,
                               routes: seq<Route>)
  {
    DirectPools(pools, a, b) != [] && 0 < amountIn ==>
      exists s :: IsGraphStep(q, pools, a, b, amountIn, opts, s) && Reached(routes, s.amountOut)
  }

  /** Nothing comes out of the first step, or some best second step is matched. */
  ghost predicate GoesOn(q: Quoter, pools: seq<Pool>, mid: Mint, b: Mint, opts: RouteOptions, s1: RouteStep,
                         routes: seq<Route>)
  {
    0 < s1.amountOut ==>
      exists s2 :: IsGraphStep(q, pools, mid, b, s1.amountOut, opts, s2)
                   && (s2.amountOut <= 0 || Reached(routes, s2.amountOut))
  }

  /** Some chain of two best steps through `mid` is matched, if both pay something. */
  ghost predicate CoversVia(q: Quoter, pools: seq<Pool>, a: Mint, mid: Mint, b: Mint, amountIn: int, opts: RouteOptions,
                            routes: seq<Route>)
  {
    DirectPools(pools, a, mid) != [] && DirectPools(pools, mid, b) != [] && 0 < amountIn ==>
      exists s1 :: IsGraphStep(q, pools, a, mid, amountIn, opts, s1) && GoesOn(q, pools, mid, b, opts, s1, routes)
  }

  /** A second step on at least the first step's output pays at least the pair. */
  lemma PairIsBeaten(q: Quoter, pools: seq<Pool>, a: Mint, mid: Mint, b: Mint, amountIn: int, opts: RouteOptions,
                     s1: RouteStep, p1: Pool, p2: Pool)
    requires ZeroAtZero(q) && IsGraphStep(q, pools, a, mid, amountIn, opts, s1)
    requires Offers(pools, p1, a, mid) && Offers(pools, p2, mid, b) && Monotone(q, p2, mid)
    ensures s1.amountOut <= 0 ==> q(p2, mid, q(p1, a, amountIn)) <= 0
    ensures forall s2 :: IsGraphStep(q, pools, mid, b, s1.amountOut, opts, s2) ==>
              q(p2, mid, q(p1, a, amountIn)) <= s2.amountOut
    ensures DirectPools(pools, mid, b) != []
  {
    StepsAreGood(q, DirectPools(pools, a, mid), a, mid, amountIn, opts, s1);
    DirectMembership(pools, a, mid, p1);
    DirectMembership(pools, mid, b, p2);
    var y := q(p1, a, amountIn);
    if s1.amountOut <= 0 {
      assert q(p2, mid, s1.amountOut) <= q(p2, mid, 0);
    }
    forall s2 | IsGraphStep(q, pools, mid, b, s1.amountOut, opts, s2)
      ensures q(p2, mid, y) <= s2.amountOut
    {
      StepsAreGood(q, DirectPools(pools, mid, b), mid, b, s1.amountOut, opts, s2);
    }
  }

  /** The best two-step route through one intermediate token, if both steps pay something. */
  method RouteVia(q: Quoter, graph: PoolGraph, a: Mint, mid: Mint, b: Mint, amountIn: int, opts: RouteOptions)
    returns (r: Option<Route>)
    requires graph.Valid() && opts.maxHops >= 2 && mid !in {a, b}
    ensures r.Some? ==> IsRoute(q, graph.pools, a, b, amountIn, opts, r.value)
    ensures CoversVia(q, graph.pools, a, mid, b, amountIn, opts, Found(r))
  {
    var first := graph.Direct(a, mid);
    var s1 := ComputeStep(q, first, a, mid, amountIn, opts);
    if s1.None? {
      return None;
    }
    assert IsGraphStep(q, graph.pools, a, mid, amountIn, opts, s1.value) && s1.value.tokenOut == mid;
    if s1.value.amountOut <= 0 {
      return None;
    }
    var second := graph.Direct(mid, b);
    var s2 := ComputeStep(q, second, mid, b, s1.value.amountOut, opts);
    if s2.None? {
      return None;
    }
    assert IsGraphStep(q, graph.pools, mid, b, s1.value.amountOut, opts, s2.value);
    if s2.value.amountOut <= 0 {
      return None;
    }
    r := Some(Route(a, b, amountIn, s2.value.amountOut, [s1.value, s2.value]));
    assert Found(r)[0] == r.value;
  }

  function Found(r: Option<Route>): seq<Route> {
    if r.Some? then [r.value] else []
  }

  /**
   * What the caller gets: a genuine route that pays at least some best step over the direct pools and, through
   * every third token, at least some chain of two best steps.
   */
  ghost predicate BestRoute(q: Quoter, pools: seq<Pool>, a: Mint, b: Mint, amountIn: int, opts: RouteOptions,
                            r: Option<Route>)
  {
    && (r.Some? ==> IsRoute(q, pools, a, b, amountIn, opts, r.value))
    && CoversDirect(q, pools, a, b, amountIn, opts, Found(r))
    && (opts.maxHops >= 2 ==> forall mid :: mid !in {a, b} ==> CoversVia(q, pools, a, mid, b, amountIn, opts, Found(r)))
  }

  /** No single pool, and no pair of pools with a monotone second one, pays more. */
  ghost predicate Unbeaten(q: Quoter, pools: seq<Pool>, a: Mint, b: Mint, amountIn: int, opts: RouteOptions,
                           r: Option<Route>)
  {
    && (forall p :: Offers(pools, p, a, b) && 0 < amountIn ==>
          r.Some? && q(p, a, amountIn) <= r.value.amountOut)
    && (opts.maxHops >= 2 ==> forall p1, p2, mid ::
          Offers(pools, p1, a, mid) && Offers(pools, p2, mid, b) && Monotone(q, p2, mid) && mid !in {a, b}
            && 0 < amountIn
          && 0 < q(p2, mid, q(p1, a, amountIn)) ==>
          r.Some? && q(p2, mid, q(p1, a, amountIn)) <= r.value.amountOut)
  }

  lemma BestIsUnbeaten(q: Quoter, pools: seq<Pool>, a: Mint, b: Mint, amountIn: int, opts: RouteOptions,
                       r: Option<Route>)
    requires ZeroAtZero(q) && BestRoute(q, pools, a, b, amountIn, opts, r)
    ensures Unbeaten(q, pools, a, b, amountIn, opts, r)
  {
    forall p | Offers(pools, p, a, b) && 0 < amountIn ensures r.Some? && q(p, a, amountIn) <= r.value.amountOut {
      BeatsPool(q, pools, a, b, amountIn, opts, r, p);
    }
    if opts.maxHops >= 2 {
      forall p1, p2, mid |
        Offers(pools, p1, a, mid) && Offers(pools, p2, mid, b) && Monotone(q, p2, mid) && mid !in {a, b} && 0 < amountIn
        && 0 < q(p2, mid, q(p1, a, amountIn))
        ensures r.Some? && q(p2, mid, q(p1, a, amountIn)) <= r.value.amountOut
      {
        BeatsPair(q, pools, a, mid, b, amountIn, opts, Found(r), p1, p2);
      }
    }
  }

  lemma BeatsPool(q: Quoter, pools: seq<Pool>, a: Mint, b: Mint, amountIn: int, opts: RouteOptions, r: Option<Route>,
                  p: Pool)
    requires ZeroAtZero(q) && CoversDirect(q, pools, a, b, amountIn, opts, Found(r))
    requires Offers(pools, p, a, b) && 0 < amountIn
    ensures r.Some? && q(p, a, amountIn) <= r.value.amountOut
  {
    DirectMembership(pools, a, b, p);
    var s :| IsGraphStep(q, pools, a, b, amountIn, opts, s) && Reached(Found(r), s.amountOut);
    StepsAreGood(q, DirectPools(pools, a, b), a, b, amountIn, opts, s);
  }

  lemma BeatsPair(q: Quoter, pools: seq<Pool>, a: Mint, mid: Mint, b: Mint, amountIn: int, opts: RouteOptions,
                  routes: seq<Route>, p1: Pool, p2: Pool)
    requires ZeroAtZero(q) && CoversVia(q, pools, a, mid, b, amountIn, opts, routes) && 0 < amountIn
    requires Offers(pools, p1, a, mid) && Offers(pools, p2, mid, b) && Monotone(q, p2, mid)
    requires 0 < q(p2, mid, q(p1, a, amountIn))
    ensures Reached(routes, q(p2, mid, q(p1, a, amountIn)))
  {
    DirectMembership(pools, a, mid, p1);
    DirectMembership(pools, mid, b, p2);
    var s1 :| IsGraphStep(q, pools, a, mid, amountIn, opts, s1) && GoesOn(q, pools, mid, b, opts, s1, routes);
    PairIsBeaten(q, pools, a, mid, b, amountIn, opts, s1, p1, p2);
    var s2 :| IsGraphStep(q, pools, mid, b, s1.amountOut, opts, s2)
              && (s2.amountOut <= 0 || Reached(routes, s2.amountOut));
    var i :| 0 <= i < |routes| && s2.amountOut <= routes[i].amountOut;
  }

  ghost predicate AllRoutes(q: Quoter, pools: seq<Pool>, a: Mint, b: Mint, amountIn: int, opts: RouteOptions,
                            routes: seq<Route>)
  {
    forall i :: 0 <= i < |routes| ==> IsRoute(q, pools, a, b, amountIn, opts, routes[i])
  }

  ghost predicate CoversMids(q: Quoter, pools: seq<Pool>, a: Mint, mids: seq<Mint>, b: Mint, amountIn: int,
                             opts: RouteOptions, routes: seq<Route>)
  {
    forall k :: 0 <= k < |mids| && mids[k] !in {a, b} ==> CoversVia(q, pools, a, mids[k], b, amountIn, opts, routes)
  }

  /** The direct candidate, if there is one. */
  method DirectRoutes(q: Quoter, graph: PoolGraph, a: Mint, b: Mint, amountIn: int, opts: RouteOptions)
    returns (candidates: seq<Route>)
    requires graph.Valid()
    ensures AllRoutes(q, graph.pools, a, b, amountIn, opts, candidates)
    ensures CoversDirect(q, graph.pools, a, b, amountIn, opts, candidates)
  {
    var direct := graph.Direct(a, b);
    var directStep := ComputeStep(q, direct, a, b, amountIn, opts);
    candidates := [];
    if directStep.Some? {
      candidates := [Route(a, b, amountIn, directStep.value.amountOut, [directStep.value])];
      assert IsGraphStep(q, graph.pools, a, b, amountIn, opts, directStep.value);
      assert candidates[0].amountOut == directStep.value.amountOut;
    }
  }

  /** The two-hop candidates, one intermediate token after the other. */
  method TwoHopRoutes(q: Quoter, graph: PoolGraph, a: Mint, b: Mint, amountIn: int, opts: RouteOptions)
    returns (candidates: seq<Route>)
    requires graph.Valid() && opts.maxHops >= 2
    ensures AllRoutes(q, graph.pools, a, b, amountIn, opts, candidates)
    ensures forall mid :: mid !in {a, b} ==> CoversVia(q, graph.pools, a, mid, b, amountIn, opts, candidates)
  {
    var fromIn := graph.Neighbors(a);
    var toOut := graph.Neighbors(b);
    candidates := [];
    for i := 0 to |fromIn|
      invariant AllRoutes(q, graph.pools, a, b, amountIn, opts, candidates)
      invariant CoversMids(q, graph.pools, a, fromIn[..i], b, amountIn, opts, candidates)
    {
      var mid := fromIn[i];
      assert fromIn[..i + 1] == fromIn[..i] + [mid];
      if mid == b || mid == a || mid !in toOut {
        NotAdjacentCovers(q, graph.pools, a, mid, b, amountIn, opts, candidates);
        continue;
      }
      var via := RouteVia(q, graph, a, mid, b, amountIn, opts);
      MidsMore(q, graph.pools, a, b, amountIn, opts, candidates, Found(via), fromIn[..i], mid);
      candidates := candidates + Found(via);
    }
    assert fromIn[..|fromIn|] == fromIn;
    AllMidsCovered(q, graph.pools, a, b, amountIn, opts, candidates, fromIn);
  }

  /** Among the first `n` candidates, none has a larger output and none before it an equal one. */
  ghost predicate FirstBest(candidates: seq<Route>, n: nat, best: Route)
    requires n <= |candidates|
  {
    exists i :: 0 <= i < n && candidates[i] == best
                && (forall k :: 0 <= k < n ==> candidates[k].amountOut <= best.amountOut)
                && (forall k :: 0 <= k < i ==> candidates[k].amountOut < best.amountOut)
  }

  /** The first candidate with the largest output. */
  method PickBest(candidates: seq<Route>) returns (best: Route)
    requires candidates != []
    ensures FirstBest(candidates, |candidates|, best)
  {
    best := candidates[0];
    for i := 1 to |candidates|
      invariant FirstBest(candidates, i, best)
    {
      if candidates[i].amountOut > best.amountOut {
        best := candidates[i];
      }
    }
  }

  /** `findBestRoute`. */
  method FindBestRoute(q: Quoter, graph: PoolGraph, inputMint: Mint, outputMint: Mint, amountIn: int,
                       opts: RouteOptions)
    returns (r: Option<Route>)
    requires graph.Valid()
    ensures BestRoute(q, graph.pools, inputMint, outputMint, amountIn, opts, r)
    ensures amountIn <= 0 ==> r == None
    ensures r.Some? ==> r.value.amountIn == amountIn
  {
    var candidates := DirectRoutes(q, graph, inputMint, outputMint, amountIn, opts);
    if opts.maxHops >= 2 {
      var more := TwoHopRoutes(q, graph, inputMint, outputMint, amountIn, opts);
      SearchMore(q, graph.pools, inputMint, outputMint, amountIn, opts, candidates, more);
      candidates := candidates + more;
    }
    if |candidates| == 0 {
      r := None;
    } else {
      var best := PickBest(candidates);
      r := Some(best);
    }
    SearchIsBest(q, graph.pools, inputMint, outputMint, amountIn, opts, candidates, r);
  }

  // ---------------------------------------------------------------- bookkeeping of the search

  /** Whatever the first list reaches, the second does too. */
  ghost predicate ReachesAll(routes: seq<Route>, more: seq<Route>) {
    forall x :: Reached(routes, x) ==> Reached(more, x)
  }

  lemma ReachedMore(before: seq<Route>, more: seq<Route>)
    ensures ReachesAll(before, before + more) && ReachesAll(more, before + more)
  {
    forall x | Reached(before, x) ensures Reached(before + more, x) {
      var i :| 0 <= i < |before| && x <= before[i].amountOut;
      assert (before + more)[i] == before[i];
    }
    forall x | Reached(more, x) ensures Reached(before + more, x) {
      var i :| 0 <= i < |more| && x <= more[i].amountOut;
      assert (before + more)[|before| + i] == more[i];
    }
  }

  lemma DirectMore(q: Quoter, pools: seq<Pool>, a: Mint, b: Mint, amountIn: int, opts: RouteOptions, routes: seq<Route>,
                   more: seq<Route>)
    requires CoversDirect(q, pools, a, b, amountIn, opts, routes) && ReachesAll(routes, more)
    ensures CoversDirect(q, pools, a, b, amountIn, opts, more)
  {
    if DirectPools(pools, a, b) != [] && 0 < amountIn {
      var s :| IsGraphStep(q, pools, a, b, amountIn, opts, s) && Reached(routes, s.amountOut);
      assert Reached(more, s.amountOut);
    }
  }

  lemma ViaMore(q: Quoter, pools: seq<Pool>, a: Mint, mid: Mint, b: Mint, amountIn: int, opts: RouteOptions,
                routes: seq<Route>, more: seq<Route>)
    requires CoversVia(q, pools, a, mid, b, amountIn, opts, routes) && ReachesAll(routes, more)
    ensures CoversVia(q, pools, a, mid, b, amountIn, opts, more)
  {
    if DirectPools(pools, a, mid) != [] && DirectPools(pools, mid, b) != [] && 0 < amountIn {
      var s1 :| IsGraphStep(q, pools, a, mid, amountIn, opts, s1) && GoesOn(q, pools, mid, b, opts, s1, routes);
      GoesOnMore(q, pools, mid, b, opts, s1, routes, more);
    }
  }

  lemma GoesOnMore(q: Quoter, pools: seq<Pool>, mid: Mint, b: Mint, opts: RouteOptions, s1: RouteStep,
                   routes: seq<Route>, more: seq<Route>)
    requires GoesOn(q, pools, mid, b, opts, s1, routes) && ReachesAll(routes, more)
    ensures GoesOn(q, pools, mid, b, opts, s1, more)
  {
    if 0 < s1.amountOut {
      var s2 :| IsGraphStep(q, pools, mid, b, s1.amountOut, opts, s2)
                && (s2.amountOut <= 0 || Reached(routes, s2.amountOut));
      assert s2.amountOut <= 0 || Reached(more, s2.amountOut);
    }
  }

  lemma SearchMore(q: Quoter, pools: seq<Pool>, a: Mint, b: Mint, amountIn: int, opts: RouteOptions, before: seq<Route>,
                   more: seq<Route>)
    requires CoversDirect(q, pools, a, b, amountIn, opts, before)
    requires forall mid :: mid !in {a, b} ==> CoversVia(q, pools, a, mid, b, amountIn, opts, more)
    ensures CoversDirect(q, pools, a, b, amountIn, opts, before + more)
    ensures forall mid :: mid !in {a, b} ==> CoversVia(q, pools, a, mid, b, amountIn, opts, before + more)
  {
    ReachedMore(before, more);
    DirectMore(q, pools, a, b, amountIn, opts, before, before + more);
    forall mid | mid !in {a, b} ensures CoversVia(q, pools, a, mid, b, amountIn, opts, before + more) {
      ViaMore(q, pools, a, mid, b, amountIn, opts, more, before + more);
    }
  }

  /** A largest candidate of a covering search is a best route. */
  lemma SearchIsBest(q: Quoter, pools: seq<Pool>, a: Mint, b: Mint, amountIn: int, opts: RouteOptions,
                     routes: seq<Route>, r: Option<Route>)
    requires AllRoutes(q, pools, a, b, amountIn, opts, routes)
    requires CoversDirect(q, pools, a, b, amountIn, opts, routes)
    requires opts.maxHops >= 2 ==>
               forall mid :: mid !in {a, b} ==> CoversVia(q, pools, a, mid, b, amountIn, opts, routes)
    requires if routes == [] then r == None
             else r.Some? && r.value in routes
                  && forall k :: 0 <= k < |routes| ==> routes[k].amountOut <= r.value.amountOut
    ensures BestRoute(q, pools, a, b, amountIn, opts, r)
  {
    LargestReachesAll(routes, r);
    DirectMore(q, pools, a, b, amountIn, opts, routes, Found(r));
    if opts.maxHops >= 2 {
      forall mid | mid !in {a, b} ensures CoversVia(q, pools, a, mid, b, amountIn, opts, Found(r)) {
        ViaMore(q, pools, a, mid, b, amountIn, opts, routes, Found(r));
      }
    }
  }

  lemma LargestReachesAll(routes: seq<Route>, r: Option<Route>)
    requires routes != [] ==>
               r.Some? && forall k :: 0 <= k < |routes| ==> routes[k].amountOut <= r.value.amountOut
    ensures ReachesAll(routes, Found(r))
  {
    forall x | Reached(routes, x) ensures Reached(Found(r), x) {
      var i :| 0 <= i < |routes| && x <= routes[i].amountOut;
      assert Found(r)[0] == r.value;
    }
  }

  lemma MidsMore(q: Quoter, pools: seq<Pool>, a: Mint, b: Mint, amountIn: int, opts: RouteOptions, before: seq<Route>,
                 more: seq<Route>, mids: seq<Mint>, mid: Mint)
    requires CoversMids(q, pools, a, mids, b, amountIn, opts, before)
    requires CoversVia(q, pools, a, mid, b, amountIn, opts, more)
    ensures CoversMids(q, pools, a, mids + [mid], b, amountIn, opts, before + more)
  {
    ReachedMore(before, more);
    forall k | 0 <= k < |mids| + 1 && (mids + [mid])[k] !in {a, b}
      ensures CoversVia(q, pools, a, (mids + [mid])[k], b, amountIn, opts, before + more)
    {
      if k < |mids| {
        ViaMore(q, pools, a, mids[k], b, amountIn, opts, before, before + more);
      } else {
        ViaMore(q, pools, a, mid, b, amountIn, opts, more, before + more);
      }
    }
  }

  lemma DirectIsAdjacent(pools: seq<Pool>, a: Mint, b: Mint)
    requires DirectPools(pools, a, b) != []
    ensures Adjacent(pools, a, b) && Adjacent(pools, b, a)
  {
    DirectMembership(pools, a, b, DirectPools(pools, a, b)[0]);
  }

  /** A token that does not lead to the output has no chain through it. */
  lemma NotAdjacentCovers(q: Quoter, pools: seq<Pool>, a: Mint, mid: Mint, b: Mint, amountIn: int, opts: RouteOptions,
                          routes: seq<Route>)
    requires mid in {a, b} || !Adjacent(pools, b, mid)
    ensures mid !in {a, b} ==> CoversVia(q, pools, a, mid, b, amountIn, opts, routes)
  {
    if DirectPools(pools, mid, b) != [] {
      DirectIsAdjacent(pools, mid, b);
    }
  }

  lemma AllMidsCovered(q: Quoter, pools: seq<Pool>, a: Mint, b: Mint, amountIn: int, opts: RouteOptions,
                       routes: seq<Route>, mids: seq<Mint>)
    requires forall m :: m in mids <==> Adjacent(pools, a, m)
    requires CoversMids(q, pools, a, mids, b, amountIn, opts, routes)
    ensures forall mid :: mid !in {a, b} ==> CoversVia(q, pools, a, mid, b, amountIn, opts, routes)
  {
    forall mid | mid !in {a, b} ensures CoversVia(q, pools, a, mid, b, amountIn, opts, routes) {
      if mid in mids {
        var k :| 0 <= k < |mids| && mids[k] == mid;
      } else if DirectPools(pools, a, mid) != [] {
        DirectIsAdjacent(pools, a, mid);
      }
    }
  }
}
