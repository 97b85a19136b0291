/** The public entry point: union of the venues' pools, best route, and the minimum the user accepts. */
module Aggregator {
  import opened Common
  import opened Dlmm
  import opened Pricing
  import opened PoolGraphs
  import opened Router
  import opened RouteGuarantees

  datatype QuoteRequest = QuoteRequest(inputMint: Mint, outputMint: Mint, amount: int,
                                       slippageBps: Option<int>, maxSplits: Option<int>, maxHops: Option<int>)

  datatype Quote = Quote(route: Route, amountIn: int, amountOut: int, minAmountOut: int)

  /** The pools of the venues that answered, in adapter order; a venue that failed contributes nothing. */
  function Answered(results: seq<Option<seq<Pool>>>): seq<Pool> {
    if results == [] then []
    else (if results[0].Some? then results[0].value else []) + Answered(results[1..])
  }

  /** No earlier entry has this entry's id. */
  predicate First(all: seq<Pool>, k: nat)
    requires k < |all|
  {
    forall j :: 0 <= j < k ==> all[j].id != all[k].id
  }

  predicate IdsDiffer(pools: seq<Pool>) {
    forall i, j :: 0 <= i < j < |pools| ==> pools[i].id != pools[j].id
  }

  method Gather(results: seq<Option<seq<Pool>>>) returns (all: seq<Pool>)
    ensures all == Answered(results)
  {
    all := [];
    for i := 0 to |results|
      invariant all + Answered(results[i..]) == Answered(results)
    {
      assert results[i..][0] == results[i] && results[i..][1..] == results[i + 1..];
      if results[i].Some? {
        all := all + results[i].value;
      }
    }
  }

  /** Every answer stands behind the ones before it, whole and in its own order; a failed venue costs no other. */
  lemma {:induction false} AnswersStandInOrder(results: seq<Option<seq<Pool>>>, i: nat)
    requires i < |results|
    ensures Answered(results) == Answered(results[..i]) + GetOr(results[i], []) + Answered(results[i + 1..])
    ensures results[i].None? ==> Answered(results) == Answered(results[..i] + results[i + 1..])
  {
    if i == 0 {
      assert results[..0] == [] && results[1..] == [] + results[1..];
    } else {
      AnswersStandInOrder(results[1..], i - 1);
      assert results[1..][..i - 1] == results[..i][1..] && results[1..][i..] == results[i + 1..];
      if results[i].None? {
        assert (results[..i] + results[i + 1..])[1..] == results[1..][..i - 1] + results[1..][i..];
      }
    }
  }

  /** A pool is gathered exactly if some venue that answered returned it. */
  lemma {:induction false} GatheredIffReturned(results: seq<Option<seq<Pool>>>, p: Pool)
    ensures p in Answered(results) <==> exists i :: 0 <= i < |results| && results[i].Some? && p in results[i].value
  {
    if p in Answered(results) {
      if !(results[0].Some? && p in results[0].value) {
        GatheredIffReturned(results[1..], p);
        var i :| 0 <= i < |results| - 1 && results[1..][i].Some? && p in results[1..][i].value;
        assert results[i + 1].Some? && p in results[i + 1].value;
      }
    }
    forall i | 0 <= i < |results| && results[i].Some? && p in results[i].value ensures p in Answered(results) {
      AnswersStandInOrder(results, i);
    }
  }

  /** `p` is the first of the first `n` entries with its id. */
  ghost predicate Kept(all: seq<Pool>, n: nat, p: Pool)
    requires n <= |all|
  {
    exists k :: 0 <= k < n && all[k] == p && First(all, k)
  }

  /** Where an id first occurs, or the length if it does not. */
  function Position(all: seq<Pool>, id: string): nat {
    if all == [] || all[0].id == id then 0 else 1 + Position(all[1..], id)
  }

  lemma {:induction false} PositionOfFirst(all: seq<Pool>, k: nat)
    requires k < |all| && First(all, k)
    ensures Position(all, all[k].id) == k
  {
    if k > 0 {
      assert all[0].id != all[k].id;
      assert First(all[1..], k - 1) by {
        forall j | 0 <= j < k - 1 ensures all[1..][j].id != all[1..][k - 1].id {
          assert all[1..][j] == all[j + 1];
        }
      }
      PositionOfFirst(all[1..], k - 1);
    }
  }

  /** The pools stand in the order in which their ids were first met. */
  ghost predicate InOrderOfArrival(all: seq<Pool>, pools: seq<Pool>) {
    forall i, j :: 0 <= i < j < |pools| ==> Position(all, pools[i].id) < Position(all, pools[j].id)
  }

  /** `collectPools`, once every adapter has answered or failed: keep the first pool of each id. */
  method CollectPools(results: seq<Option<seq<Pool>>>) returns (pools: seq<Pool>)
    ensures IdsDiffer(pools)
    ensures InOrderOfArrival(Answered(results), pools)
    ensures var all := Answered(results); forall p :: p in pools <==> Kept(all, |all|, p)
  {
    var all := Gather(results);
    pools := [];
    var seen: set<string> := {};
    for i := 0 to |all|
      invariant forall k :: 0 <= k < i ==> all[k].id in seen
      invariant forall id :: id in seen ==> exists k :: 0 <= k < i && all[k].id == id
      invariant Collected(all, i, pools)
    {
      if all[i].id !in seen {
        assert First(all, i);
        CollectFirst(all, i, pools);
        seen := seen + {all[i].id};
        pools := pools + [all[i]];
      } else {
        assert !First(all, i);
        KeptStep(all, i);
      }
    }
  }

  /** What has been kept of the first `n` entries. */
  ghost predicate Collected(all: seq<Pool>, n: nat, pools: seq<Pool>)
    requires n <= |all|
  {
    && IdsDiffer(pools) && InOrderOfArrival(all, pools)
    && (forall p :: p in pools <==> Kept(all, n, p))
    && (forall k :: 0 <= k < |pools| ==> Position(all, pools[k].id) < n)
  }

  lemma CollectFirst(all: seq<Pool>, n: nat, pools: seq<Pool>)
    requires n < |all| && First(all, n) && Collected(all, n, pools)
    ensures Collected(all, n + 1, pools + [all[n]])
  {
    KeptStep(all, n);
    PositionOfFirst(all, n);
  }

  lemma KeptStep(all: seq<Pool>, i: nat)
    requires i < |all|
    ensures forall p :: Kept(all, i + 1, p) <==> Kept(all, i, p) || (p == all[i] && First(all, i))
  {
    forall p | Kept(all, i, p) ensures Kept(all, i + 1, p) {
      var k :| 0 <= k < i && all[k] == p && First(all, k);
    }
    if First(all, i) {
      assert Kept(all, i + 1, all[i]);
    }
  }

  /** Pools with different ids are different pools, which is what conservation needs. */
  lemma DifferentIdsAreDistinct(pools: seq<Pool>)
    requires IdsDiffer(pools)
    ensures Distinct(pools)
  {
    forall p ensures multiset(pools)[p] <= 1 {
      CountAtMostOne(pools, p);
    }
  }

  lemma {:induction false} CountAtMostOne(pools: seq<Pool>, p: Pool)
    requires IdsDiffer(pools)
    ensures multiset(pools)[p] <= 1
  {
    if pools != [] {
      CountAtMostOne(pools[1..], p);
      assert pools == [pools[0]] + pools[1..];
      forall k | 0 <= k < |pools| - 1 ensures pools[1..][k] != pools[0] {
      }
    }
  }

  function OptionsOf(req: QuoteRequest): RouteOptions {
    RawOptions(GetOr(req.maxSplits, DEFAULTS.maxSplits), GetOr(req.maxHops, DEFAULTS.maxHops),
               DEFAULTS.splitGranularity)
  }

  /** What the request says about hops and splits holds of the route: at most two steps, and three pools, by default. */
  lemma RequestShapesRoute(q: Quoter, pools: seq<Pool>, req: QuoteRequest, r: Route)
    requires ZeroAtZero(q)
    requires BestRoute(q, pools, req.inputMint, req.outputMint, req.amount, OptionsOf(req), Some(r))
    ensures |r.steps| == 1 || (|r.steps| == 2 && (req.maxHops.None? || req.maxHops.value >= 2))
    ensures forall i :: 0 <= i < |r.steps| ==>
              1 <= |r.steps[i].hops| <= if req.maxSplits.None? then 3 else Max(1, req.maxSplits.value)
  {
    RouteIsBounded(q, pools, req.inputMint, req.outputMint, req.amount, OptionsOf(req), r);
  }

  /** Unless the request forbids it, two hops are searched: no pair with a monotone second pool pays more. */
  lemma RequestSearchesPairs(q: Quoter, pools: seq<Pool>, req: QuoteRequest, r: Option<Route>, p1: Pool, p2: Pool,
                             mid: Mint)
    requires ZeroAtZero(q) && 0 < req.amount && (req.maxHops.None? || req.maxHops.value >= 2)
    requires BestRoute(q, pools, req.inputMint, req.outputMint, req.amount, OptionsOf(req), r)
    requires Offers(pools, p1, req.inputMint, mid) && Offers(pools, p2, mid, req.outputMint) && Monotone(q, p2, mid)
    requires mid !in {req.inputMint, req.outputMint} && 0 < q(p2, mid, q(p1, req.inputMint, req.amount))
    ensures r.Some? && q(p2, mid, q(p1, req.inputMint, req.amount)) <= r.value.amountOut
  {
    BestIsUnbeaten(q, pools, req.inputMint, req.outputMint, req.amount, OptionsOf(req), r);
  }

  /**
   * The route pays at least every division of 1/100 chunks of the amount among the best ranked direct pools, as many
   * as the request allows, three by default.
   */
  lemma RequestNearOptimal(q: Quoter, pools: seq<Pool>, req: QuoteRequest, r: Option<Route>, n: int, chunk: int, e: int)
    returns (ranked: seq<Pool>)
    requires BestRoute(q, pools, req.inputMint, req.outputMint, req.amount, OptionsOf(req), r) && 0 <= e
    requires 100 <= req.amount && chunk == req.amount / 100 && DirectPools(pools, req.inputMint, req.outputMint) != []
    requires var splits, direct := GetOr(req.maxSplits, 3), |DirectPools(pools, req.inputMint, req.outputMint)|;
             n == if splits <= 1 || direct <= 1 then 1 else if splits < direct then splits else direct
    requires forall p :: p in DirectPools(pools, req.inputMint, req.outputMint) ==>
               SuitablePool(q, p, req.inputMint, chunk, e) && AscendingPool(q, p, req.inputMint)
    ensures r.Some? && multiset(ranked) == multiset(DirectPools(pools, req.inputMint, req.outputMint))
    ensures 1 <= n <= |ranked|
    ensures forall i, j :: 0 <= i < j < |ranked| ==>
              q(ranked[i], req.inputMint, req.amount) >= q(ranked[j], req.inputMint, req.amount)
    ensures NoDivisionBeats(q, ranked[..n], req.inputMint, chunk, req.amount / chunk, e, r.value.amountOut)
  {
    ranked := RouteNearOptimal(q, pools, req.inputMint, req.outputMint, req.amount, OptionsOf(req), r, n, chunk, e);
  }

  /** `toQuote`. */
  function ToQuote(route: Route, slippageBps: int): Quote {
    Quote(route, route.amountIn, route.amountOut, MinAmountOut(route.amountOut, slippageBps))
  }

  function RouteOf(r: Option<Quote>): Option<Route> {
    match r
    case Some(q) => Some(q.route)
    case None => None
  }

  /** `quoteFromPools`. */
  method QuoteFromPools(q: Quoter, pools: seq<Pool>, req: QuoteRequest) returns (r: Option<Quote>)
    ensures r.Some? ==> r.value.amountOut == r.value.route.amountOut && r.value.amountIn == req.amount
                        && r.value.minAmountOut == MinAmountOut(r.value.amountOut, GetOr(req.slippageBps, 50))
    ensures BestRoute(q, pools, req.inputMint, req.outputMint, req.amount, OptionsOf(req), RouteOf(r))
  {
    var graph := new PoolGraph(pools);
    var opts := OptionsOf(req);
    var route := FindBestRoute(q, graph, req.inputMint, req.outputMint, req.amount, opts);
    if route.None? {
      return None;
    }
    r := Some(ToQuote(route.value, GetOr(req.slippageBps, 50)));
    assert RouteOf(r) == route;
  }

  /**
   * `quote`: collect, then route; every step of the answer conserves its amounts. Any arithmetic of the bin
   * prices will do.
   */
  method QuoteRoute(d: Doubles, results: seq<Option<seq<Pool>>>, req: QuoteRequest)
    returns (r: Option<Quote>, ghost pools: seq<Pool>)
    ensures IdsDiffer(pools)
    ensures InOrderOfArrival(Answered(results), pools)
    ensures var all := Answered(results); forall p :: p in pools <==> Kept(all, |all|, p)
    ensures BestRoute(QuoteWith(d), pools, req.inputMint, req.outputMint, req.amount, OptionsOf(req), RouteOf(r))
    ensures r.Some? && req.inputMint != req.outputMint ==>
              ConservesFrom(r.value.route.steps, req.inputMint, req.amount, req.outputMint, r.value.amountOut)
  {
    var collected := CollectPools(results);
    pools := collected;
    QuotesAreZeroAtZero(d);
    r := QuoteFromPools(QuoteWith(d), collected, req);
    if r.Some? && req.inputMint != req.outputMint {
      DifferentIdsAreDistinct(pools);
      RouteConserves(QuoteWith(d), pools, req.inputMint, req.outputMint, req.amount, OptionsOf(req), r.value.route);
    }
  }
}
