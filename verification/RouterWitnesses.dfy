/** Graphs on which the search does less than its documentation says. */
module RouterWitnesses {
  import opened Common
  import opened Dlmm
  import opened Pricing
  import opened PoolGraphs
  import opened Router
  import opened RouteGuarantees

  /** Below one unit a chunk nothing is split, and a pool listed twice is given the whole amount twice. */
  lemma DuplicatesDoubleTheInput(q: Quoter, p: Pool, a: Mint, b: Mint)
    requires ZeroAtZero(q)
    ensures SumIn(StepFrom(q, [p, p], a, b, 50, DEFAULTS).hops) == 100
  {
    var ranked := [p, p];
    assert Candidates(ranked, DEFAULTS.maxSplits) == ranked;
    assert multiset(ranked) == multiset{p, p};
    StepSums(q, ranked, a, b, 50, DEFAULTS);
  }

  // ---------------------------------------------------------------- why the second pool of a pair must be monotone

  /** A constant-product pool that pays `x` units of `mid` for one unit of `a`. */
  function Feeder(ref: nat, a: Mint, mid: Mint, x: int): (p: Pool)
    ensures 0 < x ==> Live(p)
  {
    Pool(ref, "", RaydiumAmm, ConstantProduct, a, mid, 1, 2 * x, 0, None, None)
  }

  lemma FeederPays(d: Doubles, ref: nat, a: Mint, mid: Mint, x: int)
    requires 0 < x
    ensures QuoteWith(d)(Feeder(ref, a, mid, x), a, 1) == x
  {
  }

  /** Two feeders into `mid`, and one pool that leads on from there. */
  function Graph(p2: Pool, a: Mint, mid: Mint, x: int, y: int): seq<Pool> {
    [Feeder(0, a, mid, x), Feeder(1, a, mid, y), p2]
  }

  /** Every route of that graph takes the richer feeder first. */
  lemma RoutesGoOn(d: Doubles, p2: Pool, a: Mint, mid: Mint, b: Mint, x: int, y: int, r: Route)
    requires a !in {mid, b} && mid != b && Live(p2) && Joins(p2, mid, b) && 0 < x < y
    requires IsRoute(QuoteWith(d), Graph(p2, a, mid, x, y), a, b, 1, DEFAULTS, r)
    ensures r.amountOut == QuoteWith(d)(p2, mid, y)
  {
    var q, pools := QuoteWith(d), Graph(p2, a, mid, x, y);
    FeederPays(d, 0, a, mid, x);
    FeederPays(d, 1, a, mid, y);
    if |r.steps| == 1 {
      UnsplitStepPaysBest(q, DirectPools(pools, a, b), a, b, 1, DEFAULTS, r.steps[0]);
      var p :| p in DirectPools(pools, a, b);
      DirectMembership(pools, a, b, p);
      assert false;
    } else {
      FirstStep(q, pools, p2, a, mid, x, y, r.steps[0].tokenOut, r.steps[0]);
      SecondStep(q, pools, p2, a, mid, b, x, y, r.steps[1]);
    }
  }

  lemma FirstStep(q: Quoter, pools: seq<Pool>, p2: Pool, a: Mint, mid: Mint, x: int, y: int, via: Mint, s: RouteStep)
    requires pools == Graph(p2, a, mid, x, y) && a !in {p2.tokenA, p2.tokenB, mid} && 0 < x < y
    requires q(pools[0], a, 1) == x && q(pools[1], a, 1) == y
    requires IsGraphStep(q, pools, a, via, 1, DEFAULTS, s)
    ensures via == mid && s.amountOut == y
  {
    UnsplitStepPaysBest(q, DirectPools(pools, a, via), a, via, 1, DEFAULTS, s);
    var p :| p in DirectPools(pools, a, via) && s.amountOut == q(p, a, 1);
    DirectMembership(pools, a, via, p);
    DirectMembership(pools, a, via, pools[1]);
  }

  lemma OnlyOneLeadsOn(p2: Pool, a: Mint, mid: Mint, b: Mint, x: int, y: int)
    requires a !in {mid, b} && mid != b && 0 < x < y && Live(p2) && Joins(p2, mid, b)
    ensures DirectPools(Graph(p2, a, mid, x, y), mid, b) == [p2]
  {
    var pools := Graph(p2, a, mid, x, y);
    assert pools[..2] == [pools[0], pools[1]] && pools[..2][..1] == [pools[0]] && [pools[0]][..0] == [];
    assert Entries([pools[0]], mid) == [pools[0]];
    assert Entries(pools[..2], mid) == pools[..2];
    assert Entries(pools, mid) == pools;
    assert pools[1..] == [pools[1], p2] && pools[1..][1..] == [p2] && [p2][1..] == [];
    assert Filter([p2], mid, b) == [p2];
    assert Filter(pools[1..], mid, b) == [p2];
  }

  lemma SecondStep(q: Quoter, pools: seq<Pool>, p2: Pool, a: Mint, mid: Mint, b: Mint, x: int, y: int, s: RouteStep)
    requires pools == Graph(p2, a, mid, x, y) && a !in {mid, b} && mid != b && 0 < x < y
    requires Live(p2) && Joins(p2, mid, b) && IsGraphStep(q, pools, mid, b, y, DEFAULTS, s)
    ensures s.amountOut == q(p2, mid, y)
  {
    OnlyOneLeadsOn(p2, a, mid, b, x, y);
    UnsplitStepPaysBest(q, DirectPools(pools, mid, b), mid, b, y, DEFAULTS, s);
    var p :| p in DirectPools(pools, mid, b) && s.amountOut == q(p, mid, y);
    DirectMembership(pools, mid, b, p);
  }

  /**
   * Every second pool that overpays before a bin is drained has a graph in which a pair through it beats
   * every route that the default options allow.
   */
  lemma UnsoundPairsCanWin(d: Doubles, p2: Pool, a: Mint, mid: Mint, b: Mint)
    requires RoundsMonotonically(d) && 0 <= p2.feeBps && Live(p2) && Joins(p2, mid, b)
    requires a !in {mid, b} && mid != b && !SoundPool(d, p2, mid)
    ensures exists pools, p1 :: Offers(pools, p1, a, mid) && Offers(pools, p2, mid, b) &&
              forall r :: IsRoute(QuoteWith(d), pools, a, b, 1, DEFAULTS, r) ==>
                r.amountOut < QuoteWith(d)(p2, mid, QuoteWith(d)(p1, a, 1))
  {
    var q := QuoteWith(d);
    QuotesAreMonotoneIff(d, p2, mid);
    var x: int, y: int :| x <= y && q(p2, mid, x) > q(p2, mid, y);
    QuotesAreNonNegative(d, p2, mid, y);
    assert 0 < x < y;
    var pools, p1 := Graph(p2, a, mid, x, y), Feeder(0, a, mid, x);
    FeederPays(d, 0, a, mid, x);
    forall r | IsRoute(q, pools, a, b, 1, DEFAULTS, r) ensures r.amountOut < q(p2, mid, q(p1, a, 1)) {
      RoutesGoOn(d, p2, a, mid, b, x, y, r);
    }
    assert Offers(pools, p1, a, mid) && Offers(pools, p2, mid, b);
  }
}
