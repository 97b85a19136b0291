/** Pools and the dispatcher that prices each one by its own model. */
module Pricing {
  import opened Common
  import opened Amm
  import opened Clmm
  import opened Dlmm

  type Mint = string

  datatype DexId = RaydiumAmm | RaydiumClmm | RaydiumCpmm | MeteoraDlmm | MeteoraDynamic | PumpFun | PumpSwap

  datatype PoolKind = ConstantProduct | Concentrated | DiscreteBins | BondingCurve

  /** `ref` stands for the identity of the pool object, which the code compares pools by. */
  datatype Pool = Pool(ref: nat, id: string, dex: DexId, kind: PoolKind, tokenA: Mint, tokenB: Mint,
                       reserveA: int, reserveB: int, feeBps: int,
                       clmm: Option<ClmmState>, dlmm: Option<DlmmState>)

  /** A pricing function: pool, input token and input amount to output amount. */
  type Quoter = (Pool, Mint, int) -> int

  /** The reserves seen from the input side; a token outside the pool is an error. */
  function Orient(pool: Pool, tokenIn: Mint): Option<(int, int)> {
    if tokenIn == pool.tokenA then Some((pool.reserveA, pool.reserveB))
    else if tokenIn == pool.tokenB then Some((pool.reserveB, pool.reserveA))
    else None
  }

  function PoolAmountOut(pool: Pool, tokenIn: Mint, amountIn: int): Option<int> {
    match Orient(pool, tokenIn)
    case None => None
    case Some(r) => Some(GetAmountOut(amountIn, r.0, r.1, pool.feeBps))
  }

  /** `quotePool`, over a given floating-point arithmetic; None where a token is not the pool's. */
  function QuotePool(d: Doubles, pool: Pool, tokenIn: Mint, amountIn: int): Option<int> {
    match pool.kind
    case Concentrated =>
      if pool.clmm.Some? then Some(ClmmQuote(pool.clmm.value, pool.feeBps, tokenIn == pool.tokenA, amountIn))
      else PoolAmountOut(pool, tokenIn, amountIn)
    case DiscreteBins =>
      if pool.dlmm.Some? then Some(DlmmQuote(d, pool.dlmm.value, pool.feeBps, tokenIn == pool.tokenA, amountIn))
      else PoolAmountOut(pool, tokenIn, amountIn)
    case _ => PoolAmountOut(pool, tokenIn, amountIn)
  }

  /** `quotePool` where it is called: the router only asks pools about their own tokens. */
  function QuoteWith(d: Doubles): Quoter {
    (pool, tokenIn, amountIn) =>
      match QuotePool(d, pool, tokenIn, amountIn)
      case Some(out) => out
      case None => 0
  }

  /** Nothing is quoted for nothing: all that a single step needs of a pricing function. */
  ghost predicate ZeroAtZero(q: Quoter) {
    forall p, t :: q(p, t, 0) == 0
  }

  /** The pool is never paid less for more: what chaining two steps needs of the second pool. */
  ghost predicate Monotone(q: Quoter, p: Pool, t: Mint) {
    forall x, y :: x <= y ==> q(p, t, x) <= q(p, t, y)
  }

  /** A pool never refuses to quote one of its own tokens. */
  lemma OwnTokensAreQuoted(d: Doubles, pool: Pool, tokenIn: Mint, amountIn: int)
    ensures tokenIn in {pool.tokenA, pool.tokenB} ==> QuotePool(d, pool, tokenIn, amountIn).Some?
    ensures tokenIn !in {pool.tokenA, pool.tokenB} && pool.kind in {ConstantProduct, BondingCurve}
            ==> QuotePool(d, pool, tokenIn, amountIn).None?
  {
  }

  /** The dispatcher quotes 0 for 0, whatever the arithmetic. */
  lemma QuotesAreZeroAtZero(d: Doubles)
    ensures ZeroAtZero(QuoteWith(d))
  {
    var q := QuoteWith(d);
    forall p: Pool, t ensures q(p, t, 0) == 0 {
      if p.kind == Concentrated && p.clmm.Some? {
      } else if Orient(p, t).Some? {
      }
    }
  }

  /** Where the walk of a discrete-bin pool starts from. */
  predicate SoundPool(d: Doubles, p: Pool, t: Mint) {
    p.kind == DiscreteBins && p.dlmm.Some? ==>
      p.feeBps >= BPS || Sound(d, p.dlmm.value.binStep, t == p.tokenA, BinsAhead(p.dlmm.value, t == p.tokenA))
  }

  lemma ExactQuotesRise(d: Doubles, p: Pool, t: Mint, x: int, y: int)
    requires x <= y && !(p.kind == DiscreteBins && p.dlmm.Some?)
    ensures 0 <= QuoteWith(d)(p, t, x) <= QuoteWith(d)(p, t, y)
  {
    if p.kind == Concentrated && p.clmm.Some? {
      QuoteMonotone(p.clmm.value, p.feeBps, t == p.tokenA, x, y);
    } else if Orient(p, t).Some? {
      var (rIn, rOut) := Orient(p, t).value;
      AmountOutMonotone(x, y, rIn, rOut, p.feeBps);
    }
  }

  lemma BinsRiseIff(d: Doubles, p: Pool, t: Mint)
    requires RoundsMonotonically(d) && p.kind == DiscreteBins && p.dlmm.Some?
    ensures Monotone(QuoteWith(d), p, t) <==> QuoteIsMonotone(d, p.dlmm.value, p.feeBps, t == p.tokenA)
  {
    var q, s, xForY := QuoteWith(d), p.dlmm.value, t == p.tokenA;
    assert forall x :: q(p, t, x) == DlmmQuote(d, s, p.feeBps, xForY, x);
    if Monotone(q, p, t) {
      forall x: int, y: int | x <= y
        ensures 0 <= DlmmQuote(d, s, p.feeBps, xForY, x) <= DlmmQuote(d, s, p.feeBps, xForY, y)
      {
        DlmmQuoteNonNegative(d, s, p.feeBps, xForY, x);
        assert q(p, t, x) <= q(p, t, y);
      }
    }
  }

  /** No quote is negative. */
  lemma QuotesAreNonNegative(d: Doubles, p: Pool, t: Mint, x: int)
    requires RoundsMonotonically(d)
    ensures 0 <= QuoteWith(d)(p, t, x)
  {
    if p.kind == DiscreteBins && p.dlmm.Some? {
      DlmmQuoteNonNegative(d, p.dlmm.value, p.feeBps, t == p.tokenA, x);
    } else {
      ExactQuotesRise(d, p, t, x, x);
    }
  }

  /**
   * Every pool is monotone if, and with a fee that is not negative only if, no discrete bin overpays just
   * before it is drained.
   */
  lemma QuotesAreMonotoneIff(d: Doubles, p: Pool, t: Mint)
    requires RoundsMonotonically(d)
    ensures SoundPool(d, p, t) ==> Monotone(QuoteWith(d), p, t)
    ensures 0 <= p.feeBps && Monotone(QuoteWith(d), p, t) ==> SoundPool(d, p, t)
  {
    var q := QuoteWith(d);
    if p.kind == DiscreteBins && p.dlmm.Some? {
      BinsRiseIff(d, p, t);
      MonotoneIffSound(d, p.dlmm.value, p.feeBps, t == p.tokenA);
    } else {
      forall x: int, y: int | x <= y ensures q(p, t, x) <= q(p, t, y) {
        ExactQuotesRise(d, p, t, x, y);
      }
    }
  }
}
