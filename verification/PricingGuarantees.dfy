/** What the dispatcher's quotes mean for a trader: which reserve grows, which one pays, and at what price. */
module PricingGuarantees {
  import opened Common
  import opened Arithmetic
  import opened Amm
  import opened Clmm
  import opened ClmmPath
  import opened ExactCurve
  import opened ClmmRounding
  import opened Dlmm
  import opened BinRounding
  import opened Pricing

  // ---------------------------------------------------------------- constant product

  /** Priced at constant product: by its kind, or because its own state is missing. */
  predicate ByProduct(p: Pool) {
    || p.kind in {ConstantProduct, BondingCurve}
    || (p.kind == Concentrated && p.clmm.None?) || (p.kind == DiscreteBins && p.dlmm.None?)
  }

  /** The same pool with its two sides exchanged. */
  function Mirror(p: Pool): Pool {
    p.(tokenA := p.tokenB, tokenB := p.tokenA, reserveA := p.reserveB, reserveB := p.reserveA)
  }

  /** Which side of a pool is called A does not matter. */
  lemma MirrorQuotesAlike(d: Doubles, p: Pool, t: Mint, x: int)
    requires ByProduct(p) && p.tokenA != p.tokenB
    ensures QuotePool(d, p, t, x) == QuotePool(d, Mirror(p), t, x)
  {
  }

  /** With these reserves of the input and the output token, an output of `o` is payable for a gross input of `x`. */
  ghost predicate Payable(x: int, feeBps: int, reserveIn: int, reserveOut: int, o: int) {
    exists a :: Left(a, x, feeBps) && (reserveIn + a) * (reserveOut - o) >= reserveIn * reserveOut
  }

  /** The quote is the largest output after which the product of the reserves, without the fee, has not fallen. */
  lemma QuoteIsLargestPayable(d: Doubles, p: Pool, x: int, o: int)
    requires ByProduct(p) && 0 < x && 0 < p.reserveA && 0 < p.reserveB && p.feeBps <= 10_000
    ensures var q := QuotePool(d, p, p.tokenA, x);
            q.Some? && (o <= q.value <==> Payable(x, p.feeBps, p.reserveA, p.reserveB, o))
    ensures var q := QuotePool(d, p, p.tokenB, x);
            p.tokenA != p.tokenB ==> q.Some? && (o <= q.value <==> Payable(x, p.feeBps, p.reserveB, p.reserveA, o))
  {
    OutputOnGrossInput(x, p.reserveA, p.reserveB, p.feeBps, o);
    OutputOnGrossInput(x, p.reserveB, p.reserveA, p.feeBps, o);
  }

  /** The pool after a trade of tokenA that credits `credited` of the input. */
  function AfterTrade(p: Pool, credited: int, out: int): Pool {
    p.(reserveA := p.reserveA + credited, reserveB := p.reserveB - out)
  }

  /**
   * Selling the output back to the pool, with its reserves updated, never returns more than was put in, whether the
   * fee is credited or not; and from the other side likewise.
   */
  lemma SellingBackNeverProfits(d: Doubles, p: Pool, x: int, credited: int)
    requires ByProduct(p) && p.tokenA != p.tokenB && 0 < p.reserveA && 0 < p.reserveB
    requires 0 < x && 0 <= p.feeBps && 0 <= credited <= x && x * (10_000 - p.feeBps) < (credited + 1) * 10_000
    ensures var out := QuotePool(d, p, p.tokenA, x);
            && out.Some?
            && var back := QuotePool(d, AfterTrade(p, credited, out.value), p.tokenB, out.value);
            back.Some? && back.value <= x
    ensures var out := QuotePool(d, p, p.tokenB, x);
            && out.Some?
            && var back := QuotePool(d, Mirror(AfterTrade(Mirror(p), credited, out.value)), p.tokenA, out.value);
            back.Some? && back.value <= x
  {
    AtLeastAfterFee(x, p.feeBps, credited);
    RoundTripNeverProfits(x, p.reserveA, p.reserveB, p.feeBps, credited);
    RoundTripNeverProfits(x, p.reserveB, p.reserveA, p.feeBps, credited);
  }

  lemma AtLeastAfterFee(x: int, feeBps: int, credited: int)
    requires 0 < x && 0 <= credited && x * (10_000 - feeBps) < (credited + 1) * 10_000
    ensures AfterFee(x, feeBps) <= credited
  {
    if feeBps <= 10_000 {
      FeeLeaves(x, feeBps, credited + 1);
    } else {
      AfterFeeMono(x, x, feeBps);
    }
  }

  // ---------------------------------------------------------------- concentrated liquidity

  /** The input token of a trade that moves the price down, or up. */
  function InputToken(p: Pool, zeroForOne: bool): Mint {
    if zeroForOne then p.tokenA else p.tokenB
  }

  /**
   * The exact chain of the pool, as reserves of the token that is sold, brackets the quote: tokenA is sold into the
   * reserves of token0, tokenB into those of token1.
   */
  lemma ConcentratedQuote(d: Doubles, p: Pool, zeroForOne: bool, x: int, rem: int, b: seq<ClmmTick>, c: Ranges,
                          e: Ending, g: real)
    requires p.kind == Concentrated && p.clmm.Some? && Consistent(p.clmm.value) && p.tokenA != p.tokenB
    requires 0 <= x && p.feeBps <= 10_000 && LeftInFull(rem, x, p.feeBps)
    requires var s := p.clmm.value;
             && b == Reached(zeroForOne, s) && c == RangesOf(zeroForOne, b, s.sqrtPriceX64, s.liquidity)
             && e == EndOf(zeroForOne, Boundaries(zeroForOne, s), rem, s.sqrtPriceX64, s.liquidity)
    requires g == (x * (10_000 - p.feeBps)) as real / 10_000.0
    ensures QuotePool(d, p, InputToken(p, zeroForOne), x).Some? && 0.0 <= g && Chained(c)
    ensures var q := QuotePool(d, p, InputToken(p, zeroForOne), x).value as real;
            && q <= Pays(c, g + e.crossed as real) + GainAtEnd(zeroForOne, e)
            && (1.0 <= g ==> Pays(c, g - 1.0) - e.crossed as real - 1.0 - LossAtEnd(zeroForOne, e) < q)
  {
    QuoteNearExactChain(p.clmm.value, p.feeBps, zeroForOne, x, rem, b, c, e, g);
  }

  /** The price of token0 in token1 is the square of the square-root price, in units of 2^64. */
  lemma SpotOf(zeroForOne: bool, p: int, r: real)
    requires 0 < p && r == p as real / 18_446_744_073_709_551_616.0
    ensures 0.0 < r && SpotPrice(zeroForOne, p) == if zeroForOne then r * r else 1.0 / r / r
  {
  }

  /**
   * No quote beats the spot price by more than the rounding: `r` is the square root of the price of token0 in
   * token1, and `m` the input that the fee leaves, with a unit more for each range that is crossed.
   */
  lemma {:induction false} NeverBeatsSpot(d: Doubles, p: Pool, zeroForOne: bool, x: int, rem: int, e: Ending, g: real,
                                          m: real, r: real, price: real)
    requires p.kind == Concentrated && p.clmm.Some? && Consistent(p.clmm.value) && p.tokenA != p.tokenB
    requires 0 <= x && p.feeBps <= 10_000 && LeftInFull(rem, x, p.feeBps)
    requires var s := p.clmm.value;
             && e == EndOf(zeroForOne, Boundaries(zeroForOne, s), rem, s.sqrtPriceX64, s.liquidity)
             && r == s.sqrtPriceX64 as real / 18_446_744_073_709_551_616.0
    requires g == (x * (10_000 - p.feeBps)) as real / 10_000.0 && m == g + e.crossed as real && 0.0 < r
    requires price == if zeroForOne then r * r else 1.0 / r / r
    ensures QuotePool(d, p, InputToken(p, zeroForOne), x).Some?
    ensures QuotePool(d, p, InputToken(p, zeroForOne), x).value as real <= price * m + GainAtEnd(zeroForOne, e)
  {
    SpotOf(zeroForOne, p.clmm.value.sqrtPriceX64, r);
    QuoteBelowSpot(p.clmm.value, p.feeBps, zeroForOne, x, rem, e, g, m, price);
  }

  // ---------------------------------------------------------------- discrete bins

  /**
   * Where every single amount is floored exactly, the exact walk over the bins brackets the quote: tokenA is sold for
   * the Y of the active bin and the ones below, tokenB for the X of the active bin and the ones above.
   */
  lemma DiscreteQuote(d: Doubles, price: int -> real, limit: int, p: Pool, xForY: bool, x: int, rem: int,
                      bins: seq<DlmmBin>, k: int, g: real)
    requires p.kind == DiscreteBins && p.dlmm.Some? && p.tokenA != p.tokenB && bins == BinsAhead(p.dlmm.value, xForY)
    requires FloorsExactly(d, price, p.dlmm.value.binStep, limit)
    requires forall i :: 0 <= i < |bins| ==> Ordinary(price, limit, xForY, bins[i])
    requires 0 <= x && p.feeBps <= 10_000 && LeftInFull(rem, x, p.feeBps) && rem < limit
    requires k == Emptied(d, p.dlmm.value.binStep, xForY, bins, rem)
    requires g == (x * (10_000 - p.feeBps)) as real / 10_000.0
    ensures QuotePool(d, p, InputToken(p, xForY), x).Some? && 0.0 <= g
    ensures var q := QuotePool(d, p, InputToken(p, xForY), x).value as real;
            && q <= BinsPay(price, xForY, bins, g + k as real)
            && (1.0 <= g ==> BinsPay(price, xForY, bins, g - 1.0) - 1.0 < q)
  {
    BinQuoteRounding(d, price, limit, p.dlmm.value, p.feeBps, xForY, x, rem, bins, k, g);
  }

  // ---------------------------------------------------------------- nothing

  /** No input, or a fee that takes all of it, is paid nothing, whatever the pool. */
  lemma NothingIsPaidForNothing(d: Doubles, p: Pool, t: Mint, x: int)
    requires x <= 0 || 10_000 <= p.feeBps
    ensures QuoteWith(d)(p, t, x) == 0
  {
    if 0 < x {
      AfterFeeMono(x, x, p.feeBps);
      FeeLeaves(x, 10_000, 1);
    }
    if ByProduct(p) && Orient(p, t).Some? {
      var (rIn, rOut) := Orient(p, t).value;
      DegenerateInputsPayNothing(x, rIn, rOut, p.feeBps);
    }
  }
}
