/**
 * Exact-input quoting over concentrated liquidity: the tick walk of `clmmQuote`,
 * after section 6.2.3 of the Uniswap v3 Core whitepaper.
 */
module Clmm {
  import opened Common
  import opened Arithmetic
  import opened TickMath

  datatype ClmmTick = ClmmTick(tickIndex: int, liquidityNet: int)

  datatype RawState = RawState(sqrtPriceX64: int, liquidity: int, tickCurrent: int, ticks: seq<ClmmTick>)

  /** A snapshot carries a positive square-root price; with a zero price the code divides by zero. */
  type ClmmState = s: RawState | 0 < s.sqrtPriceX64 witness RawState(1, 0, 0, [])

  // ---------------------------------------------------------------- deltas and next prices

  /** token0 between two square-root prices, in either order. */
  function Amount0Delta(sqrtA: int, sqrtB: int, L: int): int
    requires 0 < sqrtA && 0 < sqrtB
  {
    var (a, b) := if sqrtA > sqrtB then (sqrtB, sqrtA) else (sqrtA, sqrtB);
    JsDiv(L * Q64 * (b - a), b * a)
  }

  /** token1 between two square-root prices, in either order; `>>` floors. */
  function Amount1Delta(sqrtA: int, sqrtB: int, L: int): int {
    var (a, b) := if sqrtA > sqrtB then (sqrtB, sqrtA) else (sqrtA, sqrtB);
    L * (b - a) / Q64
  }

  /** The square-root price after adding token0: it falls. */
  function NextSqrtFromAmount0(sqrtP: int, L: int, amount0: int): int
    requires 0 < sqrtP && 0 < L && 0 <= amount0
  {
    L * Q64 * sqrtP / (L * Q64 + amount0 * sqrtP)
  }

  /** The square-root price after adding token1: it rises. */
  function NextSqrtFromAmount1(sqrtP: int, L: int, amount1: int): int
    requires 0 < L && 0 <= amount1
  {
    sqrtP + amount1 * Q64 / L
  }

  // ---------------------------------------------------------------- one segment

  /** The input that carries the price from `p` to the tick price `t`. */
  function MaxIn(zeroForOne: bool, p: int, t: int, L: int): int
    requires 0 < p && 0 < t
  {
    if zeroForOne then Amount0Delta(t, p, L) else Amount1Delta(p, t, L)
  }

  /** The output of crossing the whole segment from `p` to `t`. */
  function CrossOut(zeroForOne: bool, p: int, t: int, L: int): int
    requires 0 < p && 0 < t
  {
    if zeroForOne then Amount1Delta(t, p, L) else Amount0Delta(p, t, L)
  }

  /** Where a fill that stays inside the segment leaves the price. */
  function NextSqrt(zeroForOne: bool, rem: int, p: int, L: int): int
    requires 0 < p && 0 < L && 0 <= rem
  {
    if zeroForOne then NextSqrtFromAmount0(p, L, rem) else NextSqrtFromAmount1(p, L, rem)
  }

  /** The output of a fill that stays inside the segment. */
  function FillOut(zeroForOne: bool, rem: int, p: int, L: int): int
    requires 0 < p && 0 < L && 0 <= rem
  {
    NextSqrtRange(zeroForOne, rem, p, L);
    var next := NextSqrt(zeroForOne, rem, p, L);
    if zeroForOne then Amount1Delta(next, p, L) else Amount0Delta(p, next, L)
  }

  /** Whether the loop takes its crossing branch. */
  predicate Crosses(zeroForOne: bool, rem: int, p: int, t: int, L: int)
    requires 0 < p && 0 < t
  {
    rem >= MaxIn(zeroForOne, p, t, L) && MaxIn(zeroForOne, p, t, L) > 0
  }

  function LiquidityAfter(zeroForOne: bool, L: int, tick: ClmmTick): int {
    if zeroForOne then L - tick.liquidityNet else L + tick.liquidityNet
  }

  // ---------------------------------------------------------------- the walk

  datatype Fill = Fill(out: int, price: int)

  /** What the loop and the final fill add to `out`, and where they leave the price. */
  function Walk(zeroForOne: bool, bounds: seq<ClmmTick>, rem: int, p: int, L: int): Fill
    requires 0 < p
    decreases |bounds|
  {
    if rem <= 0 || L <= 0 then Fill(0, p)
    else if bounds == [] then Fill(FillOut(zeroForOne, rem, p, L), NextSqrt(zeroForOne, rem, p, L))
    else
      var t := SqrtRatioAtTick(bounds[0].tickIndex);
      if Crosses(zeroForOne, rem, p, t, L) then
        var rest := Walk(zeroForOne, bounds[1..], rem - MaxIn(zeroForOne, p, t, L), t,
                         LiquidityAfter(zeroForOne, L, bounds[0]));
        Fill(CrossOut(zeroForOne, p, t, L) + rest.out, rest.price)
      else
        Fill(FillOut(zeroForOne, rem, p, L), NextSqrt(zeroForOne, rem, p, L))
  }

  /** Whether `a` may stand before `b` in the direction of travel. */
  predicate InOrder(zeroForOne: bool, a: ClmmTick, b: ClmmTick) {
    if zeroForOne then a.tickIndex >= b.tickIndex else a.tickIndex <= b.tickIndex
  }

  /** Whether the tick lies in the direction of travel. */
  predicate Ahead(zeroForOne: bool, current: int, t: ClmmTick) {
    if zeroForOne then t.tickIndex <= current else t.tickIndex > current
  }

  function FilterAhead(zeroForOne: bool, current: int, ticks: seq<ClmmTick>): seq<ClmmTick> {
    if ticks == [] then []
    else if Ahead(zeroForOne, current, ticks[0]) then [ticks[0]] + FilterAhead(zeroForOne, current, ticks[1..])
    else FilterAhead(zeroForOne, current, ticks[1..])
  }

  /** A stable insertion: equal ticks keep their original order. */
  function Insert(zeroForOne: bool, t: ClmmTick, sorted: seq<ClmmTick>): seq<ClmmTick> {
    if sorted == [] || InOrder(zeroForOne, t, sorted[0]) then [t] + sorted
    else [sorted[0]] + Insert(zeroForOne, t, sorted[1..])
  }

  function Sort(zeroForOne: bool, ticks: seq<ClmmTick>): seq<ClmmTick> {
    if ticks == [] then [] else Insert(zeroForOne, ticks[0], Sort(zeroForOne, ticks[1..]))
  }

  /** The initialized ticks ahead of the price, in the order they are met. */
  function Boundaries(zeroForOne: bool, s: ClmmState): seq<ClmmTick> {
    Sort(zeroForOne, FilterAhead(zeroForOne, s.tickCurrent, s.ticks))
  }

  /** The quote of `amountIn`; `Walk` returns nothing for an empty remainder. */
  function ClmmQuote(s: ClmmState, feeBps: int, zeroForOne: bool, amountIn: int): int {
    if amountIn <= 0 || s.liquidity <= 0 then 0
    else Walk(zeroForOne, Boundaries(zeroForOne, s), AfterFee(amountIn, feeBps), s.sqrtPriceX64, s.liquidity).out
  }

  /** `clmmQuote`: the loop over the boundary ticks and the final fill. */
  method QuoteByWalking(s: ClmmState, feeBps: int, zeroForOne: bool, amountIn: int) returns (out: int)
    ensures out == ClmmQuote(s, feeBps, zeroForOne, amountIn)
  {
    if amountIn <= 0 || s.liquidity <= 0 {
      return 0;
    }
    var remaining := JsDiv(amountIn * (BPS - feeBps), BPS);
    if remaining <= 0 {
      return 0;
    }
    var sqrtP, L := s.sqrtPriceX64, s.liquidity;
    out := 0;
    var boundaries := Boundaries(zeroForOne, s);
    ghost var total := Walk(zeroForOne, boundaries, remaining, sqrtP, L).out;
    var i := 0;
    while i < |boundaries|
      invariant 0 <= i <= |boundaries| && 0 < sqrtP
      invariant out + Walk(zeroForOne, boundaries[i..], remaining, sqrtP, L).out == total
    {
      if remaining <= 0 || L <= 0 {
        break;
      }
      assert boundaries[i..][0] == boundaries[i] && boundaries[i..][1..] == boundaries[i + 1..];
      var sqrtTarget := GetSqrtRatioAtTick(boundaries[i].tickIndex);
      if zeroForOne {
        var maxIn := Amount0Delta(sqrtTarget, sqrtP, L);
        if remaining >= maxIn && maxIn > 0 {
          out := out + Amount1Delta(sqrtTarget, sqrtP, L);
          remaining := remaining - maxIn;
          sqrtP := sqrtTarget;
          L := L - boundaries[i].liquidityNet;
        } else {
          var sqrtNext := NextSqrtFromAmount0(sqrtP, L, remaining);
          out := out + Amount1Delta(sqrtNext, sqrtP, L);
          remaining := 0;
          break;
        }
      } else {
        var maxIn := Amount1Delta(sqrtP, sqrtTarget, L);
        if remaining >= maxIn && maxIn > 0 {
          out := out + Amount0Delta(sqrtP, sqrtTarget, L);
          remaining := remaining - maxIn;
          sqrtP := sqrtTarget;
          L := L + boundaries[i].liquidityNet;
        } else {
          NextSqrtRange(false, remaining, sqrtP, L);
          var sqrtNext := NextSqrtFromAmount1(sqrtP, L, remaining);
          out := out + Amount0Delta(sqrtP, sqrtNext, L);
          remaining := 0;
          break;
        }
      }
      i := i + 1;
    }
    if remaining > 0 && L > 0 {
      if zeroForOne {
        var sqrtNext := NextSqrtFromAmount0(sqrtP, L, remaining);
        out := out + Amount1Delta(sqrtNext, sqrtP, L);
      } else {
        NextSqrtRange(false, remaining, sqrtP, L);
        var sqrtNext := NextSqrtFromAmount1(sqrtP, L, remaining);
        out := out + Amount0Delta(sqrtP, sqrtNext, L);
      }
    }
  }

  // ---------------------------------------------------------------- facts about one segment

  lemma FractionDenominator(rem: int, p: int, L: int)
    requires 0 < p && 0 < L && 0 <= rem
    ensures 0 < L * Q64 <= L * Q64 + rem * p
  {
  }

  /** A fill moves the price in the direction of the swap. */
  lemma NextSqrtRange(zeroForOne: bool, rem: int, p: int, L: int)
    requires 0 < p && 0 < L && 0 <= rem
    ensures zeroForOne ==> 0 <= NextSqrt(zeroForOne, rem, p, L) <= p
    ensures !zeroForOne ==> p <= NextSqrt(zeroForOne, rem, p, L)
  {
    if zeroForOne {
      var n, d := L * Q64 * p, L * Q64 + rem * p;
      FloorGalois(n, d, p + 1);
    } else {
      FloorGalois(rem * Q64, L, 0);
    }
  }

  /** More input moves the price at least as far. */
  lemma NextSqrtMono(zeroForOne: bool, r1: int, r2: int, p: int, L: int)
    requires 0 < p && 0 < L && 0 <= r1 <= r2
    ensures zeroForOne ==> NextSqrt(zeroForOne, r2, p, L) <= NextSqrt(zeroForOne, r1, p, L)
    ensures !zeroForOne ==> NextSqrt(zeroForOne, r1, p, L) <= NextSqrt(zeroForOne, r2, p, L)
  {
    if zeroForOne {
      var n, d1, d2 := L * Q64 * p, L * Q64 + r1 * p, L * Q64 + r2 * p;
      FractionMono(n, d2, n, d1);
    } else {
      DivMono(r1 * Q64, r2 * Q64, L);
    }
  }

  lemma Amount1Mono(a: int, b: int, L: int)
    requires 0 <= L && 0 <= a <= b
    ensures 0 <= L * a / Q64 <= L * b / Q64
  {
  }

  /** token0 between `p` and a higher price grows with the higher price. */
  lemma Amount0Mono(p: int, b: int, c: int, L: int)
    requires 0 < p <= b <= c && 0 <= L
    ensures 0 <= Amount0Delta(p, b, L) <= Amount0Delta(p, c, L)
  {
    Amount0Compare(b - p, b * p, c - p, c * p, L) by {
      MulMono(b, c, p * p);
    }
  }

  lemma Amount0Compare(n1: int, d1: int, n2: int, d2: int, L: int)
    requires 0 <= n1 && 0 <= n2 && 0 < d1 && 0 < d2 && 0 <= L
    requires n1 * d2 <= n2 * d1
    ensures 0 <= JsDiv(L * Q64 * n1, d1) <= JsDiv(L * Q64 * n2, d2)
  {
    var m := L * Q64;
    MulMono(0, n2, m);
    FractionMono(m * n1, d1, m * n2, d2);
  }

  lemma FillMono(zeroForOne: bool, r1: int, r2: int, p: int, L: int)
    requires 0 < p && 0 < L && 0 <= r1 <= r2
    ensures 0 <= FillOut(zeroForOne, r1, p, L) <= FillOut(zeroForOne, r2, p, L)
  {
    NextSqrtRange(zeroForOne, r1, p, L);
    NextSqrtMono(zeroForOne, r1, r2, p, L);
    var n1, n2 := NextSqrt(zeroForOne, r1, p, L), NextSqrt(zeroForOne, r2, p, L);
    if zeroForOne {
      Amount1Mono(p - n1, p - n2, L);
    } else {
      Amount0Mono(p, n1, n2, L);
    }
  }

  /** What an input below `MaxIn` satisfies, before any rounding. */
  lemma BelowMaxIn(zeroForOne: bool, rem: int, p: int, t: int, L: int)
    requires 0 < p && 0 < t && 0 < L && 0 <= rem <= MaxIn(zeroForOne, p, t, L)
    ensures zeroForOne ==> rem * (p * t) <= L * Q64 * Abs(p - t)
    ensures !zeroForOne ==> rem * Q64 <= L * Abs(p - t)
  {
  }

  /** The token0 fill, over `m` = liquidity * 2^64: an input that could move the price by `w` moves it at most `w`. */
  lemma FallAtMost(m: int, p: int, t: int, w: int, rem: int)
    requires 0 < m && 0 < p && 0 <= w && 0 <= rem && p - w <= t
    requires rem * (p * t) <= m * w
    ensures 0 < m + rem * p && p - w <= m * p / (m + rem * p)
  {
    var x := rem * p;
    assert x * t <= m * w by { assert rem * (p * t) == rem * p * t; }
    MulMono(p - w, t, x);
    assert (p - w) * (m + x) == p * m - w * m + (p - w) * x;
    FloorGalois(m * p, m + x, p - w);
  }

  /** The token1 fill: an input that could move the price by `w` moves it at most `w`. */
  lemma RiseAtMost(L: int, w: int, rem: int)
    requires 0 < L && 0 <= w && rem * Q64 <= L * w
    ensures rem * Q64 / L <= w
  {
  }

  /** A fill below `MaxIn` moves the price by no more than the segment is wide. */
  lemma MoveAtMostWidth(zeroForOne: bool, rem: int, p: int, t: int, L: int)
    requires 0 < p && 0 < t && 0 < L && 0 <= rem <= MaxIn(zeroForOne, p, t, L)
    ensures Abs(NextSqrt(zeroForOne, rem, p, L) - p) <= Abs(p - t)
  {
    BelowMaxIn(zeroForOne, rem, p, t, L);
    NextSqrtRange(zeroForOne, rem, p, L);
    if zeroForOne {
      FallAtMost(L * Q64, p, t, Abs(p - t), rem);
    } else {
      RiseAtMost(L, Abs(p - t), rem);
    }
  }

  /** A fill below `MaxIn` pays no more than crossing the segment does. */
  lemma FillBelowCross(zeroForOne: bool, rem: int, p: int, t: int, L: int)
    requires 0 < p && 0 < t && 0 < L && 0 <= rem <= MaxIn(zeroForOne, p, t, L)
    ensures 0 <= FillOut(zeroForOne, rem, p, L) <= CrossOut(zeroForOne, p, t, L)
  {
    MoveAtMostWidth(zeroForOne, rem, p, t, L);
    NextSqrtRange(zeroForOne, rem, p, L);
    var next, w := NextSqrt(zeroForOne, rem, p, L), Abs(p - t);
    if zeroForOne {
      Amount1Mono(p - next, w, L);
    } else {
      ShorterMove(p, next, t);
      Amount0Compare(next - p, next * p, w, t * p, L);
      assert t * p == p * t;
    }
  }

  /** Moving up by at most the distance to `t` takes no more token0, for `t` on either side of `p`. */
  lemma ShorterMove(p: int, next: int, t: int)
    requires 0 < p <= next && 0 < t && next - p <= Abs(p - t)
    ensures 0 < next * p && 0 < t * p
    ensures (next - p) * (t * p) <= Abs(p - t) * (next * p)
  {
    MulMono(1, t, p);
    if t >= p {
      var a, b := (next - p) * t, (t - p) * next;
      MulMono(a, b, p);
    } else {
      MulMono(next - p, p - t, t * p);
      MulMono(t, next, p);
      MulMono(t * p, next * p, p - t);
    }
  }

  lemma CrossOutNonNegative(zeroForOne: bool, p: int, t: int, L: int)
    requires 0 < p && 0 < t && 0 < L
    ensures 0 <= CrossOut(zeroForOne, p, t, L)
  {
    if zeroForOne {
      Amount1Mono(Abs(p - t), Abs(p - t), L);
    } else {
      var lo, hi := if p > t then t else p, if p > t then p else t;
      MulMono(0, hi - lo, L * Q64);
      MulMono(1, lo, hi);
      FloorGalois(L * Q64 * (hi - lo), hi * lo, 0);
    }
  }

  // ---------------------------------------------------------------- monotonicity of the quote

  lemma {:induction false} WalkNonNegative(zeroForOne: bool, bounds: seq<ClmmTick>, rem: int, p: int, L: int)
    requires 0 < p
    ensures 0 <= Walk(zeroForOne, bounds, rem, p, L).out
    decreases |bounds|
  {
    if rem > 0 && L > 0 {
      FillMono(zeroForOne, rem, rem, p, L);
      if bounds != [] {
        var t := SqrtRatioAtTick(bounds[0].tickIndex);
        CrossOutNonNegative(zeroForOne, p, t, L);
        if Crosses(zeroForOne, rem, p, t, L) {
          WalkNonNegative(zeroForOne, bounds[1..], rem - MaxIn(zeroForOne, p, t, L), t,
                          LiquidityAfter(zeroForOne, L, bounds[0]));
        }
      }
    }
  }

  /** More input never lowers the output, whatever ticks the walk meets and in whatever order. */
  lemma {:induction false} WalkMono(zeroForOne: bool, bounds: seq<ClmmTick>, r1: int, r2: int, p: int, L: int)
    requires 0 < p && r1 <= r2
    ensures Walk(zeroForOne, bounds, r1, p, L).out <= Walk(zeroForOne, bounds, r2, p, L).out
    decreases |bounds|
  {
    WalkNonNegative(zeroForOne, bounds, r2, p, L);
    if r1 > 0 && L > 0 {
      FillMono(zeroForOne, r1, r2, p, L);
      if bounds != [] {
        var t := SqrtRatioAtTick(bounds[0].tickIndex);
        var maxIn, L' := MaxIn(zeroForOne, p, t, L), LiquidityAfter(zeroForOne, L, bounds[0]);
        if Crosses(zeroForOne, r1, p, t, L) {
          WalkMono(zeroForOne, bounds[1..], r1 - maxIn, r2 - maxIn, t, L');
        } else if Crosses(zeroForOne, r2, p, t, L) {
          FillBelowCross(zeroForOne, r1, p, t, L);
          WalkNonNegative(zeroForOne, bounds[1..], r2 - maxIn, t, L');
        }
      }
    }
  }

  /** The quote never falls as the input grows, in either direction, for every snapshot and every fee. */
  lemma QuoteMonotone(s: ClmmState, feeBps: int, zeroForOne: bool, x: int, y: int)
    requires x <= y
    ensures 0 <= ClmmQuote(s, feeBps, zeroForOne, x) <= ClmmQuote(s, feeBps, zeroForOne, y)
  {
    var bounds := Boundaries(zeroForOne, s);
    if y > 0 && s.liquidity > 0 {
      WalkNonNegative(zeroForOne, bounds, AfterFee(y, feeBps), s.sqrtPriceX64, s.liquidity);
      if x > 0 {
        AfterFeeMono(x, y, feeBps);
        WalkNonNegative(zeroForOne, bounds, AfterFee(x, feeBps), s.sqrtPriceX64, s.liquidity);
        if feeBps <= BPS {
          WalkMono(zeroForOne, bounds, AfterFee(x, feeBps), AfterFee(y, feeBps), s.sqrtPriceX64, s.liquidity);
        }
      }
    }
  }
}
