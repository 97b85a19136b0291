/**
 * The rounding of a whole quote: what all the floors of a tick walk add up to, against the walk without any
 * rounding.
 */
module ClmmRounding {
  import opened Common
  import opened Arithmetic
  import opened TickMath
  import opened Clmm
  import opened ClmmPath
  import opened ExactCurve

  // ---------------------------------------------------------------- the exact curve of a tick walk

  /** The virtual reserve of a token at the square-root price `p`: token0, L / sqrt(P), or token1, L * sqrt(P). */
  function Reserve(zero: bool, p: int, L: int): (r: real)
    requires 0 < p
    ensures 0 < L ==> 0.0 < r
  {
    if zero then (L * Q64) as real / p as real else (L * p) as real / Q64 as real
  }

  /** Inside a range the product of the two virtual reserves stays L * L. */
  function Product(L: int): real {
    (L * L) as real
  }

  /**
   * The ranges of a walk, as reserves of the input token: exact but for the tick prices themselves
   * (sections 6.1 and 6.2 of the Uniswap v3 Core whitepaper).
   */
  function RangesOf(zeroForOne: bool, bounds: seq<ClmmTick>, p: int, L: int): Ranges
    requires 0 < p
    decreases |bounds|
  {
    if L <= 0 then Nothing
    else if bounds == [] then Last(Product(L), Reserve(zeroForOne, p, L))
    else
      var t := SqrtRatioAtTick(bounds[0].tickIndex);
      Range(Product(L), Reserve(zeroForOne, p, L), Reserve(zeroForOne, t, L),
            RangesOf(zeroForOne, bounds[1..], t, LiquidityAfter(zeroForOne, L, bounds[0])))
  }

  /** What an infinitesimal input is paid at the square-root price `p`, whatever the liquidity. */
  function SpotPrice(zeroForOne: bool, p: int): real
    requires 0 < p
  {
    var x := p as real / Q64 as real;
    if zeroForOne then x * x else 1.0 / x / x
  }

  lemma OtherReserve(zero: bool, p: int, L: int)
    requires 0 < p && 0 < L
    ensures Product(L) / Reserve(zero, p, L) == Reserve(!zero, p, L)
  {
    var l, q, x := L as real, Q64 as real, p as real;
    assert (L * Q64) as real == l * q && (L * p) as real == l * x && Product(L) == l * l;
    QuotientOfReserve(l, q, x);
    QuotientOfReserve(l, x, q);
  }

  lemma QuotientOfReserve(l: real, q: real, x: real)
    requires 0.0 < l && 0.0 < q && 0.0 < x
    ensures 0.0 < l * q / x && l * l / (l * q / x) == l * x / q
  {
    var r, o := l * q / x, l * x / q;
    assert r * x == l * q && o * q == l * x;
    assert 0.0 < r by { if r <= 0.0 { RealMulMono(r, 0.0, x); } }
    assert o * r == l * l by {
      assert (o * r) * (q * x) == (o * q) * (r * x) == (l * x) * (l * q) == (l * l) * (q * x);
      RealCancel(o * r, l * l, q * x);
    }
  }

  lemma RealCancel(a: real, b: real, m: real)
    requires 0.0 < m && a * m == b * m
    ensures a == b
  {
    if a < b {
      RealMulStrict(a, b, m);
    } else if b < a {
      RealMulStrict(b, a, m);
    }
  }

  lemma SpotIsMarginal(zeroForOne: bool, p: int, L: int)
    requires 0 < p && 0 < L
    ensures Marginal(Product(L), Reserve(zeroForOne, p, L)) == SpotPrice(zeroForOne, p)
  {
    var l, q, x := L as real, Q64 as real, p as real;
    assert (L * Q64) as real == l * q && (L * p) as real == l * x;
    OtherReserve(zeroForOne, p, L);
    if zeroForOne {
      RatioOfReserves(l, q, x);
    } else {
      RatioOfReserves(l, x, q);
      InverseTwice(x, q);
    }
  }

  lemma RatioOfReserves(l: real, q: real, x: real)
    requires 0.0 < l && 0.0 < q && 0.0 < x
    ensures 0.0 < l * q / x && (l * x / q) / (l * q / x) == (x / q) * (x / q)
  {
    var r, o, y := l * q / x, l * x / q, x / q;
    assert r * x == l * q && o * q == l * x && y * q == x;
    assert 0.0 < r by { if r <= 0.0 { RealMulMono(r, 0.0, x); } }
    assert y * y * r == o by {
      assert (y * y * r) * (q * x) == (y * q) * (y * (r * x));
      assert (y * q) * (y * (r * x)) == x * (y * (l * q)) == x * (l * (y * q)) == (o * q) * x;
      RealCancel(y * y * r, o, q * x);
    }
  }

  lemma InverseTwice(x: real, q: real)
    requires 0.0 < x && 0.0 < q
    ensures 0.0 < x / q && 1.0 / (x / q) / (x / q) == (q / x) * (q / x)
  {
    var y, z := x / q, q / x;
    assert y * q == x && z * x == q;
    assert 0.0 < y by { if y <= 0.0 { RealMulMono(y, 0.0, q); } }
    assert z * y == 1.0 by { RealCancel(z * y, 1.0, q); }
    assert 1.0 / y == z;
    assert (z * z) * y == z;
  }

  lemma ReserveGrows(zeroForOne: bool, p: int, t: int, L: int)
    requires 0 < p && 0 < t && 0 < L && Beyond(zeroForOne, p, t)
    ensures Reserve(zeroForOne, p, L) <= Reserve(zeroForOne, t, L)
  {
    if zeroForOne {
      RealReciprocalMono((L * Q64) as real, t as real, p as real);
    } else {
      MulMono(p, t, L);
      RealDivMono((L * p) as real, (L * t) as real, Q64 as real);
    }
  }

  /** The ranges of a walk that only moves forward are chained: crossing a tick changes the liquidity, not the price. */
  lemma {:induction false} RangesAreChained(zeroForOne: bool, bounds: seq<ClmmTick>, p: int, L: int)
    requires 0 < p && Downstream(zeroForOne, p, bounds)
    ensures Chained(RangesOf(zeroForOne, bounds, p, L))
    ensures Spot(RangesOf(zeroForOne, bounds, p, L)) <= SpotPrice(zeroForOne, p)
    decreases |bounds|
  {
    SpotIsMarginal(zeroForOne, p, 1);
    MarginalFalls(1.0, Reserve(zeroForOne, p, 1), Reserve(zeroForOne, p, 1));
    if L > 0 {
      MulMono(1, L, L);
      SpotIsMarginal(zeroForOne, p, L);
      if bounds != [] {
        var t := SqrtRatioAtTick(bounds[0].tickIndex);
        ReserveGrows(zeroForOne, p, t, L);
        SpotIsMarginal(zeroForOne, t, L);
        RangesAreChained(zeroForOne, bounds[1..], t, LiquidityAfter(zeroForOne, L, bounds[0]));
      }
    }
  }

  // ---------------------------------------------------------------- the code's amounts, against that curve

  /** The exact input that crosses a range, and its exact payment. */
  lemma CrossingIsExact(zeroForOne: bool, p: int, t: int, L: int)
    requires 0 < p && 0 < t && 0 < L && Beyond(zeroForOne, p, t)
    ensures var r, q := Reserve(zeroForOne, p, L), Reserve(zeroForOne, t, L);
            var taken, paid := MaxIn(zeroForOne, p, t, L) as real, CrossOut(zeroForOne, p, t, L) as real;
            taken <= q - r < taken + 1.0 && paid <= Paid(Product(L), r, q) < paid + 1.0
  {
    CrossingIsRounded(zeroForOne, p, t, L);
    OtherReserve(zeroForOne, p, L);
    OtherReserve(zeroForOne, t, L);
    var hi, lo := if zeroForOne then p else t, if zeroForOne then t else p;
    TokenOneIsLinear(lo, hi, L);
  }

  lemma TokenOneIsLinear(lo: int, hi: int, L: int)
    requires 0 < lo && 0 < hi
    ensures (L * (hi - lo)) as real / Q64 as real == Reserve(false, hi, L) - Reserve(false, lo, L)
  {
    assert (L * (hi - lo)) as real == (L * hi) as real - (L * lo) as real;
  }

  /** The reserves of both tokens, over the reals. */
  lemma ReservesAsReals(p: int, L: int, l: real, q: real, x: real)
    requires 0 < p && 0 < L && l == L as real && q == Q64 as real && x == p as real
    ensures Reserve(true, p, L) == l * q / x && Reserve(false, p, L) == l * x / q && Product(L) == l * l
  {
    assert (L * Q64) as real == l * q && (L * p) as real == l * x;
  }

  /** The payment of a fill of `rem`: token1 for token0, */
  lemma DownFillIsExact(rem: int, p: int, L: int, l: real, q: real, x: real, d: real, r: real)
    requires 0 < p && 0 < L && 0 <= rem && r == Reserve(true, p, L)
    requires l == L as real && q == Q64 as real && x == p as real && d == rem as real
    ensures ExactOut0(rem, p, L) == Paid(Product(L), r, r + d)
  {
    FractionDenominator(rem, p, L);
    assert (L * Q64 * p) as real == l * q * x && (L * Q64 + rem * p) as real == l * q + d * x;
    ReservesAsReals(p, L, l, q, x);
    DownFill(l, q, x, d, ExactNext0(rem, p, L), r);
    OtherReserve(true, p, L);
  }

  /** and token0 for token1. */
  lemma UpFillIsExact(rem: int, p: int, L: int, l: real, q: real, x: real, d: real, r: real)
    requires 0 < p && 0 < L && 0 <= rem && r == Reserve(false, p, L)
    requires l == L as real && q == Q64 as real && x == p as real && d == rem as real
    ensures 0.0 < ExactNext1(rem, p, L)
    ensures Curve0(p as real, ExactNext1(rem, p, L), L) == Paid(Product(L), r, r + d)
  {
    assert (rem * Q64) as real == d * q && (L * Q64) as real == l * q;
    ReservesAsReals(p, L, l, q, x);
    UpFill(l, q, x, d, ExactNext1(rem, p, L), r);
    OtherReserve(false, p, L);
  }

  lemma DownFill(l: real, q: real, x: real, d: real, next: real, r: real)
    requires 0.0 < l && 0.0 < q && 0.0 < x && 0.0 <= d && 0.0 < l * q + d * x && next == l * q * x / (l * q + d * x)
    requires r == l * q / x
    ensures 0.0 < r + d && l * (x - next) / q == l * x / q - l * l / (r + d)
  {
    var y := r + d;
    assert r * x == l * q;
    assert y * x == l * q + d * x;
    assert 0.0 < y by { if y <= 0.0 { RealMulMono(y, 0.0, x); } }
    assert next * (l * q + d * x) == l * q * x;
    NextReserve(next, y, x, l * q, l * q + d * x);
    PaidReserve(l, q, next, y);
    assert l * (x - next) == l * x - l * next;
  }

  lemma NextReserve(next: real, y: real, x: real, m: real, n: real)
    requires 0.0 < x && next * n == m * x && y * x == n
    ensures next * y == m
  {
    assert (next * y) * x == next * (y * x);
    RealCancel(next * y, m, x);
  }

  lemma PaidReserve(l: real, q: real, next: real, y: real)
    requires 0.0 < q && 0.0 < y && next * y == l * q
    ensures l * next / q == l * l / y
  {
    var a := l * next / q;
    assert a * q == l * next;
    assert (a * y) * q == (a * q) * y == l * (next * y) == (l * l) * q;
    RealCancel(a * y, l * l, q);
  }

  lemma UpFill(l: real, q: real, x: real, d: real, next: real, r: real)
    requires 0.0 < l && 0.0 < q && 0.0 < x && 0.0 <= d && next == x + d * q / l && r == l * x / q
    ensures 0.0 < next && 0.0 < r + d && l * q / next == l * l / (r + d)
  {
    var y, m := r + d, d * q / l;
    assert m * l == d * q && r * q == l * x;
    assert 0.0 <= m by { if m < 0.0 { RealMulStrict(m, 0.0, l); } }
    assert y * q == l * x + d * q == l * next;
    assert 0.0 < y by { if y <= 0.0 { RealMulMono(y, 0.0, q); RealMulStrict(0.0, next, l); } }
    var v := l * l / y;
    assert v * y == l * l;
    assert v * next == l * q by {
      assert (v * next) * l == v * (y * q) == (l * q) * l;
      RealCancel(v * next, l * q, l);
    }
  }

  // ---------------------------------------------------------------- the whole walk

  /** The walk comes to no boundary before which not even one unit of input fits. */
  ghost predicate Roomy(zeroForOne: bool, bounds: seq<ClmmTick>, rem: int, p: int, L: int)
    requires 0 < p
    decreases |bounds|
  {
    rem <= 0 || L <= 0 || bounds == [] ||
    var t := SqrtRatioAtTick(bounds[0].tickIndex);
    && MaxIn(zeroForOne, p, t, L) > 0
    && (Crosses(zeroForOne, rem, p, t, L) ==>
          Roomy(zeroForOne, bounds[1..], rem - MaxIn(zeroForOne, p, t, L), t, LiquidityAfter(zeroForOne, L, bounds[0])))
  }

  /** How many ranges the walk crosses, and the range in which it ends. */
  datatype Ending = Ending(crossed: nat, price: int, liquidity: int)

  function EndOf(zeroForOne: bool, bounds: seq<ClmmTick>, rem: int, p: int, L: int): (e: Ending)
    requires 0 < p
    ensures 0 < e.price && e.crossed <= |bounds|
    decreases |bounds|
  {
    if rem <= 0 || L <= 0 || bounds == [] then Ending(0, p, L)
    else
      var t := SqrtRatioAtTick(bounds[0].tickIndex);
      if Crosses(zeroForOne, rem, p, t, L) then
        var e := EndOf(zeroForOne, bounds[1..], rem - MaxIn(zeroForOne, p, t, L), t,
                       LiquidityAfter(zeroForOne, L, bounds[0]));
        e.(crossed := e.crossed + 1)
      else Ending(0, p, L)
  }

  /** The most that rounding the final price can add to a payment of token1. */
  function GainAtEnd(zeroForOne: bool, e: Ending): real {
    if zeroForOne && e.liquidity > 0 then e.liquidity as real / Q64 as real else 0.0
  }

  /** The most that rounding the final price can take from a payment of token0. */
  function LossAtEnd(zeroForOne: bool, e: Ending): real
    requires 0 < e.price
  {
    if !zeroForOne && e.liquidity > 0 then (e.liquidity * Q64) as real / e.price as real / e.price as real else 0.0
  }

  lemma AtEndNonNegative(zeroForOne: bool, e: Ending)
    requires 0 < e.price
    ensures 0.0 <= GainAtEnd(zeroForOne, e) && 0.0 <= LossAtEnd(zeroForOne, e)
  {
    if e.liquidity > 0 {
      RealReciprocalMono((e.liquidity * Q64) as real, e.price as real, e.price as real);
      RealReciprocalMono((e.liquidity * Q64) as real / e.price as real, e.price as real, e.price as real);
    }
  }

  /** A fill that ends the walk. */
  lemma FillWithin(zeroForOne: bool, rem: int, p: int, L: int)
    requires 0 < p && 0 < L && 0 <= rem
    ensures var out, e := FillOut(zeroForOne, rem, p, L) as real, Ending(0, p, L);
            var r := Reserve(zeroForOne, p, L);
            && Paid(Product(L), r, r + rem as real) - 1.0 - LossAtEnd(zeroForOne, e) < out
            && out <= Paid(Product(L), r, r + rem as real) + GainAtEnd(zeroForOne, e)
  {
    if zeroForOne {
      DownFillIsExact(rem, p, L, L as real, Q64 as real, p as real, rem as real, Reserve(true, p, L));
      FillDownRounding(rem, p, L);
    } else {
      UpFillIsExact(rem, p, L, L as real, Q64 as real, p as real, rem as real, Reserve(false, p, L));
      FillUpRounding(rem, p, L);
    }
  }

  /**
   * An output for `rem` that crosses `k` ranges: at most a unit per crossing and one more below the exact curve, and
   * at most what the exact curve pays for `k` more units of input, since every crossing rounds its input down.
   */
  ghost predicate RoundedWithin(c: Ranges, out: real, rem: int, k: int, gain: real, loss: real)
    requires Chained(c) && 0 <= rem && 0 <= k
  {
    && Pays(c, rem as real) - k as real - 1.0 - loss < out
    && out <= Pays(c, (rem + k) as real) + gain
  }

  lemma CrossingBelow(c: Ranges, taken: int, paid: real, rest: real, rem: int, k: int, loss: real)
    requires Chained(c) && c.Range? && taken as real <= c.q - c.r && 0 <= taken <= rem && 0 <= k
    requires Paid(c.k, c.r, c.q) < paid + 1.0 && 0.0 <= rest && 0.0 <= loss
    requires Pays(c.rest, (rem - taken) as real) - k as real - 1.0 - loss < rest
    ensures Pays(c, rem as real) - (k + 1) as real - 1.0 - loss < paid + rest
  {
    var x := rem as real;
    if c.q - c.r <= x {
      PaysMore(c.rest, x - (c.q - c.r), (rem - taken) as real);
    } else {
      PaidMono(c.k, c.r, c.r + x, c.q);
    }
  }

  lemma CrossingAbove(c: Ranges, taken: int, paid: real, rest: real, rem: int, k: int, gain: real, x: real)
    requires Chained(c) && c.Range? && c.q - c.r < taken as real + 1.0 && 0 <= taken <= rem && 0 <= k
    requires paid <= Paid(c.k, c.r, c.q) && x == (rem + (k + 1)) as real
    requires rest <= Pays(c.rest, (rem - taken + k) as real) + gain
    ensures paid + rest <= Pays(c, x) + gain
  {
    PaysMore(c.rest, (rem - taken + k) as real, x - (c.q - c.r));
  }

  lemma {:induction false} CrossingWithin(zeroForOne: bool, p: int, t: int, L: int, c: Ranges, rest: int, rem: int,
                                          k: int, gain: real, loss: real)
    requires 0 < p && 0 < t && 0 < L && Beyond(zeroForOne, p, t) && Crosses(zeroForOne, rem, p, t, L)
    requires Chained(c) && c.Range? && c.k == Product(L) && c.r == Reserve(zeroForOne, p, L)
    requires c.q == Reserve(zeroForOne, t, L) && 0 <= rest && 0 <= k && 0.0 <= loss
    requires RoundedWithin(c.rest, rest as real, rem - MaxIn(zeroForOne, p, t, L), k, gain, loss)
    ensures RoundedWithin(c, (CrossOut(zeroForOne, p, t, L) + rest) as real, rem, k + 1, gain, loss)
  {
    var taken, paid := MaxIn(zeroForOne, p, t, L), CrossOut(zeroForOne, p, t, L) as real;
    CrossingIsExact(zeroForOne, p, t, L);
    CrossingBelow(c, taken, paid, rest as real, rem, k, loss);
    CrossingAbove(c, taken, paid, rest as real, rem, k, gain, (rem + (k + 1)) as real);
  }

  /** The walk over rounded amounts, against the walk over exact ones. */
  lemma {:induction false} WalkRounding(zeroForOne: bool, bounds: seq<ClmmTick>, rem: int, p: int, L: int, c: Ranges,
                                        e: Ending)
    requires 0 < p && 0 <= rem && Downstream(zeroForOne, p, bounds) && Roomy(zeroForOne, bounds, rem, p, L)
    requires c == RangesOf(zeroForOne, bounds, p, L) && e == EndOf(zeroForOne, bounds, rem, p, L)
    ensures Chained(c)
    ensures RoundedWithin(c, Walk(zeroForOne, bounds, rem, p, L).out as real, rem, e.crossed, GainAtEnd(zeroForOne, e),
                          LossAtEnd(zeroForOne, e))
    decreases |bounds|
  {
    RangesAreChained(zeroForOne, bounds, p, L);
    AtEndNonNegative(zeroForOne, e);
    if rem == 0 || L <= 0 {
      NothingForNothing(c);
    } else if bounds == [] || !Crosses(zeroForOne, rem, p, SqrtRatioAtTick(bounds[0].tickIndex), L) {
      LastFill(zeroForOne, bounds, rem, p, L, c);
    } else {
      var t, L' := SqrtRatioAtTick(bounds[0].tickIndex), LiquidityAfter(zeroForOne, L, bounds[0]);
      var left := rem - MaxIn(zeroForOne, p, t, L);
      var e' := EndOf(zeroForOne, bounds[1..], left, t, L');
      WalkRounding(zeroForOne, bounds[1..], left, t, L', c.rest, e');
      WalkCrosses(zeroForOne, bounds, rem, p, L, c, t, L', left, e', e'.crossed + 1,
                  Walk(zeroForOne, bounds[1..], left, t, L').out);
    }
  }

  lemma {:induction false} WalkCrosses(zeroForOne: bool, bounds: seq<ClmmTick>, rem: int, p: int, L: int, c: Ranges,
                                       t: int, L': int, left: int, e: Ending, k: int, rest: int)
    requires 0 < p && 0 < rem && 0 < L && Downstream(zeroForOne, p, bounds) && bounds != []
    requires t == SqrtRatioAtTick(bounds[0].tickIndex) && L' == LiquidityAfter(zeroForOne, L, bounds[0])
    requires Crosses(zeroForOne, rem, p, t, L) && left == rem - MaxIn(zeroForOne, p, t, L)
    requires c == RangesOf(zeroForOne, bounds, p, L) && Chained(c) && 0 < e.price && k == e.crossed + 1
    requires rest == Walk(zeroForOne, bounds[1..], left, t, L').out
    requires RoundedWithin(c.rest, rest as real, left, e.crossed, GainAtEnd(zeroForOne, e), LossAtEnd(zeroForOne, e))
    ensures RoundedWithin(c, Walk(zeroForOne, bounds, rem, p, L).out as real, rem, k, GainAtEnd(zeroForOne, e),
                          LossAtEnd(zeroForOne, e))
  {
    AtEndNonNegative(zeroForOne, e);
    WalkNonNegative(zeroForOne, bounds[1..], left, t, L');
    CrossingWithin(zeroForOne, p, t, L, c, rest, rem, e.crossed, GainAtEnd(zeroForOne, e), LossAtEnd(zeroForOne, e));
  }

  /** The fill that ends the walk stays inside its range. */
  lemma {:induction false} LastFill(zeroForOne: bool, bounds: seq<ClmmTick>, rem: int, p: int, L: int, c: Ranges)
    requires 0 < p && 0 < rem && 0 < L && Downstream(zeroForOne, p, bounds) && Roomy(zeroForOne, bounds, rem, p, L)
    requires bounds == [] || !Crosses(zeroForOne, rem, p, SqrtRatioAtTick(bounds[0].tickIndex), L)
    requires c == RangesOf(zeroForOne, bounds, p, L) && Chained(c)
    ensures RoundedWithin(c, FillOut(zeroForOne, rem, p, L) as real, rem, 0, GainAtEnd(zeroForOne, Ending(0, p, L)),
                          LossAtEnd(zeroForOne, Ending(0, p, L)))
  {
    FillWithin(zeroForOne, rem, p, L);
    if bounds != [] {
      CrossingIsExact(zeroForOne, p, SqrtRatioAtTick(bounds[0].tickIndex), L);
    }
  }

  /** `rem` is what a fee of `feeBps` ten-thousandths leaves of the input, in whole units. */
  predicate LeftInFull(rem: int, amountIn: int, feeBps: int) {
    rem * 10_000 <= amountIn * (10_000 - feeBps) < (rem + 1) * 10_000
  }

  lemma LeftIsAfterFee(rem: int, amountIn: int, feeBps: int)
    requires 0 <= amountIn && feeBps <= 10_000 && LeftInFull(rem, amountIn, feeBps)
    ensures rem == AfterFee(amountIn, feeBps)
  {
    FeeLeaves(amountIn, feeBps, rem);
    FeeLeaves(amountIn, feeBps, rem + 1);
  }

  /** So for the quote of any consistent snapshot, on what the fee leaves. */
  lemma {:induction false} QuoteRounding(s: ClmmState, feeBps: int, zeroForOne: bool, amountIn: int, rem: int,
                                         b: seq<ClmmTick>, c: Ranges, e: Ending)
    requires Consistent(s) && 0 <= amountIn && feeBps <= 10_000 && LeftInFull(rem, amountIn, feeBps)
    requires b == Boundaries(zeroForOne, s) && Roomy(zeroForOne, b, rem, s.sqrtPriceX64, s.liquidity)
    requires c == RangesOf(zeroForOne, b, s.sqrtPriceX64, s.liquidity)
    requires e == EndOf(zeroForOne, b, rem, s.sqrtPriceX64, s.liquidity)
    ensures 0 <= rem && Chained(c)
    ensures RoundedWithin(c, ClmmQuote(s, feeBps, zeroForOne, amountIn) as real, rem, e.crossed,
                          GainAtEnd(zeroForOne, e), LossAtEnd(zeroForOne, e))
  {
    LeftIsAfterFee(rem, amountIn, feeBps);
    QuoteIsWalk(s, feeBps, zeroForOne, amountIn);
    ConsistentIsDownstream(zeroForOne, s);
    WalkRounding(zeroForOne, b, rem, s.sqrtPriceX64, s.liquidity, c, e);
  }

  /** The early returns of the quote return what the walk would. */
  lemma {:induction false} QuoteIsWalk(s: ClmmState, feeBps: int, zeroForOne: bool, amountIn: int)
    requires 0 <= amountIn && feeBps <= BPS
    ensures 0 <= AfterFee(amountIn, feeBps)
    ensures ClmmQuote(s, feeBps, zeroForOne, amountIn)
         == Walk(zeroForOne, Boundaries(zeroForOne, s), AfterFee(amountIn, feeBps), s.sqrtPriceX64, s.liquidity).out
  {
    AfterFeeMono(amountIn, amountIn, feeBps);
  }

  // ---------------------------------------------------------------- every snapshot, with or without room

  /** Before every boundary that a walk can come to there is room for a unit of input. */
  ghost predicate AlwaysRoomy(zeroForOne: bool, bounds: seq<ClmmTick>, p: int, L: int)
    requires 0 < p
    decreases |bounds|
  {
    L <= 0 || bounds == [] ||
    var t := SqrtRatioAtTick(bounds[0].tickIndex);
    && MaxIn(zeroForOne, p, t, L) > 0
    && AlwaysRoomy(zeroForOne, bounds[1..], t, LiquidityAfter(zeroForOne, L, bounds[0]))
  }

  lemma {:induction false} RoomyForAll(zeroForOne: bool, bounds: seq<ClmmTick>, rem: int, p: int, L: int)
    requires 0 < p && AlwaysRoomy(zeroForOne, bounds, p, L)
    ensures Roomy(zeroForOne, bounds, rem, p, L)
    decreases |bounds|
  {
    if rem > 0 && L > 0 && bounds != [] {
      var t := SqrtRatioAtTick(bounds[0].tickIndex);
      RoomyForAll(zeroForOne, bounds[1..], rem - MaxIn(zeroForOne, p, t, L), t,
                  LiquidityAfter(zeroForOne, L, bounds[0]));
    }
  }

  /**
   * The boundaries that some walk comes past: up to the first one before which no unit of input fits. How much
   * fits does not depend on what is left to trade, so no walk ever passes that one.
   */
  function Reach(zeroForOne: bool, bounds: seq<ClmmTick>, p: int, L: int): seq<ClmmTick>
    requires 0 < p
    decreases |bounds|
  {
    if L <= 0 || bounds == [] || MaxIn(zeroForOne, p, SqrtRatioAtTick(bounds[0].tickIndex), L) <= 0 then []
    else
      [bounds[0]] + Reach(zeroForOne, bounds[1..], SqrtRatioAtTick(bounds[0].tickIndex),
                          LiquidityAfter(zeroForOne, L, bounds[0]))
  }

  function Reached(zeroForOne: bool, s: ClmmState): seq<ClmmTick> {
    Reach(zeroForOne, Boundaries(zeroForOne, s), s.sqrtPriceX64, s.liquidity)
  }

  lemma {:induction false} ReachIsRoomy(zeroForOne: bool, bounds: seq<ClmmTick>, p: int, L: int)
    requires 0 < p && Downstream(zeroForOne, p, bounds)
    ensures AlwaysRoomy(zeroForOne, Reach(zeroForOne, bounds, p, L), p, L)
    ensures Downstream(zeroForOne, p, Reach(zeroForOne, bounds, p, L))
    decreases |bounds|
  {
    if L > 0 && bounds != [] && MaxIn(zeroForOne, p, SqrtRatioAtTick(bounds[0].tickIndex), L) > 0 {
      var t, L' := SqrtRatioAtTick(bounds[0].tickIndex), LiquidityAfter(zeroForOne, L, bounds[0]);
      ReachIsRoomy(zeroForOne, bounds[1..], t, L');
      assert Reach(zeroForOne, bounds, p, L)[1..] == Reach(zeroForOne, bounds[1..], t, L');
    }
  }

  /** The walk never looks beyond them. */
  lemma {:induction false} WalkWithinReach(zeroForOne: bool, bounds: seq<ClmmTick>, rem: int, p: int, L: int)
    requires 0 < p
    ensures Walk(zeroForOne, bounds, rem, p, L) == Walk(zeroForOne, Reach(zeroForOne, bounds, p, L), rem, p, L)
    ensures EndOf(zeroForOne, bounds, rem, p, L) == EndOf(zeroForOne, Reach(zeroForOne, bounds, p, L), rem, p, L)
    decreases |bounds|
  {
    if L > 0 && bounds != [] && MaxIn(zeroForOne, p, SqrtRatioAtTick(bounds[0].tickIndex), L) > 0 {
      var t, L' := SqrtRatioAtTick(bounds[0].tickIndex), LiquidityAfter(zeroForOne, L, bounds[0]);
      WalkWithinReach(zeroForOne, bounds[1..], rem - MaxIn(zeroForOne, p, t, L), t, L');
      assert Reach(zeroForOne, bounds, p, L)[1..] == Reach(zeroForOne, bounds[1..], t, L');
    }
  }

  /** What the quote of any consistent snapshot pays: the exact chain of the boundaries in reach, rounded. */
  lemma {:induction false} ReachedRounding(s: ClmmState, feeBps: int, zeroForOne: bool, amountIn: int, rem: int,
                                           b: seq<ClmmTick>, c: Ranges, e: Ending)
    requires Consistent(s) && 0 <= amountIn && feeBps <= 10_000 && LeftInFull(rem, amountIn, feeBps)
    requires b == Reached(zeroForOne, s) && c == RangesOf(zeroForOne, b, s.sqrtPriceX64, s.liquidity)
    requires e == EndOf(zeroForOne, Boundaries(zeroForOne, s), rem, s.sqrtPriceX64, s.liquidity)
    ensures 0 <= rem && Chained(c)
    ensures RoundedWithin(c, ClmmQuote(s, feeBps, zeroForOne, amountIn) as real, rem, e.crossed,
                          GainAtEnd(zeroForOne, e), LossAtEnd(zeroForOne, e))
  {
    LeftIsAfterFee(rem, amountIn, feeBps);
    QuoteIsWalk(s, feeBps, zeroForOne, amountIn);
    ConsistentIsDownstream(zeroForOne, s);
    ReachIsRoomy(zeroForOne, Boundaries(zeroForOne, s), s.sqrtPriceX64, s.liquidity);
    WalkWithinReach(zeroForOne, Boundaries(zeroForOne, s), rem, s.sqrtPriceX64, s.liquidity);
    RoomyForAll(zeroForOne, b, rem, s.sqrtPriceX64, s.liquidity);
    WalkRounding(zeroForOne, b, rem, s.sqrtPriceX64, s.liquidity, c, e);
  }

  /**
   * Against the exact chain at the exact input `g` that the fee leaves: the rounding of the fee costs at most one
   * more unit of input.
   */
  lemma QuoteNearExactChain(s: ClmmState, feeBps: int, zeroForOne: bool, amountIn: int, rem: int, b: seq<ClmmTick>,
                            c: Ranges, e: Ending, g: real)
    requires Consistent(s) && 0 <= amountIn && feeBps <= 10_000 && LeftInFull(rem, amountIn, feeBps)
    requires b == Reached(zeroForOne, s) && c == RangesOf(zeroForOne, b, s.sqrtPriceX64, s.liquidity)
    requires e == EndOf(zeroForOne, Boundaries(zeroForOne, s), rem, s.sqrtPriceX64, s.liquidity)
    requires g == (amountIn * (10_000 - feeBps)) as real / 10_000.0
    ensures 0.0 <= g && Chained(c)
    ensures ClmmQuote(s, feeBps, zeroForOne, amountIn) as real
         <= Pays(c, g + e.crossed as real) + GainAtEnd(zeroForOne, e)
    ensures 1.0 <= g ==>
              Pays(c, g - 1.0) - e.crossed as real - 1.0 - LossAtEnd(zeroForOne, e)
              < ClmmQuote(s, feeBps, zeroForOne, amountIn) as real
  {
    ReachedRounding(s, feeBps, zeroForOne, amountIn, rem, b, c, e);
    ExactlyLeft(rem, amountIn * (10_000 - feeBps), g);
    PaysMore(c, (rem + e.crossed) as real, g + e.crossed as real);
    if 1.0 <= g {
      PaysMore(c, g - 1.0, rem as real);
    }
  }

  lemma {:induction false} ReachedChainStartsAtSpot(s: ClmmState, zeroForOne: bool, c: Ranges)
    requires Consistent(s) && c == RangesOf(zeroForOne, Reached(zeroForOne, s), s.sqrtPriceX64, s.liquidity)
    ensures Chained(c) && Spot(c) <= SpotPrice(zeroForOne, s.sqrtPriceX64)
  {
    ConsistentIsDownstream(zeroForOne, s);
    ReachIsRoomy(zeroForOne, Boundaries(zeroForOne, s), s.sqrtPriceX64, s.liquidity);
    RangesAreChained(zeroForOne, Reached(zeroForOne, s), s.sqrtPriceX64, s.liquidity);
  }

  /** The exact input that the fee leaves, and a unit more for each crossing, is paid at most the spot price. */
  lemma {:induction false} QuoteBelowSpot(s: ClmmState, feeBps: int, zeroForOne: bool, amountIn: int, rem: int,
                                          e: Ending, g: real, m: real, price: real)
    requires Consistent(s) && 0 <= amountIn && feeBps <= 10_000 && LeftInFull(rem, amountIn, feeBps)
    requires e == EndOf(zeroForOne, Boundaries(zeroForOne, s), rem, s.sqrtPriceX64, s.liquidity)
    requires g == (amountIn * (10_000 - feeBps)) as real / 10_000.0 && m == g + e.crossed as real
    requires price == SpotPrice(zeroForOne, s.sqrtPriceX64)
    ensures ClmmQuote(s, feeBps, zeroForOne, amountIn) as real <= price * m + GainAtEnd(zeroForOne, e)
  {
    var b := Reached(zeroForOne, s);
    var c := RangesOf(zeroForOne, b, s.sqrtPriceX64, s.liquidity);
    QuoteNearExactChain(s, feeBps, zeroForOne, amountIn, rem, b, c, e, g);
    ReachedChainStartsAtSpot(s, zeroForOne, c);
    FromStart(c, m, price);
  }

  lemma ExactlyLeft(rem: int, n: int, g: real)
    requires rem * 10_000 <= n < (rem + 1) * 10_000 && g == n as real / 10_000.0
    ensures rem as real <= g < rem as real + 1.0
  {
  }

  // ---------------------------------------------------------------- without room before a boundary

  /** A snapshot on its only initialized tick, whose crossing changes the liquidity by `net`. */
  function OnTick(net: int): ClmmState {
    RawState(Q64, 1000, 0, [ClmmTick(0, net)])
  }

  lemma RangesOnTick(net: int)
    requires net in {-3000, 750}
    ensures RangesOf(true, Boundaries(true, OnTick(net)), Q64, 1000)
         == Range(1000000.0, 1000.0, 1000.0, if net == -3000 then Last(16000000.0, 4000.0) else Last(62500.0, 250.0))
  {
    var t := ClmmTick(0, net);
    TickZeroIsOne();
    OneTickAhead(true, OnTick(net), t);
    assert [t][1..] == [];
    assert ((1000 - net) * Q64) as real / Q64 as real == (1000 - net) as real;
    assert RangesOf(true, [], Q64, 1000 - net) == Last(Product(1000 - net), (1000 - net) as real);
  }

  lemma QuoteOnTick(net: int)
    ensures Consistent(OnTick(net)) && ClmmQuote(OnTick(net), 0, true, 1000) == 500
    ensures EndOf(true, Boundaries(true, OnTick(net)), 1000, Q64, 1000) == Ending(0, Q64, 1000)
    ensures !Roomy(true, Boundaries(true, OnTick(net)), 1000, Q64, 1000)
  {
    OvershootWitness(net);
    OneTickAhead(true, OnTick(net), ClmmTick(0, net));
    TickZeroIsOne();
    assert MaxIn(true, Q64, Q64, 1000) == 0;
  }

  lemma SquareQuotient(k: real, r: real)
    requires 0.0 < r && k == r * r
    ensures k / r == r && k / r / r == 1.0
  {
    var v := k / r;
    assert v * r == k;
    RealCancel(v, r, r);
  }

  lemma {:induction false} PaysOnTick(k: real, r: real, c: Ranges, paid: real)
    requires c == Range(1000000.0, 1000.0, 1000.0, Last(k, r)) && 0.0 < r && k == r * r
    requires paid == r - k / (r + 1000.0)
    ensures Chained(c) && Pays(c, 1000.0) == paid
  {
    SquareQuotient(k, r);
    SquareQuotient(1000000.0, 1000.0);
  }

  /** What the exact curve pays from there. */
  lemma {:induction false} CurveOnTick(net: int, c: Ranges)
    requires net in {-3000, 750} && c == RangesOf(true, Boundaries(true, OnTick(net)), Q64, 1000)
    ensures Chained(c) && Pays(c, 1000.0) == if net == -3000 then 800.0 else 200.0
  {
    RangesOnTick(net);
    if net == -3000 {
      PaysOnTick(16000000.0, 4000.0, c, 800.0);
    } else {
      PaysOnTick(62500.0, 250.0, c, 200.0);
    }
  }

  lemma {:induction false} OutOfBounds(c: Ranges, e: Ending, paid: real)
    requires Chained(c) && Pays(c, 1000.0) == paid && paid in {800.0, 200.0} && e == Ending(0, Q64, 1000)
    ensures !RoundedWithin(c, 500.0, 1000, e.crossed, GainAtEnd(true, e), LossAtEnd(true, e))
  {
    assert GainAtEnd(true, e) < 1.0;
  }

  /** The code fills 1,000 units with the liquidity it starts with; the curve crosses first, and pays 800, or 200. */
  lemma {:induction false} NoRoomBreaksBothBounds(net: int, c: Ranges, e: Ending)
    requires net in {-3000, 750} && c == RangesOf(true, Boundaries(true, OnTick(net)), Q64, 1000)
    requires e == EndOf(true, Boundaries(true, OnTick(net)), 1000, Q64, 1000)
    ensures Consistent(OnTick(net)) && ClmmQuote(OnTick(net), 0, true, 1000) == 500 && Chained(c)
    ensures Pays(c, 1000.0) == if net == -3000 then 800.0 else 200.0
    ensures !RoundedWithin(c, 500.0, 1000, e.crossed, GainAtEnd(true, e), LossAtEnd(true, e))
  {
    QuoteOnTick(net);
    CurveOnTick(net, c);
    OutOfBounds(c, e, Pays(c, 1000.0));
  }
}
