/** Constant-product quoting (x * y = k) in exact integer arithmetic. */
module Amm {
  import opened Common
  import opened Arithmetic

  /** The output for `amountIn`, floored; degenerate inputs give 0. */
  function GetAmountOut(amountIn: int, reserveIn: int, reserveOut: int, feeBps: int): int {
    if amountIn <= 0 || reserveIn <= 0 || reserveOut <= 0 then 0
    else
      var a := AfterFee(amountIn, feeBps);
      if a <= 0 then 0 else a * reserveOut / (reserveIn + a)
  }

  /** The curve itself, on the input after the fee. */
  function CurveOut(a: int, reserveIn: int, reserveOut: int): int
    requires 0 <= a && 0 < reserveIn && 0 < reserveOut
  {
    a * reserveOut / (reserveIn + a)
  }

  /** An output is payable exactly when the product of the reserves does not fall. */
  lemma CurveGalois(a: int, reserveIn: int, reserveOut: int, o: int)
    requires 0 <= a && 0 < reserveIn && 0 < reserveOut
    ensures o <= CurveOut(a, reserveIn, reserveOut)
       <==> (reserveIn + a) * (reserveOut - o) >= reserveIn * reserveOut
  {
    FloorGalois(a * reserveOut, reserveIn + a, o);
  }

  /** The output is the largest one that keeps the product of the reserves, and never drains the pool. */
  lemma OutputIsLargestKeepingProduct(amountIn: int, reserveIn: int, reserveOut: int, feeBps: int, o: int)
    requires 0 < amountIn && 0 < reserveIn && 0 < reserveOut && feeBps <= BPS
    ensures 0 <= GetAmountOut(amountIn, reserveIn, reserveOut, feeBps) < reserveOut
    ensures o <= GetAmountOut(amountIn, reserveIn, reserveOut, feeBps)
       <==> (reserveIn + AfterFee(amountIn, feeBps)) * (reserveOut - o) >= reserveIn * reserveOut
  {
    var a := AfterFee(amountIn, feeBps);
    CurveGalois(a, reserveIn, reserveOut, o);
    CurveGalois(a, reserveIn, reserveOut, 0);
    CurveGalois(a, reserveIn, reserveOut, reserveOut);
  }

  /** An input that the fee on `x` leaves in full. */
  predicate Left(a: int, x: int, feeBps: int) {
    0 <= a && a * 10_000 <= x * (10_000 - feeBps)
  }

  /** On the gross input: an output is payable if and only if some input that the fee leaves keeps the product. */
  lemma OutputOnGrossInput(x: int, reserveIn: int, reserveOut: int, feeBps: int, o: int)
    requires 0 < x && 0 < reserveIn && 0 < reserveOut && feeBps <= 10_000
    ensures o <= GetAmountOut(x, reserveIn, reserveOut, feeBps)
       <==> exists a :: Left(a, x, feeBps) && (reserveIn + a) * (reserveOut - o) >= reserveIn * reserveOut
  {
    var most := AfterFee(x, feeBps);
    FeeLeaves(x, feeBps, most);
    FeeLeaves(x, feeBps, 0);
    MulMono(0, x, 10_000 - feeBps);
    OutputIsLargestKeepingProduct(x, reserveIn, reserveOut, feeBps, o);
    assert Left(most, x, feeBps);
    forall a | Left(a, x, feeBps) && (reserveIn + a) * (reserveOut - o) >= reserveIn * reserveOut
      ensures (reserveIn + most) * (reserveOut - o) >= reserveIn * reserveOut
    {
      FeeLeaves(x, feeBps, a);
      KeepsWithMore(reserveIn, a, most, reserveOut, o);
    }
  }

  lemma KeepsWithMore(I: int, a: int, b: int, R: int, o: int)
    requires 0 < I && 0 < R && 0 <= a <= b && (I + a) * (R - o) >= I * R
    ensures (I + b) * (R - o) >= I * R
  {
    MulMono(1, R, I);
    if R - o < 0 {
      MulMono(R - o, 0, I + a);
    }
    MulMono(I + a, I + b, R - o);
  }

  /**
   * Between the exact curve at the gross input less its fee, and that curve one unit of input and one of output
   * lower; `n` is the input less its fee in ten-thousandths of a unit.
   */
  lemma OutputNearExactCurve(x: int, reserveIn: int, reserveOut: int, feeBps: int, n: int)
    requires 0 < x && 0 < reserveIn && 0 < reserveOut && feeBps <= 10_000 && n == x * (10_000 - feeBps)
    ensures var out := GetAmountOut(x, reserveIn, reserveOut, feeBps);
            && out * (10_000 * reserveIn + n) <= n * reserveOut
            && (n - 10_000) * reserveOut < (out + 1) * (10_000 * reserveIn + n - 10_000)
  {
    var a, out := AfterFee(x, feeBps), GetAmountOut(x, reserveIn, reserveOut, feeBps);
    FeeLeaves(x, feeBps, a);
    FeeLeaves(x, feeBps, a + 1);
    FeeLeaves(x, feeBps, 0);
    MulMono(0, x, 10_000 - feeBps);
    OutputIsLargestKeepingProduct(x, reserveIn, reserveOut, feeBps, out);
    OutputIsLargestKeepingProduct(x, reserveIn, reserveOut, feeBps, out + 1);
    BelowCurve(a, n, out, reserveIn, reserveOut);
    AboveCurve(a, n, out, reserveIn, reserveOut);
  }

  lemma BelowCurve(a: int, n: int, out: int, I: int, R: int)
    requires (I + a) * (R - out) >= I * R && out < R && 10_000 * a <= n
    ensures out * (10_000 * I + n) <= n * R
  {
    MulMono(10_000 * (I + a), 10_000 * I + n, R - out);
    assert 10_000 * (I + a) * (R - out) == 10_000 * ((I + a) * (R - out));
    assert (10_000 * I + n) * (R - out) == 10_000 * (I * R) + n * R - out * (10_000 * I + n);
  }

  lemma AboveCurve(a: int, n: int, out: int, I: int, R: int)
    requires (I + a) * (R - (out + 1)) < I * R && 0 <= out < R && n < 10_000 * (a + 1) && 0 < I
    ensures (n - 10_000) * R < (out + 1) * (10_000 * I + n - 10_000)
  {
    var m := 10_000 * I + n - 10_000;
    MulMono(m, 10_000 * (I + a), R - (out + 1));
    assert 10_000 * (I + a) * (R - (out + 1)) == 10_000 * ((I + a) * (R - (out + 1)));
    assert m * (R - (out + 1)) == 10_000 * (I * R) + (n - 10_000) * R - (out + 1) * m;
  }

  /** Nothing is paid for nothing, from nothing, or when the fee takes everything. */
  lemma DegenerateInputsPayNothing(x: int, reserveIn: int, reserveOut: int, feeBps: int)
    requires x <= 0 || reserveIn <= 0 || reserveOut <= 0 || 10_000 <= feeBps
    ensures GetAmountOut(x, reserveIn, reserveOut, feeBps) == 0
  {
    if 0 < x && 10_000 <= feeBps {
      AfterFeeMono(x, x, feeBps);
      FeeLeaves(x, 10_000, 1);
    }
  }

  /** More input never lowers the output. */
  lemma AmountOutMonotone(x: int, y: int, reserveIn: int, reserveOut: int, feeBps: int)
    requires x <= y
    ensures 0 <= GetAmountOut(x, reserveIn, reserveOut, feeBps) <= GetAmountOut(y, reserveIn, reserveOut, feeBps)
  {
    if 0 < y && 0 < reserveIn && 0 < reserveOut && feeBps <= BPS {
      if 0 < x {
        var o := GetAmountOut(x, reserveIn, reserveOut, feeBps);
        AfterFeeMono(x, y, feeBps);
        OutputIsLargestKeepingProduct(x, reserveIn, reserveOut, feeBps, o);
        MulMono(reserveIn + AfterFee(x, feeBps), reserveIn + AfterFee(y, feeBps), reserveOut - o);
        OutputIsLargestKeepingProduct(y, reserveIn, reserveOut, feeBps, o);
      }
    } else if 0 < y {
      if 0 < x { AfterFeeMono(x, y, feeBps); }
    }
  }

  /** Swapping the output straight back never returns more than was put in, wherever the fee is credited. */
  lemma RoundTripNeverProfits(x: int, reserveIn: int, reserveOut: int, feeBps: int, credited: int)
    requires 0 < x && 0 < reserveIn && 0 < reserveOut && 0 <= feeBps
    requires AfterFee(x, feeBps) <= credited <= x
    ensures var out := GetAmountOut(x, reserveIn, reserveOut, feeBps);
            GetAmountOut(out, reserveOut - out, reserveIn + credited, feeBps) <= x
  {
    var out, a := GetAmountOut(x, reserveIn, reserveOut, feeBps), AfterFee(x, feeBps);
    if 0 < out {
      OutputIsLargestKeepingProduct(x, reserveIn, reserveOut, feeBps, out);
      AfterFeeRange(out, feeBps);
      BackOut(AfterFee(out, feeBps), out, a, credited, x, reserveIn, reserveOut);
    }
  }

  /** The algebra of the way back: `b` of the `out` tokens buy on reserves (R - out, I + c). */
  lemma BackOut(b: int, out: int, a: int, c: int, x: int, I: int, R: int)
    requires 0 <= b <= out < R && 0 <= a <= c <= x && 0 < I && 0 < R
    requires (I + a) * (R - out) >= I * R
    ensures b * (I + c) / (R - out + b) <= x
  {
    var d := R - out;
    assert (I + a) * d == I * d + a * d && I * d == I * R - I * out;
    MulMono(b, out, I);
    MulMono(a, x, d);
    MulMono(c, x, b);
    assert b * (I + c) == b * I + b * c && x * (d + b) == x * d + x * b;
    assert (x + 1) * (d + b) == x * (d + b) + (d + b);
    FloorGalois(b * (I + c), d + b, x + 1);
  }

  /** Trading in two pieces through one pool never beats trading at once. */
  lemma SequentialNeverBeatsWhole(x: int, y: int, reserveIn: int, reserveOut: int, feeBps: int)
    requires 0 < x && 0 < y && 0 < reserveIn && 0 < reserveOut && feeBps <= BPS
    ensures var first := GetAmountOut(x, reserveIn, reserveOut, feeBps);
            var second := GetAmountOut(y, reserveIn + AfterFee(x, feeBps), reserveOut - first, feeBps);
            first + second <= GetAmountOut(x + y, reserveIn, reserveOut, feeBps)
  {
    var a, b, c := AfterFee(x, feeBps), AfterFee(y, feeBps), AfterFee(x + y, feeBps);
    var first := GetAmountOut(x, reserveIn, reserveOut, feeBps);
    AfterFeeMono(x, x + y, feeBps);
    AfterFeeMono(y, x + y, feeBps);
    OutputIsLargestKeepingProduct(x, reserveIn, reserveOut, feeBps, first);
    var second := GetAmountOut(y, reserveIn + a, reserveOut - first, feeBps);
    OutputIsLargestKeepingProduct(y, reserveIn + a, reserveOut - first, feeBps, second);
    assert a + b <= c by {
      var m := BPS - feeBps;
      FloorBounds(x * m, BPS);
      FloorBounds(y * m, BPS);
      FloorGalois((x + y) * m, BPS, a + b);
      assert (x + y) * m == x * m + y * m;
      MulMono(0, y, m);
    }
    MulMono(reserveIn + a + b, reserveIn + c, reserveOut - first - second);
    OutputIsLargestKeepingProduct(x + y, reserveIn, reserveOut, feeBps, first + second);
  }
}
