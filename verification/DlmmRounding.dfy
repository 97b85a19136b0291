/** Double-precision amounts at bin prices that are powers of two, where the code's rounding can be followed exactly. */
module DlmmRounding {
  import opened Common
  import opened Arithmetic
  import opened TickMath
  import opened Dlmm

  const MANTISSA: int := 0x20_0000_0000_0000

  /** The spacing of doubles at `n`. */
  function Spacing(n: nat): (u: int)
    ensures 1 <= u
  {
    if n < MANTISSA then 1 else 2 * Spacing(n / 2)
  }

  /** The nearest multiple of `u`, in units of `u`; ties to the even one. */
  function Multiple(n: nat, u: int): int
    requires 1 <= u
  {
    if 2 * (n % u) < u || (2 * (n % u) == u && n / u % 2 == 0) then n / u else n / u + 1
  }

  /** `Number(n)`: the nearest double. */
  function Nearest(n: nat): nat {
    MultipleBetween(n, Spacing(n), 0);
    MulMono(0, Multiple(n, Spacing(n)), Spacing(n));
    Multiple(n, Spacing(n)) * Spacing(n)
  }

  /** Rounding to a multiple stays on the near side of every multiple. */
  lemma MultipleBetween(n: nat, u: int, t: int)
    requires 1 <= u
    ensures t * u <= n ==> t <= Multiple(n, u)
    ensures n <= t * u ==> Multiple(n, u) <= t
  {
    FloorGalois(n, u, t);
    if n <= t * u && t <= n / u {
      DivUnique(n, u, t, 0);
    }
  }

  lemma MultipleMono(n: nat, m: nat, u: int)
    requires 1 <= u && n <= m
    ensures Multiple(n, u) <= Multiple(m, u)
  {
    DivMono(n, m, u);
    assert n == u * (n / u) + n % u && m == u * (m / u) + m % u;
  }

  /** A number sits between 2^52 and 2^53 spacings, once there are spacings of more than one unit. */
  lemma {:induction false} SpacingFits(n: nat)
    ensures n < MANTISSA * Spacing(n)
    ensures n >= MANTISSA ==> MANTISSA * Spacing(n) <= 2 * n
  {
    if n >= MANTISSA {
      SpacingFits(n / 2);
    }
  }

  lemma {:induction false} SpacingGrows(n: nat, m: nat)
    requires n <= m
    ensures Spacing(n) == Spacing(m) || 2 * Spacing(n) <= Spacing(m)
  {
    if n >= MANTISSA {
      SpacingGrows(n / 2, m / 2);
    } else if m >= MANTISSA {
      assert 2 <= Spacing(m);
    }
  }

  /** Rounding never reverses an order. */
  lemma NearestMono(n: nat, m: nat)
    requires n <= m
    ensures Nearest(n) <= Nearest(m)
  {
    var u, v := Spacing(n), Spacing(m);
    SpacingGrows(n, m);
    if u == v {
      MultipleMono(n, m, u);
      MulMono(Multiple(n, u), Multiple(m, u), u);
    } else {
      SpacingFits(n);
      SpacingFits(m);
      MultipleBetween(n, u, MANTISSA);
      MultipleBetween(m, v, MANTISSA / 2);
      MulMono(Multiple(n, u), MANTISSA, u);
      MulMono(MANTISSA / 2, Multiple(m, v), v);
    }
  }

  // ---------------------------------------------------------------- the walk over doubles

  /** An amount at the price 2^e: exact but for the rounding of the amount, then floored. */
  function AtPowerOfTwo(n: int, e: int): int {
    if n <= 0 then 0
    else if e >= 0 then Nearest(n) * Pow2(e)
    else Nearest(n) / Pow2(-e)
  }

  /** The code's arithmetic wherever bin prices are powers of two: at a bin step of 10,000, and in bin 0. */
  function BinaryPrices(): Doubles {
    Doubles((n, id, _) => AtPowerOfTwo(n, -id), (n, id, _) => AtPowerOfTwo(n, id))
  }

  lemma AtPowerOfTwoMono(n: int, m: int, e: int)
    requires 0 <= n <= m
    ensures 0 <= AtPowerOfTwo(n, e) <= AtPowerOfTwo(m, e)
  {
    if 0 < n {
      NearestMono(n, m);
    }
    if 0 < m {
      if e >= 0 {
        MulMono(0, Nearest(m), Pow2(e));
        if 0 < n { MulMono(Nearest(n), Nearest(m), Pow2(e)); MulMono(0, Nearest(n), Pow2(e)); }
      } else {
        DivMono(0, Nearest(m), Pow2(-e));
        if 0 < n { DivMono(Nearest(n), Nearest(m), Pow2(-e)); DivMono(0, Nearest(n), Pow2(-e)); }
      }
    }
  }

  lemma BinaryPricesRoundMonotonically()
    ensures RoundsMonotonically(BinaryPrices())
  {
    var d := BinaryPrices();
    forall n, m, id, step | 0 <= n <= m ensures 0 <= d.over(n, id, step) <= d.over(m, id, step) {
      AtPowerOfTwoMono(n, m, -id);
    }
    forall n, m, id, step | 0 <= n <= m ensures 0 <= d.times(n, id, step) <= d.times(m, id, step) {
      AtPowerOfTwoMono(n, m, id);
    }
  }

  /** A double is more than half of the number it stands for. */
  lemma NearestIsLarge(n: nat)
    requires MANTISSA <= n
    ensures n <= 2 * Nearest(n)
  {
    var u := Spacing(n);
    SpacingFits(n);
    FloorBounds(n, u);
    MultipleBetween(n, u, n / u);
    MulMono(n / u, Multiple(n, u), u);
  }

  /** Some amount at the price 2^e exceeds any bound. */
  lemma AtPowerOfTwoGrows(bound: int, e: int) returns (n: int)
    ensures 0 < n && bound < AtPowerOfTwo(n, e)
  {
    var b := if bound > 0 then bound else 0;
    if e >= 0 {
      n := 2 * b + MANTISSA;
      NearestIsLarge(n);
      MulMono(1, Pow2(e), Nearest(n));
    } else {
      var p := Pow2(-e);
      n := 2 * (b + 1) * p + MANTISSA;
      MulMono(0, b + 1, p);
      assert 2 * (b + 1) * p == 2 * ((b + 1) * p);
      NearestIsLarge(n);
      FloorGalois(Nearest(n), p, b + 1);
    }
  }

  lemma BinaryFillsGrow()
    ensures FillsGrow(BinaryPrices())
  {
    var d := BinaryPrices();
    forall id, step, bound ensures Exceeds(d.over, id, step, bound) && Exceeds(d.times, id, step, bound) {
      var n := AtPowerOfTwoGrows(bound, -id);
      assert bound < d.over(n, id, step);
      var m := AtPowerOfTwoGrows(bound, id);
      assert bound < d.times(m, id, step);
    }
  }

  /** One bin at price 1, holding an amount that doubles cannot represent. */
  function LargeBin(): DlmmState {
    DlmmState(0, 1, [DlmmBin(0, 0, MANTISSA + 3)])
  }

  lemma {:induction false} SpacingAboveMantissa(n: nat)
    requires MANTISSA <= n < 2 * MANTISSA
    ensures Spacing(n) == 2
  {
    assert Spacing(n / 2) == 1;
  }

  /** More input is paid less, and more than the bin holds. */
  lemma QuoteFallsAtLargeBin()
    ensures var d, s, n := BinaryPrices(), LargeBin(), MANTISSA + 3;
            && DlmmQuote(d, s, 0, true, n) == n + 1
            && DlmmQuote(d, s, 0, true, n + 1) == n == Held(true, s.bins)
            && !QuoteIsMonotone(d, s, 0, true)
  {
    var d, s, n := BinaryPrices(), LargeBin(), MANTISSA + 3;
    SpacingAboveMantissa(n);
    SpacingAboveMantissa(n + 1);
    assert Pow2(0) == 1;
    assert Nearest(n) == n + 1 == Nearest(n + 1);
    assert d.over(n, 0, 1) == n + 1 == d.times(n, 0, 1);
    LargeBinAhead();
    assert AfterFee(n, 0) == n && AfterFee(n + 1, 0) == n + 1;
    assert s.bins[1..] == [];
  }

  lemma LargeBinAhead()
    ensures BinsAhead(LargeBin(), true) == LargeBin().bins
  {
    var bins := LargeBin().bins;
    assert bins[1..] == [];
    assert FilterBins(true, 0, bins[1..]) == [];
    assert FilterBins(true, 0, bins) == bins;
    assert SortBins(true, bins[1..]) == [];
  }

  /** A bin whose price exceeds its reserve takes no unit to drain, and pays any input at its price. */
  lemma DearBinPaysAnything(n: nat)
    requires 0 < n < MANTISSA
    ensures var s := DlmmState(1, 10_000, [DlmmBin(1, 0, 1)]);
            DlmmQuote(BinaryPrices(), s, 0, true, n) == 2 * n > Held(true, s.bins) == 1
  {
    var d, bins := BinaryPrices(), [DlmmBin(1, 0, 1)];
    assert Pow2(1) == 2 * Pow2(0);
    assert d.over(1, 1, 10_000) == 0 && d.times(n, 1, 10_000) == 2 * n;
    assert bins[1..] == [];
    assert FilterBins(true, 1, bins[1..]) == [];
    assert FilterBins(true, 1, bins) == bins;
    assert SortBins(true, bins[1..]) == [];
    assert AfterFee(n, 0) == n;
  }
}
