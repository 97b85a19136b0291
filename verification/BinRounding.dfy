/**
 * The rounding of a whole bin walk: what all its floors add up to, against the walk over exact amounts at exact
 * prices, wherever each single amount is floored exactly.
 */
module BinRounding {
  import opened Arithmetic
  import opened TickMath
  import opened ClmmRounding
  import opened Dlmm
  import opened DlmmRounding

  /** The floor `v` of the exact value `x`. */
  predicate IsFloor(v: int, x: real) {
    v as real <= x < v as real + 1.0
  }

  /** Amounts below `limit` are divided and multiplied by the prices exactly, then floored. */
  ghost predicate FloorsExactly(d: Doubles, price: int -> real, step: int, limit: int) {
    (forall id :: 0.0 < price(id)) && forall n, id :: 0 <= n < limit ==> FloorsAt(d, n, id, step, price(id))
  }

  predicate FloorsAt(d: Doubles, n: int, id: int, step: int, p: real)
    requires 0.0 < p
  {
    IsFloor(d.over(n, id, step), n as real / p) && IsFloor(d.times(n, id, step), n as real * p)
  }

  /** The exact input that empties a bin: X for its Y, at Y per X; or Y for its X. */
  function Capacity(price: int -> real, xForY: bool, b: DlmmBin): real
    requires 0.0 < price(b.id)
  {
    if xForY then b.reserveY as real / price(b.id) else b.reserveX as real * price(b.id)
  }

  /** What the bin pays for `x` that do not empty it. */
  function AtPrice(price: int -> real, xForY: bool, b: DlmmBin, x: real): real
    requires 0.0 < price(b.id)
  {
    if xForY then x * price(b.id) else x / price(b.id)
  }

  function Holds(xForY: bool, b: DlmmBin): int {
    if xForY then b.reserveY else b.reserveX
  }

  /** The exact walk: each bin in turn pays at its price, up to what it holds. */
  function BinsPay(price: int -> real, xForY: bool, bins: seq<DlmmBin>, x: real): real
    requires forall id :: 0.0 < price(id)
    decreases |bins|
  {
    if bins == [] then 0.0
    else if Holds(xForY, bins[0]) <= 0 then BinsPay(price, xForY, bins[1..], x)
    else if Capacity(price, xForY, bins[0]) <= x then
      Holds(xForY, bins[0]) as real + BinsPay(price, xForY, bins[1..], x - Capacity(price, xForY, bins[0]))
    else AtPrice(price, xForY, bins[0], x)
  }

  /** How many bins the walk empties. */
  function Emptied(d: Doubles, step: int, xForY: bool, bins: seq<DlmmBin>, rem: int): nat
    decreases |bins|
  {
    if rem <= 0 || bins == [] then 0
    else if Holds(xForY, bins[0]) <= 0 then Emptied(d, step, xForY, bins[1..], rem)
    else
      var drain := Drain(d, step, xForY, bins[0]);
      if 0 < drain <= rem then 1 + Emptied(d, step, xForY, bins[1..], rem - drain) else 0
  }

  /** Everything a bin holds is below the limit and worth at least one unit of input. */
  ghost predicate Ordinary(price: int -> real, limit: int, xForY: bool, b: DlmmBin)
    requires 0.0 < price(b.id)
  {
    Holds(xForY, b) < limit && (0 < Holds(xForY, b) ==> 1.0 <= Capacity(price, xForY, b))
  }

  // ---------------------------------------------------------------- one bin

  lemma DivTimes(x: real, p: real)
    requires 0.0 < p
    ensures x / p * p == x && x * p / p == x
  {
    RealCancel(x * p / p, x, p);
  }

  /** Capacity and price fit together. */
  lemma FullBin(price: int -> real, xForY: bool, b: DlmmBin)
    requires 0.0 < price(b.id)
    ensures AtPrice(price, xForY, b, Capacity(price, xForY, b)) == Holds(xForY, b) as real
  {
    DivTimes(Holds(xForY, b) as real, price(b.id));
  }

  lemma AtPriceMono(price: int -> real, xForY: bool, b: DlmmBin, x: real, y: real)
    requires 0.0 < price(b.id) && x <= y
    ensures AtPrice(price, xForY, b, x) <= AtPrice(price, xForY, b, y)
  {
    RealMulMono(x, y, price(b.id));
    RealDivMono(x, y, price(b.id));
  }

  lemma AtPriceZero(price: int -> real, xForY: bool, b: DlmmBin)
    requires 0.0 < price(b.id)
    ensures AtPrice(price, xForY, b, 0.0) == 0.0
  {
  }

  // ---------------------------------------------------------------- the exact walk

  lemma {:induction false} BinsPayMore(price: int -> real, xForY: bool, bins: seq<DlmmBin>, x: real, y: real)
    requires (forall id :: 0.0 < price(id)) && 0.0 <= x <= y
    ensures 0.0 <= BinsPay(price, xForY, bins, x) <= BinsPay(price, xForY, bins, y)
    decreases |bins|
  {
    if bins != [] {
      var b := bins[0];
      var w := Capacity(price, xForY, b);
      if Holds(xForY, b) <= 0 {
        BinsPayMore(price, xForY, bins[1..], x, y);
      } else if w <= x {
        BinsPayMore(price, xForY, bins[1..], x - w, y - w);
      } else {
        AtPriceZero(price, xForY, b);
        AtPriceMono(price, xForY, b, 0.0, x);
        if y < w {
          AtPriceMono(price, xForY, b, x, y);
        } else {
          FullBin(price, xForY, b);
          AtPriceMono(price, xForY, b, x, w);
          BinsPayMore(price, xForY, bins[1..], y - w, y - w);
        }
      }
    }
  }

  // ---------------------------------------------------------------- the code's walk

  /** The floors of one bin. */
  lemma BinFloors(d: Doubles, price: int -> real, step: int, limit: int, xForY: bool, b: DlmmBin, rem: int)
    requires FloorsExactly(d, price, step, limit) && 0 < Holds(xForY, b) < limit && 0 <= rem < limit
    ensures var drain, fill := Drain(d, step, xForY, b) as real, Fill(d, step, xForY, b, rem) as real;
            && drain <= Capacity(price, xForY, b) < drain + 1.0
            && fill <= AtPrice(price, xForY, b, rem as real) < fill + 1.0
  {
    assert FloorsAt(d, Holds(xForY, b), b.id, step, price(b.id)) && FloorsAt(d, rem, b.id, step, price(b.id));
  }

  /** An output for `rem` that empties `k` bins. */
  ghost predicate NearBins(price: int -> real, xForY: bool, bins: seq<DlmmBin>, out: int, rem: int, k: int)
    requires forall id :: 0.0 < price(id)
  {
    BinsPay(price, xForY, bins, rem as real) - 1.0 < out as real <= BinsPay(price, xForY, bins, (rem + k) as real)
  }

  lemma {:induction false} NothingForNone(price: int -> real, xForY: bool, bins: seq<DlmmBin>, limit: int)
    requires forall id :: 0.0 < price(id)
    requires forall i :: 0 <= i < |bins| ==> Ordinary(price, limit, xForY, bins[i])
    ensures BinsPay(price, xForY, bins, 0.0) == 0.0
    decreases |bins|
  {
    if bins != [] {
      assert Ordinary(price, limit, xForY, bins[0]);
      AtPriceZero(price, xForY, bins[0]);
      NothingForNone(price, xForY, bins[1..], limit);
    }
  }

  /** A bin that the walk empties for at most one unit less than it would exactly take. */
  lemma EmptiedBin(price: int -> real, xForY: bool, bins: seq<DlmmBin>, drain: int, rest: int, rem: int, k: nat)
    requires (forall id :: 0.0 < price(id)) && bins != [] && 0 < Holds(xForY, bins[0]) && 0 <= rest
    requires 0 < drain <= rem && drain as real <= Capacity(price, xForY, bins[0]) < drain as real + 1.0
    requires NearBins(price, xForY, bins[1..], rest, rem - drain, k)
    ensures NearBins(price, xForY, bins, Holds(xForY, bins[0]) + rest, rem, k + 1)
  {
    var w, tail := Capacity(price, xForY, bins[0]), bins[1..];
    BinsPayMore(price, xForY, tail, (rem - drain + k) as real, (rem + (k + 1)) as real - w);
    if w <= rem as real {
      BinsPayMore(price, xForY, tail, rem as real - w, (rem - drain) as real);
    } else {
      FullBin(price, xForY, bins[0]);
      AtPriceMono(price, xForY, bins[0], rem as real, w);
    }
  }

  /**
   * The walk pays more than the exact one less a single unit, and at most what the exact one pays for a unit more of
   * input for each bin that it empties.
   */
  lemma {:induction false} BinWalkRounding(d: Doubles, price: int -> real, step: int, limit: int, xForY: bool,
                                           bins: seq<DlmmBin>, rem: int)
    requires FloorsExactly(d, price, step, limit) && 0 <= rem < limit
    requires forall i :: 0 <= i < |bins| ==> Ordinary(price, limit, xForY, bins[i])
    ensures 0 <= WalkBins(d, step, xForY, bins, rem)
    ensures NearBins(price, xForY, bins, WalkBins(d, step, xForY, bins, rem), rem, Emptied(d, step, xForY, bins, rem))
    decreases |bins|
  {
    if rem == 0 {
      NothingForNone(price, xForY, bins, limit);
    } else if bins != [] {
      assert Ordinary(price, limit, xForY, bins[0]);
      if Holds(xForY, bins[0]) <= 0 {
        BinWalkRounding(d, price, step, limit, xForY, bins[1..], rem);
      } else {
        FirstBin(d, price, step, limit, xForY, bins, rem, Drain(d, step, xForY, bins[0]));
      }
    }
  }

  lemma {:induction false} FirstBin(d: Doubles, price: int -> real, step: int, limit: int, xForY: bool,
                                    bins: seq<DlmmBin>, rem: int, drain: int)
    requires FloorsExactly(d, price, step, limit) && 0 < rem < limit && bins != [] && 0 < Holds(xForY, bins[0])
    requires forall i :: 0 <= i < |bins| ==> Ordinary(price, limit, xForY, bins[i])
    requires drain == Drain(d, step, xForY, bins[0])
    ensures 0 <= WalkBins(d, step, xForY, bins, rem)
    ensures NearBins(price, xForY, bins, WalkBins(d, step, xForY, bins, rem), rem, Emptied(d, step, xForY, bins, rem))
    decreases |bins|, 0
  {
    assert Ordinary(price, limit, xForY, bins[0]);
    BinFloors(d, price, step, limit, xForY, bins[0], rem);
    if rem < drain {
      AtPriceZero(price, xForY, bins[0]);
      AtPriceMono(price, xForY, bins[0], 0.0, rem as real);
    } else {
      BinWalkRounding(d, price, step, limit, xForY, bins[1..], rem - drain);
      EmptiedBin(price, xForY, bins, drain, WalkBins(d, step, xForY, bins[1..], rem - drain), rem,
                 Emptied(d, step, xForY, bins[1..], rem - drain));
    }
  }

  /** So for a whole quote: `g` is the exact input that the fee leaves, and `rem` its whole units. */
  lemma BinQuoteRounding(d: Doubles, price: int -> real, limit: int, s: DlmmState, feeBps: int, xForY: bool,
                         amountIn: int, rem: int, bins: seq<DlmmBin>, k: int, g: real)
    requires FloorsExactly(d, price, s.binStep, limit) && bins == BinsAhead(s, xForY)
    requires forall i :: 0 <= i < |bins| ==> Ordinary(price, limit, xForY, bins[i])
    requires 0 <= amountIn && feeBps <= 10_000 && LeftInFull(rem, amountIn, feeBps) && rem < limit
    requires k == Emptied(d, s.binStep, xForY, bins, rem) && g == (amountIn * (10_000 - feeBps)) as real / 10_000.0
    ensures 0.0 <= g && DlmmQuote(d, s, feeBps, xForY, amountIn) as real <= BinsPay(price, xForY, bins, g + k as real)
    ensures 1.0 <= g ==> BinsPay(price, xForY, bins, g - 1.0) - 1.0 < DlmmQuote(d, s, feeBps, xForY, amountIn) as real
  {
    LeftIsAfterFee(rem, amountIn, feeBps);
    AfterFeeMono(amountIn, amountIn, feeBps);
    ExactlyLeft(rem, amountIn * (10_000 - feeBps), g);
    BinWalkRounding(d, price, s.binStep, limit, xForY, bins, rem);
    BinsPayMore(price, xForY, bins, (rem + k) as real, g + k as real);
    if 1.0 <= g {
      BinsPayMore(price, xForY, bins, g - 1.0, rem as real);
    }
  }

  // ---------------------------------------------------------------- prices that are powers of two

  function PowerOfTwo(e: int): (p: real)
    ensures 0.0 < p
  {
    if e >= 0 then Pow2(e) as real else 1.0 / Pow2(-e) as real
  }

  lemma SmallIsExact(n: nat)
    requires n < MANTISSA
    ensures Nearest(n) == n
  {
    assert Spacing(n) == 1;
    DivUnique(n, 1, n, 0);
  }

  lemma FlooredAtPower(n: nat, e: int)
    requires n < MANTISSA
    ensures IsFloor(AtPowerOfTwo(n, e), n as real * PowerOfTwo(e))
  {
    SmallIsExact(n);
    if e >= 0 {
      FlooredProduct(n, Pow2(e), AtPowerOfTwo(n, e));
    } else {
      FlooredQuotient(n, Pow2(-e), AtPowerOfTwo(n, e));
    }
  }

  lemma FlooredProduct(n: nat, p: int, v: int)
    requires 1 <= p && v == n * p
    ensures IsFloor(v, n as real * p as real)
  {
  }

  lemma FlooredQuotient(n: nat, p: int, v: int)
    requires 1 <= p && v == n / p
    ensures IsFloor(v, n as real * (1.0 / p as real))
  {
    RealFloor(n, p);
    assert n as real * (1.0 / p as real) == n as real / p as real;
  }

  lemma Inverse(e: int)
    ensures PowerOfTwo(e) * PowerOfTwo(-e) == 1.0
  {
    Reciprocal(Pow2(if e >= 0 then e else -e) as real);
  }

  lemma Reciprocal(p: real)
    requires 0.0 < p
    ensures p * (1.0 / p) == 1.0
  {
  }

  lemma FloorOfQuotient(v: int, x: real, p: real, q: real)
    requires IsFloor(v, x * q) && p * q == 1.0 && 0.0 < p
    ensures IsFloor(v, x / p)
  {
    assert x * q * p == x * (p * q);
    DivTimes(x, p);
    RealCancel(x / p, x * q, p);
  }

  /** Going down as far as going up changes the price by the inverse factor. */
  predicate Inverses(price: int -> real, id: int) {
    0.0 < price(id) && price(id) * price(-id) == 1.0
  }

  predicate FlooredAt(at: (int, int) -> int, price: int -> real, n: int, e: int) {
    IsFloor(at(n, e), n as real * price(e))
  }

  /** The amounts are floored at the price of the bin, or at its inverse. */
  predicate Uses(d: Doubles, at: (int, int) -> int, n: int, id: int, step: int) {
    d.over(n, id, step) == at(n, -id) && d.times(n, id, step) == at(n, id)
  }

  lemma PointFloors(d: Doubles, price: int -> real, step: int, at: (int, int) -> int, n: int, id: int)
    requires Inverses(price, id) && Uses(d, at, n, id, step)
    requires FlooredAt(at, price, n, id) && FlooredAt(at, price, n, -id)
    ensures FloorsAt(d, n, id, step, price(id))
  {
    FloorOfQuotient(at(n, -id), n as real, price(id), price(-id));
  }

  lemma FloorsEverywhere(d: Doubles, price: int -> real, step: int, limit: int, at: (int, int) -> int)
    requires (forall id :: Inverses(price, id)) && forall n, id :: Uses(d, at, n, id, step)
    requires forall n, e :: 0 <= n < limit ==> FlooredAt(at, price, n, e)
    ensures FloorsExactly(d, price, step, limit)
  {
    forall id ensures 0.0 < price(id) {
      assert Inverses(price, id);
    }
    forall n, id | 0 <= n < limit ensures FloorsAt(d, n, id, step, price(id)) {
      PointFloors(d, price, step, at, n, id);
    }
  }

  lemma PowersAreInverses()
    ensures forall id :: Inverses(PowerOfTwo, id)
  {
    forall id ensures Inverses(PowerOfTwo, id) {
      Inverse(id);
    }
  }

  lemma PowersAreFloored()
    ensures forall n, e :: 0 <= n < MANTISSA ==> FlooredAt(AtPowerOfTwo, PowerOfTwo, n, e)
  {
    forall n, e | 0 <= n < MANTISSA ensures FlooredAt(AtPowerOfTwo, PowerOfTwo, n, e) {
      FlooredAtPower(n, e);
    }
  }

  lemma BinaryPricesUsePowers(step: int)
    ensures forall n, id :: Uses(BinaryPrices(), AtPowerOfTwo, n, id, step)
  {
  }

  /** Up to 2^53 double precision floors exactly at such prices. */
  lemma BinaryPricesFloorExactly(step: int)
    ensures FloorsExactly(BinaryPrices(), PowerOfTwo, step, 0x20_0000_0000_0000)
  {
    PowersAreInverses();
    PowersAreFloored();
    BinaryPricesUsePowers(step);
    FloorsEverywhere(BinaryPrices(), PowerOfTwo, step, MANTISSA, AtPowerOfTwo);
  }
}
