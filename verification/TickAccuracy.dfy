/** How close `getSqrtRatioAtTick` is to the square root of 1.0001^tick. */
module TickAccuracy {
  import opened Arithmetic
  import opened RealBounds
  import opened TickMath

  // ---------------------------------------------------------------- the exact price

  const BASE: real := 10_001.0 / 10_000.0

  /** 1.0001^n */
  function Up(n: nat): (p: real)
    ensures p > 0.0
  {
    if n == 0 then 1.0 else Up(n - 1) * BASE
  }

  lemma {:induction false} UpSum(m: nat, n: nat, a: real, b: real, c: real)
    requires a == Up(m) && b == Up(n) && c == Up(m + n)
    ensures c == a * b
  {
    if n > 0 {
      var b0, c0 := Up(n - 1), Up(m + n - 1);
      UpSum(m, n - 1, a, b0, c0);
      Assoc(a, b0, BASE, c0, b);
    }
  }

  // ---------------------------------------------------------------- squares of the magic constants

  function Magic(i: nat): real
    requires i < BITS
  {
    MAGIC[i] as real / Q128 as real
  }

  function MagicSquare(i: nat): real
    requires i < BITS
  {
    Square(Magic(i))
  }

  /** 3^k: the allowance for `k` constants, in units of 2^-112. */
  const POW3: seq<int> := [
    1, 3, 9, 27, 81, 243, 729, 2187, 6561, 19683, 59049, 177147, 531441, 1594323, 4782969, 14348907,
    43046721, 129140163, 387420489, 1162261467, 3486784401]

  const SCALE: int := 0x1_0000_0000_0000_0000_0000_0000_0000

  /** What may be lost or gained over `k` bits, as a factor of the square. */
  function Hi(k: nat): real
    requires k <= BITS
  {
    (SCALE + POW3[k]) as real / SCALE as real
  }

  function Lo(k: nat): real
    requires k <= BITS
  {
    (SCALE - POW3[k]) as real / SCALE as real
  }

  /** Each constant is so close to the square of the one before that one row of bounds gives the next. */
  lemma LinkRowAbove(i: nat, q: real, q2: real)
    requires i + 1 < BITS && q == MagicSquare(i) && q2 == MagicSquare(i + 1)
    ensures LinkAbove(q, q2, Hi(i), Hi(i + 1))
  {
  }

  lemma LinkRowBelow(i: nat, q: real, q2: real)
    requires i + 1 < BITS && q == MagicSquare(i) && q2 == MagicSquare(i + 1)
    ensures LinkBelow(q, q2, Lo(i), Lo(i + 1))
  {
  }

  lemma MagicSquarePositive(i: nat)
    requires i < BITS
    ensures 0.0 < MagicSquare(i)
  {
  }

  lemma BoundRow(k: nat, h: real, h2: real, l: real, l2: real)
    requires k < BITS && h == Hi(k) && h2 == Hi(k + 1) && l == Lo(k) && l2 == Lo(k + 1)
    ensures 1.0 <= h <= h2 && h * h <= h2 && 0.0 < l2 <= l <= 1.0 && l2 <= l * l
  {
  }

  lemma FirstRow(q: real)
    requires q == MagicSquare(0)
    ensures Lo(0) <= q * BASE <= Hi(0)
  {
  }

  lemma UpDouble(i: nat, w: real, W: real)
    requires w == Up(Pow2(i)) && W == Up(Pow2(i + 1))
    ensures W == w * w
  {
    UpSum(Pow2(i), Pow2(i), w, w, W);
  }

  ghost predicate Within(l: real, q: real, w: real, h: real) {
    l <= q * w <= h
  }

  lemma MagicStep(j: nat, q0: real, q: real, w0: real, w: real, h0: real, h: real, l0: real, l: real)
    requires j + 1 < BITS && q0 == MagicSquare(j) && q == MagicSquare(j + 1)
    requires w0 == Up(Pow2(j)) && w == Up(Pow2(j + 1))
    requires h0 == Hi(j) && h == Hi(j + 1) && l0 == Lo(j) && l == Lo(j + 1) && Within(l0, q0, w0, h0)
    ensures Within(l, q, w, h)
  {
    UpDouble(j, w0, w);
    LinkRowAbove(j, q0, q);
    LinkRowBelow(j, q0, q);
    MagicSquarePositive(j);
    MagicSquarePositive(j + 1);
    BoundRow(j, h0, h, l0, l);
    NextIsAccurate(q0, q, w0, w, h0, h, l0, l);
  }

  /** Constant `i` squared is 1.0001^(-2^i), up to its allowance. */
  lemma {:induction false} MagicIsAccurate(i: nat, q: real, w: real, h: real, l: real)
    requires i < BITS && q == MagicSquare(i) && w == Up(Pow2(i)) && h == Hi(i) && l == Lo(i)
    ensures Within(l, q, w, h)
  {
    if i == 0 {
      FirstRow(q);
      assert w == 1.0 * BASE;
    } else {
      var j := i - 1;
      var q0, w0, h0, l0 := MagicSquare(j), Up(Pow2(j)), Hi(j), Lo(j);
      MagicIsAccurate(j, q0, w0, h0, l0);
      MagicStep(j, q0, q, w0, w, h0, h, l0, l);
    }
  }

  // ---------------------------------------------------------------- the product over the bits

  /** The ratio after `k` bits, as a number. */
  function Ratio(abs: nat, k: nat): real
    requires k <= BITS
  {
    RatioBits(abs, k) as real / Q128 as real
  }

  const UNIT: real := 1.0 / Q128 as real

  /** A set bit multiplies the exact price. */
  lemma {:induction false} SetBitPrice(abs: nat, k: nat, p: real, w: real, W: real)
    requires Bit(abs, k) && p == Up(abs % Pow2(k)) && w == Up(Pow2(k)) && W == Up(abs % Pow2(k + 1))
    ensures W == p * w
  {
    TopBit(abs, k + 1);
    UpSum(abs % Pow2(k), Pow2(k), p, w, W);
  }

  lemma RatioIsPositive(abs: nat, k: nat)
    requires k <= BITS
    ensures 0.0 < Ratio(abs, k) <= 1.0
  {
    RatioBounds(abs, k);
  }

  /** A set bit floors one product. */
  lemma SetBitFloors(abs: nat, k: nat, x: real, m: real, y: real)
    requires k < BITS && Bit(abs, k) && x == Ratio(abs, k) && m == Magic(k) && y == Ratio(abs, k + 1)
    ensures y <= x * m <= y + UNIT
  {
    FloorProduct(RatioBits(abs, k), MAGIC[k], RatioBits(abs, k + 1), Q128, x, m, y);
  }

  lemma ClearBit(abs: nat, k: nat)
    requires k < BITS && !Bit(abs, k)
    ensures Ratio(abs, k + 1) == Ratio(abs, k) && abs % Pow2(k + 1) == abs % Pow2(k)
  {
    TopBit(abs, k + 1);
  }

  lemma MagicBelowOne(k: nat)
    requires k < BITS
    ensures 0.0 < Magic(k) <= 1.0
  {
  }

  lemma StepIsBit(abs: nat, k: nat, x: real, m: real, y: real, p: real, w: real, W: real)
    requires k < BITS && x == Ratio(abs, k) && m == Magic(k) && y == Ratio(abs, k + 1)
    requires p == Up(abs % Pow2(k)) && w == Up(Pow2(k)) && W == Up(abs % Pow2(k + 1))
    ensures BitStep(Bit(abs, k), x, m, y, p, w, W, UNIT)
  {
    RatioIsPositive(abs, k);
    RatioIsPositive(abs, k + 1);
    MagicBelowOne(k);
    if Bit(abs, k) {
      SetBitPrice(abs, k, p, w, W);
      SetBitFloors(abs, k, x, m, y);
    } else {
      ClearBit(abs, k);
    }
  }

  // ---------------------------------------------------------------- all bits

  lemma RatioStepAbove(abs: nat, j: nat, x0: real, x: real, m: real, p0: real, p: real, w: real, h0: real, h: real)
    requires j < BITS && x0 == Ratio(abs, j) && x == Ratio(abs, j + 1) && m == Magic(j)
    requires p0 == Up(abs % Pow2(j)) && p == Up(abs % Pow2(j + 1)) && w == Up(Pow2(j)) && h0 == Hi(j) && h == Hi(j + 1)
    requires SquareAtMost(x0, p0, h0)
    ensures SquareAtMost(x, p, h)
  {
    var q := MagicSquare(j);
    MagicIsAccurate(j, q, w, h0, Lo(j));
    StepIsBit(abs, j, x0, m, x, p0, w, p);
    BoundRow(j, h0, h, Lo(j), Lo(j + 1));
    BitAbove(Bit(abs, j), x0, m, q, x, p0, w, p, UNIT, h0, h);
  }

  /** One unit for each of `k` floors. */
  function Pad(k: nat): real {
    if k == 0 then 0.0 else Pad(k - 1) + UNIT
  }

  lemma {:induction false} PadSum(k: nat)
    ensures Pad(k) == k as real * UNIT
  {
    if k > 0 {
      PadSum(k - 1);
    }
  }

  lemma {:induction false} PadNonNegative(k: nat)
    ensures 0.0 <= Pad(k)
  {
    if k > 0 {
      PadNonNegative(k - 1);
    }
  }

  /** The square of the ratio after `k` bits, times 1.0001 to the bits consumed, is at most 1 plus the allowance. */
  lemma {:induction false} RatioAbove(abs: nat, k: nat, x: real, p: real, h: real)
    requires k <= BITS && x == Ratio(abs, k) && p == Up(abs % Pow2(k)) && h == Hi(k)
    ensures SquareAtMost(x, p, h)
  {
    if k == 0 {
      assert x == 1.0 && p == 1.0;
    } else {
      var j := k - 1;
      var x0, p0, h0 := Ratio(abs, j), Up(abs % Pow2(j)), Hi(j);
      RatioAbove(abs, j, x0, p0, h0);
      RatioStepAbove(abs, j, x0, x, Magic(j), p0, p, Up(Pow2(j)), h0, h);
    }
  }

  /** Given back one unit for each floor, it is at least 1 less the allowance. */
  lemma {:induction false} RatioBelow(abs: nat, k: nat, X: real, p: real, l: real)
    requires k <= BITS && X == Ratio(abs, k) + Pad(k) && p == Up(abs % Pow2(k)) && l == Lo(k)
    ensures SquareAtLeast(l, X, p)
  {
    if k == 0 {
      assert X == 1.0 && p == 1.0;
    } else {
      var j := k - 1;
      var x0, x, p0, l0, d := Ratio(abs, j), Ratio(abs, k), Up(abs % Pow2(j)), Lo(j), Pad(j);
      var w, q := Up(Pow2(j)), MagicSquare(j);
      RatioBelow(abs, j, x0 + d, p0, l0);
      PadNonNegative(j);
      MagicIsAccurate(j, q, w, Hi(j), l0);
      StepIsBit(abs, j, x0, Magic(j), x, p0, w, p);
      BoundRow(j, Hi(j), Hi(k), l0, l);
      BitBelow(Bit(abs, j), x0, Magic(j), q, x, p0, w, p, UNIT, l0, l, d, x0 + d, X);
    }
  }

  // ---------------------------------------------------------------- the result

  /** `price` is 1.0001^tick, what the tick stands for. */
  predicate IsPrice(tick: int, price: real) {
    if tick >= 0 then price == Up(tick) else price * Up(-tick) == 1.0
  }

  /** One unit in the last place of a Q64.64 number. */
  const ULP: real := 1.0 / Q64 as real

  const TOLERANCE: real := 1.0 / 0x4000_0000_0000 as real

  lemma ToleranceCovers(hi: real, lo: real, c: real, g: real)
    requires hi == Hi(BITS) && lo == Lo(BITS) && c == 1.0 - 2.0 * UNIT && g == 1.0 + TOLERANCE / 4.0
    ensures 0.0 < lo && hi <= 1.0 + TOLERANCE && 1.0 - TOLERANCE <= lo && 0.0 < c && 1.0 <= g
    ensures (1.0 - TOLERANCE) * hi <= Square(c) && Square(g) <= (1.0 + TOLERANCE) * lo
    ensures (1.0 - TOLERANCE) * Square(g) <= lo
  {
  }

  /** Rounding up to Q64.64 stays within one unit. */
  lemma RoundsUp(r: int, s: int, x: real, y: real)
    requires 0 < r && s == ToQ64(r) && x == r as real / Q128 as real && y == s as real / Q64 as real
    ensures 0.0 <= y - ULP <= x <= y
  {
    assert (s - 1) * Q64 < r <= s * Q64;
    assert y * Q128 as real == (s * Q64) as real;
  }

  lemma {:induction false} Bounds(abs: nat, x: real, X: real, p: real, hi: real, lo: real)
    requires abs < TICK_BOUND && x == Ratio(abs, BITS) && X == x + Pad(BITS) && p == Up(abs) && hi == Hi(BITS)
             && lo == Lo(BITS)
    ensures SquareAtMost(x, p, hi) && SquareAtLeast(lo, X, p)
  {
    TickBoundIsPow2();
    DivUnique(abs, TICK_BOUND, 0, abs);
    RatioAbove(abs, BITS, x, p, hi);
    RatioBelow(abs, BITS, X, p, lo);
  }

  lemma PadFits(r: int, x: real, X: real, g: real)
    requires ONES[BITS] <= r && x == r as real / Q128 as real && X == x + 20.0 * UNIT && g == 1.0 + TOLERANCE / 4.0
    ensures x <= X <= x + ULP && X <= g * x
  {
    assert 20.0 * UNIT <= TOLERANCE / 4.0 * x;
    assert g * x == x + TOLERANCE / 4.0 * x;
  }

  lemma PadIsSmall(abs: nat, x: real, X: real, g: real)
    requires x == Ratio(abs, BITS) && X == x + Pad(BITS) && g == 1.0 + TOLERANCE / 4.0
    ensures x <= X <= x + ULP && X <= g * x
  {
    PadSum(BITS);
    RatioBounds(abs, BITS);
    AllOnesIsTabled(BITS);
    PadFits(RatioBits(abs, BITS), x, X, g);
  }

  lemma InverseProduct(r: int, u: int, x: real, z: real)
    requires 0 < r <= Q128 && u == MAX / r && x == r as real / Q128 as real && z == u as real / Q128 as real
    ensures 1.0 - 2.0 * UNIT <= z * x <= 1.0
  {
    FloorBounds(MAX, r);
    assert z * x == (u * r) as real / Q128 as real / Q128 as real;
  }

  lemma {:induction false} NegativeTick(abs: nat, r: int, y: real, p: real, e: real)
    requires abs < TICK_BOUND && r == RatioBits(abs, BITS) && y == ToQ64(r) as real / Q64 as real && p == Up(abs)
             && e * p == 1.0 && 0.0 < e
    ensures Encloses(y - ULP, y, e, TOLERANCE)
  {
    var x, X, hi, lo, c, g := Ratio(abs, BITS), Ratio(abs, BITS) + Pad(BITS), Hi(BITS), Lo(BITS), 1.0 - 2.0 * UNIT,
      1.0 + TOLERANCE / 4.0;
    Bounds(abs, x, X, p, hi, lo);
    RatioIsPositive(abs, BITS);
    RoundsUp(r, ToQ64(r), x, y);
    PadIsSmall(abs, x, X, g);
    ToleranceCovers(hi, lo, c, g);
    NegativeRoot(y - ULP, y, x, X, p, e, hi, lo, g, TOLERANCE);
  }

  lemma {:induction false} PositiveTick(abs: nat, r: int, u: int, y: real, p: real)
    requires abs < TICK_BOUND && r == RatioBits(abs, BITS) && 0 < r <= Q128 && 0 < u == MAX / r
    requires y == ToQ64(u) as real / Q64 as real && p == Up(abs)
    ensures Encloses(y - ULP, y, p, TOLERANCE)
  {
    var x, X, hi, lo, z := Ratio(abs, BITS), Ratio(abs, BITS) + Pad(BITS), Hi(BITS), Lo(BITS), u as real / Q128 as real;
    var c, g := 1.0 - 2.0 * UNIT, 1.0 + TOLERANCE / 4.0;
    Bounds(abs, x, X, p, hi, lo);
    RatioIsPositive(abs, BITS);
    RoundsUp(u, ToQ64(u), z, y);
    PadIsSmall(abs, x, X, g);
    ToleranceCovers(hi, lo, c, g);
    InverseProduct(r, u, x, z);
    PositiveRoot(y - ULP, y, z, x, X, p, hi, lo, c, g, TOLERANCE);
  }

  lemma NegativeAccurate(tick: int, y: real, price: real)
    requires -TICK_BOUND < tick < 0 && y == SqrtRatioAtTick(tick) as real / Q64 as real && IsPrice(tick, price)
    ensures Encloses(y - ULP, y, price, TOLERANCE)
  {
    var p := Up(-tick);
    if price <= 0.0 {
      RealMulMono(price, 0.0, p);
    }
    NegativeTick(-tick, RatioBits(-tick, BITS), y, p, price);
  }

  lemma PositiveAccurate(tick: int, y: real, price: real)
    requires 0 < tick < TICK_BOUND && y == SqrtRatioAtTick(tick) as real / Q64 as real && IsPrice(tick, price)
    ensures Encloses(y - ULP, y, price, TOLERANCE)
  {
    var r := RatioBits(tick, BITS);
    RatioBounds(tick, BITS);
    FloorGalois(MAX, r, 1);
    PositiveTick(tick, r, MAX / r, y, price);
  }

  /**
   * Below 2^20, the price of a tick is the square root of 1.0001^tick, rounded up by less than one unit, within a
   * relative 2^-46 in the square.
   */
  lemma SqrtRatioIsAccurate(tick: int, y: real, price: real)
    requires -TICK_BOUND < tick < TICK_BOUND && y == SqrtRatioAtTick(tick) as real / Q64 as real
    requires IsPrice(tick, price)
    ensures Encloses(y - ULP, y, price, TOLERANCE)
  {
    if tick < 0 {
      NegativeAccurate(tick, y, price);
    } else if tick == 0 {
      TickZeroIsOne();
    } else {
      PositiveAccurate(tick, y, price);
    }
  }
}
