/** Tick index to Q64.64 square-root price: the binary exponentiation of `getSqrtRatioAtTick`. */
module TickMath {
  import opened Arithmetic

  const Q64: int := 0x1_0000_0000_0000_0000
  const Q128: int := 0x1_0000_0000_0000_0000_0000_0000_0000_0000
  const MAX: int := Q128 * Q128 - 1

  /** The number of magic constants, hence of tick bits that are looked at. */
  const BITS: nat := 20

  /** Entry `i` stands for 1.0001^(-2^i / 2) in Q128. */
  const MAGIC: seq<int> := [
    0xfffc_b933_bd6f_ad37_aa2d_162d_1a59_4001,
    0xfff9_7272_373d_4132_59a4_6990_580e_213a,
    0xfff2_e50f_5f65_6932_ef12_357c_f3c7_fdcc,
    0xffe5_caca_7e10_e4e6_1c36_24ea_a094_1cd0,
    0xffcb_9843_d60f_6159_c9db_5883_5c92_6644,
    0xff97_3b41_fa98_c081_472e_6896_dfb2_54c0,
    0xff2e_a164_66c9_6a38_43ec_78b3_26b5_2861,
    0xfe5d_ee04_6a99_a2a8_11c4_61f1_969c_3053,
    0xfcbe_86c7_900a_88ae_dcff_c83b_479a_a3a4,
    0xf987_a725_3ac4_1317_6f2b_074c_f781_5e54,
    0xf339_2b08_22b7_0005_940c_7a39_8e4b_70f3,
    0xe715_9475_a2c2_9b74_43b2_9c7f_a6e8_89d9,
    0xd097_f3bd_fd20_22b8_845a_d8f7_92aa_5825,
    0xa9f7_4646_2d87_0fdf_8a65_dc1f_90e0_61e5,
    0x70d8_69a1_56d2_a1b8_90bb_3df6_2baf_32f7,
    0x31be_135f_97d0_8fd9_8123_1505_542f_cfa6,
    0x9aa_508b_5b7a_84e1_c677_de54_f3e9_9bc9,
    0x5d_6af8_dedb_8119_6699_c329_225e_e604,
    0x2216_e584_f5fa_1ea9_2604_1bed_fe98,
    0x48a_1703_91f7_dc42_444e_8fa2]

  function Pow2(k: nat): (p: int)
    ensures 1 <= p
  {
    if k == 0 then 1 else 2 * Pow2(k - 1)
  }

  /** Whether bit `i` of `x` is set. */
  predicate Bit(x: nat, i: nat) {
    x / Pow2(i) % 2 == 1
  }

  function Abs(x: int): nat {
    if x < 0 then -x else x
  }

  /** One factor of the product: a Q128 multiplication that floors. */
  function Scale(ratio: int, i: nat): int
    requires i < BITS
  {
    ratio * MAGIC[i] / Q128
  }

  /** The Q128 ratio once the `k` lowest bits of `abs` have been consumed. */
  function RatioBits(abs: nat, k: nat): int
    requires k <= BITS
  {
    if k == 0 then Q128
    else if Bit(abs, k - 1) then Scale(RatioBits(abs, k - 1), k - 1)
    else RatioBits(abs, k - 1)
  }

  /** The ratio of the number whose `k` lowest bits are all set. */
  function AllOnes(k: nat): int
    requires k <= BITS
  {
    if k == 0 then Q128 else Scale(AllOnes(k - 1), k - 1)
  }

  /** sqrt(1.0001^tick) in Q64.64, rounded up, as `getSqrtRatioAtTick` defines it. It is positive on every tick. */
  function SqrtRatioAtTick(tick: int): (sqrt: int)
    ensures 0 < sqrt
  {
    var r := RatioBits(Abs(tick), BITS);
    RatioBounds(Abs(tick), BITS);
    FloorGalois(MAX, r, 1);
    ToQ64(if tick > 0 then MAX / r else r)
  }

  /** Q128 to Q64, rounding up. */
  function ToQ64(ratio: int): int {
    ratio / Q64 + (if ratio % Q64 == 0 then 0 else 1)
  }

  /** The loop over the tick's bits. */
  method GetSqrtRatioAtTick(tick: int) returns (sqrt: int)
    ensures sqrt == SqrtRatioAtTick(tick)
  {
    var abs := Abs(tick);
    var ratio := if abs % 2 != 0 then 0xfffc_b933_bd6f_ad37_aa2d_162d_1a59_4001 else Q128;
    assert ratio == RatioBits(abs, 1) by {
      assert Pow2(0) == 1;
      DivUnique(Q128 * MAGIC[0], Q128, MAGIC[0], 0);
    }
    var i := 1;
    while i < BITS
      invariant 1 <= i <= BITS
      invariant ratio == RatioBits(abs, i)
    {
      if abs / Pow2(i) % 2 != 0 {
        ratio := ratio * MAGIC[i] / Q128;
      }
      i := i + 1;
    }
    RatioBounds(abs, BITS);
    if tick > 0 {
      ratio := MAX / ratio;
    }
    sqrt := ratio / Q64 + if ratio % Q64 == 0 then 0 else 1;
  }

  lemma ScaleMono(r: int, s: int, i: nat)
    requires i < BITS && 0 <= r <= s
    ensures 0 <= Scale(r, i) <= Scale(s, i)
  {
  }

  /** Multiplying by a magic constant never increases the ratio. */
  lemma ScaleShrinks(r: int, i: nat)
    requires i < BITS && 0 <= r
    ensures Scale(r, i) <= r
  {
    DivMono(r * MAGIC[i], r * Q128, Q128);
  }

  /** The floored product of the `k` lowest magic constants. */
  const ONES: seq<int> := [
    0x1_0000_0000_0000_0000_0000_0000_0000_0000,
    0xfffc_b933_bd6f_ad37_aa2d_162d_1a59_4001,
    0xfff6_2bbb_6d45_8ec3_c792_1063_91dc_463e,
    0xffe9_114b_9cf2_8d39_4c32_03db_d44e_b085,
    0xffce_de6f_1d8b_e90b_88f3_5042_4e84_e5b7,
    0xff9a_80c1_ada7_480b_1daa_871d_7c4d_9b36,
    0xff31_e58d_5a53_c84f_c142_023e_c1b1_dfd7,
    0xfe61_2f81_83b1_ea21_b72f_b71b_0354_2ae4,
    0xfcc1_c2f3_8053_6bc6_7ee1_ff56_4d10_80b2,
    0xf98a_d8c8_d7ec_c0a3_f8a4_2c97_24cf_fb6a,
    0xf33c_4801_89b4_1523_5ad1_1942_7d89_a1f6,
    0xe718_89a8_5903_fd03_cb7c_c40b_df37_1a9c,
    0xd09a_9f3e_93db_5812_d482_0c2f_c67a_3e3a,
    0xa9f9_7334_5b9e_647c_4163_af91_d00b_255f,
    0x70d9_db64_85f0_4ddd_567e_07c7_b89f_8e7c,
    0x31be_b65d_91af_63ae_717a_760b_e3b3_74dc,
    0x9aa_7036_fd23_5542_9c40_30b0_32e1_cf71,
    0x5d_6c2a_f97a_aa8d_e0e5_a6bf_23f5_e547,
    0x2217_5538_8a66_58e1_20f4_a3c5_03cf,
    0x48a_25e3_6942_a4fc_0c1f_899f,
    0x14_9b78_73d8_4d48]

  /** The table of products is the table of magic constants multiplied out. */
  lemma OnesStep(k: nat)
    requires k < BITS
    ensures Scale(ONES[k], k) == ONES[k + 1] && ONES[k] >= MAGIC[k]
  {
  }

  lemma {:induction false} AllOnesIsTabled(k: nat)
    requires k <= BITS
    ensures AllOnes(k) == ONES[k]
  {
    if k > 0 {
      AllOnesIsTabled(k - 1);
      OnesStep(k - 1);
    }
  }

  /** Each magic constant is at most the floored product of all the lower ones. */
  lemma {:induction false} MagicTable(k: nat)
    requires k < BITS
    ensures AllOnes(k) >= MAGIC[k]
  {
    AllOnesIsTabled(k);
    OnesStep(k);
  }

  lemma {:induction false} AllOnesPositive(k: nat)
    requires k <= BITS
    ensures 0 < AllOnes(k)
  {
    AllOnesIsTabled(k);
  }

  /** Every ratio lies between the all-ones ratio and 1. */
  lemma {:induction false} RatioBounds(abs: nat, k: nat)
    requires k <= BITS
    ensures 0 < AllOnes(k) <= RatioBits(abs, k) <= Q128
  {
    AllOnesPositive(k);
    if k > 0 {
      RatioBounds(abs, k - 1);
      ScaleMono(AllOnes(k - 1), RatioBits(abs, k - 1), k - 1);
      ScaleShrinks(RatioBits(abs, k - 1), k - 1);
    }
  }

  /** Splitting off the top bit of a `k`-bit residue. */
  lemma TopBit(x: nat, k: nat)
    requires 0 < k
    ensures x % Pow2(k) == x % Pow2(k - 1) + if Bit(x, k - 1) then Pow2(k - 1) else 0
  {
    var p := Pow2(k - 1);
    var q, r := x / p, x % p;
    var h, b := q / 2, q % 2;
    assert x == p * q + r;
    assert p * q == (2 * p) * h + p * b by {
      assert p * (2 * h + b) == p * (2 * h) + p * b;
    }
    DivUnique(x, 2 * p, h, p * b + r);
  }

  /** The larger the residue, the smaller the ratio. */
  lemma {:induction false} RatioAntitone(a: nat, b: nat, k: nat)
    requires k <= BITS && a % Pow2(k) <= b % Pow2(k)
    ensures RatioBits(a, k) >= RatioBits(b, k)
  {
    if k > 0 {
      TopBit(a, k);
      TopBit(b, k);
      RatioBounds(a, k - 1);
      RatioBounds(b, k - 1);
      if Bit(a, k - 1) == Bit(b, k - 1) {
        RatioAntitone(a, b, k - 1);
        ScaleMono(RatioBits(b, k - 1), RatioBits(a, k - 1), k - 1);
      } else {
        MagicTable(k - 1);
        ScaleMono(RatioBits(b, k - 1), Q128, k - 1);
        DivUnique(Q128 * MAGIC[k - 1], Q128, MAGIC[k - 1], 0);
      }
    }
  }

  lemma ToQ64Mono(r: int, s: int)
    requires r <= s
    ensures ToQ64(r) <= ToQ64(s)
  {
  }

  const TICK_BOUND: int := 0x10_0000

  lemma TickBoundIsPow2()
    ensures Pow2(BITS) == TICK_BOUND
  {
    assert Pow2(10) == 1024;
  }

  /** Below 2^20 the price is monotone in the tick. */
  lemma SqrtRatioMono(a: int, b: int)
    requires -TICK_BOUND < a <= b < TICK_BOUND
    ensures SqrtRatioAtTick(a) <= SqrtRatioAtTick(b)
  {
    TickBoundIsPow2();
    var x, y := Abs(a), Abs(b);
    DivUnique(y, TICK_BOUND, 0, y);
    RatioBounds(x, BITS);
    RatioBounds(y, BITS);
    var r, s := RatioBits(x, BITS), RatioBits(y, BITS);
    if b <= 0 {
      RatioAntitone(y, x, BITS);
      ToQ64Mono(r, s);
    } else if a <= 0 {
      FloorGalois(MAX, s, Q128);
      NonzeroBelowOne(y);
      ToQ64Mono(r, MAX / s);
    } else {
      RatioAntitone(x, y, BITS);
      FractionMono(MAX, r, MAX, s) by { MulMono(s, r, MAX); }
    }
  }

  /** A non-zero tick below 2^20 has a ratio strictly below 1. */
  lemma {:induction false} NonzeroBelowOne(x: nat)
    requires 0 < x < TICK_BOUND
    ensures RatioBits(x, BITS) < Q128
  {
    TickBoundIsPow2();
    RatioAntitone(1, x, BITS);
    RatioOfOne(BITS);
  }

  lemma {:induction false} RatioOfOne(k: nat)
    requires 1 <= k <= BITS
    ensures RatioBits(1, k) == MAGIC[0]
  {
    if k == 1 {
    } else {
      RatioOfOne(k - 1);
      DivUnique(1, Pow2(k - 1), 0, 1);
    }
  }

  /** Bits from 20 upward are ignored: the ratio repeats with period 2^20. */
  lemma RatioPeriodic(x: nat, m: nat)
    ensures RatioBits(x + m * TICK_BOUND, BITS) == RatioBits(x, BITS)
  {
    TickBoundIsPow2();
    var y := x + m * TICK_BOUND;
    RatioAntitone(x, y, BITS);
    RatioAntitone(y, x, BITS);
  }

  /** Tick 2^20 is read as tick 0, so its price is below the price of tick 1. */
  lemma FallsAtTheBound()
    ensures SqrtRatioAtTick(TICK_BOUND) == Q64 < SqrtRatioAtTick(1)
  {
    TickOneIsAboveOne();
    RatioPeriodic(0, 1);
    RatioOfZero(BITS);
    MaxOverOne();
  }

  lemma MaxOverOne()
    ensures MAX / Q128 == Q128 - 1
  {
  }

  lemma TickOneIsAboveOne()
    ensures Q64 < SqrtRatioAtTick(1)
  {
    RatioOfOne(BITS);
  }

  ghost predicate MonotoneUpTo(n: int) {
    forall a: int, b: int :: -n <= a <= b <= n ==> SqrtRatioAtTick(a) <= SqrtRatioAtTick(b)
  }

  /** The price is monotone on the ticks from -n to n exactly when n is below 2^20. */
  lemma MonotoneExactlyBelowBound(n: int)
    requires 0 <= n
    ensures MonotoneUpTo(n) <==> n < TICK_BOUND
  {
    if n < TICK_BOUND {
      forall a: int, b: int | -n <= a <= b <= n ensures SqrtRatioAtTick(a) <= SqrtRatioAtTick(b) {
        SqrtRatioMono(a, b);
      }
    } else {
      FallsAtTheBound();
    }
  }

  lemma {:induction false} RatioOfZero(k: nat)
    requires k <= BITS
    ensures RatioBits(0, k) == Q128
  {
    if k > 0 {
      RatioOfZero(k - 1);
      DivUnique(0, Pow2(k - 1), 0, 0);
    }
  }

  /** A tick and its mirror image are reciprocal prices, up to rounding both of them up. */
  lemma MirrorTicksAreReciprocal(tick: int)
    ensures var up, down := SqrtRatioAtTick(tick), SqrtRatioAtTick(-tick);
            Q128 - 1 <= up * down <= Q128 + up + down
  {
    if tick == 0 {
      TickZeroIsOne();
    } else {
      PositiveMirror(Abs(tick));
    }
  }

  lemma TickZeroIsOne()
    ensures SqrtRatioAtTick(0) == Q64
  {
    RatioOfZero(BITS);
  }

  lemma PositiveMirror(tick: int)
    requires 0 < tick
    ensures var up, down := SqrtRatioAtTick(tick), SqrtRatioAtTick(-tick);
            Q128 - 1 <= up * down <= Q128 + up + down
  {
    RatioBounds(tick, BITS);
    var r := RatioBits(tick, BITS);
    FloorBounds(MAX, r);
    ReciprocalRounding(r, MAX / r, SqrtRatioAtTick(-tick), SqrtRatioAtTick(tick));
  }

  lemma ReciprocalRounding(r: int, u: int, a: int, b: int)
    requires 0 < r <= Q128 && 0 <= u && u * r <= MAX < u * r + r
    requires a == ToQ64(r) && b == ToQ64(u)
    ensures Q128 - 1 <= a * b <= Q128 + a + b
  {
    RoundedProduct(r, u, a, b, Q64);
    SquareBracket(a, b, u * r, Q128);
  }

  lemma SquareBracket(a: int, b: int, n: int, q: int)
    requires 0 < q && (a - 1) * (b - 1) * q <= n <= a * b * q && q * q - q <= n < q * q
    ensures q - 1 <= a * b <= q + a + b
  {
    var lo, hi := (a - 1) * (b - 1), a * b;
    if lo >= q { MulMono(q, lo, q); }
    if hi < q - 1 { MulMono(hi, q - 2, q); }
  }

  /** The product of two numbers rounded up to multiples of `w` brackets the exact product. */
  lemma RoundedProduct(r: int, u: int, a: int, b: int, w: int)
    requires 0 < w && 0 < r && 0 <= u
    requires a * w - w < r <= a * w && b * w - w < u <= b * w
    ensures (a - 1) * (b - 1) * (w * w) <= u * r <= a * b * (w * w)
  {
    assert 0 < a && 0 <= b by {
      if a <= 0 { MulMono(a, 0, w); }
      if b < 0 { MulMono(b, 0, w); }
    }
    ScaledProduct(u, r, b, a, w);
    if b != 0 {
      MulMono((b - 1) * w, u, r);
      MulMono((a - 1) * w, r, (b - 1) * w);
      SquareOut(b - 1, a - 1, w);
    }
  }

  lemma ScaledProduct(u: int, r: int, b: int, a: int, w: int)
    requires 0 < w && 0 < r <= a * w && 0 <= u <= b * w && 0 <= b
    ensures u * r <= a * b * (w * w)
  {
  }

  lemma SquareOut(b: int, a: int, w: int)
    ensures b * w * (a * w) == a * b * (w * w)
  {
  }
}
