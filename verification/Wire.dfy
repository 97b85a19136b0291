/** The instruction bytes that travel from the planner through the session program to the router program. */
module Wire {
  import opened Common
  import opened Arithmetic

  type Bytes = seq<byte>

  // ---------------------------------------------------------------- little-endian integers

  function Pow256(k: nat): (p: int)
    ensures 1 <= p
  {
    if k == 0 then 1 else 0x100 * Pow256(k - 1)
  }

  /** `k` bytes of `n`, least significant first. */
  function LE(n: nat, k: nat): (b: Bytes)
    ensures |b| == k
  {
    if k == 0 then [] else [n % 0x100] + LE(n / 0x100, k - 1)
  }

  function FromLE(b: Bytes): nat {
    if b == [] then 0 else b[0] + 0x100 * FromLE(b[1..])
  }

  lemma {:induction false} DecodeOfLE(n: nat, k: nat)
    requires n < Pow256(k)
    ensures FromLE(LE(n, k)) == n
  {
    if k > 0 {
      DecodeOfLE(n / 0x100, k - 1);
    }
  }

  lemma {:induction false} LEOfDecode(b: Bytes)
    ensures FromLE(b) < Pow256(|b|) && LE(FromLE(b), |b|) == b
  {
    if b != [] {
      LEOfDecode(b[1..]);
      var rest := FromLE(b[1..]);
      DivUnique(FromLE(b), 0x100, rest, b[0]);
    }
  }

  lemma Widths()
    ensures Pow256(2) == 0x1_0000 && Pow256(4) == 0x1_0000_0000 && Pow256(8) == TWO_64
  {
  }

  // ---------------------------------------------------------------- the router's arguments

  datatype SwapLeg = SwapLeg(venue: u8, accountOffset: u16, accountLen: u16, data: Bytes)

  datatype RouteArgs = RouteArgs(inputMint: Pubkey, outputMint: Pubkey, amountIn: u64, minAmountOut: u64,
                                 integratorFeeBps: u16, legs: seq<SwapLeg>)

  /** sha256("global:route")[:8] */
  const ROUTE_DISCRIMINATOR: Bytes := [229, 23, 203, 151, 122, 227, 173, 42]

  const U32_MAX: int := 0xFFFF_FFFF

  /** Borsh lengths are 32 bits wide. */
  predicate FitsBorsh(args: RouteArgs) {
    |args.legs| <= U32_MAX && forall i :: 0 <= i < |args.legs| ==> |args.legs[i].data| <= U32_MAX
  }

  // ---------------------------------------------------------------- writing

  function EncodeLeg(leg: SwapLeg): Bytes {
    [leg.venue] + LE(leg.accountOffset, 2) + LE(leg.accountLen, 2) + LE(|leg.data|, 4) + leg.data
  }

  function EncodeLegs(legs: seq<SwapLeg>): Bytes {
    if legs == [] then [] else EncodeLeg(legs[0]) + EncodeLegs(legs[1..])
  }

  function EncodeHead(args: RouteArgs): (b: Bytes)
    ensures |b| == 90
  {
    ROUTE_DISCRIMINATOR + args.inputMint + args.outputMint
    + LE(args.amountIn, 8) + LE(args.minAmountOut, 8) + LE(args.integratorFeeBps, 2)
  }

  function EncodeArgs(args: RouteArgs): Bytes {
    EncodeHead(args) + LE(|args.legs|, 4) + EncodeLegs(args.legs)
  }

  /** A leg as the planner holds it: JavaScript numbers, not yet machine integers. */
  datatype PlannedLeg = PlannedLeg(venue: int, accountOffset: int, accountLen: int, data: Bytes)

  predicate FitsUnsigned(n: int, k: nat) {
    0 <= n < Pow256(k)
  }

  predicate LegFits(leg: PlannedLeg) {
    FitsUnsigned(leg.accountOffset, 2) && FitsUnsigned(leg.accountLen, 2) && FitsUnsigned(|leg.data|, 4)
  }

  /** `Buffer.from([venue])` keeps the low byte. */
  function MachineLeg(leg: PlannedLeg): SwapLeg
    requires LegFits(leg)
  {
    Widths();
    SwapLeg(leg.venue % 0x100, leg.accountOffset, leg.accountLen, leg.data)
  }

  function MachineLegs(legs: seq<PlannedLeg>): (r: seq<SwapLeg>)
    requires forall i :: 0 <= i < |legs| ==> LegFits(legs[i])
    ensures |r| == |legs| && forall i :: 0 <= i < |legs| ==> r[i] == MachineLeg(legs[i])
  {
    if legs == [] then [] else [MachineLeg(legs[0])] + MachineLegs(legs[1..])
  }

  /** Every integer fits the width it is written with; outside, the buffer writes throw. */
  predicate PlanFits(amountIn: int, minAmountOut: int, feeBps: int, legs: seq<PlannedLeg>) {
    && FitsUnsigned(amountIn, 8) && FitsUnsigned(minAmountOut, 8) && FitsUnsigned(feeBps, 2) && FitsUnsigned(|legs|, 4)
    && forall i :: 0 <= i < |legs| ==> LegFits(legs[i])
  }

  function MachineArgs(inputMint: Pubkey, outputMint: Pubkey, amountIn: int, minAmountOut: int, feeBps: int,
                       legs: seq<PlannedLeg>): RouteArgs
    requires PlanFits(amountIn, minAmountOut, feeBps, legs)
  {
    Widths();
    RouteArgs(inputMint, outputMint, amountIn, minAmountOut, feeBps, MachineLegs(legs))
  }

  /** `encodeRouteData`; None where a buffer write throws. */
  function EncodeRouteData(inputMint: Pubkey, outputMint: Pubkey, amountIn: int, minAmountOut: int, feeBps: int,
                           legs: seq<PlannedLeg>): Option<Bytes>
  {
    if PlanFits(amountIn, minAmountOut, feeBps, legs)
    then Some(EncodeArgs(MachineArgs(inputMint, outputMint, amountIn, minAmountOut, feeBps, legs)))
    else None
  }

  // ---------------------------------------------------------------- reading (Borsh, as Anchor dispatches it)

  function Read(d: Bytes, k: nat): Option<(Bytes, Bytes)> {
    if |d| < k then None else Some((d[..k], d[k..]))
  }

  function DecodeLeg(d: Bytes): Option<(SwapLeg, Bytes)> {
    if |d| < 9 then None
    else
      LEOfDecode(d[1..3]);
      LEOfDecode(d[3..5]);
      Widths();
      match Read(d[9..], FromLE(d[5..9]))
      case None => None
      case Some(r) => Some((SwapLeg(d[0], FromLE(d[1..3]), FromLE(d[3..5]), r.0), r.1))
  }

  function DecodeLegs(d: Bytes, n: nat): Option<(seq<SwapLeg>, Bytes)> {
    if n == 0 then Some(([], d))
    else
      match DecodeLeg(d)
      case None => None
      case Some(r) =>
        match DecodeLegs(r.1, n - 1)
        case None => None
        case Some(t) => Some(([r.0] + t.0, t.1))
  }

  /** The router's view of instruction data: discriminator, then the arguments; trailing bytes are ignored. */
  function DecodeRoute(d: Bytes): Option<(RouteArgs, Bytes)> {
    if |d| < 94 || d[..8] != ROUTE_DISCRIMINATOR then None
    else
      LEOfDecode(d[72..80]);
      LEOfDecode(d[80..88]);
      LEOfDecode(d[88..90]);
      Widths();
      match DecodeLegs(d[94..], FromLE(d[90..94]))
      case None => None
      case Some(r) =>
        Some((RouteArgs(d[8..40], d[40..72], FromLE(d[72..80]), FromLE(d[80..88]), FromLE(d[88..90]), r.0), r.1))
  }

  /** The check of `execute_trade` on the forwarded bytes. */
  predicate HeaderOk(d: Bytes, inputMint: Pubkey, outputMint: Pubkey, amountIn: u64) {
    && |d| >= 80
    && d[0..8] == ROUTE_DISCRIMINATOR
    && d[8..40] == inputMint
    && d[40..72] == outputMint
    && FromLE(d[72..80]) == amountIn
  }

  // ---------------------------------------------------------------- round trips

  lemma DecodeOfEncodeLeg(leg: SwapLeg, rest: Bytes)
    requires |leg.data| <= U32_MAX
    ensures DecodeLeg(EncodeLeg(leg) + rest) == Some((leg, rest))
  {
    Widths();
    DecodeOfLE(leg.accountOffset, 2);
    DecodeOfLE(leg.accountLen, 2);
    DecodeOfLE(|leg.data|, 4);
    LegFields([leg.venue], LE(leg.accountOffset, 2), LE(leg.accountLen, 2), LE(|leg.data|, 4), leg.data, rest);
  }

  /** Where the fields of a leg lie. */
  lemma LegFields(venue: Bytes, offset: Bytes, len: Bytes, size: Bytes, data: Bytes, rest: Bytes)
    requires |venue| == 1 && |offset| == |len| == 2 && |size| == 4
    ensures var d := venue + offset + len + size + data + rest;
            && d[0] == venue[0] && d[1..3] == offset && d[3..5] == len && d[5..9] == size
            && d[9..] == data + rest && d[9..][..|data|] == data && d[9..][|data|..] == rest
  {
    var d := venue + offset + len + size + data + rest;
    assert d[9..] == data + rest;
  }

  lemma EncodeOfDecodeLeg(d: Bytes)
    requires DecodeLeg(d).Some?
    ensures d == EncodeLeg(DecodeLeg(d).value.0) + DecodeLeg(d).value.1
    ensures |DecodeLeg(d).value.0.data| <= U32_MAX
  {
    Widths();
    LEOfDecode(d[1..3]);
    LEOfDecode(d[3..5]);
    LEOfDecode(d[5..9]);
    assert d == [d[0]] + d[1..3] + d[3..5] + d[5..9] + d[9..];
  }

  lemma {:induction false} EncodeCons(leg: SwapLeg, more: seq<SwapLeg>, rest: Bytes)
    ensures EncodeLegs([leg] + more) + rest == EncodeLeg(leg) + (EncodeLegs(more) + rest)
  {
  }

  lemma {:induction false} DecodeOfEncodeLegs(legs: seq<SwapLeg>, rest: Bytes)
    requires forall i :: 0 <= i < |legs| ==> |legs[i].data| <= U32_MAX
    ensures DecodeLegs(EncodeLegs(legs) + rest, |legs|) == Some((legs, rest))
  {
    if legs == [] {
      assert EncodeLegs(legs) + rest == rest;
    } else {
      assert [legs[0]] + legs[1..] == legs;
      EncodeCons(legs[0], legs[1..], rest);
      DecodeOfEncodeLeg(legs[0], EncodeLegs(legs[1..]) + rest);
      DecodeOfEncodeLegs(legs[1..], rest);
    }
  }

  lemma {:induction false} EncodeOfDecodeLegs(d: Bytes, n: nat)
    requires DecodeLegs(d, n).Some?
    ensures |DecodeLegs(d, n).value.0| == n
    ensures d == EncodeLegs(DecodeLegs(d, n).value.0) + DecodeLegs(d, n).value.1
    ensures forall i :: 0 <= i < n ==> |DecodeLegs(d, n).value.0[i].data| <= U32_MAX
    decreases n
  {
    if n > 0 {
      EncodeOfDecodeLeg(d);
      var leg, tail := DecodeLeg(d).value.0, DecodeLeg(d).value.1;
      EncodeOfDecodeLegs(tail, n - 1);
      EncodeCons(leg, DecodeLegs(tail, n - 1).value.0, DecodeLegs(tail, n - 1).value.1);
    }
  }

  lemma HeadFields(disc: Bytes, inMint: Bytes, outMint: Bytes, amount: Bytes, min: Bytes, fee: Bytes, tail: Bytes)
    requires |disc| == 8 && |inMint| == |outMint| == 32 && |amount| == |min| == 8 && |fee| == 2
    ensures var d := disc + inMint + outMint + amount + min + fee + tail;
            && d[..8] == disc && d[8..40] == inMint && d[40..72] == outMint
            && d[72..80] == amount && d[80..88] == min && d[88..90] == fee && d[90..] == tail
  {
  }

  /** Where the fields of the head lie. */
  lemma HeadLayout(args: RouteArgs, tail: Bytes)
    ensures var d := EncodeHead(args) + tail;
            && d[..8] == ROUTE_DISCRIMINATOR && d[8..40] == args.inputMint && d[40..72] == args.outputMint
            && FromLE(d[72..80]) == args.amountIn && FromLE(d[80..88]) == args.minAmountOut
            && FromLE(d[88..90]) == args.integratorFeeBps && d[90..] == tail
  {
    Widths();
    DecodeOfLE(args.amountIn, 8);
    DecodeOfLE(args.minAmountOut, 8);
    DecodeOfLE(args.integratorFeeBps, 2);
    HeadFields(ROUTE_DISCRIMINATOR, args.inputMint, args.outputMint, LE(args.amountIn, 8), LE(args.minAmountOut, 8),
               LE(args.integratorFeeBps, 2), tail);
  }

  /** Whatever is appended, the router reads back exactly the encoded arguments. */
  lemma DecodeOfEncode(args: RouteArgs, rest: Bytes)
    requires FitsBorsh(args)
    ensures DecodeRoute(EncodeArgs(args) + rest) == Some((args, rest))
  {
    Widths();
    var count := LE(|args.legs|, 4);
    var tail := count + (EncodeLegs(args.legs) + rest);
    var d := EncodeArgs(args) + rest;
    assert d == EncodeHead(args) + tail;
    HeadLayout(args, tail);
    assert d[90..94] == count by { assert d[90..94] == d[90..][..4]; }
    assert d[94..] == EncodeLegs(args.legs) + rest by { assert d[94..] == d[90..][4..]; }
    DecodeOfLE(|args.legs|, 4);
    DecodeOfEncodeLegs(args.legs, rest);
  }

  lemma HeadOfDecode(d: Bytes)
    requires DecodeRoute(d).Some?
    ensures d[..90] == EncodeHead(DecodeRoute(d).value.0)
  {
    LEOfDecode(d[72..80]);
    LEOfDecode(d[80..88]);
    LEOfDecode(d[88..90]);
    HeadSlices(d);
  }

  lemma HeadSlices(d: Bytes)
    requires |d| >= 90
    ensures d[..90] == d[..8] + d[8..40] + d[40..72] + d[72..80] + d[80..88] + d[88..90]
  {
  }

  lemma TailOfDecode(d: Bytes)
    requires DecodeRoute(d).Some?
    ensures var args, rest := DecodeRoute(d).value.0, DecodeRoute(d).value.1;
            d[90..] == LE(|args.legs|, 4) + (EncodeLegs(args.legs) + rest) && FitsBorsh(args)
  {
    CountOfDecode(d);
    EncodeOfDecodeLegs(d[94..], FromLE(d[90..94]));
    CountThenLegs(d);
  }

  lemma CountOfDecode(d: Bytes)
    requires |d| >= 94
    ensures FromLE(d[90..94]) <= U32_MAX && LE(FromLE(d[90..94]), 4) == d[90..94]
  {
    Widths();
    LEOfDecode(d[90..94]);
  }

  lemma CountThenLegs(d: Bytes)
    requires |d| >= 94
    ensures d[90..] == d[90..94] + d[94..]
  {
  }

  lemma Regroup(d: Bytes, head: Bytes, count: Bytes, legs: Bytes, rest: Bytes)
    requires |d| >= 90 && d[..90] == head && d[90..] == count + (legs + rest)
    ensures d == head + count + legs + rest
  {
    assert d == d[..90] + d[90..];
  }

  /** Bytes that decode are the encoding of what they decode to: the format is unambiguous. */
  lemma EncodeOfDecode(d: Bytes)
    requires DecodeRoute(d).Some?
    ensures d == EncodeArgs(DecodeRoute(d).value.0) + DecodeRoute(d).value.1
    ensures FitsBorsh(DecodeRoute(d).value.0)
  {
    HeadOfDecode(d);
    TailOfDecode(d);
    var args, rest := DecodeRoute(d).value.0, DecodeRoute(d).value.1;
    Regroup(d, EncodeHead(args), LE(|args.legs|, 4), EncodeLegs(args.legs), rest);
  }

  /** The router's leg is the planner's. */
  predicate SameLeg(leg: SwapLeg, planned: PlannedLeg) {
    && leg.venue == planned.venue % 256 && leg.data == planned.data
    && leg.accountOffset == planned.accountOffset && leg.accountLen == planned.accountLen
  }

  /**
   * The planner's bytes exist exactly when every integer fits its width; read by the router, they give back
   * every field of the plan and every leg in its place.
   */
  lemma PlanSurvivesTheWire(inputMint: Pubkey, outputMint: Pubkey, amountIn: int, minAmountOut: int, feeBps: int,
                            legs: seq<PlannedLeg>)
    ensures EncodeRouteData(inputMint, outputMint, amountIn, minAmountOut, feeBps, legs).Some?
       <==> && 0 <= amountIn < 0x1_0000_0000_0000_0000 && 0 <= minAmountOut < 0x1_0000_0000_0000_0000
            && 0 <= feeBps < 0x1_0000 && |legs| < 0x1_0000_0000
            && forall i :: 0 <= i < |legs| ==>
                 && 0 <= legs[i].accountOffset < 0x1_0000 && 0 <= legs[i].accountLen < 0x1_0000
                 && |legs[i].data| < 0x1_0000_0000
    ensures var d := EncodeRouteData(inputMint, outputMint, amountIn, minAmountOut, feeBps, legs);
            d.Some? ==>
              && DecodeRoute(d.value).Some?
              && var (args, rest) := DecodeRoute(d.value).value;
              && args.inputMint == inputMint && args.outputMint == outputMint && args.amountIn == amountIn
              && args.minAmountOut == minAmountOut && args.integratorFeeBps == feeBps
              && |args.legs| == |legs| && rest == []
              && forall i :: 0 <= i < |legs| ==> SameLeg(args.legs[i], legs[i])
  {
    Widths();
    if PlanFits(amountIn, minAmountOut, feeBps, legs) {
      DecodeOfPlan(inputMint, outputMint, amountIn, minAmountOut, feeBps, legs);
    }
  }

  lemma DecodeOfPlan(inputMint: Pubkey, outputMint: Pubkey, amountIn: int, minAmountOut: int, feeBps: int,
                     legs: seq<PlannedLeg>)
    requires PlanFits(amountIn, minAmountOut, feeBps, legs)
    ensures DecodeRoute(EncodeRouteData(inputMint, outputMint, amountIn, minAmountOut, feeBps, legs).value)
         == Some((MachineArgs(inputMint, outputMint, amountIn, minAmountOut, feeBps, legs), []))
  {
    Widths();
    var args := MachineArgs(inputMint, outputMint, amountIn, minAmountOut, feeBps, legs);
    DecodeOfEncode(args, []);
    assert EncodeArgs(args) + [] == EncodeArgs(args);
  }

  /**
   * On bytes the router can read, the session's header check accepts exactly the mints and amount the
   * router will use.
   */
  lemma HeaderBindsExactly(d: Bytes, inputMint: Pubkey, outputMint: Pubkey, amountIn: u64)
    requires DecodeRoute(d).Some?
    ensures HeaderOk(d, inputMint, outputMint, amountIn)
       <==> var args := DecodeRoute(d).value.0;
            inputMint == args.inputMint && outputMint == args.outputMint && amountIn == args.amountIn
  {
  }

  /** The header check compares the first 80 bytes: the discriminator, the mints, and the little-endian amount. */
  lemma HeaderIsPrefix(d: Bytes, inputMint: Pubkey, outputMint: Pubkey, amountIn: u64)
    ensures HeaderOk(d, inputMint, outputMint, amountIn)
       <==> [229, 23, 203, 151, 122, 227, 173, 42] + inputMint + outputMint + LE(amountIn, 8) <= d
  {
    HeadIsPrefix([229, 23, 203, 151, 122, 227, 173, 42], inputMint, outputMint, LE(amountIn, 8), d);
    if |d| >= 80 {
      AmountIsWritten(d[72..80], amountIn);
    }
  }

  lemma AmountIsWritten(b: Bytes, amount: u64)
    requires |b| == 8
    ensures FromLE(b) == amount <==> b == LE(amount, 8)
  {
    Widths();
    LEOfDecode(b);
    DecodeOfLE(amount, 8);
  }

  lemma HeadIsPrefix(disc: Bytes, inMint: Bytes, outMint: Bytes, amount: Bytes, d: Bytes)
    requires |disc| == 8 && |inMint| == |outMint| == 32 && |amount| == 8
    ensures disc + inMint + outMint + amount <= d
       <==> |d| >= 80 && d[0..8] == disc && d[8..40] == inMint && d[40..72] == outMint && d[72..80] == amount
  {
    var head := disc + inMint + outMint + amount;
    if |d| >= 80 {
      assert d[..80] == d[0..8] + d[8..40] + d[40..72] + d[72..80];
      HeadParts(disc, inMint, outMint, amount, head);
      if head <= d {
        assert d[..80] == head;
        assert d[0..8] == head[0..8] && d[8..40] == head[8..40];
        assert d[40..72] == head[40..72] && d[72..80] == head[72..80];
      }
    }
  }

  lemma HeadParts(disc: Bytes, inMint: Bytes, outMint: Bytes, amount: Bytes, head: Bytes)
    requires |disc| == 8 && |inMint| == |outMint| == 32 && |amount| == 8 && head == disc + inMint + outMint + amount
    ensures head[0..8] == disc && head[8..40] == inMint && head[40..72] == outMint && head[72..80] == amount
  {
  }

  /** The planner's own bytes always pass the session's check of its mints and amount. */
  lemma EncodedPlanPassesHeader(inputMint: Pubkey, outputMint: Pubkey, amountIn: u64, minAmountOut: int, feeBps: int,
                                legs: seq<PlannedLeg>)
    requires PlanFits(amountIn, minAmountOut, feeBps, legs)
    ensures HeaderOk(EncodeRouteData(inputMint, outputMint, amountIn, minAmountOut, feeBps, legs).value,
                     inputMint, outputMint, amountIn)
  {
    DecodeOfPlan(inputMint, outputMint, amountIn, minAmountOut, feeBps, legs);
    HeaderBindsExactly(EncodeRouteData(inputMint, outputMint, amountIn, minAmountOut, feeBps, legs).value,
                       inputMint, outputMint, amountIn);
  }

  // ---------------------------------------------------------------- the bytes themselves

  lemma DivTwice(n: nat, p: int)
    requires 0 < p
    ensures n / 0x100 / p == n / (0x100 * p)
  {
    var q := n / 0x100 / p;
    FloorGalois(n / 0x100, p, q);
    FloorGalois(n / 0x100, p, q + 1);
    FloorGalois(n, 0x100, q * p);
    FloorGalois(n, 0x100, (q + 1) * p);
    FloorGalois(n, 0x100 * p, q);
    FloorGalois(n, 0x100 * p, q + 1);
    assert q * p * 0x100 == q * (0x100 * p) && (q + 1) * p * 0x100 == (q + 1) * (0x100 * p);
  }

  /** Byte `i` counts the multiples of 256^i. */
  lemma {:induction false} LEByte(n: nat, k: nat, i: nat)
    requires i < k
    ensures LE(n, k)[i] == n / Pow256(i) % 0x100
  {
    if i > 0 {
      LEByte(n / 0x100, k - 1, i - 1);
      DivTwice(n, Pow256(i - 1));
    }
  }

  /** The integer, least significant byte first, stands at this position. */
  ghost predicate WrittenAt(d: Bytes, at: nat, width: nat, n: nat) {
    at + width <= |d| && forall i :: 0 <= i < width ==> d[at + i] == n / Pow256(i) % 0x100
  }

  lemma {:induction false} SliceIsWritten(d: Bytes, at: nat, width: nat, n: nat)
    requires at + width <= |d| && d[at..at + width] == LE(n, width)
    ensures WrittenAt(d, at, width, n)
  {
    forall i | 0 <= i < width ensures d[at + i] == n / Pow256(i) % 0x100 {
      LEByte(n, width, i);
      assert d[at + i] == d[at..at + width][i];
    }
  }

  /** Where leg `i` starts: behind the 94 bytes of the head, and 9 bytes and the data of each leg before it. */
  function LegStart(legs: seq<PlannedLeg>, i: nat): nat
    requires i <= |legs|
  {
    if i == 0 then 94 else LegStart(legs, i - 1) + 9 + |legs[i - 1].data|
  }

  lemma {:induction false} EncodeSplit(legs: seq<SwapLeg>, i: nat)
    requires i < |legs|
    ensures EncodeLegs(legs) == EncodeLegs(legs[..i]) + (EncodeLeg(legs[i]) + EncodeLegs(legs[i + 1..]))
  {
    if i == 0 {
      assert legs[..0] == [];
    } else {
      EncodeSplit(legs[1..], i - 1);
      assert legs[1..][..i - 1] == legs[..i][1..] && legs[1..][i..] == legs[i + 1..];
    }
  }

  lemma {:induction false} EncodedLength(legs: seq<PlannedLeg>, i: nat)
    requires i <= |legs| && forall k :: 0 <= k < |legs| ==> LegFits(legs[k])
    ensures LegStart(legs, i) == 94 + |EncodeLegs(MachineLegs(legs)[..i])|
  {
    var m := MachineLegs(legs);
    if i > 0 {
      EncodedLength(legs, i - 1);
      EncodeSplit(m[..i], i - 1);
      assert m[..i][..i - 1] == m[..i - 1] && m[..i][i..] == [];
    }
  }

  /** The head: the discriminator, the mints, then the integers at 72, 80, 88 and 90. */
  lemma {:induction false} HeadBytes(inputMint: Pubkey, outputMint: Pubkey, amountIn: nat, minAmountOut: nat,
                                     feeBps: nat, legs: seq<PlannedLeg>, d: Bytes)
    requires EncodeRouteData(inputMint, outputMint, amountIn, minAmountOut, feeBps, legs) == Some(d)
    ensures |d| >= 94 && d[..8] == [229, 23, 203, 151, 122, 227, 173, 42]
    ensures d[8..40] == inputMint && d[40..72] == outputMint
    ensures WrittenAt(d, 72, 8, amountIn) && WrittenAt(d, 80, 8, minAmountOut) && WrittenAt(d, 88, 2, feeBps)
    ensures WrittenAt(d, 90, 4, |legs|)
  {
    Widths();
    var args := MachineArgs(inputMint, outputMint, amountIn, minAmountOut, feeBps, legs);
    var tail := LE(|legs|, 4) + EncodeLegs(args.legs);
    assert d == EncodeHead(args) + tail;
    HeadFields(ROUTE_DISCRIMINATOR, inputMint, outputMint, LE(amountIn, 8), LE(minAmountOut, 8), LE(feeBps, 2), tail);
    assert d[90..94] == LE(|legs|, 4) by { assert d[90..94] == d[90..][..4]; }
    SliceIsWritten(d, 72, 8, amountIn);
    SliceIsWritten(d, 80, 8, minAmountOut);
    SliceIsWritten(d, 88, 2, feeBps);
    SliceIsWritten(d, 90, 4, |legs|);
  }

  lemma {:induction false} LegStandsAt(inputMint: Pubkey, outputMint: Pubkey, amountIn: nat, minAmountOut: nat,
                                       feeBps: nat, legs: seq<PlannedLeg>, d: Bytes, i: nat)
    requires EncodeRouteData(inputMint, outputMint, amountIn, minAmountOut, feeBps, legs) == Some(d) && i < |legs|
    ensures LegStart(legs, i) <= |d| == LegStart(legs, |legs|)
    ensures d[LegStart(legs, i)..] == EncodeLeg(MachineLegs(legs)[i]) + EncodeLegs(MachineLegs(legs)[i + 1..])
  {
    var args := MachineArgs(inputMint, outputMint, amountIn, minAmountOut, feeBps, legs);
    EncodedLength(legs, i);
    EncodedLength(legs, |legs|);
    assert args.legs[..|legs|] == args.legs;
    EncodeSplit(args.legs, i);
    LegWithin(d, EncodeHead(args) + LE(|legs|, 4), EncodeLegs(args.legs[..i]), EncodeLeg(args.legs[i]),
              EncodeLegs(args.legs[i + 1..]), LegStart(legs, i));
  }

  lemma {:induction false} LegBytesAt(d: Bytes, leg: SwapLeg, rest: Bytes, at: nat)
    requires at <= |d| && d[at..] == EncodeLeg(leg) + rest
    ensures at + 9 + |leg.data| <= |d| && d[at] == leg.venue && d[at + 9..at + 9 + |leg.data|] == leg.data
    ensures WrittenAt(d, at + 1, 2, leg.accountOffset) && WrittenAt(d, at + 3, 2, leg.accountLen)
    ensures WrittenAt(d, at + 5, 4, |leg.data|)
  {
    LegFields([leg.venue], LE(leg.accountOffset, 2), LE(leg.accountLen, 2), LE(|leg.data|, 4), leg.data, rest);
    LegSlices(d, EncodeLeg(leg) + rest, at, |leg.data|);
    SliceIsWritten(d, at + 1, 2, leg.accountOffset);
    SliceIsWritten(d, at + 3, 2, leg.accountLen);
    SliceIsWritten(d, at + 5, 4, |leg.data|);
  }

  /** And each leg: the low byte of its venue, its range of accounts, and its data behind their length. */
  lemma {:induction false} LegBytes(inputMint: Pubkey, outputMint: Pubkey, amountIn: nat, minAmountOut: nat,
                                    feeBps: nat, legs: seq<PlannedLeg>, d: Bytes, i: nat, at: nat)
    requires EncodeRouteData(inputMint, outputMint, amountIn, minAmountOut, feeBps, legs) == Some(d)
    requires i < |legs| && at == LegStart(legs, i)
    ensures LegFits(legs[i]) && at + 9 + |legs[i].data| <= |d| == LegStart(legs, |legs|)
    ensures d[at] == legs[i].venue % 256 && d[at + 9..at + 9 + |legs[i].data|] == legs[i].data
    ensures WrittenAt(d, at + 1, 2, legs[i].accountOffset) && WrittenAt(d, at + 3, 2, legs[i].accountLen)
    ensures WrittenAt(d, at + 5, 4, |legs[i].data|)
  {
    LegStandsAt(inputMint, outputMint, amountIn, minAmountOut, feeBps, legs, d, i);
    LegBytesAt(d, MachineLegs(legs)[i], EncodeLegs(MachineLegs(legs)[i + 1..]), at);
  }

  lemma LegWithin(d: Bytes, head: Bytes, before: Bytes, leg: Bytes, rest: Bytes, at: nat)
    requires d == head + (before + (leg + rest)) && at == |head| + |before|
    ensures d[at..] == leg + rest
  {
  }

  lemma LegSlices(d: Bytes, e: Bytes, at: nat, n: nat)
    requires at <= |d| && d[at..] == e && 9 + n <= |e|
    ensures d[at] == e[0] && d[at + 1..at + 3] == e[1..3] && d[at + 3..at + 5] == e[3..5]
    ensures d[at + 5..at + 9] == e[5..9] && d[at + 9..at + 9 + n] == e[9..][..n]
  {
  }
}
