/** From the planner's instructions to the calls of the venues: what a plan makes the router do. */
module PlanExecution {
  import opened Common
  import opened Arithmetic
  import opened Wire
  import opened Venues
  import Pricing
  import opened Router
  import opened RouterProgram
  import opened RouterGuarantees
  import opened LegPlans

  // ---------------------------------------------------------------- which instructions may be sent

  /** The program behind a venue number. */
  function Registered(venue: int): Option<Pubkey> {
    if venue == 0 then Some(RAYDIUM_AMM_V4)
    else if venue == 1 then Some(RAYDIUM_CLMM)
    else if venue == 2 then Some(RAYDIUM_CPMM)
    else if venue == 3 then Some(METEORA_DLMM)
    else if venue == 4 then Some(METEORA_DYNAMIC)
    else if venue == 5 then Some(PUMP_FUN)
    else if venue == 6 then Some(PUMP_SWAP)
    else None
  }

  /** What the data of its swap instructions starts with. */
  function SwapTags(venue: int): set<Bytes> {
    if venue == 0 then {[9], [11]}
    else if venue == 1 then {ANCHOR_SWAP, CLMM_SWAP_V2}
    else if venue == 2 then {CPMM_SWAP_BASE_IN, CPMM_SWAP_BASE_OUT}
    else if venue == 3 then {ANCHOR_SWAP, DLMM_SWAP2}
    else if venue == 4 then {ANCHOR_SWAP}
    else if venue == 5 || venue == 6 then {PUMP_BUY, PUMP_SELL}
    else {}
  }

  predicate Tagged(data: Bytes, tags: set<Bytes>) {
    exists tag :: tag in tags && tag <= data
  }

  predicate Sendable(venue: int, data: Bytes) {
    Registered(venue).Some? && Tagged(data, SwapTags(venue))
  }

  lemma StartsWithTag(data: Bytes, tags: set<Bytes>)
    requires forall tag :: tag in tags ==> |tag| == 8
    ensures StartsWith(data, tags) <==> Tagged(data, tags)
  {
    if StartsWith(data, tags) {
      assert data[..8] <= data;
    }
    forall tag | tag in tags && tag <= data ensures StartsWith(data, tags) {
      assert data[..8] == tag;
    }
  }

  lemma OneByteTags(data: Bytes)
    ensures data != [] && (data[0] == 9 || data[0] == 11) <==> Tagged(data, {[9], [11]})
  {
    if data != [] && (data[0] == 9 || data[0] == 11) {
      assert [data[0]] in {[9], [11]} && [data[0]] <= data;
    }
  }

  lemma AllowedIffTagged(venue: u8, data: Bytes)
    requires FromU8(venue).Some? && venue < 7
    ensures IsAllowedSwapIx(FromU8(venue).value, data) <==> Tagged(data, SwapTags(venue))
  {
    if venue == 0 {
      OneByteTags(data);
    } else {
      StartsWithTag(data, SwapTags(venue));
    }
  }

  /** The router's allowlist admits exactly the tagged data of a registered venue, inside the account list. */
  lemma AllowedIffSendable(leg: SwapLeg, infos: seq<AccountMeta>)
    ensures LegAllowed(leg, infos) <==> Sendable(leg.venue, leg.data) && leg.accountOffset + leg.accountLen <= |infos|
    ensures LegAllowed(leg, infos) ==> ProgramId(FromU8(leg.venue).value) == Registered(leg.venue)
  {
    if leg.venue < 7 {
      AllowedIffTagged(leg.venue, leg.data);
    }
  }

  // ---------------------------------------------------------------- legs

  /** The call of one leg: the registered program, the leg's own accounts, and its data. */
  ghost predicate Calls(before: Ledger, leg: SwapLeg, infos: seq<AccountMeta>, call: VenueCall, after: Ledger) {
    && Sendable(leg.venue, leg.data) && leg.accountOffset + leg.accountLen <= |infos|
    && call(before, Registered(leg.venue).value, infos[leg.accountOffset..leg.accountOffset + leg.accountLen], leg.data)
       == Some(after)
  }

  /** The ledgers between the calls, one call per leg, in order. */
  ghost predicate IsTrace(ls: seq<Ledger>, legs: seq<SwapLeg>, infos: seq<AccountMeta>, call: VenueCall) {
    |ls| == |legs| + 1 && forall i :: 0 <= i < |legs| ==> Calls(ls[i], legs[i], infos, call, ls[i + 1])
  }

  lemma {:induction false} TraceOfRun(l: Ledger, legs: seq<SwapLeg>, infos: seq<AccountMeta>, call: VenueCall)
    returns (ls: seq<Ledger>)
    requires RunLegs(l, legs, infos, call).Some?
    ensures IsTrace(ls, legs, infos, call) && ls[0] == l && RunLegs(l, legs, infos, call) == Some(ls[|legs|])
    decreases |legs|
  {
    if legs == [] {
      ls := [l];
    } else {
      AllowedIffSendable(legs[0], infos);
      var rest := TraceOfRun(RunLeg(l, legs[0], infos, call).value, legs[1..], infos, call);
      ls := [l] + rest;
      forall i | 0 <= i < |legs| ensures Calls(ls[i], legs[i], infos, call, ls[i + 1]) {
        if i > 0 {
          assert Calls(rest[i - 1], legs[1..][i - 1], infos, call, rest[i]);
        }
      }
    }
  }

  lemma {:induction false} RunOfTrace(ls: seq<Ledger>, legs: seq<SwapLeg>, infos: seq<AccountMeta>, call: VenueCall)
    requires IsTrace(ls, legs, infos, call)
    ensures RunLegs(ls[0], legs, infos, call) == Some(ls[|legs|])
    decreases |legs|
  {
    if legs != [] {
      AllowedIffSendable(legs[0], infos);
      assert Calls(ls[0], legs[0], infos, call, ls[1]);
      forall i | 0 <= i < |legs| - 1 ensures Calls(ls[1..][i], legs[1..][i], infos, call, ls[1..][i + 1]) {
        assert Calls(ls[i + 1], legs[i + 1], infos, call, ls[i + 2]);
      }
      RunOfTrace(ls[1..], legs[1..], infos, call);
    }
  }

  /** The legs run to `after` if and only if each of them, in order, is called as it says. */
  lemma {:induction false} LegsRunIff(l: Ledger, legs: seq<SwapLeg>, infos: seq<AccountMeta>, call: VenueCall,
                                      after: Ledger)
    ensures RunLegs(l, legs, infos, call) == Some(after)
       <==> exists ls :: IsTrace(ls, legs, infos, call) && ls[0] == l && ls[|legs|] == after
  {
    if RunLegs(l, legs, infos, call) == Some(after) {
      var ls := TraceOfRun(l, legs, infos, call);
    }
    forall ls | IsTrace(ls, legs, infos, call) && ls[0] == l && ls[|legs|] == after
      ensures RunLegs(l, legs, infos, call) == Some(after)
    {
      RunOfTrace(ls, legs, infos, call);
    }
  }

  // ---------------------------------------------------------------- plans

  /** The instructions as their builders made them, called one after the other. */
  function RunInstructions(l: Ledger, ixs: seq<BuiltSwapIx>, call: VenueCall): Option<Ledger>
    decreases |ixs|
  {
    if ixs == [] then Some(l)
    else if !Sendable(ixs[0].venue, ixs[0].data) then None
    else
      match call(l, Registered(ixs[0].venue).value, ixs[0].accounts, ixs[0].data)
      case None => None
      case Some(l') => RunInstructions(l', ixs[1..], call)
  }

  lemma {:induction false} InstructionsAreCalled(l: Ledger, legs: seq<SwapLeg>, accounts: seq<AccountMeta>,
                                                 ixs: seq<BuiltSwapIx>, call: VenueCall)
    requires LegsAsBuilt(legs, accounts, ixs)
    ensures RunLegs(l, legs, accounts, call) == RunInstructions(l, ixs, call)
    decreases |ixs|
  {
    if ixs != [] {
      AllowedIffSendable(legs[0], accounts);
      assert LegAsBuilt(legs[0], accounts, ixs[0]);
      if RunLeg(l, legs[0], accounts, call).Some? {
        forall i | 0 <= i < |ixs| - 1 ensures LegAsBuilt(legs[1..][i], accounts, ixs[1..][i]) {
          assert LegAsBuilt(legs[i + 1], accounts, ixs[i + 1]);
        }
        InstructionsAreCalled(RunLeg(l, legs[0], accounts, call).value, legs[1..], accounts, ixs[1..], call);
      }
    }
  }

  /** The number that a venue has on the wire. */
  function VenueNumber(venue: Venue): int {
    match venue
    case RaydiumAmmV4 => 0
    case RaydiumClmm => 1
    case RaydiumCpmm => 2
    case MeteoraDlmm => 3
    case MeteoraDynamic => 4
    case PumpFun => 5
    case PumpSwap => 6
    case Kamino => 7
  }

  /** The program that runs the pools of a DEX. */
  function DexProgram(dex: Pricing.DexId): Pubkey {
    match dex
    case RaydiumAmm => RAYDIUM_AMM_V4
    case RaydiumClmm => RAYDIUM_CLMM
    case RaydiumCpmm => RAYDIUM_CPMM
    case MeteoraDlmm => METEORA_DLMM
    case MeteoraDynamic => METEORA_DYNAMIC
    case PumpFun => PUMP_FUN
    case PumpSwap => PUMP_SWAP
  }

  /** Every builder makes instructions for the venue it is registered under. */
  ghost predicate BuildForTheirVenue(builders: map<Venue, VenueBuilder>) {
    forall v, hop :: v in builders && builders[v](hop).Some? ==> builders[v](hop).value.venue == VenueNumber(v)
  }

  /** The instruction of each hop goes to the program of the DEX whose pool the hop trades with. */
  lemma {:induction false} HopsReachTheirDex(hops: seq<RouteHop>, builders: map<Venue, VenueBuilder>,
                                             ixs: seq<BuiltSwapIx>, i: nat)
    requires BuildAll(hops, builders) == Some(ixs) && BuildForTheirVenue(builders) && i < |hops|
    ensures |ixs| == |hops| && Registered(ixs[i].venue) == Some(DexProgram(hops[i].pool.dex))
    ensures exists v :: v in builders && builders[v](hops[i]) == Some(ixs[i])
  {
    BuildsEachHop(hops, builders);
    assert BuildHop(hops[i], builders) == Some(ixs[i]);
    var v := PoolVenue(hops[i].pool.dex);
    assert v in builders && builders[v](hops[i]) == Some(ixs[i]);
  }

  /**
   * Encoded, decoded and sliced, a plan makes the router call its instructions in order, each at the program of
   * its venue, with exactly the accounts and the data its builder gave.
   */
  lemma {:induction false} PlanIsExecuted(inputMint: Pubkey, outputMint: Pubkey, amountIn: u64, minAmountOut: int,
                                          feeBps: int, ixs: seq<BuiltSwapIx>, p: RouterPlan, d: Bytes, l: Ledger,
                                          call: VenueCall)
    requires forall i :: 0 <= i < |ixs| ==> 0 <= ixs[i].venue < 0x100
    requires p == PlanOf(amountIn, minAmountOut, ixs) && EncodePlan(p, inputMint, outputMint, feeBps) == Some(d)
    ensures DecodeRoute(d).Some?
    ensures RunLegs(l, DecodeRoute(d).value.0.legs, p.accounts, call) == RunInstructions(l, ixs, call)
  {
    PlanReachesRouter(inputMint, outputMint, amountIn, minAmountOut, feeBps, ixs, p, d);
    InstructionsAreCalled(l, DecodeRoute(d).value.0.legs, p.accounts, ixs, call);
  }

  /**
   * From the quote to the balances: if the route that a plan stands for succeeds, its venues saw exactly the plan's
   * instructions, the output account has gained at least the quote less the slippage, rounded down, and the input
   * account has lost at most the amount of the route.
   */
  lemma {:induction false} PlannedRouteDelivers(inputMint: Pubkey, outputMint: Pubkey, amountIn: u64, quoted: nat,
                                                slippageBps: int, feeBps: int, ixs: seq<BuiltSwapIx>, p: RouterPlan,
                                                d: Bytes, l: Ledger, c: RouteAccounts, call: VenueCall, o: Outcome)
    requires forall i :: 0 <= i < |ixs| ==> 0 <= ixs[i].venue < 0x100
    requires slippageBps <= 10_000 && p == PlanOf(amountIn, MinAmountOut(quoted, slippageBps), ixs)
    requires EncodePlan(p, inputMint, outputMint, feeBps) == Some(d) && c.remaining == p.accounts
    requires DecodeRoute(d).Some? && RouteResult(l, c, DecodeRoute(d).value.0, call) == Some(o)
    ensures RunInstructions(l, ixs, call) == Some(o.swapped)
    ensures (Balance(o.final, c.output) - Balance(l, c.output) + 1) * 10_000 > quoted * (10_000 - slippageBps)
    ensures Balance(l, c.input) - Balance(o.final, c.input) <= amountIn
  {
    var minAmountOut, args := MinAmountOut(quoted, slippageBps), DecodeRoute(d).value.0;
    PlanReachesRouter(inputMint, outputMint, amountIn, minAmountOut, feeBps, ixs, p, d);
    PlanIsExecuted(inputMint, outputMint, amountIn, minAmountOut, feeBps, ixs, p, d, l, call);
    RouteIsSafe(l, c, args, call);
    RouteRanLegs(l, c, args, call, o);
    MinimumWithinSlippage(quoted, slippageBps, minAmountOut + 1);
  }

  lemma {:induction false} RouteRanLegs(l: Ledger, c: RouteAccounts, a: RouteArgs, call: VenueCall, o: Outcome)
    requires RouteResult(l, c, a, call) == Some(o)
    ensures RunLegs(l, a.legs, c.remaining, call) == Some(o.swapped)
  {
    RouteFields(l, c, a, call);
    SettleFields(l, o.swapped, c, a);
  }
}
