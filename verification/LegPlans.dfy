/** From a route to the router's arguments: one leg per hop, and the flattened account list the legs slice. */
module LegPlans {
  import opened Common
  import opened Wire
  import opened Venues
  import Pricing
  import opened Router
  import opened RouteGuarantees
  import opened RouterProgram

  /** One venue swap instruction before flattening. */
  datatype BuiltSwapIx = BuiltSwapIx(venue: int, programId: Pubkey, accounts: seq<AccountMeta>, data: Bytes)

  datatype RouterPlan = RouterPlan(amountIn: int, minAmountOut: int, legs: seq<PlannedLeg>, accounts: seq<AccountMeta>)

  /** A venue builder; None where it throws. */
  type VenueBuilder = RouteHop -> Option<BuiltSwapIx>

  function PoolVenue(dex: Pricing.DexId): Venue {
    match dex
    case RaydiumAmm => RaydiumAmmV4
    case RaydiumClmm => Venue.RaydiumClmm
    case RaydiumCpmm => Venue.RaydiumCpmm
    case MeteoraDlmm => Venue.MeteoraDlmm
    case MeteoraDynamic => Venue.MeteoraDynamic
    case PumpFun => Venue.PumpFun
    case PumpSwap => Venue.PumpSwap
  }

  function AllHops(steps: seq<RouteStep>): seq<RouteHop> {
    if steps == [] then [] else steps[0].hops + AllHops(steps[1..])
  }

  function BuildHop(hop: RouteHop, builders: map<Venue, VenueBuilder>): Option<BuiltSwapIx> {
    var venue := PoolVenue(hop.pool.dex);
    if venue in builders then builders[venue](hop) else None
  }

  /** The instructions of all hops, or None if one of them cannot be built. */
  function BuildAll(hops: seq<RouteHop>, builders: map<Venue, VenueBuilder>): Option<seq<BuiltSwapIx>> {
    if hops == [] then Some([])
    else
      match BuildHop(hops[0], builders)
      case None => None
      case Some(ix) =>
        match BuildAll(hops[1..], builders)
        case None => None
        case Some(rest) => Some([ix] + rest)
  }

  function FlatAccounts(ixs: seq<BuiltSwapIx>): seq<AccountMeta> {
    if ixs == [] then [] else FlatAccounts(ixs[..|ixs| - 1]) + ixs[|ixs| - 1].accounts
  }

  function LegAt(ixs: seq<BuiltSwapIx>, i: nat): PlannedLeg
    requires i < |ixs|
  {
    PlannedLeg(ixs[i].venue, |FlatAccounts(ixs[..i])|, |ixs[i].accounts|, ixs[i].data)
  }

  function Legs(ixs: seq<BuiltSwapIx>): (legs: seq<PlannedLeg>)
    ensures |legs| == |ixs| && forall i :: 0 <= i < |ixs| ==> legs[i] == LegAt(ixs, i)
  {
    seq(|ixs|, i requires 0 <= i < |ixs| => LegAt(ixs, i))
  }

  function ProgramMeta(id: Pubkey): AccountMeta {
    AccountMeta(id, false, false)
  }

  /** The distinct programs, in order of first use: a JavaScript Map keeps insertion order. */
  function Programs(ixs: seq<BuiltSwapIx>): seq<AccountMeta> {
    if ixs == [] then []
    else
      var before := Programs(ixs[..|ixs| - 1]);
      var meta := ProgramMeta(ixs[|ixs| - 1].programId);
      if meta in before then before else before + [meta]
  }

  function PlanOf(amountIn: int, minAmountOut: int, ixs: seq<BuiltSwapIx>): RouterPlan {
    RouterPlan(amountIn, minAmountOut, Legs(ixs), FlatAccounts(ixs) + Programs(ixs))
  }

  /** What the three growing lists hold once `built` has been packed. */
  ghost predicate Packed(built: seq<BuiltSwapIx>, legs: seq<PlannedLeg>, accounts: seq<AccountMeta>,
                         programs: seq<AccountMeta>)
  {
    legs == Legs(built) && accounts == FlatAccounts(built) && programs == Programs(built)
  }

  /** The inner loop: pack the hops of one step behind what is already packed. */
  method PackHops(hops: seq<RouteHop>, builders: map<Venue, VenueBuilder>, ghost before: seq<BuiltSwapIx>,
                  legs0: seq<PlannedLeg>, accounts0: seq<AccountMeta>, programs0: seq<AccountMeta>)
    returns (ok: bool, legs: seq<PlannedLeg>, accounts: seq<AccountMeta>, programAccounts: seq<AccountMeta>)
    requires Packed(before, legs0, accounts0, programs0)
    ensures ok == BuildAll(hops, builders).Some?
    ensures ok ==> Packed(before + BuildAll(hops, builders).value, legs, accounts, programAccounts)
  {
    legs, accounts, programAccounts := legs0, accounts0, programs0;
    ghost var built := before;
    assert hops[0..] == hops;
    for h := 0 to |hops|
      invariant Packed(built, legs, accounts, programAccounts)
      invariant Prepend(before, BuildAll(hops, builders)) == Prepend(built, BuildAll(hops[h..], builders))
    {
      assert hops[h..][0] == hops[h] && hops[h..][1..] == hops[h + 1..];
      var venue := PoolVenue(hops[h].pool.dex);
      if venue !in builders {
        return false, legs, accounts, programAccounts;
      }
      var ix := builders[venue](hops[h]);
      if ix.None? {
        return false, legs, accounts, programAccounts;
      }
      PrependNext(built, ix.value, BuildAll(hops[h + 1..], builders));
      AppendIx(built, ix.value, legs, accounts, programAccounts);
      var accountOffset := |accounts|;
      accounts := accounts + ix.value.accounts;
      legs := legs + [PlannedLeg(ix.value.venue, accountOffset, |ix.value.accounts|, ix.value.data)];
      if ProgramMeta(ix.value.programId) !in programAccounts {
        programAccounts := programAccounts + [ProgramMeta(ix.value.programId)];
      }
      built := built + [ix.value];
    }
    assert built + [] == built;
    ok := true;
  }

  /** `buildRouterPlan`; None where a builder is missing or throws. */
  method BuildRouterPlan(route: Route, builders: map<Venue, VenueBuilder>, minAmountOut: int)
    returns (plan: Option<RouterPlan>)
    ensures plan.Some? <==> BuildAll(AllHops(route.steps), builders).Some?
    ensures plan.Some? ==>
              plan.value == PlanOf(route.amountIn, minAmountOut, BuildAll(AllHops(route.steps), builders).value)
    ensures plan.Some? ==> plan.value.amountIn == route.amountIn && plan.value.minAmountOut == minAmountOut
  {
    var legs: seq<PlannedLeg> := [];
    var accounts: seq<AccountMeta> := [];
    var programAccounts: seq<AccountMeta> := [];
    ghost var built: seq<BuiltSwapIx> := [];
    ghost var all := BuildAll(AllHops(route.steps), builders);
    PrependNothing(all);
    assert route.steps[0..] == route.steps;
    for s := 0 to |route.steps|
      invariant Packed(built, legs, accounts, programAccounts)
      invariant all == Prepend(built, BuildAll(AllHops(route.steps[s..]), builders))
    {
      BuildAllStep(built, route.steps, s, builders);
      var hops := route.steps[s].hops;
      var ok;
      ok, legs, accounts, programAccounts := PackHops(hops, builders, built, legs, accounts, programAccounts);
      if !ok {
        return None;
      }
      built := built + BuildAll(hops, builders).value;
    }
    assert route.steps[|route.steps|..] == [];
    assert all == Some(built) by { assert built + [] == built; }
    plan := Some(RouterPlan(route.amountIn, minAmountOut, legs, accounts + programAccounts));
  }

  lemma {:induction false} BuildAllStep(built: seq<BuiltSwapIx>, steps: seq<RouteStep>, s: nat,
                                        builders: map<Venue, VenueBuilder>)
    requires s < |steps|
    ensures Prepend(built, BuildAll(AllHops(steps[s..]), builders))
         == match BuildAll(steps[s].hops, builders)
            case None => None
            case Some(ixs) => Prepend(built + ixs, BuildAll(AllHops(steps[s + 1..]), builders))
  {
    BuildAllConcat(built, steps[s].hops, AllHops(steps[s + 1..]), builders);
  }

  lemma {:induction false} BuildAllConcat(built: seq<BuiltSwapIx>, hops: seq<RouteHop>, later: seq<RouteHop>,
                                          builders: map<Venue, VenueBuilder>)
    ensures Prepend(built, BuildAll(hops + later, builders))
         == match BuildAll(hops, builders)
            case None => None
            case Some(ixs) => Prepend(built + ixs, BuildAll(later, builders))
    decreases |hops|
  {
    if hops == [] {
      assert hops + later == later && built + [] == built;
    } else {
      assert (hops + later)[0] == hops[0] && (hops + later)[1..] == hops[1..] + later;
      match BuildHop(hops[0], builders)
      case None =>
      case Some(ix) =>
        PrependNext(built, ix, BuildAll(hops[1..] + later, builders));
        BuildAllConcat(built + [ix], hops[1..], later, builders);
        if BuildAll(hops[1..], builders).Some? {
          assert built + [ix] + BuildAll(hops[1..], builders).value
              == built + ([ix] + BuildAll(hops[1..], builders).value);
        }
    }
  }

  function Prepend(built: seq<BuiltSwapIx>, rest: Option<seq<BuiltSwapIx>>): Option<seq<BuiltSwapIx>> {
    match rest
    case None => None
    case Some(ixs) => Some(built + ixs)
  }

  lemma PrependNothing(rest: Option<seq<BuiltSwapIx>>)
    ensures Prepend([], rest) == rest
  {
    if rest.Some? {
      assert [] + rest.value == rest.value;
    }
  }

  lemma PrependNext(built: seq<BuiltSwapIx>, ix: BuiltSwapIx, rest: Option<seq<BuiltSwapIx>>)
    ensures Prepend(built, Prepend([ix], rest)) == Prepend(built + [ix], rest)
  {
    if rest.Some? {
      assert built + ([ix] + rest.value) == built + [ix] + rest.value;
    }
  }

  lemma AppendIx(built: seq<BuiltSwapIx>, ix: BuiltSwapIx, legs: seq<PlannedLeg>, accounts: seq<AccountMeta>,
                 programs: seq<AccountMeta>)
    requires Packed(built, legs, accounts, programs)
    ensures Packed(built + [ix], legs + [PlannedLeg(ix.venue, |accounts|, |ix.accounts|, ix.data)],
                   accounts + ix.accounts,
                   if ProgramMeta(ix.programId) in programs then programs else programs + [ProgramMeta(ix.programId)])
  {
    var more := built + [ix];
    forall i | 0 <= i < |built| ensures Legs(more)[i] == Legs(built)[i] {
      assert more[..i] == built[..i];
    }
  }

  // ---------------------------------------------------------------- packing and slicing are inverse

  lemma {:induction false} FlatPrefix(ixs: seq<BuiltSwapIx>, i: nat)
    requires i <= |ixs|
    ensures FlatAccounts(ixs[..i]) <= FlatAccounts(ixs)
    decreases |ixs|
  {
    if i == |ixs| {
      assert ixs[..i] == ixs;
    } else {
      var shorter := ixs[..|ixs| - 1];
      FlatPrefix(shorter, i);
      assert shorter[..i] == ixs[..i];
    }
  }

  /** Leg `i` starts where leg `i - 1` ends, and its slice is exactly the accounts its builder gave. */
  lemma {:induction false} SliceRecovers(amountIn: int, minAmountOut: int, ixs: seq<BuiltSwapIx>, i: nat)
    requires i < |ixs|
    ensures var p := PlanOf(amountIn, minAmountOut, ixs);
            var leg := p.legs[i];
            && leg.venue == ixs[i].venue && leg.data == ixs[i].data
            && leg.accountOffset == (if i == 0 then 0 else p.legs[i - 1].accountOffset + p.legs[i - 1].accountLen)
            && 0 <= leg.accountLen && leg.accountOffset + leg.accountLen <= |FlatAccounts(ixs)|
            && p.accounts[leg.accountOffset..leg.accountOffset + leg.accountLen] == ixs[i].accounts
  {
    FlatPrefix(ixs, i + 1);
    assert ixs[..i + 1][..i] == ixs[..i];
    var all := FlatAccounts(ixs) + Programs(ixs);
    var end := |FlatAccounts(ixs[..i + 1])|;
    assert FlatAccounts(ixs[..i + 1]) == FlatAccounts(ixs[..i]) + ixs[i].accounts;
    assert all[..end] == FlatAccounts(ixs[..i + 1]);
    if i > 0 {
      assert ixs[..i][..i - 1] == ixs[..i - 1];
    }
  }

  /** The legs cover the packed accounts completely. */
  lemma {:induction false} LegsTile(ixs: seq<BuiltSwapIx>)
    requires ixs != []
    ensures var last := Legs(ixs)[|ixs| - 1];
            last.accountOffset + last.accountLen == |FlatAccounts(ixs)|
  {
  }

  /** A plain account: the program is neither a signer nor written to. */
  predicate Plain(m: AccountMeta, id: Pubkey) {
    m.pubkey == id && !m.isSigner && !m.isWritable
  }

  /** The program list names each venue program once, and nothing else. */
  lemma {:induction false} ProgramsOnce(ixs: seq<BuiltSwapIx>)
    ensures forall m :: m in Programs(ixs) <==> exists i :: 0 <= i < |ixs| && Plain(m, ixs[i].programId)
    ensures forall i, j :: 0 <= i < j < |Programs(ixs)| ==> Programs(ixs)[i] != Programs(ixs)[j]
  {
    if ixs != [] {
      var last := |ixs| - 1;
      ProgramsOnce(ixs[..last]);
      forall m | m in Programs(ixs) ensures exists i :: 0 <= i < |ixs| && Plain(m, ixs[i].programId) {
        if m in Programs(ixs[..last]) {
          var i :| 0 <= i < last && Plain(m, ixs[..last][i].programId);
        } else {
          assert Plain(m, ixs[last].programId);
        }
      }
      forall m, i | 0 <= i < |ixs| && Plain(m, ixs[i].programId) ensures m in Programs(ixs) {
        assert m == ProgramMeta(ixs[i].programId);
        if i < last {
          assert Plain(m, ixs[..last][i].programId);
        }
      }
    }
  }

  /** Instructions that come later only add programs behind the ones that are there. */
  lemma {:induction false} ProgramsInOrder(ixs: seq<BuiltSwapIx>, n: nat)
    requires n <= |ixs|
    ensures Programs(ixs[..n]) <= Programs(ixs)
    decreases |ixs|
  {
    if n == |ixs| {
      assert ixs[..n] == ixs;
    } else {
      var shorter := ixs[..|ixs| - 1];
      ProgramsInOrder(shorter, n);
      assert shorter[..n] == ixs[..n];
    }
  }

  /** Behind the last leg, the plan's account list has the venue programs, each once, in order of their first use. */
  lemma {:induction false} TailListsPrograms(amountIn: int, minAmountOut: int, ixs: seq<BuiltSwapIx>, n: nat)
    requires ixs != [] && n <= |ixs|
    ensures var p := PlanOf(amountIn, minAmountOut, ixs);
            var end := p.legs[|ixs| - 1].accountOffset + p.legs[|ixs| - 1].accountLen;
            && 0 <= end <= |p.accounts| && p.accounts[end..] == Programs(ixs)
            && (forall m :: m in p.accounts[end..] <==> exists i :: 0 <= i < |ixs| && Plain(m, ixs[i].programId))
            && (forall i, j :: end <= i < j < |p.accounts| ==> p.accounts[i] != p.accounts[j])
            && Programs(ixs[..n]) <= p.accounts[end..]
  {
    ProgramsOnce(ixs);
    ProgramsInOrder(ixs, n);
    LegsTile(ixs);
    SuffixOf(FlatAccounts(ixs), Programs(ixs));
  }

  lemma SuffixOf(a: seq<AccountMeta>, b: seq<AccountMeta>)
    requires forall i, j :: 0 <= i < j < |b| ==> b[i] != b[j]
    ensures (a + b)[|a|..] == b
    ensures forall i, j :: |a| <= i < j < |a + b| ==> (a + b)[i] != (a + b)[j]
  {
    forall i, j | |a| <= i < j < |a + b| ensures (a + b)[i] != (a + b)[j] {
      assert (a + b)[i] == b[i - |a|] && (a + b)[j] == b[j - |a|];
    }
  }

  // ---------------------------------------------------------------- from hops to instructions

  /** The hops stand in the order of the steps, and within a step in its own order. */
  lemma {:induction false} HopsInOrder(steps: seq<RouteStep>, s: nat)
    requires s < |steps|
    ensures AllHops([]) == []
    ensures AllHops(steps) == AllHops(steps[..s]) + steps[s].hops + AllHops(steps[s + 1..])
  {
    if s == 0 {
      assert steps[..0] == [];
    } else {
      HopsInOrder(steps[1..], s - 1);
      assert steps[1..][..s - 1] == steps[..s][1..] && steps[1..][s..] == steps[s + 1..];
    }
  }

  /** All hops are built if and only if each is, by the builder of its own venue; the instructions keep their order. */
  lemma {:induction false} BuildsEachHop(hops: seq<RouteHop>, builders: map<Venue, VenueBuilder>)
    ensures BuildAll(hops, builders).Some? <==> forall i :: 0 <= i < |hops| ==> BuildHop(hops[i], builders).Some?
    ensures BuildAll(hops, builders).Some? ==>
              var ixs := BuildAll(hops, builders).value;
              |ixs| == |hops| && forall i :: 0 <= i < |hops| ==> BuildHop(hops[i], builders) == Some(ixs[i])
  {
    if hops != [] {
      BuildsEachHop(hops[1..], builders);
      if forall i :: 0 <= i < |hops| ==> BuildHop(hops[i], builders).Some? {
        forall i | 0 <= i < |hops| - 1 ensures BuildHop(hops[1..][i], builders).Some? {
          assert BuildHop(hops[i + 1], builders).Some?;
        }
      } else if BuildAll(hops, builders).Some? {
        forall i | 0 <= i < |hops| ensures BuildHop(hops[i], builders).Some? {
          assert i == 0 || hops[i] == hops[1..][i - 1];
        }
      }
    }
  }

  lemma {:induction false} HopsCounted(steps: seq<RouteStep>)
    ensures |AllHops(steps)| == HopCount(steps)
  {
    if steps != [] {
      HopsCounted(steps[1..]);
    }
  }

  /** With the default options every plan has between one and six legs, within the router's limit of eight. */
  lemma {:induction false} DefaultPlansFit(q: Pricing.Quoter, pools: seq<Pricing.Pool>, a: Pricing.Mint,
                                           b: Pricing.Mint, amountIn: int, r: Route, builders: map<Venue, VenueBuilder>)
    requires Pricing.ZeroAtZero(q) && IsRoute(q, pools, a, b, amountIn, DEFAULTS, r)
    requires BuildAll(AllHops(r.steps), builders).Some?
    ensures 1 <= |Legs(BuildAll(AllHops(r.steps), builders).value)| <= 6 < MAX_LEGS
  {
    DefaultRoutesAreShort(q, pools, a, b, amountIn, r);
    HopsCounted(r.steps);
    BuildsEachHop(AllHops(r.steps), builders);
  }

  /** Machine integers change nothing about a leg that fits them. */
  lemma LegOnChain(amountIn: int, minAmountOut: int, ixs: seq<BuiltSwapIx>, i: nat)
    requires i < |ixs| && 0 <= ixs[i].venue < 0x100 && LegFits(Legs(ixs)[i])
    ensures var leg, accounts := MachineLeg(Legs(ixs)[i]), PlanOf(amountIn, minAmountOut, ixs).accounts;
            && leg.venue == ixs[i].venue && leg.data == ixs[i].data
            && leg.accountOffset + leg.accountLen <= |accounts|
            && Slice(leg, accounts) == ixs[i].accounts
  {
    SliceRecovers(amountIn, minAmountOut, ixs, i);
  }

  /** The plan's own bytes: `encodeRouteData` on its amounts and legs. */
  function EncodePlan(p: RouterPlan, inputMint: Pubkey, outputMint: Pubkey, feeBps: int): Option<Bytes> {
    EncodeRouteData(inputMint, outputMint, p.amountIn, p.minAmountOut, feeBps, p.legs)
  }

  /**
   * From the planner to the router: the session accepts the plan's bytes for its mints and amount, the router
   * decodes them to the amounts of the route and one leg per instruction, and each leg's slice of the plan's
   * account list is exactly what its builder asked for.
   */
  lemma PlanReachesRouter(inputMint: Pubkey, outputMint: Pubkey, amountIn: u64, minAmountOut: int, feeBps: int,
                          ixs: seq<BuiltSwapIx>, p: RouterPlan, d: Bytes)
    requires forall i :: 0 <= i < |ixs| ==> 0 <= ixs[i].venue < 0x100
    requires p == PlanOf(amountIn, minAmountOut, ixs) && EncodePlan(p, inputMint, outputMint, feeBps) == Some(d)
    ensures HeaderOk(d, inputMint, outputMint, amountIn) && DecodeRoute(d).Some?
    ensures var args := DecodeRoute(d).value.0;
            && args.inputMint == inputMint && args.outputMint == outputMint
            && args.amountIn == amountIn && args.minAmountOut == minAmountOut && args.integratorFeeBps == feeBps
            && LegsAsBuilt(args.legs, p.accounts, ixs)
  {
    DecodeOfPlan(inputMint, outputMint, amountIn, minAmountOut, feeBps, Legs(ixs));
    EncodedPlanPassesHeader(inputMint, outputMint, amountIn, minAmountOut, feeBps, Legs(ixs));
    forall i | 0 <= i < |ixs| ensures LegAsBuilt(MachineLegs(Legs(ixs))[i], p.accounts, ixs[i]) {
      LegOnChain(amountIn, minAmountOut, ixs, i);
    }
  }

  ghost predicate LegAsBuilt(leg: SwapLeg, accounts: seq<AccountMeta>, ix: BuiltSwapIx) {
    && leg.venue == ix.venue && leg.data == ix.data
    && leg.accountOffset + leg.accountLen <= |accounts| && Slice(leg, accounts) == ix.accounts
  }

  ghost predicate LegsAsBuilt(legs: seq<SwapLeg>, accounts: seq<AccountMeta>, ixs: seq<BuiltSwapIx>) {
    |legs| == |ixs| && forall i :: 0 <= i < |ixs| ==> LegAsBuilt(legs[i], accounts, ixs[i])
  }
}
