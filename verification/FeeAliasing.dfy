/** Which accounts and arguments can make a fee come back to the account it is charged to. */
module FeeAliasing {
  import opened Common
  import opened Arithmetic
  import opened Wire
  import opened Venues
  import opened RouterProgram
  import opened RouterGuarantees
  import opened SwapExample

  /** If the route succeeds, the user's net is what was received less both fees. */
  ghost predicate NetIsExact(l: Ledger, c: RouteAccounts, a: RouteArgs, call: VenueCall) {
    var r := RouteResult(l, c, a, call);
    r.Some? ==> r.value.netOut == r.value.received - r.value.protocolFee - r.value.integratorFee
  }

  /** What the instruction itself shows before anything runs. */
  predicate Runnable(c: RouteAccounts, a: RouteArgs) {
    && a.legs != [] && |a.legs| <= MAX_LEGS && 0 < a.amountIn && a.integratorFeeBps <= MAX_INTEGRATOR_FEE_BPS
    && c.outputMintAccount == a.outputMint && c.tokenProgram in {TOKEN_PROGRAM, TOKEN_2022_PROGRAM}
    && forall i :: 0 <= i < |a.legs| ==> LegAllowed(a.legs[i], c.remaining)
  }

  /** Of two fees, what does not come back. */
  function Leaving(c: RouteAccounts, p: int, i: int): int {
    (if c.protocolFee == c.output then 0 else p) + (if c.integratorFee == c.output then 0 else i)
  }

  /** A received amount whose fees `p` and `i` can be charged, come back in part, and leave the minimum. */
  predicate ComesBack(c: RouteAccounts, a: RouteArgs, received: int, p: int, i: int) {
    && c.input != c.output && c.output != c.outputMintAccount
    && (p > 0 ==> c.protocolFee != c.outputMintAccount
                  && (c.protocolFee == c.output ==> c.authority == PROTOCOL_FEE_RECIPIENT))
    && (i > 0 ==> c.integratorFee != c.outputMintAccount)
    && ((p > 0 && c.protocolFee == c.output) || (i > 0 && c.integratorFee == c.output))
    && received - Leaving(c, p, i) >= a.minAmountOut
  }

  predicate ComesBackAt(c: RouteAccounts, a: RouteArgs, received: u64) {
    ComesBack(c, a, received, FeeAmount(received, PROTOCOL_FEE_BPS), FeeAmount(received, a.integratorFeeBps))
  }

  // ---------------------------------------------------------------- whatever breaks the rule is such an amount

  lemma ChargeNeedsMint(l: Ledger, tp: Pubkey, source: Pubkey, mint: Pubkey, dest: Pubkey, authority: Pubkey,
                        amount: u64, decimals: byte)
    requires TransferChecked(l, tp, source, mint, dest, authority, amount, decimals).Some?
    ensures mint !in {source, dest} && ReadTokenOwner(l, source) == Some(authority)
  {
  }

  lemma SkimNeeds(l: Ledger, c: RouteAccounts, p: u64, i: u64)
    requires ReadMintDecimals(l, c.outputMintAccount).Some? && Skim(l, c, p, i).Some?
    ensures p > 0 ==> c.outputMintAccount !in {c.output, c.protocolFee}
                      && (c.protocolFee == c.output ==> c.authority == PROTOCOL_FEE_RECIPIENT)
    ensures i > 0 ==> c.outputMintAccount !in {c.output, c.integratorFee}
  {
    var decimals := ReadMintDecimals(l, c.outputMintAccount).value;
    if p > 0 {
      ChargeNeedsMint(l, c.tokenProgram, c.output, c.outputMintAccount, c.protocolFee, c.authority, p, decimals);
    }
    if i > 0 {
      ChargeNeedsMint(SkimProtocol(l, c, p).value, c.tokenProgram, c.output, c.outputMintAccount, c.integratorFee,
                      c.authority, i, decimals);
    }
  }

  lemma NetIsWhatStays(l: Ledger, c: RouteAccounts, a: RouteArgs, call: VenueCall)
    requires RouteResult(l, c, a, call).Some?
    ensures var o := RouteResult(l, c, a, call).value;
            o.netOut == o.received - Leaving(c, o.protocolFee, o.integratorFee)
  {
    var o := RouteResult(l, c, a, call).value;
    RouteFields(l, c, a, call);
    SettleFields(l, o.swapped, c, a);
    SkimEffect(o.swapped, c, o.protocolFee, o.integratorFee, o.final);
  }

  lemma {:induction false} RanAndTrusted(l: Ledger, c: RouteAccounts, a: RouteArgs, call: VenueCall)
    requires RouteResult(l, c, a, call).Some?
    ensures RunLegs(l, a.legs, c.remaining, call).Some? && c.tokenProgram in {TOKEN_PROGRAM, TOKEN_2022_PROGRAM}
    ensures RouteResult(l, c, a, call).value.netOut >= a.minAmountOut
  {
    RouteIsSafe(l, c, a, call);
  }

  lemma InexactComesBack(l: Ledger, c: RouteAccounts, a: RouteArgs, call: VenueCall)
    requires !NetIsExact(l, c, a, call)
    ensures Runnable(c, a)
    ensures exists received :: ComesBackAt(c, a, received)
  {
    var o := RouteResult(l, c, a, call).value;
    RouteIsSafe(l, c, a, call);
    RanAndTrusted(l, c, a, call);
    RouteFields(l, c, a, call);
    SettleFields(l, o.swapped, c, a);
    NetIsWhatStays(l, c, a, call);
    OnlyAllowedLegsRun(l, a.legs, c.remaining, call);
    BalanceIsU64(o.swapped, c.output);
    SkimNeeds(o.swapped, c, o.protocolFee, o.integratorFee);
    assert ComesBackAt(c, a, o.received);
  }

  // ---------------------------------------------------------------- and at every such amount it breaks

  /** An account of the token program that the instruction names. */
  function Fund(c: RouteAccounts, mint: Pubkey, owner: Pubkey, amount: u64): Account {
    Holding(mint, owner, amount).(program := c.tokenProgram)
  }

  predicate Funded(l: Ledger, k: Pubkey, c: RouteAccounts, mint: Pubkey, owner: Pubkey, amount: int) {
    && IsTokenAccount(l, k, c.tokenProgram) && ReadTokenMint(l, k) == Some(mint) && ReadTokenOwner(l, k) == Some(owner)
    && Balance(l, k) == amount
  }

  lemma FundReads(l: Ledger, k: Pubkey, c: RouteAccounts, mint: Pubkey, owner: Pubkey, amount: u64)
    requires k in l && l[k] == Fund(c, mint, owner, amount)
    ensures Funded(l, k, c, mint, owner, amount)
  {
    var l' := map[k := Holding(mint, owner, amount)];
    HoldingReads(l', k, mint, owner, amount);
    assert l'[k].data == l[k].data;
  }

  /** Empty accounts of the user. */
  function Empty(c: RouteAccounts, a: RouteArgs): Ledger {
    map[c.input := Fund(c, a.inputMint, c.authority, 0), c.output := Fund(c, a.outputMint, c.authority, 0)]
  }

  /** What the venue makes of them: `received` in the output account, and destinations for the fees. */
  function Filled(c: RouteAccounts, a: RouteArgs, received: u64): Ledger {
    map[c.input := Fund(c, a.inputMint, c.authority, 0)]
       [c.integratorFee := Fund(c, a.outputMint, c.authority, 0)]
       [c.protocolFee := Fund(c, a.outputMint, PROTOCOL_FEE_RECIPIENT, 0)]
       [c.output := Fund(c, a.outputMint, c.authority, received)]
       [c.outputMintAccount := Mint().(program := c.tokenProgram)]
  }

  function Filling(l: Ledger): VenueCall {
    (_: Ledger, _: Pubkey, _: seq<AccountMeta>, _: Bytes) => Some(l)
  }

  lemma {:induction false} FillingRuns(l: Ledger, legs: seq<SwapLeg>, infos: seq<AccountMeta>, after: Ledger)
    requires forall i :: 0 <= i < |legs| ==> LegAllowed(legs[i], infos)
    ensures RunLegs(l, legs, infos, Filling(after)) == Some(if legs == [] then l else after)
    decreases |legs|
  {
    if legs != [] {
      FillingRuns(after, legs[1..], infos, after);
    }
  }

  lemma EmptyIsAdmissible(c: RouteAccounts, a: RouteArgs)
    requires Runnable(c, a) && c.input != c.output
    ensures Admissible(Empty(c, a), c, a) && Balance(Empty(c, a), c.input) == Balance(Empty(c, a), c.output) == 0
  {
    FundReads(Empty(c, a), c.input, c, a.inputMint, c.authority, 0);
    FundReads(Empty(c, a), c.output, c, a.outputMint, c.authority, 0);
  }

  lemma MintReads(l: Ledger, k: Pubkey, program: Pubkey)
    requires k in l && l[k] == Mint().(program := program)
    ensures IsMint(l, k, program) && ReadMintDecimals(l, k) == Some(0) && ReadTokenAmount(l, k) == Some(0)
  {
    var amount := l[k].data[64..72];
    DecodeOfLE(0, 8);
    Widths();
    assert amount == LE(0, 8) by { ZeroBytes(8); }
  }

  lemma {:induction false} ZeroBytes(n: nat)
    ensures LE(0, n) == seq(n, _ => 0)
  {
    if n > 0 {
      ZeroBytes(n - 1);
    }
  }

  /** The accounts that the fees need. */
  ghost predicate Chargeable(l: Ledger, c: RouteAccounts, received: int, p: int, i: int) {
    && c.output != c.outputMintAccount && Funded(l, c.output, c, c.outputMintAccount, c.authority, received)
    && IsMint(l, c.outputMintAccount, c.tokenProgram) && ReadMintDecimals(l, c.outputMintAccount) == Some(0)
    && (p > 0 ==> c.protocolFee != c.outputMintAccount
                  && Funded(l, c.protocolFee, c, c.outputMintAccount, PROTOCOL_FEE_RECIPIENT,
                            if c.protocolFee == c.output then received else 0))
    && (i > 0 ==> c.integratorFee != c.outputMintAccount
                  && IsTokenAccount(l, c.integratorFee, c.tokenProgram)
                  && ReadTokenMint(l, c.integratorFee) == Some(c.outputMintAccount)
                  && (c.integratorFee != c.output ==> Balance(l, c.integratorFee) == 0))
  }

  lemma FilledIsChargeable(c: RouteAccounts, a: RouteArgs, received: u64, p: int, i: int)
    requires Runnable(c, a) && ComesBack(c, a, received, p, i)
    ensures Chargeable(Filled(c, a, received), c, received, p, i)
    ensures ReadTokenAmount(Filled(c, a, received), c.input) == Some(0)
  {
    var l := Filled(c, a, received);
    MintReads(l, c.outputMintAccount, c.tokenProgram);
    FundReads(l, c.output, c, a.outputMint, c.authority, received);
    if c.input != c.outputMintAccount {
      InputReads(l, c, a, received);
    }
    if p > 0 && c.protocolFee != c.output {
      FundReads(l, c.protocolFee, c, a.outputMint, PROTOCOL_FEE_RECIPIENT, 0);
    }
    if i > 0 && c.integratorFee != c.output {
      FundReads(l, c.integratorFee, c, a.outputMint, c.authority, 0);
    }
  }

  lemma InputReads(l: Ledger, c: RouteAccounts, a: RouteArgs, received: u64)
    requires l == Filled(c, a, received) && c.input !in {c.output, c.outputMintAccount}
    ensures ReadTokenAmount(l, c.input) == Some(0)
  {
    if c.input == c.protocolFee {
      FundReads(l, c.input, c, a.outputMint, PROTOCOL_FEE_RECIPIENT, 0);
    } else if c.input == c.integratorFee {
      FundReads(l, c.input, c, a.outputMint, c.authority, 0);
    } else {
      FundReads(l, c.input, c, a.inputMint, c.authority, 0);
    }
  }

  lemma ProtocolGoesThrough(l: Ledger, c: RouteAccounts, received: u64, p: u64, i: u64)
    requires Chargeable(l, c, received, p, i) && p + i <= received
    ensures SkimProtocol(l, c, p).Some?
    ensures var l' := SkimProtocol(l, c, p).value;
            && OnlyBalancesMove(l, l')
            && forall k :: Balance(l', k) == Balance(l, k) + Flow(k, c.output, c.protocolFee, p)
  {
    if p > 0 {
      TransferEffect(l, c.tokenProgram, c.output, c.outputMintAccount, c.protocolFee, c.authority, p, 0,
                     SkimProtocol(l, c, p).value);
    }
  }

  /** Only balances have moved, so the second transfer finds what the first one found. */
  lemma IntegratorGoesThrough(l: Ledger, l': Ledger, c: RouteAccounts, received: u64, p: u64, i: u64)
    requires Chargeable(l, c, received, p, i) && p + i <= received && OnlyBalancesMove(l, l')
    requires forall k :: Balance(l', k) == Balance(l, k) + Flow(k, c.output, c.protocolFee, p)
    ensures SkimIntegrator(l', c, i, 0).Some?
  {
    if i > 0 {
      var k := c.outputMintAccount;
      assert ReadTokenOwner(l, k).value[12] == Data(l, k)[44] && ReadTokenOwner(l, k).value[13] == Data(l, k)[45];
      assert ReadTokenOwner(l', k).value[12] == Data(l', k)[44] && ReadTokenOwner(l', k).value[13] == Data(l', k)[45];
      BalanceIsU64(l', c.output);
    }
  }

  lemma FeesGoThroughOnFilled(l: Ledger, c: RouteAccounts, received: u64, p: u64, i: u64)
    requires Chargeable(l, c, received, p, i) && p + i <= received
    ensures ReadMintDecimals(l, c.outputMintAccount) == Some(0) && Skim(l, c, p, i).Some?
  {
    ProtocolGoesThrough(l, c, received, p, i);
    IntegratorGoesThrough(l, SkimProtocol(l, c, p).value, c, received, p, i);
  }

  /** The settlement leaves the minimum. */
  lemma FilledSettles(l: Ledger, after: Ledger, c: RouteAccounts, a: RouteArgs, received: u64, p: u64, i: u64)
    requires Measured(l, after, c, a) && TrustedTokenProgram(after, c) && Received(l, after, c) == received
    requires a.integratorFeeBps <= MAX_INTEGRATOR_FEE_BPS
    requires p == FeeAmount(received, PROTOCOL_FEE_BPS) && i == FeeAmount(received, a.integratorFeeBps)
    requires Skim(after, c, p, i).Some? && received - Leaving(c, p, i) >= a.minAmountOut
    ensures Settle(l, after, c, a).Some?
  {
    var final := Skim(after, c, p, i).value;
    SkimEffect(after, c, p, i, final);
    SameLength(after, final, c.output);
    FeesNeverExceedOutput(received, a.integratorFeeBps);
    SettlesIffMinimumKept(l, after, c, a, final);
  }

  lemma FilledIsMeasured(c: RouteAccounts, a: RouteArgs, received: u64, p: u64, i: u64)
    requires Runnable(c, a) && ComesBack(c, a, received, p, i)
    ensures var l, after := Empty(c, a), Filled(c, a, received);
            Measured(l, after, c, a) && TrustedTokenProgram(after, c) && Received(l, after, c) == received
  {
    EmptyIsAdmissible(c, a);
    FilledIsChargeable(c, a, received, p, i);
  }

  /** The route that receives this amount succeeds, and its net is more than what was received less both fees. */
  lemma {:induction false} NetIsBroken(l: Ledger, after: Ledger, c: RouteAccounts, a: RouteArgs, received: u64, p: u64,
                                       i: u64)
    requires Admissible(l, c, a) && RunLegs(l, a.legs, c.remaining, Filling(after)) == Some(after)
    requires Measured(l, after, c, a) && TrustedTokenProgram(after, c) && Received(l, after, c) == received
    requires p == FeeAmount(received, PROTOCOL_FEE_BPS) && i == FeeAmount(received, a.integratorFeeBps)
    requires Skim(after, c, p, i).Some? && received - Leaving(c, p, i) >= a.minAmountOut && Leaving(c, p, i) != p + i
    ensures !NetIsExact(l, c, a, Filling(after))
  {
    FilledSettles(l, after, c, a, received, p, i);
    RouteIsSettled(l, c, a, Filling(after), after);
    SettleFields(l, after, c, a);
    NetIsWhatStays(l, c, a, Filling(after));
  }

  lemma FeesFit(after: Ledger, c: RouteAccounts, a: RouteArgs, received: u64, p: u64, i: u64)
    requires p == FeeAmount(received, PROTOCOL_FEE_BPS) && i == FeeAmount(received, a.integratorFeeBps)
    requires a.integratorFeeBps <= MAX_INTEGRATOR_FEE_BPS && Chargeable(after, c, received, p, i)
    ensures ReadMintDecimals(after, c.outputMintAccount).Some? && Skim(after, c, p, i).Some?
  {
    FeesNeverExceedOutput(received, a.integratorFeeBps);
    FeesGoThroughOnFilled(after, c, received, p, i);
  }

  lemma ComesBackBreaksNet(c: RouteAccounts, a: RouteArgs, received: u64, p: u64, i: u64, l: Ledger, after: Ledger)
    requires l == Empty(c, a) && after == Filled(c, a, received)
    requires p == FeeAmount(received, PROTOCOL_FEE_BPS) && i == FeeAmount(received, a.integratorFeeBps)
    requires Runnable(c, a) && ComesBack(c, a, received, p, i)
    ensures !NetIsExact(l, c, a, Filling(after))
  {
    EmptyIsAdmissible(c, a);
    FillingRuns(l, a.legs, c.remaining, after);
    FilledIsMeasured(c, a, received, p, i);
    FilledIsChargeable(c, a, received, p, i);
    FeesFit(after, c, a, received, p, i);
    NetIsBroken(l, after, c, a, received, p, i);
  }

  // ---------------------------------------------------------------- before the call

  ghost predicate NetIsAlwaysExact(c: RouteAccounts, a: RouteArgs) {
    forall l, call :: NetIsExact(l, c, a, call)
  }

  /** Some route with these accounts and arguments gets a fee back. */
  ghost predicate MayComeBack(c: RouteAccounts, a: RouteArgs) {
    Runnable(c, a) && exists received :: ComesBackAt(c, a, received)
  }

  lemma InexactMayComeBack(c: RouteAccounts, a: RouteArgs)
    requires !NetIsAlwaysExact(c, a)
    ensures MayComeBack(c, a)
  {
    var l, call :| !NetIsExact(l, c, a, call);
    InexactComesBack(l, c, a, call);
  }

  lemma ComesBackIsInexact(c: RouteAccounts, a: RouteArgs, received: u64)
    requires Runnable(c, a) && ComesBackAt(c, a, received)
    ensures !NetIsAlwaysExact(c, a)
  {
    ComesBackBreaksNet(c, a, received, FeeAmount(received, PROTOCOL_FEE_BPS), FeeAmount(received, a.integratorFeeBps),
                       Empty(c, a), Filled(c, a, received));
  }

  /**
   * For given accounts and arguments, every successful route, over all ledgers and venues, leaves exactly what was
   * received less both fees, if and only if there is no amount whose fees come back.
   */
  lemma NetIsAlwaysExactIff(c: RouteAccounts, a: RouteArgs)
    ensures NetIsAlwaysExact(c, a) <==> !MayComeBack(c, a)
  {
    if !NetIsAlwaysExact(c, a) {
      InexactMayComeBack(c, a);
    } else if MayComeBack(c, a) {
      var received: u64 :| ComesBackAt(c, a, received);
      ComesBackIsInexact(c, a, received);
    }
  }

  /** The most that can be received while no protocol fee is due where it cannot be charged. */
  function ProtocolCap(c: RouteAccounts): u64 {
    if c.protocolFee == c.outputMintAccount || (c.protocolFee == c.output && c.authority != PROTOCOL_FEE_RECIPIENT) then
      499
    else
      U64_MAX
  }

  /** The same for the integrator fee. */
  function IntegratorCap(c: RouteAccounts, bps: nat): u64 {
    if c.integratorFee == c.outputMintAccount && bps > 0 then 9_999 / bps else U64_MAX
  }

  function MostReceived(c: RouteAccounts, bps: nat): u64 {
    var x, y := ProtocolCap(c), IntegratorCap(c, bps);
    if x < y then x else y
  }

  lemma LargerFee(x: u64, y: u64, bps: nat)
    requires x <= y && bps <= BPS_DENOMINATOR
    ensures FeeAmount(x, bps) <= FeeAmount(y, bps) && x - FeeAmount(x, bps) <= y - FeeAmount(y, bps)
  {
    FeeIsExact(x, bps);
    FeeIsExact(y, bps);
    MulMono(x, y, bps);
    DivMono(x * bps, y * bps, BPS_DENOMINATOR);
    MulMono(bps, BPS_DENOMINATOR, y - x);
    assert y * bps == x * bps + (y - x) * bps;
    FloorGalois(x * bps, BPS_DENOMINATOR, y * bps / BPS_DENOMINATOR - (y - x));
    FloorBounds(y * bps, BPS_DENOMINATOR);
  }

  lemma NoFeeUpTo(x: u64, bps: nat)
    requires 0 < bps <= BPS_DENOMINATOR
    ensures FeeAmount(x, bps) == 0 <==> x <= 9_999 / bps
  {
    FeeIsExact(x, bps);
    FloorGalois(9_999, bps, x);
  }

  lemma NoProtocolFeeUpTo(x: u64)
    ensures FeeAmount(x, PROTOCOL_FEE_BPS) == 0 <==> x <= 499
  {
    NoFeeUpTo(x, PROTOCOL_FEE_BPS);
  }

  /** An amount whose fees come back is below both caps. */
  lemma BelowTheMost(c: RouteAccounts, a: RouteArgs, received: u64)
    requires a.integratorFeeBps <= MAX_INTEGRATOR_FEE_BPS && ComesBackAt(c, a, received)
    ensures received <= MostReceived(c, a.integratorFeeBps)
  {
    NoProtocolFeeUpTo(received);
    if a.integratorFeeBps > 0 {
      NoFeeUpTo(received, a.integratorFeeBps);
    }
  }

  lemma NoFeeAtTheMost(c: RouteAccounts, bps: nat, most: u64)
    requires bps <= MAX_INTEGRATOR_FEE_BPS && most == MostReceived(c, bps)
    ensures FeeAmount(most, PROTOCOL_FEE_BPS) > 0 ==> ProtocolCap(c) == U64_MAX
    ensures FeeAmount(most, bps) > 0 ==> c.integratorFee != c.outputMintAccount
  {
    NoProtocolFeeUpTo(most);
    if bps == 0 {
      FeeIsExact(most, bps);
    } else {
      NoFeeUpTo(most, bps);
    }
  }

  lemma AlsoAtTheMost(c: RouteAccounts, a: RouteArgs, received: u64, most: u64)
    requires a.integratorFeeBps <= MAX_INTEGRATOR_FEE_BPS && ComesBackAt(c, a, received)
    requires most == MostReceived(c, a.integratorFeeBps)
    ensures ComesBackAt(c, a, most)
  {
    BelowTheMost(c, a, received);
    NoFeeAtTheMost(c, a.integratorFeeBps, most);
    LargerFee(received, most, PROTOCOL_FEE_BPS);
    LargerFee(received, most, a.integratorFeeBps);
  }

  /** One amount decides: the largest that can be received. */
  lemma OneAmountDecides(c: RouteAccounts, a: RouteArgs)
    ensures NetIsAlwaysExact(c, a) <==> !(Runnable(c, a) && ComesBackAt(c, a, MostReceived(c, a.integratorFeeBps)))
  {
    NetIsAlwaysExactIff(c, a);
    if MayComeBack(c, a) {
      var received: u64 :| ComesBackAt(c, a, received);
      AlsoAtTheMost(c, a, received, MostReceived(c, a.integratorFeeBps));
    }
  }
}
