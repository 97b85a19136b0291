/** What a successful `route` guarantees, whatever the venues do and however the accounts alias. */
module RouterGuarantees {
  import opened Common
  import opened Arithmetic
  import opened Wire
  import opened Venues
  import opened RouterProgram

  // ---------------------------------------------------------------- fee arithmetic

  /** A fee rate of at most 100% takes at most the whole, and the cast never truncates. */
  lemma FeeIsExact(gross: nat, bps: nat)
    requires gross <= U64_MAX && bps <= BPS_DENOMINATOR
    ensures FeeAmount(gross, bps) == gross * bps / BPS_DENOMINATOR <= gross
  {
    MulMono(bps, BPS_DENOMINATOR, gross);
    FloorGalois(gross * bps, BPS_DENOMINATOR, gross + 1);
    FloorGalois(gross * bps, BPS_DENOMINATOR, 0);
    MulMono(0, bps, gross);
    DivUnique(gross * bps / BPS_DENOMINATOR, TWO_64, 0, gross * bps / BPS_DENOMINATOR);
  }

  /** Two floored fees total the floored combined fee, or one unit less. */
  lemma TwoFeesVersusOne(gross: nat, bps: nat)
    requires gross <= U64_MAX && bps <= MAX_INTEGRATOR_FEE_BPS
    ensures var together := gross * (PROTOCOL_FEE_BPS + bps) / BPS_DENOMINATOR;
            together - 1 <= FeeAmount(gross, PROTOCOL_FEE_BPS) + FeeAmount(gross, bps) <= together
  {
    FeeIsExact(gross, PROTOCOL_FEE_BPS);
    FeeIsExact(gross, bps);
    assert gross * (PROTOCOL_FEE_BPS + bps) == gross * PROTOCOL_FEE_BPS + gross * bps;
  }

  /** With the integrator fee capped, the fees never exceed the output: that error is unreachable. */
  lemma FeesNeverExceedOutput(gross: nat, bps: nat)
    requires gross <= U64_MAX && bps <= MAX_INTEGRATOR_FEE_BPS
    ensures SaturatingAdd(FeeAmount(gross, PROTOCOL_FEE_BPS), FeeAmount(gross, bps)) <= gross
  {
    TwoFeesVersusOne(gross, bps);
    FeeIsExact(gross, PROTOCOL_FEE_BPS + bps);
  }

  /**
   * If the gross output covers the quote less the allowed slippage after fee rates, the net covers the
   * user's minimum.
   */
  lemma NetMeetsMinimum(gross: nat, quoted: nat, bps: nat, slippageBps: int)
    requires gross <= U64_MAX && bps <= MAX_INTEGRATOR_FEE_BPS && slippageBps <= BPS_DENOMINATOR
    requires gross * (BPS_DENOMINATOR - PROTOCOL_FEE_BPS - bps) >= quoted * (BPS_DENOMINATOR - slippageBps)
    ensures gross - FeeAmount(gross, PROTOCOL_FEE_BPS) - FeeAmount(gross, bps)
         >= MinAmountOut(quoted, slippageBps)
  {
    TwoFeesVersusOne(gross, bps);
  }

  /** The net of a fill that delivers exactly what was quoted. */
  function PerfectNet(quoted: nat, bps: nat): int {
    quoted - FeeAmount(quoted, PROTOCOL_FEE_BPS) - FeeAmount(quoted, bps)
  }

  /**
   * The planner's minimum ignores the fees: perfect fills always pass exactly when the slippage covers both
   * fee rates.
   */
  lemma PerfectFillsPassIff(bps: nat, slippageBps: int)
    requires bps <= MAX_INTEGRATOR_FEE_BPS && slippageBps <= BPS_DENOMINATOR
    ensures (forall quoted: u64 :: PerfectNet(quoted, bps) >= MinAmountOut(quoted, slippageBps))
       <==> slippageBps >= PROTOCOL_FEE_BPS + bps
  {
    if slippageBps >= PROTOCOL_FEE_BPS + bps {
      forall quoted: u64
        ensures PerfectNet(quoted, bps) >= MinAmountOut(quoted, slippageBps)
      {
        NetMeetsMinimum(quoted, quoted, bps, slippageBps);
      }
    } else {
      var q: u64 := BPS_DENOMINATOR;
      assert PerfectNet(q, bps) == BPS_DENOMINATOR - PROTOCOL_FEE_BPS - bps;
    }
  }

  // ---------------------------------------------------------------- transfers

  lemma RewrittenAccount(a: Account, amount: u64)
    requires |a.data| >= 72
    ensures var b := WithAmount(a, amount);
            && b.program == a.program && |b.data| == |a.data|
            && b.data[0..32] == a.data[0..32] && b.data[32..64] == a.data[32..64]
            && FromLE(b.data[64..72]) == amount
            && b.data[72..] == a.data[72..]
  {
    Widths();
    DecodeOfLE(amount, 8);
    var b := WithAmount(a, amount);
  }

  /** Nothing but two balances changes. */
  ghost predicate OnlyBalancesMove(l: Ledger, l': Ledger) {
    && l'.Keys == l.Keys
    && forall k :: k in l ==>
         && l'[k].program == l[k].program && |l'[k].data| == |l[k].data|
         && ReadTokenMint(l', k) == ReadTokenMint(l, k) && ReadTokenOwner(l', k) == ReadTokenOwner(l, k)
         && ReadTokenState(l', k) == ReadTokenState(l, k)
  }

  /** What a key gains from a transfer: source and destination may be the same account. */
  function Flow(k: Pubkey, source: Pubkey, dest: Pubkey, amount: int): int {
    (if k == dest then amount else 0) - (if k == source then amount else 0)
  }

  /** Rewriting one balance changes that balance and nothing else. */
  lemma PutBalance(l: Ledger, k: Pubkey, amount: u64)
    requires k in l && |l[k].data| >= 72
    ensures var l' := l[k := WithAmount(l[k], amount)];
            && OnlyBalancesMove(l, l') && Balance(l', k) == amount
            && forall j :: j != k ==> Balance(l', j) == Balance(l, j)
  {
    RewrittenAccount(l[k], amount);
  }

  /** Rewriting two balances. */
  lemma PutBalances(l: Ledger, j: Pubkey, x: u64, k: Pubkey, y: u64, l': Ledger)
    requires j in l && k in l && j != k && |l[j].data| >= 72 && |l[k].data| >= 72
    requires l' == l[j := WithAmount(l[j], x)][k := WithAmount(l[k], y)]
    ensures OnlyBalancesMove(l, l') && Balance(l', j) == x && Balance(l', k) == y
    ensures forall i :: i != j && i != k ==> Balance(l', i) == Balance(l, i)
  {
    PutBalance(l, j, x);
    PutBalance(l[j := WithAmount(l[j], x)], k, y);
  }

  /** Moving an amount between two different accounts. */
  lemma MoveEffect(l: Ledger, source: Pubkey, dest: Pubkey, amount: u64, l': Ledger)
    requires source in l && dest in l && source != dest && |l[source].data| >= 72 && |l[dest].data| >= 72
    requires amount <= Balance(l, source) <= U64_MAX && Balance(l, dest) + amount <= U64_MAX
    requires l' == l[source := WithAmount(l[source], Balance(l, source) - amount)]
                    [dest := WithAmount(l[dest], Balance(l, dest) + amount)]
    ensures OnlyBalancesMove(l, l')
    ensures forall k :: Balance(l', k) == Balance(l, k) + Flow(k, source, dest, amount)
  {
    PutBalances(l, source, Balance(l, source) - amount, dest, Balance(l, dest) + amount, l');
  }

  /**
   * A transfer needs two initialized token accounts of that mint that are not frozen, the first one with the amount and
   * owned by the signer, and the initialized mint with these decimals.
   */
  lemma TransferNeeds(l: Ledger, tp: Pubkey, source: Pubkey, mint: Pubkey, dest: Pubkey, authority: Pubkey, amount: u64,
                      decimals: byte)
    requires TransferChecked(l, tp, source, mint, dest, authority, amount, decimals).Some?
    ensures |Data(l, source)| >= 165 && |Data(l, dest)| >= 165 && |Data(l, mint)| >= 82
    ensures Data(l, source)[108] == Data(l, dest)[108] == 1 && Data(l, mint)[45] == 1 && Data(l, mint)[44] == decimals
    ensures Data(l, source)[0..32] == Data(l, dest)[0..32] == mint && Data(l, source)[32..64] == authority
    ensures l[source].program == l[dest].program == l[mint].program == tp && amount <= Balance(l, source)
  {
  }

  /** A transfer moves exactly its amount, for every account, aliased or not. */
  lemma TransferEffect(l: Ledger, tp: Pubkey, source: Pubkey, mint: Pubkey, dest: Pubkey, authority: Pubkey,
                       amount: u64, decimals: byte, l': Ledger)
    requires TransferChecked(l, tp, source, mint, dest, authority, amount, decimals) == Some(l')
    ensures OnlyBalancesMove(l, l')
    ensures forall k :: Balance(l', k) == Balance(l, k) + Flow(k, source, dest, amount)
  {
    if source != dest {
      BalanceIsU64(l, source);
      MoveEffect(l, source, dest, amount, l');
    }
  }

  /** What both fee transfers change: the exact flow of every account, even if some of them coincide. */
  lemma SkimEffect(l: Ledger, c: RouteAccounts, protocolFee: u64, integratorFee: u64, final: Ledger)
    requires ReadMintDecimals(l, c.outputMintAccount).Some? && Skim(l, c, protocolFee, integratorFee) == Some(final)
    ensures forall k :: Balance(final, k)
                     == Balance(l, k) + Flow(k, c.output, c.protocolFee, protocolFee)
                        + Flow(k, c.output, c.integratorFee, integratorFee)
    ensures OnlyBalancesMove(l, final)
    ensures protocolFee > 0 ==> ReadTokenOwner(l, c.protocolFee) == Some(PROTOCOL_FEE_RECIPIENT)
  {
    var decimals := ReadMintDecimals(l, c.outputMintAccount).value;
    var l1 := SkimProtocol(l, c, protocolFee).value;
    if protocolFee > 0 {
      TransferEffect(l, c.tokenProgram, c.output, c.outputMintAccount, c.protocolFee, c.authority, protocolFee,
                     decimals, l1);
    }
    if integratorFee > 0 {
      TransferEffect(l1, c.tokenProgram, c.output, c.outputMintAccount, c.integratorFee, c.authority, integratorFee,
                     decimals, final);
    }
  }

  // ---------------------------------------------------------------- the whole instruction

  /** The balances at the end, after any behaviour of the venues. */
  ghost predicate Guaranteed(l: Ledger, c: RouteAccounts, a: RouteArgs, o: Outcome) {
    && Balance(o.final, c.output) >= Balance(l, c.output) + a.minAmountOut
    && Balance(o.final, c.output) == Balance(l, c.output) + o.netOut
    && Balance(o.final, c.input) >= Balance(l, c.input) - a.amountIn
    && o.spent <= a.amountIn
    && o.received - o.protocolFee - o.integratorFee <= o.netOut <= o.received
    && (c.input == c.output ==> Balance(o.final, c.output) == Balance(l, c.output) && o.spent == o.received == 0)
  }

  /** The fee destinations that really take something out of the output account. */
  predicate FeesLeave(c: RouteAccounts, o: Outcome) {
    && (o.protocolFee > 0 ==> c.protocolFee != c.output)
    && (o.integratorFee > 0 ==> c.integratorFee != c.output)
  }

  /** A successful route delivers the minimum, spends at most the limit, and charges at most the two fees. */
  lemma RouteIsSafe(l: Ledger, c: RouteAccounts, a: RouteArgs, call: VenueCall)
    requires RouteResult(l, c, a, call).Some?
    ensures Guaranteed(l, c, a, RouteResult(l, c, a, call).value)
  {
    var o := RouteResult(l, c, a, call).value;
    SkimEffect(o.swapped, c, o.protocolFee, o.integratorFee, o.final);
    assert Balance(o.swapped, c.input) <= Balance(l, c.input);
    if c.input != c.output {
      assert Balance(o.final, c.input) >= Balance(o.swapped, c.input);
    } else {
      assert o.received == 0;
    }
  }

  /** What is read of a token account is what the token program writes: mint, owner, balance, in this order. */
  lemma TokenAccountReads(l: Ledger, k: Pubkey, mint: Pubkey, owner: Pubkey, amount: u64, rest: Bytes)
    requires k in l && l[k].data == mint + owner + LE(amount, 8) + rest
    ensures ReadTokenMint(l, k) == Some(mint) && ReadTokenOwner(l, k) == Some(owner)
    ensures ReadTokenAmount(l, k) == Some(amount) && Balance(l, k) == amount
  {
    var d := Data(l, k);
    Widths();
    DecodeOfLE(amount, 8);
    assert d[0..32] == mint && d[32..64] == owner && d[64..72] == LE(amount, 8);
  }

  /** And of a mint, the byte behind its authority and its supply. */
  lemma MintAccountReads(l: Ledger, k: Pubkey, authority: Bytes, supply: u64, decimals: byte, rest: Bytes)
    requires |authority| == 36 && k in l && l[k].data == authority + LE(supply, 8) + [decimals] + rest
    ensures ReadMintDecimals(l, k) == Some(decimals)
  {
  }

  /** The account's bytes name this mint and this owner, and reach to the end of a balance. */
  predicate NamesOwner(l: Ledger, k: Pubkey, mint: Pubkey, owner: Pubkey) {
    |Data(l, k)| >= 72 && Data(l, k)[0..32] == mint && Data(l, k)[32..64] == owner
  }

  /**
   * What the instruction must show before any leg runs: one to eight legs, an amount, a bounded rate, and token
   * accounts of the authority for both declared mints.
   */
  lemma EntryChecksIff(l: Ledger, c: RouteAccounts, a: RouteArgs)
    ensures Admissible(l, c, a)
       <==> && 1 <= |a.legs| <= 8 && 0 < a.amountIn && a.integratorFeeBps <= 255
            && NamesOwner(l, c.input, a.inputMint, c.authority) && NamesOwner(l, c.output, a.outputMint, c.authority)
            && c.outputMintAccount == a.outputMint
  {
  }

  /** A successful route passed those checks, and its fees were left to the token program that owns the output. */
  lemma RouteIsBound(l: Ledger, c: RouteAccounts, a: RouteArgs, call: VenueCall)
    requires RouteResult(l, c, a, call).Some?
    ensures 1 <= |a.legs| <= 8 && 0 < a.amountIn && a.integratorFeeBps <= 255
    ensures NamesOwner(l, c.input, a.inputMint, c.authority) && NamesOwner(l, c.output, a.outputMint, c.authority)
    ensures var after := RouteResult(l, c, a, call).value.swapped;
            && c.outputMintAccount == a.outputMint && c.output in after && after[c.output].program == c.tokenProgram
            && c.tokenProgram in {TOKEN_PROGRAM, TOKEN_2022_PROGRAM} && |Data(after, c.outputMintAccount)| >= 45
  {
    RouteFields(l, c, a, call);
    EntryChecksIff(l, c, a);
  }

  /** The user pays exactly both fees if and only if neither of them comes back to the output account. */
  lemma ExactNetIff(l: Ledger, c: RouteAccounts, a: RouteArgs, call: VenueCall)
    requires RouteResult(l, c, a, call).Some?
    ensures var o := RouteResult(l, c, a, call).value;
            o.netOut == o.received - o.protocolFee - o.integratorFee <==> FeesLeave(c, o)
  {
    var o := RouteResult(l, c, a, call).value;
    SkimEffect(o.swapped, c, o.protocolFee, o.integratorFee, o.final);
  }

  /** Fee accounts other than the output account always cost the user exactly both fees. */
  lemma SeparateFeeAccountsCostBoth(l: Ledger, c: RouteAccounts, a: RouteArgs, call: VenueCall)
    requires c.protocolFee != c.output && c.integratorFee != c.output
    ensures var r := RouteResult(l, c, a, call);
            r.Some? ==> r.value.netOut == r.value.received - r.value.protocolFee - r.value.integratorFee
  {
    if RouteResult(l, c, a, call).Some? {
      ExactNetIff(l, c, a, call);
    }
  }

  /** An aliased fee account keeps its fee from being a cost exactly when that fee is at least one unit. */
  lemma AliasedFeesIff(l: Ledger, c: RouteAccounts, a: RouteArgs, call: VenueCall)
    requires RouteResult(l, c, a, call).Some?
    ensures var o := RouteResult(l, c, a, call).value;
            o.netOut == o.received - o.protocolFee - o.integratorFee <==>
              && (c.protocolFee == c.output ==> o.received * PROTOCOL_FEE_BPS < BPS_DENOMINATOR)
              && (c.integratorFee == c.output ==> o.received * a.integratorFeeBps < BPS_DENOMINATOR)
  {
    var o := RouteResult(l, c, a, call).value;
    ExactNetIff(l, c, a, call);
    FeesAreTheRates(l, c, a, call);
    FloorGalois(o.received * PROTOCOL_FEE_BPS, BPS_DENOMINATOR, 1);
    FloorGalois(o.received * a.integratorFeeBps, BPS_DENOMINATOR, 1);
  }

  /** What an outcome records, whatever the fees are. */
  lemma SettleWithFields(l: Ledger, after: Ledger, c: RouteAccounts, a: RouteArgs, received: nat, p: u64, i: u64)
    requires Measured(l, after, c, a) && SettleWith(l, after, c, a, received, p, i).Some?
    ensures var o := SettleWith(l, after, c, a, received, p, i).value;
            && o.swapped == after && o.received == received && o.protocolFee == p && o.integratorFee == i
            && o.spent == Balance(l, c.input) - Balance(after, c.input)
            && o.netOut == Balance(o.final, c.output) - Balance(l, c.output)
            && ReadMintDecimals(after, c.outputMintAccount).Some? && Skim(after, c, p, i) == Some(o.final)
  {
  }

  /** What an outcome records. */
  lemma SettleFields(l: Ledger, after: Ledger, c: RouteAccounts, a: RouteArgs)
    requires Measured(l, after, c, a) && Settle(l, after, c, a).Some?
    ensures var o := Settle(l, after, c, a).value;
            && o.swapped == after
            && o.received == Received(l, after, c)
            && o.protocolFee == FeeAmount(o.received, PROTOCOL_FEE_BPS)
            && o.integratorFee == FeeAmount(o.received, a.integratorFeeBps)
            && o.spent == Balance(l, c.input) - Balance(after, c.input)
            && o.netOut == Balance(o.final, c.output) - Balance(l, c.output)
            && ReadMintDecimals(after, c.outputMintAccount).Some?
            && Skim(after, c, o.protocolFee, o.integratorFee) == Some(o.final)
  {
    var received := Received(l, after, c);
    SettleWithFields(l, after, c, a, received, FeeAmount(received, PROTOCOL_FEE_BPS),
                     FeeAmount(received, a.integratorFeeBps));
  }

  lemma RouteFields(l: Ledger, c: RouteAccounts, a: RouteArgs, call: VenueCall)
    requires RouteResult(l, c, a, call).Some?
    ensures var o := RouteResult(l, c, a, call).value;
            && Admissible(l, c, a) && Measured(l, o.swapped, c, a) && Settle(l, o.swapped, c, a) == Some(o)
  {
  }

  lemma {:induction false} RouteIsSettled(l: Ledger, c: RouteAccounts, a: RouteArgs, call: VenueCall, after: Ledger)
    requires Admissible(l, c, a) && RunLegs(l, a.legs, c.remaining, call) == Some(after) && Measured(l, after, c, a)
    ensures RouteResult(l, c, a, call) == Settle(l, after, c, a)
  {
  }

  /** The fees are the two rates on the measured output, and a protocol fee only ever goes to the treasury. */
  lemma FeesAreTheRates(l: Ledger, c: RouteAccounts, a: RouteArgs, call: VenueCall)
    requires RouteResult(l, c, a, call).Some?
    ensures var o := RouteResult(l, c, a, call).value;
            && o.protocolFee == o.received * PROTOCOL_FEE_BPS / BPS_DENOMINATOR
            && o.integratorFee == o.received * a.integratorFeeBps / BPS_DENOMINATOR
            && (o.protocolFee > 0 ==> ReadTokenOwner(o.final, c.protocolFee) == Some(PROTOCOL_FEE_RECIPIENT))
  {
    var o := RouteResult(l, c, a, call).value;
    RouteFields(l, c, a, call);
    SettleFields(l, o.swapped, c, a);
    BalanceIsU64(o.swapped, c.output);
    FeeIsExact(o.received, PROTOCOL_FEE_BPS);
    FeeIsExact(o.received, a.integratorFeeBps);
    SkimEffect(o.swapped, c, o.protocolFee, o.integratorFee, o.final);
  }

  /** The fees arrive: each destination outside the output account ends with exactly what it is due. */
  lemma FeesArrive(l: Ledger, c: RouteAccounts, a: RouteArgs, call: VenueCall, k: Pubkey)
    requires RouteResult(l, c, a, call).Some? && k != c.output
    ensures var o := RouteResult(l, c, a, call).value;
            Balance(o.final, k) == Balance(o.swapped, k)
              + (if k == c.protocolFee then o.protocolFee else 0)
                + (if k == c.integratorFee then o.integratorFee else 0)
  {
    var o := RouteResult(l, c, a, call).value;
    SkimEffect(o.swapped, c, o.protocolFee, o.integratorFee, o.final);
  }

  /** Every leg that ran was a known swap instruction of an enabled venue, inside its slice. */
  lemma {:induction false} OnlyAllowedLegsRun(l: Ledger, legs: seq<SwapLeg>, infos: seq<AccountMeta>, call: VenueCall)
    requires RunLegs(l, legs, infos, call).Some?
    ensures forall i :: 0 <= i < |legs| ==> LegAllowed(legs[i], infos) && legs[i].venue <= 6
    decreases |legs|
  {
    if legs != [] {
      OnlyAllowedLegsRun(RunLeg(l, legs[0], infos, call).value, legs[1..], infos, call);
    }
  }

  /** The fee check after the legs rejects nothing: dropping it would change no outcome. */
  lemma FeeCheckIsRedundant(l: Ledger, after: Ledger, c: RouteAccounts, a: RouteArgs)
    requires Admissible(l, c, a) && Measured(l, after, c, a)
    ensures var received := Balance(after, c.output) - Balance(l, c.output);
            SaturatingAdd(FeeAmount(received, PROTOCOL_FEE_BPS), FeeAmount(received, a.integratorFeeBps)) <= received
  {
    BalanceIsU64(after, c.output);
    FeesNeverExceedOutput(Balance(after, c.output) - Balance(l, c.output), a.integratorFeeBps);
  }

  // ---------------------------------------------------------------- the planner's minimum, on the ledger

  /** The legs went well, and so would both fee transfers. */
  ghost predicate ReadyToSettle(l: Ledger, after: Ledger, c: RouteAccounts, a: RouteArgs) {
    && Measured(l, after, c, a) && TrustedTokenProgram(after, c) && a.integratorFeeBps <= MAX_INTEGRATOR_FEE_BPS
    && Skim(after, c, FeeAmount(Received(l, after, c), PROTOCOL_FEE_BPS),
            FeeAmount(Received(l, after, c), a.integratorFeeBps)).Some?
  }

  /** Fees that fit, at a trusted token program, whose transfers go through: only the minimum is left to fail. */
  lemma SettledIffMinimumKept(l: Ledger, after: Ledger, c: RouteAccounts, a: RouteArgs, received: nat, p: u64, i: u64,
                              final: Ledger)
    requires TrustedTokenProgram(after, c) && SaturatingAdd(p, i) <= received && Skim(after, c, p, i) == Some(final)
    requires Measured(l, after, c, a)
    ensures SettleWith(l, after, c, a, received, p, i).Some? <==> KeepsMinimum(l, final, c, a)
  {
  }

  /** Once both transfers have gone through, only the minimum is left to fail. */
  lemma SettlesIffMinimumKept(l: Ledger, after: Ledger, c: RouteAccounts, a: RouteArgs, final: Ledger)
    requires ReadyToSettle(l, after, c, a)
    requires Skim(after, c, FeeAmount(Received(l, after, c), PROTOCOL_FEE_BPS),
                  FeeAmount(Received(l, after, c), a.integratorFeeBps)) == Some(final)
    ensures Settle(l, after, c, a).Some? <==> KeepsMinimum(l, final, c, a)
  {
    var received := Received(l, after, c);
    var p, i := FeeAmount(received, PROTOCOL_FEE_BPS), FeeAmount(received, a.integratorFeeBps);
    BalanceIsU64(after, c.output);
    FeesNeverExceedOutput(received, a.integratorFeeBps);
    SettledIffMinimumKept(l, after, c, a, received, p, i, final);
  }

  /** What is left in the output account after both transfers. */
  lemma LeftAfterFees(l: Ledger, c: RouteAccounts, protocolFee: u64, integratorFee: u64, final: Ledger)
    requires ReadMintDecimals(l, c.outputMintAccount).Some? && Skim(l, c, protocolFee, integratorFee) == Some(final)
    requires ReadTokenAmount(l, c.output).Some?
    ensures ReadTokenAmount(final, c.output).Some?
    ensures Balance(final, c.output) >= Balance(l, c.output) - protocolFee - integratorFee
    ensures c.protocolFee != c.output && c.integratorFee != c.output ==>
              Balance(final, c.output) == Balance(l, c.output) - protocolFee - integratorFee
  {
    SkimEffect(l, c, protocolFee, integratorFee, final);
    SameLength(l, final, c.output);
  }

  /**
   * Then the route succeeds if, and with separate fee accounts only if, what is left after both fees meets
   * the minimum.
   */
  lemma SettlesIffNetSuffices(l: Ledger, after: Ledger, c: RouteAccounts, a: RouteArgs)
    requires ReadyToSettle(l, after, c, a)
    ensures var received := Received(l, after, c);
            var net := received - FeeAmount(received, PROTOCOL_FEE_BPS) - FeeAmount(received, a.integratorFeeBps);
            && (net >= a.minAmountOut ==> Settle(l, after, c, a).Some?)
            && (c.protocolFee != c.output && c.integratorFee != c.output && Settle(l, after, c, a).Some? ==>
                  net >= a.minAmountOut)
  {
    var received := Received(l, after, c);
    var protocolFee, integratorFee := FeeAmount(received, PROTOCOL_FEE_BPS), FeeAmount(received, a.integratorFeeBps);
    BalanceIsU64(after, c.output);
    FeesNeverExceedOutput(received, a.integratorFeeBps);
    var final := Skim(after, c, protocolFee, integratorFee).value;
    LeftAfterFees(after, c, protocolFee, integratorFee, final);
    SettlesIffMinimumKept(l, after, c, a, final);
  }

  lemma SameLength(l: Ledger, l': Ledger, k: Pubkey)
    requires OnlyBalancesMove(l, l') && ReadTokenAmount(l, k).Some?
    ensures ReadTokenAmount(l', k).Some?
  {
    assert k in l && |l'[k].data| == |l[k].data|;
  }

  /** A fill within the allowed slippage after both fee rates settles, with the planner's own minimum. */
  lemma QuotedFillSettles(l: Ledger, after: Ledger, c: RouteAccounts, a: RouteArgs, quoted: nat, slippageBps: int)
    requires ReadyToSettle(l, after, c, a) && a.minAmountOut == MinAmountOut(quoted, slippageBps)
    requires slippageBps <= BPS_DENOMINATOR
    requires Received(l, after, c) * (BPS_DENOMINATOR - PROTOCOL_FEE_BPS - a.integratorFeeBps)
          >= quoted * (BPS_DENOMINATOR - slippageBps)
    ensures Settle(l, after, c, a).Some?
  {
    BalanceIsU64(after, c.output);
    NetMeetsMinimum(Received(l, after, c), quoted, a.integratorFeeBps, slippageBps);
    SettlesIffNetSuffices(l, after, c, a);
  }

  /**
   * A route that delivers exactly its quote, paying separate fee accounts, settles exactly if the slippage
   * covers what the fees take.
   */
  lemma PerfectFillSettlesIff(l: Ledger, after: Ledger, c: RouteAccounts, a: RouteArgs, slippageBps: int)
    requires ReadyToSettle(l, after, c, a) && c.protocolFee != c.output && c.integratorFee != c.output
    requires a.minAmountOut == MinAmountOut(Received(l, after, c), slippageBps)
    ensures Settle(l, after, c, a).Some? <==> PerfectNet(Received(l, after, c), a.integratorFeeBps) >= a.minAmountOut
  {
    SettlesIffNetSuffices(l, after, c, a);
  }
}
