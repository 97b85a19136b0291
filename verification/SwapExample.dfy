/** A concrete route, down to the bytes of its accounts: a venue that exchanges two tokens one for one. */
module SwapExample {
  import opened Common
  import opened Wire
  import opened Venues
  import opened RouterProgram
  import opened RouterGuarantees

  /** A key of one repeated byte. */
  function Key(b: byte): (k: Pubkey)
    ensures k[0] == b
  {
    seq(32, _ => b)
  }

  const USER: Pubkey := Key(1)
  const INPUT: Pubkey := Key(2)
  const OUTPUT: Pubkey := Key(3)
  const INPUT_MINT: Pubkey := Key(4)
  const OUTPUT_MINT: Pubkey := Key(5)
  const TREASURY: Pubkey := Key(8)

  /** The integrator's fee account is the user's own output account. */
  const ACCOUNTS: RouteAccounts := RouteAccounts(USER, INPUT, OUTPUT_MINT, OUTPUT, TOKEN_PROGRAM, TREASURY, OUTPUT, [])

  function SwapArgs(amount: u64, min: u64, bps: u16): RouteArgs {
    RouteArgs(INPUT_MINT, OUTPUT_MINT, amount, min, bps, [SwapLeg(0, 0, 0, [9])])
  }

  // ---------------------------------------------------------------- ledgers the route works on

  predicate TokenAccount(l: Ledger, k: Pubkey, mint: Pubkey, owner: Pubkey) {
    && IsTokenAccount(l, k, TOKEN_PROGRAM)
    && ReadTokenMint(l, k) == Some(mint) && ReadTokenOwner(l, k) == Some(owner)
  }

  /** The user's two accounts, the treasury's, and the mint of the token that is bought. */
  predicate Sound(l: Ledger) {
    && TokenAccount(l, INPUT, INPUT_MINT, USER) && TokenAccount(l, OUTPUT, OUTPUT_MINT, USER)
    && TokenAccount(l, TREASURY, OUTPUT_MINT, PROTOCOL_FEE_RECIPIENT) && IsMint(l, OUTPUT_MINT, TOKEN_PROGRAM)
  }

  lemma StaysSound(l: Ledger, l': Ledger)
    requires Sound(l) && OnlyBalancesMove(l, l')
    ensures Sound(l')
  {
  }

  /** What the three token accounts hold. */
  predicate Holds(l: Ledger, input: int, output: int, fees: int) {
    Balance(l, INPUT) == input && Balance(l, OUTPUT) == output && Balance(l, TREASURY) == fees
  }

  lemma KeysDiffer()
    ensures INPUT != OUTPUT && TREASURY != OUTPUT && TREASURY != INPUT
    ensures OUTPUT_MINT !in {INPUT, OUTPUT, TREASURY}
  {
    assert INPUT[0] == 2 && OUTPUT[0] == 3 && TREASURY[0] == 8 && OUTPUT_MINT[0] == 5;
  }

  // ---------------------------------------------------------------- the venue

  /** The venue takes `amount` of the one token and pays as much of the other. */
  function Exchange(l: Ledger, amount: u64): Option<Ledger> {
    if INPUT in l && OUTPUT in l && |l[INPUT].data| >= 72 && |l[OUTPUT].data| >= 72
       && amount <= Balance(l, INPUT) <= U64_MAX && Balance(l, OUTPUT) + amount <= U64_MAX then
      Some(l[INPUT := WithAmount(l[INPUT], Balance(l, INPUT) - amount)]
            [OUTPUT := WithAmount(l[OUTPUT], Balance(l, OUTPUT) + amount)])
    else None
  }

  function Swap(amount: u64): VenueCall {
    (l: Ledger, _: Pubkey, _: seq<AccountMeta>, _: Bytes) => Exchange(l, amount)
  }

  lemma ExchangeMoves(l: Ledger, amount: u64, after: Ledger)
    requires Exchange(l, amount) == Some(after)
    ensures OnlyBalancesMove(l, after)
    ensures forall k :: Balance(after, k) == Balance(l, k) + Flow(k, INPUT, OUTPUT, amount)
  {
    KeysDiffer();
    MoveEffect(l, INPUT, OUTPUT, amount, after);
  }

  lemma {:induction false} LegIsExchange(l: Ledger, amount: u64, min: u64, bps: u16)
    ensures RunLegs(l, SwapArgs(amount, min, bps).legs, [], Swap(amount)) == Exchange(l, amount)
  {
    var legs := SwapArgs(amount, min, bps).legs;
    assert legs[1..] == [];
    assert LegAllowed(legs[0], []);
  }

  // ---------------------------------------------------------------- the fees

  /** A fee out of the user's account goes through wherever it fits. */
  lemma FeeGoesThrough(l: Ledger, dest: Pubkey, fee: u64, decimals: byte)
    requires Sound(l) && dest in {OUTPUT, TREASURY} && ReadMintDecimals(l, OUTPUT_MINT) == Some(decimals)
    requires fee <= Balance(l, OUTPUT) && (dest == TREASURY ==> Balance(l, TREASURY) + fee <= U64_MAX)
    ensures TransferChecked(l, TOKEN_PROGRAM, OUTPUT, OUTPUT_MINT, dest, USER, fee, decimals).Some?
  {
    KeysDiffer();
  }

  lemma DecimalsStay(l: Ledger, l': Ledger)
    requires Sound(l) && OnlyBalancesMove(l, l')
    ensures ReadMintDecimals(l', OUTPUT_MINT) == ReadMintDecimals(l, OUTPUT_MINT) != None
  {
    var before, now := ReadTokenOwner(l, OUTPUT_MINT).value, ReadTokenOwner(l', OUTPUT_MINT).value;
    assert before[12] == Data(l, OUTPUT_MINT)[44] && now[12] == Data(l', OUTPUT_MINT)[44];
  }

  /** Both fees go through: the protocol's leaves, the integrator's comes back. */
  lemma FeesGoThrough(l: Ledger, p: u64, i: u64)
    requires Sound(l) && p + i <= Balance(l, OUTPUT) && Balance(l, TREASURY) + p <= U64_MAX
    ensures ReadMintDecimals(l, OUTPUT_MINT).Some? && Skim(l, ACCOUNTS, p, i).Some?
  {
    DecimalsStay(l, l);
    var decimals := ReadMintDecimals(l, OUTPUT_MINT).value;
    FeeGoesThrough(l, TREASURY, p, decimals);
    var l1 := SkimProtocol(l, ACCOUNTS, p).value;
    if p > 0 {
      KeysDiffer();
      TransferEffect(l, TOKEN_PROGRAM, OUTPUT, OUTPUT_MINT, TREASURY, USER, p, decimals, l1);
      StaysSound(l, l1);
      DecimalsStay(l, l1);
    }
    KeysDiffer();
    FeeGoesThrough(l1, OUTPUT, i, decimals);
  }

  // ---------------------------------------------------------------- the whole route

  lemma SwapIsAdmissible(l: Ledger, amount: u64, min: u64, bps: u16)
    requires Sound(l) && 0 < amount && bps <= MAX_INTEGRATOR_FEE_BPS
    ensures Admissible(l, ACCOUNTS, SwapArgs(amount, min, bps))
  {
  }

  lemma SwapIsMeasured(l: Ledger, amount: u64, min: u64, bps: u16, after: Ledger)
    requires Sound(l) && Exchange(l, amount) == Some(after)
    ensures Sound(after) && Holds(after, Balance(l, INPUT) - amount, Balance(l, OUTPUT) + amount, Balance(l, TREASURY))
    ensures Measured(l, after, ACCOUNTS, SwapArgs(amount, min, bps)) && TrustedTokenProgram(after, ACCOUNTS)
    ensures Received(l, after, ACCOUNTS) == amount
  {
    KeysDiffer();
    ExchangeMoves(l, amount, after);
    StaysSound(l, after);
    DecimalsStay(after, after);
  }

  lemma SwapSettles(l: Ledger, after: Ledger, amount: u64, min: u64, bps: u16, p: u64, i: u64)
    requires Measured(l, after, ACCOUNTS, SwapArgs(amount, min, bps)) && TrustedTokenProgram(after, ACCOUNTS)
    requires Received(l, after, ACCOUNTS) == amount && bps <= MAX_INTEGRATOR_FEE_BPS
    requires p == FeeAmount(amount, PROTOCOL_FEE_BPS) && i == FeeAmount(amount, bps) && p + i + min <= amount
    requires Skim(after, ACCOUNTS, p, i).Some?
    ensures Settle(l, after, ACCOUNTS, SwapArgs(amount, min, bps)).Some?
  {
    SettlesIffNetSuffices(l, after, ACCOUNTS, SwapArgs(amount, min, bps));
  }

  /** The balances once the fees are paid: the protocol's has left, the integrator's has come back. */
  lemma FeesMove(l: Ledger, p: u64, i: u64, final: Ledger)
    requires Sound(l) && ReadMintDecimals(l, OUTPUT_MINT).Some? && Skim(l, ACCOUNTS, p, i) == Some(final)
    ensures Sound(final) && Holds(final, Balance(l, INPUT), Balance(l, OUTPUT) - p, Balance(l, TREASURY) + p)
  {
    KeysDiffer();
    SkimEffect(l, ACCOUNTS, p, i, final);
    StaysSound(l, final);
  }

  /** What the example route does to the ledger and reports. */
  ghost predicate Swapped(l: Ledger, o: Outcome, amount: u64, p: u64, i: u64) {
    && Sound(o.final)
    && Holds(o.final, Balance(l, INPUT) - amount, Balance(l, OUTPUT) + amount - p, Balance(l, TREASURY) + p)
    && o.spent == o.received == amount && o.protocolFee == p && o.integratorFee == i && o.netOut == amount - p
  }

  lemma SwapReports(l: Ledger, after: Ledger, amount: u64, p: u64, i: u64, o: Outcome)
    requires Sound(after)
    requires Holds(after, Balance(l, INPUT) - amount, Balance(l, OUTPUT) + amount, Balance(l, TREASURY))
    requires o.received == Received(l, after, ACCOUNTS) && o.protocolFee == p && o.integratorFee == i
    requires o.spent == Balance(l, INPUT) - Balance(after, INPUT)
    requires o.netOut == Balance(o.final, OUTPUT) - Balance(l, OUTPUT)
    requires ReadMintDecimals(after, OUTPUT_MINT).Some? && Skim(after, ACCOUNTS, p, i) == Some(o.final)
    ensures Swapped(l, o, amount, p, i)
  {
    FeesMove(after, p, i, o.final);
  }

  /** The example route succeeds for every amount that the balances and the fees allow. */
  lemma SwapSucceeds(l: Ledger, amount: u64, min: u64, bps: u16, p: u64, i: u64)
    requires Sound(l) && 0 < amount <= Balance(l, INPUT) && Balance(l, OUTPUT) + amount <= U64_MAX
    requires p == FeeAmount(amount, PROTOCOL_FEE_BPS) && i == FeeAmount(amount, bps) && p + i + min <= amount
    requires bps <= MAX_INTEGRATOR_FEE_BPS && Balance(l, TREASURY) + p <= U64_MAX
    ensures var r := RouteResult(l, ACCOUNTS, SwapArgs(amount, min, bps), Swap(amount));
            r.Some? && Swapped(l, r.value, amount, p, i)
  {
    BalanceIsU64(l, INPUT);
    var after := Exchange(l, amount).value;
    SwapIsAdmissible(l, amount, min, bps);
    LegIsExchange(l, amount, min, bps);
    SwapIsMeasured(l, amount, min, bps, after);
    FeesGoThrough(after, p, i);
    SwapSettles(l, after, amount, min, bps, p, i);
    RouteIsSettled(l, ACCOUNTS, SwapArgs(amount, min, bps), Swap(amount), after);
    SettleFields(l, after, ACCOUNTS, SwapArgs(amount, min, bps));
    SwapReports(l, after, amount, p, i, Settle(l, after, ACCOUNTS, SwapArgs(amount, min, bps)).value);
  }

  // ---------------------------------------------------------------- such a ledger exists

  /** A token account. */
  function Holding(mint: Pubkey, owner: Pubkey, amount: u64): Account {
    Account(TOKEN_PROGRAM, mint + owner + LE(amount, 8) + seq(36, _ => 0) + [INITIALIZED] + seq(56, _ => 0))
  }

  /** A mint without decimals. */
  function Mint(): Account {
    Account(TOKEN_PROGRAM, seq(45, _ => 0) + [INITIALIZED] + seq(36, _ => 0))
  }

  lemma HoldingReads(l: Ledger, k: Pubkey, mint: Pubkey, owner: Pubkey, amount: u64)
    requires k in l && l[k] == Holding(mint, owner, amount)
    ensures TokenAccount(l, k, mint, owner) && Balance(l, k) == amount
  {
    Widths();
    DecodeOfLE(amount, 8);
    var d := l[k].data;
    assert d[0..32] == mint && d[32..64] == owner && d[64..72] == LE(amount, 8);
  }

  /** The user has `input` units of the one token and none of the other. */
  function Start(input: u64): Ledger {
    map[INPUT := Holding(INPUT_MINT, USER, input), OUTPUT := Holding(OUTPUT_MINT, USER, 0),
        TREASURY := Holding(OUTPUT_MINT, PROTOCOL_FEE_RECIPIENT, 0),
        OUTPUT_MINT := Mint()]
  }

  lemma StartIsSound(input: u64)
    ensures Sound(Start(input)) && Holds(Start(input), input, 0, 0)
  {
    var l := Start(input);
    KeysDiffer();
    HoldingReads(l, INPUT, INPUT_MINT, USER, input);
    HoldingReads(l, OUTPUT, OUTPUT_MINT, USER, 0);
    HoldingReads(l, TREASURY, OUTPUT_MINT, PROTOCOL_FEE_RECIPIENT, 0);
  }

  /** An integrator fee of 1% returns to the user: the net is not what was received less both fees. */
  lemma NetExceedsBothFees(l: Ledger)
    requires Sound(l) && Holds(l, 10_000, 0, 0)
    ensures var r := RouteResult(l, ACCOUNTS, SwapArgs(10_000, 9_880, 100), Swap(10_000));
            && r.Some? && r.value.received == 10_000 && r.value.protocolFee == 20 && r.value.integratorFee == 100
            && r.value.netOut == 9_980 != r.value.received - r.value.protocolFee - r.value.integratorFee
  {
    SwapSucceeds(l, 10_000, 9_880, 100, 20, 100);
  }

  /**
   * So there is a successful route whose integrator fee account is the output account, and which costs less
   * than both fees.
   */
  lemma AliasedFeeWitness()
    ensures exists l, c: RouteAccounts, a, call ::
              && c.integratorFee == c.output && c.protocolFee != c.output && RouteResult(l, c, a, call).Some?
              && var o := RouteResult(l, c, a, call).value; o.netOut > o.received - o.protocolFee - o.integratorFee
  {
    KeysDiffer();
    StartIsSound(10_000);
    NetExceedsBothFees(Start(10_000));
  }
}
