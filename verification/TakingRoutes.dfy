/**
 * Routes through a venue that takes from one account and pays nothing: the least that a signed leg can do
 * for its user.
 */
module TakingRoutes {
  import opened Common
  import opened Wire
  import opened Venues
  import opened RouterProgram
  import opened RouterGuarantees
  import opened SwapExample

  /** The venue's one leg. */
  const TAKING_LEG: SwapLeg := SwapLeg(0, 0, 0, [9])

  function Taken(l: Ledger, k: Pubkey, taken: u64): Option<Ledger> {
    if k in l && |l[k].data| >= 72 && taken <= Balance(l, k) <= U64_MAX
    then Some(l[k := WithAmount(l[k], Balance(l, k) - taken)])
    else None
  }

  /** A venue that takes `taken` units from the account `k`. */
  function Taking(k: Pubkey, taken: u64): VenueCall {
    (l: Ledger, _: Pubkey, _: seq<AccountMeta>, _: Bytes) => Taken(l, k, taken)
  }

  lemma {:induction false} TakingLeg(l: Ledger, infos: seq<AccountMeta>, k: Pubkey, taken: u64)
    ensures RunLegs(l, [TAKING_LEG], infos, Taking(k, taken)) == Taken(l, k, taken)
  {
    var legs := [TAKING_LEG];
    assert legs[1..] == [];
    assert LegAllowed(legs[0], infos);
  }

  lemma TakenMoves(l: Ledger, k: Pubkey, taken: u64, after: Ledger)
    requires Taken(l, k, taken) == Some(after)
    ensures OnlyBalancesMove(l, after) && Balance(after, k) == Balance(l, k) - taken
    ensures forall j :: j != k ==> Balance(after, j) == Balance(l, j)
  {
    PutBalance(l, k, Balance(l, k) - taken);
  }

  /** A mint account stays readable when only balances move. */
  lemma DecimalsStayReadable(l: Ledger, l': Ledger, mint: Pubkey)
    requires OnlyBalancesMove(l, l') && ReadMintDecimals(l, mint).Some?
    ensures ReadMintDecimals(l', mint).Some?
  {
    assert mint in l && |l'[mint].data| == |l[mint].data|;
  }

  /** What is needed of the accounts: the user's two, and a token program that can be trusted. */
  ghost predicate Takeable(l: Ledger, c: RouteAccounts, a: RouteArgs, k: Pubkey, taken: u64) {
    && Admissible(l, c, a) && TrustedTokenProgram(l, c) && a.legs == [TAKING_LEG] && a.minAmountOut == 0
    && k in l && |l[k].data| >= 72 && taken <= Balance(l, k) && k != c.output
    && (k == c.input ==> taken <= a.amountIn)
  }

  lemma TakenIsMeasured(l: Ledger, c: RouteAccounts, a: RouteArgs, k: Pubkey, taken: u64, after: Ledger)
    requires Takeable(l, c, a, k, taken) && Taken(l, k, taken) == Some(after)
    ensures Measured(l, after, c, a) && TrustedTokenProgram(after, c) && Received(l, after, c) == 0
    ensures Balance(l, c.input) - Balance(after, c.input) == if k == c.input then taken else 0
  {
    TakenMoves(l, k, taken, after);
    SameLength(l, after, c.input);
    SameLength(l, after, c.output);
    DecimalsStayReadable(l, after, c.outputMintAccount);
  }

  /** Nothing received, no fees: the legs' ledger is the final one. */
  lemma NothingToSettle(l: Ledger, after: Ledger, c: RouteAccounts, a: RouteArgs)
    requires Measured(l, after, c, a) && TrustedTokenProgram(after, c) && Received(l, after, c) == 0
    requires a.minAmountOut == 0 && a.integratorFeeBps <= MAX_INTEGRATOR_FEE_BPS
    ensures Settle(l, after, c, a).Some? && Settle(l, after, c, a).value.final == after
  {
    assert FeeAmount(0, PROTOCOL_FEE_BPS) == 0 && FeeAmount(0, a.integratorFeeBps) == 0;
    assert Received(l, after, c) == 0;
    assert Skim(after, c, 0, 0) == Some(after);
    SettlesIffMinimumKept(l, after, c, a, after);
    SettleFields(l, after, c, a);
  }

  /**
   * The route succeeds, whatever account of the ledger the venue takes from, as long as it is not the
   * output account.
   */
  lemma TakingSucceeds(l: Ledger, c: RouteAccounts, a: RouteArgs, k: Pubkey, taken: u64)
    requires Takeable(l, c, a, k, taken)
    ensures var r := RouteResult(l, c, a, Taking(k, taken));
            && r.Some? && Taken(l, k, taken) == Some(r.value.final)
            && r.value.spent == if k == c.input then taken else 0
  {
    BalanceIsU64(l, k);
    var after := Taken(l, k, taken).value;
    TakingLeg(l, c.remaining, k, taken);
    TakenIsMeasured(l, c, a, k, taken, after);
    NothingToSettle(l, after, c, a);
    RouteIsSettled(l, c, a, Taking(k, taken), after);
    SettleFields(l, after, c, a);
  }

  // ---------------------------------------------------------------- such accounts exist, for any two mints

  /** Three keys of which none is the mint `b`, or the user's own. */
  function InputKey(b: Pubkey): Pubkey {
    if b == Key(7) then Key(2) else Key(7)
  }

  function OutputKey(b: Pubkey): Pubkey {
    if b == Key(3) then Key(4) else Key(3)
  }

  function OtherKey(b: Pubkey): Pubkey {
    if b == Key(5) then Key(6) else Key(5)
  }

  lemma KeysOfWallet(b: Pubkey)
    ensures InputKey(b) != OutputKey(b) && OtherKey(b) != InputKey(b) && OtherKey(b) != OutputKey(b)
    ensures b != InputKey(b) && b != OutputKey(b) && b != OtherKey(b)
    ensures USER !in {InputKey(b), OutputKey(b), OtherKey(b)}
  {
    assert InputKey(b)[0] in {7, 2} && OutputKey(b)[0] in {3, 4} && OtherKey(b)[0] in {5, 6};
    assert Key(7)[0] == 7 && Key(2)[0] == 2 && Key(3)[0] == 3 && Key(4)[0] == 4 && Key(5)[0] == 5 && Key(6)[0] == 6;
    assert USER[0] == 1;
  }

  /** A user who sells the token `a` for `b`, and holds `other` units of a third token in an account nobody declares. */
  function Wallet(a: Pubkey, b: Pubkey, other: u64): Ledger {
    map[InputKey(b) := Holding(a, USER, U64_MAX), OutputKey(b) := Holding(b, USER, 0),
        OtherKey(b) := Holding(Key(9), USER, other), b := Mint()]
  }

  function WalletAccounts(b: Pubkey): RouteAccounts {
    RouteAccounts(USER, InputKey(b), b, OutputKey(b), TOKEN_PROGRAM, OutputKey(b), OutputKey(b), [])
  }

  function TakingArgs(a: Pubkey, b: Pubkey, amount: u64): RouteArgs {
    RouteArgs(a, b, amount, 0, 0, [TAKING_LEG])
  }

  lemma WalletReads(a: Pubkey, b: Pubkey, other: u64)
    ensures var l := Wallet(a, b, other);
            && TokenAccount(l, InputKey(b), a, USER) && Balance(l, InputKey(b)) == U64_MAX
            && TokenAccount(l, OutputKey(b), b, USER)
            && TokenAccount(l, OtherKey(b), Key(9), USER) && Balance(l, OtherKey(b)) == other
            && ReadMintDecimals(l, b).Some?
  {
    var l := Wallet(a, b, other);
    KeysOfWallet(b);
    HoldingReads(l, InputKey(b), a, USER, U64_MAX);
    HoldingReads(l, OutputKey(b), b, USER, 0);
    HoldingReads(l, OtherKey(b), Key(9), USER, other);
  }

  /** From such a wallet a venue can take the declared amount, or everything in the undeclared account. */
  lemma WalletIsTakeable(a: Pubkey, b: Pubkey, other: u64, amount: u64)
    requires 0 < amount
    ensures Takeable(Wallet(a, b, other), WalletAccounts(b), TakingArgs(a, b, amount), InputKey(b), amount)
    ensures Takeable(Wallet(a, b, other), WalletAccounts(b), TakingArgs(a, b, amount), OtherKey(b), other)
  {
    KeysOfWallet(b);
    WalletReads(a, b, other);
  }
}
