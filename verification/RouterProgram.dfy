/** The on-chain router: executes legs at untrusted venues, measures real balances, and skims the fees. */
module RouterProgram {
  import opened Common
  import opened Wire
  import opened Venues

  const MAX_LEGS: nat := 8

  /** An account as the runtime stores it: the program that owns it, and its raw data. */
  datatype Account = Account(program: Pubkey, data: Bytes)

  type Ledger = map<Pubkey, Account>

  datatype AccountMeta = AccountMeta(pubkey: Pubkey, isSigner: bool, isWritable: bool)

  /** The accounts of the instruction; nothing says they are different. */
  datatype RouteAccounts = RouteAccounts(authority: Pubkey, input: Pubkey, outputMintAccount: Pubkey, output: Pubkey,
                                         tokenProgram: Pubkey, protocolFee: Pubkey, integratorFee: Pubkey,
                                         remaining: seq<AccountMeta>)

  /** A venue call: an arbitrary change of the whole ledger, or a failure. */
  type VenueCall = (Ledger, Pubkey, seq<AccountMeta>, Bytes) -> Option<Ledger>

  // ---------------------------------------------------------------- reading accounts

  function Data(l: Ledger, k: Pubkey): Bytes {
    if k in l then l[k].data else []
  }

  function ReadTokenMint(l: Ledger, k: Pubkey): Option<Bytes> {
    if |Data(l, k)| >= 32 then Some(Data(l, k)[0..32]) else None
  }

  function ReadTokenOwner(l: Ledger, k: Pubkey): Option<Bytes> {
    if |Data(l, k)| >= 64 then Some(Data(l, k)[32..64]) else None
  }

  function ReadTokenAmount(l: Ledger, k: Pubkey): Option<nat> {
    if |Data(l, k)| >= 72 then Some(FromLE(Data(l, k)[64..72])) else None
  }

  function ReadMintDecimals(l: Ledger, k: Pubkey): Option<byte> {
    if |Data(l, k)| >= 45 then Some(Data(l, k)[44]) else None
  }

  /** The balance field, 0 where there is none. */
  function Balance(l: Ledger, k: Pubkey): nat {
    match ReadTokenAmount(l, k)
    case Some(a) => a
    case None => 0
  }

  // ---------------------------------------------------------------- the token program

  const TOKEN_ACCOUNT_SIZE: nat := 165
  const MINT_SIZE: nat := 82

  /** The state byte of a token account: 0 is uninitialized, 2 is frozen. The same value marks a mint as initialized. */
  const INITIALIZED: byte := 1

  function ReadTokenState(l: Ledger, k: Pubkey): Option<byte> {
    if |Data(l, k)| >= 109 then Some(Data(l, k)[108]) else None
  }

  /** An initialized account that is not frozen. */
  predicate IsTokenAccount(l: Ledger, k: Pubkey, tokenProgram: Pubkey) {
    k in l && l[k].program == tokenProgram && |l[k].data| >= TOKEN_ACCOUNT_SIZE && l[k].data[108] == INITIALIZED
  }

  predicate IsMint(l: Ledger, k: Pubkey, tokenProgram: Pubkey) {
    k in l && l[k].program == tokenProgram && |l[k].data| >= MINT_SIZE && l[k].data[45] == INITIALIZED
  }

  function WithAmount(a: Account, amount: u64): Account
    requires |a.data| >= 72
  {
    a.(data := a.data[..64] + LE(amount, 8) + a.data[72..])
  }

  /**
   * `TransferChecked` of a classic token, signed by `authority`. A transfer to the same account changes nothing; no
   * account is a mint and a token account at once, as the program tells them apart by their size or type byte.
   */
  function TransferChecked(l: Ledger, tokenProgram: Pubkey, source: Pubkey, mint: Pubkey, dest: Pubkey,
                           authority: Pubkey, amount: u64, decimals: byte): Option<Ledger>
  {
    if !IsTokenAccount(l, source, tokenProgram) || !IsTokenAccount(l, dest, tokenProgram) then None
    else if mint in {source, dest} || !IsMint(l, mint, tokenProgram) || l[mint].data[44] != decimals then None
    else if ReadTokenMint(l, source) != Some(mint) || ReadTokenMint(l, dest) != Some(mint) then None
    else if ReadTokenOwner(l, source) != Some(authority) || Balance(l, source) < amount then None
    else if source == dest then Some(l)
    else if Balance(l, dest) + amount > U64_MAX then None
    else
      BalanceIsU64(l, source);
      var debited := l[source := WithAmount(l[source], Balance(l, source) - amount)];
      Some(debited[dest := WithAmount(l[dest], Balance(l, dest) + amount)])
  }

  lemma BalanceIsU64(l: Ledger, k: Pubkey)
    ensures Balance(l, k) <= U64_MAX
  {
    if |Data(l, k)| >= 72 {
      LEOfDecode(Data(l, k)[64..72]);
      Widths();
    }
  }

  // ---------------------------------------------------------------- the handler, phase by phase

  /** u128 product, floored division, truncating cast. */
  function FeeAmount(gross: nat, bps: nat): nat {
    gross * bps / BPS_DENOMINATOR % TWO_64
  }

  function SaturatingAdd(a: nat, b: nat): nat {
    if a + b > U64_MAX then U64_MAX else a + b
  }

  /** The checks before anything moves. */
  predicate Admissible(l: Ledger, c: RouteAccounts, a: RouteArgs) {
    && a.legs != [] && |a.legs| <= MAX_LEGS && a.amountIn > 0 && a.integratorFeeBps <= MAX_INTEGRATOR_FEE_BPS
    && ReadTokenMint(l, c.input) == Some(a.inputMint)
    && ReadTokenMint(l, c.output) == Some(a.outputMint)
    && c.outputMintAccount == a.outputMint
    && ReadTokenOwner(l, c.input) == Some(c.authority)
    && ReadTokenOwner(l, c.output) == Some(c.authority)
    && ReadTokenAmount(l, c.input).Some? && ReadTokenAmount(l, c.output).Some?
  }

  /** The slice of the remaining accounts that a leg names. */
  function Slice(leg: SwapLeg, infos: seq<AccountMeta>): seq<AccountMeta>
    requires leg.accountOffset + leg.accountLen <= |infos|
  {
    infos[leg.accountOffset..leg.accountOffset + leg.accountLen]
  }

  /** A leg that may be sent to its venue. */
  predicate LegAllowed(leg: SwapLeg, infos: seq<AccountMeta>) {
    && FromU8(leg.venue).Some?
    && IsAllowedSwapIx(FromU8(leg.venue).value, leg.data)
    && ProgramId(FromU8(leg.venue).value).Some?
    && leg.accountOffset + leg.accountLen <= |infos|
  }

  function RunLeg(l: Ledger, leg: SwapLeg, infos: seq<AccountMeta>, call: VenueCall): Option<Ledger> {
    if !LegAllowed(leg, infos) then None
    else call(l, ProgramId(FromU8(leg.venue).value).value, Slice(leg, infos), leg.data)
  }

  function RunLegs(l: Ledger, legs: seq<SwapLeg>, infos: seq<AccountMeta>, call: VenueCall): Option<Ledger>
    decreases |legs|
  {
    if legs == [] then Some(l)
    else
      match RunLeg(l, legs[0], infos, call)
      case None => None
      case Some(l') => RunLegs(l', legs[1..], infos, call)
  }

  /** The limit on the measured input, and that neither balance went the wrong way. */
  predicate Measured(l: Ledger, after: Ledger, c: RouteAccounts, a: RouteArgs) {
    && ReadTokenAmount(after, c.input).Some? && ReadTokenAmount(after, c.output).Some?
    && Balance(after, c.input) <= Balance(l, c.input)
    && Balance(l, c.input) - Balance(after, c.input) <= a.amountIn
    && Balance(l, c.output) <= Balance(after, c.output)
  }

  /** What the legs delivered. */
  function Received(l: Ledger, after: Ledger, c: RouteAccounts): int {
    Balance(after, c.output) - Balance(l, c.output)
  }

  /** The token program must be a real one, and the one that owns the output account. */
  predicate TrustedTokenProgram(l: Ledger, c: RouteAccounts) {
    && c.tokenProgram in {TOKEN_PROGRAM, TOKEN_2022_PROGRAM}
    && c.output in l && l[c.output].program == c.tokenProgram
    && ReadMintDecimals(l, c.outputMintAccount).Some?
  }

  function SkimProtocol(l: Ledger, c: RouteAccounts, fee: u64): Option<Ledger>
    requires ReadMintDecimals(l, c.outputMintAccount).Some?
  {
    if fee == 0 then Some(l)
    else if ReadTokenOwner(l, c.protocolFee) != Some(PROTOCOL_FEE_RECIPIENT) then None
    else TransferChecked(l, c.tokenProgram, c.output, c.outputMintAccount, c.protocolFee, c.authority, fee,
                         ReadMintDecimals(l, c.outputMintAccount).value)
  }

  function SkimIntegrator(l: Ledger, c: RouteAccounts, fee: u64, decimals: byte): Option<Ledger> {
    if fee == 0 then Some(l)
    else TransferChecked(l, c.tokenProgram, c.output, c.outputMintAccount, c.integratorFee, c.authority, fee, decimals)
  }

  /** Both fee transfers, protocol first. */
  function Skim(l: Ledger, c: RouteAccounts, protocolFee: u64, integratorFee: u64): Option<Ledger>
    requires ReadMintDecimals(l, c.outputMintAccount).Some?
  {
    match SkimProtocol(l, c, protocolFee)
    case None => None
    case Some(l') => SkimIntegrator(l', c, integratorFee, ReadMintDecimals(l, c.outputMintAccount).value)
  }

  datatype Outcome = Outcome(swapped: Ledger, final: Ledger, spent: nat, received: nat,
                             protocolFee: nat, integratorFee: nat, netOut: nat)

  /** The slippage bound, on the balance that is really left. */
  predicate KeepsMinimum(l: Ledger, final: Ledger, c: RouteAccounts, a: RouteArgs) {
    && ReadTokenAmount(final, c.output).Some?
    && Balance(final, c.output) >= Balance(l, c.output)
    && Balance(final, c.output) - Balance(l, c.output) >= a.minAmountOut
  }

  /** Given the two fees: take them if the token program can be trusted, then enforce the minimum. */
  function TakeFees(l: Ledger, after: Ledger, c: RouteAccounts, a: RouteArgs, protocolFee: u64,
                    integratorFee: u64): Option<Ledger>
  {
    if !TrustedTokenProgram(after, c) then None
    else
      match Skim(after, c, protocolFee, integratorFee)
      case None => None
      case Some(final) => if KeepsMinimum(l, final, c, a) then Some(final) else None
  }

  /** Given the measured output and its two fees: the fees cannot exceed it, and are then taken. */
  function Charge(l: Ledger, after: Ledger, c: RouteAccounts, a: RouteArgs, received: nat, protocolFee: u64,
                  integratorFee: u64): Option<Ledger>
  {
    if SaturatingAdd(protocolFee, integratorFee) > received then None
    else TakeFees(l, after, c, a, protocolFee, integratorFee)
  }

  /** What the handler reports once everything has gone through. */
  function Report(l: Ledger, after: Ledger, c: RouteAccounts, received: nat, protocolFee: u64, integratorFee: u64,
                  final: Ledger): Outcome
    requires Balance(after, c.input) <= Balance(l, c.input) && Balance(l, c.output) <= Balance(final, c.output)
  {
    Outcome(after, final, Balance(l, c.input) - Balance(after, c.input), received, protocolFee, integratorFee,
            Balance(final, c.output) - Balance(l, c.output))
  }

  /** What settling comes to, given the measured output and its two fees. */
  function SettleWith(l: Ledger, after: Ledger, c: RouteAccounts, a: RouteArgs, received: nat, protocolFee: u64,
                      integratorFee: u64): Option<Outcome>
    requires Measured(l, after, c, a)
  {
    match Charge(l, after, c, a, received, protocolFee, integratorFee)
    case None => None
    case Some(final) => Some(Report(l, after, c, received, protocolFee, integratorFee, final))
  }

  /** Fees and the slippage bound, once the legs have run. */
  function Settle(l: Ledger, after: Ledger, c: RouteAccounts, a: RouteArgs): Option<Outcome>
    requires Measured(l, after, c, a)
  {
    var received := Received(l, after, c);
    SettleWith(l, after, c, a, received, FeeAmount(received, PROTOCOL_FEE_BPS), FeeAmount(received, a.integratorFeeBps))
  }

  /** `route`: the outcome, or None where the instruction fails. */
  function RouteResult(l: Ledger, c: RouteAccounts, a: RouteArgs, call: VenueCall): Option<Outcome> {
    if !Admissible(l, c, a) then None
    else
      match RunLegs(l, a.legs, c.remaining, call)
      case None => None
      case Some(after) => if Measured(l, after, c, a) then Settle(l, after, c, a) else None
  }

  // ---------------------------------------------------------------- the instruction, on a mutable bank

  class Bank {
    var accounts: Ledger

    constructor (accounts: Ledger)
      ensures this.accounts == accounts
    {
      this.accounts := accounts;
    }

    /** One transfer by the token program. */
    method Transfer(tokenProgram: Pubkey, source: Pubkey, mint: Pubkey, dest: Pubkey, authority: Pubkey, amount: u64,
                    decimals: byte) returns (ok: bool)
      modifies this
      ensures var r := TransferChecked(old(accounts), tokenProgram, source, mint, dest, authority, amount, decimals);
              ok == r.Some? && accounts == if ok then r.value else old(accounts)
    {
      var r := TransferChecked(accounts, tokenProgram, source, mint, dest, authority, amount, decimals);
      if r.None? {
        return false;
      }
      accounts := r.value;
      return true;
    }

    /** The legs in order; a failing leg leaves the earlier ones executed. */
    method ExecuteLegs(legs: seq<SwapLeg>, infos: seq<AccountMeta>, call: VenueCall) returns (ok: bool)
      modifies this
      ensures ok == RunLegs(old(accounts), legs, infos, call).Some?
      ensures ok ==> accounts == RunLegs(old(accounts), legs, infos, call).value
    {
      for i := 0 to |legs|
        invariant RunLegs(accounts, legs[i..], infos, call) == RunLegs(old(accounts), legs, infos, call)
      {
        assert legs[i..][0] == legs[i] && legs[i..][1..] == legs[i + 1..];
        var leg := legs[i];
        var venue := FromU8(leg.venue);
        if venue.None? || !IsAllowedSwapIx(venue.value, leg.data) {
          return false;
        }
        var programId := ProgramId(venue.value);
        if programId.None? {
          return false;
        }
        var start, end := leg.accountOffset, leg.accountOffset + leg.accountLen;
        if end > |infos| {
          return false;
        }
        var r := call(accounts, programId.value, infos[start..end], leg.data);
        if r.None? {
          return false;
        }
        accounts := r.value;
      }
      return true;
    }

    /** The two fee transfers out of the output account. */
    method SkimFees(c: RouteAccounts, protocolFee: u64, integratorFee: u64) returns (ok: bool)
      requires ReadMintDecimals(accounts, c.outputMintAccount).Some?
      modifies this
      ensures ok == Skim(old(accounts), c, protocolFee, integratorFee).Some?
      ensures ok ==> accounts == Skim(old(accounts), c, protocolFee, integratorFee).value
    {
      var decimals := ReadMintDecimals(accounts, c.outputMintAccount).value;
      if protocolFee > 0 {
        if ReadTokenOwner(accounts, c.protocolFee) != Some(PROTOCOL_FEE_RECIPIENT) {
          return false;
        }
        ok := Transfer(c.tokenProgram, c.output, c.outputMintAccount, c.protocolFee, c.authority, protocolFee,
                       decimals);
        if !ok {
          return;
        }
      }
      if integratorFee > 0 {
        ok := Transfer(c.tokenProgram, c.output, c.outputMintAccount, c.integratorFee, c.authority, integratorFee,
                       decimals);
        if !ok {
          return;
        }
      }
      return true;
    }

    /** From the trusted-program check to the slippage bound on the re-read balance. */
    method TakeFeesAndCheck(ghost l: Ledger, c: RouteAccounts, a: RouteArgs, outputBefore: nat, protocolFee: u64,
                            integratorFee: u64) returns (ok: bool)
      requires outputBefore == Balance(l, c.output)
      modifies this
      ensures ok == TakeFees(l, old(accounts), c, a, protocolFee, integratorFee).Some?
      ensures ok ==> accounts == TakeFees(l, old(accounts), c, a, protocolFee, integratorFee).value
    {
      if !TrustedTokenProgram(accounts, c) {
        return false;
      }
      ok := SkimFees(c, protocolFee, integratorFee);
      if !ok {
        return;
      }
      if ReadTokenAmount(accounts, c.output).None? || Balance(accounts, c.output) < outputBefore {
        return false;
      }
      var netOut := Balance(accounts, c.output) - outputBefore;
      return netOut >= a.minAmountOut;
    }

    /** From the fee check to the slippage bound. */
    method ChargeFees(ghost l: Ledger, c: RouteAccounts, a: RouteArgs, outputBefore: nat, received: nat,
                      protocolFee: u64, integratorFee: u64) returns (ok: bool)
      requires Measured(l, accounts, c, a) && outputBefore == Balance(l, c.output)
      modifies this
      ensures ok == SettleWith(l, old(accounts), c, a, received, protocolFee, integratorFee).Some?
      ensures ok ==> accounts == SettleWith(l, old(accounts), c, a, received, protocolFee, integratorFee).value.final
    {
      if SaturatingAdd(protocolFee, integratorFee) > received {
        return false;
      }
      ok := TakeFeesAndCheck(l, c, a, outputBefore, protocolFee, integratorFee);
    }

    /** Everything after the input check: the fees on the measured output, then the slippage bound. */
    method SettleOutput(ghost l: Ledger, c: RouteAccounts, a: RouteArgs, outputBefore: nat) returns (ok: bool)
      requires Measured(l, accounts, c, a) && outputBefore == Balance(l, c.output)
      modifies this
      ensures ok == Settle(l, old(accounts), c, a).Some?
      ensures ok ==> accounts == Settle(l, old(accounts), c, a).value.final
    {
      var received := Balance(accounts, c.output) - outputBefore;
      assert received == Received(l, accounts, c);
      ok := ChargeFees(l, c, a, outputBefore, received,
                       FeeAmount(received, PROTOCOL_FEE_BPS), FeeAmount(received, a.integratorFeeBps));
    }

    /** `route`. On failure the ledger may be half changed; the runtime rolls it back. */
    method Route(c: RouteAccounts, a: RouteArgs, call: VenueCall) returns (ok: bool)
      modifies this
      ensures ok == RouteResult(old(accounts), c, a, call).Some?
      ensures ok ==> accounts == RouteResult(old(accounts), c, a, call).value.final
    {
      if !Admissible(accounts, c, a) {
        return false;
      }
      ghost var before := accounts;
      var inputBefore, outputBefore := Balance(accounts, c.input), Balance(accounts, c.output);
      ok := ExecuteLegs(a.legs, c.remaining, call);
      if !ok {
        return;
      }
      if ReadTokenAmount(accounts, c.input).None? || inputBefore < Balance(accounts, c.input) {
        return false;
      }
      var spent := inputBefore - Balance(accounts, c.input);
      if spent > a.amountIn {
        return false;
      }
      if ReadTokenAmount(accounts, c.output).None? || Balance(accounts, c.output) < outputBefore {
        return false;
      }
      ok := SettleOutput(before, c, a, outputBefore);
    }
  }
}
