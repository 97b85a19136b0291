/** The delegated trading session: its state, its configuration rules, and its four instruction handlers. */
module Sessions {
  import opened Common
  import opened Wire

  const DAY: int := 86_400
  const I64_MAX: int := 0x7FFF_FFFF_FFFF_FFFF
  const I64_MIN: int := -0x8000_0000_0000_0000

  const MAX_ALLOWED_PROGRAMS: nat := 8
  const MAX_ALLOWED_INPUT_TOKENS: nat := 16
  const MAX_ALLOWED_OUTPUT_TOKENS: nat := 16

  /** The only program a session may call: the aggregator router. */
  const ROUTER_PROGRAM_ID: Pubkey := [
    98, 37, 189, 81, 251, 21, 17, 42, 249, 57, 183, 138, 53, 51, 250, 44, 201, 135, 134, 162, 108,
    249, 9, 249, 157, 95, 159, 170, 11, 108, 231, 111]

  /** The policy the owner chooses. */
  datatype Config = Config(expiresAt: i64, maxTradeAmount: u64, dailyTradeLimit: u64,
                           programs: seq<Pubkey>, inputs: seq<Pubkey>, outputs: seq<Pubkey>)

  datatype Session = Session(owner: Pubkey, sessionKey: Pubkey, createdAt: i64, config: Config, revoked: bool,
                             volumeUsed: u64, windowStart: i64, nonce: u64)

  datatype TradeRequest = TradeRequest(signer: Pubkey, target: Pubkey, now: i64, amountIn: u64,
                                       inputMint: Pubkey, outputMint: Pubkey, expectedNonce: u64, routeData: Bytes)

  /** An owner's change of policy; None keeps the current value. */
  datatype ConfigChange = ConfigChange(expiresAt: Option<i64>, maxTradeAmount: Option<u64>,
                                       dailyTradeLimit: Option<u64>,
                                       programs: Option<seq<Pubkey>>, inputs: Option<seq<Pubkey>>,
                                       outputs: Option<seq<Pubkey>>)

  // ---------------------------------------------------------------- what the handlers compute

  /** Rust's `saturating_sub` on i64. */
  function SaturatingSub(a: i64, b: i64): i64 {
    if a - b > I64_MAX then I64_MAX else if a - b < I64_MIN then I64_MIN else a - b
  }

  function Rolled(s: Session, now: i64): Session {
    if SaturatingSub(now, s.windowStart) >= DAY then s.(windowStart := now, volumeUsed := 0) else s
  }

  /** The state `record_trade` leaves behind, and whether it succeeded; a failure may already have changed the state. */
  function Recorded(s: Session, amount: u64, now: i64): (Session, bool) {
    var r := Rolled(s, now);
    var projected := r.volumeUsed + amount;
    if projected > U64_MAX || projected > r.config.dailyTradeLimit then (r, false)
    else if r.nonce == U64_MAX then (r.(volumeUsed := projected), false)
    else (r.(volumeUsed := projected, nonce := r.nonce + 1), true)
  }

  predicate NoDuplicates(list: seq<Pubkey>) {
    forall i, j :: 0 <= i < j < |list| ==> list[i] != list[j]
  }

  predicate ValidAllowlist(list: seq<Pubkey>, max: nat) {
    list != [] && |list| <= max && NoDuplicates(list)
  }

  /** The rules that creating and updating share. */
  predicate ValidConfig(c: Config, now: i64) {
    && c.expiresAt > now
    && 0 < c.maxTradeAmount <= c.dailyTradeLimit
    && ValidAllowlist(c.programs, MAX_ALLOWED_PROGRAMS)
    && ValidAllowlist(c.inputs, MAX_ALLOWED_INPUT_TOKENS)
    && ValidAllowlist(c.outputs, MAX_ALLOWED_OUTPUT_TOKENS)
    && ROUTER_PROGRAM_ID in c.programs
  }

  function Members(list: seq<Pubkey>): set<Pubkey> {
    set k | k in list
  }

  lemma {:induction false} CountMembers(list: seq<Pubkey>)
    ensures |Members(list)| <= |list| && (|Members(list)| == |list| <==> NoDuplicates(list))
  {
    if list == [] {
      assert Members(list) == {};
    } else {
      var shorter, last := list[..|list| - 1], list[|list| - 1];
      CountMembers(shorter);
      assert Members(list) == Members(shorter) + {last};
      if last in shorter {
        assert Members(list) == Members(shorter);
      } else {
        assert last !in Members(shorter);
      }
    }
  }

  /** It expires later, has its limits in order, and lists 1 to 8 programs and twice 1 to 16 mints, each once. */
  lemma ValidConfigIff(c: Config, now: i64)
    ensures ValidConfig(c, now) <==>
              && now < c.expiresAt && 0 < c.maxTradeAmount <= c.dailyTradeLimit
              && 1 <= |c.programs| == |Members(c.programs)| <= 8 && ROUTER_PROGRAM_ID in c.programs
              && 1 <= |c.inputs| == |Members(c.inputs)| <= 16 && 1 <= |c.outputs| == |Members(c.outputs)| <= 16
  {
    CountMembers(c.programs);
    CountMembers(c.inputs);
    CountMembers(c.outputs);
  }

  function Changed(c: Config, d: ConfigChange): Config {
    Config(GetOr(d.expiresAt, c.expiresAt), GetOr(d.maxTradeAmount, c.maxTradeAmount),
           GetOr(d.dailyTradeLimit, c.dailyTradeLimit), GetOr(d.programs, c.programs),
           GetOr(d.inputs, c.inputs), GetOr(d.outputs, c.outputs))
  }

  function Created(owner: Pubkey, sessionKey: Pubkey, now: i64, c: Config): Session {
    Session(owner, sessionKey, now, c, false, 0, now, 0)
  }

  /** Everything `execute_trade` checks before it touches the accounting. */
  predicate MayTrade(s: Session, r: TradeRequest) {
    && r.signer == s.sessionKey
    && !s.revoked && r.now < s.config.expiresAt
    && r.expectedNonce == s.nonce
    && 0 < r.amountIn <= s.config.maxTradeAmount
    && r.target == ROUTER_PROGRAM_ID && r.target in s.config.programs
    && r.inputMint in s.config.inputs && r.outputMint in s.config.outputs
    && HeaderOk(r.routeData, r.inputMint, r.outputMint, r.amountIn)
  }

  // ---------------------------------------------------------------- the account

  class TradingSession {
    var owner: Pubkey
    var sessionKey: Pubkey
    var createdAt: i64
    var expiresAt: i64
    var revoked: bool
    var maxTradeAmount: u64
    var dailyTradeLimit: u64
    var dailyVolumeUsed: u64
    var dailyWindowStart: i64
    var allowedPrograms: seq<Pubkey>
    var allowedInputTokens: seq<Pubkey>
    var allowedOutputTokens: seq<Pubkey>
    var nonce: u64

    function State(): Session
      reads this
    {
      Session(owner, sessionKey, createdAt,
              Config(expiresAt, maxTradeAmount, dailyTradeLimit, allowedPrograms, allowedInputTokens,
                     allowedOutputTokens),
              revoked, dailyVolumeUsed, dailyWindowStart, nonce)
    }

    /** `create_session`, past validation. */
    constructor (owner: Pubkey, sessionKey: Pubkey, now: i64, c: Config)
      ensures State() == Created(owner, sessionKey, now, c)
    {
      this.owner := owner;
      this.sessionKey := sessionKey;
      createdAt := now;
      expiresAt := c.expiresAt;
      revoked := false;
      maxTradeAmount := c.maxTradeAmount;
      dailyTradeLimit := c.dailyTradeLimit;
      dailyVolumeUsed := 0;
      dailyWindowStart := now;
      allowedPrograms := c.programs;
      allowedInputTokens := c.inputs;
      allowedOutputTokens := c.outputs;
      nonce := 0;
    }

    /** The runtime's rollback: a failed transaction puts back the account as it was. */
    method Restore(s: Session)
      modifies this
      ensures State() == s
    {
      owner := s.owner;
      sessionKey := s.sessionKey;
      createdAt := s.createdAt;
      revoked := s.revoked;
      expiresAt := s.config.expiresAt;
      maxTradeAmount := s.config.maxTradeAmount;
      dailyTradeLimit := s.config.dailyTradeLimit;
      allowedPrograms := s.config.programs;
      allowedInputTokens := s.config.inputs;
      allowedOutputTokens := s.config.outputs;
      dailyVolumeUsed := s.volumeUsed;
      dailyWindowStart := s.windowStart;
      nonce := s.nonce;
    }

    method MaybeRollDailyWindow(now: i64)
      modifies this`dailyWindowStart, this`dailyVolumeUsed
      ensures State() == Rolled(old(State()), now)
    {
      if SaturatingSub(now, dailyWindowStart) >= DAY {
        dailyWindowStart := now;
        dailyVolumeUsed := 0;
      }
    }

    /**
     * Rolls, checks the daily limit, then counts the trade. The nonce is checked last, after the volume has
     * been written.
     */
    method RecordTrade(amount: u64, now: i64) returns (ok: bool)
      modifies this`dailyWindowStart, this`dailyVolumeUsed, this`nonce
      ensures (State(), ok) == Recorded(old(State()), amount, now)
    {
      MaybeRollDailyWindow(now);
      if dailyVolumeUsed + amount > U64_MAX {
        return false;
      }
      var projected := dailyVolumeUsed + amount;
      if projected > dailyTradeLimit {
        return false;
      }
      dailyVolumeUsed := projected;
      if nonce == U64_MAX {
        return false;
      }
      nonce := nonce + 1;
      return true;
    }

    /** `update_session`: build the candidate, validate all of it, then commit all of it. */
    method Update(signer: Pubkey, now: i64, change: ConfigChange) returns (ok: bool)
      modifies this
      ensures ok <==> old(signer == owner && !revoked && ValidConfig(Changed(State().config, change), now))
      ensures State() == if ok then old(State()).(config := Changed(old(State()).config, change)) else old(State())
    {
      if signer != owner || revoked {
        return false;
      }
      var newExpiresAt := GetOr(change.expiresAt, expiresAt);
      var newMax := GetOr(change.maxTradeAmount, maxTradeAmount);
      var newDaily := GetOr(change.dailyTradeLimit, dailyTradeLimit);
      var newPrograms := GetOr(change.programs, allowedPrograms);
      var newInputs := GetOr(change.inputs, allowedInputTokens);
      var newOutputs := GetOr(change.outputs, allowedOutputTokens);
      ok := ValidateConfig(Config(newExpiresAt, newMax, newDaily, newPrograms, newInputs, newOutputs), now);
      if !ok {
        return;
      }
      expiresAt := newExpiresAt;
      maxTradeAmount := newMax;
      dailyTradeLimit := newDaily;
      allowedPrograms := newPrograms;
      allowedInputTokens := newInputs;
      allowedOutputTokens := newOutputs;
    }

    /** `revoke_session`: a one-way latch. */
    method Revoke(signer: Pubkey) returns (ok: bool)
      modifies this`revoked
      ensures ok <==> old(signer == owner && !revoked)
      ensures State() == if ok then old(State()).(revoked := true) else old(State())
    {
      if signer != owner || revoked {
        return false;
      }
      revoked := true;
      return true;
    }

    /** `execute_trade` up to the call into the router: the checks in order, then the accounting. */
    method Authorize(r: TradeRequest) returns (ok: bool)
      modifies this`dailyWindowStart, this`dailyVolumeUsed, this`nonce
      ensures ok <==> old(MayTrade(State(), r)) && Recorded(old(State()), r.amountIn, r.now).1
      ensures State() == if old(MayTrade(State(), r)) then Recorded(old(State()), r.amountIn, r.now).0 else old(State())
    {
      if r.signer != sessionKey {
        return false;
      }
      if revoked {
        return false;
      }
      if r.now >= expiresAt {
        return false;
      }
      if r.expectedNonce != nonce {
        return false;
      }
      if r.amountIn == 0 {
        return false;
      }
      if r.amountIn > maxTradeAmount {
        return false;
      }
      if r.target != ROUTER_PROGRAM_ID {
        return false;
      }
      if r.target !in allowedPrograms {
        return false;
      }
      if r.inputMint !in allowedInputTokens {
        return false;
      }
      if r.outputMint !in allowedOutputTokens {
        return false;
      }
      var d := r.routeData;
      if |d| < 80 || d[0..8] != ROUTE_DISCRIMINATOR || d[8..40] != r.inputMint || d[40..72] != r.outputMint
         || FromLE(d[72..80]) != r.amountIn {
        return false;
      }
      ok := RecordTrade(r.amountIn, r.now);
    }
  }

  /** `validate_allowlist`. */
  method ValidateAllowlist(list: seq<Pubkey>, max: nat) returns (ok: bool)
    ensures ok <==> ValidAllowlist(list, max)
  {
    if list == [] || |list| > max {
      return false;
    }
    for i := 0 to |list|
      invariant forall k, j :: 0 <= k < i && k < j < |list| ==> list[k] != list[j]
    {
      for j := i + 1 to |list|
        invariant forall k :: i < k < j ==> list[i] != list[k]
      {
        if list[i] == list[j] {
          return false;
        }
      }
    }
    return true;
  }

  /** `validate_config`. */
  method ValidateConfig(c: Config, now: i64) returns (ok: bool)
    ensures ok <==> ValidConfig(c, now)
  {
    if c.expiresAt <= now || c.maxTradeAmount == 0 || c.dailyTradeLimit < c.maxTradeAmount {
      return false;
    }
    ok := ValidateAllowlist(c.programs, MAX_ALLOWED_PROGRAMS);
    if !ok { return; }
    ok := ValidateAllowlist(c.inputs, MAX_ALLOWED_INPUT_TOKENS);
    if !ok { return; }
    ok := ValidateAllowlist(c.outputs, MAX_ALLOWED_OUTPUT_TOKENS);
    if !ok { return; }
    ok := ROUTER_PROGRAM_ID in c.programs;
  }

  /** `create_session`: no account unless the configuration is valid. */
  method CreateSession(owner: Pubkey, sessionKey: Pubkey, now: i64, c: Config) returns (s: TradingSession?)
    ensures s != null <==> ValidConfig(c, now)
    ensures s != null ==> fresh(s) && s.State() == Created(owner, sessionKey, now, c)
  {
    var ok := ValidateConfig(c, now);
    if !ok {
      return null;
    }
    s := new TradingSession(owner, sessionKey, now, c);
  }

  // ---------------------------------------------------------------- the account fits its allocation

  /** Borsh size of the account: discriminator, fixed fields, and the three length-prefixed lists. */
  function SerializedSize(c: Config): nat {
    8 + 32 + 32 + 8 + 8 + 1 + 8 + 8 + 8 + 8
    + (4 + 32 * |c.programs|) + (4 + 32 * |c.inputs|) + (4 + 32 * |c.outputs|)
    + 8 + 1
  }

  const MAX_SIZE: nat :=
    8 + 32 + 32 + 8 + 8 + 1 + 8 + 8 + 8 + 8
    + (4 + 32 * MAX_ALLOWED_PROGRAMS) + (4 + 32 * MAX_ALLOWED_INPUT_TOKENS) + (4 + 32 * MAX_ALLOWED_OUTPUT_TOKENS)
    + 8 + 1
}
