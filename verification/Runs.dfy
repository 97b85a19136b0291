/** Whole runs: a session and the bank it trades on, through every sequence of transactions. */
module Runs {
  import opened Common
  import opened Wire
  import opened RouterProgram
  import opened RouterGuarantees
  import opened Sessions
  import opened TradeHistory

  datatype World = World(session: Session, ledger: Ledger)

  /** A transaction on the session, or anything at all that happens to the bank in between. */
  datatype Op =
    | Update(signer: Pubkey, now: i64, change: ConfigChange)
    | Revoke(signer: Pubkey, now: i64)
    | Execute(r: TradeRequest, c: RouteAccounts, call: VenueCall)
    | Elsewhere(ledger: Ledger)

  /** `execute_trade` as one atomic transaction: None where it fails and is rolled back. */
  function TradeResult(w: World, r: TradeRequest, c: RouteAccounts, call: VenueCall): Option<(World, Trade)> {
    var (s', recorded) := Recorded(w.session, r.amountIn, r.now);
    if !MayTrade(w.session, r) || !recorded then None
    else
      match DecodeRoute(r.routeData)
      case None => None
      case Some(d) =>
        match RouteResult(w.ledger, c, d.0, call)
        case None => None
        case Some(o) =>
          Some((World(s', o.final),
                Trade(r.now, r.amountIn, r.expectedNonce, w.session.config.maxTradeAmount,
                      w.session.config.dailyTradeLimit,
                      s'.windowStart, s'.volumeUsed, o.spent)))
  }

  /** What a transaction does when every part of it succeeds. */
  lemma TradeGoesThrough(w: World, r: TradeRequest, c: RouteAccounts, a: RouteArgs, call: VenueCall, s': Session,
                         o: Outcome)
    requires MayTrade(w.session, r) && Recorded(w.session, r.amountIn, r.now) == (s', true)
    requires DecodeRoute(r.routeData) == Some((a, [])) && RouteResult(w.ledger, c, a, call) == Some(o)
    ensures TradeResult(w, r, c, call)
         == Some((World(s', o.final),
                  Trade(r.now, r.amountIn, r.expectedNonce, w.session.config.maxTradeAmount,
                        w.session.config.dailyTradeLimit, s'.windowStart, s'.volumeUsed, o.spent)))
  {
  }

  predicate UpdateAccepted(s: Session, signer: Pubkey, now: i64, change: ConfigChange) {
    signer == s.owner && !s.revoked && ValidConfig(Changed(s.config, change), now)
  }

  /** A given value is set, a missing one keeps what was there. */
  predicate SetOrKept<T(==)>(change: Option<T>, before: T, after: T) {
    match change
    case Some(v) => after == v
    case None => after == before
  }

  /** An accepted update sets exactly the values it gives; any other leaves the session alone. */
  lemma UpdateSetsWhatIsGiven(w: World, signer: Pubkey, now: i64, change: ConfigChange)
    ensures var s, s' := w.session, Step(w, Update(signer, now, change)).0.session;
            && s'.(config := s.config) == s
            && (signer != s.owner || s.revoked || !ValidConfig(Changed(s.config, change), now) ==> s' == s)
            && (signer == s.owner && !s.revoked && ValidConfig(Changed(s.config, change), now) ==>
                  && ValidConfig(s'.config, now)
                  && SetOrKept(change.expiresAt, s.config.expiresAt, s'.config.expiresAt)
                  && SetOrKept(change.maxTradeAmount, s.config.maxTradeAmount, s'.config.maxTradeAmount)
                  && SetOrKept(change.dailyTradeLimit, s.config.dailyTradeLimit, s'.config.dailyTradeLimit)
                  && SetOrKept(change.programs, s.config.programs, s'.config.programs)
                  && SetOrKept(change.inputs, s.config.inputs, s'.config.inputs)
                  && SetOrKept(change.outputs, s.config.outputs, s'.config.outputs))
  {
  }

  predicate RevokeAccepted(s: Session, signer: Pubkey) {
    signer == s.owner && !s.revoked
  }

  /** One transaction: the new world, and the trade if one was accepted. */
  function Step(w: World, op: Op): (World, seq<Trade>) {
    match op
    case Update(signer, now, change) =>
      (if UpdateAccepted(w.session, signer, now, change)
       then w.(session := w.session.(config := Changed(w.session.config, change))) else w, [])
    case Revoke(signer, _) =>
      (if RevokeAccepted(w.session, signer) then w.(session := w.session.(revoked := true)) else w, [])
    case Execute(r, c, call) =>
      (match TradeResult(w, r, c, call)
       case None => (w, [])
       case Some(t) => (t.0, [t.1]))
    case Elsewhere(l) => (w.(ledger := l), [])
  }

  function Run(w: World, ops: seq<Op>): World {
    if ops == [] then w else Step(Run(w, ops[..|ops| - 1]), ops[|ops| - 1]).0
  }

  /** The accepted trades of a run, in order. */
  function History(w: World, ops: seq<Op>): seq<Trade> {
    if ops == [] then []
    else History(w, ops[..|ops| - 1]) + Step(Run(w, ops[..|ops| - 1]), ops[|ops| - 1]).1
  }

  lemma {:induction false} RunAppend(w: World, ops: seq<Op>, op: Op)
    ensures Run(w, ops + [op]) == Step(Run(w, ops), op).0
    ensures History(w, ops + [op]) == History(w, ops) + Step(Run(w, ops), op).1
  {
    assert (ops + [op])[..|ops + [op]| - 1] == ops;
  }

  /** The latest clock reading, starting from `start`. */
  function Clock(start: i64, ops: seq<Op>): i64 {
    if ops == [] then start
    else
      match ops[|ops| - 1]
      case Update(_, now, _) => now
      case Revoke(_, now) => now
      case Execute(r, _, _) => r.now
      case Elsewhere(_) => Clock(start, ops[..|ops| - 1])
  }

  /** The chain's clock never goes back. */
  predicate ClockNeverGoesBack(start: i64, ops: seq<Op>) {
    ops != [] ==>
      && ClockNeverGoesBack(start, ops[..|ops| - 1])
      && Clock(start, ops[..|ops| - 1]) <= Clock(start, ops)
  }

  // ---------------------------------------------------------------- the transaction on the real accounts

  /** `execute_trade` with the runtime's rollback: on any failure both accounts are as they were. */
  method ExecuteTrade(session: TradingSession, bank: Bank, r: TradeRequest, c: RouteAccounts, call: VenueCall)
    returns (ok: bool)
    modifies session, bank
    ensures ok == TradeResult(old(World(session.State(), bank.accounts)), r, c, call).Some?
    ensures ok ==>
              World(session.State(), bank.accounts)
              == TradeResult(old(World(session.State(), bank.accounts)), r, c, call).value.0
    ensures !ok ==> World(session.State(), bank.accounts) == old(World(session.State(), bank.accounts))
  {
    var session0, bank0 := session.State(), bank.accounts;
    ok := session.Authorize(r);
    if ok {
      var d := DecodeRoute(r.routeData);
      if d.None? {
        ok := false;
      } else {
        ok := bank.Route(c, d.value.0, call);
      }
    }
    if !ok {
      session.Restore(session0);
      bank.accounts := bank0;
    }
  }

  /**
   * Why the rollback is needed: a failing `record_trade` leaves the state alone unless a window rolled or
   * only the nonce overflowed.
   */
  lemma FailedRecordIsCleanIff(s: Session, amount: u64, now: i64)
    requires !Recorded(s, amount, now).1 && 0 < amount
    ensures Recorded(s, amount, now).0 == s <==>
              && Rolled(s, now) == s
              && (s.volumeUsed + amount > U64_MAX || s.volumeUsed + amount > s.config.dailyTradeLimit)
  {
  }

  // ---------------------------------------------------------------- what every step keeps

  /** Limits and allowlists are always well formed; only the expiry may have passed. */
  predicate WellConfigured(c: Config) {
    && 0 < c.maxTradeAmount <= c.dailyTradeLimit
    && ValidAllowlist(c.programs, MAX_ALLOWED_PROGRAMS)
    && ValidAllowlist(c.inputs, MAX_ALLOWED_INPUT_TOKENS)
    && ValidAllowlist(c.outputs, MAX_ALLOWED_OUTPUT_TOKENS)
    && ROUTER_PROGRAM_ID in c.programs
  }

  /** The state agrees with the history: counters, windows and volumes. No assumption about the clock is needed. */
  ghost predicate Consistent(s: Session, h: seq<Trade>) {
    && s.nonce == |h|
    && (forall i :: 0 <= i < |h| ==> h[i].nonce == i)
    && Tumbling(h)
    && s.volumeUsed == WindowVolume(h, s.windowStart)
    && (forall i :: 0 <= i < |h| ==> h[i].window == s.windowStart || h[i].window + DAY <= s.windowStart)
  }

  lemma {:induction false} FreshWindowIsEmpty(h: seq<Trade>, w: int)
    requires forall i :: 0 <= i < |h| ==> h[i].window != w
    ensures WindowVolume(h, w) == 0
  {
    if h != [] {
      FreshWindowIsEmpty(h[..|h| - 1], w);
    }
  }

  /** Rolling the window keeps the state in agreement with the history. */
  lemma RollKeepsConsistent(s: Session, h: seq<Trade>, now: i64)
    requires Consistent(s, h)
    ensures Consistent(Rolled(s, now), h)
    ensures now < Rolled(s, now).windowStart + DAY
    ensures s.windowStart <= now ==> Rolled(s, now).windowStart <= now
  {
    if SaturatingSub(now, s.windowStart) >= DAY {
      forall i | 0 <= i < |h| ensures h[i].window != now && h[i].window + DAY <= now {
      }
      FreshWindowIsEmpty(h, now);
    }
  }

  /** Appending the recorded trade keeps it too. */
  lemma TradeKeepsConsistent(s: Session, h: seq<Trade>, t: Trade)
    requires Consistent(s, h) && t.time < s.windowStart + DAY
    requires t.window == s.windowStart && t.nonce == s.nonce < U64_MAX
    requires t.volumeAfter == s.volumeUsed + t.amount <= t.dailyTradeLimit && t.spent <= t.amount <= t.maxTradeAmount
    ensures Consistent(s.(volumeUsed := t.volumeAfter, nonce := s.nonce + 1), h + [t])
  {
    TumblingAppend(h, t);
    WindowVolumeAppend(h, t);
  }

  /** An accepted trade obeys every limit, and its measured spend is within its amount. */
  lemma AcceptedTrade(w: World, r: TradeRequest, c: RouteAccounts, call: VenueCall)
    requires TradeResult(w, r, c, call).Some?
    ensures var (w', t) := TradeResult(w, r, c, call).value;
            && MayTrade(w.session, r)
            && t.spent <= t.amount == r.amountIn <= t.maxTradeAmount == w.session.config.maxTradeAmount
            && t.time == r.now && t.nonce == w.session.nonce
            && t.window == w'.session.windowStart && t.volumeAfter == w'.session.volumeUsed
            && t.dailyTradeLimit == w.session.config.dailyTradeLimit
            && (w'.session, true) == Recorded(w.session, r.amountIn, r.now)
  {
    var args := DecodeRoute(r.routeData).value.0;
    HeaderBindsExactly(r.routeData, r.inputMint, r.outputMint, r.amountIn);
    RouteIsSafe(w.ledger, c, args, call);
  }

  lemma TradeStepKeepsConsistent(w: World, h: seq<Trade>, r: TradeRequest, c: RouteAccounts, call: VenueCall)
    requires Consistent(w.session, h) && TradeResult(w, r, c, call).Some?
    ensures var p := TradeResult(w, r, c, call).value;
            && Consistent(p.0.session, h + [p.1])
            && p.1.time == r.now && p.1.window == p.0.session.windowStart
            && (w.session.windowStart <= r.now ==> p.0.session.windowStart <= r.now)
  {
    AcceptedTrade(w, r, c, call);
    RollKeepsConsistent(w.session, h, r.now);
    TradeKeepsConsistent(Rolled(w.session, r.now), h, TradeResult(w, r, c, call).value.1);
  }

  lemma StepKeepsConsistent(w: World, h: seq<Trade>, op: Op)
    requires Consistent(w.session, h)
    ensures Consistent(Step(w, op).0.session, h + Step(w, op).1)
  {
    assert h + [] == h;
    if op.Execute? {
      if TradeResult(w, op.r, op.c, op.call).Some? {
        TradeStepKeepsConsistent(w, h, op.r, op.c, op.call);
      }
    }
  }

  /** In every run of a session that has not traded yet, the state agrees with the history. */
  lemma {:induction false} RunsAreConsistent(w: World, ops: seq<Op>)
    requires w.session.nonce == w.session.volumeUsed == 0
    ensures Consistent(Run(w, ops).session, History(w, ops))
  {
    if ops != [] {
      var before := ops[..|ops| - 1];
      RunsAreConsistent(w, before);
      StepKeepsConsistent(Run(w, before), History(w, before), ops[|ops| - 1]);
    }
  }

  lemma StepKeepsTime(w: World, h: seq<Trade>, clock: i64, op: Op)
    requires Consistent(w.session, h) && OnTime(h) && w.session.windowStart <= clock
    requires op.Execute? ==> clock <= op.r.now
    ensures OnTime(h + Step(w, op).1)
    ensures Step(w, op).0.session.windowStart <= if op.Execute? then op.r.now else clock
  {
    if op.Execute? {
      if TradeResult(w, op.r, op.c, op.call).Some? {
        TradeStepKeepsConsistent(w, h, op.r, op.c, op.call);
        OnTimeAppend(h, TradeResult(w, op.r, op.c, op.call).value.1);
      }
    }
  }

  /** With a clock that never goes back, every trade falls into the window it is counted in. */
  lemma {:induction false} RunsAreOnTime(w: World, start: i64, ops: seq<Op>)
    requires w.session.nonce == w.session.volumeUsed == 0 && w.session.windowStart <= start
    requires ClockNeverGoesBack(start, ops)
    ensures OnTime(History(w, ops)) && Run(w, ops).session.windowStart <= Clock(start, ops)
  {
    if ops != [] {
      var before := ops[..|ops| - 1];
      RunsAreOnTime(w, start, before);
      RunsAreConsistent(w, before);
      StepKeepsTime(Run(w, before), History(w, before), Clock(start, before), ops[|ops| - 1]);
    }
  }

  // ---------------------------------------------------------------- main results over runs

  /** A world in which the session has just been created. */
  ghost predicate JustCreated(w: World, owner: Pubkey, key: Pubkey, now: i64, c: Config) {
    w.session == Created(owner, key, now, c) && ValidConfig(c, now)
  }

  /** Replay protection: the nonce counts the accepted trades, and their nonces are 0, 1, 2, ... in order. */
  lemma {:induction false} NonceCountsTrades(w: World, owner: Pubkey, key: Pubkey, now: i64, c: Config, ops: seq<Op>)
    requires JustCreated(w, owner, key, now, c)
    ensures Run(w, ops).session.nonce == |History(w, ops)|
    ensures forall i :: 0 <= i < |History(w, ops)| ==> History(w, ops)[i].nonce == i
  {
    RunsAreConsistent(w, ops);
  }

  /** Any `k` days hold at most `k + 1` times the largest daily limit under which a trade in them was made. */
  lemma VolumeIsLimited(w: World, owner: Pubkey, key: Pubkey, now: i64, c: Config, ops: seq<Op>, lo: int, k: nat,
                        m: nat)
    requires JustCreated(w, owner, key, now, c) && ClockNeverGoesBack(now, ops)
    requires LimitedIn(History(w, ops), lo, lo + k * 86_400, m)
    ensures VolumeIn(History(w, ops), lo, lo + k * 86_400) <= (k + 1) * m
  {
    RunsAreConsistent(w, ops);
    RunsAreOnTime(w, now, ops);
    RateLimit(History(w, ops), lo, k, m);
  }

  lemma {:induction false} SpentWithinRun(w: World, owner: Pubkey, key: Pubkey, now: i64, c: Config, ops: seq<Op>,
                                          lo: int, hi: int)
    requires JustCreated(w, owner, key, now, c)
    ensures SpentIn(History(w, ops), lo, hi) <= VolumeIn(History(w, ops), lo, hi)
  {
    RunsAreConsistent(w, ops);
    SpentWithinInterval(History(w, ops), lo, hi);
  }

  /** So is what the declared input accounts really lose; `UserFunds` has the user's other accounts. */
  lemma SpendIsLimited(w: World, owner: Pubkey, key: Pubkey, now: i64, c: Config, ops: seq<Op>, lo: int, k: nat, m: nat)
    requires JustCreated(w, owner, key, now, c) && ClockNeverGoesBack(now, ops)
    requires LimitedIn(History(w, ops), lo, lo + k * 86_400, m)
    ensures SpentIn(History(w, ops), lo, lo + k * 86_400) <= (k + 1) * m
  {
    VolumeIsLimited(w, owner, key, now, c, ops, lo, k, m);
    SpentWithinRun(w, owner, key, now, c, ops, lo, lo + k * DAY);
  }

  /**
   * What the declared input accounts really lost in a window is within the volume counted, itself within
   * the limit then in force.
   */
  lemma {:induction false} SpendIsCounted(w: World, owner: Pubkey, key: Pubkey, now: i64, c: Config, ops: seq<Op>)
    requires JustCreated(w, owner, key, now, c)
    ensures var s, h := Run(w, ops).session, History(w, ops);
            && WindowSpent(h, s.windowStart) <= s.volumeUsed == WindowVolume(h, s.windowStart)
            && forall i :: 0 <= i < |h| ==>
                 && h[i].spent <= h[i].amount <= h[i].maxTradeAmount
                 && WindowSpent(h[..i + 1], h[i].window) <= h[i].volumeAfter <= h[i].dailyTradeLimit
  {
    RunsAreConsistent(w, ops);
    var s, h := Run(w, ops).session, History(w, ops);
    SpentWithinVolume(h, s.windowStart);
    forall i | 0 <= i < |h| ensures WindowSpent(h[..i + 1], h[i].window) <= h[i].volumeAfter {
      TumblingTake(h, i + 1);
      SpentWithinVolume(h[..i + 1], h[i].window);
    }
  }

  lemma {:induction false} TumblingTake(h: seq<Trade>, n: nat)
    requires Tumbling(h) && n <= |h|
    ensures Tumbling(h[..n])
    decreases |h|
  {
    if n == |h| {
      assert h[..n] == h;
    } else {
      TumblingPrefix(h);
      TumblingTake(h[..|h| - 1], n);
      assert h[..|h| - 1][..n] == h[..n];
    }
  }

  /** The volume that still counts at `now`: a window ends after a day. */
  function StillUsed(s: Session, now: int): int {
    if now - s.windowStart >= 86_400 then 0 else s.volumeUsed
  }

  /**
   * A trade goes through exactly if the session key signs it for a live session, with the next nonce, an amount within
   * both limits, the router as an allowed target and allowed mints; its data decodes to those mints and that amount;
   * and the router succeeds on it.
   */
  lemma TradeAcceptedIff(w: World, r: TradeRequest, c: RouteAccounts, call: VenueCall)
    ensures var s := w.session;
            TradeResult(w, r, c, call).Some? <==>
              && r.signer == s.sessionKey && !s.revoked && r.now < s.config.expiresAt
              && r.expectedNonce == s.nonce < 0xFFFF_FFFF_FFFF_FFFF
              && 0 < r.amountIn <= s.config.maxTradeAmount
              && StillUsed(s, r.now) + r.amountIn <= s.config.dailyTradeLimit
              && r.target == ROUTER_PROGRAM_ID && r.target in s.config.programs
              && r.inputMint in s.config.inputs && r.outputMint in s.config.outputs
              && DecodeRoute(r.routeData).Some?
              && var args := DecodeRoute(r.routeData).value.0;
              && args.inputMint == r.inputMint && args.outputMint == r.outputMint && args.amountIn == r.amountIn
              && RouteResult(w.ledger, c, args, call).Some?
  {
    if DecodeRoute(r.routeData).Some? {
      HeaderBindsExactly(r.routeData, r.inputMint, r.outputMint, r.amountIn);
    }
    RecordedIff(w.session, r.amountIn, r.now);
  }

  lemma RecordedIff(s: Session, amount: u64, now: i64)
    ensures Recorded(s, amount, now).1 <==>
              s.nonce < 0xFFFF_FFFF_FFFF_FFFF && StillUsed(s, now) + amount <= s.config.dailyTradeLimit
    ensures Recorded(s, amount, now).1 ==>
              Recorded(s, amount, now).0
              == s.(volumeUsed := StillUsed(s, now) + amount, nonce := s.nonce + 1,
                    windowStart := if now - s.windowStart >= 86_400 then now else s.windowStart)
  {
  }

  /** And this is what it leaves behind, and what the history keeps of it. */
  lemma TradeLeaves(w: World, r: TradeRequest, c: RouteAccounts, call: VenueCall)
    requires TradeResult(w, r, c, call).Some?
    ensures var s, (w', t) := w.session, TradeResult(w, r, c, call).value;
            var o := RouteResult(w.ledger, c, DecodeRoute(r.routeData).value.0, call).value;
            && w'.ledger == o.final
            && w'.session == s.(volumeUsed := StillUsed(s, r.now) + r.amountIn, nonce := s.nonce + 1,
                                windowStart := if r.now - s.windowStart >= 86_400 then r.now else s.windowStart)
            && t == Trade(r.now, r.amountIn, s.nonce, s.config.maxTradeAmount, s.config.dailyTradeLimit,
                          w'.session.windowStart, w'.session.volumeUsed, o.spent)
  {
    RecordedIff(w.session, r.amountIn, r.now);
  }

  /** A trade changes nothing of the session but its accounting, and needs it not to be revoked. */
  lemma TradeFrame(w: World, r: TradeRequest, c: RouteAccounts, call: VenueCall)
    ensures var s, s' := w.session, Step(w, Execute(r, c, call)).0.session;
            && s'.owner == s.owner && s'.sessionKey == s.sessionKey && s'.createdAt == s.createdAt
            && s'.config == s.config && s'.revoked == s.revoked
            && (s.revoked ==> Step(w, Execute(r, c, call)) == (w, []))
  {
  }

  /** Owner, session key and creation time never change, and the account never outgrows its allocation. */
  lemma {:induction false} IdentityIsFixed(w: World, ops: seq<Op>)
    ensures var s := Run(w, ops).session;
            s.owner == w.session.owner && s.sessionKey == w.session.sessionKey && s.createdAt == w.session.createdAt
    ensures WellConfigured(w.session.config) ==> SerializedSize(Run(w, ops).session.config) <= MAX_SIZE
    ensures WellConfigured(w.session.config) ==> WellConfigured(Run(w, ops).session.config)
  {
    if ops != [] {
      IdentityIsFixed(w, ops[..|ops| - 1]);
      var op := ops[|ops| - 1];
      if op.Execute? {
        TradeFrame(Run(w, ops[..|ops| - 1]), op.r, op.c, op.call);
      }
    }
  }

  /** Once revoked, nothing ever happens to the session again. */
  lemma {:induction false} RevocationIsFinal(w: World, ops: seq<Op>)
    requires w.session.revoked
    ensures Run(w, ops).session == w.session && History(w, ops) == []
  {
    if ops != [] {
      RevocationIsFinal(w, ops[..|ops| - 1]);
      var op := ops[|ops| - 1];
      if op.Execute? {
        TradeFrame(Run(w, ops[..|ops| - 1]), op.r, op.c, op.call);
      }
    }
  }

  /** Whoever signs, short of the owner, cannot change the policy or the revocation. */
  lemma {:induction false} OnlyTheOwnerChangesPolicy(w: World, ops: seq<Op>)
    requires forall i :: 0 <= i < |ops| ==>
               && (ops[i].Update? ==> ops[i].signer != w.session.owner)
               && (ops[i].Revoke? ==> ops[i].signer != w.session.owner)
    ensures Run(w, ops).session.config == w.session.config && Run(w, ops).session.revoked == w.session.revoked
    ensures Run(w, ops).session.owner == w.session.owner
  {
    if ops != [] {
      OnlyTheOwnerChangesPolicy(w, ops[..|ops| - 1]);
      var op := ops[|ops| - 1];
      if op.Execute? {
        TradeFrame(Run(w, ops[..|ops| - 1]), op.r, op.c, op.call);
      }
    }
  }

  /** One accepted trade, end to end: the router moved what the session checked, no more in and no less out. */
  lemma TradeIsBound(w: World, r: TradeRequest, c: RouteAccounts, call: VenueCall)
    requires TradeResult(w, r, c, call).Some?
    ensures var w' := TradeResult(w, r, c, call).value.0;
            var args := DecodeRoute(r.routeData).value.0;
            && r.signer == w.session.sessionKey && !w.session.revoked && r.now < w.session.config.expiresAt
            && args.inputMint == r.inputMint && r.inputMint in w.session.config.inputs
            && args.outputMint == r.outputMint && r.outputMint in w.session.config.outputs
            && args.amountIn == r.amountIn <= w.session.config.maxTradeAmount
            && ReadTokenMint(w.ledger, c.input) == Some(r.inputMint)
            && ReadTokenMint(w.ledger, c.output) == Some(r.outputMint)
            && Balance(w'.ledger, c.input) >= Balance(w.ledger, c.input) - r.amountIn
            && Balance(w'.ledger, c.output) >= Balance(w.ledger, c.output) + args.minAmountOut
  {
    HeaderBindsExactly(r.routeData, r.inputMint, r.outputMint, r.amountIn);
    RouteIsSafe(w.ledger, c, DecodeRoute(r.routeData).value.0, call);
  }
}
