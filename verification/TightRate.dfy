/** Runs that use the rate limit to the full: no smaller bound than (k + 1) daily limits holds for k days. */
module TightRate {
  import opened Common
  import opened Wire
  import opened RouterProgram
  import opened Sessions
  import opened TradeHistory
  import opened Runs
  import opened SwapExample

  // ---------------------------------------------------------------- from any trade that can be repeated

  /** A fresh session, its ledger, and a route for the whole daily limit that spends `spent`. */
  datatype Setting = Setting(w: World, c: RouteAccounts, a: RouteArgs, call: VenueCall, spent: nat)

  /** The ledger after the route has been taken `n` times. */
  function LedgerAt(x: Setting, n: nat): Ledger {
    if n == 0 then x.w.ledger else Onward(x, LedgerAt(x, n - 1))
  }

  /** The ledger that the route leaves. */
  function Onward(x: Setting, l: Ledger): Ledger {
    match RouteResult(l, x.c, x.a, x.call)
    case Some(o) => o.final
    case None => l
  }

  ghost predicate GoesThrough(x: Setting, l: Ledger) {
    RouteResult(l, x.c, x.a, x.call).Some? && RouteResult(l, x.c, x.a, x.call).value.spent == x.spent
  }

  /** The session allows the trade, as far as its policy goes. */
  ghost predicate Allowed(x: Setting) {
    var s := x.w.session;
    && FitsBorsh(x.a)
    && s == Created(s.owner, s.sessionKey, 0, s.config) && ValidConfig(s.config, 0)
    && s.config.maxTradeAmount == s.config.dailyTradeLimit == x.a.amountIn
    && x.a.inputMint in s.config.inputs && x.a.outputMint in s.config.outputs
  }

  /** The session lives long enough, and the balances and the venue are good, for the trades 0 to `k`. */
  ghost predicate Repeatable(x: Setting, k: nat) {
    && Allowed(x) && TimeOf(k) < x.w.session.config.expiresAt
    && forall n :: 0 <= n <= k ==> GoesThrough(x, LedgerAt(x, n))
  }

  /** Trade number `n`, for the full limit. */
  function TradeAt(x: Setting, n: u64, now: i64): Op {
    Execute(TradeRequest(x.w.session.sessionKey, ROUTER_PROGRAM_ID, now, x.a.amountIn, x.a.inputMint, x.a.outputMint, n,
                         EncodeArgs(x.a)),
            x.c, x.call)
  }

  /** When trade number `n` is made: at the very end of the first day, then at the start of every later one. */
  function TimeOf(n: nat): int {
    if n == 0 then DAY - 1 else n * DAY
  }

  predicate Representable(n: nat) {
    TimeOf(n) < I64_MAX && n < U64_MAX
  }

  function TightRun(x: Setting, n: nat): (ops: seq<Op>)
    requires Representable(n)
    ensures |ops| == n + 1 && forall i :: 0 <= i <= n ==> ops[i] == TradeAt(x, i, TimeOf(i))
  {
    if n == 0 then [TradeAt(x, 0, TimeOf(0))] else TightRun(x, n - 1) + [TradeAt(x, n, TimeOf(n))]
  }

  /** The session after trade number `n`. */
  function SessionAfter(x: Setting, n: nat): Session
    requires Representable(n)
  {
    x.w.session.(volumeUsed := x.a.amountIn, windowStart := n * DAY, nonce := n + 1)
  }

  /** The session part of a full trade, whenever the window is empty. */
  ghost predicate Ready(x: Setting, s: Session, n: nat, now: i64) {
    && s.sessionKey == x.w.session.sessionKey && s.config == x.w.session.config && !s.revoked && s.nonce == n
    && Rolled(s, now).volumeUsed == 0
  }

  lemma FullTradeIsAllowed(x: Setting, s: Session, n: u64, now: i64)
    requires Allowed(x) && now < s.config.expiresAt && Ready(x, s, n, now)
    ensures MayTrade(s, TradeAt(x, n, now).r) && DecodeRoute(EncodeArgs(x.a)) == Some((x.a, []))
  {
    var d := EncodeArgs(x.a);
    DecodeOfEncode(x.a, []);
    assert d + [] == d;
    HeaderBindsExactly(d, x.a.inputMint, x.a.outputMint, x.a.amountIn);
  }

  lemma FullTradeIsRecorded(x: Setting, s: Session, n: u64, now: i64)
    requires x.w.session.config.dailyTradeLimit == x.a.amountIn && Ready(x, s, n, now) && n < U64_MAX
    ensures Recorded(s, x.a.amountIn, now) == (Rolled(s, now).(volumeUsed := x.a.amountIn, nonce := n + 1), true)
  {
  }

  /** One transaction that leads from `w` to `w'` and makes trade `t`. */
  ghost predicate Follows(w: World, op: Op, w': World, t: Trade) {
    Step(w, op) == (w', [t])
  }

  /** What trade number `n` leaves in the history. */
  function TradeMade(x: Setting, n: u64, now: i64, window: i64): Trade {
    var limit := x.a.amountIn;
    Trade(now, limit, n, limit, limit, window, limit, x.spent)
  }

  /** A trade for the full limit, whenever the window is empty. */
  lemma FullTradeIsAccepted(x: Setting, w: World, n: u64, now: i64)
    requires Allowed(x) && GoesThrough(x, w.ledger) && Ready(x, w.session, n, now)
    requires now < w.session.config.expiresAt && n < U64_MAX
    ensures Follows(w, TradeAt(x, n, now),
                    World(Rolled(w.session, now).(volumeUsed := x.a.amountIn, nonce := n + 1), Onward(x, w.ledger)),
                    TradeMade(x, n, now, Rolled(w.session, now).windowStart))
  {
    FullTradeIsAllowed(x, w.session, n, now);
    FullTradeIsRecorded(x, w.session, n, now);
    TradeGoesThrough(w, TradeAt(x, n, now).r, x.c, x.a, x.call,
                     Rolled(w.session, now).(volumeUsed := x.a.amountIn, nonce := n + 1),
                     RouteResult(w.ledger, x.c, x.a, x.call).value);
  }

  lemma {:induction false} TightRunKeepsTime(x: Setting, n: nat)
    requires Representable(n)
    ensures ClockNeverGoesBack(0, TightRun(x, n)) && Clock(0, TightRun(x, n)) == TimeOf(n)
  {
    var ops := TightRun(x, n);
    assert ops[..|ops| - 1] == if n == 0 then [] else TightRun(x, n - 1);
    if n > 0 {
      TightRunKeepsTime(x, n - 1);
    }
  }

  /** The session before trade number `n`. */
  function SessionBefore(x: Setting, n: nat): Session
    requires n == 0 || Representable(n - 1)
  {
    if n == 0 then x.w.session else SessionAfter(x, n - 1)
  }

  function WorldBefore(x: Setting, n: nat): World
    requires n == 0 || Representable(n - 1)
  {
    World(SessionBefore(x, n), LedgerAt(x, n))
  }

  /** Before each trade the window is empty, and recording the trade leads to the next session. */
  lemma ReadyBefore(x: Setting, n: nat)
    requires Representable(n) && (n > 0 ==> Representable(n - 1))
    requires x.w.session == Created(x.w.session.owner, x.w.session.sessionKey, 0, x.w.session.config)
    ensures var s := SessionBefore(x, n);
            && Ready(x, s, n, TimeOf(n)) && Rolled(s, TimeOf(n)).windowStart == n * DAY
            && Rolled(s, TimeOf(n)).(volumeUsed := x.a.amountIn, nonce := n + 1) == SessionBefore(x, n + 1)
  {
  }

  /** Trade number `n` is accepted, and leads to the world before the next one. */
  lemma TightStep(x: Setting, w: World, n: u64, now: i64, window: i64)
    requires Representable(n) && (n > 0 ==> Representable(n - 1))
    requires now == TimeOf(n) && window == n * DAY
    requires Allowed(x) && GoesThrough(x, w.ledger) && now < x.w.session.config.expiresAt
    requires w.session == SessionBefore(x, n)
    ensures Follows(w, TradeAt(x, n, now), World(SessionAfter(x, n), Onward(x, w.ledger)), TradeMade(x, n, now, window))
  {
    ReadyBefore(x, n);
    FullTradeIsAccepted(x, w, n, now);
  }

  /** A chain of transactions is a run, and its trades are the run's history. */
  lemma {:induction false} ChainIsRun(ops: seq<Op>, worlds: seq<World>, h: seq<Trade>)
    requires |worlds| == |ops| + 1 && |h| == |ops|
    requires forall i :: 0 <= i < |ops| ==> Follows(worlds[i], ops[i], worlds[i + 1], h[i])
    ensures Run(worlds[0], ops) == worlds[|ops|] && History(worlds[0], ops) == h
  {
    if ops != [] {
      var last := |ops| - 1;
      ChainIsRun(ops[..last], worlds[..last + 1], h[..last]);
      assert Follows(worlds[last], ops[last], worlds[last + 1], h[last]);
    }
  }

  lemma {:induction false} VolumeOfAll(h: seq<Trade>, lo: int, hi: int, m: int)
    requires forall i :: 0 <= i < |h| ==> lo <= h[i].time < hi && h[i].amount == m
    ensures VolumeIn(h, lo, hi) == |h| * m
  {
    if h != [] {
      VolumeOfAll(h[..|h| - 1], lo, hi, m);
    }
  }

  lemma {:induction false} SpendingOfAll(h: seq<Trade>, lo: int, hi: int, m: int)
    requires forall i :: 0 <= i < |h| ==> lo <= h[i].time < hi && h[i].spent == m
    ensures SpentIn(h, lo, hi) == |h| * m
  {
    if h != [] {
      SpendingOfAll(h[..|h| - 1], lo, hi, m);
    }
  }

  /** The history of `TightRun`. */
  function TightTrades(x: Setting, n: nat): (h: seq<Trade>)
    requires Representable(n)
    ensures |h| == n + 1 && forall i :: 0 <= i <= n ==> h[i] == TradeMade(x, i, TimeOf(i), i * DAY)
  {
    var t := TradeMade(x, n, TimeOf(n), n * DAY);
    if n == 0 then [t] else TightTrades(x, n - 1) + [t]
  }

  function TightWorlds(x: Setting, n: nat): (worlds: seq<World>)
    requires Representable(n)
    ensures |worlds| == n + 2
    ensures forall i :: 0 <= i <= n + 1 ==> worlds[i] == WorldBefore(x, i)
  {
    seq(n + 2, i requires 0 <= i <= n + 1 => WorldBefore(x, i))
  }

  lemma {:induction false} TightLink(x: Setting, n: nat, i: nat)
    requires Repeatable(x, n) && Representable(n) && i <= n
    ensures Follows(TightWorlds(x, n)[i], TightRun(x, n)[i], TightWorlds(x, n)[i + 1], TightTrades(x, n)[i])
  {
    TightStep(x, WorldBefore(x, i), i, TimeOf(i), i * DAY);
  }

  /** Every trade of the run is accepted, at its time and for the full limit. */
  lemma {:induction false} TightHistory(x: Setting, n: nat)
    requires Repeatable(x, n) && Representable(n)
    ensures History(x.w, TightRun(x, n)) == TightTrades(x, n)
  {
    var worlds, ops, h := TightWorlds(x, n), TightRun(x, n), TightTrades(x, n);
    forall i | 0 <= i < |ops| ensures Follows(worlds[i], ops[i], worlds[i + 1], h[i]) {
      TightLink(x, n, i);
    }
    ChainIsRun(ops, worlds, h);
  }

  /** All of those trades fall into the `k` days. */
  lemma {:induction false} TightTotals(x: Setting, k: nat)
    requires 0 < k && Representable(k)
    ensures var h, lo, hi := TightTrades(x, k), DAY - 1, DAY - 1 + k * DAY;
            VolumeIn(h, lo, hi) == (k + 1) * x.a.amountIn && SpentIn(h, lo, hi) == (k + 1) * x.spent
  {
    var h := TightTrades(x, k);
    VolumeOfAll(h, DAY - 1, DAY - 1 + k * DAY, x.a.amountIn);
    SpendingOfAll(h, DAY - 1, DAY - 1 + k * DAY, x.spent);
  }

  /** For every number of days the clock can hold, a run reaches the bound of `VolumeIsLimited` exactly. */
  lemma {:induction false} BoundIsReached(x: Setting, k: nat)
    requires Repeatable(x, k) && 0 < k && Representable(k)
    ensures ClockNeverGoesBack(0, TightRun(x, k))
    ensures var h, lo, hi := History(x.w, TightRun(x, k)), DAY - 1, DAY - 1 + k * DAY;
            && VolumeIn(h, lo, hi) == (k + 1) * x.w.session.config.dailyTradeLimit
            && SpentIn(h, lo, hi) == (k + 1) * x.spent
  {
    TightRunKeepsTime(x, k);
    TightHistory(x, k);
    TightTotals(x, k);
  }

  // ---------------------------------------------------------------- such a trade exists

  /** Trades that spend 1,000 units, against a daily limit of 1,000. */
  function Example(): Setting {
    var config := Config(I64_MAX, 1_000, 1_000, [ROUTER_PROGRAM_ID], [INPUT_MINT], [OUTPUT_MINT]);
    Setting(World(Created(Key(6), Key(7), 0, config), Start(U64_MAX)), ACCOUNTS, SwapArgs(1_000, 998, 0),
            Swap(1_000), 1_000)
  }

  lemma ExampleIsAllowed()
    ensures Allowed(Example())
  {
  }

  /** One trade on a ledger with enough left. */
  lemma ExampleGoesThrough(x: Setting, l: Ledger)
    requires x.c == ACCOUNTS && x.a == SwapArgs(1_000, 998, 0) && x.call == Swap(1_000) && x.spent == 1_000
    requires Sound(l) && 1_000 <= Balance(l, INPUT) && Balance(l, OUTPUT) + Balance(l, TREASURY) + 1_000 <= U64_MAX
    ensures GoesThrough(x, l) && Sound(Onward(x, l))
    ensures Holds(Onward(x, l), Balance(l, INPUT) - 1_000, Balance(l, OUTPUT) + 998, Balance(l, TREASURY) + 2)
  {
    SwapSucceeds(l, 1_000, 998, 0, 2, 0);
  }

  /** The balances after `n` trades: each one spends 1,000, of which the treasury gets 2. */
  ghost predicate Spent(l: Ledger, n: nat) {
    Sound(l) && Holds(l, U64_MAX - 1_000 * n, 998 * n, 2 * n)
  }

  lemma OneMoreTrade(x: Setting, l: Ledger, n: nat)
    requires x.c == ACCOUNTS && x.a == SwapArgs(1_000, 998, 0) && x.call == Swap(1_000) && x.spent == 1_000
    requires 1_000 * n + 1_000 <= U64_MAX && Spent(l, n)
    ensures GoesThrough(x, l) && Spent(Onward(x, l), n + 1)
  {
    ExampleGoesThrough(x, l);
  }

  lemma {:induction false} ExampleBalances(x: Setting, n: nat)
    requires x.c == ACCOUNTS && x.a == SwapArgs(1_000, 998, 0) && x.call == Swap(1_000) && x.spent == 1_000
    requires Spent(x.w.ledger, 0) && 1_000 * n <= U64_MAX
    ensures Spent(LedgerAt(x, n), n)
  {
    if n > 0 {
      ExampleBalances(x, n - 1);
      OneMoreTrade(x, LedgerAt(x, n - 1), n - 1);
    }
  }

  /** The user's 2^64 - 1 units last for every number of days that the clock can hold. */
  lemma ExampleIsRepeatable(k: nat)
    requires 0 < k && Representable(k)
    ensures Repeatable(Example(), k)
  {
    ExampleIsAllowed();
    StartIsSound(U64_MAX);
    forall n | 0 <= n <= k ensures GoesThrough(Example(), LedgerAt(Example(), n)) {
      ExampleBalances(Example(), n);
      OneMoreTrade(Example(), LedgerAt(Example(), n), n);
    }
  }

  /** No smaller bound than (k + 1) limits holds for what the declared input account really loses in k days. */
  lemma {:induction false} SpendingBoundIsReached(k: nat)
    requires 0 < k && Representable(k)
    ensures exists w, owner, key, c, ops ::
              && JustCreated(w, owner, key, 0, c) && ClockNeverGoesBack(0, ops) && c.dailyTradeLimit > 0
              && LimitedIn(History(w, ops), DAY - 1, DAY - 1 + k * DAY, c.dailyTradeLimit)
              && SpentIn(History(w, ops), DAY - 1, DAY - 1 + k * DAY) == (k + 1) * c.dailyTradeLimit
  {
    var x := Example();
    ExampleIsRepeatable(k);
    BoundIsReached(x, k);
    TightHistory(x, k);
    var s := x.w.session;
    assert JustCreated(x.w, s.owner, s.sessionKey, 0, s.config);
    assert LimitedIn(History(x.w, TightRun(x, k)), DAY - 1, DAY - 1 + k * DAY, s.config.dailyTradeLimit);
  }

  /** The declared input account can lose twice the daily limit within one day. */
  lemma TwiceTheLimitInOneDay()
    ensures exists w, owner, key, c, ops ::
              && JustCreated(w, owner, key, 0, c) && ClockNeverGoesBack(0, ops) && c.dailyTradeLimit > 0
              && LimitedIn(History(w, ops), DAY - 1, 2 * DAY - 1, c.dailyTradeLimit)
              && SpentIn(History(w, ops), DAY - 1, 2 * DAY - 1) == 2 * c.dailyTradeLimit
  {
    SpendingBoundIsReached(1);
  }
}
