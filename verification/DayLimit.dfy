/** When the daily limit is what its name says: for which sessions no 24 hours ever exceed it. */
module DayLimit {
  import opened Common
  import opened Wire
  import opened RouterProgram
  import opened Sessions
  import opened TradeHistory
  import opened Runs
  import opened TakingRoutes

  /** The owner leaves the policy as it was created; anybody may do anything else, and the owner may revoke. */
  predicate PolicyStands(owner: Pubkey, ops: seq<Op>) {
    forall i :: 0 <= i < |ops| && ops[i].Update? ==> ops[i].signer != owner
  }

  /** A run of a session created at `now` with the configuration `c`. */
  ghost predicate IsRun(w: World, owner: Pubkey, key: Pubkey, now: i64, c: Config, ops: seq<Op>) {
    JustCreated(w, owner, key, now, c) && ClockNeverGoesBack(now, ops) && PolicyStands(owner, ops)
  }

  /** What is counted in the 24 hours from `lo` on. */
  function DayVolume(w: World, ops: seq<Op>, lo: int): nat {
    VolumeIn(History(w, ops), lo, lo + 86_400)
  }

  /** What the declared input accounts lose in them. */
  function DaySpending(w: World, ops: seq<Op>, lo: int): nat {
    SpentIn(History(w, ops), lo, lo + 86_400)
  }

  /** In every run, any 24 hours count at most the daily limit. */
  ghost predicate DailyVolumeHolds(owner: Pubkey, key: Pubkey, now: i64, c: Config) {
    forall w, ops, lo :: IsRun(w, owner, key, now, c, ops) ==> DayVolume(w, ops, lo) <= c.dailyTradeLimit
  }

  /** In every run, the declared input accounts lose at most the daily limit in any 24 hours. */
  ghost predicate DailySpendHolds(owner: Pubkey, key: Pubkey, now: i64, c: Config) {
    forall w, ops, lo :: IsRun(w, owner, key, now, c, ops) ==> DaySpending(w, ops, lo) <= c.dailyTradeLimit
  }

  /** The session expires with its first window, or is limited to single units that its nonces cannot exhaust. */
  predicate OneWindowOnly(now: i64, c: Config) {
    c.expiresAt <= now + 86_400 || (c.maxTradeAmount == 1 && c.dailyTradeLimit == U64_MAX)
  }

  // ---------------------------------------------------------------- the condition suffices

  /** Every trade of the run was made under the policy of its creation, in time. */
  ghost predicate UnderPolicy(h: seq<Trade>, c: Config) {
    forall i :: 0 <= i < |h| ==>
      h[i].time < c.expiresAt && h[i].maxTradeAmount == c.maxTradeAmount && h[i].dailyTradeLimit == c.dailyTradeLimit
  }

  lemma {:induction false} PolicyIsKept(w: World, ops: seq<Op>)
    requires PolicyStands(w.session.owner, ops)
    ensures Run(w, ops).session.config == w.session.config && Run(w, ops).session.owner == w.session.owner
    ensures UnderPolicy(History(w, ops), w.session.config)
  {
    if ops != [] {
      var before, op := ops[..|ops| - 1], ops[|ops| - 1];
      PolicyIsKept(w, before);
      if op.Execute? {
        TradeFrame(Run(w, before), op.r, op.c, op.call);
        if TradeResult(Run(w, before), op.r, op.c, op.call).Some? {
          AcceptedTrade(Run(w, before), op.r, op.c, op.call);
        }
      }
    }
  }

  ghost predicate AllIn(h: seq<Trade>, window: int) {
    forall i :: 0 <= i < |h| ==> h[i].window == window
  }

  /** A trade made in the first day of the window leaves the window where it is. */
  lemma StepStaysInWindow(w: World, h: seq<Trade>, op: Op)
    requires AllIn(h, w.session.windowStart)
    requires op.Execute? ==> w.session.windowStart <= op.r.now
    requires w.session.config.expiresAt <= w.session.windowStart + DAY
    ensures Step(w, op).0.session.windowStart == w.session.windowStart
    ensures AllIn(h + Step(w, op).1, w.session.windowStart)
  {
    if op.Execute? && TradeResult(w, op.r, op.c, op.call).Some? {
      AcceptedTrade(w, op.r, op.c, op.call);
    }
  }

  lemma {:induction false} OneWindow(w: World, start: i64, ops: seq<Op>)
    requires PolicyStands(w.session.owner, ops) && ClockNeverGoesBack(start, ops)
    requires w.session.windowStart <= start && w.session.config.expiresAt <= w.session.windowStart + DAY
    ensures Run(w, ops).session.windowStart == w.session.windowStart <= Clock(start, ops)
    ensures AllIn(History(w, ops), w.session.windowStart)
  {
    if ops != [] {
      var before := ops[..|ops| - 1];
      OneWindow(w, start, before);
      PolicyIsKept(w, before);
      StepStaysInWindow(Run(w, before), History(w, before), ops[|ops| - 1]);
    }
  }

  /** All that was counted in one window bounds any interval. */
  lemma {:induction false} IntervalWithinWindow(h: seq<Trade>, lo: int, hi: int, window: int)
    requires AllIn(h, window)
    ensures VolumeIn(h, lo, hi) <= WindowVolume(h, window)
  {
    if h != [] {
      IntervalWithinWindow(h[..|h| - 1], lo, hi, window);
    }
  }

  lemma {:induction false} WindowWithinLimit(h: seq<Trade>, window: int, m: nat)
    requires Tumbling(h) && AllIn(h, window)
    requires forall i :: 0 <= i < |h| ==> h[i].dailyTradeLimit == m
    ensures WindowVolume(h, window) <= m
  {
    if h != [] {
      var last := |h| - 1;
      assert h[..last + 1] == h && h[last].window == window;
    }
  }

  lemma {:induction false} SingleUnits(h: seq<Trade>, lo: int, hi: int)
    requires forall i :: 0 <= i < |h| ==> h[i].amount <= 1
    ensures VolumeIn(h, lo, hi) <= |h|
  {
    if h != [] {
      SingleUnits(h[..|h| - 1], lo, hi);
    }
  }

  /** A session of one window, or of single units, never exceeds its limit. */
  lemma {:induction false} OneWindowSuffices(w: World, owner: Pubkey, key: Pubkey, now: i64, c: Config, ops: seq<Op>,
                                             lo: int, hi: int)
    requires IsRun(w, owner, key, now, c, ops) && OneWindowOnly(now, c)
    ensures SpentIn(History(w, ops), lo, hi) <= VolumeIn(History(w, ops), lo, hi) <= c.dailyTradeLimit
  {
    var h := History(w, ops);
    RunsAreConsistent(w, ops);
    PolicyIsKept(w, ops);
    SpentWithinInterval(h, lo, hi);
    if c.expiresAt <= now + DAY {
      OneWindow(w, now, ops);
      IntervalWithinWindow(h, lo, hi, now);
      WindowWithinLimit(h, now, c.dailyTradeLimit);
    } else {
      SingleUnits(h, lo, hi);
    }
  }

  // ---------------------------------------------------------------- the condition is necessary

  /** A trade of `amount` through the taking venue, and the wallet it is made from. */
  function Take(key: Pubkey, a: Pubkey, b: Pubkey, n: u64, t: i64, amount: u64): Op {
    Execute(TradeRequest(key, ROUTER_PROGRAM_ID, t, amount, a, b, n, EncodeArgs(TakingArgs(a, b, amount))),
            WalletAccounts(b), Taking(InputKey(b), amount))
  }

  /** The session may still trade, and the two tokens are on its lists. */
  ghost predicate Open(s: Session, key: Pubkey, a: Pubkey, b: Pubkey, n: int, t: int) {
    && s.sessionKey == key && !s.revoked && s.nonce == n && t < s.config.expiresAt
    && ROUTER_PROGRAM_ID in s.config.programs && a in s.config.inputs && b in s.config.outputs
  }

  lemma TakeIsAllowed(s: Session, key: Pubkey, a: Pubkey, b: Pubkey, n: u64, t: i64, amount: u64)
    requires Open(s, key, a, b, n, t) && 0 < amount <= s.config.maxTradeAmount
    ensures MayTrade(s, Take(key, a, b, n, t, amount).r)
    ensures DecodeRoute(EncodeArgs(TakingArgs(a, b, amount))) == Some((TakingArgs(a, b, amount), []))
  {
    var args := TakingArgs(a, b, amount);
    var d := EncodeArgs(args);
    DecodeOfEncode(args, []);
    assert d + [] == d;
    HeaderBindsExactly(d, a, b, amount);
  }

  /** A recorded trade of the whole amount that it spends. */
  ghost predicate Spends(w: World, op: Op, s': Session, t: int, amount: int) {
    var (w', h) := Step(w, op);
    w'.session == s' && |h| == 1 && h[0].time == t && h[0].spent == amount
  }

  lemma AcceptedSpends(w: World, r: TradeRequest, c: RouteAccounts, call: VenueCall, w': World, t: Trade)
    requires TradeResult(w, r, c, call) == Some((w', t))
    ensures Spends(w, Execute(r, c, call), w'.session, t.time, t.spent)
  {
  }

  lemma TakeIsAccepted(w: World, key: Pubkey, a: Pubkey, b: Pubkey, n: u64, t: i64, amount: u64, s': Session)
    requires w.ledger == Wallet(a, b, 0) && Open(w.session, key, a, b, n, t)
    requires 0 < amount <= w.session.config.maxTradeAmount && Recorded(w.session, amount, t) == (s', true)
    ensures Spends(w, Take(key, a, b, n, t, amount), s', t, amount)
  {
    var c, args, call := WalletAccounts(b), TakingArgs(a, b, amount), Taking(InputKey(b), amount);
    TakeIsAllowed(w.session, key, a, b, n, t, amount);
    WalletIsTakeable(a, b, 0, amount);
    TakingSucceeds(w.ledger, c, args, InputKey(b), amount);
    var r, o := Take(key, a, b, n, t, amount).r, RouteResult(w.ledger, c, args, call).value;
    TradeGoesThrough(w, r, c, args, call, s', o);
    AcceptedSpends(w, r, c, call, World(s', o.final), TradeResult(w, r, c, call).value.1);
  }

  /** How many trades of at most `max` it takes to trade `total`. */
  function Count(total: nat, max: nat): (n: nat)
    requires 0 < max
  {
    if total == 0 then 0 else 1 + Count(total - Last(total, max), max)
  }

  function Last(total: nat, max: nat): (x: nat)
    requires 0 < max
    ensures 0 < total ==> 0 < x <= max && x <= total
  {
    if total <= max then total else max
  }

  /** All trades but one are for the maximum. */
  lemma {:induction false} CountBound(total: nat, max: nat)
    requires 0 < max
    ensures 0 < total ==> (Count(total, max) - 1) * max < total
  {
    if max < total {
      CountBound(total - max, max);
      assert Count(total, max) == 1 + Count(total - max, max);
      assert (Count(total, max) - 1) * max == (Count(total - max, max) - 1) * max + max;
    } else if 0 < total {
      assert Count(0, max) == 0;
      assert Count(total, max) == 1;
    }
  }

  lemma {:induction false} CountIsU64(total: u64, max: u64)
    requires 0 < max <= total && !(max == 1 && total == U64_MAX)
    ensures Count(total, max) < U64_MAX
  {
    CountBound(total, max);
  }

  /** What a run has come to: the session, the clock, and what has been spent in [lo, hi). */
  ghost predicate Reaches(w: World, start: i64, owner: Pubkey, ops: seq<Op>, s: Session, t: i64, lo: int, hi: int,
                          spent: int)
  {
    && Run(w, ops).session == s && ClockNeverGoesBack(start, ops) && Clock(start, ops) == t
    && PolicyStands(owner, ops) && SpentIn(History(w, ops), lo, hi) == spent
  }

  lemma {:induction false} Refilled(w: World, start: i64, owner: Pubkey, ops: seq<Op>, s: Session, t: i64, lo: int,
                                    hi: int, spent: int, l: Ledger)
    requires Reaches(w, start, owner, ops, s, t, lo, hi, spent)
    ensures Reaches(w, start, owner, ops + [Elsewhere(l)], s, t, lo, hi, spent)
    ensures Run(w, ops + [Elsewhere(l)]).ledger == l
  {
    RunAppend(w, ops, Elsewhere(l));
    assert History(w, ops) + [] == History(w, ops);
    assert (ops + [Elsewhere(l)])[..|ops + [Elsewhere(l)]| - 1] == ops;
  }

  lemma {:induction false} ClockAppend(start: i64, ops: seq<Op>, op: Op, t: i64)
    requires ClockNeverGoesBack(start, ops) && Clock(start, ops) <= t && op.Execute? && op.r.now == t
    ensures ClockNeverGoesBack(start, ops + [op]) && Clock(start, ops + [op]) == t
  {
    assert (ops + [op])[..|ops + [op]| - 1] == ops;
  }

  lemma {:induction false} Traded(w: World, start: i64, owner: Pubkey, ops: seq<Op>, op: Op, s: Session, s': Session,
                                  t0: i64, t: i64, amount: int, lo: int, hi: int, spent: int, spent': int)
    requires Reaches(w, start, owner, ops, s, t0, lo, hi, spent) && t0 <= t && lo <= t < hi
    requires op.Execute? && op.r.now == t && Spends(Run(w, ops), op, s', t, amount) && spent' == spent + amount
    ensures Reaches(w, start, owner, ops + [op], s', t, lo, hi, spent')
  {
    RunAppend(w, ops, op);
    ClockAppend(start, ops, op, t);
    var h := Step(Run(w, ops), op).1;
    assert h == [h[0]];
    SpentAppend(History(w, ops), h[0], lo, hi);
  }

  /** One more trade, from a wallet filled up elsewhere. */
  lemma Again(w: World, start: i64, owner: Pubkey, ops: seq<Op>, s: Session, key: Pubkey, a: Pubkey, b: Pubkey, n: u64,
              t0: i64, t: i64, amount: u64, s': Session, lo: int, hi: int, spent: int, spent': int)
    returns (more: seq<Op>)
    requires Reaches(w, start, owner, ops, s, t0, lo, hi, spent) && t0 <= t && lo <= t < hi
    requires Open(s, key, a, b, n, t) && 0 < amount <= s.config.maxTradeAmount && Recorded(s, amount, t) == (s', true)
    requires spent' == spent + amount
    ensures Reaches(w, start, owner, more, s', t, lo, hi, spent')
  {
    var refilled := ops + [Elsewhere(Wallet(a, b, 0))];
    Refilled(w, start, owner, ops, s, t0, lo, hi, spent, Wallet(a, b, 0));
    TakeIsAccepted(Run(w, refilled), key, a, b, n, t, amount, s');
    more := refilled + [Take(key, a, b, n, t, amount)];
    Traded(w, start, owner, refilled, Take(key, a, b, n, t, amount), s, s', t0, t, amount, lo, hi, spent, spent');
  }

  /** The session after trading `total` at the time `t`. */
  function AfterSpree(s: Session, t: i64, total: u64, n: u64): Session {
    if total == 0 then s else Rolled(s, t).(volumeUsed := total, nonce := n)
  }

  /** A session with an empty window at the time `t`. */
  ghost predicate Idle(s: Session, key: Pubkey, a: Pubkey, b: Pubkey, n: int, t: i64) {
    Open(s, key, a, b, n, t) && Rolled(s, t).volumeUsed == 0
  }

  lemma SpreeRecords(s: Session, key: Pubkey, a: Pubkey, b: Pubkey, n0: u64, n: u64, t: i64, done: u64, x: u64,
                     total: u64)
    requires Idle(s, key, a, b, n0, t) && 0 < x && total == done + x <= s.config.dailyTradeLimit
    requires n < U64_MAX && (done == 0 ==> n == n0)
    ensures Open(AfterSpree(s, t, done, n), key, a, b, n, t)
    ensures Recorded(AfterSpree(s, t, done, n), x, t) == (AfterSpree(s, t, total, n + 1), true)
  {
  }

  /** Trading `total` at the time `t`, in trades of at most `max`, from the nonce `n` to the nonce `m`. */
  lemma {:induction false} Spree(w: World, start: i64, owner: Pubkey, ops: seq<Op>, s: Session, key: Pubkey, a: Pubkey,
                                 b: Pubkey, n: u64, m: u64, t0: i64, t: i64, total: u64, max: u64, lo: int, hi: int,
                                 spent: int, s': Session, t': i64, spent': int)
    returns (more: seq<Op>)
    requires 0 < max <= s.config.maxTradeAmount && m == n + Count(total, max)
    requires Reaches(w, start, owner, ops, s, t0, lo, hi, spent) && t0 <= t && lo <= t < hi
    requires Idle(s, key, a, b, n, t) && total <= s.config.dailyTradeLimit
    requires s' == AfterSpree(s, t, total, m) && t' == (if total == 0 then t0 else t) && spent' == spent + total
    ensures Reaches(w, start, owner, more, s', t', lo, hi, spent')
    decreases total
  {
    if total == 0 {
      return ops;
    }
    var x := Last(total, max);
    var done := total - x;
    more := Spree(w, start, owner, ops, s, key, a, b, n, m - 1, t0, t, done, max, lo, hi, spent,
                  AfterSpree(s, t, done, m - 1), if done == 0 then t0 else t, spent + done);
    more := SpreeStep(w, start, owner, more, s, key, a, b, n, m - 1, if done == 0 then t0 else t, t, done, x, total, lo,
                      hi, spent + done, AfterSpree(s, t, done, m - 1), s', spent');
  }

  /** One more trade at the same time. */
  lemma SpreeStep(w: World, start: i64, owner: Pubkey, ops: seq<Op>, s: Session, key: Pubkey, a: Pubkey, b: Pubkey,
                  n: u64, m: u64, t0: i64, t: i64, done: u64, x: u64, total: u64, lo: int, hi: int, spent: int,
                  mid: Session, s': Session, spent': int) returns (more: seq<Op>)
    requires Reaches(w, start, owner, ops, mid, t0, lo, hi, spent) && t0 <= t && lo <= t < hi
    requires Idle(s, key, a, b, n, t) && 0 < x <= s.config.maxTradeAmount && total == done + x
    requires total <= s.config.dailyTradeLimit && m < U64_MAX && (done == 0 ==> m == n)
    requires mid == AfterSpree(s, t, done, m) && s' == AfterSpree(s, t, total, m + 1) && spent' == spent + x
    ensures Reaches(w, start, owner, more, s', t, lo, hi, spent')
  {
    SpreeRecords(s, key, a, b, n, m, t, done, x, total);
    more := Again(w, start, owner, ops, mid, key, a, b, m, t0, t, x, s', lo, hi, spent, spent');
  }

  /** The first unit after the window has rolled. */
  lemma NextWindow(s: Session, key: Pubkey, now: i64, next: i64, a: Pubkey, b: Pubkey, n: u64)
    requires next == now + DAY && s.windowStart == now && n + 1 <= U64_MAX && Open(s, key, a, b, n, next)
    requires 0 < s.config.dailyTradeLimit
    ensures Recorded(s, 1, next) == (s.(windowStart := next, volumeUsed := 1, nonce := n + 1), true)
  {
  }

  lemma StartReaches(w: World, owner: Pubkey, now: i64, lo: int, hi: int)
    ensures Reaches(w, now, owner, [], w.session, now, lo, hi, 0)
  {
  }

  /** The whole limit in the last second of the first window, and one unit more in the first second of the next one. */
  lemma Overrun(w: World, owner: Pubkey, key: Pubkey, now: i64, c: Config, a: Pubkey, b: Pubkey, n: u64, t: i64,
                next: i64, s: Session, full: Session, over: Session) returns (ops: seq<Op>)
    requires w.session == s == Created(owner, key, now, c) && ValidConfig(c, now) && a in c.inputs && b in c.outputs
    requires n == Count(c.dailyTradeLimit, c.maxTradeAmount) < U64_MAX
    requires t == now + DAY - 1 && next == now + DAY < c.expiresAt
    requires full == s.(volumeUsed := c.dailyTradeLimit, nonce := n)
    requires over == full.(windowStart := next, volumeUsed := 1, nonce := n + 1)
    ensures Reaches(w, now, owner, ops, over, next, t, t + DAY, c.dailyTradeLimit + 1)
  {
    var total: int := c.dailyTradeLimit;
    StartReaches(w, owner, now, t, t + DAY);
    ops := Spree(w, now, owner, [], s, key, a, b, 0, n, now, t, total, c.maxTradeAmount, t, t + DAY, 0, full, t, total);
    NextWindow(full, key, now, next, a, b, n);
    ops := Again(w, now, owner, ops, full, key, a, b, n, t, next, 1, over, t, t + DAY, total, total + 1);
  }

  /** Every other session has a run that spends more than its daily limit within 24 hours. */
  lemma OtherwiseExceeded(owner: Pubkey, key: Pubkey, now: i64, c: Config)
    requires ValidConfig(c, now) && !OneWindowOnly(now, c)
    ensures exists w, ops, lo :: IsRun(w, owner, key, now, c, ops) && DaySpending(w, ops, lo) > c.dailyTradeLimit
  {
    CountIsU64(c.dailyTradeLimit, c.maxTradeAmount);
    var s, n := Created(owner, key, now, c), Count(c.dailyTradeLimit, c.maxTradeAmount);
    var full := s.(volumeUsed := c.dailyTradeLimit, nonce := n);
    var w := World(s, map[]);
    var ops := Overrun(w, owner, key, now, c, c.inputs[0], c.outputs[0], n, now + DAY - 1, now + DAY, s, full,
                       full.(windowStart := now + DAY, volumeUsed := 1, nonce := n + 1));
    ReachedInADay(w, owner, key, now, c, ops, now + DAY - 1);
  }

  lemma {:induction false} ReachedInADay(w: World, owner: Pubkey, key: Pubkey, now: i64, c: Config, ops: seq<Op>,
                                         lo: int)
    requires JustCreated(w, owner, key, now, c) && ClockNeverGoesBack(now, ops) && PolicyStands(owner, ops)
    requires SpentIn(History(w, ops), lo, lo + DAY) == c.dailyTradeLimit + 1
    ensures IsRun(w, owner, key, now, c, ops) && DaySpending(w, ops, lo) > c.dailyTradeLimit
  {
  }

  // ---------------------------------------------------------------- the documented limit

  /**
   * Over all runs without a change of policy, any 24 hours stay within the daily limit if and only if the
   * session is created for at most one day, or for single units against the largest limit there is.
   */
  lemma DailyLimitHoldsIff(owner: Pubkey, key: Pubkey, now: i64, c: Config)
    requires ValidConfig(c, now)
    ensures DailyVolumeHolds(owner, key, now, c) <==> OneWindowOnly(now, c)
    ensures DailySpendHolds(owner, key, now, c) <==> OneWindowOnly(now, c)
  {
    if OneWindowOnly(now, c) {
      forall w, ops, lo | IsRun(w, owner, key, now, c, ops)
        ensures DaySpending(w, ops, lo) <= DayVolume(w, ops, lo) <= c.dailyTradeLimit
      {
        OneWindowSuffices(w, owner, key, now, c, ops, lo, lo + DAY);
      }
    } else {
      OtherwiseExceeded(owner, key, now, c);
      var w, ops, lo :| IsRun(w, owner, key, now, c, ops) && DaySpending(w, ops, lo) > c.dailyTradeLimit;
      RunsAreConsistent(w, ops);
      SpentWithinInterval(History(w, ops), lo, lo + DAY);
      assert DayVolume(w, ops, lo) > c.dailyTradeLimit;
    }
  }
}
