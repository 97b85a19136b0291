/** Which sessions can use k + 1 daily limits within k days, and no others can. */
module FullUse {
  import opened Common
  import opened Arithmetic
  import opened Sessions
  import opened TradeHistory
  import opened Runs
  import opened DayLimit

  /** Some run takes `k + 1` limits from the declared input accounts within `k` days. */
  ghost predicate ReachesBound(owner: Pubkey, key: Pubkey, now: i64, c: Config, k: nat) {
    exists w, ops, lo, hi :: IsRun(w, owner, key, now, c, ops) && SpansDays(lo, hi, k)
                             && SpentIn(History(w, ops), lo, hi) == (k + 1) * c.dailyTradeLimit
  }

  predicate SpansDays(lo: int, hi: int, k: nat) {
    hi == lo + k * 86_400
  }

  /** The session lives to see `k` new windows, and has the nonces for the trades that fill `k + 1` of them. */
  predicate LastsFor(now: int, c: Config, k: nat)
    requires 0 < c.maxTradeAmount
  {
    now + k * 86_400 < c.expiresAt && (k + 1) * Count(c.dailyTradeLimit, c.maxTradeAmount) <= U64_MAX
  }

  // ---------------------------------------------------------------- such sessions do

  /** The full limit at the end of the first day, then at the start of each of the next `k`. */
  lemma {:induction false} FullDays(w: World, owner: Pubkey, key: Pubkey, now: i64, c: Config, a: Pubkey, b: Pubkey,
                                    n: u64, k: nat, m: u64, t: i64, ws: i64, lo: int, hi: int, spent: int, s': Session)
    returns (ops: seq<Op>)
    requires w.session == Created(owner, key, now, c) && ValidConfig(c, now) && a in c.inputs && b in c.outputs
    requires n == Count(c.dailyTradeLimit, c.maxTradeAmount) && m == (k + 1) * n && spent == (k + 1) * c.dailyTradeLimit
    requires t == now + (if k == 0 then DAY - 1 else k * DAY) && ws == now + k * DAY
    requires t < c.expiresAt && lo == now + DAY - 1 && t < hi
    requires s' == w.session.(volumeUsed := c.dailyTradeLimit, windowStart := ws, nonce := m)
    ensures Reaches(w, now, owner, ops, s', t, lo, hi, spent)
    decreases k
  {
    if k == 0 {
      StartReaches(w, owner, now, lo, hi);
      ops := Spree(w, now, owner, [], w.session, key, a, b, 0, m, now, t, c.dailyTradeLimit, c.maxTradeAmount, lo, hi,
                   0,
                   s', t, spent);
    } else {
      OneLess(k, n);
      OneLess(k, c.dailyTradeLimit);
      var t0, ws0: i64, m0: u64, spent0 := now + (if k == 1 then DAY - 1 else (k - 1) * DAY), ws - DAY, m - n,
                                           spent - c.dailyTradeLimit;
      var s0 := w.session.(volumeUsed := c.dailyTradeLimit, windowStart := ws0, nonce := m0);
      ops := FullDays(w, owner, key, now, c, a, b, n, k - 1, m0, t0, ws0, lo, hi, spent0, s0);
      ops := FullDay(w, owner, ops, s0, s', key, a, b, now, n, m0, m, t0, t, lo, hi, spent0, spent);
    }
  }

  lemma OneLess(k: int, x: int)
    ensures (k + 1) * x - x == (k - 1 + 1) * x
  {
  }

  lemma FullDay(w: World, owner: Pubkey, ops: seq<Op>, s: Session, s': Session, key: Pubkey, a: Pubkey, b: Pubkey,
                now: i64, n: u64, m: u64, m': u64, t0: i64, t: i64, lo: int, hi: int, spent: int, spent': int)
    returns (more: seq<Op>)
    requires Reaches(w, now, owner, ops, s, t0, lo, hi, spent) && lo <= t0 <= t == s.windowStart + DAY && t < hi
    requires Open(s, key, a, b, m, t) && 0 < s.config.maxTradeAmount && 0 < s.config.dailyTradeLimit
    requires n == Count(s.config.dailyTradeLimit, s.config.maxTradeAmount) && m' == m + n
    requires spent' == spent + s.config.dailyTradeLimit
    requires s' == s.(volumeUsed := s.config.dailyTradeLimit, windowStart := t, nonce := m')
    ensures Reaches(w, now, owner, more, s', t, lo, hi, spent')
  {
    more := Spree(w, now, owner, ops, s, key, a, b, m, m', t0, t, s.config.dailyTradeLimit, s.config.maxTradeAmount, lo,
                  hi, spent, s', t, spent');
  }

  lemma LastingSessionsReachBound(owner: Pubkey, key: Pubkey, now: i64, c: Config, k: nat)
    requires ValidConfig(c, now) && 0 < k && LastsFor(now, c, k)
    ensures ReachesBound(owner, key, now, c, k)
  {
    var s, n := Created(owner, key, now, c), Count(c.dailyTradeLimit, c.maxTradeAmount);
    OneLess(k, n);
    var m, t, lo, hi := (k + 1) * n, now + k * DAY, now + DAY - 1, now + DAY - 1 + k * DAY;
    MulMono(1, k + 1, n);
    var w := World(s, map[]);
    var ops := FullDays(w, owner, key, now, c, c.inputs[0], c.outputs[0], n, k, m, t, t, lo, hi,
                        (k + 1) * c.dailyTradeLimit,
                        s.(volumeUsed := c.dailyTradeLimit, windowStart := t, nonce := m));
    assert SpansDays(lo, hi, k) && IsRun(w, owner, key, now, c, ops);
  }

  // ---------------------------------------------------------------- no others do

  /** Every window starts no earlier than the session. */
  ghost predicate WindowsFrom(h: seq<Trade>, start: int) {
    forall i :: 0 <= i < |h| ==> start <= h[i].window
  }

  lemma StepWindows(w: World, h: seq<Trade>, op: Op, start: int)
    requires WindowsFrom(h, start) && start <= w.session.windowStart
    requires op.Execute? ==> w.session.windowStart <= op.r.now
    ensures WindowsFrom(h + Step(w, op).1, start) && start <= Step(w, op).0.session.windowStart
  {
    if op.Execute? && TradeResult(w, op.r, op.c, op.call).Some? {
      AcceptedTrade(w, op.r, op.c, op.call);
    }
  }

  lemma {:induction false} RunWindows(w: World, start: i64, ops: seq<Op>)
    requires w.session.nonce == w.session.volumeUsed == 0 && w.session.windowStart == start
    requires ClockNeverGoesBack(start, ops)
    ensures WindowsFrom(History(w, ops), start) && start <= Run(w, ops).session.windowStart
  {
    if ops != [] {
      var before := ops[..|ops| - 1];
      RunWindows(w, start, before);
      RunsAreOnTime(w, start, before);
      StepWindows(Run(w, before), History(w, before), ops[|ops| - 1], start);
    }
  }

  /** How many trades were counted in windows that start in [a, b). */
  function TradesIn(h: seq<Trade>, a: int, b: int): (n: nat)
    ensures n <= |h|
  {
    if h == [] then 0
    else TradesIn(h[..|h| - 1], a, b) + (if a <= h[|h| - 1].window < b then 1 else 0)
  }

  lemma {:induction false} SplitTrades(h: seq<Trade>, a: int, b: int, c: int)
    requires a <= b <= c
    ensures TradesIn(h, a, c) == TradesIn(h, a, b) + TradesIn(h, b, c)
  {
    if h != [] {
      SplitTrades(h[..|h| - 1], a, b, c);
    }
  }

  lemma OneTradeMore(v: int, m: int, n: int, amount: int, max: int)
    requires v <= m * max && amount <= max && n == m + 1
    ensures v + amount <= n * max
  {
  }

  lemma {:induction false} VolumeNeedsTrades(h: seq<Trade>, lo: int, hi: int, a: int, b: int, max: nat)
    requires forall i :: 0 <= i < |h| ==> h[i].amount <= max
    ensures Volume(h, lo, hi, a, b) <= TradesIn(h, a, b) * max
  {
    if h != [] {
      var p, t := h[..|h| - 1], h[|h| - 1];
      VolumeNeedsTrades(p, lo, hi, a, b, max);
      if a <= t.window < b {
        OneTradeMore(Volume(p, lo, hi, a, b), TradesIn(p, a, b), TradesIn(h, a, b),
                     if lo <= t.time < hi then t.amount else 0,
                     max);
      }
    }
  }

  lemma {:induction false} EnoughTrades(n: nat, total: nat, max: nat)
    requires 0 < max && 0 < total <= n * max
    ensures Count(total, max) <= n
  {
    CountBound(total, max);
    if n < Count(total, max) {
      MulMono(n, Count(total, max) - 1, max);
    }
  }

  /** Where there is volume, there is a trade. */
  lemma {:induction false} SomeTrade(h: seq<Trade>, lo: int, hi: int, a: int, b: int) returns (i: nat)
    requires 0 < Volume(h, lo, hi, a, b)
    ensures i < |h| && lo <= h[i].time < hi && a <= h[i].window < b
  {
    var t := h[|h| - 1];
    if lo <= t.time < hi && a <= t.window < b {
      i := |h| - 1;
    } else {
      i := SomeTrade(h[..|h| - 1], lo, hi, a, b);
    }
  }

  /** The trades a history of this policy consists of. */
  ghost predicate Lawful(h: seq<Trade>, c: Config, start: int) {
    && Tumbling(h) && UnderPolicy(h, c) && WindowsFrom(h, start) && 0 < c.maxTradeAmount && 0 < c.dailyTradeLimit
  }

  /** One more full day after full ones: enough trades for a whole limit, the last of them another day further on. */
  lemma OneMoreDay(h: seq<Trade>, c: Config, start: int, lo: int, hi: int, a: int, n: nat, last: int) returns (i: nat)
    requires Lawful(h, c, start) && 0 < c.dailyTradeLimit <= Volume(h, lo, hi, a, a + DAY)
    requires n == 0 || exists j :: 0 <= j < |h| && start + (n - 1) * DAY <= h[j].window < a
    requires last == start + n * DAY
    ensures i < |h| && lo <= h[i].time < hi && last <= h[i].window < a + DAY
    ensures Count(c.dailyTradeLimit, c.maxTradeAmount) <= TradesIn(h, a, a + DAY)
  {
    VolumeNeedsTrades(h, lo, hi, a, a + DAY, c.maxTradeAmount);
    EnoughTrades(TradesIn(h, a, a + DAY), c.dailyTradeLimit, c.maxTradeAmount);
    i := SomeTrade(h, lo, hi, a, a + DAY);
    if n > 0 {
      var j :| 0 <= j < |h| && start + (n - 1) * DAY <= h[j].window < a;
    }
  }

  /** `n` full limits in `n` days of windows are one in the last and `n - 1` in those before. */
  lemma {:induction false} LastDayIsFull(h: seq<Trade>, c: Config, start: int, lo: int, hi: int, a: int, b: int, e: int,
                                         n: nat, m: nat)
    requires Lawful(h, c, start) && 0 < n && m == c.dailyTradeLimit && n * m <= Volume(h, lo, hi, a, e)
    requires b == a + (n - 1) * DAY && e == b + DAY
    ensures (n - 1) * m <= Volume(h, lo, hi, a, b) && m <= Volume(h, lo, hi, b, e)
  {
    SplitWindows(h, lo, hi, a, b, e);
    OneDayOfWindows(h, lo, hi, b, m);
    DaysOfWindows(h, lo, hi, a, n - 1, m);
    assert n * m == (n - 1) * m + m;
  }

  /** They take that many times the trades of a limit, and the last window starts `n - 1` days on. */
  lemma {:induction false} FullWindows(h: seq<Trade>, c: Config, start: int, lo: int, hi: int, a: int, e: int, n: nat,
                                       cnt: nat, last: int)
    returns (i: nat)
    requires Lawful(h, c, start) && 0 < n && e == a + n * DAY && last == start + (n - 1) * DAY
    requires n * c.dailyTradeLimit <= Volume(h, lo, hi, a, e) && cnt == Count(c.dailyTradeLimit, c.maxTradeAmount)
    ensures i < |h| && lo <= h[i].time < hi && last <= h[i].window < e
    ensures n * cnt <= TradesIn(h, a, e)
    decreases n
  {
    var b := e - DAY;
    LastDayIsFull(h, c, start, lo, hi, a, b, e, n, c.dailyTradeLimit);
    SplitTrades(h, a, b, e);
    if n > 1 {
      i := FullWindows(h, c, start, lo, hi, a, b, n - 1, cnt, last - DAY);
    }
    i := OneMoreDay(h, c, start, lo, hi, b, n - 1, last);
    assert n * cnt == (n - 1) * cnt + cnt;
  }

  lemma {:induction false} ReachingSessionsLast(owner: Pubkey, key: Pubkey, now: i64, c: Config, k: nat, w: World,
                                                ops: seq<Op>, lo: int, hi: int, h: seq<Trade>)
    requires ValidConfig(c, now) && IsRun(w, owner, key, now, c, ops) && SpansDays(lo, hi, k)
    requires h == History(w, ops) && SpentIn(h, lo, hi) == (k + 1) * c.dailyTradeLimit
    ensures LastsFor(now, c, k)
  {
    RunsAreConsistent(w, ops);
    RunsAreOnTime(w, now, ops);
    PolicyIsKept(w, ops);
    RunWindows(w, now, ops);
    SpentWithinInterval(h, lo, hi);
    var a := lo - DAY + 1;
    IntervalToWindows(h, lo, hi);
    SplitWindows(h, lo, hi, a, hi, hi + 1);
    var i := FullWindows(h, c, now, lo, hi, a, hi + 1, k + 1, Count(c.dailyTradeLimit, c.maxTradeAmount),
                         now + k * DAY);
  }

  /**
   * Exactly these sessions can take `k + 1` daily limits from the declared input accounts within `k` days, over all
   * runs without a change of policy; `Runs.SpendIsLimited` says that none can take more.
   */
  lemma ReachesBoundIff(owner: Pubkey, key: Pubkey, now: i64, c: Config, k: nat)
    requires ValidConfig(c, now) && 0 < k
    ensures ReachesBound(owner, key, now, c, k) <==> LastsFor(now, c, k)
  {
    if LastsFor(now, c, k) {
      LastingSessionsReachBound(owner, key, now, c, k);
    } else if ReachesBound(owner, key, now, c, k) {
      var w, ops, lo, hi :| IsRun(w, owner, key, now, c, ops) && SpansDays(lo, hi, k)
                            && SpentIn(History(w, ops), lo, hi) == (k + 1) * c.dailyTradeLimit;
      ReachingSessionsLast(owner, key, now, c, k, w, ops, lo, hi, History(w, ops));
    }
  }
}
