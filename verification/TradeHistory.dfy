/** Accepted trades in order, and what tumbling windows imply for the volume of an arbitrary interval. */
module TradeHistory {
  import opened Common
  import opened Sessions

  /** What a successful `execute_trade` did, with the limits in force and the window it was counted in. */
  datatype Trade = Trade(time: i64, amount: u64, nonce: u64, maxTradeAmount: u64, dailyTradeLimit: u64,
                         window: i64, volumeAfter: u64, spent: nat)

  /** Volume of the trades made in [lo, hi) and counted in a window that starts in [a, b). */
  function Volume(h: seq<Trade>, lo: int, hi: int, a: int, b: int): nat {
    if h == [] then 0
    else
      var t := h[|h| - 1];
      Volume(h[..|h| - 1], lo, hi, a, b) + (if lo <= t.time < hi && a <= t.window < b then t.amount else 0)
  }

  /** Volume accepted in [lo, hi). */
  function VolumeIn(h: seq<Trade>, lo: int, hi: int): nat {
    if h == [] then 0
    else
      var t := h[|h| - 1];
      VolumeIn(h[..|h| - 1], lo, hi) + (if lo <= t.time < hi then t.amount else 0)
  }

  /** What the declared input account really lost, over the trades made in [lo, hi). */
  function SpentIn(h: seq<Trade>, lo: int, hi: int): nat {
    if h == [] then 0
    else
      var t := h[|h| - 1];
      SpentIn(h[..|h| - 1], lo, hi) + (if lo <= t.time < hi then t.spent else 0)
  }

  lemma {:induction false} SpentAppend(h: seq<Trade>, t: Trade, lo: int, hi: int)
    ensures SpentIn(h + [t], lo, hi) == SpentIn(h, lo, hi) + if lo <= t.time < hi then t.spent else 0
  {
    assert (h + [t])[..|h + [t]| - 1] == h;
  }

  /** Volume counted in one window. */
  function WindowVolume(h: seq<Trade>, w: int): nat {
    if h == [] then 0
    else
      var t := h[|h| - 1];
      WindowVolume(h[..|h| - 1], w) + (if t.window == w then t.amount else 0)
  }

  /** What the declared input account really lost, over the trades of one window. */
  function WindowSpent(h: seq<Trade>, w: int): nat {
    if h == [] then 0
    else
      var t := h[|h| - 1];
      WindowSpent(h[..|h| - 1], w) + (if t.window == w then t.spent else 0)
  }

  /**
   * Windows are at most a day long, at least a day apart, and each trade was within its window's limit when
   * it was made.
   */
  ghost predicate Tumbling(h: seq<Trade>) {
    && (forall i :: 0 <= i < |h| ==> h[i].time < h[i].window + DAY)
    && (forall i, j :: 0 <= i <= j < |h| ==> h[i].window == h[j].window || h[i].window + DAY <= h[j].window)
    && (forall i :: 0 <= i < |h| ==> WindowVolume(h[..i + 1], h[i].window) == h[i].volumeAfter <= h[i].dailyTradeLimit)
    && (forall i :: 0 <= i < |h| ==> h[i].spent <= h[i].amount <= h[i].maxTradeAmount)
  }

  /** No trade was made before its window opened; this is where the clock must not go back. */
  ghost predicate OnTime(h: seq<Trade>) {
    forall i :: 0 <= i < |h| ==> h[i].window <= h[i].time
  }

  lemma OnTimeAppend(h: seq<Trade>, t: Trade)
    requires OnTime(h) && t.window <= t.time
    ensures OnTime(h + [t])
  {
  }

  lemma TumblingPrefix(h: seq<Trade>)
    requires Tumbling(h) && h != []
    ensures Tumbling(h[..|h| - 1])
  {
    var p := h[..|h| - 1];
    forall i | 0 <= i < |p| ensures WindowVolume(p[..i + 1], p[i].window) == p[i].volumeAfter <= p[i].dailyTradeLimit {
      assert p[..i + 1] == h[..i + 1] && p[i] == h[i];
    }
  }

  /** What a new trade must satisfy to follow a history: its window is the last one, or starts a day or more later. */
  ghost predicate MayFollow(h: seq<Trade>, t: Trade) {
    && t.time < t.window + DAY
    && (forall i :: 0 <= i < |h| ==> h[i].window == t.window || h[i].window + DAY <= t.window)
    && t.volumeAfter == WindowVolume(h, t.window) + t.amount <= t.dailyTradeLimit
    && t.spent <= t.amount <= t.maxTradeAmount
  }

  lemma {:induction false} WindowVolumeAppend(h: seq<Trade>, t: Trade)
    ensures WindowVolume(h + [t], t.window) == WindowVolume(h, t.window) + t.amount
  {
  }

  lemma VolumesAppend(h: seq<Trade>, t: Trade, i: nat)
    requires Tumbling(h) && MayFollow(h, t) && i <= |h|
    ensures var g := h + [t];
            WindowVolume(g[..i + 1], g[i].window) == g[i].volumeAfter <= g[i].dailyTradeLimit
  {
    var g := h + [t];
    if i < |h| {
      assert g[..i + 1] == h[..i + 1];
    } else {
      assert g[..i + 1] == g;
    }
  }

  lemma TumblingAppend(h: seq<Trade>, t: Trade)
    requires Tumbling(h) && MayFollow(h, t)
    ensures Tumbling(h + [t])
  {
    var g := h + [t];
    forall i | 0 <= i < |g| ensures WindowVolume(g[..i + 1], g[i].window) == g[i].volumeAfter <= g[i].dailyTradeLimit {
      VolumesAppend(h, t, i);
    }
  }

  lemma {:induction false} SplitWindows(h: seq<Trade>, lo: int, hi: int, a: int, b: int, c: int)
    requires a <= b <= c
    ensures Volume(h, lo, hi, a, c) == Volume(h, lo, hi, a, b) + Volume(h, lo, hi, b, c)
  {
    if h != [] {
      SplitWindows(h[..|h| - 1], lo, hi, a, b, c);
    }
  }

  /** Everything made in an interval was counted in a window that starts less than a day before it. */
  lemma {:induction false} IntervalToWindows(h: seq<Trade>, lo: int, hi: int)
    requires Tumbling(h) && OnTime(h)
    ensures VolumeIn(h, lo, hi) == Volume(h, lo, hi, lo - DAY + 1, hi)
  {
    if h != [] {
      TumblingPrefix(h);
      IntervalToWindows(h[..|h| - 1], lo, hi);
    }
  }

  /** A range of window starts that holds only the window `w` counts at most that window's volume. */
  lemma {:induction false} OnlyWindow(h: seq<Trade>, lo: int, hi: int, a: int, w: int)
    requires forall i :: 0 <= i < |h| && a <= h[i].window < a + DAY ==> h[i].window == w
    ensures Volume(h, lo, hi, a, a + DAY) <= WindowVolume(h, w)
  {
    if h != [] {
      OnlyWindow(h[..|h| - 1], lo, hi, a, w);
    }
  }

  /** The trades made in [lo, hi) were each made under a daily limit of at most `m`. */
  ghost predicate LimitedIn(h: seq<Trade>, lo: int, hi: int, m: int) {
    forall i :: 0 <= i < |h| && lo <= h[i].time < hi ==> h[i].dailyTradeLimit <= m
  }

  /** If the last trade's window starts in that day, no other one does, and the last trade bounds its volume. */
  lemma NewestWindow(h: seq<Trade>, lo: int, hi: int, a: int, m: nat, p: seq<Trade>, t: Trade)
    requires Tumbling(h) && LimitedIn(h, lo, hi, m) && h != [] && p == h[..|h| - 1] && t == h[|h| - 1]
    requires lo <= t.time < hi && a <= t.window < a + DAY
    ensures Volume(h, lo, hi, a, a + DAY) <= m
  {
    OnlyWindow(p, lo, hi, a, t.window);
    assert h[..|h| - 1 + 1] == h;
    assert WindowVolume(h, t.window) == t.volumeAfter <= t.dailyTradeLimit;
  }

  /** A day's worth of window starts admits at most one window, hence at most one limit. */
  lemma {:induction false} OneDayOfWindows(h: seq<Trade>, lo: int, hi: int, a: int, m: nat)
    requires Tumbling(h) && LimitedIn(h, lo, hi, m)
    ensures Volume(h, lo, hi, a, a + DAY) <= m
  {
    if h != [] {
      var p, t := h[..|h| - 1], h[|h| - 1];
      TumblingPrefix(h);
      if lo <= t.time < hi && a <= t.window < a + DAY {
        NewestWindow(h, lo, hi, a, m, p, t);
      } else {
        OneDayOfWindows(p, lo, hi, a, m);
      }
    }
  }

  lemma {:induction false} DaysOfWindows(h: seq<Trade>, lo: int, hi: int, a: int, n: nat, m: nat)
    requires Tumbling(h) && LimitedIn(h, lo, hi, m)
    ensures Volume(h, lo, hi, a, a + n * DAY) <= n * m
  {
    if n == 0 {
      NoWindows(h, lo, hi, a);
    } else {
      DaysOfWindows(h, lo, hi, a, n - 1, m);
      OneDayOfWindows(h, lo, hi, a + (n - 1) * DAY, m);
      SplitWindows(h, lo, hi, a, a + (n - 1) * DAY, a + n * DAY);
      assert n * m == (n - 1) * m + m;
    }
  }

  lemma {:induction false} NoWindows(h: seq<Trade>, lo: int, hi: int, a: int)
    ensures Volume(h, lo, hi, a, a) == 0
  {
    if h != [] {
      NoWindows(h[..|h| - 1], lo, hi, a);
    }
  }

  /** The real rate limit: `k` days hold at most `k + 1` daily limits, wherever the interval starts. */
  lemma RateLimit(h: seq<Trade>, lo: int, k: nat, m: nat)
    requires Tumbling(h) && OnTime(h) && LimitedIn(h, lo, lo + k * DAY, m)
    ensures VolumeIn(h, lo, lo + k * DAY) <= (k + 1) * m
  {
    var hi, a := lo + k * DAY, lo - DAY + 1;
    IntervalToWindows(h, lo, hi);
    DaysOfWindows(h, lo, hi, a, k + 1, m);
    SplitWindows(h, lo, hi, a, hi, a + (k + 1) * DAY);
  }

  /** What is really spent in a window is at most what was counted in it. */
  lemma {:induction false} SpentWithinVolume(h: seq<Trade>, w: int)
    requires Tumbling(h)
    ensures WindowSpent(h, w) <= WindowVolume(h, w)
  {
    if h != [] {
      TumblingPrefix(h);
      SpentWithinVolume(h[..|h| - 1], w);
    }
  }

  /** And what is really spent in an interval is at most the volume of its trades. */
  lemma {:induction false} SpentWithinInterval(h: seq<Trade>, lo: int, hi: int)
    requires Tumbling(h)
    ensures SpentIn(h, lo, hi) <= VolumeIn(h, lo, hi)
  {
    if h != [] {
      TumblingPrefix(h);
      SpentWithinInterval(h[..|h| - 1], lo, hi);
    }
  }
}
