/**
 * The water-filling splitter: an amount is spread over several quote curves in
 * chunks, each chunk going to the curve with the best marginal output.
 */
module WaterFill {
  import opened Common
  import opened Arithmetic

  /** A quote curve: input amount to output amount. */
  type Curve = int -> int

  /** What `step` more of the input yields on curve `i`. */
  function Gain(curves: seq<Curve>, alloc: seq<int>, step: int, i: nat): int
    requires |alloc| == |curves| && i < |curves|
  {
    curves[i](alloc[i] + step) - curves[i](alloc[i])
  }

  /** The scan for the best marginal gain among the first `n` curves, from index 0 and gain -1. */
  function Best(curves: seq<Curve>, alloc: seq<int>, step: int, n: nat): (int, int)
    requires |alloc| == |curves| && n <= |curves|
  {
    if n == 0 then (0, -1)
    else
      var (bestI, bestGain) := Best(curves, alloc, step, n - 1);
      var gain := Gain(curves, alloc, step, n - 1);
      if gain > bestGain then (n - 1, gain) else (bestI, bestGain)
  }

  lemma {:induction false} BestBounds(curves: seq<Curve>, alloc: seq<int>, step: int, n: nat)
    requires |alloc| == |curves| && 0 < n <= |curves|
    ensures 0 <= Best(curves, alloc, step, n).0 < n
  {
    if n > 1 {
      BestBounds(curves, alloc, step, n - 1);
    }
  }

  /** The scan finds the first of the largest gains; if every gain is negative it stays at the first curve. */
  lemma {:induction false} BestIsLargest(curves: seq<Curve>, alloc: seq<int>, step: int, n: nat, i: nat)
    requires |alloc| == |curves| && i < n <= |curves|
    ensures var (bestI, bestGain) := Best(curves, alloc, step, n);
            && 0 <= bestI < n
            && Gain(curves, alloc, step, i) <= bestGain
            && (0 <= bestGain ==> bestGain == Gain(curves, alloc, step, bestI))
            && (i < bestI ==> Gain(curves, alloc, step, i) < bestGain)
            && (bestGain < 0 ==> bestI == 0 && bestGain == -1)
  {
    BestBounds(curves, alloc, step, n);
    if i < n - 1 {
      BestIsLargest(curves, alloc, step, n - 1, i);
    } else if n > 1 {
      BestIsLargest(curves, alloc, step, n - 1, 0);
    }
  }

  function Min(a: int, b: int): int {
    if a < b then a else b
  }

  /** The loop: hand out `remaining` chunk by chunk. */
  function Distribute(curves: seq<Curve>, alloc: seq<int>, remaining: int, chunk: int): (r: seq<int>)
    requires |alloc| == |curves| > 0 && 0 < chunk
    ensures |r| == |curves|
    decreases remaining
  {
    if remaining <= 0 then alloc
    else
      BestBounds(curves, alloc, Min(remaining, chunk), |curves|);
      var step := Min(remaining, chunk);
      var bestI := Best(curves, alloc, step, |curves|).0;
      Distribute(curves, alloc[bestI := alloc[bestI] + step], remaining - step, chunk)
  }

  /** How often the loop runs. */
  function Rounds(remaining: int, chunk: int): nat
    requires 0 < chunk
    decreases remaining
  {
    if remaining <= 0 then 0 else 1 + Rounds(remaining - Min(remaining, chunk), chunk)
  }

  function Zeros(n: nat): (z: seq<int>)
    ensures |z| == n && forall i :: 0 <= i < n ==> z[i] == 0
  {
    seq(n, _ => 0)
  }

  /** The scan over the candidates, inside the loop. */
  method FindBest(curves: seq<Curve>, alloc: seq<int>, step: int) returns (bestI: nat)
    requires |alloc| == |curves| > 0
    ensures bestI < |curves| && bestI == Best(curves, alloc, step, |curves|).0
  {
    bestI := 0;
    var bestGain := -1;
    for i := 0 to |curves|
      invariant (bestI, bestGain) == Best(curves, alloc, step, i)
    {
      var cur := curves[i](alloc[i]);
      var next := curves[i](alloc[i] + step);
      var gain := next - cur;
      if gain > bestGain {
        bestGain := gain;
        bestI := i;
      }
    }
    BestBounds(curves, alloc, step, |curves|);
  }

  /** The splitting loop of `computeStep`. */
  method Split(curves: seq<Curve>, amountIn: int, chunk: int) returns (alloc: seq<int>, rounds: nat)
    requires |curves| > 0 && 0 < chunk
    ensures alloc == Distribute(curves, Zeros(|curves|), amountIn, chunk)
    ensures rounds == Rounds(amountIn, chunk)
  {
    alloc := Zeros(|curves|);
    var remaining := amountIn;
    rounds := 0;
    while remaining > 0
      invariant |alloc| == |curves|
      invariant Distribute(curves, alloc, remaining, chunk) == Distribute(curves, Zeros(|curves|), amountIn, chunk)
      invariant rounds + Rounds(remaining, chunk) == Rounds(amountIn, chunk)
      decreases remaining
    {
      var step := if remaining < chunk then remaining else chunk;
      var bestI := FindBest(curves, alloc, step);
      alloc := alloc[bestI := alloc[bestI] + step];
      remaining := remaining - step;
      rounds := rounds + 1;
    }
  }

  // ---------------------------------------------------------------- conservation and termination

  /** The loop hands out exactly what it was given and never takes anything back. */
  lemma {:induction false} DistributeConserves(curves: seq<Curve>, alloc: seq<int>, remaining: int, chunk: int)
    requires |alloc| == |curves| > 0 && 0 < chunk && 0 <= remaining
    ensures Sum(Distribute(curves, alloc, remaining, chunk)) == Sum(alloc) + remaining
    ensures forall i :: 0 <= i < |curves| ==> alloc[i] <= Distribute(curves, alloc, remaining, chunk)[i]
    decreases remaining
  {
    if remaining > 0 {
      var step := Min(remaining, chunk);
      BestBounds(curves, alloc, step, |curves|);
      var bestI := Best(curves, alloc, step, |curves|).0;
      SumUpdate(alloc, bestI, alloc[bestI] + step);
      DistributeConserves(curves, alloc[bestI := alloc[bestI] + step], remaining - step, chunk);
    }
  }

  /** Full chunks, and one more round for what is left over. */
  lemma {:induction false} RoundsCount(remaining: int, chunk: int)
    requires 0 < chunk && 0 <= remaining
    ensures Rounds(remaining, chunk) == remaining / chunk + (if remaining % chunk == 0 then 0 else 1)
    decreases remaining
  {
    if remaining >= chunk {
      RoundsCount(remaining - chunk, chunk);
      DivUnique(remaining, chunk, (remaining - chunk) / chunk + 1, (remaining - chunk) % chunk);
    } else {
      DivUnique(remaining, chunk, 0, remaining);
      assert Rounds(0, chunk) == 0;
    }
  }

  /**
   * With chunks of 1/granularity of the amount, the loop runs at least granularity and fewer than twice
   * granularity times.
   */
  lemma {:induction false} RoundsBelowTwiceGranularity(amountIn: int, granularity: int)
    requires 0 < granularity <= amountIn
    ensures 0 < amountIn / granularity
    ensures granularity <= Rounds(amountIn, amountIn / granularity) <= 2 * granularity - 1
  {
    FloorBounds(amountIn, granularity);
    var chunk := amountIn / granularity;
    RoundsCount(amountIn, chunk);
    LeftoverFits(amountIn, granularity, chunk);
    CeilBetween(amountIn, chunk, granularity, 2 * granularity - 1);
  }

  lemma LeftoverFits(n: int, g: int, c: int)
    requires 0 < g && 0 < c && c * g <= n < c * g + g
    ensures g * c <= n <= (2 * g - 1) * c
  {
    MulMono(1, c, g - 1);
  }

  lemma CeilBetween(n: int, d: int, lo: int, hi: int)
    requires 0 < d && lo * d <= n <= hi * d
    ensures lo <= n / d + (if n % d == 0 then 0 else 1) <= hi
  {
    FloorGalois(n, d, lo);
    var q := n / d;
    assert n == d * q + n % d;
    if q >= hi {
      MulMono(hi, q, d);
      assert q * d == d * q;
      MulCancel(q, hi, d);
    }
  }

  // ---------------------------------------------------------------- optimality

  /** Total output of an allocation. */
  function Total(curves: seq<Curve>, alloc: seq<int>): int
    requires |alloc| == |curves|
  {
    if curves == [] then 0 else curves[0](alloc[0]) + Total(curves[1..], alloc[1..])
  }

  /** The gain of the `k`-th chunk on a curve. */
  function ChunkGain(f: Curve, chunk: int, k: int): int {
    f((k + 1) * chunk) - f(k * chunk)
  }

  /** On chunk multiples the curve never falls. */
  ghost predicate Rising(f: Curve, chunk: int) {
    forall k :: 0 <= k ==> 0 <= ChunkGain(f, chunk, k)
  }

  /** On chunk multiples the gains fall, up to a slack `e` that integer rounding may cause. */
  ghost predicate NearConcave(f: Curve, chunk: int, e: int) {
    forall j, k :: 0 <= j <= k ==> ChunkGain(f, chunk, k) <= ChunkGain(f, chunk, j) + e
  }

  ghost predicate Suitable(curves: seq<Curve>, chunk: int, e: int) {
    forall i :: 0 <= i < |curves| ==> Rising(curves[i], chunk) && NearConcave(curves[i], chunk, e)
  }

  /** An allocation of whole chunks. */
  function Chunks(units: seq<int>, chunk: int): (alloc: seq<int>)
    ensures |alloc| == |units|
    ensures forall i :: 0 <= i < |units| ==> alloc[i] == units[i] * chunk
  {
    seq(|units|, i requires 0 <= i < |units| => units[i] * chunk)
  }

  predicate NonNegative(units: seq<int>) {
    forall i :: 0 <= i < |units| ==> 0 <= units[i]
  }

  /** At price `g`, every chunk taken is worth at least `g` and every chunk left is worth at most `g + e`. */
  ghost predicate Balanced(curves: seq<Curve>, units: seq<int>, chunk: int, g: int, e: int)
    requires |units| == |curves|
  {
    forall i, k :: 0 <= i < |curves| && 0 <= k ==>
      && (k < units[i] ==> g <= ChunkGain(curves[i], chunk, k))
      && (units[i] <= k ==> ChunkGain(curves[i], chunk, k) <= g + e)
  }

  /** Moving one curve from `u` to `v` chunks gains at most `g` per chunk, plus the slack of the added ones. */
  lemma {:induction false} OneCurve(f: Curve, chunk: int, u: int, v: int, g: int, e: int)
    requires 0 <= u && 0 <= v && 0 <= e
    requires forall k :: 0 <= k < u ==> g <= ChunkGain(f, chunk, k)
    requires forall k :: u <= k ==> ChunkGain(f, chunk, k) <= g + e
    ensures f(v * chunk) - f(u * chunk) <= g * (v - u) + e * v
    decreases if u < v then v - u else u - v
  {
    if u < v {
      OneCurve(f, chunk, u, v - 1, g, e);
      assert ChunkGain(f, chunk, v - 1) <= g + e;
    } else if v < u {
      OneCurve(f, chunk, u, v + 1, g, e) by { assert 0 <= v + 1; }
      BelowTaken(f, chunk, u, v, g);
    }
  }

  /** Giving up the chunks from `v` to `u` costs at least `g` each. */
  lemma {:induction false} BelowTaken(f: Curve, chunk: int, u: int, v: int, g: int)
    requires 0 <= v <= u
    requires forall k :: 0 <= k < u ==> g <= ChunkGain(f, chunk, k)
    ensures f(v * chunk) - f(u * chunk) <= g * (v - u)
    decreases u - v
  {
    if v < u {
      BelowTaken(f, chunk, u, v + 1, g);
      assert g <= ChunkGain(f, chunk, v);
    }
  }

  lemma BalancedTail(curves: seq<Curve>, units: seq<int>, chunk: int, g: int, e: int)
    requires |units| == |curves| > 0 && Balanced(curves, units, chunk, g, e)
    ensures Balanced(curves[1..], units[1..], chunk, g, e)
  {
  }

  /** A balanced allocation loses at most `e` per chunk against any other of the same size. */
  lemma {:induction false} BalancedIsBest(curves: seq<Curve>, units: seq<int>, other: seq<int>, chunk: int, g: int,
                                          e: int)
    requires |units| == |other| == |curves| && NonNegative(units) && NonNegative(other) && 0 <= e
    requires Balanced(curves, units, chunk, g, e)
    ensures Total(curves, Chunks(other, chunk)) - Total(curves, Chunks(units, chunk))
         <= g * (Sum(other) - Sum(units)) + e * Sum(other)
  {
    if curves != [] {
      BalancedTail(curves, units, chunk, g, e);
      BalancedIsBest(curves[1..], units[1..], other[1..], chunk, g, e);
      BalancedHead(curves, units, other, chunk, g, e);
      assert Chunks(units, chunk)[1..] == Chunks(units[1..], chunk);
      assert Chunks(other, chunk)[1..] == Chunks(other[1..], chunk);
      Distributes(g, other[0] - units[0], Sum(other[1..]) - Sum(units[1..]));
      Distributes(e, other[0], Sum(other[1..]));
    }
  }

  lemma BalancedHead(curves: seq<Curve>, units: seq<int>, other: seq<int>, chunk: int, g: int, e: int)
    requires |units| == |other| == |curves| > 0 && NonNegative(units) && NonNegative(other) && 0 <= e
    requires Balanced(curves, units, chunk, g, e)
    ensures curves[0](other[0] * chunk) - curves[0](units[0] * chunk) <= g * (other[0] - units[0]) + e * other[0]
  {
    OneCurve(curves[0], chunk, units[0], other[0], g, e);
  }

  lemma Distributes(m: int, x: int, y: int)
    ensures m * (x + y) == m * x + m * y
  {
  }

  /** The chunk the scan picks is worth at least every curve's next chunk. */
  lemma BestChunk(curves: seq<Curve>, units: seq<int>, chunk: int, e: int, i: nat) returns (bestI: nat)
    requires |units| == |curves| && i < |curves| && NonNegative(units) && Suitable(curves, chunk, e)
    ensures bestI < |curves| && bestI == Best(curves, Chunks(units, chunk), chunk, |curves|).0
    ensures ChunkGain(curves[i], chunk, units[i]) <= ChunkGain(curves[bestI], chunk, units[bestI])
  {
    var alloc := Chunks(units, chunk);
    BestIsLargest(curves, alloc, chunk, |curves|, i);
    bestI := Best(curves, alloc, chunk, |curves|).0;
    GainIsChunkGain(curves, units, chunk, i);
    GainIsChunkGain(curves, units, chunk, bestI);
  }

  /** One chunk handed to the best curve keeps the allocation balanced, at a price no higher. */
  lemma ChunkKeepsBalance(curves: seq<Curve>, units: seq<int>, chunk: int, g: int, e: int) returns (bestI: nat, g': int)
    requires |units| == |curves| > 0 && NonNegative(units) && 0 < chunk && 0 <= e
    requires Suitable(curves, chunk, e) && Balanced(curves, units, chunk, g, e)
    ensures bestI < |curves| && bestI == Best(curves, Chunks(units, chunk), chunk, |curves|).0
    ensures Balanced(curves, units[bestI := units[bestI] + 1], chunk, g', e)
  {
    bestI := BestChunk(curves, units, chunk, e, 0);
    var gain := ChunkGain(curves[bestI], chunk, units[bestI]);
    g' := Min(g, gain);
    var units' := units[bestI := units[bestI] + 1];
    forall i, k | 0 <= i < |curves| && 0 <= k
      ensures (k < units'[i] ==> g' <= ChunkGain(curves[i], chunk, k))
           && (units'[i] <= k ==> ChunkGain(curves[i], chunk, k) <= g' + e)
    {
      var _ := BestChunk(curves, units, chunk, e, i);
    }
  }

  lemma GainIsChunkGain(curves: seq<Curve>, units: seq<int>, chunk: int, i: nat)
    requires |units| == |curves| && i < |curves|
    ensures Gain(curves, Chunks(units, chunk), chunk, i) == ChunkGain(curves[i], chunk, units[i])
  {
  }

  /** The whole loop, in chunks: it ends balanced. */
  lemma {:induction false} DistributeEndsBalanced(curves: seq<Curve>, units: seq<int>, n: nat, chunk: int, g: int,
                                                  e: int)
    returns (final: seq<int>, g': int)
    requires |units| == |curves| > 0 && NonNegative(units) && 0 < chunk && 0 <= e
    requires Suitable(curves, chunk, e) && Balanced(curves, units, chunk, g, e)
    ensures |final| == |curves| && NonNegative(final) && Sum(final) == Sum(units) + n
    ensures Distribute(curves, Chunks(units, chunk), n * chunk, chunk) == Chunks(final, chunk)
    ensures Balanced(curves, final, chunk, g', e)
    decreases n
  {
    if n == 0 {
      return units, g;
    }
    var bestI, h := ChunkKeepsBalance(curves, units, chunk, g, e);
    SumUpdate(units, bestI, units[bestI] + 1);
    OneRound(curves, units, n, chunk, bestI);
    final, g' := DistributeEndsBalanced(curves, units[bestI := units[bestI] + 1], n - 1, chunk, h, e);
  }

  /** One round that hands out a full chunk. */
  lemma FullRound(curves: seq<Curve>, alloc: seq<int>, rem: int, chunk: int) returns (bestI: nat)
    requires |alloc| == |curves| > 0 && 0 < chunk <= rem
    ensures bestI < |curves| && bestI == Best(curves, alloc, chunk, |curves|).0
    ensures Distribute(curves, alloc, rem, chunk)
         == Distribute(curves, alloc[bestI := alloc[bestI] + chunk], rem - chunk, chunk)
  {
    BestBounds(curves, alloc, chunk, |curves|);
    bestI := Best(curves, alloc, chunk, |curves|).0;
  }

  lemma {:induction false} OneRound(curves: seq<Curve>, units: seq<int>, n: nat, chunk: int, bestI: nat)
    requires |units| == |curves| > 0 && 0 < n && 0 < chunk
    requires bestI < |curves| && bestI == Best(curves, Chunks(units, chunk), chunk, |curves|).0
    ensures Distribute(curves, Chunks(units, chunk), n * chunk, chunk)
         == Distribute(curves, Chunks(units[bestI := units[bestI] + 1], chunk), (n - 1) * chunk, chunk)
  {
    MulMono(1, n, chunk);
    assert n * chunk - chunk == (n - 1) * chunk;
    var i := FullRound(curves, Chunks(units, chunk), n * chunk, chunk);
    AddChunk(units, chunk, bestI);
  }

  lemma AddChunk(units: seq<int>, chunk: int, i: nat)
    requires i < |units|
    ensures var alloc := Chunks(units, chunk);
            alloc[i := alloc[i] + chunk] == Chunks(units[i := units[i] + 1], chunk)
  {
    assert (units[i] + 1) * chunk == units[i] * chunk + chunk;
  }

  /** Nothing is balanced at the best first gain. */
  lemma {:induction false} ZerosAreBalanced(curves: seq<Curve>, chunk: int, e: int, g: int)
    requires |curves| > 0 && 0 < chunk && 0 <= e && Suitable(curves, chunk, e)
    requires g == Best(curves, Zeros(|curves|), chunk, |curves|).1
    ensures Balanced(curves, Zeros(|curves|), chunk, g, e)
  {
    var zeros := Zeros(|curves|);
    forall i, k | 0 <= i < |curves| && 0 <= k
      ensures ChunkGain(curves[i], chunk, k) <= g + e
    {
      BestIsLargest(curves, zeros, chunk, |curves|, i);
      assert NearConcave(curves[i], chunk, e);
      assert ChunkGain(curves[i], chunk, k) <= ChunkGain(curves[i], chunk, 0) + e;
      ZerosAreChunks(|curves|, chunk);
      GainIsChunkGain(curves, zeros, chunk, i);
    }
  }

  lemma ZerosAreChunks(n: nat, chunk: int)
    ensures Chunks(Zeros(n), chunk) == Zeros(n)
  {
  }

  lemma {:induction false} BalancedBeatsSameSize(curves: seq<Curve>, units: seq<int>, other: seq<int>, chunk: int,
                                                 g: int, e: int, n: int)
    requires |units| == |other| == |curves| && NonNegative(units) && NonNegative(other) && 0 <= e
    requires Balanced(curves, units, chunk, g, e) && Sum(units) == n && Sum(other) == n
    ensures Total(curves, Chunks(other, chunk)) <= Total(curves, Chunks(units, chunk)) + e * n
  {
    BalancedIsBest(curves, units, other, chunk, g, e);
    SameSize(Total(curves, Chunks(other, chunk)), Total(curves, Chunks(units, chunk)), g, e, Sum(other), Sum(units), n);
  }

  lemma SameSize(x: int, y: int, g: int, e: int, a: int, b: int, n: int)
    requires x - y <= g * (a - b) + e * a && a == n && b == n
    ensures x <= y + e * n
  {
    var d := a - b;
    assert d == 0;
    assert g * d == 0;
  }

  /**
   * Greedy water-filling of `n` chunks gives away at most `e` per chunk against every
   * allocation of `n` chunks; with gains that truly fall (`e == 0`) it is optimal.
   */
  lemma {:induction false} GreedyNearOptimal(curves: seq<Curve>, chunk: int, n: nat, e: int, other: seq<int>)
    requires |curves| > 0 && 0 < chunk && 0 <= e && Suitable(curves, chunk, e)
    requires |other| == |curves| && NonNegative(other) && Sum(other) == n
    ensures Total(curves, Chunks(other, chunk))
         <= Total(curves, Distribute(curves, Zeros(|curves|), n * chunk, chunk)) + e * n
  {
    var zeros := Zeros(|curves|);
    var g := Best(curves, zeros, chunk, |curves|).1;
    ZerosAreBalanced(curves, chunk, e, g);
    ZerosAreChunks(|curves|, chunk);
    SumZeros(|curves|);
    var final, g' := DistributeEndsBalanced(curves, zeros, n, chunk, g, e);
    BalancedBeatsSameSize(curves, final, other, chunk, g', e, n);
  }

  lemma {:induction false} SumZeros(n: nat)
    ensures Sum(Zeros(n)) == 0
  {
    if n > 0 {
      SumZeros(n - 1);
      assert Zeros(n)[1..] == Zeros(n - 1);
    }
  }

  // ---------------------------------------------------------------- amounts that the chunk does not divide

  /** No curve ever falls. */
  ghost predicate Ascending(curves: seq<Curve>) {
    forall i, x, y :: 0 <= i < |curves| && 0 <= x <= y ==> curves[i](x) <= curves[i](y)
  }

  /** Two amounts of at least a chunk each start with the same round. */
  lemma SameRound(curves: seq<Curve>, alloc: seq<int>, m: int, k: int, chunk: int) returns (next: seq<int>)
    requires |alloc| == |curves| > 0 && 0 < chunk <= m && chunk <= k
    ensures |next| == |curves|
    ensures Distribute(curves, alloc, m, chunk) == Distribute(curves, next, m - chunk, chunk)
    ensures Distribute(curves, alloc, k, chunk) == Distribute(curves, next, k - chunk, chunk)
  {
    var bestI := FullRound(curves, alloc, m, chunk);
    var again := FullRound(curves, alloc, k, chunk);
    next := alloc[bestI := alloc[bestI] + chunk];
  }

  /** The loop hands out the whole chunks first, then the remainder. */
  lemma {:induction false} WholeChunksFirst(curves: seq<Curve>, alloc: seq<int>, n: nat, m: int, k: int, r: int,
                                            chunk: int)
    requires |alloc| == |curves| > 0 && 0 <= r < chunk && m == n * chunk && k == m + r
    ensures Distribute(curves, alloc, k, chunk) == Distribute(curves, Distribute(curves, alloc, m, chunk), r, chunk)
    decreases n
  {
    if n > 0 {
      MulMono(1, n, chunk);
      assert m - chunk == (n - 1) * chunk;
      var next := SameRound(curves, alloc, m, k, chunk);
      WholeChunksFirst(curves, next, n - 1, m - chunk, k - chunk, r, chunk);
    }
  }

  lemma {:induction false} TotalUpdate(curves: seq<Curve>, alloc: seq<int>, i: nat, v: int)
    requires |alloc| == |curves| && i < |curves|
    ensures Total(curves, alloc[i := v]) == Total(curves, alloc) - curves[i](alloc[i]) + curves[i](v)
  {
    if i == 0 {
      assert alloc[i := v][1..] == alloc[1..];
    } else {
      TotalUpdate(curves[1..], alloc[1..], i - 1, v);
      assert alloc[i := v][1..] == alloc[1..][i - 1 := v];
    }
  }

  /** A last round of less than a chunk. */
  lemma LastRound(curves: seq<Curve>, alloc: seq<int>, r: int, chunk: int) returns (bestI: nat)
    requires |alloc| == |curves| > 0 && 0 < r < chunk
    ensures bestI < |curves|
    ensures Distribute(curves, alloc, r, chunk) == alloc[bestI := alloc[bestI] + r]
  {
    BestBounds(curves, alloc, r, |curves|);
    bestI := Best(curves, alloc, r, |curves|).0;
  }

  /** Handing out the remainder never lowers the total. */
  lemma {:induction false} RemainderAdds(curves: seq<Curve>, alloc: seq<int>, r: int, chunk: int)
    requires |alloc| == |curves| > 0 && 0 <= r < chunk && NonNegative(alloc) && Ascending(curves)
    ensures Total(curves, alloc) <= Total(curves, Distribute(curves, alloc, r, chunk))
  {
    if r > 0 {
      var i := LastRound(curves, alloc, r, chunk);
      TotalUpdate(curves, alloc, i, alloc[i] + r);
      assert curves[i](alloc[i]) <= curves[i](alloc[i] + r);
    }
  }

  /** For any amount: the loop pays at least every allocation of the whole chunks in it, up to `e` per chunk. */
  lemma {:induction false} GreedyOnAnyAmount(curves: seq<Curve>, chunk: int, amountIn: int, e: int, other: seq<int>)
    requires |curves| > 0 && 0 < chunk && 0 <= amountIn && 0 <= e && Suitable(curves, chunk, e)
    requires amountIn % chunk == 0 || Ascending(curves)
    requires |other| == |curves| && NonNegative(other) && Sum(other) == amountIn / chunk
    ensures Total(curves, Chunks(other, chunk))
         <= Total(curves, Distribute(curves, Zeros(|curves|), amountIn, chunk)) + e * Sum(other)
  {
    var n, r, zeros := amountIn / chunk, amountIn % chunk, Zeros(|curves|);
    FloorGalois(amountIn, chunk, 0);
    assert amountIn == n * chunk + r;
    GreedyNearOptimal(curves, chunk, n, e, other);
    MulMono(0, n, chunk);
    WholeChunksFirst(curves, zeros, n, n * chunk, amountIn, r, chunk);
    if r > 0 {
      DistributeConserves(curves, zeros, n * chunk, chunk);
      RemainderAdds(curves, Distribute(curves, zeros, n * chunk, chunk), r, chunk);
    }
  }

  /** Without the slack: no allocation of the whole chunks pays more than the greedy loop. */
  lemma {:induction false} GreedyOptimal(curves: seq<Curve>, chunk: int, amountIn: int, other: seq<int>)
    requires |curves| > 0 && 0 < chunk && 0 <= amountIn && Suitable(curves, chunk, 0)
    requires amountIn % chunk == 0 || Ascending(curves)
    requires |other| == |curves| && NonNegative(other) && Sum(other) == amountIn / chunk
    ensures Total(curves, Chunks(other, chunk)) <= Total(curves, Distribute(curves, Zeros(|curves|), amountIn, chunk))
  {
    GreedyOnAnyAmount(curves, chunk, amountIn, 0, other);
  }
}
