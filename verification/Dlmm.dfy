/** Quoting over discrete bins: the bin walk of `dlmmQuote`, over any arithmetic that rounds monotonically. */
module Dlmm {
  import opened Common
  import opened Arithmetic

  datatype DlmmBin = DlmmBin(id: int, reserveX: int, reserveY: int)

  datatype DlmmState = DlmmState(activeId: int, binStep: int, bins: seq<DlmmBin>)

  /**
   * The floating-point part: an amount over, and times, the price of a bin, floored back to an integer.
   * The arguments are the amount, the bin's id and the bin step.
   */
  datatype Doubles = Doubles(over: (int, int, int) -> int, times: (int, int, int) -> int)

  /** Rounding is monotone, and so is multiplying or dividing by a positive price. */
  ghost predicate RoundsMonotonically(d: Doubles) {
    && (forall n, m, id, step :: 0 <= n <= m ==> 0 <= d.over(n, id, step) <= d.over(m, id, step))
    && (forall n, m, id, step :: 0 <= n <= m ==> 0 <= d.times(n, id, step) <= d.times(m, id, step))
  }

  /** What the bin can pay. */
  function Reserve(xForY: bool, b: DlmmBin): int {
    if xForY then b.reserveY else b.reserveX
  }

  /** The input that empties the bin. */
  function Drain(d: Doubles, step: int, xForY: bool, b: DlmmBin): int {
    if xForY then d.over(b.reserveY, b.id, step) else d.times(b.reserveX, b.id, step)
  }

  /** The output of an input that stays inside the bin. */
  function Fill(d: Doubles, step: int, xForY: bool, b: DlmmBin, rem: int): int {
    if xForY then d.times(rem, b.id, step) else d.over(rem, b.id, step)
  }

  /** What the loop adds to `out`. */
  function WalkBins(d: Doubles, step: int, xForY: bool, bins: seq<DlmmBin>, rem: int): int
    decreases |bins|
  {
    if rem <= 0 || bins == [] then 0
    else if Reserve(xForY, bins[0]) <= 0 then WalkBins(d, step, xForY, bins[1..], rem)
    else
      var drain := Drain(d, step, xForY, bins[0]);
      if rem >= drain && drain > 0 then
        Reserve(xForY, bins[0]) + WalkBins(d, step, xForY, bins[1..], rem - drain)
      else Fill(d, step, xForY, bins[0], rem)
  }

  function FilterBins(xForY: bool, active: int, bins: seq<DlmmBin>): seq<DlmmBin> {
    if bins == [] then []
    else if (if xForY then bins[0].id <= active else bins[0].id >= active)
    then [bins[0]] + FilterBins(xForY, active, bins[1..])
    else FilterBins(xForY, active, bins[1..])
  }

  /** A stable insertion: downward from the active bin for X to Y, upward for Y to X. */
  function InsertBin(xForY: bool, b: DlmmBin, sorted: seq<DlmmBin>): seq<DlmmBin> {
    if sorted == [] || (if xForY then b.id >= sorted[0].id else b.id <= sorted[0].id) then [b] + sorted
    else [sorted[0]] + InsertBin(xForY, b, sorted[1..])
  }

  function SortBins(xForY: bool, bins: seq<DlmmBin>): seq<DlmmBin> {
    if bins == [] then [] else InsertBin(xForY, bins[0], SortBins(xForY, bins[1..]))
  }

  function BinsAhead(s: DlmmState, xForY: bool): seq<DlmmBin> {
    SortBins(xForY, FilterBins(xForY, s.activeId, s.bins))
  }

  function DlmmQuote(d: Doubles, s: DlmmState, feeBps: int, xForY: bool, amountIn: int): int {
    if amountIn <= 0 then 0
    else WalkBins(d, s.binStep, xForY, BinsAhead(s, xForY), AfterFee(amountIn, feeBps))
  }

  /** `dlmmQuote`: the loop over the bins ahead. */
  method QuoteBins(d: Doubles, s: DlmmState, feeBps: int, xForY: bool, amountIn: int) returns (out: int)
    ensures out == DlmmQuote(d, s, feeBps, xForY, amountIn)
  {
    if amountIn <= 0 {
      return 0;
    }
    var remaining := JsDiv(amountIn * (BPS - feeBps), BPS);
    if remaining <= 0 {
      return 0;
    }
    out := 0;
    var bins := BinsAhead(s, xForY);
    for i := 0 to |bins|
      invariant out + WalkBins(d, s.binStep, xForY, bins[i..], remaining) == DlmmQuote(d, s, feeBps, xForY, amountIn)
    {
      if remaining <= 0 {
        break;
      }
      var bin := bins[i];
      assert bins[i..][0] == bin && bins[i..][1..] == bins[i + 1..];
      if xForY {
        if bin.reserveY <= 0 {
          continue;
        }
        var xToDrain := d.over(bin.reserveY, bin.id, s.binStep);
        if remaining >= xToDrain && xToDrain > 0 {
          out := out + bin.reserveY;
          remaining := remaining - xToDrain;
        } else {
          out := out + d.times(remaining, bin.id, s.binStep);
          remaining := 0;
        }
      } else {
        if bin.reserveX <= 0 {
          continue;
        }
        var yToDrain := d.times(bin.reserveX, bin.id, s.binStep);
        if remaining >= yToDrain && yToDrain > 0 {
          out := out + bin.reserveX;
          remaining := remaining - yToDrain;
        } else {
          out := out + d.over(remaining, bin.id, s.binStep);
          remaining := 0;
        }
      }
    }
  }

  // ---------------------------------------------------------------- the bin list

  predicate NoFarther(xForY: bool, a: DlmmBin, b: DlmmBin) {
    (xForY ==> a.id >= b.id) && (!xForY ==> a.id <= b.id)
  }

  ghost predicate NearestFirst(xForY: bool, bins: seq<DlmmBin>) {
    forall i, j :: 0 <= i < j < |bins| ==> NoFarther(xForY, bins[i], bins[j])
  }

  lemma {:induction false} InsertAddsBin(xForY: bool, b: DlmmBin, sorted: seq<DlmmBin>)
    ensures multiset(InsertBin(xForY, b, sorted)) == multiset(sorted) + multiset{b}
  {
    if sorted != [] && !NoFarther(xForY, b, sorted[0]) {
      InsertAddsBin(xForY, b, sorted[1..]);
      assert sorted == [sorted[0]] + sorted[1..];
    }
  }

  lemma {:induction false} InsertKeepsNearestFirst(xForY: bool, b: DlmmBin, sorted: seq<DlmmBin>)
    requires NearestFirst(xForY, sorted)
    ensures NearestFirst(xForY, InsertBin(xForY, b, sorted))
  {
    if sorted == [] || NoFarther(xForY, b, sorted[0]) {
    } else {
      InsertKeepsNearestFirst(xForY, b, sorted[1..]);
      InsertAddsBin(xForY, b, sorted[1..]);
      var rest := InsertBin(xForY, b, sorted[1..]);
      forall x | x in rest ensures NoFarther(xForY, sorted[0], x) {
        assert x in multiset(rest);
        assert x == b || x in sorted[1..];
      }
    }
  }

  lemma {:induction false} SortBinsIsSorted(xForY: bool, bins: seq<DlmmBin>)
    ensures NearestFirst(xForY, SortBins(xForY, bins))
    ensures multiset(SortBins(xForY, bins)) == multiset(bins)
  {
    if bins != [] {
      SortBinsIsSorted(xForY, bins[1..]);
      InsertKeepsNearestFirst(xForY, bins[0], SortBins(xForY, bins[1..]));
      InsertAddsBin(xForY, bins[0], SortBins(xForY, bins[1..]));
      assert bins == [bins[0]] + bins[1..];
    }
  }

  lemma {:induction false} FilterBinsKeepsExactly(xForY: bool, active: int, bins: seq<DlmmBin>, b: DlmmBin)
    ensures multiset(FilterBins(xForY, active, bins))[b]
         == if (xForY && b.id <= active) || (!xForY && b.id >= active) then multiset(bins)[b] else 0
  {
    if bins != [] {
      FilterBinsKeepsExactly(xForY, active, bins[1..], b);
      assert bins == [bins[0]] + bins[1..];
    }
  }

  /** The walk meets exactly the bins from the active one on, downward for X to Y and upward for Y to X, in order. */
  lemma BinsAheadAreTheBins(s: DlmmState, xForY: bool, b: DlmmBin)
    ensures var bins := BinsAhead(s, xForY);
            && (xForY ==> forall i, j :: 0 <= i < j < |bins| ==> bins[i].id >= bins[j].id)
            && (!xForY ==> forall i, j :: 0 <= i < j < |bins| ==> bins[i].id <= bins[j].id)
    ensures multiset(BinsAhead(s, xForY))[b]
         == if (xForY && b.id <= s.activeId) || (!xForY && b.id >= s.activeId) then multiset(s.bins)[b] else 0
  {
    SortBinsIsSorted(xForY, FilterBins(xForY, s.activeId, s.bins));
    FilterBinsKeepsExactly(xForY, s.activeId, s.bins, b);
  }

  // ---------------------------------------------------------------- when the quote is monotone

  lemma {:induction false} WalkBinsNonNegative(d: Doubles, step: int, xForY: bool, bins: seq<DlmmBin>, rem: int)
    requires RoundsMonotonically(d)
    ensures 0 <= WalkBins(d, step, xForY, bins, rem)
    decreases |bins|
  {
    if rem > 0 && bins != [] {
      WalkBinsNonNegative(d, step, xForY, bins[1..], rem);
      WalkBinsNonNegative(d, step, xForY, bins[1..], rem - Drain(d, step, xForY, bins[0]));
    }
  }

  /** One unit short of draining a bin pays no more than the bin holds, in every bin the walk can reach. */
  predicate Sound(d: Doubles, step: int, xForY: bool, bins: seq<DlmmBin>)
    decreases |bins|
  {
    if bins == [] then true
    else if Reserve(xForY, bins[0]) <= 0 then Sound(d, step, xForY, bins[1..])
    else
      var drain := Drain(d, step, xForY, bins[0]);
      drain <= 0
      || ((drain == 1 || Fill(d, step, xForY, bins[0], drain - 1) <= Reserve(xForY, bins[0]))
          && Sound(d, step, xForY, bins[1..]))
  }

  lemma {:induction false} SoundWalkMono(d: Doubles, step: int, xForY: bool, bins: seq<DlmmBin>, r1: int, r2: int)
    requires RoundsMonotonically(d) && Sound(d, step, xForY, bins) && r1 <= r2
    ensures 0 <= WalkBins(d, step, xForY, bins, r1) <= WalkBins(d, step, xForY, bins, r2)
    decreases |bins|
  {
    WalkBinsNonNegative(d, step, xForY, bins, r1);
    WalkBinsNonNegative(d, step, xForY, bins, r2);
    if r1 > 0 && bins != [] {
      var drain := Drain(d, step, xForY, bins[0]);
      if Reserve(xForY, bins[0]) <= 0 {
        SoundWalkMono(d, step, xForY, bins[1..], r1, r2);
      } else if drain > 0 && r2 >= drain {
        WalkBinsNonNegative(d, step, xForY, bins[1..], r2 - drain);
        if r1 >= drain {
          SoundWalkMono(d, step, xForY, bins[1..], r1 - drain, r2 - drain);
        } else {
          assert Fill(d, step, xForY, bins[0], r1) <= Fill(d, step, xForY, bins[0], drain - 1);
        }
      }
    }
  }

  /** Otherwise some input is paid more than the next one. */
  lemma {:induction false} UnsoundWalkFalls(d: Doubles, step: int, xForY: bool, bins: seq<DlmmBin>) returns (r: int)
    requires !Sound(d, step, xForY, bins)
    ensures 1 <= r && WalkBins(d, step, xForY, bins, r) > WalkBins(d, step, xForY, bins, r + 1)
    decreases |bins|
  {
    var drain := Drain(d, step, xForY, bins[0]);
    if Reserve(xForY, bins[0]) <= 0 {
      r := UnsoundWalkFalls(d, step, xForY, bins[1..]);
    } else if drain > 1 && Fill(d, step, xForY, bins[0], drain - 1) > Reserve(xForY, bins[0]) {
      r := drain - 1;
    } else {
      var rest := UnsoundWalkFalls(d, step, xForY, bins[1..]);
      r := drain + rest;
    }
  }

  /** Below a full fee, every positive remainder is what some input leaves. */
  lemma FeeReaches(feeBps: int, r: int) returns (x: int)
    requires 0 <= feeBps < BPS && 1 <= r
    ensures 1 <= x && AfterFee(x, feeBps) == r
  {
    var m := BPS - feeBps;
    x := (r * BPS + m - 1) / m;
    FloorBounds(r * BPS + m - 1, m);
    assert r * BPS <= x * m < r * BPS + m;
    if x <= 0 {
      MulMono(x, 0, m);
    }
    DivUnique(x * m, BPS, r, x * m - r * BPS);
  }

  ghost predicate QuoteIsMonotone(d: Doubles, s: DlmmState, feeBps: int, xForY: bool) {
    forall x, y :: x <= y ==> 0 <= DlmmQuote(d, s, feeBps, xForY, x) <= DlmmQuote(d, s, feeBps, xForY, y)
  }

  lemma DlmmQuoteNonNegative(d: Doubles, s: DlmmState, feeBps: int, xForY: bool, x: int)
    requires RoundsMonotonically(d)
    ensures 0 <= DlmmQuote(d, s, feeBps, xForY, x)
  {
    WalkBinsNonNegative(d, s.binStep, xForY, BinsAhead(s, xForY), AfterFee(x, feeBps));
  }

  /**
   * The quote is monotone if, and below a full fee only if, no bin pays more than it holds just before it
   * is drained.
   */
  lemma {:induction false} MonotoneIffSound(d: Doubles, s: DlmmState, feeBps: int, xForY: bool)
    requires RoundsMonotonically(d)
    ensures Sound(d, s.binStep, xForY, BinsAhead(s, xForY)) || feeBps >= BPS ==> QuoteIsMonotone(d, s, feeBps, xForY)
    ensures 0 <= feeBps < BPS && QuoteIsMonotone(d, s, feeBps, xForY)
            ==> Sound(d, s.binStep, xForY, BinsAhead(s, xForY))
  {
    var bins := BinsAhead(s, xForY);
    if Sound(d, s.binStep, xForY, bins) || feeBps >= BPS {
      forall x: int, y: int | x <= y
        ensures 0 <= DlmmQuote(d, s, feeBps, xForY, x) <= DlmmQuote(d, s, feeBps, xForY, y)
      {
        QuotesRise(d, s, feeBps, xForY, x, y);
      }
    } else if 0 <= feeBps < BPS {
      QuoteFalls(d, s, feeBps, xForY);
    }
  }

  lemma {:induction false} QuotesRise(d: Doubles, s: DlmmState, feeBps: int, xForY: bool, x: int, y: int)
    requires RoundsMonotonically(d) && x <= y
    requires Sound(d, s.binStep, xForY, BinsAhead(s, xForY)) || feeBps >= BPS
    ensures 0 <= DlmmQuote(d, s, feeBps, xForY, x) <= DlmmQuote(d, s, feeBps, xForY, y)
  {
    var bins := BinsAhead(s, xForY);
    if 0 < y {
      AfterFeeMono(y, y, feeBps);
      WalkBinsNonNegative(d, s.binStep, xForY, bins, AfterFee(y, feeBps));
      if 0 < x {
        AfterFeeMono(x, y, feeBps);
        if feeBps < BPS {
          SoundWalkMono(d, s.binStep, xForY, bins, AfterFee(x, feeBps), AfterFee(y, feeBps));
        } else {
          assert feeBps == BPS ==> AfterFee(x, feeBps) == AfterFee(y, feeBps) == 0;
        }
      }
    }
  }

  lemma {:induction false} QuoteFalls(d: Doubles, s: DlmmState, feeBps: int, xForY: bool)
    requires RoundsMonotonically(d) && 0 <= feeBps < BPS && !Sound(d, s.binStep, xForY, BinsAhead(s, xForY))
    ensures !QuoteIsMonotone(d, s, feeBps, xForY)
  {
    var r := UnsoundWalkFalls(d, s.binStep, xForY, BinsAhead(s, xForY));
    var x := FeeReaches(feeBps, r);
    var y := FeeReaches(feeBps, r + 1);
    if y < x {
      AfterFeeMono(y, x, feeBps);
    }
    assert DlmmQuote(d, s, feeBps, xForY, x) > DlmmQuote(d, s, feeBps, xForY, y);
  }

  // ---------------------------------------------------------------- what the bins hold

  function Held(xForY: bool, bins: seq<DlmmBin>): int {
    if bins == [] then 0
    else (if Reserve(xForY, bins[0]) > 0 then Reserve(xForY, bins[0]) else 0) + Held(xForY, bins[1..])
  }

  /**
   * Every bin that holds something takes a unit to drain, and one unit before that pays no more than it and
   * the later bins hold.
   */
  predicate Covered(d: Doubles, step: int, xForY: bool, bins: seq<DlmmBin>)
    decreases |bins|
  {
    if bins == [] then true
    else if Reserve(xForY, bins[0]) <= 0 then Covered(d, step, xForY, bins[1..])
    else
      var drain := Drain(d, step, xForY, bins[0]);
      && drain > 0
      && (drain == 1 || Fill(d, step, xForY, bins[0], drain - 1) <= Held(xForY, bins))
      && Covered(d, step, xForY, bins[1..])
  }

  ghost predicate Exceeds(f: (int, int, int) -> int, id: int, step: int, bound: int) {
    exists r :: 0 < r && bound < f(r, id, step)
  }

  ghost function Exceeding(f: (int, int, int) -> int, id: int, step: int, bound: int): (r: int)
    requires Exceeds(f, id, step, bound)
    ensures 0 < r && bound < f(r, id, step)
  {
    var r :| 0 < r && bound < f(r, id, step);
    r
  }

  /** Some input pays more than any given amount, at every price. */
  ghost predicate FillsGrow(d: Doubles) {
    forall id, step, bound :: Exceeds(d.over, id, step, bound) && Exceeds(d.times, id, step, bound)
  }

  lemma {:induction false} HeldNonNegative(xForY: bool, bins: seq<DlmmBin>)
    ensures 0 <= Held(xForY, bins)
  {
    if bins != [] {
      HeldNonNegative(xForY, bins[1..]);
    }
  }

  /** Covered bins never pay more than they hold. */
  lemma {:induction false} PaysAtMostHeld(d: Doubles, step: int, xForY: bool, bins: seq<DlmmBin>, rem: int)
    requires RoundsMonotonically(d) && Covered(d, step, xForY, bins)
    ensures WalkBins(d, step, xForY, bins, rem) <= Held(xForY, bins)
    decreases |bins|
  {
    HeldNonNegative(xForY, bins);
    if bins != [] {
      var drain := Drain(d, step, xForY, bins[0]);
      PaysAtMostHeld(d, step, xForY, bins[1..], rem);
      PaysAtMostHeld(d, step, xForY, bins[1..], rem - drain);
      if rem > 0 && Reserve(xForY, bins[0]) > 0 && rem < drain {
        assert Fill(d, step, xForY, bins[0], rem) <= Fill(d, step, xForY, bins[0], drain - 1);
      }
    }
  }

  lemma SomeFillExceeds(d: Doubles, step: int, xForY: bool, b: DlmmBin, bound: int) returns (r: int)
    requires FillsGrow(d)
    ensures 0 < r && bound < Fill(d, step, xForY, b, r)
  {
    assert Exceeds(d.over, b.id, step, bound) && Exceeds(d.times, b.id, step, bound);
    r := if xForY then Exceeding(d.times, b.id, step, bound) else Exceeding(d.over, b.id, step, bound);
  }

  /** Any others do, for some input. */
  lemma {:induction false} UncoveredBinsOverpay(d: Doubles, step: int, xForY: bool, bins: seq<DlmmBin>) returns (r: int)
    requires FillsGrow(d) && !Covered(d, step, xForY, bins)
    ensures 1 <= r && Held(xForY, bins) < WalkBins(d, step, xForY, bins, r)
    decreases |bins|
  {
    var drain := Drain(d, step, xForY, bins[0]);
    if Reserve(xForY, bins[0]) <= 0 {
      r := UncoveredBinsOverpay(d, step, xForY, bins[1..]);
    } else if drain <= 0 {
      r := SomeFillExceeds(d, step, xForY, bins[0], Held(xForY, bins));
    } else if drain > 1 && Fill(d, step, xForY, bins[0], drain - 1) > Held(xForY, bins) {
      r := drain - 1;
    } else {
      var rest := UncoveredBinsOverpay(d, step, xForY, bins[1..]);
      r := drain + rest;
    }
  }

  /** Below a full fee, the quote stays within what the bins ahead hold if and only if they are covered. */
  lemma {:induction false} PaysAtMostHeldIff(d: Doubles, s: DlmmState, feeBps: int, xForY: bool)
    requires RoundsMonotonically(d) && FillsGrow(d) && 0 <= feeBps < BPS
    ensures var bins := BinsAhead(s, xForY);
            (forall x :: DlmmQuote(d, s, feeBps, xForY, x) <= Held(xForY, bins)) <==> Covered(d, s.binStep, xForY, bins)
  {
    var bins := BinsAhead(s, xForY);
    if Covered(d, s.binStep, xForY, bins) {
      HeldNonNegative(xForY, bins);
      forall x: int ensures DlmmQuote(d, s, feeBps, xForY, x) <= Held(xForY, bins) {
        PaysAtMostHeld(d, s.binStep, xForY, bins, AfterFee(x, feeBps));
      }
    } else {
      var r := UncoveredBinsOverpay(d, s.binStep, xForY, bins);
      var x := FeeReaches(feeBps, r);
      assert DlmmQuote(d, s, feeBps, xForY, x) > Held(xForY, bins);
    }
  }
}
