/** What a session can lose besides the account each trade declares, and when it cannot. */
module UserFunds {
  import opened Common
  import opened Wire
  import opened RouterProgram
  import opened RouterGuarantees
  import opened Sessions
  import opened TradeHistory
  import opened Runs
  import opened TakingRoutes
  import opened DayLimit

  // ---------------------------------------------------------------- losses over a set of accounts

  function Lost(l: Ledger, l': Ledger, k: Pubkey): nat {
    if Balance(l', k) < Balance(l, k) then Balance(l, k) - Balance(l', k) else 0
  }

  /** What the accounts `ks` lose together. */
  function Losses(l: Ledger, l': Ledger, ks: seq<Pubkey>): nat {
    if ks == [] then 0 else Lost(l, l', ks[0]) + Losses(l, l', ks[1..])
  }

  /** What they lose in the trades of a run made in [lo, hi). */
  function LostIn(w: World, ops: seq<Op>, ks: seq<Pubkey>, lo: int, hi: int): nat {
    if ops == [] then 0
    else
      var before, op := Run(w, ops[..|ops| - 1]), ops[|ops| - 1];
      LostIn(w, ops[..|ops| - 1], ks, lo, hi)
      + (if op.Execute? && lo <= op.r.now < hi then Losses(before.ledger, Step(before, op).0.ledger, ks) else 0)
  }

  // ---------------------------------------------------------------- venues that keep to the declared accounts

  /** The call lowers no balance of `ks` except, perhaps, those of the declared input and output accounts. */
  ghost predicate LeavesAlone(call: VenueCall, c: RouteAccounts, ks: seq<Pubkey>) {
    forall l, p, metas, d, k :: k in ks && k !in {c.input, c.output} && call(l, p, metas, d).Some? ==>
      Balance(l, k) <= Balance(call(l, p, metas, d).value, k)
  }

  lemma {:induction false} LegsLeaveAlone(l: Ledger, legs: seq<SwapLeg>, infos: seq<AccountMeta>, call: VenueCall,
                                          c: RouteAccounts, ks: seq<Pubkey>, k: Pubkey)
    requires LeavesAlone(call, c, ks) && k in ks && k !in {c.input, c.output}
    requires RunLegs(l, legs, infos, call).Some?
    ensures Balance(l, k) <= Balance(RunLegs(l, legs, infos, call).value, k)
    decreases |legs|
  {
    if legs != [] {
      LegsLeaveAlone(RunLeg(l, legs[0], infos, call).value, legs[1..], infos, call, c, ks, k);
    }
  }

  /** Then an account of `ks` loses nothing in a route, unless it is the declared input, which loses what is spent. */
  lemma RouteLoss(l: Ledger, c: RouteAccounts, a: RouteArgs, call: VenueCall, ks: seq<Pubkey>, k: Pubkey)
    requires RouteResult(l, c, a, call).Some? && LeavesAlone(call, c, ks) && k in ks
    ensures var o := RouteResult(l, c, a, call).value;
            Lost(l, o.final, k) <= if k == c.input then o.spent else 0
  {
    var o := RouteResult(l, c, a, call).value;
    RouteIsSafe(l, c, a, call);
    RouteFields(l, c, a, call);
    SettleFields(l, o.swapped, c, a);
    if k != c.output {
      FeesArrive(l, c, a, call, k);
      if k != c.input {
        LegsRan(l, c, a, call);
        LegsLeaveAlone(l, a.legs, c.remaining, call, c, ks, k);
      }
    }
  }

  lemma {:induction false} LegsRan(l: Ledger, c: RouteAccounts, a: RouteArgs, call: VenueCall)
    requires RouteResult(l, c, a, call).Some?
    ensures RunLegs(l, a.legs, c.remaining, call) == Some(RouteResult(l, c, a, call).value.swapped)
  {
  }

  lemma {:induction false} LossesOfOne(l: Ledger, l': Ledger, ks: seq<Pubkey>, j: Pubkey, m: nat)
    requires NoDuplicates(ks)
    requires forall k :: k in ks ==> Lost(l, l', k) <= if k == j then m else 0
    ensures Losses(l, l', ks) <= if j in ks then m else 0
  {
    if ks != [] {
      LossesOfOne(l, l', ks[1..], j, m);
      assert ks[0] in ks;
    }
  }

  /** So all accounts of `ks` together lose at most what the trade is counted as spending. */
  lemma {:induction false} TradeLoss(w: World, op: Op, ks: seq<Pubkey>)
    requires op.Execute? && NoDuplicates(ks) && LeavesAlone(op.call, op.c, ks)
    ensures Step(w, op).1 == [] ==> Losses(w.ledger, Step(w, op).0.ledger, ks) == 0
    ensures forall t :: Step(w, op).1 == [t] ==>
              Losses(w.ledger, Step(w, op).0.ledger, ks) <= t.spent && t.time == op.r.now
    ensures |Step(w, op).1| <= 1
  {
    if TradeResult(w, op.r, op.c, op.call).None? {
      LossesOfOne(w.ledger, w.ledger, ks, op.c.input, 0);
    } else {
      var args := DecodeRoute(op.r.routeData).value.0;
      var o := RouteResult(w.ledger, op.c, args, op.call).value;
      forall k | k in ks ensures Lost(w.ledger, o.final, k) <= if k == op.c.input then o.spent else 0 {
        RouteLoss(w.ledger, op.c, args, op.call, ks, k);
      }
      LossesOfOne(w.ledger, o.final, ks, op.c.input, o.spent);
    }
  }

  /** Every trade goes through venues that leave the other accounts of `ks` alone. */
  ghost predicate CarefulRun(ops: seq<Op>, ks: seq<Pubkey>) {
    ops != [] ==>
      && CarefulRun(ops[..|ops| - 1], ks)
      && (ops[|ops| - 1].Execute? ==> LeavesAlone(ops[|ops| - 1].call, ops[|ops| - 1].c, ks))
  }

  lemma {:induction false} StepLoss(w: World, h: seq<Trade>, op: Op, ks: seq<Pubkey>, lo: int, hi: int)
    requires NoDuplicates(ks) && (op.Execute? ==> LeavesAlone(op.call, op.c, ks))
    ensures SpentIn(h, lo, hi)
            + (if op.Execute? && lo <= op.r.now < hi then Losses(w.ledger, Step(w, op).0.ledger, ks) else 0)
         <= SpentIn(h + Step(w, op).1, lo, hi)
  {
    var more := Step(w, op).1;
    assert h + [] == h;
    if op.Execute? {
      TradeLoss(w, op, ks);
      if more != [] {
        assert more == [more[0]];
        SpentAppend(h, more[0], lo, hi);
      }
    }
  }

  lemma {:induction false} LossWithinSpending(w: World, ops: seq<Op>, ks: seq<Pubkey>, lo: int, hi: int)
    requires NoDuplicates(ks) && CarefulRun(ops, ks)
    ensures LostIn(w, ops, ks, lo, hi) <= SpentIn(History(w, ops), lo, hi)
  {
    if ops != [] {
      var before, op := ops[..|ops| - 1], ops[|ops| - 1];
      LossWithinSpending(w, before, ks, lo, hi);
      StepLoss(Run(w, before), History(w, before), op, ks, lo, hi);
    }
  }

  /** With such venues the limits bound everything the user's accounts lose, declared or not. */
  lemma {:induction false} LossIsLimited(w: World, owner: Pubkey, key: Pubkey, now: i64, c: Config, ops: seq<Op>,
                                         ks: seq<Pubkey>, lo: int, hi: int, k: nat, m: nat)
    requires JustCreated(w, owner, key, now, c) && ClockNeverGoesBack(now, ops)
    requires hi == lo + k * DAY && LimitedIn(History(w, ops), lo, hi, m) && NoDuplicates(ks) && CarefulRun(ops, ks)
    ensures LostIn(w, ops, ks, lo, hi) <= SpentIn(History(w, ops), lo, hi) <= (k + 1) * m
  {
    SpendIsLimited(w, owner, key, now, c, ops, lo, k, m);
    LossWithinSpending(w, ops, ks, lo, hi);
  }

  // ---------------------------------------------------------------- venues that do not

  /** A signed trade of one unit, through a venue that takes all of an undeclared account instead. */
  function TakeOther(key: Pubkey, a: Pubkey, b: Pubkey, t: i64, other: u64): Op {
    Execute(Take(key, a, b, 0, t, 1).r, WalletAccounts(b), Taking(OtherKey(b), other))
  }

  lemma OtherIsTaken(l: Ledger, a: Pubkey, b: Pubkey, other: u64)
    requires l == Wallet(a, b, other)
    ensures var r := RouteResult(l, WalletAccounts(b), TakingArgs(a, b, 1), Taking(OtherKey(b), other));
            r.Some? && r.value.spent == 0 && Lost(l, r.value.final, OtherKey(b)) == other
  {
    WalletIsTakeable(a, b, other, 1);
    KeysOfWallet(b);
    WalletReads(a, b, other);
    var c, args, call := WalletAccounts(b), TakingArgs(a, b, 1), Taking(OtherKey(b), other);
    TakingSucceeds(l, c, args, OtherKey(b), other);
    TakenMoves(l, OtherKey(b), other, RouteResult(l, c, args, call).value.final);
  }

  /** The trade is accepted, spends nothing, and takes everything. */
  ghost predicate TakesAll(w: World, op: Op, k: Pubkey, amount: int) {
    && op.Execute? && |Step(w, op).1| == 1 && Step(w, op).1[0].spent == 0
    && Lost(w.ledger, Step(w, op).0.ledger, k) == amount
  }

  lemma AcceptedTakesAll(w: World, r: TradeRequest, c: RouteAccounts, call: VenueCall, w': World, t: Trade, k: Pubkey,
                         amount: int)
    requires TradeResult(w, r, c, call) == Some((w', t)) && t.spent == 0 && Lost(w.ledger, w'.ledger, k) == amount
    ensures TakesAll(w, Execute(r, c, call), k, amount)
  {
  }

  lemma OtherTakeIsAccepted(w: World, key: Pubkey, a: Pubkey, b: Pubkey, t: i64, other: u64, s': Session, o: Outcome)
    requires Open(w.session, key, a, b, 0, t) && 0 < w.session.config.maxTradeAmount
    requires Recorded(w.session, 1, t) == (s', true)
    requires RouteResult(w.ledger, WalletAccounts(b), TakingArgs(a, b, 1), Taking(OtherKey(b), other)) == Some(o)
    requires o.spent == 0 && Lost(w.ledger, o.final, OtherKey(b)) == other
    ensures TakesAll(w, TakeOther(key, a, b, t, other), OtherKey(b), other)
  {
    TakeIsAllowed(w.session, key, a, b, 0, t, 1);
    var r, c, call := Take(key, a, b, 0, t, 1).r, WalletAccounts(b), Taking(OtherKey(b), other);
    TradeGoesThrough(w, r, c, TakingArgs(a, b, 1), call, s', o);
    AcceptedTakesAll(w, r, c, call, World(s', o.final), TradeResult(w, r, c, call).value.1, OtherKey(b), other);
  }

  lemma {:induction false} RunOfOne(w: World, op: Op, k: Pubkey, lo: int, hi: int)
    requires op.Execute? && lo <= op.r.now < hi
    ensures History(w, [op]) == Step(w, op).1
    ensures LostIn(w, [op], [k], lo, hi) == Lost(w.ledger, Step(w, op).0.ledger, k)
    ensures ClockNeverGoesBack(op.r.now, [op])
  {
    var ops, ks := [op], [k];
    assert ops[..0] == [] && ks[1..] == [];
    assert Run(w, []) == w && History(w, []) == [] && LostIn(w, [], ks, lo, hi) == 0;
    assert Losses(w.ledger, Step(w, op).0.ledger, []) == 0;
  }

  lemma {:induction false} SpentByOne(h: seq<Trade>, lo: int, hi: int)
    requires |h| == 1 && h[0].spent == 0
    ensures SpentIn(h, lo, hi) == 0
  {
    assert h[..0] == [];
  }

  /** A fresh session that makes this one trade, on the wallet. */
  ghost predicate LosesUndeclared(w: World, ops: seq<Op>, k: Pubkey, now: i64, amount: int) {
    && ClockNeverGoesBack(now, ops)
    && SpentIn(History(w, ops), now, now + 1) == 0 && LostIn(w, ops, [k], now, now + 1) == amount
  }

  lemma TakeOtherRuns(w: World, key: Pubkey, a: Pubkey, b: Pubkey, now: i64, other: u64)
    requires w.ledger == Wallet(a, b, other) && Open(w.session, key, a, b, 0, now)
    requires 0 < w.session.config.maxTradeAmount && Recorded(w.session, 1, now).1
    ensures LosesUndeclared(w, [TakeOther(key, a, b, now, other)], OtherKey(b), now, other)
  {
    var op := TakeOther(key, a, b, now, other);
    OtherIsTaken(w.ledger, a, b, other);
    var o := RouteResult(w.ledger, WalletAccounts(b), TakingArgs(a, b, 1), Taking(OtherKey(b), other)).value;
    OtherTakeIsAccepted(w, key, a, b, now, other, Recorded(w.session, 1, now).0, o);
    RunOfOne(w, op, OtherKey(b), now, now + 1);
    SpentByOne(Step(w, op).1, now, now + 1);
  }

  /** Otherwise no limit bounds what an undeclared account loses: any session can spend nothing and lose any amount. */
  lemma UndeclaredLossWitness(owner: Pubkey, key: Pubkey, now: i64, c: Config, other: u64)
    requires ValidConfig(c, now)
    ensures exists w, ops, k :: JustCreated(w, owner, key, now, c) && LosesUndeclared(w, ops, k, now, other)
  {
    var a, b, s := c.inputs[0], c.outputs[0], Created(owner, key, now, c);
    TakeOtherRuns(World(s, Wallet(a, b, other)), key, a, b, now, other);
  }
}
