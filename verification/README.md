# A verified model of the swap aggregator

The repository routes token swaps on Solana. A planner written in TypeScript
(`route-finder/`) prices pools, splits an amount over them, picks a route and packs it
into instruction bytes. Two Rust programs execute it: `delegated-trading` checks a
session key's request against the owner's policy, and `aggregator-router` calls the
venues, measures the balances that really moved, and takes the fees. This project models
these parts in Dafny and proves what holds across them.

| file | part of the system |
|---|---|
| `Common`, `Arithmetic` | machine types, floor division, sums |
| `TickMath`, `RealBounds`, `TickAccuracy`, `TickExactness` | tick prices: order, reciprocity, distance to sqrt(1.0001^tick) |
| `Clmm`, `ClmmPath`, `ClmmLiquidity` | concentrated-liquidity quoting |
| `ExactCurve`, `ClmmRounding` | the same walk over exact reals, and what rounding makes of it |
| `Dlmm`, `DlmmRounding`, `BinRounding` | discrete-bin quoting, doubles at bin prices that are powers of two, and the same walk over exact amounts |
| `Amm`, `Pricing`, `PricingGuarantees` | constant-product quoting, dispatch by pool kind, and what its quotes mean for a trader |
| `WaterFill`, `AmmSplitting`, `ClmmSplitting`, `SplitGuarantees` | the greedy splitter and how far it is from the best split |
| `PoolGraphs`, `Router`, `RouteGuarantees`, `RouterWitnesses`, `Aggregator` | graph, steps, search, quote |
| `LegPlans`, `Wire`, `PlanExecution` | flattening a route into legs, the instruction bytes, Borsh decoding, and the venue calls that come of it |
| `Base58`, `Venues` | the compile-time key decoder, the venue registry |
| `RouterProgram`, `RouterGuarantees`, `FeeAliasing`, `SwapExample`, `TakingRoutes` | the on-chain router over raw account bytes, and concrete routes |
| `Sessions`, `TradeHistory`, `Runs`, `TightRate`, `DayLimit`, `FullUse`, `UserFunds` | the session account, its transactions, whole runs |

Code that updates variables or fields is modelled by methods and classes, and each of
them is proved equal to a specification function (`Walk`, `Distribute`, `StepFrom`,
`RouteResult`, `Recorded`, `Step`, ...). The laws are lemmas about those functions.

## How the parts are modelled

* **Numbers.** BigInt values are `int`; `JsDiv` rounds toward zero as BigInt division
  does, `>>` floors. `u8`, `u16`, `u64` and `i64` are ranges with saturating, checked or
  truncating operations written out.
* **Quoting.** `Walk` is the loop of `clmmQuote` with both `maxIn > 0` guards. The order
  of equal ticks is the original one, as JavaScript's stable sort leaves it.
* **Discrete bins.** The bin walk is the original loop. Its floating-point part is a pair
  of functions, `Doubles`: an amount over, and times, a bin's price, floored. Monotonicity
  and the bound by the reserves need of them only that rounding keeps the order of amounts;
  the distance to the exact walk needs each single amount to be floored exactly, which
  double precision does up to 2^53 at prices that are powers of two. The witnesses are at
  such prices too.
* **Routing.** A quoter is any function of pool, token and amount. Steps, conservation,
  route lengths and the comparison with direct pools need only that 0 is quoted for 0,
  which `Pricing.QuotesAreZeroAtZero` proves of the dispatcher for every pool. The
  comparison with pairs of pools needs the second pool to be monotone. `Pool.ref` is the
  identity of the pool object, so equal pools are the same object, as in the code. The
  ranking may leave ties in any order, so a step is any that some ranking gives.
* **Accounts on chain.** An account is its owning program and its raw bytes; the router
  reads mints, owners, balances and decimals out of the bytes. Any two accounts of the
  instruction may be the same one. A venue call is an arbitrary change of the whole
  ledger, or a failure.
* **Transactions.** `Step` is one atomic transaction; between two of them the ledger may
  change in any way. `Runs.ExecuteTrade` performs the handler's assignments and the
  runtime's rollback, because `record_trade` writes before its last check.

## What the code does differently from its documentation

* `clmm.ts:22` calls the tick price exact and monotonic. It is exact for tick 0 and for
  no other tick (`TickExactness.ExactOnlyAtZero`). It is monotone on the ticks from -n to
  n exactly when n is below 2^20 (`TickMath.MonotoneExactlyBelowBound`); bits from 20
  upward are ignored, so tick 2^20 is priced as tick 0. Below that bound it is
  sqrt(1.0001^tick), rounded up by less than one unit of Q64.64, within a relative 2^-46 in
  the square (`TickAccuracy.SqrtRatioIsAccurate`).
* A partial fill whose `maxIn` is 0 (a price sitting on an initialized tick, or little
  liquidity) runs through the tick: `ClmmPath.OvershootsDownIffNoCapacity` and
  `ClmmPath.OvershootsUpIff` give the exact conditions, `ClmmPath.OvershootWitness` and
  `ClmmPath.OvershootUpWitness` whole quotes that do. The quote is monotone all the same
  (`Clmm.QuoteMonotone`), for every snapshot. It is rounded as the exact curve with the
  liquidity in front of that tick, carried on beyond it (`ClmmRounding.ReachedRounding`),
  not as the curve of all ranges (`ClmmRounding.NoRoomBreaksBothBounds`).
* A discrete-bin quote can fall as the input grows, and can exceed what the bins hold.
  For fees from 0 to below 100%, it is monotone if and only if no bin pays more than it
  holds one unit before it is drained (`Dlmm.MonotoneIffSound`), and it stays within what
  the bins hold if and only if each takes a unit to drain and no bin pays, one unit before
  that, more than it and the later bins hold (`Dlmm.PaysAtMostHeldIff`).
  `DlmmRounding.QuoteFallsAtLargeBin` is a bin of 2^53 + 3 units that breaks both, and
  `DlmmRounding.DearBinPaysAnything` a bin that is worth less than a unit and pays any
  amount.
* For the same reason `findBestRoute` may miss a better pair of pools. It never does if
  the second pool is sound in this sense (`RouteGuarantees.SoundPairsAreBeaten`), and for
  every second pool that is not there is a graph in which it does
  (`RouterWitnesses.UnsoundPairsCanWin`).
* Hop amounts add up to their step exactly when the step splits or its best pool is
  listed once (`Router.StepConservesIff`); `RouterWitnesses.DuplicatesDoubleTheInput` is
  a step of 50 units whose hops take 100. `quoteFromPools` does not remove duplicates;
  `quote` does.
* "Rolling 24h" limits are tumbling windows. Over all runs without a change of policy,
  every 24 hours stay within `daily_trade_limit` if and only if the session expires at
  most a day after its creation, or allows single units against a limit of 2^64 - 1
  (`DayLimit.DailyLimitHoldsIff`), in counted volume and in what the declared input
  accounts lose alike. In general any k days count at most k + 1 limits
  (`Runs.VolumeIsLimited`). A valid session can spend all of them if and only if it is
  still live k days after its creation and has the nonces for the trades that k + 1 limits
  take (`FullUse.ReachesBoundIff`).
* The limits bound the declared input account of each trade and no other. A signed leg can
  take everything in another account of the user while nothing is counted as spent
  (`UserFunds.UndeclaredLossWitness`, for every configuration); SECURITY.md lists this as
  residual (M-1, V-3). If the venues leave the undeclared accounts alone, the limits bound
  what all accounts lose together (`UserFunds.LossIsLimited`).
* The planner's minimum output ignores the on-chain fees. Fills that deliver exactly the
  quote always pass if and only if the slippage setting is at least 20 bps plus the
  integrator fee (`RouterGuarantees.PerfectFillsPassIff`).
* Net output equals received minus both fees if and only if no charged fee account is
  the output account itself (`RouterGuarantees.ExactNetIff`). Whether that is so for every
  ledger and venue shows in the accounts and arguments of the call
  (`FeeAliasing.NetIsAlwaysExactIff`), at a single amount (`FeeAliasing.OneAmountDecides`).
  `SwapExample.NetExceedsBothFees` is a route, down to the account bytes, whose integrator
  fee comes back to the user.

## Model

| member | source | states |
|---|---|---|
| TickMath.SqrtRatioAtTick | route-finder/src/core/clmm.ts:47-65 | the price of every tick, however large, is positive |
| TickMath.GetSqrtRatioAtTick | route-finder/src/core/clmm.ts:47-65 | the bit loop, inversion and rounding compute that function for every tick |
| TickMath.MagicTable | route-finder/src/core/clmm.ts:23-44 | each magic constant is at most the floored product of all the lower ones: the inequality that monotonicity rests on |
| TickMath.RatioBounds | route-finder/src/core/clmm.ts:48-57 | every partial ratio stays between the product of all constants so far and 1.0, so the inversion never divides by zero |
| TickMath.RatioAntitone | route-finder/src/core/clmm.ts:48-57 | despite a floor after each factor, a larger tick magnitude never has a larger ratio |
| TickMath.SqrtRatioMono | route-finder/src/core/clmm.ts:47-65 | prices are monotone in the tick for all ticks with magnitude below 2^20, across the sign change |
| TickMath.RatioPeriodic | route-finder/src/core/clmm.ts:53-57 | bits from 20 upward are ignored: ratios repeat with period 2^20 |
| TickMath.FallsAtTheBound | route-finder/src/core/clmm.ts:47-65 | tick 2^20 is priced at 1.0, strictly below tick 1 |
| TickMath.MonotoneExactlyBelowBound | route-finder/src/core/clmm.ts:20-65 | the documented monotonicity holds on -n..n if and only if n < 2^20 |
| TickMath.MirrorTicksAreReciprocal | route-finder/src/core/clmm.ts:58-64 | a tick and its negation have reciprocal prices, up to rounding both up |
| TickExactness.ExactOnlyAtZero | route-finder/src/core/clmm.ts:20-65 | the documented exactness: the square of the price is 1.0001^tick for tick 0 and for no other tick, however large |
| TickAccuracy.MagicIsAccurate | route-finder/src/core/clmm.ts:20-44 | constant i, squared, is 1.0001^(-2^i) up to a relative 3^i/2^112 |
| TickAccuracy.RatioAbove | route-finder/src/core/clmm.ts:48-57 | the bit loop's ratio, squared, is at most the exact power with that allowance, for every tick |
| TickAccuracy.RatioBelow | route-finder/src/core/clmm.ts:48-57 | with one unit given back per floored product it is at least the exact power less the allowance |
| TickAccuracy.SqrtRatioIsAccurate | route-finder/src/core/clmm.ts:46-65 | for every tick below 2^20 in magnitude the result is sqrt(1.0001^tick) in Q64.64, rounded up by less than one unit, within a relative 2^-46 in the square, through floors and inversion |
| Clmm.QuoteByWalking | route-finder/src/core/clmm.ts:94-155 | the loop over boundary ticks with its breaks and final fill computes the recursive quote, for every snapshot |
| Clmm.NextSqrtRange | route-finder/src/core/clmm.ts:79-88 | a fill moves the price only in the direction of the swap |
| Clmm.NextSqrtMono | route-finder/src/core/clmm.ts:79-88 | more input moves the price at least as far |
| Clmm.FillMono | route-finder/src/core/clmm.ts:122-139 | the output of a fill inside one range is non-negative and grows with the input, through two floors |
| Clmm.MoveAtMostWidth | route-finder/src/core/clmm.ts:115-140 | an input up to maxIn moves the price by no more than the distance to the tick, on either side |
| Clmm.FillBelowCross | route-finder/src/core/clmm.ts:115-140 | filling less than maxIn never pays more than crossing the whole range |
| Clmm.WalkMono | route-finder/src/core/clmm.ts:111-154 | output grows with the remaining input across any number of crossings and liquidity changes, duplicates and ticks on the wrong side included |
| Clmm.QuoteMonotone | route-finder/src/core/clmm.ts:94-155 | the whole quote is non-negative and monotone in amountIn, in both directions, for every pool and fee |
| ClmmPath.SortIsSorted | route-finder/src/core/clmm.ts:107-109 | the boundary sort orders the ticks and keeps each as often as it was listed |
| ClmmPath.BoundariesAreTheTicksAhead | route-finder/src/core/clmm.ts:106-109 | the walk meets exactly the ticks ahead of the price, nearest first |
| ClmmPath.ConsistentIsDownstream | route-finder/src/core/clmm.ts:102-113 | if the price lies between its tick's ratio and the next, every boundary price lies ahead, in order |
| ClmmPath.WalkMovesForward | route-finder/src/core/clmm.ts:111-153 | from such a snapshot the walk never moves the price backward |
| ClmmPath.WalkPriceMono | route-finder/src/core/clmm.ts:111-153 | a larger input never leaves the price short of where a smaller one leaves it |
| ClmmPath.QuotePriceMonotone | route-finder/src/core/clmm.ts:94-155 | both, for whole quotes |
| ClmmPath.NeverOvershoots | route-finder/src/core/clmm.ts:115-140 | with maxIn > 0 a partial fill ends between the current price and the target, despite three different floors |
| ClmmPath.OvershootsDownIffNoCapacity | route-finder/src/core/clmm.ts:116-127 | going down, the partial-fill branch stays at or above the tick if and only if maxIn > 0 |
| ClmmPath.OvershootsUpIff | route-finder/src/core/clmm.ts:129-140 | going up, the exact input at which a fill passes the tick price |
| ClmmPath.OvershootWitness | route-finder/src/core/clmm.ts:94-155 | a consistent snapshot on its only initialized tick: the quote fills the whole trade below that tick |
| ClmmPath.OvershootUpWitness | route-finder/src/core/clmm.ts:94-155 | a consistent snapshot one unit below a tick: the quote ends 2^64 units further up |
| ClmmLiquidity.CrossingUpdatesLiquidity | route-finder/src/core/clmm.ts:121-135 | adding or subtracting one liquidityNet at a crossing gives the liquidity of the new range as summed over all ticks |
| ClmmLiquidity.WalkMatchesReference | route-finder/src/core/clmm.ts:111-154 | the walk with running liquidity equals a walk that sums each range's liquidity afresh |
| ClmmLiquidity.QuoteUsesRangeLiquidity | route-finder/src/core/clmm.ts:4-8 | for whole quotes over distinct ticks: every range is filled with its own liquidity, in both directions |
| ClmmPath.CrossingIsRounded | route-finder/src/core/clmm.ts:68-77 | crossing a whole range takes and pays the exact amounts of the curve, each rounded down |
| ClmmPath.FillDownRounding | route-finder/src/core/clmm.ts:68-84 | a zeroForOne fill pays more than the exact curve minus 1 and less than the exact curve plus L/2^64 |
| ClmmPath.FillUpRounding | route-finder/src/core/clmm.ts:68-88 | a oneForZero fill never pays more than the exact curve, and loses less than 1 + L*2^64/p^2 |
| ExactCurve.Tangent | route-finder/src/core/clmm.ts:4-8 | the reference: chained ranges of constant product over exact reals, each starting at the price where the last one ended, lie below every tangent, across all ends of ranges |
| ExactCurve.PaysConcave | route-finder/src/core/clmm.ts:4-8 | hence the same step of input pays less further along |
| ClmmRounding.RangesAreChained | route-finder/src/core/clmm.ts:111-154 | the boundaries of a forward walk make such a chain: crossing changes the liquidity, not the price |
| ClmmRounding.CrossingIsExact | route-finder/src/core/clmm.ts:68-77 | maxIn and the payment of a crossing are the exact ones of the chain, each rounded down |
| ClmmRounding.WalkRounding | route-finder/src/core/clmm.ts:111-154 | if no boundary on the way has maxIn 0: a walk that crosses k ranges pays more than the exact chain for the same input less k + 1 units (and L*2^64/p^2 of the last range going up), and at most what the exact chain pays for k more units of input (and L/2^64 going down) |
| ClmmRounding.QuoteRounding | route-finder/src/core/clmm.ts:94-155 | the same two bounds for quotes of consistent snapshots with room before every boundary on the way, on the whole units that feeBps ten-thousandths leave of the input |
| ClmmRounding.WalkWithinReach | route-finder/src/core/clmm.ts:111-154 | a boundary with maxIn 0 ends the walk for every input: walk and end are those over the boundaries before it |
| ClmmRounding.ReachedRounding | route-finder/src/core/clmm.ts:94-155 | the quote of every consistent snapshot, those with maxIn 0 included, keeps the same two bounds against the exact chain that goes on without crossing from the first boundary with maxIn 0 |
| ClmmRounding.QuoteNearExactChain | route-finder/src/core/clmm.ts:94-155 | against that chain at the exact input that the fee leaves: the rounding of the fee costs at most one more unit of input |
| ClmmRounding.QuoteBelowSpot | route-finder/src/core/clmm.ts:94-155 | hence no quote beats the spot price, by more than a unit of input for each crossing and, going down, L/2^64 |
| ClmmRounding.NoRoomBreaksBothBounds | route-finder/src/core/clmm.ts:115-127 | with maxIn 0 neither bound holds: a quote of 500 where the exact chain pays 800, or 200 |
| Dlmm.QuoteBins | route-finder/src/core/dlmm.ts:31-73 | the loop over the bins ahead computes the recursive quote |
| Dlmm.BinsAheadAreTheBins | route-finder/src/core/dlmm.ts:40-42 | the walk meets exactly the bins from the active one on, each as often as listed, downward for X to Y and upward for Y to X |
| Dlmm.SoundWalkMono | route-finder/src/core/dlmm.ts:44-72 | output grows with the input over any bins none of which overpays one unit before it is drained |
| Dlmm.UnsoundWalkFalls | route-finder/src/core/dlmm.ts:44-72 | otherwise some input is paid more than the next one |
| Dlmm.FeeReaches | route-finder/src/core/dlmm.ts:36 | below a full fee every remainder is left by some input |
| Dlmm.MonotoneIffSound | route-finder/src/core/dlmm.ts:31-73 | the whole quote is monotone if, and with a fee from 0 to below 100% only if, no bin it can reach overpays one unit before it is drained |
| Dlmm.PaysAtMostHeld | route-finder/src/core/dlmm.ts:44-72 | if every bin takes a unit to drain, and pays one unit before that at most what it and the later bins hold, the walk never pays more than the bins hold |
| Dlmm.UncoveredBinsOverpay | route-finder/src/core/dlmm.ts:44-72 | any other bins pay more than they hold for some input |
| Dlmm.PaysAtMostHeldIff | route-finder/src/core/dlmm.ts:31-73 | so the quote stays within what the bins ahead hold if and only if they are covered in that sense |
| DlmmRounding.NearestMono | route-finder/src/core/dlmm.ts:51-56 | Number() keeps the order of amounts, through ties to even and changes of spacing |
| DlmmRounding.BinaryPricesRoundMonotonically | route-finder/src/core/dlmm.ts:20-26 | doubles at bin prices that are powers of two meet the assumption on rounding |
| DlmmRounding.BinaryFillsGrow | route-finder/src/core/dlmm.ts:20-26 | and at every such price some input is paid more than any bound |
| DlmmRounding.QuoteFallsAtLargeBin | route-finder/src/core/dlmm.ts:48-58 | one bin at price 1 where 2^53 + 3 units are paid 2^53 + 4, more than the bin holds, and one unit more is paid less |
| DlmmRounding.DearBinPaysAnything | route-finder/src/core/dlmm.ts:51-57 | a bin whose reserve is worth less than one unit is never drained and pays any input at its price |
| BinRounding.BinWalkRounding | route-finder/src/core/dlmm.ts:44-72 | where single amounts are floored exactly: a walk that empties k bins pays more than the exact walk less one unit, and at most what the exact walk pays for k more units of input |
| BinRounding.BinQuoteRounding | route-finder/src/core/dlmm.ts:31-73 | so for whole quotes, at the exact input that the fee leaves |
| BinRounding.BinaryPricesFloorExactly | route-finder/src/core/dlmm.ts:20-26 | double precision floors exactly up to 2^53 at prices that are powers of two |
| Amm.OutputIsLargestKeepingProduct | route-finder/src/core/amm.ts:14-24 | on the input after the fee: the output is below the reserve and is the largest one that keeps the product of the reserves (if and only if) |
| Amm.OutputOnGrossInput | route-finder/src/core/amm.ts:14-24 | on the gross input: an output is payable if and only if some a with 10,000 a <= x (10,000 - feeBps) keeps the product |
| Amm.OutputNearExactCurve | route-finder/src/core/amm.ts:14-24 | between the exact curve at x (10,000 - feeBps) / 10,000, and that curve one unit of input and one of output lower |
| Arithmetic.FeeLeaves | route-finder/src/core/clmm.ts:99 | a whole amount is left by the fee if and only if 10,000 of it are at most the input times (10,000 - feeBps) |
| Arithmetic.FeeTakesItsRate | route-finder/src/core/dlmm.ts:36 | the fee takes feeBps ten-thousandths of the input, rounded up to a whole unit |
| Amm.AmountOutMonotone | route-finder/src/core/amm.ts:14-24 | output is non-negative and monotone for all inputs, reserves and fees, the degenerate ones included |
| Amm.RoundTripNeverProfits | route-finder/src/core/amm.ts:14-24 | swapping the output back on the updated reserves returns at most the input, wherever the fee is credited |
| Amm.SequentialNeverBeatsWhole | route-finder/src/core/amm.ts:14-24 | two trades through one pool never pay more than one trade of both amounts |
| Pricing.OwnTokensAreQuoted | route-finder/src/core/pricing.ts:13-24 | a pool never throws for its own tokens; constant-product pools always throw for others |
| Pricing.QuotesAreZeroAtZero | route-finder/src/core/pricing.ts:13-24 | the dispatcher quotes 0 for 0 for every pool and token, whatever the arithmetic of bin prices |
| Pricing.QuotesAreNonNegative | route-finder/src/core/pricing.ts:13-24 | no quote of any pool is negative |
| Pricing.QuotesAreMonotoneIff | route-finder/src/core/pricing.ts:13-24 | every pool is monotone, except exactly (for fees that are not negative) the discrete-bin ones with a bin that overpays one unit before it is drained |
| PricingGuarantees.MirrorQuotesAlike | route-finder/src/core/amm.ts:26-40 | a constant-product pool and its mirror image, tokens and reserves exchanged, quote alike |
| PricingGuarantees.QuoteIsLargestPayable | route-finder/src/core/pricing.ts:13-24 | of the dispatcher: tokenA in, the largest output that keeps the product with reserveA as the one that grows; tokenB in, with reserveB |
| PricingGuarantees.SellingBackNeverProfits | route-finder/src/core/pricing.ts:13-24 | selling the output back to the updated pool returns at most the input, from either side, whether the fee is credited or not |
| PricingGuarantees.ConcentratedQuote | route-finder/src/core/pricing.ts:13-24 | tokenA is sold into the exact chain of token0 reserves, tokenB into that of token1: both bounds for the dispatcher |
| PricingGuarantees.NeverBeatsSpot | route-finder/src/core/pricing.ts:13-24 | tokenA in is paid at most the square of the square-root price per unit, tokenB in its inverse, up to the rounding |
| PricingGuarantees.DiscreteQuote | route-finder/src/core/pricing.ts:13-24 | tokenA is sold for the Y of the active bin and those below, tokenB for the X of the active bin and those above: both bounds for the dispatcher |
| PricingGuarantees.NothingIsPaidForNothing | route-finder/src/core/pricing.ts:13-24 | no input, or a fee of 100% or more, is paid nothing by any pool |
| WaterFill.BestIsLargest | route-finder/src/router/router.ts:77-87 | the scan returns the first pool with the largest marginal gain, or the first pool if all gains are negative |
| WaterFill.FindBest | route-finder/src/router/router.ts:77-87 | the scanning loop computes the specified choice |
| WaterFill.Split | route-finder/src/router/router.ts:73-90 | the water-filling loop computes the specified distribution in the specified number of rounds |
| WaterFill.DistributeConserves | route-finder/src/router/router.ts:73-90 | the loop hands out exactly the amount and never takes anything back |
| WaterFill.RoundsCount | route-finder/src/router/router.ts:75-90 | the number of rounds: full chunks, and one for the remainder |
| WaterFill.RoundsBelowTwiceGranularity | route-finder/src/router/router.ts:66-90 | between granularity and 2*granularity - 1 rounds, whenever there is a positive chunk |
| WaterFill.DistributeEndsBalanced | route-finder/src/router/router.ts:75-90 | the loop keeps a balance: no further chunk anywhere gains more than some level g (plus slack), no chunk given gained less |
| WaterFill.BalancedIsBest | route-finder/src/router/router.ts:43-49 | a balanced allocation pays at least any other, up to the level times the difference in chunks and the slack |
| WaterFill.GreedyNearOptimal | route-finder/src/router/router.ts:43-91 | if chunk gains fall up to a slack e, the greedy total is within e per chunk of every allocation of the same chunks |
| WaterFill.GreedyOptimal | route-finder/src/router/router.ts:43-91 | with gains that really fall no division of the whole chunks pays more than the greedy loop, whatever the amount |
| WaterFill.WholeChunksFirst | route-finder/src/router/router.ts:73-90 | the loop hands out the whole chunks exactly as if there were no remainder, then the remainder |
| WaterFill.GreedyOnAnyAmount | route-finder/src/router/router.ts:66-91 | for amounts the chunk does not divide: on curves that do not fall, greedy is within e per chunk of every division of the whole chunks |
| AmmSplitting.PoolIsNearConcave | route-finder/src/core/amm.ts:20-23 | a constant-product pool's chunk gains fall up to a slack of 2 + reserveOut/(reserveIn + 1), floors included |
| AmmSplitting.GreedyOnConstantProduct | route-finder/src/router/router.ts:66-91 | on real constant-product pools the greedy split of any amount is within that slack per chunk of every division of its whole chunks |
| ClmmSplitting.ClmmIsNearConcave | route-finder/src/core/clmm.ts:94-155 | the chunk gains of every consistent concentrated pool fall across crossings and changes of liquidity, up to a slack given by the spot price, the number of boundaries in reach and the end of the walk |
| SplitGuarantees.PoolGainsFall | route-finder/src/core/pricing.ts:13-24 | the dispatcher's chunk gains fall up to the slack of the pool's own pricing: constant-product, or concentrated with any consistent snapshot |
| SplitGuarantees.StepNearOptimalOnPools | route-finder/src/router/router.ts:43-110 | a step over such pools, mixed in any way, pays at least every division of its amount / (amount / granularity) chunks among the min(pools, max(1, maxSplits)) best ranked pools, up to the largest slack per chunk |
| SplitGuarantees.RouteNearOptimalOnPools | route-finder/src/router/router.ts:131-165 | and so does the route that the search returns, against every such division among the direct pools |
| PoolGraphs.EntryCount | route-finder/src/router/router.ts:18-29 | how often the index lists a pool under a token, dead pools and self-pairs included |
| PoolGraphs.DirectCount | route-finder/src/router/router.ts:30-34 | direct() lists exactly the pools with two positive reserves that join two tokens, each as often as it was supplied |
| PoolGraphs.DirectKeepsOrder | route-finder/src/router/router.ts:16-34 | one pool more adds at most itself, behind the ones that were there |
| PoolGraphs.PoolGraph.constructor | route-finder/src/router/router.ts:16-24 | the mutable index agrees with the specified entries for every token |
| PoolGraphs.PoolGraph.Add | route-finder/src/router/router.ts:25-29 | one pool is appended to one token's list; all others are unchanged |
| PoolGraphs.PoolGraph.Direct | route-finder/src/router/router.ts:30-34 | the filter returns the specified pools in index order |
| PoolGraphs.PoolGraph.Neighbors | route-finder/src/router/router.ts:35-40 | each token one live pool away, and no other, exactly once |
| Router.Rank | route-finder/src/router/router.ts:59-61 | the ranking is a permutation of the pools with descending quotes |
| Router.ComputeStep | route-finder/src/router/router.ts:50-110 | returns no step exactly for no pools or a non-positive amount, else one that some ranking gives |
| Router.HopSums | route-finder/src/router/router.ts:98-108 | dropping empty hops loses neither input nor output |
| Router.StepSums | route-finder/src/router/router.ts:66-109 | hop inputs and outputs add up to the step's for a split, and to a multiple for a repeated single pool |
| Router.StepConservesIff | route-finder/src/router/router.ts:66-109 | hop inputs add up to the step's if and only if it splits or its best pool is listed once |
| Router.StepsAreGood | route-finder/src/router/router.ts:50-110 | every step pays at least each single pool, and more where distinct pools share it; it consists of 1 to maxSplits real quotes, and conserves both amounts over distinct pools |
| Router.PairIsBeaten | route-finder/src/router/router.ts:155-158 | chaining the two best steps pays at least any pair of pools through the same token whose second pool is monotone |
| Router.DirectRoutes | route-finder/src/router/router.ts:147-148 | the direct candidate is a best step over the direct pools, whenever there are any |
| Router.RouteVia | route-finder/src/router/router.ts:155-159 | one intermediate token: a chain of a best first step and a best second step on what the first delivers, if both pay something |
| Router.TwoHopRoutes | route-finder/src/router/router.ts:151-160 | such a chain for every intermediate token, those it skips included |
| Router.PickBest | route-finder/src/router/router.ts:164 | the reduction returns the first candidate with the largest output |
| Router.FindBestRoute | route-finder/src/router/router.ts:131-165 | the result is a genuine route that pays at least a best step over the direct pools and, with maxHops >= 2, at least a chain of two best steps through every third token |
| Router.BestIsUnbeaten | route-finder/src/router/router.ts:131-165 | so it pays at least every direct pool, whatever its pricing, and every pair of pools through any token whose second pool is monotone |
| RouteGuarantees.DefaultRoutesAreShort | route-finder/src/router/router.ts:14 | with the default options a route has 1 to 6 hops |
| RouteGuarantees.SoundPairsAreBeaten | route-finder/src/router/router.ts:131-165 | with the real dispatcher no profitable pair beats the result, unless its second pool is a discrete-bin pool that overpays |
| RouterWitnesses.UnsoundPairsCanWin | route-finder/src/router/router.ts:131-165 | and for every such second pool there is a graph in which, with the default options, a pair through it beats every route the search can return |
| RouterWitnesses.DuplicatesDoubleTheInput | route-finder/src/router/router.ts:66-109 | a pool listed twice, 50 units, default options: the hops take 100 |
| RouteGuarantees.RouteConserves | route-finder/src/router/router.ts:117-165 | over distinct pools a route's steps chain from input to output token, each fed exactly with what the previous one delivers |
| RouteGuarantees.StepNearOptimal | route-finder/src/router/router.ts:43-110 | over any pools whose chunk gains fall up to a slack e, every step pays at least every division of its chunks among the min(pools, max(1, maxSplits)) best ranked pools, up to e per chunk |
| RouteGuarantees.UnsplitStepPaysBest | route-finder/src/router/router.ts:66-71 | below one unit a chunk, or with one pool to take, a step pays exactly the best single quote |
| RouteGuarantees.RouteNearOptimal | route-finder/src/router/router.ts:131-165 | the route of the search pays at least every such division among the direct pools |
| Aggregator.Gather | route-finder/src/aggregator.ts:17-21 | pools of the venues that answered, in order; failed venues contribute nothing |
| Aggregator.AnswersStandInOrder | route-finder/src/aggregator.ts:17-21 | every answer is taken whole, in its order, behind those before it; a failed venue costs no other |
| Aggregator.GatheredIffReturned | route-finder/src/aggregator.ts:17-21 | a pool is gathered exactly if some venue that answered returned it |
| Aggregator.CollectPools | route-finder/src/aggregator.ts:16-24 | exactly the first pool of every id is kept, in the order of arrival |
| Aggregator.DifferentIdsAreDistinct | route-finder/src/aggregator.ts:22-23 | deduplication by id gives the distinct pools that conservation needs |
| Aggregator.QuoteFromPools | route-finder/src/aggregator.ts:31-62 | the quote carries a best route over the given pools, its output, and the slippage minimum |
| Aggregator.RequestShapesRoute | route-finder/src/aggregator.ts:31-39 | a request with maxHops below 2 never gets a two-step route; every step has at most max(1, maxSplits) hops, three by default |
| Aggregator.RequestSearchesPairs | route-finder/src/router/router.ts:140-161 | unless the request forbids two hops, no pair with a monotone second pool pays more than its route |
| Aggregator.RequestNearOptimal | route-finder/src/router/router.ts:140-148 | the route pays at least every division of 1/100 chunks among as many direct pools as the request allows, three by default |
| Arithmetic.MinimumWithinSlippage | route-finder/src/aggregator.ts:54 | an amount is at most the minimum if and only if 10,000 of it are at most the quote times (10,000 - slippageBps) |
| Aggregator.QuoteRoute | route-finder/src/aggregator.ts:26-39 | end to end, with the real dispatcher and no precondition: exactly the first pool of each id is used, the route is best over them and conserves its amounts at every step |
| LegPlans.PackHops | route-finder/src/execution/legBuilder.ts:38-55 | the inner loop extends legs, accounts and program list by one step's instructions, or fails with its first failing hop |
| LegPlans.BuildRouterPlan | route-finder/src/execution/legBuilder.ts:27-60 | the nested loops produce one leg per hop with cumulative offsets, then each program once; it fails exactly if some hop cannot be built |
| LegPlans.HopsInOrder | route-finder/src/execution/legBuilder.ts:37-38 | the hops stand in the order of the steps, and within a step in its own |
| LegPlans.BuildsEachHop | route-finder/src/execution/legBuilder.ts:39-43 | all hops are built if and only if each is; instruction i is what the builder of hop i gave |
| LegPlans.SliceRecovers | route-finder/src/execution/legBuilder.ts:43-51 | each leg starts where the previous one ends, is in bounds, and slices out exactly its builder's accounts |
| LegPlans.LegsTile | route-finder/src/execution/legBuilder.ts:44-59 | the last leg ends where the venue program accounts begin |
| LegPlans.TailListsPrograms | route-finder/src/execution/legBuilder.ts:52-58 | behind the last leg the account list names each venue program exactly once, as a plain account, in order of first use, and nothing else |
| LegPlans.DefaultPlansFit | programs/aggregator-router/src/instructions/route.rs:158-159 | default routes give 1 to 6 legs, so the router's leg bounds always pass |
| LegPlans.PlanReachesRouter | route-finder/src/execution/routerInstruction.ts:38-59 | the session's header check passes, and the router decodes the route's own amounts, the fee rate and one leg per instruction, whose slice is what its builder gave |
| PlanExecution.AllowedIffSendable | programs/aggregator-router/src/constants.rs:28-91 | a leg is allowed if and only if its data starts with a tag of its venue's swaps, the venue number is one of the seven registered programs, and its range lies in the account list |
| PlanExecution.LegsRunIff | programs/aggregator-router/src/instructions/route.rs:186-199 | legs run to a ledger if and only if a chain of calls leads there: leg by leg in order, each at its registered program, with exactly infos[offset..offset + len] and its data |
| PlanExecution.HopsReachTheirDex | route-finder/src/execution/types.ts:66-87 | with builders that build for their own venue, the instruction of every hop goes to the program of the DEX whose pool it trades with |
| PlanExecution.PlanIsExecuted | programs/aggregator-router/src/instructions/route.rs:186-199 | encoded, decoded and sliced, a plan makes the router call its instructions in order, each at its venue's program, with exactly the accounts and data its builder gave |
| PlanExecution.PlannedRouteDelivers | programs/aggregator-router/src/instructions/route.rs:182-252 | from the quote to the balances: if the route of a plan succeeds, the venues saw its instructions, the output gained at least the quote less the slippage, and the input lost at most the amount |
| Wire.DecodeOfLE | route-finder/src/execution/routerInstruction.ts:19-23 | little-endian writing and reading are inverse for every width |
| Wire.LEOfDecode | programs/aggregator-router/src/instructions/route.rs:84-90 | and in the other direction, so a byte string stands for one number only |
| Wire.DecodeOfEncode | route-finder/src/execution/routerInstruction.ts:38-59 | decoding an encoded instruction returns every field and every leg, with variable-length data and any trailing bytes |
| Wire.EncodeOfDecode | programs/aggregator-router/src/instructions/route.rs:38-44 | bytes that decode are the encoding of what they decode to |
| Wire.PlanSurvivesTheWire | route-finder/src/execution/routerInstruction.ts:38-59 | encodeRouteData succeeds exactly if every integer fits its width; decoding then gives back both mints, both amounts, the fee rate and, leg by leg, venue, range and data |
| Wire.HeadBytes | route-finder/src/execution/routerInstruction.ts:38-59 | byte for byte: the discriminator, the mints, and the integers at 72, 80, 88 and 90, least significant byte first |
| Wire.LegBytes | route-finder/src/execution/routerInstruction.ts:38-59 | byte for byte: each leg behind the 94 bytes of the head and the legs before it, its venue, range and length of data in 9 bytes, then the data |
| Wire.HeaderBindsExactly | programs/delegated-trading/src/instructions/execute_trade.rs:174-183 | on decodable bytes the session's header check accepts if and only if its mints and amount are the ones the router will use |
| Wire.HeaderIsPrefix | programs/delegated-trading/src/instructions/execute_trade.rs:174-191 | byte for byte: the check accepts if and only if the data starts with the discriminator, the two mints and the little-endian amount |
| Wire.EncodedPlanPassesHeader | programs/delegated-trading/src/instructions/execute_trade.rs:174-183 | the planner's bytes always pass that check |
| Base58.CharIndex | programs/aggregator-router/src/constants.rs:157-166 | the search loop returns the digit, or fails outside the alphabet |
| Base58.IndexNames | programs/aggregator-router/src/constants.rs:154-166 | a digit is below 58 and names its character |
| Base58.AlphabetContains | programs/aggregator-router/src/constants.rs:154-155 | the alphabet is the digits and letters without 0, O, I and l |
| Base58.AlphabetRises | programs/aggregator-router/src/constants.rs:154-155 | in the order of their character codes |
| Base58.CarryStep | programs/aggregator-router/src/constants.rs:176-181 | one byte of the multiplication keeps the running number, and the carry stays at most 57 |
| Base58.Accumulate | programs/aggregator-router/src/constants.rs:174-181 | one outer iteration multiplies the 32-byte number by 58 and adds the digit; what does not fit is the carry |
| Base58.Decode32 | programs/aggregator-router/src/constants.rs:168-189 | succeeds exactly on valid strings worth less than 2^256, and returns the 32 digits of their value to the base 256, the most significant first |
| Base58.KeyByte | programs/aggregator-router/src/constants.rs:168-189 | byte i of a key is digit 31 - i of its number to the base 256 |
| Base58.BEInjective | programs/aggregator-router/src/constants.rs:168-189 | keys with the same value are the same key |
| Base58.SameKeyIff | programs/aggregator-router/src/constants.rs:168-189 | two valid strings name the same key if and only if they agree after dropping leading '1's |
| RouterProgram.Bank.ExecuteLegs | programs/aggregator-router/src/instructions/route.rs:185-199 | the leg loop runs the allowlisted venue calls in order on their slices and stops at the first failure |
| RouterProgram.Bank.SkimFees | programs/aggregator-router/src/instructions/route.rs:231-244 | both fee transfers, protocol first, skipped when zero |
| RouterProgram.Bank.TakeFeesAndCheck | programs/aggregator-router/src/instructions/route.rs:219-252 | token-program trust, fees, then the minimum on the re-read balance |
| RouterProgram.Bank.SettleOutput | programs/aggregator-router/src/instructions/route.rs:207-252 | fees computed on the measured output, then settled |
| RouterProgram.Bank.Route | programs/aggregator-router/src/instructions/route.rs:149-267 | the handler on mutable balances succeeds exactly when, and leaves exactly what, RouteResult says |
| RouterGuarantees.FeeIsExact | programs/aggregator-router/src/instructions/route.rs:113-115 | a rate of at most 100% takes at most the whole and the narrowing cast never truncates |
| RouterGuarantees.TwoFeesVersusOne | programs/aggregator-router/src/instructions/route.rs:212-213 | the two floored fees total the floored combined fee or one unit less |
| RouterGuarantees.FeesNeverExceedOutput | programs/aggregator-router/src/instructions/route.rs:214-217 | the fees never exceed the output |
| RouterGuarantees.FeeCheckIsRedundant | programs/aggregator-router/src/instructions/route.rs:214-217 | FeeExceedsOutput is unreachable after the earlier checks |
| RouterGuarantees.NetMeetsMinimum | route-finder/src/aggregator.ts:53-54 | if the gross output covers the quote less slippage after the fee rates, the net meets the planner's minimum |
| RouterGuarantees.PerfectFillsPassIff | route-finder/src/aggregator.ts:53-54 | exact fills of every quote pass if and only if slippage is at least 20 bps plus the integrator fee |
| RouterGuarantees.SettlesIffNetSuffices | programs/aggregator-router/src/instructions/route.rs:207-252 | once both transfers go through, settling succeeds if, and with separate fee accounts only if, what is left after both fees meets the minimum |
| RouterGuarantees.QuotedFillSettles | programs/aggregator-router/src/instructions/route.rs:207-252 | with the planner's minimum, a fill within the slippage after both rates settles |
| RouterGuarantees.PerfectFillSettlesIff | programs/aggregator-router/src/instructions/route.rs:207-252 | a fill of exactly the quote settles if and only if its net meets the planner's minimum |
| RouterGuarantees.TransferNeeds | programs/aggregator-router/src/instructions/route.rs:117-147 | a transfer needs two initialized, unfrozen token accounts of that mint, the first one owned by the signer and covering the amount, and the initialized mint with these decimals |
| RouterGuarantees.TransferEffect | programs/aggregator-router/src/instructions/route.rs:117-147 | a transfer moves exactly its amount for every account, aliased or not, and changes no owner, mint or program |
| RouterGuarantees.SkimEffect | programs/aggregator-router/src/instructions/route.rs:233-244 | the exact flow of every account over both fee transfers, whichever accounts coincide |
| RouterGuarantees.RouteIsSafe | programs/aggregator-router/src/instructions/route.rs:182-252 | for arbitrary venues and aliasing: gain at least min_amount_out, input loss at most amount_in, at most the two fees charged, and no change at all if input and output coincide |
| RouterGuarantees.TokenAccountReads | programs/aggregator-router/src/instructions/route.rs:83-104 | mint, owner and balance are read where the token program writes them: bytes 0, 32 and 64 |
| RouterGuarantees.MintAccountReads | programs/aggregator-router/src/instructions/route.rs:106-111 | the decimals of a mint are the byte behind its authority and its supply |
| RouterGuarantees.EntryChecksIff | programs/aggregator-router/src/instructions/route.rs:158-183 | byte for byte what the instruction must show before any leg runs: 1 to 8 legs, an amount, a rate of at most 255 bps, and token accounts of the authority for both declared mints |
| RouterGuarantees.RouteIsBound | programs/aggregator-router/src/instructions/route.rs:158-231 | a successful route passed those checks, and its fees went through the token program that owns the output account |
| RouterGuarantees.ExactNetIff | programs/aggregator-router/src/instructions/route.rs:233-252 | net equals received minus both fees if and only if no charged fee returns to the output account |
| RouterGuarantees.SeparateFeeAccountsCostBoth | programs/aggregator-router/src/instructions/route.rs:233-252 | fee accounts other than the output account: the net is always received minus both fees |
| RouterGuarantees.AliasedFeesIff | programs/aggregator-router/src/instructions/route.rs:211-252 | the same from the measured output and the rates, for every aliasing: exactly if each fee due to the output account itself is less than a unit |
| FeeAliasing.NetIsAlwaysExactIff | programs/aggregator-router/src/instructions/route.rs:182-252 | for given accounts and arguments, every successful route, over all ledgers and venues, leaves exactly received minus both fees, if and only if the legs cannot run or no u64 amount has a chargeable fee that comes back and still meets the minimum |
| FeeAliasing.OneAmountDecides | programs/aggregator-router/src/instructions/route.rs:207-252 | that amount need only be tried at its largest value: the largest u64 or, where a fee cannot be charged, the largest amount on which that fee is 0 |
| SwapExample.SwapSucceeds | programs/aggregator-router/src/instructions/route.rs:149-267 | a concrete route succeeds for every amount its balances allow, and what it leaves in each account |
| SwapExample.NetExceedsBothFees | programs/aggregator-router/src/instructions/route.rs:233-252 | its integrator fee account is the output account: 10,000 received, fees of 20 and 100, net 9,980 |
| SwapExample.AliasedFeeWitness | programs/aggregator-router/src/instructions/route.rs:233-252 | hence some successful route costs less than both fees |
| RouterGuarantees.FeesAreTheRates | programs/aggregator-router/src/instructions/route.rs:211-240 | the fees are the two rates on the measured output, and a protocol fee only goes to the treasury |
| RouterGuarantees.FeesArrive | programs/aggregator-router/src/instructions/route.rs:233-244 | every other account ends with exactly the fees it is due |
| RouterGuarantees.OnlyAllowedLegsRun | programs/aggregator-router/src/constants.rs:45-66 | every leg of a successful route is a known swap instruction of an enabled venue, within bounds |
| Sessions.ValidateAllowlist | programs/delegated-trading/src/state.rs:153-163 | the nested loop accepts exactly the non-empty, short, duplicate-free lists |
| Sessions.ValidateConfig | programs/delegated-trading/src/state.rs:123-151 | accepts exactly the valid configurations |
| Sessions.ValidConfigIff | programs/delegated-trading/src/state.rs:123-163 | a configuration is valid if and only if it expires later, has positive limits in order, and lists 1 to 8 programs with the router and 1 to 16 mints on either side, as many as it has distinct members |
| Sessions.CreateSession | programs/delegated-trading/src/instructions/create_session.rs:29-79 | a session exists exactly for a valid configuration, with its whole initial state |
| Sessions.TradingSession.constructor | programs/delegated-trading/src/instructions/create_session.rs:52-66 | the initial state, field by field |
| Sessions.TradingSession.MaybeRollDailyWindow | programs/delegated-trading/src/state.rs:92-97 | rolls exactly when a day has passed, with a saturating subtraction |
| Sessions.TradingSession.RecordTrade | programs/delegated-trading/src/state.rs:102-117 | the state it leaves on success and on each failure, partial writes included |
| Sessions.TradingSession.Update | programs/delegated-trading/src/instructions/update_session.rs:33-84 | owner only, not revoked, all of the validated candidate or nothing |
| Runs.UpdateSetsWhatIsGiven | programs/delegated-trading/src/instructions/update_session.rs:33-84 | an accepted update sets exactly the values it gives and keeps the others, and leaves a valid configuration; any other update changes nothing |
| Sessions.TradingSession.Revoke | programs/delegated-trading/src/instructions/revoke_session.rs:29-45 | owner only, once, and only this field changes |
| Sessions.TradingSession.Authorize | programs/delegated-trading/src/instructions/execute_trade.rs:77-201 | the check chain accepts exactly what MayTrade says, then accounts for it |
| Runs.ExecuteTrade | programs/delegated-trading/src/instructions/execute_trade.rs:65-258 | session and bank move together: on success to exactly the specified state, on any failure back to where they were |
| Runs.TradeAcceptedIff | programs/delegated-trading/src/instructions/execute_trade.rs:77-241 | a trade goes through if and only if the session key signs for a live session, nonce, both limits, router target, allowlisted mints and the decoded data agree, and the router succeeds: every check, and no other |
| Runs.TradeLeaves | programs/delegated-trading/src/instructions/execute_trade.rs:194-257 | and exactly what it leaves in the session, on the ledger and in the history |
| Runs.FailedRecordIsCleanIff | programs/delegated-trading/src/state.rs:102-117 | when a failing record_trade leaves no trace by itself: neither a window roll nor a nonce overflow |
| Runs.RollKeepsConsistent | programs/delegated-trading/src/state.rs:92-97 | rolling keeps volume, windows and nonce in agreement with the history of trades |
| Runs.TradeKeepsConsistent | programs/delegated-trading/src/state.rs:102-117 | so does recording a trade |
| Runs.StepKeepsConsistent | programs/delegated-trading/src/instructions/execute_trade.rs:65-258 | so does every transaction, accepted or not |
| Runs.RunsAreConsistent | programs/delegated-trading/src/state.rs:92-117 | hence every run, whatever the clock does |
| Runs.RunsAreOnTime | programs/delegated-trading/src/state.rs:92-97 | with a clock that never goes back, every trade falls into the window it is counted in |
| Runs.NonceCountsTrades | programs/delegated-trading/src/instructions/execute_trade.rs:109-117 | in every run the nonce is the number of accepted trades, and their nonces are 0, 1, 2, ... in order |
| Runs.VolumeIsLimited | programs/delegated-trading/src/state.rs:92-117 | any k days hold at most (k + 1) times the largest daily limit in force for the trades in them, as counted |
| Runs.SpendIsLimited | programs/delegated-trading/src/instructions/execute_trade.rs:119-201 | and as really lost by the declared input accounts |
| Runs.SpendIsCounted | programs/delegated-trading/src/instructions/execute_trade.rs:119-201 | measured spend of a window is at most daily_volume_used, each spend at most the max_trade_amount then in force |
| Runs.TradeFrame | programs/delegated-trading/src/instructions/execute_trade.rs:65-258 | a trade changes only the accounting, and nothing at all once revoked |
| Runs.IdentityIsFixed | programs/delegated-trading/src/state.rs:16-64 | owner, session key and creation time never change; the configuration stays well formed and within MAX_SIZE |
| Runs.RevocationIsFinal | programs/delegated-trading/src/instructions/revoke_session.rs:33-36 | after revocation no sequence of transactions changes the session or trades |
| Runs.OnlyTheOwnerChangesPolicy | programs/delegated-trading/src/instructions/update_session.rs:16-29 | runs without the owner's signature keep policy and revocation |
| Runs.TradeIsBound | programs/delegated-trading/src/instructions/execute_trade.rs:174-241 | one accepted trade, end to end: the router used the allowlisted mints and the checked amount, spent at most it, delivered at least the minimum |
| DayLimit.OneWindowSuffices | programs/delegated-trading/src/state.rs:92-117 | a session of at most one day, or of single units against the largest limit, never exceeds the daily limit in any interval of any run without a change of policy |
| DayLimit.CountBound | programs/delegated-trading/src/state.rs:99-100 | how many trades a whole daily limit takes: all but one for the maximum |
| DayLimit.OtherwiseExceeded | programs/delegated-trading/src/state.rs:92-117 | every other valid configuration has a run whose declared input account loses more than the daily limit within 24 hours |
| DayLimit.DailyLimitHoldsIff | programs/delegated-trading/src/state.rs:28-33 | the documented 24-hour limit, counted or spent, holds over all runs without a change of policy exactly for those sessions |
| UserFunds.RouteLoss | programs/aggregator-router/src/instructions/route.rs:182-252 | if the venues leave the undeclared accounts alone, an account loses nothing in a route unless it is the declared input, which loses what is spent |
| UserFunds.LossWithinSpending | programs/delegated-trading/src/instructions/execute_trade.rs:119-201 | so over a run all accounts together lose at most what is spent |
| UserFunds.LossIsLimited | programs/delegated-trading/src/state.rs:92-117 | hence at most k + 1 limits in k days |
| UserFunds.UndeclaredLossWitness | programs/delegated-trading/src/instructions/execute_trade.rs:119-201 | otherwise every configuration has a run that spends nothing while an undeclared account loses any given amount |
| TakingRoutes.TakingSucceeds | programs/aggregator-router/src/instructions/route.rs:149-267 | the routes of these witnesses: a venue may take from any account but the output one, and only the declared input counts as spent |
| TradeHistory.IntervalToWindows | programs/delegated-trading/src/state.rs:90-97 | all volume of an interval was counted in windows that start less than a day before it |
| TradeHistory.OneDayOfWindows | programs/delegated-trading/src/state.rs:90-113 | a day's worth of window starts admits at most one window, hence one limit |
| TradeHistory.RateLimit | programs/delegated-trading/src/state.rs:90-117 | k days, wherever they start, hold at most k + 1 limits |
| TradeHistory.SpentWithinVolume | programs/delegated-trading/src/state.rs:105-114 | what was spent in a window is at most what was counted in it |
| TradeHistory.SpentWithinInterval | programs/delegated-trading/src/state.rs:105-114 | and over any interval at most the volume of its trades |
| TightRate.FullTradeIsAccepted | programs/delegated-trading/src/instructions/execute_trade.rs:77-241 | a trade for the whole daily limit is accepted whenever the window is empty, and what it leaves |
| TightRate.BoundIsReached | programs/delegated-trading/src/state.rs:92-117 | for every k the clock can hold, a repeated route counts exactly k + 1 limits within k days, and spends k + 1 times what it spends once |
| TightRate.ExampleBalances | programs/aggregator-router/src/instructions/route.rs:149-267 | the balances after n trades of the example: each spends 1,000 units, 998 arrive, 2 go to the treasury |
| TightRate.ExampleIsRepeatable | programs/delegated-trading/src/instructions/execute_trade.rs:65-258 | its route succeeds, spending its whole limit from the declared input account, on as many days as the clock can hold, down to the bytes of the accounts |
| TightRate.SpendingBoundIsReached | programs/delegated-trading/src/state.rs:92-117 | for every k some run of a fresh session takes exactly k + 1 of its limits from the declared input account within k days |
| TightRate.TwiceTheLimitInOneDay | programs/delegated-trading/src/state.rs:28-33 | the declared input account can lose twice a positive daily limit within one day |
| FullUse.LastingSessionsReachBound | programs/delegated-trading/src/state.rs:92-117 | every valid configuration whose session is live k days after its creation, with nonces for k + 1 full limits, has a run that takes exactly k + 1 limits from the declared input account within k days |
| FullUse.ReachingSessionsLast | programs/delegated-trading/src/state.rs:92-117 | a run that takes k + 1 limits within k days fills k + 1 windows, so the session lives that long and spends that many nonces |
| FullUse.ReachesBoundIff | programs/delegated-trading/src/state.rs:92-117 | the k + 1 limits are reached, over all runs without a change of policy, exactly by those configurations |

## Left out

- Runs.VolumeIsLimited: assumes that the clock never goes back, which the chain's clock is relied upon for; without it trades can be counted in a window that starts after them.
- Router.BestIsUnbeaten: says nothing about a pair of pools whose second one is not monotone; for the real dispatcher that is exact, and false of such pools (`RouterWitnesses.UnsoundPairsCanWin`).
- Dlmm.MonotoneIffSound: the arithmetic of `Math.pow`, Number() and the double product and quotient is any pair of functions that keep the order of amounts; infinite and zero prices, where BigInt() throws, are not modelled.
- BinRounding.BinQuoteRounding: asks that each single amount is floored exactly; that is proved up to 2^53 at prices that are powers of two, and the error of `Math.pow` at other prices is not modelled.
- Router.ComputeStep: a negative `splitGranularity` is modelled as giving no chunk, a zero one is excluded by type because the code throws a division error.
- Router.Rank: the outcome of the library sort is modelled as descending with ties in any order, because its comparator is inconsistent on ties.
- Clmm.QuoteByWalking: `sqrtPriceX64` is positive by type; with a price of 0 the code divides by zero.
- RouterProgram.Bank.Transfer: classic token transfers only; delegates, native accounts and the fees and hooks of Token-2022 mints are not modelled.
- Runs.ExecuteTrade: signatures, the derivation of the session address, signer elevation of the session account, rent, compute limits and call depth are taken as valid; a request carries its signer.
- Venue programs and their account layouts: a venue is an arbitrary ledger change, or a failure.
- Spot prices and `priceImpact` (`amm.ts`, `clmm.ts`, `router.ts`): floating point, and they influence no amount.
- Bonding-curve normalisation: it only prepares reserves.
- Fetching pools: an adapter's answer is a parameter, None where it failed.
- Venue instruction builders: parameters that return an instruction or fail.
- `buildRouteInstruction`, `lookupAddressesForPlan`, lookup tables and versioned messages: list construction without arithmetic.
- The named accounts of `route` come as a record: the position of accounts in the instruction's account list is not modelled.
- The program ids of `Venues` are written as bytes; that the base58 strings decode to them is not proved.
- Events, error codes beyond accept or reject, and the test-only features `localnet-mock` and `mock-router`.
- The session's `bump` field, which only the address derivation uses.
- Integer widths inside the planner beyond those of `encodeRouteData`: BigInt is unbounded, and JavaScript numbers appear only as small counts and basis points.
