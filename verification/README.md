# A verified model of the merger-arbitrage platform

This project models, in Dafny, the parts of the platform that keep state, round
money or reorder data, and proves what they keep over every input and every run.
`dafny verify dfyconfig.toml` checks all of it.

## What is modelled

**The paper-trading engine.** A scored deal and a price become a trade request
(`PositionSizing`, `DecisionEngine`), the request becomes a three-leg bracket on
the tick grid (`BracketBuilder`, `Rounding`), the bracket drives a ledger of
trades and a book of positions (`TradeLedger`, `PositionBook`, `FillAlgebra`),
and a daily cycle with its safeguards runs all of this (`Safeguards`,
`TradingCycle`, `TradingRuns`, `PositionCap`). `CycleDecisions` and
`SubmitAnswers` say what a cycle decides and what each executor call answers,
from guards a caller can check; `OrderRecords` and `Reconciliation` compare the
rows with the orders sent and with the book. `Executor` and `Scheduler` are the
objects that rewrite this state in place; their methods are proved against the
step functions of `TradeLedger` and `TradingCycle`, and the theorems are about
runs of those steps.

**Guards around outside services.** The monthly ScrapingBee budget under
overlapping calls (`ScrapingBee`), the lock-protected rate limiter
(`RateLimiter`), and the cached and chunked OpenFIGI resolver (`OpenFigi`).

**Sequence and text algorithms.** Collapsing French filing chains
(`CollapseFr`), walk-forward folds (`Validation`), the two money-amount
normalisers (`Amounts`), the Markdown decision index (`DecisionIndex`,
`IndexDates`) and the next Paris wall-clock hour (`ParisTime`).

`Common`, `Characters` and `Products` hold shared types, character classes and
facts about products of reals.

## How it is modelled

- Prices, euros and percentages are exact reals; only the explicit `round` calls
  round, half to even. Instants are whole microseconds, dates are day numbers.
- What comes from outside is an argument: prices, random trade ids, the broker's
  answers, clock readings, jitter, the cost of a call, the service's replies.
- A submit is one atomic step. When the bracket is refused the call raises after
  the row was added to the session, and the cycle's final commit keeps that row;
  the model does the same. A fill the position table's check refuses is rolled back.
  A new row without a positive quantity is refused by the trades table
  (`src/core/models.py:444`): the call raises and leaves nothing.
- Orders in the log carry the id of the request that placed them.
- Non-linear steps name multiplication (`Products.Times`) so that proofs can hide it.

## Where the code falls short of what it is for

Each is a lemma. The one that says exactly when it happens is named with it,
unless it says so itself; the budget overrun has its bound instead, which is attained.

- A decision is not checked against the bracket's guards: a sure deal at 0.50
  against an offer of 0.505 is decided and its bracket refused
  (`DecisionEngine.DecisionCanBeRefused`, exactly when: `DecisionAcceptedIff`).
  The refusal ends the cycle for all later candidates and leaves an approved
  pending row behind (`TradingRuns.RefusalEndsCycle`, exactly when:
  `CycleRaisesIff`; never at the usual prices: `PricedCycleNeverRaises`).
- Tick rounding after sizing can take an order past the 12% position cap
  (`DecisionEngine.OrderCanExceedCap`, exactly when: `OrderWithinCapIff`, by how
  much: `OrderNotionalBound`).
- Two requests for one deal that both wait for approval are both sent once
  approved (`TradeLedger.ApprovalsCollide`, exactly when: `OneOpenTradeKeptIff`).
- Approvals pass by the kill switch, the loss limit, the cooldown, the cap and
  the ramp-up, and nothing else does (`TradingRuns.OnlyApprovalsPassGuards`,
  `KilledRunSendsIff`).
- An approval sends what its request says and keeps the row as it was, so a
  different request leaves a row that is not what was ordered
  (`OrderRecords.SentAsRecordedKeptIff`).
- A fill is booked as often as it is reported, and rejecting a filled trade
  leaves its position (`Reconciliation.ReportedTwice`, exactly when:
  `ReconciledKeptIff`).
- The cap of five positions counts filled orders only, so orders of several
  cycles can be filled past it without bound (`PositionCap.CapHasNoBound`,
  exactly when: `CapPassedIff`, what keeps it: `CapHolds`).
- The recorded P&L understates the gain on the shares unless all lots were
  bought at one price (`PositionBook.RecordedPnlUnderstates`).
- Overlapping ScrapingBee calls can overrun the budget by a bounded amount that
  is attained (`ScrapingBee.OverrunBounded`, `OverrunAttained`), and can pass an
  alert threshold silently or fire it twice (`OverlapMisfires`, exactly when:
  `AlertsRightIff`).
- The BaFin normaliser drops a decimal dot (`Amounts.NormalisersAgreeIff`); the
  AMF one reads a whole amount grouped with dots as a fraction
  (`Amounts.DottedWholeReadsBackIff`).
- The next-hour computation is wrong for hour 2 around a clock change
  (`ParisTime.TwoIsNextIff`); the hour in use, 9, is always right.

## Model

| member | source | states |
|---|---|---|
| Rounding.RoundHalfEven | src/trading/bracket_builder.py:42-46 | the nearest integer, and the even one when two are equally near; the two facts determine it |
| PositionSizing.SizeGuardrails | src/trading/position_sizing.py:109-166 | a size is tradeable exactly when a slot is free, the price is positive, the budget reaches the minimum and buys one share; it is then the largest whole-share position in the budget and above half the minimum |
| PositionSizing.KellyShare | src/trading/position_sizing.py:64-80 | the share is 15% of (p * er - (1 - p) * 0.15) / er, nothing exactly where that numerator or the spread is not positive, and 12% exactly where it reaches that |
| PositionSizing.SizeExactly | src/trading/position_sizing.py:109-166 | each refusal exactly by its numbers (five positions, price, edge, 1,000 euros, one share), and otherwise the most whole shares that the Kelly share of the clamped capital buys |
| PositionSizing.EffectiveCapital | src/trading/position_sizing.py:59-61 | the capital is inside the band, and is NetLiquidation itself when that is inside |
| PositionSizing.BudgetWithinCap | src/trading/position_sizing.py:64-80 | the budget is never negative and never above 12% of the clamped capital |
| PositionSizing.KellyMonotone | src/trading/position_sizing.py:64-80 | the Kelly share never falls as the probability or the spread rises |
| PositionSizing.SizeMonotone | src/trading/position_sizing.py:109-166 | more edge or probability at a lower price never buys fewer shares and never loses a trade |
| BracketBuilder.BuildBracket | src/trading/bracket_builder.py:49-116 | the guards in order, and on success one BUY whose exits sell the same quantity, contiguous ids, only the last leg transmitting, 0 < stop < entry < take-profit, each at the nearest cent to what was asked |
| BracketBuilder.AcceptedIff | src/trading/bracket_builder.py:66-79 | on the cent grid a bracket is accepted exactly when quantity is positive and the whole tick counts of stop, entry and target rise strictly from 1 |
| BracketBuilder.LegsAreOnTick | src/trading/bracket_builder.py:72-114 | on the default tick each leg of an accepted bracket carries the price asked for it and no other, at the nearest cent, the even one of two |
| BracketBuilder.RefusedIff | src/trading/bracket_builder.py:66-79 | which guard refuses a bracket, in whole ticks |
| BracketBuilder.RoundToTickIs | src/trading/bracket_builder.py:42-46 | on any tick a price goes to the nearest multiple kept to four decimals, and without a tick it stays as it is |
| BracketBuilder.OnTheCentGrid | src/trading/bracket_builder.py:42-46 | the outer four-decimal rounding never moves a price off its whole number of cents |
| BracketBuilder.GapSurvivesRounding | src/trading/bracket_builder.py:42-46 | prices more than a tick and 0.0001 apart stay on different ticks through both roundings |
| BracketBuilder.PositiveTicksIff | src/trading/bracket_builder.py:72-73 | both roundings leave a positive price exactly when it is above 0.00505 |
| DecisionEngine.OnlyTheCapMatters | src/trading/decision_engine.py:137-147 | the number of open positions changes a decision only by reaching the cap, and then cancels it |
| DecisionEngine.ReferenceIs | src/trading/decision_engine.py:93-97 | the last price in Italy and the middle of bid and ask elsewhere, each standing in for the other when it is missing or zero |
| DecisionEngine.EvaluateExactly | src/trading/decision_engine.py:111-181 | in plain numbers, exactly when a candidate with an offer and a price is decided, and every cell of the request: the most whole shares that the Kelly share of the clamped capital buys at the unrounded limit, with limit, stop and target rounded to four decimals |
| DecisionEngine.QuantityFallsWithReference | src/trading/decision_engine.py:111-181 | no decision asks for more shares because the reference price is higher, no decision counting as none |
| DecisionEngine.QuantityGrowsWithProbability | src/trading/decision_engine.py:111-181 | no decision asks for fewer shares because completion is likelier |
| DecisionEngine.DecisionGuardrails | src/trading/decision_engine.py:127-149 | at the price it was sized at a decision is the most whole shares in the Kelly budget, at most 12% of capital, above half the minimum, and its stop-out loss is at most the stop fraction of that 12% |
| DecisionEngine.DecisionAcceptedIff | src/trading/decision_engine.py:149-172 | a decision's bracket is accepted exactly when the unrounded stop is above 0.00505 and stop, limit and offer land on rising ticks |
| DecisionEngine.DecisionLegs | src/trading/decision_engine.py:149-172 | each leg of a decision sent to the broker lies within 0.00505 of its unrounded limit, stop or offer |
| DecisionEngine.DecisionAccepted | src/trading/decision_engine.py:132-172 | margins on spread and stop wider than a tick and 0.0001 guarantee an accepted, protected bracket |
| DecisionEngine.DefaultConfigAccepted | src/trading/decision_engine.py:34-43 | with the default settings every reference from 1.13, from 1.69 in Italy, gives an accepted bracket |
| DecisionEngine.DecisionCanBeRefused | src/trading/decision_engine.py:132-172 | a concrete decision whose bracket is refused whatever the order id |
| DecisionEngine.OrderNotionalBound | src/trading/decision_engine.py:170-172 | quantity times limit of the entry leg sent is at most the 12% cap plus 0.00505 a share |
| DecisionEngine.OrderWithinCapIff | src/trading/decision_engine.py:132-172 | the entry leg sent costs at most 12% of the clamped capital exactly when the shares the Kelly budget buys at the unrounded limit are no more than that 12% buys at the limit on the leg, so always when that is not above the unrounded one |
| DecisionEngine.OrderCanExceedCap | src/trading/position_sizing.py:14-18 | a concrete accepted order whose entry leg costs more than 12% of the capital |
| FillAlgebra.CauchySchwarz | src/trading/executor.py:178-184 | the squared cost of the lots is at most their price-weighted cost times their shares, with equality exactly when all prices are equal |
| FillAlgebra.WeightedBounds | src/trading/executor.py:178-184 | any bounds on the prices bound the euro-weighted mean |
| PositionBook.BoughtPosition | src/trading/executor.py:166-184 | however fills of other deals are interleaved, a deal's purchases leave one open position whose size is the euros paid and whose entry times that size is the sum of price squared times quantity |
| PositionBook.EntryWithinPrices | src/trading/executor.py:178-184 | the averaged entry lies between the least and greatest fill price |
| PositionBook.RecordedPnlUnderstates | src/trading/executor.py:186-196 | the closing SELL records at most the gain on the shares, and exactly that gain if and only if all lots had one price |
| PositionBook.FillKeepsOneOpenPerDeal | src/trading/executor.py:158-184 | no fill of any kind gives a deal a second open position |
| PositionBook.FillFacts | src/trading/executor.py:158-184 | a fill leaves other deals' open positions alone, and a purchase opens or averages its own |
| TradeLedger.StepSends | src/trading/executor.py:57-149 | a call sends orders only when it takes a row from absent or pending to submitted; every row keeps what was asked for and never becomes pending again |
| SubmitAnswers.UnconsideredSubmit | src/trading/executor.py:61-71 | a submit of an id acted on, for a deal with an order submitted or filled, or without a quantity changes nothing, and says which |
| SubmitAnswers.SubmitAnswer | src/trading/executor.py:73-126 | otherwise the row waits exactly without a needed approval, is rejected as an unresolved ticker exactly when approved but not found, is submitted with its bracket exactly when approved, found and accepted, and stays pending when the bracket is refused; the row copies the request or keeps its contents |
| SubmitAnswers.TerminalNeverSent | src/trading/executor.py:61-63 | nothing more is ever sent for a row that is no longer pending |
| SubmitAnswers.UnresolvedNeverSent | src/trading/executor.py:97-103 | a request whose ticker is not found is never sent an order, whatever calls follow |
| SubmitAnswers.FillRefusedIff | src/trading/executor.py:164-184 | the book refuses a fill exactly when it is a purchase that leaves the position without a positive size |
| SubmitAnswers.FillAnswer | src/trading/executor.py:128-196 | a booked fill marks its row filled at the price and quantity reported, with the euro P&L of the position on a closing sale; a refused one changes nothing |
| SubmitAnswers.RejectAnswer | src/trading/executor.py:145-149 | of a rejected row only status and reason change |
| TradeLedger.BracketsOncePerTrade | src/trading/executor.py:57-149 | over any run of submits, approvals, fills and rejections each trade id keeps its one row and is sent at most one bracket, which nothing later changes |
| TradeLedger.RetryIsIdempotent | src/trading/executor.py:57-126 | once a submit has answered with a submitted, filled, rejected or cancelled row, then after any further calls a submit of that id with whatever contents changes nothing and answers with the row as it stands |
| TradeLedger.OneOpenTradeKeptIff | src/trading/executor.py:61-71 | a call keeps one open trade per deal if and only if it is not an approval or fill that opens a row while another trade of its deal is open |
| TradeLedger.OneOpenTradeAlways | src/trading/executor.py:61-71 | no deal ever has two open trades in a run free of such calls |
| TradeLedger.DisciplinedRunIsCollisionFree | src/trading/executor.py:65-71 | runs with a fresh id on every submit and fills for submitted trades only are free of them |
| TradeLedger.ApprovalsCollide | src/trading/executor.py:65-71 | any two acceptable requests for one deal that wait for approval end up both submitted |
| TradeLedger.OneOpenPositionAlways | src/trading/executor.py:151-184 | no run of any calls gives a deal two open positions |
| OrderRecords.RowsAlwaysNameOrders | src/trading/executor.py:105-118 | over any run each row has a positive quantity and names the broker ids of the parent and the stop of the bracket sent for it, or none while none was sent |
| OrderRecords.SentAsRecordedKeptIff | src/trading/executor.py:74-118 | a call keeps every bracket sent equal to its row, leg by leg, if and only if it is not an approval whose request differs from the row in quantity or, to the tick, in a price |
| OrderRecords.AlwaysSentAsRecorded | src/trading/executor.py:74-118 | so in a run without such approvals every bracket sent is that of its row |
| Reconciliation.ReconciledKeptIff | src/trading/executor.py:128-196 | a call keeps every open position equal to the one filled purchase of its deal if and only if it neither books a fill on a deal with a position nor rejects a filled purchase |
| Reconciliation.ReconciledInEveryRun | src/trading/executor.py:128-196 | through every run of the system with fresh ids, no clashing approval, fills for submitted trades and no rejection of filled ones, the open position of a deal is the price and euros of its one filled purchase, and no position is averaged or closed |
| Reconciliation.ReportedTwice | src/trading/executor.py:128-149 | a fill reported twice doubles the position, and rejecting the filled trade leaves it open |
| Executor.TradeExecutor.Submit | src/trading/executor.py:57-126 | the new ledger, order log and answer are those of the step, every invariant is kept, no row is lost and no sent order is added to |
| Executor.TradeExecutor.PlaceOrders | src/trading/executor.py:113-115 | the legs are appended to the order log in order under the request's id |
| Executor.TradeExecutor.ApplyFillToPosition | src/trading/executor.py:151-196 | the book and the realised P&L are those of the fill, and a refused fill leaves the book alone |
| Executor.TradeExecutor.MarkFilled | src/trading/executor.py:128-143 | the fill is booked with its row or not at all, and every invariant is kept |
| Executor.TradeExecutor.MarkRejected | src/trading/executor.py:145-149 | only that row changes, to rejected, and every invariant is kept |
| Safeguards.DailyLossBreachedIff | src/trading/safeguards.py:63-70 | breached exactly when the baseline is positive and NetLiquidation is at or below (1 - limit) times it |
| Safeguards.SystemStateStore.EnsureDailyBaseline | src/trading/safeguards.py:116-125 | the first call of a date stores that reading, later ones return it, other rows stay |
| TradingRuns.RampupGate | src/trading/safeguards.py:106-113 | over any run the decisions of a cycle need approval exactly while the count at the start plus the trades validated since is below the required number |
| TradingRuns.RampupFromNothing | src/trading/safeguards.py:106-113 | a system with nothing on record counts from none |
| TradingCycle.EveryCandidateCounted | src/trading/scheduler.py:159-233 | each candidate is counted once among skipped, execution skipped, submitted and pending, when no bracket is refused |
| TradingCycle.BrokerOnlyTruncatesDecisions | src/trading/scheduler.py:159-195 | with any broker a cycle halts as it would without one, and its decisions are a prefix of those without one, the same unless a bracket is refused or the cap is reached |
| TradingCycle.NoBrokerNoOrders | src/trading/scheduler.py:173-183 | without a broker the ledger and the order clock stay as they are |
| CycleDecisions.CycleTurn | src/trading/scheduler.py:159-233 | each candidate is evaluated at its cycle's own NetLiquidation with the positions open at the start plus the orders submitted so far, and the guards alone say what becomes of the decision, of the order clock and of each count |
| CycleDecisions.CycleBegins | src/trading/scheduler.py:140-157 | before its first candidate a cycle that is not halted has set the day's baseline and nothing else |
| CycleDecisions.DecisionsWithoutBroker | src/trading/scheduler.py:159-183 | without a broker the decisions are those on the candidates in order, at that NetLiquidation and open count |
| CycleDecisions.DecisionsWithinTwelve | src/trading/scheduler.py:159-173 | over any run each decision of a cycle comes from one of its candidates and stays, at the unrounded limit, within 12% of that cycle's own clamped NetLiquidation |
| CycleDecisions.HaltsExactly | src/trading/scheduler.py:140-154 | with dates that do not go back, a cycle halts for the switch exactly when it is on, and for the daily loss exactly when it is off and NetLiquidation is at or under (1 - limit) times a positive day's baseline |
| TradingRuns.CycleOrders | src/trading/scheduler.py:184-195 | with a positive cooldown a cycle submits and sends at most one bracket, and only when the last order has cooled down |
| TradingRuns.BrokerLeavesDecisionsAlone | src/trading/scheduler.py:159-195 | with a positive cooldown and fewer than four open positions the decisions are those without a broker, unless a bracket is refused |
| TradingRuns.OrdersAreSpaced | src/trading/scheduler.py:184-195 | over any run and any clock, forwards or backwards, the times at which cycles submit rise by at least the cooldown from the last order on record |
| TradingRuns.TradingMeansNoBreach | src/trading/scheduler.py:146-154 | with dates that do not go back, a cycle that is not halted has NetLiquidation strictly above (1 - limit) times the day's baseline when that is positive: the one on record for a day already begun, else the reading of the day's first cycle past the kill switch |
| TradingRuns.KilledCyclesAreInert | src/trading/scheduler.py:141-144 | while the switch is on, cycles decide nothing, order nothing and could be left out of the run |
| TradingRuns.DailyLossLatches | src/trading/scheduler.py:148-154 | a daily-loss halt decides and orders nothing, and no cycle does until the switch is taken off |
| TradingRuns.OnlyApprovalsPassGuards | src/trading/scheduler.py:141-195 | in a run whose cycles all meet the kill switch, the loss limit, the cooldown, the cap or the ramp-up, nothing is sent if and only if no approval in it can be placed where the run has got to |
| TradingRuns.KilledRunSendsIff | src/trading/executor.py:73-126 | so while the switch stays on nothing is sent if and only if the run has no such approval |
| TradingRuns.EveryRunIsSafe | src/trading/scheduler.py:131-202 | exactly-once brackets and one open position per deal hold through every run of the whole system |
| TradingRuns.OneOpenTradeInEveryRun | src/trading/scheduler.py:131-202 | with fresh ids in cycles and no colliding approval or fill, no deal ever has two open trades |
| PositionBook.FillOpenCount | src/trading/executor.py:158-196 | a purchase for a deal without a position adds one to the open count, a sale for a deal with one takes one off, and no other fill changes it |
| PositionCap.CapPassedIff | src/trading/scheduler.py:159 | an act takes the book past five open positions if and only if there are five and it is a purchase filled for a deal without one |
| PositionCap.CapHolds | src/trading/scheduler.py:235-245 | if whatever is sent starts from fewer than five deals with a position or an unfilled order, and fills are for such deals, no run passes five |
| PositionCap.CapHasNoBound | src/trading/scheduler.py:159-195 | without that, n cycles a cooldown apart on the dates their clock gives, each seeing no open position, and then the n fills open n positions, for every n |
| PositionCap.AnOfferExecutes | src/core/settings.py:51-58 | there is a candidate for which such cycles run with the shipped settings: 2% loss limit, 60 minutes of cooldown, default prices |
| TradingRuns.CycleRaisesIff | src/trading/scheduler.py:159-195 | a cycle raises if and only if it is not halted and its loop reaches a candidate that is decided, let through by broker and cooldown, approved, qualified, new or pending, and whose bracket is refused |
| TradingRuns.RefusalEndsCycle | src/trading/scheduler.py:189-202 | it ends there: later candidates change nothing, that decision is the last, its row stays pending and approved, and nothing is sent for it |
| TradingRuns.PricedCycleNeverRaises | src/trading/decision_engine.py:34-43 | with the default price settings and no reference price below 1.13, or 1.69 in Italy, no cycle raises |
| Scheduler.TradingScheduler.RunDailyCycle | src/trading/scheduler.py:131-202 | ledger, rows, switch, summary and whether it raised are those of the cycle step, and every invariant is kept |
| Scheduler.TradingScheduler.HandleCandidate | src/trading/scheduler.py:159-233 | one turn of the loop and its bookkeeping have the effect of the slot step |
| ScrapingBee.OverrunBounded | src/core/scrapingbee_client.py:122-165 | with at most k callers in flight and costs at most c, every month's credits stay within budget - 1 + k*c, in any interleaving and across month ends |
| ScrapingBee.MonthlyCreditsBounded | src/core/scrapingbee_client.py:122-165 | the same from an empty ledger |
| ScrapingBee.OverrunAttained | src/core/scrapingbee_client.py:128-130 | with one credit left k callers can bring a month to exactly that bound |
| ScrapingBee.AlertsExactly | src/core/scrapingbee_client.py:205-219 | with a hook and a budget a record fires each listing of a threshold t exactly when t * budget lies above 100 times the credits before and not above 100 times those after |
| ScrapingBee.AlertsInOrder | src/core/scrapingbee_client.py:210-213 | in the order in which the thresholds are configured |
| ScrapingBee.AlertsRightIff | src/core/scrapingbee_client.py:205-219 | a record fires what the month passes if and only if each configured threshold lies in both percentage ranges, the one its caller saw and the one the month goes through, or in neither; and for every configuration if and only if the ranges are equal or both empty |
| ScrapingBee.ThresholdsFireOnce | src/core/scrapingbee_client.py:205-219 | over any run within a month whose records all do so, overlapping or not, each threshold fires once per listing if the month's percentage passes it and never otherwise |
| ScrapingBee.SequentialCallsAreTimely | src/core/scrapingbee_client.py:122-165 | calls one after the other are such a run |
| ScrapingBee.OverlapMisfires | src/core/scrapingbee_client.py:164-165 | two overlapping calls that pass half the budget with no alert, and two that fire it twice |
| ScrapingBee.ScrapingBeeClient.Get | src/core/scrapingbee_client.py:122-180 | over budget nothing is recorded; otherwise the row and alerts are those of check then record, also when the status is then raised; within one month it is one sequential call |
| ScrapingBee.ScrapingBeeClient.UsedCreditsThisMonth | src/core/scrapingbee_client.py:110-120 | the sum of this vendor's rows of the month |
| ScrapingBee.ScrapingBeeClient.MaybeAlert | src/core/scrapingbee_client.py:205-219 | exactly the thresholds in (before, after] fire, in their configured order |
| RateLimiter.RateLimiter.Create | src/ingestion/amf/rate_limiter.py:43-56 | refused exactly for a nonpositive rate or a negative jitter; otherwise interval times rate is one |
| RateLimiter.RateLimiter.Acquire | src/ingestion/amf/rate_limiter.py:58-68 | the new stamp is the completion time, at least one interval after the old |
| RateLimiter.EarliestIs | src/ingestion/amf/rate_limiter.py:58-67 | a task goes on at once when one interval and its jitter have gone by since the last call, and otherwise at that moment |
| RateLimiter.LockIsReleased | src/ingestion/amf/rate_limiter.py:58-68 | a completed call and a cancelled sleep both let the next task in, and only the first moves the stamp |
| RateLimiter.AcquiresAreSpaced | src/ingestion/amf/rate_limiter.py:35-68 | for any tasks, interleaving and cancelled sleeps, k+1 consecutive completions span at least k / rate seconds |
| RateLimiter.NewLimiterSpaces | src/ingestion/amf/rate_limiter.py:43-56 | the same for every run of a new limiter |
| OpenFigi.SelectByCounting | src/pricing/openfigi_resolver.py:196-242 | the row is the first on the best home venue, and otherwise the first row of an issuer with the most listings |
| OpenFigi.FirstHomeIs | src/pricing/openfigi_resolver.py:211-221 | the home row is the first row on the venue that stands first in the country's list among those with a row, and there is none exactly when no such venue has one |
| OpenFigi.HomeVenuesAre | src/pricing/openfigi_resolver.py:211-212 | the home venues of a country, best first |
| OpenFigi.CountryIs | src/pricing/openfigi_resolver.py:211 | the country is the first two letters of the ISIN, small or capital |
| OpenFigi.SelectionUnique | src/pricing/openfigi_resolver.py:196-242 | that description determines the choice |
| OpenFigi.NoGuessedTicker | src/pricing/openfigi_resolver.py:407-416 | a ticker is missing exactly when nothing matched or the venue is unknown, and a home venue is never unknown |
| OpenFigi.TickerIs | src/pricing/openfigi_resolver.py:407-416 | a ticker is the chosen row's, less a currency code that leaves two characters, with the suffix of its venue |
| OpenFigi.EquityRowsAre | src/pricing/openfigi_resolver.py:312-336 | the rows kept are, in order, the equities of the two kinds with a ticker and a venue |
| OpenFigi.OpenFigiResolver.CacheGet | src/pricing/openfigi_resolver.py:433-448 | an entry is served exactly while it is no older than thirty days |
| OpenFigi.UncachedIs | src/pricing/openfigi_resolver.py:383-390 | a batch asks for each ISIN in order unless the cache holds an answer no older than thirty days |
| OpenFigi.OpenFigiResolver.ResolveIsinToYahooTicker | src/pricing/openfigi_resolver.py:341-374 | the answer is the service's, by cache or by one POST, and the cache keeps only answers |
| OpenFigi.OpenFigiResolver.ResolveBatch | src/pricing/openfigi_resolver.py:376-405 | the map has exactly the requested ISINs with the answers they have one by one; POSTs carry 1 to 100, all but the last 100, and join to the uncached ISINs in order with repeats; a failed POST leaves the cache right |
| OpenFigi.OpenFigiResolver.ServeCached | src/pricing/openfigi_resolver.py:383-390 | what the cache answers and what is left, in order with repeats |
| OpenFigi.OpenFigiResolver.ResolveChunk | src/pricing/openfigi_resolver.py:392-404 | one POST adds the answers of its chunk and nothing else |
| CollapseFr.SortFacts | scripts/collapse_fr_multistage.py:156 | the sorted group is in date order and has the same filings |
| CollapseFr.ClustersChained | scripts/collapse_fr_multistage.py:157-165 | clusters join to the sorted group, step by under 730 days inside, and lie at least 730 days apart |
| CollapseFr.GroupsAreComponents | scripts/collapse_fr_multistage.py:142-166 | two filings are in one cluster exactly when a chain of that target's filings links them with gaps under 730 days; others are at least 730 days off; pending-parse filings stay alone |
| CollapseFr.GroupsArePermutation | scripts/collapse_fr_multistage.py:142-166 | every filing lands in exactly one cluster, as often as it was given |
| CollapseFr.SharedRowIffConnected | scripts/collapse_fr_multistage.py:142-183 | the deal_ids of an output row hold two filings exactly when they are linked |
| CollapseFr.RowSummarisesGroup | scripts/collapse_fr_multistage.py:169-199 | a row lists and counts its filings, all of one target, and its two dates are their least and greatest |
| CollapseFr.RowKeepsBest | scripts/collapse_fr_multistage.py:110-183 | a row has the jurisdiction and kind of its first filing, the first known acquirer, the latest known close date and the first known price with its currency |
| CollapseFr.SortIsStable | scripts/collapse_fr_multistage.py:156 | filings of one date keep the order they were given in |
| CollapseFr.TargetsGrow | scripts/collapse_fr_multistage.py:144-148 | targets stand in the order of their first filing |
| CollapseFr.GroupsInTargetOrder | scripts/collapse_fr_multistage.py:148-166 | and their rows in that order |
| CollapseFr.ClusterLoop | scripts/collapse_fr_multistage.py:157-165 | the loop yields the rows of the clusters in order |
| CollapseFr.CollapseFr | scripts/collapse_fr_multistage.py:142-166 | the output is one row per cluster, by target in order of first appearance |
| Validation.ChunksTile | src/scoring/validation.py:100-104 | the validation chunks run through date-order positions from chunk_size on, each exactly once |
| Validation.ChunkIs | src/scoring/validation.py:99-103 | a chunk is one part in n_splits + 1 of the positions rounded down, at least one, and the last takes the rest |
| Validation.NoFutureData | src/scoring/validation.py:105-112 | training indices are exactly the earlier positions dated at least the gap before every validation date, and never validation indices |
| Validation.KeptFoldsAreNested | src/scoring/validation.py:99-115 | each kept fold is nonempty on both sides and its training list begins the next one's |
| Validation.ChronologicalFolds | src/scoring/validation.py:89-115 | the loop keeps exactly the nonempty splits in order |
| Amounts.AmfMeaning | src/ingestion/amf/parser.py:369-382 | every text of digits, white space, dots and commas with a digit in it is read as all its digits with the last dot or comma as the decimal point |
| Amounts.BafinMeaning | src/ingestion/bafin/parser.py:298-300 | every text of digits, blanks, dots and at most one comma with a digit in it is read as all its digits with the comma alone as the decimal point |
| Amounts.AmfTotal | src/ingestion/amf/parser.py:89-92 | no captured amount fails to convert, and one with a fraction is the number written |
| Amounts.BafinTotal | src/ingestion/bafin/parser.py:91-92 | no captured amount fails to convert, and with a comma it is the number written |
| Amounts.NormalisersAgreeIff | src/ingestion/bafin/parser.py:290-302 | on every amount BaFin captures, which AMF captures too, the two agree exactly when the decimal mark is a comma or the amount is zero |
| Amounts.SameIsValue | src/ingestion/bafin/parser.py:290-302 | agreeing means standing for the same number |
| Amounts.PrintedReadsBack | src/ingestion/amf/parser.py:369-382 | both undo printing with groups of three by spaces or dots and a decimal comma |
| Amounts.EurosReadBack | src/ingestion/amf/parser.py:369-382 | any number of euros and cents printed so is read by both as that many cents |
| Amounts.DottedWholeReadsBackIff | src/ingestion/amf/parser.py:374-378 | a whole amount grouped with dots is read back exactly when it has no dot or is zero |
| Amounts.SpacedWholeReadsBack | src/ingestion/amf/parser.py:369-382 | a whole amount grouped with any white space is read back |
| DecisionIndex.ParseIndexRows | src/output/decision_md.py:187-199 | one entry per file, each a single line that is read under that file's name |
| DecisionIndex.RoundTripIff | src/output/decision_md.py:187-210 | printing then parsing gives the dictionary back exactly when each row is one line read under its own name, and then printing again gives the same text |
| DecisionIndex.TableLineIff | src/output/decision_md.py:187-199 | a line of the table is a row exactly when it has nine cells or more and its first is not the column title |
| DecisionIndex.DescendingPairs | src/output/decision_md.py:206-210 | rows in printed order never have an older date before a newer one, at any distance |
| IndexDates.AtMostIff | src/output/decision_md.py:208 | the order of the date texts is that of code points: a first part, or the smaller where two first differ |
| IndexDates.IsoOrder | src/output/decision_md.py:95 | on the dates the program prints that is the order of the calendar |
| IndexDates.PrintedNewestFirst | src/output/decision_md.py:206-210 | no printed row is followed, at any distance, by one of a later calendar date |
| IndexDates.UpdatedNewestFirst | src/output/decision_md.py:226-243 | nor in an index that was read, updated and printed |
| IndexDates.WrittenDate | src/output/decision_md.py:176-184 | the rows the program writes carry their calendar date |
| IndexDates.SameDateKeepsOrder | src/output/decision_md.py:208 | rows of one date keep the order of the dictionary |
| DecisionIndex.UpdateFacts | src/output/decision_md.py:226-243 | on any stored text an upsert changes exactly its own row if and only if that row is one line read under its own file name; then newest dates come first, and twice is the same as once |
| DecisionIndex.WrittenRowIsGood | src/output/decision_md.py:176-184 | a row of one-line cells, with a plain date and a file name free of parentheses and pipes, is read back under its name and date, pipes in other cells included |
| DecisionIndex.BrokenRowIsLost | src/output/decision_md.py:187-199 | a row holding a line break is never read back |
| DecisionIndex.IndexFile.UpdateDecisionIndex | src/output/decision_md.py:226-243 | the stored text is the updated index, whose dictionary is the old one with this row put in if and only if the row is read back, and then a second write would change nothing |
| ParisTime.NextTimeIsNext | src/trading/scheduler.py:44-51 | for every zone, moment and hour but 2 the result is the least later instant at that local hour, at most 25 hours off |
| ParisTime.TwoIsNextIff | src/trading/scheduler.py:44-51 | for hour 2 the result is the next 02:00 if and only if the day aimed at does not skip that hour and the moment is not in the hour before the clock is put back |
| ParisTime.TwoAlwaysNextIff | src/trading/scheduler.py:44-51 | so it is right at every moment exactly in zones that never change their clocks |

## Left out

- DecisionEngine.EvaluateCandidate: the rationale text is not modelled; it is formatting.
- DecisionEngine.QuantityFallsWithReference: stated for probabilities between 0 and 1, as the score is; outside that the Kelly share is not monotone.
- ScrapingBee.OverrunBounded: stated for budgets of at least one credit and months that do not go back.
- OpenFigi.OpenFigiResolver.ResolveBatch: the clock is read once per call, not once per lookup, and a reply is either rows or a warning, never a malformed entry; the pause between POSTs and the retries inside one are a single success or failure.
- Validation.ChronologicalFolds: the number of splits is a natural number; a negative one gives no folds or a division by zero.
- PositionCap.CapHolds: one way only, as a discipline a caller can check before sending; the exact condition for passing the cap is CapPassedIff. It needs a positive cooldown, without which one cycle can send several orders.
- Amounts.AmfTotal: digits are the ASCII ones, where the source's digit class takes any decimal digit of Unicode.
- OpenFigi.NoGuessedTicker: upper case is the ASCII one.
- DecisionIndex.IndexFile.UpdateDecisionIndex: the translation of line ends between the file and the text is not modelled.
- CollapseFr.SortByDate: the list is sorted as a value, by stable insertion, not in place.
- PositionBook.BoughtPosition: column precision of the database is not modelled, so sums are exact.
- HTTP, the broker SDK, chat alerts, the database layer and file access are replaced by arguments and in-memory state.
- Crashes between placing an order and committing the row are not modelled; a submit is atomic.
- Candidate loading, ticker resolution and the choice of tradeable deals are outside the cycle modelled here.
- `to_ib_orders` copies each leg into an SDK object and adds no logic.
- `retry_with_backoff` is a counting loop around one call; its properties would be easy members.
- Extraction of amounts and dates from free text, apart from the amount grammars, has no clean specification.
- The scoring model, its calibration and metrics are library behaviour.
- Dashboards, migrations, settings, logging and one-shot scripts are plumbing.
