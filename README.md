# freqtrade's trade-lifecycle engine in Dafny

This project models the decision logic of `FreqtradeBot` (freqtrade/freqtradebot.py). That is the controller that, once per cycle, does three things:

- refreshes the pair whitelist;
- manages the open trades: stoploss orders on the exchange, then sells;
- enters new trades on free position slots, and cancels buy or sell orders that have timed out.

Every call into the exchange, the wallets, the strategy, the risk model (Edge) or the database is an input value:

- the exchange's reply to an order, the list of fills, and the free wallet balance;
- the outcome of placing a stoploss order;
- the strategy's signals;
- the current time.

Money is modelled as exact `real`. Python's `isclose(a, b, abs_tol=eps)` is modelled exactly as `|a-b| <= max(1e-9 * max(|a|,|b|), eps)`. The tolerance `MATH_CLOSE_PREC` is a parameter (`closePrec`).

Modules:

- `Types`: orders, fills, fees, errors, sell reasons, `IsClose`.
- `StakeSizing`: free slots, available balance, unlimited split, the funds check, and the pair's minimum stake.
- `FeeReconciliation`: `get_real_amount`, as a loop proved against `ReconciledAmount`.
- `OrderExecution`: how an entry order's status becomes a trade, `_safe_sell_amount`, sell order type and limit, the timeout predicate and dispatch, and the trailing re-pin rule.
- `Trades`: the `Trade` class.
  - Its fields are the record's columns.
  - Each updating method (buy and sell timeout, sell, stoploss placement, stoploss on exchange, trailing) is proved to leave the record equal to a specification function of its previous `State()`.
  - The lifecycle properties are lemmas about those functions.
- `Pricing`: the per-pair buy and sell rate caches, as a `RateCache` class, and the buy and sell rate rules.
- `CycleDriver`:
  - whitelist extension;
  - removal of pairs with open trades;
  - create_trade's gate;
  - the counting loops of enter_positions and exit_positions;
  - the order-book walk of handle_trade.

## Model

| member | source | states |
|---|---|---|
| StakeSizing.FreeOpenTrades | freqtrade/freqtradebot.py:191-197 | free slots are a natural number, zero exactly when the open trades reach the maximum, otherwise open + free = maximum |
| StakeSizing.AvailableStakeAmount | freqtrade/freqtradebot.py:300-314 | available + tied-up = ratio x (tied-up + free); ratio 1 gives the free balance; ratio <= 1 never exceeds that share of the free balance |
| StakeSizing.UnlimitedStakeAmount | freqtrade/freqtradebot.py:316-327 | zero when no slot is free, otherwise stake x free slots = available balance |
| StakeSizing.CheckAvailableStakeAmount | freqtrade/freqtradebot.py:329-351 | a returned stake never exceeds the balance; without amending it is the stake exactly when covered, otherwise an error; with amending it becomes min(stake, available) above the min-ratio threshold and 0 at or below it |
| StakeSizing.AmendFailsOnlyOnNegativeBalance | freqtrade/freqtradebot.py:337-349 | with amending on, the check raises only when the available balance is negative |
| StakeSizing.TradeStakeAmount | freqtrade/freqtradebot.py:276-298 | the funds check of Edge's stake when Edge is active, else of the configured fixed stake (the unlimited split otherwise): never above the balance, and the only error is the funds error |
| StakeSizing.NoFreeSlotMeansZeroStake | freqtrade/freqtradebot.py:316-323 | with unlimited sizing and no free slot, the stake is exactly 0 |
| StakeSizing.UnlimitedStakeFitsAvailable | freqtrade/freqtradebot.py:316-351 | with unlimited sizing, a free slot and no amending, the stake is the balance divided by the free slots and passes the check |
| StakeSizing.ReserveFactor | freqtrade/freqtradebot.py:375-381 | the factor is max(1 - reserve + stoploss, 0.5): at least 0.5, at least 1 - reserve (0.05 by default) + stoploss (when the strategy has one), and equal to one of the two |
| StakeSizing.StakeMinimums | freqtrade/freqtradebot.py:362-370 | exactly the declared cost minimum and the amount minimum at the price, each only when present |
| StakeSizing.MinPairStakeAmount | freqtrade/freqtradebot.py:353-386 | an unknown pair is an error; None without limits or without any minimum; otherwise the result x factor = the largest minimum, so it is at most twice that minimum, and it covers every minimum when the factor <= 1 |
| OrderExecution.SafeSellAmount | freqtrade/freqtradebot.py:996-1019 | succeeds iff wallet >= amount or wallet > 0.98 x amount; the result is min(amount, wallet), never above the wallet and at least 0.98 x amount |
| OrderExecution.SafeSellAmountExamples | freqtrade/freqtradebot.py:1012-1019 | the three outcomes for a recorded amount of 100 with a wallet of 100, 99 and 90 |
| OrderExecution.InterpretEntryOrder | freqtrade/freqtradebot.py:496-523 | declines exactly an expired or rejected order with zero fill; a partial fill is recorded at cost, filled quantity and price with no pending order; a closed order at its filled values; an open order at the requested stake and rate, pending |
| OrderExecution.EntryStakeConsistent | freqtrade/freqtradebot.py:496-534 | every trade created from an order whose cost is filled x price keeps stake = amount x open rate |
| OrderExecution.InterpretEntryOrderAsWritten | freqtrade/freqtradebot.py:496-523 | the status branches as written: declines exactly an expired or rejected order with zero fill; a partial fill is recorded at cost, the ORDERED amount and price, with no pending order |
| OrderExecution.EntryAsWrittenRecordsUnfilledAmount | freqtrade/freqtradebot.py:514-517 | the code as written records the ordered amount for a partial fill (10 where 4 were bought), unlike the corrected rule |
| OrderExecution.RequestedBuyPrice | freqtrade/freqtradebot.py:468-472 | an explicit non-zero price is used as given; a missing or zero price gives the freshly computed buy rate |
| OrderExecution.PlaceBuy | freqtrade/freqtradebot.py:474-523 | refused iff the pair's minimum stake exceeds the stake; otherwise declined iff nothing filled on an expired or rejected order; an opened trade records the requested rate and, under the corrected partial-fill rule (see Findings), has stake = amount x rate for a consistent order |
| OrderExecution.ExecuteBuy | freqtrade/freqtradebot.py:459-523 | fails iff the pair is unknown to the exchange; otherwise the placement at the resolved price against the pair's minimum stake |
| OrderExecution.CheckTimedOut | freqtrade/freqtradebot.py:870-881 | an order times out only when a timeout is configured for its side, it is that side's order and still open, placed more than the timeout (minutes, possibly fractional) before now, and so before now when the timeout is non-negative |
| OrderExecution.TimesOutAfterTimeout | freqtrade/freqtradebot.py:874-880 | conversely, an open order of the side placed more than the timeout (minutes) before now has timed out; with `CheckTimedOut`'s contract, an order times out if and only if a timeout is configured and it is open, of the side and older than the timeout |
| OrderExecution.TimedOutStaysTimedOut | freqtrade/freqtradebot.py:870-881 | a timed-out order stays timed out as the clock advances |
| OrderExecution.NotTimedOut | freqtrade/freqtradebot.py:874-881 | without a configured timeout, or for an order not older than now, nothing times out |
| OrderExecution.ClassifyTimeout | freqtrade/freqtradebot.py:890-919 | an order that cannot be fetched is skipped; one with zero (or missing) remaining is already filled; otherwise a buy is cancelled iff it was canceled or timed out (likewise a sell), and only orders with a reported non-zero remaining reach a handler |
| OrderExecution.RepinStopLoss | freqtrade/freqtradebot.py:829-833 | a stop at or above the buy rate, with the last price above it, moves to buy rate + pip when the spread exceeds a pip and onto the buy rate otherwise; any other stop is kept |
| OrderExecution.RepinnedStopBelowAsk | freqtrade/freqtradebot.py:823-836 | a re-pinned stop lies between the buy rate and the sell rate (strictly below the sell rate) and at most one pip above the computed stop |
| FeeReconciliation.GetRealAmount | freqtrade/freqtradebot.py:1185-1234 | the loop over the fills returns exactly `ReconciledAmount`: the amount unchanged when there is no open fee, the order is open or there are no fills; minus the embedded base-currency fee; otherwise the summed fills minus their base-currency fees, or an error when the sum is not close to the amount |
| FeeReconciliation.SumFillAmountsAppend | freqtrade/freqtradebot.py:1215-1218 | the fill sum is additive over concatenation |
| FeeReconciliation.SumBaseFeesNonNegative | freqtrade/freqtradebot.py:1216-1225 | non-negative fees sum to a non-negative total |
| FeeReconciliation.SumBaseFeesNone | freqtrade/freqtradebot.py:1219-1225 | fills without a base-currency fee contribute no fee |
| FeeReconciliation.ReconciledNeverGrows | freqtrade/freqtradebot.py:1193-1234 | with non-negative fees a reconciled amount is at most the order amount, or at most the summed fills, which are close to it |
| FeeReconciliation.FillsWithoutBaseFee | freqtrade/freqtradebot.py:1208-1234 | on the fill path, fills without base-currency fees give exactly their summed amount |
| FeeReconciliation.TimeoutFeeTakenAsWrittenMisfires | freqtrade/freqtradebot.py:950-956 | the test as written reports a fee on a half-filled order that is still open, although the reconciliation left the filled amount unchanged; the corrected test does not |
| FeeReconciliation.TimeoutFeeTakenOnlyOnChange | freqtrade/freqtradebot.py:950-956 | with the corrected test, a fee is taken only when there was an open fee, the order is not open, and an embedded fee or the fills changed the amount |
| Trades.FeeCorrectedFill | freqtrade/freqtradebot.py:950-957 | a correction only exists when the trade had an open fee, and it differs from the filled amount |
| Trades.FeeCorrection | freqtrade/freqtradebot.py:950-959 | runs the reconciliation on the filled amount (with the cancel reply's status and fee when it has a fee) and yields `FeeCorrectedFill` |
| Trades.ShrunkToFill | freqtrade/freqtradebot.py:947-961 | only amount, stake, open fee and pending order change; stake = filled x open rate; without a correction amount = filled, stake = amount x rate and the open fee is kept; with one the amount is the corrected amount and the open fee is 0 |
| Trades.TimedoutBuy | freqtrade/freqtradebot.py:936-961 | the trade is deleted iff the remaining (reply's, else order's) equals the ordered amount; otherwise it keeps its pair, stays open or closed as it was, and has no pending order |
| Trades.TimedoutBuyShrinksToFill | freqtrade/freqtradebot.py:942-961 | a partly filled trade is shrunk to the fill and fee-corrected; a changed amount means a fee was taken off an open fee (now 0); an unchanged amount keeps the open fee |
| Trades.Trade.constructor | freqtrade/freqtradebot.py:526-540 | a new trade from an entry: open, maker fee on both sides, nothing closed, no stoploss order (stop values and the last stoploss update are model defaults) |
| Trades.Trade.HandleTimedoutLimitBuy | freqtrade/freqtradebot.py:921-967 | returns "deleted" iff nothing was filled (record untouched); otherwise the record becomes the shrunk, fee-corrected trade |
| Trades.Trade.HandleTimedoutLimitSell | freqtrade/freqtradebot.py:969-994 | reverts iff remaining == amount: close rate, profit and date cleared, open again, no pending order; a partial fill leaves the record unchanged |
| Trades.Trade.ExecuteSell | freqtrade/freqtradebot.py:1021-1066 | returns the sell order `SellOrder` of the previous record; on success records the sell order id, the requested limit and the reason; a wallet short by more than 2% leaves the record unchanged |
| Trades.SellOrderByReason | freqtrade/freqtradebot.py:1029-1058 | a sell order is submitted iff the wallet covers the trade within 2%, for min(amount, wallet); an emergency sell at the configured emergency type ("market" by default) and the requested limit; a stoploss or trailing-stoploss sell at the stoploss type, priced at the trade's stop in dry-run with stoploss on exchange; any other sell at the sell type and the requested limit |
| Trades.PlaceStoploss | freqtrade/freqtradebot.py:712-728 | exactly one stoploss order is submitted, at the given stop price; the stoploss id is the accepted order's, and none after a failure |
| Trades.Trade.CreateStoplossOrder | freqtrade/freqtradebot.py:704-729 | result and new record are those of `PlaceStoploss` on the previous record |
| Trades.EmergencySellAtStop | freqtrade/freqtradebot.py:719-724 | an order rejected as invalid clears the stoploss id and sells the trade as an emergency at its stop, at the emergency order type ("market" by default); a wallet that does not cover the trade raises, with only the stoploss id cleared |
| Trades.PlacementBookkeeping | freqtrade/freqtradebot.py:712-728 | true exactly on acceptance, and then the id and time are recorded; a failure never leaves a stoploss id |
| Trades.Trade.HandleTrailingStoplossOnExchange | freqtrade/freqtradebot.py:795-852 | the record after trailing is `TrailStoploss` of the previous record |
| Trades.TrailStoploss | freqtrade/freqtradebot.py:803-852 | a new stop order is placed iff the exchange asks for an adjustment and the interval (60 s by default) has passed, and then exactly one, at the re-pinned stop, with the record `PlaceStoploss` gives (so an accepted order stamps the last update); otherwise the record is unchanged |
| Trades.Trade.HandleStoplossOnExchange | freqtrade/freqtradebot.py:731-793 | result, submitted stop prices and new record are those of `StoplossPass` on the previous record |
| Trades.NoStopOrderPlacesOne | freqtrade/freqtradebot.py:765-774 | an actionable trade without a stop order gets exactly one order, at open_rate x (1 + stoploss), and is never reported closed |
| Trades.StoplossPass | freqtrade/freqtradebot.py:731-793 | the pass reports the trade closed iff its stop order is closed, and then places nothing and records the stoploss-on-exchange sell reason |
| Trades.PendingTradeUntouched | freqtrade/freqtradebot.py:759-763 | a trade with a pending order, or already closed, is left unchanged with nothing placed |
| Trades.CanceledStopOrderReplaced | freqtrade/freqtradebot.py:776-791 | a canceled stop order is replaced first at the trade's stop; a successful replacement ends the pass; a failed one leaves no stoploss id unless trailing placed a new order |
| Pricing.CachedRate | freqtrade/freqtradebot.py:244-249 | a cached rate is served only for a stored pair, and exactly while it is younger than the time to live |
| Pricing.RateCache.Get | freqtrade/freqtradebot.py:245 | the lookup returns `CachedRate` of the cache's entries |
| Pricing.RateCache.Put | freqtrade/freqtradebot.py:272 | writing a pair's rate replaces that pair's entry, stamped now, and leaves every other entry |
| Pricing.StoredRateServed | freqtrade/freqtradebot.py:272 | a rate written now is served until the time to live has passed, and not after |
| Pricing.OtherPairsUndisturbed | freqtrade/freqtradebot.py:272 | writing one pair's rate leaves every other pair's lookup as it was |
| Pricing.TickerBuyRate | freqtrade/freqtradebot.py:264-270 | the ask when below the last price; otherwise, for a balance between 0 and 1, a rate between last and ask, equal to the ask at balance 0 and the last price at balance 1 |
| Pricing.BuyRate | freqtrade/freqtradebot.py:251-270 | the order-book rate is the bid at depth `order_book_top` (1-based); the ticker rate (balance in [0,1]) lies between min(ask, last) and the ask |
| Pricing.SellRate | freqtrade/freqtradebot.py:647-655 | the best ask of the order book, or the ticker's ask |
| Pricing.GetBuyRate | freqtrade/freqtradebot.py:237-274 | returns the cached rate on a live non-zero hit without refresh, otherwise the computed rate, which is then written to the cache for the pair |
| Pricing.GetSellRate | freqtrade/freqtradebot.py:630-657 | the same caching discipline over the sell source |
| Pricing.RefreshedRateIsServed | freqtrade/freqtradebot.py:244-272 | a non-zero rate computed on refresh is what a non-refresh lookup returns within the time to live, whatever the source says then |
| Pricing.ZeroRateNotServed | freqtrade/freqtradebot.py:247 | a cached zero rate is a miss: the rate is recomputed |
| Pricing.BuyRateCachedWithinTtl | freqtrade/freqtradebot.py:237-274 | two buy-rate lookups within the time to live, the first refreshing: the second returns the first's rate whenever that is non-zero |
| CycleDriver.RefreshWhitelist | freqtrade/freqtradebot.py:162-183 | the loop over the open trades yields `Extend(pairlist, openPairs)` |
| CycleDriver.ExtendKeepsPrefix | freqtrade/freqtradebot.py:175-183 | the refreshed whitelist starts with the pairlist, unchanged |
| CycleDriver.ExtendMembers | freqtrade/freqtradebot.py:175-183 | a pair is in the refreshed whitelist iff it is in the pairlist or has an open trade |
| CycleDriver.ExtendAppendsNoDuplicate | freqtrade/freqtradebot.py:178-182 | a pairlist without duplicates stays without duplicates |
| CycleDriver.ExtendCoveredIsNoop | freqtrade/freqtradebot.py:178-182 | when every open trade's pair is listed, the whitelist is unchanged |
| CycleDriver.ExtendIdempotent | freqtrade/freqtradebot.py:175-183 | refreshing twice with the same trades gives the same list as once |
| CycleDriver.RemoveFirstMultiset | freqtrade/freqtradebot.py:215-216 | `list.remove` takes exactly one occurrence out |
| CycleDriver.RemoveFirstDistinct | freqtrade/freqtradebot.py:215-216 | on a list without duplicates, removal deletes the pair and keeps every other one |
| CycleDriver.RemoveEachSubMultiset | freqtrade/freqtradebot.py:213-216 | the candidates are a sub-multiset of the whitelist |
| CycleDriver.RemoveEachDistinct | freqtrade/freqtradebot.py:213-216 | on a whitelist without duplicates, a pair is a candidate iff it is listed and has no open trade |
| CycleDriver.DuplicateSurvivesRemoval | freqtrade/freqtradebot.py:213-216 | a pair listed twice is removed only once, so it stays a candidate |
| CycleDriver.RefreshedCandidatesExcludeOpenPairs | freqtrade/freqtradebot.py:175-216 | starting from a pairlist without duplicates, no candidate has an open trade |
| CycleDriver.RemoveOpenPairs | freqtrade/freqtradebot.py:213-216 | the removal loop yields `RemoveEach(whitelist, openPairs)` |
| CycleDriver.CreateTrade | freqtrade/freqtradebot.py:388-433 | buys (and reports execute_buy's outcome) only for an unlocked pair with a buy and no sell signal, a free slot, a non-zero stake and a satisfied depth-of-market check; otherwise false, or the stake error |
| CycleDriver.Entered | freqtrade/freqtradebot.py:224-229 | a count is never more than the candidates and never past the maximum of open trades; the walk fails only with an error the loop does not catch |
| CycleDriver.EnteredStopsAtFailure | freqtrade/freqtradebot.py:224-229 | once an uncaught error ends the walk, later candidates change nothing |
| CycleDriver.EnteredSucceedsWhenFailuresCaught | freqtrade/freqtradebot.py:226-229 | when every candidate can fail only with a DependencyException, the walk yields a count |
| CycleDriver.UnknownMarketEndsEntry | freqtrade/freqtradebot.py:224-229 | a pair unknown to the exchange (execute_buy's ValueError) ends the walk, so the buyable pair after it is not tried |
| CycleDriver.EnterPositions | freqtrade/freqtradebot.py:203-235 | the result is `Entered` over the candidates: a count that never exceeds the free slots, or the uncaught error |
| CycleDriver.ExitCloses | freqtrade/freqtradebot.py:609-622 | a trade counts as closed iff its stop order filled (with stoploss on exchange) or, without a pending order and without a stoploss error, it sold |
| CycleDriver.ExitPositions | freqtrade/freqtradebot.py:604-628 | the count of closed trades is `Exited`, at most the number of trades |
| CycleDriver.NothingSoldNothingClosed | freqtrade/freqtradebot.py:604-628 | a pass in which no trade closes reports zero |
| CycleDriver.SellWalkFirstDecisive | freqtrade/freqtradebot.py:687-693 | no sale iff every attempt declines; otherwise the outcome of the first attempt that sold or raised, all before it having declined |
| CycleDriver.HandleTrade | freqtrade/freqtradebot.py:659-702 | a closed trade raises; otherwise the ask levels order_book_min..order_book_max (or the single sell rate) are tried in order until one sells, as `SellWalk` states |

## Left out

- Exchange, wallet, strategy, Edge, RPC and logging calls. The exchange's replies, the fills, the free balance, the signals, `should_sell` with its sale, the pair lock and the stoploss value are inputs. Notifications and log lines have no counterpart.
- Persistence. There is no `Trade.session` add, delete or flush, and no `Trade.update` or `recalc_open_trade_price` (the persistence module is not part of this model). Consequences:
  - a deleted trade is reported by a flag;
  - a closed stop order or an immediately closed sell only records its sell reason and order id; the close fields it would set through `Trade.update` are not modelled;
  - re-calculating the open trade price after a fee correction is not modelled.
- `update_trade_state` (lines 1154-1183). Its outcome for each trade enters `ExitOutcome` as an input.
- `_check_depth_of_market_buy`. It needs a dataframe conversion from another module, so its answer is an input of `CreateTrade`.
- `random.shuffle` in enter_positions. Candidates are tried in list order. Every property proved about the count holds for any order.
- `_sell_lock` and threading in `process`. These are concurrency.
- `process` itself. It only sequences the modelled steps.
- The rate caches' capacity (100 entries, least-recently-used eviction). A full cache would evict entries the model keeps.
- The caches' time to live is whole seconds on an explicit clock.
- `round(spread, decimals)` (line 827). The spread is the unrounded sell rate minus buy rate; the pip (`1/10**decimals`) is an input.
- The rate-cache writes made by refreshing lookups inside `execute_buy` (line 472), `handle_trade` (line 697) and trailing (lines 823-824). Those steps take their rates as inputs and leave the caches alone, so a later non-refreshing lookup within the time to live may return an older cached rate in the source than the model assumes. `Pricing.GetBuyRate` and `Pricing.GetSellRate` model the write-back on their own.
- The docstring of `get_sell_rate` speaks of the bid, while the code reads the ask side (`ask` of the ticker, the `asks` of the book). The model follows the code.
- Binary floating-point behaviour. Money and timeouts are exact reals.
- Sub-second times. Order times and `now` are whole seconds; `arrow` keeps microseconds.
- The clocks. `create_stoploss_order` stamps `datetime.now()` while trailing compares against `datetime.utcnow()`; the model uses one clock `now`, so a time-zone offset between the two is not modelled.
- Pricing.BuyRate, Pricing.SellRate: require a valid order-book depth (`1 <= order_book_top <= |bids|`, a non-empty ask list). Python would index from the end for a depth of 0, or raise for a short book.
- CycleDriver.HandleTrade: requires `1 <= order_book_min` and `order_book_max <= |asks|`, for the same reason.
- OrderExecution.ExecuteBuy: requires a positive buy rate. Python raises ZeroDivisionError on a zero rate.
- OrderExecution.ExecuteBuy: requires an explicit price to be non-negative. A negative limit price would be refused by the exchange, a reply the model does not carry.
- OrderExecution.ExecuteBuy: the `update_trade_state(trade, order)` call for an entry order that is already closed (lines 542-544) is not modelled. The entry's fee is not reconciled, so the amount is not corrected, and the pending order id stays `Some(id)` where `Trade.update` would clear it.
- OrderExecution.PlaceBuy, OrderExecution.ExecuteBuy: use the corrected partial-fill rule (see Findings). An expired or rejected order with a partial fill is recorded at `order['filled']`, where lines 514-517 record `order['amount']`; `InterpretEntryOrderAsWritten` keeps the code's own rule.
- OrderExecution.ExecuteBuy: a closed order is recorded at `order['amount']` as written. The stake identity is proved only for consistent orders, where a closed order has filled its amount.
- CycleDriver.ExitPositions: every failure of `ExitOutcome` is caught and the walk goes on. The errors modelled for an exit (`NotEnoughToSell`, `ClosedTrade`) are all DependencyExceptions; a ValueError from the exit path is not modelled.
- Trades.Trade.constructor: `stoplossLastUpdate := openDate` and stop values 0.0 are model defaults. The source does not pass them at line 527; it leaves them to the persistence module (column defaults and its stop adjustment), which is not part of this model.
- CycleDriver.EnterPositions: the stake of each attempt is a per-pair input. How Edge or the wallet respond to trades created earlier in the same pass appears only through the free-slot count.
- CycleDriver.RefreshWhitelist: returns a new list. The pairlist's own list object, which the source extends in place (aliasing), is not modelled.
- Trades.Trade.HandleTimedoutLimitBuy: a reconciliation error is swallowed, as in the source. A cancel reply with a `fee` key whose value is null counts as "no fee" here.
- Trades.Trade.HandleTimedoutLimitBuy uses the corrected fee test (see Findings). `TimeoutFeeTakenAsWritten` keeps the code's own comparison.
- `DEFAULT_AMOUNT_RESERVE_PERCENT` is taken as 0.05, from the comment at line 375. `MATH_CLOSE_PREC` is a parameter. constants.py is not part of this model.
- `_create_pair_whitelist`, `startup`, `cleanup`, `notify_status` and the `_notify_*` methods. These are I/O only.

## Findings

| source | as written | input that shows it | evidently intended | confidence | as-written member | corrected member |
|---|---|---|---|---|---|---|
| freqtrade/freqtradebot.py:514-517 | an expired or rejected buy with a partial fill records `amount = order['amount']`, the ordered quantity | IOC order with amount 10, filled 4, cost 8, price 2: the trade holds 10 units for a stake of 8, and selling 10 against a wallet of 4 raises | record the filled quantity, `order['filled']` | not executed | OrderExecution.InterpretEntryOrderAsWritten, OrderExecution.EntryAsWrittenRecordsUnfilledAmount | OrderExecution.InterpretEntryOrder, OrderExecution.EntryStakeConsistent |
| freqtrade/freqtradebot.py:953 | after a partial buy timeout, the reconciled amount is compared with `order['amount']`, the whole order | order amount 10, 5 filled, order status still open: get_real_amount returns the filled 5 unchanged, the test fires, and `fee_open` is zeroed although no fee was deducted | compare with the filled quantity passed to the reconciliation (`trade.amount`) | not executed | FeeReconciliation.TimeoutFeeTakenAsWritten, FeeReconciliation.TimeoutFeeTakenAsWrittenMisfires | FeeReconciliation.TimeoutFeeTaken, FeeReconciliation.TimeoutFeeTakenOnlyOnChange |
