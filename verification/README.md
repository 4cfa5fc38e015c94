# Trading kernel: a verified model

This project models the parts of the trading system that decide what trades, what is owed and what may be
submitted, and proves what they promise over every input and every run:

- **Matching engine** (`OrderMatcher`, `MatchingEngine`, `PriceTimePriority`, `MatchFills`, `BookQueue`,
  `BookInvariants`, `BookRuns`, `MatchPolicies`, `LimitProtection`, `OrderOutcomes`): one book shard with market, limit
  and stop orders, GTC, IOC and FOK, self-trade prevention, a depth cap and cancels. The class runs the source's loops in
  place; it is tied to functions, and those are proved to refine a naive price-time matcher, then a closed form for each
  order's share; `OrderOutcomes` states what each kind of order does in prices, queues and lots.
- **Exactly-once submission** (`Idempotency`, `IdempotencyWindow`, `IdempotencyEviction`, `IdempotencyTable`,
  `IdempotencyLog`, `IdempotencyVerdicts`, `CircuitBreaker`, `BreakerVerdicts`, `Retry`, `Submission`,
  `SubmissionRetries`, `SubmissionOutcomes`, `Executor`, `OrderLifecycle`, `OrderStatuses`, `OrderIdempotency`,
  `OrderDesk`): state machines whose events are the atomic steps between two awaits, in any interleaving.
- **Risk manager** (`Positions`, `PositionExits`, `ValueAtRisk`, `RiskMeasures`, `RiskDesk`, `RiskLedger`,
  `RiskApproval`, `RiskHalts`, `RiskPositions`, `LossTrips`, `RiskManagement`): stops, exits, sizing, approval, the equity
  ledger, the kill switch, the loss breaker, the cooldown, VaR and CVaR.
- **Tick to candle pipeline** (`TickQueue`, `Candles`, `TickParsing`, `CandleAggregation`): the ring buffer and the two
  streaming aggregators, against a queue and a batch group-by.
- **Backtest loops** (`Backtest`, `BacktestTrades`): the Python and the Rust loop, which compute the same results, and
  which trades those are.
- **Smaller cores**: position netting (`Netting`), ensemble weights (`EnsembleScoring`, `EnsembleLearning`) and the sliding-window rate
  limiter (`RateLimiting`).

Prices, profits, weights and averages are exact reals; matcher quantities are whole lots, so the matcher's epsilon is
zero; price keys keep the source's saturating, truncating cast to 64 bits. Clock readings, exchange replies, sleeps and
jitter are inputs. A Python dict whose order matters is a sequence with distinct keys. Doc comments that begin with
MAIN mark the main theorems.

## Where the code departs from its apparent intent

Each of these is proved, and where a promise fails the exact condition under which it holds is proved too.

- Two missing users compare equal, so with self-trade prevention on, which is the default, anonymous limit orders never
  trade with each other (rust/order-matcher/src/lib.rs:309, 319). The unit tests at lines 569-596 expect them to:
  `MatchPolicies.AnonymousTradeIff` says when anonymous orders trade,
  `MatchPolicies.LimitMatchTestLocks` what the test's orders do with prevention on and off.
- A limit order that is withheld a crossing price and has a residue that may rest crosses or locks the book:
  `BookInvariants.LimitUncrossedIff` says exactly when.
- A failed fill-or-kill order reports nothing but has removed every eligible order from the book:
  `MatchPolicies.FillOrKill`, `MatchPolicies.KilledOrderTakesAll`.
- `cancel_order` answers true only when it empties a price level: `BookQueue.CancelRemovesOne`.
- The key cast truncates and saturates, so a seller whose limit is off the tick grid can be filled below it, by less than
  a tick within the key range, and a buyer with a negative limit above it: `LimitProtection.LimitProtectsIff` says which limits protect.
- The executor never calls the breaker's admission step, so an opened breaker stays open for good:
  `Submission.OpenIsForever`.
- A retry of an order that carries a key is told DUPLICATE and returns normally although its attempt failed:
  `SubmissionRetries.RetrySendsIff` says exactly when, and `SubmissionRetries.FailedThenDuplicate` gives the run. An order
  without a key is sent again by every retry:
  `Submission.UnkeyedAttemptSends`.
- A stale close task closes a breaker that is on trial, under every setting, when close tasks may wait longer than the
  recovery timeout, and only then: `CircuitBreaker.StaleCloseTask`, `CircuitBreaker.PromptnessIsExact`. A failure threshold that is not
  positive leaves closed breakers at their threshold: `CircuitBreaker.ClosedBelowThresholdIff`.
- A late confirmation or fill revives a cancelled order next to an opposing one: `OrderLifecycle.LateConfirmRevives`,
  `OrderLifecycle.ChangeSafeIff`.
- A correction that takes a filled order's total back to zero or below leaves it Filled:
  `OrderStatuses.FilledThroughoutIff` says exactly when filled orders stay filled, and
  `OrderStatuses.CorrectionUnfills` gives a case.
- A dead-letter or returns limit of zero slices nothing off, so the list is unbounded: `Retry.DeadLettersBoundedIff`,
  `ValueAtRisk.HistoryIsNewest`.
- Ticks before the epoch are filed one bucket late by the Rust parser: `TickParsing.TickInItsBucketIff`.
- The rate limiter appends without popping, so an entry that reads the very time of the last grant can meet an overfull
  window. `RateLimiting.GrantsSpacedIff` and `RateLimiting.EntrySafeIff` say exactly when the spacing survives that, and
  `RateLimiting.EqualReadingsBreakSpacing` gives every limiter with a period a run that breaks it.
- A fill that flips a position leaves the residual at the old average price: `Netting.UpdateKeepsBasisIff`.

## Model

| member | source | states |
|---|---|---|
| MatchingEngine.ShardedOrderBook.constructor | rust/order-matcher/src/lib.rs:159-167 | a new shard is empty and has self-trade prevention on |
| MatchingEngine.ShardedOrderBook.AddOrder | rust/order-matcher/src/lib.rs:191-198 | the in-place engine leaves the book, trade counter and report that the specification gives for the order's type |
| MatchingEngine.ShardedOrderBook.MatchLevel | rust/order-matcher/src/lib.rs:313-344 | the inner loop debits the makers and reports the fills of the recursive level walk, with running totals equal to the sums over the fills |
| MatchingEngine.ShardedOrderBook.SweepKeys | rust/order-matcher/src/lib.rs:301-355 | the outer loop over the crossing prices computes the whole recursive sweep, one trade number per fill |
| MatchingEngine.ShardedOrderBook.MatchMarket | rust/order-matcher/src/lib.rs:200-280 | a market order's book and report, with the average over its fills |
| MatchingEngine.ShardedOrderBook.MatchLimit | rust/order-matcher/src/lib.rs:282-384 | a limit order's book and report: GTC residue rests if its level has room, a short FOK clears its report |
| MatchingEngine.ShardedOrderBook.Rest | rust/order-matcher/src/lib.rs:357-369 | the residue joins the tail of its level, or is dropped when the level is full |
| MatchingEngine.ShardedOrderBook.HandleStopMarket | rust/order-matcher/src/lib.rs:386-404 | a stop order acts only when the opposite best price has reached its trigger |
| MatchingEngine.ShardedOrderBook.HandleStopLimit | rust/order-matcher/src/lib.rs:406-424 | the same for stop-limit orders |
| MatchingEngine.ShardedOrderBook.CancelOrder | rust/order-matcher/src/lib.rs:426-444 | the search by ascending price removes the first order found and answers whether its level emptied |
| OrderMatcher.BestFirst | rust/order-matcher/src/lib.rs:206-210 | every price exactly once, best first for the taker's side |
| PriceTimePriority.WalkIsGreedy | rust/order-matcher/src/lib.rs:313-349 | matching inside a level is greedy consumption of its orders in arrival order, passing over the taker's own |
| PriceTimePriority.SweepFrame | rust/order-matcher/src/lib.rs:301-355 | a sweep changes no level it does not visit and adds none |
| PriceTimePriority.VisitedKeysCross | rust/order-matcher/src/lib.rs:295-299 | the visited prices are exactly those the limit allows |
| PriceTimePriority.MatchIsPriceTime | rust/order-matcher/src/lib.rs:200-355 | for any live book and any taker, fills, remainder and the resulting opposite side are those of flattening the side by best price and arrival, dropping what the limit and the self-trade rule exclude, and consuming greedily |
| MatchFills.GreedyGivesShares | rust/order-matcher/src/lib.rs:313-344 | the greedy matcher gives each queue position exactly what the eligible orders ahead of it leave of the demand |
| MatchFills.MatchGivesShares | rust/order-matcher/src/lib.rs:200-355 | closed form of the engine: every order's share, survivors in order, and the unfilled remainder against the eligible liquidity |
| MatchFills.FillsAreFair | rust/order-matcher/src/lib.rs:323-344 | every fill is with a resting order at its own price, within the limit, never between equal users while prevention is on; trade numbers are consecutive; filled plus unfilled is the demand |
| MatchFills.BuyLimitHolds | rust/order-matcher/src/lib.rs:286-299 | no price key a buy limit crosses is above the limit, exactly when the limit is not negative |
| MatchFills.SellLimitHolds | rust/order-matcher/src/lib.rs:286-299 | no price key a sell limit crosses is below the limit, exactly when the limit is on the tick grid or not positive; within the key range none is a whole tick below |
| LimitProtection.ExactLimitProtects | rust/order-matcher/src/lib.rs:282-384 | on every book with live levels, a buy limit not below zero or a sell limit on the grid bounds every reported fill and the reported average |
| LimitProtection.OneOrderFills | rust/order-matcher/src/lib.rs:306-349 | a taker fills whole, at the limit's key, against a book of one order of another user there |
| LimitProtection.LimitProtectsIff | rust/order-matcher/src/lib.rs:282-384 | every fill and average reported on every well-formed book is within the limit if and only if the limit is exact: a buy not below zero, a sell on the tick grid or not above zero |
| BookQueue.StoreSplitsQueue | rust/order-matcher/src/lib.rs:346-353 | replacing one level replaces one stretch of the price-time queue and moves nobody else |
| BookQueue.RestingJoinsTheTail | rust/order-matcher/src/lib.rs:357-369 | a resting order stands behind everyone at its price or better and before everyone worse; nobody else moves |
| BookQueue.CancelRemovesOne | rust/order-matcher/src/lib.rs:426-444 | a cancel that finds its id removes exactly one order of it, keeps the order and priority of the rest, and answers true exactly when that order was alone at its price |
| BookQueue.CancelOfUnknown | rust/order-matcher/src/lib.rs:429-443 | cancelling an unknown id changes nothing and answers false |
| BookInvariants.AddKeepsBook | rust/order-matcher/src/lib.rs:191-424 | whatever the order, no level is empty, levels hold at most the cap (and at least one), every resting order is on its own side under its own key with 0 < remaining <= quantity |
| BookInvariants.CancelKeepsBook | rust/order-matcher/src/lib.rs:426-444 | the same over a cancel |
| BookInvariants.UnfilledLeavesWithheld | rust/order-matcher/src/lib.rs:301-355 | when a limit taker is left unfilled, the crossing prices still in the book are exactly those self-trade prevention withheld |
| BookInvariants.LeftIffShort | rust/order-matcher/src/lib.rs:301-355 | something is left unfilled exactly when the demand exceeds the eligible liquidity |
| BookInvariants.LimitUncrossedIff | rust/order-matcher/src/lib.rs:282-384 | from an uncrossed book, a limit order leaves bids below asks if and only if it is not a GTC order that both exceeds its liquidity and is withheld a crossing price |
| BookRuns.RunKeepsBook | rust/order-matcher/src/lib.rs:149-444 | every book reachable by orders and cancels is well formed |
| BookRuns.StepUncrossedIff | rust/order-matcher/src/lib.rs:191-444 | any order or cancel keeps an uncrossed book uncrossed if and only if it is not a locking limit order |
| BookRuns.UncrossedThroughoutIff | rust/order-matcher/src/lib.rs:191-444 | over every run, best bid stays below best ask throughout if and only if no limit order on the way locks the book |
| BookRuns.RunStaysUncrossed | rust/order-matcher/src/lib.rs:191-444 | with self-trade prevention off, best bid stays below best ask over every run |
| BookRuns.GreedyConserves | rust/order-matcher/src/lib.rs:323-344 | per order id, lots before are lots still resting plus lots in the fills |
| BookRuns.LedgerBalances | rust/order-matcher/src/lib.rs:191-444 | over every run and per order id: submitted = traded in reported fills + resting + discarded + debited by fills a failed FOK cleared |
| MatchPolicies.FillOrKill | rust/order-matcher/src/lib.rs:323-374 | a FOK reports all or nothing, and a killed one has taken the whole eligible liquidity without report |
| MatchPolicies.KilledOrderTakesAll | rust/order-matcher/src/lib.rs:323-374 | after a FOK that the eligible liquidity does not cover, the opposite queue is the old one without its eligible orders and the own side is untouched; so the book is as before if and only if nothing was eligible |
| MatchPolicies.KilledOrderEmptiesBook | rust/order-matcher/src/lib.rs:370-374 | one lot for sale and a FOK for two: nothing is reported and the lot is gone |
| MatchPolicies.AnonymousTradeIff | rust/order-matcher/src/lib.rs:220-236 | against a side without users, an order without a user fills something if and only if prevention is off, it wants something and some price is within its limit |
| MatchPolicies.LimitMatchTestLocks | rust/order-matcher/src/lib.rs:569-581 | the test's two anonymous orders trade one lot at 50000 as expected with prevention off; with it on they do not trade and lock the book |
| OrderOutcomes.CrossesInPrices | rust/order-matcher/src/lib.rs:286-299 | a buy limit that is not negative admits exactly the asks at or below it; a sell limit in the key range exactly the bids less than a tick below it or better |
| OrderOutcomes.EligibleIff | rust/order-matcher/src/lib.rs:309-321 | with prevention off every order is matchable; with it on, a limit taker is kept from every level that holds an order with an equal user, missing users included, and a market taker with a user likewise, while one without passes over single orders without a user |
| OrderOutcomes.StopMarketFires | rust/order-matcher/src/lib.rs:386-404 | in prices: a buy stop with an ask whose prices are all at or above its trigger (its own price when it has none), or a sell stop with bids all at or below it, does exactly what the market order does; otherwise nothing happens and all of it remains |
| OrderOutcomes.StopLimitFires | rust/order-matcher/src/lib.rs:406-424 | the same condition, with the limit order in place of the market order |
| OrderOutcomes.ResidueRestsIff | rust/order-matcher/src/lib.rs:357-369 | on a valid book, whatever the order: the unmet lots of a GTC order matched at its limit join the own queue as one order, behind everyone at its price or better, if and only if that queue holds no order at its key or fewer than the depth cap; in every other case the own side is unchanged |
| OrderOutcomes.AddOrderMeans | rust/order-matcher/src/lib.rs:191-384 | for every order type: filled and remaining lots add up to the quantity, average times filled lots is the value of the fills, and the opposite queue loses exactly the shares by price and time, which are the fills reported unless a FOK falls short |
| OrderOutcomes.CancelKeepsOpposite | rust/order-matcher/src/lib.rs:426-444 | a cancel leaves the other side and the trade counter alone |
| Idempotency.EvictionDropsOldest | core/idempotency.py:112-124 | sorting by age and deleting the surplus equals dropping the oldest-inserted prefix |
| Idempotency.CleanupKeepsLive | core/idempotency.py:96-110 | deleting the listed expired keys leaves exactly the unexpired records, in order |
| Idempotency.CallMeans | core/idempotency.py:47-73 | a check forgets what expired, answers duplicate for a key still held, and otherwise appends it and keeps the newest max_size records |
| Idempotency.CallKeepsValid | core/idempotency.py:47-73 | keys stay distinct, records stay in clock order, expiry is creation plus ttl |
| Idempotency.CallFits | core/idempotency.py:47-73 | the table never exceeds its limit after a check, and a key just recorded is the newest record |
| IdempotencyWindow.RunRemembers | core/idempotency.py:47-124 | over any run a record survives until it expires, unless max_size other keys were recorded since |
| IdempotencyWindow.WindowHolds | core/idempotency.py:47-124 | a key answered False at t is answered True at every later time before t + ttl unless at least max_size other keys were recorded since |
| IdempotencyEviction.WindowIsExact | core/idempotency.py:47-124 | a key answered False and not recorded again is answered True later if and only if its lifetime still lasts at the duplicate test and fewer than max_size other keys were recorded in between |
| IdempotencyVerdicts.RecordsIff | core/idempotency.py:47-124 | in every log of checks, a check answers False if and only if the latest recording of its key, if any, is a lifetime old or was followed by max_size other keys |
| IdempotencyTable.IdempotencyManager.CheckAndSet | core/idempotency.py:47-73 | the mutable table after a check, and its answer |
| IdempotencyTable.IdempotencyManager.SetResult | core/idempotency.py:75-80 | stores the result in that key's record only; unknown keys change nothing |
| IdempotencyTable.IdempotencyManager.GetResult | core/idempotency.py:82-87 | a result is returned exactly when the key is held, unexpired and has one |
| IdempotencyTable.IdempotencyManager.CleanupExpired | core/idempotency.py:96-110 | removes the expired records and counts them |
| IdempotencyTable.IdempotencyManager.EnforceSizeLimit | core/idempotency.py:112-124 | evicts down to the limit |
| IdempotencyLog.TwoRecordings | core/idempotency.py:47-124 | in any log of checks, two that record the same key are a ttl apart, or max_size other keys were recorded between them |
| CircuitBreaker.Guard.Arrive | core/circuit_breaker.py:46-52 | an arriving call is refused while open until the recovery timeout, then opens a trial |
| CircuitBreaker.Guard.OnSuccess | core/circuit_breaker.py:68-75 | a success counts towards the trial and schedules a close task, or resets the failures |
| CircuitBreaker.Guard.OnFailure | core/circuit_breaker.py:77-91 | a failure counts, and opens at the threshold or from a trial |
| CircuitBreaker.ClosedBelowThresholdIff | core/circuit_breaker.py:46-115 | on every run a closed breaker is below its failure threshold, if and only if the threshold is positive |
| CircuitBreaker.HalfOpenWaits | core/circuit_breaker.py:46-52 | HALF_OPEN is entered only by an arriving call, at least recovery_timeout after every failure recorded so far |
| CircuitBreaker.EpisodeOf | core/circuit_breaker.py:68-107 | a half-open breaker's counter is the number of successes of its current trial episode |
| CircuitBreaker.ClosesOnlyAfterRecovery | core/circuit_breaker.py:68-115 | when close tasks run less than some latency, no longer than recovery_timeout, after they are scheduled, CLOSED is re-entered other than by reset only after an episode with at least two successes and no recorded failure |
| CircuitBreaker.StaleCloseTask | core/circuit_breaker.py:73-75 | under every setting and for every longer latency, a run whose left-over close task closes a breaker whose trial has no success yet |
| CircuitBreaker.PromptnessIsExact | core/circuit_breaker.py:68-115 | the recovered-episode guarantee holds on every run with close-task latency d if and only if d is at most recovery_timeout |
| BreakerVerdicts.ClosedCountsStreak | core/circuit_breaker.py:68-91 | over every run, the failure count of a closed breaker is the number of recorded failures since the last success, reset or closing |
| BreakerVerdicts.OpensAtThreshold | core/circuit_breaker.py:77-91 | a closed breaker opens exactly at a recorded failure that makes the failures in a row reach the threshold; with a positive threshold, equal it |
| BreakerVerdicts.RefusedIff | core/circuit_breaker.py:46-57 | an arriving call is refused exactly while the breaker is open and the recovery timeout has not passed since the last recorded failure; an admitted one puts an open breaker on trial |
| BreakerVerdicts.OpenEnds | core/circuit_breaker.py:46-57 | an open breaker leaves that state exactly for a trial call after the recovery timeout, or a reset |
| BreakerVerdicts.TrialEnds | core/circuit_breaker.py:68-115 | a trial ends open exactly at a recorded failure and closed exactly when a close task runs or at a reset; a success schedules a close task exactly from the second success of the trial on |
| Submission.AtMostOnce | execution/binance_executor.py:144-212 | over any interleaving of calls, retries and replies, each exchange call with a key follows a check that recorded it anew, and two with one key are at least the record's lifetime apart, or enough other keys were recorded between to evict it |
| Submission.RetriesBounded | core/retry.py:117-149 | with order-book reads interleaved, a task sends at most one order per attempt and max_attempts in all; paper trading sends none; the executor's breaker is never half open |
| Submission.OpenIsForever | execution/binance_executor.py:170-264 | once open, by failed orders or failed order-book reads, the executor's breaker stays open and nothing is sent again |
| SubmissionOutcomes.CallEndsIff | core/retry.py:117-149 | over every interleaving, a call fails exactly when all max_attempts attempts have raised; outside paper trading it is placed exactly when the exchange answered it; it has sent one order per failed reply, answer and pending reply |
| SubmissionOutcomes.FailureTookAllAttempts | core/retry.py:117-149 | with the breaker closed, a failed call has sent exactly max_attempts orders, all of which failed |
| SubmissionOutcomes.ExecutorOpensIff | execution/binance_executor.py:191-212 | the executor's breaker is open exactly when failed orders and book reads since the exchange last answered an order once reached the threshold |
| SubmissionOutcomes.RejectedAttempt | execution/binance_executor.py:170-175 | an attempt that meets an open breaker raises before the idempotency table is consulted and sends nothing |
| SubmissionOutcomes.PaperAttempt | execution/binance_executor.py:173-189 | in paper trading an attempt is checked and recorded like a real one: DUPLICATE unless the key's latest recording has expired or was evicted, otherwise placed without being sent |
| SubmissionRetries.KeyedAttemptSendsIff | execution/binance_executor.py:170-204 | with a closed breaker and real trading, an attempt of an order with a key is sent if and only if the latest recording of the key by any call has expired or was followed by enough other keys to evict it; otherwise it ends as DUPLICATE |
| SubmissionRetries.RetrySendsIff | execution/binance_executor.py:174-176 | a keyed retry is sent again if and only if the latest recording, its own or a later one, has expired at the duplicate test or was followed by max_size other keys; otherwise it is told DUPLICATE and ends normally |
| SubmissionRetries.FailedThenDuplicate | core/retry.py:117-149 | under every setting that retries and survives one failure, a run of one failed attempt and a retry told DUPLICATE, with one exchange call in all |
| Submission.UnkeyedAttemptSends | execution/binance_executor.py:174-204 | with the breaker closed and real trading, every attempt of an order without a key sends it, so after n attempts it was sent n times |
| Executor.BinanceExecutor.BeforeExchange | execution/binance_executor.py:171-191 | the gates in order: breaker, duplicate, paper trading; only then the exchange is called |
| Executor.BinanceExecutor.AfterExchange | execution/binance_executor.py:193-212 | the reply is recorded in the breaker and nowhere else |
| Executor.BinanceExecutor.AfterBookRead | execution/binance_executor.py:237-263 | an order-book read reports only its failures to the breaker |
| Retry.RetryPolicy.ExecuteWithRetry | core/retry.py:63-99 | attempts stop at the first success, non-retryable error or the last attempt; that outcome is the answer; exactly one dead letter on failure |
| Retry.DeadLettersBoundedIff | core/retry.py:101-110 | the list holds the newest failures in order, and is bounded on every run if and only if its limit is not zero |
| Retry.DelaysGrow | core/retry.py:42-54 | delays never shrink with the attempt nor exceed the cap, and jitter takes off at most half |
| Retry.DelaysDouble | core/retry.py:42-54 | the first delay is the base, each later one twice the one before, up to the cap; a jitter draw scales it evenly from one half to one |
| OrderDesk.OrderManager.PlaceOrder | execution/order_manager.py:271-344 | the order table, indexes and idempotency records after a request, and which reply it gets |
| OrderDesk.OrderManager.CheckSelfTrade | execution/order_manager.py:346-361 | finds the oldest active opposing order inside the window, or none |
| OrderDesk.OrderManager.ConfirmSubmission | execution/order_manager.py:363-383 | marks the latest order of the id submitted and indexes it by exchange id |
| OrderDesk.OrderManager.RecordFill | execution/order_manager.py:385-426 | appends the fill and recomputes totals and status of that order only |
| OrderDesk.OrderManager.CancelOrder | execution/order_manager.py:428-447 | cancels exactly the active orders, and answers whether it did |
| OrderLifecycle.NextIndexed | execution/order_manager.py:271-447 | the client index always names the latest order of its id, over every event |
| OrderLifecycle.ChangeSafeIff | execution/order_manager.py:363-447 | a confirm, fill or cancel keeps opposing active orders apart if and only if it does not revive an inactive order beside one |
| OrderLifecycle.OpposingOrdersApart | execution/order_manager.py:288-361 | when confirms and fills come only for active orders, any two active opposing orders on one venue and symbol were created at least the window apart, over every run |
| OrderLifecycle.SafeThroughoutIff | execution/order_manager.py:288-447 | over every run, active opposing orders stay the window apart throughout if and only if no confirmation or fill revives an inactive order beside one |
| OrderLifecycle.TotalsAreFolds | execution/order_manager.py:408-422 | over every run, cumulative quantity, average price and fee are the folds over the order's fills |
| OrderStatuses.FillMeans | execution/order_manager.py:385-426 | on every run a fill joins the latest order of its id, which becomes Filled exactly when its fills sum to its quantity within 1e-8, else partially filled when the sum is positive, else keeps its status; nothing else changes |
| OrderStatuses.FilledThroughoutIff | execution/order_manager.py:415-419 | over every run, Filled orders have fills that sum to their quantity within 1e-8, throughout, if and only if no fill takes a filled order's total back to zero or below |
| OrderStatuses.CorrectionUnfills | execution/order_manager.py:407-419 | ten lots filled and then taken back leave the order Filled with nothing filled |
| OrderStatuses.ConfirmMeans | execution/order_manager.py:363-383 | a confirmation submits the latest order of the id, whatever its status, and files it under its exchange id |
| OrderStatuses.CancelMeans | execution/order_manager.py:428-447 | a cancellation cancels the latest order of the id exactly when it is pending, submitted, open or partially filled |
| OrderStatuses.PlacementMeans | execution/order_manager.py:271-361 | an order is created exactly when the breaker is closed, the request is no idempotent retry of a known id and no active order on the other side of its venue and symbol is less than a minute old; every other reply, and the created order, in full |
| OrderStatuses.CreatedIsRecorded | execution/order_manager.py:327-336 | a created order becomes the result of its client id's record and of no other |
| OrderLifecycle.LateConfirmRevives | execution/order_manager.py:363-380 | a run in which a late confirmation makes two opposing orders of one millisecond active |
| OrderIdempotency.EraseCheck | core/idempotency.py:47-73 | the answers do not depend on the results stored with the records |
| OrderIdempotency.OneOrderPerRecord | execution/order_manager.py:288-344 | over every run, a second order of a client id is created only by a check that recorded the id anew, and every earlier recording of the id, one of them no later than the first order, is a whole record lifetime back or was followed by enough other ids to evict it |
| Positions.Holding.OnPrice | execution/risk_manager.py:505-531 | one price update: mark, manage the stop, then the first exit that applies |
| Positions.StopIsPathIndependent | execution/risk_manager.py:39-49 | after any price path the stop depends only on the initial stop and the best price seen, for longs and shorts and for any rule values |
| Positions.LongStopByBands | execution/risk_manager.py:360-395 | with breakeven no later than trailing: initial stop below breakeven, entry below activation, then the trail under the running high |
| Positions.ShortStopByBands | execution/risk_manager.py:360-395 | the mirror image for shorts, with the running low |
| Positions.StopNeverLoosens | execution/risk_manager.py:360-395 | a stop on the losing side of its entry never moves away from the price, along every path |
| PositionExits.ExitIsOfThePath | execution/risk_manager.py:505-532 | after any price path the last tick announces a stop exactly when its price is at or beyond the stop for the best price on the path, a trailing one if that price activated the trail, and otherwise the target exactly when the price is at or beyond it |
| PositionExits.TimeExitIff | execution/risk_manager.py:360-368 | a time exit is announced exactly when the position was held for its longest time; else it is managed as without that limit |
| PositionExits.TrailingStopIsStop | execution/risk_manager.py:377-395 | after any price path the recorded trailing stop is the stop once that locks a profit, and unchanged before |
| ValueAtRisk.RiskMeasuresCohere | execution/risk_manager.py:423-438 | for every nonempty history and confidence levels c <= d: the tail is nonempty, 0 <= VaR(c) <= CVaR(c), VaR(c) <= VaR(d), CVaR(c) <= CVaR(d) |
| RiskMeasures.PercentileIsRanked | execution/risk_manager.py:423-428 | for any ascending arrangement of the sample, the percentile at rank k is its k-th value and between ranks the weighted mean of the two neighbours |
| RiskMeasures.TailCounts | execution/risk_manager.py:430-436 | the tail holds every observation at or below the cut, as often as it was made, and no other |
| RiskMeasures.MeasuresMean | execution/risk_manager.py:423-438 | VaR is the percentile with its sign turned and CVaR the mean of the tail with its sign turned, negative values counting as zero |
| ValueAtRisk.HistoryIsNewest | execution/risk_manager.py:418-421 | the history is the newest window returns, or all of them when the window is zero |
| RiskManagement.RiskManager.ApproveSignal | execution/risk_manager.py:232-289 | the verdict of the gate sequence for any signal, a division by a zero price included; reading the loss breaker is its only effect |
| RiskManagement.RiskManager.Open | execution/risk_manager.py:316-340 | at any price, the position put under its key, the cooldown started, nothing else changed; every position can be marked afterwards exactly when the price is not zero |
| RiskManagement.RiskManager.Close | execution/risk_manager.py:342-358 | the position marked at the exit and removed, equity, returns, cooldown and loss breaker updated by its profit; unknown keys change nothing |
| RiskManagement.RiskManager.ActivateKillSwitch | execution/risk_manager.py:398-408 | the loop closes the positions of the snapshot one by one, each at its current price |
| RiskManagement.RiskManager.UpdatePrices | execution/risk_manager.py:505-531 | marks and manages that position only, and reports its exit |
| RiskManagement.LossGuard.OnResult | execution/risk_manager.py:75-88 | adds a loss to the day, raises the peak, trips on the daily loss or the drawdown |
| RiskManagement.LossGuard.IsTripped | execution/risk_manager.py:91-101 | reading clears the flag once the pause has passed |
| RiskLedger.Run | execution/risk_manager.py:316-358 | over every run with opens directly after their approval: equity = initial + the profits of all closed positions, at most max_open positions with one per key, each carrying its marked profit, and peak >= equity after the first close |
| RiskLedger.KillSwitchWorks | execution/risk_manager.py:398-412 | the kill switch empties the book, changes equity by exactly the open profit, and every later signal is refused while it is on |
| RiskLedger.KilledUntilLifted | execution/risk_manager.py:232-234 | over every run after a kill and without a deactivation: nothing is open, equity and closed positions stand still, and every signal is refused |
| RiskLedger.ExposureIsBounded | execution/risk_manager.py:162-230 | over every run, each open position was opened for at most the tighter of the position and symbol caps times the highest equity known so far, and all together for at most max_open times that |
| RiskLedger.DailyLossTripsAgain | execution/risk_manager.py:75-101 | once the daily loss is at its limit, every recorded result trips the breaker again, whatever it is, through any automatic resumes |
| RiskLedger.PeakDominates | execution/risk_manager.py:75-88 | the peak never falls and is at least every equity recorded |
| RiskLedger.ApprovedWithinLimits | execution/risk_manager.py:232-289 | an approved size is positive and within the position cap, the symbol cap and the projected VaR limit, off cooldown, below max_open, with the switch off |
| RiskLedger.StopRiskIsBounded | execution/risk_manager.py:162-179 | an approved risk-based size loses at most leverage times risk_per_trade of the equity between the signal's price and its stop |
| RiskLedger.OpenedWithProtectiveStop | execution/risk_manager.py:291-340 | every opened position has its stop on the losing side of its entry |
| RiskApproval.SizeIsLargest | execution/risk_manager.py:162-179 | the size is the largest notional within the position cap that, under risk-based sizing, loses no more than the leveraged risk budget at the stop |
| RiskApproval.SessionIsAnArc | execution/risk_manager.py:182-198 | within a day, a session is open exactly for the minutes no later after its start than its end, across midnight too |
| RiskApproval.VerdictIs | execution/risk_manager.py:232-289 | a signal is approved, for that size, if and only if all thirteen gates pass, each stated on the desk, clock and signal; it is refused for the first gate that fails; sizing raises exactly when reached at a price of zero |
| RiskApproval.HaltedRefuses | execution/risk_manager.py:90-101 | a tripped breaker whose pause has not run out refuses every signal and stays tripped |
| RiskHalts.NothingOpensWhileHalted | execution/risk_manager.py:232-237 | over every run, from a trip until its pause runs out or a reset, no position opens: each one held was held at the trip, the others were closed, and every signal is refused |
| RiskHalts.StepTouches | execution/risk_manager.py:316-358 | opening and closing stamp the symbol with their own time, and nothing else does |
| RiskHalts.CooldownHolds | execution/risk_manager.py:200-207 | over every run whose clock does not run backwards, no signal is approved within the cooldown after its symbol was opened or closed |
| RiskPositions.StopsMean | execution/risk_manager.py:291-314 | the stop lies against the position by the wider of the volatility distance and the fixed fraction, the target with it by the reward ratio times the volatility distance |
| RiskPositions.OpenAddsOne | execution/risk_manager.py:316-340 | an approved signal appends one position worth the approved size, at the signal's price, unmanaged and without profit |
| RiskPositions.MarkTouchesOne | execution/risk_manager.py:505-513 | a price update changes the position of its key only, by one tick, and announces its exit |
| RiskPositions.CloseBooksOne | execution/risk_manager.py:342-358 | closing removes the position of its key, keeps the others in order and books its profit on the equity, the history and the loss breaker |
| LossTrips.LossesAccumulate | execution/risk_manager.py:75-78 | the daily loss is the sum of the losing results and the peak the highest recorded equity, at least zero |
| LossTrips.TrippedIff | execution/risk_manager.py:75-101 | over every run between daily resets, the breaker is tripped exactly when some result broke the loss or drawdown limit and no reading since the last such result came after the pause; its time is that result's |
| TickQueue.SlotsDiffer | rust/tick-parser/src/lib.rs:130-165 | positions less than a turn apart never share a slot |
| TickQueue.RingBuffer.Push | rust/tick-parser/src/lib.rs:130-144 | push fails exactly when full, and otherwise appends |
| TickQueue.RingBuffer.Drain | rust/tick-parser/src/lib.rs:146-165 | drain returns everything queued, in order, and empties the ring |
| TickQueue.FirstInFirstOut | rust/tick-parser/src/lib.rs:130-165 | over every run, drained followed by queued is exactly what was accepted, within capacity |
| TickQueue.Replay | rust/tick-parser/src/lib.rs:112-165 | the ring run through any actions has the queue's contents and drained the same ticks |
| Candles.StreamIsGroupBy | rust/tick-parser/src/lib.rs:51-94 | for ordered ticks, emitted candles plus the open one are first, max, min, last, sums and count of each bucket's ticks, one per bucket, in strictly rising buckets |
| Candles.StreamConserves | rust/tick-parser/src/lib.rs:66-74 | for ticks in any order, total volume and trade count are conserved |
| Candles.BarsOrdered | rust/tick-parser/src/lib.rs:51-94 | for ticks in any order and of any volume, low <= open, close <= high in every candle, emitted or open |
| Candles.BarsWellShaped | rust/tick-parser/src/lib.rs:51-94 | for ticks in any order with volumes >= 0, the notional of every candle lies between low and high times its volume |
| Candles.VwapInRange | rust/tick-parser/src/lib.rs:76-94 | a well-shaped bar with volume has low <= vwap <= high |
| Candles.VwapPaysNotional | rust/tick-parser/src/lib.rs:76-94 | vwap times volume is the notional; without volume it is zero |
| TickParsing.TickParser.Add | rust/tick-parser/src/lib.rs:199-231 | one tick updates only its market's accumulator and emits that market's candle when the bucket changes |
| TickParsing.TickParser.FlushBuffer | rust/tick-parser/src/lib.rs:237-248 | flushing is adding the queued ticks directly, and empties the ring |
| TickParsing.BufferingIsTransparent | rust/tick-parser/src/lib.rs:233-248 | any pattern of buffering that ends with a flush gives the candles and accumulators of feeding the accepted ticks directly |
| TickParsing.MarketsAreStreams | rust/tick-parser/src/lib.rs:199-231 | interleaved markets do not affect each other's candles |
| TickParsing.ParserIsGroupBy | rust/tick-parser/src/lib.rs:194-231 | for ordered ticks every market's candles are the group-by on its buckets |
| TickParsing.EmittedInRange | rust/tick-parser/src/lib.rs:76-94 | for ticks in any order, every emitted candle has open and close between low and high, and with volumes >= 0 its vwap too whenever it has volume |
| TickParsing.ParserConserves | rust/tick-parser/src/lib.rs:199-231 | for ticks in any order, each market's emitted candles and open accumulator have exactly its ticks' volume and count |
| TickParsing.TickInItsBucketIff | rust/tick-parser/src/lib.rs:194-197 | a tick lies in its candle's interval if and only if its time is not negative or is a bucket boundary |
| TickParsing.BucketsMonotone | rust/tick-parser/src/lib.rs:194-197 | later ticks never fall in earlier buckets |
| TickParsing.BucketIsMultiple | rust/tick-parser/src/lib.rs:194-197 | a bucket starts at the last multiple of the timeframe up to the tick or, before the epoch, at the first from it on |
| CandleAggregation.CandleAggregator.CurrentBucket | data_ingestion/tick_processor.py:31-38 | the first tick's second anchors every bucket |
| CandleAggregation.CandleAggregator.AddTick | data_ingestion/tick_processor.py:45-89 | the open candle after a tick, and the one it completes |
| CandleAggregation.AggregatorIsGroupBy | data_ingestion/tick_processor.py:31-89 | for ordered ticks the completed candles and the open one are the group-by on buckets from the first tick |
| CandleAggregation.AggregatorConserves | data_ingestion/tick_processor.py:45-89 | for ticks in any order, the completed candles and the open one have exactly the ticks' volume and count, and low <= open, close <= high |
| CandleAggregation.BucketHoldsSecond | data_ingestion/tick_processor.py:31-38 | bucket starts are congruent to the first one, and each tick lies in its own bucket, before the anchor too |
| CandleAggregation.BucketHoldsTick | data_ingestion/tick_processor.py:31-38 | in microseconds, each tick lies in its own bucket |
| Backtest.RunPython | engine/fast_backtester.py:88-142 | the Python loop computes the account bar by bar |
| Backtest.RunRust | rust/py-bindings/src/lib.rs:357-407 | the Rust loop computes the same results, equity and drawdown |
| Backtest.LoopsAgree | rust/py-bindings/src/lib.rs:350-407 | on every equal-length series with positive prices both loops give the simulated account's equity, maximum drawdown and trade results |
| Backtest.LedgerBalances | engine/fast_backtester.py:88-142 | final equity = capital + sum of results = capital times the product of 1 + 0.02 times each return; trades never overlap |
| Backtest.DrawdownIsMaximal | engine/fast_backtester.py:102-122 | while equity stays positive the online drawdown is the largest loss from any point of the curve to a later one |
| BacktestTrades.TradesAreExplained | engine/fast_backtester.py:99-142 | each trade enters on a signal beyond one half in its direction and exits on the first opposite signal; its prices are those bars' with slippage against it, its return what it gained less commission both ways; every bar with a signal beyond one half begins or continues a position |
| Netting.RiskEngine.UpdatePosition | rust/risk-engine/src/lib.rs:200-233 | the position map after a fill changes at its symbol only, and the exposure by the fill's value |
| Netting.UpdateKeepsBasisIff | rust/risk-engine/src/lib.rs:216-229 | a fill adds its signed quantity, and its signed value to quantity times average less profit if and only if it does not flip the position or trades at the old average |
| Netting.UpdateSplitsBasis | rust/risk-engine/src/lib.rs:216-229 | a same-side fill moves only the average; an opposite one books the closed lots at the gap between its price and the average, which stays unless nothing is left |
| Netting.NettingIdentity | rust/risk-engine/src/lib.rs:200-229 | over every run: quantity = sum of signed quantities, and without flips quantity times average less profit = sum of signed values, per symbol |
| EnsembleScoring.EnsembleScorer.UpdateWeights | engine/ensemble_scorer.py:226-242 | the loop over the models adjusts each weight, then normalises them |
| EnsembleScoring.EnsembleScorer.Predict | engine/ensemble_scorer.py:143-154 | in every regime the weights are a distribution and the output, clipped or not, stays between any bounds in [0, 1] on the models' predictions |
| EnsembleScoring.NormalizedIsSimplex | engine/ensemble_scorer.py:113-119 | normalised weights are non-negative and sum to one, whatever the input |
| EnsembleScoring.WeightsKeepFloor | engine/ensemble_scorer.py:226-242 | after any nonempty run of updates with outcome and calibrated prediction in [0, 1] over n models, weights sum to 1 and each is at least 0.01 / (1 + 0.01 n) |
| EnsembleScoring.UpdateKeepsRank | engine/ensemble_scorer.py:233-242 | a model with at least another's weight that predicted at least as well keeps at least its weight |
| EnsembleLearning.NormalizedInProportion | engine/ensemble_scorer.py:113-119 | normalised weights are in the proportions of the positive weights, or uniform when there are none |
| EnsembleLearning.UpdateInProportion | engine/ensemble_scorer.py:226-242 | an update raises each model nearer the outcome than the calibrated output by a hundredth of its error, lowers the others by half as much, never below 0.01, and scales all by one factor |
| EnsembleLearning.BetterModelGains | engine/ensemble_scorer.py:233-242 | when the calibrated output was wrong, a model that beat it gains weight relative to one that did not, both at or above the floor |
| EnsembleLearning.RegimeInProportion | engine/ensemble_scorer.py:104-111 | under a regime the weights are in the proportions of learned weight times prior; without a prior they are the learned weights |
| EnsembleScoring.OutputIsConvex | engine/ensemble_scorer.py:148-153 | the unclipped output is a convex combination of the predictions |
| RateLimiting.RateLimiter.Enter | execution/rate_limiter.py:18-24 | purges the grants before the cutoff and asks for the sleep that the oldest one left requires |
| RateLimiting.RateLimiter.Grant | execution/rate_limiter.py:26-26 | the grant is appended and nothing is popped |
| RateLimiting.SleepIsLeast | execution/rate_limiter.py:22-25 | the sleep is the shortest after which the oldest timestamp kept is a period old; a window with room needs none |
| RateLimiting.WindowIsTail | execution/rate_limiter.py:18-26 | on every run with nondecreasing readings the deque is a tail of the grants, and what has left it is more than a period old |
| RateLimiting.GrantsSpacedIff | execution/rate_limiter.py:16-26 | with nondecreasing readings and sleeps as long as asked, any max_calls + 1 consecutive grants span at least the period, over the whole run, if and only if no acquisition that met more than max_calls timestamps was granted less than a period after the one max_calls places back |
| RateLimiting.EntrySafeIff | execution/rate_limiter.py:22-26 | an acquisition stays spaced however long its sleep turns out if and only if, on entry, the window is not overfull or the timestamp max_calls places back equals the oldest |
| RateLimiting.ReadyRunsAreSpaced | execution/rate_limiter.py:16-26 | a run whose every entry finds such a window is spaced, and when sleeps last exactly as long as asked a run is spaced if and only if every entry does |
| RateLimiting.GrantsAreSpaced | execution/rate_limiter.py:16-26 | with every entry strictly later than the last grant and sleeps as long as asked, any max_calls + 1 consecutive grants span at least the period, over every run |
| RateLimiting.EqualReadingsBreakSpacing | execution/rate_limiter.py:18-26 | with readings that may be equal, every run is spaced if and only if the period is not positive; otherwise two bursts and one grant break it |

## Left out

- Floating-point rounding, NaN and infinities: arithmetic is exact; in the matcher, quantities are whole lots.
- Overflow of 64-bit counters and sequence numbers: they are unbounded, except the price key, whose cast saturates.
- Matcher: symbol sharding by hash, timestamps, client order ids, GTD expiry (a GTD residue is dropped, as the code does), depth snapshots, spread and mid price.
- Price levels are sequences that the loops rebuild; the engine object's maps are updated in place, single orders are values.
- Order manager: audit log, lifecycle stages, router and venue resolution, generated ids, pending and per-user views and statistics. Orders are values indexed by creation number, so several references to one order are that number.
- Submission: exception classes are reduced to retryable or not, and expected or not by the breaker; call statistics are dropped; of the executor, place_order and what order-book reads do to the breaker are modelled, not TWAP, VWAP or cancel; a reply without an id, which the code counts as a success and then a failure, does not occur.
- Retry.DelaysGrow: jitter is a parameter in [0, 1), since the random source is not modelled.
- Idempotency: key hashing and record metadata.
- Ring buffer: raw pointers, atomics and memory ordering; it is an array used by one thread at a time.
- Tick parser: JSON parsing, the zero-copy path, batch channels, multi-symbol timeframes and the normaliser; the timeframe is positive, as its callers make it.
- Candle aggregator: the Rust-backed path of the Python class and candles for empty intervals, which the code does not make either.
- Backtest: Sharpe, Sortino, profit factor and win rate, whose formulas differ between the two languages; symbols, hold periods and the all-zero report made when nothing traded. Prices are positive and slippage is below one either way, so no entry price is zero.
- Risk manager: portfolio notional, stress tests, snapshots, event publishing and log text; the session window is given in minutes; exchange and symbol are a pair rather than a joined string.
- RiskLedger.Run: signals carry positive prices; at other prices the code opens a position of size zero, which it cannot mark when its price is zero.
- RiskLedger.ExposureIsBounded: the caps are non-negative fractions; leverage is part of the position cap.
- Risk engine: pre-trade checks, rate windows and the lock-free order book.
- Ensemble: model calls, calibrators, confidence, decay detection and history windows; models are listed in a fixed order.
- Rate limiter: acquire is split at its sleep; its lock makes calls run one after another.
- Logging, metrics, storage, web and chain adapters, regime detection, news scoring and model training: input and output or library numerics.
