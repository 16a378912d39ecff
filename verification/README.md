# A model of the arbitrage bot's trading core

This project models the trading core of a cross-exchange arbitrage bot and
proves properties of it: how books are kept and read, how a spread is found and
sized, what executing it does to the balances, and how a backtest replays it.
`dafny verify dfyconfig.toml` checks everything.

## What is modelled

| files | part of the program |
|---|---|
| `types`, `real_facts` | the value types; facts about real arithmetic |
| `depth_walk`, `depth_analyzer` | the walk over a book, effective prices, the bisection for the largest quantity |
| `price_levels`, `book_runs`, `zero_id_streams`, `order_book` | one side of a book, runs of snapshots and deltas, the `OrderBook` class |
| `seqlock`, `seqlock_returns` | the lock-free readers against the writers, one load or store per step; retries and odd exits |
| `ring`, `broadcast_queue`, `queue_protocol` | the ring buffer as a class and as a two-thread protocol |
| `fees`, `candidates`, `emitted_sizes`, `spread_detector` | taker fees, one ordered pair of books, the sizes emitted, the scan over all pairs, the cooldown |
| `assets`, `ledger`, `paper_executor`, `paper_safety`, `arbitrage_profit` | the paper ledger, what a trade can do to its accounts, and what a detected spread earns |
| `limit_orders`, `cursors`, `simulated_exchange` | the replayed exchange: its own order walk and its position in time |
| `backtest_report`, `backtest_accounts`, `backtest_intents`, `backtest_runs`, `backtest_profits`, `backtest_trades`, `backtest_engine` | the metrics, the accounts of a run, which trades it places and what they earn, and the replay loop |

The chain of results runs across these parts. Greedy optimality of the walk
makes average prices monotone in the quantity; monotone prices make feasibility
downward closed; that makes the bisection near-optimal and the detector's later
checks unable to reject; and an emitted opportunity then fills as advertised and
earns a profit given in closed form. Books reach the detector through the order
book, whose runs keep the sides sorted, and through the readers, whose passes
return one published version.

## Conventions

- Prices, quantities and rates are exact reals; instants are whole nanoseconds
  or milliseconds; counters are unbounded. Every atomic access is one step of an
  interleaving, so the protocols are sequentially consistent.
- The clock, the random partial-fill factor (any real), the fee cache and the
  books an executor finds are inputs. Executions of the paper executor are
  serialised.
- A `std::sort` is any sorted permutation. Maps and sets are walked in any order
  where the result does not depend on it; where the source walks a `std::set` of
  times in order, the model takes the earliest first.
- A method that follows a loop is proved against a function of the same inputs,
  and the lemmas about that function carry the meaning. `ProbeRound`,
  `SizeTrade`, `Evaluate`, `AddAssets`, `PlaceInTime`,
  `TradeRow`, `VisitPair`, `VisitAll`, `VisitTime` and `VisitTimes` are bodies of
  loops the source writes inline. In the backtest, visits and the active pairs are
  ghost: they record what a run did.
- `GoodAsks` and `GoodBids` (sorted, positive sizes and prices) are what the
  order book guarantees of the sides it serves once the feed's prices are
  positive; see `Candidates.ServedSidesAreGood`. The backtest engine makes no
  assumption on its data; `CleanData` (sides strictly sorted, prices and sizes
  positive) and `SoundData` (sizes that let no order break its limit) are
  conditions of what its trades earn.

## Where the code does not do what it seems to

Each is kept as the code has it. Where a promise fails, a lemma says exactly when
it holds; where only a witness is given, the list says so.

- `continue` in the readers' `do … while` jumps to the loop test, so a reader
  that sees the same odd counter twice returns whatever it had. Exits at an even
  counter are sound (`Seqlock.EvenReturnIsOneVersion`); a call during which
  nothing is stored is right exactly when no writer is publishing or the side is
  empty (`SeqlockReturns.UndisturbedCallIsRightIff`). Witnesses: while a writer
  publishes any call can return nothing
  (`SeqlockReturns.PublishingCallReturnsNothing`), and one run returns a price no
  version ever had (`SeqlockReturns.OddReturnInventsPrice`).
- `snapshot` shrinks its vectors inside the loop, so a retry that finds more
  levels writes past them: its result is defined exactly when no pass found more
  levels on a side than the pass before (`SeqlockReturns.DefinedIffNeverGrew`,
  `SeqlockReturns.RetryCanBeUndefined`).
- A price within 1e-9 counts as equal only at the lower bound, so an update can
  hit a neighbour, which keeps its own price, or miss it, depending on the side
  (`PriceLevels.ApplyRefinesIff`, `PriceLevels.ApplyAtLowerBound`).
- A delta with id 0 is always accepted and resets the id. Every redelivery of a
  stream with some other id is harmless exactly when none of its deltas has id 0
  (`BookRuns.AcceptedIdsIncreaseIff`, `BookRuns.RedeliveryHarmlessIff`); on
  tick-separated prices a stream of zero ids is safe exactly when none of its
  deltas, applied once more at the end, would change the book
  (`ZeroIdStreams.RedeliveryHarmlessExactly`).
- A full queue discards the new message, although a test of it is named
  `OverflowDropsOldest` (tests/test_broadcast_queue.cpp:58). `size` reports a
  difference modulo the capacity, a nearly full queue when the consumer overtakes
  its two loads (`QueueProtocol.SizeObserved`).
- The age of a book is cast to milliseconds, which rounds towards zero, so the
  limit of 5000 ms lets a book pass until it is 5001 ms old
  (`Candidates.EmittedIsFresh`).
- The crossed-book filter loses opportunities when the fees plus the minimum are
  negative (`Candidates.CrossingFilterLosesNothingIff`). The minimum trade size
  is compared before the cap, so the detector can emit trades below any positive
  minimum, however large the cap (`EmittedSizes.EmittedReachMinimumIff`).
- The net spread charges both fees on the buy cost, while the sell fee is charged
  on the larger proceeds, so a positive net spread can lose money
  (`ArbitrageProfit.EmittedProfit`; witness: `ArbitrageProfit.PositiveSpreadCanLose`).
- `simulate_fill` ignores the limit price of its request
  (src/execution/paper_executor.cpp:62-102). If the book has moved since
  detection, nothing bounds what the buyer pays
  (`PaperSafety.MovedBookDipsBelow`). Whatever the other book, the fees and the
  factors, every account accepted dips by the fee at most exactly when the
  buyer's book charges no more than advertised for the quantity, or for nine
  tenths of all it holds (`PaperSafety.BookDecidesDip`).
- No balance check includes the fee (`ArbitrageProfit.BuyerDipsByFeeAtMost`,
  `SimulatedExchanges.OrderIsSafe`).
- The simulated exchange walks the raw replayed levels, and the loader drops
  levels by price only (src/backtest/data_loader.cpp:50-53). With a negative size
  an order can break its limit. At all prices, orders that trade respect their
  limits exactly when no leading part of the book with a positive total size
  holds a negative one (`LimitOrders.LimitRespectedIff`,
  `SimulatedExchanges.AverageWithinLimitIff`; witness:
  `SimulatedExchanges.NegativeSizeBreaksOrder`).
- A spread over a zero buy price is infinite or not a number and passes the
  engine's test; at a zero best ask nothing is traded (`BacktestIntents.Wanted`).
- Listing an exchange twice loses part of the initial balances
  (`PaperExecutors.InitialTotalIff`).
- Before a pair's first snapshot the replay shows that snapshot, which lies in
  the future (`Cursors.LooksAheadIff`, `BacktestRuns.ServedIsLatest`).
- The default quote asset is `USDT` in the paper executor and `USD` in the
  simulated exchange. The paper executor divides the initial balances among the
  exchanges, a backtest gives each of them the whole
  (`PaperExecutors.InitialShares`, `BacktestEngines.StartsWithThrice`).

## Model

| member | source | states |
|---|---|---|
| DepthWalk.RemainingIsShortfall | src/orderbook/depth_analyzer.cpp:15-29 | the walk leaves exactly what the request exceeds the depth by |
| DepthWalk.GreedyIsSplit | src/orderbook/depth_analyzer.cpp:19-25 | the walk is a split of the filled quantity over the levels, within their sizes, at the walk's cost |
| DepthWalk.ExchangeBound | src/orderbook/depth_analyzer.cpp:18-25 | exchange argument: any split of more than the walked quantity costs at least the walk plus the excess at the best price |
| DepthWalk.BuyWalkIsCheapest | src/orderbook/depth_analyzer.cpp:18-28 | on ascending asks no split of the filled quantity over the levels costs less than the walk |
| DepthWalk.SellWalkEarnsMost | src/orderbook/depth_analyzer.cpp:55-65 | on descending bids no split of the filled quantity earns more than the walk |
| DepthWalk.BuyVwapRises | src/orderbook/depth_analyzer.cpp:31-32 | the average buy price does not fall as the quantity grows |
| DepthWalk.SellVwapFalls | src/orderbook/depth_analyzer.cpp:68-69 | the average sell price does not rise as the quantity grows |
| DepthAnalyzer.EffectiveBuyPrice | src/orderbook/depth_analyzer.cpp:7-42 | the ask loop computes the recursive walk and its report, with the empty and non-positive cases |
| DepthAnalyzer.EffectiveSellPrice | src/orderbook/depth_analyzer.cpp:44-79 | the same for the bid loop |
| DepthAnalyzer.EffectiveFills | src/orderbook/depth_analyzer.cpp:27-32 | fills the smaller of request and depth, is fully fillable exactly within the depth, and price times filled quantity is the cost |
| DepthAnalyzer.SlippageMeans | src/orderbook/depth_analyzer.cpp:31-38 | the slippage times the best price is the distance of the average from it in basis points, on sorted books never negative |
| DepthAnalyzer.FeasibleDownwards | src/orderbook/depth_analyzer.cpp:101-103 | the monotonicity the bisection relies on: every smaller quantity is feasible too, at no smaller spread |
| DepthAnalyzer.QuickFilterLosesNothing | src/orderbook/depth_analyzer.cpp:90-99 | if the top of book misses the minimum, no quantity is feasible |
| DepthAnalyzer.ProbeRound | src/orderbook/depth_analyzer.cpp:126-153 | one round of the bisection, as the function Probe |
| DepthAnalyzer.MaxArbQuantity | src/orderbook/depth_analyzer.cpp:81-157 | the search returns the function MaxArb; its invariant is that the best quantity is the lower end |
| DepthAnalyzer.BisectSound | src/orderbook/depth_analyzer.cpp:118-156 | from a feasible or zero lower end the bisection returns 0 or a feasible quantity, on any book |
| DepthAnalyzer.BisectNear | src/orderbook/depth_analyzer.cpp:118-156 | a feasible quantity exceeds the result by at most 2e-8 or the width over 2 to the rounds, whichever is larger |
| DepthAnalyzer.MaxArbSound | src/orderbook/depth_analyzer.cpp:81-157 | the result is 0 or, at a top of book that reaches the minimum, positive, fully fillable on both sides and at least at the minimum net spread, on any book |
| DepthAnalyzer.MaxArbNearOptimal | src/orderbook/depth_analyzer.cpp:115-156 | on good books every feasible quantity exceeds the result by at most max(2e-8, depth / 2^50) |
| PriceLevels.FindLowerBound | src/orderbook/order_book.cpp:71-75 | the binary search finds the unique lower bound |
| PriceLevels.UpdateVec | src/orderbook/order_book.cpp:69-88 | one update erases, overwrites, inserts or ignores, as the function Apply |
| PriceLevels.UpdateAll | src/orderbook/order_book.cpp:90-96 | a list of updates is applied in order, one after the other |
| PriceLevels.ApplyKeepsGood | src/orderbook/order_book.cpp:69-88 | an update keeps the side sorted with positive quantities |
| PriceLevels.ApplyKeepsStrict | src/orderbook/order_book.cpp:75-87 | an update creates no duplicate price |
| PriceLevels.ApplyRefinesIff | src/orderbook/order_book.cpp:75-87 | an update is the map update (quantity at most 0 deletes, else overwrites) exactly when no different price lies within the tolerance at the lower bound |
| PriceLevels.ApplyAtLowerBound | src/orderbook/order_book.cpp:75-87 | within 1e-9 the level at the lower bound is erased or gets the new quantity at its own price, beyond it a positive quantity is inserted there |
| PriceLevels.ApplyAllRefines | src/orderbook/order_book.cpp:90-96 | on prices at least 1e-9 apart any list of updates is the fold over the map |
| PriceLevels.SortedListIsUnique | src/orderbook/order_book.cpp:69-96 | the map determines the side: two strictly sorted sides with the same map are equal |
| PriceLevels.SnapshotSide | src/orderbook/order_book.cpp:31-43 | filtering and sorting give a sorted permutation of the levels with positive quantity |
| PriceLevels.SnapshotIsGood | src/orderbook/order_book.cpp:31-43 | a snapshot side is sorted, positive, and holds exactly the levels with positive quantity |
| BookRuns.RunKeepsGood | src/orderbook/order_book.cpp:23-104 | over every run of snapshots and deltas, stale ones included, both sides stay sorted with positive quantities |
| BookRuns.AcceptedIdsIncreaseIff | src/orderbook/order_book.cpp:62-67 | accepted ids increase strictly exactly when no delta has id 0 |
| BookRuns.AcceptedNextIff | src/orderbook/order_book.cpp:62-98 | after any stream a delta is accepted exactly if its id is 0 or above the id of the last accepted one |
| BookRuns.RedeliveryIsHarmless | src/orderbook/order_book.cpp:62-98 | re-delivering earlier deltas anywhere later leaves levels and id as without them, when no id is 0 |
| BookRuns.RedeliveryHarmlessIff | src/orderbook/order_book.cpp:62-98 | from any state, for any stream with some non-zero id: every redelivery of it is harmless exactly if none of its deltas has id 0 |
| ZeroIdStreams.RedeliveryHarmlessExactly | src/orderbook/order_book.cpp:62-98 | on tick-separated prices, for every stream: harmless exactly if no delta has id 0, or all have and none, applied once more at the end, changes the maps |
| BookRuns.RedeliveryCanRestoreRemovedLevel | src/orderbook/order_book.cpp:62-98 | witness: one stream with an id 0 whose redelivery brings a removed level back |
| BookRuns.DeltasFoldOverMaps | src/orderbook/order_book.cpp:57-98 | a run of deltas is the fold of the accepted updates over the two maps |
| BookRuns.SnapshotFolds | src/orderbook/order_book.cpp:28-43 | without duplicate prices a snapshot is the fold of its levels from the empty map |
| BookRuns.BookRefinesMaps | src/orderbook/order_book.cpp:23-98 | a snapshot and then any deltas leave each side equal to the fold over a price-to-quantity map, in price order |
| OrderBooks.OrderBook.constructor | src/orderbook/order_book.cpp:8-10 | a new book is empty and its counter even |
| OrderBooks.OrderBook.SyncTopLevels | src/orderbook/order_book.cpp:12-21 | the arrays hold the first min(20, n) levels of each side |
| OrderBooks.OrderBook.ApplySnapshot | src/orderbook/order_book.cpp:23-55 | the new state is a snapshot step with the top cache in step; the counter rises by 2 |
| OrderBooks.OrderBook.ApplyDelta | src/orderbook/order_book.cpp:57-104 | the new state is the delta step of the old one; a stale delta changes nothing at all |
| OrderBooks.OrderBook.BestBid | src/orderbook/order_book.cpp:106-123 | at rest: nothing on an empty side, else the maximum bid |
| OrderBooks.OrderBook.BestAsk | src/orderbook/order_book.cpp:125-142 | at rest: nothing on an empty side, else the minimum ask |
| OrderBooks.OrderBook.TakeSnapshot | src/orderbook/order_book.cpp:171-202 | at rest: the first min(depth, 20, n) levels of each side, the id and the time |
| Seqlock.SyncShows | src/orderbook/order_book.cpp:12-21 | the single stores of a publication, in order, leave memory showing the new version |
| Seqlock.PassFinds | src/orderbook/order_book.cpp:114-118 | a pass whose loads all come from one image finds what that version holds |
| Seqlock.SnapshotPassFinds | src/orderbook/order_book.cpp:189-197 | the same for all the levels a snapshot copies |
| Seqlock.PerformKeepsInv | src/orderbook/order_book.cpp:45-50 | every step of any writer or reader keeps the invariant that ties counter, memory images and reader logs |
| Seqlock.RunKeepsInv | src/orderbook/order_book.cpp:106-142 | so it holds in every state of every interleaving |
| Seqlock.CounterOddWhilePublishing | src/orderbook/order_book.cpp:47-50 | the counter is odd exactly while a writer publishes; when even, memory shows the latest version |
| Seqlock.EvenReturnIsOneVersion | src/orderbook/order_book.cpp:106-142 | a reader that returns at an even counter has found in its last pass the answer of one version, the newest at its return, no older than the newest at its call |
| SeqlockReturns.DefinedIffNeverGrew | src/orderbook/order_book.cpp:176-197 | in every state of every run a snapshot is defined exactly if no pass found more levels on a side than the pass before |
| SeqlockReturns.SnapshotReturn | src/orderbook/order_book.cpp:181-201 | a snapshot that returns at an even counter holds the top levels of one version, defined exactly if no pass grew |
| SeqlockReturns.FirstPassIsDefined | src/orderbook/order_book.cpp:176-199 | one that succeeds on its first pass is defined and returns the top levels of one version |
| SeqlockReturns.RetryCanBeUndefined | src/orderbook/order_book.cpp:189-197 | witness: a reachable snapshot that returned at an even counter and copied past its vectors |
| SeqlockReturns.UndisturbedCallIsRightIff | src/orderbook/order_book.cpp:106-142 | in any run, a best_bid or best_ask during which nothing is stored returns the newest version's best price exactly if no writer is publishing or that side is empty |
| SeqlockReturns.PublishingCallReturnsNothing | src/orderbook/order_book.cpp:109-120 | from every reachable state with a publishing writer a new call can return nothing |
| SeqlockReturns.OddReturnMissesBook | src/orderbook/order_book.cpp:109-120 | witness: best_bid returns nothing though every version since its call has bids |
| SeqlockReturns.OddReturnInventsPrice | src/orderbook/order_book.cpp:12-16 | witness: best_bid returns 0, a price that no published and no pending version has |
| BroadcastQueues.BroadcastQueue.constructor | src/server/broadcast_queue.cpp:5-8 | an empty queue with room for max(requested, 1) messages |
| BroadcastQueues.BroadcastQueue.TryPush | src/server/broadcast_queue.cpp:10-25 | appends unless full; a refused message is counted and nothing else changes |
| BroadcastQueues.BroadcastQueue.TryPop | src/server/broadcast_queue.cpp:27-41 | removes and returns the oldest message, or nothing exactly when empty |
| BroadcastQueues.BroadcastQueue.Size | src/server/broadcast_queue.cpp:43-47 | at rest: the number of messages held |
| QueueProtocol.PerformKeepsInv | src/server/broadcast_queue.cpp:10-41 | every atomic step of producer or consumer keeps the invariant on indices, slots and the two threads |
| QueueProtocol.RunKeepsInv | src/server/broadcast_queue.cpp:10-41 | so it holds in every interleaving |
| QueueProtocol.RunDelivers | src/server/broadcast_queue.cpp:10-23 | in every interleaving the accepted messages are those handed to the pushes that stored the head, in order |
| QueueProtocol.QueueIsFifo | src/server/broadcast_queue.cpp:5-41 | over every run popped messages are a prefix of those handed to the pushes that stored the head, at most max(requested, 1) are held, and every other push was dropped or is under way |
| QueueProtocol.NoSlotShared | src/server/broadcast_queue.cpp:20-35 | no slot is written while it is read |
| QueueProtocol.FailuresAreJustified | src/server/broadcast_queue.cpp:14-33 | a push is refused exactly if max(requested, 1) are held at its load, a pop exactly if none is at its load |
| QueueProtocol.PopReturnsOldest | src/server/broadcast_queue.cpp:10-40 | a completed pop delivers the oldest stored message not yet popped, as it was handed to its push |
| QueueProtocol.SizeObserved | src/server/broadcast_queue.cpp:43-47 | size returns pushes up to its first load less pops up to its second, modulo the capacity, whatever steps fall between |
| Candidates.SizeTrade | src/strategy/spread_detector.h:75-97 | the sizing and its rechecks, as the function Sized |
| Candidates.Evaluate | src/strategy/spread_detector.h:45-117 | the filters and the offer for one ordered pair, as the function Candidate, whose exact condition is RechecksNeverReject |
| Candidates.SizedIff | src/strategy/spread_detector.h:75-104 | sizing succeeds exactly if the notional reaches the minimum and the cap is positive; within the cap the quantity is kept, else it is the cap over the old average price; feasibility and the cap are kept |
| Candidates.RechecksNeverReject | src/strategy/spread_detector.h:45-104 | an offer is made exactly if both books are younger than 5001 ms, they cross, the search finds a quantity, it reaches the minimum size and the cap is positive: no other test rejects |
| Candidates.EmittedIsSound | src/strategy/spread_detector.h:99-117 | an offer is feasible at its own quantity and prices, with its spreads those of its prices and at or above the minimum, and price times quantity within the cap |
| Candidates.EmittedIsFresh | src/strategy/spread_detector.h:45-59 | on any books an offer comes from two that are younger than 5001 ms, in nanoseconds, and cross at a positive ask |
| Candidates.EmittedIsFeasible | src/strategy/spread_detector.h:72-117 | on any books an offer is feasible at its own quantity and prices, with the spreads of its prices |
| Candidates.SizedOnAnyBooks | src/strategy/spread_detector.h:75-97 | on any books a sized trade is fillable on both sides at its prices, is the searched quantity within the cap and the cap over the searched average beyond it |
| Candidates.CrossingFilterLosesNothingIff | src/strategy/spread_detector.h:58-59 | the crossed-book test loses no worthwhile trade on any books exactly if minimum plus fees is not negative |
| EmittedSizes.EmittedReachMinimumIff | src/strategy/spread_detector.h:69-117 | for every pair, settings, fees and time: whatever the good books, what is emitted reaches the minimum size exactly if the minimum or the cap is not positive |
| Candidates.CapDecidesSize | src/strategy/spread_detector.h:85-97 | a trade the cap left alone reaches the minimum size; under a cap below the minimum every trade is too small |
| Candidates.ServedSidesAreGood | src/orderbook/order_book.cpp:186-197 | the sides an order book serves meet the assumptions of the depth results |
| SpreadDetectors.ChooseBest | src/strategy/spread_detector.h:32-122 | the first of the highest offers strictly above the minimum over all ordered pairs of books, or nothing exactly if there is none |
| SpreadDetectors.KeyInjective | src/strategy/spread_detector.h:128-131 | distinct routes have distinct cooldown keys |
| SpreadDetectors.TimesAreLatest | src/strategy/spread_detector.h:134-144 | the map holds each route's latest admission |
| SpreadDetectors.AdmittedIff | src/strategy/spread_detector.h:134-144 | with a non-decreasing clock an attempt is admitted exactly if every earlier admitted one on its route is at least 10^9 ns old |
| SpreadDetectors.SpreadDetector.ScanPair | src/strategy/spread_detector.h:27-157 | fires at most once, with the best offer, found between two fresh books, exactly if there is one and its route is admitted; else the times are unchanged |
| Assets.PairAssets | src/execution/paper_executor.cpp:32-40 | BASE-QUOTE is split at the first dash into base and quote |
| Assets.DashlessPair | src/execution/paper_executor.cpp:32-40 | a pair without a dash is all base, in the default quote asset |
| Fees.CachedFeesDecide | src/strategy/fee_manager.cpp:54-130 | the fee rate is the sum of the two cached taker fees of the pair, a missing one has its default, and no other entry matters |
| PaperExecutors.PaperExecutor.constructor | src/execution/paper_executor.cpp:9-30 | every active exchange gets an equal share of each asset |
| PaperExecutors.InitialTotalIff | src/execution/paper_executor.cpp:21-26 | the shares of a non-zero amount add up to it exactly if no exchange is listed twice |
| PaperExecutors.InitialShares | src/execution/paper_executor.cpp:21-26 | each active exchange holds of each asset its amount over the number of exchanges, and nothing else is held |
| PaperExecutors.SimulateFill | src/execution/paper_executor.cpp:62-102 | a full fill at the effective price, else the given factor of what is there, and the fee |
| PaperSafety.FillPays | src/execution/paper_executor.cpp:62-102 | on positive sizes the whole quantity is filled if the book holds it, else the factor times what it holds, at the walk's cost per unit, and the fee is charged on the fill |
| PaperExecutors.DashlessQuote | src/execution/paper_executor.cpp:37-40 | without a dash the paper executor quotes in USDT |
| PaperExecutors.TradeHappensIff | src/execution/paper_executor.cpp:42-155 | a trade happens exactly if the buyer's quote entry is at least price times quantity, the seller's base entry at least the quantity and both books exist; then both fills and one log entry, else a rejected record and an unchanged ledger |
| PaperExecutors.PaperExecutor.Execute | src/execution/paper_executor.cpp:104-199 | the new ledger is the trade step of the old one; it logs a filled record exactly if both entries suffice and both books exist, else it rejects and changes nothing |
| PaperExecutors.PaperExecutor.UpdateBalance | src/execution/paper_executor.cpp:55-60 | one balance changes by the delta, starting from 0 if missing |
| PaperExecutors.PaperExecutor.CollectTotals | src/execution/paper_executor.cpp:207-213 | the totals over all exchanges of every asset held anywhere |
| PaperExecutors.PaperExecutor.RebalanceAll | src/execution/paper_executor.cpp:201-224 | the new ledger is the rebalance step of the old one |
| PaperExecutors.SettleConserves | src/execution/paper_executor.cpp:170-184 | a trade, partial and unequal fills included, changes only the quote total, by its profit |
| PaperSafety.SettleMoves | src/execution/paper_executor.cpp:170-179 | of every account of every exchange: the matched quantity and the two average prices change hands, and each side pays its own fee |
| PaperExecutors.RebalanceConserves | src/execution/paper_executor.cpp:201-221 | rebalancing keeps every total and equalises the exchanges |
| PaperExecutors.RunConserves | src/execution/paper_executor.cpp:170-224 | over every run each asset's total changes by the logged profits quoted in it, and the reported profit by all of them |
| PaperExecutors.UnquotedTotalIsConserved | src/execution/paper_executor.cpp:176-179 | over every run the total of an asset that no trade is quoted in is conserved |
| PaperExecutors.ReportedPnlIsQuoteChange | src/execution/paper_executor.cpp:183-190 | over every run the reported profit is the change of all quote totals and the sum over the log |
| ArbitrageProfit.EmittedFillsAsAdvertised | src/execution/paper_executor.cpp:150-168 | on unchanged books an accepted opportunity fills in full on both sides at its advertised prices |
| ArbitrageProfit.EmittedProfit | src/execution/paper_executor.cpp:170-184 | it earns q B (n(1-sf) - sf(bf+sf)) exactly, so it is profitable exactly if that margin is positive |
| ArbitrageProfit.PositiveSpreadCanLose | src/execution/paper_executor.cpp:170-184 | witness: an opportunity emitted at a positive net spread, accepted on unchanged books, that loses money |
| ArbitrageProfit.BuyerDipsByFeeAtMost | src/execution/paper_executor.cpp:121-138 | on unchanged books the buyer's quote ends at least at minus the buy fee, and not negative exactly if it was at least q B (1+bf) |
| PaperSafety.BuyerPaysCostAndFee | src/execution/paper_executor.cpp:170-178 | on any books an accepted buyer's quote falls by average price times matched quantity and the fee; it ends at least at minus the fee exactly if it covered the former |
| PaperSafety.BookDecidesDip | src/execution/paper_executor.cpp:62-82 | on the buyer's book alone: all accepted accounts, good sell books, fees and factors in [0.5, 0.9) dip by the fee at most exactly if the walk over the quantity, or 0.9 of the whole book if it is short, costs no more than advertised |
| PaperSafety.DipsByFeeAtMostIff | src/execution/paper_executor.cpp:62-82 | for given inputs: every accepted account dips by the fee at most exactly if the matched quantity costs no more than advertised |
| PaperSafety.MovedBookDipsBelow | src/execution/paper_executor.cpp:62-82 | a book that moved after detection takes an accepted buyer below any bound, on good books with full fills |
| PaperSafety.SellerNeverShort | src/execution/paper_executor.cpp:131-179 | on any good books the seller's base balance does not become negative, whatever the partial fills |
| LimitOrders.WalkBook | src/backtest/simulated_exchange.cpp:102-112 | the fill loop computes the bounded walk, on either side |
| LimitOrders.LimitWalkIsWalk | src/backtest/simulated_exchange.cpp:104-112 | on any book the bounded walk is the plain walk over the leading admitted levels |
| LimitOrders.ReachableIs | src/backtest/simulated_exchange.cpp:104-105 | those are exactly the levels before the first one priced beyond the limit |
| SimulatedExchanges.DashlessQuote | src/backtest/simulated_exchange.cpp:83-85 | without a dash the simulated exchange quotes in USD |
| LimitOrders.AgreesIffDeepestAdmitted | src/backtest/simulated_exchange.cpp:104-112 | on a sorted book it agrees with the effective price in quantity and cost exactly if the limit admits the deepest level touched |
| LimitOrders.LimitRespected | src/backtest/simulated_exchange.cpp:104-112 | on any book without negative sizes it fills at most the request at a cost within the limit |
| LimitOrders.SoundOrderRespectsLimit | src/backtest/simulated_exchange.cpp:104-117 | on sound sizes (no leading part with a positive total holds a negative size) an order that trades stays within its request and its limit |
| LimitOrders.LimitRespectedIff | src/backtest/simulated_exchange.cpp:104-117 | for any sizes: at all positive prices, limits and requests orders that trade stay within them exactly if the sizes are sound |
| Cursors.AdvanceCursor | src/backtest/simulated_exchange.cpp:28-33 | the loop ends at the later of its start and the from-scratch position |
| Cursors.CursorIsSeek | src/backtest/simulated_exchange.cpp:26-34 | through any non-decreasing times the cursor equals a from-scratch search for the last snapshot up to now |
| Cursors.LooksAheadIff | src/backtest/simulated_exchange.cpp:26-49 | the snapshot shown is not from the future exactly if the first one is not, and none between it and now is skipped |
| SimulatedExchanges.SimulatedExchange.constructor | src/backtest/simulated_exchange.cpp:6-10 | a new exchange with its balances and fees and no data |
| SimulatedExchanges.SimulatedExchange.LoadSnapshots | src/backtest/simulated_exchange.cpp:12-24 | each pair holds a permutation of this exchange's snapshots in time order, rewound |
| SimulatedExchanges.SimulatedExchange.AdvanceTo | src/backtest/simulated_exchange.cpp:26-34 | every pair moves to the later of its position and the from-scratch one |
| SimulatedExchanges.SimulatedExchange.FetchOrderBook | src/backtest/simulated_exchange.cpp:36-60 | the leading levels of the current snapshot, or nothing for an unknown pair |
| SimulatedExchanges.SimulatedExchange.PlaceLimitOrder | src/backtest/simulated_exchange.cpp:76-170 | the result and the new balances are those of the order on the whole current book; whatever traded paid average price times quantity times the taker fee |
| SimulatedExchanges.OutcomeShape | src/backtest/simulated_exchange.cpp:114-128 | on any book an order is FILLED exactly with the whole request, PARTIALLY_FILLED exactly with less, OPEN or REJECTED exactly with nothing |
| SimulatedExchanges.OrderPays | src/backtest/simulated_exchange.cpp:84-128 | rejected exactly if the side is empty or the balance is short of price times quantity, or of the quantity; else the walk over the levels within the limit, whole or partial, with the fee on its cost |
| SimulatedExchanges.OrderSettles | src/backtest/simulated_exchange.cpp:114-165 | of an order that traded: base moves by the fill, quote by the walk's cost and the fee on it, every other balance stays |
| SimulatedExchanges.OrderMoves | src/backtest/simulated_exchange.cpp:121-123 | base and quote change by what the result reports, and nothing else does |
| SimulatedExchanges.AverageWithinLimit | src/backtest/simulated_exchange.cpp:114-117 | on sound sizes the average price of an order that trades is no worse than the limit |
| SimulatedExchanges.AverageWithinLimitIff | src/backtest/simulated_exchange.cpp:93-128 | for any sizes: that is so for all positive prices, accounts, fees and orders of a side exactly if they are sound |
| SimulatedExchanges.OrderIsSafe | src/backtest/simulated_exchange.cpp:93-123 | on sound sizes, at prices of any sign, a buy takes quote at most its fee below zero or its old balance, a sell never leaves base negative |
| SimulatedExchanges.NegativeSizeBreaksOrder | src/backtest/simulated_exchange.cpp:104-123 | witness: with a size of -1 a buy limited to 10 pays 14.50 and a covered account ends at -9 before fees |
| BacktestReports.ComputeMetrics | src/backtest/backtest_report.cpp:10-50 | the one pass gives the final equity, the maximum drawdown, the curve, the per-pair profits, counts, fees and ratios |
| BacktestReports.DrawdownStep | src/backtest/backtest_report.cpp:40-43 | the running maximum stays the largest drop of the extended curve when a point is added |
| BacktestReports.MaxDrawdownUnique | src/backtest/backtest_report.cpp:40-43 | the largest E_i - E_j over i at most j, on the curve from 0, is one number |
| BacktestReports.EquityIsWinsLessLosses | src/backtest/backtest_report.cpp:24-37 | the final equity is gross wins less gross losses |
| BacktestReports.PairsSumToTotal | src/backtest/backtest_report.cpp:26-28 | the per-pair profits, summed in any order, are the total |
| BacktestAccounts.RecordedTradeBalances | src/backtest/backtest_engine.cpp:161-171 | a recorded trade's profit is its two cash flows, and it alone conserves the base asset |
| BacktestAccounts.SettledAccounts | src/backtest/simulated_exchange.cpp:114-165 | after any placements every asset's total has changed by their effects |
| BacktestAccounts.EffectsSplit | src/backtest/backtest_engine.cpp:161-171 | those effects are recorded profit plus unrecorded cash in the quote asset, and unrecorded goods in any other |
| BacktestAccounts.LedgerIdentity | src/backtest/backtest_engine.cpp:131-171 | the two together, for any placements quoted in one asset that is no pair's base |
| BacktestIntents.OrderFillsIff | src/backtest/simulated_exchange.cpp:93-128 | on a sorted book that holds the quantity an order fills exactly if the account covers it and the limit admits the deepest level; then at the depth analyzer's price |
| BacktestIntents.WantedIsFeasible | src/backtest/backtest_engine.cpp:99-129 | over positive prices the engine's tests are a crossed top and the depth analyzer's feasibility of the configured notional |
| BacktestIntents.IntentIsWorthNotional | src/backtest/backtest_engine.cpp:107-129 | a wanted trade's quantity times the best ask is the configured notional; its prices and spreads are those of the two books |
| BacktestIntents.FullFillsEarnMargin | src/backtest/backtest_engine.cpp:124-166 | a trade filled at the advertised prices earns quantity times price times the margin, whose sign is its sign |
| BacktestProfits.SnapshotOfCleanIsItself | src/orderbook/order_book.cpp:31-43 | a strictly sorted side with positive sizes is its own only snapshot, so the served book is the top of the replayed one |
| BacktestProfits.PrefixWalk | src/orderbook/depth_analyzer.cpp:19-25 | a quantity that the top of a book holds leaves and costs the same on the top and on the whole book |
| BacktestProfits.RecordedIff | src/backtest/backtest_engine.cpp:131-171 | over a whole run on clean data a placement is recorded exactly if both exchanges still show the pair, both accounts cover it and both limits admit the deepest level touched |
| BacktestProfits.RecordedTradesEarnMargin | src/backtest/backtest_engine.cpp:131-171 | over a whole run on clean data every recorded trade filled at its advertised prices and earned quantity times price times margin at fees of 0.1 percent |
| BacktestProfits.RecordedTradesEarnAtLeast | src/backtest/backtest_engine.cpp:131-171 | over a whole run on data of sound sizes, unsorted, duplicate or empty levels included, every recorded trade earns at least what limits 0.1 percent off both advertised prices leave after the fees |
| BacktestRuns.RunLedgerIdentity | src/backtest/backtest_engine.cpp:68-175 | over a whole run the quote total changes by the recorded profits plus unrecorded cash, any other total by unrecorded goods |
| BacktestRuns.OwnIff | src/backtest/simulated_exchange.cpp:12-17 | an exchange keeps exactly its own snapshots of a pair |
| BacktestTrades.RunPlacesExactly | src/backtest/backtest_engine.cpp:87-159 | at every visit of a run exactly the ordered pairs of served books worth placing are placed, once each, for the configured notional at the best ask and with the prices and spreads of their books |
| BacktestRuns.ServedIsLatest | src/backtest/backtest_engine.cpp:68-83 | once the data holds a pair, its served book is the top 20 of the exchange's latest snapshot up to that time, if that has any level |
| BacktestEngines.BacktestEngine.constructor | src/backtest/backtest_engine.cpp:12-13 | a new engine has no trades |
| BacktestEngines.NewExchanges | src/backtest/backtest_engine.cpp:20-39 | three exchanges with their taker fees, the configured balances and the data loaded |
| BacktestEngines.StartsWithThrice | src/backtest/backtest_engine.cpp:33-39 | each of the three exchanges starts with the whole configured balances, so the totals start at three times those |
| BacktestEngines.AdvanceAll | src/backtest/backtest_engine.cpp:69-72 | every pair of every exchange is where a from-scratch search would be; balances are unchanged |
| BacktestEngines.ServeBooks | src/backtest/backtest_engine.cpp:74-83 | every active pair's book that shows anything is replaced by the replayed one; nothing else changes |
| BacktestEngines.BacktestEngine.FindIntent | src/backtest/backtest_engine.cpp:99-129 | finds a trade exactly if the books cross and the configured notional is feasible, and says which; its quantity times the best ask is the notional |
| BacktestEngines.BacktestEngine.PlaceLegs | src/backtest/backtest_engine.cpp:131-166 | both orders are placed within 0.1 percent; results, profit and the two exchanges' new balances |
| BacktestEngines.BacktestEngine.ConsiderPair | src/backtest/backtest_engine.cpp:96-171 | exactly the wanted trade between two books is placed, and kept exactly if both legs filled |
| BacktestEngines.BacktestEngine.TradePair | src/backtest/backtest_engine.cpp:87-173 | exactly the wanted trades between all ordered pairs of books are placed, in order, each on the accounts the earlier ones left |
| BacktestEngines.BacktestEngine.Run | src/backtest/backtest_engine.cpp:15-179 | every active pair is visited once at every time, in time order, on the replayed books and the accounts left so far; exactly the trades worth placing are placed, for the configured notional; the trades and the metrics are those of the placements; on clean data every trade earns its margin, on data of sound sizes at least what its limits leave |

## Left out

- `mid_price` and `is_stale`: the same readers with other fields, no new behaviour.
- The update time and the sequence id in the seqlock protocol: the id is written before the counter turns odd, so no guarantee covers it; `OrderBook.TakeSnapshot` has both at rest.
- Seqlock.EvenReturnIsOneVersion: for `snapshot` it speaks of the levels found by the last pass; whether the vectors hold them is in `SeqlockReturns.SnapshotReturn`.
- BookRuns.RedeliveryHarmlessIff: streams whose deltas all have id 0 are covered by `ZeroIdStreams.RedeliveryHarmlessExactly` on tick-separated prices only; closer prices hit neighbours.
- BacktestProfits.RecordedIff: which placements are recorded is exact on clean data only; on data that is unsorted, has duplicate prices or empty levels the served books are not the tops of the replayed ones.
- Rounding, weak memory effects, counter wrap-around, and the time a reader spins.
- PaperExecutors.SimulateFill: the factor is any real rather than one in [0.5, 0.9), so what is proved holds for every factor.
- Concurrent `execute` calls: the balance check and the updates are separate critical sections; runs are serialised.
- Inner loop of `rebalance` over the exchanges: a map comprehension, as is the constructor's distribution.
- The aggregator: a map from exchange and pair to a book. The backtest's books are values that each snapshot replaces, not `OrderBook` objects; aliasing of books is not modelled there.
- BacktestEngines.BacktestEngine.Run: the active pairs of one time are visited in any order.
- BacktestEngines.BacktestEngine.FindIntent: an infinite or undefined spread over a zero buy price is recorded as 0.
- `max_drawdown_pct`, the Sharpe ratio and the report's text.
- Order ids, error texts, ISO times, the trade log's file and the log output.
- The fee manager's refresh thread: the cache is an input.
- `ExecutionEngine`, `OrderManager`, `InventoryTracker`: results come from remote exchanges, or only maps are kept.
- Exchange adapters, REST and WebSocket clients, configuration, CSV loading and the dashboard.
