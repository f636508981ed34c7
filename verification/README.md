# Crypto crawler: a verified model of the arbitrage bot

The bot keeps local copies of the order books of two exchanges, sizes and prices a pair of opposite
deals from them, looks after the orders that did not fill, and reports profit and loss. This project
models that logic in Dafny and proves what holds for every input, every sequence of exchange answers
and every interleaving of the bot's threads.

| Files | What they model |
|---|---|
| `BinarySearch`, `OrderBook`, `BookUpdates`, `LocalOrderBook` | one local book: the recursive search, the in-place edits, the id gate and the four `update_for_*` methods, against the plain map from price to volume |
| `BookStream`, `BittrexSocket` | arbitrary streams of deltas; the documented Binance rule; the parsing of typed Bittrex events |
| `ListenerSteps`, `ListenerSafety`, `ListenerRuns`, `ListenerAlone`, `ListenerWitness`, `ArbitrageListener` | the synchronisation protocol as a step system and as a class |
| `BaseAnalysis`, `DealSizing`, `DepthPricing`, `ArbitrageCore` | the spread gate, the volume, the limit prices, the profit, rebalancing |
| `PriorityQueue`, `OrderRecovery`, `RecoveryRuns` | the shared watch queue and the two order-recovery services |
| `BinanceTrades`, `OrderGrouping`, `ProfitReport` | paging through trades, matching them with orders, profit and loss |
| `Decimals`, `StringUtils`, `FileIterator` | decimal strings, and the line reader used for bulk inserts |
| `Wrappers`, `Exchanges` | an optional value; the exchanges and their fees |

Prices, volumes and percentages are reals. Exchanges, clocks, balances, precision tables and the
network are inputs: a theorem quantifies over whatever they answer. Where the source works by changing
things (books, queues, caps, running totals, the reader's buffer) there is a class or a loop proved
against a function, and the properties are lemmas about that function.

## What was found

Some properties one would expect are false of the code. The first group carries both a concrete run or
input that fails and the exact condition under which the code is right; the second has the exact
condition alone; the third states a failure that needs no condition.

Both an input and the exact condition:

- A wrong book can go live. Books stay true in all honest runs exactly when a reset waits for the receive
  loops of the session before it to end (`BooksStayTrueIffResetsWait`). The source only waits for both
  subscriptions to be down (services/arbitrage_between_pair_subscription.py:61-64), and a callback still on
  its way then edits the next session's snapshot before it is sorted (`LeftoverCallbackBreaksTheBook`).
  Waiting for the callbacks in flight would not be enough: each receive loop runs its callbacks one after
  the other, but a loop that has a message in hand when its subscription goes down calls back in the next
  session, beside the new loop (`OverlappingCallbacksBreakTheBook`).
- Even then, deltas can be left in the queue when the flag is written, until the next reset: exactly when a
  callback that saw the flag unset puts its message in after the last drain (`QueueStaysEmptyIff`,
  `DeltasGetStranded`). Such a delta is never skipped over (`StrandedDeltaIsNeverSkipped`), and the next one
  shuts both subscriptions down (`StrandingEndsInFailure`).
- Volumes below one millionth are printed in scientific notation and cut like any other text. The cut
  raises exactly when it falls at the sign of the exponent, keeps the number exactly when the text is
  short enough, and otherwise makes it larger (`TruncatingScientific`, `CutsAtEightDecimals`), ten-million-fold
  in `TinyVolumeIsBlownUp`. `CapsKeepVolumesPlain` says which caps rule that out.
- A pair that passes the 0.2% gate may lose money (`APlacedPairMayLose`, `ProfitIffAboveBreakEven`,
  `GateAndProfit`).
- The 15-second window in which a failed order is found again can be left by any number of seconds
  (`MatchesDrift`); it holds for every creation time exactly when no two reports of the order's pair, side
  and price come oldest first within 15 seconds of each other (`MatchesStayInTheWindowIff`).
- An order read from the watch queue, removed by a rival and added again, is delivered before older ones
  (`ReAddedOrdersOvertake`), unless all the others were added even later (`ReAddedIsOldestIff`).
- An arbitrage id used for two pairs drops its orders from both reports
  (`AnIdForTwoPairsIsInNeitherReport`); coins are conserved whatever the volumes are exactly when no
  traded order is in that position (`CoinsAreConservedForAllVolumesIff`).
- `float_to_str` keeps a positive exponent's value exactly when one decimal was printed
  (`TenToTheTwentyTwo`, `PositiveExponentsKeepTheValueIffOneDecimal`).

The exact condition:

- The bid side overwrites where the ask side subtracts (data/order_book.py:235):
  `SidesMirrorEachOther` says exactly when the two sides agree.
- On Binance the code departs from the documented rule exactly when an event straddles the snapshot id;
  it then applies nothing and answers the next event with FAILURE
  (`BinanceFollowsTheRuleUnlessStraddled`). The code is followed.
- The id of a book can move backwards, exactly when a delta that passes the gate has a range that ends
  before the id it follows (`IdsNeverDecreaseIff`).
- The final volume can be below the minimum cap; `MinimumKeptIff` says for which caps and precisions it
  cannot.
- A disbalance threshold below 0.001 can set a maximum cap of 0, which means no limit
  (`RebalancingIsLimitedIff`).
- A refused replacement is lost: `add_order` is called with one argument too many
  (core/arbitrage_core.py:379). `takesLogFile` says whether that call is accepted; `false` is the code
  as it stands. `ExpiredOrderIsLostIff` and `FailedOrderIsLostIff` say exactly which answers lose an order.
- Each failed cancellation subtracts the executed volume again (`FailedCancelsSubtractAgain`); on
  Poloniex the starting amount is taken for the rest (`PoloniexRestIsTheStartingAmount`).
- A replacement goes out at -10 exactly when its side of the book is empty (`ReplacedAtMinusTenIff`,
  `EmptySideIsTradedAtMinusTen`).

Always:

- What is buffered for Poloniex, Huobi or Kraken is never drained (`BufferedIsNeverDrained`), so a
  Poloniex full book that arrives before the flag is lost.
- With one exchange on both sides every message goes to the buy book (`OneExchangeStarvesTheSellSide`).
- Were the extra argument accepted, a refused replacement would keep a stale id and never be placed again
  (`RefusedReplacementsAreNeverPlaced`).
- An order that was cancelled and then watched again for want of a ticker or a book is judged closed in
  the next round, with volume left (`CancelledOrdersAreJudgedClosed`).
- The loss report subtracts the fee of a purchase instead of adding it
  (`PurchasesLookCheaperInTheLossReport`); a negative read length returns only the buffer
  (`NegativeLengthIsOnlyTheBuffer`).

## Model

| member | source | states |
|---|---|---|
| BinarySearch.SearchSeparates | analysis/binary_search.py:1-30 | on any sorted list the search terminates and its index separates smaller from larger elements; an equal element exists iff one stands there |
| BinarySearch.SearchIsTheLowerBound | analysis/binary_search.py:12-30 | on a strictly sorted list the index is the lower bound, and no other index is |
| OrderBooks.PlaceIsTheLowerBound | data/order_book.py:46-52 | the same for both price comparators, ascending and descending |
| OrderBooks.InsertIsOneMapUpdate | data/order_book.py:213-287 | one insert, overwrite, subtract or delete keeps a side strictly sorted and has exactly the effect of one update of the price-to-volume map |
| OrderBooks.SidesMirrorEachOther | data/order_book.py:213-287 | the bid method is the mirror image of the ask method iff volumes are overwritten, the level is absent or nearly empty, or the two results coincide |
| OrderBooks.CleanSetLevel | data/order_book.py:213-287 | dropping dust levels commutes with a level update, so the local map follows the exchange's modulo dust |
| OrderBooks.SortingKeepsTheMap | data/order_book.py:75-77 | sorting a side makes it sorted, and keeps its map when prices are distinct |
| BookUpdates.EditsRefineTheMap | data/order_book.py:312-318 | the edit loops of a whole update keep the book sorted and refine the map update edit by edit |
| BookUpdates.EditsFollowTheExchange | data/order_book.py:355-359 | two maps that agree modulo dust still agree after the local and the exchange's version of the same edits |
| BookUpdates.InstalledAgrees | data/order_book.py:320-330 | an honest snapshot, sorted and installed, is the true book at its id |
| BookUpdates.DeltaAnswers | data/order_book.py:289-404 | for each exchange and each relation of the two ids: raised, stale, gap, or both maps with the asks and bids set, the fills applied and the id of that exchange |
| BookUpdates.NoDeltasElsewhere | data/order_book.py:406-439 | a delta of Huobi or Kraken raises with the book untouched |
| BookUpdates.SnapshotAnswers | data/order_book.py:289-439 | a full book replaces both maps and the id on Poloniex, Bittrex and Huobi; Binance and Kraken never take one |
| BookUpdates.UpdateKeepsAgreement | data/order_book.py:289-439 | if the exchange's book moves by setting what a delta's asks and bids say, its message keeps the local book equal to it at the book's own id modulo dust, never kills, changes nothing unless it succeeds and never lowers the id |
| LocalOrderBook.OrderBook.SortBothSides | data/order_book.py:75-77 | sorts both lists in place, nothing else |
| LocalOrderBook.OrderBook.InsertNewBidPreserveOrder | data/order_book.py:213-249 | the in-place bid edit is the list edit at the searched index |
| LocalOrderBook.OrderBook.InsertNewAskPreserveOrder | data/order_book.py:251-287 | the in-place ask edit, including the abort for a level that would become negative |
| LocalOrderBook.OrderBook.InsertAll | data/order_book.py:312-318 | one side's loop applies its edits in order |
| LocalOrderBook.OrderBook.CopyOrderBook | data/order_book.py:320-330 | replaces both sides and the id |
| LocalOrderBook.OrderBook.UpdateForPoloniex | data/order_book.py:289-318 | outcome and new book are those of the update function |
| LocalOrderBook.OrderBook.UpdateForBittrex | data/order_book.py:332-370 | the same for Bittrex, fills and their abort included |
| LocalOrderBook.OrderBook.UpdateForBinance | data/order_book.py:372-404 | the same for Binance |
| LocalOrderBook.OrderBook.UpdateForHuobi | data/order_book.py:406-417 | the same for Huobi, which always replaces the book |
| LocalOrderBook.OrderBook.Update | data/order_book.py:419-439 | dispatches by exchange; Kraken, which has no entry, raises with the book untouched |
| LocalOrderBook.OverwritingNeverDies | data/order_book.py:251-287 | edits that overwrite never reach the abort |
| BookStream.AnyDeliveryIsAConsecutiveRun | data/order_book.py:303-318 | for any deliveries, with repeats, stale ones, gaps and fills, both maps are the old ones with the asks, bids and fills of a consecutive-id run of deltas applied once each, in order, unless a fill ends the process |
| BookStream.IdsNeverDecreaseIff | data/order_book.py:346-370 | between snapshots the id never moves backwards iff no delta that passes the gate has a range ending before the id it follows |
| BookStream.AMissingDeltaIsNeverSkipped | data/order_book.py:388-404 | while no delivery covers an id the book stays in front of it |
| BookStream.GateOnAContiguousStream | data/order_book.py:388-396 | on a gap-free Binance stream one of three: it starts too late and nobody takes anything, an event straddles the snapshot and nothing is applied, or the rule is followed event by event |
| BookStream.FailureAfterTheStraddlingEvent | data/order_book.py:388-396 | after a straddling event every later event is answered with FAILURE and leaves the snapshot untouched |
| BookStream.BinanceFollowsTheRuleUnlessStraddled | binance/socket_api.py:21-31 | on every gap-free stream, late ones included, the accepted events are those of the documented U/u rule iff no event straddles the snapshot id |
| BittrexSocket.ParseLevels | bittrex/socket_api.py:185-224 | the parsing loop turns typed events into absolute volumes; REMOVE becomes volume 0 and an event without a known type is skipped |
| BittrexSocket.ParseSocketUpdate | bittrex/socket_api.py:131-224 | both sides of one message, with its nonce as id and no fills |
| BittrexSocket.ParsedUpdateMeansItsEvents | bittrex/socket_api.py:185-224 | applying the parsed deltas to a map is what the typed events mean |
| BittrexSocket.ParsedUpdateIsHonest | bittrex/socket_api.py:131-224 | so every result about honest deltas applies to parsed ones |
| ListenerSafety.OneThreadMoves | services/arbitrage_between_pair_subscription.py:154-332 | a step of one thread that is alone in the book it touches keeps every other book and thread good |
| ListenerSafety.ApplyingKeepsBooks | services/arbitrage_between_pair_subscription.py:154-173 | taking a queued message to the gate keeps all books equal to the truth, or about to be |
| ListenerSafety.EnteringKeepsBooks | services/arbitrage_between_pair_subscription.py:284-332 | the same for a callback |
| ListenerSafety.FetchingKeepsBooks | services/arbitrage_between_pair_subscription.py:175-208 | the same for installing a snapshot |
| ListenerRuns.AfterSyncMeansBothSynced | services/arbitrage_between_pair_subscription.py:66-227 | in every state of every run, stage AFTER_SYNC implies both synced flags, and a synced Binance or Bittrex book was given a snapshot |
| ListenerRuns.UndisturbedRunsAgree | services/arbitrage_between_pair_subscription.py:154-332 | in every run in which no two threads are inside one book, every book at rest is the exchange's true book at its own id modulo dust |
| ListenerRuns.OneInFlight | binance/socket_api.py:136-148 | when resets wait for the receive loops, no two callbacks of one venue are in flight |
| ListenerRuns.NewReceiversReceiveIffStopped | binance/socket_api.py:104-141 | a new receive loop starts iff its subscription is down, turns it on and receives |
| ListenerRuns.StoppedReceiversEnd | binance/socket_api.py:138-152 | a receive loop that looks at its stopped subscription ends |
| ListenerRuns.BrokenReceiversEnd | binance/socket_api.py:138-158 | one that raises stops its subscription and ends |
| ListenerRuns.RunningReceiversReceive | binance/socket_api.py:138-148 | one whose callback has returned while its subscription runs waits for the next message |
| ListenerRuns.SerialStepsAreUndisturbed | services/arbitrage_between_pair_subscription.py:284-308 | one callback in flight per venue, the flags and the stage keep every thread out of a book that another is inside of |
| ListenerRuns.SerialRunsAgree | services/arbitrage_between_pair_subscription.py:66-332 | if resets wait for the receive loops, no two threads are ever inside one book, and the agreement holds in every reachable state |
| ListenerRuns.AfterSyncBooksAreTrue | services/arbitrage_between_pair_subscription.py:210-227 | then, when the search may run, both flags are set and both snapshot-based books are true |
| ListenerRuns.StrandedDeltaIsNeverSkipped | services/arbitrage_between_pair_subscription.py:175-208 | a delta left in the queue between the last drain and the flag write stays there, and the book stays in front of it, until the next reset or a repeated delivery of its id |
| ListenerRuns.ShuttingStopsBoth | services/arbitrage_between_pair_subscription.py:253-255 | the two steps of a shutdown leave both subscriptions down and nothing else changed, so that a live listener may reset |
| ListenerRuns.FailedSyncsAreReset | services/arbitrage_between_pair_subscription.py:82-101 | when not both books were synced, the main thread shuts both subscriptions down, changes nothing else, and resets |
| ListenerRuns.StrandingEndsInFailure | services/arbitrage_between_pair_subscription.py:284-332 | the first delta beyond a stranded one leaves the book alone, and its callback ends with both subscriptions down |
| ListenerRuns.OnlyPutsAreLeft | services/arbitrage_between_pair_subscription.py:175-308 | from the end of the last drain to the next reset the queue holds what was left and exactly what callbacks put in since, in that order |
| ListenerRuns.QueueStaysEmptyIff | services/arbitrage_between_pair_subscription.py:175-308 | after a drain that ends with an empty queue nothing is left in it iff no callback of the venue that stands before its put takes that step |
| ListenerRuns.BufferedIsNeverDrained | services/arbitrage_between_pair_subscription.py:175-208 | what is buffered for an exchange without snapshots stays in the queue until a reset clears it |
| ListenerRuns.NobodyDrainsInARun | services/arbitrage_between_pair_subscription.py:175-208 | in every run the sync thread of such an exchange never takes from the queue |
| ListenerRuns.OneExchangeStarvesTheSellSide | services/arbitrage_between_pair_subscription.py:287-308 | with one exchange on both sides no message ever reaches the sell side |
| ListenerAlone.DrainIsARun | services/arbitrage_between_pair_subscription.py:154-173 | the drain loop, undisturbed, is one of the runs of the step system |
| ListenerAlone.CallbackIsARun | services/arbitrage_between_pair_subscription.py:257-332 | a callback, undisturbed, is a run that ends in the flags, book and queue OnOrderBookUpdate names, for every stage, flag, subscription and message, and changes nothing else |
| ListenerAlone.SyncIsARun | services/arbitrage_between_pair_subscription.py:175-208 | a sync thread, undisturbed, is a run that ends as SyncOrderBook says, for every exchange and answer and with subscriptions up or down |
| ListenerWitness.DeltasGetStranded | services/arbitrage_between_pair_subscription.py:175-208 | whatever a reset waits for, some honest run leaves a delta stranded in the queue |
| ListenerWitness.OverlappingCallbacksBreakTheBook | services/arbitrage_between_pair_subscription.py:56-103 | a reset that waits for the callbacks but not for the receive loops: a reachable wrong book in stage AFTER_SYNC |
| ListenerWitness.LeftoverCallbackBreaksTheBook | services/arbitrage_between_pair_subscription.py:56-103 | the source as it is: a callback that outlives a reset leaves a reachable wrong book in stage AFTER_SYNC |
| ListenerWitness.BooksStayTrueIffResetsWait | services/arbitrage_between_pair_subscription.py:56-332 | no honest run settles on a wrong book, or does so in stage AFTER_SYNC, iff a reset waits for the receive loops to end |
| ArbitrageListener.ArbitrageListener.UpdateFromQueue | services/arbitrage_between_pair_subscription.py:154-173 | the loop's outcome, book and remaining queue are those of the drain function; a stopped subscription fails it before anything is taken |
| ArbitrageListener.ArbitrageListener.SyncOrderBook | services/arbitrage_between_pair_subscription.py:175-208 | flag, book and queue after a sync, per exchange, answer, subscription state and outcome; the other venue is untouched |
| ArbitrageListener.ArbitrageListener.UpdateBook | services/arbitrage_between_pair_subscription.py:284-332 | FAILURE stops both subscriptions, a missing book raises |
| ArbitrageListener.ArbitrageListener.OnOrderBookUpdate | services/arbitrage_between_pair_subscription.py:257-332 | a callback stops, buffers, updates or does nothing, by subscription, stage and flag |
| ArbitrageListener.ArbitrageListener.ShutdownSubscriptions | services/arbitrage_between_pair_subscription.py:253-255 | stops both |
| ArbitrageListener.DrainKeepsAgreement | services/arbitrage_between_pair_subscription.py:154-173 | draining an honest queue keeps the book true, survives, and on success leaves nothing behind |
| BaseAnalysis.ChangeIsMonotone | core/base_analysis.py:126-150 | for positive prices the percentage grows with the current and shrinks with the previous price |
| BaseAnalysis.AbsoluteChange | core/base_analysis.py:126-150 | taken absolutely, the change is that from the smaller price to the larger |
| BaseAnalysis.GateIsASpreadOf21 | core/base_analysis.py:126-150 | a value above 0.2 means a true spread of at least 0.21% of the mid price, and conversely |
| BaseAnalysis.ChangeAboveTheFloor | core/base_analysis.py:142-150 | above a threshold of 0.001 or more there is a real difference |
| DealSizing.DeterminedIsWithinTheMarket | core/arbitrage_core.py:145-170 | a positive determined volume is covered by both best levels, the coins and the base balance |
| DealSizing.DeterminedUsesALimit | core/arbitrage_core.py:145-170 | it is the least of what books and seller offer, or spends 90% of a base balance that is too small for that |
| DealSizing.SurvivingVolumeIsCovered | core/arbitrage_core.py:76-88 | what survives caps and rounding is covered by both best levels, coins, base balance and any nonzero maximum cap, unless the text was cut in scientific notation, and then it is more than was sized |
| DealSizing.RoundingShrinksIff | core/arbitrage_core.py:219-225 | a volume that survives rounding has not grown iff its text was not cut in scientific notation |
| DealSizing.RoundedByTheRightTable | core/arbitrage_core.py:219-225 | where Binance takes part its table rules, then that of Huobi, else eight decimals: a plain volume is rounded down to the largest whole number of steps |
| DealSizing.RoundingRaisesIff | core/arbitrage_core.py:219-225 | rounding raises iff a volume of less than one millionth, of either sign, is cut at the sign of its exponent, and nothing below zero survives it |
| DealSizing.CapsKeepVolumesPlain | core/arbitrage_core.py:200-225 | no surviving volume is printed in scientific notation iff the caps are at least one millionth |
| DealSizing.TinyVolumeIsBlownUp | core/arbitrage_core.py:219-225 | a concrete market in which the cut makes a volume ten million times the coins held |
| DealSizing.MinimumKeptIff | core/arbitrage_core.py:79-84 | every surviving volume is at least the minimum cap iff a maximum below the minimum vanishes when cut, or else the minimum is a multiple of the last decimal kept, is cut to nothing, or is below one millionth |
| DepthPricing.AdjustPriceByOrderBook | core/arbitrage_core.py:237-273 | the accumulating loop returns the price of the walk |
| DepthPricing.PriceOfTheFirstDeepEnough | core/arbitrage_core.py:260-273 | that is the first level whose cumulative volume reaches twice the volume, or the last |
| DepthPricing.WalkFindsThePrice | core/arbitrage_core.py:237-273 | the price found is exactly that of the last of the fewest levels that offer twice the volume |
| DepthPricing.NoPriceIff | core/arbitrage_core.py:249-263 | no level is visited iff the side is empty or nothing is to be traded |
| DepthPricing.LargerVolumesArePricedNoBetter | core/arbitrage_core.py:237-273 | the price is monotone in the volume |
| DepthPricing.LimitMeetsTwiceTheVolume | core/arbitrage_core.py:237-273 | a limit order there meets twice its volume or the whole side, and no better limit would |
| DepthPricing.SizedOrdersFillCompletely | core/arbitrage_core.py:90-101 | an order of no more than the best level's volume fills completely |
| ArbitrageCore.DepthNarrowsTheSpread | core/arbitrage_core.py:71-109 | the depth-adjusted spread never exceeds the top-of-book spread |
| ArbitrageCore.SearchPlacesIff | core/arbitrage_core.py:47-122 | exactly which pair is placed and when: sold where the bids come from, bought where the asks come from, at the depth prices, iff the best spread reaches the threshold, the volume survives and 0.21% of spread is left |
| ArbitrageCore.PlacedPairsHaveASpread | core/arbitrage_core.py:47-122 | every pair placed sells dearer than it buys, by at least 0.21% of the mid price |
| ArbitrageCore.PlacedPairsAreCovered | core/arbitrage_core.py:47-122 | the coins are held where the pair sells and the base currency where it buys, within market and cap, and both orders fill against frozen books, iff the text of the volume was not cut in scientific notation; else it is more than was sized |
| ArbitrageCore.ProfitIffAboveBreakEven | data/trade_pair.py:36-42 | profit is positive iff spread over mid exceeds (f1+f2)/(1+(f2-f1)/2) |
| ArbitrageCore.GateAndProfit | core/arbitrage_core.py:103-109 | for the real fees: no profit up to a spread of 0.29%, always profit above 0.52 |
| ArbitrageCore.APlacedPairMayLose | core/arbitrage_core.py:103-115 | a concrete placed pair with a loss |
| ArbitrageCore.AdjustCurrencyBalance | core/arbitrage_core.py:276-307 | on a disbalance the cap becomes half the difference and the search runs under it; otherwise nothing changes |
| ArbitrageCore.HalfMakesThemEqual | core/arbitrage_core.py:288-291 | moving the cap that rebalancing sets makes the two balances equal |
| ArbitrageCore.MarketCap.UpdateMaxVolumeCap | data/market_cap.py:28-29 | replaces the maximum cap only |
| ArbitrageCore.RebalancingIsLimitedIff | core/arbitrage_core.py:288-303 | the cap is a real limit for all balances iff the threshold is at least 0.001 |
| ArbitrageCore.RebalancingNeverOvershoots | data/balance_state.py:105-118 | no rebalancing trade whose volume was not cut in scientific notation leaves the seller with less than the buyer |
| PriorityQueues.NothingIsLostOrDeliveredTwice | data_access/classes/priority_queue.py:8-39 | with any number of consumers, everything added is delivered, watched or was overwritten, so nothing is delivered more often than added |
| PriorityQueues.DeliveredIsTheOldest | data_access/classes/priority_queue.py:25-39 | under a monotone clock, a payload not added again since it was read is the oldest when removed |
| PriorityQueues.ReAddedIsOldestIff | data_access/classes/priority_queue.py:25-39 | one that was added again is the oldest when removed iff everything else watched was added even later |
| PriorityQueues.RetriesMeanDeliveries | data_access/classes/priority_queue.py:28-31 | a removal comes too late only if another consumer was delivered that payload meanwhile |
| PriorityQueues.CallsEndWithAnAnswer | data_access/classes/priority_queue.py:25-39 | a call returns only with an order, or when nothing is watched |
| PriorityQueues.ReAddedOrdersOvertake | data_access/classes/priority_queue.py:25-39 | added again between read and removal, the newest is delivered first |
| PriorityQueues.PriorityQueue.AddOrderToWatchQueue | data_access/classes/priority_queue.py:8-20 | adds, or moves an equal payload to the new time |
| PriorityQueues.PriorityQueue.First | data_access/classes/priority_queue.py:22-23 | the oldest member, none iff empty |
| PriorityQueues.PriorityQueue.GetOldestOrder | data_access/classes/priority_queue.py:25-39 | the retry loop returns the oldest of what rivals left and removes only that; None only when nothing is left |
| OrderRecovery.Services.UpdateExecutedVolume | core/expired_order.py:129-144 | the loop stops at the first report of this order and says whether there is one |
| OrderRecovery.Services.SetOrderId | core/failed_order.py:113-124 | the loop compares each report with what the matches before left |
| OrderRecovery.Services.PlaceByMarketRate | core/arbitrage_core.py:345-379 | each exit pushes to exactly the queues of its fate |
| OrderRecovery.Services.ProcessExpired | core/expired_order.py:27-126 | each exit of the expired service, with all three queues |
| OrderRecovery.Services.ProcessFailed | core/failed_order.py:28-110 | each exit of the failed service, with all three queues |
| RecoveryRuns.EveryOrderIsInOnePlace | core/expired_order.py:49-126 | in every run of both services, for all answers, an order that entered once is in exactly one queue, hand, or end |
| RecoveryRuns.FateDecidesThePlace | core/expired_order.py:49-126 | watched again or replaced: watched; to be tried again: failed; closed or too small: finished; and nothing else moves |
| RecoveryRuns.EachServiceTakesFromItsQueue | services/expired_order_processing.py:37 | the expired service takes an order out of the watch queue, the failed service out of the failed ones |
| RecoveryRuns.FateOfAFailedOrder | core/failed_order.py:40-110 | watched iff it has an id or matches an open order, closed iff it only matches the history, else tried again or put back |
| RecoveryRuns.ExpiredOrderIsLostIff | core/arbitrage_core.py:345-379 | lost iff tried, and its new volume cannot be computed, or reaches the minimum and is refused while add_order takes no log file |
| RecoveryRuns.FailedOrderIsLostIff | core/failed_order.py:40-110 | the same for the failed service |
| RecoveryRuns.ExpiredIsReplacedIff | core/expired_order.py:84-126 | an order is replaced iff it is tried, by exactly the order with its price against the other side, its affordable volume, the new id and the time of placing |
| RecoveryRuns.FailedIsReplacedIff | core/failed_order.py:69-110 | the same for the failed service |
| RecoveryRuns.PricedAgainstTheOtherSide | core/expired_order.py:108-110 | a sale meets twice its volume or all there is among the bids and never asks for more than the best bid; a purchase among the asks and never offers less than the best ask |
| RecoveryRuns.DeterminedByTheBalance | core/arbitrage_core.py:173-197 | the volume is the smaller of order and coins for a sale; all of it or nine tenths of the base balance for a purchase; nothing iff a balance is unknown or the price is zero |
| RecoveryRuns.MinimumIsWorthAFixedAmount | core/arbitrage_core.py:331-342 | the least volume is worth 0.004 BTC, 0.04 ETH or 40 USDT at the ask |
| RecoveryRuns.RaisesIff | core/arbitrage_core.py:173-225 | the new volume cannot be computed iff a balance is unknown, a price is zero or the text is cut at the sign of its exponent |
| RecoveryRuns.ReplacementIsCovered | core/arbitrage_core.py:173-197 | a replacement, even at -10, is no larger than the order, at least the minimum, and affordable at its own price, unless its text was cut in scientific notation, and then it is more than the balance allowed |
| RecoveryRuns.VolumeNeverIncreases | core/expired_order.py:49-126 | over any number of rounds, those priced at -10 included, the volume never increases |
| RecoveryRuns.CancelledOrdersAreJudgedClosed | core/expired_order.py:58-106 | cancelled, watched again for want of an answer, and judged closed in the next round |
| RecoveryRuns.TheFirstReportDecides | core/expired_order.py:129-144 | the first report of an order settles its volumes, on Poloniex by the reported rest and elsewhere by the executed volume; without one they stay |
| RecoveryRuns.RepricedIffThereIsASide | core/expired_order.py:108-110 | the new price is positive iff there are bids for a sale or asks for a purchase and volume is left, else -10 |
| RecoveryRuns.ReplacedAtMinusTenIff | core/expired_order.py:108-126 | a replacement goes out at -10 iff there are no bids for a sale or no asks for a purchase |
| RecoveryRuns.EmptySideIsTradedAtMinusTen | core/expired_order.py:108-126 | without bids a sale, and without asks a purchase, is sent at -10 iff the order is tried and taken and its volume reaches the minimum |
| RecoveryRuns.FailedCancelsSubtractAgain | core/expired_order.py:129-144 | after rounds of the expired service with failed cancels the volume is the true rest iff nothing was executed before the last |
| RecoveryRuns.PoloniexRestIsTheStartingAmount | core/expired_order.py:136-140 | right iff nothing was executed |
| RecoveryRuns.IdIsSetIff | core/failed_order.py:113-124 | an id is set iff some report matches the order as it was, and id and time are those of a reported order for the same pair, side and price |
| RecoveryRuns.MatchesStayInTheWindowIff | core/failed_order.py:113-124 | for every creation time the id taken is that of an order created less than 15 seconds later, iff no two reports of its pair, side and price come oldest first within 15 seconds |
| RecoveryRuns.MatchesDrift | core/failed_order.py:118-124 | for any n an order created 14n seconds later can be taken for this one |
| RecoveryRuns.RefusedReplacementsAreNeverPlaced | core/failed_order.py:40-57 | a refused replacement with a stale id is only ever watched |
| BinanceTrades.GetRecentBinanceTrades | analysis/data_load_for_profit_report.py:176-233 | the paging loop terminates, never reaches its assertion, and collects the pages from the cursor on |
| BinanceTrades.CursorMoves | analysis/data_load_for_profit_report.py:208-213 | a full page of two or more trades moves the cursor forward |
| BinanceTrades.EveryTradeInTheWindow | analysis/data_load_for_profit_report.py:189-231 | every trade from the cursor on inside the window is collected once, the last of a continued page twice |
| BinanceTrades.OnlyTradesOfTheAccount | analysis/data_load_for_profit_report.py:189-231 | nothing else is collected |
| OrderGrouping.GroupTradesByOrders | analysis/grouping_utils.py:73-95 | per exchange and in order, the three results are the orders that belong there |
| OrderGrouping.EveryOrderInOneBucket | analysis/grouping_utils.py:73-95 | each order lands in exactly one of failed, missing and with-trades, as often as it came |
| OrderGrouping.AttachedTradesAreItsTrades | analysis/grouping_utils.py:85-93 | an order's trades are all the trades with its id, and at least one |
| ProfitReport.ComputeProfitByPair | analysis/profit_report_analysis.py:16-67 | over all ids that two entries share: coins bought less coins sold, and what sales bring in after their fee less what purchases cost with theirs |
| ProfitReport.ComputeLoss | analysis/profit_report_analysis.py:70-99 | per pair and over all ids that one entry alone has: the same, with the fee of purchases taken off |
| ProfitReport.ComputeLossByPair | analysis/profit_report_analysis.py:102-116 | the running totals of one pair are those of all its entries |
| ProfitReport.PairedIff | analysis/profit_report_analysis.py:22-29 | an id counts as paired iff two entries share it, and as single iff one entry alone has it |
| ProfitReport.TotalsMean | analysis/profit_report_analysis.py:35-58 | both totals of either report, for any ids, from volumes, prices and fees |
| ProfitReport.MatchedOrdersEarnTheirNetProfit | analysis/profit_report_analysis.py:35-58 | a purchase and a sale of one volume under one id earn the net profit of data/trade_pair.py, positive iff above the break-even spread |
| ProfitReport.CoinsAreConserved | analysis/profit_report_analysis.py:25-58 | if ids keep to their pair, profit coins plus loss coins are the signed executed volume |
| ProfitReport.CoinsAreConservedIff | analysis/profit_report_analysis.py:25-116 | and in general iff what is alone within its pair but not altogether cancels out |
| ProfitReport.CoinsAreConservedForAllVolumesIff | analysis/profit_report_analysis.py:25-116 | conserved for every choice of volumes iff no order with a trade is alone within its pair while its id is not alone altogether |
| ProfitReport.AnIdForTwoPairsIsInNeitherReport | analysis/profit_report_analysis.py:28-87 | an input on which coins vanish |
| ProfitReport.PurchasesLookCheaperInTheLossReport | analysis/profit_report_analysis.py:106-110 | whichever ids are summed, the base totals of the two reports differ by twice the fees of the purchases |
| StringUtils.NegativeExponentsKeepTheValue | utils/string_utils.py:11-20 | a negative exponent is expanded to the same number |
| StringUtils.PositiveExponentsKeepTheValueIffOneDecimal | utils/string_utils.py:15-18 | a positive exponent keeps its value iff one decimal was printed |
| StringUtils.TenToTheTwentyTwo | utils/string_utils.py:11-18 | "1e+22" is printed as another number |
| StringUtils.PlainNotationIsKept | utils/string_utils.py:21-23 | plain notation loses at most a ".0" |
| StringUtils.TruncateFloatTruncates | utils/string_utils.py:26-32 | cutting plain notation is truncation towards zero at the n-th decimal |
| StringUtils.TruncationIsIdempotentAndShrinks | utils/string_utils.py:26-32 | cutting twice is cutting once, and never moves away from zero |
| StringUtils.PointFirstIsLeftAlone | utils/string_utils.py:26-32 | a text that begins with its point, or has none, is not cut |
| StringUtils.ScientificIsUncutIff | utils/string_utils.py:26-32 | scientific notation is left alone iff it is short enough |
| StringUtils.TruncatingScientific | utils/string_utils.py:26-32 | cutting a positive scientific text raises iff it is cut at the sign of the exponent, keeps the number iff it is uncut, and otherwise makes it larger |
| StringUtils.TruncatingNegativeScientific | utils/string_utils.py:26-32 | cutting a negative one raises in the same cases and never moves towards zero |
| StringUtils.CutsAtEightDecimals | utils/string_utils.py:26-32 | three texts at eight decimals: exponent lost, exponent cut short, exponent mangled |
| FileIterator.IteratorFile.Read | data_access/classes/file_iterator.py:18-41 | result, buffer and unread lines together are the text before the read |
| FileIterator.ReadsConserveTheText | data_access/classes/file_iterator.py:18-41 | the same for any sequence of reads of any lengths |
| FileIterator.ReadIsASliceOfTheText | data_access/classes/file_iterator.py:18-41 | a read returns exactly the length asked for unless the lines are exhausted |
| FileIterator.ReadsAreThoseOfAPlainFile | data_access/classes/file_iterator.py:18-41 | reads of non-negative lengths are consecutive slices of the text, wherever lines end |
| FileIterator.NegativeLengthIsOnlyTheBuffer | data_access/classes/file_iterator.py:18-41 | a negative length returns what was pulled before and pulls nothing |

## Left out

- BookUpdates.UpdateKeepsAgreement: for honest messages; a snapshot has distinct prices, a delta's range does not end before it starts, and the exchange's own book moves by absolute volumes, so Bittrex fills that subtract are covered by the map refinement only.
- ListenerRuns.SerialRunsAgree: needs resets that wait for the receive loops to end, because the agreement is false without (ListenerWitness.BooksStayTrueIffResetsWait); the source waits for less.
- ListenerSteps.ReceiverEnabled: a receive loop that finds its subscription running when it starts ends the process; the model has no step there. The Bittrex client library calls back from a listener thread of its own, which is modelled like the receive loops of the other exchanges; that library is not part of this model.
- LocalOrderBook.OrderBook.CopyOrderBook: the copied timest, exchange and pair fields are not modelled.
- ArbitrageListener.ArbitrageListener.OnOrderBookUpdate: leaves out the search and the cap reset that follow a successful update in stage AFTER_SYNC.
- ListenerRuns.AfterSyncBooksAreTrue: says nothing of the search reading one book while a callback changes the other.
- The step granularity: one step is one shared access, except that the gate of an update, sorting a fresh snapshot, installing a full book, the look at both flags, and finding both subscriptions down with the start of the reset are one step each. Queue operations are atomic.
- Deals and lists are values: that an OrderBook shares Deal objects with the message it was copied from is not captured.
- In Python 2 comparing None with a number does not raise but adding to it does; the model has only the raising of the update, with the book unchanged.
- A level that would become negative ends the process; the model stops the update there and says nothing about the book afterwards.
- Decimals are reals: 28-digit rounding of Decimal division and the binary error of Decimal(0.9), Decimal(0.004) and the fee factors are not modelled, and neither is mixing Decimal with float.
- DealSizing.RoundVolume: how Python prints a volume below one millionth is an input; it is any text in scientific notation that denotes the volume. A text of more than 28 digits is not excluded.
- DealSizing.DetermineMinimumVolume: requires both balances to be known and a nonzero ask price; the source raises otherwise.
- ArbitrageCore.SearchForArbitrage: returns the pair handed to the placing action; the source's own return value is always a failure without a pair.
- The placing action, arbitrage ids, timestamps of trades and the balance expiry that ends the process.
- The methods of BalanceState that add and subtract balances are not called by the modelled code.
- PriorityQueues.PriorityQueue.GetOldestOrder: rivals are a list of sets of removals; equal times are broken arbitrarily, where Redis orders by payload.
- RecoveryRuns.EveryOrderIsInOnePlace: orders are told apart by arbitrage id, side, exchange and pair; equal payloads in the watch queue do not collapse there (PriorityQueues.NothingIsLostOrDeliveredTwice covers that).
- RecoveryRuns.VolumeNeverIncreases: for reports no larger than the order, positive tickers and prices, balances that are not negative and volumes whose text is not cut in scientific notation; a cut volume can grow (StringUtils.TruncatingScientific).
- OrderRecovery.Services.ProcessFailed: the retries of a failing search are one answer, since only the first success counts; the database row update is left out, as are execute_time, order_book_time and trade_id.
- OrderRecovery.Services.ProcessExpired: after an expired balance the order is watched and the service dies; dying is not modelled. init_deal is an oracle that accepts or refuses; at this commit it ends the process first (dao/deal_utils.py:31).
- BinanceTrades.GetRecentBinanceTrades: the account's history is fixed during paging and answered by ascending id, so sorting is a reversal; failing requests that are retried are one answer. The page size is a parameter of at least 2; the source uses 200.
- ProfitReport.ComputeLoss: without the totals per base currency. The two reports' base totals are computed but not related, because they treat fees differently.
- StringUtils.FloatToStrExpands: for one leading digit, as Python prints; an exponent of zero is not printed.
- FileIterator.IteratorFile.Read: exceptions of the iterator other than its end, which the source swallows.
- REST and websocket clients, signing, Redis, Postgres and Telegram transport, logging, configuration, the JSON constructors, the pair and precision tables, core/backtest.py.
