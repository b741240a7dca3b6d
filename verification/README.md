# Perpetual-futures exchange: verified model

The exchange keeps resting limit orders in price levels with first-in-first-out queues, matches incoming
orders against them in price-time order, settles fills into margined positions, and liquidates or
deleverages positions whose margin runs out. Its state lives in a versioned key store; after a restart the
order book is rebuilt from the persisted active-order lists. Executed transactions come from a pool indexed
by hash and by sender and nonce, and their events go to a log queried by prefix scans over encoded keys.

The Dafny project models these parts and proves what they promise. `dafny verify dfyconfig.toml` checks it.

How it is put together:

- `Types`, `Rounding`, `Sorting`, `Queues`: shared data, floored arithmetic, stable sorting, id lists and sorted
  price sets.
- `Matching`, `Exchange`: the exchange as a state machine without a book. Resting orders are just the Active
  orders, and an incoming order sweeps them in price-time order. `Risk` and `Positions` hold its arithmetic;
  `Admission` says what passing the checks means.
- `Outcomes`: what becomes of an order that is placed, cancelled or placed to close, in terms of the request.
- `Invariants`, `History`, `Priority`: what holds in every reachable state, what a run may do to an order,
  and what one match does, stated without the sweep.
- `PriceLevels`, `StateStore`, `OrderBook`, `Recovery`, `Trading`: the imperative engine with its cached book,
  updated in place, proved equal to the state machine step by step; the book is a function of the state.
- `LevelSizes`: when the u64 totals of the price levels hold the sums of what rests.
- `PositionRuns`, `AccountRuns`, `TradeLimits`, `OpenInterest`: margin, entry price and signed size
  over runs. `ReduceOnly`, `RestingReduceOnly`: reduce-only orders as taker and as maker.
- `Liquidation`, `LiquidationEngine`, `Deleveraging`, `Funding`: forced reductions and funding payments.
- `VersionedStore`; `ByteKeys` and `EventStore`; `Mempool` and `Executor`: the three indexes that must agree
  with something simpler. `OrderTransactions` joins the executor with the exchange.

Where the code and its own comments disagree the model follows the code: deleting a key of the store only
drops the buffered write (crates/state/src/rocksdb_storage.rs:191-198), a failed fill-or-kill order keeps its
fills (crates/engine/src/services/order_service.rs:111-116), and the would-match test counts the trader's own
orders (crates/engine/src/orderbook.rs:228-257).

Properties the code does not have on all inputs are given with an input that fails and the condition under
which they hold: a fill left half settled or wrapping one side (`OpenInterest.FillKeepsNet`), a level total beyond
u64 (`LevelSizes.RunFitsExactly`), a mark price that wraps when rounded (`Liquidation.ThresholdThroughTicks`),
a failed order that traded (`OrderTransactions.FailedOrderExactly`), a reduce-only order that opens a position as
maker (`RestingReduceOnly.MakerReducesExactly`), a deleveraging that collects more than required
(`Liquidation.AdlPlanExactly`) or ranks the largest profit last (`Deleveraging.ScoreExactly`), a liquidated position from which nothing is taken (`Liquidation.PartialSizeExact`),
a funding index move that wraps (`Funding.PaymentExact`), a live value lost to pruning
(`VersionedStore.ReadVersionExact`), an event replaced or not found (`EventStore.RangeKeptExactly`,
`EventStore.TxKeptExactly`), a displaced pool transaction (`Mempool.InsertAgreesExactly`,
`Executor.ContiguityKeptExactly`).

## Model

| member | source | states |
|---|---|---|
| Priority.MatchIsPriceTime | crates/engine/src/orderbook.rs:117-225 | Against all live orders of the other side ranked by price (highest bid, lowest ask first), then id, each eligible maker gets exactly what is still wanted after all eligible makers ranked before it; nobody else changes; fills come in rank order, each positive, at the maker's own price and within the taker's limit, between different owners and on the taker's side, and account for every size lost; while the taker is left with size every other owner's live order within its limit is used up |
| Priority.NoOneIsSkipped | crates/engine/src/orderbook.rs:138-222 | A maker is touched only if every eligible maker ahead of it, by price then age, is completely filled |
| Priority.SweepWaterfall | crates/engine/src/orderbook.rs:160-210 | In any greedy sweep the k-th maker gets the smaller of its size and what the eligible makers before it leave wanted |
| Priority.SweepFillOrder | crates/engine/src/orderbook.rs:160-210 | Fills follow the order of the makers, each maker filled at most once |
| Priority.MatchLeaves | crates/engine/src/orderbook.rs:117-225 | What a match leaves of the taker is its size less all that eligible makers offered before it, never below 0, and something is offered iff some eligible order is live on the other side |
| Matching.MakersAreTheSide | crates/engine/src/orderbook.rs:128-160 | Flattening the levels best price first gives exactly the side's resting orders in price-time order |
| Matching.SweepExhausts | crates/engine/src/orderbook.rs:160-222 | A taker keeps unfilled size only when every eligible maker has nothing left |
| Matching.SweepPriority | crates/engine/src/orderbook.rs:160-222 | A later maker of a sweep changes only if every eligible earlier one is fully filled |
| Matching.SweepFrame | crates/engine/src/orderbook.rs:160-210 | A sweep only shrinks orders, turns one Filled exactly when it reaches 0, and leaves ineligible and unlisted orders alone |
| Matching.SweepAccounted | crates/engine/src/orderbook.rs:171-210 | Size gone from each maker, and from the taker, equals the fills naming it; every fill carries the maker's price, within the taker's limit, and the two owners, market, side and ids of maker and taker |
| Matching.SweepListsActive | crates/engine/src/orderbook.rs:195-210 | Matching keeps each active list strictly increasing and equal to the market's Active orders |
| OrderBook.OrderbookManager.MatchOrder | crates/engine/src/orderbook.rs:117-225 | The nested level and queue loops over the cached book compute exactly the recursive sweep of the price-time ranking (same fills, same orders, same active lists), or fail with the post-only error exactly when some resting order is acceptable; the book agrees with the state afterwards |
| OrderBook.OrderbookManager.MatchSide | crates/engine/src/orderbook.rs:138-222 | The loop over price levels, best first, with both early exits, equals the sweep of the flattened side and leaves every level right |
| OrderBook.OrderbookManager.MatchLevel | crates/engine/src/orderbook.rs:155-213 | The loop over one level's queue equals the sweep of that queue; the level agrees with the state at every step |
| OrderBook.OrderbookManager.FillMaker | crates/engine/src/orderbook.rs:171-210 | One maker step updates order, active list, level queue and level total together; the total never saturates |
| OrderBook.OrderbookManager.WouldMatch | crates/engine/src/orderbook.rs:228-257 | Looking at the best level alone decides whether any resting order is acceptable |
| OrderBook.WouldTakeByBest | crates/engine/src/orderbook.rs:228-257 | Some resting order is acceptable iff the best price of the other side is |
| OrderBook.OrderbookManager.AddOrder | crates/engine/src/orderbook.rs:67-87 | One level of one side gains the order at its back; everything else is as before |
| OrderBook.OrderbookManager.RemoveOrder | crates/engine/src/orderbook.rs:90-114 | One level of one side loses the order and is dropped when empty; everything else is as before |
| OrderBook.OrderbookManager.GetDepth | crates/engine/src/orderbook.rs:278-303 | The listed levels are the best prices at which orders rest, best first, each with the sum of what rests there; a price is missing only when enough better ones are listed |
| PriceLevels.AgreeingSidesEqual | crates/engine/src/orderbook.rs:48-60 | Orders and active list determine a side of the book: two sides that agree with them are equal |
| PriceLevels.OneLevel | crates/engine/src/orderbook.rs:67-114 | Every live order is queued in exactly one level, at its own side and price; levels are non-empty and strictly increasing in id |
| PriceLevels.RemoveOrderDrops | crates/engine/src/orderbook.rs:33-40 | Removing a queued order cuts its single position and lowers the cached total to the sum of the rest |
| PriceLevels.AgreesAdd | crates/engine/src/orderbook.rs:67-87 | Adding an order to its level keeps queues and totals equal to what orders and list say |
| PriceLevels.AgreesRemove | crates/engine/src/orderbook.rs:90-114 | Removing an order, with its level when that empties, keeps queues and totals right |
| PriceLevels.AgreesShrink | crates/engine/src/orderbook.rs:178-193 | A partial fill lowers the level total by exactly the fill, which it always holds in full |
| PriceLevels.DepthIsSound | crates/engine/src/orderbook.rs:278-303 | A side cut to its best levels lists true totals and leaves out only worse prices |
| Queues.WithoutIsCut | crates/state/src/lib.rs:385-396 | In a strictly increasing list, retaining all but an id removes exactly its one position |
| StateStore.StateManager.constructor | crates/state/src/lib.rs:34-52 | A fresh state is empty and its position index agrees |
| StateStore.StateManager.NextOrderId | crates/state/src/lib.rs:299-306 | Ids come from an increasing counter; at the end of the range the counter stays and an error is returned |
| StateStore.StateManager.AddActiveOrder | crates/state/src/lib.rs:363-382 | The id joins the back of its market's list unless already there |
| StateStore.StateManager.RemoveActiveOrder | crates/state/src/lib.rs:385-396 | Every occurrence of the id leaves its market's list, order kept |
| StateStore.StateManager.SetMarket | crates/state/src/lib.rs:274-277 | The definition is stored and the market listed once |
| StateStore.StateManager.SetPosition | crates/state/src/lib.rs:161-174 | After storing a position the index lists exactly the accounts holding one |
| StateStore.StateManager.DeletePosition | crates/state/src/lib.rs:177-192 | After deleting a position the index lists exactly the accounts holding one |
| Trading.Engine.PlaceOrder | crates/engine/src/services/order_service.rs:14-121 | From any sound state: state and result are those of the book-less exchange, on every path including failed FOK, post-only and failed settlement; the state stays sound, the book, active lists and position index agree with it |
| Trading.Engine.DefineMarket | crates/state/src/lib.rs:274-277 | A market definition enters the state and nothing else moves, book and index still in agreement |
| Trading.Engine.ExecuteOrder | crates/engine/src/services/order_service.rs:70-121 | Match, settle and finish with the live book equal the book-less execution |
| Trading.Engine.MatchAndSettle | crates/engine/src/services/order_service.rs:70-80 | The fills of the match are settled in order; the unfilled size returned is what the match left |
| Trading.Engine.FinishOrder | crates/engine/src/services/order_service.rs:93-120 | The taker is stored Filled, resting or Cancelled by its remaining size and time in force, or not at all on FOK; book and lists follow |
| Trading.Engine.CancelOrder | crates/engine/src/services/order_service.rs:124-156 | Only the owner of an Active order cancels it; it leaves book, list and Active status together, and everything stays sound |
| Outcomes.OrderOutcome | crates/engine/src/services/order_service.rs:54-120 | An admitted order with an id left that is not turned away and whose fills settle takes all that is offered, up to its size: filled it is stored Filled with nothing remaining for every time in force; otherwise good-till-cancelled and post-only rest with what is left, last in the market's list, immediate-or-cancel is stored Cancelled with what is left and in no list, both reporting the id, and fill-or-kill fails unstored; every field stored is the request's |
| Outcomes.OrderRefused | crates/engine/src/services/order_service.rs:24-74 | An order that is not admitted, has no id left, or is post-only against a live order within its limit, its own trader's included, is told so and uses up at most an id |
| Outcomes.OrderStops | crates/engine/src/services/order_service.rs:77-80 | An order whose fills do not all settle fails with the overflow and is stored nowhere; makers stay matched and positions as far as settlement got |
| Outcomes.CancelOutcome | crates/engine/src/services/order_service.rs:123-156 | Cancelling succeeds iff the order is stored, the caller's and Active; Unauthorized iff it is another's, not found iff it is absent or the caller's and not Active; exactly this order turns Cancelled with its size, leaves its list, and nothing else moves; an error changes nothing |
| Outcomes.CloseIsReduction | crates/engine/src/services/position_service.rs:13-57 | Closing is a reduce-only, immediate-or-cancel market order against the position for what is asked, or for all of it when nothing or too much is; without a position it says so |
| Outcomes.CloseOutcome | crates/engine/src/services/position_service.rs:13-57 | Where the market's size limits allow it and everything fits, closing takes from the position exactly the smaller of what is asked and what is offered |
| Trading.Engine.DropOrder | crates/engine/src/services/order_service.rs:143-147 | Taking one order out of book, state and active list keeps them in agreement |
| Trading.Engine.CancelTraderOrders | crates/engine/src/liquidation.rs:236-270 | All of a trader's Active orders in the market, and only those, are cancelled and returned oldest first; everything stays sound |
| Trading.Engine.ClosePosition | crates/engine/src/services/position_service.rs:13-57 | Closing equals the book-less close, from any sound state, and keeps everything sound |
| Trading.Engine.RebuildOrderbookFromState | crates/engine/src/lib.rs:242-264 | From a state that may hold stale list entries: every market's book comes out agreeing with its active list, from which exactly the stale entries are gone |
| Trading.Engine.Restart | crates/engine/src/lib.rs:242-264 | Recovery equals the live book: in every sound state rebuilding gives the same levels, queues and totals and leaves the active lists as they were |
| Recovery.RebuildIsIdentity | crates/engine/src/lib.rs:242-264 | What a completed rebuild of a sound state holds is the live book, and the state stays sound |
| Recovery.RebuildStep | crates/engine/src/lib.rs:248-260 | Each list entry, live, stale or missing, moves the rebuild forward by exactly that entry |
| Trading.IncreasePosition | crates/engine/src/position.rs:11-46 | Step-by-step averaging computes the closed form, with the same overflow errors |
| Trading.UpdatePosition | crates/engine/src/position.rs:66-151 | It goes through iff the listed products stay in u128; then open, flip, increase, reduce and close leave exactly the size, side, entry price, margin and funding index of their branch, each quotient given by its inequalities; otherwise nothing, and no other position moves |
| Trading.ProcessFillInPlace | crates/engine/src/services/order_service.rs:161-188 | Taker first, then maker; an error in between leaves the taker settled and the maker not |
| Trading.ProcessFillsInPlace | crates/engine/src/services/order_service.rs:78-80 | Fills settle in order up to the first error |
| Invariants.ReachableInv | crates/engine/src/services/order_service.rs:14-158 | In every state any run of steps reaches: active lists are exactly the Active orders in id order; remaining is 0 iff Filled and never above the original size; the book is uncrossed between owners; each order's missing size equals the fills naming it; no fill has the same account or order on both sides |
| Invariants.RunInv | crates/engine/src/services/order_service.rs:14-158 | Any run from a sound state ends in a sound state |
| Invariants.NextInv | crates/engine/src/services/order_service.rs:14-158 | Every single step, failing ones included, keeps all of that |
| Invariants.PlaceInv | crates/engine/src/services/order_service.rs:14-121 | Placing keeps it on every path |
| Invariants.LeftoverExhausts | crates/engine/src/orderbook.rs:138-222 | If a match leaves size unfilled, no live order of another owner could still trade with the taker |
| Invariants.RestingUncrossed | crates/engine/src/services/order_service.rs:98-104 | So a remainder that comes to rest, a price-0 market remainder too, leaves the book uncrossed between owners |
| Invariants.MatchedSound | crates/engine/src/orderbook.rs:171-210 | A match keeps order soundness and the fill ledger |
| Invariants.DropInv | crates/engine/src/services/order_service.rs:143-147 | Cancelling an Active order keeps the invariant |
| LevelSizes.RunFitsExactly | crates/engine/src/orderbook.rs:28-40 | Over any run every level total stays in u64, in every state, iff every order that comes to rest finds room in its level as it was before the order |
| LevelSizes.PlaceFitsExactly | crates/engine/src/services/order_service.rs:93-110 | Placing keeps the totals in u64 iff the order does not come to rest (not admitted, kept off the book, fully offered, immediate, or its fills do not settle) or its level's total plus its size less what is offered is below 2^64 |
| LevelSizes.MatchShrinks | crates/engine/src/orderbook.rs:171-210 | A match never adds to a level |
| LevelSizes.CancelOwnedShrinks | crates/engine/src/liquidation.rs:236-270 | Cancelling never adds to a level |
| LevelSizes.RebuildFits | crates/engine/src/lib.rs:242-264 | At every point of a rebuild a level holds at most what the list says, so no addition leaves u64 if the totals fit |
| LevelSizes.RestartFits | crates/engine/src/lib.rs:242-264 | Recovery of a sound state, which keeps the lists, keeps what fits |
| LevelSizes.CachedTotalsFit | crates/engine/src/orderbook.rs:28-40 | The totals fit iff all cached totals of the book do |
| LevelSizes.TwoMarketBuysOverfill | crates/engine/src/orderbook.rs:28-40 | Two price-0 buys of 2^63 on an empty market are admitted without margin and rest at one level, which then holds 2^64; there a wrapped total makes the saturating subtraction saturate |
| History.RunExtends | crates/engine/src/services/order_service.rs:14-158 | Over any run no order is lost or rewritten, none grows, Filled and Cancelled are never left, ids only move forward and the fill log is only appended to |
| History.NextExtends | crates/engine/src/services/order_service.rs:14-158 | The same for each single step |
| History.CancelTraderClears | crates/engine/src/liquidation.rs:236-270 | Cancelling a trader's orders turns exactly their Active orders of the market Cancelled, keeps the state sound, and moves nothing but orders and lists |
| AccountRuns.ReachedPositionsMargined | crates/engine/src/position.rs:11-151 | In any run of placing, closing, cancelling, liquidating and deleveraging with one initial margin ratio, every position's margin covers size * entry price * ratio but for one unit per opening or increase since it was last opened or flipped, and its entry price lies between the lowest and highest price the account traded at |
| AccountRuns.RunExact | crates/engine/src/position.rs:66-151 | After any run each position is what the account's own history, its sides of the fills settled and its forced cuts in order, makes of the one before |
| AccountRuns.FillsExact | crates/engine/src/services/order_service.rs:78-80 | Settlement, stopped by an error or not, moves each account by its own sides of the fills reached only |
| AccountRuns.RunLogged | crates/engine/src/orderbook.rs:171-210 | Every trade of such a history is one side of a logged fill of the account |
| AccountRuns.LiquidationForced | crates/engine/src/liquidation.rs:306-428 | A liquidation, finished or not, is a run that cancels the trader's orders and forces positions down |
| PositionRuns.RunMargined | crates/engine/src/position.rs:11-151 | For any sequence of trades and forced cuts of one account: (margin + k) * 10000 >= size * entry price * ratio, k counting openings and increases since the position was last opened or flipped |
| PositionRuns.RunEntryWithin | crates/engine/src/position.rs:11-46 | The entry price stays within the range of the prices traded |
| PositionRuns.ApplyMargined | crates/engine/src/position.rs:66-151 | Each single trade, cut or failed update keeps the margin bound |
| PositionRuns.AverageBetween | crates/engine/src/position.rs:25-33 | The floored average lies between the two prices, so its cast to u64 loses nothing |
| PositionRuns.ReduceShare | crates/engine/src/position.rs:107-128 | The double floor of a reduction takes no more than the traded share of the margin |
| PositionRuns.CutShare | crates/engine/src/liquidation.rs:386-392 | The single floor of a forced cut takes no more than the cut share of the margin |
| PositionRuns.TradeIsExact | crates/engine/src/position.rs:66-151 | A successful trade moves the signed position by exactly its signed size, iff adding to a position does not overflow u64 |
| PositionRuns.ReducingTrade | crates/engine/src/position.rs:87-130 | A trade against a position no larger than it leaves the side and entry price and takes exactly its size, or closes |
| PositionRuns.TradedExactly | crates/engine/src/position.rs:11-151 | What a trade leaves, branch by branch: opened and flipped to, the whole size at the trade's price with the floored initial margin; added to, the floored average price and added margin; reduced, the twice-floored share of the margin released; closed, nothing |
| PositionRuns.ForcedDownExactly | crates/engine/src/liquidation.rs:371-395 | A forced cut goes through iff it takes all or the margin times the cut stays in u128; it releases exactly the floored share of the margin and keeps side, entry price and funding index, or deletes the position |
| TradeLimits.TradeFitsExactly | crates/engine/src/position.rs:11-151 | A position update goes through iff the listed products and sums of its branch stay in u128 |
| TradeLimits.TradeMoves | crates/engine/src/position.rs:11-151 | What an update adds to the signed size on all inputs: the trade, less 2^64 of its sign when the u64 sum wraps, nothing when it does not go through |
| TradeLimits.RoomSettles | crates/engine/src/position.rs:66-151 | One bound under which an update of any branch goes through without wrapping |
| OpenInterest.FillKeepsNet | crates/engine/src/services/order_service.rs:161-188 | A fill between two accounts keeps longs equal to shorts in every market iff it is not left half settled (the taker's arithmetic fits, the maker's does not) and does not wrap exactly one side's u64 size |
| OpenInterest.FillMovesNet | crates/engine/src/services/order_service.rs:161-188 | Whatever overflows or wraps, a fill moves its market's net size by exactly its drift and no other market's |
| OpenInterest.HalfSettledExample | crates/engine/src/services/order_service.rs:161-188 | A concrete fill whose maker update overflows after the taker's went through |
| OpenInterest.WrapExample | crates/engine/src/position.rs:25-46 | A concrete fill after which a holder of 2^63 contracts who bought 2^63 more holds none and the net is off by 2^64 |
| OpenInterest.RoomKeepsNet | crates/engine/src/services/order_service.rs:161-188 | With room on both sides, checkable before the fill, it settles whole and keeps the net |
| OpenInterest.SettlesExactly | crates/engine/src/services/order_service.rs:78-80 | The fills of a match settle to the end iff the arithmetic of every update on the way fits |
| OpenInterest.RunMovesNet | crates/engine/src/services/order_service.rs:14-188 | Over any run the net size of a market moves by exactly the sum of the drifts of its steps |
| OpenInterest.RunKeepsNet | crates/engine/src/services/order_service.rs:14-188 | Any run of trading steps whose fills neither stop half way nor wrap one side keeps the net size of every market |
| OpenInterest.OpenInterestBalanced | crates/engine/src/services/order_service.rs:14-188 | From the empty exchange the net size is the sum of the drifts, and 0 after every orderly run |
| ReduceOnly.ReduceOnlyNeverFlips | crates/engine/src/risk.rs:192-207 | An admitted reduce-only order, as taker, leaves the position on its side, smaller by exactly the fill total (by a part of it if settlement fails), or closed; never by more than the order |
| ReduceOnly.CloseNeverFlips | crates/engine/src/services/position_service.rs:13-57 | Closing, admitted or not, never grows or flips the position and never takes more than asked |
| ReduceOnly.ReducingFills | crates/engine/src/services/order_service.rs:78-80 | Any run of opposing fills within the position's size only takes size from it |
| RestingReduceOnly.MakerReducesExactly | crates/engine/src/services/order_service.rs:161-188 | A fill that settles on its maker without wrapping only reduces the maker's position iff the reduce-only test passes for the size filled against the position as it is then |
| RestingReduceOnly.RestingOrderOpensExample | crates/engine/src/services/order_service.rs:14-121 | A run in which a resting reduce-only sell, its owner having closed meanwhile, is bought by a stranger and opens a short |
| Admission.AdmittedExactly | crates/engine/src/services/order_service.rs:24-52 | What is wrong first is reported: no market, price off the tick or size out of limits, a listed product beyond u128, the unrounded margin inequality against the balance beyond the locked margin, the leverage bound, a reduce-only order that does not fit its position; an order with none of these is admitted |
| Admission.LockedShare | crates/engine/src/risk.rs:150-166 | Against a reducing order at least the remaining share of the position margin stays locked, never more than all of it |
| Admission.LockedExactly | crates/engine/src/risk.rs:132-166 | The margin locked is all of it under an order on the position's side, what the reduced part does not free under one against it, and is computable iff the freeing product stays in u128 |
| Admission.MarketOrderExactly | crates/engine/src/risk.rs:132-190 | A price-0 order is admitted iff market and size are right, the product freeing locked margin stays in u128 and a reduce-only one fits: no margin and no leverage are asked |
| Liquidation.LiquidationIsThreshold | crates/engine/src/liquidation.rs:733-752 | A long liquidatable at a price is liquidatable at every lower positive price, a short at every higher one, without new overflow |
| Liquidation.ThresholdThroughTicks | crates/types/src/state.rs:103-108 | Through rounding the mark price to the tick the threshold holds iff the new price does not round to 0 |
| Liquidation.NormalizeMonotone | crates/types/src/state.rs:103-108 | Rounding keeps the order of two prices iff half a tick can be added to the higher one in u64, or the lower one rounds to 0 anyway |
| Liquidation.NormalizeNear | crates/types/src/state.rs:103-108 | Rounding gives the nearest multiple of the tick, the upper of two equally near, iff half a tick can be added in u64, and 0 otherwise; it leaves a price alone iff moreover it is on the tick, or there is no tick |
| Liquidation.NormalizeZeroExactly | crates/types/src/state.rs:103-108 | A price rounds to 0 iff it is below half a tick or adding half a tick wraps |
| Liquidation.ShortEscapesByOverflow | crates/types/src/state.rs:103-108 | A short liquidated at one price and not at a higher one, because rounding that one wraps to 0 |
| Liquidation.ShouldLiquidateExact | crates/engine/src/liquidation.rs:708-752 | The floored ratio test decides the unrounded inequality between equity and maintenance exactly |
| Liquidation.ShouldLiquidateFits | crates/engine/src/liquidation.rs:708-752 | The test gives an answer iff equity and scaled equity stay in u128, and says no to an empty position |
| Liquidation.CheckLiquidationFits | crates/engine/src/risk.rs:213-259 | The risk engine's test gives an answer iff the requirement and the equity stay in u128 |
| Liquidation.TestsDifferExactly | crates/engine/src/risk.rs:213-259 | The risk engine's test implies the liquidation engine's; they differ iff equity equals the floored requirement and the division has a remainder |
| Liquidation.Pnl | crates/engine/src/position.rs:163-193 | Magnitude and flag together are the signed profit |
| Liquidation.Equity | crates/engine/src/liquidation.rs:120-135 | Equity is margin plus profit, not below 0, and fails only beyond u128 |
| Liquidation.PartialSizeExact | crates/engine/src/liquidation.rs:448-527 | Of a position the engine liquidates something is taken iff equity is below the wanted equity, whose ratio is added in u32, and the formula or the minimum asks for something; whenever equity is short, at least the minimum or all is taken, leaving nothing or a tradable rest |
| Liquidation.PartialSizeLeast | crates/engine/src/liquidation.rs:448-527 | Whenever equity is short of the wanted ratio of the value, the size taken is the smallest that is no less than the formula's size, as cast to u64, a tenth and the minimum order, and leaves nothing or a tradable rest; otherwise nothing is taken |
| Liquidation.NeededExists | crates/engine/src/liquidation.rs:464-510 | These amounts exist for every position, positive price and market |
| Liquidation.PartialSizeUnpriced | crates/engine/src/liquidation.rs:448-462 | Without a price or a size all of the position is the answer |
| Liquidation.PartialSizeFits | crates/engine/src/liquidation.rs:448-527 | The size is computable iff equity, the wanted equity's product and the scaled deficit stay in u128 |
| Liquidation.PartialSizeSound | crates/engine/src/liquidation.rs:448-527 | Whenever equity is short at least the formula's size, as cast to u64, or all is taken; with a fee that covers the buffer the cast loses nothing; equity is short for every position worth 50 or more unless the wanted ratio wraps in u32 |
| Liquidation.CastLosesSize | crates/engine/src/liquidation.rs:486-497 | A concrete position and market for which the formula asks for 2^65, the cast makes that 0 and a tenth is taken |
| Liquidation.WrappedTargetUntouched | crates/engine/src/liquidation.rs:466-476 | A concrete market whose wanted ratio wraps to 199: a liquidatable position from which nothing is taken |
| Liquidation.AdlTakenExactly | crates/engine/src/liquidation.rs:554-572 | What one candidate gives keeps within the budget iff collected plus its value stays in u128; then less than one mark price is missing or all of it is taken, and past u128 all of it is |
| Liquidation.AdlPlanExactly | crates/engine/src/liquidation.rs:551-578 | More than required is collected iff some sum reached leaves u128; otherwise less than one mark price is missing or every candidate is taken whole; never more than a candidate has, whatever wraps |
| Liquidation.AdlPlanInOrder | crates/engine/src/liquidation.rs:551-578 | As long as no sum leaves u128 nobody gives anything before all who rank ahead have given everything |
| Liquidation.AdlPlanAtZero | crates/engine/src/liquidation.rs:551-578 | At a price of 0 everyone is taken whole |
| Liquidation.BudgetOverrunExample | crates/engine/src/liquidation.rs:551-578 | Two positions of 2^64-1 at mark 2^64-1 with 2^128-1 required: both are taken whole and about twice the budget is collected |
| Deleveraging.OverrunCandidates | crates/engine/src/liquidation.rs:584-641 | The two positions of that overrun are candidates, at score 0 |
| Liquidation.TinyPositionUntouched | crates/engine/src/liquidation.rs:482-485 | A liquidatable position below that value from which nothing is taken |
| Liquidation.NoMinimumUntouched | crates/engine/src/liquidation.rs:495-510 | Another: no minimum order size, a small position and a formula size below 1 |
| Liquidation.SmallBranchDead | crates/engine/src/liquidation.rs:514-517 | The branch for results below the minimum order size cannot be reached |
| Deleveraging.AutoDeleverage | crates/engine/src/liquidation.rs:530-582 | Exactly the non-losing positions are cut by the plan, in non-increasing profit times leverage where the casts hold, each releasing its floored share of the margin, and nothing else moves; at most the required amount is collected iff no reached sum leaves u128, and then nobody gives before all ranked ahead gave everything; it succeeds iff all scores, the plan and the cuts are computable; whatever the outcome, it is a run that only forces positions down |
| Deleveraging.FindCandidates | crates/engine/src/liquidation.rs:585-640 | All and only the market's non-losing positions, each once, with size and score; it succeeds iff each of them has a computable score |
| Deleveraging.ScoreForm | crates/engine/src/liquidation.rs:600-630 | A non-losing position has a score iff equity, scaled value and the product of the signed casts fit; it is that product, and 0 without equity |
| Deleveraging.ScoreExactly | crates/engine/src/liquidation.rs:600-630 | A score is the profit times the floored leverage iff one of them is 0 or both are below 2^127 |
| Deleveraging.DescendingIsRanked | crates/engine/src/liquidation.rs:545-546 | In descending score no candidate comes before one of higher profit times leverage, where the casts hold |
| Deleveraging.WrappedScoreExample | crates/engine/src/liquidation.rs:611-627 | A profit of 2^127 and more counts as a loss and ranks behind a position that broke even |
| Deleveraging.ExecuteAdl | crates/engine/src/liquidation.rs:643-681 | One position releases exactly its floored share of the margin or is deleted; unchanged iff the product overflows |
| Deleveraging.SortKeepsCandidates | crates/engine/src/liquidation.rs:545-546 | Sorting by score keeps who the candidates are |
| LiquidationEngine.Liquidator.RebuildRiskIndex | crates/engine/src/liquidation.rs:194-220 | It succeeds iff every non-empty position's ratio is computable, and then there is one entry for each such account at its current ratio, whatever order the holders come in; after the overflow the entries are some of these, each once |
| LiquidationEngine.Liquidator.GetAtRiskPositions | crates/engine/src/liquidation.rs:223-232 | Exactly the indexed accounts below the threshold |
| LiquidationEngine.FilteredIndexIsLiquidatable | crates/engine/src/liquidation.rs:194-232 | A current index filtered at the maintenance ratio lists an account iff the liquidation test accepts it |
| LiquidationEngine.Liquidator.LiquidateWithIncentive | crates/engine/src/liquidation.rs:279-445 | Only accepted accounts are touched; then, on every path, exactly their orders are cancelled and no other position moves; on success the position has released exactly its share of the margin and fee, reward, fund and refund are as defined; it succeeds iff price and market are there and test, amounts, cut and payouts stay in u128, and after the overflow the settlement has stopped at a known place; it is a run of the exchange, and book, lists and index stay sound |
| LiquidationEngine.Liquidator.Settle | crates/engine/src/liquidation.rs:310-444 | The amounts, the fund and all balances after a settlement, and a position that released exactly its share of the margin; it succeeds iff amounts, cut and payouts stay in u128; after the overflow it has stopped at the amounts, at the position, or between reward, contribution and refund, with fund, position and balances as each of these leaves them |
| LiquidationEngine.Liquidator.Cover | crates/engine/src/liquidation.rs:314-368 | All amounts as defined, and the fund lowered by its share of the shortfall; on an error the funds are untouched |
| LiquidationEngine.Liquidator.TakeDown | crates/engine/src/liquidation.rs:371-395 | The position releases exactly its floored share of the margin or is deleted, or is unchanged iff the product overflows; no other moves |
| LiquidationEngine.Liquidator.Distribute | crates/engine/src/liquidation.rs:397-428 | Balances move by the reward and the refund only and the fund by the contribution; on an overflow nothing, the reward, or reward and contribution have been paid |
| LiquidationEngine.Liquidator.LiquidateEach | crates/engine/src/liquidation.rs:772-778 | Accounts liquidatable at the start, each listed once, all give a result when their turn comes, or there is an overflow; the whole is a run of the exchange |
| LiquidationEngine.Liquidator.ProcessLiquidationBatch | crates/engine/src/liquidation.rs:756-781 | With a current index and a non-zero price that rounds to itself the listed accounts are exactly the liquidatable ones, each once, and exactly min(limit, their number) results come back, in that order, or there is an overflow |
| Funding.PaymentExact | crates/engine/src/funding.rs:125-153 | A payment is defined iff size times the wrapped index difference fits in i128, and is the signed exposure's share of the true index move, truncated toward zero, iff that move fits in i128 or the size is 0 |
| Funding.OppositesCancel | crates/engine/src/funding.rs:125-153 | A long and a short of equal size pay and receive the same |
| Funding.SplitMoves | crates/engine/src/funding.rs:125-153 | Charging an index move in two parts changes a payment by at most 1 iff the two wrapped moves together fit in i128, or the size is 0 |
| Funding.WrappedMoveExample | crates/engine/src/funding.rs:125-153 | An index that rises by 2^127: the difference wraps, and the long that owes the payment is paid it |
| Funding.FundingNetsOut | crates/engine/src/funding.rs:125-153 | Over any holdings with balanced sizes and one entry index, payments sum to less than their number in absolute value |
| VersionedStore.ReadVersionExact | crates/state/src/rocksdb_storage.rs:640-681 | Under any history of commits and prunes a read is served from the newest version at or before it iff that version was not pruned (or there is none) |
| VersionedStore.ReadIsReplay | crates/state/src/rocksdb_storage.rs:640-681 | Such a read equals replaying all commits up to its version |
| VersionedStore.ReplayServes | crates/state/src/rocksdb_storage.rs:210-259 | Replaying gives each key the value of its newest write at or before the version |
| VersionedStore.ShortcutIsScan | crates/state/src/rocksdb_storage.rs:649-680 | Without pruning, the latest-version shortcut and the backward scan find the same version |
| VersionedStore.PruningLosesLiveValue | crates/state/src/rocksdb_storage.rs:343-383 | A concrete history in which pruning makes a live value unreadable |
| VersionedStore.RocksDbStorage.Get | crates/state/src/rocksdb_storage.rs:142-158 | A buffered write is seen first; otherwise the read equals the replay whenever its serving version was kept |
| VersionedStore.RocksDbStorage.GetValueOption | crates/state/src/rocksdb_storage.rs:640-681 | Shortcut, then scan, as defined |
| VersionedStore.RocksDbStorage.ScanBackwards | crates/state/src/rocksdb_storage.rs:667-680 | The loop stops at the newest stored version |
| VersionedStore.RocksDbStorage.Set | crates/state/src/rocksdb_storage.rs:164-172 | The write is buffered over any earlier one |
| VersionedStore.RocksDbStorage.Delete | crates/state/src/rocksdb_storage.rs:191-198 | Only the buffered write is dropped, against the comment: the key reads as absent iff nothing is committed for it |
| VersionedStore.RocksDbStorage.Commit | crates/state/src/rocksdb_storage.rs:210-280 | The buffer becomes one more commit of the history at this version; database, shortcut records and pruning stay in agreement with it |
| VersionedStore.RocksDbStorage.PruneBeforeVersion | crates/state/src/rocksdb_storage.rs:314-383 | Exactly the values below the cutoff whose version is not a multiple of the snapshot interval go; the others keep their values |
| VersionedStore.RocksDbStorage.Reopen | crates/state/src/rocksdb_storage.rs:122-134 | Reopening gives back the last committed version and, for every key whose serving version was kept (all of them without pruning), exactly the last committed value |
| ByteKeys.KeyRoundTrip | crates/engine/src/event_store_key.rs:62-71 | Decoding an encoded key gives it back, so the encoding is injective |
| ByteKeys.PrefixSelects | crates/engine/src/event_store_key.rs:73-110 | A key carries the prefix of a block (transaction) iff it is an index key of that block (transaction) |
| ByteKeys.PrefixContiguous | crates/engine/src/event_store_key.rs:92-110 | In ascending byte order keys sharing a prefix are contiguous |
| ByteKeys.ScanSeesPrefix | crates/engine/src/event_store.rs:304-348 | A seek followed by a stop at the first other key has seen every key with the prefix |
| ByteKeys.LeRoundTrip | crates/engine/src/event_store_key.rs:97-101 | Little-endian bytes of a number that fits read back as the number |
| ByteKeys.LeDigit | crates/engine/src/event_store_key.rs:97-101 | Byte i of an encoded number is its digit of 256^i, least significant first |
| ByteKeys.KeyLayout | crates/engine/src/event_store_key.rs:62-110 | Which bytes of a key are its tag, height, transaction and index |
| EventStore.RangeIsFilter | crates/engine/src/event_store.rs:121-137 | Collecting block by block gives exactly the log's events of the range, as a multiset |
| EventStore.RangeAscends | crates/engine/src/event_store.rs:121-137 | The range comes lower heights first, and each block in log order |
| EventStore.BlockComplete | crates/engine/src/event_store.rs:303-349 | What a block scan collects is exactly what is kept of the block's events, each once |
| EventStore.TxComplete | crates/engine/src/event_store.rs:354-408 | What a transaction scan collects has one event for each index the transaction has in the log, of those with that index the first in byte order |
| EventStore.TxKeptExactly | crates/engine/src/event_store.rs:354-413 | That is all of the transaction's events iff no two logged ones share an index, in whatever blocks they are |
| EventStore.KeptIsNewest | crates/engine/src/event_store.rs:235-265 | What is kept of a log is exactly the newest event of every key of height, transaction and index |
| EventStore.KeptExactly | crates/engine/src/event_store.rs:235-265 | A log keeps everything iff no key repeats, and otherwise loses some event |
| EventStore.RangeKeptExactly | crates/engine/src/event_store.rs:296-352 | A range of blocks loses nothing iff no key repeats in it |
| EventStore.PutHolds | crates/engine/src/event_store.rs:235-265 | Writing any event keeps the database holding exactly the three entries of every event kept, the new one in place of an earlier one with its key |
| EventStore.InMemoryEventStore.AppendOne | crates/engine/src/event_store.rs:102-119 | Both index lists keep naming exactly the matching events in log order |
| EventStore.InMemoryEventStore.GetByBlockRange | crates/engine/src/event_store.rs:121-137 | The events of each block of the range, in log order |
| EventStore.InMemoryEventStore.GetByTx | crates/engine/src/event_store.rs:139-149 | The transaction's events in log order |
| EventStore.RocksDbEventStore.Flush | crates/engine/src/event_store.rs:227-276 | The buffer moves to the end of the log; entries and count follow |
| EventStore.RocksDbEventStore.Append | crates/engine/src/event_store.rs:285-294 | Nothing is lost between buffer and log, repeated keys or not; a full buffer is flushed |
| EventStore.RocksDbEventStore.GetCount | crates/engine/src/event_store.rs:268-269 | The stored count is the number of flushed events |
| EventStore.RocksDbEventStore.GetByBlock | crates/engine/src/event_store.rs:303-349 | Exactly what is kept of the block's events |
| EventStore.RocksDbEventStore.GetByBlockRange | crates/engine/src/event_store.rs:296-352 | Exactly what is kept of the range's events; the same multiset the in-memory store returns iff no key repeats in the range |
| EventStore.RocksDbEventStore.FindEvent | crates/engine/src/event_store.rs:376-397 | A logged event with this transaction and index, the first in byte order of those there are |
| EventStore.RocksDbEventStore.GetByTx | crates/engine/src/event_store.rs:354-413 | One event for each index of the transaction, strictly ascending; all of its events iff no two share an index |
| Mempool.InsertAgreesExactly | crates/mempool/src/transaction_index.rs:23-31 | Insertion keeps the two indexes in agreement iff no other transaction holds the sender's nonce |
| Mempool.InsertOrphans | crates/mempool/src/transaction_index.rs:23-31 | Inserting over such a one leaves it in the hash index only |
| Mempool.RemoveAgrees | crates/mempool/src/transaction_index.rs:34-45 | Removal keeps agreement and takes exactly one hash and one nonce |
| Mempool.BySenderComplete | crates/mempool/src/transaction_index.rs:67-77 | A sender's listing is exactly its pooled transactions, by strictly ascending nonce |
| Mempool.PruneAgrees | crates/mempool/src/transaction_index.rs:107-127 | Pruning agreeing indexes drops exactly the sender's transactions up to the bound |
| Mempool.TransactionIndex.Insert | crates/mempool/src/transaction_index.rs:23-31 | The hash index gains the transaction and the sender index its nonce; every other entry of both is as before |
| Mempool.TransactionIndex.Remove | crates/mempool/src/transaction_index.rs:34-45 | The hash index loses the hash and the sender index its nonce; every other entry of both is as before; an emptied sender goes |
| Mempool.TransactionIndex.RemoveUpToNonce | crates/mempool/src/transaction_index.rs:107-127 | Whether or not the indexes agree: nonces up to the bound go with their hashes, and what was pooled under them is returned; with agreeing indexes, by ascending nonce |
| Mempool.Pool.Add | crates/mempool/src/lib.rs:68-106 | Accepted iff there is capacity, no duplicate and room for the sender, errors in that order; both limits are kept |
| Mempool.Pool.ReadyTxs | crates/mempool/src/lib.rs:139-146 | As many as the limit allows, from the front, of all senders' listings one after the other, for some order of the senders |
| Executor.SuccessesAreConsecutive | crates/exec/src/tx_executor.rs:60-107 | A sender's successes carry consecutive nonces from the stored one, which moves on by their number; both modulo 2^64 |
| Executor.NoReplay | crates/exec/src/tx_executor.rs:60-107 | Of two successes of a sender the later nonce is ahead of the earlier by one more than the successes in between, modulo 2^64: larger unless the nonce wraps, different unless 2^64 succeed in a row |
| Executor.SucceedsExactly | crates/exec/src/tx_executor.rs:94-107 | An authorized, applicable transaction succeeds iff its nonce is the stored one moved on by the sender's earlier successes |
| Executor.BatchesAreOneRun | crates/exec/src/tx_executor.rs:75-92 | Batches executed one after the other behave as one run |
| Executor.ReadyExecutes | crates/mempool/src/lib.rs:139-146 | From agreeing indexes without nonce gaps, everything the pool hands out executes and leaves it, and agreement and gap-freedom are kept, for every sender order and limit |
| Executor.EverythingExecutes | crates/mempool/src/lib.rs:139-146 | With a large enough limit the pool is empty afterwards |
| Executor.ContiguityKeptExactly | crates/exec/src/tx_executor.rs:67-68 | A success leaves no gap iff the pool held no other transaction at that nonce |
| Executor.SortedCounts | crates/mempool/src/transaction_index.rs:67-77 | Gap-free nonces, listed in order, count up from the stored nonce |
| OrderTransactions.OrderTransaction | crates/exec/src/tx_executor.rs:60-72 | Executing an order transaction moves nonces and pool as the executor says and keeps the exchange sound; signature, nonce and payload errors are told apart, only a due authorized one reaches the exchange, and unless it succeeds, nonce and pool are untouched and it is offered again |
| OrderTransactions.RunOfEntries | crates/exec/src/tx_executor.rs:75-92 | Over any run of entries, undecodable ones included, the exchange stays sound and makes exactly the placing steps of the authorized entries that were due; nonces and pool follow the executor |
| OrderTransactions.BatchesOfOrders | crates/exec/src/tx_executor.rs:75-92 | Batches one after the other are one run of exchange, nonces and pool; a sender's successes carry consecutive nonces and move its stored one by their number |
| OrderTransactions.FailedOrderExactly | crates/engine/src/services/order_service.rs:57-116 | A failed order leaves the exchange as it was, but for a used-up id, iff it is not admitted, has no id left, is post-only against an acceptable price, or no eligible order of another owner is live on the other side |
| OrderTransactions.TradesExactly | crates/engine/src/services/order_service.rs:24-80 | An order logs a fill iff it is admitted, has an id, is not turned away as post-only, and another owner offers at a price it accepts |
| OrderTransactions.FillOrKillKeepsFills | crates/engine/src/services/order_service.rs:111-116 | An admitted fill-or-kill order to which less than its size is offered fails, with the not-filled error iff its fills settle, and takes exactly what is offered: makers shrunk, positions traded, fills logged |
| OrderTransactions.FillOrKillExample | crates/engine/src/services/order_service.rs:111-116 | One ask of one contract and a fill-or-kill market buy of two |
| Executor.TransactionExecutor.Execute | crates/exec/src/tx_executor.rs:60-72 | Signature, nonce, payload in that order, a nonce too low or too high reported with both numbers; only a full success moves the nonce and empties the pool slot |
| Executor.TransactionExecutor.VerifyNonce | crates/exec/src/tx_executor.rs:94-107 | Equal, below or above the stored nonce, with both numbers reported |
| Executor.TransactionExecutor.ExecuteBatch | crates/exec/src/tx_executor.rs:75-92 | Each entry in order; the counters are the number of entries that succeed when their turn comes and of the rest |

## Left out

Assumptions the model makes:

- Deleting a position or an active-order key is modelled in the engine as removing it from its map. The store's own delete only drops the buffered write, as `VersionedStore.RocksDbStorage.Delete` shows, so a deletion of a committed key does not survive in the code as it stands.
- RocksDB is a byte-keyed map iterated in ascending byte order; writes do not fail. Key and transaction hashes are injective.
- Signature checking and the outcome of a transaction's payload are parameters of each attempt.
- Sums the code leaves unchecked wrap, as in a release build without overflow checks; a build with them stops there instead.
- Each request holds its locks for the whole step, so steps are sequential.
- Orders of iteration the code leaves open (hash maps, the risk heap, senders of the pool) are arbitrary in the model.

Contracts weaker than the code or its promise:

- OpenInterest.OpenInterestBalanced: balance itself is promised of orderly runs, and of the others the exact drift; liquidation and deleveraging shrink one side only and enter as steps whose drift is whatever they move.
- AccountRuns.ReachedPositionsMargined: liquidation and deleveraging enter the run as steps that force positions down and set balances freely; that their methods are such runs is part of their contracts.
- PriceLevels.AgreesAdd: a level's total is an unbounded number; `LevelSizes.RunFitsExactly` says when the code's u64 total is the same, and `LevelSizes.TwoMarketBuysOverfill` when it is not.
- OrderBook.OrderbookManager.AddOrder: the same, and the caches `orders` and `orders_by_market` are not modelled.
- Trading.Engine.RebuildOrderbookFromState: the active lists are increasing and hold orders of their own market, as in every state a run reaches.
- VersionedStore.RocksDbStorage.Commit: versions do not decrease, and are unbounded numbers.
- RestingReduceOnly.MakerReducesExactly: the fill is one that settles on both sides and whose sizes do not wrap; `TradeLimits.TradeFitsExactly` and `OpenInterest.FillKeepsNet` cover the others.
- Executor.TransactionExecutor.Execute: the payload's outcome is a parameter; `OrderTransactions` supplies it for payloads that place an order.

Not modelled:

- The fill total of an order in u64, which never exceeds the order; the flushed-event counter and a fund's total payouts, which are unbounded numbers here.
- `OrderbookManager.orders` and `orders_by_market`: caches that matching neither reads nor cleans; the model's book is `bids` and `asks`.
- The persisted position index and rebuilding it on start; the in-memory index is modelled.
- Price levels are values held by the book's map rather than shared objects; nothing in the code aliases them.
- Funding rate calculation and the funding index update, liquidation price, cross margin, withdrawal checks, order modification, stop orders.
- Insurance fund health, fee-split configuration, bridge, deposits and transfers, agents: balances change arbitrarily between trading steps.
- `update_risk_index` for one account, which appends a second entry for an account already indexed; only the rebuilt index is modelled.
- Emitted domain events of the engine, event queries by address, serialization of values.
- Merkle tree nodes and roots, snapshots' contents, restoring from snapshots, backups, index_manager.rs.
- Signatures and hashing, servers, sequencer, metrics, read-only sync: no invariant of the trading core.
