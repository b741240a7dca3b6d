// The live order book: price levels updated in place while orders come, match and go.
module OrderBook {
  import opened Types
  import opened Queues
  import opened Matching
  import opened PriceLevels
  import opened Exchange
  import opened Invariants
  import opened StateStore

  // Everything a maker step relies on: sound lists, live sizes, and one side of the book under `level`.
  ghost predicate SideReady(side: Side, orders: OrderMap, active: ActiveLists, market: u32, isBuy: bool) {
    && ListsActive(orders, active)
    && (forall x :: x in orders && orders[x].status == Active ==> orders[x].remaining > 0)
    && SideAgrees(side, orders, ActiveOf(active, market), isBuy)
  }

  // All the other sides, of this market and of every other.
  ghost predicate ElsewhereAgrees(bids: Book, asks: Book, orders: OrderMap, active: ActiveLists, market: u32,
                                  isBuy: bool) {
    forall m: u32, b: bool :: (m, b) != (market, isBuy) ==> AgreesAt(bids, asks, orders, active, m, b)
  }

  // The price level as the maker step leaves it.
  function TouchedLevel(level: PriceLevel, id: u64, size: u64, left: nat): (r: PriceLevel) {
    if left == 0 then level.RemoveOrder(id, size) else level.(total := SaturatingSub(level.total, size))
  }

  lemma TouchSide(side: Side, price: u64, level: PriceLevel, sw: Sweep, taker: Order, id: u64, size: u64, sw': Sweep)
    requires SideReady(PutLevel(side, price, level), sw.orders, sw.active, taker.market, !taker.isBuy)
    requires id in ActiveOf(sw.active, taker.market) && Rests(sw.orders, id, !taker.isBuy, price)
    requires sw.remaining > 0 && Eligible(taker, sw.orders[id]) && size == Min(sw.remaining, sw.orders[id].remaining)
    requires sw' == Touch(sw, taker, id)
    ensures size > 0 && level.total >= size
    ensures SideAgrees(PutLevel(side, price, TouchedLevel(level, id, size, sw.orders[id].remaining - size)),
                       sw'.orders, ActiveOf(sw'.active, taker.market), !taker.isBuy)
  {
    var patched, ids := PutLevel(side, price, level), ActiveOf(sw.active, taker.market);
    var o := sw'.orders[id];
    assert Increasing(ids);
    hide ListsActive, SideAgrees, Increasing, QueueAt;
    AgreesShrink(patched, sw.orders, ids, id, o);
    if o.remaining == 0 {
      AgreesRemove(patched, sw.orders, ids, id, o);
      assert RemoveFromSide(patched, price, id, size) == PutLevel(side, price, level.RemoveOrder(id, size));
    } else {
      assert Lowered(patched, price, size) == PutLevel(side, price, level.(total := level.total - size));
    }
  }

  lemma TouchElsewhere(bids: Book, asks: Book, sw: Sweep, taker: Order, id: u64, sw': Sweep)
    requires ElsewhereAgrees(bids, asks, sw.orders, sw.active, taker.market, !taker.isBuy)
    requires id in sw.orders && sw.orders[id].market == taker.market && sw.orders[id].isBuy != taker.isBuy
    requires ListsActive(sw.orders, sw.active)
    requires sw' == Touch(sw, taker, id)
    ensures ElsewhereAgrees(bids, asks, sw'.orders, sw'.active, taker.market, !taker.isBuy)
  {
    forall m: u32, b: bool | (m, b) != (taker.market, !taker.isBuy)
      ensures AgreesAt(bids, asks, sw'.orders, sw'.active, m, b)
    {
      var side, ids := SideOf(if b then bids else asks, m), ActiveOf(sw.active, m);
      assert AgreesAt(bids, asks, sw.orders, sw.active, m, b);
      var o := sw'.orders[id];
      if m != taker.market {
        assert id !in ids;
        AgreesStore(side, sw.orders, ids, b, id, o);
        assert sw' != sw ==> sw'.orders == sw.orders[id := o];
      } else if sw' != sw {
        AgreesOtherSide(side, sw.orders, ids, b, id, o);
      }
    }
  }

  // Looking at the best level is enough to see whether any resting order is acceptable.
  lemma WouldTakeByBest(side: Side, s: State, order: Order)
    requires SideAgrees(side, s.orders, ActiveOf(s.active, order.market), !order.isBuy)
    ensures WouldTake(s, order) <==> side.Keys != {} && Accepts(order, BestOf(!order.isBuy, side.Keys))
  {
    var ids := ActiveOf(s.active, order.market);
    SideKeys(side, s.orders, ids, !order.isBuy);
    if x :| x in ids && x in s.orders && s.orders[x].isBuy != order.isBuy && Accepts(order, s.orders[x].price) {
      assert s.orders[x].price in side.Keys;
    }
    if side.Keys != {} {
      assert BestOf(!order.isBuy, side.Keys) in Prices(s.orders, ids, !order.isBuy);
    }
  }

  // Matching rewrites size and status only.
  ghost predicate SameShape(orders: OrderMap, orders': OrderMap) {
    forall x :: x in orders ==>
        x in orders' && orders'[x].isBuy == orders[x].isBuy && orders'[x].price == orders[x].price
  }

  // The levels still to be visited are as they were before the match.
  ghost predicate LevelsAhead(side0: Side, side: Side, prices: seq<u64>, k: nat) {
    forall j :: k <= j < |prices| ==> prices[j] in side && prices[j] in side0 && side[prices[j]] == side0[prices[j]]
  }

  // The loop state of one level: everything agrees, and the rest of its queue is still to come.
  ghost predicate LevelReady(bids: Book, asks: Book, side: Side, price: u64, level: PriceLevel, sw: Sweep, taker: Order,
                             rest: seq<u64>)
  {
    && SideReady(PutLevel(side, price, level), sw.orders, sw.active, taker.market, !taker.isBuy)
    && ElsewhereAgrees(bids, asks, sw.orders, sw.active, taker.market, !taker.isBuy)
    && Increasing(rest)
    && forall x :: x in rest ==> x in ActiveOf(sw.active, taker.market) && Rests(sw.orders, x, !taker.isBuy, price)
  }

  // The maker step at the head of the queue.
  lemma TouchLevel(bids: Book, asks: Book, side: Side, price: u64, level: PriceLevel, sw: Sweep, taker: Order,
                   id: u64, rest: seq<u64>)
    requires LevelReady(bids, asks, side, price, level, sw, taker, [id] + rest)
    requires sw.remaining > 0 && id in sw.orders && Eligible(taker, sw.orders[id])
    ensures var size := Min(sw.remaining, sw.orders[id].remaining);
            && level.total >= size
            && LevelReady(bids, asks, side, price, TouchedLevel(level, id, size, sw.orders[id].remaining - size),
                          Touch(sw, taker, id), taker, rest)
  {
    assert ([id] + rest)[0] == id;
    forall x | x in rest ensures x != id && x in [id] + rest {
      var j :| 0 <= j < |rest| && rest[j] == x;
      assert ([id] + rest)[j + 1] == x;
    }
    forall i, j | 0 <= i < j < |rest| ensures rest[i] < rest[j] {
      assert ([id] + rest)[i + 1] < ([id] + rest)[j + 1];
    }
    TouchSide(side, price, level, sw, taker, id, Min(sw.remaining, sw.orders[id].remaining), Touch(sw, taker, id));
    TouchElsewhere(bids, asks, sw, taker, id, Touch(sw, taker, id));
    TouchListsActive(sw, taker, id);
  }

  // The head of the queue is a live order at the level's price, and may be passed over.
  lemma HeadReady(bids: Book, asks: Book, side: Side, price: u64, level: PriceLevel, sw: Sweep, taker: Order,
                  id: u64, rest: seq<u64>)
    requires LevelReady(bids, asks, side, price, level, sw, taker, [id] + rest)
    ensures id in sw.orders && sw.orders[id].price == price
    ensures LevelReady(bids, asks, side, price, level, sw, taker, rest)
  {
    assert ([id] + rest)[0] == id;
    forall x | x in rest ensures x in [id] + rest {
    }
    forall i, j | 0 <= i < j < |rest| ensures rest[i] < rest[j] {
      assert ([id] + rest)[i + 1] < ([id] + rest)[j + 1];
    }
  }

  lemma LevelDone(bids: Book, asks: Book, side: Side, price: u64, level: PriceLevel, sw: Sweep, taker: Order,
                  rest: seq<u64>)
    requires LevelReady(bids, asks, side, price, level, sw, taker, rest)
    ensures LevelReady(bids, asks, side, price, level, sw, taker, [])
  {
  }

  lemma {:induction false} SweepShape(sw: Sweep, taker: Order, ms: seq<u64>)
    ensures SameShape(sw.orders, SweepAll(sw, taker, ms).orders)
    decreases ms
  {
    if ms != [] {
      SweepShape(Touch(sw, taker, ms[0]), taker, ms[1..]);
    }
  }

  // The loop state between levels.
  ghost predicate MatchReady(bids: Book, asks: Book, s: State, order: Order, side0: Side, side: Side,
                             prices: seq<u64>, sw: Sweep) {
    && SideReady(side, sw.orders, sw.active, order.market, !order.isBuy)
    && ElsewhereAgrees(bids, asks, sw.orders, sw.active, order.market, !order.isBuy)
    && SameShape(s.orders, sw.orders)
    && BestFirst(!order.isBuy, prices)
    && LevelsAhead(side0, side, prices, 0)
  }

  // Opening the best remaining level: its queue is the one the state had before the match.
  lemma EnterLevel(bids: Book, asks: Book, s: State, order: Order, side0: Side, side: Side, prices: seq<u64>, sw: Sweep)
    requires MatchReady(bids, asks, s, order, side0, side, prices, sw) && prices != []
    requires SideAgrees(side0, s.orders, ActiveOf(s.active, order.market), !order.isBuy)
    ensures prices[0] in side
    ensures side[prices[0]].orders == QueueAt(s.orders, ActiveOf(s.active, order.market), !order.isBuy, prices[0])
    ensures LevelReady(bids, asks, side, prices[0], side[prices[0]], sw, order, side[prices[0]].orders)
  {
    var p := prices[0];
    assert LevelAgrees(side0, s.orders, ActiveOf(s.active, order.market), !order.isBuy, p);
    var ids := ActiveOf(sw.active, order.market);
    assert LevelAgrees(side, sw.orders, ids, !order.isBuy, p);
    assert PutLevel(side, p, side[p]) == side;
    assert Increasing(ids);
    QueueIncreasing(sw.orders, ids, !order.isBuy, p);
  }

  lemma LeaveLevel(bids: Book, asks: Book, s: State, order: Order, side0: Side, side: Side, prices: seq<u64>, sw: Sweep,
                   level: PriceLevel, sw': Sweep)
    requires MatchReady(bids, asks, s, order, side0, side, prices, sw) && prices != []
    requires LevelReady(bids, asks, side, prices[0], level, sw', order, []) && SameShape(sw.orders, sw'.orders)
    ensures MatchReady(bids, asks, s, order, side0, PutLevel(side, prices[0], level), prices[1..], sw')
  {
    var side', rest := PutLevel(side, prices[0], level), prices[1..];
    forall j | 0 <= j < |rest| ensures rest[j] in side' && rest[j] in side0 && side'[rest[j]] == side0[rest[j]] {
      assert Better(!order.isBuy, prices[0], prices[j + 1]);
    }
    forall i, j | 0 <= i < j < |rest| ensures Better(!order.isBuy, rest[i], rest[j]) {
      assert Better(!order.isBuy, prices[i + 1], prices[j + 1]);
    }
  }

  // From an unacceptable best price on, no maker is eligible.
  lemma RestUnacceptable(bids: Book, asks: Book, s: State, order: Order, side0: Side, side: Side, prices: seq<u64>,
                         sw: Sweep)
    requires MatchReady(bids, asks, s, order, side0, side, prices, sw) && prices != [] && !Accepts(order, prices[0])
    ensures SweepAll(sw, order, Ladder(s.orders, ActiveOf(s.active, order.market), !order.isBuy, prices)) == sw
  {
    var ids := ActiveOf(s.active, order.market);
    var ms := Ladder(s.orders, ids, !order.isBuy, prices);
    LadderMembers(s.orders, ids, !order.isBuy, prices);
    forall x | x in ms && x in sw.orders ensures !Eligible(order, sw.orders[x]) {
      var j :| 0 <= j < |prices| && prices[j] == s.orders[x].price;
      assert j > 0 ==> Better(!order.isBuy, prices[0], prices[j]);
    }
    SweepIneligible(sw, order, ms);
  }

  lemma LiveSizes(s: State)
    requires OrdersSound(s)
    ensures forall x :: x in s.orders && s.orders[x].status == Active ==> s.orders[x].remaining > 0
  {
    forall x | x in s.orders && s.orders[x].status == Active ensures s.orders[x].remaining > 0 {
      assert OrderSound(s, x);
    }
  }

  lemma ElsewhereStarts(bids: Book, asks: Book, orders: OrderMap, active: ActiveLists, market: u32, isBuy: bool)
    requires BookAgrees(bids, asks, orders, active)
    ensures ElsewhereAgrees(bids, asks, orders, active, market, isBuy)
    ensures SideAgrees(SideOf(if isBuy then bids else asks, market), orders, ActiveOf(active, market), isBuy)
  {
    assert AgreesAt(bids, asks, orders, active, market, isBuy);
  }

  lemma MatchStarts(bids: Book, asks: Book, s: State, order: Order)
    requires Inv(s) && BookAgrees(bids, asks, s.orders, s.active)
    ensures var side := SideOf(if order.isBuy then asks else bids, order.market);
            && side.Keys == Prices(s.orders, ActiveOf(s.active, order.market), !order.isBuy)
            && SideAgrees(side, s.orders, ActiveOf(s.active, order.market), !order.isBuy)
            && MatchReady(bids, asks, s, order, side, side, Sorted(!order.isBuy, side.Keys),
                          Sweep(s.orders, s.active, order.remaining, []))
  {
    var side := SideOf(if order.isBuy then asks else bids, order.market);
    var prices := Sorted(!order.isBuy, side.Keys);
    LiveSizes(s);
    hide ListsActive, SideAgrees, ElsewhereAgrees, BookAgrees, Uncrossed, OrdersSound;
    ElsewhereStarts(bids, asks, s.orders, s.active, order.market, !order.isBuy);
    SideKeys(side, s.orders, ActiveOf(s.active, order.market), !order.isBuy);
    SortedIsBestFirst(!order.isBuy, side.Keys);
    forall j | 0 <= j < |prices| ensures prices[j] in side {
      assert prices[j] in prices;
    }
  }

  // Writing the matched side back completes the book.
  lemma MatchEnds(bids: Book, asks: Book, bids': Book, asks': Book, s: State, order: Order, side0: Side, side: Side,
                  prices: seq<u64>, sw: Sweep)
    requires MatchReady(bids, asks, s, order, side0, side, prices, sw)
    requires bids' == if order.isBuy then bids else bids[order.market := side]
    requires asks' == if order.isBuy then asks[order.market := side] else asks
    ensures BookAgrees(bids', asks', sw.orders, sw.active)
  {
    forall m: u32, b: bool ensures AgreesAt(bids', asks', sw.orders, sw.active, m, b) {
      if (m, b) != (order.market, !order.isBuy) {
        assert AgreesAt(bids, asks, sw.orders, sw.active, m, b);
      }
    }
  }

  // One level's queue is the head of the ladder that remains.
  lemma LadderStep(orders: OrderMap, ids: seq<u64>, taker: Order, prices: seq<u64>, sw: Sweep)
    requires prices != []
    ensures SweepAll(sw, taker, Ladder(orders, ids, !taker.isBuy, prices))
         == SweepAll(SweepAll(sw, taker, QueueAt(orders, ids, !taker.isBuy, prices[0])), taker,
                     Ladder(orders, ids, !taker.isBuy, prices[1..]))
  {
    SweepConcat(sw, taker, QueueAt(orders, ids, !taker.isBuy, prices[0]),
                Ladder(orders, ids, !taker.isBuy, prices[1..]));
  }

  class OrderbookManager {
    var bids: Book
    var asks: Book

    constructor ()
      ensures bids == map[] && asks == map[]
    {
      bids, asks := map[], map[];
    }

    ghost predicate Agrees(s: State)
      reads this
    {
      BookAgrees(bids, asks, s.orders, s.active)
    }

    method AddOrder(id: u64, order: Order)
      modifies this
      ensures var side := SideOf(if order.isBuy then old(bids) else old(asks), order.market);
              var joined := AddToSide(side, order.price, id, order.remaining);
              && bids == (if order.isBuy then old(bids)[order.market := joined] else old(bids))
              && asks == (if order.isBuy then old(asks) else old(asks)[order.market := joined])
    {
      var side := SideOf(if order.isBuy then bids else asks, order.market);
      var level := if order.price in side then side[order.price] else NEW_LEVEL;
      side := side[order.price := level.AddOrder(id, order.remaining)];
      if order.isBuy {
        bids := bids[order.market := side];
      } else {
        asks := asks[order.market := side];
      }
    }

    method RemoveOrder(id: u64, order: Order)
      modifies this
      ensures forall m: u32 :: SideOf(bids, m) == (if order.isBuy && m == order.market
                then RemoveFromSide(SideOf(old(bids), m), order.price, id, order.remaining) else SideOf(old(bids), m))
      ensures forall m: u32 :: SideOf(asks, m) == (if !order.isBuy && m == order.market
                then RemoveFromSide(SideOf(old(asks), m), order.price, id, order.remaining) else SideOf(old(asks), m))
    {
      var book: Book := if order.isBuy then bids else asks;
      if order.market in book && order.price in book[order.market] {
        var level := book[order.market][order.price].RemoveOrder(id, order.remaining);
        var side := if level.orders == [] then book[order.market] - {order.price}
            else book[order.market][order.price := level];
        if order.isBuy {
          bids := bids[order.market := side];
        } else {
          asks := asks[order.market := side];
        }
      }
    }

    // Does the order cross the best level of the other side?
    method WouldMatch(ghost s: State, order: Order) returns (r: bool)
      requires Agrees(s)
      ensures r <==> WouldTake(s, order)
    {
      var side := SideOf(if order.isBuy then asks else bids, order.market);
      assert AgreesAt(bids, asks, s.orders, s.active, order.market, !order.isBuy);
      WouldTakeByBest(side, s, order);
      if side.Keys == {} {
        return false;
      }
      var best := BestOf(!order.isBuy, side.Keys);
      r := order.price == 0 || (order.isBuy && order.price >= best) || (!order.isBuy && order.price <= best);
    }

    // The best levels of both sides.
    method GetDepth(ghost s: State, market: u32, levels: nat) returns (bidDepth: seq<(u64, nat)>,
        askDepth: seq<(u64, nat)>)
      requires Agrees(s)
      ensures DepthSound(bidDepth, s.orders, ActiveOf(s.active, market), true, levels)
      ensures DepthSound(askDepth, s.orders, ActiveOf(s.active, market), false, levels)
    {
      hide Depth, DepthSound;
      assert AgreesAt(bids, asks, s.orders, s.active, market, true) &&
          AgreesAt(bids, asks, s.orders, s.active, market, false);
      DepthIsSound(SideOf(bids, market), s.orders, ActiveOf(s.active, market), true, levels);
      DepthIsSound(SideOf(asks, market), s.orders, ActiveOf(s.active, market), false, levels);
      bidDepth := Depth(SideOf(bids, market), true, levels);
      askDepth := Depth(SideOf(asks, market), false, levels);
    }

    // One maker of a match: fill it, shrink or retire it in the state, and update its level.
    method FillMaker(state: StateManager, order: Order, ghost side: Side, price: u64, level: PriceLevel, id: u64,
                     remaining: u64, ghost fills: seq<Fill>, ghost rest: seq<u64>)
      returns (level': PriceLevel, remaining': u64, fill: Fill)
      requires LevelReady(bids, asks, side, price, level, Sweep(state.orders, state.active, remaining, fills), order,
                          [id] + rest)
      requires remaining > 0 && id in state.orders && Eligible(order, state.orders[id])
      modifies state`orders, state`active
      ensures Sweep(state.orders, state.active, remaining', fills + [fill])
           == Touch(Sweep(old(state.orders), old(state.active), remaining, fills), order, id)
      ensures LevelReady(bids, asks, side, price, level',
                         Sweep(state.orders, state.active, remaining', fills + [fill]), order, rest)
    {
      hide LevelReady;
      ghost var before := Sweep(state.orders, state.active, remaining, fills);
      HeadReady(bids, asks, side, price, level, before, order, id, rest);
      var maker := state.orders[id];
      var size := Min(remaining, maker.remaining);
      fill := Fill(maker.owner, order.owner, order.market, price, size, order.isBuy, id, order.id);
      remaining' := remaining - size;
      TouchLevel(bids, asks, side, price, level, before, order, id, rest);
      var updated := maker.(remaining := maker.remaining - size);
      if updated.remaining == 0 {
        updated := updated.(status := Filled);
        state.SetOrder(id, updated);
        state.RemoveActiveOrder(updated.market, id);
        level' := level.RemoveOrder(id, size);
      } else {
        state.SetOrder(id, updated);
        level' := level.(total := level.total - size);
      }
    }

    // One price level of a match, oldest order first, until it or the taker is used up.
    method MatchLevel(state: StateManager, order: Order, ghost side: Side, price: u64, level0: PriceLevel,
                      remaining0: u64,
                      fills0: seq<Fill>)
      returns (level: PriceLevel, remaining: u64, fills: seq<Fill>)
      requires LevelReady(bids, asks, side, price, level0, Sweep(state.orders, state.active, remaining0, fills0),
                          order, level0.orders)
      requires Accepts(order, price)
      modifies state`orders, state`active
      ensures Sweep(state.orders, state.active, remaining, fills)
           == SweepAll(Sweep(old(state.orders), old(state.active), remaining0, fills0), order, level0.orders)
      ensures LevelReady(bids, asks, side, price, level, Sweep(state.orders, state.active, remaining, fills), order, [])
    {
      hide LevelReady;
      level, remaining, fills := level0, remaining0, fills0;
      var queue := level.orders;
      ghost var goal := SweepAll(Sweep(state.orders, state.active, remaining, fills), order, queue);
      var i := 0;
      while i < |queue|
        invariant 0 <= i <= |queue|
        invariant LevelReady(bids, asks, side, price, level, Sweep(state.orders, state.active, remaining, fills),
                             order, queue[i..])
        invariant SweepAll(Sweep(state.orders, state.active, remaining, fills), order, queue[i..]) == goal
      {
        if remaining == 0 {
          SweepDone(Sweep(state.orders, state.active, remaining, fills), order, queue[i..]);
          break;
        }
        var id := queue[i];
        assert queue[i..] == [id] + queue[i + 1..];
        HeadReady(bids, asks, side, price, level, Sweep(state.orders, state.active, remaining, fills), order, id,
                  queue[i + 1..]);
        if id in state.orders && state.orders[id].owner != order.owner {
          var fill;
          level, remaining, fill := FillMaker(state, order, side, price, level, id, remaining, fills, queue[i + 1..]);
          fills := fills + [fill];
        }
        i := i + 1;
      }
      LevelDone(bids, asks, side, price, level, Sweep(state.orders, state.active, remaining, fills), order, queue[i..]);
    }

    // Visit the levels best first, until filled or out of acceptable prices.
    method MatchSide(state: StateManager, order: Order, ghost s: State, side0: Side)
      returns (side: Side, remaining: u64, fills: seq<Fill>, ghost prices: seq<u64>)
      requires SideAgrees(side0, s.orders, ActiveOf(s.active, order.market), !order.isBuy)
      requires side0.Keys == Prices(s.orders, ActiveOf(s.active, order.market), !order.isBuy)
      requires state.orders == s.orders && state.active == s.active
      requires MatchReady(bids, asks, s, order, side0, side0, Sorted(!order.isBuy, side0.Keys),
                          Sweep(s.orders, s.active, order.remaining, []))
      modifies state`orders, state`active
      ensures Sweep(state.orders, state.active, remaining, fills) == MatchAgainst(s, order)
      ensures MatchReady(bids, asks, s, order, side0, side, prices, MatchAgainst(s, order))
    {
      hide MatchReady, LevelReady, SideAgrees, Touch;
      side, remaining, fills := side0, order.remaining, [];
      prices := Sorted(!order.isBuy, side.Keys);
      var queue := Sorted(!order.isBuy, side.Keys);
      ghost var ids := ActiveOf(s.active, order.market);
      var k := 0;
      while k < |queue|
        invariant 0 <= k <= |queue| && prices == queue[k..]
        invariant MatchReady(bids, asks, s, order, side0, side, prices,
                             Sweep(state.orders, state.active, remaining, fills))
        invariant SweepAll(Sweep(state.orders, state.active, remaining, fills), order,
                           Ladder(s.orders, ids, !order.isBuy, prices)) == MatchAgainst(s, order)
      {
        var price := queue[k];
        ghost var sw := Sweep(state.orders, state.active, remaining, fills);
        if !Accepts(order, price) {
          RestUnacceptable(bids, asks, s, order, side0, side, prices, sw);
          break;
        }
        EnterLevel(bids, asks, s, order, side0, side, prices, sw);
        LadderStep(s.orders, ids, order, prices, sw);
        SweepShape(sw, order, side[price].orders);
        var level;
        level, remaining, fills := MatchLevel(state, order, side, price, side[price], remaining, fills);
        LeaveLevel(bids, asks, s, order, side0, side, prices, sw, level,
                   Sweep(state.orders, state.active, remaining, fills));
        side := PutLevel(side, price, level);
        prices := prices[1..];
        k := k + 1;
        if remaining == 0 {
          SweepDone(Sweep(state.orders, state.active, remaining, fills), order,
                    Ladder(s.orders, ids, !order.isBuy, prices));
          break;
        }
      }
    }

    method MatchOrder(state: StateManager, order: Order) returns (r: Result<seq<Fill>>)
      requires Inv(state.View()) && Agrees(state.View())
      modifies this, state`orders, state`active, state`log
      ensures Agrees(state.View())
      ensures var s := old(state.View());
              if order.postOnly && WouldTake(s, order) then r == Err(PostOnlyWouldTake) && state.View() == s
              else
                var sw := MatchAgainst(s, order);
                r == Ok(sw.fills) &&
                    state.View() == s.(orders := sw.orders, active := sw.active, log := s.log + sw.fills)
    {
      hide Inv, MatchReady, BookAgrees, SideAgrees;
      ghost var s := state.View();
      if order.postOnly {
        var crosses := WouldMatch(s, order);
        if crosses {
          return Err(PostOnlyWouldTake);
        }
      }
      MatchStarts(bids, asks, s, order);
      var side0 := SideOf(if order.isBuy then asks else bids, order.market);
      var side, remaining, fills, prices := MatchSide(state, order, s, side0);
      ghost var bids0, asks0 := bids, asks;
      if order.isBuy {
        asks := asks[order.market := side];
      } else {
        bids := bids[order.market := side];
      }
      MatchEnds(bids0, asks0, bids, asks, s, order, side0, side, prices, MatchAgainst(s, order));
      state.log := state.log + fills;
      r := Ok(fills);
    }
  }
}
