// What holds in every reachable state of the exchange, and what a step may do to an order.
module Invariants {
  import opened Types
  import opened Queues
  import opened Matching
  import opened Exchange

  ghost predicate OrderSound(s: State, x: u64) {
    && x in s.orders
    && s.orders[x].id == x
    && x < s.nextId
    && s.orders[x].remaining <= s.orders[x].original
    && (s.orders[x].remaining == 0 <==> s.orders[x].status == Filled)
    && s.orders[x].market in s.markets
  }

  ghost predicate OrdersSound(s: State) {
    forall x :: x in s.orders ==> OrderSound(s, x)
  }

  ghost predicate MarketsListed(s: State) {
    && (forall m: u32 :: m in s.marketList <==> m in s.markets)
    && (forall i, j :: 0 <= i < j < |s.marketList| ==> s.marketList[i] != s.marketList[j])
  }

  // Two resting orders that could trade with each other.
  ghost predicate Crossing(bid: Order, ask: Order) {
    bid.isBuy && !ask.isBuy && bid.market == ask.market &&
    bid.status == Active && ask.status == Active && bid.price >= ask.price
  }

  // The book is never crossed between different owners.
  ghost predicate Uncrossed(orders: OrderMap) {
    forall b, a :: b in orders && a in orders && Crossing(orders[b], orders[a]) ==> orders[b].owner == orders[a].owner
  }

  // The ledger: size gone from an order is exactly the size of the fills naming it.
  ghost predicate Balanced(orders: OrderMap, log: seq<Fill>) {
    forall x :: x in orders ==> orders[x].original - orders[x].remaining == FilledBy(log, x)
  }

  ghost predicate FillSound(s: State, f: Fill) {
    f.makerId < s.nextId && f.takerId < s.nextId && f.makerId != f.takerId && f.maker != f.taker && f.size > 0
  }

  ghost predicate LogSound(s: State) {
    forall f :: f in s.log ==> FillSound(s, f)
  }

  ghost predicate Inv(s: State) {
    && ListsActive(s.orders, s.active)
    && OrdersSound(s)
    && MarketsListed(s)
    && Uncrossed(s.orders)
    && Balanced(s.orders, s.log)
    && LogSound(s)
  }

  // ---------------------------------------------------------------------------
  // Matching
  // ---------------------------------------------------------------------------

  ghost predicate Fresh(s: State, order: Order) {
    && order.id == s.nextId
    && order.status == Active
    && order.remaining == order.original
    && order.market in s.markets
  }

  // A live order on the other side of the order's market, at any price and of any owner.
  ghost predicate Opposes(s: State, order: Order, x: u64) {
    x in s.orders && s.orders[x].market == order.market && s.orders[x].status == Active &&
        s.orders[x].isBuy != order.isBuy
  }

  // The makers of a match are distinct, live orders: exactly the active other side, in price-time order.
  lemma MakersReady(s: State, order: Order)
    requires Inv(s)
    ensures var ms := Makers(s.orders, ActiveOf(s.active, order.market), !order.isBuy);
            && Distinct(ms) && AllResting(s.orders, ms) && PriceTime(s.orders, ms)
            && forall x :: x in ms <==> Opposes(s, order, x)
  {
    var ids := ActiveOf(s.active, order.market);
    MakersAreTheSide(s.orders, ids, !order.isBuy);
    var ms := Makers(s.orders, ids, !order.isBuy);
    forall i, j | 0 <= i < j < |ms| ensures ms[i] != ms[j] {
      assert Ahead(s.orders, ms[i], ms[j]);
    }
    forall x | x in ms ensures s.orders[x].status == Active && s.orders[x].remaining > 0 {
      assert OrderSound(s, x);
    }
  }

  ghost predicate MatchFrame(s: State, order: Order) {
    var sw := MatchAgainst(s, order);
    && sw.orders.Keys == s.orders.Keys
    && sw.remaining <= order.remaining
    && forall x :: x in s.orders ==> Consumed(s.orders[x], sw.orders[x])
  }

  lemma MatchFrameHolds(s: State, order: Order)
    requires Inv(s)
    ensures MatchFrame(s, order)
  {
    MakersReady(s, order);
    SweepFrame(Sweep(s.orders, s.active, order.remaining, []), order,
               Makers(s.orders, ActiveOf(s.active, order.market), !order.isBuy));
  }

  lemma MatchAccounted(s: State, order: Order)
    requires Inv(s) && Fresh(s, order)
    ensures Accounted(s.orders, order.remaining, order, MatchAgainst(s, order))
  {
    MakersReady(s, order);
    assert order.id !in s.orders by {
      assert order.id in s.orders ==> OrderSound(s, order.id);
    }
    SweepAccounted(s.orders, order.remaining, order, Sweep(s.orders, s.active, order.remaining, []),
                   Makers(s.orders, ActiveOf(s.active, order.market), !order.isBuy));
  }

  // Every fill of a match is a trade of some size between two accounts in the order's market.
  lemma MatchFillsAreTrades(s: State, order: Order)
    requires Inv(s) && Fresh(s, order)
    ensures forall f :: f in MatchAgainst(s, order).fills ==>
            f.taker != f.maker && f.size > 0 && f.market == order.market
  {
    MatchAccounted(s, order);
    forall f | f in MatchAgainst(s, order).fills ensures f.taker != f.maker && f.size > 0 && f.market == order.market {
      assert GoodFill(s.orders, order, f);
    }
  }

  lemma {:induction false} FilledByConcat(log: seq<Fill>, fills: seq<Fill>, x: u64)
    ensures FilledBy(log + fills, x) == FilledBy(log, x) + FilledBy(fills, x)
  {
    if fills == [] {
      assert log + fills == log;
    } else {
      var init := fills[..|fills| - 1];
      FilledByConcat(log, init, x);
      assert log + fills == (log + init) + [fills[|fills| - 1]];
      FilledByAppend(log + init, fills[|fills| - 1], x);
    }
  }

  // An id no fill names has nothing filled.
  lemma {:induction false} FilledByFresh(log: seq<Fill>, x: int)
    requires 0 <= x < U64 && forall f :: f in log ==> f.makerId != x && f.takerId != x
    ensures FilledBy(log, x) == 0
  {
    if log != [] {
      FilledByFresh(log[..|log| - 1], x);
    }
  }

  // The taker's fills: every fill of its own match names it.
  lemma {:induction false} FilledByTaker(orders: OrderMap, taker: Order, fills: seq<Fill>)
    requires forall f :: f in fills ==> GoodFill(orders, taker, f)
    ensures FilledBy(fills, taker.id) == FillTotal(fills)
  {
    if fills != [] {
      FilledByTaker(orders, taker, fills[..|fills| - 1]);
      assert fills[|fills| - 1] in fills;
    }
  }

  // A state whose orders shrank by a match, whatever happened to positions.
  ghost predicate MatchedFrom(s: State, order: Order, s': State) {
    var sw := MatchAgainst(s, order);
    && s'.orders == sw.orders && s'.active == sw.active && s'.log == s.log + sw.fills
    && s'.nextId == order.id + 1 && s'.markets == s.markets && s'.marketList == s.marketList
  }

  lemma MatchedUncrossed(s: State, order: Order)
    requires Inv(s)
    ensures Uncrossed(MatchAgainst(s, order).orders)
  {
    MatchFrameHolds(s, order);
    var after := MatchAgainst(s, order).orders;
    forall b, a | b in after && a in after && Crossing(after[b], after[a])
      ensures after[b].owner == after[a].owner
    {
      assert Consumed(s.orders[b], after[b]) && Consumed(s.orders[a], after[a]);
      assert Crossing(s.orders[b], s.orders[a]);
    }
  }

  lemma MatchedOrder(s: State, order: Order, s': State, x: u64)
    requires Inv(s) && Fresh(s, order) && MatchedFrom(s, order, s') && x in s'.orders
    ensures OrderSound(s', x) && s'.orders[x].original - s'.orders[x].remaining == FilledBy(s'.log, x)
  {
    hide MatchAgainst, ListsActive, Uncrossed, GoodFill;
    MatchAccounted(s, order);
    var sw := MatchAgainst(s, order);
    assert AccountedAt(s.orders, sw, x) && OrderSound(s, x);
    FilledByConcat(s.log, sw.fills, x);
  }

  lemma MatchedFills(s: State, order: Order, s': State)
    requires Inv(s) && Fresh(s, order) && MatchedFrom(s, order, s')
    ensures LogSound(s')
  {
    hide MatchAgainst, ListsActive, Uncrossed, Balanced;
    MatchAccounted(s, order);
    forall f | f in s'.log ensures FillSound(s', f) {
      if f !in s.log {
        assert GoodFill(s.orders, order, f);
        assert OrderSound(s, f.makerId);
      }
    }
  }

  lemma MatchedSound(s: State, order: Order, s': State)
    requires Inv(s) && Fresh(s, order) && MatchedFrom(s, order, s')
    ensures OrdersSound(s') && LogSound(s') && Balanced(s'.orders, s'.log)
  {
    hide Inv, MatchedFrom, OrderSound;
    forall x | x in s'.orders
      ensures OrderSound(s', x)
      ensures s'.orders[x].original - s'.orders[x].remaining == FilledBy(s'.log, x)
    {
      MatchedOrder(s, order, s', x);
    }
    MatchedFills(s, order, s');
  }

  lemma MatchedInv(s: State, order: Order, s': State)
    requires Inv(s) && Fresh(s, order) && MatchedFrom(s, order, s')
    ensures Inv(s')
  {
    SweepListsActive(Sweep(s.orders, s.active, order.remaining, []), order,
                     Makers(s.orders, ActiveOf(s.active, order.market), !order.isBuy));
    MatchedSound(s, order, s');
    MatchedUncrossed(s, order);
  }

  // ---------------------------------------------------------------------------
  // Storing the taker
  // ---------------------------------------------------------------------------

  // No live order of another owner could still trade with the taker.
  ghost predicate Exhausted(s: State, order: Order) {
    forall x :: Opposes(s, order, x) ==> !Eligible(order, s.orders[x])
  }

  lemma LeftoverGone(s: State, order: Order, x: u64)
    requires Inv(s) && MatchAgainst(s, order).remaining > 0 && Opposes(s, order, x) && Eligible(order, s.orders[x])
    ensures x in MatchAgainst(s, order).orders && MatchAgainst(s, order).orders[x].remaining == 0
  {
    MakersReady(s, order);
    var ms := Makers(s.orders, ActiveOf(s.active, order.market), !order.isBuy);
    assert x in ms;
    SweepExhausts(Sweep(s.orders, s.active, order.remaining, []), order, ms, x);
  }

  lemma LeftoverExhausts(s: State, order: Order, s': State)
    requires Inv(s) && MatchedFrom(s, order, s') && MatchAgainst(s, order).remaining > 0
    ensures Exhausted(s', order)
  {
    MatchFrameHolds(s, order);
    forall x | Opposes(s', order, x)
      ensures !Eligible(order, s'.orders[x])
    {
      assert Consumed(s.orders[x], s'.orders[x]);
      assert OrderSound(s, x);
      if Eligible(order, s.orders[x]) {
        LeftoverGone(s, order, x);
      }
    }
  }

  lemma RestingUncrossed(orders: OrderMap, s: State, order: Order)
    requires orders == s.orders && Uncrossed(orders) && Exhausted(s, order) && order.id !in orders
    ensures Uncrossed(orders[order.id := order])
  {
    var after := orders[order.id := order];
    forall b, a | b in after && a in after && Crossing(after[b], after[a])
      ensures after[b].owner == after[a].owner
    {
      if b == order.id {
        assert !Eligible(order, orders[a]);
      } else if a == order.id {
        assert !Eligible(order, orders[b]);
      }
    }
  }

  // An order newly stored at the next id with the right size and status.
  lemma StoreSound(s: State, order: Order, s': State)
    requires OrdersSound(s) && Balanced(s.orders, s.log) && LogSound(s)
    requires order.id < s.nextId && order.market in s.markets && order.remaining <= order.original
    requires order.remaining == 0 <==> order.status == Filled
    requires order.original - order.remaining == FilledBy(s.log, order.id)
    requires s' == s.(orders := s.orders[order.id := order], active := s'.active)
    ensures OrdersSound(s') && Balanced(s'.orders, s'.log) && LogSound(s')
  {
    forall x | x in s'.orders ensures OrderSound(s', x) {
      assert x in s.orders ==> OrderSound(s, x);
    }
  }

  lemma StoreIdle(s: State, order: Order, s': State)
    requires ListsActive(s.orders, s.active) && order.id !in s.orders && order.status != Active
    requires s' == s.(orders := s.orders[order.id := order]) && Uncrossed(s.orders)
    ensures ListsActive(s'.orders, s'.active) && Uncrossed(s'.orders)
  {
    forall m: u32, x: u64
      ensures x in ActiveOf(s'.active, m) <==>
              x in s'.orders && s'.orders[x].market == m && s'.orders[x].status == Active
    {
      assert x in ActiveOf(s.active, m) <==> x in s.orders && s.orders[x].market == m && s.orders[x].status == Active;
    }
  }

  lemma StoreActive(s: State, order: Order, active': ActiveLists)
    requires ListsActive(s.orders, s.active) && order.id !in s.orders && order.status == Active
    requires forall x :: x in s.orders ==> x < order.id
    requires active' == AddActive(s.active, order.market, order.id)
    ensures ListsActive(s.orders[order.id := order], active')
  {
    var orders' := s.orders[order.id := order];
    forall m: u32 ensures Increasing(ActiveOf(active', m)) {
      assert Increasing(ActiveOf(s.active, m));
      if m == order.market {
        assert forall y :: y in ActiveOf(s.active, m) ==> y in s.orders;
        IncreasingAppend(ActiveOf(s.active, m), order.id);
      }
    }
    forall m: u32, x: u64
      ensures x in ActiveOf(active', m) <==> x in orders' && orders'[x].market == m && orders'[x].status == Active
    {
      assert x in ActiveOf(s.active, m) <==> x in s.orders && s.orders[x].market == m && s.orders[x].status == Active;
    }
  }

  lemma FinishKeepsPositions(s: State, order: Order, tif: TimeInForce)
    ensures Finish(s, order, tif).0.positions == s.positions && Finish(s, order, tif).0.log == s.log
  {
  }

  lemma FinishInv(s: State, order: Order, tif: TimeInForce)
    requires Inv(s) && order.id !in s.orders && order.id < s.nextId && order.status == Active
    requires forall x :: x in s.orders ==> x < order.id
    requires order.market in s.markets && order.remaining <= order.original
    requires order.original - order.remaining == FilledBy(s.log, order.id)
    requires order.remaining > 0 ==> Exhausted(s, order)
    ensures Inv(Finish(s, order, tif).0)
  {
    var s' := Finish(s, order, tif).0;
    if order.remaining == 0 {
      StoreIdle(s, order.(status := Filled), s');
      StoreSound(s, order.(status := Filled), s');
    } else if tif == IOC {
      StoreIdle(s, order.(status := Cancelled), s');
      StoreSound(s, order.(status := Cancelled), s');
    } else if tif != FOK {
      StoreActive(s, order, s'.active);
      StoreSound(s, order, s');
      RestingUncrossed(s.orders, s, order);
    }
  }

  // ---------------------------------------------------------------------------
  // Every step keeps the invariant
  // ---------------------------------------------------------------------------

  lemma NextIdInv(s: State, s': State)
    requires Inv(s) && s.nextId + 1 < U64 && s' == s.(nextId := s.nextId + 1)
    ensures Inv(s')
  {
    forall x | x in s'.orders ensures OrderSound(s', x) {
      assert OrderSound(s, x);
    }
  }

  // The state and the taker handed to Finish.
  lemma TakerReady(s: State, order: Order, s': State)
    requires Inv(s) && Fresh(s, order) && MatchedFrom(s, order, s')
    ensures order.id !in s'.orders && forall x :: x in s'.orders ==> x < order.id
    ensures var left := MatchAgainst(s, order).remaining;
            && left <= order.remaining
            && order.original - left == FilledBy(s'.log, order.id)
            && (left > 0 ==> Exhausted(s', order.(remaining := left)))
  {
    MatchAccounted(s, order);
    var sw := MatchAgainst(s, order);
    forall x | x in s'.orders ensures x < order.id {
      assert OrderSound(s, x);
    }
    FilledByTaker(s.orders, order, sw.fills);
    FilledByFresh(s.log, order.id);
    FilledByConcat(s.log, sw.fills, order.id);
    MatchFrameHolds(s, order);
    if sw.remaining > 0 {
      LeftoverExhausts(s, order, s');
    }
  }

  // The part of placing that follows a match.
  lemma SettleInv(s: State, order: Order, s2: State, tif: TimeInForce)
    requires Inv(s) && Fresh(s, order) && MatchedFrom(s, order, s2)
    ensures Inv(s2)
    ensures Inv(Finish(s2, order.(remaining := MatchAgainst(s, order).remaining), tif).0)
  {
    MatchedInv(s, order, s2);
    TakerReady(s, order, s2);
    FinishInv(s2, order.(remaining := MatchAgainst(s, order).remaining), tif);
  }

  lemma ExecuteInv(s: State, order: Order, market: Market, tif: TimeInForce)
    requires Inv(s) && Fresh(s, order) && order.id + 1 < U64
    ensures Inv(Execute(s, order, market, tif).0)
  {
    NextIdInv(s, s.(nextId := order.id + 1));
    var settled := ProcessFills(s.positions, MatchAgainst(s, order).fills, market.initialBps);
    SettleInv(s, order, AfterMatch(s, order, settled.positions), tif);
  }

  lemma PlaceInv(s: State, version: u64, trader: Address, req: OrderRequest)
    requires Inv(s)
    ensures Inv(PlaceOrder(s, version, trader, req).0)
  {
    var admitted := Admit(s, trader, req);
    if admitted.Ok? && s.nextId + 1 < U64 {
      ExecuteInv(s, Incoming(s.nextId, version, trader, req), admitted.value, req.timeInForce);
    }
  }

  lemma DropUncrossed(orders: OrderMap, x: u64)
    requires Uncrossed(orders) && x in orders
    ensures Uncrossed(orders[x := orders[x].(status := Cancelled)])
  {
    var after := orders[x := orders[x].(status := Cancelled)];
    forall b, a | b in after && a in after && Crossing(after[b], after[a])
      ensures after[b].owner == after[a].owner
    {
      assert Crossing(orders[b], orders[a]);
    }
  }

  lemma DropInv(s: State, x: u64)
    requires Inv(s) && x in s.orders && s.orders[x].status == Active
    ensures Inv(Drop(s, x))
  {
    var s' := Drop(s, x);
    RemovedStaysActive(s.orders, s.active, x, s'.orders[x]);
    DropUncrossed(s.orders, x);
    forall y | y in s'.orders ensures OrderSound(s', y) {
      assert OrderSound(s, y);
    }
  }

  lemma {:induction false} CancelOwnedInv(s: State, trader: Address, ids: seq<u64>)
    requires Inv(s)
    ensures Inv(CancelOwned(s, trader, ids))
    decreases ids
  {
    if ids != [] {
      if ids[0] in s.orders && s.orders[ids[0]].owner == trader && s.orders[ids[0]].status == Active {
        DropInv(s, ids[0]);
        CancelOwnedInv(Drop(s, ids[0]), trader, ids[1..]);
      } else {
        CancelOwnedInv(s, trader, ids[1..]);
      }
    }
  }

  lemma SetMarketInv(s: State, id: u32, market: Market)
    requires Inv(s)
    ensures Inv(SetMarket(s, id, market))
  {
    var s' := SetMarket(s, id, market);
    forall x | x in s'.orders ensures OrderSound(s', x) {
      assert OrderSound(s, x);
    }
    forall i, j | 0 <= i < j < |s'.marketList| ensures s'.marketList[i] != s'.marketList[j] {
      assert s'.marketList[i] in s.marketList;
    }
  }

  lemma NextInv(s: State, step: Step)
    requires Inv(s)
    ensures Inv(Next(s, step))
  {
    match step
    case Place(v, trader, req) => PlaceInv(s, v, trader, req);
    case Close(v, trader, market, size) =>
      var p := PositionOf(s.positions, PositionKey(trader, market));
      if p.Some? {
        PlaceInv(s, v, trader, CloseRequest(market, p.value, size));
      }
    case Cancel(trader, id) =>
      if CancelOrder(s, trader, id).1.Ok? {
        DropInv(s, id);
      }
    case CancelAll(trader, market) => CancelOwnedInv(s, trader, ActiveOf(s.active, market));
    case DefineMarket(id, m) => SetMarketInv(s, id, m);
    case Rebalance(ps, bs) =>
      forall x | x in s.orders ensures OrderSound(Next(s, step), x) {
        assert OrderSound(s, x);
      }
  }

  lemma {:induction false} RunInv(s: State, steps: seq<Step>)
    requires Inv(s)
    ensures Inv(Run(s, steps))
    decreases steps
  {
    if steps != [] {
      NextInv(s, steps[0]);
      RunInv(Next(s, steps[0]), steps[1..]);
    }
  }

  lemma {:induction false} RunConcat(s: State, a: seq<Step>, b: seq<Step>)
    ensures Run(s, a + b) == Run(Run(s, a), b)
    decreases a
  {
    hide Next;
    if a == [] {
      assert a + b == b;
    } else {
      assert (a + b)[1..] == a[1..] + b;
      RunConcat(Next(s, a[0]), a[1..], b);
    }
  }

  // Safety over whole runs: every state any run reaches from the empty exchange is sound.
  lemma ReachableInv(steps: seq<Step>)
    ensures Inv(Run(EMPTY, steps))
  {
    RunInv(EMPTY, steps);
  }
}
