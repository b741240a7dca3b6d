// The engine: order, position and recovery operations over the state and the live book.
module Trading {
  import opened Types
  import opened Queues
  import opened Matching
  import opened PriceLevels
  import opened Positions
  import opened PositionRuns
  import opened TradeLimits
  import opened Risk
  import opened Exchange
  import opened Invariants
  import opened StateStore
  import opened OrderBook
  import opened Recovery

  // Storing an order no list mentions leaves the book right.
  lemma StoreKeepsBook(bids: Book, asks: Book, orders: OrderMap, active: ActiveLists, x: u64, o: Order)
    requires BookAgrees(bids, asks, orders, active)
    requires forall m: u32 :: x !in ActiveOf(active, m)
    ensures BookAgrees(bids, asks, orders[x := o], active)
  {
    var orders' := orders[x := o];
    forall m: u32, b: bool ensures AgreesAt(bids, asks, orders', active, m, b) {
      assert AgreesAt(bids, asks, orders, active, m, b);
      AgreesStore(SideOf(if b then bids else asks, m), orders, ActiveOf(active, m), b, x, o);
    }
  }

  // Storing an order, listing it as active and adding it to the book go together.
  lemma AddKeepsBook(bids: Book, asks: Book, orders: OrderMap, active: ActiveLists, o: Order, bids': Book, asks': Book)
    requires BookAgrees(bids, asks, orders, active)
    requires forall m: u32 :: o.id !in ActiveOf(active, m)
    requires forall m: u32 :: SideOf(bids', m) == if o.isBuy && m == o.market
               then AddToSide(SideOf(bids, m), o.price, o.id, o.remaining) else SideOf(bids, m)
    requires forall m: u32 :: SideOf(asks', m) == if !o.isBuy && m == o.market
               then AddToSide(SideOf(asks, m), o.price, o.id, o.remaining) else SideOf(asks, m)
    ensures BookAgrees(bids', asks', orders[o.id := o], AddActive(active, o.market, o.id))
  {
    var orders', active' := orders[o.id := o], AddActive(active, o.market, o.id);
    forall m: u32, b: bool ensures AgreesAt(bids', asks', orders', active', m, b) {
      assert AgreesAt(bids, asks, orders, active, m, b);
      var side, ids := SideOf(if b then bids else asks, m), ActiveOf(active, m);
      if m == o.market {
        AgreesAdd(side, orders, ids, b, o.id, o);
      } else {
        AgreesStore(side, orders, ids, b, o.id, o);
      }
    }
  }

  // Retiring an active order in the state and removing it from the book go together.
  lemma DropKeepsBook(bids: Book, asks: Book, orders: OrderMap, active: ActiveLists, x: u64, o: Order, bids': Book,
                      asks': Book)
    requires BookAgrees(bids, asks, orders, active) && ListsActive(orders, active)
    requires x in orders && orders[x].status == Active
    requires o.market == orders[x].market && o.isBuy == orders[x].isBuy && o.price == orders[x].price
    requires forall m: u32 :: SideOf(bids', m) == if o.isBuy && m == o.market
               then RemoveFromSide(SideOf(bids, m), o.price, x, orders[x].remaining) else SideOf(bids, m)
    requires forall m: u32 :: SideOf(asks', m) == if !o.isBuy && m == o.market
               then RemoveFromSide(SideOf(asks, m), o.price, x, orders[x].remaining) else SideOf(asks, m)
    ensures BookAgrees(bids', asks', orders[x := o], RemoveActive(active, o.market, x))
  {
    var orders', active' := orders[x := o], RemoveActive(active, o.market, x);
    forall m: u32, b: bool ensures AgreesAt(bids', asks', orders', active', m, b) {
      assert AgreesAt(bids, asks, orders, active, m, b);
      var side, ids := SideOf(if b then bids else asks, m), ActiveOf(active, m);
      assert Increasing(ids);
      assert x in ids <==> m == o.market;
      if m != o.market {
        AgreesStore(side, orders, ids, b, x, o);
      } else if b == o.isBuy {
        AgreesRemove(side, orders, ids, x, o);
      } else {
        AgreesOtherSide(side, orders, ids, b, x, o);
      }
    }
  }

  method IncreasePosition(p: Position, size: u64, price: u64, initialBps: u32) returns (r: Result<Position>)
    ensures r == Increase(p, size, price, initialBps)
  {
    var oldValue :- Checked(p.size * p.entryPrice);
    var newValue :- Checked(size * price);
    var totalValue :- Checked(oldValue + newValue);
    var totalSize := p.size + size;
    var q := p;
    if totalSize > 0 {
      q := q.(entryPrice := TruncateU64(totalValue / totalSize));
      q := q.(size := TruncateU64(totalSize));
      var scaled :- Checked(newValue * initialBps);
      var margin :- Checked(q.margin + scaled / BASIS_POINTS);
      q := q.(margin := margin);
    }
    return Ok(q);
  }

  // Settling one side of a fill changes one position as its branch says, or nothing when that does not fit.
  lemma SideExactly(ps: PositionMap, owner: Address, fill: Fill, isBuy: bool, initialBps: u32)
    ensures var k, out := PositionKey(owner, fill.market), ProcessSide(ps, owner, fill, isBuy, initialBps);
            && (out.error.None? <==> TradeFits(PositionOf(ps, k), fill.size, fill.price, isBuy, initialBps))
            && (out.error.None? ==> Traded(PositionOf(ps, k), PositionOf(out.positions, k), fill.size, fill.price,
                                           isBuy, initialBps))
            && (out.error.Some? ==> out.error == Some(Overflow) && out.positions == ps)
            && forall j :: j != k ==> PositionOf(out.positions, j) == PositionOf(ps, j)
  {
    hide AfterTrade, Traded, TradeFits;
    var k := PositionKey(owner, fill.market);
    TradeFitsExactly(PositionOf(ps, k), fill.size, fill.price, isBuy, initialBps);
    if AfterTrade(PositionOf(ps, k), fill.size, fill.price, isBuy, initialBps).Ok? {
      TradedExactly(PositionOf(ps, k), fill.size, fill.price, isBuy, initialBps);
    }
  }

  // One trade against the stored position of one account.
  method UpdatePosition(state: StateManager, owner: Address, fill: Fill, isBuy: bool,
                        initialBps: u32) returns (r: Result<()>)
    requires state.IndexAgrees()
    modifies state`positions, state`positionIndex
    ensures state.IndexAgrees()
    ensures var out := ProcessSide(old(state.positions), owner, fill, isBuy, initialBps);
            state.positions == out.positions && r == (if out.error.Some? then Err(out.error.value) else Ok(()))
    ensures var k := PositionKey(owner, fill.market);
            var before, after := PositionOf(old(state.positions), k), PositionOf(state.positions, k);
            && (r.Ok? <==> TradeFits(before, fill.size, fill.price, isBuy, initialBps))
            && (r.Ok? ==> Traded(before, after, fill.size, fill.price, isBuy, initialBps))
            && (r.Err? ==> state.positions == old(state.positions))
            && forall j :: j != k ==> PositionOf(state.positions, j) == PositionOf(old(state.positions), j)
  {
    hide Traded, TradeFits;
    SideExactly(state.positions, owner, fill, isBuy, initialBps);
    var k := PositionKey(owner, fill.market);
    if k in state.positions {
      var pos := state.positions[k];
      if pos.isLong == isBuy {
        pos :- IncreasePosition(pos, fill.size, fill.price, initialBps);
      } else if fill.size >= pos.size {
        var left := fill.size - pos.size;
        if left == 0 {
          state.DeletePosition(k);
          return Ok(());
        }
        var margin :- InitialMargin(left, fill.price, initialBps);
        pos := Position(left, fill.price, isBuy, margin, pos.fundingIndex);
      } else {
        var scaledSize :- Checked(fill.size * BASIS_POINTS);
        var ratio := scaledSize / pos.size;
        var scaledMargin :- Checked(pos.margin * ratio);
        pos := pos.(size := pos.size - fill.size, margin := SaturatingSub(pos.margin, scaledMargin / BASIS_POINTS));
      }
      state.SetPosition(k, pos);
    } else {
      var margin :- InitialMargin(fill.size, fill.price, initialBps);
      state.SetPosition(k, Position(fill.size, fill.price, isBuy, margin, 0));
    }
    r := Ok(());
  }

  method ProcessFillInPlace(state: StateManager, fill: Fill, initialBps: u32) returns (r: Result<()>)
    requires state.IndexAgrees()
    modifies state`positions, state`positionIndex
    ensures state.IndexAgrees()
    ensures var out := ProcessFill(old(state.positions), fill, initialBps);
            state.positions == out.positions && r == (if out.error.Some? then Err(out.error.value) else Ok(()))
  {
    r := UpdatePosition(state, fill.taker, fill, fill.takerIsBuy, initialBps);
    if r.Ok? {
      r := UpdatePosition(state, fill.maker, fill, !fill.takerIsBuy, initialBps);
    }
  }

  method ProcessFillsInPlace(state: StateManager, fills: seq<Fill>, initialBps: u32) returns (r: Result<()>)
    requires state.IndexAgrees()
    modifies state`positions, state`positionIndex
    ensures state.IndexAgrees()
    ensures var out := ProcessFills(old(state.positions), fills, initialBps);
            state.positions == out.positions && r == (if out.error.Some? then Err(out.error.value) else Ok(()))
  {
    var i := 0;
    while i < |fills|
      invariant 0 <= i <= |fills| && state.IndexAgrees()
      invariant ProcessFills(state.positions, fills[i..], initialBps)
                == ProcessFills(old(state.positions), fills, initialBps)
    {
      assert fills[i..][1..] == fills[i + 1..];
      r := ProcessFillInPlace(state, fills[i], initialBps);
      if r.Err? {
        return;
      }
      i := i + 1;
    }
    r := Ok(());
  }

  method SumFills(fills: seq<Fill>) returns (total: nat)
    ensures total == FillTotal(fills)
  {
    total := 0;
    var i := 0;
    while i < |fills|
      invariant 0 <= i <= |fills| && total == FillTotal(fills[..i])
    {
      assert fills[..i + 1][..i] == fills[..i];
      total := total + fills[i].size;
      i := i + 1;
    }
    assert fills[..|fills|] == fills;
  }

  // Taking an id does not disturb a match.
  lemma MatchStartsClean(s: State, order: Order)
    requires Inv(s) && Fresh(s, order) && order.id + 1 < U64
    ensures var s1 := s.(nextId := order.id + 1);
            && Inv(s1) && MatchAgainst(s1, order) == MatchAgainst(s, order) &&
                WouldTake(s1, order) == WouldTake(s, order)
    ensures var sw := MatchAgainst(s, order); SaturatingSub(order.remaining, FillTotal(sw.fills)) == sw.remaining
  {
    NextIdInv(s, s.(nextId := order.id + 1));
    MatchAccounted(s, order);
  }

  // After its match the taker's id is still unused, and the lists are sound.
  lemma MatchEndsClean(s: State, order: Order, positions: PositionMap)
    requires Inv(s) && Fresh(s, order) && order.id + 1 < U64
    ensures var s' := AfterMatch(s, order, positions);
            order.id !in s'.orders && ListsActive(s'.orders, s'.active)
  {
    MatchedInv(s, order, AfterMatch(s, order, positions));
    TakerReady(s, order, AfterMatch(s, order, positions));
  }

  lemma UnlistedWhenAbsent(s: State, x: u64)
    requires ListsActive(s.orders, s.active) && x !in s.orders
    ensures forall m: u32 :: x !in ActiveOf(s.active, m)
  {
  }

  // A market's list names its live orders, oldest first.
  lemma ListedAreLive(s: State, market: u32)
    requires Inv(s)
    ensures Increasing(ActiveOf(s.active, market))
    ensures forall x :: x in ActiveOf(s.active, market) ==> x in s.orders && s.orders[x].status == Active
  {
  }

  // Partway through cancelling a trader's orders: the first i entries of the market's list are dealt with.
  ghost predicate CancelledSoFar(before: OrderMap, orders: OrderMap, trader: Address, ids: seq<u64>, i: nat,
                                 cancelled: seq<u64>)
    requires i <= |ids|
  {
    && (forall j :: i <= j < |ids| ==> ids[j] in orders && ids[j] in before && orders[ids[j]] == before[ids[j]])
    && Increasing(cancelled)
    && (forall x :: x in cancelled <==> x in ids[..i] && x in before && before[x].owner == trader)
  }

  lemma CancelledStarts(s: State, trader: Address, market: u32)
    requires Inv(s)
    ensures CancelledSoFar(s.orders, s.orders, trader, ActiveOf(s.active, market), 0, [])
  {
    var ids := ActiveOf(s.active, market);
    forall j | 0 <= j < |ids| ensures ids[j] in s.orders {
      assert ids[j] in ids;
    }
  }

  lemma CancelledSteps(before: OrderMap, s: State, trader: Address, ids: seq<u64>, i: nat, cancelled: seq<u64>)
    requires Increasing(ids) && i < |ids| && CancelledSoFar(before, s.orders, trader, ids, i, cancelled)
    ensures ids[i] in s.orders && ids[i] in before && s.orders[ids[i]] == before[ids[i]]
    ensures before[ids[i]].owner == trader ==>
              CancelledSoFar(before, Drop(s, ids[i]).orders, trader, ids, i + 1, cancelled + [ids[i]])
    ensures before[ids[i]].owner != trader ==> CancelledSoFar(before, s.orders, trader, ids, i + 1, cancelled)
  {
    assert ids[..i + 1] == ids[..i] + [ids[i]];
    IncreasingAppend(cancelled, ids[i]);
  }

  lemma CancelledEnds(before: OrderMap, orders: OrderMap, trader: Address, ids: seq<u64>, cancelled: seq<u64>)
    requires CancelledSoFar(before, orders, trader, ids, |ids|, cancelled)
    ensures Increasing(cancelled)
    ensures forall x :: x in cancelled <==> x in ids && x in before && before[x].owner == trader
  {
    assert ids[..|ids|] == ids;
  }

  lemma CancelOwnedStarts(s: State, trader: Address, market: u32)
    ensures CancelOwned(s, trader, ActiveOf(s.active, market)[0..]) == CancelTrader(s, trader, market)
  {
    assert ActiveOf(s.active, market)[0..] == ActiveOf(s.active, market);
  }

  lemma CancelOwnedSteps(s: State, trader: Address, ids: seq<u64>, i: nat)
    requires i < |ids|
    ensures CancelOwned(s, trader, ids[i..]) ==
              var hit := ids[i] in s.orders && s.orders[ids[i]].owner == trader && s.orders[ids[i]].status == Active;
              CancelOwned(if hit then Drop(s, ids[i]) else s, trader, ids[i + 1..])
  {
    assert ids[i..][1..] == ids[i + 1..];
  }

  lemma CancelOwnedEnds(s: State, trader: Address, ids: seq<u64>)
    ensures CancelOwned(s, trader, ids[|ids|..]) == s
  {
  }

  class Engine {
    var state: StateManager
    var orderbook: OrderbookManager

    // The state is sound, and book, active lists and position index agree with it.
    ghost predicate Valid()
      reads this, state, orderbook
    {
      && Inv(state.View())
      && orderbook.Agrees(state.View())
      && state.IndexAgrees()
    }

    constructor ()
      ensures Valid() && state.View() == EMPTY
      ensures fresh(state) && fresh(orderbook)
    {
      state := new StateManager();
      orderbook := new OrderbookManager();
    }

    method DefineMarket(id: u32, market: Market)
      requires Valid()
      modifies state`markets, state`marketList
      ensures Valid() && state.View() == SetMarket(old(state.View()), id, market)
      ensures state.markets == old(state.markets)[id := market] && id in state.marketList
      ensures state.View() == old(state.View()).(markets := state.markets, marketList := state.marketList)
    {
      hide Inv, BookAgrees;
      SetMarketInv(state.View(), id, market);
      state.SetMarket(id, market);
    }

    // What becomes of the taker once its fills are settled.
    method FinishOrder(order: Order, tif: TimeInForce) returns (r: Result<u64>)
      requires orderbook.Agrees(state.View()) && ListsActive(state.orders, state.active)
      requires order.id !in state.orders && order.status == Active
      modifies orderbook, state`orders, state`active
      ensures (state.View(), r) == Finish(old(state.View()), order, tif)
      ensures orderbook.Agrees(state.View())
    {
      hide BookAgrees, ListsActive, AddActive, AddToSide;
      ghost var s := state.View();
      ghost var bids, asks := orderbook.bids, orderbook.asks;
      UnlistedWhenAbsent(s, order.id);
      if order.remaining == 0 {
        var filled := order.(status := Filled);
        state.SetOrder(order.id, filled);
        StoreKeepsBook(bids, asks, s.orders, s.active, order.id, filled);
        return Ok(order.id);
      }
      match tif {
        case GTC | PostOnly =>
          state.SetOrder(order.id, order);
          state.AddActiveOrder(order.market, order.id);
          orderbook.AddOrder(order.id, order);
          AddKeepsBook(bids, asks, s.orders, s.active, order, orderbook.bids, orderbook.asks);
          r := Ok(order.id);
        case IOC =>
          var cancelled := order.(status := Cancelled);
          state.SetOrder(order.id, cancelled);
          StoreKeepsBook(bids, asks, s.orders, s.active, order.id, cancelled);
          r := Ok(order.id);
        case FOK =>
          r := Err(OrderNotFilled);
      }
    }

    // The checks an order passes before it gets an id.
    method Validate(trader: Address, req: OrderRequest) returns (r: Result<Market>)
      ensures r == Admit(state.View(), trader, req)
    {
      if req.market !in state.markets {
        return Err(MarketNotFound);
      }
      var market := state.markets[req.market];
      if req.price > 0 && !OnTick(market, req.price) {
        return Err(Other);
      }
      if req.size < market.minOrderSize || req.size > market.maxOrderSize {
        return Err(Other);
      }
      var b := BalanceKey(trader, market.quoteAsset);
      var balance := if b in state.balances then state.balances[b] else 0;
      var _ :- CheckOrderAllowed(market, balance, PositionOf(state.positions, PositionKey(trader, req.market)), req);
      r := Ok(market);
    }

    // Match the order and settle its fills, returning what is left of it; s is the state before it took its id.
    method MatchAndSettle(order: Order, market: Market, ghost s: State) returns (r: Result<u64>)
      requires Inv(s) && Fresh(s, order) && order.id + 1 < U64
      requires state.View() == s.(nextId := order.id + 1) && orderbook.Agrees(s) && state.IndexAgrees()
      modifies orderbook, state`orders, state`active, state`log, state`positions, state`positionIndex
      ensures orderbook.Agrees(state.View()) && state.IndexAgrees()
      ensures if order.postOnly && WouldTake(s, order) then r == Err(PostOnlyWouldTake) &&
              state.View() == s.(nextId := order.id + 1)
              else
                var sw := MatchAgainst(s, order);
                var settled := ProcessFills(s.positions, sw.fills, market.initialBps);
                && state.View() == AfterMatch(s, order, settled.positions)
                && r == (if settled.error.Some? then Err(settled.error.value) else Ok(sw.remaining))
    {
      hide Inv, BookAgrees, ProcessFills, MatchAgainst, WouldTake, FillTotal;
      MatchStartsClean(s, order);
      var fills :- orderbook.MatchOrder(state, order);
      var _ :- ProcessFillsInPlace(state, fills, market.initialBps);
      var filled := SumFills(fills);
      r := Ok(SaturatingSub(order.remaining, filled));
    }

    method ExecuteOrder(order: Order, market: Market, tif: TimeInForce, ghost s: State) returns (r: Result<u64>)
      requires Inv(s) && Fresh(s, order) && order.id + 1 < U64
      requires state.View() == s.(nextId := order.id + 1) && orderbook.Agrees(s) && state.IndexAgrees()
      modifies orderbook, state`orders, state`active, state`log, state`positions, state`positionIndex
      ensures orderbook.Agrees(state.View()) && state.IndexAgrees()
      ensures (state.View(), r) == Execute(s, order, market, tif)
    {
      hide Inv, BookAgrees, ProcessFills, ListsActive, MatchAgainst, AfterMatch, Finish, WouldTake;
      MatchEndsClean(s, order, ProcessFills(s.positions, MatchAgainst(s, order).fills, market.initialBps).positions);
      var left :- MatchAndSettle(order, market, s);
      r := FinishOrder(order.(remaining := left), tif);
    }

    method PlaceOrder(trader: Address, req: OrderRequest) returns (r: Result<u64>)
      requires Valid()
      modifies state, orderbook
      ensures Valid() && state.version == old(state.version)
      ensures (state.View(), r) == Exchange.PlaceOrder(old(state.View()), old(state.version), trader, req)
    {
      hide Inv, BookAgrees, Execute;
      ghost var s := state.View();
      PlaceInv(s, state.version, trader, req);
      var market :- Validate(trader, req);
      var id :- state.NextOrderId();
      r := ExecuteOrder(Incoming(id, state.version, trader, req), market, req.timeInForce, s);
    }

    method ClosePosition(trader: Address, market: u32, size: u64) returns (r: Result<u64>)
      requires Valid()
      modifies state, orderbook
      ensures Valid() && state.version == old(state.version)
      ensures (state.View(), r) == Exchange.ClosePosition(old(state.View()), old(state.version), trader, market, size)
    {
      var k := PositionKey(trader, market);
      if k !in state.positions {
        return Err(PositionNotFound);
      }
      var position := state.positions[k];
      var toClose := if size == 0 then position.size else Min(size, position.size);
      r := PlaceOrder(trader, OrderRequest(market, !position.isLong, 0, toClose, IOC, true, false));
    }

    // Take one active order out of book, state and active list.
    method DropOrder(id: u64)
      requires Inv(state.View()) && orderbook.Agrees(state.View())
      requires id in state.orders && state.orders[id].status == Active
      modifies orderbook, state`orders, state`active
      ensures state.View() == Drop(old(state.View()), id)
      ensures Inv(state.View()) && orderbook.Agrees(state.View())
    {
      ghost var s := state.View();
      ghost var bids, asks := orderbook.bids, orderbook.asks;
      var order := state.orders[id];
      orderbook.RemoveOrder(id, order);
      var cancelled := order.(status := Cancelled);
      state.SetOrder(id, cancelled);
      state.RemoveActiveOrder(order.market, id);
      DropInv(s, id);
      DropKeepsBook(bids, asks, s.orders, s.active, id, cancelled, orderbook.bids, orderbook.asks);
    }

    method CancelOrder(trader: Address, id: u64) returns (r: Result<()>)
      requires Valid()
      modifies orderbook, state`orders, state`active
      ensures Valid()
      ensures (state.View(), r) == Exchange.CancelOrder(old(state.View()), trader, id)
    {
      hide Inv, BookAgrees;
      if id !in state.orders {
        return Err(OrderNotFound);
      }
      var order := state.orders[id];
      if order.owner != trader {
        return Err(Unauthorized);
      }
      if order.status != Active {
        return Err(OrderNotFound);
      }
      DropOrder(id);
      r := Ok(());
    }

    // Liquidation's first step: the trader's active orders in the market all go, and are listed oldest first.
    method CancelTraderOrders(trader: Address, market: u32) returns (cancelled: seq<u64>)
      requires Valid()
      modifies orderbook, state`orders, state`active
      ensures Valid()
      ensures state.View() == CancelTrader(old(state.View()), trader, market)
      ensures Increasing(cancelled)
      ensures forall x :: x in cancelled <==>
                x in ActiveOf(old(state.active), market) && x in old(state.orders) &&
                    old(state.orders)[x].owner == trader
    {
      hide Inv, BookAgrees, CancelOwned, CancelTrader, CancelledSoFar, Increasing, Drop;
      cancelled := [];
      var ids := ActiveOf(state.active, market);
      ListedAreLive(state.View(), market);
      CancelledStarts(state.View(), trader, market);
      CancelOwnedStarts(state.View(), trader, market);
      var i := 0;
      while i < |ids|
        invariant 0 <= i <= |ids| && Valid()
        invariant CancelOwned(state.View(), trader, ids[i..]) == CancelTrader(old(state.View()), trader, market)
        invariant CancelledSoFar(old(state.orders), state.orders, trader, ids, i, cancelled)
      {
        var id := ids[i];
        CancelOwnedSteps(state.View(), trader, ids, i);
        CancelledSteps(old(state.orders), state.View(), trader, ids, i, cancelled);
        assert id in ids;
        if id in state.orders && state.orders[id].owner == trader && state.orders[id].status == Active {
          DropOrder(id);
          cancelled := cancelled + [id];
        }
        i := i + 1;
      }
      CancelOwnedEnds(state.View(), trader, ids);
      CancelledEnds(old(state.orders), state.orders, trader, ids, cancelled);
    }

    // Refill an empty book from the active lists, market by market and oldest order first, dropping
    // list entries whose order is no longer live. Needs less than a sound state.
    method RebuildOrderbookFromState()
      requires Filed(state.View())
      modifies this`orderbook, state`active
      ensures fresh(orderbook)
      ensures RebuiltUpTo(old(state.View()), state.active, orderbook.bids, orderbook.asks, |state.marketList|)
    {
      hide RebuiltUpTo, Rebuilding, Filed;
      ghost var s := state.View();
      var book := new OrderbookManager();
      RebuildBegins(s);
      var k := 0;
      while k < |state.marketList|
        invariant 0 <= k <= |state.marketList|
        invariant RebuiltUpTo(s, state.active, book.bids, book.asks, k)
      {
        var market := state.marketList[k];
        var ids := ActiveOf(state.active, market);
        RebuildOpens(s, state.active, book.bids, book.asks, k);
        var i := 0;
        while i < |ids|
          invariant 0 <= i <= |ids|
          invariant Rebuilding(s, state.active, book.bids, book.asks, k, ids, i)
        {
          var id := ids[i];
          ghost var active, bids, asks := state.active, book.bids, book.asks;
          RebuildMarket(s, active, bids, asks, k, ids, i);
          if id in state.orders {
            var order := state.orders[id];
            if order.status == Active && order.remaining > 0 {
              book.AddOrder(id, order);
            } else {
              state.RemoveActiveOrder(market, id);
            }
          }
          RebuildStep(s, active, bids, asks, k, ids, i, state.active, book.bids, book.asks);
          i := i + 1;
        }
        RebuildCloses(s, state.active, book.bids, book.asks, k, ids);
        k := k + 1;
      }
      orderbook := book;
    }

    // Recovery equals the live book: rebuilding in any sound state, and so in every reachable one, yields
    // the same levels, queues and totals, and leaves the active lists alone.
    method Restart()
      requires Valid()
      modifies this`orderbook, state`active
      ensures Valid()
      ensures SameBook(old(orderbook.bids), orderbook.bids) && SameBook(old(orderbook.asks), orderbook.asks)
      ensures SameLists(old(state.active), state.active)
    {
      hide Inv, BookAgrees, RebuiltUpTo, Filed;
      ghost var s, bids, asks := state.View(), orderbook.bids, orderbook.asks;
      SoundIsFiled(s);
      RebuildOrderbookFromState();
      RebuildIsIdentity(s, state.active, bids, asks, orderbook.bids, orderbook.asks);
    }
  }
}
