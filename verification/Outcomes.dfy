// What becomes of an order that is placed, cancelled or placed to close a position, said about the request.
module Outcomes {
  import opened Types
  import opened Queues
  import opened Matching
  import opened Positions
  import opened Risk
  import opened Exchange
  import opened Invariants
  import opened Priority
  import opened OpenInterest
  import opened Admission
  import OrderTransactions
  import ReduceOnly

  // ---------------------------------------------------------------------------
  // Placing
  // ---------------------------------------------------------------------------

  // The order as the exchange stores it.
  function Requested(id: u64, version: u64, trader: Address, req: OrderRequest, remaining: u64,
                     status: Status): (r: Order)
  {
    Order(id, req.market, trader, req.isBuy, req.price, req.size, remaining, status, version, req.reduceOnly,
          req.postOnly)
  }

  // Post-only, and some live order on the other side, its own trader's included, is within its limit.
  ghost predicate TurnedAway(s: State, req: OrderRequest) {
    req.postOnly && exists x :: x in s.orders && s.orders[x].status == Active && s.orders[x].market == req.market &&
                                s.orders[x].isBuy != req.isBuy &&
                                (req.price > 0 ==> if req.isBuy then s.orders[x].price <= req.price
                                                   else req.price <= s.orders[x].price)
  }

  // The order gets to the book.
  ghost predicate Reaches(s: State, trader: Address, req: OrderRequest) {
    Admit(s, trader, req).Ok? && s.nextId + 1 < U64 && !TurnedAway(s, req)
  }

  // Nothing but orders, lists, positions, the log and the id counter moves, and the id is used up.
  ghost predicate OnlyTrading(s: State, s': State) {
    && s'.nextId == s.nextId + 1
    && s' == s.(nextId := s'.nextId, orders := s'.orders, active := s'.active, positions := s'.positions, log := s'.log)
  }

  lemma TurnedAwayExactly(s: State, version: u64, trader: Address, req: OrderRequest)
    requires Inv(s)
    ensures var order := Incoming(s.nextId, version, trader, req);
            order.postOnly && WouldTake(s, order) <==> TurnedAway(s, req)
  {
    var order := Incoming(s.nextId, version, trader, req);
    assert forall x: u64 :: x in ActiveOf(s.active, order.market) <==>
                              x in s.orders && s.orders[x].market == order.market && s.orders[x].status == Active;
  }

  // An order that does not get to the book: whatever the reason, at most an id is used up.
  lemma OrderRefused(s: State, version: u64, trader: Address, req: OrderRequest)
    requires Inv(s)
    ensures var out := PlaceOrder(s, version, trader, req);
            && (Admit(s, trader, req).Err? ==> out == (s, Err(Admit(s, trader, req).error)))
            && (Admit(s, trader, req).Ok? && s.nextId + 1 == U64 ==> out == (s, Err(Other)))
            && (Admit(s, trader, req).Ok? && s.nextId + 1 < U64 && TurnedAway(s, req) ==>
                out == (s.(nextId := s.nextId + 1), Err(PostOnlyWouldTake)))
  {
    hide Inv, MatchAgainst, ProcessFills, Finish, Admit, WouldTake, TurnedAway;
    TurnedAwayExactly(s, version, trader, req);
  }

  // What is left of the order after the match, in terms of what was offered to it.
  function LeftOf(s: State, order: Order): (r: nat) {
    if Offered(s, order) >= order.remaining then 0 else order.remaining - Offered(s, order)
  }

  // An order that gets to the book and whose fills settle: it takes what is offered to it. Filled completely
  // it is stored Filled, whatever its time in force; otherwise it rests at the end of its market's list, is
  // cancelled with what is left, or fails without being stored.
  lemma OrderOutcome(s: State, version: u64, trader: Address, req: OrderRequest)
    requires Inv(s) && Reaches(s, trader, req)
    requires AllFit(s.positions, MatchAgainst(s, Requested(s.nextId, version, trader, req, req.size, Active)).fills,
                    BpsOf(s, req.market))
    ensures var id, order := s.nextId, Requested(s.nextId, version, trader, req, req.size, Active);
            var sw, left, out := MatchAgainst(s, order), LeftOf(s, order), PlaceOrder(s, version, trader, req);
            var rests := left > 0 && (req.timeInForce == GTC || req.timeInForce == PostOnly);
            var stored := Requested(id, version, trader, req, left, if left == 0 then Filled
                                                                    else if rests then Active else Cancelled);
            && OnlyTrading(s, out.0) && out.0.log == s.log + sw.fills && FillTotal(sw.fills) == req.size - left
            && out.0.positions == ProcessFills(s.positions, sw.fills, BpsOf(s, req.market)).positions
            && (left > 0 && req.timeInForce == FOK ==>
                  out.1 == Err(OrderNotFilled) && out.0.orders == sw.orders && id !in out.0.orders)
            && (left == 0 || req.timeInForce != FOK ==>
                  out.1 == Ok(id) && id !in s.orders && out.0.orders == sw.orders[id := stored])
            && (forall m: u32 :: ActiveOf(out.0.active, m)
                                 == ActiveOf(sw.active, m) + (if rests && m == req.market then [id] else []))
  {
    hide Inv, Admit, PlaceOrder, MatchAgainst, ProcessFills, Offered, AllFit, FillTotal, TurnedAway, Reaches;
    var order := Requested(s.nextId, version, trader, req, req.size, Active);
    var positions := ProcessFills(s.positions, MatchAgainst(s, order).fills, BpsOf(s, req.market)).positions;
    GoesThrough(s, version, trader, req);
    TakerNewTo(s, version, trader, req, positions);
  }

  // Matched and settled in full, it remains to be stored as its time in force says.
  lemma GoesThrough(s: State, version: u64, trader: Address, req: OrderRequest)
    requires Inv(s) && Reaches(s, trader, req)
    requires AllFit(s.positions, MatchAgainst(s, Requested(s.nextId, version, trader, req, req.size, Active)).fills,
                    BpsOf(s, req.market))
    ensures s.nextId + 1 < U64
    ensures var order := Requested(s.nextId, version, trader, req, req.size, Active);
            var sw, left := MatchAgainst(s, order), LeftOf(s, order);
            var positions := ProcessFills(s.positions, sw.fills, BpsOf(s, req.market)).positions;
            && FillTotal(sw.fills) == req.size - left && 0 <= left <= req.size
            && PlaceOrder(s, version, trader, req)
               == Finish(AfterMatch(s, order, positions), order.(remaining := left), req.timeInForce)
  {
    hide Inv, MatchAgainst, ProcessFills, WouldTake, Offered, AllFit, FillTotal, Admit, TurnedAway, Finish, AfterMatch;
    var order := Requested(s.nextId, version, trader, req, req.size, Active);
    var fills := MatchAgainst(s, order).fills;
    assert order == Incoming(s.nextId, version, trader, req);
    AdmittedTo(s, trader, req);
    OrderTransactions.AdmittedFresh(s, version, trader, req);
    TurnedAwayExactly(s, version, trader, req);
    MatchLeaves(s, order);
    OrderTransactions.MatchTotals(s, order);
    MatchFillsAreTrades(s, order);
    SettlesExactly(s.positions, fills, BpsOf(s, req.market), req.market);
  }

  lemma TakerNewTo(s: State, version: u64, trader: Address, req: OrderRequest, positions: PositionMap)
    requires Inv(s) && Reaches(s, trader, req)
    ensures var order := Requested(s.nextId, version, trader, req, req.size, Active);
            && order.id !in s.orders && order.id !in MatchAgainst(s, order).orders
            && forall m: u32 :: order.id !in ActiveOf(MatchAgainst(s, order).active, m)
  {
    hide Inv, MatchAgainst, Admit, TurnedAway;
    OrderTransactions.AdmittedFresh(s, version, trader, req);
    var order := Requested(s.nextId, version, trader, req, req.size, Active);
    assert order == Incoming(s.nextId, version, trader, req);
    TakerNew(s, order, positions);
  }

  lemma AdmittedTo(s: State, trader: Address, req: OrderRequest)
    requires Admit(s, trader, req).Ok?
    ensures req.market in s.markets && Admit(s, trader, req).value == s.markets[req.market]
  {
  }

  // The taker's id is new to the orders and to every list.
  lemma TakerNew(s: State, order: Order, positions: PositionMap)
    requires Inv(s) && Fresh(s, order) && order.id + 1 < U64
    ensures order.id !in s.orders && order.id !in MatchAgainst(s, order).orders
    ensures forall m: u32 :: order.id !in ActiveOf(MatchAgainst(s, order).active, m)
  {
    hide Inv, MatchAgainst;
    var t := AfterMatch(s, order, positions);
    MatchedInv(s, order, t);
    TakerReady(s, order, t);
    MatchFrameHolds(s, order);
    ListedOnly(t, order.id);
  }

  lemma ListedOnly(s: State, x: u64)
    requires Inv(s) && x !in s.orders
    ensures forall m: u32 :: x !in ActiveOf(s.active, m)
  {
  }

  // An order whose fills do not all settle fails with the overflow and is stored nowhere; the makers stay
  // matched and the positions stay as far as settlement got.
  lemma OrderStops(s: State, version: u64, trader: Address, req: OrderRequest)
    requires Inv(s) && Reaches(s, trader, req)
    requires !AllFit(s.positions, MatchAgainst(s, Requested(s.nextId, version, trader, req, req.size, Active)).fills,
                     BpsOf(s, req.market))
    ensures var order := Requested(s.nextId, version, trader, req, req.size, Active);
            var sw, out := MatchAgainst(s, order), PlaceOrder(s, version, trader, req);
            && out.1 == Err(Overflow) && OnlyTrading(s, out.0) && out.0.log == s.log + sw.fills
            && out.0.orders == sw.orders && order.id !in out.0.orders && out.0.active == sw.active
            && out.0.positions == ProcessFills(s.positions, sw.fills, BpsOf(s, req.market)).positions
  {
    hide Inv, MatchAgainst, ProcessFills, WouldTake, AllFit, Admit, TurnedAway;
    var order := Requested(s.nextId, version, trader, req, req.size, Active);
    var fills := MatchAgainst(s, order).fills;
    assert order == Incoming(s.nextId, version, trader, req);
    AdmittedTo(s, trader, req);
    OrderTransactions.AdmittedFresh(s, version, trader, req);
    TurnedAwayExactly(s, version, trader, req);
    MatchFillsAreTrades(s, order);
    SettlesExactly(s.positions, fills, BpsOf(s, req.market), req.market);
    OrderTransactions.OnlyOverflows(s.positions, fills, BpsOf(s, req.market));
    TakerNew(s, order, ProcessFills(s.positions, fills, BpsOf(s, req.market)).positions);
  }

  // ---------------------------------------------------------------------------
  // Cancelling
  // ---------------------------------------------------------------------------

  // One live order leaves its list and turns Cancelled with its size; nothing else moves.
  ghost predicate Dropped(s: State, s': State, id: u64)
    requires id in s.orders
  {
    && s' == s.(orders := s.orders[id := s.orders[id].(status := Cancelled)], active := s'.active)
    && Inv(s')
    && forall m: u32 :: CutFrom(ActiveOf(s.active, m), ActiveOf(s'.active, m), id, m == s.orders[id].market)
  }

  lemma DropsOne(s: State, id: u64)
    requires Inv(s) && id in s.orders && s.orders[id].status == Active
    ensures Dropped(s, Drop(s, id), id)
  {
    hide Inv;
    DropInv(s, id);
    var market := s.orders[id].market;
    var ids := ActiveOf(s.active, market);
    var k := ListedOnce(s, id);
    WithoutIsCut(ids, id, k);
    assert CutFrom(ids, ActiveOf(Drop(s, id).active, market), id, true);
  }

  lemma ListedOnce(s: State, id: u64) returns (k: nat)
    requires Inv(s) && id in s.orders && s.orders[id].status == Active
    ensures var ids := ActiveOf(s.active, s.orders[id].market); Increasing(ids) && k < |ids| && ids[k] == id
  {
    var ids := ActiveOf(s.active, s.orders[id].market);
    assert id in ids;
    k :| 0 <= k < |ids| && ids[k] == id;
  }

  // Only the owner of a live order cancels it. Every other attempt is told why and changes nothing.
  lemma CancelOutcome(s: State, trader: Address, id: u64)
    requires Inv(s)
    ensures var out := CancelOrder(s, trader, id);
            && (out.1.Ok? <==> id in s.orders && s.orders[id].owner == trader && s.orders[id].status == Active)
            && (out.1 == Err(Unauthorized) <==> id in s.orders && s.orders[id].owner != trader)
            && (out.1 == Err(OrderNotFound) <==>
                id !in s.orders || (s.orders[id].owner == trader && s.orders[id].status != Active))
            && (out.1.Err? ==> out.0 == s)
            && (out.1.Ok? ==> Dropped(s, out.0, id))
  {
    hide Inv, Drop, Dropped;
    if id in s.orders && s.orders[id].status == Active {
      DropsOne(s, id);
    }
  }

  // The list lost its one entry x, or is the same.
  ghost predicate CutFrom(ids: seq<u64>, ids': seq<u64>, x: u64, cut: bool) {
    if cut then exists k :: 0 <= k < |ids| && ids[k] == x && ids' == ids[..k] + ids[k + 1..] else ids' == ids
  }

  // ---------------------------------------------------------------------------
  // Closing
  // ---------------------------------------------------------------------------

  // The size closed: what is asked, or all of the position when nothing or too much is.
  function Asked(p: Position, size: u64): (r: u64) {
    if size == 0 || size > p.size then p.size else size
  }

  // The request closing stands for: at any price, against the position, never beyond it, nothing resting.
  lemma CloseIsReduction(s: State, version: u64, trader: Address, market: u32, size: u64)
    ensures var k := PositionKey(trader, market);
            Exchange.ClosePosition(s, version, trader, market, size) ==
              if k !in s.positions then (s, Err(PositionNotFound))
              else
                var p := s.positions[k];
                var req := OrderRequest(market, !p.isLong, 0, Asked(p, size), IOC, true, false);
                PlaceOrder(s, version, trader, req)
  {
    hide PlaceOrder;
  }

  // Closing takes from the position exactly the smaller of what is asked and what is offered, when the
  // order is within the market's size limits, the locked margin fits and the fills settle.
  lemma CloseOutcome(s: State, version: u64, trader: Address, market: u32, size: u64)
    requires Inv(s) && PositionKey(trader, market) in s.positions && market in s.markets && s.nextId + 1 < U64
    requires var p := s.positions[PositionKey(trader, market)];
             && p.size > 0 && s.markets[market].minOrderSize <= Asked(p, size) <= s.markets[market].maxOrderSize
             && LockedFits(Some(p), OrderRequest(market, !p.isLong, 0, Asked(p, size), IOC, true, false))
             && AllFit(s.positions, MatchAgainst(s, Closing(s, version, trader, market, size)).fills, BpsOf(s, market))
    ensures var k := PositionKey(trader, market);
            var p, out := s.positions[k], Exchange.ClosePosition(s, version, trader, market, size);
            var taken := Min(Asked(p, size), Offered(s, Closing(s, version, trader, market, size)));
            && out.1 == Ok(s.nextId)
            && ReduceOnly.Remainder(p, taken, PositionOf(out.0.positions, k))
  {
    hide Inv, MatchAgainst, ProcessFills, WouldTake, Offered, AllFit, FillTotal, LockedFits, Admit;
    var p := s.positions[PositionKey(trader, market)];
    var req := OrderRequest(market, !p.isLong, 0, Asked(p, size), IOC, true, false);
    CloseIsReduction(s, version, trader, market, size);
    MarketOrderExactly(s, trader, req);
    AdmittedTo(s, trader, req);
    OrderOutcome(s, version, trader, req);
    var order := Closing(s, version, trader, market, size);
    OrderTransactions.AdmittedFresh(s, version, trader, req);
    MatchFillsAreTrades(s, order);
    SettlesExactly(s.positions, MatchAgainst(s, order).fills, BpsOf(s, market), market);
    var taken := ReduceOnly.ReduceOnlyNeverFlips(s, version, trader, req);
  }

  // The closing order as it meets the book.
  function Closing(s: State, version: u64, trader: Address, market: u32, size: u64): (r: Order)
    requires PositionKey(trader, market) in s.positions
  {
    var p := s.positions[PositionKey(trader, market)];
    Order(s.nextId, market, trader, !p.isLong, 0, Asked(p, size), Asked(p, size), Active, version, true, false)
  }
}
