// The code keeps a level's total in u64 and adds to it unchecked. When that sum fits, and when it does not.
module LevelSizes {
  import opened Types
  import opened Queues
  import opened Matching
  import opened PriceLevels
  import opened Exchange
  import opened Invariants
  import opened Recovery
  import opened OpenInterest
  import opened Priority
  import Admission

  // What rests at one price.
  function LevelSize(orders: OrderMap, active: ActiveLists, market: u32, isBuy: bool, price: u64): (r: nat) {
    TotalRemaining(orders, QueueAt(orders, ActiveOf(active, market), isBuy, price))
  }

  // Every level's total fits in u64.
  ghost predicate LevelsFit(s: State) {
    forall m: u32, b: bool, p: u64 :: LevelSize(s.orders, s.active, m, b, p) < U64
  }

  ghost predicate CachedFits(bids: Book, asks: Book, m: u32, b: bool, p: u64) {
    var side := SideOf(if b then bids else asks, m);
    p in side ==> side[p].total < U64
  }

  // The cached totals of the book are what fits or not.
  lemma CachedTotalsFit(bids: Book, asks: Book, s: State)
    requires BookAgrees(bids, asks, s.orders, s.active)
    ensures LevelsFit(s) <==> forall m: u32, b: bool, p: u64 :: CachedFits(bids, asks, m, b, p)
  {
    forall m: u32, b: bool, p: u64
      ensures CachedFits(bids, asks, m, b, p) <==> LevelSize(s.orders, s.active, m, b, p) < U64
    {
      assert AgreesAt(bids, asks, s.orders, s.active, m, b);
      assert LevelAgrees(SideOf(if b then bids else asks, m), s.orders, ActiveOf(s.active, m), b, p);
    }
  }

  // ---------------------------------------------------------------------------
  // Matching and cancelling never add to a level
  // ---------------------------------------------------------------------------

  ghost predicate NoLevelGrows(orders: OrderMap, active: ActiveLists, orders': OrderMap, active': ActiveLists) {
    forall m: u32, b: bool, p: u64 :: LevelSize(orders', active', m, b, p) <= LevelSize(orders, active, m, b, p)
  }

  lemma ShrinkingFits(s: State, s': State)
    requires NoLevelGrows(s.orders, s.active, s'.orders, s'.active) && LevelsFit(s)
    ensures LevelsFit(s')
  {
    hide LevelSize;
    forall m: u32, b: bool, p: u64 ensures LevelSize(s'.orders, s'.active, m, b, p) < U64 {
      assert LevelSize(s'.orders, s'.active, m, b, p) <= LevelSize(s.orders, s.active, m, b, p);
    }
  }

  lemma {:induction false} TotalLess(orders: OrderMap, orders': OrderMap, ids: seq<u64>)
    requires forall x :: x in ids ==> RemainingOf(orders', x) <= RemainingOf(orders, x)
    ensures TotalRemaining(orders', ids) <= TotalRemaining(orders, ids)
  {
    if ids != [] {
      TotalLess(orders, orders', ids[..|ids| - 1]);
    }
  }

  lemma {:induction false} TotalWithoutLess(orders: OrderMap, ids: seq<u64>, x: u64)
    ensures TotalRemaining(orders, Without(ids, x)) <= TotalRemaining(orders, ids)
  {
    if ids != [] {
      var init, last := ids[..|ids| - 1], ids[|ids| - 1];
      TotalWithoutLess(orders, init, x);
      if last != x {
        TotalAppend(orders, Without(init, x), last);
      }
    }
  }

  // An order rewritten in place without gaining size, and perhaps taken off its list.
  lemma RewriteShrinks(orders: OrderMap, active: ActiveLists, x: u64, o: Order)
    requires x in orders && o.isBuy == orders[x].isBuy && o.price == orders[x].price &&
             o.remaining <= orders[x].remaining
    ensures NoLevelGrows(orders, active, orders[x := o], active)
    ensures NoLevelGrows(orders, active, orders[x := o], RemoveActive(active, o.market, x))
  {
    var orders', active' := orders[x := o], RemoveActive(active, o.market, x);
    forall m: u32, b: bool, p: u64
      ensures LevelSize(orders', active, m, b, p) <= LevelSize(orders, active, m, b, p)
      ensures LevelSize(orders', active', m, b, p) <= LevelSize(orders, active, m, b, p)
    {
      RewriteShrinksLevel(orders, ActiveOf(active, m), x, o, b, p);
    }
  }

  lemma RewriteShrinksLevel(orders: OrderMap, ids: seq<u64>, x: u64, o: Order, b: bool, p: u64)
    requires x in orders && o.isBuy == orders[x].isBuy && o.price == orders[x].price &&
             o.remaining <= orders[x].remaining
    ensures var orders' := orders[x := o];
            var size := TotalRemaining(orders, QueueAt(orders, ids, b, p));
            && TotalRemaining(orders', QueueAt(orders', ids, b, p)) <= size
            && TotalRemaining(orders', QueueAt(orders', Without(ids, x), b, p)) <= size
  {
    var orders' := orders[x := o];
    QueueSame(orders, orders', ids, b, p);
    TotalLess(orders, orders', QueueAt(orders, ids, b, p));
    QueueWithout(orders', ids, x, b, p);
    TotalWithoutLess(orders', QueueAt(orders', ids, b, p), x);
  }

  lemma TouchShrinks(sw: Sweep, taker: Order, id: u64)
    ensures var sw' := Touch(sw, taker, id); NoLevelGrows(sw.orders, sw.active, sw'.orders, sw'.active)
  {
    hide LevelSize;
    var sw' := Touch(sw, taker, id);
    if sw' != sw {
      RewriteShrinks(sw.orders, sw.active, id, sw'.orders[id]);
    }
  }

  lemma GrowthTransitive(a: OrderMap, aa: ActiveLists, b: OrderMap, ba: ActiveLists, c: OrderMap, ca: ActiveLists)
    requires NoLevelGrows(a, aa, b, ba) && NoLevelGrows(b, ba, c, ca)
    ensures NoLevelGrows(a, aa, c, ca)
  {
    hide LevelSize;
    forall m: u32, s: bool, p: u64 ensures LevelSize(c, ca, m, s, p) <= LevelSize(a, aa, m, s, p) {
      assert LevelSize(b, ba, m, s, p) <= LevelSize(a, aa, m, s, p);
    }
  }

  lemma {:induction false} SweepShrinks(sw: Sweep, taker: Order, ms: seq<u64>)
    ensures var out := SweepAll(sw, taker, ms); NoLevelGrows(sw.orders, sw.active, out.orders, out.active)
    decreases ms
  {
    hide NoLevelGrows, Touch;
    if ms == [] {
      SameSizes(sw.orders, sw.active);
    } else {
      var sw' := Touch(sw, taker, ms[0]);
      var out := SweepAll(sw', taker, ms[1..]);
      TouchShrinks(sw, taker, ms[0]);
      SweepShrinks(sw', taker, ms[1..]);
      GrowthTransitive(sw.orders, sw.active, sw'.orders, sw'.active, out.orders, out.active);
    }
  }

  lemma SameSizes(orders: OrderMap, active: ActiveLists)
    ensures NoLevelGrows(orders, active, orders, active)
  {
  }

  // A match never adds to a level.
  lemma MatchShrinks(s: State, order: Order)
    ensures var sw := MatchAgainst(s, order); NoLevelGrows(s.orders, s.active, sw.orders, sw.active)
  {
    SweepShrinks(Sweep(s.orders, s.active, order.remaining, []), order,
                 Makers(s.orders, ActiveOf(s.active, order.market), !order.isBuy));
  }

  // Cancelling never adds to a level.
  lemma DropShrinks(s: State, id: u64)
    requires id in s.orders
    ensures NoLevelGrows(s.orders, s.active, Drop(s, id).orders, Drop(s, id).active)
  {
    RewriteShrinks(s.orders, s.active, id, s.orders[id].(status := Cancelled));
  }

  lemma {:induction false} CancelOwnedShrinks(s: State, trader: Address, ids: seq<u64>)
    ensures var s' := CancelOwned(s, trader, ids); NoLevelGrows(s.orders, s.active, s'.orders, s'.active)
    decreases ids
  {
    hide NoLevelGrows, Drop;
    if ids == [] {
      SameSizes(s.orders, s.active);
    } else {
      var hit := ids[0] in s.orders && s.orders[ids[0]].owner == trader && s.orders[ids[0]].status == Active;
      var t := if hit then Drop(s, ids[0]) else s;
      SameSizes(s.orders, s.active);
      if hit {
        DropShrinks(s, ids[0]);
      }
      CancelOwnedShrinks(t, trader, ids[1..]);
      var s' := CancelOwned(t, trader, ids[1..]);
      GrowthTransitive(s.orders, s.active, t.orders, t.active, s'.orders, s'.active);
    }
  }

  // ---------------------------------------------------------------------------
  // Rebuilding
  // ---------------------------------------------------------------------------

  lemma LastOfQueue(orders: OrderMap, init: seq<u64>, last: u64, b: bool, p: u64)
    ensures TotalRemaining(orders, QueueAt(orders, init + [last], b, p))
         == TotalRemaining(orders, QueueAt(orders, init, b, p))
             + (if Rests(orders, last, b, p) then RemainingOf(orders, last) else 0)
  {
    QueueAppend(orders, init, last, b, p);
    TotalAppend(orders, QueueAt(orders, init, b, p), last);
    assert QueueAt(orders, init, b, p) + [] == QueueAt(orders, init, b, p);
  }

  // While the book is refilled from a list, a level holds part of what the list says, whatever is stale.
  lemma {:induction false} RebuildFits(orders: OrderMap, ids: seq<u64>, i: nat, b: bool, p: u64)
    requires i <= |ids|
    ensures TotalRemaining(orders, QueueAt(orders, LiveOnly(orders, ids[..i]), b, p))
         <= TotalRemaining(orders, QueueAt(orders, ids, b, p))
  {
    hide QueueAt, TotalRemaining, Rests, Stale;
    if ids != [] {
      var init, last := ids[..|ids| - 1], ids[|ids| - 1];
      assert ids == init + [last];
      LastOfQueue(orders, init, last, b, p);
      if i < |ids| {
        RebuildFits(orders, init, i, b, p);
        assert init[..i] == ids[..i];
      } else {
        RebuildFits(orders, init, |init|, b, p);
        assert ids[..i] == ids && init[..|init|] == init;
        LastOfQueue(orders, LiveOnly(orders, init), last, b, p);
      }
    } else {
      assert ids[..i] == ids;
    }
  }

  // Recovery of a sound state keeps the lists, and with them what fits.
  lemma RestartFits(s: State, active': ActiveLists)
    requires SameLists(s.active, active')
    ensures LevelsFit(s.(active := active')) <==> LevelsFit(s)
  {
    forall m: u32, b: bool, p: u64
      ensures LevelSize(s.orders, active', m, b, p) == LevelSize(s.orders, s.active, m, b, p)
    {
    }
  }

  // ---------------------------------------------------------------------------
  // Coming to rest
  // ---------------------------------------------------------------------------

  lemma StoreKeepsLevels(orders: OrderMap, active: ActiveLists, o: Order)
    requires forall m: u32 :: o.id !in ActiveOf(active, m)
    ensures NoLevelGrows(orders, active, orders[o.id := o], active)
  {
    forall m: u32, b: bool, p: u64
      ensures LevelSize(orders[o.id := o], active, m, b, p) <= LevelSize(orders, active, m, b, p)
    {
      StaysLevel(orders, ActiveOf(active, m), o, b, p);
    }
  }

  lemma JoinsLevel(orders: OrderMap, ids: seq<u64>, o: Order)
    requires o.id !in ids
    ensures TotalRemaining(orders[o.id := o], QueueAt(orders[o.id := o], ids + [o.id], o.isBuy, o.price))
         == TotalRemaining(orders, QueueAt(orders, ids, o.isBuy, o.price)) + o.remaining
  {
    QueueJoined(orders, ids, o.id, o);
  }

  lemma PassesLevel(orders: OrderMap, ids: seq<u64>, o: Order, b: bool, p: u64)
    requires o.id !in ids && !(b == o.isBuy && p == o.price)
    ensures TotalRemaining(orders[o.id := o], QueueAt(orders[o.id := o], ids + [o.id], b, p))
         == TotalRemaining(orders, QueueAt(orders, ids, b, p))
  {
    StaysLevel(orders, ids, o, b, p);
    LastOfQueue(orders[o.id := o], ids, o.id, b, p);
  }

  lemma StaysLevel(orders: OrderMap, ids: seq<u64>, o: Order, b: bool, p: u64)
    requires o.id !in ids
    ensures TotalRemaining(orders[o.id := o], QueueAt(orders[o.id := o], ids, b, p))
         == TotalRemaining(orders, QueueAt(orders, ids, b, p))
  {
    QueueSame(orders, orders[o.id := o], ids, b, p);
    TotalSame(orders, orders[o.id := o], QueueAt(orders, ids, b, p));
  }

  // A resting order adds its size to its own level and to no other.
  lemma RestAdds(orders: OrderMap, active: ActiveLists, o: Order, m: u32, b: bool, p: u64)
    requires forall m: u32 :: o.id !in ActiveOf(active, m)
    ensures LevelSize(orders[o.id := o], AddActive(active, o.market, o.id), m, b, p)
         == LevelSize(orders, active, m, b, p)
             + (if m == o.market && b == o.isBuy && p == o.price then o.remaining else 0)
  {
    hide QueueAt, TotalRemaining;
    var ids := ActiveOf(active, m);
    assert o.id !in ids && o.id !in ActiveOf(active, o.market);
    if m != o.market {
      StaysLevel(orders, ids, o, b, p);
    } else if b == o.isBuy && p == o.price {
      JoinsLevel(orders, ids, o);
    } else {
      PassesLevel(orders, ids, o, b, p);
    }
  }

  predicate Resting(order: Order, tif: TimeInForce) {
    order.remaining > 0 && (tif == GTC || tif == PostOnly)
  }

  // Once its fills are settled, a taker keeps the levels fitting exactly when it does not rest, or its level
  // has room for it.
  lemma FinishFitsExactly(s: State, order: Order, tif: TimeInForce)
    requires LevelsFit(s) && forall m: u32 :: order.id !in ActiveOf(s.active, m)
    ensures LevelsFit(Finish(s, order, tif).0) <==>
              (Resting(order, tif) ==>
                 LevelSize(s.orders, s.active, order.market, order.isBuy, order.price) + order.remaining < U64)
  {
    hide LevelSize, AddActive, NoLevelGrows;
    var s' := Finish(s, order, tif).0;
    if Resting(order, tif) {
      forall m: u32, b: bool, p: u64
        ensures LevelSize(s'.orders, s'.active, m, b, p) == LevelSize(s.orders, s.active, m, b, p)
                  + (if m == order.market && b == order.isBuy && p == order.price then order.remaining else 0)
      {
        RestAdds(s.orders, s.active, order, m, b, p);
      }
      assert LevelSize(s'.orders, s'.active, order.market, order.isBuy, order.price)
          == LevelSize(s.orders, s.active, order.market, order.isBuy, order.price) + order.remaining;
    } else if order.remaining == 0 {
      StoreKeepsLevels(s.orders, s.active, order.(status := Filled));
      ShrinkingFits(s, s');
    } else if tif == IOC {
      StoreKeepsLevels(s.orders, s.active, order.(status := Cancelled));
      ShrinkingFits(s, s');
    }
  }

  // ---------------------------------------------------------------------------
  // Steps and runs
  // ---------------------------------------------------------------------------

  // The taker's own level is not touched by its match.
  lemma {:induction false} OwnLevelKept(sw: Sweep, taker: Order, ms: seq<u64>, m: u32, p: u64)
    requires forall x :: x in ms ==> x in sw.orders && sw.orders[x].isBuy != taker.isBuy
    ensures var out := SweepAll(sw, taker, ms);
            LevelSize(out.orders, out.active, m, taker.isBuy, p) == LevelSize(sw.orders, sw.active, m, taker.isBuy, p)
    decreases ms
  {
    hide LevelSize;
    if ms != [] {
      var sw' := Touch(sw, taker, ms[0]);
      assert ms[0] in ms && forall x :: x in ms[1..] ==> x in ms;
      if sw' != sw {
        OtherLevelKept(sw.orders, sw.active, ms[0], sw'.orders[ms[0]], m, taker.isBuy, p);
      }
      OwnLevelKept(sw', taker, ms[1..], m, p);
    }
  }

  lemma OtherLevelKept(orders: OrderMap, active: ActiveLists, x: u64, o: Order, m: u32, b: bool, p: u64)
    requires x in orders && o.isBuy == orders[x].isBuy && o.price == orders[x].price && o.isBuy != b
    ensures LevelSize(orders[x := o], active, m, b, p) == LevelSize(orders, active, m, b, p)
    ensures LevelSize(orders[x := o], RemoveActive(active, o.market, x), m, b, p) == LevelSize(orders, active, m, b, p)
  {
    QueueUntouched(orders, ActiveOf(active, m), x, o, b, p);
    TotalSame(orders, orders[x := o], QueueAt(orders, ActiveOf(active, m), b, p));
  }

  // What would be left of the order: its size beyond what is offered to it.
  function Left(s: State, order: Order): (r: u64) {
    SaturatingSub(order.remaining, Offered(s, order))
  }

  // The order is admitted, not refused as post-only, keeps some size, and its fills settle.
  ghost predicate ComesToRest(s: State, version: u64, trader: Address, req: OrderRequest) {
    var order := Incoming(s.nextId, version, trader, req);
    && Admit(s, trader, req).Ok? && s.nextId + 1 < U64 && !(order.postOnly && WouldTake(s, order))
    && Resting(order.(remaining := Left(s, order)), req.timeInForce)
    && AllFit(s.positions, MatchAgainst(s, order).fills, s.markets[req.market].initialBps)
  }

  // Its level, as it was before the order, has room for what is left of it.
  ghost predicate RestFits(s: State, version: u64, trader: Address, req: OrderRequest) {
    ComesToRest(s, version, trader, req) ==>
      LevelSize(s.orders, s.active, req.market, req.isBuy, req.price)
      + Left(s, Incoming(s.nextId, version, trader, req)) < U64
  }

  lemma TakerUnlisted(s: State, order: Order, positions: PositionMap)
    requires Inv(s) && Fresh(s, order) && order.id + 1 < U64
    ensures forall m: u32 :: order.id !in ActiveOf(AfterMatch(s, order, positions).active, m)
  {
    hide Inv, ListsActive, Exhausted, FilledBy, MatchAgainst;
    var t := AfterMatch(s, order, positions);
    SoundLists(s, order, t);
    TakerReady(s, order, t);
    UnlistedFresh(t, order.id);
  }

  lemma SoundLists(s: State, order: Order, t: State)
    requires Inv(s) && Fresh(s, order) && MatchedFrom(s, order, t)
    ensures ListsActive(t.orders, t.active)
  {
    hide MatchAgainst;
    MatchedInv(s, order, t);
  }

  lemma UnlistedFresh(t: State, id: u64)
    requires ListsActive(t.orders, t.active) && id !in t.orders
    ensures forall m: u32 :: id !in ActiveOf(t.active, m)
  {
  }

  lemma TakerLevelKept(s: State, order: Order)
    requires Inv(s)
    ensures var sw := MatchAgainst(s, order);
            LevelSize(sw.orders, sw.active, order.market, order.isBuy, order.price)
            == LevelSize(s.orders, s.active, order.market, order.isBuy, order.price)
  {
    hide Inv, Makers, LevelSize, SweepAll;
    MakersReady(s, order);
    var ms := Makers(s.orders, ActiveOf(s.active, order.market), !order.isBuy);
    forall x | x in ms ensures x in s.orders && s.orders[x].isBuy != order.isBuy {
      assert Opposes(s, order, x);
    }
    OwnLevelKept(Sweep(s.orders, s.active, order.remaining, []), order, ms, order.market, order.price);
  }

  // Placing keeps the levels fitting exactly when the order does not come to rest, or its level has room.
  lemma PlaceFitsExactly(s: State, version: u64, trader: Address, req: OrderRequest)
    requires Inv(s) && LevelsFit(s)
    ensures LevelsFit(PlaceOrder(s, version, trader, req).0) <==> RestFits(s, version, trader, req)
  {
    hide Inv, LevelSize, Finish, MatchAgainst, ProcessFills, WouldTake, NoLevelGrows;
    var admitted := Admit(s, trader, req);
    if admitted.Ok? && s.nextId + 1 < U64 {
      var order := Incoming(s.nextId, version, trader, req);
      if !(order.postOnly && WouldTake(s, order)) {
        var sw := MatchAgainst(s, order);
        var settled := ProcessFills(s.positions, sw.fills, admitted.value.initialBps);
        var t := AfterMatch(s, order, settled.positions);
        MatchLeaves(s, order);
        MatchFillsAreTrades(s, order);
        SettlesExactly(s.positions, sw.fills, admitted.value.initialBps, order.market);
        MatchShrinks(s, order);
        ShrinkingFits(s, t);
        TakerUnlisted(s, order, settled.positions);
        TakerLevelKept(s, order);
        FinishFitsExactly(t, order.(remaining := sw.remaining), req.timeInForce);
      }
    }
  }

  ghost predicate StepRestFits(s: State, step: Step) {
    match step
    case Place(v, trader, req) => RestFits(s, v, trader, req)
    case _ => true
  }

  // A closing order is immediate-or-cancel, so it never rests.
  lemma CloseNeverRests(s: State, version: u64, trader: Address, market: u32, p: Position, size: u64)
    ensures RestFits(s, version, trader, CloseRequest(market, p, size))
  {
  }

  lemma StepFitsExactly(s: State, step: Step)
    requires Inv(s) && LevelsFit(s)
    ensures LevelsFit(Next(s, step)) <==> StepRestFits(s, step)
  {
    hide Inv, LevelSize, PlaceOrder, RestFits, NoLevelGrows, Drop, CancelOwned;
    match step
    case Place(v, trader, req) => PlaceFitsExactly(s, v, trader, req);
    case Close(v, trader, market, size) =>
      var p := PositionOf(s.positions, PositionKey(trader, market));
      if p.Some? {
        CloseNeverRests(s, v, trader, market, p.value, size);
        PlaceFitsExactly(s, v, trader, CloseRequest(market, p.value, size));
      }
    case Cancel(trader, id) =>
      if CancelOrder(s, trader, id).1.Ok? {
        DropShrinks(s, id);
        ShrinkingFits(s, Drop(s, id));
      }
    case CancelAll(trader, market) =>
      CancelOwnedShrinks(s, trader, ActiveOf(s.active, market));
      ShrinkingFits(s, CancelTrader(s, trader, market));
    case DefineMarket(_, _) =>
    case Rebalance(_, _) =>
  }

  // The levels fit in every state of a run.
  ghost predicate AlwaysFits(s: State, steps: seq<Step>)
    decreases steps
  {
    LevelsFit(s) && (steps != [] ==> AlwaysFits(Next(s, steps[0]), steps[1..]))
  }

  ghost predicate RestsFit(s: State, steps: seq<Step>)
    decreases steps
  {
    steps != [] ==> StepRestFits(s, steps[0]) && RestsFit(Next(s, steps[0]), steps[1..])
  }

  // Over a run the totals stay in u64, and so are the sums of what rests, exactly when every order that
  // comes to rest finds room in its level.
  lemma {:induction false} RunFitsExactly(s: State, steps: seq<Step>)
    requires Inv(s) && LevelsFit(s)
    ensures AlwaysFits(s, steps) <==> RestsFit(s, steps)
    decreases steps
  {
    hide Inv, LevelsFit, Next, StepRestFits;
    if steps != [] {
      StepFitsExactly(s, steps[0]);
      NextInv(s, steps[0]);
      if LevelsFit(Next(s, steps[0])) {
        RunFitsExactly(Next(s, steps[0]), steps[1..]);
      }
    }
  }

  lemma EmptyFits()
    ensures Inv(EMPTY) && LevelsFit(EMPTY)
  {
  }

  // ---------------------------------------------------------------------------
  // A level that does not fit
  // ---------------------------------------------------------------------------

  // With nothing on the other side a market buy rests in full.
  lemma MarketBuyRests(s: State, version: u64, trader: Address, req: OrderRequest)
    requires Inv(s) && s.nextId + 1 < U64 && req.market in s.markets && s.positions == map[]
    requires req == OrderRequest(req.market, true, 0, req.size, GTC, false, false) && req.size > 0
    requires s.markets[req.market].minOrderSize <= req.size <= s.markets[req.market].maxOrderSize
    requires forall x :: x in ActiveOf(s.active, req.market) && x in s.orders ==> s.orders[x].isBuy
    ensures var order, s' := Incoming(s.nextId, version, trader, req), PlaceOrder(s, version, trader, req).0;
            && s'.orders == s.orders[order.id := order] && s'.active == AddActive(s.active, req.market, order.id)
            && s'.nextId == s.nextId + 1 && s'.markets == s.markets && s'.positions == map[]
  {
    hide Inv, Admit, MatchAgainst, WouldTake;
    assert Admit(s, trader, req).Ok? && Admit(s, trader, req).value == s.markets[req.market] by {
      Admission.MarketOrderExactly(s, trader, req);
      AdmittedMarket(s, trader, req);
    }
    NothingToMatch(s, Incoming(s.nextId, version, trader, req));
  }

  lemma AdmittedMarket(s: State, trader: Address, req: OrderRequest)
    ensures Admit(s, trader, req).Ok? ==>
            req.market in s.markets && Admit(s, trader, req).value == s.markets[req.market]
  {
  }

  lemma NothingToMatch(s: State, order: Order)
    requires order.isBuy && forall x :: x in ActiveOf(s.active, order.market) && x in s.orders ==> s.orders[x].isBuy
    ensures MatchAgainst(s, order) == Sweep(s.orders, s.active, order.remaining, [])
  {
    var ids := ActiveOf(s.active, order.market);
    LadderMembers(s.orders, ids, false, Sorted(false, Prices(s.orders, ids, false)));
    SweepIneligible(Sweep(s.orders, s.active, order.remaining, []), order, Makers(s.orders, ids, false));
  }

  // Two market buys of 2^63 on an empty side pass without margin and rest at one level, which then holds
  // 2^64: a u64 total that wraps reads 0, and taking one of them off saturates where 2^63 remain.
  lemma TwoMarketBuysOverfill(s: State, version: u64, req: OrderRequest)
    requires s == SetMarket(EMPTY, 0, Market(0, 1, 1, 0xFFFF_FFFF_FFFF_FFFF, 20, 500, 1000, 100))
    requires req == OrderRequest(0, true, 0, 0x8000_0000_0000_0000, GTC, false, false)
    ensures var t := PlaceOrder(PlaceOrder(s, version, 1, req).0, version, 2, req).0;
            && Inv(t) && LevelSize(t.orders, t.active, 0, true, 0) == U64 && !LevelsFit(t)
    ensures var wrapped := TruncateU64(req.size + req.size); SaturatingSub(wrapped, req.size) != req.size
  {
    hide Inv, PlaceOrder, LevelSize, Incoming;
    EmptyFits();
    SetMarketInv(EMPTY, 0, s.markets[0]);
    NothingRests(s);
    PlaceInv(s, version, 1, req);
    MarketBuyRests(s, version, 1, req);
    var t, first := PlaceOrder(s, version, 1, req).0, Incoming(0, version, 1, req);
    FirstBuy(first, s, t, version, req);
    PlaceInv(t, version, 2, req);
    MarketBuyRests(t, version, 2, req);
    SecondBuy(Incoming(1, version, 2, req), t, PlaceOrder(t, version, 2, req).0, version, req);
  }

  lemma NothingRests(s: State)
    requires s.orders == map[] && s.active == map[]
    ensures forall m: u32 :: ActiveOf(s.active, m) == []
    ensures LevelSize(s.orders, s.active, 0, true, 0) == 0
  {
  }

  lemma FirstBuy(o: Order, s: State, t: State, version: u64, req: OrderRequest)
    requires s.orders == map[] && s.active == map[] && s.nextId == 0 && req.isBuy && req.price == 0 && req.market == 0
    requires o == Incoming(0, version, 1, req)
    requires t.orders == s.orders[o.id := o] && t.active == AddActive(s.active, 0, o.id)
    ensures LevelSize(t.orders, t.active, 0, true, 0) == req.size
    ensures forall x :: x in t.orders ==> t.orders[x].isBuy
    ensures forall m: u32 :: 1 !in ActiveOf(t.active, m)
  {
    NothingRests(s);
    RestAdds(s.orders, s.active, o, 0, true, 0);
  }

  lemma SecondBuy(o: Order, t: State, u: State, version: u64, req: OrderRequest)
    requires (forall m: u32 :: 1 !in ActiveOf(t.active, m)) && req.isBuy && req.price == 0 && req.market == 0
    requires o == Incoming(1, version, 2, req)
    requires u.orders == t.orders[o.id := o] && u.active == AddActive(t.active, 0, o.id)
    ensures LevelSize(u.orders, u.active, 0, true, 0) == LevelSize(t.orders, t.active, 0, true, 0) + req.size
    ensures LevelSize(t.orders, t.active, 0, true, 0) + req.size >= U64 ==> !LevelsFit(u)
  {
    RestAdds(t.orders, t.active, o, 0, true, 0);
    assert LevelsFit(u) ==> LevelSize(u.orders, u.active, 0, true, 0) < U64;
  }
}
