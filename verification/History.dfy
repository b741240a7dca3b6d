// What a run may do to an order once it is stored.
module History {
  import opened Types
  import opened Matching
  import opened Exchange
  import opened Invariants

  // Identity never changes, size only shrinks, and a terminal order is left alone.
  ghost predicate Advances(o: Order, o': Order) {
    && o' == o.(remaining := o'.remaining, status := o'.status)
    && o'.remaining <= o.remaining
    && (o.status != Active ==> o' == o)
  }

  ghost predicate Extends(s: State, s': State) {
    && s.nextId <= s'.nextId
    && s.log <= s'.log
    && (forall x :: x in s.orders ==> x in s'.orders && Advances(s.orders[x], s'.orders[x]))
    && (forall x :: x in s'.orders && x !in s.orders ==> s.nextId <= x)
  }

  lemma ExtendsTransitive(s: State, t: State, u: State)
    requires Extends(s, t) && Extends(t, u)
    ensures Extends(s, u)
  {
    forall x | x in s.orders ensures x in u.orders && Advances(s.orders[x], u.orders[x]) {
      assert Advances(s.orders[x], t.orders[x]) && Advances(t.orders[x], u.orders[x]);
    }
  }

  lemma MatchAdvances(s: State, order: Order, x: u64)
    requires Inv(s) && x in s.orders
    ensures x in MatchAgainst(s, order).orders && Advances(s.orders[x], MatchAgainst(s, order).orders[x])
  {
    MatchFrameHolds(s, order);
    assert Consumed(s.orders[x], MatchAgainst(s, order).orders[x]);
    MakersReady(s, order);
    SweepFrame(Sweep(s.orders, s.active, order.remaining, []), order,
               Makers(s.orders, ActiveOf(s.active, order.market), !order.isBuy));
  }

  lemma MatchExtends(s: State, order: Order, positions: PositionMap)
    requires Inv(s) && Fresh(s, order) && order.id + 1 < U64
    ensures Extends(s, AfterMatch(s, order, positions))
  {
    MatchFrameHolds(s, order);
    forall x | x in s.orders ensures Advances(s.orders[x], AfterMatch(s, order, positions).orders[x]) {
      MatchAdvances(s, order, x);
    }
  }

  // Storing the taker under an id beyond the earlier state's rewrites none of its orders.
  lemma FinishExtends(s: State, t: State, order: Order, tif: TimeInForce)
    requires Extends(s, t) && order.id !in t.orders && s.nextId <= order.id
    ensures Extends(s, Finish(t, order, tif).0)
  {
    hide Advances;
  }

  lemma FreshAfterMatch(s: State, order: Order, positions: PositionMap)
    requires Inv(s) && Fresh(s, order) && order.id + 1 < U64
    ensures order.id !in AfterMatch(s, order, positions).orders
  {
    MatchFrameHolds(s, order);
    assert order.id in s.orders ==> OrderSound(s, order.id);
  }

  lemma TakeIdExtends(s: State, id: u64)
    requires s.nextId <= id
    ensures Extends(s, s.(nextId := id))
  {
  }

  lemma ExecuteExtends(s: State, order: Order, market: Market, tif: TimeInForce)
    requires Inv(s) && Fresh(s, order) && order.id + 1 < U64
    ensures Extends(s, Execute(s, order, market, tif).0)
  {
    hide Inv, Extends, AfterMatch, Finish, ProcessFills, MatchAgainst, WouldTake;
    TakeIdExtends(s, order.id + 1);
    var settled := ProcessFills(s.positions, MatchAgainst(s, order).fills, market.initialBps);
    var t := AfterMatch(s, order, settled.positions);
    MatchExtends(s, order, settled.positions);
    FreshAfterMatch(s, order, settled.positions);
    FinishExtends(s, t, order.(remaining := MatchAgainst(s, order).remaining), tif);
  }

  lemma PlaceExtends(s: State, version: u64, trader: Address, req: OrderRequest)
    requires Inv(s)
    ensures Extends(s, PlaceOrder(s, version, trader, req).0)
  {
    var admitted := Admit(s, trader, req);
    if admitted.Ok? && s.nextId + 1 < U64 {
      ExecuteExtends(s, Incoming(s.nextId, version, trader, req), admitted.value, req.timeInForce);
    }
  }

  lemma SameExtends(s: State)
    ensures Extends(s, s)
  {
  }

  lemma DropExtends(s: State, x: u64)
    requires x in s.orders && s.orders[x].status == Active
    ensures Extends(s, Drop(s, x))
  {
  }

  lemma {:induction false} CancelOwnedExtends(s: State, trader: Address, ids: seq<u64>)
    ensures Extends(s, CancelOwned(s, trader, ids))
    decreases ids
  {
    hide Extends, Drop;
    SameExtends(s);
    if ids != [] {
      var hit := ids[0] in s.orders && s.orders[ids[0]].owner == trader && s.orders[ids[0]].status == Active;
      var s' := if hit then Drop(s, ids[0]) else s;
      if hit {
        DropExtends(s, ids[0]);
      }
      CancelOwnedExtends(s', trader, ids[1..]);
      ExtendsTransitive(s, s', CancelOwned(s, trader, ids));
    }
  }

  lemma CancelExtends(s: State, trader: Address, id: u64)
    ensures Extends(s, CancelOrder(s, trader, id).0)
  {
    hide Extends, Drop;
    SameExtends(s);
    if id in s.orders && s.orders[id].status == Active {
      DropExtends(s, id);
    }
  }

  lemma NextExtends(s: State, step: Step)
    requires Inv(s)
    ensures Extends(s, Next(s, step))
  {
    match step
    case Place(v, trader, req) => PlaceExtends(s, v, trader, req);
    case Close(v, trader, market, size) =>
      var p := PositionOf(s.positions, PositionKey(trader, market));
      if p.Some? {
        PlaceExtends(s, v, trader, CloseRequest(market, p.value, size));
      }
    case CancelAll(trader, market) => CancelOwnedExtends(s, trader, ActiveOf(s.active, market));
    case Cancel(trader, id) => CancelExtends(s, trader, id);
    case DefineMarket(_, _) =>
    case Rebalance(_, _) =>
  }

  // Over a whole run: no order is lost or rewritten, none grows, and Filled and Cancelled are never left.
  lemma {:induction false} RunExtends(s: State, steps: seq<Step>)
    requires Inv(s)
    ensures Extends(s, Run(s, steps))
    decreases steps
  {
    if steps != [] {
      var s' := Next(s, steps[0]);
      NextExtends(s, steps[0]);
      NextInv(s, steps[0]);
      RunExtends(s', steps[1..]);
      ExtendsTransitive(s, s', Run(s, steps));
    }
  }

  // Cancelling everything of a trader in a market leaves nothing of theirs alive there, and nothing else changes.
  lemma {:induction false} CancelOwnedClears(s: State, trader: Address, ids: seq<u64>)
    ensures var s' := CancelOwned(s, trader, ids);
            && s' == s.(orders := s'.orders, active := s'.active)
            && s'.orders.Keys == s.orders.Keys
            && forall x :: x in s.orders ==>
                 s'.orders[x] == if x in ids && s.orders[x].owner == trader && s.orders[x].status == Active
                                 then s.orders[x].(status := Cancelled) else s.orders[x]
    decreases ids
  {
    if ids != [] {
      var hit := ids[0] in s.orders && s.orders[ids[0]].owner == trader && s.orders[ids[0]].status == Active;
      CancelOwnedClears(if hit then Drop(s, ids[0]) else s, trader, ids[1..]);
    }
  }

  lemma CancelTraderClears(s: State, trader: Address, market: u32)
    requires Inv(s)
    ensures var s' := CancelTrader(s, trader, market);
            && s' == s.(orders := s'.orders, active := s'.active) && Inv(s')
            && s'.orders.Keys == s.orders.Keys
            && forall x :: x in s.orders ==>
                 s'.orders[x] == if s.orders[x].owner == trader && s.orders[x].market == market &&
                     s.orders[x].status == Active
                                 then s.orders[x].(status := Cancelled) else s.orders[x]
  {
    CancelOwnedClears(s, trader, ActiveOf(s.active, market));
    CancelOwnedInv(s, trader, ActiveOf(s.active, market));
  }
}
