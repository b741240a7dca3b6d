// A reduce-only order that rests is not looked at again when it is filled, as maker, later.
module RestingReduceOnly {
  import opened Types
  import opened Matching
  import opened Positions
  import opened PositionRuns
  import opened TradeLimits
  import opened Risk
  import opened Exchange
  import opened Invariants
  import opened Priority
  import opened ReduceOnly
  import OrderTransactions
  import Admission
  import LevelSizes

  // The position only lost size, or was closed.
  ghost predicate OnlyReduced(before: Option<Position>, after: Option<Position>) {
    before.Some? && exists taken :: Remainder(before.value, taken, after)
  }

  // A resting order as a request, at the size it is filled for.
  function AsRequest(fill: Fill): (r: OrderRequest) {
    OrderRequest(fill.market, !fill.takerIsBuy, fill.price, fill.size, GTC, true, false)
  }

  // A fill settles on its maker's position as it is by then: it only reduces it exactly when the reduce-only
  // test would still pass for the size filled.
  lemma MakerReducesExactly(ps: PositionMap, fill: Fill, bps: u32)
    requires fill.maker != fill.taker && fill.size > 0
    requires var maker, isBuy := PositionOf(ps, PositionKey(fill.maker, fill.market)), !fill.takerIsBuy;
             TradeFits(maker, fill.size, fill.price, isBuy, bps) && !Wraps(maker, fill.size, isBuy)
    requires ProcessSide(ps, fill.taker, fill, fill.takerIsBuy, bps).error.None?
    ensures var k, out := PositionKey(fill.maker, fill.market), ProcessFill(ps, fill, bps);
            && out.error.None?
            && (OnlyReduced(PositionOf(ps, k), PositionOf(out.positions, k)) <==>
                ReduceOnlyFits(PositionOf(ps, k), AsRequest(fill)))
  {
    hide TradeFits, Increase, Reduce, InitialMargin;
    var maker := PositionOf(ps, PositionKey(fill.maker, fill.market));
    TradeFitsExactly(maker, fill.size, fill.price, !fill.takerIsBuy, bps);
    TradeMoves(maker, fill.size, fill.price, !fill.takerIsBuy, bps);
    var after := AfterTrade(maker, fill.size, fill.price, !fill.takerIsBuy, bps).value;
    if ReduceOnlyFits(maker, AsRequest(fill)) {
      ReducingTrade(maker.value, fill.size, fill.price, bps);
      assert Remainder(maker.value, fill.size, after);
    }
  }

  // ---------------------------------------------------------------------------
  // A run in which it opens a position
  // ---------------------------------------------------------------------------

  // An admitted order to which nothing is offered comes to rest.
  lemma NothingOfferedRests(s: State, version: u64, trader: Address, req: OrderRequest)
    requires Inv(s) && Admit(s, trader, req).Ok? && s.nextId + 1 < U64 && req.timeInForce == GTC && !req.postOnly
    requires req.size > 0 && !OrderTransactions.Trades(s, version, trader, req)
    ensures var order := Incoming(s.nextId, version, trader, req);
            PlaceOrder(s, version, trader, req).0
            == s.(nextId := s.nextId + 1, orders := s.orders[order.id := order],
                  active := AddActive(s.active, req.market, order.id))
  {
    hide Inv, Admit, OrderTransactions.Trades, MatchAgainst;
    OrderTransactions.TradesExactly(s, version, trader, req);
    OrderTransactions.NoFillsNoMatch(s, Incoming(s.nextId, version, trader, req));
    assert s.log + [] == s.log;
  }

  // One order opposes the taker, of the same size and someone else's.
  ghost predicate OnlyOpponent(s: State, order: Order, x: u64) {
    && (forall y: u64 :: Opposes(s, order, y) <==> y == x)
    && x in s.orders && s.orders[x].market == order.market
    && Eligible(order, s.orders[x]) && s.orders[x].remaining == order.remaining && order.remaining > 0
  }

  function Meeting(s: State, order: Order, x: u64): (r: Fill)
    requires x in s.orders
  {
    FillOf(order, s.orders[x], x, order.remaining)
  }

  function BothFilled(s: State, order: Order, x: u64, positions: PositionMap): (r: State)
    requires x in s.orders && order.id + 1 < U64
  {
    var maker := s.orders[x].(remaining := 0, status := Filled);
    s.(nextId := order.id + 1, orders := s.orders[x := maker][order.id := order.(remaining := 0, status := Filled)],
       active := RemoveActive(s.active, order.market, x), log := s.log + [Meeting(s, order, x)],
       positions := positions)
  }

  // An admitted order that meets its only opponent: both are filled, by one fill.
  lemma MeetsOne(s: State, order: Order, x: u64, market: Market, tif: TimeInForce)
    requires Inv(s) && order.id + 1 < U64 && !order.postOnly && OnlyOpponent(s, order, x)
    requires ProcessFill(s.positions, Meeting(s, order, x), market.initialBps).error.None?
    ensures Execute(s, order, market, tif).0
         == BothFilled(s, order, x, ProcessFill(s.positions, Meeting(s, order, x), market.initialBps).positions)
  {
    hide Inv, MatchAgainst, ProcessFill, RemoveActive, WouldTake;
    var fill := Meeting(s, order, x);
    OneMaker(s, order, x);
    assert [] + [fill] == [fill];
    OrderTransactions.OneFill(s.positions, fill, market.initialBps);
  }

  const LISTED := Market(0, 1, 1, 100, 20, 500, 1000, 100)
  const BID := Order(0, 0, 2, true, 90, 1, 1, Active, 0, false, false)
  const ASK := Order(1, 0, 1, false, 100, 1, 1, Active, 0, true, false)
  const SELL := OrderRequest(0, false, 100, 1, GTC, true, false)
  const BUY := OrderRequest(0, true, 0, 1, IOC, false, false)
  const TRADER := PositionKey(1, 0)
  const LONG := Position(1, 100, true, 10, 0)

  // Trader 1 is long one contract, and trader 2 bids for one.
  const BEFORE := State(map[0 := BID], map[0 := [0]], 1, map[0 := LISTED], [0], map[TRADER := LONG],
                        map[BalanceKey(1, 0) := 10], [])
  const RESTED := BEFORE.(nextId := 2, orders := map[0 := BID, 1 := ASK], active := map[0 := [0, 1]])
  const FIRST := Fill(2, 1, 0, 90, 1, false, 0, 2)
  const TAKE := Order(2, 0, 1, false, 0, 1, 1, Active, 0, true, false)
  const CLOSED := BothFilled(RESTED, TAKE, 0, map[PositionKey(2, 0) := Position(1, 90, true, 9, 0)])

  lemma BeforeSound()
    ensures Inv(BEFORE)
  {
    assert OrderSound(BEFORE, 0);
  }

  lemma Rests()
    requires Inv(BEFORE)
    ensures PlaceOrder(BEFORE, 0, 1, SELL).0 == RESTED
  {
    hide Inv, PlaceOrder;
    assert Admit(BEFORE, 1, SELL) == Ok(LISTED);
    var order := Incoming(1, 0, 1, SELL);
    assert forall x :: Opposes(BEFORE, order, x) ==> x == 0;
    NothingOfferedRests(BEFORE, 0, 1, SELL);
    assert [0] + [1] == [0, 1];
    assert BEFORE.orders[1 := order] == RESTED.orders;
    assert AddActive(BEFORE.active, 0, 1) == RESTED.active;
  }

  lemma ClosingFill()
    ensures OnlyOpponent(RESTED, TAKE, 0) && Meeting(RESTED, TAKE, 0) == FIRST
    ensures ProcessFill(RESTED.positions, FIRST, 1000) == Settled(CLOSED.positions, None)
    ensures BothFilled(RESTED, TAKE, 0, CLOSED.positions) == CLOSED && TRADER !in CLOSED.positions
  {
    assert InitialMargin(1, 90, 1000) == Ok(9);
    assert RESTED.positions - {TRADER} == map[];
  }

  lemma Closes()
    requires Inv(RESTED)
    ensures Exchange.ClosePosition(RESTED, 0, 1, 0, 0).0 == CLOSED && TRADER !in CLOSED.positions
  {
    hide Inv, Execute, Admit, BothFilled, ProcessFill, OnlyOpponent, Meeting;
    Admitted(RESTED, OrderRequest(0, false, 0, 1, IOC, true, false), 1);
    ClosingFill();
    MeetsOne(RESTED, TAKE, 0, LISTED, IOC);
  }

  lemma Admitted(s: State, req: OrderRequest, trader: Address)
    requires s.markets == map[0 := LISTED] && req.market == 0 && req.price == 0 && req.size == 1
    requires var p := PositionOf(s.positions, PositionKey(trader, 0));
             Admission.LockedFits(p, req) && (req.reduceOnly ==> ReduceOnlyFits(p, req))
    ensures Admit(s, trader, req) == Ok(LISTED)
  {
    hide Admit, Admission.LockedFits;
    Admission.MarketOrderExactly(s, trader, req);
    LevelSizes.AdmittedMarket(s, trader, req);
  }

  const HIT := Order(3, 0, 3, true, 0, 1, 1, Active, 0, false, false)
  const SECOND := Fill(1, 3, 0, 100, 1, true, 1, 3)

  lemma OpeningFill()
    ensures OnlyOpponent(CLOSED, HIT, 1) && Meeting(CLOSED, HIT, 1) == SECOND
    ensures var out := ProcessFill(CLOSED.positions, SECOND, 1000);
            out.error.None? && PositionOf(out.positions, TRADER) == Some(Position(1, 100, false, 10, 0))
  {
    assert InitialMargin(1, 100, 1000) == Ok(10);
  }

  lemma Opens()
    requires Inv(CLOSED)
    ensures PositionOf(PlaceOrder(CLOSED, 0, 3, BUY).0.positions, TRADER) == Some(Position(1, 100, false, 10, 0))
  {
    hide Inv, Execute, Admit, ProcessFill, OnlyOpponent, Meeting;
    Admitted(CLOSED, BUY, 3);
    OpeningFill();
    MeetsOne(CLOSED, HIT, 1, LISTED, IOC);
  }

  // A long rests a reduce-only sell, closes against the bid, and a stranger buys: the reduce-only order has
  // opened a short.
  lemma RestingOrderOpensExample()
    ensures var closed := Run(BEFORE, [Place(0, 1, SELL), Close(0, 1, 0, 0)]);
            var after := Run(BEFORE, [Place(0, 1, SELL), Close(0, 1, 0, 0), Place(0, 3, BUY)]);
            && Inv(BEFORE) && SELL.reduceOnly && PositionOf(BEFORE.positions, TRADER) == Some(LONG)
            && PositionOf(closed.positions, TRADER) == None
            && PositionOf(after.positions, TRADER) == Some(Position(1, 100, false, 10, 0))
  {
    hide Inv, PlaceOrder, Exchange.ClosePosition, BothFilled;
    BeforeSound();
    Rests();
    PlaceInv(BEFORE, 0, 1, SELL);
    Closes();
    NextInv(RESTED, Close(0, 1, 0, 0));
    Opens();
    var sell, close, buy := Place(0, 1, SELL), Close(0, 1, 0, 0), Place(0, 3, BUY);
    assert [sell] + [close] == [sell, close] && [sell] + [close, buy] == [sell, close, buy];
    assert [close] + [] == [close] && [close] + [buy] == [close, buy] && [buy] + [] == [buy];
    RunFirst(BEFORE, sell, [close]);
    RunFirst(RESTED, close, []);
    RunFirst(BEFORE, sell, [close, buy]);
    RunFirst(RESTED, close, [buy]);
    RunFirst(CLOSED, buy, []);
  }

  lemma RunFirst(s: State, first: Step, rest: seq<Step>)
    ensures Run(s, [first] + rest) == Run(Next(s, first), rest)
  {
    hide Next;
    assert ([first] + rest)[1..] == rest;
  }
}
