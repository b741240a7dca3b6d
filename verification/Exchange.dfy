// The exchange as a state machine without an order book: resting orders are just the Active orders,
// and an incoming order sweeps them in price-time order.
module Exchange {
  import opened Types
  import opened Matching
  import opened Positions
  import opened Risk

  type PositionMap = map<PositionKey, Position>

  datatype BalanceKey = BalanceKey(owner: Address, asset: u32)

  datatype State = State(
    orders: OrderMap,
    active: ActiveLists,
    nextId: u64,
    markets: map<u32, Market>,
    marketList: seq<u32>,
    positions: PositionMap,
    balances: map<BalanceKey, u128>,
    // every fill any match has produced, oldest first
    log: seq<Fill>)

  const EMPTY := State(map[], map[], 0, map[], [], map[], map[], [])

  function PositionOf(ps: PositionMap, k: PositionKey): (r: Option<Position>) {
    if k in ps then Some(ps[k]) else None
  }

  function PutPosition(ps: PositionMap, k: PositionKey, p: Option<Position>): (r: PositionMap)
    ensures PositionOf(r, k) == p
    ensures forall j :: j != k ==> PositionOf(r, j) == PositionOf(ps, j)
  {
    match p
    case Some(q) => ps[k := q]
    case None => ps - {k}
  }

  // Forced down: as it was, or cut by some size.
  ghost predicate Shrunk(p: Option<Position>, q: Option<Position>) {
    q == p || (p.Some? && exists n: u64 :: AfterCut(p.value, n) == Ok(q))
  }

  // What liquidation and deleveraging may do to positions.
  ghost predicate OnlyShrunk(ps: PositionMap, ps': PositionMap) {
    forall k: PositionKey :: Shrunk(PositionOf(ps, k), PositionOf(ps', k))
  }

  lemma SameShrunk(ps: PositionMap)
    ensures OnlyShrunk(ps, ps)
  {
  }

  function BalanceOf(s: State, owner: Address, asset: u32): (r: u128) {
    var k := BalanceKey(owner, asset);
    if k in s.balances then s.balances[k] else 0
  }

  // ---------------------------------------------------------------------------
  // Placing an order
  // ---------------------------------------------------------------------------

  predicate OnTick(market: Market, price: u64) {
    market.tickSize == 0 || price % market.tickSize == 0
  }

  function Admit(s: State, trader: Address, req: OrderRequest): (r: Result<Market>) {
    if req.market !in s.markets then Err(MarketNotFound)
    else
      var market := s.markets[req.market];
      if req.price > 0 && !OnTick(market, req.price) then Err(Other)
      else if req.size < market.minOrderSize || req.size > market.maxOrderSize then Err(Other)
      else
        var _ :- CheckOrderAllowed(market, BalanceOf(s, trader, market.quoteAsset),
                                   PositionOf(s.positions, PositionKey(trader, req.market)), req);
        Ok(market)
  }

  function Incoming(id: u64, version: u64, trader: Address, req: OrderRequest): (r: Order) {
    Order(id, req.market, trader, req.isBuy, req.price, req.size, req.size, Active, version, req.reduceOnly,
          req.postOnly)
  }

  // Some resting order on the other side is at an acceptable price, whoever owns it.
  ghost predicate WouldTake(s: State, order: Order) {
    exists x :: x in ActiveOf(s.active, order.market) && x in s.orders &&
                s.orders[x].isBuy != order.isBuy && Accepts(order, s.orders[x].price)
  }

  function MatchAgainst(s: State, order: Order): (r: Sweep) {
    SweepAll(Sweep(s.orders, s.active, order.remaining, []), order,
             Makers(s.orders, ActiveOf(s.active, order.market), !order.isBuy))
  }

  datatype Settled = Settled(positions: PositionMap, error: Option<Error>)

  function ProcessSide(ps: PositionMap, owner: Address, fill: Fill, isBuy: bool, initialBps: u32): (r: Settled) {
    var k := PositionKey(owner, fill.market);
    match AfterTrade(PositionOf(ps, k), fill.size, fill.price, isBuy, initialBps)
    case Err(e) => Settled(ps, Some(e))
    case Ok(p) => Settled(PutPosition(ps, k, p), None)
  }

  // Taker first, then maker; an arithmetic error stops between the two.
  function ProcessFill(ps: PositionMap, fill: Fill, initialBps: u32): (r: Settled) {
    var first := ProcessSide(ps, fill.taker, fill, fill.takerIsBuy, initialBps);
    if first.error.Some? then first
    else ProcessSide(first.positions, fill.maker, fill, !fill.takerIsBuy, initialBps)
  }

  function ProcessFills(ps: PositionMap, fills: seq<Fill>, initialBps: u32): (r: Settled)
    decreases fills
  {
    if fills == [] then Settled(ps, None)
    else
      var first := ProcessFill(ps, fills[0], initialBps);
      if first.error.Some? then first else ProcessFills(first.positions, fills[1..], initialBps)
  }

  function AddActive(active: ActiveLists, market: u32, id: u64): (r: ActiveLists) {
    var ids := ActiveOf(active, market);
    if id in ids then active else active[market := ids + [id]]
  }

  // What becomes of the taker once its fills are settled.
  function Finish(s: State, order: Order, tif: TimeInForce): (r: (State, Result<u64>)) {
    if order.remaining == 0 then
      (s.(orders := s.orders[order.id := order.(status := Filled)]), Ok(order.id))
    else
      match tif
      case GTC | PostOnly =>
        (s.(orders := s.orders[order.id := order], active := AddActive(s.active, order.market, order.id)), Ok(order.id))
      case IOC =>
        (s.(orders := s.orders[order.id := order.(status := Cancelled)]), Ok(order.id))
      case FOK => (s, Err(OrderNotFilled))
  }

  // The state once the match is settled: makers shrunk, fills logged, positions traded.
  function AfterMatch(s: State, order: Order, positions: PositionMap): (r: State)
    requires order.id + 1 < U64
  {
    var sw := MatchAgainst(s, order);
    s.(nextId := order.id + 1, orders := sw.orders, active := sw.active, log := s.log + sw.fills,
       positions := positions)
  }

  // An admitted order under the id order.id, which is used up whatever happens next.
  ghost function Execute(s: State, order: Order, market: Market, tif: TimeInForce): (r: (State, Result<u64>))
    requires order.id + 1 < U64
  {
    if order.postOnly && WouldTake(s, order) then (s.(nextId := order.id + 1), Err(PostOnlyWouldTake))
    else
      var sw := MatchAgainst(s, order);
      var settled := ProcessFills(s.positions, sw.fills, market.initialBps);
      var s' := AfterMatch(s, order, settled.positions);
      if settled.error.Some? then (s', Err(settled.error.value))
      else Finish(s', order.(remaining := sw.remaining), tif)
  }

  ghost function PlaceOrder(s: State, version: u64, trader: Address, req: OrderRequest): (r: (State, Result<u64>)) {
    match Admit(s, trader, req)
    case Err(e) => (s, Err(e))
    case Ok(market) =>
      if s.nextId + 1 >= U64 then (s, Err(Other))
      else Execute(s, Incoming(s.nextId, version, trader, req), market, req.timeInForce)
  }

  // Closing is a reduce-only market order against the position.
  function CloseRequest(market: u32, p: Position, size: u64): (r: OrderRequest) {
    OrderRequest(market, !p.isLong, 0, if size == 0 then p.size else Min(size, p.size), IOC, true, false)
  }

  ghost function ClosePosition(s: State, version: u64, trader: Address, market: u32,
                               size: u64): (r: (State, Result<u64>)) {
    match PositionOf(s.positions, PositionKey(trader, market))
    case None => (s, Err(PositionNotFound))
    case Some(p) => PlaceOrder(s, version, trader, CloseRequest(market, p, size))
  }

  // ---------------------------------------------------------------------------
  // Cancelling
  // ---------------------------------------------------------------------------

  function Drop(s: State, id: u64): (r: State)
    requires id in s.orders
  {
    var order := s.orders[id];
    s.(orders := s.orders[id := order.(status := Cancelled)], active := RemoveActive(s.active, order.market, id))
  }

  function CancelOrder(s: State, trader: Address, id: u64): (r: (State, Result<()>)) {
    if id !in s.orders then (s, Err(OrderNotFound))
    else if s.orders[id].owner != trader then (s, Err(Unauthorized))
    else if s.orders[id].status != Active then (s, Err(OrderNotFound))
    else (Drop(s, id), Ok(()))
  }

  function CancelOwned(s: State, trader: Address, ids: seq<u64>): (r: State)
    decreases ids
  {
    if ids == [] then s
    else
      var hit := ids[0] in s.orders && s.orders[ids[0]].owner == trader && s.orders[ids[0]].status == Active;
      CancelOwned(if hit then Drop(s, ids[0]) else s, trader, ids[1..])
  }

  // Every Active order of the trader in the market goes, as liquidation does first.
  function CancelTrader(s: State, trader: Address, market: u32): (r: State) {
    CancelOwned(s, trader, ActiveOf(s.active, market))
  }

  function SetMarket(s: State, id: u32, market: Market): (r: State) {
    s.(markets := s.markets[id := market],
       marketList := if id in s.marketList then s.marketList else s.marketList + [id])
  }

  // ---------------------------------------------------------------------------
  // Runs
  // ---------------------------------------------------------------------------

  datatype Step =
    | Place(version: u64, trader: Address, req: OrderRequest)
    | Close(version: u64, trader: Address, market: u32, size: u64)
    | Cancel(trader: Address, id: u64)
    | CancelAll(trader: Address, market: u32)
    | DefineMarket(market: u32, definition: Market)
      // deposits, transfers, liquidation and deleveraging: positions and balances become anything
    | Rebalance(positions: PositionMap, balances: map<BalanceKey, u128>)

  ghost function Next(s: State, step: Step): (r: State) {
    match step
    case Place(v, trader, req) => PlaceOrder(s, v, trader, req).0
    case Close(v, trader, market, size) => ClosePosition(s, v, trader, market, size).0
    case Cancel(trader, id) => CancelOrder(s, trader, id).0
    case CancelAll(trader, market) => CancelTrader(s, trader, market)
    case DefineMarket(id, m) => SetMarket(s, id, m)
    case Rebalance(ps, bs) => s.(positions := ps, balances := bs)
  }

  ghost function Run(s: State, steps: seq<Step>): (r: State)
    decreases steps
  {
    if steps == [] then s else Run(Next(s, steps[0]), steps[1..])
  }
}
