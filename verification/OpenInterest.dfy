// Open interest: trading moves signed size between accounts and creates none.
module OpenInterest {
  import opened Types
  import opened Matching
  import opened Positions
  import opened TradeLimits
  import opened PositionRuns
  import opened Exchange
  import opened Invariants
  import History

  function SignedIn(k: PositionKey, p: Option<Position>, market: u32): (r: int) {
    if k.market == market then SignedSize(p) else 0
  }

  // Signed size over all accounts of a market: longs minus shorts.
  ghost function Net(ps: PositionMap, market: u32): (r: int)
    decreases |ps|
  {
    if ps == map[] then 0
    else
      var k :| k in ps;
      SignedIn(k, Some(ps[k]), market) + Net(ps - {k}, market)
  }

  lemma {:induction false} NetRemove(ps: PositionMap, k: PositionKey, market: u32)
    requires k in ps
    ensures Net(ps, market) == SignedIn(k, Some(ps[k]), market) + Net(ps - {k}, market)
    decreases |ps|
  {
    var j :| j in ps && Net(ps, market) == SignedIn(j, Some(ps[j]), market) + Net(ps - {j}, market);
    if j != k {
      NetRemove(ps - {j}, k, market);
      NetRemove(ps - {k}, j, market);
      assert ps - {j} - {k} == ps - {k} - {j};
    }
  }

  lemma NetPut(ps: PositionMap, k: PositionKey, p: Option<Position>, market: u32)
    ensures Net(PutPosition(ps, k, p), market)
         == Net(ps, market) - SignedIn(k, PositionOf(ps, k), market) + SignedIn(k, p, market)
  {
    var ps' := PutPosition(ps, k, p);
    if k in ps {
      NetRemove(ps, k, market);
    }
    if k in ps' {
      NetRemove(ps', k, market);
    }
    assert ps' - {k} == ps - {k};
    assert k !in ps ==> ps - {k} == ps;
    assert k !in ps' ==> ps' - {k} == ps';
  }

  // ---------------------------------------------------------------------------
  // One fill
  // ---------------------------------------------------------------------------

  ghost predicate SameNet(ps: PositionMap, ps': PositionMap) {
    forall m: u32 :: Net(ps', m) == Net(ps, m)
  }

  function TakerOf(ps: PositionMap, fill: Fill): (r: Option<Position>) {
    PositionOf(ps, PositionKey(fill.taker, fill.market))
  }

  function MakerOf(ps: PositionMap, fill: Fill): (r: Option<Position>) {
    PositionOf(ps, PositionKey(fill.maker, fill.market))
  }

  predicate TakerFits(ps: PositionMap, fill: Fill, bps: u32) {
    TradeFits(TakerOf(ps, fill), fill.size, fill.price, fill.takerIsBuy, bps)
  }

  predicate MakerFits(ps: PositionMap, fill: Fill, bps: u32) {
    TradeFits(MakerOf(ps, fill), fill.size, fill.price, !fill.takerIsBuy, bps)
  }

  // The taker's side goes through and the maker's does not.
  predicate HalfSettled(ps: PositionMap, fill: Fill, bps: u32) {
    TakerFits(ps, fill, bps) && !MakerFits(ps, fill, bps)
  }

  // Exactly one side's size wraps; two wraps are of opposite sign and cancel.
  predicate OneSidedWrap(ps: PositionMap, fill: Fill, bps: u32) {
    && TakerFits(ps, fill, bps)
    && Wraps(TakerOf(ps, fill), fill.size, fill.takerIsBuy) != Wraps(MakerOf(ps, fill), fill.size, !fill.takerIsBuy)
  }

  // What a fill adds to its market's net size.
  function FillDrift(ps: PositionMap, fill: Fill, bps: u32): (r: int) {
    if !TakerFits(ps, fill, bps) then 0
    else SideMove(TakerOf(ps, fill), fill.size, fill.price, fill.takerIsBuy, bps)
         + SideMove(MakerOf(ps, fill), fill.size, fill.price, !fill.takerIsBuy, bps)
  }

  lemma SideMovesNet(ps: PositionMap, owner: Address, fill: Fill, isBuy: bool, bps: u32, market: u32)
    ensures var before := PositionOf(ps, PositionKey(owner, fill.market));
            Net(ProcessSide(ps, owner, fill, isBuy, bps).positions, market) == Net(ps, market) +
              (if market == fill.market then SideMove(before, fill.size, fill.price, isBuy, bps) else 0)
  {
    hide AfterTrade, SideMove, PutPosition;
    var k := PositionKey(owner, fill.market);
    var after := AfterTrade(PositionOf(ps, k), fill.size, fill.price, isBuy, bps);
    TradeMoves(PositionOf(ps, k), fill.size, fill.price, isBuy, bps);
    if after.Ok? {
      NetPut(ps, k, after.value, market);
    }
  }

  // Each market's net size moves by exactly the fill's drift, whatever overflows or wraps.
  lemma FillMovesNet(ps: PositionMap, fill: Fill, bps: u32, market: u32)
    requires fill.taker != fill.maker
    ensures Net(ProcessFill(ps, fill, bps).positions, market)
         == Net(ps, market) + (if market == fill.market then FillDrift(ps, fill, bps) else 0)
  {
    hide AfterTrade, Net, SideMove, TradeFits;
    var first := ProcessSide(ps, fill.taker, fill, fill.takerIsBuy, bps);
    TradeFitsExactly(TakerOf(ps, fill), fill.size, fill.price, fill.takerIsBuy, bps);
    assert MakerOf(first.positions, fill) == MakerOf(ps, fill);
    SideMovesNet(ps, fill.taker, fill, fill.takerIsBuy, bps, market);
    SideMovesNet(first.positions, fill.maker, fill, !fill.takerIsBuy, bps, market);
    NothingMoves(TakerOf(ps, fill), fill.size, fill.price, fill.takerIsBuy, bps);
  }

  lemma NothingMoves(position: Option<Position>, size: u64, price: u64, isBuy: bool, bps: u32)
    ensures !TradeFits(position, size, price, isBuy, bps) ==> SideMove(position, size, price, isBuy, bps) == 0
  {
  }

  lemma DriftExactly(ps: PositionMap, fill: Fill, bps: u32)
    requires fill.size > 0
    ensures FillDrift(ps, fill, bps) == 0 <==> !HalfSettled(ps, fill, bps) && !OneSidedWrap(ps, fill, bps)
  {
    hide TradeFits, Wraps;
  }

  // A fill between two accounts keeps every market's net size exactly when it is not left half settled and
  // does not wrap one side's size only.
  lemma FillKeepsNet(ps: PositionMap, fill: Fill, bps: u32)
    requires fill.taker != fill.maker && fill.size > 0
    ensures SameNet(ps, ProcessFill(ps, fill, bps).positions)
       <==> !HalfSettled(ps, fill, bps) && !OneSidedWrap(ps, fill, bps)
  {
    hide Net, HalfSettled, OneSidedWrap, ProcessFill, FillDrift;
    var ps' := ProcessFill(ps, fill, bps).positions;
    DriftExactly(ps, fill, bps);
    FillMovesNet(ps, fill, bps, fill.market);
    forall m: u32 | FillDrift(ps, fill, bps) == 0 ensures Net(ps', m) == Net(ps, m) {
      FillMovesNet(ps, fill, bps, m);
    }
  }

  // Half settling happens: a maker whose margin cannot grow leaves the taker's new contract unmatched.
  lemma HalfSettledExample()
    ensures var long := Position(1, 10000, true, 10000, 0);
            var short := Position(1, 10000, false, U128 - 1, 0);
            var ps := map[PositionKey(1, 0) := long, PositionKey(2, 0) := short];
            var fill := Fill(2, 1, 0, 10000, 1, true, 5, 6);
            var after := ProcessFill(ps, fill, 10000);
            && after == Settled(ps[PositionKey(1, 0) := Position(2, 10000, true, 20000, 0)], Some(Overflow))
            && HalfSettled(ps, fill, 10000)
  {
    var long := Position(1, 10000, true, 10000, 0);
    var short := Position(1, 10000, false, U128 - 1, 0);
    assert Increase(long, 1, 10000, 10000) == Ok(Position(2, 10000, true, 20000, 0));
    assert Increase(short, 1, 10000, 10000) == Err(Overflow);
  }

  // So does a wrap: a holder of 2^63 contracts buys as many from a new account and is left with none.
  lemma WrapExample(long: Position, fill: Fill, ps: PositionMap)
    requires long == Position(0x8000_0000_0000_0000, 1, true, 0, 0)
    requires fill == Fill(2, 1, 0, 1, 0x8000_0000_0000_0000, true, 5, 6) && ps == map[PositionKey(1, 0) := long]
    ensures var after := ProcessFill(ps, fill, 0);
            && after.error.None? && OneSidedWrap(ps, fill, 0)
            && PositionOf(after.positions, PositionKey(1, 0)) == Some(long.(size := 0))
            && PositionOf(after.positions, PositionKey(2, 0)) == Some(Position(0x8000_0000_0000_0000, 1, false, 0, 0))
            && Net(after.positions, 0) == Net(ps, 0) - U64
  {
    hide Net;
    FillMovesNet(ps, fill, 0, 0);
    assert Increase(long, fill.size, 1, 0) == Ok(long.(size := 0));
    assert InitialMargin(fill.size, 1, 0) == Ok(0);
  }

  // ---------------------------------------------------------------------------
  // Whole matches and whole runs
  // ---------------------------------------------------------------------------

  // What the fills of a match add to their market's net size, up to the first error.
  function FillsDrift(ps: PositionMap, fills: seq<Fill>, bps: u32): (r: int)
    decreases fills
  {
    if fills == [] then 0
    else
      var first := ProcessFill(ps, fills[0], bps);
      FillDrift(ps, fills[0], bps) + (if first.error.Some? then 0 else FillsDrift(first.positions, fills[1..], bps))
  }

  ghost predicate TradesIn(fills: seq<Fill>, market: u32) {
    forall f :: f in fills ==> f.taker != f.maker && f.size > 0 && f.market == market
  }

  lemma {:induction false} FillsMoveNet(ps: PositionMap, fills: seq<Fill>, bps: u32, home: u32, market: u32)
    requires TradesIn(fills, home)
    ensures Net(ProcessFills(ps, fills, bps).positions, market)
         == Net(ps, market) + (if market == home then FillsDrift(ps, fills, bps) else 0)
    decreases fills
  {
    hide Net, FillDrift, ProcessFill;
    if fills != [] {
      assert fills[0] in fills && forall f :: f in fills[1..] ==> f in fills;
      FillMovesNet(ps, fills[0], bps, market);
      FillsMoveNet(ProcessFill(ps, fills[0], bps).positions, fills[1..], bps, home, market);
    }
  }

  // Both sides of every fill fit when their turn comes.
  predicate AllFit(ps: PositionMap, fills: seq<Fill>, bps: u32)
    decreases fills
  {
    fills != [] ==>
      && TakerFits(ps, fills[0], bps) && MakerFits(ps, fills[0], bps)
      && AllFit(ProcessFill(ps, fills[0], bps).positions, fills[1..], bps)
  }

  lemma FillFitsExactly(ps: PositionMap, fill: Fill, bps: u32)
    requires fill.taker != fill.maker
    ensures ProcessFill(ps, fill, bps).error.None? <==> TakerFits(ps, fill, bps) && MakerFits(ps, fill, bps)
  {
    hide AfterTrade, TradeFits;
    TradeFitsExactly(TakerOf(ps, fill), fill.size, fill.price, fill.takerIsBuy, bps);
    TradeFitsExactly(MakerOf(ps, fill), fill.size, fill.price, !fill.takerIsBuy, bps);
    assert MakerOf(ProcessSide(ps, fill.taker, fill, fill.takerIsBuy, bps).positions, fill) == MakerOf(ps, fill);
  }

  // Settlement goes through exactly when all of it fits.
  lemma {:induction false} SettlesExactly(ps: PositionMap, fills: seq<Fill>, bps: u32, home: u32)
    requires TradesIn(fills, home)
    ensures ProcessFills(ps, fills, bps).error.None? <==> AllFit(ps, fills, bps)
    decreases fills
  {
    hide ProcessFill, TakerFits, MakerFits;
    if fills != [] {
      assert fills[0] in fills && forall f :: f in fills[1..] ==> f in fills;
      FillFitsExactly(ps, fills[0], bps);
      SettlesExactly(ProcessFill(ps, fills[0], bps).positions, fills[1..], bps, home);
    }
  }

  // Every fill reached settles whole, or not at all, and wraps no single side.
  ghost predicate Orderly(ps: PositionMap, fills: seq<Fill>, bps: u32)
    decreases fills
  {
    fills != [] ==>
      && !HalfSettled(ps, fills[0], bps) && !OneSidedWrap(ps, fills[0], bps)
      && var first := ProcessFill(ps, fills[0], bps);
         first.error.None? ==> Orderly(first.positions, fills[1..], bps)
  }

  lemma {:induction false} OrderlyDriftsNot(ps: PositionMap, fills: seq<Fill>, bps: u32, home: u32)
    requires TradesIn(fills, home) && Orderly(ps, fills, bps)
    ensures FillsDrift(ps, fills, bps) == 0
    decreases fills
  {
    hide FillDrift, HalfSettled, OneSidedWrap, ProcessFill;
    if fills != [] {
      assert fills[0] in fills && forall f :: f in fills[1..] ==> f in fills;
      DriftExactly(ps, fills[0], bps);
      var first := ProcessFill(ps, fills[0], bps);
      if first.error.None? {
        OrderlyDriftsNot(first.positions, fills[1..], bps, home);
      }
    }
  }

  // The fills a placed order settles, and at which ratio.
  ghost function FillsOf(s: State, version: u64, trader: Address, req: OrderRequest): (r: seq<Fill>) {
    var order := Incoming(s.nextId, version, trader, req);
    if Admit(s, trader, req).Err? || s.nextId + 1 >= U64 || (order.postOnly && WouldTake(s, order)) then []
    else MatchAgainst(s, order).fills
  }

  function BpsOf(s: State, market: u32): (r: u32) {
    if market in s.markets then s.markets[market].initialBps else 0
  }

  ghost function OrderDrift(s: State, version: u64, trader: Address, req: OrderRequest): (r: int) {
    FillsDrift(s.positions, FillsOf(s, version, trader, req), BpsOf(s, req.market))
  }

  lemma PlaceSettles(s: State, version: u64, trader: Address, req: OrderRequest)
    requires Inv(s)
    ensures PlaceOrder(s, version, trader, req).0.positions
         == ProcessFills(s.positions, FillsOf(s, version, trader, req), BpsOf(s, req.market)).positions
    ensures TradesIn(FillsOf(s, version, trader, req), req.market)
  {
    hide ProcessFill, Finish, MatchAgainst, WouldTake;
    var admitted := Admit(s, trader, req);
    if admitted.Ok? && s.nextId + 1 < U64 {
      var order := Incoming(s.nextId, version, trader, req);
      var sw := MatchAgainst(s, order);
      MatchFillsAreTrades(s, order);
      var out := ProcessFills(s.positions, sw.fills, admitted.value.initialBps);
      FinishKeepsPositions(AfterMatch(s, order, out.positions), order.(remaining := sw.remaining), req.timeInForce);
    }
  }

  lemma PlaceMovesNet(s: State, version: u64, trader: Address, req: OrderRequest, market: u32)
    requires Inv(s)
    ensures Net(PlaceOrder(s, version, trader, req).0.positions, market)
         == Net(s.positions, market) + (if market == req.market then OrderDrift(s, version, trader, req) else 0)
  {
    hide Inv, Net, PlaceOrder, ProcessFills, FillsDrift, FillsOf;
    PlaceSettles(s, version, trader, req);
    FillsMoveNet(s.positions, FillsOf(s, version, trader, req), BpsOf(s, req.market), req.market, market);
  }

  // What a step adds to a market's net size. Rewriting positions from outside adds whatever it adds.
  ghost function StepDrift(s: State, step: Step, market: u32): (r: int) {
    match step
    case Place(v, trader, req) => if market == req.market then OrderDrift(s, v, trader, req) else 0
    case Close(v, trader, m, size) =>
      var p := PositionOf(s.positions, PositionKey(trader, m));
      if p.Some? && market == m then OrderDrift(s, v, trader, CloseRequest(m, p.value, size)) else 0
    case Rebalance(ps, _) => Net(ps, market) - Net(s.positions, market)
    case _ => 0
  }

  lemma StepMovesNet(s: State, step: Step, market: u32)
    requires Inv(s)
    ensures Net(Next(s, step).positions, market) == Net(s.positions, market) + StepDrift(s, step, market)
  {
    hide Net, Inv, PlaceOrder, OrderDrift;
    match step
    case Place(v, trader, req) => PlaceMovesNet(s, v, trader, req, market);
    case Close(v, trader, m, size) =>
      var p := PositionOf(s.positions, PositionKey(trader, m));
      if p.Some? {
        PlaceMovesNet(s, v, trader, CloseRequest(m, p.value, size), market);
      }
    case CancelAll(trader, m) => History.CancelOwnedClears(s, trader, ActiveOf(s.active, m));
    case Cancel(_, _) =>
    case DefineMarket(_, _) =>
    case Rebalance(_, _) =>
  }

  ghost function RunDrift(s: State, steps: seq<Step>, market: u32): (r: int)
    decreases steps
  {
    if steps == [] then 0 else StepDrift(s, steps[0], market) + RunDrift(Next(s, steps[0]), steps[1..], market)
  }

  // Over any run whatever a market's net size moves by exactly the sum of the drifts.
  lemma {:induction false} RunMovesNet(s: State, steps: seq<Step>, market: u32)
    requires Inv(s)
    ensures Net(Run(s, steps).positions, market) == Net(s.positions, market) + RunDrift(s, steps, market)
    decreases steps
  {
    hide Net, Inv, Next, StepDrift;
    if steps != [] {
      StepMovesNet(s, steps[0], market);
      NextInv(s, steps[0]);
      RunMovesNet(Next(s, steps[0]), steps[1..], market);
    }
  }

  // Trading steps whose fills are orderly.
  ghost predicate OrderlyStep(s: State, step: Step) {
    match step
    case Place(v, trader, req) => Orderly(s.positions, FillsOf(s, v, trader, req), BpsOf(s, req.market))
    case Close(v, trader, market, size) =>
      var p := PositionOf(s.positions, PositionKey(trader, market));
      p.Some? ==> Orderly(s.positions, FillsOf(s, v, trader, CloseRequest(market, p.value, size)), BpsOf(s, market))
    case Rebalance(_, _) => false
    case _ => true
  }

  ghost predicate OrderlyRun(s: State, steps: seq<Step>)
    decreases steps
  {
    steps != [] ==> OrderlyStep(s, steps[0]) && OrderlyRun(Next(s, steps[0]), steps[1..])
  }

  lemma OrderlyStepDriftsNot(s: State, step: Step, market: u32)
    requires Inv(s) && OrderlyStep(s, step)
    ensures StepDrift(s, step, market) == 0
  {
    hide Inv, Net, PlaceOrder, Orderly, FillsOf, FillsDrift, ProcessFills;
    if step.Place? {
      PlaceSettles(s, step.version, step.trader, step.req);
      OrderlyDriftsNot(s.positions, FillsOf(s, step.version, step.trader, step.req), BpsOf(s, step.req.market),
                       step.req.market);
    } else if step.Close? {
      var p := PositionOf(s.positions, PositionKey(step.trader, step.market));
      if p.Some? {
        var req := CloseRequest(step.market, p.value, step.size);
        PlaceSettles(s, step.version, step.trader, req);
        OrderlyDriftsNot(s.positions, FillsOf(s, step.version, step.trader, req), BpsOf(s, step.market), step.market);
      }
    }
  }

  // Longs equal shorts in every market over any run of trading steps whose fills are orderly.
  lemma {:induction false} RunKeepsNet(s: State, steps: seq<Step>, market: u32)
    requires Inv(s) && OrderlyRun(s, steps)
    ensures Net(Run(s, steps).positions, market) == Net(s.positions, market)
    decreases steps
  {
    hide Net, Inv, Next, StepDrift, OrderlyStep;
    if steps != [] {
      StepMovesNet(s, steps[0], market);
      OrderlyStepDriftsNot(s, steps[0], market);
      NextInv(s, steps[0]);
      RunKeepsNet(Next(s, steps[0]), steps[1..], market);
    }
  }

  // Open interest of any run from the empty exchange: balanced exactly when the drifts add up to nothing,
  // as they do when every fill is orderly.
  lemma OpenInterestBalanced(steps: seq<Step>, market: u32)
    ensures Net(Run(EMPTY, steps).positions, market) == RunDrift(EMPTY, steps, market)
    ensures OrderlyRun(EMPTY, steps) ==> Net(Run(EMPTY, steps).positions, market) == 0
  {
    hide Run, RunDrift;
    EmptyNet(market);
    RunMovesNet(EMPTY, steps, market);
    if OrderlyRun(EMPTY, steps) {
      RunKeepsNet(EMPTY, steps, market);
    }
  }

  lemma EmptyNet(market: u32)
    ensures Inv(EMPTY) && Net(EMPTY.positions, market) == 0
  {
  }

  // With room on both sides a fill settles whole and keeps every market's net size.
  lemma RoomKeepsNet(ps: PositionMap, fill: Fill, bps: u32)
    requires fill.taker != fill.maker && fill.size > 0
    requires Room(TakerOf(ps, fill), fill.size, fill.price, bps) && Room(MakerOf(ps, fill), fill.size, fill.price, bps)
    ensures ProcessFill(ps, fill, bps).error.None? && SameNet(ps, ProcessFill(ps, fill, bps).positions)
  {
    hide AfterTrade, Room, Net, SameNet, TradeFits, Wraps;
    RoomSettles(TakerOf(ps, fill), fill.size, fill.price, fill.takerIsBuy, bps);
    RoomSettles(MakerOf(ps, fill), fill.size, fill.price, !fill.takerIsBuy, bps);
    TradeFitsExactly(TakerOf(ps, fill), fill.size, fill.price, fill.takerIsBuy, bps);
    TradeFitsExactly(MakerOf(ps, fill), fill.size, fill.price, !fill.takerIsBuy, bps);
    assert MakerOf(ProcessSide(ps, fill.taker, fill, fill.takerIsBuy, bps).positions, fill) == MakerOf(ps, fill);
    FillKeepsNet(ps, fill, bps);
  }
}
