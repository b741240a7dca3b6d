// Every stored position is the outcome of its account's own fills and forced cuts, in the order they
// happened, whatever else the exchange did.
module AccountRuns {
  import opened Types
  import opened Matching
  import opened Positions
  import opened PositionRuns
  import opened Exchange
  import opened Invariants
  import opened OpenInterest
  import History

  // ---------------------------------------------------------------------------
  // The history of one account
  // ---------------------------------------------------------------------------

  // The account's side of a fill, if settlement reaches it.
  function FillEvents(ps: PositionMap, f: Fill, bps: u32, k: PositionKey): (r: seq<Event>) {
    if f.market != k.market then []
    else if f.taker == k.owner then [Trade(f.size, f.price, f.takerIsBuy)]
    else if f.maker == k.owner && ProcessSide(ps, f.taker, f, f.takerIsBuy, bps).error.None? then
      [Trade(f.size, f.price, !f.takerIsBuy)]
    else []
  }

  // The account's sides of the fills of a match, up to the first error.
  function FillsEvents(ps: PositionMap, fills: seq<Fill>, bps: u32, k: PositionKey): (r: seq<Event>)
    decreases fills
  {
    if fills == [] then []
    else
      var first := ProcessFill(ps, fills[0], bps);
      FillEvents(ps, fills[0], bps, k) +
      (if first.error.Some? then [] else FillsEvents(first.positions, fills[1..], bps, k))
  }

  ghost function OrderEvents(s: State, version: u64, trader: Address, req: OrderRequest,
                             k: PositionKey): (r: seq<Event>) {
    FillsEvents(s.positions, FillsOf(s, version, trader, req), BpsOf(s, req.market), k)
  }

  // The cut that forced a position down.
  ghost function CutEvents(p: Option<Position>, q: Option<Position>): (r: seq<Event>) {
    if q == p || !Shrunk(p, q) then []
    else
      var n: u64 :| AfterCut(p.value, n) == Ok(q);
      [Forced(n)]
  }

  ghost function StepEvents(s: State, step: Step, k: PositionKey): (r: seq<Event>) {
    match step
    case Place(v, trader, req) => OrderEvents(s, v, trader, req, k)
    case Close(v, trader, market, size) =>
      var p := PositionOf(s.positions, PositionKey(trader, market));
      if p.Some? then OrderEvents(s, v, trader, CloseRequest(market, p.value, size), k) else []
    case Rebalance(ps, _) => CutEvents(PositionOf(s.positions, k), PositionOf(ps, k))
    case _ => []
  }

  ghost function RunEvents(s: State, steps: seq<Step>, k: PositionKey): (r: seq<Event>)
    decreases steps
  {
    if steps == [] then [] else StepEvents(s, steps[0], k) + RunEvents(Next(s, steps[0]), steps[1..], k)
  }

  // ---------------------------------------------------------------------------
  // The history explains the position
  // ---------------------------------------------------------------------------

  lemma {:induction false} ApplyConcat(t: Tracked, a: seq<Event>, b: seq<Event>, bps: u32)
    ensures ApplyAll(t, a + b, bps) == ApplyAll(ApplyAll(t, a, bps), b, bps)
  {
    hide Apply;
    if b == [] {
      assert a + b == a;
    } else {
      assert (a + b)[..|a + b| - 1] == a + b[..|b| - 1];
      ApplyConcat(t, a, b[..|b| - 1], bps);
    }
  }

  lemma ApplyTrade(t: Tracked, size: u64, price: u64, isBuy: bool, bps: u32)
    ensures var after := AfterTrade(t.position, size, price, isBuy, bps);
            ApplyAll(t, [Trade(size, price, isBuy)], bps).position == if after.Ok? then after.value else t.position
  {
    hide AfterTrade;
    assert [Trade(size, price, isBuy)][..0] == [];
  }

  lemma FillExact(ps: PositionMap, f: Fill, bps: u32, k: PositionKey, t: Tracked)
    requires f.taker != f.maker && t.position == PositionOf(ps, k)
    ensures ApplyAll(t, FillEvents(ps, f, bps, k), bps).position == PositionOf(ProcessFill(ps, f, bps).positions, k)
  {
    hide AfterTrade, Apply, PutPosition;
    ApplyTrade(t, f.size, f.price, f.takerIsBuy, bps);
    ApplyTrade(t, f.size, f.price, !f.takerIsBuy, bps);
  }

  lemma {:induction false} FillsExact(ps: PositionMap, fills: seq<Fill>, bps: u32, k: PositionKey, t: Tracked)
    requires t.position == PositionOf(ps, k) && forall f :: f in fills ==> f.taker != f.maker
    ensures ApplyAll(t, FillsEvents(ps, fills, bps, k), bps).position
            == PositionOf(ProcessFills(ps, fills, bps).positions, k)
    decreases fills
  {
    hide ApplyAll, FillEvents, ProcessFill;
    if fills == [] {
      ApplyNothing(t, bps);
    } else {
      assert fills[0] in fills && forall f :: f in fills[1..] ==> f in fills;
      var first, events := ProcessFill(ps, fills[0], bps), FillEvents(ps, fills[0], bps, k);
      FillExact(ps, fills[0], bps, k, t);
      if first.error.Some? {
        assert events + [] == events;
      } else {
        FillsExact(first.positions, fills[1..], bps, k, ApplyAll(t, events, bps));
        ApplyConcat(t, events, FillsEvents(first.positions, fills[1..], bps, k), bps);
      }
    }
  }

  lemma ApplyNothing(t: Tracked, bps: u32)
    ensures ApplyAll(t, [], bps) == t
  {
  }

  // Fills of another market leave the account alone, whatever their ratio.
  lemma {:induction false} ForeignFills(ps: PositionMap, fills: seq<Fill>, bps: u32, k: PositionKey)
    requires forall f :: f in fills ==> f.market != k.market
    ensures FillsEvents(ps, fills, bps, k) == []
    decreases fills
  {
    hide ProcessFill;
    if fills != [] {
      assert fills[0] in fills && forall f :: f in fills[1..] ==> f in fills;
      ForeignFills(ProcessFill(ps, fills[0], bps).positions, fills[1..], bps, k);
    }
  }

  // The market keeps one initial margin ratio, and outside of trading positions are only ever forced down.
  ghost predicate SteadyAt(s: State, step: Step, market: u32, bps: u32) {
    && (market in s.markets ==> s.markets[market].initialBps == bps)
    && (step.Rebalance? ==> OnlyShrunk(s.positions, step.positions))
  }

  ghost predicate Steady(s: State, steps: seq<Step>, market: u32, bps: u32)
    decreases steps
  {
    steps != [] ==> SteadyAt(s, steps[0], market, bps) && Steady(Next(s, steps[0]), steps[1..], market, bps)
  }

  lemma OrderExact(s: State, version: u64, trader: Address, req: OrderRequest, k: PositionKey, bps: u32, t: Tracked)
    requires Inv(s) && t.position == PositionOf(s.positions, k)
    requires k.market in s.markets ==> s.markets[k.market].initialBps == bps
    ensures ApplyAll(t, OrderEvents(s, version, trader, req, k), bps).position
         == PositionOf(PlaceOrder(s, version, trader, req).0.positions, k)
  {
    hide Inv, PlaceOrder, ProcessFills, ApplyAll, FillsEvents, FillsOf, Admit;
    PlaceSettles(s, version, trader, req);
    var fills := FillsOf(s, version, trader, req);
    NoFillsElsewhere(s, version, trader, req);
    FillsExact(s.positions, fills, BpsOf(s, req.market), k, t);
    if fills == [] || req.market != k.market {
      ForeignFills(s.positions, fills, BpsOf(s, req.market), k);
      ApplyNothing(t, bps);
      ApplyNothing(t, BpsOf(s, req.market));
    }
  }

  lemma NoFillsElsewhere(s: State, version: u64, trader: Address, req: OrderRequest)
    ensures req.market !in s.markets ==> FillsOf(s, version, trader, req) == []
  {
  }

  lemma CutExact(p: Option<Position>, q: Option<Position>, bps: u32, t: Tracked)
    requires t.position == p && Shrunk(p, q)
    ensures ApplyAll(t, CutEvents(p, q), bps).position == q
  {
    hide AfterCut;
    if q != p {
      var n: u64 :| AfterCut(p.value, n) == Ok(q) && CutEvents(p, q) == [Forced(n)];
      assert [Forced(n)][..0] == [];
    }
  }

  lemma StepExact(s: State, step: Step, k: PositionKey, bps: u32, t: Tracked)
    requires Inv(s) && SteadyAt(s, step, k.market, bps) && t.position == PositionOf(s.positions, k)
    ensures ApplyAll(t, StepEvents(s, step, k), bps).position == PositionOf(Next(s, step).positions, k)
  {
    hide Inv, PlaceOrder, ApplyAll, OrderEvents, Shrunk, CutEvents;
    ApplyNothing(t, bps);
    match step
    case Place(v, trader, req) => OrderExact(s, v, trader, req, k, bps, t);
    case Close(v, trader, market, size) =>
      var p := PositionOf(s.positions, PositionKey(trader, market));
      if p.Some? {
        OrderExact(s, v, trader, CloseRequest(market, p.value, size), k, bps, t);
      }
    case CancelAll(trader, m) => History.CancelOwnedClears(s, trader, ActiveOf(s.active, m));
    case Cancel(_, _) =>
    case DefineMarket(_, _) =>
    case Rebalance(ps, _) =>
      assert Shrunk(PositionOf(s.positions, k), PositionOf(ps, k));
      CutExact(PositionOf(s.positions, k), PositionOf(ps, k), bps, t);
  }

  // After any run the position is what the account's own history makes of the one before it.
  lemma {:induction false} RunExact(s: State, steps: seq<Step>, k: PositionKey, bps: u32, t: Tracked)
    requires Inv(s) && Steady(s, steps, k.market, bps) && t.position == PositionOf(s.positions, k)
    ensures ApplyAll(t, RunEvents(s, steps, k), bps).position == PositionOf(Run(s, steps).positions, k)
    decreases steps
  {
    hide Inv, SteadyAt, Next, ApplyAll, StepEvents;
    if steps == [] {
      ApplyNothing(t, bps);
    } else {
      var s', events := Next(s, steps[0]), StepEvents(s, steps[0], k);
      StepExact(s, steps[0], k, bps, t);
      NextInv(s, steps[0]);
      RunExact(s', steps[1..], k, bps, ApplyAll(t, events, bps));
      ApplyConcat(t, events, RunEvents(s', steps[1..], k), bps);
    }
  }

  // ---------------------------------------------------------------------------
  // Liquidation and deleveraging as runs
  // ---------------------------------------------------------------------------

  // Steps that keep every market's definition and only force positions down.
  ghost predicate ForcedSteps(s: State, steps: seq<Step>) {
    && Run(s, steps).markets == s.markets
    && forall market: u32, bps: u32 ::
         (market in s.markets ==> s.markets[market].initialBps == bps) ==> Steady(s, steps, market, bps)
  }

  ghost predicate ForcedTo(s: State, s': State) {
    exists steps :: Run(s, steps) == s' && ForcedSteps(s, steps)
  }

  lemma {:induction false} SteadyConcat(s: State, a: seq<Step>, b: seq<Step>, market: u32, bps: u32)
    ensures Steady(s, a + b, market, bps) <==> Steady(s, a, market, bps) && Steady(Run(s, a), b, market, bps)
    decreases a
  {
    hide Next, SteadyAt;
    if a == [] {
      assert a + b == b;
    } else {
      assert (a + b)[1..] == a[1..] + b;
      SteadyConcat(Next(s, a[0]), a[1..], b, market, bps);
    }
  }

  lemma ForcedNowhere(s: State)
    ensures ForcedTo(s, s)
  {
    assert Run(s, []) == s && ForcedSteps(s, []);
  }

  lemma ForcedFurther(s: State, t: State, u: State)
    requires ForcedTo(s, t) && ForcedTo(t, u)
    ensures ForcedTo(s, u)
  {
    hide Run, Steady;
    var a :| Run(s, a) == t && ForcedSteps(s, a);
    var b :| Run(t, b) == u && ForcedSteps(t, b);
    forall market: u32, bps: u32 | market in s.markets ==> s.markets[market].initialBps == bps
      ensures Steady(s, a + b, market, bps)
    {
      SteadyConcat(s, a, b, market, bps);
    }
    RunConcat(s, a, b);
    assert Run(s, a + b) == u && ForcedSteps(s, a + b);
  }

  lemma OneStep(s: State, step: Step, market: u32, bps: u32)
    ensures Run(s, [step]) == Next(s, step)
    ensures Steady(s, [step], market, bps) <==> SteadyAt(s, step, market, bps)
  {
    hide Next, SteadyAt;
    assert [step][1..] == [];
    var s' := Next(s, step);
    assert Run(s', []) == s' && Steady(s', [], market, bps);
  }

  lemma OneStepForced(s: State, step: Step)
    requires Next(s, step).markets == s.markets && (step.Rebalance? ==> OnlyShrunk(s.positions, step.positions))
    ensures ForcedTo(s, Next(s, step))
  {
    hide Next, Run, Steady, OnlyShrunk;
    OneStep(s, step, 0, 0);
    forall market: u32, bps: u32 | market in s.markets ==> s.markets[market].initialBps == bps
      ensures Steady(s, [step], market, bps)
    {
      OneStep(s, step, market, bps);
    }
    assert ForcedSteps(s, [step]);
  }

  // Forcing positions down, with any balances.
  lemma RebalanceForced(s: State, s': State)
    requires s' == s.(positions := s'.positions, balances := s'.balances) && OnlyShrunk(s.positions, s'.positions)
    ensures ForcedTo(s, s')
  {
    hide OnlyShrunk;
    OneStepForced(s, Rebalance(s'.positions, s'.balances));
  }

  lemma CancelForced(s: State, trader: Address, market: u32)
    ensures ForcedTo(s, CancelTrader(s, trader, market))
  {
    hide CancelTrader;
    CancelKeepsRest(s, trader, market);
    OneStepForced(s, CancelAll(trader, market));
  }

  lemma CancelKeepsRest(s: State, trader: Address, market: u32)
    ensures var s' := CancelTrader(s, trader, market);
            s' == s.(orders := s'.orders, active := s'.active)
  {
    History.CancelOwnedClears(s, trader, ActiveOf(s.active, market));
  }

  // A trader's orders cancelled and then positions forced down: a liquidation.
  lemma LiquidationForced(s: State, trader: Address, market: u32, s': State)
    requires s' == CancelTrader(s, trader, market).(positions := s'.positions, balances := s'.balances)
    requires OnlyShrunk(s.positions, s'.positions)
    ensures ForcedTo(s, s')
  {
    hide CancelTrader, ForcedTo, OnlyShrunk;
    var t := CancelTrader(s, trader, market);
    CancelKeepsRest(s, trader, market);
    CancelForced(s, trader, market);
    RebalanceForced(t, s');
    ForcedFurther(s, t, s');
  }

  // ---------------------------------------------------------------------------
  // The history is in the log
  // ---------------------------------------------------------------------------

  // A trade of the history is one side of a logged fill.
  ghost predicate Logged(log: seq<Fill>, k: PositionKey, e: Event) {
    e.Trade? ==>
      exists f :: f in log && f.market == k.market && (f.taker == k.owner || f.maker == k.owner) &&
                  f.price == e.price && f.size == e.size
  }

  ghost predicate AllLogged(log: seq<Fill>, k: PositionKey, events: seq<Event>) {
    forall e :: e in events ==> Logged(log, k, e)
  }

  lemma LoggedMore(log: seq<Fill>, log': seq<Fill>, k: PositionKey, events: seq<Event>)
    requires AllLogged(log, k, events) && forall f :: f in log ==> f in log'
    ensures AllLogged(log', k, events)
  {
    forall e | e in events ensures Logged(log', k, e) {
      assert Logged(log, k, e);
    }
  }

  lemma FillLogged(ps: PositionMap, f: Fill, fills: seq<Fill>, bps: u32, k: PositionKey)
    requires f in fills
    ensures AllLogged(fills, k, FillEvents(ps, f, bps, k))
  {
  }

  lemma {:induction false} FillsLogged(ps: PositionMap, fills: seq<Fill>, bps: u32, k: PositionKey)
    ensures AllLogged(fills, k, FillsEvents(ps, fills, bps, k))
    decreases fills
  {
    hide ProcessFill, FillEvents, Logged;
    if fills != [] {
      var first := ProcessFill(ps, fills[0], bps);
      FillLogged(ps, fills[0], fills, bps, k);
      FillsLogged(first.positions, fills[1..], bps, k);
      LoggedMore(fills[1..], fills, k, FillsEvents(first.positions, fills[1..], bps, k));
    }
  }

  lemma PlaceLogs(s: State, version: u64, trader: Address, req: OrderRequest)
    ensures PlaceOrder(s, version, trader, req).0.log == s.log + FillsOf(s, version, trader, req)
  {
    hide MatchAgainst, ProcessFills, Finish, WouldTake;
    var admitted := Admit(s, trader, req);
    assert s.log + [] == s.log;
    if admitted.Ok? && s.nextId + 1 < U64 {
      var order := Incoming(s.nextId, version, trader, req);
      var sw := MatchAgainst(s, order);
      var out := ProcessFills(s.positions, sw.fills, admitted.value.initialBps);
      FinishKeepsPositions(AfterMatch(s, order, out.positions), order.(remaining := sw.remaining), req.timeInForce);
    }
  }

  lemma OrderLogged(s: State, version: u64, trader: Address, req: OrderRequest, k: PositionKey)
    ensures AllLogged(PlaceOrder(s, version, trader, req).0.log, k, OrderEvents(s, version, trader, req, k))
  {
    hide PlaceOrder, FillsOf, FillsEvents, AllLogged;
    PlaceLogs(s, version, trader, req);
    var fills := FillsOf(s, version, trader, req);
    FillsLogged(s.positions, fills, BpsOf(s, req.market), k);
    LoggedMore(fills, s.log + fills, k, OrderEvents(s, version, trader, req, k));
  }

  lemma StepLogged(s: State, step: Step, k: PositionKey)
    ensures AllLogged(Next(s, step).log, k, StepEvents(s, step, k))
  {
    hide PlaceOrder, OrderEvents;
    match step
    case Place(v, trader, req) => OrderLogged(s, v, trader, req, k);
    case Close(v, trader, market, size) =>
      var p := PositionOf(s.positions, PositionKey(trader, market));
      if p.Some? {
        OrderLogged(s, v, trader, CloseRequest(market, p.value, size), k);
      }
    case CancelAll(_, _) =>
    case Cancel(_, _) =>
    case DefineMarket(_, _) =>
    case Rebalance(_, _) =>
  }

  lemma {:induction false} RunLogged(s: State, steps: seq<Step>, k: PositionKey)
    requires Inv(s)
    ensures AllLogged(Run(s, steps).log, k, RunEvents(s, steps, k))
    decreases steps
  {
    hide Inv, Next, StepEvents, Logged;
    if steps != [] {
      var s' := Next(s, steps[0]);
      NextInv(s, steps[0]);
      StepLogged(s, steps[0], k);
      RunLogged(s', steps[1..], k);
      History.RunExtends(s', steps[1..]);
      LoggedMore(s'.log, Run(s, steps).log, k, StepEvents(s, steps[0], k));
    }
  }

  // ---------------------------------------------------------------------------
  // Margin and entry price of every reachable position
  // ---------------------------------------------------------------------------

  ghost predicate PricesLogged(log: seq<Fill>, k: PositionKey, lo: nat, hi: nat) {
    forall f :: f in log && f.market == k.market && (f.taker == k.owner || f.maker == k.owner) ==> lo <= f.price <= hi
  }

  // The account's position with the openings and increases counted since it was last opened or flipped.
  ghost function TrackedAfter(steps: seq<Step>, k: PositionKey, bps: u32): (r: Tracked) {
    ApplyAll(Tracked(None, 0), RunEvents(EMPTY, steps, k), bps)
  }

  // Every position any run reaches from the empty exchange, whatever mix of placing, closing, cancelling,
  // liquidating and deleveraging led to it: its margin covers the initial requirement at entry but for one
  // unit per opening or increase since it was last opened or flipped, and its entry price lies between the
  // prices the account traded at.
  lemma ReachedPositionsMargined(steps: seq<Step>, k: PositionKey, bps: u32, lo: nat, hi: nat)
    requires Steady(EMPTY, steps, k.market, bps) && k in Run(EMPTY, steps).positions
    requires PricesLogged(Run(EMPTY, steps).log, k, lo, hi)
    ensures var p, t := Run(EMPTY, steps).positions[k], TrackedAfter(steps, k, bps);
            && t.position == Some(p)
            && (p.margin + t.updates) * BASIS_POINTS >= p.size * p.entryPrice * bps
            && lo <= p.entryPrice <= hi
  {
    hide Run, Steady, RunEvents, Apply;
    var events := RunEvents(EMPTY, steps, k);
    RunExact(EMPTY, steps, k, bps, Tracked(None, 0));
    RunLogged(EMPTY, steps, k);
    RunMargined(events, bps);
    LoggedPrices(Run(EMPTY, steps).log, k, events, lo, hi);
    RunEntryWithin(events, bps, lo, hi);
  }

  lemma LoggedPrices(log: seq<Fill>, k: PositionKey, events: seq<Event>, lo: nat, hi: nat)
    requires AllLogged(log, k, events) && PricesLogged(log, k, lo, hi)
    ensures PricesWithin(events, lo, hi)
  {
    forall e: Event | e in events && e.Trade? ensures lo <= e.price <= hi {
      assert Logged(log, k, e);
    }
  }
}
