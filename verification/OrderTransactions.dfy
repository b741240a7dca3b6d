// Executing a transaction whose payload places an order: the executor's nonce and pool together with the
// exchange it changes.
module OrderTransactions {
  import opened Types
  import opened Matching
  import opened Positions
  import opened Exchange
  import opened Invariants
  import opened OpenInterest
  import Mempool
  import opened Executor
  import opened Priority
  import Admission

  datatype World = World(exchange: State, stored: Stored, pool: Mempool.Index)

  // Signature, nonce, payload; a payload that fails keeps what it has done to the exchange.
  ghost function ExecuteOrder(w: World, tx: Mempool.Transaction, authorized: bool, version: u64, req: OrderRequest)
    : (r: (World, Outcome))
  {
    var expected := NonceOf(w.stored, tx.from);
    if !authorized then (w, BadSignature)
    else if tx.nonce < expected then (w, InvalidNonce(expected, tx.nonce))
    else if tx.nonce > expected then (w, NonceGap(expected, tx.nonce))
    else
      var placed := PlaceOrder(w.exchange, version, tx.from, req);
      if placed.1.Err? then (w.(exchange := placed.0), PayloadFailed)
      else
        var stored, pool := w.stored[tx.from := NextNonce(expected)], Mempool.Removed(w.pool, Mempool.TxHash(tx));
        (World(placed.0, stored, pool), Success)
  }

  // The attempt the executor sees.
  ghost function AttemptOf(w: World, tx: Mempool.Transaction, authorized: bool, version: u64,
                           req: OrderRequest): (r: Attempt) {
    Attempt(tx, authorized, PlaceOrder(w.exchange, version, tx.from, req).1.Ok?)
  }

  // Nonces and pool move as the executor says, the exchange stays sound, and unless the transaction succeeds
  // it is as due and as pending as it was.
  lemma OrderTransaction(w: World, tx: Mempool.Transaction, authorized: bool, version: u64, req: OrderRequest)
    requires Inv(w.exchange)
    ensures var out, a := ExecuteOrder(w, tx, authorized, version, req), AttemptOf(w, tx, authorized, version, req);
            && Inv(out.0.exchange)
            && (out.1.Success? <==> Succeeds(w.stored, a))
            && out.0.stored == Advance(w.stored, a)
            && out.0.pool == Drained(w.stored, w.pool, [a])
            && (!out.1.Success? ==> out.0.stored == w.stored && out.0.pool == w.pool)
            && (out.1.BadSignature? <==> !authorized)
            && (out.1 == InvalidNonce(NonceOf(w.stored, tx.from), tx.nonce) <==>
                authorized && tx.nonce < NonceOf(w.stored, tx.from))
            && (out.1 == NonceGap(NonceOf(w.stored, tx.from), tx.nonce) <==>
                authorized && tx.nonce > NonceOf(w.stored, tx.from))
            && (out.1.Success? || out.1.PayloadFailed? ==>
                  out.0.exchange == PlaceOrder(w.exchange, version, tx.from, req).0)
            && (!out.1.Success? && !out.1.PayloadFailed? ==> out.0 == w)
  {
    hide Inv, PlaceOrder, Mempool.Removed;
    PlaceInv(w.exchange, version, tx.from, req);
    assert [AttemptOf(w, tx, authorized, version, req)][..0] == [];
  }

  // ---------------------------------------------------------------------------
  // Batches
  // ---------------------------------------------------------------------------

  // An entry of a batch: bytes that do not decode, or a transaction placing an order.
  datatype Entry =
    | Garbled
    | Entry(tx: Mempool.Transaction, authorized: bool, version: u64, req: OrderRequest)

  ghost function After(w: World, e: Entry): (r: World) {
    match e
    case Garbled => w
    case Entry(tx, authorized, version, req) => ExecuteOrder(w, tx, authorized, version, req).0
  }

  ghost function RunEntries(w: World, entries: seq<Entry>): (r: World) {
    if entries == [] then w else After(RunEntries(w, entries[..|entries| - 1]), entries[|entries| - 1])
  }

  // What the executor sees of an entry when its turn comes.
  ghost function Seen(w: World, e: Entry): (r: Attempt) {
    match e
    case Garbled => Undecodable
    case Entry(tx, authorized, version, req) => AttemptOf(w, tx, authorized, version, req)
  }

  ghost function Attempts(w: World, entries: seq<Entry>): (r: seq<Attempt>)
    ensures |r| == |entries|
  {
    if entries == [] then []
    else
      var init := entries[..|entries| - 1];
      Attempts(w, init) + [Seen(RunEntries(w, init), entries[|entries| - 1])]
  }

  // What the exchange sees of it: only an authorized transaction that is due gets there.
  ghost function Placed(w: World, e: Entry): (r: seq<Step>) {
    match e
    case Garbled => []
    case Entry(tx, authorized, version, req) =>
      if authorized && tx.nonce == NonceOf(w.stored, tx.from) then [Place(version, tx.from, req)] else []
  }

  ghost function Steps(w: World, entries: seq<Entry>): (r: seq<Step>) {
    if entries == [] then []
    else
      var init := entries[..|entries| - 1];
      Steps(w, init) + Placed(RunEntries(w, init), entries[|entries| - 1])
  }

  lemma AfterEntry(w: World, e: Entry)
    requires Inv(w.exchange)
    ensures var t, a := After(w, e), Seen(w, e);
            && Inv(t.exchange) && t.exchange == Run(w.exchange, Placed(w, e))
            && t.stored == Advance(w.stored, a)
            && t.pool == if Succeeds(w.stored, a) then Mempool.Removed(w.pool, Mempool.TxHash(a.tx)) else w.pool
  {
    hide Inv, PlaceOrder, Mempool.Removed;
    if e.Entry? {
      PlaceInv(w.exchange, e.version, e.tx.from, e.req);
      var step := Place(e.version, e.tx.from, e.req);
      assert [step][1..] == [] && Run(w.exchange, [step]) == Run(Next(w.exchange, step), []);
    }
  }

  // Over any run of entries the exchange stays sound and takes exactly the placing steps of those that were
  // due, nonces advance as the executor says and the pool loses what succeeded.
  lemma {:induction false} RunOfEntries(w: World, entries: seq<Entry>)
    requires Inv(w.exchange)
    ensures var t, attempts := RunEntries(w, entries), Attempts(w, entries);
            && Inv(t.exchange) && t.exchange == Run(w.exchange, Steps(w, entries))
            && t.stored == AdvanceAll(w.stored, attempts)
            && t.pool == Drained(w.stored, w.pool, attempts)
  {
    hide Inv, After, Seen, Placed, Mempool.Removed, Succeeds, Advance;
    if entries != [] {
      var init, last := entries[..|entries| - 1], entries[|entries| - 1];
      var before := RunEntries(w, init);
      RunOfEntries(w, init);
      AfterEntry(before, last);
      RunConcat(w.exchange, Steps(w, init), Placed(before, last));
      assert (Attempts(w, init) + [Seen(before, last)])[..|init|] == Attempts(w, init);
    }
  }

  ghost function RunBatches(w: World, batches: seq<seq<Entry>>): (r: World) {
    if batches == [] then w else RunEntries(RunBatches(w, batches[..|batches| - 1]), batches[|batches| - 1])
  }

  function Joined(batches: seq<seq<Entry>>): (r: seq<Entry>) {
    if batches == [] then [] else Joined(batches[..|batches| - 1]) + batches[|batches| - 1]
  }

  lemma {:induction false} EntriesConcat(w: World, a: seq<Entry>, b: seq<Entry>)
    ensures RunEntries(w, a + b) == RunEntries(RunEntries(w, a), b)
  {
    hide After;
    if b == [] {
      assert a + b == a;
    } else {
      assert (a + b)[..|a + b| - 1] == a + b[..|b| - 1];
      EntriesConcat(w, a, b[..|b| - 1]);
    }
  }

  // Batches of entries, one after the other, are one run: of the exchange, of the nonces and of the pool. A
  // sender's stored nonce moves on by the number of its successes, which carry the nonces in between.
  lemma {:induction false} BatchesOfOrders(w: World, batches: seq<seq<Entry>>, s: Address)
    requires Inv(w.exchange)
    ensures var t, entries := RunBatches(w, batches), Joined(batches);
            var attempts := Attempts(w, entries);
            var nonces := SuccessNonces(w.stored, attempts, s);
            && t == RunEntries(w, entries)
            && Inv(t.exchange) && t.exchange == Run(w.exchange, Steps(w, entries))
            && t.stored == AdvanceAll(w.stored, attempts)
            && t.pool == Drained(w.stored, w.pool, attempts)
            && NonceOf(t.stored, s) == NonceAfter(NonceOf(w.stored, s), |nonces|)
            && forall i :: 0 <= i < |nonces| ==> nonces[i] == NonceAfter(NonceOf(w.stored, s), i)
  {
    hide Inv, RunEntries, Attempts, Steps, AdvanceAll, Drained, SuccessNonces, NonceOf, NonceAfter;
    if batches == [] {
      NoEntries(w);
    } else {
      BatchesOfOrders(w, batches[..|batches| - 1], s);
      EntriesConcat(w, Joined(batches[..|batches| - 1]), batches[|batches| - 1]);
    }
    RunOfEntries(w, Joined(batches));
    SuccessesAreConsecutive(w.stored, Attempts(w, Joined(batches)), s);
  }

  lemma NoEntries(w: World)
    ensures RunEntries(w, []) == w
  {
  }

  // ---------------------------------------------------------------------------
  // What a failed order leaves behind
  // ---------------------------------------------------------------------------

  lemma {:induction false} SweepWithoutFills(sw: Sweep, taker: Order, ms: seq<u64>)
    ensures |SweepAll(sw, taker, ms).fills| >= |sw.fills|
    ensures |SweepAll(sw, taker, ms).fills| == |sw.fills| ==> SweepAll(sw, taker, ms) == sw
    decreases ms
  {
    if ms != [] {
      SweepWithoutFills(Touch(sw, taker, ms[0]), taker, ms[1..]);
    }
  }

  lemma NoFillsNoMatch(s: State, order: Order)
    ensures MatchAgainst(s, order).fills == [] ==>
              MatchAgainst(s, order) == Sweep(s.orders, s.active, order.remaining, [])
  {
    SweepWithoutFills(Sweep(s.orders, s.active, order.remaining, []), order,
                      Makers(s.orders, ActiveOf(s.active, order.market), !order.isBuy));
  }

  lemma FailedFinish(s: State, order: Order, tif: TimeInForce)
    ensures Finish(s, order, tif).1.Err? ==> Finish(s, order, tif).0 == s
  {
  }

  // A match without fills changes nothing but the id; one with fills changes the log.
  lemma MatchChanges(s: State, order: Order, bps: u32)
    requires order.id + 1 < U64
    ensures var fills := MatchAgainst(s, order).fills;
            var t := AfterMatch(s, order, ProcessFills(s.positions, fills, bps).positions);
            t == s.(nextId := t.nextId) <==> fills == []
  {
    hide MatchAgainst, ProcessFill;
    var sw := MatchAgainst(s, order);
    NoFillsNoMatch(s, order);
    assert s.log + [] == s.log;
    assert |s.log + sw.fills| == |s.log| + |sw.fills|;
  }

  // The order gets as far as the book, and another owner offers something at a price it accepts.
  ghost predicate Trades(s: State, version: u64, trader: Address, req: OrderRequest) {
    var order := Incoming(s.nextId, version, trader, req);
    && Admit(s, trader, req).Ok? && s.nextId + 1 < U64 && !(order.postOnly && WouldTake(s, order))
    && req.size > 0 && exists x :: Opposes(s, order, x) && Eligible(order, s.orders[x])
  }

  lemma TradesExactly(s: State, version: u64, trader: Address, req: OrderRequest)
    requires Inv(s)
    ensures Trades(s, version, trader, req) <==> FillsOf(s, version, trader, req) != []
  {
    hide Inv, MatchAgainst, WouldTake, Admit, Eligible, Offered;
    if Admit(s, trader, req).Ok? && s.nextId + 1 < U64 {
      var order := Incoming(s.nextId, version, trader, req);
      AdmittedFresh(s, version, trader, req);
      MatchLeaves(s, order);
      MatchTotals(s, order);
    }
  }

  lemma AdmittedFresh(s: State, version: u64, trader: Address, req: OrderRequest)
    requires Admit(s, trader, req).Ok?
    ensures Fresh(s, Incoming(s.nextId, version, trader, req))
  {
  }

  // An order that fails leaves the exchange as it was, but for a used-up id, exactly when it did not get as
  // far as the book or nothing is offered to it there.
  lemma FailedOrderExactly(s: State, version: u64, trader: Address, req: OrderRequest)
    requires Inv(s) && PlaceOrder(s, version, trader, req).1.Err?
    ensures var s' := PlaceOrder(s, version, trader, req).0;
            s' == s.(nextId := s'.nextId) <==> !Trades(s, version, trader, req)
  {
    hide MatchAgainst, ProcessFills, WouldTake, Admit, Finish, AfterMatch, Trades, Inv;
    TradesExactly(s, version, trader, req);
    var admitted := Admit(s, trader, req);
    if admitted.Ok? && s.nextId + 1 < U64 {
      var order := Incoming(s.nextId, version, trader, req);
      var sw := MatchAgainst(s, order);
      var settled := ProcessFills(s.positions, sw.fills, admitted.value.initialBps);
      MatchChanges(s, order, admitted.value.initialBps);
      FailedFinish(AfterMatch(s, order, settled.positions), order.(remaining := sw.remaining), req.timeInForce);
    }
  }

  // A fill-or-kill order to which less than its size is offered fails and keeps its fills: what is offered is
  // taken, the makers are shrunk, the positions traded as far as settlement goes, the log is longer.
  lemma FillOrKillKeepsFills(s: State, version: u64, trader: Address, req: OrderRequest)
    requires Inv(s) && req.timeInForce == FOK && Admit(s, trader, req).Ok? && s.nextId + 1 < U64
    requires var order := Incoming(s.nextId, version, trader, req);
             !(order.postOnly && WouldTake(s, order)) && Offered(s, order) < req.size
    ensures var order, out := Incoming(s.nextId, version, trader, req), PlaceOrder(s, version, trader, req);
            var sw, bps := MatchAgainst(s, order), s.markets[req.market].initialBps;
            && out.1.Err? && (out.1 == Err(OrderNotFilled) <==> AllFit(s.positions, sw.fills, bps))
            && out.0.orders == sw.orders && out.0.log == s.log + sw.fills
            && out.0.positions == ProcessFills(s.positions, sw.fills, bps).positions
            && FillTotal(sw.fills) == Offered(s, order)
  {
    hide MatchAgainst, ProcessFills, WouldTake, Inv, Offered, AllFit, FillTotal;
    var order := Incoming(s.nextId, version, trader, req);
    var fills, bps := MatchAgainst(s, order).fills, s.markets[req.market].initialBps;
    MatchLeaves(s, order);
    MatchTotals(s, order);
    MatchFillsAreTrades(s, order);
    SettlesExactly(s.positions, fills, bps, order.market);
    OnlyOverflows(s.positions, fills, bps);
  }

  // The only error settlement knows.
  lemma {:induction false} OnlyOverflows(ps: PositionMap, fills: seq<Fill>, bps: u32)
    ensures ProcessFills(ps, fills, bps).error.Some? ==> ProcessFills(ps, fills, bps).error.value == Overflow
    decreases fills
  {
    hide AfterTrade;
    if fills != [] {
      OnlyOverflows(ProcessFill(ps, fills[0], bps).positions, fills[1..], bps);
    }
  }

  lemma MatchTotals(s: State, order: Order)
    requires Inv(s) && Fresh(s, order)
    ensures MatchAgainst(s, order).fills != [] <==> MatchAgainst(s, order).remaining < order.remaining
    ensures FillTotal(MatchAgainst(s, order).fills) == order.remaining - MatchAgainst(s, order).remaining
  {
    MatchAccounted(s, order);
    var fills := MatchAgainst(s, order).fills;
    if fills != [] {
      assert GoodFill(s.orders, order, fills[|fills| - 1]);
    }
  }

  // ---------------------------------------------------------------------------
  // The input
  // ---------------------------------------------------------------------------

  // One ask of one contract, and a fill-or-kill market buy of two.
  lemma FillOrKillExample(s: State, ask: Order, market: Market, req: OrderRequest)
    requires ask == Order(0, 0, 2, false, 100, 1, 1, Active, 0, false, false) &&
             market == Market(0, 1, 1, 100, 20, 500, 1000, 100)
    requires s == State(map[0 := ask], map[0 := [0]], 1, map[0 := market], [0], map[], map[], [])
    requires req == OrderRequest(0, true, 0, 2, FOK, false, false)
    ensures var out := PlaceOrder(s, 0, 1, req);
            && Inv(s) && out.1 == Err(OrderNotFilled)
            && out.0.orders == map[0 := ask.(remaining := 0, status := Filled)]
            && out.0.log == [Fill(2, 1, 0, 100, 1, true, 0, 1)]
            && PositionOf(out.0.positions, PositionKey(1, 0)) == Some(Position(1, 100, true, 10, 0))
            && PositionOf(out.0.positions, PositionKey(2, 0)) == Some(Position(1, 100, false, 10, 0))
  {
    hide PlaceOrder, Admit, MatchAgainst, Inv, WouldTake;
    var order, fill := Incoming(1, 0, 1, req), Fill(2, 1, 0, 100, 1, true, 0, 1);
    OneAskSound(s, ask, market);
    Admission.MarketOrderExactly(s, 1, req);
    OneAskMatch(s, ask, order, fill);
    OneFillSettles(fill);
    MatchLeaves(s, order);
    FillOrKillKeepsFills(s, 0, 1, req);
    MatchFillsAreTrades(s, order);
    SettlesExactly(s.positions, [fill], 1000, 0);
    assert s.log + [fill] == [fill];
  }

  lemma OneAskSound(s: State, ask: Order, market: Market)
    requires ask == Order(0, 0, 2, false, 100, 1, 1, Active, 0, false, false)
    requires s == State(map[0 := ask], map[0 := [0]], 1, map[0 := market], [0], map[], map[], [])
    ensures Inv(s)
  {
    assert forall x :: x in s.orders ==> OrderSound(s, x);
  }

  lemma OneAskMatch(s: State, ask: Order, order: Order, fill: Fill)
    requires Inv(s) && s.orders == map[0 := ask] && s.active == map[0 := [0]]
    requires ask == Order(0, 0, 2, false, 100, 1, 1, Active, 0, false, false)
    requires order == Order(1, 0, 1, true, 0, 2, 2, Active, 0, false, false)
    requires fill == Fill(2, 1, 0, 100, 1, true, 0, 1)
    ensures var sw := MatchAgainst(s, order);
            && sw.orders == map[0 := ask.(remaining := 0, status := Filled)]
            && sw.remaining == 1 && sw.fills == [fill]
  {
    hide Inv, MatchAgainst, RemoveActive;
    OneMaker(s, order, 0);
    assert [] + [fill] == [fill];
  }

  lemma OneFill(ps: PositionMap, fill: Fill, bps: u32)
    ensures ProcessFills(ps, [fill], bps) == ProcessFill(ps, fill, bps)
  {
    hide ProcessFill;
    var first := ProcessFill(ps, fill, bps);
    assert [fill][1..] == [] && ProcessFills(first.positions, [], bps) == Settled(first.positions, None);
  }

  lemma OneFillSettles(fill: Fill)
    requires fill == Fill(2, 1, 0, 100, 1, true, 0, 1)
    ensures var out := ProcessFills(map[], [fill], 1000);
            && out.error.None?
            && PositionOf(out.positions, PositionKey(1, 0)) == Some(Position(1, 100, true, 10, 0))
            && PositionOf(out.positions, PositionKey(2, 0)) == Some(Position(1, 100, false, 10, 0))
  {
    assert InitialMargin(1, 100, 1000) == Ok(10);
    OneFill(map[], fill, 1000);
  }
}
