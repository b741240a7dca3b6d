// A reduce-only order, as taker, and closing a position never grow or flip it. As maker, later, it can.
module ReduceOnly {
  import opened Types
  import opened Matching
  import opened Positions
  import opened PositionRuns
  import opened Exchange
  import opened Invariants

  // What is left of p once `taken` of it has been traded away.
  ghost predicate Remainder(p: Position, taken: int, q: Option<Position>) {
    0 <= taken <= p.size &&
    if taken == p.size then q == None
    else
      q.Some? && q.value.isLong == p.isLong && q.value.size == p.size - taken && q.value.entryPrice == p.entryPrice
  }

  lemma {:induction false} FillTotalFront(fills: seq<Fill>)
    requires fills != []
    ensures FillTotal(fills) == fills[0].size + FillTotal(fills[1..])
  {
    if |fills| > 1 {
      FillTotalFront(fills[..|fills| - 1]);
      assert fills[1..][..|fills| - 2] == fills[..|fills| - 1][1..];
    }
  }

  lemma {:induction false} NoFillsLeft(fills: seq<Fill>)
    requires forall f :: f in fills ==> f.size > 0
    ensures FillTotal(fills) == 0 <==> fills == []
  {
    if fills != [] {
      assert fills[|fills| - 1] in fills;
    }
  }

  // Fills of one taker, against others, all reducing p.
  ghost predicate Reducing(fills: seq<Fill>, k: PositionKey, p: Position) {
    forall f :: f in fills ==>
      f.taker == k.owner && f.maker != k.owner && f.market == k.market && f.takerIsBuy != p.isLong && f.size > 0
  }

  lemma ReducingFill(ps: PositionMap, f: Fill, bps: u32, k: PositionKey, p: Position)
    requires PositionOf(ps, k) == Some(p) && Reducing([f], k, p) && f.size <= p.size
    ensures var out := ProcessFill(ps, f, bps);
            && (out.error.None? ==> Remainder(p, f.size, PositionOf(out.positions, k)))
            && (out.error.Some? ==>
                Remainder(p, f.size, PositionOf(out.positions, k)) || PositionOf(out.positions, k) == Some(p))
  {
    hide AfterTrade;
    assert f in [f];
    if AfterTrade(Some(p), f.size, f.price, !p.isLong, bps).Ok? {
      ReducingTrade(p, f.size, f.price, bps);
    }
  }

  // Whatever a run of reducing fills does, the position only loses size, all of it if no update failed.
  lemma {:induction false} ReducingFills(ps: PositionMap, fills: seq<Fill>, bps: u32, k: PositionKey,
                                         p: Position) returns (taken: nat)
    requires PositionOf(ps, k) == Some(p) && p.size > 0 && Reducing(fills, k, p) && FillTotal(fills) <= p.size
    ensures var out := ProcessFills(ps, fills, bps);
            Remainder(p, taken, PositionOf(out.positions, k)) && (out.error.None? ==> taken == FillTotal(fills))
    ensures taken <= FillTotal(fills)
    decreases fills
  {
    hide AfterTrade, ProcessFill;
    if fills == [] {
      return 0;
    }
    var f := fills[0];
    assert f in fills;
    FillTotalFront(fills);
    assert forall g :: g in fills[1..] ==> g in fills;
    ReducingFill(ps, f, bps, k, p);
    var out := ProcessFill(ps, f, bps);
    if out.error.Some? {
      taken := if PositionOf(out.positions, k) == Some(p) then 0 else f.size;
    } else if f.size == p.size {
      NoFillsLeft(fills[1..]);
      taken := f.size;
    } else {
      var rest := ReducingFills(out.positions, fills[1..], bps, k, PositionOf(out.positions, k).value);
      taken := f.size + rest;
    }
  }

  // An admitted reduce-only order leaves the trader's position on its side with at most the order's size
  // less, exactly the fill total less when settlement succeeds, or closes it.
  lemma ReduceOnlyNeverFlips(s: State, version: u64, trader: Address, req: OrderRequest) returns (taken: nat)
    requires Inv(s) && req.reduceOnly && Admit(s, trader, req).Ok? && s.nextId + 1 < U64
    requires var k := PositionKey(trader, req.market); k in s.positions ==> s.positions[k].size > 0
    ensures var k, order := PositionKey(trader, req.market), Incoming(s.nextId, version, trader, req);
            var out := PlaceOrder(s, version, trader, req);
            var settled := ProcessFills(s.positions, MatchAgainst(s, order).fills, s.markets[req.market].initialBps);
            && k in s.positions
            && Remainder(s.positions[k], taken, PositionOf(out.0.positions, k))
            && taken <= req.size
            && (settled.error.None? && !(req.postOnly && WouldTake(s, order)) ==>
                taken == FillTotal(MatchAgainst(s, order).fills))
  {
    hide ProcessFills, Finish, MatchAgainst, FillTotal;
    var k, order := PositionKey(trader, req.market), Incoming(s.nextId, version, trader, req);
    var p := s.positions[k];
    var bps := s.markets[req.market].initialBps;
    if order.postOnly && WouldTake(s, order) {
      return 0;
    }
    MatchAccounted(s, order);
    var fills := MatchAgainst(s, order).fills;
    forall f | f in fills
      ensures f.taker == trader && f.maker != trader && f.market == req.market && f.takerIsBuy != p.isLong && f.size > 0
    {
      assert GoodFill(s.orders, order, f);
    }
    taken := ReducingFills(s.positions, fills, bps, k, p);
    var settled := ProcessFills(s.positions, fills, bps);
    FinishKeepsPositions(AfterMatch(s, order, settled.positions),
                         order.(remaining := MatchAgainst(s, order).remaining), req.timeInForce);
  }

  // Closing goes through the same door: the request always opposes the position and never exceeds it.
  lemma CloseNeverFlips(s: State, version: u64, trader: Address, market: u32, size: u64) returns (taken: nat)
    requires Inv(s) && PositionKey(trader, market) in s.positions && s.positions[PositionKey(trader, market)].size > 0
    ensures var k := PositionKey(trader, market);
            var p := s.positions[k];
            && Remainder(p, taken, PositionOf(Exchange.ClosePosition(s, version, trader, market, size).0.positions, k))
            && (size > 0 ==> taken <= size)
  {
    hide Execute, Inv, Remainder;
    var p := s.positions[PositionKey(trader, market)];
    var req := CloseRequest(market, p, size);
    if Admit(s, trader, req).Ok? && s.nextId + 1 < U64 {
      taken := ReduceOnlyNeverFlips(s, version, trader, req);
    } else {
      taken := 0;
      NothingTaken(p);
    }
  }

  lemma NothingTaken(p: Position)
    requires p.size > 0
    ensures Remainder(p, 0, Some(p))
  {
  }
}
