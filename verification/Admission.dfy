// What an order has passed once it is admitted, without the rounding of the checks.
module Admission {
  import opened Types
  import opened Rounding
  import opened Risk
  import opened Exchange
  import PositionRuns
  import Liquidation

  // Margin that stays locked in the trader's position: all of it under an order on the position's own side;
  // under one against it, what the part it would reduce does not free.
  function Locked(position: Option<Position>, req: OrderRequest): (r: int) {
    if position.None? then 0
    else
      var p := position.value;
      if p.isLong == req.isBuy then p.margin
      else if p.size == 0 then 0
      else p.margin - p.margin * (Min(req.size, p.size) * BASIS_POINTS / p.size) / BASIS_POINTS
  }

  // Balance beyond it.
  function Available(s: State, trader: Address, req: OrderRequest): (r: int)
    requires req.market in s.markets
  {
    var k := BalanceKey(trader, s.markets[req.market].quoteAsset);
    var balance := if k in s.balances then s.balances[k] else 0;
    Max(0, balance - Locked(PositionOf(s.positions, PositionKey(trader, req.market)), req))
  }

  // The margin freed by the part of the position that the order would reduce stays in u128 when it is scaled.
  predicate LockedFits(position: Option<Position>, req: OrderRequest) {
    match position
    case None => true
    case Some(p) =>
      p.size == 0 || req.isBuy == p.isLong || p.margin * (Min(req.size, p.size) * BASIS_POINTS / p.size) < U128
  }

  lemma LockedExactly(position: Option<Position>, req: OrderRequest)
    ensures LockedFits(position, req) ==> LockedMargin(position, req) == Ok(Locked(position, req))
    ensures !LockedFits(position, req) ==> LockedMargin(position, req) == Err(Overflow)
  {
    if position.Some? && position.value.size > 0 {
      var p := position.value;
      var cut := Min(req.size, p.size);
      var ratio := cut * BASIS_POINTS / p.size;
      ProductNonNegative(p.margin, ratio);
      DivBetween(cut * BASIS_POINTS, p.size, 0, BASIS_POINTS);
      FloorIs(p.margin * ratio, BASIS_POINTS);
      PositionRuns.ReleaseBelow(p.margin, p.margin * ratio / BASIS_POINTS, ratio, BASIS_POINTS);
    }
  }

  lemma ProductNonNegative(x: nat, y: nat)
    ensures x * y >= 0
  {
  }

  // No product of the checks leaves u128.
  predicate Computable(s: State, trader: Address, req: OrderRequest)
    requires req.market in s.markets
  {
    && req.size * req.price * s.markets[req.market].initialBps < U128
    && LockedFits(PositionOf(s.positions, PositionKey(trader, req.market)), req)
  }

  // The initial margin of the order's value is available.
  predicate Margined(s: State, trader: Address, req: OrderRequest)
    requires req.market in s.markets
  {
    req.size * req.price * s.markets[req.market].initialBps < (Available(s, trader, req) + 1) * BASIS_POINTS
  }

  // A limit order that may open a position needs a margin, and its value stays below one more than the
  // maximum leverage times it.
  predicate Levered(s: State, trader: Address, req: OrderRequest)
    requires req.market in s.markets
  {
    var market := s.markets[req.market];
    var value := req.size * req.price;
    var margin := value * market.initialBps / BASIS_POINTS;
    !req.reduceOnly && req.price > 0 ==> margin > 0 && value < (market.maxLeverage + 1) * margin
  }

  lemma WithinLeverage(value: nat, margin: nat, maxLeverage: u32)
    ensures (if margin > 0 then value / margin else U128 - 1) > maxLeverage
       <==> !(margin > 0 && value < (maxLeverage + 1) * margin)
  {
    if margin > 0 {
      Liquidation.FloorLess(value, margin, maxLeverage + 1);
    }
  }

  lemma MarginFits(size: u64, price: u64, bps: u32)
    ensures 0 <= size * price < U128
    ensures size * price * bps >= 0
  {
    ProductFits(size, price);
  }

  // Price and size are what the market allows.
  predicate WellFormed(market: Market, req: OrderRequest) {
    && (req.price > 0 && market.tickSize > 0 ==> req.price % market.tickSize == 0)
    && market.minOrderSize <= req.size <= market.maxOrderSize
  }

  // The order opposes a position that is at least as large.
  predicate Reduces(position: Option<Position>, req: OrderRequest) {
    position.Some? && position.value.isLong != req.isBuy && position.value.size >= req.size
  }

  lemma ChecksExactly(s: State, trader: Address, req: OrderRequest)
    requires req.market in s.markets && WellFormed(s.markets[req.market], req)
    ensures var r, position := Admit(s, trader, req), PositionOf(s.positions, PositionKey(trader, req.market));
            if !Computable(s, trader, req) then r == Err(Overflow)
            else if !Margined(s, trader, req) then r == Err(InsufficientMargin)
            else if !Levered(s, trader, req) then r == Err(LeverageTooHigh)
            else if req.reduceOnly && !Reduces(position, req) then r == Err(ReduceOnlyWouldIncrease)
            else r == Ok(s.markets[req.market])
  {
    hide LockedMargin, LockedFits, Locked;
    var market := s.markets[req.market];
    var value, available := req.size * req.price, Available(s, trader, req);
    LockedExactly(PositionOf(s.positions, PositionKey(trader, req.market)), req);
    MarginFits(req.size, req.price, market.initialBps);
    Liquidation.FloorLess(value * market.initialBps, BASIS_POINTS, available + 1);
    WithinLeverage(value, value * market.initialBps / BASIS_POINTS, market.maxLeverage);
  }

  // An order is admitted exactly when its market exists, its price is 0 or on the tick, its size is within
  // the market's limits, its margin is there, and reduce-only orders oppose a position that is large enough.
  // What is wrong first is what is reported.
  lemma AdmittedExactly(s: State, trader: Address, req: OrderRequest)
    ensures var r, position := Admit(s, trader, req), PositionOf(s.positions, PositionKey(trader, req.market));
            if req.market !in s.markets then r == Err(MarketNotFound)
            else if !WellFormed(s.markets[req.market], req) then r == Err(Other)
            else if !Computable(s, trader, req) then r == Err(Overflow)
            else if !Margined(s, trader, req) then r == Err(InsufficientMargin)
            else if !Levered(s, trader, req) then r == Err(LeverageTooHigh)
            else if req.reduceOnly && !Reduces(position, req) then r == Err(ReduceOnlyWouldIncrease)
            else r == Ok(s.markets[req.market])
  {
    hide CheckOrderAllowed, Computable, Margined, Levered, Reduces;
    if req.market in s.markets && WellFormed(s.markets[req.market], req) {
      ChecksExactly(s, trader, req);
    }
  }

  // A market order carries no value, so neither margin nor leverage is asked of it: it is admitted exactly
  // when market and size are right, the locked margin fits, and a reduce-only one fits its position.
  lemma MarketOrderExactly(s: State, trader: Address, req: OrderRequest)
    requires req.price == 0
    ensures Admit(s, trader, req).Ok? <==>
              && req.market in s.markets
              && s.markets[req.market].minOrderSize <= req.size <= s.markets[req.market].maxOrderSize
              && LockedFits(PositionOf(s.positions, PositionKey(trader, req.market)), req)
              && (req.reduceOnly ==> Reduces(PositionOf(s.positions, PositionKey(trader, req.market)), req))
  {
    hide Admit, LockedFits, Reduces, Available;
    AdmittedExactly(s, trader, req);
    assert req.size * req.price == 0;
    if req.market in s.markets {
      AvailableThere(s, trader, req);
    }
  }

  lemma AvailableThere(s: State, trader: Address, req: OrderRequest)
    requires req.market in s.markets
    ensures Available(s, trader, req) >= 0
  {
  }

  // Against an order that would reduce it, a position keeps at least its remaining share of the margin
  // locked, and never more than the margin.
  lemma LockedShare(p: Position, req: OrderRequest)
    requires LockedFits(Some(p), req) && req.isBuy != p.isLong && p.size > 0
    ensures LockedMargin(Some(p), req).Ok?
    ensures var locked, left := LockedMargin(Some(p), req).value, p.size - Min(req.size, p.size);
            locked <= p.margin && p.size * locked >= p.margin * left
  {
    var cut := Min(req.size, p.size);
    LockedExactly(Some(p), req);
    if cut < p.size {
      PositionRuns.ReduceShare(p.margin, p.size, cut);
    }
  }
}
