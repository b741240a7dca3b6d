// Pre-trade checks and the risk engine's own liquidation test.
module Risk {
  import opened Types

  // Margin that stays locked in the trader's position once the order is in.
  function LockedMargin(position: Option<Position>, req: OrderRequest): (r: Result<nat>) {
    match position
    case None => Ok(0)
    case Some(p) =>
      if req.isBuy == p.isLong then Ok(p.margin)
      else if p.size == 0 then Ok(0)
      else
        var scaled :- Checked(Min(req.size, p.size) * BASIS_POINTS);
        var freed :- Checked(p.margin * (scaled / p.size));
        Ok(SaturatingSub(p.margin, freed / BASIS_POINTS))
  }

  // A reduce-only order must oppose an existing position and not exceed it.
  predicate ReduceOnlyFits(position: Option<Position>, req: OrderRequest) {
    position.Some? && req.isBuy != position.value.isLong && req.size <= position.value.size
  }

  function CheckOrderAllowed(market: Market, balance: u128, position: Option<Position>,
                             req: OrderRequest): (r: Result<()>)
    ensures r.Ok? && req.reduceOnly ==> ReduceOnlyFits(position, req)
  {
    var orderValue :- Checked(req.size * req.price);
    var scaled :- Checked(orderValue * market.initialBps);
    var required := scaled / BASIS_POINTS;
    var locked :- LockedMargin(position, req);
    if SaturatingSub(balance, locked) < required then Err(InsufficientMargin)
    else if !req.reduceOnly && req.price > 0 &&
            (if required > 0 then orderValue / required else U128 - 1) > market.maxLeverage then Err(LeverageTooHigh)
    else if req.reduceOnly && !ReduceOnlyFits(position, req) then Err(ReduceOnlyWouldIncrease)
    else Ok(())
  }
}
