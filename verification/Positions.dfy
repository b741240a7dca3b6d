// Position arithmetic: what one trade does to a trader's position.
module Positions {
  import opened Types

  function InitialMargin(size: u64, price: u64, initialBps: u32): (r: Result<u128>)
    ensures r.Err? ==> r.error == Overflow
  {
    var value :- Checked(size * price);
    var scaled :- Checked(value * initialBps);
    Ok(scaled / BASIS_POINTS)
  }

  // Adding to the same side: size-weighted average entry price, margin for the added value.
  function Increase(p: Position, size: u64, price: u64, initialBps: u32): (r: Result<Position>)
    ensures r.Err? ==> r.error == Overflow
  {
    var oldValue :- Checked(p.size * p.entryPrice);
    var newValue :- Checked(size * price);
    var totalValue :- Checked(oldValue + newValue);
    var totalSize := p.size + size;   // two u64 added as u128 cannot overflow
    if totalSize == 0 then Ok(p) else
      var scaled :- Checked(newValue * initialBps);
      var margin :- Checked(p.margin + scaled / BASIS_POINTS);
      Ok(p.(entryPrice := TruncateU64(totalValue / totalSize), size := TruncateU64(totalSize), margin := margin))
  }

  // Trading against the position without exhausting it: margin falls by a floored basis-point ratio.
  function Reduce(p: Position, size: u64): (r: Result<Position>)
    requires size < p.size
    ensures r.Err? ==> r.error == Overflow
  {
    var scaledSize :- Checked(size * BASIS_POINTS);
    var scaledMargin :- Checked(p.margin * (scaledSize / p.size));
    Ok(p.(size := p.size - size, margin := SaturatingSub(p.margin, scaledMargin / BASIS_POINTS)))
  }

  // The position after a trade; None is "no position stored".
  function AfterTrade(p: Option<Position>, size: u64, price: u64, isBuy: bool,
                      initialBps: u32): (r: Result<Option<Position>>)
    ensures r.Err? ==> r.error == Overflow
  {
    match p
    case None =>
      var margin :- InitialMargin(size, price, initialBps);
      Ok(Some(Position(size, price, isBuy, margin, 0)))
    case Some(p) =>
      if p.isLong == isBuy then
        var q :- Increase(p, size, price, initialBps);
        Ok(Some(q))
      else if size > p.size then
        var margin :- InitialMargin(size - p.size, price, initialBps);
        Ok(Some(Position(size - p.size, price, isBuy, margin, p.fundingIndex)))
      else if size == p.size then
        Ok(None)
      else
        var q :- Reduce(p, size);
        Ok(Some(q))
  }

  // A forced partial reduction (liquidation and deleveraging): margin falls in proportion, floored.
  function Cut(p: Position, size: u64): (r: Result<Position>)
    requires size < p.size
    ensures r.Err? ==> r.error == Overflow
  {
    var scaled :- Checked(p.margin * size);
    Ok(p.(size := p.size - size, margin := SaturatingSub(p.margin, FloorDiv(scaled, p.size))))
  }

  // The position after being forced down by `size`; taking all of it or more deletes it.
  function AfterCut(p: Position, size: u64): (r: Result<Option<Position>>)
    ensures r.Err? ==> r.error == Overflow
  {
    if size >= p.size then Ok(None)
    else
      var q :- Cut(p, size);
      Ok(Some(q))
  }
}
