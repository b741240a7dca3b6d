// When a position update goes through, and what it does to the signed size, as arithmetic on its inputs.
module TradeLimits {
  import opened Types
  import opened Positions
  import opened PositionRuns
  import opened Rounding

  // No product or sum of the update leaves u128.
  predicate TradeFits(position: Option<Position>, size: u64, price: u64, isBuy: bool, bps: u32) {
    match position
    case None => size * price * bps < U128
    case Some(p) =>
      if p.isLong == isBuy then
        && p.size * p.entryPrice + size * price < U128
        && size * price * bps < U128
        && p.margin + size * price * bps / BASIS_POINTS < U128
      else if size > p.size then (size - p.size) * price * bps < U128
      else size == p.size || p.margin * (size * BASIS_POINTS / p.size) < U128
  }

  // The sum of the sizes leaves u64.
  predicate Wraps(position: Option<Position>, size: u64, isBuy: bool) {
    position.Some? && position.value.isLong == isBuy && position.value.size + size >= U64
  }

  lemma ScaledNonNegative(a: nat, b: nat)
    ensures a * b >= 0
  {
  }

  lemma OpenFits(size: u64, price: u64, bps: u32)
    ensures InitialMargin(size, price, bps).Ok? <==> size * price * bps < U128
  {
    ProductFits(size, price);
    ScaledNonNegative(size * price, bps);
  }

  lemma IncreaseFits(p: Position, size: u64, price: u64, bps: u32)
    ensures Increase(p, size, price, bps).Ok? <==> TradeFits(Some(p), size, price, p.isLong, bps)
  {
    ProductFits(p.size, p.entryPrice);
    ProductFits(size, price);
    ScaledNonNegative(size * price, bps);
    if p.size + size == 0 {
      assert size * price == 0 && size * price * bps == 0;
    }
  }

  lemma ReduceFits(p: Position, size: u64)
    requires size < p.size
    ensures Reduce(p, size).Ok? <==> p.margin * (size * BASIS_POINTS / p.size) < U128
  {
    ScaledNonNegative(p.margin, size * BASIS_POINTS / p.size);
  }

  // An update goes through exactly when its arithmetic fits.
  lemma TradeFitsExactly(position: Option<Position>, size: u64, price: u64, isBuy: bool, bps: u32)
    ensures AfterTrade(position, size, price, isBuy, bps).Ok? <==> TradeFits(position, size, price, isBuy, bps)
  {
    hide Increase, Reduce, InitialMargin;
    if position.None? {
      OpenFits(size, price, bps);
    } else if position.value.isLong == isBuy {
      IncreaseFits(position.value, size, price, bps);
    } else if size > position.value.size {
      OpenFits(size - position.value.size, price, bps);
    } else if size < position.value.size {
      ReduceFits(position.value, size);
    }
  }

  // What an update adds to the signed size: the trade, less 2^64 of its own sign when the sum wraps, or
  // nothing when it does not go through.
  function SideMove(position: Option<Position>, size: u64, price: u64, isBuy: bool, bps: u32): (r: int) {
    if !TradeFits(position, size, price, isBuy, bps) then 0
    else if !Wraps(position, size, isBuy) then SignedTrade(size, isBuy)
    else if isBuy then size - U64
    else U64 - size
  }

  lemma TradeMoves(position: Option<Position>, size: u64, price: u64, isBuy: bool, bps: u32)
    ensures var after := AfterTrade(position, size, price, isBuy, bps);
            SignedSize(if after.Ok? then after.value else position)
            == SignedSize(position) + SideMove(position, size, price, isBuy, bps)
  {
    hide Increase, Reduce, InitialMargin, TradeFits;
    TradeFitsExactly(position, size, price, isBuy, bps);
    if AfterTrade(position, size, price, isBuy, bps).Ok? && position.Some? {
      if position.value.isLong == isBuy {
        IncreaseSize(position.value, size, price, bps);
      } else if size < position.value.size {
        ReduceSize(position.value, size);
      }
    }
  }

  // ---------------------------------------------------------------------------
  // One bound for all of it
  // ---------------------------------------------------------------------------

  // Room for a trade whichever branch it takes.
  predicate Room(p: Option<Position>, size: u64, price: u64, bps: u32) {
    && size * price * bps < U128
    && (p.Some? ==>
         && p.value.size + size < U64
         && p.value.size * p.value.entryPrice + size * price < U128
         && p.value.margin * BASIS_POINTS + size * price * bps < U128)
  }

  lemma SmallerValue(a: nat, b: nat, price: nat, bps: nat)
    requires a <= b && b * price * bps < U128
    ensures a * price * bps < U128
  {
    MulMono(a, b, price);
    MulMono(a * price, b * price, bps);
  }

  lemma RatioSmall(size: nat, whole: nat, margin: nat)
    requires size < whole && margin * BASIS_POINTS < U128
    ensures margin * (size * BASIS_POINTS / whole) < U128
  {
    var ratio := size * BASIS_POINTS / whole;
    DivBetween(size * BASIS_POINTS, whole, 0, BASIS_POINTS);
    MulMono(ratio, BASIS_POINTS, margin);
  }

  // With room an update goes through without wrapping.
  lemma RoomSettles(p: Option<Position>, size: u64, price: u64, isBuy: bool, bps: u32)
    requires Room(p, size, price, bps)
    ensures TradeFits(p, size, price, isBuy, bps) && !Wraps(p, size, isBuy)
  {
    if p.Some? {
      var value := size * price * bps;
      ScaledNonNegative(size * price, bps);
      if p.value.isLong == isBuy {
        assert value / BASIS_POINTS <= value && p.value.margin <= p.value.margin * BASIS_POINTS;
      } else if size > p.value.size {
        SmallerValue(size - p.value.size, size, price, bps);
      } else if size < p.value.size {
        RatioSmall(size, p.value.size, p.value.margin);
      }
    }
  }
}
