// When a position is liquidated, and how much of it: pure arithmetic and what it guarantees.
module Liquidation {
  import opened Types
  import opened Rounding

  const MARGIN_BUFFER_BPS := 200
  const MIN_LIQUIDATION_PCT := 10
  const U32_MAX := U32 - 1

  // Profit as a signed number; its magnitude is what the engine carries with a flag.
  function SignedPnl(p: Position, mark: u64): (r: int) {
    if p.isLong then p.size * mark - p.size * p.entryPrice else p.size * p.entryPrice - p.size * mark
  }

  function Pnl(p: Position, mark: u64): (r: (nat, bool))
    ensures r.1 <==> SignedPnl(p, mark) >= 0
    ensures SignedPnl(p, mark) == if r.1 then r.0 else 0 - r.0 as int
  {
    var entryValue, markValue := p.size * p.entryPrice, p.size * mark;
    if p.size == 0 then (0, true)
    else if p.isLong then
      if markValue >= entryValue then (markValue - entryValue, true) else (entryValue - markValue, false)
    else
      if entryValue >= markValue then (entryValue - markValue, true) else (markValue - entryValue, false)
  }

  function Equity(p: Position, mark: u64): (r: Result<u128>)
    ensures r.Ok? ==> r.value == Max(0, p.margin + SignedPnl(p, mark))
    ensures r.Err? ==> r.error == Overflow && p.margin + SignedPnl(p, mark) >= U128
  {
    var pnl := Pnl(p, mark);
    if pnl.1 then Checked(p.margin + pnl.0) else Ok(SaturatingSub(p.margin, pnl.0))
  }

  function MarginRatio(p: Position, mark: u64): (r: Result<u32>)
    ensures r.Err? ==> r.error == Overflow
  {
    if p.size == 0 then Ok(U32_MAX)
    else
      var equity :- Equity(p, mark);
      var value := p.size * mark;
      if value == 0 then Ok(U32_MAX)
      else
        var scaled :- Checked(equity * BASIS_POINTS);
        Ok(Min(FloorDiv(scaled, value), U32_MAX))
  }

  // The liquidation engine's test: the floored ratio against the maintenance ratio.
  function ShouldLiquidate(position: Option<Position>, mark: u64, maintenanceBps: u32): (r: Result<bool>)
    ensures r.Err? ==> r.error == Overflow
  {
    match position
    case None => Ok(false)
    case Some(p) =>
      if p.size == 0 then Ok(false)
      else
        var ratio :- MarginRatio(p, mark);
        Ok(ratio < maintenanceBps)
  }

  // The risk engine's test: equity against the floored maintenance requirement.
  function CheckLiquidation(position: Option<Position>, mark: u64, maintenanceBps: u32): (r: Result<bool>)
    ensures r.Err? ==> r.error == Overflow
  {
    match position
    case None => Ok(false)
    case Some(p) =>
      if p.size == 0 then Ok(false)
      else
        var scaled :- Checked(p.size * mark * maintenanceBps);
        var equity :- Equity(p, mark);
        Ok(equity < scaled / BASIS_POINTS)
  }

  function MultipleBelow(x: nat, y: nat): (r: nat)
    requires y > 0
    ensures r <= x
  {
    FloorBelow(x, y);
    (x / y) * y
  }

  // Half a tick is added in u64, which wraps near the top of the range.
  function NormalizePrice(tickSize: u64, price: u64): (r: u64) {
    if tickSize == 0 then price
    else
      MultipleBelow(TruncateU64(price + tickSize / 2), tickSize)
  }

  // Adding half a tick stays in u64.
  predicate TickFits(tickSize: u64, price: u64) {
    tickSize == 0 || price + tickSize / 2 < U64
  }

  // ---------------------------------------------------------------------------
  // Liquidation is a threshold in price
  // ---------------------------------------------------------------------------

  // Too little equity for the maintenance ratio, without rounding.
  ghost predicate Under(p: Position, mark: u64, maintenanceBps: u32) {
    p.size > 0 && mark > 0 && Max(0, p.margin + SignedPnl(p, mark)) * BASIS_POINTS < maintenanceBps * (p.size * mark)
  }

  lemma FloorLess(x: nat, y: nat, n: nat)
    requires y > 0
    ensures x / y < n <==> x < n * y
  {
    FloorBelow(x, y);
    if x < n * y {
      CancelStrict(y, x / y, n);
    } else {
      CancelStrict(y, n, x / y + 1);
    }
  }

  // The floored test decides the unrounded inequality exactly.
  lemma ShouldLiquidateExact(p: Position, mark: u64, bps: u32)
    requires ShouldLiquidate(Some(p), mark, bps).Ok?
    ensures ShouldLiquidate(Some(p), mark, bps).value <==> Under(p, mark, bps)
  {
    if p.size > 0 && mark > 0 {
      var value := p.size * mark;
      assert value > 0;
      FloorLess(Equity(p, mark).value * BASIS_POINTS, value, bps);
    }
  }

  // What the test computes stays in u128.
  predicate RatioFits(p: Position, mark: u64) {
    p.size > 0 ==>
      p.margin + SignedPnl(p, mark) < U128 && (mark > 0 ==> Max(0, p.margin + SignedPnl(p, mark)) * BASIS_POINTS < U128)
  }

  // The test gives an answer exactly when that is so.
  lemma ShouldLiquidateFits(p: Position, mark: u64, bps: u32)
    ensures ShouldLiquidate(Some(p), mark, bps).Ok? <==> RatioFits(p, mark)
    ensures MarginRatio(p, mark).Ok? <==> RatioFits(p, mark)
    ensures p.size == 0 ==> ShouldLiquidate(Some(p), mark, bps) == Ok(false)
  {
    if p.size > 0 && mark > 0 {
      ValuePositive(p.size, mark);
    }
  }

  lemma ValuePositive(size: nat, mark: nat)
    requires size > 0 && mark > 0
    ensures size * mark > 0
  {
  }

  // No overflow at one price means none at a price where the equity is no larger.
  lemma ShouldLiquidateDefined(p: Position, mark: u64, mark': u64, bps: u32)
    requires ShouldLiquidate(Some(p), mark, bps).Ok? && mark > 0
    requires SignedPnl(p, mark') <= SignedPnl(p, mark)
    ensures ShouldLiquidate(Some(p), mark', bps).Ok?
  {
    if p.size > 0 {
      assert p.size * mark > 0;
      var e, e' := Max(0, p.margin + SignedPnl(p, mark)), Max(0, p.margin + SignedPnl(p, mark'));
      MulMono(e', e, BASIS_POINTS);
    }
  }

  lemma UnderLong(p: Position, mark: u64, mark': u64, bps: u32)
    requires p.isLong && 0 < bps <= BASIS_POINTS && 0 < mark' <= mark && Under(p, mark, bps)
    ensures Under(p, mark', bps) && SignedPnl(p, mark') <= SignedPnl(p, mark)
  {
    var drop := mark - mark';
    var lost := p.size * drop;
    assert p.size * mark == p.size * mark' + lost;
    assert p.size * mark' > 0 && lost >= 0;
    assert bps * (p.size * mark) == bps * (p.size * mark') + bps * lost;
    MulMono(bps, BASIS_POINTS, lost);
    assert bps * (p.size * mark') > 0;
  }

  lemma UnderShort(p: Position, mark: u64, mark': u64, bps: u32)
    requires !p.isLong && 0 < bps && mark <= mark' && Under(p, mark, bps)
    ensures Under(p, mark', bps) && SignedPnl(p, mark') <= SignedPnl(p, mark)
  {
    var lost := p.size * (mark' - mark);
    assert p.size * mark' == p.size * mark + lost;
    assert lost >= 0;
    assert bps * (p.size * mark') == bps * (p.size * mark) + bps * lost;
    assert bps * lost >= 0;
  }

  // A long that is liquidated at a price is liquidated at every lower positive price, a short at every
  // higher one.
  lemma LiquidationIsThreshold(p: Position, mark: u64, mark': u64, bps: u32)
    requires 0 < bps <= BASIS_POINTS && ShouldLiquidate(Some(p), mark, bps) == Ok(true)
    requires if p.isLong then 0 < mark' <= mark else mark <= mark'
    ensures ShouldLiquidate(Some(p), mark', bps) == Ok(true)
  {
    hide MarginRatio, SignedPnl, Under;
    ShouldLiquidateExact(p, mark, bps);
    UnderPositive(p, mark, bps);
    if p.isLong {
      UnderLong(p, mark, mark', bps);
    } else {
      UnderShort(p, mark, mark', bps);
    }
    ShouldLiquidateDefined(p, mark, mark', bps);
    ShouldLiquidateExact(p, mark', bps);
  }

  lemma UnderPositive(p: Position, mark: u64, bps: u32)
    requires Under(p, mark, bps)
    ensures mark > 0
  {
  }

  // A price too high to raise by half a tick is rounded to 0.
  lemma NormalizeOverflow(tickSize: u64, price: u64)
    requires !TickFits(tickSize, price)
    ensures NormalizePrice(tickSize, price) == 0 && price > 0
  {
    var raised := price + tickSize / 2 - U64;
    assert TruncateU64(price + tickSize / 2) == raised;
    FloorUnique(raised, tickSize, 0);
  }

  lemma NormalizeFitting(tickSize: u64, price: u64)
    requires TickFits(tickSize, price) && tickSize > 0
    ensures NormalizePrice(tickSize, price) == MultipleBelow(price + tickSize / 2, tickSize)
  {
    hide MultipleBelow;
  }

  // A price rounds to 0 exactly when it is below half a tick or too high to raise by it.
  lemma NormalizeZeroExactly(tickSize: u64, price: u64)
    ensures NormalizePrice(tickSize, price) == 0
       <==> !TickFits(tickSize, price) || (if tickSize == 0 then price == 0 else price + tickSize / 2 < tickSize)
  {
    hide NormalizePrice;
    if !TickFits(tickSize, price) {
      NormalizeOverflow(tickSize, price);
    } else if tickSize > 0 {
      NormalizeFitting(tickSize, price);
      FloorLess(price + tickSize / 2, tickSize, 1);
    } else {
      NormalizeNoTick(price);
    }
  }

  lemma NormalizeNoTick(price: u64)
    ensures NormalizePrice(0, price) == price
  {
  }

  lemma FloorMonotone(a: nat, b: nat, y: nat)
    requires y > 0 && a <= b
    ensures (a / y) * y <= (b / y) * y
  {
    FloorBelow(a, y);
    FloorBelow(b, y);
    CancelStrict(y, a / y, b / y + 1);
    MulMono(a / y, b / y, y);
  }

  // Rounding to the tick keeps the order of two prices exactly when the higher one can be raised by half a
  // tick, or the lower one rounds to 0 anyway.
  lemma NormalizeMonotone(tickSize: u64, price: u64, price': u64)
    requires price <= price'
    ensures NormalizePrice(tickSize, price) <= NormalizePrice(tickSize, price')
       <==> TickFits(tickSize, price') || NormalizePrice(tickSize, price) == 0
  {
    hide NormalizePrice;
    if !TickFits(tickSize, price') {
      NormalizeOverflow(tickSize, price');
    } else if tickSize > 0 {
      NormalizeFitting(tickSize, price);
      NormalizeFitting(tickSize, price');
      FloorMonotone(price + tickSize / 2, price' + tickSize / 2, tickSize);
    } else {
      NormalizeNoTick(price);
      NormalizeNoTick(price');
    }
  }

  // The nearest multiple of the tick, the upper one of two equally near.
  ghost predicate NearestTick(tickSize: u64, price: u64, rounded: u64)
    requires tickSize > 0
  {
    rounded % tickSize == 0 && 0 - tickSize as int < 2 * (rounded - price) <= tickSize
  }

  lemma RoundedNear(tickSize: u64, price: u64, rounded: u64)
    requires tickSize > 0 && rounded == MultipleBelow(price + tickSize / 2, tickSize)
    ensures NearestTick(tickSize, price, rounded)
    ensures rounded == price <==> price % tickSize == 0
  {
    var a := price + tickSize / 2;
    var n := a / tickSize;
    FloorBelow(a, tickSize);
    Successor(n, tickSize);
    MultipleOf(n, tickSize);
    if price % tickSize == 0 {
      TickAbove(tickSize, price, a);
    }
  }

  lemma Successor(n: nat, y: nat)
    ensures (n + 1) * y == n * y + y
  {
  }

  // Less than a tick above a multiple, the multiple below is that one.
  lemma TickAbove(tickSize: nat, price: nat, a: nat)
    requires tickSize > 0 && price % tickSize == 0 && price <= a < price + tickSize
    ensures (a / tickSize) * tickSize == price
  {
    var n := price / tickSize;
    Successor(n, tickSize);
    FloorUnique(a, tickSize, n);
  }

  lemma {:induction false} MultipleOf(n: nat, y: nat)
    requires y > 0
    ensures (n * y) % y == 0
  {
    FloorUnique(n * y, y, n);
    assert n * y == (n * y / y) * y + (n * y) % y;
  }

  // Rounding gives the nearest tick exactly when half a tick can be added, and leaves a price alone exactly
  // when moreover it is on the tick.
  lemma NormalizeNear(tickSize: u64, price: u64)
    ensures tickSize == 0 ==> NormalizePrice(tickSize, price) == price
    ensures tickSize > 0 ==>
              && (NearestTick(tickSize, price, NormalizePrice(tickSize, price)) <==> TickFits(tickSize, price))
              && (NormalizePrice(tickSize, price) == price <==> TickFits(tickSize, price) && price % tickSize == 0)
              && (!TickFits(tickSize, price) ==> NormalizePrice(tickSize, price) == 0)
  {
    hide NormalizePrice;
    if tickSize == 0 {
      NormalizeNoTick(price);
    } else if TickFits(tickSize, price) {
      NormalizeFitting(tickSize, price);
      RoundedNear(tickSize, price, NormalizePrice(tickSize, price));
    } else {
      NormalizeOverflow(tickSize, price);
    }
  }

  lemma NeverAtZero(p: Position, bps: u32)
    ensures ShouldLiquidate(Some(p), 0, bps) != Ok(true)
  {
    if ShouldLiquidate(Some(p), 0, bps).Ok? {
      ShouldLiquidateExact(p, 0, bps);
    }
  }

  // The threshold survives rounding the mark price to the tick exactly when the new price does not round to 0.
  lemma ThresholdThroughTicks(p: Position, tickSize: u64, mark: u64, mark': u64, bps: u32)
    requires 0 < bps <= BASIS_POINTS
    requires ShouldLiquidate(Some(p), NormalizePrice(tickSize, mark), bps) == Ok(true)
    requires if p.isLong then mark' <= mark else mark <= mark'
    ensures ShouldLiquidate(Some(p), NormalizePrice(tickSize, mark'), bps) == Ok(true) <==>
            NormalizePrice(tickSize, mark') > 0
  {
    hide ShouldLiquidate, NormalizePrice;
    NeverAtZero(p, bps);
    NormalizeZeroExactly(tickSize, mark);
    NormalizeZeroExactly(tickSize, mark');
    if NormalizePrice(tickSize, mark') > 0 {
      if p.isLong {
        NormalizeMonotone(tickSize, mark', mark);
      } else {
        NormalizeMonotone(tickSize, mark, mark');
      }
      LiquidationIsThreshold(p, NormalizePrice(tickSize, mark), NormalizePrice(tickSize, mark'), bps);
    }
  }

  // A short liquidated at one price and not at a higher one, because that one wraps to 0.
  lemma ShortEscapesByOverflow(p: Position, tick: u64, mark: u64)
    requires p == Position(1, 1, false, 0, 0) && tick == 0x6000_0000_0000_0000 && mark == 0xD000_0000_0000_0000
    ensures ShouldLiquidate(Some(p), NormalizePrice(tick, tick), 500) == Ok(true)
    ensures tick < mark && ShouldLiquidate(Some(p), NormalizePrice(tick, mark), 500) == Ok(false)
  {
    hide NormalizePrice;
    NormalizeNear(tick, tick);
    NormalizeOverflow(tick, mark);
    assert Equity(p, tick) == Ok(0);
  }

  // The risk engine's test gives an answer exactly when its requirement and the equity stay in u128.
  lemma CheckLiquidationFits(p: Position, mark: u64, bps: u32)
    ensures CheckLiquidation(Some(p), mark, bps).Ok? <==>
              (p.size > 0 ==> p.size * mark * bps < U128 && p.margin + SignedPnl(p, mark) < U128)
    ensures p.size == 0 ==> CheckLiquidation(Some(p), mark, bps) == Ok(false)
    ensures CheckLiquidation(None, mark, bps) == Ok(false)
  {
    hide SignedPnl, Pnl;
    ProductFits(p.size, mark);
    ShareNonNegative(p.size * mark, bps);
  }

  // The two tests agree except when equity sits exactly on a requirement that was rounded down.
  lemma TestsDifferExactly(p: Position, mark: u64, bps: u32)
    requires ShouldLiquidate(Some(p), mark, bps).Ok? && CheckLiquidation(Some(p), mark, bps).Ok?
    ensures CheckLiquidation(Some(p), mark, bps).value ==> ShouldLiquidate(Some(p), mark, bps).value
    ensures ShouldLiquidate(Some(p), mark, bps).value && !CheckLiquidation(Some(p), mark, bps).value
       <==> Equity(p, mark).value == (p.size * mark * bps) / BASIS_POINTS && (p.size * mark * bps) % BASIS_POINTS != 0
  {
    var e, need := Equity(p, mark).value, p.size * mark * bps;
    ShouldLiquidateExact(p, mark, bps);
    assert need == bps * (p.size * mark);
    assert need == (need / BASIS_POINTS) * BASIS_POINTS + need % BASIS_POINTS;
  }

  // ---------------------------------------------------------------------------
  // How much to liquidate
  // ---------------------------------------------------------------------------

  // The ratio wanted after liquidation; the buffer is added in u32, which wraps.
  function TargetBps(maintenanceBps: u32): (r: u32) {
    if maintenanceBps + MARGIN_BUFFER_BPS < U32 then maintenanceBps + MARGIN_BUFFER_BPS
    else maintenanceBps + MARGIN_BUFFER_BPS - U32
  }

  // Equity wanted after liquidation, and the size whose value, fee included, makes up what is missing.
  function RequiredEquity(value: nat, maintenanceBps: u32): (r: nat) {
    value * TargetBps(maintenanceBps) / BASIS_POINTS
  }

  function RawSize(deficit: nat, mark: u64, feeBps: u32): (r: nat)
    requires mark > 0
  {
    FloorDiv(deficit * BASIS_POINTS, mark * (BASIS_POINTS + feeBps))
  }

  function MinLiquidation(size: u64, minOrderSize: u64): (r: u64) {
    Max(size / MIN_LIQUIDATION_PCT, minOrderSize)
  }

  function PartialSize(p: Position, mark: u64, market: Market): (r: Result<u64>)
    ensures r.Ok? ==> r.value <= p.size
    ensures r.Err? ==> r.error == Overflow
  {
    if mark == 0 then Ok(p.size)
    else if p.size == 0 then Ok(0)
    else
      var value := p.size * mark;
      var equity :- Equity(p, mark);
      var _ :- Checked(value * TargetBps(market.maintenanceBps));
      var required := RequiredEquity(value, market.maintenanceBps);
      if equity >= required then Ok(0)
      else
        var deficit := required - equity;
        var _ :- Checked(deficit * BASIS_POINTS);
        var raw := TruncateU64(RawSize(deficit, mark, market.liquidationFeeBps));
        var size := Min(Max(raw, MinLiquidation(p.size, market.minOrderSize)), p.size);
        if size < market.minOrderSize && p.size > market.minOrderSize then Ok(Min(market.minOrderSize, p.size))
        else if p.size > size && p.size - size < market.minOrderSize then Ok(p.size)
        else Ok(size)
  }

  lemma DeficitPositive(p: Position, mark: u64, bps: u32)
    requires Under(p, mark, bps) && p.size * mark >= 50 && bps + MARGIN_BUFFER_BPS < U32
    ensures Max(0, p.margin + SignedPnl(p, mark)) < RequiredEquity(p.size * mark, bps)
  {
    var value, e := p.size * mark, Max(0, p.margin + SignedPnl(p, mark));
    var target := value * (bps + MARGIN_BUFFER_BPS);
    assert target == bps * value + 200 * value;
    FloorLoss(target);
    CancelStrict(BASIS_POINTS, e, target / BASIS_POINTS);
  }

  // The formula never asks for more than the position when the fee covers the buffer, so its cast is exact.
  lemma RawSizeFits(size: u64, mark: u64, deficit: nat, bps: u32, feeBps: u32)
    requires mark > 0 && TargetBps(bps) <= BASIS_POINTS + feeBps
    requires deficit <= RequiredEquity(size * mark, bps)
    ensures RawSize(deficit, mark, feeBps) <= size
  {
    var value, target := size * mark, size * mark * TargetBps(bps);
    FloorBelow(target, BASIS_POINTS);
    assert deficit * BASIS_POINTS <= target;
    MulMono(TargetBps(bps), BASIS_POINTS + feeBps, value);
    assert target == TargetBps(bps) * value;
    var d := mark * (BASIS_POINTS + feeBps);
    assert (BASIS_POINTS + feeBps) * value == size * d;
    assert d > 0;
    DivBetween(deficit * BASIS_POINTS, d, 0, size);
  }

  // Of a position the engine liquidates something is taken exactly when its equity is below the wanted one
  // and either the formula or the minimum asks for something; then at least the minimum or all of it,
  // leaving nothing or a tradable rest.
  lemma PartialSizeExact(p: Position, mark: u64, market: Market)
    requires ShouldLiquidate(Some(p), mark, market.maintenanceBps) == Ok(true) && PartialSize(p, mark, market).Ok?
    ensures var n, equity := PartialSize(p, mark, market).value, Max(0, p.margin + SignedPnl(p, mark));
            var required, least := RequiredEquity(p.size * mark, market.maintenanceBps),
                MinLiquidation(p.size, market.minOrderSize);
            && mark > 0
            && (n > 0 <==>
                  (equity < required &&
                   Max(TruncateU64(RawSize(required - equity, mark, market.liquidationFeeBps)), least) > 0))
            && (equity < required ==> n >= Min(p.size, least) && (n == p.size || p.size - n >= market.minOrderSize))
  {
    ShouldLiquidateExact(p, mark, market.maintenanceBps);
    UnderPositive(p, mark, market.maintenanceBps);
    hide RawSize, RequiredEquity, SignedPnl, ShouldLiquidate;
  }

  // Equity wanted of a position of this value: the maintenance ratio, raised by 200 in u32, of it, rounded down.
  ghost predicate Wanted(value: nat, maintenanceBps: u32, required: nat) {
    IsFloor(required, value * ((maintenanceBps + 200) % U32), BASIS_POINTS)
  }

  lemma WantedExactly(value: nat, maintenanceBps: u32, required: nat)
    ensures Wanted(value, maintenanceBps, required) <==> required == RequiredEquity(value, maintenanceBps)
  {
    var target := value * TargetBps(maintenanceBps);
    ShareNonNegative(value, TargetBps(maintenanceBps));
    FloorIs(target, BASIS_POINTS);
    if Wanted(value, maintenanceBps, required) {
      FloorUnique(target, BASIS_POINTS, required);
    }
  }

  // How much would have to go if nothing were too small to take or to leave: the size whose value, fee
  // included, makes up what equity is short of `required`, cast to u64, but no less than a tenth of the
  // position or the minimum order.
  ghost predicate Needed(p: Position, mark: u64, market: Market, required: nat, n: nat) {
    var equity := Max(0, p.margin + SignedPnl(p, mark));
    exists raw: nat ::
      && IsFloor(raw, (required - equity) * BASIS_POINTS, mark * (BASIS_POINTS + market.liquidationFeeBps))
      && n == Min(p.size, Max(raw % U64, Max(p.size / 10, market.minOrderSize)))
  }

  predicate LeavesTradable(size: nat, minOrderSize: nat, taken: nat) {
    taken == size || size - taken >= minOrderSize
  }

  // What the computation of the size computes stays in u128.
  predicate PartialFits(p: Position, mark: u64, market: Market) {
    mark > 0 && p.size > 0 ==>
      var required, equity :=
          RequiredEquity(p.size * mark, market.maintenanceBps), Max(0, p.margin + SignedPnl(p, mark));
      && p.margin + SignedPnl(p, mark) < U128 && p.size * mark * TargetBps(market.maintenanceBps) < U128
      && (equity < required ==> (required - equity) * BASIS_POINTS < U128)
  }

  lemma PartialSizeFits(p: Position, mark: u64, market: Market)
    ensures PartialSize(p, mark, market).Ok? <==> PartialFits(p, mark, market)
  {
    hide SignedPnl, RawSize, TargetBps, RequiredEquity;
  }

  // Without a price all of it is taken.
  lemma PartialSizeUnpriced(p: Position, mark: u64, market: Market)
    requires mark == 0 || p.size == 0
    ensures PartialSize(p, mark, market) == Ok(p.size)
  {
  }

  // Whenever equity is short of what is wanted, the size taken is the smallest that is no less than what is
  // needed and leaves nothing or a tradable rest; otherwise nothing is taken.
  lemma PartialSizeLeast(p: Position, mark: u64, market: Market, required: nat, n: nat)
    requires PartialSize(p, mark, market).Ok? && p.size > 0 && mark > 0
    requires Wanted(p.size * mark, market.maintenanceBps, required)
    requires Max(0, p.margin + SignedPnl(p, mark)) < required ==> Needed(p, mark, market, required, n)
    ensures var taken := PartialSize(p, mark, market).value;
            if Max(0, p.margin + SignedPnl(p, mark)) >= required then taken == 0
            else
              && n <= taken <= p.size && LeavesTradable(p.size, market.minOrderSize, taken)
              && forall m :: n <= m <= p.size && LeavesTradable(p.size, market.minOrderSize, m) ==> taken <= m
  {
    hide SignedPnl, RequiredEquity, PartialSize, Wanted, RawSize;
    WantedExactly(p.size * mark, market.maintenanceBps, required);
    var equity := Max(0, p.margin + SignedPnl(p, mark));
    if equity >= required {
      PartialSizeNothing(p, mark, market);
    } else {
      var raw: nat := NeededRaw(p, mark, market, required, n);
      PartialSizeIs(p, mark, market, raw);
    }
  }

  // Both amounts exist.
  lemma NeededExists(p: Position, mark: u64, market: Market)
    requires mark > 0
    ensures exists required: nat ::
              && Wanted(p.size * mark, market.maintenanceBps, required)
              && (Max(0, p.margin + SignedPnl(p, mark)) < required ==>
                    exists n: nat :: Needed(p, mark, market, required, n))
  {
    hide SignedPnl, RequiredEquity, Wanted;
    var required, equity :=
      RequiredEquity(p.size * mark, market.maintenanceBps), Max(0, p.margin + SignedPnl(p, mark));
    WantedExactly(p.size * mark, market.maintenanceBps, required);
    if equity < required {
      var deficit, fee := (required - equity) * BASIS_POINTS, mark * (BASIS_POINTS + market.liquidationFeeBps);
      ValuePositive(mark, BASIS_POINTS + market.liquidationFeeBps);
      FloorIs(deficit, fee);
      var raw := deficit / fee;
      assert IsFloor(raw, deficit, fee);
      assert Needed(p, mark, market, required, Min(p.size, Max(raw % U64, Max(p.size / 10, market.minOrderSize))));
    }
  }

  lemma NeededRaw(p: Position, mark: u64, market: Market, required: nat, n: nat) returns (raw: nat)
    requires mark > 0 && Needed(p, mark, market, required, n) && Max(0, p.margin + SignedPnl(p, mark)) < required
    ensures raw == RawSize(required - Max(0, p.margin + SignedPnl(p, mark)), mark, market.liquidationFeeBps)
    ensures n == Min(p.size, Max(TruncateU64(raw), MinLiquidation(p.size, market.minOrderSize)))
  {
    hide SignedPnl;
    var equity := Max(0, p.margin + SignedPnl(p, mark));
    var deficit, fee := (required - equity) * BASIS_POINTS, mark * (BASIS_POINTS + market.liquidationFeeBps);
    raw :| IsFloor(raw, deficit, fee) && n == Min(p.size, Max(raw % U64, Max(p.size / 10, market.minOrderSize)));
    ValuePositive(mark, BASIS_POINTS + market.liquidationFeeBps);
    FloorUnique(deficit, fee, raw);
  }

  lemma PartialSizeNothing(p: Position, mark: u64, market: Market)
    requires PartialSize(p, mark, market).Ok? && p.size > 0 && mark > 0
    requires Max(0, p.margin + SignedPnl(p, mark)) >= RequiredEquity(p.size * mark, market.maintenanceBps)
    ensures PartialSize(p, mark, market).value == 0
  {
    hide SignedPnl, RequiredEquity;
  }

  lemma PartialSizeIs(p: Position, mark: u64, market: Market, raw: nat)
    requires PartialSize(p, mark, market).Ok? && p.size > 0 && mark > 0
    requires var required, equity :=
               RequiredEquity(p.size * mark, market.maintenanceBps), Max(0, p.margin + SignedPnl(p, mark));
             equity < required && raw == RawSize(required - equity, mark, market.liquidationFeeBps)
    ensures var size := Min(Max(TruncateU64(raw), MinLiquidation(p.size, market.minOrderSize)), p.size);
            PartialSize(p, mark, market).value ==
              if p.size > size && p.size - size < market.minOrderSize then p.size else size
  {
    hide RawSize, RequiredEquity, SignedPnl, TruncateU64;
  }

  lemma PartialSizeCovers(p: Position, mark: u64, market: Market)
    requires PartialSize(p, mark, market).Ok? && p.size > 0 && mark > 0
    requires Max(0, p.margin + SignedPnl(p, mark)) < RequiredEquity(p.size * mark, market.maintenanceBps)
    ensures var deficit := RequiredEquity(p.size * mark, market.maintenanceBps) - Max(0, p.margin + SignedPnl(p, mark));
            PartialSize(p, mark, market).value >= Min(p.size,
                                                      TruncateU64(RawSize(deficit, mark, market.liquidationFeeBps)))
  {
    hide RawSize, RequiredEquity, SignedPnl, TruncateU64;
  }

  // Whenever equity is short, at least the formula's size as cast to u64, or all, is taken. With a fee that
  // covers the buffer the formula never asks for more than the position, so the cast loses nothing. A
  // position worth 50 or more is always short, unless the wanted ratio wraps.
  lemma PartialSizeSound(p: Position, mark: u64, market: Market)
    requires ShouldLiquidate(Some(p), mark, market.maintenanceBps) == Ok(true) && PartialSize(p, mark, market).Ok?
    ensures var equity := Max(0, p.margin + SignedPnl(p, mark));
            var required := RequiredEquity(p.size * mark, market.maintenanceBps);
            && mark > 0
            && (p.size * mark >= 50 && market.maintenanceBps + MARGIN_BUFFER_BPS < U32 ==> equity < required)
            && (equity < required ==>
                  var raw := RawSize(required - equity, mark, market.liquidationFeeBps);
                  && PartialSize(p, mark, market).value >= Min(p.size, TruncateU64(raw))
                  && (TargetBps(market.maintenanceBps) <= BASIS_POINTS + market.liquidationFeeBps ==>
                        raw <= p.size && TruncateU64(raw) == raw))
  {
    hide RawSize, RequiredEquity, SignedPnl, ShouldLiquidate, PartialSize;
    ShouldLiquidateExact(p, mark, market.maintenanceBps);
    UnderPositive(p, mark, market.maintenanceBps);
    var bps, feeBps := market.maintenanceBps, market.liquidationFeeBps;
    var equity, required := Max(0, p.margin + SignedPnl(p, mark)), RequiredEquity(p.size * mark, bps);
    if p.size * mark >= 50 && bps + MARGIN_BUFFER_BPS < U32 {
      DeficitPositive(p, mark, bps);
    }
    if equity < required {
      PartialSizeCovers(p, mark, market);
      if TargetBps(bps) <= BASIS_POINTS + feeBps {
        RawSizeFits(p.size, mark, required - equity, bps, feeBps);
      }
    }
  }

  // Where the fee does not cover the ratio the formula can leave u64: here it asks for 2^65, the cast makes
  // that 0, and only a tenth of the position is taken.
  lemma CastLosesSize(p: Position, market: Market)
    requires p == Position(0x8000_0000_0000_0000, 2, true, 0, 0)
    requires market == Market(0, 1, 1, 100, 20, 39800, 1000, 0)
    ensures ShouldLiquidate(Some(p), 1, market.maintenanceBps) == Ok(true)
    ensures RawSize(RequiredEquity(p.size, 39800), 1, 0) == 2 * U64
    ensures PartialSize(p, 1, market) == Ok(p.size / 10)
  {
    assert Equity(p, 1) == Ok(0);
    assert RequiredEquity(p.size, 39800) == 2 * U64;
    assert RawSize(2 * U64, 1, 0) == 2 * U64;
    assert TruncateU64(2 * U64) == 0;
  }

  // A maintenance ratio at the top of u32 wraps to a wanted ratio of 199: nothing is taken.
  lemma WrappedTargetUntouched(p: Position, market: Market)
    requires p == Position(100, 100, true, 1000, 0) && market == Market(0, 1, 1, 100, 20, 0xFFFF_FFFF, 1000, 100)
    ensures ShouldLiquidate(Some(p), 100, market.maintenanceBps) == Ok(true) && PartialSize(p, 100, market) == Ok(0)
  {
    assert Equity(p, 100) == Ok(1000);
    assert RequiredEquity(10000, 0xFFFF_FFFF) == 199;
  }

  // The branch that would round a small result up to the minimum order is never taken.
  lemma SmallBranchDead(raw: u64, size: u64, minOrderSize: u64)
    ensures !(Min(Max(raw, MinLiquidation(size, minOrderSize)), size) < minOrderSize && size > minOrderSize)
  {
  }

  // Below that value the two roundings can meet: a liquidated position from which nothing is taken.
  lemma TinyPositionUntouched()
    ensures var p := Position(9, 1, true, 0, 0);
            var market := Market(0, 1, 1, 100, 20, 500, 1000, 100);
            ShouldLiquidate(Some(p), 1, market.maintenanceBps) == Ok(true) && PartialSize(p, 1, market) == Ok(0)
  {
    var p := Position(9, 1, true, 0, 0);
    assert Equity(p, 1) == Ok(0);
    assert RequiredEquity(9, 500) == 0;
  }

  // So can a market without a minimum order size: equity is short, but the formula asks for less than one.
  lemma NoMinimumUntouched()
    ensures var p := Position(9, 10, true, 4, 0);
            var market := Market(0, 1, 0, 100, 20, 500, 1000, 100);
            && ShouldLiquidate(Some(p), 10, market.maintenanceBps) == Ok(true)
            && Equity(p, 10) == Ok(4) && RequiredEquity(90, market.maintenanceBps) == 6
            && PartialSize(p, 10, market) == Ok(0)
  {
    var p := Position(9, 10, true, 4, 0);
    assert Equity(p, 10) == Ok(4);
    assert RequiredEquity(90, 500) == 6;
    assert RawSize(2, 10, 100) == 0;
  }

  // ---------------------------------------------------------------------------
  // Auto-deleveraging: how much each candidate gives
  // ---------------------------------------------------------------------------

  // What one candidate gives. Its value is added to what is collected in u128, which wraps.
  function AdlTaken(size: u64, collected: u128, required: u128, mark: u64): (r: Result<u64>)
    requires collected < required
    ensures r.Err? ==> r.error == Overflow
    ensures r.Ok? <==> WrapU128(collected + size * mark) <= required || (required - collected) * size < U128
  {
    ProductFits(size, mark);
    var value := size * mark;
    ShareNonNegative(required - collected, size);
    if WrapU128(collected + value) > required then
      var scaled :- Checked((required - collected) * size);
      Ok(TruncateU64(FloorDiv(scaled, value)))
    else Ok(size)
  }

  lemma ShareNonNegative(x: nat, y: nat)
    ensures x * y >= 0
  {
  }

  // Sizes taken from candidates of the given sizes, in order, until `required` seems collected.
  function AdlPlan(sizes: seq<u64>, collected: u128, required: u128, mark: u64): (r: Result<seq<u64>>)
    decreases sizes
  {
    if sizes == [] || collected >= required then Ok([])
    else
      var taken :- AdlTaken(sizes[0], collected, required, mark);
      ProductFits(taken, mark);
      var rest :- AdlPlan(sizes[1..], WrapU128(collected + taken * mark), required, mark);
      Ok([taken] + rest)
  }

  // Some sum the plan reaches leaves u128.
  predicate Overruns(sizes: seq<u64>, collected: u128, required: u128, mark: u64)
    decreases sizes
  {
    && sizes != [] && collected < required
    && (collected + sizes[0] * mark >= U128 ||
        (var taken := AdlTaken(sizes[0], collected, required, mark);
         taken.Ok? && collected + taken.value * mark < U128 &&
         Overruns(sizes[1..], collected + taken.value * mark, required, mark)))
  }

  function Collected(taken: seq<u64>, mark: u64): (r: nat)
    decreases taken
  {
    if taken == [] then 0 else taken[0] * mark + Collected(taken[1..], mark)
  }

  // Scaling both sides of a floored division changes nothing.
  lemma FloorScaled(x: nat, y: nat, s: nat)
    requires y > 0 && s > 0
    ensures s * y > 0 && FloorDiv(x * s, s * y) == x / y
  {
    var n := x / y;
    FloorBelow(x, y);
    MulStrict(s, y, 0);
    MulMono(n * y, x, s);
    MulStrict(s, (n + 1) * y, x);
    assert n * y * s == n * (s * y);
    assert s * ((n + 1) * y) == (n + 1) * (s * y);
    assert s * x == x * s;
    FloorUnique(x * s, s * y, n);
  }

  // A partial taking is the floored number of contracts the remainder pays for.
  lemma PartialTaking(remaining: nat, size: u64, mark: u64)
    requires remaining < size * mark && size > 0 && mark > 0
    ensures size * mark > 0
    ensures var n := FloorDiv(remaining * size, size * mark);
            n == remaining / mark && n < size && remaining - mark < n * mark <= remaining
  {
    var n := remaining / mark;
    FloorBelow(remaining, mark);
    assert (n + 1) * mark == n * mark + mark;
    assert n * mark == mark * n && size * mark == mark * size;
    CancelStrict(mark, n, size);
    FloorScaled(remaining, mark, size);
  }

  lemma AdlTakenWhole(size: u64, collected: u128, required: u128, mark: u64)
    requires collected < required && WrapU128(collected + size * mark) <= required
    ensures AdlTaken(size, collected, required, mark) == Ok(size)
  {
    hide WrapU128;
  }

  lemma AdlTakenPart(size: u64, collected: u128, required: u128, mark: u64)
    requires mark > 0 && collected < required && required < collected + size * mark < U128
    requires AdlTaken(size, collected, required, mark).Ok?
    ensures var taken := AdlTaken(size, collected, required, mark).value;
            taken < size && required - mark < collected + taken * mark <= required
  {
    hide FloorDiv, WrapU128, AdlTaken;
    assert size > 0;
    PartialTaking(required - collected, size, mark);
    PartForm(size, collected, required, mark);
  }

  lemma PartForm(size: u64, collected: u128, required: u128, mark: u64)
    requires collected < required && required < collected + size * mark < U128
    requires AdlTaken(size, collected, required, mark).Ok? && size * mark > 0
    ensures AdlTaken(size, collected, required, mark).value
         == TruncateU64(FloorDiv((required - collected) * size, size * mark))
  {
    hide FloorDiv;
  }

  // What one candidate gives stays within the budget exactly when the sum with its value stays in u128.
  lemma AdlTakenExactly(size: u64, collected: u128, required: u128, mark: u64)
    requires mark > 0 && collected < required && AdlTaken(size, collected, required, mark).Ok?
    ensures var taken := AdlTaken(size, collected, required, mark).value;
            && taken <= size
            && (collected + taken * mark <= required <==> collected + size * mark < U128)
            && (collected + size * mark < U128 ==> taken == size || required - (collected + taken * mark) < mark)
            && (collected + size * mark >= U128 ==> taken == size)
  {
    hide AdlTaken, WrapU128;
    ProductFits(size, mark);
    if required < collected + size * mark < U128 {
      AdlTakenPart(size, collected, required, mark);
    } else {
      AdlTakenWhole(size, collected, required, mark);
    }
  }

  // Never more than a candidate has. More than required is collected exactly when some sum the plan reaches
  // leaves u128; otherwise less than one mark price is missing or every candidate is taken whole.
  lemma {:induction false} AdlPlanExactly(sizes: seq<u64>, collected: u128, required: u128, mark: u64)
    requires mark > 0 && collected <= required && AdlPlan(sizes, collected, required, mark).Ok?
    ensures var plan := AdlPlan(sizes, collected, required, mark).value;
            && |plan| <= |sizes|
            && (forall i :: 0 <= i < |plan| ==> plan[i] <= sizes[i])
            && (collected + Collected(plan, mark) <= required <==> !Overruns(sizes, collected, required, mark))
            && (!Overruns(sizes, collected, required, mark) ==>
                  required - (collected + Collected(plan, mark)) < mark || plan == sizes)
    decreases sizes
  {
    hide AdlTaken, WrapU128;
    if sizes != [] && collected < required {
      AdlTakenExactly(sizes[0], collected, required, mark);
      var taken := AdlTaken(sizes[0], collected, required, mark).value;
      ProductFits(taken, mark);
      if collected + sizes[0] * mark < U128 {
        AdlPlanExactly(sizes[1..], collected + taken * mark, required, mark);
      } else {
        AdlPlanShape(sizes[1..], WrapU128(collected + taken * mark), required, mark);
      }
    }
  }

  // At a price of 0 nothing is ever collected, and everyone is taken whole.
  lemma {:induction false} AdlPlanAtZero(sizes: seq<u64>, collected: u128, required: u128)
    ensures AdlPlan(sizes, collected, required, 0) == Ok(if collected < required then sizes else [])
    decreases sizes
  {
    if sizes != [] && collected < required {
      AdlPlanAtZero(sizes[1..], collected, required);
      assert [sizes[0]] + sizes[1..] == sizes;
    }
  }

  // The head of a plan without overrun, and the plan for the rest.
  lemma AdlPlanStep(sizes: seq<u64>, collected: u128, required: u128, mark: u64) returns (taken: u64, collected': u128)
    requires mark > 0 && sizes != [] && collected < required && AdlPlan(sizes, collected, required, mark).Ok?
    requires !Overruns(sizes, collected, required, mark)
    ensures taken <= sizes[0] && collected' == collected + taken * mark <= required
    ensures taken == sizes[0] || required - collected' < mark
    ensures !Overruns(sizes[1..], collected', required, mark) && AdlPlan(sizes[1..], collected', required, mark).Ok?
    ensures AdlPlan(sizes, collected, required, mark).value
         == [taken] + AdlPlan(sizes[1..], collected', required, mark).value
  {
    hide AdlTaken, WrapU128;
    AdlTakenExactly(sizes[0], collected, required, mark);
    taken := AdlTaken(sizes[0], collected, required, mark).value;
    ProductFits(taken, mark);
    collected' := collected + taken * mark;
  }

  lemma AdlPlanEnd(sizes: seq<u64>, collected: u128, required: u128, mark: u64)
    requires sizes == [] || collected >= required
    ensures AdlPlan(sizes, collected, required, mark) == Ok([])
  {
  }

  // Once less than one mark price is missing nobody gives anything more.
  lemma {:induction false} NothingMore(sizes: seq<u64>, collected: u128, required: u128, mark: u64)
    requires mark > 0 && collected <= required < collected + mark && AdlPlan(sizes, collected, required, mark).Ok?
    requires !Overruns(sizes, collected, required, mark)
    ensures forall j :: 0 <= j < |AdlPlan(sizes, collected, required, mark).value| ==>
              AdlPlan(sizes, collected, required, mark).value[j] == 0
    decreases sizes
  {
    hide AdlPlan, Overruns;
    if sizes == [] || collected == required {
      AdlPlanEnd(sizes, collected, required, mark);
    } else {
      var taken, collected' := AdlPlanStep(sizes, collected, required, mark);
      assert mark * 1 == mark && mark * taken == taken * mark;
      CancelStrict(mark, taken, 1);
      NothingMore(sizes[1..], collected', required, mark);
    }
  }

  // Nobody gives anything before all who rank ahead have given everything, as long as no sum leaves u128.
  lemma {:induction false} AdlPlanInOrder(sizes: seq<u64>, collected: u128, required: u128, mark: u64)
    requires mark > 0 && collected <= required && AdlPlan(sizes, collected, required, mark).Ok?
    requires !Overruns(sizes, collected, required, mark)
    ensures var plan := AdlPlan(sizes, collected, required, mark).value;
            |plan| <= |sizes| && forall i, j :: 0 <= i < j < |plan| && plan[j] > 0 ==> plan[i] == sizes[i]
    decreases sizes
  {
    hide AdlPlan, Overruns;
    if sizes == [] || collected >= required {
      AdlPlanEnd(sizes, collected, required, mark);
    } else {
      var taken, collected' := AdlPlanStep(sizes, collected, required, mark);
      AdlPlanInOrder(sizes[1..], collected', required, mark);
      if taken < sizes[0] {
        NothingMore(sizes[1..], collected', required, mark);
      }
    }
  }

  // The sizes planned, whatever wraps.
  lemma {:induction false} AdlPlanShape(sizes: seq<u64>, collected: u128, required: u128, mark: u64)
    requires mark > 0 && AdlPlan(sizes, collected, required, mark).Ok?
    ensures var plan := AdlPlan(sizes, collected, required, mark).value;
            |plan| <= |sizes| && forall i :: 0 <= i < |plan| ==> plan[i] <= sizes[i]
    decreases sizes
  {
    hide AdlTaken;
    if sizes != [] && collected < required {
      AdlTakenExactly(sizes[0], collected, required, mark);
      var taken := AdlTaken(sizes[0], collected, required, mark).value;
      ProductFits(taken, mark);
      AdlPlanShape(sizes[1..], WrapU128(collected + taken * mark), required, mark);
    }
  }

  // A candidate whose wrapped sum stays within the budget is taken whole.
  lemma AdlPlanWhole(sizes: seq<u64>, collected: u128, required: u128, mark: u64)
    requires sizes != [] && collected < required
    requires WrapU128(collected + sizes[0] * mark) <= required
    ensures var rest := AdlPlan(sizes[1..], WrapU128(collected + sizes[0] * mark), required, mark);
            AdlPlan(sizes, collected, required, mark) == (if rest.Ok? then Ok([sizes[0]] + rest.value) else rest)
  {
    hide AdlTaken, WrapU128;
    AdlTakenWhole(sizes[0], collected, required, mark);
  }

  // Two positions of the largest size at the largest price, with the largest amount required: both are taken
  // whole, and about twice that amount is collected.
  lemma BudgetOverrunExample(m: u64)
    requires m == 0xFFFF_FFFF_FFFF_FFFF
    ensures AdlPlan([m, m], 0, U128 - 1, m) == Ok([m, m])
    ensures Collected([m, m], m) == 2 * (m * m) && 2 * (m * m) > U128 - 1
  {
    hide AdlPlan, AdlTaken, WrapU128;
    assert square: m * m == U128 - 2 * U64 + 1;
    var once: u128 := m * m;
    assert WrapU128(0 + m * m) == once;
    var twice := WrapU128(once + m * m);
    assert [m, m][1..] == [m] && [m][1..] == [] && [m] + [] == [m] && [m] + [m] == [m, m];
    NothingPlanned(twice, U128 - 1, m);
    AdlPlanWhole([m], once, U128 - 1, m);
    AdlPlanWhole([m, m], 0, U128 - 1, m);
    assert Collected([m], m) == m * m + Collected([], m);
  }

  lemma NothingPlanned(collected: u128, required: u128, mark: u64)
    ensures AdlPlan([], collected, required, mark) == Ok([])
  {
  }
}
