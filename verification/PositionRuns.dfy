// One account's position over any run of trades and forced reductions.
module PositionRuns {
  import opened Types
  import opened Positions
  import opened Rounding

  datatype Event =
    | Trade(size: u64, price: u64, isBuy: bool)
    | Forced(cut: u64)

  // A position with the number of opening and increasing trades since it was last opened or flipped.
  datatype Tracked = Tracked(position: Option<Position>, updates: nat)

  // A failed update leaves the stored position as it was.
  function Apply(t: Tracked, e: Event, initialBps: u32): (r: Tracked) {
    match e
    case Trade(size, price, isBuy) =>
      (match AfterTrade(t.position, size, price, isBuy, initialBps)
       case Err(_) => t
       case Ok(None) => Tracked(None, 0)
       case Ok(Some(q)) =>
         if t.position.None? || t.position.value.isLong != q.isLong then Tracked(Some(q), 1)
         else if t.position.value.isLong == isBuy then Tracked(Some(q), t.updates + 1)
         else Tracked(Some(q), t.updates))
    case Forced(cut) =>
      if t.position.None? then t
      else
        match AfterCut(t.position.value, cut)
        case Err(_) => t
        case Ok(None) => Tracked(None, 0)
        case Ok(q) => Tracked(q, t.updates)
  }

  function ApplyAll(t: Tracked, events: seq<Event>, initialBps: u32): (r: Tracked) {
    if events == [] then t
    else Apply(ApplyAll(t, events[..|events| - 1], initialBps), events[|events| - 1], initialBps)
  }

  // Margin covers the initial requirement at entry, short by less than one unit per counted update.
  ghost predicate Margined(t: Tracked, initialBps: u32) {
    t.position.Some? ==>
      var p := t.position.value;
      (p.margin + t.updates) * BASIS_POINTS >= p.size * p.entryPrice * initialBps
  }

  // ---------------------------------------------------------------------------
  // Each way a position moves keeps the bound
  // ---------------------------------------------------------------------------

  // Keeping at least the margin's share of what remains keeps the bound.
  lemma ShareKeepsBound(margin: nat, kept: nat, k: nat, size: nat, cut: nat, need: nat)
    requires cut < size && size * kept >= margin * (size - cut)
    requires (margin + k) * BASIS_POINTS >= size * need
    ensures (kept + k) * BASIS_POINTS >= (size - cut) * need
  {
    var left := size - cut;
    assert size * (kept + k) >= (margin + k) * left by {
      assert size * k >= left * k by { MulMono(left, size, k); }
      assert size * (kept + k) == size * kept + size * k;
      assert (margin + k) * left == margin * left + left * k;
    }
    assert size * ((kept + k) * BASIS_POINTS) >= size * (left * need) by {
      MulMono((margin + k) * left, size * (kept + k), BASIS_POINTS);
      MulMono(size * need, (margin + k) * BASIS_POINTS, left);
      assert (margin + k) * left * BASIS_POINTS == (margin + k) * BASIS_POINTS * left;
      assert size * (left * need) == size * need * left;
      assert size * ((kept + k) * BASIS_POINTS) == size * (kept + k) * BASIS_POINTS;
    }
    CancelFactor(size, left * need, (kept + k) * BASIS_POINTS);
  }

  // The double floor of a trade's margin reduction takes no more than the traded share.
  lemma ReduceShare(m: nat, s: nat, size: nat)
    requires size < s
    ensures s * SaturatingSub(m, m * (size * BASIS_POINTS / s) / BASIS_POINTS) >= m * (s - size)
  {
    var ratio := size * BASIS_POINTS / s;
    var red := m * ratio / BASIS_POINTS;
    assert red * s <= m * size by {
      FloorBelow(m * ratio, BASIS_POINTS);
      FloorBelow(size * BASIS_POINTS, s);
      MulMono(red * BASIS_POINTS, m * ratio, s);
      MulMono(ratio * s, size * BASIS_POINTS, m);
      assert m * ratio * s == ratio * s * m;
      assert red * BASIS_POINTS * s == BASIS_POINTS * (red * s);
      assert size * BASIS_POINTS * m == BASIS_POINTS * (m * size);
      CancelFactor(BASIS_POINTS, red * s, m * size);
    }
    SubtractShare(m, s, size, red);
  }

  lemma CutShare(m: nat, s: nat, size: nat)
    requires size < s
    ensures s * SaturatingSub(m, m * size / s) >= m * (s - size)
  {
    var share := m * size / s;
    FloorBelow(m * size, s);
    hide SaturatingSub;
    SubtractShare(m, s, size, share);
  }

  lemma SubtractShare(m: nat, s: nat, size: nat, red: nat)
    requires size < s && red * s <= m * size
    ensures s * SaturatingSub(m, red) >= m * (s - size)
  {
    assert s * (m - red) == m * s - red * s;
    assert m * (s - size) == m * s - m * size;
    assert red <= m ==> s * SaturatingSub(m, red) == m * s - red * s;
    assert red > m ==> s * (m - red) <= 0;
  }

  // Averaging in a trade of value `added` at a rounded-down entry price.
  lemma IncreaseBound(margin: nat, k: nat, value: nat, added: nat, bps: nat, size': nat, entry': nat)
    requires (margin + k) * BASIS_POINTS >= value * bps
    requires size' * entry' <= value + added
    ensures (margin + added * bps / BASIS_POINTS + k + 1) * BASIS_POINTS >= size' * entry' * bps
  {
    MulMono(size' * entry', value + added, bps);
    assert (value + added) * bps == value * bps + added * bps;
    FloorLoss(added * bps);
  }

  lemma AverageValue(s: nat, e: nat, q: nat, p: nat, size': nat)
    requires s + q > 0 && size' <= s + q
    ensures size' * ((s * e + q * p) / (s + q)) <= s * e + q * p
  {
    FloorBelow(s * e + q * p, s + q);
    MulMono(size', s + q, (s * e + q * p) / (s + q));
  }

  // The average entry price lies between the two prices averaged, so its cast to u64 loses nothing.
  lemma AverageBetween(s: nat, e: nat, q: nat, p: nat)
    requires s + q > 0
    ensures Min(e, p) <= (s * e + q * p) / (s + q) <= Max(e, p)
  {
    var lo, hi, total := Min(e, p), Max(e, p), s + q;
    MulMono(lo, e, s);
    MulMono(lo, p, q);
    MulMono(e, hi, s);
    MulMono(p, hi, q);
    assert lo * total == lo * s + lo * q;
    assert hi * total == hi * s + hi * q;
    DivBetween(s * e + q * p, total, lo, hi);
  }

  lemma IncreaseMargined(p: Position, k: nat, size: u64, price: u64, bps: u32)
    requires (p.margin + k) * BASIS_POINTS >= p.size * p.entryPrice * bps
    requires Increase(p, size, price, bps).Ok? && p.size + size > 0
    ensures var q := Increase(p, size, price, bps).value;
            (q.margin + k + 1) * BASIS_POINTS >= q.size * q.entryPrice * bps
  {
    var q := Increase(p, size, price, bps).value;
    IncreaseEntry(p, size, price, bps);
    AverageValue(p.size, p.entryPrice, size, price, q.size);
    IncreaseBound(p.margin, k, p.size * p.entryPrice, size * price, bps, q.size, q.entryPrice);
  }

  lemma IncreaseParts(p: Position, size: u64, price: u64, bps: u32)
    requires Increase(p, size, price, bps).Ok? && p.size + size > 0
    ensures var q := Increase(p, size, price, bps).value;
            var average := (p.size * p.entryPrice + size * price) / (p.size + size);
            && (0 <= average < U64 ==> q.entryPrice == average)
            && q.size <= p.size + size
            && q.margin == p.margin + size * price * bps / BASIS_POINTS
  {
  }

  lemma IncreaseEntry(p: Position, size: u64, price: u64, bps: u32)
    requires Increase(p, size, price, bps).Ok? && p.size + size > 0
    ensures var q := Increase(p, size, price, bps).value;
            && q.entryPrice == (p.size * p.entryPrice + size * price) / (p.size + size)
            && q.size <= p.size + size
            && q.margin == p.margin + size * price * bps / BASIS_POINTS
            && Min(p.entryPrice, price) <= q.entryPrice <= Max(p.entryPrice, price)
  {
    hide Increase;
    IncreaseParts(p, size, price, bps);
    AverageBetween(p.size, p.entryPrice, size, price);
  }

  lemma ReducedMargin(p: Position, size: u64)
    requires size < p.size && Reduce(p, size).Ok?
    ensures Reduce(p, size).value.margin
            == SaturatingSub(p.margin, p.margin * (size * BASIS_POINTS / p.size) / BASIS_POINTS)
  {
  }

  // What is left of a position that kept its share of the margin.
  lemma RemainderMargined(p: Position, q: Position, k: nat, size: nat, bps: u32)
    requires (p.margin + k) * BASIS_POINTS >= p.size * p.entryPrice * bps
    requires size < p.size && q.size == p.size - size && q.entryPrice == p.entryPrice
    requires p.size * q.margin >= p.margin * (p.size - size)
    ensures (q.margin + k) * BASIS_POINTS >= q.size * q.entryPrice * bps
  {
    assert p.size * p.entryPrice * bps == p.size * (p.entryPrice * bps);
    assert q.size * p.entryPrice * bps == q.size * (p.entryPrice * bps);
    ShareKeepsBound(p.margin, q.margin, k, p.size, size, p.entryPrice * bps);
  }

  lemma ReduceMargined(p: Position, k: nat, size: u64, bps: u32)
    requires (p.margin + k) * BASIS_POINTS >= p.size * p.entryPrice * bps
    requires size < p.size && Reduce(p, size).Ok?
    ensures var q := Reduce(p, size).value;
            (q.margin + k) * BASIS_POINTS >= q.size * q.entryPrice * bps
  {
    ReduceShare(p.margin, p.size, size);
    var q := Reduce(p, size).value;
    ReduceSize(p, size);
    ReducedMargin(p, size);
    hide Reduce;
    RemainderMargined(p, q, k, size, bps);
  }

  lemma CutMargined(p: Position, k: nat, size: u64, bps: u32)
    requires (p.margin + k) * BASIS_POINTS >= p.size * p.entryPrice * bps
    requires size < p.size && Cut(p, size).Ok?
    ensures var q := Cut(p, size).value;
            (q.margin + k) * BASIS_POINTS >= q.size * q.entryPrice * bps
  {
    CutShare(p.margin, p.size, size);
    RemainderMargined(p, Cut(p, size).value, k, size, bps);
  }

  // ---------------------------------------------------------------------------
  // Margin and entry price over runs
  // ---------------------------------------------------------------------------

  lemma OpenMargined(size: u64, price: u64, bps: u32)
    requires InitialMargin(size, price, bps).Ok?
    ensures (InitialMargin(size, price, bps).value + 1) * BASIS_POINTS >= size * price * bps
  {
    FloorLoss(size * price * bps);
  }

  lemma ApplyMargined(t: Tracked, e: Event, bps: u32)
    requires Margined(t, bps)
    ensures Margined(Apply(t, e, bps), bps)
  {
    hide Increase, Reduce, Cut, InitialMargin;
    match e
    case Forced(cut) =>
      if t.position.Some? && cut < t.position.value.size && Cut(t.position.value, cut).Ok? {
        CutMargined(t.position.value, t.updates, cut, bps);
      }
    case Trade(size, price, isBuy) =>
      if AfterTrade(t.position, size, price, isBuy, bps).Ok? {
        if t.position.None? {
          OpenMargined(size, price, bps);
        } else if t.position.value.isLong == isBuy {
          IncreaseSize(t.position.value, size, price, bps);
          IncreaseKeepsMargined(t.position.value, t.updates, size, price, bps);
        } else if size > t.position.value.size {
          OpenMargined(size - t.position.value.size, price, bps);
        } else if size < t.position.value.size {
          ReduceSize(t.position.value, size);
          ReduceMargined(t.position.value, t.updates, size, bps);
        }
      }
  }

  lemma IncreaseKeepsMargined(p: Position, k: nat, size: u64, price: u64, bps: u32)
    requires (p.margin + k) * BASIS_POINTS >= p.size * p.entryPrice * bps
    requires Increase(p, size, price, bps).Ok?
    ensures var q := Increase(p, size, price, bps).value;
            (q.margin + k + 1) * BASIS_POINTS >= q.size * q.entryPrice * bps
  {
    if p.size + size > 0 {
      IncreaseMargined(p, k, size, price, bps);
    }
  }

  // Every position any run reaches from nothing is margined, however the run mixes trades, flips and forced cuts.
  lemma {:induction false} RunMargined(events: seq<Event>, bps: u32)
    ensures Margined(ApplyAll(Tracked(None, 0), events, bps), bps)
  {
    if events != [] {
      RunMargined(events[..|events| - 1], bps);
      ApplyMargined(ApplyAll(Tracked(None, 0), events[..|events| - 1], bps), events[|events| - 1], bps);
    }
  }

  ghost predicate PricesWithin(events: seq<Event>, lo: nat, hi: nat) {
    forall e :: e in events && e.Trade? ==> lo <= e.price <= hi
  }

  ghost predicate EntryWithin(p: Option<Position>, lo: nat, hi: nat) {
    p.Some? ==> lo <= p.value.entryPrice <= hi
  }

  lemma ApplyEntryWithin(t: Tracked, e: Event, bps: u32, lo: nat, hi: nat)
    requires EntryWithin(t.position, lo, hi) && (e.Trade? ==> lo <= e.price <= hi)
    ensures EntryWithin(Apply(t, e, bps).position, lo, hi)
  {
    hide Increase, Reduce, InitialMargin;
    if t.position.Some? && e.Trade? {
      var p := t.position.value;
      if p.isLong == e.isBuy && p.size + e.size > 0 && Increase(p, e.size, e.price, bps).Ok? {
        IncreaseEntry(p, e.size, e.price, bps);
      }
      if p.isLong == e.isBuy && p.size + e.size == 0 {
        IncreaseNothing(p, e.price, bps);
      }
      if e.size < p.size && Reduce(p, e.size).Ok? {
        ReduceSize(p, e.size);
      }
    }
  }

  lemma IncreaseNothing(p: Position, price: u64, bps: u32)
    requires p.size == 0
    ensures Increase(p, 0, price, bps) == Ok(p)
  {
  }

  // The entry price never leaves the range of prices traded.
  lemma {:induction false} RunEntryWithin(events: seq<Event>, bps: u32, lo: nat, hi: nat)
    requires PricesWithin(events, lo, hi)
    ensures EntryWithin(ApplyAll(Tracked(None, 0), events, bps).position, lo, hi)
  {
    if events != [] {
      var init := events[..|events| - 1];
      RunEntryWithin(init, bps, lo, hi);
      assert events[|events| - 1] in events;
      ApplyEntryWithin(ApplyAll(Tracked(None, 0), init, bps), events[|events| - 1], bps, lo, hi);
    }
  }

  // ---------------------------------------------------------------------------
  // Signed size
  // ---------------------------------------------------------------------------

  function SignedSize(p: Option<Position>): (r: int) {
    if p.None? then 0 else if p.value.isLong then p.value.size else 0 - p.value.size as int
  }

  function SignedTrade(size: u64, isBuy: bool): (r: int) {
    if isBuy then size else 0 - size as int
  }

  // Whichever branch it takes, a trade that succeeds moves the signed position by exactly its signed size,
  // unless adding to a position overflows the u64 size.
  lemma TradeIsExact(p: Option<Position>, size: u64, price: u64, isBuy: bool, bps: u32)
    requires AfterTrade(p, size, price, isBuy, bps).Ok?
    ensures SignedSize(AfterTrade(p, size, price, isBuy, bps).value) == SignedSize(p) + SignedTrade(size, isBuy)
       <==> (p.Some? && p.value.isLong == isBuy ==> p.value.size + size < U64)
  {
    hide Increase, Reduce, InitialMargin;
    if p.Some? && p.value.isLong == isBuy {
      IncreaseSize(p.value, size, price, bps);
    } else if p.Some? && size < p.value.size {
      ReduceSize(p.value, size);
    }
  }

  lemma IncreaseSize(p: Position, size: u64, price: u64, bps: u32)
    requires Increase(p, size, price, bps).Ok?
    ensures var q := Increase(p, size, price, bps).value;
            q.isLong == p.isLong && q.size == if p.size + size < U64 then p.size + size else p.size + size - U64
  {
  }

  lemma ReduceSize(p: Position, size: u64)
    requires size < p.size && Reduce(p, size).Ok?
    ensures var q := Reduce(p, size).value;
            q.isLong == p.isLong && q.size == p.size - size && q.entryPrice == p.entryPrice
  {
  }

  // ---------------------------------------------------------------------------
  // What exactly each way a position moves leaves
  // ---------------------------------------------------------------------------

  // A position opened, or flipped to: the whole size at the trade's own price, with the initial margin of its
  // value, rounded down.
  ghost predicate Opened(q: Position, size: nat, price: u64, isBuy: bool, bps: u32, fundingIndex: u128) {
    q.size == size && q.entryPrice == price && q.isLong == isBuy && q.fundingIndex == fundingIndex &&
    IsFloor(q.margin, size * price * bps, BASIS_POINTS)
  }

  // A position added to: average price and added margin rounded down, the size in u64.
  ghost predicate Added(p: Position, q: Position, size: u64, price: u64, bps: u32) {
    && q.isLong == p.isLong && q.fundingIndex == p.fundingIndex
    && q.size == (if p.size + size < U64 then p.size + size else p.size + size - U64)
    && IsFloor(q.entryPrice, p.size * p.entryPrice + size * price, p.size + size)
    && IsFloor(q.margin - p.margin, size * price * bps, BASIS_POINTS)
  }

  // A position traded down: the basis-point share of its margin is released, rounded down twice.
  ghost predicate TradedDown(p: Position, q: Position, size: u64) {
    && size < p.size && q == p.(size := p.size - size, margin := q.margin)
    && exists ratio: nat :: IsFloor(ratio, size * BASIS_POINTS, p.size) &&
                            IsFloor(p.margin - q.margin, p.margin * ratio, BASIS_POINTS)
  }

  // The share of the margin a forced cut releases is computable.
  predicate CutFits(p: Position, size: u64) {
    size >= p.size || p.margin * size < U128
  }

  // A position forced down: its share of the margin is released, rounded down; all of it is deleted.
  ghost predicate ForcedDown(p: Position, q: Option<Position>, size: u64) {
    if size >= p.size then q == None
    else
      && q.Some? && q.value == p.(size := p.size - size, margin := q.value.margin)
      && IsFloor(p.margin - q.value.margin, p.margin * size, p.size)
  }

  // What a trade leaves of the position it meets.
  ghost predicate Traded(position: Option<Position>, after: Option<Position>, size: u64, price: u64, isBuy: bool,
                         bps: u32)
  {
    match position
    case None => after.Some? && Opened(after.value, size, price, isBuy, bps, 0)
    case Some(p) =>
      if p.isLong == isBuy then
        after.Some? && (if p.size + size == 0 then after.value == p else Added(p, after.value, size, price, bps))
      else if size > p.size then
        after.Some? && Opened(after.value, size - p.size, price, isBuy, bps, p.fundingIndex)
      else if size == p.size then after == None
      else after.Some? && TradedDown(p, after.value, size)
  }

  lemma OpenedExactly(size: u64, price: u64, isBuy: bool, bps: u32, fundingIndex: u128)
    requires InitialMargin(size, price, bps).Ok?
    ensures var margin := InitialMargin(size, price, bps).value;
            Opened(Position(size, price, isBuy, margin, fundingIndex), size, price, isBuy, bps, fundingIndex)
  {
    FloorIs(size * price * bps, BASIS_POINTS);
  }

  lemma AddedExactly(p: Position, size: u64, price: u64, bps: u32)
    requires Increase(p, size, price, bps).Ok? && p.size + size > 0
    ensures Added(p, Increase(p, size, price, bps).value, size, price, bps)
  {
    IncreaseEntry(p, size, price, bps);
    IncreaseSize(p, size, price, bps);
    IncreaseKeepsIndex(p, size, price, bps);
    hide Increase;
    var total := p.size * p.entryPrice + size * price;
    FloorIs(total, p.size + size);
    FloorIs(size * price * bps, BASIS_POINTS);
  }

  lemma IncreaseKeepsIndex(p: Position, size: u64, price: u64, bps: u32)
    requires Increase(p, size, price, bps).Ok?
    ensures Increase(p, size, price, bps).value.fundingIndex == p.fundingIndex
  {
  }

  // Less than the whole is released when less than the whole is traded.
  lemma ReleaseBelow(margin: nat, released: nat, share: nat, whole: nat)
    requires share <= whole && whole > 0 && released * whole <= margin * share
    ensures released <= margin
  {
    MulMono(share, whole, margin);
    CancelFactor(whole, released, margin);
  }

  lemma TradedDownExactly(p: Position, size: u64)
    requires size < p.size && Reduce(p, size).Ok?
    ensures TradedDown(p, Reduce(p, size).value, size)
  {
    var ratio := size * BASIS_POINTS / p.size;
    FloorIs(size * BASIS_POINTS, p.size);
    DivBetween(size * BASIS_POINTS, p.size, 0, BASIS_POINTS);
    var released := p.margin * ratio / BASIS_POINTS;
    ReduceSize(p, size);
    ReducedMargin(p, size);
    ReduceKeepsRest(p, size);
    hide Reduce;
    FloorIs(p.margin * ratio, BASIS_POINTS);
    ReleaseBelow(p.margin, released, ratio, BASIS_POINTS);
  }

  lemma ReduceKeepsRest(p: Position, size: u64)
    requires size < p.size && Reduce(p, size).Ok?
    ensures var q := Reduce(p, size).value; q == p.(size := q.size, margin := q.margin)
  {
  }

  // A forced cut releases exactly its share of the margin.
  lemma ForcedDownExactly(p: Position, size: u64)
    ensures AfterCut(p, size).Ok? <==> CutFits(p, size)
    ensures AfterCut(p, size).Ok? ==> ForcedDown(p, AfterCut(p, size).value, size)
  {
    if size < p.size {
      var released := p.margin * size / p.size;
      assert p.margin * size >= 0;
      FloorIs(p.margin * size, p.size);
      ReleaseBelow(p.margin, released, size, p.size);
    }
  }

  // Whichever branch it takes, a trade that succeeds leaves exactly this.
  lemma TradedExactly(position: Option<Position>, size: u64, price: u64, isBuy: bool, bps: u32)
    requires AfterTrade(position, size, price, isBuy, bps).Ok?
    ensures Traded(position, AfterTrade(position, size, price, isBuy, bps).value, size, price, isBuy, bps)
  {
    hide Increase, Reduce, InitialMargin, Opened, Added, TradedDown;
    if position.None? {
      OpenedExactly(size, price, isBuy, bps, 0);
    } else {
      var p := position.value;
      if p.isLong == isBuy && p.size + size > 0 {
        AddedExactly(p, size, price, bps);
      } else if p.isLong == isBuy {
        IncreaseNothing(p, price, bps);
      } else if size > p.size {
        OpenedExactly(size - p.size, price, isBuy, bps, p.fundingIndex);
      } else if size < p.size {
        TradedDownExactly(p, size);
      }
    }
  }

  // A trade against a position that is no larger than it never grows or flips it.
  lemma ReducingTrade(p: Position, size: u64, price: u64, bps: u32)
    requires size <= p.size && AfterTrade(Some(p), size, price, !p.isLong, bps).Ok?
    ensures var q := AfterTrade(Some(p), size, price, !p.isLong, bps).value;
            if size == p.size then q == None
            else
              q.Some? && q.value.isLong == p.isLong && q.value.size == p.size - size &&
              q.value.entryPrice == p.entryPrice
  {
    hide Increase, Reduce, InitialMargin;
    if size < p.size {
      ReduceSize(p, size);
    }
  }
}
