// The cached order book: price levels with a FIFO queue and a running total, and what it means for
// them to agree with the orders and the active list they cache.
module PriceLevels {
  import opened Types
  import opened Queues
  import opened Matching

  function FirstIndex(ids: seq<u64>, x: u64): (k: nat)
    requires x in ids
    ensures k < |ids| && ids[k] == x
  {
    if ids[0] == x then 0 else 1 + FirstIndex(ids[1..], x)
  }

  datatype PriceLevel = PriceLevel(orders: seq<u64>, total: nat) {
    function AddOrder(id: u64, size: u64): (r: PriceLevel) {
      PriceLevel(orders + [id], total + size)
    }

    function RemoveOrder(id: u64, size: u64): (r: PriceLevel) {
      if id in orders then
        var k := FirstIndex(orders, id);
        PriceLevel(orders[..k] + orders[k + 1..], SaturatingSub(total, size))
      else this
    }
  }

  const NEW_LEVEL := PriceLevel([], 0)

  type Side = map<u64, PriceLevel>
  type Book = map<u32, Side>

  function SideOf(book: Book, market: u32): (r: Side) {
    if market in book then book[market] else map[]
  }

  function AddToSide(side: Side, price: u64, id: u64, size: u64): (r: Side) {
    side[price := (if price in side then side[price] else NEW_LEVEL).AddOrder(id, size)]
  }

  // A level written back, or dropped once it is empty.
  function PutLevel(side: Side, price: u64, level: PriceLevel): (r: Side) {
    if level.orders == [] then side - {price} else side[price := level]
  }

  function RemoveFromSide(side: Side, price: u64, id: u64, size: u64): (r: Side) {
    if price in side then PutLevel(side, price, side[price].RemoveOrder(id, size)) else side
  }

  // ---------------------------------------------------------------------------
  // Agreement
  // ---------------------------------------------------------------------------

  ghost predicate LevelAgrees(side: Side, orders: OrderMap, ids: seq<u64>, isBuy: bool, price: u64) {
    var q := QueueAt(orders, ids, isBuy, price);
    if q == [] then price !in side
    else price in side && side[price] == PriceLevel(q, TotalRemaining(orders, q))
  }

  // Levels are non-empty, hold exactly the resting ids of their price in list order, and cache their total size.
  ghost predicate SideAgrees(side: Side, orders: OrderMap, ids: seq<u64>, isBuy: bool) {
    forall p: u64 :: LevelAgrees(side, orders, ids, isBuy, p)
  }

  ghost predicate AgreesAt(bids: Book, asks: Book, orders: OrderMap, active: ActiveLists, market: u32, isBuy: bool) {
    SideAgrees(SideOf(if isBuy then bids else asks, market), orders, ActiveOf(active, market), isBuy)
  }

  ghost predicate BookAgrees(bids: Book, asks: Book, orders: OrderMap, active: ActiveLists) {
    forall m: u32, b: bool :: AgreesAt(bids, asks, orders, active, m, b)
  }

  // The cache is determined: two sides agreeing with the same orders are equal.
  lemma AgreeingSidesEqual(side: Side, side': Side, orders: OrderMap, ids: seq<u64>, isBuy: bool)
    requires SideAgrees(side, orders, ids, isBuy) && SideAgrees(side', orders, ids, isBuy)
    ensures side == side'
  {
    forall p: u64
      ensures p in side <==> p in side'
      ensures p in side ==> side[p] == side'[p]
    {
      assert LevelAgrees(side, orders, ids, isBuy, p) && LevelAgrees(side', orders, ids, isBuy, p);
    }
  }

  // Where each live id sits: exactly one level, at its own side and price, once.
  lemma OneLevel(side: Side, orders: OrderMap, ids: seq<u64>, isBuy: bool, x: u64)
    requires SideAgrees(side, orders, ids, isBuy) && Increasing(ids)
    ensures forall p :: p in side ==> (x in side[p].orders <==> x in ids && Rests(orders, x, isBuy, p))
    ensures forall p :: p in side ==> side[p].orders != [] && Increasing(side[p].orders)
    ensures x in ids && x in orders && orders[x].isBuy == isBuy ==>
              orders[x].price in side && x in side[orders[x].price].orders
  {
    forall p | p in side
      ensures x in side[p].orders <==> x in ids && Rests(orders, x, isBuy, p)
      ensures side[p].orders != [] && Increasing(side[p].orders)
    {
      assert LevelAgrees(side, orders, ids, isBuy, p);
      QueueIncreasing(orders, ids, isBuy, p);
    }
    if x in ids && x in orders {
      assert LevelAgrees(side, orders, ids, isBuy, orders[x].price);
    }
  }

  // Keys of a side are the prices of the ids that rest on it.
  lemma SideKeys(side: Side, orders: OrderMap, ids: seq<u64>, isBuy: bool)
    requires SideAgrees(side, orders, ids, isBuy)
    ensures side.Keys == Prices(orders, ids, isBuy)
  {
    forall p: u64 ensures p in side.Keys <==> p in Prices(orders, ids, isBuy) {
      assert LevelAgrees(side, orders, ids, isBuy, p);
      var q := QueueAt(orders, ids, isBuy, p);
      if p in side.Keys {
        assert q[0] in q;
      }
      if x :| x in ids && x in orders && orders[x].isBuy == isBuy && orders[x].price == p {
        assert x in q;
      }
    }
  }

  // Removing a queued order from its level drops it from the queue and its size from the total.
  lemma RemoveOrderDrops(orders: OrderMap, q: seq<u64>, x: u64)
    requires Increasing(q) && x in q
    ensures PriceLevel(q, TotalRemaining(orders, q)).RemoveOrder(x, RemainingOf(orders, x))
         == PriceLevel(Without(q, x), TotalRemaining(orders, Without(q, x)))
  {
    hide Without, TotalRemaining, FirstIndex, RemainingOf;
    WithoutIsCut(q, x, FirstIndex(q, x));
    TotalWithout(orders, q, x);
  }

  // ---------------------------------------------------------------------------
  // Updates keep agreement
  // ---------------------------------------------------------------------------

  // Changing orders and list only away from this side's queues changes nothing here.
  lemma AgreesElsewhere(side: Side, orders: OrderMap, ids: seq<u64>, orders': OrderMap, ids': seq<u64>, isBuy: bool)
    requires SideAgrees(side, orders, ids, isBuy)
    requires forall p: u64 :: QueueAt(orders', ids', isBuy, p) == QueueAt(orders, ids, isBuy, p)
    requires forall y :: y in ids && y in orders && orders[y].isBuy == isBuy ==>
             RemainingOf(orders', y) == RemainingOf(orders, y)
    ensures SideAgrees(side, orders', ids', isBuy)
  {
    forall p: u64 ensures LevelAgrees(side, orders', ids', isBuy, p) {
      assert LevelAgrees(side, orders, ids, isBuy, p);
      TotalSame(orders, orders', QueueAt(orders, ids, isBuy, p));
    }
  }

  // Queues that do not hold x survive x being rewritten in place and dropped from the list.
  lemma QueueUntouched(orders: OrderMap, ids: seq<u64>, x: u64, o: Order, isBuy: bool, p: u64)
    requires x in orders && o.isBuy == orders[x].isBuy && o.price == orders[x].price
    requires x !in QueueAt(orders, ids, isBuy, p)
    ensures QueueAt(orders[x := o], ids, isBuy, p) == QueueAt(orders, ids, isBuy, p)
    ensures QueueAt(orders[x := o], Without(ids, x), isBuy, p) == QueueAt(orders, ids, isBuy, p)
  {
    QueueSame(orders, orders[x := o], ids, isBuy, p);
    QueueWithout(orders[x := o], ids, x, isBuy, p);
    WithoutAbsent(QueueAt(orders, ids, isBuy, p), x);
  }

  // The level that loses x.
  lemma LevelCut(side: Side, orders: OrderMap, ids: seq<u64>, x: u64, o: Order, orders': OrderMap, ids': seq<u64>)
    requires LevelAgrees(side, orders, ids, o.isBuy, o.price)
    requires var q := QueueAt(orders, ids, o.isBuy, o.price);
             && x in q
             && QueueAt(orders', ids', o.isBuy, o.price) == Without(q, x)
             && PriceLevel(q, TotalRemaining(orders, q)).RemoveOrder(x, orders[x].remaining)
                == PriceLevel(Without(q, x), TotalRemaining(orders', Without(q, x)))
    ensures LevelAgrees(RemoveFromSide(side, o.price, x, orders[x].remaining), orders', ids', o.isBuy, o.price)
  {
  }

  lemma QueueCut(orders: OrderMap, ids: seq<u64>, x: u64, o: Order)
    requires Increasing(ids) && x in ids && Rests(orders, x, o.isBuy, o.price)
    ensures var q := QueueAt(orders, ids, o.isBuy, o.price);
            && x in q
            && QueueAt(orders[x := o], Without(ids, x), o.isBuy, o.price) == Without(q, x)
            && PriceLevel(q, TotalRemaining(orders, q)).RemoveOrder(x, orders[x].remaining)
               == PriceLevel(Without(q, x), TotalRemaining(orders[x := o], Without(q, x)))
  {
    var q := QueueAt(orders, ids, o.isBuy, o.price);
    QueueIncreasing(orders, ids, o.isBuy, o.price);
    RemoveOrderDrops(orders, q, x);
    QueueSame(orders, orders[x := o], ids, o.isBuy, o.price);
    QueueWithout(orders[x := o], ids, x, o.isBuy, o.price);
    TotalSame(orders, orders[x := o], Without(q, x));
  }

  // A level of the same side that does not hold x.
  lemma LevelUntouched(side: Side, orders: OrderMap, ids: seq<u64>, x: u64, o: Order, p: u64)
    requires LevelAgrees(side, orders, ids, o.isBuy, p) && p != o.price
    requires Rests(orders, x, o.isBuy, o.price)
    ensures LevelAgrees(side, orders[x := o], Without(ids, x), o.isBuy, p)
    ensures LevelAgrees(side, orders[x := o], ids, o.isBuy, p)
  {
    QueueUntouched(orders, ids, x, o, o.isBuy, p);
    TotalSame(orders, orders[x := o], QueueAt(orders, ids, o.isBuy, p));
  }

  lemma AgreesRemove(side: Side, orders: OrderMap, ids: seq<u64>, x: u64, o: Order)
    requires SideAgrees(side, orders, ids, o.isBuy) && Increasing(ids)
    requires x in ids && Rests(orders, x, o.isBuy, o.price)
    ensures SideAgrees(RemoveFromSide(side, o.price, x, orders[x].remaining), orders[x := o], Without(ids, x), o.isBuy)
  {
    var side', orders', ids' := RemoveFromSide(side, o.price, x, orders[x].remaining), orders[x := o], Without(ids, x);
    forall p: u64 ensures LevelAgrees(side', orders', ids', o.isBuy, p) {
      assert LevelAgrees(side, orders, ids, o.isBuy, p);
      if p == o.price {
        QueueCut(orders, ids, x, o);
        LevelCut(side, orders, ids, x, o, orders', ids');
      } else {
        LevelUntouched(side, orders, ids, x, o, p);
      }
    }
  }

  // The level whose member x shrinks, and the side with that level's total lowered.
  function Lowered(side: Side, price: u64, size: nat): (r: Side)
    requires price in side && size <= side[price].total
  {
    side[price := side[price].(total := side[price].total - size)]
  }

  lemma LevelShrink(side: Side, orders: OrderMap, ids: seq<u64>, x: u64, o: Order)
    requires LevelAgrees(side, orders, ids, o.isBuy, o.price) && Increasing(ids)
    requires x in ids && Rests(orders, x, o.isBuy, o.price) && o.remaining <= orders[x].remaining
    ensures o.price in side && side[o.price].total >= orders[x].remaining - o.remaining
    ensures LevelAgrees(Lowered(side, o.price, orders[x].remaining - o.remaining), orders[x := o], ids, o.isBuy,
                        o.price)
  {
    var q := QueueAt(orders, ids, o.isBuy, o.price);
    assert x in q;
    QueueIncreasing(orders, ids, o.isBuy, o.price);
    QueueSame(orders, orders[x := o], ids, o.isBuy, o.price);
    TotalWithout(orders, q, x);
    TotalUpdate(orders, q, x, o);
  }

  lemma AgreesShrink(side: Side, orders: OrderMap, ids: seq<u64>, x: u64, o: Order)
    requires SideAgrees(side, orders, ids, o.isBuy) && Increasing(ids)
    requires x in ids && Rests(orders, x, o.isBuy, o.price) && o.remaining <= orders[x].remaining
    ensures o.price in side && side[o.price].total >= orders[x].remaining - o.remaining
    ensures SideAgrees(Lowered(side, o.price, orders[x].remaining - o.remaining), orders[x := o], ids, o.isBuy)
  {
    assert LevelAgrees(side, orders, ids, o.isBuy, o.price);
    LevelShrink(side, orders, ids, x, o);
    var side', orders' := Lowered(side, o.price, orders[x].remaining - o.remaining), orders[x := o];
    forall p: u64 ensures LevelAgrees(side', orders', ids, o.isBuy, p) {
      assert LevelAgrees(side, orders, ids, o.isBuy, p);
      if p != o.price {
        LevelUntouched(side, orders, ids, x, o, p);
      }
    }
  }

  // The level the new order joins, existing or not.
  lemma LevelJoin(side: Side, orders: OrderMap, ids: seq<u64>, x: u64, o: Order, orders': OrderMap, ids': seq<u64>)
    requires LevelAgrees(side, orders, ids, o.isBuy, o.price)
    requires var q := QueueAt(orders, ids, o.isBuy, o.price);
             && QueueAt(orders', ids', o.isBuy, o.price) == q + [x]
             && TotalRemaining(orders', q + [x]) == TotalRemaining(orders, q) + o.remaining
    ensures LevelAgrees(AddToSide(side, o.price, x, o.remaining), orders', ids', o.isBuy, o.price)
  {
  }

  lemma QueueJoined(orders: OrderMap, ids: seq<u64>, x: u64, o: Order)
    requires x !in ids
    ensures var q := QueueAt(orders, ids, o.isBuy, o.price);
            && QueueAt(orders[x := o], ids + [x], o.isBuy, o.price) == q + [x]
            && TotalRemaining(orders[x := o], q + [x]) == TotalRemaining(orders, q) + o.remaining
  {
    var q := QueueAt(orders, ids, o.isBuy, o.price);
    QueueSame(orders, orders[x := o], ids, o.isBuy, o.price);
    QueueAppend(orders[x := o], ids, x, o.isBuy, o.price);
    TotalSame(orders, orders[x := o], q);
    TotalAppend(orders[x := o], q, x);
  }

  lemma LevelNotJoined(side: Side, orders: OrderMap, ids: seq<u64>, isBuy: bool, x: u64, o: Order, p: u64)
    requires LevelAgrees(side, orders, ids, isBuy, p) && x !in ids && !(o.isBuy == isBuy && o.price == p)
    ensures LevelAgrees(side, orders[x := o], ids + [x], isBuy, p)
  {
    var q := QueueAt(orders, ids, isBuy, p);
    var orders' := orders[x := o];
    assert QueueAt(orders', ids + [x], isBuy, p) == q by {
      QueueSame(orders, orders', ids, isBuy, p);
      QueueAppend(orders', ids, x, isBuy, p);
      assert q + [] == q;
    }
    TotalSame(orders, orders', q);
  }

  lemma AgreesAdd(side: Side, orders: OrderMap, ids: seq<u64>, isBuy: bool, x: u64, o: Order)
    requires SideAgrees(side, orders, ids, isBuy) && x !in ids
    ensures SideAgrees(if o.isBuy == isBuy then AddToSide(side, o.price, x, o.remaining) else side,
                       orders[x := o], ids + [x], isBuy)
  {
    var side' := if o.isBuy == isBuy then AddToSide(side, o.price, x, o.remaining) else side;
    var orders', ids' := orders[x := o], ids + [x];
    forall p: u64 ensures LevelAgrees(side', orders', ids', isBuy, p) {
      assert LevelAgrees(side, orders, ids, isBuy, p);
      if o.isBuy == isBuy && o.price == p {
        QueueJoined(orders, ids, x, o);
        LevelJoin(side, orders, ids, x, o, orders', ids');
      } else {
        LevelNotJoined(side, orders, ids, isBuy, x, o, p);
      }
    }
  }

  // Storing an order no list mentions leaves every side as it was.
  lemma AgreesStore(side: Side, orders: OrderMap, ids: seq<u64>, isBuy: bool, x: u64, o: Order)
    requires SideAgrees(side, orders, ids, isBuy) && x !in ids
    ensures SideAgrees(side, orders[x := o], ids, isBuy)
  {
    forall p: u64 ensures QueueAt(orders[x := o], ids, isBuy, p) == QueueAt(orders, ids, isBuy, p) {
      QueueSame(orders, orders[x := o], ids, isBuy, p);
    }
    AgreesElsewhere(side, orders, ids, orders[x := o], ids, isBuy);
  }

  // A maker rewritten on the other side, and possibly dropped from the shared list, does not show here.
  lemma AgreesOtherSide(side: Side, orders: OrderMap, ids: seq<u64>, isBuy: bool, x: u64, o: Order)
    requires SideAgrees(side, orders, ids, isBuy)
    requires x in orders && o.isBuy == orders[x].isBuy && o.price == orders[x].price && orders[x].isBuy != isBuy
    ensures SideAgrees(side, orders[x := o], ids, isBuy)
    ensures SideAgrees(side, orders[x := o], Without(ids, x), isBuy)
  {
    forall p: u64
      ensures QueueAt(orders[x := o], ids, isBuy, p) == QueueAt(orders, ids, isBuy, p)
      ensures QueueAt(orders[x := o], Without(ids, x), isBuy, p) == QueueAt(orders, ids, isBuy, p)
    {
      QueueUntouched(orders, ids, x, o, isBuy, p);
    }
    AgreesElsewhere(side, orders, ids, orders[x := o], ids, isBuy);
    AgreesElsewhere(side, orders, ids, orders[x := o], Without(ids, x), isBuy);
  }

  // ---------------------------------------------------------------------------
  // Depth: the best prices of a side with their cached totals
  // ---------------------------------------------------------------------------

  function Totals(side: Side, prices: seq<u64>): (r: seq<(u64, nat)>)
    requires forall p :: p in prices ==> p in side
    ensures |r| == |prices| && forall i :: 0 <= i < |r| ==> r[i] == (prices[i], side[prices[i]].total)
  {
    seq(|prices|, i requires 0 <= i < |prices| => (prices[i], side[prices[i]].total))
  }

  function Depth(side: Side, isBuy: bool, levels: nat): (r: seq<(u64, nat)>) {
    var prices := Sorted(isBuy, side.Keys);
    Totals(side, if levels <= |prices| then prices[..levels] else prices)
  }

  // The best prices at which orders rest, best first, each with all that rests there;
  // a price is missing only when `levels` better ones are listed.
  ghost predicate DepthSound(d: seq<(u64, nat)>, orders: OrderMap, ids: seq<u64>, isBuy: bool, levels: nat) {
    && |d| <= levels
    && (forall i :: 0 <= i < |d| ==>
          d[i].0 in Prices(orders, ids, isBuy) && d[i].1 == TotalRemaining(orders, QueueAt(orders, ids, isBuy, d[i].0)))
    && (forall i, j :: 0 <= i < j < |d| ==> Better(isBuy, d[i].0, d[j].0))
    && (forall p :: p in Prices(orders, ids, isBuy) ==>
          || (exists i :: 0 <= i < |d| && d[i].0 == p)
          || (|d| == levels && forall i :: 0 <= i < |d| ==> Better(isBuy, d[i].0, p)))
  }

  lemma LevelTotal(side: Side, orders: OrderMap, ids: seq<u64>, isBuy: bool, p: u64)
    requires SideAgrees(side, orders, ids, isBuy) && p in side
    ensures side[p].total == TotalRemaining(orders, QueueAt(orders, ids, isBuy, p))
  {
    assert LevelAgrees(side, orders, ids, isBuy, p);
  }

  // The listing of a best-first sequence cut at a length leaves out only worse prices.
  lemma CutListing(isBuy: bool, prices: seq<u64>, n: nat, p: u64)
    requires BestFirst(isBuy, prices) && n <= |prices| && p in prices
    ensures (exists i :: 0 <= i < n && prices[i] == p) ||
            (n < |prices| && forall i :: 0 <= i < n ==> Better(isBuy, prices[i], p))
  {
    var k :| 0 <= k < |prices| && prices[k] == p;
    assert k >= n ==> forall i :: 0 <= i < n ==> Better(isBuy, prices[i], prices[k]);
  }

  lemma DepthListed(side: Side, isBuy: bool, levels: nat)
    ensures var d, prices := Depth(side, isBuy, levels), Sorted(isBuy, side.Keys);
            && |d| <= levels && |d| <= |prices| && (|d| < |prices| ==> |d| == levels)
            && (forall i :: 0 <= i < |d| ==> prices[i] in side && d[i] == (prices[i], side[prices[i]].total))
  {
    var prices := Sorted(isBuy, side.Keys);
    forall i | 0 <= i < |prices| ensures prices[i] in side {
      assert prices[i] in prices;
    }
  }

  // No price where orders rest is left out unless `levels` better ones are listed.
  lemma DepthMisses(side: Side, isBuy: bool, levels: nat, p: u64)
    requires p in side
    ensures var d := Depth(side, isBuy, levels);
            (exists i :: 0 <= i < |d| && d[i].0 == p) ||
                (|d| == levels && forall i :: 0 <= i < |d| ==> Better(isBuy, d[i].0, p))
  {
    hide Depth, Sorted, Better;
    var d, prices := Depth(side, isBuy, levels), Sorted(isBuy, side.Keys);
    DepthListed(side, isBuy, levels);
    SortedIsBestFirst(isBuy, side.Keys);
    CutListing(isBuy, prices, |d|, p);
    if i :| 0 <= i < |d| && prices[i] == p {
      assert d[i].0 == p;
    }
  }

  lemma DepthIsSound(side: Side, orders: OrderMap, ids: seq<u64>, isBuy: bool, levels: nat)
    requires SideAgrees(side, orders, ids, isBuy)
    ensures DepthSound(Depth(side, isBuy, levels), orders, ids, isBuy, levels)
  {
    hide SideAgrees, Sorted, QueueAt, TotalRemaining, Prices, Better, Depth;
    var d := Depth(side, isBuy, levels);
    SideKeys(side, orders, ids, isBuy);
    DepthListed(side, isBuy, levels);
    SortedIsBestFirst(isBuy, side.Keys);
    forall i | 0 <= i < |d|
      ensures d[i].0 in side.Keys && d[i].1 == TotalRemaining(orders, QueueAt(orders, ids, isBuy, d[i].0))
    {
      LevelTotal(side, orders, ids, isBuy, d[i].0);
    }
    forall p | p in side.Keys
      ensures (exists i :: 0 <= i < |d| && d[i].0 == p) ||
              (|d| == levels && forall i :: 0 <= i < |d| ==> Better(isBuy, d[i].0, p))
    {
      DepthMisses(side, isBuy, levels, p);
    }
  }
}
