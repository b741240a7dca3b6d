// Matching an incoming order against the resting orders of the other side: a greedy sweep over
// the makers in price-time order, and what any such sweep guarantees.
module Matching {
  import opened Types
  import opened Queues

  type OrderMap = map<u64, Order>
  type ActiveLists = map<u32, seq<u64>>

  function ActiveOf(active: ActiveLists, market: u32): (r: seq<u64>) {
    if market in active then active[market] else []
  }

  function RemoveActive(active: ActiveLists, market: u32, id: u64): (r: ActiveLists) {
    active[market := Without(ActiveOf(active, market), id)]
  }

  // A taker price of 0 marks a market order, which accepts every price.
  predicate Accepts(taker: Order, price: u64) {
    taker.price == 0 || (if taker.isBuy then price <= taker.price else price >= taker.price)
  }

  predicate Eligible(taker: Order, maker: Order) {
    maker.owner != taker.owner && Accepts(taker, maker.price)
  }

  // State threaded through one match: orders and active lists, the taker's unfilled size, the fills so far.
  datatype Sweep = Sweep(orders: OrderMap, active: ActiveLists, remaining: u64, fills: seq<Fill>)

  function FillOf(taker: Order, maker: Order, makerId: u64, size: u64): (r: Fill) {
    Fill(maker.owner, taker.owner, taker.market, maker.price, size, taker.isBuy, makerId, taker.id)
  }

  function Touch(sw: Sweep, taker: Order, id: u64): (r: Sweep) {
    if sw.remaining == 0 || id !in sw.orders || !Eligible(taker, sw.orders[id]) then sw
    else
      var maker := sw.orders[id];
      var size := Min(sw.remaining, maker.remaining);
      var left := maker.remaining - size;
      Sweep(
        sw.orders[id := maker.(remaining := left, status := if left == 0 then Filled else maker.status)],
        if left == 0 then RemoveActive(sw.active, maker.market, id) else sw.active,
        sw.remaining - size,
        sw.fills + [FillOf(taker, maker, id, size)])
  }

  function SweepAll(sw: Sweep, taker: Order, makers: seq<u64>): (r: Sweep)
    decreases makers
  {
    if makers == [] then sw else SweepAll(Touch(sw, taker, makers[0]), taker, makers[1..])
  }

  // The ids of one side, flattened price by price.
  function Ladder(orders: OrderMap, ids: seq<u64>, isBuy: bool, prices: seq<u64>): (r: seq<u64>) {
    if prices == [] then []
    else QueueAt(orders, ids, isBuy, prices[0]) + Ladder(orders, ids, isBuy, prices[1..])
  }

  function Prices(orders: OrderMap, ids: seq<u64>, isBuy: bool): (r: set<u64>) {
    set id | id in ids && id in orders && orders[id].isBuy == isBuy :: orders[id].price
  }

  function Makers(orders: OrderMap, ids: seq<u64>, isBuy: bool): (r: seq<u64>) {
    Ladder(orders, ids, isBuy, Sorted(isBuy, Prices(orders, ids, isBuy)))
  }

  // ---------------------------------------------------------------------------
  // The flattened list is exactly the side, in price-time order
  // ---------------------------------------------------------------------------

  // a is served before b: better price, or same price and older id.
  ghost predicate Ahead(orders: OrderMap, a: u64, b: u64) {
    a in orders && b in orders &&
    ((if orders[a].isBuy then orders[a].price > orders[b].price else orders[a].price < orders[b].price) ||
     (orders[a].price == orders[b].price && a < b))
  }

  ghost predicate PriceTime(orders: OrderMap, ms: seq<u64>) {
    forall i, j :: 0 <= i < j < |ms| ==> Ahead(orders, ms[i], ms[j])
  }

  lemma {:induction false} LadderMembers(orders: OrderMap, ids: seq<u64>, isBuy: bool, prices: seq<u64>)
    ensures forall x :: x in Ladder(orders, ids, isBuy, prices)
                   <==> x in ids && x in orders && orders[x].isBuy == isBuy && orders[x].price in prices
  {
    if prices != [] {
      LadderMembers(orders, ids, isBuy, prices[1..]);
    }
  }

  lemma {:induction false} LadderPriceTime(orders: OrderMap, ids: seq<u64>, isBuy: bool, prices: seq<u64>)
    requires Increasing(ids) && BestFirst(isBuy, prices)
    ensures PriceTime(orders, Ladder(orders, ids, isBuy, prices))
  {
    if prices != [] {
      var q := QueueAt(orders, ids, isBuy, prices[0]);
      var rest := Ladder(orders, ids, isBuy, prices[1..]);
      LadderPriceTime(orders, ids, isBuy, prices[1..]);
      LadderMembers(orders, ids, isBuy, prices[1..]);
      QueueIncreasing(orders, ids, isBuy, prices[0]);
      forall i, j | 0 <= i < j < |q + rest| ensures Ahead(orders, (q + rest)[i], (q + rest)[j]) {
        assert i < |q| ==> q[i] in q;
        if j < |q| {
          assert q[j] in q;
        } else {
          assert rest[j - |q|] in rest;
        }
      }
    }
  }

  lemma MakersAreTheSide(orders: OrderMap, ids: seq<u64>, isBuy: bool)
    requires Increasing(ids)
    ensures forall x :: x in Makers(orders, ids, isBuy) <==> x in ids && x in orders && orders[x].isBuy == isBuy
    ensures PriceTime(orders, Makers(orders, ids, isBuy))
  {
    var prices := Sorted(isBuy, Prices(orders, ids, isBuy));
    SortedIsBestFirst(isBuy, Prices(orders, ids, isBuy));
    LadderMembers(orders, ids, isBuy, prices);
    LadderPriceTime(orders, ids, isBuy, prices);
  }

  // ---------------------------------------------------------------------------
  // What a sweep does
  // ---------------------------------------------------------------------------

  ghost predicate Distinct(ms: seq<u64>) {
    forall i, j :: 0 <= i < j < |ms| ==> ms[i] != ms[j]
  }

  ghost predicate AllResting(orders: OrderMap, ms: seq<u64>) {
    forall x :: x in ms ==> x in orders && orders[x].status == Active && orders[x].remaining > 0
  }

  // How one order may change while it is matched: its size shrinks, and it turns Filled exactly at 0.
  ghost predicate Consumed(o: Order, o': Order) {
    o' == o.(remaining := o'.remaining, status := o'.status) &&
    o'.remaining <= o.remaining &&
    o'.status == (if o'.remaining == 0 && o.remaining > 0 then Filled else o.status)
  }

  lemma SweepStep(sw: Sweep, taker: Order, ms: seq<u64>)
    requires ms != [] && Distinct(ms) && AllResting(sw.orders, ms)
    ensures Distinct(ms[1..]) && AllResting(Touch(sw, taker, ms[0]).orders, ms[1..])
    ensures ms[0] !in ms[1..]
  {
  }

  lemma {:induction false} SweepFrame(sw: Sweep, taker: Order, ms: seq<u64>)
    requires Distinct(ms) && AllResting(sw.orders, ms)
    ensures var out := SweepAll(sw, taker, ms);
            && out.orders.Keys == sw.orders.Keys
            && out.remaining <= sw.remaining
            && (forall x :: x in sw.orders ==> Consumed(sw.orders[x], out.orders[x]))
            && (forall x :: x in sw.orders && (x !in ms || !Eligible(taker, sw.orders[x])) ==>
                out.orders[x] == sw.orders[x])
    decreases ms
  {
    if ms != [] {
      SweepStep(sw, taker, ms);
      SweepFrame(Touch(sw, taker, ms[0]), taker, ms[1..]);
    }
  }

  lemma {:induction false} SweepDone(sw: Sweep, taker: Order, ms: seq<u64>)
    requires sw.remaining == 0
    ensures SweepAll(sw, taker, ms) == sw
    decreases ms
  {
    if ms != [] {
      SweepDone(sw, taker, ms[1..]);
    }
  }

  lemma {:induction false} SweepConcat(sw: Sweep, taker: Order, ms: seq<u64>, rest: seq<u64>)
    ensures SweepAll(sw, taker, ms + rest) == SweepAll(SweepAll(sw, taker, ms), taker, rest)
    decreases ms
  {
    if ms == [] {
      assert ms + rest == rest;
    } else {
      assert (ms + rest)[1..] == ms[1..] + rest;
      SweepConcat(Touch(sw, taker, ms[0]), taker, ms[1..], rest);
    }
  }

  // Makers none of which is eligible leave everything as it was.
  lemma {:induction false} SweepIneligible(sw: Sweep, taker: Order, ms: seq<u64>)
    requires forall x :: x in ms && x in sw.orders ==> !Eligible(taker, sw.orders[x])
    ensures SweepAll(sw, taker, ms) == sw
    decreases ms
  {
    if ms != [] {
      SweepIneligible(sw, taker, ms[1..]);
    }
  }

  // Exhaustion: the taker keeps unfilled size only when every eligible maker is gone.
  lemma {:induction false} SweepExhausts(sw: Sweep, taker: Order, ms: seq<u64>, x: u64)
    requires Distinct(ms) && AllResting(sw.orders, ms)
    requires x in ms && Eligible(taker, sw.orders[x]) && SweepAll(sw, taker, ms).remaining > 0
    ensures x in SweepAll(sw, taker, ms).orders && SweepAll(sw, taker, ms).orders[x].remaining == 0
    decreases ms
  {
    var sw' := Touch(sw, taker, ms[0]);
    SweepStep(sw, taker, ms);
    SweepFrame(sw', taker, ms[1..]);
    if x != ms[0] {
      SweepExhausts(sw', taker, ms[1..], x);
    }
  }

  // Price-time priority: a maker is reached only when every eligible maker before it is gone.
  lemma {:induction false} SweepPriority(sw: Sweep, taker: Order, ms: seq<u64>, i: nat, j: nat)
    requires Distinct(ms) && AllResting(sw.orders, ms)
    requires i < j < |ms| && Eligible(taker, sw.orders[ms[i]])
    requires ms[j] in SweepAll(sw, taker, ms).orders && SweepAll(sw, taker, ms).orders[ms[j]] != sw.orders[ms[j]]
    ensures ms[i] in SweepAll(sw, taker, ms).orders && SweepAll(sw, taker, ms).orders[ms[i]].remaining == 0
    decreases ms
  {
    hide Eligible;
    var sw' := Touch(sw, taker, ms[0]);
    SweepStep(sw, taker, ms);
    SweepFrame(sw', taker, ms[1..]);
    if i > 0 {
      SweepPriority(sw', taker, ms[1..], i - 1, j - 1);
    } else if sw'.remaining == 0 {
      SweepDone(sw', taker, ms[1..]);
    }
  }

  // ---------------------------------------------------------------------------
  // The fills account for every change
  // ---------------------------------------------------------------------------

  function FilledBy(fills: seq<Fill>, id: u64): (r: nat) {
    if fills == [] then 0
    else
      var f := fills[|fills| - 1];
      FilledBy(fills[..|fills| - 1], id) + (if f.makerId == id || f.takerId == id then f.size else 0)
  }

  function FillTotal(fills: seq<Fill>): (r: nat) {
    if fills == [] then 0 else FillTotal(fills[..|fills| - 1]) + fills[|fills| - 1].size
  }

  lemma FilledByAppend(fills: seq<Fill>, f: Fill, id: u64)
    ensures FilledBy(fills + [f], id)
            == FilledBy(fills, id) + (if f.makerId == id || f.takerId == id then f.size else 0)
    ensures FillTotal(fills + [f]) == FillTotal(fills) + f.size
  {
    assert (fills + [f])[..|fills|] == fills;
  }

  // At or better than the taker's limit; a price of 0 is no limit.
  predicate WithinLimit(taker: Order, price: u64) {
    taker.price > 0 ==> if taker.isBuy then price <= taker.price else taker.price <= price
  }

  // A genuine trade between two accounts against the order recorded as its maker: at that order's own price,
  // which the taker's limit allows, and on the taker's side.
  ghost predicate GoodFill(orders: OrderMap, taker: Order, f: Fill) {
    && f.makerId in orders
    && f.price == orders[f.makerId].price && WithinLimit(taker, f.price)
    && f.maker == orders[f.makerId].owner && f.taker == taker.owner && f.maker != f.taker
    && f.market == taker.market && f.takerIsBuy == taker.isBuy && f.takerId == taker.id
    && f.size > 0
  }

  // orders0 are the orders the fills are judged against.
  ghost predicate AccountedAt(orders0: OrderMap, sw: Sweep, x: u64) {
    && x in orders0 && x in sw.orders
    && Consumed(orders0[x], sw.orders[x])
    && orders0[x].remaining - sw.orders[x].remaining == FilledBy(sw.fills, x)
  }

  ghost predicate Accounted(orders0: OrderMap, remaining0: u64, taker: Order, sw: Sweep) {
    && sw.orders.Keys == orders0.Keys
    && (forall x :: x in orders0 ==> AccountedAt(orders0, sw, x))
    && remaining0 - sw.remaining == FillTotal(sw.fills)
    && (forall f :: f in sw.fills ==> GoodFill(orders0, taker, f))
  }

  lemma TouchAccountedAt(orders0: OrderMap, taker: Order, sw: Sweep, id: u64, x: u64)
    requires AccountedAt(orders0, sw, x) && taker.id != x
    requires id in sw.orders && sw.orders[id].status == Active && sw.orders[id].remaining > 0
    ensures AccountedAt(orders0, Touch(sw, taker, id), x)
  {
    if sw.remaining != 0 && Eligible(taker, sw.orders[id]) {
      FilledByAppend(sw.fills, FillOf(taker, sw.orders[id], id, Min(sw.remaining, sw.orders[id].remaining)), x);
    }
  }

  lemma ConsumedGoodFill(orders0: OrderMap, taker: Order, sw: Sweep, id: u64, size: u64)
    requires AccountedAt(orders0, sw, id) && Eligible(taker, sw.orders[id]) && size > 0
    ensures GoodFill(orders0, taker, FillOf(taker, sw.orders[id], id, size))
  {
    assert sw.orders[id] == orders0[id].(remaining := sw.orders[id].remaining, status := sw.orders[id].status);
  }

  lemma TouchAccounted(orders0: OrderMap, remaining0: u64, taker: Order, sw: Sweep, id: u64)
    requires Accounted(orders0, remaining0, taker, sw) && taker.id !in orders0
    requires id in sw.orders && sw.orders[id].status == Active && sw.orders[id].remaining > 0
    ensures Accounted(orders0, remaining0, taker, Touch(sw, taker, id))
  {
    var sw' := Touch(sw, taker, id);
    forall x | x in orders0 ensures AccountedAt(orders0, sw', x) {
      TouchAccountedAt(orders0, taker, sw, id, x);
    }
    if sw.remaining != 0 && Eligible(taker, sw.orders[id]) {
      var size := Min(sw.remaining, sw.orders[id].remaining);
      var f := FillOf(taker, sw.orders[id], id, size);
      assert AccountedAt(orders0, sw, id);
      ConsumedGoodFill(orders0, taker, sw, id, size);
      FilledByAppend(sw.fills, f, id);
      assert sw'.fills == sw.fills + [f];
    }
  }

  lemma {:induction false} SweepAccounted(orders0: OrderMap, remaining0: u64, taker: Order, sw: Sweep, ms: seq<u64>)
    requires Accounted(orders0, remaining0, taker, sw) && taker.id !in orders0
    requires Distinct(ms) && AllResting(sw.orders, ms)
    ensures Accounted(orders0, remaining0, taker, SweepAll(sw, taker, ms))
    decreases ms
  {
    if ms != [] {
      SweepStep(sw, taker, ms);
      TouchAccounted(orders0, remaining0, taker, sw, ms[0]);
      SweepAccounted(orders0, remaining0, taker, Touch(sw, taker, ms[0]), ms[1..]);
    }
  }

  // ---------------------------------------------------------------------------
  // The active lists follow the orders
  // ---------------------------------------------------------------------------

  // Each list is strictly increasing and holds exactly the Active orders of its market.
  ghost predicate ListsActive(orders: OrderMap, active: ActiveLists) {
    && (forall m: u32 :: Increasing(ActiveOf(active, m)))
    && (forall m: u32, x: u64 :: x in ActiveOf(active, m) <==>
        x in orders && orders[x].market == m && orders[x].status == Active)
  }

  // Taking an Active order out of play keeps the lists right.
  lemma RemovedStaysActive(orders: OrderMap, active: ActiveLists, x: u64, o: Order)
    requires ListsActive(orders, active) && x in orders
    requires o.market == orders[x].market && o.status != Active
    ensures ListsActive(orders[x := o], RemoveActive(active, o.market, x))
  {
    WithoutIncreasing(ActiveOf(active, o.market), x);
    forall m: u32 ensures Increasing(ActiveOf(RemoveActive(active, o.market, x), m)) {
      assert Increasing(ActiveOf(active, m));
    }
    forall m: u32, y: u64
      ensures y in ActiveOf(RemoveActive(active, o.market, x), m)
         <==> y in orders[x := o] && orders[x := o][y].market == m && orders[x := o][y].status == Active
    {
      assert y in ActiveOf(active, m) <==> y in orders && orders[y].market == m && orders[y].status == Active;
    }
  }

  lemma TouchListsActive(sw: Sweep, taker: Order, id: u64)
    requires ListsActive(sw.orders, sw.active)
    ensures ListsActive(Touch(sw, taker, id).orders, Touch(sw, taker, id).active)
  {
    var sw' := Touch(sw, taker, id);
    if sw' != sw && sw'.orders[id].remaining == 0 {
      RemovedStaysActive(sw.orders, sw.active, id, sw'.orders[id]);
    }
  }

  lemma {:induction false} SweepListsActive(sw: Sweep, taker: Order, ms: seq<u64>)
    requires ListsActive(sw.orders, sw.active)
    ensures ListsActive(SweepAll(sw, taker, ms).orders, SweepAll(sw, taker, ms).active)
    decreases ms
  {
    if ms != [] {
      TouchListsActive(sw, taker, ms[0]);
      SweepListsActive(Touch(sw, taker, ms[0]), taker, ms[1..]);
    }
  }
}
