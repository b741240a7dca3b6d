// What one match does, stated without the sweep: who trades, how much, and in which order.
module Priority {
  import opened Types
  import opened Matching
  import opened Exchange
  import opened Invariants

  // Total size the eligible makers of a list offer.
  function EligibleSize(orders: OrderMap, taker: Order, ms: seq<u64>): (r: nat)
    decreases ms
  {
    if ms == [] then 0
    else (if ms[0] in orders && Eligible(taker, orders[ms[0]]) then orders[ms[0]].remaining else 0)
         + EligibleSize(orders, taker, ms[1..])
  }

  lemma {:induction false} EligibleSizeSame(orders: OrderMap, orders': OrderMap, taker: Order, ms: seq<u64>)
    requires orders'.Keys == orders.Keys && forall x :: x in ms && x in orders ==> orders'[x] == orders[x]
    ensures EligibleSize(orders', taker, ms) == EligibleSize(orders, taker, ms)
    decreases ms
  {
    if ms != [] {
      EligibleSizeSame(orders, orders', taker, ms[1..]);
    }
  }

  // Something is offered exactly when some maker of the list is eligible.
  lemma {:induction false} SomethingOffered(orders: OrderMap, taker: Order, ms: seq<u64>)
    requires AllResting(orders, ms)
    ensures EligibleSize(orders, taker, ms) > 0 <==> exists x :: x in ms && Eligible(taker, orders[x])
    decreases ms
  {
    if ms != [] {
      assert ms[0] in ms && forall x :: x in ms[1..] ==> x in ms;
      assert forall x :: x in ms ==> x == ms[0] || x in ms[1..];
      SomethingOffered(orders, taker, ms[1..]);
    }
  }

  // A sweep leaves what is wanted beyond what is offered.
  lemma {:induction false} SweepLeaves(sw: Sweep, taker: Order, ms: seq<u64>)
    requires Distinct(ms) && AllResting(sw.orders, ms)
    ensures SweepAll(sw, taker, ms).remaining == SaturatingSub(sw.remaining, EligibleSize(sw.orders, taker, ms))
    decreases ms
  {
    if ms != [] {
      var sw' := Touch(sw, taker, ms[0]);
      SweepStep(sw, taker, ms);
      SweepLeaves(sw', taker, ms[1..]);
      EligibleSizeSame(sw.orders, sw'.orders, taker, ms[1..]);
    }
  }

  // What the live orders of other owners offer an order at prices it accepts.
  function Offered(s: State, order: Order): (r: nat) {
    EligibleSize(s.orders, order, Makers(s.orders, ActiveOf(s.active, order.market), !order.isBuy))
  }

  // What a match leaves, and whether it trades, in terms of what is offered before it.
  lemma MatchLeaves(s: State, order: Order)
    requires Inv(s)
    ensures MatchAgainst(s, order).remaining == SaturatingSub(order.remaining, Offered(s, order))
    ensures Offered(s, order) > 0 <==> exists x :: Opposes(s, order, x) && Eligible(order, s.orders[x])
  {
    hide Inv, Makers, Eligible, SweepAll, EligibleSize, AllResting, Distinct, PriceTime;
    MakersReady(s, order);
    var ms := Makers(s.orders, ActiveOf(s.active, order.market), !order.isBuy);
    SweepLeaves(Sweep(s.orders, s.active, order.remaining, []), order, ms);
    SomethingOffered(s.orders, order, ms);
  }

  // The share of a maker holding `offered` when `ahead` is taken by the eligible makers before it.
  function Share(wanted: nat, ahead: nat, offered: nat): (r: nat) {
    Min(offered, SaturatingSub(wanted, ahead))
  }

  // What a sweep gives the maker x when `ahead` of it is offered by eligible makers.
  ghost predicate Served(orders: OrderMap, taker: Order, wanted: nat, ahead: nat, out: OrderMap, x: u64) {
    && x in orders && x in out
    && orders[x].remaining - out[x].remaining ==
       (if Eligible(taker, orders[x]) then Share(wanted, ahead, orders[x].remaining) else 0)
  }

  lemma {:induction false} SweepWaterfall(sw: Sweep, taker: Order, ms: seq<u64>, k: nat)
    requires Distinct(ms) && AllResting(sw.orders, ms) && k < |ms|
    ensures Served(sw.orders, taker, sw.remaining, EligibleSize(sw.orders, taker, ms[..k]),
                   SweepAll(sw, taker, ms).orders, ms[k])
    decreases ms
  {
    var sw' := Touch(sw, taker, ms[0]);
    SweepStep(sw, taker, ms);
    if k == 0 {
      SweepFrame(sw', taker, ms[1..]);
    } else {
      SweepWaterfall(sw', taker, ms[1..], k - 1);
      assert ms[..k][1..] == ms[1..][..k - 1];
      assert ms[..k][0] == ms[0];
      EligibleSizeSame(sw.orders, sw'.orders, taker, ms[1..][..k - 1]);
      var rest := EligibleSize(sw.orders, taker, ms[1..][..k - 1]);
      assert sw'.orders[ms[k]] == sw.orders[ms[k]];
      var first := sw.orders[ms[0]];
      assert EligibleSize(sw.orders, taker, ms[..k]) == (if Eligible(taker, first) then first.remaining else 0) + rest;
    }
  }

  // The makers of a list of fills.
  function MakerIds(fills: seq<Fill>): (r: seq<u64>) {
    if fills == [] then [] else MakerIds(fills[..|fills| - 1]) + [fills[|fills| - 1].makerId]
  }

  // Fills come in the order of the makers they touch, each maker at most once.
  lemma {:induction false} SweepFillOrder(orders: OrderMap, sw: Sweep, taker: Order, ms: seq<u64>)
    requires PriceTime(orders, MakerIds(sw.fills) + ms)
    ensures PriceTime(orders, MakerIds(SweepAll(sw, taker, ms).fills))
    decreases ms
  {
    var done := MakerIds(sw.fills);
    if ms == [] {
      assert done + ms == done;
    } else {
      var sw' := Touch(sw, taker, ms[0]);
      if sw'.fills == sw.fills {
        forall i, j | 0 <= i < j < |done + ms[1..]|
          ensures Ahead(orders, (done + ms[1..])[i], (done + ms[1..])[j])
        {
          var i', j' := if i < |done| then i else i + 1, if j < |done| then j else j + 1;
          assert Ahead(orders, (done + ms)[i'], (done + ms)[j']);
        }
      } else {
        assert sw'.fills[..|sw.fills|] == sw.fills;
        assert MakerIds(sw'.fills) + ms[1..] == done + ms;
      }
      SweepFillOrder(orders, sw', taker, ms[1..]);
    }
  }

  // Main result on matching. Against the live orders of the other side that another account owns at an
  // acceptable price, ranked by price then age, the taker is served like water down a staircase: each
  // gets exactly what is still wanted after everyone ranked before it, no one else trades, fills come
  // in that order, at the maker's price, and what they take is what the orders lose.
  lemma MatchIsPriceTime(s: State, order: Order) returns (ranking: seq<u64>)
    requires Inv(s) && Fresh(s, order)
    ensures PriceTime(s.orders, ranking)
    ensures forall x :: x in ranking <==> Opposes(s, order, x)
    ensures var sw := MatchAgainst(s, order);
            && Accounted(s.orders, order.remaining, order, sw)
            && PriceTime(s.orders, MakerIds(sw.fills))
            && (forall x :: x in s.orders && !(Opposes(s, order, x) && Eligible(order, s.orders[x])) ==>
                sw.orders[x] == s.orders[x])
            && (forall k :: 0 <= k < |ranking| ==>
                  Served(s.orders, order, order.remaining, EligibleSize(s.orders, order, ranking[..k]), sw.orders,
                         ranking[k]))
    ensures var sw := MatchAgainst(s, order);
            && (forall f :: f in sw.fills ==> GoodFill(s.orders, order, f))
            && (sw.remaining > 0 ==>
                  forall x :: Opposes(s, order, x) && s.orders[x].owner != order.owner ==>
                    WithinLimit(order, s.orders[x].price) ==> sw.orders[x].remaining == 0)
  {
    ranking := Makers(s.orders, ActiveOf(s.active, order.market), !order.isBuy);
    var sw0 := Sweep(s.orders, s.active, order.remaining, []);
    MakersReady(s, order);
    MatchAccounted(s, order);
    SweepFrame(sw0, order, ranking);
    assert MakerIds([]) + ranking == ranking;
    SweepFillOrder(s.orders, sw0, order, ranking);
    forall k | 0 <= k < |ranking|
      ensures Served(s.orders, order, order.remaining, EligibleSize(s.orders, order, ranking[..k]),
                     MatchAgainst(s, order).orders, ranking[k])
    {
      SweepWaterfall(sw0, order, ranking, k);
    }
    if MatchAgainst(s, order).remaining > 0 {
      forall x | Opposes(s, order, x) && s.orders[x].owner != order.owner && WithinLimit(order, s.orders[x].price)
        ensures MatchAgainst(s, order).orders[x].remaining == 0
      {
        SweepExhausts(sw0, order, ranking, x);
      }
    }
  }

  lemma AheadAsymmetric(orders: OrderMap, a: u64, b: u64)
    requires Ahead(orders, a, b) && orders[a].isBuy == orders[b].isBuy
    ensures a != b && !Ahead(orders, b, a)
  {
  }

  lemma RankedInOrder(orders: OrderMap, ms: seq<u64>, a: u64, b: u64) returns (i: nat, j: nat)
    requires PriceTime(orders, ms) && a in ms && b in ms && Ahead(orders, a, b)
    requires a in orders && b in orders && orders[a].isBuy == orders[b].isBuy
    ensures i < j < |ms| && ms[i] == a && ms[j] == b
  {
    AheadAsymmetric(orders, a, b);
    i :| 0 <= i < |ms| && ms[i] == a;
    j :| 0 <= j < |ms| && ms[j] == b;
  }

  // A maker is touched only if every eligible maker ahead of it, by price and then by age, is gone.
  lemma NoOneIsSkipped(s: State, order: Order, a: u64, b: u64)
    requires Inv(s) && Opposes(s, order, a) && Opposes(s, order, b) && Eligible(order, s.orders[a]) &&
             Ahead(s.orders, a, b)
    requires b in MatchAgainst(s, order).orders && MatchAgainst(s, order).orders[b] != s.orders[b]
    ensures a in MatchAgainst(s, order).orders && MatchAgainst(s, order).orders[a].remaining == 0
  {
    hide Inv, Makers, PriceTime, AllResting, Ahead, SweepAll;
    var ms := Makers(s.orders, ActiveOf(s.active, order.market), !order.isBuy);
    MakersReady(s, order);
    var i, j := RankedInOrder(s.orders, ms, a, b);
    SweepPriority(Sweep(s.orders, s.active, order.remaining, []), order, ms, i, j);
  }

  // With one order on the other side the match is one step.
  lemma OneMaker(s: State, order: Order, x: u64)
    requires Inv(s) && forall y: u64 :: Opposes(s, order, y) <==> y == x
    ensures MatchAgainst(s, order) == Touch(Sweep(s.orders, s.active, order.remaining, []), order, x)
  {
    hide Inv, Makers, ActiveOf, Touch, PriceTime, Opposes;
    MakersReady(s, order);
    var ms := Makers(s.orders, ActiveOf(s.active, order.market), !order.isBuy);
    assert Opposes(s, order, x);
    forall y: u64 ensures y in ms <==> y == x {
      assert y in ms <==> Opposes(s, order, y);
    }
    OnlyMaker(ms, x);
    var sw := Sweep(s.orders, s.active, order.remaining, []);
    assert [x][1..] == [] && SweepAll(sw, order, [x]) == Touch(sw, order, x);
  }

  lemma OnlyMaker(ms: seq<u64>, x: u64)
    requires Distinct(ms) && forall y: u64 :: y in ms <==> y == x
    ensures ms == [x]
  {
    assert x in ms;
    SamePlace(ms, x, 0, |ms| - 1);
  }

  lemma SamePlace(ms: seq<u64>, x: u64, i: nat, j: nat)
    requires Distinct(ms) && (forall y: u64 :: y in ms ==> y == x) && i <= j < |ms|
    ensures i == j && ms[i] == x
  {
    assert ms[i] in ms && ms[j] in ms;
  }
}
