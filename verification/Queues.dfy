// Lists of order ids: removal, the queue of one price level, and its total size.
module Queues {
  import opened Types

  ghost predicate Increasing(ids: seq<int>) {
    forall i, j :: 0 <= i < j < |ids| ==> ids[i] < ids[j]
  }

  // Every occurrence of x dropped (Rust's Vec::retain).
  function Without(ids: seq<u64>, x: u64): (r: seq<u64>)
    ensures forall y :: y in r <==> y in ids && y != x
  {
    if ids == [] then []
    else
      var rest := Without(ids[..|ids| - 1], x);
      var last := ids[|ids| - 1];
      if last == x then rest else rest + [last]
  }

  lemma IncreasingAppend(ids: seq<u64>, x: u64)
    requires Increasing(ids) && forall y :: y in ids ==> y < x
    ensures Increasing(ids + [x])
  {
    forall i, j | 0 <= i < j < |ids| + 1 ensures (ids + [x])[i] < (ids + [x])[j] {
      assert ids[i] in ids;
    }
  }

  lemma {:induction false} WithoutIncreasing(ids: seq<u64>, x: u64)
    requires Increasing(ids)
    ensures Increasing(Without(ids, x))
  {
    if ids != [] {
      WithoutIncreasing(ids[..|ids| - 1], x);
      if ids[|ids| - 1] != x {
        IncreasingAppend(Without(ids[..|ids| - 1], x), ids[|ids| - 1]);
      }
    }
  }

  lemma {:induction false} WithoutAbsent(ids: seq<u64>, x: u64)
    requires x !in ids
    ensures Without(ids, x) == ids
  {
    if ids != [] {
      WithoutAbsent(ids[..|ids| - 1], x);
    }
  }

  lemma {:induction false} WithoutConcat(a: seq<u64>, b: seq<u64>, x: u64)
    ensures Without(a + b, x) == Without(a, x) + Without(b, x)
  {
    if b == [] {
      assert a + b == a;
    } else {
      WithoutConcat(a, b[..|b| - 1], x);
      assert (a + b)[..|a + b| - 1] == a + b[..|b| - 1];
    }
  }

  lemma WithoutMiddle(a: seq<u64>, x: u64, b: seq<u64>)
    requires x !in a && x !in b
    ensures Without(a + [x] + b, x) == a + b
  {
    WithoutConcat(a + [x], b, x);
    WithoutConcat(a, [x], x);
    WithoutAbsent(a, x);
    WithoutAbsent(b, x);
    assert Without([x], x) == [];
    assert a + [] == a;
  }

  // In a strictly increasing list, dropping x is cutting out its single position.
  lemma {:induction false} WithoutIsCut(ids: seq<u64>, x: u64, k: nat)
    requires Increasing(ids) && k < |ids| && ids[k] == x
    ensures Without(ids, x) == ids[..k] + ids[k + 1..]
  {
    var init := ids[..|ids| - 1];
    if k == |ids| - 1 {
      WithoutAbsent(init, x);
    } else {
      WithoutIsCut(init, x, k);
      assert ids[k + 1..] == init[k + 1..] + [ids[|ids| - 1]];
    }
  }

  // ---------------------------------------------------------------------------
  // The queue of one price level, read off the orders and a list of active ids
  // ---------------------------------------------------------------------------

  predicate Rests(orders: map<u64, Order>, id: u64, isBuy: bool, price: u64) {
    id in orders && orders[id].isBuy == isBuy && orders[id].price == price
  }

  function QueueAt(orders: map<u64, Order>, ids: seq<u64>, isBuy: bool, price: u64): (r: seq<u64>)
    ensures forall x :: x in r <==> x in ids && Rests(orders, x, isBuy, price)
  {
    if ids == [] then []
    else
      var rest := QueueAt(orders, ids[..|ids| - 1], isBuy, price);
      var last := ids[|ids| - 1];
      if Rests(orders, last, isBuy, price) then rest + [last] else rest
  }

  lemma {:induction false} QueueIncreasing(orders: map<u64, Order>, ids: seq<u64>, isBuy: bool, price: u64)
    requires Increasing(ids)
    ensures Increasing(QueueAt(orders, ids, isBuy, price))
  {
    if ids != [] {
      QueueIncreasing(orders, ids[..|ids| - 1], isBuy, price);
      if Rests(orders, ids[|ids| - 1], isBuy, price) {
        IncreasingAppend(QueueAt(orders, ids[..|ids| - 1], isBuy, price), ids[|ids| - 1]);
      }
    }
  }

  // A queue depends on its members' side and price only.
  lemma {:induction false} QueueSame(orders: map<u64, Order>, orders': map<u64, Order>, ids: seq<u64>, isBuy: bool,
                                     price: u64)
    requires forall x :: x in ids ==> (Rests(orders, x, isBuy, price) <==> Rests(orders', x, isBuy, price))
    ensures QueueAt(orders, ids, isBuy, price) == QueueAt(orders', ids, isBuy, price)
  {
    if ids != [] {
      QueueSame(orders, orders', ids[..|ids| - 1], isBuy, price);
    }
  }

  lemma {:induction false} QueueWithout(orders: map<u64, Order>, ids: seq<u64>, x: u64, isBuy: bool, price: u64)
    ensures QueueAt(orders, Without(ids, x), isBuy, price) == Without(QueueAt(orders, ids, isBuy, price), x)
  {
    if ids != [] {
      var init, last := ids[..|ids| - 1], ids[|ids| - 1];
      QueueWithout(orders, init, x, isBuy, price);
      if last != x {
        assert (Without(init, x) + [last])[..|Without(init, x)|] == Without(init, x);
      }
      var q := QueueAt(orders, init, isBuy, price);
      assert (q + [last])[..|q|] == q;
    }
  }

  lemma QueueAppend(orders: map<u64, Order>, ids: seq<u64>, x: u64, isBuy: bool, price: u64)
    ensures QueueAt(orders, ids + [x], isBuy, price)
         == QueueAt(orders, ids, isBuy, price) + (if Rests(orders, x, isBuy, price) then [x] else [])
  {
    assert (ids + [x])[..|ids|] == ids;
  }

  function RemainingOf(orders: map<u64, Order>, id: u64): (r: u64) {
    if id in orders then orders[id].remaining else 0
  }

  // The total size a queue offers.
  function TotalRemaining(orders: map<u64, Order>, ids: seq<u64>): (r: nat) {
    if ids == [] then 0
    else TotalRemaining(orders, ids[..|ids| - 1]) + RemainingOf(orders, ids[|ids| - 1])
  }

  lemma TotalAppend(orders: map<u64, Order>, ids: seq<u64>, x: u64)
    ensures TotalRemaining(orders, ids + [x]) == TotalRemaining(orders, ids) + RemainingOf(orders, x)
  {
    assert (ids + [x])[..|ids|] == ids;
  }

  lemma {:induction false} TotalSame(orders: map<u64, Order>, orders': map<u64, Order>, ids: seq<u64>)
    requires forall x :: x in ids ==> RemainingOf(orders, x) == RemainingOf(orders', x)
    ensures TotalRemaining(orders, ids) == TotalRemaining(orders', ids)
  {
    if ids != [] {
      TotalSame(orders, orders', ids[..|ids| - 1]);
    }
  }

  lemma {:induction false} TotalWithout(orders: map<u64, Order>, ids: seq<u64>, x: u64)
    requires Increasing(ids) && x in ids
    ensures TotalRemaining(orders, ids) == TotalRemaining(orders, Without(ids, x)) + RemainingOf(orders, x)
  {
    var init, last := ids[..|ids| - 1], ids[|ids| - 1];
    if last == x {
      WithoutAbsent(init, x);
    } else {
      TotalWithout(orders, init, x);
      TotalAppend(orders, Without(init, x), last);
    }
  }

  // One member's remaining size changes: the total moves by the difference.
  lemma {:induction false} TotalUpdate(orders: map<u64, Order>, ids: seq<u64>, x: u64, o: Order)
    requires Increasing(ids) && x in ids && x in orders
    ensures TotalRemaining(orders[x := o], ids) == TotalRemaining(orders, ids) - orders[x].remaining + o.remaining
  {
    var init, last := ids[..|ids| - 1], ids[|ids| - 1];
    if last == x {
      TotalSame(orders, orders[x := o], init);
    } else {
      TotalUpdate(orders, init, x, o);
    }
  }

  // ---------------------------------------------------------------------------
  // Ordered iteration over a set of prices (BTreeMap keys)
  // ---------------------------------------------------------------------------

  predicate Better(isBuy: bool, p: int, q: int) {
    if isBuy then p > q else p < q
  }

  // The prices of one side, best first: bids descending, asks ascending.
  ghost predicate BestFirst(isBuy: bool, prices: seq<int>) {
    forall i, j :: 0 <= i < j < |prices| ==> Better(isBuy, prices[i], prices[j])
  }

  predicate IsBest(isBuy: bool, s: set<u64>, p: u64) {
    p in s && forall q :: q in s && q != p ==> Better(isBuy, p, q)
  }

  lemma {:induction false} SomeBest(isBuy: bool, s: set<u64>) returns (p: u64)
    requires s != {}
    ensures IsBest(isBuy, s, p)
    decreases |s|
  {
    p :| p in s;
    var rest := s - {p};
    if rest != {} {
      var q := SomeBest(isBuy, rest);
      var best := if Better(isBuy, q, p) then q else p;
      forall x | x in s && x != best ensures Better(isBuy, best, x) {
        assert x == p || x in rest;
        assert x in rest && x != q ==> Better(isBuy, q, x);
      }
      p := best;
    }
  }

  function BestOf(isBuy: bool, s: set<u64>): (p: u64)
    requires s != {}
    ensures IsBest(isBuy, s, p)
  {
    assert exists p :: IsBest(isBuy, s, p) by {
      var b := SomeBest(isBuy, s);
    }
    var p :| IsBest(isBuy, s, p);
    p
  }

  // The order is total, so the best price of a set is unique and the listing is a function.
  function Sorted(isBuy: bool, s: set<u64>): (r: seq<u64>)
    ensures forall p :: p in r <==> p in s
    decreases |s|
  {
    if s == {} then [] else [BestOf(isBuy, s)] + Sorted(isBuy, s - {BestOf(isBuy, s)})
  }

  lemma {:induction false} SortedIsBestFirst(isBuy: bool, s: set<u64>)
    ensures BestFirst(isBuy, Sorted(isBuy, s))
    decreases |s|
  {
    if s != {} {
      var b := BestOf(isBuy, s);
      var rest := Sorted(isBuy, s - {b});
      SortedIsBestFirst(isBuy, s - {b});
      forall j | 0 <= j < |rest| ensures Better(isBuy, b, rest[j]) {
        assert rest[j] in rest;
      }
    }
  }
}
