// Recovery: refilling an empty book from the active lists.
module Recovery {
  import opened Types
  import opened Queues
  import opened Matching
  import opened PriceLevels
  import opened Exchange
  import opened Invariants

  // All that rebuilding relies on: each market listed once, each active list increasing and holding only
  // orders of its market.
  ghost predicate Filed(s: State) {
    && (forall i, j :: 0 <= i < j < |s.marketList| ==> s.marketList[i] != s.marketList[j])
    && (forall m: u32 :: Increasing(ActiveOf(s.active, m)))
    && (forall m: u32, x: u64 :: x in ActiveOf(s.active, m) && x in s.orders ==> s.orders[x].market == m)
  }

  predicate Stale(orders: OrderMap, x: u64) {
    x in orders && !(orders[x].status == Active && orders[x].remaining > 0)
  }

  // An active list with its stale entries dropped.
  function LiveOnly(orders: OrderMap, ids: seq<u64>): (r: seq<u64>)
    ensures forall x :: x in r <==> x in ids && !Stale(orders, x)
  {
    if ids == [] then []
    else
      var rest := LiveOnly(orders, ids[..|ids| - 1]);
      if Stale(orders, ids[|ids| - 1]) then rest else rest + [ids[|ids| - 1]]
  }

  lemma {:induction false} LiveOnlyAll(orders: OrderMap, ids: seq<u64>)
    requires forall x :: x in ids ==> !Stale(orders, x)
    ensures LiveOnly(orders, ids) == ids
  {
    if ids != [] {
      LiveOnlyAll(orders, ids[..|ids| - 1]);
    }
  }

  ghost predicate SidesAgree(bids: Book, asks: Book, orders: OrderMap, market: u32, ids: seq<u64>) {
    SideAgrees(SideOf(bids, market), orders, ids, true) && SideAgrees(SideOf(asks, market), orders, ids, false)
  }

  // A market whose book is filled, and one whose turn is still to come.
  ghost predicate Refilled(s: State, active: ActiveLists, bids: Book, asks: Book, m: u32) {
    ActiveOf(active, m) == LiveOnly(s.orders, ActiveOf(s.active, m)) &&
        SidesAgree(bids, asks, s.orders, m, ActiveOf(active, m))
  }

  ghost predicate Untouched(s: State, active: ActiveLists, bids: Book, asks: Book, m: u32) {
    ActiveOf(active, m) == ActiveOf(s.active, m) && SideOf(bids, m) == map[] && SideOf(asks, m) == map[]
  }

  ghost predicate Progress(s: State, active: ActiveLists, bids: Book, asks: Book, k: nat, m: u32)
    requires k <= |s.marketList|
  {
    if m in s.marketList[..k] then Refilled(s, active, bids, asks, m) else Untouched(s, active, bids, asks, m)
  }

  ghost predicate RebuiltUpTo(s: State, active: ActiveLists, bids: Book, asks: Book, k: nat)
    requires k <= |s.marketList|
  {
    forall m: u32 :: Progress(s, active, bids, asks, k, m)
  }

  // Inside one market: the first i entries are done, the rest are still listed.
  ghost predicate Rebuilding(s: State, active: ActiveLists, bids: Book, asks: Book, k: nat, ids: seq<u64>, i: nat)
    requires k < |s.marketList| && i <= |ids|
  {
    var market := s.marketList[k];
    && ids == ActiveOf(s.active, market)
    && MarketAt(s, active, bids, asks, market, ids, i)
    && forall m: u32 :: m != market ==> Progress(s, active, bids, asks, k, m)
  }

  lemma RebuildBegins(s: State)
    ensures RebuiltUpTo(s, s.active, map[], map[], 0)
  {
  }

  lemma RebuildOpens(s: State, active: ActiveLists, bids: Book, asks: Book, k: nat)
    requires Filed(s) && k < |s.marketList| && RebuiltUpTo(s, active, bids, asks, k)
    ensures Rebuilding(s, active, bids, asks, k, ActiveOf(active, s.marketList[k]), 0)
  {
    var market := s.marketList[k];
    assert Progress(s, active, bids, asks, k, market);
    assert market !in s.marketList[..k];
    var ids := ActiveOf(active, market);
    assert ids[..0] == [] && [] + ids[0..] == ids;
  }

  lemma RebuildCloses(s: State, active: ActiveLists, bids: Book, asks: Book, k: nat, ids: seq<u64>)
    requires Filed(s) && k < |s.marketList| && Rebuilding(s, active, bids, asks, k, ids, |ids|)
    ensures RebuiltUpTo(s, active, bids, asks, k + 1)
  {
    assert ids[..|ids|] == ids && LiveOnly(s.orders, ids) + ids[|ids|..] == LiveOnly(s.orders, ids);
    assert s.marketList[..k + 1] == s.marketList[..k] + [s.marketList[k]];
    assert Refilled(s, active, bids, asks, s.marketList[k]);
    var k' := k + 1;
    forall m: u32 ensures Progress(s, active, bids, asks, k', m) {
      assert m != s.marketList[k] ==> Progress(s, active, bids, asks, k, m);
    }
  }

  // The entries of the market at hand belong to it.
  lemma RebuildMarket(s: State, active: ActiveLists, bids: Book, asks: Book, k: nat, ids: seq<u64>, i: nat)
    requires Filed(s) && k < |s.marketList| && i < |ids| && Rebuilding(s, active, bids, asks, k, ids, i)
    ensures ids[i] in s.orders ==> s.orders[ids[i]].market == s.marketList[k]
  {
    assert ids[i] in ids;
  }

  // What the next entry does to the market's list.
  lemma EntryList(orders: OrderMap, ids: seq<u64>, i: nat)
    requires Increasing(ids) && i < |ids|
    ensures LiveOnly(orders, ids[..i + 1])
            == LiveOnly(orders, ids[..i]) + (if Stale(orders, ids[i]) then [] else [ids[i]])
    ensures ids[i] !in LiveOnly(orders, ids[..i]) && ids[i] !in ids[i + 1..]
  {
    assert ids[..i + 1][..i] == ids[..i];
  }

  // What it does to one of the market's sides.
  function EntrySide(orders: OrderMap, side: Side, id: u64, isBuy: bool): (r: Side) {
    if id in orders && !Stale(orders, id) && orders[id].isBuy == isBuy
    then AddToSide(side, orders[id].price, id, orders[id].remaining) else side
  }

  lemma EntrySideAgrees(orders: OrderMap, side: Side, done: seq<u64>, id: u64, isBuy: bool)
    requires SideAgrees(side, orders, done, isBuy) && id !in done
    ensures SideAgrees(EntrySide(orders, side, id, isBuy), orders, done + (if Stale(orders, id) then [] else [id]),
                       isBuy)
  {
    if id !in orders {
      forall p: u64 ensures QueueAt(orders, done + [id], isBuy, p) == QueueAt(orders, done, isBuy, p) {
        QueueAppend(orders, done, id, isBuy, p);
      }
      AgreesElsewhere(side, orders, done, orders, done + [id], isBuy);
    } else if Stale(orders, id) {
      assert done + [] == done;
    } else {
      AgreesAdd(side, orders, done, isBuy, id, orders[id]);
      assert orders[id := orders[id]] == orders;
    }
  }

  // The market at hand after i entries.
  ghost predicate MarketAt(s: State, active: ActiveLists, bids: Book, asks: Book, market: u32, ids: seq<u64>, i: nat)
    requires i <= |ids|
  {
    && ActiveOf(active, market) == LiveOnly(s.orders, ids[..i]) + ids[i..]
    && SidesAgree(bids, asks, s.orders, market, LiveOnly(s.orders, ids[..i]))
  }

  lemma MarketStep(s: State, active: ActiveLists, bids: Book, asks: Book, market: u32, ids: seq<u64>, i: nat,
                   active': ActiveLists, bids': Book, asks': Book)
    requires Increasing(ids) && i < |ids| && MarketAt(s, active, bids, asks, market, ids, i)
    requires active' == if Stale(s.orders, ids[i]) then RemoveActive(active, market, ids[i]) else active
    requires SideOf(bids', market) == EntrySide(s.orders, SideOf(bids, market), ids[i], true)
    requires SideOf(asks', market) == EntrySide(s.orders, SideOf(asks, market), ids[i], false)
    ensures MarketAt(s, active', bids', asks', market, ids, i + 1)
  {
    hide SideAgrees, LiveOnly, EntrySide, Without, Increasing, Stale;
    var done, rest := LiveOnly(s.orders, ids[..i]), ids[i + 1..];
    EntryList(s.orders, ids, i);
    EntrySideAgrees(s.orders, SideOf(bids, market), done, ids[i], true);
    EntrySideAgrees(s.orders, SideOf(asks, market), done, ids[i], false);
    assert done + [ids[i]] + rest == done + ids[i..];
    WithoutMiddle(done, ids[i], rest);
    assert done + [] == done;
  }

  lemma RebuildStep(s: State, active: ActiveLists, bids: Book, asks: Book, k: nat, ids: seq<u64>, i: nat,
                    active': ActiveLists, bids': Book, asks': Book)
    requires Filed(s) && k < |s.marketList| && i < |ids| && Rebuilding(s, active, bids, asks, k, ids, i)
    requires active' == if Stale(s.orders, ids[i]) then RemoveActive(active, s.marketList[k], ids[i]) else active
    requires forall m: u32 :: SideOf(bids', m)
               == if m == s.marketList[k] then EntrySide(s.orders, SideOf(bids, m), ids[i], true) else SideOf(bids, m)
    requires forall m: u32 :: SideOf(asks', m)
               == if m == s.marketList[k] then EntrySide(s.orders, SideOf(asks, m), ids[i], false) else SideOf(asks, m)
    ensures Rebuilding(s, active', bids', asks', k, ids, i + 1)
  {
    var market := s.marketList[k];
    assert Increasing(ids);
    hide SideAgrees, LiveOnly, EntrySide;
    MarketStep(s, active, bids, asks, market, ids, i, active', bids', asks');
    forall m: u32 | m != market ensures Progress(s, active', bids', asks', k, m) {
      assert Progress(s, active, bids, asks, k, m);
    }
  }

  // ---------------------------------------------------------------------------
  // In a sound state nothing needs healing
  // ---------------------------------------------------------------------------

  ghost predicate SameBook(book: Book, book': Book) {
    forall m: u32 :: SideOf(book', m) == SideOf(book, m)
  }

  ghost predicate SameLists(active: ActiveLists, active': ActiveLists) {
    forall m: u32 :: ActiveOf(active', m) == ActiveOf(active, m)
  }

  lemma SoundIsFiled(s: State)
    requires Inv(s)
    ensures Filed(s)
  {
  }

  // The lists of a sound state hold live orders of listed markets only.
  lemma NothingStale(s: State, m: u32)
    requires Inv(s)
    ensures LiveOnly(s.orders, ActiveOf(s.active, m)) == ActiveOf(s.active, m)
    ensures m !in s.marketList ==> ActiveOf(s.active, m) == []
  {
    var ids := ActiveOf(s.active, m);
    forall x | x in ids ensures m in s.marketList && !Stale(s.orders, x) {
      assert OrderSound(s, x);
    }
    LiveOnlyAll(s.orders, ids);
    assert ids != [] ==> ids[0] in ids;
  }

  lemma EmptySideAgrees(orders: OrderMap, isBuy: bool)
    ensures SideAgrees(map[], orders, [], isBuy)
  {
  }

  lemma RebuildIsIdentityAt(s: State, active': ActiveLists, bids: Book, asks: Book, bids': Book, asks': Book, m: u32)
    requires Inv(s) && BookAgrees(bids, asks, s.orders, s.active)
    requires Progress(s, active', bids', asks', |s.marketList|, m)
    ensures ActiveOf(active', m) == ActiveOf(s.active, m)
    ensures SideOf(bids', m) == SideOf(bids, m) && SideOf(asks', m) == SideOf(asks, m)
  {
    hide Inv, SideAgrees, LiveOnly, ActiveOf;
    var ids := ActiveOf(s.active, m);
    assert s.marketList[..|s.marketList|] == s.marketList;
    NothingStale(s, m);
    assert AgreesAt(bids, asks, s.orders, s.active, m, true) && AgreesAt(bids, asks, s.orders, s.active, m, false);
    EmptySideAgrees(s.orders, true);
    EmptySideAgrees(s.orders, false);
    AgreeingSidesEqual(SideOf(bids, m), SideOf(bids', m), s.orders, ids, true);
    AgreeingSidesEqual(SideOf(asks, m), SideOf(asks', m), s.orders, ids, false);
  }

  lemma SameListsInv(s: State, active': ActiveLists)
    requires Inv(s) && SameLists(s.active, active')
    ensures Inv(s.(active := active'))
  {
    forall x | x in s.orders ensures OrderSound(s.(active := active'), x) {
      assert OrderSound(s, x);
    }
  }

  lemma SameBookAgrees(bids: Book, asks: Book, bids': Book, asks': Book, orders: OrderMap, active: ActiveLists,
                       active': ActiveLists)
    requires BookAgrees(bids, asks, orders, active)
    requires SameBook(bids, bids') && SameBook(asks, asks') && SameLists(active, active')
    ensures BookAgrees(bids', asks', orders, active')
  {
    forall m: u32, b: bool ensures AgreesAt(bids', asks', orders, active', m, b) {
      assert AgreesAt(bids, asks, orders, active, m, b);
    }
  }

  // Rebuilding a sound state reproduces its lists and its book.
  lemma RebuildIsIdentity(s: State, active': ActiveLists, bids: Book, asks: Book, bids': Book, asks': Book)
    requires Inv(s) && BookAgrees(bids, asks, s.orders, s.active)
    requires RebuiltUpTo(s, active', bids', asks', |s.marketList|)
    ensures SameLists(s.active, active') && SameBook(bids, bids') && SameBook(asks, asks')
    ensures Inv(s.(active := active')) && BookAgrees(bids', asks', s.orders, active')
  {
    forall m: u32
      ensures ActiveOf(active', m) == ActiveOf(s.active, m)
      ensures SideOf(bids', m) == SideOf(bids, m) && SideOf(asks', m) == SideOf(asks, m)
    {
      assert Progress(s, active', bids', asks', |s.marketList|, m);
      RebuildIsIdentityAt(s, active', bids, asks, bids', asks', m);
    }
    hide Inv, BookAgrees, RebuiltUpTo;
    SameListsInv(s, active');
    SameBookAgrees(bids, asks, bids', asks', s.orders, s.active, active');
  }
}
