// The event log: kept in memory with index lists, and in a byte-keyed database queried by prefix scans.
module EventStore {
  import opened Types
  import opened ByteKeys
  import Sorting

  datatype DomainEvent = DomainEvent(height: u64, tx: Hash, index: u32, payload: nat)

  // ---------------------------------------------------------------------------
  // What the queries mean
  // ---------------------------------------------------------------------------

  function ByHeight(log: seq<DomainEvent>, height: u64): (r: seq<DomainEvent>)
    ensures forall e :: e in r <==> e in log && e.height == height
  {
    if log == [] then []
    else
      var rest, e := ByHeight(log[..|log| - 1], height), log[|log| - 1];
      if e.height == height then rest + [e] else rest
  }

  function ByTx(log: seq<DomainEvent>, tx: Hash): (r: seq<DomainEvent>)
    ensures forall e :: e in r <==> e in log && e.tx == tx
  {
    if log == [] then []
    else
      var rest, e := ByTx(log[..|log| - 1], tx), log[|log| - 1];
      if e.tx == tx then rest + [e] else rest
  }

  // The events of a range of blocks, block by block; `count` blocks from `from`.
  function ByRange(log: seq<DomainEvent>, from: u64, count: nat): (r: seq<DomainEvent>)
    requires from + count <= U64
  {
    if count == 0 then [] else ByRange(log, from, count - 1) + ByHeight(log, from + count - 1)
  }

  // The same events in log order.
  function InRange(log: seq<DomainEvent>, from: nat, count: nat): (r: seq<DomainEvent>) {
    if log == [] then []
    else
      var rest, e := InRange(log[..|log| - 1], from, count), log[|log| - 1];
      if from <= e.height < from + count then rest + [e] else rest
  }

  lemma {:induction false} InRangeSplit(log: seq<DomainEvent>, from: u64, count: nat)
    requires count > 0 && from + count <= U64
    ensures multiset(InRange(log, from, count))
            == multiset(InRange(log, from, count - 1)) + multiset(ByHeight(log, from + count - 1))
  {
    if log != [] {
      InRangeSplit(log[..|log| - 1], from, count);
    }
  }

  lemma {:induction false} InRangeNone(log: seq<DomainEvent>, from: nat)
    ensures InRange(log, from, 0) == []
  {
    if log != [] {
      InRangeNone(log[..|log| - 1], from);
    }
  }

  // Going block by block collects exactly the log's events of the range, each as often as it was logged.
  lemma {:induction false} RangeIsFilter(log: seq<DomainEvent>, from: u64, count: nat)
    requires from + count <= U64
    ensures multiset(ByRange(log, from, count)) == multiset(InRange(log, from, count))
  {
    if count == 0 {
      InRangeNone(log, from);
    } else {
      RangeIsFilter(log, from, count - 1);
      InRangeSplit(log, from, count);
    }
  }

  // ---------------------------------------------------------------------------
  // Repeated keys
  // ---------------------------------------------------------------------------

  predicate SameKey(e: DomainEvent, f: DomainEvent) {
    e.height == f.height && e.tx == f.tx && e.index == f.index
  }

  ghost predicate UniqueKeys(log: seq<DomainEvent>) {
    forall i, j :: 0 <= i < j < |log| ==> !SameKey(log[i], log[j])
  }

  ghost predicate UniqueIndices(es: seq<DomainEvent>) {
    forall i, j :: 0 <= i < j < |es| ==> es[i].index != es[j].index
  }

  function WithoutKey(log: seq<DomainEvent>, e: DomainEvent): (r: seq<DomainEvent>)
    ensures forall f :: f in r <==> f in log && !SameKey(f, e)
    ensures |r| <= |log| && (r == log <==> forall f :: f in log ==> !SameKey(f, e))
    ensures |r| == |log| ==> r == log
  {
    if log == [] then []
    else
      var rest, f := WithoutKey(log[..|log| - 1], e), log[|log| - 1];
      assert log == log[..|log| - 1] + [f];
      if SameKey(f, e) then rest else rest + [f]
  }

  // What is left of a log when an event replaces any earlier one with its key.
  function Kept(log: seq<DomainEvent>): (r: seq<DomainEvent>)
    ensures |r| <= |log| && forall e :: e in r ==> e in log
  {
    if log == [] then []
    else WithoutKey(Kept(log[..|log| - 1]), log[|log| - 1]) + [log[|log| - 1]]
  }

  lemma KeptAppend(log: seq<DomainEvent>, e: DomainEvent)
    ensures Kept(log + [e]) == WithoutKey(Kept(log), e) + [e]
  {
    assert (log + [e])[..|log|] == log;
  }

  lemma UniqueAppend(log: seq<DomainEvent>, e: DomainEvent)
    ensures UniqueKeys(log + [e]) <==> UniqueKeys(log) && forall f :: f in log ==> !SameKey(f, e)
  {
    hide SameKey;
    var all := log + [e];
    if UniqueKeys(all) {
      assert forall i, j :: 0 <= i < j < |log| ==> log[i] == all[i] && log[j] == all[j];
      forall f | f in log ensures !SameKey(f, e) {
        var i :| 0 <= i < |log| && log[i] == f;
        assert all[i] == f && all[|log|] == e;
      }
    }
  }

  lemma {:induction false} WithoutKeyUnique(log: seq<DomainEvent>, e: DomainEvent)
    requires UniqueKeys(log)
    ensures UniqueKeys(WithoutKey(log, e))
  {
    hide SameKey, UniqueKeys;
    if log != [] {
      var init, last := log[..|log| - 1], log[|log| - 1];
      assert log == init + [last];
      UniqueAppend(init, last);
      WithoutKeyUnique(init, e);
      UniqueAppend(WithoutKey(init, e), last);
    }
  }

  lemma {:induction false} KeptUnique(log: seq<DomainEvent>)
    ensures UniqueKeys(Kept(log))
  {
    hide SameKey;
    if log != [] {
      var init, last := log[..|log| - 1], log[|log| - 1];
      KeptUnique(init);
      WithoutKeyUnique(Kept(init), last);
      UniqueAppend(WithoutKey(Kept(init), last), last);
    }
  }

  // Logged, and nothing with its key after it.
  ghost predicate Newest(log: seq<DomainEvent>, e: DomainEvent) {
    exists i :: 0 <= i < |log| && log[i] == e && forall j :: i < j < |log| ==> !SameKey(log[j], e)
  }

  lemma NewestAppend(log: seq<DomainEvent>, x: DomainEvent, e: DomainEvent)
    ensures Newest(log + [x], e) <==> e == x || (Newest(log, e) && !SameKey(x, e))
  {
    hide SameKey;
    var all := log + [x];
    assert all[|log|] == x;
    if Newest(log, e) && !SameKey(x, e) {
      var i :| 0 <= i < |log| && log[i] == e && forall j :: i < j < |log| ==> !SameKey(log[j], e);
      assert all[i] == e && forall j :: i < j < |all| ==> !SameKey(all[j], e);
    }
    if e != x && Newest(all, e) {
      var i :| 0 <= i < |all| && all[i] == e && forall j :: i < j < |all| ==> !SameKey(all[j], e);
      assert !SameKey(all[|log|], e);
      assert log[i] == e && forall j :: i < j < |log| ==> log[j] == all[j];
    }
  }

  // What is kept is exactly the newest event of every key.
  lemma {:induction false} KeptIsNewest(log: seq<DomainEvent>, e: DomainEvent)
    ensures e in Kept(log) <==> Newest(log, e)
    ensures e in log ==> exists f :: f in Kept(log) && SameKey(e, f)
  {
    hide Newest;
    if log == [] {
      assert Newest([], e) ==> false by { NothingNewest(e); }
    } else {
      var init, last := log[..|log| - 1], log[|log| - 1];
      assert log == init + [last];
      KeptIsNewest(init, e);
      NewestAppend(init, last, e);
      if e in init && !SameKey(e, last) {
        var f :| f in Kept(init) && SameKey(e, f);
        assert f in Kept(log);
      }
    }
  }

  lemma NothingNewest(e: DomainEvent)
    ensures !Newest([], e)
  {
  }

  // A log keeps everything exactly when no key repeats.
  lemma {:induction false} KeptExactly(log: seq<DomainEvent>)
    ensures UniqueKeys(log) ==> Kept(log) == log
    ensures !UniqueKeys(log) ==> |Kept(log)| < |log|
  {
    hide SameKey, UniqueKeys, WithoutKey;
    if log == [] {
      NoKeys();
    } else {
      var init, last := log[..|log| - 1], log[|log| - 1];
      assert log == init + [last];
      KeptExactly(init);
      UniqueAppend(init, last);
    }
  }

  lemma NoKeys()
    ensures UniqueKeys([])
  {
  }

  lemma {:induction false} WithoutInRange(log: seq<DomainEvent>, e: DomainEvent, from: nat, count: nat)
    ensures InRange(WithoutKey(log, e), from, count) == WithoutKey(InRange(log, from, count), e)
  {
    if log != [] {
      var init, last := log[..|log| - 1], log[|log| - 1];
      WithoutInRange(init, e, from, count);
      InRangeAppend(WithoutKey(init, e), last, from, count);
      WithoutAppend(InRange(init, from, count), last, e);
    }
  }

  lemma InRangeAppend(log: seq<DomainEvent>, e: DomainEvent, from: nat, count: nat)
    ensures InRange(log + [e], from, count)
            == InRange(log, from, count) + (if from <= e.height < from + count then [e] else [])
  {
    assert (log + [e])[..|log|] == log;
  }

  lemma WithoutAppend(log: seq<DomainEvent>, f: DomainEvent, e: DomainEvent)
    ensures WithoutKey(log + [f], e) == WithoutKey(log, e) + (if SameKey(f, e) then [] else [f])
  {
    assert (log + [f])[..|log|] == log;
  }

  lemma {:induction false} InRangeHeights(log: seq<DomainEvent>, from: nat, count: nat)
    ensures forall e :: e in InRange(log, from, count) ==> from <= e.height < from + count
  {
    if log != [] {
      InRangeHeights(log[..|log| - 1], from, count);
    }
  }

  lemma {:induction false} KeptInRange(log: seq<DomainEvent>, from: nat, count: nat)
    ensures InRange(Kept(log), from, count) == Kept(InRange(log, from, count))
  {
    if log != [] {
      var init, last := log[..|log| - 1], log[|log| - 1];
      KeptInRange(init, from, count);
      InRangeAppend(WithoutKey(Kept(init), last), last, from, count);
      WithoutInRange(Kept(init), last, from, count);
      KeptAppend(InRange(init, from, count), last);
      InRangeHeights(Kept(init), from, count);
    }
  }

  // Replacing loses nothing from a range of blocks exactly when no key repeats there.
  lemma RangeKeptExactly(log: seq<DomainEvent>, from: u64, count: nat)
    requires from + count <= U64
    ensures multiset(ByRange(Kept(log), from, count)) == multiset(ByRange(log, from, count))
            <==> UniqueKeys(InRange(log, from, count))
  {
    hide Kept, InRange, ByRange;
    var range := InRange(log, from, count);
    RangeIsFilter(log, from, count);
    RangeIsFilter(Kept(log), from, count);
    KeptInRange(log, from, count);
    KeptExactly(range);
    assert |multiset(Kept(range))| == |Kept(range)| && |multiset(range)| == |range|;
  }

  lemma {:induction false} RangeHeights(log: seq<DomainEvent>, from: u64, count: nat)
    requires from + count <= U64
    ensures forall e :: e in ByRange(log, from, count) ==> from <= e.height < from + count
  {
    if count > 0 {
      RangeHeights(log, from, count - 1);
    }
  }

  // The range comes block by block, lower heights first; within a block it comes in log order.
  lemma {:induction false} RangeAscends(log: seq<DomainEvent>, from: u64, count: nat)
    requires from + count <= U64
    ensures Ascends(ByRange(log, from, count))
    ensures forall h: u64 :: from <= h < from + count ==> ByHeight(ByRange(log, from, count), h) == ByHeight(log, h)
  {
    hide ByHeight, Ascends;
    if count > 0 {
      var init: seq<DomainEvent> := ByRange(log, from, count - 1);
      var last: seq<DomainEvent> := ByHeight(log, from + count - 1);
      RangeAscends(log, from, count - 1);
      RangeHeights(log, from, count - 1);
      JoinAscends(init, last, from + count - 1);
      forall h: u64 | from <= h < from + count ensures ByHeight(init + last, h) == ByHeight(log, h) {
        ByHeightConcat(init, last, h);
        ByHeightAll(last, from + count - 1, h);
        if h == from + count - 1 {
          ByHeightNone(init, h);
        }
      }
    } else {
      assert Ascends([]) by { JoinNothing(); }
    }
  }

  ghost predicate Ascends(es: seq<DomainEvent>) {
    forall i, j :: 0 <= i < j < |es| ==> es[i].height <= es[j].height
  }

  lemma JoinNothing()
    ensures Ascends([])
  {
  }

  lemma JoinAscends(a: seq<DomainEvent>, b: seq<DomainEvent>, height: u64)
    requires Ascends(a) && (forall e :: e in a ==> e.height <= height) && forall e :: e in b ==> e.height == height
    ensures Ascends(a + b)
  {
    var es := a + b;
    forall i, j | 0 <= i < j < |es| ensures es[i].height <= es[j].height {
      if j < |a| {
        assert es[i] == a[i] && es[j] == a[j];
      } else {
        assert es[j] in b && (i < |a| ==> es[i] in a) && (i >= |a| ==> es[i] in b);
      }
    }
  }

  lemma {:induction false} ByHeightConcat(a: seq<DomainEvent>, b: seq<DomainEvent>, height: u64)
    ensures ByHeight(a + b, height) == ByHeight(a, height) + ByHeight(b, height)
  {
    if b == [] {
      assert a + b == a;
    } else {
      assert (a + b)[..|a + b| - 1] == a + b[..|b| - 1];
      ByHeightConcat(a, b[..|b| - 1], height);
    }
  }

  // A list of one block's events holds all of that block and nothing of another.
  lemma {:induction false} ByHeightAll(es: seq<DomainEvent>, own: u64, height: u64)
    requires forall e :: e in es ==> e.height == own
    ensures ByHeight(es, height) == if own == height then es else []
  {
    if es != [] {
      ByHeightAll(es[..|es| - 1], own, height);
    }
  }

  lemma {:induction false} ByHeightNone(es: seq<DomainEvent>, height: u64)
    requires forall e :: e in es ==> e.height != height
    ensures ByHeight(es, height) == []
  {
    if es != [] {
      ByHeightNone(es[..|es| - 1], height);
    }
  }

  // Two listings without repeats of the same events are the same multiset.
  lemma SameListing(a: seq<DomainEvent>, b: seq<DomainEvent>)
    requires Sorting.Distinct(a) && Sorting.Distinct(b) && forall e :: e in a <==> e in b
    ensures multiset(a) == multiset(b)
  {
    forall e ensures multiset(a)[e] == multiset(b)[e] {
      Sorting.CountOnce(a, e);
      Sorting.CountOnce(b, e);
    }
  }

  lemma {:induction false} ByHeightNoRepeats(log: seq<DomainEvent>, height: u64)
    requires Sorting.Distinct(log)
    ensures Sorting.Distinct(ByHeight(log, height))
  {
    if log != [] {
      ByHeightNoRepeats(log[..|log| - 1], height);
    }
  }

  // ---------------------------------------------------------------------------
  // In memory
  // ---------------------------------------------------------------------------

  predicate Within(indices: seq<nat>, n: nat) {
    forall j :: 0 <= j < |indices| ==> indices[j] < n
  }

  function EventsAt(events: seq<DomainEvent>, indices: seq<nat>): (r: seq<DomainEvent>)
    requires Within(indices, |events|)
  {
    if indices == [] then [] else EventsAt(events, indices[..|indices| - 1]) + [events[indices[|indices| - 1]]]
  }

  lemma {:induction false} EventsAtGrows(events: seq<DomainEvent>, e: DomainEvent, indices: seq<nat>)
    requires Within(indices, |events|)
    ensures EventsAt(events + [e], indices) == EventsAt(events, indices)
    ensures EventsAt(events + [e], indices + [|events|]) == EventsAt(events, indices) + [e]
  {
    if indices != [] {
      EventsAtGrows(events, e, indices[..|indices| - 1]);
    }
    assert (indices + [|events|])[..|indices|] == indices;
  }

  lemma FilterAppend(log: seq<DomainEvent>, e: DomainEvent, tx: Hash, height: u64)
    ensures ByTx(log + [e], tx) == ByTx(log, tx) + (if e.tx == tx then [e] else [])
    ensures ByHeight(log + [e], height) == ByHeight(log, height) + (if e.height == height then [e] else [])
  {
    assert (log + [e])[..|log|] == log;
  }

  // An index list that follows the log: unchanged when the new event is not its own, one longer when it is.
  lemma IndexGrows(events: seq<DomainEvent>, e: DomainEvent, indices: seq<nat>, matches: bool)
    requires Within(indices, |events|)
    ensures var indices' := if matches then indices + [|events|] else indices;
            && Within(indices', |events + [e]|)
            && EventsAt(events + [e], indices') == EventsAt(events, indices) + (if matches then [e] else [])
  {
    EventsAtGrows(events, e, indices);
    assert EventsAt(events, indices) + [] == EventsAt(events, indices);
  }

  class InMemoryEventStore {
    var events: seq<DomainEvent>
    var byTx: map<Hash, seq<nat>>
    var byBlock: map<u64, seq<nat>>

    function TxIndices(tx: Hash): (r: seq<nat>) reads this { if tx in byTx then byTx[tx] else [] }
    function BlockIndices(height: u64): (r: seq<nat>) reads this { if height in byBlock then byBlock[height] else [] }

    // Following an index list gives exactly the matching events, in log order.
    ghost predicate Valid()
      reads this
    {
      && (forall tx: Hash :: Within(TxIndices(tx), |events|) && EventsAt(events, TxIndices(tx)) == ByTx(events, tx))
      && (forall h: u64 ::
            Within(BlockIndices(h), |events|) && EventsAt(events, BlockIndices(h)) == ByHeight(events, h))
    }

    constructor ()
      ensures Valid() && events == []
    {
      events, byTx, byBlock := [], map[], map[];
    }

    method AppendOne(event: DomainEvent)
      requires Valid()
      modifies this
      ensures Valid() && events == old(events) + [event]
    {
      hide EventsAt, ByTx, ByHeight, Within;
      var idx := |events|;
      byTx := byTx[event.tx := TxIndices(event.tx) + [idx]];
      byBlock := byBlock[event.height := BlockIndices(event.height) + [idx]];
      events := events + [event];
      forall tx: Hash
        ensures Within(TxIndices(tx), |events|) && EventsAt(events, TxIndices(tx)) == ByTx(events, tx)
      {
        IndexGrows(old(events), event, old(TxIndices(tx)), tx == event.tx);
        FilterAppend(old(events), event, tx, 0);
      }
      forall h: u64
        ensures Within(BlockIndices(h), |events|) && EventsAt(events, BlockIndices(h)) == ByHeight(events, h)
      {
        IndexGrows(old(events), event, old(BlockIndices(h)), h == event.height);
        FilterAppend(old(events), event, event.tx, h);
      }
    }

    method Append(more: seq<DomainEvent>)
      requires Valid()
      modifies this
      ensures Valid() && events == old(events) + more
    {
      var i := 0;
      while i < |more|
        invariant 0 <= i <= |more| && Valid() && events == old(events) + more[..i]
      {
        AppendOne(more[i]);
        i := i + 1;
      }
    }

    method Collect(indices: seq<nat>) returns (r: seq<DomainEvent>)
      requires Within(indices, |events|)
      ensures r == EventsAt(events, indices)
    {
      r := [];
      var i := 0;
      while i < |indices|
        invariant 0 <= i <= |indices| && r == EventsAt(events, indices[..i])
      {
        assert indices[..i + 1][..i] == indices[..i];
        r := r + [events[indices[i]]];
        i := i + 1;
      }
      assert indices[..|indices|] == indices;
    }

    method GetByBlockRange(from: u64, to: u64) returns (r: seq<DomainEvent>)
      requires Valid()
      ensures r == if from <= to then ByRange(events, from, to - from + 1) else []
    {
      hide EventsAt, ByHeight, ByTx, Within;
      r := [];
      var count, total := 0, if from <= to then to - from + 1 else 0;
      while count < total
        invariant 0 <= count <= total && r == ByRange(events, from, count)
      {
        var found := Collect(BlockIndices(from + count));
        r := r + found;
        count := count + 1;
      }
    }

    method GetByTx(tx: Hash) returns (r: seq<DomainEvent>)
      requires Valid()
      ensures r == ByTx(events, tx)
    {
      r := Collect(TxIndices(tx));
    }
  }

  // ---------------------------------------------------------------------------
  // In the database
  // ---------------------------------------------------------------------------

  datatype Entry = Stored(event: DomainEvent) | Marker | Count(n: nat)

  type Db = map<Bytes, Entry>

  function EventKeyOf(e: DomainEvent): (r: EventKey) { Event(e.height, e.tx, e.index) }
  function BlockKeyOf(e: DomainEvent): (r: EventKey) { BlockIndex(e.height, e.tx, e.index) }
  function TxKeyOf(e: DomainEvent): (r: EventKey) { TxIndex(e.tx, e.index) }

  function CountOf(db: Db): (r: nat) {
    var k := Encode(MetaCount);
    if k in db && db[k].Count? then db[k].n else 0
  }

  // An event's three entries.
  ghost predicate Filed(db: Db, e: DomainEvent) {
    && Encode(EventKeyOf(e)) in db && db[Encode(EventKeyOf(e))] == Stored(e)
    && Encode(BlockKeyOf(e)) in db && Encode(TxKeyOf(e)) in db
  }

  // Where a key of the database comes from.
  ghost predicate Explained(log: seq<DomainEvent>, b: Bytes) {
    b == Encode(MetaCount) ||
    exists e :: e in log && (b == Encode(EventKeyOf(e)) || b == Encode(BlockKeyOf(e)) || b == Encode(TxKeyOf(e)))
  }

  // The database holds the entries of every logged event and no others.
  ghost predicate Holds(db: Db, log: seq<DomainEvent>) {
    && (forall e :: e in log ==> Filed(db, e))
    && (forall b :: b in db ==> Explained(log, b))
  }

  function PutEvent(db: Db, e: DomainEvent): (r: Db) {
    db[Encode(EventKeyOf(e)) := Stored(e)][Encode(BlockKeyOf(e)) := Marker][Encode(TxKeyOf(e)) := Marker]
  }

  lemma EncodeInjective(j: EventKey, k: EventKey)
    requires Encode(j) == Encode(k)
    ensures j == k
  {
    KeyRoundTrip(j);
    KeyRoundTrip(k);
  }

  lemma PutKeepsFiled(db: Db, e: DomainEvent, f: DomainEvent)
    requires Filed(db, f) && !SameKey(f, e)
    ensures Filed(PutEvent(db, e), f)
  {
    hide Encode;
    var k := EventKeyOf(f);
    if Encode(k) == Encode(EventKeyOf(e)) {
      EncodeInjective(k, EventKeyOf(e));
    }
    if Encode(k) == Encode(BlockKeyOf(e)) {
      EncodeInjective(k, BlockKeyOf(e));
    }
    if Encode(k) == Encode(TxKeyOf(e)) {
      EncodeInjective(k, TxKeyOf(e));
    }
  }

  // One more event: the database holds what is kept of the log with it.
  lemma PutHolds(db: Db, log: seq<DomainEvent>, e: DomainEvent)
    requires Holds(db, Kept(log))
    ensures Holds(PutEvent(db, e), Kept(log + [e]))
  {
    hide Encode, Kept;
    var db', kept := PutEvent(db, e), Kept(log + [e]);
    KeptAppend(log, e);
    forall f | f in kept ensures Filed(db', f) {
      if f == e {
        NewlyFiled(db, e);
      } else {
        PutKeepsFiled(db, e, f);
      }
    }
    forall b | b in db' ensures Explained(kept, b) {
      assert e in kept;
      if b in db && b != Encode(MetaCount) {
        assert Explained(Kept(log), b);
        var f :| f in Kept(log) &&
                 (b == Encode(EventKeyOf(f)) || b == Encode(BlockKeyOf(f)) || b == Encode(TxKeyOf(f)));
        assert f in kept || SameKey(f, e);
      }
    }
  }

  lemma NewlyFiled(db: Db, e: DomainEvent)
    ensures Filed(PutEvent(db, e), e)
  {
    hide Encode;
    if Encode(EventKeyOf(e)) == Encode(BlockKeyOf(e)) {
      EncodeInjective(EventKeyOf(e), BlockKeyOf(e));
    }
    if Encode(EventKeyOf(e)) == Encode(TxKeyOf(e)) {
      EncodeInjective(EventKeyOf(e), TxKeyOf(e));
    }
  }

  lemma PutKeepsCount(db: Db, e: DomainEvent)
    ensures CountOf(PutEvent(db, e)) == CountOf(db)
  {
    var m := Encode(MetaCount);
    assert m[0] == 3;
    assert Encode(EventKeyOf(e))[0] == 0 && Encode(BlockKeyOf(e))[0] == 1 && Encode(TxKeyOf(e))[0] == 2;
  }

  lemma CountKeepsHolds(db: Db, log: seq<DomainEvent>, n: nat)
    requires Holds(db, log)
    ensures Holds(db[Encode(MetaCount) := Count(n)], log) && CountOf(db[Encode(MetaCount) := Count(n)]) == n
  {
    var db' := db[Encode(MetaCount) := Count(n)];
    assert Encode(MetaCount)[0] == 3;
    forall e | e in log ensures Filed(db', e) {
      assert Filed(db, e);
      assert Encode(EventKeyOf(e))[0] == 0 && Encode(BlockKeyOf(e))[0] == 1 && Encode(TxKeyOf(e))[0] == 2;
    }
    forall b | b in db' ensures Explained(log, b) {
      assert b in db ==> Explained(log, b);
    }
  }

  // A key of the database that carries the block prefix is the block entry of a logged event of that block.
  lemma BlockEntry(db: Db, log: seq<DomainEvent>, b: Bytes, height: u64)
    requires Holds(db, log) && b in db
    ensures Decode(b).Some?
    ensures PrefixForBlock(height) <= b <==> Decode(b).value.BlockIndex? && Decode(b).value.height == height
    ensures PrefixForBlock(height) <= b ==>
            exists e :: e in log && e.height == height && Decode(b).value == BlockKeyOf(e)
  {
    hide Encode, Decode, PrefixForBlock;
    var k := KeyFrom(db, log, b);
    KeyRoundTrip(k);
    PrefixSelects(k, height, seq(32, _ => 0));
  }

  lemma TxEntry(db: Db, log: seq<DomainEvent>, b: Bytes, tx: Hash)
    requires Holds(db, log) && b in db
    ensures Decode(b).Some?
    ensures PrefixForTx(tx) <= b <==> Decode(b).value.TxIndex? && Decode(b).value.tx == tx
    ensures PrefixForTx(tx) <= b ==> exists e :: e in log && e.tx == tx && Decode(b).value == TxKeyOf(e)
    ensures Decode(b).value.Event? ==> exists e :: e in log && Decode(b).value == EventKeyOf(e) && db[b] == Stored(e)
  {
    hide Encode, Decode, PrefixForTx;
    var k := KeyFrom(db, log, b);
    KeyRoundTrip(k);
    PrefixSelects(k, 0, tx);
  }

  // The decoded form of a stored key.
  lemma KeyFrom(db: Db, log: seq<DomainEvent>, b: Bytes) returns (k: EventKey)
    requires Holds(db, log) && b in db
    ensures Encode(k) == b
    ensures k == MetaCount || exists e :: e in log && (k == EventKeyOf(e) || k == BlockKeyOf(e) || k == TxKeyOf(e))
    ensures k.Event? ==> exists e :: e in log && k == EventKeyOf(e) && db[b] == Stored(e)
  {
    hide Encode;
    assert Explained(log, b);
    if b == Encode(MetaCount) {
      return MetaCount;
    }
    var e :| e in log && (b == Encode(EventKeyOf(e)) || b == Encode(BlockKeyOf(e)) || b == Encode(TxKeyOf(e)));
    assert Filed(db, e);
    k := if b == Encode(EventKeyOf(e)) then EventKeyOf(e)
         else if b == Encode(BlockKeyOf(e)) then BlockKeyOf(e)
         else TxKeyOf(e);
  }

  // Position of the first key at or after the prefix.
  method Seek(keys: seq<Bytes>, prefix: Bytes) returns (start: nat)
    ensures start <= |keys| && (start < |keys| ==> !Less(keys[start], prefix))
    ensures forall j :: 0 <= j < start ==> Less(keys[j], prefix)
  {
    start := 0;
    while start < |keys| && Less(keys[start], prefix)
      invariant start <= |keys| && forall j :: 0 <= j < start ==> Less(keys[j], prefix)
    {
      start := start + 1;
    }
  }

  lemma UniqueNoRepeats(log: seq<DomainEvent>)
    requires UniqueKeys(log)
    ensures Sorting.Distinct(log)
  {
  }

  predicate EarlierIndex(a: DomainEvent, b: DomainEvent) {
    a.index < b.index
  }

  // Stable sort by event index.
  function SortByIndex(es: seq<DomainEvent>): (r: seq<DomainEvent>) {
    Sorting.Sort(EarlierIndex, es)
  }

  ghost predicate IndexOrder(es: seq<DomainEvent>) {
    forall i, j :: 0 <= i < j < |es| ==> es[i].index < es[j].index
  }

  lemma SortIndexOrder(es: seq<DomainEvent>)
    requires UniqueIndices(es)
    ensures IndexOrder(SortByIndex(es)) && forall e :: e in SortByIndex(es) <==> e in es
  {
    hide Sorting.Sort;
    var r := SortByIndex(es);
    Sorting.SortOrdered(EarlierIndex, es);
    Sorting.SameMembers(r, es);
    Sorting.DistinctKept(es, r);
    forall i, j | 0 <= i < j < |r| ensures r[i].index != r[j].index {
      assert r[i] in r && r[j] in r;
      var a :| 0 <= a < |es| && es[a] == r[i];
      var b :| 0 <= b < |es| && es[b] == r[j];
    }
  }

  lemma SameEvent(log: seq<DomainEvent>, e: DomainEvent, f: DomainEvent)
    requires UniqueKeys(log) && e in log && f in log && SameKey(e, f)
    ensures e == f
  {
    var i :| 0 <= i < |log| && log[i] == e;
    var j :| 0 <= j < |log| && log[j] == f;
  }

  lemma EntryKey(db: Db, log: seq<DomainEvent>, b: Bytes, k: EventKey)
    requires Holds(db, log) && b in db && Decode(b) == Some(k)
    ensures b == Encode(k)
  {
    hide Encode, Decode;
    var j := KeyFrom(db, log, b);
    KeyRoundTrip(j);
  }

  // The entry at hand in a block scan: whose it is, and that its event is there to fetch.
  lemma BlockStep(db: Db, log: seq<DomainEvent>, b: Bytes, height: u64) returns (e: DomainEvent)
    requires Holds(db, log) && b in db && PrefixForBlock(height) <= b
    ensures e in log && e.height == height && Decode(b) == Some(BlockKeyOf(e)) && b == Encode(BlockKeyOf(e))
    ensures Encode(EventKeyOf(e)) in db && db[Encode(EventKeyOf(e))] == Stored(e)
  {
    hide Encode, Decode, PrefixForBlock;
    BlockEntry(db, log, b, height);
    e :| e in log && e.height == height && Decode(b).value == BlockKeyOf(e);
    assert Filed(db, e);
    EntryKey(db, log, b, BlockKeyOf(e));
  }

  lemma TxStep(db: Db, log: seq<DomainEvent>, b: Bytes, tx: Hash) returns (e: DomainEvent)
    requires Holds(db, log) && b in db && PrefixForTx(tx) <= b
    ensures e in log && e.tx == tx && Decode(b) == Some(TxKeyOf(e)) && b == Encode(TxKeyOf(e))
  {
    hide Encode, Decode, PrefixForTx;
    TxEntry(db, log, b, tx);
    e :| e in log && e.tx == tx && Decode(b).value == TxKeyOf(e);
    EntryKey(db, log, b, TxKeyOf(e));
  }

  // Events collected one per key, from position `start`.
  ghost predicate BlockScanned(keys: seq<Bytes>, start: nat, r: seq<DomainEvent>, log: seq<DomainEvent>, height: u64) {
    start + |r| <= |keys| &&
    forall a :: 0 <= a < |r| ==> r[a] in log && r[a].height == height && keys[start + a] == Encode(BlockKeyOf(r[a]))
  }

  ghost predicate TxScanned(keys: seq<Bytes>, start: nat, r: seq<DomainEvent>, log: seq<DomainEvent>, tx: Hash) {
    start + |r| <= |keys| &&
    forall a :: 0 <= a < |r| ==>
      r[a] in log && r[a].tx == tx && FirstWithIndex(log, r[a]) && keys[start + a] == Encode(TxKeyOf(r[a]))
  }

  // A scan from its seek position to the first key without the prefix.
  ghost predicate ScanBounds(keys: seq<Bytes>, prefix: Bytes, start: nat, stop: nat) {
    && start <= stop <= |keys|
    && (forall j :: 0 <= j < start ==> Less(keys[j], prefix))
    && (start < |keys| ==> !Less(keys[start], prefix))
    && (stop < |keys| ==> !(prefix <= keys[stop]))
  }

  lemma IndexBytes(db: Db, log: seq<DomainEvent>, e: DomainEvent)
    requires Holds(db, log) && e in log
    ensures Encode(BlockKeyOf(e)) in db && Encode(TxKeyOf(e)) in db
  {
    hide Encode;
    assert Filed(db, e);
  }

  lemma BlockFound(db: Db, log: seq<DomainEvent>, keys: seq<Bytes>, height: u64, start: nat, r: seq<DomainEvent>,
                   e: DomainEvent)
    requires Holds(db, log) && UniqueKeys(log) && Iterates(keys, db.Keys)
    requires ScanBounds(keys, PrefixForBlock(height), start, start + |r|) && BlockScanned(keys, start, r, log, height)
    requires e in log && e.height == height
    ensures e in r
  {
    hide Encode, PrefixForBlock, Less, UniqueKeys, Holds, Ascending, Iterates, ByHeight;
    var b: Bytes := Encode(BlockKeyOf(e));
    IndexBytes(db, log, e);
    PrefixSelects(BlockKeyOf(e), height, e.tx);
    var j := ScanSeesPrefix(keys, db.Keys, PrefixForBlock(height), start, start + |r|, b);
    var a := j - start;
    assert keys[start + a] == Encode(BlockKeyOf(r[a]));
    EncodeInjective(BlockKeyOf(e), BlockKeyOf(r[a]));
    SameEvent(log, e, r[a]);
  }

  // What a block scan collected is exactly the block, each event once.
  lemma BlockComplete(db: Db, log: seq<DomainEvent>, keys: seq<Bytes>, height: u64, start: nat, r: seq<DomainEvent>)
    requires Holds(db, log) && UniqueKeys(log) && Iterates(keys, db.Keys)
    requires ScanBounds(keys, PrefixForBlock(height), start, start + |r|) && BlockScanned(keys, start, r, log, height)
    ensures multiset(r) == multiset(ByHeight(log, height))
  {
    hide Encode, PrefixForBlock, Less, UniqueKeys, ScanBounds, Holds;
    forall a, b | 0 <= a < b < |r| ensures r[a] != r[b] {
      assert keys[start + a] == Encode(BlockKeyOf(r[a])) && keys[start + b] == Encode(BlockKeyOf(r[b]));
      LessTotal(keys[start + a], keys[start + b]);
    }
    forall e ensures e in r <==> e in ByHeight(log, height) {
      if e in log && e.height == height {
        BlockFound(db, log, keys, height, start, r, e);
      }
    }
    UniqueNoRepeats(log);
    ByHeightNoRepeats(log, height);
    SameListing(r, ByHeight(log, height));
  }

  // The event a search for a transaction's index finds: of those with it, the first in byte order.
  ghost predicate FirstWithIndex(log: seq<DomainEvent>, e: DomainEvent) {
    forall f :: f in log && f.tx == e.tx && f.index == e.index ==>
      !Less(Encode(EventKeyOf(f)), Encode(EventKeyOf(e)))
  }

  lemma TxFound(db: Db, log: seq<DomainEvent>, keys: seq<Bytes>, tx: Hash, start: nat, r: seq<DomainEvent>,
                e: DomainEvent)
    requires Holds(db, log) && Iterates(keys, db.Keys)
    requires ScanBounds(keys, PrefixForTx(tx), start, start + |r|) && TxScanned(keys, start, r, log, tx)
    requires e in log && e.tx == tx
    ensures exists f :: f in r && f.index == e.index
  {
    hide Encode, PrefixForTx, Less, Holds, Ascending, Iterates, FirstWithIndex;
    var b: Bytes := Encode(TxKeyOf(e));
    IndexBytes(db, log, e);
    PrefixSelects(TxKeyOf(e), e.height, tx);
    var j := ScanSeesPrefix(keys, db.Keys, PrefixForTx(tx), start, start + |r|, b);
    var a := j - start;
    assert keys[start + a] == Encode(TxKeyOf(r[a]));
    EncodeInjective(TxKeyOf(e), TxKeyOf(r[a]));
  }

  // One event for each index of the transaction, the first in byte order.
  ghost predicate OnePerIndex(log: seq<DomainEvent>, tx: Hash, r: seq<DomainEvent>) {
    && (forall e :: e in r ==> e in log && e.tx == tx && FirstWithIndex(log, e))
    && UniqueIndices(r)
    && forall e :: e in log && e.tx == tx ==> exists f :: f in r && f.index == e.index
  }

  // What a transaction scan collected.
  lemma TxComplete(db: Db, log: seq<DomainEvent>, keys: seq<Bytes>, tx: Hash, start: nat, r: seq<DomainEvent>)
    requires Holds(db, log) && Iterates(keys, db.Keys)
    requires ScanBounds(keys, PrefixForTx(tx), start, start + |r|) && TxScanned(keys, start, r, log, tx)
    ensures OnePerIndex(log, tx, r)
  {
    hide Encode, PrefixForTx, Less, ScanBounds, Holds, FirstWithIndex;
    forall a, b | 0 <= a < b < |r| ensures r[a].index != r[b].index {
      assert keys[start + a] == Encode(TxKeyOf(r[a])) && keys[start + b] == Encode(TxKeyOf(r[b]));
      LessTotal(keys[start + a], keys[start + b]);
    }
    forall e | e in log && e.tx == tx ensures exists f :: f in r && f.index == e.index {
      TxFound(db, log, keys, tx, start, r, e);
    }
  }

  // One event per index is all of the transaction's events exactly when no two logged ones share an index,
  // in whatever blocks they are.
  lemma TxKeptExactly(log: seq<DomainEvent>, tx: Hash, r: seq<DomainEvent>)
    requires OnePerIndex(Kept(log), tx, r)
    ensures multiset(r) == multiset(ByTx(log, tx)) <==> UniqueIndices(ByTx(log, tx))
  {
    hide Kept, ByTx, Less, Encode, FirstWithIndex;
    var all := ByTx(log, tx);
    forall e | e in r ensures e in all {
      assert e in Kept(log);
    }
    forall e | e in all ensures exists f :: f in r && f.index == e.index {
      KeptIsNewest(log, e);
    }
    if UniqueIndices(all) {
      SameIndices(r, all);
    }
    if multiset(r) == multiset(all) {
      IndicesKept(r, all);
    }
  }

  lemma SortedOnePerIndex(log: seq<DomainEvent>, tx: Hash, r: seq<DomainEvent>)
    requires OnePerIndex(log, tx, r)
    ensures OnePerIndex(log, tx, SortByIndex(r))
  {
    hide FirstWithIndex, SortByIndex;
    SortIndexOrder(r);
  }

  lemma SameIndices(r: seq<DomainEvent>, all: seq<DomainEvent>)
    requires UniqueIndices(r) && UniqueIndices(all)
    requires forall e :: e in r ==> e in all
    requires forall e :: e in all ==> exists f :: f in r && f.index == e.index
    ensures multiset(r) == multiset(all)
  {
    hide UniqueIndices, Sorting.Distinct;
    forall e | e in all ensures e in r {
      SameIndex(all, e, r);
    }
    IndicesApart(r);
    IndicesApart(all);
    SameListing(r, all);
  }

  lemma IndicesApart(es: seq<DomainEvent>)
    requires UniqueIndices(es)
    ensures Sorting.Distinct(es)
  {
  }

  lemma SameIndex(es: seq<DomainEvent>, e: DomainEvent, r: seq<DomainEvent>)
    requires UniqueIndices(es) && e in es && exists f :: f in r && f in es && f.index == e.index
    ensures e in r
  {
    var f :| f in r && f in es && f.index == e.index;
    var i :| 0 <= i < |es| && es[i] == e;
    var j :| 0 <= j < |es| && es[j] == f;
  }

  lemma IndicesKept(r: seq<DomainEvent>, all: seq<DomainEvent>)
    requires UniqueIndices(r) && multiset(r) == multiset(all)
    ensures UniqueIndices(all)
  {
    Sorting.DistinctKept(r, all);
    Sorting.SameMembers(r, all);
    forall i, j | 0 <= i < j < |all| ensures all[i].index != all[j].index {
      assert all[i] in r && all[j] in r;
      var a :| 0 <= a < |r| && r[a] == all[i];
      var b :| 0 <= b < |r| && r[b] == all[j];
    }
  }

  lemma EventBytes(db: Db, log: seq<DomainEvent>, e: DomainEvent) returns (b: Bytes)
    requires Holds(db, log) && e in log
    ensures b == Encode(EventKeyOf(e)) && b in db && Decode(b) == Some(EventKeyOf(e))
  {
    hide Encode, Decode;
    b := Encode(EventKeyOf(e));
    assert Filed(db, e);
    KeyRoundTrip(EventKeyOf(e));
  }

  // The entry a search stops at is that of a logged event.
  lemma FoundEvent(db: Db, log: seq<DomainEvent>, b: Bytes) returns (f: DomainEvent)
    requires Holds(db, log) && b in db && Decode(b).Some? && Decode(b).value.Event?
    ensures f in log && Decode(b).value == EventKeyOf(f) && db[b] == Stored(f) && b == Encode(EventKeyOf(f))
  {
    hide Encode, Decode;
    TxEntry(db, log, b, Decode(b).value.tx);
    f :| f in log && Decode(b).value == EventKeyOf(f) && db[b] == Stored(f);
    EntryKey(db, log, b, EventKeyOf(f));
  }

  // No logged event with this transaction and index comes earlier in byte order than the first entry that has
  // them.
  lemma NoneEarlier(db: Db, log: seq<DomainEvent>, keys: seq<Bytes>, start: nat, i: nat, e: DomainEvent)
    requires Holds(db, log) && Iterates(keys, db.Keys) && start <= i < |keys|
    requires forall j :: 0 <= j < start ==> Less(keys[j], EVENTS_PREFIX)
    requires e in log && keys[i] == Encode(EventKeyOf(e))
    requires forall j :: start <= j < i ==> !IsEvent(keys[j], e.tx, e.index)
    ensures FirstWithIndex(log, e)
  {
    hide Encode, Decode, Less, Holds;
    forall f | f in log && f.tx == e.tx && f.index == e.index
      ensures !Less(Encode(EventKeyOf(f)), Encode(EventKeyOf(e)))
    {
      var b := EventBytes(db, log, f);
      EventAfterPrefix(keys, start, b, f);
      var j :| start <= j < |keys| && keys[j] == b;
      assert i <= j;
      if i < j {
        assert Less(keys[i], keys[j]);
      }
      LessTotal(keys[i], keys[j]);
    }
  }

  predicate IsEvent(b: Bytes, tx: Hash, index: u32) {
    Decode(b).Some? && Decode(b).value.Event? && Decode(b).value.tx == tx && Decode(b).value.index == index
  }

  // The event entry of a logged event is at or after the events prefix.
  lemma EventAfterPrefix(keys: seq<Bytes>, start: nat, b: Bytes, e: DomainEvent)
    requires b == Encode(EventKeyOf(e)) && b in keys && start <= |keys|
    requires forall j :: 0 <= j < start ==> Less(keys[j], EVENTS_PREFIX)
    ensures exists j :: start <= j < |keys| && keys[j] == b
  {
    hide Encode, Less;
    PrefixSelects(EventKeyOf(e), e.height, e.tx);
    PrefixContiguous(EVENTS_PREFIX, b, b);
    var j :| 0 <= j < |keys| && keys[j] == b;
  }

  class RocksDbEventStore {
    var db: Db
    var writeBuffer: seq<DomainEvent>
    const bufferLimit: nat
    // everything flushed so far
    ghost var log: seq<DomainEvent>

    ghost predicate Valid()
      reads this
    {
      Holds(db, Kept(log)) && CountOf(db) == |log|
    }

    constructor (bufferLimit: nat)
      ensures Valid() && log == [] && writeBuffer == []
    {
      this.bufferLimit := bufferLimit;
      db, writeBuffer, log := map[], [], [];
    }

    // Move the buffer to the database in one batch.
    method Flush()
      requires Valid()
      modifies this
      ensures Valid() && writeBuffer == [] && log == old(log) + old(writeBuffer)
    {
      hide Kept, Holds, CountOf, PutEvent, Encode;
      if writeBuffer == [] {
        assert log + [] == log;
        return;
      }
      assert log + writeBuffer[..0] == log;
      var batch := db;
      var i := 0;
      while i < |writeBuffer|
        invariant 0 <= i <= |writeBuffer| && writeBuffer == old(writeBuffer) && db == old(db) && log == old(log)
        invariant Holds(batch, Kept(log + writeBuffer[..i])) && CountOf(batch) == CountOf(db)
      {
        assert log + writeBuffer[..i + 1] == log + writeBuffer[..i] + [writeBuffer[i]];
        PutHolds(batch, log + writeBuffer[..i], writeBuffer[i]);
        PutKeepsCount(batch, writeBuffer[i]);
        batch := PutEvent(batch, writeBuffer[i]);
        i := i + 1;
      }
      assert writeBuffer[..i] == writeBuffer;
      CountKeepsHolds(batch, Kept(log + writeBuffer), CountOf(db) + |writeBuffer|);
      db := batch[Encode(MetaCount) := Count(CountOf(db) + |writeBuffer|)];
      log := log + writeBuffer;
      writeBuffer := [];
      assert log + writeBuffer == log;
    }

    method Append(more: seq<DomainEvent>)
      requires Valid()
      modifies this
      ensures Valid() && log + writeBuffer == old(log) + old(writeBuffer) + more
      ensures |writeBuffer| < bufferLimit || (writeBuffer == [] && log == old(log) + old(writeBuffer) + more)
    {
      hide Holds, CountOf, Kept;
      writeBuffer := writeBuffer + more;
      assert log + writeBuffer == old(log) + old(writeBuffer) + more;
      if |writeBuffer| >= bufferLimit {
        Flush();
      }
    }

    method GetCount() returns (n: nat)
      requires Valid()
      ensures n == |log|
    {
      n := CountOf(db);
    }

    // One block: seek its index prefix, follow entries to the first key of another kind or block.
    method GetByBlock(height: u64) returns (r: seq<DomainEvent>)
      requires Valid()
      ensures multiset(r) == multiset(ByHeight(Kept(log), height))
    {
      hide Encode, Decode, PrefixForBlock, Less, Kept, Holds, Ascending, ByHeight, CountOf;
      ghost var kept := Kept(log);
      KeptUnique(log);
      var prefix := PrefixForBlock(height);
      var keys := Iterate(db.Keys);
      var start := Seek(keys, prefix);
      r := [];
      var i := start;
      while i < |keys|
        invariant start <= i <= |keys| && |r| == i - start && BlockScanned(keys, start, r, kept, height)
      {
        assert keys[i] in keys;
        BlockEntry(db, kept, keys[i], height);
        var k := Decode(keys[i]);
        if !(k.value.BlockIndex? && k.value.height == height) {
          break;
        }
        ghost var e := BlockStep(db, kept, keys[i], height);
        r := r + [db[Encode(Event(k.value.height, k.value.tx, k.value.index))].event];
        i := i + 1;
      }
      BlockComplete(db, kept, keys, height, start, r);
    }

    method GetByBlockRange(from: u64, to: u64) returns (r: seq<DomainEvent>)
      requires Valid()
      ensures multiset(r) == multiset(if from <= to then ByRange(Kept(log), from, to - from + 1) else [])
      ensures from <= to ==>
                (multiset(r) == multiset(ByRange(log, from, to - from + 1)) <==>
                 UniqueKeys(InRange(log, from, to - from + 1)))
    {
      hide UniqueKeys, InRange, Kept, Holds, ByHeight, CountOf;
      r := [];
      var count, total := 0, if from <= to then to - from + 1 else 0;
      while count < total
        invariant 0 <= count <= total && multiset(r) == multiset(ByRange(Kept(log), from, count))
      {
        var found := GetByBlock(from + count);
        r := r + found;
        count := count + 1;
      }
      if from <= to {
        RangeKeptExactly(log, from, to - from + 1);
      }
    }

    // Scan the event entries for the first with this transaction and index.
    method FindEvent(keys: seq<Bytes>, tx: Hash, index: u32, ghost e: DomainEvent) returns (r: DomainEvent)
      requires Valid() && Iterates(keys, db.Keys)
      requires e in Kept(log) && e.tx == tx && e.index == index
      ensures r in Kept(log) && r.tx == tx && r.index == index && FirstWithIndex(Kept(log), r)
    {
      hide Encode, Decode, Less, Kept, Holds, Ascending, CountOf, FirstWithIndex;
      ghost var b := EventBytes(db, Kept(log), e);
      var start := Seek(keys, EVENTS_PREFIX);
      EventAfterPrefix(keys, start, b, e);
      var i := start;
      while !IsEvent(keys[i], tx, index)
        invariant start <= i < |keys|
        invariant exists j :: i <= j < |keys| && keys[j] == b
        invariant forall j :: start <= j < i ==> !IsEvent(keys[j], tx, index)
        decreases |keys| - i
      {
        i := i + 1;
      }
      assert keys[i] in keys;
      ghost var f := FoundEvent(db, Kept(log), keys[i]);
      NoneEarlier(db, Kept(log), keys, start, i, f);
      r := db[keys[i]].event;
    }

    // One transaction: its index entries in byte order, an event found for each by scanning the event entries,
    // then sorted by event index.
    method GetByTx(tx: Hash) returns (r: seq<DomainEvent>)
      requires Valid()
      ensures OnePerIndex(Kept(log), tx, r) && IndexOrder(r)
      ensures multiset(r) == multiset(ByTx(log, tx)) <==> UniqueIndices(ByTx(log, tx))
    {
      hide Encode, Decode, PrefixForTx, Less, Kept, IndexOrder, Holds, Ascending, CountOf, SortByIndex,
           FirstWithIndex, ByTx;
      ghost var kept := Kept(log);
      var prefix := PrefixForTx(tx);
      var keys := Iterate(db.Keys);
      var start := Seek(keys, prefix);
      var found: seq<DomainEvent> := [];
      var i := start;
      while i < |keys|
        invariant start <= i <= |keys| && |found| == i - start && TxScanned(keys, start, found, kept, tx)
      {
        assert keys[i] in keys;
        TxEntry(db, kept, keys[i], tx);
        var k := Decode(keys[i]);
        if !(k.value.TxIndex? && k.value.tx == tx) {
          break;
        }
        ghost var e := TxStep(db, kept, keys[i], tx);
        var event := FindEvent(keys, k.value.tx, k.value.index, e);
        found := found + [event];
        i := i + 1;
      }
      TxComplete(db, kept, keys, tx, start, found);
      SortIndexOrder(found);
      r := SortByIndex(found);
      SortedOnePerIndex(kept, tx, found);
      TxKeptExactly(log, tx, r);
    }
  }
}
