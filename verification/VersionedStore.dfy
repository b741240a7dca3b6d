// The versioned key store: every committed value is kept under (key, version), and a latest-version record
// per key stands in for scanning versions backwards.
module VersionedStore {
  import opened Types

  type Key = nat
  type Value = string

  // One commit: a version and the buffered writes made durable under it.
  datatype Block = Block(version: nat, updates: map<Key, Value>)

  // Database entries: values by key and version, and the version each key was last written at.
  type Values = map<(Key, nat), Value>
  type Latest = map<Key, nat>

  // ---------------------------------------------------------------------------
  // The simple story: replaying the committed maps
  // ---------------------------------------------------------------------------

  function Replay(history: seq<Block>, v: nat): (r: map<Key, Value>) {
    if history == [] then map[]
    else
      var c := history[|history| - 1];
      var before := Replay(history[..|history| - 1], v);
      if c.version <= v then before + c.updates else before
  }

  function At(m: map<Key, Value>, k: Key): (r: Option<Value>) {
    if k in m then Some(m[k]) else None
  }

  ghost predicate Monotone(history: seq<Block>) {
    forall i, j :: 0 <= i < j < |history| ==> history[i].version <= history[j].version
  }

  // The last value written for the key at exactly this version.
  function WrittenAt(history: seq<Block>, k: Key, v: nat): (r: Option<Value>) {
    if history == [] then None
    else
      var c := history[|history| - 1];
      if c.version == v && k in c.updates then Some(c.updates[k]) else WrittenAt(history[..|history| - 1], k, v)
  }

  function LastWrite(history: seq<Block>, k: Key): (r: Option<nat>) {
    if history == [] then None
    else
      var c := history[|history| - 1];
      if k in c.updates then Some(c.version) else LastWrite(history[..|history| - 1], k)
  }

  function LastVersion(history: seq<Block>): (r: nat) {
    if history == [] then 0 else history[|history| - 1].version
  }

  // The version a read of the key at v is served from: the newest write at or before v.
  function Serving(history: seq<Block>, k: Key, v: nat): (r: Option<nat>)
    decreases v
  {
    if WrittenAt(history, k, v).Some? then Some(v)
    else if v == 0 then None else Serving(history, k, v - 1)
  }

  // ---------------------------------------------------------------------------
  // The database
  // ---------------------------------------------------------------------------

  function ValueAt(values: Values, k: Key, v: nat): (r: Option<Value>) {
    if (k, v) in values then Some(values[(k, v)]) else None
  }

  // The backward scan, and the version it stops at.
  function ScanVersion(values: Values, k: Key, v: nat): (r: Option<nat>)
    ensures r.Some? ==> r.value <= v && (k, r.value) in values
    decreases v
  {
    if (k, v) in values then Some(v) else if v == 0 then None else ScanVersion(values, k, v - 1)
  }

  // The version the database serves a read from, taking the shortcut when the key's last write is old enough.
  function ReadVersion(values: Values, latest: Latest, k: Key, v: nat): (r: Option<nat>)
    ensures r.Some? ==> (k, r.value) in values
  {
    if k in latest && latest[k] <= v then
      if (k, latest[k]) in values then Some(latest[k]) else None
    else ScanVersion(values, k, v)
  }

  function Read(values: Values, latest: Latest, k: Key, v: nat): (r: Option<Value>) {
    var w := ReadVersion(values, latest, k, v);
    if w.Some? then Some(values[(k, w.value)]) else None
  }

  // Versions a pruning below the cutoff leaves alone.
  predicate Snapshot(v: nat, interval: nat) {
    if interval == 0 then v == 0 else v % interval == 0
  }

  predicate Survives(v: nat, cutoff: nat, interval: nat) {
    v >= cutoff || Snapshot(v, interval)
  }

  // The database against the history: surviving writes are all there and nothing else is.
  ghost predicate Agrees(values: Values, latest: Latest, history: seq<Block>, cutoff: nat, interval: nat) {
    && (forall k: Key, v: nat ::
          ValueAt(values, k, v) == if Survives(v, cutoff, interval) then WrittenAt(history, k, v) else None)
    && (forall k: Key :: LastWrite(history, k) == if k in latest then Some(latest[k]) else None)
  }

  // ---------------------------------------------------------------------------
  // Facts about histories
  // ---------------------------------------------------------------------------

  lemma {:induction false} LastWriteNewest(history: seq<Block>, k: Key, v: nat)
    requires Monotone(history)
    ensures WrittenAt(history, k, v).Some? ==> LastWrite(history, k).Some? && v <= LastWrite(history, k).value
    ensures LastWrite(history, k).Some? ==>
              WrittenAt(history, k, LastWrite(history, k).value).Some? &&
                  LastWrite(history, k).value <= LastVersion(history)
  {
    if history != [] {
      var init := history[..|history| - 1];
      LastWriteNewest(init, k, v);
      if LastWrite(init, k).Some? && init != [] {
        assert init[|init| - 1].version <= history[|history| - 1].version;
      }
    }
  }

  lemma {:induction false} ServingIsNewest(history: seq<Block>, k: Key, v: nat, w: nat)
    ensures Serving(history, k, v).Some? ==>
            Serving(history, k, v).value <= v && WrittenAt(history, k, Serving(history, k, v).value).Some?
    ensures WrittenAt(history, k, w).Some? && w <= v ==>
            Serving(history, k, v).Some? && w <= Serving(history, k, v).value
    decreases v
  {
    if WrittenAt(history, k, v).None? && v > 0 {
      ServingIsNewest(history, k, v - 1, w);
    }
  }

  lemma {:induction false} ScanIsNewest(values: Values, k: Key, v: nat, w: nat)
    ensures (k, w) in values && w <= v ==> ScanVersion(values, k, v).Some? && w <= ScanVersion(values, k, v).value
    decreases v
  {
    if (k, v) !in values && v > 0 {
      ScanIsNewest(values, k, v - 1, w);
    }
  }

  // Replaying every commit up to v gives each key the value of its serving version.
  lemma {:induction false} ReplayServes(history: seq<Block>, k: Key, v: nat)
    requires Monotone(history)
    ensures At(Replay(history, v), k) == match Serving(history, k, v)
                                         case Some(w) => WrittenAt(history, k, w)
                                         case None => None
  {
    if history == [] {
      ServingIsNewest(history, k, v, 0);
      NothingServed(k, v);
    } else {
      var init, c := history[..|history| - 1], history[|history| - 1];
      ReplayServes(init, k, v);
      if c.version <= v && k in c.updates {
        ServingIsNewest(history, k, v, c.version);
        LastWriteNewest(history, k, Serving(history, k, v).value);
      } else {
        SameServing(history, init, k, v);
        if Serving(init, k, v).Some? {
          ServingIsNewest(init, k, v, 0);
        }
      }
    }
  }

  lemma {:induction false} NothingServed(k: Key, v: nat)
    ensures Serving([], k, v) == None
    decreases v
  {
    if v > 0 {
      NothingServed(k, v - 1);
    }
  }

  lemma {:induction false} SameServing(h: seq<Block>, h': seq<Block>, k: Key, v: nat)
    requires forall w: nat :: w <= v ==> WrittenAt(h, k, w) == WrittenAt(h', k, w)
    ensures Serving(h, k, v) == Serving(h', k, v)
    decreases v
  {
    if v > 0 {
      SameServing(h, h', k, v - 1);
    }
  }

  // ---------------------------------------------------------------------------
  // Reads
  // ---------------------------------------------------------------------------

  // The database serves a read from the right version exactly when that version has survived pruning,
  // or there is nothing to serve. On the shortcut a pruned version means no value at all; on the scan it
  // means an older one.
  lemma ReadVersionExact(values: Values, latest: Latest, history: seq<Block>, cutoff: nat, interval: nat, k: Key,
                         v: nat)
    requires Monotone(history) && Agrees(values, latest, history, cutoff, interval)
    ensures ReadVersion(values, latest, k, v) == Serving(history, k, v)
       <==> (Serving(history, k, v).Some? ==> Survives(Serving(history, k, v).value, cutoff, interval))
  {
    var s, r := Serving(history, k, v), ReadVersion(values, latest, k, v);
    if k in latest {
      LastWriteNewest(history, k, v);
      ServingIsNewest(history, k, v, latest[k]);
    }
    if s.Some? {
      ServingIsNewest(history, k, v, s.value);
      LastWriteNewest(history, k, s.value);
      ScanIsNewest(values, k, v, s.value);
      assert ValueAt(values, k, s.value)
          == if Survives(s.value, cutoff, interval) then WrittenAt(history, k, s.value) else None;
    }
    if r.Some? {
      assert ValueAt(values, k, r.value)
          == if Survives(r.value, cutoff, interval) then WrittenAt(history, k, r.value) else None;
      ServingIsNewest(history, k, v, r.value);
    }
  }

  // A read served from a surviving version is what replaying the commits gives.
  lemma ReadIsReplay(values: Values, latest: Latest, history: seq<Block>, cutoff: nat, interval: nat, k: Key, v: nat)
    requires Monotone(history) && Agrees(values, latest, history, cutoff, interval)
    requires Serving(history, k, v).Some? ==> Survives(Serving(history, k, v).value, cutoff, interval)
    ensures Read(values, latest, k, v) == At(Replay(history, v), k)
  {
    ReadVersionExact(values, latest, history, cutoff, interval, k, v);
    ReplayServes(history, k, v);
    var s := Serving(history, k, v);
    if s.Some? {
      assert ValueAt(values, k, s.value) == WrittenAt(history, k, s.value);
    }
  }

  // Without pruning the shortcut and the scan always agree.
  lemma ShortcutIsScan(values: Values, latest: Latest, history: seq<Block>, interval: nat, k: Key, v: nat)
    requires Monotone(history) && Agrees(values, latest, history, 0, interval)
    ensures ReadVersion(values, latest, k, v) == ScanVersion(values, k, v)
  {
    if k in latest && latest[k] <= v {
      LastWriteNewest(history, k, latest[k]);
      assert ValueAt(values, k, latest[k]) == WrittenAt(history, k, latest[k]);
      ScanIsNewest(values, k, v, latest[k]);
      var w := ScanVersion(values, k, v).value;
      assert ValueAt(values, k, w) == WrittenAt(history, k, w);
      LastWriteNewest(history, k, w);
    }
  }

  // Pruning can lose a live value: written once, off a snapshot, and old.
  lemma PruningLosesLiveValue()
    ensures var history := [Block(1, map[7 := "x"]), Block(100002, map[])];
            var values: Values := map[];
            var latest: Latest := map[7 := 1];
            && Agrees(values, latest, history, 2, 1000)
            && Read(values, latest, 7, 100002) == None
            && At(Replay(history, 100002), 7) == Some("x")
  {
    var first, second := Block(1, map[7 := "x"]), Block(100002, map[]);
    var history := [first, second];
    assert history[..1] == [first] && [first][..0] == [];
    forall k: Key, v: nat ensures Survives(v, 2, 1000) ==> WrittenAt(history, k, v) == None {
      assert WrittenAt([first], k, v) == if v == 1 && k == 7 then Some("x") else None;
    }
    forall k: Key ensures LastWrite(history, k) == if k == 7 then Some(1) else None {
      assert LastWrite([first], k) == if k == 7 then Some(1) else None;
    }
  }

  // ---------------------------------------------------------------------------
  // Steps keep agreement
  // ---------------------------------------------------------------------------

  lemma HistoryAppend(history: seq<Block>, c: Block, k: Key, v: nat)
    ensures WrittenAt(history + [c], k, v)
         == if c.version == v && k in c.updates then Some(c.updates[k]) else WrittenAt(history, k, v)
    ensures LastWrite(history + [c], k) == if k in c.updates then Some(c.version) else LastWrite(history, k)
    ensures Replay(history + [c], v) == if c.version <= v then Replay(history, v) + c.updates else Replay(history, v)
  {
    assert (history + [c])[..|history|] == history;
  }

  lemma MonotoneAppend(history: seq<Block>, c: Block)
    requires Monotone(history) && LastVersion(history) <= c.version
    ensures Monotone(history + [c]) && LastVersion(history + [c]) == c.version
  {
  }

  lemma CommitAgrees(values: Values, latest: Latest, history: seq<Block>, cutoff: nat, interval: nat, c: Block,
                     values': Values, latest': Latest)
    requires Agrees(values, latest, history, cutoff, interval) && cutoff <= c.version
    requires forall k: Key, v: nat :: ValueAt(values', k, v)
               == (if v == c.version && k in c.updates then Some(c.updates[k]) else ValueAt(values, k, v))
    requires forall k: Key :: k in latest' <==> k in latest || k in c.updates
    requires forall k: Key :: k in latest' ==> latest'[k] == if k in c.updates then c.version else latest[k]
    ensures Agrees(values', latest', history + [c], cutoff, interval)
  {
    forall k: Key, v: nat
      ensures ValueAt(values', k, v) == if Survives(v, cutoff, interval) then WrittenAt(history + [c], k, v) else None
    {
      HistoryAppend(history, c, k, v);
    }
    forall k: Key
      ensures LastWrite(history + [c], k) == if k in latest' then Some(latest'[k]) else None
    {
      HistoryAppend(history, c, k, 0);
    }
  }

  lemma PruneAgrees(values: Values, latest: Latest, history: seq<Block>, cutoff: nat, cutoff': nat, interval: nat,
                    values': Values)
    requires Agrees(values, latest, history, cutoff, interval) && cutoff <= cutoff'
    requires forall k: Key, v: nat ::
               ValueAt(values', k, v) == if Survives(v, cutoff', interval) then ValueAt(values, k, v) else None
    ensures Agrees(values', latest, history, cutoff', interval)
  {
  }

  class RocksDbStorage {
    // on disk
    var values: Values
    var latest: Latest
    var persistedVersion: nat
    var snapshots: set<nat>
    // in memory
    var pending: map<Key, Value>
    var currentVersion: nat
    const snapshotInterval: nat
    const pruneBefore: nat
    const pruningEnabled: bool
    ghost var history: seq<Block>
    ghost var cutoff: nat

    ghost predicate Valid()
      reads this
    {
      && Monotone(history)
      && Agrees(values, latest, history, cutoff, snapshotInterval)
      && currentVersion == persistedVersion == LastVersion(history)
      && cutoff <= LastVersion(history)
      && (!pruningEnabled ==> cutoff == 0)
    }

    // The version a read of the key at v should come from has not been pruned.
    ghost predicate Kept(k: Key, v: nat)
      reads this
    {
      Serving(history, k, v).Some? ==> Survives(Serving(history, k, v).value, cutoff, snapshotInterval)
    }

    // What a read at v returns: buffered writes first, then the database.
    ghost function Observed(k: Key, v: nat): (r: Option<Value>)
      reads this
    {
      if k in pending then Some(pending[k]) else Read(values, latest, k, v)
    }

    constructor (snapshotInterval: nat, pruneBefore: nat, pruningEnabled: bool)
      ensures Valid() && history == [] && pending == map[]
    {
      this.snapshotInterval, this.pruneBefore, this.pruningEnabled := snapshotInterval, pruneBefore, pruningEnabled;
      values, latest, persistedVersion, snapshots := map[], map[], 0, {};
      pending, currentVersion := map[], 0;
      history, cutoff := [], 0;
    }

    // The backward scan, version by version.
    method ScanBackwards(k: Key, maxVersion: nat) returns (r: Option<nat>)
      ensures r == ScanVersion(values, k, maxVersion)
    {
      var v := maxVersion;
      while (k, v) !in values
        invariant 0 <= v <= maxVersion && ScanVersion(values, k, maxVersion) == ScanVersion(values, k, v)
        decreases v
      {
        if v == 0 {
          return None;
        }
        v := v - 1;
      }
      r := Some(v);
    }

    // Shortcut by the latest version, falling back to the scan.
    method GetValueOption(k: Key, maxVersion: nat) returns (r: Option<Value>)
      ensures r == Read(values, latest, k, maxVersion)
    {
      if k in latest && latest[k] <= maxVersion {
        r := if (k, latest[k]) in values then Some(values[(k, latest[k])]) else None;
      } else {
        var w := ScanBackwards(k, maxVersion);
        r := if w.Some? then Some(values[(k, w.value)]) else None;
      }
    }

    method Get(k: Key, version: nat) returns (r: Option<Value>)
      requires Valid()
      ensures r == Observed(k, version)
      ensures k in pending ==> r == Some(pending[k])
      ensures k !in pending && !pruningEnabled ==> r == At(Replay(history, version), k)
      ensures k !in pending && Kept(k, version) ==> r == At(Replay(history, version), k)
    {
      if Kept(k, version) {
        ReadIsReplay(values, latest, history, cutoff, snapshotInterval, k, version);
      }
      if k in pending {
        return Some(pending[k]);
      }
      r := GetValueOption(k, version);
    }

    method Set(k: Key, value: Value)
      modifies this`pending
      ensures pending == old(pending)[k := value]
    {
      pending := pending[k := value];
    }

    // Dropping a buffered write. The committed value, if any, shows through again: the key reads as absent
    // exactly when nothing is committed for it.
    method Delete(k: Key)
      requires Valid()
      modifies this`pending
      ensures Valid() && pending == old(pending) - {k}
      ensures forall v: nat :: Observed(k, v) == Read(values, latest, k, v)
      ensures !pruningEnabled ==> forall v: nat :: Observed(k, v) == None <==> k !in Replay(history, v)
    {
      pending := pending - {k};
      if !pruningEnabled {
        forall v: nat ensures Observed(k, v) == None <==> k !in Replay(history, v) {
          ReadIsReplay(values, latest, history, cutoff, snapshotInterval, k, v);
        }
      }
    }

    // Store each update under its key and version.
    method PutValues(updates: map<Key, Value>, version: nat)
      modifies this`values
      ensures forall k: Key, v: nat :: ValueAt(values, k, v) ==
                (if v == version && k in updates then Some(updates[k]) else ValueAt(old(values), k, v))
    {
      var todo := updates.Keys;
      while todo != {}
        invariant todo <= updates.Keys
        invariant forall k: Key, v: nat :: ValueAt(values, k, v) ==
                    (if v == version && k in updates && k !in todo then Some(updates[k])
                     else ValueAt(old(values), k, v))
        decreases todo
      {
        var x: Key :| x in todo;
        ghost var before := values;
        values := values[(x, version) := updates[x]];
        todo := todo - {x};
        forall k: Key, v: nat
          ensures ValueAt(values, k, v) ==
                  (if v == version && k in updates && k !in todo then Some(updates[k]) else ValueAt(old(values), k, v))
        {
          assert (k, v) != (x, version) ==> ValueAt(values, k, v) == ValueAt(before, k, v);
        }
      }
    }

    // Record the version as the latest of each updated key.
    method PutLatest(updates: map<Key, Value>, version: nat)
      modifies this`latest
      ensures forall k: Key :: k in latest <==> k in old(latest) || k in updates
      ensures forall k: Key :: k in latest ==> latest[k] == if k in updates then version else old(latest)[k]
    {
      var todo := updates.Keys;
      while todo != {}
        invariant todo <= updates.Keys
        invariant forall k: Key :: k in latest <==> k in old(latest) || (k in updates && k !in todo)
        invariant forall k: Key :: k in latest ==>
                  latest[k] == if k in updates && k !in todo then version else old(latest)[k]
        decreases todo
      {
        var x: Key :| x in todo;
        latest := latest[x := version];
        todo := todo - {x};
      }
    }

    // Write every buffered update at the version, record it as each key's latest, and clear the buffer.
    method Commit(version: nat)
      requires Valid() && LastVersion(history) <= version
      modifies this
      ensures Valid()
      ensures history == old(history) + [Block(version, old(pending))] && pending == map[]
      ensures currentVersion == version
      ensures snapshots == old(snapshots) + (
                if pruningEnabled && (if snapshotInterval == 0 then version == 0 else version % snapshotInterval == 0)
                then {version} else {})
      ensures cutoff == if pruningEnabled && version > pruneBefore then Max(old(cutoff), version - pruneBefore)
              else old(cutoff)
    {
      hide Agrees, Monotone, WrittenAt, LastWrite;
      ghost var c := Block(version, pending);
      MonotoneAppend(history, c);
      ghost var values0, latest0 := values, latest;
      var updates := pending;
      pending := map[];
      PutValues(updates, version);
      PutLatest(updates, version);
      CommitAgrees(values0, latest0, history, cutoff, snapshotInterval, c, values, latest);
      history := history + [c];
      currentVersion := version;
      persistedVersion := version;
      if pruningEnabled {
        if Snapshot(version, snapshotInterval) {
          snapshots := snapshots + {version};
        }
        if version > pruneBefore {
          PruneBeforeVersion(version - pruneBefore);
        }
      }
    }

    // Delete every value older than the cutoff that is not on a snapshot version.
    method PruneBeforeVersion(before: nat)
      requires Valid() && before <= LastVersion(history) && pruningEnabled
      modifies this`values, this`cutoff
      ensures Valid() && cutoff == Max(old(cutoff), before)
      ensures forall k: Key, v: nat :: ValueAt(values, k, v) ==
                (if v >= before || (if snapshotInterval == 0 then v == 0 else v % snapshotInterval == 0)
                 then ValueAt(old(values), k, v) else None)
    {
      ghost var values0 := values;
      var todo: set<(Key, nat)> := values.Keys;
      while todo != {}
        invariant todo <= values0.Keys
        invariant forall k: Key, v: nat :: ValueAt(values, k, v) ==
                    if (k, v) in todo || Survives(v, before, snapshotInterval) then ValueAt(values0, k, v) else None
        invariant cutoff == old(cutoff)
        decreases todo
      {
        var key: (Key, nat) :| key in todo;
        if key.1 < before && !Snapshot(key.1, snapshotInterval) {
          values := values - {key};
        }
        todo := todo - {key};
      }
      ghost var higher := Max(cutoff, before);
      forall k: Key, v: nat
        ensures ValueAt(values, k, v) == if Survives(v, higher, snapshotInterval) then ValueAt(values0, k, v) else None
      {
        assert ValueAt(values0, k, v)
            == if Survives(v, cutoff, snapshotInterval) then WrittenAt(history, k, v) else None;
      }
      PruneAgrees(values0, latest, history, cutoff, higher, snapshotInterval, values);
      cutoff := higher;
    }

    // Closing and opening again: the buffer is gone, the version and everything committed are back.
    method Reopen()
      requires Valid()
      modifies this`pending, this`currentVersion
      ensures Valid() && pending == map[] && currentVersion == LastVersion(history)
      ensures forall k :: Kept(k, currentVersion) ==>
              Observed(k, currentVersion) == At(Replay(history, LastVersion(history)), k)
      ensures !pruningEnabled ==> forall k :: Kept(k, currentVersion)
    {
      pending := map[];
      currentVersion := persistedVersion;
      forall k | Kept(k, currentVersion)
        ensures Observed(k, currentVersion) == At(Replay(history, LastVersion(history)), k)
      {
        ReadIsReplay(values, latest, history, cutoff, snapshotInterval, k, currentVersion);
      }
    }
  }
}
