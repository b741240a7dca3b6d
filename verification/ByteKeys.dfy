// Byte strings in the order a key-value database iterates them, and the keys of the event store.
module ByteKeys {
  import opened Types
  import Rounding
  import Sorting

  type byte = x: int | 0 <= x < 256
  type Bytes = seq<byte>

  // ---------------------------------------------------------------------------
  // Ascending byte order
  // ---------------------------------------------------------------------------

  predicate Less(a: Bytes, b: Bytes) {
    b != [] && (a == [] || a[0] < b[0] || (a[0] == b[0] && Less(a[1..], b[1..])))
  }

  lemma {:induction false} LessTransitive(a: Bytes, b: Bytes, c: Bytes)
    requires Less(a, b) && Less(b, c)
    ensures Less(a, c)
  {
    if a != [] && a[0] == b[0] && b[0] == c[0] {
      LessTransitive(a[1..], b[1..], c[1..]);
    }
  }

  lemma {:induction false} LessTotal(a: Bytes, b: Bytes)
    ensures a == b || Less(a, b) || Less(b, a)
    ensures !(Less(a, b) && Less(b, a)) && !Less(a, a)
  {
    if a != [] && b != [] && a[0] == b[0] {
      LessTotal(a[1..], b[1..]);
    }
    if a != [] {
      LessTotal(a[1..], a[1..]);
    }
  }

  // Keys with a prefix come at or after it, and nothing without it lies between it and them.
  lemma {:induction false} PrefixContiguous(p: Bytes, a: Bytes, b: Bytes)
    requires p <= b
    ensures !Less(b, p)
    ensures !Less(a, p) && Less(a, b) ==> p <= a
    decreases p
  {
    if p != [] {
      assert p[1..] <= b[1..];
      if a != [] && a[0] == p[0] {
        PrefixContiguous(p[1..], a[1..], b[1..]);
        if p[1..] <= a[1..] {
          assert a == [a[0]] + a[1..] && p == [p[0]] + p[1..];
        }
      } else {
        PrefixContiguous(p[1..], [], b[1..]);
      }
    }
  }

  ghost predicate Ascending(ks: seq<Bytes>) {
    forall i, j :: 0 <= i < j < |ks| ==> Less(ks[i], ks[j])
  }

  // A listing of a set of keys in iteration order.
  ghost predicate Iterates(ks: seq<Bytes>, s: set<Bytes>) {
    Ascending(ks) && forall k :: k in ks <==> k in s
  }

  lemma LessIsOrder()
    ensures Sorting.Transitive(Less) && forall k :: !Less(k, k)
  {
    forall a, b, c | Less(a, b) && Less(b, c) ensures Less(a, c) {
      LessTransitive(a, b, c);
    }
    forall k ensures !Less(k, k) {
      LessTotal(k, k);
    }
  }

  // A new key inserted in order.
  lemma InsertedAscending(k: Bytes, ks: seq<Bytes>)
    requires Ascending(ks) && k !in ks
    ensures Ascending(Sorting.Insert(Less, k, ks))
    ensures forall j :: j in Sorting.Insert(Less, k, ks) <==> j == k || j in ks
  {
    hide Less, Sorting.Insert;
    var r := Sorting.Insert(Less, k, ks);
    LessIsOrder();
    forall i, j | 0 <= i < j < |ks| ensures !Less(ks[j], ks[i]) && ks[i] != ks[j] {
      LessTotal(ks[i], ks[j]);
    }
    Sorting.InsertOrdered(Less, k, ks);
    Sorting.SameMembers(r, [k] + ks);
    Sorting.DistinctKept([k] + ks, r);
    forall i, j | 0 <= i < j < |r| ensures Less(r[i], r[j]) {
      LessTotal(r[i], r[j]);
    }
  }

  // A scan that seeks a prefix and stops at the first key without it has seen every key with it.
  lemma ScanSeesPrefix(ks: seq<Bytes>, s: set<Bytes>, p: Bytes, start: nat, stop: nat, k: Bytes) returns (i: nat)
    requires Iterates(ks, s) && start <= stop <= |ks|
    requires forall j :: 0 <= j < start ==> Less(ks[j], p)
    requires start < |ks| ==> !Less(ks[start], p)
    requires stop < |ks| ==> !(p <= ks[stop])
    requires k in s && p <= k
    ensures start <= i < stop && ks[i] == k
  {
    i :| 0 <= i < |ks| && ks[i] == k;
    PrefixContiguous(p, k, k);
    if stop <= i {
      LessTotal(ks[start], p);
      if start < stop && Less(ks[stop], p) {
        LessTransitive(ks[start], ks[stop], p);
      }
      PrefixContiguous(p, ks[stop], k);
    }
  }

  // The database's iteration order.
  method Iterate(s: set<Bytes>) returns (ks: seq<Bytes>)
    ensures Iterates(ks, s)
  {
    ks := [];
    var todo := s;
    while todo != {}
      invariant todo <= s && Iterates(ks, s - todo)
      decreases todo
    {
      var k: Bytes :| k in todo;
      InsertedAscending(k, ks);
      ks := Sorting.Insert(Less, k, ks);
      todo := todo - {k};
    }
  }

  // ---------------------------------------------------------------------------
  // Little-endian integers
  // ---------------------------------------------------------------------------

  function Pow256(n: nat): (r: nat) {
    if n == 0 then 1 else 256 * Pow256(n - 1)
  }

  function Le(x: nat, n: nat): (r: Bytes)
    ensures |r| == n
    decreases n
  {
    if n == 0 then [] else [x % 256] + Le(x / 256, n - 1)
  }

  function FromLe(b: Bytes): (r: nat) {
    if b == [] then 0 else b[0] + 256 * FromLe(b[1..])
  }

  lemma {:induction false} LeRoundTrip(x: nat, n: nat)
    requires x < Pow256(n)
    ensures FromLe(Le(x, n)) == x
    decreases n
  {
    if n > 0 {
      LeRoundTrip(x / 256, n - 1);
      assert Le(x, n)[1..] == Le(x / 256, n - 1);
    }
  }

  // Byte i counts the 256^i, the least significant byte first.
  lemma {:induction false} LeDigit(x: nat, n: nat, i: nat)
    requires i < n
    ensures Pow256(i) > 0 && Le(x, n)[i] == (x / Pow256(i)) % 256
    decreases i
  {
    if i > 0 {
      LeDigit(x / 256, n - 1, i - 1);
      Rounding.DivideTwice(x, 256, Pow256(i - 1));
    }
  }

  lemma Widths()
    ensures Pow256(4) == U32 && Pow256(8) == U64
  {
    assert Pow256(2) == 65536;
    assert Pow256(4) == 256 * (256 * Pow256(2));
    assert Pow256(6) == 256 * (256 * Pow256(4));
    assert Pow256(8) == 256 * (256 * Pow256(6));
  }

  // ---------------------------------------------------------------------------
  // Keys of the event store
  // ---------------------------------------------------------------------------

  type Hash = h: Bytes | |h| == 32 witness seq(32, _ => 0)

  datatype EventKey =
    | Event(height: u64, tx: Hash, index: u32)
    | BlockIndex(height: u64, tx: Hash, index: u32)
    | TxIndex(tx: Hash, index: u32)
    | MetaCount

  function Encode(k: EventKey): (r: Bytes) {
    match k
    case Event(height, tx, index) => [0] + Le(height, 8) + tx + Le(index, 4)
    case BlockIndex(height, tx, index) => [1] + Le(height, 8) + tx + Le(index, 4)
    case TxIndex(tx, index) => [2] + tx + Le(index, 4)
    case MetaCount => [3]
  }

  function ToU64(x: nat): (r: u64) {
    x % U64
  }

  function ToU32(x: nat): (r: u32) {
    x % U32
  }

  function Decode(b: Bytes): (r: Option<EventKey>) {
    if |b| == 45 && b[0] == 0 then Some(Event(ToU64(FromLe(b[1..9])), b[9..41], ToU32(FromLe(b[41..]))))
    else if |b| == 45 && b[0] == 1 then Some(BlockIndex(ToU64(FromLe(b[1..9])), b[9..41], ToU32(FromLe(b[41..]))))
    else if |b| == 37 && b[0] == 2 then Some(TxIndex(b[1..33], ToU32(FromLe(b[33..]))))
    else if b == [3] then Some(MetaCount)
    else None
  }

  lemma LongKeyParts(d: byte, h: Bytes, tx: Bytes, n: Bytes)
    requires |h| == 8 && |tx| == 32 && |n| == 4
    ensures var b := [d] + h + tx + n;
            && |b| == 45 && b[0] == d && b[1..9] == h && b[9..41] == tx && b[41..] == n && [d] + h <= b
  {
    var b := [d] + h + tx + n;
    assert b[1..9] == h && b[9..41] == tx && b[41..] == n;
  }

  lemma ShortKeyParts(d: byte, tx: Bytes, n: Bytes)
    requires |tx| == 32 && |n| == 4
    ensures var b := [d] + tx + n; |b| == 37 && b[0] == d && b[1..33] == tx && b[33..] == n && [d] + tx <= b
  {
    var b := [d] + tx + n;
    assert b[1..33] == tx && b[33..] == n;
  }

  // Where each part of a key is.
  lemma KeyLayout(k: EventKey)
    ensures var b := Encode(k);
            match k
            case Event(height, tx, index) =>
              |b| == 45 && b[0] == 0 && FromLe(b[1..9]) == height && b[9..41] == tx && FromLe(b[41..]) == index
            case BlockIndex(height, tx, index) =>
              |b| == 45 && b[0] == 1 && FromLe(b[1..9]) == height && b[9..41] == tx && FromLe(b[41..]) == index
            case TxIndex(tx, index) => |b| == 37 && b[0] == 2 && b[1..33] == tx && FromLe(b[33..]) == index
            case MetaCount => b == [3]
  {
    hide Le, FromLe, Pow256;
    Widths();
    match k
    case Event(height, tx, index) =>
      LeRoundTrip(height, 8);
      LeRoundTrip(index, 4);
      LongKeyParts(0, Le(height, 8), tx, Le(index, 4));
    case BlockIndex(height, tx, index) =>
      LeRoundTrip(height, 8);
      LeRoundTrip(index, 4);
      LongKeyParts(1, Le(height, 8), tx, Le(index, 4));
    case TxIndex(tx, index) =>
      LeRoundTrip(index, 4);
      ShortKeyParts(2, tx, Le(index, 4));
    case MetaCount =>
  }

  // Every key decodes back to itself, so the encoding is injective.
  lemma KeyRoundTrip(k: EventKey)
    ensures Decode(Encode(k)) == Some(k)
  {
    hide FromLe, Encode;
    KeyLayout(k);
  }

  const EVENTS_PREFIX: Bytes := [0]

  function PrefixForBlock(height: u64): (r: Bytes) {
    [1] + Le(height, 8)
  }

  function PrefixForTx(tx: Hash): (r: Bytes) {
    [2] + tx
  }

  lemma PrefixByte(d: byte, b: Bytes)
    requires b != []
    ensures [d] <= b <==> b[0] == d
  {
    assert b[..1] == [b[0]];
  }

  lemma SamePrefix(d: byte, p: Bytes, q: Bytes, b: Bytes)
    requires |p| == |q| && [d] + q <= b
    ensures [d] + p <= b <==> p == q
  {
    assert b[..1 + |q|] == [d] + q;
    assert ([d] + q)[1..] == q && ([d] + p)[1..] == p;
  }

  lemma OtherPrefix(d: byte, p: Bytes, b: Bytes)
    requires b != [] && b[0] != d
    ensures !([d] + p <= b)
  {
    assert ([d] + p)[0] == d;
  }

  // A key carries the block prefix exactly when it indexes that block, and likewise for a transaction.
  lemma PrefixSelects(k: EventKey, height: u64, tx: Hash)
    ensures PrefixForBlock(height) <= Encode(k) <==> k.BlockIndex? && k.height == height
    ensures PrefixForTx(tx) <= Encode(k) <==> k.TxIndex? && k.tx == tx
    ensures EVENTS_PREFIX <= Encode(k) <==> k.Event?
  {
    hide Le, FromLe, Pow256;
    Widths();
    LeRoundTrip(height, 8);
    var b := Encode(k);
    PrefixByte(0, b);
    match k
    case Event(h, t, n) =>
      LongKeyParts(0, Le(h, 8), t, Le(n, 4));
      OtherPrefix(1, Le(height, 8), b);
      OtherPrefix(2, tx, b);
    case BlockIndex(h, t, n) =>
      LeRoundTrip(h, 8);
      LongKeyParts(1, Le(h, 8), t, Le(n, 4));
      SamePrefix(1, Le(height, 8), Le(h, 8), b);
      OtherPrefix(2, tx, b);
    case TxIndex(t, n) =>
      ShortKeyParts(2, t, Le(n, 4));
      SamePrefix(2, tx, t, b);
      OtherPrefix(1, Le(height, 8), b);
    case MetaCount =>
      OtherPrefix(1, Le(height, 8), b);
      OtherPrefix(2, tx, b);
  }
}
