// Pending transactions, found by hash and by sender and nonce.
module Mempool {
  import opened Types
  import opened Queues

  // `content` stands for the payload and the signature.
  datatype Transaction = Transaction(from: Address, nonce: u64, content: nat)

  // The hash covers the whole encoded transaction, so it identifies it.
  datatype TxHash = TxHash(tx: Transaction)

  type ByHash = map<TxHash, Transaction>
  type Nonces = map<u64, TxHash>
  type BySender = map<Address, Nonces>

  // The two indexes of the pool.
  datatype Index = Index(txs: ByHash, bySender: BySender)

  function NoncesOf(ix: Index, sender: Address): (r: Nonces) {
    if sender in ix.bySender then ix.bySender[sender] else map[]
  }

  // The hash under a sender and a nonce.
  function Found(ix: Index, sender: Address, nonce: u64): (r: Option<TxHash>) {
    if sender in ix.bySender && nonce in ix.bySender[sender] then Some(ix.bySender[sender][nonce]) else None
  }

  function Inserted(ix: Index, tx: Transaction): (r: Index) {
    Index(ix.txs[TxHash(tx) := tx], ix.bySender[tx.from := NoncesOf(ix, tx.from)[tx.nonce := TxHash(tx)]])
  }

  function WithNonces(bySender: BySender, sender: Address, nonces: Nonces): (r: BySender) {
    if nonces == map[] then bySender - {sender} else bySender[sender := nonces]
  }

  function Removed(ix: Index, h: TxHash): (r: Index) {
    if h !in ix.txs then ix
    else
      var tx := ix.txs[h];
      Index(ix.txs - {h},
            if tx.from in ix.bySender then WithNonces(ix.bySender, tx.from, ix.bySender[tx.from] - {tx.nonce})
                else ix.bySender)
  }

  // ---------------------------------------------------------------------------
  // Agreement of the two indexes
  // ---------------------------------------------------------------------------

  // A hash of the pool holds its own transaction and is found again under its sender and nonce.
  ghost predicate Pooled(ix: Index, h: TxHash) {
    && h in ix.txs && ix.txs[h] == h.tx
    && h.tx.nonce in NoncesOf(ix, h.tx.from) && NoncesOf(ix, h.tx.from)[h.tx.nonce] == h
  }

  // An entry under a sender and a nonce names a pooled transaction with that sender and that nonce.
  ghost predicate Backed(ix: Index, s: Address, n: u64) {
    n in NoncesOf(ix, s) ==>
      var h := NoncesOf(ix, s)[n];
      h in ix.txs && h.tx.from == s && h.tx.nonce == n
  }

  ghost predicate Agrees(ix: Index) {
    && (forall h :: h in ix.txs ==> Pooled(ix, h))
    && (forall s: Address, n: u64 :: Backed(ix, s, n))
  }

  lemma InsertedNonces(ix: Index, tx: Transaction, s: Address)
    ensures NoncesOf(Inserted(ix, tx), s)
         == if s == tx.from then NoncesOf(ix, s)[tx.nonce := TxHash(tx)] else NoncesOf(ix, s)
  {
  }

  lemma RemovedNonces(ix: Index, h: TxHash, s: Address)
    requires h in ix.txs && ix.txs[h] == h.tx
    ensures NoncesOf(Removed(ix, h), s) == if s == h.tx.from then NoncesOf(ix, s) - {h.tx.nonce} else NoncesOf(ix, s)
  {
  }

  lemma RemovedFound(ix: Index, h: TxHash, s: Address, n: u64)
    ensures Found(Removed(ix, h), s, n) == (if h in ix.txs && s == ix.txs[h].from && n == ix.txs[h].nonce then None
                                            else Found(ix, s, n))
    ensures Removed(ix, h).txs == ix.txs - {h}
  {
    if h in ix.txs && s == ix.txs[h].from && s in ix.bySender {
      var left := ix.bySender[s] - {ix.txs[h].nonce};
      assert n in left <==> n in ix.bySender[s] && n != ix.txs[h].nonce;
    }
  }

  // Inserting over another transaction of the same sender and nonce leaves that one in the hash index only.
  lemma InsertOrphans(ix: Index, tx: Transaction, older: TxHash)
    requires Pooled(ix, older) && older != TxHash(tx)
    requires older.tx.from == tx.from && older.tx.nonce == tx.nonce
    ensures older in Inserted(ix, tx).txs && !Pooled(Inserted(ix, tx), older)
  {
    InsertedNonces(ix, tx, tx.from);
  }

  lemma InsertKeeps(ix: Index, tx: Transaction)
    requires Agrees(ix)
    requires tx.nonce in NoncesOf(ix, tx.from) ==> NoncesOf(ix, tx.from)[tx.nonce] == TxHash(tx)
    ensures Agrees(Inserted(ix, tx))
  {
    hide NoncesOf;
    var ix' := Inserted(ix, tx);
    forall h | h in ix'.txs ensures Pooled(ix', h) {
      InsertedNonces(ix, tx, h.tx.from);
      assert h in ix.txs ==> Pooled(ix, h);
    }
    forall s: Address, n: u64 ensures Backed(ix', s, n) {
      InsertedNonces(ix, tx, s);
      assert Backed(ix, s, n);
    }
  }

  // Inserting keeps the indexes in agreement exactly when no other transaction holds the sender's nonce.
  lemma InsertAgreesExactly(ix: Index, tx: Transaction)
    requires Agrees(ix)
    ensures Agrees(Inserted(ix, tx)) <==>
            (tx.nonce in NoncesOf(ix, tx.from) ==> NoncesOf(ix, tx.from)[tx.nonce] == TxHash(tx))
  {
    hide NoncesOf, Inserted, Pooled;
    if tx.nonce in NoncesOf(ix, tx.from) && NoncesOf(ix, tx.from)[tx.nonce] != TxHash(tx) {
      assert Backed(ix, tx.from, tx.nonce);
      InsertOrphans(ix, tx, NoncesOf(ix, tx.from)[tx.nonce]);
    } else {
      InsertKeeps(ix, tx);
    }
  }

  lemma RemoveAgrees(ix: Index, h: TxHash)
    requires Agrees(ix)
    ensures Agrees(Removed(ix, h)) && Removed(ix, h).txs == ix.txs - {h}
    ensures forall s: Address :: NoncesOf(Removed(ix, h), s) ==
              if h in ix.txs && s == h.tx.from then NoncesOf(ix, s) - {h.tx.nonce} else NoncesOf(ix, s)
  {
    hide NoncesOf;
    var ix' := Removed(ix, h);
    if h in ix.txs {
      assert Pooled(ix, h);
      forall s: Address
        ensures NoncesOf(ix', s) == if s == h.tx.from then NoncesOf(ix, s) - {h.tx.nonce} else NoncesOf(ix, s)
      {
        RemovedNonces(ix, h, s);
      }
      forall g | g in ix'.txs ensures Pooled(ix', g) {
        assert Pooled(ix, g);
      }
      forall s: Address, n: u64 ensures Backed(ix', s, n) {
        assert Backed(ix, s, n);
      }
    } else {
      assert ix.txs - {h} == ix.txs;
    }
  }

  // ---------------------------------------------------------------------------
  // Listing
  // ---------------------------------------------------------------------------

  // The pooled transactions behind a list of a sender's nonces.
  function Listed(ix: Index, sender: Address, nonces: seq<u64>): (r: seq<Transaction>)
    requires forall n :: n in nonces ==> n in NoncesOf(ix, sender)
    decreases nonces
  {
    if nonces == [] then []
    else
      var h := NoncesOf(ix, sender)[nonces[0]];
      (if h in ix.txs then [ix.txs[h]] else []) + Listed(ix, sender, nonces[1..])
  }

  // A sender's pending transactions by ascending nonce.
  function GetBySender(ix: Index, sender: Address): (r: seq<Transaction>) {
    Listed(ix, sender, Sorted(false, NoncesOf(ix, sender).Keys))
  }

  lemma {:induction false} ListedAt(ix: Index, sender: Address, nonces: seq<u64>)
    requires Agrees(ix) && forall n :: n in nonces ==> n in NoncesOf(ix, sender)
    ensures |Listed(ix, sender, nonces)| == |nonces|
    ensures forall i :: 0 <= i < |nonces| ==>
              Listed(ix, sender, nonces)[i] == NoncesOf(ix, sender)[nonces[i]].tx
    decreases nonces
  {
    hide NoncesOf;
    if nonces != [] {
      assert Backed(ix, sender, nonces[0]);
      assert Pooled(ix, NoncesOf(ix, sender)[nonces[0]]);
      ListedAt(ix, sender, nonces[1..]);
    }
  }

  lemma {:induction false} ListedConcat(ix: Index, sender: Address, a: seq<u64>, b: seq<u64>)
    requires (forall n :: n in a ==> n in NoncesOf(ix, sender)) && (forall n :: n in b ==> n in NoncesOf(ix, sender))
    ensures Listed(ix, sender, a + b) == Listed(ix, sender, a) + Listed(ix, sender, b)
    decreases a
  {
    hide NoncesOf;
    if a == [] {
      assert a + b == b;
    } else {
      assert (a + b)[1..] == a[1..] + b;
      ListedConcat(ix, sender, a[1..], b);
    }
  }

  lemma ListedNothing(ix: Index, sender: Address)
    ensures Listed(ix, sender, []) == []
  {
  }

  // The listing of one more nonce; its transaction is not behind any of the others.
  lemma ListedNext(ix: Index, sender: Address, done: seq<u64>, n: u64)
    requires Agrees(ix) && (forall m :: m in done ==> m in NoncesOf(ix, sender)) && n in NoncesOf(ix, sender) &&
             n !in done
    ensures var h := NoncesOf(ix, sender)[n];
            && h in ix.txs && h !in HashesOf(NoncesOf(ix, sender), done)
            && Listed(ix, sender, done + [n]) == Listed(ix, sender, done) + [ix.txs[h]]
  {
    hide NoncesOf;
    assert Backed(ix, sender, n);
    ListedConcat(ix, sender, done, [n]);
    assert [n][1..] == [];
    var h := NoncesOf(ix, sender)[n];
    forall m | m in done ensures NoncesOf(ix, sender)[m] != h {
      assert Backed(ix, sender, m);
    }
  }

  // With agreeing indexes a sender's listing is exactly its pooled transactions, each once, by ascending nonce.
  lemma BySenderComplete(ix: Index, sender: Address)
    requires Agrees(ix)
    ensures forall tx :: tx in GetBySender(ix, sender) <==> TxHash(tx) in ix.txs && tx.from == sender
    ensures forall i, j :: 0 <= i < j < |GetBySender(ix, sender)| ==>
              GetBySender(ix, sender)[i].nonce < GetBySender(ix, sender)[j].nonce
  {
    hide NoncesOf, Listed;
    var ns := NoncesOf(ix, sender);
    var keys := Sorted(false, ns.Keys);
    var r := GetBySender(ix, sender);
    ListedAt(ix, sender, keys);
    SortedIsBestFirst(false, ns.Keys);
    forall i | 0 <= i < |r| ensures r[i].nonce == keys[i] && r[i].from == sender && TxHash(r[i]) in ix.txs {
      assert keys[i] in keys && Backed(ix, sender, keys[i]);
      assert r[i] == ns[keys[i]].tx;
    }
    forall tx | TxHash(tx) in ix.txs && tx.from == sender ensures tx in r {
      assert Pooled(ix, TxHash(tx)) && tx.nonce in keys;
      var i :| 0 <= i < |keys| && keys[i] == tx.nonce;
      assert r[i] == tx;
    }
  }

  // The listings of several senders, one after the other.
  function Gathered(ix: Index, senders: seq<Address>): (r: seq<Transaction>) {
    if senders == [] then [] else Gathered(ix, senders[..|senders| - 1]) + GetBySender(ix, senders[|senders| - 1])
  }

  predicate Distinct(senders: seq<Address>) {
    forall i, j :: 0 <= i < j < |senders| ==> senders[i] != senders[j]
  }

  // Every sender of the pool once, in the order the hash map happens to list them.
  ghost predicate AllSenders(ix: Index, senders: seq<Address>) {
    Distinct(senders) && forall s :: s in senders <==> s in ix.bySender
  }

  function Take(txs: seq<Transaction>, limit: nat): (r: seq<Transaction>)
    ensures r <= txs && |r| == Min(limit, |txs|)
  {
    if limit <= |txs| then txs[..limit] else txs
  }

  // What stays of a sender's nonces, and which hashes go, once the listed nonces are dropped.
  function Kept(nonces: Nonces, dropped: seq<u64>): (r: Nonces) {
    map n | n in nonces && n !in dropped :: nonces[n]
  }

  function HashesOf(nonces: Nonces, dropped: seq<u64>): (r: set<TxHash>) {
    set n | n in nonces && n in dropped :: nonces[n]
  }

  function Held(txs: ByHash, hashes: set<TxHash>): (r: set<Transaction>) {
    set h | h in hashes && h in txs :: txs[h]
  }

  lemma DropOneMore(nonces: Nonces, dropped: seq<u64>, n: u64)
    requires n in nonces && n !in dropped
    ensures Kept(nonces, dropped + [n]) == Kept(nonces, dropped) - {n}
    ensures HashesOf(nonces, dropped + [n]) == HashesOf(nonces, dropped) + {nonces[n]}
  {
  }

  lemma HeldOneMore(txs: ByHash, hashes: set<TxHash>, h: TxHash)
    ensures Held(txs, hashes + {h}) == Held(txs, hashes) + (if h in txs then {txs[h]} else {})
    ensures h in hashes && h in txs ==> txs[h] in Held(txs, hashes)
  {
    assert h in txs ==> h in hashes + {h};
  }

  lemma KeptHas(nonces: Nonces, dropped: seq<u64>, n: u64)
    requires n in nonces && n !in dropped
    ensures n in Kept(nonces, dropped) && Kept(nonces, dropped)[n] == nonces[n]
  {
  }

  lemma StartOfDrop(txs: ByHash, nonces: Nonces)
    ensures Kept(nonces, []) == nonces && HashesOf(nonces, []) == {} && Held(txs, {}) == {}
  {
  }

  lemma NothingHeld(txs: ByHash, dropped: seq<u64>)
    ensures HashesOf(map[], dropped) == {} && Held(txs, {}) == {}
  {
  }

  // A sender's nonces up to and including a bound, ascending.
  function UpTo(nonces: Nonces, bound: u64): (r: seq<u64>) {
    Sorted(false, set n | n in nonces.Keys && n <= bound)
  }

  lemma UpToListed(nonces: Nonces, bound: u64)
    ensures var ns := UpTo(nonces, bound);
            && (forall n :: n in ns <==> n in nonces && n <= bound)
            && forall i, j :: 0 <= i < j < |ns| ==> ns[i] < ns[j]
    ensures UpTo(map[], bound) == []
  {
    SortedIsBestFirst(false, set n | n in nonces.Keys && n <= bound);
  }

  // The sender's nonces replaced by those beyond the bound.
  lemma PrunedHolds(ix: Index, sender: Address, bound: u64, txs: ByHash, nonces: Nonces)
    requires sender in ix.bySender && nonces == Kept(ix.bySender[sender], UpTo(ix.bySender[sender], bound))
    requires txs == ix.txs - HashesOf(ix.bySender[sender], UpTo(ix.bySender[sender], bound))
    ensures Pruned(ix, Index(txs, WithNonces(ix.bySender, sender, nonces)), sender, bound)
  {
    hide Kept, HashesOf, UpTo;
    KeptAll(ix.bySender[sender], bound);
  }

  lemma NothingPruned(ix: Index, sender: Address, bound: u64)
    requires sender !in ix.bySender
    ensures Pruned(ix, ix, sender, bound)
  {
    NothingHeld(ix.txs, UpTo(map[], bound));
  }

  lemma KeptAll(nonces: Nonces, bound: u64)
    ensures Kept(nonces, UpTo(nonces, bound)) == map n | n in nonces && n > bound :: nonces[n]
  {
  }

  // The sender keeps its nonces beyond the bound; the hashes behind the others leave the pool.
  ghost predicate Pruned(ix: Index, ix': Index, sender: Address, bound: u64) {
    && (forall s: Address :: NoncesOf(ix', s) ==
          var before := NoncesOf(ix, s);
          if s == sender then map n | n in before && n > bound :: before[n] else before)
    && ix'.txs == ix.txs - HashesOf(NoncesOf(ix, sender), UpTo(NoncesOf(ix, sender), bound))
  }

  lemma PrunedHash(ix: Index, sender: Address, bound: u64, h: TxHash)
    requires Agrees(ix) && h in ix.txs
    ensures h in HashesOf(NoncesOf(ix, sender), UpTo(NoncesOf(ix, sender), bound))
       <==> h.tx.from == sender && h.tx.nonce <= bound
  {
    hide NoncesOf;
    var nonces := NoncesOf(ix, sender);
    assert Pooled(ix, h);
    if h in HashesOf(nonces, UpTo(nonces, bound)) {
      var n :| n in nonces && n in UpTo(nonces, bound) && nonces[n] == h;
      assert Backed(ix, sender, n);
    }
    if h.tx.from == sender && h.tx.nonce <= bound {
      assert h.tx.nonce in nonces && h.tx.nonce in UpTo(nonces, bound);
    }
  }

  // Pruning agreeing indexes drops exactly the sender's transactions up to the bound.
  lemma PruneAgrees(ix: Index, ix': Index, sender: Address, bound: u64)
    requires Agrees(ix) && Pruned(ix, ix', sender, bound)
    ensures Agrees(ix')
    ensures forall h :: h in ix'.txs <==> h in ix.txs && !(h.tx.from == sender && h.tx.nonce <= bound)
  {
    hide NoncesOf, HashesOf, UpTo;
    forall h | h in ix.txs ensures h in ix'.txs <==> !(h.tx.from == sender && h.tx.nonce <= bound) {
      PrunedHash(ix, sender, bound, h);
    }
    forall h | h in ix'.txs ensures Pooled(ix', h) {
      assert Pooled(ix, h);
    }
    forall s: Address, n: u64 ensures Backed(ix', s, n) {
      assert Backed(ix, s, n);
    }
  }

  // ---------------------------------------------------------------------------
  // The indexes, updated in place
  // ---------------------------------------------------------------------------

  class TransactionIndex {
    var txs: ByHash
    var bySender: BySender

    function View(): (r: Index) reads this { Index(txs, bySender) }

    constructor ()
      ensures View() == Index(map[], map[])
    {
      txs, bySender := map[], map[];
    }

    method Insert(tx: Transaction) returns (h: TxHash)
      modifies this
      ensures h == TxHash(tx) && View() == Inserted(old(View()), tx)
      ensures txs == old(txs)[h := tx]
      ensures forall s: Address, n: u64 :: Found(View(), s, n) ==
                (if s == tx.from && n == tx.nonce then Some(h) else Found(old(View()), s, n))
    {
      h := TxHash(tx);
      txs := txs[h := tx];
      var nonces := if tx.from in bySender then bySender[tx.from] else map[];
      bySender := bySender[tx.from := nonces[tx.nonce := h]];
    }

    method Remove(h: TxHash) returns (r: Option<Transaction>)
      modifies this
      ensures View() == Removed(old(View()), h)
      ensures txs == old(txs) - {h}
      ensures forall s: Address, n: u64 :: Found(View(), s, n) ==
                (if h in old(txs) && s == old(txs)[h].from && n == old(txs)[h].nonce then None
                 else Found(old(View()), s, n))
      ensures r == if h in old(txs) then Some(old(txs)[h]) else None
    {
      ghost var ix := View();
      forall s: Address, n: u64
        ensures Found(Removed(ix, h), s, n) == (if h in txs && s == txs[h].from && n == txs[h].nonce then None
                                                else Found(ix, s, n))
        ensures Removed(ix, h).txs == txs - {h}
      {
        RemovedFound(ix, h, s, n);
      }
      RemovedFound(ix, h, 0, 0);
      if h !in txs {
        return None;
      }
      var tx := txs[h];
      txs := txs - {h};
      if tx.from in bySender {
        var nonces := bySender[tx.from] - {tx.nonce};
        bySender := if nonces == map[] then bySender - {tx.from} else bySender[tx.from := nonces];
      }
      r := Some(tx);
    }

    // Drop a sender's transactions up to and including a nonce, whether or not the indexes agree.
    method RemoveUpToNonce(sender: Address, bound: u64) returns (removed: seq<Transaction>)
      modifies this
      ensures Pruned(old(View()), View(), sender, bound)
      ensures forall tx :: tx in removed <==>
                tx in Held(old(txs),
                           HashesOf(NoncesOf(old(View()), sender), UpTo(NoncesOf(old(View()), sender), bound)))
      ensures Agrees(old(View())) ==>
                removed == Listed(old(View()), sender, UpTo(NoncesOf(old(View()), sender), bound))
    {
      hide Held, HashesOf, Kept, Agrees, Listed, UpTo, Pruned;
      ListedNothing(View(), sender);
      UpToListed(NoncesOf(View(), sender), bound);
      removed := [];
      if sender !in bySender {
        NothingHeld(txs, UpTo(map[], bound));
        NothingPruned(View(), sender, bound);
        return;
      }
      var before := bySender[sender];
      var nonces := before;
      var toRemove := UpTo(nonces, bound);
      StartOfDrop(txs, before);
      ghost var ix, agreed := View(), Agrees(View());
      assert forall n :: n in toRemove ==> n in NoncesOf(ix, sender);
      var i := 0;
      while i < |toRemove|
        invariant 0 <= i <= |toRemove| && bySender == old(bySender)
        invariant nonces == Kept(before, toRemove[..i])
        invariant txs == old(txs) - HashesOf(before, toRemove[..i])
        invariant forall tx :: tx in removed <==> tx in Held(old(txs), HashesOf(before, toRemove[..i]))
        invariant agreed ==> removed == Listed(ix, sender, toRemove[..i])
      {
        var n := toRemove[i];
        assert n in toRemove && n !in toRemove[..i];
        assert toRemove[..i + 1] == toRemove[..i] + [n];
        DropOneMore(before, toRemove[..i], n);
        HeldOneMore(old(txs), HashesOf(before, toRemove[..i]), before[n]);
        KeptHas(before, toRemove[..i], n);
        if agreed {
          ListedNext(ix, sender, toRemove[..i], n);
        }
        var h := nonces[n];
        nonces := nonces - {n};
        if h in txs {
          removed := removed + [txs[h]];
          txs := txs - {h};
        }
        i := i + 1;
      }
      bySender := if nonces == map[] then bySender - {sender} else bySender[sender := nonces];
      assert toRemove[..i] == toRemove;
      PrunedHolds(ix, sender, bound, txs, nonces);
    }
  }

  // ---------------------------------------------------------------------------
  // The pool
  // ---------------------------------------------------------------------------

  datatype Added = Accepted(hash: TxHash) | PoolFull | Duplicate | RateLimited

  class Pool {
    const index: TransactionIndex
    const maxSize: nat
    const maxPerSender: nat

    constructor (maxSize: nat, maxPerSender: nat)
      ensures fresh(index) && index.View() == Index(map[], map[])
      ensures this.maxSize == maxSize && this.maxPerSender == maxPerSender
    {
      index := new TransactionIndex();
      this.maxSize, this.maxPerSender := maxSize, maxPerSender;
    }

    // Both limits hold.
    predicate WithinLimits() reads index {
      && |index.txs| <= maxSize
      && forall s :: s in index.bySender ==> |index.bySender[s]| <= maxPerSender
    }

    // Validate capacity, then duplicates, then the sender's share; insert only if all pass.
    method Add(tx: Transaction) returns (r: Added)
      modifies index
      ensures old(WithinLimits()) ==> WithinLimits()
      ensures r.Accepted? <==>
                && |old(index.txs)| < maxSize && TxHash(tx) !in old(index.txs)
                && |NoncesOf(old(index.View()), tx.from)| < maxPerSender
      ensures r.Accepted? ==> r.hash == TxHash(tx) && index.View() == Inserted(old(index.View()), tx)
      ensures !r.Accepted? ==> index.View() == old(index.View())
      ensures r.PoolFull? <==> |old(index.txs)| >= maxSize
      ensures r.Duplicate? <==> |old(index.txs)| < maxSize && TxHash(tx) in old(index.txs)
    {
      if |index.txs| >= maxSize {
        return PoolFull;
      }
      var h := TxHash(tx);
      if h in index.txs {
        return Duplicate;
      }
      var count := if tx.from in index.bySender then |index.bySender[tx.from]| else 0;
      if count >= maxPerSender {
        return RateLimited;
      }
      assert |NoncesOf(index.View(), tx.from)| == count;
      h := index.Insert(tx);
      r := Accepted(h);
    }

    // Up to `limit` transactions, sender by sender.
    method ReadyTxs(limit: nat) returns (ready: seq<Transaction>)
      ensures exists senders ::
                && AllSenders(index.View(), senders) && ready <= Gathered(index.View(), senders)
                && |ready| == Min(limit, |Gathered(index.View(), senders)|)
    {
      var left := index.bySender.Keys;
      var all: seq<Transaction> := [];
      ghost var senders: seq<Address> := [];
      while left != {}
        invariant left <= index.bySender.Keys && Distinct(senders)
        invariant forall s :: s in senders <==> s in index.bySender && s !in left
        invariant all == Gathered(index.View(), senders)
        decreases |left|
      {
        var s :| s in left;
        all := all + GetBySender(index.View(), s);
        assert (senders + [s])[..|senders|] == senders;
        senders := senders + [s];
        left := left - {s};
      }
      assert AllSenders(index.View(), senders);
      ready := Take(all, limit);
    }
  }
}
