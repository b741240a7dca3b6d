// Executing transactions in nonce order, and what that does to the pool they came from.
module Executor {
  import opened Types
  import opened Queues
  import opened Mempool

  // Stored account nonces; an absent account is at nonce 0.
  type Stored = map<Address, u64>

  function NonceOf(stored: Stored, a: Address): (n: u64) {
    if a in stored then stored[a] else 0
  }

  // Adding 1 wraps after the last nonce.
  function NextNonce(n: u64): (r: u64) {
    if n + 1 < U64 then n + 1 else 0
  }

  // The nonce k successes later.
  function NonceAfter(n: u64, k: nat): (r: u64) {
    TruncateU64(n + k)
  }

  lemma NonceAfterNext(n: u64, k: nat)
    ensures NonceAfter(n, 0) == n && NonceAfter(n, k + 1) == NextNonce(NonceAfter(n, k))
  {
    var wraps := (n + k) / U64;
    assert n + k == wraps * U64 + NonceAfter(n, k);
    if NonceAfter(n, k) + 1 == U64 {
      assert n + k + 1 == (wraps + 1) * U64;
    }
  }

  lemma NonceAfterShort(n: u64, k: nat)
    ensures n + k < U64 ==> NonceAfter(n, k) == n + k
    ensures 0 < k < U64 ==> NonceAfter(n, k) != n
  {
    if n + k >= U64 && k < U64 {
      assert NonceAfter(n, k) == n + k - U64;
    }
  }

  // One entry of a batch, with what signature checking and the payload's own execution answer for it.
  datatype Attempt = Undecodable | Attempt(tx: Transaction, authorized: bool, applies: bool)

  datatype Outcome =
    | Success
    | BadSignature
    | InvalidNonce(expected: u64, got: u64)
    | NonceGap(expected: u64, got: u64)
    | PayloadFailed

  predicate Succeeds(stored: Stored, a: Attempt) {
    a.Attempt? && a.authorized && a.tx.nonce == NonceOf(stored, a.tx.from) && a.applies
  }

  function Advance(stored: Stored, a: Attempt): (r: Stored) {
    if Succeeds(stored, a) then stored[a.tx.from := NextNonce(NonceOf(stored, a.tx.from))] else stored
  }

  // The stored nonces after a batch.
  function AdvanceAll(stored: Stored, batch: seq<Attempt>): (r: Stored) {
    if batch == [] then stored else Advance(AdvanceAll(stored, batch[..|batch| - 1]), batch[|batch| - 1])
  }

  // Entry k succeeds when its turn comes.
  predicate SucceedsAt(stored: Stored, batch: seq<Attempt>, k: nat)
    requires k < |batch|
  {
    Succeeds(AdvanceAll(stored, batch[..k]), batch[k])
  }

  // The pool after a batch: a success leaves it, a failure stays.
  function Drained(stored: Stored, pool: Index, batch: seq<Attempt>): (r: Index) {
    if batch == [] then pool
    else
      var init, last := batch[..|batch| - 1], batch[|batch| - 1];
      var before := Drained(stored, pool, init);
      if Succeeds(AdvanceAll(stored, init), last) then Removed(before, TxHash(last.tx)) else before
  }

  // The nonces a sender's successful transactions carried, in the order they succeeded.
  function SuccessNonces(stored: Stored, batch: seq<Attempt>, s: Address): (r: seq<u64>) {
    if batch == [] then []
    else
      var init, last := batch[..|batch| - 1], batch[|batch| - 1];
      var before := SuccessNonces(stored, init, s);
      if Succeeds(AdvanceAll(stored, init), last) && last.tx.from == s then before + [last.tx.nonce] else before
  }

  function Successes(stored: Stored, batch: seq<Attempt>): (r: nat) {
    if batch == [] then 0
    else Successes(stored, batch[..|batch| - 1]) + (if SucceedsAt(stored, batch, |batch| - 1) then 1 else 0)
  }

  // The entries that succeed when their turn comes.
  ghost function SuccessfulEntries(stored: Stored, batch: seq<Attempt>): (r: set<nat>) {
    set k: nat | k < |batch| && SucceedsAt(stored, batch, k)
  }

  lemma {:induction false} SuccessesCount(stored: Stored, batch: seq<Attempt>)
    ensures Successes(stored, batch) == |SuccessfulEntries(stored, batch)|
  {
    hide Succeeds, AdvanceAll;
    if batch == [] {
      assert SuccessfulEntries(stored, batch) == {};
    } else {
      SuccessesCount(stored, batch[..|batch| - 1]);
      OneMoreEntry(stored, batch);
    }
  }

  lemma OneMoreEntry(stored: Stored, batch: seq<Attempt>)
    requires batch != []
    ensures var n := |batch| - 1;
            SuccessfulEntries(stored, batch)
            == SuccessfulEntries(stored, batch[..n]) + (if SucceedsAt(stored, batch, n) then {n} else {})
  {
    hide SucceedsAt;
    var n := |batch| - 1;
    forall k: nat | k < n ensures SucceedsAt(stored, batch[..n], k) <==> SucceedsAt(stored, batch, k) {
      SamePrefixSucceeds(stored, batch, n, k);
    }
  }

  lemma SamePrefixSucceeds(stored: Stored, batch: seq<Attempt>, n: nat, k: nat)
    requires k < n <= |batch|
    ensures SucceedsAt(stored, batch[..n], k) <==> SucceedsAt(stored, batch, k)
  {
    assert batch[..n][..k] == batch[..k];
  }

  // ---------------------------------------------------------------------------
  // Nonce discipline over any run
  // ---------------------------------------------------------------------------

  lemma {:induction false} AdvanceConcat(stored: Stored, a: seq<Attempt>, b: seq<Attempt>)
    ensures AdvanceAll(stored, a + b) == AdvanceAll(AdvanceAll(stored, a), b)
  {
    if b == [] {
      assert a + b == a;
    } else {
      assert (a + b)[..|a + b| - 1] == a + b[..|b| - 1];
      AdvanceConcat(stored, a, b[..|b| - 1]);
    }
  }

  // A sender's successes carry consecutive nonces from its stored one, which moves on by their number; both
  // count modulo 2^64.
  lemma {:induction false} SuccessesAreConsecutive(stored: Stored, batch: seq<Attempt>, s: Address)
    ensures forall i :: 0 <= i < |SuccessNonces(stored, batch, s)| ==>
              SuccessNonces(stored, batch, s)[i] == NonceAfter(NonceOf(stored, s), i)
    ensures NonceOf(AdvanceAll(stored, batch), s) == NonceAfter(NonceOf(stored, s), |SuccessNonces(stored, batch, s)|)
  {
    hide NonceAfter;
    NonceAfterNext(NonceOf(stored, s), 0);
    if batch != [] {
      SuccessesAreConsecutive(stored, batch[..|batch| - 1], s);
      NonceAfterNext(NonceOf(stored, s), |SuccessNonces(stored, batch[..|batch| - 1], s)|);
    }
  }

  // Nothing succeeds twice: of two successes of a sender the later carries the nonce after the earlier one by
  // one more than the successes between them, so a different one unless 2^64 succeed in a row.
  lemma NoReplay(stored: Stored, batch: seq<Attempt>, k: nat, l: nat)
    requires k < l < |batch| && SucceedsAt(stored, batch, k) && SucceedsAt(stored, batch, l)
    requires batch[k].tx.from == batch[l].tx.from
    ensures var between := |SuccessNonces(AdvanceAll(stored, batch[..k + 1]), batch[k + 1..l], batch[k].tx.from)|;
            && batch[l].tx.nonce == NonceAfter(batch[k].tx.nonce, between + 1)
            && (between + 1 < U64 ==> batch[l].tx.nonce != batch[k].tx.nonce)
            && (batch[k].tx.nonce + between + 1 < U64 ==> batch[k].tx.nonce < batch[l].tx.nonce)
  {
    var s := batch[k].tx.from;
    var after := AdvanceAll(stored, batch[..k + 1]);
    var between := |SuccessNonces(after, batch[k + 1..l], s)|;
    assert batch[..k + 1][..k] == batch[..k];
    assert batch[..l] == batch[..k + 1] + batch[k + 1..l];
    AdvanceConcat(stored, batch[..k + 1], batch[k + 1..l]);
    SuccessesAreConsecutive(after, batch[k + 1..l], s);
    AfterFromNext(batch[k].tx.nonce, between);
    NonceAfterShort(batch[k].tx.nonce, between + 1);
  }

  lemma {:induction false} AfterFromNext(n: u64, k: nat)
    ensures NonceAfter(NextNonce(n), k) == NonceAfter(n, k + 1)
  {
    hide NonceAfter;
    NonceAfterNext(n, 0);
    NonceAfterNext(NextNonce(n), 0);
    if k > 0 {
      AfterFromNext(n, k - 1);
      NonceAfterNext(n, k);
      NonceAfterNext(NextNonce(n), k - 1);
    }
  }

  // An authorized transaction whose payload applies succeeds exactly when its nonce is
  // the sender's stored one moved on by the number of the sender's earlier successes.
  lemma SucceedsExactly(stored: Stored, batch: seq<Attempt>, k: nat)
    requires k < |batch| && batch[k].Attempt? && batch[k].authorized && batch[k].applies
    ensures SucceedsAt(stored, batch, k) <==>
              batch[k].tx.nonce
              == NonceAfter(NonceOf(stored, batch[k].tx.from), |SuccessNonces(stored, batch[..k], batch[k].tx.from)|)
  {
    SuccessesAreConsecutive(stored, batch[..k], batch[k].tx.from);
  }

  // Batches run one after the other are one run.
  function Flatten(batches: seq<seq<Attempt>>): (r: seq<Attempt>) {
    if batches == [] then [] else Flatten(batches[..|batches| - 1]) + batches[|batches| - 1]
  }

  function RunBatches(stored: Stored, batches: seq<seq<Attempt>>): (r: Stored) {
    if batches == [] then stored
    else AdvanceAll(RunBatches(stored, batches[..|batches| - 1]), batches[|batches| - 1])
  }

  lemma {:induction false} BatchesAreOneRun(stored: Stored, batches: seq<seq<Attempt>>, s: Address)
    ensures RunBatches(stored, batches) == AdvanceAll(stored, Flatten(batches))
    ensures NonceOf(RunBatches(stored, batches), s)
         == NonceAfter(NonceOf(stored, s), |SuccessNonces(stored, Flatten(batches), s)|)
  {
    if batches != [] {
      var init := batches[..|batches| - 1];
      BatchesAreOneRun(stored, init, s);
      AdvanceConcat(stored, Flatten(init), batches[|batches| - 1]);
    }
    SuccessesAreConsecutive(stored, Flatten(batches), s);
  }

  // ---------------------------------------------------------------------------
  // Contiguous pending nonces
  // ---------------------------------------------------------------------------

  // Pending nonces start at the stored one and leave no gap.
  ghost predicate NoGaps(keys: set<u64>, lo: nat) {
    forall n :: n in keys ==> lo <= n && forall m: u64 :: lo <= m < n ==> m in keys
  }

  ghost predicate Contiguous(stored: Stored, pool: Index) {
    forall s: Address :: NoGaps(NoncesOf(pool, s).Keys, NonceOf(stored, s))
  }

  lemma {:induction false} SortedCounts(keys: set<u64>, lo: nat)
    requires NoGaps(keys, lo)
    ensures forall i :: 0 <= i < |Sorted(false, keys)| ==> Sorted(false, keys)[i] == lo + i
    decreases |keys|
  {
    if keys != {} {
      var b := BestOf(false, keys);
      var l: u64 := lo;
      assert l in keys || l == b;
      SortedCounts(keys - {b}, lo + 1);
      forall i | 0 <= i < |Sorted(false, keys)| ensures Sorted(false, keys)[i] == lo + i {
        assert i > 0 ==> Sorted(false, keys)[i] == Sorted(false, keys - {b})[i - 1];
      }
    }
  }

  lemma AdvanceNonce(stored: Stored, a: Attempt, s: Address)
    requires Succeeds(stored, a)
    ensures NonceOf(Advance(stored, a), s)
         == if s == a.tx.from then NextNonce(NonceOf(stored, s)) else NonceOf(stored, s)
  {
  }

  // The pool held no different transaction at the nonce of one that succeeds.
  predicate NotDisplaced(pool: Index, tx: Transaction) {
    tx.nonce in NoncesOf(pool, tx.from) ==> NoncesOf(pool, tx.from)[tx.nonce] == TxHash(tx)
  }

  lemma ContiguityKept(stored: Stored, pool: Index, a: Attempt)
    requires Agrees(pool) && Contiguous(stored, pool) && Succeeds(stored, a) && NotDisplaced(pool, a.tx)
    ensures Contiguous(Advance(stored, a), Removed(pool, TxHash(a.tx)))
  {
    hide NoncesOf, Removed, Advance, NonceOf;
    var s, n, h := a.tx.from, a.tx.nonce, TxHash(a.tx);
    RemoveAgrees(pool, h);
    assert Backed(pool, s, n);
    assert h in pool.txs ==> Pooled(pool, h);
    var pool' := Removed(pool, h);
    forall x: Address ensures NoGaps(NoncesOf(pool', x).Keys, NonceOf(Advance(stored, a), x)) {
      AdvanceNonce(stored, a, x);
      var keys := NoncesOf(pool, x).Keys;
      assert NoGaps(keys, NonceOf(stored, x));
      assert x == s ==> NoncesOf(pool', x).Keys == keys - {n};
    }
  }

  lemma ContiguityLost(stored: Stored, pool: Index, a: Attempt)
    requires Agrees(pool) && Contiguous(stored, pool) && Succeeds(stored, a) && !NotDisplaced(pool, a.tx)
    ensures !Contiguous(Advance(stored, a), Removed(pool, TxHash(a.tx)))
  {
    hide NoncesOf, Removed, Advance;
    var s, n, h := a.tx.from, a.tx.nonce, TxHash(a.tx);
    assert h in pool.txs ==> Pooled(pool, h);
    RemoveAgrees(pool, h);
    AdvanceNonce(stored, a, s);
    assert n in NoncesOf(Removed(pool, h), s).Keys;
    assert NoGaps(NoncesOf(pool, s).Keys, NonceOf(stored, s));
    assert NextNonce(n) == 0 ==> 0 !in NoncesOf(pool, s).Keys;
    assert !NoGaps(NoncesOf(Removed(pool, h), s).Keys, NonceOf(Advance(stored, a), s));
  }

  // After a success no sender has a gap exactly when the transaction displaced no other.
  lemma ContiguityKeptExactly(stored: Stored, pool: Index, a: Attempt)
    requires Agrees(pool) && Contiguous(stored, pool) && Succeeds(stored, a)
    ensures Contiguous(Advance(stored, a), Removed(pool, TxHash(a.tx))) <==> NotDisplaced(pool, a.tx)
  {
    hide NotDisplaced, Agrees, Contiguous, Advance, Removed, NoncesOf;
    if NotDisplaced(pool, a.tx) {
      ContiguityKept(stored, pool, a);
    } else {
      ContiguityLost(stored, pool, a);
    }
  }

  // ---------------------------------------------------------------------------
  // What the pool hands out executes
  // ---------------------------------------------------------------------------

  function CountFrom(txs: seq<Transaction>, s: Address): (r: nat)
    ensures r <= |txs|
  {
    if txs == [] then 0 else CountFrom(txs[..|txs| - 1], s) + (if txs[|txs| - 1].from == s then 1 else 0)
  }

  lemma {:induction false} CountConcat(a: seq<Transaction>, b: seq<Transaction>, s: Address)
    ensures CountFrom(a + b, s) == CountFrom(a, s) + CountFrom(b, s)
  {
    if b == [] {
      assert a + b == a;
    } else {
      assert (a + b)[..|a + b| - 1] == a + b[..|b| - 1];
      CountConcat(a, b[..|b| - 1], s);
    }
  }

  lemma {:induction false} CountAll(txs: seq<Transaction>, s: Address, all: bool)
    requires forall i :: 0 <= i < |txs| ==> (txs[i].from == s) == all
    ensures CountFrom(txs, s) == if all then |txs| else 0
  {
    if txs != [] {
      CountAll(txs[..|txs| - 1], s, all);
    }
  }

  // The transaction at position i is due once the ones before it have executed.
  ghost predicate Due(stored: Stored, txs: seq<Transaction>, i: nat)
    requires i < |txs|
  {
    txs[i].nonce == NonceOf(stored, txs[i].from) + CountFrom(txs[..i], txs[i].from)
  }

  ghost predicate InTurn(stored: Stored, txs: seq<Transaction>) {
    forall i :: 0 <= i < |txs| ==> Due(stored, txs, i)
  }

  lemma SenderInTurn(stored: Stored, pool: Index, s: Address)
    requires Agrees(pool) && Contiguous(stored, pool)
    ensures InTurn(stored, GetBySender(pool, s))
    ensures forall i :: 0 <= i < |GetBySender(pool, s)| ==> GetBySender(pool, s)[i].from == s
  {
    hide NoncesOf, Listed;
    var keys := Sorted(false, NoncesOf(pool, s).Keys);
    var txs := GetBySender(pool, s);
    assert NoGaps(NoncesOf(pool, s).Keys, NonceOf(stored, s));
    SortedCounts(NoncesOf(pool, s).Keys, NonceOf(stored, s));
    ListedAt(pool, s, keys);
    forall i | 0 <= i < |txs| ensures txs[i].from == s && txs[i].nonce == NonceOf(stored, s) + i {
      assert keys[i] in keys && Backed(pool, s, keys[i]);
    }
    forall i | 0 <= i < |txs| ensures Due(stored, txs, i) {
      CountAll(txs[..i], s, true);
    }
  }

  // Lists of different senders stay in turn when one follows the other.
  lemma ConcatInTurn(stored: Stored, a: seq<Transaction>, b: seq<Transaction>, s: Address)
    requires InTurn(stored, a) && InTurn(stored, b)
    requires forall i :: 0 <= i < |b| ==> b[i].from == s
    requires forall i :: 0 <= i < |a| ==> a[i].from != s
    ensures InTurn(stored, a + b)
  {
    var txs := a + b;
    forall i | 0 <= i < |txs| ensures Due(stored, txs, i) {
      if i < |a| {
        assert txs[..i] == a[..i] && Due(stored, a, i);
      } else {
        assert txs[..i] == a + b[..i - |a|] && Due(stored, b, i - |a|);
        CountConcat(a, b[..i - |a|], s);
        CountAll(a, s, false);
      }
    }
  }

  lemma {:induction false} GatheredInTurn(stored: Stored, pool: Index, senders: seq<Address>)
    requires Agrees(pool) && Contiguous(stored, pool) && Distinct(senders)
    ensures InTurn(stored, Gathered(pool, senders))
    ensures forall tx :: tx in Gathered(pool, senders) <==> TxHash(tx) in pool.txs && tx.from in senders
  {
    hide GetBySender, Agrees, Contiguous;
    if senders != [] {
      var init, s := senders[..|senders| - 1], senders[|senders| - 1];
      GatheredInTurn(stored, pool, init);
      SenderInTurn(stored, pool, s);
      BySenderComplete(pool, s);
      var a := Gathered(pool, init);
      forall i | 0 <= i < |a| ensures a[i].from != s {
        assert a[i] in a;
      }
      ConcatInTurn(stored, a, GetBySender(pool, s), s);
    }
  }

  // A batch whose signatures and payloads are all good.
  function Good(txs: seq<Transaction>): (r: seq<Attempt>)
    ensures |r| == |txs| && forall i :: 0 <= i < |txs| ==> r[i] == Attempt(txs[i], true, true)
  {
    if txs == [] then [] else Good(txs[..|txs| - 1]) + [Attempt(txs[|txs| - 1], true, true)]
  }

  function Hashes(txs: seq<Transaction>): (r: set<TxHash>) {
    set tx | tx in txs :: TxHash(tx)
  }

  lemma InTurnInit(stored: Stored, txs: seq<Transaction>)
    requires InTurn(stored, txs) && txs != []
    ensures InTurn(stored, txs[..|txs| - 1]) && Due(stored, txs, |txs| - 1)
  {
    var init := txs[..|txs| - 1];
    forall i | 0 <= i < |init| ensures Due(stored, init, i) {
      assert Due(stored, txs, i) && init[..i] == txs[..i];
    }
  }

  // One more good transaction that is due.
  lemma DueSucceeds(stored: Stored, now: Stored, init: seq<Transaction>, last: Transaction, s: Address)
    requires forall a: Address :: NonceOf(now, a) == NonceAfter(NonceOf(stored, a), CountFrom(init, a))
    requires last.nonce == NonceOf(stored, last.from) + CountFrom(init, last.from)
    ensures var a := Attempt(last, true, true);
            && Succeeds(now, a)
            && NonceOf(Advance(now, a), s) == NonceAfter(NonceOf(stored, s), CountFrom(init + [last], s))
  {
    hide NonceAfter, NextNonce, CountFrom;
    NonceAfterShort(NonceOf(stored, last.from), CountFrom(init, last.from));
    AdvanceNonce(now, Attempt(last, true, true), s);
    NonceAfterNext(NonceOf(stored, s), CountFrom(init, s));
    CountOne(init, last, s);
  }

  lemma CountOne(init: seq<Transaction>, last: Transaction, s: Address)
    ensures CountFrom(init + [last], s) == CountFrom(init, s) + (if last.from == s then 1 else 0)
  {
    assert (init + [last])[..|init|] == init;
  }

  // Executing transactions in turn: each succeeds, and the stored nonces count them.
  lemma {:induction false} InTurnSucceeds(stored: Stored, txs: seq<Transaction>)
    requires InTurn(stored, txs)
    ensures forall s: Address ::
              NonceOf(AdvanceAll(stored, Good(txs)), s) == NonceAfter(NonceOf(stored, s), CountFrom(txs, s))
    ensures forall k :: 0 <= k < |txs| ==> SucceedsAt(stored, Good(txs), k)
  {
    hide NonceAfter, InTurn, Advance, Succeeds, NonceOf;
    if txs == [] {
      forall s: Address ensures NonceAfter(NonceOf(stored, s), 0) == NonceOf(stored, s) {
        NonceAfterNext(NonceOf(stored, s), 0);
      }
    } else {
      var init, last := txs[..|txs| - 1], txs[|txs| - 1];
      InTurnInit(stored, txs);
      InTurnSucceeds(stored, init);
      var now := AdvanceAll(stored, Good(init));
      assert Good(txs)[..|init|] == Good(init) && init + [last] == txs;
      forall s: Address
        ensures Succeeds(now, Attempt(last, true, true))
        ensures NonceOf(AdvanceAll(stored, Good(txs)), s) == NonceAfter(NonceOf(stored, s), CountFrom(txs, s))
      {
        DueSucceeds(stored, now, init, last, s);
      }
      DueSucceeds(stored, now, init, last, 0);
      forall k | 0 <= k < |txs| ensures SucceedsAt(stored, Good(txs), k) {
        assert k < |init| ==> Good(txs)[..k] == Good(init)[..k] && SucceedsAt(stored, Good(init), k);
      }
    }
  }

  // No transaction appears twice in a list that is in turn.
  lemma InTurnDistinct(stored: Stored, txs: seq<Transaction>, j: nat, k: nat)
    requires InTurn(stored, txs) && j < k < |txs|
    ensures txs[j] != txs[k]
  {
    var s := txs[j].from;
    assert Due(stored, txs, j) && Due(stored, txs, k);
    assert txs[..k] == txs[..j] + [txs[j]] + txs[j + 1..k];
    CountConcat(txs[..j] + [txs[j]], txs[j + 1..k], s);
    CountConcat(txs[..j], [txs[j]], s);
    assert CountFrom([txs[j]], s) == 1;
  }

  // ...and each leaves the pool, the indexes keep agreeing and no sender gets a gap.
  lemma {:induction false} InTurnDrains(stored: Stored, pool: Index, txs: seq<Transaction>)
    requires Agrees(pool) && Contiguous(stored, pool) && InTurn(stored, txs)
    requires forall i :: 0 <= i < |txs| ==> TxHash(txs[i]) in pool.txs
    ensures Agrees(Drained(stored, pool, Good(txs)))
    ensures Contiguous(AdvanceAll(stored, Good(txs)), Drained(stored, pool, Good(txs)))
    ensures Drained(stored, pool, Good(txs)).txs == pool.txs - Hashes(txs)
  {
    hide Agrees, Contiguous, Removed, Advance, NonceOf, CountFrom, InTurn, Due, Succeeds, NonceAfter;
    if txs != [] {
      var init, last := txs[..|txs| - 1], txs[|txs| - 1];
      InTurnInit(stored, txs);
      InTurnDrains(stored, pool, init);
      InTurnSucceeds(stored, txs);
      var before := Drained(stored, pool, Good(init));
      var batch := Good(txs);
      assert batch[..|init|] == Good(init) && SucceedsAt(stored, batch, |init|);
      forall j | 0 <= j < |init| ensures init[j] != last {
        InTurnDistinct(stored, txs, j, |init|);
      }
      assert TxHash(last) in before.txs;
      LastStep(AdvanceAll(stored, Good(init)), before, batch[|init|]);
      assert Hashes(txs) == Hashes(init) + {TxHash(last)};
    }
  }

  lemma LastStep(stored: Stored, pool: Index, a: Attempt)
    requires Agrees(pool) && Contiguous(stored, pool) && Succeeds(stored, a) && TxHash(a.tx) in pool.txs
    ensures Agrees(Removed(pool, TxHash(a.tx))) && Removed(pool, TxHash(a.tx)).txs == pool.txs - {TxHash(a.tx)}
    ensures Contiguous(Advance(stored, a), Removed(pool, TxHash(a.tx)))
  {
    hide Removed, Advance, Contiguous;
    assert Pooled(pool, TxHash(a.tx));
    RemoveAgrees(pool, TxHash(a.tx));
    ContiguityKept(stored, pool, a);
  }

  // From agreeing indexes without gaps, everything the pool calls ready executes, leaves the pool, and the
  // pool is without gaps again; whatever order the senders come in and wherever the limit cuts.
  lemma ReadyExecutes(stored: Stored, pool: Index, senders: seq<Address>, limit: nat)
    requires Agrees(pool) && Contiguous(stored, pool) && AllSenders(pool, senders)
    ensures var ready := Take(Gathered(pool, senders), limit);
            var pool' := Drained(stored, pool, Good(ready));
            && (forall k :: 0 <= k < |ready| ==> SucceedsAt(stored, Good(ready), k))
            && pool'.txs == pool.txs - Hashes(ready)
            && Agrees(pool') && Contiguous(AdvanceAll(stored, Good(ready)), pool')
  {
    hide Agrees, Contiguous;
    GatheredInTurn(stored, pool, senders);
    var all := Gathered(pool, senders);
    var ready := Take(all, limit);
    forall i | 0 <= i < |ready| ensures Due(stored, ready, i) && TxHash(ready[i]) in pool.txs {
      assert Due(stored, all, i) && ready[..i] == all[..i] && ready[i] == all[i];
      assert all[i] in all;
    }
    InTurnSucceeds(stored, ready);
    InTurnDrains(stored, pool, ready);
  }

  // Without a cut the whole pool executes.
  lemma EverythingExecutes(stored: Stored, pool: Index, senders: seq<Address>, limit: nat)
    requires Agrees(pool) && Contiguous(stored, pool) && AllSenders(pool, senders)
    requires limit >= |Gathered(pool, senders)|
    ensures Drained(stored, pool, Good(Take(Gathered(pool, senders), limit))).txs == map[]
  {
    ReadyExecutes(stored, pool, senders, limit);
    GatheredInTurn(stored, pool, senders);
    forall h | h in pool.txs ensures h in Hashes(Gathered(pool, senders)) {
      assert Pooled(pool, h);
      assert h.tx in Gathered(pool, senders);
    }
  }

  // ---------------------------------------------------------------------------
  // The executor
  // ---------------------------------------------------------------------------

  class TransactionExecutor {
    var stored: Stored
    const pool: Pool

    constructor (stored: Stored, pool: Pool)
      ensures this.stored == stored && this.pool == pool
    {
      this.stored, this.pool := stored, pool;
    }

    method VerifyNonce(tx: Transaction) returns (r: Option<Outcome>)
      ensures r.None? <==> tx.nonce == NonceOf(stored, tx.from)
      ensures r == Some(InvalidNonce(NonceOf(stored, tx.from), tx.nonce)) <==> tx.nonce < NonceOf(stored, tx.from)
      ensures r == Some(NonceGap(NonceOf(stored, tx.from), tx.nonce)) <==> tx.nonce > NonceOf(stored, tx.from)
    {
      var current := NonceOf(stored, tx.from);
      if tx.nonce < current {
        r := Some(InvalidNonce(current, tx.nonce));
      } else if tx.nonce > current {
        r := Some(NonceGap(current, tx.nonce));
      } else {
        r := None;
      }
    }

    // Check the signature, then the nonce, then apply the payload; only then move the nonce on and leave the pool.
    method Execute(tx: Transaction, authorized: bool, applies: bool) returns (r: Outcome)
      modifies this`stored, pool.index
      ensures var a := Attempt(tx, authorized, applies);
              && (r.Success? <==> Succeeds(old(stored), a))
              && stored == Advance(old(stored), a)
              && pool.index.View() == Drained(old(stored), old(pool.index.View()), [a])
      ensures r.BadSignature? <==> !authorized
      ensures r.PayloadFailed? <==> authorized && tx.nonce == NonceOf(old(stored), tx.from) && !applies
      ensures var expected := NonceOf(old(stored), tx.from);
              && (r == InvalidNonce(expected, tx.nonce) <==> authorized && tx.nonce < expected)
              && (r == NonceGap(expected, tx.nonce) <==> authorized && tx.nonce > expected)
    {
      ghost var before := pool.index.View();
      assert [Attempt(tx, authorized, applies)][..0] == [];
      if !authorized {
        return BadSignature;
      }
      var bad := VerifyNonce(tx);
      if bad.Some? {
        return bad.value;
      }
      if !applies {
        return PayloadFailed;
      }
      stored := stored[tx.from := NextNonce(NonceOf(stored, tx.from))];
      var _ := pool.index.Remove(TxHash(tx));
      r := Success;
    }

    method ExecuteBatch(batch: seq<Attempt>) returns (successful: nat, failed: nat)
      modifies this`stored, pool.index
      ensures stored == AdvanceAll(old(stored), batch)
      ensures pool.index.View() == Drained(old(stored), old(pool.index.View()), batch)
      ensures successful == |SuccessfulEntries(old(stored), batch)| && successful + failed == |batch|
    {
      successful, failed := 0, 0;
      for i := 0 to |batch|
        invariant stored == AdvanceAll(old(stored), batch[..i])
        invariant pool.index.View() == Drained(old(stored), old(pool.index.View()), batch[..i])
        invariant successful == Successes(old(stored), batch[..i]) && successful + failed == i
      {
        assert batch[..i + 1][..i] == batch[..i];
        if batch[i].Undecodable? {
          failed := failed + 1;
        } else {
          assert [batch[i]][..0] == [];
          var r := Execute(batch[i].tx, batch[i].authorized, batch[i].applies);
          if r.Success? {
            successful := successful + 1;
          } else {
            failed := failed + 1;
          }
        }
      }
      assert batch[..|batch|] == batch;
      SuccessesCount(old(stored), batch);
    }
  }
}
