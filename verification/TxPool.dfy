/**
 `TxPool` of core/tx_pool.go. The pool's maps are fields that its methods
 reassign; iteration over a map visits the keys in an arbitrary order.
 */
module TxPools {
  import opened Basics
  import opened TxTypes
  import opened SortedTxs
  import opened TxListSpec
  import opened Equalize
  import opened PoolState
  import opened PoolDemotion
  import opened PoolPromotion
  import opened PoolRemoval
  import opened PoolLimits
  import opened PoolGaps
  import opened TxSets
  import opened Gas

  /** Three hours, in nanoseconds. */
  const MAX_QUEUED_LIFETIME: nat := 10_800_000_000_000

  datatype AddError =
    | KnownTransaction | InvalidGasPrice | InvalidSender | NonExistentAccount | NonceTooLow
    | GasLimit | NegativeValue | InsufficientFunds | IntrinsicGasTooLow

  /** What is wrong with a transaction that is refused with error `e`. */
  ghost predicate Objection(chain: Chain, tx: Tx, e: AddError) {
    match e
    case KnownTransaction => false
    case InvalidGasPrice => tx.gasPrice != 0
    case InvalidSender => tx.from.None?
    case NonExistentAccount => tx.from.Some? && !chain.Exists(tx.from.value)
    case NonceTooLow => tx.from.Some? && tx.nonce < chain.Nonce(tx.from.value)
    case GasLimit => tx.gas > chain.gasLimit
    case NegativeValue => tx.value < 0
    case InsufficientFunds => tx.from.Some? && tx.Cost() > chain.Balance(tx.from.value)
    case IntrinsicGasTooLow => tx.gas < IntrinsicGas(tx.data, tx.to.None?, chain.homestead)
  }

  /** validateTx: what is required of a transaction, in the order of the checks. */
  function Validate(chain: Chain, tx: Tx): (e: Option<AddError>)
    ensures e.None? <==>
              && tx.gasPrice == 0 && tx.from.Some? && chain.Exists(tx.from.value) && tx.value >= 0
              && chain.Nonce(tx.from.value) <= tx.nonce && tx.Cost() <= chain.Balance(tx.from.value)
              && IntrinsicGas(tx.data, tx.to.None?, chain.homestead) <= tx.gas <= chain.gasLimit
    ensures e.Some? ==> Objection(chain, tx, e.value)
  {
    if tx.gasPrice != 0 then Some(InvalidGasPrice)
    else if tx.from.None? then Some(InvalidSender)
    else if !chain.Exists(tx.from.value) then Some(NonExistentAccount)
    else if chain.Nonce(tx.from.value) > tx.nonce then Some(NonceTooLow)
    else if chain.gasLimit < tx.gas then Some(GasLimit)
    else if tx.value < 0 then Some(NegativeValue)
    else if chain.Balance(tx.from.value) < tx.Cost() then Some(InsufficientFunds)
    else if tx.gas < IntrinsicGas(tx.data, tx.to.None?, chain.homestead) then Some(IntrinsicGasTooLow)
    else None
  }

  /** What adding one transaction of a batch does to the pool. */
  function AddedTo(s: Pool, tx: Tx): Pool {
    if tx.Hash() in s.all || Validate(s.chain, tx).Some? then s else Enqueue(s, tx)
  }

  function AllAdded(s: Pool, txs: seq<Tx>): Pool {
    if txs == [] then s else AddedTo(AllAdded(s, txs[..|txs| - 1]), txs[|txs| - 1])
  }

  /** A new valid transaction whose nonce is free in its sender's queue. */
  ghost predicate Fresh(s: Pool, tx: Tx) {
    tx.Hash() !in s.all && Validate(s.chain, tx).None? && tx.nonce !in s.QueueItems(tx.from.value)
  }

  ghost predicate SameSlot(tx: Tx, tx': Tx) {
    tx.from == tx'.from && tx.nonce == tx'.nonce
  }

  /** Transaction `i` of the batch is the first fresh one for its nonce. */
  ghost predicate Takes(s: Pool, txs: seq<Tx>, i: nat) {
    i < |txs| && Fresh(s, txs[i]) && forall j :: 0 <= j < i && SameSlot(txs[j], txs[i]) ==> !Fresh(s, txs[j])
  }

  ghost predicate TakenBy(s: Pool, txs: seq<Tx>, a: Address, n: nat) {
    exists i: nat :: Takes(s, txs, i) && txs[i].from == Some(a) && txs[i].nonce == n
  }

  ghost predicate TakenHash(s: Pool, txs: seq<Tx>, h: TxHash) {
    exists i: nat :: Takes(s, txs, i) && txs[i].Hash() == h
  }

  /** The queue of `a` has what it had, and what the batch takes. */
  ghost predicate QueuedAt(s: Pool, txs: seq<Tx>, s': Pool, a: Address) {
    && (forall n: nat :: n in s'.QueueItems(a) <==> n in s.QueueItems(a) || TakenBy(s, txs, a, n))
    && (forall n :: n in s'.QueueItems(a) ==>
          if n in s.QueueItems(a) then s'.QueueItems(a)[n] == s.QueueItems(a)[n]
          else TakenHash(s, txs, s'.QueueItems(a)[n].Hash()))
  }

  /** From `s` to `s'`: of a batch of transactions exactly the first fresh one for
      each nonce is queued and known. */
  ghost predicate QueuesAll(s: Pool, txs: seq<Tx>, s': Pool) {
    && s' == s.(queue := s'.queue, all := s'.all)
    && (forall h :: h in s'.all <==> h in s.all || TakenHash(s, txs, h))
    && (forall a :: QueuedAt(s, txs, s', a))
  }

  /** Where one transaction is fresh, the first such one of its nonce takes it. */
  lemma {:induction false} SomeoneTakes(s: Pool, txs: seq<Tx>, j: nat) returns (i: nat)
    requires j < |txs| && Fresh(s, txs[j])
    ensures i <= j && Takes(s, txs, i) && SameSlot(txs[i], txs[j])
    decreases j
  {
    if Takes(s, txs, j) {
      i := j;
    } else {
      var k :| 0 <= k < j && SameSlot(txs[k], txs[j]) && Fresh(s, txs[k]);
      i := SomeoneTakes(s, txs, k);
    }
  }

  /** The last transaction of a batch takes its nonce exactly if it is fresh when
      it comes. */
  lemma LastTakes(s: Pool, txs: seq<Tx>, n: nat, m: Pool)
    requires |txs| == n + 1 && QueuesAll(s, txs[..n], m)
    ensures Takes(s, txs, n) <==> Fresh(m, txs[n])
  {
    if Fresh(m, txs[n]) {
      FreshTakes(s, txs, n, m);
    } else if Takes(s, txs, n) {
      TakesFresh(s, txs, n, m);
    }
  }

  lemma FreshTakes(s: Pool, txs: seq<Tx>, n: nat, m: Pool)
    requires |txs| == n + 1 && QueuesAll(s, txs[..n], m) && Fresh(m, txs[n])
    ensures Takes(s, txs, n)
  {
    var tx, front := txs[n], txs[..n];
    assert QueuedAt(s, front, m, tx.from.value);
    if !Takes(s, txs, n) {
      var k :| 0 <= k < n && SameSlot(txs[k], tx) && Fresh(s, txs[k]);
      var i := SomeoneTakes(s, front, k);
      assert TakenBy(s, front, tx.from.value, tx.nonce);
    }
  }

  lemma TakesFresh(s: Pool, txs: seq<Tx>, n: nat, m: Pool)
    requires |txs| == n + 1 && QueuesAll(s, txs[..n], m) && Takes(s, txs, n)
    ensures Fresh(m, txs[n])
  {
    NoneBefore(s, txs, n);
    assert QueuedAt(s, txs[..n], m, txs[n].from.value);
  }

  lemma NoneBefore(s: Pool, txs: seq<Tx>, n: nat)
    requires |txs| == n + 1 && Takes(s, txs, n)
    ensures !TakenHash(s, txs[..n], txs[n].Hash()) && !TakenBy(s, txs[..n], txs[n].from.value, txs[n].nonce)
  {
    forall i: nat | i < n && SameSlot(txs[i], txs[n]) ensures !Takes(s, txs[..n], i) {
      TakesFront(s, txs, n, i);
    }
  }

  lemma TakesFront(s: Pool, txs: seq<Tx>, n: nat, i: nat)
    requires |txs| == n + 1 && i < n
    ensures Takes(s, txs, i) <==> Takes(s, txs[..n], i)
  {
    forall j | 0 <= j <= i ensures txs[..n][j] == txs[j] {
    }
  }

  lemma TakenHashNext(s: Pool, txs: seq<Tx>, n: nat, h: TxHash)
    requires |txs| == n + 1
    ensures TakenHash(s, txs, h) <==> TakenHash(s, txs[..n], h) || (Takes(s, txs, n) && h == txs[n].Hash())
  {
    if TakenHash(s, txs[..n], h) {
      var i: nat :| Takes(s, txs[..n], i) && txs[..n][i].Hash() == h;
      TakesFront(s, txs, n, i);
    }
    if TakenHash(s, txs, h) {
      var i: nat :| Takes(s, txs, i) && txs[i].Hash() == h;
      if i < n {
        TakesFront(s, txs, n, i);
        assert txs[..n][i] == txs[i];
      }
    }
  }

  lemma TakenByNext(s: Pool, txs: seq<Tx>, n: nat, a: Address, k: nat)
    requires |txs| == n + 1
    ensures TakenBy(s, txs, a, k) <==>
      TakenBy(s, txs[..n], a, k) || (Takes(s, txs, n) && txs[n].from == Some(a) && txs[n].nonce == k)
  {
    if TakenBy(s, txs[..n], a, k) {
      var i: nat :| Takes(s, txs[..n], i) && txs[..n][i].from == Some(a) && txs[..n][i].nonce == k;
      TakesFront(s, txs, n, i);
    }
    if TakenBy(s, txs, a, k) {
      var i: nat :| Takes(s, txs, i) && txs[i].from == Some(a) && txs[i].nonce == k;
      if i < n {
        TakesFront(s, txs, n, i);
        assert txs[..n][i] == txs[i];
      }
    }
  }

  lemma QueuesNext(s: Pool, txs: seq<Tx>, n: nat, m: Pool, s': Pool)
    requires |txs| == n + 1 && QueuesAll(s, txs[..n], m)
    requires if Fresh(m, txs[n]) then Queues(m, txs[n], s') else
      s' == m.(queue := s'.queue, all := s'.all) && s'.all == m.all && forall a :: s'.QueueItems(a) == m.QueueItems(a)
    ensures QueuesAll(s, txs, s')
  {
    LastTakes(s, txs, n, m);
    forall h ensures h in s'.all <==> h in s.all || TakenHash(s, txs, h) {
      TakenHashNext(s, txs, n, h);
    }
    forall a ensures QueuedAt(s, txs, s', a) {
      QueuedNext(s, txs, n, m, s', a);
    }
  }

  lemma QueuedNext(s: Pool, txs: seq<Tx>, n: nat, m: Pool, s': Pool, a: Address)
    requires |txs| == n + 1 && QueuedAt(s, txs[..n], m, a) && (Takes(s, txs, n) <==> Fresh(m, txs[n]))
    requires s'.QueueItems(a) == if Fresh(m, txs[n]) && txs[n].from == Some(a) then m.QueueItems(a)[txs[n].nonce as nat := txs[n]] else m.QueueItems(a)
    ensures QueuedAt(s, txs, s', a)
  {
    forall k: nat ensures k in s'.QueueItems(a) <==> k in s.QueueItems(a) || TakenBy(s, txs, a, k) {
      TakenByNext(s, txs, n, a, k);
    }
    forall k | k in s'.QueueItems(a) && k !in s.QueueItems(a) ensures TakenHash(s, txs, s'.QueueItems(a)[k].Hash()) {
      TakenHashNext(s, txs, n, s'.QueueItems(a)[k].Hash());
    }
  }

  lemma {:induction false} AllAddedExactly(s: Pool, txs: seq<Tx>)
    requires Sound(s)
    ensures QueuesAll(s, txs, AllAdded(s, txs))
  {
    if txs == [] {
      assert forall h :: !TakenHash(s, txs, h);
      assert forall a, n: nat :: !TakenBy(s, txs, a, n);
    } else {
      var n := |txs| - 1;
      var m := AllAdded(s, txs[..n]);
      AllAddedExactly(s, txs[..n]);
      AllAddedKeeps(s, txs[..n]);
      AddedExactly(m, txs[n]);
      QueuesNext(s, txs, n, m, AddedTo(m, txs[n]));
    }
  }

  lemma AddedExactly(s: Pool, tx: Tx)
    requires Sound(s)
    ensures var s' := AddedTo(s, tx);
      if Fresh(s, tx) then Queues(s, tx, s')
      else s' == s.(queue := s'.queue, all := s'.all) && s'.all == s.all && forall a :: s'.QueueItems(a) == s.QueueItems(a)
  {
    if tx.Hash() !in s.all && Validate(s.chain, tx).None? {
      EnqueueExactly(s, tx);
    }
  }

  lemma EnqueueFit(s: Pool, tx: Tx)
    requires Filed(s) && tx.from.Some? && tx.gasPrice == 0 && Local(s, Enqueue(s, tx), tx.from.value)
    requires tx.nonce >= s.chain.Nonce(tx.from.value) && tx.Cost() <= s.chain.Balance(tx.from.value)
    ensures Fit(s) ==> Fit(Enqueue(s, tx))
  {
    var a := tx.from.value;
    assert FiledAt(s, a);
    if Fit(s) {
      assert FitAt(s, a);
      EnqueueItems(if a in s.queue then s.queue[a] else EmptyList(false), tx);
      LocalFit(s, Enqueue(s, tx), a);
    }
  }

  /** Queueing a new valid transaction keeps what holds of the pool. */
  lemma AddedKeeps(s: Pool, tx: Tx)
    requires Sound(s)
    ensures var s' := AddedTo(s, tx);
      && Sound(s') && (Fit(s) ==> Fit(s')) && (forall a :: GaplessAt(s', a) <==> GaplessAt(s, a))
      && s' == s.(queue := s'.queue, all := s'.all)
  {
    if tx.Hash() !in s.all && Validate(s.chain, tx).None? {
      assert FiledAt(s, tx.from.value);
      EnqueueFiled(s, tx);
      EnqueueQueueOnly(s, tx);
      EnqueueFit(s, tx);
    }
  }

  lemma {:induction false} AllAddedKeeps(s: Pool, txs: seq<Tx>)
    requires Sound(s)
    ensures var s' := AllAdded(s, txs);
      && Sound(s') && (Fit(s) ==> Fit(s')) && (forall a :: GaplessAt(s', a) <==> GaplessAt(s, a))
      && s' == s.(queue := s'.queue, all := s'.all)
  {
    if txs != [] {
      AllAddedKeeps(s, txs[..|txs| - 1]);
      AddedKeeps(AllAdded(s, txs[..|txs| - 1]), txs[|txs| - 1]);
    }
  }

  lemma RemovesFit(s: Pool, hash: TxHash, s': Pool)
    requires Executable(s) && Removes(s, hash, s')
    ensures Fit(s) ==> Fit(s')
  {
    if hash in s.all {
      RemovedFit(s, s', hash.preimage.from.value, hash.preimage.nonce);
    }
  }

  /** As long as one of `txs` is left the account has a queue entry. */
  lemma StillQueued(s0: Pool, s: Pool, a: Address, txs: seq<Tx>, i: nat)
    requires i <= |txs| && Emptying(s0, s, a, txs, i) && Listed(s0.QueueItems(a), txs)
    ensures i < |txs| ==> a in s.queue
  {
    if i < |txs| {
      assert QueuedAfter(s0.PendingItems(a), s0.QueueItems(a), txs, i, txs[i].nonce);
    }
  }

  /** The sorted accounts: one with the latest heartbeat comes next. */
  method PopLatest(todo: set<Address>, beats: map<Address, nat>) returns (a: Address)
    requires todo != {}
    ensures a in todo && forall b :: b in todo ==> BeatIn(beats, b) <= BeatIn(beats, a)
  {
    ghost var latest := Maximal(todo, b => BeatIn(beats, b));
    a :| a in todo && forall b :: b in todo ==> BeatIn(beats, b) <= BeatIn(beats, a);
  }

  function BeatIn(beats: map<Address, nat>, a: Address): nat {
    if a in beats then beats[a] else 0
  }

  /** `s` has been demoted for the chain `head` and the next nonces are set. */
  ghost predicate Redemoted(s: Pool, head: Chain, s': Pool) {
    && s'.chain == head && NextNonces(s'.pending, s'.managed) && (forall a :: DemotedAt(s, s', a))
    && ForgetsDemoted(s.(chain := head), {}, s'.all)
  }

  lemma SameForgotten(s: Pool, s1: Pool, all: map<TxHash, Tx>)
    requires s1.pending == s.pending && s1.all == s.all && ForgetsDemoted(s1, {}, all)
    ensures ForgetsDemoted(s.(chain := s1.chain), {}, all)
  {
    var t := s.(chain := s1.chain);
    forall h ensures DemotedHash(t, {}, all, h) {
      assert DemotedHash(s1, {}, all, h);
    }
  }

  ghost predicate Idle(s: Pool, now: nat, a: Address) {
    now - s.Beat(a) > MAX_QUEUED_LIFETIME
  }

  /** The idle accounts outside of `todo` have lost all that they had queued,
      the other ones nothing. */
  ghost predicate Expiring(s0: Pool, s: Pool, now: nat, todo: set<Address>, drops: map<Address, nat>) {
    && todo <= s0.queue.Keys
    && (forall a :: a in drops <==> a in s0.queue && a !in todo && Idle(s0, now, a))
    && (forall a :: a in drops ==> drops[a] == |s0.queue[a].items|)
    && (forall a :: a !in drops ==> Untouched(s0, s, a))
  }

  lemma ExpiringStep(s0: Pool, s: Pool, s': Pool, now: nat, todo: set<Address>, drops: map<Address, nat>, a: Address)
    requires a in todo && a in s0.queue
    requires if Idle(s0, now, a) then a in drops && drops[a] == |s0.queue[a].items| && Local(s, s', a) else s' == s
    requires Expiring(s0, s, now, todo, if Idle(s0, now, a) then drops - {a} else drops)
    ensures Expiring(s0, s', now, todo - {a}, drops)
  {
    forall b | b !in drops ensures Untouched(s0, s', b) {
      assert Untouched(s0, s, b);
      assert Idle(s0, now, a) ==> b != a && Untouched(s, s', b);
    }
  }

  lemma TodoKept(s: Pool, s': Pool, todo: set<Address>, a: Address)
    requires Local(s, s', a) && todo <= s.queue.Keys
    ensures todo - {a} <= s'.queue.Keys
  {
    forall b | b in todo - {a} ensures b in s'.queue {
      assert Untouched(s, s', b);
    }
  }

  /** `txs` are the pending transactions of `a` in nonce order, all payable;
      without gaps they are consecutive from the chain nonce. */
  ghost predicate FlattenedAt(s: Pool, a: Address, txs: seq<Tx>) {
    && FlatOf(txs, s.PendingItems(a))
    && (forall i :: 0 <= i < |txs| ==> txs[i].Cost() <= s.chain.Balance(a))
    && (GaplessAt(s, a) ==> forall i :: 0 <= i < |txs| ==> txs[i].nonce == s.chain.Nonce(a) + i)
  }

  ghost predicate Flattened(s: Pool, txs: map<Address, seq<Tx>>) {
    txs.Keys == s.pending.Keys && forall a :: a in txs ==> FlattenedAt(s, a, txs[a])
  }

  lemma FlattenedPending(s: Pool, a: Address)
    requires Sound(s) && a in s.pending && Keyed(s.pending[a].items)
    ensures FlattenedAt(s, a, Flat(s.pending[a].items))
  {
    assert ExecutableAt(s, a);
    FlatIsListing(s.pending[a].items);
    if GaplessAt(s, a) {
      Consecutive(Flat(s.pending[a].items), s.pending[a].items, s.chain.Nonce(a), s.PendingNonce(a));
    }
  }

  /** The sorted contents of an interval are consecutive. */
  lemma Consecutive(txs: seq<Tx>, items: Items, from: nat, to: nat)
    requires FlatOf(txs, items) && Interval(items, from, to)
    ensures forall i :: 0 <= i < |txs| ==> txs[i].nonce == from + i
  {
    forall i | 0 <= i < |txs| ensures txs[i].nonce == from + i {
      var n: nat := txs[i].nonce;
      RankIsPosition(txs, items, i);
      assert (set k | k in items.Keys && k < n) == RangeSet(from, n);
    }
  }

  class TxPool {
    var pending: Lists
    var queue: Lists
    var all: map<TxHash, Tx>
    var managed: map<Address, nat>
    var beats: map<Address, nat>
    var chain: Chain
    var localTx: MarkSet

    /** The accounts whose pending nonces have a gap. */
    ghost var gaps: set<Address>

    ghost function View(): Pool
      reads this`pending, this`queue, this`all, this`managed, this`beats, this`chain
    {
      Pool(pending, queue, all, managed, beats, chain)
    }

    ghost predicate Valid()
      reads this
    {
      Sound(View()) && Fit(View()) && GapsOf(View(), gaps) && localTx.Valid()
    }

    // ---- one transaction ----

    method EnqueueTx(tx: Tx)
      requires tx.from.Some?
      modifies this`queue, this`all
      ensures View() == Enqueue(old(View()), tx)
    {
      var from := tx.from.value;
      var added := TxListSpec.Add(if from in queue then queue[from] else EmptyList(false), tx);
      if !added.inserted {
        return;
      }
      queue := queue[from := added.list];
      if added.replaced.Some? {
        all := all - {added.replaced.value.Hash()};
      }
      all := all[tx.Hash() := tx];
    }

    method PromoteTx(addr: Address, tx: Tx, now: nat)
      modifies this`pending, this`all, this`managed, this`beats
      ensures View() == Promote(old(View()), addr, tx, now)
    {
      var added := TxListSpec.Add(if addr in pending then pending[addr] else EmptyList(true), tx);
      if !added.inserted {
        all := all - {tx.Hash()};
        return;
      }
      pending := pending[addr := added.list];
      if added.replaced.Some? {
        all := all - {added.replaced.value.Hash()};
      }
      all := all[tx.Hash() := tx];
      beats := beats[addr := now];
      managed := managed[addr := tx.nonce + 1];
    }

    /** Deletes the given transactions from the table of known ones. */
    method Forget(items: Items)
      modifies this`all
      ensures all == old(all) - Hashes(items)
    {
      var todo := items;
      while todo.Keys != {}
        invariant Within(todo, items) && all == old(all) - Hashes(items - todo.Keys)
        decreases todo.Keys
      {
        var n :| n in todo;
        ForgetStep(old(all), items, todo, n);
        all := all - {todo[n].Hash()};
        todo := todo - {n};
      }
      assert items - todo.Keys == items;
    }

    /** Queues each of the given transactions that left the pending list of `a`. */
    method EnqueueAll(a: Address, items: Items)
      requires Filed(View()) && Keyed(items) && Unpended(View(), a, items)
      modifies this`queue, this`all
      ensures Filed(View()) && Local(old(View()), View(), a)
      ensures View().QueueItems(a) == items + old(View()).QueueItems(a)
      ensures AllIn(items, old(all)) ==> all == old(all)
    {
      ghost var s0 := View();
      var todo := items;
      RequeueStart(s0, a, items);
      while todo.Keys != {}
        invariant Within(todo, items) && Requeuing(s0, View(), a, items, todo)
        decreases todo.Keys
      {
        var n :| n in todo;
        RequeueStep(s0, View(), a, items, todo, n);
        EnqueueTx(todo[n]);
        todo := todo - {n};
      }
      assert items - todo.Keys == items;
    }

    /** removeTx. Removal is by nonce; what becomes unexecutable goes back to
        the queue, unless nothing stays pending. */
    method RemoveTx(hash: TxHash)
      requires Sound(View())
      modifies this`pending, this`queue, this`all, this`managed, this`beats
      ensures Sound(View())
      ensures Removes(old(View()), hash, View())
    {
      ghost var s0 := View();
      if hash !in all {
        return;
      }
      var tx := all[hash];
      var addr := tx.from.value;
      RemoveListed(addr, tx.nonce);
      ghost var s := View();
      ForgetFiled(s, addr, tx);
      all := all - {hash};
      QueueOnly(s, View(), addr);
      LocalTrans(s0, s, View(), addr);
    }

    /** Removes a nonce from both lists of an account. */
    method RemoveListed(addr: Address, nonce: Nonce)
      requires Sound(View())
      modifies this`pending, this`queue, this`all, this`managed, this`beats
      ensures Sound(View())
      ensures Local(old(View()), View(), addr) && RemovedAt(old(View()), View(), addr, nonce)
      ensures all == old(all)
    {
      ghost var s0 := View();
      if addr in pending {
        RemovePending(addr, nonce);
      } else {
        NothingRequeued(s0, addr, nonce);
      }
      ghost var s := View();
      if addr in queue {
        RemoveQueued(addr, nonce);
      }
      QueueOnly(s, View(), addr);
      LocalTrans(s0, s, View(), addr);
    }

    method RemovePending(addr: Address, nonce: Nonce)
      requires Sound(View()) && addr in pending
      modifies this`pending, this`queue, this`all, this`managed, this`beats
      ensures Sound(View())
      ensures Local(old(View()), View(), addr) && CutAtNonce(old(View()), View(), addr, nonce)
      ensures all == old(all)
    {
      ghost var s := View();
      assert FiledAt(s, addr);
      var r := TxListSpec.Remove(pending[addr], nonce);
      if !r.found {
        NothingRequeued(s, addr, nonce);
        return;
      }
      RemoveKeepsBelow(pending[addr], nonce);
      ReplacePending(addr, r.list, r.invalids);
      ghost var m := View();
      LowerNonce(addr, nonce);
      LocalTrans(s, m, View(), addr);
      AfterRemove(s, View(), addr, nonce);
    }

    /** The next nonce goes down to a removed one. */
    method LowerNonce(addr: Address, nonce: Nonce)
      requires Filed(View())
      modifies this`managed
      ensures Filed(View()) && Local(old(View()), View(), addr)
      ensures View().PendingNonce(addr) == Min(old(View()).PendingNonce(addr), nonce)
    {
      ghost var m := View();
      if (if addr in managed then managed[addr] else chain.Nonce(addr)) > nonce {
        managed := managed[addr := nonce as nat];
        FiledAnyChain(m, View());
      }
    }

    /** Shrinks a pending list; what fell off is queued, unless nothing stays. */
    method ReplacePending(addr: Address, list: List, invalids: Items)
      requires Filed(View()) && addr in pending
      requires list.strict && list.Valid() && Within(list.items, pending[addr].items)
      requires Within(invalids, pending[addr].items) && forall n :: n in invalids ==> n !in list.items
      modifies this`pending, this`queue, this`all, this`beats
      ensures Filed(View()) && Local(old(View()), View(), addr)
      ensures View().PendingItems(addr) == list.items
      ensures View().QueueItems(addr) == (if list.items.Keys == {} then map[] else invalids) + old(View()).QueueItems(addr)
      ensures (addr in pending ==> pending[addr].items.Keys != {}) && all == old(all) && BeatAt(old(View()), View(), addr)
    {
      ghost var s := View();
      assert FiledAt(s, addr);
      if list.items.Keys == {} {
        DropPending(addr);
        assert list.items == map[];
      } else {
        ShrinkPendingFiled(s, addr, list);
        pending := pending[addr := list];
        ghost var m := View();
        EnqueueAll(addr, invalids);
        LocalTrans(s, m, View(), addr);
      }
    }

    /** Deletes a pending list and the heartbeat. */
    method DropPending(addr: Address)
      requires Filed(View())
      modifies this`pending, this`beats
      ensures Filed(View()) && Local(old(View()), View(), addr)
      ensures addr !in pending && addr !in beats
    {
      DropPendingFiled(View(), addr);
      pending := pending - {addr};
      ghost var m := View();
      beats := beats - {addr};
      FiledAnyChain(m, View());
    }

    method RemoveQueued(addr: Address, nonce: Nonce)
      requires Filed(View()) && addr in queue
      modifies this`queue
      ensures Filed(View()) && forall b :: b != addr ==> SameAt(old(queue), queue, b)
      ensures View().QueueItems(addr) == old(View()).QueueItems(addr) - {nonce as nat}
    {
      assert FiledAt(View(), addr);
      var l := TxListSpec.Remove(queue[addr], nonce).list;
      assert l.items == queue[addr].items - {nonce as nat};
      if l.items.Keys == {} {
        assert l.items == map[];
        DropQueueFiled(View(), addr);
        queue := queue - {addr};
      } else {
        ShrinkQueueFiled(View(), addr, l);
        queue := queue[addr := l];
      }
    }

    /** Removes queued transactions of an account one by one. Its queue entry is
        there as long as one of them is, so it is never made anew on the way. */
    method RemoveEach(addr: Address, txs: seq<Tx>)
      requires Sound(View()) && Listed(View().QueueItems(addr), txs)
      modifies this`pending, this`queue, this`all, this`managed, this`beats
      ensures Emptying(old(View()), View(), addr, txs, |txs|)
    {
      ghost var s0 := View();
      EmptyingStart(s0, addr, txs);
      StillQueued(s0, s0, addr, txs, 0);
      for i := 0 to |txs|
        invariant Emptying(s0, View(), addr, txs, i) && (i < |txs| ==> addr in queue)
      {
        ghost var s := View();
        RemoveTx(txs[i].Hash());
        EmptyingStep(s0, s, View(), addr, txs, i);
        StillQueued(s0, View(), addr, txs, i + 1);
      }
    }

    // ---- demotion ----

    /** Drops what is too old or too costly for the current chain from the
        pending list of `a` and queues what comes after it. */
    method DemoteAccount(a: Address)
      requires Filed(View()) && a in pending
      modifies this`pending, this`queue, this`all, this`beats
      ensures Filed(View()) && Local(old(View()), View(), a)
      ensures DemotedAt(old(View()), View(), a) && ForgetsDropped(old(View()), a, all)
    {
      ghost var s0 := View();
      assert FiledAt(View(), a);
      KeptRunnable(pending[a], chain.Nonce(a), chain.Balance(a));
      var stale := Below(pending[a].items, chain.Nonce(a));
      var list := Forward(pending[a], chain.Nonce(a));
      var f := Filter(list, chain.Balance(a));
      FilterIsFullScan(list, chain.Balance(a));
      FilterPartitions(list, chain.Balance(a));
      TakePending(a, list, stale);
      ghost var m := View();
      TakePending(a, f.list, f.removed);
      LocalTrans(s0, m, View(), a);
      m := View();
      DemotionForgets(s0, a, m.all);
      InvalidsKnown(s0, a, m.all);
      Requeue(a, f.invalids);
      LocalTrans(s0, m, View(), a);
    }

    /** Queues what was demoted and deletes a list that became empty. */
    method Requeue(a: Address, invalids: Items)
      requires Filed(View()) && a in pending && Keyed(invalids)
      requires Unpended(View(), a, invalids)
      modifies this`pending, this`queue, this`all, this`beats
      ensures Filed(View()) && Local(old(View()), View(), a) && BeatAt(old(View()), View(), a)
      ensures View().PendingItems(a) == old(pending[a].items) && (a in pending ==> pending[a].items.Keys != {})
      ensures View().QueueItems(a) == invalids + old(View()).QueueItems(a)
      ensures AllIn(invalids, old(all)) ==> all == old(all)
    {
      ghost var s0 := View();
      EnqueueAll(a, invalids);
      ghost var m := View();
      if pending[a].items.Keys == {} {
        DropPending(a);
        assert old(pending[a].items) == map[];
      }
      assert Local(m, View(), a);
      LocalTrans(s0, m, View(), a);
    }

    /** Replaces the pending list of `a` by a part of it and forgets `gone`. */
    method TakePending(a: Address, list: List, gone: Items)
      requires Filed(View()) && a in pending
      requires list.strict && list.Valid() && Within(list.items, pending[a].items)
      requires Within(gone, pending[a].items) && forall n :: n in gone ==> n !in list.items
      modifies this`pending, this`all
      ensures Filed(View()) && pending == old(pending)[a := list] && Local(old(View()), View(), a)
      ensures all == old(all) - Hashes(gone)
    {
      TakePendingFiled(View(), a, list, gone);
      pending := pending[a := list];
      Forget(gone);
    }

    /** demoteUnexecutables. */
    method DemoteUnexecutables()
      requires Filed(View())
      modifies this`pending, this`queue, this`all, this`beats
      ensures Sound(View()) && forall a :: DemotedAt(old(View()), View(), a)
      ensures ForgetsDemoted(old(View()), {}, all)
    {
      ghost var before := View();
      var todo := pending.Keys;
      DemotionStart(before);
      while todo != {}
        invariant Filed(View()) && managed == old(managed) && chain == old(chain)
        invariant Demoting(before, todo, View())
        invariant ForgetsDemoted(before, todo, all)
        decreases todo
      {
        var a :| a in todo;
        ghost var s := View();
        DemoteAccount(a);
        DemoteNext(before, todo, s, View(), a);
        DemotedHashNext(before, todo, s, all, a);
        todo := todo - {a};
      }
    }

    // ---- promotion ----

    /** Replaces the queue list of `a` by a part of it and forgets `gone`. */
    method TakeQueued(a: Address, list: List, gone: Items)
      requires Sound(View()) && a in queue
      requires !list.strict && list.Valid() && Within(list.items, queue[a].items)
      requires Within(gone, queue[a].items) && list.items == queue[a].items - gone.Keys
      modifies this`queue, this`all
      ensures Advances(old(View()), View(), a) && queue == old(queue)[a := list]
    {
      ghost var s0 := View();
      assert FiledAt(s0, a);
      TakeQueuedFiled(View(), a, list, gone);
      queue := queue[a := list];
      Forget(gone);
      QueueOnly(s0, View(), a);
      TakenOff(s0, View(), a, gone);
    }

    /** Promotes a run of consecutive nonces. */
    method PromoteRun(a: Address, ready: Items, from: nat, to: nat)
      requires Sound(View()) && Promotable(View(), a, ready) && Interval(ready, from, to)
      modifies this`pending, this`all, this`managed, this`beats
      ensures RunDone(old(View()), View(), a, ready, to)
    {
      ghost var s0 := View();
      RunStart(s0, a, ready, from, to);
      PromoteEach(s0, a, ready, from, to);
      RunEnds(s0, View(), a, ready, from, to);
    }

    method PromoteEach(ghost s0: Pool, a: Address, ready: Items, from: nat, to: nat)
      requires Running(s0, View(), a, ready, from) && Keyed(ready) && from <= to
      requires forall n :: from <= n < to ==> n in ready
      modifies this`pending, this`all, this`managed, this`beats
      ensures Running(s0, View(), a, ready, to)
    {
      var n := from;
      ghost var s := View();
      while n < to
        invariant from <= n <= to && s == View() && Running(s0, s, a, ready, n)
      {
        PromoteOne(s0, a, ready, n);
        n, s := n + 1, View();
      }
    }

    /** One round of the loop; the clock may read anything. */
    method PromoteOne(ghost s0: Pool, a: Address, ready: Items, n: nat)
      requires Running(s0, View(), a, ready, n) && n in ready && Keyed(ready)
      modifies this`pending, this`all, this`managed, this`beats
      ensures Running(s0, View(), a, ready, n + 1)
    {
      var now: nat := *;
      RunningStep(s0, View(), a, ready, n, now);
      PromoteTx(a, ready[n], now);
    }

    /** Promotes what is ready in the queue of `a`. */
    method PromoteReady(a: Address)
      requires Sound(View()) && a in queue
      requires Runnable(queue[a].items, chain.Nonce(a), chain.Balance(a))
      modifies this`pending, this`queue, this`all, this`managed, this`beats
      ensures Advances(old(View()), View(), a) && a in queue
      ensures var end := ReadyEnd(old(queue[a].items.Keys), old(View()).PendingNonce(a));
              && JoinedAt(old(View()), View(), a, Below(old(queue[a].items), end))
              && queue[a].items == From(old(queue[a].items), end)
    {
      ghost var s0 := View();
      assert FiledAt(s0, a);
      var items := queue[a].items;
      var start := if a in managed then managed[a] else chain.Nonce(a);
      var end := ReadyEnd(items.Keys, start);
      if end == 0 {
        NothingReady(s0, a, items);
        NoAdvance(s0, a);
      } else {
        TakeReady(a, start);
        ghost var m := View();
        PromoteRun(a, Below(items, end), Least(items.Keys), end);
        RunAdvances(s0, m, View(), a, items, end);
      }
    }

    /** Takes the ready run off the queue of `a`. */
    method TakeReady(a: Address, start: nat)
      requires Sound(View()) && a in queue && ReadyEnd(queue[a].items.Keys, start) > 0
      requires Runnable(queue[a].items, chain.Nonce(a), chain.Balance(a))
      modifies this`queue
      ensures Sound(View()) && Local(old(View()), View(), a) && queue == old(queue)[a := AfterReady(old(queue[a]), start)]
      ensures var items := old(queue[a].items);
              var end := ReadyEnd(items.Keys, start);
              && items.Keys != {} && Promotable(View(), a, Below(items, end))
              && Interval(Below(items, end), Least(items.Keys), end)
    {
      ghost var s0 := View();
      ReadyPromotable(s0, a, start);
      assert FiledAt(s0, a);
      ShrinkQueueFiled(s0, a, AfterReady(queue[a], start));
      queue := queue[a := AfterReady(queue[a], start)];
      QueueOnly(s0, View(), a);
    }

    /** Drops the stale and unpayable part of a queue list, promotes what is
        ready and caps the rest; returns the length of what stays. */
    method PromoteAccount(a: Address) returns (size: nat)
      requires Sound(View()) && a in queue
      modifies this`pending, this`queue, this`all, this`managed, this`beats
      ensures Advances(old(View()), View(), a)
      ensures size == |View().QueueItems(a)| && PromotedAt(old(View()), View(), a)
    {
      ghost var s0 := View();
      DropUnrunnable(a);
      ghost var m := View();
      PromoteReady(a);
      AdvancesTrans(s0, m, View(), a);
      ghost var m' := View();
      size := CapQueued(a);
      AdvancesTrans(s0, m', View(), a);
      PromotedSteps(s0, m, m', View(), a);
    }

    method DropUnrunnable(a: Address)
      requires Sound(View()) && a in queue
      modifies this`queue, this`all
      ensures Advances(old(View()), View(), a)
      ensures a in queue && Runnable(queue[a].items, chain.Nonce(a), chain.Balance(a))
      ensures queue[a].items == QueueRunnable(old(View()), a)
    {
      ghost var s0 := View();
      DropStale(a);
      ghost var m := View();
      DropUnpayable(a);
      AdvancesTrans(s0, m, View(), a);
    }

    method DropStale(a: Address)
      requires Sound(View()) && a in queue
      modifies this`queue, this`all
      ensures Advances(old(View()), View(), a)
      ensures a in queue && queue[a].items == From(old(queue[a].items), chain.Nonce(a))
    {
      assert FiledAt(View(), a);
      TakeQueued(a, Forward(queue[a], chain.Nonce(a)), Below(queue[a].items, chain.Nonce(a)));
    }

    method DropUnpayable(a: Address)
      requires Sound(View()) && a in queue
      modifies this`queue, this`all
      ensures Advances(old(View()), View(), a)
      ensures a in queue && queue[a].items == Payable(old(queue[a].items), chain.Balance(a))
    {
      assert FiledAt(View(), a);
      var f := Filter(queue[a], chain.Balance(a));
      FilterUnstrict(queue[a], chain.Balance(a));
      TakeQueued(a, f.list, f.removed);
    }

    method CapQueued(a: Address) returns (size: nat)
      requires Sound(View()) && a in queue
      modifies this`queue, this`all
      ensures Advances(old(View()), View(), a)
      ensures size == |View().QueueItems(a)|
      ensures View().QueueItems(a) == Capped(old(queue[a].items), MAX_QUEUED_PER_ACCOUNT)
    {
      ghost var s0 := View();
      assert FiledAt(View(), a);
      var list := Cap(queue[a], MAX_QUEUED_PER_ACCOUNT);
      KeepQueued(a, list);
      size := |list.items|;
      if list.items.Keys == {} {
        ghost var m := View();
        DeleteQueue(a);
        AdvancesTrans(s0, m, View(), a);
      }
    }

    /** Cuts the queue list of `a` down to `list` and forgets the rest. */
    method KeepQueued(a: Address, list: List)
      requires Sound(View()) && a in queue
      requires !list.strict && list.Valid() && Within(list.items, queue[a].items)
      modifies this`queue, this`all
      ensures Advances(old(View()), View(), a) && queue == old(queue)[a := list]
    {
      RestOf(queue[a].items, list.items);
      TakeQueued(a, list, queue[a].items - list.items.Keys);
    }

    /** Deletes a queue list that became empty. */
    method DeleteQueue(a: Address)
      requires Sound(View()) && a in queue && queue[a].items.Keys == {}
      modifies this`queue
      ensures Advances(old(View()), View(), a) && View().QueueItems(a) == old(View()).QueueItems(a)
    {
      ghost var m := View();
      DropQueueFiled(m, a);
      queue := queue - {a};
      assert m.QueueItems(a) == map[];
      QueueOnly(m, View(), a);
      SameLists(m, View(), a);
    }

    /** promoteExecutables. */
    method PromoteExecutables() returns (ghost run: Promotion)
      requires Sound(View())
      modifies this`pending, this`queue, this`all, this`managed, this`beats
      ensures Sound(View()) && Fit(View()) && Sound(run.promoted)
      ensures Promotes(old(View()), localTx.txMap, run, View())
    {
      ghost var s0 := View();
      var queued := PromoteQueue();
      ghost var promoted, eligible, level := View(), {}, 0;
      var count := CountPending(pending);
      if count > MAX_PENDING_TOTAL {
        eligible, level := EvictPending();
      }
      ghost var evicted, drops := View(), map[];
      if queued > MAX_QUEUED_IN_TOTAL {
        drops := LimitQueue(queued);
      }
      run := Promotion(promoted, eligible, level, evicted, drops);
      PassFit(s0, localTx.txMap, run, View());
    }

    /** A pass that keeps the books about gaps. */
    method Promoted() returns (ghost run: Promotion)
      requires Sound(View()) && GapsOf(View(), gaps) && localTx.Valid()
      modifies this`pending, this`queue, this`all, this`managed, this`beats, this`gaps
      ensures Valid() && Sound(run.promoted) && Promotes(old(View()), localTx.txMap, run, View())
      ensures PassGaps(old(gaps), old(View()), run, gaps)
    {
      ghost var s, gaps0 := View(), gaps;
      run := PromoteExecutables();
      gaps := Gaps(View());
      GapsExact(View());
      PassGapsExact(gaps0, s, localTx.txMap, run, View(), gaps);
    }

    /** Goes over all queued accounts; returns how many transactions stay queued. */
    method PromoteQueue() returns (queued: nat)
      requires Sound(View())
      modifies this`pending, this`queue, this`all, this`managed, this`beats
      ensures Sound(View()) && chain == old(chain)
      ensures queued == Total(queue) && (forall a :: PromotedAt(old(View()), View(), a))
      ensures ForgetsPromoted(old(View()), {}, View())
    {
      ghost var before := View();
      queued := 0;
      var todo := queue.Keys;
      PartOf(queue, todo);
      PromotingStart(before);
      while todo != {}
        invariant Sound(View()) && chain == old(chain)
        invariant todo <= queue.Keys && queued + Total(Part(queue, todo)) == Total(queue)
        invariant Promoting(before, todo, View()) && ForgetsPromoted(before, todo, View())
        decreases todo
      {
        var a :| a in todo;
        ghost var s := View();
        var size := PromoteAccount(a);
        QueueStep(s, View(), todo, a);
        PromotingNext(before, todo, s, View(), a);
        ForgetsNext(before, todo, s, View(), a);
        queued := queued + size;
        todo := todo - {a};
      }
      PartOf(queue, todo);
    }

    /** Levels the pending lists; gap-free lists stay so exactly if no account
        is eligible for eviction. */
    method EvictPending() returns (ghost eligible: set<Address>, ghost level: nat)
      requires Sound(View()) && Total(pending) > MAX_PENDING_TOTAL
      modifies this`pending
      ensures Sound(View()) && Evicts(old(View()), localTx.txMap, eligible, level, View())
      ensures old(Gapless(View())) ==> (Gapless(View()) <==> eligible == {})
    {
      assert AllKeyed(pending) by {
        forall a | a in pending ensures Keyed(pending[a].items) { assert FiledAt(View(), a); }
      }
      ghost var s := View();
      pending, eligible, level := EqualizeAllowances(pending, localTx.txMap);
      LeveledSound(s, eligible, level);
      if Gapless(s) {
        EvictionGapless(s, localTx.txMap, eligible, level, View());
      }
    }

    /** Drops queued transactions, account by account from the latest heartbeat
        on, until the limit is reached; what is queued again on the way is not
        counted. The accounts are sorted once, before anything is dropped. */
    method LimitQueue(queued: nat) returns (ghost drops: map<Address, nat>)
      requires Sound(View()) && queued == Total(queue) && queued > MAX_QUEUED_IN_TOTAL
      modifies this`pending, this`queue, this`all, this`managed, this`beats
      ensures Sound(View()) && Limited(old(View()), drops, View())
    {
      ghost var s0 := View();
      var sorting := beats;
      var drop: nat := queued - MAX_QUEUED_IN_TOTAL;
      var todo := queue.Keys;
      drops := map[];
      PartOf(queue, todo);
      LimitStart(s0, drop);
      while drop > 0
        invariant Sound(View()) && Limiting(s0, View(), todo, drops, drop)
        invariant todo <= queue.Keys && drop <= Total(Part(queue, todo))
        decreases todo
      {
        drop, todo, drops := LimitNext(s0, todo, sorting, drops, drop);
      }
    }

    /** The account with the latest heartbeat loses what is still too much, or
        all that it has queued. */
    method LimitNext(ghost s0: Pool, todo: set<Address>, sorting: map<Address, nat>, ghost drops: map<Address, nat>, drop: nat)
      returns (left: nat, rest: set<Address>, ghost more: map<Address, nat>)
      requires Sound(View()) && Filed(s0) && sorting == s0.beats && Limiting(s0, View(), todo, drops, drop) && drop > 0
      requires todo <= queue.Keys && drop <= Total(Part(queue, todo))
      modifies this`pending, this`queue, this`all, this`managed, this`beats
      ensures Sound(View()) && Limiting(s0, View(), rest, more, left) && rest < todo
      ensures rest <= queue.Keys && left <= Total(Part(queue, rest))
    {
      PartOf(queue, todo);
      var addr := PopLatest(todo, sorting);
      var dropped;
      dropped, more := LimitAccount(s0, todo, drops, drop, addr);
      left, rest := drop - dropped, todo - {addr};
    }

    method LimitAccount(ghost s0: Pool, ghost todo: set<Address>, ghost drops: map<Address, nat>, drop: nat, addr: Address)
      returns (dropped: nat, ghost more: map<Address, nat>)
      requires Sound(View()) && Filed(s0) && Limiting(s0, View(), todo, drops, drop) && drop > 0
      requires todo <= queue.Keys && drop <= Total(Part(queue, todo))
      requires addr in todo && forall b :: b in todo ==> s0.Beat(b) <= s0.Beat(addr)
      modifies this`pending, this`queue, this`all, this`managed, this`beats
      ensures Sound(View()) && dropped <= drop && Limiting(s0, View(), todo - {addr}, more, drop - dropped)
      ensures todo - {addr} <= queue.Keys && drop - dropped <= Total(Part(queue, todo - {addr}))
    {
      ghost var s := View();
      ghost var txs;
      dropped, txs := DropFrom(addr, drop);
      LimitStep(s0, s, View(), todo, drops, drop, addr, txs);
      PartStep(s, View(), todo, addr);
      more := drops[addr := dropped];
    }

    /** Removes up to `drop` queued transactions of an account, highest nonces first. */
    method DropFrom(addr: Address, drop: nat) returns (dropped: nat, ghost txs: seq<Tx>)
      requires Sound(View()) && addr in queue
      modifies this`pending, this`queue, this`all, this`managed, this`beats
      ensures Emptying(old(View()), View(), addr, txs, |txs|) && TopOf(old(View()).QueueItems(addr), txs)
      ensures dropped == |txs| == if |old(queue[addr].items)| <= drop then |old(queue[addr].items)| else drop
      ensures LimitedAt(old(View()), View(), addr, dropped)
    {
      ghost var s0 := View();
      assert FiledAt(s0, addr);
      var order := DropOrder(queue[addr].items, drop);
      DropOrderTop(queue[addr].items, drop);
      RemoveEach(addr, order);
      RunLimited(s0, View(), addr, order);
      dropped, txs := |order|, order;
    }

    // ---- the pool's operations ----

    constructor (chain: Chain)
      ensures Valid() && gaps == {} && this.chain == chain && pending == queue == map[] && all == map[]
      ensures localTx == NO_MARKS
    {
      pending, queue, all, managed, beats, localTx := map[], map[], map[], map[], map[], NO_MARKS;
      this.chain := chain;
      gaps := {};
    }

    /** add: validates a transaction and queues it. */
    method AddTx(tx: Tx) returns (err: Option<AddError>)
      requires Valid()
      modifies this`queue, this`all
      ensures Valid()
      ensures err == if tx.Hash() in old(all) then Some(KnownTransaction) else Validate(chain, tx)
      ensures View() == if err.None? then Enqueue(old(View()), tx) else old(View())
      ensures err.None? ==> Queues(old(View()), tx, View())
    {
      if tx.Hash() in all {
        return Some(KnownTransaction);
      }
      err := Validate(chain, tx);
      if err.Some? {
        return;
      }
      AddedKeeps(View(), tx);
      EnqueueExactly(View(), tx);
      EnqueueTx(tx);
    }

    /** Queues a valid new transaction and promotes. */
    method Add(tx: Tx) returns (err: Option<AddError>, ghost run: Promotion)
      requires Valid()
      modifies this`pending, this`queue, this`all, this`managed, this`beats, this`gaps
      ensures Valid()
      ensures err == if tx.Hash() in old(all) then Some(KnownTransaction) else Validate(chain, tx)
      ensures err.Some? ==> View() == old(View()) && gaps == old(gaps)
      ensures err.None? ==> Queues(old(View()), tx, Enqueue(old(View()), tx))
      ensures err.None? ==> Sound(run.promoted) && Promotes(Enqueue(old(View()), tx), localTx.txMap, run, View())
      ensures err.None? ==> PassGaps(old(gaps), Enqueue(old(View()), tx), run, gaps)
    {
      run := Promotion(View(), {}, 0, View(), map[]);
      err := AddTx(tx);
      if err.None? {
        run := Promoted();
      }
    }

    method AddBatch(txs: seq<Tx>) returns (ghost run: Promotion)
      requires Valid()
      modifies this`pending, this`queue, this`all, this`managed, this`beats, this`gaps
      ensures Valid() && Sound(run.promoted) && QueuesAll(old(View()), txs, AllAdded(old(View()), txs))
      ensures Promotes(AllAdded(old(View()), txs), localTx.txMap, run, View())
      ensures PassGaps(old(gaps), AllAdded(old(View()), txs), run, gaps)
    {
      ghost var s0 := View();
      for i := 0 to |txs|
        invariant Valid() && gaps == old(gaps)
        invariant View() == AllAdded(s0, txs[..i])
      {
        assert txs[..i + 1][..i] == txs[..i];
        var err := AddTx(txs[i]);
      }
      assert txs[..|txs|] == txs;
      AllAddedExactly(s0, txs);
      run := Promoted();
    }

    method Remove(hash: TxHash)
      requires Valid()
      modifies this`pending, this`queue, this`all, this`managed, this`beats, this`gaps
      ensures Valid() && Removes(old(View()), hash, View()) && RemovalGaps(old(gaps), old(View()), hash, gaps)
    {
      ghost var s, gaps0 := View(), gaps;
      RemoveTx(hash);
      RemovesFit(s, hash, View());
      gaps := Gaps(View());
      GapsExact(View());
      RemovalGapsExact(gaps0, s, hash, View(), gaps);
    }

    /** `states` are the pools after each removal, `gapped` their accounts with gaps. */
    method RemoveBatch(txs: seq<Tx>) returns (ghost states: seq<Pool>, ghost gapped: seq<set<Address>>)
      requires Valid()
      modifies this`pending, this`queue, this`all, this`managed, this`beats, this`gaps
      ensures Valid() && |states| == |gapped| == |txs| + 1
      ensures states[0] == old(View()) && states[|txs|] == View() && gapped[0] == old(gaps) && gapped[|txs|] == gaps
      ensures forall i :: 0 <= i < |txs| ==> Removes(states[i], txs[i].Hash(), states[i + 1])
      ensures forall i :: 0 <= i < |txs| ==> RemovalGaps(gapped[i], states[i], txs[i].Hash(), gapped[i + 1])
      ensures ForgetsGone(old(all), txs, |txs|, all)
    {
      ghost var all0 := all;
      states, gapped := [View()], [gaps];
      for i := 0 to |txs|
        invariant Valid() && |states| == |gapped| == i + 1
        invariant states[0] == old(View()) && states[i] == View() && gapped[0] == old(gaps) && gapped[i] == gaps
        invariant forall j :: 0 <= j < i ==> Removes(states[j], txs[j].Hash(), states[j + 1])
        invariant forall j :: 0 <= j < i ==> RemovalGaps(gapped[j], states[j], txs[j].Hash(), gapped[j + 1])
        invariant ForgetsGone(all0, txs, i, all)
      {
        ghost var s := View();
        Remove(txs[i].Hash());
        GoneStep(all0, txs, i, s.all, all);
        states, gapped := states + [View()], gapped + [gaps];
      }
    }

    /** Everything executable, by account and in nonce order. The list of an
        account without a gap is consecutive from its chain nonce. */
    method Pending() returns (txs: map<Address, seq<Tx>>, ghost run: Promotion, ghost mid: Pool)
      requires Valid()
      modifies this`pending, this`queue, this`all, this`managed, this`beats, this`gaps
      ensures Valid() && Sound(run.promoted) && Promotes(old(View()), localTx.txMap, run, mid) && SameItems(mid, View())
      ensures PassGaps(old(gaps), old(View()), run, gaps)
      ensures Flattened(View(), txs)
    {
      run := Promoted();
      mid := View();
      DemoteAgain();
      txs := FlattenAll();
    }

    /** Demotion right after promotion changes nothing. */
    method DemoteAgain()
      requires Sound(View()) && Fit(View())
      modifies this`pending, this`queue, this`all, this`beats
      ensures Sound(View()) && Fit(View()) && SameItems(old(View()), View())
      ensures forall a :: GaplessAt(View(), a) <==> GaplessAt(old(View()), a)
    {
      ghost var mid := View();
      DemoteUnexecutables();
      DemotionIsIdle(mid, View());
    }

    method FlattenAll() returns (txs: map<Address, seq<Tx>>)
      requires Sound(View())
      ensures Flattened(View(), txs)
    {
      txs := map[];
      var todo := pending.Keys;
      while todo != {}
        invariant todo <= pending.Keys && txs.Keys == pending.Keys - todo
        invariant forall a :: a in txs ==> FlattenedAt(View(), a, txs[a])
        decreases todo
      {
        var a :| a in todo;
        assert FiledAt(View(), a);
        FlattenedPending(View(), a);
        txs := txs[a := Flat(pending[a].items)];
        todo := todo - {a};
      }
    }

    /** resetState, with the state of the new chain head: every account is
        demoted, its next nonce set, and everything promoted again. Gap-free
        accounts stay so exactly if they lost no nonces, or keep nothing
        pending, and the pass is seamless there. */
    method ResetState(head: Chain) returns (ghost demoted: Pool, ghost run: Promotion)
      requires Valid()
      modifies this`pending, this`queue, this`all, this`managed, this`beats, this`gaps, this`chain
      ensures Valid() && Sound(run.promoted)
      ensures Redemoted(old(View()), head, demoted) && Promotes(demoted, localTx.txMap, run, View())
      ensures ResetGaps(old(gaps), old(View()), demoted, run, gaps)
    {
      ghost var s := View();
      Redemote(head);
      demoted := View();
      run := Repromote(s, head);
    }

    /** Demotes for the new chain and sets the next nonces. */
    method Redemote(head: Chain)
      requires Sound(View())
      modifies this`chain, this`managed, this`pending, this`queue, this`all, this`beats
      ensures Sound(View()) && Redemoted(old(View()), head, View())
    {
      ghost var s := View();
      chain := head;
      managed := map[];
      ghost var s1 := View();
      FiledAnyChain(s, s1);
      DemoteUnexecutables();
      ghost var m := View();
      SetPendingNonces();
      FiledAnyChain(m, View());
      ResetSound(s, s1, m, View());
      SameForgotten(s, s1, all);
    }

    /** The pass after the demotion of `s`. */
    method Repromote(ghost s: Pool, ghost head: Chain) returns (ghost run: Promotion)
      requires Sound(View()) && Redemoted(s, head, View()) && Filed(s) && Fit(s) && GapsOf(s, gaps) && localTx.Valid()
      modifies this`pending, this`queue, this`all, this`managed, this`beats, this`gaps
      ensures Valid() && Sound(run.promoted) && Promotes(old(View()), localTx.txMap, run, View())
      ensures ResetGaps(old(gaps), s, old(View()), run, gaps)
    {
      ghost var demoted, gaps0 := View(), gaps;
      run := PromoteExecutables();
      gaps := Gaps(View());
      GapsExact(View());
      ResetGapsExact(gaps0, s, demoted, localTx.txMap, run, View(), gaps);
    }

    /** Sets the next nonce of every pending account. */
    method SetPendingNonces()
      requires managed == map[] && Executable(View())
      modifies this`managed
      ensures NextNonces(pending, managed)
    {
      var todo := pending.Keys;
      while todo != {}
        invariant todo <= pending.Keys && managed.Keys == pending.Keys - todo
        invariant forall a :: a in pending && a !in todo && pending[a].items.Keys != {} ==>
                    managed[a] == Greatest(pending[a].items.Keys) + 1
        decreases todo
      {
        var a :| a in todo;
        assert ExecutableAt(View().(managed := map[]), a);
        managed := managed[a := Greatest(pending[a].items.Keys) + 1];
        todo := todo - {a};
      }
    }

    /** One tick of expirationLoop: accounts without a recent heartbeat lose
        their queued transactions. */
    method Expire(now: nat) returns (ghost drops: map<Address, nat>)
      requires Valid()
      modifies this`pending, this`queue, this`all, this`managed, this`beats, this`gaps
      ensures Valid() && Dropped(old(View()), drops, View()) && Expiring(old(View()), View(), now, {}, drops)
      ensures DropGaps(old(gaps), old(View()), drops, gaps)
    {
      ghost var s, gaps0 := View(), gaps;
      drops := ExpireAll(now);
      gaps := Gaps(View());
      GapsExact(View());
      DropGapsExact(gaps0, s, drops, View(), gaps);
    }

    method ExpireAll(now: nat) returns (ghost drops: map<Address, nat>)
      requires Sound(View()) && Fit(View())
      modifies this`pending, this`queue, this`all, this`managed, this`beats
      ensures Sound(View()) && Fit(View())
      ensures Dropped(old(View()), drops, View()) && Expiring(old(View()), View(), now, {}, drops)
    {
      ghost var s0 := View();
      var todo := queue.Keys;
      drops := map[];
      DroppedStart(s0);
      while todo != {}
        invariant Sound(View()) && Fit(View()) && todo <= queue.Keys
        invariant Dropped(s0, drops, View()) && Expiring(s0, View(), now, todo, drops)
        decreases todo
      {
        var a :| a in todo;
        ghost var s := View();
        if now - (if a in beats then beats[a] else 0) > MAX_QUEUED_LIFETIME {
          drops := ExpireAccount(s0, drops, a);
          TodoKept(s, View(), todo, a);
        }
        ExpiringStep(s0, s, View(), now, todo, drops, a);
        todo := todo - {a};
      }
    }

    method ExpireAccount(ghost s0: Pool, ghost drops: map<Address, nat>, a: Address) returns (ghost more: map<Address, nat>)
      requires Sound(View()) && Fit(View()) && Filed(s0) && Dropped(s0, drops, View()) && a in queue && a !in drops && Untouched(s0, View(), a)
      modifies this`pending, this`queue, this`all, this`managed, this`beats
      ensures Sound(View()) && Fit(View()) && Local(old(View()), View(), a)
      ensures Dropped(s0, more, View()) && more == drops[a := |old(queue[a].items)|]
    {
      ghost var s := View();
      ghost var txs;
      var dropped;
      dropped, txs := DropFrom(a, |queue[a].items|);
      DroppedStep(s0, drops, s, View(), a, txs);
      more := drops[a := dropped];
    }

    /** Marks a transaction as local, which may drop other marks. */
    method SetLocal(tx: Tx, now: int)
      requires Valid()
      modifies this`localTx
      ensures Valid() && localTx == Marked(old(localTx), tx.Hash(), now)
    {
      MarkedValid(localTx, tx.Hash(), now);
      localTx := Marked(localTx, tx.Hash(), now);
    }
  }
}
