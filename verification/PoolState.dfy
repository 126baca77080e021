/**
 The state of the transaction pool (core/tx_pool.go) as a value, the invariants
 that its operations keep, and the effect of one small step on them.
 */
module PoolState {
  import opened TxTypes
  import opened SortedTxs
  import opened TxListSpec
  import opened Equalize

  /** What the pool asks of the chain: account nonces and balances at the head. */
  datatype Chain = Chain(nonces: map<Address, nat>, balances: map<Address, int>, gasLimit: int, homestead: bool) {
    function Nonce(a: Address): nat { if a in nonces then nonces[a] else 0 }
    function Balance(a: Address): int { if a in balances then balances[a] else 0 }
    predicate Exists(a: Address) { a in nonces }
  }

  /** `managed` overlays the chain's nonces with the next pending ones; `beats`
      holds when an account last had a transaction promoted. */
  datatype Pool = Pool(
    pending: Lists,
    queue: Lists,
    all: map<TxHash, Tx>,
    managed: map<Address, nat>,
    beats: map<Address, nat>,
    chain: Chain)
  {
    function PendingNonce(a: Address): nat { if a in managed then managed[a] else chain.Nonce(a) }
    function PendingItems(a: Address): Items { if a in pending then pending[a].items else map[] }
    function QueueItems(a: Address): Items { if a in queue then queue[a].items else map[] }

    /** A missing heartbeat counts as the zero time. */
    function Beat(a: Address): nat { if a in beats then beats[a] else 0 }
  }

  // ---- invariants ----

  /** The account's own transactions, at gas price 0, all known by hash. */
  ghost predicate Owned(a: Address, items: Items, all: map<TxHash, Tx>) {
    forall n :: n in items ==>
      items[n].from == Some(a) && items[n].gasPrice == 0 && items[n].Hash() in all
  }

  /** No transaction is in both maps. */
  ghost predicate Apart(p: Items, q: Items) {
    forall n :: n in p && n in q ==> p[n] != q[n]
  }

  ghost predicate FiledList(a: Address, l: List, strict: bool, all: map<TxHash, Tx>) {
    l.strict == strict && l.Valid() && Owned(a, l.items, all)
  }

  ghost predicate FiledAt(s: Pool, a: Address) {
    && (a in s.pending ==> FiledList(a, s.pending[a], true, s.all))
    && (a in s.queue ==> FiledList(a, s.queue[a], false, s.all))
    && Apart(s.PendingItems(a), s.QueueItems(a))
  }

  ghost predicate Known(all: map<TxHash, Tx>) {
    forall h :: h in all ==> all[h] == h.preimage && h.preimage.from.Some?
  }

  /** Everything listed is known by its hash and listed once, under its sender. */
  ghost predicate Filed(s: Pool) {
    Known(s.all) && forall a :: FiledAt(s, a)
  }

  ghost predicate Runnable(items: Items, nonce: nat, balance: int) {
    forall n :: n in items ==> n >= nonce && items[n].Cost() <= balance
  }

  ghost predicate ExecutableAt(s: Pool, a: Address) {
    a in s.pending ==>
      && Runnable(s.pending[a].items, s.chain.Nonce(a), s.chain.Balance(a))
      && s.pending[a].items.Keys != {}
  }

  /** No pending transaction is too old or too costly, and no pending list is empty. */
  ghost predicate Executable(s: Pool) {
    forall a :: ExecutableAt(s, a)
  }

  ghost predicate Interval(items: Items, from: nat, to: nat) {
    from <= to && forall n :: n in items <==> from <= n < to
  }

  ghost predicate GaplessAt(s: Pool, a: Address) {
    Interval(s.PendingItems(a), s.chain.Nonce(a), s.PendingNonce(a))
  }

  /** Each account's pending nonces are exactly those from its chain nonce up
      to its next pending nonce. */
  ghost predicate Gapless(s: Pool) {
    forall a :: GaplessAt(s, a)
  }

  /** `gaps` are the accounts whose pending nonces have a gap. */
  ghost predicate GapsOf(s: Pool, gaps: set<Address>) {
    forall a :: a in gaps <==> !GaplessAt(s, a)
  }

  ghost function Gaps(s: Pool): set<Address> {
    set a | a in s.pending.Keys + s.managed.Keys && !GaplessAt(s, a)
  }

  /** Only accounts with pending transactions or an own next nonce can have gaps. */
  lemma GapsExact(s: Pool)
    ensures GapsOf(s, Gaps(s))
  {
  }

  /** What holds of the pool between calls, in every run. */
  ghost predicate Sound(s: Pool) {
    Filed(s) && Executable(s)
  }

  ghost predicate FitAt(s: Pool, a: Address) {
    Runnable(s.QueueItems(a), s.chain.Nonce(a), s.chain.Balance(a))
  }

  /** No queued transaction is too old or too costly. */
  ghost predicate Fit(s: Pool) {
    forall a :: FitAt(s, a)
  }

  // ---- steps that touch one account ----

  ghost predicate SameAt<T>(m: map<Address, T>, m': map<Address, T>, b: Address) {
    (b in m <==> b in m') && (b in m ==> m[b] == m'[b])
  }

  ghost predicate Untouched(s: Pool, s': Pool, b: Address) {
    && SameAt(s.pending, s'.pending, b) && SameAt(s.queue, s'.queue, b)
    && SameAt(s.managed, s'.managed, b) && SameAt(s.beats, s'.beats, b)
  }

  /** Only account `a` is touched. */
  ghost predicate Local(s: Pool, s': Pool, a: Address) {
    s.chain == s'.chain && forall b :: b != a ==> Untouched(s, s', b)
  }

  lemma LocalTrans(s: Pool, m: Pool, s': Pool, a: Address)
    requires Local(s, m, a) && Local(m, s', a)
    ensures Local(s, s', a)
  {
    forall b | b != a ensures Untouched(s, s', b) {
      assert Untouched(s, m, b) && Untouched(m, s', b);
    }
  }

  /** The heartbeat of `a` is dropped exactly when its pending list is. */
  ghost predicate BeatAt(s: Pool, s': Pool, a: Address) {
    if a in s.pending && a !in s'.pending then a !in s'.beats else SameAt(s.beats, s'.beats, a)
  }

  /** A local step that only forgets transactions of `a` keeps the pool filed,
      if it keeps `a` filed. */
  lemma LocalFiled(s: Pool, s': Pool, a: Address)
    requires Filed(s) && Local(s, s', a) && Known(s'.all) && FiledAt(s', a)
    requires forall h :: h in s.all && h.preimage.from != Some(a) ==> h in s'.all
    ensures Filed(s')
  {
    forall b ensures FiledAt(s', b) {
      if b != a {
        assert FiledAt(s, b) && Untouched(s, s', b);
      }
    }
  }

  lemma LocalExecutable(s: Pool, s': Pool, a: Address)
    requires Executable(s) && Local(s, s', a) && ExecutableAt(s', a)
    ensures Executable(s')
  {
    forall b ensures ExecutableAt(s', b) {
      if b != a {
        assert ExecutableAt(s, b) && Untouched(s, s', b);
      }
    }
  }

  lemma LocalFit(s: Pool, s': Pool, a: Address)
    requires Fit(s) && Local(s, s', a) && FitAt(s', a)
    ensures Fit(s')
  {
    forall b ensures FitAt(s', b) {
      if b != a {
        assert FitAt(s, b) && Untouched(s, s', b);
      }
    }
  }

  lemma QueueOnly(s: Pool, s': Pool, a: Address)
    requires s.pending == s'.pending && s.managed == s'.managed && s.beats == s'.beats && s.chain == s'.chain
    requires forall b :: b != a ==> SameAt(s.queue, s'.queue, b)
    ensures Local(s, s', a)
    ensures Executable(s) ==> Executable(s')
  {
    forall b ensures ExecutableAt(s, b) ==> ExecutableAt(s', b) {
    }
  }

  /** Being filed depends on neither the chain nor the managed nonces. */
  lemma FiledAnyChain(s: Pool, s': Pool)
    requires Filed(s) && s'.pending == s.pending && s'.queue == s.queue && s'.all == s.all
    ensures Filed(s')
  {
    forall a ensures FiledAt(s', a) {
      assert FiledAt(s, a);
    }
  }

  ghost predicate Within(small: Items, big: Items) {
    forall n :: n in small ==> n in big && small[n] == big[n]
  }

  function Hashes(items: Items): set<TxHash> {
    set n | n in items :: items[n].Hash()
  }

  lemma HashIn(items: Items, h: TxHash)
    requires Keyed(items)
    ensures h in Hashes(items) <==> h.preimage.nonce in items && items[h.preimage.nonce] == h.preimage
  {
    if h.preimage.nonce in items && items[h.preimage.nonce] == h.preimage {
      assert items[h.preimage.nonce].Hash() == h;
    }
  }

  ghost predicate AllIn(items: Items, all: map<TxHash, Tx>) {
    forall n :: n in items ==> items[n].Hash() in all
  }

  /** `h` is the pending transaction of `a` at its nonce. */
  ghost predicate PendingTx(s: Pool, a: Address, h: TxHash) {
    h.preimage.nonce in s.PendingItems(a) && s.PendingItems(a)[h.preimage.nonce] == h.preimage
  }

  ghost predicate QueuedTx(s: Pool, a: Address, h: TxHash) {
    h.preimage.nonce in s.QueueItems(a) && s.QueueItems(a)[h.preimage.nonce] == h.preimage
  }

  ghost predicate ListedTx(s: Pool, a: Address, h: TxHash) {
    PendingTx(s, a, h) || QueuedTx(s, a, h)
  }

  // ---- shrinking lists ----

  /** Replaces the pending list of `a` by a part of it and forgets `gone`. */
  lemma TakePendingFiled(s: Pool, a: Address, l: List, gone: Items)
    requires Filed(s) && a in s.pending
    requires l.strict && l.Valid() && Within(l.items, s.pending[a].items)
    requires Within(gone, s.pending[a].items) && forall n :: n in gone ==> n !in l.items
    ensures Filed(s.(pending := s.pending[a := l], all := s.all - Hashes(gone)))
  {
    var s' := s.(pending := s.pending[a := l], all := s.all - Hashes(gone));
    assert FiledAt(s, a);
    LocalFiled(s, s', a);
  }

  lemma ShrinkPendingFiled(s: Pool, a: Address, l: List)
    requires Filed(s) && a in s.pending && l.strict && l.Valid() && Within(l.items, s.pending[a].items)
    ensures Filed(s.(pending := s.pending[a := l]))
  {
    TakePendingFiled(s, a, l, map[]);
    assert s.all - Hashes(map[]) == s.all;
  }

  lemma ShrinkQueueFiled(s: Pool, a: Address, l: List)
    requires Filed(s) && a in s.queue && !l.strict && l.Valid() && Within(l.items, s.queue[a].items)
    ensures Filed(s.(queue := s.queue[a := l]))
  {
    TakeQueuedFiled(s, a, l, map[]);
    assert s.all - Hashes(map[]) == s.all;
  }

  lemma DropPendingFiled(s: Pool, a: Address)
    requires Filed(s)
    ensures Filed(s.(pending := s.pending - {a}))
  {
    assert FiledAt(s, a);
    LocalFiled(s, s.(pending := s.pending - {a}), a);
  }

  lemma TakeQueuedFiled(s: Pool, a: Address, l: List, gone: Items)
    requires Filed(s) && a in s.queue
    requires !l.strict && l.Valid() && Within(l.items, s.queue[a].items)
    requires Within(gone, s.queue[a].items) && forall n :: n in gone ==> n !in l.items
    ensures Filed(s.(queue := s.queue[a := l], all := s.all - Hashes(gone)))
  {
    var s' := s.(queue := s.queue[a := l], all := s.all - Hashes(gone));
    assert FiledAt(s, a);
    LocalFiled(s, s', a);
  }

  lemma DropQueueFiled(s: Pool, a: Address)
    requires Filed(s)
    ensures Filed(s.(queue := s.queue - {a}))
  {
    assert FiledAt(s, a);
    LocalFiled(s, s.(queue := s.queue - {a}), a);
  }

  /** A transaction whose nonce `a` no longer lists may be forgotten. */
  lemma ForgetFiled(s: Pool, a: Address, tx: Tx)
    requires Filed(s) && tx.from == Some(a) && tx.nonce !in s.PendingItems(a) && tx.nonce !in s.QueueItems(a)
    ensures Filed(s.(all := s.all - {tx.Hash()}))
  {
    assert FiledAt(s, a);
    LocalFiled(s, s.(all := s.all - {tx.Hash()}), a);
  }

  lemma ForgetStep(all: map<TxHash, Tx>, items: Items, todo: Items, n: nat)
    requires Within(todo, items) && n in todo
    ensures (all - Hashes(items - todo.Keys)) - {todo[n].Hash()} == all - Hashes(items - (todo - {n}).Keys)
    ensures Within(todo - {n}, items)
  {
    var before, after := items - todo.Keys, items - (todo - {n}).Keys;
    assert n in after && after[n] == todo[n];
    forall h | h in Hashes(after) ensures h in Hashes(before) + {todo[n].Hash()} {
      var k :| k in after && after[k].Hash() == h;
      assert k == n || (k in before && before[k] == after[k]);
    }
    forall h | h in Hashes(before) ensures h in Hashes(after) {
      var k :| k in before && before[k].Hash() == h;
      assert k in after && after[k] == before[k];
    }
    assert Hashes(after) == Hashes(before) + {todo[n].Hash()};
  }

  // ---- queueing ----

  /** enqueueTx: into the sender's queue list, unless its nonce is taken at no
      lower price. */
  function Enqueue(s: Pool, tx: Tx): (r: Pool)
    requires tx.from.Some?
  {
    var a := tx.from.value;
    var added := Add(if a in s.queue then s.queue[a] else EmptyList(false), tx);
    if !added.inserted then s else
      s.(queue := s.queue[a := added.list],
         all := (if added.replaced.Some? then s.all - {added.replaced.value.Hash()} else s.all)[tx.Hash() := tx])
  }

  lemma EnqueueFiled(s: Pool, tx: Tx)
    requires Filed(s) && tx.from.Some? && tx.gasPrice == 0
    requires tx.nonce in s.PendingItems(tx.from.value) ==> s.PendingItems(tx.from.value)[tx.nonce] != tx
    ensures Filed(Enqueue(s, tx)) && Local(s, Enqueue(s, tx), tx.from.value)
  {
    var a := tx.from.value;
    assert FiledAt(s, a);
    if tx.nonce !in s.QueueItems(a) {
      var s' := EnqueueFree(s, a, tx);
      InsertFiled(s, s', a, tx);
    }
  }

  lemma EnqueueFree(s: Pool, a: Address, tx: Tx) returns (s': Pool)
    requires FiledAt(s, a) && tx.from == Some(a) && tx.gasPrice == 0 && tx.nonce !in s.QueueItems(a)
    requires tx.nonce in s.PendingItems(a) ==> s.PendingItems(a)[tx.nonce] != tx
    ensures s' == Enqueue(s, tx) && FiledAt(s', a)
    ensures Local(s, s', a) && s'.all == s.all[tx.Hash() := tx]
  {
    var l := if a in s.queue then s.queue[a] else EmptyList(false);
    AddFiled(a, l, s.all, tx);
    KnowMore(a, if a in s.pending then s.pending[a] else EmptyList(true), s.all, tx);
    s' := s.(queue := s.queue[a := Add(l, tx).list], all := s.all[tx.Hash() := tx]);
  }

  lemma InsertFiled(s: Pool, s': Pool, a: Address, tx: Tx)
    requires Filed(s) && Local(s, s', a) && FiledAt(s', a)
    requires tx.from == Some(a) && s'.all == s.all[tx.Hash() := tx]
    ensures Filed(s')
  {
    LocalFiled(s, s', a);
  }

  /** A free nonce of a filed list takes the transaction. */
  lemma AddFiled(a: Address, l: List, all: map<TxHash, Tx>, tx: Tx)
    requires FiledList(a, l, l.strict, all) && tx.from == Some(a) && tx.gasPrice == 0 && tx.nonce !in l.items
    ensures FiledList(a, Add(l, tx).list, l.strict, all[tx.Hash() := tx])
  {
    AddKeepsValid(l, tx);
  }

  lemma KnowMore(a: Address, l: List, all: map<TxHash, Tx>, tx: Tx)
    requires FiledList(a, l, l.strict, all)
    ensures FiledList(a, l, l.strict, all[tx.Hash() := tx])
  {
  }

  lemma EnqueueQueueOnly(s: Pool, tx: Tx)
    requires Filed(s) && tx.from.Some? && tx.gasPrice == 0 && Local(s, Enqueue(s, tx), tx.from.value)
    ensures Executable(s) ==> Executable(Enqueue(s, tx))
    ensures forall b :: GaplessAt(Enqueue(s, tx), b) <==> GaplessAt(s, b)
  {
    var a := tx.from.value;
    var s' := Enqueue(s, tx);
    forall b | b != a ensures SameAt(s.queue, s'.queue, b) {
      assert Untouched(s, s', b);
    }
    QueueOnly(s, s', a);
  }

  /** From `s` to `s'`: if the nonce of `tx` is free in its sender's queue, `tx` is
      queued there and known; otherwise nothing changes. */
  ghost predicate Queues(s: Pool, tx: Tx, s': Pool)
    requires tx.from.Some?
  {
    var a, n: nat := tx.from.value, tx.nonce;
    && s' == s.(queue := s'.queue, all := s'.all)
    && (forall h :: h in s'.all <==> h in s.all || (h == tx.Hash() && n !in s.QueueItems(a)))
    && (forall b :: s'.QueueItems(b) == if b == a && n !in s.QueueItems(a) then s.QueueItems(b)[n := tx] else s.QueueItems(b))
  }

  lemma EnqueueExactly(s: Pool, tx: Tx)
    requires Filed(s) && tx.from.Some? && tx.gasPrice == 0
    ensures Queues(s, tx, Enqueue(s, tx))
  {
    var a := tx.from.value;
    assert FiledAt(s, a);
    EnqueueItems(if a in s.queue then s.queue[a] else EmptyList(false), tx);
  }

  /** Queueing a known transaction leaves the table of known ones alone. */
  lemma EnqueueKnown(s: Pool, tx: Tx)
    requires Filed(s) && tx.from.Some? && tx.gasPrice == 0
    ensures tx.Hash() in s.all ==> Enqueue(s, tx).all == s.all
  {
    assert FiledAt(s, tx.from.value);
  }

  lemma EnqueueStep(s: Pool, a: Address, items: Items, todo: Items, q: Items, n: nat)
    requires Filed(s) && Within(todo, items) && Keyed(items) && n in todo
    requires todo[n].from == Some(a) && todo[n].gasPrice == 0
    requires s.QueueItems(a) == (items - todo.Keys) + q
    ensures Enqueue(s, todo[n]).QueueItems(a) == (items - (todo - {n}).Keys) + q
  {
    assert FiledAt(s, a);
    var l := if a in s.queue then s.queue[a] else EmptyList(false);
    EnqueueItems(l, todo[n]);
    AddOne(items, todo, q, n);
  }

  lemma EnqueueItems(l: List, tx: Tx)
    requires tx.gasPrice == 0 && (tx.nonce in l.items ==> l.items[tx.nonce].gasPrice == 0)
    ensures TxListSpec.Add(l, tx).list.items == if tx.nonce in l.items then l.items else l.items[tx.nonce as nat := tx]
  {
  }

  lemma AddOne(items: Items, todo: Items, q: Items, n: nat)
    requires Within(todo, items) && n in todo
    ensures (items - (todo - {n}).Keys) + q ==
            if n in (items - todo.Keys) + q then (items - todo.Keys) + q else ((items - todo.Keys) + q)[n := todo[n]]
  {
  }

  /** Transactions of `a` that are not pending. */
  ghost predicate Unpended(s: Pool, a: Address, items: Items) {
    forall n :: n in items ==> items[n].from == Some(a) && items[n].gasPrice == 0 && n !in s.PendingItems(a)
  }

  /** All of `items` but those in `todo` have been queued. */
  ghost predicate Requeuing(s0: Pool, s: Pool, a: Address, items: Items, todo: Items) {
    && Filed(s) && Local(s0, s, a) && Keyed(items) && Unpended(s, a, items)
    && s.QueueItems(a) == (items - todo.Keys) + s0.QueueItems(a)
    && (AllIn(items, s0.all) ==> s.all == s0.all)
  }

  lemma RequeueStart(s: Pool, a: Address, items: Items)
    requires Filed(s) && Keyed(items) && Unpended(s, a, items)
    ensures Requeuing(s, s, a, items, items)
  {
    assert items - items.Keys == map[];
  }

  lemma RequeueStep(s0: Pool, s: Pool, a: Address, items: Items, todo: Items, n: nat)
    requires Requeuing(s0, s, a, items, todo) && Within(todo, items) && n in todo
    ensures todo[n].from.Some? && Requeuing(s0, Enqueue(s, todo[n]), a, items, todo - {n})
  {
    EnqueueFiled(s, todo[n]);
    EnqueueStep(s, a, items, todo, s0.QueueItems(a), n);
    EnqueueKnown(s, todo[n]);
    LocalTrans(s0, s, Enqueue(s, todo[n]), a);
  }

  // ---- promoting one transaction ----

  /** promoteTx at time `now`: into the account's pending list, advancing its
      next nonce; a transaction whose nonce is taken is forgotten. */
  function Promote(s: Pool, a: Address, tx: Tx, now: nat): (r: Pool) {
    var added := Add(if a in s.pending then s.pending[a] else EmptyList(true), tx);
    if !added.inserted then s.(all := s.all - {tx.Hash()}) else
      s.(pending := s.pending[a := added.list],
         all := (if added.replaced.Some? then s.all - {added.replaced.value.Hash()} else s.all)[tx.Hash() := tx],
         managed := s.managed[a := tx.nonce + 1],
         beats := s.beats[a := now])
  }

  /** From `s` to `s'`: if the nonce of `tx` is free in the pending list of `a`, `tx`
      is pending and known, the next nonce is one above it and the heartbeat is
      `now`; otherwise `tx` is forgotten. */
  ghost predicate PromotesOne(s: Pool, a: Address, tx: Tx, now: nat, s': Pool) {
    var n: nat := tx.nonce;
    if n in s.PendingItems(a) then s' == s.(all := s'.all) && (forall h :: h in s'.all <==> h in s.all && h != tx.Hash())
    else
      && s'.queue == s.queue && s'.chain == s.chain && (forall h :: h in s'.all <==> h in s.all || h == tx.Hash())
      && (forall b :: s'.PendingItems(b) == if b == a then s.PendingItems(b)[n := tx] else s.PendingItems(b))
      && (forall b :: s'.PendingNonce(b) == if b == a then n + 1 else s.PendingNonce(b))
      && a in s'.beats && s'.beats[a] == now && (forall b :: b != a ==> SameAt(s.beats, s'.beats, b))
  }

  lemma PromoteExactly(s: Pool, a: Address, tx: Tx, now: nat)
    requires Filed(s) && tx.from == Some(a) && tx.gasPrice == 0
    ensures PromotesOne(s, a, tx, now, Promote(s, a, tx, now))
  {
    assert FiledAt(s, a);
    if tx.nonce !in s.PendingItems(a) {
      PromoteFreeNonce(s, a, tx, now);
    }
  }

  lemma PromoteFreeNonce(s: Pool, a: Address, tx: Tx, now: nat)
    requires tx.nonce !in s.PendingItems(a)
    ensures PromotesOne(s, a, tx, now, Promote(s, a, tx, now))
  {
  }

  /** `tx` is in neither list of `a`. */
  ghost predicate Unlisted(s: Pool, a: Address, tx: Tx) {
    && (tx.nonce in s.PendingItems(a) ==> s.PendingItems(a)[tx.nonce] != tx)
    && (tx.nonce in s.QueueItems(a) ==> s.QueueItems(a)[tx.nonce] != tx)
  }

  lemma PromoteSound(s: Pool, a: Address, tx: Tx, now: nat)
    requires Sound(s) && tx.from == Some(a) && tx.gasPrice == 0 && Unlisted(s, a, tx)
    requires tx.nonce >= s.chain.Nonce(a) && tx.Cost() <= s.chain.Balance(a)
    ensures Sound(Promote(s, a, tx, now)) && Local(s, Promote(s, a, tx, now), a)
  {
    PromoteFiled(s, a, tx, now);
    PromoteExecutable(s, a, tx, now);
  }

  lemma PromoteFiled(s: Pool, a: Address, tx: Tx, now: nat)
    requires Filed(s) && tx.from == Some(a) && tx.gasPrice == 0 && Unlisted(s, a, tx)
    ensures Filed(Promote(s, a, tx, now))
  {
    assert FiledAt(s, a);
    if tx.nonce in s.PendingItems(a) {
      OwnedWithout(a, s.PendingItems(a), s.all, tx);
      OwnedWithout(a, s.QueueItems(a), s.all, tx);
      LocalFiled(s, s.(all := s.all - {tx.Hash()}), a);
    } else {
      var s' := PromoteFree(s, a, tx, now);
      InsertFiled(s, s', a, tx);
    }
  }

  lemma OwnedWithout(a: Address, items: Items, all: map<TxHash, Tx>, tx: Tx)
    requires Keyed(items) && Owned(a, items, all) && (tx.nonce in items ==> items[tx.nonce] != tx)
    ensures Owned(a, items, all - {tx.Hash()})
  {
  }

  /** Where the nonce is free, the list takes the transaction. */
  lemma PromoteFree(s: Pool, a: Address, tx: Tx, now: nat) returns (s': Pool)
    requires FiledAt(s, a) && tx.from == Some(a) && tx.gasPrice == 0 && tx.nonce !in s.PendingItems(a)
    requires tx.nonce in s.QueueItems(a) ==> s.QueueItems(a)[tx.nonce] != tx
    ensures s' == Promote(s, a, tx, now) && FiledAt(s', a)
    ensures Local(s, s', a) && s'.all == s.all[tx.Hash() := tx]
  {
    var l := if a in s.pending then s.pending[a] else EmptyList(true);
    AddFiled(a, l, s.all, tx);
    KnowMore(a, if a in s.queue then s.queue[a] else EmptyList(false), s.all, tx);
    s' := Promote(s, a, tx, now);
    PromoteLocal(s, a, tx, now);
    assert s'.PendingItems(a) == s.PendingItems(a)[tx.nonce as nat := tx];
    assert s'.all == s.all[tx.Hash() := tx];
  }

  lemma PromoteLocal(s: Pool, a: Address, tx: Tx, now: nat)
    ensures Local(s, Promote(s, a, tx, now), a)
  {
  }

  lemma PromoteExecutable(s: Pool, a: Address, tx: Tx, now: nat)
    requires Sound(s) && tx.gasPrice == 0
    requires tx.nonce >= s.chain.Nonce(a) && tx.Cost() <= s.chain.Balance(a)
    ensures Executable(Promote(s, a, tx, now)) && Local(s, Promote(s, a, tx, now), a)
  {
    var s' := Promote(s, a, tx, now);
    assert FiledAt(s, a) && ExecutableAt(s, a);
    assert tx.nonce !in s.PendingItems(a) ==> tx.nonce in s'.pending[a].items;
    PromoteLocal(s, a, tx, now);
    LocalExecutable(s, s', a);
  }

  // ---- totals ----

  /** The total follows the size of the one list that changed. */
  lemma TotalChange(q: Lists, q': Lists, a: Address)
    requires (forall b :: b != a ==> SameAt(q, q', b)) && a in q
    ensures Total(q') == Total(q) - |q[a].items| + if a in q' then |q'[a].items| else 0
  {
    TotalRemove(q, a);
    forall b | b != a ensures (b in q <==> b in q') && (b in q ==> q[b] == q'[b]) {
      assert SameAt(q, q', b);
    }
    assert q - {a} == q' - {a};
    if a in q' {
      TotalRemove(q', a);
    } else {
      assert q' - {a} == q';
    }
  }

  /** The lists of some accounts only. */
  ghost function Part(lists: Lists, keys: set<Address>): Lists {
    map a | a in keys && a in lists :: lists[a]
  }

  lemma PartOf(lists: Lists, keys: set<Address>)
    ensures keys == lists.Keys ==> Part(lists, keys) == lists
    ensures keys == {} ==> Total(Part(lists, keys)) == 0
  {
    if keys == {} {
      assert Entries(Part(lists, keys)) == {};
    }
  }

  /** A step on account `a` leaves the part of the other accounts alone. */
  lemma PartStep(s: Pool, s': Pool, todo: set<Address>, a: Address)
    requires Local(s, s', a) && a in todo && todo <= s.queue.Keys
    ensures todo - {a} <= s'.queue.Keys
    ensures Total(Part(s.queue, todo)) == Total(Part(s'.queue, todo - {a})) + |s.queue[a].items|
  {
    forall b | b != a ensures SameAt(s.queue, s'.queue, b) {
      assert Untouched(s, s', b);
    }
    TotalRemove(Part(s.queue, todo), a);
    forall b | b in todo - {a} ensures b in s'.queue && s'.queue[b] == s.queue[b] {
      assert SameAt(s.queue, s'.queue, b);
    }
    assert Part(s.queue, todo) - {a} == Part(s'.queue, todo - {a});
  }

  lemma QueueStep(s: Pool, s': Pool, todo: set<Address>, a: Address)
    requires Local(s, s', a) && a in todo && todo <= s.queue.Keys
    ensures todo - {a} <= s'.queue.Keys
    ensures Total(s'.queue) - Total(Part(s'.queue, todo - {a}))
         == Total(s.queue) - Total(Part(s.queue, todo)) + |s'.QueueItems(a)|
  {
    PartStep(s, s', todo, a);
    forall b | b != a ensures SameAt(s.queue, s'.queue, b) {
      assert Untouched(s, s', b);
    }
    TotalChange(s.queue, s'.queue, a);
  }

  ghost function RangeSet(lo: nat, hi: nat): (r: set<nat>)
    ensures forall k :: k in r <==> lo <= k < hi
    ensures lo <= hi ==> |r| == hi - lo
  {
    if lo >= hi then {} else RangeSet(lo, hi - 1) + {hi - 1}
  }
}
