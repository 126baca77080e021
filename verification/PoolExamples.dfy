/** Pools at which the transaction pool (core/tx_pool.go) opens a gap, leaves an
    executable transaction queued or misses its limit on the queue. All of their
    transactions pass validation. */
module PoolExamples {
  import opened Basics
  import opened TxTypes
  import opened SortedTxs
  import opened TxListSpec
  import opened Equalize
  import opened Gas
  import opened PoolState
  import opened PoolDemotion
  import opened PoolPromotion
  import opened PoolRemoval
  import opened PoolLimits
  import opened PoolGaps
  import opened TxPools

  const GAS_LIMIT := 4_700_000

  /** A free transaction of `a` that creates a contract and moves `v` wei to it. */
  function Sample(a: Address, n: Nonce, v: int): Tx {
    Tx(Some(a), None, n, 0, TX_GAS_CONTRACT_CREATION, v, [], false)
  }

  lemma SampleValid(chain: Chain, a: Address, n: Nonce, v: nat)
    requires chain.Exists(a) && chain.Nonce(a) <= n && v <= chain.Balance(a) && chain.gasLimit == GAS_LIMIT && chain.homestead
    ensures Validate(chain, Sample(a, n, v)).None? && Sample(a, n, v).Cost() == v
  {
  }

  /** Everything known would pass validation. */
  ghost predicate Admitted(s: Pool) {
    forall h :: h in s.all ==> Validate(s.chain, h.preimage).None?
  }

  /** A pool between calls, without gaps. */
  ghost predicate Between(s: Pool) {
    Sound(s) && Fit(s) && Gapless(s) && Admitted(s)
  }

  lemma AddedBetween(s: Pool, tx: Tx)
    requires Between(s)
    ensures Between(AddedTo(s, tx)) && AddedTo(s, tx).chain == s.chain
  {
    AddedKeeps(s, tx);
  }

  lemma {:induction false} AllAddedBetween(s: Pool, txs: seq<Tx>)
    requires Between(s)
    ensures Between(AllAdded(s, txs)) && AllAdded(s, txs).chain == s.chain
  {
    if txs != [] {
      AllAddedBetween(s, txs[..|txs| - 1]);
      AddedBetween(AllAdded(s, txs[..|txs| - 1]), txs[|txs| - 1]);
    }
  }

  lemma AllAddedTwo(s: Pool, txs: seq<Tx>, x: Tx, y: Tx)
    ensures AllAdded(s, txs + [x, y]) == AddedTo(AddedTo(AllAdded(s, txs), x), y)
  {
    var ts := txs + [x, y];
    assert ts[..|txs| + 1] == txs + [x] && (txs + [x])[..|txs|] == txs;
  }

  /** A new valid transaction goes to a free place in the queue. */
  lemma AddedNew(s: Pool, a: Address, tx: Tx)
    requires tx.from == Some(a) && tx.Hash() !in s.all && Validate(s.chain, tx).None? && tx.nonce !in s.QueueItems(a)
    ensures var s' := AddedTo(s, tx);
      && s'.QueueItems(a) == s.QueueItems(a)[tx.nonce as nat := tx] && s'.all == s.all[tx.Hash() := tx]
      && (forall b :: b != a ==> s'.QueueItems(b) == s.QueueItems(b))
  {
  }

  function Run(a: Address, from: nat, to: nat): Items
    requires to <= MAX_UINT64
  {
    map n | from <= n < to :: Sample(a, n, 0)
  }

  lemma RunFacts(a: Address, from: nat, to: nat)
    requires from < to <= MAX_UINT64
    ensures var p := Run(a, from, to);
      Interval(p, from, to) && Runnable(p, from, 0) && p.Keys != {} && |p| == to - from && List(true, p, 0).Valid()
  {
    assert from in Run(a, from, to);
    assert Run(a, from, to).Keys == RangeSet(from, to);
  }

  ghost function RunHashes(a: Address, from: nat, to: nat): set<TxHash>
    requires to <= MAX_UINT64
  {
    set n | from <= n < to :: Sample(a, n, 0).Hash()
  }

  // ---- one account with pending transactions only ----

  /** Account `a` has the nonces from `from` up to `to` pending. */
  ghost function Sender(a: Address, from: nat, to: nat, beat: nat): Pool
    requires to <= MAX_UINT64
  {
    Pool(map[a := List(true, Run(a, from, to), 0)], map[], map h | h in RunHashes(a, from, to) :: h.preimage,
         map[a := to], map[a := beat], Chain(map[a := from], map[a := 1], GAS_LIMIT, true))
  }

  lemma SenderBetween(a: Address, from: nat, to: nat, beat: nat)
    requires from < to <= MAX_UINT64
    ensures Between(Sender(a, from, to, beat))
  {
    var s := Sender(a, from, to, beat);
    RunFacts(a, from, to);
    SenderAdmitted(a, from, to, beat);
    forall n | from <= n < to ensures Sample(a, n, 0).Hash() in s.all {
      assert Sample(a, n, 0).Hash() in RunHashes(a, from, to);
    }
    forall b ensures FiledAt(s, b) && ExecutableAt(s, b) && FitAt(s, b) && GaplessAt(s, b) {
    }
  }

  lemma SenderAdmitted(a: Address, from: nat, to: nat, beat: nat)
    requires from < to <= MAX_UINT64
    ensures Admitted(Sender(a, from, to, beat)) && Known(Sender(a, from, to, beat).all)
  {
    var s := Sender(a, from, to, beat);
    forall h | h in s.all ensures Validate(s.chain, h.preimage).None? && h.preimage.from == Some(a) {
      var n :| from <= n < to && Sample(a, n, 0).Hash() == h;
      SampleValid(s.chain, a, n, 0);
    }
  }

  lemma OnlyAccount(lists: Lists, a: Address, items: Items)
    requires forall b :: (if b in lists then lists[b].items else map[]) == if b == a then items else map[]
    ensures Total(lists) == |items|
  {
    RowSize(a, items);
    assert Entries(lists) == Row(a, items);
  }

  /** Only account `a` has anything listed. */
  ghost predicate Alone(s: Pool, a: Address, p: Items, q: Items) {
    forall b :: s.PendingItems(b) == (if b == a then p else map[]) && s.QueueItems(b) == (if b == a then q else map[])
  }

  lemma AloneTotals(s: Pool, a: Address, p: Items, q: Items)
    requires Alone(s, a, p, q)
    ensures Total(s.pending) == |p| && Total(s.queue) == |q|
  {
    forall b
      ensures (if b in s.pending then s.pending[b].items else map[]) == if b == a then p else map[]
      ensures (if b in s.queue then s.queue[b].items else map[]) == if b == a then q else map[]
    {
      assert s.PendingItems(b) == (if b == a then p else map[]) && s.QueueItems(b) == (if b == a then q else map[]);
    }
    OnlyAccount(s.pending, a, p);
    OnlyAccount(s.queue, a, q);
  }

  /** Of the runnable queue `q`, `ready` is ready and `left` stays. */
  lemma PromotedAs(s: Pool, s': Pool, a: Address, q: Items, end: nat, ready: Items, left: Items)
    requires PromotedAt(s, s', a) && QueueRunnable(s, a) == q && ReadyEnd(q.Keys, s.PendingNonce(a)) == end
    requires Below(q, end) == ready && Capped(From(q, end), MAX_QUEUED_PER_ACCOUNT) == left
    ensures JoinedAt(s, s', a, ready) && s'.QueueItems(a) == left
  {
  }

  lemma IdlePromoted(s: Pool, s': Pool, b: Address)
    requires PromotedAt(s, s', b) && s.QueueItems(b) == map[]
    ensures s'.PendingItems(b) == s.PendingItems(b) && s'.QueueItems(b) == map[]
  {
    assert QueueRunnable(s, b) == map[];
    assert ReadyItems(s, b) == map[] && UnreadyItems(s, b) == map[];
    CappedAll(UnreadyItems(s, b), MAX_QUEUED_PER_ACCOUNT);
  }

  // ---- eviction ----

  /** The single sender of as many pending transactions as are allowed adds one
      more: the pass evicts one, which opens a gap below its next nonce. */
  lemma EvictionOpensGap(a: Address, from: nat, to: nat, beat: nat, run: Promotion, s': Pool)
    requires to == from + MAX_PENDING_TOTAL < MAX_UINT64
    requires Sound(run.promoted) && Promotes(AddedTo(Sender(a, from, to, beat), Sample(a, to, 0)), {}, run, s')
    ensures Between(Sender(a, from, to, beat)) && Between(AddedTo(Sender(a, from, to, beat), Sample(a, to, 0)))
    ensures !GaplessAt(s', a)
  {
    SenderBetween(a, from, to, beat);
    AddedBetween(Sender(a, from, to, beat), Sample(a, to, 0));
    OneMoreAdded(a, from, to, beat);
    var s := AddedTo(Sender(a, from, to, beat), Sample(a, to, 0));
    OneMorePromoted(s, run.promoted, a, from, to);
    OneMoreEvicted(s, run, s', a, from, to);
  }

  /** The sender with the next nonce queued. */
  ghost predicate OneMore(s: Pool, a: Address, from: nat, to: nat)
    requires to < MAX_UINT64
  {
    && s.chain.Nonce(a) == from && s.chain.Balance(a) == 1 && s.PendingNonce(a) == to
    && Alone(s, a, Run(a, from, to), map[to := Sample(a, to, 0)])
  }

  lemma OneMoreAdded(a: Address, from: nat, to: nat, beat: nat)
    requires from < to < MAX_UINT64
    ensures var s := AddedTo(Sender(a, from, to, beat), Sample(a, to, 0)); OneMore(s, a, from, to) && Gapless(s)
  {
    var s, tx := Sender(a, from, to, beat), Sample(a, to, 0);
    SenderBetween(a, from, to, beat);
    SampleValid(s.chain, a, to, 0);
    assert tx.Hash() !in s.all;
    AddedNew(s, a, tx);
    AddedKeeps(s, tx);
  }

  /** The ready transaction joins the pending ones. */
  lemma OneMorePromoted(s: Pool, s': Pool, a: Address, from: nat, to: nat)
    requires from < to < MAX_UINT64 && OneMore(s, a, from, to) && forall b :: PromotedAt(s, s', b)
    ensures Alone(s', a, Run(a, from, to + 1), map[])
  {
    forall b ensures s'.PendingItems(b) == (if b == a then Run(a, from, to + 1) else map[]) && s'.QueueItems(b) == map[] {
      assert PromotedAt(s, s', b);
      assert s.PendingItems(b) == (if b == a then Run(a, from, to) else map[]);
      if b == a {
        OneMoreJoined(s, s', a, from, to);
      } else {
        IdlePromoted(s, s', b);
      }
    }
  }

  lemma OneMoreJoined(s: Pool, s': Pool, a: Address, from: nat, to: nat)
    requires from < to < MAX_UINT64 && s.chain.Nonce(a) == from && s.chain.Balance(a) == 1 && s.PendingNonce(a) == to
    requires PromotedAt(s, s', a) && s.PendingItems(a) == Run(a, from, to) && s.QueueItems(a) == map[to := Sample(a, to, 0)]
    ensures s'.PendingItems(a) == Run(a, from, to + 1) && s'.QueueItems(a) == map[]
  {
    var q := map[to := Sample(a, to, 0)];
    OneRunnable(s, a, to);
    OneReady(a, to);
    PromotedAs(s, s', a, q, to + 1, q, map[]);
    OneJoins(a, from, to);
  }

  lemma OneRunnable(s: Pool, a: Address, to: nat)
    requires s.chain.Nonce(a) < to < MAX_UINT64 && s.chain.Balance(a) == 1 && s.QueueItems(a) == map[to := Sample(a, to, 0)]
    ensures QueueRunnable(s, a) == s.QueueItems(a)
  {
  }

  lemma OneReady(a: Address, to: nat)
    requires to < MAX_UINT64
    ensures var q := map[to := Sample(a, to, 0)];
      ReadyEnd(q.Keys, to) == to + 1 && Below(q, to + 1) == q && Capped(From(q, to + 1), MAX_QUEUED_PER_ACCOUNT) == map[]
  {
    var q := map[to := Sample(a, to, 0)];
    assert to in q.Keys;
    RunEndUnique(q.Keys, to, to + 1);
    assert From(q, to + 1) == map[];
    CappedAll(From(q, to + 1), MAX_QUEUED_PER_ACCOUNT);
  }

  lemma OneJoins(a: Address, from: nat, to: nat)
    requires from < to < MAX_UINT64
    ensures map[to := Sample(a, to, 0)] + Run(a, from, to) == Run(a, from, to + 1)
  {
  }

  lemma OneMoreEvicted(s: Pool, run: Promotion, s': Pool, a: Address, from: nat, to: nat)
    requires to == from + MAX_PENDING_TOTAL < MAX_UINT64
    requires Gapless(s) && Sound(run.promoted) && Promotes(s, {}, run, s') && Alone(run.promoted, a, Run(a, from, to + 1), map[])
    ensures !GaplessAt(s', a)
  {
    AloneTotals(run.promoted, a, Run(a, from, to + 1), map[]);
    OneSenderEligible(run.promoted, a, from, to, run.eligible, run.level, run.evicted);
    forall b | b != a ensures run.promoted.PendingItems(b) == map[] {
    }
    OneSenderCut(s, run, s', a);
  }

  lemma OneSenderEligible(s: Pool, a: Address, from: nat, to: nat, eligible: set<Address>, level: nat, s': Pool)
    requires to == from + MAX_PENDING_TOTAL < MAX_UINT64 && s.PendingItems(a) == Run(a, from, to + 1)
    requires Total(s.pending) == |s.PendingItems(a)| && Evicts(s, {}, eligible, level, s')
    ensures eligible != {}
  {
    RunFacts(a, from, to + 1);
  }

  /** With an empty queue, the one account that has pending transactions is cut. */
  lemma OneSenderCut(s: Pool, run: Promotion, s': Pool, a: Address)
    requires Promotes(s, {}, run, s') && Filed(run.promoted) && Gapless(s) && Total(run.promoted.queue) == 0
    requires run.eligible != {} && forall b :: b != a ==> run.promoted.PendingItems(b) == map[]
    ensures !GaplessAt(s', a)
  {
    assert FiledAt(run.promoted, a) && GaplessAt(s, a);
    var b := SomeoneCut(run.promoted, {}, run.eligible, run.level, run.evicted);
    assert b == a;
    PassGapAt(s, {}, run, s', a);
    NoDrop(run.evicted, a);
  }

  // ---- chain resets ----

  lemma FallenNonce(a: Address, from: nat, to: nat, beat: nat, head: Chain)
    requires from < to <= MAX_UINT64 && head.Nonce(a) < from && head.Balance(a) >= 0
    ensures !HoldsAt(Sender(a, from, to, beat), head, a)
  {
    RunFacts(a, from, to);
    AllKept(Sender(a, from, to, beat).pending, head, a);
  }

  lemma AllKept(pending: Lists, head: Chain, a: Address)
    requires a in pending && pending[a].Valid() && Runnable(pending[a].items, head.Nonce(a), head.Balance(a))
    ensures KeptItems(pending, head, a) == pending[a].items
  {
    KeptWhole(pending[a], head.Nonce(a), head.Balance(a));
  }

  /** When the chain nonce falls below the pending nonces, the lost ones are
      missing after the reset. */
  lemma ResetOpensGap(a: Address, from: nat, to: nat, beat: nat, demoted: Pool, localTxs: set<TxHash>, run: Promotion, s': Pool)
    requires from < to <= MAX_UINT64 && demoted.chain.Nonce(a) < from && demoted.chain.Balance(a) >= 0
    requires NextNonces(demoted.pending, demoted.managed) && forall b :: DemotedAt(Sender(a, from, to, beat), demoted, b)
    requires Filed(run.promoted) && Promotes(demoted, localTxs, run, s')
    ensures Between(Sender(a, from, to, beat)) && !GaplessAt(s', a)
  {
    var s := Sender(a, from, to, beat);
    SenderBetween(a, from, to, beat);
    FallenNonce(a, from, to, beat, demoted.chain);
    assert FiledAt(s, a) && GaplessAt(s, a) && FitAt(s, a) && DemotedAt(s, demoted, a) && FiledAt(run.promoted, a);
    ResetGaplessAt(s, demoted, localTxs, run, s', a);
  }

  // ---- what promotion leaves queued ----

  /** A batch of a transaction whose nonce is taken and of one with the next nonce. */
  function LateAndNext(a: Address, from: nat, to: nat): seq<Tx>
    requires from < to < MAX_UINT64
  {
    [Sample(a, from, 1), Sample(a, to, 0)]
  }

  /** Only the taken one is ready, so the pass leaves the next nonce queued. */
  lemma NextNonceStranded(a: Address, from: nat, to: nat, beat: nat, run: Promotion, s': Pool)
    requires from + 2 <= to <= from + MAX_PENDING_TOTAL && to < MAX_UINT64
    requires Promotes(AllAdded(Sender(a, from, to, beat), LateAndNext(a, from, to)), {}, run, s')
    ensures Between(Sender(a, from, to, beat)) && Between(AllAdded(Sender(a, from, to, beat), LateAndNext(a, from, to)))
    ensures s'.PendingNonce(a) == to && s'.QueueItems(a) == map[to := Sample(a, to, 0)]
  {
    var s := Sender(a, from, to, beat);
    SenderBetween(a, from, to, beat);
    AllAddedBetween(s, LateAndNext(a, from, to));
    LateAndNextAdded(a, from, to, beat);
    var m := AllAdded(s, LateAndNext(a, from, to));
    AllAddedKeeps(s, LateAndNext(a, from, to));
    StrandedPromoted(m, run.promoted, a, from, to);
    RunFacts(a, from, to);
    AloneTotals(run.promoted, a, Run(a, from, to), map[to := Sample(a, to, 0)]);
  }

  lemma LateAndNextAdded(a: Address, from: nat, to: nat, beat: nat)
    requires from < to < MAX_UINT64
    ensures var s := Sender(a, from, to, beat);
      && (forall tx :: tx in LateAndNext(a, from, to) ==> Validate(s.chain, tx).None? && tx.Hash() !in s.all)
      && Alone(AllAdded(s, LateAndNext(a, from, to)), a, Run(a, from, to), map[from := Sample(a, from, 1), to := Sample(a, to, 0)])
  {
    var s, x, y := Sender(a, from, to, beat), Sample(a, from, 1), Sample(a, to, 0);
    SampleValid(s.chain, a, from, 1);
    SampleValid(s.chain, a, to, 0);
    AllAddedTwo(s, [], x, y);
    assert [] + [x, y] == [x, y];
    assert x.Hash() !in s.all && y.Hash() !in s.all;
    AddedNew(s, a, x);
    AddedNew(AddedTo(s, x), a, y);
  }

  lemma StrandedPromoted(s: Pool, s': Pool, a: Address, from: nat, to: nat)
    requires from + 2 <= to < MAX_UINT64 && s.chain.Nonce(a) == from && s.chain.Balance(a) == 1 && s.PendingNonce(a) == to
    requires Alone(s, a, Run(a, from, to), map[from := Sample(a, from, 1), to := Sample(a, to, 0)])
    requires forall b :: PromotedAt(s, s', b)
    ensures Alone(s', a, Run(a, from, to), map[to := Sample(a, to, 0)]) && s'.PendingNonce(a) == to
  {
    StrandedJoined(s, s', a, from, to) by {
      assert PromotedAt(s, s', a);
      assert s.PendingItems(a) == Run(a, from, to);
    }
    forall b | b != a ensures s'.PendingItems(b) == map[] && s'.QueueItems(b) == map[] {
      assert s.PendingItems(b) == map[] && PromotedAt(s, s', b);
      IdlePromoted(s, s', b);
    }
  }

  lemma StrandedJoined(s: Pool, s': Pool, a: Address, from: nat, to: nat)
    requires from + 2 <= to < MAX_UINT64 && s.chain.Nonce(a) == from && s.chain.Balance(a) == 1 && s.PendingNonce(a) == to
    requires PromotedAt(s, s', a) && s.PendingItems(a) == Run(a, from, to)
    requires s.QueueItems(a) == map[from := Sample(a, from, 1), to := Sample(a, to, 0)]
    ensures s'.PendingItems(a) == Run(a, from, to) && s'.QueueItems(a) == map[to := Sample(a, to, 0)] && s'.PendingNonce(a) == to
  {
    LateRunnable(s, a, from, to);
    TakenReady(a, from, to);
    TakenJoins(a, from, to);
    NothingJoins(s, s', a, s.QueueItems(a), from + 1, map[from := Sample(a, from, 1)], map[to := Sample(a, to, 0)]);
  }

  /** What is ready has its nonces taken. */
  lemma NothingJoins(s: Pool, s': Pool, a: Address, q: Items, end: nat, ready: Items, left: Items)
    requires PromotedAt(s, s', a) && QueueRunnable(s, a) == q && ReadyEnd(q.Keys, s.PendingNonce(a)) == end
    requires Below(q, end) == ready && Capped(From(q, end), MAX_QUEUED_PER_ACCOUNT) == left
    requires ready + s.PendingItems(a) == s.PendingItems(a) && ready.Keys - s.PendingItems(a).Keys == {}
    ensures s'.PendingItems(a) == s.PendingItems(a) && s'.QueueItems(a) == left && s'.PendingNonce(a) == s.PendingNonce(a)
  {
    PromotedAs(s, s', a, q, end, ready, left);
  }

  lemma LateRunnable(s: Pool, a: Address, from: nat, to: nat)
    requires from < to < MAX_UINT64 && s.chain.Nonce(a) == from && s.chain.Balance(a) == 1
    requires s.QueueItems(a) == map[from := Sample(a, from, 1), to := Sample(a, to, 0)]
    ensures QueueRunnable(s, a) == s.QueueItems(a)
  {
  }

  lemma TakenReady(a: Address, from: nat, to: nat)
    requires from + 2 <= to < MAX_UINT64
    ensures var q := map[from := Sample(a, from, 1), to := Sample(a, to, 0)];
      && ReadyEnd(q.Keys, to) == from + 1 && Below(q, from + 1) == map[from := Sample(a, from, 1)]
      && Capped(From(q, from + 1), MAX_QUEUED_PER_ACCOUNT) == map[to := Sample(a, to, 0)]
  {
    var q := map[from := Sample(a, from, 1), to := Sample(a, to, 0)];
    assert from in q.Keys;
    RunEndUnique(q.Keys, from, from + 1);
    assert From(q, from + 1) == map[to := Sample(a, to, 0)];
    CappedAll(From(q, from + 1), MAX_QUEUED_PER_ACCOUNT);
  }

  lemma TakenJoins(a: Address, from: nat, to: nat)
    requires from < to < MAX_UINT64
    ensures var ready := map[from := Sample(a, from, 1)];
      ready + Run(a, from, to) == Run(a, from, to) && ready.Keys - Run(a, from, to).Keys == {}
  {
    assert from in Run(a, from, to);
  }

  // ---- many accounts with a queued nonce that is pending ----

  ghost function Accounts(k: nat): set<Address> {
    set i | 0 <= i < k :: Address(i)
  }

  ghost function Each<T>(k: nat, v: T): map<Address, T> {
    map a | a in Accounts(k) :: v
  }

  ghost function CrowdPending(k: nat): Lists {
    map a | a in Accounts(k) :: List(true, Run(a, 0, 4), 0)
  }

  ghost function CrowdHashes(k: nat): set<TxHash> {
    set a, n | a in Accounts(k) && 0 <= n < 4 :: Sample(a, n, 0).Hash()
  }

  /** Each of `k` accounts has its first four nonces pending. */
  ghost function Crowd(k: nat, beat: nat): Pool {
    Pool(CrowdPending(k), map[], map h | h in CrowdHashes(k) :: h.preimage, Each(k, 4), Each(k, beat),
         Chain(Each(k, 0), Each(k, 1), GAS_LIMIT, true))
  }

  function Late(a: Address): Items {
    map[0 := Sample(a, 0, 1), 2 := Sample(a, 2, 1)]
  }

  /** Two more transactions of each account, with nonces that are taken. */
  function LateBatch(k: nat): seq<Tx> {
    if k == 0 then [] else LateBatch(k - 1) + [Sample(Address(k - 1), 0, 1), Sample(Address(k - 1), 2, 1)]
  }

  lemma CrowdAt(k: nat, beat: nat, a: Address)
    ensures var s := Crowd(k, beat);
      && s.chain.Nonce(a) == 0 && (a in s.pending <==> a in Accounts(k)) && s.QueueItems(a) == map[]
      && (if a in Accounts(k)
          then && s.PendingItems(a) == Run(a, 0, 4) && s.pending[a] == List(true, Run(a, 0, 4), 0) && s.PendingNonce(a) == 4
               && s.chain.Balance(a) == 1 && s.chain.Exists(a)
          else s.PendingItems(a) == map[] && s.PendingNonce(a) == 0)
  {
    EachAt(k, a, 4);
    EachAt(k, a, 0);
    EachAt(k, a, 1);
    ListsAt(k, a);
  }

  lemma EachAt<T>(k: nat, a: Address, v: T)
    ensures a in Each(k, v) <==> a in Accounts(k)
    ensures a in Accounts(k) ==> Each(k, v)[a] == v
  {
  }

  lemma ListsAt(k: nat, a: Address)
    ensures a in CrowdPending(k) <==> a in Accounts(k)
    ensures a in Accounts(k) ==> CrowdPending(k)[a] == List(true, Run(a, 0, 4), 0)
  {
  }

  lemma CrowdKnown(k: nat, beat: nat)
    ensures Admitted(Crowd(k, beat)) && Known(Crowd(k, beat).all)
    ensures forall h :: h in Crowd(k, beat).all ==> h.preimage.value == 0
  {
    var s := Crowd(k, beat);
    forall h | h in s.all ensures Validate(s.chain, h.preimage).None? && h.preimage.from.Some? && h.preimage.value == 0 {
      var a, n :| a in Accounts(k) && 0 <= n < 4 && Sample(a, n, 0).Hash() == h;
      CrowdAt(k, beat, a);
      SampleValid(s.chain, a, n, 0);
    }
  }

  lemma CrowdBetween(k: nat, beat: nat)
    ensures Between(Crowd(k, beat))
  {
    var s := Crowd(k, beat);
    CrowdKnown(k, beat);
    forall a ensures FiledAt(s, a) && ExecutableAt(s, a) && FitAt(s, a) && GaplessAt(s, a) {
      CrowdFiled(k, beat, a);
    }
  }

  lemma CrowdFiled(k: nat, beat: nat, a: Address)
    ensures var s := Crowd(k, beat); FiledAt(s, a) && ExecutableAt(s, a) && FitAt(s, a) && GaplessAt(s, a)
  {
    CrowdAt(k, beat, a);
    if a in Accounts(k) {
      RunFacts(a, 0, 4);
      RunKnown(k, beat, a);
    }
  }

  lemma RunKnown(k: nat, beat: nat, a: Address)
    requires a in Accounts(k)
    ensures Owned(a, Run(a, 0, 4), Crowd(k, beat).all)
  {
    forall n | n in Run(a, 0, 4) ensures Run(a, 0, 4)[n].Hash() in Crowd(k, beat).all {
      assert Sample(a, n, 0).Hash() in CrowdHashes(k);
    }
  }

  /** The first `j` accounts have their batch queued. */
  ghost predicate Batched(j: nat, s: Pool) {
    && (forall a :: s.QueueItems(a) == if a in Accounts(j) then Late(a) else map[])
    && (forall h :: h in s.all ==> h.preimage.value == 0 || (h.preimage.from.Some? && h.preimage.from.value in Accounts(j)))
  }

  lemma {:induction false} BatchQueued(k: nat, beat: nat, j: nat)
    requires j <= k
    ensures Batched(j, AllAdded(Crowd(k, beat), LateBatch(j)))
  {
    var s := Crowd(k, beat);
    if j == 0 {
      CrowdKnown(k, beat);
      forall a ensures s.QueueItems(a) == map[] {
        CrowdAt(k, beat, a);
      }
    } else {
      var a := Address(j - 1);
      BatchQueued(k, beat, j - 1);
      CrowdBetween(k, beat);
      AllAddedKeeps(s, LateBatch(j - 1));
      AllAddedTwo(s, LateBatch(j - 1), Sample(a, 0, 1), Sample(a, 2, 1));
      CrowdAt(k, beat, a);
      BatchStep(j - 1, AllAdded(s, LateBatch(j - 1)));
    }
  }

  lemma BatchStep(j: nat, s: Pool)
    requires Batched(j, s) && s.chain.Exists(Address(j)) && s.chain.Nonce(Address(j)) == 0 && s.chain.Balance(Address(j)) == 1
    requires s.chain.gasLimit == GAS_LIMIT && s.chain.homestead
    ensures Batched(j + 1, AddedTo(AddedTo(s, Sample(Address(j), 0, 1)), Sample(Address(j), 2, 1)))
  {
    var a, x, y := Address(j), Sample(Address(j), 0, 1), Sample(Address(j), 2, 1);
    SampleValid(s.chain, a, 0, 1);
    SampleValid(s.chain, a, 2, 1);
    assert a !in Accounts(j);
    AddedNew(s, a, x);
    var m := AddedTo(s, x);
    AddedNew(m, a, y);
    var s' := AddedTo(m, y);
    forall b ensures b in Accounts(j + 1) <==> b in Accounts(j) || b == a {
      NextAccount(j, b);
    }
    forall b ensures s'.QueueItems(b) == if b in Accounts(j + 1) then Late(b) else map[] {
      if b == a {
        assert s'.QueueItems(a) == map[][0 := x][2 := y];
      }
    }
  }

  lemma NextAccount(j: nat, b: Address)
    ensures b in Accounts(j + 1) <==> b in Accounts(j) || b == Address(j)
  {
    if b in Accounts(j) {
      var i :| 0 <= i < j && Address(i) == b;
      assert 0 <= i < j + 1;
    }
  }

  lemma LateReady(a: Address)
    ensures Payable(From(Late(a), 0), 1) == Late(a) && ReadyEnd(Late(a).Keys, 4) == 1
    ensures Below(Late(a), 1) == map[0 := Sample(a, 0, 1)] && From(Late(a), 1) == map[2 := Sample(a, 2, 1)]
    ensures Capped(map[2 := Sample(a, 2, 1)], MAX_QUEUED_PER_ACCOUNT) == map[2 := Sample(a, 2, 1)]
  {
    assert 0 in Late(a).Keys;
    RunEndUnique(Late(a).Keys, 0, 1);
    CappedAll(map[2 := Sample(a, 2, 1)], MAX_QUEUED_PER_ACCOUNT);
  }

  /** `s` is the crowd with the whole batch queued. */
  ghost predicate CrowdWithBatch(k: nat, beat: nat, s: Pool) {
    var c := Crowd(k, beat);
    Batched(k, s) && s.pending == c.pending && s.managed == c.managed && s.chain == c.chain
  }

  /** Promotion drops the lower of the two, which is pending already, and leaves
      the other one queued. */
  lemma CrowdPromoted(k: nat, beat: nat, s: Pool, s': Pool, a: Address)
    requires CrowdWithBatch(k, beat, s) && PromotedAt(s, s', a)
    ensures s'.PendingItems(a) == Crowd(k, beat).PendingItems(a)
    ensures s'.QueueItems(a) == if a in Accounts(k) then map[2 := Sample(a, 2, 1)] else map[]
  {
    CrowdAt(k, beat, a);
    assert s.PendingItems(a) == Crowd(k, beat).PendingItems(a) && s.PendingNonce(a) == Crowd(k, beat).PendingNonce(a);
    if a in Accounts(k) {
      assert s.QueueItems(a) == Late(a);
      LateReady(a);
      TakenJoins(a, 0, 4);
    } else {
      IdlePromoted(s, s', a);
    }
  }

  /** Each account has exactly nonce 2 queued. */
  ghost predicate TwoQueued(k: nat, s: Pool) {
    forall a, n :: n in s.QueueItems(a) <==> a in Accounts(k) && n == 2
  }

  lemma {:induction false} TwoQueuedTotal(k: nat, s: Pool)
    requires TwoQueued(k, s)
    ensures Total(s.queue) == k
  {
    var twos := set i | 0 <= i < k :: (Address(i), 2);
    forall a, n: nat ensures (a, n) in Entries(s.queue) <==> (a, n) in twos {
      assert n in s.QueueItems(a) <==> a in Accounts(k) && n == 2;
    }
    assert Entries(s.queue) == twos;
    CountTwos(k);
  }

  lemma {:induction false} CountTwos(k: nat)
    ensures |set i | 0 <= i < k :: (Address(i), 2)| == k
  {
    if k > 0 {
      CountTwos(k - 1);
      assert (set i | 0 <= i < k :: (Address(i), 2)) == (set i | 0 <= i < k - 1 :: (Address(i), 2)) + {(Address(k - 1), 2)};
    }
  }

  /** Dropping the one queued transaction of an account queues a pending one. */
  lemma OneGoesBack(a: Address)
    ensures GoesBack(Run(a, 0, 4), map[2 := Sample(a, 2, 1)], 1, 3)
  {
    RunFacts(a, 0, 4);
    SingleHit(Run(a, 0, 4), map[2 := Sample(a, 2, 1)]);
  }

  lemma SingleHit(p: Items, q: Items)
    requires Interval(p, 0, 4) && q.Keys == {2}
    ensures GoesBack(p, q, 1, 3)
  {
    assert |q| == 1;
    assert Rest(q, 1).Keys == {};
    assert Hits(p, q, 1) == {2};
    assert 0 in p && 0 < 2;
    assert SomeBelow(p, 2) && AllAbove(p, {2});
  }

  lemma NobodyEligible(k: nat, beat: nat, s: Pool, run: Promotion)
    requires (forall a :: s.PendingItems(a) == Crowd(k, beat).PendingItems(a)) && Evicts(s, {}, run.eligible, run.level, run.evicted)
    ensures run.evicted == s
  {
    if Total(s.pending) > MAX_PENDING_TOTAL {
      forall a | a in s.pending ensures |s.pending[a].items| <= 4 {
        assert s.PendingItems(a) == Crowd(k, beat).PendingItems(a);
        CrowdAt(k, beat, a);
        RunFacts(a, 0, 4);
      }
      ShortLists(s.pending, run.eligible, run.level, run.evicted.pending);
    }
  }

  lemma ShortLists(lists: Lists, eligible: set<Address>, level: nat, r: Lists)
    requires Eligible(lists, {}, eligible) && WaterFilled(lists, eligible, level, r)
    requires forall a :: a in lists ==> |lists[a].items| <= 4
    ensures r == lists
  {
    NothingCut(lists, eligible, level);
  }

  /** Some account loses its queued transaction, as there are too many. */
  lemma SomeoneDropped(k: nat, s: Pool, drops: map<Address, nat>, s': Pool) returns (a: Address)
    requires TwoQueued(k, s) && k > MAX_QUEUED_IN_TOTAL && Limited(s, drops, s')
    ensures Total(s'.queue) > MAX_QUEUED_IN_TOTAL || (a in drops && drops[a] > 0)
  {
    a := Address(0);
    if b :| b in drops && drops[b] > 0 {
      a := b;
    } else {
      forall b ensures s'.QueueItems(b) == s.QueueItems(b) {
        assert LimitedAt(s, s', b, Drop(drops, b));
        NoDrop(s, b);
      }
      TwoQueuedTotal(k, s');
    }
  }

  /** The late batch of more than 1024 accounts: the pass ends above the limit. */
  lemma LimitMissed(k: nat, beat: nat, run: Promotion, s': Pool)
    requires k > MAX_QUEUED_IN_TOTAL && Promotes(AllAdded(Crowd(k, beat), LateBatch(k)), {}, run, s')
    ensures Between(Crowd(k, beat)) && Between(AllAdded(Crowd(k, beat), LateBatch(k))) && Total(s'.queue) > MAX_QUEUED_IN_TOTAL
  {
    CrowdBetween(k, beat);
    AllAddedBetween(Crowd(k, beat), LateBatch(k));
    AllAddedKeeps(Crowd(k, beat), LateBatch(k));
    BatchQueued(k, beat, k);
    EachPromoted(k, beat, AllAdded(Crowd(k, beat), LateBatch(k)), run.promoted);
    NobodyEligible(k, beat, run.promoted, run);
    TwoQueuedTotal(k, run.promoted);
    CrowdLimited(k, beat, run.promoted, run.drops, s');
  }

  lemma EachPromoted(k: nat, beat: nat, s: Pool, s': Pool)
    requires CrowdWithBatch(k, beat, s) && forall a :: PromotedAt(s, s', a)
    ensures TwoQueued(k, s') && forall a :: s'.PendingItems(a) == Crowd(k, beat).PendingItems(a)
    ensures forall a :: s'.QueueItems(a) == if a in Accounts(k) then map[2 := Sample(a, 2, 1)] else map[]
  {
    forall a
      ensures s'.PendingItems(a) == Crowd(k, beat).PendingItems(a)
      ensures s'.QueueItems(a) == if a in Accounts(k) then map[2 := Sample(a, 2, 1)] else map[]
    {
      assert PromotedAt(s, s', a);
      CrowdPromoted(k, beat, s, s', a);
    }
  }

  lemma CrowdLimited(k: nat, beat: nat, s: Pool, drops: map<Address, nat>, s': Pool)
    requires k > MAX_QUEUED_IN_TOTAL && Limited(s, drops, s') && TwoQueued(k, s)
    requires forall a :: s.PendingItems(a) == Crowd(k, beat).PendingItems(a)
    requires forall a :: s.QueueItems(a) == if a in Accounts(k) then map[2 := Sample(a, 2, 1)] else map[]
    ensures Total(s'.queue) > MAX_QUEUED_IN_TOTAL
  {
    var a := SomeoneDropped(k, s, drops, s');
    if a in drops && drops[a] > 0 {
      DroppedGoesBack(k, beat, s, drops, a);
      LimitMet(s, drops, s');
    }
  }

  lemma DroppedGoesBack(k: nat, beat: nat, s: Pool, drops: map<Address, nat>, a: Address)
    requires Ordered(s, drops) && a in drops && drops[a] > 0 && s.PendingItems(a) == Crowd(k, beat).PendingItems(a)
    requires s.QueueItems(a) == if a in Accounts(k) then map[2 := Sample(a, 2, 1)] else map[]
    ensures GoesBack(s.PendingItems(a), s.QueueItems(a), drops[a], 3)
  {
    assert s.queue[a].items == s.QueueItems(a) && drops[a] <= |s.QueueItems(a)|;
    CrowdAt(k, beat, a);
    assert drops[a] == 1;
    OneGoesBack(a);
  }
}
