/**
 Demotion in the transaction pool (core/tx_pool.go): what a new chain state
 leaves of the pending lists.
 */
module PoolDemotion {
  import opened TxTypes
  import opened SortedTxs
  import opened TxListSpec
  import opened Equalize
  import opened PoolState

  // ---- what a pass of demotion leaves ----

  /** What demoteUnexecutables leaves of a pending list. */
  function Kept(l: List, nonce: nat, balance: int): List {
    Filter(Forward(l, nonce), balance).list
  }

  lemma KeptRunnable(l: List, nonce: nat, balance: int)
    requires l.Valid() && l.strict
    ensures var k := Kept(l, nonce, balance);
            k.strict && k.Valid() && Within(k.items, l.items) && Runnable(k.items, nonce, balance)
  {
    FilterIsFullScan(Forward(l, nonce), balance);
    FilterPartitions(Forward(l, nonce), balance);
  }

  /** A runnable list is kept whole. */
  lemma KeptWhole(l: List, nonce: nat, balance: int)
    requires l.Valid() && Runnable(l.items, nonce, balance)
    ensures Kept(l, nonce, balance).items == l.items
    ensures Filter(Forward(l, nonce), balance).invalids == map[]
  {
    var f := Forward(l, nonce);
    assert f.items == l.items;
    FilterIsFullScan(f, balance);
    FilterPartitions(f, balance);
  }

  lemma CutAt(items: Items, balance: int, e: nat, n: nat)
    ensures e in items && n > e && (items[e].Cost() > balance || Cut(items, balance, e)) ==> Cut(items, balance, n)
  {
  }

  /** What is kept of an interval is an interval from the new chain nonce. */
  lemma KeptInterval(l: List, from: nat, to: nat, nonce: nat, balance: int) returns (end: nat)
    requires l.Valid() && l.strict && Interval(l.items, from, to) && from <= nonce
    ensures Interval(Kept(l, nonce, balance).items, nonce, end)
  {
    var f := Forward(l, nonce);
    var kept := Kept(l, nonce, balance).items;
    FilterIsFullScan(f, balance);
    end := RunEnd(kept.Keys, nonce);
    forall n | n in kept ensures n < end {
      CutAt(f.items, balance, end, n);
    }
  }

  /** What a pass of demotion leaves pending. */
  ghost function KeptItems(pending: Lists, chain: Chain, a: Address): Items {
    if a in pending then Kept(pending[a], chain.Nonce(a), chain.Balance(a)).items else map[]
  }

  /** What a pass of demotion sends back to the queue. */
  ghost function InvalidItems(pending: Lists, chain: Chain, a: Address): Items {
    if a in pending then Filter(Forward(pending[a], chain.Nonce(a)), chain.Balance(a)).invalids else map[]
  }

  /** Account `a` has been dealt with by demotion: the executable front of its
      pending list stays, what comes after an unpayable transaction is queued,
      unless a queued transaction has its nonce. */
  ghost predicate DemotedAt(before: Pool, s: Pool, a: Address) {
    && s.PendingItems(a) == KeptItems(before.pending, s.chain, a)
    && s.QueueItems(a) == InvalidItems(before.pending, s.chain, a) + before.QueueItems(a)
    && ExecutableAt(s, a) && BeatAt(before, s, a)
  }

  ghost predicate SameItems(s: Pool, s': Pool) {
    && s'.managed == s.managed && s'.chain == s.chain
    && forall a :: s'.PendingItems(a) == s.PendingItems(a) && s'.QueueItems(a) == s.QueueItems(a)
  }

  /** Nothing changes for lists that are runnable already. */
  lemma DemotionIsIdle(s: Pool, s': Pool)
    requires Sound(s) && s'.chain == s.chain && s'.managed == s.managed
    requires forall a :: DemotedAt(s, s', a)
    ensures SameItems(s, s') && (Fit(s) ==> Fit(s')) && forall a :: GaplessAt(s', a) <==> GaplessAt(s, a)
  {
    forall a
      ensures s'.PendingItems(a) == s.PendingItems(a) && s'.QueueItems(a) == s.QueueItems(a)
      ensures (GaplessAt(s, a) <==> GaplessAt(s', a)) && (FitAt(s, a) <==> FitAt(s', a))
    {
      assert DemotedAt(s, s', a) && FiledAt(s, a) && ExecutableAt(s, a);
      IdleAt(s, s', a);
    }
  }

  lemma IdleAt(s: Pool, s': Pool, a: Address)
    requires FiledAt(s, a) && ExecutableAt(s, a) && s'.chain == s.chain && DemotedAt(s, s', a)
    ensures s'.PendingItems(a) == s.PendingItems(a) && s'.QueueItems(a) == s.QueueItems(a)
  {
    if a in s.pending {
      KeptWhole(s.pending[a], s.chain.Nonce(a), s.chain.Balance(a));
    }
    assert InvalidItems(s.pending, s.chain, a) == map[];
  }

  // ---- what it forgets ----

  /** Demotion drops stale and unpayable pending transactions. */
  ghost predicate DroppedTx(s: Pool, a: Address, h: TxHash) {
    PendingTx(s, a, h) && (h.preimage.nonce < s.chain.Nonce(a) || h.preimage.Cost() > s.chain.Balance(a))
  }

  /** Exactly those of `a` are no longer known. */
  ghost predicate ForgetsDropped(s: Pool, a: Address, all: map<TxHash, Tx>) {
    forall h :: h in all <==> h in s.all && !DroppedTx(s, a, h)
  }

  lemma DropHashes(items: Items, nonce: nat, balance: int, h: TxHash)
    requires Keyed(items)
    ensures h in Hashes(Below(items, nonce)) || h in Hashes(Costly(From(items, nonce), balance)) <==>
      && h.preimage.nonce in items && items[h.preimage.nonce] == h.preimage
      && (h.preimage.nonce < nonce || h.preimage.Cost() > balance)
  {
    HashIn(Below(items, nonce), h);
    HashIn(Costly(From(items, nonce), balance), h);
  }

  lemma DemotionForgets(s: Pool, a: Address, all: map<TxHash, Tx>)
    requires FiledAt(s, a) && a in s.pending
    requires var items, nonce := s.pending[a].items, s.chain.Nonce(a);
      all == s.all - Hashes(Below(items, nonce)) - Hashes(Costly(From(items, nonce), s.chain.Balance(a)))
    ensures ForgetsDropped(s, a, all)
  {
    forall h ensures h in all <==> h in s.all && !DroppedTx(s, a, h) {
      DropHashes(s.pending[a].items, s.chain.Nonce(a), s.chain.Balance(a), h);
    }
  }

  /** What comes after an unpayable transaction stays known. */
  lemma InvalidsKnown(s: Pool, a: Address, all: map<TxHash, Tx>)
    requires FiledAt(s, a) && a in s.pending && ForgetsDropped(s, a, all)
    ensures AllIn(InvalidItems(s.pending, s.chain, a), all)
  {
    var invalids := InvalidItems(s.pending, s.chain, a);
    FilterIsFullScan(Forward(s.pending[a], s.chain.Nonce(a)), s.chain.Balance(a));
    FilterPartitions(Forward(s.pending[a], s.chain.Nonce(a)), s.chain.Balance(a));
    forall n | n in invalids ensures invalids[n].Hash() in all {
      assert s.pending[a].items[n] == invalids[n];
      assert !DroppedTx(s, a, invalids[n].Hash());
    }
  }

  // ---- the pass ----

  ghost predicate UntouchedLists(s: Pool, s': Pool, a: Address) {
    SameAt(s.pending, s'.pending, a) && SameAt(s.queue, s'.queue, a) && SameAt(s.beats, s'.beats, a)
  }

  /** Demotion has dealt with all accounts but those in `todo`. */
  ghost predicate Demoting(before: Pool, todo: set<Address>, s: Pool) {
    && s.chain == before.chain
    && (forall a :: a in todo ==> UntouchedLists(before, s, a) && a in s.pending)
    && (forall a :: a !in todo ==> DemotedAt(before, s, a))
  }

  /** Of the accounts not in `todo`, exactly the dropped transactions are no longer known. */
  ghost predicate DemotedHash(before: Pool, todo: set<Address>, all: map<TxHash, Tx>, h: TxHash) {
    var a := h.preimage.from;
    h in all <==> (h in before.all && !(a.Some? && a.value !in todo && DroppedTx(before, a.value, h)))
  }

  ghost predicate ForgetsDemoted(before: Pool, todo: set<Address>, all: map<TxHash, Tx>) {
    forall h {:trigger DemotedHash(before, todo, all, h)} :: DemotedHash(before, todo, all, h)
  }

  lemma DemotionStart(s: Pool)
    requires Filed(s)
    ensures Demoting(s, s.pending.Keys, s)
    ensures ForgetsDemoted(s, s.pending.Keys, s.all)
  {
    forall a | a !in s.pending ensures DemotedAt(s, s, a) {
      assert map[] + s.QueueItems(a) == s.QueueItems(a);
    }
  }

  lemma DemotedHashNext(before: Pool, todo: set<Address>, s: Pool, all: map<TxHash, Tx>, a: Address)
    requires Demoting(before, todo, s) && a in todo && FiledAt(s, a) && ForgetsDropped(s, a, all)
    requires ForgetsDemoted(before, todo, s.all)
    ensures ForgetsDemoted(before, todo - {a}, all)
  {
    assert UntouchedLists(before, s, a);
    assert s.PendingItems(a) == before.PendingItems(a);
    var rest := todo - {a};
    forall h ensures DemotedHash(before, rest, all, h) {
      assert DemotedHash(before, todo, s.all, h);
      assert DroppedTx(s, a, h) <==> DroppedTx(before, a, h);
      assert DroppedTx(s, a, h) ==> h.preimage.from == Some(a);
    }
  }

  lemma DemoteNext(before: Pool, todo: set<Address>, s: Pool, s': Pool, a: Address)
    requires Demoting(before, todo, s) && a in todo && Local(s, s', a)
    requires DemotedAt(s, s', a)
    ensures Demoting(before, todo - {a}, s')
  {
    forall b | b !in todo - {a} ensures DemotedAt(before, s', b) {
      if b != a {
        assert DemotedAt(before, s, b) && Untouched(s, s', b);
      } else {
        assert UntouchedLists(before, s, a);
      }
    }
    forall b | b in todo - {a} ensures UntouchedLists(before, s', b) && b in s'.pending {
      assert Untouched(s, s', b) && UntouchedLists(before, s, b);
    }
  }

  // ---- chain resets ----

  /** `managed` is what resetState sets it to. */
  ghost predicate NextNonces(pending: Lists, managed: map<Address, nat>) {
    && managed.Keys == pending.Keys
    && forall a :: a in pending && pending[a].items.Keys != {} ==> managed[a] == Greatest(pending[a].items.Keys) + 1
  }

  /** Account `a` lost no nonces with the new chain, or keeps nothing pending. */
  ghost predicate HoldsAt(s: Pool, head: Chain, a: Address) {
    KeptItems(s.pending, head, a).Keys != {} ==> s.chain.Nonce(a) <= head.Nonce(a)
  }

  /** What `a` keeps pending under `head` is nothing, or a run from its nonce. */
  ghost predicate KeepsRun(s: Pool, head: Chain, a: Address) {
    var kept := KeptItems(s.pending, head, a);
    kept.Keys == {} || forall n :: n in kept <==> head.Nonce(a) <= n <= Greatest(kept.Keys)
  }

  /** Whatever gaps there were, demotion and new next nonces leave none exactly
      if a run is kept. */
  lemma DemotedGapless(s: Pool, s': Pool, a: Address)
    requires DemotedAt(s, s', a) && NextNonces(s'.pending, s'.managed)
    ensures GaplessAt(s', a) <==> KeepsRun(s, s'.chain, a)
  {
    var kept, c := s'.PendingItems(a), s'.chain.Nonce(a);
    if kept.Keys != {} {
      assert a in s'.pending && s'.PendingNonce(a) == Greatest(kept.Keys) + 1;
      if KeepsRun(s, s'.chain, a) {
        assert Greatest(kept.Keys) in kept;
      }
    }
  }

  /** Everything listed is above the chain nonce, and so is the next nonce. */
  ghost predicate FloatingAt(s: Pool, a: Address) {
    && (forall n :: n in s.PendingItems(a) ==> n > s.chain.Nonce(a))
    && (forall n :: n in s.QueueItems(a) ==> n > s.chain.Nonce(a))
    && s.PendingNonce(a) > s.chain.Nonce(a)
  }

  lemma FloatingHasGap(s: Pool, a: Address)
    requires FloatingAt(s, a)
    ensures !GaplessAt(s, a)
  {
    assert s.chain.Nonce(a) !in s.PendingItems(a);
  }

  /** Demotion and new next nonces leave `a` gap-free exactly if it lost no
      nonces or keeps nothing pending; otherwise its lowest nonces are missing
      from the queue, too. */
  lemma ResetAt(s: Pool, s': Pool, a: Address)
    requires FiledAt(s, a) && GaplessAt(s, a) && FitAt(s, a) && DemotedAt(s, s', a) && NextNonces(s'.pending, s'.managed)
    ensures if HoldsAt(s, s'.chain, a) then GaplessAt(s', a) else FloatingAt(s', a)
  {
    if a in s.pending {
      KeptRunnable(s.pending[a], s'.chain.Nonce(a), s'.chain.Balance(a));
      if s.chain.Nonce(a) <= s'.chain.Nonce(a) {
        var end := KeptInterval(s.pending[a], s.chain.Nonce(a), s.PendingNonce(a), s'.chain.Nonce(a), s'.chain.Balance(a));
        IntervalEnd(s'.PendingItems(a), s'.chain.Nonce(a), end);
      } else if s'.PendingItems(a).Keys != {} {
        LostNonces(s, s', a);
      }
    }
  }

  lemma LostNonces(s: Pool, s': Pool, a: Address)
    requires FiledAt(s, a) && GaplessAt(s, a) && FitAt(s, a) && DemotedAt(s, s', a) && NextNonces(s'.pending, s'.managed)
    requires a in s.pending && s'.chain.Nonce(a) < s.chain.Nonce(a) && s'.PendingItems(a).Keys != {}
    ensures FloatingAt(s', a)
  {
    InvalidsWithin(s.pending[a], s'.chain.Nonce(a), s'.chain.Balance(a));
    KeptRunnable(s.pending[a], s'.chain.Nonce(a), s'.chain.Balance(a));
    assert forall n :: n in s'.PendingItems(a) ==> n in s.PendingItems(a);
    assert forall n :: n in s'.QueueItems(a) ==> n in s.PendingItems(a) || n in s.QueueItems(a);
    assert Greatest(s'.PendingItems(a).Keys) in s.PendingItems(a);
  }

  lemma InvalidsWithin(l: List, nonce: nat, balance: int)
    requires l.Valid()
    ensures Within(Filter(Forward(l, nonce), balance).invalids, l.items)
  {
    FilterPartitions(Forward(l, nonce), balance);
  }

  lemma IntervalEnd(items: Items, from: nat, to: nat)
    requires Interval(items, from, to)
    ensures items.Keys == {} <==> from == to
    ensures items.Keys != {} ==> Greatest(items.Keys) + 1 == to
  {
    if from < to {
      assert to - 1 in items.Keys;
    }
  }

  /** `s` before the reset, `s1` with the new chain, `m` after demotion, `s'`
      with the next nonces set. */
  lemma ResetSound(s: Pool, s1: Pool, m: Pool, s': Pool)
    requires Filed(s) && Filed(s') && Executable(m) && s' == m.(managed := s'.managed)
    requires s1 == s.(chain := s1.chain, managed := s1.managed) && forall a :: DemotedAt(s1, m, a)
    ensures Sound(s') && forall a :: DemotedAt(s, s', a)
  {
    forall a ensures ExecutableAt(s', a) && DemotedAt(s, s', a) {
      assert ExecutableAt(m, a) && DemotedAt(s1, m, a);
    }
  }
}
