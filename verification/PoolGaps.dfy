/**
 Gaps in the pending nonces of the transaction pool's accounts
 (core/tx_pool.go): which operations open and close them.
 */
module PoolGaps {
  import opened Basics
  import opened TxTypes
  import opened SortedTxs
  import opened TxListSpec
  import opened Equalize
  import opened PoolState
  import opened PoolDemotion
  import opened PoolPromotion
  import opened PoolRemoval
  import opened PoolLimits

  // ---- a pass of promotion ----

  /** Account `a` lost nothing to the eviction, or lost a pending nonce to the
      limit on the queue afterwards, which resets its next nonce. */
  ghost predicate SeamlessAt(run: Promotion, a: Address) {
    CutBy(run.promoted, run.eligible, run.level, a) ==>
      Hits(run.evicted.PendingItems(a), run.evicted.QueueItems(a), Drop(run.drops, a)) != {}
  }

  ghost predicate Seamless(run: Promotion) {
    forall a :: SeamlessAt(run, a)
  }

  /** After promotion without a gap the pass leaves none exactly if it is seamless. */
  lemma SeamlessPass(s: Pool, localTxs: set<TxHash>, run: Promotion, s': Pool, a: Address)
    requires FiledAt(run.promoted, a) && GaplessAt(run.promoted, a) && Promotes(s, localTxs, run, s')
    ensures GaplessAt(s', a) <==> SeamlessAt(run, a)
  {
    var hi := EvictedFront(run.promoted, localTxs, run.eligible, run.level, run.evicted, a);
    PassDrops(s, localTxs, run, s', a);
    LimitedGapless(run.evicted, s', a, Drop(run.drops, a), hi);
  }

  lemma LimitedGapless(s: Pool, s': Pool, a: Address, d: nat, hi: nat)
    requires Interval(s.PendingItems(a), s.chain.Nonce(a), hi) && hi <= s.PendingNonce(a)
    requires s'.chain == s.chain && LimitedAt(s, s', a, d)
    ensures GaplessAt(s', a) <==> hi == s.PendingNonce(a) || Hits(s.PendingItems(a), s.QueueItems(a), d) != {}
  {
    var p, q := s.PendingItems(a), s.QueueItems(a);
    if Hits(p, q, d) == {} {
      assert LeftOf(p, q, d) == p;
      OneEnd(p, s.chain.Nonce(a), hi, s.PendingNonce(a));
    }
  }

  ghost function Lowered(next: nat, cuts: set<nat>): nat {
    if cuts == {} then next else Min(next, Least(cuts))
  }

  ghost predicate BelowAll(n: nat, cuts: set<nat>) {
    forall h :: h in cuts ==> n < h
  }

  /** Below all of `cuts`, what is pending is exactly the run from `c` up to
      `next` or to the lowest cut. */
  ghost predicate RunBelow(p: Items, c: nat, next: nat, cuts: set<nat>) {
    var top := Lowered(next, cuts);
    && c <= top && (forall n :: c <= n < top ==> n in p)
    && (forall n :: n in p && BelowAll(n, cuts) ==> c <= n < top)
  }

  /** What eviction and the limit on the queue leave pending is a run, whatever
      it was after promotion. */
  ghost predicate RescuedAt(run: Promotion, a: Address) {
    var p, q := run.evicted.PendingItems(a), run.evicted.QueueItems(a);
    RunBelow(p, run.evicted.chain.Nonce(a), run.evicted.PendingNonce(a), Hits(p, q, Drop(run.drops, a)))
  }

  lemma LimitedRun(s: Pool, s': Pool, a: Address, d: nat)
    requires s'.chain == s.chain && LimitedAt(s, s', a, d)
    ensures GaplessAt(s', a) <==>
      RunBelow(s.PendingItems(a), s.chain.Nonce(a), s.PendingNonce(a), Hits(s.PendingItems(a), s.QueueItems(a), d))
  {
    var p, q := s.PendingItems(a), s.QueueItems(a);
    forall n ensures n in LeftOf(p, q, d) <==> n in p && BelowAll(n, Hits(p, q, d)) {
    }
    CutRun(p, LeftOf(p, q, d), s.chain.Nonce(a), s.PendingNonce(a), Hits(p, q, d));
  }

  lemma CutRun(p: Items, p': Items, c: nat, next: nat, cuts: set<nat>)
    requires forall n :: n in p' <==> n in p && BelowAll(n, cuts)
    ensures Interval(p', c, Lowered(next, cuts)) <==> RunBelow(p, c, next, cuts)
  {
  }

  /** A pass leaves account `a` without a gap exactly if: it had none, or what was
      ready mends it, and the pass is seamless; or else what is left is a run. */
  lemma PassGapAt(s: Pool, localTxs: set<TxHash>, run: Promotion, s': Pool, a: Address)
    requires FiledAt(run.promoted, a) && Promotes(s, localTxs, run, s')
    ensures GaplessAt(s', a) <==> if GaplessAt(s, a) || MendsAt(s, a) then SeamlessAt(run, a) else RescuedAt(run, a)
  {
    assert PromotedAt(s, run.promoted, a);
    PromotedGapless(s, run.promoted, a);
    if GaplessAt(s, a) || MendsAt(s, a) {
      SeamlessPass(s, localTxs, run, s', a);
    } else {
      PassDrops(s, localTxs, run, s', a);
      LimitedRun(run.evicted, s', a, Drop(run.drops, a));
    }
  }

  /** A gap at the bottom of an account is still there after a pass. */
  lemma PassFloating(s: Pool, localTxs: set<TxHash>, run: Promotion, s': Pool, a: Address)
    requires FloatingAt(s, a) && Promotes(s, localTxs, run, s')
    ensures FloatingAt(s', a)
  {
    PromotedFloating(s, run.promoted, a);
    EvictedFloating(run.promoted, localTxs, run.eligible, run.level, run.evicted, a);
    PassDrops(s, localTxs, run, s', a);
    LimitedFloating(run.evicted, s', a, Drop(run.drops, a));
  }

  lemma PromotedFloating(s: Pool, s': Pool, a: Address)
    requires FloatingAt(s, a) && s'.chain == s.chain && PromotedAt(s, s', a)
    ensures FloatingAt(s', a)
  {
  }

  lemma EvictedFloating(s: Pool, localTxs: set<TxHash>, eligible: set<Address>, level: nat, s': Pool, a: Address)
    requires FloatingAt(s, a) && Evicts(s, localTxs, eligible, level, s')
    ensures FloatingAt(s', a)
  {
    if Total(s.pending) > MAX_PENDING_TOTAL && a in s.pending {
      assert s'.pending[a] == if a in eligible then Cap(s.pending[a], level) else s.pending[a];
    }
    assert forall n :: n in s'.PendingItems(a) ==> n in s.PendingItems(a);
    assert s'.QueueItems(a) == s.QueueItems(a) && s'.PendingNonce(a) == s.PendingNonce(a) && s'.chain == s.chain;
  }

  lemma LimitedFloating(s: Pool, s': Pool, a: Address, d: nat)
    requires FloatingAt(s, a) && s'.chain == s.chain && LimitedAt(s, s', a, d)
    ensures FloatingAt(s', a)
  {
    assert forall n :: n in s'.PendingItems(a) ==> n in s.PendingItems(a);
    assert forall n :: n in s'.QueueItems(a) ==> n in s.PendingItems(a) || n in s.QueueItems(a);
  }

  /** Over a whole pass: gap-free exactly if it is seamless, in particular if no
      account was eligible for eviction. */
  lemma PassGapless(s: Pool, localTxs: set<TxHash>, run: Promotion, s': Pool)
    requires Filed(run.promoted) && Gapless(s) && Promotes(s, localTxs, run, s')
    ensures Gapless(s') <==> Seamless(run)
    ensures run.eligible == {} ==> Seamless(run)
    ensures run.drops == map[] ==> (Seamless(run) <==> run.eligible == {})
  {
    forall a ensures GaplessAt(s', a) <==> SeamlessAt(run, a) {
      assert GaplessAt(s, a) && FiledAt(run.promoted, a);
      PassGapAt(s, localTxs, run, s', a);
    }
    if run.drops == map[] && run.eligible != {} {
      var a := SomeoneCut(run.promoted, localTxs, run.eligible, run.level, run.evicted);
      NoDrop(run.evicted, a);
      assert !SeamlessAt(run, a);
    }
  }

  /** No account that keeps pending transactions lost nonces to the new chain,
      and the pass after that is seamless. */
  ghost predicate ResetSeamless(s: Pool, head: Chain, run: Promotion) {
    forall a :: HoldsAt(s, head, a) && SeamlessAt(run, a)
  }

  /** A reset demotes `s` to `demoted` for a new chain and then promotes. An
      account without a gap gets none exactly if it lost no nonces or keeps
      nothing pending, and the pass is seamless there. */
  lemma ResetGaplessAt(s: Pool, demoted: Pool, localTxs: set<TxHash>, run: Promotion, s': Pool, a: Address)
    requires FiledAt(s, a) && GaplessAt(s, a) && FitAt(s, a) && NextNonces(demoted.pending, demoted.managed)
    requires DemotedAt(s, demoted, a) && FiledAt(run.promoted, a) && Promotes(demoted, localTxs, run, s')
    ensures GaplessAt(s', a) <==> HoldsAt(s, demoted.chain, a) && SeamlessAt(run, a)
  {
    ResetAt(s, demoted, a);
    if HoldsAt(s, demoted.chain, a) {
      PassGapAt(demoted, localTxs, run, s', a);
    } else {
      PassFloating(demoted, localTxs, run, s', a);
      FloatingHasGap(s', a);
    }
  }

  lemma ResetGapless(s: Pool, demoted: Pool, localTxs: set<TxHash>, run: Promotion, s': Pool)
    requires Filed(s) && Gapless(s) && Fit(s) && NextNonces(demoted.pending, demoted.managed)
    requires (forall a :: DemotedAt(s, demoted, a)) && Filed(run.promoted) && Promotes(demoted, localTxs, run, s')
    ensures Gapless(s') <==> ResetSeamless(s, demoted.chain, run)
  {
    forall a ensures GaplessAt(s', a) <==> HoldsAt(s, demoted.chain, a) && SeamlessAt(run, a) {
      assert FiledAt(s, a) && GaplessAt(s, a) && FitAt(s, a) && DemotedAt(s, demoted, a) && FiledAt(run.promoted, a);
      ResetGaplessAt(s, demoted, localTxs, run, s', a);
    }
  }

  // ---- the accounts with gaps ----

  ghost predicate PassedAt(gaps: set<Address>, s: Pool, run: Promotion, a: Address) {
    if a !in gaps || MendsAt(s, a) then SeamlessAt(run, a) else RescuedAt(run, a)
  }

  /** How a pass changes the set of accounts with gaps. */
  ghost predicate PassGaps(gaps: set<Address>, s: Pool, run: Promotion, gaps': set<Address>) {
    forall a :: a in gaps' <==> !PassedAt(gaps, s, run, a)
  }

  lemma PassGapsExact(gaps: set<Address>, s: Pool, localTxs: set<TxHash>, run: Promotion, s': Pool, gaps': set<Address>)
    requires Filed(run.promoted) && Promotes(s, localTxs, run, s') && GapsOf(s, gaps) && GapsOf(s', gaps')
    ensures PassGaps(gaps, s, run, gaps')
  {
    forall a ensures a in gaps' <==> !PassedAt(gaps, s, run, a) {
      assert FiledAt(run.promoted, a);
      PassGapAt(s, localTxs, run, s', a);
    }
  }

  ghost predicate ResetAtGap(gaps: set<Address>, s: Pool, demoted: Pool, run: Promotion, gaps': set<Address>, a: Address) {
    && (a in gaps' <==>
          !(if KeepsRun(s, demoted.chain, a) || MendsAt(demoted, a) then SeamlessAt(run, a) else RescuedAt(run, a)))
    && (a !in gaps ==> (a in gaps' <==> !(HoldsAt(s, demoted.chain, a) && SeamlessAt(run, a))))
  }

  /** How a reset changes it: accounts that keep a run leave it, unless the pass
      that follows opens a gap; without a gap before, keeping a run means losing
      no nonces. */
  ghost predicate ResetGaps(gaps: set<Address>, s: Pool, demoted: Pool, run: Promotion, gaps': set<Address>) {
    forall a {:trigger ResetAtGap(gaps, s, demoted, run, gaps', a)} :: ResetAtGap(gaps, s, demoted, run, gaps', a)
  }

  lemma ResetGapsExact(gaps: set<Address>, s: Pool, demoted: Pool, localTxs: set<TxHash>, run: Promotion, s': Pool, gaps': set<Address>)
    requires Filed(s) && Fit(s) && NextNonces(demoted.pending, demoted.managed) && GapsOf(s, gaps) && GapsOf(s', gaps')
    requires (forall a :: DemotedAt(s, demoted, a)) && Filed(run.promoted) && Promotes(demoted, localTxs, run, s')
    ensures ResetGaps(gaps, s, demoted, run, gaps')
  {
    forall a ensures ResetAtGap(gaps, s, demoted, run, gaps', a) {
      assert FiledAt(s, a) && FitAt(s, a) && DemotedAt(s, demoted, a) && FiledAt(run.promoted, a);
      DemotedGapless(s, demoted, a);
      PassGapAt(demoted, localTxs, run, s', a);
      if a !in gaps {
        ResetGaplessAt(s, demoted, localTxs, run, s', a);
      }
    }
  }

  /** How removing a transaction changes it: the account leaves it if what is
      pending below the removed nonce is a run. */
  ghost predicate RemovalGaps(gaps: set<Address>, s: Pool, hash: TxHash, gaps': set<Address>) {
    forall a :: a in gaps' <==> a in gaps && !RemovalMends(s, hash, a)
  }

  ghost predicate RemovalMends(s: Pool, hash: TxHash, a: Address) {
    var n: nat := hash.preimage.nonce;
    && hash in s.all && hash.preimage.from == Some(a) && n in s.PendingItems(a)
    && RunBelow(s.PendingItems(a), s.chain.Nonce(a), s.PendingNonce(a), {n})
  }

  lemma RemovalGapsExact(gaps: set<Address>, s: Pool, hash: TxHash, s': Pool, gaps': set<Address>)
    requires Executable(s) && Removes(s, hash, s') && GapsOf(s, gaps) && GapsOf(s', gaps')
    ensures RemovalGaps(gaps, s, hash, gaps')
  {
    forall a ensures a in gaps' <==> a in gaps && !RemovalMends(s, hash, a) {
      if hash in s.all && hash.preimage.from == Some(a) {
        assert ExecutableAt(s, a);
        RemovedGapless(s, s', a, hash.preimage.nonce);
      } else if hash in s.all {
        assert Untouched(s, s', a);
      }
    }
  }

  lemma RemovedGapless(s: Pool, s': Pool, a: Address, n: nat)
    requires s'.chain == s.chain && RemovedAt(s, s', a, n) && ExecutableAt(s, a)
    ensures GaplessAt(s', a) <==>
      if n in s.PendingItems(a) then RunBelow(s.PendingItems(a), s.chain.Nonce(a), s.PendingNonce(a), {n}) else GaplessAt(s, a)
    ensures GaplessAt(s, a) ==> GaplessAt(s', a)
  {
    var p := s.PendingItems(a);
    if n in p {
      assert Least({n}) == n;
      forall k ensures k in Below(p, n) <==> k in p && BelowAll(k, {n}) {
        assert n in {n};
      }
      CutRun(p, Below(p, n), s.chain.Nonce(a), s.PendingNonce(a), {n});
    }
  }

  /** How dropping queued transactions changes it. */
  ghost predicate DropGaps(gaps: set<Address>, s: Pool, drops: map<Address, nat>, gaps': set<Address>) {
    forall a :: a in gaps' <==> a in gaps && !DropMends(s, Drop(drops, a), a)
  }

  ghost predicate DropMends(s: Pool, d: nat, a: Address) {
    RunBelow(s.PendingItems(a), s.chain.Nonce(a), s.PendingNonce(a), Hits(s.PendingItems(a), s.QueueItems(a), d))
  }

  lemma DropGapsExact(gaps: set<Address>, s: Pool, drops: map<Address, nat>, s': Pool, gaps': set<Address>)
    requires Executable(s) && Dropped(s, drops, s') && GapsOf(s, gaps) && GapsOf(s', gaps')
    ensures DropGaps(gaps, s, drops, gaps')
  {
    forall a ensures a in gaps' <==> a in gaps && !DropMends(s, Drop(drops, a), a) {
      assert LimitedAt(s, s', a, Drop(drops, a)) && ExecutableAt(s, a);
      LimitedRun(s, s', a, Drop(drops, a));
      if GaplessAt(s, a) {
        StaysRun(s, a, Hits(s.PendingItems(a), s.QueueItems(a), Drop(drops, a)));
      }
    }
  }

  lemma StaysRun(s: Pool, a: Address, cuts: set<nat>)
    requires GaplessAt(s, a) && cuts <= s.PendingItems(a).Keys
    ensures RunBelow(s.PendingItems(a), s.chain.Nonce(a), s.PendingNonce(a), cuts)
  {
  }
}
