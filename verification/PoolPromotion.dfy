/**
 Promotion in the transaction pool (core/tx_pool.go): how queued transactions
 become pending, account by account.
 */
module PoolPromotion {
  import opened Basics
  import opened TxTypes
  import opened SortedTxs
  import opened TxListSpec
  import opened Equalize
  import opened PoolState

  const MAX_QUEUED_PER_ACCOUNT: nat := 64

  // ---- what a pass of promotion does to an account ----

  /** The queued transactions of `a` that are neither stale nor unpayable. */
  ghost function QueueRunnable(s: Pool, a: Address): Items {
    Payable(From(s.QueueItems(a), s.chain.Nonce(a)), s.chain.Balance(a))
  }

  /** Those of them that are ready, given the account's next nonce. */
  ghost function ReadyItems(s: Pool, a: Address): Items {
    Below(QueueRunnable(s, a), ReadyEnd(QueueRunnable(s, a).Keys, s.PendingNonce(a)))
  }

  ghost function UnreadyItems(s: Pool, a: Address): Items {
    From(QueueRunnable(s, a), ReadyEnd(QueueRunnable(s, a).Keys, s.PendingNonce(a)))
  }

  /** The next nonce once `ready` has joined the pending `p`. */
  ghost function NextAfter(p: Items, ready: Items, next: nat): nat {
    if ready.Keys - p.Keys == {} then next else Greatest(ready.Keys - p.Keys) + 1
  }

  /** `ready` has joined the pending transactions of `a`, which win over it; if
      any of it was taken, there is a new heartbeat. */
  ghost predicate JoinedAt(s: Pool, s': Pool, a: Address, ready: Items) {
    && s'.PendingItems(a) == ready + s.PendingItems(a)
    && s'.PendingNonce(a) == NextAfter(s.PendingItems(a), ready, s.PendingNonce(a))
    && if ready.Keys - s.PendingItems(a).Keys == {} then SameAt(s.beats, s'.beats, a) else a in s'.beats
  }

  /** Account `a` has been promoted: ready transactions joined its pending ones
      and the lowest of the others stay queued. */
  ghost predicate PromotedAt(s: Pool, s': Pool, a: Address) {
    && JoinedAt(s, s', a, ReadyItems(s, a))
    && s'.QueueItems(a) == Capped(UnreadyItems(s, a), MAX_QUEUED_PER_ACCOUNT)
  }

  /** Without a queue nothing is promoted. */
  lemma PromotedIdle(s: Pool, a: Address)
    requires a !in s.queue
    ensures PromotedAt(s, s, a)
  {
    assert QueueRunnable(s, a) == map[];
  }

  /** What is ready is a run that starts no later than the next nonce. */
  lemma ReadyRun(s: Pool, a: Address) returns (from: nat, to: nat)
    ensures ReadyItems(s, a).Keys != {} ==> Interval(ReadyItems(s, a), from, to) && s.chain.Nonce(a) <= from <= s.PendingNonce(a)
  {
    var q := QueueRunnable(s, a);
    to := ReadyEnd(q.Keys, s.PendingNonce(a));
    from := if q.Keys == {} then 0 else Least(q.Keys);
    if to == 0 {
      assert ReadyItems(s, a) == map[];
    }
  }

  /** What is ready of `a` reaches beyond everything pending, and what is pending
      covers everything below it. */
  ghost predicate MendsAt(s: Pool, a: Address) {
    var p, ready, c := s.PendingItems(a), ReadyItems(s, a).Keys, s.chain.Nonce(a);
    && ready != {} && Greatest(ready) !in p
    && (forall n :: n in p ==> c <= n < Greatest(ready))
    && (forall n :: c <= n < Least(ready) ==> n in p)
  }

  /** After promotion there is no gap exactly if there was none before or what
      was ready mends it. */
  lemma PromotedGapless(s: Pool, s': Pool, a: Address)
    requires s'.chain == s.chain && PromotedAt(s, s', a)
    ensures GaplessAt(s', a) <==> GaplessAt(s, a) || MendsAt(s, a)
  {
    var from, to := ReadyRun(s, a);
    if ReadyItems(s, a).Keys != {} {
      JoinedInterval(s.PendingItems(a), ReadyItems(s, a), s.chain.Nonce(a), s.PendingNonce(a), from, to);
    } else {
      assert ReadyItems(s, a) + s.PendingItems(a) == s.PendingItems(a);
    }
  }

  lemma JoinedInterval(p: Items, ready: Items, lo: nat, hi: nat, from: nat, to: nat)
    requires Interval(ready, from, to) && ready.Keys != {} && lo <= from <= hi
    ensures Interval(ready + p, lo, NextAfter(p, ready, hi)) <==>
      || Interval(p, lo, hi)
      || (Greatest(ready.Keys) !in p && (forall n :: n in p ==> lo <= n < Greatest(ready.Keys))
          && (forall n :: lo <= n < Least(ready.Keys) ==> n in p))
  {
    assert from in ready.Keys && to - 1 in ready.Keys;
    var taken := ready.Keys - p.Keys;
    if taken == {} {
      forall n | n in ready ensures n in p {
        assert n !in taken;
      }
      assert ready + p == p;
    } else {
      JoinedNew(p, ready, lo, hi, from, to);
    }
  }

  lemma JoinedNew(p: Items, ready: Items, lo: nat, hi: nat, from: nat, to: nat)
    requires Interval(ready, from, to) && from < to && lo <= from <= hi && ready.Keys - p.Keys != {}
    ensures Interval(p, lo, hi) ==> to - 1 !in p && hi < to
    ensures Interval(ready + p, lo, NextAfter(p, ready, hi)) <==>
      to - 1 !in p && (forall n :: n in p ==> lo <= n < to - 1) && (forall n :: lo <= n < from ==> n in p)
  {
    var taken := ready.Keys - p.Keys;
    var m := Greatest(taken);
    assert m in ready && m !in p;
    assert to - 1 in ready && to - 1 in ready + p;
    if to - 1 !in p {
      assert to - 1 in taken;
    }
    if Interval(ready + p, lo, m + 1) {
      forall n | n in p ensures lo <= n < to - 1 {
        assert n in ready + p;
      }
      forall n | lo <= n < from ensures n in p {
        assert n in ready + p;
      }
    }
  }

  /** A promoted account has nothing unexecutable queued. */
  lemma PromotedFit(s: Pool, s': Pool)
    requires s'.chain == s.chain && forall a :: PromotedAt(s, s', a)
    ensures Fit(s')
  {
    forall a ensures FitAt(s', a) {
      assert PromotedAt(s, s', a);
    }
  }

  /** The lowest queued run of `a` ends below its next nonce, so that only taken
      nonces are ready; the next nonce is queued behind it, not too far back. */
  ghost predicate StrandedAt(s: Pool, a: Address) {
    var q, pn := QueueRunnable(s, a), s.PendingNonce(a);
    && q.Keys != {} && RunEnd(q.Keys, Least(q.Keys)) < pn
    && pn in q && Rank(UnreadyItems(s, a).Keys, pn) < MAX_QUEUED_PER_ACCOUNT
  }

  /** Promotion leaves the next nonce of an account in its queue, though it could
      run, exactly if the account was stranded. */
  lemma LeftExecutable(s: Pool, s': Pool, a: Address)
    requires GaplessAt(s, a) && s'.chain == s.chain && PromotedAt(s, s', a)
    ensures s'.PendingNonce(a) in s'.QueueItems(a) <==> StrandedAt(s, a)
    ensures StrandedAt(s, a) ==> s'.PendingNonce(a) == s.PendingNonce(a)
  {
    var q, pn := QueueRunnable(s, a), s.PendingNonce(a);
    if q.Keys == {} || Least(q.Keys) > pn {
      assert ReadyItems(s, a) == map[];
    } else {
      RunReached(s, a, Least(q.Keys), RunEnd(q.Keys, Least(q.Keys)));
    }
  }

  /** A run that ends at `to` moves the next nonce there, or nowhere. */
  lemma RunReached(s: Pool, a: Address, from: nat, to: nat)
    requires GaplessAt(s, a) && Interval(ReadyItems(s, a), from, to) && s.chain.Nonce(a) <= from <= s.PendingNonce(a)
    ensures NextAfter(s.PendingItems(a), ReadyItems(s, a), s.PendingNonce(a)) == Max(to, s.PendingNonce(a))
  {
    var taken := ReadyItems(s, a).Keys - s.PendingItems(a).Keys;
    if s.PendingNonce(a) < to {
      assert to - 1 in ReadyItems(s, a) && to - 1 !in s.PendingItems(a);
      assert to - 1 in taken;
    } else {
      assert taken == {};
    }
  }

  // ---- promoting a run ----

  /** Unlisted transactions of `a` that its pending list could take. */
  ghost predicate Promotable(s: Pool, a: Address, items: Items) {
    && Keyed(items) && Runnable(items, s.chain.Nonce(a), s.chain.Balance(a))
    && forall n :: n in items ==> items[n].from == Some(a) && items[n].gasPrice == 0 && Unlisted(s, a, items[n])
  }

  lemma PromoteNext(s: Pool, a: Address, ready: Items, n: nat, now: nat)
    requires Sound(s) && Promotable(s, a, From(ready, n)) && n in ready
    ensures var s' := Promote(s, a, ready[n], now); Sound(s') && Promotable(s', a, From(ready, n + 1)) && Local(s, s', a)
  {
    var tx := ready[n];
    assert From(ready, n)[n] == tx;
    PromoteSound(s, a, tx, now);
    PromoteLeavesRest(s, a, ready, n, now);
  }

  lemma PromoteLeavesRest(s: Pool, a: Address, ready: Items, n: nat, now: nat)
    requires Promotable(s, a, From(ready, n)) && n in ready && FiledAt(s, a)
    ensures Promotable(Promote(s, a, ready[n], now), a, From(ready, n + 1))
  {
    var s' := Promote(s, a, ready[n], now);
    assert From(ready, n)[n] == ready[n];
    forall k | k in From(ready, n + 1) ensures Unlisted(s', a, ready[k]) {
      assert From(ready, n)[k] == ready[k];
    }
  }

  /** What Ready takes off the queue can be promoted, starting no later than
      the next nonce. */
  lemma ReadyPromotable(s: Pool, a: Address, start: nat)
    requires Filed(s) && a in s.queue
    requires Runnable(s.queue[a].items, s.chain.Nonce(a), s.chain.Balance(a))
    requires ReadyEnd(s.queue[a].items.Keys, start) > 0
    ensures var items := s.queue[a].items;
            && items.Keys != {} && Least(items.Keys) <= start
            && Promotable(s.(queue := s.queue[a := AfterReady(s.queue[a], start)]), a, Below(items, ReadyEnd(items.Keys, start)))
            && Interval(Below(items, ReadyEnd(items.Keys, start)), Least(items.Keys), ReadyEnd(items.Keys, start))
  {
    assert FiledAt(s, a);
  }

  /** The ready transactions below nonce `n` have been promoted. */
  ghost predicate Running(s0: Pool, s: Pool, a: Address, ready: Items, n: nat) {
    && Sound(s) && Local(s0, s, a) && s.queue == s0.queue
    && Promotable(s, a, From(ready, n)) && JoinedAt(s0, s, a, Below(ready, n))
    && (AllIn(ready, s0.all) ==> ForgetsTaken(s0, s.all, a, ready, n))
  }

  lemma RunningStep(s0: Pool, s: Pool, a: Address, ready: Items, n: nat, now: nat)
    requires Running(s0, s, a, ready, n) && n in ready && Keyed(ready)
    ensures Running(s0, Promote(s, a, ready[n], now), a, ready, n + 1)
  {
    PromoteNext(s, a, ready, n, now);
    assert FiledAt(s, a);
    assert n in From(ready, n);
    PromoteItems(s0, s, a, ready, n, now);
    if AllIn(ready, s0.all) {
      PromoteKnown(s0, s, a, ready, n, now);
    }
    LocalTrans(s0, s, Promote(s, a, ready[n], now), a);
  }

  lemma PromoteItems(s0: Pool, s: Pool, a: Address, ready: Items, n: nat, now: nat)
    requires FiledAt(s, a) && n in ready && ready[n].nonce == n && ready[n].gasPrice == 0
    requires JoinedAt(s0, s, a, Below(ready, n))
    ensures JoinedAt(s0, Promote(s, a, ready[n], now), a, Below(ready, n + 1))
  {
    var p := s0.PendingItems(a);
    EnqueueItems(if a in s.pending then s.pending[a] else EmptyList(true), ready[n]);
    BelowNext(ready, p, n);
    NextStep(p, ready, n, s0.PendingNonce(a));
  }

  lemma NextStep(p: Items, ready: Items, n: nat, next: nat)
    requires n in ready
    ensures var taken, taken' := Below(ready, n).Keys - p.Keys, Below(ready, n + 1).Keys - p.Keys;
      if n in p then taken' == taken else taken' == taken + {n} && NextAfter(p, Below(ready, n + 1), next) == n + 1
  {
    var taken' := Below(ready, n + 1).Keys - p.Keys;
    if n !in p {
      assert n in taken';
      assert Greatest(taken') == n;
    }
  }

  lemma BelowNext(ready: Items, p: Items, n: nat)
    requires n in ready
    ensures Below(ready, n + 1) + p ==
            if n in Below(ready, n) + p then Below(ready, n) + p else (Below(ready, n) + p)[n := ready[n]]
  {
  }

  /** `h` is one of `ready` below `n` and its nonce is already pending. */
  ghost predicate TakenTx(s: Pool, a: Address, ready: Items, n: nat, h: TxHash) {
    var k := h.preimage.nonce;
    k < n && k in ready && ready[k] == h.preimage && k in s.PendingItems(a)
  }

  ghost predicate TakenHash(s: Pool, all: map<TxHash, Tx>, a: Address, ready: Items, n: nat, h: TxHash) {
    h in all <==> h in s.all && !TakenTx(s, a, ready, n, h)
  }

  /** Exactly those are no longer known. */
  ghost predicate ForgetsTaken(s: Pool, all: map<TxHash, Tx>, a: Address, ready: Items, n: nat) {
    forall h {:trigger TakenHash(s, all, a, ready, n, h)} :: TakenHash(s, all, a, ready, n, h)
  }

  lemma NothingTaken(s: Pool, a: Address, ready: Items, from: nat)
    requires forall n :: n in ready ==> from <= n
    ensures ForgetsTaken(s, s.all, a, ready, from)
  {
  }

  /** Promoting forgets a transaction exactly if its nonce is taken. */
  lemma PromoteKnown(s0: Pool, s: Pool, a: Address, ready: Items, n: nat, now: nat)
    requires Keyed(ready) && n in ready && ready[n].Hash() in s0.all
    requires ready[n].gasPrice == 0 && (n in s.PendingItems(a) ==> s.PendingItems(a)[n].gasPrice == 0)
    requires n in s.PendingItems(a) <==> n in s0.PendingItems(a)
    requires ForgetsTaken(s0, s.all, a, ready, n)
    ensures ForgetsTaken(s0, Promote(s, a, ready[n], now).all, a, ready, n + 1)
  {
    var all', n' := Promote(s, a, ready[n], now).all, n + 1;
    assert TakenHash(s0, s.all, a, ready, n, ready[n].Hash());
    forall h ensures TakenHash(s0, all', a, ready, n', h) {
      assert TakenHash(s0, s.all, a, ready, n, h);
      PromotedAll(s, a, ready[n], now, h);
    }
  }

  lemma PromotedAll(s: Pool, a: Address, tx: Tx, now: nat, h: TxHash)
    requires tx.gasPrice == 0 && (tx.nonce in s.PendingItems(a) ==> s.PendingItems(a)[tx.nonce].gasPrice == 0)
    ensures h in Promote(s, a, tx, now).all <==>
      if tx.nonce in s.PendingItems(a) then h in s.all && h != tx.Hash() else h in s.all || h == tx.Hash()
  {
  }

  /** All of `ready` has been promoted. */
  ghost predicate RunDone(s0: Pool, s: Pool, a: Address, ready: Items, to: nat) {
    && Sound(s) && Local(s0, s, a) && s.queue == s0.queue && JoinedAt(s0, s, a, ready)
    && (AllIn(ready, s0.all) ==> ForgetsTaken(s0, s.all, a, ready, to))
  }

  lemma RunStart(s: Pool, a: Address, ready: Items, from: nat, to: nat)
    requires Sound(s) && Promotable(s, a, ready) && Interval(ready, from, to)
    ensures Running(s, s, a, ready, from)
  {
    WholeRun(ready, from, to, s.PendingItems(a));
    NothingTaken(s, a, ready, from);
  }

  lemma RunEnds(s0: Pool, s: Pool, a: Address, ready: Items, from: nat, to: nat)
    requires Interval(ready, from, to) && Running(s0, s, a, ready, to)
    ensures RunDone(s0, s, a, ready, to)
  {
    WholeRun(ready, from, to, s0.PendingItems(a));
  }

  lemma WholeRun(ready: Items, from: nat, to: nat, p: Items)
    requires Interval(ready, from, to)
    ensures From(ready, from) == ready && Below(ready, to) == ready
    ensures Below(ready, from) == map[] && Below(ready, from) + p == p
  {
    assert Below(ready, from) == map[];
  }

  lemma NothingReady(s: Pool, a: Address, items: Items)
    ensures From(items, 0) == items && JoinedAt(s, s, a, Below(items, 0))
  {
    assert Below(items, 0) == map[];
  }

  // ---- steps on the lists of one account ----

  /** `h` stays known, unless it was queued and is no longer listed. */
  ghost predicate UnlistedHash(s: Pool, s': Pool, a: Address, h: TxHash) {
    h in s'.all <==> h in s.all && !(QueuedTx(s, a, h) && !ListedTx(s', a, h))
  }

  /** Of the transactions of `a`, exactly those that were queued and are no
      longer listed are no longer known. */
  ghost predicate ForgetsUnlisted(s: Pool, s': Pool, a: Address) {
    forall h {:trigger UnlistedHash(s, s', a, h)} :: UnlistedHash(s, s', a, h)
  }

  /** Queued transactions only move to pending or away, pending ones stay. */
  ghost predicate Onward(s: Pool, s': Pool, a: Address) {
    && Within(s'.QueueItems(a), s.QueueItems(a)) && Within(s.PendingItems(a), s'.PendingItems(a))
    && forall n :: n in s'.PendingItems(a) ==>
         || (n in s.PendingItems(a) && s.PendingItems(a)[n] == s'.PendingItems(a)[n])
         || (n in s.QueueItems(a) && s.QueueItems(a)[n] == s'.PendingItems(a)[n])
  }

  lemma ForgetsTrans(s: Pool, m: Pool, s': Pool, a: Address)
    requires Onward(s, m, a) && Onward(m, s', a) && ForgetsUnlisted(s, m, a) && ForgetsUnlisted(m, s', a)
    ensures Onward(s, s', a) && ForgetsUnlisted(s, s', a)
  {
    forall h ensures UnlistedHash(s, s', a, h) {
      assert UnlistedHash(s, m, a, h) && UnlistedHash(m, s', a, h);
    }
  }

  /** A step of promotion on account `a`. */
  ghost predicate Advances(s: Pool, s': Pool, a: Address) {
    Sound(s') && Local(s, s', a) && Onward(s, s', a) && ForgetsUnlisted(s, s', a)
  }

  lemma AdvancesTrans(s: Pool, m: Pool, s': Pool, a: Address)
    requires Advances(s, m, a) && Advances(m, s', a)
    ensures Advances(s, s', a)
  {
    LocalTrans(s, m, s', a);
    ForgetsTrans(s, m, s', a);
  }

  lemma RestOf(items: Items, part: Items)
    requires Within(part, items)
    ensures Within(items - part.Keys, items) && part == items - (items - part.Keys).Keys
  {
  }

  lemma SameLists(s: Pool, s': Pool, a: Address)
    requires s'.QueueItems(a) == s.QueueItems(a) && s'.PendingItems(a) == s.PendingItems(a) && s'.all == s.all
    ensures Onward(s, s', a) && ForgetsUnlisted(s, s', a)
  {
  }

  lemma NoAdvance(s: Pool, a: Address)
    requires Sound(s)
    ensures Advances(s, s, a)
  {
    SameLists(s, s, a);
  }

  /** `m` is `s` without the ready part of the queue, `s'` has it promoted. */
  lemma RunAdvances(s: Pool, m: Pool, s': Pool, a: Address, items: Items, end: nat)
    requires FiledAt(s, a) && a in s.queue && items == s.queue[a].items && Local(s, m, a)
    requires m.pending == s.pending && m.all == s.all && m.QueueItems(a) == From(items, end)
    requires RunDone(m, s', a, Below(items, end), end)
    ensures Advances(s, s', a)
  {
    LocalTrans(s, m, s', a);
    assert s.PendingItems(a) == m.PendingItems(a);
    SplitOnward(s, s', a, items, end);
    forall h ensures UnlistedHash(s, s', a, h) {
      assert TakenHash(m, s'.all, a, Below(items, end), end, h);
      SplitHash(s, m, s', a, items, end, h);
    }
  }

  lemma SplitOnward(s: Pool, s': Pool, a: Address, items: Items, end: nat)
    requires Apart(s.PendingItems(a), items) && s.QueueItems(a) == items && s'.QueueItems(a) == From(items, end)
    requires s'.PendingItems(a) == Below(items, end) + s.PendingItems(a)
    ensures Onward(s, s', a)
  {
  }

  lemma SplitHash(s: Pool, m: Pool, s': Pool, a: Address, items: Items, end: nat, h: TxHash)
    requires Apart(s.PendingItems(a), items) && s.QueueItems(a) == items && s'.QueueItems(a) == From(items, end)
    requires s'.PendingItems(a) == Below(items, end) + s.PendingItems(a)
    requires m.all == s.all && m.PendingItems(a) == s.PendingItems(a)
    requires TakenHash(m, s'.all, a, Below(items, end), end, h)
    ensures UnlistedHash(s, s', a, h)
  {
  }

  /** Taking entries off a queue list and forgetting them. */
  lemma TakenOff(s: Pool, s': Pool, a: Address, gone: Items)
    requires FiledAt(s, a) && s'.PendingItems(a) == s.PendingItems(a) && Within(gone, s.QueueItems(a))
    requires s'.QueueItems(a) == s.QueueItems(a) - gone.Keys && s'.all == s.all - Hashes(gone)
    ensures Onward(s, s', a) && ForgetsUnlisted(s, s', a)
  {
    forall h ensures UnlistedHash(s, s', a, h) {
      HashIn(gone, h);
    }
  }

  lemma FilterUnstrict(l: List, threshold: int)
    requires l.Valid() && !l.strict
    ensures var r := Filter(l, threshold);
            && r.list.Valid() && !r.list.strict
            && r.list.items == Payable(l.items, threshold) && r.removed == Costly(l.items, threshold)
  {
    FilterIsFullScan(l, threshold);
    FilterPartitions(l, threshold);
  }

  /** `s` without the unrunnable part of the queue is `m`, with the ready part
      promoted `m'`, and with the rest capped `s'`. */
  lemma PromotedSteps(s: Pool, m: Pool, m': Pool, s': Pool, a: Address)
    requires m.pending == s.pending && m.managed == s.managed && m.beats == s.beats && m.chain == s.chain
    requires m.QueueItems(a) == QueueRunnable(s, a)
    requires var end := ReadyEnd(m.QueueItems(a).Keys, m.PendingNonce(a));
      JoinedAt(m, m', a, Below(m.QueueItems(a), end)) && m'.QueueItems(a) == From(m.QueueItems(a), end)
    requires s'.pending == m'.pending && s'.managed == m'.managed && s'.beats == m'.beats && s'.chain == m'.chain == m.chain
    requires s'.QueueItems(a) == Capped(m'.QueueItems(a), MAX_QUEUED_PER_ACCOUNT)
    ensures PromotedAt(s, s', a)
  {
    JoinedSame(s, m, m', s', a, Below(m.QueueItems(a), ReadyEnd(m.QueueItems(a).Keys, m.PendingNonce(a))));
    assert m.PendingNonce(a) == s.PendingNonce(a);
  }

  lemma JoinedSame(s: Pool, m: Pool, m': Pool, s': Pool, a: Address, ready: Items)
    requires m.pending == s.pending && m.managed == s.managed && m.beats == s.beats && m.chain == s.chain
    requires s'.pending == m'.pending && s'.managed == m'.managed && s'.beats == m'.beats && s'.chain == m'.chain
    requires JoinedAt(m, m', a, ready)
    ensures JoinedAt(s, s', a, ready)
  {
    assert m.PendingItems(a) == s.PendingItems(a) && m.PendingNonce(a) == s.PendingNonce(a);
    assert s'.PendingItems(a) == m'.PendingItems(a) && s'.PendingNonce(a) == m'.PendingNonce(a);
  }

  // ---- the pass ----

  /** Promotion has dealt with all accounts but those in `todo`. */
  ghost predicate Promoting(before: Pool, todo: set<Address>, s: Pool) {
    && s.chain == before.chain
    && (forall a :: a in todo ==> Untouched(before, s, a))
    && (forall a :: a !in todo ==> PromotedAt(before, s, a))
  }

  /** Of the accounts not in `todo`, exactly the queued transactions that are
      no longer listed are no longer known. */
  ghost predicate PromotedHash(before: Pool, todo: set<Address>, s: Pool, h: TxHash) {
    var a := h.preimage.from;
    h in s.all <==>
      (h in before.all && !(a.Some? && a.value !in todo && QueuedTx(before, a.value, h) && !ListedTx(s, a.value, h)))
  }

  ghost predicate ForgetsPromoted(before: Pool, todo: set<Address>, s: Pool) {
    forall h {:trigger PromotedHash(before, todo, s, h)} :: PromotedHash(before, todo, s, h)
  }

  lemma ForgetsNext(before: Pool, todo: set<Address>, s: Pool, s': Pool, a: Address)
    requires Promoting(before, todo, s) && ForgetsPromoted(before, todo, s) && a in todo
    requires FiledAt(s, a) && Local(s, s', a) && ForgetsUnlisted(s, s', a)
    ensures ForgetsPromoted(before, todo - {a}, s')
  {
    assert Untouched(before, s, a);
    forall h ensures PromotedHash(before, todo - {a}, s', h) {
      assert PromotedHash(before, todo, s, h) && UnlistedHash(s, s', a, h);
      if h.preimage.from.Some? && h.preimage.from.value != a {
        assert Untouched(s, s', h.preimage.from.value);
      }
      PromotedHashNext(before, todo, s, s', a, h);
    }
  }

  lemma PromotedHashNext(before: Pool, todo: set<Address>, s: Pool, s': Pool, a: Address, h: TxHash)
    requires PromotedHash(before, todo, s, h) && UnlistedHash(s, s', a, h) && a in todo
    requires (QueuedTx(s, a, h) ==> h.preimage.from == Some(a)) && s.QueueItems(a) == before.QueueItems(a)
    requires h.preimage.from.Some? && h.preimage.from.value != a ==> Untouched(s, s', h.preimage.from.value)
    ensures PromotedHash(before, todo - {a}, s', h)
  {
    assert QueuedTx(s, a, h) <==> QueuedTx(before, a, h);
  }

  lemma PromotingStart(s: Pool)
    ensures Promoting(s, s.queue.Keys, s) && ForgetsPromoted(s, s.queue.Keys, s)
  {
    forall a | a !in s.queue ensures PromotedAt(s, s, a) {
      PromotedIdle(s, a);
    }
  }

  lemma PromotingNext(before: Pool, todo: set<Address>, s: Pool, s': Pool, a: Address)
    requires Promoting(before, todo, s) && a in todo && Local(s, s', a) && PromotedAt(s, s', a)
    ensures Promoting(before, todo - {a}, s')
  {
    forall b | b !in todo - {a} ensures PromotedAt(before, s', b) {
      if b != a {
        PromotedStays(before, s, s', b);
      } else {
        PromotedSince(before, s, s', a);
      }
    }
    forall b | b in todo - {a} ensures Untouched(before, s', b) {
      assert Untouched(s, s', b) && Untouched(before, s, b);
    }
  }

  lemma PromotedStays(before: Pool, s: Pool, s': Pool, b: Address)
    requires PromotedAt(before, s, b) && Untouched(s, s', b) && s'.chain == s.chain
    ensures PromotedAt(before, s', b)
  {
    assert s'.PendingItems(b) == s.PendingItems(b) && s'.QueueItems(b) == s.QueueItems(b);
    assert s'.PendingNonce(b) == s.PendingNonce(b);
  }

  lemma PromotedSince(before: Pool, s: Pool, s': Pool, a: Address)
    requires Untouched(before, s, a) && s.chain == before.chain && PromotedAt(s, s', a)
    ensures PromotedAt(before, s', a)
  {
    assert before.PendingItems(a) == s.PendingItems(a) && before.QueueItems(a) == s.QueueItems(a);
    assert before.PendingNonce(a) == s.PendingNonce(a);
  }
}
