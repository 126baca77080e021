/**
 Removal in the transaction pool (core/tx_pool.go): what removing one nonce, or
 a run of queued transactions one by one, leaves of an account.
 */
module PoolRemoval {
  import opened Basics
  import opened TxTypes
  import opened SortedTxs
  import opened TxListSpec
  import opened PoolState

  // ---- one nonce ----

  /** What stays of a pending list when nonce `n` is removed, and what goes back
      to the queue: everything above it, if something below it stays. */
  ghost function LeftPending(p: Items, n: nat): Items {
    if n in p then Below(p, n) else p
  }

  ghost function Requeued(p: Items, n: nat): Items {
    if n in p && LeftPending(p, n).Keys != {} then From(p, n + 1) else map[]
  }

  /** The next nonce of `a` goes down to a removed pending nonce. */
  ghost function LoweredNonce(s: Pool, a: Address, n: nat): nat {
    if n in s.PendingItems(a) && s.PendingNonce(a) > n then n else s.PendingNonce(a)
  }

  /** Nonce `n` of account `a` has been removed from the pending list. */
  ghost predicate CutAtNonce(s: Pool, s': Pool, a: Address, n: nat) {
    && s'.PendingItems(a) == LeftPending(s.PendingItems(a), n)
    && s'.QueueItems(a) == Requeued(s.PendingItems(a), n) + s.QueueItems(a)
    && s'.PendingNonce(a) == LoweredNonce(s, a, n) && BeatAt(s, s', a)
  }

  /** Nonce `n` of account `a` has been removed from both lists. */
  ghost predicate RemovedAt(s: Pool, s': Pool, a: Address, n: nat) {
    && s'.PendingItems(a) == LeftPending(s.PendingItems(a), n)
    && s'.QueueItems(a) == (Requeued(s.PendingItems(a), n) + s.QueueItems(a)) - {n}
    && s'.PendingNonce(a) == LoweredNonce(s, a, n) && BeatAt(s, s', a)
  }

  lemma NothingRequeued(s: Pool, a: Address, n: nat)
    requires n !in s.PendingItems(a)
    ensures CutAtNonce(s, s, a, n)
  {
    assert Requeued(s.PendingItems(a), n) + s.QueueItems(a) == s.QueueItems(a);
  }

  /** In strict mode the transactions below a removed nonce stay. */
  lemma RemoveKeepsBelow(l: List, n: nat)
    requires l.strict && n in l.items
    ensures Remove(l, n).list.items == Below(l.items, n)
    ensures Remove(l, n).invalids == From(l.items, n + 1)
  {
  }

  /** What stays below a removed pending nonce is executable. */
  lemma AfterRemove(s: Pool, s': Pool, a: Address, n: nat)
    requires Executable(s) && n in s.PendingItems(a) && Local(s, s', a)
    requires s'.PendingItems(a) == Below(s.PendingItems(a), n)
    requires a in s'.pending ==> s'.pending[a].items.Keys != {}
    ensures Executable(s')
  {
    assert ExecutableAt(s, a);
    LocalExecutable(s, s', a);
  }

  /** What is queued again was executable. */
  lemma RemovedFit(s: Pool, s': Pool, a: Address, n: nat)
    requires Executable(s) && Local(s, s', a) && RemovedAt(s, s', a, n)
    ensures Fit(s) ==> Fit(s')
  {
    if Fit(s) {
      assert ExecutableAt(s, a) && FitAt(s, a);
      LocalFit(s, s', a);
    }
  }

  /** `s'` is `s` without the transaction of hash `hash`. */
  ghost predicate Removes(s: Pool, hash: TxHash, s': Pool) {
    && s'.chain == s.chain
    && (forall h :: h in s'.all <==> h in s.all && h != hash)
    && if hash in s.all
       then hash.preimage.from.Some? && Local(s, s', hash.preimage.from.value)
            && RemovedAt(s, s', hash.preimage.from.value, hash.preimage.nonce)
       else s' == s
  }

  // ---- a run of queued transactions, in the order of `txs` ----

  /** Distinct entries of `items`. */
  ghost predicate Listed(items: Items, txs: seq<Tx>) {
    && (forall i :: 0 <= i < |txs| ==> txs[i].nonce in items && items[txs[i].nonce] == txs[i])
    && forall i, j :: 0 <= i < j < |txs| ==> txs[i].nonce != txs[j].nonce
  }

  ghost predicate SomeBelow(p: Items, n: nat) {
    exists j :: j in p && j < n
  }

  /** Pending nonces stay below every removed one. */
  ghost predicate StaysPending(p: Items, txs: seq<Tx>, i: nat, n: nat)
    requires i <= |txs|
  {
    n in p && forall t :: 0 <= t < i && txs[t].nonce in p ==> n < txs[t].nonce
  }

  ghost predicate StaysQueued(q: Items, txs: seq<Tx>, i: nat, n: nat)
    requires i <= |txs|
  {
    n in q && forall t :: 0 <= t < i ==> txs[t].nonce != n
  }

  /** `txs[t]` is the first to be removed whose nonce is pending below `n`. */
  ghost predicate FirstBelow(p: Items, txs: seq<Tx>, t: nat, n: nat)
    requires t < |txs|
  {
    && txs[t].nonce in p && txs[t].nonce < n
    && forall u :: 0 <= u < t && txs[u].nonce in p ==> n < txs[u].nonce
  }

  /** A pending nonce is queued again when the first removed one below it has
      something pending below it. */
  ghost predicate BackAfter(p: Items, q: Items, txs: seq<Tx>, i: nat, n: nat)
    requires i <= |txs|
  {
    && n in p && n !in q
    && exists t :: 0 <= t < i && FirstBelow(p, txs, t, n) && SomeBelow(p, txs[t].nonce)
  }

  ghost predicate QueuedAfter(p: Items, q: Items, txs: seq<Tx>, i: nat, n: nat)
    requires i <= |txs|
  {
    StaysQueued(q, txs, i, n) || BackAfter(p, q, txs, i, n)
  }

  /** Where an entry of the queue comes from. */
  ghost predicate EntryOf(p: Items, q: Items, q': Items, n: nat)
    requires n in q'
  {
    if n in q then q'[n] == q[n] else n in p && q'[n] == p[n]
  }

  /** Lists `p` and `q` have become `p'` and `q'`. */
  ghost predicate Emptied(p: Items, q: Items, txs: seq<Tx>, i: nat, p': Items, q': Items)
    requires i <= |txs|
  {
    && Within(p', p) && (forall n {:trigger StaysPending(p, txs, i, n)} :: n in p' <==> StaysPending(p, txs, i, n))
    && (forall n {:trigger QueuedAfter(p, q, txs, i, n)} :: n in q' <==> QueuedAfter(p, q, txs, i, n))
    && (forall n {:trigger EntryOf(p, q, q', n)} :: n in q' ==> EntryOf(p, q, q', n))
  }

  lemma EmptiedStart(p: Items, q: Items, txs: seq<Tx>)
    ensures Emptied(p, q, txs, 0, p, q)
  {
  }

  lemma EmptiedStep(p: Items, q: Items, txs: seq<Tx>, i: nat, p': Items, q': Items, p'': Items, q'': Items)
    requires i < |txs| && Listed(q, txs) && Emptied(p, q, txs, i, p', q')
    requires p'' == LeftPending(p', txs[i].nonce)
    requires q'' == (Requeued(p', txs[i].nonce) + q') - {txs[i].nonce as nat}
    ensures Emptied(p, q, txs, i + 1, p'', q'')
  {
    var m: nat := txs[i].nonce;
    assert m in p' <==> StaysPending(p, txs, i, m);
    forall n ensures n in p'' <==> StaysPending(p, txs, i + 1, n) {
      assert n in p' <==> StaysPending(p, txs, i, n);
      PendingStep(p, txs, i, n);
    }
    forall n ensures n in q'' <==> QueuedAfter(p, q, txs, i + 1, n) {
      assert n in q' <==> QueuedAfter(p, q, txs, i, n);
      assert n in p' <==> StaysPending(p, txs, i, n);
      BelowStays(p, txs, i, m, p');
      QueuedStep(p, q, txs, i, n);
    }
    forall n | n in q'' ensures EntryOf(p, q, q'', n) {
      if n in q' {
        assert EntryOf(p, q, q', n);
      } else {
        assert n in p' <==> StaysPending(p, txs, i, n);
        assert !QueuedAfter(p, q, txs, i, n);
        assert n !in q;
      }
    }
  }

  lemma PendingStep(p: Items, txs: seq<Tx>, i: nat, n: nat)
    requires i < |txs| && forall j :: 0 <= j < i ==> txs[j].nonce != txs[i].nonce
    ensures StaysPending(p, txs, i + 1, n) <==>
      StaysPending(p, txs, i, n) && (StaysPending(p, txs, i, txs[i].nonce) ==> n < txs[i].nonce)
  {
  }

  lemma BelowStays(p: Items, txs: seq<Tx>, i: nat, m: nat, p': Items)
    requires i < |txs| && m == txs[i].nonce
    requires Within(p', p) && forall n {:trigger StaysPending(p, txs, i, n)} :: n in p' <==> StaysPending(p, txs, i, n)
    ensures m in p' ==> (LeftPending(p', m).Keys != {} <==> SomeBelow(p, m))
  {
    if m in p' {
      assert StaysPending(p, txs, i, m);
      if SomeBelow(p, m) {
        var j :| j in p && j < m;
        assert StaysPending(p, txs, i, j);
        assert j in LeftPending(p', m).Keys;
      }
      if LeftPending(p', m).Keys != {} {
        var k :| k in LeftPending(p', m).Keys;
        assert k in p && k < m;
      }
    }
  }

  lemma QueuedStep(p: Items, q: Items, txs: seq<Tx>, i: nat, n: nat)
    requires i < |txs| && Listed(q, txs)
    ensures var m: nat := txs[i].nonce;
      QueuedAfter(p, q, txs, i + 1, n) <==>
        && n != m
        && (QueuedAfter(p, q, txs, i, n)
            || (StaysPending(p, txs, i, m) && StaysPending(p, txs, i, n) && n > m && SomeBelow(p, m)))
  {
  }

  /** The next nonce is the least of what it was and the removed pending nonces. */
  ghost predicate NonceAfter(p: Items, txs: seq<Tx>, i: nat, next: nat, next': nat)
    requires i <= |txs|
  {
    && next' <= next && (forall t :: 0 <= t < i && txs[t].nonce in p ==> next' <= txs[t].nonce)
    && (next' == next || exists t :: 0 <= t < i && txs[t].nonce in p && next' == txs[t].nonce)
  }

  lemma NonceStep(s: Pool, a: Address, p: Items, txs: seq<Tx>, i: nat, next: nat)
    requires i < |txs| && NonceAfter(p, txs, i, next, s.PendingNonce(a))
    requires Within(s.PendingItems(a), p)
    requires forall n {:trigger StaysPending(p, txs, i, n)} :: n in s.PendingItems(a) <==> StaysPending(p, txs, i, n)
    ensures NonceAfter(p, txs, i + 1, next, LoweredNonce(s, a, txs[i].nonce))
  {
    var m: nat := txs[i].nonce;
    assert m in s.PendingItems(a) <==> StaysPending(p, txs, i, m);
  }

  ghost predicate GoneHash(txs: seq<Tx>, i: nat, h: TxHash)
    requires i <= |txs|
  {
    exists t :: 0 <= t < i && txs[t].Hash() == h
  }

  /** Exactly the removed transactions are no longer known. */
  ghost predicate ForgetsGone(all: map<TxHash, Tx>, txs: seq<Tx>, i: nat, all': map<TxHash, Tx>)
    requires i <= |txs|
  {
    forall h {:trigger GoneHash(txs, i, h)} :: h in all' <==> h in all && !GoneHash(txs, i, h)
  }

  lemma GoneStep(all: map<TxHash, Tx>, txs: seq<Tx>, i: nat, all': map<TxHash, Tx>, all'': map<TxHash, Tx>)
    requires i < |txs| && ForgetsGone(all, txs, i, all')
    requires forall h :: h in all'' <==> h in all' && h != txs[i].Hash()
    ensures ForgetsGone(all, txs, i + 1, all'')
  {
    forall h ensures h in all'' <==> h in all && !GoneHash(txs, i + 1, h) {
      assert GoneHash(txs, i + 1, h) <==> GoneHash(txs, i, h) || h == txs[i].Hash();
    }
  }

  /** The first `i` of `txs` have been removed from account `a`. */
  ghost predicate Emptying(s0: Pool, s: Pool, a: Address, txs: seq<Tx>, i: nat)
    requires i <= |txs|
  {
    && Sound(s) && Local(s0, s, a) && (Fit(s0) ==> Fit(s))
    && Emptied(s0.PendingItems(a), s0.QueueItems(a), txs, i, s.PendingItems(a), s.QueueItems(a))
    && NonceAfter(s0.PendingItems(a), txs, i, s0.PendingNonce(a), s.PendingNonce(a))
    && BeatAt(s0, s, a) && ForgetsGone(s0.all, txs, i, s.all)
  }

  lemma EmptyingStart(s: Pool, a: Address, txs: seq<Tx>)
    requires Sound(s)
    ensures Emptying(s, s, a, txs, 0)
  {
    EmptiedStart(s.PendingItems(a), s.QueueItems(a), txs);
  }

  lemma EmptyingStep(s0: Pool, s: Pool, s': Pool, a: Address, txs: seq<Tx>, i: nat)
    requires Sound(s0) && i < |txs| && Emptying(s0, s, a, txs, i) && Listed(s0.QueueItems(a), txs)
    requires Sound(s') && Removes(s, txs[i].Hash(), s')
    ensures Emptying(s0, s', a, txs, i + 1)
  {
    StillKnown(s0, s, a, txs, i);
    var p, q := s0.PendingItems(a), s0.QueueItems(a);
    EmptiedStep(p, q, txs, i, s.PendingItems(a), s.QueueItems(a), s'.PendingItems(a), s'.QueueItems(a));
    NonceStep(s, a, p, txs, i, s0.PendingNonce(a));
    GoneStep(s0.all, txs, i, s.all, s'.all);
    LocalTrans(s0, s, s', a);
    RemovedFit(s, s', a, txs[i].nonce);
    BeatStep(s0, s, s', a, txs[i].nonce);
  }

  /** A queued transaction stays known until it is removed. */
  lemma StillKnown(s0: Pool, s: Pool, a: Address, txs: seq<Tx>, i: nat)
    requires Filed(s0) && i < |txs| && ForgetsGone(s0.all, txs, i, s.all) && Listed(s0.QueueItems(a), txs)
    ensures txs[i].Hash() in s.all && txs[i].from == Some(a)
  {
    assert FiledAt(s0, a);
    assert s0.QueueItems(a)[txs[i].nonce] == txs[i];
    assert !GoneHash(txs, i, txs[i].Hash());
  }

  lemma BeatStep(s0: Pool, s: Pool, s': Pool, a: Address, n: nat)
    requires Executable(s) && Executable(s') && Within(s.PendingItems(a), s0.PendingItems(a))
    requires BeatAt(s0, s, a) && RemovedAt(s, s', a, n)
    ensures BeatAt(s0, s', a)
  {
    assert ExecutableAt(s, a) && ExecutableAt(s', a);
    assert a !in s.pending ==> s'.PendingItems(a) == map[];
  }

  // ---- the highest nonces of a queue list ----

  /** What is left of a list without its `d` highest nonces. */
  ghost function Rest(q: Items, d: nat): Items {
    Capped(q, if d <= |q| then |q| - d else 0)
  }

  /** The pending nonces among the `d` highest queued ones. */
  ghost function Hits(p: Items, q: Items, d: nat): set<nat> {
    set n | n in q && n !in Rest(q, d) && n in p
  }

  /** What stays pending: everything below the hits. */
  ghost function LeftOf(p: Items, q: Items, d: nat): Items {
    map n | n in p && (forall h :: h in Hits(p, q, d) ==> n < h) :: p[n]
  }

  /** `n` goes back to the queue: it is pending above a hit, and something is
      pending below that hit, even below all hits if the whole list goes. */
  ghost predicate GoesBack(p: Items, q: Items, d: nat, n: nat) {
    && n in p && n !in q
    && exists h :: h in Hits(p, q, d) && h < n && SomeBelow(p, h) && (d >= |q| ==> AllAbove(p, Hits(p, q, d)))
  }

  ghost predicate AllAbove(p: Items, hits: set<nat>) {
    exists j :: j in p && forall h :: h in hits ==> j < h
  }

  ghost function Back(p: Items, q: Items, d: nat): Items {
    map n | n in p && GoesBack(p, q, d, n) :: p[n]
  }

  /** Account `a` has lost its `d` highest queued nonces. */
  ghost predicate LimitedAt(s: Pool, s': Pool, a: Address, d: nat) {
    var p, q := s.PendingItems(a), s.QueueItems(a);
    && s'.PendingItems(a) == LeftOf(p, q, d) && s'.QueueItems(a) == Rest(q, d) + Back(p, q, d)
    && s'.PendingNonce(a) == (if Hits(p, q, d) == {} then s.PendingNonce(a) else Min(s.PendingNonce(a), Least(Hits(p, q, d))))
    && BeatAt(s, s', a)
  }

  /** The order in which `drop` entries of a list are removed: all of them from
      the lowest, or only the highest ones from the top. */
  function DropOrder(q: Items, drop: nat): (txs: seq<Tx>)
    requires Keyed(q)
    ensures |txs| == if |q| <= drop then |q| else drop
  {
    if |q| <= drop then Flat(q) else Reversed(Flat(q)[|q| - drop..])
  }

  ghost predicate Rising(txs: seq<Tx>) {
    forall i, j :: 0 <= i < j < |txs| ==> txs[i].nonce < txs[j].nonce
  }

  ghost predicate Falling(txs: seq<Tx>) {
    forall i, j :: 0 <= i < j < |txs| ==> txs[i].nonce > txs[j].nonce
  }

  /** `txs` are the entries of `q` that are not in its rest. */
  ghost predicate TopOf(q: Items, txs: seq<Tx>) {
    && Listed(q, txs)
    && (forall n {:trigger n in Rest(q, |txs|)} :: n in q ==> (n in Rest(q, |txs|) <==> StaysQueued(q, txs, |txs|, n)))
    && (if |txs| == |q| then Rising(txs) else Falling(txs))
  }

  lemma DropOrderTop(q: Items, drop: nat)
    requires Keyed(q)
    ensures TopOf(q, DropOrder(q, drop))
  {
    var flat, txs := Flat(q), DropOrder(q, drop);
    var k := |q| - |txs|;
    FlatIsListing(q);
    OrderFacts(flat, txs, q, drop);
    CappedListing(flat, q, k, k);
    forall n | n in q ensures n in Rest(q, |txs|) <==> StaysQueued(q, txs, |txs|, n) {
      var j := PositionOf(flat, q, n);
      TopPosition(q, drop, flat, txs, j);
      RestPosition(flat, q, k, j);
    }
  }

  lemma OrderFacts(flat: seq<Tx>, txs: seq<Tx>, q: Items, drop: nat)
    requires FlatOf(flat, q) && txs == if |q| <= drop then flat else Reversed(flat[|q| - drop..])
    ensures Listed(q, txs) && if |txs| == |q| then Rising(txs) else Falling(txs)
  {
  }

  lemma RestPosition(flat: seq<Tx>, q: Items, k: nat, j: nat)
    requires FlatOf(flat, q) && k <= |flat| && j < |flat| && FlatOf(flat[..k], Capped(q, k))
    ensures flat[j].nonce in Capped(q, k) <==> j < k
  {
    if j < k {
      assert flat[..k][j] == flat[j];
    } else if flat[j].nonce in Capped(q, k) {
      var i := PositionOf(flat[..k], Capped(q, k), flat[j].nonce);
    }
  }

  lemma TopPosition(q: Items, drop: nat, flat: seq<Tx>, txs: seq<Tx>, j: nat)
    requires FlatOf(flat, q) && j < |flat| && txs == if |q| <= drop then flat else Reversed(flat[|q| - drop..])
    ensures StaysQueued(q, txs, |txs|, flat[j].nonce) <==> j < |q| - |txs|
  {
    if |q| <= drop {
      assert txs[j] == flat[j];
    } else if j >= |q| - drop {
      assert txs[|q| - 1 - j] == flat[j];
    } else {
      forall t | 0 <= t < |txs| ensures txs[t].nonce != flat[j].nonce {
        assert txs[t] == flat[|q| - 1 - t];
      }
    }
  }

  lemma HitIff(p: Items, q: Items, txs: seq<Tx>, n: nat)
    requires TopOf(q, txs)
    ensures n in Hits(p, q, |txs|) <==> n in p && exists t :: 0 <= t < |txs| && txs[t].nonce == n
  {
    if n in q {
      assert n in Rest(q, |txs|) <==> StaysQueued(q, txs, |txs|, n);
    }
  }

  /** Some removed nonce is the first below `n`. */
  lemma {:induction false} FirstIndex(p: Items, txs: seq<Tx>, i: nat, n: nat) returns (t: nat)
    requires i < |txs| && txs[i].nonce in p && txs[i].nonce < n
    requires forall u :: 0 <= u < |txs| ==> txs[u].nonce != n
    ensures t <= i && FirstBelow(p, txs, t, n)
  {
    if FirstBelow(p, txs, i, n) {
      t := i;
    } else {
      var u :| 0 <= u < i && txs[u].nonce in p && n >= txs[u].nonce;
      t := FirstIndex(p, txs, u, n);
    }
  }

  lemma BackIff(p: Items, q: Items, txs: seq<Tx>, n: nat)
    requires TopOf(q, txs)
    ensures BackAfter(p, q, txs, |txs|, n) <==> GoesBack(p, q, |txs|, n)
  {
    if BackAfter(p, q, txs, |txs|, n) {
      BackHit(p, q, txs, n);
    } else if GoesBack(p, q, |txs|, n) {
      BackFirst(p, q, txs, n);
    }
  }

  lemma BackHit(p: Items, q: Items, txs: seq<Tx>, n: nat)
    requires TopOf(q, txs) && BackAfter(p, q, txs, |txs|, n)
    ensures GoesBack(p, q, |txs|, n)
  {
    var t :| 0 <= t < |txs| && FirstBelow(p, txs, t, n) && SomeBelow(p, txs[t].nonce);
    HitIff(p, q, txs, txs[t].nonce);
    if |txs| >= |q| {
      TopSize(q, txs);
      LowestHit(p, q, txs, t, n);
    }
  }

  lemma TopSize(q: Items, txs: seq<Tx>)
    requires Listed(q, txs)
    ensures |txs| <= |q|
  {
    DistinctSize(txs);
    SubsetSize(set i | 0 <= i < |txs| :: txs[i].nonce as nat, q.Keys);
  }

  lemma {:induction false} DistinctSize(txs: seq<Tx>)
    requires forall i, j :: 0 <= i < j < |txs| ==> txs[i].nonce != txs[j].nonce
    ensures |set i | 0 <= i < |txs| :: txs[i].nonce as nat| == |txs|
  {
    if txs != [] {
      var l := |txs| - 1;
      DistinctSize(txs[..l]);
      assert (set i | 0 <= i < |txs| :: txs[i].nonce as nat)
          == (set i | 0 <= i < l :: txs[..l][i].nonce as nat) + {txs[l].nonce as nat};
    }
  }

  /** From the lowest up, the first hit below `n` is the lowest hit. */
  lemma LowestHit(p: Items, q: Items, txs: seq<Tx>, t: nat, n: nat)
    requires TopOf(q, txs) && |txs| == |q| && t < |txs| && FirstBelow(p, txs, t, n) && SomeBelow(p, txs[t].nonce)
    ensures AllAbove(p, Hits(p, q, |txs|))
  {
    var j :| j in p && j < txs[t].nonce;
    forall h | h in Hits(p, q, |txs|) ensures j < h {
      HitIff(p, q, txs, h);
      var u :| 0 <= u < |txs| && txs[u].nonce == h;
      assert t <= u;
    }
  }

  lemma BackFirst(p: Items, q: Items, txs: seq<Tx>, n: nat)
    requires TopOf(q, txs) && GoesBack(p, q, |txs|, n)
    ensures BackAfter(p, q, txs, |txs|, n)
  {
    var h :| h in Hits(p, q, |txs|) && h < n && SomeBelow(p, h) && (|txs| >= |q| ==> AllAbove(p, Hits(p, q, |txs|)));
    HitIff(p, q, txs, h);
    var i :| 0 <= i < |txs| && txs[i].nonce == h;
    var t := FirstIndex(p, txs, i, n);
    HitIff(p, q, txs, txs[t].nonce);
    if |txs| == |q| {
      var j :| j in p && forall k :: k in Hits(p, q, |txs|) ==> j < k;
      assert j < txs[t].nonce;
    } else {
      var j :| j in p && j < h;
      assert j < txs[t].nonce;
    }
  }

  lemma LeftIff(p: Items, q: Items, txs: seq<Tx>, n: nat)
    requires TopOf(q, txs)
    ensures StaysPending(p, txs, |txs|, n) <==> n in LeftOf(p, q, |txs|)
  {
    if StaysPending(p, txs, |txs|, n) {
      forall h | h in Hits(p, q, |txs|) ensures n < h {
        HitIff(p, q, txs, h);
      }
    }
    if n in LeftOf(p, q, |txs|) {
      forall t | 0 <= t < |txs| && txs[t].nonce in p ensures n < txs[t].nonce {
        HitIff(p, q, txs, txs[t].nonce);
      }
    }
  }

  lemma EmptiedLists(p: Items, q: Items, txs: seq<Tx>, p': Items, q': Items)
    requires TopOf(q, txs) && Emptied(p, q, txs, |txs|, p', q')
    ensures p' == LeftOf(p, q, |txs|) && q' == Rest(q, |txs|) + Back(p, q, |txs|)
  {
    forall n ensures n in p' <==> n in LeftOf(p, q, |txs|) {
      assert n in p' <==> StaysPending(p, txs, |txs|, n);
      LeftIff(p, q, txs, n);
    }
    forall n
      ensures n in q' <==> n in Rest(q, |txs|) + Back(p, q, |txs|)
      ensures n in q' ==> q'[n] == (Rest(q, |txs|) + Back(p, q, |txs|))[n]
    {
      assert n in q' <==> QueuedAfter(p, q, txs, |txs|, n);
      assert n in q' ==> EntryOf(p, q, q', n);
      QueuedIff(p, q, txs, n);
    }
    SameMap(q', Rest(q, |txs|) + Back(p, q, |txs|));
  }

  lemma SameMap(m: Items, m': Items)
    requires forall n :: n in m <==> n in m'
    requires forall n :: n in m ==> m[n] == m'[n]
    ensures m == m'
  {
  }

  lemma QueuedIff(p: Items, q: Items, txs: seq<Tx>, n: nat)
    requires TopOf(q, txs)
    ensures QueuedAfter(p, q, txs, |txs|, n) <==> n in Rest(q, |txs|) + Back(p, q, |txs|)
    ensures n in Rest(q, |txs|) ==> n in q && Rest(q, |txs|)[n] == q[n]
    ensures n in Back(p, q, |txs|) ==> n !in q && n in p && Back(p, q, |txs|)[n] == p[n]
  {
    BackIff(p, q, txs, n);
    assert n in q ==> (n in Rest(q, |txs|) <==> StaysQueued(q, txs, |txs|, n));
  }

  lemma EmptiedNonce(p: Items, q: Items, txs: seq<Tx>, next: nat, next': nat)
    requires TopOf(q, txs) && NonceAfter(p, txs, |txs|, next, next')
    ensures next' == if Hits(p, q, |txs|) == {} then next else Min(next, Least(Hits(p, q, |txs|)))
  {
    var hits := Hits(p, q, |txs|);
    forall t | 0 <= t < |txs| && txs[t].nonce in p ensures txs[t].nonce in hits {
      HitIff(p, q, txs, txs[t].nonce);
    }
    if hits != {} {
      HitIff(p, q, txs, Least(hits));
    }
  }

  /** After the whole run the account has lost its highest queued nonces. */
  lemma RunLimited(s0: Pool, s: Pool, a: Address, txs: seq<Tx>)
    requires TopOf(s0.QueueItems(a), txs) && Emptying(s0, s, a, txs, |txs|)
    ensures LimitedAt(s0, s, a, |txs|)
  {
    EmptiedLists(s0.PendingItems(a), s0.QueueItems(a), txs, s.PendingItems(a), s.QueueItems(a));
    EmptiedNonce(s0.PendingItems(a), s0.QueueItems(a), txs, s0.PendingNonce(a), s.PendingNonce(a));
  }
}
