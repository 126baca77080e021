/**
 The limits of the transaction pool (core/tx_pool.go): the eviction of pending
 transactions, the limit on queued ones, and a whole pass of promotion.
 */
module PoolLimits {
  import opened Basics
  import opened TxTypes
  import opened SortedTxs
  import opened TxListSpec
  import opened Equalize
  import opened PoolState
  import opened PoolDemotion
  import opened PoolPromotion
  import opened PoolRemoval

  const MAX_QUEUED_IN_TOTAL: nat := 1024

  // ---- eviction ----

  ghost predicate Shrunk(l: List, l': List) {
    l'.strict == l.strict && l'.Valid() && Within(l'.items, l.items) && l'.items.Keys != {}
  }

  /** All pending lists may shrink at once. */
  lemma ShrinkAll(s: Pool, pending: Lists)
    requires Sound(s) && pending.Keys == s.pending.Keys
    requires forall a :: a in pending ==> Shrunk(s.pending[a], pending[a])
    ensures Sound(s.(pending := pending))
  {
    var s' := s.(pending := pending);
    forall a ensures FiledAt(s', a) && ExecutableAt(s', a) {
      assert FiledAt(s, a) && ExecutableAt(s, a);
      assert a in pending ==> Shrunk(s.pending[a], pending[a]);
    }
  }

  /** Capping pending lists at a positive level keeps the pool sound. */
  lemma LeveledSound(s: Pool, eligible: set<Address>, level: nat)
    requires Sound(s) && level > 0
    ensures Sound(s.(pending := Leveled(s.pending, eligible, level)))
  {
    var pending := Leveled(s.pending, eligible, level);
    forall a | a in pending ensures Shrunk(s.pending[a], pending[a]) {
      assert FiledAt(s, a) && ExecutableAt(s, a);
      CapShrinks(s.pending[a], level);
    }
    ShrinkAll(s, pending);
  }

  lemma CapShrinks(l: List, level: nat)
    requires l.Valid() && level > 0 && l.items.Keys != {}
    ensures Shrunk(l, Cap(l, level)) && Shrunk(l, l)
  {
    CappedSize(l.items, level);
  }

  /** Account `a` is to lose pending transactions. */
  ghost predicate CutBy(s: Pool, eligible: set<Address>, level: nat, a: Address) {
    a in eligible && |s.PendingItems(a)| > level
  }

  /** From `s` to `s'`: above the limit the eligible accounts are levelled. */
  ghost predicate Evicts(s: Pool, localTxs: set<TxHash>, eligible: set<Address>, level: nat, s': Pool) {
    if Total(s.pending) > MAX_PENDING_TOTAL
    then s' == s.(pending := s'.pending) && Eligible(s.pending, localTxs, eligible)
         && WaterFilled(s.pending, eligible, level, s'.pending)
    else eligible == {} && s' == s
  }

  /** What is left of a gap-free account is a front of it; the next nonce stays. */
  lemma EvictedFront(s: Pool, localTxs: set<TxHash>, eligible: set<Address>, level: nat, s': Pool, a: Address) returns (hi: nat)
    requires FiledAt(s, a) && GaplessAt(s, a) && Evicts(s, localTxs, eligible, level, s')
    ensures Interval(s'.PendingItems(a), s.chain.Nonce(a), hi) && hi <= s'.PendingNonce(a) == s.PendingNonce(a)
    ensures hi == s.PendingNonce(a) <==> !CutBy(s, eligible, level, a)
  {
    hi := s.PendingNonce(a);
    if Total(s.pending) > MAX_PENDING_TOTAL && a in eligible {
      hi := CappedInterval(s.pending[a].items, s.chain.Nonce(a), hi, level);
    }
  }

  /** The lowest nonces of an interval. */
  lemma CappedInterval(items: Items, from: nat, to: nat, level: nat) returns (hi: nat)
    requires Interval(items, from, to)
    ensures Interval(Capped(items, level), from, hi) && hi <= to && (hi == to <==> |items| <= level)
  {
    assert items.Keys == RangeSet(from, to);
    hi := Min(to, from + level);
    forall n | n in items ensures Rank(items.Keys, n) == n - from {
      assert (set k | k in items.Keys && k < n) == RangeSet(from, n);
    }
  }

  /** If nobody is to lose anything, nobody is eligible. */
  lemma NoneCut(s: Pool, localTxs: set<TxHash>, eligible: set<Address>, level: nat, s': Pool)
    requires Evicts(s, localTxs, eligible, level, s') && forall b :: !CutBy(s, eligible, level, b)
    ensures eligible == {}
  {
    if Total(s.pending) > MAX_PENDING_TOTAL {
      forall b | b in eligible ensures |s.pending[b].items| <= level {
        assert !CutBy(s, eligible, level, b);
      }
      NothingCut(s.pending, eligible, level);
    }
  }

  lemma SomeoneCut(s: Pool, localTxs: set<TxHash>, eligible: set<Address>, level: nat, s': Pool) returns (a: Address)
    requires Evicts(s, localTxs, eligible, level, s') && eligible != {}
    ensures CutBy(s, eligible, level, a)
  {
    if forall b :: !CutBy(s, eligible, level, b) {
      NoneCut(s, localTxs, eligible, level, s');
    }
    a :| CutBy(s, eligible, level, a);
  }

  /** Eviction leaves the next nonces alone, so the pending nonces stay
      gap-free exactly if no account is eligible for it. */
  lemma EvictionGapless(s: Pool, localTxs: set<TxHash>, eligible: set<Address>, level: nat, s': Pool)
    requires Filed(s) && Gapless(s) && Evicts(s, localTxs, eligible, level, s')
    ensures Gapless(s') <==> eligible == {}
  {
    forall a ensures GaplessAt(s', a) <==> !CutBy(s, eligible, level, a) {
      assert FiledAt(s, a) && GaplessAt(s, a);
      var hi := EvictedFront(s, localTxs, eligible, level, s', a);
      OneEnd(s'.PendingItems(a), s.chain.Nonce(a), hi, s'.PendingNonce(a));
    }
    if eligible != {} {
      var a := SomeoneCut(s, localTxs, eligible, level, s');
    }
  }

  lemma OneEnd(items: Items, from: nat, e: nat, e': nat)
    requires Interval(items, from, e) && e <= e'
    ensures Interval(items, from, e') <==> e == e'
  {
    assert e !in items;
  }

  // ---- dropping queued transactions ----

  ghost function Drop(drops: map<Address, nat>, a: Address): nat {
    if a in drops then drops[a] else 0
  }

  /** `h` is among the `d` highest queued transactions of `a`. */
  ghost predicate TopTx(s: Pool, a: Address, d: nat, h: TxHash) {
    QueuedTx(s, a, h) && h.preimage.nonce !in Rest(s.QueueItems(a), d)
  }

  ghost predicate DropsHash(s: Pool, drops: map<Address, nat>, s': Pool, h: TxHash) {
    var a := h.preimage.from;
    h in s'.all <==> h in s.all && !(a.Some? && TopTx(s, a.value, Drop(drops, a.value), h))
  }

  /** Every account has lost as many of its highest queued nonces as `drops`
      says, and exactly these transactions are no longer known. */
  ghost predicate Dropped(s: Pool, drops: map<Address, nat>, s': Pool) {
    && s'.chain == s.chain && (forall a :: LimitedAt(s, s', a, Drop(drops, a)))
    && (forall h {:trigger DropsHash(s, drops, s', h)} :: DropsHash(s, drops, s', h))
  }

  lemma NoDrop(s: Pool, a: Address)
    ensures LimitedAt(s, s, a, 0) && Rest(s.QueueItems(a), 0) == s.QueueItems(a) && Hits(s.PendingItems(a), s.QueueItems(a), 0) == {}
  {
    var p, q := s.PendingItems(a), s.QueueItems(a);
    CappedAll(q, |q|);
    assert Hits(p, q, 0) == {};
    assert LeftOf(p, q, 0) == p;
    assert Back(p, q, 0) == map[];
  }

  lemma DroppedStart(s: Pool)
    ensures Dropped(s, map[], s)
  {
    forall a ensures LimitedAt(s, s, a, Drop(map[], a)) {
      NoDrop(s, a);
    }
    forall h ensures DropsHash(s, map[], s, h) {
      if h.preimage.from.Some? {
        NoDrop(s, h.preimage.from.value);
      }
    }
  }

  lemma DroppedStep(s0: Pool, drops: map<Address, nat>, s: Pool, s': Pool, a: Address, txs: seq<Tx>)
    requires Filed(s0) && Dropped(s0, drops, s) && a !in drops && Untouched(s0, s, a)
    requires TopOf(s.QueueItems(a), txs) && Emptying(s, s', a, txs, |txs|)
    ensures Dropped(s0, drops[a := |txs|], s')
  {
    var more := drops[a := |txs|];
    RunLimited(s, s', a, txs);
    forall b ensures LimitedAt(s0, s', b, Drop(more, b)) {
      assert LimitedAt(s0, s, b, Drop(drops, b));
      if b == a {
        LimitedSince(s0, s, s', a, |txs|);
      } else {
        assert Untouched(s, s', b);
        LimitedStays(s0, s, s', b, Drop(drops, b));
      }
    }
    assert FiledAt(s0, a);
    forall h ensures DropsHash(s0, more, s', h) {
      assert DropsHash(s0, drops, s, h);
      GoneIff(s, a, txs, h);
      DropsHashStep(s0, drops, s, s', a, txs, h);
    }
  }

  lemma LimitedSince(s0: Pool, s: Pool, s': Pool, a: Address, d: nat)
    requires Untouched(s0, s, a) && s.chain == s0.chain && LimitedAt(s, s', a, d)
    ensures LimitedAt(s0, s', a, d)
  {
    assert s0.PendingItems(a) == s.PendingItems(a) && s0.QueueItems(a) == s.QueueItems(a);
    assert s0.PendingNonce(a) == s.PendingNonce(a);
  }

  lemma LimitedStays(s0: Pool, s: Pool, s': Pool, b: Address, d: nat)
    requires LimitedAt(s0, s, b, d) && Untouched(s, s', b) && s'.chain == s.chain
    ensures LimitedAt(s0, s', b, d)
  {
    assert s'.PendingItems(b) == s.PendingItems(b) && s'.QueueItems(b) == s.QueueItems(b);
    assert s'.PendingNonce(b) == s.PendingNonce(b);
  }

  lemma GoneIff(s: Pool, a: Address, txs: seq<Tx>, h: TxHash)
    requires TopOf(s.QueueItems(a), txs)
    ensures GoneHash(txs, |txs|, h) <==> TopTx(s, a, |txs|, h)
  {
    var q, n: nat := s.QueueItems(a), h.preimage.nonce;
    if n in q {
      assert n in Rest(q, |txs|) <==> StaysQueued(q, txs, |txs|, n);
    }
    if GoneHash(txs, |txs|, h) {
      var t :| 0 <= t < |txs| && txs[t].Hash() == h;
      assert q[txs[t].nonce] == txs[t];
    }
    if TopTx(s, a, |txs|, h) {
      var t :| 0 <= t < |txs| && txs[t].nonce == n;
      assert txs[t] == q[n];
    }
  }

  lemma DropsHashStep(s0: Pool, drops: map<Address, nat>, s: Pool, s': Pool, a: Address, txs: seq<Tx>, h: TxHash)
    requires DropsHash(s0, drops, s, h) && a !in drops && s.QueueItems(a) == s0.QueueItems(a)
    requires GoneHash(txs, |txs|, h) <==> TopTx(s, a, |txs|, h)
    requires h in s'.all <==> h in s.all && !GoneHash(txs, |txs|, h)
    requires QueuedTx(s0, a, h) ==> h.preimage.from == Some(a)
    ensures DropsHash(s0, drops[a := |txs|], s', h)
  {
    NotTop(s0, a, h);
    assert TopTx(s, a, |txs|, h) <==> TopTx(s0, a, |txs|, h);
    assert h.preimage.from == Some(a) ==> Drop(drops, a) == 0;
  }

  lemma NotTop(s: Pool, a: Address, h: TxHash)
    ensures !TopTx(s, a, 0, h)
  {
    NoDrop(s, a);
  }

  // ---- the limit on the queue ----

  /** Whose heartbeat is later is emptied first, and at most one account is
      emptied in part. */
  ghost predicate Ordered(s: Pool, drops: map<Address, nat>) {
    && (forall a :: a in drops ==> a in s.queue && drops[a] <= |s.queue[a].items|)
    && (forall a, b :: b in drops && drops[b] > 0 && a in s.queue && s.Beat(a) > s.Beat(b) ==>
          Drop(drops, a) == |s.queue[a].items|)
    && (forall a, b :: a in drops && b in drops && drops[a] < |s.queue[a].items| && drops[b] < |s.queue[b].items| ==> a == b)
  }

  ghost function BackLists(s: Pool, drops: map<Address, nat>): map<Address, Items> {
    map a | a in drops :: Back(s.PendingItems(a), s.QueueItems(a), drops[a])
  }

  ghost function Rows(m: map<Address, Items>): set<(Address, nat)> {
    set a, n | a in m && n in m[a] :: (a, n)
  }

  /** What goes back to the queue, by account and nonce. */
  ghost function Backs(s: Pool, drops: map<Address, nat>): set<(Address, nat)> {
    Rows(BackLists(s, drops))
  }

  /** Queued transactions have been dropped down to the limit; what went back
      to the queue comes on top. */
  ghost predicate Limited(s: Pool, drops: map<Address, nat>, s': Pool) {
    Dropped(s, drops, s') && Ordered(s, drops) && Total(s'.queue) == MAX_QUEUED_IN_TOTAL + |Backs(s, drops)|
  }

  /** The limit is met exactly if nothing goes back. An unqueued pending nonce
      goes back if it is above a dropped nonce that is pending and has something
      pending below it; when the account loses its whole queue, something also
      has to be pending below all its dropped pending nonces. */
  lemma LimitMet(s: Pool, drops: map<Address, nat>, s': Pool)
    requires Limited(s, drops, s')
    ensures Total(s'.queue) >= MAX_QUEUED_IN_TOTAL
    ensures Total(s'.queue) == MAX_QUEUED_IN_TOTAL <==>
      forall a, n: nat :: a in drops ==> !GoesBack(s.PendingItems(a), s.QueueItems(a), drops[a], n)
  {
    if Backs(s, drops) == {} {
      forall a, n: nat | a in drops ensures !GoesBack(s.PendingItems(a), s.QueueItems(a), drops[a], n) {
        BackEntry(s, drops, a, n);
      }
    } else {
      var b :| b in Backs(s, drops);
      BackEntry(s, drops, b.0, b.1);
    }
  }

  lemma BackEntry(s: Pool, drops: map<Address, nat>, a: Address, n: nat)
    ensures (a, n) in Backs(s, drops) <==> a in drops && GoesBack(s.PendingItems(a), s.QueueItems(a), drops[a], n)
  {
    if a in drops {
      assert BackLists(s, drops)[a] == Back(s.PendingItems(a), s.QueueItems(a), drops[a]);
    }
  }

  /** The bookkeeping of the limit: `drop` transactions are still too many, the
      accounts in `todo` come next. */
  ghost predicate Booked(s: Pool, todo: set<Address>, drops: map<Address, nat>, drop: nat) {
    && Ordered(s, drops) && todo !! drops.Keys && todo + drops.Keys == s.queue.Keys
    && (forall a, b :: a in drops && b in todo ==> s.Beat(a) >= s.Beat(b))
    && (drop > 0 ==> forall a :: a in drops ==> drops[a] == |s.queue[a].items|)
  }

  ghost predicate Limiting(s0: Pool, s: Pool, todo: set<Address>, drops: map<Address, nat>, drop: nat) {
    && Dropped(s0, drops, s) && Booked(s0, todo, drops, drop)
    && Total(s.queue) == MAX_QUEUED_IN_TOTAL + drop + |Backs(s0, drops)|
    && (forall a :: a in todo ==> Untouched(s0, s, a))
  }

  lemma LimitStart(s: Pool, drop: nat)
    requires Total(s.queue) == MAX_QUEUED_IN_TOTAL + drop
    ensures Limiting(s, s, s.queue.Keys, map[], drop)
  {
    DroppedStart(s);
    assert Backs(s, map[]) == {};
  }

  lemma LimitStep(s0: Pool, s: Pool, s': Pool, todo: set<Address>, drops: map<Address, nat>, drop: nat, a: Address, txs: seq<Tx>)
    requires Filed(s0) && Limiting(s0, s, todo, drops, drop) && drop > 0 && a in todo && a in s.queue
    requires forall b :: b in todo ==> s0.Beat(b) <= s0.Beat(a)
    requires Emptying(s, s', a, txs, |txs|) && TopOf(s.QueueItems(a), txs)
    requires |txs| == if |s.queue[a].items| <= drop then |s.queue[a].items| else drop
    ensures Limiting(s0, s', todo - {a}, drops[a := |txs|], drop - |txs|)
  {
    assert Untouched(s0, s, a) && FiledAt(s0, a);
    DroppedStep(s0, drops, s, s', a, txs);
    LimitedCount(s0, s, s', drops, a, |txs|);
    BookedStep(s0, todo, drops, drop, a, |txs|);
    TodoStep(s0, s, s', todo, a);
  }

  lemma LimitedCount(s0: Pool, s: Pool, s': Pool, drops: map<Address, nat>, a: Address, d: nat)
    requires Untouched(s0, s, a) && Local(s, s', a) && a in s.queue && a !in drops && d <= |s.queue[a].items|
    requires Keyed(s0.QueueItems(a)) && Dropped(s0, drops[a := d], s')
    ensures Total(s'.queue) == Total(s.queue) - d + |Backs(s0, drops[a := d])| - |Backs(s0, drops)|
  {
    assert LimitedAt(s0, s', a, Drop(drops[a := d], a));
    LimitCount(s0, s, s', drops, a, d);
  }

  lemma TodoStep(s0: Pool, s: Pool, s': Pool, todo: set<Address>, a: Address)
    requires Local(s, s', a) && forall b :: b in todo ==> Untouched(s0, s, b)
    ensures forall b :: b in todo - {a} ==> Untouched(s0, s', b)
  {
    forall b | b in todo - {a} ensures Untouched(s0, s', b) {
      assert Untouched(s0, s, b) && Untouched(s, s', b);
    }
  }

  lemma BookedStep(s: Pool, todo: set<Address>, drops: map<Address, nat>, drop: nat, a: Address, d: nat)
    requires Booked(s, todo, drops, drop) && drop > 0 && a in todo
    requires d == if |s.queue[a].items| <= drop then |s.queue[a].items| else drop
    requires forall b :: b in todo ==> s.Beat(b) <= s.Beat(a)
    ensures Booked(s, todo - {a}, drops[a := d], drop - d)
  {
    OrderedStep(s, todo, drops, a, d);
    assert (todo - {a}) + drops[a := d].Keys == s.queue.Keys;
  }

  lemma OrderedStep(s: Pool, todo: set<Address>, drops: map<Address, nat>, a: Address, d: nat)
    requires Ordered(s, drops) && a in s.queue && a in todo && a !in drops && d <= |s.queue[a].items|
    requires forall b, c :: b in drops && c in todo ==> s.Beat(b) >= s.Beat(c)
    requires forall b :: b in todo ==> s.Beat(b) <= s.Beat(a)
    requires todo + drops.Keys == s.queue.Keys && forall b :: b in drops ==> drops[b] == |s.queue[b].items|
    ensures Ordered(s, drops[a := d])
  {
  }

  lemma LimitCount(s0: Pool, s: Pool, s': Pool, drops: map<Address, nat>, a: Address, d: nat)
    requires Untouched(s0, s, a) && Local(s, s', a) && a in s.queue && a !in drops && d <= |s.queue[a].items|
    requires Keyed(s0.QueueItems(a)) && LimitedAt(s0, s', a, d)
    ensures Total(s'.queue) == Total(s.queue) - d + |Backs(s0, drops[a := d])| - |Backs(s0, drops)|
  {
    var p, q := s0.PendingItems(a), s0.QueueItems(a);
    forall b | b != a ensures SameAt(s.queue, s'.queue, b) {
      assert Untouched(s, s', b);
    }
    TotalChange(s.queue, s'.queue, a);
    RestSize(p, q, d);
    BacksMore(s0, drops, a, d);
  }

  lemma RestSize(p: Items, q: Items, d: nat)
    requires Keyed(q) && d <= |q|
    ensures |Rest(q, d) + Back(p, q, d)| == |q| - d + |Back(p, q, d)|
  {
    RestCount(q, d);
    RestApart(p, q, d);
    DisjointSize(Rest(q, d), Back(p, q, d));
  }

  lemma RestCount(q: Items, d: nat)
    requires Keyed(q) && d <= |q|
    ensures |Rest(q, d)| == |q| - d
  {
    CappedSize(q, |q| - d);
  }

  lemma RestApart(p: Items, q: Items, d: nat)
    ensures Rest(q, d).Keys !! Back(p, q, d).Keys
  {
    forall n | n in Rest(q, d).Keys ensures n !in Back(p, q, d).Keys {
      assert n in q;
    }
  }

  lemma DisjointSize(m: Items, m': Items)
    requires m.Keys !! m'.Keys
    ensures |m + m'| == |m| + |m'|
  {
    assert (m + m').Keys == m.Keys + m'.Keys;
  }

  lemma BacksMore(s: Pool, drops: map<Address, nat>, a: Address, d: nat)
    requires a !in drops
    ensures |Backs(s, drops[a := d])| == |Backs(s, drops)| + |Back(s.PendingItems(a), s.QueueItems(a), d)|
  {
    var back := Back(s.PendingItems(a), s.QueueItems(a), d);
    RowsMore(BackLists(s, drops), a, back);
    BackListsMore(s, drops, a, d);
  }

  lemma BackListsMore(s: Pool, drops: map<Address, nat>, a: Address, d: nat)
    ensures BackLists(s, drops[a := d]) == BackLists(s, drops)[a := Back(s.PendingItems(a), s.QueueItems(a), d)]
  {
    var m, m' := BackLists(s, drops)[a := Back(s.PendingItems(a), s.QueueItems(a), d)], BackLists(s, drops[a := d]);
    assert m.Keys == m'.Keys;
    forall b | b in m ensures m[b] == m'[b] {
    }
  }

  lemma RowsMore(m: map<Address, Items>, a: Address, items: Items)
    requires a !in m
    ensures |Rows(m[a := items])| == |Rows(m)| + |items|
  {
    RowSize(a, items);
    assert Rows(m[a := items]) == Rows(m) + Row(a, items);
  }

  // ---- a whole pass ----

  /** How a pass of promoteExecutables went: the pool once every account has
      been promoted, who was then eligible for eviction and down to which level,
      the pool after that, and how many queued transactions each account lost. */
  datatype Promotion = Promotion(
    promoted: Pool, eligible: set<Address>, level: nat, evicted: Pool, drops: map<Address, nat>)

  /** From `s`, every account is promoted; pending transactions above the limit
      are evicted evenly; queued ones above theirs are dropped. */
  ghost predicate Promotes(s: Pool, localTxs: set<TxHash>, run: Promotion, s': Pool) {
    && run.promoted.chain == s.chain && (forall a :: PromotedAt(s, run.promoted, a))
    && ForgetsPromoted(s, {}, run.promoted)
    && Evicts(run.promoted, localTxs, run.eligible, run.level, run.evicted)
    && if Total(run.evicted.queue) > MAX_QUEUED_IN_TOTAL then Limited(run.evicted, run.drops, s')
       else run.drops == map[] && s' == run.evicted
  }

  lemma PassDrops(s: Pool, localTxs: set<TxHash>, run: Promotion, s': Pool, a: Address)
    requires Promotes(s, localTxs, run, s')
    ensures s'.chain == run.evicted.chain == s.chain && LimitedAt(run.evicted, s', a, Drop(run.drops, a))
  {
    if Total(run.evicted.queue) <= MAX_QUEUED_IN_TOTAL {
      NoDrop(s', a);
    }
  }

  /** After a pass nothing unexecutable is queued. */
  lemma PassFit(s: Pool, localTxs: set<TxHash>, run: Promotion, s': Pool)
    requires Promotes(s, localTxs, run, s') && Executable(run.evicted)
    ensures Fit(s')
  {
    PromotedFit(s, run.promoted);
    forall a ensures FitAt(s', a) {
      assert FitAt(run.promoted, a) && ExecutableAt(run.evicted, a);
      PassDrops(s, localTxs, run, s', a);
      LimitedFit(run.evicted, s', a, Drop(run.drops, a));
    }
  }

  lemma LimitedFit(s: Pool, s': Pool, a: Address, d: nat)
    requires FitAt(s, a) && ExecutableAt(s, a) && s'.chain == s.chain && LimitedAt(s, s', a, d)
    ensures FitAt(s', a)
  {
  }
}
