/** The block chain: writing blocks, reorganising, and keeping the canonical
    numbering and the transaction index in step with the head
    (core/blockchain.go). */
module BlockChains {
  import opened Basics
  import opened TxTypes
  import opened ChainTypes
  import opened HeaderStore
  import opened HeaderChains
  import opened BlockIndex

  /** `h` and its ancestors, up to `n` of them. */
  ghost function AncestorRun(h: Header, n: nat): (r: seq<Header>)
    ensures |r| == Min(n, h.number + 1) && forall k :: 0 <= k < |r| ==> r[k] == Ancestor(h, h.number - k)
  {
    seq(Min(n, h.number + 1), k requires 0 <= k < Min(n, h.number + 1) => Ancestor(h, h.number - k))
  }

  lemma RunExtends(h: Header, i: nat)
    requires i <= h.number
    ensures AncestorRun(h, i + 1) == AncestorRun(h, i) + [Ancestor(h, h.number - i)]
  {
  }

  ghost predicate Known(db: Records, hash: Hash) {
    hash.HashOf? && Has(db, hash.header)
  }

  /** A walk from `hash` towards genesis has found `i` blocks; `next` is asked for
      under `number`. */
  ghost predicate Walked(db: Records, g: Header, hash: Hash, i: nat, blocks: seq<Header>, next: Hash, number: nat) {
    if !Known(db, hash) then i == 0 && blocks == [] && next == hash
    else
      && i <= hash.header.number + 1 && blocks == AncestorRun(hash.header, i)
      && if i == hash.header.number + 1 then next == g.parent
         else number == hash.header.number - i && next == HashOf(Ancestor(hash.header, number))
  }

  lemma WalkStart(db: Records, g: Header, hash: Hash, number: nat)
    requires Recorded(db, g) && (hash in db.numbers ==> number == db.numbers[hash])
    ensures Walked(db, g, hash, 0, [], hash, number)
  {
    if hash.HashOf? {
      assert RecordedAt(db, g, hash.header);
    }
  }

  /** The next block is known exactly if the walk has not reached genesis. */
  lemma WalkStep(db: Records, g: Header, hash: Hash, i: nat, n: nat, blocks: seq<Header>, next: Hash, number: nat)
    requires Closed(db, g) && g.number == 0 && i < n && Walked(db, g, hash, i, blocks, next, number)
    ensures Known(db, next) ==>
      number == next.header.number && Walked(db, g, hash, i + 1, blocks + [next.header], next.header.parent, Pred(number))
    ensures !Known(db, next) ==> blocks == if Known(db, hash) then AncestorRun(hash.header, n) else []
  {
    if Known(db, hash) {
      var h := hash.header;
      assert ClosedAt(db, g, h);
      if i <= h.number {
        RunExtends(h, i);
        WalkDown(db, g, h, h.number - i);
      } else if g.parent.HashOf? {
        BelowGenesis(db, g);
      }
    }
  }

  lemma WalkDown(db: Records, g: Header, h: Header, m: nat)
    requires Closed(db, g) && g.number == 0 && Has(db, h) && Descends(h, g) && m <= h.number
    ensures Has(db, Ancestor(h, m)) && Ancestor(h, m).number == m
    ensures Ancestor(h, m).parent == if m > 0 then HashOf(Ancestor(h, m - 1)) else g.parent
  {
    AncestorRecorded(db, g, h, m);
    AncestorHeight(h, g, m);
    if m > 0 {
      ParentOfAncestor(h, g, m);
    } else {
      AtHeightZero(Ancestor(h, 0), g);
    }
  }

  /** What genesis names as its parent does not descend from genesis. */
  lemma BelowGenesis(db: Records, g: Header)
    requires Closed(db, g) && g.parent.HashOf?
    ensures !Has(db, g.parent.header)
  {
    assert ClosedAt(db, g, g.parent.header);
    if Has(db, g.parent.header) {
      NotSmaller(g.parent.header, g);
    }
  }

  lemma {:induction false} NotSmaller(h: Header, g: Header)
    requires Descends(h, g)
    ensures !(h < g)
    decreases h
  {
    if h != g {
      NotSmaller(h.parent.header, g);
    }
  }

  /** Heights up to the head hold its ancestors; above it anything may be left. */
  ghost predicate NumberedAt(can: Canonical, c: Header, n: nat) {
    n <= c.number ==> n in can && can[n] == HashOf(Ancestor(c, n))
  }

  ghost predicate NumberedUpTo(can: Canonical, c: Header) {
    forall n: nat {:trigger NumberedAt(can, c, n)} :: NumberedAt(can, c, n)
  }

  /** The numbering while the blocks of `h` are inserted from the top down to
      `lo`, over the numbering of `c`, which they share up to `k`. */
  ghost predicate InsertedAt(can: Canonical, c: Header, h: Header, k: nat, lo: nat, n: nat) {
    && (n <= k ==> NumberedAt(can, c, n))
    && (lo < n <= h.number ==> n in can && can[n] == HashOf(Ancestor(h, n)))
  }

  ghost predicate Inserted(can: Canonical, c: Header, h: Header, k: nat, lo: nat) {
    forall n: nat {:trigger InsertedAt(can, c, h, k, lo, n)} :: InsertedAt(can, c, h, k, lo, n)
  }

  lemma InsertStart(can: Canonical, c: Header, h: Header, k: nat)
    requires NumberedUpTo(can, c)
    ensures Inserted(can, c, h, k, h.number)
  {
    forall n: nat ensures InsertedAt(can, c, h, k, h.number, n) {
      assert NumberedAt(can, c, n);
    }
  }

  lemma InsertStep(can: Canonical, c: Header, h: Header, k: nat, lo: nat)
    requires Inserted(can, c, h, k, lo) && k < lo
    ensures Inserted(can[lo := HashOf(Ancestor(h, lo))], c, h, k, lo - 1)
  {
    var can', lo' := can[lo := HashOf(Ancestor(h, lo))], lo - 1;
    forall n: nat ensures InsertedAt(can', c, h, k, lo', n) {
      assert InsertedAt(can, c, h, k, lo, n);
    }
  }

  lemma InsertDone(can: Canonical, c: Header, h: Header, k: nat)
    requires Inserted(can, c, h, k, k) && k <= c.number && k <= h.number && Ancestor(c, k) == Ancestor(h, k)
    ensures NumberedUpTo(can[h.number := HashOf(h)], h)
  {
    var can' := can[h.number := HashOf(h)];
    forall n: nat ensures NumberedAt(can', h, n) {
      assert InsertedAt(can, c, h, k, k, n);
      if n <= k {
        AncestorOfAncestor(c, k, n);
        AncestorOfAncestor(h, k, n);
      }
    }
  }

  lemma NumberedExtends(can: Canonical, c: Header, h: Header)
    requires NumberedUpTo(can, c) && h.parent == HashOf(c) && h.number == c.number + 1
    ensures NumberedUpTo(can[h.number := HashOf(h)], h)
  {
    var can' := can[h.number := HashOf(h)];
    forall n: nat ensures NumberedAt(can', h, n) {
      assert NumberedAt(can, c, n);
    }
  }

  /** `chain` lists the ancestors of `h` from `h` itself down to height `k`, exclusive. */
  ghost predicate Descent(chain: seq<Header>, h: Header, k: nat) {
    && k <= h.number && |chain| == h.number - k
    && forall i :: 0 <= i < |chain| ==> chain[i] == Ancestor(h, h.number - i)
  }

  /** `k` is the height of the highest common ancestor of `c` and `h`. */
  ghost predicate Fork(c: Header, h: Header, k: nat) {
    && k <= c.number && k <= h.number && Ancestor(c, k) == Ancestor(h, k)
    && forall n: nat :: k < n <= c.number && n <= h.number ==> Ancestor(c, n) != Ancestor(h, n)
  }

  /** Different ancestors at one height mean different ancestors above it. */
  lemma DifferentAbove(c: Header, h: Header, m: nat)
    requires Ancestor(c, m) != Ancestor(h, m)
    ensures forall n: nat :: m <= n ==> Ancestor(c, n) != Ancestor(h, n)
  {
    forall n: nat | m <= n ensures Ancestor(c, n) != Ancestor(h, n) {
      AncestorOfAncestor(c, n, m);
      AncestorOfAncestor(h, n, m);
    }
  }

  lemma DescentStep(chain: seq<Header>, h: Header, k: nat)
    requires Descent(chain, h, k) && 0 < k
    ensures Descent(chain + [Ancestor(h, k)], h, k - 1)
  {
  }

  /** One step down an ancestry, and that it succeeds in a closed store. */
  lemma StepDown(db: Records, g: Header, h: Header, n: nat)
    requires Descends(h, g) && g.number == 0 && 0 < n <= h.number
    ensures Ancestor(h, n).number == n && Ancestor(h, n).parent == HashOf(Ancestor(h, n - 1))
    ensures Ancestor(h, n - 1).number == n - 1
    ensures Closed(db, g) && Has(db, h) ==> Has(db, Ancestor(h, n - 1))
  {
    ParentOfAncestor(h, g, n);
    AncestorHeight(h, g, n - 1);
    if Closed(db, g) && Has(db, h) {
      AncestorRecorded(db, g, h, n - 1);
    }
  }

  lemma SameAtZero(c: Header, h: Header, g: Header)
    requires Descends(c, g) && Descends(h, g) && g.number == 0
    ensures Ancestor(c, 0) == g && Ancestor(h, 0) == g
  {
    AncestorHeight(c, g, 0);
    AncestorHeight(h, g, 0);
    AtHeightZero(Ancestor(c, 0), g);
    AtHeightZero(Ancestor(h, 0), g);
  }

  /** The two branches above the highest common ancestor. */
  datatype Branches = Branches(common: Header, oldChain: seq<Header>, newChain: seq<Header>, deleted: seq<TxHash>)

  /** On the way down: both ancestries are cut at height `m`, nothing above is shared. */
  ghost predicate Halfway(index: Index, c: Header, h: Header, m: nat, b: Branches, other: Header) {
    && m <= c.number && m <= h.number
    && b.common == Ancestor(c, m) && other == Ancestor(h, m)
    && Descent(b.oldChain, c, m) && Descent(b.newChain, h, m)
    && Covers(c, m, b.deleted) && (Exact(index, c) ==> PlacedAbove(index, m, b.deleted))
    && forall n: nat :: m < n <= c.number && n <= h.number ==> Ancestor(c, n) != Ancestor(h, n)
  }

  /** An exact split at the highest common ancestor; `deleted` are the
      transactions of the old branch. */
  ghost predicate SplitAt(index: Index, c: Header, h: Header, b: Branches) {
    && Fork(c, h, b.common.number)
    && b.common == Ancestor(c, b.common.number)
    && Descent(b.oldChain, c, b.common.number) && Descent(b.newChain, h, b.common.number)
    && Covers(c, b.common.number, b.deleted) && (Exact(index, c) ==> PlacedAbove(index, b.common.number, b.deleted))
  }

  lemma HalfwayStep(index: Index, c: Header, h: Header, m: nat, b: Branches, other: Header)
    requires Halfway(index, c, h, m, b, other) && b.common != other && 0 < m
    requires b.common.number == m
    ensures var b' := Branches(Ancestor(c, m - 1), b.oldChain + [b.common], b.newChain + [other], b.deleted + b.common.txs);
      Halfway(index, c, h, m - 1, b', Ancestor(h, m - 1))
  {
    DescentStep(b.oldChain, c, m);
    DescentStep(b.newChain, h, m);
    CoversStep(c, m, b.deleted);
    if Exact(index, c) {
      PlacedStep(index, c, m, b.deleted);
    }
    DifferentAbove(c, h, m);
  }

  /** The index before a block was written, after that, and with the new head
      indexed: exact again exactly if no transaction repeats. */
  lemma HeadIndexed(index: Index, mid: Index, index': Index, c: Header, h: Header)
    requires Exact(index, c)
    requires if h == c then index' == mid == index || (Written(mid, index', h) && (NoRepeats(h) ==> Exact(mid, h)))
             else Written(mid, index', h) && if h.parent == HashOf(c) then Numbered(h) && mid == index else NoRepeats(h) ==> Exact(mid, h)
    ensures Exact(index', h) <==> NoRepeats(h)
  {
    if Exact(index', h) {
      ExactMeansNoRepeats(index', h);
    } else if NoRepeats(h) {
      if h != c && h.parent == HashOf(c) {
        ExtendedIndex(mid, index', c, h);
      } else if Written(mid, index', h) {
        RewrittenIndex(mid, index', h);
      }
    }
  }

  class BlockChain {
    const hc: HeaderChain
    var currentBlock: Header
    var currentFastBlock: Header
    var headBlock: Hash
    var headFastBlock: Hash
    var index: Index
    var blockCache: map<Hash, Header>

    ghost predicate BlocksCached()
      reads this, hc
    {
      forall h :: h in blockCache ==> h.HashOf? && Has(hc.records, h.header) && blockCache[h] == h.header
    }

    /** What every accepted block keeps. */
    ghost predicate Valid()
      reads this, hc
    {
      Stored() && Exact(index, currentBlock)
    }

    /** Everything but the index. */
    ghost predicate Stored()
      reads this, hc
    {
      && hc.Coherent() && BlocksCached()
      && hc.genesis.number == 0 && Has(hc.records, hc.genesis) && Has(hc.records, currentBlock)
      && Closed(hc.records, hc.genesis)
      && Heaviest(hc.records, hc.genesis, currentBlock)
      && NumberedUpTo(hc.canonical, currentBlock)
      && headBlock == HashOf(currentBlock)
    }

    constructor (g: Header)
      requires g.number == 0 && g.txs == []
      ensures Valid() && currentBlock == g && hc.genesis == g && fresh(hc)
      ensures forall x :: Has(hc.records, x) <==> x == g
    {
      hc := new HeaderChain(g);
      currentBlock, currentFastBlock := g, g;
      headBlock, headFastBlock := HashOf(g), HashOf(g);
      index, blockCache := map[], map[];
      new;
      forall n: nat ensures NumberedAt(hc.canonical, g, n) {
        assert ChainAt(hc.canonical, g, n);
      }
    }

    method GetBlock(hash: Hash, number: nat) returns (b: Option<Header>)
      requires hc.Coherent() && BlocksCached()
      modifies `blockCache
      ensures BlocksCached()
      ensures b.Some? ==> hash == HashOf(b.value) && Has(hc.records, b.value) && hash in blockCache
      ensures hash.HashOf? && Has(hc.records, hash.header) && number == hash.header.number ==> b.Some?
    {
      if hash in blockCache {
        return Some(blockCache[hash]);
      }
      b := FindHeader(hc.records, hash, number);
      assert Owned((hash, number)) || (hash, number) !in hc.records.headers;
      if b.None? {
        return None;
      }
      assert RecordedAt(hc.records, hc.genesis, hash.header);
      blockCache := CacheAdd(blockCache, HashOf(b.value), b.value);
    }

    /** The block of `hash`, if it is known, and its ancestors, up to `n` of them. */
    method GetBlocksFromHash(hash: Hash, n: nat) returns (blocks: seq<Header>)
      requires hc.Coherent() && BlocksCached() && hc.genesis.number == 0 && Closed(hc.records, hc.genesis)
      modifies `blockCache, hc`numberCache
      ensures hc.Coherent() && BlocksCached()
      ensures blocks == if hash.HashOf? && Has(hc.records, hash.header) then AncestorRun(hash.header, n) else []
    {
      var number := hc.GetBlockNumber(hash);
      var next := hash;
      blocks := [];
      WalkStart(hc.records, hc.genesis, hash, number);
      var i := 0;
      while i < n
        invariant BlocksCached() && hc.Coherent()
        invariant i <= n && Walked(hc.records, hc.genesis, hash, i, blocks, next, number)
      {
        WalkStep(hc.records, hc.genesis, hash, i, n, blocks, next, number);
        var block := GetBlock(next, number);
        if block.None? {
          return;
        }
        blocks := blocks + [block.value];
        next, number, i := block.value.parent, Pred(number), i + 1;
      }
    }

    /** Walks down from `block` to height `number`, collecting blocks and transactions. */
    method Reduce(block: Header, number: nat) returns (b: Option<Header>, chain: seq<Header>, txs: seq<TxHash>)
      requires hc.Coherent() && BlocksCached() && hc.genesis.number == 0
      requires Descends(block, hc.genesis) && number <= block.number
      modifies `blockCache
      ensures BlocksCached()
      ensures b.Some? ==> b.value == Ancestor(block, number) && b.value.number == number
      ensures b.Some? ==> Descent(chain, block, number) && Covers(block, number, txs)
      ensures b.Some? && Exact(index, block) ==> PlacedAbove(index, number, txs)
      ensures Closed(hc.records, hc.genesis) && Has(hc.records, block) ==> b.Some?
    {
      b, chain, txs := Some(block), [], [];
      ghost var m := block.number;
      AddStart(index, block);
      AncestorHeight(block, hc.genesis, number);
      while b.Some? && b.value.number != number
        invariant BlocksCached() && number <= m <= block.number
        invariant b.Some? ==> b.value == Ancestor(block, m) && b.value.number == m && Descent(chain, block, m) && Covers(block, m, txs)
        invariant b.Some? && Exact(index, block) ==> PlacedAbove(index, m, txs)
        invariant Closed(hc.records, hc.genesis) && Has(hc.records, block) ==> b.Some?
        decreases b.Some?, m
      {
        StepDown(hc.records, hc.genesis, block, m);
        DescentStep(chain, block, m);
        CoversStep(block, m, txs);
        if Exact(index, block) {
          PlacedStep(index, block, m, txs);
        }
        chain := chain + [b.value];
        txs := txs + b.value.txs;
        b := GetBlock(b.value.parent, Pred(b.value.number));
        m := m - 1;
      }
    }

    /** Walks both ancestries down to their highest common ancestor. */
    method Split(oldBlock: Header, newBlock: Header) returns (r: Option<Branches>)
      requires hc.Coherent() && BlocksCached() && hc.genesis.number == 0
      requires Descends(oldBlock, hc.genesis) && Descends(newBlock, hc.genesis)
      modifies `blockCache
      ensures BlocksCached()
      ensures r.Some? ==> SplitAt(index, oldBlock, newBlock, r.value)
      ensures Closed(hc.records, hc.genesis) && Has(hc.records, oldBlock) && Has(hc.records, newBlock) ==> r.Some?
    {
      var o, n := Some(oldBlock), Some(newBlock);
      var oldChain, newChain, deleted := [], [], [];
      AddStart(index, oldBlock);
      if oldBlock.number > newBlock.number {
        o, oldChain, deleted := Reduce(oldBlock, newBlock.number);
      } else {
        var kept: seq<TxHash>;
        n, newChain, kept := Reduce(newBlock, oldBlock.number);
      }
      if o.None? || n.None? {
        return None;
      }
      r := Meet(oldBlock, newBlock, o.value, n.value, oldChain, newChain, deleted);
    }

    /** The loop that steps down both branches until they are at one block. */
    method Meet(ghost c: Header, ghost h: Header, oldBlock: Header, newBlock: Header,
                oldChain: seq<Header>, newChain: seq<Header>, deletedTxs: seq<TxHash>) returns (r: Option<Branches>)
      requires hc.Coherent() && BlocksCached() && hc.genesis.number == 0
      requires Descends(c, hc.genesis) && Descends(h, hc.genesis)
      requires oldBlock.number == newBlock.number && (oldBlock.number == c.number || oldBlock.number == h.number)
      requires Halfway(index, c, h, oldBlock.number, Branches(oldBlock, oldChain, newChain, deletedTxs), newBlock)
      modifies `blockCache
      ensures BlocksCached()
      ensures r.Some? ==> SplitAt(index, c, h, r.value)
      ensures Closed(hc.records, hc.genesis) && Has(hc.records, c) && Has(hc.records, h) ==> r.Some?
    {
      var o, n := oldBlock, newBlock;
      var os, ns, deleted := oldChain, newChain, deletedTxs;
      ghost var m := o.number;
      while HashOf(o) != HashOf(n)
        invariant o.number == m == n.number
        invariant BlocksCached() && Halfway(index, c, h, m, Branches(o, os, ns, deleted), n)
        decreases m
      {
        if m == 0 {
          SameAtZero(c, h, hc.genesis);
          assert false;
        }
        HalfwayStep(index, c, h, m, Branches(o, os, ns, deleted), n);
        StepDown(hc.records, hc.genesis, c, m);
        StepDown(hc.records, hc.genesis, h, m);
        os, ns, deleted := os + [o], ns + [n], deleted + o.txs;
        var o' := GetBlock(o.parent, Pred(o.number));
        var n' := GetBlock(n.parent, Pred(n.number));
        if o'.None? || n'.None? {
          return None;
        }
        o, n, m := o'.value, n'.value, m - 1;
      }
      r := Some(Branches(o, os, ns, deleted));
    }

    /** Makes `block` the head and gives it its number. The other heads follow
        only if the number belonged to another block. */
    method Insert(block: Header)
      modifies `currentBlock, `currentFastBlock, `headBlock, `headFastBlock, hc`canonical, hc`headHeader, hc`current
      ensures hc.canonical == old(hc.canonical)[block.number := HashOf(block)]
      ensures currentBlock == block && headBlock == HashOf(block)
      ensures CanonicalHash(old(hc.canonical), block.number) != HashOf(block) ==>
        hc.current == block && currentFastBlock == block && hc.headHeader == headFastBlock == HashOf(block)
      ensures CanonicalHash(old(hc.canonical), block.number) == HashOf(block) ==>
        && hc.current == old(hc.current) && currentFastBlock == old(currentFastBlock)
        && hc.headHeader == old(hc.headHeader) && headFastBlock == old(headFastBlock)
    {
      var updateHeads := CanonicalHash(hc.canonical, block.number) != HashOf(block);
      hc.canonical := hc.canonical[block.number := HashOf(block)];
      headBlock := HashOf(block);
      currentBlock := block;
      if updateHeads {
        hc.SetCurrentHeader(block);
        headFastBlock := HashOf(block);
        currentFastBlock := block;
      }
    }

    /** Moves the numbering and the index from the chain of `oldBlock` to that
        of `newBlock`; the head itself is set by the caller. */
    method Reorg(oldBlock: Header, newBlock: Header)
      requires hc.Coherent() && BlocksCached() && hc.genesis.number == 0 && Closed(hc.records, hc.genesis)
      requires Has(hc.records, oldBlock) && Has(hc.records, newBlock)
      requires NumberedUpTo(hc.canonical, oldBlock)
      modifies this, hc`canonical, hc`headHeader, hc`current
      ensures hc.Coherent() && BlocksCached()
      ensures NumberedUpTo(hc.canonical[newBlock.number := HashOf(newBlock)], newBlock)
      ensures old(Exact(index, oldBlock)) && NoRepeats(newBlock) ==> Exact(index, newBlock)
    {
      assert ClosedAt(hc.records, hc.genesis, oldBlock) && ClosedAt(hc.records, hc.genesis, newBlock);
      var split := Split(oldBlock, newBlock);
      var newChain, deletedTxs := split.value.newChain, split.value.deleted;
      ghost var k := split.value.common.number;
      ghost var index0 := index;
      var addedTxs := InsertBranch(oldBlock, newBlock, k, newChain);
      ghost var mid := index;
      var diff := TxDifference(deletedTxs, addedTxs);
      index := DeleteTransactions(index, diff);
      if Exact(index0, oldBlock) && NoRepeats(newBlock) {
        Reindexed(index0, mid, index, oldBlock, newBlock, k, deletedTxs, addedTxs);
      }
      InsertDone(hc.canonical, oldBlock, newBlock, k);
    }

    /** Inserts the blocks of the new branch, newest first. */
    method InsertBranch(ghost c: Header, ghost h: Header, ghost k: nat, newChain: seq<Header>) returns (addedTxs: seq<TxHash>)
      requires hc.Coherent() && BlocksCached() && hc.genesis.number == 0
      requires Descends(h, hc.genesis) && Descent(newChain, h, k) && NumberedUpTo(hc.canonical, c)
      modifies this, hc`canonical, hc`headHeader, hc`current
      ensures hc.Coherent() && BlocksCached() && hc.records == old(hc.records)
      ensures Inserted(hc.canonical, c, h, k, k) && Added(old(index), index, h, k, addedTxs)
    {
      addedTxs := [];
      ghost var index0 := index;
      InsertStart(hc.canonical, c, h, k);
      AddStart(index, h);
      for i := 0 to |newChain|
        invariant hc.Coherent() && BlocksCached()
        invariant Inserted(hc.canonical, c, h, k, h.number - i) && Added(index0, index, h, h.number - i, addedTxs)
      {
        var block := newChain[i];
        AncestorHeight(h, hc.genesis, h.number - i);
        InsertStep(hc.canonical, c, h, k, h.number - i);
        Insert(block);
        ghost var before := index;
        index := WriteTransactions(index, block);
        AddStep(index0, before, index, h, h.number - i, addedTxs);
        addedTxs := addedTxs + block.txs;
      }
    }

    /** Stores a block whose parent is known; it becomes the head exactly when
        it is heavier, or as heavy and the coin falls its way. */
    method WriteBlock(block: Header, coin: bool) returns (status: Option<WriteStatus>)
      requires Stored() && Numbered(block)
      modifies this, hc
      ensures Stored()
      ensures status.Some? <==> block.parent.HashOf? && Has(old(hc.records), block.parent.header)
      ensures status.None? ==> hc.records == old(hc.records) && currentBlock == old(currentBlock)
      ensures status.Some? ==> forall x :: Has(hc.records, x) <==> x == block || Has(old(hc.records), x)
      ensures status.Some? ==>
        (status == Some(CanonStatTy) <==>
          var extern, local := TotalDifficulty(block, hc.genesis), TotalDifficulty(old(currentBlock), hc.genesis);
          extern > local || (extern == local && coin))
      ensures currentBlock == if status == Some(CanonStatTy) then block else old(currentBlock)
      ensures status == Some(CanonStatTy) && block.parent != HashOf(old(currentBlock)) && old(Valid()) && NoRepeats(block) ==>
        Exact(index, block)
      ensures status != Some(CanonStatTy) || block.parent == HashOf(old(currentBlock)) ==> index == old(index)
    {
      assert block.parent.HashOf? ==> RecordedAt(hc.records, hc.genesis, block.parent.header);
      assert Owned((block.parent, Pred(block.number))) || (block.parent, Pred(block.number)) !in hc.records.tds;
      var ptd := hc.GetTd(block.parent, Pred(block.number));
      if ptd.None? {
        return None;
      }
      assert ClosedAt(hc.records, hc.genesis, block.parent.header) && RecordedAt(hc.records, hc.genesis, currentBlock);
      var localTd := hc.GetTd(HashOf(currentBlock), currentBlock.number);
      var externTd := block.difficulty + ptd.value;
      ghost var db0 := hc.records;
      assert block != hc.genesis;
      assert externTd == TotalDifficulty(block, hc.genesis);
      RecordKeepsClosed(db0, hc.genesis, block, externTd);
      hc.Store(block, externTd);
      if externTd > localTd.value || (externTd == localTd.value && coin) {
        RecordKeepsHeaviest(db0, hc.genesis, currentBlock, block, block, externTd);
        if block.parent != HashOf(currentBlock) {
          Reorg(currentBlock, block);
        } else {
          NumberedExtends(hc.canonical, currentBlock, block);
        }
        Insert(block);
        status := Some(CanonStatTy);
      } else {
        RecordKeepsHeaviest(db0, hc.genesis, currentBlock, currentBlock, block, externTd);
        status := Some(SideStatTy);
      }
    }

    /** Accepts one validated block and, if it became the head, indexes its
        transactions. An exact index stays exact exactly if no transaction
        repeats on the chain of the head. */
    method InsertBlock(block: Header, coin: bool) returns (status: Option<WriteStatus>)
      requires Stored() && Numbered(block)
      modifies this, hc
      ensures Stored() && (old(Valid()) ==> (Valid() <==> NoRepeats(currentBlock)))
      ensures status.Some? <==> block.parent.HashOf? && Has(old(hc.records), block.parent.header)
      ensures status.None? ==> hc.records == old(hc.records)
      ensures status.Some? ==> forall x :: Has(hc.records, x) <==> x == block || Has(old(hc.records), x)
      ensures status.Some? ==>
        (status == Some(CanonStatTy) <==>
          var extern, local := TotalDifficulty(block, hc.genesis), TotalDifficulty(old(currentBlock), hc.genesis);
          extern > local || (extern == local && coin))
      ensures currentBlock == if status == Some(CanonStatTy) then block else old(currentBlock)
      ensures TotalDifficulty(currentBlock, hc.genesis) >= TotalDifficulty(old(currentBlock), hc.genesis)
    {
      ghost var c, index0 := currentBlock, index;
      status := WriteBlock(block, coin);
      ghost var before := index;
      if status == Some(CanonStatTy) {
        index := WriteTransactions(index, block);
      }
      if Exact(index0, c) {
        HeadIndexed(index0, before, index, c, currentBlock);
      }
    }
  }

  /** A block on top of genesis that holds a transaction twice is accepted and
      becomes the head, but no index is exact for it. */
  method RepeatedTransaction(g: Header, block: Header, t: TxHash, coin: bool) returns (bc: BlockChain, status: Option<WriteStatus>)
    requires g.number == 0 && g.txs == []
    requires block.parent == HashOf(g) && block.number == 1 && block.difficulty > 0 && block.txs == [t, t]
    ensures fresh(bc) && status == Some(CanonStatTy) && bc.currentBlock == block && bc.Stored() && !bc.Valid()
  {
    bc := new BlockChain(g);
    status := bc.InsertBlock(block, coin);
    assert Located(block, t, Position(HashOf(block), 1, 0)) && Located(block, t, Position(HashOf(block), 1, 1));
  }
}
