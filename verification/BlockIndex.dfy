/** The transaction lookup index: where on the canonical chain a transaction
    is (core/database_util.go:428-469, core/types/transaction.go:416-431). */
module BlockIndex {
  import opened TxTypes
  import opened ChainTypes

  datatype Position = Position(hash: Hash, number: nat, index: nat)

  type Index = map<TxHash, Position>

  predicate Inside(b: Header, t: TxHash, p: Position) {
    p.hash == HashOf(b) && p.number == b.number && p.index < |b.txs| && b.txs[p.index] == t
  }

  /** `p` is a place where the chain of `c` holds `t`. */
  ghost predicate Located(c: Header, t: TxHash, p: Position) {
    p.number <= c.number && Inside(Ancestor(c, p.number), t, p)
  }

  /** No transaction is on the chain of `c` twice. */
  ghost predicate NoRepeats(c: Header) {
    forall t, p, q :: Located(c, t, p) && Located(c, t, q) ==> p == q
  }

  ghost predicate ExactAt(index: Index, c: Header, t: TxHash, p: Position) {
    Located(c, t, p) <==> t in index && index[t] == p
  }

  /** The index holds exactly the transactions of the chain of `c`, each at its place. */
  ghost predicate Exact(index: Index, c: Header) {
    forall t, p {:trigger ExactAt(index, c, t, p)} :: ExactAt(index, c, t, p)
  }

  // ---- writing the transactions of one block ----

  ghost predicate WrittenAt(index: Index, index': Index, b: Header, t: TxHash) {
    && (t in b.txs ==> t in index' && Inside(b, t, index'[t]))
    && (t !in b.txs ==> (t in index' <==> t in index) && (t in index ==> index'[t] == index[t]))
  }

  ghost predicate Written(index: Index, index': Index, b: Header) {
    forall t {:trigger WrittenAt(index, index', b, t)} :: WrittenAt(index, index', b, t)
  }

  method WriteTransactions(index: Index, b: Header) returns (index': Index)
    ensures Written(index, index', b)
  {
    index' := index;
    for i := 0 to |b.txs|
      invariant forall t :: t in b.txs[..i] ==> t in index' && Inside(b, t, index'[t])
      invariant forall t :: t !in b.txs[..i] ==> (t in index' <==> t in index) && (t in index ==> index'[t] == index[t])
    {
      index' := index'[b.txs[i] := Position(HashOf(b), b.number, i)];
    }
    assert b.txs[..|b.txs|] == b.txs;
  }

  /** Transactions of `a` that are not in `b`. */
  method TxDifference(a: seq<TxHash>, b: seq<TxHash>) returns (keep: seq<TxHash>)
    ensures forall t :: t in keep <==> t in a && t !in b
    ensures multiset(keep) <= multiset(a)
  {
    var remove: set<TxHash> := {};
    for i := 0 to |b|
      invariant forall t :: t in remove <==> t in b[..i]
    {
      remove := remove + {b[i]};
    }
    keep := [];
    for i := 0 to |a|
      invariant forall t :: t in keep <==> t in a[..i] && t !in b
      invariant multiset(keep) <= multiset(a[..i])
    {
      assert a[..i + 1] == a[..i] + [a[i]];
      if a[i] !in remove {
        keep := keep + [a[i]];
      }
    }
    assert a[..|a|] == a;
  }

  method DeleteTransactions(index: Index, txs: seq<TxHash>) returns (index': Index)
    ensures forall t :: t in index' <==> t in index && t !in txs
    ensures forall t :: t in index' ==> index'[t] == index[t]
  {
    index' := index;
    for i := 0 to |txs|
      invariant forall t :: t in index' <==> t in index && t !in txs[..i]
      invariant forall t :: t in index' ==> index'[t] == index[t]
    {
      index' := index' - {txs[i]};
    }
    assert txs[..|txs|] == txs;
  }

  // ---- the new side of a reorganisation ----

  /** With the blocks of `c` above `lo` written over `index`: what is in `added`
      points into them, the rest is untouched. */
  ghost predicate AddedAt(index: Index, index': Index, c: Header, lo: nat, added: seq<TxHash>, t: TxHash) {
    && (t in added ==> t in index' && Located(c, t, index'[t]) && lo < index'[t].number)
    && (t !in added ==> (t in index' <==> t in index) && (t in index ==> index'[t] == index[t]))
  }

  /** `txs` misses no transaction above `lo` on the chain of `c`. */
  ghost predicate CoversAt(c: Header, lo: nat, txs: seq<TxHash>, t: TxHash, p: Position) {
    Located(c, t, p) && lo < p.number ==> t in txs
  }

  ghost predicate Covers(c: Header, lo: nat, txs: seq<TxHash>) {
    forall t, p {:trigger CoversAt(c, lo, txs, t, p)} :: CoversAt(c, lo, txs, t, p)
  }

  ghost predicate Added(index: Index, index': Index, c: Header, lo: nat, added: seq<TxHash>) {
    && (forall t {:trigger AddedAt(index, index', c, lo, added, t)} :: AddedAt(index, index', c, lo, added, t))
    && Covers(c, lo, added)
  }

  lemma CoversStep(c: Header, lo: nat, txs: seq<TxHash>)
    requires Covers(c, lo, txs) && 0 < lo
    ensures Covers(c, lo - 1, txs + Ancestor(c, lo).txs)
  {
    var lo', txs' := lo - 1, txs + Ancestor(c, lo).txs;
    forall t, p ensures CoversAt(c, lo', txs', t, p) {
      assert CoversAt(c, lo, txs, t, p);
      if Located(c, t, p) && p.number == lo {
        assert Ancestor(c, lo).txs[p.index] in txs';
      }
    }
  }

  lemma AddStep(index: Index, mid: Index, index': Index, c: Header, lo: nat, added: seq<TxHash>)
    requires Added(index, mid, c, lo, added) && 0 < lo <= c.number && Ancestor(c, lo).number == lo
    requires Written(mid, index', Ancestor(c, lo))
    ensures Added(index, index', c, lo - 1, added + Ancestor(c, lo).txs)
  {
    var lo', added' := lo - 1, added + Ancestor(c, lo).txs;
    forall t ensures AddedAt(index, index', c, lo', added', t) {
      assert AddedAt(index, mid, c, lo, added, t);
      assert WrittenAt(mid, index', Ancestor(c, lo), t);
    }
    CoversStep(c, lo, added);
  }

  lemma AddStart(index: Index, c: Header)
    ensures Added(index, index, c, c.number, []) && Covers(c, c.number, [])
  {
  }

  // ---- the old side ----

  /** `txs` are transactions that the index places above `lo`. */
  ghost predicate PlacedAbove(index: Index, lo: nat, txs: seq<TxHash>) {
    forall t :: t in txs ==> t in index && lo < index[t].number
  }

  lemma PlacedStep(index: Index, c: Header, lo: nat, txs: seq<TxHash>)
    requires Exact(index, c) && PlacedAbove(index, lo, txs) && 0 < lo <= c.number && Ancestor(c, lo).number == lo
    ensures PlacedAbove(index, lo - 1, txs + Ancestor(c, lo).txs)
  {
    var b := Ancestor(c, lo);
    forall t | t in txs + b.txs ensures t in index && lo - 1 < index[t].number {
      if t !in txs {
        var i :| 0 <= i < |b.txs| && b.txs[i] == t;
        assert ExactAt(index, c, t, Position(HashOf(b), lo, i));
      }
    }
  }

  // ---- both sides together ----

  /** After the new blocks were written and what only the old blocks held was
      deleted, the index is exact for the new chain. */
  lemma Reindexed(index: Index, mid: Index, index': Index, c: Header, h: Header, k: nat,
                  deleted: seq<TxHash>, added: seq<TxHash>)
    requires Exact(index, c) && NoRepeats(h)
    requires k <= c.number && k <= h.number && Ancestor(c, k) == Ancestor(h, k)
    requires Added(index, mid, h, k, added)
    requires Covers(c, k, deleted) && PlacedAbove(index, k, deleted)
    requires forall t :: t in index' <==> t in mid && !(t in deleted && t !in added)
    requires forall t :: t in index' ==> index'[t] == mid[t]
    ensures Exact(index', h)
  {
    forall t, p ensures ExactAt(index', h, t, p) {
      assert AddedAt(index, mid, h, k, added, t);
      assert ExactAt(index, c, t, p) && CoversAt(c, k, deleted, t, p) && CoversAt(h, k, added, t, p);
      SharedBelow(c, h, k, t, p);
      if Located(h, t, p) {
        StaysLocated(index, mid, index', c, h, k, deleted, added, t, p);
      }
    }
  }

  lemma SharedBelow(c: Header, h: Header, k: nat, t: TxHash, p: Position)
    requires k <= c.number && k <= h.number && Ancestor(c, k) == Ancestor(h, k)
    ensures p.number <= k ==> (Located(c, t, p) <==> Located(h, t, p))
  {
    if p.number <= k {
      AncestorOfAncestor(c, k, p.number);
      AncestorOfAncestor(h, k, p.number);
    }
  }

  lemma StaysLocated(index: Index, mid: Index, index': Index, c: Header, h: Header, k: nat,
                     deleted: seq<TxHash>, added: seq<TxHash>, t: TxHash, p: Position)
    requires Exact(index, c) && NoRepeats(h) && Located(h, t, p)
    requires k <= c.number && k <= h.number && Ancestor(c, k) == Ancestor(h, k)
    requires Added(index, mid, h, k, added) && PlacedAbove(index, k, deleted)
    requires forall t :: t in index' <==> t in mid && !(t in deleted && t !in added)
    requires forall t :: t in index' ==> index'[t] == mid[t]
    ensures t in index' && index'[t] == p
  {
    assert AddedAt(index, mid, h, k, added, t) && CoversAt(h, k, added, t, p);
    SharedBelow(c, h, k, t, p);
    assert ExactAt(index, c, t, p);
  }

  /** Writing a block on top of the chain it extends. */
  lemma ExtendedIndex(index: Index, index': Index, c: Header, h: Header)
    requires Exact(index, c) && NoRepeats(h) && h.parent == HashOf(c) && h.number == c.number + 1
    requires Written(index, index', h)
    ensures Exact(index', h)
  {
    forall t, p ensures ExactAt(index', h, t, p) {
      assert ExactAt(index, c, t, p) && WrittenAt(index, index', h, t);
      assert t in h.txs ==> Located(h, t, index'[t]);
      assert p.number <= c.number ==> Ancestor(h, p.number) == Ancestor(c, p.number);
      assert Located(h, t, p) && p.number == h.number ==> t in h.txs;
      if t in h.txs && Located(h, t, p) {
        assert index'[t] == p;
      }
    }
  }

  /** Writing the head block once more changes nothing that matters. */
  lemma RewrittenIndex(index: Index, index': Index, h: Header)
    requires Exact(index, h) && NoRepeats(h) && Written(index, index', h)
    ensures Exact(index', h)
  {
    forall t, p ensures ExactAt(index', h, t, p) {
      assert ExactAt(index, h, t, p) && WrittenAt(index, index', h, t);
      if t in h.txs {
        assert Located(h, t, index'[t]);
        assert ExactAt(index, h, t, index'[t]);
      }
    }
  }

  /** An index can be exact only for a chain without repeats. */
  lemma ExactMeansNoRepeats(index: Index, c: Header)
    requires Exact(index, c)
    ensures NoRepeats(c)
  {
    forall t, p, q | Located(c, t, p) && Located(c, t, q) ensures p == q {
      assert ExactAt(index, c, t, p) && ExactAt(index, c, t, q);
    }
  }
}
