/**
 The plain sorted map that a transaction list stands for: a map from nonce to
 transaction, its nonce-sorted contents, and what each list operation means on
 it. Nothing here knows about heaps or caches.
 */
module SortedTxs {
  import opened TxTypes

  type Items = map<nat, Tx>

  /** Every transaction is filed under its own nonce. */
  predicate Keyed(items: Items) {
    forall n :: n in items ==> items[n].nonce == n
  }

  /** The nonces form one interval. */
  ghost predicate GapFree(s: set<nat>) {
    forall a, b, c :: a in s && c in s && a < b < c ==> b in s
  }

  // ---- least and greatest nonce ----

  lemma {:induction false} FindLeast(s: set<nat>) returns (m: nat)
    requires s != {}
    ensures m in s && forall k :: k in s ==> m <= k
    decreases |s|
  {
    m :| m in s;
    if s != {m} {
      var x := FindLeast(s - {m});
      assert forall k :: k in s ==> k == m || k in s - {m};
      m := if x < m then x else m;
    }
  }

  lemma {:induction false} FindGreatest(s: set<nat>) returns (m: nat)
    requires s != {}
    ensures m in s && forall k :: k in s ==> k <= m
    decreases |s|
  {
    m :| m in s;
    if s != {m} {
      var x := FindGreatest(s - {m});
      assert forall k :: k in s ==> k == m || k in s - {m};
      m := if x > m then x else m;
    }
  }

  function Least(s: set<nat>): (m: nat)
    requires s != {}
    ensures m in s && forall k :: k in s ==> m <= k
  {
    assert exists m :: m in s && forall k :: k in s ==> m <= k by { var m := FindLeast(s); }
    var m :| m in s && forall k :: k in s ==> m <= k;
    m
  }

  function Greatest(s: set<nat>): (m: nat)
    requires s != {}
    ensures m in s && forall k :: k in s ==> k <= m
  {
    assert exists m :: m in s && forall k :: k in s ==> k <= m by { var m := FindGreatest(s); }
    var m :| m in s && forall k :: k in s ==> k <= m;
    m
  }

  // ---- the nonce-sorted contents ----

  predicate StrictlyByNonce(txs: seq<Tx>) {
    forall i, j :: 0 <= i < j < |txs| ==> txs[i].nonce < txs[j].nonce
  }

  /** `txs` is the contents of `items` in nonce order. */
  ghost predicate FlatOf(txs: seq<Tx>, items: Items) {
    && StrictlyByNonce(txs)
    && (forall i :: 0 <= i < |txs| ==> txs[i].nonce in items && items[txs[i].nonce] == txs[i])
    && |txs| == |items|
  }

  function Flat(items: Items): (txs: seq<Tx>)
    requires Keyed(items)
    ensures |txs| == |items|
    decreases |items|
  {
    if |items| == 0 then [] else
      var m := Greatest(items.Keys);
      RemoveKey(items, m);
      Flat(items - {m}) + [items[m]]
  }

  lemma {:induction false} FlatIsListing(items: Items)
    requires Keyed(items)
    ensures FlatOf(Flat(items), items)
    decreases |items|
  {
    if |items| != 0 {
      var m := Greatest(items.Keys);
      RemoveKey(items, m);
      FlatIsListing(items - {m});
    }
  }

  lemma RemoveKey(items: Items, n: nat)
    requires n in items
    ensures |items - {n}| == |items| - 1
  {
    assert (items - {n}).Keys == items.Keys - {n};
  }

  lemma {:induction false} NonceSet(txs: seq<Tx>)
    requires StrictlyByNonce(txs)
    ensures |set i | 0 <= i < |txs| :: txs[i].nonce as nat| == |txs|
  {
    if txs != [] {
      var l := |txs| - 1;
      NonceSet(txs[..l]);
      assert (set i | 0 <= i < |txs| :: txs[i].nonce as nat)
          == (set i | 0 <= i < l :: txs[..l][i].nonce as nat) + {txs[l].nonce as nat};
    }
  }

  /** Every listed nonce has a position in the sorted contents. */
  lemma PositionOf(txs: seq<Tx>, items: Items, n: nat) returns (i: nat)
    requires FlatOf(txs, items) && n in items
    ensures i < |txs| && txs[i].nonce == n
  {
    var s := set i | 0 <= i < |txs| :: txs[i].nonce as nat;
    NonceSet(txs);
    SameSize(s, items.Keys);
    assert n in s;
    i :| 0 <= i < |txs| && txs[i].nonce == n;
  }

  lemma {:induction false} SameSize<T>(a: set<T>, b: set<T>)
    requires a <= b && |a| == |b|
    ensures a == b
  {
    assert b == a + (b - a);
  }

  /** There is only one sorted listing of a map. */
  lemma {:induction false} FlatUnique(a: seq<Tx>, b: seq<Tx>, items: Items)
    requires FlatOf(a, items) && FlatOf(b, items)
    ensures a == b
    decreases |a|
  {
    if a != [] {
      var l := |a| - 1;
      var i := PositionOf(a, items, b[l].nonce);
      var j := PositionOf(b, items, a[l].nonce);
      assert a[l] == b[l];
      RemoveKey(items, a[l].nonce);
      FlatUnique(a[..l], b[..l], items - {a[l].nonce as nat});
      assert a == a[..l] + [a[l]] && b == b[..l] + [b[l]];
    }
  }

  // ---- what the list operations mean ----

  function Below(items: Items, t: nat): Items {
    map n | n in items && n < t :: items[n]
  }

  function From(items: Items, t: nat): Items {
    map n | n in items && n >= t :: items[n]
  }

  function Selected(items: Items, filter: Tx -> bool): Items {
    map n | n in items && filter(items[n]) :: items[n]
  }

  function Unselected(items: Items, filter: Tx -> bool): Items {
    map n | n in items && !filter(items[n]) :: items[n]
  }

  /** Number of listed nonces below `n`. */
  function Rank(s: set<nat>, n: nat): nat {
    |set k | k in s && k < n|
  }

  /** The `c` transactions of lowest nonce. */
  function Capped(items: Items, c: nat): Items {
    map n | n in items && Rank(items.Keys, n) < c :: items[n]
  }

  /** First nonce from `n` on that is not listed. */
  function RunEnd(s: set<nat>, n: nat): (e: nat)
    ensures n <= e && e !in s && forall k :: n <= k < e ==> k in s
    decreases |set k | k in s && k >= n|
  {
    if n !in s then n else
      assert (set k | k in s && k >= n) == (set k | k in s && k >= n + 1) + {n};
      RunEnd(s, n + 1)
  }

  lemma {:induction false} RunEndUnique(s: set<nat>, n: nat, e: nat)
    requires n <= e && e !in s && forall k :: n <= k < e ==> k in s
    ensures RunEnd(s, n) == e
  {
    var r := RunEnd(s, n);
    assert r < e ==> r in s;
    assert e < r ==> e in s;
  }

  /** Exclusive upper end of the run that is ready for processing at `start`:
      nothing is ready when the lowest listed nonce is above `start`. */
  function ReadyEnd(s: set<nat>, start: nat): (e: nat) {
    if s == {} || Least(s) > start then 0 else RunEnd(s, Least(s))
  }

  // ---- cutting the sorted contents ----

  /** The transaction of least nonce comes first. */
  lemma FlatFirst(flat: seq<Tx>, items: Items, m: nat)
    requires FlatOf(flat, items) && m in items && forall n :: n in items ==> m <= n
    ensures |flat| > 0 && flat[0] == items[m]
    ensures FlatOf(flat[1..], items - {m})
  {
    var i := PositionOf(flat, items, m);
    assert flat[0].nonce in items;
    RemoveKey(items, m);
  }

  /** Splitting by a nonce threshold splits the sorted contents. */
  lemma FlatSplit(flat: seq<Tx>, items: Items, k: nat, t: nat)
    requires k <= |flat| && FlatOf(flat, items) && FlatOf(flat[k..], From(items, t))
    ensures FlatOf(flat[..k], Below(items, t))
  {
    assert items.Keys == Below(items, t).Keys + From(items, t).Keys;
    forall i | 0 <= i < k ensures flat[i].nonce < t {
      if flat[i].nonce >= t {
        var j := PositionOf(flat[k..], From(items, t), flat[i].nonce);
        assert false;
      }
    }
  }

  /** The rank of a nonce is its position in the sorted contents. */
  lemma {:induction false} RankIsPosition(txs: seq<Tx>, items: Items, i: nat)
    requires FlatOf(txs, items) && i < |txs|
    ensures Rank(items.Keys, txs[i].nonce) == i
  {
    var below := set k | k in items.Keys && k < txs[i].nonce;
    NonceSet(txs[..i]);
    var front := set j | 0 <= j < i :: txs[..i][j].nonce as nat;
    forall k | k in below ensures k in front {
      var j := PositionOf(txs, items, k);
      assert j < i && txs[..i][j].nonce == k;
    }
    assert below == front;
  }

  /** Capping keeps a prefix of the sorted contents. */
  lemma CappedListing(txs: seq<Tx>, items: Items, c: nat, d: nat)
    requires FlatOf(txs, items) && d == if c <= |txs| then c else |txs|
    ensures FlatOf(txs[..d], Capped(items, c))
  {
    var kept, front := Capped(items, c), set i | 0 <= i < d :: txs[..d][i].nonce as nat;
    NonceSet(txs[..d]);
    forall n ensures n in front <==> n in kept {
      KeptInFront(txs, items, c, d, n);
    }
    assert front == kept.Keys;
  }

  lemma KeptInFront(txs: seq<Tx>, items: Items, c: nat, d: nat, n: nat)
    requires FlatOf(txs, items) && d == if c <= |txs| then c else |txs|
    ensures n in Capped(items, c) <==> n in (set i | 0 <= i < d :: txs[..d][i].nonce as nat)
  {
    if n in Capped(items, c) {
      var i := PositionOf(txs, items, n);
      RankIsPosition(txs, items, i);
      assert txs[..d][i].nonce == n;
    }
    if n in (set i | 0 <= i < d :: txs[..d][i].nonce as nat) {
      var i :| 0 <= i < d && txs[..d][i].nonce == n;
      RankIsPosition(txs, items, i);
    }
  }

  /** Lowering the cap by one drops the last kept transaction. */
  lemma CappedStep(txs: seq<Tx>, items: Items, c: nat)
    requires FlatOf(txs, items) && 0 < c <= |items|
    ensures txs[c - 1].nonce in Capped(items, c)
    ensures Capped(items, c - 1) == Capped(items, c) - {txs[c - 1].nonce as nat}
  {
    RankIsPosition(txs, items, c - 1);
    forall n | n in items && Rank(items.Keys, n) == c - 1 ensures n == txs[c - 1].nonce {
      RankIsInjective(txs, items, n, c - 1);
    }
  }

  lemma RankIsInjective(txs: seq<Tx>, items: Items, n: nat, c: nat)
    requires FlatOf(txs, items) && n in items && Rank(items.Keys, n) == c
    ensures c < |txs| && n == txs[c].nonce
  {
    var i := PositionOf(txs, items, n);
    RankIsPosition(txs, items, i);
  }

  /** A cap that is not reached changes nothing. */
  lemma CappedAll(items: Items, c: nat)
    requires |items| <= c
    ensures Capped(items, c) == items
  {
    forall n | n in items ensures Rank(items.Keys, n) < c {
      RankBelowSize(items.Keys, n);
    }
  }

  lemma RankBelowSize(s: set<nat>, n: nat)
    requires n in s
    ensures Rank(s, n) < |s|
  {
    var below := set k | k in s && k < n;
    SubsetSize(below + {n}, s);
  }

  /** A cap keeps as many transactions as it allows. */
  lemma CappedSize(items: Items, c: nat)
    requires Keyed(items)
    ensures |Capped(items, c)| == if c <= |items| then c else |items|
  {
    FlatIsListing(items);
    CappedListing(Flat(items), items, c, if c <= |items| then c else |items|);
  }

  // ---- listings in other orders ----

  /** `txs` lists exactly the transactions of `items`, once each, in some order. */
  ghost predicate Enumerates(txs: seq<Tx>, items: Items) {
    && (forall i :: 0 <= i < |txs| ==> txs[i].nonce in items && items[txs[i].nonce] == txs[i])
    && multiset(NoncesOf(txs)) == multiset(items.Keys)
  }

  lemma EnumerateMore(txs: seq<Tx>, items: Items, tx: Tx)
    requires Enumerates(txs, items) && tx.nonce !in items
    ensures Enumerates(txs + [tx], items[tx.nonce as nat := tx])
  {
    assert NoncesOf(txs + [tx]) == NoncesOf(txs) + [tx.nonce as nat];
    assert items[tx.nonce as nat := tx].Keys == items.Keys + {tx.nonce as nat};
  }

  lemma EnumeratedAt(txs: seq<Tx>, items: Items, n: nat) returns (i: nat)
    requires Enumerates(txs, items) && n in items
    ensures i < |txs| && txs[i] == items[n]
  {
    assert n in multiset(NoncesOf(txs));
    i :| 0 <= i < |NoncesOf(txs)| && NoncesOf(txs)[i] == n;
  }

  function NoncesOf(txs: seq<Tx>): (r: seq<nat>) {
    seq(|txs|, i requires 0 <= i < |txs| => txs[i].nonce as nat)
  }

  /** Capping twice is capping once at the lower limit. */
  lemma CappedCapped(items: Items, c: nat, d: nat)
    requires d <= c
    ensures Capped(Capped(items, c), d) == Capped(items, d)
  {
    var once := Capped(items, c);
    forall n | n in once ensures Rank(once.Keys, n) == Rank(items.Keys, n) {
      assert (set k | k in once.Keys && k < n) == (set k | k in items.Keys && k < n) by {
        forall k | k in items.Keys && k < n ensures k in once {
          assert (set j | j in items.Keys && j < k) <= (set j | j in items.Keys && j < n);
          SubsetSize(set j | j in items.Keys && j < k, set j | j in items.Keys && j < n);
        }
      }
    }
  }

  lemma {:induction false} SubsetSize<T>(a: set<T>, b: set<T>)
    requires a <= b
    ensures |a| <= |b|
  {
    assert b == a + (b - a);
  }
}
