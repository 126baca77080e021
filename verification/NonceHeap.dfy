/**
 The binary min-heap of nonces that indexes a transaction list (`nonceHeap` of
 core/tx_list.go driven by Go's container/heap). Slices are sequences that the
 operations reassign; `Up`, `Down`, `Init`, `Push`, `Pop` and `Remove` follow the
 library's loops.
 */
module NonceHeap {

  function Parent(k: nat): (p: nat)
    requires 0 < k
  {
    (k - 1) / 2
  }

  /** `h` is a binary min-heap. */
  predicate Ordered(h: seq<nat>) {
    forall k :: 0 < k < |h| ==> h[Parent(k)] <= h[k]
  }

  /** All edges of `h[..n]` that hang from `lo` or later hold, except possibly
      the edge above `i` and (unless `below`) the edges from `i` to its
      children; the children of `i` are not below the parent of `i`. */
  ghost predicate OrderedAround(h: seq<nat>, n: nat, lo: nat, i: nat, below: bool)
    requires n <= |h|
  {
    && (forall k :: 0 < k < n && lo <= Parent(k) && k != i && (below || Parent(k) != i) ==> h[Parent(k)] <= h[k])
    && (forall k :: 0 < k < n && Parent(k) == i && 0 < i && lo <= Parent(i) ==> h[Parent(i)] <= h[k])
  }

  function Swap(h: seq<nat>, i: nat, j: nat): (r: seq<nat>)
    requires i < |h| && j < |h|
    ensures |r| == |h| && r[i] == h[j] && r[j] == h[i]
    ensures forall k :: 0 <= k < |h| && k != i && k != j ==> r[k] == h[k]
    ensures multiset(r) == multiset(h)
  {
    h[i := h[j]][j := h[i]]
  }

  /** The root of a heap is a minimum. */
  lemma {:induction false} RootIsMinimum(h: seq<nat>, k: nat)
    requires Ordered(h) && k < |h|
    ensures h[0] <= h[k]
    decreases k
  {
    if k > 0 {
      RootIsMinimum(h, Parent(k));
    }
  }

  /** Swapping a too small element with its parent moves the disorder up. */
  lemma RiseStep(h: seq<nat>, n: nat, j: nat)
    requires 0 < j < n <= |h| && h[j] < h[Parent(j)]
    requires OrderedAround(h, n, 0, j, true)
    ensures OrderedAround(Swap(h, Parent(j), j), n, 0, Parent(j), true)
  {
  }

  lemma RiseDone(h: seq<nat>, n: nat, j: nat)
    requires j < n <= |h| && OrderedAround(h, n, 0, j, true)
    requires j == 0 || h[Parent(j)] <= h[j]
    ensures Ordered(h[..n])
  {
    assert forall k :: 0 < k < n ==> h[Parent(k)] <= h[k];
  }

  method Up(h: seq<nat>, j0: nat, n: nat) returns (r: seq<nat>)
    requires j0 < n <= |h| && OrderedAround(h, n, 0, j0, true)
    ensures |r| == |h| && multiset(r) == multiset(h)
    ensures r[n..] == h[n..]
    ensures Ordered(r[..n])
  {
    r := h;
    var j: nat := j0;
    while j > 0 && r[j] < r[Parent(j)]
      invariant j < n <= |r| == |h| && multiset(r) == multiset(h)
      invariant r[n..] == h[n..]
      invariant OrderedAround(r, n, 0, j, true)
      decreases j
    {
      RiseStep(r, n, j);
      r := Swap(r, Parent(j), j);
      j := Parent(j);
    }
    RiseDone(r, n, j);
  }

  /** Swapping a too large element with its smaller child moves the disorder
      down to that child. */
  lemma SiftStep(h: seq<nat>, n: nat, lo: nat, i: nat, j: nat)
    requires lo <= i < j < n <= |h| && Parent(j) == i && h[j] < h[i]
    requires OrderedAround(h, n, lo, i, false)
    requires forall k :: 0 < k < n && Parent(k) == i ==> h[j] <= h[k]
    ensures OrderedAround(Swap(h, i, j), n, lo, j, false)
  {
    var s := Swap(h, i, j);
    forall k | 0 < k < n && lo <= Parent(k) && k != j && Parent(k) != j
      ensures s[Parent(k)] <= s[k]
    {
      if k == i {
        assert h[Parent(i)] <= h[j];
      }
    }
  }

  lemma SiftDone(h: seq<nat>, n: nat, lo: nat, i0: nat, i: nat)
    requires lo <= i0 <= i <= n <= |h| && OrderedAround(h, n, lo, i, false)
    requires i > i0 ==> i < n && lo <= Parent(i) && h[Parent(i)] <= h[i]
    requires forall k :: 0 < k < n && Parent(k) == i ==> h[i] <= h[k]
    ensures OrderedAround(h, n, lo, i0, true)
  {
    if i > i0 {
      assert forall k :: 0 < k < n && lo <= Parent(k) ==> h[Parent(k)] <= h[k];
    }
  }

  method Down(h: seq<nat>, i0: nat, n: nat, ghost lo: nat) returns (r: seq<nat>)
    requires lo <= i0 <= n <= |h| && OrderedAround(h, n, lo, i0, false)
    ensures |r| == |h| && multiset(r) == multiset(h)
    ensures r[n..] == h[n..]
    ensures OrderedAround(r, n, lo, i0, true)
  {
    r := h;
    var i: nat := i0;
    while 2 * i + 1 < n
      invariant i0 <= i <= n <= |r| == |h| && multiset(r) == multiset(h)
      invariant r[n..] == h[n..]
      invariant OrderedAround(r, n, lo, i, false)
      invariant i > i0 ==> i < n && lo <= Parent(i) && r[Parent(i)] <= r[i]
      decreases n - i
    {
      var j := SmallerChild(r, i, n);
      if !(r[j] < r[i]) { break; }
      SiftStep(r, n, lo, i, j);
      r := Swap(r, i, j);
      i := j;
    }
    SiftDone(r, n, lo, i0, i);
  }

  function SmallerChild(h: seq<nat>, i: nat, n: nat): (j: nat)
    requires 2 * i + 1 < n <= |h|
    ensures i < j < n && Parent(j) == i
    ensures forall k :: 0 < k < n && Parent(k) == i ==> h[j] <= h[k]
  {
    var j1, j2 := 2 * i + 1, 2 * i + 2;
    if j2 < n && !(h[j1] < h[j2]) then j2 else j1
  }

  method Init(h: seq<nat>) returns (r: seq<nat>)
    ensures |r| == |h| && multiset(r) == multiset(h) && Ordered(r)
  {
    r := h;
    var i := |h| / 2;
    while i > 0
      invariant 0 <= i <= |h| / 2 && |r| == |h| && multiset(r) == multiset(h)
      invariant forall k :: 0 < k < |r| && i <= Parent(k) ==> r[Parent(k)] <= r[k]
    {
      i := i - 1;
      r := Down(r, i, |r|, i);
    }
  }

  method Push(h: seq<nat>, x: nat) returns (r: seq<nat>)
    requires Ordered(h)
    ensures Ordered(r) && multiset(r) == multiset(h) + multiset{x}
  {
    r := h + [x];
    assert forall k :: 0 < k < |h| ==> h[Parent(k)] <= h[k];
    r := Up(r, |r| - 1, |r|);
    assert r == r[..|r|];
  }

  method Pop(h: seq<nat>) returns (r: seq<nat>, x: nat)
    requires Ordered(h) && |h| > 0
    ensures Ordered(r) && multiset(h) == multiset(r) + multiset{x}
    ensures x == h[0] && |r| == |h| - 1
    ensures forall k :: 0 <= k < |h| ==> x <= h[k]
  {
    forall k | 0 <= k < |h| ensures h[0] <= h[k] { RootIsMinimum(h, k); }
    var n := |h| - 1;
    var s := Swap(h, 0, n);
    assert forall k :: 0 < k < |h| ==> h[Parent(k)] <= h[k];
    s := Down(s, 0, n, 0);
    r, x := s[..n], s[n];
    assert s == r + [x];
    assert s[n..][0] == x;
    assert forall k :: 0 < k < n ==> s[Parent(k)] <= s[k];
  }

  method RemoveAt(h: seq<nat>, i: nat) returns (r: seq<nat>, x: nat)
    requires Ordered(h) && i < |h|
    ensures Ordered(r) && multiset(h) == multiset(r) + multiset{x}
    ensures x == h[i] && |r| == |h| - 1
  {
    var n := |h| - 1;
    var s := h;
    if n != i {
      s := Swap(h, i, n);
      assert OrderedAround(s, n, 0, i, false) by {
        assert forall k :: 0 < k < |h| ==> h[Parent(k)] <= h[k];
      }
      s := Down(s, i, n, 0);
      s := Up(s, i, n);
      assert s[n..][0] == h[i];
    }
    r, x := s[..n], s[n];
    assert s == r + [x];
  }
}
