/**
 `txSortedMap` of core/tx_list.go: a nonce-keyed map, a heap of its nonces and
 a cache of the sorted contents, all updated in place. Every method keeps
 `Valid` and is proved against the plain sorted map of `SortedTxs`.
 */
module TxSortedMaps {
  import opened Basics
  import opened TxTypes
  import opened SortedTxs
  import NonceHeap

  /** The slice lists exactly the given nonces, once each. */
  ghost predicate Indexes(index: seq<nat>, nonces: set<nat>) {
    multiset(index) == multiset(nonces)
  }

  lemma IndexFacts(index: seq<nat>, nonces: set<nat>)
    requires Indexes(index, nonces)
    ensures |index| == |nonces|
    ensures forall n :: n in index <==> n in nonces
  {
    assert |multiset(index)| == |multiset(nonces)|;
    forall n ensures n in index <==> n in nonces {
      assert n in multiset(index) <==> n in multiset(nonces);
    }
  }

  lemma IndexAdd(index: seq<nat>, more: seq<nat>, nonces: set<nat>, n: nat)
    requires Indexes(index, nonces) && n !in nonces && multiset(more) == multiset(index) + multiset{n}
    ensures Indexes(more, nonces + {n})
  {
  }

  lemma IndexRemove(index: seq<nat>, rest: seq<nat>, nonces: set<nat>, n: nat)
    requires Indexes(index, nonces) && multiset(index) == multiset(rest) + multiset{n}
    ensures n in nonces && Indexes(rest, nonces - {n})
  {
    assert multiset(nonces)[n] >= 1;
    assert multiset(rest) == multiset(nonces) - multiset{n};
    assert multiset(nonces - {n}) == multiset(nonces) - multiset{n};
  }

  /** The root of the heap is the least listed nonce. */
  lemma RootIsLeast(index: seq<nat>, nonces: set<nat>)
    requires NonceHeap.Ordered(index) && Indexes(index, nonces) && index != []
    ensures index[0] in nonces && forall n :: n in nonces ==> index[0] <= n
  {
    IndexFacts(index, nonces);
    forall n | n in nonces ensures index[0] <= n {
      var i :| 0 <= i < |index| && index[i] == n;
      NonceHeap.RootIsMinimum(index, i);
    }
  }

  /** The nonces of a sorted listing index its map. */
  lemma {:induction false} ListingIndexes(txs: seq<Tx>, items: Items)
    requires FlatOf(txs, items)
    ensures Indexes(NoncesOf(txs), items.Keys)
  {
    var r := NoncesOf(txs);
    if txs == [] {
      assert items.Keys == {};
    } else {
      var l := |txs| - 1;
      var n: nat := txs[l].nonce;
      RemoveKey(items, n);
      ListingIndexes(txs[..l], items - {n});
      assert r == NoncesOf(txs[..l]) + [n];
      assert (items - {n}).Keys == items.Keys - {n};
    }
  }

  predicate Ascending(s: seq<nat>) {
    forall i, j :: 0 <= i < j < |s| ==> s[i] <= s[j]
  }

  /** Sorting is unique. */
  lemma {:induction false} AscendingUnique(a: seq<nat>, b: seq<nat>)
    requires Ascending(a) && Ascending(b) && multiset(a) == multiset(b)
    ensures a == b
  {
    assert |a| == |multiset(a)| == |b|;
    if a != [] {
      var l := |a| - 1;
      LastNotBelow(a, b);
      LastNotBelow(b, a);
      ButLast(a);
      ButLast(b);
      AscendingUnique(a[..l], b[..l]);
    }
  }

  lemma ButLast(a: seq<nat>)
    requires a != []
    ensures a == a[..|a| - 1] + [a[|a| - 1]]
    ensures multiset(a[..|a| - 1]) == multiset(a) - multiset{a[|a| - 1]}
  {
    assert a == a[..|a| - 1] + [a[|a| - 1]];
  }

  lemma LastNotBelow(a: seq<nat>, b: seq<nat>)
    requires Ascending(a) && multiset(a) == multiset(b) && a != [] && b != []
    ensures b[|b| - 1] <= a[|a| - 1]
  {
    assert b[|b| - 1] in multiset(a);
    var i :| 0 <= i < |a| && a[i] == b[|b| - 1];
  }

  /** A sorted index is the nonce column of the sorted contents. */
  lemma SortedIndex(index: seq<nat>, flat: seq<Tx>, items: Items)
    requires FlatOf(flat, items) && Indexes(index, items.Keys) && Ascending(index)
    ensures index == NoncesOf(flat)
  {
    ListingIndexes(flat, items);
    AscendingUnique(index, NoncesOf(flat));
  }

  /** sort.Sort on the index. */
  method SortNonces(s: seq<nat>) returns (r: seq<nat>)
    ensures multiset(r) == multiset(s) && Ascending(r)
  {
    r := [];
    for k := 0 to |s|
      invariant multiset(r) == multiset(s[..k]) && Ascending(r)
    {
      assert s[..k + 1] == s[..k] + [s[k]];
      r := InsertNonce(r, s[k]);
    }
    assert s[..|s|] == s;
  }

  method InsertNonce(s: seq<nat>, x: nat) returns (r: seq<nat>)
    requires Ascending(s)
    ensures multiset(r) == multiset(s) + multiset{x} && Ascending(r)
  {
    var p := 0;
    while p < |s| && s[p] <= x
      invariant 0 <= p <= |s|
      invariant forall i :: 0 <= i < p ==> s[i] <= x
    {
      p := p + 1;
    }
    r := s[..p] + [x] + s[p..];
    InsertedMultiset(s, p, x);
  }

  lemma InsertedMultiset(s: seq<nat>, p: nat, x: nat)
    requires p <= |s|
    ensures multiset(s[..p] + [x] + s[p..]) == multiset(s) + multiset{x}
  {
    assert s == s[..p] + s[p..];
  }

  // ---- one step of each loop ----

  /** `taken` has been cut off the front of the sorted contents, which go on
      with what is still in the map. */
  ghost predicate Taken(flat: seq<Tx>, taken: seq<Tx>, items: Items) {
    && |taken| <= |flat| && taken == flat[..|taken|]
    && FlatOf(flat[|taken|..], items)
  }

  lemma TakeFirst(flat: seq<Tx>, taken: seq<Tx>, items: Items, n: nat)
    requires Taken(flat, taken, items) && n in items && forall k :: k in items ==> n <= k
    ensures Taken(flat, taken + [items[n]], items - {n})
  {
    FlatFirst(flat[|taken|..], items, n);
    assert flat[|taken|..][1..] == flat[|taken| + 1..];
  }

  lemma FromWithout(items: Items, n: nat, t: nat)
    requires n < t
    ensures From(items - {n}, t) == From(items, t)
  {
  }

  /** When the root is not below the threshold, nothing is. */
  lemma NothingBelow(index: seq<nat>, items: Items, t: nat)
    requires NonceHeap.Ordered(index) && Indexes(index, items.Keys)
    requires index == [] || index[0] >= t
    ensures items == From(items, t)
  {
    IndexFacts(index, items.Keys);
    if index != [] {
      RootIsLeast(index, items.Keys);
    }
  }

  ghost function KeptSoFar(orig: Items, todo: set<nat>, filter: Tx -> bool): Items {
    map n | n in orig && (n in todo || !filter(orig[n])) :: orig[n]
  }

  ghost function DroppedSoFar(orig: Items, todo: set<nat>, filter: Tx -> bool): Items {
    map n | n in orig && n !in todo && filter(orig[n]) :: orig[n]
  }

  lemma SelectionStart(orig: Items, filter: Tx -> bool)
    ensures KeptSoFar(orig, orig.Keys, filter) == orig
    ensures Enumerates([], DroppedSoFar(orig, orig.Keys, filter))
  {
    assert DroppedSoFar(orig, orig.Keys, filter) == map[];
  }

  lemma SelectionStep(orig: Items, todo: set<nat>, removed: seq<Tx>, n: nat, filter: Tx -> bool)
    requires Keyed(orig) && n in orig && n in todo
    requires Enumerates(removed, DroppedSoFar(orig, todo, filter))
    ensures n in KeptSoFar(orig, todo, filter) && KeptSoFar(orig, todo, filter)[n] == orig[n]
    ensures KeptSoFar(orig, todo - {n}, filter) ==
            if filter(orig[n]) then KeptSoFar(orig, todo, filter) - {n} else KeptSoFar(orig, todo, filter)
    ensures Enumerates(if filter(orig[n]) then removed + [orig[n]] else removed,
                       DroppedSoFar(orig, todo - {n}, filter))
  {
    var before, after := DroppedSoFar(orig, todo, filter), DroppedSoFar(orig, todo - {n}, filter);
    if filter(orig[n]) {
      assert after == before[n := orig[n]];
      EnumerateMore(removed, before, orig[n]);
    } else {
      assert after == before;
    }
  }

  lemma SelectionDone(orig: Items, removed: seq<Tx>, filter: Tx -> bool)
    requires Enumerates(removed, DroppedSoFar(orig, {}, filter))
    ensures KeptSoFar(orig, {}, filter) == Unselected(orig, filter)
    ensures Enumerates(removed, Selected(orig, filter))
    ensures removed == [] ==> Unselected(orig, filter) == orig
  {
    assert DroppedSoFar(orig, {}, filter) == Selected(orig, filter);
    if removed == [] {
      assert |Selected(orig, filter).Keys| == |multiset(Selected(orig, filter).Keys)| == |NoncesOf(removed)| == 0;
      assert forall n :: n in orig && filter(orig[n]) ==> n in Selected(orig, filter).Keys;
    }
  }

  /** One round of the loop in Cap. */
  lemma DropStep(flat: seq<Tx>, orig: Items, drops: seq<Tx>, size: nat)
    requires FlatOf(flat, orig) && 0 < size <= |orig| && drops == Reversed(flat[size..])
    ensures flat[size - 1].nonce in Capped(orig, size)
    ensures Capped(orig, size) - {flat[size - 1].nonce as nat} == Capped(orig, size - 1)
    ensures drops + [Capped(orig, size)[flat[size - 1].nonce]] == Reversed(flat[size - 1..])
  {
    CappedStep(flat, orig, size);
    assert flat[size - 1..] == [flat[size - 1]] + flat[size..];
  }

  /** The kept front of the sorted index indexes the capped map; the dropped
      back lists the rest. */
  lemma CapDone(flat: seq<Tx>, orig: Items, c: nat)
    requires FlatOf(flat, orig) && c < |orig|
    ensures Indexes(NoncesOf(flat)[..c], Capped(orig, c).Keys)
    ensures FlatOf(flat[..c], Capped(orig, c))
    ensures FlatOf(flat[c..], orig - Capped(orig, c).Keys)
  {
    var kept := Capped(orig, c);
    CappedListing(flat, orig, c, c);
    ListingIndexes(flat[..c], kept);
    assert NoncesOf(flat)[..c] == NoncesOf(flat[..c]);
    assert orig.Keys == kept.Keys + (orig - kept.Keys).Keys;
    forall i | c <= i < |flat| ensures flat[i].nonce !in kept {
      RankIsPosition(flat, orig, i);
    }
  }

  lemma NothingCapped(items: Items, c: nat)
    requires |items| <= c
    ensures Capped(items, c) == items
    ensures FlatOf(Reversed([]), items - items.Keys)
  {
    CappedAll(items, c);
    assert items - items.Keys == map[];
  }

  lemma NothingReady(index: seq<nat>, items: Items, start: nat)
    requires NonceHeap.Ordered(index) && Indexes(index, items.Keys) && Keyed(items)
    requires index == [] || index[0] > start
    ensures items == From(items, ReadyEnd(items.Keys, start))
    ensures FlatOf([], Below(items, ReadyEnd(items.Keys, start)))
  {
    IndexFacts(index, items.Keys);
    if index != [] { RootIsLeast(index, items.Keys); }
    assert ReadyEnd(items.Keys, start) == 0;
    assert Below(items, 0) == map[];
  }

  /** The nonces taken by Ready so far are the run from `first` up to `next`. */
  ghost predicate RunTaken(orig: Items, items: Items, first: nat, next: nat) {
    && first <= next
    && items == From(orig, next)
    && forall k :: first <= k < next ==> k in orig
  }

  lemma RunStep(orig: Items, items: Items, first: nat, next: nat)
    requires RunTaken(orig, items, first, next) && next in items
    ensures RunTaken(orig, items - {next}, first, next + 1)
  {
  }

  /** The loop in Ready stops at the first missing nonce. */
  lemma RunStops(index: seq<nat>, orig: Items, items: Items, start: nat, first: nat, next: nat)
    requires NonceHeap.Ordered(index) && Indexes(index, items.Keys) && RunTaken(orig, items, first, next)
    requires index == [] || index[0] != next
    requires first in orig && first <= start && forall n :: n in orig ==> first <= n
    ensures ReadyEnd(orig.Keys, start) == next
  {
    IndexFacts(index, items.Keys);
    if index != [] { RootIsLeast(index, items.Keys); }
    assert next !in items;
    RunEndUnique(orig.Keys, first, next);
    assert Least(orig.Keys) == first;
  }

  class TxSortedMap {
    var items: Items
    var index: seq<nat>
    var cache: Option<seq<Tx>>

    /** The heap holds exactly the nonces of the map, once each; a present
        cache is the sorted contents. */
    ghost predicate Valid()
      reads this
    {
      && Keyed(items)
      && NonceHeap.Ordered(index)
      && Indexes(index, items.Keys)
      && (cache.Some? ==> FlatOf(cache.value, items))
    }

    constructor ()
      ensures Valid() && items == map[]
    {
      items := map[];
      index := [];
      cache := None;
    }

    method Put(tx: Tx)
      requires Valid()
      modifies this
      ensures Valid() && items == old(items)[tx.nonce as nat := tx]
    {
      var nonce: nat := tx.nonce;
      assert items[nonce := tx].Keys == items.Keys + {nonce};
      if nonce !in items {
        index := NonceHeap.Push(index, nonce);
        IndexAdd(old(index), index, items.Keys, nonce);
      } else {
        assert items.Keys + {nonce} == items.Keys;
      }
      items, cache := items[nonce := tx], None;
    }

    /** Removes and returns, in nonce order, everything below `threshold`. */
    method Forward(threshold: nat) returns (removed: seq<Tx>)
      requires Valid()
      modifies this
      ensures Valid() && items == From(old(items), threshold)
      ensures FlatOf(removed, Below(old(items), threshold))
      ensures cache.Some? <==> old(cache).Some?
    {
      ghost var orig, flat := items, Flat(items);
      FlatIsListing(items);
      removed := [];
      while |index| > 0 && index[0] < threshold
        invariant Keyed(items) && NonceHeap.Ordered(index) && Indexes(index, items.Keys)
        invariant cache == old(cache)
        invariant Taken(flat, removed, items)
        invariant From(items, threshold) == From(orig, threshold)
        decreases |index|
      {
        var nonce := PopLeast();
        TakeFirst(flat, removed, items, nonce);
        FromWithout(items, nonce, threshold);
        removed := removed + [items[nonce]];
        items := items - {nonce};
      }
      NothingBelow(index, items, threshold);
      FlatSplit(flat, orig, |removed|, threshold);
      if cache.Some? {
        FlatUnique(cache.value, flat, orig);
        cache := Some(cache.value[|removed|..]);
      }
    }

    /** Pops the least nonce off the heap; its map entry is still to be deleted. */
    method PopLeast() returns (nonce: nat)
      requires Keyed(items) && NonceHeap.Ordered(index) && Indexes(index, items.Keys) && index != []
      modifies this`index
      ensures nonce == old(index[0]) && nonce in items && forall n :: n in items ==> nonce <= n
      ensures NonceHeap.Ordered(index) && Indexes(index, (items - {nonce}).Keys)
      ensures |index| == |old(index)| - 1
    {
      RootIsLeast(index, items.Keys);
      index, nonce := NonceHeap.Pop(index);
      IndexRemove(old(index), index, items.Keys, nonce);
      assert (items - {nonce}).Keys == items.Keys - {nonce};
    }

    /** Removes everything the filter selects; the returned order is that of
        an arbitrary map iteration. */
    method Filter(filter: Tx -> bool) returns (removed: seq<Tx>)
      requires Valid()
      modifies this
      ensures Valid()
      ensures items == Unselected(old(items), filter)
      ensures Enumerates(removed, Selected(old(items), filter))
    {
      ghost var orig := items;
      removed := [];
      var todo := items.Keys;
      SelectionStart(orig, filter);
      while todo != {}
        invariant index == old(index) && cache == old(cache)
        invariant todo <= orig.Keys
        invariant items == KeptSoFar(orig, todo, filter)
        invariant Enumerates(removed, DroppedSoFar(orig, todo, filter))
        decreases todo
      {
        var nonce :| nonce in todo;
        SelectionStep(orig, todo, removed, nonce, filter);
        var tx := items[nonce];
        todo := todo - {nonce};
        if filter(tx) {
          removed := removed + [tx];
          items := items - {nonce};
        }
      }
      SelectionDone(orig, removed, filter);
      if |removed| > 0 {
        Reindex();
        cache := None;
      }
    }

    /** Rebuilds the heap from the map. */
    method Reindex()
      modifies this`index
      ensures NonceHeap.Ordered(index) && Indexes(index, items.Keys)
    {
      index := [];
      var todo := items.Keys;
      while todo != {}
        invariant todo <= items.Keys
        invariant Indexes(index, items.Keys - todo)
        decreases todo
      {
        var nonce :| nonce in todo;
        assert items.Keys - (todo - {nonce}) == (items.Keys - todo) + {nonce};
        index, todo := index + [nonce], todo - {nonce};
      }
      assert items.Keys - todo == items.Keys;
      index := NonceHeap.Init(index);
    }

    /** Keeps the `threshold` lowest nonces and returns the others, highest first. */
    method Cap(threshold: nat) returns (drops: seq<Tx>)
      requires Valid()
      modifies this
      ensures Valid() && items == Capped(old(items), threshold)
      ensures FlatOf(Reversed(drops), old(items) - items.Keys)
      ensures cache.Some? <==> old(cache).Some?
    {
      if |items| <= threshold {
        NothingCapped(items, threshold);
        return [];
      }
      ghost var flat := Flat(items);
      FlatIsListing(items);
      CapDone(flat, items, threshold);
      drops := DropLast(threshold, flat);
      index := NonceHeap.Init(index[..threshold]);
      if cache.Some? {
        FlatUnique(cache.value, flat, old(items));
        cache := Some(cache.value[..|cache.value| - |drops|]);
      }
    }

    /** Sorts the index and deletes the entries of its back from the map. */
    method DropLast(threshold: nat, ghost flat: seq<Tx>) returns (drops: seq<Tx>)
      requires threshold <= |items| && Indexes(index, items.Keys) && FlatOf(flat, items)
      modifies this`items, this`index
      ensures items == Capped(old(items), threshold) && index == NoncesOf(flat)
      ensures |drops| == |flat| - threshold && Reversed(drops) == flat[threshold..]
    {
      ghost var orig := items;
      drops := [];
      index := SortNonces(index);
      SortedIndex(index, flat, items);
      CappedAll(items, |items|);
      var size := |items|;
      while size > threshold
        invariant threshold <= size <= |flat| && index == NoncesOf(flat)
        invariant items == Capped(orig, size)
        invariant drops == Reversed(flat[size..])
      {
        DropStep(flat, orig, drops, size);
        drops := drops + [items[index[size - 1]]];
        items := items - {index[size - 1]};
        size := size - 1;
      }
    }

    method Remove(nonce: nat) returns (found: bool)
      requires Valid()
      modifies this
      ensures found <==> nonce in old(items)
      ensures Valid() && items == if found then old(items) - {nonce} else old(items)
    {
      if nonce !in items {
        return false;
      }
      IndexFacts(index, items.Keys);
      var i := 0;
      while index[i] != nonce
        invariant 0 <= i < |index| && index == old(index) && items == old(items) && cache == old(cache)
        invariant nonce in index[i..]
        decreases |index| - i
      {
        i := i + 1;
      }
      var x;
      index, x := NonceHeap.RemoveAt(index, i);
      IndexRemove(old(index), index, items.Keys, nonce);
      assert (items - {nonce}).Keys == items.Keys - {nonce};
      items, cache := items - {nonce}, None;
      found := true;
    }

    /** Removes and returns the run of consecutive nonces that starts at the
        lowest listed one, provided that one is not above `start`. */
    method Ready(start: nat) returns (ready: seq<Tx>)
      requires Valid()
      modifies this
      ensures Valid() && items == From(old(items), ReadyEnd(old(items).Keys, start))
      ensures FlatOf(ready, Below(old(items), ReadyEnd(old(items).Keys, start)))
    {
      ghost var orig := items;
      if |index| == 0 || index[0] > start {
        NothingReady(index, items, start);
        return [];
      }
      RootIsLeast(index, items.Keys);
      ghost var flat := Flat(items);
      FlatIsListing(items);
      ready := [];
      var next := index[0];
      ghost var first := next;
      assert From(items, next) == items;
      while |index| > 0 && index[0] == next
        invariant Keyed(items) && NonceHeap.Ordered(index) && Indexes(index, items.Keys)
        invariant RunTaken(orig, items, first, next)
        invariant Taken(flat, ready, items)
        decreases |index|
      {
        var nonce := PopLeast();
        TakeFirst(flat, ready, items, nonce);
        RunStep(orig, items, first, next);
        ready := ready + [items[next]];
        items := items - {next};
        next := next + 1;
      }
      cache := None;
      RunStops(index, orig, items, start, first, next);
      FlatSplit(flat, orig, |ready|, next);
    }

    /** The sorted contents, cached for the next call. */
    method Flatten() returns (txs: seq<Tx>)
      requires Valid()
      modifies this`cache
      ensures Valid() && FlatOf(txs, items) && cache.Some?
    {
      if cache.None? {
        var sorted := SortItems();
        cache := Some(sorted);
      }
      txs := cache.value;
    }

    /** Collects the map's transactions and sorts them by nonce. */
    method SortItems() returns (txs: seq<Tx>)
      requires Keyed(items)
      ensures FlatOf(txs, items)
    {
      txs := [];
      var todo := items.Keys;
      while todo != {}
        invariant todo <= items.Keys
        invariant FlatOf(txs, items - todo)
        decreases todo
      {
        var nonce :| nonce in todo;
        AddBack(items, todo, nonce);
        txs := InsertByNonce(txs, items[nonce], items - todo);
        todo := todo - {nonce};
      }
      assert items - todo == items;
    }
  }

  lemma AddBack(items: Items, todo: set<nat>, n: nat)
    requires n in items && n in todo
    ensures (items - todo)[n := items[n]] == items - (todo - {n})
  {
  }

  /** Inserts a transaction of a new nonce at its place. */
  method InsertByNonce(txs: seq<Tx>, tx: Tx, ghost items: Items) returns (r: seq<Tx>)
    requires FlatOf(txs, items) && tx.nonce !in items
    ensures FlatOf(r, items[tx.nonce as nat := tx])
  {
    var p := 0;
    while p < |txs| && txs[p].nonce < tx.nonce
      invariant 0 <= p <= |txs|
      invariant forall i :: 0 <= i < p ==> txs[i].nonce < tx.nonce
    {
      p := p + 1;
    }
    r := txs[..p] + [tx] + txs[p..];
    assert items[tx.nonce as nat := tx].Keys == items.Keys + {tx.nonce as nat};
  }
}
