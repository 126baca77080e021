/**
 `txList` of core/tx_list.go: a sorted map plus a mode and a cost ceiling,
 updated in place. Every method computes the corresponding function of
 `TxListSpec` on `View()`.
 */
module TxLists {
  import opened Basics
  import opened TxTypes
  import opened SortedTxs
  import opened TxSortedMaps
  import Spec = TxListSpec

  class TxList {
    const strict: bool
    const txs: TxSortedMap
    var costcap: int

    ghost predicate Valid()
      reads this, txs
    {
      txs.Valid() && View().Valid()
    }

    ghost function View(): Spec.List
      reads this, txs
    {
      Spec.List(strict, txs.items, costcap)
    }

    constructor (strict: bool)
      ensures Valid() && fresh(txs) && View() == Spec.EmptyList(strict)
    {
      this.strict := strict;
      txs := new TxSortedMap();
      costcap := 0;
    }

    method Add(tx: Tx) returns (inserted: bool, replaced: Option<Tx>)
      requires Valid()
      modifies this, txs
      ensures Valid()
      ensures Spec.AddResult(View(), inserted, replaced) == Spec.Add(old(View()), tx)
    {
      var nonce: nat := tx.nonce;
      replaced := if nonce in txs.items then Some(txs.items[nonce]) else None;
      if replaced.Some? && replaced.value.gasPrice >= tx.gasPrice {
        return false, None;
      }
      txs.Put(tx);
      var cost := tx.Cost();
      if costcap < cost {
        costcap := cost;
      }
      inserted := true;
    }

    method Forward(threshold: nat) returns (removed: seq<Tx>)
      requires Valid()
      modifies txs
      ensures Valid() && View() == Spec.Forward(old(View()), threshold)
      ensures FlatOf(removed, Below(old(txs.items), threshold))
    {
      removed := txs.Forward(threshold);
    }

    method Filter(threshold: int) returns (removed: seq<Tx>, invalids: seq<Tx>)
      requires Valid()
      modifies this, txs
      ensures Valid() && View() == Spec.Filter(old(View()), threshold).list
      ensures Enumerates(removed, Spec.Filter(old(View()), threshold).removed)
      ensures Enumerates(invalids, Spec.Filter(old(View()), threshold).invalids)
    {
      Spec.FilterKeepsValid(View(), threshold);
      if costcap <= threshold {
        return [], [];
      }
      costcap := threshold;
      removed, invalids := FilterMap(threshold);
    }

    /** Filters the map itself, once the ceiling no longer rules it out. */
    method FilterMap(threshold: int) returns (removed: seq<Tx>, invalids: seq<Tx>)
      requires txs.Valid()
      modifies txs
      ensures txs.Valid() && txs.items == Spec.Scan(strict, old(txs.items), threshold).list.items
      ensures Enumerates(removed, Spec.Scan(strict, old(txs.items), threshold).removed)
      ensures Enumerates(invalids, Spec.Scan(strict, old(txs.items), threshold).invalids)
    {
      ghost var items := txs.items;
      removed := DropCostly(txs, threshold);
      NothingListed(removed, Spec.Costly(items, threshold));
      if !strict || |removed| == 0 {
        ScanKeepsAll(strict, items, threshold);
        return removed, [];
      }
      var lowest := LowestNonce(removed);
      LeastListed(removed, Spec.Costly(items, threshold), lowest);
      invalids := DropAbove(txs, lowest);
      ScanCuts(items, threshold, lowest);
    }

    method Cap(threshold: nat) returns (drops: seq<Tx>)
      requires Valid()
      modifies txs
      ensures Valid() && View() == Spec.Cap(old(View()), threshold)
      ensures FlatOf(Reversed(drops), old(txs.items) - txs.items.Keys)
    {
      drops := txs.Cap(threshold);
    }

    method Remove(tx: Tx) returns (found: bool, invalids: seq<Tx>)
      requires Valid()
      modifies txs
      ensures Valid() && View() == Spec.Remove(old(View()), tx.nonce).list
      ensures found == Spec.Remove(old(View()), tx.nonce).found
      ensures Enumerates(invalids, Spec.Remove(old(View()), tx.nonce).invalids)
    {
      Spec.RemoveKeepsValid(View(), tx.nonce);
      found, invalids := RemoveMap(tx.nonce);
    }

    method RemoveMap(nonce: nat) returns (found: bool, invalids: seq<Tx>)
      requires txs.Valid()
      modifies txs
      ensures txs.Valid() && (found <==> nonce in old(txs.items))
      ensures txs.items == if found && strict then Below(old(txs.items) - {nonce}, nonce + 1) else old(txs.items) - {nonce}
      ensures Enumerates(invalids, if found && strict then From(old(txs.items) - {nonce}, nonce + 1) else map[])
    {
      found := txs.Remove(nonce);
      if !found || !strict {
        return found, [];
      }
      invalids := DropAbove(txs, nonce);
    }

    method Ready(start: nat) returns (ready: seq<Tx>)
      requires Valid()
      modifies txs
      ensures Valid() && View() == Spec.AfterReady(old(View()), start)
      ensures FlatOf(ready, Below(old(txs.items), ReadyEnd(old(txs.items).Keys, start)))
    {
      ready := txs.Ready(start);
    }

    method Flatten() returns (flat: seq<Tx>)
      requires Valid()
      modifies txs
      ensures Valid() && View() == old(View()) && FlatOf(flat, txs.items)
    {
      flat := txs.Flatten();
    }
  }

  method DropCostly(txs: TxSortedMap, threshold: int) returns (removed: seq<Tx>)
    requires txs.Valid()
    modifies txs
    ensures txs.Valid() && txs.items == Spec.Payable(old(txs.items), threshold)
    ensures Enumerates(removed, Spec.Costly(old(txs.items), threshold))
  {
    var tooCostly := (tx: Tx) => tx.Cost() > threshold;
    removed := txs.Filter(tooCostly);
    assert Selected(old(txs.items), tooCostly) == Spec.Costly(old(txs.items), threshold);
    assert Unselected(old(txs.items), tooCostly) == Spec.Payable(old(txs.items), threshold);
  }

  method DropAbove(txs: TxSortedMap, nonce: nat) returns (removed: seq<Tx>)
    requires txs.Valid()
    modifies txs
    ensures txs.Valid() && txs.items == Below(old(txs.items), nonce + 1)
    ensures Enumerates(removed, From(old(txs.items), nonce + 1))
  {
    var above := (tx: Tx) => tx.nonce > nonce;
    removed := txs.Filter(above);
    assert Selected(old(txs.items), above) == From(old(txs.items), nonce + 1);
    assert Unselected(old(txs.items), above) == Below(old(txs.items), nonce + 1);
  }

  method LowestNonce(removed: seq<Tx>) returns (lowest: nat)
    requires |removed| > 0
    ensures exists i :: 0 <= i < |removed| && removed[i].nonce == lowest
    ensures forall i :: 0 <= i < |removed| ==> lowest <= removed[i].nonce
  {
    lowest := MAX_UINT64;
    for i := 0 to |removed|
      invariant i == 0 ==> lowest == MAX_UINT64
      invariant i > 0 ==> exists j :: 0 <= j < i && removed[j].nonce == lowest
      invariant forall j :: 0 <= j < i ==> lowest <= removed[j].nonce
    {
      var nonce: nat := removed[i].nonce;
      if lowest > nonce {
        lowest := nonce;
      }
    }
  }

  lemma ScanKeepsAll(strict: bool, items: Items, threshold: int)
    requires !strict || Spec.Costly(items, threshold).Keys == {}
    ensures var r := Spec.Scan(strict, items, threshold);
      r.list.items == Spec.Payable(items, threshold) && r.removed == Spec.Costly(items, threshold) && r.invalids == map[]
  {
  }

  lemma ScanCuts(items: Items, threshold: int, lowest: nat)
    requires Spec.Costly(items, threshold).Keys != {} && lowest == Least(Spec.Costly(items, threshold).Keys)
    ensures var r := Spec.Scan(true, items, threshold);
      && r.list.items == Below(Spec.Payable(items, threshold), lowest + 1) && r.removed == Spec.Costly(items, threshold)
      && r.invalids == From(Spec.Payable(items, threshold), lowest + 1)
  {
  }

  lemma NothingListed(removed: seq<Tx>, items: Items)
    requires Enumerates(removed, items)
    ensures removed == [] <==> items.Keys == {}
  {
    assert |NoncesOf(removed)| == |multiset(items.Keys)| == |items.Keys|;
  }

  lemma LeastListed(removed: seq<Tx>, items: Items, lowest: nat)
    requires Enumerates(removed, items)
    requires exists i :: 0 <= i < |removed| && removed[i].nonce == lowest
    requires forall i :: 0 <= i < |removed| ==> lowest <= removed[i].nonce
    requires Keyed(items)
    ensures items.Keys != {} && lowest == Least(items.Keys)
  {
    var i :| 0 <= i < |removed| && removed[i].nonce == lowest;
    forall n | n in items ensures lowest <= n {
      var i := EnumeratedAt(removed, items, n);
    }
  }
}
