/**
 What a `txList` (core/tx_list.go) does, as a value: its mode, its nonce-keyed
 contents and its cached cost ceiling. The pool works with these values; the
 class in `TxLists` is proved to compute them.
 */
module TxListSpec {
  import opened TxTypes
  import opened SortedTxs

  datatype List = List(strict: bool, items: Items, costcap: int) {

    /** Contents filed by nonce, and no listed cost above the cost ceiling. */
    ghost predicate Valid() {
      && Keyed(items)
      && forall n :: n in items ==> items[n].Cost() <= costcap
    }
  }

  datatype AddResult = AddResult(list: List, inserted: bool, replaced: Option<Tx>)

  datatype FilterResult = FilterResult(list: List, removed: Items, invalids: Items)

  datatype RemoveResult = RemoveResult(list: List, found: bool, invalids: Items)

  function EmptyList(strict: bool): List {
    List(strict, map[], 0)
  }

  /** A listed transaction of the same nonce gives way only to a higher price. */
  function Add(l: List, tx: Tx): (r: AddResult)
  {
    var n: nat := tx.nonce;
    if n in l.items && l.items[n].gasPrice >= tx.gasPrice then
      AddResult(l, false, None)
    else
      AddResult(
        List(l.strict, l.items[n := tx], if l.costcap < tx.Cost() then tx.Cost() else l.costcap),
        true,
        if n in l.items then Some(l.items[n]) else None)
  }

  function Forward(l: List, threshold: nat): (r: List)
  {
    l.(items := From(l.items, threshold))
  }

  function Cap(l: List, threshold: nat): (r: List)
  {
    l.(items := Capped(l.items, threshold))
  }

  function Costly(items: Items, threshold: int): Items {
    map n | n in items && items[n].Cost() > threshold :: items[n]
  }

  function Payable(items: Items, threshold: int): Items {
    map n | n in items && items[n].Cost() <= threshold :: items[n]
  }

  /** Drops what costs more than `threshold`; in strict mode also everything
      above the lowest dropped nonce. */
  function Scan(strict: bool, items: Items, threshold: int): (r: FilterResult) {
    var removed, rest := Costly(items, threshold), Payable(items, threshold);
    if strict && removed.Keys != {} then
      var lowest := Least(removed.Keys);
      FilterResult(List(strict, Below(rest, lowest + 1), threshold), removed, From(rest, lowest + 1))
    else
      FilterResult(List(strict, rest, threshold), removed, map[])
  }

  /** The scan is skipped when the ceiling says that nothing is too costly. */
  function Filter(l: List, threshold: int): (r: FilterResult) {
    if l.costcap <= threshold then FilterResult(l, map[], map[]) else Scan(l.strict, l.items, threshold)
  }

  function Remove(l: List, nonce: nat): (r: RemoveResult)
  {
    if nonce !in l.items then
      RemoveResult(l, false, map[])
    else if l.strict then
      var rest := l.items - {nonce};
      RemoveResult(l.(items := Below(rest, nonce + 1)), true, From(rest, nonce + 1))
    else
      RemoveResult(l.(items := l.items - {nonce}), true, map[])
  }

  /** What stays when the run ready at `start` is taken out. */
  function AfterReady(l: List, start: nat): (r: List)
  {
    l.(items := From(l.items, ReadyEnd(l.items.Keys, start)))
  }

  // ---- the cost ceiling is sound ----

  /** `n` is listed above some transaction that costs too much. */
  ghost predicate Cut(items: Items, threshold: int, n: nat) {
    exists k :: k in items && k < n && items[k].Cost() > threshold
  }

  lemma AddKeepsValid(l: List, tx: Tx)
    requires l.Valid()
    ensures Add(l, tx).list.Valid()
  {
  }

  lemma RemoveKeepsValid(l: List, nonce: nat)
    requires l.Valid()
    ensures Remove(l, nonce).list.Valid()
    ensures nonce !in l.items ==> l.items - {nonce} == l.items
  {
  }

  lemma FilterKeepsValid(l: List, threshold: int)
    requires l.Valid()
    ensures Filter(l, threshold).list.Valid()
  {
  }

  /** The shortcut never changes the outcome: whatever the ceiling, the filter
      removes exactly the unpayable transactions and, in strict mode, sets
      aside exactly the payable ones above an unpayable one. */
  lemma FilterIsFullScan(l: List, threshold: int)
    requires l.Valid()
    ensures var r := Filter(l, threshold);
            && r.list.Valid()
            && r.removed == Costly(l.items, threshold)
            && (forall n :: n in r.invalids <==> n in l.items && l.strict && l.items[n].Cost() <= threshold && Cut(l.items, threshold, n))
            && (forall n :: n in r.list.items <==> n in l.items && l.items[n].Cost() <= threshold && (l.strict ==> !Cut(l.items, threshold, n)))
            && (forall n :: n in r.list.items ==> r.list.items[n].Cost() <= threshold)
  {
    var r := Filter(l, threshold);
    var removed := Costly(l.items, threshold);
    if l.costcap <= threshold {
      assert removed == map[];
      forall n ensures !Cut(l.items, threshold, n) {
        assert forall k :: k in l.items ==> l.items[k].Cost() <= l.costcap;
      }
    } else if l.strict && removed.Keys != {} {
      var lowest := Least(removed.Keys);
      forall n | n in l.items && l.items[n].Cost() <= threshold
        ensures Cut(l.items, threshold, n) <==> n > lowest
      {
        assert lowest in removed;
        if Cut(l.items, threshold, n) {
          var k :| k in l.items && k < n && l.items[k].Cost() > threshold;
          assert k in removed.Keys;
        }
      }
    } else if l.strict {
      forall n ensures !Cut(l.items, threshold, n) {
        assert forall k :: k in l.items && l.items[k].Cost() > threshold ==> k in removed.Keys;
      }
    }
  }

  // ---- the best offer stays ----

  /** Adds one transaction after the other. */
  function AddAll(l: List, txs: seq<Tx>): List {
    if txs == [] then l else Add(AddAll(l, txs[..|txs| - 1]), txs[|txs| - 1]).list
  }

  /** Of those with its nonce, transaction `i` is the first with the best price. */
  ghost predicate BestOffer(txs: seq<Tx>, i: nat) {
    i < |txs| && forall j :: 0 <= j < |txs| && txs[j].nonce == txs[i].nonce ==>
      if j < i then txs[j].gasPrice < txs[i].gasPrice else txs[j].gasPrice <= txs[i].gasPrice
  }

  /** A list that was filled one by one holds exactly the best offer for each
      nonce, the earliest of equal ones. */
  lemma {:induction false} BestOffersStay(strict: bool, txs: seq<Tx>, n: nat)
    ensures var items := AddAll(EmptyList(strict), txs).items;
      && (n in items <==> exists i :: 0 <= i < |txs| && txs[i].nonce == n)
      && (n in items ==> exists i: nat :: BestOffer(txs, i) && txs[i].nonce == n && txs[i] == items[n])
  {
    if txs != [] {
      var k := |txs| - 1;
      var front, last := txs[..k], txs[k];
      BestOffersStay(strict, front, n);
      var before := AddAll(EmptyList(strict), front).items;
      if n in before {
        var i: nat :| BestOffer(front, i) && front[i].nonce == n && front[i] == before[n];
        assert txs[i] == front[i];
        if last.nonce == n && last.gasPrice > before[n].gasPrice {
          NewBest(txs, i);
        } else {
          StillBest(txs, i);
        }
      } else if last.nonce == n {
        assert forall j :: 0 <= j < k ==> txs[j] == front[j];
        assert BestOffer(txs, k);
      }
    }
  }

  lemma NewBest(txs: seq<Tx>, i: nat)
    requires txs != [] && BestOffer(txs[..|txs| - 1], i)
    requires txs[|txs| - 1].nonce == txs[i].nonce && txs[|txs| - 1].gasPrice > txs[i].gasPrice
    ensures BestOffer(txs, |txs| - 1)
  {
    var front := txs[..|txs| - 1];
    assert forall j :: 0 <= j < |front| ==> txs[j] == front[j];
  }

  lemma StillBest(txs: seq<Tx>, i: nat)
    requires txs != [] && BestOffer(txs[..|txs| - 1], i)
    requires txs[|txs| - 1].nonce == txs[i].nonce ==> txs[|txs| - 1].gasPrice <= txs[i].gasPrice
    ensures BestOffer(txs, i)
  {
    var front := txs[..|txs| - 1];
    assert forall j :: 0 <= j < |front| ==> txs[j] == front[j];
  }

  // ---- partition and gap-freedom ----

  ghost predicate Partition(whole: Items, a: Items, b: Items, c: Items) {
    && a.Keys !! b.Keys && (a.Keys + b.Keys) !! c.Keys
    && whole == a + b + c
  }

  /** Kept, removed and invalidated transactions are the old contents, each
      transaction in exactly one part. */
  lemma FilterPartitions(l: List, threshold: int)
    requires l.Valid()
    ensures var r := Filter(l, threshold);
            Partition(l.items, r.list.items, r.removed, r.invalids)
  {
    FilterIsFullScan(l, threshold);
  }

  lemma RemovePartitions(l: List, nonce: nat)
    requires l.Valid()
    ensures var r := Remove(l, nonce);
            Partition(l.items, r.list.items, r.invalids, if r.found then map[nonce := l.items[nonce]] else map[])
  {
  }

  /** In strict mode every operation turns an interval of nonces into an
      interval of nonces. */
  lemma StrictKeepsGapFree(l: List, threshold: int, nonce: nat, count: nat)
    requires l.Valid() && l.strict && GapFree(l.items.Keys)
    ensures GapFree(Filter(l, threshold).list.items.Keys)
    ensures GapFree(Remove(l, nonce).list.items.Keys)
    ensures GapFree(Forward(l, nonce).items.Keys)
    ensures GapFree(Cap(l, count).items.Keys)
  {
    FilterGapFree(l, threshold);
    CapGapFree(l, count);
  }

  lemma CapGapFree(l: List, count: nat)
    requires GapFree(l.items.Keys)
    ensures GapFree(Cap(l, count).items.Keys)
  {
    var capped := Capped(l.items, count).Keys;
    forall a, b, c | a in capped && c in capped && a < b < c ensures b in capped {
      SubsetSize(set k | k in l.items.Keys && k < b, set k | k in l.items.Keys && k < c);
    }
  }

  lemma CutAbove(items: Items, threshold: int, b: nat, c: nat)
    requires b < c
    ensures Cut(items, threshold, b) ==> Cut(items, threshold, c)
  {
  }

  lemma FilterGapFree(l: List, threshold: int)
    requires l.Valid() && l.strict && GapFree(l.items.Keys)
    ensures GapFree(Filter(l, threshold).list.items.Keys)
  {
    FilterIsFullScan(l, threshold);
    var kept := Filter(l, threshold).list.items.Keys;
    forall a, b, c | a in kept && c in kept && a < b < c ensures b in kept {
      assert !Cut(l.items, threshold, c);
      assert b in l.items;
      CutAbove(l.items, threshold, b, c);
    }
  }
}
