/**
 `txSet` of core/tx_pool.go: marks on transactions that are dropped when they
 are two hours old, at the next addition. The pool works with the values; the
 class is proved to compute them.
 */
module TxSets {
  import opened TxTypes

  /** Two hours, in nanoseconds. */
  const TX_SET_DURATION: nat := 7_200_000_000_000

  datatype Mark = Mark(hash: TxHash, time: int)

  /** The marked hashes, and the marks in the order in which they were made, from
      `delPtr` on. */
  datatype MarkSet = MarkSet(txMap: set<TxHash>, txOrd: map<nat, Mark>, addPtr: nat, delPtr: nat) {

    ghost predicate Contiguous() {
      delPtr <= addPtr && forall i :: i in txOrd <==> delPtr <= i < addPtr
    }

    /** A hash in the set has a mark that is still there. */
    ghost predicate Valid() {
      && Contiguous()
      && forall h :: h in txMap ==> exists i :: i in txOrd && txOrd[i].hash == h
    }

    /** The marks were made one after the other. */
    ghost predicate Ordered() {
      forall i, j :: i in txOrd && j in txOrd && i <= j ==> txOrd[i].time <= txOrd[j].time
    }
  }

  const NO_MARKS := MarkSet({}, map[], 0, 0)

  /** The first mark from `from` on that was not made before `before`. */
  function FirstKept(txOrd: map<nat, Mark>, from: nat, end: nat, before: int): (e: nat)
    requires from <= end && forall i :: from <= i < end ==> i in txOrd
    ensures from <= e <= end && (forall i :: from <= i < e ==> txOrd[i].time < before)
    ensures e < end ==> txOrd[e].time >= before
    decreases end - from
  {
    if from < end && txOrd[from].time < before then FirstKept(txOrd, from + 1, end, before) else from
  }

  function HashesIn(txOrd: map<nat, Mark>, from: nat, end: nat): set<TxHash> {
    set i | i in txOrd && from <= i < end :: txOrd[i].hash
  }

  /** Without the marks at the front that were made before `before`. */
  function Trimmed(s: MarkSet, before: int): MarkSet
    requires s.Contiguous()
  {
    var e := FirstKept(s.txOrd, s.delPtr, s.addPtr, before);
    MarkSet(s.txMap - HashesIn(s.txOrd, s.delPtr, e), map i | i in s.txOrd && e <= i :: s.txOrd[i], s.addPtr, e)
  }

  function Noted(s: MarkSet, hash: TxHash, now: int): MarkSet {
    MarkSet(s.txMap + {hash}, s.txOrd[s.addPtr := Mark(hash, now)], s.addPtr + 1, s.delPtr)
  }

  /** What adding `hash` at time `now` does. */
  function Marked(s: MarkSet, hash: TxHash, now: int): MarkSet
    requires s.Contiguous()
  {
    Trimmed(Noted(s, hash, now), now - TX_SET_DURATION)
  }

  /** The new mark stays, and with it the set is consistent. */
  lemma MarkedValid(s: MarkSet, hash: TxHash, now: int)
    requires s.Valid()
    ensures Marked(s, hash, now).Valid() && Marked(s, hash, now).delPtr <= s.addPtr
    ensures s.Ordered() && (forall i :: i in s.txOrd ==> s.txOrd[i].time <= now) ==> Marked(s, hash, now).Ordered()
  {
    var r, ord := Marked(s, hash, now), s.txOrd[s.addPtr := Mark(hash, now)];
    assert ord[s.addPtr].time == now;
    forall h | h in r.txMap ensures exists i :: i in r.txOrd && r.txOrd[i].hash == h {
      if h == hash {
        assert s.addPtr in r.txOrd && r.txOrd[s.addPtr].hash == h;
      } else {
        var i :| i in s.txOrd && s.txOrd[i].hash == h;
        assert i in ord && ord[i].hash == h;
        assert i in r.txOrd && r.txOrd[i].hash == h;
      }
    }
  }

  /** A mark of `h` is too old at time `now`. */
  ghost predicate Aged(s: MarkSet, h: TxHash, now: int) {
    exists i :: i in s.txOrd && s.txOrd[i].hash == h && s.txOrd[i].time < now - TX_SET_DURATION
  }

  /** After an addition exactly those hashes are in the set that were in it, or
      are added, and have no mark that is too old. So a transaction that is marked
      again is in the set exactly if its earlier marks are not too old. */
  lemma MarkedExactly(s: MarkSet, hash: TxHash, now: int, h: TxHash)
    requires s.Valid() && s.Ordered()
    ensures h in Marked(s, hash, now).txMap <==> (h in s.txMap || h == hash) && !Aged(s, h, now)
  {
    var n, before := Noted(s, hash, now), now - TX_SET_DURATION;
    AgedIsDropped(s, n, FirstKept(n.txOrd, n.delPtr, n.addPtr, before), hash, now, h);
  }

  lemma AgedIsDropped(s: MarkSet, n: MarkSet, e: nat, hash: TxHash, now: int, h: TxHash)
    requires s.Valid() && s.Ordered() && n == Noted(s, hash, now)
    requires n.delPtr <= e <= n.addPtr && (forall i :: n.delPtr <= i < e ==> n.txOrd[i].time < now - TX_SET_DURATION)
    requires e < n.addPtr ==> n.txOrd[e].time >= now - TX_SET_DURATION
    ensures h in HashesIn(n.txOrd, n.delPtr, e) <==> Aged(s, h, now)
  {
    assert n.txOrd[s.addPtr].time == now && e <= s.addPtr;
    forall i | i in n.txOrd && n.delPtr <= i < e ensures Aged(s, n.txOrd[i].hash, now) {
      assert s.txOrd[i] == n.txOrd[i];
    }
    if Aged(s, h, now) {
      var i :| i in s.txOrd && s.txOrd[i].hash == h && s.txOrd[i].time < now - TX_SET_DURATION;
      assert n.txOrd[i] == s.txOrd[i] && i < e;
      assert n.txOrd[i].hash in HashesIn(n.txOrd, n.delPtr, e);
    }
  }

  /** A transaction that is marked, and marked again more than two hours later
      with no other mark in between, is not in the set. */
  lemma MarkedAgainIsLost(hash: TxHash, t: int, now: int)
    requires now - t > TX_SET_DURATION
    ensures var once := Marked(NO_MARKS, hash, t);
      once.Valid() && hash in once.txMap && hash !in Marked(once, hash, now).txMap
  {
    var once := Marked(NO_MARKS, hash, t);
    MarkedValid(NO_MARKS, hash, t);
    MarkedExactly(NO_MARKS, hash, t, hash);
    assert once.txOrd[0] == Mark(hash, t);
    assert Aged(once, hash, now);
    MarkedExactly(once, hash, now, hash);
  }

  /** The marks from `from` up to `k` have been dropped. */
  ghost predicate Dropping(from: nat, k: nat, before: int, map0: set<TxHash>, ord: map<nat, Mark>,
                           txMap: set<TxHash>, txOrd: map<nat, Mark>) {
    && txMap == map0 - HashesIn(ord, from, k)
    && (forall i :: i in txOrd <==> i in ord && (i < from || k <= i))
    && (forall i :: i in txOrd ==> txOrd[i] == ord[i])
    && (forall i :: i in ord && from <= i < k ==> ord[i].time < before)
  }

  lemma DroppingStep(from: nat, k: nat, before: int, map0: set<TxHash>, ord: map<nat, Mark>,
                     txMap: set<TxHash>, txOrd: map<nat, Mark>)
    requires Dropping(from, k, before, map0, ord, txMap, txOrd) && from <= k && k in txOrd && txOrd[k].time < before
    ensures Dropping(from, k + 1, before, map0, ord, txMap - {txOrd[k].hash}, txOrd - {k})
  {
    assert HashesIn(ord, from, k + 1) == HashesIn(ord, from, k) + {ord[k].hash};
  }

  lemma DroppingDone(from: nat, k: nat, end: nat, before: int, map0: set<TxHash>, ord: map<nat, Mark>,
                     txMap: set<TxHash>, txOrd: map<nat, Mark>)
    requires Dropping(from, k, before, map0, ord, txMap, txOrd) && from <= k <= end
    requires forall i :: i in ord <==> from <= i < end
    requires k < end ==> ord[k].time >= before
    ensures k == FirstKept(ord, from, end, before) && txMap == map0 - HashesIn(ord, from, k)
    ensures txOrd == map i | i in ord && k <= i :: ord[i]
  {
    var e := FirstKept(ord, from, end, before);
    assert e < k ==> e in ord;
    assert k < e ==> k in ord;
  }

  class TxSet {
    var txMap: set<TxHash>
    var txOrd: map<nat, Mark>
    var addPtr: nat
    var delPtr: nat

    ghost function View(): MarkSet
      reads this
    {
      MarkSet(txMap, txOrd, addPtr, delPtr)
    }

    constructor ()
      ensures View() == NO_MARKS && View().Valid()
    {
      txMap, txOrd, addPtr, delPtr := {}, map[], 0, 0;
    }

    method Contains(hash: TxHash) returns (marked: bool)
      ensures marked <==> hash in View().txMap
    {
      marked := hash in txMap;
    }

    /** Marks a transaction and drops the marks that are too old. */
    method Add(hash: TxHash, now: int)
      requires View().Valid()
      modifies this
      ensures View() == Marked(old(View()), hash, now) && View().Valid()
    {
      ghost var s := View();
      MarkedValid(s, hash, now);
      txMap := txMap + {hash};
      txOrd := txOrd[addPtr := Mark(hash, now)];
      addPtr := addPtr + 1;
      DropAged(now - TX_SET_DURATION);
    }

    method DropAged(delBefore: int)
      requires View().Contiguous()
      modifies `txMap, `txOrd, `delPtr
      ensures View() == Trimmed(old(View()), delBefore)
    {
      ghost var from, map0, ord := delPtr, txMap, txOrd;
      while delPtr < addPtr && txOrd[delPtr].time < delBefore
        invariant from <= delPtr <= addPtr && Dropping(from, delPtr, delBefore, map0, ord, txMap, txOrd)
        decreases addPtr - delPtr
      {
        DroppingStep(from, delPtr, delBefore, map0, ord, txMap, txOrd);
        txMap := txMap - {txOrd[delPtr].hash};
        txOrd := txOrd - {delPtr};
        delPtr := delPtr + 1;
      }
      DroppingDone(from, delPtr, addPtr, delBefore, map0, ord, txMap, txOrd);
    }
  }
}
