/**
 The equalising eviction of core/tx_pool.go: when too many transactions are
 pending, the accounts with the longest lists are cut back together. The loops
 compute a water level: every eligible list is capped at one common length.
 */
module Equalize {
  import opened Basics
  import opened TxTypes
  import opened SortedTxs
  import opened TxListSpec

  type Lists = map<Address, List>

  const MIN_PENDING_PER_ACCOUNT: nat := 16
  const MAX_PENDING_TOTAL: nat := 4096

  ghost predicate AllKeyed(lists: Lists) {
    forall a :: a in lists ==> Keyed(lists[a].items)
  }

  /** All listed transactions, by account and nonce. */
  ghost function Entries(lists: Lists): set<(Address, nat)> {
    set a, n | a in lists && n in lists[a].items :: (a, n)
  }

  ghost function Row(a: Address, items: Items): set<(Address, nat)> {
    set n | n in items :: (a, n)
  }

  /** Number of transactions in all lists together. */
  ghost function Total(lists: Lists): nat {
    |Entries(lists)|
  }

  /** Every eligible account keeps its `level` lowest nonces (all of them, if
      it has no more); the other accounts keep everything. */
  ghost function Leveled(lists: Lists, eligible: set<Address>, level: nat): Lists {
    map a | a in lists :: if a in eligible then Cap(lists[a], level) else lists[a]
  }

  /** The accounts in `done` are already one below `level`. */
  ghost function PartLeveled(lists: Lists, eligible: set<Address>, level: nat, done: set<Address>): Lists
    requires level > 0
  {
    map a | a in lists ::
      if a in eligible then Cap(lists[a], if a in done then level - 1 else level) else lists[a]
  }

  lemma {:induction false} RowSize(a: Address, items: Items)
    ensures |Row(a, items)| == |items|
    decreases |items|
  {
    if items.Keys != {} {
      var n :| n in items;
      RemoveKey(items, n);
      RowSize(a, items - {n});
      assert Row(a, items) == Row(a, items - {n}) + {(a, n)};
    } else {
      assert Row(a, items) == {};
    }
  }

  /** Taking an account out takes its transactions out of the total. */
  lemma TotalRemove(lists: Lists, a: Address)
    requires a in lists
    ensures Total(lists) == Total(lists - {a}) + |lists[a].items|
  {
    RowSize(a, lists[a].items);
    assert Entries(lists) == Entries(lists - {a}) + Row(a, lists[a].items);
  }

  lemma TotalUpdate(lists: Lists, a: Address, l: List)
    requires a in lists
    ensures Total(lists[a := l]) == Total(lists) + |l.items| - |lists[a].items|
  {
    TotalRemove(lists, a);
    TotalRemove(lists[a := l], a);
    assert lists[a := l] - {a} == lists - {a};
  }

  lemma CapTwice(l: List, c: nat, d: nat)
    requires d <= c
    ensures Cap(Cap(l, c), d) == Cap(l, d)
  {
    CappedCapped(l.items, c, d);
  }

  /** A higher level keeps at least as much. */
  lemma TotalGrowsWithLevel(lists: Lists, eligible: set<Address>, low: nat, high: nat)
    requires low <= high
    ensures Total(Leveled(lists, eligible, low)) <= Total(Leveled(lists, eligible, high))
  {
    var a, b := Entries(Leveled(lists, eligible, low)), Entries(Leveled(lists, eligible, high));
    assert a <= b;
    SubsetSize(a, b);
  }

  /** One list of the pass is cut by one. */
  lemma CutOne(lists: Lists, eligible: set<Address>, level: nat, done: set<Address>, a: Address)
    requires AllKeyed(lists) && level > 0 && a in lists && a in eligible && a !in done && |lists[a].items| >= level
    ensures var cur := PartLeveled(lists, eligible, level, done);
            && |cur[a].items| == level
            && cur[a := Cap(cur[a], level - 1)] == PartLeveled(lists, eligible, level, done + {a})
            && Total(PartLeveled(lists, eligible, level, done + {a})) == Total(cur) - 1
  {
    var cur := PartLeveled(lists, eligible, level, done);
    var more, less := Cap(lists[a], level), Cap(lists[a], level - 1);
    assert cur[a] == more;
    assert |more.items| == level && |less.items| == level - 1 by {
      CappedSize(lists[a].items, level);
      CappedSize(lists[a].items, level - 1);
    }
    assert Cap(more, level - 1) == less by { CapTwice(lists[a], level, level - 1); }
    PartUpdate(lists, eligible, level, done, a);
    TotalUpdate(cur, a, less);
  }

  lemma PartUpdate(lists: Lists, eligible: set<Address>, level: nat, done: set<Address>, a: Address)
    requires level > 0 && a in lists && a in eligible
    ensures PartLeveled(lists, eligible, level, done)[a := Cap(lists[a], level - 1)]
         == PartLeveled(lists, eligible, level, done + {a})
  {
  }

  /** After a pass over all lists of length `level` the level is one lower. */
  lemma PassDone(lists: Lists, eligible: set<Address>, level: nat, done: set<Address>)
    requires AllKeyed(lists) && level > 0
    requires forall a :: a in lists && a in eligible && a !in done ==> |lists[a].items| < level
    ensures PartLeveled(lists, eligible, level, done) == Leveled(lists, eligible, level - 1)
  {
    forall a | a in lists && a in eligible && a !in done
      ensures Cap(lists[a], level) == Cap(lists[a], level - 1)
    {
      CappedAll(lists[a].items, level);
      CappedAll(lists[a].items, level - 1);
    }
  }

  /** At most `MAX_PENDING_TOTAL` transactions remain, at the highest level
      that allows it; or the level is down at the guaranteed minimum. */
  ghost predicate WaterFilled(lists: Lists, eligible: set<Address>, level: nat, r: Lists) {
    && r == Leveled(lists, eligible, level)
    && level >= MIN_PENDING_PER_ACCOUNT
    && (Total(r) <= MAX_PENDING_TOTAL ==>
          forall higher :: higher > level ==> Total(Leveled(lists, eligible, higher)) > MAX_PENDING_TOTAL)
    && (Total(r) > MAX_PENDING_TOTAL ==> level == MIN_PENDING_PER_ACCOUNT)
  }

  /** Number of pending transactions (core/tx_pool.go, the loop before the limit test). */
  method CountPending(lists: Lists) returns (pending: int)
    ensures pending == Total(lists)
  {
    pending := 0;
    var todo := lists;
    while todo.Keys != {}
      invariant pending + Total(todo) == Total(lists)
      decreases todo.Keys
    {
      var a :| a in todo;
      TotalRemove(todo, a);
      assert (todo - {a}).Keys == todo.Keys - {a};
      pending := pending + |todo[a].items|;
      todo := todo - {a};
    }
  }

  /** The accounts worth evicting from: long lists whose sampled transaction is
      not local. Which transaction is sampled is arbitrary. */
  ghost predicate Eligible(lists: Lists, localTxs: set<TxHash>, eligible: set<Address>) {
    && eligible <= lists.Keys
    && (forall a :: a in eligible ==>
          && |lists[a].items| > MIN_PENDING_PER_ACCOUNT
          && exists n :: n in lists[a].items && lists[a].items[n].Hash() !in localTxs)
    && (forall a :: a in lists && a !in eligible && |lists[a].items| > MIN_PENDING_PER_ACCOUNT ==>
          exists n :: n in lists[a].items && lists[a].items[n].Hash() in localTxs)
  }

  method FindSpammers(lists: Lists, localTxs: set<TxHash>) returns (spammers: set<Address>)
    ensures Eligible(lists, localTxs, spammers)
  {
    spammers := {};
    var todo := lists.Keys;
    while todo != {}
      invariant todo <= lists.Keys && spammers <= lists.Keys - todo
      invariant forall a :: a in spammers ==>
                  && |lists[a].items| > MIN_PENDING_PER_ACCOUNT
                  && exists n :: n in lists[a].items && lists[a].items[n].Hash() !in localTxs
      invariant forall a :: a in lists && a !in todo && a !in spammers && |lists[a].items| > MIN_PENDING_PER_ACCOUNT ==>
                  exists n :: n in lists[a].items && lists[a].items[n].Hash() in localTxs
      decreases todo
    {
      var a :| a in todo;
      todo := todo - {a};
      if |lists[a].items| > MIN_PENDING_PER_ACCOUNT {
        var n :| n in lists[a].items;
        if lists[a].items[n].Hash() !in localTxs {
          spammers := spammers + {a};
        }
      }
    }
  }

  /** The priority queue: some account of maximal list length. */
  method PopLongest(spammers: set<Address>, lists: Lists) returns (a: Address)
    requires spammers != {} && spammers <= lists.Keys
    ensures a in spammers && forall b :: b in spammers ==> |lists[b].items| <= |lists[a].items|
  {
    LongestExists(spammers, lists);
    a :| a in spammers && forall b :: b in spammers ==> |lists[b].items| <= |lists[a].items|;
  }

  lemma LongestExists(spammers: set<Address>, lists: Lists)
    requires spammers != {} && spammers <= lists.Keys
    ensures exists a :: a in spammers && forall b :: b in spammers ==> |lists[b].items| <= |lists[a].items|
  {
    var size := a => if a in lists then |lists[a].items| else 0;
    var m := Maximal(spammers, size);
    forall b | b in spammers ensures |lists[b].items| <= |lists[m].items| {
      assert size(b) <= size(m);
    }
  }

  ghost function ToSet(s: seq<Address>): set<Address> {
    set a | a in s
  }

  lemma ToSetMore(s: seq<Address>, a: Address)
    ensures ToSet(s + [a]) == ToSet(s) + {a}
  {
  }

  ghost predicate Distinct(s: seq<Address>) {
    forall i, j :: 0 <= i < j < |s| ==> s[i] != s[j]
  }

  /** `offenders` are exactly the eligible accounts of at least `level` transactions. */
  ghost predicate AtLevel(lists: Lists, eligible: set<Address>, level: nat, offenders: seq<Address>) {
    && Distinct(offenders)
    && (forall a :: a in offenders ==> a in lists && a in eligible && |lists[a].items| >= level)
    && (forall a :: a in lists && a in eligible && a !in offenders ==> |lists[a].items| < level)
  }

  /** The first `i` offenders of the pass have been cut. */
  ghost predicate Passing(lists: Lists, eligible: set<Address>, level: nat, offenders: seq<Address>, i: nat, r: Lists, left: int)
    requires level > 0 && i <= |offenders|
  {
    && r == PartLeveled(lists, eligible, level, ToSet(offenders[..i]))
    && left == Total(r)
  }

  lemma PassStart(lists: Lists, eligible: set<Address>, level: nat, offenders: seq<Address>)
    requires level > 0
    ensures Passing(lists, eligible, level, offenders, 0, Leveled(lists, eligible, level), Total(Leveled(lists, eligible, level)))
  {
    assert Leveled(lists, eligible, level) == PartLeveled(lists, eligible, level, ToSet(offenders[..0]));
  }

  lemma PassEnd(lists: Lists, eligible: set<Address>, level: nat, offenders: seq<Address>, r: Lists, left: int)
    requires AllKeyed(lists) && level > 0 && AtLevel(lists, eligible, level, offenders)
    requires Passing(lists, eligible, level, offenders, |offenders|, r, left)
    ensures r == Leveled(lists, eligible, level - 1) && left == Total(r)
  {
    assert offenders[..|offenders|] == offenders;
    PassDone(lists, eligible, level, ToSet(offenders));
  }

  lemma PassStep(lists: Lists, eligible: set<Address>, level: nat, offenders: seq<Address>, i: nat, r: Lists, left: int)
    requires AllKeyed(lists) && level > 0 && AtLevel(lists, eligible, level, offenders) && i < |offenders|
    requires Passing(lists, eligible, level, offenders, i, r, left)
    ensures offenders[i] in r && |r[offenders[i]].items| == level
    ensures Passing(lists, eligible, level, offenders, i + 1,
                    r[offenders[i] := Cap(r[offenders[i]], level - 1)], left - 1)
  {
    CutOne(lists, eligible, level, ToSet(offenders[..i]), offenders[i]);
    assert offenders[..i + 1] == offenders[..i] + [offenders[i]];
    ToSetMore(offenders[..i], offenders[i]);
  }

  /** One pass: every given offender loses its highest nonce. */
  method CutAll(cur: Lists, offenders: seq<Address>, pending: int,
                ghost lists: Lists, ghost eligible: set<Address>, ghost level: nat)
    returns (r: Lists, left: int)
    requires AllKeyed(lists) && level > 0 && AtLevel(lists, eligible, level, offenders)
    requires cur == Leveled(lists, eligible, level) && pending == Total(cur)
    ensures r == Leveled(lists, eligible, level - 1) && left == Total(r) == pending - |offenders|
  {
    r, left := cur, pending;
    PassStart(lists, eligible, level, offenders);
    for i := 0 to |offenders|
      invariant Passing(lists, eligible, level, offenders, i, r, left)
      invariant left == pending - i
    {
      PassStep(lists, eligible, level, offenders, i, r, left);
      var list := r[offenders[i]];
      r := r[offenders[i] := Cap(list, |list.items| - 1)];
      left := left - 1;
    }
    PassEnd(lists, eligible, level, offenders, r, left);
  }

  /** The lists stand at `level`, and one level more would be too much. */
  ghost predicate Standing(lists: Lists, eligible: set<Address>, level: nat, cur: Lists, pending: int) {
    && cur == Leveled(lists, eligible, level)
    && pending == Total(cur)
    && Total(Leveled(lists, eligible, level + 1)) > MAX_PENDING_TOTAL
  }

  /** The offenders reach up to `level`; all other eligible lists end at `floor`. */
  ghost predicate Exceed(lists: Lists, eligible: set<Address>, level: nat, floor: nat, offenders: seq<Address>) {
    && Distinct(offenders)
    && (forall a :: a in offenders ==> a in lists && a in eligible && |lists[a].items| >= level)
    && (forall a :: a in lists && a in eligible && a !in offenders ==> |lists[a].items| <= floor)
  }

  lemma LengthAtLevel(lists: Lists, eligible: set<Address>, level: nat, a: Address)
    requires AllKeyed(lists) && a in lists && a in eligible
    ensures |Leveled(lists, eligible, level)[a].items| == if level <= |lists[a].items| then level else |lists[a].items|
  {
    CappedSize(lists[a].items, level);
  }

  lemma ExceedAt(lists: Lists, eligible: set<Address>, level: nat, floor: nat, offenders: seq<Address>, reached: nat)
    requires Exceed(lists, eligible, level, floor, offenders) && floor < reached <= level
    ensures AtLevel(lists, eligible, reached, offenders)
  {
  }

  /** Cuts the offenders pass by pass until the total fits or they are down at `floor`. */
  method LowerTo(cur: Lists, offenders: seq<Address>, floor: nat, pending: int,
                 ghost lists: Lists, ghost eligible: set<Address>, ghost level: nat)
    returns (r: Lists, left: int, ghost reached: nat)
    requires AllKeyed(lists) && Standing(lists, eligible, level, cur, pending)
    requires offenders != [] && floor <= level && Exceed(lists, eligible, level, floor, offenders)
    ensures floor <= reached <= level && Standing(lists, eligible, reached, r, left)
    ensures left > MAX_PENDING_TOTAL ==> reached == floor
  {
    var last := offenders[|offenders| - 1];
    StandAtLast(lists, eligible, level, floor, cur, pending, offenders);
    r, left, reached := LowerWhile(cur, offenders, last, floor, pending, lists, eligible, level);
  }

  method LowerWhile(cur: Lists, offenders: seq<Address>, last: Address, floor: nat, pending: int,
                    ghost lists: Lists, ghost eligible: set<Address>, ghost level: nat)
    returns (r: Lists, left: int, ghost reached: nat)
    requires AllKeyed(lists) && offenders != [] && last == offenders[|offenders| - 1]
    requires floor <= level && Exceed(lists, eligible, level, floor, offenders)
    requires StandingAt(lists, eligible, level, cur, pending, last)
    ensures floor <= reached <= level && StandingAt(lists, eligible, reached, r, left, last)
    ensures left > MAX_PENDING_TOTAL ==> reached == floor
  {
    r, left, reached := cur, pending, level;
    while left > MAX_PENDING_TOTAL && |r[last].items| > floor
      invariant floor <= reached <= level && StandingAt(lists, eligible, reached, r, left, last)
      decreases reached
    {
      r, left, reached := LowerOnce(r, offenders, last, left, lists, eligible, reached, level, floor);
    }
  }

  lemma StandAtLast(lists: Lists, eligible: set<Address>, level: nat, floor: nat, cur: Lists, pending: int, offenders: seq<Address>)
    requires AllKeyed(lists) && Standing(lists, eligible, level, cur, pending)
    requires offenders != [] && Exceed(lists, eligible, level, floor, offenders)
    ensures StandingAt(lists, eligible, level, cur, pending, offenders[|offenders| - 1])
  {
    LengthAtLevel(lists, eligible, level, offenders[|offenders| - 1]);
  }

  method LowerOnce(cur: Lists, offenders: seq<Address>, last: Address, pending: int,
                   ghost lists: Lists, ghost eligible: set<Address>, ghost reached: nat, ghost level: nat, ghost floor: nat)
    returns (r: Lists, left: int, ghost lower: nat)
    requires AllKeyed(lists) && offenders != [] && Exceed(lists, eligible, level, floor, offenders) && floor < reached <= level
    requires last == offenders[|offenders| - 1] && pending > MAX_PENDING_TOTAL
    requires StandingAt(lists, eligible, reached, cur, pending, last)
    ensures lower == reached - 1 && StandingAt(lists, eligible, lower, r, left, last)
  {
    ExceedAt(lists, eligible, level, floor, offenders, reached);
    r, left := CutAll(cur, offenders, pending, lists, eligible, reached);
    LowerStep(lists, eligible, reached, cur, r, left, last);
    lower := reached - 1;
  }

  ghost predicate StandingAt(lists: Lists, eligible: set<Address>, level: nat, cur: Lists, pending: int, last: Address) {
    Standing(lists, eligible, level, cur, pending) && last in cur && |cur[last].items| == level
  }

  lemma LowerStep(lists: Lists, eligible: set<Address>, level: nat, before: Lists, r: Lists, left: int, last: Address)
    requires AllKeyed(lists) && level > 0 && last in lists && last in eligible && |lists[last].items| >= level
    requires before == Leveled(lists, eligible, level) && Total(before) > MAX_PENDING_TOTAL
    requires r == Leveled(lists, eligible, level - 1) && left == Total(r)
    ensures StandingAt(lists, eligible, level - 1, r, left, last)
  {
    LengthAtLevel(lists, eligible, level - 1, last);
  }

  /** The state of the loop that collects offenders. */
  ghost predicate Collecting(lists: Lists, eligible: set<Address>, level: nat, pending: int,
                             spammers: set<Address>, offenders: seq<Address>) {
    && eligible <= lists.Keys && Distinct(offenders)
    && (forall a :: a in eligible <==> a in spammers || a in offenders)
    && (forall a :: a in offenders ==> a !in spammers)
    && (forall a :: a in eligible ==> |lists[a].items| > MIN_PENDING_PER_ACCOUNT)
    && (forall a :: a in spammers ==> |lists[a].items| <= level)
    && (pending > MAX_PENDING_TOTAL ==> forall a :: a in offenders ==> |lists[a].items| >= level)
    && (offenders == [] && spammers != {} ==> exists a :: a in spammers && |lists[a].items| == level)
    && MIN_PENDING_PER_ACCOUNT <= level && (eligible == {} ==> level == MIN_PENDING_PER_ACCOUNT)
  }

  lemma StartLevel(lists: Lists, eligible: set<Address>) returns (level: nat)
    requires eligible <= lists.Keys && forall a :: a in eligible ==> |lists[a].items| > MIN_PENDING_PER_ACCOUNT
    requires Total(lists) > MAX_PENDING_TOTAL
    ensures Collecting(lists, eligible, level, Total(lists), eligible, [])
    ensures Standing(lists, eligible, level, lists, Total(lists))
  {
    if eligible == {} {
      level := MIN_PENDING_PER_ACCOUNT;
    } else {
      LongestExists(eligible, lists);
      var top :| top in eligible && forall b :: b in eligible ==> |lists[b].items| <= |lists[top].items|;
      level := |lists[top].items|;
    }
    NothingCut(lists, eligible, level);
    NothingCut(lists, eligible, level + 1);
  }

  lemma NothingCut(lists: Lists, eligible: set<Address>, level: nat)
    requires eligible <= lists.Keys && forall a :: a in eligible ==> |lists[a].items| <= level
    ensures Leveled(lists, eligible, level) == lists
  {
    forall a | a in eligible ensures Cap(lists[a], level) == lists[a] {
      CappedAll(lists[a].items, level);
    }
  }

  /** The longest remaining spammer is no longer than the level, and the
      offenders before it can be cut down to its length. */
  lemma CollectStep(lists: Lists, eligible: set<Address>, level: nat, pending: int,
                    spammers: set<Address>, offenders: seq<Address>, offender: Address)
    requires Collecting(lists, eligible, level, pending, spammers, offenders) && pending > MAX_PENDING_TOTAL
    requires offender in spammers && forall b :: b in spammers ==> |lists[b].items| <= |lists[offender].items|
    ensures |lists[offender].items| <= level && offender in eligible && offender in lists
    ensures offenders == [] ==> |lists[offender].items| == level
    ensures Exceed(lists, eligible, level, |lists[offender].items|, offenders)
  {
  }

  lemma CollectNext(lists: Lists, eligible: set<Address>, level: nat, pending: int,
                    spammers: set<Address>, offenders: seq<Address>, offender: Address, level': nat, pending': int)
    requires Collecting(lists, eligible, level, pending, spammers, offenders) && pending > MAX_PENDING_TOTAL
    requires offender in spammers && forall b :: b in spammers ==> |lists[b].items| <= |lists[offender].items|
    requires |lists[offender].items| <= level' <= level
    requires pending' > MAX_PENDING_TOTAL ==> level' == |lists[offender].items|
    ensures Collecting(lists, eligible, level', pending', spammers - {offender}, offenders + [offender])
  {
    var more := offenders + [offender];
    assert forall a :: a in more <==> a in offenders || a == offender;
    assert Distinct(more) by {
      forall i, j | 0 <= i < j < |more| ensures more[i] != more[j] {
        assert more[i] in offenders;
      }
    }
  }

  lemma Filled(lists: Lists, eligible: set<Address>, level: nat, r: Lists, pending: int)
    requires AllKeyed(lists) && Standing(lists, eligible, level, r, pending)
    requires level >= MIN_PENDING_PER_ACCOUNT
    requires pending > MAX_PENDING_TOTAL ==> level == MIN_PENDING_PER_ACCOUNT
    ensures WaterFilled(lists, eligible, level, r)
  {
    forall higher | higher > level ensures Total(Leveled(lists, eligible, higher)) > MAX_PENDING_TOTAL {
      TotalGrowsWithLevel(lists, eligible, level + 1, higher);
    }
  }

  /** Lists, eligible accounts and limit determine the outcome. */
  lemma OutcomeUnique(lists: Lists, eligible: set<Address>, level: nat, r: Lists, level': nat, r': Lists)
    requires WaterFilled(lists, eligible, level, r) && WaterFilled(lists, eligible, level', r')
    ensures r == r'
  {
    TotalGrowsWithLevel(lists, eligible, Min(level, level'), Max(level, level'));
  }

  /** The eligible accounts are levelled. */
  ghost predicate Evicted(lists: Lists, localTxs: set<TxHash>, r: Lists) {
    exists eligible: set<Address>, level: nat :: Eligible(lists, localTxs, eligible) && WaterFilled(lists, eligible, level, r)
  }

  /** Cuts back the longest eligible lists to a common level. */
  method EqualizeAllowances(lists: Lists, localTxs: set<TxHash>)
    returns (r: Lists, ghost eligible: set<Address>, ghost level: nat)
    requires AllKeyed(lists) && Total(lists) > MAX_PENDING_TOTAL
    ensures Eligible(lists, localTxs, eligible) && WaterFilled(lists, eligible, level, r)
    ensures Evicted(lists, localTxs, r)
  {
    var pending := CountPending(lists);
    var spammers := FindSpammers(lists, localTxs);
    eligible := spammers;
    r := lists;
    level := StartLevel(lists, eligible);
    var offenders: seq<Address> := [];
    while pending > MAX_PENDING_TOTAL && spammers != {}
      invariant Collecting(lists, eligible, level, pending, spammers, offenders)
      invariant Standing(lists, eligible, level, r, pending)
      decreases spammers
    {
      var offender := PopLongest(spammers, lists);
      ghost var level0, pending0 := level, pending;
      CollectStep(lists, eligible, level, pending, spammers, offenders, offender);
      if |offenders| > 0 {
        LengthAtLevel(lists, eligible, level, offender);
        var threshold := |r[offender].items|;
        r, pending, level := LowerTo(r, offenders, threshold, pending, lists, eligible, level);
      }
      CollectNext(lists, eligible, level0, pending0, spammers, offenders, offender, level, pending);
      spammers, offenders := spammers - {offender}, offenders + [offender];
    }
    if pending > MAX_PENDING_TOTAL && |offenders| > 0 {
      r, pending, level := LowerTo(r, offenders, MIN_PENDING_PER_ACCOUNT, pending, lists, eligible, level);
    }
    Filled(lists, eligible, level, r, pending);
  }
}
