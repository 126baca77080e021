/** Unlocking accounts for a while: TimedUnlock, Lock and the expiry goroutines
    as atomic steps that interleave in any order
    (accounts/account_manager.go:194-272). */
module AccountManager {
  import opened TxTypes

  /** The abort channel of an unlocked key; an indefinite unlock has none. */
  datatype Abort = NoChannel | Open | Closed

  /** One decrypted key, and the expiry started with it if it is timed. */
  datatype Instance = Instance(address: Address, abort: Abort, zeroed: bool, timer: nat)

  /** Who called expire. */
  datatype Origin = Timer | LockCall

  /** Before the select, after its timer branch was taken, and at the end. */
  datatype Phase = Waiting | Fired | Finished

  datatype Expiry = Expiry(id: nat, origin: Origin, phase: Phase)

  /** The map from addresses to instances, every instance and expiry so far,
      and whether a closed channel was closed again. */
  datatype Manager = Manager(unlocked: map<Address, nat>, instances: seq<Instance>, expiries: seq<Expiry>, panicked: bool)

  const EMPTY_MANAGER := Manager(map[], [], [], false)

  datatype Event =
    | TimedUnlock(address: Address, timed: bool)  // with the mutex held throughout
    | Lock(address: Address)                      // looks the key up and calls expire
    | Abort(expiry: nat)                          // the abort branch of select
    | Fire(expiry: nat)                           // the timer branch of select
    | Drop(expiry: nat)                           // its critical section

  ghost predicate Enabled(m: Manager, e: Event) {
    match e
    case TimedUnlock(_, _) => true
    case Lock(_) => true
    case Abort(i) => i < |m.expiries| && m.expiries[i].phase == Waiting &&
      m.expiries[i].id < |m.instances| && m.instances[m.expiries[i].id].abort == Closed
    case Fire(i) => i < |m.expiries| && m.expiries[i].phase == Waiting
    case Drop(i) => i < |m.expiries| && m.expiries[i].phase == Fired
  }

  function Next(m: Manager, e: Event): Manager {
    match e
    case TimedUnlock(a, timed) =>
      if a !in m.unlocked || m.unlocked[a] >= |m.instances| then Unlocked(m, a, timed)
      else if m.instances[m.unlocked[a]].abort == NoChannel then m
      else Unlocked(Close(m, m.unlocked[a]), a, timed)
    case Lock(a) =>
      if a in m.unlocked then m.(expiries := m.expiries + [Expiry(m.unlocked[a], LockCall, Waiting)]) else m
    case Abort(i) => Phased(m, i, Finished)
    case Fire(i) => Phased(m, i, Fired)
    case Drop(i) => Dropped(Phased(m, i, Finished), i)
  }

  function Phased(m: Manager, i: nat, p: Phase): Manager {
    if i < |m.expiries| then m.(expiries := m.expiries[i := m.expiries[i].(phase := p)]) else m
  }

  /** Closing a closed channel panics. */
  function Close(m: Manager, id: nat): Manager
    requires id < |m.instances|
  {
    m.(instances := m.instances[id := m.instances[id].(abort := Closed)],
       panicked := m.panicked || m.instances[id].abort == Closed)
  }

  function Unlocked(m: Manager, a: Address, timed: bool): Manager {
    var id := |m.instances|;
    var m' := m.(instances := m.instances + [Instance(a, if timed then Open else NoChannel, false, |m.expiries|)],
                 unlocked := m.unlocked[a := id]);
    if timed then m'.(expiries := m.expiries + [Expiry(id, Timer, Waiting)]) else m'
  }

  /** Zeroes and removes the key if the map still holds this very instance. */
  function Dropped(m: Manager, i: nat): Manager {
    if i >= |m.expiries| || m.expiries[i].id >= |m.instances| then m else
      var id := m.expiries[i].id;
      var a := m.instances[id].address;
      if a in m.unlocked && m.unlocked[a] == id
      then m.(instances := m.instances[id := m.instances[id].(zeroed := true)], unlocked := m.unlocked - {a})
      else m
  }

  // ---- the invariant ----

  predicate Holds(m: Manager, id: nat)
    requires id < |m.instances|
  {
    m.instances[id].address in m.unlocked && m.unlocked[m.instances[id].address] == id
  }

  /** A key in the map is usable, and if it is timed its own expiry has not
      finished. A key that left the map was zeroed, unless a new unlock of its
      address replaced it. */
  ghost predicate InstanceOk(m: Manager, id: nat) {
    id < |m.instances| ==>
      var u := m.instances[id];
      && (Holds(m, id) ==> !u.zeroed && u.abort != Closed)
      && (Holds(m, id) && u.abort == Open ==>
            u.timer < |m.expiries| && m.expiries[u.timer].id == id && m.expiries[u.timer].origin == Timer &&
            m.expiries[u.timer].phase != Finished)
      && (!Holds(m, id) ==> (u.zeroed <==> u.abort != Closed))
  }

  ghost predicate EntryOk(m: Manager, a: Address) {
    a in m.unlocked ==> m.unlocked[a] < |m.instances| && m.instances[m.unlocked[a]].address == a
  }

  /** Only timed unlocks start a timer, and a finished expiry leaves its key out
      of the map. */
  ghost predicate ExpiryOk(m: Manager, i: nat) {
    i < |m.expiries| ==>
      && m.expiries[i].id < |m.instances|
      && (m.expiries[i].origin == Timer ==>
            m.instances[m.expiries[i].id].abort != NoChannel && m.instances[m.expiries[i].id].timer == i)
      && (m.expiries[i].phase == Finished ==> !Holds(m, m.expiries[i].id))
  }

  ghost predicate Invariant(m: Manager) {
    && !m.panicked
    && (forall id: nat {:trigger InstanceOk(m, id)} :: InstanceOk(m, id))
    && (forall a {:trigger EntryOk(m, a)} :: EntryOk(m, a))
    && (forall i: nat {:trigger ExpiryOk(m, i)} :: ExpiryOk(m, i))
  }

  // ---- every step keeps it ----

  lemma CloseUnlockKeeps(m: Manager, a: Address, timed: bool)
    requires Invariant(m) && a in m.unlocked && m.unlocked[a] < |m.instances|
    requires m.instances[m.unlocked[a]].abort != NoChannel
    ensures Invariant(Unlocked(Close(m, m.unlocked[a]), a, timed))
  {
    var id0 := m.unlocked[a];
    var m' := Unlocked(Close(m, id0), a, timed);
    assert EntryOk(m, a) && InstanceOk(m, id0);
    forall id: nat ensures InstanceOk(m', id) {
      assert InstanceOk(m, id);
    }
    forall b ensures EntryOk(m', b) {
      assert EntryOk(m, b);
    }
    forall i: nat ensures ExpiryOk(m', i) {
      assert ExpiryOk(m, i);
    }
  }

  lemma UnlockKeeps(m: Manager, a: Address, timed: bool)
    requires Invariant(m) && a !in m.unlocked
    ensures Invariant(Unlocked(m, a, timed))
  {
    var m' := Unlocked(m, a, timed);
    forall id: nat ensures InstanceOk(m', id) {
      assert InstanceOk(m, id);
    }
    forall b ensures EntryOk(m', b) {
      assert EntryOk(m, b);
    }
    forall i: nat ensures ExpiryOk(m', i) {
      assert ExpiryOk(m, i);
    }
  }

  lemma LockKeeps(m: Manager, a: Address)
    requires Invariant(m)
    ensures Invariant(Next(m, Lock(a)))
  {
    var m' := Next(m, Lock(a));
    assert EntryOk(m, a);
    forall id: nat ensures InstanceOk(m', id) {
      assert InstanceOk(m, id);
    }
    forall b ensures EntryOk(m', b) {
      assert EntryOk(m, b);
    }
    forall i: nat ensures ExpiryOk(m', i) {
      assert ExpiryOk(m, i);
    }
  }

  /** An expiry may move on if its own key is no longer in the map, or if it
      does not finish. */
  lemma PhaseKeeps(m: Manager, i: nat, p: Phase)
    requires Invariant(m) && i < |m.expiries|
    requires p == Finished && m.expiries[i].id < |m.instances| ==> !Holds(m, m.expiries[i].id)
    ensures Invariant(Phased(m, i, p))
  {
    var m' := Phased(m, i, p);
    assert ExpiryOk(m, i);
    forall id: nat ensures InstanceOk(m', id) {
      assert InstanceOk(m, id);
    }
    forall b ensures EntryOk(m', b) {
      assert EntryOk(m, b);
    }
    forall j: nat ensures ExpiryOk(m', j) {
      assert ExpiryOk(m, j);
    }
  }

  lemma DropKeeps(m: Manager, i: nat)
    requires Invariant(m) && i < |m.expiries|
    ensures Invariant(Dropped(Phased(m, i, Finished), i))
  {
    var m' := Dropped(Phased(m, i, Finished), i);
    assert ExpiryOk(m, i);
    var id0 := m.expiries[i].id;
    assert EntryOk(m, m.instances[id0].address);
    forall id: nat ensures InstanceOk(m', id) {
      assert InstanceOk(m, id);
    }
    forall b ensures EntryOk(m', b) {
      assert EntryOk(m, b);
    }
    forall j: nat ensures ExpiryOk(m', j) {
      assert ExpiryOk(m, j);
    }
  }

  lemma StepKeeps(m: Manager, e: Event)
    requires Invariant(m) && Enabled(m, e)
    ensures Invariant(Next(m, e))
  {
    match e
    case TimedUnlock(a, timed) =>
      assert EntryOk(m, a);
      if a !in m.unlocked {
        UnlockKeeps(m, a, timed);
      } else if m.instances[m.unlocked[a]].abort != NoChannel {
        CloseUnlockKeeps(m, a, timed);
      }
    case Lock(a) => LockKeeps(m, a);
    case Abort(i) =>
      assert InstanceOk(m, m.expiries[i].id);
      PhaseKeeps(m, i, Finished);
    case Fire(i) => PhaseKeeps(m, i, Fired);
    case Drop(i) => DropKeeps(m, i);
  }

  // ---- what a step does ----

  /** An unlock for good stays as it is. Otherwise the address gets a new key with
      an open channel and an expiry of its own exactly if it is timed, the old
      key's channel is closed, and nothing else changes. */
  lemma UnlockEffect(m: Manager, a: Address, timed: bool)
    requires Invariant(m)
    ensures var m', id := Next(m, TimedUnlock(a, timed)), |m.instances|;
      var was := if a in m.unlocked then m.unlocked[a] else id;
      if was < id && m.instances[was].abort == NoChannel then m' == m
      else
        && m'.unlocked == m.unlocked[a := id] && |m'.instances| == id + 1 && !m'.panicked
        && m'.instances[id].address == a && !m'.instances[id].zeroed
        && m'.instances[id].abort == (if timed then Open else NoChannel)
        && m'.expiries == m.expiries + (if timed then [Expiry(id, Timer, Waiting)] else [])
        && (forall k :: 0 <= k < id && k != was ==> m'.instances[k] == m.instances[k])
        && (was < id ==> m'.instances[was] == m.instances[was].(abort := Closed))
  {
    assert EntryOk(m, a);
    if a in m.unlocked {
      assert InstanceOk(m, m.unlocked[a]);
    }
  }

  /** Lock starts an expiry for the key that it found. If that fires, the key is
      zeroed and the address locked; the key of no other address is touched. */
  lemma LockEffect(m: Manager, a: Address)
    requires Invariant(m)
    ensures a !in m.unlocked ==> Next(m, Lock(a)) == m
    ensures a in m.unlocked ==>
      var m1, i, id := Next(m, Lock(a)), |m.expiries|, m.unlocked[a];
      var m2 := Next(m1, Fire(i));
      var m3 := Next(m2, Drop(i));
      && m1 == m.(expiries := m.expiries + [Expiry(id, LockCall, Waiting)])
      && Enabled(m1, Fire(i)) && Enabled(m2, Drop(i))
      && m3.unlocked == m.unlocked - {a} && id < |m.instances| == |m3.instances|
      && m3.instances == m.instances[id := m.instances[id].(zeroed := true)]
  {
    assert EntryOk(m, a);
  }

  /** A timed unlock that nothing disturbs ends with the key zeroed and the
      address locked. */
  lemma TimedUnlockEnds(m: Manager, a: Address)
    requires Invariant(m) && a !in m.unlocked
    ensures var m1, i, id := Next(m, TimedUnlock(a, true)), |m.expiries|, |m.instances|;
      var m2 := Next(m1, Fire(i));
      var m3 := Next(m2, Drop(i));
      && Enabled(m1, Fire(i)) && Enabled(m2, Drop(i))
      && m3.unlocked == m.unlocked && |m3.instances| == id + 1 && m3.instances[id].zeroed
  {
  }

  // ---- runs ----

  /** The state after a run, if every step was enabled. */
  ghost function After(events: seq<Event>): Option<Manager> {
    if events == [] then Some(EMPTY_MANAGER) else
      var m := After(events[..|events| - 1]);
      if m.Some? && Enabled(m.value, events[|events| - 1]) then Some(Next(m.value, events[|events| - 1])) else None
  }

  /** Whatever the interleaving: no channel is closed twice, every timed entry
      has a live expiry of its own, and no key in the map was zeroed. */
  lemma {:induction false} EveryRun(events: seq<Event>)
    requires After(events).Some?
    ensures Invariant(After(events).value)
  {
    if events != [] {
      EveryRun(events[..|events| - 1]);
      StepKeeps(After(events[..|events| - 1]).value, events[|events| - 1]);
    }
  }

  /** A key unlocked for good leaves the map only in the critical section of an
      expire that Lock called for that very key; a new unlock leaves it be. */
  lemma IndefiniteOnlyByLock(events: seq<Event>, e: Event, a: Address)
    requires After(events).Some? && Enabled(After(events).value, e)
    requires var m := After(events).value;
      a in m.unlocked && m.unlocked[a] < |m.instances| && m.instances[m.unlocked[a]].abort == NoChannel
    ensures var m, m' := After(events).value, Next(After(events).value, e);
      (a in m'.unlocked && m'.unlocked[a] == m.unlocked[a]) ||
      (e.Drop? && m.expiries[e.expiry].origin == LockCall && m.expiries[e.expiry].id == m.unlocked[a] && a !in m'.unlocked)
  {
    EveryRun(events);
    var m := After(events).value;
    assert EntryOk(m, a);
    if e.Drop? {
      assert ExpiryOk(m, e.expiry);
    }
  }

  /** Once an expire has finished, through either branch of its select, its key
      is not in the map, then or ever; so a Lock that returns keeps its promise. */
  lemma {:induction false} FinishedForGood(events: seq<Event>, i: nat, n: nat)
    requires After(events).Some? && n <= |events| && After(events[..n]).Some?
    requires i < |After(events[..n]).value.expiries| && After(events[..n]).value.expiries[i].phase == Finished
    ensures var id := After(events[..n]).value.expiries[i].id;
      id < |After(events).value.instances| && !Holds(After(events).value, id)
    decreases |events|
  {
    if n == |events| {
      assert events[..n] == events;
      EveryRun(events);
      assert ExpiryOk(After(events).value, i);
    } else {
      var front := events[..|events| - 1];
      assert front[..n] == events[..n];
      FinishedForGood(front, i, n);
      EveryRun(front);
      StaysOut(After(front).value, events[|events| - 1], After(events[..n]).value.expiries[i].id);
    }
  }

  lemma StaysOut(m: Manager, e: Event, id: nat)
    requires Invariant(m) && Enabled(m, e) && id < |m.instances| && !Holds(m, id)
    ensures id < |Next(m, e).instances| && !Holds(Next(m, e), id)
  {
  }
}
