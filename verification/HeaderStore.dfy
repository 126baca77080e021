/** The header database: records by hash and number, and the number-to-hash
    map of the canonical chain (core/database_util.go). */
module HeaderStore {
  import opened TxTypes
  import opened ChainTypes

  /** Headers and total difficulties under hash and number, numbers under hash. */
  datatype Records = Records(headers: map<(Hash, nat), Header>, tds: map<(Hash, nat), int>, numbers: map<Hash, nat>)

  type Canonical = map<nat, Hash>

  /** Answer for the number of an unknown hash. */
  const MISSING_NUMBER: nat := MAX_UINT64

  function KeyOf(x: Header): (Hash, nat) {
    (HashOf(x), x.number)
  }

  predicate Has(db: Records, x: Header) {
    KeyOf(x) in db.headers
  }

  function FindHeader(db: Records, hash: Hash, number: nat): Option<Header> {
    if (hash, number) in db.headers then Some(db.headers[(hash, number)]) else None
  }

  function FindTd(db: Records, hash: Hash, number: nat): Option<int> {
    if (hash, number) in db.tds then Some(db.tds[(hash, number)]) else None
  }

  function FindNumber(db: Records, hash: Hash): nat {
    if hash in db.numbers then db.numbers[hash] else MISSING_NUMBER
  }

  function CanonicalHash(can: Canonical, n: nat): Hash {
    if n in can then can[n] else ZeroHash
  }

  // ---- the records agree with the headers they are about ----

  ghost predicate RecordedAt(db: Records, g: Header, x: Header) {
    && (Has(db, x) <==> KeyOf(x) in db.tds)
    && (Has(db, x) <==> HashOf(x) in db.numbers)
    && (Has(db, x) ==>
          db.headers[KeyOf(x)] == x && db.tds[KeyOf(x)] == TotalDifficulty(x, g) && db.numbers[HashOf(x)] == x.number)
  }

  ghost predicate Owned(k: (Hash, nat)) {
    k.0.HashOf? && k.1 == k.0.header.number
  }

  ghost predicate Recorded(db: Records, g: Header) {
    && (forall x {:trigger RecordedAt(db, g, x)} :: RecordedAt(db, g, x))
    && (forall k {:trigger Owned(k)} :: k in db.headers || k in db.tds ==> Owned(k))
    && ZeroHash !in db.numbers
  }

  /** Every recorded header descends from genesis through recorded headers. */
  ghost predicate ClosedAt(db: Records, g: Header, x: Header) {
    Has(db, x) ==> Descends(x, g) && (x == g || Has(db, x.parent.header))
  }

  ghost predicate Closed(db: Records, g: Header) {
    forall x {:trigger ClosedAt(db, g, x)} :: ClosedAt(db, g, x)
  }

  /** No recorded header has more total difficulty than `c`. */
  ghost predicate HeaviestAt(db: Records, g: Header, c: Header, x: Header) {
    Has(db, x) ==> TotalDifficulty(x, g) <= TotalDifficulty(c, g)
  }

  ghost predicate Heaviest(db: Records, g: Header, c: Header) {
    forall x {:trigger HeaviestAt(db, g, c, x)} :: HeaviestAt(db, g, c, x)
  }

  /** The map is defined exactly on the heights of `c` and holds its ancestors. */
  ghost predicate ChainAt(can: Canonical, c: Header, n: nat) {
    && (n in can <==> n <= c.number)
    && (n in can ==> can[n] == HashOf(Ancestor(c, n)))
  }

  ghost predicate ChainOf(can: Canonical, c: Header) {
    forall n: nat {:trigger ChainAt(can, c, n)} :: ChainAt(can, c, n)
  }

  // ---- recording one more header ----

  function Record(db: Records, x: Header, td: int): Records {
    Records(db.headers[KeyOf(x) := x], db.tds[KeyOf(x) := td], db.numbers[HashOf(x) := x.number])
  }

  lemma RecordKeepsRecorded(db: Records, g: Header, x: Header, td: int)
    requires Recorded(db, g) && td == TotalDifficulty(x, g)
    ensures Recorded(Record(db, x, td), g)
  {
    var db' := Record(db, x, td);
    forall y ensures RecordedAt(db', g, y) {
      assert RecordedAt(db, g, y);
    }
    forall k | k in db'.headers || k in db'.tds ensures Owned(k) {
      if k != KeyOf(x) {
        assert k in db.headers || k in db.tds;
      }
    }
  }

  lemma RecordKeepsClosed(db: Records, g: Header, x: Header, td: int)
    requires Closed(db, g) && x.parent.HashOf? && Numbered(x) && Has(db, x.parent.header)
    ensures Closed(Record(db, x, td), g)
  {
    var db' := Record(db, x, td);
    assert ClosedAt(db, g, x.parent.header);
    forall y ensures ClosedAt(db', g, y) {
      assert ClosedAt(db, g, y);
    }
  }

  lemma RecordKeepsHeaviest(db: Records, g: Header, c: Header, c': Header, x: Header, td: int)
    requires Heaviest(db, g, c) && TotalDifficulty(c, g) <= TotalDifficulty(c', g)
    requires TotalDifficulty(x, g) <= TotalDifficulty(c', g)
    ensures Heaviest(Record(db, x, td), g, c')
  {
    var db' := Record(db, x, td);
    forall y ensures HeaviestAt(db', g, c', y) {
      assert HeaviestAt(db, g, c, y);
    }
  }

  // ---- rerouting the canonical chain from `c` to `h` ----

  /** Heights above `k` already belong to `h`, those up to `k` still to `c`. */
  ghost predicate ReroutedAt(can: Canonical, c: Header, h: Header, k: nat, n: nat) {
    && (n <= k ==> ChainAt(can, c, n))
    && (k < n < h.number ==> n in can && can[n] == HashOf(Ancestor(h, n)))
    && (h.number < n ==> n !in can)
  }

  ghost predicate Rerouted(can: Canonical, c: Header, h: Header, k: nat) {
    forall n: nat {:trigger ReroutedAt(can, c, h, k, n)} :: ReroutedAt(can, c, h, k, n)
  }

  lemma RerouteStep(can: Canonical, c: Header, h: Header, k: nat)
    requires Rerouted(can, c, h, k) && 0 < k < h.number
    ensures Rerouted(can[k := HashOf(Ancestor(h, k))], c, h, k - 1)
  {
    var can' := can[k := HashOf(Ancestor(h, k))];
    var k' := k - 1;
    forall n: nat ensures ReroutedAt(can', c, h, k', n) {
      assert ReroutedAt(can, c, h, k, n);
    }
  }

  /** Where the two ancestries meet they agree all the way down. */
  lemma RerouteDone(can: Canonical, c: Header, h: Header, k: nat)
    requires Rerouted(can, c, h, k) && k < h.number && CanonicalHash(can, k) == HashOf(Ancestor(h, k))
    ensures ChainOf(can[h.number := HashOf(h)], h)
  {
    var can' := can[h.number := HashOf(h)];
    assert ReroutedAt(can, c, h, k, k);
    assert Ancestor(c, k) == Ancestor(h, k);
    forall n: nat ensures ChainAt(can', h, n) {
      assert ReroutedAt(can, c, h, k, n);
      if n <= k {
        AncestorOfAncestor(c, k, n);
        AncestorOfAncestor(h, k, n);
      }
    }
  }

  /** At height 0 both ancestries are at genesis. */
  lemma MeetAtGenesis(can: Canonical, c: Header, h: Header, g: Header)
    requires Rerouted(can, c, h, 0) && Descends(c, g) && Descends(h, g) && g.number == 0
    ensures CanonicalHash(can, 0) == HashOf(Ancestor(h, 0))
  {
    assert ReroutedAt(can, c, h, 0, 0);
    AncestorHeight(c, g, 0);
    AncestorHeight(h, g, 0);
    AtHeightZero(Ancestor(c, 0), g);
    AtHeightZero(Ancestor(h, 0), g);
  }

  /** Every ancestor of a recorded header is recorded. */
  lemma {:induction false} AncestorRecorded(db: Records, g: Header, h: Header, n: nat)
    requires Closed(db, g) && Has(db, h) && g.number == 0 && n <= h.number
    ensures Descends(h, g) && Has(db, Ancestor(h, n))
    decreases h
  {
    assert ClosedAt(db, g, h);
    if h.number > n {
      AncestorRecorded(db, g, h.parent.header, n);
    }
  }

  lemma ParentOfAncestor(h: Header, g: Header, k: nat)
    requires Descends(h, g) && g.number == 0 && 0 < k <= h.number
    ensures Ancestor(h, k).number == k && Ancestor(h, k).parent == HashOf(Ancestor(h, k - 1))
  {
    AncestorHeight(h, g, k);
    AncestorOfAncestor(h, k, k - 1);
  }

  // ---- rewinding ----

  function Forget(db: Records, x: Header): Records {
    Records(db.headers - {KeyOf(x)}, db.tds - {KeyOf(x)}, db.numbers - {HashOf(x)})
  }

  lemma ForgetKeepsRecorded(db: Records, g: Header, x: Header)
    requires Recorded(db, g)
    ensures Recorded(Forget(db, x), g)
  {
    var db' := Forget(db, x);
    forall y ensures RecordedAt(db', g, y) {
      assert RecordedAt(db, g, y);
    }
    forall k | k in db'.headers || k in db'.tds ensures Owned(k) {
    }
  }

  ghost predicate OnChain(c: Header, x: Header) {
    x.number <= c.number && x == Ancestor(c, x.number)
  }

  /** Of the headers in `db`, `db'` lacks exactly the ancestors of `c` above height `k`. */
  ghost predicate RewoundAt(db: Records, db': Records, c: Header, k: nat, x: Header) {
    Has(db', x) <==> Has(db, x) && !(k < x.number && OnChain(c, x))
  }

  ghost predicate Rewound(db: Records, db': Records, c: Header, k: nat) {
    forall x {:trigger RewoundAt(db, db', c, k, x)} :: RewoundAt(db, db', c, k, x)
  }

  lemma RewindStep(db: Records, db': Records, c: Header, k: nat)
    requires Rewound(db, db', c, k) && 0 < k <= c.number && Ancestor(c, k).number == k
    ensures Rewound(db, Forget(db', Ancestor(c, k)), c, k - 1)
  {
    var k' := k - 1;
    forall x ensures RewoundAt(db, Forget(db', Ancestor(c, k)), c, k', x) {
      assert RewoundAt(db, db', c, k, x);
    }
  }

  lemma RewindStart(db: Records, c: Header)
    ensures Rewound(db, db, c, c.number)
  {
  }

  /** While rewinding, the next header down is still recorded. */
  lemma StillThere(db: Records, db': Records, g: Header, c: Header, k: nat)
    requires Closed(db, g) && Has(db, c) && g.number == 0 && 0 < k <= c.number
    requires Rewound(db, db', c, k) && Recorded(db', g)
    ensures Ancestor(c, k).number == k && Ancestor(c, k).parent == HashOf(Ancestor(c, k - 1))
    ensures Ancestor(c, k - 1).number == k - 1
    ensures FindHeader(Forget(db', Ancestor(c, k)), HashOf(Ancestor(c, k - 1)), k - 1) == Some(Ancestor(c, k - 1))
  {
    AncestorRecorded(db, g, c, k - 1);
    ParentOfAncestor(c, g, k);
    AncestorHeight(c, g, k - 1);
    assert RewoundAt(db, db', c, k, Ancestor(c, k - 1));
    assert RecordedAt(db', g, Ancestor(c, k - 1));
  }

  lemma Truncated(can: Canonical, can': Canonical, c: Header, n: nat)
    requires ChainOf(can, c) && n <= c.number && Ancestor(c, n).number == n
    requires forall i :: i in can' <==> i in can && i <= n
    requires forall i :: i in can' ==> can'[i] == can[i]
    ensures ChainOf(can', Ancestor(c, n))
  {
    forall i: nat ensures ChainAt(can', Ancestor(c, n), i) {
      assert ChainAt(can, c, i);
      if i <= n {
        AncestorOfAncestor(c, n, i);
      }
    }
  }
}
