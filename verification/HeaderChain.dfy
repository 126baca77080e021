/** The header chain: fork choice by total difficulty, rewinding, and cached
    lookups (core/headerchain.go). */
module HeaderChains {
  import opened Basics
  import opened TxTypes
  import opened ChainTypes
  import opened HeaderStore

  datatype WriteStatus = CanonStatTy | SideStatTy

  /** A cache of bounded size: adding an entry may push any others out. */
  method CacheAdd<V>(cache: map<Hash, V>, hash: Hash, value: V) returns (r: map<Hash, V>)
    ensures hash in r && r[hash] == value
    ensures forall h :: h in r && h != hash ==> h in cache && r[h] == cache[h]
  {
    var evicted: set<Hash> := *;
    r := (cache - evicted)[hash := value];
  }

  /** Whatever a cache holds for a hash is what the records hold for it. */
  ghost predicate CachedAt(db: Records, headers: map<Hash, Header>, tds: map<Hash, int>, numbers: map<Hash, nat>, h: Hash) {
    && (h in headers ==> h.HashOf? && Has(db, h.header) && headers[h] == h.header)
    && (h in tds ==> h.HashOf? && KeyOf(h.header) in db.tds && tds[h] == db.tds[KeyOf(h.header)])
    && (h in numbers ==> h in db.numbers && numbers[h] == db.numbers[h])
  }

  ghost predicate Cached(db: Records, headers: map<Hash, Header>, tds: map<Hash, int>, numbers: map<Hash, nat>) {
    forall h {:trigger CachedAt(db, headers, tds, numbers, h)} :: CachedAt(db, headers, tds, numbers, h)
  }

  /** A header cache never holds a wrong header, even before stale entries
      are purged. */
  ghost predicate Truthful(headers: map<Hash, Header>) {
    forall h :: h in headers ==> h == HashOf(headers[h])
  }

  lemma CachedIsTruthful(db: Records, headers: map<Hash, Header>, tds: map<Hash, int>, numbers: map<Hash, nat>)
    requires Cached(db, headers, tds, numbers)
    ensures Truthful(headers)
  {
    forall h | h in headers ensures h == HashOf(headers[h]) {
      assert CachedAt(db, headers, tds, numbers, h);
    }
  }

  lemma RecordKeepsCached(db: Records, g: Header, x: Header, td: int,
                          headers: map<Hash, Header>, tds: map<Hash, int>, numbers: map<Hash, nat>, tds': map<Hash, int>)
    requires Recorded(db, g) && td == TotalDifficulty(x, g) && Cached(db, headers, tds, numbers)
    requires forall h :: h in tds' && h != HashOf(x) ==> h in tds && tds'[h] == tds[h]
    requires HashOf(x) in tds' && tds'[HashOf(x)] == td
    ensures Cached(Record(db, x, td), headers, tds', numbers)
  {
    forall h ensures CachedAt(Record(db, x, td), headers, tds', numbers, h) {
      assert CachedAt(db, headers, tds, numbers, h);
      assert RecordedAt(db, g, x);
    }
  }

  lemma DeletedAbove(can: Canonical, can': Canonical, c: Header, h: Header)
    requires ChainOf(can, c) && h.number > 0
    requires forall n :: n in can' <==> n in can && n <= h.number
    requires forall n :: n in can' ==> can'[n] == can[n]
    ensures Rerouted(can', c, h, h.number - 1)
  {
    var k := h.number - 1;
    forall n: nat ensures ReroutedAt(can', c, h, k, n) {
      assert ChainAt(can, c, n);
    }
  }

  class HeaderChain {
    const genesis: Header
    var records: Records
    var canonical: Canonical
    var headHeader: Hash
    var current: Header
    var headerCache: map<Hash, Header>
    var tdCache: map<Hash, int>
    var numberCache: map<Hash, nat>

    /** What every run of lookups and SetHead keeps: records agree with their
        headers and caches with the records. */
    ghost predicate Coherent()
      reads this
    {
      Recorded(records, genesis) && Cached(records, headerCache, tdCache, numberCache)
    }

    /** What every run of WriteHeader from genesis keeps. */
    ghost predicate Valid()
      reads this
    {
      && Coherent()
      && genesis.number == 0 && Has(records, genesis) && Has(records, current)
      && Closed(records, genesis)
      && ChainOf(canonical, current)
      && Heaviest(records, genesis, current)
      && headHeader == HashOf(current)
    }

    constructor (g: Header)
      requires g.number == 0
      ensures Valid() && genesis == g && current == g
      ensures forall x :: Has(records, x) <==> x == g
    {
      genesis, current := g, g;
      records := Record(Records(map[], map[], map[]), g, g.difficulty);
      canonical, headHeader := map[0 := HashOf(g)], HashOf(g);
      headerCache, tdCache, numberCache := map[], map[], map[];
      new;
      RecordKeepsRecorded(Records(map[], map[], map[]), g, g, g.difficulty);
    }

    method GetBlockNumber(hash: Hash) returns (number: nat)
      requires Coherent()
      modifies `numberCache
      ensures Coherent() && number == FindNumber(records, hash)
      ensures number != MISSING_NUMBER ==> hash in numberCache
    {
      assert CachedAt(records, headerCache, tdCache, numberCache, hash);
      if hash in numberCache {
        return numberCache[hash];
      }
      number := FindNumber(records, hash);
      if number != MISSING_NUMBER {
        ghost var c0 := numberCache;
        numberCache := CacheAdd(numberCache, hash, number);
        forall h ensures CachedAt(records, headerCache, tdCache, numberCache, h) {
          assert CachedAt(records, headerCache, tdCache, c0, h);
        }
      }
    }

    /** The cache ignores the number; the answer differs from the uncached one
        exactly when a cached hash is asked for under a number not its own. */
    method GetTd(hash: Hash, number: nat) returns (td: Option<int>)
      requires Coherent()
      modifies `tdCache
      ensures Coherent()
      ensures td == FindTd(records, hash, number) <==> hash !in old(tdCache) || (hash, number) in records.tds
      ensures td.Some? ==> hash.HashOf? && td == FindTd(records, hash, hash.header.number) && hash in tdCache
    {
      assert CachedAt(records, headerCache, tdCache, numberCache, hash);
      assert Owned((hash, number)) || (hash, number) !in records.tds;
      if hash in tdCache {
        return Some(tdCache[hash]);
      }
      td := FindTd(records, hash, number);
      if td.None? {
        return None;
      }
      ghost var c0 := tdCache;
      tdCache := CacheAdd(tdCache, hash, td.value);
      forall h ensures CachedAt(records, headerCache, tdCache, numberCache, h) {
        assert CachedAt(records, headerCache, c0, numberCache, h);
      }
    }

    method GetHeader(hash: Hash, number: nat) returns (header: Option<Header>)
      requires Recorded(records, genesis) && Truthful(headerCache)
      modifies `headerCache
      ensures Truthful(headerCache) && (old(Coherent()) ==> Coherent())
      ensures header == FindHeader(records, hash, number) <==> hash !in old(headerCache) || (hash, number) in records.headers
      ensures header.Some? ==> hash == HashOf(header.value) && hash in headerCache
    {
      assert Owned((hash, number)) || (hash, number) !in records.headers;
      assert hash.HashOf? ==> RecordedAt(records, genesis, hash.header);
      if hash in headerCache {
        return Some(headerCache[hash]);
      }
      header := FindHeader(records, hash, number);
      if header.None? {
        return None;
      }
      ghost var c0 := headerCache;
      headerCache := CacheAdd(headerCache, hash, header.value);
      if Cached(records, c0, tdCache, numberCache) {
        forall h ensures CachedAt(records, headerCache, tdCache, numberCache, h) {
          assert CachedAt(records, c0, tdCache, numberCache, h);
        }
      }
    }

    method GetHeaderByHash(hash: Hash) returns (header: Option<Header>)
      requires Coherent()
      modifies `headerCache, `numberCache
      ensures Coherent()
      ensures header == if hash.HashOf? && Has(records, hash.header) then Some(hash.header) else None
    {
      var number := GetBlockNumber(hash);
      assert CachedAt(records, headerCache, tdCache, numberCache, hash);
      assert hash.HashOf? ==> RecordedAt(records, genesis, hash.header);
      assert Owned((hash, number)) || (hash, number) !in records.headers;
      CachedIsTruthful(records, headerCache, tdCache, numberCache);
      header := GetHeader(hash, number);
    }

    method GetTdByHash(hash: Hash) returns (td: Option<int>)
      requires Coherent()
      modifies `tdCache, `numberCache
      ensures Coherent()
      ensures td == if hash.HashOf? && Has(records, hash.header) then Some(TotalDifficulty(hash.header, genesis)) else None
    {
      var number := GetBlockNumber(hash);
      assert hash.HashOf? ==> RecordedAt(records, genesis, hash.header);
      td := GetTd(hash, number);
    }

    method GetHeaderByNumber(number: nat) returns (header: Option<Header>)
      requires Valid()
      modifies `headerCache
      ensures Valid()
      ensures header == if number <= current.number then Some(Ancestor(current, number)) else None
    {
      var hash := CanonicalHash(canonical, number);
      assert ChainAt(canonical, current, number);
      if hash == ZeroHash {
        return None;
      }
      AncestorRecorded(records, genesis, current, number);
      AncestorHeight(current, genesis, number);
      assert RecordedAt(records, genesis, Ancestor(current, number));
      CachedIsTruthful(records, headerCache, tdCache, numberCache);
      header := GetHeader(hash, number);
    }

    /** Deletes the canonical entries above `number`, up to the first gap. */
    method DeleteAbove(number: nat)
      requires ChainOf(canonical, current)
      modifies `canonical
      ensures forall n :: n in canonical <==> n in old(canonical) && n <= number
      ensures forall n :: n in canonical ==> canonical[n] == old(canonical[n])
    {
      var i := number + 1;
      while CanonicalHash(canonical, i) != ZeroHash
        invariant number < i
        invariant forall n :: n in canonical <==> n in old(canonical) && !(number < n < i)
        invariant forall n :: n in canonical ==> canonical[n] == old(canonical[n])
        decreases |canonical|
      {
        canonical := canonical - {i};
        i := i + 1;
      }
      assert ChainAt(old(canonical), current, i);
      forall n | i <= n ensures n !in old(canonical) {
        assert ChainAt(old(canonical), current, n);
      }
    }

    /** Overwrites stale entries below `header` until the chains meet, and
        puts `header` on top. */
    method Reroute(header: Header)
      requires Coherent() && Closed(records, genesis) && genesis.number == 0
      requires Has(records, current) && Has(records, header) && header != genesis
      requires header.number > 0 && Rerouted(canonical, current, header, header.number - 1)
      modifies `canonical, `headerCache
      ensures Coherent() && ChainOf(canonical, header)
    {
      assert ClosedAt(records, genesis, header) && ClosedAt(records, genesis, current);
      var headHash, headNumber := header.parent, header.number - 1;
      var headHeader := GetAncestor(header, headHash, headNumber);
      while CanonicalHash(canonical, headNumber) != headHash
        invariant Coherent() && 0 <= headNumber < header.number
        invariant headHash == HashOf(Ancestor(header, headNumber)) && headHeader == Ancestor(header, headNumber)
        invariant Rerouted(canonical, current, header, headNumber)
        decreases headNumber
      {
        if headNumber == 0 {
          MeetAtGenesis(canonical, current, header, genesis);
          assert false;
        }
        ParentOfAncestor(header, genesis, headNumber);
        RerouteStep(canonical, current, header, headNumber);
        canonical := canonical[headNumber := headHash];
        headHash, headNumber := headHeader.parent, headHeader.number - 1;
        headHeader := GetAncestor(header, headHash, headNumber);
      }
      RerouteDone(canonical, current, header, headNumber);
      canonical := canonical[header.number := HashOf(header)];
    }

    /** The lookups of the walk back never fail. */
    method GetAncestor(ghost top: Header, hash: Hash, number: nat) returns (header: Header)
      requires Coherent() && Closed(records, genesis) && genesis.number == 0
      requires Has(records, top) && number <= top.number && hash == HashOf(Ancestor(top, number))
      modifies `headerCache
      ensures Coherent() && header == Ancestor(top, number)
    {
      AncestorRecorded(records, genesis, top, number);
      AncestorHeight(top, genesis, number);
      assert RecordedAt(records, genesis, Ancestor(top, number));
      CachedIsTruthful(records, headerCache, tdCache, numberCache);
      var found := GetHeader(hash, number);
      header := found.value;
    }

    /** Writes total difficulty, header and number of a header. */
    method Store(header: Header, td: int)
      requires Coherent() && td == TotalDifficulty(header, genesis)
      modifies `records, `tdCache
      ensures Coherent() && records == Record(old(records), header, td) && HashOf(header) in tdCache
    {
      ghost var tds0 := tdCache;
      RecordKeepsRecorded(records, genesis, header, td);
      records := records.(tds := records.tds[(HashOf(header), header.number) := td]);
      tdCache := CacheAdd(tdCache, HashOf(header), td);
      records := records.(numbers := records.numbers[HashOf(header) := header.number]);
      records := records.(headers := records.headers[(HashOf(header), header.number) := header]);
      RecordKeepsCached(old(records), genesis, header, td, headerCache, tds0, numberCache, tdCache);
    }

    /** Caches a recorded header and its number. */
    method Remember(header: Header)
      requires Coherent() && Has(records, header)
      modifies `headerCache, `numberCache
      ensures Coherent() && HashOf(header) in headerCache && HashOf(header) in numberCache
    {
      ghost var c0, n0 := headerCache, numberCache;
      headerCache := CacheAdd(headerCache, HashOf(header), header);
      numberCache := CacheAdd(numberCache, HashOf(header), header.number);
      assert RecordedAt(records, genesis, header);
      forall h ensures CachedAt(records, headerCache, tdCache, numberCache, h) {
        assert CachedAt(records, c0, tdCache, n0, h);
      }
    }

    /** Records a header whose parent is known; it becomes the head exactly
        when it is heavier, or as heavy and the coin falls its way. */
    method WriteHeader(header: Header, coin: bool) returns (status: Option<WriteStatus>)
      requires Valid() && Numbered(header)
      modifies this
      ensures Valid()
      ensures status.Some? <==> header.parent.HashOf? && Has(old(records), header.parent.header)
      ensures status.None? ==> records == old(records) && current == old(current)
      ensures status.Some? ==> forall x :: Has(records, x) <==> x == header || Has(old(records), x)
      ensures status.Some? ==>
        (status == Some(CanonStatTy) <==>
          var extern, local := TotalDifficulty(header, genesis), TotalDifficulty(old(current), genesis);
          extern > local || (extern == local && coin))
      ensures current == if status == Some(CanonStatTy) then header else old(current)
      ensures status.Some? ==> HashOf(header) in headerCache && HashOf(header) in tdCache && HashOf(header) in numberCache
    {
      var hash, number := HashOf(header), header.number;
      assert header.parent.HashOf? ==> RecordedAt(records, genesis, header.parent.header);
      assert Owned((header.parent, Pred(number))) || (header.parent, Pred(number)) !in records.tds;
      var ptd := GetTd(header.parent, Pred(number));
      if ptd.None? {
        return None;
      }
      assert ClosedAt(records, genesis, header.parent.header) && RecordedAt(records, genesis, current);
      var localTd := GetTd(HashOf(current), current.number);
      var externTd := header.difficulty + ptd.value;
      assert header != genesis;
      assert externTd == TotalDifficulty(header, genesis);
      ghost var db0 := records;
      RecordKeepsClosed(db0, genesis, header, externTd);
      Store(header, externTd);
      if externTd > localTd.value || (externTd == localTd.value && coin) {
        ghost var can0 := canonical;
        DeleteAbove(number);
        DeletedAbove(can0, canonical, current, header);
        Reroute(header);
        RecordKeepsHeaviest(db0, genesis, current, header, header, externTd);
        headHeader, current := hash, header;
        status := Some(CanonStatTy);
      } else {
        RecordKeepsHeaviest(db0, genesis, current, current, header, externTd);
        status := Some(SideStatTy);
      }
      Remember(header);
    }

    /** Imports validated headers in order, skipping known ones, up to the
        first whose parent is unknown. */
    method ImportHeaders(chain: seq<Header>, coins: seq<bool>) returns (done: nat)
      requires Valid() && |coins| == |chain| && forall i :: 0 <= i < |chain| ==> Numbered(chain[i])
      modifies this
      ensures Valid()
      ensures done <= |chain| && forall x :: Has(records, x) <==> Has(old(records), x) || x in chain[..done]
      ensures done < |chain| ==> !(chain[done].parent.HashOf? && Has(records, chain[done].parent.header))
      ensures TotalDifficulty(current, genesis) >= TotalDifficulty(old(current), genesis)
    {
      ghost var db0, best := records, TotalDifficulty(current, genesis);
      for i := 0 to |chain|
        invariant Valid() && TotalDifficulty(current, genesis) >= best
        invariant forall x :: Has(records, x) <==> Has(db0, x) || x in chain[..i]
      {
        var known := GetHeaderByHash(HashOf(chain[i]));
        if known.None? {
          var status := WriteHeader(chain[i], coins[i]);
          if status.None? {
            return i;
          }
        }
      }
      done := |chain|;
    }

    method DeleteDown(height: nat, head: nat)
      requires ChainOf(canonical, current) && height == current.number
      modifies `canonical
      ensures forall n :: n in canonical <==> n in old(canonical) && n <= Min(head, height)
      ensures forall n :: n in canonical ==> canonical[n] == old(canonical[n])
    {
      var i := height;
      while i > head
        invariant Min(head, height) <= i <= height
        invariant forall n :: n in canonical <==> n in old(canonical) && !(i < n <= height)
        invariant forall n :: n in canonical ==> canonical[n] == old(canonical[n])
      {
        canonical := canonical - {i};
        i := i - 1;
      }
      forall n | height < n ensures n !in old(canonical) {
        assert ChainAt(old(canonical), current, n);
      }
    }

    /** Rewinds to height `head`: deletes exactly the canonical headers above
        it, newest first, and leaves the chain of the header at `head`. */
    method SetHead(head: nat) returns (deleted: seq<(Hash, nat)>)
      requires Valid()
      modifies this
      ensures current == Ancestor(old(current), head) && current.number == Min(head, old(current).number)
      ensures Coherent() && headerCache == map[] && tdCache == map[] && numberCache == map[]
      ensures ChainOf(canonical, current) && headHeader == HashOf(current)
      ensures Rewound(old(records), records, old(current), current.number)
      ensures |deleted| == old(current).number - current.number
      ensures forall i :: 0 <= i < |deleted| ==> deleted[i] == KeyOf(Ancestor(old(current), old(current).number - i))
    {
      ghost var c, db0, can0 := current, records, canonical;
      var height := current.number;
      ghost var stop := Min(head, height);
      var cur := Some(current);
      deleted := [];
      CachedIsTruthful(records, headerCache, tdCache, numberCache);
      RewindStart(db0, c);
      while cur.Some? && cur.value.number > head
        invariant cur.Some? && stop <= cur.value.number <= height && cur.value == Ancestor(c, cur.value.number)
        invariant canonical == can0 && current == c
        invariant Recorded(records, genesis) && Truthful(headerCache)
        invariant Rewound(db0, records, c, cur.value.number)
        invariant |deleted| == height - cur.value.number
        invariant forall i :: 0 <= i < |deleted| ==> deleted[i] == KeyOf(Ancestor(c, height - i))
        decreases if cur.Some? then cur.value.number else 0
      {
        var header := cur.value;
        var number := header.number;
        deleted := deleted + [(HashOf(header), number)];
        StillThere(db0, records, genesis, c, number);
        RewindStep(db0, records, c, number);
        ForgetKeepsRecorded(records, genesis, header);
        records := Forget(records, header);
        cur := GetHeader(header.parent, number - 1);
      }
      DeleteDown(height, head);
      AncestorRecorded(db0, genesis, c, stop);
      AncestorHeight(c, genesis, stop);
      Truncated(can0, canonical, c, stop);
      headerCache, tdCache, numberCache := map[], map[], map[];
      current := if cur.Some? then cur.value else genesis;
      headHeader := HashOf(current);
    }

    method SetCurrentHeader(head: Header)
      modifies `headHeader, `current
      ensures current == head && headHeader == HashOf(head)
    {
      headHeader := HashOf(head);
      current := head;
    }
  }

  /** Once the genesis header has been looked up, it is found under a number
      that is not its own, under which nothing is stored. */
  method ForeignNumber(g: Header, number: nat) returns (td: Option<int>, header: Option<Header>, hc: HeaderChain)
    requires g.number == 0 && number != 0
    ensures fresh(hc) && hc.Valid() && hc.genesis == g
    ensures td == Some(g.difficulty) && header == Some(g)
    ensures FindTd(hc.records, HashOf(g), number) == None && FindHeader(hc.records, HashOf(g), number) == None
  {
    hc := new HeaderChain(g);
    assert RecordedAt(hc.records, g, g) && !Owned((HashOf(g), number));
    var ownTd := hc.GetTd(HashOf(g), 0);
    CachedIsTruthful(hc.records, hc.headerCache, hc.tdCache, hc.numberCache);
    var own := hc.GetHeader(HashOf(g), 0);
    td := hc.GetTd(HashOf(g), number);
    CachedIsTruthful(hc.records, hc.headerCache, hc.tdCache, hc.numberCache);
    header := hc.GetHeader(HashOf(g), number);
  }
}
