/** Uncle rules (core/block_validator.go:212-257) and block rewards
    (core/state_processor.go:147-161). */
module Uncles {
  import opened Basics
  import opened TxTypes
  import opened ChainTypes
  import opened Consensus

  datatype UncleError = TooManyUncles | NotUnique | IsAncestor | ParentNotAncestor | InvalidHeader(error: HeaderError)

  /** `u` is already an uncle of one of the recent blocks. */
  ghost predicate Included(recent: seq<Header>, u: Header) {
    exists k :: 0 <= k < |recent| && u in recent[k].uncles
  }

  /** Where an acceptable uncle stands. */
  ghost predicate Placed(block: Header, parent: Header, recent: seq<Header>, u: Header) {
    && u != block && u !in recent && !Included(recent, u)
    && u.parent.HashOf? && u.parent.header != parent && (u.parent.header in recent || u.parent.header == block)
  }

  /** What makes one uncle acceptable. */
  ghost predicate UncleOk(config: ChainConfig, block: Header, parent: Header, recent: seq<Header>, u: Header) {
    Placed(block, parent, recent, u) && ValidateHeader(config, 0, u, u.parent.header, true) == None
  }

  ghost predicate UnclesOk(config: ChainConfig, block: Header, parent: Header, recent: seq<Header>) {
    && |block.uncles| <= 2
    && (forall i, j :: 0 <= i < j < |block.uncles| ==> block.uncles[i] != block.uncles[j])
    && forall i :: 0 <= i < |block.uncles| ==> UncleOk(config, block, parent, recent, block.uncles[i])
  }

  /** What the ancestor map and the uncle set hold before any uncle was seen. */
  ghost predicate CollectedAt(block: Header, recent: seq<Header>, ancestors: map<Hash, Header>, uncles: set<Hash>, h: Header) {
    && (HashOf(h) in ancestors <==> h in recent || h == block)
    && (HashOf(h) in ancestors ==> ancestors[HashOf(h)] == h)
    && (HashOf(h) in uncles <==> Included(recent, h) || h == block)
  }

  ghost predicate Collected(block: Header, recent: seq<Header>, ancestors: map<Hash, Header>, uncles: set<Hash>) {
    && ZeroHash !in ancestors
    && forall h {:trigger CollectedAt(block, recent, ancestors, uncles, h)} :: CollectedAt(block, recent, ancestors, uncles, h)
  }

  method Collect(block: Header, recent: seq<Header>) returns (ancestors: map<Hash, Header>, uncles: set<Hash>)
    ensures Collected(block, recent, ancestors, uncles)
  {
    ancestors, uncles := map[], {};
    for i := 0 to |recent|
      invariant ZeroHash !in ancestors
      invariant forall h :: HashOf(h) in ancestors <==> h in recent[..i]
      invariant forall h :: HashOf(h) in ancestors ==> ancestors[HashOf(h)] == h
      invariant forall h :: HashOf(h) in uncles <==> Included(recent[..i], h)
    {
      ancestors := ancestors[HashOf(recent[i]) := recent[i]];
      var more := HashesOf(recent[i].uncles);
      uncles := uncles + more;
      forall h ensures Included(recent[..i + 1], h) <==> Included(recent[..i], h) || h in recent[i].uncles {
        IncludedNext(recent, i, h);
      }
    }
    assert recent[..|recent|] == recent;
    ancestors := ancestors[HashOf(block) := block];
    uncles := uncles + {HashOf(block)};
  }

  lemma IncludedNext(recent: seq<Header>, i: nat, h: Header)
    requires i < |recent|
    ensures Included(recent[..i + 1], h) <==> Included(recent[..i], h) || h in recent[i].uncles
  {
    var shorter, longer := recent[..i], recent[..i + 1];
    if Included(shorter, h) {
      var k :| 0 <= k < i && h in shorter[k].uncles;
      assert h in longer[k].uncles;
    }
    if h in recent[i].uncles {
      assert h in longer[i].uncles;
    }
    if Included(longer, h) && h !in recent[i].uncles {
      var k :| 0 <= k <= i && h in longer[k].uncles;
      assert h in shorter[k].uncles;
    }
  }

  method HashesOf(headers: seq<Header>) returns (hashes: set<Hash>)
    ensures forall h :: HashOf(h) in hashes <==> h in headers
  {
    hashes := {};
    for i := 0 to |headers|
      invariant forall h :: HashOf(h) in hashes <==> h in headers[..i]
    {
      hashes := hashes + {HashOf(headers[i])};
    }
    assert headers[..|headers|] == headers;
  }

  /** The checks on one uncle; `seen` are the uncles of this block before it. */
  method CheckUncle(config: ChainConfig, block: Header, parent: Header, ghost recent: seq<Header>, uncle: Header,
                    ancestors: map<Hash, Header>, uncles: set<Hash>, ghost collected: set<Hash>, ghost seen: seq<Header>)
    returns (error: Option<UncleError>)
    requires Collected(block, recent, ancestors, collected)
    requires forall h :: HashOf(h) in uncles <==> HashOf(h) in collected || h in seen
    ensures error.None? <==> uncle !in seen && UncleOk(config, block, parent, recent, uncle)
  {
    assert CollectedAt(block, recent, ancestors, collected, uncle);
    assert uncle.parent.HashOf? ==> CollectedAt(block, recent, ancestors, collected, uncle.parent.header);
    if HashOf(uncle) in uncles {
      return Some(NotUnique);
    }
    if HashOf(uncle) in ancestors {
      return Some(IsAncestor);
    }
    if uncle.parent !in ancestors || uncle.parent == HashOf(parent) {
      return Some(ParentNotAncestor);
    }
    var invalid := ValidateHeader(config, 0, uncle, ancestors[uncle.parent], true);
    if invalid.Some? {
      return Some(InvalidHeader(invalid.value));
    }
    error := None;
  }

  /** Accepts exactly the blocks whose uncles are in order with respect to the
      `recent` blocks. */
  method CheckUncles(config: ChainConfig, block: Header, parent: Header, recent: seq<Header>) returns (error: Option<UncleError>)
    ensures error.None? <==> UnclesOk(config, block, parent, recent)
  {
    if |block.uncles| > 2 {
      return Some(TooManyUncles);
    }
    var ancestors, uncles := Collect(block, recent);
    ghost var collected := uncles;
    for i := 0 to |block.uncles|
      invariant forall j :: 0 <= j < i ==> UncleOk(config, block, parent, recent, block.uncles[j])
      invariant forall j, k :: 0 <= j < k < i ==> block.uncles[j] != block.uncles[k]
      invariant forall h :: HashOf(h) in uncles <==> HashOf(h) in collected || h in block.uncles[..i]
    {
      error := CheckUncle(config, block, parent, recent, block.uncles[i], ancestors, uncles, collected, block.uncles[..i]);
      if error.Some? {
        return;
      }
      uncles := uncles + {HashOf(block.uncles[i])};
    }
    error := None;
  }

  // ---- uncles by ancestry ----

  /** The last seven ancestors, or all, from the parent down. */
  ghost function Recent(block: Header): (r: seq<Header>)
    ensures |r| == Min(7, block.number)
    ensures forall k :: 0 <= k < |r| ==> r[k] == Ancestor(block, block.number - 1 - k)
  {
    seq(Min(7, block.number), k requires 0 <= k < Min(7, block.number) => Ancestor(block, block.number - 1 - k))
  }

  /** `u` is an uncle of the ancestor at height `n`. */
  ghost predicate UncleAt(block: Header, n: nat, u: Header) {
    u in Ancestor(block, n).uncles
  }

  /** `u` stands where uncles of `block` belong: no ancestor of it at any height,
      no uncle of the last seven, and a child of an ancestor two to seven below. */
  ghost predicate ProperPlace(block: Header, u: Header) {
    && (forall n: nat :: u != Ancestor(block, n))
    && (forall n: nat :: n < block.number <= n + 7 ==> !UncleAt(block, n, u))
    && 1 <= u.number && 1 <= block.number - u.number <= 6
    && u.parent == HashOf(Ancestor(block, u.number - 1))
  }

  ghost predicate ProperUncle(config: ChainConfig, block: Header, u: Header) {
    ProperPlace(block, u) && ValidateHeader(config, 0, u, u.parent.header, true) == None
  }

  ghost predicate ProperUncles(config: ChainConfig, block: Header) {
    && |block.uncles| <= 2
    && (forall i, j :: 0 <= i < j < |block.uncles| ==> block.uncles[i] != block.uncles[j])
    && forall i :: 0 <= i < |block.uncles| ==> ProperUncle(config, block, block.uncles[i])
  }

  /** No block is inside itself. */
  lemma NotInside(block: Header, u: Header)
    requires u in block.uncles
    ensures u.parent != HashOf(block)
  {
  }

  lemma RecentAt(block: Header, g: Header, h: Header)
    requires Descends(block, g) && g.number == 0
    ensures h in Recent(block) <==> h.number < block.number <= h.number + 7 && h == Ancestor(block, h.number)
  {
    if h in Recent(block) {
      RecentHeight(block, g, h);
    } else if h.number < block.number <= h.number + 7 {
      RecentIndex(block, block.number - 1 - h.number);
    }
  }

  lemma RecentHeight(block: Header, g: Header, h: Header)
    requires Descends(block, g) && g.number == 0 && h in Recent(block)
    ensures h.number < block.number <= h.number + 7 && h == Ancestor(block, h.number)
  {
    var r := Recent(block);
    var k :| 0 <= k < |r| && r[k] == h;
    AncestorHeight(block, g, block.number - 1 - k);
  }

  lemma RecentIndex(block: Header, k: nat)
    requires k < 7 && k < block.number
    ensures Ancestor(block, block.number - 1 - k) in Recent(block)
  {
    var r := Recent(block);
    assert r[k] == Ancestor(block, block.number - 1 - k);
  }

  lemma RecentIncluded(block: Header, u: Header)
    ensures !Included(Recent(block), u) <==> forall n: nat :: n < block.number <= n + 7 ==> !UncleAt(block, n, u)
  {
    var r := Recent(block);
    if Included(r, u) {
      var k :| 0 <= k < |r| && u in r[k].uncles;
      var n: nat := block.number - 1 - k;
      assert n < block.number <= n + 7 && UncleAt(block, n, u);
    } else {
      forall n: nat | n < block.number <= n + 7 ensures !UncleAt(block, n, u) {
        assert r[block.number - 1 - n] == Ancestor(block, n);
      }
    }
  }

  lemma PlacedIff(block: Header, g: Header, u: Header)
    requires Descends(block, g) && g.number == 0 && block != g && u in block.uncles
    requires u.parent.HashOf? ==> u.number == u.parent.header.number + 1
    ensures Placed(block, block.parent.header, Recent(block), u) <==> ProperPlace(block, u)
  {
    NotInside(block, u);
    RecentIncluded(block, u);
    if Placed(block, block.parent.header, Recent(block), u) {
      CheckedParent(block, g, u);
      NoAncestor(block, g, u);
    } else if ProperPlace(block, u) {
      ProperIsChecked(block, g, u);
    }
  }

  lemma ValidNumber(config: ChainConfig, now: nat, header: Header, parent: Header, uncle: bool)
    ensures ValidateHeader(config, now, header, parent, uncle) == None ==> header.number == parent.number + 1
  {
  }

  /** The checks against the last seven ancestors accept exactly the proper uncles. */
  lemma CheckedIsProper(config: ChainConfig, block: Header, g: Header, u: Header)
    requires Descends(block, g) && g.number == 0 && block != g && u in block.uncles
    ensures UncleOk(config, block, block.parent.header, Recent(block), u) <==> ProperUncle(config, block, u)
  {
    if u.parent.HashOf? {
      ValidNumber(config, 0, u, u.parent.header, true);
      if u.number == u.parent.header.number + 1 {
        PlacedIff(block, g, u);
      }
    }
  }

  lemma ProperIsChecked(block: Header, g: Header, u: Header)
    requires Descends(block, g) && g.number == 0 && block != g && forall n: nat :: u != Ancestor(block, n)
    requires 1 <= u.number && 1 <= block.number - u.number <= 6 && u.parent == HashOf(Ancestor(block, u.number - 1))
    ensures u != block && u !in Recent(block) && u.parent.header in Recent(block) && u.parent.header != block.parent.header
  {
    AncestorHeight(block, g, u.number - 1);
    RecentAt(block, g, u.parent.header);
    RecentAt(block, g, u);
    assert u != Ancestor(block, block.number) && u != Ancestor(block, u.number);
  }

  lemma CheckedParent(block: Header, g: Header, u: Header)
    requires Descends(block, g) && g.number == 0 && block != g && u.parent.HashOf?
    requires u.parent.header in Recent(block) && u.parent.header != block.parent.header && u.number == u.parent.header.number + 1
    ensures 1 <= u.number && 1 <= block.number - u.number <= 6 && u.parent.header == Ancestor(block, u.number - 1)
  {
    RecentAt(block, g, u.parent.header);
    assert Ancestor(block, block.number - 1) == block.parent.header;
  }

  lemma NoAncestor(block: Header, g: Header, u: Header)
    requires Descends(block, g) && g.number == 0 && u != block && u !in Recent(block)
    requires u.number < block.number <= u.number + 7
    ensures forall n: nat :: u != Ancestor(block, n)
  {
    forall n: nat ensures u != Ancestor(block, n) {
      if n <= block.number {
        AncestorHeight(block, g, n);
        RecentAt(block, g, u);
      }
    }
  }

  lemma ChecksAreProper(config: ChainConfig, block: Header, g: Header)
    requires Descends(block, g) && g.number == 0 && block != g
    ensures UnclesOk(config, block, block.parent.header, Recent(block)) <==> ProperUncles(config, block)
  {
    forall i | 0 <= i < |block.uncles|
      ensures UncleOk(config, block, block.parent.header, Recent(block), block.uncles[i]) <==> ProperUncle(config, block, block.uncles[i])
    {
      CheckedIsProper(config, block, g, block.uncles[i]);
    }
  }

  // ---- rewards ----

  const BLOCK_REWARD: nat := 5_000000000_000000000

  /** What the coinbase of an uncle gets. */
  function UncleReward(header: Header, uncle: Header): int {
    (uncle.number + 8 - header.number) * BLOCK_REWARD / 8
  }

  ghost function UncleRewards(header: Header, uncles: seq<Header>): int {
    if uncles == [] then 0
    else UncleRewards(header, uncles[..|uncles| - 1]) + UncleReward(header, uncles[|uncles| - 1])
  }

  /** Everything a block mints. */
  ghost function Minted(header: Header): int {
    BLOCK_REWARD + |header.uncles| * (BLOCK_REWARD / 32) + UncleRewards(header, header.uncles)
  }

  /** An eighth of five ether less for each block of depth. */
  lemma UncleRewardAt(header: Header, u: Header)
    ensures UncleReward(header, u) == (8 - (header.number - u.number)) * 625_000000_000000000
  {
  }

  lemma UncleRewardRange(header: Header, u: Header)
    requires 1 <= header.number - u.number <= 6
    ensures 2 * BLOCK_REWARD / 8 <= UncleReward(header, u) <= 7 * BLOCK_REWARD / 8
  {
  }

  lemma {:induction false} UncleRewardsRange(header: Header, uncles: seq<Header>)
    requires forall i :: 0 <= i < |uncles| ==> 1 <= header.number - uncles[i].number <= 6
    ensures |uncles| * (2 * BLOCK_REWARD / 8) <= UncleRewards(header, uncles) <= |uncles| * (7 * BLOCK_REWARD / 8)
  {
    if uncles != [] {
      var front, last := uncles[..|uncles| - 1], uncles[|uncles| - 1];
      UncleRewardsRange(header, front);
      UncleRewardRange(header, last);
      OneMore(|front|, UncleRewards(header, front), UncleReward(header, last), 2 * BLOCK_REWARD / 8, 7 * BLOCK_REWARD / 8);
    }
  }

  lemma OneMore(n: int, sum: int, x: int, lo: int, hi: int)
    requires n * lo <= sum <= n * hi && lo <= x <= hi
    ensures (n + 1) * lo <= sum + x <= (n + 1) * hi
  {
  }

  lemma MintedRange(header: Header)
    requires |header.uncles| <= 2
    requires forall i :: 0 <= i < |header.uncles| ==> 1 <= header.number - header.uncles[i].number <= 6
    ensures BLOCK_REWARD <= Minted(header) <= 45 * BLOCK_REWARD / 16
  {
    UncleRewardsRange(header, header.uncles);
  }

  /** A block with proper uncles mints at most 45/16 of the block reward. */
  lemma MintedBound(config: ChainConfig, block: Header)
    requires ProperUncles(config, block)
    ensures BLOCK_REWARD <= Minted(block) <= 45 * BLOCK_REWARD / 16
  {
    MintedRange(block);
  }
}
