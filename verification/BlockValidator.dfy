/** Validating a block against the chain (core/block_validator.go): its parent,
    its header and its uncles. */
module BlockValidator {
  import opened Basics
  import opened TxTypes
  import opened ChainTypes
  import opened HeaderStore
  import opened BlockChains
  import opened Consensus
  import opened Uncles

  datatype BlockError = UnknownParent | BadHeader(header: HeaderError) | BadUncles(uncles: UncleError)

  /** The ancestors of a block from its parent on. */
  lemma RecentRun(block: Header, g: Header)
    requires block.parent.HashOf? && Numbered(block) && Descends(block.parent.header, g) && g.number == 0
    ensures Recent(block) == AncestorRun(block.parent.header, 7) && Descends(block, g) && block != g
  {
    forall k: nat | k < Min(7, block.number) ensures Recent(block)[k] == AncestorRun(block.parent.header, 7)[k] {
      RecentAt(block, k);
    }
  }

  lemma RecentAt(block: Header, k: nat)
    requires block.parent.HashOf? && Numbered(block) && k < Min(7, block.number)
    ensures Recent(block)[k] == AncestorRun(block.parent.header, 7)[k]
  {
    AncestorFromParent(block, block.number - 1 - k);
  }

  lemma AncestorFromParent(block: Header, n: nat)
    requires block.parent.HashOf? && n < block.number
    ensures Ancestor(block, n) == Ancestor(block.parent.header, n)
  {
  }

  /** Accepts exactly the blocks whose uncles are at most two, distinct and proper. */
  method VerifyUncles(bc: BlockChain, config: ChainConfig, block: Header, parent: Header) returns (error: Option<UncleError>)
    requires bc.hc.Coherent() && bc.BlocksCached() && bc.hc.genesis.number == 0 && Closed(bc.hc.records, bc.hc.genesis)
    requires block.parent == HashOf(parent) && Has(bc.hc.records, parent) && Numbered(block)
    modifies bc`blockCache, bc.hc`numberCache
    ensures bc.hc.Coherent() && bc.BlocksCached()
    ensures error.None? <==> ProperUncles(config, block)
  {
    var recent := bc.GetBlocksFromHash(block.parent, 7);
    assert ClosedAt(bc.hc.records, bc.hc.genesis, parent);
    RecentRun(block, bc.hc.genesis);
    error := CheckUncles(config, block, parent, recent);
    ChecksAreProper(config, block, bc.hc.genesis);
  }

  /** Accepts exactly the blocks on top of a known block that have a valid header
      and proper uncles; such a block mints at most 45/16 of the block reward. */
  method ValidateBlock(bc: BlockChain, config: ChainConfig, now: nat, block: Header) returns (error: Option<BlockError>)
    requires bc.hc.Coherent() && bc.BlocksCached() && bc.hc.genesis.number == 0 && Closed(bc.hc.records, bc.hc.genesis)
    modifies bc`blockCache, bc.hc`numberCache
    ensures bc.hc.Coherent() && bc.BlocksCached()
    ensures error.None? <==>
      && block.parent.HashOf? && Has(bc.hc.records, block.parent.header)
      && ValidateHeader(config, now, block, block.parent.header, false) == None && ProperUncles(config, block)
    ensures error.None? ==> Numbered(block) && BLOCK_REWARD <= Minted(block) <= 45 * BLOCK_REWARD / 16
  {
    if block.parent.HashOf? {
      ValidNumber(config, now, block, block.parent.header, false);
    }
    var parent := bc.GetBlock(block.parent, Pred(block.number));
    if parent.None? {
      return Some(UnknownParent);
    }
    var invalid := ValidateHeader(config, now, block, parent.value, false);
    if invalid.Some? {
      return Some(BadHeader(invalid.value));
    }
    var improper := VerifyUncles(bc, config, block, parent.value);
    if improper.Some? {
      return Some(BadUncles(improper.value));
    }
    MintedBound(config, block);
    error := None;
  }
}
