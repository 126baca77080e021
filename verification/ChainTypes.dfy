/** Headers and hashes, and what it means to descend from the genesis header.

    A hash is the constructor HashOf applied to the header, so hashes are
    collision free and no header can contain its own hash. A block is
    determined by its header: the header commits to its transactions and
    uncles. */
module ChainTypes {
  import opened TxTypes

  datatype Hash = ZeroHash | HashOf(header: Header)

  datatype Header = Header(parent: Hash, number: nat, difficulty: nat, time: nat, gasLimit: int, gasUsed: nat,
                           extra: nat, coinbase: Address, txs: seq<TxHash>, uncles: seq<Header>, seal: nat)

  /** uint64 subtraction of one. */
  function Pred(n: nat): nat {
    if n == 0 then MAX_UINT64 else n - 1
  }

  /** `h` names its parent and stands one above it. */
  predicate Numbered(h: Header) {
    h.parent.HashOf? ==> h.number == h.parent.header.number + 1
  }

  ghost predicate Descends(h: Header, g: Header)
    decreases h
  {
    h == g || (h.parent.HashOf? && Numbered(h) && Descends(h.parent.header, g))
  }

  /** Sum of the difficulties from `g` up to `h`. */
  ghost function TotalDifficulty(h: Header, g: Header): int
    decreases h
  {
    if h == g || h.parent == ZeroHash then h.difficulty
    else TotalDifficulty(h.parent.header, g) + h.difficulty
  }

  /** The ancestor of `h` at height `n`. */
  ghost function Ancestor(h: Header, n: nat): Header
    decreases h
  {
    if h.number <= n || h.parent == ZeroHash then h else Ancestor(h.parent.header, n)
  }

  lemma {:induction false} AncestorHeight(h: Header, g: Header, n: nat)
    requires Descends(h, g) && g.number == 0 && n <= h.number
    ensures Ancestor(h, n).number == n && Descends(Ancestor(h, n), g)
    decreases h
  {
    if h.number > n {
      AncestorHeight(h.parent.header, g, n);
    }
  }

  lemma {:induction false} AncestorOfAncestor(h: Header, m: nat, n: nat)
    requires n <= m
    ensures Ancestor(Ancestor(h, m), n) == Ancestor(h, n)
    decreases h
  {
    if h.number > m && h.parent != ZeroHash {
      AncestorOfAncestor(h.parent.header, m, n);
    }
  }

  lemma AtHeightZero(h: Header, g: Header)
    requires Descends(h, g) && g.number == 0 && h.number == 0
    ensures h == g
  {
  }
}
