/** Transactions as the pool and its lists see them. */
module TxTypes {

  datatype Option<+T> = None | Some(value: T)

  /** Only equality of addresses is used. */
  datatype Address = Address(id: nat)

  /** A 64-bit nonce below the largest one, so that the successor of a listed
      nonce is again a 64-bit number. */
  type Nonce = n: nat | n < MAX_UINT64

  const MAX_UINT64: nat := 0xFFFF_FFFF_FFFF_FFFF

  datatype Tx = Tx(
    from: Option<Address>,       // None: the sender cannot be recovered
    to: Option<Address>,         // None: the transaction creates a contract
    nonce: Nonce,
    gasPrice: int,
    gas: int,
    value: int,
    data: seq<bv8>,
    isPrivate: bool)
  {
    /** What the sender must be able to pay: value + price * limit. */
    function Cost(): int { gasPrice * gas + value }

    /** Collision-free hash of the transaction. */
    function Hash(): TxHash { TxHash(this) }
  }

  datatype TxHash = TxHash(preimage: Tx)
}
