/** Gas charged before a message runs (core/state_transition.go, params/protocol_params.go). */
module Gas {

  const TX_GAS: nat := 21000
  const TX_GAS_CONTRACT_CREATION: nat := 53000
  const TX_DATA_ZERO_GAS: nat := 4
  const TX_DATA_NON_ZERO_GAS: nat := 68

  function NonZeroBytes(data: seq<bv8>): nat {
    if data == [] then 0 else NonZeroBytes(data[..|data| - 1]) + if data[|data| - 1] != 0 then 1 else 0
  }

  /** 'Intrinsic gas' of a message with the given data. */
  function IntrinsicGas(data: seq<bv8>, contractCreation: bool, homestead: bool): nat {
    (if contractCreation && homestead then TX_GAS_CONTRACT_CREATION else TX_GAS)
    + NonZeroBytes(data) * TX_DATA_NON_ZERO_GAS
    + (|data| - NonZeroBytes(data)) * TX_DATA_ZERO_GAS
  }

  /** 21000, or 53000 to create a contract under Homestead; each byte costs 68, or
      4 if it is zero. */
  lemma IntrinsicGasAppend(data: seq<bv8>, b: bv8, contractCreation: bool, homestead: bool)
    ensures IntrinsicGas([], contractCreation, homestead) == if contractCreation && homestead then 53000 else 21000
    ensures IntrinsicGas(data + [b], contractCreation, homestead) ==
            IntrinsicGas(data, contractCreation, homestead) + if b == 0 then 4 else 68
  {
    assert (data + [b])[..|data|] == data;
  }

  /** The loop over the data bytes. */
  method CountIntrinsicGas(data: seq<bv8>, contractCreation: bool, homestead: bool) returns (igas: nat)
    ensures igas == IntrinsicGas(data, contractCreation, homestead)
  {
    igas := if contractCreation && homestead then TX_GAS_CONTRACT_CREATION else TX_GAS;
    if |data| > 0 {
      var nz := 0;
      for i := 0 to |data|
        invariant nz == NonZeroBytes(data[..i]) <= i
      {
        assert data[..i + 1][..i] == data[..i];
        if data[i] != 0 {
          nz := nz + 1;
        }
      }
      assert data[..|data|] == data;
      igas := igas + nz * TX_DATA_NON_ZERO_GAS;
      igas := igas + (|data| - nz) * TX_DATA_ZERO_GAS;
    }
  }
}
