/** Messages and blocks at which nodes inside and outside of a private message
    differ (core/state_transition.go:226-306, core/state_processor.go:59-89). */
module TransitionExamples {
  import opened TxTypes
  import opened Gas
  import opened Sums
  import opened WorldState
  import opened TransitionSpec
  import opened StateProcessor
  import opened BlockAgreement

  const ALICE := Address(1)
  const BOB := Address(2)

  /** A machine on which every contract does nothing, on a node that holds
      `payload` for every private message. */
  function QuietNode(payload: Option<seq<bv8>>): Env {
    Env(true, Address(0), (f: Frame, w: World, v: World) => Run(false, 0, if f.gas >= 0 then f.gas else 0, w, v),
        (a: Address, n: nat) => Address(a.id + n + 1), (data: seq<bv8>) => payload)
  }

  lemma QuietNodeOk(payload: Option<seq<bv8>>)
    ensures EnvOk(QuietNode(payload))
  {
    var evm := QuietNode(payload).evm;
    forall f, w, v ensures RunOk(f, w, v, evm(f, w, v)) {
    }
  }

  function PrivateCall(gas: nat, price: nat): Tx {
    Tx(Some(ALICE), Some(BOB), 0, price, gas, 0, [], true)
  }

  function Purse(balance: int): World {
    World(map[ALICE := Account(balance, 0)], 0)
  }

  /** A private call with a positive gas price: a node outside of it loses the
      gas that it buys. */
  lemma OutsiderLoses(gas: nat, price: nat)
    requires gas > 0 && price > 0
    ensures var p := Purse(gas * price);
      var r := Transition(QuietNode(None), PrivateCall(gas, price), true, p, p, gas);
      Solvent(p) && r.outcome == Done(0, 0) && TotalWei(r.public) == TotalWei(p) - gas * price < TotalWei(p)
  {
    QuietNodeOk(None);
    Products(gas, 0, 0, price);
    assert gas * price > 0;
    Conservation(QuietNode(None), PrivateCall(gas, price), true, Purse(gas * price), Purse(gas * price), gas);
  }

  /** A private call without gas: a party to it turns it down, whatever the
      payload, a node outside of it counts the nonce and reports success. */
  lemma PartyRefuses(payload: seq<bv8>)
    ensures var p, msg := Purse(0), PrivateCall(0, 0);
      && Solvent(p) && Transition(QuietNode(Some(payload)), msg, true, p, p, 0).outcome == Failed(InvalidTxError)
      && Transition(QuietNode(None), msg, true, p, p, 0).outcome == Done(0, 0)
      && NonceOf(Transition(QuietNode(None), msg, true, p, p, 0).public, ALICE) == 1
  {
    IntrinsicPositive(payload);
  }

  lemma IntrinsicPositive(payload: seq<bv8>)
    ensures IntrinsicGas(payload, false, true) > 0
  {
  }

  /** A private call with value to an account that only the public state knows:
      a party moves the value on the public state, an outsider does not. */
  lemma PartyPays(value: nat, gas: nat)
    requires value > 0 && gas >= TX_GAS
    ensures var p, q := World(map[ALICE := Account(value, 0), BOB := Account(0, 0)], 0), World(map[], 0);
      var msg := Tx(Some(ALICE), Some(BOB), 0, 0, gas, value, [], true);
      var r, r' := Transition(QuietNode(Some([])), msg, true, p, q, gas), Transition(QuietNode(None), msg, true, p, q, gas);
      r.outcome == r'.outcome == Done(0, 0) && BalanceOf(r.public, BOB) == value && BalanceOf(r'.public, BOB) == 0
  {
  }

  // ---- a block that one node accepts and the other does not ----

  /** A private call followed by a public one. */
  function PrivateThenPublic(gas: nat, next: nat): seq<Tx> {
    [PrivateCall(gas, 0), Tx(Some(ALICE), Some(BOB), 1, 0, next, 0, [], false)]
  }

  function Opening(limit: nat): Progress {
    BlockStart(Purse(0), Purse(0), limit)
  }

  lemma QuietNodesAlike()
    ensures SamePublicly(QuietNode(Some([])), QuietNode(None))
  {
    QuietNodeOk(Some([]));
    QuietNodeOk(None);
  }

  /** The party uses 21000 of the private gas, the outsider counts all of it. If
      the public call fits only what the party has left, the outsider rejects
      the block for lack of gas. */
  lemma OneNodeAccepts(gas: nat, next: nat, limit: nat)
    requires TX_GAS <= gas <= limit && TX_GAS <= next && limit - gas < next <= limit - TX_GAS
    ensures var txs, party, outsider := PrivateThenPublic(gas, next), QuietNode(Some([])), QuietNode(None);
      && SamePublicly(party, outsider) && AllFree(txs)
      && Play(party, txs, Opening(limit)).error.None?
      && Play(outsider, txs, Opening(limit)).error == Some(NotApplied(GasLimitErr))
  {
    QuietNodesAlike();
    PartyPlays(gas, next, limit);
    OutsiderPlays(gas, next, limit);
  }

  lemma PrivatelyUsed(gas: nat, limit: nat)
    requires TX_GAS <= gas <= limit
    ensures var g, tx := Opening(limit), PrivateCall(gas, 0);
      var party, outsider := QuietNode(Some([])), QuietNode(None);
      && TxError(party, tx, g).None? && AfterTx(party, tx, g).pool == limit - TX_GAS
      && TxError(outsider, tx, g).None? && AfterTx(outsider, tx, g).pool == limit - gas
      && InStep(AfterTx(party, tx, g), AfterTx(outsider, tx, g))
      && NonceOf(AfterTx(party, tx, g).public, ALICE) == 1 && BalanceOf(AfterTx(party, tx, g).public, ALICE) == 0
  {
    QuietNodesAlike();
    StepAlike(QuietNode(Some([])), QuietNode(None), PrivateCall(gas, 0), Opening(limit), Opening(limit));
  }

  lemma PlayTwo(env: Env, x: Tx, y: Tx, g: Progress)
    ensures Play(env, [x, y], g) == PlayTx(env, y, PlayTx(env, x, Played(None, g)))
  {
    assert [x, y][..1] == [x] && [x][..0] == [];
    assert Play(env, [x], g) == PlayTx(env, x, Played(None, g));
  }

  lemma PartyPlays(gas: nat, next: nat, limit: nat)
    requires TX_GAS <= gas <= limit && TX_GAS <= next <= limit - TX_GAS
    ensures Play(QuietNode(Some([])), PrivateThenPublic(gas, next), Opening(limit)).error.None?
    ensures TxError(QuietNode(Some([])), PrivateThenPublic(gas, next)[1],
                    AfterTx(QuietNode(Some([])), PrivateCall(gas, 0), Opening(limit))).None?
  {
    var e, txs := QuietNode(Some([])), PrivateThenPublic(gas, next);
    QuietNodeOk(Some([]));
    PrivatelyUsed(gas, limit);
    PlayTwo(e, txs[0], txs[1], Opening(limit));
    var g := AfterTx(e, txs[0], Opening(limit));
    PublicMessage(e, txs[1], true, g.public, g.private, g.pool);
  }

  lemma OutsiderPlays(gas: nat, next: nat, limit: nat)
    requires TX_GAS <= gas <= limit && TX_GAS <= next && limit - gas < next <= limit - TX_GAS
    ensures Play(QuietNode(None), PrivateThenPublic(gas, next), Opening(limit)).error == Some(NotApplied(GasLimitErr))
  {
    var e, txs := QuietNode(None), PrivateThenPublic(gas, next);
    QuietNodesAlike();
    PrivatelyUsed(gas, limit);
    PartyPlays(gas, next, limit);
    PlayTwo(e, txs[0], txs[1], Opening(limit));
    StepAlike(QuietNode(Some([])), e, txs[1], AfterTx(QuietNode(Some([])), txs[0], Opening(limit)), AfterTx(e, txs[0], Opening(limit)));
  }
}
