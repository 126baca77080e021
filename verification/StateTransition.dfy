/** Gas pool and state transition (core/gaspool.go, core/state_transition.go,
    core/execution.go): objects that change step by step, proved to compute the
    transition of module TransitionSpec. */
module StateTransitions {
  import opened TxTypes
  import opened Gas
  import opened WorldState
  import opened TransitionSpec

  /** Gas available to the transactions of a block. */
  class GasPool {
    var gas: int

    constructor ()
      ensures gas == 0
    {
      gas := 0;
    }

    method AddGas(amount: int)
      modifies this
      ensures gas == old(gas) + amount
    {
      gas := gas + amount;
    }

    method SubGas(amount: int) returns (ok: bool)
      modifies this
      ensures ok <==> old(gas) >= amount
      ensures gas == if ok then old(gas) - amount else old(gas)
    {
      if gas < amount {
        return false;
      }
      gas := gas - amount;
      ok := true;
    }
  }

  /** A state database: the world can be changed and set back. */
  class StateDB {
    var world: World

    constructor (w: World)
      ensures world == w
    {
      world := w;
    }
  }

  class StateTransition {
    const gp: GasPool
    const msg: Tx
    const checkNonce: bool
    const env: Env
    const publicState: StateDB
    const privateState: StateDB
    var gas: int
    var initialGas: int

    constructor (gp: GasPool, msg: Tx, checkNonce: bool, env: Env, publicState: StateDB, privateState: StateDB)
      ensures this.gp == gp && this.msg == msg && this.checkNonce == checkNonce && this.env == env
      ensures this.publicState == publicState && this.privateState == privateState
      ensures gas == 0 && initialGas == 0
    {
      this.gp, this.msg, this.checkNonce, this.env := gp, msg, checkNonce, env;
      this.publicState, this.privateState := publicState, privateState;
      gas, initialGas := 0, 0;
    }

    /** Public messages run on one state, private ones on two. */
    ghost predicate Dual() {
      msg.isPrivate <==> publicState != privateState
    }

    /** The states, the gas and the error are those of `f`. */
    ghost predicate At(f: Finished, err: VmError)
      reads this, publicState, privateState
    {
      && publicState.world == f.public && (msg.isPrivate ==> privateState.world == f.private)
      && gas == f.gas && err == f.err
    }

    /** The state that the called or created contract lives in. */
    method CurrentState(to: Option<Address>) returns (s: StateDB)
      ensures s == if to.Some? && !Exist(privateState.world, to.value) && Exist(publicState.world, to.value)
                   then publicState else privateState
    {
      if to.None? || Exist(privateState.world, to.value) {
        s := privateState;
      } else if Exist(publicState.world, to.value) {
        s := publicState;
      } else {
        s := privateState;
      }
    }

    /** The nonce of a sender outside any contract counts on the public state. */
    method CreateAddressAndIncrementNonce(sender: Address) returns (address: Address)
      modifies publicState
      ensures publicState.world == Bump(old(publicState.world), sender)
      ensures address == env.createAddress(sender, NonceOf(old(publicState.world), sender))
    {
      var nonce := NonceOf(publicState.world, sender);
      publicState.world := SetNonce(publicState.world, sender, nonce + 1);
      address := env.createAddress(sender, nonce);
    }

    /** Moves the value, runs the contract, pays for stored code, and on an
        error takes all gas and sets the state back. */
    method RunContract(cur: StateDB, sender: Address, contract: Address, data: seq<bv8>) returns (err: VmError)
      requires Dual() && gas >= 0
      requires cur == if OnPublic(msg, publicState.world, privateState.world) then publicState else privateState
      modifies `gas, publicState, privateState
      ensures At(Finish(env, msg, old(publicState.world), old(privateState.world),
                        RunOn(env, msg, sender, contract, data, old(publicState.world), old(privateState.world), old(gas))), err)
    {
      var create := msg.to.None?;
      var snapshot := cur.world;
      cur.world := if create then CreateAccount(cur.world, contract) else EnsureAccount(cur.world, contract);
      cur.world := Transfer(cur.world, sender, contract, msg.value);
      var r := env.evm(Frame(sender, contract, create, data, gas, msg.value, msg.isPrivate), publicState.world, privateState.world);
      publicState.world := r.public;
      if msg.isPrivate {
        privateState.world := r.private;
      }
      gas := r.gas;
      err := if r.err then OtherError else NoError;
      if err == NoError && create {
        var dataGas := r.size * CREATE_DATA_GAS;
        if gas >= dataGas {
          gas := gas - dataGas;
        } else {
          err := CodeStoreOutOfGasError;
        }
      }
      if err != NoError && (env.homestead || err != CodeStoreOutOfGasError) {
        gas := 0;
        cur.world := snapshot;
      }
    }

    /** Creates or calls. */
    method Exec(sender: Address, data: seq<bv8>) returns (err: VmError)
      requires Dual() && gas >= 0
      modifies `gas, publicState, privateState
      ensures At(Executed(env, msg, sender, data, old(publicState.world), old(privateState.world), old(gas)), err)
    {
      var cur := CurrentState(msg.to);
      if BalanceOf(cur.world, sender) < msg.value {
        return ValueTransferErr;
      }
      if msg.to.Some? {
        err := RunContract(cur, sender, msg.to.value, data);
      } else {
        var address := CreateAddressAndIncrementNonce(sender);
        err := RunContract(cur, sender, address, data);
      }
    }

    method From() returns (sender: Option<Address>)
      modifies publicState
      ensures sender == msg.from
      ensures publicState.world == if msg.from.Some? then EnsureAccount(old(publicState.world), msg.from.value) else old(publicState.world)
    {
      sender := msg.from;
      if sender.Some? && !Exist(publicState.world, sender.value) {
        publicState.world := CreateAccount(publicState.world, sender.value);
      }
    }

    method UseGas(amount: int) returns (ok: bool)
      modifies `gas
      ensures ok <==> old(gas) >= amount
      ensures gas == if ok then old(gas) - amount else old(gas)
    {
      if gas < amount {
        return false;
      }
      gas := gas - amount;
      ok := true;
    }

    /** The gas is bought for `w`, which is the public state. */
    ghost predicate HasBought(w: World, pool: int)
      reads this, publicState, gp
    {
      && msg.from.Some? && gas == msg.gas && initialGas == msg.gas && gp.gas == pool - msg.gas
      && publicState.world == Bought(w, msg.from.value, msg.gas * msg.gasPrice)
    }

    method BuyGas() returns (error: Option<TransitionError>)
      requires gas == 0 && msg.from.Some?
      modifies `gas, `initialGas, gp, publicState
      ensures error == if BalanceOf(old(publicState.world), msg.from.value) < msg.gas * msg.gasPrice then Some(InvalidTxError)
                       else if old(gp.gas) < msg.gas then Some(GasLimitErr) else None
      ensures error.None? ==> HasBought(old(publicState.world), old(gp.gas))
      ensures error.Some? ==> gp.gas == old(gp.gas)
    {
      var mgval := msg.gas * msg.gasPrice;
      EnsureIsSame(publicState.world, msg.from.value);
      assert SameAt(publicState.world, EnsureAccount(publicState.world, msg.from.value), msg.from.value);
      var sender := From();
      if BalanceOf(publicState.world, sender.value) < mgval {
        return Some(InvalidTxError);
      }
      var ok := gp.SubGas(msg.gas);
      if !ok {
        return Some(GasLimitErr);
      }
      gas := gas + msg.gas;
      initialGas := msg.gas;
      publicState.world := AddBalance(publicState.world, sender.value, -mgval);
      error := None;
    }

    method PreCheck() returns (error: Option<TransitionError>)
      requires gas == 0
      modifies `gas, `initialGas, gp, publicState
      ensures error == PreCheckError(msg, checkNonce, old(publicState.world), old(gp.gas))
      ensures error.None? ==> HasBought(old(publicState.world), old(gp.gas))
      ensures error.Some? ==> gp.gas == old(gp.gas)
    {
      var sender := From();
      if sender.None? {
        return Some(SenderError);
      }
      EnsureIsSame(old(publicState.world), sender.value);
      assert SameAt(old(publicState.world), publicState.world, sender.value);
      if checkNonce && NonceOf(publicState.world, sender.value) != msg.nonce {
        return Some(NonceError);
      }
      error := BuyGas();
    }

    /** Pays back leftover gas and at most half of the used gas. */
    method RefundGas(sender: Address)
      requires msg.from == Some(sender)
      modifies `gas, gp, publicState
      ensures var refund := RefundOf(initialGas, old(gas), old(publicState.world).refund);
        && gas == old(gas) + refund && gp.gas == old(gp.gas) + gas
        && publicState.world ==
             AddBalance(AddBalance(old(publicState.world), sender, old(gas) * msg.gasPrice), sender, refund * msg.gasPrice)
    {
      EnsureThenAdd(publicState.world, sender, gas * msg.gasPrice);
      var s := From();
      publicState.world := AddBalance(publicState.world, sender, gas * msg.gasPrice);
      var uhalf := (initialGas - gas) / 2;
      var refund := if uhalf < publicState.world.refund then uhalf else publicState.world.refund;
      gas := gas + refund;
      publicState.world := AddBalance(publicState.world, sender, refund * msg.gasPrice);
      gp.AddGas(gas);
    }

    /** The outcome is that of `t`, and if it is done so are states and pool. */
    ghost predicate Reached(t: Result, r: Outcome)
      reads gp, publicState, privateState
    {
      && r == t.outcome
      && (r.Done? ==>
            && publicState.world == t.public && (msg.isPrivate ==> privateState.world == t.private)
            && gp.gas == t.pool)
    }

    /** Counts the nonce of a public call and executes. */
    method CountAndExec(sender: Address, data: seq<bv8>) returns (err: VmError)
      requires Dual() && gas >= 0
      modifies `gas, publicState, privateState
      ensures At(Ran(env, msg, sender, data, old(publicState.world), old(privateState.world), old(gas)), err)
      ensures err == CodeStoreOutOfGasError && env.homestead ==> gas == 0
    {
      if msg.to.Some? && !msg.isPrivate {
        publicState.world := SetNonce(publicState.world, sender, NonceOf(publicState.world, sender) + 1);
      }
      err := Exec(sender, data);
    }

    /** Pays the intrinsic gas, runs the message and settles. */
    method Perform(sender: Address, data: seq<bv8>, igas: nat) returns (r: Outcome)
      requires Dual() && msg.from == Some(sender) && gas == initialGas == msg.gas
      modifies `gas, gp, publicState, privateState
      ensures Reached(Performed(env, msg, sender, data, igas, old(publicState.world), old(privateState.world), old(gp.gas)), r)
    {
      ghost var p, q, pool := publicState.world, privateState.world, gp.gas;
      var ok := UseGas(igas);
      if !ok {
        return Failed(InvalidTxError);
      }
      ghost var f := Ran(env, msg, sender, data, p, q, gas);
      assert Performed(env, msg, sender, data, igas, p, q, pool) == Concluded(env, msg, sender, f, p, q, pool);
      r := RunAndConclude(sender, data);
    }

    method RunAndConclude(sender: Address, data: seq<bv8>) returns (r: Outcome)
      requires Dual() && msg.from == Some(sender) && initialGas == msg.gas && gas >= 0
      modifies `gas, gp, publicState, privateState
      ensures var p, q := old(publicState.world), old(privateState.world);
        Reached(Concluded(env, msg, sender, Ran(env, msg, sender, data, p, q, old(gas)), p, q, old(gp.gas)), r)
    {
      ghost var f := Ran(env, msg, sender, data, publicState.world, privateState.world, gas);
      var err := CountAndExec(sender, data);
      r := Conclude(sender, err, f, old(publicState.world), old(privateState.world));
    }

    /** Turns the message down for lack of value, or settles. */
    method Conclude(sender: Address, err: VmError, ghost f: Finished, ghost p: World, ghost q: World) returns (r: Outcome)
      requires Dual() && msg.from == Some(sender) && initialGas == msg.gas && At(f, err)
      requires err == CodeStoreOutOfGasError && env.homestead ==> gas == 0
      modifies `gas, gp, publicState
      ensures Reached(Concluded(env, msg, sender, f, p, q, old(gp.gas)), r)
    {
      if msg.to.None? && env.homestead && err == CodeStoreOutOfGasError {
        gas := 0;
      }
      if err == ValueTransferErr {
        return Failed(InvalidTxError);
      }
      var required := initialGas - gas;
      RefundGas(sender);
      var used := initialGas - gas;
      publicState.world := AddBalance(publicState.world, env.coinbase, used * msg.gasPrice);
      r := if msg.isPrivate then Done(0, 0) else Done(required, used);
    }

    /** Counts the nonce of a private message and performs it, if this node is
        a party to it. */
    method Proceed(sender: Address) returns (r: Outcome)
      requires Dual() && msg.from == Some(sender) && gas == initialGas == msg.gas
      modifies `gas, gp, publicState, privateState
      ensures Reached(Proceeded(env, msg, sender, old(publicState.world), old(privateState.world), old(gp.gas)), r)
    {
      var data := msg.data;
      if msg.isPrivate {
        var payload := env.receive(msg.data);
        if payload.None? || msg.to.Some? {
          publicState.world := SetNonce(publicState.world, sender, NonceOf(publicState.world, sender) + 1);
        }
        if payload.None? {
          return Done(0, 0);
        }
        data := payload.value;
      }
      var igas := CountIntrinsicGas(data, msg.to.None?, env.homestead);
      r := Perform(sender, data, igas);
    }

    /** Applies the message. */
    method TransitionDb() returns (r: Outcome)
      requires Dual() && gas == 0
      modifies this, gp, publicState, privateState
      ensures Reached(Transition(env, msg, checkNonce, old(publicState.world), old(privateState.world), old(gp.gas)), r)
    {
      var error := PreCheck();
      if error.Some? {
        return Failed(error.value);
      }
      r := Proceed(msg.from.value);
    }
  }
}
