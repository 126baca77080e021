/** What applying a message does to the public and private state and to the gas
    pool, as a function of their values (core/state_transition.go:180-328,
    core/execution.go:44-201), and what follows from it. */
module TransitionSpec {
  import opened TxTypes
  import opened Gas
  import opened WorldState

  const CREATE_DATA_GAS: nat := 200

  // ---- the virtual machine, seen from outside ----

  datatype Frame = Frame(caller: Address, contract: Address, create: bool, data: seq<bv8>, gas: int, value: int, isPrivate: bool)

  /** What a run leaves behind: an error or the size of the returned code, the
      gas left, and both states. A public run has one state only, the first. */
  datatype Run = Run(err: bool, size: nat, gas: nat, public: World, private: World)

  type Evm = (Frame, World, World) -> Run

  /** Gas is not created and no public wei made or lost. A public run
      overdraws nobody and leaves the sender's nonce alone. A private run
      leaves all public balances and nonces alone. */
  ghost predicate RunOk(f: Frame, w: World, v: World, r: Run) {
    && (f.gas >= 0 ==> r.gas <= f.gas) && TotalWei(r.public) == TotalWei(w)
    && (!f.isPrivate && Solvent(w) ==> Solvent(r.public) && NonceOf(r.public, f.caller) == NonceOf(w, f.caller))
    && (f.isPrivate ==> SameView(w, r.public) && (Solvent(v) ==> Solvent(r.private)))
  }

  ghost predicate EvmOk(evm: Evm) {
    forall f, w, v {:trigger RunOk(f, w, v, evm(f, w, v))} :: RunOk(f, w, v, evm(f, w, v))
  }

  /** The surroundings of a message. `receive` gives the payload that the
      private transaction manager holds for the data of a private message:
      None on nodes that are not a party to it. */
  datatype Env = Env(homestead: bool, coinbase: Address, evm: Evm, createAddress: (Address, nat) -> Address,
                     receive: seq<bv8> -> Option<seq<bv8>>)

  /** The machine keeps its contract and no account creates itself. */
  ghost predicate EnvOk(env: Env) {
    EvmOk(env.evm) && forall a, n :: env.createAddress(a, n) != a
  }

  /** Amounts are unsigned. */
  predicate Unsigned(msg: Tx) {
    msg.gas >= 0 && msg.gasPrice >= 0 && msg.value >= 0
  }

  datatype TransitionError = SenderError | NonceError | GasLimitErr | InvalidTxError

  datatype VmError = NoError | ValueTransferErr | CodeStoreOutOfGasError | OtherError

  /** Gas used before and after the refund, as reported. */
  datatype Outcome = Done(required: int, used: int) | Failed(error: TransitionError)

  // ---- running a contract ----

  /** States, gas and error after a contract ran. */
  datatype Finished = Finished(public: World, private: World, gas: int, err: VmError)

  /** The called or created contract lives in the public state. */
  predicate OnPublic(msg: Tx, p: World, q: World) {
    !msg.isPrivate || (msg.to.Some? && !Exist(q, msg.to.value) && Exist(p, msg.to.value))
  }

  /** The run of contract `c`, once its account is there and holds the value. */
  function RunOn(env: Env, msg: Tx, s: Address, c: Address, data: seq<bv8>, p: World, q: World, gas: int): Run {
    var create, onPublic := msg.to.None?, OnPublic(msg, p, q);
    var start := Prepared(if onPublic then p else q, s, c, create, msg.value);
    env.evm(Frame(s, c, create, data, gas, msg.value, msg.isPrivate),
            if onPublic then start else p, if msg.isPrivate && onPublic then q else start)
  }

  function VmErrorOf(msg: Tx, r: Run): VmError {
    if r.err then OtherError
    else if msg.to.None? && r.gas < r.size * CREATE_DATA_GAS then CodeStoreOutOfGasError
    else NoError
  }

  /** Stored code is paid for; an error takes all gas and sets the contract's
      state back, except that before Homestead unpaid code is no such error. */
  function Finish(env: Env, msg: Tx, p: World, q: World, r: Run): Finished {
    var err := VmErrorOf(msg, r);
    if err == NoError then
      Finished(r.public, r.private, if msg.to.None? then r.gas - r.size * CREATE_DATA_GAS else r.gas, err)
    else if !env.homestead && err == CodeStoreOutOfGasError then Finished(r.public, r.private, r.gas, err)
    else if OnPublic(msg, p, q) then Finished(p, r.private, 0, err)
    else Finished(r.public, q, 0, err)
  }

  /** The value must be there before anything happens; a creation then counts
      on the sender's public nonce. */
  function Executed(env: Env, msg: Tx, s: Address, data: seq<bv8>, p: World, q: World, gas: int): Finished {
    if BalanceOf(if OnPublic(msg, p, q) then p else q, s) < msg.value then Finished(p, q, gas, ValueTransferErr)
    else if msg.to.Some? then Finish(env, msg, p, q, RunOn(env, msg, s, msg.to.value, data, p, q, gas))
    else
      var p1 := Bump(p, s);
      Finish(env, msg, p1, q, RunOn(env, msg, s, env.createAddress(s, NonceOf(p, s)), data, p1, q, gas))
  }

  // ---- the whole message ----

  /** The public state after its sender bought gas for `cost`. */
  function Bought(w: World, s: Address, cost: int): World {
    AddBalance(EnsureAccount(w, s), s, -cost)
  }

  /** The public state after leftover gas worth `x` and `y` went back to the
      sender and `z` to the coinbase. */
  function Settled(w: World, s: Address, x: int, y: int, c: Address, z: int): World {
    AddBalance(AddBalance(AddBalance(w, s, x), s, y), c, z)
  }

  /** Outcome, states and gas pool; the states count only when it is done. */
  datatype Result = Result(outcome: Outcome, public: World, private: World, pool: int)

  function RefundOf(bought: int, left: int, counter: nat): int {
    if (bought - left) / 2 < counter then (bought - left) / 2 else counter
  }

  function Settlement(env: Env, msg: Tx, s: Address, f: Finished, pool: int): Result {
    var refund := RefundOf(msg.gas, f.gas, f.public.refund);
    var used := msg.gas - f.gas - refund;
    Result(if msg.isPrivate then Done(0, 0) else Done(msg.gas - f.gas, used),
           Settled(f.public, s, f.gas * msg.gasPrice, refund * msg.gasPrice, env.coinbase, used * msg.gasPrice),
           f.private, pool + msg.gas - used)
  }

  /** The run, after a public call counted its nonce. */
  function Ran(env: Env, msg: Tx, s: Address, data: seq<bv8>, p: World, q: World, gas: int): Finished {
    var p1 := if msg.to.Some? && !msg.isPrivate then Bump(p, s) else p;
    Executed(env, msg, s, data, p1, if msg.isPrivate then q else p1, gas)
  }

  /** Intrinsic gas, run and settlement, with the gas already bought. */
  function Performed(env: Env, msg: Tx, s: Address, data: seq<bv8>, igas: nat, p: World, q: World, pool: int): Result {
    if msg.gas < igas then Result(Failed(InvalidTxError), p, q, pool)
    else Concluded(env, msg, s, Ran(env, msg, s, data, p, q, msg.gas - igas), p, q, pool)
  }

  function Concluded(env: Env, msg: Tx, s: Address, f: Finished, p: World, q: World, pool: int): Result {
    if f.err == ValueTransferErr then Result(Failed(InvalidTxError), p, q, pool)
    else Settlement(env, msg, s, f, pool)
  }

  /** Why a message is turned down before it runs, if it is. */
  function PreCheckError(msg: Tx, checkNonce: bool, w: World, pool: int): Option<TransitionError> {
    if msg.from.None? then Some(SenderError)
    else if checkNonce && NonceOf(w, msg.from.value) != msg.nonce then Some(NonceError)
    else if BalanceOf(w, msg.from.value) < msg.gas * msg.gasPrice then Some(InvalidTxError)
    else if pool < msg.gas then Some(GasLimitErr)
    else None
  }

  /** The message is private and this node is not a party to it. */
  predicate Outsider(env: Env, msg: Tx) {
    msg.isPrivate && env.receive(msg.data).None?
  }

  /** What the contract gets to see as its input. */
  function InputOf(env: Env, msg: Tx): seq<bv8>
    requires !Outsider(env, msg)
  {
    if msg.isPrivate then env.receive(msg.data).value else msg.data
  }

  /** What follows the purchase of gas: an outsider only counts the nonce. */
  function Proceeded(env: Env, msg: Tx, s: Address, p: World, q: World, pool: int): Result {
    if Outsider(env, msg) then Result(Done(0, 0), Bump(p, s), q, pool)
    else
      var data := InputOf(env, msg);
      Performed(env, msg, s, data, IntrinsicGas(data, msg.to.None?, env.homestead),
                if msg.isPrivate && msg.to.Some? then Bump(p, s) else p, q, pool)
  }

  function Transition(env: Env, msg: Tx, checkNonce: bool, p: World, q: World, pool: int): Result {
    var error := PreCheckError(msg, checkNonce, p, pool);
    if error.Some? then Result(Failed(error.value), p, q, pool)
    else Proceeded(env, msg, msg.from.value, Bought(p, msg.from.value, msg.gas * msg.gasPrice), q, pool - msg.gas)
  }

  // ---- facts about the parts ----

  lemma BoughtFacts(w: World, s: Address, cost: int)
    requires Solvent(w) && BalanceOf(w, s) >= cost >= 0
    ensures Solvent(Bought(w, s, cost)) && TotalWei(Bought(w, s, cost)) == TotalWei(w) - cost
    ensures NonceOf(Bought(w, s, cost), s) == NonceOf(w, s) && BalanceOf(Bought(w, s, cost), s) == BalanceOf(w, s) - cost
    ensures cost == 0 ==> SameView(w, Bought(w, s, cost))
  {
    EnsureIsSame(w, s);
    assert SameAt(w, EnsureAccount(w, s), s);
    SameIsSolvent(w, EnsureAccount(w, s));
    TotalAdd(EnsureAccount(w, s), s, -cost);
    if cost == 0 {
      AddNothing(EnsureAccount(w, s), s);
      SameTrans(w, EnsureAccount(w, s), Bought(w, s, cost));
    }
  }

  lemma SettledFacts(w: World, s: Address, x: nat, y: nat, c: Address, z: nat)
    requires Solvent(w)
    ensures Solvent(Settled(w, s, x, y, c, z)) && TotalWei(Settled(w, s, x, y, c, z)) == TotalWei(w) + x + y + z
    ensures NonceOf(Settled(w, s, x, y, c, z), s) == NonceOf(w, s)
  {
    TotalAdd(w, s, x);
    TotalAdd(AddBalance(w, s, x), s, y);
    TotalAdd(AddBalance(AddBalance(w, s, x), s, y), c, z);
  }

  lemma SettledNothing(w: World, s: Address, c: Address)
    ensures SameView(w, Settled(w, s, 0, 0, c, 0))
  {
    var v := AddBalance(w, s, 0);
    var u := AddBalance(v, s, 0);
    AddNothing(w, s);
    AddNothing(v, s);
    AddNothing(u, c);
    SameTrans(w, v, u);
    SameTrans(w, u, AddBalance(u, c, 0));
  }

  /** Gas bought is gas left, gas refunded and gas paid for. */
  lemma GasSplit(bought: int, left: int, refund: int, price: int)
    ensures left * price + refund * price + (bought - left - refund) * price == bought * price
  {
  }

  lemma Products(x: int, y: int, z: int, p: int)
    requires x >= 0 && y >= 0 && z >= 0 && p >= 0
    ensures x * p >= 0 && y * p >= 0 && z * p >= 0
    ensures p == 0 ==> x * p == y * p == z * p == 0
  {
  }

  /** What a settled message leaves, whatever its run was. */
  lemma SettlementFacts(env: Env, msg: Tx, s: Address, f: Finished, pool: int)
    requires Unsigned(msg) && 0 <= f.gas <= msg.gas && Solvent(f.public)
    ensures var r := Settlement(env, msg, s, f, pool);
      && r.outcome.Done? && Solvent(r.public) && r.private == f.private
      && TotalWei(r.public) == TotalWei(f.public) + msg.gas * msg.gasPrice
      && NonceOf(r.public, s) == NonceOf(f.public, s)
      && (msg.gasPrice == 0 ==> SameView(f.public, r.public))
      && pool <= r.pool <= pool + msg.gas
      && (!msg.isPrivate ==>
            && 0 <= r.outcome.used <= r.outcome.required <= msg.gas
            && r.outcome.required - r.outcome.used <= r.outcome.required / 2
            && r.pool == pool + msg.gas - r.outcome.used)
  {
    var refund, price := RefundOf(msg.gas, f.gas, f.public.refund), msg.gasPrice;
    var used := msg.gas - f.gas - refund;
    Products(f.gas, refund, used, price);
    SettledFacts(f.public, s, f.gas * price, refund * price, env.coinbase, used * price);
    GasSplit(msg.gas, f.gas, refund, price);
    if price == 0 {
      SettledNothing(f.public, s, env.coinbase);
    }
  }

  // ---- facts about the run ----

  /** What a private run does to the public state: a creation counts a nonce. */
  ghost predicate Counted(msg: Tx, p: World, p': World, s: Address) {
    if msg.to.None? then Bumped(p, p', s) else SameView(p, p')
  }

  /** What the machine's contract says about the run of a prepared contract. */
  lemma RunFacts(env: Env, msg: Tx, s: Address, c: Address, data: seq<bv8>, p: World, q: World, gas: int)
    requires EnvOk(env) && msg.value >= 0 && gas >= 0 && Solvent(p) && (msg.isPrivate ==> Solvent(q))
    requires (msg.to.None? ==> c != s) && BalanceOf(if OnPublic(msg, p, q) then p else q, s) >= msg.value
    ensures var r := RunOn(env, msg, s, c, data, p, q, gas);
      && r.gas <= gas && TotalWei(r.public) == TotalWei(p) && Solvent(r.public)
      && (msg.isPrivate ==> Solvent(r.private))
      && (!msg.isPrivate ==> NonceOf(r.public, s) == NonceOf(p, s))
      && (msg.isPrivate && msg.value == 0 ==> SameView(p, r.public))
  {
    var onPublic, create := OnPublic(msg, p, q), msg.to.None?;
    var cur := if onPublic then p else q;
    PreparedSender(cur, s, c, create, msg.value);
    PreparedTotal(cur, s, c, create, msg.value);
    PreparedSame(cur, s, c);
    var r := RunOn(env, msg, s, c, data, p, q, gas);
    var p1 := if onPublic then Prepared(p, s, c, create, msg.value) else p;
    assert RunOk(Frame(s, c, create, data, gas, msg.value, msg.isPrivate), p1,
                 if msg.isPrivate && onPublic then q else Prepared(cur, s, c, create, msg.value), r);
    if msg.isPrivate {
      SameIsSolvent(p1, r.public);
      if msg.value == 0 {
        SameTrans(p, p1, r.public);
      }
    }
  }

  /** Finishing keeps what the run kept; an error takes all gas and leaves the
      contract's state as it was before the value moved. */
  lemma FinishFacts(env: Env, msg: Tx, s: Address, p: World, q: World, r: Run, gas: int)
    requires Solvent(p) && (msg.isPrivate ==> Solvent(q))
    requires r.gas <= gas && TotalWei(r.public) == TotalWei(p) && Solvent(r.public) && (msg.isPrivate ==> Solvent(r.private))
    ensures var f := Finish(env, msg, p, q, r);
      && f.err != ValueTransferErr && 0 <= f.gas <= gas && TotalWei(f.public) == TotalWei(p)
      && Solvent(f.public) && (msg.isPrivate ==> Solvent(f.private))
      && (NonceOf(r.public, s) == NonceOf(p, s) ==> NonceOf(f.public, s) == NonceOf(p, s))
      && (SameView(p, r.public) ==> SameView(p, f.public))
      && (r.err ==> f.gas == 0 && if OnPublic(msg, p, q) then f.public == p else f.private == q)
  {
  }

  /** A run neither makes gas nor public wei; it fails for lack of value exactly
      if the sender cannot pay it. A creation counts one nonce even when it is
      reverted. */
  lemma ExecutedFacts(env: Env, msg: Tx, s: Address, data: seq<bv8>, p: World, q: World, gas: int)
    requires EnvOk(env) && msg.value >= 0 && gas >= 0 && Solvent(p) && (msg.isPrivate ==> Solvent(q))
    ensures var f := Executed(env, msg, s, data, p, q, gas);
      && (f.err == ValueTransferErr <==> BalanceOf(if OnPublic(msg, p, q) then p else q, s) < msg.value)
      && 0 <= f.gas <= gas && TotalWei(f.public) == TotalWei(p) && Solvent(f.public) && (msg.isPrivate ==> Solvent(f.private))
      && (!msg.isPrivate && f.err != ValueTransferErr ==>
            NonceOf(f.public, s) == NonceOf(p, s) + if msg.to.None? then 1 else 0)
      && (msg.isPrivate && msg.value == 0 ==>
            f.err != ValueTransferErr && Counted(msg, p, f.public, s))
  {
    if BalanceOf(if OnPublic(msg, p, q) then p else q, s) >= msg.value {
      if msg.to.Some? {
        RunFacts(env, msg, s, msg.to.value, data, p, q, gas);
        FinishFacts(env, msg, s, p, q, RunOn(env, msg, s, msg.to.value, data, p, q, gas), gas);
      } else {
        CreatedFacts(env, msg, s, data, p, q, gas);
      }
    }
  }

  lemma CreatedFacts(env: Env, msg: Tx, s: Address, data: seq<bv8>, p: World, q: World, gas: int)
    requires EnvOk(env) && msg.value >= 0 && gas >= 0 && Solvent(p) && (msg.isPrivate ==> Solvent(q)) && msg.to.None?
    requires BalanceOf(if OnPublic(msg, p, q) then p else q, s) >= msg.value
    ensures var f := Executed(env, msg, s, data, p, q, gas);
      && f.err != ValueTransferErr && 0 <= f.gas <= gas && TotalWei(f.public) == TotalWei(p)
      && Solvent(f.public) && (msg.isPrivate ==> Solvent(f.private))
      && (!msg.isPrivate ==> NonceOf(f.public, s) == NonceOf(p, s) + 1)
      && (msg.isPrivate && msg.value == 0 ==> Bumped(p, f.public, s))
  {
    var p1, c := Bump(p, s), env.createAddress(s, NonceOf(p, s));
    BumpFacts(p, s);
    assert BumpedAt(p, p1, s, s);
    RunFacts(env, msg, s, c, data, p1, q, gas);
    var r := RunOn(env, msg, s, c, data, p1, q, gas);
    FinishFacts(env, msg, s, p1, q, r, gas);
    if msg.isPrivate && msg.value == 0 {
      BumpedThenSame(p, p1, Finish(env, msg, p1, q, r).public, s);
    }
  }

  lemma RanFacts(env: Env, msg: Tx, s: Address, data: seq<bv8>, p: World, q: World, gas: int)
    requires EnvOk(env) && msg.value >= 0 && gas >= 0 && Solvent(p) && (msg.isPrivate ==> Solvent(q))
    ensures var f := Ran(env, msg, s, data, p, q, gas);
      && 0 <= f.gas <= gas && TotalWei(f.public) == TotalWei(p) && Solvent(f.public) && (msg.isPrivate ==> Solvent(f.private))
      && (!msg.isPrivate ==> (f.err == ValueTransferErr <==> BalanceOf(p, s) < msg.value))
      && (!msg.isPrivate && f.err != ValueTransferErr ==> NonceOf(f.public, s) == NonceOf(p, s) + 1)
      && (msg.isPrivate && msg.value == 0 ==> f.err != ValueTransferErr && Counted(msg, p, f.public, s))
  {
    var p1 := if msg.to.Some? && !msg.isPrivate then Bump(p, s) else p;
    BumpFacts(p, s);
    assert BumpedAt(p, Bump(p, s), s, s);
    ExecutedFacts(env, msg, s, data, p1, if msg.isPrivate then q else p1, gas);
  }

  // ---- the main results ----

  /** What is left when a message is done: `total` wei, `nonce` for a public
      sender, and a pool that got back what was not used of the gas. */
  ghost predicate Balanced(msg: Tx, s: Address, r: Result, total: int, nonce: int, pool: int) {
    && (r.outcome.Done? ==>
          && Solvent(r.public) && (msg.isPrivate ==> Solvent(r.private))
          && TotalWei(r.public) == total && pool <= r.pool <= pool + msg.gas)
    && (r.outcome.Done? && !msg.isPrivate ==>
          && NonceOf(r.public, s) == nonce && r.pool == pool + msg.gas - r.outcome.used
          && 0 <= r.outcome.used <= r.outcome.required <= msg.gas
          && r.outcome.required - r.outcome.used <= r.outcome.required / 2)
  }

  lemma ConcludedFacts(env: Env, msg: Tx, s: Address, f: Finished, p: World, q: World, total: int, nonce: int, pool: int)
    requires Unsigned(msg) && 0 <= f.gas <= msg.gas && Solvent(f.public) && (msg.isPrivate ==> Solvent(f.private))
    requires TotalWei(f.public) == total && (f.err != ValueTransferErr && !msg.isPrivate ==> NonceOf(f.public, s) == nonce)
    ensures Concluded(env, msg, s, f, p, q, pool).outcome.Done? <==> f.err != ValueTransferErr
    ensures Balanced(msg, s, Concluded(env, msg, s, f, p, q, pool), total + msg.gas * msg.gasPrice, nonce, pool)
  {
    if f.err != ValueTransferErr {
      SettlementFacts(env, msg, s, f, pool);
    }
  }

  lemma RanBalanced(env: Env, msg: Tx, s: Address, data: seq<bv8>, p: World, q: World, gas: int, pool: int)
    requires EnvOk(env) && Unsigned(msg) && Solvent(p) && (msg.isPrivate ==> Solvent(q)) && 0 <= gas <= msg.gas
    ensures Balanced(msg, s, Concluded(env, msg, s, Ran(env, msg, s, data, p, q, gas), p, q, pool),
                     TotalWei(p) + msg.gas * msg.gasPrice, NonceOf(p, s) + 1, pool)
    ensures !msg.isPrivate ==>
      (Concluded(env, msg, s, Ran(env, msg, s, data, p, q, gas), p, q, pool).outcome.Done? <==> BalanceOf(p, s) >= msg.value)
  {
    var f := Ran(env, msg, s, data, p, q, gas);
    RanFacts(env, msg, s, data, p, q, gas);
    ConcludedFacts(env, msg, s, f, p, q, TotalWei(p), NonceOf(p, s) + 1, pool);
  }

  lemma PerformedFacts(env: Env, msg: Tx, s: Address, data: seq<bv8>, igas: nat, p: World, q: World, pool: int)
    requires EnvOk(env) && Unsigned(msg) && Solvent(p) && (msg.isPrivate ==> Solvent(q))
    ensures Balanced(msg, s, Performed(env, msg, s, data, igas, p, q, pool),
                     TotalWei(p) + msg.gas * msg.gasPrice, NonceOf(p, s) + 1, pool)
    ensures !msg.isPrivate ==>
      (Performed(env, msg, s, data, igas, p, q, pool).outcome.Done? <==> msg.gas >= igas && BalanceOf(p, s) >= msg.value)
  {
    if msg.gas >= igas {
      RanBalanced(env, msg, s, data, p, q, msg.gas - igas, pool);
    }
  }

  lemma ConcludedPrivately(env: Env, msg: Tx, s: Address, f: Finished, p: World, q: World, pool: int)
    requires Unsigned(msg) && 0 <= f.gas <= msg.gas && Solvent(f.public) && f.err != ValueTransferErr
    requires msg.isPrivate && msg.gasPrice == 0
    requires Counted(msg, p, f.public, s)
    ensures var r := Concluded(env, msg, s, f, p, q, pool);
      r.outcome == Done(0, 0) && Counted(msg, p, r.public, s)
  {
    SettlementFacts(env, msg, s, f, pool);
    var r := Settlement(env, msg, s, f, pool);
    if msg.to.None? {
      BumpedThenSame(p, f.public, r.public, s);
    } else {
      SameTrans(p, f.public, r.public);
    }
  }

  lemma RanPrivately(env: Env, msg: Tx, s: Address, data: seq<bv8>, p: World, q: World, gas: int, pool: int)
    requires EnvOk(env) && Unsigned(msg) && Solvent(p) && Solvent(q) && 0 <= gas <= msg.gas
    requires msg.isPrivate && msg.gasPrice == 0 && msg.value == 0
    ensures var r := Concluded(env, msg, s, Ran(env, msg, s, data, p, q, gas), p, q, pool);
      r.outcome == Done(0, 0) && Counted(msg, p, r.public, s)
  {
    RanFacts(env, msg, s, data, p, q, gas);
    ConcludedPrivately(env, msg, s, Ran(env, msg, s, data, p, q, gas), p, q, pool);
  }

  /** With price and value zero a private run either counts one nonce or, if
      it was counted before, changes nothing public. */
  lemma PerformedPrivately(env: Env, msg: Tx, s: Address, data: seq<bv8>, igas: nat, p: World, q: World, pool: int)
    requires EnvOk(env) && Unsigned(msg) && Solvent(p) && Solvent(q)
    requires msg.isPrivate && msg.gasPrice == 0 && msg.value == 0
    ensures var r := Performed(env, msg, s, data, igas, p, q, pool);
      && (r.outcome.Done? <==> msg.gas >= igas)
      && (r.outcome.Done? ==> r.outcome == Done(0, 0) && Counted(msg, p, r.public, s))
  {
    if msg.gas >= igas {
      RanPrivately(env, msg, s, data, p, q, msg.gas - igas, pool);
    }
  }

  lemma ProceededFacts(env: Env, msg: Tx, s: Address, p: World, q: World, pool: int)
    requires EnvOk(env) && Unsigned(msg) && Solvent(p) && (msg.isPrivate ==> Solvent(q))
    ensures Balanced(msg, s, Proceeded(env, msg, s, p, q, pool),
                     TotalWei(p) + (if Outsider(env, msg) then 0 else msg.gas * msg.gasPrice), NonceOf(p, s) + 1, pool)
    ensures !msg.isPrivate ==>
      (Proceeded(env, msg, s, p, q, pool).outcome.Done? <==>
        msg.gas >= IntrinsicGas(msg.data, msg.to.None?, env.homestead) && BalanceOf(p, s) >= msg.value)
  {
    BumpFacts(p, s);
    if !Outsider(env, msg) {
      var p1 := if msg.isPrivate && msg.to.Some? then Bump(p, s) else p;
      var data := InputOf(env, msg);
      PerformedFacts(env, msg, s, data, IntrinsicGas(data, msg.to.None?, env.homestead), p1, q, pool);
    }
  }

  lemma ProceededPrivately(env: Env, msg: Tx, s: Address, p: World, q: World, pool: int)
    requires EnvOk(env) && Unsigned(msg) && Solvent(p) && Solvent(q)
    requires msg.isPrivate && msg.gasPrice == 0 && msg.value == 0
    ensures var r := Proceeded(env, msg, s, p, q, pool);
      && (r.outcome.Done? <==> Outsider(env, msg) || msg.gas >= IntrinsicGas(InputOf(env, msg), msg.to.None?, env.homestead))
      && (r.outcome.Done? ==> r.outcome == Done(0, 0) && Bumped(p, r.public, s))
  {
    BumpFacts(p, s);
    if !Outsider(env, msg) {
      var p1 := if msg.to.Some? then Bump(p, s) else p;
      var data := InputOf(env, msg);
      var igas := IntrinsicGas(data, msg.to.None?, env.homestead);
      PerformedPrivately(env, msg, s, data, igas, p1, q, pool);
      var r := Performed(env, msg, s, data, igas, p1, q, pool);
      if r.outcome.Done? && msg.to.Some? {
        BumpedThenSame(p, p1, r.public, s);
      }
    }
  }

  /** No public wei is made or lost, except that a node outside a private
      message neither pays back nor passes on the gas that was bought. */
  lemma Conservation(env: Env, msg: Tx, checkNonce: bool, p: World, q: World, pool: int)
    requires EnvOk(env) && Unsigned(msg) && Solvent(p) && (msg.isPrivate ==> Solvent(q))
    ensures var r := Transition(env, msg, checkNonce, p, q, pool);
      r.outcome.Done? ==>
        && TotalWei(r.public) == TotalWei(p) - (if Outsider(env, msg) then msg.gas * msg.gasPrice else 0)
        && Solvent(r.public) && (msg.isPrivate ==> Solvent(r.private))
        && pool - msg.gas <= r.pool <= pool
  {
    if PreCheckError(msg, checkNonce, p, pool).None? {
      var cost := msg.gas * msg.gasPrice;
      Products(msg.gas, 0, 0, msg.gasPrice);
      BoughtFacts(p, msg.from.value, cost);
      ProceededFacts(env, msg, msg.from.value, Bought(p, msg.from.value, cost), q, pool - msg.gas);
    }
  }

  /** A public message goes through exactly if it passes the checks, the gas
      covers the intrinsic cost and the rest of the balance the value. Then the
      nonce goes up by one, the pool shrinks by the reported gas and at most
      half of the used gas is refunded. */
  lemma PublicMessage(env: Env, msg: Tx, checkNonce: bool, p: World, q: World, pool: int)
    requires EnvOk(env) && Unsigned(msg) && Solvent(p) && !msg.isPrivate
    ensures var r := Transition(env, msg, checkNonce, p, q, pool);
      && (r.outcome.Done? <==>
            && PreCheckError(msg, checkNonce, p, pool).None?
            && msg.gas >= IntrinsicGas(msg.data, msg.to.None?, env.homestead)
            && BalanceOf(p, msg.from.value) - msg.gas * msg.gasPrice >= msg.value)
      && (r.outcome.Done? ==>
            && NonceOf(r.public, msg.from.value) == NonceOf(p, msg.from.value) + 1
            && r.pool == pool - r.outcome.used
            && 0 <= r.outcome.used <= r.outcome.required <= msg.gas
            && r.outcome.required - r.outcome.used <= r.outcome.required / 2)
  {
    if PreCheckError(msg, checkNonce, p, pool).None? {
      var cost := msg.gas * msg.gasPrice;
      Products(msg.gas, 0, 0, msg.gasPrice);
      BoughtFacts(p, msg.from.value, cost);
      ProceededFacts(env, msg, msg.from.value, Bought(p, msg.from.value, cost), q, pool - msg.gas);
    }
  }

  /** A private message reports no gas. Free of price and value it goes through
      exactly if it passes the checks and, on a node that is a party to it, the
      gas covers the payload; then all that changes on the public state is the
      sender's nonce, called or created, succeeded or reverted, party or not. */
  lemma PrivateMessage(env: Env, msg: Tx, checkNonce: bool, p: World, q: World, pool: int)
    requires EnvOk(env) && Unsigned(msg) && Solvent(p) && Solvent(q) && msg.isPrivate
    requires msg.gasPrice == 0 && msg.value == 0
    ensures var r := Transition(env, msg, checkNonce, p, q, pool);
      && (r.outcome.Done? <==>
            && PreCheckError(msg, checkNonce, p, pool).None?
            && (Outsider(env, msg) || msg.gas >= IntrinsicGas(InputOf(env, msg), msg.to.None?, env.homestead)))
      && (r.outcome.Done? ==> r.outcome == Done(0, 0) && Bumped(p, r.public, msg.from.value))
  {
    if PreCheckError(msg, checkNonce, p, pool).None? {
      var s := msg.from.value;
      BoughtFacts(p, s, 0);
      var p1 := Bought(p, s, 0);
      ProceededPrivately(env, msg, s, p1, q, pool - msg.gas);
      var r := Proceeded(env, msg, s, p1, q, pool - msg.gas);
      if r.outcome.Done? {
        SameThenBumped(p, p1, r.public, s);
      }
    }
  }

  /** Two nodes, one a party to a private message and one not, that start with
      the same public balances and nonces and the same gas. Without price and
      value they end with the same public balances and nonces and the same
      report if, and only if, the gas pays for the payload. */
  lemma PublicAgreement(party: Env, outsider: Env, msg: Tx, checkNonce: bool,
                        p: World, q: World, p': World, q': World, pool: int)
    requires EnvOk(party) && EnvOk(outsider) && Unsigned(msg)
    requires Solvent(p) && Solvent(q) && Solvent(p') && Solvent(q') && SameView(p, p')
    requires msg.isPrivate && msg.gasPrice == 0 && msg.value == 0
    requires !Outsider(party, msg) && Outsider(outsider, msg)
    ensures var r, r' := Transition(party, msg, checkNonce, p, q, pool), Transition(outsider, msg, checkNonce, p', q', pool);
      && (r'.outcome.Failed? ==> r.outcome == r'.outcome)
      && (r'.outcome.Done? ==>
            (r.outcome == r'.outcome && SameView(r.public, r'.public) <==>
              msg.gas >= IntrinsicGas(InputOf(party, msg), msg.to.None?, party.homestead)))
  {
    if msg.from.Some? {
      assert SameAt(p, p', msg.from.value);
    }
    PrivateMessage(party, msg, checkNonce, p, q, pool);
    PrivateMessage(outsider, msg, checkNonce, p', q', pool);
    var r, r' := Transition(party, msg, checkNonce, p, q, pool), Transition(outsider, msg, checkNonce, p', q', pool);
    if r.outcome.Done? && r'.outcome.Done? {
      BothBumped(p, r.public, p', r'.public, msg.from.value);
    }
  }
}
