/** What a message does, account by account (core/state_transition.go:180-328,
    core/execution.go:134-201): an account of `Transition` that starts from the
    worlds before and after instead of its steps. */
module MessageLaw {
  import opened Basics
  import opened TxTypes
  import opened Gas
  import opened WorldState
  import opened TransitionSpec

  // ---- worlds, account by account ----

  ghost predicate PaidAt(p: World, s: Address, cost: int, w: World, a: Address) {
    && (Exist(w, a) <==> Exist(p, a) || a == s)
    && BalanceOf(w, a) == BalanceOf(p, a) - (if a == s then cost else 0)
    && NonceOf(w, a) == NonceOf(p, a) + if a == s then 1 else 0
  }

  /** `w` is `p` after `s` paid `cost` and counted one nonce. */
  ghost predicate Paid(p: World, s: Address, cost: int, w: World) {
    w.refund == p.refund && forall a {:trigger PaidAt(p, s, cost, w, a)} :: PaidAt(p, s, cost, w, a)
  }

  ghost predicate StartedAt(v: World, s: Address, c: Address, create: bool, x: int, w: World, a: Address) {
    && (Exist(w, a) <==> Exist(v, a) || a == s || a == c)
    && BalanceOf(w, a) == BalanceOf(v, a) - (if a == s then x else 0) + (if a == c then x else 0)
    && NonceOf(w, a) == if create && a == c then 0 else NonceOf(v, a)
  }

  /** `w` is `v` after `s` moved `x` to `c`, which is there and new if created. */
  ghost predicate Started(v: World, s: Address, c: Address, create: bool, x: int, w: World) {
    w.refund == v.refund && forall a {:trigger StartedAt(v, s, c, create, x, w, a)} :: StartedAt(v, s, c, create, x, w, a)
  }

  ghost predicate SameEntry(w: World, w': World, a: Address) {
    (Exist(w, a) <==> Exist(w', a)) && SameAt(w, w', a)
  }

  lemma SameWorld(w: World, w': World)
    requires w.refund == w'.refund && forall a {:trigger SameEntry(w, w', a)} :: SameEntry(w, w', a)
    ensures w == w'
  {
    forall a ensures a in w.accounts <==> a in w'.accounts {
      assert SameEntry(w, w', a);
    }
    forall a | a in w.accounts ensures w.accounts[a] == w'.accounts[a] {
      assert SameEntry(w, w', a);
    }
    assert w.accounts == w'.accounts;
  }

  lemma PaidIs(p: World, s: Address, cost: int, w: World)
    requires Paid(p, s, cost, w)
    ensures w == Bump(Bought(p, s, cost), s)
  {
    var v := Bump(Bought(p, s, cost), s);
    forall a ensures SameEntry(w, v, a) {
      assert PaidAt(p, s, cost, w, a);
    }
    SameWorld(w, v);
  }

  lemma StartedIs(v: World, s: Address, c: Address, create: bool, x: int, w: World)
    requires Started(v, s, c, create, x, w) && (create ==> c != s)
    ensures w == Prepared(v, s, c, create, x)
  {
    var u := Prepared(v, s, c, create, x);
    forall a ensures SameEntry(w, u, a) {
      assert StartedAt(v, s, c, create, x, w, a);
    }
    SameWorld(w, u);
  }

  lemma PaidSome(p: World, s: Address, cost: int)
    ensures Paid(p, s, cost, Bump(Bought(p, s, cost), s))
  {
  }

  lemma StartedSome(v: World, s: Address, c: Address, create: bool, x: int)
    requires create ==> c != s
    ensures Started(v, s, c, create, x, Prepared(v, s, c, create, x))
  {
  }

  // ---- the run ----

  /** The called contract, or the one to be created. */
  function ContractOf(env: Env, msg: Tx, p: World, s: Address): Address {
    if msg.to.Some? then msg.to.value else env.createAddress(s, NonceOf(p, s))
  }

  /** A created contract whose code cannot be paid for. */
  predicate Unpaid(msg: Tx, run: Run) {
    msg.to.None? && !run.err && run.gas < 200 * run.size
  }

  /** The contract's state is set back and its gas gone. */
  predicate Undone(env: Env, msg: Tx, run: Run) {
    run.err || (env.homestead && Unpaid(msg, run))
  }

  function GasLeft(env: Env, msg: Tx, run: Run): int {
    if Undone(env, msg, run) then 0
    else if msg.to.None? && !Unpaid(msg, run) then run.gas - 200 * run.size
    else run.gas
  }

  /** The contract lives in the public state: always for a public message, for a
      private one if it is there and not in the private state. */
  predicate LivesInPublic(msg: Tx, p: World, q: World, s: Address) {
    !msg.isPrivate || (msg.to.Some? && !Exist(q, msg.to.value) && (Exist(p, msg.to.value) || msg.to.value == s))
  }

  /** The run of the message: `paid` is the public state after the sender paid
      for the gas, `start` the contract's state after the value moved. */
  function RunFrom(env: Env, msg: Tx, s: Address, c: Address, gas: int, onPublic: bool, paid: World, q: World, start: World): Run
    requires !Outsider(env, msg)
  {
    env.evm(Frame(s, c, msg.to.None?, InputOf(env, msg), gas, msg.value, msg.isPrivate),
            if onPublic then start else paid, if msg.isPrivate && onPublic then q else start)
  }

  lemma RunFromIs(env: Env, msg: Tx, s: Address, c: Address, gas: int, paid: World, q: World, start: World)
    requires !Outsider(env, msg) && (msg.to.None? ==> c != s)
    requires Started(if OnPublic(msg, paid, q) then paid else q, s, c, msg.to.None?, msg.value, start)
    ensures RunOn(env, msg, s, c, InputOf(env, msg), paid, q, gas) ==
            RunFrom(env, msg, s, c, gas, OnPublic(msg, paid, q), paid, q, start)
  {
    StartedIs(if OnPublic(msg, paid, q) then paid else q, s, c, msg.to.None?, msg.value, start);
  }

  ghost predicate FinishedAs(env: Env, msg: Tx, onPublic: bool, paid: World, q: World, run: Run, f: Finished) {
    && f.gas == GasLeft(env, msg, run) && f.err != ValueTransferErr
    && f.public == (if Undone(env, msg, run) && onPublic then paid else run.public)
    && (msg.isPrivate ==> f.private == if Undone(env, msg, run) && !onPublic then q else run.private)
  }

  lemma FinishIs(env: Env, msg: Tx, paid: World, q: World, run: Run)
    ensures FinishedAs(env, msg, OnPublic(msg, paid, q), paid, q, run, Finish(env, msg, paid, q, run))
  {
  }

  // ---- from the purchase of gas to the end of the run ----

  /** What a message runs with: the public state after its gas was paid for, and
      the contract's state after the value moved. */
  ghost predicate RunsFrom(env: Env, msg: Tx, s: Address, p: World, q: World, paid: World, start: World) {
    && Paid(p, s, msg.gas * msg.gasPrice, paid)
    && Started(if LivesInPublic(msg, p, q, s) then paid else q, s, ContractOf(env, msg, p, s), msg.to.None?, msg.value, start)
  }

  /** There is exactly one such pair. */
  lemma RunsFromSome(env: Env, msg: Tx, s: Address, p: World, q: World) returns (paid: World, start: World)
    requires EnvOk(env)
    ensures RunsFrom(env, msg, s, p, q, paid, start)
    ensures forall paid', start' :: RunsFrom(env, msg, s, p, q, paid', start') ==> paid' == paid && start' == start
  {
    var cost, c := msg.gas * msg.gasPrice, ContractOf(env, msg, p, s);
    paid := Bump(Bought(p, s, cost), s);
    start := Prepared(if LivesInPublic(msg, p, q, s) then paid else q, s, c, msg.to.None?, msg.value);
    PaidSome(p, s, cost);
    StartedSome(if LivesInPublic(msg, p, q, s) then paid else q, s, c, msg.to.None?, msg.value);
    forall paid', start' | RunsFrom(env, msg, s, p, q, paid', start') ensures paid' == paid && start' == start {
      PaidIs(p, s, cost, paid');
      StartedIs(if LivesInPublic(msg, p, q, s) then paid' else q, s, c, msg.to.None?, msg.value, start');
    }
  }

  function RunOf(env: Env, msg: Tx, s: Address, p: World, q: World, paid: World, start: World): Run
    requires !Outsider(env, msg)
  {
    RunFrom(env, msg, s, ContractOf(env, msg, p, s), msg.gas - IntrinsicGas(InputOf(env, msg), msg.to.None?, env.homestead),
            LivesInPublic(msg, p, q, s), paid, q, start)
  }

  /** The value can be moved: on the contract's state, after the gas was paid for. */
  predicate ValueCovered(msg: Tx, s: Address, p: World, q: World) {
    msg.value <= if LivesInPublic(msg, p, q, s) then BalanceOf(p, s) - msg.gas * msg.gasPrice else BalanceOf(q, s)
  }

  lemma LivesIs(msg: Tx, p: World, q: World, s: Address, cost: int)
    ensures OnPublic(msg, Bump(Bought(p, s, cost), s), q) == LivesInPublic(msg, p, q, s)
    ensures OnPublic(msg, Bought(p, s, cost), q) == LivesInPublic(msg, p, q, s)
    ensures BalanceOf(Bump(Bought(p, s, cost), s), s) == BalanceOf(Bought(p, s, cost), s) == BalanceOf(p, s) - cost
    ensures NonceOf(Bought(p, s, cost), s) == NonceOf(p, s)
  {
  }

  /** The public state in which a message starts to be performed. */
  function Before(msg: Tx, s: Address, bought: World): World {
    if msg.isPrivate && msg.to.Some? then Bump(bought, s) else bought
  }

  lemma RanIs(env: Env, msg: Tx, s: Address, p: World, q: World, cost: int, gas: int)
    requires !Outsider(env, msg)
    ensures var b := Bought(p, s, cost);
      var paid, on := Bump(b, s), LivesInPublic(msg, p, q, s);
      Ran(env, msg, s, InputOf(env, msg), Before(msg, s, b), q, gas) ==
        if BalanceOf(if on then b else q, s) < msg.value
        then Finished(if msg.to.Some? then paid else b, if msg.isPrivate then q else if msg.to.Some? then paid else b, gas, ValueTransferErr)
        else Finish(env, msg, paid, q, RunOn(env, msg, s, ContractOf(env, msg, p, s), InputOf(env, msg), paid, q, gas))
  {
    LivesIs(msg, p, q, s, cost);
  }

  // ---- the end of a message ----

  /** What is left when a run is settled: `base` is the public state then, with
      `left` gas over. The sender gets back leftover gas and the refund, the
      coinbase is paid for what was used. */
  ghost predicate SettledFrom(env: Env, msg: Tx, s: Address, base: World, left: int, pool: int, r: TransitionSpec.Result) {
    var refund := Min((msg.gas - left) / 2, base.refund);
    var used := msg.gas - left - refund;
    && r.outcome == (if msg.isPrivate then Done(0, 0) else Done(msg.gas - left, used)) && r.pool == pool - used
    && Fees(env, msg, s, base, left + refund, used, r.public)
  }

  ghost predicate Fees(env: Env, msg: Tx, s: Address, base: World, back: int, used: int, w: World) {
    forall a {:trigger FeesAt(env, msg, s, base, back, used, w, a)} :: FeesAt(env, msg, s, base, back, used, w, a)
  }

  ghost predicate FeesAt(env: Env, msg: Tx, s: Address, base: World, back: int, used: int, w: World, a: Address) {
    && BalanceOf(w, a) == BalanceOf(base, a) + (if a == s then back * msg.gasPrice else 0)
                          + (if a == env.coinbase then used * msg.gasPrice else 0)
    && NonceOf(w, a) == NonceOf(base, a)
  }

  lemma SettledAt(w: World, s: Address, x: int, y: int, c: Address, z: int, a: Address)
    ensures var w' := Settled(w, s, x, y, c, z);
      && BalanceOf(w', a) == BalanceOf(w, a) + (if a == s then x + y else 0) + (if a == c then z else 0)
      && NonceOf(w', a) == NonceOf(w, a)
  {
  }

  lemma SettledFees(env: Env, msg: Tx, s: Address, w: World, left: int, refund: int, used: int)
    ensures Fees(env, msg, s, w, left + refund, used,
                 Settled(w, s, left * msg.gasPrice, refund * msg.gasPrice, env.coinbase, used * msg.gasPrice))
  {
    var x, y, z := left * msg.gasPrice, refund * msg.gasPrice, used * msg.gasPrice;
    assert (left + refund) * msg.gasPrice == x + y;
    FeesOf(env, msg, s, w, left + refund, used, x, y, z);
  }

  lemma FeesOf(env: Env, msg: Tx, s: Address, w: World, back: int, used: int, x: int, y: int, z: int)
    requires back * msg.gasPrice == x + y && used * msg.gasPrice == z
    ensures Fees(env, msg, s, w, back, used, Settled(w, s, x, y, env.coinbase, z))
  {
    var w' := Settled(w, s, x, y, env.coinbase, z);
    forall a ensures FeesAt(env, msg, s, w, back, used, w', a) {
      SettledAt(w, s, x, y, env.coinbase, z, a);
    }
  }

  lemma SettlementIs(env: Env, msg: Tx, s: Address, f: Finished, pool: int)
    ensures SettledFrom(env, msg, s, f.public, f.gas, pool, Settlement(env, msg, s, f, pool - msg.gas))
  {
    var refund := RefundOf(msg.gas, f.gas, f.public.refund);
    SettledFees(env, msg, s, f.public, f.gas, refund, msg.gas - f.gas - refund);
  }

  /** What a done message leaves on a node that runs it. */
  ghost predicate Concludes(env: Env, msg: Tx, s: Address, onPublic: bool, paid: World, q: World, run: Run, pool: int,
                            r: TransitionSpec.Result) {
    var undone := Undone(env, msg, run);
    && SettledFrom(env, msg, s, if undone && onPublic then paid else run.public, GasLeft(env, msg, run), pool, r)
    && (msg.isPrivate ==> r.private == if undone && !onPublic then q else run.private)
  }

  lemma PerformedIs(env: Env, msg: Tx, s: Address, p: World, q: World, pool: int)
    requires !Outsider(env, msg)
    ensures var b := Bought(p, s, msg.gas * msg.gasPrice);
      var igas, paid := IntrinsicGas(InputOf(env, msg), msg.to.None?, env.homestead), Bump(b, s);
      var r := Proceeded(env, msg, s, b, q, pool - msg.gas);
      if msg.gas < igas || !ValueCovered(msg, s, p, q) then r.outcome == Failed(InvalidTxError)
      else r == Settlement(env, msg, s, Finish(env, msg, paid, q,
                  RunOn(env, msg, s, ContractOf(env, msg, p, s), InputOf(env, msg), paid, q, msg.gas - igas)), pool - msg.gas)
  {
    var igas := IntrinsicGas(InputOf(env, msg), msg.to.None?, env.homestead);
    LivesIs(msg, p, q, s, msg.gas * msg.gasPrice);
    RanIs(env, msg, s, p, q, msg.gas * msg.gasPrice, msg.gas - igas);
  }

  // ---- main results ----

  /** Which messages fail, and with which error. */
  lemma Refusals(env: Env, msg: Tx, checkNonce: bool, p: World, q: World, pool: int)
    ensures var r := Transition(env, msg, checkNonce, p, q, pool).outcome;
      if msg.from.None? then r == Failed(SenderError)
      else if checkNonce && NonceOf(p, msg.from.value) != msg.nonce then r == Failed(NonceError)
      else if BalanceOf(p, msg.from.value) < msg.gas * msg.gasPrice then r == Failed(InvalidTxError)
      else if pool < msg.gas then r == Failed(GasLimitErr)
      else if Outsider(env, msg) then r == Done(0, 0)
      else if msg.gas < IntrinsicGas(InputOf(env, msg), msg.to.None?, env.homestead) || !ValueCovered(msg, msg.from.value, p, q)
      then r == Failed(InvalidTxError)
      else r.Done?
  {
    if PreCheckError(msg, checkNonce, p, pool).None? && !Outsider(env, msg) {
      PerformedIs(env, msg, msg.from.value, p, q, pool);
    }
  }

  /** The law of a message that runs: from the two worlds it runs with, through
      the run, to all balances and nonces, the report and the gas pool. */
  lemma Law(env: Env, msg: Tx, checkNonce: bool, p: World, q: World, pool: int, paid: World, start: World)
    requires EnvOk(env) && !Outsider(env, msg) && Transition(env, msg, checkNonce, p, q, pool).outcome.Done?
    requires RunsFrom(env, msg, msg.from.value, p, q, paid, start)
    ensures Concludes(env, msg, msg.from.value, LivesInPublic(msg, p, q, msg.from.value), paid, q,
                      RunOf(env, msg, msg.from.value, p, q, paid, start), pool, Transition(env, msg, checkNonce, p, q, pool))
  {
    var s := msg.from.value;
    Refusals(env, msg, checkNonce, p, q, pool);
    ProceededLaw(env, msg, s, p, q, pool, paid, start);
    assert Transition(env, msg, checkNonce, p, q, pool) ==
           Proceeded(env, msg, s, Bought(p, s, msg.gas * msg.gasPrice), q, pool - msg.gas);
  }

  lemma ProceededLaw(env: Env, msg: Tx, s: Address, p: World, q: World, pool: int, paid: World, start: World)
    requires EnvOk(env) && !Outsider(env, msg) && RunsFrom(env, msg, s, p, q, paid, start) && ValueCovered(msg, s, p, q)
    requires msg.gas >= IntrinsicGas(InputOf(env, msg), msg.to.None?, env.homestead)
    ensures Concludes(env, msg, s, LivesInPublic(msg, p, q, s), paid, q, RunOf(env, msg, s, p, q, paid, start), pool,
                      Proceeded(env, msg, s, Bought(p, s, msg.gas * msg.gasPrice), q, pool - msg.gas))
  {
    var cost, c := msg.gas * msg.gasPrice, ContractOf(env, msg, p, s);
    var gas := msg.gas - IntrinsicGas(InputOf(env, msg), msg.to.None?, env.homestead);
    var run := RunOn(env, msg, s, c, InputOf(env, msg), paid, q, gas);
    PaidIs(p, s, cost, paid);
    LivesIs(msg, p, q, s, cost);
    RunFromIs(env, msg, s, c, gas, paid, q, start);
    assert run == RunOf(env, msg, s, p, q, paid, start);
    PerformedIs(env, msg, s, p, q, pool);
    assert Proceeded(env, msg, s, Bought(p, s, cost), q, pool - msg.gas) ==
           Settlement(env, msg, s, Finish(env, msg, paid, q, run), pool - msg.gas);
    FinishConcludes(env, msg, s, paid, q, run, pool);
  }

  lemma FinishConcludes(env: Env, msg: Tx, s: Address, paid: World, q: World, run: Run, pool: int)
    ensures Concludes(env, msg, s, OnPublic(msg, paid, q), paid, q, run, pool,
                      Settlement(env, msg, s, Finish(env, msg, paid, q, run), pool - msg.gas))
  {
    FinishIs(env, msg, paid, q, run);
    SettlementIs(env, msg, s, Finish(env, msg, paid, q, run), pool);
  }

  /** A node outside of a private message takes the sender's gas payment and
      counts the nonce, and nothing else. */
  lemma OutsiderLaw(env: Env, msg: Tx, checkNonce: bool, p: World, q: World, pool: int)
    requires Outsider(env, msg)
    ensures var r := Transition(env, msg, checkNonce, p, q, pool);
      r.outcome.Done? ==>
        Paid(p, msg.from.value, msg.gas * msg.gasPrice, r.public) && r.private == q && r.pool == pool - msg.gas
  {
    if msg.from.Some? {
      PaidSome(p, msg.from.value, msg.gas * msg.gasPrice);
    }
  }

  /** The balance and nonce of account `a` after a public message: value and fee
      change hands, and whatever the contract itself moved comes on top; an
      undone run leaves only the fee and the counted nonce. */
  ghost predicate PublicChange(env: Env, msg: Tx, s: Address, c: Address, p: World, start: World, run: Run,
                               used: int, w: World, a: Address) {
    var fee := used * msg.gasPrice;
    var fees := (if a == env.coinbase then fee else 0) - (if a == s then fee else 0);
    var moved := (if a == c then msg.value else 0) - (if a == s then msg.value else 0);
    if Undone(env, msg, run)
    then BalanceOf(w, a) == BalanceOf(p, a) + fees && NonceOf(w, a) == NonceOf(p, a) + if a == s then 1 else 0
    else BalanceOf(w, a) == BalanceOf(p, a) + fees + moved + (BalanceOf(run.public, a) - BalanceOf(start, a))
         && NonceOf(w, a) == NonceOf(run.public, a)
  }

  lemma ChangeOf(env: Env, msg: Tx, s: Address, c: Address, p: World, q: World, pool: int, paid: World, start: World, run: Run,
                 r: TransitionSpec.Result, a: Address)
    requires !msg.isPrivate && Concludes(env, msg, s, true, paid, q, run, pool, r)
    requires Paid(p, s, msg.gas * msg.gasPrice, paid) && Started(paid, s, c, msg.to.None?, msg.value, start)
    ensures r.outcome.Done? && PublicChange(env, msg, s, c, p, start, run, r.outcome.used, r.public, a)
  {
    var base, left := if Undone(env, msg, run) then paid else run.public, GasLeft(env, msg, run);
    var back := left + Min((msg.gas - left) / 2, base.refund);
    var used := r.outcome.used;
    assert used == msg.gas - back && FeesAt(env, msg, s, base, back, used, r.public, a);
    assert PaidAt(p, s, msg.gas * msg.gasPrice, paid, a);
    assert StartedAt(paid, s, c, msg.to.None?, msg.value, start, a);
    FeeSplit(msg.gas, back, used, msg.gasPrice);
  }

  lemma FeeSplit(gas: int, back: int, used: int, price: int)
    requires gas == back + used
    ensures gas * price == back * price + used * price
  {
  }

  lemma PublicBalances(env: Env, msg: Tx, checkNonce: bool, p: World, q: World, pool: int, paid: World, start: World, a: Address)
    requires EnvOk(env) && !msg.isPrivate && Transition(env, msg, checkNonce, p, q, pool).outcome.Done?
    requires RunsFrom(env, msg, msg.from.value, p, q, paid, start)
    ensures var r, s := Transition(env, msg, checkNonce, p, q, pool), msg.from.value;
      PublicChange(env, msg, s, ContractOf(env, msg, p, s), p, start, RunOf(env, msg, s, p, q, paid, start),
                   r.outcome.used, r.public, a)
  {
    var s := msg.from.value;
    Law(env, msg, checkNonce, p, q, pool, paid, start);
    ChangeOf(env, msg, s, ContractOf(env, msg, p, s), p, q, pool, paid, start, RunOf(env, msg, s, p, q, paid, start),
             Transition(env, msg, checkNonce, p, q, pool), a);
  }
}
