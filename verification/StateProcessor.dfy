/** Processing the transactions of a block (core/state_processor.go) and
    recovering gas from stored receipts (core/blockchain.go:704-709). */
module StateProcessor {
  import opened TxTypes
  import opened ChainTypes
  import opened WorldState
  import opened TransitionSpec
  import opened StateTransitions
  import opened Uncles

  datatype Receipt = Receipt(txHash: TxHash, cumulativeGasUsed: int, gasUsed: int)

  datatype ProcessError = ErrInvalidGasPrice | NotApplied(error: TransitionError)

  function CumulativeBefore(receipts: seq<Receipt>, i: nat): int
    requires i <= |receipts|
  {
    if i == 0 then 0 else receipts[i - 1].cumulativeGasUsed
  }

  ghost predicate AccountedAt(txs: seq<Tx>, receipts: seq<Receipt>, i: nat)
    requires |receipts| == |txs| && i < |txs|
  {
    && receipts[i].txHash == txs[i].Hash()
    && receipts[i].gasUsed >= 0 && (txs[i].isPrivate ==> receipts[i].gasUsed == 0)
    && receipts[i].cumulativeGasUsed == receipts[i].gasUsed + CumulativeBefore(receipts, i)
  }

  /** What the receipts of a block say about its transactions so far. */
  ghost predicate Accounted(txs: seq<Tx>, receipts: seq<Receipt>, total: int) {
    && |receipts| == |txs|
    && (forall i: nat {:trigger AccountedAt(txs, receipts, i)} :: i < |txs| ==> AccountedAt(txs, receipts, i))
    && total == CumulativeBefore(receipts, |receipts|)
  }

  /** What one done transaction without gas price leaves. */
  ghost predicate Applied(tx: Tx, p: World, pool: int, r: TransitionSpec.Result) {
    && r.outcome.Done? && Solvent(r.public) && (tx.isPrivate ==> Solvent(r.private))
    && TotalWei(r.public) == TotalWei(p)
    && tx.from.Some? && NonceOf(p, tx.from.value) == tx.nonce
    && r.outcome.used >= 0 && (tx.isPrivate ==> r.outcome.used == 0)
    && r.pool >= 0 && r.pool + r.outcome.used <= pool
    && (!tx.isPrivate ==> r.pool + r.outcome.used == pool)
    && (!tx.isPrivate || tx.value == 0 ==> NonceOf(r.public, tx.from.value) == tx.nonce + 1)
  }

  lemma AppliedFacts(env: Env, tx: Tx, p: World, q: World, pool: int)
    requires EnvOk(env) && Unsigned(tx) && tx.gasPrice == 0 && Solvent(p) && (tx.isPrivate ==> Solvent(q)) && pool >= 0
    ensures var r := Transition(env, tx, true, p, q, pool);
      r.outcome.Done? ==> Applied(tx, p, pool, r)
  {
    Conservation(env, tx, true, p, q, pool);
    var r := Transition(env, tx, true, p, q, pool);
    if !tx.isPrivate {
      PublicMessage(env, tx, true, p, q, pool);
    } else if tx.value == 0 {
      PrivateMessage(env, tx, true, p, q, pool);
      if r.outcome.Done? {
        assert BumpedAt(p, r.public, tx.from.value, tx.from.value);
      }
    }
  }

  /** Both states, the gas pool, the gas used and the receipts within a block. */
  datatype Progress = Progress(public: World, private: World, pool: int, used: int, receipts: seq<Receipt>)

  function ErrorOf(tx: Tx, t: TransitionSpec.Result): Option<ProcessError> {
    if tx.gasPrice > 0 then Some(ErrInvalidGasPrice)
    else if t.outcome.Failed? then Some(NotApplied(t.outcome.error)) else None
  }

  function TxError(env: Env, tx: Tx, g: Progress): Option<ProcessError> {
    ErrorOf(tx, Transition(env, tx, true, g.public, g.private, g.pool))
  }

  function Advanced(tx: Tx, t: TransitionSpec.Result, g: Progress): Progress
    requires t.outcome.Done?
  {
    var used := g.used + t.outcome.used;
    Progress(t.public.(refund := 0), if tx.isPrivate then t.private.(refund := 0) else g.private, t.pool,
             used, g.receipts + [Receipt(tx.Hash(), used, t.outcome.used)])
  }

  function AfterTx(env: Env, tx: Tx, g: Progress): Progress
    requires TxError(env, tx, g).None?
  {
    Advanced(tx, Transition(env, tx, true, g.public, g.private, g.pool), g)
  }

  /** Applies one transaction; nothing may pay for gas here. */
  method ApplyTransaction(gp: GasPool, publicState: StateDB, privateState: StateDB, env: Env, tx: Tx, usedGas: int)
    returns (error: Option<ProcessError>, total: int, receipt: Receipt, privateReceipt: Option<Receipt>)
    requires publicState != privateState && Unsigned(tx) && EnvOk(env)
    requires Solvent(publicState.world) && Solvent(privateState.world) && gp.gas >= 0
    modifies gp, publicState, privateState
    ensures var t := Transition(env, tx, true, old(publicState.world), old(privateState.world), old(gp.gas));
      && error == ErrorOf(tx, t)
      && (error.None? ==>
            && Applied(tx, old(publicState.world), old(gp.gas), t)
            && publicState.world == t.public.(refund := 0) && gp.gas == t.pool
            && privateState.world == (if tx.isPrivate then t.private.(refund := 0) else old(privateState.world))
            && total == usedGas + t.outcome.used && receipt == Receipt(tx.Hash(), total, t.outcome.used)
            && privateReceipt == (if tx.isPrivate then Some(receipt) else None)
            && Solvent(publicState.world) && Solvent(privateState.world)
            && TotalWei(publicState.world) == TotalWei(old(publicState.world)))
  {
    total, receipt, privateReceipt := usedGas, Receipt(tx.Hash(), usedGas, 0), None;
    var runState := if tx.isPrivate then privateState else publicState;
    if tx.gasPrice > 0 {
      return Some(ErrInvalidGasPrice), total, receipt, privateReceipt;
    }
    var st := new StateTransition(gp, tx, true, env, publicState, runState);
    AppliedFacts(env, tx, publicState.world, privateState.world, gp.gas);
    var r := st.TransitionDb();
    if r.Failed? {
      return Some(NotApplied(r.error)), total, receipt, privateReceipt;
    }
    total := usedGas + r.used;
    RefundClosed(publicState.world);
    RefundClosed(runState.world);
    publicState.world := publicState.world.(refund := 0);
    receipt := Receipt(tx.Hash(), total, r.used);
    if tx.isPrivate {
      privateState.world := privateState.world.(refund := 0);
      privateReceipt := Some(receipt);
    }
    error := None;
  }

  /** Computing the state root closes the transaction's refund counter. */
  lemma RefundClosed(w: World)
    ensures TotalWei(w.(refund := 0)) == TotalWei(w) && (Solvent(w) ==> Solvent(w.(refund := 0)))
  {
    assert Balances(w.(refund := 0)) == Balances(w);
  }

  // ---- rewards ----

  ghost function UnclesRewarded(w: World, header: Header, uncles: seq<Header>): World {
    if uncles == [] then w else
      var last := uncles[|uncles| - 1];
      AddBalance(UnclesRewarded(w, header, uncles[..|uncles| - 1]), last.coinbase, UncleReward(header, last))
  }

  lemma {:induction false} UnclesRewardedTotal(w: World, header: Header, uncles: seq<Header>)
    ensures TotalWei(UnclesRewarded(w, header, uncles)) == TotalWei(w) + UncleRewards(header, uncles)
  {
    if uncles != [] {
      var front, last := uncles[..|uncles| - 1], uncles[|uncles| - 1];
      UnclesRewardedTotal(w, header, front);
      TotalAdd(UnclesRewarded(w, header, front), last.coinbase, UncleReward(header, last));
    }
  }

  ghost function Rewarded(w: World, header: Header): World {
    AddBalance(UnclesRewarded(w, header, header.uncles), header.coinbase, BLOCK_REWARD + |header.uncles| * (BLOCK_REWARD / 32))
  }

  /** What account `a` gets for uncles: for each one it mined, five ether less an
      eighth of it for each block of depth. */
  ghost function UnclePay(header: Header, uncles: seq<Header>, a: Address): int {
    if uncles == [] then 0 else
      var last := uncles[|uncles| - 1];
      UnclePay(header, uncles[..|uncles| - 1], a) +
      if last.coinbase == a then (8 - (header.number - last.number)) * 625_000000_000000000 else 0
  }

  ghost predicate RewardAt(w: World, header: Header, w': World, a: Address) {
    && BalanceOf(w', a) == BalanceOf(w, a) + UnclePay(header, header.uncles, a)
         + (if a == header.coinbase then BLOCK_REWARD + |header.uncles| * (BLOCK_REWARD / 32) else 0)
    && NonceOf(w', a) == NonceOf(w, a)
  }

  /** Who is paid what for a block. */
  ghost predicate RewardsPaid(w: World, header: Header, w': World) {
    forall a {:trigger RewardAt(w, header, w', a)} :: RewardAt(w, header, w', a)
  }

  lemma {:induction false} UnclesPaid(w: World, header: Header, uncles: seq<Header>, a: Address)
    ensures var w' := UnclesRewarded(w, header, uncles);
      BalanceOf(w', a) == BalanceOf(w, a) + UnclePay(header, uncles, a) && NonceOf(w', a) == NonceOf(w, a)
  {
    if uncles != [] {
      UnclesPaid(w, header, uncles[..|uncles| - 1], a);
      UncleRewardAt(header, uncles[|uncles| - 1]);
    }
  }

  lemma RewardedPays(w: World, header: Header)
    ensures RewardsPaid(w, header, Rewarded(w, header))
  {
    forall a ensures RewardAt(w, header, Rewarded(w, header), a) {
      UnclesPaid(w, header, header.uncles, a);
    }
  }

  /** Pays each uncle's coinbase by its depth, and the block's coinbase the
      block reward with 1/32 of it for each uncle. */
  method AccumulateRewards(state: StateDB, header: Header)
    modifies state
    ensures state.world == Rewarded(old(state.world), header) && RewardsPaid(old(state.world), header, state.world)
    ensures TotalWei(state.world) == TotalWei(old(state.world)) + Minted(header)
  {
    ghost var w := state.world;
    var reward := RewardUncles(state, header);
    UnclesRewardedTotal(w, header, header.uncles);
    TotalAdd(state.world, header.coinbase, reward);
    state.world := AddBalance(state.world, header.coinbase, reward);
    RewardedPays(w, header);
  }

  /** The loop over the uncles. */
  method RewardUncles(state: StateDB, header: Header) returns (reward: int)
    modifies state
    ensures state.world == UnclesRewarded(old(state.world), header, header.uncles)
    ensures reward == BLOCK_REWARD + |header.uncles| * (BLOCK_REWARD / 32)
  {
    ghost var w := state.world;
    reward := BLOCK_REWARD;
    for i := 0 to |header.uncles|
      invariant state.world == UnclesRewarded(w, header, header.uncles[..i])
      invariant reward == BLOCK_REWARD + i * (BLOCK_REWARD / 32)
    {
      var uncle := header.uncles[i];
      assert header.uncles[..i + 1][..i] == header.uncles[..i];
      state.world := AddBalance(state.world, uncle.coinbase, (uncle.number + 8 - header.number) * BLOCK_REWARD / 8);
      reward := reward + BLOCK_REWARD / 32;
    }
    assert header.uncles[..|header.uncles|] == header.uncles;
  }

  // ---- whole blocks ----

  function Transactions(block: Header): (txs: seq<Tx>)
    ensures |txs| == |block.txs| && forall i :: 0 <= i < |txs| ==> txs[i].Hash() == block.txs[i]
  {
    seq(|block.txs|, i requires 0 <= i < |block.txs| => block.txs[i].preimage)
  }

  /** The receipts of the private transactions. */
  function OfPrivate(txs: seq<Tx>, receipts: seq<Receipt>): seq<Receipt>
    requires |txs| == |receipts|
  {
    if txs == [] then [] else
      OfPrivate(txs[..|txs| - 1], receipts[..|txs| - 1]) +
      if txs[|txs| - 1].isPrivate then [receipts[|txs| - 1]] else []
  }

  /** How far the transactions of a block get: the first error ends it. */
  datatype Played = Played(error: Option<ProcessError>, at: Progress)

  function PlayTx(env: Env, tx: Tx, before: Played): Played {
    if before.error.Some? then before
    else if TxError(env, tx, before.at).Some? then Played(TxError(env, tx, before.at), before.at)
    else Played(None, AfterTx(env, tx, before.at))
  }

  function Play(env: Env, txs: seq<Tx>, g: Progress): Played {
    if txs == [] then Played(None, g) else PlayTx(env, txs[|txs| - 1], Play(env, txs[..|txs| - 1], g))
  }

  lemma PlayNext(env: Env, txs: seq<Tx>, i: nat, start: Progress, g: Progress, t: TransitionSpec.Result, receipt: Receipt, g': Progress)
    requires i < |txs| && Play(env, txs[..i], start) == Played(None, g)
    requires t == Transition(env, txs[i], true, g.public, g.private, g.pool)
    requires ErrorOf(txs[i], t).None? ==>
      && g'.public == t.public.(refund := 0) && g'.pool == t.pool
      && g'.private == (if txs[i].isPrivate then t.private.(refund := 0) else g.private)
      && g'.used == g.used + t.outcome.used && g'.receipts == g.receipts + [receipt]
      && receipt == Receipt(txs[i].Hash(), g'.used, t.outcome.used)
    ensures Play(env, txs[..i + 1], start).error == ErrorOf(txs[i], t)
    ensures ErrorOf(txs[i], t).None? ==> Play(env, txs[..i + 1], start).at == g'
  {
    PlayStep(env, txs, i, start, g, t);
    if ErrorOf(txs[i], t).None? {
      AdvancedIs(txs[i], t, g, receipt, g');
    }
  }

  lemma PlayStep(env: Env, txs: seq<Tx>, i: nat, start: Progress, g: Progress, t: TransitionSpec.Result)
    requires i < |txs| && Play(env, txs[..i], start) == Played(None, g)
    requires t == Transition(env, txs[i], true, g.public, g.private, g.pool)
    ensures Play(env, txs[..i + 1], start).error == ErrorOf(txs[i], t)
    ensures ErrorOf(txs[i], t).None? ==> Play(env, txs[..i + 1], start).at == Advanced(txs[i], t, g)
  {
    assert txs[..i + 1][..i] == txs[..i] && txs[..i + 1][i] == txs[i];
  }

  lemma AdvancedIs(tx: Tx, t: TransitionSpec.Result, g: Progress, receipt: Receipt, g': Progress)
    requires t.outcome.Done? && g'.public == t.public.(refund := 0) && g'.pool == t.pool
    requires g'.private == (if tx.isPrivate then t.private.(refund := 0) else g.private)
    requires g'.used == g.used + t.outcome.used && g'.receipts == g.receipts + [receipt]
    requires receipt == Receipt(tx.Hash(), g'.used, t.outcome.used)
    ensures g' == Advanced(tx, t, g)
  {
  }

  /** What stopped once stays stopped. */
  lemma {:induction false} PlayStops(env: Env, txs: seq<Tx>, i: nat, g: Progress)
    requires i <= |txs| && Play(env, txs[..i], g).error.Some?
    ensures Play(env, txs, g) == Play(env, txs[..i], g)
  {
    if i < |txs| {
      var front := txs[..|txs| - 1];
      assert front[..i] == txs[..i];
      PlayStops(env, front, i, g);
    } else {
      assert txs[..i] == txs;
    }
  }

  /** What a block starts from. */
  function BlockStart(public: World, private: World, gasLimit: int): Progress {
    Progress(public, private, gasLimit, 0, [])
  }

  /** Receipts account for the gas, what is used and what is left is within
      the limit, and no public wei was made or lost. */
  ghost predicate PlayedWell(txs: seq<Tx>, start: Progress, g: Progress) {
    && Accounted(txs, g.receipts, g.used) && 0 <= g.used && 0 <= g.pool && g.pool + g.used <= start.pool
    && Solvent(g.public) && Solvent(g.private) && TotalWei(g.public) == TotalWei(start.public)
  }

  ghost predicate AllUnsigned(txs: seq<Tx>) {
    forall i :: 0 <= i < |txs| ==> Unsigned(txs[i])
  }

  lemma {:induction false} PlayFacts(env: Env, txs: seq<Tx>, start: Progress)
    requires EnvOk(env) && AllUnsigned(txs) && Solvent(start.public) && Solvent(start.private)
    requires start == BlockStart(start.public, start.private, start.pool) && start.pool >= 0
    ensures Play(env, txs, start).error.None? ==> PlayedWell(txs, start, Play(env, txs, start).at)
  {
    if txs != [] && Play(env, txs, start).error.None? {
      var n := |txs| - 1;
      PlayFacts(env, txs[..n], start);
      var g := Play(env, txs[..n], start).at;
      AppliedFacts(env, txs[n], g.public, g.private, g.pool);
      AdvancedWell(txs, n, start, g, Transition(env, txs[n], true, g.public, g.private, g.pool));
      assert txs[..n + 1] == txs;
    }
  }

  lemma AdvancedWell(txs: seq<Tx>, n: nat, start: Progress, g: Progress, t: TransitionSpec.Result)
    requires n < |txs| && PlayedWell(txs[..n], start, g) && t.outcome.Done? && Applied(txs[n], g.public, g.pool, t)
    ensures PlayedWell(txs[..n + 1], start, Advanced(txs[n], t, g))
  {
    RefundClosed(t.public);
    RefundClosed(t.private);
    AccountedNext(txs, n, g.receipts, g.used, Receipt(txs[n].Hash(), g.used + t.outcome.used, t.outcome.used));
  }

  /** Runs all transactions of a block and pays the rewards: the gas used stays
      within the block's limit, receipts account for it, and the only new wei
      are the rewards. */
  method Process(block: Header, publicState: StateDB, privateState: StateDB, env: Env)
    returns (error: Option<ProcessError>, publicReceipts: seq<Receipt>, privateReceipts: seq<Receipt>, totalUsedGas: int)
    requires publicState != privateState && EnvOk(env) && block.gasLimit >= 0
    requires forall i :: 0 <= i < |block.txs| ==> Unsigned(block.txs[i].preimage)
    requires Solvent(publicState.world) && Solvent(privateState.world)
    modifies publicState, privateState
    ensures error.None? ==>
      && Accounted(Transactions(block), publicReceipts, totalUsedGas) && 0 <= totalUsedGas <= block.gasLimit
      && privateReceipts == OfPrivate(Transactions(block), publicReceipts)
      && TotalWei(publicState.world) == TotalWei(old(publicState.world)) + Minted(block)
    ensures var r := Play(env, Transactions(block), BlockStart(old(publicState.world), old(privateState.world), block.gasLimit));
      && error == r.error
      && (error.None? ==>
            && publicReceipts == r.at.receipts && totalUsedGas == r.at.used
            && publicState.world == Rewarded(r.at.public, block) && RewardsPaid(r.at.public, block, publicState.world)
            && privateState.world == r.at.private)
  {
    error, publicReceipts, privateReceipts, totalUsedGas := ProcessAll(block, publicState, privateState, env);
    if error.None? {
      AccumulateRewards(publicState, block);
    }
  }

  /** The loop over the transactions. */
  method ProcessAll(block: Header, publicState: StateDB, privateState: StateDB, env: Env)
    returns (error: Option<ProcessError>, publicReceipts: seq<Receipt>, privateReceipts: seq<Receipt>, totalUsedGas: int)
    requires publicState != privateState && EnvOk(env) && block.gasLimit >= 0
    requires forall i :: 0 <= i < |block.txs| ==> Unsigned(block.txs[i].preimage)
    requires Solvent(publicState.world) && Solvent(privateState.world)
    modifies publicState, privateState
    ensures var start := BlockStart(old(publicState.world), old(privateState.world), block.gasLimit);
      var r := Play(env, Transactions(block), start);
      && error == r.error
      && (error.None? ==>
            && publicReceipts == r.at.receipts && totalUsedGas == r.at.used
            && publicState.world == r.at.public && privateState.world == r.at.private
            && PlayedWell(Transactions(block), start, r.at)
            && privateReceipts == OfPrivate(Transactions(block), publicReceipts))
  {
    publicReceipts, privateReceipts, totalUsedGas, error := [], [], 0, None;
    var gp := new GasPool();
    gp.AddGas(block.gasLimit);
    var txs := Transactions(block);
    ghost var start := BlockStart(publicState.world, privateState.world, block.gasLimit);
    for i := 0 to |txs|
      invariant error.None? && fresh(gp) && gp.gas >= 0 && Solvent(publicState.world) && Solvent(privateState.world)
      invariant Play(env, txs[..i], start) ==
                Played(None, Progress(publicState.world, privateState.world, gp.gas, totalUsedGas, publicReceipts))
      invariant |publicReceipts| == i && privateReceipts == OfPrivate(txs[..i], publicReceipts)
    {
      assert block.txs[i].preimage == txs[i];
      var receipt, privateReceipt;
      error, totalUsedGas, receipt, privateReceipt :=
        ProcessNext(gp, publicState, privateState, env, txs, i, totalUsedGas, publicReceipts, start);
      if error.Some? {
        PlayStops(env, txs, i + 1, start);
        return;
      }
      OfPrivateNext(txs, i, publicReceipts, receipt);
      publicReceipts := publicReceipts + [receipt];
      if privateReceipt.Some? {
        privateReceipts := privateReceipts + [privateReceipt.value];
      }
    }
    assert txs[..|txs|] == txs;
    PlayFacts(env, txs, start);
  }

  /** One transaction of the loop. */
  method ProcessNext(gp: GasPool, publicState: StateDB, privateState: StateDB, env: Env, txs: seq<Tx>, i: nat, usedGas: int,
                     ghost receipts: seq<Receipt>, ghost start: Progress)
    returns (error: Option<ProcessError>, total: int, receipt: Receipt, privateReceipt: Option<Receipt>)
    requires publicState != privateState && EnvOk(env) && i < |txs| && Unsigned(txs[i])
    requires Solvent(publicState.world) && Solvent(privateState.world) && gp.gas >= 0
    requires Play(env, txs[..i], start) == Played(None, Progress(publicState.world, privateState.world, gp.gas, usedGas, receipts))
    modifies gp, publicState, privateState
    ensures error == Play(env, txs[..i + 1], start).error
    ensures error.None? ==>
      && Play(env, txs[..i + 1], start).at == Progress(publicState.world, privateState.world, gp.gas, total, receipts + [receipt])
      && privateReceipt == (if txs[i].isPrivate then Some(receipt) else None)
      && gp.gas >= 0 && Solvent(publicState.world) && Solvent(privateState.world)
  {
    ghost var g := Progress(publicState.world, privateState.world, gp.gas, usedGas, receipts);
    error, total, receipt, privateReceipt := ApplyTransaction(gp, publicState, privateState, env, txs[i], usedGas);
    PlayNext(env, txs, i, start, g, Transition(env, txs[i], true, g.public, g.private, g.pool), receipt,
             Progress(publicState.world, privateState.world, gp.gas, total, receipts + [receipt]));
  }

  lemma AccountedNext(txs: seq<Tx>, i: nat, receipts: seq<Receipt>, total: int, receipt: Receipt)
    requires i < |txs| && Accounted(txs[..i], receipts, total)
    requires receipt.txHash == txs[i].Hash() && receipt.gasUsed >= 0 && (txs[i].isPrivate ==> receipt.gasUsed == 0)
    requires receipt.cumulativeGasUsed == total + receipt.gasUsed
    ensures Accounted(txs[..i + 1], receipts + [receipt], receipt.cumulativeGasUsed)
  {
    var next, shorter, longer := receipts + [receipt], txs[..i], txs[..i + 1];
    forall k: nat | k < |longer| ensures AccountedAt(longer, next, k) {
      if k < i {
        assert AccountedAt(shorter, receipts, k);
      }
    }
  }

  lemma OfPrivateNext(txs: seq<Tx>, i: nat, receipts: seq<Receipt>, receipt: Receipt)
    requires |receipts| == i < |txs|
    ensures OfPrivate(txs[..i + 1], receipts + [receipt]) == OfPrivate(txs[..i], receipts) + (if txs[i].isPrivate then [receipt] else [])
  {
    var ts, rs := txs[..i + 1], receipts + [receipt];
    assert ts[..i] == txs[..i] && rs[..i] == receipts && ts[i] == txs[i] && rs[i] == receipt;
    assert ts != [];
  }

  // ---- receipts from other nodes ----

  /** Fills in the gas of each transaction from the cumulative gas. */
  method DeriveGasUsed(stored: seq<Receipt>) returns (filled: seq<Receipt>)
    ensures |filled| == |stored|
    ensures forall j {:trigger filled[j]} :: 0 <= j < |filled| ==>
      filled[j] == stored[j].(gasUsed := stored[j].cumulativeGasUsed - CumulativeBefore(stored, j))
  {
    filled := stored;
    for j := 0 to |stored|
      invariant |filled| == |stored|
      invariant forall k :: j <= k < |stored| ==> filled[k] == stored[k]
      invariant forall k {:trigger filled[k]} :: 0 <= k < j ==>
        filled[k] == stored[k].(gasUsed := stored[k].cumulativeGasUsed - CumulativeBefore(stored, k))
    {
      if j == 0 {
        filled := filled[j := filled[j].(gasUsed := filled[j].cumulativeGasUsed)];
      } else {
        filled := filled[j := filled[j].(gasUsed := filled[j].cumulativeGasUsed - filled[j - 1].cumulativeGasUsed)];
      }
    }
  }

  /** Differencing the cumulative gas gives every receipt of a processed block
      back, whatever gas its stored copy claims. */
  lemma ReceiptsRecovered(txs: seq<Tx>, receipts: seq<Receipt>, total: int, stored: seq<Receipt>, filled: seq<Receipt>)
    requires Accounted(txs, receipts, total) && |stored| == |receipts| == |filled|
    requires forall j {:trigger stored[j]} :: 0 <= j < |stored| ==>
      stored[j].txHash == receipts[j].txHash && stored[j].cumulativeGasUsed == receipts[j].cumulativeGasUsed
    requires forall j {:trigger filled[j]} :: 0 <= j < |filled| ==>
      filled[j] == stored[j].(gasUsed := stored[j].cumulativeGasUsed - CumulativeBefore(stored, j))
    ensures filled == receipts
  {
    forall j: nat | j < |filled| ensures filled[j] == receipts[j] {
      assert AccountedAt(txs, receipts, j);
      assert stored[j].cumulativeGasUsed == receipts[j].cumulativeGasUsed;
      assert CumulativeBefore(stored, j) == CumulativeBefore(receipts, j);
    }
  }

  ghost function GasSum(receipts: seq<Receipt>): int {
    if receipts == [] then 0 else GasSum(receipts[..|receipts| - 1]) + receipts[|receipts| - 1].gasUsed
  }

  /** The total is the sum over all transactions. */
  lemma {:induction false} TotalIsSum(txs: seq<Tx>, receipts: seq<Receipt>, total: int)
    requires Accounted(txs, receipts, total)
    ensures total == GasSum(receipts)
  {
    if receipts != [] {
      var n := |receipts| - 1;
      var front := receipts[..n];
      assert AccountedAt(txs, receipts, n);
      forall k: nat | k < n ensures AccountedAt(txs[..n], front, k) {
        assert AccountedAt(txs, receipts, k);
      }
      TotalIsSum(txs[..n], front, CumulativeBefore(receipts, n));
    }
  }
}
