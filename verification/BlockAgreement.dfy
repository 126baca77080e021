/** When two nodes agree on a block (core/state_processor.go:59-140): they share
    the public state, each holds the payloads of its own private messages. */
module BlockAgreement {
  import opened TxTypes
  import opened ChainTypes
  import opened Gas
  import opened WorldState
  import opened TransitionSpec
  import opened StateProcessor
  import opened Uncles

  // ---- states and runs that look the same ----

  ghost predicate Alike(w: World, w': World) {
    SameView(w, w') && w.refund == w'.refund
  }

  ghost predicate SameRun(r: Run, r': Run) {
    r.err == r'.err && r.size == r'.size && r.gas == r'.gas && Alike(r.public, r'.public)
  }

  /** The nodes run public contracts alike. Payloads and private runs may differ. */
  ghost predicate SamePublicly(e: Env, e': Env) {
    && EnvOk(e) && EnvOk(e') && e.homestead == e'.homestead
    && (forall a, n :: e.createAddress(a, n) == e'.createAddress(a, n))
    && (forall f: Frame, w, w' {:trigger SameRun(e.evm(f, w, w), e'.evm(f, w', w'))} ::
          !f.isPrivate && Alike(w, w') ==> SameRun(e.evm(f, w, w), e'.evm(f, w', w')))
  }

  lemma PutAlike(w: World, w': World, a: Address, acc: Account)
    requires Alike(w, w')
    ensures Alike(Put(w, a, acc), Put(w', a, acc))
  {
    forall b ensures SameAt(Put(w, a, acc), Put(w', a, acc), b) {
      assert SameAt(w, w', b);
    }
  }

  lemma AddAlike(w: World, w': World, a: Address, x: int)
    requires Alike(w, w')
    ensures Alike(AddBalance(w, a, x), AddBalance(w', a, x))
  {
    assert SameAt(w, w', a);
    PutAlike(w, w', a, Account(BalanceOf(w, a) + x, NonceOf(w, a)));
  }

  lemma BumpAlike(w: World, w': World, a: Address)
    requires Alike(w, w')
    ensures Alike(Bump(w, a), Bump(w', a))
  {
    assert SameAt(w, w', a);
    PutAlike(w, w', a, Account(BalanceOf(w, a), NonceOf(w, a) + 1));
  }

  lemma EnsureAlike(w: World, w': World, a: Address)
    requires Alike(w, w')
    ensures Alike(EnsureAccount(w, a), EnsureAccount(w', a))
  {
    forall b ensures SameAt(EnsureAccount(w, a), EnsureAccount(w', a), b) {
      assert SameAt(w, w', b);
    }
  }

  lemma PreparedAlike(w: World, w': World, s: Address, c: Address, create: bool, x: int)
    requires Alike(w, w')
    ensures Alike(Prepared(w, s, c, create, x), Prepared(w', s, c, create, x))
  {
    assert SameAt(w, w', c);
    PutAlike(w, w', c, Account(BalanceOf(w, c), 0));
    EnsureAlike(w, w', c);
    var v := if create then CreateAccount(w, c) else EnsureAccount(w, c);
    var v' := if create then CreateAccount(w', c) else EnsureAccount(w', c);
    AddAlike(v, v', s, -x);
    AddAlike(AddBalance(v, s, -x), AddBalance(v', s, -x), c, x);
  }

  // ---- public messages ----

  ghost predicate SameFinish(f: Finished, f': Finished) {
    f.gas == f'.gas && f.err == f'.err && Alike(f.public, f'.public)
  }

  lemma RunAlike(e: Env, e': Env, msg: Tx, s: Address, c: Address, p: World, p': World, gas: int)
    requires SamePublicly(e, e') && Alike(p, p') && !msg.isPrivate
    ensures SameRun(RunOn(e, msg, s, c, msg.data, p, p, gas), RunOn(e', msg, s, c, msg.data, p', p', gas))
  {
    var create := msg.to.None?;
    var w, w' := Prepared(p, s, c, create, msg.value), Prepared(p', s, c, create, msg.value);
    PreparedAlike(p, p', s, c, create, msg.value);
    var f := Frame(s, c, create, msg.data, gas, msg.value, false);
    assert SameRun(e.evm(f, w, w), e'.evm(f, w', w'));
  }

  lemma FinishAlike(e: Env, e': Env, msg: Tx, p: World, p': World, r: Run, r': Run)
    requires e.homestead == e'.homestead && Alike(p, p') && SameRun(r, r') && !msg.isPrivate
    ensures SameFinish(Finish(e, msg, p, p, r), Finish(e', msg, p', p', r'))
  {
  }

  lemma ExecutedAlike(e: Env, e': Env, msg: Tx, s: Address, p: World, p': World, gas: int)
    requires SamePublicly(e, e') && Alike(p, p') && !msg.isPrivate
    ensures SameFinish(Executed(e, msg, s, msg.data, p, p, gas), Executed(e', msg, s, msg.data, p', p', gas))
  {
    assert SameAt(p, p', s);
    if BalanceOf(p, s) >= msg.value {
      var c := if msg.to.Some? then msg.to.value else e.createAddress(s, NonceOf(p, s));
      BumpAlike(p, p', s);
      var v, v' := if msg.to.Some? then p else Bump(p, s), if msg.to.Some? then p' else Bump(p', s);
      RunAlike(e, e', msg, s, c, v, v', gas);
      FinishAlike(e, e', msg, v, v', RunOn(e, msg, s, c, msg.data, v, v, gas), RunOn(e', msg, s, c, msg.data, v', v', gas));
    }
  }

  lemma RanAlike(e: Env, e': Env, msg: Tx, s: Address, p: World, p': World, q: World, q': World, gas: int)
    requires SamePublicly(e, e') && Alike(p, p') && !msg.isPrivate
    ensures SameFinish(Ran(e, msg, s, msg.data, p, q, gas), Ran(e', msg, s, msg.data, p', q', gas))
  {
    BumpAlike(p, p', s);
    ExecutedAlike(e, e', msg, s, if msg.to.Some? then Bump(p, s) else p, if msg.to.Some? then Bump(p', s) else p', gas);
  }

  lemma SettledFree(w: World, w': World, s: Address, c: Address, c': Address)
    requires SameView(w, w')
    ensures SameView(Settled(w, s, 0, 0, c, 0), Settled(w', s, 0, 0, c', 0))
  {
    SettledNothing(w, s, c);
    SettledNothing(w', s, c');
    SameBoth(w, Settled(w, s, 0, 0, c, 0), w', Settled(w', s, 0, 0, c', 0));
  }

  lemma SameBoth(w: World, v: World, w': World, v': World)
    requires SameView(w, v) && SameView(w', v') && SameView(w, w')
    ensures SameView(v, v')
  {
    forall a ensures SameAt(v, v', a) {
      assert SameAt(w, v, a) && SameAt(w', v', a) && SameAt(w, w', a);
    }
  }

  /** Same report, same public balances and nonces, and the same gas taken from the pool. */
  ghost predicate SameResult(r: TransitionSpec.Result, pool: int, r': TransitionSpec.Result, pool': int) {
    r.outcome == r'.outcome && SameView(r.public, r'.public) && pool - r.pool == pool' - r'.pool
  }

  ghost predicate SameEnd(r: TransitionSpec.Result, pool: int, r': TransitionSpec.Result, pool': int) {
    (r.outcome.Done? <==> r'.outcome.Done?) && (r.outcome.Done? ==> SameResult(r, pool, r', pool'))
  }

  lemma SettlementAlike(e: Env, e': Env, msg: Tx, s: Address, f: Finished, f': Finished, pool: int, pool': int)
    requires SameFinish(f, f') && msg.gasPrice == 0
    ensures SameResult(Settlement(e, msg, s, f, pool), pool, Settlement(e', msg, s, f', pool'), pool')
  {
    SettledFree(f.public, f'.public, s, e.coinbase, e'.coinbase);
  }

  lemma ConcludedAlike(e: Env, e': Env, msg: Tx, s: Address, f: Finished, f': Finished,
                       p: World, p': World, q: World, q': World, pool: int, pool': int)
    requires SameFinish(f, f') && msg.gasPrice == 0
    ensures SameEnd(Concluded(e, msg, s, f, p, q, pool), pool, Concluded(e', msg, s, f', p', q', pool'), pool')
  {
    SettlementAlike(e, e', msg, s, f, f', pool, pool');
  }

  lemma PerformedAlike(e: Env, e': Env, msg: Tx, s: Address, igas: nat,
                       p: World, p': World, q: World, q': World, pool: int, pool': int)
    requires SamePublicly(e, e') && Alike(p, p') && !msg.isPrivate && msg.gasPrice == 0
    ensures SameEnd(Performed(e, msg, s, msg.data, igas, p, q, pool), pool, Performed(e', msg, s, msg.data, igas, p', q', pool'), pool')
  {
    if msg.gas >= igas {
      var f, f' := Ran(e, msg, s, msg.data, p, q, msg.gas - igas), Ran(e', msg, s, msg.data, p', q', msg.gas - igas);
      RanAlike(e, e', msg, s, p, p', q, q', msg.gas - igas);
      ConcludedAlike(e, e', msg, s, f, f', p, p', q, q', pool, pool');
      assert Performed(e, msg, s, msg.data, igas, p, q, pool) == Concluded(e, msg, s, f, p, q, pool);
      assert Performed(e', msg, s, msg.data, igas, p', q', pool') == Concluded(e', msg, s, f', p', q', pool');
    }
  }

  lemma ProceededAlike(e: Env, e': Env, msg: Tx, s: Address, p: World, p': World, q: World, q': World, pool: int, pool': int)
    requires SamePublicly(e, e') && Alike(p, p') && !msg.isPrivate && msg.gasPrice == 0
    ensures SameEnd(Proceeded(e, msg, s, p, q, pool), pool, Proceeded(e', msg, s, p', q', pool'), pool')
  {
    PerformedAlike(e, e', msg, s, IntrinsicGas(msg.data, msg.to.None?, e.homestead), p, p', q, q', pool, pool');
  }

  lemma BoughtFree(w: World, w': World, s: Address)
    requires Alike(w, w')
    ensures Alike(Bought(w, s, 0), Bought(w', s, 0))
  {
    EnsureAlike(w, w', s);
    AddAlike(EnsureAccount(w, s), EnsureAccount(w', s), s, 0);
  }

  /** Nodes that see the same public state take a public message alike, unless
      the gas pool of one of them has run out. */
  lemma PublicAlike(e: Env, e': Env, msg: Tx, p: World, p': World, q: World, q': World, pool: int, pool': int)
    requires SamePublicly(e, e') && Alike(p, p') && !msg.isPrivate && msg.gasPrice == 0 && Unsigned(msg)
    ensures var r, r' := Transition(e, msg, true, p, q, pool), Transition(e', msg, true, p', q', pool');
      r.outcome.Done? ==>
        && (r'.outcome.Done? <==> pool' >= msg.gas)
        && (r'.outcome.Done? ==> SameResult(r, pool, r', pool'))
        && (r'.outcome.Failed? ==> r'.outcome.error == GasLimitErr)
  {
    if msg.from.Some? {
      var s := msg.from.value;
      assert SameAt(p, p', s);
      BoughtFree(p, p', s);
      ProceededAlike(e, e', msg, s, Bought(p, s, 0), Bought(p', s, 0), q, q', pool - msg.gas, pool' - msg.gas);
    }
  }

  // ---- any transaction ----

  /** The node can pay for the payload, if it holds one. */
  predicate PayloadCovered(e: Env, tx: Tx) {
    tx.isPrivate && !Outsider(e, tx) ==> tx.gas >= IntrinsicGas(InputOf(e, tx), tx.to.None?, e.homestead)
  }

  predicate Free(tx: Tx) {
    Unsigned(tx) && (tx.isPrivate ==> tx.value == 0)
  }

  lemma PrivateAlike(e: Env, e': Env, tx: Tx, p: World, p': World, q: World, q': World, pool: int, pool': int)
    requires EnvOk(e) && EnvOk(e') && SameView(p, p') && Solvent(p) && Solvent(p') && Solvent(q) && Solvent(q')
    requires tx.isPrivate && tx.gasPrice == 0 && Free(tx)
    ensures var r, r' := Transition(e, tx, true, p, q, pool), Transition(e', tx, true, p', q', pool');
      r.outcome.Done? ==>
        && (r'.outcome.Done? <==> pool' >= tx.gas && PayloadCovered(e', tx))
        && (r'.outcome.Done? ==> r.outcome == r'.outcome && SameView(r.public, r'.public))
        && (r'.outcome.Failed? ==> r'.outcome.error == if pool' < tx.gas then GasLimitErr else InvalidTxError)
  {
    PrivateMessage(e, tx, true, p, q, pool);
    PrivateMessage(e', tx, true, p', q', pool');
    var r, r' := Transition(e, tx, true, p, q, pool), Transition(e', tx, true, p', q', pool');
    if r.outcome.Done? {
      assert SameAt(p, p', tx.from.value);
      if r'.outcome.Done? {
        BothBumped(p, r.public, p', r'.public, tx.from.value);
      }
    }
  }

  /** What a node's own gas pool and payloads have to allow. */
  predicate Covered(e: Env, tx: Tx, pool: int) {
    pool >= tx.gas && PayloadCovered(e, tx)
  }

  ghost predicate Sane(g: Progress) {
    Solvent(g.public) && Solvent(g.private) && g.pool >= 0
  }

  /** Two nodes have got equally far in a block. Their pools may differ. */
  ghost predicate InStep(g: Progress, g': Progress) {
    Sane(g) && Sane(g') && Alike(g.public, g'.public) && g.used == g'.used && g.receipts == g'.receipts
  }

  lemma StaysSane(e: Env, tx: Tx, g: Progress)
    requires EnvOk(e) && Unsigned(tx) && Sane(g) && TxError(e, tx, g).None?
    ensures Sane(AfterTx(e, tx, g))
  {
    AppliedFacts(e, tx, g.public, g.private, g.pool);
    var t := Transition(e, tx, true, g.public, g.private, g.pool);
    RefundClosed(t.public);
    RefundClosed(t.private);
  }

  lemma AdvancedAlike(tx: Tx, t: TransitionSpec.Result, t': TransitionSpec.Result, g: Progress, g': Progress)
    requires t.outcome.Done? && t.outcome == t'.outcome && SameView(t.public, t'.public)
    requires g.used == g'.used && g.receipts == g'.receipts
    ensures var h, h' := Advanced(tx, t, g), Advanced(tx, t', g');
      Alike(h.public, h'.public) && h.used == h'.used && h.receipts == h'.receipts
  {
    var w, w' := t.public.(refund := 0), t'.public.(refund := 0);
    forall a ensures SameAt(w, w', a) {
      assert SameAt(t.public, t'.public, a);
    }
  }

  /** After one node took a transaction, the other takes it exactly if its own
      pool and payload allow; then they are in step again. */
  lemma StepAlike(e: Env, e': Env, tx: Tx, g: Progress, g': Progress)
    requires SamePublicly(e, e') && Free(tx) && InStep(g, g') && TxError(e, tx, g).None?
    ensures TxError(e', tx, g').None? <==> Covered(e', tx, g'.pool)
    ensures TxError(e', tx, g').None? ==> InStep(AfterTx(e, tx, g), AfterTx(e', tx, g'))
    ensures TxError(e', tx, g').Some? ==>
      TxError(e', tx, g') == Some(NotApplied(if g'.pool < tx.gas then GasLimitErr else InvalidTxError))
  {
    if tx.isPrivate {
      PrivateAlike(e, e', tx, g.public, g'.public, g.private, g'.private, g.pool, g'.pool);
    } else {
      PublicAlike(e, e', tx, g.public, g'.public, g.private, g'.private, g.pool, g'.pool);
    }
    if TxError(e', tx, g').None? {
      StaysSane(e, tx, g);
      StaysSane(e', tx, g');
      AdvancedAlike(tx, Transition(e, tx, true, g.public, g.private, g.pool),
                    Transition(e', tx, true, g'.public, g'.private, g'.pool), g, g');
    }
  }

  // ---- whole blocks ----

  ghost predicate AllFree(txs: seq<Tx>) {
    forall i :: 0 <= i < |txs| ==> Free(txs[i])
  }

  /** The node's gas pool when transaction `i` comes, and its payload, allow it. */
  ghost predicate CoveredAt(e: Env, txs: seq<Tx>, g: Progress, i: nat)
    requires i < |txs|
  {
    Covered(e, txs[i], Play(e, txs[..i], g).at.pool)
  }

  ghost predicate AllCovered(e: Env, txs: seq<Tx>, g: Progress) {
    forall i: nat {:trigger CoveredAt(e, txs, g, i)} :: i < |txs| ==> CoveredAt(e, txs, g, i)
  }

  lemma AllCoveredNext(e: Env, txs: seq<Tx>, n: nat, g: Progress)
    requires |txs| == n + 1
    ensures AllCovered(e, txs, g) <==> AllCovered(e, txs[..n], g) && Covered(e, txs[n], Play(e, txs[..n], g).at.pool)
  {
    var front := txs[..n];
    forall i: nat | i < n ensures CoveredAt(e, front, g, i) <==> CoveredAt(e, txs, g, i) {
      assert front[..i] == txs[..i];
    }
    assert CoveredAt(e, txs, g, n) <==> Covered(e, txs[n], Play(e, front, g).at.pool);
  }

  lemma PlayTxAlike(e: Env, e': Env, tx: Tx, b: Played, b': Played)
    requires SamePublicly(e, e') && Free(tx) && PlayTx(e, tx, b).error.None? && (b'.error.None? ==> InStep(b.at, b'.at))
    ensures PlayTx(e', tx, b').error.None? <==> b'.error.None? && Covered(e', tx, b'.at.pool)
    ensures PlayTx(e', tx, b').error.None? ==> InStep(PlayTx(e, tx, b).at, PlayTx(e', tx, b').at)
  {
    if b'.error.None? {
      StepAlike(e, e', tx, b.at, b'.at);
    }
  }

  /** One node accepts a block. The other does exactly if its gas pool and its
      payloads allow each transaction; then both have the same receipts, the same
      gas used and the same public balances and nonces. */
  lemma {:induction false} BlockAgreed(e: Env, e': Env, txs: seq<Tx>, g: Progress, g': Progress)
    requires SamePublicly(e, e') && AllFree(txs) && InStep(g, g') && Play(e, txs, g).error.None?
    ensures Play(e', txs, g').error.None? <==> AllCovered(e', txs, g')
    ensures Play(e', txs, g').error.None? ==> InStep(Play(e, txs, g).at, Play(e', txs, g').at)
  {
    if txs != [] {
      var n := |txs| - 1;
      BlockAgreed(e, e', txs[..n], g, g');
      AllCoveredNext(e', txs, n, g');
      PlayTxAlike(e, e', txs[n], Play(e, txs[..n], g), Play(e', txs[..n], g'));
    }
  }

  lemma {:induction false} UnclesRewardedAlike(w: World, w': World, header: Header, uncles: seq<Header>)
    requires Alike(w, w')
    ensures Alike(UnclesRewarded(w, header, uncles), UnclesRewarded(w', header, uncles))
  {
    if uncles != [] {
      var front, last := uncles[..|uncles| - 1], uncles[|uncles| - 1];
      UnclesRewardedAlike(w, w', header, front);
      AddAlike(UnclesRewarded(w, header, front), UnclesRewarded(w', header, front), last.coinbase, UncleReward(header, last));
    }
  }

  /** Two nodes that both accept a block have the same receipts, the same gas
      used and, rewards included, the same public balances and nonces. */
  lemma SameBlock(e: Env, e': Env, block: Header, p: World, q: World, p': World, q': World)
    requires SamePublicly(e, e') && AllFree(Transactions(block)) && block.gasLimit >= 0
    requires Alike(p, p') && Solvent(p) && Solvent(q) && Solvent(p') && Solvent(q')
    ensures var txs := Transactions(block);
      var r, r' := Play(e, txs, BlockStart(p, q, block.gasLimit)), Play(e', txs, BlockStart(p', q', block.gasLimit));
      r.error.None? && r'.error.None? ==>
        && r.at.receipts == r'.at.receipts && r.at.used == r'.at.used
        && SameView(Rewarded(r.at.public, block), Rewarded(r'.at.public, block))
  {
    var txs, g, g' := Transactions(block), BlockStart(p, q, block.gasLimit), BlockStart(p', q', block.gasLimit);
    var r, r' := Play(e, txs, g), Play(e', txs, g');
    if r.error.None? && r'.error.None? {
      BlockAgreed(e, e', txs, g, g');
      RewardedAlike(r.at.public, r'.at.public, block);
    }
  }

  lemma RewardedAlike(w: World, w': World, block: Header)
    requires Alike(w, w')
    ensures Alike(Rewarded(w, block), Rewarded(w', block))
  {
    UnclesRewardedAlike(w, w', block, block.uncles);
    AddAlike(UnclesRewarded(w, block, block.uncles), UnclesRewarded(w', block, block.uncles), block.coinbase,
             BLOCK_REWARD + |block.uncles| * (BLOCK_REWARD / 32));
  }

  // ---- a node that is outside of all private messages ----

  ghost predicate OutsideAll(e: Env, txs: seq<Tx>) {
    forall i :: 0 <= i < |txs| && txs[i].isPrivate ==> Outsider(e, txs[i])
  }

  /** What a transaction takes from the pool of a node outside of it. */
  function Charge(tx: Tx, receipt: Receipt): int {
    if tx.isPrivate then tx.gas else receipt.gasUsed
  }

  function Charges(txs: seq<Tx>, receipts: seq<Receipt>): int
    requires |txs| == |receipts|
  {
    if txs == [] then 0 else
      Charges(txs[..|txs| - 1], receipts[..|txs| - 1]) + Charge(txs[|txs| - 1], receipts[|txs| - 1])
  }

  ghost predicate FitsAt(txs: seq<Tx>, receipts: seq<Receipt>, limit: int, i: nat)
    requires i < |txs| == |receipts|
  {
    Charges(txs[..i], receipts[..i]) + txs[i].gas <= limit
  }

  /** All private gas counts as used, up to each transaction. */
  ghost predicate Fits(txs: seq<Tx>, receipts: seq<Receipt>, limit: int)
    requires |txs| == |receipts|
  {
    forall i: nat {:trigger FitsAt(txs, receipts, limit, i)} :: i < |txs| ==> FitsAt(txs, receipts, limit, i)
  }

  lemma FitsNext(txs: seq<Tx>, receipts: seq<Receipt>, limit: int, n: nat)
    requires |txs| == |receipts| == n + 1
    ensures Fits(txs, receipts, limit) <==>
      Fits(txs[..n], receipts[..n], limit) && Charges(txs[..n], receipts[..n]) + txs[n].gas <= limit
  {
    forall i: nat | i < n ensures FitsAt(txs[..n], receipts[..n], limit, i) <==> FitsAt(txs, receipts, limit, i) {
      assert txs[..n][..i] == txs[..i] && receipts[..n][..i] == receipts[..i];
    }
    assert FitsAt(txs, receipts, limit, n) <==> Charges(txs[..n], receipts[..n]) + txs[n].gas <= limit;
  }

  lemma OutsiderCharged(e: Env, tx: Tx, g: Progress)
    requires EnvOk(e) && Unsigned(tx) && Sane(g) && TxError(e, tx, g).None? && (tx.isPrivate ==> Outsider(e, tx))
    ensures var h, n := AfterTx(e, tx, g), |g.receipts|;
      |h.receipts| == n + 1 && h.receipts[..n] == g.receipts && h.pool == g.pool - Charge(tx, h.receipts[n])
  {
    if !tx.isPrivate {
      PublicMessage(e, tx, true, g.public, g.private, g.pool);
    }
  }

  /** A node outside of all private messages accepts a block that another node
      accepted exactly if everything fits when the whole gas of each private
      message counts: a test on the block and the receipts alone. */
  lemma {:induction false} OutsiderAccepts(e: Env, e': Env, txs: seq<Tx>, g: Progress, g': Progress)
    requires SamePublicly(e, e') && AllFree(txs) && OutsideAll(e', txs)
    requires InStep(g, g') && g.receipts == [] && Play(e, txs, g).error.None?
    ensures |Play(e, txs, g).at.receipts| == |txs|
    ensures Play(e', txs, g').error.None? <==> Fits(txs, Play(e, txs, g).at.receipts, g'.pool)
    ensures Play(e', txs, g').error.None? ==> Play(e', txs, g').at.pool == g'.pool - Charges(txs, Play(e, txs, g).at.receipts)
  {
    if txs != [] {
      var n := |txs| - 1;
      OutsiderAccepts(e, e', txs[..n], g, g');
      BlockAgreed(e, e', txs[..n], g, g');
      OutsiderStep(e, e', txs, n, Play(e, txs[..n], g), Play(e', txs[..n], g'), g'.pool);
    }
  }

  lemma OutsiderStep(e: Env, e': Env, txs: seq<Tx>, n: nat, b: Played, b': Played, limit: int)
    requires |txs| == n + 1 && SamePublicly(e, e') && Free(txs[n]) && (txs[n].isPrivate ==> Outsider(e', txs[n]))
    requires PlayTx(e, txs[n], b).error.None? && |b.at.receipts| == n && (b'.error.None? ==> InStep(b.at, b'.at))
    requires b'.error.None? <==> Fits(txs[..n], b.at.receipts, limit)
    requires b'.error.None? ==> b'.at.pool == limit - Charges(txs[..n], b.at.receipts)
    ensures var r, r' := PlayTx(e, txs[n], b), PlayTx(e', txs[n], b');
      && |r.at.receipts| == n + 1 && (r'.error.None? <==> Fits(txs, r.at.receipts, limit))
      && (r'.error.None? ==> r'.at.pool == limit - Charges(txs, r.at.receipts))
  {
    var receipts := PlayTx(e, txs[n], b).at.receipts;
    assert receipts[..n] == b.at.receipts;
    FitsNext(txs, receipts, limit, n);
    PlayTxAlike(e, e', txs[n], b, b');
    if PlayTx(e', txs[n], b').error.None? {
      OutsiderCharged(e', txs[n], b'.at);
    }
  }

  // ---- a node that is a party ----

  /** A party gets back what a private run leaves, an outsider does not. */
  lemma PartyCharged(e: Env, e': Env, tx: Tx, g: Progress, g': Progress)
    requires SamePublicly(e, e') && Free(tx) && InStep(g, g') && g.pool >= g'.pool && (tx.isPrivate ==> Outsider(e', tx))
    requires TxError(e, tx, g).None? && TxError(e', tx, g').None?
    ensures AfterTx(e, tx, g).pool >= AfterTx(e', tx, g').pool
  {
    if tx.isPrivate {
      Conservation(e, tx, true, g.public, g.private, g.pool);
    } else {
      PublicAlike(e, e', tx, g.public, g'.public, g.private, g'.private, g.pool, g'.pool);
    }
  }

  ghost predicate PayloadsCovered(e: Env, txs: seq<Tx>) {
    forall i :: 0 <= i < |txs| ==> PayloadCovered(e, txs[i])
  }

  lemma PayloadsCoveredNext(e: Env, txs: seq<Tx>, n: nat)
    requires |txs| == n + 1
    ensures PayloadsCovered(e, txs) <==> PayloadsCovered(e, txs[..n]) && PayloadCovered(e, txs[n])
  {
    assert forall i :: 0 <= i < n ==> txs[i] == txs[..n][i];
  }

  /** A block that such an outsider accepted is accepted by a party exactly if
      the gas of each private message pays for its payload: the pool suffices. */
  lemma {:induction false} PartyAccepts(e: Env, e': Env, txs: seq<Tx>, g: Progress, g': Progress)
    requires SamePublicly(e, e') && AllFree(txs) && OutsideAll(e', txs)
    requires InStep(g, g') && g.pool >= g'.pool && Play(e', txs, g').error.None?
    ensures Play(e, txs, g).error.None? <==> PayloadsCovered(e, txs)
    ensures Play(e, txs, g).error.None? ==>
      InStep(Play(e, txs, g).at, Play(e', txs, g').at) && Play(e, txs, g).at.pool >= Play(e', txs, g').at.pool
  {
    if txs != [] {
      var n := |txs| - 1;
      PartyAccepts(e, e', txs[..n], g, g');
      PayloadsCoveredNext(e, txs, n);
      PartyStep(e, e', txs[n], Play(e, txs[..n], g), Play(e', txs[..n], g'));
    }
  }

  lemma PartyStep(e: Env, e': Env, tx: Tx, b: Played, b': Played)
    requires SamePublicly(e, e') && Free(tx) && (tx.isPrivate ==> Outsider(e', tx)) && PlayTx(e', tx, b').error.None?
    requires b.error.None? ==> InStep(b.at, b'.at) && b.at.pool >= b'.at.pool
    ensures PlayTx(e, tx, b).error.None? <==> b.error.None? && PayloadCovered(e, tx)
    ensures PlayTx(e, tx, b).error.None? ==>
      InStep(PlayTx(e, tx, b).at, PlayTx(e', tx, b').at) && PlayTx(e, tx, b).at.pool >= PlayTx(e', tx, b').at.pool
  {
    if b.error.None? {
      var g, g' := b.at, b'.at;
      SamePubliclyBack(e, e');
      InStepBack(g, g');
      StepAlike(e', e, tx, g', g);
      PoolSuffices(e', tx, g');
      if TxError(e, tx, g).None? {
        InStepBack(AfterTx(e', tx, g'), AfterTx(e, tx, g));
        PartyCharged(e, e', tx, g, g');
      }
    }
  }

  lemma PoolSuffices(e: Env, tx: Tx, g: Progress)
    requires TxError(e, tx, g).None?
    ensures g.pool >= tx.gas
  {
  }

  lemma AlikeBack(w: World, w': World)
    requires Alike(w, w')
    ensures Alike(w', w)
  {
    forall a ensures SameAt(w', w, a) {
      assert SameAt(w, w', a);
    }
  }

  lemma InStepBack(g: Progress, g': Progress)
    requires InStep(g, g')
    ensures InStep(g', g)
  {
    AlikeBack(g.public, g'.public);
  }

  lemma SamePubliclyBack(e: Env, e': Env)
    requires SamePublicly(e, e')
    ensures SamePublicly(e', e)
  {
    forall f: Frame, w, w' | !f.isPrivate && Alike(w, w') ensures SameRun(e'.evm(f, w, w), e.evm(f, w', w')) {
      AlikeBack(w, w');
      assert SameRun(e.evm(f, w', w'), e'.evm(f, w, w));
      AlikeBack(e.evm(f, w', w').public, e'.evm(f, w, w).public);
    }
  }
}
