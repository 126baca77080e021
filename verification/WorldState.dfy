/** Account balances and nonces of one state database. */
module WorldState {
  import opened TxTypes
  import opened Sums

  datatype Account = Account(balance: int, nonce: nat)

  type Accounts = map<Address, Account>

  /** Accounts and the refund counter of the running transaction. */
  datatype World = World(accounts: Accounts, refund: nat)

  predicate Exist(w: World, a: Address) {
    a in w.accounts
  }

  function BalanceOf(w: World, a: Address): int {
    if a in w.accounts then w.accounts[a].balance else 0
  }

  function NonceOf(w: World, a: Address): nat {
    if a in w.accounts then w.accounts[a].nonce else 0
  }

  function Put(w: World, a: Address, acc: Account): World {
    w.(accounts := w.accounts[a := acc])
  }

  function AddBalance(w: World, a: Address, x: int): World {
    Put(w, a, Account(BalanceOf(w, a) + x, NonceOf(w, a)))
  }

  function SetNonce(w: World, a: Address, n: nat): World {
    Put(w, a, Account(BalanceOf(w, a), n))
  }

  function Bump(w: World, a: Address): World {
    SetNonce(w, a, NonceOf(w, a) + 1)
  }

  /** A fresh account; a balance that is already there is carried over. */
  function CreateAccount(w: World, a: Address): World {
    Put(w, a, Account(BalanceOf(w, a), 0))
  }

  function EnsureAccount(w: World, a: Address): World {
    if Exist(w, a) then w else CreateAccount(w, a)
  }

  function Transfer(w: World, s: Address, r: Address, x: int): World {
    AddBalance(AddBalance(w, s, -x), r, x)
  }

  // ---- total ----

  ghost function Balances(w: World): map<Address, int> {
    map a | a in w.accounts :: w.accounts[a].balance
  }

  ghost function TotalWei(w: World): int {
    Sum(Balances(w))
  }

  lemma TotalPut(w: World, a: Address, acc: Account)
    ensures TotalWei(Put(w, a, acc)) == TotalWei(w) - BalanceOf(w, a) + acc.balance
  {
    assert Balances(Put(w, a, acc)) == Balances(w)[a := acc.balance];
    SumUpdate(Balances(w), a, acc.balance);
  }

  lemma TotalAdd(w: World, a: Address, x: int)
    ensures TotalWei(AddBalance(w, a, x)) == TotalWei(w) + x
  {
    TotalPut(w, a, Account(BalanceOf(w, a) + x, NonceOf(w, a)));
  }

  lemma TotalTransfer(w: World, s: Address, r: Address, x: int)
    ensures TotalWei(Transfer(w, s, r, x)) == TotalWei(w)
  {
    TotalAdd(w, s, -x);
    TotalAdd(AddBalance(w, s, -x), r, x);
  }

  // ---- what others see ----

  /** No account is in debt. */
  ghost predicate Solvent(w: World) {
    forall a :: a in w.accounts ==> w.accounts[a].balance >= 0
  }

  ghost predicate SameAt(w: World, w': World, a: Address) {
    BalanceOf(w, a) == BalanceOf(w', a) && NonceOf(w, a) == NonceOf(w', a)
  }

  /** The same balances and nonces. */
  ghost predicate SameView(w: World, w': World) {
    forall a {:trigger SameAt(w, w', a)} :: SameAt(w, w', a)
  }

  ghost predicate BumpedAt(w: World, w': World, s: Address, a: Address) {
    BalanceOf(w, a) == BalanceOf(w', a) && NonceOf(w', a) == NonceOf(w, a) + if a == s then 1 else 0
  }

  /** The same, except that the nonce of `s` went up by one. */
  ghost predicate Bumped(w: World, w': World, s: Address) {
    forall a {:trigger BumpedAt(w, w', s, a)} :: BumpedAt(w, w', s, a)
  }

  lemma SameTrans(w: World, v: World, u: World)
    requires SameView(w, v) && SameView(v, u)
    ensures SameView(w, u)
  {
    forall a ensures SameAt(w, u, a) {
      assert SameAt(w, v, a) && SameAt(v, u, a);
    }
  }

  lemma SameThenBumped(w: World, v: World, u: World, s: Address)
    requires SameView(w, v) && Bumped(v, u, s)
    ensures Bumped(w, u, s)
  {
    forall a ensures BumpedAt(w, u, s, a) {
      assert SameAt(w, v, a) && BumpedAt(v, u, s, a);
    }
  }

  lemma BumpedThenSame(w: World, v: World, u: World, s: Address)
    requires Bumped(w, v, s) && SameView(v, u)
    ensures Bumped(w, u, s)
  {
    forall a ensures BumpedAt(w, u, s, a) {
      assert BumpedAt(w, v, s, a) && SameAt(v, u, a);
    }
  }

  lemma BothBumped(w: World, w': World, v: World, v': World, s: Address)
    requires SameView(w, v) && Bumped(w, w', s) && Bumped(v, v', s)
    ensures SameView(w', v')
  {
    forall a ensures SameAt(w', v', a) {
      assert SameAt(w, v, a) && BumpedAt(w, w', s, a) && BumpedAt(v, v', s, a);
    }
  }

  lemma SameIsSolvent(w: World, w': World)
    requires SameView(w, w') && Solvent(w)
    ensures Solvent(w')
  {
    forall a | a in w'.accounts ensures w'.accounts[a].balance >= 0 {
      assert SameAt(w, w', a);
    }
  }

  lemma EnsureIsSame(w: World, a: Address)
    ensures SameView(w, EnsureAccount(w, a)) && TotalWei(EnsureAccount(w, a)) == TotalWei(w)
  {
    if !Exist(w, a) {
      TotalPut(w, a, Account(0, 0));
    }
  }

  lemma EnsureThenAdd(w: World, a: Address, x: int)
    ensures AddBalance(EnsureAccount(w, a), a, x) == AddBalance(w, a, x)
  {
    var w' := EnsureAccount(w, a);
    var acc := Account(BalanceOf(w, a) + x, NonceOf(w, a));
    assert w'.accounts[a := acc] == w.accounts[a := acc];
  }

  lemma AddNothing(w: World, a: Address)
    ensures SameView(w, AddBalance(w, a, 0))
  {
  }

  lemma TransferNothing(w: World, s: Address, r: Address)
    ensures SameView(w, Transfer(w, s, r, 0))
  {
  }

  lemma BumpFacts(w: World, s: Address)
    ensures Bumped(w, Bump(w, s), s) && TotalWei(Bump(w, s)) == TotalWei(w) && (Solvent(w) ==> Solvent(Bump(w, s)))
  {
    TotalPut(w, s, Account(BalanceOf(w, s), NonceOf(w, s) + 1));
  }

  /** The world in which a contract starts to run: its account is there and
      the value was moved to it. */
  function Prepared(w: World, s: Address, c: Address, create: bool, x: int): World {
    Transfer(if create then CreateAccount(w, c) else EnsureAccount(w, c), s, c, x)
  }

  lemma PreparedTotal(w: World, s: Address, c: Address, create: bool, x: int)
    ensures TotalWei(Prepared(w, s, c, create, x)) == TotalWei(w)
  {
    var w' := if create then CreateAccount(w, c) else EnsureAccount(w, c);
    EnsureIsSame(w, c);
    TotalPut(w, c, Account(BalanceOf(w, c), 0));
    TotalTransfer(w', s, c, x);
  }

  lemma PreparedSender(w: World, s: Address, c: Address, create: bool, x: int)
    requires Solvent(w) && 0 <= x <= BalanceOf(w, s) && (create ==> c != s)
    ensures Solvent(Prepared(w, s, c, create, x)) && NonceOf(Prepared(w, s, c, create, x), s) == NonceOf(w, s)
  {
  }

  lemma PreparedSame(w: World, s: Address, c: Address)
    ensures SameView(w, Prepared(w, s, c, false, 0))
  {
    EnsureIsSame(w, c);
    TransferNothing(EnsureAccount(w, c), s, c);
    SameTrans(w, EnsureAccount(w, c), Prepared(w, s, c, false, 0));
  }
}
