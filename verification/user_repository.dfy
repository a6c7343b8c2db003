/**
  The user repositories: src/repository/user.repository.ts (current) over
  the ledger DAO, and src/repository/UserRepository.ts (draft) over the
  draft DAO.
*/
module UserRepository {
  import opened Wrappers
  import opened Fixed
  import opened ApiError
  import opened Store
  import opened Ledger

  /**
    `getById`: inside a transaction the row is read with `findByPk` directly
    and the id guard of the DAO is skipped; outside one it goes through
    `findById`.
  */
  function GetById(db: Db, id: Num, inTransaction: bool): (r: Result<Option<User>, Fault>)
    ensures !inTransaction ==> r == FindById(db, id)
    ensures id.Finite? && (inTransaction || id.value > 0) ==> r == Success(FindUser(db, id.value))
  {
    if !inTransaction then FindById(db, id)
    else match id
      case Finite(n) => Success(FindUser(db, n))
      case NonFinite => Failure(Other("invalid input syntax for type integer"))
  }

  /** `initialTokens.toFixed(2)` read back by the DAO's `Number(...)`. */
  function ToFixedNum(x: Num): (y: Num)
    ensures y.Finite? <==> x.Finite?
    ensures x.Finite? ==> y.value == Round2(x.value)
  {
    match x
    case Finite(v) => Finite(Round2(v))
    case NonFinite => NonFinite
  }

  /**
    `create` of user.repository.ts: insert the user with the rounded initial
    balance, then seed the ledger with `setAbsoluteBalance`. The two writes
    run in separate transactions, so the first one stays when the second one
    fails: the result pairs the database left behind with the outcome.
  */
  function Create(db: Db, email: string, passwordHash: string, initialTokens: Num): (r: (Db, Result<nat, Fault>))
    ensures r.1.Failure? && r.0 != db ==>
      && initialTokens.Finite? && initialTokens.value < 0
      && r.0.users == db.users + [User(email, passwordHash, UserRole, Round2(initialTokens.value))]
      && r.0.ledger == db.ledger
      && r.1.error == Plain(400, "newAbsoluteBalance must be a number >= 0")
    ensures r.1.Success? ==> initialTokens.Finite? && initialTokens.value >= 0
    ensures r.1.Success? ==>
      var v := Round2(initialTokens.value);
      && r.1.value == |db.users| + 1
      && r.0.users == db.users + [User(email, passwordHash, UserRole, v)]
      && r.0.ledger == db.ledger + [LedgerRow(|db.users| + 1, Some(|db.users| + 1), v, v, 0, Some(Tag(SeedRecharge)))]
      && r.0.models == db.models && r.0.versions == db.versions
  {
    match CreateUser(db, NewUser(email, passwordHash, None, Some(ToFixedNum(initialTokens))))
    case Failure(e) => (db, Failure(e))
    case Success((db1, id)) =>
      Round2Idempotent(initialTokens.value);
      Round2Fixed(Round2(initialTokens.value));
      match SetAbsoluteBalance(db1, id, initialTokens, Some(id), Some(Tag(SeedRecharge)))
      case Failure(e) => (db1, Failure(e))
      case Success((db2, _)) => (db2, Success(id))
  }

  /**
    The current `create` is not atomic: an initial balance in (-0.005, 0)
    rounds to 0.00 and passes the insert, but is negative for the seeding
    call, which refuses it after the user row exists.
  */
  lemma {:induction false} CreateLeavesUserOnFailure()
    ensures Create(Empty, "a@b.c", "h", Finite(-40)).1 == Failure(Plain(400, "newAbsoluteBalance must be a number >= 0"))
    ensures |Create(Empty, "a@b.c", "h", Finite(-40)).0.users| == 1
  {
    assert Round2(-40) == 0;
  }

  /**
    `create` as evidently intended: both writes in one transaction, so a
    failure of either leaves the database as it was.
  */
  function CreateAtomic(db: Db, email: string, passwordHash: string, initialTokens: Num): (r: Result<(Db, nat), Fault>)
    ensures r.Success? <==> Create(db, email, passwordHash, initialTokens).1.Success?
    ensures r.Success? ==> r.value == (Create(db, email, passwordHash, initialTokens).0, Create(db, email, passwordHash, initialTokens).1.value)
    ensures r.Failure? ==> r.error == Create(db, email, passwordHash, initialTokens).1.error
  {
    var (db', res) := Create(db, email, passwordHash, initialTokens);
    match res
    case Success(id) => Success((db', id))
    case Failure(e) => Failure(e)
  }

  /**
    The atomic `create` keeps the invariant, is explained by the ledger, and
    succeeds exactly for a fresh e-mail and a finite, non-negative balance.
    The seed row records a zero diff: the balance was already written by the
    insert.
  */
  lemma {:induction false} CreateAtomicValid(db: Db, email: string, passwordHash: string, initialTokens: Num)
    requires Valid(db)
    ensures CreateAtomic(db, email, passwordHash, initialTokens).Success? <==>
      (initialTokens.Finite? && initialTokens.value >= 0 && FindUserByEmail(db, email).None?)
    ensures CreateAtomic(db, email, passwordHash, initialTokens).Success? ==>
      Valid(CreateAtomic(db, email, passwordHash, initialTokens).value.0)
      && Accounts(db, CreateAtomic(db, email, passwordHash, initialTokens).value.0)
  {
    var a := NewUser(email, passwordHash, None, Some(ToFixedNum(initialTokens)));
    if initialTokens.Finite? {
      if initialTokens.value >= 0 {
        Round2Monotone(0, initialTokens.value);
      } else if Round2(initialTokens.value) >= 0 {
        assert Create(db, email, passwordHash, initialTokens).1.Failure?;
      }
      assert Round2(0) == 0;
    }
    if CreateAtomic(db, email, passwordHash, initialTokens).Success? {
      var (db1, id) := CreateUser(db, a).value;
      CreateUserValid(db, a);
      var (db2, _) := SetAbsoluteBalance(db1, id, initialTokens, Some(id), Some(Tag(SeedRecharge))).value;
      Round2Idempotent(initialTokens.value);
      ApplyBalanceValid(db1, id, Some(id), Some(Tag(SeedRecharge)), Finite(Round2(initialTokens.value)));
      AccountsTrans(db, db1, db2);
    }
  }

  /** What `updateTokensByEmail` returns: the e-mail next to the DAO's summary. */
  datatype Recharge = Recharge(email: string, summary: Summary)

  /**
    `updateTokensByEmail`: an administrator's recharge of the user with the
    given e-mail, with the admin-recharge reason. The e-mail is resolved
    before the amount is checked.
  */
  function UpdateTokensByEmail(db: Db, email: string, amount: Num, performer: Option<int>): (r: Result<(Db, Recharge), Fault>)
    ensures FindUserByEmail(db, email).None? ==> r == Failure(Plain(404, "Target user not found"))
    ensures FindUserByEmail(db, email).Some? && (amount.NonFinite? || amount.value <= 0) ==>
      r == Failure(Plain(400, "rechargeTokens must be a positive number"))
    ensures r.Success? ==>
      var id := FindUserByEmail(db, email).value;
      && FindUserByEmail(db, email).Some?
      && r.value.1.email == email
      && r.value.0.users == db.users[id - 1 := db.users[id - 1].(tokens := r.value.1.summary.totalRechargeTokens)]
      && r.value.0.ledger == db.ledger + [LedgerRow(id, Performer(performer), Round2(UserAt(db, id).tokens),
            r.value.1.summary.totalRechargeTokens, r.value.1.summary.rechargeTokens, Some(Tag(AdminRecharge)))]
      && r.value.0 == db.(users := r.value.0.users, ledger := r.value.0.ledger)
    ensures r.Success? <==> (FindUserByEmail(db, email).Some? && amount.Finite? && amount.value > 0
      && Round2(UserAt(db, FindUserByEmail(db, email).value).tokens + Round2(amount.value)) >= 0
      && (Performer(performer).Some? ==> IsUser(db, Performer(performer).value)))
  {
    match FindUserByEmail(db, email)
    case None => Failure(Plain(404, "Target user not found"))
    case Some(id) =>
      var (db', s) :- SetNewBalance(db, id, amount, performer, Some(Tag(AdminRecharge)));
      Success((db', Recharge(UserAt(db, id).email, s)))
  }

  /** On a valid database a recharge by e-mail adds the rounded amount to that user and keeps the invariant. */
  lemma {:induction false} UpdateTokensByEmailAdds(db: Db, email: string, amount: Num, performer: Option<int>)
    requires Valid(db) && UpdateTokensByEmail(db, email, amount, performer).Success?
    ensures var id := FindUserByEmail(db, email).value;
      UserAt(UpdateTokensByEmail(db, email, amount, performer).value.0, id).tokens == UserAt(db, id).tokens + Round2(amount.value)
    ensures Valid(UpdateTokensByEmail(db, email, amount, performer).value.0)
    ensures Accounts(db, UpdateTokensByEmail(db, email, amount, performer).value.0)
  {
    var id := FindUserByEmail(db, email).value;
    var inner := SetNewBalance(db, id, amount, performer, Some(Tag(AdminRecharge)));
    assert inner.Success? && UpdateTokensByEmail(db, email, amount, performer).value.0 == inner.value.0;
    SetNewBalanceAdds(db, id, amount, performer, Some(Tag(AdminRecharge)));
    var prev := UserAt(db, id).tokens;
    var next := Round2(prev + Round2(amount.value));
    Round2Idempotent(prev + Round2(amount.value));
    assert inner == ApplyBalanceWithLock(db, id, performer, Some(Tag(AdminRecharge)), Finite(next));
    ApplyBalanceValid(db, id, performer, Some(Tag(AdminRecharge)), Finite(next));
  }

  /**
    `chargeByUserId`: set the balance with `setAbsoluteBalance` and answer the
    requested balance as given, not as stored.
  */
  function ChargeByUserId(db: Db, userId: int, newBalance: Num, performer: int, reason: Reason): (r: Result<(Db, int), Fault>)
    ensures r.Success? <==> SetAbsoluteBalance(db, userId, newBalance, Some(performer), Some(reason)).Success?
    ensures r.Success? ==>
      && newBalance.Finite? && r.value.1 == newBalance.value
      && IsUser(db, userId) && IsUser(r.value.0, userId) && UserAt(r.value.0, userId).tokens == Round2(newBalance.value)
    ensures r.Success? ==> r.value.0 == SetAbsoluteBalance(db, userId, newBalance, Some(performer), Some(reason)).value.0
  {
    var (db', _) :- SetAbsoluteBalance(db, userId, newBalance, Some(performer), Some(reason));
    Success((db', newBalance.value))
  }

  /**
    `create` of UserRepository.ts: one insert with the role "user" and the
    rounded balance; no sign check and no seed row.
  */
  function CreateDraft(db: Db, email: string, passwordHash: string, initialTokens: int): (r: Result<(Db, nat), Fault>)
    ensures r.Success? <==> FindUserByEmail(db, email).None?
    ensures r.Success? ==> r.value.0.users == db.users + [User(email, passwordHash, UserRole, Round2(initialTokens))]
    ensures r.Success? ==> r.value.0.ledger == db.ledger
  {
    CreateUserDraft(db, email, passwordHash, UserRole, Round2(initialTokens))
  }

  /** The draft `create` stores a negative balance for a negative initial amount. */
  lemma {:induction false} CreateDraftStoresNegative()
    ensures CreateDraft(Empty, "a@b.c", "h", -50000).Success?
    ensures !Valid(CreateDraft(Empty, "a@b.c", "h", -50000).value.0)
  {
    Round2Fixed(-50000);
    var db' := CreateDraft(Empty, "a@b.c", "h", -50000).value.0;
    assert db'.users[0].tokens == -50000;
  }

  /**
    The draft `create` as evidently intended: a negative balance is refused
    with 400, as the current DAO refuses it.
  */
  function CreateDraftChecked(db: Db, email: string, passwordHash: string, initialTokens: int): (r: Result<(Db, nat), Fault>)
    ensures initialTokens < 0 ==> r == Failure(Plain(400, "tokens_user must be a finite number >= 0"))
    ensures initialTokens >= 0 ==> r == CreateDraft(db, email, passwordHash, initialTokens)
  {
    if initialTokens < 0 then Failure(Plain(400, "tokens_user must be a finite number >= 0"))
    else CreateDraft(db, email, passwordHash, initialTokens)
  }

  /** The checked draft `create` keeps the invariant. */
  lemma {:induction false} CreateDraftCheckedValid(db: Db, email: string, passwordHash: string, initialTokens: int)
    requires Valid(db) && CreateDraftChecked(db, email, passwordHash, initialTokens).Success?
    ensures Valid(CreateDraftChecked(db, email, passwordHash, initialTokens).value.0)
    ensures Accounts(db, CreateDraftChecked(db, email, passwordHash, initialTokens).value.0)
  {
    Round2Monotone(0, initialTokens);
    assert Round2(0) == 0;
    AccountsRefl(db);
  }

  /**
    `updateBalanceByEmail` of UserRepository.ts: the draft recharge by e-mail;
    a missing reason becomes the text "admin recharge".
  */
  function UpdateBalanceByEmailDraft(db: Db, email: string, amount: Num, performer: Option<int>, reason: Option<Reason>)
    : (r: Result<(Db, Recharge), Fault>)
    ensures FindUserByEmail(db, email).None? ==> r == Failure(Plain(404, "Target user not found"))
    ensures FindUserByEmail(db, email).Some? ==>
      var id := FindUserByEmail(db, email).value;
      var inner := SetNewBalanceDraft(db, id, amount, performer, Some(reason.GetOr(Text("admin recharge"))));
      && (r.Success? <==> inner.Success?)
      && (r.Success? ==> r.value == (inner.value.0, Recharge(email, inner.value.1)))
      && (r.Failure? ==> r.error == inner.error)
  {
    match FindUserByEmail(db, email)
    case None => Failure(Plain(404, "Target user not found"))
    case Some(id) =>
      var (db', s) :- SetNewBalanceDraft(db, id, amount, performer, Some(reason.GetOr(Text("admin recharge"))));
      Success((db', Recharge(UserAt(db, id).email, s)))
  }
}
