/**
  The token ledger: src/dao/user.dao.ts (current) and src/dao/UserDao.ts
  (draft). Every balance change writes the new balance and appends one
  `graph_token_transaction` row recording prev, new and diff, inside one
  transaction: an error leaves the database as it was.
*/
module Ledger {
  import opened Wrappers
  import opened Fixed
  import opened ApiError
  import opened Store

  /** The payload every balance change returns (`updatedAt` is a clock reading and left out). */
  datatype Summary = Summary(previousTokens: int, rechargeTokens: int, totalRechargeTokens: int)

  /** The sum of the diffs of the rows about user `u`. */
  function DiffSum(rows: seq<LedgerRow>, u: nat): int {
    if |rows| == 0 then 0
    else DiffSum(rows[..|rows| - 1], u) + (if rows[|rows| - 1].user == u then rows[|rows| - 1].diff else 0)
  }

  lemma {:induction false} DiffSumAppend(a: seq<LedgerRow>, b: seq<LedgerRow>, u: nat)
    ensures DiffSum(a + b, u) == DiffSum(a, u) + DiffSum(b, u)
    decreases |b|
  {
    if |b| == 0 {
      assert a + b == a;
    } else {
      assert (a + b)[..|a + b| - 1] == a + b[..|b| - 1];
      DiffSumAppend(a, b[..|b| - 1], u);
    }
  }

  /**
    The ledger explains the balances: from `db` to `db'` the ledger only
    grows, no user disappears, and every user of `db` now holds their old
    balance plus the diffs appended for them.
  */
  predicate Accounts(db: Db, db': Db) {
    |db.users| <= |db'.users| && db.ledger <= db'.ledger
    && forall u :: 1 <= u <= |db.users| ==>
      db'.users[u - 1].tokens == db.users[u - 1].tokens + DiffSum(db'.ledger[|db.ledger|..], u)
  }

  lemma {:induction false} AccountsRefl(db: Db)
    ensures Accounts(db, db)
  {
    assert db.ledger[|db.ledger|..] == [];
  }

  /** Accounting composes: two explained steps make one explained step. */
  lemma {:induction false} AccountsTrans(a: Db, b: Db, c: Db)
    requires Accounts(a, b) && Accounts(b, c)
    ensures Accounts(a, c)
  {
    assert c.ledger[|a.ledger|..] == b.ledger[|a.ledger|..] + c.ledger[|b.ledger|..];
    forall u | 1 <= u <= |a.users|
      ensures c.users[u - 1].tokens == a.users[u - 1].tokens + DiffSum(c.ledger[|a.ledger|..], u)
    {
      DiffSumAppend(b.ledger[|a.ledger|..], c.ledger[|b.ledger|..], u);
    }
  }

  /** A step that writes one balance and appends the matching row is explained by the ledger. */
  lemma {:induction false} AccountsOneRow(db: Db, id: nat, next: int, row: LedgerRow)
    requires IsUser(db, id) && row.user == id && row.diff == next - db.users[id - 1].tokens
    ensures Accounts(db, db.(users := db.users[id - 1 := db.users[id - 1].(tokens := next)], ledger := db.ledger + [row]))
  {
    var db' := db.(users := db.users[id - 1 := db.users[id - 1].(tokens := next)], ledger := db.ledger + [row]);
    assert db'.ledger[|db.ledger|..] == [row];
    assert [row][..0] == [];
    forall u | 1 <= u <= |db.users|
      ensures db'.users[u - 1].tokens == db.users[u - 1].tokens + DiffSum([row], u)
    {
      assert DiffSum([row], u) == if u == id then row.diff else 0;
    }
  }

  /**
    `(performerId as number) || null`: only a falsy id (0) becomes NULL; any
    other id, a negative one included, is stored as given and must then pass
    the foreign key to `graph_user`.
  */
  function Performer(p: Option<int>): Option<int> {
    match p
    case Some(n) => if n == 0 then None else Some(n)
    case None => None
  }

  /**
    `applyBalanceWithLock`: set user `userId`'s balance to `nextBalance`
    rounded to two decimals and record the movement.
  */
  function ApplyBalanceWithLock(db: Db, userId: int, performer: Option<int>, reason: Option<Reason>, nextBalance: Num)
    : (r: Result<(Db, Summary), Fault>)
    ensures !IsUser(db, userId) ==> r == Failure(Plain(404, "User not found"))
    ensures IsUser(db, userId) && (nextBalance.NonFinite? || nextBalance.value < 0) ==>
      r == Failure(Plain(400, "nextBalance must be a finite number >= 0"))
    ensures r.Success? ==>
      var prev := UserAt(db, userId).tokens;
      var next := Round2(nextBalance.value);
      var (db', s) := r.value;
      && s == Summary(prev, Round2(next - prev), next)
      && db' == db.(users := db.users[userId - 1 := db.users[userId - 1].(tokens := next)],
                    ledger := db.ledger + [LedgerRow(userId, Performer(performer), Round2(prev), next, Round2(next - prev), reason)])
    ensures r.Failure? <==> (!IsUser(db, userId) || nextBalance.NonFinite? || nextBalance.value < 0
      || (Performer(performer).Some? && !IsUser(db, Performer(performer).value)))
    // the row the lock found is the row the update hits, so the 409 branch is dead
    ensures r.Failure? ==> !r.error.HasStatus(409)
  {
    match FindUser(db, userId)
    case None => Failure(Plain(404, "User not found"))
    case Some(user) =>
      var prev := user.tokens;
      if nextBalance.NonFinite? || nextBalance.value < 0 then
        Failure(Plain(400, "nextBalance must be a finite number >= 0"))
      else
        var next := Round2(nextBalance.value);
        var delta := Round2(next - prev);
        var (db1, affected) := UpdateTokens(db, userId, next);
        if affected != 1 then Failure(Plain(409, "Balance update failed"))
        else
          var db2 :- InsertLedger(db1, LedgerRow(userId, Performer(performer), Round2(prev), next, delta, reason));
          Success((db2, Summary(prev, delta, next)))
  }

  /** A successful balance change keeps the invariant and is explained by the ledger. */
  lemma {:induction false} ApplyBalanceValid(db: Db, userId: int, performer: Option<int>, reason: Option<Reason>, nextBalance: Num)
    requires Valid(db)
    requires ApplyBalanceWithLock(db, userId, performer, reason, nextBalance).Success?
    ensures Valid(ApplyBalanceWithLock(db, userId, performer, reason, nextBalance).value.0)
    ensures Accounts(db, ApplyBalanceWithLock(db, userId, performer, reason, nextBalance).value.0)
  {
    var prev := UserAt(db, userId).tokens;
    var next := Round2(nextBalance.value);
    Round2Fixed(prev);
    Fixed2Closed(next, prev);
    Round2Fixed(next - prev);
    Round2Fixed(next);
    var row := LedgerRow(userId, Performer(performer), Round2(prev), next, Round2(next - prev), reason);
    AccountsOneRow(db, userId, next, row);
  }

  /** `reason || ADMIN_RECHARGE`: a missing or empty reason becomes the admin-recharge tag. */
  function DefaultReason(reason: Option<Reason>): (r: Option<Reason>)
    ensures r.Some?
    ensures reason.Some? && reason.value != Text("") ==> r == reason
    ensures reason.None? || reason.value == Text("") ==> r == Some(Tag(AdminRecharge))
  {
    match reason
    case Some(t) => if t == Text("") then Some(Tag(AdminRecharge)) else reason
    case None => Some(Tag(AdminRecharge))
  }

  /**
    `setNewBalance` of user.dao.ts: a recharge by a positive amount. The
    amount is checked before anything is read, rounded to two decimals and
    added to the current balance.
  */
  function SetNewBalance(db: Db, userId: int, amount: Num, performer: Option<int>, reason: Option<Reason>)
    : (r: Result<(Db, Summary), Fault>)
    ensures amount.NonFinite? || amount.value <= 0 ==> r == Failure(Plain(400, "rechargeTokens must be a positive number"))
    ensures amount.Finite? && amount.value > 0 && !IsUser(db, userId) ==> r == Failure(Plain(404, "User not found"))
    ensures r.Success? ==>
      var prev := UserAt(db, userId).tokens;
      var next := Round2(prev + Round2(amount.value));
      var (db', s) := r.value;
      && db'.users == db.users[userId - 1 := db.users[userId - 1].(tokens := next)]
      && db'.ledger == db.ledger + [LedgerRow(userId, Performer(performer), Round2(prev), next, Round2(next - prev), DefaultReason(reason))]
      && db' == db.(users := db'.users, ledger := db'.ledger)
      && s == Summary(prev, Round2(next - prev), next)
    ensures r.Success? <==> (amount.Finite? && amount.value > 0 && IsUser(db, userId)
      && Round2(UserAt(db, userId).tokens + Round2(amount.value)) >= 0
      && (Performer(performer).Some? ==> IsUser(db, Performer(performer).value)))
  {
    if amount.NonFinite? || amount.value <= 0 then Failure(Plain(400, "rechargeTokens must be a positive number"))
    else
      var delta := Round2(amount.value);
      match FindUser(db, userId)
      case None => Failure(Plain(404, "User not found"))
      case Some(u) =>
        var next := Round2(u.tokens + delta);
        Round2Idempotent(u.tokens + delta);
        ApplyBalanceWithLock(db, userId, performer, DefaultReason(reason), Finite(next))
  }

  /**
    On a valid database a recharge adds exactly the rounded amount, the ledger
    row's diff is that amount, and the balance never goes down.
  */
  lemma {:induction false} SetNewBalanceAdds(db: Db, userId: int, amount: Num, performer: Option<int>, reason: Option<Reason>)
    requires Valid(db)
    requires SetNewBalance(db, userId, amount, performer, reason).Success?
    ensures UserAt(SetNewBalance(db, userId, amount, performer, reason).value.0, userId).tokens
      == UserAt(db, userId).tokens + Round2(amount.value)
    ensures SetNewBalance(db, userId, amount, performer, reason).value.1.rechargeTokens == Round2(amount.value)
    ensures Round2(amount.value) >= 0
  {
    var prev := UserAt(db, userId).tokens;
    var delta := Round2(amount.value);
    Fixed2Closed(prev, delta);
    Round2Fixed(prev + delta);
    Round2Fixed(delta);
    Round2Monotone(0, amount.value);
    assert Round2(0) == 0;
  }

  /**
    `setAbsoluteBalance`: set the balance to a non-negative amount; the
    amount is checked before anything is read.
  */
  function SetAbsoluteBalance(db: Db, userId: int, amount: Num, performer: Option<int>, reason: Option<Reason>)
    : (r: Result<(Db, Summary), Fault>)
    ensures amount.NonFinite? || amount.value < 0 ==> r == Failure(Plain(400, "newAbsoluteBalance must be a number >= 0"))
    ensures amount.Finite? && amount.value >= 0 && !IsUser(db, userId) ==> r == Failure(Plain(404, "User not found"))
    ensures r.Success? ==>
      var prev := UserAt(db, userId).tokens;
      var next := Round2(amount.value);
      var (db', s) := r.value;
      && db'.users == db.users[userId - 1 := db.users[userId - 1].(tokens := next)]
      && db'.ledger == db.ledger + [LedgerRow(userId, Performer(performer), Round2(prev), next, Round2(next - prev), reason)]
      && db' == db.(users := db'.users, ledger := db'.ledger)
      && s == Summary(prev, Round2(next - prev), next)
    ensures r.Success? <==> (amount.Finite? && amount.value >= 0 && IsUser(db, userId)
      && (Performer(performer).Some? ==> IsUser(db, Performer(performer).value)))
  {
    if amount.NonFinite? || amount.value < 0 then Failure(Plain(400, "newAbsoluteBalance must be a number >= 0"))
    else
      Round2Idempotent(amount.value);
      ApplyBalanceWithLock(db, userId, performer, reason, Finite(Round2(amount.value)))
  }

  /** `findById` of user.dao.ts: a non-finite or non-positive id is rejected with 400. */
  function FindById(db: Db, id: Num): (r: Result<Option<User>, Fault>)
    ensures r.Failure? <==> id.NonFinite? || id.value <= 0
    ensures r.Failure? ==> r.error == Plain(400, "Invalid user id")
    ensures r.Success? ==> r.value == FindUser(db, id.value)
  {
    if id.NonFinite? || id.value <= 0 then Failure(Plain(400, "Invalid user id"))
    else Success(FindUser(db, id.value))
  }

  /** The stored form of an initial balance: NULL keeps the column default 0.00. */
  datatype NewUser = NewUser(email: string, password: string, role: Option<Role>, tokens: Option<Num>)

  /**
    `createUser` of user.dao.ts: a given balance must be finite and
    non-negative and is stored to two decimals; the role defaults to "user".
  */
  function CreateUser(db: Db, a: NewUser): (r: Result<(Db, nat), Fault>)
    ensures a.tokens.Some? && (a.tokens.value.NonFinite? || a.tokens.value.value < 0) ==>
      r == Failure(Plain(400, "tokens_user must be a finite number >= 0"))
    ensures r.Success? ==>
      var (db', id) := r.value;
      && id == |db.users| + 1
      && db'.users == db.users + [User(a.email, a.password, a.role.GetOr(UserRole),
                                       if a.tokens.Some? then Round2(a.tokens.value.value) else 0)]
      && db'.ledger == db.ledger && db'.models == db.models
    ensures r.Success? ==> UserAt(r.value.0, r.value.1).tokens >= 0 && IsFixed2(UserAt(r.value.0, r.value.1).tokens)
    ensures r.Failure? && (a.tokens.None? || (a.tokens.value.Finite? && a.tokens.value.value >= 0)) ==>
      r.error == ConstraintViolation
  {
    var tokens :- if a.tokens.None? then Success(0)
                  else if a.tokens.value.NonFinite? || a.tokens.value.value < 0 then Failure(Plain(400, "tokens_user must be a finite number >= 0"))
                  else Success(Round2(a.tokens.value.value));
    assert tokens >= 0 by {
      if a.tokens.Some? {
        Round2Monotone(0, a.tokens.value.value);
        assert Round2(0) == 0;
      }
    }
    InsertUser(db, User(a.email, a.password, a.role.GetOr(UserRole), tokens))
  }

  /** A successful kebab-case `createUser` keeps the invariant. */
  lemma {:induction false} CreateUserValid(db: Db, a: NewUser)
    requires Valid(db) && CreateUser(db, a).Success?
    ensures Valid(CreateUser(db, a).value.0)
    ensures Accounts(db, CreateUser(db, a).value.0)
  {
    AccountsRefl(db);
    assert CreateUser(db, a).value.0.ledger == db.ledger;
  }

  /**
    `setNewBalance` of UserDao.ts: the same recharge, but the row's diff is the
    rounded amount itself, the performer is stored as given, the reason is not
    defaulted, and the update's affected count is checked again.
  */
  function SetNewBalanceDraft(db: Db, userId: int, amount: Num, performer: Option<int>, reason: Option<Reason>)
    : (r: Result<(Db, Summary), Fault>)
    ensures amount.NonFinite? || amount.value <= 0 ==> r == Failure(Plain(400, "rechargeTokens must be a positive number"))
    ensures amount.Finite? && amount.value > 0 && !IsUser(db, userId) ==> r == Failure(Plain(404, "User not found"))
    ensures r.Success? ==>
      var prev := UserAt(db, userId).tokens;
      var delta := Round2(amount.value);
      var next := Round2(prev + delta);
      var (db', s) := r.value;
      && db'.users == db.users[userId - 1 := db.users[userId - 1].(tokens := next)]
      && db'.ledger == db.ledger + [LedgerRow(userId, performer,
                                              Round2(prev), next, delta, reason)]
      && db' == db.(users := db'.users, ledger := db'.ledger)
      && s == Summary(prev, delta, next)
    ensures r.Success? <==> (amount.Finite? && amount.value > 0 && IsUser(db, userId)
      && (performer.Some? ==> IsUser(db, performer.value)))
  {
    if amount.NonFinite? || amount.value <= 0 then Failure(Plain(400, "rechargeTokens must be a positive number"))
    else
      var delta := Round2(amount.value);
      match FindUser(db, userId)
      case None => Failure(Plain(404, "User not found"))
      case Some(u) =>
        var prev := u.tokens;
        var next := Round2(prev + delta);
        var (db1, affected) := UpdateTokens(db, userId, next);
        if affected != 1 then Failure(Plain(409, "Balance update failed"))
        else
          var db2 :- InsertLedger(db1, LedgerRow(userId, performer, Round2(prev), next, delta, reason));
          Success((db2, Summary(prev, delta, next)))
  }

  /**
    On a valid database the draft recharge agrees with the current one on the
    balance, the row's prev/new/diff and the summary; only the reason default
    and the handling of performer 0 differ.
  */
  lemma {:induction false} DraftRechargeAgrees(db: Db, userId: int, amount: Num, performer: nat, reason: Reason)
    requires Valid(db) && performer > 0 && reason != Text("")
    ensures SetNewBalanceDraft(db, userId, amount, Some(performer), Some(reason))
         == SetNewBalance(db, userId, amount, Some(performer), Some(reason))
  {
    if amount.Finite? && amount.value > 0 && IsUser(db, userId) {
      var prev := UserAt(db, userId).tokens;
      var delta := Round2(amount.value);
      Fixed2Closed(prev, delta);
      Round2Fixed(prev + delta);
      Round2Fixed(delta);
      assert Round2(prev + delta) - prev == delta;
    }
  }

  /** A successful draft recharge keeps the invariant and is explained by the ledger. */
  lemma {:induction false} SetNewBalanceDraftValid(db: Db, userId: int, amount: Num, performer: Option<int>, reason: Option<Reason>)
    requires Valid(db) && SetNewBalanceDraft(db, userId, amount, performer, reason).Success?
    ensures Valid(SetNewBalanceDraft(db, userId, amount, performer, reason).value.0)
    ensures Accounts(db, SetNewBalanceDraft(db, userId, amount, performer, reason).value.0)
  {
    var prev := UserAt(db, userId).tokens;
    var delta := Round2(amount.value);
    Fixed2Closed(prev, delta);
    Round2Fixed(prev + delta);
    Round2Fixed(prev);
    Round2Monotone(0, amount.value);
    assert Round2(0) == 0;
    AccountsOneRow(db, userId, prev + delta, LedgerRow(userId, performer, prev, prev + delta, delta, reason));
  }

  /** `createUser` of UserDao.ts: the row is inserted exactly as given. */
  function CreateUserDraft(db: Db, email: string, password: string, role: Role, tokens: int): (r: Result<(Db, nat), Fault>)
    ensures r.Success? <==> forall i :: 0 <= i < |db.users| ==> db.users[i].email != email
    ensures r.Success? ==> r.value.0.users == db.users + [User(email, password, role, tokens)] && r.value.0.ledger == db.ledger
  {
    InsertUser(db, User(email, password, role, tokens))
  }
}
