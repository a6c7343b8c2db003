/**
  Creating and executing models: src/service/model/model-facade.ts (the
  kebab-case facade, which debits on creation) and
  src/service/model/ModelFacade.ts (the facade the service wires, which
  never debits). Each call runs in one transaction: a failure leaves the
  database as it was. Neither facade debits on execution.
*/
module ModelFacade {
  import opened Wrappers
  import opened Fixed
  import opened Graphs
  import opened ApiError
  import opened Store
  import opened ModelStore
  import opened Ledger
  import opened UserRepository
  import opened ValidationChain

  /** `CreateModelInput`: the owner comes from the token, the rest from the body. */
  datatype CreateInput = CreateInput(owner: nat, name: string, description: Option<string>, graph: Graph)

  /** What the kebab-case creation returns. */
  datatype Charged = Charged(created: Created, costTokens: int, remainingTokens: int, nodes: nat, edges: nat)

  /**
    The gate both facades put in front of creation: the positive-tokens
    handler is handed the graph's price as the caller's `token`.
  */
  function CostGate(owner: nat, cost: int): (r: Result<(), Fault>)
    ensures r.Success? <==> cost > 0
    ensures r.Failure? ==> r.error == Raise(UnauthorizedError, "Tokens depleted", 401)
  {
    Handle(Handler(PositiveTokens, None), Caller(Some(Claims(owner, Some(cost)))))
  }

  /** The version-1 arguments both facades pass to `createModelWithVersion`. */
  function FirstVersion(a: CreateInput): NewModel {
    NewModel(a.owner, a.name, a.description, 1, a.graph, |a.graph|, EdgeCount(a.graph), None)
  }

  /**
    `createModelAndCharge` of model-facade.ts: price the graph, refuse a
    non-positive price, then run the creation transaction.
  */
  function CreateModelAndCharge(db: Db, a: CreateInput, now: int): (r: Result<(Db, Charged), Fault>)
    ensures |a.graph| == 0 ==> r == Failure(Raise(UnauthorizedError, "Tokens depleted", 401))
    ensures |a.graph| > 0 ==> r == CreateTransaction(db, a, now)
  {
    BuildPositive(Some(a.graph));
    match CostGate(a.owner, Build(Some(a.graph)).cost)
    case Failure(e) => Failure(e)
    case Success(_) => CreateTransaction(db, a, now)
  }

  /**
    The transaction of `createModelAndCharge`: check the owner and the
    balance, create the model with version 1, and set the balance to
    `tokens - cost` with the model-creation reason.
  */
  function CreateTransaction(db: Db, a: CreateInput, now: int): (r: Result<(Db, Charged), Fault>)
    ensures !IsUser(db, a.owner) ==> r == Failure(Raise(NotFoundError, "User not found", 404))
    ensures IsUser(db, a.owner) && UserAt(db, a.owner).tokens < Build(Some(a.graph)).cost ==>
      r == Failure(Raise(UnauthorizedError, "Insufficient tokens", 401))
    ensures r.Success? ==> IsUser(db, a.owner) && UserAt(db, a.owner).tokens >= 2000 * |a.graph| + 100 * EdgeCount(a.graph)
    ensures r.Success? ==> r.value.1 == Charged(Created(|db.models| + 1, |db.versions| + 1, now), 2000 * |a.graph| + 100 * EdgeCount(a.graph),
                                                UserAt(db, a.owner).tokens - (2000 * |a.graph| + 100 * EdgeCount(a.graph)), |a.graph|, EdgeCount(a.graph))
    ensures r.Success? ==> r.value.0.models == db.models + [Model(a.owner, a.name, a.description, 1, now)]
    ensures r.Success? ==> r.value.0.versions == db.versions + [Version(|db.models| + 1, 1, a.graph, |a.graph|, EdgeCount(a.graph), None, a.owner, now)]
    ensures r.Success? ==>
      var next := Round2(UserAt(db, a.owner).tokens - (2000 * |a.graph| + 100 * EdgeCount(a.graph)));
      && r.value.0.users == db.users[a.owner - 1 := db.users[a.owner - 1].(tokens := next)]
      && r.value.0.ledger == db.ledger + [LedgerRow(a.owner, Some(a.owner), Round2(UserAt(db, a.owner).tokens), next,
                                                    Round2(next - UserAt(db, a.owner).tokens), Some(Tag(ModelCreationRecharge)))]
    ensures r.Success? ==> r.value.0.requests == db.requests && r.value.0.simulations == db.simulations && r.value.0.simRows == db.simRows
  {
    var b := Build(Some(a.graph));
    // inside the transaction `getById` is `findByPk`
    var user := GetById(db, Finite(a.owner), true).value;
    if user.None? then Failure(Raise(NotFoundError, "User not found", 404))
    else if user.value.tokens < b.cost then Failure(Raise(UnauthorizedError, "Insufficient tokens", 401))
    else
      var tokens := user.value.tokens;
      var cr := CreateModelWithVersion(db, Current, FirstVersion(a), now);
      if cr.Failure? then Failure(cr.error)
      else
        var ch := ChargeByUserId(cr.value.0, a.owner, Finite(tokens - b.cost), a.owner, Tag(ModelCreationRecharge));
        if ch.Failure? then Failure(ch.error)
        else Success((ch.value.0, Charged(cr.value.1, b.cost, tokens - b.cost, b.nodes, b.edges)))
  }

  /**
    On a valid database creation succeeds exactly for a non-empty graph, an
    existing owner who can pay, and a name the owner has not used.
  */
  lemma {:induction false} CreateModelAndChargeSucceeds(db: Db, a: CreateInput, now: int)
    requires Valid(db)
    ensures CreateModelAndCharge(db, a, now).Success? <==>
      (|a.graph| > 0 && IsUser(db, a.owner) && UserAt(db, a.owner).tokens >= Build(Some(a.graph)).cost
       && forall i :: 0 <= i < |db.models| ==> !(db.models[i].owner == a.owner && db.models[i].name == a.name))
  {
    BuildPositive(Some(a.graph));
    if |a.graph| > 0 && IsUser(db, a.owner) && UserAt(db, a.owner).tokens >= Build(Some(a.graph)).cost {
      CreateTransactionCharges(db, a, now);
    }
  }

  /**
    A successful creation debits exactly the price, logs that debit, and
    keeps the invariant and the accounts.
  */
  lemma {:induction false} CreateModelAndChargeValid(db: Db, a: CreateInput, now: int)
    requires Valid(db) && CreateModelAndCharge(db, a, now).Success?
    ensures var db' := CreateModelAndCharge(db, a, now).value.0;
      var cost := Build(Some(a.graph)).cost;
      && Valid(db') && Accounts(db, db')
      && UserAt(db', a.owner).tokens == UserAt(db, a.owner).tokens - cost
      && db'.ledger == db.ledger + [LedgerRow(a.owner, Some(a.owner), UserAt(db, a.owner).tokens,
                                              UserAt(db, a.owner).tokens - cost, -cost, Some(Tag(ModelCreationRecharge)))]
  {
    BuildPositive(Some(a.graph));
    CreateTransactionCharges(db, a, now);
  }

  /** The transaction, once the owner and balance checks have passed, fails only on a reused name, and then debits the price. */
  lemma {:induction false} CreateTransactionCharges(db: Db, a: CreateInput, now: int)
    requires Valid(db)
    requires IsUser(db, a.owner) && UserAt(db, a.owner).tokens >= Build(Some(a.graph)).cost
    ensures CreateTransaction(db, a, now).Success? <==>
      forall i :: 0 <= i < |db.models| ==> !(db.models[i].owner == a.owner && db.models[i].name == a.name)
    ensures CreateTransaction(db, a, now).Success? ==> (
      var db' := CreateTransaction(db, a, now).value.0;
      var cost := Build(Some(a.graph)).cost;
      && IsUser(db', a.owner) && Valid(db') && Accounts(db, db')
      && UserAt(db', a.owner).tokens == UserAt(db, a.owner).tokens - cost
      && db'.ledger == db.ledger + [LedgerRow(a.owner, Some(a.owner), UserAt(db, a.owner).tokens,
                                              UserAt(db, a.owner).tokens - cost, -cost, Some(Tag(ModelCreationRecharge)))])
  {
    assert forall i :: 0 <= i < |db.versions| ==> db.versions[i].model <= |db.models|;
    CreateTransactionSucceeds(db, a, now);
    if CreateTransaction(db, a, now).Success? {
      CreateTransactionIsDebit(db, a, now, CreateTransaction(db, a, now),
                               CreateModelWithVersion(db, Current, FirstVersion(a), now));
      var db1 := CreateModelWithVersion(db, Current, FirstVersion(a), now).value.0;
      CreateThenDebit(db, a, now, db1,
                      SetAbsoluteBalance(db1, a.owner, Finite(UserAt(db, a.owner).tokens - Build(Some(a.graph)).cost),
                                         Some(a.owner), Some(Tag(ModelCreationRecharge))));
    }
  }

  /** Past the owner and balance checks, only the name constraint can make the transaction fail. */
  lemma {:induction false} CreateTransactionSucceeds(db: Db, a: CreateInput, now: int)
    requires IsUser(db, a.owner) && UserAt(db, a.owner).tokens >= Build(Some(a.graph)).cost
    requires forall i :: 0 <= i < |db.versions| ==> db.versions[i].model <= |db.models|
    requires IsFixed2(UserAt(db, a.owner).tokens)
    ensures CreateTransaction(db, a, now).Success? <==>
      forall i :: 0 <= i < |db.models| ==> !(db.models[i].owner == a.owner && db.models[i].name == a.name)
  {
    var b := Build(Some(a.graph));
    var tokens := UserAt(db, a.owner).tokens;
    var cr := CreateModelWithVersion(db, Current, FirstVersion(a), now);
    if cr.Success? {
      Fixed2Closed(tokens, b.cost);
      Round2Fixed(tokens - b.cost);
      Round2Idempotent(tokens - b.cost);
      assert ChargeByUserId(cr.value.0, a.owner, Finite(tokens - b.cost), a.owner, Tag(ModelCreationRecharge)).Success?;
    }
  }

  /** A successful transaction is the model insert followed by setting the balance to `tokens - cost`. */
  lemma {:induction false} CreateTransactionIsDebit(db: Db, a: CreateInput, now: int,
                                                    t: Result<(Db, Charged), Fault>, cr: Result<(Db, Created), Fault>)
    requires t == CreateTransaction(db, a, now) && t.Success?
    requires cr == CreateModelWithVersion(db, Current, FirstVersion(a), now)
    ensures cr.Success? && IsUser(db, a.owner) && IsUser(cr.value.0, a.owner)
    ensures UserAt(cr.value.0, a.owner) == UserAt(db, a.owner)
    ensures SetAbsoluteBalance(cr.value.0, a.owner, Finite(UserAt(db, a.owner).tokens - Build(Some(a.graph)).cost),
                               Some(a.owner), Some(Tag(ModelCreationRecharge))).Success?
    ensures t.value.0 == SetAbsoluteBalance(cr.value.0, a.owner, Finite(UserAt(db, a.owner).tokens - Build(Some(a.graph)).cost),
                                            Some(a.owner), Some(Tag(ModelCreationRecharge))).value.0
  {
    var cost := Build(Some(a.graph)).cost;
    assert GetById(db, Finite(a.owner), true).value == FindUser(db, a.owner);
    var tokens := UserAt(db, a.owner).tokens;
    var ch := ChargeByUserId(cr.value.0, a.owner, Finite(tokens - cost), a.owner, Tag(ModelCreationRecharge));
    assert ch.Success? && t.value.0 == ch.value.0;
  }

  /** Inserting the model with version 1 keeps the invariant, the accounts and the owner's row. */
  lemma {:induction false} CreateStepValid(db: Db, a: CreateInput, now: int, db1: Db)
    requires Valid(db) && IsUser(db, a.owner)
    requires CreateModelWithVersion(db, Current, FirstVersion(a), now).Success?
    requires db1 == CreateModelWithVersion(db, Current, FirstVersion(a), now).value.0
    ensures Valid(db1) && Accounts(db, db1)
    ensures IsUser(db1, a.owner) && UserAt(db1, a.owner) == UserAt(db, a.owner) && db1.ledger == db.ledger
  {
    CreateModelWithVersionValid(db, Current, FirstVersion(a), now);
    AccountsRefl(db);
  }

  /**
    Inserting the model with version 1 and then setting the owner's balance
    to `tokens - cost` keeps the invariant and is the logged debit of the price.
  */
  lemma {:induction false} CreateThenDebit(db: Db, a: CreateInput, now: int, db1: Db, r: Result<(Db, Summary), Fault>)
    requires Valid(db) && IsUser(db, a.owner) && UserAt(db, a.owner).tokens >= Build(Some(a.graph)).cost
    requires CreateModelWithVersion(db, Current, FirstVersion(a), now).Success?
    requires db1 == CreateModelWithVersion(db, Current, FirstVersion(a), now).value.0
    requires r == SetAbsoluteBalance(db1, a.owner, Finite(UserAt(db, a.owner).tokens - Build(Some(a.graph)).cost),
                                     Some(a.owner), Some(Tag(ModelCreationRecharge)))
    ensures r.Success? && IsUser(r.value.0, a.owner) && Valid(r.value.0) && Accounts(db, r.value.0)
    ensures UserAt(r.value.0, a.owner).tokens == UserAt(db, a.owner).tokens - Build(Some(a.graph)).cost
    ensures r.value.0.ledger == db.ledger + [LedgerRow(a.owner, Some(a.owner), UserAt(db, a.owner).tokens,
                                                       UserAt(db, a.owner).tokens - Build(Some(a.graph)).cost,
                                                       -Build(Some(a.graph)).cost, Some(Tag(ModelCreationRecharge)))]
  {
    CreateStepValid(db, a, now, db1);
    DebitAfter(db, db1, a.owner, Build(Some(a.graph)).cost, r);
  }

  /** A debit applied after a step that kept the invariant and the accounts keeps both. */
  lemma {:induction false} DebitAfter(db: Db, db1: Db, owner: nat, cost: int, r: Result<(Db, Summary), Fault>)
    requires Valid(db) && Valid(db1) && Accounts(db, db1)
    requires IsUser(db, owner) && IsUser(db1, owner) && UserAt(db1, owner) == UserAt(db, owner) && db1.ledger == db.ledger
    requires IsFixed2(cost) && 0 <= cost <= UserAt(db, owner).tokens
    requires r == SetAbsoluteBalance(db1, owner, Finite(UserAt(db, owner).tokens - cost), Some(owner), Some(Tag(ModelCreationRecharge)))
    ensures r.Success? && IsUser(r.value.0, owner) && Valid(r.value.0) && Accounts(db, r.value.0)
    ensures UserAt(r.value.0, owner).tokens == UserAt(db, owner).tokens - cost
    ensures r.value.0.ledger == db.ledger + [LedgerRow(owner, Some(owner), UserAt(db, owner).tokens,
                                                        UserAt(db, owner).tokens - cost, -cost, Some(Tag(ModelCreationRecharge)))]
  {
    DebitStep(db1, owner, cost);
    AccountsTrans(db, db1, r.value.0);
  }

  /** Setting a valid balance to itself minus a price it covers is a logged debit of exactly that price. */
  lemma {:induction false} DebitStep(db: Db, owner: nat, cost: int)
    requires Valid(db) && IsUser(db, owner) && IsFixed2(cost) && 0 <= cost <= UserAt(db, owner).tokens
    ensures var tokens := UserAt(db, owner).tokens;
      var r := SetAbsoluteBalance(db, owner, Finite(tokens - cost), Some(owner), Some(Tag(ModelCreationRecharge)));
      && r.Success? && Valid(r.value.0) && Accounts(db, r.value.0)
      && r.value.0.users == db.users[owner - 1 := db.users[owner - 1].(tokens := tokens - cost)]
      && r.value.0.ledger == db.ledger + [LedgerRow(owner, Some(owner), tokens, tokens - cost, -cost, Some(Tag(ModelCreationRecharge)))]
  {
    var tokens := UserAt(db, owner).tokens;
    var reason := Some(Tag(ModelCreationRecharge));
    Fixed2Closed(tokens, cost);
    Round2Fixed(tokens - cost);
    Round2Fixed(tokens);
    Round2Fixed(-cost);
    Round2Idempotent(tokens - cost);
    var ab := ApplyBalanceWithLock(db, owner, Some(owner), reason, Finite(tokens - cost));
    assert SetAbsoluteBalance(db, owner, Finite(tokens - cost), Some(owner), reason) == ab;
    ApplyBalanceValid(db, owner, Some(owner), reason, Finite(tokens - cost));
  }

  /** What execution returns: the route, the price of the graph it ran on, and that version's number. */
  datatype Executed = Executed(route: Route, chargeTokens: int, version: int)

  /**
    `executeAndCharge`: find the model's latest version under the
    generation's policy, run the path finder on its graph, and report the
    graph's price. Nothing is written: despite its name, no balance moves.
  */
  function ExecuteAndCharge(db: Db, gen: Generation, modelId: Num, start: string, goal: string, finder: PathFinder)
    : (r: Result<(Db, Executed), Fault>)
    ensures modelId.NonFinite? ==> r.Failure? && r.error.HasStatus(400)
    ensures modelId.Finite? && GetLatestVersion(db, gen, modelId).value.None? ==>
      r == Failure(Raise(NotFoundError, "Model or graph version not found", 404))
    ensures (modelId.Finite? && GetLatestVersion(db, gen, modelId).value.Some?
             && finder(GetLatestVersion(db, gen, modelId).value.value.graph, start, goal).None?) ==>
      r == Failure(Raise(BadRequestError, "No path found", 400))
    ensures r.Success? ==>
      var v := GetLatestVersion(db, gen, modelId).value.value;
      && r.value.0 == db
      && Some(r.value.1.route) == finder(v.graph, start, goal)
      && r.value.1.chargeTokens == 2000 * |v.graph| + 100 * EdgeCount(v.graph)
      && r.value.1.version == v.number
  {
    var latest :- GetLatestVersion(db, gen, modelId);
    if latest.None? then Failure(Raise(NotFoundError, "Model or graph version not found", 404))
    else
      var charge := Build(Some(latest.value.graph)).cost;
      match finder(latest.value.graph, start, goal)
      case None => Failure(Raise(BadRequestError, "No path found", 400))
      case Some(route) => Success((db, Executed(route, charge, latest.value.number)))
  }

  /**
    On a valid database both facades execute the same version, the one the
    model's current-version column, so they give the same answer.
  */
  lemma {:induction false} ExecuteFacadesAgree(db: Db, m: nat, start: string, goal: string, finder: PathFinder)
    requires Valid(db)
    ensures ExecuteAndCharge(db, Current, Finite(m), start, goal, finder) == ExecuteAndCharge(db, Draft, Finite(m), start, goal, finder)
    ensures ExecuteAndCharge(db, Current, Finite(m), start, goal, finder).Success? ==>
      IsModel(db, m) && ExecuteAndCharge(db, Current, Finite(m), start, goal, finder).value.1.version == ModelAt(db, m).current
    ensures !IsModel(db, m) ==>
      ExecuteAndCharge(db, Current, Finite(m), start, goal, finder) == Failure(Raise(NotFoundError, "Model or graph version not found", 404))
  {
    LatestPoliciesAgree(db, m);
  }

  /** What `getModelWithLatest` returns. */
  datatype WithLatest = WithLatest(model: Model, latest: Option<Version>)

  /** `getModelWithLatest`: the model, or 404, and its latest version under the generation's policy. */
  function GetModelWithLatest(db: Db, gen: Generation, id: Num): (r: Result<WithLatest, Fault>)
    ensures id.NonFinite? ==> r.Failure? && r.error.HasStatus(400)
    ensures id.Finite? && !IsModel(db, id.value) ==> r == Failure(Raise(NotFoundError, "Model not found", 404))
    ensures r.Success? ==> id.Finite? && IsModel(db, id.value) && r.value.model == ModelAt(db, id.value)
    ensures r.Success? ==> r.value.latest == GetLatestVersion(db, gen, id).value
  {
    var model :- GetModel(db, gen, id);
    if model.None? then Failure(Raise(NotFoundError, "Model not found", 404))
    else
      Success(WithLatest(model.value, GetLatestVersion(db, gen, id).value))
  }

  /** On a valid database the latest version reported is always present and numbered by the pointer. */
  lemma {:induction false} GetModelWithLatestValid(db: Db, gen: Generation, m: nat)
    requires Valid(db) && IsModel(db, m)
    ensures GetModelWithLatest(db, gen, Finite(m)).Success?
    ensures GetModelWithLatest(db, gen, Finite(m)).value.latest.Some?
    ensures GetModelWithLatest(db, gen, Finite(m)).value.latest.value.number == ModelAt(db, m).current
  {
    LatestPoliciesAgree(db, m);
  }

  /** What the live creation returns: the created ids and the price, without charging it. */
  datatype CreatedLive = CreatedLive(created: Created, costTokens: int)

  /**
    `createModelAndCharge` of ModelFacade.ts as written: after the same cost
    gate, the owner is looked up with `getModel`, that is, as a MODEL id;
    there is no balance check and no debit.
  */
  function CreateModelLive(db: Db, a: CreateInput, now: int): (r: Result<(Db, CreatedLive), Fault>)
    ensures |a.graph| == 0 ==> r == Failure(Raise(UnauthorizedError, "Tokens depleted", 401))
    ensures |a.graph| > 0 && !IsModel(db, a.owner) ==> r == Failure(Raise(NotFoundError, "User not found", 404))
    ensures r.Success? ==> IsModel(db, a.owner) && r == LiveInsert(db, a, now)
  {
    BuildPositive(Some(a.graph));
    match CostGate(a.owner, Build(Some(a.graph)).cost)
    case Failure(e) => Failure(e)
    case Success(_) =>
      if !IsModel(db, a.owner) then Failure(Raise(NotFoundError, "User not found", 404))
      else LiveInsert(db, a, now)
  }

  /** The transaction body both live creations share once the owner check passed. */
  function LiveInsert(db: Db, a: CreateInput, now: int): (r: Result<(Db, CreatedLive), Fault>)
    ensures r.Success? ==> r.value.1 == CreatedLive(Created(|db.models| + 1, |db.versions| + 1, now), 2000 * |a.graph| + 100 * EdgeCount(a.graph))
    ensures r.Success? ==> r.value.0 == db.(
      models := db.models + [Model(a.owner, a.name, a.description, 1, now)],
      versions := db.versions + [Version(|db.models| + 1, 1, a.graph, |a.graph|, EdgeCount(a.graph), None, a.owner, now)])
  {
    var x := CreateModelWithVersion(db, Draft, FirstVersion(a), now);
    var cost := Build(Some(a.graph)).cost;
    assert cost == 2000 * |a.graph| + 100 * EdgeCount(a.graph);
    if x.Failure? then Failure(x.error) else Success((x.value.0, CreatedLive(x.value.1, cost)))
  }

  /** A database with one user and no model. */
  const OneUser := Empty.(users := [User("a@b.c", "h", UserRole, 10000)])

  /** The live creation refuses an existing user who owns no model yet: their first model can never be created. */
  lemma {:induction false} CreateModelLiveRefusesFirstModel()
    ensures IsUser(OneUser, 1)
    ensures CreateModelLive(OneUser, CreateInput(1, "m", None, [Node("a", [])]), 0)
      == Failure(Raise(NotFoundError, "User not found", 404))
  {
  }

  /**
    The live creation as evidently intended: the owner is looked up as a
    user. It still neither checks nor debits the balance.
  */
  function CreateModelLiveFixed(db: Db, a: CreateInput, now: int): (r: Result<(Db, CreatedLive), Fault>)
    ensures |a.graph| == 0 ==> r == Failure(Raise(UnauthorizedError, "Tokens depleted", 401))
    ensures |a.graph| > 0 && !IsUser(db, a.owner) ==> r == Failure(Raise(NotFoundError, "User not found", 404))
    ensures r.Success? ==> IsUser(db, a.owner) && r == LiveInsert(db, a, now)
  {
    BuildPositive(Some(a.graph));
    match CostGate(a.owner, Build(Some(a.graph)).cost)
    case Failure(e) => Failure(e)
    case Success(_) =>
      if FindUser(db, a.owner).None? then Failure(Raise(NotFoundError, "User not found", 404))
      else LiveInsert(db, a, now)
  }

  /**
    On a valid database the corrected live creation succeeds exactly for a
    non-empty graph, an existing owner and a fresh name, whatever the
    owner's balance.
  */
  lemma {:induction false} CreateModelLiveFixedSucceeds(db: Db, a: CreateInput, now: int)
    requires Valid(db)
    ensures CreateModelLiveFixed(db, a, now).Success? <==>
      (|a.graph| > 0 && IsUser(db, a.owner)
       && forall i :: 0 <= i < |db.models| ==> !(db.models[i].owner == a.owner && db.models[i].name == a.name))
  {
    BuildPositive(Some(a.graph));
    var cr := CreateModelWithVersion(db, Draft, FirstVersion(a), now);
    assert forall i :: 0 <= i < |db.versions| ==> db.versions[i].model <= |db.models|;
    if |a.graph| > 0 && IsUser(db, a.owner) {
      assert CreateModelLiveFixed(db, a, now) == LiveInsert(db, a, now);
      assert LiveInsert(db, a, now).Success? == cr.Success?;
    }
  }

  /** A successful corrected live creation keeps the invariant and leaves every balance untouched. */
  lemma {:induction false} CreateModelLiveFixedValid(db: Db, a: CreateInput, now: int, r: Result<(Db, CreatedLive), Fault>)
    requires Valid(db) && r == CreateModelLiveFixed(db, a, now) && r.Success?
    ensures Valid(r.value.0) && Accounts(db, r.value.0)
  {
    var cr := CreateModelWithVersion(db, Draft, FirstVersion(a), now);
    assert r == LiveInsert(db, a, now);
    assert cr.Success? && r.value.0 == cr.value.0;
    CreateModelWithVersionValid(db, Draft, FirstVersion(a), now);
    AccountsRefl(db);
  }

  /**
    The two creations differ in what they charge: where both succeed on a
    valid database they create the same rows, and only the kebab-case one
    moves the owner's balance, down by exactly the price.
  */
  lemma {:induction false} CreationsDifferOnlyInDebit(db: Db, a: CreateInput, now: int)
    requires Valid(db)
    requires CreateModelAndCharge(db, a, now).Success?
    ensures CreateModelLiveFixed(db, a, now).Success?
    ensures CreateModelAndCharge(db, a, now).value.0.models == CreateModelLiveFixed(db, a, now).value.0.models
    ensures CreateModelAndCharge(db, a, now).value.0.versions == CreateModelLiveFixed(db, a, now).value.0.versions
    ensures CreateModelAndCharge(db, a, now).value.1.created == CreateModelLiveFixed(db, a, now).value.1.created
    ensures UserAt(CreateModelLiveFixed(db, a, now).value.0, a.owner).tokens
      == UserAt(CreateModelAndCharge(db, a, now).value.0, a.owner).tokens + Build(Some(a.graph)).cost
  {
    CreateModelAndChargeSucceeds(db, a, now);
    CreateModelAndChargeValid(db, a, now);
    CreateModelLiveFixedSucceeds(db, a, now);
    CreateModelLiveFixedValid(db, a, now, CreateModelLiveFixed(db, a, now));
  }
}
