/**
  The database the core works on: one table per entity, held as sequences.

  Rows are never deleted and ids are auto-increment, so the row at index `i`
  of a table has id `i + 1`; an id is valid exactly when it names a row. The
  insert functions enforce the constraints the schema declares (foreign
  keys, unique indexes) and fail with a statusless driver error otherwise.
*/
module Store {
  import opened Wrappers
  import opened Fixed
  import opened Graphs
  import opened ApiError

  datatype Role = UserRole | AdminRole

  /** A row of `graph_user`; `tokens` is the DECIMAL(12,2) balance. */
  datatype User = User(email: string, password: string, role: Role, tokens: int)

  /** The reasons the core writes itself (`ReasonTokenTransactionEnum`). */
  datatype ReasonTag = AdminRecharge | SeedRecharge | ModelCreationRecharge

  /** A ledger reason: one of the core's tags, or free text from a caller. */
  datatype Reason = Tag(tag: ReasonTag) | Text(text: string)

  /** A row of `graph_token_transaction`: one balance movement. */
  datatype LedgerRow = LedgerRow(user: nat, performer: Option<int>, prev: int, next: int, diff: int, reason: Option<Reason>)

  /** A row of `graph_model`; `current` is `current_version_model`. */
  datatype Model = Model(owner: nat, name: string, description: Option<string>, current: int, createdAt: int)

  /** A row of `graph_version`: an immutable snapshot of a model's graph. */
  datatype Version = Version(model: nat, number: int, graph: Graph, nodeCount: int, edgeCount: int,
                             alpha: Option<int>, creator: nat, createdAt: int)

  datatype Status = Pending | Approved | Rejected

  /** A row of the weight-change request table. */
  datatype Request = Request(model: nat, requester: nat, from: string, to: string, weight: int,
                             status: Status, rejection: Option<string>, createdAt: int)

  /** A row of `graph_simulation`: the header of one sweep. */
  datatype Simulation = Simulation(model: nat, version: int, user: nat, from: string, to: string,
                                   start: int, stop: int, step: int, createdAt: int)

  /** A row of `graph_simulation_result`; a cost of `None` is the sweep's `Infinity`. */
  datatype SimRow = SimRow(simulation: nat, weight: int, path: seq<string>, cost: Option<int>)

  datatype Db = Db(users: seq<User>, ledger: seq<LedgerRow>, models: seq<Model>, versions: seq<Version>,
                   requests: seq<Request>, simulations: seq<Simulation>, simRows: seq<SimRow>)

  const Empty := Db([], [], [], [], [], [], [])

  predicate IsUser(db: Db, id: int) { 1 <= id <= |db.users| }
  predicate IsModel(db: Db, id: int) { 1 <= id <= |db.models| }
  predicate IsRequest(db: Db, id: int) { 1 <= id <= |db.requests| }
  predicate IsSimulation(db: Db, id: int) { 1 <= id <= |db.simulations| }

  function UserAt(db: Db, id: int): User requires IsUser(db, id) { db.users[id - 1] }
  function ModelAt(db: Db, id: int): Model requires IsModel(db, id) { db.models[id - 1] }
  function RequestAt(db: Db, id: int): Request requires IsRequest(db, id) { db.requests[id - 1] }

  /** `findByPk` on `graph_user`. */
  function FindUser(db: Db, id: int): (u: Option<User>)
    ensures u.Some? <==> IsUser(db, id)
    ensures u.Some? ==> u.value == db.users[id - 1]
  {
    if IsUser(db, id) then Some(db.users[id - 1]) else None
  }

  /** `findByPk` on `graph_model`. */
  function FindModel(db: Db, id: int): (m: Option<Model>)
    ensures m.Some? <==> IsModel(db, id)
    ensures m.Some? ==> m.value == db.models[id - 1]
  {
    if IsModel(db, id) then Some(db.models[id - 1]) else None
  }

  /** `findByPk` on the request table. */
  function FindRequest(db: Db, id: int): (r: Option<Request>)
    ensures r.Some? <==> IsRequest(db, id)
    ensures r.Some? ==> r.value == db.requests[id - 1]
  {
    if IsRequest(db, id) then Some(db.requests[id - 1]) else None
  }

  /** `findOne({ where: { email_user } })`: the id of the first user with that email. */
  function FindUserByEmail(db: Db, email: string): (id: Option<nat>)
    ensures id.Some? ==> IsUser(db, id.value) && UserAt(db, id.value).email == email
    ensures id.None? <==> forall i :: 0 <= i < |db.users| ==> db.users[i].email != email
  {
    EmailIndex(db.users, email, 0)
  }

  function EmailIndex(users: seq<User>, email: string, from: nat): (id: Option<nat>)
    requires from <= |users|
    ensures id.Some? ==> from < id.value <= |users| && users[id.value - 1].email == email
    ensures id.None? <==> forall i :: from <= i < |users| ==> users[i].email != email
    decreases |users| - from
  {
    if from == |users| then None
    else if users[from].email == email then Some(from + 1)
    else EmailIndex(users, email, from + 1)
  }

  /** The statusless error a violated constraint raises. */
  const ConstraintViolation: Fault := Other("constraint violation")

  /** `GraphUser.create`: the email column is unique. */
  function InsertUser(db: Db, u: User): (r: Result<(Db, nat), Fault>)
    ensures r.Success? <==> forall i :: 0 <= i < |db.users| ==> db.users[i].email != u.email
    ensures r.Success? ==> r.value.0 == db.(users := db.users + [u]) && r.value.1 == |db.users| + 1
    ensures r.Failure? ==> r.error == ConstraintViolation
  {
    if FindUserByEmail(db, u.email).Some? then Failure(ConstraintViolation)
    else Success((db.(users := db.users + [u]), |db.users| + 1))
  }

  /** `GraphTokenTransaction.create`: the user and the performer must exist. */
  function InsertLedger(db: Db, row: LedgerRow): (r: Result<Db, Fault>)
    ensures r.Success? <==> IsUser(db, row.user) && (row.performer.Some? ==> IsUser(db, row.performer.value))
    ensures r.Success? ==> r.value == db.(ledger := db.ledger + [row])
    ensures r.Failure? ==> r.error == ConstraintViolation
  {
    if IsUser(db, row.user) && (row.performer.Some? ==> IsUser(db, row.performer.value))
    then Success(db.(ledger := db.ledger + [row]))
    else Failure(ConstraintViolation)
  }

  /** `GraphModel.create`: the owner must exist and (owner, name) is unique. */
  function InsertModel(db: Db, m: Model): (r: Result<(Db, nat), Fault>)
    ensures r.Success? <==> (IsUser(db, m.owner) &&
      forall i :: 0 <= i < |db.models| ==> !(db.models[i].owner == m.owner && db.models[i].name == m.name))
    ensures r.Success? ==> r.value.0 == db.(models := db.models + [m]) && r.value.1 == |db.models| + 1
    ensures r.Failure? ==> r.error == ConstraintViolation
  {
    if IsUser(db, m.owner) && forall i :: 0 <= i < |db.models| ==> !(db.models[i].owner == m.owner && db.models[i].name == m.name)
    then Success((db.(models := db.models + [m]), |db.models| + 1))
    else Failure(ConstraintViolation)
  }

  /** `GraphVersion.create`: model and creator must exist and (model, number) is unique. */
  function InsertVersion(db: Db, v: Version): (r: Result<(Db, nat), Fault>)
    ensures r.Success? <==> (IsModel(db, v.model) && IsUser(db, v.creator) &&
      forall i :: 0 <= i < |db.versions| ==> !(db.versions[i].model == v.model && db.versions[i].number == v.number))
    ensures r.Success? ==> r.value.0 == db.(versions := db.versions + [v]) && r.value.1 == |db.versions| + 1
    ensures r.Failure? ==> r.error == ConstraintViolation
  {
    if IsModel(db, v.model) && IsUser(db, v.creator) &&
      forall i :: 0 <= i < |db.versions| ==> !(db.versions[i].model == v.model && db.versions[i].number == v.number)
    then Success((db.(versions := db.versions + [v]), |db.versions| + 1))
    else Failure(ConstraintViolation)
  }

  /** Inserting a request: model and requester must exist. */
  function InsertRequest(db: Db, q: Request): (r: Result<(Db, nat), Fault>)
    ensures r.Success? <==> IsModel(db, q.model) && IsUser(db, q.requester)
    ensures r.Success? ==> r.value.0 == db.(requests := db.requests + [q]) && r.value.1 == |db.requests| + 1
    ensures r.Failure? ==> r.error == ConstraintViolation
  {
    if IsModel(db, q.model) && IsUser(db, q.requester)
    then Success((db.(requests := db.requests + [q]), |db.requests| + 1))
    else Failure(ConstraintViolation)
  }

  /** `GraphSimulation.create`: model and user must exist. */
  function InsertSimulation(db: Db, s: Simulation): (r: Result<(Db, nat), Fault>)
    ensures r.Success? <==> IsModel(db, s.model) && IsUser(db, s.user)
    ensures r.Success? ==> r.value.0 == db.(simulations := db.simulations + [s]) && r.value.1 == |db.simulations| + 1
    ensures r.Failure? ==> r.error == ConstraintViolation
  {
    if IsModel(db, s.model) && IsUser(db, s.user)
    then Success((db.(simulations := db.simulations + [s]), |db.simulations| + 1))
    else Failure(ConstraintViolation)
  }

  /**
    `GraphSimulationResult.create`: the simulation must exist, and the cost
    column is a NOT NULL DECIMAL(12,4), which holds neither NULL nor the
    `Infinity` an unreachable goal reports (`None` here).
  */
  function InsertSimRow(db: Db, row: SimRow): (r: Result<Db, Fault>)
    ensures r.Success? <==> IsSimulation(db, row.simulation) && row.cost.Some?
    ensures r.Success? ==> r.value == db.(simRows := db.simRows + [row])
    ensures r.Failure? ==> r.error == ConstraintViolation
  {
    if IsSimulation(db, row.simulation) && row.cost.Some? then Success(db.(simRows := db.simRows + [row]))
    else Failure(ConstraintViolation)
  }

  /** `GraphUser.update({ tokens_user }, { where: { id_user } })`: the new state and the affected-row count. */
  function UpdateTokens(db: Db, id: int, tokens: int): (r: (Db, nat))
    ensures IsUser(db, id) ==> r.1 == 1 && r.0 == db.(users := db.users[id - 1 := db.users[id - 1].(tokens := tokens)])
    ensures !IsUser(db, id) ==> r.1 == 0 && r.0 == db
  {
    if IsUser(db, id) then (db.(users := db.users[id - 1 := db.users[id - 1].(tokens := tokens)]), 1)
    else (db, 0)
  }

  /** `GraphModel.update({ current_version_model }, { where: { id_model } })`. */
  function UpdatePointer(db: Db, id: int, current: int): (r: (Db, nat))
    ensures IsModel(db, id) ==> r.1 == 1 && r.0 == db.(models := db.models[id - 1 := db.models[id - 1].(current := current)])
    ensures !IsModel(db, id) ==> r.1 == 0 && r.0 == db
  {
    if IsModel(db, id) then (db.(models := db.models[id - 1 := db.models[id - 1].(current := current)]), 1)
    else (db, 0)
  }

  /** The version numbers a model has, in insertion order. */
  function NumbersOf(vs: seq<Version>, m: nat): seq<int> {
    if |vs| == 0 then []
    else NumbersOf(vs[..|vs| - 1], m) + (if vs[|vs| - 1].model == m then [vs[|vs| - 1].number] else [])
  }

  /** `[1, 2, ..., n]`. */
  function Iota(n: nat): seq<int> {
    seq(n, k requires 0 <= k < n => k + 1)
  }

  lemma {:induction false} NumbersOfMember(vs: seq<Version>, m: nat, n: int)
    ensures n in NumbersOf(vs, m) <==> exists i :: 0 <= i < |vs| && vs[i].model == m && vs[i].number == n
    decreases |vs|
  {
    if |vs| > 0 {
      var init := vs[..|vs| - 1];
      NumbersOfMember(init, m, n);
      if exists i :: 0 <= i < |vs| && vs[i].model == m && vs[i].number == n {
        var i :| 0 <= i < |vs| && vs[i].model == m && vs[i].number == n;
        if i < |vs| - 1 {
          assert init[i] == vs[i];
        }
      }
      if exists i :: 0 <= i < |init| && init[i].model == m && init[i].number == n {
        var i :| 0 <= i < |init| && init[i].model == m && init[i].number == n;
        assert vs[i] == init[i];
      }
    }
  }

  /**
    The database invariant: balances are non-negative two-decimal amounts,
    each ledger row's diff is new minus prev, every foreign key names a row,
    each model's versions are numbered 1..current in insertion order (so the
    pointer is both the newest and the largest number), and each version's
    stored counts describe its stored graph.
  */
  predicate Valid(db: Db) {
    (forall i :: 0 <= i < |db.users| ==> db.users[i].tokens >= 0 && IsFixed2(db.users[i].tokens))
    && (forall k :: 0 <= k < |db.ledger| ==>
          db.ledger[k].diff == db.ledger[k].next - db.ledger[k].prev
          && IsUser(db, db.ledger[k].user)
          && (db.ledger[k].performer.Some? ==> IsUser(db, db.ledger[k].performer.value)))
    && (forall m :: 0 <= m < |db.models| ==>
          IsUser(db, db.models[m].owner) && db.models[m].current >= 1
          && NumbersOf(db.versions, m + 1) == Iota(db.models[m].current))
    && (forall v :: 0 <= v < |db.versions| ==>
          IsModel(db, db.versions[v].model) && IsUser(db, db.versions[v].creator)
          && db.versions[v].nodeCount == |db.versions[v].graph|
          && db.versions[v].edgeCount == EdgeCount(db.versions[v].graph))
    && (forall q :: 0 <= q < |db.requests| ==>
          IsModel(db, db.requests[q].model) && IsUser(db, db.requests[q].requester))
    && (forall s :: 0 <= s < |db.simulations| ==>
          IsModel(db, db.simulations[s].model) && IsUser(db, db.simulations[s].user))
    && (forall k :: 0 <= k < |db.simRows| ==> IsSimulation(db, db.simRows[k].simulation))
  }

  /**
    Under the invariant every version of model `m` is numbered between 1 and
    the pointer, and the pointer's number is present.
  */
  lemma {:induction false} VersionsUpToPointer(db: Db, m: nat)
    requires Valid(db) && IsModel(db, m)
    ensures forall i :: 0 <= i < |db.versions| && db.versions[i].model == m ==>
      1 <= db.versions[i].number <= ModelAt(db, m).current
    ensures exists i :: 0 <= i < |db.versions| && db.versions[i].model == m && db.versions[i].number == ModelAt(db, m).current
  {
    var c := ModelAt(db, m).current;
    assert NumbersOf(db.versions, m) == Iota(c);
    forall i | 0 <= i < |db.versions| && db.versions[i].model == m
      ensures 1 <= db.versions[i].number <= c
    {
      NumbersOfMember(db.versions, m, db.versions[i].number);
    }
    assert Iota(c)[c - 1] == c;
    NumbersOfMember(db.versions, m, c);
  }

  lemma {:induction false} ValidEmpty()
    ensures Valid(Empty)
  {
  }
}
