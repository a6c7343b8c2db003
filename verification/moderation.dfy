/**
  Weight-change moderation: anyone may propose a new weight for one edge of
  a model; the model's owner approves the proposal, which blends it into the
  current weight and records the result as a new version, or rejects it.

  The DAO is src/dao/weight-change.dao.ts, the repositories are
  src/repository/weight-change.repository.ts and its copy
  src/repository/WeightChangeRepository.ts, the services are
  src/service/weight-change.service.ts and its copy
  src/service/WeightChangeService.ts, and the ownership gate is
  `assertOwner` of src/controller/weight-change.controller.ts. The copies
  differ in which model DAO and repository they use, which is the
  `Generation` parameter here; in the error factory they import, which makes
  no difference because every call passes both overrides
  (`ApiError.OverriddenErrorsAgree`); and in the weight-change DAO: the
  PascalCase copies go through a `WeightChangeDao` that is not part of this
  model and is taken to behave like src/dao/weight-change.dao.ts. The
  smoothing factor `graphAlphaKey` is a configuration value and is a
  parameter, in hundredths.
*/
module Moderation {
  import opened Wrappers
  import opened Fixed
  import opened Graphs
  import opened ApiError
  import opened Store
  import opened ModelStore
  import opened Sorting

  // ----- The request DAO -----

  /** `WeightChangeDao.create`: the suggested weight is stored as DECIMAL(10,2). */
  function CreateRequestRow(db: Db, q: Request): (r: Result<(Db, nat), Fault>)
    ensures r.Success? <==> IsModel(db, q.model) && IsUser(db, q.requester)
    ensures r.Success? ==> r.value.1 == |db.requests| + 1
    ensures r.Success? ==> r.value.0 == db.(requests := db.requests + [q.(weight := Round2(q.weight))])
    ensures r.Failure? ==> r.error == ConstraintViolation
  {
    InsertRequest(db, q.(weight := Round2(q.weight)))
  }

  /** The optional filters of `WeightChangeDao.list`. */
  datatype RequestFilter = RequestFilter(status: Option<Status>, fromDate: Option<int>, toDate: Option<int>)

  /** The `where` clause of `list`: the model, and every filter given, all ANDed. */
  predicate RequestMatches(q: Request, modelId: int, f: RequestFilter) {
    && q.model == modelId
    && (f.status.Some? ==> q.status == f.status.value)
    && (f.fromDate.Some? ==> q.createdAt >= f.fromDate.value)
    && (f.toDate.Some? ==> q.createdAt <= f.toDate.value)
  }

  /**
    `list(modelId, filters)`: the ids of exactly the matching requests, each
    once, newest first.
  */
  method ListRequests(db: Db, modelId: int, f: RequestFilter) returns (r: seq<nat>)
    ensures forall id :: id in r <==> IsRequest(db, id) && RequestMatches(RequestAt(db, id), modelId, f)
    ensures forall i, j :: 0 <= i < j < |r| ==> r[i] != r[j]
    ensures forall i, j :: 0 <= i < j < |r| ==>
      IsRequest(db, r[i]) && IsRequest(db, r[j]) && RequestAt(db, r[i]).createdAt >= RequestAt(db, r[j]).createdAt
  {
    var ok, keys := RequestFlags(db.requests, modelId, f), RequestTimes(db.requests);
    r := OrderByDesc(ok, keys);
    RequestListing(db, modelId, f, ok, keys, r);
  }

  /** The sorted selection over the request columns, read back as statements about the requests. */
  lemma {:induction false} RequestListing(db: Db, modelId: int, f: RequestFilter, ok: seq<bool>, keys: seq<int>, r: seq<nat>)
    requires ok == RequestFlags(db.requests, modelId, f) && keys == RequestTimes(db.requests)
    requires Selects(r, ok) && OrderedBy(r, keys)
    ensures forall id :: id in r <==> IsRequest(db, id) && RequestMatches(RequestAt(db, id), modelId, f)
    ensures forall i, j :: 0 <= i < j < |r| ==>
      IsRequest(db, r[i]) && IsRequest(db, r[j]) && RequestAt(db, r[i]).createdAt >= RequestAt(db, r[j]).createdAt
  {
    forall id
      ensures id in r <==> IsRequest(db, id) && RequestMatches(RequestAt(db, id), modelId, f)
    {
      if IsRequest(db, id) {
        assert ok[id - 1] == RequestMatches(db.requests[id - 1], modelId, f);
      }
    }
    forall i, j | 0 <= i < j < |r|
      ensures RequestAt(db, r[i]).createdAt >= RequestAt(db, r[j]).createdAt
    {
      assert keys[r[i] - 1] == db.requests[r[i] - 1].createdAt;
      assert keys[r[j] - 1] == db.requests[r[j] - 1].createdAt;
    }
  }

  /** The outcome of the `where` clause for each request, in id order. */
  function RequestFlags(rs: seq<Request>, modelId: int, f: RequestFilter): (ok: seq<bool>)
    ensures |ok| == |rs|
    ensures forall i :: 0 <= i < |rs| ==> ok[i] == RequestMatches(rs[i], modelId, f)
  {
    seq(|rs|, i requires 0 <= i < |rs| => RequestMatches(rs[i], modelId, f))
  }

  /** The `createdAt` column, in id order. */
  function RequestTimes(rs: seq<Request>): (keys: seq<int>)
    ensures |keys| == |rs|
    ensures forall i :: 0 <= i < |rs| ==> keys[i] == rs[i].createdAt
  {
    seq(|rs|, i requires 0 <= i < |rs| => rs[i].createdAt)
  }

  /** `approve(requestId)`: `UPDATE ... SET status = approved WHERE id = requestId AND status = pending`. */
  function ApproveRow(db: Db, id: int): (r: (Db, nat))
    ensures r.1 <= 1
    ensures r.1 == 1 <==> IsRequest(db, id) && RequestAt(db, id).status == Pending
    ensures r.1 == 1 ==> r.0 == db.(requests := db.requests[id - 1 := RequestAt(db, id).(status := Approved)])
    ensures r.1 == 0 ==> r.0 == db
  {
    if IsRequest(db, id) && db.requests[id - 1].status == Pending
    then (db.(requests := db.requests[id - 1 := db.requests[id - 1].(status := Approved)]), 1)
    else (db, 0)
  }

  /** `reject(requestId, reason)`: the same conditional update, also storing the reason. */
  function RejectRow(db: Db, id: int, reason: string): (r: (Db, nat))
    ensures r.1 <= 1
    ensures r.1 == 1 <==> IsRequest(db, id) && RequestAt(db, id).status == Pending
    ensures r.1 == 1 ==>
      r.0 == db.(requests := db.requests[id - 1 := RequestAt(db, id).(status := Rejected, rejection := Some(reason))])
    ensures r.1 == 0 ==> r.0 == db
  {
    if IsRequest(db, id) && db.requests[id - 1].status == Pending
    then (db.(requests := db.requests[id - 1 := db.requests[id - 1].(status := Rejected, rejection := Some(reason))]), 1)
    else (db, 0)
  }

  /**
    No request goes back to pending: every request that existed before is
    still there, with the same proposal, and a decided one keeps its decision.
  */
  predicate NoReopen(db: Db, db': Db) {
    && |db.requests| <= |db'.requests|
    && forall i :: 0 <= i < |db.requests| ==>
         && db'.requests[i].(status := Pending, rejection := None) == db.requests[i].(status := Pending, rejection := None)
         && (db.requests[i].status != Pending ==> db'.requests[i] == db.requests[i])
  }

  /** Once decided, a request is out of reach of both conditional updates: it transitions at most once. */
  lemma {:induction false} DecidedIsFinal(db: Db, id: int, reason: string)
    requires IsRequest(db, id) && RequestAt(db, id).status != Pending
    ensures ApproveRow(db, id) == (db, 0)
    ensures RejectRow(db, id, reason) == (db, 0)
  {
  }

  /** Both conditional updates only ever move a request out of pending. */
  lemma {:induction false} RowUpdatesNoReopen(db: Db, id: int, reason: string)
    ensures NoReopen(db, ApproveRow(db, id).0)
    ensures NoReopen(db, RejectRow(db, id, reason).0)
  {
  }

  // ----- The repositories -----

  /** `createRequest` of both repositories: the arguments mapped one-to-one onto a pending row. */
  function CreateRequest(db: Db, modelId: nat, requester: nat, from: string, to: string, weight: int, now: int)
    : (r: Result<(Db, nat), Fault>)
    ensures r.Success? <==> IsModel(db, modelId) && IsUser(db, requester)
    ensures r.Success? ==> r.value.1 == |db.requests| + 1 && IsRequest(r.value.0, r.value.1)
    ensures r.Success? ==>
      RequestAt(r.value.0, r.value.1) == Request(modelId, requester, from, to, Round2(weight), Pending, None, now)
    ensures r.Success? ==> r.value.0 == db.(requests := r.value.0.requests) && NoReopen(db, r.value.0)
  {
    CreateRequestRow(db, Request(modelId, requester, from, to, weight, Pending, None, now))
  }

  /**
    `createNewVersionFrom`: insert version `base + 1` with the given graph,
    counts, alpha and creator, then point the model at it, both in the
    caller's transaction. The current repository writes through the current
    model DAO, the draft one through the draft DAO.
  */
  function CreateNewVersionFrom(db: Db, gen: Generation, modelId: nat, base: int, g: Graph, nodeCount: int,
                                edgeCount: int, alpha: Option<int>, creator: nat, now: int): (r: Result<Db, Fault>)
    ensures r.Success? <==> (IsModel(db, modelId) && IsUser(db, creator)
      && forall i :: 0 <= i < |db.versions| ==> !(db.versions[i].model == modelId && db.versions[i].number == base + 1))
    ensures r.Success? ==> r.value.versions == db.versions + [Version(modelId, base + 1, g, nodeCount, edgeCount, alpha, creator, now)]
    ensures r.Success? ==> r.value.models == db.models[modelId - 1 := ModelAt(db, modelId).(current := base + 1)]
    ensures r.Success? ==> r.value == db.(versions := r.value.versions, models := r.value.models)
    ensures r.Failure? && gen == Current ==> r.error == Raise(GenericError, "Error creating version", 500)
    ensures r.Failure? && gen == Draft ==> r.error == ConstraintViolation
  {
    var (db1, _) :- CreateVersion(db, gen, Version(modelId, base + 1, g, nodeCount, edgeCount, alpha, creator, now));
    Success(UpdatePointer(db1, modelId, base + 1).0)
  }

  // ----- The services -----

  /**
    `requestWeightChange`: the model must have a latest version whose graph
    has a truthy weight on from→to; the proposal is stored rounded to two
    decimals. There is no ownership check.
  */
  function RequestWeightChange(db: Db, gen: Generation, modelId: Num, from: string, to: string, weight: int,
                               requester: nat, now: int): (r: Result<(Db, nat), Fault>)
    ensures modelId.NonFinite? ==> r.Failure? && r.error.HasStatus(400)
    ensures modelId.Finite? && GetLatestVersion(db, gen, modelId).value.None? ==>
      r == Failure(Raise(NotFoundError, "Model not found", 404))
    ensures (modelId.Finite? && GetLatestVersion(db, gen, modelId).value.Some?
             && !HasTruthyEdge(GetLatestVersion(db, gen, modelId).value.value.graph, from, to)) ==>
      r == Failure(Raise(BadRequestError, "Edge not found in graph", 400))
    ensures r.Success? ==> (modelId.Finite? && IsModel(db, modelId.value)
      && GetLatestVersion(db, gen, modelId).value.Some?
      && HasTruthyEdge(GetLatestVersion(db, gen, modelId).value.value.graph, from, to)
      && r == CreateRequest(db, modelId.value, requester, from, to, Round2(weight), now))
  {
    var latest :- GetLatestVersion(db, gen, modelId);
    if latest.None? then Failure(Raise(NotFoundError, "Model not found", 404))
    else if !HasTruthyEdge(latest.value.graph, from, to) then Failure(Raise(BadRequestError, "Edge not found in graph", 400))
    else CreateRequest(db, modelId.value, requester, from, to, Round2(weight), now)
  }

  /** What approval returns: the edge, the weight before and after, and the alpha used. */
  datatype Approval = Approval(from: string, to: string, previous: int, next: int, alpha: int)

  /** The pending check approval and rejection share. */
  predicate PendingFor(db: Db, requestId: int, modelId: Num) {
    IsRequest(db, requestId) && modelId.Finite? && RequestAt(db, requestId).model == modelId.value
    && RequestAt(db, requestId).status == Pending
  }

  /**
    `approveRequest`: inside one transaction, find the model's latest
    version, check the request, and hand over to the write.
  */
  function ApproveRequest(db: Db, gen: Generation, modelId: Num, requestId: int, approver: nat, alpha: int, now: int)
    : (r: Result<(Db, Approval), Fault>)
    ensures modelId.NonFinite? ==> r.Failure? && r.error.HasStatus(400)
    ensures modelId.Finite? && GetLatestVersion(db, gen, modelId).value.None? ==>
      r == Failure(Raise(NotFoundError, "Model not found", 404))
    ensures modelId.Finite? && GetLatestVersion(db, gen, modelId).value.Some? && !PendingFor(db, requestId, modelId) ==>
      r == Failure(Raise(NotFoundError, "Request not found or already processed", 404))
    ensures modelId.Finite? && GetLatestVersion(db, gen, modelId).value.Some? && PendingFor(db, requestId, modelId) ==>
      r == ApproveEdge(db, gen, modelId.value, GetLatestVersion(db, gen, modelId).value.value, requestId, approver, alpha, now)
  {
    var latest :- GetLatestVersion(db, gen, modelId);
    if latest.None? then Failure(Raise(NotFoundError, "Model not found", 404))
    else if !PendingFor(db, requestId, modelId) then Failure(Raise(NotFoundError, "Request not found or already processed", 404))
    else ApproveEdge(db, gen, modelId.value, latest.value, requestId, approver, alpha, now)
  }

  /**
    The write of `approveRequest`: the edge must exist in the latest graph;
    the new weight is the rounded blend of the current and the proposed
    weight; the graph with that one weight replaced becomes version
    `base + 1`; then the request is conditionally approved.
  */
  function ApproveEdge(db: Db, gen: Generation, modelId: nat, base: Version, requestId: int, approver: nat, alpha: int, now: int)
    : (r: Result<(Db, Approval), Fault>)
    requires IsRequest(db, requestId) && RequestAt(db, requestId).status == Pending
    ensures Weight(base.graph, RequestAt(db, requestId).from, RequestAt(db, requestId).to).None? ==>
      r == Failure(Raise(BadRequestError, "Edge not found in graph", 400))
    ensures r.Failure? ==> !r.error.HasStatus(409)
    ensures r.Success? ==>
      var q := RequestAt(db, requestId);
      && Weight(base.graph, q.from, q.to).Some?
      && r.value.1 == Approval(q.from, q.to, Weight(base.graph, q.from, q.to).value,
                               Ema2(Weight(base.graph, q.from, q.to).value, q.weight, alpha), alpha)
    ensures r.Success? ==> r.value.0.versions == db.versions + [Version(modelId, base.number + 1,
      SetWeight(base.graph, r.value.1.from, r.value.1.to, r.value.1.next),
      |SetWeight(base.graph, r.value.1.from, r.value.1.to, r.value.1.next)|,
      EdgeCount(SetWeight(base.graph, r.value.1.from, r.value.1.to, r.value.1.next)), Some(alpha), approver, now)]
    ensures r.Success? ==> (IsModel(db, modelId) && IsUser(db, approver)
      && r.value.0.models == db.models[modelId - 1 := ModelAt(db, modelId).(current := base.number + 1)])
    ensures r.Success? ==> r.value.0.requests == db.requests[requestId - 1 := RequestAt(db, requestId).(status := Approved)]
    ensures r.Success? ==> r.value.0 == db.(versions := r.value.0.versions, models := r.value.0.models, requests := r.value.0.requests)
  {
    var q := RequestAt(db, requestId);
    var prev := Weight(base.graph, q.from, q.to);
    if prev.None? then Failure(Raise(BadRequestError, "Edge not found in graph", 400))
    else
      var next := Ema2(prev.value, q.weight, alpha);
      var g := SetWeight(base.graph, q.from, q.to, next);
      var w := CreateNewVersionFrom(db, gen, modelId, base.number, g, |g|, EdgeCount(g), Some(alpha), approver, now);
      if w.Failure? then Failure(w.error)
      else
        assert w.value.requests == db.requests;
        var (db2, n) := ApproveRow(w.value, requestId);
        if n != 1 then Failure(Raise(GenericError, "Failed to approve request", 409))
        else Success((db2, Approval(q.from, q.to, prev.value, next, alpha)))
  }

  /**
    `rejectRequest`: inside one transaction, the same pending check, then the
    conditional reject. No version is written. A non-numeric model id never
    equals the request's model, so it gives 404.
  */
  function RejectRequest(db: Db, modelId: Num, requestId: int, reason: string): (r: Result<Db, Fault>)
    ensures !PendingFor(db, requestId, modelId) ==>
      r == Failure(Raise(NotFoundError, "Request not found or already processed", 404))
    ensures r.Failure? ==> !r.error.HasStatus(409)
    ensures r.Success? <==> PendingFor(db, requestId, modelId)
    ensures r.Success? ==>
      r.value == db.(requests := db.requests[requestId - 1 := RequestAt(db, requestId).(status := Rejected, rejection := Some(reason))])
  {
    if !PendingFor(db, requestId, modelId) then Failure(Raise(NotFoundError, "Request not found or already processed", 404))
    else
      var (db1, n) := RejectRow(db, requestId, reason);
      if n != 1 then Failure(Raise(GenericError, "Failed to reject request", 409))
      else Success(db1)
  }

  /** The optional filters of `listVersions`. */
  datatype VersionFilter = VersionFilter(fromDate: Option<int>, toDate: Option<int>, nodeCount: Option<int>, edgeCount: Option<int>)

  /** The `where` clause of `listVersions`, all ANDed. */
  predicate VersionMatches(v: Version, modelId: int, f: VersionFilter) {
    && v.model == modelId
    && (f.fromDate.Some? ==> v.createdAt >= f.fromDate.value)
    && (f.toDate.Some? ==> v.createdAt <= f.toDate.value)
    && (f.nodeCount.Some? ==> v.nodeCount == f.nodeCount.value)
    && (f.edgeCount.Some? ==> v.edgeCount == f.edgeCount.value)
  }

  /** `listVersions`: the ids of exactly the matching versions, each once, highest number first. */
  method ListVersions(db: Db, modelId: int, f: VersionFilter) returns (r: seq<nat>)
    ensures forall id :: id in r <==> 1 <= id <= |db.versions| && VersionMatches(db.versions[id - 1], modelId, f)
    ensures forall i, j :: 0 <= i < j < |r| ==> r[i] != r[j]
    ensures forall i, j :: 0 <= i < j < |r| ==>
      1 <= r[i] <= |db.versions| && 1 <= r[j] <= |db.versions| && db.versions[r[i] - 1].number >= db.versions[r[j] - 1].number
  {
    var ok, keys := VersionFlags(db.versions, modelId, f), VersionNumbers(db.versions);
    r := OrderByDesc(ok, keys);
    VersionListing(db, modelId, f, ok, keys, r);
  }

  /** The sorted selection over the version columns, read back as statements about the versions. */
  lemma {:induction false} VersionListing(db: Db, modelId: int, f: VersionFilter, ok: seq<bool>, keys: seq<int>, r: seq<nat>)
    requires ok == VersionFlags(db.versions, modelId, f) && keys == VersionNumbers(db.versions)
    requires Selects(r, ok) && OrderedBy(r, keys)
    ensures forall id :: id in r <==> 1 <= id <= |db.versions| && VersionMatches(db.versions[id - 1], modelId, f)
    ensures forall i, j :: 0 <= i < j < |r| ==>
      1 <= r[i] <= |db.versions| && 1 <= r[j] <= |db.versions| && db.versions[r[i] - 1].number >= db.versions[r[j] - 1].number
  {
    forall id
      ensures id in r <==> 1 <= id <= |db.versions| && VersionMatches(db.versions[id - 1], modelId, f)
    {
      if 1 <= id <= |db.versions| {
        assert ok[id - 1] == VersionMatches(db.versions[id - 1], modelId, f);
      }
    }
    forall i, j | 0 <= i < j < |r|
      ensures 1 <= r[i] <= |db.versions| && 1 <= r[j] <= |db.versions| && db.versions[r[i] - 1].number >= db.versions[r[j] - 1].number
    {
      assert keys[r[i] - 1] == db.versions[r[i] - 1].number;
      assert keys[r[j] - 1] == db.versions[r[j] - 1].number;
    }
  }

  /** The outcome of the `where` clause for each version, in id order. */
  function VersionFlags(vs: seq<Version>, modelId: int, f: VersionFilter): (ok: seq<bool>)
    ensures |ok| == |vs|
    ensures forall i :: 0 <= i < |vs| ==> ok[i] == VersionMatches(vs[i], modelId, f)
  {
    seq(|vs|, i requires 0 <= i < |vs| => VersionMatches(vs[i], modelId, f))
  }

  /** The `version_number` column, in id order. */
  function VersionNumbers(vs: seq<Version>): (keys: seq<int>)
    ensures |keys| == |vs|
    ensures forall i :: 0 <= i < |vs| ==> keys[i] == vs[i].number
  {
    seq(|vs|, i requires 0 <= i < |vs| => vs[i].number)
  }

  // ----- The controller's ownership gate -----

  /** `assertOwner`: the model must exist (404) and belong to the caller (401). */
  function AssertOwner(db: Db, modelId: Num, user: nat): (r: Result<(), Fault>)
    ensures r.Success? <==> modelId.Finite? && IsModel(db, modelId.value) && ModelAt(db, modelId.value).owner == user
    ensures modelId.NonFinite? ==> r == Failure(Raise(BadRequestError, "Invalid model id", 400))
    ensures modelId.Finite? && !IsModel(db, modelId.value) ==> r == Failure(Raise(NotFoundError, "Model not found", 404))
    ensures modelId.Finite? && IsModel(db, modelId.value) && ModelAt(db, modelId.value).owner != user ==>
      r == Failure(Raise(UnauthorizedError, "Not model owner", 401))
  {
    var model :- FindModelByPk(db, Current, modelId);
    if model.None? then Failure(Raise(NotFoundError, "Model not found", 404))
    else if model.value.owner != user then Failure(Raise(UnauthorizedError, "Not model owner", 401))
    else Success(())
  }

  /** The controller's `approve`: the ownership gate, then the current service. */
  function ApproveAsOwner(db: Db, modelId: Num, requestId: int, user: nat, alpha: int, now: int)
    : (r: Result<(Db, Approval), Fault>)
    ensures AssertOwner(db, modelId, user).Failure? ==> r == Failure(AssertOwner(db, modelId, user).error)
    ensures AssertOwner(db, modelId, user).Success? ==> r == ApproveRequest(db, Current, modelId, requestId, user, alpha, now)
    ensures r.Success? ==> modelId.Finite? && IsModel(db, modelId.value) && ModelAt(db, modelId.value).owner == user
  {
    var _ :- AssertOwner(db, modelId, user);
    ApproveRequest(db, Current, modelId, requestId, user, alpha, now)
  }

  /** The controller's `reject`: the ownership gate, then the service. */
  function RejectAsOwner(db: Db, modelId: Num, requestId: int, user: nat, reason: string): (r: Result<Db, Fault>)
    ensures AssertOwner(db, modelId, user).Failure? ==> r == Failure(AssertOwner(db, modelId, user).error)
    ensures AssertOwner(db, modelId, user).Success? ==> r == RejectRequest(db, modelId, requestId, reason)
    ensures r.Success? ==> modelId.Finite? && IsModel(db, modelId.value) && ModelAt(db, modelId.value).owner == user
  {
    var _ :- AssertOwner(db, modelId, user);
    RejectRequest(db, modelId, requestId, reason)
  }

  // ----- Properties -----

  /** Appending a version adds its number to its own model's list and to no other. */
  lemma {:induction false} NumbersOfAppend(vs: seq<Version>, v: Version, m: nat)
    ensures NumbersOf(vs + [v], m) == NumbersOf(vs, m) + (if v.model == m then [v.number] else [])
  {
    assert (vs + [v])[..|vs|] == vs;
  }

  /**
    Appending version `current + 1` of an existing model, with counts that
    match its graph, and moving the pointer to it keeps the invariant.
  */
  lemma {:induction false} AppendVersionValid(db: Db, db': Db, v: Version)
    requires Valid(db) && IsModel(db, v.model) && IsUser(db, v.creator)
    requires v.number == ModelAt(db, v.model).current + 1
    requires v.nodeCount == |v.graph| && v.edgeCount == EdgeCount(v.graph)
    requires db' == db.(versions := db.versions + [v],
                        models := db.models[v.model - 1 := ModelAt(db, v.model).(current := v.number)])
    ensures Valid(db')
  {
    forall k | 0 <= k < |db'.models|
      ensures NumbersOf(db'.versions, k + 1) == Iota(db'.models[k].current)
    {
      NumbersOfAppend(db.versions, v, k + 1);
      if k + 1 == v.model {
        assert Iota(v.number) == Iota(v.number - 1) + [v.number];
      }
    }
    forall i | 0 <= i < |db'.versions|
      ensures IsModel(db', db'.versions[i].model) && IsUser(db', db'.versions[i].creator)
    {
      if i < |db.versions| {
        assert db'.versions[i] == db.versions[i];
      }
    }
  }

  /** The database a successful new version leaves behind, as one record update. */
  lemma {:induction false} NewVersionShape(db: Db, gen: Generation, m: nat, c: int, g: Graph, alpha: Option<int>, creator: nat, now: int)
    requires IsModel(db, m) && IsUser(db, creator)
    requires forall i :: 0 <= i < |db.versions| && db.versions[i].model == m ==> db.versions[i].number <= c
    ensures CreateNewVersionFrom(db, gen, m, c, g, |g|, EdgeCount(g), alpha, creator, now).Success?
    ensures CreateNewVersionFrom(db, gen, m, c, g, |g|, EdgeCount(g), alpha, creator, now).value
      == db.(versions := db.versions + [Version(m, c + 1, g, |g|, EdgeCount(g), alpha, creator, now)],
             models := db.models[m - 1 := ModelAt(db, m).(current := c + 1)])
  {
  }

  /**
    On a valid database, recording version `current + 1` of an existing model
    by an existing user succeeds and keeps the invariant.
  */
  lemma {:induction false} NewVersionValid(db: Db, gen: Generation, m: nat, g: Graph, alpha: Option<int>, creator: nat, now: int, r: Result<Db, Fault>)
    requires Valid(db) && IsModel(db, m) && IsUser(db, creator)
    requires r == CreateNewVersionFrom(db, gen, m, ModelAt(db, m).current, g, |g|, EdgeCount(g), alpha, creator, now)
    ensures r.Success? && Valid(r.value)
  {
    var c := ModelAt(db, m).current;
    VersionsUpToPointer(db, m);
    NewVersionShape(db, gen, m, c, g, alpha, creator, now);
    AppendVersionValid(db, r.value, Version(m, c + 1, g, |g|, EdgeCount(g), alpha, creator, now));
  }


  /** Replacing a request by one with the same model and requester keeps the invariant. */
  lemma {:induction false} SetRequestValid(db: Db, db': Db, id: int, q: Request)
    requires Valid(db) && IsRequest(db, id)
    requires q.model == RequestAt(db, id).model && q.requester == RequestAt(db, id).requester
    requires db' == db.(requests := db.requests[id - 1 := q])
    ensures Valid(db')
  {
  }

  /**
    The write of an approval goes through when the approver exists, the edge
    has a weight in `base` and no version of the model is numbered above
    `base`: neither the version insert nor the conditional approve refuses.
  */
  lemma {:induction false} ApproveEdgeSucceeds(db: Db, gen: Generation, m: nat, base: Version, requestId: int, approver: nat, alpha: int,
                            now: int, r: Result<(Db, Approval), Fault>)
    requires IsModel(db, m) && IsUser(db, approver)
    requires IsRequest(db, requestId) && RequestAt(db, requestId).status == Pending
    requires Weight(base.graph, RequestAt(db, requestId).from, RequestAt(db, requestId).to).Some?
    requires forall i :: 0 <= i < |db.versions| && db.versions[i].model == m ==> db.versions[i].number <= base.number
    requires r == ApproveEdge(db, gen, m, base, requestId, approver, alpha, now)
    ensures r.Success?
  {
  }

  /** A successful write of an approval keeps the invariant when `base` is the model's current version. */
  lemma {:induction false} ApproveEdgeValid(db: Db, gen: Generation, m: nat, base: Version, requestId: int, approver: nat, alpha: int,
                         now: int, r: Result<(Db, Approval), Fault>)
    requires Valid(db) && IsModel(db, m) && base.number == ModelAt(db, m).current
    requires IsRequest(db, requestId) && RequestAt(db, requestId).status == Pending
    requires r == ApproveEdge(db, gen, m, base, requestId, approver, alpha, now) && r.Success?
    ensures Valid(r.value.0)
  {
    var a := r.value.1;
    var g := SetWeight(base.graph, a.from, a.to, a.next);
    var v := Version(m, base.number + 1, g, |g|, EdgeCount(g), Some(alpha), approver, now);
    var db1 := db.(versions := db.versions + [v], models := db.models[m - 1 := ModelAt(db, m).(current := v.number)]);
    AppendVersionValid(db, db1, v);
    SetRequestValid(db1, r.value.0, requestId, RequestAt(db, requestId).(status := Approved));
  }

  /**
    On a valid database, an approval succeeds exactly when the model id is
    numeric and names a model, the request is pending for that model, the
    approver exists, and the request's edge has a weight in the latest graph.
  */
  lemma {:induction false} ApproveSucceeds(db: Db, gen: Generation, modelId: Num, requestId: int, approver: nat, alpha: int, now: int,
                        r: Result<(Db, Approval), Fault>)
    requires Valid(db)
    requires r == ApproveRequest(db, gen, modelId, requestId, approver, alpha, now)
    ensures r.Success? <==> (modelId.Finite? && IsModel(db, modelId.value) && PendingFor(db, requestId, modelId)
      && IsUser(db, approver) && GetLatestVersion(db, gen, modelId).value.Some?
      && Weight(GetLatestVersion(db, gen, modelId).value.value.graph,
                RequestAt(db, requestId).from, RequestAt(db, requestId).to).Some?)
  {
    if modelId.Finite? && IsModel(db, modelId.value) {
      var m := modelId.value;
      LatestPoliciesAgree(db, m);
      VersionsUpToPointer(db, m);
      var base := GetLatestVersion(db, gen, modelId).value.value;
      if PendingFor(db, requestId, modelId) && IsUser(db, approver)
         && Weight(base.graph, RequestAt(db, requestId).from, RequestAt(db, requestId).to).Some? {
        ApproveEdgeSucceeds(db, gen, m, base, requestId, approver, alpha, now, r);
      }
    }
  }

  // ----- Approval with the smoothing factor unset -----

  /**
    The checks `approveRequest` passes before it writes: a latest version, a
    request pending for the model, and a weight on the request's edge.
  */
  predicate ReadyToApprove(db: Db, gen: Generation, modelId: Num, requestId: int) {
    && modelId.Finite? && GetLatestVersion(db, gen, modelId).Success?
    && GetLatestVersion(db, gen, modelId).value.Some? && PendingFor(db, requestId, modelId)
    && Weight(GetLatestVersion(db, gen, modelId).value.value.graph,
              RequestAt(db, requestId).from, RequestAt(db, requestId).to).Some?
  }

  /**
    What the version insert raises when `alpha_used_version`, a DECIMAL(3,2),
    is given the text "undefined": PostgreSQL refuses it as invalid numeric
    input before any key is checked. The current model DAO wraps that as
    its usual 500; the draft DAO passes the driver error on.
  */
  function AlphaRefused(gen: Generation): (f: Fault)
    ensures gen == Current ==> f.HasStatus(500)
  {
    if gen == Current then Raise(GenericError, "Error creating version", 500)
    else Other("invalid input syntax for type numeric")
  }

  /**
    `approveRequest` as the code stands: `environment.graphAlphaKey` is not
    one of the settings the configuration object defines, so alpha is
    `undefined`, the blend is NaN and the version row carries the alpha
    `String(undefined)`. The checks before the write are unchanged.
  */
  function ApproveUnconfigured(db: Db, gen: Generation, modelId: Num, requestId: int, approver: nat, now: int)
    : (r: Result<(Db, Approval), Fault>)
    ensures r.Failure?
  {
    var latest :- GetLatestVersion(db, gen, modelId);
    if latest.None? then Failure(Raise(NotFoundError, "Model not found", 404))
    else if !PendingFor(db, requestId, modelId) then Failure(Raise(NotFoundError, "Request not found or already processed", 404))
    else if Weight(latest.value.graph, RequestAt(db, requestId).from, RequestAt(db, requestId).to).None? then
      Failure(Raise(BadRequestError, "Edge not found in graph", 400))
    else Failure(AlphaRefused(gen))
  }

  /**
    With alpha unset no request can be approved: wherever the approval with
    a configured alpha stops before its write, the unset one stops with the
    same error, and wherever it reaches the write, the unset one fails there,
    although on a valid database with an existing approver the configured
    one succeeds for every alpha.
  */
  lemma {:induction false} UnconfiguredNeverApproves(db: Db, gen: Generation, modelId: Num, requestId: int, approver: nat,
                                  alpha: int, now: int)
    ensures ApproveUnconfigured(db, gen, modelId, requestId, approver, now).Failure?
    ensures !ReadyToApprove(db, gen, modelId, requestId) ==>
      ApproveUnconfigured(db, gen, modelId, requestId, approver, now) == ApproveRequest(db, gen, modelId, requestId, approver, alpha, now)
    ensures ReadyToApprove(db, gen, modelId, requestId) ==>
      ApproveUnconfigured(db, gen, modelId, requestId, approver, now) == Failure(AlphaRefused(gen))
    ensures Valid(db) && ReadyToApprove(db, gen, modelId, requestId) && IsUser(db, approver) ==>
      ApproveRequest(db, gen, modelId, requestId, approver, alpha, now).Success?
  {
    var r := ApproveRequest(db, gen, modelId, requestId, approver, alpha, now);
    if Valid(db) {
      ApproveSucceeds(db, gen, modelId, requestId, approver, alpha, now, r);
    }
  }

  /**
    A successful approval appends one version of the model, numbered one
    above the latest, moves the model's pointer to it, marks the request
    approved, reopens nothing and leaves users and ledger alone.
  */
  lemma {:induction false} ApproveRequestEffects(db: Db, gen: Generation, modelId: Num, requestId: int, approver: nat, alpha: int, now: int,
                              r: Result<(Db, Approval), Fault>)
    requires r == ApproveRequest(db, gen, modelId, requestId, approver, alpha, now) && r.Success?
    ensures NoReopen(db, r.value.0)
    ensures IsRequest(r.value.0, requestId) && RequestAt(r.value.0, requestId).status == Approved
    ensures modelId.Finite? && IsModel(db, modelId.value) && IsModel(r.value.0, modelId.value)
    ensures GetLatestVersion(db, gen, modelId).value.Some?
    ensures ModelAt(r.value.0, modelId.value).current == GetLatestVersion(db, gen, modelId).value.value.number + 1
    ensures |r.value.0.versions| == |db.versions| + 1
    ensures r.value.0.versions[|db.versions|].model == modelId.value
    ensures r.value.0.versions[|db.versions|].number == ModelAt(r.value.0, modelId.value).current
    ensures r.value.0.users == db.users && r.value.0.ledger == db.ledger
  {
  }

  /** On a valid database a successful approval keeps the invariant and moves the pointer exactly one up. */
  lemma {:induction false} ApproveRequestValid(db: Db, gen: Generation, modelId: Num, requestId: int, approver: nat, alpha: int, now: int,
                            r: Result<(Db, Approval), Fault>)
    requires Valid(db)
    requires r == ApproveRequest(db, gen, modelId, requestId, approver, alpha, now) && r.Success?
    ensures Valid(r.value.0)
    ensures modelId.Finite? && IsModel(db, modelId.value) && IsModel(r.value.0, modelId.value)
    ensures ModelAt(r.value.0, modelId.value).current == ModelAt(db, modelId.value).current + 1
  {
    var m := modelId.value;
    LatestPoliciesAgree(db, m);
    var base := GetLatestVersion(db, gen, modelId).value.value;
    ApproveEdgeValid(db, gen, m, base, requestId, approver, alpha, now, r);
  }

  /**
    The graph an approval records differs from the latest graph in the
    weight of the request's edge alone, which becomes the blended value;
    node count, edge count and cost are unchanged.
  */
  lemma {:induction false} ApprovedGraph(db: Db, gen: Generation, modelId: Num, requestId: int, approver: nat, alpha: int, now: int,
                      r: Result<(Db, Approval), Fault>, g: Graph, g': Graph)
    requires r == ApproveRequest(db, gen, modelId, requestId, approver, alpha, now) && r.Success?
    requires modelId.Finite? && GetLatestVersion(db, gen, modelId).value.Some?
    requires g == GetLatestVersion(db, gen, modelId).value.value.graph
    requires |r.value.0.versions| > |db.versions| && g' == r.value.0.versions[|db.versions|].graph
    ensures Weight(g', r.value.1.from, r.value.1.to) == Some(r.value.1.next)
    ensures forall x, y :: !(x == r.value.1.from && y == r.value.1.to) ==> Weight(g', x, y) == Weight(g, x, y)
    ensures Weight(g, r.value.1.from, r.value.1.to) == Some(r.value.1.previous)
    ensures |g'| == |g| && EdgeCount(g') == EdgeCount(g) && Build(Some(g')).cost == Build(Some(g)).cost
  {
    var a := r.value.1;
    assert g' == SetWeight(g, a.from, a.to, a.next);
    forall x, y
      ensures Weight(g', x, y) == if x == a.from && y == a.to then Some(a.next) else Weight(g, x, y)
    {
      SetWeightLookup(g, a.from, a.to, a.next, x, y);
    }
    SetWeightKeepsCounts(g, a.from, a.to, a.next);
  }

  /**
    The recorded weight is the rounded blend of the old and the proposed
    weight; with a smoothing factor strictly between 0 and 1 the blend lies
    between them, strictly when they differ.
  */
  lemma {:induction false} ApproveBlends(db: Db, gen: Generation, modelId: Num, requestId: int, approver: nat, alpha: int, now: int,
                      r: Result<(Db, Approval), Fault>)
    requires r == ApproveRequest(db, gen, modelId, requestId, approver, alpha, now) && r.Success?
    requires 0 < alpha < 100
    ensures IsRequest(db, requestId)
    ensures r.value.1.next == Ema2(r.value.1.previous, RequestAt(db, requestId).weight, alpha)
    ensures 100 * Min(r.value.1.previous, RequestAt(db, requestId).weight)
      <= Blend(r.value.1.previous, RequestAt(db, requestId).weight, alpha)
      <= 100 * Max(r.value.1.previous, RequestAt(db, requestId).weight)
    ensures r.value.1.previous != RequestAt(db, requestId).weight ==>
      100 * Min(r.value.1.previous, RequestAt(db, requestId).weight)
      < Blend(r.value.1.previous, RequestAt(db, requestId).weight, alpha)
      < 100 * Max(r.value.1.previous, RequestAt(db, requestId).weight)
  {
    BlendBetween(r.value.1.previous, RequestAt(db, requestId).weight, alpha);
  }

  /**
    A request transitions at most once: after a successful approval, a second
    approval and a rejection of the same request both fail with 404.
  */
  lemma {:induction false} ApprovedIsFinal(db: Db, gen: Generation, modelId: Num, requestId: int, approver: nat, alpha: int, now: int,
                        r: Result<(Db, Approval), Fault>, gen2: Generation, approver2: nat, alpha2: int, now2: int,
                        reason: string)
    requires r == ApproveRequest(db, gen, modelId, requestId, approver, alpha, now) && r.Success?
    ensures ApproveRequest(r.value.0, gen2, modelId, requestId, approver2, alpha2, now2).Failure?
    ensures ApproveRequest(r.value.0, gen2, modelId, requestId, approver2, alpha2, now2).error.HasStatus(404)
    ensures RejectRequest(r.value.0, modelId, requestId, reason)
      == Failure(Raise(NotFoundError, "Request not found or already processed", 404))
  {
    ApproveRequestEffects(db, gen, modelId, requestId, approver, alpha, now, r);
  }

  /** After a successful rejection, an approval and a second rejection of the same request both fail with 404. */
  lemma {:induction false} RejectedIsFinal(db: Db, modelId: Num, requestId: int, reason: string, r: Result<Db, Fault>,
                        gen: Generation, approver: nat, alpha: int, now: int, reason2: string)
    requires r == RejectRequest(db, modelId, requestId, reason) && r.Success?
    ensures ApproveRequest(r.value, gen, modelId, requestId, approver, alpha, now).Failure?
    ensures ApproveRequest(r.value, gen, modelId, requestId, approver, alpha, now).error.HasStatus(404)
    ensures RejectRequest(r.value, modelId, requestId, reason2)
      == Failure(Raise(NotFoundError, "Request not found or already processed", 404))
  {
  }

  /**
    A successful rejection keeps the invariant, records the decision and
    the reason on that request only, reopens nothing and writes no version.
  */
  lemma {:induction false} RejectRequestValid(db: Db, modelId: Num, requestId: int, reason: string, r: Result<Db, Fault>)
    requires Valid(db)
    requires r == RejectRequest(db, modelId, requestId, reason) && r.Success?
    ensures Valid(r.value) && NoReopen(db, r.value)
    ensures IsRequest(r.value, requestId) && RequestAt(r.value, requestId).status == Rejected
    ensures RequestAt(r.value, requestId).rejection == Some(reason)
    ensures r.value.versions == db.versions && r.value.models == db.models
  {
    SetRequestValid(db, r.value, requestId, RequestAt(db, requestId).(status := Rejected, rejection := Some(reason)));
  }

  /** Adding a request on an existing model by an existing user keeps the invariant. */
  lemma {:induction false} AddRequestValid(db: Db, db': Db, q: Request)
    requires Valid(db) && IsModel(db, q.model) && IsUser(db, q.requester)
    requires db' == db.(requests := db.requests + [q])
    ensures Valid(db')
  {
  }

  /**
    On a valid database a proposal is stored exactly when the model id is
    numeric and names a model whose latest graph has a truthy weight on the
    edge, and the requester exists; the new row is pending, nothing is
    reopened and the invariant holds afterwards.
  */
  lemma {:induction false} RequestWeightChangeValid(db: Db, gen: Generation, modelId: Num, from: string, to: string, weight: int,
                                 requester: nat, now: int, r: Result<(Db, nat), Fault>)
    requires Valid(db)
    requires r == RequestWeightChange(db, gen, modelId, from, to, weight, requester, now)
    ensures r.Success? <==> (modelId.Finite? && IsModel(db, modelId.value) && IsUser(db, requester)
      && GetLatestVersion(db, gen, modelId).value.Some?
      && HasTruthyEdge(GetLatestVersion(db, gen, modelId).value.value.graph, from, to))
    ensures r.Success? ==> Valid(r.value.0) && NoReopen(db, r.value.0)
    ensures r.Success? ==> IsRequest(r.value.0, r.value.1) && RequestAt(r.value.0, r.value.1).status == Pending
  {
    if r.Success? {
      var q := Request(modelId.value, requester, from, to, Round2(Round2(weight)), Pending, None, now);
      AddRequestValid(db, r.value.0, q);
    }
  }

  /**
    Proposing needs no ownership: on a one-model database owned by user 1,
    user 2 proposes a weight for an existing edge and the proposal is
    stored, pending and rounded.
  */
  lemma {:induction false} AnyoneMayPropose()
    ensures var db := Db([User("a@x", "p", UserRole, 0), User("b@x", "p", UserRole, 0)], [],
                         [Model(1, "m", None, 1, 0)],
                         [Version(1, 1, [Node("a", [Edge("b", 10000)])], 1, 1, None, 1, 0)], [], [], []);
      var r := RequestWeightChange(db, Current, Finite(1), "a", "b", 20049, 2, 5);
      && ModelAt(db, 1).owner != 2
      && r.Success?
      && RequestAt(r.value.0, r.value.1) == Request(1, 2, "a", "b", 20000, Pending, None, 5)
  {
  }

  /** The two repositories' approval writes succeed together and then write the same rows. */
  lemma {:induction false} ApproveEdgeGenerations(db: Db, m: nat, base: Version, requestId: int, approver: nat, alpha: int, now: int)
    requires IsRequest(db, requestId) && RequestAt(db, requestId).status == Pending
    ensures ApproveEdge(db, Current, m, base, requestId, approver, alpha, now).Success?
      == ApproveEdge(db, Draft, m, base, requestId, approver, alpha, now).Success?
    ensures ApproveEdge(db, Current, m, base, requestId, approver, alpha, now).Success? ==>
      ApproveEdge(db, Current, m, base, requestId, approver, alpha, now).value
      == ApproveEdge(db, Draft, m, base, requestId, approver, alpha, now).value
  {
  }

  /**
    On a valid database the current and the draft service approve the same
    requests with the same outcome; only their error values differ.
  */
  lemma {:induction false} ApproveGenerationsAgree(db: Db, m: nat, requestId: int, approver: nat, alpha: int, now: int)
    requires Valid(db)
    ensures ApproveRequest(db, Current, Finite(m), requestId, approver, alpha, now).Success?
      == ApproveRequest(db, Draft, Finite(m), requestId, approver, alpha, now).Success?
    ensures ApproveRequest(db, Current, Finite(m), requestId, approver, alpha, now).Success? ==>
      ApproveRequest(db, Current, Finite(m), requestId, approver, alpha, now).value
      == ApproveRequest(db, Draft, Finite(m), requestId, approver, alpha, now).value
  {
    LatestPoliciesAgree(db, m);
    var latest := GetLatestVersion(db, Current, Finite(m)).value;
    if latest.Some? && PendingFor(db, requestId, Finite(m)) {
      ApproveEdgeGenerations(db, m, latest.value, requestId, approver, alpha, now);
    }
  }

  /** On a valid database both services store a proposal identically. */
  lemma {:induction false} RequestGenerationsAgree(db: Db, m: nat, from: string, to: string, weight: int, requester: nat, now: int)
    requires Valid(db)
    ensures RequestWeightChange(db, Current, Finite(m), from, to, weight, requester, now)
      == RequestWeightChange(db, Draft, Finite(m), from, to, weight, requester, now)
  {
    LatestPoliciesAgree(db, m);
  }
}
