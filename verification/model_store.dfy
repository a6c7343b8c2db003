/**
  The model and version store: the DAOs src/dao/model.dao.ts (current) and
  src/dao/ModelDao.ts (draft) and the repositories
  src/repository/model.repository.ts and src/repository/ModelRepository.ts.

  The two generations differ in two ways. The current DAO turns an insert
  failure into GENERIC_ERROR 500 and an invalid id into a BAD_REQUEST
  `ErrorObj`, while the draft DAO lets the driver error through and throws a
  plain 400. The current repository takes the highest-numbered version as the
  latest one; the draft repository follows the model's pointer first.
*/
module ModelStore {
  import opened Wrappers
  import opened Fixed
  import opened Graphs
  import opened ApiError
  import opened Store

  /** Which copy of a duplicated file is meant: kebab-case (`Current`) or PascalCase (`Draft`). */
  datatype Generation = Current | Draft

  /** `findModelByPk`: a non-finite id is rejected with 400 before the lookup. */
  function FindModelByPk(db: Db, gen: Generation, id: Num): (r: Result<Option<Model>, Fault>)
    ensures id.NonFinite? <==> r.Failure?
    ensures r.Failure? ==> r.error.HasStatus(400)
    ensures r.Failure? && gen == Current ==> r.error == Raise(BadRequestError, "Invalid model id", 400)
    ensures r.Failure? && gen == Draft ==> r.error == Plain(400, "Invalid model id")
    ensures r.Success? ==> r.value == FindModel(db, id.value)
  {
    match id
    case NonFinite =>
      if gen == Current then Failure(Raise(BadRequestError, "Invalid model id", 400))
      else Failure(Plain(400, "Invalid model id"))
    case Finite(n) => Success(FindModel(db, n))
  }

  /** Position of the first version row of model `m` numbered `n`. */
  function VersionIndex(vs: seq<Version>, m: int, n: int): (k: Option<nat>)
    ensures k.Some? ==> k.value < |vs| && vs[k.value].model == m && vs[k.value].number == n
    ensures k.Some? ==> forall i :: 0 <= i < k.value ==> !(vs[i].model == m && vs[i].number == n)
    ensures k.None? <==> forall i :: 0 <= i < |vs| ==> !(vs[i].model == m && vs[i].number == n)
  {
    if |vs| == 0 then None
    else if vs[0].model == m && vs[0].number == n then Some(0)
    else match VersionIndex(vs[1..], m, n)
      case Some(k) => Some(k + 1)
      case None => None
  }

  /**
    Position of the row `ORDER BY version_number DESC LIMIT 1` returns for
    model `m`: a row with the largest number, the first of them on a tie.
  */
  function LatestIndex(vs: seq<Version>, m: int): (k: Option<nat>)
    ensures k.Some? ==> k.value < |vs| && vs[k.value].model == m
    ensures k.Some? ==> forall i :: 0 <= i < |vs| && vs[i].model == m ==> vs[i].number <= vs[k.value].number
    ensures k.Some? ==> forall i :: 0 <= i < k.value && vs[i].model == m ==> vs[i].number < vs[k.value].number
    ensures k.None? <==> forall i :: 0 <= i < |vs| ==> vs[i].model != m
  {
    if |vs| == 0 then None
    else
      var rest := LatestIndex(vs[1..], m);
      if vs[0].model != m then
        match rest
        case Some(k) => Some(k + 1)
        case None => None
      else if rest.Some? && vs[rest.value + 1].number > vs[0].number then Some(rest.value + 1)
      else Some(0)
  }

  /** `findVersion(modelId, version)`: the row with exactly that model and number, or null. */
  function FindVersion(db: Db, m: int, n: int): (v: Option<Version>)
    ensures v.Some? ==> v.value.model == m && v.value.number == n && v.value in db.versions
    ensures v.None? <==> forall i :: 0 <= i < |db.versions| ==> !(db.versions[i].model == m && db.versions[i].number == n)
  {
    match VersionIndex(db.versions, m, n)
    case Some(k) => Some(db.versions[k])
    case None => None
  }

  /** `findLatestVersion(modelId)`: the model's highest-numbered version, or null. */
  function FindLatestVersion(db: Db, m: int): (v: Option<Version>)
    ensures v.Some? ==> v.value.model == m && v.value in db.versions
    ensures v.Some? ==> forall i :: 0 <= i < |db.versions| && db.versions[i].model == m ==> db.versions[i].number <= v.value.number
    ensures v.None? <==> forall i :: 0 <= i < |db.versions| ==> db.versions[i].model != m
  {
    match LatestIndex(db.versions, m)
    case Some(k) => Some(db.versions[k])
    case None => None
  }

  /** `createModel`: the current DAO maps any insert failure to GENERIC_ERROR 500. */
  function CreateModel(db: Db, gen: Generation, m: Model): (r: Result<(Db, nat), Fault>)
    ensures r.Success? <==> InsertModel(db, m).Success?
    ensures r.Success? ==> r.value == InsertModel(db, m).value
    ensures r.Failure? && gen == Current ==> r.error == Raise(GenericError, "Error creating model", 500)
    ensures r.Failure? && gen == Draft ==> r.error == InsertModel(db, m).error
  {
    match InsertModel(db, m)
    case Success(x) => Success(x)
    case Failure(e) => if gen == Current then Failure(Raise(GenericError, "Error creating model", 500)) else Failure(e)
  }

  /** `createVersion`: the same error policy as `createModel`. */
  function CreateVersion(db: Db, gen: Generation, v: Version): (r: Result<(Db, nat), Fault>)
    ensures r.Success? <==> InsertVersion(db, v).Success?
    ensures r.Success? ==> r.value == InsertVersion(db, v).value
    ensures r.Failure? && gen == Current ==> r.error == Raise(GenericError, "Error creating version", 500)
    ensures r.Failure? && gen == Draft ==> r.error == InsertVersion(db, v).error
  {
    match InsertVersion(db, v)
    case Success(x) => Success(x)
    case Failure(e) => if gen == Current then Failure(Raise(GenericError, "Error creating version", 500)) else Failure(e)
  }

  /** What `createModelWithVersion` returns. */
  datatype Created = Created(modelId: nat, versionId: nat, createdAt: int)

  /** The arguments of `createModelWithVersion`. */
  datatype NewModel = NewModel(owner: nat, name: string, description: Option<string>, versionNumber: int,
                               graph: Graph, nodeCount: int, edgeCount: int, alpha: Option<int>)

  /**
    `createModelWithVersion`: a model row whose pointer is the given version
    number, then that version, created by the owner, inside the caller's
    transaction (an error discards both rows).
  */
  function CreateModelWithVersion(db: Db, gen: Generation, a: NewModel, now: int): (r: Result<(Db, Created), Fault>)
    ensures r.Success? ==> r.value.1 == Created(|db.models| + 1, |db.versions| + 1, now)
    ensures r.Success? ==> r.value.0 == db.(
      models := db.models + [Model(a.owner, a.name, a.description, a.versionNumber, now)],
      versions := db.versions + [Version(|db.models| + 1, a.versionNumber, a.graph, a.nodeCount, a.edgeCount, a.alpha, a.owner, now)])
    ensures (forall i :: 0 <= i < |db.versions| ==> db.versions[i].model <= |db.models|) ==>
      (r.Success? <==> (IsUser(db, a.owner)
        && forall i :: 0 <= i < |db.models| ==> !(db.models[i].owner == a.owner && db.models[i].name == a.name)))
  {
    var (db1, modelId) :- CreateModel(db, gen, Model(a.owner, a.name, a.description, a.versionNumber, now));
    var (db2, versionId) :- CreateVersion(db1, gen, Version(modelId, a.versionNumber, a.graph, a.nodeCount, a.edgeCount, a.alpha, a.owner, now));
    Success((db2, Created(modelId, versionId, now)))
  }

  /** `getLatestVersion`: null for a missing model, otherwise the generation's latest-version policy. */
  function GetLatestVersion(db: Db, gen: Generation, id: Num): (r: Result<Option<Version>, Fault>)
    ensures r.Failure? <==> id.NonFinite?
    ensures r.Failure? ==> r.error == FindModelByPk(db, gen, id).error
    ensures r.Success? && !IsModel(db, id.value) ==> r.value.None?
    ensures r.Success? && r.value.Some? ==> r.value.value.model == id.value && r.value.value in db.versions
    ensures r.Success? && gen == Current && IsModel(db, id.value) ==> r.value == FindLatestVersion(db, id.value)
    ensures r.Success? && gen == Draft && IsModel(db, id.value) ==>
      r.value == if FindVersion(db, id.value, ModelAt(db, id.value).current).Some?
                 then FindVersion(db, id.value, ModelAt(db, id.value).current)
                 else FindLatestVersion(db, id.value)
  {
    var model :- FindModelByPk(db, gen, id);
    match model
    case None => Success(None)
    case Some(m) =>
      if gen == Current then Success(FindLatestVersion(db, id.value))
      else
        var v := FindVersion(db, id.value, m.current);
        if v.Some? then Success(v) else Success(FindLatestVersion(db, id.value))
  }

  /** `getModel`: `findModelByPk` of the generation's DAO. */
  function GetModel(db: Db, gen: Generation, id: Num): (r: Result<Option<Model>, Fault>)
    ensures r.Failure? <==> id.NonFinite?
    ensures r.Success? ==> (r.value.Some? <==> IsModel(db, id.value))
    ensures r.Success? && r.value.Some? ==> r.value.value == ModelAt(db, id.value)
  {
    FindModelByPk(db, gen, id)
  }

  /**
    Under the invariant both latest-version policies find the same row: the
    version numbered by the model's pointer, which is also the largest number.
  */
  lemma {:induction false} LatestPoliciesAgree(db: Db, m: nat)
    requires Valid(db)
    ensures GetLatestVersion(db, Current, Finite(m)) == GetLatestVersion(db, Draft, Finite(m))
    ensures IsModel(db, m) ==>
      GetLatestVersion(db, Current, Finite(m)).value.Some? &&
      GetLatestVersion(db, Current, Finite(m)).value.value.number == ModelAt(db, m).current
    ensures !IsModel(db, m) ==> GetLatestVersion(db, Current, Finite(m)) == Success(None)
  {
    if IsModel(db, m) {
      var c := ModelAt(db, m).current;
      VersionsUpToPointer(db, m);
      var k := LatestIndex(db.versions, m).value;
      var j := VersionIndex(db.versions, m, c).value;
      assert db.versions[k].number == c;
      assert j == k;
    }
  }

  /**
    Creating a model with version 1 and its builder counts keeps the invariant:
    the pointer and the only version number agree.
  */
  lemma {:induction false} CreateModelWithVersionValid(db: Db, gen: Generation, a: NewModel, now: int)
    requires Valid(db)
    requires a.versionNumber == 1 && a.nodeCount == |a.graph| && a.edgeCount == EdgeCount(a.graph)
    requires CreateModelWithVersion(db, gen, a, now).Success?
    ensures Valid(CreateModelWithVersion(db, gen, a, now).value.0)
  {
    var (db', c) := CreateModelWithVersion(db, gen, a, now).value;
    var v := db'.versions[|db.versions|];
    assert db'.versions[..|db'.versions| - 1] == db.versions;
    forall m | 0 <= m < |db'.models|
      ensures NumbersOf(db'.versions, m + 1) == Iota(db'.models[m].current)
    {
      if m < |db.models| {
        assert NumbersOf(db'.versions, m + 1) == NumbersOf(db.versions, m + 1);
      } else {
        NoNumbersForFreshModel(db.versions, m + 1);
        assert Iota(1) == [1];
      }
    }
  }

  /** A model no version row points at has no version numbers. */
  lemma {:induction false} NoNumbersForFreshModel(vs: seq<Version>, m: nat)
    requires forall i :: 0 <= i < |vs| ==> vs[i].model != m
    ensures NumbersOf(vs, m) == []
    decreases |vs|
  {
    if |vs| > 0 {
      NoNumbersForFreshModel(vs[..|vs| - 1], m);
    }
  }
}
