/**
  The what-if sweep over one edge's weight: `RangeSimulation.execute`
  (src/service/simulation/range-simulation.ts), the facade that records it
  (src/service/simulation/simulation-facade.ts) and the service entry point
  `simulateEdge` (src/service/simulation.service.ts).

  Sweep bounds and weights are in ten-thousandths, so the loop's
  `w + step` re-rounded with `toFixed(10)` is exact and the `1e-9` slack
  of its guard vanishes: sample `k` tries the weight `start + k * step`.
  The shortest-path search is the `PathFinder` parameter; the sweep is
  proved relative to whatever it returns.
*/
module Simulation {
  import opened Wrappers
  import opened Fixed
  import opened Graphs
  import opened ApiError
  import opened Store
  import opened ModelStore

  /** What `execute` reads of its arguments; the bounds are `Number(...)` of what the caller passed. */
  datatype SweepArgs = SweepArgs(start: Num, stop: Num, step: Num, base: Graph,
                                 from: string, to: string, origin: string, goal: string)

  /** One sample of the sweep; a `cost` of `None` is the `Infinity` reported when no route exists. */
  datatype SimResult = SimResult(weight: int, path: seq<string>, cost: Option<int>)

  /** All three bounds are numbers; otherwise `execute` returns no samples. */
  predicate Numeric(a: SweepArgs) {
    a.start.Finite? && a.stop.Finite? && a.step.Finite?
  }

  /**
    The loop has no guard on the step: with numeric bounds, `start <= stop`
    and `step <= 0` it never ends. Callers must not ask for that.
  */
  predicate Terminates(a: SweepArgs) {
    Numeric(a) && a.start.value <= a.stop.value ==> a.step.value > 0
  }

  /** How many `w = start, start + step, ...` stay at or below `stop`. */
  function SampleCount(start: int, stop: int, step: int): (n: nat)
    requires step > 0
    ensures start <= stop ==> n >= 1
  {
    if stop < start then 0 else (stop - start) / step + 1
  }

  lemma {:induction false} MulMonotone(a: int, b: int, c: int)
    requires a <= b && c >= 0
    ensures a * c <= b * c
  {
    MulNonNeg(b - a, c);
  }

  /** The count is exact: sample `k` is taken exactly when `k` is below it. */
  lemma {:induction false} SampleCountExact(start: int, stop: int, step: int, k: nat)
    requires step > 0
    ensures start + k * step <= stop <==> k < SampleCount(start, stop, step)
  {
    if stop < start {
      MulNonNeg(k, step);
    } else {
      var n := (stop - start) / step;
      assert stop - start == n * step + (stop - start) % step;
      if k <= n {
        MulMonotone(k, n, step);
      } else {
        MulMonotone(n + 1, k, step);
      }
    }
  }

  /** The copy of the base graph one sample searches: only `graph[from][to]` is replaced. */
  function SampleGraph(a: SweepArgs, w: int): Graph {
    SetWeight(a.base, a.from, a.to, Round2(w))
  }

  /** One loop iteration's result: the rounded weight, the route found, or `[]` and `Infinity`. */
  function Sample(a: SweepArgs, finder: PathFinder, w: int): (s: SimResult)
    ensures IsFixed2(s.weight)
  {
    match finder(SampleGraph(a, w), a.origin, a.goal)
    case None => SimResult(Round2(w), [], None)
    case Some(route) => SimResult(Round2(w), route.path, Some(route.cost))
  }

  /**
    The sweep in closed form, the reference `Execute` is proved against:
    nothing for non-numeric bounds or an empty range, the `TypeError` of
    `g[from][to] = ...` when the base graph has no row `from`, and otherwise
    sample `k` at weight `start + k * step` for every `k` below the count.
  */
  function Expected(a: SweepArgs, finder: PathFinder): Result<seq<SimResult>, Fault>
    requires Terminates(a)
  {
    if !Numeric(a) || a.stop.value < a.start.value then Success([])
    else if Row(a.base, a.from).None? then Failure(Other("TypeError"))
    else
      var start, stop, step := a.start.value, a.stop.value, a.step.value;
      Success(seq(SampleCount(start, stop, step), k requires 0 <= k => Sample(a, finder, start + k * step)))
  }

  /** `RangeSimulation.execute`: the sampling loop. */
  method Execute(a: SweepArgs, finder: PathFinder) returns (r: Result<seq<SimResult>, Fault>)
    requires Terminates(a)
    ensures r == Expected(a, finder)
  {
    if !Numeric(a) {
      return Success([]);
    }
    var start, stop, step := a.start.value, a.stop.value, a.step.value;
    var results: seq<SimResult> := [];
    var w := start;
    while w <= stop
      invariant w == start + |results| * step
      invariant |results| > 0 ==> start <= stop && Row(a.base, a.from).Some?
      invariant start <= stop ==> |results| <= SampleCount(start, stop, step)
      invariant forall k :: 0 <= k < |results| ==> results[k] == Sample(a, finder, start + k * step)
      decreases stop - w
    {
      if Row(a.base, a.from).None? {
        return Failure(Other("TypeError"));
      }
      SampleCountExact(start, stop, step, |results|);
      results := results + [Sample(a, finder, w)];
      w := w + step;
    }
    if start <= stop {
      SampleCountExact(start, stop, step, |results|);
      ExpectedIs(a, finder, results);
    }
    r := Success(results);
  }

  /** A list of the right length whose every entry is the matching sample is the sweep's result. */
  lemma {:induction false} ExpectedIs(a: SweepArgs, finder: PathFinder, rs: seq<SimResult>)
    requires Numeric(a) && a.start.value <= a.stop.value && a.step.value > 0 && Row(a.base, a.from).Some?
    requires |rs| == SampleCount(a.start.value, a.stop.value, a.step.value)
    requires forall k :: 0 <= k < |rs| ==> rs[k] == Sample(a, finder, a.start.value + k * a.step.value)
    ensures Expected(a, finder) == Success(rs)
  {
    var start, stop, step := a.start.value, a.stop.value, a.step.value;
    var e := seq(SampleCount(start, stop, step), k requires 0 <= k => Sample(a, finder, start + k * step));
    assert Expected(a, finder) == Success(e);
    assert |e| == |rs|;
    assert forall k :: 0 <= k < |rs| ==> e[k] == rs[k];
    assert e == rs;
  }

  /** A non-numeric bound yields no samples, whatever the graph. */
  lemma {:induction false} NonNumericSweepIsEmpty(a: SweepArgs, finder: PathFinder)
    requires !Numeric(a)
    ensures Terminates(a) && Expected(a, finder) == Success([])
  {
  }

  /**
    With numeric bounds and a base graph that has the row `from`, the sweep
    tries `start, start + step, ...` up to `stop`, in ascending order, each
    sample on the base graph with only `from -> to` set to the rounded
    weight; a graph without the row fails exactly when there is a sample.
  */
  lemma {:induction false} SweepSamples(a: SweepArgs, finder: PathFinder, rs: seq<SimResult>)
    requires Numeric(a) && a.step.value > 0
    requires Expected(a, finder) == Success(rs)
    ensures |rs| == SampleCount(a.start.value, a.stop.value, a.step.value)
    ensures forall k :: 0 <= k < |rs| ==> a.start.value + k * a.step.value <= a.stop.value
    ensures forall k :: 0 <= k < |rs| ==> rs[k].weight == Round2(a.start.value + k * a.step.value)
    ensures forall i, j :: 0 <= i < j < |rs| ==> rs[i].weight <= rs[j].weight
    ensures forall k :: 0 <= k < |rs| ==>
      var g := SampleGraph(a, a.start.value + k * a.step.value);
      && (finder(g, a.origin, a.goal).None? ==> rs[k].path == [] && rs[k].cost.None?)
      && (finder(g, a.origin, a.goal).Some? ==>
            rs[k].path == finder(g, a.origin, a.goal).value.path && rs[k].cost == Some(finder(g, a.origin, a.goal).value.cost))
  {
    var start, stop, step := a.start.value, a.stop.value, a.step.value;
    forall k | 0 <= k < |rs|
      ensures start + k * step <= stop
    {
      SampleCountExact(start, stop, step, k);
    }
    forall i, j | 0 <= i < j < |rs|
      ensures rs[i].weight <= rs[j].weight
    {
      MulMonotone(i, j, step);
      Round2Monotone(start + i * step, start + j * step);
    }
  }

  /** A base graph without the row `from` makes a non-empty sweep throw. */
  lemma {:induction false} MissingRowThrows(a: SweepArgs, finder: PathFinder)
    requires Numeric(a) && a.step.value > 0 && a.start.value <= a.stop.value
    requires Row(a.base, a.from).None?
    ensures Expected(a, finder) == Failure(Other("TypeError"))
  {
  }

  /**
    Each sample's graph differs from the base graph in the one weight
    `from -> to`, which reads the rounded sample weight; the base graph
    itself is a value and is never changed.
  */
  lemma {:induction false} SampleGraphOnlyChangesEdge(a: SweepArgs, w: int, x: string, y: string)
    ensures Weight(SampleGraph(a, w), x, y) == if x == a.from && y == a.to then Some(Round2(w)) else Weight(a.base, x, y)
    ensures Weight(a.base, a.from, a.to).Some? ==> |SampleGraph(a, w)| == |a.base| && EdgeCount(SampleGraph(a, w)) == EdgeCount(a.base)
  {
    SetWeightLookup(a.base, a.from, a.to, Round2(w), x, y);
    if Weight(a.base, a.from, a.to).Some? {
      SetWeightKeepsCounts(a.base, a.from, a.to, Round2(w));
    }
  }

  // ----- Best result -----

  /** `r.cost < b.cost`, with `None` standing for `Infinity`. */
  predicate Cheaper(r: Option<int>, b: Option<int>) {
    r.Some? && (b.None? || r.value < b.value)
  }

  /** Entry `k` is cheaper than the seed `b` and than every entry before it. */
  predicate FirstCheaper(b: SimResult, rs: seq<SimResult>, k: int) {
    0 <= k < |rs| && Cheaper(rs[k].cost, b.cost) && forall j :: 0 <= j < k ==> Cheaper(rs[k].cost, rs[j].cost)
  }

  /** Entry `k` is a minimum, and every entry before it costs strictly more. */
  predicate FirstMinimum(rs: seq<SimResult>, k: int) {
    && 0 <= k < |rs|
    && (forall j :: 0 <= j < |rs| ==> !Cheaper(rs[j].cost, rs[k].cost))
    && (forall j :: 0 <= j < k ==> Cheaper(rs[k].cost, rs[j].cost))
  }

  /** `results.reduce((b, r) => r.cost < b.cost ? r : b, b)`. */
  function Reduce(b: SimResult, rs: seq<SimResult>): SimResult
    decreases |rs|
  {
    if |rs| == 0 then b
    else Reduce(if Cheaper(rs[0].cost, b.cost) then rs[0] else b, rs[1..])
  }

  /** `best`: the reduction seeded with `results[0]`, undefined for no results. */
  function Best(rs: seq<SimResult>): (b: Option<SimResult>)
    ensures b.Some? <==> |rs| > 0
  {
    if |rs| == 0 then None else Some(Reduce(rs[0], rs))
  }

  /**
    The reduction returns either its seed or the first entry that is cheaper
    than the seed and than everything before it; nothing is cheaper than
    what it returns.
  */
  lemma {:induction false} ReduceFirstMinimum(b: SimResult, rs: seq<SimResult>)
    ensures !Cheaper(b.cost, Reduce(b, rs).cost)
    ensures forall j :: 0 <= j < |rs| ==> !Cheaper(rs[j].cost, Reduce(b, rs).cost)
    ensures Reduce(b, rs) == b || exists k :: FirstCheaper(b, rs, k) && Reduce(b, rs) == rs[k]
    decreases |rs|
  {
    if |rs| > 0 {
      var b' := if Cheaper(rs[0].cost, b.cost) then rs[0] else b;
      var t := rs[1..];
      var r := Reduce(b', t);
      ReduceFirstMinimum(b', t);
      assert r == Reduce(b, rs);
      forall j | 1 <= j < |rs|
        ensures !Cheaper(rs[j].cost, r.cost)
      {
        assert rs[j] == t[j - 1];
      }
      if r != b' {
        var k' :| FirstCheaper(b', t, k') && r == t[k'];
        assert rs[k' + 1] == r;
        forall j | 0 <= j < k' + 1
          ensures Cheaper(r.cost, rs[j].cost)
        {
          if j > 0 {
            assert rs[j] == t[j - 1];
          }
        }
        assert FirstCheaper(b, rs, k' + 1);
      } else if r != b {
        assert FirstCheaper(b, rs, 0);
      }
    }
  }

  /**
    `best` is a result of the sweep that no other result beats, and every
    result before it costs strictly more: the FIRST minimum, because the
    comparison is strict. No results, no best.
  */
  lemma {:induction false} BestIsFirstMinimum(rs: seq<SimResult>)
    ensures Best(rs).None? <==> |rs| == 0
    ensures Best(rs).Some? ==> exists k :: FirstMinimum(rs, k) && Best(rs).value == rs[k]
  {
    if |rs| > 0 {
      ReduceFirstMinimum(rs[0], rs);
      var r := Reduce(rs[0], rs);
      if r == rs[0] {
        assert FirstMinimum(rs, 0);
      } else {
        var k :| FirstCheaper(rs[0], rs, k) && r == rs[k];
        assert FirstMinimum(rs, k);
      }
    }
  }

  /** Two samples of equal cost: the earlier one is reported. */
  lemma {:induction false} TieGoesToFirst()
    ensures Best([SimResult(100, ["a", "b"], Some(500)), SimResult(200, ["a", "c", "b"], Some(500))])
      == Some(SimResult(100, ["a", "b"], Some(500)))
    ensures Best([SimResult(100, [], None), SimResult(200, ["a", "b"], Some(900))])
      == Some(SimResult(200, ["a", "b"], Some(900)))
  {
  }

  // ----- Facade -----

  /** The parameters `simulateEdge` hands to `runSimulation`. */
  datatype SimParams = SimParams(model: nat, version: int, from: string, to: string,
                                 start: int, stop: int, step: int,
                                 base: Graph, origin: string, goal: string)

  /** What `runSimulation` returns. */
  datatype Outcome = Outcome(simulationId: nat, results: seq<SimResult>, best: Option<SimResult>)

  /** The header row `saveSimulation` writes: the parameters and the caller's id. */
  function Header(p: SimParams, userId: nat, now: int): Simulation {
    Simulation(p.model, p.version, userId, p.from, p.to, p.start, p.stop, p.step, now)
  }

  /** The sweep arguments `runSimulation` passes on. */
  function ArgsOf(p: SimParams): SweepArgs {
    SweepArgs(Finite(p.start), Finite(p.stop), Finite(p.step), p.base, p.from, p.to, p.origin, p.goal)
  }

  /** The result rows `saveSimulationResult` writes, one per result, in order. */
  function ResultRows(simId: nat, rs: seq<SimResult>): (rows: seq<SimRow>)
    ensures |rows| == |rs|
    ensures forall k :: 0 <= k < |rs| ==> rows[k].simulation == simId
    ensures forall k :: 0 <= k < |rs| ==>
      rows[k].weight == rs[k].weight && rows[k].path == rs[k].path && rows[k].cost == rs[k].cost
  {
    seq(|rs|, k requires 0 <= k < |rs| => SimRow(simId, rs[k].weight, rs[k].path, rs[k].cost))
  }

  lemma {:induction false} ResultRowsCons(simId: nat, rs: seq<SimResult>, before: seq<SimRow>)
    requires |rs| > 0
    ensures before + [SimRow(simId, rs[0].weight, rs[0].path, rs[0].cost)] + ResultRows(simId, rs[1..])
      == before + ResultRows(simId, rs)
  {
    var row := SimRow(simId, rs[0].weight, rs[0].path, rs[0].cost);
    assert ResultRows(simId, rs) == [row] + ResultRows(simId, rs[1..]) by {
      assert ResultRows(simId, rs)[1..] == ResultRows(simId, rs[1..]);
    }
  }

  /** The repository's wrapping of a failed insert, in the older error table's terms. */
  function DbFailure(msg: string): Fault {
    Api(LegacyGetError(DbError, Some(msg), Some(500)))
  }

  /** Every sample found a route, so every result has a finite cost to store. */
  predicate AllRouted(rs: seq<SimResult>) {
    forall k :: 0 <= k < |rs| ==> rs[k].cost.Some?
  }

  /**
    `saveSimulationResult` for each result in turn. The first result without
    a route stops the loop: its `Infinity` does not fit the cost column.
  */
  function SaveRows(db: Db, simId: nat, rs: seq<SimResult>): (r: Result<Db, Fault>)
    ensures r.Success? <==> |rs| == 0 || (IsSimulation(db, simId) && AllRouted(rs))
    ensures r.Success? ==> r.value == db.(simRows := db.simRows + ResultRows(simId, rs))
    ensures r.Failure? ==> r.error == DbFailure("Failed to save simulation result")
    decreases |rs|
  {
    if |rs| == 0 then
      assert db.simRows + ResultRows(simId, rs) == db.simRows;
      Success(db)
    else
      var row := SimRow(simId, rs[0].weight, rs[0].path, rs[0].cost);
      match InsertSimRow(db, row)
      case Failure(_) => Failure(DbFailure("Failed to save simulation result"))
      case Success(db1) =>
        ResultRowsCons(simId, rs, db.simRows);
        assert AllRouted(rs) <==> AllRouted(rs[1..]) by {
          forall k | 0 <= k < |rs[1..]| ensures rs[1..][k] == rs[k + 1] { }
        }
        SaveRows(db1, simId, rs[1..])
  }

  /**
    `runSimulation`: save the header, run the sweep, save one row per result
    under the header's id, and pick the best result. A sweep with a sample
    that found no route fails at that sample's row.
  */
  method RunSimulation(db: Db, p: SimParams, userId: nat, now: int, finder: PathFinder)
    returns (r: Result<(Db, Outcome), Fault>)
    requires p.start <= p.stop ==> p.step > 0
    ensures !(IsModel(db, p.model) && IsUser(db, userId)) ==> r == Failure(DbFailure("Failed to save simulation"))
    ensures r.Success? <==> (IsModel(db, p.model) && IsUser(db, userId) && Expected(ArgsOf(p), finder).Success?
      && AllRouted(Expected(ArgsOf(p), finder).value))
    ensures (IsModel(db, p.model) && IsUser(db, userId) && Expected(ArgsOf(p), finder).Success?
             && !AllRouted(Expected(ArgsOf(p), finder).value)) ==>
      r == Failure(DbFailure("Failed to save simulation result"))
    ensures r.Success? ==>
      var rs := Expected(ArgsOf(p), finder).value;
      var simId := |db.simulations| + 1;
      && r.value.1 == Outcome(simId, rs, Best(rs))
      && r.value.0 == db.(simulations := db.simulations + [Header(p, userId, now)],
                          simRows := db.simRows + ResultRows(simId, rs))
  {
    var header := InsertSimulation(db, Header(p, userId, now));
    if header.Failure? {
      return Failure(DbFailure("Failed to save simulation"));
    }
    var (db1, simId) := header.value;
    var results := Execute(ArgsOf(p), finder);
    if results.Failure? {
      return Failure(results.error);
    }
    var saved := SaveRows(db1, simId, results.value);
    if saved.Failure? {
      return Failure(saved.error);
    }
    r := Success((saved.value, Outcome(simId, results.value, Best(results.value))));
  }

  // ----- Service -----

  /** The arguments of `simulateEdge`. */
  datatype EdgeArgs = EdgeArgs(modelId: Num, from: string, to: string, start: Num, stop: Num, step: Num,
                               origin: string, goal: string)

  /**
    The range check: finite bounds, a positive step and `stop > start`. The
    bounds are read as `Number.isFinite` reads them, so an infinity is
    refused; the check as written tests `isNaN` only and lets infinities
    through (`RangeAccepted` below).
  */
  predicate ValidRange(e: EdgeArgs) {
    e.start.Finite? && e.stop.Finite? && e.step.Finite? && e.step.value > 0 && e.stop.value > e.start.value
  }

  /** The latest version of the model exists and has a truthy weight on `from -> to`. */
  predicate EdgeInLatest(db: Db, e: EdgeArgs)
    requires e.modelId.Finite?
  {
    var latest := FindLatestVersion(db, e.modelId.value);
    latest.Some? && HasTruthyEdge(latest.value.graph, e.from, e.to)
  }

  /** The parameters `simulateEdge` assembles from its arguments and the latest version. */
  function ParamsOf(e: EdgeArgs, latest: Version): SimParams
    requires e.modelId.Finite? && e.modelId.value >= 0 && ValidRange(e)
  {
    SimParams(e.modelId.value, latest.number, e.from, e.to, e.start.value, e.stop.value, e.step.value,
              latest.graph, e.origin, e.goal)
  }

  /**
    `simulateEdge`: 400 for a bad range, the model-id error of the lookup,
    404 for a missing model, 400 for an edge the current version lacks (all
    before anything is written), then the facade on the latest version.
  */
  method SimulateEdge(db: Db, e: EdgeArgs, userId: nat, now: int, finder: PathFinder)
    returns (r: Result<(Db, Outcome), Fault>)
    ensures !ValidRange(e) ==> r == Failure(Raise(BadRequestError, "Invalid simulation range", 400))
    ensures ValidRange(e) && e.modelId.NonFinite? ==> r == Failure(Raise(BadRequestError, "Invalid model id", 400))
    ensures ValidRange(e) && e.modelId.Finite? && !IsModel(db, e.modelId.value) ==>
      r == Failure(Raise(NotFoundError, "Model not found", 404))
    ensures ValidRange(e) && e.modelId.Finite? && FindLatestVersion(db, e.modelId.value).None? ==>
      r == Failure(Raise(NotFoundError, "Model not found", 404))
    ensures (ValidRange(e) && e.modelId.Finite? && IsModel(db, e.modelId.value)
             && FindLatestVersion(db, e.modelId.value).Some? && !EdgeInLatest(db, e))
      ==> r == Failure(Raise(BadRequestError, "Edge not found in graph", 400))
    ensures r.Success? <==> (
      ValidRange(e) && e.modelId.Finite? && IsModel(db, e.modelId.value) && EdgeInLatest(db, e) && IsUser(db, userId)
      && AllRouted(Expected(ArgsOf(ParamsOf(e, FindLatestVersion(db, e.modelId.value).value)), finder).value))
    ensures r.Success? ==>
      var latest := FindLatestVersion(db, e.modelId.value);
      && latest.Some? && HasTruthyEdge(latest.value.graph, e.from, e.to)
      && r.value.0.simulations == db.simulations + [Header(ParamsOf(e, latest.value), userId, now)]
      && r.value.1.results == Expected(ArgsOf(ParamsOf(e, latest.value)), finder).value
      && r.value.1.best == Best(r.value.1.results)
  {
    if !ValidRange(e) {
      return Failure(Raise(BadRequestError, "Invalid simulation range", 400));
    }
    var latest := GetLatestVersion(db, Current, e.modelId);
    if latest.Failure? {
      return Failure(latest.error);
    }
    if latest.value.None? {
      return Failure(Raise(NotFoundError, "Model not found", 404));
    }
    var v := latest.value.value;
    if !HasTruthyEdge(v.graph, e.from, e.to) {
      return Failure(Raise(BadRequestError, "Edge not found in graph", 400));
    }
    assert Row(v.graph, e.from).Some?;
    r := RunSimulation(db, ParamsOf(e, v), userId, now, finder);
  }

  /**
    Under the database invariant a model always has a latest version, the
    one its current-version column numbers, so the sweep runs on the current version and the
    header records that version's number.
  */
  lemma {:induction false} SimulatesCurrentVersion(db: Db, m: nat)
    requires Valid(db) && IsModel(db, m)
    ensures FindLatestVersion(db, m).Some?
    ensures FindLatestVersion(db, m).value.number == ModelAt(db, m).current
    ensures FindLatestVersion(db, m).value.model == m
  {
    LatestPoliciesAgree(db, m);
  }

  /** Recording a sweep keeps the database invariant. */
  lemma {:induction false} RecordValid(db: Db, h: Simulation, rs: seq<SimResult>)
    requires Valid(db) && IsModel(db, h.model) && IsUser(db, h.user)
    ensures Valid(db.(simulations := db.simulations + [h], simRows := db.simRows + ResultRows(|db.simulations| + 1, rs)))
  {
    var db' := db.(simulations := db.simulations + [h], simRows := db.simRows + ResultRows(|db.simulations| + 1, rs));
    assert forall k :: 0 <= k < |db'.simRows| ==> IsSimulation(db', db'.simRows[k].simulation) by {
      forall k | 0 <= k < |db'.simRows|
        ensures IsSimulation(db', db'.simRows[k].simulation)
      {
        if k >= |db.simRows| {
          assert db'.simRows[k] == ResultRows(|db.simulations| + 1, rs)[k - |db.simRows|];
        }
      }
    }
  }

  // ----- Infinite bounds -----

  /**
    A JavaScript number as `isNaN` and the comparisons see it. `Num` folds
    NaN and both infinities into `NonFinite`, as `Number.isFinite` does; the
    range check of `simulateEdge` and the guard of the sweep use `isNaN` and
    `<=`, which tell the three apart. `JSON.parse` reads `1e999` as
    `Infinity`, and `Number("Infinity")` is one too.
  */
  datatype JsNumber = JsFinite(value: int) | JsNaN | PosInfinity | NegInfinity

  /** What `Number.isFinite` keeps of a number. */
  function AsNum(x: JsNumber): (n: Num)
    ensures n.Finite? <==> x.JsFinite?
    ensures n.Finite? ==> n.value == x.value
  {
    if x.JsFinite? then Finite(x.value) else NonFinite
  }

  /** `x <= y`: false when either side is NaN. */
  predicate AtMost(x: JsNumber, y: JsNumber) {
    match (x, y)
    case (JsNaN, _) => false
    case (_, JsNaN) => false
    case (NegInfinity, _) => true
    case (_, PosInfinity) => true
    case (PosInfinity, _) => false
    case (_, NegInfinity) => false
    case (JsFinite(a), JsFinite(b)) => a <= b
  }

  /** `x + y`: NaN absorbs, and opposite infinities give NaN. Finite sums are exact here. */
  function Plus(x: JsNumber, y: JsNumber): JsNumber {
    match (x, y)
    case (JsNaN, _) => JsNaN
    case (_, JsNaN) => JsNaN
    case (PosInfinity, NegInfinity) => JsNaN
    case (NegInfinity, PosInfinity) => JsNaN
    case (PosInfinity, _) => PosInfinity
    case (NegInfinity, _) => NegInfinity
    case (_, PosInfinity) => PosInfinity
    case (_, NegInfinity) => NegInfinity
    case (JsFinite(a), JsFinite(b)) => JsFinite(a + b)
  }

  /**
    The range check of `simulateEdge` as written: no bound is NaN, and
    neither `step <= 0` nor `stop <= start`. An infinity passes `isNaN`.
  */
  predicate RangeAccepted(start: JsNumber, stop: JsNumber, step: JsNumber) {
    !start.JsNaN? && !stop.JsNaN? && !step.JsNaN? && !AtMost(step, JsFinite(0)) && !AtMost(stop, start)
  }

  /** The loop variable after `k` iterations of `w = Number((w + step).toFixed(10))`. */
  function LoopWeight(start: JsNumber, step: JsNumber, k: nat): JsNumber
    decreases k
  {
    if k == 0 then start else Plus(LoopWeight(start, step, k - 1), step)
  }

  /** The loop runs iteration `k`: its guard `w <= stop` held at iterations `0` to `k`. */
  predicate Runs(start: JsNumber, stop: JsNumber, step: JsNumber, k: nat)
    decreases k
  {
    AtMost(LoopWeight(start, step, k), stop) && (k == 0 || Runs(start, stop, step, k - 1))
  }

  /** With finite bounds the loop variable is `start + k * step`. */
  lemma {:induction false} FiniteLoopWeight(s: int, d: int, k: nat)
    ensures LoopWeight(JsFinite(s), JsFinite(d), k) == JsFinite(s + k * d)
    decreases k
  {
    if k > 0 {
      FiniteLoopWeight(s, d, k - 1);
      assert (k - 1) * d + d == k * d;
    }
  }

  /**
    With finite bounds and a positive step, the loop runs iteration `k`
    exactly when `k` is below the sample count: the JavaScript loop and the
    count the sweep is built on agree.
  */
  lemma {:induction false} FiniteSweepRuns(s: int, t: int, d: int, k: nat)
    requires d > 0
    ensures Runs(JsFinite(s), JsFinite(t), JsFinite(d), k) <==> k < SampleCount(s, t, d)
    decreases k
  {
    FiniteLoopWeight(s, d, k);
    SampleCountExact(s, t, d, k);
    if k > 0 {
      FiniteSweepRuns(s, t, d, k - 1);
    }
  }

  /**
    An infinite `stop` with a finite start, or an infinite negative `start`
    with a finite stop, passes the range check, and the loop then runs every
    iteration, the negative start never moving off `-Infinity`: it never ends.
  */
  lemma {:induction false} InfiniteBoundNeverEnds(s: int, t: int, d: int, k: nat)
    requires d > 0
    ensures RangeAccepted(JsFinite(s), PosInfinity, JsFinite(d)) && Runs(JsFinite(s), PosInfinity, JsFinite(d), k)
    ensures RangeAccepted(NegInfinity, JsFinite(t), JsFinite(d)) && Runs(NegInfinity, JsFinite(t), JsFinite(d), k)
    ensures LoopWeight(NegInfinity, JsFinite(d), k) == NegInfinity
    decreases k
  {
    FiniteLoopWeight(s, d, k);
    if k > 0 {
      InfiniteBoundNeverEnds(s, t, d, k - 1);
    }
  }

  /** An infinite step between finite bounds passes the range check and takes exactly one sample, at `start`. */
  lemma {:induction false} InfiniteStepSamplesOnce(s: int, t: int, k: nat)
    requires s < t
    ensures RangeAccepted(JsFinite(s), JsFinite(t), PosInfinity)
    ensures Runs(JsFinite(s), JsFinite(t), PosInfinity, k) <==> k == 0
    decreases k
  {
    if k > 1 {
      InfiniteStepSamplesOnce(s, t, k - 1);
    }
  }

  /**
    The range check the model's service applies, `ValidRange`, reads the
    bounds through `Number.isFinite`. On finite bounds it is the check as
    written; otherwise it is stricter, refusing the infinities that pass.
  */
  lemma {:induction false} RangeChecksAgreeOnFinite(e: EdgeArgs, x: JsNumber, y: JsNumber, z: JsNumber)
    requires e.start == AsNum(x) && e.stop == AsNum(y) && e.step == AsNum(z)
    ensures ValidRange(e) ==> RangeAccepted(x, y, z)
    ensures x.JsFinite? && y.JsFinite? && z.JsFinite? ==> (ValidRange(e) <==> RangeAccepted(x, y, z))
    ensures (x.JsNaN? || y.JsNaN? || z.JsNaN?) ==> !ValidRange(e) && !RangeAccepted(x, y, z)
  {
  }

  /**
    Every range the model's check lets through has finite bounds, and the
    loop on it ends: it runs exactly the iterations below the sample count,
    at least one.
  */
  lemma {:induction false} CheckedRangeTerminates(e: EdgeArgs, x: JsNumber, y: JsNumber, z: JsNumber, k: nat)
    requires e.start == AsNum(x) && e.stop == AsNum(y) && e.step == AsNum(z)
    requires ValidRange(e)
    ensures x.JsFinite? && y.JsFinite? && z.JsFinite? && z.value > 0
    ensures SampleCount(x.value, y.value, z.value) >= 1
    ensures Runs(x, y, z, k) <==> k < SampleCount(x.value, y.value, z.value)
  {
    FiniteSweepRuns(x.value, y.value, z.value, k);
  }
}
