/**
  The request schemas of src/common/util/validation-schema.ts, as
  predicates over the values the core works on, and what passing them
  guarantees further down. Joi's `string()` refuses the empty string unless
  told otherwise, so a required string is a non-empty one.
*/
module Schemas {
  import opened Wrappers
  import opened Fixed
  import opened Graphs
  import opened Store
  import opened Simulation

  /** Every node and neighbour key is non-empty and every weight is positive. */
  predicate KeysAndPositiveWeights(g: Graph) {
    forall i :: 0 <= i < |g| ==>
      |g[i].key| >= 1 && forall j :: 0 <= j < |g[i].out| ==> |g[i].out[j].to| >= 1 && g[i].out[j].weight > 0
  }

  /**
    `graphSchema`, the graph of `createModelSchema`: keys and positive
    weights, nothing about size.
  */
  predicate GraphShape(g: Graph) {
    KeysAndPositiveWeights(g)
  }

  /**
    `GraphWeightsSchema`, the graph of `GraphSchema.create`: keys, weights
    `greater(0)`, and the custom size rule "at least 1 node and 1 edge".
    `precision(6)` always holds for an amount in ten-thousandths.
  */
  predicate GraphWeights(g: Graph) {
    KeysAndPositiveWeights(g) && |g| != 0 && EdgeCount(g) != 0
  }

  /**
    The size rule is the whole difference between the two graph schemas:
    `graphSchema` accepts the empty graph and a node without edges, which
    `GraphWeightsSchema` refuses.
  */
  lemma {:induction false} GraphSchemasDiffer(g: Graph)
    ensures GraphWeights(g) <==> GraphShape(g) && |g| != 0 && EdgeCount(g) != 0
    ensures GraphShape([]) && !GraphWeights([])
    ensures GraphShape([Node("a", [])]) && !GraphWeights([Node("a", [])])
  {
    assert EdgeCount([Node("a", [])]) == 0 + EdgeCount([Node("a", [])][1..]);
  }

  /**
    A graph that passed `graphSchema` can still be empty, and the empty
    graph is priced at zero, so creation stops at the cost gate; a graph
    that passed `GraphWeightsSchema` always has a positive price.
  */
  lemma {:induction false} SchemaAndPrice(g: Graph)
    ensures GraphShape([]) && Build(Some([])).cost == 0
    ensures GraphWeights(g) ==> Build(Some(g)).cost > 0
  {
    BuildPositive(Some(g));
  }

  /**
    Every edge a validated graph lists has a truthy weight, so the
    "edge exists" checks of the weight-change and simulation services reduce
    to the edge being present.
  */
  lemma {:induction false} ListedEdgesAreTruthy(g: Graph, a: string, b: string)
    requires GraphShape(g)
    ensures HasTruthyEdge(g, a, b) <==> Weight(g, a, b).Some?
    ensures Weight(g, a, b).Some? ==> Weight(g, a, b).value > 0
  {
    match NodeIndex(g, a)
    case None =>
    case Some(i) =>
      match EdgeIndex(g[i].out, b)
      case None =>
      case Some(j) =>
        assert Weight(g, a, b) == Some(g[i].out[j].weight);
  }

  // ----- Simulation bodies -----

  /** A simulation request body: numbers already, as Joi's `number()` demands. */
  datatype SimBody = SimBody(from: string, to: string, start: int, stop: int, step: int, origin: string, goal: string)

  /** `simulateBody`: positive bounds, `stop > start`, `0 < step <= stop`, non-empty names. */
  predicate SimulateBody(b: SimBody) {
    && |b.from| >= 1 && |b.to| >= 1 && |b.goal| >= 1 && |b.origin| >= 1
    && b.start > 0 && b.stop > 0 && b.stop > b.start
    && b.step > 0 && b.step <= b.stop
  }

  /** `GraphSchema.simulate`: the same bounds except that the step must be strictly below `stop`. */
  predicate SimulateSchema(b: SimBody) {
    && |b.from| >= 1 && |b.to| >= 1
    && b.start > 0 && b.stop > 0 && b.stop > b.start
    && b.step > 0 && b.step < b.stop
  }

  /** The arguments the controller passes to `simulateEdge` for a body. */
  function EdgeArgsOf(modelId: Num, b: SimBody): EdgeArgs {
    EdgeArgs(modelId, b.from, b.to, Finite(b.start), Finite(b.stop), Finite(b.step), b.origin, b.goal)
  }

  /**
    A body that passed `simulateBody` always passes the service's own range
    check, so its 400 never fires behind the validator, and the sweep it
    starts terminates and takes at least one sample.
  */
  lemma {:induction false} ValidatedBodyPassesRange(modelId: Num, b: SimBody)
    requires SimulateBody(b)
    ensures ValidRange(EdgeArgsOf(modelId, b))
    ensures SampleCount(b.start, b.stop, b.step) >= 1
  {
  }

  /**
    The two simulation schemas disagree only on `step == stop`:
    `GraphSchema.simulate` implies the numeric part of `simulateBody`, and a
    step equal to the stop bound passes `simulateBody` alone.
  */
  lemma {:induction false} SimulateSchemasDiffer(b: SimBody)
    ensures SimulateSchema(b) && |b.goal| >= 1 && |b.origin| >= 1 ==> SimulateBody(b)
    ensures SimulateBody(b) && b.step != b.stop ==> SimulateSchema(b)
    ensures SimulateBody(SimBody("a", "b", 10000, 20000, 20000, "a", "c"))
    ensures !SimulateSchema(SimBody("a", "b", 10000, 20000, 20000, "a", "c"))
  {
  }

  // ----- Weight-change bodies -----

  /** `weightChangeCreateBody`: non-empty endpoints and a positive weight. */
  predicate WeightChangeBody(from: string, to: string, weight: int) {
    |from| >= 1 && |to| >= 1 && weight > 0
  }

  /**
    The schema admits any positive weight, and the service stores it rounded
    to two decimals: a weight below half a hundredth is stored as 0, which
    is never negative.
  */
  lemma {:induction false} PositiveWeightStoredNonNegative(weight: int)
    requires WeightChangeBody("a", "b", weight)
    ensures Round2(weight) >= 0
    ensures weight >= 50 ==> Round2(weight) > 0
    ensures weight < 50 ==> Round2(weight) == 0
  {
  }

  // ----- List query -----

  /** The status names the list query accepts for `state`. */
  function StatusName(s: Status): string {
    match s
    case Pending => "pending"
    case Approved => "approved"
    case Rejected => "rejected"
  }

  /** `valid("pending", "approved", "rejected")`: the status a name denotes, if any. */
  function ParseStatus(name: string): (s: Option<Status>)
    ensures s.Some? <==> name in {"pending", "approved", "rejected"}
  {
    if name == "pending" then Some(Pending)
    else if name == "approved" then Some(Approved)
    else if name == "rejected" then Some(Rejected)
    else None
  }

  /** `weightChangeListQuery`: a missing `state`, or one of the three names. */
  predicate ListQuery(state: Option<string>) {
    state.None? || ParseStatus(state.value).Some?
  }

  /** Names and statuses correspond one to one: each accepted name denotes exactly one status. */
  lemma {:induction false} StatusNamesRoundTrip(s: Status, name: string)
    ensures ParseStatus(StatusName(s)) == Some(s)
    ensures ParseStatus(name).Some? ==> StatusName(ParseStatus(name).value) == name
    ensures ListQuery(Some(name)) <==> exists t :: StatusName(t) == name
  {
    if ParseStatus(name).Some? {
      assert StatusName(ParseStatus(name).value) == name;
    }
    if exists t :: StatusName(t) == name {
      var t :| StatusName(t) == name;
      assert ParseStatus(StatusName(t)) == Some(t);
    }
  }

  // ----- Rejection body -----

  /**
    The `length` JavaScript reports for a string: a character above U+FFFF
    is a surrogate pair and counts as two UTF-16 code units.
  */
  function Utf16Length(s: string): (n: nat)
    ensures |s| <= n <= 2 * |s|
    decreases |s|
  {
    if |s| == 0 then 0
    else (if s[0] as int < 0x10000 then 1 else 2) + Utf16Length(s[1..])
  }

  /** A string within the Basic Multilingual Plane has one code unit per character; one wholly outside it, two. */
  lemma {:induction false} Utf16LengthOf(s: string)
    ensures (forall k :: 0 <= k < |s| ==> s[k] as int < 0x10000) ==> Utf16Length(s) == |s|
    ensures (forall k :: 0 <= k < |s| ==> s[k] as int >= 0x10000) ==> Utf16Length(s) == 2 * |s|
    decreases |s|
  {
    if |s| > 0 {
      assert forall k :: 0 <= k < |s[1..]| ==> s[1..][k] == s[k + 1];
      Utf16LengthOf(s[1..]);
    }
  }

  /** `moderationBodyReject`: a reason of 3 to 500 UTF-16 code units, Joi's default measure. */
  predicate RejectBody(reason: string) {
    3 <= Utf16Length(reason) <= 500
  }

  /**
    An accepted reason has 2 to 500 characters; for a reason within the Basic
    Multilingual Plane the bounds are exactly 3 and 500 characters, both inclusive.
  */
  lemma {:induction false} RejectReasonBounds(reason: string)
    ensures RejectBody(reason) ==> 2 <= |reason| <= 500
    ensures (forall k :: 0 <= k < |reason| ==> reason[k] as int < 0x10000) ==> (RejectBody(reason) <==> 3 <= |reason| <= 500)
  {
    Utf16LengthOf(reason);
  }

  /** Characters outside the Basic Multilingual Plane count twice against both bounds. */
  lemma {:induction false} RejectCountsCodeUnits()
    ensures !RejectBody("no") && RejectBody("bad") && RejectBody(seq(500, _ => 'x')) && !RejectBody(seq(501, _ => 'x'))
    ensures RejectBody("\U{1F600}\U{1F600}") && RejectBody(seq(250, _ => '\U{1F600}')) && !RejectBody(seq(251, _ => '\U{1F600}'))
  {
    Utf16LengthOf("no");
    Utf16LengthOf("bad");
    Utf16LengthOf(seq(500, _ => 'x'));
    Utf16LengthOf(seq(501, _ => 'x'));
    Utf16LengthOf("\U{1F600}\U{1F600}");
    Utf16LengthOf(seq(250, _ => '\U{1F600}'));
    Utf16LengthOf(seq(251, _ => '\U{1F600}'));
  }
}
