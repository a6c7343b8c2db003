/**
  The weighted directed graph of a model (`Record<string, Record<string,
  number>>`) and its pricing (src/service/model/model-builder.ts).

  A JSON object is an ordered list of keys, so a graph is a list of source
  nodes, each with the ordered list of its outgoing edges. Lookups take the
  first match; the graphs the core builds keep keys distinct (`WellFormed`).
  Weights are amounts in ten-thousandths.
*/
module Graphs {
  import opened Wrappers
  import opened Fixed

  datatype Edge = Edge(to: string, weight: int)
  datatype Node = Node(key: string, out: seq<Edge>)
  type Graph = seq<Node>

  predicate Distinct<T(==)>(s: seq<T>) {
    forall i, j :: 0 <= i < j < |s| ==> s[i] != s[j]
  }

  /** `Object.keys(graph)`. */
  function Labels(g: Graph): seq<string> {
    seq(|g|, i requires 0 <= i < |g| => g[i].key)
  }

  /** `Object.keys(graph[from])`. */
  function Targets(out: seq<Edge>): seq<string> {
    seq(|out|, j requires 0 <= j < |out| => out[j].to)
  }

  /** No key occurs twice, at either level: what `JSON.parse` of an object yields. */
  predicate WellFormed(g: Graph) {
    Distinct(Labels(g)) && forall i :: 0 <= i < |g| ==> Distinct(Targets(g[i].out))
  }

  /** Position of the first node labelled `a`. */
  function NodeIndex(g: Graph, a: string): (k: Option<nat>)
    ensures k.Some? ==> k.value < |g| && g[k.value].key == a
    ensures k.Some? ==> forall i :: 0 <= i < k.value ==> g[i].key != a
    ensures k.None? <==> forall i :: 0 <= i < |g| ==> g[i].key != a
  {
    if |g| == 0 then None
    else if g[0].key == a then Some(0)
    else match NodeIndex(g[1..], a)
      case Some(k) => Some(k + 1)
      case None => None
  }

  /** Position of the first edge towards `b`. */
  function EdgeIndex(out: seq<Edge>, b: string): (k: Option<nat>)
    ensures k.Some? ==> k.value < |out| && out[k.value].to == b
    ensures k.Some? ==> forall j :: 0 <= j < k.value ==> out[j].to != b
    ensures k.None? <==> forall j :: 0 <= j < |out| ==> out[j].to != b
  {
    if |out| == 0 then None
    else if out[0].to == b then Some(0)
    else match EdgeIndex(out[1..], b)
      case Some(k) => Some(k + 1)
      case None => None
  }

  /** `graph[a]`: the outgoing edges of `a`, or undefined. */
  function Row(g: Graph, a: string): Option<seq<Edge>> {
    match NodeIndex(g, a)
    case Some(i) => Some(g[i].out)
    case None => None
  }

  /** `graph[a]?.[b]`: the weight of the edge a→b, or undefined. */
  function Weight(g: Graph, a: string, b: string): Option<int> {
    match Row(g, a)
    case None => None
    case Some(out) =>
      match EdgeIndex(out, b)
      case Some(j) => Some(out[j].weight)
      case None => None
  }

  /**
    `!graph[a] || !graph[a][b]` is false: the edge exists and its weight is
    truthy. An empty row object is truthy; a weight of 0 is not.
  */
  predicate HasTruthyEdge(g: Graph, a: string, b: string) {
    Weight(g, a, b).Some? && Weight(g, a, b).value != 0
  }

  /** `{...out, [b]: w}`: an existing key keeps its place, a new one goes last. */
  function SetEdge(out: seq<Edge>, b: string, w: int): seq<Edge> {
    match EdgeIndex(out, b)
    case Some(j) => out[j := Edge(b, w)]
    case None => out + [Edge(b, w)]
  }

  /** `{...g, [a]: {...g[a], [b]: w}}`, the update both approval and the sweep apply. */
  function SetWeight(g: Graph, a: string, b: string, w: int): Graph {
    match NodeIndex(g, a)
    case Some(i) => g[i := Node(a, SetEdge(g[i].out, b, w))]
    case None => g + [Node(a, [Edge(b, w)])]
  }

  /** The `reduce` of model-builder.ts: the number of adjacency entries, summed over the sources. */
  function EdgeCount(g: Graph): nat {
    if |g| == 0 then 0 else |g[0].out| + EdgeCount(g[1..])
  }

  /** The (source, target) pairs present in one row. */
  function RowPairs(a: string, out: seq<Edge>): set<(string, string)> {
    if |out| == 0 then {} else {(a, out[0].to)} + RowPairs(a, out[1..])
  }

  /** The (source, target) pairs present in the graph. */
  function EdgePairs(g: Graph): set<(string, string)> {
    if |g| == 0 then {} else RowPairs(g[0].key, g[0].out) + EdgePairs(g[1..])
  }

  lemma {:induction false} RowPairsMember(a: string, out: seq<Edge>, x: string, y: string)
    ensures (x, y) in RowPairs(a, out) <==> x == a && EdgeIndex(out, y).Some?
    decreases |out|
  {
    if |out| > 0 {
      RowPairsMember(a, out[1..], x, y);
    }
  }

  lemma {:induction false} RowPairsCard(a: string, out: seq<Edge>)
    requires Distinct(Targets(out))
    ensures |RowPairs(a, out)| == |out|
    decreases |out|
  {
    if |out| > 0 {
      assert Targets(out[1..]) == Targets(out)[1..];
      RowPairsCard(a, out[1..]);
      RowPairsMember(a, out[1..], a, out[0].to);
      forall j | 0 <= j < |out[1..]|
        ensures out[1..][j].to != out[0].to
      {
        assert Targets(out)[0] != Targets(out)[j + 1];
      }
    }
  }

  lemma {:induction false} EdgePairsMember(g: Graph, x: string, y: string)
    ensures (x, y) in EdgePairs(g) <==> exists i :: 0 <= i < |g| && g[i].key == x && EdgeIndex(g[i].out, y).Some?
    decreases |g|
  {
    if |g| > 0 {
      EdgePairsMember(g[1..], x, y);
      RowPairsMember(g[0].key, g[0].out, x, y);
      if (x, y) in EdgePairs(g[1..]) {
        var i :| 0 <= i < |g[1..]| && g[1..][i].key == x && EdgeIndex(g[1..][i].out, y).Some?;
        assert g[i + 1].key == x && EdgeIndex(g[i + 1].out, y).Some?;
      }
      if exists i :: 0 <= i < |g| && g[i].key == x && EdgeIndex(g[i].out, y).Some? {
        var i :| 0 <= i < |g| && g[i].key == x && EdgeIndex(g[i].out, y).Some?;
        if i > 0 {
          assert g[1..][i - 1] == g[i];
        }
      }
    }
  }

  lemma {:induction false} WellFormedTail(g: Graph)
    requires WellFormed(g) && |g| > 0
    ensures WellFormed(g[1..])
    ensures Distinct(Targets(g[0].out))
    ensures forall i :: 0 <= i < |g[1..]| ==> g[1..][i].key != g[0].key
  {
    assert Labels(g[1..]) == Labels(g)[1..];
    forall i | 0 <= i < |g[1..]|
      ensures g[1..][i].key != g[0].key
    {
      assert Labels(g)[0] != Labels(g)[i + 1];
    }
  }

  /**
    In a well-formed graph the edge count of model-builder.ts is the number of
    distinct (source, target) pairs: each adjacency entry is one edge.
  */
  lemma {:induction false} EdgeCountIsPairCount(g: Graph)
    requires WellFormed(g)
    ensures |EdgePairs(g)| == EdgeCount(g)
    decreases |g|
  {
    if |g| > 0 {
      WellFormedTail(g);
      EdgeCountIsPairCount(g[1..]);
      RowPairsCard(g[0].key, g[0].out);
      forall p | p in RowPairs(g[0].key, g[0].out)
        ensures p !in EdgePairs(g[1..])
      {
        RowPairsMember(g[0].key, g[0].out, p.0, p.1);
        EdgePairsMember(g[1..], p.0, p.1);
      }
      assert RowPairs(g[0].key, g[0].out) !! EdgePairs(g[1..]);
    }
  }

  /** Exactly the edges `Weight` can see are the pairs `EdgeCount` counts. */
  lemma {:induction false} EdgePairsAreEdges(g: Graph, x: string, y: string)
    requires WellFormed(g)
    ensures (x, y) in EdgePairs(g) <==> Weight(g, x, y).Some?
  {
    EdgePairsMember(g, x, y);
    if (x, y) in EdgePairs(g) {
      var i :| 0 <= i < |g| && g[i].key == x && EdgeIndex(g[i].out, y).Some?;
      var k := NodeIndex(g, x).value;
      assert Labels(g)[i] == Labels(g)[k];
    }
  }

  lemma {:induction false} EdgeCountAppend(g: Graph, h: Graph)
    ensures EdgeCount(g + h) == EdgeCount(g) + EdgeCount(h)
    decreases |g|
  {
    if |g| == 0 {
      assert g + h == h;
    } else {
      assert (g + h)[1..] == g[1..] + h;
      EdgeCountAppend(g[1..], h);
    }
  }

  lemma {:induction false} EdgeCountUpdate(g: Graph, i: nat, n: Node)
    requires i < |g|
    ensures EdgeCount(g[i := n]) == EdgeCount(g) - |g[i].out| + |n.out|
    decreases |g|
  {
    if i > 0 {
      assert g[i := n][1..] == g[1..][i - 1 := n];
      EdgeCountUpdate(g[1..], i - 1, n);
    }
  }

  /** `Object.keys(graph || {}).length` and the `reduce` beside it. */
  function NodeCountOf(g: Option<Graph>): nat {
    match g
    case Some(x) => |x|
    case None => 0
  }

  function EdgeCountOf(g: Option<Graph>): nat {
    match g
    case Some(x) => EdgeCount(x)
    case None => 0
  }

  /** The price `Number((0.2·nodes + 0.01·edges).toFixed(2))`. */
  function Price(nodes: nat, edges: nat): (c: int)
    ensures c == 2000 * nodes + 100 * edges
    ensures IsFixed2(c) && c >= 0
  {
    Round2Fixed(2000 * nodes + 100 * edges);
    Round2(2000 * nodes + 100 * edges)
  }

  /** What `ModelBuilder.build` returns: the graph it was given, its counts and its price. */
  datatype Built = Built(graph: Option<Graph>, nodes: nat, edges: nat, cost: int)

  /** `new ModelBuilder(graph).build()`. A missing graph counts as `{}`. */
  function Build(g: Option<Graph>): (b: Built)
    ensures b.graph == g
    ensures b.cost == 2000 * b.nodes + 100 * b.edges
    ensures g.Some? ==> b.nodes == |g.value| && b.edges == EdgeCount(g.value)
    ensures g.None? ==> b.nodes == 0 && b.edges == 0 && b.cost == 0
  {
    var n := NodeCountOf(g);
    var e := EdgeCountOf(g);
    Built(g, n, e, Price(n, e))
  }

  /** A graph has a positive price exactly when it has at least one source node. */
  lemma {:induction false} BuildPositive(g: Option<Graph>)
    ensures Build(g).cost > 0 <==> g.Some? && |g.value| > 0
  {
    if g.Some? && |g.value| == 0 {
      assert EdgeCount(g.value) == 0;
    }
  }

  /** Adding a source node never lowers the price; it adds 0.20 plus 0.01 per new edge. */
  lemma {:induction false} BuildAddNode(g: Graph, n: Node)
    ensures Build(Some(g + [n])).cost == Build(Some(g)).cost + 2000 + 100 * |n.out|
  {
    EdgeCountAppend(g, [n]);
    assert EdgeCount([n]) == |n.out| + EdgeCount([n][1..]);
  }

  /** The position `NodeIndex` reports is the only one its contract allows. */
  lemma {:induction false} NodeIndexIs(g: Graph, a: string, k: nat)
    requires k < |g| && g[k].key == a
    requires forall i :: 0 <= i < k ==> g[i].key != a
    ensures NodeIndex(g, a) == Some(k)
  {
  }

  lemma {:induction false} EdgeIndexIs(out: seq<Edge>, b: string, k: nat)
    requires k < |out| && out[k].to == b
    requires forall j :: 0 <= j < k ==> out[j].to != b
    ensures EdgeIndex(out, b) == Some(k)
  {
  }

  /** Replacing a node by one with the same key leaves every node lookup where it was. */
  lemma {:induction false} NodeIndexSameKeys(g: Graph, g': Graph, x: string)
    requires |g'| == |g| && forall i :: 0 <= i < |g| ==> g'[i].key == g[i].key
    ensures NodeIndex(g', x) == NodeIndex(g, x)
  {
    match NodeIndex(g, x)
    case Some(k) => NodeIndexIs(g', x, k);
    case None =>
  }

  lemma {:induction false} EdgeIndexSameTargets(out: seq<Edge>, out': seq<Edge>, y: string)
    requires |out'| == |out| && forall j :: 0 <= j < |out| ==> out'[j].to == out[j].to
    ensures EdgeIndex(out', y) == EdgeIndex(out, y)
  {
    match EdgeIndex(out, y)
    case Some(k) => EdgeIndexIs(out', y, k);
    case None =>
  }

  /** Appending a node with a new key: old lookups are unchanged, the new key is found last. */
  lemma {:induction false} NodeIndexAppend(g: Graph, n: Node, x: string)
    requires NodeIndex(g, n.key).None?
    ensures NodeIndex(g + [n], x) == if x == n.key then Some(|g|) else NodeIndex(g, x)
  {
    var r := g + [n];
    if x == n.key {
      NodeIndexIs(r, x, |g|);
    } else {
      NodeIndexSameKeys(g, r[..|g|], x);
      match NodeIndex(g, x)
      case Some(k) => NodeIndexIs(r, x, k);
      case None =>
    }
  }

  lemma {:induction false} EdgeIndexAppend(out: seq<Edge>, e: Edge, y: string)
    requires EdgeIndex(out, e.to).None?
    ensures EdgeIndex(out + [e], y) == if y == e.to then Some(|out|) else EdgeIndex(out, y)
  {
    var r := out + [e];
    if y == e.to {
      EdgeIndexIs(r, y, |out|);
    } else {
      match EdgeIndex(out, y)
      case Some(k) => EdgeIndexIs(r, y, k);
      case None =>
    }
  }

  /** The targets after `SetEdge`: unchanged when `b` was present, `b` appended otherwise. */
  lemma {:induction false} SetEdgeTargets(out: seq<Edge>, b: string, w: int)
    ensures EdgeIndex(out, b).Some? ==> Targets(SetEdge(out, b, w)) == Targets(out)
    ensures EdgeIndex(out, b).None? ==> Targets(SetEdge(out, b, w)) == Targets(out) + [b]
  {
  }

  /** `SetEdge` gives `b` the weight `w` and leaves every other target's weight alone. */
  lemma {:induction false} SetEdgeLookup(out: seq<Edge>, b: string, w: int, y: string)
    ensures EdgeIndex(SetEdge(out, b, w), y).Some? <==> y == b || EdgeIndex(out, y).Some?
    ensures y == b ==> SetEdge(out, b, w)[EdgeIndex(SetEdge(out, b, w), y).value].weight == w
    ensures y != b && EdgeIndex(out, y).Some? ==>
      SetEdge(out, b, w)[EdgeIndex(SetEdge(out, b, w), y).value] == out[EdgeIndex(out, y).value]
    ensures |SetEdge(out, b, w)| == |out| + (if EdgeIndex(out, b).Some? then 0 else 1)
  {
    var r := SetEdge(out, b, w);
    match EdgeIndex(out, b)
    case Some(j) =>
      EdgeIndexSameTargets(out, r, y);
    case None =>
      EdgeIndexAppend(out, Edge(b, w), y);
  }

  /**
    The spread update sets exactly one weight: a→b reads `w` afterwards and
    every other lookup reads what it read before.
  */
  lemma {:induction false} SetWeightLookup(g: Graph, a: string, b: string, w: int, x: string, y: string)
    ensures Weight(SetWeight(g, a, b, w), x, y) == if x == a && y == b then Some(w) else Weight(g, x, y)
  {
    var r := SetWeight(g, a, b, w);
    match NodeIndex(g, a)
    case Some(i) =>
      NodeIndexSameKeys(g, r, x);
      if x == a {
        SetEdgeLookup(g[i].out, b, w, y);
      }
    case None =>
      NodeIndexAppend(g, Node(a, [Edge(b, w)]), x);
      if x == a && y != b {
        assert EdgeIndex([Edge(b, w)], y).None?;
      }
  }

  /** Rewriting an existing edge changes neither count, so the price stays the same. */
  lemma {:induction false} SetWeightKeepsCounts(g: Graph, a: string, b: string, w: int)
    requires Weight(g, a, b).Some?
    ensures |SetWeight(g, a, b, w)| == |g|
    ensures EdgeCount(SetWeight(g, a, b, w)) == EdgeCount(g)
    ensures Build(Some(SetWeight(g, a, b, w))).cost == Build(Some(g)).cost
  {
    var i := NodeIndex(g, a).value;
    SetEdgeLookup(g[i].out, b, w, b);
    EdgeCountUpdate(g, i, Node(a, SetEdge(g[i].out, b, w)));
  }

  /** The spread update keeps a graph well formed. */
  lemma {:induction false} SetWeightWellFormed(g: Graph, a: string, b: string, w: int)
    requires WellFormed(g)
    ensures WellFormed(SetWeight(g, a, b, w))
  {
    var r := SetWeight(g, a, b, w);
    match NodeIndex(g, a)
    case Some(i) =>
      assert Labels(r) == Labels(g);
      SetEdgeTargets(g[i].out, b, w);
      assert Distinct(Targets(g[i].out));
    case None =>
      assert Labels(r) == Labels(g) + [a];
      assert Targets([Edge(b, w)]) == [b];
  }

  /** A shortest route as node-dijkstra reports it: the nodes visited and the total weight. */
  datatype Route = Route(path: seq<string>, cost: int)

  /**
    The shortest-path search (`NodeDijkstraAdapter.execute`, node-dijkstra's
    `path(start, goal, {cost: true})`): a route, or `None` when there is none.
    The core treats it as a black box, and so does this model.
  */
  type PathFinder = (Graph, string, string) -> Option<Route>
}
