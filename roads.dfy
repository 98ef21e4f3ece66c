/**
 * The road network: an undirected weighted graph over named locations
 * (the `Graph` wrapper around a networkx graph in app.py).
 *
 * An edge is stored once, under the orientation the graph reports it in
 * when its edges are listed: (u, v) with u inserted as a node no later
 * than v. The traffic overwrite looks its key up in exactly that
 * orientation.
 */
module Roads {
  import opened Wrappers

  type Location = string

  /** An edge key, oriented as the graph reports it. */
  type Edge = (Location, Location)

  /** A traffic feed: edge key to new weight. */
  type Traffic = map<Edge, nat>

  /** The weight every edge missing from the traffic feed is reset to. */
  const DefaultPenalty: nat := 10

  /** The state of the road graph as a value: nodes in insertion order and edge weights. */
  datatype Network = Network(nodes: seq<Location>, weight: map<Edge, nat>)

  /** The shortest-path query (`nx.dijkstra_path`), passed in as a function of the graph state. */
  type PathOracle = (Network, Location, Location) -> Option<seq<Location>>

  predicate Distinct(s: seq<Location>) {
    forall i, j :: 0 <= i < j < |s| ==> s[i] != s[j]
  }

  /** Position of x in s. */
  function IndexOf(s: seq<Location>, x: Location): (i: nat)
    requires x in s
    ensures i < |s| && s[i] == x
  {
    if s[0] == x then 0 else IndexOf(s[1..], x) + 1
  }

  lemma {:induction false} IndexOfAppend(s: seq<Location>, x: Location, y: Location)
    requires y in s
    ensures y in s + [x] && IndexOf(s + [x], y) == IndexOf(s, y)
  {
    if s[0] != y {
      assert (s + [x])[1..] == s[1..] + [x];
      IndexOfAppend(s[1..], x, y);
    }
  }

  /** An edge key in the orientation the graph reports: both ends are nodes, the first inserted no later. */
  predicate Reported(nodes: seq<Location>, e: Edge) {
    e.0 in nodes && e.1 in nodes && IndexOf(nodes, e.0) <= IndexOf(nodes, e.1)
  }

  /** The key under which the undirected edge {u, v} is stored. */
  function Oriented(nodes: seq<Location>, u: Location, v: Location): (e: Edge)
    requires u in nodes && v in nodes
    ensures Reported(nodes, e)
    ensures e == (u, v) || e == (v, u)
  {
    if IndexOf(nodes, u) <= IndexOf(nodes, v) then (u, v) else (v, u)
  }

  /** Are x and y joined by an edge? The graph is undirected, so either key counts. */
  predicate Adjacent(n: Network, x: Location, y: Location) {
    (x, y) in n.weight || (y, x) in n.weight
  }

  /** The weight of the edge joining x and y (0 when there is none). */
  function EdgeWeight(n: Network, x: Location, y: Location): nat {
    if (x, y) in n.weight then n.weight[(x, y)]
    else if (y, x) in n.weight then n.weight[(y, x)]
    else 0
  }

  /** p is a walk from a to b over nodes and edges of n. */
  predicate IsPath(n: Network, p: seq<Location>, a: Location, b: Location) {
    && |p| > 0 && p[0] == a && p[|p| - 1] == b
    && (forall i :: 0 <= i < |p| ==> p[i] in n.nodes)
    && (forall i :: 0 <= i < |p| - 1 ==> Adjacent(n, p[i], p[i + 1]))
  }

  /** Some walk leads from a to b. */
  ghost predicate Connected(n: Network, a: Location, b: Location) {
    exists p :: IsPath(n, p, a, b)
  }

  /** Total edge weight along p. */
  function PathCost(n: Network, p: seq<Location>): nat {
    if |p| <= 1 then 0 else EdgeWeight(n, p[0], p[1]) + PathCost(n, p[1..])
  }

  /** What a shortest-path query may answer for (a, b): a minimum-weight path, or failure exactly when none exists. */
  ghost predicate ShortestAnswer(n: Network, a: Location, b: Location, r: Option<seq<Location>>) {
    match r
    case Some(p) => IsPath(n, p, a, b) && forall q :: IsPath(n, q, a, b) ==> PathCost(n, p) <= PathCost(n, q)
    case None => forall q :: !IsPath(n, q, a, b)
  }

  /** The contract of `nx.dijkstra_path`, for every graph state and pair of locations. */
  ghost predicate ShortestPathOracle(sp: PathOracle) {
    forall n, a, b :: ShortestAnswer(n, a, b, sp(n, a, b))
  }

  lemma OracleAnswer(sp: PathOracle, n: Network, a: Location, b: Location)
    requires ShortestPathOracle(sp)
    ensures sp(n, a, b).Some? ==> IsPath(n, sp(n, a, b).value, a, b)
    ensures sp(n, a, b).None? <==> !Connected(n, a, b)
  {
    assert ShortestAnswer(n, a, b, sp(n, a, b));
  }

  /** The new weight of edge e under a traffic feed. */
  function TrafficWeight(traffic: Traffic, e: Edge): nat {
    if e in traffic then traffic[e] else DefaultPenalty
  }

  /** Weights after `update_weights_with_traffic`: every existing edge rewritten, nothing added. */
  function Reweighted(weight: map<Edge, nat>, traffic: Traffic): map<Edge, nat> {
    map e | e in weight :: TrafficWeight(traffic, e)
  }

  /** The update changes no edge: the same pairs are adjacent before and after. */
  lemma ReweightedKeepsTopology(n: Network, traffic: Traffic, x: Location, y: Location)
    ensures Reweighted(n.weight, traffic).Keys == n.weight.Keys
    ensures Adjacent(Network(n.nodes, Reweighted(n.weight, traffic)), x, y) <==> Adjacent(n, x, y)
  {
  }

  /** A full overwrite: the old weights play no part in the result. */
  lemma ReweightedForgetsOldWeights(w1: map<Edge, nat>, w2: map<Edge, nat>, traffic: Traffic)
    requires w1.Keys == w2.Keys
    ensures Reweighted(w1, traffic) == Reweighted(w2, traffic)
  {
  }

  /** Applying the same feed twice gives the weights of applying it once. */
  lemma ReweightedIdempotent(weight: map<Edge, nat>, traffic: Traffic)
    ensures Reweighted(Reweighted(weight, traffic), traffic) == Reweighted(weight, traffic)
  {
  }

  /** A feed entry keyed in the opposite orientation is not consulted. */
  lemma ReweightedIgnoresReversedKey(weight: map<Edge, nat>, traffic: Traffic, u: Location, v: Location)
    requires (u, v) in weight && (u, v) !in traffic
    ensures Reweighted(weight, traffic)[(u, v)] == DefaultPenalty
  {
  }

  /** A walk depends only on the nodes and the edge set, so a reweighting keeps every walk. */
  lemma {:induction false} ReweightedKeepsPaths(n: Network, traffic: Traffic, p: seq<Location>, a: Location, b: Location)
    ensures IsPath(Network(n.nodes, Reweighted(n.weight, traffic)), p, a, b) <==> IsPath(n, p, a, b)
  {
    var m := Network(n.nodes, Reweighted(n.weight, traffic));
    forall i | 0 <= i < |p| - 1
      ensures Adjacent(m, p[i], p[i + 1]) <==> Adjacent(n, p[i], p[i + 1])
    {
      ReweightedKeepsTopology(n, traffic, p[i], p[i + 1]);
    }
  }

  /** The mutable road graph. */
  class Graph {
    var nodes: seq<Location>
    var weight: map<Edge, nat>

    /** Nodes are distinct and every edge is stored once, in reported orientation. */
    ghost predicate Valid()
      reads this
    {
      Distinct(nodes) && forall e :: e in weight ==> Reported(nodes, e)
    }

    function View(): Network
      reads this
    {
      Network(nodes, weight)
    }

    constructor ()
      ensures Valid() && nodes == [] && weight == map[]
    {
      nodes := [];
      weight := map[];
    }

    /** Simple graph: no unordered pair is stored under both orientations. */
    lemma OneKeyPerPair(u: Location, v: Location)
      requires Valid() && u != v
      ensures !((u, v) in weight && (v, u) in weight)
    {
      if u in nodes && v in nodes {
        assert nodes[IndexOf(nodes, u)] == u && nodes[IndexOf(nodes, v)] == v;
      }
    }

    /** `add_node`: insert x unless it is already a node. */
    method AddNode(x: Location)
      requires Valid()
      modifies this
      ensures Valid()
      ensures nodes == if x in old(nodes) then old(nodes) else old(nodes) + [x]
      ensures weight == old(weight)
    {
      if x !in nodes {
        forall e | e in weight
          ensures Reported(nodes + [x], e)
        {
          IndexOfAppend(nodes, x, e.0);
          IndexOfAppend(nodes, x, e.1);
        }
        nodes := nodes + [x];
      }
    }

    /** `add_edge`: create missing endpoints (u first), then set the weight of {u, v}. */
    method AddEdge(u: Location, v: Location, w: nat)
      requires Valid()
      modifies this
      ensures Valid()
      ensures var withU := if u in old(nodes) then old(nodes) else old(nodes) + [u];
              nodes == if v in withU then withU else withU + [v]
      ensures u in nodes && v in nodes
      ensures weight == old(weight)[Oriented(nodes, u, v) := w]
      ensures Adjacent(View(), u, v) && EdgeWeight(View(), u, v) == w
    {
      AddNode(u);
      AddNode(v);
      var e := Oriented(nodes, u, v);
      weight := weight[e := w];
      if u != v {
        OneKeyPerPair(u, v);
      }
    }

    /** `update_weights_with_traffic`: rewrite every edge from the feed, falling back to the default penalty. */
    method UpdateWeightsWithTraffic(traffic: Traffic)
      requires Valid()
      modifies this
      ensures Valid() && nodes == old(nodes)
      ensures weight == Reweighted(old(weight), traffic)
    {
      weight := RewriteWeights(weight, traffic);
    }
  }

  /** The edge loop of `update_weights_with_traffic`, one edge at a time. */
  method RewriteWeights(weight: map<Edge, nat>, traffic: Traffic) returns (w: map<Edge, nat>)
    ensures w.Keys == weight.Keys
    ensures forall e :: e in w ==> w[e] == if e in traffic then traffic[e] else DefaultPenalty
    ensures w == Reweighted(weight, traffic)
  {
    var todo;
    w, todo := weight, weight.Keys;
    while todo != {}
      invariant todo <= w.Keys == weight.Keys
      invariant forall e :: e in w && e !in todo ==> w[e] == TrafficWeight(traffic, e)
      decreases todo
    {
      var e :| e in todo;
      w := w[e := TrafficWeight(traffic, e)];
      todo := todo - {e};
    }
  }
}
