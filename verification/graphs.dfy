/** The undirected simple graphs the analysis hands to networkx: station ids as
    nodes, sorted station pairs as edges. Connectivity is walks of adjacent nodes;
    connected components are found by breadth-first search from the nodes taken in
    increasing id order, which is the order the analysis inserts them in. */
module Graphs {
  import opened Core

  datatype Graph = Graph(nodes: set<StationId>, edges: set<Edge>)

  /** Every edge is a sorted pair of distinct nodes of the graph. */
  ghost predicate WellFormed(g: Graph)
  {
    forall e :: e in g.edges ==> ValidEdge(e) && e.lo in g.nodes && e.hi in g.nodes
  }

  predicate Adjacent(g: Graph, u: StationId, v: StationId)
  {
    u != v && Key(u, v) in g.edges
  }

  lemma AdjacentSymmetric(g: Graph, u: StationId, v: StationId)
    ensures Adjacent(g, u, v) <==> Adjacent(g, v, u)
  {
    if u != v {
      KeySymmetric(u, v);
    }
  }

  /** G.neighbors(u). */
  function Neighbors(g: Graph, u: StationId): (r: set<StationId>)
    ensures forall v :: v in r <==> v in g.nodes && Adjacent(g, u, v)
    ensures u !in r && r <= g.nodes
  {
    set v | v in g.nodes && Adjacent(g, u, v)
  }

  /** In a simple graph, `v` is a neighbour of `u` exactly when `u` is one of `v`. */
  lemma NeighborsSymmetric(g: Graph, u: StationId, v: StationId)
    requires WellFormed(g)
    ensures v in Neighbors(g, u) <==> u in Neighbors(g, v)
  {
    AdjacentSymmetric(g, u, v);
    if Adjacent(g, u, v) {
      var e := Key(u, v);
      assert e in g.edges && Touches(e, u) && Touches(e, v);
    }
  }

  /** G.degree(u): the number of neighbours of `u`. */
  function Degree(g: Graph, u: StationId): nat
  {
    |Neighbors(g, u)|
  }

  /** The edges of `g` at `u`. */
  function IncidentEdges(g: Graph, u: StationId): set<Edge>
  {
    set e | e in g.edges && Touches(e, u)
  }

  /** The edges from `u` to each station of `ns`. */
  function KeysTo(u: StationId, ns: set<StationId>): set<Edge>
  {
    set v | v in ns && v != u :: Key(u, v)
  }

  /** Distinct stations give distinct edges from `u`, so there are as many edges as stations. */
  lemma {:induction false} KeysToSize(u: StationId, ns: set<StationId>)
    requires u !in ns
    ensures |KeysTo(u, ns)| == |ns|
    decreases ns
  {
    if ns != {} {
      var v :| v in ns;
      var rest := ns - {v};
      KeysToSize(u, rest);
      assert KeysTo(u, ns) == KeysTo(u, rest) + {Key(u, v)};
    }
  }

  /** In a simple graph the degree of `u` is the number of edges at `u`. */
  lemma DegreeIncident(g: Graph, u: StationId)
    requires WellFormed(g)
    ensures Degree(g, u) == |IncidentEdges(g, u)|
  {
    var ns := Neighbors(g, u);
    forall e | e in IncidentEdges(g, u)
      ensures e in KeysTo(u, ns)
    {
      var v := Other(e, u);
      assert Touches(e, v);
      assert v in ns;
    }
    KeysToSize(u, ns);
    assert IncidentEdges(g, u) == KeysTo(u, ns);
  }

  // ---------------------------------------------------------------------------
  // Walks and connectivity

  ghost predicate IsPath(g: Graph, p: seq<StationId>)
  {
    && |p| >= 1
    && (forall i :: 0 <= i < |p| ==> p[i] in g.nodes)
    && (forall i :: 0 < i < |p| ==> Adjacent(g, p[i - 1], p[i]))
  }

  /** Some walk of adjacent nodes leads from `u` to `v`. */
  ghost predicate Connected(g: Graph, u: StationId, v: StationId)
  {
    exists p :: IsPath(g, p) && p[0] == u && p[|p| - 1] == v
  }

  lemma ConnectedRefl(g: Graph, u: StationId)
    requires u in g.nodes
    ensures Connected(g, u, u)
  {
    assert IsPath(g, [u]);
  }

  lemma ConnectedStep(g: Graph, u: StationId, v: StationId, w: StationId)
    requires Connected(g, u, v) && w in g.nodes && Adjacent(g, v, w)
    ensures Connected(g, u, w)
  {
    var p :| IsPath(g, p) && p[0] == u && p[|p| - 1] == v;
    assert IsPath(g, p + [w]);
  }

  function Reverse(p: seq<StationId>): (r: seq<StationId>)
    ensures |r| == |p| && forall i :: 0 <= i < |p| ==> r[i] == p[|p| - 1 - i]
  {
    if p == [] then [] else Reverse(p[1..]) + [p[0]]
  }

  lemma ConnectedSymmetric(g: Graph, u: StationId, v: StationId)
    requires Connected(g, u, v)
    ensures Connected(g, v, u)
  {
    var p :| IsPath(g, p) && p[0] == u && p[|p| - 1] == v;
    var r := Reverse(p);
    forall i | 0 < i < |r|
      ensures Adjacent(g, r[i - 1], r[i])
    {
      AdjacentSymmetric(g, p[|p| - 1 - i], p[|p| - i]);
    }
    assert IsPath(g, r);
  }

  lemma ConnectedTrans(g: Graph, u: StationId, v: StationId, w: StationId)
    requires Connected(g, u, v) && Connected(g, v, w)
    ensures Connected(g, u, w)
  {
    var p :| IsPath(g, p) && p[0] == u && p[|p| - 1] == v;
    var q :| IsPath(g, q) && q[0] == v && q[|q| - 1] == w;
    var r := p + q[1..];
    assert IsPath(g, r);
  }

  /** No edge leaves `s`. */
  ghost predicate Closed(g: Graph, s: set<StationId>)
  {
    forall u, v :: u in s && v in g.nodes && Adjacent(g, u, v) ==> v in s
  }

  /** A walk that starts in a closed set stays in it. */
  lemma {:induction false} ClosedKeepsPath(g: Graph, s: set<StationId>, p: seq<StationId>)
    requires IsPath(g, p) && p[0] in s && Closed(g, s)
    ensures p[|p| - 1] in s
  {
    if |p| > 1 {
      var q := p[..|p| - 1];
      assert IsPath(g, q);
      ClosedKeepsPath(g, s, q);
    }
  }

  // ---------------------------------------------------------------------------
  // Connected components

  /** The component of `source`: every node a walk from `source` reaches. */
  method ComponentFrom(g: Graph, source: StationId) returns (comp: set<StationId>)
    requires source in g.nodes
    ensures forall v :: v in comp <==> Connected(g, source, v)
  {
    comp := {source};
    var frontier := {source};
    ConnectedRefl(g, source);
    while frontier != {}
      invariant frontier <= comp <= g.nodes && source in comp
      invariant forall v :: v in comp ==> Connected(g, source, v)
      invariant forall u, v :: u in comp - frontier && v in g.nodes && Adjacent(g, u, v) ==> v in comp
      decreases g.nodes - comp, frontier
    {
      var u :| u in frontier;
      var newNodes := Neighbors(g, u) - comp;
      forall v | v in newNodes
        ensures Connected(g, source, v)
      {
        ConnectedStep(g, source, u, v);
      }
      comp := comp + newNodes;
      frontier := frontier - {u} + newNodes;
    }
    forall v | Connected(g, source, v)
      ensures v in comp
    {
      var p :| IsPath(g, p) && p[0] == source && p[|p| - 1] == v;
      ClosedKeepsPath(g, comp, p);
    }
  }

  /** `c` is a connected component: the nodes connected to its least node. */
  ghost predicate IsComponent(g: Graph, c: set<StationId>)
  {
    c != {} && forall v :: v in c <==> Connected(g, Least(c), v)
  }

  function Union(comps: seq<set<StationId>>): set<StationId>
  {
    if comps == [] then {} else Union(comps[..|comps| - 1]) + comps[|comps| - 1]
  }

  lemma {:induction false} InUnion(comps: seq<set<StationId>>, v: StationId)
    ensures v in Union(comps) <==> exists i :: 0 <= i < |comps| && v in comps[i]
  {
    if comps != [] {
      var prefix := comps[..|comps| - 1];
      InUnion(prefix, v);
      if exists i :: 0 <= i < |comps| && v in comps[i] {
        var i :| 0 <= i < |comps| && v in comps[i];
        if i < |comps| - 1 {
          assert v in prefix[i];
        }
      }
      if v in Union(prefix) {
        var i :| 0 <= i < |prefix| && v in prefix[i];
        assert v in comps[i];
      }
    }
  }

  /** The components found so far: components, pairwise disjoint, covering `seen`,
      in increasing order of their least nodes. */
  ghost predicate Partitioned(g: Graph, comps: seq<set<StationId>>, seen: set<StationId>)
  {
    && (forall i :: 0 <= i < |comps| ==> IsComponent(g, comps[i]))
    && seen == Union(comps)
    && (forall i, j :: 0 <= i < j < |comps| ==> comps[i] !! comps[j])
    && (forall i, j :: 0 <= i < j < |comps| ==> Least(comps[i]) < Least(comps[j]))
  }

  /** A node connected to a node of a found component is in that component. */
  lemma JoinsComponent(g: Graph, comps: seq<set<StationId>>, seen: set<StationId>, v: StationId, w: StationId)
    requires Partitioned(g, comps, seen) && v in seen && Connected(g, v, w)
    ensures w in seen
  {
    InUnion(comps, v);
    var i :| 0 <= i < |comps| && v in comps[i];
    ConnectedTrans(g, Least(comps[i]), v, w);
    InUnion(comps, w);
  }

  /** The component of a node not seen yet shares no node with the found ones, and
      that node is its least when every smaller node was seen. */
  lemma NewComponent(g: Graph, comps: seq<set<StationId>>, seen: set<StationId>, root: StationId, c: set<StationId>)
    requires Partitioned(g, comps, seen) && root in g.nodes && root !in seen
    requires forall v :: v in g.nodes && v < root ==> v in seen
    requires forall v :: v in c <==> Connected(g, root, v)
    ensures root in c && c !! seen && Least(c) == root && IsComponent(g, c)
  {
    ConnectedRefl(g, root);
    forall v | v in c
      ensures root <= v && v !in seen
    {
      ConnectedSymmetric(g, root, v);
      if v in seen {
        JoinsComponent(g, comps, seen, v, root);
        assert false;
      }
      if v < root {
        assert false;
      }
    }
  }

  /** Appending a component that is disjoint from the found ones and whose least
      node exceeds theirs keeps the partition. */
  lemma AddComponent(g: Graph, comps: seq<set<StationId>>, seen: set<StationId>, c: set<StationId>)
    requires Partitioned(g, comps, seen) && IsComponent(g, c) && c !! seen
    requires forall i :: 0 <= i < |comps| ==> Least(comps[i]) < Least(c)
    ensures Partitioned(g, comps + [c], seen + c)
  {
    var comps' := comps + [c];
    forall i | 0 <= i < |comps'|
      ensures IsComponent(g, comps'[i])
    {
      if i < |comps| {
        assert comps'[i] == comps[i];
      }
    }
    assert comps'[..|comps|] == comps;
    forall i, j | 0 <= i < j < |comps'|
      ensures comps'[i] !! comps'[j] && Least(comps'[i]) < Least(comps'[j])
    {
      if j == |comps| {
        assert comps[i] <= seen by {
          forall v | v in comps[i]
            ensures v in seen
          {
            InUnion(comps, v);
          }
        }
      }
    }
  }

  /** The scan of connected_components after the first `k` nodes of `order`. */
  ghost predicate Scanned(g: Graph, order: seq<StationId>, k: nat, comps: seq<set<StationId>>, seen: set<StationId>)
  {
    && k <= |order|
    && Partitioned(g, comps, seen) && seen <= g.nodes
    && (forall j :: 0 <= j < k ==> order[j] in seen)
    && (forall i, j :: 0 <= i < |comps| && k <= j < |order| ==> Least(comps[i]) < order[j])
  }

  /** The nodes in increasing order. */
  ghost predicate Enumerates(g: Graph, order: seq<StationId>)
  {
    && (forall i, j :: 0 <= i < j < |order| ==> order[i] < order[j])
    && (forall x :: x in g.nodes <==> x in order)
  }

  lemma ScanSeen(g: Graph, order: seq<StationId>, k: nat, comps: seq<set<StationId>>, seen: set<StationId>)
    requires Enumerates(g, order) && Scanned(g, order, k, comps, seen) && k < |order| && order[k] in seen
    ensures Scanned(g, order, k + 1, comps, seen)
  {
  }

  /** The nodes before `order[k]` in increasing order are exactly the smaller ones. */
  lemma BelowSeen(order: seq<StationId>, k: nat, seen: set<StationId>)
    requires forall i, j :: 0 <= i < j < |order| ==> order[i] < order[j]
    requires k < |order| && forall j :: 0 <= j < k ==> order[j] in seen
    ensures forall v :: v in order && v < order[k] ==> v in seen
  {
    forall v | v in order && v < order[k]
      ensures v in seen
    {
      var j :| 0 <= j < |order| && order[j] == v;
    }
  }

  lemma ComponentInNodes(g: Graph, root: StationId, c: set<StationId>)
    requires forall v :: v in c <==> Connected(g, root, v)
    ensures c <= g.nodes
  {
    forall v | v in c
      ensures v in g.nodes
    {
      var p :| IsPath(g, p) && p[0] == root && p[|p| - 1] == v;
    }
  }

  lemma LeastsBelow(comps: seq<set<StationId>>, c: set<StationId>, order: seq<StationId>, k: nat)
    requires forall i, j :: 0 <= i < j < |order| ==> order[i] < order[j]
    requires k < |order| && c != {} && Least(c) == order[k]
    requires forall i :: 0 <= i < |comps| ==> comps[i] != {}
    requires forall i, j :: 0 <= i < |comps| && k <= j < |order| ==> Least(comps[i]) < order[j]
    ensures forall i, j :: 0 <= i < |comps + [c]| && k + 1 <= j < |order| ==> Least((comps + [c])[i]) < order[j]
  {
    var comps' := comps + [c];
    forall i, j | 0 <= i < |comps'| && k + 1 <= j < |order|
      ensures Least(comps'[i]) < order[j]
    {
      if i < |comps| {
        assert comps'[i] == comps[i];
      }
    }
  }

  lemma ScanNew(g: Graph, order: seq<StationId>, k: nat, comps: seq<set<StationId>>, seen: set<StationId>, c: set<StationId>)
    requires Enumerates(g, order) && Scanned(g, order, k, comps, seen) && k < |order| && order[k] !in seen
    requires forall v :: v in c <==> Connected(g, order[k], v)
    ensures Scanned(g, order, k + 1, comps + [c], seen + c)
  {
    BelowSeen(order, k, seen);
    NewComponent(g, comps, seen, order[k], c);
    AddComponent(g, comps, seen, c);
    ComponentInNodes(g, order[k], c);
    LeastsBelow(comps, c, order, k);
  }

  /** nx.connected_components: the components, the first one holding the least
      node, each next one holding the least node not in an earlier one. Together
      they cover the nodes without overlap. */
  method Components(g: Graph) returns (comps: seq<set<StationId>>)
    ensures Partitioned(g, comps, g.nodes)
  {
    var order := Ascending(g.nodes);
    comps := [];
    var seen := {};
    for k := 0 to |order|
      invariant Scanned(g, order, k, comps, seen)
    {
      if order[k] in seen {
        ScanSeen(g, order, k, comps, seen);
      } else {
        var c := ComponentFrom(g, order[k]);
        ScanNew(g, order, k, comps, seen, c);
        comps, seen := comps + [c], seen + c;
      }
    }
    forall v | v in g.nodes
      ensures v in seen
    {
      var j :| 0 <= j < |order| && order[j] == v;
    }
  }

  // ---------------------------------------------------------------------------
  // Whole-graph queries

  /** Every two nodes are joined by a walk. */
  ghost predicate AllConnected(g: Graph)
  {
    forall u, v :: u in g.nodes && v in g.nodes ==> Connected(g, u, v)
  }

  /** nx.is_connected: the search from one node reaches every node. networkx
      refuses the graph without nodes, so the callers only ask about others. */
  method IsConnected(g: Graph) returns (b: bool)
    requires g.nodes != {}
    ensures b <==> AllConnected(g)
  {
    var root :| root in g.nodes;
    var comp := ComponentFrom(g, root);
    ComponentInNodes(g, root, comp);
    b := comp == g.nodes;
    if b {
      forall u, v | u in g.nodes && v in g.nodes
        ensures Connected(g, u, v)
      {
        ConnectedSymmetric(g, root, u);
        ConnectedTrans(g, u, root, v);
      }
    } else {
      var v :| v in g.nodes && v !in comp;
      assert !Connected(g, root, v);
    }
  }

  /** The graph is connected exactly when it has one component. */
  lemma OneComponent(g: Graph, comps: seq<set<StationId>>)
    requires Partitioned(g, comps, g.nodes) && g.nodes != {}
    ensures AllConnected(g) <==> |comps| == 1
  {
    InUnion(comps, Least(g.nodes));
    if AllConnected(g) && |comps| != 1 {
      assert false;
    }
    if |comps| == 1 {
      assert Union(comps) == comps[0] by {
        assert comps[..0] == [];
      }
      forall u, v | u in g.nodes && v in g.nodes
        ensures Connected(g, u, v)
      {
        ConnectedSymmetric(g, Least(comps[0]), u);
        ConnectedTrans(g, u, Least(comps[0]), v);
      }
    }
  }

  /** The total size of a sequence of sets. */
  function Sizes(comps: seq<set<StationId>>): nat
  {
    if comps == [] then 0 else Sizes(comps[..|comps| - 1]) + |comps[|comps| - 1]|
  }

  /** Disjoint components are as many nodes together as their union holds. */
  lemma {:induction false} SizesOfDisjoint(comps: seq<set<StationId>>)
    requires forall i, j :: 0 <= i < j < |comps| ==> comps[i] !! comps[j]
    ensures Sizes(comps) == |Union(comps)|
  {
    if comps != [] {
      var prefix := comps[..|comps| - 1];
      var last := comps[|comps| - 1];
      SizesOfDisjoint(prefix);
      forall v | v in Union(prefix)
        ensures v !in last
      {
        InUnion(prefix, v);
        var i :| 0 <= i < |prefix| && v in prefix[i];
        assert comps[i] !! comps[|comps| - 1];
      }
      assert Union(prefix) * last == {};
    }
  }

  /** The sizes of the components of a graph add up to its number of nodes. */
  lemma ComponentSizes(g: Graph, comps: seq<set<StationId>>)
    requires Partitioned(g, comps, g.nodes)
    ensures Sizes(comps) == |g.nodes|
  {
    SizesOfDisjoint(comps);
  }

  /** max(components, key=len): the position of the first component of the
      greatest size. */
  function Largest(comps: seq<set<StationId>>): (i: nat)
    requires comps != []
    ensures i < |comps|
    ensures forall j :: 0 <= j < |comps| ==> |comps[j]| <= |comps[i]|
    ensures forall j :: 0 <= j < i ==> |comps[j]| < |comps[i]|
  {
    if |comps| == 1 then 0
    else
      var k := Largest(comps[..|comps| - 1]);
      if |comps[|comps| - 1]| > |comps[k]| then |comps| - 1 else k
  }

  /** G.subgraph(keep): the nodes of `keep` and the edges joining two of them. */
  function Subgraph(g: Graph, keep: set<StationId>): Graph
  {
    Graph(g.nodes * keep, set e | e in g.edges && e.lo in keep && e.hi in keep)
  }

  /** In a subgraph two nodes are adjacent exactly when both are kept and they
      are adjacent in the whole graph. */
  lemma SubgraphAdjacent(g: Graph, keep: set<StationId>, u: StationId, v: StationId)
    ensures Adjacent(Subgraph(g, keep), u, v) <==> u in keep && v in keep && Adjacent(g, u, v)
  {
    if u != v {
      var e := Key(u, v);
      assert Touches(e, u) && Touches(e, v) && e.lo != e.hi;
      assert e.lo in keep && e.hi in keep <==> u in keep && v in keep;
    }
  }

  /** A subgraph of a well-formed graph is well formed. */
  lemma SubgraphWellFormed(g: Graph, keep: set<StationId>)
    requires WellFormed(g)
    ensures WellFormed(Subgraph(g, keep))
  {
  }

  /** G.remove_nodes_from(failed): the nodes left and the edges between them. */
  function RemoveNodes(g: Graph, failed: set<StationId>): (h: Graph)
    ensures h.nodes == g.nodes - failed
  {
    Subgraph(g, g.nodes - failed)
  }

  /** Removing nodes keeps exactly the edges of the whole graph that touch no
      removed node. */
  lemma RemovedEdges(g: Graph, failed: set<StationId>, e: Edge)
    requires WellFormed(g)
    ensures e in RemoveNodes(g, failed).edges <==> e in g.edges && e.lo !in failed && e.hi !in failed
  {
  }
}
