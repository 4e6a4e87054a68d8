/** create_networkx_graph: the two graphs the analysis hands to networkx. The graph
    of the resilience indicators holds the special stations, each with its transfer
    and terminal flags and its lines, joined by the simplified edges and their lines.
    The graph of mobility efficiency holds every station, joined by every edge of
    the full network and weighted by the edge's average travel time. networkx adds
    the two ends of an edge as nodes when they are not nodes yet. */
module Network {
  import opened Core
  import opened Graphs
  import opened Topology
  import opened Simplified
  import opened Transfers
  import TravelTimes

  /** The stations of the station table that are special: they get a node with attributes. */
  function SpecialRows(stations: seq<StationId>, special: set<StationId>): (rows: set<StationId>)
    ensures forall s :: s in rows <==> s in stations && s in special
    ensures rows <= special
    ensures (forall s :: s in special ==> s in stations) ==> rows == special
  {
    set s | s in stations && s in special
  }

  /** The graph built with `for_fri=True`. A node added only as the end of an edge
      carries no attributes, so it is neither a transfer nor a terminal and has no lines. */
  function FriGraphOf(stations: seq<StationId>, t: NetworkTopology): FriGraph
  {
    var rows := SpecialRows(stations, t.special);
    FriGraph(
      Graph(rows + Ends(t.edges.Keys), t.edges.Keys),
      rows * t.transfer,
      rows * t.terminal,
      map s | s in rows :: LinesAt(t.stationLines, s),
      map e | e in t.edges :: t.edges[e].lines)
  }

  /** Built from the topology of the analysis, the indicator graph has exactly the
      special stations as nodes, all of them flagged, is a simple graph, and every
      line of an edge is a line of both of its stations. */
  lemma FriGraphShape(stations: seq<StationId>, t: NetworkTopology)
    requires SimplifiedShape(t.special, t.stationLines, t.edges)
    requires t.special == SpecialVertices(t.transfer, t.terminal)
    requires forall s :: s in t.special ==> s in stations
    ensures FriGraphOf(stations, t).graph.nodes == t.special
    ensures FriGraphOf(stations, t).transfer == t.transfer
    ensures FriGraphOf(stations, t).terminal == t.terminal
    ensures WellFormed(FriGraphOf(stations, t).graph)
    ensures LinesAtEnds(FriGraphOf(stations, t))
  {
    var fg := FriGraphOf(stations, t);
    var rows := SpecialRows(stations, t.special);
    assert rows == t.special;
    forall s | s in Ends(t.edges.Keys)
      ensures s in t.special
    {
      var e :| e in t.edges && Touches(e, s);
    }
    forall e, l | e in fg.graph.edges && l in EdgeLinesOf(fg, e)
      ensures l in NodeLines(fg, e.lo) && l in NodeLines(fg, e.hi)
    {
      assert l in t.edges[e].lines;
    }
  }

  // ---------------------------------------------------------------------------
  // The graph of mobility efficiency

  /** A graph whose edges carry travel times in minutes. */
  datatype TimedGraph = TimedGraph(graph: Graph, time: map<Edge, real>)

  /** Every edge of the network has an average travel time. */
  predicate AllTimed(edges: EdgeMap)
  {
    forall e | e in edges :: edges[e].time.Some?
  }

  /** The graph built with `for_fri=False`, or None where an edge has no travel
      time: the source's estimate for that case divides by a constant it never
      defines, so building the graph fails there. */
  function FullGraphOf(stations: seq<StationId>, t: NetworkTopology): (r: Option<TimedGraph>)
    ensures r.Some? <==> forall e :: e in t.allEdges ==> t.allEdges[e].time.Some?
    ensures r.Some? ==> forall s :: s in stations ==> s in r.value.graph.nodes
    ensures r.Some? ==> r.value.graph.edges == t.allEdges.Keys
    ensures r.Some? ==> forall e :: e in t.allEdges ==> e in r.value.time && Some(r.value.time[e]) == t.allEdges[e].time
  {
    if AllTimed(t.allEdges) then
      var nodes := (set s | s in stations) + Ends(t.allEdges.Keys);
      Some(TimedGraph(Graph(nodes, t.allEdges.Keys), map e | e in t.allEdges :: t.allEdges[e].time.value))
    else
      None
  }

  /** Every edge has a travel time strictly between 0 and 30 minutes. */
  ghost predicate Plausible(tg: TimedGraph)
  {
    forall e :: e in tg.graph.edges ==> e in tg.time && 0.0 < tg.time[e] < TravelTimes.MaxSegmentMinutes
  }

  /** Built from sorted station pairs with plausible averages, the full graph is a
      simple graph whose every edge takes between 0 and 30 minutes. */
  lemma FullGraphShape(stations: seq<StationId>, t: NetworkTopology)
    requires ValidKeys(t.allEdges) && TimesPlausible(t.allEdges)
    requires FullGraphOf(stations, t).Some?
    ensures WellFormed(FullGraphOf(stations, t).value.graph)
    ensures Plausible(FullGraphOf(stations, t).value)
  {
    var tg := FullGraphOf(stations, t).value;
    forall e | e in tg.graph.edges
      ensures e.lo in tg.graph.nodes && e.hi in tg.graph.nodes
    {
      assert e.lo in Ends(t.allEdges.Keys);
    }
  }
}
