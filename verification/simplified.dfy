/** The simplified network of build_network_topology (the Derrible and Kennedy model):
    only transfer and terminal stations are kept as vertices, every trip joins its
    consecutive special stations, isolated special stations are attached to a
    connected special station of one of their lines, and edges used by one line
    and by several lines are counted. */
module Simplified {
  import opened Core
  import TravelTimes
  import opened Topology

  /** `station_lines.get(s, set())`. */
  function LinesAt(stationLines: map<StationId, set<Line>>, s: StationId): set<Line>
  {
    if s in stationLines then stationLines[s] else {}
  }

  // ---------------------------------------------------------------------------
  // Runs through special stations

  /** special_stops_in_order: the visits at special stations, where a visit at the
      same station as the one kept just before it is dropped. */
  function SpecialRun(vs: seq<Visit>, special: set<StationId>): (r: seq<Visit>)
    ensures forall i :: 0 <= i < |r| ==> r[i].station in special && r[i] in vs
    ensures forall i :: 0 < i < |r| ==> r[i - 1].station != r[i].station
  {
    if vs == [] then []
    else
      var prev := SpecialRun(vs[..|vs| - 1], special);
      var v := vs[|vs| - 1];
      if v.station in special && (prev == [] || prev[|prev| - 1].station != v.station) then prev + [v] else prev
  }

  /** Every special station a trip visits is kept in its special run. */
  lemma {:induction false} SpecialRunKeeps(vs: seq<Visit>, special: set<StationId>, i: nat)
    requires i < |vs| && vs[i].station in special
    ensures exists j :: 0 <= j < |SpecialRun(vs, special)| && SpecialRun(vs, special)[j].station == vs[i].station
  {
    var r := SpecialRun(vs, special);
    if i == |vs| - 1 {
      var prev := SpecialRun(vs[..|vs| - 1], special);
      if !(prev == [] || prev[|prev| - 1].station != vs[i].station) {
        assert r == prev && r[|r| - 1].station == vs[i].station;
      } else {
        assert r[|r| - 1] == vs[i];
      }
    } else {
      SpecialRunKeeps(vs[..|vs| - 1], special, i);
      var prev := SpecialRun(vs[..|vs| - 1], special);
      var j :| 0 <= j < |prev| && prev[j].station == vs[i].station;
      assert r[j] == prev[j];
    }
  }

  /** The runs of the simplified network. */
  function SpecialRuns(trips: seq<Trip>, stopToStation: map<StopId, StationId>, special: set<StationId>): (runs: seq<Run>)
    ensures |runs| == |trips|
  {
    seq(|trips|, i requires 0 <= i < |trips| => Run(trips[i].line, SpecialRun(Visits(trips[i].stops, stopToStation), special)))
  }

  lemma SpecialRunSnoc(vs: seq<Visit>, v: Visit, special: set<StationId>)
    ensures SpecialRun(vs + [v], special) ==
      var prev := SpecialRun(vs, special);
      if v.station in special && (prev == [] || prev[|prev| - 1].station != v.station) then prev + [v] else prev
  {
    assert (vs + [v])[..|vs|] == vs;
  }

  /** The first loop over one trip's stops: special_stops_in_order. */
  method SpecialStops(stops: seq<StopId>, stopToStation: map<StopId, StationId>, special: set<StationId>)
    returns (specialStops: seq<Visit>)
    ensures specialStops == SpecialRun(Visits(stops, stopToStation), special)
  {
    specialStops := [];
    ghost var vs: seq<Visit> := [];
    assert Visits(stops[..0], stopToStation) == [];
    for i := 0 to |stops|
      invariant vs == Visits(stops[..i], stopToStation)
      invariant specialStops == SpecialRun(vs, special)
    {
      VisitsStep(stops, stopToStation, i);
      if stops[i] in stopToStation {
        var stationId := stopToStation[stops[i]];
        SpecialRunSnoc(vs, Visit(stationId, stops[i]), special);
        if stationId in special {
          if specialStops == [] || specialStops[|specialStops| - 1].station != stationId {
            specialStops := specialStops + [Visit(stationId, stops[i])];
          }
        }
        vs := vs + [Visit(stationId, stops[i])];
      }
    }
    assert stops[..|stops|] == stops;
  }

  /** The second loop over one trip: an edge for each consecutive pair of special
      stops, whose travel time is taken from (current stop, next stop), else from
      (next stop, current stop), if the edge has none yet. */
  method JoinSpecialStops(dk0: EdgeMap, routeName: Line, specialStops: seq<Visit>, avg: TravelTimes.TravelTimeMap)
    returns (dk: EdgeMap)
    requires forall i :: 0 < i < |specialStops| ==> specialStops[i - 1].station != specialStops[i].station
    ensures dk == EdgeFold(dk0, routeName, specialStops, avg)
  {
    dk := dk0;
    if specialStops != [] {
      assert EdgeFold(dk0, routeName, specialStops[..1], avg) == dk0;
      for i := 0 to |specialStops| - 1
        invariant dk == EdgeFold(dk0, routeName, specialStops[..i + 1], avg)
      {
        assert specialStops[..i + 2][..i + 1] == specialStops[..i + 1];
        dk := RecordEdge(dk, routeName, specialStops[i], specialStops[i + 1], avg);
      }
      assert specialStops[..|specialStops|] == specialStops;
    }
  }

  /** One trip of the second pass of build_network_topology. */
  method SimplifyTrip(dk0: EdgeMap, routeName: Line, stops: seq<StopId>, stopToStation: map<StopId, StationId>,
                      special: set<StationId>, avg: TravelTimes.TravelTimeMap) returns (dk: EdgeMap)
    ensures dk == EdgeFold(dk0, routeName, SpecialRun(Visits(stops, stopToStation), special), avg)
  {
    var specialStops := SpecialStops(stops, stopToStation, special);
    dk := JoinSpecialStops(dk0, routeName, specialStops, avg);
  }

  /** The second loop of build_network_topology: dk_edges before the repair. */
  method BuildSimplified(trips: seq<Trip>, stopToStation: map<StopId, StationId>, special: set<StationId>,
                         avg: TravelTimes.TravelTimeMap) returns (dk: EdgeMap)
    ensures dk == EdgesUpTo(SpecialRuns(trips, stopToStation, special), |trips|, avg)
  {
    dk := map[];
    for k := 0 to |trips|
      invariant dk == EdgesUpTo(SpecialRuns(trips, stopToStation, special), k, avg)
    {
      dk := SimplifyTrip(dk, trips[k].line, trips[k].stops, stopToStation, special, avg);
    }
  }

  /** The ends of the key of two stations are those two stations. */
  lemma KeyEnds(a: StationId, b: StationId)
    requires a != b
    ensures {Key(a, b).lo, Key(a, b).hi} == {a, b}
  {
  }

  /** A station of the special run of trip `k` is special and served by the trip's
      line in the first pass. */
  lemma RunStationServed(trips: seq<Trip>, stopToStation: map<StopId, StationId>, special: set<StationId>, k: nat, j: nat)
    requires k < |trips| && j < |SpecialRuns(trips, stopToStation, special)[k].visits|
    ensures var v := SpecialRuns(trips, stopToStation, special)[k].visits[j].station;
      && v in special
      && trips[k].line in LinesAt(ServedUpTo(trips, |trips|, stopToStation).stationLines, v)
  {
    var vs := Visits(trips[k].stops, stopToStation);
    var a := SpecialRun(vs, special)[j];
    assert a in vs;
    assert StopsAt(trips, |trips|, stopToStation, k, a.station);
    ServedExactly(trips, |trips|, stopToStation, trips[k].line, a.station);
  }

  /** Both ends of a simplified edge are distinct special stations. */
  lemma SimplifiedEnds(trips: seq<Trip>, stopToStation: map<StopId, StationId>, special: set<StationId>,
                       avg: TravelTimes.TravelTimeMap, e: Edge)
    requires e in EdgesUpTo(SpecialRuns(trips, stopToStation, special), |trips|, avg)
    ensures ValidEdge(e) && e.lo in special && e.hi in special
  {
    var runs := SpecialRuns(trips, stopToStation, special);
    EdgesPresent(runs, |trips|, avg, e);
    var k :| RunsAlong(runs, |trips|, k, e);
    var i :| Traverses(runs[k].visits, i, e);
    RunStationServed(trips, stopToStation, special, k, i - 1);
    RunStationServed(trips, stopToStation, special, k, i);
    KeyEnds(runs[k].visits[i - 1].station, runs[k].visits[i].station);
  }

  /** Every line on a simplified edge serves both of its ends in the first pass. */
  lemma SimplifiedLines(trips: seq<Trip>, stopToStation: map<StopId, StationId>, special: set<StationId>,
                        avg: TravelTimes.TravelTimeMap, e: Edge, l: Line)
    requires e in EdgesUpTo(SpecialRuns(trips, stopToStation, special), |trips|, avg)
    requires l in EdgesUpTo(SpecialRuns(trips, stopToStation, special), |trips|, avg)[e].lines
    ensures var stationLines := ServedUpTo(trips, |trips|, stopToStation).stationLines;
      l in LinesAt(stationLines, e.lo) && l in LinesAt(stationLines, e.hi)
  {
    var runs := SpecialRuns(trips, stopToStation, special);
    assert DataOf(EdgesUpTo(runs, |trips|, avg), e) == EdgesUpTo(runs, |trips|, avg)[e];
    EdgeLines(runs, |trips|, avg, e, l);
    var k :| RunsAlong(runs, |trips|, k, e) && runs[k].line == l;
    assert trips[k].line == l;
    var i :| Traverses(runs[k].visits, i, e);
    RunStationServed(trips, stopToStation, special, k, i - 1);
    RunStationServed(trips, stopToStation, special, k, i);
    KeyEnds(runs[k].visits[i - 1].station, runs[k].visits[i].station);
  }

  // ---------------------------------------------------------------------------
  // Repair of isolated special stations

  /** `s` is an end of some edge of `dk`. */
  ghost predicate HasEdge(dk: EdgeMap, s: StationId)
  {
    exists e :: e in dk && Touches(e, s)
  }

  /** The stations at the ends of some edge of `edges`. */
  function Ends(edges: set<Edge>): (r: set<StationId>)
    ensures forall s :: s in r <==> exists e :: e in edges && Touches(e, s)
  {
    (set e | e in edges :: e.lo) + (set e | e in edges :: e.hi)
  }

  /** The edges of `keys` at station `s`. */
  function EdgesAt(keys: set<Edge>, s: StationId): set<Edge>
  {
    set e | e in keys && Touches(e, s)
  }

  /** vertex_edges after every edge of `keys` is entered: an entry for exactly the
      stations at the end of some edge, holding the edges at that station. */
  function VertexEdgesOf(keys: set<Edge>): (r: map<StationId, set<Edge>>)
    ensures forall s :: s in r <==> exists e :: e in keys && Touches(e, s)
    ensures forall s :: s in r ==> forall e :: e in r[s] <==> e in keys && Touches(e, s)
  {
    map s | s in Ends(keys) :: EdgesAt(keys, s)
  }

  lemma EdgesAtAdd(done: set<Edge>, edge: Edge, s: StationId)
    ensures EdgesAt(done + {edge}, s) == EdgesAt(done, s) + (if Touches(edge, s) then {edge} else {})
  {
  }

  /** The entry after entering `edge` into `ve`, as the loop body writes it. */
  function EnterEdge(ve: map<StationId, set<Edge>>, edge: Edge): map<StationId, set<Edge>>
  {
    var ve1 := ve[edge.lo := (if edge.lo in ve then ve[edge.lo] else {}) + {edge}];
    ve1[edge.hi := (if edge.hi in ve1 then ve1[edge.hi] else {}) + {edge}]
  }

  lemma EndsAdd(done: set<Edge>, edge: Edge)
    ensures Ends(done + {edge}) == Ends(done) + {edge.lo, edge.hi}
  {
  }

  /** An entered edge is added to the entries of its ends and of no other station. */
  lemma EnterEdgeValue(ve: map<StationId, set<Edge>>, edge: Edge, s: StationId)
    ensures s in EnterEdge(ve, edge) <==> s in ve || Touches(edge, s)
    ensures s in EnterEdge(ve, edge) ==>
      EnterEdge(ve, edge)[s] == (if s in ve then ve[s] else {}) + (if Touches(edge, s) then {edge} else {})
  {
    if s == edge.lo && s != edge.hi {
      assert EnterEdge(ve, edge)[s] == (if s in ve then ve[s] else {}) + {edge};
    }
  }

  /** The stations with an entry hold exactly the edges at them. */
  lemma VertexEdgesAt(keys: set<Edge>, s: StationId)
    ensures (if s in VertexEdgesOf(keys) then VertexEdgesOf(keys)[s] else {}) == EdgesAt(keys, s)
  {
  }

  lemma EnterEdgeAt(done: set<Edge>, edge: Edge, s: StationId)
    requires s in VertexEdgesOf(done + {edge})
    ensures s in EnterEdge(VertexEdgesOf(done), edge)
    ensures VertexEdgesOf(done + {edge})[s] == EnterEdge(VertexEdgesOf(done), edge)[s]
  {
    EndsAdd(done, edge);
    EnterEdgeValue(VertexEdgesOf(done), edge, s);
    VertexEdgesAt(done, s);
    VertexEdgesAt(done + {edge}, s);
    EdgesAtAdd(done, edge, s);
  }

  /** Entering one more edge adds it to the entries of both its ends. */
  lemma VertexEdgesStep(done: set<Edge>, edge: Edge)
    ensures VertexEdgesOf(done + {edge}) == EnterEdge(VertexEdgesOf(done), edge)
  {
    var after, ve2 := VertexEdgesOf(done + {edge}), EnterEdge(VertexEdgesOf(done), edge);
    EndsAdd(done, edge);
    assert after.Keys == ve2.Keys;
    forall s | s in after
      ensures after[s] == ve2[s]
    {
      EnterEdgeAt(done, edge, s);
    }
  }

  /** vertex_edges: the loop that enters every edge under both of its ends. */
  method VertexEdges(dk: EdgeMap) returns (vertexEdges: map<StationId, set<Edge>>)
    ensures vertexEdges == VertexEdgesOf(dk.Keys)
    ensures forall s :: s in vertexEdges && vertexEdges[s] != {} <==> HasEdge(dk, s)
  {
    vertexEdges := map[];
    var rest, done := dk.Keys, {};
    while rest != {}
      invariant rest !! done && rest + done == dk.Keys
      invariant vertexEdges == VertexEdgesOf(done)
      decreases rest
    {
      var edge :| edge in rest;
      VertexEdgesStep(done, edge);
      vertexEdges := vertexEdges[edge.lo := (if edge.lo in vertexEdges then vertexEdges[edge.lo] else {}) + {edge}];
      vertexEdges := vertexEdges[edge.hi := (if edge.hi in vertexEdges then vertexEdges[edge.hi] else {}) + {edge}];
      assert vertexEdges == EnterEdge(VertexEdgesOf(done), edge);
      rest, done := rest - {edge}, done + {edge};
    }
    forall s | HasEdge(dk, s)
      ensures s in vertexEdges && vertexEdges[s] != {}
    {
      var e :| e in dk && Touches(e, s);
      assert e in vertexEdges[s];
    }
  }

  /** isolated_vertices: the stations of `order` that are an end of no edge, in order. */
  function Isolated(order: seq<StationId>, vertexEdges: map<StationId, set<Edge>>): (r: seq<StationId>)
    ensures forall v :: v in r <==> v in order && (v !in vertexEdges || vertexEdges[v] == {})
  {
    if order == [] then []
    else
      var prev := Isolated(order[..|order| - 1], vertexEdges);
      var v := order[|order| - 1];
      assert forall u :: u in order <==> u in order[..|order| - 1] || u == v;
      if v !in vertexEdges || vertexEdges[v] == {} then prev + [v] else prev
  }

  /** connected_vertices for a line: the stations of `order` served by `line` that
      are an end of some edge, in order. */
  function ConnectedOn(order: seq<StationId>, stationLines: map<StationId, set<Line>>,
                       vertexEdges: map<StationId, set<Edge>>, line: Line): (r: seq<StationId>)
    ensures forall u :: u in r <==> u in order && line in LinesAt(stationLines, u) && u in vertexEdges && vertexEdges[u] != {}
  {
    if order == [] then []
    else
      var prev := ConnectedOn(order[..|order| - 1], stationLines, vertexEdges, line);
      var u := order[|order| - 1];
      assert forall x :: x in order <==> x in order[..|order| - 1] || x == u;
      if line in LinesAt(stationLines, u) && u in vertexEdges && vertexEdges[u] != {} then prev + [u] else prev
  }

  /** No station is listed twice, as in the iteration order of a set. */
  predicate Distinct(xs: seq<StationId>)
  {
    forall i, j :: 0 <= i < j < |xs| ==> xs[i] != xs[j]
  }

  /** The isolated stations of a list without repeats are listed once each. */
  lemma {:induction false} IsolatedDistinct(order: seq<StationId>, vertexEdges: map<StationId, set<Edge>>)
    requires Distinct(order)
    ensures Distinct(Isolated(order, vertexEdges))
  {
    if order != [] {
      var prefix := order[..|order| - 1];
      var v := order[|order| - 1];
      IsolatedDistinct(prefix, vertexEdges);
      assert v !in prefix;
      assert v !in Isolated(prefix, vertexEdges);
    }
  }

  /** station_lines.get(v, set()), iterated in the order `lineOrder[v]`. */
  function LinesOf(lineOrder: map<StationId, seq<Line>>, stationLines: map<StationId, set<Line>>, v: StationId): seq<Line>
  {
    if v in lineOrder && v in stationLines then lineOrder[v] else []
  }

  /** The edge the repair adds for the isolated station `v` on `line`: the sorted pair
      of `v` and the first connected special station on that line. */
  function RepairKey(order: seq<StationId>, stationLines: map<StationId, set<Line>>,
                     vertexEdges: map<StationId, set<Edge>>, v: StationId, line: Line): (e: Edge)
    requires v !in vertexEdges || vertexEdges[v] == {}
    requires ConnectedOn(order, stationLines, vertexEdges, line) != []
    ensures ValidEdge(e) && Touches(e, v)
    ensures Other(e, v) == ConnectedOn(order, stationLines, vertexEdges, line)[0]
    ensures Other(e, v) in vertexEdges && vertexEdges[Other(e, v)] != {}
  {
    var c := ConnectedOn(order, stationLines, vertexEdges, line);
    assert c[0] in c;
    Key(v, c[0])
  }

  /** The inner loop for the isolated station `v` from its `j`-th line on: the first
      line with a connected special station whose edge to `v` is not there yet gets
      that edge, with the line and no travel time, and the loop stops there. */
  function AttachFrom(dk: EdgeMap, v: StationId, order: seq<StationId>, stationLines: map<StationId, set<Line>>,
                      vertexEdges: map<StationId, set<Edge>>, lines: seq<Line>, j: nat): EdgeMap
    requires j <= |lines|
    requires v !in vertexEdges || vertexEdges[v] == {}
    decreases |lines| - j
  {
    if j == |lines| then dk
    else if ConnectedOn(order, stationLines, vertexEdges, lines[j]) == [] then
      AttachFrom(dk, v, order, stationLines, vertexEdges, lines, j + 1)
    else
      var e := RepairKey(order, stationLines, vertexEdges, v, lines[j]);
      if e !in dk then dk[e := EdgeData({lines[j]}, None)]
      else AttachFrom(dk, v, order, stationLines, vertexEdges, lines, j + 1)
  }

  /** The inner loop only adds edges from `v` to connected special stations. */
  lemma {:induction false} AttachFromAdds(dk: EdgeMap, v: StationId, order: seq<StationId>, stationLines: map<StationId, set<Line>>,
                                          vertexEdges: map<StationId, set<Edge>>, lines: seq<Line>, j: nat)
    requires j <= |lines|
    requires v !in vertexEdges || vertexEdges[v] == {}
    ensures forall e :: e in AttachFrom(dk, v, order, stationLines, vertexEdges, lines, j) && e !in dk ==>
      ValidEdge(e) && Touches(e, v) && Other(e, v) in vertexEdges && vertexEdges[Other(e, v)] != {}
    decreases |lines| - j
  {
    if j < |lines| {
      AttachFromAdds(dk, v, order, stationLines, vertexEdges, lines, j + 1);
    }
  }

  /** The first of the lines from the `j`-th on that has a connected special station. */
  function FirstConnected(order: seq<StationId>, stationLines: map<StationId, set<Line>>,
                          vertexEdges: map<StationId, set<Edge>>, lines: seq<Line>, j: nat): (r: Option<nat>)
    requires j <= |lines|
    ensures r.Some? ==> j <= r.value < |lines| && ConnectedOn(order, stationLines, vertexEdges, lines[r.value]) != []
    ensures r.Some? ==> forall k :: j <= k < r.value ==> ConnectedOn(order, stationLines, vertexEdges, lines[k]) == []
    ensures r.None? ==> forall k :: j <= k < |lines| ==> ConnectedOn(order, stationLines, vertexEdges, lines[k]) == []
    decreases |lines| - j
  {
    if j == |lines| then None
    else if ConnectedOn(order, stationLines, vertexEdges, lines[j]) != [] then Some(j)
    else FirstConnected(order, stationLines, vertexEdges, lines, j + 1)
  }

  /** While no edge is at `v`, the inner loop adds exactly one edge: to the first
      connected special station on the first line that has one; with no such line it
      adds nothing. The `edge not in dk_edges` test then never fails. */
  lemma {:induction false} AttachFresh(dk: EdgeMap, v: StationId, order: seq<StationId>, stationLines: map<StationId, set<Line>>,
                                       vertexEdges: map<StationId, set<Edge>>, lines: seq<Line>, j: nat)
    requires j <= |lines|
    requires v !in vertexEdges || vertexEdges[v] == {}
    requires !HasEdge(dk, v)
    ensures match FirstConnected(order, stationLines, vertexEdges, lines, j)
      case None => AttachFrom(dk, v, order, stationLines, vertexEdges, lines, j) == dk
      case Some(k) => AttachFrom(dk, v, order, stationLines, vertexEdges, lines, j)
                      == dk[RepairKey(order, stationLines, vertexEdges, v, lines[k]) := EdgeData({lines[k]}, None)]
    decreases |lines| - j
  {
    if j < |lines| {
      if ConnectedOn(order, stationLines, vertexEdges, lines[j]) == [] {
        AttachFresh(dk, v, order, stationLines, vertexEdges, lines, j + 1);
      } else {
        var e := RepairKey(order, stationLines, vertexEdges, v, lines[j]);
        assert e !in dk;
      }
    }
  }

  /** The repaired edges after the inner loop has run for the first `n` isolated stations. */
  function RepairUpTo(dk0: EdgeMap, order: seq<StationId>, stationLines: map<StationId, set<Line>>,
                      lineOrder: map<StationId, seq<Line>>, vertexEdges: map<StationId, set<Edge>>,
                      isolated: seq<StationId>, n: nat): EdgeMap
    requires n <= |isolated|
    requires forall v :: v in isolated ==> v !in vertexEdges || vertexEdges[v] == {}
  {
    if n == 0 then dk0
    else
      var v := isolated[n - 1];
      AttachFrom(RepairUpTo(dk0, order, stationLines, lineOrder, vertexEdges, isolated, n - 1),
                 v, order, stationLines, vertexEdges, LinesOf(lineOrder, stationLines, v), 0)
  }

  /** dk_edges after the repair loop: every isolated special station, in `order`, runs
      the inner loop against vertex_edges as it was before the repair. */
  function Repair(dk0: EdgeMap, stationLines: map<StationId, set<Line>>,
                  order: seq<StationId>, lineOrder: map<StationId, seq<Line>>): EdgeMap
  {
    var ve := VertexEdgesOf(dk0.Keys);
    var iso := Isolated(order, ve);
    RepairUpTo(dk0, order, stationLines, lineOrder, ve, iso, |iso|)
  }

  /** No edge from the repair of the first `n` isolated stations is at a later one. */
  lemma {:induction false} RepairUntouched(dk0: EdgeMap, order: seq<StationId>, stationLines: map<StationId, set<Line>>,
                                           lineOrder: map<StationId, seq<Line>>, isolated: seq<StationId>, n: nat, m: nat)
    requires n <= m < |isolated| && Distinct(isolated)
    requires forall v :: v in isolated ==> v !in VertexEdgesOf(dk0.Keys)
    ensures !HasEdge(RepairUpTo(dk0, order, stationLines, lineOrder, VertexEdgesOf(dk0.Keys), isolated, n), isolated[m])
  {
    var ve := VertexEdgesOf(dk0.Keys);
    var w := isolated[m];
    assert w in isolated;
    if n > 0 {
      var prev := RepairUpTo(dk0, order, stationLines, lineOrder, ve, isolated, n - 1);
      var v := isolated[n - 1];
      assert v in isolated && v != w;
      RepairUntouched(dk0, order, stationLines, lineOrder, isolated, n - 1, m);
      AttachFromAdds(prev, v, order, stationLines, ve, LinesOf(lineOrder, stationLines, v), 0);
    }
  }

  /** With the stations of `order` listed once each, every isolated special station in
      turn adds exactly one edge, to the first connected special station on the first
      of its lines that has one, or no edge when none of its lines has one. */
  lemma RepairStep(dk0: EdgeMap, stationLines: map<StationId, set<Line>>,
                   order: seq<StationId>, lineOrder: map<StationId, seq<Line>>, n: nat)
    requires Distinct(order)
    requires n < |Isolated(order, VertexEdgesOf(dk0.Keys))|
    ensures var ve := VertexEdgesOf(dk0.Keys);
      var iso := Isolated(order, ve);
      var lines := LinesOf(lineOrder, stationLines, iso[n]);
      var before := RepairUpTo(dk0, order, stationLines, lineOrder, ve, iso, n);
      match FirstConnected(order, stationLines, ve, lines, 0)
      case None => RepairUpTo(dk0, order, stationLines, lineOrder, ve, iso, n + 1) == before
      case Some(k) => RepairUpTo(dk0, order, stationLines, lineOrder, ve, iso, n + 1)
                      == before[RepairKey(order, stationLines, ve, iso[n], lines[k]) := EdgeData({lines[k]}, None)]
  {
    var ve := VertexEdgesOf(dk0.Keys);
    var iso := Isolated(order, ve);
    IsolatedDistinct(order, ve);
    RepairUntouched(dk0, order, stationLines, lineOrder, iso, n, n);
    var before := RepairUpTo(dk0, order, stationLines, lineOrder, ve, iso, n);
    AttachFresh(before, iso[n], order, stationLines, ve, LinesOf(lineOrder, stationLines, iso[n]), 0);
  }

  /** A special station without edges and a special station with edges share `line`. */
  ghost predicate Joins(dk0: EdgeMap, special: set<StationId>, stationLines: map<StationId, set<Line>>,
                        a: StationId, b: StationId, line: Line)
  {
    && a in special && !HasEdge(dk0, a) && line in LinesAt(stationLines, a)
    && b in special && HasEdge(dk0, b) && line in LinesAt(stationLines, b)
  }

  /** An edge added by the repair: one line, no travel time, from an isolated special
      station to a connected special station on that line. */
  ghost predicate RepairEdge(dk0: EdgeMap, special: set<StationId>, stationLines: map<StationId, set<Line>>, e: Edge, d: EdgeData)
  {
    && ValidEdge(e) && d.time.None?
    && exists line :: d.lines == {line}
         && (Joins(dk0, special, stationLines, e.lo, e.hi, line) || Joins(dk0, special, stationLines, e.hi, e.lo, line))
  }

  /** An isolated special station `v` can be attached: one of its lines serves a special station with edges. */
  ghost predicate Attachable(dk0: EdgeMap, special: set<StationId>, stationLines: map<StationId, set<Line>>, v: StationId)
  {
    exists line, u :: Joins(dk0, special, stationLines, v, u, line)
  }

  /** `dk` keeps every edge of `dk` before it unchanged. */
  ghost predicate Extends(before: EdgeMap, dk: EdgeMap)
  {
    forall e :: e in before ==> e in dk && dk[e] == before[e]
  }

  /** `dk` is `dk0` plus repair edges only. */
  ghost predicate Repaired(dk0: EdgeMap, special: set<StationId>, stationLines: map<StationId, set<Line>>, dk: EdgeMap)
  {
    && Extends(dk0, dk)
    && forall e :: e in dk && e !in dk0 ==> RepairEdge(dk0, special, stationLines, e, dk[e])
  }

  lemma ExtendsHasEdge(before: EdgeMap, dk: EdgeMap, s: StationId)
    requires Extends(before, dk) && HasEdge(before, s)
    ensures HasEdge(dk, s)
  {
    var e :| e in before && Touches(e, s);
    assert e in dk;
  }

  /** The lines of an attachable station include one with a connected special station. */
  lemma AttachableLine(dk0: EdgeMap, special: set<StationId>, stationLines: map<StationId, set<Line>>,
                       order: seq<StationId>, lineOrder: map<StationId, seq<Line>>,
                       vertexEdges: map<StationId, set<Edge>>, v: StationId, vertexLines: seq<Line>)
    requires forall u :: u in order <==> u in special
    requires forall u :: u in stationLines ==> u in lineOrder && forall l :: l in lineOrder[u] <==> l in stationLines[u]
    requires forall s :: s in vertexEdges && vertexEdges[s] != {} <==> HasEdge(dk0, s)
    requires vertexLines == if v in lineOrder && v in stationLines then lineOrder[v] else []
    ensures Attachable(dk0, special, stationLines, v) ==>
      exists j :: 0 <= j < |vertexLines| && ConnectedOn(order, stationLines, vertexEdges, vertexLines[j]) != []
  {
    if Attachable(dk0, special, stationLines, v) {
      var line, u :| Joins(dk0, special, stationLines, v, u, line);
      var j :| 0 <= j < |vertexLines| && vertexLines[j] == line;
      assert u in ConnectedOn(order, stationLines, vertexEdges, line);
    }
  }

  /** The inner loop from the `j`-th line on only adds repair edges, and it leaves `v`
      with an edge unless `v` had one or no later line has a connected special station. */
  lemma {:induction false} AttachFromRepaired(dk0: EdgeMap, special: set<StationId>, stationLines: map<StationId, set<Line>>,
                                              order: seq<StationId>, vertexEdges: map<StationId, set<Edge>>, dk: EdgeMap,
                                              v: StationId, lines: seq<Line>, j: nat)
    requires forall u :: u in order <==> u in special
    requires forall s :: s in vertexEdges && vertexEdges[s] != {} <==> HasEdge(dk0, s)
    requires v in special && !HasEdge(dk0, v) && j <= |lines|
    requires forall k :: 0 <= k < |lines| ==> lines[k] in LinesAt(stationLines, v)
    requires Repaired(dk0, special, stationLines, dk)
    ensures var dk' := AttachFrom(dk, v, order, stationLines, vertexEdges, lines, j);
      && Repaired(dk0, special, stationLines, dk') && Extends(dk, dk')
      && (HasEdge(dk', v) || HasEdge(dk, v) || forall k :: j <= k < |lines| ==> ConnectedOn(order, stationLines, vertexEdges, lines[k]) == [])
    decreases |lines| - j
  {
    if j < |lines| {
      var c := ConnectedOn(order, stationLines, vertexEdges, lines[j]);
      if c == [] {
        AttachFromRepaired(dk0, special, stationLines, order, vertexEdges, dk, v, lines, j + 1);
      } else {
        var e := RepairKey(order, stationLines, vertexEdges, v, lines[j]);
        assert c[0] in c && e == Key(v, c[0]);
        if e !in dk {
          AddRepairEdge(dk0, special, stationLines, dk, dk, v, c[0], lines[j]);
          assert e in AttachFrom(dk, v, order, stationLines, vertexEdges, lines, j);
        } else {
          assert HasEdge(dk, v);
          AttachFromRepaired(dk0, special, stationLines, order, vertexEdges, dk, v, lines, j + 1);
        }
      }
    }
  }

  /** The body of the repair loop for one isolated special station: its lines are
      tried in turn until one has a connected special station whose edge to it is
      not there yet; that edge is added and the search stops. */
  method Attach(dk0: EdgeMap, special: set<StationId>, stationLines: map<StationId, set<Line>>,
                order: seq<StationId>, lineOrder: map<StationId, seq<Line>>,
                vertexEdges: map<StationId, set<Edge>>, dk: EdgeMap, isolatedVertex: StationId)
    returns (dk': EdgeMap)
    requires forall v :: v in order <==> v in special
    requires forall v :: v in stationLines ==> v in lineOrder && forall l :: l in lineOrder[v] <==> l in stationLines[v]
    requires forall s :: s in vertexEdges && vertexEdges[s] != {} <==> HasEdge(dk0, s)
    requires isolatedVertex in special && !HasEdge(dk0, isolatedVertex)
    requires Repaired(dk0, special, stationLines, dk)
    ensures dk' == AttachFrom(dk, isolatedVertex, order, stationLines, vertexEdges,
                              LinesOf(lineOrder, stationLines, isolatedVertex), 0)
    ensures Repaired(dk0, special, stationLines, dk') && Extends(dk, dk')
    ensures Settled(dk0, special, stationLines, dk', isolatedVertex)
  {
    var vertexLines := if isolatedVertex in lineOrder && isolatedVertex in stationLines then lineOrder[isolatedVertex] else [];
    ghost var spec := AttachFrom(dk, isolatedVertex, order, stationLines, vertexEdges, vertexLines, 0);
    dk' := dk;
    var j, attached := 0, false;
    while j < |vertexLines| && !attached
      invariant 0 <= j <= |vertexLines|
      invariant attached ==> dk' == spec
      invariant !attached ==> dk' == dk && spec == AttachFrom(dk, isolatedVertex, order, stationLines, vertexEdges, vertexLines, j)
      decreases |vertexLines| - j, if attached then 0 else 1
    {
      var lineName := vertexLines[j];
      var connectedVertices := ConnectedOn(order, stationLines, vertexEdges, lineName);
      if connectedVertices != [] {
        var nearestVertex := connectedVertices[0];
        assert nearestVertex in connectedVertices;
        var edge := Key(isolatedVertex, nearestVertex);
        assert edge == RepairKey(order, stationLines, vertexEdges, isolatedVertex, lineName);
        if edge !in dk' {
          dk' := dk'[edge := EdgeData({lineName}, None)];
          attached := true;
        }
      }
      j := j + 1;
    }
    forall k | 0 <= k < |vertexLines|
      ensures vertexLines[k] in LinesAt(stationLines, isolatedVertex)
    {
      assert vertexLines[k] in vertexLines;
    }
    AttachFromRepaired(dk0, special, stationLines, order, vertexEdges, dk, isolatedVertex, vertexLines, 0);
    AttachableLine(dk0, special, stationLines, order, lineOrder, vertexEdges, isolatedVertex, vertexLines);
  }

  /** Adding the edge from an isolated station `a` to a connected station `b` on their
      common line keeps the repair invariant. */
  lemma AddRepairEdge(dk0: EdgeMap, special: set<StationId>, stationLines: map<StationId, set<Line>>,
                      dk: EdgeMap, dk': EdgeMap, a: StationId, b: StationId, line: Line)
    requires Repaired(dk0, special, stationLines, dk') && Extends(dk, dk')
    requires a in special && !HasEdge(dk0, a) && line in LinesAt(stationLines, a)
    requires b in special && HasEdge(dk0, b) && line in LinesAt(stationLines, b)
    requires Key(a, b) !in dk'
    ensures var dk'' := dk'[Key(a, b) := EdgeData({line}, None)];
      Repaired(dk0, special, stationLines, dk'') && Extends(dk, dk'')
  {
    assert a != b;
    var edge := Key(a, b);
    var dk'' := dk'[edge := EdgeData({line}, None)];
    assert Joins(dk0, special, stationLines, a, b, line);
    assert RepairEdge(dk0, special, stationLines, edge, dk''[edge]);
    assert Extends(dk', dk'');
  }

  /** After the repair, `v` has an edge or could not be attached. */
  ghost predicate Settled(dk0: EdgeMap, special: set<StationId>, stationLines: map<StationId, set<Line>>, dk: EdgeMap, v: StationId)
  {
    HasEdge(dk, v) || !Attachable(dk0, special, stationLines, v)
  }

  /** The first `n` stations of `vs` are settled. */
  ghost predicate SettledPrefix(dk0: EdgeMap, special: set<StationId>, stationLines: map<StationId, set<Line>>,
                                dk: EdgeMap, vs: seq<StationId>, n: nat)
  {
    n <= |vs| && forall j :: 0 <= j < n ==> Settled(dk0, special, stationLines, dk, vs[j])
  }

  /** Settled stations stay settled as edges are added, and settling the next one extends the prefix. */
  lemma SettledStep(dk0: EdgeMap, special: set<StationId>, stationLines: map<StationId, set<Line>>,
                    dk: EdgeMap, dk': EdgeMap, vs: seq<StationId>, n: nat)
    requires SettledPrefix(dk0, special, stationLines, dk, vs, n) && n < |vs|
    requires Extends(dk, dk') && Settled(dk0, special, stationLines, dk', vs[n])
    ensures SettledPrefix(dk0, special, stationLines, dk', vs, n + 1)
  {
    forall j | 0 <= j < n && HasEdge(dk, vs[j])
      ensures HasEdge(dk', vs[j])
    {
      ExtendsHasEdge(dk, dk', vs[j]);
    }
  }

  /** The repair loop: every special station without edges, taken in the iteration
      order `order` of the special set, is joined to the first station with edges on
      the first of its lines (taken in the iteration order `lineOrder[v]` of its line
      set) that has one. Existing edges are never changed, every added edge joins an
      isolated special station to a connected special station sharing its one line,
      and every isolated special station that shares a line with a connected special
      station ends up with an edge. */
  method RepairIsolated(dk0: EdgeMap, special: set<StationId>, stationLines: map<StationId, set<Line>>,
                        order: seq<StationId>, lineOrder: map<StationId, seq<Line>>) returns (dk: EdgeMap)
    requires forall v :: v in order <==> v in special
    requires forall v :: v in stationLines ==> v in lineOrder && forall l :: l in lineOrder[v] <==> l in stationLines[v]
    ensures dk == Repair(dk0, stationLines, order, lineOrder)
    ensures Repaired(dk0, special, stationLines, dk)
    ensures forall v :: v in special && !HasEdge(dk0, v) && Attachable(dk0, special, stationLines, v) ==> HasEdge(dk, v)
  {
    var vertexEdges := VertexEdges(dk0);
    var isolatedVertices := Isolated(order, vertexEdges);
    dk := dk0;
    for i := 0 to |isolatedVertices|
      invariant dk == RepairUpTo(dk0, order, stationLines, lineOrder, vertexEdges, isolatedVertices, i)
      invariant Repaired(dk0, special, stationLines, dk)
      invariant SettledPrefix(dk0, special, stationLines, dk, isolatedVertices, i)
    {
      dk := RepairOne(dk0, special, stationLines, order, lineOrder, vertexEdges, isolatedVertices, i, dk);
    }
    AllSettled(dk0, special, stationLines, order, vertexEdges, dk);
  }

  /** One turn of the repair loop: the inner loop for the `i`-th isolated station. */
  method RepairOne(dk0: EdgeMap, special: set<StationId>, stationLines: map<StationId, set<Line>>,
                   order: seq<StationId>, lineOrder: map<StationId, seq<Line>>,
                   vertexEdges: map<StationId, set<Edge>>, isolatedVertices: seq<StationId>, i: nat, dk: EdgeMap)
    returns (dk': EdgeMap)
    requires forall v :: v in order <==> v in special
    requires forall v :: v in stationLines ==> v in lineOrder && forall l :: l in lineOrder[v] <==> l in stationLines[v]
    requires forall s :: s in vertexEdges && vertexEdges[s] != {} <==> HasEdge(dk0, s)
    requires isolatedVertices == Isolated(order, vertexEdges) && i < |isolatedVertices|
    requires dk == RepairUpTo(dk0, order, stationLines, lineOrder, vertexEdges, isolatedVertices, i)
    requires Repaired(dk0, special, stationLines, dk)
    requires SettledPrefix(dk0, special, stationLines, dk, isolatedVertices, i)
    ensures dk' == RepairUpTo(dk0, order, stationLines, lineOrder, vertexEdges, isolatedVertices, i + 1)
    ensures Repaired(dk0, special, stationLines, dk')
    ensures SettledPrefix(dk0, special, stationLines, dk', isolatedVertices, i + 1)
  {
    assert isolatedVertices[i] in isolatedVertices;
    dk' := Attach(dk0, special, stationLines, order, lineOrder, vertexEdges, dk, isolatedVertices[i]);
    SettledStep(dk0, special, stationLines, dk, dk', isolatedVertices, i);
  }

  /** Once every isolated station is settled, every attachable one has an edge. */
  lemma AllSettled(dk0: EdgeMap, special: set<StationId>, stationLines: map<StationId, set<Line>>,
                   order: seq<StationId>, vertexEdges: map<StationId, set<Edge>>, dk: EdgeMap)
    requires forall v :: v in order <==> v in special
    requires forall s :: s in vertexEdges && vertexEdges[s] != {} <==> HasEdge(dk0, s)
    requires var iso := Isolated(order, vertexEdges); SettledPrefix(dk0, special, stationLines, dk, iso, |iso|)
    ensures forall v :: v in special && !HasEdge(dk0, v) && Attachable(dk0, special, stationLines, v) ==> HasEdge(dk, v)
  {
    var iso := Isolated(order, vertexEdges);
    forall v | v in special && !HasEdge(dk0, v) && Attachable(dk0, special, stationLines, v)
      ensures HasEdge(dk, v)
    {
      assert v in iso;
      var j :| 0 <= j < |iso| && iso[j] == v;
      assert Settled(dk0, special, stationLines, dk, iso[j]);
    }
  }

  // ---------------------------------------------------------------------------
  // Counting edges

  /** The edges among `done` used by more than one line. */
  function MultiIn(dk: EdgeMap, done: set<Edge>): set<Edge>
  {
    set e | e in done && e in dk && |dk[e].lines| > 1
  }

  /** The simplified edges used by more than one line. */
  function MultiEdges(dk: EdgeMap): set<Edge>
  {
    MultiIn(dk, dk.Keys)
  }

  lemma MultiStep(dk: EdgeMap, done: set<Edge>, edge: Edge)
    requires edge in dk && edge !in done
    ensures MultiIn(dk, done + {edge}) == if |dk[edge].lines| > 1 then MultiIn(dk, done) + {edge} else MultiIn(dk, done)
    ensures edge !in MultiIn(dk, done)
  {
    if |dk[edge].lines| > 1 {
      assert MultiIn(dk, done + {edge}) == MultiIn(dk, done) + {edge};
    } else {
      assert MultiIn(dk, done + {edge}) == MultiIn(dk, done);
    }
  }

  /** Counting one more edge adds one to the edges counted, and one to the
      multiple-use edges exactly when it has more than one line. */
  lemma MultiCountStep(dk: EdgeMap, done: set<Edge>, edge: Edge)
    requires edge in dk && edge !in done
    ensures |MultiIn(dk, done + {edge})| == |MultiIn(dk, done)| + (if |dk[edge].lines| > 1 then 1 else 0)
    ensures |done + {edge}| == |done| + 1
  {
    MultiStep(dk, done, edge);
  }

  /** The counting loop: single_use_count counts every simplified edge once and
      multiple_use_count counts those used by more than one line, so the total
      e = e_s + e_m counts a shared edge twice and e_m never exceeds e_s. */
  method CountEdges(dk: EdgeMap) returns (singleUse: nat, multipleUse: nat)
    ensures singleUse == |dk|
    ensures multipleUse == |MultiEdges(dk)|
    ensures multipleUse <= singleUse
  {
    singleUse, multipleUse := 0, 0;
    var rest, done := dk.Keys, {};
    while rest != {}
      invariant rest !! done && rest + done == dk.Keys
      invariant singleUse == |done|
      invariant multipleUse == |MultiIn(dk, done)|
      invariant multipleUse <= singleUse
      decreases rest
    {
      var edge :| edge in rest;
      MultiCountStep(dk, done, edge);
      singleUse := singleUse + 1;
      if |dk[edge].lines| > 1 {
        multipleUse := multipleUse + 1;
      }
      rest, done := rest - {edge}, done + {edge};
    }
    assert done == dk.Keys;
    assert |dk.Keys| == |dk|;
  }

  // ---------------------------------------------------------------------------
  // The whole of build_network_topology

  /** Every simplified edge joins two distinct special stations, and each of its lines serves both. */
  ghost predicate SimplifiedShape(special: set<StationId>, stationLines: map<StationId, set<Line>>, dk: EdgeMap)
  {
    forall e :: e in dk ==>
      && ValidEdge(e) && e.lo in special && e.hi in special
      && forall l :: l in dk[e].lines ==> l in LinesAt(stationLines, e.lo) && l in LinesAt(stationLines, e.hi)
  }

  /** The simplified network keeps its shape through the repair. */
  lemma RepairedShape(trips: seq<Trip>, stopToStation: map<StopId, StationId>, special: set<StationId>,
                      avg: TravelTimes.TravelTimeMap, dk: EdgeMap)
    requires Repaired(EdgesUpTo(SpecialRuns(trips, stopToStation, special), |trips|, avg), special,
                      ServedUpTo(trips, |trips|, stopToStation).stationLines, dk)
    ensures SimplifiedShape(special, ServedUpTo(trips, |trips|, stopToStation).stationLines, dk)
  {
    var dk0 := EdgesUpTo(SpecialRuns(trips, stopToStation, special), |trips|, avg);
    var stationLines := ServedUpTo(trips, |trips|, stopToStation).stationLines;
    forall e | e in dk
      ensures ValidEdge(e) && e.lo in special && e.hi in special
      ensures forall l :: l in dk[e].lines ==> l in LinesAt(stationLines, e.lo) && l in LinesAt(stationLines, e.hi)
    {
      if e in dk0 {
        forall l | l in dk[e].lines
          ensures l in LinesAt(stationLines, e.lo) && l in LinesAt(stationLines, e.hi)
        {
          SimplifiedLines(trips, stopToStation, special, avg, e, l);
        }
        SimplifiedEnds(trips, stopToStation, special, avg, e);
      } else {
        assert RepairEdge(dk0, special, stationLines, e, dk[e]);
      }
    }
  }

  /** dk_edges before the repair. */
  function Unrepaired(trips: seq<Trip>, stopToStation: map<StopId, StationId>, special: set<StationId>,
                      avg: TravelTimes.TravelTimeMap): EdgeMap
  {
    EdgesUpTo(SpecialRuns(trips, stopToStation, special), |trips|, avg)
  }

  /** `v` had no edge before the repair but shares a line with a special station that had one. */
  ghost predicate NeedsRepair(trips: seq<Trip>, stopToStation: map<StopId, StationId>, special: set<StationId>,
                            avg: TravelTimes.TravelTimeMap, stationLines: map<StationId, set<Line>>, v: StationId)
  {
    var dk0 := Unrepaired(trips, stopToStation, special, avg);
    !HasEdge(dk0, v) && Attachable(dk0, special, stationLines, v)
  }

  /** What build_network_topology returns, without route lengths. */
  datatype NetworkTopology = NetworkTopology(
    lineStations: map<Line, set<StationId>>,
    stationLines: map<StationId, set<Line>>,
    edges: EdgeMap,
    allEdges: EdgeMap,
    transfer: set<StationId>,
    terminal: set<StationId>,
    special: set<StationId>,
    singleUse: nat,
    multipleUse: nat,
    numLines: nat)

  /** The special stations of the first pass: transfer stations and terminals. */
  ghost predicate IsSpecial(trips: seq<Trip>, stopToStation: map<StopId, StationId>, avg: TravelTimes.TravelTimeMap, v: StationId)
  {
    var served := ServedUpTo(trips, |trips|, stopToStation);
    v in TransferStations(served.stationLines)
    || IsTerminal(served.lineStations, EdgesUpTo(FullRuns(trips, stopToStation), |trips|, avg), v)
  }

  /** build_network_topology: the full network of every trip, its transfer and
      terminal stations, the simplified network between them after the repair of
      isolated special stations, and its edge counts. `routeNames` are the distinct
      route names; `order` and `lineOrder` are the iteration orders of the special
      set and of every station's line set. */
  method BuildNetworkTopology(trips: seq<Trip>, stopToStation: map<StopId, StationId>, avg: TravelTimes.TravelTimeMap,
                              routeNames: set<Line>, order: seq<StationId>, lineOrder: map<StationId, seq<Line>>)
    returns (t: NetworkTopology)
    requires forall v :: v in order <==> IsSpecial(trips, stopToStation, avg, v)
    requires var stationLines := ServedUpTo(trips, |trips|, stopToStation).stationLines;
      forall v :: v in stationLines ==> v in lineOrder && forall l :: l in lineOrder[v] <==> l in stationLines[v]
    ensures Served(t.lineStations, t.stationLines) == ServedUpTo(trips, |trips|, stopToStation)
    ensures t.allEdges == EdgesUpTo(FullRuns(trips, stopToStation), |trips|, avg)
    ensures t.transfer == TransferStations(t.stationLines)
    ensures forall s :: s in t.terminal <==> IsTerminal(t.lineStations, t.allEdges, s)
    ensures t.special == SpecialVertices(t.transfer, t.terminal)
    ensures t.edges == Repair(Unrepaired(trips, stopToStation, t.special, avg), t.stationLines, order, lineOrder)
    ensures Repaired(Unrepaired(trips, stopToStation, t.special, avg), t.special, t.stationLines, t.edges)
    ensures forall v :: v in t.special && NeedsRepair(trips, stopToStation, t.special, avg, t.stationLines, v) ==> HasEdge(t.edges, v)
    ensures SimplifiedShape(t.special, t.stationLines, t.edges)
    ensures t.singleUse == |t.edges| && t.multipleUse == |MultiEdges(t.edges)| && t.multipleUse <= t.singleUse
    ensures t.numLines == |routeNames|
  {
    var lineStations, stationLines, allEdges := BuildEdges(trips, stopToStation, avg);
    EdgesValid(FullRuns(trips, stopToStation), |trips|, avg);
    var transfer := TransferStations(stationLines);
    var terminal := TerminalStations(lineStations, allEdges);
    var special := SpecialVertices(transfer, terminal);
    var dk0 := BuildSimplified(trips, stopToStation, special, avg);
    var dk := RepairIsolated(dk0, special, stationLines, order, lineOrder);
    RepairedShape(trips, stopToStation, special, avg, dk);
    var singleUse, multipleUse := CountEdges(dk);
    t := NetworkTopology(lineStations, stationLines, dk, allEdges, transfer, terminal, special, singleUse, multipleUse, |routeNames|);
  }
}
