/** The first pass of build_network_topology: which lines serve which stations,
    the undirected station-to-station edges of every trip with the lines that use
    them and a travel time, and the classification of stations into transfer
    stations (two or more lines) and terminal stations (one incident edge among
    some line's own edges). */
module Topology {
  import opened Core
  import TravelTimes

  /** One trip of a line: its stop ids sorted by stop_sequence. */
  datatype Trip = Trip(line: Line, stops: seq<StopId>)

  /** A stop of a trip that belongs to a known station. */
  datatype Visit = Visit(station: StationId, stop: StopId)

  /** The data kept per edge: the lines that use it and the first travel time found. */
  datatype EdgeData = EdgeData(lines: set<Line>, time: Option<real>)

  type EdgeMap = map<Edge, EdgeData>

  /** `edges[e]` of a defaultdict whose default is no line and no time. */
  function DataOf(edges: EdgeMap, e: Edge): EdgeData
  {
    if e in edges then edges[e] else EdgeData({}, None)
  }

  /** The stops of a trip that map to a station, in trip order. */
  function Visits(stops: seq<StopId>, stopToStation: map<StopId, StationId>): (vs: seq<Visit>)
    ensures |vs| <= |stops|
  {
    if stops == [] then []
    else
      var prev := Visits(stops[..|stops| - 1], stopToStation);
      var stop := stops[|stops| - 1];
      if stop in stopToStation then prev + [Visit(stopToStation[stop], stop)] else prev
  }

  /** Every visit is a stop of the trip that maps to a station, with that station, and
      every such stop is visited. */
  lemma {:induction false} VisitsMembers(stops: seq<StopId>, stopToStation: map<StopId, StationId>)
    ensures forall v :: v in Visits(stops, stopToStation) ==>
      v.stop in stops && v.stop in stopToStation && v.station == stopToStation[v.stop]
    ensures forall stop :: stop in stops && stop in stopToStation ==> Visit(stopToStation[stop], stop) in Visits(stops, stopToStation)
  {
    if stops != [] {
      VisitsMembers(stops[..|stops| - 1], stopToStation);
      assert stops == stops[..|stops| - 1] + [stops[|stops| - 1]];
    }
  }

  /** Visits keeps the order of the stops: the visits of two stretches of a trip are
      those of the first followed by those of the second. */
  lemma {:induction false} VisitsAppend(a: seq<StopId>, b: seq<StopId>, stopToStation: map<StopId, StationId>)
    ensures Visits(a + b, stopToStation) == Visits(a, stopToStation) + Visits(b, stopToStation)
  {
    if b != [] {
      VisitsAppend(a, b[..|b| - 1], stopToStation);
      assert (a + b)[..|a + b| - 1] == a + b[..|b| - 1];
      assert (a + b)[|a + b| - 1] == b[|b| - 1];
      var stop := b[|b| - 1];
      var tail := if stop in stopToStation then [Visit(stopToStation[stop], stop)] else [];
      assert Visits(a + b, stopToStation) == Visits(a + b[..|b| - 1], stopToStation) + tail;
      assert Visits(b, stopToStation) == Visits(b[..|b| - 1], stopToStation) + tail;
    } else {
      assert a + b == a;
    }
  }

  /** A single stop is one visit when it maps to a station and none otherwise. */
  lemma VisitsOne(stop: StopId, stopToStation: map<StopId, StationId>)
    ensures Visits([stop], stopToStation) == if stop in stopToStation then [Visit(stopToStation[stop], stop)] else []
  {
    assert [stop][..0] == [];
  }

  lemma VisitsStep(stops: seq<StopId>, stopToStation: map<StopId, StationId>, i: nat)
    requires i < |stops|
    ensures Visits(stops[..i + 1], stopToStation) ==
      Visits(stops[..i], stopToStation)
      + (if stops[i] in stopToStation then [Visit(stopToStation[stops[i]], stops[i])] else [])
  {
    assert stops[..i + 1][..i] == stops[..i];
  }

  // ---------------------------------------------------------------------------
  // Edges of consecutive visits (shared by the full and the simplified network)

  /** The travel time of the segment from stop a to stop b: the time stored under
      (a, b), else the one stored under (b, a), else none. */
  function Lookup(avg: TravelTimes.TravelTimeMap, a: StopId, b: StopId): (r: Option<real>)
    ensures r.Some? <==> (a, b) in avg || (b, a) in avg
    ensures r.Some? ==> ((a, b) in avg && r.value == avg[(a, b)]) || ((b, a) in avg && r.value == avg[(b, a)])
  {
    if (a, b) in avg then Some(avg[(a, b)])
    else if (b, a) in avg then Some(avg[(b, a)])
    else None
  }

  /** Record that `line` runs from `a` to `b`; an edge's time, once set, is kept. */
  function AddEdge(edges: EdgeMap, line: Line, a: Visit, b: Visit, avg: TravelTimes.TravelTimeMap): EdgeMap
    requires a.station != b.station
  {
    var e := Key(a.station, b.station);
    var d := DataOf(edges, e);
    edges[e := EdgeData(d.lines + {line}, if d.time.None? then Lookup(avg, a.stop, b.stop) else d.time)]
  }

  /** The edges after a trip of `line` whose visits are `vs`: every two consecutive
      visits at distinct stations add the edge between them. */
  function EdgeFold(edges: EdgeMap, line: Line, vs: seq<Visit>, avg: TravelTimes.TravelTimeMap): EdgeMap
  {
    if |vs| < 2 then edges
    else
      var prev := EdgeFold(edges, line, vs[..|vs| - 1], avg);
      var a, b := vs[|vs| - 2], vs[|vs| - 1];
      if a.station == b.station then prev else AddEdge(prev, line, a, b, avg)
  }

  /** The trip runs between stations `vs[i-1]` and `vs[i]`, which make up edge `e`. */
  ghost predicate Traverses(vs: seq<Visit>, i: int, e: Edge)
  {
    1 <= i < |vs| && vs[i - 1].station != vs[i].station && Key(vs[i - 1].station, vs[i].station) == e
  }

  ghost predicate TraversedIn(vs: seq<Visit>, e: Edge)
  {
    exists i :: Traverses(vs, i, e)
  }

  /** Some run along `e` in `vs` is between two stops with a known travel time. */
  ghost predicate TimedIn(vs: seq<Visit>, e: Edge, avg: TravelTimes.TravelTimeMap)
  {
    exists i :: Traverses(vs, i, e) && Lookup(avg, vs[i - 1].stop, vs[i].stop).Some?
  }

  lemma TraversesPrefix(vs: seq<Visit>, n: nat, i: int, e: Edge)
    requires n <= |vs|
    ensures Traverses(vs[..n], i, e) <==> i < n && Traverses(vs, i, e)
  {
  }

  /** Adding the edge between `a` and `b` touches no other edge. */
  lemma AddEdgeEffect(edges: EdgeMap, line: Line, a: Visit, b: Visit, avg: TravelTimes.TravelTimeMap, e: Edge)
    requires a.station != b.station
    ensures var r := AddEdge(edges, line, a, b, avg);
            var hit := Key(a.station, b.station) == e;
      && (e in r <==> e in edges || hit)
      && DataOf(r, e).lines == DataOf(edges, e).lines + (if hit then {line} else {})
      && (DataOf(r, e).time.Some? <==> DataOf(edges, e).time.Some? || (hit && Lookup(avg, a.stop, b.stop).Some?))
      && (DataOf(edges, e).time.Some? ==> DataOf(r, e).time == DataOf(edges, e).time)
  {
  }

  /** The runs of `vs` along `e` are those of its prefix and possibly its last one. */
  lemma TraversedStep(vs: seq<Visit>, e: Edge, avg: TravelTimes.TravelTimeMap)
    requires |vs| >= 2
    ensures var n := |vs| - 1;
      && (TraversedIn(vs, e) <==> TraversedIn(vs[..n], e) || Traverses(vs, n, e))
      && (TimedIn(vs, e, avg) <==>
           TimedIn(vs[..n], e, avg) || (Traverses(vs, n, e) && Lookup(avg, vs[n - 1].stop, vs[n].stop).Some?))
  {
    var n := |vs| - 1;
    var pre := vs[..n];
    forall i
      ensures Traverses(vs, i, e) <==> Traverses(pre, i, e) || (i == n && Traverses(vs, n, e))
      ensures Traverses(pre, i, e) ==> pre[i - 1] == vs[i - 1] && pre[i] == vs[i]
    {
      TraversesPrefix(vs, n, i, e);
    }
  }

  /** One trip's effect on each edge: the edge is present after the trip exactly when
      it was before or the trip runs along it; it gains the trip's line exactly when
      the trip runs along it; it has a time exactly when it had one or some run along
      it is between stops with a known time; and a time, once set, is kept. */
  lemma {:induction false} EdgeFoldEffect(edges: EdgeMap, line: Line, vs: seq<Visit>, avg: TravelTimes.TravelTimeMap, e: Edge)
    ensures e in EdgeFold(edges, line, vs, avg) <==> e in edges || TraversedIn(vs, e)
    ensures DataOf(EdgeFold(edges, line, vs, avg), e).lines
            == DataOf(edges, e).lines + (if TraversedIn(vs, e) then {line} else {})
    ensures DataOf(EdgeFold(edges, line, vs, avg), e).time.Some?
            <==> DataOf(edges, e).time.Some? || TimedIn(vs, e, avg)
    ensures DataOf(edges, e).time.Some? ==> DataOf(EdgeFold(edges, line, vs, avg), e).time == DataOf(edges, e).time
    ensures e in EdgeFold(edges, line, vs, avg) && e !in edges ==> ValidEdge(e)
    decreases |vs|
  {
    if |vs| >= 2 {
      var n := |vs| - 1;
      var prev := EdgeFold(edges, line, vs[..n], avg);
      EdgeFoldEffect(edges, line, vs[..n], avg, e);
      TraversedStep(vs, e, avg);
      if vs[n - 1].station == vs[n].station {
        assert EdgeFold(edges, line, vs, avg) == prev;
      } else {
        assert EdgeFold(edges, line, vs, avg) == AddEdge(prev, line, vs[n - 1], vs[n], avg);
        AddEdgeEffect(prev, line, vs[n - 1], vs[n], avg, e);
      }
    } else {
      forall i
        ensures !Traverses(vs, i, e)
      {
      }
    }
  }

  /** Every travel time stored on an edge lies strictly between 0 and 30 minutes. */
  ghost predicate TimesPlausible(edges: EdgeMap)
  {
    forall e :: e in edges && edges[e].time.Some? ==> 0.0 < edges[e].time.value < TravelTimes.MaxSegmentMinutes
  }

  lemma {:induction false} EdgeFoldTimes(edges: EdgeMap, line: Line, vs: seq<Visit>, avg: TravelTimes.TravelTimeMap)
    requires TimesPlausible(edges) && TravelTimes.PlausibleTimes(avg)
    ensures TimesPlausible(EdgeFold(edges, line, vs, avg))
    decreases |vs|
  {
    if |vs| >= 2 {
      var prev := EdgeFold(edges, line, vs[..|vs| - 1], avg);
      EdgeFoldTimes(edges, line, vs[..|vs| - 1], avg);
      var a, b := vs[|vs| - 2], vs[|vs| - 1];
      if a.station != b.station {
        var t := Lookup(avg, a.stop, b.stop);
        assert t.Some? ==> 0.0 < t.value < TravelTimes.MaxSegmentMinutes;
      }
    }
  }

  // ---------------------------------------------------------------------------
  // The first pass over all trips

  /** Which lines serve which stations, in both directions. */
  datatype Served = Served(lineStations: map<Line, set<StationId>>, stationLines: map<StationId, set<Line>>)

  function Serve(sv: Served, line: Line, s: StationId): Served
  {
    Served(
      sv.lineStations[line := (if line in sv.lineStations then sv.lineStations[line] else {}) + {s}],
      sv.stationLines[s := (if s in sv.stationLines then sv.stationLines[s] else {}) + {line}])
  }

  function ServeFold(sv: Served, line: Line, vs: seq<Visit>): Served
  {
    if vs == [] then sv else Serve(ServeFold(sv, line, vs[..|vs| - 1]), line, vs[|vs| - 1].station)
  }

  /** The served relation after the first `k` trips. */
  function ServedUpTo(trips: seq<Trip>, k: nat, stopToStation: map<StopId, StationId>): Served
    requires k <= |trips|
  {
    if k == 0 then Served(map[], map[])
    else ServeFold(ServedUpTo(trips, k - 1, stopToStation), trips[k - 1].line, Visits(trips[k - 1].stops, stopToStation))
  }

  /** A trip seen as its line and the sequence of visits whose consecutive pairs make edges. */
  datatype Run = Run(line: Line, visits: seq<Visit>)

  /** The runs of the full network: every stop of a trip that maps to a station. */
  function FullRuns(trips: seq<Trip>, stopToStation: map<StopId, StationId>): (runs: seq<Run>)
    ensures |runs| == |trips|
  {
    seq(|trips|, i requires 0 <= i < |trips| => Run(trips[i].line, Visits(trips[i].stops, stopToStation)))
  }

  /** The edge map after the first `k` runs. */
  function EdgesUpTo(runs: seq<Run>, k: nat, avg: TravelTimes.TravelTimeMap): EdgeMap
    requires k <= |runs|
  {
    if k == 0 then map[]
    else EdgeFold(EdgesUpTo(runs, k - 1, avg), runs[k - 1].line, runs[k - 1].visits, avg)
  }

  function Last(vs: seq<Visit>): Option<Visit>
  {
    if vs == [] then None else Some(vs[|vs| - 1])
  }

  lemma EdgeFoldSnoc(edges: EdgeMap, line: Line, vs: seq<Visit>, v: Visit, avg: TravelTimes.TravelTimeMap)
    ensures EdgeFold(edges, line, vs + [v], avg) ==
      if vs != [] && vs[|vs| - 1].station != v.station
      then AddEdge(EdgeFold(edges, line, vs, avg), line, vs[|vs| - 1], v, avg)
      else EdgeFold(edges, line, vs, avg)
  {
    assert (vs + [v])[..|vs|] == vs;
  }

  lemma ServeFoldSnoc(sv: Served, line: Line, vs: seq<Visit>, v: Visit)
    ensures ServeFold(sv, line, vs + [v]) == Serve(ServeFold(sv, line, vs), line, v.station)
  {
    assert (vs + [v])[..|vs|] == vs;
  }

  /** The edge between the previous and the current station gains the line, and
      takes the travel time (previous stop, current stop), else (current stop,
      previous stop), if it has none yet. */
  method RecordEdge(edges: EdgeMap, routeName: Line, prev: Visit, here: Visit, avg: TravelTimes.TravelTimeMap) returns (edges': EdgeMap)
    requires prev.station != here.station
    ensures edges' == AddEdge(edges, routeName, prev, here, avg)
  {
    var edge := Key(prev.station, here.station);
    var data := DataOf(edges, edge);
    var time := data.time;
    if time.None? {
      var stop1, stop2 := here.stop, prev.stop;
      if (stop2, stop1) in avg {
        time := Some(avg[(stop2, stop1)]);
      } else if (stop1, stop2) in avg {
        time := Some(avg[(stop1, stop2)]);
      }
    }
    edges' := edges[edge := EdgeData(data.lines + {routeName}, time)];
  }

  /** The first loop of build_network_topology: line_stations, station_lines and edges. */
  method BuildEdges(trips: seq<Trip>, stopToStation: map<StopId, StationId>, avg: TravelTimes.TravelTimeMap)
    returns (lineStations: map<Line, set<StationId>>, stationLines: map<StationId, set<Line>>, edges: EdgeMap)
    ensures Served(lineStations, stationLines) == ServedUpTo(trips, |trips|, stopToStation)
    ensures edges == EdgesUpTo(FullRuns(trips, stopToStation), |trips|, avg)
  {
    lineStations, stationLines, edges := map[], map[], map[];
    for k := 0 to |trips|
      invariant Served(lineStations, stationLines) == ServedUpTo(trips, k, stopToStation)
      invariant edges == EdgesUpTo(FullRuns(trips, stopToStation), k, avg)
    {
      lineStations, stationLines, edges := WalkTrip(lineStations, stationLines, edges, trips[k].line, trips[k].stops, stopToStation, avg);
    }
  }

  /** The first `i` stops of a trip have been walked: `vs` are their visits, the
      maps hold the fold of those visits and `prev` is the last of them. */
  ghost predicate Walked(served0: Served, edges0: EdgeMap, routeName: Line, stops: seq<StopId>,
                         stopToStation: map<StopId, StationId>, avg: TravelTimes.TravelTimeMap, i: nat, vs: seq<Visit>,
                         lineStations: map<Line, set<StationId>>, stationLines: map<StationId, set<Line>>,
                         edges: EdgeMap, prev: Option<Visit>)
  {
    && i <= |stops|
    && vs == Visits(stops[..i], stopToStation)
    && lineStations == ServeFold(served0, routeName, vs).lineStations
    && stationLines == ServeFold(served0, routeName, vs).stationLines
    && edges == EdgeFold(edges0, routeName, vs, avg)
    && prev == Last(vs)
  }

  /** One trip of the first loop: every stop that maps to a station is served by the
      line, and every two consecutive mapped stops at distinct stations add an edge. */
  method WalkTrip(lineStations0: map<Line, set<StationId>>, stationLines0: map<StationId, set<Line>>, edges0: EdgeMap,
                  routeName: Line, stops: seq<StopId>, stopToStation: map<StopId, StationId>, avg: TravelTimes.TravelTimeMap)
    returns (lineStations: map<Line, set<StationId>>, stationLines: map<StationId, set<Line>>, edges: EdgeMap)
    ensures Served(lineStations, stationLines) == ServeFold(Served(lineStations0, stationLines0), routeName, Visits(stops, stopToStation))
    ensures edges == EdgeFold(edges0, routeName, Visits(stops, stopToStation), avg)
  {
    lineStations, stationLines, edges := lineStations0, stationLines0, edges0;
    ghost var served0 := Served(lineStations0, stationLines0);
    ghost var vs: seq<Visit> := [];
    var prev: Option<Visit> := None;
    assert Visits(stops[..0], stopToStation) == [];
    for i := 0 to |stops|
      invariant Walked(served0, edges0, routeName, stops, stopToStation, avg, i, vs, lineStations, stationLines, edges, prev)
    {
      vs, lineStations, stationLines, edges, prev :=
        WalkStop(served0, edges0, routeName, stops, stopToStation, avg, i, vs, lineStations, stationLines, edges, prev);
    }
    assert stops[..|stops|] == stops;
  }

  /** One stop of a trip. */
  method WalkStop(ghost served0: Served, ghost edges0: EdgeMap, routeName: Line, stops: seq<StopId>,
                  stopToStation: map<StopId, StationId>, avg: TravelTimes.TravelTimeMap, i: nat, ghost vs: seq<Visit>,
                  lineStations: map<Line, set<StationId>>, stationLines: map<StationId, set<Line>>,
                  edges: EdgeMap, prev: Option<Visit>)
    returns (ghost vs': seq<Visit>, lineStations': map<Line, set<StationId>>, stationLines': map<StationId, set<Line>>,
             edges': EdgeMap, prev': Option<Visit>)
    requires i < |stops|
    requires Walked(served0, edges0, routeName, stops, stopToStation, avg, i, vs, lineStations, stationLines, edges, prev)
    ensures Walked(served0, edges0, routeName, stops, stopToStation, avg, i + 1, vs', lineStations', stationLines', edges', prev')
  {
    vs', lineStations', stationLines', edges', prev' := vs, lineStations, stationLines, edges, prev;
    VisitsStep(stops, stopToStation, i);
    if stops[i] in stopToStation {
      var stationId := stopToStation[stops[i]];
      ghost var here := Visit(stationId, stops[i]);
      EdgeFoldSnoc(edges0, routeName, vs, here, avg);
      ServeFoldSnoc(served0, routeName, vs, here);
      lineStations' := lineStations[routeName := (if routeName in lineStations then lineStations[routeName] else {}) + {stationId}];
      stationLines' := stationLines[stationId := (if stationId in stationLines then stationLines[stationId] else {}) + {routeName}];
      if prev.Some? && prev.value.station != stationId {
        edges' := RecordEdge(edges, routeName, prev.value, Visit(stationId, stops[i]), avg);
      }
      prev' := Some(Visit(stationId, stops[i]));
      vs' := vs + [here];
    }
  }

  // ---------------------------------------------------------------------------
  // What the first pass computes

  /** Run `k` of the first `n` runs runs along edge `e`. */
  ghost predicate RunsAlong(runs: seq<Run>, n: int, k: int, e: Edge)
  {
    0 <= k < n <= |runs| && TraversedIn(runs[k].visits, e)
  }

  lemma RunsAlongStep(runs: seq<Run>, n: nat, k: int, e: Edge)
    requires 0 < n <= |runs|
    ensures RunsAlong(runs, n, k, e) <==>
      RunsAlong(runs, n - 1, k, e) || (k == n - 1 && TraversedIn(runs[n - 1].visits, e))
  {
  }

  /** An edge is present exactly when some run goes along it, and its key is a sorted
      pair of distinct stations. */
  lemma {:induction false} EdgesPresent(runs: seq<Run>, n: nat, avg: TravelTimes.TravelTimeMap, e: Edge)
    requires n <= |runs|
    ensures e in EdgesUpTo(runs, n, avg) <==> exists k :: RunsAlong(runs, n, k, e)
    ensures e in EdgesUpTo(runs, n, avg) ==> ValidEdge(e)
  {
    if n > 0 {
      var before := EdgesUpTo(runs, n - 1, avg);
      EdgesPresent(runs, n - 1, avg, e);
      EdgeFoldEffect(before, runs[n - 1].line, runs[n - 1].visits, avg, e);
      if e in EdgesUpTo(runs, n, avg) {
        if e in before {
          var k :| RunsAlong(runs, n - 1, k, e);
          RunsAlongStep(runs, n, k, e);
        } else {
          RunsAlongStep(runs, n, n - 1, e);
        }
      }
      if exists k :: RunsAlong(runs, n, k, e) {
        var k :| RunsAlong(runs, n, k, e);
        RunsAlongStep(runs, n, k, e);
      }
    }
  }

  /** The lines of an edge are exactly the lines of the runs that go along it. */
  lemma {:induction false} EdgeLines(runs: seq<Run>, n: nat, avg: TravelTimes.TravelTimeMap, e: Edge, l: Line)
    requires n <= |runs|
    ensures l in DataOf(EdgesUpTo(runs, n, avg), e).lines <==>
      exists k :: RunsAlong(runs, n, k, e) && runs[k].line == l
  {
    if n > 0 {
      var before := EdgesUpTo(runs, n - 1, avg);
      EdgeLines(runs, n - 1, avg, e, l);
      EdgeFoldEffect(before, runs[n - 1].line, runs[n - 1].visits, avg, e);
      if l in DataOf(EdgesUpTo(runs, n, avg), e).lines {
        if l in DataOf(before, e).lines {
          var k :| RunsAlong(runs, n - 1, k, e) && runs[k].line == l;
          RunsAlongStep(runs, n, k, e);
        } else {
          RunsAlongStep(runs, n, n - 1, e);
        }
      }
      if exists k :: RunsAlong(runs, n, k, e) && runs[k].line == l {
        var k :| RunsAlong(runs, n, k, e) && runs[k].line == l;
        RunsAlongStep(runs, n, k, e);
      }
    }
  }

  /** An edge has a travel time exactly when some run goes along it between two stops
      whose travel time is known. */
  lemma {:induction false} EdgeTimed(runs: seq<Run>, n: nat, avg: TravelTimes.TravelTimeMap, e: Edge)
    requires n <= |runs|
    ensures DataOf(EdgesUpTo(runs, n, avg), e).time.Some? <==>
      exists k :: 0 <= k < n && TimedIn(runs[k].visits, e, avg)
  {
    if n > 0 {
      var before := EdgesUpTo(runs, n - 1, avg);
      EdgeTimed(runs, n - 1, avg, e);
      EdgeFoldEffect(before, runs[n - 1].line, runs[n - 1].visits, avg, e);
      if TimedIn(runs[n - 1].visits, e, avg) {
        assert 0 <= n - 1 < n && TimedIn(runs[n - 1].visits, e, avg);
      }
      if exists k :: 0 <= k < n && TimedIn(runs[k].visits, e, avg) {
        var k :| 0 <= k < n && TimedIn(runs[k].visits, e, avg);
        if k < n - 1 {
          assert 0 <= k < n - 1 && TimedIn(runs[k].visits, e, avg);
        }
      }
    }
  }

  /** Every travel time on an edge lies strictly between 0 and 30 minutes. */
  lemma {:induction false} EdgeTimesPlausible(runs: seq<Run>, n: nat, avg: TravelTimes.TravelTimeMap)
    requires n <= |runs|
    requires TravelTimes.PlausibleTimes(avg)
    ensures TimesPlausible(EdgesUpTo(runs, n, avg))
  {
    if n > 0 {
      EdgeTimesPlausible(runs, n - 1, avg);
      EdgeFoldTimes(EdgesUpTo(runs, n - 1, avg), runs[n - 1].line, runs[n - 1].visits, avg);
    }
  }

  /** Every key of an edge map built from runs is a sorted pair of distinct stations. */
  lemma EdgesValid(runs: seq<Run>, n: nat, avg: TravelTimes.TravelTimeMap)
    requires n <= |runs|
    ensures ValidKeys(EdgesUpTo(runs, n, avg))
  {
    forall e | e in EdgesUpTo(runs, n, avg)
      ensures ValidEdge(e)
    {
      EdgesPresent(runs, n, avg, e);
    }
  }

  /** Some visit of `vs` is at station `s`. */
  ghost predicate VisitsAt(vs: seq<Visit>, s: StationId)
  {
    exists v :: v in vs && v.station == s
  }

  /** Trip `k` of the first `n` trips stops at station `s`. */
  ghost predicate StopsAt(trips: seq<Trip>, n: int, stopToStation: map<StopId, StationId>, k: int, s: StationId)
  {
    0 <= k < n <= |trips| && VisitsAt(Visits(trips[k].stops, stopToStation), s)
  }

  lemma {:induction false} ServeFoldEffect(sv: Served, line: Line, vs: seq<Visit>, l: Line, s: StationId)
    ensures var r := ServeFold(sv, line, vs);
      && (l in r.lineStations && s in r.lineStations[l] <==>
           (l in sv.lineStations && s in sv.lineStations[l]) || (l == line && VisitsAt(vs, s)))
      && (s in r.stationLines && l in r.stationLines[s] <==>
           (s in sv.stationLines && l in sv.stationLines[s]) || (l == line && VisitsAt(vs, s)))
      && (s in r.stationLines <==> s in sv.stationLines || VisitsAt(vs, s))
      && (l in r.lineStations <==> l in sv.lineStations || (l == line && vs != []))
  {
    if vs != [] {
      var pre := vs[..|vs| - 1];
      ServeFoldEffect(sv, line, pre, l, s);
      ServeEffect(ServeFold(sv, line, pre), line, vs[|vs| - 1].station, l, s);
      VisitsAtSplit(vs, s);
    }
  }

  /** Serving one station adds exactly that station to the line and that line to the station. */
  lemma ServeEffect(sv: Served, line: Line, st: StationId, l: Line, s: StationId)
    ensures var r := Serve(sv, line, st);
      && (l in r.lineStations && s in r.lineStations[l] <==>
           (l in sv.lineStations && s in sv.lineStations[l]) || (l == line && s == st))
      && (s in r.stationLines && l in r.stationLines[s] <==>
           (s in sv.stationLines && l in sv.stationLines[s]) || (l == line && s == st))
      && (s in r.stationLines <==> s in sv.stationLines || s == st)
      && (l in r.lineStations <==> l in sv.lineStations || l == line)
  {
  }

  /** Some visit is at `s` exactly when some earlier one is or the last one is. */
  lemma VisitsAtSplit(vs: seq<Visit>, s: StationId)
    requires vs != []
    ensures VisitsAt(vs, s)
            <==> VisitsAt(vs[..|vs| - 1], s) || vs[|vs| - 1].station == s
  {
    var pre := vs[..|vs| - 1];
    assert vs == pre + [vs[|vs| - 1]];
    if VisitsAt(vs, s) {
      var v :| v in vs && v.station == s;
      assert v in pre || v == vs[|vs| - 1];
    }
  }

  /** Some trip of line `l` among the first `n` stops at `s`. */
  ghost predicate LineStopsAt(trips: seq<Trip>, n: nat, stopToStation: map<StopId, StationId>, l: Line, s: StationId)
  {
    exists k :: StopsAt(trips, n, stopToStation, k, s) && trips[k].line == l
  }

  /** Some trip among the first `n` stops at `s`. */
  ghost predicate AnyStopsAt(trips: seq<Trip>, n: nat, stopToStation: map<StopId, StationId>, s: StationId)
  {
    exists k :: StopsAt(trips, n, stopToStation, k, s)
  }

  /** Taking one more trip adds exactly the stations it stops at. */
  lemma AnyStopsAtStep(trips: seq<Trip>, n: nat, stopToStation: map<StopId, StationId>, s: StationId)
    requires 0 < n <= |trips|
    ensures AnyStopsAt(trips, n, stopToStation, s) <==>
      AnyStopsAt(trips, n - 1, stopToStation, s) || VisitsAt(Visits(trips[n - 1].stops, stopToStation), s)
  {
    if VisitsAt(Visits(trips[n - 1].stops, stopToStation), s) {
      assert StopsAt(trips, n, stopToStation, n - 1, s);
    }
    if AnyStopsAt(trips, n, stopToStation, s) {
      var k :| StopsAt(trips, n, stopToStation, k, s);
      if k < n - 1 {
        assert StopsAt(trips, n - 1, stopToStation, k, s);
      }
    }
    if AnyStopsAt(trips, n - 1, stopToStation, s) {
      var k :| StopsAt(trips, n - 1, stopToStation, k, s);
      assert StopsAt(trips, n, stopToStation, k, s);
    }
  }

  /** Taking one more trip adds exactly the stations it stops at, for its line. */
  lemma LineStopsAtStep(trips: seq<Trip>, n: nat, stopToStation: map<StopId, StationId>, l: Line, s: StationId)
    requires 0 < n <= |trips|
    ensures LineStopsAt(trips, n, stopToStation, l, s) <==>
      LineStopsAt(trips, n - 1, stopToStation, l, s) ||
      (trips[n - 1].line == l && VisitsAt(Visits(trips[n - 1].stops, stopToStation), s))
  {
    if trips[n - 1].line == l && VisitsAt(Visits(trips[n - 1].stops, stopToStation), s) {
      assert StopsAt(trips, n, stopToStation, n - 1, s);
    }
    if LineStopsAt(trips, n, stopToStation, l, s) {
      var k :| StopsAt(trips, n, stopToStation, k, s) && trips[k].line == l;
      if k < n - 1 {
        assert StopsAt(trips, n - 1, stopToStation, k, s);
      }
    }
    if LineStopsAt(trips, n - 1, stopToStation, l, s) {
      var k :| StopsAt(trips, n - 1, stopToStation, k, s) && trips[k].line == l;
      assert StopsAt(trips, n, stopToStation, k, s);
    }
  }

  /** line_stations and station_lines describe the same relation: a line serves a
      station exactly when some trip of that line stops there, and a station has an
      entry exactly when some trip stops there. */
  lemma {:induction false} ServedExactly(trips: seq<Trip>, n: nat, stopToStation: map<StopId, StationId>, l: Line, s: StationId)
    requires n <= |trips|
    ensures var sv := ServedUpTo(trips, n, stopToStation);
      && (l in sv.lineStations && s in sv.lineStations[l] <==> LineStopsAt(trips, n, stopToStation, l, s))
      && (s in sv.stationLines && l in sv.stationLines[s] <==> LineStopsAt(trips, n, stopToStation, l, s))
      && (s in sv.stationLines <==> AnyStopsAt(trips, n, stopToStation, s))
  {
    if n > 0 {
      var prev := ServedUpTo(trips, n - 1, stopToStation);
      var vs := Visits(trips[n - 1].stops, stopToStation);
      assert ServedUpTo(trips, n, stopToStation) == ServeFold(prev, trips[n - 1].line, vs);
      ServedExactly(trips, n - 1, stopToStation, l, s);
      ServeFoldEffect(prev, trips[n - 1].line, vs, l, s);
      AnyStopsAtStep(trips, n, stopToStation, s);
      LineStopsAtStep(trips, n, stopToStation, l, s);
    }
  }

  // ---------------------------------------------------------------------------
  // Transfer and terminal stations

  /** The stations served by two or more lines. */
  function TransferStations(stationLines: map<StationId, set<Line>>): (t: set<StationId>)
    ensures forall s :: s in t ==> s in stationLines
  {
    set s | s in stationLines && |stationLines[s]| >= 2
  }

  /** A station has two or more lines exactly when two different lines serve it. */
  lemma TwoLines(stationLines: map<StationId, set<Line>>, s: StationId)
    ensures s in TransferStations(stationLines) <==>
      s in stationLines && exists l1, l2 :: l1 != l2 && l1 in stationLines[s] && l2 in stationLines[s]
  {
    if s in TransferStations(stationLines) {
      var l1 :| l1 in stationLines[s];
      assert |stationLines[s] - {l1}| >= 1;
      var l2 :| l2 in stationLines[s] - {l1};
    }
    if s in stationLines && exists l1, l2 :: l1 != l2 && l1 in stationLines[s] && l2 in stationLines[s] {
      var l1, l2 :| l1 != l2 && l1 in stationLines[s] && l2 in stationLines[s];
      SubsetSize({l1, l2}, stationLines[s]);
    }
  }

  /** A station is a transfer station exactly when trips of two different lines stop there. */
  lemma TransferExactly(trips: seq<Trip>, stopToStation: map<StopId, StationId>, s: StationId)
    ensures s in TransferStations(ServedUpTo(trips, |trips|, stopToStation).stationLines) <==>
      exists l1, l2 :: l1 != l2 && LineStopsAt(trips, |trips|, stopToStation, l1, s)
                                && LineStopsAt(trips, |trips|, stopToStation, l2, s)
  {
    var sl := ServedUpTo(trips, |trips|, stopToStation).stationLines;
    TwoLines(sl, s);
    forall l
      ensures s in sl && l in sl[s] <==> LineStopsAt(trips, |trips|, stopToStation, l, s)
    {
      ServedExactly(trips, |trips|, stopToStation, l, s);
    }
  }

  /** The edges that `line` uses. */
  function LineEdges(edges: EdgeMap, line: Line): set<Edge>
  {
    set e | e in edges && line in edges[e].lines
  }

  /** The number of edges of `line` that end at `s`. */
  function LineDegree(edges: EdgeMap, line: Line, s: StationId): nat
  {
    |set e | e in LineEdges(edges, line) && Touches(e, s)|
  }

  /** The number of edges of `done` that end at `s`. */
  function Count(done: set<Edge>, s: StationId): nat
  {
    |set e | e in done && Touches(e, s)|
  }

  lemma CountAdd(done: set<Edge>, e: Edge, s: StationId)
    requires e !in done
    ensures Count(done + {e}, s) == Count(done, s) + (if Touches(e, s) then 1 else 0)
  {
    var before := set x | x in done && Touches(x, s);
    var after := set x | x in done + {e} && Touches(x, s);
    if Touches(e, s) {
      assert after == before + {e};
    } else {
      assert after == before;
    }
  }

  ghost predicate ValidKeys(edges: EdgeMap)
  {
    forall e :: e in edges ==> ValidEdge(e)
  }

  /** `degree` holds, for every station at an edge of `done`, the number of those edges there. */
  ghost predicate DegreesOf(degree: map<StationId, nat>, done: set<Edge>)
  {
    && (forall s :: s in degree <==> Count(done, s) > 0)
    && (forall s :: s in degree ==> degree[s] == Count(done, s))
  }

  function Inc(degree: map<StationId, nat>, s: StationId): map<StationId, nat>
  {
    degree[s := (if s in degree then degree[s] else 0) + 1]
  }

  lemma DegreeStep(degree: map<StationId, nat>, done: set<Edge>, edge: Edge)
    requires DegreesOf(degree, done) && edge !in done && ValidEdge(edge)
    ensures DegreesOf(Inc(Inc(degree, edge.lo), edge.hi), done + {edge})
  {
    var degree' := Inc(Inc(degree, edge.lo), edge.hi);
    forall s
      ensures s in degree' <==> Count(done + {edge}, s) > 0
      ensures s in degree' ==> degree'[s] == Count(done + {edge}, s)
    {
      CountAdd(done, edge, s);
      if s != edge.lo && s != edge.hi {
        assert !Touches(edge, s);
      }
    }
  }

  /** station_degree_on_line for one line: the number of the line's edges at each station. */
  method DegreesOnLine(edges: EdgeMap, line: Line) returns (degree: map<StationId, nat>)
    requires ValidKeys(edges)
    ensures forall s :: s in degree <==> LineDegree(edges, line, s) > 0
    ensures forall s :: s in degree ==> degree[s] == LineDegree(edges, line, s)
  {
    var lineEdges := LineEdges(edges, line);
    degree := map[];
    var rest, done := lineEdges, {};
    while rest != {}
      invariant rest !! done && rest + done == lineEdges
      invariant DegreesOf(degree, done)
      decreases rest
    {
      var edge :| edge in rest;
      DegreeStep(degree, done, edge);
      degree := Inc(Inc(degree, edge.lo), edge.hi);
      rest, done := rest - {edge}, done + {edge};
    }
    assert done == lineEdges;
  }

  /** A station is a terminal when it is an end of exactly one of some line's edges. */
  ghost predicate IsTerminal(lineStations: map<Line, set<StationId>>, edges: EdgeMap, s: StationId)
  {
    exists l :: l in lineStations && LineDegree(edges, l, s) == 1
  }

  /** The terminal-station loop: for every line, the stations of degree 1 on that line. */
  method TerminalStations(lineStations: map<Line, set<StationId>>, edges: EdgeMap) returns (terminals: set<StationId>)
    requires ValidKeys(edges)
    ensures forall s :: s in terminals <==> IsTerminal(lineStations, edges, s)
  {
    terminals := {};
    var lines, done := lineStations.Keys, {};
    while lines != {}
      invariant lines !! done && lines + done == lineStations.Keys
      invariant forall s :: s in terminals <==> exists l :: l in done && LineDegree(edges, l, s) == 1
      decreases lines
    {
      var routeName :| routeName in lines;
      var degree := DegreesOnLine(edges, routeName);
      var stations, seen := degree.Keys, {};
      ghost var before := terminals;
      while stations != {}
        invariant stations !! seen && stations + seen == degree.Keys
        invariant forall s :: s in terminals <==> s in before || (s in seen && degree[s] == 1)
        decreases stations
      {
        var station :| station in stations;
        if degree[station] == 1 {
          terminals := terminals + {station};
        }
        stations, seen := stations - {station}, seen + {station};
      }
      lines, done := lines - {routeName}, done + {routeName};
    }
  }

  /** The special vertices of the simplified model: transfer and terminal stations. */
  function SpecialVertices(transfers: set<StationId>, terminals: set<StationId>): set<StationId>
  {
    transfers + terminals
  }
}
