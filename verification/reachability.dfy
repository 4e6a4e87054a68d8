/** compute_reachability: for each station, the stations it reaches on the full
    network within a time threshold, found by Dijkstra's search with a cutoff on
    the travel times. */
module Reachability {
  import opened Core
  import opened Graphs
  import opened Network

  // ---------------------------------------------------------------------------
  // Travel times along walks

  /** The travel time of the edge between `u` and `v`. */
  function EdgeTime(tg: TimedGraph, u: StationId, v: StationId): real
  {
    if u != v && Key(u, v) in tg.time then tg.time[Key(u, v)] else 0.0
  }

  /** The travel time of a walk: the sum of the times of its edges. */
  function TravelTime(tg: TimedGraph, p: seq<StationId>): real
  {
    if |p| <= 1 then 0.0 else TravelTime(tg, p[..|p| - 1]) + EdgeTime(tg, p[|p| - 2], p[|p| - 1])
  }

  /** `p` is a walk of adjacent stations from `s` to `v`. */
  ghost predicate IsRoute(g: Graph, p: seq<StationId>, s: StationId, v: StationId)
  {
    IsPath(g, p) && p[0] == s && p[|p| - 1] == v
  }

  /** Some walk from `s` to `v` takes at most `t` minutes. */
  ghost predicate Within(tg: TimedGraph, s: StationId, v: StationId, t: real)
  {
    exists p :: IsRoute(tg.graph, p, s, v) && TravelTime(tg, p) <= t
  }

  /** `d` is the least travel time of a walk from `s` to `v`. */
  ghost predicate IsShortest(tg: TimedGraph, s: StationId, v: StationId, d: real)
  {
    && (exists p :: IsRoute(tg.graph, p, s, v) && TravelTime(tg, p) == d)
    && (forall p :: IsRoute(tg.graph, p, s, v) ==> d <= TravelTime(tg, p))
  }

  lemma EdgeTimePositive(tg: TimedGraph, u: StationId, v: StationId)
    requires Plausible(tg) && Adjacent(tg.graph, u, v)
    ensures EdgeTime(tg, u, v) > 0.0
  {
  }

  /** A walk extended by an adjacent station is a walk, longer by the edge's time. */
  lemma RouteExtend(tg: TimedGraph, q: seq<StationId>, s: StationId, u: StationId, x: StationId)
    requires IsRoute(tg.graph, q, s, u) && x in tg.graph.nodes && Adjacent(tg.graph, u, x)
    ensures IsRoute(tg.graph, q + [x], s, x)
    ensures TravelTime(tg, q + [x]) == TravelTime(tg, q) + EdgeTime(tg, u, x)
  {
    assert (q + [x])[..|q|] == q;
  }

  /** A walk without its last station is a walk, shorter by the last edge's time. */
  lemma RoutePrefix(tg: TimedGraph, p: seq<StationId>)
    requires IsPath(tg.graph, p) && |p| >= 2
    ensures IsPath(tg.graph, p[..|p| - 1]) && Adjacent(tg.graph, p[|p| - 2], p[|p| - 1])
    ensures TravelTime(tg, p) == TravelTime(tg, p[..|p| - 1]) + EdgeTime(tg, p[|p| - 2], p[|p| - 1])
  {
    var q := p[..|p| - 1];
    assert forall i :: 0 <= i < |q| ==> q[i] == p[i];
  }

  lemma {:induction false} TravelTimeNonNegative(tg: TimedGraph, p: seq<StationId>)
    requires Plausible(tg) && IsPath(tg.graph, p)
    ensures TravelTime(tg, p) >= 0.0
  {
    if |p| >= 2 {
      RoutePrefix(tg, p);
      TravelTimeNonNegative(tg, p[..|p| - 1]);
      EdgeTimePositive(tg, p[|p| - 2], p[|p| - 1]);
    }
  }

  // ---------------------------------------------------------------------------
  // Dijkstra's search from one source with a cutoff
  // (networkx.single_source_dijkstra_path_length)

  /** Every station seen has a walk from the source whose time is its recorded
      time, between 0 and the cutoff. */
  ghost predicate Witnessed(tg: TimedGraph, s: StationId, t: real, dist: map<StationId, real>,
                            via: map<StationId, seq<StationId>>)
  {
    forall v :: v in dist ==>
      v in via && IsRoute(tg.graph, via[v], s, v) && TravelTime(tg, via[v]) == dist[v] && 0.0 <= dist[v] <= t
  }

  /** No walk from the source to a settled station is faster than its recorded time. */
  ghost predicate SettledOptimal(tg: TimedGraph, s: StationId, settled: set<StationId>, dist: map<StationId, real>)
  {
    && settled <= dist.Keys
    && forall p :: IsPath(tg.graph, p) && p[0] == s && p[|p| - 1] in settled ==> dist[p[|p| - 1]] <= TravelTime(tg, p)
  }

  /** Every neighbour of a settled station that the cutoff lets through has been
      seen, no later than through that station. */
  ghost predicate Relaxed(tg: TimedGraph, t: real, settled: set<StationId>, dist: map<StationId, real>)
  {
    && settled <= dist.Keys
    && forall y, x :: y in settled && x in tg.graph.nodes && Adjacent(tg.graph, y, x) && dist[y] + EdgeTime(tg, y, x) <= t
         ==> x in dist && dist[x] <= dist[y] + EdgeTime(tg, y, x)
  }

  /** The state of the search from `s` with cutoff `t`. */
  ghost predicate Searching(tg: TimedGraph, s: StationId, t: real, settled: set<StationId>,
                            dist: map<StationId, real>, via: map<StationId, seq<StationId>>)
  {
    && s in dist && dist[s] == 0.0
    && Witnessed(tg, s, t, dist, via)
    && SettledOptimal(tg, s, settled, dist)
    && Relaxed(tg, t, settled, dist)
  }

  /** A walk from the source within the cutoff to a station not yet settled passes
      a seen, unsettled station whose recorded time is no more than the walk's. */
  lemma {:induction false} Exit(tg: TimedGraph, s: StationId, t: real, settled: set<StationId>,
                                dist: map<StationId, real>, p: seq<StationId>) returns (j: nat)
    requires Plausible(tg) && s in dist && dist[s] == 0.0
    requires SettledOptimal(tg, s, settled, dist) && Relaxed(tg, t, settled, dist)
    requires IsPath(tg.graph, p) && p[0] == s && p[|p| - 1] !in settled && TravelTime(tg, p) <= t
    ensures j < |p| && p[j] in dist && p[j] !in settled && dist[p[j]] <= TravelTime(tg, p)
  {
    if |p| == 1 {
      j := 0;
    } else {
      var q := p[..|p| - 1];
      var y, x := p[|p| - 2], p[|p| - 1];
      RoutePrefix(tg, p);
      EdgeTimePositive(tg, y, x);
      if y in settled {
        assert q[|q| - 1] == y;
        assert dist[y] <= TravelTime(tg, q);
        j := |p| - 1;
      } else {
        j := Exit(tg, s, t, settled, dist, q);
        assert q[j] == p[j];
      }
    }
  }

  /** The unsettled station with the least recorded time (the top of the heap). */
  method Closest(dist: map<StationId, real>, settled: set<StationId>) returns (u: StationId)
    requires dist.Keys - settled != {}
    ensures u in dist && u !in settled
    ensures forall x :: x in dist && x !in settled ==> dist[u] <= dist[x]
  {
    var rest := dist.Keys - settled;
    u :| u in rest;
    rest := rest - {u};
    while rest != {}
      invariant u in dist && u !in settled
      invariant rest <= dist.Keys - settled
      invariant forall x :: x in dist && x !in settled && x !in rest ==> dist[u] <= dist[x]
      decreases rest
    {
      var x :| x in rest;
      if dist[x] < dist[u] {
        u := x;
      }
      rest := rest - {x};
    }
  }

  /** The closest unsettled station has its least time: settling it keeps the
      settled times optimal. */
  lemma SettleOptimal(tg: TimedGraph, s: StationId, t: real, settled: set<StationId>,
                      dist: map<StationId, real>, via: map<StationId, seq<StationId>>, u: StationId)
    requires Plausible(tg) && Searching(tg, s, t, settled, dist, via)
    requires u in dist && u !in settled && forall x :: x in dist && x !in settled ==> dist[u] <= dist[x]
    ensures SettledOptimal(tg, s, settled + {u}, dist)
  {
    forall p | IsPath(tg.graph, p) && p[0] == s && p[|p| - 1] in settled + {u}
      ensures dist[p[|p| - 1]] <= TravelTime(tg, p)
    {
      if p[|p| - 1] == u && TravelTime(tg, p) <= t {
        var j := Exit(tg, s, t, settled, dist, p);
      }
    }
  }

  /** One neighbour `x` of the newly settled `u`: skipped beyond the cutoff or when
      already settled (where no shorter walk can exist), otherwise recorded when
      it is new or the walk through `u` is faster. */
  method RelaxEdge(tg: TimedGraph, s: StationId, t: real, settled: set<StationId>, u: StationId, x: StationId,
                   dist: map<StationId, real>, ghost via: map<StationId, seq<StationId>>)
    returns (dist': map<StationId, real>, ghost via': map<StationId, seq<StationId>>)
    requires Plausible(tg)
    requires u in settled && x in tg.graph.nodes && Adjacent(tg.graph, u, x)
    requires s in dist && dist[s] == 0.0 && Witnessed(tg, s, t, dist, via)
    requires SettledOptimal(tg, s, settled, dist)
    ensures s in dist' && dist'[s] == 0.0 && Witnessed(tg, s, t, dist', via')
    ensures forall v :: v in dist ==> v in dist' && dist'[v] <= dist[v]
    ensures forall v :: v in dist' && v != x ==> v in dist && dist'[v] == dist[v]
    ensures x in settled ==> dist' == dist
    ensures dist[u] + EdgeTime(tg, u, x) <= t ==> x in dist' && dist'[x] <= dist[u] + EdgeTime(tg, u, x)
  {
    dist', via' := dist, via;
    var d := dist[u] + EdgeTime(tg, u, x);
    if d > t {
      return;
    }
    RouteExtend(tg, via[u], s, u, x);
    EdgeTimePositive(tg, u, x);
    if x in settled {
      assert dist[x] <= TravelTime(tg, via[u] + [x]);
      return;
    }
    if x !in dist || d < dist[x] {
      dist' := dist[x := d];
      via' := via[x := via[u] + [x]];
    }
  }

  /** After every neighbour of `u` is relaxed, `u` joins the relaxed stations. */
  lemma RelaxedWith(tg: TimedGraph, t: real, settled: set<StationId>, u: StationId,
                    dist: map<StationId, real>, dist': map<StationId, real>)
    requires u in settled && Relaxed(tg, t, settled - {u}, dist)
    requires forall v :: v in dist ==> v in dist' && dist'[v] <= dist[v]
    requires forall v :: v in settled ==> v in dist && v in dist' && dist'[v] == dist[v]
    requires forall x :: x in tg.graph.nodes && Adjacent(tg.graph, u, x) && dist'[u] + EdgeTime(tg, u, x) <= t
               ==> x in dist' && dist'[x] <= dist'[u] + EdgeTime(tg, u, x)
    ensures Relaxed(tg, t, settled, dist')
  {
    forall y, x | y in settled && x in tg.graph.nodes && Adjacent(tg.graph, y, x) && dist'[y] + EdgeTime(tg, y, x) <= t
      ensures x in dist' && dist'[x] <= dist'[y] + EdgeTime(tg, y, x)
    {
      if y != u {
        assert y in settled - {u};
      }
    }
  }

  /** Part way through the neighbours of `u`: the times seen only went down, the
      settled ones are unchanged and still optimal, and every neighbour already
      handled is relaxed. */
  ghost predicate Relaxing(tg: TimedGraph, s: StationId, t: real, settled: set<StationId>, u: StationId,
                           dist0: map<StationId, real>, dist: map<StationId, real>,
                           via: map<StationId, seq<StationId>>, todo: set<StationId>)
  {
    && s in dist && dist[s] == 0.0 && Witnessed(tg, s, t, dist, via)
    && SettledOptimal(tg, s, settled, dist)
    && (forall v :: v in dist0 ==> v in dist && dist[v] <= dist0[v])
    && (forall v :: v in settled ==> v in dist0 && v in dist && dist[v] == dist0[v])
    && u in dist
    && (forall x :: x in tg.graph.nodes && Adjacent(tg.graph, u, x) && x !in todo && dist[u] + EdgeTime(tg, u, x) <= t
          ==> x in dist && dist[x] <= dist[u] + EdgeTime(tg, u, x))
  }

  /** Settled times that do not change stay optimal. */
  lemma OptimalKept(tg: TimedGraph, s: StationId, settled: set<StationId>, dist: map<StationId, real>, dist': map<StationId, real>)
    requires SettledOptimal(tg, s, settled, dist)
    requires forall v :: v in settled ==> v in dist' && dist'[v] == dist[v]
    ensures SettledOptimal(tg, s, settled, dist')
  {
  }

  /** One pass of the loop over the neighbours of `u`. */
  method RelaxStep(tg: TimedGraph, s: StationId, t: real, settled: set<StationId>, u: StationId,
                   ghost dist0: map<StationId, real>, x: StationId, todo: set<StationId>,
                   dist: map<StationId, real>, ghost via: map<StationId, seq<StationId>>)
    returns (dist': map<StationId, real>, ghost via': map<StationId, seq<StationId>>)
    requires Plausible(tg) && u in settled && x in todo && x in Neighbors(tg.graph, u)
    requires Relaxing(tg, s, t, settled, u, dist0, dist, via, todo)
    ensures Relaxing(tg, s, t, settled, u, dist0, dist', via', todo - {x})
  {
    dist', via' := RelaxEdge(tg, s, t, settled, u, x, dist, via);
    OptimalKept(tg, s, settled, dist, dist');
  }

  /** Relaxes every neighbour of the newly settled `u`. */
  method RelaxNeighbors(tg: TimedGraph, s: StationId, t: real, settled: set<StationId>, u: StationId,
                        dist: map<StationId, real>, ghost via: map<StationId, seq<StationId>>)
    returns (dist': map<StationId, real>, ghost via': map<StationId, seq<StationId>>)
    requires Plausible(tg) && u in settled
    requires s in dist && dist[s] == 0.0 && Witnessed(tg, s, t, dist, via)
    requires SettledOptimal(tg, s, settled, dist) && Relaxed(tg, t, settled - {u}, dist)
    ensures Searching(tg, s, t, settled, dist', via')
  {
    dist', via' := dist, via;
    var todo := Neighbors(tg.graph, u);
    while todo != {}
      invariant todo <= Neighbors(tg.graph, u)
      invariant Relaxing(tg, s, t, settled, u, dist, dist', via', todo)
      decreases todo
    {
      var x :| x in todo;
      dist', via' := RelaxStep(tg, s, t, settled, u, dist, x, todo, dist', via');
      todo := todo - {x};
    }
    RelaxedWith(tg, t, settled, u, dist, dist');
  }

  /** One round of the search: the closest unsettled station is settled and its
      neighbours relaxed. */
  method Settle(tg: TimedGraph, s: StationId, t: real, settled: set<StationId>,
                dist: map<StationId, real>, ghost via: map<StationId, seq<StationId>>)
    returns (settled': set<StationId>, dist': map<StationId, real>, ghost via': map<StationId, seq<StationId>>)
    requires Plausible(tg)
    requires Searching(tg, s, t, settled, dist, via) && dist.Keys - settled != {}
    ensures Searching(tg, s, t, settled', dist', via')
    ensures settled < settled' && settled' - settled <= tg.graph.nodes
  {
    var u := Closest(dist, settled);
    SettleOptimal(tg, s, t, settled, dist, via, u);
    settled' := settled + {u};
    assert settled' - {u} == settled;
    dist', via' := RelaxNeighbors(tg, s, t, settled', u, dist, via);
  }

  /** Once every seen station is settled, every walk from the source within the
      cutoff ends at a settled station. */
  lemma {:induction false} Reached(tg: TimedGraph, s: StationId, t: real, settled: set<StationId>,
                                   dist: map<StationId, real>, p: seq<StationId>)
    requires Plausible(tg) && s in dist && dist.Keys == settled
    requires SettledOptimal(tg, s, settled, dist) && Relaxed(tg, t, settled, dist)
    requires IsPath(tg.graph, p) && p[0] == s && TravelTime(tg, p) <= t
    ensures p[|p| - 1] in settled
  {
    if |p| >= 2 {
      var q := p[..|p| - 1];
      var y, x := p[|p| - 2], p[|p| - 1];
      RoutePrefix(tg, p);
      EdgeTimePositive(tg, y, x);
      Reached(tg, s, t, settled, dist, q);
      assert q[|q| - 1] == y;
      assert dist[y] <= TravelTime(tg, q);
    }
  }

  /** When nothing is left unsettled, the recorded stations are exactly those within
      the cutoff, each with its least time. */
  lemma SearchDone(tg: TimedGraph, s: StationId, t: real, settled: set<StationId>,
                   dist: map<StationId, real>, via: map<StationId, seq<StationId>>)
    requires Plausible(tg) && Searching(tg, s, t, settled, dist, via) && dist.Keys - settled == {}
    ensures forall v :: v in dist <==> Within(tg, s, v, t)
    ensures forall v :: v in dist ==> IsShortest(tg, s, v, dist[v])
  {
    forall v | v in dist
      ensures v in settled
    {
      assert v !in dist.Keys - settled;
    }
    assert dist.Keys == settled;
    forall v | Within(tg, s, v, t)
      ensures v in dist
    {
      var p :| IsRoute(tg.graph, p, s, v) && TravelTime(tg, p) <= t;
      Reached(tg, s, t, settled, dist, p);
    }
    forall v | v in dist
      ensures Within(tg, s, v, t) && IsShortest(tg, s, v, dist[v])
    {
      assert IsRoute(tg.graph, via[v], s, v);
    }
  }

  /** single_source_dijkstra_path_length(G, source, cutoff): the stations whose least
      travel time from the source is within the cutoff, each with that time. */
  method ShortestTimes(tg: TimedGraph, source: StationId, cutoff: nat) returns (lengths: map<StationId, real>)
    requires Plausible(tg) && source in tg.graph.nodes
    ensures forall v :: v in lengths <==> Within(tg, source, v, cutoff as real)
    ensures forall v :: v in lengths ==> IsShortest(tg, source, v, lengths[v])
  {
    var t := cutoff as real;
    var settled: set<StationId> := {};
    lengths := map[source := 0.0];
    ghost var via: map<StationId, seq<StationId>> := map[source := [source]];
    assert IsPath(tg.graph, [source]);
    while lengths.Keys - settled != {}
      invariant Searching(tg, source, t, settled, lengths, via)
      invariant settled <= tg.graph.nodes
      decreases tg.graph.nodes - settled
    {
      settled, lengths, via := Settle(tg, source, t, settled, lengths, via);
    }
    SearchDone(tg, source, t, settled, lengths, via);
  }

  // ---------------------------------------------------------------------------
  // compute_reachability

  /** The stations reachable from `s` within `t` minutes. */
  ghost function ReachSet(tg: TimedGraph, s: StationId, t: real): set<StationId>
  {
    set v | v in tg.graph.nodes && Within(tg, s, v, t)
  }

  /** A walk starts and ends at stations of the network. */
  lemma WithinNodes(tg: TimedGraph, s: StationId, v: StationId, t: real)
    requires Within(tg, s, v, t)
    ensures s in tg.graph.nodes && v in tg.graph.nodes
  {
    var p :| IsRoute(tg.graph, p, s, v) && TravelTime(tg, p) <= t;
    assert p[0] in tg.graph.nodes && p[|p| - 1] in tg.graph.nodes;
  }

  /** The keys of a cutoff search are the stations reachable within the cutoff. */
  lemma SearchReaches(tg: TimedGraph, s: StationId, t: real, lengths: map<StationId, real>)
    requires forall v :: v in lengths <==> Within(tg, s, v, t)
    ensures lengths.Keys == ReachSet(tg, s, t)
  {
    forall v | v in lengths
      ensures v in tg.graph.nodes
    {
      WithinNodes(tg, s, v, t);
    }
  }

  /** compute_reachability(G, threshold): for every station, the set of stations its
      cutoff search reaches. */
  method ComputeReachability(tg: TimedGraph, cutoff: nat) returns (reach: map<StationId, set<StationId>>)
    requires Plausible(tg)
    ensures reach.Keys == tg.graph.nodes
    ensures forall s :: s in reach ==> reach[s] == ReachSet(tg, s, cutoff as real)
  {
    reach := map[];
    var todo := tg.graph.nodes;
    while todo != {}
      invariant todo <= tg.graph.nodes && reach.Keys == tg.graph.nodes - todo
      invariant forall s :: s in reach ==> reach[s] == ReachSet(tg, s, cutoff as real)
      decreases todo
    {
      var s :| s in todo;
      var lengths := ShortestTimes(tg, s, cutoff);
      SearchReaches(tg, s, cutoff as real, lengths);
      reach := reach[s := lengths.Keys];
      todo := todo - {s};
    }
  }

  /** Every station reaches itself: the search always reports its source. */
  lemma ReachesItself(tg: TimedGraph, s: StationId, t: real)
    requires s in tg.graph.nodes && 0.0 <= t
    ensures s in ReachSet(tg, s, t)
  {
    assert IsRoute(tg.graph, [s], s, s) && TravelTime(tg, [s]) == 0.0;
  }

  /** A station reaches between one and all of the stations. */
  lemma ReachSize(tg: TimedGraph, s: StationId, t: real)
    requires s in tg.graph.nodes && 0.0 <= t
    ensures 1 <= |ReachSet(tg, s, t)| <= |tg.graph.nodes|
  {
    ReachesItself(tg, s, t);
    SubsetSize({s}, ReachSet(tg, s, t));
    SubsetSize(ReachSet(tg, s, t), tg.graph.nodes);
  }

  /** A longer threshold reaches at least the same stations. */
  lemma ReachMonotone(tg: TimedGraph, s: StationId, t: real, t': real)
    requires t <= t'
    ensures ReachSet(tg, s, t) <= ReachSet(tg, s, t')
  {
    forall v | v in ReachSet(tg, s, t)
      ensures Within(tg, s, v, t')
    {
      var p :| IsRoute(tg.graph, p, s, v) && TravelTime(tg, p) <= t;
      assert TravelTime(tg, p) <= t';
    }
  }

  /** An edge takes as long in both directions. */
  lemma EdgeTimeSymmetric(tg: TimedGraph, u: StationId, v: StationId)
    ensures EdgeTime(tg, u, v) == EdgeTime(tg, v, u)
  {
    if u != v {
      KeySymmetric(u, v);
    }
  }

  /** The time of a walk is its first edge plus the rest. */
  lemma {:induction false} TravelTimeFirst(tg: TimedGraph, p: seq<StationId>)
    requires |p| >= 2
    ensures TravelTime(tg, p) == EdgeTime(tg, p[0], p[1]) + TravelTime(tg, p[1..])
  {
    if |p| > 2 {
      var q := p[..|p| - 1];
      TravelTimeFirst(tg, q);
      assert q[1..] == p[1..][..|p| - 2];
    }
  }

  /** A walk takes as long backwards as forwards. */
  lemma {:induction false} TravelTimeReverse(tg: TimedGraph, p: seq<StationId>)
    ensures TravelTime(tg, Reverse(p)) == TravelTime(tg, p)
  {
    if |p| >= 2 {
      var r := Reverse(p);
      assert r[..|r| - 1] == Reverse(p[1..]);
      TravelTimeReverse(tg, p[1..]);
      EdgeTimeSymmetric(tg, p[1], p[0]);
      TravelTimeFirst(tg, p);
    }
  }

  /** On the undirected network, `s` reaches `v` exactly when `v` reaches `s`. */
  lemma ReachSymmetric(tg: TimedGraph, s: StationId, v: StationId, t: real)
    ensures v in ReachSet(tg, s, t) <==> s in ReachSet(tg, v, t)
  {
    if v in ReachSet(tg, s, t) {
      ReachBack(tg, s, v, t);
    }
    if s in ReachSet(tg, v, t) {
      ReachBack(tg, v, s, t);
    }
  }

  lemma ReachBack(tg: TimedGraph, s: StationId, v: StationId, t: real)
    requires Within(tg, s, v, t)
    ensures Within(tg, v, s, t) && s in tg.graph.nodes
  {
    var p :| IsRoute(tg.graph, p, s, v) && TravelTime(tg, p) <= t;
    var r := Reverse(p);
    forall i | 0 < i < |r|
      ensures Adjacent(tg.graph, r[i - 1], r[i])
    {
      AdjacentSymmetric(tg.graph, p[|p| - 1 - i], p[|p| - i]);
    }
    TravelTimeReverse(tg, p);
    assert IsRoute(tg.graph, r, v, s);
  }
}
