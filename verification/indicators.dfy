/** compute_derrible_kennedy_indicators and predict_boardings_per_capita: vertex and
    edge counts, coverage σ, directness τ = n_L / δ where δ is the greatest least
    number of transfers between two special stations, connectivity ρ from the
    transfer possibilities, and the regression that predicts boardings per capita. */
module Indicators {
  import opened Core
  import opened Graphs
  import opened Topology
  import opened Simplified
  import opened Transfers

  // ---------------------------------------------------------------------------
  // δ: the greatest least number of transfers

  /** The nodes δ is taken over: those flagged transfer or terminal. */
  function Relevant(fg: FriGraph): (rel: set<StationId>)
    ensures rel <= fg.graph.nodes
    ensures forall n :: n in fg.graph.nodes && (n in fg.transfer || n in fg.terminal) ==> n in rel
    ensures forall n :: n in rel ==> n in fg.transfer || n in fg.terminal
  {
    set n | n in fg.graph.nodes && (n in fg.transfer || n in fg.terminal)
  }

  /** `d` is δ over `rel` taken pair by pair in increasing order: no pair needs more
      transfers, some pair needs exactly `d`, and it is 0 for fewer than two nodes. */
  ghost predicate IsDelta(fg: FriGraph, rel: set<StationId>, numLines: nat, d: nat)
  {
    && (forall u, v, r: nat :: u in rel && v in rel && u < v && IsMinTransfers(fg, u, v, numLines, r) ==> r <= d)
    && if |rel| < 2 then d == 0
       else exists u, v :: u in rel && v in rel && u < v && IsMinTransfers(fg, u, v, numLines, d)
  }

  /** The search has one answer. */
  lemma MinTransfersUnique(fg: FriGraph, source: StationId, target: StationId, numLines: nat, r: nat, r': nat)
    requires IsMinTransfers(fg, source, target, numLines, r)
    requires IsMinTransfers(fg, source, target, numLines, r')
    ensures r == r'
  {
    if exists c :: Reaches(fg, source, target, c) {
      assert r <= r' && r' <= r;
    }
  }

  /** When every line of an edge serves both of its stations, the order the pairs
      are taken in does not matter: δ bounds the least number of transfers between
      any two distinct nodes of `rel`, whichever of them is the start. */
  lemma DeltaAllPairs(fg: FriGraph, rel: set<StationId>, numLines: nat, d: nat)
    requires LinesAtEnds(fg) && rel <= fg.graph.nodes && IsDelta(fg, rel, numLines, d)
    ensures forall u, v, r: nat :: u in rel && v in rel && u != v && IsMinTransfers(fg, u, v, numLines, r) ==> r <= d
  {
    forall u, v, r: nat | u in rel && v in rel && u != v && IsMinTransfers(fg, u, v, numLines, r)
      ensures r <= d
    {
      if v < u {
        MinTransfersSymmetric(fg, u, v, numLines, r);
      }
    }
  }

  /** Every pair (order[i], order[j]) with i < j, and j < k when i == row, needs no more than `d`. */
  ghost predicate PairsBelow(fg: FriGraph, order: seq<StationId>, numLines: nat, row: nat, k: nat, d: nat)
  {
    forall i, j, r: nat ::
      (0 <= i < j < |order| && (i < row || (i == row && j < k)) && IsMinTransfers(fg, order[i], order[j], numLines, r))
      ==> r <= d
  }

  /** Some pair before (row, k) needs exactly `d`. */
  ghost predicate PairAt(fg: FriGraph, order: seq<StationId>, numLines: nat, d: nat)
  {
    exists i, j :: 0 <= i < j < |order| && IsMinTransfers(fg, order[i], order[j], numLines, d)
  }

  /** One step of the inner loop: the pair (order[row], order[k]) is taken in. */
  lemma TakePair(fg: FriGraph, order: seq<StationId>, numLines: nat, row: nat, k: nat, d: nat, t: nat)
    requires row < k < |order|
    requires PairsBelow(fg, order, numLines, row, k, d)
    requires IsMinTransfers(fg, order[row], order[k], numLines, t)
    ensures PairsBelow(fg, order, numLines, row, k + 1, if t > d then t else d)
  {
    forall i, j, r: nat | 0 <= i < j < |order| && (i < row || (i == row && j < k + 1))
      && IsMinTransfers(fg, order[i], order[j], numLines, r)
      ensures r <= (if t > d then t else d)
    {
      if i == row && j == k {
        MinTransfersUnique(fg, order[row], order[k], numLines, r, t);
      }
    }
  }

  /** The loop nest of the δ computation over `order`, the relevant nodes in
      increasing order: the greatest least number of transfers from a node to a
      later one. */
  method MaxTransfers(fg: FriGraph, order: seq<StationId>, numLines: nat) returns (d: nat)
    requires forall i :: 0 <= i < |order| ==> order[i] in fg.graph.nodes
    ensures PairsBelow(fg, order, numLines, |order|, 0, d)
    ensures |order| >= 2 ==> PairAt(fg, order, numLines, d)
    ensures |order| < 2 ==> d == 0
  {
    d := 0;
    for row := 0 to |order|
      invariant PairsBelow(fg, order, numLines, row, 0, d)
      invariant row > 0 && |order| >= 2 ==> PairAt(fg, order, numLines, d)
      invariant row == 0 || |order| < 2 ==> d == 0
    {
      for k := row + 1 to |order|
        invariant PairsBelow(fg, order, numLines, row, k, d)
        invariant (row > 0 || k > row + 1) ==> PairAt(fg, order, numLines, d)
        invariant (row == 0 && k == 1) || |order| < 2 ==> d == 0
      {
        var t := MinTransfers(fg, order[row], order[k], numLines);
        TakePair(fg, order, numLines, row, k, d, t);
        if t >= d {
          d := t;
          assert IsMinTransfers(fg, order[row], order[k], numLines, d);
        }
      }
      assert PairsBelow(fg, order, numLines, row + 1, 0, d);
    }
  }

  /** δ over a set of nodes, taken in increasing order. */
  method Delta(fg: FriGraph, numLines: nat) returns (d: nat)
    ensures IsDelta(fg, Relevant(fg), numLines, d)
  {
    var rel := Relevant(fg);
    var order := Ascending(rel);
    d := MaxTransfers(fg, order, numLines);
    DeltaOfOrder(fg, rel, order, numLines, d);
  }

  lemma DeltaOfOrder(fg: FriGraph, rel: set<StationId>, order: seq<StationId>, numLines: nat, d: nat)
    requires forall i, j :: 0 <= i < j < |order| ==> order[i] < order[j]
    requires forall x :: x in rel <==> x in order
    requires PairsBelow(fg, order, numLines, |order|, 0, d)
    requires |order| >= 2 ==> PairAt(fg, order, numLines, d)
    requires |order| < 2 ==> d == 0
    ensures IsDelta(fg, rel, numLines, d)
  {
    DistinctSize(rel, order);
    forall u, v, r: nat | u in rel && v in rel && u < v && IsMinTransfers(fg, u, v, numLines, r)
      ensures r <= d
    {
      var i :| 0 <= i < |order| && order[i] == u;
      var j :| 0 <= j < |order| && order[j] == v;
      assert i < j;
    }
    if |rel| >= 2 {
      var i, j :| 0 <= i < j < |order| && IsMinTransfers(fg, order[i], order[j], numLines, d);
      assert order[i] in rel && order[j] in rel && order[i] < order[j];
    }
  }

  /** A strictly increasing enumeration of a set is as long as the set is large. */
  lemma {:induction false} DistinctSize(s: set<StationId>, order: seq<StationId>)
    requires forall i, j :: 0 <= i < j < |order| ==> order[i] < order[j]
    requires forall x :: x in s <==> x in order
    ensures |s| == |order|
    decreases |order|
  {
    if order != [] {
      var last := order[|order| - 1];
      var prefix := order[..|order| - 1];
      forall x | x in s - {last}
        ensures x in prefix
      {
        var i :| 0 <= i < |order| && order[i] == x;
        assert i != |order| - 1;
      }
      forall x | x in prefix
        ensures x in s - {last}
      {
        var i :| 0 <= i < |prefix| && prefix[i] == x;
      }
      DistinctSize(s - {last}, prefix);
    }
  }

  // ---------------------------------------------------------------------------
  // The graph δ is taken on

  /** G.subgraph(keep).copy(): the kept nodes with their flags and lines, and the
      edges between them with their lines. */
  function SubFri(fg: FriGraph, keep: set<StationId>): FriGraph
  {
    var g := Subgraph(fg.graph, keep);
    FriGraph(g, fg.transfer * keep, fg.terminal * keep,
             map v | v in fg.nodeLines && v in keep :: fg.nodeLines[v],
             map e | e in fg.edgeLines && e in g.edges :: fg.edgeLines[e])
  }

  /** The graph δ is computed on: the whole graph when it is connected, otherwise
      its first largest component. */
  ghost predicate IsMainGraph(fg: FriGraph, main: FriGraph)
  {
    if AllConnected(fg.graph) then main == fg
    else exists comps :: Partitioned(fg.graph, comps, fg.graph.nodes) && comps != []
                         && main == SubFri(fg, comps[Largest(comps)])
  }

  method MainGraph(fg: FriGraph) returns (main: FriGraph)
    requires fg.graph.nodes != {}
    ensures IsMainGraph(fg, main)
    ensures main.graph.nodes <= fg.graph.nodes
  {
    var connected := IsConnected(fg.graph);
    if connected {
      main := fg;
    } else {
      var comps := Components(fg.graph);
      InUnion(comps, Least(fg.graph.nodes));
      main := SubFri(fg, comps[Largest(comps)]);
    }
  }

  /** A component keeps the lines of its edges at their ends. */
  lemma SubFriLines(fg: FriGraph, keep: set<StationId>)
    requires LinesAtEnds(fg)
    ensures LinesAtEnds(SubFri(fg, keep))
  {
    var sub := SubFri(fg, keep);
    forall e, l | e in sub.graph.edges && l in EdgeLinesOf(sub, e)
      ensures l in NodeLines(sub, e.lo) && l in NodeLines(sub, e.hi)
    {
      assert l in EdgeLinesOf(fg, e);
    }
  }

  // ---------------------------------------------------------------------------
  // The three indicators

  /** The value of π the analysis uses (numpy's double). */
  const Pi: real := 3.141592653589793

  /** The area of Singapore in square kilometres. */
  const SingaporeArea: real := 734.3

  /** σ: the catchment of every station, a disc of radius 0.5 km, over the area. */
  function Sigma(stations: nat): (r: real)
    ensures r >= 0.0 && (r > 0.0 <==> stations > 0)
  {
    stations as real * Pi * 0.25 / SingaporeArea
  }

  /** Coverage grows with the number of stations, in proportion. */
  lemma SigmaAdds(a: nat, b: nat)
    ensures Sigma(a + b) == Sigma(a) + Sigma(b)
    ensures a <= b ==> Sigma(a) <= Sigma(b)
  {
  }

  /** τ = n_L / δ, or 1 when δ is 0. */
  function Tau(numLines: nat, delta: nat): (r: real)
    ensures delta > 0 ==> r * delta as real == numLines as real
    ensures delta == 0 ==> r == 1.0
    ensures r >= 0.0
  {
    if delta > 0 then numLines as real / delta as real else 1.0
  }

  /** ρ = max(0, (v_c^t - e_m) / v_t), or 0 without transfer stations. */
  function Rho(possibilities: int, multipleUse: nat, transfers: nat): (r: real)
    ensures r >= 0.0
    ensures r > 0.0 <==> transfers > 0 && possibilities > multipleUse
    ensures r > 0.0 ==> r * transfers as real == (possibilities - multipleUse) as real
  {
    if transfers > 0 then
      var rho := (possibilities - multipleUse) as real / transfers as real;
      if rho < 0.0 then 0.0 else rho
    else 0.0
  }

  /** Bpc = 44.963 σ + 7.579 τ + 92.316 ρ + 102.947. */
  function Bpc(sigma: real, tau: real, rho: real): real
  {
    44.963 * sigma + 7.579 * tau + 92.316 * rho + 102.947
  }

  /** With non-negative indicators the prediction is at least the intercept, and it
      rises with each indicator. */
  lemma BpcPositive(sigma: real, tau: real, rho: real)
    requires sigma >= 0.0 && tau >= 0.0 && rho >= 0.0
    ensures Bpc(sigma, tau, rho) >= 102.947
  {
  }

  lemma BpcMonotone(sigma: real, tau: real, rho: real, sigma': real, tau': real, rho': real)
    requires sigma <= sigma' && tau <= tau' && rho <= rho'
    ensures Bpc(sigma, tau, rho) <= Bpc(sigma', tau', rho')
  {
  }

  // ---------------------------------------------------------------------------
  // Transfer possibilities

  /** l - 1 for a node flagged transfer with l lines at its station, 0 otherwise. */
  function Possibility(fg: FriGraph, stationLines: map<StationId, set<Line>>, n: StationId): int
  {
    if n in fg.transfer then |LinesAt(stationLines, n)| - 1 else 0
  }

  /** v_c^t over `nodes`: the transfer possibilities summed over the flagged nodes. */
  ghost function Possibilities(fg: FriGraph, stationLines: map<StationId, set<Line>>, nodes: set<StationId>): int
    decreases nodes
  {
    if nodes == {} then 0
    else
      var m := Least(nodes);
      Possibility(fg, stationLines, m) + Possibilities(fg, stationLines, nodes - {m})
  }

  /** The sum does not depend on which node is taken first. */
  lemma {:induction false} PossibilitiesRemove(fg: FriGraph, stationLines: map<StationId, set<Line>>,
                                               nodes: set<StationId>, x: StationId)
    requires x in nodes
    ensures Possibilities(fg, stationLines, nodes)
            == Possibility(fg, stationLines, x) + Possibilities(fg, stationLines, nodes - {x})
    decreases nodes
  {
    var m := Least(nodes);
    if m != x {
      var rest := nodes - {x};
      var tail := nodes - {m} - {x};
      assert Possibilities(fg, stationLines, nodes)
          == Possibility(fg, stationLines, m) + Possibilities(fg, stationLines, nodes - {m});
      PossibilitiesRemove(fg, stationLines, nodes - {m}, x);
      assert m in rest;
      var lr := Least(rest);
      assert lr <= m && m <= lr;
      assert rest - {m} == tail;
      assert Possibilities(fg, stationLines, rest)
          == Possibility(fg, stationLines, m) + Possibilities(fg, stationLines, tail);
    }
  }

  /** The loop over the nodes of the graph summing l - 1 over its transfer nodes. */
  method TransferPossibilities(fg: FriGraph, stationLines: map<StationId, set<Line>>) returns (vct: int)
    ensures vct == Possibilities(fg, stationLines, fg.graph.nodes)
  {
    vct := 0;
    var rest := fg.graph.nodes;
    while rest != {}
      invariant rest <= fg.graph.nodes
      invariant vct + Possibilities(fg, stationLines, rest) == Possibilities(fg, stationLines, fg.graph.nodes)
      decreases rest
    {
      var node :| node in rest;
      PossibilitiesRemove(fg, stationLines, rest, node);
      if node in fg.transfer {
        vct := vct + (|LinesAt(stationLines, node)| - 1);
      }
      rest := rest - {node};
    }
  }

  /** Every transfer node has at least two lines, so it offers at least one transfer. */
  lemma {:induction false} PossibilitiesAtLeast(fg: FriGraph, stationLines: map<StationId, set<Line>>, nodes: set<StationId>)
    requires forall n :: n in nodes && n in fg.transfer ==> |LinesAt(stationLines, n)| >= 2
    ensures Possibilities(fg, stationLines, nodes) >= |nodes * fg.transfer|
    decreases nodes
  {
    if nodes != {} {
      var m := Least(nodes);
      var rest := nodes - {m};
      PossibilitiesAtLeast(fg, stationLines, rest);
      assert Possibilities(fg, stationLines, nodes) == Possibility(fg, stationLines, m) + Possibilities(fg, stationLines, rest);
      if m in fg.transfer {
        assert m !in rest * fg.transfer;
        assert nodes * fg.transfer == rest * fg.transfer + {m};
        assert |nodes * fg.transfer| == |rest * fg.transfer| + 1;
        assert Possibility(fg, stationLines, m) >= 1;
      } else {
        assert nodes * fg.transfer == rest * fg.transfer;
      }
    }
  }

  // ---------------------------------------------------------------------------
  // All indicators

  datatype DkIndicators = DkIndicators(
    sigma: real, tau: real, rho: real,
    v: nat, vt: nat, ve: nat,
    e: nat, es: nat, em: nat,
    delta: nat, area: real, length: real)

  /** `r` holds the indicators of the indicator graph `fg` and the topology `t`:
      counts from the topology's station sets and edge counters, σ from its
      stations, δ on the main graph, τ from δ, and ρ from the transfer
      possibilities of the nodes of `fg`. */
  ghost predicate IsIndicators(fg: FriGraph, t: NetworkTopology, totalLength: real, numLines: nat, r: DkIndicators)
  {
    && r.vt == |t.transfer| && r.ve == |t.terminal - t.transfer|
    && r.v == |t.transfer + t.terminal|
    && r.es == t.singleUse && r.em == t.multipleUse
    && r.e == t.singleUse + t.multipleUse
    && r.sigma == Sigma(|t.stationLines|)
    && (exists main :: IsMainGraph(fg, main) && IsDelta(main, Relevant(main), numLines, r.delta))
    && r.tau == Tau(numLines, r.delta)
    && r.rho == Rho(Possibilities(fg, t.stationLines, fg.graph.nodes), t.multipleUse, |t.transfer|)
    && r.area == SingaporeArea && r.length == totalLength
  }

  /** compute_derrible_kennedy_indicators on the indicator graph `fg` and the
      topology `t`, or None for a graph without nodes, where networkx refuses to
      say whether the graph is connected. */
  method ComputeIndicators(fg: FriGraph, t: NetworkTopology, totalLength: real, numLines: nat)
    returns (r: Option<DkIndicators>)
    ensures r.None? <==> fg.graph.nodes == {}
    ensures r.Some? ==> IsIndicators(fg, t, totalLength, numLines, r.value)
  {
    if fg.graph.nodes == {} {
      return None;
    }
    var vt := |t.transfer|;
    var ve := |t.terminal - t.transfer|;
    VertexCount(t.transfer, t.terminal);
    var sigma := Sigma(|t.stationLines|);
    var main := MainGraph(fg);
    var delta := Delta(main, numLines);
    var tau := Tau(numLines, delta);
    var vct := TransferPossibilities(fg, t.stationLines);
    var rho := Rho(vct, t.multipleUse, vt);
    r := Some(DkIndicators(sigma, tau, rho, vt + ve, vt, ve, t.singleUse + t.multipleUse, t.singleUse, t.multipleUse,
                           delta, SingaporeArea, totalLength));
  }

  /** A station that is both a transfer and a terminal counts once, as a transfer:
      v_t + v_e is the number of special stations. */
  lemma VertexCount(transfer: set<StationId>, terminal: set<StationId>)
    ensures |transfer| + |terminal - transfer| == |SpecialVertices(transfer, terminal)|
  {
    assert SpecialVertices(transfer, terminal) == transfer + (terminal - transfer);
    assert transfer * (terminal - transfer) == {};
  }
}
