/** simulate_disruption_scenario and the measures compute_fri takes of a disrupted
    network: the failed stations leave a copy of the indicator graph and the
    transfer and terminal sets of the topology; targets are the top stations of a
    ranking computed once on the baseline; the isolated stations are those outside
    every largest component; the reachable pairs are counted component by
    component on the full network. */
module Disruption {
  import opened Core
  import opened Graphs
  import opened Simplified
  import opened Transfers
  import opened Indicators

  // ---------------------------------------------------------------------------
  // The disrupted network

  /** G.copy() followed by G.remove_nodes_from(failed): the surviving stations keep
      their flags and lines, and the edges between two survivors keep theirs. */
  function Disrupt(fg: FriGraph, failed: set<StationId>): FriGraph
  {
    SubFri(fg, fg.graph.nodes - failed)
  }

  /** The disrupted graph holds exactly the surviving stations and the edges that
      touch no failed station; its flags are the baseline flags of the survivors;
      every station keeps its lines; and it stays a simple graph whose edge lines
      serve both ends. */
  lemma DisruptShape(fg: FriGraph, failed: set<StationId>)
    requires WellFormed(fg.graph) && LinesAtEnds(fg)
    requires fg.transfer <= fg.graph.nodes && fg.terminal <= fg.graph.nodes
    ensures Disrupt(fg, failed).graph.nodes == fg.graph.nodes - failed
    ensures forall e :: e in Disrupt(fg, failed).graph.edges <==> e in fg.graph.edges && e.lo !in failed && e.hi !in failed
    ensures Disrupt(fg, failed).transfer == fg.transfer - failed
    ensures Disrupt(fg, failed).terminal == fg.terminal - failed
    ensures forall v :: v in Disrupt(fg, failed).graph.nodes ==> NodeLines(Disrupt(fg, failed), v) == NodeLines(fg, v)
    ensures WellFormed(Disrupt(fg, failed).graph) && LinesAtEnds(Disrupt(fg, failed))
  {
    var keep := fg.graph.nodes - failed;
    forall e
      ensures e in Disrupt(fg, failed).graph.edges <==> e in fg.graph.edges && e.lo !in failed && e.hi !in failed
    {
      RemovedEdges(fg.graph, failed, e);
    }
    SubgraphWellFormed(fg.graph, keep);
    SubFriLines(fg, keep);
  }

  /** new_topology: a copy of the topology whose transfer and terminal sets lose
      the failed stations. Every other field, the station lines and both edge
      counters among them, is the baseline's. */
  function DisruptTopology(t: NetworkTopology, failed: set<StationId>): (r: NetworkTopology)
    ensures r.transfer == t.transfer - failed && r.terminal == t.terminal - failed
    ensures r.(transfer := t.transfer, terminal := t.terminal) == t
  {
    t.(transfer := t.transfer - failed, terminal := t.terminal - failed)
  }

  // ---------------------------------------------------------------------------
  // Targets: sorted(scores.items(), key=score, reverse=True)[:k]

  /** `p` comes before `q` in the stable descending sort of the scores, where the
      nodes are listed in increasing id order: a higher score, or the same score
      and a smaller id. */
  ghost predicate Ahead(score: map<StationId, real>, p: StationId, q: StationId)
    requires p in score && q in score
  {
    score[p] > score[q] || (score[p] == score[q] && p < q)
  }

  /** `top` is the set of the first `k` stations of that sort: `k` stations of
      `nodes`, each ahead of every station left out. */
  ghost predicate IsTopK(nodes: set<StationId>, score: map<StationId, real>, k: nat, top: set<StationId>)
  {
    && (forall v :: v in nodes ==> v in score)
    && |top| == k && top <= nodes
    && forall p, q :: p in top && q in nodes && q !in top ==> Ahead(score, p, q)
  }

  /** A targeted attack removes stations whose score is at least that of every
      station that survives. */
  lemma TopKDominates(nodes: set<StationId>, score: map<StationId, real>, k: nat, top: set<StationId>)
    requires IsTopK(nodes, score, k, top)
    ensures forall p, q :: p in top && q in nodes - top ==> score[p] >= score[q]
  {
    forall p, q | p in top && q in nodes - top
      ensures score[p] >= score[q]
    {
      assert Ahead(score, p, q);
    }
  }

  /** The first `k` stations of the sort are determined by the scores. */
  lemma TopKUnique(nodes: set<StationId>, score: map<StationId, real>, k: nat, a: set<StationId>, b: set<StationId>)
    requires IsTopK(nodes, score, k, a) && IsTopK(nodes, score, k, b)
    ensures a == b
  {
    forall x | x in a
      ensures x in b
    {
      if x !in b {
        assert forall p :: p in b ==> p in a;
        ProperSubsetSize(b, a);
        assert false;
      }
    }
    if a != b {
      ProperSubsetSize(a, b);
      assert false;
    }
  }

  /** The station the scan of `order` takes next: the first of the best score
      among those not taken yet. */
  method Best(nodes: set<StationId>, order: seq<StationId>, score: map<StationId, real>, top: set<StationId>)
    returns (best: StationId)
    requires forall v :: v in nodes <==> v in order
    requires forall i, j :: 0 <= i < j < |order| ==> order[i] < order[j]
    requires forall v :: v in nodes ==> v in score
    requires !(nodes <= top)
    ensures best in nodes && best !in top
    ensures forall q :: q in nodes && q !in top && q != best ==> Ahead(score, best, q)
  {
    var found := false;
    best := 0;
    for j := 0 to |order|
      invariant !found ==> forall i :: 0 <= i < j ==> order[i] in top
      invariant found ==> best in nodes && best !in top
      invariant found ==> forall i :: 0 <= i < j && order[i] !in top && order[i] != best ==> Ahead(score, best, order[i])
      invariant found ==> forall i :: j <= i < |order| ==> best < order[i]
    {
      if order[j] !in top && (!found || score[order[j]] > score[best]) {
        best, found := order[j], true;
      }
    }
    if !found {
      assert false;
    }
    forall q | q in nodes && q !in top && q != best
      ensures Ahead(score, best, q)
    {
      var i :| 0 <= i < |order| && order[i] == q;
    }
  }

  /** The static ranking of compute_fri: the `k` stations first in the descending
      sort of scores computed once on the baseline graph. */
  method TopK(nodes: set<StationId>, score: map<StationId, real>, k: nat) returns (top: set<StationId>)
    requires forall v :: v in nodes ==> v in score
    requires k <= |nodes|
    ensures IsTopK(nodes, score, k, top)
  {
    var order := Ascending(nodes);
    top := {};
    for n := 0 to k
      invariant |top| == n && top <= nodes
      invariant forall p, q :: p in top && q in nodes && q !in top ==> Ahead(score, p, q)
    {
      if nodes <= top {
        SubsetSize(nodes, top);
        assert false;
      }
      var best := Best(nodes, order, score, top);
      top := top + {best};
    }
  }

  /** dict(G.degree()) as sort keys. */
  function DegreeScores(g: Graph): (r: map<StationId, real>)
    ensures r.Keys == g.nodes
    ensures forall v :: v in g.nodes ==> r[v] == Degree(g, v) as real
  {
    map v | v in g.nodes :: Degree(g, v) as real
  }

  /** In a simple graph a station's degree score is the number of edges at it. */
  lemma DegreeScoreIncident(g: Graph, v: StationId)
    requires WellFormed(g) && v in g.nodes
    ensures DegreeScores(g)[v] == |IncidentEdges(g, v)| as real
  {
    DegreeIncident(g, v);
  }

  // ---------------------------------------------------------------------------
  // Isolated stations

  /** The stations connected to `v`. */
  ghost function ComponentOf(g: Graph, v: StationId): set<StationId>
  {
    set w | w in g.nodes && Connected(g, v, w)
  }

  /** A station cut off from the main part of the network: its component is
      smaller than some other component. */
  ghost predicate Stranded(g: Graph, v: StationId)
  {
    v in g.nodes && exists u :: u in g.nodes && |ComponentOf(g, v)| < |ComponentOf(g, u)|
  }

  ghost function StrandedSet(g: Graph): set<StationId>
  {
    set v | v in g.nodes && Stranded(g, v)
  }

  /** The component found for a station is the set of stations connected to it. */
  lemma ComponentOfMember(g: Graph, comps: seq<set<StationId>>, seen: set<StationId>, i: nat, v: StationId)
    requires Partitioned(g, comps, seen) && i < |comps| && v in comps[i]
    ensures ComponentOf(g, v) == comps[i]
  {
    var c := comps[i];
    var root := Least(c);
    assert IsComponent(g, c);
    ComponentInNodes(g, root, c);
    ConnectedSymmetric(g, root, v);
    forall w | w in c
      ensures w in ComponentOf(g, v)
    {
      ConnectedTrans(g, v, root, w);
    }
    forall w | w in ComponentOf(g, v)
      ensures w in c
    {
      ConnectedTrans(g, root, v, w);
    }
  }

  /** In a connected graph no station is stranded. */
  lemma NoneStranded(g: Graph)
    requires AllConnected(g)
    ensures StrandedSet(g) == {}
  {
    forall v | v in g.nodes
      ensures ComponentOf(g, v) == g.nodes
    {
    }
  }

  /** The total size of the components smaller than `m`. */
  function SmallSizes(comps: seq<set<StationId>>, m: nat): nat
  {
    if comps == [] then 0
    else SmallSizes(comps[..|comps| - 1], m) + (var c := comps[|comps| - 1]; if |c| < m then |c| else 0)
  }

  /** The stations of the components smaller than `m`. */
  ghost function SmallUnion(comps: seq<set<StationId>>, m: nat): set<StationId>
  {
    if comps == [] then {}
    else SmallUnion(comps[..|comps| - 1], m) + (var c := comps[|comps| - 1]; if |c| < m then c else {})
  }

  lemma {:induction false} InSmallUnion(comps: seq<set<StationId>>, m: nat, v: StationId)
    ensures v in SmallUnion(comps, m) <==> exists i :: 0 <= i < |comps| && v in comps[i] && |comps[i]| < m
  {
    if comps != [] {
      var prefix := comps[..|comps| - 1];
      InSmallUnion(prefix, m, v);
      if exists i :: 0 <= i < |comps| && v in comps[i] && |comps[i]| < m {
        var i :| 0 <= i < |comps| && v in comps[i] && |comps[i]| < m;
        if i < |comps| - 1 {
          assert v in prefix[i];
        }
      }
      if v in SmallUnion(prefix, m) {
        var i :| 0 <= i < |prefix| && v in prefix[i] && |prefix[i]| < m;
        assert v in comps[i];
      }
    }
  }

  /** The sets share no element, pair by pair. */
  ghost predicate Disjoint(comps: seq<set<StationId>>)
  {
    forall i, j :: 0 <= i < j < |comps| ==> comps[i] !! comps[j]
  }

  /** Over disjoint components the total size is the size of the union. */
  lemma {:induction false} SmallSizesDisjoint(comps: seq<set<StationId>>, m: nat)
    requires Disjoint(comps)
    ensures SmallSizes(comps, m) == |SmallUnion(comps, m)|
  {
    if comps != [] {
      var prefix := comps[..|comps| - 1];
      var last := comps[|comps| - 1];
      SmallSizesDisjoint(prefix, m);
      forall v | v in SmallUnion(prefix, m)
        ensures v !in last
      {
        InSmallUnion(prefix, m, v);
        var i :| 0 <= i < |prefix| && v in prefix[i] && |prefix[i]| < m;
        assert comps[i] !! comps[|comps| - 1];
      }
    }
  }

  /** A stranded station lies in a component smaller than the largest. */
  lemma StrandedIsSmall(g: Graph, comps: seq<set<StationId>>, v: StationId)
    requires Partitioned(g, comps, g.nodes) && comps != [] && Stranded(g, v)
    ensures v in SmallUnion(comps, |comps[Largest(comps)]|)
  {
    InUnion(comps, v);
    var i :| 0 <= i < |comps| && v in comps[i];
    ComponentOfMember(g, comps, g.nodes, i, v);
    var u :| u in g.nodes && |ComponentOf(g, v)| < |ComponentOf(g, u)|;
    InUnion(comps, u);
    var j :| 0 <= j < |comps| && u in comps[j];
    ComponentOfMember(g, comps, g.nodes, j, u);
    assert |comps[i]| < |comps[j]| <= |comps[Largest(comps)]|;
    InSmallUnion(comps, |comps[Largest(comps)]|, v);
  }

  /** A station of a component smaller than the largest is stranded. */
  lemma SmallIsStranded(g: Graph, comps: seq<set<StationId>>, v: StationId)
    requires Partitioned(g, comps, g.nodes) && comps != []
    requires v in SmallUnion(comps, |comps[Largest(comps)]|)
    ensures Stranded(g, v)
  {
    var l := Largest(comps);
    InSmallUnion(comps, |comps[l]|, v);
    var i :| 0 <= i < |comps| && v in comps[i] && |comps[i]| < |comps[l]|;
    ComponentOfMember(g, comps, g.nodes, i, v);
    var u := Least(comps[l]);
    ComponentOfMember(g, comps, g.nodes, l, u);
    InUnion(comps, v);
    InUnion(comps, u);
    assert |ComponentOf(g, v)| < |ComponentOf(g, u)|;
  }

  /** The stranded stations are those of the components smaller than the largest. */
  lemma StrandedByComponents(g: Graph, comps: seq<set<StationId>>)
    requires Partitioned(g, comps, g.nodes) && comps != []
    ensures StrandedSet(g) == SmallUnion(comps, |comps[Largest(comps)]|)
  {
    var m := |comps[Largest(comps)]|;
    forall v
      ensures v in StrandedSet(g) <==> v in SmallUnion(comps, m)
    {
      if v in StrandedSet(g) {
        StrandedIsSmall(g, comps, v);
      }
      if v in SmallUnion(comps, m) {
        SmallIsStranded(g, comps, v);
      }
    }
  }

  /** A station of a component smaller than the largest is a node outside the largest. */
  lemma SmallOutsideLargest(comps: seq<set<StationId>>, v: StationId)
    requires Disjoint(comps) && comps != []
    requires v in SmallUnion(comps, |comps[Largest(comps)]|)
    ensures v in Union(comps) && v !in comps[Largest(comps)]
  {
    var l := Largest(comps);
    InSmallUnion(comps, |comps[l]|, v);
    var i :| 0 <= i < |comps| && v in comps[i] && |comps[i]| < |comps[l]|;
    InUnion(comps, v);
    if i < l {
      assert comps[i] !! comps[l];
    } else {
      assert comps[l] !! comps[i];
    }
  }

  /** The stations of the smaller components lie outside the largest one and
      inside the union. */
  lemma SmallBesideLargest(comps: seq<set<StationId>>)
    requires Disjoint(comps) && comps != []
    ensures SmallUnion(comps, |comps[Largest(comps)]|) * comps[Largest(comps)] == {}
    ensures SmallUnion(comps, |comps[Largest(comps)]|) + comps[Largest(comps)] <= Union(comps)
  {
    var big := comps[Largest(comps)];
    forall v | v in SmallUnion(comps, |big|)
      ensures v in Union(comps) && v !in big
    {
      SmallOutsideLargest(comps, v);
    }
    forall v | v in big
      ensures v in Union(comps)
    {
      InUnion(comps, v);
    }
  }

  /** A largest component is never stranded, so the isolated stations and one
      largest component together are at most the whole graph. */
  lemma StrandedBelow(g: Graph, comps: seq<set<StationId>>)
    requires Partitioned(g, comps, g.nodes) && comps != []
    ensures |StrandedSet(g)| + |comps[Largest(comps)]| <= |g.nodes|
  {
    var big := comps[Largest(comps)];
    StrandedByComponents(g, comps);
    SmallBesideLargest(comps);
    SubsetSize(SmallUnion(comps, |big|) + big, g.nodes);
  }

  /** sum(len(c) for c in components if len(c) < m). */
  method SumSmall(comps: seq<set<StationId>>, m: nat) returns (n: nat)
    ensures n == SmallSizes(comps, m)
  {
    n := 0;
    for i := 0 to |comps|
      invariant n == SmallSizes(comps[..i], m)
    {
      assert comps[..i + 1][..i] == comps[..i];
      if |comps[i]| < m {
        n := n + |comps[i]|;
      }
    }
    assert comps[..|comps|] == comps;
  }

  /** The sizes of the components smaller than the largest add up to the
      number of stranded stations. */
  lemma SmallSizesStranded(g: Graph, comps: seq<set<StationId>>)
    requires Partitioned(g, comps, g.nodes) && comps != []
    ensures SmallSizes(comps, |comps[Largest(comps)]|) == |StrandedSet(g)|
  {
    SmallSizesDisjoint(comps, |comps[Largest(comps)]|);
    StrandedByComponents(g, comps);
  }

  /** isolated_count: 0 for a connected graph, otherwise the total size of the
      components smaller than the largest one — every station that is stranded. */
  method IsolatedCount(g: Graph) returns (n: nat)
    requires g.nodes != {}
    ensures n == |StrandedSet(g)| && n < |g.nodes|
  {
    var connected := IsConnected(g);
    if connected {
      NoneStranded(g);
      return 0;
    }
    var comps := Components(g);
    InUnion(comps, Least(g.nodes));
    n := SumSmall(comps, |comps[Largest(comps)]|);
    SmallSizesStranded(g, comps);
    StrandedBelow(g, comps);
    assert IsComponent(g, comps[Largest(comps)]);
  }

  // ---------------------------------------------------------------------------
  // Reachable pairs

  /** n(n-1)/2: the unordered pairs of `n` stations. */
  function Pairs(n: nat): (r: nat)
    ensures 2 * r == n * (n - 1)
  {
    if n == 0 then 0 else Pairs(n - 1) + (n - 1)
  }

  /** Pairs across two groups add their product. */
  lemma PairsAdd(a: nat, b: nat)
    ensures Pairs(a + b) == Pairs(a) + Pairs(b) + a * b
  {
    assert (a + b) * (a + b - 1) == a * (a - 1) + b * (b - 1) + 2 * a * b;
  }

  lemma PairsMonotone(a: nat, b: nat)
    requires a <= b
    ensures Pairs(a) <= Pairs(b)
  {
    PairsAdd(a, b - a);
  }

  /** Two groups together have at least the pairs of each apart. */
  lemma PairsSuperadditive(a: nat, b: nat)
    ensures Pairs(a) + Pairs(b) <= Pairs(a + b)
  {
    PairsAdd(a, b);
    assert a * b >= 0;
  }

  /** The pairs inside each component, summed. */
  function PairSum(comps: seq<set<StationId>>): nat
  {
    if comps == [] then 0 else PairSum(comps[..|comps| - 1]) + Pairs(|comps[|comps| - 1]|)
  }

  /** Splitting stations into groups can only lose pairs. */
  lemma {:induction false} PairSumBound(comps: seq<set<StationId>>)
    ensures PairSum(comps) <= Pairs(Sizes(comps))
  {
    if comps != [] {
      var prefix := comps[..|comps| - 1];
      var c := |comps[|comps| - 1]|;
      PairSumBound(prefix);
      assert PairSum(comps) == PairSum(prefix) + Pairs(c);
      assert Sizes(comps) == Sizes(prefix) + c;
      PairsSuperadditive(Sizes(prefix), c);
    }
  }

  /** reachable_pairs on `h`: 0 below two stations, n(n-1)/2 when connected, and
      otherwise the pairs inside the components, summed. */
  ghost predicate IsReachablePairs(h: Graph, p: nat)
  {
    if |h.nodes| <= 1 then p == 0
    else if AllConnected(h) then p == Pairs(|h.nodes|)
    else exists comps :: Partitioned(h, comps, h.nodes) && p == PairSum(comps)
  }

  /** The connected case of reachable_pairs is the component sum too: a connected
      graph is one component. */
  lemma ConnectedPairSum(h: Graph, comps: seq<set<StationId>>)
    requires Partitioned(h, comps, h.nodes) && h.nodes != {} && AllConnected(h)
    ensures PairSum(comps) == Pairs(|h.nodes|)
  {
    OneComponent(h, comps);
    ComponentSizes(h, comps);
    assert comps[..0] == [];
  }

  /** At most every pair of the surviving stations is reachable, and exactly every
      pair when they form one connected network. */
  lemma ReachablePairsBound(h: Graph, p: nat)
    requires IsReachablePairs(h, p)
    ensures p <= Pairs(|h.nodes|)
    ensures |h.nodes| > 1 && AllConnected(h) ==> p == Pairs(|h.nodes|)
  {
    if |h.nodes| > 1 && !AllConnected(h) {
      var comps :| Partitioned(h, comps, h.nodes) && p == PairSum(comps);
      PairSumBound(comps);
      ComponentSizes(h, comps);
    }
  }

  method ReachablePairs(h: Graph) returns (p: nat)
    ensures IsReachablePairs(h, p)
  {
    if |h.nodes| <= 1 {
      return 0;
    }
    var connected := IsConnected(h);
    if connected {
      return Pairs(|h.nodes|);
    }
    var comps := Components(h);
    p := SumPairs(comps);
  }

  /** The loop of reachable_pairs over the components: n(n-1)/2 added for each
      component of more than one station. */
  method SumPairs(comps: seq<set<StationId>>) returns (p: nat)
    ensures p == PairSum(comps)
  {
    p := 0;
    for i := 0 to |comps|
      invariant p == PairSum(comps[..i])
    {
      assert comps[..i + 1][..i] == comps[..i];
      var n := |comps[i]|;
      if n > 1 {
        p := p + Pairs(n);
      }
    }
    assert comps[..|comps|] == comps;
  }

  /** total_original_pairs: 170·169/2, the pairs of the 170 stations of 2009. */
  const OriginalPairs: nat := 14365

  /** reachable_pct for `p` reachable pairs. */
  function ReachablePct(p: nat): (r: real)
    ensures r * OriginalPairs as real == p as real * 100.0
  {
    p as real / OriginalPairs as real * 100.0
  }

  /** For a network of at most 170 stations the percentage lies between 0 and 100. */
  lemma ReachablePctBound(h: Graph, p: nat)
    requires IsReachablePairs(h, p) && |h.nodes| <= 170
    ensures 0.0 <= ReachablePct(p) <= 100.0
  {
    ReachablePairsBound(h, p);
    PairsMonotone(|h.nodes|, 170);
    assert Pairs(170) == OriginalPairs;
  }
}
