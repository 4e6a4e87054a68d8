/** compute_fri: the functional resilience index. Each scenario removes a set of
    stations from the indicator graph and records the predicted boardings per
    capita relative to the baseline, the isolated stations and the share of
    station pairs still joined on the full network. Random scenarios come first,
    ten per failure probability; then the top-k stations by baseline degree for
    each k; then, when the baseline is connected, the top-k by baseline
    betweenness. The index is the plain mean of the ratios, overall and per kind. */
module Fri {
  import opened Core
  import opened Graphs
  import opened Simplified
  import opened Transfers
  import opened Indicators
  import opened Disruption

  /** What every scenario is evaluated against. */
  datatype Setting = Setting(
    fg: FriGraph,                          // G_baseline
    t: NetworkTopology,                    // the baseline topology
    full: Graph,                           // G_full
    numLines: nat,
    baselineBpc: real,
    length: set<StationId> -> real)        // route length left after a set of stations fails

  /** performance_ratio, isolated_stations and reachable_pct of one scenario. */
  datatype Outcome = Outcome(ratio: real, isolated: nat, pct: real)

  /** bpc / baseline_bpc, or 0 when the baseline is not positive. */
  function Ratio(bpc: real, baseline: real): (r: real)
    ensures baseline > 0.0 ==> r * baseline == bpc && (r > 0.0 <==> bpc > 0.0) && (r >= 0.0 <==> bpc >= 0.0)
    ensures baseline <= 0.0 ==> r == 0.0
  {
    if baseline > 0.0 then bpc / baseline else 0.0
  }

  /** `o` is what compute_fri records when `failed` fails: nothing survives, and the
      ratio and the percentage are 0 and the isolated count is `emptyIsolated`; or
      the ratio comes from the indicators of the disrupted graph and topology, the
      isolated count is the number of stranded stations, and the percentage comes
      from the reachable pairs of the full network without the failed stations. */
  ghost predicate IsOutcome(st: Setting, failed: set<StationId>, emptyIsolated: nat, o: Outcome)
  {
    var d := Disrupt(st.fg, failed);
    if d.graph.nodes == {} then o == Outcome(0.0, emptyIsolated, 0.0)
    else
      && (exists ind :: IsIndicators(d, DisruptTopology(st.t, failed), st.length(failed), st.numLines, ind)
                        && o.ratio == Ratio(Bpc(ind.sigma, ind.tau, ind.rho), st.baselineBpc))
      && o.isolated == |StrandedSet(d.graph)| && o.isolated < |d.graph.nodes|
      && exists p :: IsReachablePairs(RemoveNodes(st.full, failed), p) && o.pct == ReachablePct(p)
  }

  /** The body of one scenario of compute_fri, after the failed set is chosen. */
  method Evaluate(st: Setting, failed: set<StationId>, emptyIsolated: nat) returns (o: Outcome)
    ensures IsOutcome(st, failed, emptyIsolated, o)
  {
    var d := Disrupt(st.fg, failed);
    if d.graph.nodes == {} {
      return Outcome(0.0, emptyIsolated, 0.0);
    }
    var td := DisruptTopology(st.t, failed);
    var ind := ComputeIndicators(d, td, st.length(failed), st.numLines);
    var bpc := Bpc(ind.value.sigma, ind.value.tau, ind.value.rho);
    var ratio := Ratio(bpc, st.baselineBpc);
    var isolated := IsolatedCount(d.graph);
    var p := ReachablePairs(RemoveNodes(st.full, failed));
    o := Outcome(ratio, isolated, ReachablePct(p));
  }

  /** The indicators never push the predicted boardings below the intercept. */
  lemma IndicatorsBpc(fg: FriGraph, t: NetworkTopology, totalLength: real, numLines: nat, ind: DkIndicators)
    requires IsIndicators(fg, t, totalLength, numLines, ind)
    ensures Bpc(ind.sigma, ind.tau, ind.rho) >= 102.947
  {
    BpcPositive(ind.sigma, ind.tau, ind.rho);
  }

  /** With a positive baseline the ratio is never negative, and it is 0 exactly
      when no station survives: the regression's intercept keeps Bpc positive. */
  lemma RatioSign(st: Setting, failed: set<StationId>, emptyIsolated: nat, o: Outcome)
    requires IsOutcome(st, failed, emptyIsolated, o) && st.baselineBpc > 0.0
    ensures o.ratio >= 0.0
    ensures o.ratio > 0.0 <==> Disrupt(st.fg, failed).graph.nodes != {}
  {
    var d := Disrupt(st.fg, failed);
    if d.graph.nodes != {} {
      var ind :| IsIndicators(d, DisruptTopology(st.t, failed), st.length(failed), st.numLines, ind)
                 && o.ratio == Ratio(Bpc(ind.sigma, ind.tau, ind.rho), st.baselineBpc);
      IndicatorsBpc(d, DisruptTopology(st.t, failed), st.length(failed), st.numLines, ind);
    }
  }

  /** A network of at most 170 stations keeps between 0 and 100 percent of the pairs. */
  lemma PctRange(st: Setting, failed: set<StationId>, emptyIsolated: nat, o: Outcome)
    requires IsOutcome(st, failed, emptyIsolated, o) && |st.full.nodes| <= 170
    ensures 0.0 <= o.pct <= 100.0
  {
    if Disrupt(st.fg, failed).graph.nodes != {} {
      var h := RemoveNodes(st.full, failed);
      var p :| IsReachablePairs(h, p) && o.pct == ReachablePct(p);
      SubsetSize(h.nodes, st.full.nodes);
      ReachablePctBound(h, p);
    }
  }

  // ---------------------------------------------------------------------------
  // The scenarios

  /** RANDOM_FAILURE_PROBS as percentages. */
  const FailurePercents: seq<nat> := [5, 10, 15, 20]

  /** RANDOM_SCENARIOS_PER_PROB. */
  const RunsPerPercent: nat := 10

  /** TARGETED_FAILURE_COUNTS. */
  const TargetCounts: seq<nat> := [1, 2, 3, 4, 5, 6, 7, 8]

  datatype Kind = Random(percent: nat, run: nat) | ByDegree(k: nat) | ByBetweenness(k: nat)

  /** int(len(all_stations) * prob): the whole part of n·p/100. */
  function NumFail(n: nat, percent: nat): (r: nat)
    ensures r * 100 <= n * percent < r * 100 + 100
  {
    n * percent / 100
  }

  /** The runs of one failure probability. */
  function Runs(percent: nat, count: nat): (r: seq<Kind>)
    ensures |r| == count && forall i :: 0 <= i < count ==> r[i] == Random(percent, i)
  {
    seq(count, i requires 0 <= i < count => Random(percent, i))
  }

  /** The random scenarios in order: each probability that fails at least one
      station contributes its runs. */
  function RandomPlan(n: nat, percents: seq<nat>): seq<Kind>
  {
    if percents == [] then []
    else
      var p := percents[|percents| - 1];
      RandomPlan(n, percents[..|percents| - 1]) + (if NumFail(n, p) == 0 then [] else Runs(p, RunsPerPercent))
  }

  /** The targeted scenarios of one ranking in order: each count below the number
      of stations. */
  function TargetPlan(n: nat, counts: seq<nat>, byDegree: bool): seq<Kind>
  {
    if counts == [] then []
    else
      var k := counts[|counts| - 1];
      TargetPlan(n, counts[..|counts| - 1], byDegree)
        + (if k >= n then [] else [if byDegree then ByDegree(k) else ByBetweenness(k)])
  }

  /** Every scenario compute_fri runs on a baseline of `n` stations, in order. */
  function Plan(n: nat, connected: bool): seq<Kind>
  {
    RandomPlan(n, FailurePercents) + TargetPlan(n, TargetCounts, true)
      + (if connected then TargetPlan(n, TargetCounts, false) else [])
  }

  lemma {:induction false} RandomPlanSize(n: nat, percents: seq<nat>)
    requires forall i :: 0 <= i < |percents| ==> NumFail(n, percents[i]) > 0
    ensures |RandomPlan(n, percents)| == RunsPerPercent * |percents|
  {
    if percents != [] {
      RandomPlanSize(n, percents[..|percents| - 1]);
    }
  }

  lemma {:induction false} TargetPlanSize(n: nat, counts: seq<nat>, byDegree: bool)
    requires forall i :: 0 <= i < |counts| ==> counts[i] < n
    ensures |TargetPlan(n, counts, byDegree)| == |counts|
  {
    if counts != [] {
      TargetPlanSize(n, counts[..|counts| - 1], byDegree);
    }
  }

  /** From 20 stations on every probability fails someone and every count is
      below the number of stations: 40 random scenarios, 8 by degree, and 8 by
      betweenness when the baseline is connected. */
  lemma PlanSize(n: nat, connected: bool)
    requires n >= 20
    ensures |Plan(n, connected)| == if connected then 56 else 48
  {
    RandomPlanSize(n, FailurePercents);
    TargetPlanSize(n, TargetCounts, true);
    TargetPlanSize(n, TargetCounts, false);
  }

  /** A scenario: its kind, the stations that failed and what was recorded. */
  datatype Scenario = Scenario(kind: Kind, failed: set<StationId>, outcome: Outcome)

  function Kinds(s: seq<Scenario>): (r: seq<Kind>)
    ensures |r| == |s| && forall i :: 0 <= i < |s| ==> r[i] == s[i].kind
  {
    seq(|s|, i requires 0 <= i < |s| => s[i].kind)
  }

  /** How the failed set of a scenario is chosen: the random sample drawn for the
      run, or the top-k stations of the baseline by degree or by betweenness. */
  ghost predicate Chosen(st: Setting, sample: (nat, nat) -> set<StationId>, betweenness: map<StationId, real>,
                         kind: Kind, failed: set<StationId>)
  {
    match kind
    case Random(p, r) => failed == sample(p, r)
    case ByDegree(k) => IsTopK(st.fg.graph.nodes, DegreeScores(st.fg.graph), k, failed)
    case ByBetweenness(k) => IsTopK(st.fg.graph.nodes, betweenness, k, failed)
  }

  /** isolated_stations when nothing survives: every station for a random
      scenario, `k` for a targeted one. */
  function EmptyIsolated(kind: Kind, n: nat): nat
  {
    match kind
    case Random(_, _) => n
    case ByDegree(k) => k
    case ByBetweenness(k) => k
  }

  ghost predicate Valid(st: Setting, sample: (nat, nat) -> set<StationId>, betweenness: map<StationId, real>,
                        sc: Scenario)
  {
    && Chosen(st, sample, betweenness, sc.kind, sc.failed)
    && IsOutcome(st, sc.failed, EmptyIsolated(sc.kind, |st.fg.graph.nodes|), sc.outcome)
  }

  ghost predicate AllValid(st: Setting, sample: (nat, nat) -> set<StationId>, betweenness: map<StationId, real>,
                           s: seq<Scenario>)
  {
    forall i :: 0 <= i < |s| ==> Valid(st, sample, betweenness, s[i])
  }

  /** Appending a valid scenario keeps every scenario valid. */
  lemma AppendValid(st: Setting, sample: (nat, nat) -> set<StationId>, betweenness: map<StationId, real>,
                    s: seq<Scenario>, sc: Scenario)
    requires AllValid(st, sample, betweenness, s) && Valid(st, sample, betweenness, sc)
    ensures AllValid(st, sample, betweenness, s + [sc])
    ensures Kinds(s + [sc]) == Kinds(s) + [sc.kind]
  {
    forall i | 0 <= i < |s| + 1
      ensures Valid(st, sample, betweenness, (s + [sc])[i])
    {
      if i < |s| {
        assert (s + [sc])[i] == s[i];
      }
    }
  }

  lemma AllValidConcat(st: Setting, sample: (nat, nat) -> set<StationId>, betweenness: map<StationId, real>,
                       a: seq<Scenario>, b: seq<Scenario>)
    requires AllValid(st, sample, betweenness, a) && AllValid(st, sample, betweenness, b)
    ensures AllValid(st, sample, betweenness, a + b)
    ensures Kinds(a + b) == Kinds(a) + Kinds(b)
  {
    forall i | 0 <= i < |a| + |b|
      ensures Valid(st, sample, betweenness, (a + b)[i])
    {
      if i < |a| {
        assert (a + b)[i] == a[i];
      } else {
        assert (a + b)[i] == b[i - |a|];
      }
    }
  }

  /** One run of one failure probability that fails at least one station: the
      sample drawn for the run fails. */
  method RandomScenario(st: Setting, sample: (nat, nat) -> set<StationId>, betweenness: map<StationId, real>,
                        p: nat, run: nat) returns (sc: Scenario)
    ensures sc.kind == Random(p, run)
    ensures Valid(st, sample, betweenness, sc)
  {
    var failed := sample(p, run);
    var o := Evaluate(st, failed, |st.fg.graph.nodes|);
    sc := Scenario(Random(p, run), failed, o);
  }

  /** The random scenarios: for each probability and run, the sample fails unless
      it would fail no station. */
  method RandomScenarios(st: Setting, sample: (nat, nat) -> set<StationId>, betweenness: map<StationId, real>)
    returns (s: seq<Scenario>)
    ensures Kinds(s) == RandomPlan(|st.fg.graph.nodes|, FailurePercents)
    ensures AllValid(st, sample, betweenness, s)
  {
    var n := |st.fg.graph.nodes|;
    s := [];
    for pi := 0 to |FailurePercents|
      invariant Kinds(s) == RandomPlan(n, FailurePercents[..pi])
      invariant AllValid(st, sample, betweenness, s)
    {
      assert FailurePercents[..pi + 1][..pi] == FailurePercents[..pi];
      s := RandomRuns(st, sample, betweenness, s, FailurePercents[pi]);
    }
    assert FailurePercents[..|FailurePercents|] == FailurePercents;
  }

  /** The runs of one failure probability, none when it fails no station. */
  method RandomRuns(st: Setting, sample: (nat, nat) -> set<StationId>, betweenness: map<StationId, real>,
                    s: seq<Scenario>, p: nat) returns (s': seq<Scenario>)
    requires AllValid(st, sample, betweenness, s)
    ensures Kinds(s') == Kinds(s) + (if NumFail(|st.fg.graph.nodes|, p) == 0 then [] else Runs(p, RunsPerPercent))
    ensures AllValid(st, sample, betweenness, s')
  {
    s' := s;
    if NumFail(|st.fg.graph.nodes|, p) == 0 {
      assert Kinds(s) + [] == Kinds(s);
      return;
    }
    assert Kinds(s) + Runs(p, 0) == Kinds(s);
    for run := 0 to RunsPerPercent
      invariant Kinds(s') == Kinds(s) + Runs(p, run)
      invariant AllValid(st, sample, betweenness, s')
    {
      var sc := RandomScenario(st, sample, betweenness, p, run);
      AppendValid(st, sample, betweenness, s', sc);
      RunsStep(Kinds(s), p, run);
      s' := s' + [sc];
    }
  }

  lemma RunsStep(prefix: seq<Kind>, p: nat, run: nat)
    ensures prefix + Runs(p, run + 1) == prefix + Runs(p, run) + [Random(p, run)]
  {
    assert Runs(p, run + 1) == Runs(p, run) + [Random(p, run)];
  }

  /** One targeted scenario with `k` below the number of stations: the top `k`
      stations of the ranking fail. */
  method TargetScenario(st: Setting, sample: (nat, nat) -> set<StationId>, betweenness: map<StationId, real>,
                        byDegree: bool, scores: map<StationId, real>, k: nat) returns (sc: Scenario)
    requires scores == if byDegree then DegreeScores(st.fg.graph) else betweenness
    requires forall v :: v in st.fg.graph.nodes ==> v in scores
    requires k < |st.fg.graph.nodes|
    ensures sc.kind == if byDegree then ByDegree(k) else ByBetweenness(k)
    ensures Valid(st, sample, betweenness, sc)
  {
    var failed := TopK(st.fg.graph.nodes, scores, k);
    var o := Evaluate(st, failed, k);
    sc := Scenario(if byDegree then ByDegree(k) else ByBetweenness(k), failed, o);
  }

  /** One count of the targeted loop: scored and appended when it is below the
      number of stations, skipped otherwise. */
  method AddTargetScenario(st: Setting, sample: (nat, nat) -> set<StationId>, betweenness: map<StationId, real>,
                           byDegree: bool, scores: map<StationId, real>, k: nat, s: seq<Scenario>)
    returns (s': seq<Scenario>)
    requires scores == if byDegree then DegreeScores(st.fg.graph) else betweenness
    requires forall v :: v in st.fg.graph.nodes ==> v in scores
    requires AllValid(st, sample, betweenness, s)
    ensures Kinds(s') == Kinds(s) + (if k >= |st.fg.graph.nodes| then []
                                      else [if byDegree then ByDegree(k) else ByBetweenness(k)])
    ensures AllValid(st, sample, betweenness, s')
  {
    s' := s;
    if k < |st.fg.graph.nodes| {
      var sc := TargetScenario(st, sample, betweenness, byDegree, scores, k);
      AppendValid(st, sample, betweenness, s, sc);
      s' := s + [sc];
    }
  }

  /** Extending the counts by one adds that count's scenario when it is below the station count. */
  lemma TargetPlanStep(n: nat, counts: seq<nat>, i: nat, byDegree: bool)
    requires i < |counts|
    ensures TargetPlan(n, counts[..i + 1], byDegree)
            == TargetPlan(n, counts[..i], byDegree)
               + (if counts[i] >= n then [] else [if byDegree then ByDegree(counts[i]) else ByBetweenness(counts[i])])
  {
    assert counts[..i + 1][..i] == counts[..i];
  }

  /** The targeted scenarios of one ranking, scored once on the baseline: for each
      count below the number of stations, the top stations fail. */
  method TargetScenarios(st: Setting, sample: (nat, nat) -> set<StationId>, betweenness: map<StationId, real>,
                         byDegree: bool, counts: seq<nat>) returns (s: seq<Scenario>)
    requires !byDegree ==> forall v :: v in st.fg.graph.nodes ==> v in betweenness
    ensures Kinds(s) == TargetPlan(|st.fg.graph.nodes|, counts, byDegree)
    ensures AllValid(st, sample, betweenness, s)
  {
    var n := |st.fg.graph.nodes|;
    var scores := if byDegree then DegreeScores(st.fg.graph) else betweenness;
    s := [];
    for ki := 0 to |counts|
      invariant Kinds(s) == TargetPlan(n, counts[..ki], byDegree)
      invariant AllValid(st, sample, betweenness, s)
    {
      TargetPlanStep(n, counts, ki, byDegree);
      s := AddTargetScenario(st, sample, betweenness, byDegree, scores, counts[ki], s);
    }
    assert counts[..|counts|] == counts;
  }

  // ---------------------------------------------------------------------------
  // The index

  datatype Category = RandomCategory | DegreeCategory | BetweennessCategory

  function CategoryOf(kind: Kind): Category
  {
    match kind
    case Random(_, _) => RandomCategory
    case ByDegree(_) => DegreeCategory
    case ByBetweenness(_) => BetweennessCategory
  }

  function Ratios(s: seq<Scenario>): (r: seq<real>)
    ensures |r| == |s|
  {
    if s == [] then [] else Ratios(s[..|s| - 1]) + [s[|s| - 1].outcome.ratio]
  }

  /** The scenarios of one category, in order. */
  function OfCategory(s: seq<Scenario>, c: Category): (r: seq<Scenario>)
    ensures |r| <= |s|
    ensures forall i :: 0 <= i < |r| ==> CategoryOf(r[i].kind) == c
  {
    if s == [] then []
    else OfCategory(s[..|s| - 1], c) + (if CategoryOf(s[|s| - 1].kind) == c then [s[|s| - 1]] else [])
  }

  /** A category's scenarios are exactly the scenarios of that category. */
  lemma {:induction false} OfCategoryMembers(s: seq<Scenario>, c: Category)
    ensures forall x :: x in OfCategory(s, c) <==> x in s && CategoryOf(x.kind) == c
  {
    if s != [] {
      OfCategoryMembers(s[..|s| - 1], c);
      assert s == s[..|s| - 1] + [s[|s| - 1]];
    }
  }

  /** Selecting a category keeps the order of the scenarios: it distributes over concatenation. */
  lemma {:induction false} OfCategoryConcat(s: seq<Scenario>, t: seq<Scenario>, c: Category)
    ensures OfCategory(s + t, c) == OfCategory(s, c) + OfCategory(t, c)
  {
    if t == [] {
      assert s + t == s;
    } else {
      var init, last := t[..|t| - 1], t[|t| - 1];
      var tail := if CategoryOf(last.kind) == c then [last] else [];
      OfCategoryConcat(s, init, c);
      assert (s + t)[..|s + t| - 1] == s + init && (s + t)[|s + t| - 1] == last;
      assert OfCategory(s + t, c) == OfCategory(s + init, c) + tail;
      assert OfCategory(t, c) == OfCategory(init, c) + tail;
    }
  }

  /** The mean of a kind's ratios in fri_by_type; groupby gives no entry to a kind
      without scenarios. */
  function MeanRatio(s: seq<Scenario>): (r: Option<real>)
    ensures r.None? <==> s == []
    ensures r.Some? ==> r.value * |s| as real == Sum(Ratios(s))
  {
    if s == [] then None else Some(Mean(Ratios(s)))
  }

  /** fri_overall and fri_by_type. */
  datatype FriIndex = FriIndex(overall: real, random: Option<real>, degree: Option<real>, betweenness: Option<real>)

  /** The index over the scenarios, or None when there are none: a DataFrame built
      from an empty list has no 'performance_ratio' column, and the lookup raises. */
  function FriOf(s: seq<Scenario>): (r: Option<FriIndex>)
    ensures r.None? <==> s == []
  {
    if s == [] then None
    else
      Some(FriIndex(Mean(Ratios(s)), MeanRatio(OfCategory(s, RandomCategory)),
                       MeanRatio(OfCategory(s, DegreeCategory)), MeanRatio(OfCategory(s, BetweennessCategory))))
  }

  /** A kind has an entry in fri_by_type exactly when some scenario is of that kind. */
  lemma KindEntry(s: seq<Scenario>, c: Category)
    ensures MeanRatio(OfCategory(s, c)).Some? <==> exists i :: 0 <= i < |s| && CategoryOf(s[i].kind) == c
  {
    OfCategoryMembers(s, c);
    if exists i :: 0 <= i < |s| && CategoryOf(s[i].kind) == c {
      var i :| 0 <= i < |s| && CategoryOf(s[i].kind) == c;
      assert s[i] in OfCategory(s, c);
    }
    if OfCategory(s, c) != [] {
      var x := OfCategory(s, c)[0];
      assert x in s;
      var i :| 0 <= i < |s| && s[i] == x;
    }
  }

  /** The random plan is empty exactly when no probability fails a station. */
  lemma {:induction false} RandomPlanEmpty(n: nat, percents: seq<nat>)
    ensures RandomPlan(n, percents) == [] <==> forall i :: 0 <= i < |percents| ==> NumFail(n, percents[i]) == 0
  {
    if percents != [] {
      var init := percents[..|percents| - 1];
      RandomPlanEmpty(n, init);
      assert forall i :: 0 <= i < |init| ==> init[i] == percents[i];
    }
  }

  /** A targeted plan is empty exactly when every count reaches the number of stations. */
  lemma {:induction false} TargetPlanEmpty(n: nat, counts: seq<nat>, byDegree: bool)
    ensures TargetPlan(n, counts, byDegree) == [] <==> forall i :: 0 <= i < |counts| ==> counts[i] >= n
  {
    if counts != [] {
      var init := counts[..|counts| - 1];
      TargetPlanEmpty(n, init, byDegree);
      assert forall i :: 0 <= i < |init| ==> init[i] == counts[i];
    }
  }

  /** compute_fri runs no scenario at all exactly on a baseline of at most one station:
      no probability fails anyone and every count reaches the number of stations. */
  lemma PlanEmpty(n: nat, connected: bool)
    ensures Plan(n, connected) == [] <==> n <= 1
  {
    RandomPlanEmpty(n, FailurePercents);
    TargetPlanEmpty(n, TargetCounts, true);
    TargetPlanEmpty(n, TargetCounts, false);
    if n <= 1 {
      forall i | 0 <= i < |FailurePercents|
        ensures NumFail(n, FailurePercents[i]) == 0
      {
        assert n * FailurePercents[i] <= 20;
      }
    } else {
      assert TargetCounts[0] < n;
    }
  }

  /** compute_fri: the scenarios in the order of the plan, each chosen and
      evaluated as the source does, and the index over them. */
  method ComputeFri(st: Setting, sample: (nat, nat) -> set<StationId>, betweenness: map<StationId, real>)
    returns (scenarios: seq<Scenario>, fri: Option<FriIndex>)
    requires st.fg.graph.nodes != {}
    requires forall v :: v in st.fg.graph.nodes ==> v in betweenness
    ensures Kinds(scenarios) == Plan(|st.fg.graph.nodes|, AllConnected(st.fg.graph))
    ensures AllValid(st, sample, betweenness, scenarios)
    ensures fri == FriOf(scenarios)
    ensures fri.None? <==> |st.fg.graph.nodes| == 1
  {
    var random := RandomScenarios(st, sample, betweenness);
    var degree := TargetScenarios(st, sample, betweenness, true, TargetCounts);
    var connected := IsConnected(st.fg.graph);
    var between: seq<Scenario> := [];
    if connected {
      between := TargetScenarios(st, sample, betweenness, false, TargetCounts);
    }
    scenarios := random + degree + between;
    AllValidConcat(st, sample, betweenness, random, degree);
    AllValidConcat(st, sample, betweenness, random + degree, between);
    fri := FriOf(scenarios);
    PlanEmpty(|st.fg.graph.nodes|, AllConnected(st.fg.graph));
    assert |Kinds(scenarios)| == |scenarios|;
  }

  // ---------------------------------------------------------------------------
  // Properties of the index

  lemma {:induction false} RatiosAppend(s: seq<Scenario>, x: Scenario)
    ensures Ratios(s + [x]) == Ratios(s) + [x.outcome.ratio]
  {
    assert (s + [x])[..|s|] == s;
  }

  /** Appending a scenario adds its ratio to the sum of its own category only. */
  lemma OfCategoryAppend(s: seq<Scenario>, x: Scenario, c: Category)
    ensures Sum(Ratios(OfCategory(s + [x], c))) == Sum(Ratios(OfCategory(s, c))) + (if CategoryOf(x.kind) == c then x.outcome.ratio else 0.0)
    ensures |OfCategory(s + [x], c)| == |OfCategory(s, c)| + (if CategoryOf(x.kind) == c then 1 else 0)
  {
    var t := s + [x];
    assert t[..|t| - 1] == s && t[|t| - 1] == x;
    if CategoryOf(x.kind) == c {
      assert OfCategory(t, c) == OfCategory(s, c) + [x];
      RatiosAppend(OfCategory(s, c), x);
      SumAppend(Ratios(OfCategory(s, c)), [x.outcome.ratio]);
    } else {
      assert OfCategory(t, c) == OfCategory(s, c) + [];
      assert OfCategory(t, c) == OfCategory(s, c);
    }
  }

  /** The overall sum of ratios is the sum over the three categories, and so are
      the counts: the overall index weights each category by its number of
      scenarios rather than averaging the three indices. */
  lemma {:induction false} CategoriesSplit(s: seq<Scenario>)
    ensures Sum(Ratios(s)) == Sum(Ratios(OfCategory(s, RandomCategory)))
                            + Sum(Ratios(OfCategory(s, DegreeCategory)))
                            + Sum(Ratios(OfCategory(s, BetweennessCategory)))
    ensures |s| == |OfCategory(s, RandomCategory)| + |OfCategory(s, DegreeCategory)| + |OfCategory(s, BetweennessCategory)|
  {
    if s != [] {
      var prefix := s[..|s| - 1];
      var x := s[|s| - 1];
      CategoriesSplit(prefix);
      assert s == prefix + [x];
      RatiosAppend(prefix, x);
      SumAppend(Ratios(prefix), [x.outcome.ratio]);
      OfCategoryAppend(prefix, x, RandomCategory);
      OfCategoryAppend(prefix, x, DegreeCategory);
      OfCategoryAppend(prefix, x, BetweennessCategory);
    }
  }

  lemma {:induction false} RatiosNonNegative(st: Setting, sample: (nat, nat) -> set<StationId>,
                                             betweenness: map<StationId, real>, s: seq<Scenario>)
    requires AllValid(st, sample, betweenness, s) && st.baselineBpc > 0.0
    ensures forall i :: 0 <= i < |s| ==> Ratios(s)[i] >= 0.0
  {
    if s != [] {
      var prefix := s[..|s| - 1];
      var x := s[|s| - 1];
      assert AllValid(st, sample, betweenness, prefix);
      RatiosNonNegative(st, sample, betweenness, prefix);
      RatioSign(st, x.failed, EmptyIsolated(x.kind, |st.fg.graph.nodes|), x.outcome);
    }
  }

  /** With a positive baseline the overall index is never negative. */
  lemma FriNonNegative(st: Setting, sample: (nat, nat) -> set<StationId>,
                       betweenness: map<StationId, real>, s: seq<Scenario>)
    requires AllValid(st, sample, betweenness, s) && st.baselineBpc > 0.0 && s != []
    ensures FriOf(s).Some? && FriOf(s).value.overall >= 0.0
  {
    RatiosNonNegative(st, sample, betweenness, s);
    MeanAtLeast(Ratios(s), 0.0);
  }
}
