/** compute_sme and estimate_reachable_area: for each time threshold, how many
    stations every station reaches on the full network, their average, median
    and share of all station pairs, the area a representative station reaches,
    and the system level mobility efficiency derived from it. */
module Sme {
  import opened Core
  import opened Graphs
  import opened Network
  import opened Reachability

  /** SME_TIME_THRESHOLDS, in minutes. */
  const Thresholds: seq<nat> := [20, 30, 45, 60]

  /** SINGAPORE_POPULATION. */
  const Population: real := 5453600.0

  /** Kilometres per degree of latitude, used for both axes of the hull. */
  const KmPerDegree: real := 111.0

  // ---------------------------------------------------------------------------
  // Counting reachable stations

  /** reachability.get(s, set()). */
  function ReachOf(reach: map<StationId, set<StationId>>, s: StationId): set<StationId>
  {
    if s in reach then reach[s] else {}
  }

  /** The number of stations reachable from each station, in node order. */
  function Counts(order: seq<StationId>, reach: map<StationId, set<StationId>>): (r: seq<nat>)
    ensures |r| == |order|
  {
    seq(|order|, i requires 0 <= i < |order| => |ReachOf(reach, order[i])|)
  }

  function SumNat(xs: seq<nat>): nat
  {
    if xs == [] then 0 else SumNat(xs[..|xs| - 1]) + xs[|xs| - 1]
  }

  /** The loop over G_full.nodes() that lists the counts and adds them up. */
  method CountReachable(order: seq<StationId>, reach: map<StationId, set<StationId>>)
    returns (counts: seq<nat>, total: nat)
    ensures counts == Counts(order, reach) && total == SumNat(counts)
    ensures |counts| == |order| && forall i :: 0 <= i < |order| ==> counts[i] == |ReachOf(reach, order[i])|
  {
    counts, total := [], 0;
    for i := 0 to |order|
      invariant counts == Counts(order[..i], reach) && total == SumNat(counts)
    {
      var c := |ReachOf(reach, order[i])|;
      assert Counts(order[..i + 1], reach) == counts + [c];
      counts := counts + [c];
      total := total + c;
    }
    assert order[..|order|] == order;
  }

  /** A sum of counts that all lie in [lo, hi]. */
  lemma {:induction false} SumNatBounds(xs: seq<nat>, lo: nat, hi: nat)
    requires forall i :: 0 <= i < |xs| ==> lo <= xs[i] <= hi
    ensures lo * |xs| <= SumNat(xs) <= hi * |xs|
  {
    if xs != [] {
      var n := |xs| - 1;
      SumNatBounds(xs[..n], lo, hi);
      assert lo * |xs| == lo * n + lo && hi * |xs| == hi * n + hi;
    }
  }

  /** Counts that are pointwise no larger sum to no more. */
  lemma {:induction false} SumNatMonotone(xs: seq<nat>, ys: seq<nat>)
    requires |xs| == |ys| && forall i :: 0 <= i < |xs| ==> xs[i] <= ys[i]
    ensures SumNat(xs) <= SumNat(ys)
  {
    if xs != [] {
      SumNatMonotone(xs[..|xs| - 1], ys[..|ys| - 1]);
    }
  }

  /** avg_reachable_per_station: the total over the number of stations, 0 without stations. */
  function AvgReachable(total: nat, n: nat): (r: real)
    ensures n > 0 ==> r * n as real == total as real
    ensures n == 0 ==> r == 0.0
  {
    if n > 0 then total as real / n as real else 0.0
  }

  /** reachability_pct: the total as a percentage of all ordered station pairs. */
  function ReachabilityPct(total: nat, n: nat): (r: real)
    ensures n > 0 ==> r * (n * n) as real == total as real * 100.0
    ensures n == 0 ==> r == 0.0
  {
    if n > 0 then total as real / (n * n) as real * 100.0 else 0.0
  }

  // ---------------------------------------------------------------------------
  // The median

  predicate Ascends(r: seq<nat>)
  {
    forall i, j :: 0 <= i < j < |r| ==> r[i] <= r[j]
  }

  /** Puts `x` into its place in the ascending `r`. */
  function Insert(x: nat, r: seq<nat>): (r': seq<nat>)
    requires Ascends(r)
    ensures Ascends(r') && multiset(r') == multiset(r) + multiset{x}
  {
    if r == [] || x <= r[0] then [x] + r
    else
      var rest := Insert(x, r[1..]);
      InsertAbove(r[0], x, r[1..], rest);
      assert r == [r[0]] + r[1..];
      [r[0]] + rest
  }

  /** Everything put together from values at least `lo` is at least `lo`. */
  lemma InsertAbove(lo: nat, x: nat, r: seq<nat>, rest: seq<nat>)
    requires lo <= x && forall i :: 0 <= i < |r| ==> lo <= r[i]
    requires multiset(rest) == multiset(r) + multiset{x}
    ensures forall i :: 0 <= i < |rest| ==> lo <= rest[i]
  {
    forall i | 0 <= i < |rest|
      ensures lo <= rest[i]
    {
      assert rest[i] in multiset(rest);
      if rest[i] != x {
        assert rest[i] in multiset(r);
        var j :| 0 <= j < |r| && r[j] == rest[i];
      }
    }
  }

  /** sorted(xs). */
  function Sorted(xs: seq<nat>): (r: seq<nat>)
    ensures Ascends(r) && multiset(r) == multiset(xs)
  {
    if xs == [] then []
    else
      assert xs == [xs[0]] + xs[1..];
      Insert(xs[0], Sorted(xs[1..]))
  }

  /** How many of `xs` are below `m`. */
  function Below(xs: seq<nat>, m: nat): nat
  {
    if xs == [] then 0 else (if xs[0] < m then 1 else 0) + Below(xs[1..], m)
  }

  /** How many of `xs` are at most `m`. */
  function AtMost(xs: seq<nat>, m: nat): nat
  {
    if xs == [] then 0 else (if xs[0] <= m then 1 else 0) + AtMost(xs[1..], m)
  }

  lemma {:induction false} InsertCounts(x: nat, r: seq<nat>, m: nat)
    requires Ascends(r)
    ensures Below(Insert(x, r), m) == Below(r, m) + (if x < m then 1 else 0)
    ensures AtMost(Insert(x, r), m) == AtMost(r, m) + (if x <= m then 1 else 0)
  {
    if r == [] || x <= r[0] {
      assert ([x] + r)[1..] == r;
    } else {
      InsertCounts(x, r[1..], m);
      assert ([r[0]] + Insert(x, r[1..]))[1..] == Insert(x, r[1..]);
    }
  }

  /** Sorting does not change how many counts lie below or at a value. */
  lemma {:induction false} SortedCounts(xs: seq<nat>, m: nat)
    ensures Below(Sorted(xs), m) == Below(xs, m) && AtMost(Sorted(xs), m) == AtMost(xs, m)
  {
    if xs != [] {
      SortedCounts(xs[1..], m);
      InsertCounts(xs[0], Sorted(xs[1..]), m);
    }
  }

  lemma {:induction false} NoneBelow(xs: seq<nat>, m: nat)
    requires forall i :: 0 <= i < |xs| ==> m <= xs[i]
    ensures Below(xs, m) == 0
  {
    if xs != [] {
      NoneBelow(xs[1..], m);
    }
  }

  /** In an ascending sequence at most k values lie below the k-th, and more than k
      are at most it. */
  lemma {:induction false} RankInAscending(r: seq<nat>, k: nat)
    requires Ascends(r) && k < |r|
    ensures Below(r, r[k]) <= k < AtMost(r, r[k])
  {
    if k == 0 {
      NoneBelow(r[1..], r[0]);
    } else {
      RankInAscending(r[1..], k - 1);
    }
  }

  /** median_reachable: the middle of the sorted counts, 0 without stations. */
  function Median(counts: seq<nat>): (m: nat)
    ensures counts == [] ==> m == 0
    ensures counts != [] ==> m in counts
  {
    if counts == [] then 0
    else
      var r := Sorted(counts);
      assert r[|counts| / 2] in multiset(r);
      r[|counts| / 2]
  }

  /** The median splits the counts: at most half lie below it and more than half
      lie at or below it. */
  lemma MedianRank(counts: seq<nat>)
    requires counts != []
    ensures Below(counts, Median(counts)) <= |counts| / 2 < AtMost(counts, Median(counts))
  {
    var r := Sorted(counts);
    RankInAscending(r, |counts| / 2);
    SortedCounts(counts, r[|counts| / 2]);
  }

  // ---------------------------------------------------------------------------
  // The representative station and its area

  /** abs(count - avg). */
  function Gap(c: nat, avg: real): (g: real)
    ensures g >= 0.0 && (g == c as real - avg || g == avg - c as real)
  {
    if c as real >= avg then c as real - avg else avg - c as real
  }

  /** min(G_full.nodes(), key=gap): the first position whose count is closest to the
      average. */
  function Representative(counts: seq<nat>, avg: real): (k: nat)
    requires counts != []
    ensures k < |counts|
    ensures forall i :: 0 <= i < |counts| ==> Gap(counts[k], avg) <= Gap(counts[i], avg)
    ensures forall i :: 0 <= i < k ==> Gap(counts[k], avg) < Gap(counts[i], avg)
  {
    if |counts| == 1 then 0
    else
      var k := Representative(counts[..|counts| - 1], avg);
      if Gap(counts[|counts| - 1], avg) < Gap(counts[k], avg) then |counts| - 1 else k
  }

  /** estimate_reachable_area: 0 for fewer than three stations, otherwise the area of
      their convex hull in square degrees, `hull`, scaled to square kilometres with
      the cosine of the reference latitude, `cosLat`. */
  function EstimateArea(reachable: set<StationId>, hull: set<StationId> -> real, cosLat: real): (r: real)
    ensures |reachable| < 3 ==> r == 0.0
    ensures 0.0 <= hull(reachable) && 0.0 <= cosLat ==> 0.0 <= r
  {
    if |reachable| < 3 then 0.0 else hull(reachable) * KmPerDegree * (KmPerDegree * cosLat)
  }

  /** The mobility efficiency: area per unit of track length per head of population. */
  function Efficiency(area: real, totalLength: real): (r: real)
    requires totalLength != 0.0
    ensures r * (totalLength / Population * 1000.0) == area
  {
    area / (totalLength / Population * 1000.0)
  }

  // ---------------------------------------------------------------------------
  // One row per threshold

  datatype SmeRow = SmeRow(threshold: nat, avgReachable: real, medianReachable: nat,
                           pct: real, area: real, sme: real)

  /** The row of one threshold, given the reachable sets of the stations. `hasHull`
      says whether the convex hull is available. */
  function RowOf(order: seq<StationId>, reach: map<StationId, set<StationId>>, threshold: nat,
                 totalLength: real, hasHull: bool, hull: set<StationId> -> real, cosLat: real): (row: SmeRow)
    requires totalLength != 0.0
    ensures var counts := Counts(order, reach);
      && row.threshold == threshold
      && row.avgReachable == AvgReachable(SumNat(counts), |order|)
      && row.pct == ReachabilityPct(SumNat(counts), |order|)
      && row.medianReachable == Median(counts)
    ensures !(hasHull && row.avgReachable > 2.0) ==> row.area == row.avgReachable * 2.0
    ensures var counts := Counts(order, reach);
      hasHull && row.avgReachable > 2.0 ==>
        counts != [] && row.area == EstimateArea(ReachOf(reach, order[Representative(counts, row.avgReachable)]), hull, cosLat)
    ensures row.sme == Efficiency(row.area, totalLength)
  {
    var counts := Counts(order, reach);
    var total := SumNat(counts);
    var avg := AvgReachable(total, |order|);
    var area := AreaOf(order, reach, counts, avg, hasHull, hull, cosLat);
    SmeRow(threshold, avg, Median(counts), ReachabilityPct(total, |order|), area, Efficiency(area, totalLength))
  }

  /** reachable_area: the area the representative station reaches when the hull is
      available and the average exceeds two stations, else two square kilometres
      per station on average. */
  function AreaOf(order: seq<StationId>, reach: map<StationId, set<StationId>>, counts: seq<nat>, avg: real,
                  hasHull: bool, hull: set<StationId> -> real, cosLat: real): (area: real)
    requires |counts| == |order| && (|order| == 0 ==> avg == 0.0)
    ensures !(hasHull && avg > 2.0) ==> area == avg * 2.0
    ensures hasHull && avg > 2.0 ==>
      counts != [] && area == EstimateArea(ReachOf(reach, order[Representative(counts, avg)]), hull, cosLat)
  {
    if hasHull && avg > 2.0 then EstimateArea(ReachOf(reach, order[Representative(counts, avg)]), hull, cosLat)
    else avg * 2.0
  }

  /** The reachable sets of all stations within `t` minutes. */
  ghost function ReachMap(tg: TimedGraph, t: real): map<StationId, set<StationId>>
  {
    map s | s in tg.graph.nodes :: ReachSet(tg, s, t)
  }

  /** The rows of all thresholds, in order. */
  ghost function SmeRows(tg: TimedGraph, order: seq<StationId>, totalLength: real,
                         hasHull: bool, hull: set<StationId> -> real, cosLat: real): (rows: seq<SmeRow>)
    requires totalLength != 0.0
  {
    seq(|Thresholds|, i requires 0 <= i < |Thresholds| =>
      RowOf(order, ReachMap(tg, Thresholds[i] as real), Thresholds[i], totalLength, hasHull, hull, cosLat))
  }

  /** The body of the loop over SME_TIME_THRESHOLDS. */
  method SmeRowAt(tg: TimedGraph, order: seq<StationId>, i: nat, totalLength: real,
                  hasHull: bool, hull: set<StationId> -> real, cosLat: real) returns (row: SmeRow)
    requires Plausible(tg) && totalLength != 0.0 && i < |Thresholds|
    ensures row == SmeRows(tg, order, totalLength, hasHull, hull, cosLat)[i]
  {
    var threshold := Thresholds[i];
    var reach := ComputeReachability(tg, threshold);
    assert reach == ReachMap(tg, threshold as real);
    var counts, total := CountReachable(order, reach);
    var n := |order|;
    var avg := AvgReachable(total, n);
    var area := AreaOf(order, reach, counts, avg, hasHull, hull, cosLat);
    row := SmeRow(threshold, avg, Median(counts), ReachabilityPct(total, n), area, Efficiency(area, totalLength));
  }

  /** compute_sme: one row per threshold, in order. */
  method ComputeSme(tg: TimedGraph, order: seq<StationId>, totalLength: real,
                    hasHull: bool, hull: set<StationId> -> real, cosLat: real) returns (rows: seq<SmeRow>)
    requires Plausible(tg) && totalLength != 0.0
    ensures |rows| == |Thresholds|
    ensures forall i :: 0 <= i < |rows| ==> rows[i] == SmeRows(tg, order, totalLength, hasHull, hull, cosLat)[i]
  {
    ghost var spec := SmeRows(tg, order, totalLength, hasHull, hull, cosLat);
    rows := [];
    for i := 0 to |Thresholds|
      invariant |rows| == i
      invariant forall j :: 0 <= j < i ==> rows[j] == spec[j]
    {
      var row := SmeRowAt(tg, order, i, totalLength, hasHull, hull, cosLat);
      ghost var before := rows;
      rows := rows + [row];
      forall j | 0 <= j < i + 1
        ensures rows[j] == spec[j]
      {
        if j < i {
          assert rows[j] == before[j];
        }
      }
    }
  }

  // ---------------------------------------------------------------------------
  // What the rows promise

  /** The stations a listing names. */
  function Listed(order: seq<StationId>): (r: set<StationId>)
    ensures forall x :: x in r <==> x in order
  {
    if order == [] then {} else Listed(order[..|order| - 1]) + {order[|order| - 1]}
  }

  /** A strictly increasing listing names as many stations as it has entries. */
  lemma {:induction false} ListingSize(order: seq<StationId>)
    requires forall i, j :: 0 <= i < j < |order| ==> order[i] < order[j]
    ensures |Listed(order)| == |order|
  {
    if order != [] {
      var n := |order| - 1;
      ListingSize(order[..n]);
      assert forall j :: 0 <= j < n ==> order[..n][j] != order[n];
      assert order[n] !in order[..n];
      assert order[n] !in Listed(order[..n]);
      assert Listed(order) == Listed(order[..n]) + {order[n]};
      assert |Listed(order)| == |Listed(order[..n])| + 1;
    }
  }

  /** Every station reaches between one and all of the stations. */
  lemma CountsBetween(tg: TimedGraph, order: seq<StationId>, t: real)
    requires Enumerates(tg.graph, order) && 0.0 <= t
    ensures forall i :: 0 <= i < |order| ==> 1 <= Counts(order, ReachMap(tg, t))[i] <= |order|
  {
    ListingSize(order);
    assert Listed(order) == tg.graph.nodes;
    forall i | 0 <= i < |order|
      ensures 1 <= Counts(order, ReachMap(tg, t))[i] <= |order|
    {
      assert order[i] in tg.graph.nodes;
      ReachSize(tg, order[i], t);
    }
  }

  /** A quotient of a total between n and n * n by n lies between 1 and n. */
  lemma QuotientBetween(q: real, n: real, total: real)
    requires 0.0 < n && q * n == total && n <= total <= n * n
    ensures 1.0 <= q <= n
  {
    assert (q - 1.0) * n >= 0.0 && (n - q) * n >= 0.0;
  }

  lemma DivMonotone(a: real, b: real, d: real)
    requires 0.0 < d && a <= b
    ensures a / d <= b / d
  {
    assert b / d - a / d == (b - a) / d;
  }

  lemma DivBetween(a: real, d: real)
    requires 0.0 < a <= d
    ensures 0.0 < a / d <= 1.0
  {
    assert a == (a / d) * d;
  }

  /** The statistics of n counts that each lie between 1 and n. */
  lemma StatsBetween(counts: seq<nat>, n: nat)
    requires 0 < n == |counts| && forall i :: 0 <= i < n ==> 1 <= counts[i] <= n
    ensures 1.0 <= AvgReachable(SumNat(counts), n) <= n as real
    ensures 0.0 < ReachabilityPct(SumNat(counts), n) <= 100.0
    ensures 1 <= Median(counts) <= n
  {
    SumNatBounds(counts, 1, n);
    ShareBetween(SumNat(counts), n);
    var k :| 0 <= k < |counts| && counts[k] == Median(counts);
  }

  /** The average and the share of a total between n and n * n. */
  lemma ShareBetween(total: nat, n: nat)
    requires 0 < n <= total <= n * n
    ensures 1.0 <= AvgReachable(total, n) <= n as real
    ensures 0.0 < ReachabilityPct(total, n) <= 100.0
  {
    QuotientBetween(AvgReachable(total, n), n as real, total as real);
    DivBetween(total as real, (n * n) as real);
  }

  /** On a network with stations, every station reaches on average between one and
      all stations, the reachable share of station pairs is positive and at most 100
      percent, and the median count lies between one and the number of stations. */
  lemma RowBounds(tg: TimedGraph, order: seq<StationId>, t: nat, totalLength: real,
                  hasHull: bool, hull: set<StationId> -> real, cosLat: real)
    requires Enumerates(tg.graph, order) && tg.graph.nodes != {} && totalLength != 0.0
    ensures var row := RowOf(order, ReachMap(tg, t as real), t, totalLength, hasHull, hull, cosLat);
      && 1.0 <= row.avgReachable <= |order| as real
      && 0.0 < row.pct <= 100.0
      && 1 <= row.medianReachable <= |order|
  {
    var v :| v in tg.graph.nodes;
    assert v in order;
    var reach := ReachMap(tg, t as real);
    var counts := Counts(order, reach);
    CountsBetween(tg, order, t as real);
    StatsBetween(counts, |order|);
  }

  /** Pointwise larger counts give a larger average and share. */
  lemma StatsGrow(counts: seq<nat>, counts': seq<nat>, n: nat)
    requires |counts| == |counts'| && forall i :: 0 <= i < |counts| ==> counts[i] <= counts'[i]
    ensures AvgReachable(SumNat(counts), n) <= AvgReachable(SumNat(counts'), n)
    ensures ReachabilityPct(SumNat(counts), n) <= ReachabilityPct(SumNat(counts'), n)
  {
    SumNatMonotone(counts, counts');
    if n > 0 {
      DivMonotone(SumNat(counts) as real, SumNat(counts') as real, n as real);
      DivMonotone(SumNat(counts) as real, SumNat(counts') as real, (n * n) as real);
    }
  }

  /** A longer threshold reaches on average at least as many stations, and at least
      as large a share of station pairs. */
  lemma RowsGrow(tg: TimedGraph, order: seq<StationId>, t: nat, t': nat, totalLength: real,
                 hasHull: bool, hull: set<StationId> -> real, cosLat: real)
    requires Enumerates(tg.graph, order) && t <= t' && totalLength != 0.0
    ensures var row := RowOf(order, ReachMap(tg, t as real), t, totalLength, hasHull, hull, cosLat);
            var row' := RowOf(order, ReachMap(tg, t' as real), t', totalLength, hasHull, hull, cosLat);
      row.avgReachable <= row'.avgReachable && row.pct <= row'.pct
  {
    var counts := Counts(order, ReachMap(tg, t as real));
    var counts' := Counts(order, ReachMap(tg, t' as real));
    forall i | 0 <= i < |order|
      ensures counts[i] <= counts'[i]
    {
      assert order[i] in tg.graph.nodes;
      ReachMonotone(tg, order[i], t as real, t' as real);
      SubsetSize(ReachSet(tg, order[i], t as real), ReachSet(tg, order[i], t' as real));
    }
    StatsGrow(counts, counts', |order|);
  }

  /** Down the rows of compute_sme, the thresholds ascend, and with them the average
      number of reachable stations and the share of station pairs. */
  lemma ThresholdsGrow(tg: TimedGraph, order: seq<StationId>, i: nat, j: nat, totalLength: real,
                       hasHull: bool, hull: set<StationId> -> real, cosLat: real)
    requires Enumerates(tg.graph, order) && i <= j < |Thresholds| && totalLength != 0.0
    ensures var rows := SmeRows(tg, order, totalLength, hasHull, hull, cosLat);
      && rows[i].threshold <= rows[j].threshold
      && rows[i].avgReachable <= rows[j].avgReachable && rows[i].pct <= rows[j].pct
  {
    assert Thresholds[i] <= Thresholds[j];
    RowsGrow(tg, order, Thresholds[i], Thresholds[j], totalLength, hasHull, hull, cosLat);
  }
}
