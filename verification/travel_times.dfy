/** Scheduled travel times between consecutive stops (parse_time and
    calculate_travel_times): every consecutive pair of stop times of a trip gives
    one sample, wrapped past midnight when the arrival reads earlier than the
    departure, kept only when it lies strictly between 0 and 30 minutes, and
    recorded under both directions of the pair; each pair's samples are averaged. */
module TravelTimes {
  import opened Core

  /** One row of stop_times.txt, as a string-typed GTFS record. */
  datatype StopTime = StopTime(stop: StopId, arrival: string, departure: string)

  // ---------------------------------------------------------------------------
  // str.split(':')

  function Split(s: string): (parts: seq<string>)
    ensures |parts| >= 1
    ensures forall i :: 0 <= i < |parts| ==> ':' !in parts[i]
  {
    if s == [] then [[]]
    else
      var rest := Split(s[1..]);
      if s[0] == ':' then [[]] + rest else [[s[0]] + rest[0]] + rest[1..]
  }

  function Join(parts: seq<string>): string
    requires |parts| >= 1
  {
    if |parts| == 1 then parts[0] else parts[0] + ":" + Join(parts[1..])
  }

  /** Splitting loses nothing: joining the parts back with ':' gives the string. */
  lemma {:induction false} JoinSplit(s: string)
    ensures Join(Split(s)) == s
  {
    if s != [] {
      JoinSplit(s[1..]);
      var rest := Split(s[1..]);
      if s[0] == ':' {
        assert Split(s) == [[]] + rest;
        assert Join(Split(s)) == [] + ":" + Join(rest);
      } else if |rest| == 1 {
        assert Split(s) == [[s[0]] + rest[0]];
      } else {
        var parts := Split(s);
        assert parts == [[s[0]] + rest[0]] + rest[1..];
        assert parts[1..] == rest[1..];
        assert Join(rest) == rest[0] + ":" + Join(rest[1..]);
      }
    }
  }

  /** A piece without ':' followed by ':' splits off as the first part. */
  lemma {:induction false} SplitAfterPiece(a: string, t: string)
    requires ':' !in a
    ensures Split(a + ":" + t) == [a] + Split(t)
  {
    if a == [] {
      assert a + ":" + t == [':'] + t;
      assert ([':'] + t)[1..] == t;
    } else {
      assert (a + ":" + t)[1..] == a[1..] + ":" + t;
      SplitAfterPiece(a[1..], t);
      assert [a[0]] + a[1..] == a;
    }
  }

  lemma {:induction false} SplitPiece(a: string)
    requires ':' !in a
    ensures Split(a) == [a]
  {
    if a != [] {
      SplitPiece(a[1..]);
      assert [a[0]] + a[1..] == a;
    }
  }

  // ---------------------------------------------------------------------------
  // Python int() on a string: surrounding whitespace, an optional sign, and
  // decimal digits in which single underscores may separate digits

  predicate IsDigit(c: char) { '0' <= c <= '9' }

  predicate DigitGroups(d: string)
  {
    && d != []
    && IsDigit(d[0]) && IsDigit(d[|d| - 1])
    && (forall i :: 0 <= i < |d| ==> IsDigit(d[i]) || d[i] == '_')
    && (forall i :: 0 <= i < |d| - 1 ==> IsDigit(d[i]) || IsDigit(d[i + 1]))
  }

  function DigitsValue(d: string): nat
  {
    if d == [] then 0
    else if IsDigit(d[|d| - 1]) then DigitsValue(d[..|d| - 1]) * 10 + (d[|d| - 1] as int - '0' as int)
    else DigitsValue(d[..|d| - 1])
  }

  /** Python int() on a string: accepted exactly when, once stripped, it is digit groups
      with an optional sign in front, and then their value with that sign. */
  function ParseInt(s: string): (r: Option<int>)
    ensures var t := Strip(s);
      r.Some? <==> DigitGroups(t) || (t != [] && (t[0] == '+' || t[0] == '-') && DigitGroups(t[1..]))
    ensures DigitGroups(Strip(s)) ==> r == Some(DigitsValue(Strip(s)))
    ensures var t := Strip(s); t != [] && t[0] == '+' && DigitGroups(t[1..]) ==> r == Some(DigitsValue(t[1..]))
    ensures var t := Strip(s); t != [] && t[0] == '-' && DigitGroups(t[1..]) ==> r == Some(-(DigitsValue(t[1..]) as int))
  {
    var t := Strip(s);
    if t != [] && t[0] == '-' && DigitGroups(t[1..]) then
      assert !DigitGroups(t);
      Some(-(DigitsValue(t[1..]) as int))
    else if t != [] && t[0] == '+' && DigitGroups(t[1..]) then
      assert !DigitGroups(t);
      Some(DigitsValue(t[1..]))
    else if DigitGroups(t) then Some(DigitsValue(t))
    else None
  }

  /** Decimal notation of a natural number, as str(n) writes it. */
  function NatToString(n: nat): (d: string)
    ensures d != [] && forall i :: 0 <= i < |d| ==> IsDigit(d[i])
  {
    (if n < 10 then [] else NatToString(n / 10)) + [('0' as int + n % 10) as char]
  }

  lemma {:induction false} NatToStringValue(n: nat)
    ensures DigitsValue(NatToString(n)) == n
  {
    var d := NatToString(n);
    assert d[..|d| - 1] == if n < 10 then [] else NatToString(n / 10);
    if n >= 10 {
      NatToStringValue(n / 10);
    }
  }

  /** int(str(n)) == n. */
  lemma ParseIntNatToString(n: nat)
    ensures ParseInt(NatToString(n)) == Some(n)
  {
    var d := NatToString(n);
    assert IsDigit(d[0]) && IsDigit(d[|d| - 1]);
    assert !IsSpace(d[0]) && !IsSpace(d[|d| - 1]);
    StripUnchanged(d);
    assert d[0] != '+' && d[0] != '-';
    assert DigitGroups(d);
    NatToStringValue(n);
  }

  // ---------------------------------------------------------------------------
  // parse_time

  /** "HH:MM:SS" to minutes since midnight: hours * 60 + minutes + seconds / 60.
      A string with fewer than three ':'-separated parts, or a part int() rejects,
      raises in the source; the caller catches that and skips the pair (None). */
  function ClockMinutes(h: int, m: int, sec: int): real
  {
    (h * 60 + m) as real + sec as real / 60.0
  }

  function ParseTime(s: string): Option<real>
  {
    var parts := Split(s);
    if |parts| < 3 then None
    else
      match (ParseInt(parts[0]), ParseInt(parts[1]), ParseInt(parts[2]))
      case (Some(h), Some(m), Some(sec)) => Some(ClockMinutes(h, m, sec))
      case _ => None
  }

  function FormatTime(h: nat, m: nat, sec: nat): string
  {
    NatToString(h) + ":" + NatToString(m) + ":" + NatToString(sec)
  }

  /** A formatted clock time splits into its three numbers. */
  lemma SplitFormatTime(h: nat, m: nat, sec: nat)
    ensures Split(FormatTime(h, m, sec)) == [NatToString(h), NatToString(m), NatToString(sec)]
  {
    var a, b, c := NatToString(h), NatToString(m), NatToString(sec);
    assert ':' !in a && ':' !in b && ':' !in c;
    assert FormatTime(h, m, sec) == a + ":" + (b + ":" + c);
    SplitAfterPiece(a, b + ":" + c);
    SplitAfterPiece(b, c);
    SplitPiece(c);
  }

  /** A string whose first three parts parse as numbers parses to their minute count. */
  lemma ParseTimeParts(s: string, h: int, m: int, sec: int)
    requires |Split(s)| >= 3
    requires ParseInt(Split(s)[0]) == Some(h) && ParseInt(Split(s)[1]) == Some(m) && ParseInt(Split(s)[2]) == Some(sec)
    ensures ParseTime(s) == Some(ClockMinutes(h, m, sec))
  {
  }

  /** Round trip: a formatted clock time parses back to its minute count. */
  lemma ParseFormatTime(h: nat, m: nat, sec: nat)
    ensures ParseTime(FormatTime(h, m, sec)) == Some(ClockMinutes(h, m, sec))
  {
    SplitFormatTime(h, m, sec);
    ParseIntNatToString(h);
    ParseIntNatToString(m);
    ParseIntNatToString(sec);
    ParseTimeParts(FormatTime(h, m, sec), h, m, sec);
  }

  // ---------------------------------------------------------------------------
  // One segment: departure of a stop to arrival at the next

  const MinutesPerDay: real := 1440.0
  const MaxSegmentMinutes: real := 30.0

  /** The sample a departure and an arrival time (in minutes) give: arrival minus
      departure, plus a day when the arrival reads earlier (a midnight crossing),
      kept only when it lies strictly between 0 and 30 minutes. */
  function KeptDuration(dep: real, arr: real): (r: Option<real>)
    ensures r.Some? ==> 0.0 < r.value < MaxSegmentMinutes
    ensures r.Some? ==> r.value == arr - dep || (arr < dep && r.value == arr + MinutesPerDay - dep)
    ensures dep <= arr && 0.0 < arr - dep < MaxSegmentMinutes ==> r == Some(arr - dep)
    ensures arr < dep && 0.0 < arr + MinutesPerDay - dep < MaxSegmentMinutes ==> r == Some(arr + MinutesPerDay - dep)
  {
    var wrapped := if arr < dep then arr + MinutesPerDay else arr;
    var t := wrapped - dep;
    if 0.0 < t < MaxSegmentMinutes then Some(t) else None
  }

  /** The sample a consecutive pair of stop times contributes; None when either
      time does not parse (the source's bare except) or the duration is implausible. */
  function SegmentTime(departure: string, arrival: string): (r: Option<real>)
    ensures r.Some? ==> 0.0 < r.value < MaxSegmentMinutes
    ensures ParseTime(departure).None? || ParseTime(arrival).None? ==> r.None?
    ensures ParseTime(departure).Some? && ParseTime(arrival).Some? ==>
      r == KeptDuration(ParseTime(departure).value, ParseTime(arrival).value)
  {
    var dep, arr := ParseTime(departure), ParseTime(arrival);
    if dep.None? || arr.None? then None else KeptDuration(dep.value, arr.value)
  }

  /** Between two formatted clock times, the sample is the kept duration of their minute counts. */
  lemma SegmentOfClockTimes(h: nat, m: nat, sec: nat, h': nat, m': nat, sec': nat)
    ensures SegmentTime(FormatTime(h, m, sec), FormatTime(h', m', sec'))
         == KeptDuration(ClockMinutes(h, m, sec), ClockMinutes(h', m', sec'))
  {
    ParseFormatTime(h, m, sec);
    ParseFormatTime(h', m', sec');
  }

  /** A train leaving at 23:58 and arriving at 00:01 took three minutes. */
  lemma MidnightCrossing()
    ensures SegmentTime(FormatTime(23, 58, 0), FormatTime(0, 1, 0)) == Some(3.0)
  {
    SegmentOfClockTimes(23, 58, 0, 0, 1, 0);
  }

  /** A gap of 30 minutes or more is discarded as implausible. */
  lemma LongGapDiscarded()
    ensures SegmentTime(FormatTime(10, 0, 0), FormatTime(10, 30, 0)) == None
  {
    SegmentOfClockTimes(10, 0, 0, 10, 30, 0);
  }

  // ---------------------------------------------------------------------------
  // Collecting samples: travel_times = defaultdict(list)

  type StopPair = (StopId, StopId)
  type SampleMap = map<StopPair, seq<real>>

  function Samples(m: SampleMap, k: StopPair): seq<real>
  {
    if k in m then m[k] else []
  }

  /** The specification of one loop step: the pair's sample, if any, is appended
      under (a, b) and then under (b, a). */
  function AfterPair(m: SampleMap, cur: StopTime, next: StopTime): SampleMap
  {
    match SegmentTime(cur.departure, next.arrival)
    case None => m
    case Some(t) => RecordBoth(m, cur.stop, next.stop, t)
  }

  /** Appends sample `t` under (a, b) and then under (b, a). */
  function RecordBoth(m: SampleMap, a: StopId, b: StopId, t: real): SampleMap
  {
    var m1 := m[(a, b) := Samples(m, (a, b)) + [t]];
    m1[(b, a) := Samples(m1, (b, a)) + [t]]
  }

  /** Number of consecutive pairs of a trip: range(len(trip_data) - 1). */
  function PairCount(trip: seq<StopTime>): nat
  {
    if trip == [] then 0 else |trip| - 1
  }

  /** The samples after the first n pairs of a trip. */
  function AfterPairs(m: SampleMap, trip: seq<StopTime>, n: nat): SampleMap
    requires n <= PairCount(trip)
  {
    if n == 0 then m else AfterPair(AfterPairs(m, trip, n - 1), trip[n - 1], trip[n])
  }

  /** The samples after the first k trips. */
  function SamplesUpTo(trips: seq<seq<StopTime>>, k: nat): SampleMap
    requires k <= |trips|
  {
    if k == 0 then map[]
    else AfterPairs(SamplesUpTo(trips, k - 1), trips[k - 1], PairCount(trips[k - 1]))
  }

  /** Every pair is stored with the same samples under both of its directions. */
  ghost predicate Symmetric(m: SampleMap)
  {
    forall a, b :: (a, b) in m ==> (b, a) in m && m[(b, a)] == m[(a, b)]
  }

  /** Every stored pair has at least one sample and every sample lies in (0, 30). */
  ghost predicate Plausible(m: SampleMap)
  {
    forall k :: k in m ==> m[k] != [] && forall i :: 0 <= i < |m[k]| ==> 0.0 < m[k][i] < MaxSegmentMinutes
  }

  /** Appending one plausible sample under both directions of a pair keeps the
      map symmetric and plausible. */
  lemma RecordBothKeeps(m: SampleMap, a: StopId, b: StopId, t: real)
    requires Symmetric(m) && Plausible(m) && 0.0 < t < MaxSegmentMinutes
    ensures Symmetric(RecordBoth(m, a, b, t)) && Plausible(RecordBoth(m, a, b, t))
  {
    var m1 := m[(a, b) := Samples(m, (a, b)) + [t]];
    var r := m1[(b, a) := Samples(m1, (b, a)) + [t]];
    assert a != b ==> Samples(m1, (b, a)) == Samples(m, (a, b));
    forall x, y | (x, y) in r
      ensures (y, x) in r && r[(y, x)] == r[(x, y)]
    {
      if (x, y) != (a, b) && (x, y) != (b, a) {
        assert (x, y) in m && r[(x, y)] == m[(x, y)];
        assert (y, x) != (a, b) && (y, x) != (b, a);
      }
    }
    forall k | k in r
      ensures r[k] != [] && forall i :: 0 <= i < |r[k]| ==> 0.0 < r[k][i] < MaxSegmentMinutes
    {
      if k != (a, b) && k != (b, a) {
        assert r[k] == m[k];
      } else if k == (b, a) {
        assert r[k] == Samples(m1, (b, a)) + [t];
      } else {
        assert r[k] == Samples(m, (a, b)) + [t];
      }
    }
  }

  lemma AfterPairKeeps(m: SampleMap, cur: StopTime, next: StopTime)
    requires Symmetric(m) && Plausible(m)
    ensures Symmetric(AfterPair(m, cur, next)) && Plausible(AfterPair(m, cur, next))
  {
    match SegmentTime(cur.departure, next.arrival)
    case None =>
    case Some(t) => RecordBothKeeps(m, cur.stop, next.stop, t);
  }

  lemma {:induction false} AfterPairsKeep(m: SampleMap, trip: seq<StopTime>, n: nat)
    requires n <= PairCount(trip)
    requires Symmetric(m) && Plausible(m)
    ensures Symmetric(AfterPairs(m, trip, n)) && Plausible(AfterPairs(m, trip, n))
  {
    if n > 0 {
      AfterPairsKeep(m, trip, n - 1);
      AfterPairKeeps(AfterPairs(m, trip, n - 1), trip[n - 1], trip[n]);
    }
  }

  /** The collected samples are symmetric and plausible after any number of trips. */
  lemma {:induction false} SamplesUpToKeep(trips: seq<seq<StopTime>>, k: nat)
    requires k <= |trips|
    ensures Symmetric(SamplesUpTo(trips, k)) && Plausible(SamplesUpTo(trips, k))
  {
    if k > 0 {
      SamplesUpToKeep(trips, k - 1);
      AfterPairsKeep(SamplesUpTo(trips, k - 1), trips[k - 1], PairCount(trips[k - 1]));
    }
  }

  /** The `i`-th consecutive pair of `trip` joins `a` and `b`, in either direction,
      and gave a kept sample. */
  ghost predicate KeptTraversal(trip: seq<StopTime>, i: nat, a: StopId, b: StopId)
  {
    && i + 1 < |trip|
    && SegmentTime(trip[i].departure, trip[i + 1].arrival).Some?
    && ((trip[i].stop, trip[i + 1].stop) == (a, b) || (trip[i].stop, trip[i + 1].stop) == (b, a))
  }

  /** One pair adds the key (a, b) exactly when it joins a and b and gave a kept sample. */
  lemma AfterPairKeys(m: SampleMap, cur: StopTime, next: StopTime, a: StopId, b: StopId)
    ensures (a, b) in AfterPair(m, cur, next) <==>
      (a, b) in m || (SegmentTime(cur.departure, next.arrival).Some? && ((cur.stop, next.stop) == (a, b) || (cur.stop, next.stop) == (b, a)))
  {
  }

  /** Later pairs of a trip never remove a key. */
  lemma AfterPairsKeepsKey(m: SampleMap, trip: seq<StopTime>, n: nat, a: StopId, b: StopId)
    requires n <= PairCount(trip) && (a, b) in m
    ensures (a, b) in AfterPairs(m, trip, n)
  {
    AfterPairsGrowsFrom(m, trip, 0, n, a, b);
  }

  /** The `n`-th pair, when it is a kept traversal of a and b, gives (a, b) a key. */
  lemma AfterPairsAddsLast(m: SampleMap, trip: seq<StopTime>, n: nat, a: StopId, b: StopId)
    requires 0 < n <= PairCount(trip) && KeptTraversal(trip, n - 1, a, b)
    ensures (a, b) in AfterPairs(m, trip, n)
  {
    AfterPairKeys(AfterPairs(m, trip, n - 1), trip[n - 1], trip[n], a, b);
  }

  /** The `n`-th pair keeps every key the earlier pairs gave. */
  lemma AfterPairsGrows(m: SampleMap, trip: seq<StopTime>, n: nat, a: StopId, b: StopId)
    requires 0 < n <= PairCount(trip) && (a, b) in AfterPairs(m, trip, n - 1)
    ensures (a, b) in AfterPairs(m, trip, n)
  {
    AfterPairKeys(AfterPairs(m, trip, n - 1), trip[n - 1], trip[n], a, b);
  }

  /** Pairs after the first `lo` keep every key those gave. */
  lemma {:induction false} AfterPairsGrowsFrom(m: SampleMap, trip: seq<StopTime>, lo: nat, n: nat, a: StopId, b: StopId)
    requires lo <= n <= PairCount(trip) && (a, b) in AfterPairs(m, trip, lo)
    ensures (a, b) in AfterPairs(m, trip, n)
    decreases n
  {
    if lo < n {
      AfterPairsGrowsFrom(m, trip, lo, n - 1, a, b);
      AfterPairsGrows(m, trip, n, a, b);
    }
  }

  /** A kept traversal of a and b among the first `n` pairs gives (a, b) a key. */
  lemma AfterPairsAddsKey(m: SampleMap, trip: seq<StopTime>, n: nat, i: nat, a: StopId, b: StopId)
    requires n <= PairCount(trip) && i < n && KeptTraversal(trip, i, a, b)
    ensures (a, b) in AfterPairs(m, trip, n)
  {
    AfterPairsAddsLast(m, trip, i + 1, a, b);
    AfterPairsGrowsFrom(m, trip, i + 1, n, a, b);
  }

  /** A key the first `n` pairs of a trip added comes from a kept traversal among them. */
  lemma {:induction false} AfterPairsOnlyKeys(m: SampleMap, trip: seq<StopTime>, n: nat, a: StopId, b: StopId)
    requires n <= PairCount(trip) && (a, b) in AfterPairs(m, trip, n) && (a, b) !in m
    ensures exists i :: 0 <= i < n && KeptTraversal(trip, i, a, b)
  {
    var prev := AfterPairs(m, trip, n - 1);
    AfterPairKeys(prev, trip[n - 1], trip[n], a, b);
    if (a, b) in prev {
      AfterPairsOnlyKeys(m, trip, n - 1, a, b);
    } else {
      assert KeptTraversal(trip, n - 1, a, b);
    }
  }

  /** Trips after the first `lo` keep every pair's samples. */
  lemma {:induction false} SamplesUpToGrows(trips: seq<seq<StopTime>>, lo: nat, k: nat, a: StopId, b: StopId)
    requires lo <= k <= |trips| && (a, b) in SamplesUpTo(trips, lo)
    ensures (a, b) in SamplesUpTo(trips, k)
    decreases k
  {
    if lo < k {
      SamplesUpToGrows(trips, lo, k - 1, a, b);
      AfterPairsKeepsKey(SamplesUpTo(trips, k - 1), trips[k - 1], PairCount(trips[k - 1]), a, b);
    }
  }

  /** A kept traversal of a and b in one of the first `k` trips gives (a, b) samples. */
  lemma SamplesUpToAdds(trips: seq<seq<StopTime>>, k: nat, j: nat, i: nat, a: StopId, b: StopId)
    requires k <= |trips| && j < k && KeptTraversal(trips[j], i, a, b)
    ensures (a, b) in SamplesUpTo(trips, k)
  {
    var trip := trips[j];
    AfterPairsAddsKey(SamplesUpTo(trips, j), trip, PairCount(trip), i, a, b);
    assert (a, b) in SamplesUpTo(trips, j + 1);
    SamplesUpToGrows(trips, j + 1, k, a, b);
  }

  /** A pair with samples after the first `k` trips was traversed, in either direction,
      by one of them with a kept sample. */
  lemma {:induction false} SamplesUpToOnly(trips: seq<seq<StopTime>>, k: nat, a: StopId, b: StopId)
    requires k <= |trips| && (a, b) in SamplesUpTo(trips, k)
    ensures exists j, i :: 0 <= j < k && KeptTraversal(trips[j], i, a, b)
  {
    var prev := SamplesUpTo(trips, k - 1);
    var trip := trips[k - 1];
    assert (a, b) in AfterPairs(prev, trip, PairCount(trip));
    if (a, b) in prev {
      SamplesUpToOnly(trips, k - 1, a, b);
      var j, i :| 0 <= j < k - 1 && KeptTraversal(trips[j], i, a, b);
      assert 0 <= j < k;
    } else {
      AfterPairsOnlyKeys(prev, trip, PairCount(trip), a, b);
      var i :| 0 <= i < PairCount(trip) && KeptTraversal(trip, i, a, b);
      assert KeptTraversal(trips[k - 1], i, a, b);
    }
  }

  /** After the first `k` trips, (a, b) has samples exactly when some traversal of
      a and b, in either direction, in one of those trips gave a kept sample. */
  lemma SamplesUpToKeys(trips: seq<seq<StopTime>>, k: nat, a: StopId, b: StopId)
    requires k <= |trips|
    ensures (a, b) in SamplesUpTo(trips, k) <==> exists j, i :: 0 <= j < k && KeptTraversal(trips[j], i, a, b)
  {
    if (a, b) in SamplesUpTo(trips, k) {
      SamplesUpToOnly(trips, k, a, b);
    }
    if exists j, i :: 0 <= j < k && KeptTraversal(trips[j], i, a, b) {
      var j, i :| 0 <= j < k && KeptTraversal(trips[j], i, a, b);
      SamplesUpToAdds(trips, k, j, i, a, b);
    }
  }

  /** One pass of the inner loop: the segment from `current` to `nextStop`. */
  method AddSegment(m: SampleMap, current: StopTime, nextStop: StopTime) returns (m': SampleMap)
    ensures m' == AfterPair(m, current, nextStop)
  {
    m' := m;
    var travelTime := SegmentOf(current.departure, nextStop.arrival);
    if travelTime.Some? {
      var stop1, stop2 := current.stop, nextStop.stop;
      m' := m'[(stop1, stop2) := Samples(m', (stop1, stop2)) + [travelTime.value]];
      m' := m'[(stop2, stop1) := Samples(m', (stop2, stop1)) + [travelTime.value]];
    }
    PairOfSegment(m, current, nextStop, travelTime);
  }

  /** What one pair adds, given its segment time. */
  lemma PairOfSegment(m: SampleMap, cur: StopTime, next: StopTime, travelTime: Option<real>)
    requires travelTime == SegmentTime(cur.departure, next.arrival)
    ensures AfterPair(m, cur, next) == if travelTime.None? then m else RecordBoth(m, cur.stop, next.stop, travelTime.value)
  {
  }

  /** Parses both clock times and keeps the duration between them; a time that does
      not parse gives no sample. */
  method SegmentOf(departure: string, arrival: string) returns (travelTime: Option<real>)
    ensures travelTime == SegmentTime(departure, arrival)
  {
    var dep, arr := ParseTime(departure), ParseTime(arrival);
    travelTime := None;
    if dep.Some? && arr.Some? {
      travelTime := Duration(dep.value, arr.value);
    }
  }

  /** The arrival is moved past midnight when it is earlier than the departure,
      and the segment is kept only when it lasts between 0 and 30 minutes. */
  method Duration(dep: real, arr: real) returns (r: Option<real>)
    ensures r == KeptDuration(dep, arr)
  {
    var arrTime := arr;
    if arrTime < dep {
      arrTime := arrTime + MinutesPerDay;
    }
    var travelTime := arrTime - dep;
    r := if 0.0 < travelTime < MaxSegmentMinutes then Some(travelTime) else None;
  }

  /** The inner loop over the consecutive pairs of one trip. */
  method AddTrip(m: SampleMap, trip: seq<StopTime>) returns (m': SampleMap)
    ensures m' == AfterPairs(m, trip, PairCount(trip))
  {
    m' := m;
    for i := 0 to PairCount(trip)
      invariant m' == AfterPairs(m, trip, i)
    {
      m' := AddSegment(m', trip[i], trip[i + 1]);
    }
  }

  /** The sample-collecting loops of calculate_travel_times. */
  method CollectSamples(trips: seq<seq<StopTime>>) returns (m: SampleMap)
    ensures m == SamplesUpTo(trips, |trips|)
  {
    m := map[];
    for k := 0 to |trips|
      invariant m == SamplesUpTo(trips, k)
    {
      m := AddTrip(m, trips[k]);
    }
  }

  /** The averaged travel time per ordered stop pair, in minutes. */
  type TravelTimeMap = map<StopPair, real>

  function Averages(m: SampleMap): TravelTimeMap
    requires Plausible(m)
  {
    map k | k in m :: Mean(m[k])
  }

  /** Every averaged time lies strictly between 0 and 30 minutes, and a pair and
      its reverse carry the same average. */
  ghost predicate PlausibleTimes(avg: TravelTimeMap)
  {
    && (forall a, b :: (a, b) in avg ==> (b, a) in avg && avg[(b, a)] == avg[(a, b)])
    && (forall k :: k in avg ==> 0.0 < avg[k] < MaxSegmentMinutes)
  }

  lemma AveragesPlausible(m: SampleMap)
    requires Symmetric(m) && Plausible(m)
    ensures PlausibleTimes(Averages(m))
  {
    forall k | k in m
      ensures 0.0 < Mean(m[k]) < MaxSegmentMinutes
    {
      MeanBetween(m[k], 0.0, MaxSegmentMinutes);
    }
  }

  /** calculate_travel_times: the averaged map is symmetric, every average lies
      strictly between 0 and 30 minutes, and a pair has an average exactly when
      at least one of its traversals (in either direction) gave a kept sample. */
  method CalculateTravelTimes(trips: seq<seq<StopTime>>) returns (avg: TravelTimeMap)
    ensures PlausibleTimes(avg)
    ensures Plausible(SamplesUpTo(trips, |trips|))
    ensures avg.Keys == SamplesUpTo(trips, |trips|).Keys
    ensures forall k :: k in avg ==> avg[k] == Mean(SamplesUpTo(trips, |trips|)[k])
    ensures forall a, b :: (a, b) in avg <==> exists j, i :: 0 <= j < |trips| && KeptTraversal(trips[j], i, a, b)
  {
    var samples := CollectSamples(trips);
    SamplesUpToKeep(trips, |trips|);
    AveragesPlausible(samples);
    avg := map k | k in samples :: Mean(samples[k]);
    forall a, b
      ensures (a, b) in avg <==> exists j, i :: 0 <= j < |trips| && KeptTraversal(trips[j], i, a, b)
    {
      SamplesUpToKeys(trips, |trips|, a, b);
    }
  }
}
