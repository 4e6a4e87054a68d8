/** Vocabulary shared by every part of the transit analysis engine: station and
    line identifiers, undirected edge keys, sums and means of real samples,
    the least element of a set of station ids, and Python's whitespace trimming. */
module Core {

  datatype Option<T> = None | Some(value: T)

  /** A GTFS stop_id: one platform or entrance of a station. */
  type StopId = string

  /** Stations are numbered 0, 1, 2, ... in the order their grouping key is first seen. */
  type StationId = nat

  /** A line is named by its route short name ("NS", "EW", "CC", ...). */
  type Line = string

  /** An undirected edge, stored as the sorted pair of its two distinct end stations. */
  datatype Edge = Edge(lo: StationId, hi: StationId)

  predicate ValidEdge(e: Edge) { e.lo < e.hi }

  predicate Touches(e: Edge, s: StationId) { e.lo == s || e.hi == s }

  /** The key `tuple(sorted([a, b]))` under which the pair a, b is stored. */
  function Key(a: StationId, b: StationId): (e: Edge)
    requires a != b
    ensures ValidEdge(e) && Touches(e, a) && Touches(e, b)
  {
    if a < b then Edge(a, b) else Edge(b, a)
  }

  /** The key does not depend on the direction of travel. */
  lemma KeySymmetric(a: StationId, b: StationId)
    requires a != b
    ensures Key(a, b) == Key(b, a)
  {
  }

  /** The end of `e` other than `s`. */
  function Other(e: Edge, s: StationId): (o: StationId)
    requires Touches(e, s) && ValidEdge(e)
    ensures o != s && Key(s, o) == e
  {
    if e.lo == s then e.hi else e.lo
  }

  // ---------------------------------------------------------------------------
  // Least element of a finite set of station ids

  ghost function Least(s: set<StationId>): (m: StationId)
    requires s != {}
    ensures m in s && forall x :: x in s ==> m <= x
    decreases s
  {
    var x :| x in s;
    assert forall y :: y in s ==> y in s - {x} || y == x;
    if s - {x} == {} then x
    else
      var rest := Least(s - {x});
      if x < rest then x else rest
  }

  /** The elements of `s` in increasing order: the order in which the source's
      graphs list their nodes, because nodes are inserted by increasing station id. */
  method Ascending(s: set<StationId>) returns (r: seq<StationId>)
    ensures forall i, j :: 0 <= i < j < |r| ==> r[i] < r[j]
    ensures forall x :: x in s <==> x in r
  {
    r := [];
    var rest := s;
    while rest != {}
      invariant forall i, j :: 0 <= i < j < |r| ==> r[i] < r[j]
      invariant forall x :: x in s <==> x in r || x in rest
      invariant forall i, x :: 0 <= i < |r| && x in rest ==> r[i] < x
      decreases rest
    {
      ghost var least := Least(rest);
      var m :| m in rest && forall x :: x in rest ==> m <= x;
      r := r + [m];
      rest := rest - {m};
    }
  }

  /** A subset is no larger than its superset. */
  lemma SubsetSize<T>(a: set<T>, b: set<T>)
    requires a <= b
    ensures |a| <= |b|
  {
    assert b == a + (b - a);
  }

  /** A proper subset is smaller than its superset. */
  lemma ProperSubsetSize<T>(a: set<T>, b: set<T>)
    requires a <= b && a != b
    ensures |a| < |b|
  {
    assert b == a + (b - a) && a * (b - a) == {};
    assert b - a != {};
  }

  // ---------------------------------------------------------------------------
  // Sums and means (numpy.mean, pandas Series.mean)

  function Sum(xs: seq<real>): real
  {
    if xs == [] then 0.0 else Sum(xs[..|xs| - 1]) + xs[|xs| - 1]
  }

  function Mean(xs: seq<real>): real
    requires xs != []
  {
    Sum(xs) / |xs| as real
  }

  lemma {:induction false} SumBounds(xs: seq<real>, lo: real, hi: real)
    requires xs != []
    requires forall i :: 0 <= i < |xs| ==> lo < xs[i] < hi
    ensures lo * |xs| as real < Sum(xs) < hi * |xs| as real
  {
    if |xs| > 1 {
      SumBounds(xs[..|xs| - 1], lo, hi);
    }
  }

  /** A mean of samples that all lie strictly between lo and hi lies strictly between them too. */
  lemma MeanBetween(xs: seq<real>, lo: real, hi: real)
    requires xs != []
    requires forall i :: 0 <= i < |xs| ==> lo < xs[i] < hi
    ensures lo < Mean(xs) < hi
  {
    SumBounds(xs, lo, hi);
    var n := |xs| as real;
    assert Sum(xs) / n > (lo * n) / n;
    assert Sum(xs) / n < (hi * n) / n;
  }

  lemma {:induction false} SumAtMost(xs: seq<real>, lo: real, hi: real)
    requires forall i :: 0 <= i < |xs| ==> lo <= xs[i] <= hi
    ensures lo * |xs| as real <= Sum(xs) <= hi * |xs| as real
  {
    if xs != [] {
      SumAtMost(xs[..|xs| - 1], lo, hi);
    }
  }

  /** A mean of samples that all lie between lo and hi lies between them too. */
  lemma MeanWithin(xs: seq<real>, lo: real, hi: real)
    requires xs != []
    requires forall i :: 0 <= i < |xs| ==> lo <= xs[i] <= hi
    ensures lo <= Mean(xs) <= hi
  {
    SumAtMost(xs, lo, hi);
    var n := |xs| as real;
    assert Sum(xs) / n >= (lo * n) / n;
    assert Sum(xs) / n <= (hi * n) / n;
  }

  lemma {:induction false} SumAtLeast(xs: seq<real>, lo: real)
    requires forall i :: 0 <= i < |xs| ==> lo <= xs[i]
    ensures lo * |xs| as real <= Sum(xs)
  {
    if xs != [] {
      SumAtLeast(xs[..|xs| - 1], lo);
    }
  }

  /** A mean of samples that are all at least lo is at least lo. */
  lemma MeanAtLeast(xs: seq<real>, lo: real)
    requires xs != []
    requires forall i :: 0 <= i < |xs| ==> lo <= xs[i]
    ensures lo <= Mean(xs)
  {
    SumAtLeast(xs, lo);
    var n := |xs| as real;
    assert Sum(xs) / n >= (lo * n) / n;
  }

  lemma {:induction false} SumAppend(xs: seq<real>, ys: seq<real>)
    ensures Sum(xs + ys) == Sum(xs) + Sum(ys)
    decreases |ys|
  {
    if ys == [] {
      assert xs + ys == xs;
    } else {
      assert (xs + ys)[..|xs + ys| - 1] == xs + ys[..|ys| - 1];
      SumAppend(xs, ys[..|ys| - 1]);
    }
  }

  // ---------------------------------------------------------------------------
  // Python's str.strip(): the characters for which str.isspace() is true

  predicate IsSpace(c: char)
  {
    c == '\t' || c == '\n' || c == '\U{000B}' || c == '\U{000C}' || c == '\r'
    || ('\U{001C}' <= c <= '\U{001F}') || c == ' ' || c == '\U{0085}' || c == '\U{00A0}'
    || c == '\U{1680}' || ('\U{2000}' <= c <= '\U{200A}') || c == '\U{2028}' || c == '\U{2029}'
    || c == '\U{202F}' || c == '\U{205F}' || c == '\U{3000}'
  }

  /** The number of whitespace characters `s` begins with. */
  function LeadingSpaces(s: string): (n: nat)
    ensures n <= |s| && (n == |s| || !IsSpace(s[n]))
    ensures forall i :: 0 <= i < n ==> IsSpace(s[i])
  {
    if s != [] && IsSpace(s[0]) then 1 + LeadingSpaces(s[1..]) else 0
  }

  function TrimEnd(s: string): (r: string)
    ensures r == [] || !IsSpace(r[|r| - 1])
    ensures |r| <= |s| && r == s[..|r|]
    ensures forall i :: |r| <= i < |s| ==> IsSpace(s[i])
  {
    if s != [] && IsSpace(s[|s| - 1]) then TrimEnd(s[..|s| - 1]) else s
  }

  /** str.strip(): the result is the part of `s` between its leading and its
      trailing whitespace, and neither begins nor ends with whitespace. */
  function Strip(s: string): (r: string)
    ensures r == [] || (!IsSpace(r[0]) && !IsSpace(r[|r| - 1]))
    ensures LeadingSpaces(s) + |r| <= |s| && r == s[LeadingSpaces(s)..LeadingSpaces(s) + |r|]
    ensures forall i :: LeadingSpaces(s) + |r| <= i < |s| ==> IsSpace(s[i])
  {
    TrimEnd(s[LeadingSpaces(s)..])
  }

  /** A string without surrounding whitespace is left as it is. */
  lemma StripUnchanged(s: string)
    requires s == [] || (!IsSpace(s[0]) && !IsSpace(s[|s| - 1]))
    ensures Strip(s) == s
  {
  }
}
