/**
 The overlap measurement of iree-rocket-hal/examples/multicore_bench.rs: the time during
 which at least two intervals overlap, by a sweep over their sorted edges.  Instants and
 durations are whole clock ticks.
 */
module SweepLine {
  import opened Counting

  datatype Interval = Interval(begin: int, finish: int)

  datatype Edge = Edge(at: int, delta: int)

  function Edges(intervals: seq<Interval>): seq<Edge> {
    if intervals == [] then []
    else [Edge(intervals[0].begin, 1), Edge(intervals[0].finish, -1)] + Edges(intervals[1..])
  }

  /** `later.saturating_duration_since(earlier)` */
  function Since(later: int, earlier: int): nat {
    if later >= earlier then later - earlier else 0
  }

  /** The time the sweep adds up from `edges` on. */
  function Sweep(edges: seq<Edge>, depth: int, previous: int): nat
    decreases |edges|
  {
    if edges == [] then 0
    else
      (if depth >= 2 then Since(edges[0].at, previous) else 0)
      + Sweep(edges[1..], depth + edges[0].delta, edges[0].at)
  }

  // ----- the loops of the source -----

  predicate EdgeLe(a: Edge, b: Edge) {
    a.at < b.at || (a.at == b.at && a.delta <= b.delta)
  }

  predicate Sorted(edges: seq<Edge>) {
    forall i, j :: 0 <= i < j < |edges| ==> EdgeLe(edges[i], edges[j])
  }

  /** `edges.sort_by_key(...)`, as an insertion sort. */
  method SortEdges(edges: seq<Edge>) returns (sorted: seq<Edge>)
    ensures Sorted(sorted) && multiset(sorted) == multiset(edges)
  {
    sorted := [];
    for n := 0 to |edges|
      invariant Sorted(sorted) && multiset(sorted) == multiset(edges[..n])
    {
      assert edges[..n + 1] == edges[..n] + [edges[n]];
      sorted := InsertEdge(sorted, edges[n]);
    }
    assert edges[..|edges|] == edges;
  }

  method InsertEdge(sorted: seq<Edge>, e: Edge) returns (r: seq<Edge>)
    requires Sorted(sorted)
    ensures Sorted(r) && multiset(r) == multiset(sorted) + multiset{e}
  {
    var k := |sorted|;
    while k > 0 && !EdgeLe(sorted[k - 1], e)
      invariant 0 <= k <= |sorted|
      invariant forall j :: k <= j < |sorted| ==> EdgeLe(e, sorted[j])
    {
      k := k - 1;
    }
    InsertAt(sorted, e, k);
    Middle(sorted[..k], e, sorted[k..]);
    assert sorted[..k] + sorted[k..] == sorted;
    r := sorted[..k] + [e] + sorted[k..];
  }

  lemma Middle(a: seq<Edge>, e: Edge, b: seq<Edge>)
    ensures multiset(a + [e] + b) == multiset(a + b) + multiset{e}
  {
  }

  lemma InsertAt(sorted: seq<Edge>, e: Edge, k: nat)
    requires Sorted(sorted) && k <= |sorted|
    requires k > 0 ==> EdgeLe(sorted[k - 1], e)
    requires forall j :: k <= j < |sorted| ==> EdgeLe(e, sorted[j])
    ensures Sorted(sorted[..k] + [e] + sorted[k..])
  {
    var r := sorted[..k] + [e] + sorted[k..];
    forall i, j | 0 <= i < j < |r| ensures EdgeLe(r[i], r[j]) {
      assert i < k ==> r[i] == sorted[i] && (k > 0 ==> i == k - 1 || EdgeLe(sorted[i], sorted[k - 1]));
      assert i > k ==> r[i] == sorted[i - 1];
      assert j < k ==> r[j] == sorted[j];
      assert j > k ==> r[j] == sorted[j - 1];
    }
  }

  method CollectEdges(intervals: seq<Interval>) returns (edges: seq<Edge>)
    ensures edges == Edges(intervals)
  {
    edges := [];
    var todo := intervals;
    assert [] + Edges(intervals) == Edges(intervals);
    while todo != []
      invariant Edges(intervals) == edges + Edges(todo)
      decreases |todo|
    {
      var both := [Edge(todo[0].begin, 1), Edge(todo[0].finish, -1)];
      assert edges + (both + Edges(todo[1..])) == edges + both + Edges(todo[1..]);
      edges, todo := edges + both, todo[1..];
    }
    assert edges + [] == edges;
  }

  method SweepEdges(edges: seq<Edge>, start: int) returns (covered: nat)
    ensures covered == Sweep(edges, 0, start)
  {
    var depth, previous, rest := 0, start, edges;
    covered := 0;
    while rest != []
      invariant Sweep(edges, 0, start) == covered + Sweep(rest, depth, previous)
      decreases |rest|
    {
      if depth >= 2 {
        covered := covered + Since(rest[0].at, previous);
      }
      depth, previous, rest := depth + rest[0].delta, rest[0].at, rest[1..];
    }
  }

  /** `overlap_fraction`, up to the division: for intervals inside the window, the measure. */
  method Overlap(intervals: seq<Interval>, start: int, end: int) returns (covered: nat, wall: nat)
    requires Ordered(intervals) && Inside(intervals, start, end) && start <= end
    ensures covered == CountIn(t => Depth(intervals, t) >= 2, start, end) && wall == end - start
  {
    var edges := CollectEdges(intervals);
    edges := SortEdges(edges);
    covered := SweepEdges(edges, start);
    wall := Since(end, start);
    SweepMeasures(intervals, edges, start, end);
  }

  // ----- the measure -----

  /** How many intervals, closed on the left and open on the right, hold the instant `t`. */
  function Depth(intervals: seq<Interval>, t: int): nat {
    if intervals == [] then 0
    else (if intervals[0].begin <= t < intervals[0].finish then 1 else 0) + Depth(intervals[1..], t)
  }

  // ----- edges count depth -----

  /** The sum of the edges up to and including the instant `t`. */
  function Level(edges: seq<Edge>, t: int): int {
    if edges == [] then 0 else (if edges[0].at <= t then edges[0].delta else 0) + Level(edges[1..], t)
  }

  lemma {:induction false} LevelConcat(a: seq<Edge>, b: seq<Edge>, t: int)
    ensures Level(a + b, t) == Level(a, t) + Level(b, t)
  {
    if a == [] {
      assert a + b == b;
    } else {
      assert (a + b)[1..] == a[1..] + b;
      LevelConcat(a[1..], b, t);
    }
  }

  /** Takes the first edge of `a` out of `b`. */
  lemma Pick(a: seq<Edge>, b: seq<Edge>) returns (x: seq<Edge>, y: seq<Edge>)
    requires a != [] && multiset(a) == multiset(b)
    ensures b == x + [a[0]] + y && multiset(x + y) == multiset(a[1..])
  {
    assert a[0] in multiset(b);
    var i :| 0 <= i < |b| && b[i] == a[0];
    x, y := b[..i], b[i + 1..];
    assert b == x + [a[0]] + y;
    Middle(x, a[0], y);
    Middle([], a[0], a[1..]);
    assert a == [] + [a[0]] + a[1..] && [] + a[1..] == a[1..];
    Cancel(multiset(x + y), multiset(a[1..]), a[0]);
  }

  lemma Cancel(m: multiset<Edge>, n: multiset<Edge>, e: Edge)
    requires m + multiset{e} == n + multiset{e}
    ensures m == n
  {
    assert m == (m + multiset{e}) - multiset{e};
    assert n == (n + multiset{e}) - multiset{e};
  }

  /** The order of the edges does not matter to the sum. */
  lemma {:induction false} LevelPermutes(a: seq<Edge>, b: seq<Edge>, t: int)
    requires multiset(a) == multiset(b)
    ensures Level(a, t) == Level(b, t)
  {
    if a == [] {
      assert |multiset(b)| == 0;
    } else {
      var x, y := Pick(a, b);
      LevelPermutes(a[1..], x + y, t);
      LevelMiddle(x, a[0], y, t);
    }
  }

  lemma LevelMiddle(x: seq<Edge>, e: Edge, y: seq<Edge>, t: int)
    ensures Level(x + [e] + y, t) == (if e.at <= t then e.delta else 0) + Level(x + y, t)
  {
    LevelConcat(x + [e], y, t);
    LevelConcat(x, [e], t);
    LevelConcat(x, y, t);
    assert [e][1..] == [];
  }

  predicate Ordered(intervals: seq<Interval>) {
    forall i :: 0 <= i < |intervals| ==> intervals[i].begin <= intervals[i].finish
  }

  lemma {:induction false} LevelIsDepth(intervals: seq<Interval>, t: int)
    requires Ordered(intervals)
    ensures Level(Edges(intervals), t) == Depth(intervals, t)
  {
    if intervals != [] {
      var a, b := Edge(intervals[0].begin, 1), Edge(intervals[0].finish, -1);
      var rest := Edges(intervals[1..]);
      LevelIsDepth(intervals[1..], t);
      LevelConcat([a, b], rest, t);
      assert [a, b][1..] == [b] && [b][1..] == [];
    }
  }

  /** Sorted by time alone: edges at one instant may come in any order. */
  predicate TimeSorted(edges: seq<Edge>) {
    forall i, j :: 0 <= i < j < |edges| ==> edges[i].at <= edges[j].at
  }

  lemma {:induction false} LevelBefore(edges: seq<Edge>, t: int)
    requires forall i :: 0 <= i < |edges| ==> edges[i].at > t
    ensures Level(edges, t) == 0
  {
    if edges != [] {
      LevelBefore(edges[1..], t);
    }
  }

  /** The sweep adds up exactly the instants at which the level is two or more. */
  lemma {:induction false} SweepCounts(edges: seq<Edge>, depth: int, previous: int, hi: int)
    requires TimeSorted(edges) && previous <= hi
    requires forall i :: 0 <= i < |edges| ==> previous <= edges[i].at <= hi
    requires depth + Level(edges, hi) < 2
    ensures Sweep(edges, depth, previous) == CountIn(t => depth + Level(edges, t) >= 2, previous, hi)
    decreases |edges|
  {
    var p := t => depth + Level(edges, t) >= 2;
    if edges == [] {
      CountConst(p, false, previous, hi);
    } else {
      var e, rest := edges[0], edges[1..];
      CountSplit(p, previous, e.at, hi);
      forall t | previous <= t < e.at ensures p(t) == (depth >= 2) {
        LevelBefore(edges, t);
      }
      CountConst(p, depth >= 2, previous, e.at);
      SweepCounts(rest, depth + e.delta, e.at, hi);
      CountSame(p, t => depth + e.delta + Level(rest, t) >= 2, e.at, hi);
    }
  }

  predicate Inside(intervals: seq<Interval>, start: int, end: int) {
    forall i :: 0 <= i < |intervals| ==> start <= intervals[i].begin && intervals[i].finish <= end
  }

  lemma {:induction false} EdgesInside(intervals: seq<Interval>, start: int, end: int, e: Edge)
    requires Ordered(intervals) && Inside(intervals, start, end) && e in Edges(intervals)
    ensures start <= e.at <= end
  {
    var a, b := Edge(intervals[0].begin, 1), Edge(intervals[0].finish, -1);
    if e != a && e != b {
      assert e in Edges(intervals[1..]);
      EdgesInside(intervals[1..], start, end, e);
    }
  }

  lemma {:induction false} DepthAtEnd(intervals: seq<Interval>, end: int)
    requires forall i :: 0 <= i < |intervals| ==> intervals[i].finish <= end
    ensures Depth(intervals, end) == 0
  {
    if intervals != [] {
      DepthAtEnd(intervals[1..], end);
    }
  }

  /**
   For every list of intervals inside the window, and every order of their edges that is
   sorted by time, the sweep measures the instants at which two or more intervals overlap.
   */
  lemma SweepMeasures(intervals: seq<Interval>, edges: seq<Edge>, start: int, end: int)
    requires Ordered(intervals) && Inside(intervals, start, end) && start <= end
    requires TimeSorted(edges) && multiset(edges) == multiset(Edges(intervals))
    ensures Sweep(edges, 0, start) == CountIn(t => Depth(intervals, t) >= 2, start, end)
  {
    forall i | 0 <= i < |edges| ensures start <= edges[i].at <= end {
      assert edges[i] in multiset(Edges(intervals));
      EdgesInside(intervals, start, end, edges[i]);
    }
    forall t ensures Level(edges, t) == Depth(intervals, t) {
      LevelPermutes(edges, Edges(intervals), t);
      LevelIsDepth(intervals, t);
    }
    DepthAtEnd(intervals, end);
    SweepCounts(edges, 0, start, end);
    CountSame(t => 0 + Level(edges, t) >= 2, t => Depth(intervals, t) >= 2, start, end);
  }

  // ----- the fraction -----

  /** `overlap_fraction`, from the two durations it divides. */
  function Fraction(covered: nat, wall: nat): real {
    if wall == 0 then 0.0 else covered as real / wall as real
  }

  ghost predicate Disjoint(intervals: seq<Interval>) {
    forall i, j, t :: 0 <= i < j < |intervals| ==>
                        !(Covers(intervals[i], t) && Covers(intervals[j], t))
  }

  predicate Covers(i: Interval, t: int) {
    i.begin <= t < i.finish
  }

  lemma {:induction false} OneCovers(intervals: seq<Interval>, t: int) returns (i: nat)
    requires Depth(intervals, t) >= 1
    ensures i < |intervals| && Covers(intervals[i], t)
  {
    if Covers(intervals[0], t) {
      i := 0;
    } else {
      var j := OneCovers(intervals[1..], t);
      i := j + 1;
    }
  }

  lemma {:induction false} TwoCover(intervals: seq<Interval>, t: int) returns (i: nat, j: nat)
    requires Depth(intervals, t) >= 2
    ensures i < j < |intervals| && Covers(intervals[i], t) && Covers(intervals[j], t)
  {
    if Covers(intervals[0], t) {
      var k := OneCovers(intervals[1..], t);
      i, j := 0, k + 1;
    } else {
      var a, b := TwoCover(intervals[1..], t);
      i, j := a + 1, b + 1;
    }
  }

  /**
   The fraction the source returns is the measure over the window: between 0 and 1, and 0
   when no two intervals overlap.
   */
  lemma FractionMeasures(intervals: seq<Interval>, edges: seq<Edge>, start: int, end: int)
    requires Ordered(intervals) && Inside(intervals, start, end) && start <= end
    requires Sorted(edges) && multiset(edges) == multiset(Edges(intervals))
    ensures var f := Fraction(Sweep(edges, 0, start), Since(end, start));
            && f == Fraction(CountIn(t => Depth(intervals, t) >= 2, start, end), end - start)
            && 0.0 <= f <= 1.0
            && (Disjoint(intervals) ==> f == 0.0)
  {
    hide Sweep, CountIn, Sorted, Depth, Level, Inside, Ordered, Edges;
    SortedByTime(edges);
    SweepMeasures(intervals, edges, start, end);
    var m := CountIn(t => Depth(intervals, t) >= 2, start, end);
    CountBound(t => Depth(intervals, t) >= 2, start, end);
    if end > start {
      Ratio(m, end - start);
    }
    if Disjoint(intervals) {
      DisjointCount(intervals, start, end);
    }
  }

  lemma SortedByTime(edges: seq<Edge>)
    requires Sorted(edges)
    ensures TimeSorted(edges)
  {
  }

  lemma DisjointCount(intervals: seq<Interval>, start: int, end: int)
    requires Disjoint(intervals) && start <= end
    ensures CountIn(t => Depth(intervals, t) >= 2, start, end) == 0
  {
    var p := t => Depth(intervals, t) >= 2;
    forall t ensures !p(t) {
      if Depth(intervals, t) >= 2 {
        var i, j := TwoCover(intervals, t);
      }
    }
    CountConst(p, false, start, end);
  }

  lemma Ratio(m: nat, w: nat)
    requires m <= w && w > 0
    ensures 0.0 <= m as real / w as real <= 1.0
  {
  }
}
