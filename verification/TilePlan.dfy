/**
 The planner of rocket-core/src/conv.rs: greedy row grains within a capacity, dense
 boundaries moved to safe fetch rows, and grids of row tiles under column tiles.
 */
module TilePlan {
  import opened Counting
  import opened Text
  import opened Tiling

  // ----- greedy grains -----

  /** The input rows a grain is charged: the unclipped taps, at least a stride per output. */
  function Charge(a: Axis, first: nat, count: nat): nat
    requires a.Valid() && Ranges(a, first, count)
  {
    RangeLies(a, first, count);
    Max(LastTap(a, first, count) - InFirst(a, first) + 1, count * a.stride)
  }

  lemma ChargeBoundsReads(a: Axis, first: nat, count: nat)
    requires a.Valid() && Ranges(a, first, count)
    ensures FromBounds(a, first, count).inCount <= Charge(a, first, count)
  {
    RangeLies(a, first, count);
  }

  /** The charge is the least number of rows that hold every tap of the grain, clipped or not, and its strides. */
  lemma ChargeLeast(a: Axis, first: nat, count: nat, n: nat)
    requires a.Valid() && Ranges(a, first, count)
    ensures Charge(a, first, count) <= n <==> Enough(a, first, count, n)
  {
    RangeLies(a, first, count);
    LastTapLast(a, first, count);
    hide Axis.Outputs, InFirst;
  }

  /** A tile fetches what its grain is charged, as far as the input goes. */
  lemma ReadsClipped(a: Axis, first: nat, count: nat)
    requires a.Valid() && Ranges(a, first, count)
    ensures FromBounds(a, first, count).inCount == Min(Charge(a, first, count), a.extent - InFirst(a, first))
  {
    RangeLies(a, first, count);
  }

  /** The axis with `k` more input positions. */
  function Taller(a: Axis, k: nat): Axis {
    a.(extent := a.extent + k)
  }

  /**
   The bottom edge is not seen: below a taller input the grain is charged the same, and where
   nothing is clipped that is what its tile fetches.
   */
  lemma ChargeTaller(a: Axis, first: nat, count: nat, k: nat)
    requires a.Valid() && Ranges(a, first, count)
    ensures Taller(a, k).Valid() && Ranges(Taller(a, k), first, count)
    ensures Charge(Taller(a, k), first, count) == Charge(a, first, count)
    ensures Enough(a, first, count, SatSub(a.extent + k, InFirst(a, first))) ==>
              FromBounds(Taller(a, k), first, count).inCount == Charge(a, first, count)
  {
    var b := Taller(a, k);
    OutputsAre(a, first + count - 1);
    OutputsAre(b, first + count - 1);
    RangeLies(a, first, count);
    if Enough(a, first, count, SatSub(a.extent + k, InFirst(a, first))) {
      ChargeLeast(a, first, count, a.extent + k - InFirst(a, first));
      ReadsClipped(b, first, count);
    }
  }

  /** A part of a grain is charged no more than the grain. */
  lemma ChargeShrinks(a: Axis, first: nat, count: nat, first': nat, count': nat)
    requires a.Valid() && Ranges(a, first, count) && Ranges(a, first', count')
    requires first <= first' && first' + count' <= first + count
    ensures Charge(a, first', count') <= Charge(a, first, count)
  {
    RangeLies(a, first, count);
    RangeLies(a, first', count');
    Grows(first, first', a.stride);
    Grows(first' + count' - 1, first + count - 1, a.stride);
    Grows(count', count, a.stride);
  }

  /** The largest grain of at most `most` outputs from `first` within the capacity. */
  function Largest(a: Axis, first: nat, most: nat, max: nat): (r: Option<nat>)
    requires a.Valid() && (most == 0 || Ranges(a, first, most))
    ensures r.Some? ==> 1 <= r.value <= most && Charge(a, first, r.value) <= max
    ensures forall c :: 1 <= c <= most && (r.Some? ==> r.value < c) ==> Charge(a, first, c) > max
  {
    if most == 0 then None
    else if Charge(a, first, most) <= max then Some(most)
    else Largest(a, first, most - 1, max)
  }

  /** The loop of `split_greedy_to_capacity` */
  function Greedy(a: Axis, first: nat, max: nat): (r: Option<seq<Span>>)
    requires a.Valid() && first <= a.Outputs()
    ensures r.Some? ==> Consecutive(r.value, first, a.Outputs()) && AllBounds(a, r.value)
    decreases a.Outputs() - first
  {
    if first == a.Outputs() then Some([])
    else
      match Largest(a, first, a.Outputs() - first, max)
      case None => None
      case Some(count) =>
        match Greedy(a, first + count, max)
        case None => None
        case Some(rest) => Some([FromBounds(a, first, count)] + rest)
  }

  /** `Tile::split_greedy_to_capacity` */
  function SplitGreedy(a: Axis, max: nat): (r: Option<seq<Span>>)
    requires a.Valid()
    ensures r.Some? ==> Consecutive(r.value, 0, a.Outputs()) && AllBounds(a, r.value)
  {
    OutputsAre(a, 0);
    var whole := FromBounds(a, 0, a.Outputs());
    if whole.inCount <= max then
      assert Consecutive([whole][1..], a.Outputs(), a.Outputs());
      Some([whole])
    else Greedy(a, 0, max)
  }

  method RunSplitGreedy(a: Axis, max: nat) returns (r: Option<seq<Span>>)
    requires a.Valid()
    ensures r == SplitGreedy(a, max)
  {
    OutputsAre(a, 0);
    var whole := FromBounds(a, 0, a.Outputs());
    if whole.inCount <= max {
      return Some([whole]);
    }
    r := PushGrains(a, max);
  }

  function Prefixed(spans: seq<Span>, r: Option<seq<Span>>): Option<seq<Span>> {
    match r
    case None => None
    case Some(rest) => Some(spans + rest)
  }

  method PushGrains(a: Axis, max: nat) returns (r: Option<seq<Span>>)
    requires a.Valid()
    ensures r == Greedy(a, 0, max)
  {
    hide Charge, Axis.Outputs, FromBounds;
    var tiles: seq<Span> := [];
    var outFirst: nat := 0;
    PrefixedNone(Greedy(a, 0, max));
    while outFirst < a.Outputs()
      invariant outFirst <= a.Outputs()
      invariant Greedy(a, 0, max) == Prefixed(tiles, Greedy(a, outFirst, max))
    {
      var count := RunLargest(a, outFirst, a.Outputs() - outFirst, max);
      if count.None? {
        return None;
      }
      var tile := FromBounds(a, outFirst, count.value);
      PrefixedMore(tiles, tile, Greedy(a, outFirst + count.value, max));
      outFirst := outFirst + count.value;
      tiles := tiles + [tile];
    }
    ConcatAssoc(tiles, [], []);
    r := Some(tiles);
  }

  lemma PrefixedNone(r: Option<seq<Span>>)
    ensures Prefixed([], r) == r
  {
    if r.Some? {
      ConcatAssoc(r.value, [], []);
    }
  }

  lemma PrefixedMore(tiles: seq<Span>, tile: Span, r: Option<seq<Span>>)
    ensures Prefixed(tiles, Prefixed([tile], r)) == Prefixed(tiles + [tile], r)
  {
    if r.Some? {
      ConcatAssoc(tiles, [tile], r.value);
    }
  }

  /** The search from the whole remainder down. */
  method RunLargest(a: Axis, first: nat, most: nat, max: nat) returns (r: Option<nat>)
    requires a.Valid() && Ranges(a, first, most)
    ensures r == Largest(a, first, most, max)
  {
    hide Charge, Axis.Outputs, FromBounds;
    var count: nat := most;
    while count >= 1
      invariant count <= most
      invariant Largest(a, first, most, max) == Largest(a, first, count, max)
    {
      if Charge(a, first, count) <= max {
        return Some(count);
      }
      count := count - 1;
    }
    r := None;
  }

  // ----- what greedy achieves -----

  predicate Within(spans: seq<Span>, max: nat) {
    forall i :: 0 <= i < |spans| ==> spans[i].inCount <= max
  }

  lemma {:induction false} GreedyWithin(a: Axis, first: nat, max: nat)
    requires a.Valid() && first <= a.Outputs()
    ensures Greedy(a, first, max).Some? ==> Within(Greedy(a, first, max).value, max)
    decreases a.Outputs() - first
  {
    hide Charge, Axis.Outputs, FromBounds;
    if first < a.Outputs() && Greedy(a, first, max).Some? {
      var count := Largest(a, first, a.Outputs() - first, max).value;
      ChargeBoundsReads(a, first, count);
      GreedyWithin(a, first + count, max);
    }
  }

  /** Grains from `first` on, each within the charged capacity, that end at the last output. */
  predicate Grains(a: Axis, first: nat, counts: seq<nat>, max: nat)
    requires a.Valid()
    decreases |counts|
  {
    if counts == [] then first == a.Outputs()
    else
      && Ranges(a, first, counts[0]) && Charge(a, first, counts[0]) <= max
      && Grains(a, first + counts[0], counts[1..], max)
  }

  /** Greedy stays ahead: started no earlier, it needs no more grains than any other cut. */
  lemma {:induction false} GreedyAhead(a: Axis, first: nat, max: nat, other: nat, counts: seq<nat>)
    requires a.Valid() && other <= first <= a.Outputs() && Grains(a, other, counts, max)
    ensures Greedy(a, first, max).Some? && |Greedy(a, first, max).value| <= |counts|
    decreases |counts|, a.Outputs() - first
  {
    hide Charge, Axis.Outputs, FromBounds;
    if first < a.Outputs() {
      var c := counts[0];
      if first >= other + c {
        GreedyAhead(a, first, max, other + c, counts[1..]);
      } else {
        var part := other + c - first;
        ChargeShrinks(a, other, c, first, part);
        var r := Largest(a, first, a.Outputs() - first, max);
        assert r.Some? && r.value >= part;
        GreedyAhead(a, first + r.value, max, other + c, counts[1..]);
      }
    }
  }

  /** The grains greedy takes. */
  function Counts(spans: seq<Span>): seq<nat> {
    if spans == [] then [] else [spans[0].outCount] + Counts(spans[1..])
  }

  lemma {:induction false} GreedyGrains(a: Axis, first: nat, max: nat, spans: seq<Span>)
    requires a.Valid() && first <= a.Outputs() && Greedy(a, first, max) == Some(spans)
    ensures Grains(a, first, Counts(spans), max) && |Counts(spans)| == |spans|
    decreases a.Outputs() - first
  {
    hide *;
    if first < a.Outputs() {
      var count, rest := GreedyStep(a, first, max);
      RangesGive(a, first, count);
      GreedyGrains(a, first + count, max, rest);
      CountsStep(FromBounds(a, first, count), rest);
      GrainsStep(a, first, count, Counts(rest), max);
    } else {
      GrainsEnd(a, first, max);
    }
  }

  lemma GrainsEnd(a: Axis, first: nat, max: nat)
    requires a.Valid() && first == a.Outputs()
    ensures Greedy(a, first, max) == Some([]) && Grains(a, first, Counts([]), max) && |Counts([])| == 0
  {
    hide Charge, Axis.Outputs, Largest, FromBounds;
  }

  lemma RangesGive(a: Axis, first: nat, count: nat)
    requires a.Valid() && Ranges(a, first, count)
    ensures count >= 1 && first + count <= a.Outputs() && FromBounds(a, first, count).outCount == count
  {
  }

  lemma GrainsStep(a: Axis, first: nat, count: nat, counts: seq<nat>, max: nat)
    requires a.Valid() && Ranges(a, first, count) && Charge(a, first, count) <= max
    requires Grains(a, first + count, counts, max)
    ensures Grains(a, first, [count] + counts, max)
  {
    hide Charge, Axis.Outputs;
    assert ([count] + counts)[1..] == counts;
  }

  /** The first grain greedy takes, and the rest. */
  lemma GreedyStep(a: Axis, first: nat, max: nat) returns (count: nat, rest: seq<Span>)
    requires a.Valid() && first < a.Outputs() && Greedy(a, first, max).Some?
    ensures Largest(a, first, a.Outputs() - first, max) == Some(count)
    ensures Ranges(a, first, count) && Charge(a, first, count) <= max
    ensures Greedy(a, first + count, max) == Some(rest)
    ensures Greedy(a, first, max) == Some([FromBounds(a, first, count)] + rest)
  {
    hide Charge, Axis.Outputs, FromBounds;
    count := Largest(a, first, a.Outputs() - first, max).value;
    rest := Greedy(a, first + count, max).value;
  }

  lemma CountsStep(s: Span, rest: seq<Span>)
    ensures Counts([s] + rest) == [s.outCount] + Counts(rest)
  {
    assert ([s] + rest)[1..] == rest;
  }

  /**
   The greedy loop cuts the rows whenever any cut within the charged capacity exists, and
   its own cut is one with the fewest grains.
   */
  lemma GreedyFewest(a: Axis, max: nat)
    requires a.Valid()
    ensures Greedy(a, 0, max).Some? <==> exists counts :: Grains(a, 0, counts, max)
    ensures forall counts :: Grains(a, 0, counts, max) ==>
              Greedy(a, 0, max).Some? && |Greedy(a, 0, max).value| <= |counts|
  {
    hide Greedy, Grains, Axis.Outputs;
    if Greedy(a, 0, max).Some? {
      GreedyGrains(a, 0, max, Greedy(a, 0, max).value);
    }
    forall counts | Grains(a, 0, counts, max)
      ensures Greedy(a, 0, max).Some? && |Greedy(a, 0, max).value| <= |counts|
    {
      GreedyAhead(a, 0, max, 0, counts);
    }
  }

  // ----- the cut greedy makes -----

  /** Each tile fills its charge: another output would exceed it, or there is none. */
  predicate Filled(a: Axis, first: nat, spans: seq<Span>, max: nat)
    requires a.Valid()
    decreases |spans|
  {
    if spans == [] then first == a.Outputs()
    else
      var c := spans[0].outCount;
      && Ranges(a, first, c) && spans[0] == FromBounds(a, first, c) && Charge(a, first, c) <= max
      && (first + c < a.Outputs() ==> Charge(a, first, c + 1) > max)
      && Filled(a, first + c, spans[1..], max)
  }

  /** A grain that fits and cannot grow is the largest. */
  lemma LargestIs(a: Axis, first: nat, c: nat, max: nat)
    requires a.Valid() && Ranges(a, first, c) && Charge(a, first, c) <= max
    ensures Largest(a, first, a.Outputs() - first, max) == Some(c) <==>
            (first + c < a.Outputs() ==> Charge(a, first, c + 1) > max)
  {
    hide Charge, Axis.Outputs;
    var largest := Largest(a, first, a.Outputs() - first, max);
    assert largest.Some? && largest.value >= c;
    if largest.value > c {
      ChargeShrinks(a, first, largest.value, first, c + 1);
    }
  }

  lemma FilledStep(a: Axis, first: nat, c: nat, rest: seq<Span>, max: nat)
    requires a.Valid() && Ranges(a, first, c)
    ensures Filled(a, first, [FromBounds(a, first, c)] + rest, max) <==>
            && Charge(a, first, c) <= max && (first + c < a.Outputs() ==> Charge(a, first, c + 1) > max)
            && Filled(a, first + c, rest, max)
  {
    hide Charge, Axis.Outputs, Reads;
    assert ([FromBounds(a, first, c)] + rest)[1..] == rest;
  }

  lemma {:induction false} GreedyFills(a: Axis, first: nat, max: nat)
    requires a.Valid() && first <= a.Outputs() && Greedy(a, first, max).Some?
    ensures Filled(a, first, Greedy(a, first, max).value, max)
    decreases a.Outputs() - first
  {
    hide *;
    if first < a.Outputs() {
      var c, rest := GreedyStep(a, first, max);
      RangesGive(a, first, c);
      GreedyFills(a, first + c, max);
      LargestIs(a, first, c, max);
      FilledStep(a, first, c, rest, max);
    } else {
      GrainsEnd(a, first, max);
      FilledEnd(a, max);
    }
  }

  lemma FilledEnd(a: Axis, max: nat)
    requires a.Valid()
    ensures Filled(a, a.Outputs(), [], max) && Counts([]) == []
  {
  }

  /** The greedy tiles are the only ones that fill their charge one after the other. */
  lemma {:induction false} FilledGreedy(a: Axis, first: nat, spans: seq<Span>, max: nat)
    requires a.Valid() && first <= a.Outputs() && Filled(a, first, spans, max)
    ensures Greedy(a, first, max) == Some(spans)
    decreases |spans|
  {
    hide Charge, Axis.Outputs, Reads, Largest;
    if spans != [] {
      var c := spans[0].outCount;
      LargestIs(a, first, c, max);
      FilledGreedy(a, first + c, spans[1..], max);
      assert spans == [spans[0]] + spans[1..];
    }
  }

  /** A tile in front of tiles that fill their charge. */
  lemma FilledFront(a: Axis, first: nat, c: nat, rest: seq<Span>, max: nat) returns (spans: seq<Span>)
    requires a.Valid() && Ranges(a, first, c) && Charge(a, first, c) <= max
    requires first + c < a.Outputs() ==> Charge(a, first, c + 1) > max
    requires Filled(a, first + c, rest, max)
    ensures Filled(a, first, spans, max) && Counts(spans) == [c] + Counts(rest)
  {
    spans := [FromBounds(a, first, c)] + rest;
    FilledStep(a, first, c, rest, max);
    CountsStep(FromBounds(a, first, c), rest);
  }

  /** Under a kernel of three rows with one of padding a grain is charged one row more at the top, else two. */
  lemma ThreeRows(a: Axis, first: nat, c: nat)
    requires a.kernel == 3 && a.pad == 1 && a.stride == 1 && c >= 1 && first + c <= a.extent
    ensures a.Valid() && a.Outputs() == a.extent && Ranges(a, first, c)
    ensures Charge(a, first, c) == c + if first == 0 then 1 else 2
  {
  }

  /** The next tile under such a kernel. */
  lemma ThreeFront(a: Axis, first: nat, c: nat, rest: seq<Span>, max: nat, counts: seq<nat>) returns (spans: seq<Span>)
    requires a.kernel == 3 && a.pad == 1 && a.stride == 1 && a.Valid() && c >= 1 && first + c <= a.extent
    requires Filled(a, first + c, rest, max) && Counts(rest) == counts
    requires var reach := c + if first == 0 then 1 else 2; reach == max || (reach < max && first + c == a.extent)
    ensures Filled(a, first, spans, max) && Counts(spans) == [c] + counts
  {
    hide Charge, Axis.Outputs, FromBounds, Filled, Axis.Valid;
    ThreeRows(a, first, c);
    if first + c < a.extent {
      ThreeRows(a, first, c + 1);
    }
    spans := FilledFront(a, first, c, rest, max);
  }

  /** The documented examples: 28 rows with room for 15, and 226 with room for 48, from the last grain on. */
  lemma DocumentedCuts(rows: nat)
    requires rows == 28 || rows == 226
    ensures CutInto(Axis(rows, 3, 1, 1), if rows == 28 then 15 else 48,
                    if rows == 28 then [14, 13, 1] else [47, 46, 46, 46, 41])
  {
    hide *;
    var a := Axis(rows, 3, 1, 1);
    ThreeWhole(a);
    if rows == 28 {
      FilledEnd(a, 15);
      var last := ThreeFront(a, 27, 1, [], 15, []);
      var two := ThreeFront(a, 14, 13, last, 15, [1]);
      var spans := ThreeFront(a, 0, 14, two, 15, [13, 1]);
      FilledCut(a, spans, 15, [14, 13, 1]);
    } else {
      FilledEnd(a, 48);
      var last := ThreeFront(a, 185, 41, [], 48, []);
      var two := ThreeFront(a, 139, 46, last, 48, [41]);
      var three := ThreeFront(a, 93, 46, two, 48, [46, 41]);
      var four := ThreeFront(a, 47, 46, three, 48, [46, 46, 41]);
      var spans := ThreeFront(a, 0, 47, four, 48, [46, 46, 46, 41]);
      FilledCut(a, spans, 48, [47, 46, 46, 46, 41]);
    }
  }

  /** The split succeeds with grains of these counts. */
  predicate CutInto(a: Axis, max: nat, counts: seq<nat>) {
    a.Valid() && SplitGreedy(a, max).Some? && Counts(SplitGreedy(a, max).value) == counts
  }

  lemma FilledCut(a: Axis, spans: seq<Span>, max: nat, counts: seq<nat>)
    requires a.Valid() && AllRows(a) > max && Filled(a, 0, spans, max) && Counts(spans) == counts
    ensures CutInto(a, max, counts)
  {
    FilledGreedy(a, 0, spans, max);
    hide Greedy, Filled;
  }

  lemma ThreeWhole(a: Axis)
    requires a.kernel == 3 && a.pad == 1 && a.stride == 1 && a.extent >= 3
    ensures a.Valid() && a.Outputs() == a.extent && AllRows(a) == a.extent
  {
  }

  /** The rows one tile over all outputs fetches. */
  function AllRows(a: Axis): nat
    requires a.Valid()
  {
    OutputsAre(a, 0);
    FromBounds(a, 0, a.Outputs()).inCount
  }

  /** One tile when the whole input fits, else as few as any cut within the charged capacity. */
  ghost predicate FewestTiles(a: Axis, tiles: seq<Span>, max: nat)
    requires a.Valid()
  {
    if AllRows(a) <= max then |tiles| == 1 else forall counts :: Grains(a, 0, counts, max) ==> |tiles| <= |counts|
  }

  /** The split takes the whole input when it fits, and otherwise fills one grain after the other. */
  lemma SplitFewest(a: Axis, max: nat, tiles: seq<Span>)
    requires a.Valid() && SplitGreedy(a, max) == Some(tiles)
    ensures FewestTiles(a, tiles, max)
    ensures if AllRows(a) <= max then Consecutive(tiles, 0, a.Outputs()) && |tiles| == 1 else Filled(a, 0, tiles, max)
  {
    GreedyFewest(a, max);
    if Greedy(a, 0, max).Some? {
      GreedyFills(a, 0, max);
    }
    hide Greedy, Grains, Axis.Outputs, Filled, Reads;
  }

  /** Every output's own window is charged no more than the capacity. */
  predicate EachFits(a: Axis, first: nat, max: nat)
    requires a.Valid()
  {
    forall o :: first <= o < a.Outputs() ==> Charge(a, o, 1) <= max
  }

  /** A grain within the capacity leaves each of its windows within it. */
  lemma {:induction false} GrainsEach(a: Axis, first: nat, counts: seq<nat>, max: nat)
    requires a.Valid() && Grains(a, first, counts, max)
    ensures EachFits(a, first, max)
    decreases |counts|
  {
    hide Charge, Axis.Outputs;
    if counts != [] {
      GrainsEach(a, first + counts[0], counts[1..], max);
      forall o | first <= o < a.Outputs() ensures Charge(a, o, 1) <= max {
        if o < first + counts[0] {
          ChargeShrinks(a, first, counts[0], o, 1);
        }
      }
    }
  }

  /** The whole input fits in `max` rows, or the window of every single output does. */
  predicate RowsFit(a: Axis, max: nat)
    requires a.Valid()
  {
    AllRows(a) <= max || EachFits(a, 0, max)
  }

  /**
   The split succeeds exactly when the whole input fits, or when the window of every single
   output does.
   */
  lemma SplitExact(a: Axis, max: nat)
    requires a.Valid()
    ensures SplitGreedy(a, max).Some? <==> RowsFit(a, max)
  {
    OutputsAre(a, 0);
    hide Greedy, Grains, Axis.Outputs, EachFits, Reads;
    if Greedy(a, 0, max).Some? {
      GreedyGrains(a, 0, max, Greedy(a, 0, max).value);
      GrainsEach(a, 0, Counts(Greedy(a, 0, max).value), max);
    }
    if EachFits(a, 0, max) {
      Singles(a, 0, max);
      GreedyAhead(a, 0, max, 0, seq(a.Outputs(), _ => 1));
    }
  }

  /** A capacity of one window and one stride is always enough. */
  lemma GreedyEnough(a: Axis, max: nat)
    requires a.Valid() && max >= a.kernel && max >= a.stride
    ensures SplitGreedy(a, max).Some? && Within(SplitGreedy(a, max).value, max)
  {
    forall o | 0 <= o < a.Outputs() ensures Charge(a, o, 1) <= max {
      RangeLies(a, o, 1);
    }
    SplitExact(a, max);
    GreedyWithin(a, 0, max);
  }

  lemma {:induction false} Singles(a: Axis, first: nat, max: nat)
    requires a.Valid() && first <= a.Outputs() && EachFits(a, first, max)
    ensures Grains(a, first, seq(a.Outputs() - first, _ => 1), max)
    decreases a.Outputs() - first
  {
    hide Charge, Axis.Outputs;
    if first < a.Outputs() {
      Singles(a, first + 1, max);
      assert seq(a.Outputs() - first, _ => 1)[1..] == seq(a.Outputs() - (first + 1), _ => 1);
    }
  }
}
