/**
 One axis of a convolution tile, rocket-core/src/conv.rs: which input positions a range of
 outputs reads, and how the planner cuts an axis into such ranges.  The arithmetic is the
 same for rows and columns.
 */
module Tiling {
  import opened Counting
  import opened Text

  /** Input positions, kernel extent, leading zero padding and stride along one axis. */
  datatype Axis = Axis(extent: nat, kernel: nat, pad: nat, stride: nat) {

    /** What `try_kernel_programming` and `check_extents_against` leave. */
    predicate Valid() {
      extent >= 1 && stride >= 1 && pad < kernel <= 11 && kernel <= extent + 2 * pad
    }

    /** `output_width` and `output_height` */
    function Outputs(): nat
      requires Valid()
    {
      (extent + 2 * pad - kernel) / stride + 1
    }
  }

  function SatSub(a: nat, b: nat): nat {
    if a >= b then a - b else 0
  }

  function Min(a: nat, b: nat): nat {
    if a <= b then a else b
  }

  function Max(a: nat, b: nat): nat {
    if a >= b then a else b
  }

  /** The outputs are exactly the window positions that start and end inside the padded input. */
  lemma OutputsAre(a: Axis, o: nat)
    requires a.Valid()
    ensures a.Outputs() >= 1
    ensures o < a.Outputs() <==> o * a.stride + a.kernel <= a.extent + 2 * a.pad
  {
    var room, n := a.extent + 2 * a.pad - a.kernel, a.Outputs();
    assert room == (n - 1) * a.stride + room % a.stride;
    if o < n {
      Grows(o, n - 1, a.stride);
    } else {
      Grows(n, o, a.stride);
      assert n * a.stride == (n - 1) * a.stride + a.stride;
    }
  }

  // ----- spans -----

  /** A range of outputs and the input range fetched for it; `pad` positions before it are zero. */
  datatype Span = Span(outFirst: nat, outCount: nat, inFirst: nat, inCount: nat, pad: nat)

  /** `tile_in_first` */
  function InFirst(a: Axis, outFirst: nat): nat {
    SatSub(outFirst * a.stride, a.pad)
  }

  /** The last input position the taps of outputs `first..first + count` reach, unclipped. */
  function LastTap(a: Axis, first: nat, count: nat): nat
    requires a.Valid() && count >= 1
  {
    SatSub((first + count - 1) * a.stride + a.kernel - 1, a.pad)
  }

  predicate Ranges(a: Axis, first: nat, count: nat)
    requires a.Valid()
  {
    count >= 1 && first + count <= a.Outputs()
  }

  /** Where the range lies, so that no subtraction below wraps. */
  lemma RangeLies(a: Axis, first: nat, count: nat)
    requires a.Valid() && Ranges(a, first, count)
    ensures InFirst(a, first) < a.extent && InFirst(a, first) <= LastTap(a, first, count)
  {
    OutputsAre(a, first);
    Grows(first, first + count - 1, a.stride);
  }

  /** The inputs read: the clipped taps, at least a stride per output, within the input. */
  function Reads(a: Axis, first: nat, count: nat): (n: nat)
    requires a.Valid() && Ranges(a, first, count)
    ensures 1 <= n && InFirst(a, first) + n <= a.extent
    ensures Min(LastTap(a, first, count), a.extent - 1) < InFirst(a, first) + n
  {
    RangeLies(a, first, count);
    var exact := Min(LastTap(a, first, count), a.extent - 1) - InFirst(a, first) + 1;
    Min(Max(exact, count * a.stride), a.extent - InFirst(a, first))
  }

  /** `Tile::from_bounds` */
  function FromBounds(a: Axis, first: nat, count: nat): Span
    requires a.Valid() && Ranges(a, first, count)
  {
    Span(first, count, InFirst(a, first), Reads(a, first, count), SatSub(a.pad, first * a.stride))
  }

  /** `ColumnTile::from_output_range`: a span over all outputs takes the input to its end. */
  function FromOutputRange(a: Axis, first: nat, count: nat): Span
    requires a.Valid() && Ranges(a, first, count)
  {
    RangeLies(a, first, count);
    var n := if first == 0 && count == a.Outputs() then a.extent - InFirst(a, first) else Reads(a, first, count);
    Span(first, count, InFirst(a, first), n, SatSub(a.pad, first * a.stride))
  }

  // ----- every tap is resident -----

  /** The span holds all its taps that lie in the input, at the offset its padding says. */
  predicate Holds(a: Axis, s: Span)
    requires a.Valid()
  {
    && s.outCount >= 1 && s.inCount >= 1 && s.inFirst + s.inCount <= a.extent
    && s.inFirst + a.pad == s.outFirst * a.stride + s.pad
    && (s.inFirst == 0 || s.pad == 0)
    && Min((s.outFirst + s.outCount - 1) * a.stride + a.kernel - 1, a.extent - 1 + a.pad) <
       s.inFirst + s.inCount + a.pad
  }

  lemma BoundsHold(a: Axis, first: nat, count: nat)
    requires a.Valid() && Ranges(a, first, count)
    ensures Holds(a, FromBounds(a, first, count)) && Holds(a, FromOutputRange(a, first, count))
  {
    RangeLies(a, first, count);
  }

  /**
   Tap `k` of output `o`: the position it reads in the whole input is the one it reads in
   the span, and it is inside the input exactly when it is inside what was fetched.
   */
  lemma TapResident(a: Axis, s: Span, o: nat, k: nat)
    requires a.Valid() && Holds(a, s) && s.outFirst <= o < s.outFirst + s.outCount && k < a.kernel
    ensures var whole := o * a.stride + k - a.pad;
            var local := (o - s.outFirst) * a.stride + k - s.pad;
            && whole == s.inFirst + local
            && (0 <= whole < a.extent <==> 0 <= local < s.inCount)
  {
    var last := s.outFirst + s.outCount - 1;
    Spread(o, s.outFirst, a.stride);
    Grows(o, last, a.stride);
    Grows(s.outFirst, o, a.stride);
    TapInside(a, s, s.outFirst * a.stride, o * a.stride, last * a.stride, k);
  }

  lemma Spread(o: nat, first: nat, k: nat)
    requires first <= o
    ensures o * k == first * k + (o - first) * k
  {
  }

  /** The same, with the products as numbers. */
  lemma TapInside(a: Axis, s: Span, first: nat, here: nat, last: nat, k: nat)
    requires a.extent >= 1 && k < a.kernel && first <= here <= last
    requires s.inFirst + s.inCount <= a.extent && s.inFirst + a.pad == first + s.pad
    requires s.inFirst == 0 || s.pad == 0
    requires Min(last + a.kernel - 1, a.extent - 1 + a.pad) < s.inFirst + s.inCount + a.pad
    ensures var whole, local := here + k - a.pad, here - first + k - s.pad;
            whole == s.inFirst + local && (0 <= whole < a.extent <==> 0 <= local < s.inCount)
  {
  }

  /** The input position tap `k` of output `o` reads; before zero or behind the extent it is padding. */
  function TapAt(a: Axis, o: nat, k: nat): int {
    o * a.stride + k - a.pad
  }

  /** `n` positions from the first one on hold every tap of the outputs, and a stride for each of them. */
  predicate Enough(a: Axis, first: nat, count: nat, n: nat) {
    && count * a.stride <= n
    && forall o, k :: first <= o < first + count && 0 <= k < a.kernel ==> TapAt(a, o, k) < InFirst(a, first) + n
  }

  lemma LastTapLast(a: Axis, first: nat, count: nat)
    requires a.Valid() && count >= 1
    ensures LastTap(a, first, count) == TapAt(a, first + count - 1, a.kernel - 1)
    ensures forall o, k :: first <= o < first + count && 0 <= k < a.kernel ==>
                             TapAt(a, o, k) <= LastTap(a, first, count)
  {
    var last := first + count - 1;
    forall o, k | first <= o < first + count && 0 <= k < a.kernel ensures TapAt(a, o, k) <= LastTap(a, first, count) {
      Grows(o, last, a.stride);
    }
  }

  /** A span over all outputs reads the input to its end, taps or not; any other is the row tile's span. */
  lemma WholeRow(a: Axis, first: nat, count: nat)
    requires a.Valid() && Ranges(a, first, count)
    ensures count == a.Outputs() ==> FromOutputRange(a, first, count) == Span(0, count, 0, a.extent, a.pad)
    ensures count < a.Outputs() ==> FromOutputRange(a, first, count) == FromBounds(a, first, count)
  {
  }

  /** The axis as a tile sees it. */
  function Local(a: Axis, s: Span): Axis {
    Axis(s.inCount, a.kernel, s.pad, a.stride)
  }

  // ----- cutting an axis -----

  /** The spans follow each other from `lo` to `hi`. */
  predicate Consecutive(spans: seq<Span>, lo: nat, hi: nat) {
    if spans == [] then lo == hi
    else
      && spans[0].outFirst == lo && spans[0].outCount >= 1
      && Consecutive(spans[1..], lo + spans[0].outCount, hi)
  }

  predicate Covers(s: Span, o: nat) {
    s.outFirst <= o < s.outFirst + s.outCount
  }

  /** How many spans cover output `o`. */
  function Covering(spans: seq<Span>, o: nat): nat {
    if spans == [] then 0 else (if Covers(spans[0], o) then 1 else 0) + Covering(spans[1..], o)
  }

  /** Consecutive spans cover every output in their range once and no other. */
  lemma {:induction false} CoverOnce(spans: seq<Span>, lo: nat, hi: nat, o: nat)
    requires Consecutive(spans, lo, hi)
    ensures lo <= hi && Covering(spans, o) == if lo <= o < hi then 1 else 0
    decreases |spans|
  {
    if spans != [] {
      CoverOnce(spans[1..], lo + spans[0].outCount, hi, o);
    }
  }

  /** Every span was made for its outputs. */
  predicate AllBounds(a: Axis, spans: seq<Span>)
    requires a.Valid()
  {
    forall i :: 0 <= i < |spans| ==>
      Ranges(a, spans[i].outFirst, spans[i].outCount)
      && spans[i] == FromBounds(a, spans[i].outFirst, spans[i].outCount)
  }

  function Sum(widths: seq<nat>): nat {
    if widths == [] then 0 else widths[0] + Sum(widths[1..])
  }

  predicate Positive(widths: seq<nat>) {
    forall i :: 0 <= i < |widths| ==> widths[i] >= 1
  }

  /** Row spans of the given sizes, one after the other. */
  function RowSpans(a: Axis, first: nat, widths: seq<nat>): (spans: seq<Span>)
    requires a.Valid() && Positive(widths) && first + Sum(widths) == a.Outputs()
    ensures Consecutive(spans, first, a.Outputs()) && AllBounds(a, spans) && |spans| == |widths|
    decreases |widths|
  {
    if widths == [] then []
    else [FromBounds(a, first, widths[0])] + RowSpans(a, first + widths[0], widths[1..])
  }

  /** `ColumnTile::split` */
  function ColumnSpans(a: Axis, first: nat, widths: seq<nat>): (spans: seq<Span>)
    requires a.Valid() && Positive(widths) && first + Sum(widths) == a.Outputs()
    ensures Consecutive(spans, first, a.Outputs()) && |spans| == |widths|
    ensures forall i :: 0 <= i < |spans| ==> Holds(a, spans[i]) && spans[i].outFirst + spans[i].outCount <= a.Outputs()
    decreases |widths|
  {
    if widths == [] then []
    else
      BoundsHold(a, first, widths[0]);
      [FromOutputRange(a, first, widths[0])] + ColumnSpans(a, first + widths[0], widths[1..])
  }

  // ----- balanced cuts -----

  /** The widths from index `i` on: `base`, and one more for the first `remainder`. */
  function WidthsFrom(base: nat, remainder: nat, count: nat, i: nat): (widths: seq<nat>)
    ensures |widths| == SatSub(count, i)
    ensures forall j :: 0 <= j < |widths| ==> base <= widths[j] <= base + 1
    ensures forall j :: 0 <= j < |widths| ==> (widths[j] == base + 1 <==> i + j < remainder)
    decreases count - i
  {
    if i >= count then []
    else [base + if i < remainder then 1 else 0] + WidthsFrom(base, remainder, count, i + 1)
  }

  /** `balanced_column_widths` */
  function Balanced(n: nat, count: nat): (widths: seq<nat>)
    requires count >= 1
    ensures |widths| == count
  {
    WidthsFrom(n / count, n % count, count, 0)
  }

  lemma {:induction false} WidthsSum(base: nat, remainder: nat, count: nat, i: nat)
    requires remainder <= count && i <= count
    ensures Sum(WidthsFrom(base, remainder, count, i)) == base * (count - i) + SatSub(remainder, i)
    decreases count - i
  {
    if i < count {
      WidthsSum(base, remainder, count, i + 1);
      assert base * (count - i) == base * (count - (i + 1)) + base;
    }
  }

  /** The balanced widths add up to the whole, never grow, shrink by at most one, and fill every tile. */
  lemma BalancedSums(n: nat, count: nat)
    requires count >= 1
    ensures Sum(Balanced(n, count)) == n
    ensures forall i, j :: 0 <= i < count && 0 <= j < count ==> Balanced(n, count)[i] <= Balanced(n, count)[j] + 1
    ensures forall i, j :: 0 <= i < j < count ==> Balanced(n, count)[i] >= Balanced(n, count)[j]
    ensures count <= n ==> Positive(Balanced(n, count))
  {
    var q, r := n / count, n % count;
    assert n == q * count + r;
    WidthsSum(q, r, count, 0);
    if count <= n {
      QuotientPositive(n, count);
    }
  }

  lemma QuotientPositive(n: nat, count: nat)
    requires 1 <= count <= n
    ensures n / count >= 1
  {
    var q, r := n / count, n % count;
    assert n == q * count + r;
    assert q != 0;
  }

  /** `Tile::split` */
  function Split(a: Axis, tiles: nat): (spans: seq<Span>)
    requires a.Valid() && 1 <= tiles <= a.Outputs()
    ensures Consecutive(spans, 0, a.Outputs()) && AllBounds(a, spans) && |spans| == tiles
  {
    BalancedSums(a.Outputs(), tiles);
    RowSpans(a, 0, Balanced(a.Outputs(), tiles))
  }

  lemma SpansStep(a: Axis, first: nat, width: nat, rest: seq<nat>)
    requires a.Valid() && Positive([width] + rest) && first + Sum([width] + rest) == a.Outputs()
    ensures Ranges(a, first, width) && Positive(rest) && first + width + Sum(rest) == a.Outputs()
    ensures RowSpans(a, first, [width] + rest) == [FromBounds(a, first, width)] + RowSpans(a, first + width, rest)
  {
    var widths := [width] + rest;
    assert widths[1..] == rest;
    assert forall i :: 0 <= i < |rest| ==> rest[i] == widths[i + 1];
  }

  method RunSplit(a: Axis, tiles: nat) returns (spans: seq<Span>)
    requires a.Valid() && 1 <= tiles <= a.Outputs()
    ensures spans == Split(a, tiles)
  {
    var base, remainder := a.Outputs() / tiles, a.Outputs() % tiles;
    BalancedSums(a.Outputs(), tiles);
    spans := PushTiles(a, base, remainder, tiles);
  }

  method PushTiles(a: Axis, base: nat, remainder: nat, tiles: nat) returns (spans: seq<Span>)
    requires a.Valid() && Positive(WidthsFrom(base, remainder, tiles, 0))
    requires Sum(WidthsFrom(base, remainder, tiles, 0)) == a.Outputs()
    ensures spans == RowSpans(a, 0, WidthsFrom(base, remainder, tiles, 0))
  {
    hide RowSpans, FromBounds, Sum, Consecutive, AllBounds, Positive, Ranges;
    spans := [];
    var outFirst: nat := 0;
    ghost var widths := WidthsFrom(base, remainder, tiles, 0);
    ConcatAssoc(RowSpans(a, 0, widths), [], []);
    for index := 0 to tiles
      invariant Positive(WidthsFrom(base, remainder, tiles, index))
      invariant outFirst + Sum(WidthsFrom(base, remainder, tiles, index)) == a.Outputs()
      invariant RowSpans(a, 0, widths) == spans + RowSpans(a, outFirst, WidthsFrom(base, remainder, tiles, index))
    {
      var outRows := base + if index < remainder then 1 else 0;
      ghost var rest := WidthsFrom(base, remainder, tiles, index + 1);
      SpansStep(a, outFirst, outRows, rest);
      var tile := FromBounds(a, outFirst, outRows);
      ConcatAssoc(spans, [tile], RowSpans(a, outFirst + outRows, rest));
      spans := spans + [tile];
      outFirst := outFirst + outRows;
    }
    ConcatAssoc(spans, [], []);
  }
}
