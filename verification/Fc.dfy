/**
 A fully-connected operation as a height-one 1x1 convolution, rocket-core/src/fc.rs, and its
 column tiles.
 */
module Fc {
  import opened Text
  import opened Tiling
  import opened TileGrid
  import opened TileConv

  type Matrix = seq<seq<int>>

  // ----- the product -----

  /** A row times column `n`. */
  function Dot(row: seq<int>, b: Matrix, n: nat): int
    requires |row| == |b| && forall k :: 0 <= k < |b| ==> n < |b[k]|
  {
    if row == [] then 0 else row[0] * b[0][n] + Dot(row[1..], b[1..], n)
  }

  function MatMul(a: Matrix, b: Matrix, columns: nat): (c: Matrix)
    requires Sized(b, |b|, columns) && Sized(a, |a|, |b|)
    ensures Sized(c, |a|, columns)
  {
    seq(|a|, m requires 0 <= m < |a| => seq(columns, n requires 0 <= n < columns => Dot(a[m], b, n)))
  }

  // ----- the lowering -----

  /** An axis under a 1x1 kernel with no padding and stride one. */
  predicate Unit(x: Axis, extent: nat) {
    extent >= 1 && x.extent == extent && x.kernel == 1 && x.pad == 0 && x.stride == 1
  }

  /** Such an axis has one output for every input. */
  lemma UnitOutputs(x: Axis, extent: nat)
    requires Unit(x, extent)
    ensures x.Valid() && x.Outputs() == extent
  {
    DivOne(extent - 1);
  }

  lemma DivOne(n: nat)
    ensures n / 1 == n
  {
  }

  /** `try_as_conv_shape`: rows of height one, columns of width M. */
  predicate Lowering(h: Axis, v: Axis, m: nat) {
    Unit(h, 1) && Unit(v, m) && h.Valid() && v.Valid()
  }

  /** The contraction of the first `k` input channels with output channel `n`. */
  function Channels(pixel: seq<int>, b: Matrix, n: nat, k: nat): int {
    if k == 0 then 0
    else
      Channels(pixel, b, n, k - 1)
      + if k <= |pixel| && k <= |b| && n < |b[k - 1]| then pixel[k - 1] * b[k - 1][n] else 0
  }

  /** The 1x1 filter of output channel `n`: column `n` of the weight matrix. */
  function Filter(b: Matrix, n: nat): Weights<seq<int>> {
    (ky: nat, kx: nat, pixel: seq<int>) => Channels(pixel, b, n, |b|)
  }

  /** The image: one row of M pixels with K channels each. */
  function AsImage(a: Matrix): Image<seq<int>> {
    [a]
  }

  lemma {:induction false} ChannelsTail(row: seq<int>, b: Matrix, n: nat, k: nat)
    requires |row| == |b| && k < |b| && n < |b[0]|
    ensures Channels(row, b, n, k + 1) == row[0] * b[0][n] + Channels(row[1..], b[1..], n, k)
  {
    if k > 0 {
      ChannelsTail(row, b, n, k - 1);
    } else {
      assert Channels(row, b, n, 0) == 0;
    }
  }

  /** The channel contraction is the product of the row and the column. */
  lemma {:induction false} ChannelsAreDot(row: seq<int>, b: Matrix, n: nat)
    requires |row| == |b| && forall k :: 0 <= k < |b| ==> n < |b[k]|
    ensures Channels(row, b, n, |b|) == Dot(row, b, n)
  {
    if row != [] {
      ChannelsAreDot(row[1..], b[1..], n);
      ChannelsTail(row, b, n, |b| - 1);
    }
  }

  /** The operands of an [M,K] x [K,N] product and its lowered axes. */
  predicate Operands(a: Matrix, b: Matrix, columns: nat, h: Axis, v: Axis) {
    Sized(b, |b|, columns) && Sized(a, |a|, |b|) && Lowering(h, v, |a|)
  }

  /** The convolution of the lowered shape is an M-by-1 image equal to the product. */
  lemma FcIsMatMul(a: Matrix, b: Matrix, columns: nat, h: Axis, v: Axis, m: nat, n: nat)
    requires Operands(a, b, columns, h, v) && m < |a| && n < columns
    ensures Conv(AsImage(a), h, v, Filter(b, n), 0, m) == MatMul(a, b, columns)[m][n]
  {
    hide Window, Tap, Start, Filter, Dot, Channels, Axis.Valid;
    ChannelsAreDot(a[m], b, n);
    UnitStart(h, 1, 0);
    UnitStart(v, |a|, m);
    PixelIs(a, b, m, n);
    OneTap(AsImage(a), Filter(b, n), m);
  }

  lemma PixelIs(a: Matrix, b: Matrix, m: nat, n: nat)
    requires m < |a|
    ensures Tap(AsImage(a), Filter(b, n), 0, m, 0, 0) == Channels(a[m], b, n, |b|)
  {
    assert AsImage(a)[0] == a;
  }

  lemma UnitStart(x: Axis, extent: nat, o: nat)
    requires Unit(x, extent)
    ensures Start(x, o) == o
  {
  }

  lemma OneTap<P>(image: Image<P>, w: Weights<P>, m: nat)
    ensures Window(image, w, 0, m, 1, 1) == Tap(image, w, 0, m, 0, 0)
  {
    assert TapRow(image, w, 0, m, 0, 0) == 0;
    assert TapRow(image, w, 0, m, 0, 1) == Tap(image, w, 0, m, 0, 0);
    assert Window(image, w, 0, m, 1, 0) == 0;
  }

  lemma LoweringGives(a: Matrix, h: Axis, v: Axis)
    requires Lowering(h, v, |a|)
    ensures h.Valid() && v.Valid() && h.Outputs() == 1 && v.Outputs() == |a|
    ensures Sized(AsImage(a), h.extent, v.extent) && h.kernel == 1 && h.extent == 1 && v.extent == |a|
  {
    hide Axis.Outputs, Axis.Valid;
    UnitOutputs(h, 1);
    UnitOutputs(v, |a|);
  }

  lemma OperandsGive(a: Matrix, b: Matrix, columns: nat, h: Axis, v: Axis)
    requires Operands(a, b, columns, h, v)
    ensures Unit(h, 1) && h.Valid() && v.Valid() && h.Outputs() == 1 && v.Outputs() == |a|
    ensures Sized(AsImage(a), h.extent, v.extent)
  {
    hide Sized, Axis.Outputs, Axis.Valid;
    LoweringGives(a, h, v);
  }

  /** Any plan of the lowered shape computes the product, its column widths adding up to M. */
  lemma FcPlanComputes(l: Limits, a: Matrix, b: Matrix, columns: nat, h: Axis, v: Axis, m: nat, n: nat)
    requires Operands(a, b, columns, h, v) && m < |a| && n < columns
    ensures Plan(l, h, v).Ok? ==>
              var p := Plan(l, h, v).value;
              && Sum(p.widths) == |a| && Fetchable(AsImage(a), p.tiles)
              && Stitched(AsImage(a), h, v, Filter(b, n), p.tiles, 0, m) == Some(MatMul(a, b, columns)[m][n])
  {
    hide *;
    OperandsGive(a, b, columns, h, v);
    FcIsMatMul(a, b, columns, h, v, m, n);
    PlanGives(l, h, v, AsImage(a), Filter(b, n), 0, m);
  }

  lemma PlanGives<P>(l: Limits, h: Axis, v: Axis, image: Image<P>, w: Weights<P>, y: nat, x: nat)
    requires h.Valid() && v.Valid() && Sized(image, h.extent, v.extent)
    requires y < h.Outputs() && x < v.Outputs()
    ensures Plan(l, h, v).Ok? ==>
              var p := Plan(l, h, v).value;
              && Sum(p.widths) == v.Outputs() && Fetchable(image, p.tiles)
              && Stitched(image, h, v, w, p.tiles, y, x) == Some(Conv(image, h, v, w, y, x))
  {
    PlanExact(l, h, v, y, x);
    PlanComputes(image, l, h, v, w, y, x);
    hide *;
  }

  // ----- any column tiling -----

  /** The one row of a height-one tile. */
  function OneRow(): Span {
    Span(0, 1, 0, 1, 0)
  }

  lemma OneRowHolds(h: Axis)
    requires Unit(h, 1) && h.Valid()
    ensures Tiling.Holds(h, OneRow()) && Covers(OneRow(), 0)
  {
  }

  /** What one column tile computes for output channel `n`. */
  function ColumnResult(a: Matrix, b: Matrix, h: Axis, v: Axis, n: nat, s: Span): (r: seq<int>)
    requires s.inFirst + s.inCount <= |a|
    ensures |r| == s.outCount
  {
    seq(s.outCount, j requires 0 <= j < s.outCount =>
      TileValue(AsImage(a), h, v, Filter(b, n), Tile2D(OneRow(), s), 0, j))
  }

  /** A column tile of the lowered row. */
  predicate Fits(v: Axis, m: nat, s: Span)
    requires v.Valid()
  {
    Tiling.Holds(v, s) && s.outFirst + s.outCount <= m && s.inFirst + s.inCount <= m
  }

  predicate AllFit(v: Axis, m: nat, spans: seq<Span>)
    requires v.Valid()
  {
    spans != [] ==> Fits(v, m, spans[0]) && AllFit(v, m, spans[1..])
  }

  function Concatenated(a: Matrix, b: Matrix, h: Axis, v: Axis, n: nat, spans: seq<Span>): seq<int>
    requires v.Valid() && AllFit(v, |a|, spans)
  {
    if spans == [] then [] else ColumnResult(a, b, h, v, n, spans[0]) + Concatenated(a, b, h, v, n, spans[1..])
  }

  /** Entries of column `n` of the product, in rows `lo` up to `hi`. */
  function Column(a: Matrix, b: Matrix, columns: nat, n: nat, lo: nat, hi: nat): (r: seq<int>)
    requires Sized(b, |b|, columns) && Sized(a, |a|, |b|) && n < columns && lo <= hi <= |a|
    ensures |r| == hi - lo
  {
    seq(hi - lo, i requires 0 <= i < hi - lo => MatMul(a, b, columns)[lo + i][n])
  }

  lemma ResultAt(a: Matrix, b: Matrix, h: Axis, v: Axis, n: nat, s: Span, j: nat)
    requires s.inFirst + s.inCount <= |a| && j < s.outCount
    ensures ColumnResult(a, b, h, v, n, s)[j] ==
            TileValue(AsImage(a), h, v, Filter(b, n), Tile2D(OneRow(), s), 0, j)
  {
    hide TileValue, Filter;
  }

  lemma ColumnAt(a: Matrix, b: Matrix, columns: nat, n: nat, lo: nat, hi: nat, j: nat)
    requires Sized(b, |b|, columns) && Sized(a, |a|, |b|) && n < columns && lo + j < hi <= |a|
    ensures Column(a, b, columns, n, lo, hi)[j] == MatMul(a, b, columns)[lo + j][n]
  {
    hide MatMul;
  }

  lemma OperandsSized(a: Matrix, b: Matrix, columns: nat, h: Axis, v: Axis)
    requires Operands(a, b, columns, h, v)
    ensures Sized(b, |b|, columns) && Sized(a, |a|, |b|) && v.Valid()
  {
    hide Sized, Axis.Valid;
  }

  lemma ColumnEntry(a: Matrix, b: Matrix, columns: nat, h: Axis, v: Axis, n: nat, s: Span, j: nat)
    requires Operands(a, b, columns, h, v) && n < columns && Fits(v, |a|, s) && j < s.outCount
    ensures Sized(b, |b|, columns) && Sized(a, |a|, |b|)
    ensures s.outFirst + s.outCount <= |a| && s.inFirst + s.inCount <= |a|
    ensures ColumnResult(a, b, h, v, n, s)[j] == Column(a, b, columns, n, s.outFirst, s.outFirst + s.outCount)[j]
  {
    hide *;
    OperandsSized(a, b, columns, h, v);
    FitsGive(v, |a|, s);
    EntryIs(a, b, columns, h, v, n, s, j);
    ResultAt(a, b, h, v, n, s, j);
    ColumnAt(a, b, columns, n, s.outFirst, s.outFirst + s.outCount, j);
  }

  lemma ColumnResultIs(a: Matrix, b: Matrix, columns: nat, h: Axis, v: Axis, n: nat, s: Span)
    requires Operands(a, b, columns, h, v) && n < columns && Fits(v, |a|, s)
    ensures Sized(b, |b|, columns) && Sized(a, |a|, |b|)
    ensures s.outFirst + s.outCount <= |a| && s.inFirst + s.inCount <= |a|
    ensures ColumnResult(a, b, h, v, n, s) == Column(a, b, columns, n, s.outFirst, s.outFirst + s.outCount)
  {
    hide *;
    OperandsSized(a, b, columns, h, v);
    FitsGive(v, |a|, s);
    var x, y := ColumnResult(a, b, h, v, n, s), Column(a, b, columns, n, s.outFirst, s.outFirst + s.outCount);
    forall j: nat | j < s.outCount ensures x[j] == y[j] {
      ColumnEntry(a, b, columns, h, v, n, s, j);
    }
    SameEntries(x, y);
  }

  lemma SameEntries(x: seq<int>, y: seq<int>)
    requires |x| == |y| && forall j: nat :: j < |x| ==> x[j] == y[j]
    ensures x == y
  {
  }

  lemma FitsGive(v: Axis, m: nat, s: Span)
    requires v.Valid() && Fits(v, m, s)
    ensures Tiling.Holds(v, s) && s.outFirst + s.outCount <= m && s.inFirst + s.inCount <= m
  {
  }

  lemma AtEntry(s: Span, j: nat)
    requires j < s.outCount
    ensures At(Tile2D(OneRow(), s), 0, s.outFirst + j) && OneRow().outFirst == 0
  {
  }

  lemma EntryIs(a: Matrix, b: Matrix, columns: nat, h: Axis, v: Axis, n: nat, s: Span, j: nat)
    requires Operands(a, b, columns, h, v) && n < columns && Fits(v, |a|, s) && j < s.outCount
    ensures TileValue(AsImage(a), h, v, Filter(b, n), Tile2D(OneRow(), s), 0, j) ==
            MatMul(a, b, columns)[s.outFirst + j][n]
  {
    hide *;
    OperandsGive(a, b, columns, h, v);
    FitsGive(v, |a|, s);
    OneRowHolds(h);
    FcIsMatMul(a, b, columns, h, v, s.outFirst + j, n);
    var t := Tile2D(OneRow(), s);
    AtEntry(s, j);
    TileExact(AsImage(a), h, v, Filter(b, n), t, 0, s.outFirst + j);
  }

  lemma {:induction false} ConcatenatedIs(a: Matrix, b: Matrix, columns: nat, h: Axis, v: Axis, n: nat,
                                          spans: seq<Span>, lo: nat)
    requires Operands(a, b, columns, h, v) && n < columns
    requires Consecutive(spans, lo, |a|) && lo <= |a| && AllFit(v, |a|, spans)
    ensures Concatenated(a, b, h, v, n, spans) == Column(a, b, columns, n, lo, |a|)
    decreases |spans|
  {
    hide ColumnResult, Fits, MatMul, Axis.Outputs, Lowering;
    if spans != [] {
      var s := spans[0];
      CoverOnce(spans[1..], lo + s.outCount, |a|, 0);
      ConcatenatedIs(a, b, columns, h, v, n, spans[1..], lo + s.outCount);
      ColumnResultIs(a, b, columns, h, v, n, s);
      ColumnSplits(a, b, columns, n, lo, lo + s.outCount);
    }
  }

  lemma ColumnSplits(a: Matrix, b: Matrix, columns: nat, n: nat, lo: nat, mid: nat)
    requires Sized(b, |b|, columns) && Sized(a, |a|, |b|) && n < columns && lo <= mid <= |a|
    ensures Column(a, b, columns, n, lo, |a|) ==
            Column(a, b, columns, n, lo, mid) + Column(a, b, columns, n, mid, |a|)
  {
    hide MatMul;
  }

  lemma {:induction false} SpansFit(v: Axis, m: nat, spans: seq<Span>)
    requires v.Valid() && v.extent == m
    requires forall i :: 0 <= i < |spans| ==> Tiling.Holds(v, spans[i]) && spans[i].outFirst + spans[i].outCount <= m
    ensures AllFit(v, m, spans)
  {
    if spans != [] {
      SpanInside(v, spans[0]);
      hide Tiling.Holds;
      SpansFit(v, m, spans[1..]);
    }
  }

  /**
   The column tiles of any positive widths that add up to M compute, one after the other,
   the same column of the product.
   */
  lemma ColumnTilesConcatenate(a: Matrix, b: Matrix, columns: nat, h: Axis, v: Axis, n: nat, widths: seq<nat>)
    requires Operands(a, b, columns, h, v) && n < columns
    requires Positive(widths) && Sum(widths) == v.Outputs()
    ensures var spans := ColumnSpans(v, 0, widths);
            AllFit(v, |a|, spans) && Concatenated(a, b, h, v, n, spans) == Column(a, b, columns, n, 0, |a|)
  {
    UnitOutputs(v, |a|);
    var spans := ColumnSpans(v, 0, widths);
    hide *;
    SpansFit(v, |a|, spans);
    ConcatenatedIs(a, b, columns, h, v, n, spans, 0);
  }
}
