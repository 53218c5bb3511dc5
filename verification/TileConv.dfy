/**
 What the tiles compute: a convolution run on the rows and columns a tile fetches, with the
 tile's own padding, is the whole convolution at the tile's outputs.
 */
module TileConv {
  import opened Text
  import opened Tiling
  import opened TileGrid

  // ----- convolution -----

  /** Rows of pixels. */
  type Image<P> = seq<seq<P>>

  predicate Sized<P>(image: Image<P>, height: nat, width: nat) {
    |image| == height && forall y :: 0 <= y < height ==> |image[y]| == width
  }

  /** What a pixel under the tap (ky, kx) adds to an output of one channel. */
  type Weights<!P> = (nat, nat, P) -> int

  /** The pixel a tap reads; outside the image it is zero padding and adds nothing. */
  function Tap<P>(image: Image<P>, w: Weights<P>, y: int, x: int, ky: nat, kx: nat): int {
    if 0 <= y < |image| && 0 <= x < |image[y]| then w(ky, kx, image[y][x]) else 0
  }

  /** The first `n` taps of row `ky`, over image row `y` from column `x`. */
  function TapRow<P>(image: Image<P>, w: Weights<P>, y: int, x: int, ky: nat, n: nat): int {
    if n == 0 then 0 else TapRow(image, w, y, x, ky, n - 1) + Tap(image, w, y, x + n - 1, ky, n - 1)
  }

  /** The first `n` rows of taps, over the window at (y, x). */
  function Window<P>(image: Image<P>, w: Weights<P>, y: int, x: int, width: nat, n: nat): int {
    if n == 0 then 0 else Window(image, w, y, x, width, n - 1) + TapRow(image, w, y + n - 1, x, n - 1, width)
  }

  /** Where the window of output `o` starts; before zero, in the padding. */
  function Start(a: Axis, o: nat): int {
    o * a.stride - a.pad
  }

  /** Output (y, x) of the convolution with row axis `a` and column axis `b`. */
  function Conv<P>(image: Image<P>, a: Axis, b: Axis, w: Weights<P>, y: nat, x: nat): int {
    Window(image, w, Start(a, y), Start(b, x), b.kernel, a.kernel)
  }

  // ----- one tile -----

  /** The part of the image a tile fetches. */
  function Crop<P>(image: Image<P>, t: Tile2D): Image<P>
    requires t.rows.inFirst + t.rows.inCount <= |image|
    requires forall y :: 0 <= y < |image| ==> t.columns.inFirst + t.columns.inCount <= |image[y]|
  {
    seq(t.rows.inCount, r requires 0 <= r < t.rows.inCount =>
      image[t.rows.inFirst + r][t.columns.inFirst..t.columns.inFirst + t.columns.inCount])
  }

  /** Output (i, j) of the tile, computed from what it fetched. */
  function TileValue<P>(image: Image<P>, a: Axis, b: Axis, w: Weights<P>, t: Tile2D, i: nat, j: nat): int
    requires t.rows.inFirst + t.rows.inCount <= |image|
    requires forall y :: 0 <= y < |image| ==> t.columns.inFirst + t.columns.inCount <= |image[y]|
  {
    Conv(Crop(image, t), Local(a, t.rows), Local(b, t.columns), w, i, j)
  }

  /** Window position (y, x) of the image, as the tile sees it, agrees on the first taps. */
  predicate Aligned(t: Tile2D, height: nat, width: nat, y: int, x: int, kh: nat, kw: nat) {
    && t.rows.inFirst + t.rows.inCount <= height && t.columns.inFirst + t.columns.inCount <= width
    && AllSame(t.rows, height, y, kh) && AllSame(t.columns, width, x, kw)
  }

  predicate AllSame(s: Span, extent: nat, at: int, n: nat) {
    forall k :: 0 <= k < n ==> Same(s, extent, at, k)
  }

  /** Tap `k` is inside the whole extent exactly when it is inside the span. */
  predicate Same(s: Span, extent: nat, at: int, k: nat) {
    0 <= at + k < extent <==> 0 <= at + k - s.inFirst < s.inCount
  }

  lemma {:induction false} RowSame<P>(image: Image<P>, height: nat, width: nat, t: Tile2D, w: Weights<P>, y: int,
                                      x: int, ky: nat, kh: nat, kw: nat, n: nat)
    requires Sized(image, height, width) && Aligned(t, height, width, y, x, kh, kw) && ky < kh && n <= kw
    ensures TapRow(Crop(image, t), w, y + ky - t.rows.inFirst, x - t.columns.inFirst, ky, n) ==
            TapRow(image, w, y + ky, x, ky, n)
    decreases n
  {
    if n > 0 {
      RowSame(image, height, width, t, w, y, x, ky, kh, kw, n - 1);
      assert Same(t.rows, height, y, ky) && Same(t.columns, width, x, n - 1);
    }
  }

  lemma {:induction false} WindowSame<P>(image: Image<P>, height: nat, width: nat, t: Tile2D, w: Weights<P>, y: int,
                                         x: int, kh: nat, kw: nat, n: nat)
    requires Sized(image, height, width) && Aligned(t, height, width, y, x, kh, kw) && n <= kh
    ensures Window(Crop(image, t), w, y - t.rows.inFirst, x - t.columns.inFirst, kw, n) ==
            Window(image, w, y, x, kw, n)
    decreases n
  {
    if n > 0 {
      hide TapRow, Crop;
      WindowSame(image, height, width, t, w, y, x, kh, kw, n - 1);
      RowSame(image, height, width, t, w, y, x, n - 1, kh, kw, kw);
    }
  }

  /** Every tap of an output in a span is resident, and its window starts where the span says. */
  lemma SpanSame(a: Axis, s: Span, o: nat)
    requires a.Valid() && Tiling.Holds(a, s) && Covers(s, o)
    ensures Start(Local(a, s), o - s.outFirst) == Start(a, o) - s.inFirst
    ensures AllSame(s, a.extent, Start(a, o), a.kernel)
  {
    TapResident(a, s, o, 0);
    forall k: nat | k < a.kernel ensures Same(s, a.extent, Start(a, o), k) {
      TapResident(a, s, o, k);
    }
  }

  /** A tile's own computation is the whole convolution at its outputs. */
  lemma TileExact<P>(image: Image<P>, a: Axis, b: Axis, w: Weights<P>, t: Tile2D, y: nat, x: nat)
    requires a.Valid() && b.Valid() && Sized(image, a.extent, b.extent)
    requires Tiling.Holds(a, t.rows) && Tiling.Holds(b, t.columns) && At(t, y, x)
    ensures TileValue(image, a, b, w, t, y - t.rows.outFirst, x - t.columns.outFirst) == Conv(image, a, b, w, y, x)
  {
    SpanSame(a, t.rows, y);
    SpanSame(b, t.columns, x);
    SpanInside(a, t.rows);
    SpanInside(b, t.columns);
    assert Aligned(t, a.extent, b.extent, Start(a, y), Start(b, x), a.kernel, b.kernel);
    hide Crop, Window, Aligned, AllSame, Start, Tiling.Holds, Axis.Valid;
    WindowSame(image, a.extent, b.extent, t, w, Start(a, y), Start(b, x), a.kernel, b.kernel, a.kernel);
  }

  lemma SpanInside(a: Axis, s: Span)
    requires a.Valid() && Tiling.Holds(a, s)
    ensures s.inFirst + s.inCount <= a.extent
  {
  }

  // ----- a whole plan -----

  predicate Fetchable<P>(image: Image<P>, tiles: seq<Tile2D>) {
    forall i :: 0 <= i < |tiles| ==>
      && tiles[i].rows.inFirst + tiles[i].rows.inCount <= |image|
      && forall y :: 0 <= y < |image| ==> tiles[i].columns.inFirst + tiles[i].columns.inCount <= |image[y]|
  }

  /** The output the tiles leave at (y, x): that of the tile it lies in, if any. */
  function Stitched<P>(image: Image<P>, a: Axis, b: Axis, w: Weights<P>, tiles: seq<Tile2D>, y: nat,
                       x: nat): Option<int>
    requires Fetchable(image, tiles)
  {
    if tiles == [] then None
    else if At(tiles[0], y, x) then
      Some(TileValue(image, a, b, w, tiles[0], y - tiles[0].rows.outFirst, x - tiles[0].columns.outFirst))
    else
      assert forall i :: 0 <= i < |tiles[1..]| ==> tiles[1..][i] == tiles[i + 1];
      Stitched(image, a, b, w, tiles[1..], y, x)
  }

  lemma GoodFetch<P>(image: Image<P>, l: Limits, a: Axis, b: Axis, tiles: seq<Tile2D>)
    requires a.Valid() && b.Valid() && GoodTiles(l, a, b, tiles) && Sized(image, a.extent, b.extent)
    ensures Fetchable(image, tiles)
  {
    forall i | 0 <= i < |tiles|
      ensures tiles[i].rows.inFirst + tiles[i].rows.inCount <= |image|
      ensures forall y :: 0 <= y < |image| ==> tiles[i].columns.inFirst + tiles[i].columns.inCount <= |image[y]|
    {
      assert GoodTile(l, a, b, tiles[i]);
    }
  }

  /** The first tile, or the rest. */
  lemma StitchedStep<P>(image: Image<P>, a: Axis, b: Axis, w: Weights<P>, tiles: seq<Tile2D>, y: nat, x: nat)
    requires tiles != [] && Fetchable(image, tiles)
    ensures Fetchable(image, tiles[1..]) && Fetchable(image, [tiles[0]])
    ensures Stitched(image, a, b, w, tiles, y, x) ==
            if At(tiles[0], y, x) then
              Some(TileValue(image, a, b, w, tiles[0], y - tiles[0].rows.outFirst, x - tiles[0].columns.outFirst))
            else Stitched(image, a, b, w, tiles[1..], y, x)
    ensures Holding(tiles, y, x) == (if At(tiles[0], y, x) then 1 else 0) + Holding(tiles[1..], y, x)
  {
    hide TileValue;
    assert forall i :: 0 <= i < |tiles[1..]| ==> tiles[1..][i] == tiles[i + 1];
  }

  lemma GoodStep(l: Limits, a: Axis, b: Axis, tiles: seq<Tile2D>)
    requires a.Valid() && b.Valid() && tiles != [] && GoodTiles(l, a, b, tiles)
    ensures GoodTiles(l, a, b, tiles[1..])
    ensures Tiling.Holds(a, tiles[0].rows) && Tiling.Holds(b, tiles[0].columns)
  {
    assert GoodTile(l, a, b, tiles[0]);
    hide Tiling.Holds, Safe;
    assert forall i :: 0 <= i < |tiles[1..]| ==> tiles[1..][i] == tiles[i + 1];
  }

  lemma {:induction false} StitchedIs<P>(image: Image<P>, l: Limits, a: Axis, b: Axis, w: Weights<P>,
                                         tiles: seq<Tile2D>, y: nat, x: nat)
    requires a.Valid() && b.Valid() && Sized(image, a.extent, b.extent)
    requires GoodTiles(l, a, b, tiles) && Fetchable(image, tiles)
    ensures Stitched(image, a, b, w, tiles, y, x) ==
            if Holding(tiles, y, x) > 0 then Some(Conv(image, a, b, w, y, x)) else None
  {
    if tiles != [] {
      StitchedStep(image, a, b, w, tiles, y, x);
      GoodStep(l, a, b, tiles);
      hide Conv, TileValue, Tiling.Holds, Stitched, Holding, GoodTiles, Sized, Fetchable;
      if At(tiles[0], y, x) {
        TileExact(image, a, b, w, tiles[0], y, x);
      } else {
        StitchedIs(image, l, a, b, w, tiles[1..], y, x);
      }
    }
  }

  /**
   Whatever the image, the weights and the buffer limits: the tiles of a plan leave the
   convolution at every output position, and nothing anywhere else.
   */
  lemma PlanComputes<P>(image: Image<P>, l: Limits, a: Axis, b: Axis, w: Weights<P>, y: nat, x: nat)
    requires a.Valid() && b.Valid() && Sized(image, a.extent, b.extent)
    ensures Plan(l, a, b).Ok? ==>
              var tiles := Plan(l, a, b).value.tiles;
              && Fetchable(image, tiles)
              && Stitched(image, a, b, w, tiles, y, x) ==
                 if y < a.Outputs() && x < b.Outputs() then Some(Conv(image, a, b, w, y, x)) else None
  {
    PlanExact(l, a, b, y, x);
    hide Plan, GoodTiles, Conv, Fetchable, Axis.Outputs, Stitched;
    if Plan(l, a, b).Ok? {
      GoodFetch(image, l, a, b, Plan(l, a, b).value.tiles);
      StitchedIs(image, l, a, b, w, Plan(l, a, b).value.tiles, y, x);
    }
  }
}
