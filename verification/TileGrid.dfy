/**
 Grids of tiles, rocket-core/src/conv.rs: dense row boundaries moved to aligned fetch rows,
 row tiles under every column tile, and the plan for a whole convolution.
 */
module TileGrid {
  import opened Counting
  import opened Text
  import opened Tiling
  import opened TilePlan

  const FEATURE_ATOM_BYTES := 16
  const MAX_FEATURE_GRAINS := 1023

  /**
   What the shape, precision and buffer split allow: the widest input row, the input rows
   that fit at a width, whether rows are dense and their byte pitch, and the input channels
   of the shapes whose column widths were captured.
   */
  datatype Limits = Limits(maxWidth: nat, capacity: nat -> nat, dense: bool, pitch: nat, focus: Option<nat>)

  /** `max_feature_grain_input_rows` */
  function GrainRows(a: Axis): nat {
    Max(SatSub(MAX_FEATURE_GRAINS, a.kernel + a.pad), 1)
  }

  function MaxRows(l: Limits, a: Axis, inCols: nat): nat {
    Min(l.capacity(inCols), GrainRows(a))
  }

  /** `dense_feature_offset_safe` of `tile_in_first` */
  predicate Safe(l: Limits, a: Axis, outFirst: nat) {
    !l.dense || (InFirst(a, outFirst) * l.pitch) % FEATURE_ATOM_BYTES == 0
  }

  lemma FirstSafe(l: Limits, a: Axis)
    ensures Safe(l, a, 0)
  {
    assert InFirst(a, 0) == 0;
  }

  // ----- moving boundaries -----

  predicate Inside(lower: nat, upper: nat, candidate: int) {
    lower <= candidate <= upper
  }

  /** The safe boundary nearest to `current`, at least `distance` away, the lower one first. */
  function Nearest(l: Limits, a: Axis, current: nat, lower: nat, upper: nat, distance: nat): (r: Option<nat>)
    requires lower <= current <= upper
    decreases Max(current - lower, upper - current) + 1 - distance
    ensures r.Some? ==> Inside(lower, upper, r.value) && Safe(l, a, r.value)
  {
    if distance > Max(current - lower, upper - current) then None
    else if Inside(lower, upper, current - distance) && Safe(l, a, current - distance) then Some(current - distance)
    else if Inside(lower, upper, current + distance) && Safe(l, a, current + distance) then Some(current + distance)
    else Nearest(l, a, current, lower, upper, distance + 1)
  }

  function Distance(x: nat, y: nat): nat {
    if x <= y then y - x else x - y
  }

  /**
   No safe boundary in range is nearer, of two as near the lower one is taken, and the search fails
   only when none is in range.
   */
  lemma {:induction false} NearestSpec(l: Limits, a: Axis, current: nat, lower: nat, upper: nat, distance: nat, c: nat)
    requires lower <= current <= upper && Inside(lower, upper, c) && Safe(l, a, c)
    requires distance <= Distance(c, current)
    ensures var r := Nearest(l, a, current, lower, upper, distance);
            && r.Some? && Distance(r.value, current) <= Distance(c, current)
            && (Distance(r.value, current) == Distance(c, current) ==> r.value <= c)
    decreases Max(current - lower, upper - current) + 1 - distance
  {
    hide Safe;
    if distance < Distance(c, current) {
      NearestSpec(l, a, current, lower, upper, distance + 1, c);
    } else {
      assert c == current - distance || c == current + distance;
    }
  }

  predicate Increasing(bs: seq<nat>) {
    forall i :: 0 < i < |bs| ==> bs[i - 1] < bs[i]
  }

  /** The room between a boundary's neighbours. */
  lemma Room(bs: seq<nat>, i: nat)
    requires Increasing(bs) && 1 <= i < |bs| - 1
    ensures 1 <= bs[i + 1] && bs[i - 1] + 1 <= bs[i] <= bs[i + 1] - 1
  {
    assert bs[i - 1] < bs[i];
    assert bs[i + 1 - 1] < bs[i + 1];
  }

  lemma Moved(bs: seq<nat>, i: nat, c: nat)
    requires Increasing(bs) && 1 <= i < |bs| - 1 && bs[i - 1] < c < bs[i + 1]
    ensures Increasing(bs[i := c])
  {
    var moved := bs[i := c];
    forall j | 0 < j < |moved| ensures moved[j - 1] < moved[j] {
      assert bs[j - 1] < bs[j];
    }
  }

  /** The loop over interior boundaries of `realign_dense_row_tiles`. */
  function MoveFrom(l: Limits, a: Axis, bs: seq<nat>, i: nat): Option<seq<nat>>
    requires Increasing(bs) && 1 <= i < |bs|
    decreases |bs| - i
  {
    if i == |bs| - 1 then Some(bs)
    else
      Room(bs, i);
      if bs[i - 1] + 1 > bs[i + 1] - 1 then None
      else if Safe(l, a, bs[i]) then MoveFrom(l, a, bs, i + 1)
      else
        match Nearest(l, a, bs[i], bs[i - 1] + 1, bs[i + 1] - 1, 1)
        case None => None
        case Some(c) =>
          Moved(bs, i, c);
          MoveFrom(l, a, bs[i := c], i + 1)
  }

  /** Moving keeps the order and both ends, and leaves every interior boundary safe. */
  lemma {:induction false} MoveFromSafe(l: Limits, a: Axis, bs: seq<nat>, i: nat)
    requires Increasing(bs) && 1 <= i < |bs| && MoveFrom(l, a, bs, i).Some?
    ensures var r := MoveFrom(l, a, bs, i).value;
            && Increasing(r) && |r| == |bs| && r[|bs| - 1] == bs[|bs| - 1]
            && (forall j :: 0 <= j < i ==> r[j] == bs[j])
            && (forall j :: i <= j < |bs| - 1 ==> Safe(l, a, r[j]))
    decreases |bs| - i
  {
    hide Safe, Nearest;
    if i < |bs| - 1 {
      Room(bs, i);
      if Safe(l, a, bs[i]) {
        MoveFromSafe(l, a, bs, i + 1);
      } else {
        var c := Nearest(l, a, bs[i], bs[i - 1] + 1, bs[i + 1] - 1, 1).value;
        Moved(bs, i, c);
        MoveFromSafe(l, a, bs[i := c], i + 1);
      }
    }
  }

  predicate SafeWithin(l: Limits, a: Axis, lower: nat, upper: nat) {
    exists c: nat :: lower <= c < upper && Safe(l, a, c)
  }

  /** Every tile from boundary `i` on has a safe row of its own. */
  predicate SafeTiles(l: Limits, a: Axis, bs: seq<nat>, i: nat)
    decreases |bs| - i
  {
    i + 1 < |bs| ==> SafeWithin(l, a, bs[i], bs[i + 1]) && SafeTiles(l, a, bs, i + 1)
  }

  /** A step of the pass fails exactly when no safe row is left between its neighbours, the lower one moved. */
  lemma StepExact(l: Limits, a: Axis, bs: seq<nat>, i: nat)
    requires Increasing(bs) && 1 <= i < |bs| - 1
    ensures bs[i - 1] + 1 <= bs[i] <= bs[i + 1] - 1
    ensures Safe(l, a, bs[i]) || Nearest(l, a, bs[i], bs[i - 1] + 1, bs[i + 1] - 1, 1).Some? <==>
            SafeWithin(l, a, bs[i - 1] + 1, bs[i + 1])
  {
    Room(bs, i);
    hide Safe, Increasing;
    var r := Nearest(l, a, bs[i], bs[i - 1] + 1, bs[i + 1] - 1, 1);
    if r.Some? {
      assert bs[i - 1] + 1 <= r.value < bs[i + 1];
    }
    if !Safe(l, a, bs[i]) {
      if SafeWithin(l, a, bs[i - 1] + 1, bs[i + 1]) {
        var c: nat :| bs[i - 1] + 1 <= c < bs[i + 1] && Safe(l, a, c);
        NearestSpec(l, a, bs[i], bs[i - 1] + 1, bs[i + 1] - 1, 1, c);
      }
    }
  }

  lemma {:induction false} TilesKept(l: Limits, a: Axis, bs: seq<nat>, i: nat, c: nat, k: nat)
    requires i < k && i < |bs| && SafeTiles(l, a, bs, k)
    ensures SafeTiles(l, a, bs[i := c], k)
    decreases |bs| - k
  {
    if k + 1 < |bs| {
      hide SafeWithin;
      TilesKept(l, a, bs, i, c, k + 1);
    }
  }

  /** When every tile but the first has a safe row of its own, the pass succeeds. */
  lemma {:induction false} MoveFromSome(l: Limits, a: Axis, bs: seq<nat>, i: nat)
    requires Increasing(bs) && 1 <= i < |bs| && SafeTiles(l, a, bs, i)
    ensures MoveFrom(l, a, bs, i).Some?
    decreases |bs| - i
  {
    if i < |bs| - 1 {
      Room(bs, i);
      StepExact(l, a, bs, i);
      hide Safe, Nearest, Increasing, SafeWithin;
      WiderSafe(l, a, bs[i], bs[i + 1], bs[i - 1] + 1);
      if Safe(l, a, bs[i]) {
        MoveFromSome(l, a, bs, i + 1);
      } else {
        var c := Nearest(l, a, bs[i], bs[i - 1] + 1, bs[i + 1] - 1, 1).value;
        Moved(bs, i, c);
        TilesKept(l, a, bs, i, c, i + 1);
        MoveFromSome(l, a, bs[i := c], i + 1);
      }
    }
  }

  lemma WiderSafe(l: Limits, a: Axis, lower: nat, upper: nat, wider: nat)
    requires SafeWithin(l, a, lower, upper) && wider <= lower
    ensures SafeWithin(l, a, wider, upper)
  {
    hide Safe;
  }

  method RunNearest(l: Limits, a: Axis, current: nat, lower: nat, upper: nat) returns (best: Option<nat>)
    requires lower <= current <= upper
    ensures best == Nearest(l, a, current, lower, upper, 1)
  {
    var maxDistance := Max(current - lower, upper - current);
    best := None;
    var distance: nat := 1;
    while distance <= maxDistance
      invariant Nearest(l, a, current, lower, upper, 1) == Nearest(l, a, current, lower, upper, distance)
    {
      if Inside(lower, upper, current - distance) && Safe(l, a, current - distance) {
        return Some(current - distance);
      }
      if Inside(lower, upper, current + distance) && Safe(l, a, current + distance) {
        return Some(current + distance);
      }
      distance := distance + 1;
    }
  }

  method RunMove(l: Limits, a: Axis, boundaries: seq<nat>) returns (r: Option<seq<nat>>)
    requires Increasing(boundaries) && |boundaries| >= 2
    ensures r == MoveFrom(l, a, boundaries, 1)
  {
    hide Safe, Nearest, Increasing;
    var bs, i := boundaries, 1;
    while i < |bs| - 1
      invariant 1 <= i < |bs| && Increasing(bs)
      invariant MoveFrom(l, a, boundaries, 1) == MoveFrom(l, a, bs, i)
      decreases |bs| - i
    {
      Room(bs, i);
      var lower, upper := bs[i - 1] + 1, bs[i + 1] - 1;
      if lower > upper {
        return None;
      }
      if !Safe(l, a, bs[i]) {
        var best := RunNearest(l, a, bs[i], lower, upper);
        if best.None? {
          return None;
        }
        Moved(bs, i, best.value);
        bs := bs[i := best.value];
      }
      i := i + 1;
    }
    r := Some(bs);
  }

  // ----- realigned tiles -----

  function Firsts(spans: seq<Span>): seq<nat> {
    if spans == [] then [] else [spans[0].outFirst] + Firsts(spans[1..])
  }

  /** Where the tiles start, and the end of the output. */
  function Boundaries(a: Axis, spans: seq<Span>): seq<nat>
    requires a.Valid()
  {
    Firsts(spans) + [a.Outputs()]
  }

  lemma {:induction false} BoundariesIncrease(spans: seq<Span>, lo: nat, hi: nat)
    requires Consecutive(spans, lo, hi)
    ensures |Firsts(spans)| == |spans| && Increasing(Firsts(spans) + [hi]) && (Firsts(spans) + [hi])[0] == lo
    decreases |spans|
  {
    if spans != [] {
      BoundariesIncrease(spans[1..], lo + spans[0].outCount, hi);
      var bs, rest := Firsts(spans) + [hi], Firsts(spans[1..]) + [hi];
      assert bs == [spans[0].outFirst] + rest;
      forall i | 0 < i < |bs| ensures bs[i - 1] < bs[i] {
        if i > 1 {
          assert rest[i - 1 - 1] < rest[i - 1];
        }
      }
    }
  }

  /** The tiles between successive boundaries. */
  function Windows(a: Axis, bs: seq<nat>): (spans: seq<Span>)
    requires a.Valid() && bs != [] && Increasing(bs) && bs[|bs| - 1] == a.Outputs()
    ensures Consecutive(spans, bs[0], a.Outputs()) && AllBounds(a, spans) && |spans| == |bs| - 1
    ensures forall i :: 0 <= i < |spans| ==> spans[i].outFirst == bs[i]
    decreases |bs|
  {
    if |bs| == 1 then []
    else
      TailIncreases(bs);
      var rest := Windows(a, bs[1..]);
      CoverOnce(rest, bs[1], a.Outputs(), 0);
      [FromBounds(a, bs[0], bs[1] - bs[0])] + rest
  }

  lemma TailIncreases(bs: seq<nat>)
    requires |bs| >= 2 && Increasing(bs)
    ensures Increasing(bs[1..]) && bs[0] < bs[1]
  {
    forall i | 0 < i < |bs[1..]| ensures bs[1..][i - 1] < bs[1..][i] {
      assert bs[i + 1 - 1] < bs[i + 1];
    }
    assert bs[1 - 1] < bs[1];
  }

  /** `realign_dense_row_tiles` */
  function Realign(l: Limits, a: Axis, tiles: seq<Span>, max: nat): (r: Option<seq<Span>>)
    requires a.Valid() && Consecutive(tiles, 0, a.Outputs())
  {
    if !l.dense || |tiles| <= 1 then Some(tiles)
    else
      BoundariesIncrease(tiles, 0, a.Outputs());
      match MoveFrom(l, a, Boundaries(a, tiles), 1)
      case None => None
      case Some(bs) =>
        MoveFromSafe(l, a, Boundaries(a, tiles), 1);
        var moved := Windows(a, bs);
        if Within(moved, max) then Some(moved) else None
  }

  method RunRealign(l: Limits, a: Axis, tiles: seq<Span>, max: nat) returns (r: Option<seq<Span>>)
    requires a.Valid() && Consecutive(tiles, 0, a.Outputs())
    ensures r == Realign(l, a, tiles, max)
  {
    if !l.dense || |tiles| <= 1 {
      return Some(tiles);
    }
    BoundariesIncrease(tiles, 0, a.Outputs());
    var bs := RunMove(l, a, Boundaries(a, tiles));
    if bs.None? {
      return None;
    }
    MoveFromSafe(l, a, Boundaries(a, tiles), 1);
    var moved := Windows(a, bs.value);
    r := if Within(moved, max) then Some(moved) else None;
  }

  /** Row tiles that cut the output once, each within the capacity and fetched from a safe row. */
  predicate GoodRows(l: Limits, a: Axis, tiles: seq<Span>, max: nat)
    requires a.Valid()
  {
    && Consecutive(tiles, 0, a.Outputs()) && AllBounds(a, tiles) && Within(tiles, max)
    && forall i :: 0 <= i < |tiles| ==> Safe(l, a, tiles[i].outFirst)
  }

  lemma RealignGood(l: Limits, a: Axis, tiles: seq<Span>, max: nat)
    requires a.Valid() && Consecutive(tiles, 0, a.Outputs()) && AllBounds(a, tiles) && Within(tiles, max)
    ensures Realign(l, a, tiles, max).Some? ==> GoodRows(l, a, Realign(l, a, tiles, max).value, max)
  {
    FirstSafe(l, a);
    if l.dense && |tiles| > 1 {
      BoundariesIncrease(tiles, 0, a.Outputs());
      if MoveFrom(l, a, Boundaries(a, tiles), 1).Some? {
        MoveFromSafe(l, a, Boundaries(a, tiles), 1);
      }
    }
  }

  // ----- the row tiles of one column -----

  /** The fallback search of `plan_grid`: balanced cuts, fewest tiles first. */
  function Fallback(l: Limits, a: Axis, max: nat, count: nat): (r: Option<seq<Span>>)
    requires a.Valid() && count >= 1
    ensures r.Some? ==> GoodRows(l, a, r.value, max)
    decreases a.Outputs() + 1 - count
  {
    if count > a.Outputs() then None
    else
      var rows := Split(a, count);
      RealignGoodIf(l, a, rows, max);
      if Within(rows, max) && Realign(l, a, rows, max).Some? then Realign(l, a, rows, max)
      else Fallback(l, a, max, count + 1)
  }

  lemma RealignGoodIf(l: Limits, a: Axis, tiles: seq<Span>, max: nat)
    requires a.Valid() && Consecutive(tiles, 0, a.Outputs()) && AllBounds(a, tiles)
    ensures Within(tiles, max) && Realign(l, a, tiles, max).Some? ==>
              GoodRows(l, a, Realign(l, a, tiles, max).value, max)
  {
    if Within(tiles, max) {
      RealignGood(l, a, tiles, max);
    }
  }

  /** The row tiles `plan_grid` puts under one column. */
  function RowTiles(l: Limits, a: Axis, max: nat): (r: Option<seq<Span>>)
    requires a.Valid()
    ensures r.Some? ==> GoodRows(l, a, r.value, max)
  {
    match SplitGreedy(a, max)
    case None => None
    case Some(greedy) =>
      SplitWithin(a, max);
      RealignGoodIf(l, a, greedy, max);
      match Realign(l, a, greedy, max)
      case Some(rows) => Some(rows)
      case None => Fallback(l, a, max, 1)
  }

  lemma SplitWithin(a: Axis, max: nat)
    requires a.Valid()
    ensures SplitGreedy(a, max).Some? ==> Within(SplitGreedy(a, max).value, max)
  {
    GreedyWithin(a, 0, max);
  }

  method RunRowTiles(l: Limits, a: Axis, max: nat) returns (r: Option<seq<Span>>)
    requires a.Valid()
    ensures r == RowTiles(l, a, max)
  {
    var greedy := RunSplitGreedy(a, max);
    if greedy.None? {
      return None;
    }
    r := RunRealign(l, a, greedy.value, max);
    if r.Some? {
      return;
    }
    var count: nat := 1;
    while count <= a.Outputs()
      invariant count >= 1 && Fallback(l, a, max, 1) == Fallback(l, a, max, count)
    {
      var rows := RunSplit(a, count);
      if Within(rows, max) {
        r := RunRealign(l, a, rows, max);
        if r.Some? {
          return;
        }
      }
      count := count + 1;
    }
    r := None;
  }

  // ----- grids -----

  datatype Tile2D = Tile2D(rows: Span, columns: Span)

  function Under(rows: seq<Span>, column: Span): seq<Tile2D> {
    if rows == [] then [] else [Tile2D(rows[0], column)] + Under(rows[1..], column)
  }

  /** The loop of `plan_grid` over the columns. */
  function GridOf(l: Limits, a: Axis, columns: seq<Span>): Option<seq<Tile2D>>
    requires a.Valid()
  {
    if columns == [] then Some([])
    else if columns[0].inCount > l.maxWidth then None
    else
      match RowTiles(l, a, MaxRows(l, a, columns[0].inCount))
      case None => None
      case Some(rows) =>
        match GridOf(l, a, columns[1..])
        case None => None
        case Some(rest) => Some(Under(rows, columns[0]) + rest)
  }

  /** `plan_grid` */
  function PlanGrid(l: Limits, a: Axis, b: Axis, widths: seq<nat>): Option<seq<Tile2D>>
    requires a.Valid() && b.Valid() && Positive(widths) && Sum(widths) == b.Outputs()
  {
    GridOf(l, a, ColumnSpans(b, 0, widths))
  }

  method RunPlanGrid(l: Limits, a: Axis, b: Axis, widths: seq<nat>) returns (r: Option<seq<Tile2D>>)
    requires a.Valid() && b.Valid() && Positive(widths) && Sum(widths) == b.Outputs()
    ensures r == PlanGrid(l, a, b, widths)
  {
    var rest := ColumnSpans(b, 0, widths);
    var tiles: seq<Tile2D> := [];
    hide RowTiles, ColumnSpans, Sum, Positive;
    AddedNone(PlanGrid(l, a, b, widths));
    while rest != []
      invariant PlanGrid(l, a, b, widths) == Added(tiles, GridOf(l, a, rest))
      decreases |rest|
    {
      var column := rest[0];
      if column.inCount > l.maxWidth {
        return None;
      }
      var rows := RunRowTiles(l, a, MaxRows(l, a, column.inCount));
      if rows.None? {
        return None;
      }
      AddedMore(tiles, Under(rows.value, column), GridOf(l, a, rest[1..]));
      tiles := tiles + Under(rows.value, column);
      rest := rest[1..];
    }
    ConcatAssoc(tiles, [], []);
    r := Some(tiles);
  }

  function Added(tiles: seq<Tile2D>, r: Option<seq<Tile2D>>): Option<seq<Tile2D>> {
    match r
    case None => None
    case Some(rest) => Some(tiles + rest)
  }

  lemma AddedNone(r: Option<seq<Tile2D>>)
    ensures Added([], r) == r
  {
    if r.Some? {
      ConcatAssoc(r.value, [], []);
    }
  }

  lemma AddedMore(tiles: seq<Tile2D>, more: seq<Tile2D>, r: Option<seq<Tile2D>>)
    ensures Added(tiles, Added(more, r)) == Added(tiles + more, r)
  {
    if r.Some? {
      ConcatAssoc(tiles, more, r.value);
    }
  }

  // ----- captured columns -----

  /** `captured_column_partition` */
  function Captured(l: Limits, a: Axis, b: Axis): Option<seq<nat>> {
    if l.focus.None? || b.extent != 256 || a.extent != 32 || a.stride != 1 || b.stride != 1
       || a.pad != a.kernel / 2 || b.pad != b.kernel / 2 then None
    else if a.kernel == 9 && b.kernel == 9 && l.focus == Some(64) then Some([135, 121])
    else if a.kernel == 11 && b.kernel == 11 && l.focus == Some(48) then Some([137, 119])
    else if a.kernel == 11 && b.kernel == 11 && l.focus == Some(64) then Some([59, 54, 54, 54, 35])
    else None
  }

  /** The captured widths cover the output. */
  lemma CapturedSum(l: Limits, a: Axis, b: Axis)
    requires a.Valid() && b.Valid()
    ensures match Captured(l, a, b) case None => true case Some(ws) => Positive(ws) && Sum(ws) == b.Outputs()
  {
    match Captured(l, a, b)
    case None =>
    case Some(ws) =>
      assert b.Outputs() == 256;
      SumTwo(ws);
  }

  lemma SumTwo(ws: seq<nat>)
    requires ws == [135, 121] || ws == [137, 119] || ws == [59, 54, 54, 54, 35]
    ensures Sum(ws) == 256
  {
    if |ws| == 2 {
      assert ws[1..] == [ws[1]] && [ws[1]][1..] == [];
      assert Sum([ws[1]]) == ws[1];
    } else {
      assert ws[1..] == [54, 54, 54, 35] && [54, 54, 54, 35][1..] == [54, 54, 35];
      assert [54, 54, 35][1..] == [54, 35] && [54, 35][1..] == [35] && [35][1..] == [];
      assert Sum([35]) == 35 && Sum([54, 35]) == 89 && Sum([54, 54, 35]) == 143;
    }
  }

  function DivCeil(x: nat, y: nat): nat
    requires y >= 1
  {
    (x + y - 1) / y
  }

  /** `min_tiles_for_width_and_data_banks` */
  function MinTiles(l: Limits, a: Axis, inCols: nat): (n: nat)
    requires a.Valid()
    ensures 1 <= n <= a.Outputs()
  {
    var rows := Max(SatSub(MaxRows(l, a, inCols), a.kernel - 1), 1);
    var outputRows := Max(DivCeil(rows, a.stride), 1);
    OutputsAre(a, 0);
    CeilIn(a.Outputs(), outputRows);
    DivCeil(a.Outputs(), outputRows)
  }

  lemma CeilIn(x: nat, y: nat)
    requires x >= 1 && y >= 1
    ensures 1 <= DivCeil(x, y) <= x
  {
    var q := DivCeil(x, y);
    var m := (x + y - 1) % y;
    assert x + y - 1 == q * y + m;
    assert q != 0;
    if q > x {
      Grows(x + 1, q, y);
      assert (x + 1) * y == x * y + y;
      Grows(1, y, x);
    }
  }

  /** `Tile2D::grid` */
  function Grid(l: Limits, a: Axis, columns: seq<Span>): seq<Tile2D>
    requires a.Valid()
  {
    if columns == [] then []
    else Under(Split(a, MinTiles(l, a, columns[0].inCount)), columns[0]) + Grid(l, a, columns[1..])
  }

  /** `grid_fits` */
  predicate GridFits(l: Limits, a: Axis, tiles: seq<Tile2D>) {
    forall i :: 0 <= i < |tiles| ==>
      && tiles[i].columns.inCount <= l.maxWidth
      && tiles[i].rows.inCount <= l.capacity(tiles[i].columns.inCount)
      && tiles[i].rows.inCount + a.kernel + tiles[i].rows.pad <= MAX_FEATURE_GRAINS
  }

  // ----- the plan -----

  datatype PlanError = NeedsHorizontalTiling | CaptureExceedsCapacity | CapacityExceeded

  datatype ConvPlan = ConvPlan(widths: seq<nat>, tiles: seq<Tile2D>)

  /** The balanced partitions, fewest columns first. */
  function Partitions(l: Limits, a: Axis, b: Axis, count: nat): Result<ConvPlan, PlanError>
    requires a.Valid() && b.Valid() && count >= 1
    decreases b.Outputs() + 1 - count
  {
    if count > b.Outputs() then Err(CapacityExceeded)
    else
      BalancedSums(b.Outputs(), count);
      var widths := Balanced(b.Outputs(), count);
      match PlanGrid(l, a, b, widths)
      case Some(tiles) => Ok(ConvPlan(widths, tiles))
      case None => Partitions(l, a, b, count + 1)
  }

  /** `ConvPlan::new_with_cbuf_partition` */
  function Plan(l: Limits, a: Axis, b: Axis): Result<ConvPlan, PlanError>
    requires a.Valid() && b.Valid()
  {
    WholeWidth(b);
    CapturedSum(l, a, b);
    match PlanGrid(l, a, b, [b.Outputs()])
    case Some(tiles) => Ok(ConvPlan([b.Outputs()], tiles))
    case None =>
      if l.dense then Err(NeedsHorizontalTiling)
      else
        match Captured(l, a, b)
        case Some(widths) =>
          var tiles := Grid(l, a, ColumnSpans(b, 0, widths));
          if GridFits(l, a, tiles) then Ok(ConvPlan(widths, tiles)) else Err(CaptureExceedsCapacity)
        case None => Partitions(l, a, b, 2)
  }

  lemma WholeWidth(b: Axis)
    requires b.Valid()
    ensures Positive([b.Outputs()]) && Sum([b.Outputs()]) == b.Outputs()
  {
    OutputsAre(b, 0);
    assert [b.Outputs()][1..] == [];
  }

  // ----- when a surface can be planned -----

  /** No column reads more than the widest row, and the rows under each fit in what its width leaves. */
  predicate ColumnsFit(l: Limits, a: Axis, columns: seq<Span>)
    requires a.Valid()
  {
    forall i :: 0 <= i < |columns| ==>
      columns[i].inCount <= l.maxWidth && RowsFit(a, MaxRows(l, a, columns[i].inCount))
  }

  lemma RowTilesExact(l: Limits, a: Axis, max: nat)
    requires a.Valid() && !l.dense
    ensures RowTiles(l, a, max).Some? <==> RowsFit(a, max)
  {
    SplitExact(a, max);
    hide SplitGreedy, EachFits, Fallback, GoodRows;
  }

  lemma {:induction false} GridOfExact(l: Limits, a: Axis, columns: seq<Span>)
    requires a.Valid() && !l.dense
    ensures GridOf(l, a, columns).Some? <==> ColumnsFit(l, a, columns)
  {
    if columns != [] {
      hide RowTiles, RowsFit, MaxRows;
      RowTilesExact(l, a, MaxRows(l, a, columns[0].inCount));
      GridOfExact(l, a, columns[1..]);
      assert forall i :: 1 <= i < |columns| ==> columns[i] == columns[1..][i - 1];
    }
  }

  /** A balanced partition into `count` columns fits, column by column. */
  predicate Plannable(l: Limits, a: Axis, b: Axis, count: nat)
    requires a.Valid() && b.Valid() && 1 <= count <= b.Outputs()
  {
    BalancedSums(b.Outputs(), count);
    ColumnsFit(l, a, ColumnSpans(b, 0, Balanced(b.Outputs(), count)))
  }

  /** For a surface the planner's search under given columns succeeds exactly when they fit. */
  lemma PlannableExact(l: Limits, a: Axis, b: Axis, count: nat)
    requires a.Valid() && b.Valid() && 1 <= count <= b.Outputs() && !l.dense
    ensures (BalancedSums(b.Outputs(), count); PlanGrid(l, a, b, Balanced(b.Outputs(), count)).Some?) <==>
            Plannable(l, a, b, count)
  {
    BalancedSums(b.Outputs(), count);
    hide Balanced, Axis.Outputs, ColumnsFit, GridOf;
    GridOfExact(l, a, ColumnSpans(b, 0, Balanced(b.Outputs(), count)));
  }

  /** One step of the search. */
  lemma PartitionsStep(l: Limits, a: Axis, b: Axis, count: nat)
    requires a.Valid() && b.Valid() && 1 <= count && !l.dense
    ensures count > b.Outputs() ==> Partitions(l, a, b, count).Err?
    ensures count <= b.Outputs() && Plannable(l, a, b, count) ==>
              Partitions(l, a, b, count).Ok? && |Partitions(l, a, b, count).value.widths| == count
    ensures count <= b.Outputs() && !Plannable(l, a, b, count) ==>
              Partitions(l, a, b, count) == Partitions(l, a, b, count + 1)
  {
    hide PlanGrid, Balanced, Axis.Outputs, ColumnsFit;
    if count <= b.Outputs() {
      PlannableExact(l, a, b, count);
      BalancedSums(b.Outputs(), count);
      hide Plannable;
    }
  }

  lemma {:induction false} PartitionsFewest(l: Limits, a: Axis, b: Axis, count: nat, other: nat)
    requires a.Valid() && b.Valid() && 1 <= count <= other <= b.Outputs() && !l.dense
    ensures match Partitions(l, a, b, count)
              case Ok(p) => other < |p.widths| ==> !Plannable(l, a, b, other)
              case Err(_) => !Plannable(l, a, b, other)
    decreases b.Outputs() + 1 - count
  {
    hide Partitions, Plannable, Axis.Outputs;
    PartitionsStep(l, a, b, count);
    if !Plannable(l, a, b, count) && count < other {
      PartitionsFewest(l, a, b, count + 1, other);
    }
  }

  /** The partition found fits. */
  lemma {:induction false} PartitionsCount(l: Limits, a: Axis, b: Axis, count: nat)
    requires a.Valid() && b.Valid() && 1 <= count && !l.dense
    ensures Partitions(l, a, b, count).Ok? ==>
              var n := |Partitions(l, a, b, count).value.widths|;
              count <= n <= b.Outputs() && Plannable(l, a, b, n)
    decreases b.Outputs() + 1 - count
  {
    hide Partitions, Plannable, Axis.Outputs;
    PartitionsStep(l, a, b, count);
    if count <= b.Outputs() && !Plannable(l, a, b, count) {
      PartitionsCount(l, a, b, count + 1);
    }
  }

  /**
   Without captured columns a surface convolution gets the fewest balanced columns that fit:
   no column wider than the widest row, and under each either all rows or the window of every
   output within the rows its width leaves.  It is refused only when no number of columns fits.
   */
  lemma PlanFewest(l: Limits, a: Axis, b: Axis, other: nat)
    requires a.Valid() && b.Valid() && 1 <= other <= b.Outputs() && !l.dense && Captured(l, a, b).None?
    ensures match Plan(l, a, b)
              case Ok(p) =>
                && 1 <= |p.widths| <= b.Outputs() && Plannable(l, a, b, |p.widths|)
                && (other < |p.widths| ==> !Plannable(l, a, b, other))
              case Err(_) => !Plannable(l, a, b, other)
  {
    BalancedOne(b.Outputs());
    WholeWidth(b);
    hide PlanGrid, Balanced, Captured, Axis.Outputs, ColumnsFit;
    PlannableExact(l, a, b, 1);
    hide Plannable, Partitions;
    PartitionsCount(l, a, b, 2);
    if other > 1 {
      PartitionsFewest(l, a, b, 2, other);
    }
  }

  lemma BalancedOne(n: nat)
    ensures Balanced(n, 1) == [n]
  {
    BalancedSums(n, 1);
    var w := Balanced(n, 1);
    assert w == [w[0]] && w[1..] == [];
    assert Sum(w) == w[0] + Sum(w[1..]);
  }

  method RunPlan(l: Limits, a: Axis, b: Axis) returns (r: Result<ConvPlan, PlanError>)
    requires a.Valid() && b.Valid()
    ensures r == Plan(l, a, b)
  {
    WholeWidth(b);
    CapturedSum(l, a, b);
    hide PlanGrid, Sum, Positive, ColumnSpans, Balanced, GridFits, Captured, Grid;
    var full := [b.Outputs()];
    var whole := RunPlanGrid(l, a, b, full);
    if whole.Some? {
      return Ok(ConvPlan(full, whole.value));
    }
    if l.dense {
      return Err(NeedsHorizontalTiling);
    }
    match Captured(l, a, b) {
      case Some(widths) =>
        var tiles := Grid(l, a, ColumnSpans(b, 0, widths));
        return if GridFits(l, a, tiles) then Ok(ConvPlan(widths, tiles)) else Err(CaptureExceedsCapacity);
      case None =>
    }
    var count: nat := 2;
    while count <= b.Outputs()
      invariant count >= 2 && Partitions(l, a, b, 2) == Partitions(l, a, b, count)
    {
      BalancedSums(b.Outputs(), count);
      var widths := Balanced(b.Outputs(), count);
      var tiles := RunPlanGrid(l, a, b, widths);
      if tiles.Some? {
        return Ok(ConvPlan(widths, tiles.value));
      }
      count := count + 1;
    }
    r := Err(CapacityExceeded);
  }

  // ----- what a plan guarantees -----

  predicate At(t: Tile2D, y: nat, x: nat) {
    Covers(t.rows, y) && Covers(t.columns, x)
  }

  /** How many tiles hold output (y, x). */
  function Holding(tiles: seq<Tile2D>, y: nat, x: nat): nat {
    if tiles == [] then 0 else (if At(tiles[0], y, x) then 1 else 0) + Holding(tiles[1..], y, x)
  }

  lemma {:induction false} HoldingConcat(p: seq<Tile2D>, q: seq<Tile2D>, y: nat, x: nat)
    ensures Holding(p + q, y, x) == Holding(p, y, x) + Holding(q, y, x)
  {
    if p == [] {
      assert p + q == q;
    } else {
      assert (p + q)[1..] == p[1..] + q;
      HoldingConcat(p[1..], q, y, x);
    }
  }

  lemma {:induction false} HoldingUnder(rows: seq<Span>, column: Span, y: nat, x: nat)
    ensures Holding(Under(rows, column), y, x) == if Covers(column, x) then Covering(rows, y) else 0
  {
    if rows != [] {
      HoldingUnder(rows[1..], column, y, x);
      assert Under(rows, column)[1..] == Under(rows[1..], column);
    }
  }

  /** Every column has row tiles that cut all rows. */
  predicate Stacked(a: Axis, columns: seq<Span>, stacks: seq<seq<Span>>)
    requires a.Valid()
  {
    |stacks| == |columns| && forall i :: 0 <= i < |stacks| ==> Consecutive(stacks[i], 0, a.Outputs())
  }

  function Stack(columns: seq<Span>, stacks: seq<seq<Span>>): seq<Tile2D>
    requires |stacks| == |columns|
  {
    if columns == [] then [] else Under(stacks[0], columns[0]) + Stack(columns[1..], stacks[1..])
  }

  lemma {:induction false} StackHolds(a: Axis, columns: seq<Span>, stacks: seq<seq<Span>>, y: nat, x: nat)
    requires a.Valid() && Stacked(a, columns, stacks)
    ensures Holding(Stack(columns, stacks), y, x) == if y < a.Outputs() then Covering(columns, x) else 0
  {
    if columns != [] {
      StackHolds(a, columns[1..], stacks[1..], y, x);
      HoldingConcat(Under(stacks[0], columns[0]), Stack(columns[1..], stacks[1..]), y, x);
      HoldingUnder(stacks[0], columns[0], y, x);
      CoverOnce(stacks[0], 0, a.Outputs(), y);
    }
  }

  /** A tile made for its outputs, within the limits and fetched from a safe row. */
  predicate GoodTile(l: Limits, a: Axis, b: Axis, t: Tile2D)
    requires a.Valid() && b.Valid()
  {
    && Tiling.Holds(a, t.rows) && Tiling.Holds(b, t.columns)
    && t.rows.outFirst + t.rows.outCount <= a.Outputs() && t.columns.outFirst + t.columns.outCount <= b.Outputs()
    && t.columns.inCount <= l.maxWidth && t.rows.inCount <= l.capacity(t.columns.inCount)
    && t.rows.inCount + a.kernel + t.rows.pad <= MAX_FEATURE_GRAINS
    && Safe(l, a, t.rows.outFirst)
  }

  predicate GoodTiles(l: Limits, a: Axis, b: Axis, tiles: seq<Tile2D>)
    requires a.Valid() && b.Valid()
  {
    forall i :: 0 <= i < |tiles| ==> GoodTile(l, a, b, tiles[i])
  }

  lemma GoodConcat(l: Limits, a: Axis, b: Axis, p: seq<Tile2D>, q: seq<Tile2D>)
    requires a.Valid() && b.Valid() && GoodTiles(l, a, b, p) && GoodTiles(l, a, b, q)
    ensures GoodTiles(l, a, b, p + q)
  {
    hide GoodTile;
  }

  predicate GoodColumn(l: Limits, b: Axis, c: Span)
    requires b.Valid()
  {
    Tiling.Holds(b, c) && c.outFirst + c.outCount <= b.Outputs()
  }

  lemma {:induction false} UnderGood(l: Limits, a: Axis, b: Axis, rows: seq<Span>, column: Span)
    requires a.Valid() && b.Valid() && GoodColumn(l, b, column) && column.inCount <= l.maxWidth
    requires AllBounds(a, rows) && Within(rows, l.capacity(column.inCount)) && Encodable(a, rows)
    requires forall i :: 0 <= i < |rows| ==> Safe(l, a, rows[i].outFirst)
    ensures GoodTiles(l, a, b, Under(rows, column))
  {
    if rows != [] {
      var row := rows[0];
      hide Safe, FromBounds, Tiling.Holds, Ranges;
      assert row == FromBounds(a, row.outFirst, row.outCount);
      BoundsHold(a, row.outFirst, row.outCount);
      GoodRow(a, row);
      UnderGood(l, a, b, rows[1..], column);
      assert Under(rows, column) == [Tile2D(row, column)] + Under(rows[1..], column);
      assert GoodTile(l, a, b, Tile2D(row, column));
      GoodConcat(l, a, b, [Tile2D(row, column)], Under(rows[1..], column));
    }
  }

  lemma GoodRow(a: Axis, row: Span)
    requires a.Valid() && Ranges(a, row.outFirst, row.outCount)
    ensures row.outFirst + row.outCount <= a.Outputs()
  {
  }

  /** The row tiles under one column are good. */
  lemma ColumnGood(l: Limits, a: Axis, b: Axis, column: Span) returns (rows: seq<Span>)
    requires a.Valid() && b.Valid() && GoodColumn(l, b, column) && column.inCount <= l.maxWidth
    requires RowTiles(l, a, MaxRows(l, a, column.inCount)).Some?
    ensures rows == RowTiles(l, a, MaxRows(l, a, column.inCount)).value
    ensures Consecutive(rows, 0, a.Outputs()) && GoodTiles(l, a, b, Under(rows, column))
  {
    var max := MaxRows(l, a, column.inCount);
    rows := RowTiles(l, a, max).value;
    hide RowTiles, GoodTiles, GoodColumn, Safe;
    WithinMore(rows, max, l.capacity(column.inCount));
    WithinMore(rows, max, GrainRows(a));
    GrainsEncodable(a, rows);
    UnderGood(l, a, b, rows, column);
  }

  lemma {:induction false} GridOfGood(l: Limits, a: Axis, b: Axis, columns: seq<Span>)
    returns (stacks: seq<seq<Span>>)
    requires a.Valid() && b.Valid() && GridOf(l, a, columns).Some?
    requires forall i :: 0 <= i < |columns| ==> GoodColumn(l, b, columns[i])
    ensures Stacked(a, columns, stacks) && GridOf(l, a, columns).value == Stack(columns, stacks)
    ensures GoodTiles(l, a, b, GridOf(l, a, columns).value)
  {
    stacks := [];
    if columns != [] {
      hide RowTiles, GoodTile, GoodColumn, MaxRows, Axis.Outputs, Consecutive;
      var rows := ColumnGood(l, a, b, columns[0]);
      var rest := GridOfGood(l, a, b, columns[1..]);
      stacks := [rows] + rest;
      assert stacks[1..] == rest;
      GoodConcat(l, a, b, Under(rows, columns[0]), Stack(columns[1..], rest));
    }
  }

  lemma WithinMore(rows: seq<Span>, small: nat, big: nat)
    requires Within(rows, small) && small <= big
    ensures Within(rows, big)
  {
  }

  lemma {:induction false} GridStacked(l: Limits, a: Axis, columns: seq<Span>) returns (stacks: seq<seq<Span>>)
    requires a.Valid()
    ensures Stacked(a, columns, stacks) && Grid(l, a, columns) == Stack(columns, stacks)
  {
    stacks := [];
    if columns != [] {
      var rest := GridStacked(l, a, columns[1..]);
      stacks := [Split(a, MinTiles(l, a, columns[0].inCount))] + rest;
      assert stacks[1..] == rest;
    }
  }

  /** Tiles of the captured grid that fit are good: their limits were checked one by one. */
  lemma {:induction false} GridGood(l: Limits, a: Axis, b: Axis, columns: seq<Span>)
    requires a.Valid() && b.Valid() && !l.dense && GridFits(l, a, Grid(l, a, columns))
    requires forall i :: 0 <= i < |columns| ==> GoodColumn(l, b, columns[i])
    ensures GoodTiles(l, a, b, Grid(l, a, columns))
  {
    if columns != [] {
      var rows, rest := Split(a, MinTiles(l, a, columns[0].inCount)), Grid(l, a, columns[1..]);
      var under := Under(rows, columns[0]);
      hide GoodTile, GoodColumn, GridFits;
      FitsParts(l, a, under, rest);
      GridGood(l, a, b, columns[1..]);
      FitsWithin(l, a, rows, columns[0]);
      UnderGood(l, a, b, rows, columns[0]);
      GoodConcat(l, a, b, under, rest);
    }
  }

  lemma FitsParts(l: Limits, a: Axis, p: seq<Tile2D>, q: seq<Tile2D>)
    requires GridFits(l, a, p + q)
    ensures GridFits(l, a, p) && GridFits(l, a, q)
  {
    forall i | 0 <= i < |p| ensures p[i] == (p + q)[i] {
    }
    forall i | 0 <= i < |q| ensures q[i] == (p + q)[|p| + i] {
    }
  }

  /** Row tiles within the feature-grain field. */
  predicate Encodable(a: Axis, rows: seq<Span>) {
    forall i :: 0 <= i < |rows| ==> rows[i].inCount + a.kernel + rows[i].pad <= MAX_FEATURE_GRAINS
  }

  lemma GrainsEncodable(a: Axis, rows: seq<Span>)
    requires a.Valid() && AllBounds(a, rows) && Within(rows, GrainRows(a))
    ensures Encodable(a, rows)
  {
    hide Ranges, Reads;
  }

  lemma {:induction false} FitsWithin(l: Limits, a: Axis, rows: seq<Span>, column: Span)
    requires GridFits(l, a, Under(rows, column)) && rows != []
    ensures Within(rows, l.capacity(column.inCount)) && column.inCount <= l.maxWidth && Encodable(a, rows)
  {
    var under := Under(rows, column);
    assert under[0] == Tile2D(rows[0], column);
    if |rows| > 1 {
      assert forall i :: 0 <= i < |under[1..]| ==> under[1..][i] == under[i + 1];
      assert under[1..] == Under(rows[1..], column);
      FitsWithin(l, a, rows[1..], column);
      assert forall i :: 1 <= i < |rows| ==> rows[i] == rows[1..][i - 1];
    }
  }

  /** Columns that follow each other over the output, each under full stacks of good tiles. */
  predicate Laid(l: Limits, a: Axis, b: Axis, tiles: seq<Tile2D>, columns: seq<Span>, stacks: seq<seq<Span>>)
    requires a.Valid() && b.Valid()
  {
    && Consecutive(columns, 0, b.Outputs()) && Stacked(a, columns, stacks) && tiles == Stack(columns, stacks)
    && GoodTiles(l, a, b, tiles)
  }

  lemma PlanGridLaid(l: Limits, a: Axis, b: Axis, widths: seq<nat>) returns (columns: seq<Span>, stacks: seq<seq<Span>>)
    requires a.Valid() && b.Valid() && Positive(widths) && Sum(widths) == b.Outputs()
    ensures PlanGrid(l, a, b, widths).Some? ==> Laid(l, a, b, PlanGrid(l, a, b, widths).value, columns, stacks)
  {
    columns, stacks := ColumnSpans(b, 0, widths), [];
    if PlanGrid(l, a, b, widths).Some? {
      stacks := GridOfGood(l, a, b, columns);
    }
  }

  lemma {:induction false} PartitionsLaid(l: Limits, a: Axis, b: Axis, count: nat)
    returns (columns: seq<Span>, stacks: seq<seq<Span>>)
    requires a.Valid() && b.Valid() && count >= 1
    ensures Partitions(l, a, b, count).Ok? ==>
              var p := Partitions(l, a, b, count).value;
              Sum(p.widths) == b.Outputs() && Laid(l, a, b, p.tiles, columns, stacks)
    decreases b.Outputs() + 1 - count
  {
    hide Laid, PlanGrid, Balanced, Sum, Axis.Outputs;
    columns, stacks := [], [];
    if count <= b.Outputs() {
      BalancedSums(b.Outputs(), count);
      var widths := Balanced(b.Outputs(), count);
      if PlanGrid(l, a, b, widths).Some? {
        columns, stacks := PlanGridLaid(l, a, b, widths);
      } else {
        columns, stacks := PartitionsLaid(l, a, b, count + 1);
      }
    }
  }

  lemma PlanLaid(l: Limits, a: Axis, b: Axis) returns (columns: seq<Span>, stacks: seq<seq<Span>>)
    requires a.Valid() && b.Valid()
    ensures Plan(l, a, b).Ok? ==>
              var p := Plan(l, a, b).value;
              Sum(p.widths) == b.Outputs() && Laid(l, a, b, p.tiles, columns, stacks)
  {
    columns, stacks := [], [];
    WholeWidth(b);
    CapturedSum(l, a, b);
    hide PlanGrid, Captured, Positive, Sum, Axis.Outputs;
    if PlanGrid(l, a, b, [b.Outputs()]).Some? {
      columns, stacks := PlanGridLaid(l, a, b, [b.Outputs()]);
    } else if !l.dense {
      match Captured(l, a, b)
      case None => columns, stacks := PartitionsLaid(l, a, b, 2);
      case Some(widths) =>
        columns := ColumnSpans(b, 0, widths);
        hide GoodTiles, Grid, GridFits;
        if GridFits(l, a, Grid(l, a, columns)) {
          GridGood(l, a, b, columns);
          stacks := GridStacked(l, a, columns);
        }
    }
  }

  /**
   Every plan covers the output exactly once, and its column widths add up to the output
   width; every tile fits the buffer limits and the feature-grain field, holds all its
   taps, and in dense layout is fetched from an aligned address.
   */
  lemma PlanExact(l: Limits, a: Axis, b: Axis, y: nat, x: nat)
    requires a.Valid() && b.Valid()
    ensures Plan(l, a, b).Ok? ==>
              var p := Plan(l, a, b).value;
              && Sum(p.widths) == b.Outputs() && GoodTiles(l, a, b, p.tiles)
              && Holding(p.tiles, y, x) == if y < a.Outputs() && x < b.Outputs() then 1 else 0
  {
    var columns, stacks := PlanLaid(l, a, b);
    hide Plan, GoodTiles, Axis.Outputs;
    if Plan(l, a, b).Ok? {
      StackHolds(a, columns, stacks, y, x);
      CoverOnce(columns, 0, b.Outputs(), x);
    }
  }

  // ----- the accumulator layout -----

  /** Where one tile's accumulators land in the scratch buffer. */
  datatype Slot = Slot(offset: nat, bytes: nat, tile: Tile2D)

  /** The loop of `accumulator_output_layout`, with `unit` bytes per output pixel. */
  function Slots(tiles: seq<Tile2D>, unit: nat, offset: nat): seq<Slot> {
    if tiles == [] then []
    else [Slot(offset, Bytes(tiles[0], unit), tiles[0])] + Slots(tiles[1..], unit, offset + Bytes(tiles[0], unit))
  }

  /** The bytes of `rows` by `columns` output pixels: `output_scratch_bytes` of the whole output. */
  function Area(rows: nat, columns: nat, unit: nat): nat {
    rows * columns * unit
  }

  lemma AreaAdds(p: nat, q: nat, columns: nat, unit: nat)
    ensures Area(p, columns, unit) + Area(q, columns, unit) == Area(p + q, columns, unit)
    ensures Area(columns, p, unit) + Area(columns, q, unit) == Area(columns, p + q, unit)
    ensures Area(0, columns, unit) == Area(columns, 0, unit) == 0
  {
    assert p * columns + q * columns == (p + q) * columns;
    assert columns * p + columns * q == columns * (p + q);
    AddsTimes(p * columns, q * columns, unit);
  }

  lemma AddsTimes(p: nat, q: nat, unit: nat)
    ensures p * unit + q * unit == (p + q) * unit
  {
  }

  function Bytes(t: Tile2D, unit: nat): nat {
    Area(t.rows.outCount, t.columns.outCount, unit)
  }

  function TotalBytes(tiles: seq<Tile2D>, unit: nat): nat {
    if tiles == [] then 0 else Bytes(tiles[0], unit) + TotalBytes(tiles[1..], unit)
  }

  /** `ConvPlan::accumulator_output_layout`: refused when the tiles do not add up to the allocation. */
  function Layout(tiles: seq<Tile2D>, unit: nat, scratch: nat): Option<seq<Slot>> {
    if TotalBytes(tiles, unit) == scratch then Some(Slots(tiles, unit, 0)) else None
  }

  method RunLayout(tiles: seq<Tile2D>, unit: nat, scratch: nat) returns (r: Option<seq<Slot>>)
    ensures r == Layout(tiles, unit, scratch)
  {
    var slots: seq<Slot>, rest := [], tiles;
    var offset: nat := 0;
    ConcatAssoc(Slots(tiles, unit, 0), [], []);
    while rest != []
      invariant TotalBytes(tiles, unit) == offset + TotalBytes(rest, unit)
      invariant Slots(tiles, unit, 0) == slots + Slots(rest, unit, offset)
      decreases |rest|
    {
      hide Bytes;
      var slot := Slot(offset, Bytes(rest[0], unit), rest[0]);
      ConcatAssoc(slots, [slot], Slots(rest[1..], unit, offset + slot.bytes));
      slots, offset, rest := slots + [slot], offset + slot.bytes, rest[1..];
    }
    ConcatAssoc(slots, [], []);
    r := if offset == scratch then Some(slots) else None;
  }

  lemma {:induction false} BytesConcat(p: seq<Tile2D>, q: seq<Tile2D>, unit: nat)
    ensures TotalBytes(p + q, unit) == TotalBytes(p, unit) + TotalBytes(q, unit)
  {
    hide Bytes;
    if p == [] {
      assert p + q == q;
    } else {
      assert (p + q)[1..] == p[1..] + q;
      BytesConcat(p[1..], q, unit);
    }
  }

  lemma {:induction false} UnderBytes(rows: seq<Span>, column: Span, unit: nat, lo: nat, hi: nat)
    requires Consecutive(rows, lo, hi)
    ensures lo <= hi && TotalBytes(Under(rows, column), unit) == Area(hi - lo, column.outCount, unit)
    decreases |rows|
  {
    hide Area;
    if rows == [] {
      AreaAdds(0, 0, column.outCount, unit);
    } else {
      var n, mid := rows[0].outCount, lo + rows[0].outCount;
      UnderBytes(rows[1..], column, unit, mid, hi);
      assert Under(rows, column)[1..] == Under(rows[1..], column);
      AreaAdds(n, hi - mid, column.outCount, unit);
    }
  }

  lemma {:induction false} StackBytes(a: Axis, columns: seq<Span>, stacks: seq<seq<Span>>, unit: nat, lo: nat, hi: nat)
    requires a.Valid() && Stacked(a, columns, stacks) && Consecutive(columns, lo, hi)
    ensures lo <= hi && TotalBytes(Stack(columns, stacks), unit) == Area(a.Outputs(), hi - lo, unit)
    decreases |columns|
  {
    hide Axis.Outputs, Area;
    if columns == [] {
      AreaAdds(0, 0, a.Outputs(), unit);
    } else {
      var n, mid := columns[0].outCount, lo + columns[0].outCount;
      StackBytes(a, columns[1..], stacks[1..], unit, mid, hi);
      UnderBytes(stacks[0], columns[0], unit, 0, a.Outputs());
      BytesConcat(Under(stacks[0], columns[0]), Stack(columns[1..], stacks[1..]), unit);
      AreaAdds(n, hi - mid, a.Outputs(), unit);
    }
  }

  /** The slots follow each other without gap or overlap, tile by tile, to the total. */
  lemma {:induction false} SlotsContiguous(tiles: seq<Tile2D>, unit: nat, offset: nat)
    ensures var slots := Slots(tiles, unit, offset);
            && |slots| == |tiles|
            && (forall i :: 0 <= i < |slots| ==> slots[i].tile == tiles[i] && slots[i].bytes == Bytes(tiles[i], unit))
            && (forall i :: 0 < i < |slots| ==> slots[i].offset == slots[i - 1].offset + slots[i - 1].bytes)
            && (slots != [] ==> slots[0].offset == offset)
            && (slots != [] ==>
                  slots[|slots| - 1].offset + slots[|slots| - 1].bytes == offset + TotalBytes(tiles, unit))
  {
    hide Bytes;
    if tiles != [] {
      var rest := Slots(tiles[1..], unit, offset + Bytes(tiles[0], unit));
      SlotsContiguous(tiles[1..], unit, offset + Bytes(tiles[0], unit));
      var slots := Slots(tiles, unit, offset);
      assert slots[1..] == rest;
      forall i | 0 < i < |slots| ensures slots[i].offset == slots[i - 1].offset + slots[i - 1].bytes {
        assert slots[i] == rest[i - 1];
        if i > 1 {
          assert slots[i - 1] == rest[i - 1 - 1];
        }
      }
      forall i | 0 <= i < |slots| ensures slots[i].tile == tiles[i] && slots[i].bytes == Bytes(tiles[i], unit) {
        if i > 0 {
          assert slots[i] == rest[i - 1] && tiles[i] == tiles[1..][i - 1];
        }
      }
    }
  }

  /** The slots start at the beginning of the allocation and end at its end. */
  predicate Fills(slots: seq<Slot>, scratch: nat) {
    if slots == [] then scratch == 0
    else slots[0].offset == 0 && slots[|slots| - 1].offset + slots[|slots| - 1].bytes == scratch
  }

  lemma LayoutFills(tiles: seq<Tile2D>, unit: nat, scratch: nat)
    ensures Layout(tiles, unit, scratch).Some? <==> scratch == TotalBytes(tiles, unit)
    ensures Layout(tiles, unit, scratch).Some? ==> Fills(Layout(tiles, unit, scratch).value, scratch)
  {
    SlotsContiguous(tiles, unit, 0);
    hide Slots, Bytes;
    assert tiles == [] ==> TotalBytes(tiles, unit) == 0;
  }

  /** A plan's tiles partition the scratch allocation of the whole output, and the layout refuses any other. */
  lemma LayoutExact(l: Limits, a: Axis, b: Axis, unit: nat, scratch: nat)
    requires a.Valid() && b.Valid()
    ensures Plan(l, a, b).Ok? ==>
              var r := Layout(Plan(l, a, b).value.tiles, unit, scratch);
              && (r.Some? <==> scratch == Area(a.Outputs(), b.Outputs(), unit))
              && (r.Some? ==> Fills(r.value, scratch))
  {
    var columns, stacks := PlanLaid(l, a, b);
    hide Plan, GoodTiles, Axis.Outputs, Area, Layout, Fills;
    if Plan(l, a, b).Ok? {
      StackBytes(a, columns, stacks, unit, 0, b.Outputs());
      LayoutFills(Plan(l, a, b).value.tiles, unit, scratch);
    }
  }
}
