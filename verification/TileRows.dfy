/**
 How a plan cuts its rows, rocket-core/src/conv.rs: which boundaries are moved and where to,
 and how many row tiles stand under each column.
 */
module TileRows {
  import opened Counting
  import opened Text
  import opened Tiling
  import opened TilePlan
  import opened TileGrid

  // ----- how many rows a tile may fetch -----

  /** The rows allowed at a width: those that fit, and that the feature-grain field can count with the kernel. */
  lemma RowsAllowed(l: Limits, a: Axis, inCols: nat, n: nat)
    requires a.Valid()
    ensures n <= MaxRows(l, a, inCols) <==> n <= l.capacity(inCols) && n + a.kernel + a.pad <= MAX_FEATURE_GRAINS
  {
  }

  // ----- where boundaries are moved -----

  /** Boundary `j` stands at the safe row between its neighbours, the one before it moved, nearest to where it was. */
  predicate Settled(l: Limits, a: Axis, bs: seq<nat>, r: seq<nat>, j: nat)
    requires |r| == |bs| && 1 <= j < |bs| - 1
  {
    && r[j - 1] < r[j] < bs[j + 1] && Safe(l, a, r[j])
    && forall c: nat :: r[j - 1] < c < bs[j + 1] && Safe(l, a, c) ==> Nearer(r[j], c, bs[j])
  }

  /** Nearer to `at`, or as near and not above. */
  predicate Nearer(x: nat, y: nat, at: nat) {
    Distance(x, at) < Distance(y, at) || (Distance(x, at) == Distance(y, at) && x <= y)
  }

  /** What one step of the pass does. */
  lemma StepSettles(l: Limits, a: Axis, bs: seq<nat>, i: nat, r: seq<nat>)
    requires Increasing(bs) && 1 <= i < |bs| - 1 && |r| == |bs| && r[i - 1] == bs[i - 1]
    ensures bs[i - 1] + 1 <= bs[i] <= bs[i + 1] - 1
    ensures Settled(l, a, bs, r, i) <==>
            if Safe(l, a, bs[i]) then r[i] == bs[i]
            else Nearest(l, a, bs[i], bs[i - 1] + 1, bs[i + 1] - 1, 1) == Some(r[i])
  {
    Room(bs, i);
    hide Safe, Increasing;
    var lower, upper := bs[i - 1] + 1, bs[i + 1] - 1;
    var n := Nearest(l, a, bs[i], lower, upper, 1);
    if !Safe(l, a, bs[i]) {
      forall c: nat | lower <= c <= upper && Safe(l, a, c) ensures n.Some? && Nearer(n.value, c, bs[i]) {
        NearestSpec(l, a, bs[i], lower, upper, 1, c);
      }
    }
    hide Nearest;
  }

  /**
   The pass over the boundaries succeeds with `r` exactly when every boundary from `i` on is settled
   in it, one after the other; so it moves none that is safe, and no other as far as it need not.
   */
  lemma {:induction false} MoveFromExact(l: Limits, a: Axis, bs: seq<nat>, i: nat, r: seq<nat>)
    requires Increasing(bs) && 1 <= i < |bs| && |r| == |bs|
    requires r[..i] == bs[..i] && r[|bs| - 1] == bs[|bs| - 1]
    ensures MoveFrom(l, a, bs, i) == Some(r) <==> forall j :: i <= j < |bs| - 1 ==> Settled(l, a, bs, r, j)
    decreases |bs| - i
  {
    hide *;
    if i == |bs| - 1 {
      MoveEnds(l, a, bs, r);
    } else if Settled(l, a, bs, r, i) {
      SettledStep(l, a, bs, i, r);
      var moved := bs[i := r[i]];
      MoveFromExact(l, a, moved, i + 1, r);
      SettledSame(l, a, bs, i, r);
    } else {
      MovedStays(l, a, bs, i, r);
    }
  }

  lemma MoveEnds(l: Limits, a: Axis, bs: seq<nat>, r: seq<nat>)
    requires Increasing(bs) && |bs| >= 2 && |r| == |bs|
    requires r[..|bs| - 1] == bs[..|bs| - 1] && r[|bs| - 1] == bs[|bs| - 1]
    ensures MoveFrom(l, a, bs, |bs| - 1) == Some(r)
  {
    var i := |bs| - 1;
    assert r == r[..i] + [r[i]] && bs == bs[..i] + [bs[i]];
  }

  /** A settled boundary is where the step puts it. */
  lemma SettledStep(l: Limits, a: Axis, bs: seq<nat>, i: nat, r: seq<nat>)
    requires Increasing(bs) && 1 <= i < |bs| - 1 && |r| == |bs| && r[..i] == bs[..i]
    requires Settled(l, a, bs, r, i)
    ensures Increasing(bs[i := r[i]]) && MoveFrom(l, a, bs, i) == MoveFrom(l, a, bs[i := r[i]], i + 1)
    ensures r[..i + 1] == bs[i := r[i]][..i + 1]
  {
    assert r[i - 1] == r[..i][i - 1] == bs[..i][i - 1] == bs[i - 1];
    StepSettles(l, a, bs, i, r);
    Room(bs, i);
    hide Safe, Nearest, Increasing;
    Moved(bs, i, r[i]);
    assert r[..i + 1] == r[..i] + [r[i]];
    assert bs[i := r[i]][..i + 1] == bs[..i] + [r[i]];
    if Safe(l, a, bs[i]) {
      assert bs[i := r[i]] == bs;
    }
  }

  /** After one boundary is moved to where it is settled, the later ones are settled alike. */
  lemma SettledSame(l: Limits, a: Axis, bs: seq<nat>, i: nat, r: seq<nat>)
    requires 1 <= i < |bs| - 1 && |r| == |bs| && Settled(l, a, bs, r, i)
    ensures var moved := bs[i := r[i]];
            (forall j :: i + 1 <= j < |moved| - 1 ==> Settled(l, a, moved, r, j)) <==>
            (forall j :: i <= j < |bs| - 1 ==> Settled(l, a, bs, r, j))
  {
    hide Safe;
    var moved := bs[i := r[i]];
    forall j | i < j < |bs| - 1 ensures Settled(l, a, moved, r, j) <==> Settled(l, a, bs, r, j) {
      assert moved[j] == bs[j] && moved[j + 1] == bs[j + 1];
    }
    hide Settled;
  }

  /** A boundary the pass has left behind stays. */
  lemma MovedStays(l: Limits, a: Axis, bs: seq<nat>, i: nat, r: seq<nat>)
    requires Increasing(bs) && 1 <= i < |bs| - 1 && |r| == |bs| && r[..i] == bs[..i] && !Settled(l, a, bs, r, i)
    ensures MoveFrom(l, a, bs, i) != Some(r)
  {
    assert r[i - 1] == r[..i][i - 1] == bs[..i][i - 1] == bs[i - 1];
    StepSettles(l, a, bs, i, r);
    Room(bs, i);
    hide Safe, Nearest, Increasing, Settled;
    if MoveFrom(l, a, bs, i).Some? {
      if Safe(l, a, bs[i]) {
        MoveFromSafe(l, a, bs, i + 1);
      } else {
        var c := Nearest(l, a, bs[i], bs[i - 1] + 1, bs[i + 1] - 1, 1).value;
        Moved(bs, i, c);
        MoveFromSafe(l, a, bs[i := c], i + 1);
      }
    }
  }

  // ----- rows that need no moving -----

  lemma {:induction false} WindowsBack(a: Axis, tiles: seq<Span>, lo: nat)
    requires a.Valid() && Consecutive(tiles, lo, a.Outputs()) && AllBounds(a, tiles)
    ensures Increasing(Boundaries(a, tiles)) && Windows(a, Boundaries(a, tiles)) == tiles
    decreases |tiles|
  {
    hide FromBounds, Axis.Outputs, Ranges;
    BoundariesIncrease(tiles, lo, a.Outputs());
    if tiles != [] {
      var rest := tiles[1..];
      assert forall i :: 0 <= i < |rest| ==> rest[i] == tiles[i + 1];
      BoundariesIncrease(rest, lo + tiles[0].outCount, a.Outputs());
      WindowsBack(a, rest, lo + tiles[0].outCount);
      assert Boundaries(a, tiles) == [lo] + Boundaries(a, rest);
      assert Boundaries(a, tiles)[1..] == Boundaries(a, rest);
      assert tiles == [tiles[0]] + rest;
    }
  }

  /** Tiles that all start at safe rows are left as they are. */
  lemma RealignSafe(l: Limits, a: Axis, tiles: seq<Span>, max: nat)
    requires a.Valid() && Consecutive(tiles, 0, a.Outputs()) && AllBounds(a, tiles) && Within(tiles, max)
    requires forall i :: 0 <= i < |tiles| ==> Safe(l, a, tiles[i].outFirst)
    ensures Realign(l, a, tiles, max) == Some(tiles)
  {
    var bs := Boundaries(a, tiles);
    BoundariesIncrease(tiles, 0, a.Outputs());
    FirstsAt(tiles);
    hide Safe, AllBounds, Axis.Outputs;
    if l.dense && |tiles| > 1 {
      forall j | 1 <= j < |bs| - 1 ensures Settled(l, a, bs, bs, j) {
        assert bs[j - 1] < bs[j] && bs[j + 1 - 1] < bs[j + 1];
        assert bs[j] == tiles[j].outFirst;
      }
      MoveFromExact(l, a, bs, 1, bs);
      WindowsBack(a, tiles, 0);
      hide Settled, Windows;
    }
  }

  lemma {:induction false} FirstsAt(spans: seq<Span>)
    ensures |Firsts(spans)| == |spans| && forall i :: 0 <= i < |spans| ==> Firsts(spans)[i] == spans[i].outFirst
  {
    if spans != [] {
      FirstsAt(spans[1..]);
    }
  }

  /** Surfaces, and dense rows of whole atoms, are fetched from safe addresses wherever a tile starts. */
  predicate WholeAtoms(l: Limits) {
    l.dense ==> l.pitch % FEATURE_ATOM_BYTES == 0
  }

  lemma AtomsSafe(l: Limits, a: Axis, outFirst: nat)
    requires WholeAtoms(l)
    ensures Safe(l, a, outFirst)
  {
    if l.dense {
      var rows, atoms := InFirst(a, outFirst), l.pitch / FEATURE_ATOM_BYTES;
      assert rows * l.pitch == (rows * atoms) * FEATURE_ATOM_BYTES;
    }
  }

  /** Then the row tiles of a column are the greedy ones: one if all rows fit, else as few as any cut. */
  lemma RowTilesGreedy(l: Limits, a: Axis, max: nat)
    requires a.Valid() && WholeAtoms(l)
    ensures RowTiles(l, a, max) == SplitGreedy(a, max)
    ensures RowTiles(l, a, max).Some? <==> RowsFit(a, max)
    ensures RowTiles(l, a, max).Some? ==> FewestTiles(a, RowTiles(l, a, max).value, max)
  {
    SplitExact(a, max);
    SplitWithin(a, max);
    if SplitGreedy(a, max).Some? {
      var tiles := SplitGreedy(a, max).value;
      SplitFewest(a, max, tiles);
      forall i | 0 <= i < |tiles| ensures Safe(l, a, tiles[i].outFirst) {
        AtomsSafe(l, a, tiles[i].outFirst);
      }
      RealignSafe(l, a, tiles, max);
    }
    hide SplitGreedy, Realign, RowsFit, FewestTiles, Safe, Fallback, GoodRows;
  }

  // ----- rows that do -----

  /** The balanced cut into `n` tiles fits, and its boundaries can be moved to safe rows. */
  predicate Usable(l: Limits, a: Axis, max: nat, n: nat)
    requires a.Valid() && 1 <= n <= a.Outputs()
  {
    Within(Split(a, n), max) && Realign(l, a, Split(a, n), max).Some?
  }

  lemma RealignCount(l: Limits, a: Axis, tiles: seq<Span>, max: nat)
    requires a.Valid() && Consecutive(tiles, 0, a.Outputs())
    ensures Realign(l, a, tiles, max).Some? ==> |Realign(l, a, tiles, max).value| == |tiles|
  {
    if l.dense && |tiles| > 1 {
      BoundariesIncrease(tiles, 0, a.Outputs());
      if MoveFrom(l, a, Boundaries(a, tiles), 1).Some? {
        MoveFromSafe(l, a, Boundaries(a, tiles), 1);
      }
    }
  }

  /** `rows` are the balanced tiles of a usable count from `count` on, realigned. */
  predicate UsableRows(l: Limits, a: Axis, max: nat, count: nat, rows: seq<Span>)
    requires a.Valid()
  {
    1 <= count <= |rows| <= a.Outputs() && Usable(l, a, max, |rows|)
    && Realign(l, a, Split(a, |rows|), max) == Some(rows)
  }

  /** The fallback finds the fewest balanced tiles that are usable, or there are none. */
  lemma {:induction false} FallbackFewest(l: Limits, a: Axis, max: nat, count: nat, n: nat)
    requires a.Valid() && 1 <= count <= n <= a.Outputs()
    ensures match Fallback(l, a, max, count)
              case None => !Usable(l, a, max, n)
              case Some(rows) => UsableRows(l, a, max, count, rows) && (n < |rows| ==> !Usable(l, a, max, n))
    decreases a.Outputs() - count
  {
    hide *;
    if Usable(l, a, max, count) {
      FallbackTakes(l, a, max, count);
    } else {
      FallbackPasses(l, a, max, count);
      if count < a.Outputs() {
        FallbackFewest(l, a, max, count + 1, if count < n then n else count + 1);
        var r := Fallback(l, a, max, count + 1);
        if r.Some? {
          UsableFrom(l, a, max, count, r.value);
        }
      } else {
        FallbackEnds(l, a, max);
      }
    }
  }

  lemma UsableFrom(l: Limits, a: Axis, max: nat, count: nat, rows: seq<Span>)
    requires a.Valid() && count >= 1 && UsableRows(l, a, max, count + 1, rows)
    ensures UsableRows(l, a, max, count, rows) && |rows| > count
  {
    hide Usable, Realign, Split, Axis.Outputs;
  }

  lemma FallbackTakes(l: Limits, a: Axis, max: nat, count: nat)
    requires a.Valid() && 1 <= count <= a.Outputs() && Usable(l, a, max, count)
    ensures Fallback(l, a, max, count).Some? && |Fallback(l, a, max, count).value| == count
    ensures UsableRows(l, a, max, count, Fallback(l, a, max, count).value)
  {
    RealignCount(l, a, Split(a, count), max);
    hide Realign, Within, Axis.Outputs, GoodRows, Consecutive, AllBounds, RowSpans, Balanced;
  }

  lemma FallbackPasses(l: Limits, a: Axis, max: nat, count: nat)
    requires a.Valid() && 1 <= count <= a.Outputs() && !Usable(l, a, max, count)
    ensures Fallback(l, a, max, count) == Fallback(l, a, max, count + 1)
  {
    hide Realign, Within, Axis.Outputs, GoodRows, Consecutive, AllBounds, RowSpans, Balanced;
  }

  lemma FallbackEnds(l: Limits, a: Axis, max: nat)
    requires a.Valid()
    ensures Fallback(l, a, max, a.Outputs() + 1) == None
  {
  }

  /**
   Under any pitch a column that can be cut at all gets the greedy tiles with their boundaries moved;
   when they cannot be, the fewest balanced tiles that are usable, if any are.
   */
  lemma RowTilesFewest(l: Limits, a: Axis, max: nat, n: nat)
    requires a.Valid() && 1 <= n <= a.Outputs()
    ensures RowTiles(l, a, max).Some? ==> RowsFit(a, max)
    ensures RowsFit(a, max) ==>
              && SplitGreedy(a, max).Some?
              && (Realign(l, a, SplitGreedy(a, max).value, max).Some? ==>
                    && RowTiles(l, a, max) == Realign(l, a, SplitGreedy(a, max).value, max)
                    && |RowTiles(l, a, max).value| == |SplitGreedy(a, max).value|)
              && (Realign(l, a, SplitGreedy(a, max).value, max).None? ==>
                    match RowTiles(l, a, max)
                    case None => !Usable(l, a, max, n)
                    case Some(rows) => UsableRows(l, a, max, 1, rows) && (n < |rows| ==> !Usable(l, a, max, n)))
  {
    SplitExact(a, max);
    FallbackFewest(l, a, max, 1, n);
    if SplitGreedy(a, max).Some? {
      RealignCount(l, a, SplitGreedy(a, max).value, max);
    }
    hide SplitGreedy, Realign, Usable, Fallback, RowsFit, GoodRows, Within, Axis.Outputs;
  }

  // ----- the tiles of a plan -----

  /** The stacks of row tiles `plan_grid` puts under its columns. */
  predicate Stacks(l: Limits, a: Axis, columns: seq<Span>, stacks: seq<seq<Span>>)
    requires a.Valid()
  {
    |stacks| == |columns| && forall i :: 0 <= i < |columns| ==> StackAt(l, a, columns[i], stacks[i])
  }

  predicate StackAt(l: Limits, a: Axis, column: Span, rows: seq<Span>)
    requires a.Valid()
  {
    column.inCount <= l.maxWidth && RowTiles(l, a, MaxRows(l, a, column.inCount)) == Some(rows)
  }

  lemma {:induction false} GridStacks(l: Limits, a: Axis, columns: seq<Span>) returns (stacks: seq<seq<Span>>)
    requires a.Valid() && GridOf(l, a, columns).Some?
    ensures Stacks(l, a, columns, stacks) && GridOf(l, a, columns).value == Stack(columns, stacks)
  {
    hide RowTiles, MaxRows;
    stacks := [];
    if columns != [] {
      var rows := RowTiles(l, a, MaxRows(l, a, columns[0].inCount)).value;
      var rest := GridStacks(l, a, columns[1..]);
      stacks := [rows] + rest;
      assert stacks[1..] == rest;
      assert forall i :: 1 <= i < |columns| ==> columns[i] == columns[1..][i - 1] && stacks[i] == rest[i - 1];
    }
  }

  lemma {:induction false} PartitionStacks(l: Limits, a: Axis, b: Axis, count: nat)
    returns (columns: seq<Span>, stacks: seq<seq<Span>>)
    requires a.Valid() && b.Valid() && count >= 1
    ensures Partitions(l, a, b, count).Ok? ==> BalancedGrid(l, a, b, Partitions(l, a, b, count).value, columns, stacks)
    decreases b.Outputs() + 1 - count
  {
    hide PlanGrid, Balanced, Sum, Axis.Outputs, Stacks, BalancedGrid;
    columns, stacks := [], [];
    if count <= b.Outputs() {
      BalancedSums(b.Outputs(), count);
      var widths := Balanced(b.Outputs(), count);
      if PlanGrid(l, a, b, widths).Some? {
        columns, stacks := BalancedStacks(l, a, b, count);
      } else {
        columns, stacks := PartitionStacks(l, a, b, count + 1);
      }
    }
  }

  /** Balanced columns, each over the stack `plan_grid` gives it. */
  predicate BalancedGrid(l: Limits, a: Axis, b: Axis, p: ConvPlan, columns: seq<Span>, stacks: seq<seq<Span>>)
    requires a.Valid() && b.Valid()
  {
    && 1 <= |p.widths| <= b.Outputs() && p.widths == Balanced(b.Outputs(), |p.widths|)
    && Positive(p.widths) && Sum(p.widths) == b.Outputs() && columns == ColumnSpans(b, 0, p.widths)
    && Stacks(l, a, columns, stacks) && p.tiles == Stack(columns, stacks)
  }

  lemma BalancedStacks(l: Limits, a: Axis, b: Axis, count: nat) returns (columns: seq<Span>, stacks: seq<seq<Span>>)
    requires a.Valid() && b.Valid() && 1 <= count <= b.Outputs()
    ensures Positive(Balanced(b.Outputs(), count)) && Sum(Balanced(b.Outputs(), count)) == b.Outputs()
    ensures var widths := Balanced(b.Outputs(), count);
            PlanGrid(l, a, b, widths).Some? ==>
              BalancedGrid(l, a, b, ConvPlan(widths, PlanGrid(l, a, b, widths).value), columns, stacks)
  {
    BalancedSums(b.Outputs(), count);
    hide Balanced, Axis.Outputs, GridOf, Stacks;
    var widths := Balanced(b.Outputs(), count);
    columns, stacks := ColumnSpans(b, 0, widths), [];
    if PlanGrid(l, a, b, widths).Some? {
      stacks := GridStacks(l, a, columns);
    }
  }

  /** Captured columns, each over as many balanced row tiles as `MinTiles` says. */
  predicate CapturedGrid(l: Limits, a: Axis, b: Axis, p: ConvPlan, columns: seq<Span>, stacks: seq<seq<Span>>)
    requires a.Valid() && b.Valid()
  {
    && |p.widths| >= 2 && Captured(l, a, b) == Some(p.widths) && Positive(p.widths) && Sum(p.widths) == b.Outputs()
    && columns == ColumnSpans(b, 0, p.widths) && |stacks| == |columns| && p.tiles == Stack(columns, stacks)
    && forall i :: 0 <= i < |columns| ==> stacks[i] == Split(a, MinTiles(l, a, columns[i].inCount))
  }

  lemma {:induction false} CapturedStacks(l: Limits, a: Axis, columns: seq<Span>) returns (stacks: seq<seq<Span>>)
    requires a.Valid()
    ensures |stacks| == |columns| && Grid(l, a, columns) == Stack(columns, stacks)
    ensures forall i :: 0 <= i < |columns| ==> stacks[i] == Split(a, MinTiles(l, a, columns[i].inCount))
  {
    hide Split, MinTiles;
    stacks := [];
    if columns != [] {
      var rest := CapturedStacks(l, a, columns[1..]);
      stacks := [Split(a, MinTiles(l, a, columns[0].inCount))] + rest;
      assert stacks[1..] == rest;
      assert forall i :: 1 <= i < |columns| ==> columns[i] == columns[1..][i - 1] && stacks[i] == rest[i - 1];
    }
  }

  lemma CapturedMany(l: Limits, a: Axis, b: Axis)
    ensures Captured(l, a, b).Some? ==> |Captured(l, a, b).value| >= 2
  {
  }

  /** Every plan is balanced columns over the stacks of the search, or captured ones over balanced stacks. */
  lemma PlanStacks(l: Limits, a: Axis, b: Axis) returns (columns: seq<Span>, stacks: seq<seq<Span>>)
    requires a.Valid() && b.Valid() && Plan(l, a, b).Ok?
    ensures var p := Plan(l, a, b).value;
            BalancedGrid(l, a, b, p, columns, stacks)
            || (!l.dense && CapturedGrid(l, a, b, p, columns, stacks) && GridFits(l, a, p.tiles))
    ensures l.dense || Captured(l, a, b).None? || PlanGrid(l, a, b, [b.Outputs()]).Some? ==>
              BalancedGrid(l, a, b, Plan(l, a, b).value, columns, stacks)
  {
    WholeWidth(b);
    CapturedSum(l, a, b);
    CapturedMany(l, a, b);
    BalancedOne(b.Outputs());
    hide PlanGrid, Captured, Positive, Sum, Axis.Outputs, BalancedGrid, Balanced, Partitions, Stacks, Grid, GridFits;
    if PlanGrid(l, a, b, [b.Outputs()]).Some? {
      columns, stacks := BalancedStacks(l, a, b, 1);
    } else if l.dense {
      columns, stacks := [], [];
    } else {
      match Captured(l, a, b)
      case None => columns, stacks := PartitionStacks(l, a, b, 2);
      case Some(widths) =>
        columns := ColumnSpans(b, 0, widths);
        stacks := CapturedStacks(l, a, columns);
    }
  }

  /**
   Under every column of a plan that is not a captured one the rows are one tile when they all fit in
   what the column's width leaves, else as few as any cut whose grains are charged no more, each but
   the last one filled.
   */
  lemma PlanRows(l: Limits, a: Axis, b: Axis) returns (columns: seq<Span>, stacks: seq<seq<Span>>)
    requires a.Valid() && b.Valid() && Plan(l, a, b).Ok? && WholeAtoms(l)
    requires l.dense || Captured(l, a, b).None? || Plannable(l, a, b, 1)
    ensures BalancedGrid(l, a, b, Plan(l, a, b).value, columns, stacks)
    ensures forall i :: 0 <= i < |columns| ==>
              && |stacks| == |columns| && FewestTiles(a, stacks[i], MaxRows(l, a, columns[i].inCount))
              && (|stacks[i]| > 1 ==> Filled(a, 0, stacks[i], MaxRows(l, a, columns[i].inCount)))
  {
    columns, stacks := PlanStacks(l, a, b);
    if !l.dense {
      PlannableExact(l, a, b, 1);
      BalancedOne(b.Outputs());
      WholeWidth(b);
    }
    hide Plannable, Plan, PlanGrid, ColumnSpans, Balanced, Axis.Outputs, Captured, Stack;
    forall i | 0 <= i < |columns|
      ensures |stacks| == |columns| && FewestTiles(a, stacks[i], MaxRows(l, a, columns[i].inCount))
      ensures |stacks[i]| > 1 ==> Filled(a, 0, stacks[i], MaxRows(l, a, columns[i].inCount))
    {
      assert StackAt(l, a, columns[i], stacks[i]);
      var max := MaxRows(l, a, columns[i].inCount);
      hide MaxRows, FewestTiles, Filled, AllRows;
      RowTilesGreedy(l, a, max);
      SplitFewest(a, max, stacks[i]);
    }
  }

  // ----- when there is a plan -----

  /**
   A dense plan is one column over the whole input row: there is one exactly when that row is no wider
   than the widest and its rows can be cut.  With rows of whole atoms that is when they fit.
   */
  lemma DensePlan(l: Limits, a: Axis, b: Axis)
    requires a.Valid() && b.Valid() && l.dense
    ensures Plan(l, a, b).Ok? <==> b.extent <= l.maxWidth && RowTiles(l, a, MaxRows(l, a, b.extent)).Some?
    ensures WholeAtoms(l) ==>
              (Plan(l, a, b).Ok? <==> b.extent <= l.maxWidth && RowsFit(a, MaxRows(l, a, b.extent)))
    ensures Plan(l, a, b).Ok? ==> Plan(l, a, b).value.widths == [b.Outputs()]
    ensures Plan(l, a, b).Err? ==> Plan(l, a, b).error == NeedsHorizontalTiling
  {
    WholeWidth(b);
    OneColumn(b);
    var column := Span(0, b.Outputs(), 0, b.extent, b.pad);
    assert [column][1..] == [];
    if WholeAtoms(l) {
      RowTilesGreedy(l, a, MaxRows(l, a, b.extent));
    }
    hide RowTiles, RowsFit, MaxRows, Axis.Outputs, ColumnSpans;
    assert GridOf(l, a, [column]).Some? <==>
           b.extent <= l.maxWidth && RowTiles(l, a, MaxRows(l, a, b.extent)).Some?;
  }

  /** One column over the output is the whole input row. */
  lemma OneColumn(b: Axis)
    requires b.Valid()
    ensures Positive([b.Outputs()]) && Sum([b.Outputs()]) == b.Outputs()
    ensures ColumnSpans(b, 0, [b.Outputs()]) == [Span(0, b.Outputs(), 0, b.extent, b.pad)]
  {
    WholeWidth(b);
    OutputsAre(b, 0);
    WholeRow(b, 0, b.Outputs());
    hide Axis.Outputs, FromOutputRange;
    assert [b.Outputs()][1..] == [];
  }

  /** Which refusal a shape without a plan gets. */
  lemma RefusalExact(l: Limits, a: Axis, b: Axis)
    requires a.Valid() && b.Valid() && Plan(l, a, b).Err?
    ensures Plan(l, a, b).error == NeedsHorizontalTiling <==> l.dense
    ensures Plan(l, a, b).error == CapacityExceeded <==> !l.dense && Captured(l, a, b).None?
  {
    WholeWidth(b);
    CapturedSum(l, a, b);
    hide PlanGrid, Captured, Grid, GridFits;
    PartitionsRefuse(l, a, b, 2);
  }

  lemma {:induction false} PartitionsRefuse(l: Limits, a: Axis, b: Axis, count: nat)
    requires a.Valid() && b.Valid() && count >= 1
    ensures Partitions(l, a, b, count).Err? ==> Partitions(l, a, b, count).error == CapacityExceeded
    decreases b.Outputs() + 1 - count
  {
    hide PlanGrid, Balanced, Axis.Outputs;
    if count <= b.Outputs() {
      PartitionsRefuse(l, a, b, count + 1);
    }
  }

  /** A shape with captured columns that does not fit in one is planned exactly when its captured tiles are good. */
  lemma CapturedExact(l: Limits, a: Axis, b: Axis)
    requires a.Valid() && b.Valid() && !l.dense && Captured(l, a, b).Some? && !Plannable(l, a, b, 1)
    ensures Plan(l, a, b).Ok? <==>
              (CapturedSum(l, a, b);
               GoodTiles(l, a, b, Grid(l, a, ColumnSpans(b, 0, Captured(l, a, b).value))))
  {
    WholeWidth(b);
    CapturedSum(l, a, b);
    PlannableExact(l, a, b, 1);
    BalancedOne(b.Outputs());
    var columns := ColumnSpans(b, 0, Captured(l, a, b).value);
    hide PlanGrid, Captured, Grid, Axis.Outputs, Balanced, Plannable;
    var tiles := Grid(l, a, columns);
    if GridFits(l, a, tiles) {
      GridGood(l, a, b, columns);
    }
    if GoodTiles(l, a, b, tiles) {
      GoodFits(l, a, b, tiles);
    }
    hide GridFits, GoodTiles;
  }

  lemma GoodFits(l: Limits, a: Axis, b: Axis, tiles: seq<Tile2D>)
    requires a.Valid() && b.Valid() && GoodTiles(l, a, b, tiles)
    ensures GridFits(l, a, tiles)
  {
    hide Safe, Tiling.Holds, Axis.Outputs;
    assert forall i :: 0 <= i < |tiles| ==> GoodTile(l, a, b, tiles[i]);
  }

  /** The shapes with captured columns: 256 by 32 at stride one with default padding, by kernel and input channels. */
  lemma CapturedTable(l: Limits, a: Axis, b: Axis)
    ensures Captured(l, a, b).Some? <==>
              exists k | k == 9 || k == 11 :: (l.focus == Some(64) || (k == 11 && l.focus == Some(48)))
                && a == Axis(32, k, k / 2, 1) && b == Axis(256, k, k / 2, 1)
    ensures Captured(l, a, b).Some? ==>
              Captured(l, a, b).value == (if a.kernel == 9 then [135, 121] else if l.focus == Some(48) then [137, 119]
                                          else [59, 54, 54, 54, 35])
  {
  }

  /**
   The row tiles of a captured column: with `r` rows beyond the kernel's halo, as many output rows to a
   tile as the strides in `r` rows, and as few tiles as then reach the last output.
   */
  lemma MinTilesLeast(l: Limits, a: Axis, inCols: nat, r: nat, each: nat, n: nat)
    requires a.Valid() && each >= 1
    requires r == Max(SatSub(MaxRows(l, a, inCols) + 1, a.kernel), 1) && (each - 1) * a.stride < r <= each * a.stride
    ensures MinTiles(l, a, inCols) <= n <==> a.Outputs() <= n * each
  {
    hide MaxRows, Axis.Outputs;
    CeilIs(r, a.stride, each);
    CeilLeast(a.Outputs(), each, n);
  }

  lemma CeilLeast(x: nat, y: nat, n: nat)
    requires y >= 1
    ensures DivCeil(x, y) <= n <==> x <= n * y
  {
    var q, m := DivCeil(x, y), (x + y - 1) % y;
    assert x + y - 1 == q * y + m;
    if q <= n {
      Grows(q, n, y);
    } else {
      Grows(n + 1, q, y);
      assert (n + 1) * y == n * y + y;
    }
  }

  lemma CeilIs(x: nat, y: nat, q: nat)
    requires y >= 1 && q >= 1 && (q - 1) * y < x <= q * y
    ensures DivCeil(x, y) == q
  {
    CeilLeast(x, y, q);
    CeilLeast(x, y, q - 1);
  }
}
