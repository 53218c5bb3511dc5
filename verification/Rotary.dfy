/**
 The index arithmetic behind `wrap_rank3_rotary_embedding` of tools/import_onnx.py: a
 row-major [batch, seq, heads*head_size] tensor rotated head by head.
 */
module Rotary {
  import opened Counting

  /** A tensor: its shape and its elements in row-major order. */
  datatype Tensor<E> = Tensor(shape: seq<nat>, data: seq<E>)

  // ----- row-major positions -----

  /** The position of (b, x, y, d) in a row-major [B, X, Y, H] tensor. */
  function Position(b: nat, x: nat, y: nat, d: nat, X: nat, Y: nat, H: nat): nat {
    ((b * X + x) * Y + y) * H + d
  }

  function Volume(B: nat, X: nat, Y: nat, H: nat): nat {
    B * X * Y * H
  }

  lemma DivMod(q: nat, r: nat, k: nat)
    requires r < k
    ensures (q * k + r) / k == q && (q * k + r) % k == r
  {
    var x := q * k + r;
    var p, m := x / k, x % k;
    assert x == p * k + m;
    if p < q {
      Gap(p, q, k);
    } else if q < p {
      Gap(q, p, k);
    }
  }

  lemma Gap(a: nat, b: nat, k: nat)
    requires a < b
    ensures a * k + k <= b * k
  {
    assert (a + 1) * k <= b * k by {
      Grows(a + 1, b, k);
    }
    assert (a + 1) * k == a * k + k;
  }

  lemma Below(q: nat, r: nat, Q: nat, k: nat)
    requires q < Q && r < k
    ensures q * k + r < Q * k
  {
    Gap(q, Q, k);
  }

  /** A position in range comes from its coordinates, which are in range. */
  lemma Coordinates(b: nat, x: nat, y: nat, d: nat, B: nat, X: nat, Y: nat, H: nat)
    requires b < B && x < X && y < Y && d < H
    ensures var i := Position(b, x, y, d, X, Y, H);
            && i < Volume(B, X, Y, H) && H > 0 && Y > 0 && X > 0
            && i % H == d && i / H % Y == y && i / H / Y % X == x && i / H / Y / X == b
  {
    Below(b, x, B, X);
    Below(b * X + x, y, B * X, Y);
    Below((b * X + x) * Y + y, d, B * X * Y, H);
    DivMod((b * X + x) * Y + y, d, H);
    DivMod(b * X + x, y, Y);
    DivMod(b, x, X);
  }

  lemma DivBelow(i: nat, Q: nat, k: nat)
    requires i < Q * k
    ensures k > 0 && i / k < Q
  {
    assert k != 0;
    assert i == i / k * k + i % k;
    if i / k >= Q {
      Grows(Q, i / k, k);
    }
  }

  /** Every position below the volume has coordinates in range. */
  lemma Located(i: nat, B: nat, X: nat, Y: nat, H: nat) returns (b: nat, x: nat, y: nat, d: nat)
    requires i < Volume(B, X, Y, H)
    ensures b < B && x < X && y < Y && d < H && i == Position(b, x, y, d, X, Y, H)
    ensures b == i / H / Y / X && x == i / H / Y % X && y == i / H % Y && d == i % H
  {
    DivBelow(i, B * X * Y, H);
    DivBelow(i / H, B * X, Y);
    DivBelow(i / H / Y, B, X);
    b, x, y, d := i / H / Y / X, i / H / Y % X, i / H % Y, i % H;
    assert i == i / H * H + d;
    assert i / H == i / H / Y * Y + y;
    assert i / H / Y == b * X + x;
  }

  // ----- the operators -----

  /** Where element `i` of the [B, Y, X, H] transpose comes from in the [B, X, Y, H] tensor. */
  function Source(i: nat, B: nat, X: nat, Y: nat, H: nat): (j: nat)
    requires i < Volume(B, Y, X, H)
    ensures j < Volume(B, X, Y, H)
  {
    var (b, y, x, d) := Split(i, B, Y, X, H);
    Coordinates(b, x, y, d, B, X, Y, H);
    Position(b, x, y, d, X, Y, H)
  }

  /** The coordinates of a position. */
  function Split(i: nat, B: nat, X: nat, Y: nat, H: nat): (r: (nat, nat, nat, nat))
    requires i < Volume(B, X, Y, H)
    ensures r.0 < B && r.1 < X && r.2 < Y && r.3 < H && i == Position(r.0, r.1, r.2, r.3, X, Y, H)
  {
    assert H > 0 && Y > 0 && X > 0 by {
      var b, x, y, d := Located(i, B, X, Y, H);
    }
    var r := (i / H / Y / X, i / H / Y % X, i / H % Y, i % H);
    assert r.0 < B && r.1 < X && r.2 < Y && r.3 < H && i == Position(r.0, r.1, r.2, r.3, X, Y, H) by {
      var b, x, y, d := Located(i, B, X, Y, H);
    }
    r
  }

  lemma SplitIs(b: nat, x: nat, y: nat, d: nat, B: nat, X: nat, Y: nat, H: nat)
    requires b < B && x < X && y < Y && d < H
    ensures Position(b, x, y, d, X, Y, H) < Volume(B, X, Y, H)
    ensures Split(Position(b, x, y, d, X, Y, H), B, X, Y, H) == (b, x, y, d)
  {
    Coordinates(b, x, y, d, B, X, Y, H);
  }

  predicate Rank4<E>(t: Tensor<E>) {
    |t.shape| == 4 && |t.data| == Volume(t.shape[0], t.shape[1], t.shape[2], t.shape[3])
  }

  lemma VolumeSwaps(B: nat, X: nat, Y: nat, H: nat)
    ensures Volume(B, X, Y, H) == Volume(B, Y, X, H)
  {
    assert B * X * Y == B * Y * X;
  }

  /** `Transpose perm=[0, 2, 1, 3]` */
  function Transpose0213<E>(t: Tensor<E>): (r: Tensor<E>)
    requires Rank4(t)
    ensures Rank4(r) && r.shape == [t.shape[0], t.shape[2], t.shape[1], t.shape[3]]
  {
    var (B, X, Y, H) := (t.shape[0], t.shape[1], t.shape[2], t.shape[3]);
    VolumeSwaps(B, X, Y, H);
    Tensor([B, Y, X, H], seq(|t.data|, i requires 0 <= i < |t.data| => t.data[Source(i, B, X, Y, H)]))
  }

  /** The element at (b, x, y, d) goes to (b, y, x, d). */
  lemma TransposeAt<E>(t: Tensor<E>, b: nat, x: nat, y: nat, d: nat)
    requires Rank4(t) && b < t.shape[0] && x < t.shape[1] && y < t.shape[2] && d < t.shape[3]
    ensures var (B, X, Y, H) := (t.shape[0], t.shape[1], t.shape[2], t.shape[3]);
            && Position(b, x, y, d, X, Y, H) < |t.data|
            && Position(b, y, x, d, Y, X, H) < |Transpose0213(t).data|
            && Transpose0213(t).data[Position(b, y, x, d, Y, X, H)] == t.data[Position(b, x, y, d, X, Y, H)]
  {
    var (B, X, Y, H) := (t.shape[0], t.shape[1], t.shape[2], t.shape[3]);
    SplitIs(b, x, y, d, B, X, Y, H);
    SplitIs(b, y, x, d, B, Y, X, H);
  }

  /** The second transpose undoes the first. */
  lemma TransposeTwice<E>(t: Tensor<E>)
    requires Rank4(t)
    ensures Transpose0213(Transpose0213(t)) == t
  {
    var (B, X, Y, H) := (t.shape[0], t.shape[1], t.shape[2], t.shape[3]);
    var u := Transpose0213(t);
    var v := Transpose0213(u);
    forall i | 0 <= i < |t.data| ensures v.data[i] == t.data[i] {
      var (b, x, y, d) := Split(i, B, X, Y, H);
      TransposeAt(t, b, x, y, d);
      TransposeAt(u, b, y, x, d);
    }
    VolumeSwaps(B, X, Y, H);
  }

  // ----- rotation -----

  /** Rotates one head vector of batch entry `b` by the position at sequence index `s`. */
  type Rotation<!E> = (nat, nat, seq<E>) -> seq<E>

  /** The head vector that holds element `i`. */
  function Head<E>(data: seq<E>, i: nat, H: nat): (v: seq<E>)
    requires H > 0 && |data| % H == 0 && i < |data|
    ensures |v| == H
  {
    HeadInside(|data|, i, H);
    var start := i / H * H;
    data[start..start + H]
  }

  lemma HeadInside(n: nat, i: nat, H: nat)
    requires H > 0 && n % H == 0 && i < n
    ensures 0 <= i / H * H && i / H * H + H <= n
  {
    assert n == n / H * H;
    DivBelow(i, n / H, H);
    Gap(i / H, n / H, H);
  }

  lemma VolumeHeads(B: nat, X: nat, Y: nat, H: nat)
    requires H > 0
    ensures Volume(B, X, Y, H) % H == 0
  {
    DivMod(B * X * Y, 0, H);
  }

  /** Rank-4 `RotaryEmbedding` on [batch, heads, seq, head_size]. */
  function Rope4<E(!new)>(t: Tensor<E>, rot: Rotation<E>): (r: Tensor<E>)
    requires Rank4(t) && t.shape[3] > 0
    requires forall b, s, v :: |rot(b, s, v)| == |v|
    ensures Rank4(r) && r.shape == t.shape
  {
    var (B, N, S, H) := (t.shape[0], t.shape[1], t.shape[2], t.shape[3]);
    VolumeHeads(B, N, S, H);
    Tensor(t.shape, seq(|t.data|, i requires 0 <= i < |t.data| =>
      var (b, n, s, d) := Split(i, B, N, S, H);
      rot(b, s, Head(t.data, i, H))[d]))
  }

  /** Rank-3 `RotaryEmbedding` on [batch, seq, heads*head_size], as it is meant. */
  function Rope3<E(!new)>(t: Tensor<E>, rot: Rotation<E>, N: nat, H: nat): (r: Tensor<E>)
    requires |t.shape| == 3 && H > 0 && |t.data| == Volume(t.shape[0], t.shape[1], N, H)
    requires forall b, s, v :: |rot(b, s, v)| == |v|
  {
    var (B, S) := (t.shape[0], t.shape[1]);
    VolumeHeads(B, S, N, H);
    Tensor(t.shape, seq(|t.data|, i requires 0 <= i < |t.data| =>
      var (b, s, n, d) := Split(i, B, S, N, H);
      rot(b, s, Head(t.data, i, H))[d]))
  }

  /** The start of the head vector of (b, x, y, d) is (b, x, y, 0). */
  lemma HeadStart(b: nat, x: nat, y: nat, d: nat, X: nat, Y: nat, H: nat)
    requires d < H
    ensures Position(b, x, y, d, X, Y, H) / H * H == Position(b, x, y, 0, X, Y, H)
  {
    DivMod((b * X + x) * Y + y, d, H);
  }

  /** The transposed head vector of (b, n, s) is the original one of (b, s, n). */
  lemma HeadMoves<E>(t: Tensor<E>, b: nat, s: nat, n: nat, d: nat)
    requires Rank4(t) && b < t.shape[0] && s < t.shape[1] && n < t.shape[2] && d < t.shape[3]
    ensures var (B, S, N, H) := (t.shape[0], t.shape[1], t.shape[2], t.shape[3]);
            var i, j := Position(b, s, n, d, S, N, H), Position(b, n, s, d, N, S, H);
            && i < |t.data| && j < |Transpose0213(t).data| && |t.data| % H == 0
            && |Transpose0213(t).data| % H == 0
            && Head(Transpose0213(t).data, j, H) == Head(t.data, i, H)
  {
    var (B, S, N, H) := (t.shape[0], t.shape[1], t.shape[2], t.shape[3]);
    var u := Transpose0213(t);
    var i, j := Position(b, s, n, d, S, N, H), Position(b, n, s, d, N, S, H);
    TransposeAt(t, b, s, n, d);
    VolumeHeads(B, S, N, H);
    VolumeHeads(B, N, S, H);
    var v, w := Head(u.data, j, H), Head(t.data, i, H);
    forall e | 0 <= e < H ensures v[e] == w[e] {
      TransposeAt(t, b, s, n, e);
      HeadAt(t.data, b, s, n, d, e, S, N, H);
      HeadAt(u.data, b, n, s, d, e, N, S, H);
    }
  }

  lemma HeadAt<E>(data: seq<E>, b: nat, x: nat, y: nat, d: nat, e: nat, X: nat, Y: nat, H: nat)
    requires d < H && e < H && |data| % H == 0 && Position(b, x, y, d, X, Y, H) < |data|
    ensures Position(b, x, y, e, X, Y, H) < |data|
    ensures Head(data, Position(b, x, y, d, X, Y, H), H)[e] == data[Position(b, x, y, e, X, Y, H)]
  {
    HeadStart(b, x, y, d, X, Y, H);
    HeadInside(|data|, Position(b, x, y, d, X, Y, H), H);
  }

  /**
   Reshape to [B, S, N, H], transpose, rotate at rank 4, transpose back, reshape back:
   exactly the rank-3 rotation, for every shape.
   */
  lemma WrapIsRope3<E(!new)>(t: Tensor<E>, rot: Rotation<E>, N: nat, H: nat)
    requires |t.shape| == 3 && H > 0 && |t.data| == Volume(t.shape[0], t.shape[1], N, H)
    requires forall b, s, v :: |rot(b, s, v)| == |v|
    ensures var split := Tensor([t.shape[0], t.shape[1], N, H], t.data);
            Tensor(t.shape, Transpose0213(Rope4(Transpose0213(split), rot)).data) == Rope3(t, rot, N, H)
  {
    var (B, S) := (t.shape[0], t.shape[1]);
    var split := Tensor([B, S, N, H], t.data);
    var rotated := Rope4(Transpose0213(split), rot);
    var back := Transpose0213(rotated);
    VolumeSwaps(B, S, N, H);
    forall i | 0 <= i < |t.data| ensures back.data[i] == Rope3(t, rot, N, H).data[i] {
      var (b, s, n, d) := Split(i, B, S, N, H);
      TransposeAt(rotated, b, n, s, d);
      HeadMoves(split, b, s, n, d);
      SplitIs(b, n, s, d, B, N, S, H);
    }
  }

  // ----- the reshape without a transpose -----

  /**
   Reading the row-major buffer as [B, N, S, H] without moving it, the element of true
   sequence index s and head n stands at sequence index (N*s + n) mod S.
   */
  lemma ReshapeVisits(b: nat, s: nat, n: nat, d: nat, B: nat, S: nat, N: nat, H: nat)
    requires b < B && s < S && n < N && d < H
    ensures var i := Position(b, s, n, d, S, N, H);
            i < Volume(B, N, S, H) && Split(i, B, N, S, H).2 == (N * s + n) % S
  {
    var i := Position(b, s, n, d, S, N, H);
    Coordinates(b, s, n, d, B, S, N, H);
    VolumeSwaps(B, S, N, H);
    DivMod((b * S + s) * N + n, d, H);
    assert i / H == (b * S + s) * N + n;
    assert (b * S + s) * N + n == (N * s + n) + b * N * S;
    AddMultiple(N * s + n, b * N, S);
  }

  lemma AddMultiple(a: nat, m: nat, k: nat)
    requires k > 0
    ensures (a + m * k) % k == a % k
  {
    assert a == a / k * k + a % k;
    assert a + m * k == (a / k + m) * k + a % k;
    DivMod(a / k + m, a % k, k);
  }
}
