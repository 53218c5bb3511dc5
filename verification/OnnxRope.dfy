/**
 Wrapping a rank-3 `RotaryEmbedding` in reshapes and transposes around its rank-4 form
 keeps what a graph computes and keeps it a graph.
 */
module OnnxRope {
  import opened Text
  import opened Counting
  import opened Onnx
  import opened Rotary
  import opened OnnxSkip

  /** A tensor, or the list of extents a reshape reads. */
  datatype Value<E> = Data(tensor: Tensor<E>) | Dims(dims: seq<int>)

  // ----- the laws of the operators -----

  function Product(dims: seq<nat>): nat {
    if dims == [] then 1 else Product(dims[..|dims| - 1]) * dims[|dims| - 1]
  }

  lemma ProductThree(a: nat, b: nat, c: nat)
    ensures Product([a, b, c]) == a * b * c
  {
    assert [a, b, c][..2] == [a, b] && [a, b][..1] == [a] && [a][..0] == [];
    assert Product([a]) == a && Product([a, b]) == a * b;
  }

  lemma ProductFour(a: nat, b: nat, c: nat, d: nat)
    ensures Product([a, b, c, d]) == Volume(a, b, c, d)
  {
    ProductThree(a, b, c);
    assert [a, b, c, d][..3] == [a, b, c];
  }

  /** A zero extent copies the input's extent at its place, so it must stand for zero. */
  predicate ZerosCopy(dims: seq<nat>, shape: seq<nat>) {
    forall i :: 0 <= i < |dims| && dims[i] == 0 ==> i < |shape| && shape[i] == 0
  }

  ghost predicate ReshapeAt<E>(sem: Semantics<Value<E>>, t: Tensor<E>, dims: seq<nat>) {
    Product(dims) == |t.data| && ZerosCopy(dims, t.shape) ==>
      sem(RESHAPE, "", [], [Some(Data(t)), Some(Dims(dims))]) == [Data(Tensor(dims, t.data))]
  }

  ghost predicate TransposeLaw<E>(sem: Semantics<Value<E>>, t: Tensor<E>) {
    Rank4(t) ==> sem(TRANSPOSE, "", PERM, [Some(Data(t))]) == [Data(Transpose0213(t))]
  }

  /** The rotation a node's attributes, positions and caches select. */
  type Angle<!E> = (string, seq<Attribute>, seq<Option<Value<E>>>) -> Rotation<E>

  /** The size of the heads the node's attributes select, whatever part of each head the caches reach. */
  type HeadSize<!E> = (string, seq<Attribute>, seq<Option<Value<E>>>) -> nat

  /** Twice the width of the cosine cache, the second input after the data. */
  predicate HeadSizeIs<E>(rest: seq<Option<Value<E>>>, H: nat) {
    && |rest| >= 2 && rest[1].Some? && rest[1].value.Data?
    && var shape := rest[1].value.tensor.shape; |shape| == 2 && 2 * shape[1] == H
  }

  ghost predicate Keeps<E(!new)>(rot: Rotation<E>) {
    forall b, s, v :: |rot(b, s, v)| == |v|
  }

  /** Rank 3: every head of every sequence index is turned by that index's rotation. */
  ghost predicate Rank3At<E(!new)>(sem: Semantics<Value<E>>, angle: Angle<E>, size: HeadSize<E>, n: Node,
                                   rest: seq<Option<Value<E>>>, t: Tensor<E>, N: nat, H: nat) {
    var rot := angle(n.domain, n.attributes, rest);
    Keeps(rot) && H == size(n.domain, n.attributes, rest) && H > 0 && |t.shape| == 3 && t.shape[2] == N * H
    && |t.data| == Volume(t.shape[0], t.shape[1], N, H) ==>
      sem(ROPE, n.domain, n.attributes, [Some(Data(t))] + rest) == [Data(Rope3(t, rot, N, H))]
  }

  ghost predicate Rank4At<E(!new)>(sem: Semantics<Value<E>>, angle: Angle<E>, n: Node, rest: seq<Option<Value<E>>>,
                                   t: Tensor<E>) {
    var rot := angle(n.domain, n.attributes, rest);
    Keeps(rot) && Rank4(t) && t.shape[3] > 0 && HeadSizeIs(rest, t.shape[3]) ==>
      sem(ROPE, n.domain, n.attributes, [Some(Data(t))] + rest) == [Data(Rope4(t, rot))]
  }

  ghost predicate RopeLaws<E(!new)>(sem: Semantics<Value<E>>, angle: Angle<E>, size: HeadSize<E>) {
    && (forall t: Tensor<E>, dims: seq<nat> :: ReshapeAt(sem, t, dims))
    && (forall t: Tensor<E> :: TransposeLaw(sem, t))
    && (forall n: Node, rest: seq<Option<Value<E>>> :: Keeps(angle(n.domain, n.attributes, rest)))
    && (forall n: Node, rest: seq<Option<Value<E>>>, t: Tensor<E>, N: nat, H: nat ::
          Rank3At(sem, angle, size, n, rest, t, N, H))
    && (forall n: Node, rest: seq<Option<Value<E>>>, t: Tensor<E> :: Rank4At(sem, angle, n, rest, t))
  }

  /** Operators that meet the laws, for any rotation that keeps lengths. */
  ghost function Operators<E(!new)>(angle: Angle<E>, size: HeadSize<E>): Semantics<Value<E>> {
    (op: string, dom: string, attrs: seq<Attribute>, args: seq<Option<Value<E>>>) =>
      if args == [] || args[0].None? || args[0].value.Dims? then []
      else
        var t := args[0].value.tensor;
        if op == RESHAPE && |args| == 2 && args[1].Some? && args[1].value.Dims? then ReshapeTo(t, args[1].value.dims)
        else if op == TRANSPOSE && Rank4(t) then [Data(Transpose0213(t))]
        else if op == ROPE then Rotate(t, angle(dom, attrs, args[1..]), size(dom, attrs, args[1..]))
        else []
  }

  ghost function ReshapeTo<E>(t: Tensor<E>, dims: seq<int>): seq<Value<E>> {
    if forall i :: 0 <= i < |dims| ==> dims[i] >= 0 then [Data(Tensor(dims, t.data))] else []
  }

  ghost function Rotate<E(!new)>(t: Tensor<E>, rot: Rotation<E>, H: nat): seq<Value<E>> {
    if !Keeps(rot) then []
    else if H > 0 && |t.shape| == 3 && |t.data| == Volume(t.shape[0], t.shape[1], t.shape[2] / H, H) then
      [Data(Rope3(t, rot, t.shape[2] / H, H))]
    else if Rank4(t) && t.shape[3] > 0 then [Data(Rope4(t, rot))]
    else []
  }

  lemma LawsMet<E(!new)>(angle: Angle<E>, size: HeadSize<E>)
    requires forall n: Node, rest: seq<Option<Value<E>>> :: Keeps(angle(n.domain, n.attributes, rest))
    ensures RopeLaws(Operators(angle, size), angle, size)
  {
    var sem := Operators(angle, size);
    assert |RESHAPE| == 7 && |TRANSPOSE| == 9 && |ROPE| == 15;
    forall t: Tensor<E>, dims: seq<nat> ensures ReshapeAt(sem, t, dims) {
      var args := [Some(Data(t)), Some(Dims(dims))];
      assert sem(RESHAPE, "", [], args) == ReshapeTo(t, dims);
    }
    forall n: Node, rest: seq<Option<Value<E>>>, t: Tensor<E>, N: nat, H: nat
      ensures Rank3At(sem, angle, size, n, rest, t, N, H)
    {
      if H > 0 && |t.shape| == 3 && t.shape[2] == N * H {
        DivMod(N, 0, H);
      }
      var args := [Some(Data(t))] + rest;
      assert args[1..] == rest;
      assert sem(ROPE, n.domain, n.attributes, args) ==
             Rotate(t, angle(n.domain, n.attributes, rest), size(n.domain, n.attributes, rest));
    }
    forall n: Node, rest: seq<Option<Value<E>>>, t: Tensor<E> ensures Rank4At(sem, angle, n, rest, t) {
      var args := [Some(Data(t))] + rest;
      assert args[1..] == rest;
      assert sem(ROPE, n.domain, n.attributes, args) ==
             Rotate(t, angle(n.domain, n.attributes, rest), size(n.domain, n.attributes, rest));
    }
  }

  // ----- the generated names -----

  /** A suffix starts with `_rop`, and nothing later in it does. */
  lemma SuffixStarts(role: Role, k: nat)
    requires k + 3 < |Suffix(role)|
    ensures Suffix(role)[k] == '_' && Suffix(role)[k + 3] == 'p' <==> k == 0
  {
    var s := Suffix(role);
    assert s[0] == '_' && s[1] == 'r' && s[2] == 'o' && s[3] == 'p' && s[4] == 'e' && s[5] == '_';
    assert s[6] != '_' && s[7] != '_' && s[8] != '_' && s[8] != 'p' && s[9] != '_';
    assert |s| > 10 ==> s[10] != '_';
    assert |s| > 14 ==> s[11] == '_' && s[12] != '_' && s[13] != '_' && s[14] == 'a';
  }

  lemma ShorterSuffix(t1: string, r1: Role, t2: string, r2: Role)
    requires Named(t1, r1) == Named(t2, r2)
    ensures |Suffix(r1)| >= |Suffix(r2)|
  {
    var s1, s2 := Suffix(r1), Suffix(r2);
    if |s1| < |s2| {
      var k := |s2| - |s1|;
      var all := Named(t1, r1);
      assert |s1| >= 10;
      assert all[|t1|] == s1[0] && all[|t1| + 3] == s1[3];
      assert all[|t2| + k] == s2[k] && all[|t2| + k + 3] == s2[k + 3];
      SuffixStarts(r1, 0);
      SuffixStarts(r2, k);
    }
  }

  /** Different tags or roles make different names. */
  lemma NamesApart(t1: string, r1: Role, t2: string, r2: Role)
    requires Named(t1, r1) == Named(t2, r2)
    ensures t1 == t2 && r1 == r2
  {
    ShorterSuffix(t1, r1, t2, r2);
    ShorterSuffix(t2, r2, t1, r1);
    var all, s1, s2 := Named(t1, r1), Suffix(r1), Suffix(r2);
    assert t1 == all[..|t1|] && s1 == all[|t1|..];
    assert t2 == all[..|t2|] && s2 == all[|t2|..];
    assert s1[6] == s2[6] && s1[7] == s2[7];
  }

  lemma NameIsNew(tag: string, role: Role)
    ensures Named(tag, role) != tag && Named(tag, role) != ""
  {
    assert |Suffix(role)| >= 10;
  }

  // ----- the graphs -----

  /** The names made up for one wrapped node. */
  function MadeOf(tag: string): set<string> {
    set role: Role :: Named(tag, role)
  }

  /** The results among them. */
  function Inner(tag: string): set<string> {
    {Named(tag, SplitData), Named(tag, PermutedData), Named(tag, RotatedData), Named(tag, UnpermutedData)}
  }

  function Tags(nodes: seq<Node>, shapes: Shapes): seq<string>
    requires AllRopesIndexable(nodes, shapes)
  {
    if nodes == [] then []
    else (if Wrapped(nodes[0], shapes).Some? then [nodes[0].outputs[0]] else []) + Tags(nodes[1..], shapes)
  }

  function Made(tags: seq<string>): set<string> {
    if tags == [] then {} else MadeOf(tags[0]) + Made(tags[1..])
  }

  /** The made-up names are neither read nor written by the graph. */
  predicate New(nodes: seq<Node>, made: set<string>) {
    nodes != [] ==> Reads(nodes[0].inputs, made) && made !! Elements(nodes[0].outputs) && New(nodes[1..], made)
  }

  /** The value is a tensor of the shape the importer was told. */
  predicate HasShape<E>(v: Option<Value<E>>, dims: seq<int>) {
    && v.Some? && v.value.Data? && v.value.tensor.shape == dims
    && |v.value.tensor.data| == Product(v.value.tensor.shape)
  }

  /**
   Along the run, the data and cosine cache of every wrapped node have their known shapes, and its
   heads are twice as wide as the cosine cache: the rotation reaches whole heads.
   */
  ghost predicate ShapesHold<E>(sem: Semantics<Value<E>>, nodes: seq<Node>, env: Env<Value<E>>, shapes: Shapes,
                                 size: HeadSize<E>)
    decreases |nodes|
  {
    nodes != [] ==>
      && (Wrapped(nodes[0], shapes).Some? ==>
            && HasShape(Lookup(env, nodes[0].inputs[0]), shapes[nodes[0].inputs[0]])
            && HasShape(Lookup(env, nodes[0].inputs[2]), shapes[nodes[0].inputs[2]])
            && WholeHeads(nodes[0], Wrapped(nodes[0], shapes).value, env, size))
      && ShapesHold(sem, nodes[1..], RunNode(sem, nodes[0], env), shapes, size)
  }

  /** The node's heads are as wide as the pass takes them to be. */
  predicate WholeHeads<E>(n: Node, x: Extents, env: Env<Value<E>>, size: HeadSize<E>)
    requires |n.inputs| >= 1
  {
    size(n.domain, n.attributes, Args(env, n.inputs[1..])) == x.headSize
  }

  /** Binds the shape constants, as initializers do before a run. */
  function WithConstants<E>(env: Env<Value<E>>, constants: seq<Sized>): Env<Value<E>>
    decreases |constants|
  {
    if constants == [] then env else WithConstants(env[constants[0].name := Dims(constants[0].dims)], constants[1..])
  }

  // ----- one node of the chain -----

  lemma StepReshape<E(!new)>(sem: Semantics<Value<E>>, angle: Angle<E>, size: HeadSize<E>, env: Env<Value<E>>,
                             x: string, c: string, out: string, t: Tensor<E>, dims: seq<nat>)
    requires RopeLaws(sem, angle, size) && out != ""
    requires Lookup(env, x) == Some(Data(t)) && Lookup(env, c) == Some(Dims(dims))
    requires Product(dims) == |t.data| && ZerosCopy(dims, t.shape)
    ensures RunNode(sem, Node(RESHAPE, [x, c], [out], "", [], ""), env) == env[out := Data(Tensor(dims, t.data))]
  {
    ArgsTwo(env, x, c);
    assert ReshapeAt(sem, t, dims);
    BindOne(env, out, Data(Tensor(dims, t.data)));
  }

  lemma StepTranspose<E(!new)>(sem: Semantics<Value<E>>, angle: Angle<E>, size: HeadSize<E>, env: Env<Value<E>>,
                               x: string, out: string, t: Tensor<E>)
    requires RopeLaws(sem, angle, size) && out != ""
    requires Lookup(env, x) == Some(Data(t)) && Rank4(t)
    ensures RunNode(sem, Node(TRANSPOSE, [x], [out], "", PERM, ""), env) == env[out := Data(Transpose0213(t))]
  {
    ArgsOne(env, x);
    assert TransposeLaw(sem, t);
    BindOne(env, out, Data(Transpose0213(t)));
  }

  lemma StepRope<E(!new)>(sem: Semantics<Value<E>>, angle: Angle<E>, size: HeadSize<E>, env: Env<Value<E>>, n: Node,
                          x: string, inputs: seq<string>, out: string, t: Tensor<E>)
    requires RopeLaws(sem, angle, size) && out != ""
    requires n.op == ROPE && n.inputs == [x] + inputs && n.outputs == [out]
    requires Lookup(env, x) == Some(Data(t)) && Rank4(t) && t.shape[3] > 0
    requires HeadSizeIs(Args(env, inputs), t.shape[3])
    ensures Keeps(angle(n.domain, n.attributes, Args(env, inputs)))
    ensures RunNode(sem, n, env) == env[out := Data(Rope4(t, angle(n.domain, n.attributes, Args(env, inputs))))]
  {
    var rest := Args(env, inputs);
    assert n.inputs[1..] == inputs;
    assert Rank4At(sem, angle, n, rest, t);
    assert Keeps(angle(n.domain, n.attributes, rest));
    BindOne(env, out, Data(Rope4(t, angle(n.domain, n.attributes, rest))));
  }

  // ----- the whole chain -----

  lemma RunFive<T>(sem: Semantics<T>, m1: Node, m2: Node, m3: Node, m4: Node, m5: Node, env: Env<T>)
    ensures Run(sem, [m1, m2, m3, m4, m5], env) ==
            RunNode(sem, m5, RunNode(sem, m4, RunNode(sem, m3, RunNode(sem, m2, RunNode(sem, m1, env)))))
  {
    var e1 := RunNode(sem, m1, env);
    var e2 := RunNode(sem, m2, e1);
    assert [m1, m2, m3, m4, m5][1..] == [m2, m3, m4, m5] && [m2, m3, m4, m5][1..] == [m3, m4, m5];
    assert [m3, m4, m5][1..] == [m4, m5];
    assert Run(sem, [m1, m2, m3, m4, m5], env) == Run(sem, [m2, m3, m4, m5], e1);
    assert Run(sem, [m2, m3, m4, m5], e1) == Run(sem, [m3, m4, m5], e2);
    assert Run(sem, [m3, m4, m5], e2) == Run(sem, [m4, m5], RunNode(sem, m3, e2));
    RunTwo(sem, m4, m5, RunNode(sem, m3, e2));
  }

  /** The extents of a wrapped node, read off the shapes of its data and cosine cache. */
  lemma ExtentsOf<E>(n: Node, shapes: Shapes, t: Tensor<E>, c: Tensor<E>) returns (B: nat, S: nat, N: nat, H: nat)
    requires Wrapped(n, shapes).Some?
    requires HasShape(Some(Data(t)), shapes[n.inputs[0]]) && HasShape(Some(Data(c)), shapes[n.inputs[2]])
    ensures Wrapped(n, shapes) == Some(Extents(B, S, N, H)) && H > 0
    ensures t.shape == [B, S, N * H] && |t.data| == Volume(B, S, N, H)
    ensures |c.shape| == 2 && 2 * c.shape[1] == H
    ensures Product([B, S, N, H]) == |t.data| == Product([B, S, N * H])
    ensures ZerosCopy([B, S, N, H], t.shape) && ZerosCopy([B, S, N * H], [B, S, N, H])
  {
    B, S, H := t.shape[0], t.shape[1], 2 * c.shape[1];
    var hidden := t.shape[2];
    N := hidden / H;
    assert hidden == N * H;
    assert t.shape == [B, S, hidden];
    ProductThree(B, S, hidden);
    ProductFour(B, S, N, H);
    assert B * S * (N * H) == B * S * N * H;
    if N > 0 {
      Grows(1, N, H);
    }
  }

  /** An environment with the results of a chain bound. */
  function ChainEnv<T>(b: Env<T>, tag: string, v1: T, v2: T, v3: T, v4: T, v: T): Env<T> {
    b[Named(tag, SplitData) := v1][Named(tag, PermutedData) := v2]
     [Named(tag, RotatedData) := v3][Named(tag, UnpermutedData) := v4][tag := v]
  }

  lemma ChainEnvHolds<T>(b: Env<T>, tag: string, v1: T, v2: T, v3: T, v4: T, v: T)
    requires tag != ""
    ensures var e := ChainEnv(b, tag, v1, v2, v3, v4, v);
            && Lookup(e, tag) == Some(v)
            && Lookup(e, Named(tag, SplitData)) == Some(v1) && Lookup(e, Named(tag, PermutedData)) == Some(v2)
            && Lookup(e, Named(tag, RotatedData)) == Some(v3) && Lookup(e, Named(tag, UnpermutedData)) == Some(v4)
            && forall x :: x != tag && x !in Inner(tag) ==> Lookup(e, x) == Lookup(b, x)
  {
    hide Named;
    Distinct(tag);
  }

  lemma MergeKept<T>(b: Env<T>, tag: string, v1: T, v2: T, v3: T, v4: T)
    ensures Lookup(b[Named(tag, SplitData) := v1][Named(tag, PermutedData) := v2]
                    [Named(tag, RotatedData) := v3][Named(tag, UnpermutedData) := v4], Named(tag, MergeShape)) ==
            Lookup(b, Named(tag, MergeShape))
  {
    hide Named;
    Distinct(tag);
  }

  /** The chain leaves the rank-3 rotation under the node's own name. */
  lemma ChainRuns<E(!new)>(sem: Semantics<Value<E>>, angle: Angle<E>, size: HeadSize<E>, n: Node, b: Env<Value<E>>,
                           t: Tensor<E>, c: Tensor<E>, B: nat, S: nat, N: nat, H: nat)
    returns (v1: Value<E>, v2: Value<E>, v3: Value<E>, v4: Value<E>)
    requires RopeLaws(sem, angle, size) && n.op == ROPE && |n.inputs| >= 3 && |n.outputs| >= 1 && n.outputs[0] != ""
    requires Reads(n.inputs, MadeOf(n.outputs[0]))
    requires H > 0 && t.shape == [B, S, N * H] && |t.data| == Volume(B, S, N, H)
    requires |c.shape| == 2 && 2 * c.shape[1] == H
    requires Product([B, S, N, H]) == |t.data| == Product([B, S, N * H])
    requires ZerosCopy([B, S, N, H], t.shape) && ZerosCopy([B, S, N * H], [B, S, N, H])
    requires Lookup(b, n.inputs[0]) == Some(Data(t)) && Lookup(b, n.inputs[2]) == Some(Data(c))
    requires Lookup(b, Named(n.outputs[0], SplitShape)) == Some(Dims([B, S, N, H]))
    requires Lookup(b, Named(n.outputs[0], MergeShape)) == Some(Dims([B, S, N * H]))
    ensures Keeps(angle(n.domain, n.attributes, Args(b, n.inputs[1..])))
    ensures var tag, rot := n.outputs[0], angle(n.domain, n.attributes, Args(b, n.inputs[1..]));
            Run(sem, WrapChain(n), b) ==
            ChainEnv(b, tag, v1, v2, v3, v4, Data(Rope3(t, rot, N, H)))
    ensures HasShape(Some(v1), [B, S, N, H]) && HasShape(Some(v2), [B, N, S, H])
    ensures HasShape(Some(v3), [B, N, S, H]) && HasShape(Some(v4), [B, S, N, H])
  {
    hide Named, RopeLaws, Rope3, Rope4, Transpose0213, Run;
    var tag, rest := n.outputs[0], Args(b, n.inputs[1..]);
    var chain := WrapChain(n);
    ProductFour(B, N, S, H);
    ProductFour(B, S, N, H);
    hide Product;
    var t1 := Tensor([B, S, N, H], t.data);
    var t2 := Transpose0213(t1);
    var e1 := b[Named(tag, SplitData) := Data(t1)];
    var e2 := e1[Named(tag, PermutedData) := Data(t2)];
    NameIsNew(tag, SplitData);
    NameIsNew(tag, PermutedData);
    NameIsNew(tag, RotatedData);
    NameIsNew(tag, UnpermutedData);
    StepReshape(sem, angle, size, b, n.inputs[0], Named(tag, SplitShape), Named(tag, SplitData), t, [B, S, N, H]);
    StepTranspose(sem, angle, size, e1, Named(tag, SplitData), Named(tag, PermutedData), t1);
    assert n.inputs[1..][1] == n.inputs[2];
    ArgsAt(b, n.inputs[1..], 1);
    ArgsAgree(b, e2, MadeOf(tag), n.inputs[1..]);
    StepRope(sem, angle, size, e2, chain[2], Named(tag, PermutedData), n.inputs[1..], Named(tag, RotatedData), t2);
    hide Args, Reads;
    var rot := angle(n.domain, n.attributes, rest);
    var t3 := Rope4(t2, rot);
    var e3 := e2[Named(tag, RotatedData) := Data(t3)];
    StepTranspose(sem, angle, size, e3, Named(tag, RotatedData), Named(tag, UnpermutedData), t3);
    var t4 := Transpose0213(t3);
    var e4 := e3[Named(tag, UnpermutedData) := Data(t4)];
    MergeKept(b, tag, Data(t1), Data(t2), Data(t3), Data(t4));
    StepReshape(sem, angle, size, e4, Named(tag, UnpermutedData), Named(tag, MergeShape), tag, t4, [B, S, N * H]);
    WrapIsRope3(t, rot, N, H);
    RunFive(sem, chain[0], chain[1], chain[2], chain[3], chain[4], b);
    assert chain == [chain[0], chain[1], chain[2], chain[3], chain[4]];
    v1, v2, v3, v4 := Data(t1), Data(t2), Data(t3), Data(t4);
  }

  lemma Distinct(tag: string)
    ensures forall r1, r2 :: Named(tag, r1) == Named(tag, r2) ==> r1 == r2
    ensures forall role :: Named(tag, role) != tag && Named(tag, role) != ""
  {
    hide Named;
    forall r1, r2 | Named(tag, r1) == Named(tag, r2) ensures r1 == r2 {
      NamesApart(tag, r1, tag, r2);
    }
    forall role ensures Named(tag, role) != tag && Named(tag, role) != "" {
      NameIsNew(tag, role);
    }
  }

  lemma {:induction false} ArgsAt<T>(env: Env<T>, inputs: seq<string>, i: nat)
    requires i < |inputs|
    ensures |Args(env, inputs)| == |inputs| && Args(env, inputs)[i] == Lookup(env, inputs[i])
  {
    if i > 0 {
      ArgsAt(env, inputs[1..], i - 1);
    } else if |inputs| > 1 {
      ArgsAt(env, inputs[1..], 0);
    }
  }

  // ----- heads wider than the rotation -----

  /** A partial rotation: it turns the first `R` elements of a head and keeps the others. */
  ghost predicate TurnsFirst<E(!new)>(rot: Rotation<E>, R: nat) {
    Keeps(rot) && forall b, s, v, i :: R <= i < |v| ==> rot(b, s, v)[i] == v[i]
  }

  /** Rotating heads of `R` elements is rotating heads of `H`, for every tensor and every such rotation. */
  ghost predicate SameHeads<E(!new)>(B: nat, S: nat, N: nat, H: nat, M: nat, R: nat)
    requires H > 0 && R > 0 && N * H == M * R
  {
    forall t: Tensor<E>, rot: Rotation<E> ::
      TurnsFirst(rot, R) && t.shape == [B, S, N * H] && |t.data| == Volume(B, S, N, H) == Volume(B, S, M, R) ==>
        Rope3(t, rot, M, R) == Rope3(t, rot, N, H)
  }

  function Marking<E>(R: nat, y: E): Rotation<E> {
    (b: nat, s: nat, v: seq<E>) => seq(|v|, i requires 0 <= i < |v| => if i < R then y else v[i])
  }

  lemma MarkingTurns<E(!new)>(R: nat, y: E)
    ensures TurnsFirst(Marking(R, y), R)
  {
  }

  lemma SameVolume(B: nat, S: nat, N: nat, H: nat, M: nat, R: nat)
    requires N * H == M * R
    ensures Volume(B, S, N, H) == Volume(B, S, M, R)
  {
    assert B * S * N * H == B * S * (N * H);
    assert B * S * M * R == B * S * (M * R);
  }

  lemma FirstHead(B: nat, S: nat, N: nat, H: nat, R: nat)
    requires B > 0 && S > 0 && N > 0 && R < H
    ensures R < Volume(B, S, N, H) && R / H == 0 && Split(R, B, S, N, H) == (0, 0, 0, R)
  {
    Grows(1, B * S * N, H);
    Coordinates(0, 0, 0, R, B, S, N, H);
    SplitIs(0, 0, 0, R, B, S, N, H);
  }

  /**
   Splitting the hidden extent into heads of `R` elements, twice the cosine width, keeps the rank-3
   rotation of heads of `H` for every tensor and every rotation of that width if and only if the heads
   are that wide: otherwise the element behind the turned part of the first head is turned as well.
   */
  lemma PartialExact<E(!new)>(B: nat, S: nat, N: nat, H: nat, M: nat, R: nat, x: E, y: E)
    requires B > 0 && S > 0 && N > 0 && H >= R > 0 && N * H == M * R && x != y
    ensures SameHeads<E>(B, S, N, H, M, R) <==> H == R
  {
    if H == R {
      SameCount(N, M, R);
    } else {
      var t := Tensor([B, S, N * H], seq(Volume(B, S, N, H), i => x));
      var rot := Marking(R, y);
      MarkingTurns(R, y);
      SameVolume(B, S, N, H, M, R);
      FirstHead(B, S, N, H, R);
      Wide(t, rot, N, H, R, x);
      Narrow(t, rot, M, R, R, y);
      assert Rope3(t, rot, M, R).data[R] != Rope3(t, rot, N, H).data[R];
      assert Rope3(t, rot, M, R) != Rope3(t, rot, N, H);
    }
  }

  lemma SameCount(N: nat, M: nat, R: nat)
    requires N * R == M * R && R > 0
    ensures N == M
  {
    DivMod(N, 0, R);
    DivMod(M, 0, R);
  }

  /** Behind the turned part of its head an element stays. */
  lemma Wide<E(!new)>(t: Tensor<E>, rot: Rotation<E>, N: nat, H: nat, R: nat, x: E)
    requires |t.shape| == 3 && H > 0 && |t.data| == Volume(t.shape[0], t.shape[1], N, H) && R < |t.data| && R < H
    requires TurnsFirst(rot, R) && (forall i :: 0 <= i < |t.data| ==> t.data[i] == x)
    requires Split(R, t.shape[0], t.shape[1], N, H) == (0, 0, 0, R)
    ensures Rope3(t, rot, N, H).data[R] == x
  {
    VolumeHeads(t.shape[0], t.shape[1], N, H);
    HeadInside(|t.data|, R, H);
    var v := Head(t.data, R, H);
    assert v[R] == x;
  }

  /** In heads of `R` elements every element is turned. */
  lemma Narrow<E(!new)>(t: Tensor<E>, rot: Rotation<E>, M: nat, R: nat, i: nat, y: E)
    requires |t.shape| == 3 && R > 0 && |t.data| == Volume(t.shape[0], t.shape[1], M, R) && i < |t.data|
    requires rot == Marking(R, y) && Keeps(rot)
    ensures Rope3(t, rot, M, R).data[i] == y
  {
    VolumeHeads(t.shape[0], t.shape[1], M, R);
    HeadInside(|t.data|, i, R);
    var (b, s, n, d) := Split(i, t.shape[0], t.shape[1], M, R);
    assert d < R;
    var v := Head(t.data, i, R);
    assert rot(b, s, v)[d] == y;
  }

  /**
   One wrapped node, with heads of any size: its chain gives the value of the node exactly when
   rotating heads of twice the cosine width is rotating the node's own heads.
   */
  lemma WrapExact<E(!new)>(sem: Semantics<Value<E>>, angle: Angle<E>, size: HeadSize<E>, n: Node, shapes: Shapes,
                           env: Env<Value<E>>, N: nat)
    requires RopeLaws(sem, angle, size) && RopeIndexable(n, shapes) && Wrapped(n, shapes).Some? && n.outputs[0] != ""
    requires Reads(n.inputs, MadeOf(n.outputs[0]))
    requires HasShape(Lookup(env, n.inputs[0]), shapes[n.inputs[0]])
    requires HasShape(Lookup(env, n.inputs[2]), shapes[n.inputs[2]])
    requires Lookup(env, Named(n.outputs[0], SplitShape)) == Some(Dims(Wrapped(n, shapes).value.Split()))
    requires Lookup(env, Named(n.outputs[0], MergeShape)) == Some(Dims(Wrapped(n, shapes).value.Merged()))
    requires var H := size(n.domain, n.attributes, Args(env, n.inputs[1..]));
             H > 0 && N * H == Wrapped(n, shapes).value.heads * Wrapped(n, shapes).value.headSize
    ensures var t, x := Lookup(env, n.inputs[0]).value.tensor, Wrapped(n, shapes).value;
            var rot, H := angle(n.domain, n.attributes, Args(env, n.inputs[1..])),
                          size(n.domain, n.attributes, Args(env, n.inputs[1..]));
            && Keeps(rot) && |t.shape| == 3 && x.heads >= 0 && x.headSize > 0
            && |t.data| == Volume(t.shape[0], t.shape[1], N, H) == Volume(t.shape[0], t.shape[1], x.heads, x.headSize)
            && (Lookup(Run(sem, WrapChain(n), env), n.outputs[0]) == Lookup(RunNode(sem, n, env), n.outputs[0]) <==>
                Rope3(t, rot, x.heads, x.headSize) == Rope3(t, rot, N, H))
  {
    hide Named, ChainEnv, RopeLaws, WrapChain, RunNode, Run, Rope3, Product, Volume, Args;
    var tag := n.outputs[0];
    var t, c := Lookup(env, n.inputs[0]).value.tensor, Lookup(env, n.inputs[2]).value.tensor;
    var B, S, M, R := ExtentsOf(n, shapes, t, c);
    assert n.op == ROPE && |n.inputs| >= 3;
    hide Wrapped;
    var H := size(n.domain, n.attributes, Args(env, n.inputs[1..]));
    SameVolume(B, S, N, H, M, R);
    var v1, v2, v3, v4 := ChainRuns(sem, angle, size, n, env, t, c, B, S, M, R);
    NodeRotates(sem, angle, size, n, env, t, N, H);
    var rot := angle(n.domain, n.attributes, Args(env, n.inputs[1..]));
    ChainEnvHolds(env, tag, v1, v2, v3, v4, Data(Rope3(t, rot, M, R)));
  }

  // ----- the whole graph -----

  /** The shape constants of every wrapped node are bound. */
  predicate Bound<E(==)>(nodes: seq<Node>, shapes: Shapes, env: Env<Value<E>>)
    requires AllRopesIndexable(nodes, shapes)
  {
    nodes != [] ==>
      && (match Wrapped(nodes[0], shapes)
            case Some(x) =>
              && Lookup(env, Named(nodes[0].outputs[0], SplitShape)) == Some(Dims(x.Split()))
              && Lookup(env, Named(nodes[0].outputs[0], MergeShape)) == Some(Dims(x.Merged()))
            case None => true)
      && Bound(nodes[1..], shapes, env)
  }

  /** A wrapped node and its chain agree outside the made-up names. */
  lemma ChainAgrees<E(!new)>(sem: Semantics<Value<E>>, angle: Angle<E>, size: HeadSize<E>, n: Node, shapes: Shapes,
                             a: Env<Value<E>>, b: Env<Value<E>>, made: set<string>)
    requires RopeLaws(sem, angle, size) && Agree(a, b, made)
    requires RopeIndexable(n, shapes) && Wrapped(n, shapes).Some? && n.outputs[0] != ""
    requires MadeOf(n.outputs[0]) <= made && Reads(n.inputs, made)
    requires HasShape(Lookup(a, n.inputs[0]), shapes[n.inputs[0]])
    requires HasShape(Lookup(a, n.inputs[2]), shapes[n.inputs[2]])
    requires WholeHeads(n, Wrapped(n, shapes).value, a, size)
    requires Lookup(b, Named(n.outputs[0], SplitShape)) == Some(Dims(Wrapped(n, shapes).value.Split()))
    requires Lookup(b, Named(n.outputs[0], MergeShape)) == Some(Dims(Wrapped(n, shapes).value.Merged()))
    ensures Agree(RunNode(sem, n, a), Run(sem, WrapChain(n), b), made)
    ensures forall x ::
              x != n.outputs[0] &&
              x !in Inner(n.outputs[0])
              ==> Lookup(Run(sem, WrapChain(n), b), x) == Lookup(b, x)
    ensures forall s :: s in ChainTypes(n.outputs[0], Wrapped(n, shapes).value) ==>
                          HasShape(Lookup(Run(sem, WrapChain(n), b), s.name), s.dims)
  {
    hide Named, ChainEnv, RopeLaws, WrapChain, RunNode, Run, Rope3, Product, Volume, Args;
    var tag := n.outputs[0];
    var t, c := Lookup(a, n.inputs[0]).value.tensor, Lookup(a, n.inputs[2]).value.tensor;
    var B, S, N, H := ExtentsOf(n, shapes, t, c);
    assert n.op == ROPE && |n.inputs| >= 3;
    hide Wrapped;
    var v1, v2, v3, v4 := ChainRuns(sem, angle, size, n, b, t, c, B, S, N, H);
    ArgsAgree(a, b, made, n.inputs[1..]);
    NodeRotates(sem, angle, size, n, a, t, N, H);
    var rot := angle(n.domain, n.attributes, Args(b, n.inputs[1..]));
    ChainEnvHolds(b, tag, v1, v2, v3, v4, Data(Rope3(t, rot, N, H)));
  }

  /** The original node: the rank-3 rotation under its own name. */
  lemma NodeRotates<E(!new)>(sem: Semantics<Value<E>>, angle: Angle<E>, size: HeadSize<E>, n: Node, a: Env<Value<E>>,
                             t: Tensor<E>, N: nat, H: nat)
    requires RopeLaws(sem, angle, size) && n.op == ROPE && |n.inputs| >= 3 && |n.outputs| >= 1 && n.outputs[0] != ""
    requires Lookup(a, n.inputs[0]) == Some(Data(t)) && H == size(n.domain, n.attributes, Args(a, n.inputs[1..]))
    requires H > 0 && |t.shape| == 3 && t.shape[2] == N * H && |t.data| == Volume(t.shape[0], t.shape[1], N, H)
    ensures var rot := angle(n.domain, n.attributes, Args(a, n.inputs[1..]));
            Keeps(rot) && RunNode(sem, n, a) == a[n.outputs[0] := Data(Rope3(t, rot, N, H))]
  {
    var rest := Args(a, n.inputs[1..]);
    var rot := angle(n.domain, n.attributes, rest);
    assert Keeps(rot);
    assert Rank3At(sem, angle, size, n, rest, t, N, H);
    OneResult(a, n.outputs, Data(Rope3(t, rot, N, H)));
  }

  lemma OneResult<T>(env: Env<T>, outputs: seq<string>, v: T)
    requires outputs != [] && outputs[0] != ""
    ensures Bind(env, outputs, [v]) == env[outputs[0] := v]
  {
    assert [v][1..] == [];
    assert Bind(env, outputs, [v]) == Bind(env[outputs[0] := v], outputs[1..], []);
  }

  predicate SameConstants<E(==)>(tag: string, b: Env<Value<E>>, b': Env<Value<E>>) {
    && Lookup(b', Named(tag, SplitShape)) == Lookup(b, Named(tag, SplitShape))
    && Lookup(b', Named(tag, MergeShape)) == Lookup(b, Named(tag, MergeShape))
  }

  lemma {:induction false} BoundKept<E>(nodes: seq<Node>, shapes: Shapes, b: Env<Value<E>>, b': Env<Value<E>>)
    requires AllRopesIndexable(nodes, shapes) && Bound(nodes, shapes, b)
    requires forall tag :: tag in Tags(nodes, shapes) ==> SameConstants(tag, b, b')
    ensures Bound(nodes, shapes, b')
  {
    hide Named;
    if nodes != [] {
      TagsStep(nodes, shapes);
      BoundKept(nodes[1..], shapes, b, b');
      assert Wrapped(nodes[0], shapes).Some? ==> SameConstants(nodes[0].outputs[0], b, b');
    }
  }

  lemma TagsStep(nodes: seq<Node>, shapes: Shapes)
    requires nodes != [] && AllRopesIndexable(nodes, shapes)
    ensures if Wrapped(nodes[0], shapes).Some? then
              && Tags(nodes, shapes) == [nodes[0].outputs[0]] + Tags(nodes[1..], shapes)
              && Made(Tags(nodes, shapes)) == MadeOf(nodes[0].outputs[0]) + Made(Tags(nodes[1..], shapes))
              && (NoDuplicates(Tags(nodes, shapes)) ==>
                    nodes[0].outputs[0] !in Tags(nodes[1..], shapes) && NoDuplicates(Tags(nodes[1..], shapes)))
            else Tags(nodes, shapes) == Tags(nodes[1..], shapes)
  {
    if Wrapped(nodes[0], shapes).Some? {
      assert Tags(nodes, shapes)[1..] == Tags(nodes[1..], shapes);
    }
  }

  lemma {:induction false} MadeHas(tags: seq<string>, tag: string)
    requires tag in tags
    ensures MadeOf(tag) <= Made(tags)
  {
    hide Named;
    if tags[0] != tag {
      MadeHas(tags[1..], tag);
    }
  }

  lemma Apart(own: string, role: Role, tag: string)
    requires own != tag
    ensures Named(own, role) !in MadeOf(tag)
  {
    hide Named;
    forall r ensures Named(own, role) != Named(tag, r) {
      if Named(own, role) == Named(tag, r) {
        NamesApart(own, role, tag, r);
      }
    }
  }

  /** Running a chain keeps the constants of the other wrapped nodes. */
  lemma ChainKeepsBound<E>(rest: seq<Node>, shapes: Shapes, tag: string, b: Env<Value<E>>, b': Env<Value<E>>,
                           made: set<string>)
    requires AllRopesIndexable(rest, shapes) && Bound(rest, shapes, b)
    requires tag !in Tags(rest, shapes) && Made(Tags(rest, shapes)) <= made && tag !in made
    requires forall x :: x != tag && x !in Inner(tag) ==>
                           Lookup(b', x) == Lookup(b, x)
    ensures Bound(rest, shapes, b')
  {
    hide Named;
    forall own | own in Tags(rest, shapes) ensures SameConstants(own, b, b') {
      MadeHas(Tags(rest, shapes), own);
      Apart(own, SplitShape, tag);
      Apart(own, MergeShape, tag);
      assert Named(own, SplitShape) in MadeOf(own) && Named(own, MergeShape) in MadeOf(own);
    }
    BoundKept(rest, shapes, b, b');
  }

  /** A node that writes no made-up name keeps the constants. */
  lemma NodeKeepsBound<E>(sem: Semantics<Value<E>>, n: Node, rest: seq<Node>, shapes: Shapes, b: Env<Value<E>>,
                          made: set<string>)
    requires AllRopesIndexable(rest, shapes) && Bound(rest, shapes, b)
    requires Made(Tags(rest, shapes)) <= made && made !! Elements(n.outputs)
    ensures Bound(rest, shapes, RunNode(sem, n, b))
  {
    hide Named;
    var b' := RunNode(sem, n, b);
    forall own | own in Tags(rest, shapes) ensures SameConstants(own, b, b') {
      MadeHas(Tags(rest, shapes), own);
      assert Named(own, SplitShape) in MadeOf(own) && Named(own, MergeShape) in MadeOf(own);
      var results := sem(n.op, n.domain, n.attributes, Args(b, n.inputs));
      BindElsewhere(b, n.outputs, results, Named(own, SplitShape));
      BindElsewhere(b, n.outputs, results, Named(own, MergeShape));
    }
    BoundKept(rest, shapes, b, b');
  }

  lemma {:induction false} BindElsewhere<T>(env: Env<T>, outputs: seq<string>, results: seq<T>, x: string)
    requires x !in outputs
    ensures Lookup(Bind(env, outputs, results), x) == Lookup(env, x)
    decreases |outputs|
  {
    if outputs != [] && results != [] {
      BindElsewhere(if outputs[0] == "" then env else env[outputs[0] := results[0]], outputs[1..], results[1..], x);
    }
  }

  lemma {:induction false} WrapAgrees<E(!new)>(sem: Semantics<Value<E>>, angle: Angle<E>, size: HeadSize<E>,
                                               nodes: seq<Node>, shapes: Shapes, a: Env<Value<E>>,
                                               b: Env<Value<E>>, made: set<string>)
    requires RopeLaws(sem, angle, size) && Agree(a, b, made)
    requires AllRopesIndexable(nodes, shapes) && New(nodes, made) && Made(Tags(nodes, shapes)) <= made
    requires NoDuplicates(Tags(nodes, shapes)) && "" !in Tags(nodes, shapes)
    requires ShapesHold(sem, nodes, a, shapes, size) && Bound(nodes, shapes, b)
    ensures Agree(Run(sem, nodes, a), Run(sem, WrapAll(nodes, shapes), b), made)
    decreases |nodes|
  {
    hide Named;
    if nodes != [] {
      var n, rest := nodes[0], nodes[1..];
      var a', b' := RunNode(sem, n, a), Run(sem, WrapNode(n, shapes), b);
      TagsStep(nodes, shapes);
      if Wrapped(n, shapes).Some? {
        assert n.outputs[0] in Elements(n.outputs);
        ChainAgrees(sem, angle, size, n, shapes, a, b, made);
        ChainKeepsBound(rest, shapes, n.outputs[0], b, b', made);
      } else {
        NodeAgrees(sem, n, a, b, made);
        RunOne(sem, n, b);
        NodeKeepsBound(sem, n, rest, shapes, b, made);
      }
      WrapAgrees(sem, angle, size, rest, shapes, a', b', made);
      RunConcat(sem, WrapNode(n, shapes), WrapAll(rest, shapes), b);
    }
  }

  // ----- the constants before the run -----

  lemma {:induction false} ConstantsElsewhere<E>(env: Env<Value<E>>, nodes: seq<Node>, shapes: Shapes, x: string)
    requires AllRopesIndexable(nodes, shapes)
    requires forall tag :: tag in Tags(nodes, shapes) ==> x != Named(tag, SplitShape) && x != Named(tag, MergeShape)
    ensures Lookup(WithConstants(env, Constants(nodes, shapes)), x) == Lookup(env, x)
    decreases |nodes|
  {
    hide Named;
    if nodes != [] {
      TagsStep(nodes, shapes);
      ConstantsElsewhere(ConstantsStep(env, nodes, shapes), nodes[1..], shapes, x);
    }
  }

  /** The environment after the constants of the first node. */
  function ConstantsStep<E>(env: Env<Value<E>>, nodes: seq<Node>, shapes: Shapes): (r: Env<Value<E>>)
    requires nodes != [] && AllRopesIndexable(nodes, shapes)
    ensures WithConstants(env, Constants(nodes, shapes)) == WithConstants(r, Constants(nodes[1..], shapes))
  {
    match Wrapped(nodes[0], shapes)
    case None =>
      assert Constants(nodes, shapes) == Constants(nodes[1..], shapes);
      env
    case Some(x) =>
      var cs, later := ChainConstants(nodes[0].outputs[0], x), Constants(nodes[1..], shapes);
      assert (cs + later)[1..] == [cs[1]] + later && ([cs[1]] + later)[1..] == later;
      env[cs[0].name := Dims(cs[0].dims)][cs[1].name := Dims(cs[1].dims)]
  }

  lemma {:induction false} ConstantsBound<E>(env: Env<Value<E>>, nodes: seq<Node>, shapes: Shapes)
    requires AllRopesIndexable(nodes, shapes) && NoDuplicates(Tags(nodes, shapes))
    ensures Bound(nodes, shapes, WithConstants(env, Constants(nodes, shapes)))
    decreases |nodes|
  {
    hide Named;
    if nodes != [] {
      TagsStep(nodes, shapes);
      var first := ConstantsStep(env, nodes, shapes);
      ConstantsBound(first, nodes[1..], shapes);
      if Wrapped(nodes[0], shapes).Some? {
        var tag := nodes[0].outputs[0];
        Distinct(tag);
        forall other | other in Tags(nodes[1..], shapes)
          ensures Named(tag, SplitShape) !in MadeOf(other) && Named(tag, MergeShape) !in MadeOf(other)
        {
          Apart(tag, SplitShape, other);
          Apart(tag, MergeShape, other);
        }
        ConstantsElsewhere(first, nodes[1..], shapes, Named(tag, SplitShape));
        ConstantsElsewhere(first, nodes[1..], shapes, Named(tag, MergeShape));
      }
    }
  }

  /** The added constants touch only made-up names. */
  lemma ConstantsAgree<E(!new)>(env: Env<Value<E>>, nodes: seq<Node>, shapes: Shapes)
    requires AllRopesIndexable(nodes, shapes)
    ensures Agree(env, WithConstants(env, Constants(nodes, shapes)), Made(Tags(nodes, shapes)))
  {
    hide Named;
    forall x | x !in Made(Tags(nodes, shapes))
      ensures Lookup(env, x) == Lookup(WithConstants(env, Constants(nodes, shapes)), x)
    {
      forall tag | tag in Tags(nodes, shapes) ensures x != Named(tag, SplitShape) && x != Named(tag, MergeShape) {
        MadeHas(Tags(nodes, shapes), tag);
        assert Named(tag, SplitShape) in MadeOf(tag) && Named(tag, MergeShape) in MadeOf(tag);
      }
      ConstantsElsewhere(env, nodes, shapes, x);
    }
  }

  /**
   With the added shape constants bound, the wrapped graph gives every name it did not make
   up the value it had: the rank-3 rotation, at every sequence index and head.
   */
  lemma WrapPreserves<E(!new)>(sem: Semantics<Value<E>>, angle: Angle<E>, size: HeadSize<E>, nodes: seq<Node>,
                               shapes: Shapes, env: Env<Value<E>>, name: string)
    requires RopeLaws(sem, angle, size) && AllRopesIndexable(nodes, shapes)
    requires NoDuplicates(Tags(nodes, shapes)) && "" !in Tags(nodes, shapes)
    requires New(nodes, Made(Tags(nodes, shapes))) && ShapesHold(sem, nodes, env, shapes, size)
    requires name !in Made(Tags(nodes, shapes))
    ensures Lookup(Run(sem, WrapAll(nodes, shapes), WithConstants(env, Constants(nodes, shapes))), name) ==
            Lookup(Run(sem, nodes, env), name)
  {
    hide Named;
    ConstantsAgree(env, nodes, shapes);
    ConstantsBound(env, nodes, shapes);
    WrapAgrees(sem, angle, size, nodes, shapes, env, WithConstants(env, Constants(nodes, shapes)),
               Made(Tags(nodes, shapes)));
  }

  // ----- the declared types -----

  /** No node writes `x`. */
  predicate Unwritten(nodes: seq<Node>, x: string) {
    nodes != [] ==> x !in nodes[0].outputs && Unwritten(nodes[1..], x)
  }

  lemma {:induction false} RunElsewhere<T>(sem: Semantics<T>, nodes: seq<Node>, env: Env<T>, x: string)
    requires Unwritten(nodes, x)
    ensures Lookup(Run(sem, nodes, env), x) == Lookup(env, x)
    decreases |nodes|
  {
    if nodes != [] {
      BindElsewhere(env, nodes[0].outputs, sem(nodes[0].op, nodes[0].domain, nodes[0].attributes,
                                               Args(env, nodes[0].inputs)), x);
      RunElsewhere(sem, nodes[1..], RunNode(sem, nodes[0], env), x);
    }
  }

  lemma {:induction false} UnwrittenConcat(a: seq<Node>, b: seq<Node>, x: string)
    requires Unwritten(a, x) && Unwritten(b, x)
    ensures Unwritten(a + b, x)
  {
    if a == [] {
      assert a + b == b;
    } else {
      assert (a + b)[1..] == a[1..] + b;
      UnwrittenConcat(a[1..], b, x);
    }
  }

  lemma ChainUnwritten(n: Node, x: string)
    requires |n.inputs| >= 1 && |n.outputs| >= 1 && x != n.outputs[0] && x !in MadeOf(n.outputs[0])
    ensures Unwritten(WrapChain(n), x)
  {
    hide Named;
    var c := WrapChain(n);
    assert c[1..] == [c[1], c[2], c[3], c[4]] && c[1..][1..] == [c[2], c[3], c[4]];
    assert c[1..][1..][1..] == [c[3], c[4]] && [c[3], c[4]][1..] == [c[4]] && [c[4]][1..] == [];
    assert Unwritten([c[4]], x);
    assert Unwritten([c[3], c[4]], x);
    assert Unwritten(c[1..][1..], x);
  }

  /** A name made up for another node is written by no chain of these. */
  lemma {:induction false} MadeUnwritten(nodes: seq<Node>, shapes: Shapes, tag: string, role: Role, made: set<string>)
    requires AllRopesIndexable(nodes, shapes) && New(nodes, made) && tag !in Tags(nodes, shapes)
    requires Named(tag, role) in made
    ensures Unwritten(WrapAll(nodes, shapes), Named(tag, role))
  {
    hide Named;
    if nodes != [] {
      var n, x := nodes[0], Named(tag, role);
      TagsStep(nodes, shapes);
      MadeUnwritten(nodes[1..], shapes, tag, role, made);
      assert x !in Elements(n.outputs);
      if Wrapped(n, shapes).Some? {
        assert n.outputs[0] in Elements(n.outputs);
        Apart(tag, role, n.outputs[0]);
        ChainUnwritten(n, x);
      } else {
        assert [n][1..] == [];
        assert Unwritten([n], x);
      }
      UnwrittenConcat(WrapNode(n, shapes), WrapAll(nodes[1..], shapes), x);
    }
  }

  /** The nodes after a chain leave its declared results alone. */
  lemma DeclaredKept<E(!new)>(sem: Semantics<Value<E>>, tag: string, x: Extents, rest: seq<Node>, shapes: Shapes,
                              env: Env<Value<E>>, made: set<string>, d: Sized)
    requires AllRopesIndexable(rest, shapes) && New(rest, made) && tag !in Tags(rest, shapes)
    requires MadeOf(tag) <= made && d in ChainTypes(tag, x)
    ensures Lookup(Run(sem, WrapAll(rest, shapes), env), d.name) == Lookup(env, d.name)
  {
    hide Named;
    var role :| d.name == Named(tag, role);
    assert d.name in MadeOf(tag);
    MadeUnwritten(rest, shapes, tag, role, made);
    RunElsewhere(sem, WrapAll(rest, shapes), env, d.name);
  }

  lemma {:induction false} DeclaredHold<E(!new)>(sem: Semantics<Value<E>>, angle: Angle<E>, size: HeadSize<E>,
                                                 nodes: seq<Node>, shapes: Shapes, a: Env<Value<E>>, b: Env<Value<E>>,
                                                 made: set<string>, d: Sized)
    requires RopeLaws(sem, angle, size) && Agree(a, b, made)
    requires AllRopesIndexable(nodes, shapes) && New(nodes, made) && Made(Tags(nodes, shapes)) <= made
    requires NoDuplicates(Tags(nodes, shapes)) && "" !in Tags(nodes, shapes)
    requires ShapesHold(sem, nodes, a, shapes, size) && Bound(nodes, shapes, b)
    requires d in Declared(nodes, shapes)
    ensures HasShape(Lookup(Run(sem, WrapAll(nodes, shapes), b), d.name), d.dims)
    decreases |nodes|
  {
    hide Named;
    var n, rest := nodes[0], nodes[1..];
    var a', b' := RunNode(sem, n, a), Run(sem, WrapNode(n, shapes), b);
    TagsStep(nodes, shapes);
    RunConcat(sem, WrapNode(n, shapes), WrapAll(rest, shapes), b);
    hide RopeLaws, Agree, Made, MadeOf, Tags, HasShape, NoDuplicates, ChainTypes, WrapChain, RunNode;
    if Wrapped(n, shapes).Some? {
      var tag := n.outputs[0];
      assert tag in Elements(n.outputs);
      ChainAgrees(sem, angle, size, n, shapes, a, b, made);
      if d in ChainTypes(tag, Wrapped(n, shapes).value) {
        DeclaredKept(sem, tag, Wrapped(n, shapes).value, rest, shapes, b', made, d);
      } else {
        ChainKeepsBound(rest, shapes, tag, b, b', made);
        DeclaredHold(sem, angle, size, rest, shapes, a', b', made, d);
      }
    } else {
      NodeAgrees(sem, n, a, b, made);
      RunOne(sem, n, b);
      NodeKeepsBound(sem, n, rest, shapes, b, made);
      DeclaredHold(sem, angle, size, rest, shapes, a', b', made, d);
    }
  }

  /** Every type the pass declares by hand is the shape the wrapped graph computes there. */
  lemma DeclaredTrue<E(!new)>(sem: Semantics<Value<E>>, angle: Angle<E>, size: HeadSize<E>, nodes: seq<Node>,
                              shapes: Shapes, env: Env<Value<E>>, d: Sized)
    requires RopeLaws(sem, angle, size) && AllRopesIndexable(nodes, shapes)
    requires NoDuplicates(Tags(nodes, shapes)) && "" !in Tags(nodes, shapes)
    requires New(nodes, Made(Tags(nodes, shapes))) && ShapesHold(sem, nodes, env, shapes, size)
    requires d in Declared(nodes, shapes)
    ensures HasShape(Lookup(Run(sem, WrapAll(nodes, shapes), WithConstants(env, Constants(nodes, shapes))), d.name),
                     d.dims)
  {
    ConstantsAgree(env, nodes, shapes);
    ConstantsBound(env, nodes, shapes);
    DeclaredHold(sem, angle, size, nodes, shapes, env, WithConstants(env, Constants(nodes, shapes)),
                 Made(Tags(nodes, shapes)), d);
  }

  // ----- the wrapped graph is a graph -----

  /** A wrapped node has one result. */
  predicate OneResultEach(nodes: seq<Node>, shapes: Shapes)
    requires AllRopesIndexable(nodes, shapes)
  {
    nodes != [] ==>
      (Wrapped(nodes[0], shapes).Some? ==> |nodes[0].outputs| == 1) && OneResultEach(nodes[1..], shapes)
  }

  predicate InputsIn(n: Node, defined: set<string>) {
    forall i :: 0 <= i < |n.inputs| ==> n.inputs[i] == "" || n.inputs[i] in defined
  }

  /** A node of one new result, whose inputs are defined, in front of the rest. */
  lemma InFront(n: Node, out: string, now: set<string>, tail: seq<Node>)
    requires n.outputs == [out] && out != "" && out !in now
    requires InputsIn(n, now) && WellOrdered(tail, now + {out})
    ensures WellOrdered([n] + tail, now)
  {
    OutsOne(n, out);
    assert ([n] + tail)[1..] == tail;
    assert NodeOrdered(n, now);
  }

  /** The five nodes in a graph that defines the constants and none of the results. */
  lemma ChainOrdered(n: Node, now: set<string>, tail: seq<Node>)
    requires |n.inputs| >= 1 && |n.outputs| == 1 && n.outputs[0] != ""
    requires Inner(n.outputs[0]) !! now && n.outputs[0] !in now
    requires Named(n.outputs[0], SplitShape) in now && Named(n.outputs[0], MergeShape) in now
    requires InputsIn(n, now) && WellOrdered(tail, now + Inner(n.outputs[0]) + {n.outputs[0]})
    ensures WellOrdered(WrapChain(n) + tail, now)
  {
    hide Named;
    var tag, c := n.outputs[0], WrapChain(n);
    var n1, n2 := Named(tag, SplitData), Named(tag, PermutedData);
    var n3, n4 := Named(tag, RotatedData), Named(tag, UnpermutedData);
    Distinct(tag);
    assert n1 != n2 && n1 != n3 && n1 != n4 && n2 != n3 && n2 != n4 && n3 != n4;
    assert n1 != "" && n2 != "" && n3 != "" && n4 != "" && tag !in {n1, n2, n3, n4};
    assert Inner(tag) == {n1, n2, n3, n4};
    FiveOrdered(c[0], c[1], c[2], c[3], c[4], n1, n2, n3, n4, tag, now, tail);
    assert WrapChain(n) == [c[0], c[1], c[2], c[3], c[4]];
  }

  /** Five nodes of one result each, every one reading what stands before it. */
  lemma FiveOrdered(m1: Node, m2: Node, m3: Node, m4: Node, m5: Node,
                    n1: string, n2: string, n3: string, n4: string, n5: string, now: set<string>, tail: seq<Node>)
    requires m1.outputs == [n1] && m2.outputs == [n2] && m3.outputs == [n3] && m4.outputs == [n4] && m5.outputs == [n5]
    requires n1 != n2 && n1 != n3 && n1 != n4 && n2 != n3 && n2 != n4 && n3 != n4 && n5 !in {n1, n2, n3, n4}
    requires "" !in {n1, n2, n3, n4, n5} && {n1, n2, n3, n4, n5} !! now
    requires InputsIn(m1, now) && InputsIn(m2, {n1}) && InputsIn(m3, now + {n2}) && InputsIn(m4, {n3})
    requires InputsIn(m5, now + {n4}) && WellOrdered(tail, now + {n1, n2, n3, n4} + {n5})
    ensures WellOrdered([m1, m2, m3, m4, m5] + tail, now)
  {
    hide WellOrdered;
    var d1 := now + {n1};
    var d2 := d1 + {n2};
    var d3 := d2 + {n3};
    var d4 := d3 + {n4};
    assert d4 + {n5} == now + {n1, n2, n3, n4} + {n5};
    var t4 := [m5] + tail;
    var t3 := [m4] + t4;
    var t2 := [m3] + t3;
    var t1 := [m2] + t2;
    InFront(m5, n5, d4, tail);
    InFront(m4, n4, d3, t4);
    InFront(m3, n3, d2, t3);
    InFront(m2, n2, d1, t2);
    InFront(m1, n1, now, t1);
    assert [m1, m2, m3, m4, m5] + tail == [m1] + t1;
  }

  lemma {:induction false} WrapOrdered(nodes: seq<Node>, shapes: Shapes, defined: set<string>, now: set<string>,
                                       made: set<string>)
    requires AllRopesIndexable(nodes, shapes) && WellOrdered(nodes, defined) && New(nodes, made)
    requires OneResultEach(nodes, shapes) && "" !in Tags(nodes, shapes)
    requires forall tag :: tag in Tags(nodes, shapes) ==>
                             Named(tag, SplitShape) in now && Named(tag, MergeShape) in now && Inner(tag) !! now
    requires Made(Tags(nodes, shapes)) <= made && NoDuplicates(Tags(nodes, shapes))
    requires defined <= now <= defined + made
    ensures WellOrdered(WrapAll(nodes, shapes), now)
    decreases |nodes|
  {
    hide Named;
    if nodes != [] {
      var n, rest := nodes[0], nodes[1..];
      TagsStep(nodes, shapes);
      hide Named, Tags, Made, NoDuplicates;
      var tail := WrapAll(rest, shapes);
      if Wrapped(n, shapes).Some? {
        var tag := n.outputs[0];
        assert tag in Elements(n.outputs);
        OutsOne(n, tag);
        var next := now + Inner(tag) + {tag};
        WrappedApart(n, Tags(rest, shapes), now, made);
        assert Inner(tag) <= MadeOf(tag);
        WrapOrdered(rest, shapes, defined + Outs(n), next, made);
        ChainOrdered(n, now, tail);
      } else {
        KeptApart(n, Tags(rest, shapes), now, made);
        assert NodeOrdered(n, now);
        WrapOrdered(rest, shapes, defined + Outs(n), now + Outs(n), made);
        assert ([n] + tail)[1..] == tail;
      }
    }
  }

  /** The names still to be made up are none of a node that is kept. */
  lemma KeptApart(n: Node, tags: seq<string>, now: set<string>, made: set<string>)
    requires Made(tags) <= made && Elements(n.outputs) !! made
    requires forall other :: other in tags ==> Inner(other) !! now
    ensures forall other :: other in tags ==> Inner(other) !! now + Outs(n)
  {
    hide Named, Made;
    assert Outs(n) <= Elements(n.outputs);
    forall other | other in tags ensures Inner(other) !! now + Outs(n) {
      MadeHas(tags, other);
      assert Inner(other) <= MadeOf(other);
    }
  }

  /** Nor are they those of another node that is wrapped. */
  lemma WrappedApart(n: Node, tags: seq<string>, now: set<string>, made: set<string>)
    requires |n.outputs| == 1 && Made(tags) <= made && Elements(n.outputs) !! made && n.outputs[0] !in tags
    requires forall other :: other in tags ==> Inner(other) !! now
    ensures forall other :: other in tags ==> Inner(other) !! now + Inner(n.outputs[0]) + {n.outputs[0]}
  {
    hide Named, Made;
    var tag := n.outputs[0];
    assert tag in Elements(n.outputs);
    forall other | other in tags ensures Inner(other) !! now + Inner(tag) + {tag} {
      MadeHas(tags, other);
      assert Inner(other) <= MadeOf(other);
      InnerApart(other, tag);
    }
  }

  lemma InnerApart(other: string, tag: string)
    requires other != tag
    ensures Inner(other) !! Inner(tag)
  {
    hide Named;
    Apart(other, SplitData, tag);
    Apart(other, PermutedData, tag);
    Apart(other, RotatedData, tag);
    Apart(other, UnpermutedData, tag);
    assert Inner(tag) <= MadeOf(tag);
  }

  function ConstantNames(tags: seq<string>): set<string> {
    if tags == [] then {} else {Named(tags[0], SplitShape), Named(tags[0], MergeShape)} + ConstantNames(tags[1..])
  }

  lemma {:induction false} ConstantNamesAre(tags: seq<string>, tag: string)
    requires tag in tags
    ensures Named(tag, SplitShape) in ConstantNames(tags) && Named(tag, MergeShape) in ConstantNames(tags)
  {
    hide Named;
    if tags[0] != tag {
      ConstantNamesAre(tags[1..], tag);
    }
  }

  lemma {:induction false} ConstantNamesInner(tags: seq<string>, tag: string)
    ensures Inner(tag) !! ConstantNames(tags) && ConstantNames(tags) <= Made(tags)
  {
    hide Named;
    if tags != [] {
      ConstantNamesInner(tags[1..], tag);
      if tags[0] == tag {
        Distinct(tag);
        SuffixesApart(tag);
      } else {
        Apart(tags[0], SplitShape, tag);
        Apart(tags[0], MergeShape, tag);
        assert Inner(tag) <= MadeOf(tag);
      }
    }
  }

  lemma SuffixesApart(tag: string)
    ensures Named(tag, SplitShape) !in Inner(tag) && Named(tag, MergeShape) !in Inner(tag)
  {
    hide Named;
    Distinct(tag);
  }

  /** With the constants defined, the wrapped graph is topologically ordered and single-assignment. */
  lemma WrapStaysGraph(nodes: seq<Node>, shapes: Shapes, defined: set<string>)
    requires AllRopesIndexable(nodes, shapes) && WellOrdered(nodes, defined) && OneResultEach(nodes, shapes)
    requires NoDuplicates(Tags(nodes, shapes)) && "" !in Tags(nodes, shapes)
    requires New(nodes, Made(Tags(nodes, shapes))) && defined !! Made(Tags(nodes, shapes))
    ensures WellOrdered(WrapAll(nodes, shapes), defined + ConstantNames(Tags(nodes, shapes)))
  {
    hide Named;
    var tags := Tags(nodes, shapes);
    var now := defined + ConstantNames(tags);
    forall tag | tag in tags
      ensures Named(tag, SplitShape) in now && Named(tag, MergeShape) in now && Inner(tag) !! now
    {
      ConstantNamesAre(tags, tag);
      ConstantNamesInner(tags, tag);
      MadeHas(tags, tag);
      assert Inner(tag) <= MadeOf(tag);
    }
    ConstantNamesInner(tags, "");
    WrapOrdered(nodes, shapes, defined, now, Made(tags));
  }
}
