/**
 What the passes of tools/import_onnx.py do to the list of nodes: which nodes they rewrite,
 what stands where afterwards, and that nothing is left for a second run.
 */
module OnnxPasses {
  import opened Counting
  import opened Text
  import opened Onnx
  import opened OnnxRope

  // ----- trailing inputs -----

  /** `kept` is `inputs` without the unset ones at its end. */
  predicate TrailingDropped(inputs: seq<string>, kept: seq<string>) {
    && kept <= inputs && (kept == [] || kept[|kept| - 1] != "")
    && forall i :: |kept| <= i < |inputs| ==> inputs[i] == ""
  }

  lemma {:induction false} DropTrailingIs(inputs: seq<string>)
    ensures TrailingDropped(inputs, DropTrailing(inputs))
  {
    if inputs != [] && inputs[|inputs| - 1] == "" {
      DropTrailingIs(inputs[..|inputs| - 1]);
    }
  }

  lemma {:induction false} DroppedOnly(inputs: seq<string>, kept: seq<string>)
    requires TrailingDropped(inputs, kept)
    ensures kept == DropTrailing(inputs)
  {
    if |kept| < |inputs| {
      DroppedOnly(inputs[..|inputs| - 1], kept);
    } else {
      assert kept == inputs;
    }
  }

  /**
   Every node keeps all but its inputs, no input list ends in an unset input any more, and only unset
   ones behind the last set one are gone.
   */
  lemma {:induction false} DropExact(nodes: seq<Node>, i: nat)
    requires i < |nodes|
    ensures |DropAll(nodes)| == |nodes|
    ensures DropAll(nodes)[i] == nodes[i].(inputs := DropAll(nodes)[i].inputs)
    ensures TrailingDropped(nodes[i].inputs, DropAll(nodes)[i].inputs)
  {
    if i == 0 {
      DropTrailingIs(nodes[0].inputs);
      if |nodes| > 1 {
        DropExact(nodes[1..], 0);
      }
    } else {
      DropExact(nodes[1..], i - 1);
    }
  }

  /** A second run drops nothing. */
  lemma DropTwice(nodes: seq<Node>)
    ensures DropAll(DropAll(nodes)) == DropAll(nodes)
  {
    var once := DropAll(nodes);
    if nodes != [] {
      DropExact(nodes, 0);
      DropExact(once, 0);
      hide DropAll;
      forall i | 0 <= i < |nodes| ensures DropAll(once)[i] == once[i] {
        DropExact(nodes, i);
        DropExact(once, i);
        DroppedOnly(nodes[i].inputs, once[i].inputs);
        DroppedOnly(once[i].inputs, once[i].inputs);
        DroppedOnly(once[i].inputs, DropAll(once)[i].inputs);
      }
    }
  }

  // ----- parts of a list -----

  predicate PartAt<T(==)>(all: seq<T>, p: nat, part: seq<T>) {
    p + |part| <= |all| && all[p..][..|part|] == part
  }

  /** A part of the later ones, seen from the start. */
  lemma Behind<T>(first: seq<T>, later: seq<T>, q: nat, part: seq<T>)
    requires PartAt(later, q, part)
    ensures PartAt(first + later, |first| + q, part)
  {
    assert (first + later)[|first| + q..] == later[q..];
  }

  lemma InFrontOf<T>(first: seq<T>, later: seq<T>)
    ensures PartAt(first + later, 0, first)
  {
    assert (first + later)[0..] == first + later;
  }

  lemma PartEntry<T>(all: seq<T>, p: nat, part: seq<T>, k: nat)
    requires PartAt(all, p, part) && k < |part|
    ensures p + k < |all| && all[p + k] == part[k]
  {
    assert all[p + k] == all[p..][..|part|][k];
  }

  // ----- skip nodes -----

  /** Where the rewrite of node `i` starts: every skip node before it has become two. */
  function SplitPlace(nodes: seq<Node>, i: nat): nat
    requires i <= |nodes|
  {
    i + SkipCount(nodes[..i])
  }

  lemma {:induction false} SplitHas(nodes: seq<Node>, i: nat)
    requires AllIndexable(nodes) && i < |nodes|
    ensures |SplitAll(nodes)| == |nodes| + SkipCount(nodes) && SkipIndexable(nodes[i])
    ensures PartAt(SplitAll(nodes), SplitPlace(nodes, i), SplitNode(nodes[i]))
  {
    SplitLength(nodes);
    IndexableAt(nodes, i);
    var first, later := SplitNode(nodes[0]), SplitAll(nodes[1..]);
    assert SplitAll(nodes) == first + later;
    if i > 0 {
      SplitPlaceStep(nodes, i);
      hide *;
      SplitHas(nodes[1..], i - 1);
      assert nodes[1..][i - 1] == nodes[i];
      Behind(first, later, SplitPlace(nodes[1..], i - 1), SplitNode(nodes[i]));
    } else {
      assert nodes[..0] == [];
      InFrontOf(first, later);
      hide SplitNode, SplitAll;
    }
  }

  lemma {:induction false} IndexableAt(nodes: seq<Node>, i: nat)
    requires AllIndexable(nodes) && i < |nodes|
    ensures SkipIndexable(nodes[i])
  {
    hide SkipIndexable;
    if i > 0 {
      IndexableAt(nodes[1..], i - 1);
    }
  }

  lemma SplitPlaceStep(nodes: seq<Node>, i: nat)
    requires AllIndexable(nodes) && 0 < i < |nodes|
    ensures AllIndexable(nodes[1..]) && SkipIndexable(nodes[0])
    ensures SplitPlace(nodes, i) == |SplitNode(nodes[0])| + SplitPlace(nodes[1..], i - 1)
  {
    hide AddNode, NormNode;
    assert nodes[..i] == [nodes[0]] + nodes[1..][..i - 1];
    assert nodes[..i][1..] == nodes[1..][..i - 1];
  }

  lemma {:induction false} SplitLength(nodes: seq<Node>)
    requires AllIndexable(nodes)
    ensures |SplitAll(nodes)| == |nodes| + SkipCount(nodes)
  {
    hide AddNode, NormNode;
    if nodes != [] {
      SplitLength(nodes[1..]);
    }
  }

  /** The name of the sum: the producer's, or one made from the node's or its result's. */
  predicate SumNamed(n: Node, sum: string) {
    && (|n.outputs| > 3 && n.outputs[3] != "" ==> sum == n.outputs[3])
    && (|n.outputs| <= 3 || n.outputs[3] == "" ==>
          (n.name != "" ==> sum == n.name + "_skip_sum")
          && (n.name == "" && n.outputs != [] ==> sum == n.outputs[0] + "_skip_sum"))
  }

  /** The attributes of the normalization: those of the node called epsilon or axis. */
  lemma {:induction false} KeptExact(attrs: seq<Attribute>, a: Attribute)
    ensures multiset(KeptAttributes(attrs))[a] ==
            if a.name == "epsilon" || a.name == "axis" then multiset(attrs)[a] else 0
  {
    if attrs != [] {
      KeptExact(attrs[1..], a);
      assert attrs == [attrs[0]] + attrs[1..];
    }
  }

  /** They keep their order. */
  lemma {:induction false} KeptInOrder(first: seq<Attribute>, later: seq<Attribute>)
    ensures KeptAttributes(first + later) == KeptAttributes(first) + KeptAttributes(later)
  {
    if first == [] {
      assert first + later == later;
    } else {
      assert (first + later)[1..] == first[1..] + later;
      KeptInOrder(first[1..], later);
    }
  }

  /**
   After the pass the list is longer by the number of skip nodes, every other node stands in its
   place as it was, and in the place of each skip node stand an addition of its first two inputs and
   a normalization of the sum with its third, under its first result.
   */
  lemma SplitExact(nodes: seq<Node>, i: nat)
    requires AllIndexable(nodes) && i < |nodes|
    ensures |SplitAll(nodes)| == |nodes| + SkipCount(nodes)
    ensures var n, p, out := nodes[i], SplitPlace(nodes, i), SplitAll(nodes);
            && p < |out| && (n.op != "SkipSimplifiedLayerNormalization" ==> out[p] == n)
            && (n.op == "SkipSimplifiedLayerNormalization" ==>
                  && p + 1 < |out| && |n.inputs| >= 2 && |n.outputs| >= 1
                  && out[p].op == "Add" && out[p].domain == "" && out[p].attributes == []
                  && out[p].inputs == n.inputs[..2] && |out[p].outputs| == 1 && SumNamed(n, out[p].outputs[0])
                  && out[p].name == out[p].outputs[0] + "_add"
                  && out[p + 1].op == "SimplifiedLayerNormalization" && out[p + 1].domain == ""
                  && out[p + 1].inputs ==
                     out[p].outputs + (if |n.inputs| > 2 && n.inputs[2] != "" then [n.inputs[2]] else [])
                  && out[p + 1].outputs == n.outputs[..1] && out[p + 1].name == n.outputs[0] + "_norm"
                  && out[p + 1].attributes == KeptAttributes(n.attributes))
  {
    SplitHas(nodes, i);
    var n, p, out := nodes[i], SplitPlace(nodes, i), SplitAll(nodes);
    hide SplitAll, SkipCount, AllIndexable, KeptAttributes, SplitPlace, PartAt;
    PartEntry(out, p, SplitNode(n), 0);
    if n.op == SKIP {
      PartEntry(out, p, SplitNode(n), 1);
      assert n.inputs[..2] == [n.inputs[0], n.inputs[1]];
    }
  }

  /** No skip node is left. */
  lemma {:induction false} NoSkipLeft(nodes: seq<Node>)
    requires AllIndexable(nodes)
    ensures forall m :: m in SplitAll(nodes) ==> m.op != "SkipSimplifiedLayerNormalization"
  {
    if nodes != [] {
      NoSkipLeft(nodes[1..]);
      assert |NORM| == 28 && |ADD| == 3 && |SKIP| == 32;
    }
  }

  // ----- rotary nodes -----

  /** The data is known to be [B, S, N * 2 * W], the cosine cache [P, W] with W > 0. */
  predicate Rank3Known(n: Node, shapes: Shapes, x: Extents) {
    && n.op == "RotaryEmbedding" && |n.inputs| >= 3 && n.inputs[0] in shapes && n.inputs[2] in shapes
    && var data, cos := shapes[n.inputs[0]], shapes[n.inputs[2]];
       |cos| == 2 && cos[1] > 0 && x.headSize == 2 * cos[1]
       && data == [x.batch, x.length, x.heads * x.headSize]
  }

  /** The nodes that are wrapped, and the extents they are wrapped with: all of this form and no others. */
  lemma WrappedExact(n: Node, shapes: Shapes, x: Extents)
    ensures Wrapped(n, shapes) == Some(x) <==> Rank3Known(n, shapes, x)
  {
    if Rank3Known(n, shapes, x) {
      Multiple(x.heads, x.headSize);
    }
    match Wrapped(n, shapes)
    case None =>
    case Some(y) =>
      Whole(shapes[n.inputs[0]][2], y.headSize);
      assert Rank3Known(n, shapes, y);
  }

  lemma Multiple(q: int, d: int)
    requires d > 0
    ensures (q * d) % d == 0 && q * d / d == q
  {
    var m := q * d;
    var k, r := m / d, m % d;
    assert m == k * d + r;
    var t := q - k;
    assert t * d == q * d - k * d == r;
    if t > 0 {
      Grows(1, t, d);
    }
  }

  lemma Whole(m: int, d: int)
    requires d > 0 && m % d == 0
    ensures m == m / d * d
  {
  }

  /** Where the rewrite of node `i` starts: every wrapped node before it has become five. */
  function WrapPlace(nodes: seq<Node>, shapes: Shapes, i: nat): nat
    requires i <= |nodes|
  {
    i + 4 * WrapCount(nodes[..i], shapes)
  }

  lemma {:induction false} WrapLength(nodes: seq<Node>, shapes: Shapes)
    requires AllRopesIndexable(nodes, shapes)
    ensures |WrapAll(nodes, shapes)| == |nodes| + 4 * WrapCount(nodes, shapes)
  {
    if nodes != [] {
      WrapLength(nodes[1..], shapes);
    }
  }

  lemma WrapFirst(nodes: seq<Node>, shapes: Shapes)
    requires nodes != [] && AllRopesIndexable(nodes, shapes)
    ensures AllRopesIndexable(nodes[1..], shapes) && RopeIndexable(nodes[0], shapes)
    ensures WrapAll(nodes, shapes) == WrapNode(nodes[0], shapes) + WrapAll(nodes[1..], shapes)
  {
    WrapStep(nodes, shapes);
  }

  lemma {:induction false} WrapHas(nodes: seq<Node>, shapes: Shapes, i: nat)
    requires AllRopesIndexable(nodes, shapes) && i < |nodes|
    ensures RopeIndexable(nodes[i], shapes)
    ensures PartAt(WrapAll(nodes, shapes), WrapPlace(nodes, shapes, i), WrapNode(nodes[i], shapes))
  {
    hide *;
    WrapFirst(nodes, shapes);
    var first, later := WrapNode(nodes[0], shapes), WrapAll(nodes[1..], shapes);
    if i > 0 {
      WrapHas(nodes[1..], shapes, i - 1);
      assert nodes[1..][i - 1] == nodes[i];
      WrapPlaceStep(nodes, shapes, i);
      Behind(first, later, WrapPlace(nodes[1..], shapes, i - 1), WrapNode(nodes[i], shapes));
    } else {
      WrapPlaceZero(nodes, shapes);
      InFrontOf(first, later);
    }
  }

  lemma WrapPlaceZero(nodes: seq<Node>, shapes: Shapes)
    ensures WrapPlace(nodes, shapes, 0) == 0
  {
    assert nodes[..0] == [];
  }

  lemma WrapPlaceStep(nodes: seq<Node>, shapes: Shapes, i: nat)
    requires 0 < i < |nodes| && RopeIndexable(nodes[0], shapes)
    ensures WrapPlace(nodes, shapes, i) == |WrapNode(nodes[0], shapes)| + WrapPlace(nodes[1..], shapes, i - 1)
  {
    assert nodes[..i] == [nodes[0]] + nodes[1..][..i - 1];
    assert nodes[..i][1..] == nodes[1..][..i - 1];
    hide Wrapped;
  }

  /**
   After the pass the list is longer by four for every wrapped node, every other node stands in its
   place as it was, and in the place of a wrapped one stands its chain.
   */
  lemma WrapPlaced(nodes: seq<Node>, shapes: Shapes, i: nat)
    requires AllRopesIndexable(nodes, shapes) && i < |nodes|
    ensures |WrapAll(nodes, shapes)| == |nodes| + 4 * WrapCount(nodes, shapes)
    ensures var n, p, out := nodes[i], WrapPlace(nodes, shapes, i), WrapAll(nodes, shapes);
            if exists x :: Rank3Known(n, shapes, x) then
              |n.inputs| >= 1 && |n.outputs| >= 1 && p + 5 <= |out| && out[p..][..5] == WrapChain(n)
            else p < |out| && out[p] == n
  {
    hide WrapAll, WrapCount, Rank3Known, Wrapped, AllRopesIndexable, WrapPlace;
    WrapLength(nodes, shapes);
    WrapHas(nodes, shapes, i);
    KnownOr(nodes[i], shapes);
    var n, p, out := nodes[i], WrapPlace(nodes, shapes, i), WrapAll(nodes, shapes);
    if Wrapped(n, shapes).Some? {
      RopeOutputs(n, shapes);
    } else {
      PartEntry(out, p, WrapNode(n, shapes), 0);
    }
  }

  lemma RopeOutputs(n: Node, shapes: Shapes)
    requires RopeIndexable(n, shapes) && Wrapped(n, shapes).Some?
    ensures |n.inputs| >= 1 && |n.outputs| >= 1
  {
  }

  lemma KnownOr(n: Node, shapes: Shapes)
    ensures Wrapped(n, shapes).Some? <==> exists x :: Rank3Known(n, shapes, x)
  {
    if Wrapped(n, shapes).Some? {
      WrappedExact(n, shapes, Wrapped(n, shapes).value);
    }
    if x :| Rank3Known(n, shapes, x) {
      WrappedExact(n, shapes, x);
    }
  }

  /** No made-up name is known to hold a tensor of rank 3. */
  predicate MadeUpUnknown(nodes: seq<Node>, shapes: Shapes)
    requires AllRopesIndexable(nodes, shapes)
  {
    forall tag :: tag in Tags(nodes, shapes) ==> Onnx.Named(tag, PermutedData) in shapes ==>
                    |shapes[Onnx.Named(tag, PermutedData)]| != 3
  }

  /** No rank-3 node of known shape is left, the rank-4 ones of the chains are none. */
  lemma {:induction false} NoRank3Left(nodes: seq<Node>, shapes: Shapes)
    requires AllRopesIndexable(nodes, shapes) && MadeUpUnknown(nodes, shapes)
    ensures forall m, x :: m in WrapAll(nodes, shapes) ==> !Rank3Known(m, shapes, x)
  {
    if nodes != [] {
      TagsStep(nodes, shapes);
      NoRank3Left(nodes[1..], shapes);
      KnownOr(nodes[0], shapes);
      if Wrapped(nodes[0], shapes).Some? {
        ChainKnown(nodes[0], shapes);
      }
      hide Rank3Known, WrapChain, Wrapped;
    }
  }

  lemma ChainKnown(n: Node, shapes: Shapes)
    requires |n.inputs| >= 1 && |n.outputs| >= 1
    requires Onnx.Named(n.outputs[0], PermutedData) in shapes ==> |shapes[Onnx.Named(n.outputs[0], PermutedData)]| != 3
    ensures forall m, x :: m in WrapChain(n) ==> !Rank3Known(m, shapes, x)
  {
    hide Onnx.Named;
    assert |RESHAPE| == 7 && |TRANSPOSE| == 9 && |ROPE| == 15;
    var c := WrapChain(n);
    forall m, x | m in c ensures !Rank3Known(m, shapes, x) {
      var k :| 0 <= k < |c| && c[k] == m;
    }
  }

  /** The shape of each made-up result: [B, S, N, H], or with heads before positions. */
  function DimsOf(role: Role, x: Extents): seq<int> {
    if role == PermutedData || role == RotatedData then [x.batch, x.heads, x.length, x.headSize]
    else if role == MergeShape then [x.batch, x.length, x.heads * x.headSize]
    else [x.batch, x.length, x.heads, x.headSize]
  }

  /** Every result of every chain gets a declared type, and both shapes a constant; nothing else does. */
  lemma {:induction false} AllDeclared(nodes: seq<Node>, shapes: Shapes, n: Node, x: Extents, role: Role)
    requires AllRopesIndexable(nodes, shapes) && n in nodes && Rank3Known(n, shapes, x)
    ensures |n.outputs| >= 1
    ensures var d := Onnx.Sized(Onnx.Named(n.outputs[0], role), DimsOf(role, x));
            if role == SplitShape || role == MergeShape then d in Constants(nodes, shapes)
            else d in Declared(nodes, shapes)
    ensures |Constants(nodes, shapes)| == 2 * WrapCount(nodes, shapes)
    ensures |Declared(nodes, shapes)| == 4 * WrapCount(nodes, shapes)
  {
    WrappedExact(n, shapes, x);
    WrapStep(nodes, shapes);
    hide Onnx.Named, Wrapped, Rank3Known;
    if n == nodes[0] {
      ListsCounted(nodes[1..], shapes);
      ChainLists(n.outputs[0], x, role);
    } else {
      assert n in nodes[1..];
      AllDeclared(nodes[1..], shapes, n, x, role);
    }
  }

  lemma ChainLists(tag: string, x: Extents, role: Role)
    ensures var d := Onnx.Sized(Onnx.Named(tag, role), DimsOf(role, x));
            if role == SplitShape || role == MergeShape then d in ChainConstants(tag, x) else d in ChainTypes(tag, x)
  {
    hide Onnx.Named;
    var types, consts := ChainTypes(tag, x), ChainConstants(tag, x);
    assert types[0] in types && types[1] in types && types[2] in types && types[3] in types;
    assert consts[0] in consts && consts[1] in consts;
  }

  lemma {:induction false} ListsCounted(nodes: seq<Node>, shapes: Shapes)
    requires AllRopesIndexable(nodes, shapes)
    ensures |Constants(nodes, shapes)| == 2 * WrapCount(nodes, shapes)
    ensures |Declared(nodes, shapes)| == 4 * WrapCount(nodes, shapes)
  {
    hide Onnx.Named, Wrapped;
    if nodes != [] {
      WrapStep(nodes, shapes);
      ListsCounted(nodes[1..], shapes);
    }
  }
}
