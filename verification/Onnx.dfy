/**
 ONNX graphs, their evaluation, and the node passes of tools/import_onnx.py: they split
 `SkipSimplifiedLayerNormalization`, wrap rank-3 `RotaryEmbedding` and drop trailing unset
 inputs.
 */
module Onnx {
  import opened Text

  datatype Attribute = Attribute(name: string, value: seq<int>)

  datatype Node = Node(op: string, inputs: seq<string>, outputs: seq<string>, name: string,
                       attributes: seq<Attribute>, domain: string)

  // ----- evaluation -----

  /** What each operator computes; an unset or missing input is `None`. */
  type Semantics<!T> = (string, string, seq<Attribute>, seq<Option<T>>) -> seq<T>

  type Env<T> = map<string, T>

  function Lookup<T>(env: Env<T>, name: string): Option<T> {
    if name != "" && name in env then Some(env[name]) else None
  }

  function Args<T>(env: Env<T>, inputs: seq<string>): seq<Option<T>> {
    if inputs == [] then [] else [Lookup(env, inputs[0])] + Args(env, inputs[1..])
  }

  /** Binds results to output names; an empty name discards its result. */
  function Bind<T>(env: Env<T>, outputs: seq<string>, results: seq<T>): Env<T>
    decreases |outputs|
  {
    if outputs == [] || results == [] then env
    else Bind(if outputs[0] == "" then env else env[outputs[0] := results[0]], outputs[1..], results[1..])
  }

  function RunNode<T>(sem: Semantics<T>, n: Node, env: Env<T>): Env<T> {
    Bind(env, n.outputs, sem(n.op, n.domain, n.attributes, Args(env, n.inputs)))
  }

  function Run<T>(sem: Semantics<T>, nodes: seq<Node>, env: Env<T>): Env<T>
    decreases |nodes|
  {
    if nodes == [] then env else Run(sem, nodes[1..], RunNode(sem, nodes[0], env))
  }

  // ----- the skip pass -----

  const SKIP := "SkipSimplifiedLayerNormalization"
  const NORM := "SimplifiedLayerNormalization"
  const ADD := "Add"

  /** The source indexes these and raises an error when they are missing. */
  predicate SkipIndexable(n: Node) {
    n.op == SKIP ==> |n.inputs| >= 2 && |n.outputs| >= 1
  }

  function KeptAttributes(attrs: seq<Attribute>): seq<Attribute> {
    if attrs == [] then []
    else (if attrs[0].name == "epsilon" || attrs[0].name == "axis" then [attrs[0]] else [])
         + KeptAttributes(attrs[1..])
  }

  function Gamma(n: Node): string {
    if |n.inputs| > 2 then n.inputs[2] else ""
  }

  /** Whether the producer named the residual sum. */
  predicate NamesSum(n: Node) {
    |n.outputs| > 3 && n.outputs[3] != ""
  }

  function SumName(n: Node): string
    requires |n.outputs| >= 1
  {
    if NamesSum(n) then n.outputs[3]
    else (if n.name != "" then n.name else n.outputs[0]) + "_skip_sum"
  }

  function AddNode(n: Node): Node
    requires n.op == SKIP && SkipIndexable(n)
  {
    Node(ADD, [n.inputs[0], n.inputs[1]], [SumName(n)], SumName(n) + "_add", [], "")
  }

  function NormNode(n: Node): Node
    requires n.op == SKIP && SkipIndexable(n)
  {
    Node(NORM, [SumName(n)] + (if Gamma(n) == "" then [] else [Gamma(n)]), [n.outputs[0]],
         n.outputs[0] + "_norm", KeptAttributes(n.attributes), "")
  }

  function SplitNode(n: Node): seq<Node>
    requires SkipIndexable(n)
  {
    if n.op == SKIP then [AddNode(n), NormNode(n)] else [n]
  }

  predicate AllIndexable(nodes: seq<Node>) {
    nodes != [] ==> SkipIndexable(nodes[0]) && AllIndexable(nodes[1..])
  }

  function SplitAll(nodes: seq<Node>): seq<Node>
    requires AllIndexable(nodes)
  {
    if nodes == [] then [] else SplitNode(nodes[0]) + SplitAll(nodes[1..])
  }

  function SkipCount(nodes: seq<Node>): nat {
    if nodes == [] then 0 else (if nodes[0].op == SKIP then 1 else 0) + SkipCount(nodes[1..])
  }

  // ----- the rotary pass -----

  const ROPE := "RotaryEmbedding"
  const RESHAPE := "Reshape"
  const TRANSPOSE := "Transpose"
  const PERM := [Attribute("perm", [0, 2, 1, 3])]

  /** What the pass makes up a name for: two shape constants and four results. */
  datatype Role = SplitShape | MergeShape | SplitData | PermutedData | RotatedData | UnpermutedData

  function Suffix(role: Role): string {
    match role
    case SplitShape => "_rope_split_shape"
    case MergeShape => "_rope_merge_shape"
    case SplitData => "_rope_split"
    case PermutedData => "_rope_bnsh"
    case RotatedData => "_rope_rotated"
    case UnpermutedData => "_rope_bsnh"
  }

  function Named(tag: string, role: Role): string {
    tag + Suffix(role)
  }

  /** A name with a list of extents: a shape constant or a declared type. */
  datatype Sized = Sized(name: string, dims: seq<int>)

  /** The shapes the importer knows, by name. */
  type Shapes = map<string, seq<int>>

  /** The extents of a node that is wrapped. */
  datatype Extents = Extents(batch: int, length: int, heads: int, headSize: int) {
    function Split(): seq<int> {
      [batch, length, heads, headSize]
    }

    function Permuted(): seq<int> {
      [batch, heads, length, headSize]
    }

    function Merged(): seq<int> {
      [batch, length, heads * headSize]
    }
  }

  function ShapeOf(shapes: Shapes, name: string): Option<seq<int>> {
    if name in shapes then Some(shapes[name]) else None
  }

  /** The source indexes the first input, and the first output of a node it wraps. */
  predicate RopeIndexable(n: Node, shapes: Shapes) {
    n.op == ROPE ==> |n.inputs| >= 1 && (Wrapped(n, shapes).Some? ==> |n.outputs| >= 1)
  }

  /** The extents of a rank-3 rotary node of known shape; any other node is left alone. */
  function Wrapped(n: Node, shapes: Shapes): Option<Extents> {
    if n.op != ROPE || |n.inputs| < 3 then None
    else
      match (ShapeOf(shapes, n.inputs[0]), ShapeOf(shapes, n.inputs[2])) {
        case (Some(source), Some(cos)) =>
          if |source| != 3 || |cos| != 2 then None
          else if 2 * cos[1] <= 0 || source[2] % (2 * cos[1]) != 0 then None
          else Some(Extents(source[0], source[1], source[2] / (2 * cos[1]), 2 * cos[1]))
        case _ => None
      }
  }

  function WrapChain(n: Node): seq<Node>
    requires |n.inputs| >= 1 && |n.outputs| >= 1
  {
    var tag := n.outputs[0];
    [Node(RESHAPE, [n.inputs[0], Named(tag, SplitShape)], [Named(tag, SplitData)], "", [], ""),
     Node(TRANSPOSE, [Named(tag, SplitData)], [Named(tag, PermutedData)], "", PERM, ""),
     Node(ROPE, [Named(tag, PermutedData)] + n.inputs[1..], [Named(tag, RotatedData)], tag + "_rope_rank4",
          n.attributes, n.domain),
     Node(TRANSPOSE, [Named(tag, RotatedData)], [Named(tag, UnpermutedData)], "", PERM, ""),
     Node(RESHAPE, [Named(tag, UnpermutedData), Named(tag, MergeShape)], [tag], "", [], "")]
  }

  function WrapNode(n: Node, shapes: Shapes): seq<Node>
    requires RopeIndexable(n, shapes)
  {
    if Wrapped(n, shapes).Some? then WrapChain(n) else [n]
  }

  predicate AllRopesIndexable(nodes: seq<Node>, shapes: Shapes) {
    nodes != [] ==> RopeIndexable(nodes[0], shapes) && AllRopesIndexable(nodes[1..], shapes)
  }

  function WrapAll(nodes: seq<Node>, shapes: Shapes): seq<Node>
    requires AllRopesIndexable(nodes, shapes)
  {
    if nodes == [] then [] else WrapNode(nodes[0], shapes) + WrapAll(nodes[1..], shapes)
  }

  function WrapCount(nodes: seq<Node>, shapes: Shapes): nat {
    if nodes == [] then 0 else (if Wrapped(nodes[0], shapes).Some? then 1 else 0) + WrapCount(nodes[1..], shapes)
  }

  function ChainConstants(tag: string, x: Extents): seq<Sized> {
    [Sized(Named(tag, SplitShape), x.Split()), Sized(Named(tag, MergeShape), x.Merged())]
  }

  /** The shape constants the pass adds. */
  function Constants(nodes: seq<Node>, shapes: Shapes): seq<Sized>
    requires AllRopesIndexable(nodes, shapes)
  {
    if nodes == [] then []
    else
      (match Wrapped(nodes[0], shapes) case Some(x) => ChainConstants(nodes[0].outputs[0], x) case None => [])
      + Constants(nodes[1..], shapes)
  }

  function ChainTypes(tag: string, x: Extents): seq<Sized> {
    [Sized(Named(tag, SplitData), x.Split()), Sized(Named(tag, PermutedData), x.Permuted()),
     Sized(Named(tag, RotatedData), x.Permuted()), Sized(Named(tag, UnpermutedData), x.Split())]
  }

  /** The types the pass declares by hand. */
  function Declared(nodes: seq<Node>, shapes: Shapes): seq<Sized>
    requires AllRopesIndexable(nodes, shapes)
  {
    if nodes == [] then []
    else
      (match Wrapped(nodes[0], shapes) case Some(x) => ChainTypes(nodes[0].outputs[0], x) case None => [])
      + Declared(nodes[1..], shapes)
  }

  /** What the pass does with the first node. */
  lemma WrapStep(nodes: seq<Node>, shapes: Shapes)
    requires nodes != [] && AllRopesIndexable(nodes, shapes)
    ensures AllRopesIndexable(nodes[1..], shapes) && RopeIndexable(nodes[0], shapes)
    ensures WrapAll(nodes, shapes) == WrapNode(nodes[0], shapes) + WrapAll(nodes[1..], shapes)
    ensures WrapCount(nodes, shapes) ==
            (if Wrapped(nodes[0], shapes).Some? then 1 else 0) + WrapCount(nodes[1..], shapes)
    ensures match Wrapped(nodes[0], shapes)
            case None =>
              && Constants(nodes, shapes) == Constants(nodes[1..], shapes)
              && Declared(nodes, shapes) == Declared(nodes[1..], shapes)
            case Some(x) =>
              && Constants(nodes, shapes) == ChainConstants(nodes[0].outputs[0], x) + Constants(nodes[1..], shapes)
              && Declared(nodes, shapes) == ChainTypes(nodes[0].outputs[0], x) + Declared(nodes[1..], shapes)
  {
    hide WrapNode, ChainConstants, ChainTypes;
  }

  // ----- the model object the passes update -----

  function DropTrailing(inputs: seq<string>): seq<string> {
    if inputs != [] && inputs[|inputs| - 1] == "" then DropTrailing(inputs[..|inputs| - 1]) else inputs
  }

  function DropAll(nodes: seq<Node>): seq<Node> {
    if nodes == [] then []
    else [nodes[0].(inputs := DropTrailing(nodes[0].inputs))] + DropAll(nodes[1..])
  }

  function InputCount(nodes: seq<Node>): nat {
    if nodes == [] then 0 else |nodes[0].inputs| + InputCount(nodes[1..])
  }

  class Model {
    var nodes: seq<Node>
    var initializers: seq<Sized>
    var valueInfo: seq<Sized>

    constructor (nodes: seq<Node>)
      ensures this.nodes == nodes && initializers == [] && valueInfo == []
    {
      this.nodes, initializers, valueInfo := nodes, [], [];
    }

    /** `split_skip_layernorm` */
    method SplitSkipLayernorm() returns (count: nat)
      requires AllIndexable(nodes)
      modifies this`nodes
      ensures nodes == old(SplitAll(nodes)) && count == old(SkipCount(nodes))
    {
      var rewritten: seq<Node>, rest := [], nodes;
      count := 0;
      ConcatAssoc(SplitAll(nodes), [], []);
      while rest != []
        invariant AllIndexable(rest) && nodes == old(nodes)
        invariant SplitAll(nodes) == rewritten + SplitAll(rest)
        invariant SkipCount(nodes) == count + SkipCount(rest)
        decreases |rest|
      {
        var node := rest[0];
        ConcatAssoc(rewritten, SplitNode(node), SplitAll(rest[1..]));
        if node.op != SKIP {
          rewritten := rewritten + [node];
        } else {
          count := count + 1;
          rewritten := rewritten + [AddNode(node), NormNode(node)];
        }
        rest := rest[1..];
      }
      ConcatAssoc(rewritten, [], []);
      if count > 0 {
        nodes := rewritten;
      } else {
        NothingSplit(nodes);
      }
    }

    /** `wrap_rank3_rotary_embedding` */
    method WrapRank3RotaryEmbedding(shapes: Shapes) returns (count: nat)
      requires AllRopesIndexable(nodes, shapes)
      modifies this
      ensures nodes == old(WrapAll(nodes, shapes)) && count == old(WrapCount(nodes, shapes))
      ensures initializers == old(initializers + Constants(nodes, shapes))
      ensures valueInfo == old(valueInfo + Declared(nodes, shapes))
    {
      var rewritten: seq<Node>, rest := [], nodes;
      count := 0;
      while rest != []
        invariant AllRopesIndexable(rest, shapes) && nodes == old(nodes)
        invariant WrapAll(nodes, shapes) == rewritten + WrapAll(rest, shapes)
        invariant WrapCount(nodes, shapes) == count + WrapCount(rest, shapes)
        invariant initializers + Constants(rest, shapes) == old(initializers + Constants(nodes, shapes))
        invariant valueInfo + Declared(rest, shapes) == old(valueInfo + Declared(nodes, shapes))
        decreases |rest|
      {
        hide WrapAll, WrapCount, Constants, Declared, ChainConstants, ChainTypes, Wrapped, WrapChain;
        var node := rest[0];
        WrapStep(rest, shapes);
        ConcatAssoc(rewritten, WrapNode(node, shapes), WrapAll(rest[1..], shapes));
        match Wrapped(node, shapes) {
          case None =>
            rewritten := rewritten + [node];
          case Some(extents) =>
            var tag := node.outputs[0];
            ConcatAssoc(initializers, ChainConstants(tag, extents), Constants(rest[1..], shapes));
            ConcatAssoc(valueInfo, ChainTypes(tag, extents), Declared(rest[1..], shapes));
            count := count + 1;
            initializers := initializers + ChainConstants(tag, extents);
            rewritten := rewritten + WrapChain(node);
            valueInfo := valueInfo + ChainTypes(tag, extents);
        }
        rest := rest[1..];
      }
      ConcatAssoc(rewritten, [], []);
      ConcatAssoc(initializers, [], []);
      ConcatAssoc(valueInfo, [], []);
      if count > 0 {
        nodes := rewritten;
      } else {
        NothingWrapped(nodes, shapes);
      }
    }

    /** `drop_trailing_empty_inputs` */
    method DropTrailingEmptyInputs() returns (dropped: nat)
      modifies this`nodes
      ensures nodes == old(DropAll(nodes))
      ensures InputCount(nodes) + dropped == old(InputCount(nodes))
    {
      var done: seq<Node>, rest := [], nodes;
      dropped := 0;
      ConcatAssoc(DropAll(nodes), [], []);
      while rest != []
        invariant nodes == old(nodes)
        invariant DropAll(nodes) == done + DropAll(rest)
        invariant InputCount(nodes) == InputCount(done) + dropped + InputCount(rest)
        decreases |rest|
      {
        var node := rest[0];
        while |node.inputs| > 0 && node.inputs[|node.inputs| - 1] == ""
          invariant node == rest[0].(inputs := node.inputs)
          invariant DropTrailing(node.inputs) == DropTrailing(rest[0].inputs)
          invariant InputCount(nodes) == InputCount(done) + dropped + |node.inputs| + InputCount(rest[1..])
          decreases |node.inputs|
        {
          node := node.(inputs := node.inputs[..|node.inputs| - 1]);
          dropped := dropped + 1;
        }
        ConcatAssoc(done, [node], DropAll(rest[1..]));
        InputCountAppend(done, node);
        done, rest := done + [node], rest[1..];
      }
      ConcatAssoc(done, [], []);
      nodes := done;
    }
  }

  lemma {:induction false} InputCountAppend(nodes: seq<Node>, n: Node)
    ensures InputCount(nodes + [n]) == InputCount(nodes) + |n.inputs|
  {
    if nodes == [] {
      assert nodes + [n] == [n];
    } else {
      assert (nodes + [n])[1..] == nodes[1..] + [n];
      InputCountAppend(nodes[1..], n);
    }
  }

  lemma {:induction false} NothingSplit(nodes: seq<Node>)
    requires AllIndexable(nodes) && SkipCount(nodes) == 0
    ensures SplitAll(nodes) == nodes
  {
    if nodes != [] {
      NothingSplit(nodes[1..]);
    }
  }

  lemma {:induction false} NothingWrapped(nodes: seq<Node>, shapes: Shapes)
    requires AllRopesIndexable(nodes, shapes) && WrapCount(nodes, shapes) == 0
    ensures WrapAll(nodes, shapes) == nodes
  {
    if nodes != [] {
      NothingWrapped(nodes[1..], shapes);
    }
  }

  // ----- agreement of environments -----

  /** The environments agree outside the hidden names. */
  ghost predicate Agree<T>(a: Env<T>, b: Env<T>, hidden: set<string>) {
    forall n :: n !in hidden ==> Lookup(a, n) == Lookup(b, n)
  }

  predicate Reads(inputs: seq<string>, hidden: set<string>) {
    forall i :: 0 <= i < |inputs| ==> inputs[i] !in hidden
  }

  lemma {:induction false} ArgsAgree<T>(a: Env<T>, b: Env<T>, hidden: set<string>, inputs: seq<string>)
    requires Agree(a, b, hidden) && Reads(inputs, hidden)
    ensures Args(a, inputs) == Args(b, inputs)
  {
    if inputs != [] {
      ArgsAgree(a, b, hidden, inputs[1..]);
    }
  }

  lemma {:induction false} BindAgree<T>(a: Env<T>, b: Env<T>, hidden: set<string>, outputs: seq<string>,
                                       results: seq<T>)
    requires Agree(a, b, hidden)
    ensures Agree(Bind(a, outputs, results), Bind(b, outputs, results), hidden)
    decreases |outputs|
  {
    if outputs != [] && results != [] {
      var a' := if outputs[0] == "" then a else a[outputs[0] := results[0]];
      var b' := if outputs[0] == "" then b else b[outputs[0] := results[0]];
      BindAgree(a', b', hidden, outputs[1..], results[1..]);
    }
  }

  /** One node on agreeing environments. */
  lemma NodeAgrees<T>(sem: Semantics<T>, n: Node, a: Env<T>, b: Env<T>, hidden: set<string>)
    requires Agree(a, b, hidden) && Reads(n.inputs, hidden)
    ensures Agree(RunNode(sem, n, a), RunNode(sem, n, b), hidden)
  {
    ArgsAgree(a, b, hidden, n.inputs);
    BindAgree(a, b, hidden, n.outputs, sem(n.op, n.domain, n.attributes, Args(a, n.inputs)));
  }

  lemma {:induction false} RunConcat<T>(sem: Semantics<T>, a: seq<Node>, b: seq<Node>, env: Env<T>)
    ensures Run(sem, a + b, env) == Run(sem, b, Run(sem, a, env))
    decreases |a|
  {
    if a == [] {
      assert a + b == b;
    } else {
      assert (a + b)[1..] == a[1..] + b;
      RunConcat(sem, a[1..], b, RunNode(sem, a[0], env));
    }
  }
}
