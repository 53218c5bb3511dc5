/**
 Splitting `SkipSimplifiedLayerNormalization` into `Add` and `SimplifiedLayerNormalization`
 keeps what a graph computes and keeps it a graph.
 */
module OnnxSkip {
  import opened Text
  import opened Onnx

  // ----- the laws of the operators -----

  /** A trailing unset input is the same as an absent one. */
  ghost predicate TrailingUnset<T(!new)>(sem: Semantics<T>) {
    forall op, dom, attrs, args :: sem(op, dom, attrs, args + [None]) == sem(op, dom, attrs, args)
  }

  /** The residual sum. */
  function Sum<T>(sem: Semantics<T>, a: Option<T>, b: Option<T>): seq<T> {
    sem(ADD, "", [], [a, b])
  }

  function Norm<T>(sem: Semantics<T>, attrs: seq<Attribute>, x: Option<T>, gamma: Option<T>): seq<T> {
    sem(NORM, "", attrs, [x, gamma])
  }

  /** The value of an attribute. */
  function ValueOf(attrs: seq<Attribute>, name: string): Option<seq<int>> {
    if attrs == [] then None
    else if attrs[0].name == name then Some(attrs[0].value)
    else ValueOf(attrs[1..], name)
  }

  /** The attributes normalize alike: they give the same epsilon and axis, or leave them out alike. */
  predicate SameNorm(p: seq<Attribute>, q: seq<Attribute>) {
    ValueOf(p, "epsilon") == ValueOf(q, "epsilon") && ValueOf(p, "axis") == ValueOf(q, "axis")
  }

  ghost predicate SkipAt<T(!new)>(sem: Semantics<T>, dom: string, attrs: seq<Attribute>, kept: seq<Attribute>,
                                  a: Option<T>, b: Option<T>, g: Option<T>) {
    var r := sem(SKIP, dom, attrs, [a, b, g]);
    && |r| == 4 && |Sum(sem, a, b)| == 1 && r[3] == Sum(sem, a, b)[0]
    && |Norm(sem, kept, Some(Sum(sem, a, b)[0]), g)| == 1
    && r[0] == Norm(sem, kept, Some(Sum(sem, a, b)[0]), g)[0]
  }

  /**
   The fused node: its first result is the normalization of the residual sum with the
   node's epsilon and axis, its fourth is that sum.
   */
  ghost predicate SkipLaw<T(!new)>(sem: Semantics<T>) {
    forall dom, attrs, kept, a: Option<T>, b: Option<T>, g: Option<T> | SameNorm(attrs, kept) ::
      SkipAt(sem, dom, attrs, kept, a, b, g)
  }

  /** The attributes the split keeps normalize like the node's own. */
  lemma {:induction false} KeptSame(attrs: seq<Attribute>)
    ensures SameNorm(attrs, KeptAttributes(attrs))
  {
    if attrs != [] {
      KeptSame(attrs[1..]);
      var rest := KeptAttributes(attrs[1..]);
      if attrs[0].name == "epsilon" || attrs[0].name == "axis" {
        assert KeptAttributes(attrs)[1..] == rest;
      } else {
        assert KeptAttributes(attrs) == rest;
      }
    }
  }

  function At<T>(args: seq<Option<T>>, i: nat): Option<T> {
    if i < |args| then args[i] else None
  }

  /** A normalization, from the epsilon, the axis, the data and the scale. */
  type Normalize<!T> = (Option<seq<int>>, Option<seq<int>>, Option<T>, Option<T>) -> T

  /** The residual sum, and the bias on top of it where there is one. */
  type Adding<!T> = (Option<T>, Option<T>) -> T
  type Biasing<!T> = (T, T) -> T

  function Biased<T>(plus: Biasing<T>, sum: T, bias: Option<T>): T {
    if bias.Some? then plus(sum, bias.value) else sum
  }

  function Compute<T>(add: Adding<T>, plus: Biasing<T>, norm: Normalize<T>,
                      op: string, attrs: seq<Attribute>, args: seq<Option<T>>): seq<T> {
    var sum, epsilon, axis := add(At(args, 0), At(args, 1)), ValueOf(attrs, "epsilon"), ValueOf(attrs, "axis");
    if op == ADD then [sum]
    else if op == NORM then [norm(epsilon, axis, At(args, 0), At(args, 1))]
    else if op == SKIP then
      var s := Biased(plus, sum, At(args, 3));
      [norm(epsilon, axis, Some(s), At(args, 2)), s, s, s]
    else []
  }

  /** Operators for any sum, bias and normalization; the fused node adds its fourth input, the bias. */
  function Operators<T>(add: Adding<T>, plus: Biasing<T>, norm: Normalize<T>): Semantics<T> {
    (op: string, dom: string, attrs: seq<Attribute>, args: seq<Option<T>>) =>
      Compute(add, plus, norm, op, attrs, args)
  }

  lemma SkipRow<T(!new)>(add: Adding<T>, plus: Biasing<T>, norm: Normalize<T>,
                         dom: string, attrs: seq<Attribute>, kept: seq<Attribute>,
                         a: Option<T>, b: Option<T>, g: Option<T>)
    requires SameNorm(attrs, kept)
    ensures SkipAt(Operators(add, plus, norm), dom, attrs, kept, a, b, g)
  {
    var s, e, x := add(a, b), ValueOf(attrs, "epsilon"), ValueOf(attrs, "axis");
    assert |ADD| == 3 && |NORM| == 28 && |SKIP| == 32;
    hide ValueOf;
    assert Compute(add, plus, norm, ADD, [], [a, b]) == [s];
    assert Compute(add, plus, norm, NORM, kept, [Some(s), g]) == [norm(e, x, Some(s), g)];
    assert Compute(add, plus, norm, SKIP, attrs, [a, b, g]) == [norm(e, x, Some(s), g), s, s, s];
  }

  lemma TrailingRow<T(!new)>(add: Adding<T>, plus: Biasing<T>, norm: Normalize<T>,
                             op: string, dom: string, attrs: seq<Attribute>, args: seq<Option<T>>)
    ensures Operators(add, plus, norm)(op, dom, attrs, args + [None]) ==
            Operators(add, plus, norm)(op, dom, attrs, args)
  {
    assert forall i: nat :: At(args + [None], i) == At(args, i);
  }

  lemma LawsMet<T(!new)>(add: Adding<T>, plus: Biasing<T>, norm: Normalize<T>)
    ensures SkipLaw(Operators(add, plus, norm)) && TrailingUnset(Operators(add, plus, norm))
  {
    var sem := Operators(add, plus, norm);
    hide Operators, SkipAt, SameNorm;
    forall dom, attrs, kept, a: Option<T>, b: Option<T>, g: Option<T> | SameNorm(attrs, kept)
      ensures SkipAt(sem, dom, attrs, kept, a, b, g)
    {
      SkipRow(add, plus, norm, dom, attrs, kept, a, b, g);
    }
    forall op, dom, attrs, args: seq<Option<T>>
      ensures sem(op, dom, attrs, args + [None]) == sem(op, dom, attrs, args)
    {
      TrailingRow(add, plus, norm, op, dom, attrs, args);
    }
  }

  // ----- the names a split hides -----

  function DroppedOf(n: Node): set<string> {
    if n.op == SKIP then (set i | 1 <= i < 3 && i < |n.outputs| && n.outputs[i] != "" :: n.outputs[i]) else {}
  }

  /** The mean and inverse-deviation results, which the split no longer computes. */
  function Dropped(nodes: seq<Node>): set<string> {
    if nodes == [] then {} else DroppedOf(nodes[0]) + Dropped(nodes[1..])
  }

  /** The names made up for unnamed residual sums. */
  function Sums(nodes: seq<Node>): seq<string>
    requires AllIndexable(nodes)
  {
    if nodes == [] then []
    else (if nodes[0].op == SKIP && !NamesSum(nodes[0]) then [SumName(nodes[0])] else []) + Sums(nodes[1..])
  }

  // ----- graphs -----

  function Outs(n: Node): set<string> {
    set i | 0 <= i < |n.outputs| && n.outputs[i] != "" :: n.outputs[i]
  }

  /** Reads only what is defined, and writes distinct new names. */
  predicate NodeOrdered(n: Node, defined: set<string>) {
    && (forall i :: 0 <= i < |n.inputs| ==> n.inputs[i] == "" || n.inputs[i] in defined)
    && (forall i, j :: 0 <= i < j < |n.outputs| ==> n.outputs[i] == "" || n.outputs[i] != n.outputs[j])
    && Outs(n) !! defined
  }

  /** Topologically ordered and single-assignment. */
  predicate WellOrdered(nodes: seq<Node>, defined: set<string>)
    decreases |nodes|
  {
    nodes != [] ==> NodeOrdered(nodes[0], defined) && WellOrdered(nodes[1..], defined + Outs(nodes[0]))
  }

  /** The fused node takes no bias: its fourth input is absent or left unset. */
  predicate NoBias(n: Node) {
    |n.inputs| <= 3 || (|n.inputs| == 4 && n.inputs[3] == "")
  }

  /** No bias and at most four results at every skip node; hidden names are not read. */
  predicate Splittable(nodes: seq<Node>, hidden: set<string>, made: set<string>) {
    nodes != [] ==>
      && (nodes[0].op == SKIP ==> NoBias(nodes[0]) && |nodes[0].outputs| <= 4)
      && Reads(nodes[0].inputs, hidden) && Outs(nodes[0]) !! made
      && Splittable(nodes[1..], hidden, made)
  }

  // ----- one skip node -----

  lemma ArgsOne<T>(env: Env<T>, x: string)
    ensures Args(env, [x]) == [Lookup(env, x)]
  {
    assert [x][1..] == [];
  }

  lemma ArgsTwo<T>(env: Env<T>, x: string, y: string)
    ensures Args(env, [x, y]) == [Lookup(env, x), Lookup(env, y)]
  {
    ArgsOne(env, y);
    assert [x, y][1..] == [y];
  }

  lemma ArgsThree<T>(env: Env<T>, x: string, y: string, z: string)
    ensures Args(env, [x, y, z]) == [Lookup(env, x), Lookup(env, y), Lookup(env, z)]
  {
    ArgsTwo(env, y, z);
    assert [x, y, z][1..] == [y, z];
  }

  lemma BindOne<T>(env: Env<T>, x: string, v: T)
    ensures Bind(env, [x], [v]) == if x == "" then env else env[x := v]
  {
    assert [x][1..] == [];
  }

  lemma RunOne<T>(sem: Semantics<T>, n: Node, env: Env<T>)
    ensures Run(sem, [n], env) == RunNode(sem, n, env)
  {
    assert [n][1..] == [];
    assert Run(sem, [], RunNode(sem, n, env)) == RunNode(sem, n, env);
  }

  lemma RunTwo<T>(sem: Semantics<T>, m: Node, n: Node, env: Env<T>)
    ensures Run(sem, [m, n], env) == RunNode(sem, n, RunNode(sem, m, env))
  {
    assert [m, n][1..] == [n];
    RunOne(sem, n, RunNode(sem, m, env));
  }

  /** An unset bias is no bias. */
  lemma UnsetBias<T(!new)>(sem: Semantics<T>, n: Node, env: Env<T>)
    requires TrailingUnset(sem) && |n.inputs| == 4 && n.inputs[3] == ""
    ensures sem(SKIP, n.domain, n.attributes, Args(env, n.inputs)) ==
            sem(SKIP, n.domain, n.attributes, Args(env, n.inputs[..3]))
  {
    ArgsAppend(env, n.inputs[..3], "");
    assert n.inputs == n.inputs[..3] + [""];
    var args := Args(env, n.inputs[..3]);
    assert sem(SKIP, n.domain, n.attributes, args + [None]) == sem(SKIP, n.domain, n.attributes, args);
  }

  lemma SkipResults<T(!new)>(sem: Semantics<T>, n: Node, env: Env<T>) returns (s: T, y: T, r: seq<T>)
    requires SkipLaw(sem) && TrailingUnset(sem) && n.op == SKIP && 2 <= |n.inputs| && NoBias(n)
    ensures r == sem(SKIP, n.domain, n.attributes, Args(env, n.inputs))
    ensures RunNode(sem, n, env) == Bind(env, n.outputs, r) && |r| == 4 && r[0] == y && r[3] == s
    ensures Sum(sem, Lookup(env, n.inputs[0]), Lookup(env, n.inputs[1])) == [s]
    ensures Norm(sem, KeptAttributes(n.attributes), Some(s), Lookup(env, Gamma(n))) == [y]
  {
    var a, b, g := Lookup(env, n.inputs[0]), Lookup(env, n.inputs[1]), Lookup(env, Gamma(n));
    r := sem(SKIP, n.domain, n.attributes, [a, b, g]);
    if |n.inputs| == 2 {
      ArgsTwo(env, n.inputs[0], n.inputs[1]);
      assert n.inputs == [n.inputs[0], n.inputs[1]];
      assert [a, b] + [None] == [a, b, g];
      assert sem(SKIP, n.domain, n.attributes, [a, b] + [None]) == sem(SKIP, n.domain, n.attributes, [a, b]);
    } else {
      ArgsThree(env, n.inputs[0], n.inputs[1], n.inputs[2]);
      assert n.inputs[..3] == [n.inputs[0], n.inputs[1], n.inputs[2]];
      if |n.inputs| == 3 {
        assert n.inputs[..3] == n.inputs;
      } else {
        UnsetBias(sem, n, env);
      }
    }
    KeptSame(n.attributes);
    assert SkipAt(sem, n.domain, n.attributes, KeptAttributes(n.attributes), a, b, g);
    s := Sum(sem, a, b)[0];
    y := r[0];
  }

  /** What the two nodes of the split bind. */
  lemma SplitResults<T(!new)>(sem: Semantics<T>, n: Node, env: Env<T>, s: T, y: T)
    requires TrailingUnset(sem) && n.op == SKIP && 2 <= |n.inputs| && |n.outputs| >= 1
    requires SumName(n) != Gamma(n)
    requires Sum(sem, Lookup(env, n.inputs[0]), Lookup(env, n.inputs[1])) == [s]
    requires Norm(sem, KeptAttributes(n.attributes), Some(s), Lookup(env, Gamma(n))) == [y]
    ensures Run(sem, SplitNode(n), env) == Bind(env[SumName(n) := s], [n.outputs[0]], [y])
  {
    var add, norm := AddNode(n), NormNode(n);
    var mid := env[SumName(n) := s];
    SumNamed(n);
    ArgsTwo(env, n.inputs[0], n.inputs[1]);
    BindOne(env, SumName(n), s);
    assert RunNode(sem, add, env) == mid;
    var g := Lookup(env, Gamma(n));
    if Gamma(n) == "" {
      ArgsOne(mid, SumName(n));
      assert norm.inputs == [SumName(n)];
      assert [Some(s)] + [None] == [Some(s), g];
      assert sem(NORM, "", norm.attributes, [Some(s)] + [None]) == sem(NORM, "", norm.attributes, [Some(s)]);
    } else {
      ArgsTwo(mid, SumName(n), Gamma(n));
      assert norm.inputs == [SumName(n), Gamma(n)];
    }
    assert RunNode(sem, norm, mid) == Bind(mid, [n.outputs[0]], [y]);
    RunTwo(sem, add, norm, env);
  }

  lemma SumNamed(n: Node)
    requires |n.outputs| >= 1
    ensures SumName(n) != ""
  {
  }

  lemma BindFour<T(!new)>(env: Env<T>, outputs: seq<string>, r: seq<T>, x: string)
    requires |r| == 4 && 1 <= |outputs| <= 4 && x != ""
    requires forall i :: 1 <= i < 3 && i < |outputs| ==> outputs[i] != x
    ensures Lookup(Bind(env, outputs, r), x) ==
            if |outputs| == 4 && outputs[3] == x then Some(r[3])
            else if outputs[0] == x then Some(r[0])
            else Lookup(env, x)
  {
    BindLast(env, outputs, r, x);
    if |outputs| > 1 {
      var e1 := BindFirst(env, outputs[0], r[0]);
      BindLast(e1, outputs[1..], r[1..], x);
      if |outputs| > 2 {
        var e2 := BindFirst(e1, outputs[1], r[1]);
        assert outputs[1..][1..] == outputs[2..] && r[1..][1..] == r[2..];
        BindLast(e2, outputs[2..], r[2..], x);
        if |outputs| > 3 {
          var e3 := BindFirst(e2, outputs[2], r[2]);
          assert outputs[2..][1..] == [outputs[3]] && r[2..][1..] == [r[3]];
          BindOne(e3, outputs[3], r[3]);
        }
      }
    }
  }

  function BindFirst<T>(env: Env<T>, x: string, v: T): Env<T> {
    if x == "" then env else env[x := v]
  }

  lemma BindLast<T>(env: Env<T>, outputs: seq<string>, r: seq<T>, x: string)
    requires outputs != [] && r != []
    ensures Bind(env, outputs, r) == Bind(BindFirst(env, outputs[0], r[0]), outputs[1..], r[1..])
    ensures |outputs| == 1 ==> Bind(env, outputs, r) == BindFirst(env, outputs[0], r[0])
  {
    if |outputs| == 1 {
      assert outputs[1..] == [];
    }
  }

  /** A skip node and its split agree outside the hidden names. */
  lemma SkipAgrees<T(!new)>(sem: Semantics<T>, n: Node, a: Env<T>, b: Env<T>, hidden: set<string>)
    requires SkipLaw(sem) && TrailingUnset(sem) && Agree(a, b, hidden)
    requires n.op == SKIP && 2 <= |n.inputs| && NoBias(n) && 1 <= |n.outputs| <= 4
    requires Reads(n.inputs, hidden) && "" !in hidden
    requires SumName(n) != Gamma(n) && SumName(n) != n.outputs[0]
    requires DroppedOf(n) <= hidden && (NamesSum(n) || SumName(n) in hidden)
    ensures Agree(RunNode(sem, n, a), Run(sem, SplitNode(n), b), hidden)
  {
    var s, y, r := SkipResults(sem, n, a);
    assert Lookup(a, Gamma(n)) == Lookup(b, Gamma(n));
    SplitResults(sem, n, b, s, y);
    var left, right := Bind(a, n.outputs, r), Bind(b[SumName(n) := s], [n.outputs[0]], [y]);
    forall x | x !in hidden ensures Lookup(left, x) == Lookup(right, x) {
      if x != "" {
        assert forall i :: 1 <= i < 3 && i < |n.outputs| && n.outputs[i] != "" ==> n.outputs[i] in DroppedOf(n);
        BindFour(a, n.outputs, r, x);
        BindOne(b[SumName(n) := s], n.outputs[0], y);
        SumNamed(n);
      }
    }
  }

  // ----- the whole graph -----

  lemma {:induction false} SplitAgrees<T(!new)>(sem: Semantics<T>, nodes: seq<Node>, a: Env<T>, b: Env<T>,
                                          hidden: set<string>, made: set<string>, defined: set<string>)
    requires SkipLaw(sem) && TrailingUnset(sem) && Agree(a, b, hidden) && "" !in hidden
    requires AllIndexable(nodes) && Splittable(nodes, hidden, made) && WellOrdered(nodes, defined)
    requires Dropped(nodes) <= hidden && made <= hidden && Elements(Sums(nodes)) <= made
    ensures Agree(Run(sem, nodes, a), Run(sem, SplitAll(nodes), b), hidden)
    decreases |nodes|
  {
    if nodes != [] {
      var n, rest := nodes[0], nodes[1..];
      assert Elements(Sums(rest)) <= Elements(Sums(nodes));
      var a', b' := RunNode(sem, n, a), Run(sem, SplitNode(n), b);
      if n.op == SKIP {
        if !NamesSum(n) {
          assert SumName(n) in Sums(nodes) && SumName(n) in Elements(Sums(nodes));
          assert n.outputs[0] != "" ==> n.outputs[0] in Outs(n);
          SumNamed(n);
        }
        SkipAgrees(sem, n, a, b, hidden);
      } else {
        NodeAgrees(sem, n, a, b, hidden);
        RunOne(sem, n, b);
      }
      SplitAgrees(sem, rest, a', b', hidden, made, defined + Outs(n));
      RunConcat(sem, SplitNode(n), SplitAll(rest), b);
    }
  }

  /**
   After the split every name but the unread mean and deviation results and the made-up
   sums has the value it had.
   */
  lemma SplitPreserves<T(!new)>(sem: Semantics<T>, nodes: seq<Node>, env: Env<T>, name: string)
    requires SkipLaw(sem) && TrailingUnset(sem) && AllIndexable(nodes)
    requires WellOrdered(nodes, env.Keys)
    requires var made := Elements(Sums(nodes)); Splittable(nodes, Dropped(nodes) + made, made)
    requires name !in Dropped(nodes) && name !in Sums(nodes)
    ensures Lookup(Run(sem, SplitAll(nodes), env), name) == Lookup(Run(sem, nodes, env), name)
  {
    var made := Elements(Sums(nodes));
    NoEmptyNames(nodes);
    SplitAgrees(sem, nodes, env, env, Dropped(nodes) + made, made, env.Keys);
  }

  lemma {:induction false} NoEmptyNames(nodes: seq<Node>)
    requires AllIndexable(nodes)
    ensures "" !in Dropped(nodes) && "" !in Sums(nodes)
  {
    if nodes != [] {
      NoEmptyNames(nodes[1..]);
      if nodes[0].op == SKIP {
        SumNamed(nodes[0]);
      }
    }
  }

  lemma OutsOne(n: Node, x: string)
    requires n.outputs == [x]
    ensures Outs(n) == if x == "" then {} else {x}
  {
    assert n.outputs[0] == x;
  }

  /** The two nodes of a split, in a graph where the hidden names may be undefined. */
  lemma SkipOrdered(n: Node, defined: set<string>, now: set<string>, hidden: set<string>, made: set<string>)
    requires n.op == SKIP && SkipIndexable(n) && NodeOrdered(n, defined) && |n.outputs| <= 4
    requires Reads(n.inputs, hidden) && Outs(n) !! made && DroppedOf(n) <= hidden
    requires defined - hidden <= now <= defined + made
    requires NamesSum(n) || (SumName(n) in made && SumName(n) !in now)
    ensures NodeOrdered(AddNode(n), now) && NodeOrdered(NormNode(n), now + Outs(AddNode(n)))
    ensures var next := now + Outs(AddNode(n)) + Outs(NormNode(n));
            (defined + Outs(n)) - hidden <= next <= defined + Outs(n) + made
    ensures Outs(AddNode(n)) == {SumName(n)}
    ensures Outs(NormNode(n)) <= Outs(n)
  {
    var add, norm := AddNode(n), NormNode(n);
    SumNamed(n);
    OutsOne(add, SumName(n));
    OutsOne(norm, n.outputs[0]);
    assert n.outputs[0] != "" ==> n.outputs[0] in Outs(n);
    if NamesSum(n) {
      assert n.outputs[3] in Outs(n);
    }
    assert SumName(n) !in now && SumName(n) != n.outputs[0];
    forall x | x in Outs(n) && x !in hidden ensures x in {SumName(n), n.outputs[0]} {
      var i :| 0 <= i < |n.outputs| && x == n.outputs[i];
      assert 1 <= i < 3 ==> x in DroppedOf(n);
    }
  }

  lemma SumsStep(nodes: seq<Node>)
    requires AllIndexable(nodes) && nodes != []
    ensures Elements(Sums(nodes[1..])) <= Elements(Sums(nodes))
    ensures if nodes[0].op == SKIP && !NamesSum(nodes[0]) then
              Sums(nodes) == [SumName(nodes[0])] + Sums(nodes[1..]) && SumName(nodes[0]) in Elements(Sums(nodes))
            else Sums(nodes) == Sums(nodes[1..])
    ensures NoDuplicates(Sums(nodes)) ==>
              && NoDuplicates(Sums(nodes[1..]))
              && (nodes[0].op == SKIP && !NamesSum(nodes[0]) ==> SumName(nodes[0]) !in Sums(nodes[1..]))
  {
    ConcatAssoc(Sums(nodes[1..]), [], []);
    if nodes[0].op == SKIP && !NamesSum(nodes[0]) {
      assert Sums(nodes)[1..] == Sums(nodes[1..]);
      assert Sums(nodes)[0] in Sums(nodes);
    }
  }

  /** The split graph is topologically ordered and single-assignment like the original. */
  lemma {:induction false} SplitOrdered(nodes: seq<Node>, defined: set<string>, now: set<string>,
                                        hidden: set<string>, made: set<string>)
    requires AllIndexable(nodes) && WellOrdered(nodes, defined) && Splittable(nodes, hidden, made)
    requires Dropped(nodes) <= hidden && made <= hidden && Elements(Sums(nodes)) <= made
    requires NoDuplicates(Sums(nodes)) && defined !! made
    requires defined - hidden <= now <= defined + made && now !! Elements(Sums(nodes))
    ensures WellOrdered(SplitAll(nodes), now)
    decreases |nodes|
  {
    if nodes != [] {
      var n, rest := nodes[0], nodes[1..];
      SumsStep(nodes);
      hide Sums, NoDuplicates;
      var tail := SplitAll(rest);
      if n.op == SKIP {
        var add, norm := AddNode(n), NormNode(n);
        SkipOrdered(n, defined, now, hidden, made);
        var next := now + Outs(add) + Outs(norm);
        if NamesSum(n) {
          assert SumName(n) in Outs(n);
        }
        hide NodeOrdered, Outs, SumName, NamesSum, Dropped;
        SplitOrdered(rest, defined + Outs(n), next, hidden, made);
        TwoOrdered(add, norm, tail, now);
      } else {
        OneOrdered(n, defined, now, hidden, made);
        SplitOrdered(rest, defined + Outs(n), now + Outs(n), hidden, made);
        assert ([n] + tail)[1..] == tail;
      }
    }
  }

  lemma OneOrdered(n: Node, defined: set<string>, now: set<string>, hidden: set<string>, made: set<string>)
    requires NodeOrdered(n, defined) && Reads(n.inputs, hidden) && Outs(n) !! made
    requires defined - hidden <= now <= defined + made
    ensures NodeOrdered(n, now)
  {
  }

  lemma TwoOrdered(m: Node, n: Node, tail: seq<Node>, now: set<string>)
    requires NodeOrdered(m, now) && NodeOrdered(n, now + Outs(m)) && WellOrdered(tail, now + Outs(m) + Outs(n))
    ensures WellOrdered([m, n] + tail, now)
  {
    assert ([m, n] + tail)[1..] == [n] + tail && ([n] + tail)[1..] == tail;
    assert WellOrdered([n] + tail, now + Outs(m));
  }

  /** With distinct made-up names that are new to the graph, the split is a graph again. */
  lemma SplitStaysGraph(nodes: seq<Node>, defined: set<string>)
    requires AllIndexable(nodes) && WellOrdered(nodes, defined)
    requires NoDuplicates(Sums(nodes)) && defined !! Elements(Sums(nodes))
    requires var made := Elements(Sums(nodes)); Splittable(nodes, Dropped(nodes) + made, made)
    ensures WellOrdered(SplitAll(nodes), defined)
  {
    var made := Elements(Sums(nodes));
    SplitOrdered(nodes, defined, defined, Dropped(nodes) + made, made);
  }

  // ----- where the split does not reach -----

  /** The split gives the node's first result the value it had. */
  predicate KeepsFirst<T(==)>(sem: Semantics<T>, n: Node, env: Env<T>)
    requires SkipIndexable(n) && n.op == SKIP
  {
    Lookup(Run(sem, SplitNode(n), env), n.outputs[0]) == Lookup(RunNode(sem, n, env), n.outputs[0])
  }

  /** A lone skip node: at most the operator's four inputs and results, the first result named once. */
  predicate Lone(n: Node) {
    && n.op == SKIP && 2 <= |n.inputs| <= 4 && 1 <= |n.outputs| <= 4 && n.outputs[0] != ""
    && (forall i :: 0 < i < |n.outputs| ==> n.outputs[i] != n.outputs[0])
    && SumName(n) != Gamma(n)
  }

  lemma NoBiasKeeps<T(!new)>(sem: Semantics<T>, n: Node, env: Env<T>)
    requires SkipLaw(sem) && TrailingUnset(sem) && Lone(n) && NoBias(n)
    ensures KeepsFirst(sem, n, env)
  {
    var s, y, r := SkipResults(sem, n, env);
    SplitResults(sem, n, env, s, y);
    BindFour(env, n.outputs, r, n.outputs[0]);
    BindOne(env[SumName(n) := s], n.outputs[0], y);
  }

  /** Operators on integers: sums are zero, the bias is added, and normalizing does nothing. */
  function Counting(): Semantics<int> {
    Operators((a: Option<int>, b: Option<int>) => 0,
              (s: int, c: int) => s + c,
              (e: Option<seq<int>>, x: Option<seq<int>>, s: Option<int>, g: Option<int>) =>
                if s.Some? then s.value else 0)
  }

  lemma CountingResults(dom: string, attrs: seq<Attribute>, args: seq<Option<int>>)
    requires At(args, 3) == Some(1)
    ensures Counting()(SKIP, dom, attrs, args) == [1, 1, 1, 1]
  {
    assert |ADD| == 3 && |NORM| == 28 && |SKIP| == 32;
  }

  lemma CountingParts(attrs: seq<Attribute>, a: Option<int>, b: Option<int>, g: Option<int>)
    ensures Sum(Counting(), a, b) == [0] && Norm(Counting(), attrs, Some(0), g) == [0]
  {
    assert |ADD| == 3 && |NORM| == 28 && |SKIP| == 32;
  }

  /** The bias 1 is in the node's result, and not in the split's. */
  lemma BiasLost(n: Node)
    requires Lone(n) && !NoBias(n)
    ensures var env := map[n.inputs[3] := 1];
            && Lookup(RunNode(Counting(), n, env), n.outputs[0]) == Some(1)
            && Lookup(Run(Counting(), SplitNode(n), env), n.outputs[0]) == Some(0)
  {
    var sem, env := Counting(), map[n.inputs[3] := 1];
    CountingLaws();
    hide Counting, Compute;
    BiasRead(n, env);
    CountingResults(n.domain, n.attributes, Args(env, n.inputs));
    BindFour(env, n.outputs, [1, 1, 1, 1], n.outputs[0]);
    CountingParts(KeptAttributes(n.attributes), Lookup(env, n.inputs[0]), Lookup(env, n.inputs[1]),
                  Lookup(env, Gamma(n)));
    SplitResults(sem, n, env, 0, 0);
    BindOne(env[SumName(n) := 0], n.outputs[0], 0);
  }

  lemma BiasRead(n: Node, env: Env<int>)
    requires |n.inputs| == 4
    ensures At(Args(env, n.inputs), 3) == Lookup(env, n.inputs[3])
  {
    ArgsAppend(env, n.inputs[..3], n.inputs[3]);
    assert n.inputs == n.inputs[..3] + [n.inputs[3]];
    ArgsThree(env, n.inputs[0], n.inputs[1], n.inputs[2]);
    assert n.inputs[..3] == [n.inputs[0], n.inputs[1], n.inputs[2]];
  }

  lemma CountingLaws()
    ensures SkipLaw(Counting()) && TrailingUnset(Counting())
  {
    LawsMet((a: Option<int>, b: Option<int>) => 0,
            (s: int, c: int) => s + c,
            (e: Option<seq<int>>, x: Option<seq<int>>, s: Option<int>, g: Option<int>) =>
              if s.Some? then s.value else 0);
  }

  /**
   The pass ignores a fourth input, the bias of the fused operator.  The split keeps the
   node's result under all operators that meet the laws and in all environments exactly
   when the node has no bias.
   */
  lemma BiasExact(n: Node)
    requires Lone(n)
    ensures (forall sem: Semantics<int>, env: Env<int> | SkipLaw(sem) && TrailingUnset(sem) :: KeepsFirst(sem, n, env))
            <==> NoBias(n)
  {
    if NoBias(n) {
      forall sem: Semantics<int>, env: Env<int> | SkipLaw(sem) && TrailingUnset(sem)
        ensures KeepsFirst(sem, n, env)
      {
        NoBiasKeeps(sem, n, env);
      }
    } else {
      CountingLaws();
      BiasLost(n);
      assert !KeepsFirst(Counting(), n, map[n.inputs[3] := 1]);
    }
  }

  // ----- trailing inputs -----

  lemma {:induction false} TrailingArgs<T(!new)>(sem: Semantics<T>, n: Node, env: Env<T>, inputs: seq<string>)
    requires TrailingUnset(sem)
    ensures sem(n.op, n.domain, n.attributes, Args(env, DropTrailing(inputs))) ==
            sem(n.op, n.domain, n.attributes, Args(env, inputs))
  {
    if inputs != [] && inputs[|inputs| - 1] == "" {
      var short := inputs[..|inputs| - 1];
      TrailingArgs(sem, n, env, short);
      ArgsAppend(env, short, "");
      assert inputs == short + [""];
      assert Args(env, inputs) == Args(env, short) + [None];
    }
  }

  lemma {:induction false} ArgsAppend<T(!new)>(env: Env<T>, inputs: seq<string>, x: string)
    ensures Args(env, inputs + [x]) == Args(env, inputs) + [Lookup(env, x)]
  {
    if inputs == [] {
      assert inputs + [x] == [x] && [x][1..] == [];
    } else {
      assert (inputs + [x])[1..] == inputs[1..] + [x];
      ArgsAppend(env, inputs[1..], x);
    }
  }

  /** Dropping explicitly unset trailing inputs changes no value. */
  lemma {:induction false} DropPreserves<T(!new)>(sem: Semantics<T>, nodes: seq<Node>, env: Env<T>)
    requires TrailingUnset(sem)
    ensures Run(sem, DropAll(nodes), env) == Run(sem, nodes, env)
    decreases |nodes|
  {
    if nodes != [] {
      TrailingArgs(sem, nodes[0], env, nodes[0].inputs);
      DropPreserves(sem, nodes[1..], RunNode(sem, nodes[0], env));
    }
  }
}
