/**
 The planning-policy override of rocket-core/src/policy.rs: one cell per thread, replaced
 and restored around a call, behaves as lexical scoping whatever unwinds through it.
 */
module Policy {
  import opened Text

  datatype PlanningPolicy = PlanningPolicy(unbackedChannels: bool, largeKernelProbing: bool)

  /** What planning code may do: read the policy, run a part under one, panic, or catch a panic. */
  datatype Program =
    | Skip
    | Read
    | Then(first: Program, second: Program)
    | With(policy: PlanningPolicy, body: Program)
    | Panic
    | Catch(body: Program)

  /** The policies read, in order, and whether the run ended in a panic. */
  datatype Outcome = Outcome(seen: seq<PlanningPolicy>, panicked: bool)

  // ----- lexical scoping -----

  /** The innermost of the enclosing policies, or the environment's. */
  function Innermost(scopes: seq<PlanningPolicy>, environment: PlanningPolicy): PlanningPolicy {
    if scopes == [] then environment else scopes[|scopes| - 1]
  }

  /** A program under the policies that enclose it, outermost first; no state. */
  function Meaning(p: Program, scopes: seq<PlanningPolicy>, environment: PlanningPolicy): Outcome {
    match p
    case Skip => Outcome([], false)
    case Read => Outcome([Innermost(scopes, environment)], false)
    case Then(first, second) =>
      var a := Meaning(first, scopes, environment);
      if a.panicked then a
      else
        var b := Meaning(second, scopes, environment);
        Outcome(a.seen + b.seen, b.panicked)
    case With(policy, body) => Meaning(body, scopes + [policy], environment)
    case Panic => Outcome([], true)
    case Catch(body) => Outcome(Meaning(body, scopes, environment).seen, false)
  }

  /** Code wrapped in a policy of its own does not see what encloses it. */
  lemma {:induction false} Shielded(p: Program, outer: seq<PlanningPolicy>, other: seq<PlanningPolicy>,
                                    inner: seq<PlanningPolicy>, e: PlanningPolicy, e': PlanningPolicy)
    requires inner != []
    ensures Meaning(p, outer + inner, e) == Meaning(p, other + inner, e')
  {
    match p
    case Then(first, second) =>
      Shielded(first, outer, other, inner, e, e');
      Shielded(second, outer, other, inner, e, e');
    case With(policy, body) =>
      assert outer + inner + [policy] == outer + (inner + [policy]);
      assert other + inner + [policy] == other + (inner + [policy]);
      Shielded(body, outer, other, inner + [policy], e, e');
    case Catch(body) =>
      Shielded(body, outer, other, inner, e, e');
    case _ =>
  }

  /**
   An explicit policy from the caller decides every read: neither the environment nor an
   enclosing override is consulted.
   */
  lemma ExplicitPolicyDecides(p: Program, policy: PlanningPolicy, scopes: seq<PlanningPolicy>,
                              e: PlanningPolicy, e': PlanningPolicy)
    ensures Meaning(With(policy, p), scopes, e) == Meaning(With(policy, p), [], e')
  {
    Shielded(p, scopes, [], [policy], e, e');
  }

  // ----- the unwinder -----

  /** A stack frame: code still to run, a guard with the policy it saved, or a panic handler. */
  datatype Frame = Rest(code: Program) | Guard(saved: Option<PlanningPolicy>) | Handler

  function Scopes(cell: Option<PlanningPolicy>): seq<PlanningPolicy> {
    if cell.None? then [] else [cell.value]
  }

  /** What finishing a stack amounts to: while unwinding, code is skipped and a handler stops it. */
  function Finish(stack: seq<Frame>, cell: Option<PlanningPolicy>, unwinding: bool, e: PlanningPolicy): Outcome
    decreases |stack|
  {
    if stack == [] then Outcome([], unwinding)
    else match stack[0]
      case Guard(saved) => Finish(stack[1..], saved, unwinding, e)
      case Handler => Finish(stack[1..], cell, false, e)
      case Rest(code) =>
        if unwinding then Finish(stack[1..], cell, true, e)
        else
          var a := Meaning(code, Scopes(cell), e);
          var b := Finish(stack[1..], cell, a.panicked, e);
          Outcome(a.seen + b.seen, b.panicked)
  }

  /** The cell once every guard of the stack has been dropped. */
  function CellAfter(stack: seq<Frame>, cell: Option<PlanningPolicy>): Option<PlanningPolicy>
    decreases |stack|
  {
    if stack == [] then cell
    else CellAfter(stack[1..], if stack[0].Guard? then stack[0].saved else cell)
  }

  function Size(p: Program): nat {
    match p
    case Then(first, second) => Size(first) + Size(second) + 1
    case With(_, body) => Size(body) + 2
    case Catch(body) => Size(body) + 2
    case _ => 1
  }

  function Weight(stack: seq<Frame>): nat {
    if stack == [] then 0 else (if stack[0].Rest? then Size(stack[0].code) else 1) + Weight(stack[1..])
  }

  lemma Pushed(a: Frame, b: Frame, stack: seq<Frame>)
    ensures ([a, b] + stack)[0] == a && ([a, b] + stack)[1..] == [b] + stack && ([b] + stack)[1..] == stack
    ensures Weight([a, b] + stack) == FrameWeight(a) + FrameWeight(b) + Weight(stack)
  {
    assert ([a, b] + stack)[1..] == [b] + stack && ([b] + stack)[1..] == stack;
  }

  function FrameWeight(frame: Frame): nat {
    if frame.Rest? then Size(frame.code) else 1
  }

  /** The frame on top of the others. */
  lemma Popped(frame: Frame, below: seq<Frame>, cell: Option<PlanningPolicy>, unwinding: bool, e: PlanningPolicy)
    ensures var stack := [frame] + below;
            && Weight(stack) == FrameWeight(frame) + Weight(below) && FrameWeight(frame) >= 1
            && CellAfter(stack, cell) == CellAfter(below, if frame.Guard? then frame.saved else cell)
            && (frame.Guard? ==> Finish(stack, cell, unwinding, e) == Finish(below, frame.saved, unwinding, e))
            && (frame.Handler? ==> Finish(stack, cell, unwinding, e) == Finish(below, cell, false, e))
            && (frame.Rest? && unwinding ==> Finish(stack, cell, unwinding, e) == Finish(below, cell, true, e))
  {
    hide Meaning;
    assert ([frame] + below)[1..] == below;
  }

  /** Code that pushes nothing. */
  lemma Stepped(code: Program, below: seq<Frame>, cell: Option<PlanningPolicy>, e: PlanningPolicy)
    ensures var left := Finish([Rest(code)] + below, cell, false, e);
            && (code.Skip? ==> left == Finish(below, cell, false, e))
            && (code.Panic? ==> left == Finish(below, cell, true, e))
            && (code.Read? ==>
                  var rest := Finish(below, cell, false, e);
                  left == Outcome([Innermost(Scopes(cell), e)] + rest.seen, rest.panicked))
  {
    assert ([Rest(code)] + below)[1..] == below;
    ConcatAssoc(Finish(below, cell, false, e).seen, [], []);
    ConcatAssoc(Finish(below, cell, true, e).seen, [], []);
  }

  /** A sequence of two runs as its parts, the second skipped when the first panics. */
  lemma ThenUnfolds(first: Program, second: Program, stack: seq<Frame>, cell: Option<PlanningPolicy>, e: PlanningPolicy)
    ensures Finish([Rest(first), Rest(second)] + stack, cell, false, e) ==
            Finish([Rest(Then(first, second))] + stack, cell, false, e)
    ensures CellAfter([Rest(first), Rest(second)] + stack, cell) == CellAfter(stack, cell)
  {
    Pushed(Rest(first), Rest(second), stack);
    assert ([Rest(Then(first, second))] + stack)[1..] == stack;
    var a := Meaning(first, Scopes(cell), e);
    if !a.panicked {
      var b := Meaning(second, Scopes(cell), e);
      ConcatAssoc(a.seen, b.seen, Finish(stack, cell, b.panicked, e).seen);
    }
  }

  /** A policy held by a guard is the innermost one, and is given back before what comes after. */
  lemma WithUnfolds(policy: PlanningPolicy, body: Program, stack: seq<Frame>, cell: Option<PlanningPolicy>,
                    e: PlanningPolicy)
    ensures Finish([Rest(body), Guard(cell)] + stack, Some(policy), false, e) ==
            Finish([Rest(With(policy, body))] + stack, cell, false, e)
    ensures CellAfter([Rest(body), Guard(cell)] + stack, Some(policy)) == CellAfter(stack, cell)
  {
    Pushed(Rest(body), Guard(cell), stack);
    assert ([Rest(With(policy, body))] + stack)[1..] == stack;
    Shielded(body, Scopes(cell), [], [policy], e, e);
    assert [] + [policy] == [policy];
  }

  lemma CatchUnfolds(body: Program, stack: seq<Frame>, cell: Option<PlanningPolicy>, e: PlanningPolicy)
    ensures Finish([Rest(body), Handler] + stack, cell, false, e) ==
            Finish([Rest(Catch(body))] + stack, cell, false, e)
    ensures CellAfter([Rest(body), Handler] + stack, cell) == CellAfter(stack, cell)
  {
    Pushed(Rest(body), Handler, stack);
    assert ([Rest(Catch(body))] + stack)[1..] == stack;
  }

  /** Only the innermost enclosing policy can be told from the cell. */
  lemma InnermostDecides(p: Program, scopes: seq<PlanningPolicy>, e: PlanningPolicy)
    ensures Meaning(p, scopes, e) == Meaning(p, Scopes(if scopes == [] then None else Some(scopes[|scopes| - 1])), e)
  {
    if scopes != [] {
      var n := |scopes| - 1;
      assert scopes == scopes[..n] + [scopes[n]] && [] + [scopes[n]] == [scopes[n]];
      Shielded(p, scopes[..n], [], [scopes[n]], e, e);
    }
  }

  lemma OneFrame(p: Program, cell: Option<PlanningPolicy>, e: PlanningPolicy)
    ensures Finish([Rest(p)], cell, false, e) == Meaning(p, Scopes(cell), e)
    ensures CellAfter([Rest(p)], cell) == cell
  {
    assert [Rest(p)][1..] == [];
    ConcatAssoc(Meaning(p, Scopes(cell), e).seen, [], []);
  }

  /** From here the program ends in `whole`, with the cell as it was found. */
  predicate Leads(stack: seq<Frame>, seen: seq<PlanningPolicy>, cell: Option<PlanningPolicy>, unwinding: bool,
                  found: Option<PlanningPolicy>, whole: Outcome, e: PlanningPolicy) {
    var left := Finish(stack, cell, unwinding, e);
    CellAfter(stack, cell) == found && whole == Outcome(seen + left.seen, left.panicked)
  }

  /** A frame that is popped and pushes nothing. */
  lemma LeadsPast(frame: Frame, below: seq<Frame>, seen: seq<PlanningPolicy>, cell: Option<PlanningPolicy>,
                  unwinding: bool, found: Option<PlanningPolicy>, whole: Outcome, e: PlanningPolicy)
    requires Leads([frame] + below, seen, cell, unwinding, found, whole, e)
    ensures frame.Guard? ==> Leads(below, seen, frame.saved, unwinding, found, whole, e)
    ensures frame.Handler? ==> Leads(below, seen, cell, false, found, whole, e)
    ensures frame.Rest? && unwinding ==> Leads(below, seen, cell, true, found, whole, e)
    ensures frame.Rest? && !unwinding && frame.code.Skip? ==> Leads(below, seen, cell, false, found, whole, e)
    ensures frame.Rest? && !unwinding && frame.code.Panic? ==> Leads(below, seen, cell, true, found, whole, e)
    ensures frame.Rest? && !unwinding && frame.code.Read? ==>
              Leads(below, seen + [Innermost(Scopes(cell), e)], cell, false, found, whole, e)
    ensures Weight([frame] + below) == FrameWeight(frame) + Weight(below) && FrameWeight(frame) >= 1
  {
    hide Finish, CellAfter, Weight, FrameWeight, Innermost, Scopes;
    Popped(frame, below, cell, unwinding, e);
    if frame.Rest? && !unwinding {
      Stepped(frame.code, below, cell, e);
      ConcatAssoc(seen, [Innermost(Scopes(cell), e)], Finish(below, cell, false, e).seen);
    }
  }

  /** Code that pushes its parts. */
  lemma LeadsInto(code: Program, below: seq<Frame>, seen: seq<PlanningPolicy>, cell: Option<PlanningPolicy>,
                  found: Option<PlanningPolicy>, whole: Outcome, e: PlanningPolicy)
    requires Leads([Rest(code)] + below, seen, cell, false, found, whole, e)
    ensures code.Then? ==>
              var next := [Rest(code.first), Rest(code.second)] + below;
              Leads(next, seen, cell, false, found, whole, e) && Weight(next) < Weight([Rest(code)] + below)
    ensures code.With? ==>
              var next := [Rest(code.body), Guard(cell)] + below;
              && Leads(next, seen, Some(code.policy), false, found, whole, e)
              && Weight(next) < Weight([Rest(code)] + below)
    ensures code.Catch? ==>
              var next := [Rest(code.body), Handler] + below;
              Leads(next, seen, cell, false, found, whole, e) && Weight(next) < Weight([Rest(code)] + below)
  {
    hide Finish, CellAfter, Weight, Scopes;
    Popped(Rest(code), below, cell, false, e);
    match code
    case Then(first, second) =>
      ThenUnfolds(first, second, below, cell, e);
      Pushed(Rest(first), Rest(second), below);
    case With(policy, body) =>
      WithUnfolds(policy, body, below, cell, e);
      Pushed(Rest(body), Guard(cell), below);
    case Catch(body) =>
      CatchUnfolds(body, below, cell, e);
      Pushed(Rest(body), Handler, below);
    case _ =>
  }

  lemma LeadsFirst(p: Program, cell: Option<PlanningPolicy>, e: PlanningPolicy)
    ensures Leads([Rest(p)], [], cell, false, cell, Meaning(p, Scopes(cell), e), e)
  {
    hide Finish, CellAfter, Meaning;
    OneFrame(p, cell, e);
    ConcatAssoc(Finish([Rest(p)], cell, false, e).seen, [], []);
  }

  lemma LeadsLast(seen: seq<PlanningPolicy>, cell: Option<PlanningPolicy>, unwinding: bool,
                  found: Option<PlanningPolicy>, whole: Outcome, e: PlanningPolicy)
    requires Leads([], seen, cell, unwinding, found, whole, e)
    ensures cell == found && whole == Outcome(seen, unwinding)
  {
    ConcatAssoc(seen, [], []);
  }

  // ----- the thread-local cell -----

  class Thread {
    const environment: PlanningPolicy
    var override: Option<PlanningPolicy>

    constructor (environment: PlanningPolicy)
      ensures override == None && this.environment == environment
    {
      this.environment := environment;
      override := None;
    }

    /** The cell holds the innermost of the enclosing policies. */
    predicate Holds(scopes: seq<PlanningPolicy>)
      reads this`override
    {
      override == if scopes == [] then None else Some(scopes[|scopes| - 1])
    }

    /** `PlanningPolicy::current` */
    method Current() returns (policy: PlanningPolicy)
      ensures policy == Innermost(Scopes(override), environment)
    {
      match override {
        case Some(p) => policy := p;
        case None => policy := environment;
      }
    }

    /** The entry of `with_policy`: the cell takes the policy, the guard what it held. */
    method Replace(policy: PlanningPolicy) returns (guard: Frame)
      modifies this`override
      ensures override == Some(policy) && guard == Guard(old(override))
    {
      guard := Guard(override);
      override := Some(policy);
    }

    /** The drop of the guard, which the unwinder runs like the return does. */
    method Drop(guard: Frame)
      requires guard.Guard?
      modifies this`override
      ensures override == guard.saved
    {
      override := guard.saved;
    }

    /**
     Runs a program on an explicit stack: a panic discards frames up to a handler and drops
     every guard on its way.  Whatever the program does, the cell is left as it was found, and
     the reads are those of lexical scoping.
     */
    method Run(p: Program, ghost scopes: seq<PlanningPolicy>) returns (r: Outcome)
      requires Holds(scopes)
      modifies this`override
      ensures override == old(override)
      ensures r == Meaning(p, scopes, environment)
    {
      ghost var found, whole := override, Meaning(p, scopes, environment);
      InnermostDecides(p, scopes, environment);
      LeadsFirst(p, override, environment);
      var stack, seen, unwinding := [Rest(p)], [], false;
      while stack != []
        invariant Leads(stack, seen, override, unwinding, found, whole, environment)
        decreases Weight(stack)
      {
        hide *;
        var frame, below := stack[0], stack[1..];
        assert stack == [frame] + below;
        LeadsPast(frame, below, seen, override, unwinding, found, whole, environment);
        stack := below;
        match frame {
          case Guard(_) => Drop(frame);
          case Handler => unwinding := false;
          case Rest(code) =>
            if !unwinding {
              LeadsInto(code, below, seen, override, found, whole, environment);
              match code {
                case Skip =>
                case Read =>
                  var policy := Current();
                  seen := seen + [policy];
                case Then(first, second) =>
                  stack := [Rest(first), Rest(second)] + below;
                case With(policy, body) =>
                  var guard := Replace(policy);
                  stack := [Rest(body), guard] + below;
                case Panic => unwinding := true;
                case Catch(body) =>
                  stack := [Rest(body), Handler] + below;
              }
            }
        }
      }
      LeadsLast(seen, override, unwinding, found, whole, environment);
      r := Outcome(seen, unwinding);
    }

    /** `with_policy`: whether the body returns or unwinds, the cell holds again what it held. */
    method WithPolicy(policy: PlanningPolicy, body: Program, ghost scopes: seq<PlanningPolicy>) returns (r: Outcome)
      requires Holds(scopes)
      modifies this`override
      ensures override == old(override)
      ensures r == Meaning(With(policy, body), scopes, environment)
    {
      r := Run(With(policy, body), scopes);
    }
  }
}
