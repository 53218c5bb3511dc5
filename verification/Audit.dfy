/**
 The reconciliation and the strict-offload verdict of rocket-compiler/src/audit.rs.
 */
module Audit {
  import opened Text
  import opened Decisions
  import opened ExportKinds
  import opened Report
  import opened Quoting
  import opened Locations
  import D = DecisionsModel
  import R = ReportModel

  // ----- reconciliation -----

  /** `Decision::accepted` */
  predicate Accepted(d: Decision) {
    d.decision == "direct" || d.decision == "tiled"
  }

  function AcceptedCount(ds: seq<Decision>): nat {
    if ds == [] then 0 else (if Accepted(ds[0]) then 1 else 0) + AcceptedCount(ds[1..])
  }

  function SaturatingSub(a: nat, b: nat): nat {
    if a >= b then a - b else 0
  }

  datatype Reconciliation = Reconciliation(candidates: nat, accepted: nat, rocketDispatches: nat) {
    function Unclaimed(): nat {
      SaturatingSub(accepted, rocketDispatches)
    }

    function BeyondCandidates(): nat {
      SaturatingSub(rocketDispatches, accepted)
    }
  }

  function Reconcile(ds: seq<Decision>, p: Placement): Reconciliation {
    Reconciliation(|ds|, AcceptedCount(ds), Dispatches(p.rocket))
  }

  // ----- the order executables are named in -----

  /** Lexicographic order by code point. */
  predicate LexLe(a: string, b: string) {
    a == "" || (b != "" && (a[0] < b[0] || (a[0] == b[0] && LexLe(a[1..], b[1..]))))
  }

  /** At the first character that differs `a` has the smaller one. */
  predicate SmallerAt(a: string, b: string, i: nat) {
    i < |a| && i < |b| && a[..i] == b[..i] && a[i] < b[i]
  }

  lemma SmallerBehind(a: string, b: string, i: nat)
    requires a != "" && b != "" && a[0] == b[0]
    ensures SmallerAt(a, b, i + 1) <==> SmallerAt(a[1..], b[1..], i)
    ensures !SmallerAt(a, b, 0)
  {
    if SmallerAt(a, b, i + 1) {
      assert a[1..][..i] == a[..i + 1][1..] && b[1..][..i] == b[..i + 1][1..];
    }
    if SmallerAt(a[1..], b[1..], i) {
      assert a[..i + 1] == [a[0]] + a[1..][..i] && b[..i + 1] == [b[0]] + b[1..][..i];
    }
  }

  /** The order of names: a prefix comes first, and otherwise the first character that differs decides. */
  lemma {:induction false} LexIs(a: string, b: string)
    ensures LexLe(a, b) <==> a <= b || exists i: nat :: SmallerAt(a, b, i)
  {
    if a != "" && b != "" {
      if a[0] == b[0] {
        LexIs(a[1..], b[1..]);
        assert a == [a[0]] + a[1..] && b == [b[0]] + b[1..];
        hide SmallerAt;
        if i: nat :| SmallerAt(a, b, i) {
          SmallerBehind(a, b, if i > 0 then i - 1 else 0);
        }
        if i: nat :| SmallerAt(a[1..], b[1..], i) {
          SmallerBehind(a, b, i);
        }
      } else if a[0] < b[0] {
        assert SmallerAt(a, b, 0);
      } else {
        assert forall i: nat :: i > 0 && i < |a| && i < |b| ==> a[..i][0] != b[..i][0];
      }
    }
  }

  /** Most dispatch sites first, then by name. */
  predicate Before(a: Executable, b: Executable) {
    a.dispatches > b.dispatches || (a.dispatches == b.dispatches && LexLe(a.name, b.name))
  }

  function Insert(e: Executable, es: seq<Executable>): (r: seq<Executable>)
    ensures multiset(r) == multiset(es) + multiset{e}
  {
    if es == [] then [e]
    else if Before(e, es[0]) then assert es == [es[0]] + es[1..]; [e] + es
    else
      assert es == [es[0]] + es[1..];
      [es[0]] + Insert(e, es[1..])
  }

  function Sort(es: seq<Executable>): (r: seq<Executable>)
    ensures multiset(r) == multiset(es)
  {
    if es == [] then []
    else
      assert es == [es[0]] + es[1..];
      Insert(es[0], Sort(es[1..]))
  }

  predicate Sorted(es: seq<Executable>) {
    |es| >= 2 ==> Before(es[0], es[1]) && Sorted(es[1..])
  }

  lemma {:induction false} LexTotal(a: string, b: string)
    ensures LexLe(a, b) || LexLe(b, a)
  {
    if a != "" && b != "" && a[0] == b[0] {
      LexTotal(a[1..], b[1..]);
    }
  }

  lemma {:induction false} InsertSorted(e: Executable, es: seq<Executable>)
    requires Sorted(es)
    ensures Sorted(Insert(e, es))
  {
    if es != [] {
      LexTotal(e.name, es[0].name);
      if Before(e, es[0]) {
        assert ([e] + es)[1..] == es;
      } else {
        InsertSorted(e, es[1..]);
        var rest := Insert(e, es[1..]);
        assert ([es[0]] + rest)[1..] == rest;
      }
    }
  }

  lemma {:induction false} SortSorts(es: seq<Executable>)
    ensures Sorted(Sort(es))
  {
    if es != [] {
      SortSorts(es[1..]);
      InsertSorted(es[0], Sort(es[1..]));
    }
  }

  function Contractions(es: seq<Executable>): seq<Executable> {
    if es == [] then [] else (if IsContraction(es[0]) then [es[0]] else []) + Contractions(es[1..])
  }

  // ----- the verdict -----

  datatype Finding = NotOffloaded(d: Decision) | Unclaimed(n: nat) | OnCpu(e: Executable)

  datatype Verdict = Pass | NoRecord | Incomplete(findings: seq<Finding>)

  function Refused(ds: seq<Decision>): seq<Finding> {
    if ds == [] then [] else (if Accepted(ds[0]) then [] else [NotOffloaded(ds[0])]) + Refused(ds[1..])
  }

  function Left(es: seq<Executable>): seq<Finding> {
    if es == [] then [] else [OnCpu(es[0])] + Left(es[1..])
  }

  function Findings(ds: seq<Decision>, p: Placement): seq<Finding> {
    var unclaimed := Reconcile(ds, p).Unclaimed();
    Refused(ds) + (if unclaimed > 0 then [Unclaimed(unclaimed)] else []) + Left(Sort(Contractions(p.cpu)))
  }

  /** `strict_offload_failure`: `Pass` is the source's `None`. */
  function Strict(ds: seq<Decision>, p: Placement): Verdict {
    if ds == [] then NoRecord
    else if Findings(ds, p) == [] then Pass
    else Incomplete(Findings(ds, p))
  }

  method RunStrict(ds: seq<Decision>, p: Placement) returns (v: Verdict)
    ensures v == Strict(ds, p)
  {
    if ds == [] {
      return NoRecord;
    }
    var problems: seq<Finding> := [];
    var rest := ds;
    ConcatAssoc(Refused(ds), [], []);
    while rest != []
      invariant Refused(ds) == problems + Refused(rest)
      decreases |rest|
    {
      var one := if Accepted(rest[0]) then [] else [NotOffloaded(rest[0])];
      ConcatAssoc(problems, one, Refused(rest[1..]));
      problems, rest := problems + one, rest[1..];
    }
    ConcatAssoc(problems, [], []);
    var r := Reconcile(ds, p);
    if r.Unclaimed() > 0 {
      problems := problems + [Unclaimed(r.Unclaimed())];
    }
    ghost var before := problems;
    var execs := Sort(Contractions(p.cpu));
    ghost var all := execs;
    ConcatAssoc(before, [], Left(all));
    while execs != []
      invariant before + Left(all) == problems + Left(execs)
      decreases |execs|
    {
      ConcatAssoc(problems, [OnCpu(execs[0])], Left(execs[1..]));
      problems, execs := problems + [OnCpu(execs[0])], execs[1..];
    }
    ConcatAssoc(problems, [], []);
    ConcatAssoc(Refused(ds), [], []);
    if problems == [] {
      return Pass;
    }
    return Incomplete(problems);
  }

  // ----- what the verdict means -----

  /** The two excess counts balance the two records, and at most one is nonzero. */
  lemma ReconciliationBalances(r: Reconciliation)
    ensures r.accepted + r.BeyondCandidates() == r.rocketDispatches + r.Unclaimed()
    ensures r.Unclaimed() == 0 || r.BeyondCandidates() == 0
  {
  }

  /** The decision was to offload. */
  predicate Offloaded(d: Decision) {
    d.decision == "direct" || d.decision == "tiled"
  }

  /** Some export is named after a contraction. */
  ghost predicate RunsContraction(e: Executable) {
    exists x :: x in e.exports && ContractionName(x)
  }

  lemma ContractionIs(e: Executable)
    ensures IsContraction(e) <==> RunsContraction(e)
  {
    hide ContractionName, ExportKind, ContractionKind;
    forall x ensures ExportKind(x).Some? && ContractionKind(ExportKind(x).value) <==> ContractionName(x) {
      ContractionExact(x);
    }
  }

  /** Positions in order. */
  predicate Ascending(at: seq<nat>) {
    forall i, j :: 0 <= i < j < |at| ==> at[i] < at[j]
  }

  /** `at` lists the positions of the decisions that were not to offload, in order. */
  predicate NotOffloadedAt(ds: seq<Decision>, at: seq<nat>) {
    && Ascending(at) && (forall j :: 0 <= j < |at| ==> at[j] < |ds|)
    && forall i :: 0 <= i < |ds| ==> (i in at <==> !Offloaded(ds[i]))
  }

  function Complaints(ds: seq<Decision>, at: seq<nat>): (r: seq<Finding>)
    requires forall j :: 0 <= j < |at| ==> at[j] < |ds|
    ensures |r| == |at|
  {
    seq(|at|, j requires 0 <= j < |at| => NotOffloaded(ds[at[j]]))
  }

  /** The positions one further on. */
  function Shifted(at: seq<nat>): (r: seq<nat>)
    ensures |r| == |at|
  {
    seq(|at|, j requires 0 <= j < |at| => at[j] + 1)
  }

  /** The positions with those of the first decision. */
  function WithFirst(d: Decision, later: seq<nat>): seq<nat> {
    (if Offloaded(d) then [] else [0]) + Shifted(later)
  }

  lemma ShiftedHas(later: seq<nat>, i: nat)
    ensures i in Shifted(later) <==> i > 0 && i - 1 in later
  {
    if i in Shifted(later) {
      var j :| 0 <= j < |later| && Shifted(later)[j] == i;
      assert later[j] == i - 1;
    }
    if i > 0 && i - 1 in later {
      var j :| 0 <= j < |later| && later[j] == i - 1;
      assert Shifted(later)[j] == i;
    }
  }

  /** Where the later positions stand. */
  lemma WithFirstIs(d: Decision, later: seq<nat>) returns (at: seq<nat>, skip: nat)
    ensures at == WithFirst(d, later) && |at| == skip + |later| && skip == (if Offloaded(d) then 0 else 1)
    ensures skip == 1 ==> at[0] == 0
    ensures forall j :: skip <= j < |at| ==> at[j] == later[j - skip] + 1
  {
    at, skip := WithFirst(d, later), if Offloaded(d) then 0 else 1;
  }

  lemma WithFirstAt(ds: seq<Decision>, later: seq<nat>)
    requires ds != [] && NotOffloadedAt(ds[1..], later)
    ensures NotOffloadedAt(ds, WithFirst(ds[0], later))
  {
    var at, skip := WithFirstIs(ds[0], later);
    forall i | 0 <= i < |ds| ensures i in at <==> !Offloaded(ds[i]) {
      ShiftedHas(later, i);
      assert i > 0 ==> ds[i] == ds[1..][i - 1];
      hide Offloaded, Shifted;
    }
    hide Offloaded, Shifted, WithFirst;
    assert Ascending(at) by {
      forall i, j | 0 <= i < j < |at| ensures at[i] < at[j] {
        if i >= skip {
          assert later[i - skip] < later[j - skip];
        }
      }
    }
    assert forall j :: 0 <= j < |at| ==> at[j] < |ds|;
  }

  lemma WithFirstComplaints(ds: seq<Decision>, later: seq<nat>)
    requires ds != [] && forall j :: 0 <= j < |later| ==> later[j] < |ds[1..]|
    ensures forall j :: 0 <= j < |WithFirst(ds[0], later)| ==> WithFirst(ds[0], later)[j] < |ds|
    ensures Complaints(ds, WithFirst(ds[0], later)) ==
            (if Offloaded(ds[0]) then [] else [NotOffloaded(ds[0])]) + Complaints(ds[1..], later)
  {
    var at, skip := WithFirstIs(ds[0], later);
    hide *;
    assert forall j :: 0 <= j < |at| ==> at[j] < |ds|;
    ComplaintsBehind(ds, at, later, skip);
  }

  lemma ComplaintsBehind(ds: seq<Decision>, at: seq<nat>, later: seq<nat>, skip: nat)
    requires ds != [] && skip <= 1 && |at| == skip + |later| && (skip == 1 ==> at[0] == 0)
    requires (forall j :: 0 <= j < |later| ==> later[j] < |ds[1..]|) && (forall j :: 0 <= j < |at| ==> at[j] < |ds|)
    requires forall j :: skip <= j < |at| ==> at[j] == later[j - skip] + 1
    ensures Complaints(ds, at) == (if skip == 0 then [] else [NotOffloaded(ds[0])]) + Complaints(ds[1..], later)
  {
    var a, b := Complaints(ds, at), Complaints(ds[1..], later);
    forall j | skip <= j < |at| ensures a[j] == b[j - skip] {
      assert ds[at[j]] == ds[1..][later[j - skip]];
    }
    assert skip == 1 ==> a[0] == NotOffloaded(ds[0]);
    hide Complaints;
    assert a == a[..skip] + b;
  }

  lemma {:induction false} RefusedAt(ds: seq<Decision>) returns (at: seq<nat>)
    ensures NotOffloadedAt(ds, at) && Refused(ds) == Complaints(ds, at) && AcceptedCount(ds) + |at| == |ds|
  {
    at := [];
    if ds != [] {
      var later := RefusedAt(ds[1..]);
      at := WithFirst(ds[0], later);
      WithFirstAt(ds, later);
      WithFirstComplaints(ds, later);
      hide NotOffloadedAt, Complaints, Shifted;
    }
  }

  lemma {:induction false} ContractionsAre(es: seq<Executable>, e: Executable)
    ensures multiset(Contractions(es))[e] == if RunsContraction(e) then multiset(es)[e] else 0
  {
    if es != [] {
      ContractionsAre(es[1..], e);
      ContractionIs(es[0]);
      assert es == [es[0]] + es[1..];
      hide RunsContraction, IsContraction;
    }
  }

  lemma {:induction false} LeftEach(es: seq<Executable>)
    ensures Left(es) == seq(|es|, j requires 0 <= j < |es| => OnCpu(es[j]))
  {
    if es != [] {
      LeftEach(es[1..]);
    }
  }

  /** Most dispatch sites first; of two with as many, the one whose name is not behind the other's. */
  predicate Listed(es: seq<Executable>) {
    forall i :: 0 <= i < |es| - 1 ==>
      && es[i].dispatches >= es[i + 1].dispatches
      && (es[i].dispatches == es[i + 1].dispatches ==> LexLe(es[i].name, es[i + 1].name))
  }

  lemma {:induction false} SortedListed(es: seq<Executable>)
    requires Sorted(es)
    ensures Listed(es)
  {
    if es != [] {
      SortedListed(es[1..]);
      hide LexLe;
      forall i | 0 <= i < |es| - 1
        ensures es[i].dispatches >= es[i + 1].dispatches
        ensures es[i].dispatches == es[i + 1].dispatches ==> LexLe(es[i].name, es[i + 1].name)
      {
        if i > 0 {
          assert es[i] == es[1..][i - 1] && es[i + 1] == es[1..][i - 1 + 1];
        }
      }
    }
  }

  /** `es` lists the CPU executables that run a contraction, each as often as it stands in the report. */
  ghost predicate OnCpuListed(p: Placement, es: seq<Executable>) {
    Listed(es) && forall e :: multiset(es)[e] == if RunsContraction(e) then multiset(p.cpu)[e] else 0
  }

  /**
   What is found: one complaint for every decision that was not to offload, in order; the accepted
   decisions without a Rocket dispatch site, if there are any; and one for every CPU executable that
   runs a contraction, those with most dispatch sites first.
   */
  lemma FindingsExact(ds: seq<Decision>, p: Placement) returns (at: seq<nat>, es: seq<Executable>)
    ensures NotOffloadedAt(ds, at) && OnCpuListed(p, es)
    ensures |at| <= |ds|
    ensures var missing := |ds| - |at| - Dispatches(p.rocket);
            Findings(ds, p) ==
            Complaints(ds, at) + (if missing > 0 then [Unclaimed(missing)] else [])
            + seq(|es|, j requires 0 <= j < |es| => OnCpu(es[j]))
  {
    hide *;
    at := RefusedAt(ds);
    es := OnCpuOf(p);
    LeftEach(es);
    FindingsParts(ds, p, |at|);
  }

  lemma OnCpuOf(p: Placement) returns (es: seq<Executable>)
    ensures es == Sort(Contractions(p.cpu)) && OnCpuListed(p, es)
  {
    es := Sort(Contractions(p.cpu));
    SortSorts(Contractions(p.cpu));
    SortedListed(es);
    forall e ensures multiset(es)[e] == if RunsContraction(e) then multiset(p.cpu)[e] else 0 {
      ContractionsAre(p.cpu, e);
    }
    hide RunsContraction, Sort, Contractions, Listed;
  }

  lemma FindingsParts(ds: seq<Decision>, p: Placement, refused: nat)
    requires AcceptedCount(ds) + refused == |ds|
    ensures var missing := |ds| - refused - Dispatches(p.rocket);
            Findings(ds, p) ==
            Refused(ds) + (if missing > 0 then [Unclaimed(missing)] else []) + Left(Sort(Contractions(p.cpu)))
  {
    var missing := |ds| - refused - Dispatches(p.rocket);
    UnclaimedIs(ds, p);
    hide Refused, Left, Sort, Contractions, AcceptedCount, Dispatches;
    hide Reconcile, Reconciliation.Unclaimed, SaturatingSub;
    assert Reconcile(ds, p).Unclaimed() == if missing > 0 then missing else 0;
  }

  lemma UnclaimedIs(ds: seq<Decision>, p: Placement)
    ensures var missing := AcceptedCount(ds) - Dispatches(p.rocket);
            Reconcile(ds, p).Unclaimed() == if missing > 0 then missing else 0
  {
    hide AcceptedCount, Dispatches;
  }

  /** Which verdict there is: no record, a pass when there are no findings, else the findings. */
  lemma VerdictExact(ds: seq<Decision>, p: Placement)
    ensures Strict(ds, p) == NoRecord <==> ds == []
    ensures forall fs :: Strict(ds, p) == Incomplete(fs) <==> ds != [] && fs == Findings(ds, p) && fs != []
  {
    hide Findings;
  }

  lemma NoneNotOffloaded(ds: seq<Decision>, at: seq<nat>)
    requires NotOffloadedAt(ds, at)
    ensures at == [] <==> forall d :: d in ds ==> d.decision == "direct" || d.decision == "tiled"
  {
    if at == [] {
      assert forall i :: 0 <= i < |ds| ==> Offloaded(ds[i]);
    } else {
      assert at[0] in at && ds[at[0]] in ds;
    }
  }

  lemma NoneListed(p: Placement, es: seq<Executable>)
    requires OnCpuListed(p, es)
    ensures es == [] <==> forall e, x :: e in p.cpu && x in e.exports ==> !ContractionName(x)
  {
    hide ContractionName, Listed;
    if es == [] {
      forall e, x | e in p.cpu && x in e.exports ensures !ContractionName(x) {
        assert multiset(es)[e] == 0 && multiset(p.cpu)[e] > 0;
      }
    } else {
      var e := es[0];
      assert e in multiset(es);
      assert e in p.cpu && RunsContraction(e);
    }
  }

  /**
   The verdict passes exactly when there is a record, every decision in it is `direct` or `tiled`,
   the Rocket dispatch sites account for them, and no CPU executable has an export named after a
   contraction.
   */
  lemma StrictExact(ds: seq<Decision>, p: Placement)
    ensures Strict(ds, p) == Pass <==>
            && ds != [] && (forall d :: d in ds ==> d.decision == "direct" || d.decision == "tiled")
            && |ds| <= Dispatches(p.rocket)
            && forall e, x :: e in p.cpu && x in e.exports ==> !ContractionName(x)
  {
    var at, es := FindingsExact(ds, p);
    NoneNotOffloaded(ds, at);
    NoneListed(p, es);
    hide Findings, NotOffloadedAt, OnCpuListed, Complaints, ContractionName, Dispatches;
    hide RunsContraction;
    var complaints := Complaints(ds, at);
    assert Findings(ds, p) == [] <==> complaints == [] && |ds| - |at| <= Dispatches(p.rocket) && es == [];
  }

  // ----- end to end, over the printed records -----

  /** Some executable tagged for the CPU has an export line naming a contraction. */
  ghost predicate ContractionOnCpu(items: seq<R.Item>) {
    exists i, b :: i in items && i.Exec? && i.tag.CpuTag? && b in i.body && b.Export? && ContractionName(b.name)
  }

  /** The item is such an executable. */
  ghost predicate CpuContraction(i: R.Item) {
    i.Exec? && i.tag.CpuTag? && exists b :: b in i.body && b.Export? && ContractionName(b.name)
  }

  lemma {:induction false} ExportLines(body: seq<R.BodyLine>, x: string)
    ensures x in R.ExportNames(body) <==> exists b :: b in body && b.Export? && b.name == x
  {
    if body != [] {
      ExportLines(body[1..], x);
      assert body == [body[0]] + body[1..];
    }
  }

  lemma ExportsRun(i: R.Item, n: nat)
    requires i.Exec?
    ensures RunsContraction(Executable(i.name, R.ExportNames(i.body), n)) <==>
            exists b :: b in i.body && b.Export? && ContractionName(b.name)
  {
    hide ContractionName, R.ExportNames;
    forall x ensures x in R.ExportNames(i.body) <==> exists b :: b in i.body && b.Export? && b.name == x {
      ExportLines(i.body, x);
    }
    if b :| b in i.body && b.Export? && ContractionName(b.name) {
      assert b.name in R.ExportNames(i.body);
    }
  }

  /** No CPU executable of the report runs a contraction when no CPU-tagged one of the module does. */
  lemma {:induction false} CpuContractions(items: seq<R.Item>, all: seq<R.Item>)
    ensures (forall e :: e in R.Counted(R.Tagged(items, false), all) ==> !RunsContraction(e)) <==>
            forall i :: i in items ==> !CpuContraction(i)
  {
    if items != [] {
      CpuContractions(items[1..], all);
      var i, rest := items[0], R.Tagged(items[1..], false);
      assert items == [i] + items[1..];
      hide RunsContraction, R.ExportNames;
      if i.Exec? && i.tag.CpuTag? {
        var e := Executable(i.name, R.ExportNames(i.body), 0);
        assert R.Tagged(items, false) == [e] + rest;
        assert ([e] + rest)[1..] == rest;
        var counted := e.(dispatches := R.DispatchCount(all, e.name));
        assert R.Counted([e] + rest, all) == [counted] + R.Counted(rest, all);
        ExportsRun(i, counted.dispatches);
        assert RunsContraction(counted) <==> CpuContraction(i);
        hide CpuContraction;
        assert forall x :: x in [counted] + R.Counted(rest, all) <==> x == counted || x in R.Counted(rest, all);
      } else {
        assert R.Tagged(items, false) == rest;
      }
    }
  }

  /** Which decisions of a list were to offload. */
  function Marks(ds: seq<Decision>): (r: seq<bool>)
    ensures |r| == |ds|
  {
    seq(|ds|, i requires 0 <= i < |ds| => Offloaded(ds[i]))
  }

  lemma MarksConcat(a: seq<Decision>, b: seq<Decision>)
    ensures Marks(a + b) == Marks(a) + Marks(b)
  {
    hide Offloaded;
  }

  lemma OffloadedRead(d: Decision, name: string, p: Place, defs: Defs)
    ensures Offloaded(D.ReadBack(d, name, p, defs)) <==> Offloaded(d)
  {
    ShownWord(d.decision, "direct");
    ShownWord(d.decision, "tiled");
    hide Shown, ReadPlace;
  }

  lemma {:induction false} EntriesMarked(es: seq<D.Printed>, name: string, defs: Defs)
    ensures Marks(D.ReadEntries(es, name, defs)) == Marks(D.DecisionsOf(es))
  {
    if es != [] {
      hide Offloaded, D.ReadBack;
      EntriesMarked(es[1..], name, defs);
      OffloadedRead(es[0].d, name, es[0].place, defs);
      MarksConcat([D.ReadBack(es[0].d, name, es[0].place, defs)], D.ReadEntries(es[1..], name, defs));
      MarksConcat([es[0].d], D.DecisionsOf(es[1..]));
    }
  }

  /** No escape makes or unmakes a decision to offload. */
  lemma {:induction false} ReadMarked(m: seq<D.IrLine>, defs: Defs)
    ensures |D.ReadDecisions(m, defs)| == |D.AllDecisions(m)|
    ensures Marks(D.ReadDecisions(m, defs)) == Marks(D.AllDecisions(m))
  {
    if m != [] {
      hide Marks, D.ReadEntries, D.DecisionsOf;
      ReadMarked(m[1..], defs);
      if m[0].Func? {
        var name := D.ReadName(m[0].name, m[0].quoted);
        EntriesMarked(m[0].entries, name, defs);
        MarksConcat(D.ReadEntries(m[0].entries, name, defs), D.ReadDecisions(m[1..], defs));
        MarksConcat(D.DecisionsOf(m[0].entries), D.AllDecisions(m[1..]));
      } else {
        ConcatAssoc(D.ReadDecisions(m[1..], defs), [], []);
        ConcatAssoc(D.AllDecisions(m[1..]), [], []);
      }
    }
  }

  /** Lists that are marked alike have the same positions of decisions not to offload. */
  lemma SamePositions(a: seq<Decision>, b: seq<Decision>, at: seq<nat>)
    requires |a| == |b| && Marks(a) == Marks(b)
    ensures NotOffloadedAt(a, at) <==> NotOffloadedAt(b, at)
  {
    forall i | 0 <= i < |a| ensures Offloaded(a[i]) <==> Offloaded(b[i]) {
      assert Marks(a)[i] == Marks(b)[i];
    }
    hide Offloaded, Marks;
  }

  /** The two records read from text. */
  lemma BothRead(m: seq<D.IrLine>, items: seq<R.Item>)
    requires D.AllIrClean(m)
    requires R.AllClean(items) && NoDuplicates(R.Named(R.Tagged(items, true)))
    ensures ScanRecord(D.PrintIr(m)) == D.ReadDecisions(m, D.DefsOf(m, map[]))
    ensures ScanPlacement(Unlines(R.Texts(items))) == R.Structured(items)
    ensures Dispatches(R.Structured(items).rocket) == R.DispatchesTo(items, R.Named(R.Tagged(items, true)))
  {
    hide ScanRecord, ScanPlacement, Unlines, R.Texts, D.PrintIr, D.ReadDecisions;
    D.ScanReads(m);
    R.ScanIsStructured(items);
    R.SumCounted(R.Tagged(items, true), items);
  }

  /**
   From the text of both records to the findings: a complaint for every printed decision that is
   neither `direct` nor `tiled`, in order; the others without a dispatch line naming a Rocket-tagged
   executable, if there are any; and one for every CPU-tagged executable that exports a contraction.
   */
  lemma FindingsEndToEnd(m: seq<D.IrLine>, items: seq<R.Item>) returns (at: seq<nat>, es: seq<Executable>)
    requires D.AllIrClean(m)
    requires R.AllClean(items) && NoDuplicates(R.Named(R.Tagged(items, true)))
    ensures NotOffloadedAt(D.AllDecisions(m), at) && OnCpuListed(R.Structured(items), es)
    ensures |at| <= |D.AllDecisions(m)| == |D.ReadDecisions(m, D.DefsOf(m, map[]))|
    ensures var sites := R.DispatchesTo(items, R.Named(R.Tagged(items, true)));
            var missing := |D.AllDecisions(m)| - |at| - sites;
            Findings(ScanRecord(D.PrintIr(m)), ScanPlacement(Unlines(R.Texts(items)))) ==
            Complaints(D.ReadDecisions(m, D.DefsOf(m, map[])), at)
            + (if missing > 0 then [Unclaimed(missing)] else [])
            + seq(|es|, j requires 0 <= j < |es| => OnCpu(es[j]))
  {
    hide *;
    var ds := D.ReadDecisions(m, D.DefsOf(m, map[]));
    BothRead(m, items);
    ReadMarked(m, D.DefsOf(m, map[]));
    at, es := FindingsExact(ds, R.Structured(items));
    SamePositions(ds, D.AllDecisions(m), at);
  }

  /**
   From the text of both records to the verdict: it passes exactly when the module's
   decisions are a nonempty list, each `direct` or `tiled`, the dispatch lines naming a
   Rocket-tagged executable are at least as many, and no CPU-tagged executable exports a
   contraction.
   */
  lemma StrictEndToEnd(m: seq<D.IrLine>, items: seq<R.Item>)
    requires D.AllIrClean(m)
    requires R.AllClean(items) && NoDuplicates(R.Named(R.Tagged(items, true)))
    ensures Strict(ScanRecord(D.PrintIr(m)), ScanPlacement(Unlines(R.Texts(items)))) == Pass <==>
            && D.AllDecisions(m) != []
            && (forall d :: d in D.AllDecisions(m) ==> d.decision == "direct" || d.decision == "tiled")
            && |D.AllDecisions(m)| <= R.DispatchesTo(items, R.Named(R.Tagged(items, true)))
            && !ContractionOnCpu(items)
  {
    var at, es := FindingsEndToEnd(m, items);
    BothRead(m, items);
    var ds, p := ScanRecord(D.PrintIr(m)), ScanPlacement(Unlines(R.Texts(items)));
    VerdictExact(ds, p);
    NoneNotOffloaded(D.AllDecisions(m), at);
    NoneListed(p, es);
    ItemsRun(items, p);
    hide *;
    assert Findings(ds, p) == [] <==>
           at == [] && |D.AllDecisions(m)| <= R.DispatchesTo(items, R.Named(R.Tagged(items, true))) && es == [];
  }

  lemma ItemsRun(items: seq<R.Item>, p: Placement)
    requires p.cpu == R.Counted(R.Tagged(items, false), items)
    ensures (forall e, x :: e in p.cpu && x in e.exports ==> !ContractionName(x)) <==> !ContractionOnCpu(items)
  {
    CpuContractions(items, items);
    hide ContractionName;
    if forall e, x :: e in p.cpu && x in e.exports ==> !ContractionName(x) {
      assert forall e :: e in p.cpu ==> !RunsContraction(e);
      assert forall i :: i in items ==> !CpuContraction(i);
    }
    if !ContractionOnCpu(items) {
      assert forall i :: i in items ==> !CpuContraction(i);
      assert forall e :: e in p.cpu ==> !RunsContraction(e);
    }
  }
}
