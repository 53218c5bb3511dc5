/**
 The placement report of rocket-compiler/src/report.rs: one pass over the printed module.
 */
module Report {
  import opened Text
  import opened Decisions

  datatype Executable = Executable(name: string, exports: seq<string>, dispatches: nat)

  datatype Placement = Placement(rocket: seq<Executable>, cpu: seq<Executable>)

  const EXECUTABLE := "hal.executable "
  const EXPORT := "hal.executable.export "
  const DISPATCH := "stream.cmd.dispatch @"
  const TAG := "rocket.final = \""

  // ----- one line -----

  /** `trim_matches('"')` */
  function TrimQuotes(s: string): string {
    if s != "" && s[0] == '"' then TrimQuotes(s[1..])
    else if s != "" && s[|s| - 1] == '"' then TrimQuotes(s[..|s| - 1])
    else s
  }

  /** The executable a dispatch line names, without its quotes. */
  function DispatchTarget(trimmed: string): Option<string> {
    match Find(trimmed, DISPATCH)
    case None => None
    case Some(i) =>
      var rest := trimmed[i + |DISPATCH|..];
      match Find(rest, "::")
      case None => None
      case Some(end) => Some(TrimQuotes(rest[..end]))
  }

  /** The string after `needle` up to the next quote. */
  function ExtractAttr(line: string, needle: string): Option<string> {
    match Find(line, needle)
    case None => None
    case Some(i) =>
      var rest := line[i + |needle|..];
      match Find(rest, "\"")
      case None => None
      case Some(end) => Some(rest[..end])
  }

  /** What one line means to the scan.  `SymbolName` is `extract_symbol_name` too. */
  datatype LineKind =
    | Opens(name: Option<string>, tag: Option<string>)
    | Exports(name: Option<string>)
    | Quiet

  function KindOf(line: string): LineKind {
    var trimmed := TrimStart(line);
    if EXECUTABLE <= trimmed then Opens(SymbolName(line), ExtractAttr(line, TAG))
    else if EXPORT <= trimmed then Exports(SymbolName(line))
    else Quiet
  }

  function TargetOf(line: string): Option<string> {
    DispatchTarget(TrimStart(line))
  }

  // ----- the pass -----

  datatype State = State(report: Placement, current: Option<bool>, counts: map<string, nat>)

  function AddExport(execs: seq<Executable>, name: string): seq<Executable> {
    if execs == [] then execs
    else
      var last := execs[|execs| - 1];
      execs[..|execs| - 1] + [last.(exports := last.exports + [name])]
  }

  function Push(p: Placement, isRocket: bool, e: Executable): Placement {
    if isRocket then p.(rocket := p.rocket + [e]) else p.(cpu := p.cpu + [e])
  }

  function PushExport(p: Placement, isRocket: bool, name: string): Placement {
    if isRocket then p.(rocket := AddExport(p.rocket, name)) else p.(cpu := AddExport(p.cpu, name))
  }

  /** Which bucket a tag puts an executable into. */
  function Bucket(tag: Option<string>): Option<bool> {
    if tag == Some("rocket") then Some(true)
    else if tag == Some("cpu") then Some(false)
    else None
  }

  function Tally(counts: map<string, nat>, target: Option<string>): map<string, nat> {
    match target
    case None => counts
    case Some(name) => counts[name := (if name in counts then counts[name] else 0) + 1]
  }

  function Advance(st: State, kind: LineKind, target: Option<string>): State {
    var st := st.(counts := Tally(st.counts, target));
    match kind
    case Quiet => st
    case Opens(name, tag) =>
      var bucket := Bucket(tag);
      if name.None? || bucket.None? then st.(current := None)
      else st.(report := Push(st.report, bucket.value, Executable(name.value, [], 0)), current := bucket)
    case Exports(name) =>
      if st.current.None? || name.None? then st
      else st.(report := PushExport(st.report, st.current.value, name.value))
  }

  function AdvanceAll(st: State, lines: seq<string>): State
    decreases |lines|
  {
    if lines == [] then st else AdvanceAll(Advance(st, KindOf(lines[0]), TargetOf(lines[0])), lines[1..])
  }

  function CountOf(counts: map<string, nat>, name: string): nat {
    if name in counts then counts[name] else 0
  }

  function Fold(execs: seq<Executable>, counts: map<string, nat>): seq<Executable> {
    if execs == [] then []
    else [execs[0].(dispatches := CountOf(counts, execs[0].name))] + Fold(execs[1..], counts)
  }

  const BEGIN := State(Placement([], []), None, map[])

  function Finish(st: State): Placement {
    Placement(Fold(st.report.rocket, st.counts), Fold(st.report.cpu, st.counts))
  }

  /** `PlacementReport::scan` */
  function ScanPlacement(ir: string): Placement {
    Finish(AdvanceAll(BEGIN, Lines(ir)))
  }

  function Dispatches(execs: seq<Executable>): nat {
    if execs == [] then 0 else execs[0].dispatches + Dispatches(execs[1..])
  }

  method RunScanPlacement(ir: string) returns (p: Placement)
    ensures p == ScanPlacement(ir)
  {
    var st := BEGIN;
    var rest := Lines(ir);
    while rest != []
      invariant AdvanceAll(BEGIN, Lines(ir)) == AdvanceAll(st, rest)
      decreases |rest|
    {
      hide KindOf, TargetOf, Advance;
      st, rest := Advance(st, KindOf(rest[0]), TargetOf(rest[0])), rest[1..];
    }
    var rocket := RunFold(st.report.rocket, st.counts);
    var cpu := RunFold(st.report.cpu, st.counts);
    p := Placement(rocket, cpu);
  }

  method RunFold(execs: seq<Executable>, counts: map<string, nat>) returns (out: seq<Executable>)
    ensures out == Fold(execs, counts)
  {
    out := [];
    var rest := execs;
    ConcatAssoc(Fold(execs, counts), [], []);
    while rest != []
      invariant Fold(execs, counts) == out + Fold(rest, counts)
      decreases |rest|
    {
      var e := rest[0].(dispatches := CountOf(counts, rest[0].name));
      ConcatAssoc(out, [e], Fold(rest[1..], counts));
      out, rest := out + [e], rest[1..];
    }
    ConcatAssoc(out, [], []);
  }

  // ----- op kinds -----

  /** `export.rfind(pat)` */
  function RFind(s: string, pat: string, i: nat): (r: Option<nat>)
    requires i <= |s|
    ensures r.Some? ==> r.value + |pat| <= |s|
  {
    if OccursAt(s, i, pat) then Some(i)
    else if i == 0 then None
    else RFind(s, pat, i - 1)
  }

  const INFIX := "_dispatch_"

  function SkipDigits(s: string): string {
    if s != "" && Digit(s[0]) then SkipDigits(s[1..]) else s
  }

  /** The words before the first that starts with a digit. */
  function KindWords(words: seq<string>): seq<string> {
    if words == [] || (words[0] != "" && Digit(words[0][0])) then []
    else [words[0]] + KindWords(words[1..])
  }

  /** `s.split(c)` */
  function SplitOn(acc: string, s: string, c: char): seq<string>
    decreases |s|
  {
    if s == "" then [acc]
    else if s[0] == c then [acc] + SplitOn("", s[1..], c)
    else SplitOn(acc + [s[0]], s[1..], c)
  }

  /** `export_kind` */
  function ExportKind(export_: string): Option<string> {
    match RFind(export_, INFIX, |export_|)
    case None => None
    case Some(i) =>
      var tail := export_[i + |INFIX|..];
      var after := SkipDigits(tail);
      if tail == "" || !Digit(tail[0]) || after == "" || after[0] != '_' then None
      else
        var words := KindWords(SplitOn("", after[1..], '_'));
        if words == [] then None else Some(Join(words, "_"))
  }

  /** `is_contraction_kind` */
  predicate ContractionKind(kind: string) {
    kind in {"conv", "conv_2d", "depthwise_conv", "matmul", "matmul_like", "batch_matmul"}
  }

  /** `PlacementExecutable::is_contraction`: some export names a contraction. */
  predicate IsContraction(e: Executable) {
    exists x :: x in e.exports && ExportKind(x).Some? && ContractionKind(ExportKind(x).value)
  }
}
