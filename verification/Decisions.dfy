/**
 The selection-time decision record of rocket-compiler/src/decisions.rs: reading the
 `rocket.plan_decisions` attributes back out of printed IR.
 */
module Decisions {
  import opened Text
  import opened Scanner

  datatype Decision = Decision(
    functionName: string, kind: string, layout: string, shape: string, precision: string,
    decision: string, status: string, limit: string, detail: string,
    jobs: int, columns: int, location: string)

  const EMPTY := Decision("", "", "", "", "", "", "", "", "", 0, 0, "")

  const DECISIONS_ATTR := "rocket.plan_decisions = "

  // ----- scalars -----

  function Unescape(s: string): string {
    if s == "" || s[0] == '"' then ""
    else if s[0] == '\\' then
      if |s| == 1 then ""
      else [if s[1] == 'n' then '\n' else if s[1] == 't' then '\t' else s[1]] + Unescape(s[2..])
    else [s[0]] + Unescape(s[1..])
  }

  /** `unquote` */
  function Unquote(value: string): string {
    if value != "" && value[0] == '"' then Unescape(value[1..]) else value
  }

  function NumeralRun(s: string): string {
    if s != "" && (Digit(s[0]) || s[0] == '-') then [s[0]] + NumeralRun(s[1..]) else ""
  }

  predicate I64(n: int) {
    -0x8000_0000_0000_0000 <= n < 0x8000_0000_0000_0000
  }

  /** `str::parse::<i64>` on a run of digits and minus signs. */
  function ParseI64(s: string): Option<int> {
    var negative := s != "" && s[0] == '-';
    var digits := if negative then s[1..] else s;
    if digits == "" || !Digits(digits) then None
    else
      var v: int := DigitsValue(digits);
      var n := if negative then -v else v;
      if I64(n) then Some(n) else None
  }

  /** `leading_integer` */
  function LeadingInteger(value: string): int {
    match ParseI64(NumeralRun(value))
    case Some(n) => n
    case None => 0
  }

  /** `symbol_name`: the first `@name` or `@"name"`. */
  function SymbolName(text: string): Option<string> {
    match Find(text, "@")
    case None => None
    case Some(at) =>
      var rest := text[at + 1..];
      if rest != "" && rest[0] == '"' then
        match Find(rest[1..], "\"")
        case None => None
        case Some(end) => Some(rest[1..][..end])
      else Some(SymbolPrefix(rest))
  }

  function LineColRun(s: string): string {
    if s != "" && (Digit(s[0]) || s[0] == ':') then [s[0]] + LineColRun(s[1..]) else ""
  }

  const UNKNOWN := "unknown"

  /** `format_location` */
  function FormatLocation(text: string): string {
    match Find(text, "\"")
    case None => UNKNOWN
    case Some(open) =>
      var rest := text[open + 1..];
      match Find(rest, "\"")
      case None => UNKNOWN
      case Some(close) =>
        var file := rest[..close];
        var after := TrimStart(rest[close + 1..]);
        if after == "" || after[0] != ':' || LineColRun(after[1..]) == "" then file
        else file + ":" + LineColRun(after[1..])
  }

  /** One `#loc12 = loc(...)` alias definition, if the line is one. */
  function AliasOf(line: string): Option<(string, string)> {
    var trimmed := TrimStart(line);
    if trimmed == "" || trimmed[0] != '#' then None
    else
      var rest := trimmed[1..];
      match Find(rest, " = ")
      case None => None
      case Some(i) =>
        var name, body := rest[..i], rest[i + 3..];
        if !("loc" <= name) || !("loc(" <= body) then None
        else Some(("#" + name, FormatLocation(body)))
  }

  /** `location_aliases`: a later definition replaces an earlier one. */
  function LocationAliases(lines: seq<string>, acc: map<string, string>): map<string, string> {
    if lines == [] then acc else LocationAliases(lines[1..], AddAlias(lines[0], acc))
  }

  function AddAlias(line: string, acc: map<string, string>): map<string, string> {
    match AliasOf(line)
    case None => acc
    case Some((name, body)) => acc[name := body]
  }

  // ----- one decision -----

  function ResolveLocation(value: string, aliases: map<string, string>): string {
    if value != "" && value[0] == '#' then
      if value in aliases then aliases[value] else value
    else FormatLocation(value)
  }

  function SetField(d: Decision, key: string, value: string, aliases: map<string, string>): Decision {
    if key == "kind" then d.(kind := Unquote(value))
    else if key == "layout" then d.(layout := Unquote(value))
    else if key == "shape" then d.(shape := Unquote(value))
    else if key == "precision" then d.(precision := Unquote(value))
    else if key == "decision" then d.(decision := Unquote(value))
    else if key == "status" then d.(status := Unquote(value))
    else if key == "limit" then d.(limit := Unquote(value))
    else if key == "detail" then d.(detail := Unquote(value))
    else if key == "jobs" then d.(jobs := LeadingInteger(value))
    else if key == "columns" then d.(columns := LeadingInteger(value))
    else if key == "loc" then d.(location := ResolveLocation(value, aliases))
    else d
  }

  function ParseFields(d: Decision, parts: seq<string>, aliases: map<string, string>): Decision
    decreases |parts|
  {
    if parts == [] then d
    else ParseFields(ParsePart(d, parts[0], aliases), parts[1..], aliases)
  }

  function ParsePart(d: Decision, part: string, aliases: map<string, string>): Decision {
    match Find(part, " = ")
    case None => d
    case Some(i) => SetField(d, Trim(part[..i]), Trim(part[i + 3..]), aliases)
  }

  /** `parse_decision` */
  function ParseDecision(name: string, entry: string, aliases: map<string, string>): Decision {
    ParseFields(EMPTY.(functionName := name), TopLevelSplit(entry, ','), aliases)
  }

  function ParseAll(name: string, entries: seq<string>, aliases: map<string, string>): seq<Decision> {
    if entries == [] then []
    else [ParseDecision(name, entries[0], aliases)] + ParseAll(name, entries[1..], aliases)
  }

  // ----- the record -----

  function ScanLine(line: string, aliases: map<string, string>): seq<Decision> {
    match Find(line, DECISIONS_ATTR)
    case None => []
    case Some(marker) =>
      var symbol := SymbolName(line[..marker]);
      var name := if symbol.Some? then symbol.value else "";
      match Balanced(line[marker + |DECISIONS_ATTR|..], '[', ']')
      case None => []
      case Some(entries) => ParseAll(name, TopLevelGroups(entries, '{', '}'), aliases)
  }

  function ScanLines(lines: seq<string>, aliases: map<string, string>): seq<Decision> {
    if lines == [] then [] else ScanLine(lines[0], aliases) + ScanLines(lines[1..], aliases)
  }

  /** `DecisionRecord::scan` */
  function ScanRecord(ir: string): seq<Decision> {
    ScanLines(Lines(ir), LocationAliases(Lines(ir), map[]))
  }

  // ----- the loops of the source -----

  method RunUnquote(value: string) returns (out: string)
    ensures out == Unquote(value)
  {
    if value == "" || value[0] != '"' {
      return value;
    }
    out := "";
    var rest := value[1..];
    ConcatAssoc(Unescape(rest), "", "");
    while rest != "" && rest[0] != '"'
      invariant Unquote(value) == out + Unescape(rest)
      decreases |rest|
    {
      var c, used := rest[0], 1;
      if c == '\\' {
        if |rest| == 1 {
          ConcatAssoc(out, "", "");
          return;
        }
        c, used := (if rest[1] == 'n' then '\n' else if rest[1] == 't' then '\t' else rest[1]), 2;
      }
      ConcatAssoc(out, [c], Unescape(rest[used..]));
      out, rest := out + [c], rest[used..];
    }
    ConcatAssoc(out, "", "");
  }

  method RunParseDecision(name: string, entry: string, aliases: map<string, string>) returns (d: Decision)
    ensures d == ParseDecision(name, entry, aliases)
  {
    d := EMPTY.(functionName := name);
    var parts := RunTopLevelSplit(entry, ',');
    var rest := parts;
    while rest != []
      invariant ParseDecision(name, entry, aliases) == ParseFields(d, rest, aliases)
      decreases |rest|
    {
      d, rest := ParsePart(d, rest[0], aliases), rest[1..];
    }
  }

  method RunLocationAliases(ir: string) returns (aliases: map<string, string>)
    ensures aliases == LocationAliases(Lines(ir), map[])
  {
    aliases := map[];
    var rest := Lines(ir);
    while rest != []
      invariant LocationAliases(Lines(ir), map[]) == LocationAliases(rest, aliases)
      decreases |rest|
    {
      aliases, rest := AddAlias(rest[0], aliases), rest[1..];
    }
  }

  method RunScan(ir: string) returns (decisions: seq<Decision>)
    ensures decisions == ScanRecord(ir)
  {
    var aliases := RunLocationAliases(ir);
    decisions := [];
    var rest := Lines(ir);
    ConcatAssoc(ScanRecord(ir), [], []);
    while rest != []
      invariant ScanRecord(ir) == decisions + ScanLines(rest, aliases)
      decreases |rest|
    {
      hide ScanLine, ScanRecord;
      var found := ScanLine(rest[0], aliases);
      rest := rest[1..];
      ConcatAssoc(decisions, found, ScanLines(rest, aliases));
      decisions := decisions + found;
    }
    ConcatAssoc(decisions, [], []);
  }
}
