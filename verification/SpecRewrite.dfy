/**
 The transform-spec rewriter of rocket-compiler/src/spec.rs, on text.

 `Neutralize` turns a transform spec into one whose matchers cannot fire.  The functions
 say what is computed; the methods at the end run the source's loops and are proved to
 compute them.
 */
module SpecRewrite {
  import opened Text

  const LOOP := "transform.foreach_match"
  const DECL := "transform.named_sequence @"
  const ADMITTED_OP := "transform.rocket.match.admitted"
  const DIM_BOUNDS_OP := "transform.iree.match.dim_bounds"
  const NO_OFFLOAD_ATTR := "no_offload"
  const NO_OFFLOAD_BOUND := "999999"
  const ELEMENTWISE_MARKER := "//@ROCKET_ELEMENTWISE@"
  const LIST_END := " : ("

  datatype Error =
    | NoMatchers
    | Unconstrained(matchers: set<string>)
    | UnreadableAdmission(line: string)
    | UnreadableBounds(line: string)
    | NothingToRewrite
    | NoMarkedEntries
    | ConsumerCount(found: nat)

  datatype Neutralized = Neutralized(text: string, rewritten: nat, matchers: nat)

  // ----- one line -----

  predicate IsComment(line: string) {
    StartsWith(TrimStart(line), "//")
  }

  /** Adds the `no_offload` unit attribute to an admission line. */
  function DisableAdmission(line: string): Option<string> {
    if Contains(line, NO_OFFLOAD_ATTR) then Some(line)
    else match Find(line, ADMITTED_OP)
      case None => None
      case Some(at) =>
        match DisableTail(line[at + |ADMITTED_OP|..], NO_OFFLOAD_ATTR)
        case None => None
        case Some(tail) => Some(line[..at] + ADMITTED_OP + tail)
  }

  /** The text after the op name.  The name holds no blank, so the colon is after it. */
  function DisableTail(tail: string, attr: string): Option<string> {
    match Find(tail, " : ")
    case None => None
    case Some(colon) =>
      match DisableDictionary(TrimEnd(tail[..colon]), attr)
      case None => None
      case Some(middle) => Some(middle + tail[colon..])
  }

  /** The text between the op name and the colon, with the attribute added. */
  function DisableDictionary(middle: string, attr: string): Option<string> {
    if middle != "" && middle[|middle| - 1] == '}' then
      var head := middle[..|middle| - 1];
      match RFindChar(head, '{')
      case None => None
      case Some(open) =>
        Some(head[..open] + "{" + (attr + ", " + Trim(head[open + 1..])) + "}")
    else
      Some(middle + " {" + attr + "}")
  }

  /** How many leading characters are a blank or an equals sign. */
  function BlankRun(s: string): (n: nat)
    ensures n <= |s|
  {
    if s != "" && (s[0] == ' ' || s[0] == '=') then 1 + BlankRun(s[1..]) else 0
  }

  function DigitRun(s: string): (n: nat)
    ensures n <= |s|
  {
    if s != "" && Digit(s[0]) then 1 + DigitRun(s[1..]) else 0
  }

  /** The integer after `key` replaced by `bound`; `None` when there is none. */
  function ReplaceBound(line: string, key: string, bound: string): Option<string> {
    match Find(line, key)
    case None => None
    case Some(at) =>
      var after := at + |key|;
      var digitsAt := after + BlankRun(line[after..]);
      var end := digitsAt + DigitRun(line[digitsAt..]);
      if end == digitsAt then None
      else Some(line[..digitsAt] + bound + line[end..])
  }

  datatype LineRewrite = Kept | Defeated(text: string) | Unreadable(error: Error)

  function RewriteLine(line: string): LineRewrite {
    if IsComment(line) then Kept
    else if Contains(line, ADMITTED_OP) then
      match DisableAdmission(line)
      case Some(t) => Defeated(t)
      case None => Unreadable(UnreadableAdmission(Trim(line)))
    else if !Contains(line, DIM_BOUNDS_OP) then Kept
    else match ReplaceBound(line, "umin", NO_OFFLOAD_BOUND)
      case None => Unreadable(UnreadableBounds(Trim(line)))
      case Some(once) =>
        match ReplaceBound(once, "umax", NO_OFFLOAD_BOUND)
        case None => Unreadable(UnreadableBounds(Trim(line)))
        case Some(twice) => Defeated(twice)
  }

  // ----- the whole text -----

  datatype Rewritten = Rewritten(text: string, rewritten: nat)

  /** Rewrites line by line, stopping at the first unreadable one. */
  function RewriteLines(rewrite: string -> LineRewrite, lines: seq<string>): Result<Rewritten, Error> {
    if lines == [] then Ok(Rewritten("", 0))
    else Extend(rewrite(lines[0]), lines[0], RewriteLines(rewrite, lines[1..]))
  }

  /** One rewritten line in front of the rest. */
  function Extend(first: LineRewrite, line: string, rest: Result<Rewritten, Error>): Result<Rewritten, Error> {
    match first
    case Unreadable(e) => Err(e)
    case Kept => Prepend(line, 0, rest)
    case Defeated(t) => Prepend(t, 1, rest)
  }

  function Prepend(text: string, n: nat, r: Result<Rewritten, Error>): Result<Rewritten, Error> {
    match r
    case Ok(v) => Ok(Rewritten(text + v.text, n + v.rewritten))
    case Err(e) => Err(e)
  }

  /** The symbol after the last `@`, if it is not empty. */
  function SymbolAfterLastAt(text: string): Option<string> {
    match RFindChar(text, '@')
    case None => None
    case Some(at) =>
      var name := SymbolPrefix(text[at + 1..]);
      if name == "" then None else Some(name)
  }

  /** The matcher of one `@matcher -> @action` chunk. */
  function PairName(chunk: string): seq<string> {
    match Find(chunk, "->")
    case None => []
    case Some(i) =>
      match SymbolAfterLastAt(chunk[..i])
      case None => []
      case Some(name) => [name]
  }

  /** The matchers of a list body, cut at its commas. */
  function ListMatchers(body: string): seq<string> {
    match Find(body, ",")
    case None => PairName(body)
    case Some(i) => PairName(body[..i]) + ListMatchers(body[i + 1..])
  }

  /** The text before the first `mark`, or all of it. */
  function Before(text: string, mark: string): string {
    match Find(text, mark)
    case Some(e) => text[..e]
    case None => text
  }

  /** What `read` finds in every list that `loop` opens and `end` closes. */
  function ReadLists(read: string -> seq<string>, spec: string, loop: string, end: string): seq<string>
    requires loop != ""
  {
    match Find(spec, loop)
    case None => []
    case Some(i) => read(Before(spec[i..], end)) + ReadLists(read, spec[i + |loop|..], loop, end)
  }

  /** The matchers of every `foreach_match` list. */
  function Matchers(spec: string): set<string> {
    Elements(ReadLists(ListMatchers, spec, LOOP, LIST_END))
  }

  predicate PredicateLine(line: string) {
    !IsComment(line) && (Contains(line, DIM_BOUNDS_OP) || Contains(line, ADMITTED_OP))
  }

  predicate AnyLine(p: string -> bool, lines: seq<string>) {
    lines != [] && (p(lines[0]) || AnyLine(p, lines[1..]))
  }

  /** The text from the end of the first `decl` of `name` up to the next `decl`. */
  function BodyText(spec: string, decl: string, name: string): Option<string>
    requires decl != ""
  {
    match Find(spec, decl)
    case None => None
    case Some(i) =>
      var rest := spec[i + |decl|..];
      if SymbolPrefix(rest) == name then Some(Before(rest[|name|..], decl))
      else BodyText(rest, decl, name)
  }

  /** Whether the first sequence declared as `@name` holds something to rewrite. */
  predicate Defeatable(spec: string, name: string) {
    var body := BodyText(spec, DECL, name);
    body.Some? && AnyLine(PredicateLine, Lines(body.value))
  }

  function Neutralize(spec: string): Result<Neutralized, Error> {
    var matchers := Matchers(spec);
    var unconstrained := set m | m in matchers && !Defeatable(spec, m);
    if matchers == {} then Err(NoMatchers)
    else if unconstrained != {} then Err(Unconstrained(unconstrained))
    else match RewriteLines(RewriteLine, LinesInclusive(spec))
      case Err(e) => Err(e)
      case Ok(r) =>
        if r.rewritten == 0 then Err(NothingToRewrite)
        else Ok(Neutralized(r.text, r.rewritten, |matchers|))
  }

  // ----- enabling the opt-in matchers -----

  /** A line without its marker; `None` when it is not marked. */
  function Unmark(line: string, marker: string): Option<string> {
    var t := TrimStart(line);
    if marker <= t then Some(t[|marker|..]) else None
  }

  function UnmarkAll(lines: seq<string>, marker: string): seq<string> {
    if lines == [] then []
    else [match Unmark(lines[0], marker) case Some(t) => t case None => lines[0]]
         + UnmarkAll(lines[1..], marker)
  }

  function MarkedCount(lines: seq<string>, marker: string): nat {
    if lines == [] then 0
    else (if Unmark(lines[0], marker).Some? then 1 else 0) + MarkedCount(lines[1..], marker)
  }

  predicate EndsWithNewline(s: string) {
    s != "" && s[|s| - 1] == '\n'
  }

  function EnableElementwise(spec: string): Result<Rewritten, Error> {
    var lines := Lines(spec);
    var enabled := MarkedCount(lines, ELEMENTWISE_MARKER);
    if enabled == 0 then Err(NoMarkedEntries)
    else
      var text := Join(UnmarkAll(lines, ELEMENTWISE_MARKER), "\n");
      Ok(Rewritten(if EndsWithNewline(spec) then text + "\n" else text, enabled))
  }

  // ----- the loops of the source -----

  method RunNeutralize(spec: string) returns (r: Result<Neutralized, Error>)
    ensures r == Neutralize(spec)
  {
    var names := ReadMatchers(ListMatchers, spec, LOOP, LIST_END);
    var matchers := Elements(names);
    if matchers == {} {
      return Err(NoMatchers);
    }
    var unconstrained := UndefeatableOf(spec, names);
    if unconstrained != {} {
      return Err(Unconstrained(unconstrained));
    }
    var done := RewriteAll(RewriteLine, LinesInclusive(spec));
    match done {
      case Err(e) => return Err(e);
      case Ok(out) =>
        if out.rewritten == 0 {
          return Err(NothingToRewrite);
        }
        return Ok(Neutralized(out.text, out.rewritten, |matchers|));
    }
  }

  method UndefeatableOf(spec: string, names: seq<string>) returns (unconstrained: set<string>)
    ensures unconstrained == set m | m in Elements(names) && !Defeatable(spec, m)
  {
    unconstrained := {};
    for i := 0 to |names|
      invariant unconstrained == set m | m in names[..i] && !Defeatable(spec, m)
    {
      assert names[..i + 1] == names[..i] + [names[i]];
      var body := SequenceBody(spec, DECL, names[i]);
      if body.None? || !AnyLine(PredicateLine, Lines(body.value)) {
        unconstrained := unconstrained + {names[i]};
      }
    }
    assert names[..|names|] == names;
  }

  method RewriteAll(rewrite: string -> LineRewrite, lines: seq<string>)
    returns (r: Result<Rewritten, Error>)
    ensures r == RewriteLines(rewrite, lines)
  {
    var text, rewritten := "", 0;
    assert lines[0..] == lines;
    PrependTwice("", 0, "", 0, RewriteLines(rewrite, lines));
    for i := 0 to |lines|
      invariant RewriteLines(rewrite, lines) == Prepend(text, rewritten, RewriteLines(rewrite, lines[i..]))
    {
      assert lines[i..][1..] == lines[i + 1..];
      var rest := RewriteLines(rewrite, lines[i + 1..]);
      match rewrite(lines[i]) {
        case Unreadable(e) => return Err(e);
        case Kept =>
          PrependTwice(text, rewritten, lines[i], 0, rest);
          text := text + lines[i];
        case Defeated(t) =>
          PrependTwice(text, rewritten, t, 1, rest);
          text, rewritten := text + t, rewritten + 1;
      }
    }
    assert text + "" == text;
    return Ok(Rewritten(text, rewritten));
  }

  lemma PrependTwice(s: string, m: nat, t: string, n: nat, r: Result<Rewritten, Error>)
    ensures Prepend(s, m, Prepend(t, n, r)) == Prepend(s + t, m + n, r)
    ensures Prepend("", 0, r) == r
  {
    if r.Ok? {
      assert "" + r.value.text == r.value.text;
      assert s + (t + r.value.text) == s + t + r.value.text;
    }
  }

  method ReadMatchers(read: string -> seq<string>, spec: string, loop: string, end: string)
    returns (matchers: seq<string>)
    requires loop != ""
    ensures matchers == ReadLists(read, spec, loop, end)
  {
    matchers := [];
    var rest := spec;
    var offset := Find(rest, loop);
    ConcatAssoc(ReadLists(read, spec, loop, end), [], []);
    while offset.Some?
      invariant offset == Find(rest, loop)
      invariant ReadLists(read, spec, loop, end) == matchers + ReadLists(read, rest, loop, end)
      decreases |rest|
    {
      var body := rest[offset.value..];
      var found := read(Before(body, end));
      rest := rest[offset.value + |loop|..];
      ConcatAssoc(matchers, found, ReadLists(read, rest, loop, end));
      matchers := matchers + found;
      offset := Find(rest, loop);
    }
    ConcatAssoc(matchers, [], []);
  }

  method SequenceBody(spec: string, decl: string, name: string) returns (body: Option<string>)
    requires decl != ""
    ensures body == BodyText(spec, decl, name)
  {
    var search := 0;
    var offset := Find(spec, decl);
    assert spec[0..] == spec;
    while offset.Some?
      invariant 0 <= search <= |spec|
      invariant offset == Find(spec[search..], decl)
      invariant BodyText(spec, decl, name) == BodyText(spec[search..], decl, name)
      decreases |spec| - search
    {
      var start := search + offset.value + |decl|;
      var rest := spec[start..];
      assert rest == spec[search..][start - search..];
      if SymbolPrefix(rest) == name {
        return Some(Before(rest[|name|..], decl));
      }
      search := start;
      offset := Find(spec[search..], decl);
    }
    return None;
  }

  method RunEnableElementwise(spec: string) returns (r: Result<Rewritten, Error>)
    ensures r == EnableElementwise(spec)
  {
    var out, enabled := UnmarkEach(Lines(spec), ELEMENTWISE_MARKER);
    if enabled == 0 {
      return Err(NoMarkedEntries);
    }
    var text := Join(out, "\n");
    return Ok(Rewritten(if EndsWithNewline(spec) then text + "\n" else text, enabled));
  }

  method UnmarkEach(lines: seq<string>, marker: string) returns (out: seq<string>, enabled: nat)
    ensures out == UnmarkAll(lines, marker) && enabled == MarkedCount(lines, marker)
  {
    out, enabled := [], 0;
    var rest := lines;
    ConcatAssoc(UnmarkAll(lines, marker), [], []);
    while rest != []
      invariant UnmarkAll(lines, marker) == out + UnmarkAll(rest, marker)
      invariant MarkedCount(lines, marker) == enabled + MarkedCount(rest, marker)
    {
      var kept := rest[0];
      match Unmark(rest[0], marker) {
        case Some(t) => kept, enabled := t, enabled + 1;
        case None =>
      }
      rest := rest[1..];
      ConcatAssoc(out, [kept], UnmarkAll(rest, marker));
      out := out + [kept];
    }
    ConcatAssoc(out, [], []);
  }
}
