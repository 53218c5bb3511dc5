/**
 A transform spec as the sequence of lines MLIR reads in it, its meaning, and the text it
 is printed as.
 */
module SpecModel {
  import opened Text
  import opened SpecRewrite
  import opened SpecLines

  const SEQUENCE := "transform.named_sequence"

  datatype Line =
    | Other(text: string)
    | Comment(indent: string, text: string)
      // the symbol may be quoted, and a visibility keyword may stand in the gap before it
    | Declare(indent: string, gap: string, name: string, quoted: bool, rest: string)
      // the brace that ends a sequence
    | Close(text: string)
    | Admission(indent: string, handle: string, attrs: Option<seq<string>>, rest: string)
    | Bounds(indent: string, value: string, umin: nat, umax: nat, rest: string)
      // an entry the shipped spec carries behind the element-wise marker
    | Marked(indent: string, entry: string)
      // a line with a comment behind it
    | Noted(line: Line, comment: string)
      // a line that spells an op where MLIR reads none: in a string, or as part of another name
    | Mention(text: string)
      // what a predicate line that the rewrite does not disarm has become
    | Altered(text: string)

  function Spelled(name: string, quoted: bool): string {
    if quoted then "\"" + name + "\"" else name
  }

  function LineText(l: Line): string {
    match l
    case Other(text) => text
    case Comment(indent, text) => indent + "//" + text
    case Declare(indent, gap, name, quoted, rest) => indent + SEQUENCE + gap + "@" + Spelled(name, quoted) + rest
    case Close(text) => text
    case Admission(indent, handle, attrs, rest) => AdmissionText(indent, handle, attrs, rest)
    case Bounds(indent, value, umin, umax, rest) => BoundsText(indent, value, umin, umax, rest)
    case Marked(indent, entry) => indent + ELEMENTWISE_MARKER + entry
    case Noted(line, comment) => LineText(line) + "//" + comment
    case Mention(text) => text
    case Altered(text) => text
  }

  function Texts(lines: seq<Line>): seq<string> {
    if lines == [] then [] else [LineText(lines[0])] + Texts(lines[1..])
  }

  function Print(lines: seq<Line>): string {
    Unlines(Texts(lines))
  }

  // ----- meaning -----

  /**
   What a matcher asks of an operation: its dimensions, the planner's admission, and whatever a
   predicate line asks that the rewrite altered without disarming it.
   */
  datatype Op = Op(dim: string -> int, admits: (string, Option<seq<string>>) -> bool, altered: string -> bool)

  /** The line without the comment behind it. */
  function Core(l: Line): Line {
    match l
    case Noted(line, _) => Core(line)
    case _ => l
  }

  predicate IsPredicate(l: Line) {
    var c := Core(l);
    c.Admission? || c.Bounds? || c.Altered?
  }

  predicate Accepts(l: Line, op: Op) {
    match Core(l)
    case Admission(_, handle, attrs, _) =>
      !(attrs.Some? && NO_OFFLOAD_ATTR in attrs.value) && op.admits(handle, attrs)
    case Bounds(_, value, umin, umax, _) => umin <= op.dim(value) <= umax
    case Altered(text) => op.altered(text)
    case _ => true
  }

  /** A sequence ends at its brace, at the latest at the next declaration, however that is spelled. */
  predicate EndsBody(l: Line) {
    Core(l).Declare? || Core(l).Close?
  }

  /** The lines up to the end of the sequence. */
  function UpToEnd(lines: seq<Line>): seq<Line> {
    if lines == [] || EndsBody(lines[0]) then [] else [lines[0]] + UpToEnd(lines[1..])
  }

  predicate Declares(l: Line, name: string) {
    Core(l).Declare? && Core(l).name == name
  }

  /** The body of the first sequence named `name`. */
  function Body(lines: seq<Line>, name: string): Option<seq<Line>> {
    if lines == [] then None
    else if Declares(lines[0], name) then Some(UpToEnd(lines[1..]))
    else Body(lines[1..], name)
  }

  /** A sequence accepts an operation when every predicate in its body does. */
  predicate MatcherAccepts(lines: seq<Line>, name: string, op: Op) {
    var body := Body(lines, name);
    body.Some? && forall l :: l in body.value ==> Accepts(l, op)
  }

  predicate HasPredicate(lines: seq<Line>) {
    exists l :: l in lines && IsPredicate(l)
  }

  /** The sequence holds a predicate of its own. */
  predicate Predicated(lines: seq<Line>, name: string) {
    Body(lines, name).Some? && HasPredicate(Body(lines, name).value)
  }

  // ----- disarming -----

  /** The rewrite makes the line refuse: its attribute lands in the dictionary, its bounds are found. */
  predicate Disarmable(l: Line) {
    match l
    case Admission(indent, handle, attrs, rest) => AdmissionReadable(indent, handle, attrs, rest)
    case Bounds(indent, value, _, _, _) => BoundsTokens(indent, value) && !Contains(LineText(l), ADMITTED_OP)
    case _ => false
  }

  /** What the rewrite makes of a text, itself if it keeps it. */
  function NewText(text: string): string {
    match RewriteLine(text)
    case Defeated(t) => t
    case _ => text
  }

  /** A line after the rewrite. */
  function Disarm(l: Line): Line {
    match l
    case Admission(indent, handle, attrs, rest) =>
      if Disarmable(l) then Admission(indent, handle, DisarmAttrs(attrs), rest)
      else if Contains(LineText(l), NO_OFFLOAD_ATTR) then l
      else Altered(NewText(LineText(l)))
    case Bounds(indent, value, _, _, rest) =>
      if Disarmable(l) then Bounds(indent, value, 999999, 999999, rest) else Altered(NewText(LineText(l)))
    case Noted(line, comment) =>
      var front, t := LineText(line) + "//", NewText(LineText(l));
      Noted(line, if front <= t then t[|front|..] else comment)
    case Mention(text) => Mention(NewText(text))
    case _ => l
  }

  function DisarmAll(lines: seq<Line>): seq<Line> {
    if lines == [] then [] else [Disarm(lines[0])] + DisarmAll(lines[1..])
  }

  /** The lines the rewriter takes for predicates. */
  function Flags(lines: seq<Line>): (r: seq<bool>)
    ensures |r| == |lines|
  {
    if lines == [] then [] else [PredicateLine(LineText(lines[0]))] + Flags(lines[1..])
  }

  // ----- lexical conditions -----

  /** Code without an op name or a key in it. */
  predicate Plain(text: string) {
    && !Contains(text, ADMITTED_OP) && !Contains(text, DIM_BOUNDS_OP)
    && !Contains(text, "umin") && !Contains(text, "umax")
  }

  predicate NoOps(text: string) {
    !Contains(text, ADMITTED_OP) && !Contains(text, DIM_BOUNDS_OP)
  }

  /** The line is one line, reads as what it is, and is not refused. */
  predicate Rewritable(l: Line) {
    && '\n' !in LineText(l) && !RewriteLine(LineText(l)).Unreadable?
    && match l
       case Comment(indent, _) => AllWhite(indent)
       case Marked(indent, _) => AllWhite(indent)
       case Admission(indent, handle, attrs, rest) => AdmissionTokens(indent, handle, attrs)
       case Bounds(indent, value, umin, umax, rest) => AllWhite(indent)
       case Noted(Bounds(indent, value, umin, umax, rest), comment) =>
         AllWhite(indent) && !Contains(LineText(l.line), ADMITTED_OP) && Contains(comment, ADMITTED_OP)
       case Noted(line, comment) =>
         (line.Other? || line.Declare? || line.Close?) && Plain(LineText(line))
       case Mention(_) => true
       case Altered(_) => false
       case _ => NoOps(LineText(l))
  }

  predicate AllRewritable(lines: seq<Line>) {
    lines != [] ==> Rewritable(lines[0]) && AllRewritable(lines[1..])
  }

  // ----- the rewrite of a line -----

  lemma KeptExactly(text: string)
    ensures PredicateLine(text) <==> RewriteLine(text) != Kept
    ensures !RewriteLine(text).Unreadable? ==>
              RewriteLine(text) == if PredicateLine(text) then Defeated(NewText(text)) else Kept
    ensures RewriteLine(text) == Kept ==> NewText(text) == text
  {
    hide IsComment, Contains, DisableAdmission, ReplaceBound, Trim;
  }

  lemma AdmissionFlagged(indent: string, handle: string, attrs: Option<seq<string>>, rest: string)
    requires AdmissionTokens(indent, handle, attrs)
    ensures var line := AdmissionText(indent, handle, attrs, rest);
            && PredicateLine(line) && Contains(line, ADMITTED_OP)
            && RewriteLine(line) == (match DisableAdmission(line)
                                     case Some(t) => Defeated(t)
                                     case None => Unreadable(UnreadableAdmission(Trim(line))))
  {
    AdmissionParts(indent, handle, attrs, rest);
    AdmissionStarts(indent, TailText(handle, attrs, rest));
    hide TailText, AdmissionText, AdmissionTokens, DisableAdmission, Trim, IsComment, Find;
  }

  lemma AdmissionNew(l: Line)
    requires l.Admission? && Rewritable(l)
    ensures LineText(Disarm(l)) == NewText(LineText(l))
  {
    var Admission(indent, handle, attrs, rest) := l;
    hide *;
    AdmissionCases(l);
    AdmissionOutcome(indent, handle, attrs, rest);
  }

  lemma AdmissionCases(l: Line)
    requires l.Admission? && Rewritable(l)
    ensures var text := AdmissionText(l.indent, l.handle, l.attrs, l.rest);
            && LineText(l) == text && AdmissionTokens(l.indent, l.handle, l.attrs)
            && (if AdmissionReadable(l.indent, l.handle, l.attrs, l.rest) then
                  LineText(Disarm(l)) == AdmissionText(l.indent, l.handle, DisarmAttrs(l.attrs), l.rest)
                else if Contains(text, NO_OFFLOAD_ATTR) then LineText(Disarm(l)) == text
                else LineText(Disarm(l)) == NewText(text))
  {
    hide AdmissionText, AdmissionTokens, AdmissionReadable, Contains, RewriteLine, DisarmAttrs, NewText;
  }

  lemma AdmissionOutcome(indent: string, handle: string, attrs: Option<seq<string>>, rest: string)
    requires AdmissionTokens(indent, handle, attrs)
    ensures var text := AdmissionText(indent, handle, attrs, rest);
            && (AdmissionReadable(indent, handle, attrs, rest) ==>
                  NewText(text) == AdmissionText(indent, handle, DisarmAttrs(attrs), rest))
            && (Contains(text, NO_OFFLOAD_ATTR) ==> NewText(text) == text)
  {
    AdmissionFlagged(indent, handle, attrs, rest);
    hide AdmissionText, AdmissionTokens, AdmissionReadable, Contains, RewriteLine, DisarmAttrs, PredicateLine;
    AdmissionExact(indent, handle, attrs, rest);
    if Contains(AdmissionText(indent, handle, attrs, rest), NO_OFFLOAD_ATTR) {
      NamedKept(AdmissionText(indent, handle, attrs, rest));
    }
  }

  lemma NamedKept(text: string)
    requires Contains(text, NO_OFFLOAD_ATTR)
    ensures DisableAdmission(text) == Some(text)
  {
  }

  lemma BoundsFlagged(indent: string, value: string, umin: nat, umax: nat, rest: string)
    requires AllWhite(indent)
    ensures PredicateLine(BoundsText(indent, value, umin, umax, rest))
    ensures Contains(BoundsText(indent, value, umin, umax, rest), DIM_BOUNDS_OP)
  {
    var tail := " " + value + ", umin = " + Decimal(umin) + ", umax = " + Decimal(umax) + " : " + rest;
    BoundsStarts(indent, tail);
    BoundsSpelled(indent + DIM_BOUNDS_OP, value, Decimal(umin), Decimal(umax), rest);
  }

  lemma BoundsNew(l: Line)
    requires l.Bounds? && Rewritable(l)
    ensures LineText(Disarm(l)) == NewText(LineText(l))
  {
    var Bounds(indent, value, umin, umax, rest) := l;
    BoundsCases(l);
    hide *;
    if Disarmable(l) {
      BoundsFlagged(indent, value, umin, umax, rest);
      BoundsRewrite(indent, value, umin, umax, rest);
      BoundsOutcome(LineText(l));
    }
  }

  lemma BoundsCases(l: Line)
    requires l.Bounds? && Rewritable(l)
    ensures LineText(l) == BoundsText(l.indent, l.value, l.umin, l.umax, l.rest) && AllWhite(l.indent)
    ensures Disarmable(l) ==>
              && BoundsTokens(l.indent, l.value) && !Contains(LineText(l), ADMITTED_OP)
              && LineText(Disarm(l)) == BoundsText(l.indent, l.value, 999999, 999999, l.rest)
    ensures !Disarmable(l) ==> LineText(Disarm(l)) == NewText(LineText(l))
  {
    hide BoundsText, Contains, BoundsTokens, RewriteLine, NewText;
  }

  lemma BoundsOutcome(line: string)
    requires PredicateLine(line) && !Contains(line, ADMITTED_OP)
    ensures var once := ReplaceBound(line, "umin", NO_OFFLOAD_BOUND);
            once.Some? && ReplaceBound(once.value, "umax", NO_OFFLOAD_BOUND).Some? ==>
              NewText(line) == ReplaceBound(once.value, "umax", NO_OFFLOAD_BOUND).value
  {
    hide IsComment, Contains, ReplaceBound;
  }

  lemma CommentLine(indent: string, text: string)
    requires AllWhite(indent)
    ensures IsComment(indent + "//" + text)
  {
    TrimStartSkips(indent, "//" + text);
    assert indent + "//" + text == indent + ("//" + text);
  }

  lemma MarkedIsComment(indent: string, entry: string)
    requires AllWhite(indent)
    ensures IsComment(indent + ELEMENTWISE_MARKER + entry)
  {
    var rest := ELEMENTWISE_MARKER[2..] + entry;
    CommentLine(indent, rest);
    assert ELEMENTWISE_MARKER == "//" + ELEMENTWISE_MARKER[2..];
    MarkerGrouped(indent, "//", ELEMENTWISE_MARKER[2..], entry);
  }

  lemma MarkerGrouped(a: string, b: string, c: string, d: string)
    ensures a + (b + c) + d == a + b + (c + d)
  {
  }

  // ----- a comment behind a line -----

  /** What the code before a comment lacks is searched for in the comment. */
  lemma FindBehind(code: string, comment: string, pat: string)
    requires '/' !in pat && pat != "" && !Contains(code, pat)
    ensures Find(code + "//" + comment, pat) ==
            match Find(comment, pat) case None => None case Some(i) => Some(|code| + 2 + i)
  {
    FindSplit(code, '/', "/" + comment, pat);
    FindSplit("", '/', comment, pat);
    NothingIn(pat);
    assert code + ['/'] + ("/" + comment) == code + "//" + comment;
    assert "" + ['/'] + comment == "/" + comment;
  }

  lemma BehindCut(front: string, s: string, k: nat)
    requires k <= |s|
    ensures (front + s)[|front| + k..] == s[k..] && (front + s)[..|front| + k] == front + s[..k]
  {
  }

  lemma BehindGroups(a: string, b: string, c: string, d: string)
    ensures a + b + c + d == a + (b + c + d)
  {
  }

  /** An admission named in the comment: the rewrite edits the comment, if anything. */
  lemma AdmissionBehind(code: string, comment: string, t: string)
    requires !Contains(code, ADMITTED_OP) && DisableAdmission(code + "//" + comment) == Some(t)
    ensures code + "//" <= t
  {
    OpsPlain();
    FindBehind(code, comment, ADMITTED_OP);
    var front := code + "//";
    if !Contains(front + comment, NO_OFFLOAD_ATTR) {
      hide Find, DisableTail, Contains;
      var i := Find(comment, ADMITTED_OP).value;
      BehindCut(front, comment, i);
      var tail := (front + comment)[|front| + i + |ADMITTED_OP|..];
      BehindGroups(front, comment[..i], ADMITTED_OP, DisableTail(tail, NO_OFFLOAD_ATTR).value);
    }
  }

  lemma OpsPlain()
    ensures '/' !in ADMITTED_OP && '/' !in DIM_BOUNDS_OP
  {
  }

  /** A key in the comment: its digits are replaced there. */
  lemma BoundBehind(code: string, comment: string, key: string, bound: string) returns (c: string)
    requires key != "" && '/' !in key && !Contains(code, key)
    requires ReplaceBound(code + "//" + comment, key, bound).Some?
    ensures ReplaceBound(code + "//" + comment, key, bound) == Some(code + "//" + c)
  {
    var front := code + "//";
    var i, k, j := BoundPlaces(code, comment, key, bound);
    hide *;
    BehindCut(front, comment, k);
    BehindCut(front, comment, j);
    c := comment[..k] + bound + comment[j..];
    BehindGroups(front, comment[..k], bound, comment[j..]);
  }

  lemma BoundPlaces(code: string, comment: string, key: string, bound: string) returns (i: nat, k: nat, j: nat)
    requires key != "" && '/' !in key && !Contains(code, key)
    requires ReplaceBound(code + "//" + comment, key, bound).Some?
    ensures i <= k <= j <= |comment|
    ensures var line, n := code + "//" + comment, |code + "//"|;
            n + j <= |line| && ReplaceBound(line, key, bound) == Some(line[..n + k] + bound + line[n + j..])
  {
    FindBehind(code, comment, key);
    var front := code + "//";
    var line := front + comment;
    i := Find(comment, key).value + |key|;
    BehindCut(front, comment, i);
    hide Find, Contains;
    k := i + BlankRun(comment[i..]);
    BehindCut(front, comment, k);
    j := k + DigitRun(comment[k..]);
    hide BlankRun, DigitRun;
    assert |front| == |code| + 2;
  }

  /** The rewrite of a line with a comment behind plain code touches the comment only. */
  lemma NotedRewrite(code: string, comment: string)
    requires Plain(code) || (!Contains(code, ADMITTED_OP) && Contains(comment, ADMITTED_OP))
    ensures code + "//" <= NewText(code + "//" + comment)
  {
    var line := code + "//" + comment;
    var r := RewriteLine(line);
    if r.Defeated? {
      if Contains(line, ADMITTED_OP) {
        hide Contains, DisableAdmission, IsComment;
        AdmissionBehind(code, comment, r.text);
      } else {
        NamedBehind(code, comment);
        hide Contains, ReplaceBound, IsComment;
        var once := BoundBehind(code, comment, "umin", NO_OFFLOAD_BOUND);
        var twice := BoundBehind(code, once, "umax", NO_OFFLOAD_BOUND);
      }
    }
  }

  lemma NamedBehind(code: string, comment: string)
    ensures Contains(comment, ADMITTED_OP) ==> Contains(code + "//" + comment, ADMITTED_OP)
  {
    PartsFree(code + "//", comment, ADMITTED_OP);
  }

  lemma NotedNew(l: Line)
    requires l.Noted? && Rewritable(l)
    ensures LineText(Disarm(l)) == NewText(LineText(l))
  {
    NotedPlain(l);
    hide Plain, Rewritable, NewText, Contains;
    NotedRewrite(LineText(l.line), l.comment);
    PrefixParts(LineText(l.line) + "//", NewText(LineText(l)));
  }

  lemma NotedPlain(l: Line)
    requires l.Noted? && Rewritable(l)
    ensures var code := LineText(l.line);
            Plain(code) || (!Contains(code, ADMITTED_OP) && Contains(l.comment, ADMITTED_OP))
  {
    hide Plain, Contains, LineText, RewriteLine;
  }

  lemma PrefixParts(front: string, t: string)
    requires front <= t
    ensures front + t[|front|..] == t
  {
  }

  // ----- every line -----

  /** Lines that are no predicates and carry no comment are kept. */
  lemma OthersKept(l: Line)
    requires Rewritable(l) && !IsPredicate(l) && !l.Noted? && !l.Mention?
    ensures !PredicateLine(LineText(l)) && Disarm(l) == l
  {
    match l
    case Comment(indent, text) => CommentLine(indent, text);
    case Marked(indent, entry) => MarkedIsComment(indent, entry);
    case _ =>
  }

  /** The text of a line is rewritten to the text of the disarmed line. */
  lemma RewriteModelLine(l: Line)
    requires Rewritable(l)
    ensures RewriteLine(LineText(l)) ==
            if PredicateLine(LineText(l)) then Defeated(LineText(Disarm(l))) else Kept
    ensures !PredicateLine(LineText(l)) ==> LineText(Disarm(l)) == LineText(l)
  {
    KeptExactly(LineText(l));
    match l
    case Admission(_, _, _, _) => AdmissionNew(l);
    case Bounds(_, _, _, _, _) => BoundsNew(l);
    case Noted(_, _) => NotedNew(l);
    case Mention(_) =>
    case _ => OthersKept(l);
  }

  /** The rewriter sees every predicate; what else it takes for one is named in a comment or a string. */
  lemma PredicateSeen(l: Line)
    requires Rewritable(l)
    ensures IsPredicate(l) ==> PredicateLine(LineText(l))
    ensures PredicateLine(LineText(l)) ==> IsPredicate(l) || l.Noted? || l.Mention?
  {
    if IsPredicate(l) {
      match l
      case Admission(indent, handle, attrs, rest) => AdmissionFlagged(indent, handle, attrs, rest);
      case Bounds(indent, value, umin, umax, rest) => BoundsFlagged(indent, value, umin, umax, rest);
      case Noted(Bounds(indent, value, umin, umax, rest), comment) =>
        BoundsFlagged(indent, value, umin, umax, rest + "//" + comment);
        BoundsNoted(indent, value, umin, umax, rest, comment);
      case _ =>
    } else if !l.Noted? && !l.Mention? {
      OthersKept(l);
    }
  }

  lemma BoundsNoted(indent: string, value: string, umin: nat, umax: nat, rest: string, comment: string)
    ensures BoundsText(indent, value, umin, umax, rest) + "//" + comment ==
            BoundsText(indent, value, umin, umax, rest + "//" + comment)
  {
    var front := indent + DIM_BOUNDS_OP + " " + value + ", umin = " + Decimal(umin) + ", umax = " + Decimal(umax);
    NotedGroups(front + " : ", rest, comment);
  }

  lemma NotedGroups(a: string, rest: string, comment: string)
    ensures a + rest + "//" + comment == a + (rest + "//" + comment)
  {
  }
}
