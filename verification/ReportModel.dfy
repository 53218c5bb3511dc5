/**
 A placed module as nested blocks, and what the one-pass scan makes of its text.
 */
module ReportModel {
  import opened Text
  import opened Decisions
  import opened Report
  import opened Quoting
  import D = DecisionsModel

  datatype Tag = RocketTag | CpuTag | Foreign(value: string) | Untagged

  datatype BodyLine =
    | Export(indent: string, pre: string, name: string, quoted: bool, post: string)
      // an export that names no symbol
    | Unnamed(indent: string, rest: string)
    | Inner(text: string)

  datatype Item =
    | Exec(indent: string, vis: string, name: string, quoted: bool, mid: string, tag: Tag, post: string,
           body: seq<BodyLine>)
      // an executable that names no symbol
    | Nameless(indent: string, rest: string, body: seq<BodyLine>)
    | Dispatch(indent: string, lead: string, name: string, quoted: bool, rest: string)
    | Plain(text: string)

  // ----- printing -----

  function TagValue(tag: Tag): Option<string> {
    match tag
    case RocketTag => Some("rocket")
    case CpuTag => Some("cpu")
    case Foreign(value) => Some(value)
    case Untagged => None
  }

  function TagText(tag: Tag): string {
    match TagValue(tag)
    case None => ""
    case Some(value) => TAG + value + "\""
  }

  function HeaderHead(e: Item): string
    requires e.Exec?
  {
    e.indent + EXECUTABLE + e.vis + D.SymbolText(e.name, e.quoted) + e.mid
  }

  function HeaderText(e: Item): string
    requires e.Exec?
  {
    HeaderHead(e) + TagText(e.tag) + e.post
  }

  function BodyText(b: BodyLine): string {
    match b
    case Export(indent, pre, name, quoted, post) =>
      indent + EXPORT + pre + D.SymbolText(name, quoted) + post
    case Unnamed(indent, rest) => indent + EXPORT + rest
    case Inner(text) => text
  }

  function BodyTexts(body: seq<BodyLine>): seq<string> {
    if body == [] then [] else [BodyText(body[0])] + BodyTexts(body[1..])
  }

  /** The symbol of a dispatch line, after its `@`. */
  function Bare(name: string, quoted: bool): string {
    if quoted then "\"" + name + "\"" else name
  }

  function DispatchText(d: Item): string
    requires d.Dispatch?
  {
    d.indent + (d.lead + DISPATCH + (Bare(d.name, d.quoted) + "::" + d.rest))
  }

  function ItemTexts(i: Item): seq<string> {
    match i
    case Exec(_, _, _, _, _, _, _, body) => [HeaderText(i)] + BodyTexts(body)
    case Nameless(indent, rest, body) => [indent + EXECUTABLE + rest] + BodyTexts(body)
    case Dispatch(_, _, _, _, _) => [DispatchText(i)]
    case Plain(text) => [text]
  }

  function Texts(items: seq<Item>): seq<string> {
    if items == [] then [] else ItemTexts(items[0]) + Texts(items[1..])
  }

  // ----- lexical conditions -----

  predicate Ends(line: string) {
    '\n' !in line && (line == "" || line[|line| - 1] != '\r')
  }

  predicate SymbolOk(name: string, quoted: bool, after: string) {
    if quoted then '"' !in name
    else Symbol(name) && (after == "" || !SymbolChar(after[0]))
  }

  /** Neither an executable, nor an export, nor a dispatch. */
  predicate Ignorable(line: string) {
    && !(EXECUTABLE <= TrimStart(line)) && !(EXPORT <= TrimStart(line))
    && !Contains(line, DISPATCH)
  }

  predicate BodyClean(b: BodyLine) {
    && Ends(BodyText(b))
    && match b
       case Export(indent, pre, name, quoted, post) =>
         AllWhite(indent) && '@' !in pre && SymbolOk(name, quoted, post) && !Contains(BodyText(b), DISPATCH)
       case Unnamed(indent, rest) => AllWhite(indent) && '@' !in rest
       case Inner(text) => Ignorable(text)
  }

  predicate AllBodyClean(body: seq<BodyLine>) {
    body != [] ==> BodyClean(body[0]) && AllBodyClean(body[1..])
  }

  predicate ItemClean(i: Item) {
    match i
    case Exec(indent, vis, name, quoted, mid, tag, post, body) =>
      && Ends(HeaderText(i)) && AllWhite(indent) && '@' !in vis
      && SymbolOk(name, quoted, mid + (TagText(tag) + post)) && !Contains(HeaderText(i), DISPATCH)
      && (if tag.Untagged? then !Contains(HeaderText(i), TAG)
          else !Contains(HeaderHead(i), TAG) && '"' !in TagValue(tag).value)
      && (tag.Foreign? ==> tag.value != "rocket" && tag.value != "cpu")
      && AllBodyClean(body)
    case Nameless(indent, rest, body) =>
      Ends(indent + EXECUTABLE + rest) && AllWhite(indent) && '@' !in rest && AllBodyClean(body)
    case Dispatch(indent, lead, name, quoted, rest) =>
      && Ends(DispatchText(i)) && AllWhite(indent) && (lead == "" || !White(lead[0]))
      && !Contains(lead, DISPATCH) && SymbolOk(name, quoted, "::") && !Contains(name, "::")
      && !(EXECUTABLE <= lead + DISPATCH + Bare(name, quoted)) && !(EXPORT <= lead + DISPATCH + Bare(name, quoted))
    case Plain(text) => Ends(text) && Ignorable(text)
  }

  predicate AllClean(items: seq<Item>) {
    items != [] ==> ItemClean(items[0]) && AllClean(items[1..])
  }

  // ----- the structured reading -----

  function ExportNames(body: seq<BodyLine>): seq<string> {
    if body == [] then []
    else (if body[0].Export? then [body[0].name] else []) + ExportNames(body[1..])
  }

  function TagBucket(tag: Tag): Option<bool> {
    match tag
    case RocketTag => Some(true)
    case CpuTag => Some(false)
    case _ => None
  }

  /** How many dispatch lines name `name`. */
  function DispatchCount(items: seq<Item>, name: string): nat {
    if items == [] then 0
    else (if items[0].Dispatch? && items[0].name == name then 1 else 0) + DispatchCount(items[1..], name)
  }

  /** The executables tagged for one bucket, each with its own exports. */
  function Tagged(items: seq<Item>, isRocket: bool): seq<Executable> {
    if items == [] then []
    else
      (if items[0].Exec? && TagBucket(items[0].tag) == Some(isRocket)
       then [Executable(items[0].name, ExportNames(items[0].body), 0)] else [])
      + Tagged(items[1..], isRocket)
  }

  function Counted(execs: seq<Executable>, items: seq<Item>): seq<Executable> {
    if execs == [] then []
    else [execs[0].(dispatches := DispatchCount(items, execs[0].name))] + Counted(execs[1..], items)
  }

  function Structured(items: seq<Item>): Placement {
    Placement(Counted(Tagged(items, true), items), Counted(Tagged(items, false), items))
  }

  // ----- one line -----

  lemma TargetNone(line: string)
    requires !Contains(line, DISPATCH)
    ensures TargetOf(line) == None
  {
    var w := TrimmedOff(line);
    PartsFree(w, TrimStart(line), DISPATCH);
  }

  lemma {:induction false} TrimmedOff(line: string) returns (w: string)
    ensures w + TrimStart(line) == line
  {
    if line != "" && White(line[0]) {
      var v := TrimmedOff(line[1..]);
      w := [line[0]] + v;
      ConcatAssoc([line[0]], v, TrimStart(line[1..]));
    } else {
      w := "";
    }
  }

  lemma LineStarts(indent: string, op: string, tail: string)
    requires AllWhite(indent) && op != "" && !White(op[0])
    ensures op <= TrimStart(indent + op + tail) && TrimStart(indent + op + tail) == op + tail
  {
    assert indent + op + tail == indent + (op + tail);
    TrimStartSkips(indent, op + tail);
  }

  lemma SymbolAt(pre: string, name: string, quoted: bool, after: string)
    requires '@' !in pre && SymbolOk(name, quoted, after)
    ensures SymbolName(pre + D.SymbolText(name, quoted) + after) == Some(name)
  {
    D.SymbolNameIs(pre, name, quoted, after);
  }

  lemma ExportLine(b: BodyLine)
    requires b.Export? && BodyClean(b)
    ensures KindOf(BodyText(b)) == Exports(Some(b.name)) && TargetOf(BodyText(b)) == None
  {
    hide Find, FindFrom, SymbolName;
    var sym := D.SymbolText(b.name, b.quoted);
    TargetNone(BodyText(b));
    ExportGrouped(b.indent, EXPORT, b.pre, sym, b.post);
    LineStarts(b.indent, EXPORT, b.pre + sym + b.post);
    NoAtExport(b.indent, b.pre);
    SymbolAt(b.indent + EXPORT + b.pre, b.name, b.quoted, b.post);
    NotExecutable(b.pre + sym + b.post);
  }

  lemma ExportGrouped(indent: string, op: string, pre: string, sym: string, post: string)
    ensures indent + op + pre + sym + post == indent + op + (pre + sym + post)
  {
  }

  /** A line that names no symbol, and so mentions no dispatch either. */
  lemma NoSymbolLine(indent: string, op: string, rest: string)
    requires AllWhite(indent) && op != "" && !White(op[0]) && '@' !in op && '@' !in rest
    ensures SymbolName(indent + op + rest) == None && TargetOf(indent + op + rest) == None
    ensures TrimStart(indent + op + rest) == op + rest
  {
    var s := indent + op + rest;
    LineStarts(indent, op, rest);
    assert '@' !in s;
    CharFree(s, "@", '@');
    LastAt();
    CharFree(s, DISPATCH, '@');
    TargetNone(s);
  }

  lemma LastAt()
    ensures '@' in DISPATCH
  {
    assert DISPATCH[|DISPATCH| - 1] == '@';
  }

  lemma UnnamedLine(indent: string, rest: string)
    requires AllWhite(indent) && '@' !in rest
    ensures KindOf(indent + EXPORT + rest) == Exports(None) && TargetOf(indent + EXPORT + rest) == None
  {
    NoAtExport("", "");
    NoSymbolLine(indent, EXPORT, rest);
    NotExecutable(rest);
  }

  lemma NamelessLine(indent: string, rest: string)
    requires AllWhite(indent) && '@' !in rest
    ensures KindOf(indent + EXECUTABLE + rest).Opens? && KindOf(indent + EXECUTABLE + rest).name == None
    ensures TargetOf(indent + EXECUTABLE + rest) == None
  {
    NoAtExport("", "");
    NoSymbolLine(indent, EXECUTABLE, rest);
  }

  lemma NoAtExport(indent: string, pre: string)
    requires AllWhite(indent) && '@' !in pre
    ensures '@' !in indent + EXPORT + pre && '@' !in indent + EXECUTABLE + pre
  {
  }

  lemma NotExecutable(tail: string)
    ensures !(EXECUTABLE <= EXPORT + tail)
  {
    assert (EXPORT + tail)[14] == '.' && EXECUTABLE[14] == ' ';
  }

  lemma TagBorder()
    ensures BorderFree(TAG) && BorderFree(DISPATCH)
  {
    FirstTwo(TAG);
    FirstTwo(DISPATCH);
  }

  lemma HeaderTag(head: string, tag: Tag, post: string)
    requires if tag.Untagged? then !Contains(head + TagText(tag) + post, TAG)
             else !Contains(head, TAG) && '"' !in TagValue(tag).value
    ensures ExtractAttr(head + TagText(tag) + post, TAG) == TagValue(tag)
  {
    if !tag.Untagged? {
      hide Find, FindFrom;
      var value := TagValue(tag).value;
      var rest := value + "\"" + post;
      var line := head + TagText(tag) + post;
      TagBorder();
      FindAfter(head, TAG, rest);
      TagGrouped(head, TAG, value, post);
      assert line[|head| + |TAG|..] == rest;
      QuoteAfter(value, post);
      assert rest[..|value|] == value;
    }
  }

  lemma TagGrouped(head: string, tag: string, value: string, post: string)
    ensures head + (tag + value + "\"") + post == head + tag + (value + "\"" + post)
  {
  }

  lemma HeaderLine(e: Item)
    requires e.Exec? && ItemClean(e)
    ensures KindOf(HeaderText(e)) == Opens(Some(e.name), TagValue(e.tag)) && TargetOf(HeaderText(e)) == None
  {
    hide Find, FindFrom, SymbolName, ExtractAttr, AllBodyClean, TagText;
    var sym, tail := D.SymbolText(e.name, e.quoted), TagText(e.tag) + e.post;
    TargetNone(HeaderText(e));
    HeaderGrouped(e.indent, EXECUTABLE, e.vis, sym, e.mid, TagText(e.tag), e.post);
    LineStarts(e.indent, EXECUTABLE, e.vis + sym + e.mid + tail);
    NoAtExport(e.indent, e.vis);
    SymbolAt(e.indent + EXECUTABLE + e.vis, e.name, e.quoted, e.mid + tail);
    HeaderTag(HeaderHead(e), e.tag, e.post);
  }

  lemma HeaderGrouped(indent: string, op: string, vis: string, sym: string, mid: string, tag: string, post: string)
    ensures indent + op + vis + sym + mid + tag + post == indent + op + (vis + sym + mid + (tag + post))
    ensures indent + op + vis + sym + mid + tag + post == indent + op + vis + sym + (mid + (tag + post))
  {
  }

  lemma QuotesTrimmed(name: string)
    requires '"' !in name
    ensures TrimQuotes(name) == name && TrimQuotes("\"" + name + "\"") == name
  {
    var q, r := "\"" + name + "\"", name + "\"";
    if name == "" {
      assert q[1..] == "\"" && "\""[1..] == "";
      assert TrimQuotes("\"") == "";
    } else {
      assert name[0] in name && name[|name| - 1] in name;
      assert TrimQuotes(name) == name;
      assert r[0] == name[0] && r[..|r| - 1] == name;
      assert TrimQuotes(r) == name;
      assert q[1..] == r;
    }
  }

  lemma DoubleColon(sym: string, rest: string)
    requires !Contains(sym, "::") && (sym == "" || sym[|sym| - 1] != ':')
    ensures Find(sym + "::" + rest, "::") == Some(|sym|)
  {
    var s := sym + "::" + rest;
    FindSpec(sym, "::");
    assert OccursAt(s, |sym|, "::");
    forall i | 0 <= i < |sym| ensures !OccursAt(s, i, "::") {
      if i + 1 < |sym| {
        assert !OccursAt(sym, i, "::");
        var k :| 0 <= k < 2 && sym[i + k] != "::"[k];
        assert s[i + k] == sym[i + k];
      } else {
        assert s[i + 0] == sym[i] != "::"[0];
      }
    }
    FindIs(s, "::", |sym|);
  }

  lemma BareFree(name: string, quoted: bool)
    requires SymbolOk(name, quoted, "::") && !Contains(name, "::")
    ensures !Contains(Bare(name, quoted), "::")
    ensures Bare(name, quoted) == "" || Bare(name, quoted)[|Bare(name, quoted)| - 1] != ':'
    ensures TrimQuotes(Bare(name, quoted)) == name
  {
    if quoted {
      CharFree("", "::", ':');
      ContainsSplit(name, '"', "", "::");
      ContainsSplit("", '"', name + "\"", "::");
      assert name + ['"'] + "" == name + "\"" && "" + ['"'] + (name + "\"") == Bare(name, quoted);
    } else {
      assert name[|name| - 1] in name;
      assert '"' !in name;
    }
    QuotesTrimmed(name);
  }

  lemma DispatchTrimmed(d: Item)
    requires d.Dispatch? && ItemClean(d)
    ensures TrimStart(DispatchText(d)) == d.lead + DISPATCH + (Bare(d.name, d.quoted) + "::" + d.rest)
  {
    TrimStartSkips(d.indent, d.lead + DISPATCH + (Bare(d.name, d.quoted) + "::" + d.rest));
    hide SymbolOk, Bare, Contains, TrimStart;
  }

  lemma DispatchLine(d: Item)
    requires d.Dispatch? && ItemClean(d)
    ensures TargetOf(DispatchText(d)) == Some(d.name) && KindOf(DispatchText(d)) == Quiet
  {
    var sym := Bare(d.name, d.quoted);
    DispatchTrimmed(d);
    BareFree(d.name, d.quoted);
    hide Find, FindFrom, TrimQuotes, SymbolOk, Bare, Contains, TrimStart, DispatchText, DispatchTarget, SymbolName;
    TargetIs(d.lead, sym, d.rest, d.name);
    NotPrefixed(EXECUTABLE, d.lead + DISPATCH + sym, d.rest);
    NotPrefixed(EXPORT, d.lead + DISPATCH + sym, d.rest);
    DispatchGrouped(d.lead, DISPATCH, sym, d.rest);
  }

  lemma TargetIs(lead: string, sym: string, after: string, name: string)
    requires !Contains(lead, DISPATCH) && TrimQuotes(sym) == name
    requires !Contains(sym, "::") && (sym == "" || sym[|sym| - 1] != ':')
    ensures DispatchTarget(lead + DISPATCH + (sym + "::" + after)) == Some(name)
  {
    hide Find, FindFrom, TrimQuotes, Contains;
    DispatchFound(lead, sym, after);
    DoubleColon(sym, after);
    assert (sym + "::" + after)[..|sym|] == sym;
  }

  lemma DispatchFound(lead: string, sym: string, after: string)
    requires !Contains(lead, DISPATCH)
    ensures var rest := sym + "::" + after;
            var tail := lead + DISPATCH + rest;
            Find(tail, DISPATCH) == Some(|lead|) && tail[|lead| + |DISPATCH|..] == rest
  {
    TagBorder();
    FindAfter(lead, DISPATCH, sym + "::" + after);
  }

  /** A quoted name that holds a double colon is cut there. */
  lemma QuotedCut(name: string, i: nat, tail: string)
    requires '"' !in name && Find(name, "::") == Some(i)
    ensures Find("\"" + name + tail, "::") == Some(1 + i) && TrimQuotes("\"" + name[..i]) == name[..i]
  {
    var s := "\"" + name + tail;
    FindSpec(name, "::");
    assert s[1 + i + 0] == name[i + 0] && s[1 + i + 1] == name[i + 1];
    assert OccursAt(s, 1 + i, "::");
    forall j | 0 <= j < 1 + i ensures !OccursAt(s, j, "::") {
      if j > 0 {
        assert !OccursAt(name, j - 1, "::");
        var k :| 0 <= k < 2 && name[j - 1 + k] != "::"[k];
        assert s[j + k] == name[j - 1 + k];
        assert s[j + k] != "::"[k];
      } else {
        assert s[j + 0] == '"' && "::"[0] == ':';
      }
    }
    FindIs(s, "::", 1 + i);
    QuotesTrimmed(name[..i]);
    assert ("\"" + name[..i])[1..] == name[..i];
  }

  /**
   A dispatch line that names its executable in quotes is read as that executable if and
   only if the name holds no double colon: the search for the end does not see the quotes.
   */
  lemma QuotedTargetExact(lead: string, name: string, rest: string)
    requires '"' !in name && !Contains(lead, DISPATCH)
    ensures DispatchTarget(lead + DISPATCH + ("\"" + name + "\"" + "::" + rest)) == Some(name) <==>
            !Contains(name, "::")
  {
    hide TrimQuotes, SymbolOk;
    var sym := "\"" + name + "\"";
    var tail := sym + "::" + rest;
    TagBorder();
    FindAfter(lead, DISPATCH, tail);
    assert (lead + DISPATCH + tail)[|lead| + |DISPATCH|..] == tail;
    if Contains(name, "::") {
      var i := Find(name, "::").value;
      QuotedCut(name, i, "\"" + "::" + rest);
      assert tail == "\"" + name + ("\"" + "::" + rest);
      assert tail[..1 + i] == "\"" + name[..i];
      assert |name[..i]| < |name|;
    } else {
      CharFree("", "::", ':');
      ContainsSplit(name, '"', "", "::");
      ContainsSplit("", '"', name + "\"", "::");
      assert name + ['"'] + "" == name + "\"" && "" + ['"'] + (name + "\"") == sym;
      QuotesTrimmed(name);
      DoubleColon(sym, rest);
      assert tail[..|sym|] == sym;
    }
  }

  lemma DispatchGrouped(lead: string, op: string, sym: string, rest: string)
    ensures lead + op + (sym + "::" + rest) == lead + op + sym + ("::" + rest)
  {
  }

  /** A prefix without a colon ends before the double colon. */
  lemma NotPrefixed(p: string, a: string, rest: string)
    requires ':' !in p && !(p <= a)
    ensures !(p <= a + ("::" + rest))
  {
    var t := a + ("::" + rest);
    if |p| <= |a| {
      assert t[..|p|] == a[..|p|];
    } else {
      assert t[|a|] == ':' && p[|a|] in p;
    }
  }

  // ----- the pass over blocks -----

  lemma {:induction false} AdvanceConcat(st: State, a: seq<string>, b: seq<string>)
    ensures AdvanceAll(st, a + b) == AdvanceAll(AdvanceAll(st, a), b)
    decreases |a|
  {
    if a == [] {
      assert a + b == b;
    } else {
      hide Advance, KindOf, TargetOf;
      assert (a + b)[1..] == a[1..] + b;
      AdvanceConcat(Advance(st, KindOf(a[0]), TargetOf(a[0])), a[1..], b);
    }
  }

  /** The body of a block adds its exports to the last executable of the current bucket. */
  function WithExports(p: Placement, current: Option<bool>, names: seq<string>): Placement
    decreases |names|
  {
    if names == [] || current.None? then p
    else WithExports(PushExport(p, current.value, names[0]), current, names[1..])
  }

  lemma {:induction false} BodyPass(st: State, body: seq<BodyLine>)
    requires AllBodyClean(body)
    ensures AdvanceAll(st, BodyTexts(body)) ==
            st.(report := WithExports(st.report, st.current, ExportNames(body)))
    decreases |body|
  {
    if body != [] {
      hide BodyClean, KindOf, TargetOf, BodyText, PushExport;
      var b, text := body[0], BodyText(body[0]);
      assert BodyTexts(body)[0] == text && BodyTexts(body)[1..] == BodyTexts(body[1..]);
      BodyLineKind(b);
      var next := Advance(st, KindOf(text), TargetOf(text));
      BodyPass(next, body[1..]);
      if b.Export? {
        assert ExportNames(body)[1..] == ExportNames(body[1..]);
      } else {
        ConcatAssoc(ExportNames(body[1..]), [], []);
      }
    }
  }

  lemma BodyLineKind(b: BodyLine)
    requires BodyClean(b)
    ensures KindOf(BodyText(b)) ==
            if b.Export? then Exports(Some(b.name)) else if b.Unnamed? then Exports(None) else Quiet
    ensures TargetOf(BodyText(b)) == None
  {
    if b.Export? {
      ExportLine(b);
    } else if b.Unnamed? {
      UnnamedLine(b.indent, b.rest);
    } else {
      TargetNone(b.text);
    }
  }

  lemma {:induction false} ExportsOf(p: Placement, isRocket: bool, execs: seq<Executable>, e: Executable,
                                        names: seq<string>)
    requires (if isRocket then p.rocket else p.cpu) == execs + [e]
    ensures WithExports(p, Some(isRocket), names) ==
            var done := execs + [e.(exports := e.exports + names)];
            if isRocket then p.(rocket := done) else p.(cpu := done)
    decreases |names|
  {
    if names == [] {
      assert e.exports + names == e.exports;
    } else {
      var added := e.(exports := e.exports + [names[0]]);
      assert (execs + [e])[..|execs|] == execs;
      ExportsOf(PushExport(p, isRocket, names[0]), isRocket, execs, added, names[1..]);
      assert e.exports + [names[0]] + names[1..] == e.exports + names;
    }
  }

  /** The report after one item. */
  function AfterItem(p: Placement, i: Item): Placement {
    if i.Exec? && TagBucket(i.tag).Some? then
      Push(p, TagBucket(i.tag).value, Executable(i.name, ExportNames(i.body), 0))
    else p
  }

  lemma ItemPass(st: State, i: Item)
    requires ItemClean(i)
    ensures var next := AdvanceAll(st, ItemTexts(i));
            && next.report == AfterItem(st.report, i)
            && next.counts == Tally(st.counts, if i.Dispatch? then Some(i.name) else None)
  {
    hide KindOf, TargetOf, HeaderText, BodyTexts, DispatchText, BodyClean, Push;
    match i
    case Exec(_, _, name, _, _, tag, _, body) =>
      HeaderLine(i);
      var head := HeaderText(i);
      var started := Advance(st, KindOf(head), TargetOf(head));
      assert ItemTexts(i)[0] == head && ItemTexts(i)[1..] == BodyTexts(body);
      BodyPass(started, body);
      ExecPass(st, i, started);
    case Nameless(indent, rest, body) =>
      NamelessLine(indent, rest);
      var head := indent + EXECUTABLE + rest;
      var started := Advance(st, KindOf(head), TargetOf(head));
      assert ItemTexts(i)[0] == head && ItemTexts(i)[1..] == BodyTexts(body);
      BodyPass(started, body);
    case Dispatch(_, _, _, _, _) =>
      DispatchLine(i);
      assert ItemTexts(i)[1..] == [];
    case Plain(text) =>
      TargetNone(text);
      PlainKind(text);
      assert ItemTexts(i)[1..] == [];
  }

  lemma PlainKind(text: string)
    requires Ignorable(text)
    ensures KindOf(text) == Quiet
  {
  }

  lemma ExecPass(st: State, i: Item, started: State)
    requires i.Exec? && (i.tag.Foreign? ==> i.tag.value != "rocket" && i.tag.value != "cpu")
    requires started == Advance(st, Opens(Some(i.name), TagValue(i.tag)), None)
    ensures WithExports(started.report, started.current, ExportNames(i.body)) == AfterItem(st.report, i)
  {
    var bucket := Bucket(TagValue(i.tag));
    assert bucket == TagBucket(i.tag);
    if bucket.Some? {
      var e := Executable(i.name, [], 0);
      var execs := if bucket.value then st.report.rocket else st.report.cpu;
      ExportsOf(started.report, bucket.value, execs, e, ExportNames(i.body));
      assert [] + ExportNames(i.body) == ExportNames(i.body);
    }
  }

  lemma {:induction false} ModulePass(st: State, items: seq<Item>)
    requires AllClean(items)
    ensures var done := AdvanceAll(st, Texts(items));
            && done.report.rocket == st.report.rocket + Tagged(items, true)
            && done.report.cpu == st.report.cpu + Tagged(items, false)
            && forall n :: CountOf(done.counts, n) == CountOf(st.counts, n) + DispatchCount(items, n)
    decreases |items|
  {
    if items == [] {
      ConcatAssoc(st.report.rocket, [], []);
      ConcatAssoc(st.report.cpu, [], []);
    } else {
      hide ItemClean, ItemTexts, Advance;
      var next := AdvanceAll(st, ItemTexts(items[0]));
      AdvanceConcat(st, ItemTexts(items[0]), Texts(items[1..]));
      ItemPass(st, items[0]);
      ModulePass(next, items[1..]);
      TaggedStep(st.report, items, true);
      TaggedStep(st.report, items, false);
    }
  }

  lemma TaggedStep(p: Placement, items: seq<Item>, isRocket: bool)
    requires items != []
    ensures var q := AfterItem(p, items[0]);
            (if isRocket then q.rocket else q.cpu) + Tagged(items[1..], isRocket) ==
            (if isRocket then p.rocket else p.cpu) + Tagged(items, isRocket)
  {
    var q := AfterItem(p, items[0]);
    var a := if isRocket then p.rocket else p.cpu;
    var one := if items[0].Exec? && TagBucket(items[0].tag) == Some(isRocket)
               then [Executable(items[0].name, ExportNames(items[0].body), 0)] else [];
    ConcatAssoc(a, one, Tagged(items[1..], isRocket));
    ConcatAssoc(a, [], []);
    assert (if isRocket then q.rocket else q.cpu) == a + one;
  }

  lemma {:induction false} TextsEnd(items: seq<Item>)
    requires AllClean(items)
    ensures NoLineFeeds(Texts(items)) && StripAll(Texts(items)) == Texts(items)
  {
    if items != [] {
      TextsEnd(items[1..]);
      ItemEnds(items[0]);
      EndsConcat(ItemTexts(items[0]), Texts(items[1..]));
    }
  }

  lemma {:induction false} BodyEnds(body: seq<BodyLine>)
    requires AllBodyClean(body)
    ensures NoLineFeeds(BodyTexts(body)) && StripAll(BodyTexts(body)) == BodyTexts(body)
  {
    if body != [] {
      BodyEnds(body[1..]);
      assert BodyTexts(body)[1..] == BodyTexts(body[1..]);
    }
  }

  lemma ItemEnds(i: Item)
    requires ItemClean(i)
    ensures NoLineFeeds(ItemTexts(i)) && StripAll(ItemTexts(i)) == ItemTexts(i)
  {
    hide Contains, HeaderText, DispatchText;
    if i.Exec? || i.Nameless? {
      BodyEnds(i.body);
      assert ItemTexts(i)[1..] == BodyTexts(i.body);
    }
  }

  lemma {:induction false} EndsConcat(a: seq<string>, b: seq<string>)
    requires NoLineFeeds(a) && NoLineFeeds(b) && StripAll(a) == a && StripAll(b) == b
    ensures NoLineFeeds(a + b) && StripAll(a + b) == a + b
  {
    if a == [] {
      assert a + b == b;
    } else {
      assert (a + b)[1..] == a[1..] + b;
      assert StripAll(a)[1..] == a[1..] && StripAll(a)[0] == a[0];
      EndsConcat(a[1..], b);
    }
  }

  lemma {:induction false} FoldCounted(execs: seq<Executable>, counts: map<string, nat>, items: seq<Item>)
    requires forall n :: CountOf(counts, n) == DispatchCount(items, n)
    ensures Fold(execs, counts) == Counted(execs, items)
  {
    if execs != [] {
      FoldCounted(execs[1..], counts, items);
    }
  }

  /**
   The scan of a printed module is its structured reading: each export goes to the tagged
   executable that encloses it, untagged ones collect nothing, and every executable has
   the dispatch lines that name it, quoted or bare.
   */
  lemma ScanIsStructured(items: seq<Item>)
    requires AllClean(items)
    ensures ScanPlacement(Unlines(Texts(items))) == Structured(items)
  {
    hide Lines, Unlines, StripAll, Texts, AdvanceAll, Fold, Counted;
    TextsEnd(items);
    LinesOfUnlines(Texts(items));
    ModulePass(BEGIN, items);
    var done := AdvanceAll(BEGIN, Texts(items));
    ConcatAssoc(Tagged(items, true), [], []);
    ConcatAssoc(Tagged(items, false), [], []);
    FoldCounted(Tagged(items, true), done.counts, items);
    FoldCounted(Tagged(items, false), done.counts, items);
  }

  // ----- every dispatch of a tagged executable is counted once -----

  function Named(execs: seq<Executable>): seq<string> {
    if execs == [] then [] else [execs[0].name] + Named(execs[1..])
  }

  /** The dispatch lines naming one of `names`. */
  function DispatchesTo(items: seq<Item>, names: seq<string>): nat {
    if items == [] then 0
    else (if items[0].Dispatch? && items[0].name in names then 1 else 0) + DispatchesTo(items[1..], names)
  }

  lemma {:induction false} DispatchesToCons(items: seq<Item>, n: string, names: seq<string>)
    requires n !in names
    ensures DispatchesTo(items, [n] + names) == DispatchCount(items, n) + DispatchesTo(items, names)
  {
    if items != [] {
      DispatchesToCons(items[1..], n, names);
    }
  }

  lemma {:induction false} DispatchesToNone(items: seq<Item>)
    ensures DispatchesTo(items, []) == 0
  {
    if items != [] {
      DispatchesToNone(items[1..]);
    }
  }

  lemma {:induction false} SumCounted(execs: seq<Executable>, items: seq<Item>)
    requires NoDuplicates(Named(execs))
    ensures Dispatches(Counted(execs, items)) == DispatchesTo(items, Named(execs))
  {
    if execs == [] {
      DispatchesToNone(items);
    } else {
      assert Named(execs)[1..] == Named(execs[1..]);
      SumCounted(execs[1..], items);
      DispatchesToCons(items, execs[0].name, Named(execs[1..]));
      assert Counted(execs, items)[1..] == Counted(execs[1..], items);
    }
  }

  lemma CountedStep(e: Executable, rest: seq<Executable>, items: seq<Item>)
    ensures Dispatches(Counted([e] + rest, items)) == DispatchCount(items, e.name) + Dispatches(Counted(rest, items))
    ensures Named([e] + rest) == [e.name] + Named(rest)
  {
    hide DispatchCount;
    assert ([e] + rest)[1..] == rest;
    var first := e.(dispatches := DispatchCount(items, e.name));
    assert ([first] + Counted(rest, items))[1..] == Counted(rest, items);
  }

  lemma NoneCounted(items: seq<Item>)
    ensures Dispatches(Counted([], items)) == 0 && Named([]) == []
  {
  }

  lemma {:induction false} CountedConcat(a: seq<Executable>, b: seq<Executable>, items: seq<Item>)
    ensures Dispatches(Counted(a + b, items)) == Dispatches(Counted(a, items)) + Dispatches(Counted(b, items))
    ensures Named(a + b) == Named(a) + Named(b)
  {
    hide *;
    if a == [] {
      NoneCounted(items);
      ConcatAssoc(b, [], []);
      ConcatAssoc(Named(b), [], []);
    } else {
      var e, rest := a[0], a[1..];
      CountedConcat(rest, b, items);
      assert a == [e] + rest;
      ConcatAssoc([e], rest, b);
      CountedStep(e, rest, items);
      CountedStep(e, rest + b, items);
      ConcatAssoc([e.name], Named(rest), Named(b));
    }
  }

  /** The symbols of the tagged executables. */
  function TaggedNames(items: seq<Item>): seq<string> {
    Named(Tagged(items, true)) + Named(Tagged(items, false))
  }

  /**
   With distinct executable symbols, the Rocket and CPU dispatch counts add up to the
   dispatch lines that name a tagged executable.
   */
  lemma DispatchesConserved(items: seq<Item>)
    requires AllClean(items) && NoDuplicates(TaggedNames(items))
    ensures var p := ScanPlacement(Unlines(Texts(items)));
            Dispatches(p.rocket) + Dispatches(p.cpu) == DispatchesTo(items, TaggedNames(items))
  {
    hide ScanPlacement, Texts;
    ScanIsStructured(items);
    var a, b := Tagged(items, true), Tagged(items, false);
    CountedConcat(a, b, items);
    SumCounted(a + b, items);
  }
}
