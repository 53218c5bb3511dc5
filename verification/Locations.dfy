/**
 Locations as MLIR prints them, and what the record makes of them.
 */
module Locations {
  import opened Text
  import opened Scanner
  import opened Decisions
  import opened Quoting

  // ----- printing -----

  datatype Spot = Spot(file: string, line: nat, col: nat)

  /** What stands between the angle brackets of a fused location. */
  datatype Meta = NoMeta | Attr(text: string) | Label(text: string)

  datatype Loc =
    | FileLoc(spot: Spot)
    | UnknownLoc
    | NameLoc(name: string, child: Option<Loc>)
    | FusedLoc(meta: Meta, parts: Locs)
    | CallSite(callee: Loc, caller: Loc)
    | AliasLoc(id: string)

  datatype Locs = NoLocs | Locs(first: Loc, rest: Locs)

  function LineCol(line: nat, col: nat): string {
    Decimal(line) + ":" + Decimal(col)
  }

  function MetaText(m: Meta): string {
    match m
    case NoMeta => ""
    case Attr(text) => "<" + text + ">"
    case Label(text) => "<" + Quote(text) + ">"
  }

  function LocText(l: Loc): string {
    match l
    case FileLoc(s) => Quote(s.file) + (":" + LineCol(s.line, s.col))
    case UnknownLoc => UNKNOWN
    case NameLoc(name, child) =>
      Quote(name) + (match child case None => "" case Some(c) => "(" + LocText(c) + ")")
    case FusedLoc(meta, parts) => "fused" + MetaText(meta) + "[" + LocsText(parts) + "]"
    case CallSite(callee, caller) => "callsite" + "(" + (LocText(callee) + " at " + LocText(caller)) + ")"
    case AliasLoc(id) => "#loc" + id
  }

  function LocsText(ls: Locs): string {
    match ls
    case NoLocs => ""
    case Locs(first, NoLocs) => LocText(first)
    case Locs(first, rest) => LocText(first) + ", " + LocsText(rest)
  }

  /** The value of a `loc` attribute: an alias, or a location in full. */
  datatype Place = Ref(id: string) | Inline(loc: Loc)

  function PlaceText(p: Place): string {
    match p
    case Ref(id) => "#loc" + id
    case Inline(l) => "loc" + "(" + LocText(l) + ")"
  }

  predicate IdOk(id: string) {
    Symbol(id) || id == ""
  }

  predicate LocOk(l: Loc) {
    match l
    case FileLoc(_) => true
    case UnknownLoc => true
    case NameLoc(_, child) => child.Some? ==> LocOk(child.value)
    case FusedLoc(meta, parts) =>
      (meta.Attr? ==> forall i :: 0 <= i < |meta.text| ==> QuietChar(meta.text[i])) && LocsOk(parts)
    case CallSite(callee, caller) => LocOk(callee) && LocOk(caller)
    case AliasLoc(id) => IdOk(id)
  }

  predicate LocsOk(ls: Locs) {
    match ls
    case NoLocs => true
    case Locs(first, rest) => LocOk(first) && LocsOk(rest)
  }

  predicate PlaceOk(p: Place) {
    match p
    case Ref(id) => IdOk(id)
    case Inline(l) => LocOk(l)
  }

  // ----- what a location stands for -----

  /** An alias: what reading its definition gives, what it should, and the first file it stands for. */
  datatype Def = Def(read: string, promised: string, file: Option<Spot>)

  type Defs = map<string, Def>

  function SpotName(s: Spot): string {
    s.file + ":" + LineCol(s.line, s.col)
  }

  /** The first file, line and column of a location, aliases resolved. */
  function FirstFile(l: Loc, defs: Defs): Option<Spot> {
    match l
    case FileLoc(s) => Some(s)
    case UnknownLoc => None
    case NameLoc(_, child) => (match child case None => None case Some(c) => FirstFile(c, defs))
    case FusedLoc(_, parts) => FirstOf(parts, defs)
    case CallSite(callee, caller) =>
      if FirstFile(callee, defs).Some? then FirstFile(callee, defs) else FirstFile(caller, defs)
    case AliasLoc(id) => if "#loc" + id in defs then defs["#loc" + id].file else None
  }

  function FirstOf(ls: Locs, defs: Defs): Option<Spot> {
    match ls
    case NoLocs => None
    case Locs(first, rest) => if FirstFile(first, defs).Some? then FirstFile(first, defs) else FirstOf(rest, defs)
  }

  /** A file location, and a fused or call-site one, keeps its first file, line and column; others are unknown. */
  function Promised(l: Loc, file: Option<Spot>): string {
    if (l.FileLoc? || l.FusedLoc? || l.CallSite?) && file.Some? then SpotName(file.value) else UNKNOWN
  }

  function Located(p: Place, defs: Defs): string {
    match p
    case Ref(id) => if "#loc" + id in defs then defs["#loc" + id].promised else "#loc" + id
    case Inline(l) => Promised(l, FirstFile(l, defs))
  }

  // ----- what reading gives -----

  /** The first thing printed in quotes. */
  datatype Token = NoToken | FileToken(spot: Spot) | NameToken(name: string)

  function FirstToken(l: Loc): Token {
    match l
    case FileLoc(s) => FileToken(s)
    case UnknownLoc => NoToken
    case NameLoc(name, _) => NameToken(name)
    case FusedLoc(meta, parts) => if meta.Label? then NameToken(meta.text) else TokenOf(parts)
    case CallSite(callee, caller) => if FirstToken(callee).NoToken? then FirstToken(caller) else FirstToken(callee)
    case AliasLoc(_) => NoToken
  }

  function TokenOf(ls: Locs): Token {
    match ls
    case NoLocs => NoToken
    case Locs(first, rest) => if FirstToken(first).NoToken? then TokenOf(rest) else FirstToken(first)
  }

  /** Files and names are read between their quotes as printed, without undoing any escape. */
  function TokenText(t: Token): string {
    match t
    case NoToken => UNKNOWN
    case FileToken(s) => Escape(s.file) + ":" + LineCol(s.line, s.col)
    case NameToken(name) => Escape(name)
  }

  function ReadLoc(l: Loc): string {
    TokenText(FirstToken(l))
  }

  function ReadPlace(p: Place, defs: Defs): string {
    match p
    case Ref(id) => if "#loc" + id in defs then defs["#loc" + id].read else "#loc" + id
    case Inline(l) => ReadLoc(l)
  }

  // ----- the reader finds the first quoted string -----

  /** Neither a digit nor a colon: where the line and column end. */
  predicate Stops(b: string) {
    b == "" || (!Digit(b[0]) && b[0] != ':')
  }

  /** No colon after a name, blanks aside. */
  predicate Ends(b: string) {
    TrimStart(b) == "" || TrimStart(b)[0] != ':'
  }

  lemma {:induction false} LineColRunIs(d: string, rest: string)
    requires forall i :: 0 <= i < |d| ==> Digit(d[i]) || d[i] == ':'
    requires rest == "" || (!Digit(rest[0]) && rest[0] != ':')
    ensures LineColRun(d + rest) == d
  {
    if d == "" {
      assert d + rest == rest;
    } else {
      assert (d + rest)[1..] == d[1..] + rest;
      LineColRunIs(d[1..], rest);
    }
  }

  lemma QuotedParts(a: string, q: string, rest: string)
    ensures var text := a + ("\"" + q + "\"") + rest;
            && text == a + "\"" + (q + "\"" + rest) && text[|a| + 1..] == q + "\"" + rest
            && (q + "\"" + rest)[..|q|] == q && (q + "\"" + rest)[|q| + 1..] == rest
  {
  }

  /** The reader takes the first quoted string, and the numbers behind it. */
  lemma QuotedRead(a: string, q: string, rest: string)
    requires '"' !in a && '"' !in q
    ensures FormatLocation(a + ("\"" + q + "\"") + rest) ==
            var after := TrimStart(rest);
            if after == "" || after[0] != ':' || LineColRun(after[1..]) == "" then q
            else q + ":" + LineColRun(after[1..])
  {
    hide Find, FindFrom, LineColRun, TrimStart;
    QuotedParts(a, q, rest);
    QuoteAfter(a, q + "\"" + rest);
    QuoteAfter(q, rest);
  }

  lemma FileRead(a: string, s: Spot, b: string)
    requires '"' !in a && Stops(b)
    ensures FormatLocation(a + LocText(FileLoc(s)) + b) == TokenText(FileToken(s))
  {
    var lc := LineCol(s.line, s.col);
    EscapeQuoteFree(s.file);
    LineColRunIs(lc, b);
    FileGroups(a, Quote(s.file), lc, b);
    assert (":" + (lc + b))[0] == ':' && (":" + (lc + b))[1..] == lc + b && !White(':');
    assert lc != "";
    hide LineColRun, LineCol, FormatLocation, Escape;
    QuotedRead(a, Escape(s.file), ":" + (lc + b));
  }

  lemma FileGroups(a: string, q: string, lc: string, b: string)
    ensures a + (q + (":" + lc)) + b == a + q + (":" + (lc + b))
  {
  }

  lemma NameRead(a: string, name: string, b: string)
    requires '"' !in a && Ends(b)
    ensures FormatLocation(a + Quote(name) + b) == Escape(name)
  {
    EscapeQuoteFree(name);
    hide LineColRun, FormatLocation, Escape, TrimStart;
    QuotedRead(a, Escape(name), b);
  }

  lemma NoQuotes(text: string)
    requires '"' !in text
    ensures FormatLocation(text) == UNKNOWN
  {
    CharFree(text, "\"", '"');
  }

  lemma StartsOther(c: char, b: string)
    requires !White(c) && c != ':' && !Digit(c)
    ensures Ends([c] + b) && Stops([c] + b)
  {
  }

  lemma AtEnds(b: string)
    ensures Ends(" at " + b) && Stops(" at " + b)
  {
    TrimStartSkips(" ", "at " + b);
    assert " " + ("at " + b) == " at " + b;
  }

  lemma CommaEnds(b: string)
    ensures Ends(", " + b) && Stops(", " + b)
  {
    StartsOther(',', " " + b);
    assert [','] + (" " + b) == ", " + b;
  }

  lemma IdQuiet(id: string)
    requires IdOk(id)
    ensures '"' !in "#loc" + id
  {
  }

  lemma QuietAttr(text: string)
    requires forall i :: 0 <= i < |text| ==> QuietChar(text[i])
    ensures '"' !in "<" + text + ">"
  {
  }

  /** What a location reads as, wherever it stands in a text whose quotes come after it. */
  lemma {:induction false} LocReads(a: string, l: Loc, b: string)
    requires '"' !in a && LocOk(l) && Ends(b) && Stops(b)
    ensures FirstToken(l).NoToken? ==> '"' !in LocText(l)
    ensures !FirstToken(l).NoToken? ==> FormatLocation(a + LocText(l) + b) == ReadLoc(l)
    decreases l
  {
    match l
    case FileLoc(s) => FileRead(a, s, b);
    case UnknownLoc =>
    case NameLoc(name, child) => NameLocReads(a, name, child, b);
    case FusedLoc(meta, parts) =>
      FusedHead(a, meta);
      ClosesAt(b);
      if !meta.Label? {
        LocsReads(a + ("fused" + MetaText(meta) + "["), parts, "]" + b);
      }
      FusedReads(a, meta, parts, b);
    case CallSite(callee, caller) =>
      var open := a + ("callsite" + "(");
      CloseParen(b);
      AtEnds(LocText(caller) + (")" + b));
      LocReads(open, callee, " at " + (LocText(caller) + (")" + b)));
      if FirstToken(callee).NoToken? {
        LocReads(open + (LocText(callee) + " at "), caller, ")" + b);
      }
      CallReads(a, callee, caller, b);
    case AliasLoc(id) => IdQuiet(id);
  }

  lemma NameLocReads(a: string, name: string, child: Option<Loc>, b: string)
    requires '"' !in a && Ends(b)
    ensures FormatLocation(a + LocText(NameLoc(name, child)) + b) == Escape(name)
  {
    hide FormatLocation, Quote, Escape, Ends;
    match child
    case None =>
      NameRead(a, name, b);
      assert Quote(name) + "" == Quote(name);
    case Some(c) =>
      var rest := LocText(c) + ")" + b;
      OpensAt(rest);
      NameRead(a, name, "(" + rest);
      ChildGroups(a, Quote(name), LocText(c), b);
  }

  lemma OpensAt(b: string)
    ensures Ends("(" + b)
  {
    StartsOther('(', b);
    assert ['('] + b == "(" + b;
  }

  lemma ClosesAt(b: string)
    ensures Ends("]" + b) && Stops("]" + b)
  {
    StartsOther(']', b);
    assert [']'] + b == "]" + b;
  }

  lemma CloseParen(b: string)
    ensures Ends(")" + b) && Stops(")" + b)
  {
    StartsOther(')', b);
    assert [')'] + b == ")" + b;
  }

  lemma ChildGroups(a: string, q: string, c: string, b: string)
    ensures a + (q + ("(" + c + ")")) + b == a + q + ("(" + (c + ")" + b))
  {
  }

  lemma FusedHead(a: string, meta: Meta)
    requires '"' !in a && (meta.Attr? ==> forall i :: 0 <= i < |meta.text| ==> QuietChar(meta.text[i]))
    ensures !meta.Label? ==> '"' !in a + ("fused" + MetaText(meta) + "[") && '"' !in "fused" + MetaText(meta) + "["
  {
    if meta.Attr? {
      QuietAttr(meta.text);
    }
  }

  lemma FusedReads(a: string, meta: Meta, parts: Locs, b: string)
    requires '"' !in a && LocOk(FusedLoc(meta, parts))
    requires var open := a + ("fused" + MetaText(meta) + "[");
             !meta.Label? ==>
               && '"' !in open && '"' !in "fused" + MetaText(meta) + "["
               && (TokenOf(parts).NoToken? ==> '"' !in LocsText(parts))
               && (!TokenOf(parts).NoToken? ==>
                     FormatLocation(open + LocsText(parts) + ("]" + b)) == TokenText(TokenOf(parts)))
    ensures var l := FusedLoc(meta, parts);
            && (FirstToken(l).NoToken? ==> '"' !in LocText(l))
            && (!FirstToken(l).NoToken? ==> FormatLocation(a + LocText(l) + b) == ReadLoc(l))
  {
    hide FormatLocation, TokenText, LocsText, TokenOf;
    FusedGroups(a, MetaText(meta), LocsText(parts), b);
    if meta.Label? {
      var rest := ">" + ("[" + LocsText(parts) + "]" + b);
      AngleEnds("[" + LocsText(parts) + "]" + b);
      FusedQuiet(a);
      NameRead(a + "fused<", meta.text, rest);
      LabelGroups(a, Quote(meta.text), "[" + LocsText(parts) + "]" + b);
      LabelText(meta.text);
    }
  }

  lemma LabelText(name: string)
    ensures TokenText(NameToken(name)) == Escape(name)
  {
  }

  lemma FusedQuiet(a: string)
    requires '"' !in a
    ensures '"' !in a + "fused<"
  {
  }

  lemma AngleEnds(b: string)
    ensures Ends(">" + b)
  {
    StartsOther('>', b);
    assert ['>'] + b == ">" + b;
  }

  lemma FusedGroups(a: string, m: string, p: string, b: string)
    ensures a + ("fused" + m + "[" + p + "]") + b == a + ("fused" + m + "[") + p + ("]" + b)
    ensures a + ("fused" + m + "[" + p + "]") + b == a + ("fused" + m) + ("[" + p + "]" + b)
    ensures '"' !in "fused" + m + "[" && '"' !in p ==> '"' !in "fused" + m + "[" + p + "]"
  {
  }

  lemma LabelGroups(a: string, q: string, rest: string)
    ensures a + ("fused" + ("<" + q + ">")) + rest == a + "fused<" + q + (">" + rest)
  {
    assert "fused<" == "fused" + "<";
  }

  lemma CallReads(a: string, callee: Loc, caller: Loc, b: string)
    requires '"' !in a
    requires FirstToken(callee).NoToken? ==> '"' !in LocText(callee)
    requires var open := a + ("callsite" + "(");
             !FirstToken(callee).NoToken? ==>
               FormatLocation(open + LocText(callee) + (" at " + (LocText(caller) + (")" + b)))) == ReadLoc(callee)
    requires FirstToken(callee).NoToken? && FirstToken(caller).NoToken? ==> '"' !in LocText(caller)
    requires var open := a + ("callsite" + "(") + (LocText(callee) + " at ");
             FirstToken(callee).NoToken? && !FirstToken(caller).NoToken? ==>
               FormatLocation(open + LocText(caller) + (")" + b)) == ReadLoc(caller)
    ensures var l := CallSite(callee, caller);
            && (FirstToken(l).NoToken? ==> '"' !in LocText(l))
            && (!FirstToken(l).NoToken? ==> FormatLocation(a + LocText(l) + b) == ReadLoc(l))
  {
    var l := CallSite(callee, caller);
    CallGroups(a, LocText(callee), LocText(caller), b);
    assert LocText(l) == "callsite" + "(" + (LocText(callee) + " at " + LocText(caller)) + ")";
    assert FirstToken(l) == if FirstToken(callee).NoToken? then FirstToken(caller) else FirstToken(callee);
    hide FormatLocation, TokenText, LocText, FirstToken;
  }

  lemma CallGroups(a: string, c: string, d: string, b: string)
    ensures a + ("callsite" + "(" + (c + " at " + d) + ")") + b ==
            a + ("callsite" + "(") + c + (" at " + (d + (")" + b)))
    ensures a + ("callsite" + "(" + (c + " at " + d) + ")") + b ==
            a + ("callsite" + "(") + (c + " at ") + d + (")" + b)
    ensures '"' !in c && '"' !in d ==> '"' !in "callsite" + "(" + (c + " at " + d) + ")"
  {
  }

  lemma {:induction false} LocsReads(a: string, ls: Locs, b: string)
    requires LocsOk(ls) && '"' !in a && Ends(b) && Stops(b)
    ensures TokenOf(ls).NoToken? ==> '"' !in LocsText(ls)
    ensures !TokenOf(ls).NoToken? ==> FormatLocation(a + LocsText(ls) + b) == TokenText(TokenOf(ls))
    decreases ls
  {
    match ls
    case NoLocs =>
    case Locs(first, NoLocs) => LocReads(a, first, b);
    case Locs(first, rest) =>
      var more := LocsText(rest) + b;
      CommaEnds(more);
      LocReads(a, first, ", " + more);
      ListGroups(a, LocText(first), LocsText(rest), b);
      if FirstToken(first).NoToken? {
        LocsReads(a + (LocText(first) + ", "), rest, b);
      }
  }

  lemma ListGroups(a: string, c: string, d: string, b: string)
    ensures a + (c + ", " + d) + b == a + c + (", " + (d + b))
    ensures a + (c + ", " + d) + b == a + (c + ", ") + d + b
    ensures '"' !in c && '"' !in d ==> '"' !in c + ", " + d
    ensures '"' !in a && '"' !in c ==> '"' !in a + (c + ", ")
  {
  }

  /** The value of a `loc` attribute reads as the first quoted string of the location. */
  lemma PlaceReads(l: Loc)
    requires LocOk(l)
    ensures FormatLocation(PlaceText(Inline(l))) == ReadLoc(l)
  {
    CloseParen("");
    assert ")" + "" == ")";
    hide FormatLocation, LocText, FirstToken, TokenText;
    LocReads("loc" + "(", l, ")");
    if FirstToken(l).NoToken? {
      NoQuotes("loc" + "(" + LocText(l) + ")");
      Unread();
    }
  }

  lemma Unread()
    ensures TokenText(NoToken) == UNKNOWN
  {
  }

  // ----- when the promise is kept -----

  /**
   The first thing in quotes, if any, is the first file: no name, no label and no alias of a file is
   printed in front of it.
   */
  predicate Clear(l: Loc, defs: Defs) {
    match FirstToken(l)
    case NoToken => FirstFile(l, defs).None?
    case FileToken(s) => FirstFile(l, defs) == Some(s)
    case NameToken(_) => false
  }

  /** What is read is what the location stands for, by chance or not. */
  predicate Kept(l: Loc, defs: Defs) {
    var file := FirstFile(l, defs);
    match FirstToken(l)
    case NoToken => (l.FusedLoc? || l.CallSite?) ==> file.None?
    case FileToken(s) => file.Some? && TokenText(FileToken(s)) == SpotName(file.value)
    case NameToken(name) => Escape(name) == Promised(l, file)
  }

  lemma SpotExact(s: Spot)
    ensures TokenText(FileToken(s)) == SpotName(s) <==> Verbatim(s.file)
  {
    EscapeExact(s.file);
    SameEnd(Escape(s.file), s.file, ":" + LineCol(s.line, s.col));
    ConcatAssoc(Escape(s.file), ":", LineCol(s.line, s.col));
    ConcatAssoc(s.file, ":", LineCol(s.line, s.col));
  }

  /** A location in which a file is printed has a first file. */
  lemma {:induction false} TokenHasFile(l: Loc, defs: Defs)
    ensures FirstToken(l).FileToken? ==> FirstFile(l, defs).Some?
    decreases l
  {
    match l
    case CallSite(callee, caller) =>
      TokenHasFile(callee, defs);
      TokenHasFile(caller, defs);
    case FusedLoc(_, parts) => TokensHaveFile(parts, defs);
    case _ =>
  }

  lemma {:induction false} TokensHaveFile(ls: Locs, defs: Defs)
    ensures TokenOf(ls).FileToken? ==> FirstOf(ls, defs).Some?
    decreases ls
  {
    match ls
    case NoLocs =>
    case Locs(first, rest) =>
      TokenHasFile(first, defs);
      TokensHaveFile(rest, defs);
  }

  /**
   A location reads as its first file, line and column, or as unknown, if and only if the first thing
   it prints in quotes spells just that; where nothing misleading is printed in front of the first
   file, if and only if that file prints verbatim.
   */
  lemma LocExact(l: Loc, defs: Defs)
    requires LocOk(l)
    ensures FormatLocation(PlaceText(Inline(l))) == Promised(l, FirstFile(l, defs)) <==> Kept(l, defs)
    ensures Clear(l, defs) ==> (Kept(l, defs) <==> FirstToken(l).FileToken? ==> Verbatim(FirstToken(l).spot.file))
  {
    PlaceReads(l);
    TokenHasFile(l, defs);
    KindOfToken(l);
    SpotUnlike(l, defs);
    hide FormatLocation, FirstFile, Escape, SpotName;
    if FirstToken(l).FileToken? {
      SpotExact(FirstToken(l).spot);
    }
  }

  lemma KindOfToken(l: Loc)
    ensures FirstToken(l).FileToken? ==> l.FileLoc? || l.FusedLoc? || l.CallSite?
    ensures FirstToken(l).NoToken? ==> !l.FileLoc? && !l.NameLoc?
  {
  }

  lemma SpotUnlike(l: Loc, defs: Defs)
    ensures var file := FirstFile(l, defs); file.Some? ==> SpotName(file.value) != UNKNOWN
  {
    hide FirstFile;
    var file := FirstFile(l, defs);
    if file.Some? {
      var s := file.value;
      assert SpotName(s)[|s.file|] == ':';
      assert ':' !in UNKNOWN;
    }
  }

  /** A fused location of two aliases reads as unknown, whatever files the aliases stand for. */
  lemma AliasesHide(id: string, other: string, defs: Defs)
    requires IdOk(id) && IdOk(other)
    ensures var l := FusedLoc(NoMeta, Locs(AliasLoc(id), Locs(AliasLoc(other), NoLocs)));
            && PlaceText(Inline(l)) == "loc(fused[#loc" + id + ", #loc" + other + "])"
            && FormatLocation(PlaceText(Inline(l))) == UNKNOWN
            && (Kept(l, defs) <==> FirstFile(l, defs).None?)
  {
    var rest := Locs(AliasLoc(other), NoLocs);
    var parts := Locs(AliasLoc(id), rest);
    var l := FusedLoc(NoMeta, parts);
    assert TokenOf(rest).NoToken?;
    assert TokenOf(parts).NoToken?;
    assert LocsOk(NoLocs);
    assert LocsOk(rest);
    assert LocsOk(parts);
    assert LocsText(rest) == "#loc" + other;
    assert LocsText(parts) == "#loc" + id + ", " + LocsText(rest);
    assert MetaText(NoMeta) == "" && "fused" + "" == "fused";
    assert LocText(l) == "fused" + "[" + LocsText(parts) + "]";
    hide FormatLocation, LocText, LocsText, LocOk;
    PlaceReads(l);
    AliasGroups("#loc" + id, "#loc" + other);
    SpelledFused(id, other);
  }

  lemma AliasGroups(a: string, b: string)
    ensures "loc" + "(" + ("fused" + "[" + (a + ", " + b) + "]") + ")" == "loc(fused[" + a + ", " + b + "])"
  {
  }

  lemma SpelledFused(id: string, other: string)
    ensures "loc(fused[" + ("#loc" + id) + ", " + ("#loc" + other) + "])" ==
            "loc(fused[#loc" + id + ", #loc" + other + "])"
  {
  }

  // ----- reading a place -----

  /** The aliases as the reader knows them. */
  predicate Shows(aliases: map<string, string>, defs: Defs) {
    aliases.Keys == defs.Keys && forall k :: k in defs ==> aliases[k] == defs[k].read
  }

  lemma ResolveIs(p: Place, aliases: map<string, string>, defs: Defs)
    requires PlaceOk(p) && Shows(aliases, defs)
    ensures ResolveLocation(PlaceText(p), aliases) == ReadPlace(p, defs)
  {
    hide FormatLocation, Escape, LocText;
    if p.Inline? {
      PlaceReads(p.loc);
      assert PlaceText(p)[0] == 'l';
    }
  }

  /** The decision's location is the one it stands on. */
  predicate KeptPlace(p: Place, defs: Defs) {
    match p
    case Ref(id) => "#loc" + id in defs ==> defs["#loc" + id].read == defs["#loc" + id].promised
    case Inline(l) => Kept(l, defs)
  }

  lemma PlaceExact(p: Place, defs: Defs)
    requires PlaceOk(p)
    ensures ReadPlace(p, defs) == Located(p, defs) <==> KeptPlace(p, defs)
  {
    if p.Inline? {
      PlaceReads(p.loc);
      LocExact(p.loc, defs);
    }
    hide FormatLocation, LocText, FirstFile, FirstToken, TokenText, Promised, Kept;
  }

  // ----- a location neither halts nor moves the scanner -----

  /** Bracketed text: the depth it adds, if any, it takes away. */
  lemma BracketNeutral(a: string, body: string, st: Scan, level: nat, mark: char, opens: string, closes: string)
    requires Marks(mark, opens, closes) && !st.inString && !st.escaped && level <= st.depth
    requires Neutral(a, st, level, mark, opens, closes)
    requires var inner := Step(st, '[', opens, closes); Neutral(body, inner, level, mark, opens, closes)
    ensures Neutral(a + "[" + body + "]", st, level, mark, opens, closes)
  {
    var inner := Step(st, '[', opens, closes);
    RunConcat(a, "[", st, level, mark, opens, closes);
    assert "["[1..] == "" && "]"[1..] == "";
    RunConcat(a + "[", body, st, level, mark, opens, closes);
    RunConcat(a + "[" + body, "]", st, level, mark, opens, closes);
    assert Step(inner, ']', opens, closes) == st;
  }

  /** Parenthesised text. */
  lemma ParenNeutral(a: string, body: string, st: Scan, level: nat, mark: char, opens: string, closes: string)
    requires Marks(mark, opens, closes) && !st.inString && !st.escaped
    requires Neutral(a, st, level, mark, opens, closes)
    requires var inner := Step(st, '(', opens, closes); Neutral(body, inner, level, mark, opens, closes)
    ensures Neutral(a + "(" + body + ")", st, level, mark, opens, closes)
  {
    var inner := Step(st, '(', opens, closes);
    RunConcat(a, "(", st, level, mark, opens, closes);
    assert "("[1..] == "" && ")"[1..] == "";
    RunConcat(a + "(", body, st, level, mark, opens, closes);
    RunConcat(a + "(" + body, ")", st, level, mark, opens, closes);
    assert Step(inner, ')', opens, closes) == st;
  }

  /** Inside brackets the scanner is at least as deep as outside, and a comma there is none of the level's. */
  lemma InnerScan(st: Scan, c: char, mark: char, opens: string, closes: string)
    requires Marks(mark, opens, closes) && !st.inString && !st.escaped && (c == '(' || c == '[')
    ensures var inner := Step(st, c, opens, closes); !inner.inString && !inner.escaped && inner.depth >= st.depth
    ensures mark == ',' ==> Step(st, c, opens, closes).depth > st.depth
  {
  }

  /** A separator inside brackets. */
  lemma SeparatorPasses(st: Scan, level: nat, mark: char, opens: string, closes: string)
    requires Marks(mark, opens, closes) && !st.inString && (mark == ',' ==> st.depth > level)
    ensures Neutral(", ", st, level, mark, opens, closes)
  {
    PlainPasses(" ", st, level, mark, opens, closes);
    assert Step(st, ',', opens, closes) == st;
    assert ", "[1..] == " ";
  }

  lemma {:induction false} LocNeutral(l: Loc, st: Scan, level: nat, mark: char, opens: string, closes: string)
    requires LocOk(l) && Marks(mark, opens, closes) && !st.inString && !st.escaped && level <= st.depth
    ensures Neutral(LocText(l), st, level, mark, opens, closes)
    decreases l
  {
    hide Neutral, Quote, LineCol, LocsText, MetaText;
    match l
    case FileLoc(s) =>
      QuoteNeutral(s.file, st, level, mark, opens, closes);
      NumbersNeutral(s, st, level, mark, opens, closes);
      NeutralConcat(Quote(s.file), ":" + LineCol(s.line, s.col), st, level, mark, opens, closes);
    case UnknownLoc =>
      WordNeutral(UNKNOWN, st, level, mark, opens, closes);
    case NameLoc(name, None) =>
      QuoteNeutral(name, st, level, mark, opens, closes);
      assert Quote(name) + "" == Quote(name);
    case NameLoc(name, Some(c)) =>
      QuoteNeutral(name, st, level, mark, opens, closes);
      InnerScan(st, '(', mark, opens, closes);
      LocNeutral(c, Step(st, '(', opens, closes), level, mark, opens, closes);
      ParenNeutral(Quote(name), LocText(c), st, level, mark, opens, closes);
      NameGroups(Quote(name), LocText(c));
    case FusedLoc(meta, parts) =>
      MetaNeutral(meta, st, level, mark, opens, closes);
      InnerScan(st, '[', mark, opens, closes);
      LocsNeutral(parts, Step(st, '[', opens, closes), level, mark, opens, closes);
      BracketNeutral("fused" + MetaText(meta), LocsText(parts), st, level, mark, opens, closes);
    case CallSite(callee, caller) =>
      InnerScan(st, '(', mark, opens, closes);
      var inner := Step(st, '(', opens, closes);
      LocNeutral(callee, inner, level, mark, opens, closes);
      LocNeutral(caller, inner, level, mark, opens, closes);
      WordNeutral(" at ", inner, level, mark, opens, closes);
      NeutralConcat(LocText(callee), " at ", inner, level, mark, opens, closes);
      NeutralConcat(LocText(callee) + " at ", LocText(caller), inner, level, mark, opens, closes);
      WordNeutral("callsite", st, level, mark, opens, closes);
      ParenNeutral("callsite", LocText(callee) + " at " + LocText(caller), st, level, mark, opens, closes);
    case AliasLoc(id) => IdNeutral(id, st, level, mark, opens, closes);
  }

  lemma NameGroups(q: string, c: string)
    ensures q + ("(" + c + ")") == q + "(" + c + ")"
  {
  }

  lemma WordNeutral(w: string, st: Scan, level: nat, mark: char, opens: string, closes: string)
    requires Marks(mark, opens, closes) && !st.inString && forall i :: 0 <= i < |w| ==> QuietChar(w[i])
    ensures Neutral(w, st, level, mark, opens, closes)
  {
    PlainPasses(w, st, level, mark, opens, closes);
  }

  lemma NumbersNeutral(s: Spot, st: Scan, level: nat, mark: char, opens: string, closes: string)
    requires Marks(mark, opens, closes) && !st.inString
    ensures Neutral(":" + LineCol(s.line, s.col), st, level, mark, opens, closes)
  {
    WordNeutral(":" + LineCol(s.line, s.col), st, level, mark, opens, closes);
  }

  lemma IdNeutral(id: string, st: Scan, level: nat, mark: char, opens: string, closes: string)
    requires IdOk(id) && Marks(mark, opens, closes) && !st.inString
    ensures Neutral("#loc" + id, st, level, mark, opens, closes)
  {
    WordNeutral("#loc" + id, st, level, mark, opens, closes);
  }

  lemma MetaNeutral(m: Meta, st: Scan, level: nat, mark: char, opens: string, closes: string)
    requires Marks(mark, opens, closes) && !st.inString && !st.escaped
    requires m.Attr? ==> forall i :: 0 <= i < |m.text| ==> QuietChar(m.text[i])
    ensures Neutral("fused" + MetaText(m), st, level, mark, opens, closes)
  {
    hide Neutral, Quote;
    WordNeutral("fused", st, level, mark, opens, closes);
    match m
    case NoMeta => assert "fused" + "" == "fused";
    case Attr(text) =>
      WordNeutral("<" + text + ">", st, level, mark, opens, closes);
      NeutralConcat("fused", "<" + text + ">", st, level, mark, opens, closes);
    case Label(text) =>
      WordNeutral("<", st, level, mark, opens, closes);
      WordNeutral(">", st, level, mark, opens, closes);
      QuoteNeutral(text, st, level, mark, opens, closes);
      NeutralConcat("<", Quote(text), st, level, mark, opens, closes);
      NeutralConcat("<" + Quote(text), ">", st, level, mark, opens, closes);
      NeutralConcat("fused", "<" + Quote(text) + ">", st, level, mark, opens, closes);
  }

  lemma {:induction false} LocsNeutral(ls: Locs, st: Scan, level: nat, mark: char, opens: string, closes: string)
    requires LocsOk(ls) && Marks(mark, opens, closes) && !st.inString && !st.escaped && level <= st.depth
    requires mark == ',' ==> st.depth > level
    ensures Neutral(LocsText(ls), st, level, mark, opens, closes)
    decreases ls
  {
    hide Neutral, LocText;
    match ls
    case NoLocs => WordNeutral("", st, level, mark, opens, closes);
    case Locs(first, NoLocs) => LocNeutral(first, st, level, mark, opens, closes);
    case Locs(first, rest) =>
      LocNeutral(first, st, level, mark, opens, closes);
      SeparatorPasses(st, level, mark, opens, closes);
      LocsNeutral(rest, st, level, mark, opens, closes);
      NeutralConcat(LocText(first), ", ", st, level, mark, opens, closes);
      NeutralConcat(LocText(first) + ", ", LocsText(rest), st, level, mark, opens, closes);
  }

  lemma PlaceNeutral(p: Place, st: Scan, level: nat, mark: char, opens: string, closes: string)
    requires PlaceOk(p) && Marks(mark, opens, closes) && !st.inString && !st.escaped && level <= st.depth
    ensures Neutral(PlaceText(p), st, level, mark, opens, closes)
  {
    hide Neutral, LocText;
    match p
    case Ref(id) => IdNeutral(id, st, level, mark, opens, closes);
    case Inline(l) =>
      InnerScan(st, '(', mark, opens, closes);
      LocNeutral(l, Step(st, '(', opens, closes), level, mark, opens, closes);
      WordNeutral("loc", st, level, mark, opens, closes);
      ParenNeutral("loc", LocText(l), st, level, mark, opens, closes);
  }
}
