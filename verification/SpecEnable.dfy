/**
 Enabling the element-wise matchers, alone and before neutralizing.
 */
module SpecEnable {
  import opened Text
  import opened SpecRewrite
  import opened SpecViews
  import opened SpecModel
  import opened SpecSafety
  import opened SpecLists
  import opened SpecAgain

  // ----- any text of lines -----

  lemma {:induction false} JoinUnlines(ts: seq<string>)
    requires ts != []
    ensures Join(ts, "\n") + "\n" == Unlines(ts) && EndsWithNewline(Unlines(ts))
  {
    if |ts| == 1 {
      assert Unlines(ts[1..]) == "";
    } else {
      JoinUnlines(ts[1..]);
      ConcatAssoc(ts[0] + "\n", Join(ts[1..], "\n"), "\n");
    }
  }

  lemma {:induction false} UnmarkAllLength(ts: seq<string>, marker: string)
    ensures |UnmarkAll(ts, marker)| == |ts| == |StripAll(ts)|
  {
    if ts != [] {
      UnmarkAllLength(ts[1..], marker);
    }
  }

  /** On any lines: refused without a marked line, otherwise each line is unmarked in place. */
  lemma EnableLines(ts: seq<string>)
    requires NoLineFeeds(ts)
    ensures var n := MarkedCount(StripAll(ts), ELEMENTWISE_MARKER);
            EnableElementwise(Unlines(ts)) ==
            if n == 0 then Err(NoMarkedEntries)
            else Ok(Rewritten(Unlines(UnmarkAll(StripAll(ts), ELEMENTWISE_MARKER)), n))
  {
    hide Unlines, Join, UnmarkAll, StripAll, Lines;
    LinesOfUnlines(ts);
    UnmarkAllLength(ts, ELEMENTWISE_MARKER);
    UnmarkAllLength(StripAll(ts), ELEMENTWISE_MARKER);
    if ts == [] {
      NoMarks(StripAll(ts));
    } else {
      JoinUnlines(ts);
      JoinUnlines(UnmarkAll(StripAll(ts), ELEMENTWISE_MARKER));
    }
  }

  lemma NoMarks(ts: seq<string>)
    requires |ts| == 0
    ensures MarkedCount(ts, ELEMENTWISE_MARKER) == 0
  {
  }

  /**
   The line at `i` comes out byte-identical if and only if it neither carries the marker
   nor ends in a carriage return: the rewrite also turns "\r\n" line ends into "\n".
   */
  lemma {:induction false} EnableKeepsLine(ts: seq<string>, i: nat)
    requires i < |ts|
    ensures i < |UnmarkAll(StripAll(ts), ELEMENTWISE_MARKER)|
    ensures UnmarkAll(StripAll(ts), ELEMENTWISE_MARKER)[i] == ts[i] <==>
            Unmark(StripCr(ts[i]), ELEMENTWISE_MARKER).None? && (ts[i] == "" || ts[i][|ts[i]| - 1] != '\r')
  {
    UnmarkAllLength(ts, ELEMENTWISE_MARKER);
    UnmarkAllLength(StripAll(ts), ELEMENTWISE_MARKER);
    var us := StripAll(ts);
    assert us[1..] == StripAll(ts[1..]);
    if i == 0 {
      UnmarkShortens(StripCr(ts[0]), ELEMENTWISE_MARKER);
    } else {
      EnableKeepsLine(ts[1..], i - 1);
      assert UnmarkAll(us, ELEMENTWISE_MARKER)[i] == UnmarkAll(us[1..], ELEMENTWISE_MARKER)[i - 1];
    }
  }

  lemma {:induction false} TrimStartShortens(s: string)
    ensures |TrimStart(s)| <= |s|
  {
    if s != "" && White(s[0]) {
      TrimStartShortens(s[1..]);
    }
  }

  lemma UnmarkShortens(line: string, marker: string)
    requires marker != ""
    ensures match Unmark(line, marker) case None => true case Some(t) => |t| < |line|
  {
    TrimStartShortens(line);
  }

  // ----- a spec of the model -----

  function Enable(l: Line): Line {
    match l
    case Marked(_, entry) => Other(entry)
    case _ => l
  }

  function EnableAll(lines: seq<Line>): seq<Line> {
    if lines == [] then [] else [Enable(lines[0])] + EnableAll(lines[1..])
  }

  function MarkedLines(lines: seq<Line>): nat {
    if lines == [] then 0 else (if lines[0].Marked? then 1 else 0) + MarkedLines(lines[1..])
  }

  /** The marked lines are those that start with the marker, once, and none ends in a carriage return. */
  predicate MarksClean(lines: seq<Line>) {
    lines != [] ==> MarkClean(lines[0]) && MarksClean(lines[1..])
  }

  predicate MarkClean(l: Line) {
    && '\n' !in LineText(l) && UnixLine(LineText(l))
    && match l
       case Marked(indent, entry) =>
         AllWhite(indent) && entry != "" && Unmark(entry, ELEMENTWISE_MARKER).None?
       case _ => Unmark(LineText(l), ELEMENTWISE_MARKER).None?
  }

  predicate UnixLine(text: string) {
    text == "" || text[|text| - 1] != '\r'
  }

  lemma UnmarkMarked(indent: string, marker: string, entry: string)
    requires AllWhite(indent) && marker != "" && !White(marker[0])
    ensures Unmark(indent + marker + entry, marker) == Some(entry)
  {
    assert indent + marker + entry == indent + (marker + entry);
    TrimStartSkips(indent, marker + entry);
    assert (marker + entry)[|marker|..] == entry;
  }

  lemma UnmarkLine(l: Line)
    requires MarkClean(l)
    ensures Unmark(LineText(l), ELEMENTWISE_MARKER) ==
            if l.Marked? then Some(LineText(Enable(l))) else None
    ensures StripCr(LineText(l)) == LineText(l) && '\n' !in LineText(l)
  {
    if l.Marked? {
      UnmarkMarked(l.indent, ELEMENTWISE_MARKER, l.entry);
    }
  }

  lemma {:induction false} EnableTexts(lines: seq<Line>)
    requires MarksClean(lines)
    ensures NoLineFeeds(Texts(lines)) && StripAll(Texts(lines)) == Texts(lines)
    ensures UnmarkAll(Texts(lines), ELEMENTWISE_MARKER) == Texts(EnableAll(lines))
    ensures MarkedCount(Texts(lines), ELEMENTWISE_MARKER) == MarkedLines(lines)
  {
    if lines != [] {
      hide LineText, MarkClean, Unmark, StripCr;
      EnableTexts(lines[1..]);
      UnmarkLine(lines[0]);
      var ts := Texts(lines);
      assert ts[0] == LineText(lines[0]) && ts[1..] == Texts(lines[1..]);
      EnableHead(lines);
      if !lines[0].Marked? {
        assert Enable(lines[0]) == lines[0];
      }
    }
  }

  lemma EnableHead(lines: seq<Line>)
    requires lines != []
    ensures EnableAll(lines)[0] == Enable(lines[0]) && EnableAll(lines)[1..] == EnableAll(lines[1..])
    ensures Texts(EnableAll(lines)) == [LineText(Enable(lines[0]))] + Texts(EnableAll(lines[1..]))
  {
    hide LineText, Enable;
  }

  /** The text of a spec with its marked entries uncommented, and their number. */
  lemma EnableModel(lines: seq<Line>)
    requires MarksClean(lines)
    ensures EnableElementwise(Print(lines)) ==
            if MarkedLines(lines) == 0 then Err(NoMarkedEntries)
            else Ok(Rewritten(Print(EnableAll(lines)), MarkedLines(lines)))
  {
    hide EnableElementwise, Unlines, StripAll, UnmarkAll, MarkedCount, EnableAll, NoLineFeeds, MarkClean;
    EnableTexts(lines);
    EnableLines(Texts(lines));
  }

  lemma EnableClean(l: Line)
    requires MarkClean(l)
    ensures MarkClean(Enable(l)) && !Enable(l).Marked?
  {
    if l.Marked? {
      EndOfLine(l.indent + ELEMENTWISE_MARKER, l.entry);
    }
  }

  lemma EndOfLine(front: string, entry: string)
    requires entry != ""
    ensures (front + entry)[|front + entry| - 1] == entry[|entry| - 1]
    ensures '\n' in entry ==> '\n' in front + entry
  {
  }

  lemma {:induction false} EnableAllClean(lines: seq<Line>)
    requires MarksClean(lines)
    ensures MarksClean(EnableAll(lines)) && MarkedLines(EnableAll(lines)) == 0
  {
    if lines != [] {
      hide MarkClean, Enable;
      EnableAllClean(lines[1..]);
      EnableHead(lines);
      EnableClean(lines[0]);
    }
  }

  // ----- the lists with and without the marker -----

  /**
   A marked entry names its matcher: an `@` or a comma stands before its first arrow, so the marker's
   own `@` is never the last one before an arrow.  It names no list, no declaration and no predicate.
   */
  predicate EntryPlain(entry: string) {
    && ('@' in Before(entry, "->") || ',' in Before(entry, "->"))
    && !Contains(entry, LOOP) && !Contains(entry, DECL) && NoOps(entry)
  }

  predicate EntriesPlain(lines: seq<Line>) {
    lines != [] ==>
      && (if lines[0].Marked? then EntryPlain(lines[0].entry) && AllWhite(lines[0].indent) else true)
      && EntriesPlain(lines[1..])
  }

  lemma MarkerLacks()
    ensures '-' !in ELEMENTWISE_MARKER && ',' !in ELEMENTWISE_MARKER && ' ' !in ELEMENTWISE_MARKER
    ensures ' ' in LIST_END && LIST_END[1] == ':' && ':' !in ELEMENTWISE_MARKER && '\n' !in LIST_END
  {
    assert LIST_END[0] == ' ';
  }

  lemma IndentLacks(indent: string)
    requires AllWhite(indent)
    ensures var m := indent + ELEMENTWISE_MARKER; '-' !in m && ',' !in m && ':' !in m
  {
    MarkerLacks();
    forall i | 0 <= i < |indent| ensures indent[i] != '-' && indent[i] != ',' && indent[i] != ':' {
      assert White(indent[i]);
    }
  }

  /** The chunk that the marker stands in is read alike without it. */
  lemma MarkerChunk(p: string, m: string, c: string)
    requires '-' !in m && ('@' in Before(c, "->") || !Contains(c, "->"))
    ensures PairName(p + "\n" + m + c) == PairName(p + "\n" + c)
  {
    if Contains(p, "->") {
      hide PairName, Contains, Before;
      ArrowFirst(p, "\n" + m + c);
      ArrowFirst(p, "\n" + c);
      MarkerGroups(p, m, c);
    } else {
      FoundSome(c, "->");
      hide PairName, Before;
      FindBehindBreak(p, m, c);
      if Contains(c, "->") {
        CutArrow(c);
        FindBehindBreak(p, m, Before(c, "->"));
        MarkedArrow(p + "\n" + m, c);
        MarkedArrow(p + "\n", c);
      } else {
        NoPair(p + "\n" + m + c);
        NoPair(p + "\n" + c);
      }
    }
  }

  lemma MarkerGroups(p: string, m: string, c: string)
    ensures p + "\n" + m + c == p + ("\n" + m + c) && p + "\n" + c == p + ("\n" + c)
    ensures p + "\n" + m + c == p + ['\n'] + (m + c) && p + "\n" + c == p + ['\n'] + c
  {
  }

  lemma FindBehindBreak(p: string, m: string, c: string)
    requires '-' !in m && !Contains(p, "->")
    ensures !Contains(p + "\n" + m, "->") && !Contains(p + "\n", "->")
    ensures Contains(p + "\n" + m + c, "->") <==> Contains(c, "->")
    ensures Contains(p + "\n" + c, "->") <==> Contains(c, "->")
  {
    MarkerGroups(p, m, c);
    MarkerGroups(p, m, "");
    assert m + "" == m && p + "\n" + m + "" == p + "\n" + m && p + ['\n'] + "" == p + "\n";
    FindShift(m, c, "->");
    FoundSome(m + c, "->");
    FoundSome(c, "->");
    CharFree(m, "->", '-');
    CharFree("", "->", '-');
    ContainsSplit(p, '\n', m + c, "->");
    ContainsSplit(p, '\n', c, "->");
    ContainsSplit(p, '\n', m, "->");
    ContainsSplit(p, '\n', "", "->");
  }

  lemma CutArrow(c: string)
    requires Contains(c, "->")
    ensures exists z :: c == Before(c, "->") + "->" + z
    ensures !Contains(Before(c, "->"), "->")
  {
    BeforeIsFree(c, "->");
    var i := Find(c, "->").value;
    FindSpec(c, "->");
    assert c[i + 0] == "->"[0] && c[i + 1] == "->"[1];
    assert c == c[..i] + "->" + c[i + 2..];
  }

  /** The last `@` before the first arrow is the entry's own. */
  lemma MarkedArrow(front: string, c: string)
    requires Contains(c, "->") && '@' in Before(c, "->") && !Contains(front + Before(c, "->"), "->")
    ensures PairName(front + c) == match SymbolAfterLastAt(Before(c, "->")) case None => [] case Some(n) => [n]
  {
    CutArrow(c);
    var b := Before(c, "->");
    var z :| c == b + "->" + z;
    hide Contains, PairName, Before, SymbolAfterLastAt;
    ArrowAt(front + b, z);
    ArrowGrouped(front, b, z);
    LastAtBehind(front, b);
  }

  lemma ArrowGrouped(a: string, b: string, c: string)
    ensures a + b + "->" + c == a + (b + "->" + c)
  {
  }

  /** The marker in the text after `p`, up to the next comma. */
  lemma MarkerTail(p: string, m: string, s: string)
    requires '-' !in m && ',' !in m && ',' !in p
    requires var c := Before(s, ","); '@' in Before(c, "->") || !Contains(c, "->")
    ensures ListMatchers(p + "\n" + m + s) == ListMatchers(p + "\n" + s)
  {
    hide *;
    MarkerChunk(p, m, Before(s, ","));
    FrontLacks(p, m);
    ChunkTail(p + "\n" + m, s);
    ChunkTail(p + "\n", s);
  }

  lemma FrontLacks(p: string, m: string)
    requires ',' !in m && ',' !in p
    ensures ',' !in p + "\n" + m && ',' !in p + "\n"
  {
  }

  function RestNames(s: string): seq<string> {
    match Find(s, ",")
    case None => []
    case Some(i) => ListMatchers(s[i + 1..])
  }

  lemma ChunkTail(front: string, s: string)
    requires ',' !in front
    ensures ListMatchers(front + s) == PairName(front + Before(s, ",")) + RestNames(s)
  {
    var c := Find(s, ",");
    hide ListMatchers, Find, PairName;
    match c
    case None =>
      NoCommaAt(s);
      OnlyChunk(front + s);
      ConcatAssoc(PairName(front + s), [], []);
    case Some(i) =>
      CommaIn(s, i);
      assert front + s == front + s[..i] + [','] + s[i + 1..];
      FirstComma(front + s[..i], s[i + 1..]);
  }

  /** The marker is read over, whatever stands before its line. */
  lemma MarkerBlind(x: string, m: string, s: string)
    requires '-' !in m && ',' !in m
    requires var c := Before(s, ","); '@' in Before(c, "->") || !Contains(c, "->")
    ensures ListMatchers(x + "\n" + m + s) == ListMatchers(x + "\n" + s)
  {
    LastComma(x);
    var k := RFindChar(x, ',');
    hide *;
    match k
    case None => MarkerTail(x, m, s);
    case Some(i) =>
      var a, p := x[..i], x[i + 1..];
      MarkerTail(p, m, s);
      CommaSplit(a, p + "\n" + m + s);
      CommaSplit(a, p + "\n" + s);
      FrontAgain(a, p, m, s);
  }

  lemma FrontAgain(a: string, p: string, m: string, s: string)
    ensures a + [','] + p + "\n" + m + s == a + [','] + (p + "\n" + m + s)
    ensures a + [','] + p + "\n" + s == a + [','] + (p + "\n" + s)
  {
  }

  /** An arrow in what the reader sees of an entry comes after the text before the entry's first arrow. */
  lemma ArrowLate(entry: string, s: string, j: nat)
    requires (s <= entry || entry + "\n" <= s) && OccursAt(s, j, "->")
    ensures j >= |Before(entry, "->")|
  {
    FindSpec(entry, "->");
    LetterAt(s, j, "->", 0);
    LetterAt(s, j, "->", 1);
    assert (entry + "\n")[|entry|] == '\n';
    assert entry + "\n" <= s ==> s[|entry|] == '\n';
    if j + 2 <= |entry| {
      assert s[j] == entry[j] && s[j + 1] == entry[j + 1];
      assert OccursAt(entry, j, "->");
    }
  }

  lemma SameFront(entry: string, s: string, q: nat)
    requires (s <= entry || entry + "\n" <= s) && q < |entry| && q < |s|
    ensures s[q] == entry[q]
  {
    assert entry + "\n" <= s ==> (entry + "\n")[q] == entry[q];
  }

  /** What the reader sees of a plain entry has an `@` before its first arrow, or no arrow. */
  lemma EntryNamed(entry: string, s: string)
    requires ('@' in Before(entry, "->") || ',' in Before(entry, "->")) && (s <= entry || entry + "\n" <= s)
    ensures var c := Before(s, ","); '@' in Before(c, "->") || !Contains(c, "->")
  {
    var b, c := Before(entry, "->"), Before(s, ",");
    if Contains(c, "->") {
      var j := Find(c, "->").value;
      FindSpec(c, "->");
      assert c <= s;
      OccursPart(c, s, j);
      ArrowLate(entry, s, j);
      NoCommaBefore(s);
      hide Contains, Find;
      forall q | 0 <= q < |b| ensures q < j && c[q] == b[q] {
        SameFront(entry, s, q);
        assert b[q] == entry[q] && c[q] == s[q];
      }
      assert c[..j] == Before(c, "->");
      assert forall q :: 0 <= q < |b| ==> b[q] != ',' && c[..j][q] == b[q];
      var q :| 0 <= q < |b| && b[q] == '@';
      assert c[..j][q] == '@';
    }
  }

  lemma OccursPart(c: string, s: string, j: nat)
    requires c <= s && OccursAt(c, j, "->")
    ensures OccursAt(s, j, "->")
  {
    OccursFront(c, s[|c|..], "->", j);
    assert c + s[|c|..] == s;
  }

  lemma NoCommaBefore(s: string)
    ensures ',' !in Before(s, ",")
  {
    BeforeIsFree(s, ",");
    var c := Before(s, ",");
    if ',' in c {
      var k :| 0 <= k < |c| && c[k] == ',';
      FindSpec(c, ",");
      assert OccursAt(c, k, ",");
    }
  }

  // ----- the lists of the enabled spec -----

  /** The marker holds no part of the end mark. */
  lemma MarkerEnd(m: string, v: string)
    requires m != "" && m[|m| - 1] == '@' && ':' !in m
    ensures Before(m + v, LIST_END) == m + Before(v, LIST_END)
  {
    var m0 := m[..|m| - 1];
    assert m == m0 + ['@'] && '@' !in LIST_END && ':' in LIST_END by {
      assert LIST_END[1] == ':';
    }
    CharFree(m0, LIST_END, ':');
    FindSplit(m0, '@', v, LIST_END);
    FoundSome(v, LIST_END);
    var f := Find(v, LIST_END);
    if f.Some? {
      assert (m + v)[..|m| + f.value] == m + v[..f.value];
    }
  }

  lemma MarkerLast(indent: string)
    ensures var m := indent + ELEMENTWISE_MARKER; m != "" && m[|m| - 1] == '@'
  {
    assert ELEMENTWISE_MARKER[|ELEMENTWISE_MARKER| - 1] == '@';
  }

  lemma EndPart(entry: string, rest: string)
    ensures var s := Before(entry + "\n" + rest, LIST_END); s <= entry || entry + "\n" <= s
  {
    EndLine();
    FindSplit(entry, '\n', rest, LIST_END);
    var f := Find(entry + "\n" + rest, LIST_END);
    if f.Some? {
      assert f.value <= |entry| ==> (entry + "\n" + rest)[..f.value] == entry[..f.value];
      assert f.value > |entry| ==> entry + "\n" <= (entry + "\n" + rest)[..f.value];
    }
  }

  /** One marked line in an open list. */
  lemma MarkedLine(x: string, indent: string, entry: string, rest: string)
    requires AllWhite(indent) && ('@' in Before(entry, "->") || ',' in Before(entry, "->"))
    requires !Contains(x, LIST_END)
    ensures ListMatchers(Before(x + "\n" + (indent + ELEMENTWISE_MARKER + entry + "\n" + rest), LIST_END)) ==
            ListMatchers(Before(x + "\n" + (entry + "\n" + rest), LIST_END))
  {
    hide *;
    var m, v := indent + ELEMENTWISE_MARKER, entry + "\n" + rest;
    IndentLacks(indent);
    MarkerLast(indent);
    EndLine();
    MarkedGroups(m, entry, rest);
    BeforeSkips(x, m + v, LIST_END);
    BeforeSkips(x, v, LIST_END);
    MarkerEnd(m, v);
    EndPart(entry, rest);
    var s := Before(v, LIST_END);
    EntryNamed(entry, s);
    MarkerBlind(x, m, s);
    ConcatAssoc(x + "\n", m, s);
  }

  lemma MarkedGroups(m: string, entry: string, rest: string)
    ensures m + entry + "\n" + rest == m + (entry + "\n" + rest)
  {
  }

  lemma TextsStep(lines: seq<Line>)
    requires lines != []
    ensures Print(lines) == LineText(lines[0]) + "\n" + Print(lines[1..])
    ensures Print(EnableAll(lines)) == LineText(Enable(lines[0])) + "\n" + Print(EnableAll(lines[1..]))
  {
    hide LineText, Enable;
    EnableHead(lines);
    UnlinesCons(LineText(Enable(lines[0])), Texts(EnableAll(lines[1..])));
  }

  lemma PlainStep(lines: seq<Line>)
    requires lines != [] && EntriesPlain(lines)
    ensures EntriesPlain(lines[1..])
    ensures if lines[0].Marked? then
              && EntryPlain(lines[0].entry) && AllWhite(lines[0].indent)
              && LineText(lines[0]) == lines[0].indent + ELEMENTWISE_MARKER + lines[0].entry
              && LineText(Enable(lines[0])) == lines[0].entry
            else LineText(Enable(lines[0])) == LineText(lines[0])
  {
    hide EntryPlain;
  }

  lemma NoneEnabled()
    ensures EnableAll([]) == []
  {
  }

  lemma LineGroups(x: string, t: string, rest: string)
    ensures x + "\n" + (t + "\n" + rest) == x + "\n" + t + "\n" + rest
  {
  }

  /** An open list is read alike with and without the markers in it. */
  lemma {:induction false} RegionEnabled(x: string, lines: seq<Line>)
    requires EntriesPlain(lines)
    ensures ListMatchers(Before(x + "\n" + Print(EnableAll(lines)), LIST_END)) ==
            ListMatchers(Before(x + "\n" + Print(lines), LIST_END))
    decreases |lines|
  {
    hide *;
    if Contains(x, LIST_END) {
      WithinEnd(x, Print(lines));
      WithinEnd(x, Print(EnableAll(lines)));
    } else if lines == [] {
      NoneEnabled();
    } else {
      var l := lines[0];
      var t, rest := LineText(Enable(l)), Print(lines[1..]);
      PlainStep(lines);
      TextsStep(lines);
      RegionEnabled(x + "\n" + t, lines[1..]);
      LineGroups(x, t, rest);
      LineGroups(x, t, Print(EnableAll(lines[1..])));
      if l.Marked? {
        NamedPlain(l.entry);
        MarkedLine(x, l.indent, l.entry, rest);
      }
    }
  }

  lemma NamedPlain(entry: string)
    requires EntryPlain(entry)
    ensures '@' in Before(entry, "->") || ',' in Before(entry, "->")
    ensures !Contains(entry, LOOP) && !Contains(entry, DECL) && NoOps(entry)
  {
  }

  lemma MarkerQuiet(indent: string, entry: string)
    requires AllWhite(indent) && EntryPlain(entry)
    ensures var t := indent + ELEMENTWISE_MARKER + entry;
            !Contains(t, LOOP) && !Contains(t, DECL) && !PredicateLine(t) && !PredicateLine(entry)
  {
    MarkedIsComment(indent, entry);
    NamedPlain(entry);
    NoT(indent);
    hide Contains, Before, IsComment;
    FindShift(indent + ELEMENTWISE_MARKER, entry, LOOP);
    FindShift(indent + ELEMENTWISE_MARKER, entry, DECL);
    FoundSome(entry, LOOP);
    FoundSome(entry, DECL);
    FoundSome(indent + ELEMENTWISE_MARKER + entry, LOOP);
    FoundSome(indent + ELEMENTWISE_MARKER + entry, DECL);
  }

  lemma NoT(indent: string)
    requires AllWhite(indent)
    ensures 't' !in indent + ELEMENTWISE_MARKER && LOOP[0] == 't' && DECL[0] == 't' && LOOP != "" && DECL != ""
  {
    assert 't' !in ELEMENTWISE_MARKER;
    forall i | 0 <= i < |indent| ensures indent[i] != 't' {
      assert White(indent[i]);
    }
  }

  lemma {:induction false} LineEnabled(t: string, lines: seq<Line>)
    requires EntriesPlain(lines)
    ensures ReadLists(ListMatchers, t + "\n" + Print(EnableAll(lines)), LOOP, LIST_END) ==
            ReadLists(ListMatchers, t + "\n" + Print(lines), LOOP, LIST_END)
    decreases |lines|, 1, |t|
  {
    hide *;
    LoopLine();
    FoundSome(t, LOOP);
    match Find(t, LOOP)
    case Some(i) =>
      LineEnabled(t[i + |LOOP|..], lines);
      RegionEnabled(t[i..], lines);
      OpenLine(t, Print(lines), i);
      OpenLine(t, Print(EnableAll(lines)), i);
    case None =>
      ListsEnabled(lines);
      SkipLine(t, Print(lines));
      SkipLine(t, Print(EnableAll(lines)));
  }

  /** The matchers read are the same before and after the marked entries are uncommented. */
  lemma {:induction false} ListsEnabled(lines: seq<Line>)
    requires EntriesPlain(lines)
    ensures ReadLists(ListMatchers, Print(EnableAll(lines)), LOOP, LIST_END) ==
            ReadLists(ListMatchers, Print(lines), LOOP, LIST_END)
    decreases |lines|, 0, 0
  {
    hide *;
    if lines == [] {
      NoneEnabled();
    } else {
      var l := lines[0];
      PlainStep(lines);
      TextsStep(lines);
      if l.Marked? {
        MarkerQuiet(l.indent, l.entry);
        NamedPlain(l.entry);
        SkipLine(LineText(l), Print(lines[1..]));
        SkipLine(l.entry, Print(EnableAll(lines[1..])));
        ListsEnabled(lines[1..]);
      } else {
        LineEnabled(LineText(l), lines[1..]);
      }
    }
  }

  lemma EnabledLine(l: Line)
    requires if l.Marked? then EntryPlain(l.entry) && AllWhite(l.indent) else true
    ensures AlikeLine(LineText(l), LineText(Enable(l)))
  {
    if l.Marked? {
      MarkerQuiet(l.indent, l.entry);
      NamedPlain(l.entry);
      FoundSome(LineText(l), DECL);
      FoundSome(l.entry, DECL);
    }
    hide EntryPlain, PredicateLine, Find, Contains;
  }

  lemma {:induction false} EnabledAlike(lines: seq<Line>)
    requires EntriesPlain(lines)
    ensures Alike(Texts(lines), Texts(EnableAll(lines)))
  {
    if lines != [] {
      hide LineText, EntryPlain, AlikeLine, Enable;
      EnabledAlike(lines[1..]);
      EnabledLine(lines[0]);
      EnableHead(lines);
      assert Texts(lines)[1..] == Texts(lines[1..]);
      assert Texts(EnableAll(lines))[1..] == Texts(EnableAll(lines[1..]));
    }
  }

  /**
   Nothing is left to uncomment: a second run is refused.  The lists `Neutralize` reads name the same
   matchers before and after, the uncommented entries included, however the lists are laid out.
   */
  lemma EnableOnce(lines: seq<Line>)
    requires MarksClean(lines)
    ensures EnableElementwise(Print(EnableAll(lines))) == Err(NoMarkedEntries)
    ensures EntriesPlain(lines) ==> Matchers(Print(EnableAll(lines))) == Matchers(Print(lines))
  {
    hide *;
    EnableAllClean(lines);
    EnableModel(EnableAll(lines));
    if EntriesPlain(lines) {
      ListsEnabled(lines);
      SameMatchers(Print(lines), Print(EnableAll(lines)));
    }
  }

  // ----- enabling, then neutralizing -----

  lemma EnableKind(l: Line, name: string)
    ensures EndsBody(Enable(l)) <==> EndsBody(l)
    ensures Declares(Enable(l), name) <==> Declares(l, name)
    ensures IsPredicate(l) ==> Enable(l) == l
    ensures IsPredicate(Enable(l)) ==> IsPredicate(l)
  {
  }

  lemma {:induction false} EnableUpTo(lines: seq<Line>)
    ensures UpToEnd(EnableAll(lines)) == EnableAll(UpToEnd(lines))
  {
    if lines != [] {
      hide Enable, EndsBody;
      EnableHead(lines);
      EnableKind(lines[0], "");
      EnableUpTo(lines[1..]);
      if !EndsBody(lines[0]) {
        EnableCons(lines[0], UpToEnd(lines[1..]));
      }
    }
  }

  lemma EnableCons(l: Line, rest: seq<Line>)
    ensures EnableAll([l] + rest) == [Enable(l)] + EnableAll(rest)
  {
    hide Enable;
    assert ([l] + rest)[1..] == rest;
  }

  lemma {:induction false} EnableBody(lines: seq<Line>, name: string)
    ensures Body(EnableAll(lines), name) ==
            match Body(lines, name) case None => None case Some(b) => Some(EnableAll(b))
  {
    if lines != [] {
      hide Enable, Declares;
      EnableHead(lines);
      EnableKind(lines[0], name);
      if Declares(lines[0], name) {
        EnableUpTo(lines[1..]);
      } else {
        EnableBody(lines[1..], name);
      }
    }
  }

  lemma {:induction false} EnabledMember(lines: seq<Line>, l: Line)
    requires IsPredicate(l)
    ensures l in EnableAll(lines) <==> l in lines
  {
    if lines != [] {
      hide IsPredicate;
      EnableHead(lines);
      EnabledMember(lines[1..], l);
      EnableKind(lines[0], "");
      assert l in lines <==> l == lines[0] || l in lines[1..];
      assert l in EnableAll(lines) <==> l == Enable(lines[0]) || l in EnableAll(lines[1..]);
    }
  }

  lemma SparedEnabled(body: seq<Line>, op: Op)
    ensures Spared(EnableAll(body), op) <==> Spared(body, op)
  {
    hide EnableAll, IsPredicate, Disarmable, Accepts, Disarm;
    forall l | IsPredicate(l) ensures l in EnableAll(body) <==> l in body {
      EnabledMember(body, l);
    }
  }

  lemma EnableRewritable(l: Line)
    requires Rewritable(l) && if l.Marked? then EntryPlain(l.entry) else true
    ensures Rewritable(Enable(l))
  {
    if l.Marked? {
      NamedPlain(l.entry);
      EndsIn(l.indent + ELEMENTWISE_MARKER, l.entry);
      KeptExactly(l.entry);
    }
  }

  lemma EndsIn(front: string, entry: string)
    requires '\n' !in front + entry
    ensures '\n' !in entry
  {
  }

  lemma {:induction false} EnableAllRewritable(lines: seq<Line>)
    requires AllRewritable(lines) && EntriesPlain(lines)
    ensures AllRewritable(EnableAll(lines))
  {
    if lines != [] {
      hide Rewritable, EntryPlain, Enable;
      EnableAllRewritable(lines[1..]);
      EnableHead(lines);
      EnableRewritable(lines[0]);
    }
  }

  lemma {:induction false} EnableFlags(lines: seq<Line>)
    requires EntriesPlain(lines)
    ensures Flags(EnableAll(lines)) == Flags(lines)
  {
    if lines != [] {
      hide PredicateLine, EntryPlain, LineText, Enable;
      EnableFlags(lines[1..]);
      EnableHead(lines);
      EnabledFlag(lines[0]);
      assert Flags(EnableAll(lines)) == [PredicateLine(LineText(Enable(lines[0])))] + Flags(EnableAll(lines[1..]));
    }
  }

  lemma EnabledFlag(l: Line)
    requires if l.Marked? then EntryPlain(l.entry) && AllWhite(l.indent) else true
    ensures PredicateLine(LineText(Enable(l))) <==> PredicateLine(LineText(l))
  {
    if l.Marked? {
      MarkerQuiet(l.indent, l.entry);
    }
    hide PredicateLine, EntryPlain;
  }

  /**
   `--elementwise --no-offload`: the enabled spec can be neutralized exactly when the spec can, and
   then a sequence accepts an operation if and only if none of its own lines refuses it after the
   rewrite; every matcher of the enabled lists is among those the lookup found a predicate for.
   */
  lemma EnableThenNeutralize(lines: seq<Line>, name: string, op: Op)
    requires MarksClean(lines) && AllRewritable(lines) && EntriesPlain(lines) && MarkedLines(lines) > 0
    requires forall v :: op.dim(v) != 999999
    ensures EnableElementwise(Print(lines)).Ok?
    ensures var enabled := EnableElementwise(Print(lines)).value;
            && enabled.text == Print(EnableAll(lines)) && enabled.rewritten == MarkedLines(lines)
            && (Neutralize(enabled.text).Ok? <==> Neutralize(Print(lines)).Ok?)
            && (Neutralize(enabled.text).Ok? ==>
                  && var out := DisarmAll(EnableAll(lines));
                  && Neutralize(enabled.text).value.text == Print(out)
                  && (MatcherAccepts(out, name, op) <==>
                      Body(lines, name).Some? && Spared(Body(lines, name).value, op))
                  && (name in Matchers(enabled.text) ==> Found(Texts(lines), name)))
  {
    var enabled := EnableAll(lines);
    hide *;
    EnableModel(lines);
    EnableOnce(lines);
    EnableBody(lines, name);
    EnableAllRewritable(lines);
    EnabledAlike(lines);
    EnableFlags(lines);
    FoundAlike(Texts(lines), Texts(enabled), name);
    AllAlike(Texts(lines), Texts(enabled));
    NeutralizeExact(lines);
    NeutralizeExact(enabled);
    if Neutralize(Print(enabled)).Ok? {
      NeutralizeSafe(enabled, name, op);
      if Body(lines, name).Some? {
        SparedEnabled(Body(lines, name).value, op);
      }
    }
  }
}
