/**
 Neutralizing twice, and where neutralizing does not reach.
 */
module SpecAgain {
  import opened Text
  import opened SpecRewrite
  import opened SpecLines
  import opened SpecBounds
  import opened SpecViews
  import opened SpecEnds
  import opened SpecModel
  import opened SpecSafety
  import opened SpecLists

  // ----- what a rewritten line gains -----

  /** A character of the op names and the marks before a list or a declaration. */
  predicate OpChar(c: char) {
    'a' <= c <= 'z' || c == '.' || c == '_' || c == ' ' || c == '@'
  }

  /** A pattern no rewritten line gains: it starts with `t` and crosses no punctuation. */
  predicate OpPattern(pat: string) {
    pat != "" && pat[0] == 't' && pat[|pat| - 1] != ' ' && forall c :: c in pat ==> OpChar(c)
  }

  lemma LoopCrosses()
    ensures OpPattern(LOOP) && DigitFree(LOOP)
  {
  }

  lemma DeclCrosses()
    ensures OpPattern(DECL) && DigitFree(DECL)
  {
  }

  lemma LeadingFree(c: char, x: string, pat: string)
    requires OpPattern(pat) && c != 't' && !Contains(x, pat)
    ensures !Contains([c] + x, pat)
  {
    FindSpec([c] + x, pat);
    FindSpec(x, pat);
    forall i: nat ensures !OccursAt([c] + x, i, pat) {
      if i == 0 {
        assert ([c] + x)[0 + 0] != pat[0];
      } else {
        assert !OccursAt(x, i - 1, pat);
        if i + |pat| <= 1 + |x| {
          var k :| 0 <= k < |pat| && x[i - 1 + k] != pat[k];
          assert ([c] + x)[i + k] == x[i - 1 + k];
        }
      }
    }
  }

  lemma TrailingFree(a: string, c: char, pat: string)
    requires pat != "" && pat[|pat| - 1] != c && !Contains(a, pat)
    ensures !Contains(a + [c], pat)
  {
    FindSpec(a + [c], pat);
    FindSpec(a, pat);
    forall i: nat ensures !OccursAt(a + [c], i, pat) {
      if i + |pat| <= |a| {
        assert !OccursAt(a, i, pat);
        var k :| 0 <= k < |pat| && a[i + k] != pat[k];
        assert (a + [c])[i + k] == a[i + k];
      } else if i + |pat| == |a| + 1 {
        assert (a + [c])[i + (|pat| - 1)] == c;
      }
    }
  }

  /** A new dictionary brings in no pattern. */
  lemma NewFree(a: string, attr: string, tail: string, pat: string)
    requires OpPattern(pat) && !Contains(a, pat) && !Contains(tail, pat) && !Contains(attr, pat)
    ensures !Contains(a + " {" + attr + "}" + tail, pat)
  {
    ContainsSplit(attr, '}', tail, pat);
    TrailingFree(a, ' ', pat);
    ContainsSplit(a + " ", '{', attr + "}" + tail, pat);
    NewGroups(a, attr, tail);
  }

  lemma NewGroups(a: string, attr: string, tail: string)
    ensures a + " {" + attr + "}" + tail == (a + " ") + ['{'] + (attr + "}" + tail)
    ensures attr + "}" + tail == attr + ['}'] + tail
    ensures a + " " == a + [' ']
  {
  }

  /** The attribute put in front of a dictionary brings in no pattern. */
  lemma FrontFree(a: string, attr: string, dict: string, tail: string, pat: string)
    requires OpPattern(pat) && !Contains(a, pat) && !Contains(dict, pat) && !Contains(tail, pat) && !Contains(attr, pat)
    ensures !Contains(a + "{" + (attr + ", " + dict) + "}" + tail, pat)
  {
    ContainsSplit(dict, '}', tail, pat);
    LeadingFree(' ', dict + ['}'] + tail, pat);
    ContainsSplit(attr, ',', [' '] + (dict + ['}'] + tail), pat);
    ContainsSplit(a, '{', attr + [','] + ([' '] + (dict + ['}'] + tail)), pat);
    FrontGroups(a, attr, dict, tail);
  }

  lemma FrontGroups(a: string, attr: string, dict: string, tail: string)
    ensures a + "{" + (attr + ", " + dict) + "}" + tail ==
            a + ['{'] + (attr + [','] + ([' '] + (dict + ['}'] + tail)))
  {
  }

  /** A slice of clean text is clean. */
  lemma SliceFree(s: string, i: nat, j: nat, pat: string)
    requires i <= j <= |s| && !Contains(s, pat)
    ensures !Contains(s[i..j], pat)
  {
    PartsFree(s[..i] + s[i..j], s[j..], pat);
    PartsFree(s[..i], s[i..j], pat);
    assert s[..i] + s[i..j] + s[j..] == s;
  }

  lemma {:induction false} TrimStartFree(s: string, pat: string)
    requires !Contains(s, pat)
    ensures !Contains(TrimStart(s), pat)
  {
    if s != "" && White(s[0]) {
      SliceFree(s, 1, |s|, pat);
      assert s[1..|s|] == s[1..];
      TrimStartFree(s[1..], pat);
    }
  }

  lemma {:induction false} TrimEndFree(s: string, pat: string)
    requires !Contains(s, pat)
    ensures !Contains(TrimEnd(s), pat)
  {
    if s != "" && White(s[|s| - 1]) {
      SliceFree(s, 0, |s| - 1, pat);
      assert s[0..|s| - 1] == s[..|s| - 1];
      TrimEndFree(s[..|s| - 1], pat);
    }
  }

  /** The parts of an admission line the rewrite puts together again. */
  lemma DictionaryFree(a: string, middle: string, tail: string, attr: string, pat: string)
    requires OpPattern(pat) && !Contains(attr, pat) && !Contains(a + middle, pat) && !Contains(tail, pat)
    requires DisableDictionary(middle, attr).Some?
    ensures !Contains(a + DisableDictionary(middle, attr).value + tail, pat)
  {
    if middle != "" && middle[|middle| - 1] == '}' {
      var head := middle[..|middle| - 1];
      var open := RFindChar(head, '{').value;
      hide Contains, RFindChar;
      var s := a + middle;
      SliceFree(s, 0, |a| + open, pat);
      SliceFree(s, |a| + open + 1, |s| - 1, pat);
      MiddleParts(a, middle, open);
      TrimStartFree(head[open + 1..], pat);
      TrimEndFree(TrimStart(head[open + 1..]), pat);
      FrontFree(a + head[..open], attr, Trim(head[open + 1..]), tail, pat);
      FreeGroups(a, head[..open], attr + ", " + Trim(head[open + 1..]), tail);
    } else {
      NewFree(a + middle, attr, tail, pat);
      NewAgain(a, middle, attr, tail);
    }
  }

  lemma MiddleParts(a: string, middle: string, open: nat)
    requires open < |middle| - 1
    ensures var head, s := middle[..|middle| - 1], a + middle;
            s[0..|a| + open] == a + head[..open] && s[|a| + open + 1..|s| - 1] == head[open + 1..]
  {
  }

  lemma FreeGroups(a: string, b: string, c: string, d: string)
    ensures a + (b + "{" + c + "}") + d == a + b + "{" + c + "}" + d
  {
  }

  lemma NewAgain(a: string, middle: string, attr: string, tail: string)
    ensures a + (middle + " {" + attr + "}") + tail == a + middle + " {" + attr + "}" + tail
  {
  }

  lemma {:induction false} TrimEndPart(s: string)
    ensures TrimEnd(s) <= s
  {
    if s != "" && White(s[|s| - 1]) {
      TrimEndPart(s[..|s| - 1]);
    }
  }

  lemma AdmissionGains(line: string, pat: string)
    requires OpPattern(pat) && !Contains(line, pat) && DisableAdmission(line).Some?
    ensures !Contains(DisableAdmission(line).value, pat)
  {
    if !Contains(line, NO_OFFLOAD_ATTR) {
      var at := Find(line, ADMITTED_OP).value;
      FindSpec(line, ADMITTED_OP);
      OccursParts(line, at, ADMITTED_OP);
      CharFree(NO_OFFLOAD_ATTR, pat, 't');
      hide Contains, Find;
      TailGains(line[..at] + ADMITTED_OP, line[at + |ADMITTED_OP|..], NO_OFFLOAD_ATTR, pat);
    }
  }

  lemma TailGains(a: string, tail: string, attr: string, pat: string)
    requires OpPattern(pat) && !Contains(attr, pat) && !Contains(a + tail, pat) && DisableTail(tail, attr).Some?
    ensures !Contains(a + DisableTail(tail, attr).value, pat)
  {
    var colon := Find(tail, " : ").value;
    var m, rest := TrimEnd(tail[..colon]), tail[colon..];
    hide Contains, Find, DisableDictionary;
    TrimEndPart(tail[..colon]);
    SliceFree(a + tail, 0, |a| + |m|, pat);
    SliceFree(a + tail, |a| + colon, |a + tail|, pat);
    TailParts(a, tail, m, colon);
    DictionaryFree(a, m, rest, attr, pat);
    ConcatAssoc(a, DisableDictionary(m, attr).value, rest);
  }

  lemma TailParts(a: string, tail: string, m: string, colon: nat)
    requires colon <= |tail| && m <= tail[..colon]
    ensures (a + tail)[0..|a| + |m|] == a + m && (a + tail)[|a| + colon..|a + tail|] == tail[colon..]
  {
  }

  /** A rewritten line gains neither an op name nor a declaration. */
  lemma RewriteGains(line: string, pat: string)
    requires OpPattern(pat) && DigitFree(pat) && !Contains(line, pat) && RewriteLine(line).Defeated?
    ensures !Contains(RewriteLine(line).text, pat)
  {
    if Contains(line, ADMITTED_OP) {
      AdmissionGains(line, pat);
    } else {
      KeysDigitFree();
      hide ReplaceBound, Contains, IsComment, DigitFree;
      var once := ReplaceBound(line, "umin", NO_OFFLOAD_BOUND);
      ReplacedReads(line, "umin", NO_OFFLOAD_BOUND);
      ReplacedReads(once.value, "umax", NO_OFFLOAD_BOUND);
    }
  }

  // ----- a rewritten line is one line -----

  lemma {:induction false} TrimInside(s: string, c: char)
    ensures c in TrimEnd(TrimStart(s)) ==> c in s
    ensures c in TrimEnd(s) ==> c in s
  {
    TrimEndPart(TrimStart(s));
    TrimEndPart(s);
    TrimStartPart(s);
  }

  lemma {:induction false} TrimStartPart(s: string)
    ensures exists k :: 0 <= k <= |s| && TrimStart(s) == s[k..]
  {
    if s != "" && White(s[0]) {
      TrimStartPart(s[1..]);
      var k :| 0 <= k <= |s[1..]| && TrimStart(s[1..]) == s[1..][k..];
      assert s[1..][k..] == s[k + 1..];
    } else {
      assert s == s[0..];
    }
  }

  lemma DictionaryOneLine(middle: string, attr: string)
    requires '\n' !in middle && '\n' !in attr && DisableDictionary(middle, attr).Some?
    ensures '\n' !in DisableDictionary(middle, attr).value
  {
    if middle != "" && middle[|middle| - 1] == '}' {
      var head := middle[..|middle| - 1];
      var open := RFindChar(head, '{').value;
      hide RFindChar;
      TrimInside(head[open + 1..], '\n');
    }
  }

  lemma AdmissionOneLine(line: string)
    requires '\n' !in line && DisableAdmission(line).Some?
    ensures '\n' !in DisableAdmission(line).value
  {
    if !Contains(line, NO_OFFLOAD_ATTR) {
      OpNames();
      assert '\n' !in NO_OFFLOAD_ATTR;
      var at := Find(line, ADMITTED_OP).value;
      var tail := line[at + |ADMITTED_OP|..];
      var colon := Find(tail, " : ").value;
      hide Find, DisableDictionary;
      TrimInside(tail[..colon], '\n');
      DictionaryOneLine(TrimEnd(tail[..colon]), NO_OFFLOAD_ATTR);
    }
  }

  lemma BoundOneLine(line: string, key: string, bound: string)
    requires '\n' !in line && '\n' !in bound && ReplaceBound(line, key, bound).Some?
    ensures '\n' !in ReplaceBound(line, key, bound).value
  {
    hide Find, BlankRun, DigitRun;
  }

  lemma RewriteOneLine(line: string)
    requires '\n' !in line && RewriteLine(line).Defeated?
    ensures '\n' !in RewriteLine(line).text
  {
    assert '\n' !in NO_OFFLOAD_BOUND;
    if Contains(line, ADMITTED_OP) {
      hide DisableAdmission, Contains, IsComment;
      AdmissionOneLine(line);
    } else {
      hide ReplaceBound, Contains, IsComment;
      var once := ReplaceBound(line, "umin", NO_OFFLOAD_BOUND);
      BoundOneLine(line, "umin", NO_OFFLOAD_BOUND);
      BoundOneLine(once.value, "umax", NO_OFFLOAD_BOUND);
    }
  }

  // ----- the loop over any lines -----

  function NewTexts(ts: seq<string>): seq<string> {
    if ts == [] then [] else [NewText(ts[0])] + NewTexts(ts[1..])
  }

  function Flagged(ts: seq<string>): seq<bool> {
    if ts == [] then [] else [PredicateLine(ts[0])] + Flagged(ts[1..])
  }

  lemma NewHead(ts: seq<string>)
    requires ts != []
    ensures NewTexts(ts)[0] == NewText(ts[0]) && NewTexts(ts)[1..] == NewTexts(ts[1..])
    ensures Flagged(ts)[0] == PredicateLine(ts[0]) && Flagged(ts)[1..] == Flagged(ts[1..])
  {
    hide NewText, PredicateLine;
  }

  lemma {:induction false} NewLengths(ts: seq<string>)
    ensures |NewTexts(ts)| == |ts| == |Flagged(ts)|
  {
    hide NewText, PredicateLine;
    if ts != [] {
      NewLengths(ts[1..]);
    }
  }

  lemma LoopHead(ts: seq<string>)
    requires ts != [] && NoLineFeeds(ts) && RewriteLines(RewriteLine, LinesInclusive(Unlines(ts))).Ok?
    ensures !RewriteLine(ts[0]).Unreadable? && RewriteLines(RewriteLine, LinesInclusive(Unlines(ts[1..]))).Ok?
  {
    hide RewriteLine, Unlines, LinesInclusive;
    UnlinesCons(ts[0], ts[1..]);
    assert ts == [ts[0]] + ts[1..];
    FirstLine(ts[0], Unlines(ts[1..]));
    RewriteCons(RewriteLine, ts[0] + "\n", LinesInclusive(Unlines(ts[1..])));
    RewriteEnded(ts[0]);
  }

  lemma LineRewritten(t: string)
    requires !RewriteLine(t).Unreadable?
    ensures RewriteLine(t + "\n") == if PredicateLine(t) then Defeated(NewText(t) + "\n") else Kept
    ensures !PredicateLine(t) ==> NewText(t) == t
    ensures !RewriteLine(NewText(t)).Unreadable? && NewText(NewText(t)) == NewText(t)
    ensures PredicateLine(NewText(t)) <==> PredicateLine(t)
    ensures '\n' !in t ==> '\n' !in NewText(t)
  {
    hide *;
    KeptExactly(t);
    RewriteEnded(t);
    EndedCases(RewriteLine(t));
    if PredicateLine(t) {
      RewriteAgain(t, NewText(t));
      KeptExactly(NewText(t));
      NewTextOf(NewText(t), NewText(t));
      if '\n' !in t {
        RewriteOneLine(t);
      }
    }
  }

  lemma NewTextOf(t: string, u: string)
    requires RewriteLine(t) == Defeated(u)
    ensures NewText(t) == u
  {
  }

  lemma EndedCases(r: LineRewrite)
    ensures r.Defeated? ==> EndedLine(r) == Defeated(r.text + "\n")
    ensures r.Kept? ==> EndedLine(r) == Kept
  {
  }

  /** A loop that succeeds rewrites each line, and rewrites the result to itself. */
  lemma {:induction false} LoopAgain(ts: seq<string>)
    requires NoLineFeeds(ts) && RewriteLines(RewriteLine, LinesInclusive(Unlines(ts))).Ok?
    ensures |NewTexts(ts)| == |ts| == |Flagged(ts)| && NoLineFeeds(NewTexts(ts))
    ensures RewritesTo(RewriteLine, ts, NewTexts(ts), Flagged(ts))
    ensures RewritesTo(RewriteLine, NewTexts(ts), NewTexts(ts), Flagged(ts))
  {
    NewLengths(ts);
    if ts != [] {
      LoopHead(ts);
      LoopAgain(ts[1..]);
      NewHead(ts);
      hide RewriteLine, PredicateLine, NewText, NewTexts, Flagged;
      LineRewritten(ts[0]);
      LineRewritten(NewText(ts[0]));
    }
  }

  // ----- the lists and the lookups stay as they were -----

  /** Whether a list is open after the text: it has an op name with no end mark behind it. */
  predicate OpenAfter(t: string, open: bool)
    decreases |t|
  {
    match Find(t, LOOP)
    case Some(i) => OpenAfter(t[i + |LOOP|..], true)
    case None => open && !Contains(t, LIST_END)
  }

  /** What the rewriter takes for a predicate stands in no open list and names no list and no declaration. */
  predicate Quiet(ts: seq<string>, open: bool) {
    ts != [] ==>
      && (PredicateLine(ts[0]) ==> !open && !Contains(ts[0], LOOP) && !Contains(ts[0], DECL))
      && Quiet(ts[1..], OpenAfter(ts[0], open))
  }

  predicate AllReadable(ts: seq<string>) {
    ts != [] ==> !RewriteLine(ts[0]).Unreadable? && AllReadable(ts[1..])
  }

  lemma {:induction false} LoopReadable(ts: seq<string>)
    requires NoLineFeeds(ts) && RewriteLines(RewriteLine, LinesInclusive(Unlines(ts))).Ok?
    ensures AllReadable(ts)
  {
    if ts != [] {
      hide RewriteLine, RewriteLines, LinesInclusive, Unlines;
      LoopHead(ts);
      LoopReadable(ts[1..]);
    }
  }

  /** What the first line adds to the conditions. */
  lemma QuietStep(ts: seq<string>, open: bool)
    requires ts != [] && NoLineFeeds(ts) && AllReadable(ts) && Quiet(ts, open)
    ensures '\n' !in ts[0] && !RewriteLine(ts[0]).Unreadable? && NoLineFeeds(ts[1..]) && AllReadable(ts[1..])
    ensures PredicateLine(ts[0]) ==> !open && !Contains(ts[0], LOOP) && !Contains(ts[0], DECL)
    ensures Quiet(ts[1..], OpenAfter(ts[0], open))
  {
    hide PredicateLine, Contains, OpenAfter, RewriteLine;
  }

  lemma NewCons(ts: seq<string>)
    requires ts != []
    ensures Unlines(ts) == ts[0] + "\n" + Unlines(ts[1..])
    ensures Unlines(NewTexts(ts)) == NewText(ts[0]) + "\n" + Unlines(NewTexts(ts[1..]))
  {
    hide NewText;
    UnlinesCons(NewText(ts[0]), NewTexts(ts[1..]));
  }

  lemma NothingNew()
    ensures NewTexts([]) == []
  {
  }

  lemma OpenStep(t: string, open: bool, i: nat)
    requires Find(t, LOOP) == Some(i) && i + |LOOP| <= |t|
    ensures OpenAfter(t, open) == OpenAfter(t[i + |LOOP|..], true)
  {
    hide Find, Contains;
  }

  /** A list that is open stays open up to its end mark. */
  lemma {:induction false} OpenStays(t: string)
    ensures Contains(t, LIST_END) || OpenAfter(t, true)
    decreases |t|
  {
    var f := Find(t, LOOP);
    if f.Some? {
      var rest := t[f.value + |LOOP|..];
      OpenStays(rest);
      PartsFree(t[..f.value + |LOOP|], rest, LIST_END);
      assert t[..f.value + |LOOP|] + rest == t;
    }
  }

  lemma WithinEnd(x: string, rest: string)
    requires Contains(x, LIST_END)
    ensures Before(x + "\n" + rest, LIST_END) == Before(x, LIST_END)
  {
    EndInside(x, "\n" + rest);
    ConcatAssoc(x, "\n", rest);
  }

  lemma EndLine()
    ensures '\n' !in LIST_END && LIST_END != ""
  {
  }

  /** An open list whose text goes on over the lines: its text up to the end mark stays. */
  lemma {:induction false} RegionKept(x: string, ts: seq<string>, open: bool)
    requires NoLineFeeds(ts) && AllReadable(ts) && Quiet(ts, open) && (open || Contains(x, LIST_END))
    ensures Before(x + "\n" + Unlines(NewTexts(ts)), LIST_END) == Before(x + "\n" + Unlines(ts), LIST_END)
    decreases |ts|
  {
    hide *;
    if Contains(x, LIST_END) {
      WithinEnd(x, Unlines(ts));
      WithinEnd(x, Unlines(NewTexts(ts)));
    } else if ts == [] {
      NothingNew();
    } else {
      EndLine();
      QuietStep(ts, open);
      LineRewritten(ts[0]);
      NewCons(ts);
      BeforeSkips(x, Unlines(ts), LIST_END);
      BeforeSkips(x, Unlines(NewTexts(ts)), LIST_END);
      OpenStays(ts[0]);
      RegionKept(ts[0], ts[1..], OpenAfter(ts[0], open));
    }
  }

  lemma LoopLine()
    ensures LOOP != "" && '\n' !in LOOP && BorderFree(LOOP)
  {
    OpNames();
  }

  lemma SkipLine(t: string, rest: string)
    requires !Contains(t, LOOP)
    ensures ReadLists(ListMatchers, t + "\n" + rest, LOOP, LIST_END) == ReadLists(ListMatchers, rest, LOOP, LIST_END)
  {
    hide *;
    LoopLine();
    SkipMark(ListMatchers, t, '\n', rest, LOOP, LIST_END);
    BreakIs(t, rest);
  }

  lemma BreakIs(t: string, rest: string)
    ensures t + ['\n'] + rest == t + "\n" + rest
  {
  }

  lemma OpenLine(t: string, rest: string, i: nat)
    requires Find(t, LOOP) == Some(i) && i + |LOOP| <= |t|
    ensures ReadLists(ListMatchers, t + "\n" + rest, LOOP, LIST_END) ==
            ListMatchers(Before(t[i..] + "\n" + rest, LIST_END))
            + ReadLists(ListMatchers, t[i + |LOOP|..] + "\n" + rest, LOOP, LIST_END)
  {
    FoundSome(t, LOOP);
    hide *;
    LoopLine();
    FindSplit(t, '\n', rest, LOOP);
    BreakIs(t, rest);
    ListStep(ListMatchers, t + "\n" + rest, i, LOOP, LIST_END);
    CutLine(t, rest, i);
    CutLine(t, rest, i + |LOOP|);
  }

  /** The lists that open in the rest `t` of a line, and those of the lines after it. */
  lemma {:induction false} LineKept(t: string, ts: seq<string>, open: bool)
    requires NoLineFeeds(ts) && AllReadable(ts) && Quiet(ts, OpenAfter(t, open))
    ensures ReadLists(ListMatchers, t + "\n" + Unlines(NewTexts(ts)), LOOP, LIST_END) ==
            ReadLists(ListMatchers, t + "\n" + Unlines(ts), LOOP, LIST_END)
    decreases |ts|, 1, |t|
  {
    hide *;
    LoopLine();
    FoundSome(t, LOOP);
    match Find(t, LOOP)
    case Some(i) =>
      var rest := t[i + |LOOP|..];
      OpenStep(t, open, i);
      OpenStays(rest);
      CutFront(t, i);
      LineKept(rest, ts, true);
      RegionKept(t[i..], ts, OpenAfter(t, open));
      OpenLine(t, Unlines(ts), i);
      OpenLine(t, Unlines(NewTexts(ts)), i);
    case None =>
      ListsKept(ts, OpenAfter(t, open));
      SkipLine(t, Unlines(ts));
      SkipLine(t, Unlines(NewTexts(ts)));
  }

  lemma CutFront(t: string, i: nat)
    requires i + |LOOP| <= |t|
    ensures Contains(t[i + |LOOP|..], LIST_END) ==> Contains(t[i..], LIST_END)
  {
    var a, b := t[i..i + |LOOP|], t[i + |LOOP|..];
    PartsFree(a, b, LIST_END);
    assert a + b == t[i..];
  }

  lemma {:induction false} ListsKept(ts: seq<string>, open: bool)
    requires NoLineFeeds(ts) && AllReadable(ts) && Quiet(ts, open)
    ensures ReadLists(ListMatchers, Unlines(NewTexts(ts)), LOOP, LIST_END) ==
            ReadLists(ListMatchers, Unlines(ts), LOOP, LIST_END)
    decreases |ts|, 0, 0
  {
    hide *;
    if ts == [] {
      NothingNew();
    } else {
      QuietStep(ts, open);
      LineRewritten(ts[0]);
      NewCons(ts);
      if PredicateLine(ts[0]) {
        LoopCrosses();
        NewGains(ts[0], LOOP);
        SkipLine(ts[0], Unlines(ts[1..]));
        SkipLine(NewText(ts[0]), Unlines(NewTexts(ts[1..])));
        ListsKept(ts[1..], OpenAfter(ts[0], open));
      } else {
        LineKept(ts[0], ts[1..], open);
      }
    }
  }

  lemma NewGains(t: string, pat: string)
    requires OpPattern(pat) && DigitFree(pat) && !Contains(t, pat)
    ensures !Contains(NewText(t), pat)
  {
    if RewriteLine(t).Defeated? {
      RewriteGains(t, pat);
    }
  }

  lemma LineAlike(t: string)
    requires !RewriteLine(t).Unreadable? && (PredicateLine(t) ==> !Contains(t, DECL))
    ensures AlikeLine(t, NewText(t))
  {
    LineRewritten(t);
    if PredicateLine(t) {
      DeclCrosses();
      NewGains(t, DECL);
      FoundSome(t, DECL);
      FoundSome(NewText(t), DECL);
    }
    hide PredicateLine, NewText, Find, Contains, RewriteLine;
  }

  lemma {:induction false} NewAlike(ts: seq<string>, open: bool)
    requires NoLineFeeds(ts) && AllReadable(ts) && Quiet(ts, open)
    ensures Alike(ts, NewTexts(ts))
  {
    NewLengths(ts);
    if ts != [] {
      QuietStep(ts, open);
      NewHead(ts);
      NewAlike(ts[1..], OpenAfter(ts[0], open));
      hide AlikeLine, NewTexts, PredicateLine, RewriteLine, Contains, Quiet;
      LineAlike(ts[0]);
    }
  }

  // ----- the theorem -----

  lemma LoopRead(text: string)
    requires Neutralize(text).Ok?
    ensures RewriteLines(RewriteLine, LinesInclusive(text)).Ok?
  {
    hide Matchers, Defeatable, RewriteLines, LinesInclusive;
  }

  /**
   Neutralizing the neutralized text gives the very same result, for any text of lines in which no
   line the rewriter takes for a predicate stands in an open list or names a list or a declaration.
   */
  lemma NeutralizeTwice(ts: seq<string>)
    requires NoLineFeeds(ts) && Quiet(ts, false) && Neutralize(Unlines(ts)).Ok?
    ensures Neutralize(Neutralize(Unlines(ts)).value.text) == Neutralize(Unlines(ts))
  {
    hide *;
    LoopRead(Unlines(ts));
    LoopReadable(ts);
    LoopAgain(ts);
    NeutralizeLines(ts, NewTexts(ts), Flagged(ts));
    NeutralizeLines(NewTexts(ts), NewTexts(ts), Flagged(ts));
    ListsKept(ts, false);
    SameMatchers(Unlines(ts), Unlines(NewTexts(ts)));
    NewAlike(ts, false);
    AllAlike(ts, NewTexts(ts));
  }

  lemma SameMatchers(s: string, t: string)
    requires ReadLists(ListMatchers, t, LOOP, LIST_END) == ReadLists(ListMatchers, s, LOOP, LIST_END)
    ensures Matchers(t) == Matchers(s)
  {
  }

  // ----- where it does not reach -----

  /**
   A nested dictionary takes the attribute: the line comes out with it inside the value of
   `key`, and the admission still asks the planner as before.
   */
  lemma NestedDictionaryStaysLive(key: string, inner: string, rest: string, op: Op)
    requires NestedParts(key, inner)
    ensures var nested, taken := key + "{" + inner + "}", key + "{" + (NO_OFFLOAD_ATTR + ", " + inner) + "}";
            var line, out := Admission("", "%0", Some([nested]), rest), Admission("", "%0", Some([taken]), rest);
            && AdmissionTokens("", "%0", Some([nested]))
            && (!Contains(LineText(line), NO_OFFLOAD_ATTR) ==> RewriteLine(LineText(line)) == Defeated(LineText(out)))
            && out != Disarm(line)
            && (Accepts(out, op) <==> op.admits("%0", Some([taken])))
  {
    var nested, taken := key + "{" + inner + "}", key + "{" + (NO_OFFLOAD_ATTR + ", " + inner) + "}";
    NestedToken(key, inner);
    NestedOther(key, inner);
    JoinOne(nested);
    JoinOne(taken);
    AdmissionParts("", "%0", Some([nested]), rest);
    AdmissionParts("", "%0", Some([taken]), rest);
    if !Contains(AdmissionText("", "%0", Some([nested]), rest), NO_OFFLOAD_ATTR) {
      hide TailText, AdmissionText, Contains;
      var tail := TailText("%0", Some([nested]), rest);
      AdmissionRewrite("", tail);
      NestedTail(key, inner, rest);
      AdmissionStarts("", tail);
      AdmittedThere("", tail);
    }
  }

  /** A key and an inner dictionary of `{key{inner}}`, free of type colons. */
  predicate NestedParts(key: string, inner: string) {
    && key != "" && !White(key[0]) && '}' !in key && ':' !in key
    && inner != "" && !White(inner[0]) && !White(inner[|inner| - 1]) && '{' !in inner && '}' !in inner && ':' !in inner
  }

  lemma JoinOne(a: string)
    ensures Join([a], ", ") == a
  {
  }

  lemma AdmittedThere(indent: string, tail: string)
    requires Find(indent + ADMITTED_OP + tail, ADMITTED_OP).Some?
    ensures Contains(indent + ADMITTED_OP + tail, ADMITTED_OP)
  {
  }

  lemma NestedToken(key: string, inner: string)
    requires NestedParts(key, inner)
    ensures DictToken(key + "{" + inner + "}")
  {
    var d := key + "{" + inner + "}";
    assert d[..|key|] == key && d[|key|] == '{';
    forall i | 0 <= i < |d| && d[i] == '}' ensures '{' in d[..i] {
      assert i > |key| by {
        assert forall k :: 0 <= k < |key| ==> d[k] == key[k];
      }
      assert d[..i][|key|] == '{';
    }
  }

  /** The attribute is no element of the list it lands in. */
  lemma NestedOther(key: string, inner: string)
    requires NestedParts(key, inner)
    ensures NO_OFFLOAD_ATTR != key + "{" + (NO_OFFLOAD_ATTR + ", " + inner) + "}"
    ensures NO_OFFLOAD_ATTR != key + "{" + inner + "}"
  {
    assert (key + "{" + (NO_OFFLOAD_ATTR + ", " + inner) + "}")[|key|] == '{';
    assert (key + "{" + inner + "}")[|key|] == '{';
    assert '{' !in NO_OFFLOAD_ATTR;
  }

  lemma NestedTail(key: string, inner: string, rest: string)
    requires NestedParts(key, inner)
    ensures DisableTail(TailText("%0", Some([key + "{" + inner + "}"]), rest), NO_OFFLOAD_ATTR) ==
            Some(TailText("%0", Some([key + "{" + (NO_OFFLOAD_ATTR + ", " + inner) + "}"]), rest))
  {
    var nested, taken := key + "{" + inner + "}", key + "{" + (NO_OFFLOAD_ATTR + ", " + inner) + "}";
    JoinOne(nested);
    JoinOne(taken);
    NestedGroups(nested, rest);
    NestedGroups(taken, rest);
    assert ':' !in " %0 {" + nested + "}";
    NestedMiddle(" %0 {" + key, inner, NO_OFFLOAD_ATTR);
    NestedRegroup(" %0 {", key, inner);
    NestedRegroup(" %0 {", key, NO_OFFLOAD_ATTR + ", " + inner);
    InnerGroups(NO_OFFLOAD_ATTR, inner);
    hide DisableDictionary, DisableTail;
    ClosedTail(" %0 {" + nested, rest, NO_OFFLOAD_ATTR);
  }

  lemma InnerGroups(attr: string, inner: string)
    ensures attr + ", " + inner + "}" == attr + ", " + (inner + "}")
  {
  }

  /** A tail whose first colon comes after its last brace. */
  lemma ClosedTail(a: string, rest: string, attr: string)
    requires ':' !in a + "}"
    ensures DisableTail(a + "}" + (" : " + rest), attr) ==
            match DisableDictionary(a + "}", attr) case None => None case Some(m) => Some(m + (" : " + rest))
  {
    hide DisableDictionary;
    var m := a + "}";
    FindMark(m, " : ", rest);
    assert m + " : " + rest == m + (" : " + rest);
    TailAt(m, " : " + rest, attr);
    TrimEndSkips(m, "");
    assert m + "" == m;
  }

  lemma NestedGroups(dict: string, rest: string)
    ensures DictTail("%0", dict, rest) == " %0 {" + dict + "}" + (" : " + rest)
  {
  }

  lemma NestedRegroup(a: string, key: string, inner: string)
    ensures a + (key + "{" + inner + "}") + "}" == a + key + "{" + (inner + "}") + "}"
  {
  }

  /** The last brace is the inner one. */
  lemma NestedMiddle(a: string, inner: string, attr: string)
    requires inner != "" && !White(inner[0]) && '{' !in inner
    ensures DisableDictionary(a + "{" + (inner + "}") + "}", attr) ==
            Some(a + "{" + (attr + ", " + (inner + "}")) + "}")
  {
    var m := a + "{" + (inner + "}") + "}";
    var head := a + ['{'] + (inner + "}");
    assert m[..|m| - 1] == head;
    RFindCharIs(a, '{', inner + "}");
    assert head[..|a|] == a && head[|a| + 1..] == inner + "}";
    TrimBoth("", inner + "}", "");
    assert "" + (inner + "}") + "" == inner + "}";
  }
}
