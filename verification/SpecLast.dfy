/**
 A text whose last line has no line feed is neutralized as it is with one.
 */
module SpecLast {
  import opened Text
  import opened SpecRewrite
  import opened SpecViews
  import opened SpecEnds
  import opened SpecModel
  import opened SpecSafety
  import opened SpecLists
  import opened SpecAgain
  import opened SpecEnable

  predicate Unended(s: string) {
    s == "" || s[|s| - 1] != '\n'
  }

  // ----- the lists -----

  lemma PairEnded(text: string)
    ensures PairName(text + "\n") == PairName(text)
  {
    EndAdds(text, '\n', "->");
    var f := Find(text, "->");
    if f.Some? {
      assert (text + "\n")[..f.value] == text[..f.value];
    }
  }

  lemma {:induction false} ListEnded(text: string)
    ensures ListMatchers(text + "\n") == ListMatchers(text)
    decreases |text|
  {
    var c := Find(text, ",");
    hide Find, ListMatchers, PairName;
    match c
    case None =>
      NoCommaAt(text);
      OnlyChunk(text);
      OnlyChunk(text + "\n");
      PairEnded(text);
    case Some(i) =>
      CommaIn(text, i);
      var x, y := text[..i], text[i + 1..];
      ListEnded(y);
      FirstComma(x, y);
      FirstComma(x, y + "\n");
      assert x + [','] + y + "\n" == x + [','] + (y + "\n");
  }

  lemma BeforeEnded(s: string, mark: string)
    requires '\n' !in mark && mark != ""
    ensures Before(s + "\n", mark) == if Contains(s, mark) then Before(s, mark) else s + "\n"
    ensures !Contains(s, mark) ==> Before(s, mark) == s
  {
    EndAdds(s, '\n', mark);
    var f := Find(s, mark);
    if f.Some? {
      assert (s + "\n")[..f.value] == s[..f.value];
    }
  }

  lemma NoLists(s: string)
    requires Find(s, LOOP) == None
    ensures ReadLists(ListMatchers, s, LOOP, LIST_END) == []
  {
  }

  lemma {:induction false} ListsEnded(s: string)
    ensures ReadLists(ListMatchers, s + "\n", LOOP, LIST_END) == ReadLists(ListMatchers, s, LOOP, LIST_END)
    decreases |s|
  {
    hide *;
    LoopLine();
    EndLine();
    EndAdds(s, '\n', LOOP);
    match Find(s, LOOP)
    case None =>
      NoLists(s);
      NoLists(s + "\n");
    case Some(i) =>
      var rest := s[i + |LOOP|..];
      ListsEnded(rest);
      EndCut(s, i);
      EndCut(s, i + |LOOP|);
      BeforeEnded(s[i..], LIST_END);
      ListEnded(s[i..]);
      ListStep(ListMatchers, s, i, LOOP, LIST_END);
      ListStep(ListMatchers, s + "\n", i, LOOP, LIST_END);
  }

  // ----- the lookup -----

  lemma BlindCr(line: string)
    ensures PredicateLine(StripCr(line)) <==> PredicateLine(line)
    ensures !PredicateLine("")
  {
    CrBlind(line);
    NothingFlagged();
  }

  lemma OneLast(pred: string -> bool, line: string)
    ensures AnyLine(pred, [line]) <==> pred(line)
    ensures !AnyLine(pred, [])
  {
    assert [line][1..] == [];
  }

  lemma LineCut(pred: string -> bool, s: string, i: nat)
    requires Find(s, "\n") == Some(i) && i + 1 <= |s|
    ensures AnyLine(pred, Lines(s)) <==> pred(StripCr(s[..i])) || AnyLine(pred, Lines(s[i + 1..]))
  {
    hide *;
    LinesCut(s, i);
    AnyCons(pred, StripCr(s[..i]), Lines(s[i + 1..]));
  }

  lemma LinesCut(s: string, i: nat)
    requires Find(s, "\n") == Some(i) && i + 1 <= |s|
    ensures Lines(s) == [StripCr(s[..i])] + Lines(s[i + 1..])
  {
    hide Find, FindFrom, StripCr;
  }

  lemma AnyCons(pred: string -> bool, line: string, rest: seq<string>)
    ensures AnyLine(pred, [line] + rest) <==> pred(line) || AnyLine(pred, rest)
  {
    assert ([line] + rest)[1..] == rest;
  }

  lemma BreakAt(s: string, i: nat)
    requires Find(s, "\n") == Some(i)
    ensures i < |s| && s[i] == '\n'
  {
    FindSpec(s, "\n");
    assert s[i + 0] == "\n"[0];
  }

  lemma {:induction false} LinesEnded(s: string)
    requires Unended(s)
    ensures AnyLine(PredicateLine, Lines(s + "\n")) <==> AnyLine(PredicateLine, Lines(s))
    decreases |s|
  {
    hide *;
    match Find(s, "\n")
    case Some(i) =>
      BreakAt(s, i);
      UnendedRest(s, i + 1);
      LinesEnded(s[i + 1..]);
      FoundSome(s, "\n");
      StaysFound(s, "\n", "\n");
      EndCut(s, i);
      EndCut(s, i + 1);
      LineCut(PredicateLine, s, i);
      LineCut(PredicateLine, s + "\n", i);
    case None =>
      NoBreak(s);
      LastLine(s);
  }

  lemma LastLine(s: string)
    requires '\n' !in s
    ensures AnyLine(PredicateLine, Lines(s + "\n")) <==> AnyLine(PredicateLine, Lines(s))
  {
    hide *;
    BlindCr(s);
    FirstLine(s, "");
    LinesLast(s);
    ConcatAssoc(s + "\n", "", "");
    NoLinesAt();
    OneLast(PredicateLine, StripCr(s));
    OneLast(PredicateLine, s);
    StripNothing();
  }

  lemma StripNothing()
    ensures StripCr("") == "" && forall x: seq<string> :: x + [] == x
  {
  }

  lemma NoLinesAt()
    ensures Lines("") == []
  {
  }

  lemma NoBreak(s: string)
    requires Find(s, "\n") == None
    ensures '\n' !in s
  {
    FindSpec(s, "\n");
    forall k | 0 <= k < |s| ensures s[k] != '\n' {
      assert !OccursAt(s, k, "\n");
    }
  }

  lemma SymbolEnded(s: string)
    ensures SymbolPrefix(s + "\n") == SymbolPrefix(s)
  {
    SymbolStops(s, "");
    assert s + "\n" + "" == s + "\n";
  }

  lemma {:induction false} LookupEnded(s: string, name: string)
    requires Unended(s)
    ensures Holds(BodyText(s + "\n", DECL, name), PredicateLine) <==> Holds(BodyText(s, DECL, name), PredicateLine)
    decreases |s|
  {
    hide *;
    DeclLine();
    EndAdds(s, '\n', DECL);
    match Find(s, DECL)
    case None =>
      BodyNone(s, DECL, name);
      BodyNone(s + "\n", DECL, name);
    case Some(i) =>
      var after := s[i + |DECL|..];
      UnendedRest(s, i + |DECL|);
      if SymbolPrefix(after) != name {
        LookupEnded(after, name);
      }
      LookupCut(s, i, after, name);
  }

  lemma LookupCut(s: string, i: nat, after: string, name: string)
    requires Find(s, DECL) == Find(s + "\n", DECL) == Some(i) && i + |DECL| <= |s| && after == s[i + |DECL|..]
    requires Unended(after)
    requires SymbolPrefix(after) == name ||
             (Holds(BodyText(after + "\n", DECL, name), PredicateLine) <==>
              Holds(BodyText(after, DECL, name), PredicateLine))
    ensures Holds(BodyText(s + "\n", DECL, name), PredicateLine) <==> Holds(BodyText(s, DECL, name), PredicateLine)
  {
    hide *;
    DeclLine();
    EndCut(s, i + |DECL|);
    DeclStep(s, DECL, name, i);
    DeclStep(s + "\n", DECL, name, i);
    SymbolEnded(after);
    if SymbolPrefix(after) == name {
      UnendedRest(after, |name|);
      EndCut(after, |name|);
      BodyEnded(after[|name|..]);
    }
  }

  lemma DeclLine()
    ensures DECL != "" && |DECL| > 0 && '\n' !in DECL
  {
  }

  lemma UnendedRest(s: string, k: nat)
    requires Unended(s) && k <= |s|
    ensures Unended(s[k..])
  {
  }

  lemma BodyEnded(t: string)
    requires Unended(t)
    ensures Holds(Some(Before(t + "\n", DECL)), PredicateLine) <==> Holds(Some(Before(t, DECL)), PredicateLine)
  {
    DeclLine();
    BeforeEnded(t, DECL);
    LinesEnded(t);
    hide PredicateLine, Lines, AnyLine, Before, Contains;
  }

  // ----- the line loop -----

  function EndedLoop(r: Result<Rewritten, Error>): Result<Rewritten, Error> {
    match r
    case Ok(v) => Ok(Rewritten(v.text + "\n", v.rewritten))
    case Err(e) => Err(e)
  }

  lemma LoopOne(line: string)
    ensures RewriteLines(RewriteLine, [line]) == Extend(RewriteLine(line), line, Ok(Rewritten("", 0)))
  {
    hide RewriteLine;
    RewriteCons(RewriteLine, line, []);
    assert [line] + [] == [line];
  }

  lemma ExtendEnded(r: LineRewrite, line: string)
    ensures Extend(EndedLine(r), line + "\n", Ok(Rewritten("", 0))) == EndedLoop(Extend(r, line, Ok(Rewritten("", 0))))
  {
    assert forall t: string :: t + "" == t && t + "\n" + "" == t + "\n";
  }

  lemma PrependEnded(r: LineRewrite, line: string, rest: Result<Rewritten, Error>)
    ensures Extend(r, line, EndedLoop(rest)) == EndedLoop(Extend(r, line, rest))
  {
    if rest.Ok? {
      ConcatAssoc(line, rest.value.text, "\n");
      if r.Defeated? {
        ConcatAssoc(r.text, rest.value.text, "\n");
      }
    }
  }

  lemma InclusiveCut(s: string, i: nat)
    requires Find(s, "\n") == Some(i) && i + 1 <= |s|
    ensures LinesInclusive(s) == [s[..i + 1]] + LinesInclusive(s[i + 1..])
  {
    hide Find, FindFrom;
  }

  lemma InclusiveLast(s: string)
    requires '\n' !in s && s != ""
    ensures LinesInclusive(s) == [s] && LinesInclusive(s + "\n") == [s + "\n"]
  {
    CharFree(s, "\n", '\n');
    FirstLine(s, "");
    assert s + "\n" + "" == s + "\n" && [s + "\n"] + LinesInclusive("") == [s + "\n"];
  }

  lemma {:induction false} LoopEnded(s: string)
    requires Unended(s) && s != ""
    ensures RewriteLines(RewriteLine, LinesInclusive(s + "\n")) ==
            EndedLoop(RewriteLines(RewriteLine, LinesInclusive(s)))
    decreases |s|
  {
    var f := Find(s, "\n");
    if f.Some? {
      var i := f.value;
      BreakAt(s, i);
      var rest := s[i + 1..];
      LoopEnded(rest);
      StaysFound(s, "\n", "\n");
      EndCut(s, i + 1);
      hide *;
      InclusiveCut(s, i);
      InclusiveCut(s + "\n", i);
      RewriteCons(RewriteLine, s[..i + 1], LinesInclusive(rest));
      RewriteCons(RewriteLine, s[..i + 1], LinesInclusive(rest + "\n"));
      PrependEnded(RewriteLine(s[..i + 1]), s[..i + 1], RewriteLines(RewriteLine, LinesInclusive(rest)));
    } else {
      NoBreak(s);
      hide *;
      InclusiveLast(s);
      LoopOne(s);
      LoopOne(s + "\n");
      RewriteEnded(s);
      ExtendEnded(RewriteLine(s), s);
    }
  }

  // ----- the theorem -----

  function EndedSpec(r: Result<Neutralized, Error>): Result<Neutralized, Error> {
    match r
    case Ok(v) => Ok(Neutralized(v.text + "\n", v.rewritten, v.matchers))
    case Err(e) => Err(e)
  }

  /**
   Any text is neutralized, or refused, alike with and without a line feed behind its last line,
   which the result then has too: what holds of texts of lines holds of the others.
   */
  lemma NeutralizeEnds(s: string)
    requires s != "" && Unended(s)
    ensures Neutralize(s + "\n") == EndedSpec(Neutralize(s))
  {
    hide *;
    ListsEnded(s);
    LoopEnded(s);
    forall n ensures Defeatable(s + "\n", n) <==> Defeatable(s, n) {
      LookupEnded(s, n);
      HeldIs(s, n);
      HeldIs(s + "\n", n);
    }
    SameMatchers(s, s + "\n");
    SameOutcome(s, s + "\n");
  }

  lemma HeldIs(s: string, name: string)
    ensures Defeatable(s, name) <==> Holds(BodyText(s, DECL, name), PredicateLine)
  {
  }

  lemma SameOutcome(s: string, t: string)
    requires Matchers(t) == Matchers(s)
    requires forall n :: Defeatable(t, n) <==> Defeatable(s, n)
    requires RewriteLines(RewriteLine, LinesInclusive(t)) ==
             EndedLoop(RewriteLines(RewriteLine, LinesInclusive(s)))
    ensures Neutralize(t) == EndedSpec(Neutralize(s))
  {
    hide Matchers, Defeatable, RewriteLines, RewriteLine, LinesInclusive;
    assert (set m | m in Matchers(t) && !Defeatable(t, m)) == (set m | m in Matchers(s) && !Defeatable(s, m));
  }

  // ----- twice, without the last line feed -----

  lemma {:induction false} JoinEnds(ts: seq<string>)
    requires ts != [] && NoLineFeeds(ts) && ts[|ts| - 1] != ""
    ensures Join(ts, "\n") + "\n" == Unlines(ts) && Unended(Join(ts, "\n")) && Join(ts, "\n") != ""
  {
    if |ts| == 1 {
      assert Unlines(ts[1..]) == "";
      assert ts[0] + "\n" + "" == ts[0] + "\n";
    } else {
      JoinEnds(ts[1..]);
      var rest := Join(ts[1..], "\n");
      ConcatAssoc(ts[0] + "\n", rest, "\n");
      assert (ts[0] + "\n" + rest)[|ts[0] + "\n" + rest| - 1] == rest[|rest| - 1];
    }
  }

  lemma {:induction false} LastStays(ts: seq<string>)
    requires ts != [] && AllReadable(ts) && ts[|ts| - 1] != ""
    ensures |NewTexts(ts)| == |ts| && NewTexts(ts)[|ts| - 1] != ""
  {
    ReadableHead(ts);
    NewHead(ts);
    NewLengths(ts);
    hide *;
    if |ts| == 1 {
      LineRewritten(ts[0]);
      NothingFlagged();
    } else {
      LastStays(ts[1..]);
      assert ts[1..][|ts| - 2] == ts[|ts| - 1];
      assert NewTexts(ts)[1..][|ts| - 2] == NewTexts(ts)[|ts| - 1];
    }
  }

  lemma ReadableHead(ts: seq<string>)
    requires ts != [] && AllReadable(ts)
    ensures !RewriteLine(ts[0]).Unreadable? && AllReadable(ts[1..])
  {
    hide RewriteLine;
  }

  /** The same for a text without a final line feed: its lines joined, the last one not empty. */
  lemma JoinedTwice(ts: seq<string>)
    requires ts != [] && NoLineFeeds(ts) && ts[|ts| - 1] != "" && Quiet(ts, false)
    requires Neutralize(Join(ts, "\n")).Ok?
    ensures Neutralize(Neutralize(Join(ts, "\n")).value.text) == Neutralize(Join(ts, "\n"))
  {
    hide *;
    var s := Join(ts, "\n");
    var t := Neutralize(s).value.text;
    JoinEnds(ts);
    NeutralizeEnds(s);
    EndedIs(Neutralize(s));
    NeutralizeTwice(ts);
    LoopRead(Unlines(ts));
    LoopReadable(ts);
    LoopAgain(ts);
    LastStays(ts);
    JoinEnds(NewTexts(ts));
    NeutralizeLines(ts, NewTexts(ts), Flagged(ts));
    EndsAlike(t, Join(NewTexts(ts), "\n"));
    NeutralizeEnds(t);
    EndedIs(Neutralize(t));
    EndsAlikeSpec(Neutralize(t), Neutralize(s));
  }

  lemma EndedIs(r: Result<Neutralized, Error>)
    ensures r.Ok? ==> EndedSpec(r).Ok? && EndedSpec(r).value.text == r.value.text + "\n"
    ensures r.Err? ==> EndedSpec(r) == r
  {
  }

  lemma EndsAlike(s: string, t: string)
    requires s + "\n" == t + "\n"
    ensures s == t
  {
    SameEnd(s, t, "\n");
  }

  lemma EndsAlikeSpec(r: Result<Neutralized, Error>, q: Result<Neutralized, Error>)
    requires EndedSpec(r) == EndedSpec(q)
    ensures r == q
  {
    if r.Ok? && q.Ok? {
      EndsAlike(r.value.text, q.value.text);
    }
  }

  // ----- enabling, without the last line feed -----

  /** What becomes of a line that carries the marker, or does not. */
  function Unmarked(line: string): string {
    match Unmark(line, ELEMENTWISE_MARKER) case Some(t) => t case None => line
  }

  lemma {:induction false} UnmarkLast(a: seq<string>, x: string)
    ensures UnmarkAll(a + [x], ELEMENTWISE_MARKER) == UnmarkAll(a, ELEMENTWISE_MARKER) + [Unmarked(x)]
    ensures MarkedCount(a + [x], ELEMENTWISE_MARKER) ==
            MarkedCount(a, ELEMENTWISE_MARKER) + if Unmark(x, ELEMENTWISE_MARKER).Some? then 1 else 0
  {
    hide Unmark;
    if a == [] {
      assert a + [x] == [x] && [x][1..] == [];
    } else {
      assert (a + [x])[1..] == a[1..] + [x];
      UnmarkLast(a[1..], x);
    }
  }

  lemma {:induction false} UnlinesLast(a: seq<string>, x: string)
    ensures Unlines(a + [x]) == Unlines(a) + x + "\n"
  {
    if a == [] {
      assert a + [x] == [x] && [x][1..] == [];
      assert Unlines([]) == "" && "" + x + "\n" == x + "\n" + "";
    } else {
      assert (a + [x])[1..] == a[1..] + [x];
      UnlinesLast(a[1..], x);
      var p, u := a[0] + "\n", Unlines(a[1..]);
      assert p + (u + x + "\n") == p + u + x + "\n";
    }
  }

  /** The last line, which alone keeps its carriage return. */
  lemma {:induction false} LastOf(s: string) returns (a: seq<string>, x: string)
    requires s != "" && Unended(s)
    ensures Lines(s) == a + [x] && Lines(s + "\n") == a + [StripCr(x)]
    ensures x != "" && x[|x| - 1] == s[|s| - 1]
    decreases |s|
  {
    hide Find, FindFrom, StripCr, Contains;
    match Find(s, "\n")
    case None =>
      NoBreak(s);
      LinesLast(s);
      FirstLine(s, "");
      ConcatAssoc(s + "\n", "", "");
      NoLinesAt();
      a, x := [], s;
      assert [StripCr(s)] + [] == [] + [StripCr(s)] && [] + [s] == [s];
    case Some(i) =>
      BreakAt(s, i);
      UnendedRest(s, i + 1);
      var b;
      b, x := LastOf(s[i + 1..]);
      FoundSome(s, "\n");
      StaysFound(s, "\n", "\n");
      EndCut(s, i);
      EndCut(s, i + 1);
      LinesCut(s, i);
      LinesCut(s + "\n", i);
      a := [StripCr(s[..i])] + b;
      ConcatAssoc([StripCr(s[..i])], b, [x]);
      ConcatAssoc([StripCr(s[..i])], b, [StripCr(x)]);
  }

  lemma MarkerEnd()
    ensures ELEMENTWISE_MARKER[|ELEMENTWISE_MARKER| - 1] == '@' && |ELEMENTWISE_MARKER| == 22
  {
  }

  /** A carriage return at the end of a line is neither part of the marker nor removed with it. */
  lemma UnmarkCr(x: string)
    requires x != ""
    ensures Unmark(StripCr(x), ELEMENTWISE_MARKER).Some? <==> Unmark(x, ELEMENTWISE_MARKER).Some?
    ensures Unmarked(StripCr(x)) == Unmarked(x) <==> x[|x| - 1] != '\r'
  {
    if x[|x| - 1] == '\r' {
      var y := x[..|x| - 1];
      assert x == y + ['\r'];
      TrimStartEnded(y, '\r');
      MarkerEnd();
      var t, m := TrimStart(y), ELEMENTWISE_MARKER;
      if t != "" {
        var u := t + ['\r'];
        assert u[|u| - 1] == '\r';
        if m <= u {
          assert m <= t by {
            assert m == u[..|m|] == t[..|m|];
          }
        }
        if m <= t {
          assert m == t[..|m|] == u[..|m|];
        }
      }
    }
  }

  function EndedEnabled(r: Result<Rewritten, Error>): Result<Rewritten, Error> {
    match r
    case Ok(v) => Ok(Rewritten(v.text + "\n", v.rewritten))
    case Err(e) => Err(e)
  }

  /**
   A text without a line feed at its end is enabled, or refused, as it is with one, which the result
   then has too, unless it ends in a carriage return: that stays, and a line feed behind it takes it along.
   */
  lemma EnableEnds(s: string)
    requires s != "" && Unended(s)
    ensures EnableElementwise(s + "\n") == EndedEnabled(EnableElementwise(s)) <==>
            EnableElementwise(s).Err? || s[|s| - 1] != '\r'
  {
    var a, x := LastOf(s);
    var m := ELEMENTWISE_MARKER;
    UnmarkCr(x);
    UnmarkLast(a, x);
    UnmarkLast(a, StripCr(x));
    var u := UnmarkAll(a, m);
    JoinUnlines(u + [Unmarked(x)]);
    JoinUnlines(u + [Unmarked(StripCr(x))]);
    UnlinesLast(u, Unmarked(x));
    UnlinesLast(u, Unmarked(StripCr(x)));
    hide Lines, Unlines, UnmarkAll, MarkedCount, Join, Unmark, StripCr, Unmarked;
    SameBehind(Unlines(u), Unmarked(x), Unmarked(StripCr(x)));
  }

  lemma SameBehind(p: string, x: string, y: string)
    ensures p + x + "\n" == p + y + "\n" <==> x == y
  {
    if p + x + "\n" == p + y + "\n" {
      SameEnd(p + x, p + y, "\n");
      assert x == (p + x)[|p|..] && y == (p + y)[|p|..];
    }
  }
}
