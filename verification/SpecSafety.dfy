/**
 What neutralizing a transform spec guarantees, for every spec whose lines the rewriter can read.
 */
module SpecSafety {
  import opened Text
  import opened SpecRewrite
  import opened SpecLines
  import opened SpecViews
  import opened SpecEnds
  import opened SpecModel

  // ----- the text is the text of the disarmed spec -----

  lemma {:induction false} ModelRewrites(lines: seq<Line>)
    requires AllRewritable(lines)
    ensures |Texts(lines)| == |Texts(DisarmAll(lines))| == |lines|
    ensures RewritesTo(RewriteLine, Texts(lines), Texts(DisarmAll(lines)), Flags(lines))
  {
    if lines != [] {
      ModelRewrites(lines[1..]);
      RewriteModelLine(lines[0]);
      RewriteEnded(LineText(lines[0]));
      Heads(lines);
      OneLine(lines[0]);
      hide LineText, Disarm, PredicateLine, RewriteLine, Rewritable, Texts, DisarmAll, Flags;
    }
  }

  lemma OneLine(l: Line)
    requires Rewritable(l)
    ensures '\n' !in LineText(l)
  {
  }

  lemma Heads(lines: seq<Line>)
    requires lines != []
    ensures Texts(lines)[0] == LineText(lines[0]) && Texts(lines)[1..] == Texts(lines[1..])
    ensures DisarmAll(lines)[0] == Disarm(lines[0]) && DisarmAll(lines)[1..] == DisarmAll(lines[1..])
    ensures Texts(DisarmAll(lines)) == [LineText(Disarm(lines[0]))] + Texts(DisarmAll(lines[1..]))
    ensures Flags(lines)[0] == PredicateLine(LineText(lines[0])) && Flags(lines)[1..] == Flags(lines[1..])
  {
    hide LineText, Disarm, PredicateLine;
  }

  // ----- what the lookup finds -----

  /** The lookup finds a predicate between the first `transform.named_sequence @name` and the next such text. */
  predicate Found(ts: seq<string>, name: string) {
    SeenIn("", ts, DECL, name, PredicateLine)
  }

  lemma {:induction false} OneLines(lines: seq<Line>)
    requires AllRewritable(lines)
    ensures NoLineFeeds(Texts(lines))
  {
    if lines != [] {
      hide LineText, Rewritable;
      OneLines(lines[1..]);
      OneLine(lines[0]);
    }
  }

  lemma NothingFlagged()
    ensures !PredicateLine("")
  {
    NothingIn(ADMITTED_OP);
    NothingIn(DIM_BOUNDS_OP);
  }

  lemma FoundStep(ts: seq<string>, name: string)
    ensures Found(ts, name) <==> ts != [] && SeenIn(ts[0], ts[1..], DECL, name, PredicateLine)
  {
    NothingIn(DECL);
    FoundSome("", DECL);
    hide Find, Contains, SeenIn, HoldsFrom;
    SeenStep("", ts, DECL, name, PredicateLine);
  }

  /** The lookup in any text of lines. */
  lemma LookupIs(ts: seq<string>, name: string)
    requires NoLineFeeds(ts)
    ensures Defeatable(Unlines(ts), name) <==> Found(ts, name)
  {
    OpNames();
    FoundStep(ts, name);
    NothingFlagged();
    hide SeenIn, BodyText, AnyLine, Lines, PredicateLine, Found;
    if ts == [] {
      NothingIn(DECL);
      BodyNone("", DECL, name);
    } else {
      BodyFound(ts[0], ts[1..], DECL, name, PredicateLine);
    }
  }

  predicate AllFound(ts: seq<string>, matchers: set<string>) {
    forall n :: n in matchers ==> Found(ts, n)
  }

  /** What `Neutralize` gives on lines that are all read, from the matchers and the lookups. */
  lemma NeutralizeLines(ts: seq<string>, us: seq<string>, flags: seq<bool>)
    requires NoLineFeeds(ts) && |ts| == |us| == |flags| && RewritesTo(RewriteLine, ts, us, flags)
    ensures var read := Matchers(Unlines(ts));
            Neutralize(Unlines(ts)) ==
            if read == {} then Err(NoMatchers)
            else if !AllFound(ts, read) then Err(Unconstrained(set m | m in read && !Found(ts, m)))
            else if Count(flags) == 0 then Err(NothingToRewrite)
            else Ok(Neutralized(Unlines(us), Count(flags), |read|))
  {
    hide Matchers, Defeatable, RewriteLines, RewritesTo, Unlines, Found, Count, NoLineFeeds;
    var text := Unlines(ts);
    var read := Matchers(text);
    RewriteUnlines(RewriteLine, ts, us, flags);
    forall n ensures Defeatable(text, n) <==> Found(ts, n) {
      LookupIs(ts, n);
    }
    var unconstrained := set m | m in read && !Defeatable(text, m);
    assert unconstrained == set n | n in read && !Found(ts, n);
    assert AllFound(ts, read) <==> unconstrained == {} by {
      if !AllFound(ts, read) {
        var n :| n in read && !Found(ts, n);
        assert n in unconstrained;
      }
    }
  }

  /**
   Neutralizing any readable lines: refused when no list names a matcher, when the lookup finds no
   predicate for one, and when no line is taken for a predicate; otherwise the text is that of the
   disarmed lines.
   */
  lemma NeutralizeExact(lines: seq<Line>)
    requires AllRewritable(lines)
    ensures var read, ts, n := Matchers(Print(lines)), Texts(lines), Count(Flags(lines));
            Neutralize(Print(lines)) ==
            if read == {} then Err(NoMatchers)
            else if !AllFound(ts, read) then Err(Unconstrained(set m | m in read && !Found(ts, m)))
            else if n == 0 then Err(NothingToRewrite)
            else Ok(Neutralized(Print(DisarmAll(lines)), n, |read|))
  {
    hide *;
    OneLines(lines);
    ModelRewrites(lines);
    NeutralizeLines(Texts(lines), Texts(DisarmAll(lines)), Flags(lines));
    PrintIs(lines);
    PrintIs(DisarmAll(lines));
  }

  lemma PrintIs(lines: seq<Line>)
    ensures Print(lines) == Unlines(Texts(lines))
  {
  }

  // ----- the bodies after the rewrite -----

  lemma KindStays(l: Line, name: string)
    ensures EndsBody(Disarm(l)) <==> EndsBody(l)
    ensures Declares(Disarm(l), name) <==> Declares(l, name)
    ensures IsPredicate(Disarm(l)) <==> IsPredicate(l)
  {
    hide Disarmable, NewText, LineText, DisarmAttrs;
  }

  lemma DisarmHead(lines: seq<Line>)
    requires lines != []
    ensures DisarmAll(lines) == [Disarm(lines[0])] + DisarmAll(lines[1..])
    ensures DisarmAll(lines)[0] == Disarm(lines[0]) && DisarmAll(lines)[1..] == DisarmAll(lines[1..])
  {
    hide Disarm;
  }

  lemma DisarmCons(l: Line, rest: seq<Line>)
    ensures DisarmAll([l] + rest) == [Disarm(l)] + DisarmAll(rest)
  {
    hide Disarm;
    assert ([l] + rest)[1..] == rest;
  }

  lemma {:induction false} UpToDisarmed(lines: seq<Line>)
    ensures UpToEnd(DisarmAll(lines)) == DisarmAll(UpToEnd(lines))
  {
    if lines != [] {
      hide Disarm, EndsBody;
      DisarmHead(lines);
      KindStays(lines[0], "");
      UpToDisarmed(lines[1..]);
      if !EndsBody(lines[0]) {
        DisarmCons(lines[0], UpToEnd(lines[1..]));
      }
    }
  }

  lemma {:induction false} BodyDisarmed(lines: seq<Line>, name: string)
    ensures Body(DisarmAll(lines), name) ==
            match Body(lines, name) case None => None case Some(b) => Some(DisarmAll(b))
  {
    if lines != [] {
      hide Disarm, Declares;
      DisarmHead(lines);
      KindStays(lines[0], name);
      if Declares(lines[0], name) {
        UpToDisarmed(lines[1..]);
      } else {
        BodyDisarmed(lines[1..], name);
      }
    }
  }

  lemma {:induction false} DisarmedMember(lines: seq<Line>, l: Line)
    ensures l in lines ==> Disarm(l) in DisarmAll(lines)
    ensures l in DisarmAll(lines) ==> exists k :: k in lines && l == Disarm(k)
  {
    if lines != [] {
      hide Disarm;
      DisarmHead(lines);
      DisarmedMember(lines[1..], l);
      assert lines[0] in lines;
      assert forall k :: k in lines[1..] ==> k in lines;
    }
  }

  // ----- no disarmed matcher fires -----

  lemma OthersAccept(l: Line, op: Op)
    ensures !IsPredicate(l) ==> Accepts(l, op)
  {
  }

  lemma DisarmRefuses(l: Line, op: Op)
    requires Disarmable(l) && forall v :: op.dim(v) != 999999
    ensures IsPredicate(l) && !Accepts(Disarm(l), op)
  {
    hide AdmissionReadable, BoundsTokens, Contains, LineText;
  }

  /**
   None of the lines refuses the operation after the rewrite: a predicate among them is one the
   rewrite does not disarm, and as it comes out it accepts.
   */
  predicate Spared(body: seq<Line>, op: Op) {
    forall l :: l in body && IsPredicate(l) ==> !Disarmable(l) && Accepts(Disarm(l), op)
  }

  lemma BodyAccepts(body: seq<Line>, op: Op)
    requires forall v :: op.dim(v) != 999999
    ensures (forall l :: l in DisarmAll(body) ==> Accepts(l, op)) <==> Spared(body, op)
  {
    hide DisarmAll, Disarm, Accepts, IsPredicate, Disarmable;
    forall l | l in body
      ensures Disarm(l) in DisarmAll(body)
      ensures Accepts(Disarm(l), op) <==> (IsPredicate(l) ==> !Disarmable(l) && Accepts(Disarm(l), op))
    {
      DisarmedMember(body, l);
      KindStays(l, "");
      OthersAccept(Disarm(l), op);
      if Disarmable(l) {
        DisarmRefuses(l, op);
      }
    }
    forall l | l in DisarmAll(body) ensures exists k :: k in body && l == Disarm(k) {
      DisarmedMember(body, l);
    }
  }

  /** After the rewrite a sequence accepts an operation exactly when none of its own lines refuses it. */
  lemma DisarmedAccepts(lines: seq<Line>, name: string, op: Op)
    requires forall v :: op.dim(v) != 999999
    ensures MatcherAccepts(DisarmAll(lines), name, op) <==>
            Body(lines, name).Some? && Spared(Body(lines, name).value, op)
  {
    BodyDisarmed(lines, name);
    if Body(lines, name).Some? {
      hide Body, DisarmAll, Accepts, Spared;
      BodyAccepts(Body(lines, name).value, op);
    }
  }

  // ----- when the lookup reads the sequence's own body -----

  /** A declaration in the spelling the lookup searches for, and only that. */
  predicate Spoken(l: Line) {
    && l.Declare? && l.gap == " " && !l.quoted && Symbol(l.name) && (l.rest == "" || !SymbolChar(l.rest[0]))
    && !Contains(l.indent, DECL) && !Contains(l.name + l.rest, DECL)
  }

  /**
   Every declaration is in that spelling and spelled nowhere else, predicates stand only inside
   sequences, and no comment behind a line and no string is taken for one.
   */
  predicate Aligned(lines: seq<Line>, inside: bool) {
    lines != [] ==>
      && (PredicateLine(LineText(lines[0])) ==> IsPredicate(lines[0]) && inside)
      && (if Core(lines[0]).Declare? then Spoken(lines[0]) else !Contains(LineText(lines[0]), DECL))
      && Aligned(lines[1..], if EndsBody(lines[0]) then lines[0].Declare? else inside)
  }

  lemma HasCons(l: Line, rest: seq<Line>)
    ensures HasPredicate([l] + rest) <==> IsPredicate(l) || HasPredicate(rest)
  {
    assert l in [l] + rest;
    assert forall x :: x in rest ==> x in [l] + rest;
  }

  lemma SpokenText(l: Line)
    requires Spoken(l)
    ensures LineText(l) == l.indent + DECL + (l.name + l.rest)
    ensures Find(LineText(l), DECL) == Some(|l.indent|)
    ensures LineText(l)[..|l.indent|] == l.indent && LineText(l)[|l.indent| + |DECL|..] == l.name + l.rest
    ensures Find(l.rest, DECL) == None
  {
    assert DECL == SEQUENCE + " " + "@";
    SpokenGroups(l.indent, SEQUENCE, l.name, l.rest);
    OpNames();
    PartsFree(l.name, l.rest, DECL);
    FindAfter(l.indent, DECL, l.name + l.rest);
    FoundSome(l.rest, DECL);
  }

  lemma SpokenGroups(a: string, b: string, c: string, d: string)
    ensures a + b + " " + "@" + c + d == a + (b + " " + "@") + (c + d)
  {
  }

  lemma SpokenQuiet(l: Line)
    requires Spoken(l) && Rewritable(l)
    ensures !PredicateLine(LineText(l)) && !PredicateLine(l.indent) && !PredicateLine(StripCr(l.rest))
  {
    SpokenText(l);
    CrBlind(l.rest);
    hide Find, Spoken, LineText, RewriteLine;
    PiecesFree(l.indent, DECL, l.name, l.rest, ADMITTED_OP);
    PiecesFree(l.indent, DECL, l.name, l.rest, DIM_BOUNDS_OP);
  }

  lemma PiecesFree(a: string, b: string, c: string, d: string, pat: string)
    ensures Contains(a, pat) || Contains(d, pat) ==> Contains(a + b + (c + d), pat)
  {
    PartsFree(a + b, c + d, pat);
    PartsFree(a, b, pat);
    PartsFree(c, d, pat);
  }

  lemma TextsHead(lines: seq<Line>)
    requires lines != []
    ensures Texts(lines) != [] && Texts(lines)[0] == LineText(lines[0]) && Texts(lines)[1..] == Texts(lines[1..])
  {
    hide LineText;
  }

  lemma HoldsNext(t: string, rest: seq<string>)
    requires Find(t, DECL) == None
    ensures HoldsFrom(t, rest, DECL, PredicateLine) <==>
            PredicateLine(StripCr(t)) || HoldsFrom("", rest, DECL, PredicateLine)
  {
    NothingIn(DECL);
    FoundSome("", DECL);
    NothingFlagged();
    hide Find, Contains, HoldsFrom, PredicateLine;
    HoldsStep(t, rest, DECL, PredicateLine);
    HoldsStep("", rest, DECL, PredicateLine);
  }

  lemma HoldsTexts(lines: seq<Line>)
    requires lines != []
    ensures HoldsFrom("", Texts(lines), DECL, PredicateLine) <==>
            HoldsFrom(LineText(lines[0]), Texts(lines[1..]), DECL, PredicateLine)
  {
    NothingIn(DECL);
    FoundSome("", DECL);
    NothingFlagged();
    TextsHead(lines);
    hide Find, Contains, HoldsFrom, PredicateLine, Texts, LineText;
    HoldsStep("", Texts(lines), DECL, PredicateLine);
  }

  lemma HoldsAtDeclare(l: Line, rest: seq<string>)
    requires Spoken(l) && Rewritable(l)
    ensures !HoldsFrom(LineText(l), rest, DECL, PredicateLine)
  {
    SpokenText(l);
    SpokenQuiet(l);
    hide Find, Contains, HoldsFrom, PredicateLine, LineText, Spoken, Rewritable;
    HoldsStep(LineText(l), rest, DECL, PredicateLine);
  }

  lemma AlignedStep(lines: seq<Line>, inside: bool)
    requires AllRewritable(lines) && Aligned(lines, inside) && lines != []
    ensures Rewritable(lines[0]) && AllRewritable(lines[1..])
    ensures if Core(lines[0]).Declare? then Spoken(lines[0]) && lines[0].Declare?
            else Find(LineText(lines[0]), DECL) == None
    ensures PredicateLine(LineText(lines[0])) <==> IsPredicate(lines[0])
    ensures IsPredicate(lines[0]) ==> inside
    ensures PredicateLine(StripCr(LineText(lines[0]))) <==> IsPredicate(lines[0])
    ensures Aligned(lines[1..], if EndsBody(lines[0]) then lines[0].Declare? else inside)
  {
    PredicateSeen(lines[0]);
    CrBlind(LineText(lines[0]));
    FoundSome(LineText(lines[0]), DECL);
    hide Rewritable, LineText, IsPredicate, PredicateLine, Contains, Find;
  }

  /** From the line after a declaration on, the lookup sees the predicates of the sequence's own body. */
  lemma {:induction false} OwnBody(lines: seq<Line>, inside: bool)
    requires AllRewritable(lines) && Aligned(lines, inside)
    ensures HoldsFrom("", Texts(lines), DECL, PredicateLine) <==> inside && HasPredicate(UpToEnd(lines))
  {
    if lines == [] {
      hide *;
      NothingHeld();
    } else {
      var l := lines[0];
      AlignedStep(lines, inside);
      UpToCases(lines);
      hide *;
      HoldsTexts(lines);
      KindsApart(l);
      if Core(l).Declare? {
        HoldsAtDeclare(l, Texts(lines[1..]));
      } else {
        HoldsNext(LineText(l), Texts(lines[1..]));
        if EndsBody(l) {
          OwnBody(lines[1..], false);
        } else {
          OwnBody(lines[1..], inside);
        }
      }
    }
  }

  lemma NothingHeld()
    ensures !HasPredicate([]) && UpToEnd([]) == [] && !HoldsFrom("", Texts([]), DECL, PredicateLine)
  {
    NothingIn(DECL);
    FoundSome("", DECL);
    NothingFlagged();
    hide Find, Contains, HoldsFrom, PredicateLine;
    HoldsStep("", [], DECL, PredicateLine);
  }

  lemma KindsApart(l: Line)
    ensures Core(l).Declare? ==> EndsBody(l)
    ensures EndsBody(l) && !Core(l).Declare? ==> !IsPredicate(l) && !l.Declare?
  {
  }

  lemma UpToCases(lines: seq<Line>)
    requires lines != []
    ensures HasPredicate(UpToEnd(lines)) <==>
            !EndsBody(lines[0]) && (IsPredicate(lines[0]) || HasPredicate(UpToEnd(lines[1..])))
  {
    hide EndsBody, IsPredicate, HasPredicate;
    if EndsBody(lines[0]) {
      assert UpToEnd(lines) == [];
      NothingHeld();
    } else {
      HasCons(lines[0], UpToEnd(lines[1..]));
    }
  }

  lemma FoundTexts(lines: seq<Line>, name: string)
    requires lines != []
    ensures Found(Texts(lines), name) <==> SeenIn(LineText(lines[0]), Texts(lines[1..]), DECL, name, PredicateLine)
  {
    TextsHead(lines);
    hide Found, SeenIn, LineText, Texts;
    FoundStep(Texts(lines), name);
  }

  lemma SeenNext(t: string, rest: seq<string>, name: string)
    requires Find(t, DECL) == None
    ensures SeenIn(t, rest, DECL, name, PredicateLine) <==> Found(rest, name)
  {
    hide Find, SeenIn, HoldsFrom, Found;
    SeenStep(t, rest, DECL, name, PredicateLine);
    FoundStep(rest, name);
  }

  lemma SeenAtDeclare(l: Line, rest: seq<string>, name: string)
    requires Spoken(l) && Rewritable(l)
    ensures SeenIn(LineText(l), rest, DECL, name, PredicateLine) <==>
            if l.name == name then HoldsFrom("", rest, DECL, PredicateLine) else Found(rest, name)
  {
    SpokenText(l);
    SpokenQuiet(l);
    SpokenSymbol(l);
    hide Find, Contains, HoldsFrom, SeenIn, PredicateLine, LineText, Spoken, Rewritable, Found, SymbolPrefix;
    SeenStep(LineText(l), rest, DECL, name, PredicateLine);
    if l.name == name {
      HoldsNext(l.rest, rest);
    } else {
      SpokenFree(l);
      SeenNext(l.name + l.rest, rest, name);
    }
  }

  lemma SpokenSymbol(l: Line)
    requires Spoken(l)
    ensures SymbolPrefix(l.name + l.rest) == l.name && (l.name + l.rest)[|l.name|..] == l.rest
  {
    SymbolPrefixIs(l.name, l.rest);
  }

  lemma SpokenFree(l: Line)
    requires Spoken(l)
    ensures Find(l.name + l.rest, DECL) == None
  {
    FoundSome(l.name + l.rest, DECL);
  }

  /** On aligned lines the lookup finds a predicate exactly when the sequence holds one of its own. */
  lemma {:induction false} AlignedFound(lines: seq<Line>, inside: bool, name: string)
    requires AllRewritable(lines) && Aligned(lines, inside)
    ensures Found(Texts(lines), name) <==> Predicated(lines, name)
  {
    if lines == [] {
      hide *;
      NotDeclared(name);
    } else {
      var l := lines[0];
      AlignedStep(lines, inside);
      BodyCases(lines, name);
      DeclaresOnly(l, name);
      hide *;
      FoundTexts(lines, name);
      KindsApart(l);
      if Core(l).Declare? {
        SeenAtDeclare(l, Texts(lines[1..]), name);
        OwnBody(lines[1..], true);
        AlignedFound(lines[1..], true, name);
      } else {
        SeenNext(LineText(l), Texts(lines[1..]), name);
        AlignedFound(lines[1..], if EndsBody(l) then false else inside, name);
      }
    }
  }

  lemma NotDeclared(name: string)
    ensures !Found(Texts([]), name) && !Predicated([], name)
  {
    FoundStep([], name);
  }

  lemma DeclaresOnly(l: Line, name: string)
    ensures Declares(l, name) ==> Core(l).Declare?
    ensures l.Declare? ==> (Declares(l, name) <==> l.name == name)
  {
  }

  lemma BodyCases(lines: seq<Line>, name: string)
    requires lines != []
    ensures Predicated(lines, name) <==>
            if Declares(lines[0], name) then HasPredicate(UpToEnd(lines[1..])) else Predicated(lines[1..], name)
  {
    hide Declares, HasPredicate, UpToEnd;
  }

  // ----- texts that are looked up alike -----

  /** The same line, or two lines without a declaration that are both taken for predicates or both not. */
  predicate AlikeLine(t: string, u: string) {
    t == u || (Find(t, DECL) == None && Find(u, DECL) == None && (PredicateLine(t) <==> PredicateLine(u)))
  }

  predicate Alike(ts: seq<string>, us: seq<string>) {
    |ts| == |us| && (ts != [] ==> AlikeLine(ts[0], us[0]) && Alike(ts[1..], us[1..]))
  }

  lemma AlikeStep(ts: seq<string>, us: seq<string>)
    requires Alike(ts, us) && ts != []
    ensures us != [] && Alike(ts[1..], us[1..])
    ensures ts[0] == us[0] ||
            (Find(ts[0], DECL) == None && Find(us[0], DECL) == None &&
             (PredicateLine(StripCr(ts[0])) <==> PredicateLine(StripCr(us[0]))))
  {
    CrBlind(ts[0]);
    CrBlind(us[0]);
    hide Find, PredicateLine;
  }

  lemma {:induction false} HoldsAlike(t: string, ts: seq<string>, us: seq<string>)
    requires Alike(ts, us)
    ensures HoldsFrom(t, ts, DECL, PredicateLine) <==> HoldsFrom(t, us, DECL, PredicateLine)
    decreases |ts|
  {
    AlikeEmpty(ts, us);
    hide *;
    HoldsStep(t, ts, DECL, PredicateLine);
    HoldsStep(t, us, DECL, PredicateLine);
    if ts != [] {
      AlikeStep(ts, us);
      HoldsAlike(ts[0], ts[1..], us[1..]);
      if ts[0] != us[0] {
        HoldsAlike("", ts[1..], us[1..]);
        HoldsNext(ts[0], ts[1..]);
        HoldsNext(us[0], us[1..]);
      }
    }
  }

  lemma AlikeEmpty(ts: seq<string>, us: seq<string>)
    requires Alike(ts, us)
    ensures |ts| == |us|
  {
  }

  lemma {:induction false} SeenAlike(t: string, ts: seq<string>, us: seq<string>, name: string)
    requires Alike(ts, us)
    ensures SeenIn(t, ts, DECL, name, PredicateLine) <==> SeenIn(t, us, DECL, name, PredicateLine)
    decreases |ts|, 1, |t|
  {
    hide *;
    DeclNonempty();
    SeenStep(t, ts, DECL, name, PredicateLine);
    SeenStep(t, us, DECL, name, PredicateLine);
    match Find(t, DECL)
    case Some(i) =>
      var after := t[i + |DECL|..];
      if SymbolPrefix(after) == name {
        HoldsAlike(after[|name|..], ts, us);
      } else {
        SeenAlike(after, ts, us, name);
      }
    case None =>
      FoundAlike(ts, us, name);
      SeenNext(t, ts, name);
      SeenNext(t, us, name);
  }

  lemma DeclNonempty()
    ensures DECL != "" && |DECL| > 0
  {
  }

  /** Texts whose lines are alike are looked up alike. */
  lemma {:induction false} FoundAlike(ts: seq<string>, us: seq<string>, name: string)
    requires Alike(ts, us)
    ensures Found(ts, name) <==> Found(us, name)
    decreases |ts|, 0, 0
  {
    AlikeEmpty(ts, us);
    hide *;
    FoundStep(ts, name);
    FoundStep(us, name);
    if ts != [] {
      AlikeStep(ts, us);
      if ts[0] == us[0] {
        SeenAlike(ts[0], ts[1..], us[1..], name);
      } else {
        FoundAlike(ts[1..], us[1..], name);
        SeenNext(ts[0], ts[1..], name);
        SeenNext(us[0], us[1..], name);
      }
    }
  }

  /** The refusals agree on the lookups. */
  lemma AllAlike(ts: seq<string>, us: seq<string>)
    requires Alike(ts, us)
    ensures forall read :: AllFound(us, read) <==> AllFound(ts, read)
  {
    hide Found, Alike;
    forall n ensures Found(us, n) <==> Found(ts, n) {
      FoundAlike(ts, us, n);
    }
  }

  // ----- the theorem -----

  /**
   After a successful neutralization of any readable lines, a sequence accepts an operation without
   a dimension of 999999 if and only if none of the predicates up to its end, wherever the lookup
   put that end, is disarmed and the others accept as they came out.  On aligned lines every
   matcher read holds a predicate of its own, so it declines if one of its predicates is disarmable.
   */
  lemma NeutralizeSafe(lines: seq<Line>, name: string, op: Op)
    requires AllRewritable(lines) && Neutralize(Print(lines)).Ok? && forall v :: op.dim(v) != 999999
    ensures Neutralize(Print(lines)).value.text == Print(DisarmAll(lines))
    ensures MatcherAccepts(DisarmAll(lines), name, op) <==>
            Body(lines, name).Some? && Spared(Body(lines, name).value, op)
    ensures name in Matchers(Print(lines)) ==> Found(Texts(lines), name)
    ensures name in Matchers(Print(lines)) && Aligned(lines, false) ==> Predicated(lines, name)
    ensures name in Matchers(Print(lines)) && Aligned(lines, false) && AllDisarmable(lines) ==>
              !MatcherAccepts(DisarmAll(lines), name, op)
  {
    hide *;
    NeutralizeExact(lines);
    DisarmedAccepts(lines, name, op);
    if name in Matchers(Print(lines)) {
      FoundOf(Texts(lines), Matchers(Print(lines)), name);
      if Aligned(lines, false) {
        AlignedFound(lines, false, name);
        if AllDisarmable(lines) {
          AllDisarmed(lines, name, op);
        }
      }
    }
  }

  lemma FoundOf(ts: seq<string>, matchers: set<string>, name: string)
    requires AllFound(ts, matchers) && name in matchers
    ensures Found(ts, name)
  {
  }

  /** No line names the attribute without carrying it, and no key stands in a name. */
  predicate AllDisarmable(lines: seq<Line>) {
    forall l :: l in lines && IsPredicate(l) ==> Disarmable(l)
  }

  lemma {:induction false} BodyMembers(lines: seq<Line>, name: string, l: Line)
    ensures l in UpToEnd(lines) ==> l in lines
    ensures Body(lines, name).Some? && l in Body(lines, name).value ==> l in lines
  {
    if lines != [] {
      hide EndsBody, Declares;
      BodyMembers(lines[1..], name, l);
      assert forall k :: k in lines[1..] ==> k in lines;
      assert lines[0] in lines;
    }
  }

  lemma AllDisarmed(lines: seq<Line>, name: string, op: Op)
    requires AllDisarmable(lines)
    ensures Body(lines, name).Some? ==>
              (Spared(Body(lines, name).value, op) <==> !HasPredicate(Body(lines, name).value))
    ensures Predicated(lines, name) ==> !Spared(Body(lines, name).value, op)
  {
    if Body(lines, name).Some? {
      var body := Body(lines, name).value;
      hide Body, IsPredicate, Disarmable, Accepts, Disarm;
      forall l | l in body && IsPredicate(l) ensures Disarmable(l) {
        BodyMembers(lines, name, l);
      }
    }
  }
}
