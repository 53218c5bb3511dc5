/**
 Two passes of the rewriter over any text, line by line: the line loop, and the lookup of a
 sequence body.
 */
module SpecViews {
  import opened Text
  import opened SpecRewrite

  // ----- the line loop -----

  function Count(flags: seq<bool>): nat {
    if flags == [] then 0 else (if flags[0] then 1 else 0) + Count(flags[1..])
  }

  lemma RewriteCons(rewrite: string -> LineRewrite, line: string, rest: seq<string>)
    ensures RewriteLines(rewrite, [line] + rest) == Extend(rewrite(line), line, RewriteLines(rewrite, rest))
  {
    assert ([line] + rest)[1..] == rest;
  }

  /** Each line of `ts` is rewritten to the line of `us`, or kept when it is not flagged. */
  predicate RewritesTo(rewrite: string -> LineRewrite, ts: seq<string>, us: seq<string>, flags: seq<bool>)
    requires |ts| == |us| == |flags|
  {
    ts != [] ==>
      && '\n' !in ts[0]
      && rewrite(ts[0] + "\n") == (if flags[0] then Defeated(us[0] + "\n") else Kept)
      && (!flags[0] ==> us[0] == ts[0])
      && RewritesTo(rewrite, ts[1..], us[1..], flags[1..])
  }

  /** Lines rewritten one by one give the rewritten lines. */
  lemma {:induction false} RewriteUnlines(rewrite: string -> LineRewrite, ts: seq<string>, us: seq<string>,
                                           flags: seq<bool>)
    requires |ts| == |us| == |flags| && RewritesTo(rewrite, ts, us, flags)
    ensures RewriteLines(rewrite, LinesInclusive(Unlines(ts))) == Ok(Rewritten(Unlines(us), Count(flags)))
  {
    if ts != [] {
      hide Find, FindFrom, Lines;
      RewriteUnlines(rewrite, ts[1..], us[1..], flags[1..]);
      FirstLine(ts[0], Unlines(ts[1..]));
      RewriteCons(rewrite, ts[0] + "\n", LinesInclusive(Unlines(ts[1..])));
    }
  }

  // ----- the lookup of a sequence -----

  /** Whether a body that starts in line `t` and goes on over `rest` holds a line of `pred`. */
  predicate HoldsFrom(t: string, rest: seq<string>, decl: string, pred: string -> bool)
    decreases |rest|
  {
    match Find(t, decl)
    case Some(i) => pred(t[..i])
    case None => pred(StripCr(t)) || (rest != [] && HoldsFrom(rest[0], rest[1..], decl, pred))
  }

  /** The lookup of a sequence from line `t` on, declaration by declaration, however many a line has. */
  predicate SeenIn(t: string, rest: seq<string>, decl: string, name: string, pred: string -> bool)
    requires decl != ""
    decreases |rest|, |t|
  {
    match Find(t, decl)
    case Some(i) =>
      var after := t[i + |decl|..];
      if SymbolPrefix(after) == name then HoldsFrom(after[|name|..], rest, decl, pred)
      else SeenIn(after, rest, decl, name, pred)
    case None => rest != [] && SeenIn(rest[0], rest[1..], decl, name, pred)
  }

  /** The body found holds a line of `pred`. */
  predicate Holds(body: Option<string>, pred: string -> bool) {
    body.Some? && AnyLine(pred, Lines(body.value))
  }

  lemma FirstOfLines(pred: string -> bool, line: string, rest: string)
    requires '\n' !in line
    ensures AnyLine(pred, Lines(line + "\n" + rest)) <==> pred(StripCr(line)) || AnyLine(pred, Lines(rest))
  {
    FirstLine(line, rest);
    assert ([StripCr(line)] + Lines(rest))[1..] == Lines(rest);
  }

  lemma BeforeSkips(line: string, rest: string, mark: string)
    requires '\n' !in mark && mark != "" && !Contains(line, mark)
    ensures Before(line + "\n" + rest, mark) == line + "\n" + Before(rest, mark)
  {
    FindSplit(line, '\n', rest, mark);
    var f := Find(rest, mark);
    if f.Some? {
      assert (line + "\n" + rest)[..|line| + 1 + f.value] == line + "\n" + rest[..f.value];
    }
  }

  /** The lookup goes on from the text after the first declaration, whatever stands before it. */
  lemma SameBody(s: string, i: nat, t: string, j: nat, decl: string, name: string, tail: string)
    requires decl != "" && Find(s, decl) == Some(i) && Find(t, decl) == Some(j)
    requires i + |decl| <= |s| && s[i + |decl|..] == tail && j + |decl| <= |t| && t[j + |decl|..] == tail
    ensures BodyText(s, decl, name) == BodyText(t, decl, name)
  {
    hide Find, FindFrom, Before, SymbolPrefix;
  }

  lemma BodyNone(spec: string, decl: string, name: string)
    requires decl != "" && Find(spec, decl) == None
    ensures BodyText(spec, decl, name) == None
  {
  }

  lemma BodySkips(t: string, rest: string, decl: string, name: string)
    requires decl != "" && '\n' !in decl && !Contains(t, decl)
    ensures BodyText(t + "\n" + rest, decl, name) == BodyText(rest, decl, name)
  {
    FindSplit(t, '\n', rest, decl);
    var f := Find(rest, decl);
    assert Contains(rest, decl) <==> f.Some?;
    hide *;
    if f.Some? {
      DropLine(t, rest, f.value + |decl|);
      SameBody(t + "\n" + rest, |t| + 1 + f.value, rest, f.value, decl, name, rest[f.value + |decl|..]);
    } else {
      BodyNone(rest, decl, name);
      BodyNone(t + "\n" + rest, decl, name);
    }
  }

  lemma DropLine(t: string, rest: string, k: nat)
    requires k <= |rest|
    ensures (t + "\n" + rest)[|t| + 1 + k..] == rest[k..]
  {
  }

  lemma BeforeCut(line: string, rest: string, mark: string, i: nat)
    requires '\n' !in mark && mark != "" && Find(line, mark) == Some(i)
    ensures Before(line + "\n" + rest, mark) == line[..i]
  {
    FindSplit(line, '\n', rest, mark);
    assert (line + "\n" + rest)[..i] == line[..i];
  }

  lemma HoldsStep(t: string, rest: seq<string>, decl: string, pred: string -> bool)
    ensures HoldsFrom(t, rest, decl, pred) <==>
            match Find(t, decl)
            case Some(i) => pred(t[..i])
            case None => pred(StripCr(t)) || (rest != [] && HoldsFrom(rest[0], rest[1..], decl, pred))
  {
  }

  lemma CutHolds(line: string, pred: string -> bool)
    requires '\n' !in line && !pred("")
    ensures AnyLine(pred, Lines(line)) <==> pred(line)
  {
    LinesLast(line);
    assert [line][1..] == [];
  }

  lemma {:induction false} BodyHolds(t: string, rest: seq<string>, decl: string, pred: string -> bool)
    requires '\n' !in t && NoLineFeeds(rest) && decl != "" && '\n' !in decl && !pred("")
    ensures AnyLine(pred, Lines(Before(t + "\n" + Unlines(rest), decl))) <==> HoldsFrom(t, rest, decl, pred)
    decreases |rest|
  {
    var f := Find(t, decl);
    FoundSome(t, decl);
    if rest != [] {
      BodyHolds(rest[0], rest[1..], decl, pred);
    }
    NothingBefore(decl);
    hide Find, Contains, Before, HoldsFrom, AnyLine, Lines;
    HoldsStep(t, rest, decl, pred);
    match f
    case Some(i) =>
      BeforeCut(t, Unlines(rest), decl, i);
      CutHolds(t[..i], pred);
    case None =>
      BeforeSkips(t, Unlines(rest), decl);
      FirstOfLines(pred, t, Before(Unlines(rest), decl));
      NoLines(pred);
  }

  lemma NothingBefore(mark: string)
    requires mark != ""
    ensures Before("", mark) == ""
  {
    NothingIn(mark);
  }

  lemma NoLines(pred: string -> bool)
    ensures !AnyLine(pred, Lines(""))
  {
  }

  lemma {:induction false} SymbolStops(a: string, b: string)
    ensures SymbolPrefix(a + "\n" + b) == SymbolPrefix(a)
  {
    if a == "" {
      assert (a + "\n" + b)[0] == '\n';
    } else {
      assert (a + "\n" + b)[1..] == a[1..] + "\n" + b;
      SymbolStops(a[1..], b);
    }
  }

  lemma DeclStep(s: string, decl: string, name: string, i: nat)
    requires decl != "" && Find(s, decl) == Some(i) && i + |decl| <= |s|
    ensures var after := s[i + |decl|..];
            BodyText(s, decl, name) ==
            if SymbolPrefix(after) == name then Some(Before(after[|name|..], decl)) else BodyText(after, decl, name)
  {
    hide Find, Before;
  }

  lemma SeenStep(t: string, rest: seq<string>, decl: string, name: string, pred: string -> bool)
    requires decl != ""
    ensures SeenIn(t, rest, decl, name, pred) <==>
            match Find(t, decl)
            case Some(i) =>
              var after := t[i + |decl|..];
              if SymbolPrefix(after) == name then HoldsFrom(after[|name|..], rest, decl, pred)
              else SeenIn(after, rest, decl, name, pred)
            case None => rest != [] && SeenIn(rest[0], rest[1..], decl, name, pred)
  {
    hide Find, HoldsFrom;
  }

  lemma CutLine(t: string, rest: string, k: nat)
    requires k <= |t|
    ensures (t + "\n" + rest)[k..] == t[k..] + "\n" + rest
  {
  }

  /** The first declaration of the line. */
  lemma FoundAt(t: string, rest: seq<string>, decl: string, name: string, pred: string -> bool, i: nat)
    requires '\n' !in t && NoLineFeeds(rest) && decl != "" && '\n' !in decl && !pred("")
    requires Find(t, decl) == Some(i) && i + |decl| <= |t|
    requires var after := t[i + |decl|..];
             SymbolPrefix(after) == name ||
             (Holds(BodyText(after + "\n" + Unlines(rest), decl, name), pred) <==>
              SeenIn(after, rest, decl, name, pred))
    ensures Holds(BodyText(t + "\n" + Unlines(rest), decl, name), pred) <==> SeenIn(t, rest, decl, name, pred)
  {
    FoundSome(t, decl);
    hide *;
    var s, after := t + "\n" + Unlines(rest), t[i + |decl|..];
    BreakSplit(t, Unlines(rest), decl);
    CutLine(t, Unlines(rest), i + |decl|);
    SymbolStops(after, Unlines(rest));
    SeenStep(t, rest, decl, name, pred);
    DeclStep(s, decl, name, i);
    if SymbolPrefix(after) == name {
      CutLine(after, Unlines(rest), |name|);
      BodyHolds(after[|name|..], rest, decl, pred);
      HeldIs(Before(after[|name|..] + "\n" + Unlines(rest), decl), pred);
    }
  }

  lemma BreakSplit(t: string, rest: string, pat: string)
    requires '\n' !in pat && pat != "" && Contains(t, pat)
    ensures Find(t + "\n" + rest, pat) == Find(t, pat)
  {
    FindSplit(t, '\n', rest, pat);
  }

  lemma HeldIs(body: string, pred: string -> bool)
    ensures Holds(Some(body), pred) <==> AnyLine(pred, Lines(body))
  {
  }

  /** A line without a declaration. */
  lemma FoundLater(t: string, rest: seq<string>, decl: string, name: string, pred: string -> bool)
    requires decl != "" && '\n' !in decl && Find(t, decl) == None
    requires rest != [] ==>
               (Holds(BodyText(rest[0] + "\n" + Unlines(rest[1..]), decl, name), pred) <==>
                SeenIn(rest[0], rest[1..], decl, name, pred))
    ensures Holds(BodyText(t + "\n" + Unlines(rest), decl, name), pred) <==> SeenIn(t, rest, decl, name, pred)
  {
    FoundSome(t, decl);
    UnlinesIs(rest);
    NothingHeldIn(decl, name, pred);
    hide *;
    SeenStep(t, rest, decl, name, pred);
    BodySkips(t, Unlines(rest), decl, name);
  }

  lemma UnlinesIs(rest: seq<string>)
    ensures Unlines(rest) == if rest == [] then "" else rest[0] + "\n" + Unlines(rest[1..])
  {
  }

  lemma NothingHeldIn(decl: string, name: string, pred: string -> bool)
    requires decl != ""
    ensures !Holds(BodyText("", decl, name), pred)
  {
    NothingIn(decl);
    BodyNone("", decl, name);
  }

  /** Looking a sequence up in the text of any lines is the lookup line by line. */
  lemma {:induction false} BodyFound(t: string, rest: seq<string>, decl: string, name: string, pred: string -> bool)
    requires '\n' !in t && NoLineFeeds(rest) && decl != "" && '\n' !in decl && !pred("")
    ensures Holds(BodyText(t + "\n" + Unlines(rest), decl, name), pred) <==> SeenIn(t, rest, decl, name, pred)
    decreases |rest|, |t|
  {
    NoFeedsIn(rest);
    hide *;
    match Find(t, decl)
    case Some(i) =>
      var after := t[i + |decl|..];
      if SymbolPrefix(after) != name {
        BodyFound(after, rest, decl, name, pred);
      }
      FoundAt(t, rest, decl, name, pred, i);
    case None =>
      if rest != [] {
        BodyFound(rest[0], rest[1..], decl, name, pred);
      }
      FoundLater(t, rest, decl, name, pred);
  }

  lemma NoFeedsIn(rest: seq<string>)
    requires NoLineFeeds(rest)
    ensures rest != [] ==> '\n' !in rest[0] && NoLineFeeds(rest[1..])
  {
  }
}
