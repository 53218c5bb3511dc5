/**
 Specs at hand: one that neutralizes as promised, and families of specs that are neutralized without
 a complaint and still hold a listed matcher that fires.
 */
module SpecLive {
  import opened Text
  import opened SpecRewrite
  import opened SpecLines
  import opened SpecViews
  import opened SpecEnds
  import opened SpecModel
  import opened SpecSafety
  import opened SpecLists

  // ----- letters of the names that are searched for -----

  lemma HoldUnderscore()
    ensures '_' in LOOP && '_' in DECL && '_' in DIM_BOUNDS_OP && '_' in NO_OFFLOAD_ATTR
  {
    assert LOOP[17] == '_' && DECL[15] == '_' && DIM_BOUNDS_OP[24] == '_' && NO_OFFLOAD_ATTR[2] == '_';
  }

  lemma HoldLetters()
    ensures 'h' in LOOP && 'h' in ADMITTED_OP && 'h' in DIM_BOUNDS_OP && '@' in DECL
    ensures 'd' in ADMITTED_OP && 'd' in DIM_BOUNDS_OP && 't' in LOOP && 't' in ADMITTED_OP && 'm' in DECL
  {
    assert LOOP[16] == 'h' && ADMITTED_OP[21] == 'h' && DIM_BOUNDS_OP[19] == 'h' && DECL[25] == '@';
    assert ADMITTED_OP[24] == 'd' && DIM_BOUNDS_OP[21] == 'd' && LOOP[0] == 't' && ADMITTED_OP[0] == 't';
    assert DECL[8] == 'm';
  }

  lemma DeclLacks()
    ensures 'h' !in DECL && '\n' !in DECL && 'h' !in SEQUENCE && '\n' !in SEQUENCE
  {
  }

  lemma AdmittedLacks()
    ensures '_' !in ADMITTED_OP && '\n' !in ADMITTED_OP && '/' !in ADMITTED_OP
  {
  }

  lemma LoopLacks()
    ensures '@' !in LOOP && 'd' !in LOOP && '\n' !in LOOP
  {
  }

  /** A line of its own that holds no name the rewriter searches for. */
  predicate Still(l: Line) {
    Rewritable(l) && Find(LineText(l), DECL) == None && !Contains(LineText(l), LOOP) && !IsPredicate(l)
  }

  lemma QuietText(text: string)
    requires '_' !in text && 't' !in text
    ensures !Contains(text, LOOP) && Find(text, DECL) == None && NoOps(text)
  {
    HoldUnderscore();
    HoldLetters();
    CharFree(text, LOOP, '_');
    CharFree(text, DECL, '_');
    CharFree(text, ADMITTED_OP, 't');
    CharFree(text, DIM_BOUNDS_OP, '_');
    FoundSome(text, DECL);
  }

  lemma OpsRead(text: string)
    requires NoOps(text)
    ensures RewriteLine(text) == Kept && !PredicateLine(text)
  {
    hide Contains;
    KeptExactly(text);
  }

  lemma StillOther(text: string)
    requires '_' !in text && 't' !in text && '\n' !in text
    ensures Still(Other(text)) && Still(Close(text)) && LineText(Other(text)) == LineText(Close(text)) == text
  {
    QuietText(text);
    OpsRead(text);
    hide Contains, Find, NoOps, RewriteLine;
  }

  // ----- declarations, an admission, the head and the end of a list -----

  /** `transform.named_sequence @name`. */
  function Sequence(name: string): Line {
    Declare("", " ", name, false, "")
  }

  /** `transform.named_sequence private @c`. */
  const HIDDEN := Declare("", " private ", "c", false, "")

  const ADMISSION := Admission("", "%0", None, "!t")
  const HEAD := Other(LOOP + " in %m")
  const END := Other(LIST_END + "!m)")

  lemma SequenceSpoken(name: string)
    requires Symbol(name) && 'h' !in name && '@' !in name
    ensures Spoken(Sequence(name)) && Rewritable(Sequence(name)) && !Contains(LineText(Sequence(name)), LOOP)
  {
    var text := LineText(Sequence(name));
    SequenceIs(name);
    DeclLacks();
    HoldLetters();
    NothingIn(DECL);
    CharFree(name + "", DECL, '@');
    CharFree(text, LOOP, 'h');
    CharFree(text, ADMITTED_OP, 'h');
    CharFree(text, DIM_BOUNDS_OP, 'h');
    OpsRead(text);
    hide Contains, RewriteLine, LineText;
  }

  lemma SequenceIs(name: string)
    requires '\n' !in name && 'h' !in name
    ensures LineText(Sequence(name)) == SEQUENCE + " @" + name
    ensures '\n' !in LineText(Sequence(name)) && 'h' !in LineText(Sequence(name))
  {
    DeclLacks();
    SequenceGroups(SEQUENCE, name);
  }

  lemma SequenceGroups(a: string, name: string)
    ensures "" + a + " " + "@" + name + "" == a + " @" + name
  {
  }

  lemma HiddenStill()
    ensures Still(HIDDEN) && EndsBody(HIDDEN) && Core(HIDDEN).Declare? && !Declares(HIDDEN, "a")
  {
    HiddenText();
    hide Contains, RewriteLine, Find, NoOps;
    OpsRead(SEQUENCE + " private @c");
  }

  lemma HiddenText()
    ensures var text := SEQUENCE + " private @c";
            && LineText(HIDDEN) == text && '\n' !in text
            && !Contains(text, LOOP) && NoOps(text) && Find(text, DECL) == None
  {
    var text := SEQUENCE + " private @c";
    HiddenGroups(SEQUENCE);
    HiddenLacks();
    HoldLetters();
    hide Contains, Find;
    HiddenFree();
    CharFree(text, LOOP, 'h');
    CharFree(text, ADMITTED_OP, 'h');
    CharFree(text, DIM_BOUNDS_OP, 'h');
  }

  lemma HiddenLacks()
    ensures var text := SEQUENCE + " private @c"; 'h' !in text && '\n' !in text
  {
    DeclLacks();
    assert 'h' !in " private @c" && '\n' !in " private @c";
  }

  lemma HiddenGroups(a: string)
    ensures "" + a + " private " + "@" + "c" + "" == a + " private @c"
  {
  }

  /** The lookup wants the `@` right after the op name. */
  lemma HiddenFree()
    ensures Find(SEQUENCE + " private @c", DECL) == None
  {
    var text := SEQUENCE + " private @c";
    FindSpec(text, DECL);
    forall i: nat ensures !OccursAt(text, i, DECL) {
      if OccursAt(text, i, DECL) {
        LetterAt(text, i, DECL, |SEQUENCE| + 1);
        HiddenAt(i);
      }
    }
  }

  lemma HiddenAt(i: nat)
    requires i + |DECL| <= |SEQUENCE + " private @c"|
    ensures (SEQUENCE + " private @c")[i + |SEQUENCE| + 1] == DECL[|SEQUENCE| + 1] ==> i == 8
    ensures !OccursAt(SEQUENCE + " private @c", 8, DECL)
  {
    var text := SEQUENCE + " private @c";
    assert |SEQUENCE| == 24 && |DECL| == 26 && DECL[25] == '@';
    assert text[i + 25] == " private @c"[i + 1];
    assert text[8] == SEQUENCE[8] == 'm' && DECL[0] == 't';
    LetterAt(text, 8, DECL, 0);
  }

  lemma AdmissionIs()
    ensures LineText(ADMISSION) == ADMITTED_OP + " %0 : !t"
  {
    AdmissionSpelled(ADMITTED_OP);
  }

  lemma AdmissionSpelled(op: string)
    ensures "" + op + " " + "%0" + "" + " : " + "!t" == op + " %0 : !t"
  {
  }

  lemma AdmissionRead()
    ensures Rewritable(ADMISSION) && Disarmable(ADMISSION) && IsPredicate(ADMISSION)
    ensures PredicateLine(LineText(ADMISSION))
    ensures Find(LineText(ADMISSION), DECL) == None && !Contains(LineText(ADMISSION), LOOP)
  {
    var text := ADMITTED_OP + " %0 : !t";
    AdmissionIs();
    AdmissionLacks(text);
    AdmissionWhole(text);
    hide *;
    HoldUnderscore();
    CharFree(text, LOOP, '_');
    CharFree(text, DECL, '_');
    CharFree(text, NO_OFFLOAD_ATTR, '_');
    FoundSome(text, DECL);
    AdmissionWorks(text);
  }

  lemma AdmissionLacks(text: string)
    requires text == ADMITTED_OP + " %0 : !t"
    ensures '_' !in text && '\n' !in text
  {
    AdmittedLacks();
    assert '_' !in " %0 : !t" && '\n' !in " %0 : !t";
  }

  /** What the parts of the text say of the line. */
  lemma AdmissionWhole(text: string)
    requires LineText(ADMISSION) == text && '\n' !in text
    ensures IsPredicate(ADMISSION)
    ensures AdmissionReadable("", "%0", None, "!t") ==> Disarmable(ADMISSION)
    ensures AdmissionTokens("", "%0", None) && !RewriteLine(text).Unreadable? ==> Rewritable(ADMISSION)
  {
    hide LineText, RewriteLine, AdmissionTokens, AdmissionReadable;
  }

  lemma AdmissionWorks(text: string)
    requires text == ADMITTED_OP + " %0 : !t" && !Contains(text, NO_OFFLOAD_ATTR)
    ensures AdmissionTokens("", "%0", None) && AdmissionReadable("", "%0", None, "!t")
    ensures PredicateLine(text) && !RewriteLine(text).Unreadable?
  {
    PlainTokens();
    PlainReadable(text);
    PlainIs(text);
    hide *;
    AdmissionFlagged("", "%0", None, "!t");
    AdmissionExact("", "%0", None, "!t");
    Defeats(text);
  }

  lemma PlainTokens()
    ensures AdmissionTokens("", "%0", None)
  {
  }

  lemma PlainIs(text: string)
    requires text == ADMITTED_OP + " %0 : !t"
    ensures AdmissionText("", "%0", None, "!t") == text
  {
    AdmissionSpelled(ADMITTED_OP);
  }

  lemma PlainReadable(text: string)
    requires text == ADMITTED_OP + " %0 : !t" && !Contains(text, NO_OFFLOAD_ATTR)
    ensures AdmissionReadable("", "%0", None, "!t")
  {
    PlainIs(text);
    hide AdmissionText, Contains;
  }

  lemma Defeats(text: string)
    requires DisableAdmission(text).Some?
    requires RewriteLine(text) == (match DisableAdmission(text)
                                   case Some(t) => Defeated(t)
                                   case None => Unreadable(UnreadableAdmission(Trim(text))))
    ensures !RewriteLine(text).Unreadable?
  {
    hide DisableAdmission, RewriteLine, Trim;
  }

  lemma HeadRead()
    ensures Rewritable(HEAD) && Find(LineText(HEAD), DECL) == None && !IsPredicate(HEAD) && !EndsBody(HEAD)
    ensures !PredicateLine(LineText(HEAD)) && LineText(HEAD) == LOOP + " in %m"
  {
    var text := LOOP + " in %m";
    HeadLacks(text);
    HeadWhole(text);
    hide *;
    HoldLetters();
    CharFree(text, DECL, '@');
    CharFree(text, ADMITTED_OP, 'd');
    CharFree(text, DIM_BOUNDS_OP, 'd');
    FoundSome(text, DECL);
    BothFree(text);
    OpsRead(text);
  }

  lemma HeadLacks(text: string)
    requires text == LOOP + " in %m"
    ensures 'd' !in text && '@' !in text && '\n' !in text
  {
    LoopLacks();
    assert 'd' !in " in %m" && '@' !in " in %m" && '\n' !in " in %m";
  }

  lemma HeadWhole(text: string)
    requires text == LOOP + " in %m" && '\n' !in text
    ensures LineText(HEAD) == text && !IsPredicate(HEAD) && !EndsBody(HEAD)
    ensures NoOps(text) && RewriteLine(text) == Kept ==> Rewritable(HEAD)
  {
    hide RewriteLine, NoOps;
  }

  lemma BothFree(text: string)
    requires !Contains(text, ADMITTED_OP) && !Contains(text, DIM_BOUNDS_OP)
    ensures NoOps(text)
  {
  }

  lemma EndRead()
    ensures Still(END) && LineText(END) == LIST_END + "!m)" && !EndsBody(END)
  {
    assert '_' !in LIST_END + "!m)" && 't' !in LIST_END + "!m)" && '\n' !in LIST_END + "!m)";
    StillOther(LIST_END + "!m)");
  }

  // ----- printing -----

  lemma {:induction false} PrintConcat(a: seq<Line>, b: seq<Line>)
    ensures Print(a + b) == Print(a) + Print(b)
    ensures AllRewritable(a + b) <==> AllRewritable(a) && AllRewritable(b)
  {
    hide LineText, Rewritable;
    if a == [] {
      assert a + b == b;
    } else {
      assert (a + b)[1..] == a[1..] + b;
      PrintConcat(a[1..], b);
      PrintCons(a[0], a[1..]);
      PrintCons(a[0], a[1..] + b);
      assert a == [a[0]] + a[1..] && a + b == [a[0]] + (a[1..] + b);
      ConcatAssoc(LineText(a[0]) + "\n", Print(a[1..]), Print(b));
    }
  }

  lemma PrintCons(l: Line, rest: seq<Line>)
    ensures Print([l] + rest) == LineText(l) + "\n" + Print(rest)
    ensures AllRewritable([l] + rest) <==> Rewritable(l) && AllRewritable(rest)
  {
    hide LineText, Rewritable;
    assert ([l] + rest)[1..] == rest;
    UnlinesCons(LineText(l), Texts(rest));
  }

  lemma PrintOne(l: Line)
    ensures Print([l]) == LineText(l) + "\n"
    ensures AllRewritable([l]) <==> Rewritable(l)
  {
    hide LineText, Rewritable;
    PrintCons(l, []);
    assert [l] + [] == [l] && [l][1..] == [];
  }

  predicate NoLoops(lines: seq<Line>) {
    lines != [] ==> !Contains(LineText(lines[0]), LOOP) && NoLoops(lines[1..])
  }

  lemma {:induction false} PrintFree(lines: seq<Line>)
    requires NoLoops(lines)
    ensures !Contains(Print(lines), LOOP)
  {
    NothingIn(LOOP);
    if lines != [] {
      PrintFree(lines[1..]);
      LoopLacks();
      hide Contains, LineText;
      assert lines == [lines[0]] + lines[1..];
      PrintCons(lines[0], lines[1..]);
      ContainsSplit(LineText(lines[0]), '\n', Print(lines[1..]), LOOP);
    }
  }

  lemma Cons(l: Line, rest: seq<Line>)
    ensures ([l] + rest)[0] == l && ([l] + rest)[1..] == rest && [l] + rest != []
    ensures NoLoops([l] + rest) <==> !Contains(LineText(l), LOOP) && NoLoops(rest)
  {
    hide Contains, LineText;
    assert ([l] + rest)[1..] == rest;
  }

  // ----- a spec with one list -----

  /** A header, the head of a list, its lines, and its end. */
  function Spec(header: seq<Line>, body: seq<Line>): seq<Line> {
    header + ([HEAD] + (body + [END]))
  }

  lemma SpecPrints(header: seq<Line>, body: seq<Line>, items: seq<Item>)
    requires AllRewritable(header) && AllRewritable(body) && " in %m\n" + Print(body) == ItemsText(items)
    ensures AllRewritable(Spec(header, body))
    ensures Print(Spec(header, body)) == SpecText([Listing(Print(header), items)], "!m)\n")
  {
    hide *;
    SpecIs(header, body);
    HeadRead();
    EndRead();
    StillIs(END);
    PrintConcat(header, [HEAD] + (body + [END]));
    PrintConcat([HEAD], body + [END]);
    PrintConcat(body, [END]);
    PrintOne(HEAD);
    PrintOne(END);
    OneListing(Print(header), items, "!m)\n");
    SpecGroups(Print(header), LOOP, Print(body), LIST_END);
  }

  lemma SpecIs(header: seq<Line>, body: seq<Line>)
    ensures Spec(header, body) == header + ([HEAD] + (body + [END]))
  {
  }

  lemma StillIs(l: Line)
    requires Still(l)
    ensures Rewritable(l) && Find(LineText(l), DECL) == None && !Contains(LineText(l), LOOP) && !IsPredicate(l)
  {
  }

  lemma OneListing(before: string, items: seq<Item>, last: string)
    ensures SpecText([Listing(before, items)], last) == before + LOOP + (ItemsText(items) + LIST_END + last)
    ensures !Contains(before, LOOP) && items != [] && !Contains(ItemsText(items), LOOP) ==>
              ListingsClean([Listing(before, items)])
    ensures AllRead([Listing(before, items)]) == NamesRead(items)
  {
    hide ItemsText, NamesRead, Contains;
    assert [Listing(before, items)][1..] == [];
    ConcatAssoc(NamesRead(items), [], []);
  }

  lemma SpecGroups(h: string, loop: string, b: string, end: string)
    ensures h + (loop + " in %m" + "\n" + (b + (end + "!m)" + "\n"))) ==
            h + loop + ((" in %m\n" + b) + end + "!m)\n")
  {
  }

  lemma LastFree()
    ensures !Contains("!m)\n", LOOP)
  {
    HoldLetters();
    CharFree("!m)\n", LOOP, 't');
  }

  lemma {:induction false} FlaggedCount(lines: seq<Line>, k: nat)
    requires k < |lines| && PredicateLine(LineText(lines[k]))
    ensures Count(Flags(lines)) > 0
  {
    hide PredicateLine, LineText;
    assert Flags(lines)[1..] == Flags(lines[1..]);
    if k > 0 {
      FlaggedCount(lines[1..], k - 1);
    }
  }

  lemma OneElement(x: string)
    ensures Elements([x]) == Elements([x] + []) == Elements([x, x]) == {x} && |{x}| == 1
  {
  }

  lemma OnlyFound(ts: seq<string>)
    requires Found(ts, "a")
    ensures AllFound(ts, {"a"})
  {
    hide Found;
  }

  lemma NothingRefuses(lines: seq<Line>, name: string, op: Op)
    requires Body(lines, name).Some? && !HasPredicate(Body(lines, name).value)
    ensures Spared(Body(lines, name).value, op)
  {
    hide IsPredicate;
  }

  /**
   A spec whose only matcher read is `@a`, for which the lookup finds a predicate: it is neutralized
   without a complaint, and a sequence without a predicate of its own accepts every operation.
   */
  lemma StaysLive(header: seq<Line>, body: seq<Line>, items: seq<Item>, k: nat, name: string, op: Op)
    requires AllRewritable(header) && AllRewritable(body) && " in %m\n" + Print(body) == ItemsText(items)
    requires NoLoops(header) && items != [] && !Contains(ItemsText(items), LOOP)
    requires Elements(NamesRead(items)) == {"a"}
    requires Found(Texts(Spec(header, body)), "a")
    requires k < |Spec(header, body)| && PredicateLine(LineText(Spec(header, body)[k]))
    requires Body(Spec(header, body), name).Some? && !HasPredicate(Body(Spec(header, body), name).value)
    requires forall v :: op.dim(v) != 999999
    ensures Neutralize(Print(Spec(header, body))).Ok? && Neutralize(Print(Spec(header, body))).value.matchers == 1
    ensures Neutralize(Print(Spec(header, body))).value.text == Print(DisarmAll(Spec(header, body)))
    ensures MatcherAccepts(DisarmAll(Spec(header, body)), name, op)
  {
    hide *;
    var lines := Spec(header, body);
    SpecPrints(header, body, items);
    PrintFree(header);
    LastFree();
    OneListing(Print(header), items, "!m)\n");
    MatchersRead([Listing(Print(header), items)], "!m)\n");
    OneElement("a");
    OnlyFound(Texts(lines));
    FlaggedCount(lines, k);
    NeutralizeExact(lines);
    DisarmedAccepts(lines, name, op);
    NothingRefuses(lines, name, op);
  }

  // ----- looking a sequence up -----

  lemma HoldsFirst(l: Line, rest: seq<Line>)
    requires Find(LineText(l), DECL) == None && PredicateLine(LineText(l))
    ensures HoldsFrom("", Texts([l] + rest), DECL, PredicateLine)
  {
    CrBlind(LineText(l));
    hide *;
    Cons(l, rest);
    HoldsTexts([l] + rest);
    HoldsNext(LineText(l), Texts(rest));
  }

  lemma HoldsLater(l: Line, rest: seq<Line>)
    requires Find(LineText(l), DECL) == None && HoldsFrom("", Texts(rest), DECL, PredicateLine)
    ensures HoldsFrom("", Texts([l] + rest), DECL, PredicateLine)
  {
    hide *;
    Cons(l, rest);
    HoldsTexts([l] + rest);
    HoldsNext(LineText(l), Texts(rest));
  }

  lemma FoundFirst(name: string, rest: seq<Line>)
    requires Symbol(name) && 'h' !in name && '@' !in name
    ensures Found(Texts([Sequence(name)] + rest), name) <==> HoldsFrom("", Texts(rest), DECL, PredicateLine)
  {
    hide *;
    var l := Sequence(name);
    SequenceSpoken(name);
    SequenceName(name);
    Cons(l, rest);
    FoundTexts([l] + rest, name);
    SeenAtDeclare(l, Texts(rest), name);
  }

  lemma SequenceName(name: string)
    ensures Sequence(name).Declare? && Sequence(name).name == name && EndsBody(Sequence(name))
    ensures forall n :: Declares(Sequence(name), n) <==> n == name
    ensures !IsPredicate(Sequence(name))
  {
  }

  // ----- bodies -----

  lemma BodyFirst(name: string, rest: seq<Line>)
    ensures Body([Sequence(name)] + rest, name) == Some(UpToEnd(rest))
  {
    Cons(Sequence(name), rest);
    SequenceName(name);
    hide Declares, UpToEnd;
  }

  lemma BodySkip(l: Line, rest: seq<Line>, name: string)
    requires !Declares(l, name)
    ensures Body([l] + rest, name) == Body(rest, name)
  {
    Cons(l, rest);
    hide Declares, UpToEnd;
  }

  lemma EmptyBody(l: Line, rest: seq<Line>)
    requires EndsBody(l)
    ensures UpToEnd([l] + rest) == [] && !HasPredicate([])
  {
    Cons(l, rest);
    hide EndsBody;
  }

  lemma OneBody(l: Line, m: Line, rest: seq<Line>)
    requires !EndsBody(l) && EndsBody(m)
    ensures UpToEnd([l] + ([m] + rest)) == [l] && (HasPredicate([l]) <==> IsPredicate(l))
  {
    Cons(l, [m] + rest);
    EmptyBody(m, rest);
    hide EndsBody, IsPredicate;
    assert [l] + [] == [l];
    assert l in [l] && forall x :: x in [l] ==> x == l;
  }

  // ----- an entry the reader overlooks -----

  /** The rest of the head line. */
  const IN := " in %m\n"

  /** The entry `@a -> @x`, and the list up to it. */
  const FIRST := Item(IN, "a", false, " ", " @x")

  const ENTRY_TEXT := "@" + ("a" + " ") + "->" + " @x"

  /** No character that the reader acts on, and none of a list's end and start. */
  predicate Bland(s: string) {
    forall i :: 0 <= i < |s| ==> s[i] !in [',', ':', 't', '-', '@']
  }

  lemma BlandLacks(s: string)
    requires Bland(s)
    ensures ',' !in s && ':' !in s && 't' !in s && '-' !in s && '@' !in s
  {
    forall i | 0 <= i < |s| ensures s[i] != ',' && s[i] != ':' && s[i] != 't' && s[i] != '-' && s[i] != '@' {
      assert s[i] !in [',', ':', 't', '-', '@'];
    }
  }

  lemma NoCommas(e: Item)
    requires ',' !in e.pre
    ensures NamesBefore(e) == [] && AfterComma(e.pre) == e.pre
    ensures ',' !in Symbolic(e) && ',' !in e.action ==> NamesAfter(e) == []
  {
    NoneLast(e.pre, ',');
    var tail := Symbolic(e) + "->" + e.action;
    if ',' !in Symbolic(e) && ',' !in e.action {
      assert ',' !in tail;
      CharFree(tail, ",", ',');
      FoundSome(tail, ",");
    }
  }

  lemma NoArrowShown(e: Item)
    requires !Contains(Symbolic(e), "->")
    ensures Shown(e) == Symbolic(e)
  {
    FoundSome(Symbolic(e), "->");
  }

  lemma ReadsAs(e: Item)
    ensures NamesRead([e]) == if Contains(ItemText(e), LIST_END) then ListMatchers(Before(ItemText(e), LIST_END))
                              else ListMatchers(ItemText(e))
  {
    hide ItemText, ListMatchers, NamesRead, Contains;
    assert [e][1..] == [];
    NamesStep([e]);
    NamesStep([e][1..]);
    ConcatAssoc(ListMatchers(ItemText(e)), [], []);
  }

  lemma TextChars(e: Item, c: char)
    requires c !in e.pre && c !in Symbolic(e) && c !in e.action && c != '@' && c != '-' && c != '>'
    ensures c !in ItemText(e)
  {
    hide Symbolic;
  }

  lemma NoColon(text: string)
    requires ':' !in text
    ensures !Contains(text, LIST_END)
  {
    CharFree(text, LIST_END, ':');
  }

  lemma NoT(text: string)
    requires 't' !in text
    ensures !Contains(text, LOOP)
  {
    HoldLetters();
    CharFree(text, LOOP, 't');
  }

  /** What a list reads from an entry without a comma before its symbol and an end mark. */
  lemma EntryReads(e: Item, r: seq<string>)
    requires Lexed(e) && ',' !in e.pre && NamesIn(e) == r && NamesAfter(e) == []
    ensures ListMatchers(ItemText(e)) == r
    ensures !Contains(ItemText(e), LIST_END) ==> NamesRead([e]) == r
  {
    hide *;
    NoCommas(e);
    ReadsAs(e);
    ItemRead(e);
    ConcatAssoc(r, [], []);
  }

  /** An entry without comments. */
  lemma BlandEntry(e: Item)
    requires !e.quoted && Lexed(e) && Bland(e.pre) && Bland(Symbolic(e))
    requires ',' !in e.action && ':' !in e.action && 't' !in e.action
    ensures NamesRead([e]) == ListMatchers(ItemText(e)) == [e.name]
    ensures !Contains(ItemText(e), LIST_END) && !Contains(ItemText(e), LOOP)
  {
    hide *;
    BlandLacks(e.pre);
    BlandLacks(Symbolic(e));
    TextChars(e, ':');
    TextChars(e, 't');
    NoColon(ItemText(e));
    NoT(ItemText(e));
    CharFree(e.pre, "->", '-');
    CharFree(Symbolic(e), "->", '-');
    NoArrowShown(e);
    NoCommas(e);
    NamesCases(e, e.pre);
    EntryReads(e, [e.name]);
  }

  lemma Pieces()
    ensures Bland(IN) && Bland("a" + " ") && Symbol("a") && !SymbolChar(' ')
    ensures ',' !in " @x" && ':' !in " @x" && 't' !in " @x"
  {
    assert "a" + " " == "a ";
  }

  lemma FirstIs()
    ensures !FIRST.quoted && Lexed(FIRST) && Symbolic(FIRST) == "a" + " " && FIRST.pre == IN
    ensures FIRST.action == " @x" && FIRST.name == "a"
  {
    Pieces();
  }

  lemma FirstRead()
    ensures ListMatchers(ItemText(FIRST)) == ["a"] && !Contains(ItemText(FIRST), LIST_END)
    ensures ItemText(FIRST) == IN + ENTRY_TEXT && !Contains(ItemText(FIRST), LOOP)
  {
    FirstIs();
    Pieces();
    FirstGroups(IN, Symbolic(FIRST));
    hide *;
    BlandEntry(FIRST);
  }

  lemma FirstGroups(a: string, b: string)
    requires b == "a" + " "
    ensures ItemText(FIRST) == IN + "@" + Symbolic(FIRST) + "->" + " @x"
    ensures a + "@" + b + "->" + " @x" == a + ("@" + b + "->" + " @x")
    ensures ENTRY_TEXT == "@" + ("a" + " ") + "->" + " @x"
  {
    hide Symbolic;
  }

  lemma TwoRead(e: Item)
    ensures NamesRead([FIRST, e]) == ["a"] + NamesRead([e])
    ensures ItemsText([FIRST, e]) == ItemText(FIRST) + [','] + ItemText(e)
  {
    FirstRead();
    assert [FIRST, e][1..] == [e] && [e][1..] == [];
    hide ItemText, ListMatchers, NamesRead, ItemsText, Contains;
    NamesStep([FIRST, e]);
    ItemsCons([FIRST, e]);
    ItemsCons([e]);
  }

  /** `@a` declines, `@b` has no predicate. */
  const HEADER := [Sequence("a")] + ([ADMISSION] + ([Sequence("b")] + [Sequence("main")]))

  lemma LastSequence()
    ensures [Sequence("main")] == [Sequence("main")] + []
    ensures NoLoops([]) && AllRewritable([])
  {
  }

  lemma Names()
    ensures Symbol("a") && Symbol("b") && Symbol("c") && Symbol("main")
    ensures 'h' !in "a" && 'h' !in "b" && 'h' !in "c" && 'h' !in "main"
    ensures '@' !in "a" && '@' !in "b" && '@' !in "c" && '@' !in "main" && "a" != "b" && "a" != "c"
  {
  }

  lemma HeaderRead()
    ensures AllRewritable(HEADER) && NoLoops(HEADER)
  {
    HeaderIs();
    hide *;
    Names();
    SequenceSpoken("a");
    SequenceSpoken("b");
    SequenceSpoken("main");
    AdmissionRead();
    LastSequence();
    AddLine(Sequence("main"), []);
    AddLine(Sequence("b"), [Sequence("main")]);
    AddLine(ADMISSION, [Sequence("b")] + [Sequence("main")]);
    AddLine(Sequence("a"), [ADMISSION] + ([Sequence("b")] + [Sequence("main")]));
  }

  lemma HeaderIs()
    ensures HEADER == [Sequence("a")] + ([ADMISSION] + ([Sequence("b")] + [Sequence("main")]))
  {
  }

  lemma AddLine(l: Line, rest: seq<Line>)
    requires Rewritable(l) && !Contains(LineText(l), LOOP) && AllRewritable(rest) && NoLoops(rest)
    ensures AllRewritable([l] + rest) && NoLoops([l] + rest)
  {
    hide *;
    PrintCons(l, rest);
    Cons(l, rest);
  }

  lemma ConsConcat(l: Line, rest: seq<Line>, tail: seq<Line>)
    ensures [l] + rest + tail == [l] + (rest + tail)
  {
  }

  lemma HeaderBodies(tail: seq<Line>)
    ensures var ls := HEADER + tail;
            && Found(Texts(ls), "a") && Body(ls, "b") == Some([]) && !HasPredicate([])
            && |ls| > 1 && ls[1] == ADMISSION
  {
    HeaderIs();
    assert (HEADER + tail)[1] == ADMISSION;
    hide *;
    Names();
    AdmissionRead();
    SequenceName("a");
    SequenceName("b");
    SequenceName("main");
    AdmissionKind();
    var last := [Sequence("main")] + tail;
    ConsConcat(Sequence("b"), [Sequence("main")], tail);
    ConsConcat(ADMISSION, [Sequence("b")] + [Sequence("main")], tail);
    ConsConcat(Sequence("a"), [ADMISSION] + ([Sequence("b")] + [Sequence("main")]), tail);
    HoldsFirst(ADMISSION, [Sequence("b")] + last);
    FoundFirst("a", [ADMISSION] + ([Sequence("b")] + last));
    BodySkip(Sequence("a"), [ADMISSION] + ([Sequence("b")] + last), "b");
    BodySkip(ADMISSION, [Sequence("b")] + last, "b");
    BodyFirst("b", last);
    EmptyBody(Sequence("main"), tail);
  }

  lemma AdmissionKind()
    ensures !EndsBody(ADMISSION) && forall n :: !Declares(ADMISSION, n)
  {
  }

  lemma StillLines(x: Line, y: Line)
    requires Still(x) && Still(y)
    ensures AllRewritable([x] + [y]) && NoLoops([x] + [y])
    ensures Print([x] + [y]) == LineText(x) + "\n" + (LineText(y) + "\n")
  {
    hide *;
    StillIs(x);
    StillIs(y);
    LastSequence();
    PrintCons(x, [y]);
    PrintOne(y);
    NoLoopsOne(y);
    Cons(x, [y]);
  }

  lemma NoLoopsOne(l: Line)
    requires !Contains(LineText(l), LOOP)
    ensures NoLoops([l])
  {
    hide Contains, LineText;
    assert [l][1..] == [];
  }

  /** The first entry on a line of its own. */
  const ENTRY := Other(ENTRY_TEXT + ",")

  lemma EntryStill()
    ensures Still(ENTRY) && LineText(ENTRY) == ENTRY_TEXT + ","
  {
    EntryLacks();
    hide *;
    StillOther(ENTRY_TEXT + ",");
    EntryIs();
  }

  lemma EntryIs()
    ensures ENTRY == Other(ENTRY_TEXT + ",")
  {
  }

  lemma EntryLacks()
    ensures var text := ENTRY_TEXT + ","; '_' !in text && 't' !in text && '\n' !in text
  {
    assert "a" + " " == "a ";
  }

  lemma EntryFree(text: string)
    requires !Contains(text, LOOP)
    ensures !Contains(IN + ENTRY_TEXT + [','] + ("\n" + text), LOOP)
  {
    FirstRead();
    LoopLacks();
    LoopQuiet();
    NothingIn(LOOP);
    hide *;
    ContainsSplit("", '\n', text, LOOP);
    ContainsSplit(IN + ENTRY_TEXT, ',', "\n" + text, LOOP);
    BreakFront(text);
  }

  lemma BreakFront(text: string)
    ensures "" + ['\n'] + text == "\n" + text
  {
  }

  lemma EntryGroups(a: string, b: string, t: string)
    ensures a + (b + "," + "\n" + t) == a + b + [','] + ("\n" + t)
  {
  }

  /** What follows the first entry of the list: the lines `x` and `y`. */
  function Live(x: Line, y: Line): seq<Line> {
    Spec(HEADER, [ENTRY] + ([x] + [y]))
  }

  lemma LiveIs(x: Line, y: Line)
    ensures Live(x, y) == Spec(HEADER, [ENTRY] + ([x] + [y]))
  {
  }

  /** An entry of `@b` on two lines that the reader overlooks leaves `@b` live. */
  lemma Overlooked(x: Line, y: Line, e: Item, op: Op)
    requires Still(x) && Still(y) && "\n" + (LineText(x) + "\n" + (LineText(y) + "\n")) == ItemText(e)
    requires NamesRead([e]) == [] || NamesRead([e]) == ["a"]
    requires forall v :: op.dim(v) != 999999
    ensures Neutralize(Print(Live(x, y))).Ok? && Neutralize(Print(Live(x, y))).value.matchers == 1
    ensures Neutralize(Print(Live(x, y))).value.text == Print(DisarmAll(Live(x, y)))
    ensures MatcherAccepts(DisarmAll(Live(x, y)), "b", op)
  {
    hide *;
    var body := [ENTRY] + ([x] + [y]);
    var tail := [HEAD] + (body + [END]);
    LiveIs(x, y);
    SpecIs(HEADER, body);
    HeaderRead();
    HeaderBodies(tail);
    EntryStill();
    StillIs(ENTRY);
    StillLines(x, y);
    PrintCons(ENTRY, [x] + [y]);
    FirstRead();
    TwoRead(e);
    PrintFree([x] + [y]);
    EntryFree(Print([x] + [y]));
    EntryGroups(IN, ENTRY_TEXT, Print([x] + [y]));
    OneElement("a");
    TwoA();
    AdmissionRead();
    InIs();
    StaysLive(HEADER, body, [FIRST, e], 1, "b", op);
  }

  lemma InIs()
    ensures IN == " in %m\n"
  {
  }

  lemma TwoA()
    ensures ["a"] + ["a"] == ["a", "a"] && ["a"] + [] == ["a"]
  {
  }

  // ----- a comment before the entry -----

  /** The entry `@b -> @y` behind a comment on a line of its own. */
  function Behind(c: string): Item {
    Item("\n//" + c + "\n", "b", false, " ", " @y\n")
  }

  const B_TEXT := "@" + ("b" + " ") + "->" + " @y"

  lemma BPieces()
    ensures Symbol("b") && !SymbolChar(' ') && Bland("b" + " ")
    ensures ',' !in " @y\n" && ':' !in " @y\n" && 't' !in " @y\n" && ',' !in "\n" && '-' !in "\n"
  {
    assert "b" + " " == "b ";
  }

  lemma BehindIs(c: string)
    ensures var e := Behind(c);
            && Lexed(e) && Symbolic(e) == "b" + " " && e.name == "b"
            && e.pre == "\n//" + c + "\n" && e.action == " @y\n"
    ensures ItemText(Behind(c)) == "\n" + ("//" + c + "\n" + (B_TEXT + "\n"))
    ensures "\n//" + c == "\n" + "//" + c
  {
    BPieces();
    BehindGroups(c, "b" + " ", " @y");
    assert " @y\n" == " @y" + "\n" && "\n//" == "\n" + "//";
  }

  lemma BehindGroups(c: string, b: string, y: string)
    ensures "\n" + "//" + c + "\n" + "@" + b + "->" + (y + "\n") ==
            "\n" + ("//" + c + "\n" + ("@" + b + "->" + y + "\n"))
  {
  }

  lemma BStill()
    ensures Still(Other(B_TEXT)) && LineText(Other(B_TEXT)) == B_TEXT
  {
    assert "b" + " " == "b ";
    assert '_' !in B_TEXT && 't' !in B_TEXT && '\n' !in B_TEXT;
    hide Still;
    StillOther(B_TEXT);
  }

  /** A comment line that names neither a list nor a declaration. */
  lemma StillRemark(c: string)
    requires '\n' !in c && !Contains(c, LOOP) && '@' !in c
    ensures Still(Comment("", c)) && LineText(Comment("", c)) == "//" + c
  {
    var text := "//" + c;
    RemarkIs(c);
    CommentLine("", c);
    HoldLetters();
    LoopStarts();
    hide *;
    FindShift("//", c, LOOP);
    FoundSome(c, LOOP);
    FoundSome(text, LOOP);
    CharFree(text, DECL, '@');
    FoundSome(text, DECL);
    KeptExactly(text);
    RemarkStill(c);
  }

  lemma RemarkIs(c: string)
    requires '\n' !in c && '@' !in c
    ensures "" + "//" + c == "//" + c && LineText(Comment("", c)) == "//" + c
    ensures '\n' !in "//" + c && '@' !in "//" + c
  {
    assert "" + "//" + c == "//" + c;
  }

  lemma RemarkStill(c: string)
    requires LineText(Comment("", c)) == "//" + c && '\n' !in "//" + c && IsComment("//" + c)
    requires Find("//" + c, DECL) == None && !Contains("//" + c, LOOP)
    ensures Still(Comment("", c))
  {
    hide Find, Contains, LineText, IsComment;
  }

  lemma LoopStarts()
    ensures LOOP != "" && LOOP[0] == 't' && 't' !in "//" && 't' !in "@b"
  {
  }

  /** Any comment with an arrow before the entry: the arrow is taken for the entry's. */
  lemma ArrowLeavesLive(c: string, op: Op)
    requires '\n' !in c && !Contains(c, LOOP) && '@' !in c && ',' !in c && ':' !in c && Contains(c, "->")
    requires forall v :: op.dim(v) != 999999
    ensures var lines := Live(Comment("", c), Other(B_TEXT));
            Neutralize(Print(lines)).Ok? && MatcherAccepts(DisarmAll(lines), "b", op)
  {
    hide *;
    StillRemark(c);
    BStill();
    BehindIs(c);
    ArrowRead(c);
    Overlooked(Comment("", c), Other(B_TEXT), Behind(c), op);
  }

  lemma RemarkLacks(c: string)
    requires '@' !in c && ',' !in c
    ensures '@' !in "\n//" + c + "\n" && ',' !in "\n//" + c + "\n"
    ensures ':' !in c ==> ':' !in "\n//" + c + "\n"
  {
  }

  lemma ArrowRead(c: string)
    requires '@' !in c && ',' !in c && ':' !in c && Contains(c, "->")
    ensures NamesRead([Behind(c)]) == []
  {
    hide *;
    var e := Behind(c);
    BPieces();
    BehindIs(c);
    BlandLacks(Symbolic(e));
    RemarkLacks(c);
    TextChars(e, ':');
    NoColon(ItemText(e));
    PartsFree("\n//", c, "->");
    PartsFree("\n//" + c, "\n", "->");
    NoPairWithout(e.pre);
    NoCommas(e);
    NamesCases(e, e.pre);
    EntryReads(e, []);
  }

  lemma NoPairWithout(text: string)
    requires '@' !in text
    ensures PairName(text) == []
  {
    var i := Find(text, "->");
    if i.Some? {
      NoneLast(text[..i.value], '@');
    }
  }

  /** Any comment with the end mark before the entry: the list is cut there. */
  lemma EndLeavesLive(c: string, op: Op)
    requires '\n' !in c && !Contains(c, LOOP) && '@' !in c && Contains(c, LIST_END)
    requires forall v :: op.dim(v) != 999999
    ensures var lines := Live(Comment("", c), Other(B_TEXT));
            Neutralize(Print(lines)).Ok? && MatcherAccepts(DisarmAll(lines), "b", op)
  {
    hide *;
    StillRemark(c);
    BStill();
    BehindIs(c);
    CutRead(c);
    Overlooked(Comment("", c), Other(B_TEXT), Behind(c), op);
  }

  lemma CutRead(c: string)
    requires '@' !in c && Contains(c, LIST_END)
    ensures NamesRead([Behind(c)]) == []
  {
    hide *;
    var e, front := Behind(c), "\n//" + c;
    BehindIs(c);
    var rest := "\n" + (B_TEXT + "\n");
    CutGroups(c, B_TEXT);
    PartsFree("\n//", c, LIST_END);
    PartsFree(front, rest, LIST_END);
    EndInside(front, rest);
    CutQuiet(c);
    ReadsAs(e);
  }

  lemma CutGroups(c: string, b: string)
    ensures "\n" + ("//" + c + "\n" + (b + "\n")) == "\n//" + c + ("\n" + (b + "\n"))
  {
    assert "\n//" == "\n" + "//";
  }

  /** Text without an `@` names nothing. */
  lemma {:induction false} NothingNamed(text: string)
    requires '@' !in text
    ensures ListMatchers(text) == []
    decreases |text|
  {
    var c := Find(text, ",");
    hide Find, ListMatchers, PairName;
    match c
    case None =>
      NoCommaAt(text);
      OnlyChunk(text);
      NoPairWithout(text);
    case Some(i) =>
      CommaIn(text, i);
      var x, y := text[..i], text[i + 1..];
      NothingNamed(y);
      FirstComma(x, y);
      NoPairWithout(x);
  }

  lemma CutQuiet(c: string)
    requires '@' !in c
    ensures ListMatchers(Before("\n//" + c, LIST_END)) == []
  {
    var s := "\n//" + c;
    assert '@' !in s;
    assert Before(s, LIST_END) <= s;
    hide Before, ListMatchers;
    PrefixLacks(Before(s, LIST_END), s);
    NothingNamed(Before(s, LIST_END));
  }

  lemma PrefixLacks(x: string, s: string)
    requires x <= s && '@' !in s
    ensures '@' !in x
  {
    assert forall i :: 0 <= i < |x| ==> x[i] == s[i];
  }

  // ----- a comment between the symbol and its arrow -----

  /** The entry `@b`, a comment, and `-> @y` on the next line. */
  function Around(gap: string): Item {
    Item("\n", "b", false, gap + "\n", " @y\n")
  }

  lemma AroundIs(gap: string)
    requires gap != "" && !SymbolChar(gap[0])
    ensures var e := Around(gap);
            Lexed(e) && Symbolic(e) == "b" + (gap + "\n") && e.pre == "\n" && e.action == " @y\n" && e.name == "b"
    ensures ItemText(Around(gap)) == "\n" + ("@b" + gap + "\n" + (Y_TEXT + "\n"))
    ensures !Around(gap).quoted
  {
    BPieces();
    AroundGroups(gap, " @y");
    assert " @y\n" == " @y" + "\n" && "@b" == "@" + "b";
  }

  const Y_TEXT := "->" + " @y"

  lemma AroundGroups(gap: string, y: string)
    ensures "\n" + "@" + ("b" + (gap + "\n")) + "->" + (y + "\n") ==
            "\n" + ("@" + "b" + gap + "\n" + ("->" + y + "\n"))
  {
  }

  lemma YStill()
    ensures Still(Other(Y_TEXT)) && LineText(Other(Y_TEXT)) == Y_TEXT
  {
    assert '_' !in Y_TEXT && 't' !in Y_TEXT && '\n' !in Y_TEXT;
    hide Still;
    StillOther(Y_TEXT);
  }

  /** Text of a line that names nothing the rewriter searches for. */
  predicate Unnamed(text: string) {
    '\n' !in text && !Contains(text, LOOP) && !Contains(text, DECL) && NoOps(text)
  }

  lemma StillNamed(gap: string)
    requires Unnamed(gap)
    ensures Still(Other("@b" + gap)) && LineText(Other("@b" + gap)) == "@b" + gap
  {
    var text := "@b" + gap;
    NamesStart();
    FindShift("@b", gap, LOOP);
    FindShift("@b", gap, DECL);
    FindShift("@b", gap, ADMITTED_OP);
    FindShift("@b", gap, DIM_BOUNDS_OP);
    FoundSome(gap, DECL);
    hide Find;
    OpsRead(text);
  }

  lemma NamesStart()
    ensures LOOP != "" && DECL != "" && ADMITTED_OP != "" && DIM_BOUNDS_OP != "" && 't' !in "@b"
    ensures LOOP[0] == 't' && DECL[0] == 't' && ADMITTED_OP[0] == 't' && DIM_BOUNDS_OP[0] == 't'
  {
  }

  /** Any comment with a comma between the symbol and its arrow: the chunks on both sides say nothing. */
  lemma CommaLeavesLive(gap: string, op: Op)
    requires Unnamed(gap) && gap != "" && !SymbolChar(gap[0])
    requires '@' !in gap && '-' !in gap && ':' !in gap && ',' in gap
    requires forall v :: op.dim(v) != 999999
    ensures var lines := Live(Other("@b" + gap), Other(Y_TEXT));
            Neutralize(Print(lines)).Ok? && MatcherAccepts(DisarmAll(lines), "b", op)
  {
    hide *;
    StillNamed(gap);
    YStill();
    AroundIs(gap);
    CommaRead(gap);
    Overlooked(Other("@b" + gap), Other(Y_TEXT), Around(gap), op);
  }

  lemma GapLacks(gap: string)
    requires '-' !in gap && ':' !in gap
    ensures var s := "b" + (gap + "\n");
            '-' !in s && ':' !in s && (',' in s <==> ',' in gap) && ('@' in s <==> '@' in gap)
  {
    assert (gap + "\n")[|gap|] == '\n';
    var s := "b" + (gap + "\n");
    assert forall i :: 0 <= i < |gap| ==> s[i + 1] == gap[i];
  }

  lemma CommaRead(gap: string)
    requires gap != "" && !SymbolChar(gap[0]) && '@' !in gap && '-' !in gap && ':' !in gap && ',' in gap
    ensures NamesRead([Around(gap)]) == []
  {
    hide *;
    var e := Around(gap);
    AroundIs(gap);
    BPieces();
    GapLacks(gap);
    TextLacks(e);
    CharFree(e.pre, "->", '-');
    CharFree(Symbolic(e), "->", '-');
    NoArrowShown(e);
    NoCommas(e);
    NamesCases(e, e.pre);
    CommaAfter(e);
    EntryReads(e, []);
  }

  lemma TextLacks(e: Item)
    requires ':' !in Symbolic(e) && e.pre == "\n" && e.action == " @y\n"
    ensures !Contains(ItemText(e), LIST_END)
  {
    hide Symbolic, ItemText, Contains;
    TextChars(e, ':');
    NoColon(ItemText(e));
  }

  /** After the comma nothing is left that names a matcher before the arrow. */
  lemma CommaAfter(e: Item)
    requires '@' !in Symbolic(e) && ',' in Symbolic(e) && '-' !in Symbolic(e) && e.action == " @y\n"
    ensures NamesAfter(e) == []
  {
    var s := Symbolic(e);
    hide *;
    CommaFound(s);
    var i := Find(s, ",").value;
    FoundSome(s, ",");
    StaysFound(s, "->" + e.action, ",");
    ConcatAssoc(s, "->", e.action);
    CommaIn(s, i);
    var y := s[i + 1..];
    DropBehind(s, "->" + e.action, i + 1);
    ConcatAssoc(y, "->", e.action);
    TailLacks(s, i + 1);
    NoCommaThere();
    AfterArrow(y, e.action);
    AfterIs(e, i, y);
  }

  lemma AfterIs(e: Item, i: nat, y: string)
    requires var tail := Symbolic(e) + "->" + e.action;
             Find(tail, ",") == Some(i) && i + 1 <= |tail| && tail[i + 1..] == y + "->" + e.action
    ensures NamesAfter(e) == ListMatchers(y + "->" + e.action)
  {
    hide Find, ListMatchers, Symbolic;
  }

  lemma TailLacks(s: string, k: nat)
    requires k <= |s| && '@' !in s && '-' !in s
    ensures '@' !in s[k..] && '-' !in s[k..]
  {
  }

  lemma NoCommaThere()
    ensures ',' !in " @y\n"
  {
  }

  lemma CommaFound(s: string)
    requires ',' in s
    ensures Contains(s, ",") && Find(s, ",").Some?
  {
    if Find(s, ",").None? {
      NoCommaAt(s);
      assert false;
    }
  }

  lemma DropBehind(a: string, b: string, k: nat)
    requires k <= |a|
    ensures (a + b)[k..] == a[k..] + b
  {
  }

  lemma AfterArrow(y: string, action: string)
    requires '@' !in y && '-' !in y && ',' !in action
    ensures ListMatchers(y + "->" + action) == []
  {
    hide *;
    LastComma(y);
    CharFree(y, "->", '-');
    match RFindChar(y, ',')
    case None =>
      LastChunk(y, action);
    case Some(i) =>
      var a, b := y[..i], y[i + 1..];
      ChunkLacks(y, i, action);
      CommaSplit(a, b + "->" + action);
      NothingNamed(a);
      LastChunk(b, action);
  }

  lemma ChunkLacks(y: string, i: nat, action: string)
    requires i < |y| && y == y[..i] + [','] + y[i + 1..] && '@' !in y && '-' !in y
    ensures '@' !in y[..i] && '@' !in y[i + 1..] && '-' !in y[i + 1..]
    ensures y + "->" + action == y[..i] + [','] + (y[i + 1..] + "->" + action)
  {
  }

  lemma LastChunk(y: string, action: string)
    requires '@' !in y && '-' !in y && ',' !in y && ',' !in action
    ensures ListMatchers(y + "->" + action) == []
  {
    assert ',' !in y + "->" + action;
    hide *;
    CharFree(y, "->", '-');
    OnlyChunk(y + "->" + action);
    ArrowAt(y, action);
    NoSymbol(y);
  }

  lemma NoSymbol(text: string)
    requires '@' !in text
    ensures SymbolAfterLastAt(text) == None
  {
    NoneLast(text, '@');
  }

  /** Any comment between them that ends in another symbol: that one is read. */
  lemma SymbolLeavesLive(gap: string, op: Op)
    requires Unnamed(gap) && gap != "" && !SymbolChar(gap[0])
    requires ',' !in gap && '-' !in gap && ':' !in gap && '@' in gap && SymbolAfterLastAt(gap + "\n") == Some("a")
    requires forall v :: op.dim(v) != 999999
    ensures var lines := Live(Other("@b" + gap), Other(Y_TEXT));
            Neutralize(Print(lines)).Ok? && MatcherAccepts(DisarmAll(lines), "b", op)
  {
    hide *;
    StillNamed(gap);
    YStill();
    AroundIs(gap);
    SymbolRead(gap);
    Overlooked(Other("@b" + gap), Other(Y_TEXT), Around(gap), op);
  }

  lemma AtInside(gap: string)
    requires '@' in gap
    ensures '@' in gap + "\n"
  {
  }

  lemma SymbolRead(gap: string)
    requires gap != "" && !SymbolChar(gap[0]) && ',' !in gap && '-' !in gap && ':' !in gap && '@' in gap
    requires SymbolAfterLastAt(gap + "\n") == Some("a")
    ensures NamesRead([Around(gap)]) == ["a"]
  {
    hide *;
    var e := Around(gap);
    AroundIs(gap);
    BPieces();
    GapLacks(gap);
    TextLacks(e);
    AtInside(gap);
    CharFree(e.pre, "->", '-');
    CharFree(Symbolic(e), "->", '-');
    NoArrowShown(e);
    NoCommas(e);
    LastAtBehind("b", gap + "\n");
    NamesCases(e, e.pre);
    EntryReads(e, ["a"]);
  }

  // ----- a quoted symbol -----

  const QUOTED := "@" + ("\"" + "b" + "\"" + " ") + "->" + " @y"

  /** A matcher spelled with quotes. */
  lemma QuotedLeavesLive(op: Op)
    requires forall v :: op.dim(v) != 999999
    ensures var lines := Live(Other(QUOTED), Other(""));
            Neutralize(Print(lines)).Ok? && MatcherAccepts(DisarmAll(lines), "b", op)
  {
    hide *;
    QuotedStill();
    QuotedIs();
    QuotedRead();
    Overlooked(Other(QUOTED), Other(""), Item("\n", "b", true, " ", " @y\n\n"), op);
  }

  lemma QuotedStill()
    ensures Still(Other(QUOTED)) && LineText(Other(QUOTED)) == QUOTED && Still(Other("")) && LineText(Other("")) == ""
  {
    assert "\"" + "b" + "\"" + " " == "\"b\" ";
    assert '_' !in QUOTED && 't' !in QUOTED && '\n' !in QUOTED;
    hide Still;
    StillOther(QUOTED);
    StillOther("");
  }

  lemma QuotedIs()
    ensures var e := Item("\n", "b", true, " ", " @y\n\n");
            && ItemText(e) == "\n" + (QUOTED + "\n" + ("" + "\n")) && Bland(Symbolic(e)) && Lexed(e) && e.quoted
            && ',' !in e.pre && '-' !in e.pre && ':' !in e.pre && ',' !in e.action && ':' !in e.action
  {
    var e := Item("\n", "b", true, " ", " @y\n\n");
    assert Symbolic(e) == "\"" + "b" + "\"" + " ";
    QuotedGroups("\"" + "b" + "\"" + " ", " @y");
    assert " @y\n\n" == " @y" + "\n" + "\n";
    assert Symbolic(e) == "\"b\" ";
  }

  lemma QuotedGroups(b: string, y: string)
    ensures "\n" + "@" + b + "->" + (y + "\n" + "\n") == "\n" + ("@" + b + "->" + y + "\n" + ("" + "\n"))
  {
  }

  lemma QuotedRead()
    ensures NamesRead([Item("\n", "b", true, " ", " @y\n\n")]) == []
  {
    hide *;
    var e := Item("\n", "b", true, " ", " @y\n\n");
    QuotedIs();
    BlandLacks(Symbolic(e));
    TextChars(e, ':');
    NoColon(ItemText(e));
    CharFree(e.pre, "->", '-');
    CharFree(Symbolic(e), "->", '-');
    NoArrowShown(e);
    NoCommas(e);
    NamesCases(e, e.pre);
    EntryReads(e, []);
  }

  // ----- a sequence the lookup misreads -----

  /** The only entry of the list. */
  const ONLY := Item(IN, "a", false, " ", " @x\n")

  lemma OnlyIs()
    ensures !ONLY.quoted && Lexed(ONLY) && Symbolic(ONLY) == "a" + " " && ONLY.pre == IN && ONLY.name == "a"
    ensures ',' !in ONLY.action && ':' !in ONLY.action && 't' !in ONLY.action
    ensures ItemText(ONLY) == IN + (ENTRY_TEXT + "\n")
  {
    Pieces();
    OnlyGroups(IN, "a" + " ", " @x");
    assert " @x\n" == " @x" + "\n";
  }

  lemma OnlyGroups(a: string, b: string, y: string)
    ensures a + "@" + b + "->" + (y + "\n") == a + ("@" + b + "->" + y + "\n")
  {
  }

  lemma OnlyRead()
    ensures NamesRead([ONLY]) == ["a"] && ItemsText([ONLY]) == IN + (ENTRY_TEXT + "\n")
    ensures !Contains(ItemsText([ONLY]), LOOP)
  {
    hide *;
    OnlyIs();
    Pieces();
    BlandEntry(ONLY);
    ItemsCons([ONLY]);
  }

  lemma TextStill()
    ensures Still(Other(ENTRY_TEXT)) && LineText(Other(ENTRY_TEXT)) == ENTRY_TEXT
  {
    TextPlain();
    hide *;
    StillOther(ENTRY_TEXT);
  }

  lemma TextPlain()
    ensures '_' !in ENTRY_TEXT && 't' !in ENTRY_TEXT && '\n' !in ENTRY_TEXT
  {
    EntryLacks();
  }

  /** A header and a list of `@a`. */
  function One(header: seq<Line>): seq<Line> {
    Spec(header, [Other(ENTRY_TEXT)])
  }

  lemma OneIs(header: seq<Line>)
    ensures One(header) == Spec(header, [Other(ENTRY_TEXT)])
    ensures One(header) == header + ([HEAD] + ([Other(ENTRY_TEXT)] + [END]))
  {
    SpecIs(header, [Other(ENTRY_TEXT)]);
  }

  /** A sequence without a predicate of its own, for which the lookup finds one elsewhere, stays live. */
  lemma Misread(header: seq<Line>, k: nat, op: Op)
    requires AllRewritable(header) && NoLoops(header) && Found(Texts(One(header)), "a")
    requires k < |header| && PredicateLine(LineText(header[k]))
    requires Body(One(header), "a").Some? && !HasPredicate(Body(One(header), "a").value)
    requires forall v :: op.dim(v) != 999999
    ensures Neutralize(Print(One(header))).Ok? && Neutralize(Print(One(header))).value.matchers == 1
    ensures Neutralize(Print(One(header))).value.text == Print(DisarmAll(One(header)))
    ensures MatcherAccepts(DisarmAll(One(header)), "a", op)
  {
    hide *;
    OneIs(header);
    OnlyRead();
    TextStill();
    StillIs(Other(ENTRY_TEXT));
    PrintOne(Other(ENTRY_TEXT));
    InIs();
    OneElement("a");
    StaysLive(header, [Other(ENTRY_TEXT)], [ONLY], k, "a", op);
  }

  /** `@a` and two lines after its declaration. */
  function After(x: Line, y: Line): seq<Line> {
    [Sequence("a")] + ([x] + ([y] + [Sequence("main")]))
  }

  lemma AfterRead(x: Line, y: Line, tail: seq<Line>)
    requires Rewritable(x) && !Contains(LineText(x), LOOP) && Rewritable(y) && !Contains(LineText(y), LOOP)
    ensures AllRewritable(After(x, y)) && NoLoops(After(x, y))
    ensures After(x, y) + tail == [Sequence("a")] + ([x] + ([y] + ([Sequence("main")] + tail)))
    ensures |After(x, y)| > 2 && After(x, y)[1] == x && After(x, y)[2] == y
  {
    var main := [Sequence("main")];
    assert After(x, y) == [Sequence("a")] + ([x] + ([y] + main));
    assert After(x, y)[1] == x && After(x, y)[2] == y;
    hide *;
    Names();
    SequenceSpoken("a");
    SequenceSpoken("main");
    LastSequence();
    AddLine(Sequence("main"), []);
    AddLine(y, main);
    AddLine(x, [y] + main);
    AddLine(Sequence("a"), [x] + ([y] + main));
    ConsConcat(y, main, tail);
    ConsConcat(x, [y] + main, tail);
    ConsConcat(Sequence("a"), [x] + ([y] + main), tail);
  }

  const TAIL := [HEAD] + ([Other(ENTRY_TEXT)] + [END])

  lemma TailIs()
    ensures TAIL == [HEAD] + ([Other(ENTRY_TEXT)] + [END])
  {
  }

  /** A declaration with a visibility keyword ends the sequence, and the lookup reads past it. */
  lemma PrivateLeavesLive(op: Op)
    requires forall v :: op.dim(v) != 999999
    ensures var lines := One(After(HIDDEN, ADMISSION));
            Neutralize(Print(lines)).Ok? && MatcherAccepts(DisarmAll(lines), "a", op)
  {
    HiddenStill();
    hide *;
    EndedLive(HIDDEN, op);
  }

  /** So does a predicate after the brace that ends the sequence. */
  lemma OutsideLeavesLive(op: Op)
    requires forall v :: op.dim(v) != 999999
    ensures var lines := One(After(Close("}"), ADMISSION));
            Neutralize(Print(lines)).Ok? && MatcherAccepts(DisarmAll(lines), "a", op)
  {
    StillOther("}");
    BraceEnds();
    hide *;
    EndedLive(Close("}"), op);
  }

  lemma BraceEnds()
    ensures EndsBody(Close("}")) && EndsBody(Close("}")) && forall n :: !Declares(Close("}"), n)
  {
  }

  /** A line that ends the sequence, in front of an admission. */
  lemma EndedLive(x: Line, op: Op)
    requires Still(x) && EndsBody(x) && forall v :: op.dim(v) != 999999
    ensures var lines := One(After(x, ADMISSION));
            Neutralize(Print(lines)).Ok? && MatcherAccepts(DisarmAll(lines), "a", op)
  {
    hide *;
    var rest := [ADMISSION] + ([Sequence("main")] + TAIL);
    StillIs(x);
    AdmissionRead();
    OneIs(After(x, ADMISSION));
    TailIs();
    AfterRead(x, ADMISSION, TAIL);
    Names();
    HoldsFirst(ADMISSION, [Sequence("main")] + TAIL);
    HoldsLater(x, rest);
    FoundFirst("a", [x] + rest);
    BodyFirst("a", [x] + rest);
    EmptyBody(x, rest);
    Misread(After(x, ADMISSION), 2, op);
  }

  /** `transform.yield // transform.rocket.match.admitted %0 : !t`. */
  const REMARK := Noted(Other("transform.yield "), " " + ADMITTED_OP + " %0 : !t")

  /** A comment behind a line names the op. */
  lemma RemarkLeavesLive(op: Op)
    requires forall v :: op.dim(v) != 999999
    ensures var lines := One(After(REMARK, Close("}")));
            Neutralize(Print(lines)).Ok? && MatcherAccepts(DisarmAll(lines), "a", op)
  {
    RemarkRead();
    RemarkKind();
    StillOther("}");
    BraceEnds();
    hide *;
    var x, y := REMARK, Close("}");
    var rest := [y] + ([Sequence("main")] + TAIL);
    StillIs(y);
    OneIs(After(x, y));
    TailIs();
    AfterRead(x, y, TAIL);
    Names();
    HoldsFirst(x, rest);
    FoundFirst("a", [x] + rest);
    BodyFirst("a", [x] + rest);
    OneBody(x, y, [Sequence("main")] + TAIL);
    Misread(After(x, y), 1, op);
  }

  lemma RemarkKind()
    ensures !IsPredicate(REMARK) && !EndsBody(REMARK)
  {
    assert Core(REMARK) == Other("transform.yield ");
  }

  lemma RemarkText()
    ensures LineText(REMARK) == "transform.yield // " + ADMITTED_OP + " %0 : !t"
    ensures '_' !in LineText(REMARK) && '\n' !in LineText(REMARK)
  {
    AdmittedLacks();
    RemarkGroups(ADMITTED_OP);
    assert '_' !in "transform.yield // " && '\n' !in "transform.yield // ";
    assert '_' !in " %0 : !t" && '\n' !in " %0 : !t";
  }

  lemma RemarkGroups(op: string)
    ensures "transform.yield " + "//" + (" " + op + " %0 : !t") == "transform.yield // " + op + " %0 : !t"
  {
  }

  lemma RemarkRead()
    ensures Rewritable(REMARK) && PredicateLine(LineText(REMARK))
    ensures Find(LineText(REMARK), DECL) == None && !Contains(LineText(REMARK), LOOP)
  {
    RemarkText();
    HoldUnderscore();
    RemarkCode();
    RemarkSpelled();
    hide *;
    var text := LineText(REMARK);
    CharFree(text, LOOP, '_');
    CharFree(text, DECL, '_');
    CharFree(text, NO_OFFLOAD_ATTR, '_');
    FoundSome(text, DECL);
    RemarkWorks(text);
    RemarkRewritable();
  }

  lemma RemarkSpelled()
    ensures REMARK == Noted(Other("transform.yield "), " " + ADMITTED_OP + " %0 : !t")
  {
  }

  lemma RemarkRewritable()
    requires '\n' !in LineText(REMARK) && !RewriteLine(LineText(REMARK)).Unreadable? && Plain("transform.yield ")
    ensures Rewritable(REMARK)
  {
    hide RewriteLine, Plain;
    assert LineText(REMARK.line) == "transform.yield ";
  }

  lemma RemarkCode()
    ensures Plain("transform.yield ")
  {
    var code := "transform.yield ";
    HoldLetters();
    assert 'h' !in code && 'u' !in code;
    CharFree(code, ADMITTED_OP, 'h');
    CharFree(code, DIM_BOUNDS_OP, 'h');
    CharFree(code, "umin", 'u');
    CharFree(code, "umax", 'u');
  }

  lemma RemarkWorks(text: string)
    requires text == "transform.yield // " + ADMITTED_OP + " %0 : !t" && !Contains(text, NO_OFFLOAD_ATTR)
    ensures PredicateLine(text) && !RewriteLine(text).Unreadable?
  {
    var front, tail := "transform.yield // ", " %0 : !t";
    HoldLetters();
    assert 'h' !in front;
    CharFree(front, ADMITTED_OP, 'h');
    OpNames();
    hide Contains, DisableTail, BorderFree;
    FindAfter(front, ADMITTED_OP, tail);
    FoundSome(text, ADMITTED_OP);
    RemarkTail();
    RemarkStart(text);
    assert text[|front| + |ADMITTED_OP|..] == tail;
  }

  lemma RemarkTail()
    ensures DisableTail(" %0 : !t", NO_OFFLOAD_ATTR).Some?
  {
    assert " %0 : !t" == TailText("%0", None, "!t") by {
      assert " " + "%0" + (" : " + "!t") == " %0 : !t";
    }
    PlainTokens();
    hide DisableTail, TailText;
    PlainRewritten("%0", "!t", NO_OFFLOAD_ATTR);
  }

  lemma RemarkStart(text: string)
    requires text == "transform.yield // " + ADMITTED_OP + " %0 : !t"
    ensures !IsComment(text)
  {
    assert text[0] == 't' && !White('t');
  }

  /** `// transform.named_sequence @a`. */
  const MENTION := Comment("", " " + DECL + "a")

  function Mentioned(): seq<Line> {
    [Sequence("c")] + ([MENTION] + ([ADMISSION] + ([Sequence("a")] + [Sequence("main")])))
  }

  /** A comment names the declaration before it comes, in a sequence that has a predicate. */
  lemma MentionLeavesLive(op: Op)
    requires forall v :: op.dim(v) != 999999
    ensures var lines := One(Mentioned());
            Neutralize(Print(lines)).Ok? && MatcherAccepts(DisarmAll(lines), "a", op)
  {
    MentionedIs();
    hide *;
    var main := [Sequence("main")];
    var x, y := [Sequence("a")] + main, [ADMISSION] + ([Sequence("a")] + main);
    var last := [Sequence("a")] + ([Sequence("main")] + TAIL);
    MentionRead();
    MentionKind();
    AdmissionRead();
    AdmissionKind();
    OneIs(Mentioned());
    TailIs();
    Names();
    SequenceSpoken("a");
    SequenceSpoken("c");
    SequenceSpoken("main");
    SequenceName("c");
    SequenceName("main");
    LastSequence();
    AddLine(Sequence("main"), []);
    AddLine(Sequence("a"), main);
    AddLine(ADMISSION, x);
    AddLine(MENTION, y);
    AddLine(Sequence("c"), [MENTION] + y);
    ConsConcat(Sequence("a"), main, TAIL);
    ConsConcat(ADMISSION, x, TAIL);
    ConsConcat(MENTION, y, TAIL);
    ConsConcat(Sequence("c"), [MENTION] + y, TAIL);
    HoldsFirst(ADMISSION, last);
    MentionFound([ADMISSION] + last);
    BodySkip(Sequence("c"), [MENTION] + ([ADMISSION] + last), "a");
    BodySkip(MENTION, [ADMISSION] + last, "a");
    BodySkip(ADMISSION, last, "a");
    BodyFirst("a", [Sequence("main")] + TAIL);
    EmptyBody(Sequence("main"), TAIL);
    Misread(Mentioned(), 2, op);
  }

  lemma MentionedIs()
    ensures Mentioned() ==
            [Sequence("c")] + ([MENTION] + ([ADMISSION] + ([Sequence("a")] + [Sequence("main")])))
    ensures |Mentioned()| > 2 && Mentioned()[2] == ADMISSION
  {
  }

  lemma MentionKind()
    ensures forall n :: !Declares(MENTION, n)
  {
  }

  lemma MentionText()
    ensures LineText(MENTION) == "// " + DECL + "a" && 'h' !in LineText(MENTION) && '\n' !in LineText(MENTION)
  {
    DeclLacks();
    MentionGroups(DECL);
  }

  lemma MentionGroups(d: string)
    ensures "" + "//" + (" " + d + "a") == "// " + d + "a"
  {
  }

  lemma MentionRead()
    ensures Rewritable(MENTION) && !Contains(LineText(MENTION), LOOP)
    ensures Find(LineText(MENTION), DECL) == Some(3) && LineText(MENTION)[3 + |DECL|..] == "a"
  {
    var text := LineText(MENTION);
    MentionText();
    HoldLetters();
    CharFree(text, LOOP, 'h');
    CharFree(text, ADMITTED_OP, 'h');
    CharFree(text, DIM_BOUNDS_OP, 'h');
    CharFree("// ", DECL, '@');
    OpNames();
    OpsRead(text);
    hide Contains, RewriteLine, BorderFree, LineText;
    FindAfter("// ", DECL, "a");
    assert ("// " + DECL + "a")[3 + |DECL|..] == "a";
  }

  lemma JustSymbol()
    ensures SymbolPrefix("a") == "a" && "a"[1..] == ""
  {
    SymbolPrefixIs("a", "");
    assert "a" + "" == "a";
  }

  lemma MentionFound(rest: seq<Line>)
    requires HoldsFrom("", Texts(rest), DECL, PredicateLine)
    ensures Found(Texts([Sequence("c")] + ([MENTION] + rest)), "a")
  {
    hide *;
    Names();
    SequenceSpoken("c");
    SequenceName("c");
    Cons(Sequence("c"), [MENTION] + rest);
    Cons(MENTION, rest);
    FoundTexts([Sequence("c")] + ([MENTION] + rest), "a");
    SeenAtDeclare(Sequence("c"), Texts([MENTION] + rest), "a");
    FoundTexts([MENTION] + rest, "a");
    MentionRead();
    JustSymbol();
    DeclNonempty();
    SeenStep(LineText(MENTION), Texts(rest), DECL, "a", PredicateLine);
  }

  // ----- a spec that meets every condition -----

  const WELL := [Sequence("a")] + ([ADMISSION] + TAIL)

  /** Five lines that meet every condition asked of a spec, and are neutralized. */
  lemma WellNeutralized()
    ensures AllRewritable(WELL) && AllDisarmable(WELL) && Covered(WELL, [ONLY], 0)
    ensures Neutralize(Print(WELL)).Ok? && "a" in Matchers(Print(WELL))
  {
    WellIs();
    hide *;
    var header := [Sequence("a")] + [ADMISSION];
    Names();
    SequenceSpoken("a");
    AdmissionRead();
    TextStill();
    StillIs(Other(ENTRY_TEXT));
    LastSequence();
    PrintOne(ADMISSION);
    NoLoopsOne(ADMISSION);
    AddLine(Sequence("a"), [ADMISSION]);
    OnlyRead();
    InIs();
    PrintOne(Other(ENTRY_TEXT));
    SpecPrints(header, [Other(ENTRY_TEXT)], [ONLY]);
    PrintFree(header);
    LastFree();
    OneListing(Print(header), [ONLY], "!m)\n");
    MatchersRead([Listing(Print(header), [ONLY])], "!m)\n");
    OneElement("a");
    OneIs(header);
    TailIs();
    ConsConcat(Sequence("a"), [ADMISSION], TAIL);
    HoldsFirst(ADMISSION, TAIL);
    FoundFirst("a", [ADMISSION] + TAIL);
    OnlyFound(Texts(WELL));
    WellFlag();
    FlaggedCount(WELL, 1);
    NeutralizeExact(WELL);
    WellAligned();
    WellDisarmable();
    OnlyReached();
    CoveredIs(WELL, [ONLY], 0);
  }

  lemma WellIs()
    ensures WELL == [Sequence("a")] + ([ADMISSION] + TAIL) && [Sequence("a")] + [ADMISSION] + TAIL == WELL
  {
  }

  lemma WellFlag()
    ensures |WELL| > 1 && WELL[1] == ADMISSION
  {
  }

  lemma OnlyReached()
    ensures Readable(ONLY) && Reached([ONLY], 0) && [ONLY][0] == ONLY
  {
    OnlyIs();
    Pieces();
    hide Contains, Symbolic, ItemText, Bland;
    BlandLacks(ONLY.pre);
    BlandLacks("a" + " ");
    CharFree(ONLY.pre, "->", '-');
    CharFree("a" + " ", "->", '-');
    NoCommas(ONLY);
    NoArrowShown(ONLY);
    OnlyGap();
    assert Front([ONLY], 0) == IN;
    assert ':' !in IN + "@" + ("a" + " ");
    NoColon(IN + "@" + ("a" + " "));
  }

  lemma OnlyGap()
    ensures ',' !in Before(ONLY.mid, "->") && '@' !in Before(ONLY.mid, "->")
  {
    CharFree(" ", "->", '-');
    FoundSome(" ", "->");
  }

  lemma PlainLine(l: Line, rest: seq<Line>, inside: bool)
    requires Find(LineText(l), DECL) == None && !PredicateLine(LineText(l)) && !EndsBody(l) && Aligned(rest, inside)
    ensures Aligned([l] + rest, inside)
  {
    FoundSome(LineText(l), DECL);
    hide PredicateLine, Find, Contains, LineText;
    assert ([l] + rest)[1..] == rest;
  }

  lemma WellAligned()
    ensures Aligned(WELL, false)
  {
    WellIs();
    TailIs();
    hide *;
    Names();
    SequenceSpoken("a");
    SequenceName("a");
    AdmissionRead();
    AdmissionKind();
    HeadRead();
    EndRead();
    TextStill();
    StillIs(END);
    StillIs(Other(ENTRY_TEXT));
    EntryKind();
    StillQuiet(END);
    StillQuiet(Other(ENTRY_TEXT));
    AlignedEmpty();
    PlainLine(END, [], true);
    AlignedOne();
    PlainLine(Other(ENTRY_TEXT), [END], true);
    PlainLine(HEAD, [Other(ENTRY_TEXT)] + [END], true);
    PredicateInside(ADMISSION, TAIL);
    SequenceAligned("a", [ADMISSION] + TAIL);
  }

  lemma AlignedOne()
    ensures [END] + [] == [END]
  {
  }

  lemma EntryKind()
    ensures !EndsBody(Other(ENTRY_TEXT)) && !END.Noted? && !END.Mention?
  {
  }

  lemma AlignedEmpty()
    ensures Aligned([], true)
  {
  }

  lemma StillQuiet(l: Line)
    requires Still(l) && !l.Noted? && !l.Mention?
    ensures !PredicateLine(LineText(l))
  {
    hide Rewritable, IsPredicate, PredicateLine, Find, Contains, LineText;
    PredicateSeen(l);
  }

  lemma PredicateInside(l: Line, rest: seq<Line>)
    requires Find(LineText(l), DECL) == None && IsPredicate(l) && !EndsBody(l) && Aligned(rest, true)
    ensures Aligned([l] + rest, true)
  {
    FoundSome(LineText(l), DECL);
    hide PredicateLine, Find, Contains, LineText;
    assert ([l] + rest)[1..] == rest;
  }

  lemma SequenceAligned(name: string, rest: seq<Line>)
    requires Spoken(Sequence(name)) && Rewritable(Sequence(name)) && Aligned(rest, true)
    ensures Aligned([Sequence(name)] + rest, false)
  {
    SpokenQuiet(Sequence(name));
    hide Rewritable, Spoken, PredicateLine, LineText;
    assert ([Sequence(name)] + rest)[1..] == rest;
  }

  lemma WellDisarmable()
    ensures AllDisarmable(WELL)
  {
    WellIs();
    TailIs();
    OtherKind();
    hide *;
    AdmissionRead();
    HeadRead();
    EndRead();
    StillIs(END);
    SequenceName("a");
    NoneDisarmable();
    ConsDisarmable(END, []);
    AlignedOne();
    ConsDisarmable(Other(ENTRY_TEXT), [END]);
    ConsDisarmable(HEAD, [Other(ENTRY_TEXT)] + [END]);
    ConsDisarmable(ADMISSION, TAIL);
    ConsDisarmable(Sequence("a"), [ADMISSION] + TAIL);
  }

  lemma OtherKind()
    ensures !IsPredicate(Other(ENTRY_TEXT))
  {
  }

  lemma NoneDisarmable()
    ensures AllDisarmable([])
  {
  }

  lemma ConsDisarmable(l: Line, rest: seq<Line>)
    requires (IsPredicate(l) ==> Disarmable(l)) && AllDisarmable(rest)
    ensures AllDisarmable([l] + rest)
  {
    hide Disarmable, IsPredicate;
    assert forall k :: k in [l] + rest ==> k == l || k in rest;
  }
}
