/**
 The `foreach_match` lists of any text, entry by entry: which entries the reader finds, and what
 becomes of the others.
 */
module SpecLists {
  import opened Text
  import opened SpecRewrite
  import opened SpecLines
  import opened SpecModel
  import opened SpecSafety

  // ----- cutting at commas -----

  lemma OnlyChunk(text: string)
    requires ',' !in text
    ensures ListMatchers(text) == PairName(text)
  {
    CharFree(text, ",", ',');
  }

  lemma CommaIn(s: string, i: nat)
    requires Find(s, ",") == Some(i)
    ensures i < |s| && s[i] == ',' && s == s[..i] + [','] + s[i + 1..] && ',' !in s[..i]
  {
    FindSpec(s, ",");
    assert s[i + 0] == ","[0];
    forall k | 0 <= k < i ensures s[k] != ',' {
      assert !OccursAt(s, k, ",");
    }
  }

  lemma NoCommaAt(s: string)
    requires Find(s, ",") == None
    ensures ',' !in s
  {
    FindSpec(s, ",");
    forall k | 0 <= k < |s| ensures s[k] != ',' {
      assert !OccursAt(s, k, ",");
    }
  }

  lemma FirstComma(a: string, b: string)
    requires ',' !in a
    ensures ListMatchers(a + [','] + b) == PairName(a) + ListMatchers(b)
  {
    var s := a + [','] + b;
    CharFree(a, ",", ',');
    FindAfter(a, ",", b);
    assert BorderFree(",");
    assert s == a + "," + b;
    assert s[..|a|] == a && s[|a| + 1..] == b;
  }

  lemma CommaGrouped(a: string, b: string, c: string)
    ensures a + [','] + b + [','] + c == a + [','] + (b + [','] + c)
  {
  }

  /** A comma cuts a list in two, whatever stands around it. */
  lemma {:induction false} CommaSplit(a: string, b: string)
    ensures ListMatchers(a + [','] + b) == ListMatchers(a) + ListMatchers(b)
    decreases |a|
  {
    var c := Find(a, ",");
    hide Find, ListMatchers, PairName;
    match c
    case Some(i) =>
      CommaIn(a, i);
      var x, y := a[..i], a[i + 1..];
      CommaSplit(y, b);
      FirstComma(x, y);
      CommaGrouped(x, y, b);
      FirstComma(x, y + [','] + b);
      ConcatAssoc(PairName(x), ListMatchers(y), ListMatchers(b));
    case None =>
      NoCommaAt(a);
      FirstComma(a, b);
      OnlyChunk(a);
  }

  // ----- one entry -----

  /**
   An entry of a list as MLIR reads it: the text before its `@`, with any blanks, line breaks and
   comments; its symbol; the text up to the arrow and the text after it, comments included.
   */
  datatype Item = Item(pre: string, name: string, quoted: bool, mid: string, action: string)

  function ItemText(e: Item): string {
    e.pre + "@" + Symbolic(e) + "->" + e.action
  }

  /** From the symbol to the arrow. */
  function Symbolic(e: Item): string {
    Spelled(e.name, e.quoted) + e.mid
  }

  /** A bare symbol ends where `mid` starts. */
  predicate Lexed(e: Item) {
    !e.quoted ==> Symbol(e.name) && (e.mid == "" || !SymbolChar(e.mid[0]))
  }

  /** The text after the last comma. */
  function AfterComma(s: string): string {
    match RFindChar(s, ',')
    case None => s
    case Some(i) => s[i + 1..]
  }

  /** The text up to the first arrow after the `@`: a comment may hold one. */
  function Shown(e: Item): string {
    Before(Symbolic(e), "->")
  }

  /**
   What a maintainer can look for: a bare symbol; no arrow in front of it, back to the last comma;
   no comma and no `@` between it and the first arrow after it.
   */
  predicate Readable(e: Item) {
    !e.quoted && !Contains(AfterComma(e.pre), "->") && ',' !in Before(e.mid, "->") && '@' !in Before(e.mid, "->")
  }

  /** What the reader makes of the symbol: the last one between a comma and the first arrow. */
  function NamesIn(e: Item): seq<string> {
    if Contains(AfterComma(e.pre), "->") then PairName(AfterComma(e.pre))
    else if ',' in Shown(e) then []
    else if '@' in Shown(e) then (match SymbolAfterLastAt(Shown(e)) case None => [] case Some(n) => [n])
    else if e.quoted then []
    else [e.name]
  }

  /** A comment in front of the arrow spells the matcher again. */
  predicate Echoed(e: Item) {
    if Contains(AfterComma(e.pre), "->") then PairName(AfterComma(e.pre)) == [e.name]
    else ',' !in Shown(e) && '@' in Shown(e) && SymbolAfterLastAt(Shown(e)) == Some(e.name)
  }

  /** The names before and after the entry's own, which only comments can spell. */
  function NamesBefore(e: Item): seq<string> {
    match RFindChar(e.pre, ',')
    case None => []
    case Some(i) => ListMatchers(e.pre[..i])
  }

  function NamesAfter(e: Item): seq<string> {
    var tail := Symbolic(e) + "->" + e.action;
    match Find(tail, ",")
    case None => []
    case Some(i) => ListMatchers(tail[i + 1..])
  }

  lemma {:induction false} NoneLast(s: string, c: char)
    requires c !in s
    ensures RFindChar(s, c) == None
  {
    if s != "" {
      NoneLast(s[..|s| - 1], c);
    }
  }

  lemma {:induction false} RFindBehind(a: string, s: string)
    requires '@' in s
    ensures RFindChar(s, '@').Some? && RFindChar(a + s, '@') == Some(|a| + RFindChar(s, '@').value)
  {
    if s[|s| - 1] != '@' {
      assert (a + s)[..|a + s| - 1] == a + s[..|s| - 1];
      RFindBehind(a, s[..|s| - 1]);
    }
  }

  /** The last `@` of the back is the last one. */
  lemma LastAtBehind(a: string, s: string)
    requires '@' in s
    ensures SymbolAfterLastAt(a + s) == SymbolAfterLastAt(s)
  {
    RFindBehind(a, s);
    hide RFindChar, SymbolPrefix;
    var i := RFindChar(s, '@').value;
    assert (a + s)[|a| + i + 1..] == s[i + 1..];
  }

  /** The first arrow decides, whatever follows. */
  lemma ArrowFirst(pre: string, rest: string)
    requires Contains(pre, "->")
    ensures PairName(pre + rest) == PairName(pre)
  {
    StaysFound(pre, rest, "->");
    var i := Find(pre, "->").value;
    assert (pre + rest)[..i] == pre[..i];
  }

  lemma NoPair(text: string)
    requires !Contains(text, "->")
    ensures PairName(text) == []
  {
  }

  lemma ArrowAt(lhs: string, after: string)
    requires !Contains(lhs, "->")
    ensures PairName(lhs + "->" + after) == match SymbolAfterLastAt(lhs) case None => [] case Some(n) => [n]
  {
    FirstTwo("->");
    FindAfter(lhs, "->", after);
    assert (lhs + "->" + after)[..|lhs|] == lhs;
  }

  lemma {:induction false} LastComma(s: string)
    ensures match RFindChar(s, ',')
            case None => ',' !in s
            case Some(i) => s == s[..i] + [','] + s[i + 1..] && ',' !in s[i + 1..]
  {
    if s != "" {
      var t := s[..|s| - 1];
      assert s == t + [s[|s| - 1]];
      if s[|s| - 1] != ',' {
        LastComma(t);
        CommaKept(t, s[|s| - 1], RFindChar(t, ','));
      }
    }
  }

  lemma CommaKept(t: string, c: char, r: Option<nat>)
    requires c != ',' && match r case None => ',' !in t case Some(i) =>
               i < |t| && t == t[..i] + [','] + t[i + 1..] && ',' !in t[i + 1..]
    ensures match r case None => ',' !in t + [c] case Some(i) =>
              var s := t + [c]; s == s[..i] + [','] + s[i + 1..] && ',' !in s[i + 1..]
  {
    if r.Some? {
      assert (t + [c])[r.value + 1..] == t[r.value + 1..] + [c];
    }
  }

  /** The text from the `@` on, cut at its first arrow. */
  lemma ShownFirst(e: Item) returns (z: string)
    ensures Symbolic(e) + "->" + e.action == Shown(e) + "->" + z && !Contains(Shown(e), "->")
    ensures Contains(Symbolic(e), "->") || z == e.action
  {
    BeforeIsFree(Symbolic(e), "->");
    z := ArrowTail(Symbolic(e), e.action);
  }

  lemma BeforeIsFree(s: string, mark: string)
    requires mark != ""
    ensures !Contains(Before(s, mark), mark)
  {
    var f := Find(s, mark);
    FindSpec(s, mark);
    if f.Some? {
      var i := f.value;
      var x := s[..i];
      assert x + s[i..] == s;
      FindSpec(x, mark);
      forall j: nat ensures !OccursAt(x, j, mark) {
        if j + |mark| <= i {
          OccursFront(x, s[i..], mark, j);
        }
      }
    } else {
      FoundSome(s, mark);
    }
  }

  lemma ArrowTail(s: string, action: string) returns (z: string)
    ensures s + "->" + action == Before(s, "->") + "->" + z
    ensures Contains(s, "->") || z == action
  {
    var f := Find(s, "->");
    FindSpec(s, "->");
    if f.Some? {
      var i := f.value;
      z := s[i + 2..] + "->" + action;
      assert s[i + 0] == "->"[0] && s[i + 1] == "->"[1];
      assert s == s[..i] + "->" + s[i + 2..];
      ArrowGroups(s[..i], s[i + 2..], action);
    } else {
      z := action;
    }
  }

  lemma ArrowGroups(a: string, b: string, c: string)
    ensures a + "->" + b + "->" + c == a + "->" + (b + "->" + c)
  {
  }

  lemma NamesCases(e: Item, f: string)
    requires f == AfterComma(e.pre)
    ensures Contains(f, "->") ==> NamesIn(e) == PairName(f)
    ensures !Contains(f, "->") && ',' in Shown(e) ==> NamesIn(e) == []
    ensures !Contains(f, "->") && ',' !in Shown(e) && '@' in Shown(e) ==>
              NamesIn(e) == match SymbolAfterLastAt(Shown(e)) case None => [] case Some(n) => [n]
    ensures !Contains(f, "->") && ',' !in Shown(e) && '@' !in Shown(e) ==>
              NamesIn(e) == if e.quoted then [] else [e.name]
  {
    hide Contains, Shown, PairName, SymbolAfterLastAt;
  }

  /** The chunk of a list that holds the symbol: the text after the last comma before it, up to the next comma. */
  lemma OwnChunk(e: Item, f: string)
    requires Lexed(e) && f == AfterComma(e.pre)
    ensures PairName(f + "@" + Before(Symbolic(e) + "->" + e.action, ",")) == NamesIn(e)
  {
    hide *;
    var v := Shown(e);
    var z := ShownFirst(e);
    NamesCases(e, f);
    if Contains(f, "->") {
      var rest := Before(Symbolic(e) + "->" + e.action, ",");
      ArrowFirst(f, "@" + rest);
      ConcatAssoc(f, "@", rest);
    } else if ',' in v {
      CutInside(v, "->" + z);
      ConcatAssoc(v, "->", z);
      NoChunk(f, v);
    } else {
      CutBehind(v, z);
      ShownLast(e, f);
      OpenChunk(f, v);
      ArrowAt(f + "@" + v, Before(z, ","));
      ChunkGroups(f, v, Before(z, ","));
    }
  }

  /** The last symbol in front of the arrow. */
  lemma ShownLast(e: Item, f: string)
    requires Lexed(e)
    ensures SymbolAfterLastAt(f + "@" + Shown(e)) ==
            if '@' in Shown(e) then SymbolAfterLastAt(Shown(e)) else if e.quoted then None else Some(e.name)
  {
    hide SymbolAfterLastAt, Shown;
    var v := Shown(e);
    LastAtBehind(f, "@" + v);
    ConcatAssoc(f, "@", v);
    if '@' in v {
      LastAtBehind("@", v);
    } else {
      ShownSymbol(e);
    }
  }

  lemma ChunkGroups(f: string, v: string, z: string)
    ensures f + "@" + v + "->" + z == f + "@" + (v + "->" + z)
  {
  }

  lemma OpenChunk(f: string, v: string)
    requires !Contains(f, "->") && !Contains(v, "->")
    ensures !Contains(f + "@" + v, "->")
  {
    assert f + "@" + v == f + ['@'] + v;
    ContainsSplit(f, '@', v, "->");
  }

  lemma NoChunk(f: string, v: string)
    requires !Contains(f, "->") && !Contains(v, "->")
    ensures PairName(f + "@" + Before(v, ",")) == []
  {
    var c := Find(v, ",");
    if c.Some? {
      PartsFree(v[..c.value], v[c.value..], "->");
      assert v[..c.value] + v[c.value..] == v;
    }
    hide Contains, PairName;
    OpenChunk(f, Before(v, ","));
    NoPair(f + "@" + Before(v, ","));
  }

  lemma CutInside(v: string, rest: string)
    requires ',' in v
    ensures Before(v + rest, ",") == Before(v, ",")
  {
    var c := Find(v, ",");
    if c.None? {
      NoCommaAt(v);
      assert false;
    }
    FoundSome(v, ",");
    StaysFound(v, rest, ",");
    assert (v + rest)[..c.value] == v[..c.value];
  }

  lemma CutBehind(v: string, z: string)
    requires ',' !in v
    ensures Before(v + "->" + z, ",") == v + "->" + Before(z, ",")
  {
    var a := v + "->";
    FindShift(a, z, ",");
    var c := Find(z, ",");
    if c.Some? {
      assert (a + z)[..|a| + c.value] == a + z[..c.value];
    }
  }

  /** The symbol at the front of what is shown. */
  lemma ShownSymbol(e: Item)
    requires Lexed(e) && '@' !in Shown(e)
    ensures SymbolAfterLastAt("@" + Shown(e)) == if e.quoted then None else Some(e.name)
  {
    var v := Shown(e);
    RFindCharIs("", '@', v);
    assert "" + ['@'] + v == "@" + v && ("@" + v)[1..] == v;
    if e.quoted {
      QuotedFirst(e);
    } else {
      BareShown(e);
      SymbolPrefixIs(e.name, Before(e.mid, "->"));
    }
  }

  lemma QuotedFirst(e: Item)
    requires e.quoted
    ensures SymbolPrefix(Shown(e)) == ""
  {
    var s := Symbolic(e);
    assert s[0] == '"';
    var v := Shown(e);
    assert v != "" ==> v[0] == s[0];
  }

  lemma BareShown(e: Item)
    requires !e.quoted && Lexed(e)
    ensures Shown(e) == e.name + Before(e.mid, "->")
    ensures Before(e.mid, "->") == "" || !SymbolChar(Before(e.mid, "->")[0])
  {
    assert '-' !in e.name;
    FindShift(e.name, e.mid, "->");
    var f := Find(e.mid, "->");
    if f.Some? {
      assert (e.name + e.mid)[..|e.name| + f.value] == e.name + e.mid[..f.value];
    }
  }

  /**
   An entry with any text before its `@`, between its symbol and its arrow and after it, is read by
   its name if and only if it is readable, or a comment in front of the arrow happens to spell it
   again; the other names the reader takes from it come from comments.
   */
  lemma ItemRead(e: Item)
    requires Lexed(e)
    ensures ListMatchers(ItemText(e)) == NamesBefore(e) + NamesIn(e) + NamesAfter(e)
    ensures NamesIn(e) == [e.name] <==> Readable(e) || Echoed(e)
  {
    ReadableIs(e);
    hide *;
    var tail := Symbolic(e) + "->" + e.action;
    OwnChunk(e, AfterComma(e.pre));
    FrontNames(e, tail);
    TailNames(e, AfterComma(e.pre) + "@", tail);
    ConcatAssoc(NamesBefore(e), NamesIn(e), NamesAfter(e));
  }

  /** The names from the own chunk on. */
  lemma TailNames(e: Item, front: string, tail: string)
    requires tail == Symbolic(e) + "->" + e.action && ',' !in front
    ensures ListMatchers(front + tail) == PairName(front + Before(tail, ",")) + NamesAfter(e)
  {
    var c := Find(tail, ",");
    hide ListMatchers, Symbolic, Find, PairName;
    match c
    case None =>
      NoCommaAt(tail);
      OnlyChunk(front + tail);
      ConcatAssoc(PairName(front + tail), [], []);
    case Some(i) =>
      CommaIn(tail, i);
      var x, y := tail[..i], tail[i + 1..];
      assert front + tail == front + x + [','] + y;
      FirstComma(front + x, y);
  }

  lemma ItemGroups(pre: string, s: string, action: string)
    ensures pre + "@" + s + "->" + action == pre + "@" + (s + "->" + action)
  {
  }

  /** The names in front of the last comma. */
  lemma FrontNames(e: Item, tail: string)
    requires tail == Symbolic(e) + "->" + e.action
    ensures ListMatchers(ItemText(e)) == NamesBefore(e) + ListMatchers(AfterComma(e.pre) + "@" + tail)
    ensures ',' !in AfterComma(e.pre) + "@"
  {
    LastComma(e.pre);
    ItemGroups(e.pre, Symbolic(e), e.action);
    var chunk := AfterComma(e.pre) + "@" + tail;
    var k := RFindChar(e.pre, ',');
    hide ListMatchers, Symbolic, RFindChar;
    match k
    case None =>
      ConcatAssoc(ListMatchers(chunk), [], []);
    case Some(i) =>
      var x, y := e.pre[..i], e.pre[i + 1..];
      FrontGroups(x, y, tail);
      CommaSplit(x, chunk);
  }

  lemma FrontGroups(x: string, y: string, tail: string)
    ensures x + [','] + y + "@" + tail == x + [','] + (y + "@" + tail)
  {
  }

  lemma ReadableIs(e: Item)
    requires Lexed(e)
    ensures NamesIn(e) == [e.name] <==> Readable(e) || Echoed(e)
  {
    if !e.quoted {
      BareShown(e);
      assert ',' !in e.name && '@' !in e.name;
    }
    hide Find, Contains, PairName, SymbolAfterLastAt, Shown, Before;
  }

  // ----- one list -----

  function ItemTexts(es: seq<Item>): seq<string> {
    if es == [] then [] else [ItemText(es[0])] + ItemTexts(es[1..])
  }

  /** The entries of a list, with commas between them. */
  function ItemsText(es: seq<Item>): string {
    Join(ItemTexts(es), ",")
  }

  /** The names the reader takes from a list: it stops at the first end mark, also in a comment. */
  function NamesRead(es: seq<Item>): seq<string> {
    if es == [] then []
    else if Contains(ItemText(es[0]), LIST_END) then ListMatchers(Before(ItemText(es[0]), LIST_END))
    else ListMatchers(ItemText(es[0])) + NamesRead(es[1..])
  }

  lemma EndMark()
    ensures BorderFree(LIST_END) && LIST_END[0] == ' ' && ' ' !in LOOP && ',' !in LIST_END
  {
    FirstTwo(LIST_END);
  }

  lemma EndAfter(text: string, rest: string)
    requires !Contains(text, LIST_END)
    ensures Before(text + LIST_END + rest, LIST_END) == text
  {
    EndMark();
    FindAfter(text, LIST_END, rest);
    assert (text + LIST_END + rest)[..|text|] == text;
  }

  lemma EndInside(text: string, rest: string)
    requires Contains(text, LIST_END)
    ensures Before(text + rest, LIST_END) == Before(text, LIST_END)
  {
    StaysFound(text, rest, LIST_END);
    var i := Find(text, LIST_END).value;
    assert (text + rest)[..i] == text[..i];
  }

  lemma EndBehind(text: string, rest: string)
    requires !Contains(text, LIST_END)
    ensures Before(text + [','] + rest, LIST_END) == text + [','] + Before(rest, LIST_END)
  {
    EndMark();
    FindSplit(text, ',', rest, LIST_END);
    var f := Find(rest, LIST_END);
    if f.Some? {
      assert (text + [','] + rest)[..|text| + 1 + f.value] == text + [','] + rest[..f.value];
    }
  }

  lemma JoinCons(t: string, ts: seq<string>)
    ensures Join([t] + ts, ",") == if ts == [] then t else t + [','] + Join(ts, ",")
  {
    assert ([t] + ts)[1..] == ts;
  }

  lemma ItemsCons(es: seq<Item>)
    requires es != []
    ensures ItemsText(es) == if |es| == 1 then ItemText(es[0]) else ItemText(es[0]) + [','] + ItemsText(es[1..])
  {
    hide ItemText, Join;
    JoinCons(ItemText(es[0]), ItemTexts(es[1..]));
    assert |es| == 1 ==> es[1..] == [];
    ItemCount(es[1..]);
  }

  lemma {:induction false} ItemCount(es: seq<Item>)
    ensures |ItemTexts(es)| == |es|
  {
    hide ItemText;
    if es != [] {
      ItemCount(es[1..]);
    }
  }

  lemma NamesStep(es: seq<Item>)
    ensures es == [] ==> NamesRead(es) == []
    ensures es != [] ==>
              NamesRead(es) ==
              if Contains(ItemText(es[0]), LIST_END) then ListMatchers(Before(ItemText(es[0]), LIST_END))
              else ListMatchers(ItemText(es[0])) + NamesRead(es[1..])
  {
    hide ItemText, Contains, ListMatchers;
  }

  lemma ItemEnd(a: string, b: string, c: string)
    ensures a + [','] + b + LIST_END + c == a + [','] + (b + LIST_END + c)
  {
  }

  /** A list gives what its entries give, in order, up to its end mark. */
  lemma {:induction false} ListRead(es: seq<Item>, rest: string)
    requires es != []
    ensures ListMatchers(Before(ItemsText(es) + LIST_END + rest, LIST_END)) == NamesRead(es)
  {
    hide ItemText, ListMatchers, ItemsText, NamesRead, Contains, Before;
    var t := ItemText(es[0]);
    ItemsCons(es);
    NamesStep(es);
    if |es| == 1 {
      NamesStep(es[1..]);
      ConcatAssoc(ListMatchers(t), [], []);
      if Contains(t, LIST_END) {
        EndInside(t, LIST_END + rest);
        ConcatAssoc(t, LIST_END, rest);
      } else {
        EndAfter(t, rest);
      }
    } else {
      ListRead(es[1..], rest);
      var more := ItemsText(es[1..]) + LIST_END + rest;
      ItemEnd(t, ItemsText(es[1..]), rest);
      if Contains(t, LIST_END) {
        EndInside(t, [','] + more);
        ConcatAssoc(t, [','], more);
      } else {
        EndBehind(t, more);
        CommaSplit(t, Before(more, LIST_END));
      }
    }
  }

  // ----- every list of a text -----

  /** Text up to a list, and the list. */
  datatype Listing = Listing(before: string, items: seq<Item>)

  /** A text with its lists; the head line of a list is in front of its first entry. */
  function SpecText(ls: seq<Listing>, last: string): string {
    if ls == [] then last
    else ls[0].before + LOOP + (ItemsText(ls[0].items) + LIST_END + SpecText(ls[1..], last))
  }

  /** The op name stands only where a list starts. */
  predicate ListingsClean(ls: seq<Listing>) {
    ls != [] ==>
      && !Contains(ls[0].before, LOOP) && ls[0].items != [] && !Contains(ItemsText(ls[0].items), LOOP)
      && ListingsClean(ls[1..])
  }

  function AllRead(ls: seq<Listing>): seq<string> {
    if ls == [] then [] else NamesRead(ls[0].items) + AllRead(ls[1..])
  }

  lemma LoopQuiet()
    ensures '-' !in LOOP && ',' !in LOOP && '@' !in LOOP
  {
  }

  /** Text without a dash or an `@` in front of a chunk changes nothing. */
  lemma HeadArrow(a: string, text: string)
    requires '-' !in a && '@' !in a
    ensures PairName(a + text) == PairName(text)
  {
    FindShift(a, text, "->");
    var f := Find(text, "->");
    if f.Some? {
      var lhs := text[..f.value];
      assert (a + text)[..|a| + f.value] == a + lhs;
      hide Find;
      if '@' in lhs {
        LastAtBehind(a, lhs);
      } else {
        NoneLast(lhs, '@');
        NoneLast(a + lhs, '@');
      }
    }
  }

  /** The head of a list is read with its first chunk, and changes nothing there. */
  lemma HeadRead(text: string)
    ensures ListMatchers(LOOP + text) == ListMatchers(text)
  {
    LoopQuiet();
    var c := Find(text, ",");
    hide Find, ListMatchers, PairName;
    match c
    case None =>
      NoCommaAt(text);
      OnlyChunk(text);
      OnlyChunk(LOOP + text);
      HeadArrow(LOOP, text);
    case Some(i) =>
      CommaIn(text, i);
      var x, y := text[..i], text[i + 1..];
      FirstComma(x, y);
      FirstComma(LOOP + x, y);
      HeadArrow(LOOP, x);
      assert LOOP + (x + [','] + y) == LOOP + x + [','] + y;
  }

  lemma HeadEnd(text: string)
    ensures Before(LOOP + text, LIST_END) == LOOP + Before(text, LIST_END)
  {
    EndMark();
    FindShift(LOOP, text, LIST_END);
    var f := Find(text, LIST_END);
    if f.Some? {
      assert (LOOP + text)[..|LOOP| + f.value] == LOOP + text[..f.value];
    }
  }

  /** The text after the end mark of a list goes on to the next one. */
  lemma SkipMark(read: string -> seq<string>, t: string, c: char, rest: string, loop: string, end: string)
    requires loop != "" && c !in loop && !Contains(t, loop)
    ensures ReadLists(read, t + [c] + rest, loop, end) == ReadLists(read, rest, loop, end)
  {
    hide Find, FindFrom;
    FindSplit(t, c, rest, loop);
    var f := Find(rest, loop);
    if f.Some? {
      MarkDrop(t, c, rest, f.value);
      MarkDrop(t, c, rest, f.value + |loop|);
    }
  }

  lemma MarkDrop(t: string, c: char, rest: string, k: nat)
    requires k <= |rest|
    ensures (t + [c] + rest)[|t| + 1 + k..] == rest[k..]
  {
  }

  lemma SkipEnd(text: string, rest: string)
    requires !Contains(text, LOOP)
    ensures ReadLists(ListMatchers, text + LIST_END + rest, LOOP, LIST_END) ==
            ReadLists(ListMatchers, rest, LOOP, LIST_END)
  {
    EndLacks();
    hide ReadLists, Contains;
    NothingIn(LOOP);
    SkipMark(ListMatchers, text, ' ', ": (" + rest, LOOP, LIST_END);
    SkipMark(ListMatchers, "", ':', " (" + rest, LOOP, LIST_END);
    SkipMark(ListMatchers, "", ' ', "(" + rest, LOOP, LIST_END);
    SkipMark(ListMatchers, "", '(', rest, LOOP, LIST_END);
    EndGroups(text, rest);
  }

  lemma EndLacks()
    ensures ' ' !in LOOP && ':' !in LOOP && '(' !in LOOP && LOOP != ""
  {
  }

  lemma EndGroups(text: string, rest: string)
    ensures text + LIST_END + rest == text + [' '] + (": (" + rest)
    ensures ": (" + rest == "" + [':'] + (" (" + rest)
    ensures " (" + rest == "" + [' '] + ("(" + rest)
    ensures "(" + rest == "" + ['('] + rest
  {
    assert LIST_END == [' '] + ": (";
  }

  /** One step of the reader. */
  lemma OpenList(read: string -> seq<string>, before: string, tail: string, loop: string, end: string)
    requires loop != "" && BorderFree(loop) && !Contains(before, loop)
    ensures ReadLists(read, before + loop + tail, loop, end) ==
            read(Before(loop + tail, end)) + ReadLists(read, tail, loop, end)
  {
    hide Before;
    FindAfter(before, loop, tail);
    CutAfter(before, loop, tail);
  }

  lemma CutAfter(a: string, b: string, c: string)
    ensures (a + b + c)[|a|..] == b + c && (a + b + c)[|a| + |b|..] == c
  {
  }

  /** The lists of a text give what their entries give. */
  lemma {:induction false} MatchersIn(ls: seq<Listing>, last: string)
    requires ListingsClean(ls) && !Contains(last, LOOP)
    ensures ReadLists(ListMatchers, SpecText(ls, last), LOOP, LIST_END) == AllRead(ls)
  {
    if ls != [] {
      var l, rest := ls[0], SpecText(ls[1..], last);
      MatchersIn(ls[1..], last);
      OpNames();
      hide ItemsText, ReadLists, NamesRead, BorderFree, Contains, Before, ListMatchers;
      var tail := ItemsText(l.items) + LIST_END + rest;
      OpenList(ListMatchers, l.before, tail, LOOP, LIST_END);
      SkipEnd(ItemsText(l.items), rest);
      HeadEnd(tail);
      HeadRead(Before(tail, LIST_END));
      ListRead(l.items, rest);
    }
  }

  lemma MatchersRead(ls: seq<Listing>, last: string)
    requires ListingsClean(ls) && !Contains(last, LOOP)
    ensures Matchers(SpecText(ls, last)) == Elements(AllRead(ls))
  {
    hide ReadLists, SpecText, AllRead;
    MatchersIn(ls, last);
  }

  // ----- an entry of any list of any text -----

  /** What a list of a text gives is among what the text gives, whatever stands around the list. */
  lemma {:induction false} ListIncluded(read: string -> seq<string>, before: string, tail: string, loop: string,
                                         end: string, n: string)
    requires loop != "" && BorderFree(loop) && n in read(Before(loop + tail, end))
    ensures n in ReadLists(read, before + loop + tail, loop, end)
    decreases |before|
  {
    hide *;
    if Contains(before, loop) {
      FoundSome(before, loop);
      var i := Find(before, loop).value;
      var rest := before[i + |loop|..];
      ListIncluded(read, rest, tail, loop, end, n);
      StaysFound(before, loop + tail, loop);
      ConcatAssoc(before, loop, tail);
      DropFront(before, loop + tail, i + |loop|);
      ConcatAssoc(rest, loop, tail);
      ListStep(read, before + loop + tail, i, loop, end);
    } else {
      OpenList(read, before, tail, loop, end);
    }
  }

  lemma ListStep(read: string -> seq<string>, s: string, i: nat, loop: string, end: string)
    requires loop != "" && Find(s, loop) == Some(i) && i + |loop| <= |s|
    ensures ReadLists(read, s, loop, end) == read(Before(s[i..], end)) + ReadLists(read, s[i + |loop|..], loop, end)
  {
    hide Find, Before;
    var first, rest := s[i..], s[i + |loop|..];
    assert ReadLists(read, s, loop, end) == read(Before(first, end)) + ReadLists(read, rest, loop, end);
  }

  lemma DropFront(a: string, b: string, k: nat)
    requires k <= |a|
    ensures (a + b)[k..] == a[k..] + b
  {
  }

  /** The text of a list in front of the `@` of entry `k`. */
  function Front(es: seq<Item>, k: nat): string
    requires k < |es|
  {
    if k == 0 then es[0].pre else ItemText(es[0]) + [','] + Front(es[1..], k - 1)
  }

  /** No end mark stands in front of the first arrow after the entry's `@`, not even in a comment. */
  predicate Reached(es: seq<Item>, k: nat)
    requires k < |es|
  {
    !Contains(Front(es, k) + "@" + Shown(es[k]), LIST_END)
  }

  lemma {:induction false} FrontParts(es: seq<Item>, k: nat) returns (z: string)
    requires k < |es|
    ensures ItemsText(es) == Front(es, k) + "@" + (Symbolic(es[k]) + "->" + es[k].action) + z
    ensures AfterComma(Front(es, k)) == AfterComma(es[k].pre)
  {
    hide ItemText, Symbolic, ItemsText, AfterComma;
    ItemsCons(es);
    if k == 0 {
      z := if |es| == 1 then "" else [','] + ItemsText(es[1..]);
      ItemOpened(es[0]);
      ConcatAssoc(ItemText(es[0]), [','], ItemsText(es[1..]));
    } else {
      z := FrontParts(es[1..], k - 1);
      assert es[1..][k - 1] == es[k];
      CommaLast(ItemText(es[0]), Front(es[1..], k - 1));
      FrontJoins(ItemText(es[0]), Front(es[1..], k - 1), Symbolic(es[k]) + "->" + es[k].action, z);
    }
  }

  lemma FrontJoins(a: string, b: string, c: string, d: string)
    ensures a + [','] + (b + "@" + c + d) == a + [','] + b + "@" + c + d
  {
  }

  lemma ItemOpened(e: Item)
    ensures ItemText(e) == e.pre + "@" + (Symbolic(e) + "->" + e.action)
  {
    ItemGroups(e.pre, Symbolic(e), e.action);
  }

  lemma {:induction false} CommaBehind(a: string, s: string)
    requires ',' in s
    ensures RFindChar(s, ',').Some? && RFindChar(a + s, ',') == Some(|a| + RFindChar(s, ',').value)
  {
    if s[|s| - 1] != ',' {
      assert (a + s)[..|a + s| - 1] == a + s[..|s| - 1];
      CommaBehind(a, s[..|s| - 1]);
    }
  }

  lemma CommaLast(a: string, b: string)
    ensures AfterComma(a + [','] + b) == AfterComma(b)
  {
    if ',' in b {
      CommaBehind(a + [','], b);
      var i := RFindChar(b, ',').value;
      assert (a + [','] + b)[|a| + 1 + i + 1..] == b[i + 1..];
    } else {
      RFindCharIs(a, ',', b);
      LastComma(b);
      assert (a + [','] + b)[|a| + 1..] == b;
    }
  }

  lemma LoopFront(x: string)
    requires !Contains(AfterComma(x), "->")
    ensures !Contains(AfterComma(LOOP + x), "->")
  {
    LoopQuiet();
    NoneLast(LOOP, ',');
    hide *;
    if ',' in x {
      CommaKeeps(LOOP, x);
    } else {
      WholeText(x);
      WholeText(LOOP + x);
      FindShift(LOOP, x, "->");
      FoundSome(x, "->");
      FoundSome(LOOP + x, "->");
    }
  }

  lemma CommaKeeps(a: string, x: string)
    requires ',' in x
    ensures AfterComma(a + x) == AfterComma(x)
  {
    CommaBehind(a, x);
    hide RFindChar;
    var i := RFindChar(x, ',').value;
    assert (a + x)[|a| + i + 1..] == x[i + 1..];
  }

  lemma WholeText(x: string)
    requires ',' !in x
    ensures AfterComma(x) == x
  {
    NoneLast(x, ',');
  }

  /** A bare symbol before an arrow, with nothing between them that misleads. */
  lemma ChunkRead(x: string, name: string, gap: string, y: string)
    requires !Contains(AfterComma(x), "->") && Symbol(name) && (gap == "" || !SymbolChar(gap[0]))
    requires ',' !in gap && '@' !in gap && !Contains(gap, "->")
    ensures name in ListMatchers(x + "@" + (name + gap + "->" + y))
  {
    var e := Item(x, name, false, gap, y);
    FoundSome(gap, "->");
    assert Before(gap, "->") == gap;
    hide Contains, AfterComma, Symbol, Before, Find, ListMatchers;
    ItemOpened(e);
    ItemRead(e);
    assert Symbolic(e) == name + gap;
    MiddleIn(NamesBefore(e), name, NamesAfter(e));
  }

  lemma MiddleIn(a: seq<string>, x: string, b: seq<string>)
    ensures x in a + [x] + b
  {
    assert (a + [x] + b)[|a|] == x;
  }

  /** The end mark is none of an arrow. */
  lemma EndPast(p: string, z: string)
    requires !Contains(p, LIST_END)
    ensures Before(p + "->" + z, LIST_END) == p + "->" + Before(z, LIST_END)
  {
    assert '-' !in LIST_END && '>' !in LIST_END && LIST_END != "";
    NothingIn(LIST_END);
    FindSplit(p, '-', ">" + z, LIST_END);
    FindSplit("", '>', z, LIST_END);
    assert p + ['-'] + (">" + z) == p + "->" + z && "" + ['>'] + z == ">" + z;
    FoundSome(z, LIST_END);
    FoundSome(">" + z, LIST_END);
    var f := Find(z, LIST_END);
    if f.Some? {
      assert (p + "->" + z)[..|p| + 2 + f.value] == p + "->" + z[..f.value];
    }
  }

  lemma ReadableParts(e: Item)
    requires Lexed(e) && Readable(e)
    ensures Symbol(e.name) && Shown(e) == e.name + Before(e.mid, "->")
    ensures var gap := Before(e.mid, "->");
            && (gap == "" || !SymbolChar(gap[0])) && ',' !in gap && '@' !in gap && !Contains(gap, "->")
            && !Contains(AfterComma(e.pre), "->")
  {
    BareShown(e);
    BeforeIsFree(e.mid, "->");
  }

  lemma EntryGroups(front: string, v: string, z: string, y: string, after: string)
    ensures front + "@" + (v + "->" + z) + y + after == front + "@" + v + "->" + (z + y + after)
  {
  }

  lemma HeadGroups(loop: string, front: string, v: string, w: string)
    ensures loop + (front + "@" + v + "->" + w) == loop + front + "@" + (v + "->" + w)
  {
  }

  /**
   A readable entry in front of the first end mark is read, whatever else the text holds before the
   list, in it and after it.
   */
  lemma EntryRead(before: string, es: seq<Item>, k: nat, after: string)
    requires k < |es| && Lexed(es[k]) && Readable(es[k]) && Reached(es, k)
    ensures es[k].name in Matchers(before + LOOP + (ItemsText(es) + after))
  {
    hide *;
    var e, front := es[k], Front(es, k);
    var y := FrontParts(es, k);
    var z := ShownFirst(e);
    ReadableParts(e);
    ReachedIs(es, k);
    EntryGroups(front, Shown(e), z, y, after);
    var rest := z + y + after;
    var w := Before(rest, LIST_END);
    EndPast(front + "@" + Shown(e), rest);
    HeadEnd(front + "@" + Shown(e) + "->" + rest);
    HeadGroups(LOOP, front, Shown(e), w);
    LoopFront(front);
    ChunkRead(LOOP + front, e.name, Before(e.mid, "->"), w);
    OpNames();
    LoopNonempty();
    ListIncluded(ListMatchers, before, ItemsText(es) + after, LOOP, LIST_END, e.name);
    InMatchers(before + LOOP + (ItemsText(es) + after), e.name);
  }

  lemma LoopNonempty()
    ensures LOOP != ""
  {
  }

  lemma ReachedIs(es: seq<Item>, k: nat)
    requires k < |es| && Reached(es, k)
    ensures !Contains(Front(es, k) + "@" + Shown(es[k]), LIST_END)
  {
  }

  lemma InMatchers(text: string, n: string)
    requires n in ReadLists(ListMatchers, text, LOOP, LIST_END)
    ensures n in Matchers(text)
  {
  }

  // ----- what neutralizing leaves -----

  /** The reader finds the entry, and the lookup the sequence's own body. */
  predicate Covered(lines: seq<Line>, es: seq<Item>, k: nat)
    requires k < |es|
  {
    Readable(es[k]) && Reached(es, k) && Aligned(lines, false)
  }

  /** The matcher is declared, without a predicate before its end. */
  predicate Open(lines: seq<Line>, name: string) {
    Body(lines, name).Some? && !Predicated(lines, name)
  }

  /**
   After a successful neutralization of any readable and disarmable lines, for any list of the text:
   a listed matcher accepts an operation exactly when no predicate stands before its end, the next
   declaration in any spelling; one that is covered never does; so no listed matcher fires if and
   only if each that is not covered is undeclared or has a predicate of its own.
   */
  lemma ListedExact(lines: seq<Line>, before: string, es: seq<Item>, after: string, op: Op)
    requires AllRewritable(lines) && AllDisarmable(lines) && Neutralize(Print(lines)).Ok?
    requires Print(lines) == before + LOOP + (ItemsText(es) + after)
    requires (forall e :: e in es ==> Lexed(e)) && forall v :: op.dim(v) != 999999
    ensures Neutralize(Print(lines)).value.text == Print(DisarmAll(lines))
    ensures forall k :: 0 <= k < |es| ==>
              && (MatcherAccepts(DisarmAll(lines), es[k].name, op) <==> Open(lines, es[k].name))
              && (Covered(lines, es, k) ==> !Open(lines, es[k].name))
    ensures (forall k :: 0 <= k < |es| ==> !MatcherAccepts(DisarmAll(lines), es[k].name, op)) <==>
            (forall k :: 0 <= k < |es| && !Covered(lines, es, k) ==> !Open(lines, es[k].name))
  {
    hide *;
    NeutralizeExact(lines);
    forall k | 0 <= k < |es|
      ensures MatcherAccepts(DisarmAll(lines), es[k].name, op) <==> Open(lines, es[k].name)
      ensures Covered(lines, es, k) ==> !Open(lines, es[k].name)
    {
      var name := es[k].name;
      NeutralizeSafe(lines, name, op);
      AllDisarmed(lines, name, op);
      OpenIs(lines, name);
      CoveredIs(lines, es, k);
      if Covered(lines, es, k) {
        EntryRead(before, es, k, after);
      }
    }
  }

  lemma OpenIs(lines: seq<Line>, name: string)
    ensures Open(lines, name) <==> Body(lines, name).Some? && !Predicated(lines, name)
    ensures Body(lines, name).Some? ==> (Predicated(lines, name) <==> HasPredicate(Body(lines, name).value))
  {
    hide Body, HasPredicate;
  }

  lemma CoveredIs(lines: seq<Line>, es: seq<Item>, k: nat)
    requires k < |es|
    ensures Covered(lines, es, k) <==> Readable(es[k]) && Reached(es, k) && Aligned(lines, false)
  {
  }
}
