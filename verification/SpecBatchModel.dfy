/**
 What `EnableBatchMatmul` does to a chain of passes: the recording pass comes to read the
 unbatched functions, and everything else stays as it was.
 */
module SpecBatchModel {
  import opened Text
  import opened SpecRewrite
  import opened SpecEnable
  import opened SpecBatch

  // ----- pass chains as text -----

  /** A pass that reads one handle and defines another, possibly commented out; or any other line. */
  datatype Item =
    | Other(text: string)
    | Apply(marked: bool, indent: string, result: string, pass: string, operand: string)

  const HEAD := " = transform.apply_registered_pass"
  const TYPE := ": (!transform.any_op) -> !transform.any_op"

  function HeadLine(indent: string, result: string): string {
    indent + "%" + result + HEAD
  }

  function UseLine(indent: string, pass: string, operand: string): string {
    (indent + "    ") + "\"" + pass + MIDDLE + operand
  }

  function TypeLine(indent: string): string {
    (indent + "  ") + TYPE
  }

  function ItemLines(t: Item): seq<string> {
    match t
    case Other(text) => [text]
    case Apply(marked, indent, result, pass, operand) =>
      var m := if marked then BATCH_MARKER else "";
      [m + HeadLine(indent, result), m + UseLine(indent, pass, operand), m + TypeLine(indent)]
  }

  function ChainLines(items: seq<Item>): seq<string> {
    if items == [] then [] else ItemLines(items[0]) + ChainLines(items[1..])
  }

  function Print(items: seq<Item>): string {
    Unlines(ChainLines(items))
  }

  /** A line the rewrite finds nothing in. */
  predicate Plain(line: string) {
    && '\n' !in line && (line == "" || line[|line| - 1] != '\r')
    && Unmark(line, BATCH_MARKER).None? && !Contains(line, CONSUMER)
  }

  predicate Indent(s: string) {
    forall i :: 0 <= i < |s| ==> s[i] == ' '
  }

  predicate Clean(t: Item) {
    match t
    case Other(text) => Plain(text)
    case Apply(_, indent, result, pass, operand) =>
      && Indent(indent) && Symbol(result) && Symbol(operand)
      && '\n' !in pass && '"' !in pass
  }

  predicate AllClean(items: seq<Item>) {
    items != [] ==> Clean(items[0]) && AllClean(items[1..])
  }

  function MarkedItems(items: seq<Item>): nat {
    if items == [] then 0 else (if items[0].Apply? && items[0].marked then 1 else 0) + MarkedItems(items[1..])
  }

  /** A use of the recording pass that the search finds: its operand starts with the old handle. */
  predicate Consumes(t: Item) {
    t.Apply? && t.pass == RECORD && GEMV <= t.operand
  }

  function Consumers(items: seq<Item>): nat {
    if items == [] then 0 else (if Consumes(items[0]) then 1 else 0) + Consumers(items[1..])
  }

  function Unmarked(t: Item): Item {
    if t.Apply? then t.(marked := false) else t
  }

  function Repoint(t: Item): Item {
    if Consumes(t) then t.(operand := UNBATCHED + t.operand[|GEMV|..]) else t
  }

  function UnmarkItems(items: seq<Item>): seq<Item> {
    if items == [] then [] else [Unmarked(items[0])] + UnmarkItems(items[1..])
  }

  function Rewire(items: seq<Item>): seq<Item> {
    if items == [] then [] else [Repoint(Unmarked(items[0]))] + Rewire(items[1..])
  }

  // ----- the use line -----

  /** The pattern stands in a use line only at the quoted pass. */
  lemma UseOccurs(indent: string, pass: string, middle: string, operand: string, record: string, gemv: string, i: nat)
    requires '"' !in indent && '"' !in pass && '"' !in operand && '"' !in record && '"' !in gemv && record != ""
    requires |middle| > 1 && middle[0] == '"' && '"' !in middle[1..] && middle[1] != record[0]
    ensures OccursAt(indent + "\"" + pass + middle + operand, i, "\"" + record + middle + gemv) <==>
            i == |indent| && pass == record && gemv <= operand
  {
    var s, pat := indent + "\"" + pass + middle + operand, "\"" + record + middle + gemv;
    QuotesAt(indent, pass, middle, operand);
    assert s[|indent| + 1 + |pass| + 1] == middle[1];
    if OccursAt(s, i, pat) {
      assert s[i] == pat[0] == '"';
      assert pat[1] == record[0];
      assert i == |indent|;
      var q := 1 + |record|;
      assert pat[q] == middle[0] && s[i + q] == '"';
      assert |record| == |pass|;
      assert pass == record by {
        forall k | 0 <= k < |pass| ensures pass[k] == record[k] {
          assert s[i + (1 + k)] == pat[1 + k];
        }
      }
      var g := 1 + |record| + |middle|;
      assert i + |pat| <= |s|;
      forall k | 0 <= k < |gemv| ensures operand[k] == gemv[k] {
        assert s[i + (g + k)] == pat[g + k];
      }
    } else if i == |indent| && pass == record && gemv <= operand {
      var rest := operand[|gemv|..];
      assert operand == gemv + rest;
      UseShape(indent, record, middle, gemv, rest);
      OccursMiddle(indent, pat, rest);
    }
  }

  lemma QuotesAt(indent: string, pass: string, middle: string, operand: string)
    requires '"' !in indent && '"' !in pass && '"' !in operand
    requires |middle| > 1 && middle[0] == '"' && '"' !in middle[1..]
    ensures var s := indent + "\"" + pass + middle + operand;
            forall i :: 0 <= i < |s| && s[i] == '"' ==> i == |indent| || i == |indent| + 1 + |pass|
  {
    var s := indent + "\"" + pass + middle + operand;
    forall i | 0 <= i < |s| ensures s[i] == '"' ==> i == |indent| || i == |indent| + 1 + |pass| {
      var m := |indent| + 1 + |pass|;
      if i < |indent| {
        assert s[i] == indent[i];
      } else if |indent| < i < m {
        assert s[i] == pass[i - |indent| - 1];
      } else if m < i < m + |middle| {
        assert s[i] == middle[1..][i - m - 1];
      } else if i >= m + |middle| {
        assert s[i] == operand[i - m - |middle|];
      }
    }
  }

  lemma UseShape(indent: string, record: string, middle: string, gemv: string, rest: string)
    ensures indent + "\"" + record + middle + (gemv + rest) == indent + ("\"" + record + middle + gemv) + rest
  {
  }

  lemma OccursMiddle(a: string, pat: string, b: string)
    ensures OccursAt(a + pat + b, |a|, pat)
  {
  }

  lemma UseCount(indent: string, pass: string, middle: string, operand: string, record: string,
                 gemv: string, to: string)
    requires '"' !in indent && '"' !in pass && '"' !in operand && '"' !in record && '"' !in gemv && record != ""
    requires |middle| > 1 && middle[0] == '"' && '"' !in middle[1..] && middle[1] != record[0]
    ensures var line := indent + "\"" + pass + middle + operand;
            var pat, new_ := "\"" + record + middle + gemv, "\"" + record + middle + to;
            if pass == record && gemv <= operand then
              && CountOf(line, pat) == 1
              && Replace(line, pat, new_) == indent + "\"" + pass + middle + (to + operand[|gemv|..])
            else CountOf(line, pat) == 0 && Replace(line, pat, new_) == line
  {
    var line := indent + "\"" + pass + middle + operand;
    var pat, new_ := "\"" + record + middle + gemv, "\"" + record + middle + to;
    forall i: nat ensures OccursAt(line, i, pat) <==> i == |indent| && pass == record && gemv <= operand {
      UseOccurs(indent, pass, middle, operand, record, gemv, i);
    }
    FindSpec(line, pat);
    if pass == record && gemv <= operand {
      FindIs(line, pat, |indent|);
      var rest := operand[|gemv|..];
      assert operand == gemv + rest;
      UseShape(indent, record, middle, gemv, rest);
      UseShape(indent, record, middle, to, rest);
      assert line[|indent| + |pat|..] == rest && line[..|indent|] == indent;
      CharFree(rest, pat, '"');
      Untouched(rest, pat, new_);
    } else {
      Untouched(line, pat, new_);
    }
  }

  // ----- the lines of an item -----

  lemma UnmarkPlain(line: string, first: string)
    requires Indent(first) && first < line && line[|first|] != '/' && !White(line[|first|])
    ensures Unmark(line, BATCH_MARKER).None?
  {
    TrimStartSkips(first, line[|first|..]);
    assert line == first + line[|first|..];
  }

  lemma UnmarkMarker(line: string)
    ensures Unmark(BATCH_MARKER + line, BATCH_MARKER) == Some(line)
  {
    UnmarkMarked("", BATCH_MARKER, line);
    assert "" + BATCH_MARKER + line == BATCH_MARKER + line;
  }

  /** A printed line: one line, not itself marked. */
  predicate Printable(line: string) {
    && '\n' !in line && line != "" && line[|line| - 1] != '\r' && Unmark(line, BATCH_MARKER).None?
  }

  lemma IndentedPrintable(first: string, rest: string)
    requires Indent(first) && rest != "" && rest[0] != '/' && !White(rest[0])
    requires '\n' !in rest && rest[|rest| - 1] != '\r'
    ensures Printable(first + rest)
    ensures '"' !in rest ==> '"' !in first + rest
  {
    UnmarkPlain(first + rest, first);
  }

  lemma SymbolClean(name: string)
    requires Symbol(name)
    ensures '"' !in name && '\n' !in name && name[|name| - 1] != '\r'
  {
    assert forall c :: c in name ==> SymbolChar(c);
    assert name[|name| - 1] in name;
  }

  lemma HeadPrintable(indent: string, result: string)
    requires Indent(indent) && Symbol(result)
    ensures Printable(HeadLine(indent, result)) && '"' !in HeadLine(indent, result)
  {
    SymbolClean(result);
    HeadQuiet();
    hide Symbol, Printable;
    var rest := "%" + result + HEAD;
    assert rest[0] == '%' && rest[|rest| - 1] == HEAD[|HEAD| - 1];
    IndentedPrintable(indent, rest);
    HeadGroups(indent, result, HEAD);
  }

  lemma HeadGroups(indent: string, result: string, head: string)
    ensures indent + ("%" + result + head) == indent + "%" + result + head
  {
  }

  lemma HeadQuiet()
    ensures '\n' !in HEAD && '"' !in HEAD && HEAD != "" && HEAD[|HEAD| - 1] != '\r'
  {
  }

  lemma UsePrintable(indent: string, pass: string, operand: string)
    requires Indent(indent) && Symbol(operand) && '\n' !in pass
    ensures Printable(UseLine(indent, pass, operand))
  {
    var rest := "\"" + pass + MIDDLE + operand;
    SymbolClean(operand);
    assert rest[|rest| - 1] == operand[|operand| - 1];
    IndentedPrintable(indent + "    ", rest);
    UseGroups(indent + "    ", pass, MIDDLE, operand);
  }

  lemma UseGroups(first: string, pass: string, middle: string, operand: string)
    ensures first + ("\"" + pass + middle + operand) == first + "\"" + pass + middle + operand
  {
  }

  lemma TypePrintable(indent: string)
    requires Indent(indent)
    ensures Printable(TypeLine(indent)) && '"' !in TypeLine(indent)
  {
    IndentedPrintable(indent + "  ", TYPE);
  }

  /** A line, marked or not. */
  function Prefixed(marked: bool, line: string): string {
    (if marked then BATCH_MARKER else "") + line
  }

  lemma PrefixedUnmarks(marked: bool, line: string)
    requires Printable(line)
    ensures '\n' !in Prefixed(marked, line) && StripCr(Prefixed(marked, line)) == Prefixed(marked, line)
    ensures UnmarkedLine(Prefixed(marked, line)) == line && Mark(Prefixed(marked, line)) == if marked then 1 else 0
  {
    assert "" + line == line;
    MarkedEnds(line);
    UnmarkMarker(line);
    hide Unmark;
  }

  /** What the unmarking does to the lines of one item. */
  lemma ItemUnmarks(t: Item)
    requires Clean(t)
    ensures NoLineFeeds(ItemLines(t)) && StripAll(ItemLines(t)) == ItemLines(t)
    ensures UnmarkAll(ItemLines(t), BATCH_MARKER) == ItemLines(Unmarked(t))
    ensures MarkedCount(ItemLines(t), BATCH_MARKER) == if t.Apply? && t.marked then 3 else 0
  {
    hide Unmark, StripCr;
    match t
    case Other(text) =>
      OneLine(text);
      PlainEnds(text);
    case Apply(marked, indent, result, pass, operand) =>
      HeadPrintable(indent, result);
      UsePrintable(indent, pass, operand);
      TypePrintable(indent);
      var head, use, type_ := HeadLine(indent, result), UseLine(indent, pass, operand), TypeLine(indent);
      hide HeadLine, UseLine, TypeLine, Printable, UnmarkedLine, Mark, Prefixed, Indent, Symbol;
      PrefixedUnmarks(marked, head);
      PrefixedUnmarks(marked, use);
      PrefixedUnmarks(marked, type_);
      ThreeLines(Prefixed(marked, head), Prefixed(marked, use), Prefixed(marked, type_));
      PrefixedItem(t);
      PrefixedItem(Unmarked(t));
      PrefixedNot(head, use, type_);
  }

  lemma PrefixedItem(t: Item)
    requires t.Apply?
    ensures ItemLines(t) == [Prefixed(t.marked, HeadLine(t.indent, t.result)),
                             Prefixed(t.marked, UseLine(t.indent, t.pass, t.operand)),
                             Prefixed(t.marked, TypeLine(t.indent))]
  {
  }

  lemma PrefixedNot(a: string, b: string, c: string)
    ensures Prefixed(false, a) == a && Prefixed(false, b) == b && Prefixed(false, c) == c
  {
  }

  lemma PlainEnds(text: string)
    requires Plain(text)
    ensures StripCr(text) == text
  {
  }

  lemma MarkedEnds(line: string)
    requires Printable(line)
    ensures '\n' !in BATCH_MARKER + line
    ensures (BATCH_MARKER + line)[|BATCH_MARKER + line| - 1] == line[|line| - 1]
  {
  }

  lemma OneLine(a: string)
    ensures [a][1..] == []
    ensures NoLineFeeds([a]) <==> '\n' !in a
    ensures StripAll([a]) == [StripCr(a)]
    ensures UnmarkAll([a], BATCH_MARKER) == [match Unmark(a, BATCH_MARKER) case Some(t) => t case None => a]
    ensures MarkedCount([a], BATCH_MARKER) == if Unmark(a, BATCH_MARKER).Some? then 1 else 0
  {
    assert [a][1..] == [];
    hide Unmark, StripCr;
  }

  function UnmarkedLine(a: string): string {
    match Unmark(a, BATCH_MARKER) case Some(t) => t case None => a
  }

  function Mark(a: string): nat {
    if Unmark(a, BATCH_MARKER).Some? then 1 else 0
  }

  lemma ThreeLines(a: string, b: string, c: string)
    ensures NoLineFeeds([a, b, c]) <==> '\n' !in a && '\n' !in b && '\n' !in c
    ensures StripAll([a, b, c]) == [StripCr(a), StripCr(b), StripCr(c)]
    ensures UnmarkAll([a, b, c], BATCH_MARKER) == [UnmarkedLine(a), UnmarkedLine(b), UnmarkedLine(c)]
    ensures MarkedCount([a, b, c], BATCH_MARKER) == Mark(a) + Mark(b) + Mark(c)
  {
    assert [a, b, c][1..] == [b, c] && [b, c][1..] == [c];
    OneLine(c);
    hide Unmark, StripCr;
    assert StripAll([b, c]) == [StripCr(b)] + StripAll([c]);
    assert UnmarkAll([b, c], BATCH_MARKER) == [UnmarkedLine(b)] + UnmarkAll([c], BATCH_MARKER);
    assert MarkedCount([b, c], BATCH_MARKER) == Mark(b) + Mark(c);
  }

  /** What the replacement does to the lines of one uncommented item. */
  lemma ItemRepoints(t: Item)
    requires Clean(t) && !(t.Apply? && t.marked)
    ensures CountEach(ItemLines(t), CONSUMER) == if Consumes(t) then 1 else 0
    ensures ReplaceEach(ItemLines(t), CONSUMER, REPOINTED) == ItemLines(Repoint(t))
  {
    match t
    case Other(text) =>
      assert [text][1..] == [];
      Untouched(text, CONSUMER, REPOINTED);
    case Apply(marked, indent, result, pass, operand) =>
      HeadPrintable(indent, result);
      TypePrintable(indent);
      var head, use, type_ := HeadLine(indent, result), UseLine(indent, pass, operand), TypeLine(indent);
      UseRepoints(indent, pass, operand);
      hide CountOf, Replace, HeadLine, UseLine, TypeLine, Printable, Prefixed, Indent, Symbol, Contains;
      QuoteFree(head);
      QuoteFree(type_);
      ThreeReplaced(head, use, type_);
      PrefixedItem(t);
      PrefixedItem(Repoint(t));
      PrefixedNot(head, use, type_);
      PrefixedNot(head, UseLine(indent, pass, Repoint(t).operand), type_);
  }

  lemma QuoteFree(line: string)
    requires '"' !in line
    ensures CountOf(line, CONSUMER) == 0 && Replace(line, CONSUMER, REPOINTED) == line
  {
    CharFree(line, CONSUMER, '"');
    Untouched(line, CONSUMER, REPOINTED);
  }

  lemma UseRepoints(indent: string, pass: string, operand: string)
    requires Indent(indent) && Symbol(operand) && '"' !in pass
    ensures if pass == RECORD && GEMV <= operand then
              && CountOf(UseLine(indent, pass, operand), CONSUMER) == 1
              && Replace(UseLine(indent, pass, operand), CONSUMER, REPOINTED)
                 == UseLine(indent, pass, UNBATCHED + operand[|GEMV|..])
            else
              && CountOf(UseLine(indent, pass, operand), CONSUMER) == 0
              && Replace(UseLine(indent, pass, operand), CONSUMER, REPOINTED) == UseLine(indent, pass, operand)
  {
    SymbolClean(operand);
    hide CountOf, Replace;
    UseCount(indent + "    ", pass, MIDDLE, operand, RECORD, GEMV, UNBATCHED);
  }

  lemma ThreeReplaced(a: string, b: string, c: string)
    ensures CountEach([a, b, c], CONSUMER) == CountOf(a, CONSUMER) + CountOf(b, CONSUMER) + CountOf(c, CONSUMER)
    ensures ReplaceEach([a, b, c], CONSUMER, REPOINTED) ==
            [Replace(a, CONSUMER, REPOINTED), Replace(b, CONSUMER, REPOINTED), Replace(c, CONSUMER, REPOINTED)]
  {
    hide CountOf, Replace;
    assert [a, b, c][1..] == [b, c] && [b, c][1..] == [c] && [c][1..] == [];
    assert CountEach([c], CONSUMER) == CountOf(c, CONSUMER);
    assert CountEach([b, c], CONSUMER) == CountOf(b, CONSUMER) + CountOf(c, CONSUMER);
    assert ReplaceEach([c], CONSUMER, REPOINTED) == [Replace(c, CONSUMER, REPOINTED)];
    assert ReplaceEach([b, c], CONSUMER, REPOINTED)
           == [Replace(b, CONSUMER, REPOINTED)] + ReplaceEach([c], CONSUMER, REPOINTED);
  }

  // ----- the whole chain -----

  lemma {:induction false} LinesConcat(a: seq<string>, b: seq<string>)
    ensures NoLineFeeds(a + b) <==> NoLineFeeds(a) && NoLineFeeds(b)
    ensures StripAll(a + b) == StripAll(a) + StripAll(b)
  {
    hide StripCr;
    if a == [] {
      assert a + b == b;
    } else {
      assert (a + b)[1..] == a[1..] + b;
      LinesConcat(a[1..], b);
    }
  }

  lemma {:induction false} UnmarkConcat(a: seq<string>, b: seq<string>)
    ensures UnmarkAll(a + b, BATCH_MARKER) == UnmarkAll(a, BATCH_MARKER) + UnmarkAll(b, BATCH_MARKER)
    ensures MarkedCount(a + b, BATCH_MARKER) == MarkedCount(a, BATCH_MARKER) + MarkedCount(b, BATCH_MARKER)
  {
    hide Unmark;
    if a == [] {
      assert a + b == b;
    } else {
      assert (a + b)[1..] == a[1..] + b;
      UnmarkConcat(a[1..], b);
    }
  }

  lemma {:induction false} RepointConcat(a: seq<string>, b: seq<string>)
    ensures CountEach(a + b, CONSUMER) == CountEach(a, CONSUMER) + CountEach(b, CONSUMER)
    ensures ReplaceEach(a + b, CONSUMER, REPOINTED) ==
            ReplaceEach(a, CONSUMER, REPOINTED) + ReplaceEach(b, CONSUMER, REPOINTED)
  {
    hide CountOf, Replace;
    if a == [] {
      assert a + b == b;
    } else {
      assert (a + b)[1..] == a[1..] + b;
      RepointConcat(a[1..], b);
    }
  }

  lemma {:induction false} ChainUnmarks(items: seq<Item>)
    requires AllClean(items)
    ensures NoLineFeeds(ChainLines(items)) && StripAll(ChainLines(items)) == ChainLines(items)
    ensures UnmarkAll(ChainLines(items), BATCH_MARKER) == ChainLines(UnmarkItems(items))
    ensures MarkedCount(ChainLines(items), BATCH_MARKER) == 3 * MarkedItems(items)
  {
    if items != [] {
      hide ItemLines, Clean;
      ChainUnmarks(items[1..]);
      ItemUnmarks(items[0]);
      LinesConcat(ItemLines(items[0]), ChainLines(items[1..]));
      UnmarkConcat(ItemLines(items[0]), ChainLines(items[1..]));
      assert UnmarkItems(items)[1..] == UnmarkItems(items[1..]);
    }
  }

  lemma {:induction false} ChainRepoints(items: seq<Item>)
    requires AllClean(items)
    ensures CountEach(ChainLines(UnmarkItems(items)), CONSUMER) == Consumers(UnmarkItems(items))
    ensures ReplaceEach(ChainLines(UnmarkItems(items)), CONSUMER, REPOINTED) == ChainLines(Rewire(items))
  {
    if items != [] {
      ChainRepoints(items[1..]);
      var t := Unmarked(items[0]);
      ItemRepoints(t);
      assert UnmarkItems(items)[1..] == UnmarkItems(items[1..]) && Rewire(items)[1..] == Rewire(items[1..]);
      hide ItemLines, Clean, Consumes, Repoint;
      RepointConcat(ItemLines(t), ChainLines(UnmarkItems(items[1..])));
    }
  }

  lemma {:induction false} ChainNonEmpty(items: seq<Item>)
    requires MarkedItems(items) > 0
    ensures ChainLines(items) != [] && ChainLines(UnmarkItems(items)) != [] && ChainLines(Rewire(items)) != []
  {
    if MarkedItems(items[1..]) > 0 {
      ChainNonEmpty(items[1..]);
    }
    assert ItemLines(items[0]) != [] && ItemLines(Unmarked(items[0])) != [];
    assert ItemLines(Repoint(Unmarked(items[0]))) != [];
  }

  /**
   The rewrite on a printed chain: refused without a commented pass, refused unless exactly
   one use is found to repoint, and otherwise the rewired chain.
   */
  lemma BatchModel(items: seq<Item>)
    requires AllClean(items)
    ensures EnableBatchMatmul(Print(items)) ==
            if MarkedItems(items) == 0 then Err(NoMarkedEntries)
            else if Consumers(UnmarkItems(items)) != 1 then Err(ConsumerCount(Consumers(UnmarkItems(items))))
            else Ok(Rewritten(Print(Rewire(items)), 3 * MarkedItems(items)))
  {
    var ts, us, rs := ChainLines(items), ChainLines(UnmarkItems(items)), ChainLines(Rewire(items));
    ChainUnmarks(items);
    ChainRepoints(items);
    if MarkedItems(items) > 0 {
      ChainNonEmpty(items);
    }
    assert Print(items) == Unlines(ts) && Print(Rewire(items)) == Unlines(rs);
    hide *;
    LinesOfUnlines(ts);
    if MarkedItems(items) > 0 {
      JoinUnlines(ts);
      Finish(Unlines(ts), ts, us, rs, 3 * MarkedItems(items));
    } else {
      NoneMarked(Unlines(ts));
    }
  }

  lemma Finish(spec: string, ts: seq<string>, us: seq<string>, rs: seq<string>, n: nat)
    requires Lines(spec) == ts && EndsWithNewline(spec) && n > 0
    requires MarkedCount(ts, BATCH_MARKER) == n && UnmarkAll(ts, BATCH_MARKER) == us
    requires ReplaceEach(us, CONSUMER, REPOINTED) == rs && us != [] && rs != []
    ensures EnableBatchMatmul(spec) ==
            if CountEach(us, CONSUMER) != 1 then Err(ConsumerCount(CountEach(us, CONSUMER)))
            else Ok(Rewritten(Unlines(rs), n))
  {
    assert CONSUMER != "" && '\n' !in CONSUMER;
    hide Lines, MarkedCount, UnmarkAll, ReplaceEach, CountEach, Join, CountOf, Replace, Unlines;
    JoinedLines(us, CONSUMER, REPOINTED);
    JoinUnlines(rs);
  }

  lemma NoneMarked(spec: string)
    requires MarkedCount(Lines(spec), BATCH_MARKER) == 0
    ensures EnableBatchMatmul(spec) == Err(NoMarkedEntries)
  {
    hide Lines, MarkedCount, UnmarkAll, Join, CountOf, Replace;
  }

  // ----- what a chain computes -----

  /** The passes a linear chain applies, from the functions under handle `at`; comments apply none. */
  predicate Linear(items: seq<Item>, at: string) {
    items != [] ==>
      if items[0].Other? || items[0].marked then Linear(items[1..], at)
      else items[0].operand == at && Linear(items[1..], items[0].result)
  }

  /** Handles to the list of passes applied so far. */
  type Handles = map<string, seq<string>>

  /** The transform dialect: each pass reads one handle and defines another. */
  function Execute(items: seq<Item>, handles: Handles): Option<Handles> {
    if items == [] then Some(handles)
    else if items[0].Other? || items[0].marked then Execute(items[1..], handles)
    else if items[0].operand !in handles then None
    else Execute(items[1..], handles[items[0].result := handles[items[0].operand] + [items[0].pass]])
  }

  /** The handle a linear chain ends on. */
  function Last(items: seq<Item>, at: string): string {
    if items == [] then at
    else Last(items[1..], if items[0].Other? || items[0].marked then at else items[0].result)
  }

  function Passes(items: seq<Item>): seq<string> {
    if items == [] then []
    else (if items[0].Other? || items[0].marked then [] else [items[0].pass]) + Passes(items[1..])
  }

  /** Executing a linear chain applies its passes in order. */
  lemma {:induction false} LinearExecutes(items: seq<Item>, at: string, handles: Handles)
    requires Linear(items, at) && at in handles
    ensures Execute(items, handles).Some? && Last(items, at) in Execute(items, handles).value
    ensures Execute(items, handles).value[Last(items, at)] == handles[at] + Passes(items)
    decreases |items|
  {
    if items == [] {
    } else {
      var t, rest := items[0], items[1..];
      if t.Other? || t.marked {
        LinearExecutes(rest, at, handles);
        assert Passes(items) == Passes(rest);
      } else {
        var applied := handles[at] + [t.pass];
        var handles' := handles[t.result := applied];
        LinearExecutes(rest, t.result, handles');
        assert Execute(items, handles) == Execute(rest, handles');
        ConcatAssoc(handles[at], [t.pass], Passes(rest));
      }
    }
  }

  // ----- the splice -----

  const UNBATCH := "rocket-unbatch-matmul"

  /** The commented pass of the shipped spec. */
  predicate IsUnbatch(t: Item) {
    t.Apply? && t.marked && t.result == UNBATCHED && t.pass == UNBATCH && t.operand == GEMV
  }

  /** Every commented pass is the unbatching one. */
  predicate MarkedAreUnbatch(items: seq<Item>) {
    items != [] ==> (items[0].Apply? && items[0].marked ==> IsUnbatch(items[0])) && MarkedAreUnbatch(items[1..])
  }

  /** The next live pass is the recording one. */
  predicate NextRecords(items: seq<Item>) {
    items != [] &&
    if items[0].Other? || items[0].marked then NextRecords(items[1..]) else items[0].pass == RECORD
  }

  /** The commented pass stands where the chain has reached the old handle, right before its recording. */
  predicate Placed(items: seq<Item>, at: string) {
    items != [] &&
    if items[0].Other? then Placed(items[1..], at)
    else if items[0].marked then at == GEMV && NextRecords(items[1..])
    else Placed(items[1..], items[0].result)
  }

  lemma {:induction false} Unchanged(items: seq<Item>)
    requires MarkedItems(items) == 0 && Consumers(UnmarkItems(items)) == 0
    ensures Rewire(items) == items
  {
    if items != [] {
      assert UnmarkItems(items)[1..] == UnmarkItems(items[1..]);
      Unchanged(items[1..]);
      assert Unmarked(items[0]) == items[0];
    }
  }

  /** After the unbatching pass: the chain goes on from its handle exactly when the next pass is repointed. */
  lemma {:induction false} AfterUnbatch(items: seq<Item>) returns (back: seq<string>)
    requires Linear(items, GEMV) && MarkedItems(items) == 0 && Consumers(UnmarkItems(items)) <= 1
    ensures Linear(Rewire(items), UNBATCHED) && Consumers(UnmarkItems(items)) == 1 ==> NextRecords(items)
    ensures NextRecords(items) ==>
              && Linear(Rewire(items), UNBATCHED) && Consumers(UnmarkItems(items)) == 1
              && Last(Rewire(items), UNBATCHED) == Last(items, GEMV)
              && Passes(items) == [RECORD] + back && Passes(Rewire(items)) == [RECORD] + back
  {
    back := [];
    if items != [] {
      var t := items[0];
      assert UnmarkItems(items)[1..] == UnmarkItems(items[1..]) && Rewire(items)[1..] == Rewire(items[1..]);
      assert Unmarked(t) == t;
      if t.Other? {
        back := AfterUnbatch(items[1..]);
      } else if t.pass == RECORD {
        assert Repoint(t).operand == UNBATCHED;
        Unchanged(items[1..]);
        back := Passes(items[1..]);
      } else {
        assert Rewire(items)[0] == t;
        assert GEMV != UNBATCHED;
      }
    }
  }

  /** A well-placed pass has a consumer after it. */
  lemma {:induction false} NextConsumes(items: seq<Item>)
    requires Linear(items, GEMV) && NextRecords(items)
    ensures Consumers(UnmarkItems(items)) >= 1
  {
    var t := items[0];
    assert UnmarkItems(items)[1..] == UnmarkItems(items[1..]);
    if t.Other? || t.marked {
      NextConsumes(items[1..]);
    }
  }

  lemma {:induction false} PlacedConsumes(items: seq<Item>, at: string)
    requires Linear(items, at) && Placed(items, at)
    ensures Consumers(UnmarkItems(items)) >= 1
  {
    var t := items[0];
    assert UnmarkItems(items)[1..] == UnmarkItems(items[1..]);
    if t.Other? {
      PlacedConsumes(items[1..], at);
    } else if t.marked {
      NextConsumes(items[1..]);
    } else {
      PlacedConsumes(items[1..], t.result);
    }
  }

  /** A repointed operand is none that was read before. */
  lemma RepointMoves(t: Item)
    requires Consumes(t)
    ensures Repoint(t).operand != t.operand
  {
    assert Repoint(t).operand[0] == UNBATCHED[0] && t.operand[0] == GEMV[0];
  }

  /**
   A linear chain with one commented unbatching pass and one consumer stays linear exactly
   when that pass stands between its handle and the recording pass; the passes are then the
   old ones with the unbatching one in front of the recording one.
   */
  lemma {:induction false} Splice(items: seq<Item>, at: string) returns (front: seq<string>, back: seq<string>)
    requires Linear(items, at) && MarkedAreUnbatch(items)
    requires MarkedItems(items) == 1 && Consumers(UnmarkItems(items)) == 1
    ensures Linear(Rewire(items), at) <==> Placed(items, at)
    ensures Placed(items, at) ==>
              && Last(Rewire(items), at) == Last(items, at)
              && Passes(items) == front + ([RECORD] + back)
              && Passes(Rewire(items)) == front + ([UNBATCH] + ([RECORD] + back))
  {
    front, back := [], [];
    var t, rest := items[0], items[1..];
    RewireHead(items);
    if t.Other? {
      front, back := Splice(rest, at);
    } else if t.marked {
      UnbatchStays(t);
      if at == GEMV {
        back := AfterUnbatch(rest);
        hide Rewire, UnmarkItems, Consumers, Consumes, NextRecords;
      }
    } else if Consumes(t) {
      RepointMoves(t);
      hide Rewire, UnmarkItems, Consumers, Consumes, NextRecords;
      if Placed(rest, t.result) {
        PlacedConsumes(rest, t.result);
      }
    } else {
      var f, b := Splice(rest, t.result);
      front, back := [t.pass] + f, b;
      hide Rewire, UnmarkItems, Consumers, NextRecords;
      FrontGrows(t.pass, f, b);
    }
  }

  lemma FrontGrows(p: string, f: seq<string>, b: seq<string>)
    ensures [p] + (f + ([RECORD] + b)) == ([p] + f) + ([RECORD] + b)
    ensures [p] + (f + ([UNBATCH] + ([RECORD] + b))) == ([p] + f) + ([UNBATCH] + ([RECORD] + b))
  {
  }

  lemma RewireHead(items: seq<Item>)
    requires items != []
    ensures Rewire(items)[1..] == Rewire(items[1..]) && Rewire(items)[0] == Repoint(Unmarked(items[0]))
    ensures Consumers(UnmarkItems(items)) ==
            (if Consumes(Unmarked(items[0])) then 1 else 0) + Consumers(UnmarkItems(items[1..]))
  {
    assert UnmarkItems(items)[1..] == UnmarkItems(items[1..]);
  }

  lemma UnbatchStays(t: Item)
    requires IsUnbatch(t)
    ensures !Consumes(Unmarked(t)) && Repoint(Unmarked(t)) == Unmarked(t)
  {
    assert |UNBATCH| != |RECORD|;
  }

  /**
   End to end on a printed chain: the flag succeeds, and the chain it leaves computes the
   original's passes with `rocket-unbatch-matmul` between the gemv and the recording pass.
   */
  lemma BatchEndToEnd(items: seq<Item>, start: string, handles: Handles)
    returns (rewired: seq<Item>, front: seq<string>, back: seq<string>)
    requires AllClean(items) && Linear(items, start) && start in handles && MarkedAreUnbatch(items)
    requires MarkedItems(items) == 1 && Consumers(UnmarkItems(items)) == 1 && Placed(items, start)
    ensures EnableBatchMatmul(Print(items)) == Ok(Rewritten(Print(rewired), 3))
    ensures Execute(items, handles).Some? && Execute(rewired, handles).Some?
    ensures var last := Last(items, start);
            && last in Execute(items, handles).value && last in Execute(rewired, handles).value
            && Execute(items, handles).value[last] == handles[start] + (front + ([RECORD] + back))
            && Execute(rewired, handles).value[last] == handles[start] + (front + ([UNBATCH] + ([RECORD] + back)))
  {
    rewired := Rewire(items);
    front, back := Splice(items, start);
    LinearExecutes(items, start, handles);
    LinearExecutes(rewired, start, handles);
    hide *;
    BatchModel(items);
  }

  /** A repointed use reads the unbatched handle itself exactly when it read the old one itself. */
  lemma RepointExact(t: Item)
    requires Consumes(t)
    ensures Repoint(t).operand == UNBATCHED <==> t.operand == GEMV
  {
    var rest := t.operand[|GEMV|..];
    assert t.operand == GEMV + rest;
    assert (UNBATCHED + rest == UNBATCHED) == (rest == "") == (GEMV + rest == GEMV);
  }

  lemma OneItem(t: Item)
    ensures UnmarkItems([t]) == [Unmarked(t)] && Rewire([t]) == [Repoint(Unmarked(t))]
    ensures MarkedItems([t]) == if t.Apply? && t.marked then 1 else 0
    ensures Consumers([t]) == if Consumes(t) then 1 else 0
    ensures AllClean([t]) <==> Clean(t)
  {
    hide Consumes, Repoint, Unmarked, Clean;
    assert [t][1..] == [];
  }

  lemma TwoItems(t: Item, u: Item)
    ensures UnmarkItems([t, u]) == [Unmarked(t), Unmarked(u)]
    ensures Rewire([t, u]) == [Repoint(Unmarked(t)), Repoint(Unmarked(u))]
    ensures MarkedItems([t, u]) == (if t.Apply? && t.marked then 1 else 0) + if u.Apply? && u.marked then 1 else 0
    ensures Consumers([t, u]) == (if Consumes(t) then 1 else 0) + if Consumes(u) then 1 else 0
    ensures AllClean([t, u]) <==> Clean(t) && Clean(u)
  {
    hide Consumes, Repoint, Unmarked, Clean;
    assert [t, u][1..] == [u];
    OneItem(u);
  }

  lemma TwoExecute(t: Item, u: Item, handles: Handles)
    requires t.Apply? && u.Apply? && !u.marked
    ensures t.marked ==> (Execute([t, u], handles).Some? <==> u.operand in handles)
    ensures !t.marked && t.operand in handles ==>
              (Execute([t, u], handles).Some? <==> u.operand in handles || u.operand == t.result)
  {
    assert [t, u][1..] == [u];
    OneExecute(u, handles);
    if t.operand in handles {
      OneExecute(u, handles[t.result := handles[t.operand] + [t.pass]]);
    }
  }

  lemma OneExecute(t: Item, handles: Handles)
    requires t.Apply? && !t.marked
    ensures Execute([t], handles).Some? <==> t.operand in handles
  {
    assert [t][1..] == [];
  }

  /** A recording pass that reads a handle whose name is the old one's and more. */
  const LONGER := Apply(false, "", "r", RECORD, "gemv_funcs2")

  const COMMENTED := Apply(true, "", UNBATCHED, UNBATCH, GEMV)

  /**
   The search matches a prefix of the operand, so a use of `%gemv_funcs2` is taken for the one
   of `%gemv_funcs`: the flag succeeds on a spec that ran before, and leaves one whose
   recording pass reads `%unbatched_funcs2`, which nothing defines.
   */
  lemma LongerHandleBreaks(handles: Handles)
    requires GEMV in handles && "gemv_funcs2" in handles && "unbatched_funcs2" !in handles
    ensures Execute([COMMENTED, LONGER], handles).Some?
    ensures var left := [Unmarked(COMMENTED), LONGER.(operand := "unbatched_funcs2")];
            && EnableBatchMatmul(Print([COMMENTED, LONGER])) == Ok(Rewritten(Print(left), 3))
            && Execute(left, handles).None?
  {
    var read := LONGER.(operand := "unbatched_funcs2");
    LongerConsumes();
    assert LONGER.operand == "gemv_funcs2" && Unmarked(LONGER) == LONGER && read.operand == "unbatched_funcs2";
    UnbatchStays(COMMENTED);
    assert COMMENTED.marked && !LONGER.marked && Unmarked(COMMENTED).operand == GEMV;
    assert Unmarked(COMMENTED).result == UNBATCHED;
    assert UNBATCHED != "unbatched_funcs2" by {
      assert |"unbatched_funcs2"| == |UNBATCHED| + 1;
    }
    hide *;
    TwoItems(COMMENTED, LONGER);
    TwoItems(Unmarked(COMMENTED), LONGER);
    TwoExecute(COMMENTED, LONGER, handles);
    TwoExecute(Unmarked(COMMENTED), read, handles);
    BatchModel([COMMENTED, LONGER]);
  }

  lemma LongerConsumes()
    ensures Consumes(LONGER) && Repoint(LONGER) == LONGER.(operand := "unbatched_funcs2")
    ensures Clean(COMMENTED) && Clean(LONGER)
  {
    LongerNames();
    AllSymbols();
    QuietPasses();
    hide Symbol, Indent;
  }

  lemma LongerNames()
    ensures GEMV <= "gemv_funcs2" && UNBATCHED + ("gemv_funcs2")[|GEMV|..] == "unbatched_funcs2"
  {
  }

  lemma AllSymbols()
    ensures Symbol("gemv_funcs2") && Symbol(GEMV) && Symbol(UNBATCHED) && Symbol("r") && Indent("")
  {
  }

  lemma QuietPasses()
    ensures '\n' !in RECORD && '"' !in RECORD && '\n' !in UNBATCH && '"' !in UNBATCH
  {
  }
}
