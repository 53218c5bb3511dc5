/**
 The quote- and nesting-aware scanners of rocket-compiler/src/decisions.rs.

 One machine serves them all: it tracks string literals, escapes in them, and the nesting
 depth of a set of brackets.  `top_level_split` stops at a separator at depth 0,
 `balanced` at the closing bracket that ends depth 1.
 */
module Scanner {
  import opened Text

  datatype Scan = Scan(depth: nat, inString: bool, escaped: bool)

  const START := Scan(0, false, false)

  /** One character; `opens` and `closes` are the brackets that count. */
  function Step(st: Scan, c: char, opens: string, closes: string): Scan {
    if st.inString then
      if st.escaped then st.(escaped := false)
      else if c == '\\' then st.(escaped := true)
      else if c == '"' then st.(inString := false)
      else st
    else if c == '"' then st.(inString := true)
    else if c in opens then st.(depth := st.depth + 1)
    else if c in closes then st.(depth := if st.depth == 0 then 0 else st.depth - 1)
    else st
  }

  /** The scanner halts before `c`: outside strings, at the given depth, on the given mark. */
  predicate Stops(st: Scan, c: char, level: nat, mark: char) {
    !st.inString && c == mark && st.depth == level
  }

  function Run(text: string, st: Scan, opens: string, closes: string): Scan {
    if text == "" then st else Run(text[1..], Step(st, text[0], opens, closes), opens, closes)
  }

  /** Nothing in `text` halts the scanner. */
  predicate Passes(text: string, st: Scan, level: nat, mark: char, opens: string, closes: string) {
    text != "" ==>
      && !Stops(st, text[0], level, mark)
      && Passes(text[1..], Step(st, text[0], opens, closes), level, mark, opens, closes)
  }

  lemma {:induction false} RunConcat(a: string, b: string, st: Scan, level: nat,
                                      mark: char, opens: string, closes: string)
    ensures Run(a + b, st, opens, closes) == Run(b, Run(a, st, opens, closes), opens, closes)
    ensures Passes(a + b, st, level, mark, opens, closes) <==>
            Passes(a, st, level, mark, opens, closes)
            && Passes(b, Run(a, st, opens, closes), level, mark, opens, closes)
  {
    if a == "" {
      assert a + b == b;
    } else {
      assert (a + b)[1..] == a[1..] + b;
      RunConcat(a[1..], b, Step(st, a[0], opens, closes), level, mark, opens, closes);
    }
  }

  // ----- splitting -----

  const OPENS := "([{"
  const CLOSES := ")]}"

  /** The separator is looked for after quotes and brackets. */
  predicate Cuts(st: Scan, c: char, separator: char) {
    c != '"' && c !in OPENS && c !in CLOSES && Stops(st, c, 0, separator)
  }

  /** The parts of `acc + text`, when `acc` has been scanned to state `st`. */
  function SplitFrom(acc: string, text: string, st: Scan, separator: char): seq<string>
    decreases |text|
  {
    if text == "" then [acc]
    else if Cuts(st, text[0], separator) then [acc] + SplitFrom("", text[1..], st, separator)
    else SplitFrom(acc + [text[0]], text[1..], Step(st, text[0], OPENS, CLOSES), separator)
  }

  /** `top_level_split` */
  function TopLevelSplit(text: string, separator: char): seq<string> {
    SplitFrom("", text, START, separator)
  }

  /** Nothing in `text` is a cut. */
  predicate NoCut(text: string, st: Scan, separator: char) {
    text != "" ==>
      !Cuts(st, text[0], separator) && NoCut(text[1..], Step(st, text[0], OPENS, CLOSES), separator)
  }

  lemma {:induction false} PassesNoCut(text: string, st: Scan, separator: char)
    requires Passes(text, st, 0, separator, OPENS, CLOSES)
    ensures NoCut(text, st, separator)
  {
    if text != "" {
      PassesNoCut(text[1..], Step(st, text[0], OPENS, CLOSES), separator);
    }
  }

  lemma {:induction false} NoCutConcat(a: string, b: string, st: Scan, separator: char)
    ensures Run(a + b, st, OPENS, CLOSES) == Run(b, Run(a, st, OPENS, CLOSES), OPENS, CLOSES)
    ensures NoCut(a + b, st, separator) <==>
            NoCut(a, st, separator) && NoCut(b, Run(a, st, OPENS, CLOSES), separator)
  {
    if a == "" {
      assert a + b == b;
    } else {
      assert (a + b)[1..] == a[1..] + b;
      NoCutConcat(a[1..], b, Step(st, a[0], OPENS, CLOSES), separator);
    }
  }

  /** Scanning text that does not halt moves it into the current part. */
  lemma {:induction false} SplitOver(acc: string, a: string, rest: string, st: Scan, separator: char)
    requires NoCut(a, st, separator)
    ensures SplitFrom(acc, a + rest, st, separator) ==
            SplitFrom(acc + a, rest, Run(a, st, OPENS, CLOSES), separator)
    decreases |a|
  {
    if a == "" {
      assert a + rest == rest && acc + a == acc;
    } else {
      assert (a + rest)[1..] == a[1..] + rest;
      SplitOver(acc + [a[0]], a[1..], rest, Step(st, a[0], OPENS, CLOSES), separator);
      assert acc + [a[0]] + a[1..] == acc + a;
    }
  }

  /** Joining the parts gives the text back, whatever it is. */
  lemma {:induction false} SplitLossless(acc: string, text: string, st: Scan, separator: char)
    ensures SplitFrom(acc, text, st, separator) != []
    ensures Join(SplitFrom(acc, text, st, separator), [separator]) == acc + text
    decreases |text|
  {
    if text == "" {
      assert acc + text == acc;
    } else if Cuts(st, text[0], separator) {
      var rest := SplitFrom("", text[1..], st, separator);
      SplitLossless("", text[1..], st, separator);
      assert ([acc] + rest)[1..] == rest;
      assert acc + [separator] + ("" + text[1..]) == acc + text;
    } else {
      SplitLossless(acc + [text[0]], text[1..], Step(st, text[0], OPENS, CLOSES), separator);
      assert acc + [text[0]] + text[1..] == acc + text;
    }
  }

  /** Every part, scanned on its own, halts nowhere. */
  lemma {:induction false} PartsWhole(acc: string, text: string, st: Scan, separator: char)
    requires st.escaped ==> st.inString
    requires NoCut(acc, START, separator) && Run(acc, START, OPENS, CLOSES) == st
    ensures forall p :: p in SplitFrom(acc, text, st, separator) ==> NoCut(p, START, separator)
    decreases |text|
  {
    if text == "" {
    } else if Cuts(st, text[0], separator) {
      // the scanner is back where it started
      assert st == START;
      PartsWhole("", text[1..], st, separator);
    } else {
      NoCutConcat(acc, [text[0]], START, separator);
      PartsWhole(acc + [text[0]], text[1..], Step(st, text[0], OPENS, CLOSES), separator);
    }
  }

  /**
   Splitting is lossless and canonical: the parts join to the text, and each part splits
   into just itself; on every text, with unbalanced brackets or open strings too.
   */
  lemma SplitCanonical(text: string, separator: char)
    ensures Join(TopLevelSplit(text, separator), [separator]) == text
    ensures forall p :: p in TopLevelSplit(text, separator) ==> TopLevelSplit(p, separator) == [p]
  {
    SplitLossless("", text, START, separator);
    assert "" + text == text;
    PartsWhole("", text, START, separator);
    forall p | p in TopLevelSplit(text, separator) ensures TopLevelSplit(p, separator) == [p] {
      SplitOver("", p, "", START, separator);
      assert p + "" == p && "" + p == p;
    }
  }

  // ----- balanced groups -----

  /** The text up to the closing bracket that ends depth 1. */
  function Inner(acc: string, text: string, st: Scan, open: char, close: char): (r: Option<string>)
    ensures r.Some? ==> |r.value| < |acc| + |text|
    decreases |text|
  {
    if text == "" then None
    else if Stops(st, text[0], 1, close) then Some(acc)
    else Inner(acc + [text[0]], text[1..], Step(st, text[0], [open], [close]), open, close)
  }

  /** `balanced`: the text between the first `open` and its matching `close`. */
  function Balanced(text: string, open: char, close: char): (r: Option<string>)
    ensures r.Some? ==> |r.value| + 2 <= |text|
  {
    match Find(text, [open])
    case None => None
    case Some(i) => Inner("", text[i + 1..], Scan(1, false, false), open, close)
  }

  /** `top_level_groups` */
  function TopLevelGroups(text: string, open: char, close: char): seq<string>
    decreases |text|
  {
    match Find(text, [open])
    case None => []
    case Some(i) =>
      match Balanced(text[i..], open, close)
      case None => []
      case Some(g) => [g] + TopLevelGroups(text[i + |g| + 2..], open, close)
  }

  lemma {:induction false} InnerOver(acc: string, a: string, rest: string, st: Scan, open: char, close: char)
    requires Passes(a, st, 1, close, [open], [close])
    ensures Inner(acc, a + rest, st, open, close) == Inner(acc + a, rest, Run(a, st, [open], [close]), open, close)
    decreases |a|
  {
    if a == "" {
      assert a + rest == rest && acc + a == acc;
    } else {
      assert (a + rest)[1..] == a[1..] + rest;
      InnerOver(acc + [a[0]], a[1..], rest, Step(st, a[0], [open], [close]), open, close);
      assert acc + [a[0]] + a[1..] == acc + a;
    }
  }

  lemma FirstIs(c: char, s: string)
    ensures Find([c] + s, [c]) == Some(0)
  {
  }

  /** A group whose content neither halts the scanner nor changes its state is read whole. */
  lemma BalancedIs(body: string, rest: string, open: char, close: char)
    requires Passes(body, Scan(1, false, false), 1, close, [open], [close])
    requires Run(body, Scan(1, false, false), [open], [close]) == Scan(1, false, false)
    ensures Balanced([open] + body + [close] + rest, open, close) == Some(body)
  {
    hide Find, FindFrom, Passes, Run;
    var text := [open] + body + [close] + rest;
    FirstIs(open, body + [close] + rest);
    assert text == [open] + (body + [close] + rest);
    assert text[1..] == body + ([close] + rest);
    InnerOver("", body, [close] + rest, Scan(1, false, false), open, close);
    assert "" + body == body;
    assert ([close] + rest)[0] == close;
  }

  // ----- the loops of the source -----

  method RunTopLevelSplit(text: string, separator: char) returns (parts: seq<string>)
    ensures parts == TopLevelSplit(text, separator)
  {
    parts := [];
    var acc, rest, st := "", text, START;
    ConcatAssoc(SplitFrom("", text, START, separator), [], []);
    while rest != ""
      decreases |rest|
      invariant TopLevelSplit(text, separator) == parts + SplitFrom(acc, rest, st, separator)
    {
      var c := rest[0];
      if Cuts(st, c, separator) {
        ConcatAssoc(parts, [acc], SplitFrom("", rest[1..], st, separator));
        parts, acc := parts + [acc], "";
      } else {
        acc, st := acc + [c], Step(st, c, OPENS, CLOSES);
      }
      rest := rest[1..];
    }
    parts := parts + [acc];
  }

  method RunBalanced(text: string, open: char, close: char) returns (r: Option<string>)
    ensures r == Balanced(text, open, close)
  {
    var start := Find(text, [open]);
    if start.None? {
      return None;
    }
    var acc, rest, st := "", text[start.value + 1..], Scan(1, false, false);
    while rest != ""
      decreases |rest|
      invariant Balanced(text, open, close) == Inner(acc, rest, st, open, close)
    {
      var c := rest[0];
      if Stops(st, c, 1, close) {
        return Some(acc);
      }
      acc, st, rest := acc + [c], Step(st, c, [open], [close]), rest[1..];
    }
    return None;
  }

  method RunTopLevelGroups(text: string, open: char, close: char) returns (groups: seq<string>)
    ensures groups == TopLevelGroups(text, open, close)
  {
    hide TopLevelGroups, Find, FindFrom, Balanced;
    groups := [];
    var rest := text;
    var offset := Find(rest, [open]);
    ConcatAssoc(TopLevelGroups(text, open, close), [], []);
    while offset.Some?
      invariant offset == Find(rest, [open])
      invariant TopLevelGroups(text, open, close) == groups + TopLevelGroups(rest, open, close)
      decreases |rest|
    {
      var group := RunBalanced(rest[offset.value..], open, close);
      GroupsUnfold(rest, open, close, offset.value);
      if group.None? {
        ConcatAssoc(groups, [], []);
        return;
      }
      rest := rest[offset.value + |group.value| + 2..];
      ConcatAssoc(groups, [group.value], TopLevelGroups(rest, open, close));
      groups := groups + [group.value];
      offset := Find(rest, [open]);
    }
    GroupsEnd(rest, open, close);
    ConcatAssoc(groups, [], []);
  }

  lemma GroupsEnd(text: string, open: char, close: char)
    requires Find(text, [open]) == None
    ensures TopLevelGroups(text, open, close) == []
  {
  }

  lemma GroupsUnfold(text: string, open: char, close: char, i: nat)
    requires Find(text, [open]) == Some(i)
    ensures TopLevelGroups(text, open, close) ==
            match Balanced(text[i..], open, close)
            case None => []
            case Some(g) => [g] + TopLevelGroups(text[i + |g| + 2..], open, close)
  {
  }
}
