/**
 What the scanners of rocket-compiler/src/decisions.rs read of any text whatever: string literals are
 single tokens, brackets outside them nest, and what closes nothing is passed over.
 */
module Lexing {
  import opened Text
  import opened Scanner
  import opened Decisions

  // ----- tokens -----

  /** A character of a string literal, or a backslash and the character it escapes. */
  datatype Unit = Raw(c: char) | Esc(c: char)

  /** A string literal, or a character outside of one. */
  datatype Token = Literal(units: seq<Unit>) | Ch(c: char)

  /** What a text ends in: nothing, or a literal that is not closed, a lone backslash behind it perhaps. */
  datatype End = Closed | Open(units: seq<Unit>, backslash: bool)

  function UnitText(u: Unit): string {
    match u case Raw(c) => [c] case Esc(c) => ['\\', c]
  }

  function UnitsText(us: seq<Unit>): string {
    if us == [] then "" else UnitText(us[0]) + UnitsText(us[1..])
  }

  function TokenText(t: Token): string {
    match t case Literal(us) => "\"" + UnitsText(us) + "\"" case Ch(c) => [c]
  }

  function TokensText(ts: seq<Token>): string {
    if ts == [] then "" else TokenText(ts[0]) + TokensText(ts[1..])
  }

  function EndText(e: End): string {
    match e
    case Closed => ""
    case Open(us, backslash) => "\"" + UnitsText(us) + if backslash then "\\" else ""
  }

  predicate UnitsOk(us: seq<Unit>) {
    us != [] ==> (us[0].Raw? ==> us[0].c != '"' && us[0].c != '\\') && UnitsOk(us[1..])
  }

  predicate TokenOk(t: Token) {
    match t case Literal(us) => UnitsOk(us) case Ch(c) => c != '"'
  }

  predicate TokensOk(ts: seq<Token>) {
    ts != [] ==> TokenOk(ts[0]) && TokensOk(ts[1..])
  }

  predicate EndOk(e: End) {
    e.Open? ==> UnitsOk(e.units)
  }

  /** The units of a literal, up to its closing quote or the end of the text. */
  lemma {:induction false} Units(s: string) returns (us: seq<Unit>, closed: bool, backslash: bool, rest: string)
    ensures UnitsOk(us) && |rest| <= |s|
    ensures closed ==> s == UnitsText(us) + "\"" + rest && |rest| < |s|
    ensures !closed ==> s == UnitsText(us) + if backslash then "\\" else ""
  {
    if s == "" {
      us, closed, backslash, rest := [], false, false, "";
    } else if s[0] == '"' {
      us, closed, backslash, rest := [], true, false, s[1..];
      assert s == "" + "\"" + s[1..];
    } else if s == "\\" {
      us, closed, backslash, rest := [], false, true, "";
      assert s == "" + "\\";
    } else {
      var u := if s[0] == '\\' then Esc(s[1]) else Raw(s[0]);
      var more;
      more, closed, backslash, rest := Units(s[|UnitText(u)|..]);
      us := [u] + more;
      assert us[1..] == more;
      UnitsMore(s, u, more, closed, backslash, rest);
    }
  }

  lemma UnitsMore(s: string, u: Unit, more: seq<Unit>, closed: bool, backslash: bool, rest: string)
    requires |UnitText(u)| <= |s| && s[..|UnitText(u)|] == UnitText(u)
    requires closed ==> s[|UnitText(u)|..] == UnitsText(more) + "\"" + rest
    requires !closed ==> s[|UnitText(u)|..] == UnitsText(more) + if backslash then "\\" else ""
    ensures closed ==> s == UnitsText([u] + more) + "\"" + rest
    ensures !closed ==> s == UnitsText([u] + more) + if backslash then "\\" else ""
  {
    var k := |UnitText(u)|;
    assert ([u] + more)[1..] == more;
    assert s == s[..k] + s[k..];
    hide UnitsText;
  }

  lemma TokenFront(t: Token, more: seq<Token>, e: End, s: string)
    requires TokenOk(t) && TokensOk(more) && s == TokenText(t) + (TokensText(more) + EndText(e))
    ensures TokensOk([t] + more) && s == TokensText([t] + more) + EndText(e)
  {
    hide EndText, TokenText, TokenOk;
    assert ([t] + more)[1..] == more;
    ConcatAssoc(TokenText(t), TokensText(more), EndText(e));
  }

  lemma LiteralFront(us: seq<Unit>, s: string, rest: string)
    requires s != "" && s[0] == '"' && s[1..] == UnitsText(us) + "\"" + rest
    ensures s == TokenText(Literal(us)) + rest
  {
    hide UnitsText;
    assert s == "\"" + s[1..];
  }

  lemma OpenFront(us: seq<Unit>, backslash: bool, s: string)
    requires s != "" && s[0] == '"' && s[1..] == UnitsText(us) + if backslash then "\\" else ""
    ensures s == TokensText([]) + EndText(Open(us, backslash))
  {
    hide UnitsText;
    assert s == "\"" + s[1..];
  }

  /** Every text is tokens and an end. */
  lemma {:induction false} Lex(s: string) returns (ts: seq<Token>, e: End)
    ensures TokensOk(ts) && EndOk(e) && s == TokensText(ts) + EndText(e)
    decreases |s|
  {
    hide *;
    if s == "" {
      ts, e := [], Closed;
      Nothing();
    } else if s[0] == '"' {
      var us, closed, backslash, rest := Units(s[1..]);
      LiteralOk(us, backslash);
      if closed {
        var more;
        more, e := Lex(rest);
        LiteralFront(us, s, rest);
        TokenFront(Literal(us), more, e, s);
        ts := [Literal(us)] + more;
      } else {
        ts, e := [], Open(us, backslash);
        OpenFront(us, backslash, s);
      }
    } else {
      var more;
      CharOk(s[0]);
      more, e := Lex(s[1..]);
      assert s == [s[0]] + s[1..];
      TokenFront(Ch(s[0]), more, e, s);
      ts := [Ch(s[0])] + more;
    }
  }

  lemma LiteralOk(us: seq<Unit>, backslash: bool)
    requires UnitsOk(us)
    ensures TokenOk(Literal(us)) && EndOk(Open(us, backslash)) && TokensOk([])
  {
    hide UnitsOk;
  }

  lemma Nothing()
    ensures TokensOk([]) && EndOk(Closed) && "" == TokensText([]) + EndText(Closed)
  {
  }

  lemma CharOk(c: char)
    requires c != '"'
    ensures TokenOk(Ch(c)) && TokenText(Ch(c)) == [c]
  {
  }

  // ----- nesting -----

  /** The depth after a token: brackets nest, and one that closes nothing is passed over. */
  function Deeper(depth: nat, t: Token, opens: string, closes: string): nat {
    if t.Ch? && t.c in opens then depth + 1
    else if t.Ch? && t.c in closes && depth > 0 then depth - 1
    else depth
  }

  lemma {:induction false} InLiteral(us: seq<Unit>, st: Scan, level: nat, mark: char, opens: string, closes: string)
    requires UnitsOk(us) && st.inString && !st.escaped
    ensures Run(UnitsText(us), st, opens, closes) == st
    ensures Passes(UnitsText(us), st, level, mark, opens, closes)
    ensures !Stops(st, '"', level, mark)
  {
    if us != [] {
      var text := UnitText(us[0]);
      InLiteral(us[1..], st, level, mark, opens, closes);
      RunConcat(text, UnitsText(us[1..]), st, level, mark, opens, closes);
      assert text[1..] == "" || text[1..] == [text[1]];
      assert us[0].Esc? ==> text[1..][1..] == "";
    }
  }

  /** A literal neither halts the scanner, unless its quote is the mark, nor changes its state. */
  lemma LiteralOver(us: seq<Unit>, st: Scan, level: nat, mark: char, opens: string, closes: string)
    requires UnitsOk(us) && !st.inString && !st.escaped && mark != '"'
    ensures var text := "\"" + UnitsText(us) + "\"";
            Run(text, st, opens, closes) == st && Passes(text, st, level, mark, opens, closes)
  {
    var body := UnitsText(us);
    var inside := st.(inString := true);
    InLiteral(us, inside, level, mark, opens, closes);
    RunConcat(body, "\"", inside, level, mark, opens, closes);
    assert "\""[1..] == "";
    var text := "\"" + body + "\"";
    assert text[0] == '"' && text[1..] == body + "\"";
    hide UnitsText;
  }

  /** Nor does a literal that is not closed halt it. */
  lemma OpenOver(e: End, st: Scan, level: nat, mark: char, opens: string, closes: string)
    requires EndOk(e) && !st.inString && !st.escaped && mark != '"'
    ensures Passes(EndText(e), st, level, mark, opens, closes)
  {
    if e.Open? {
      var body, tail := UnitsText(e.units), if e.backslash then "\\" else "";
      var inside := st.(inString := true);
      InLiteral(e.units, inside, level, mark, opens, closes);
      RunConcat(body, tail, inside, level, mark, opens, closes);
      assert tail != "" ==> tail[1..] == "";
      var text := "\"" + body + tail;
      assert text[0] == '"' && text[1..] == body + tail;
      hide UnitsText;
    }
  }

  // ----- splitting -----

  /** The parts: a cut at every separator that stands outside of literals and brackets. */
  function Pieces(acc: string, ts: seq<Token>, e: End, depth: nat, separator: char): seq<string>
    decreases |ts|
  {
    if ts == [] then [acc + EndText(e)]
    else if ts[0] == Ch(separator) && depth == 0 then [acc] + Pieces("", ts[1..], e, 0, separator)
    else Pieces(acc + TokenText(ts[0]), ts[1..], e, Deeper(depth, ts[0], "([{", ")]}"), separator)
  }

  /** A separator that is neither a quote nor a bracket. */
  predicate Separates(c: char) {
    c != '"' && c !in "([{" && c !in ")]}"
  }

  lemma BracketsAre()
    ensures OPENS == "([{" && CLOSES == ")]}"
  {
  }

  lemma SplitLiteral(acc: string, us: seq<Unit>, rest: string, st: Scan, separator: char)
    requires UnitsOk(us) && !st.inString && !st.escaped && Separates(separator)
    ensures var text := TokenText(Literal(us));
            SplitFrom(acc, text + rest, st, separator) == SplitFrom(acc + text, rest, st, separator)
  {
    assert separator != '"';
    hide *;
    var text := TokenText(Literal(us));
    LiteralText(us);
    LiteralOver(us, st, 0, separator, OPENS, CLOSES);
    PassesNoCut(text, st, separator);
    SplitOver(acc, text, rest, st, separator);
  }

  lemma LiteralText(us: seq<Unit>)
    ensures TokenText(Literal(us)) == "\"" + UnitsText(us) + "\""
  {
  }

  lemma {:induction false} PiecesAre(acc: string, ts: seq<Token>, e: End, depth: nat, separator: char)
    requires TokensOk(ts) && EndOk(e) && Separates(separator)
    ensures SplitFrom(acc, TokensText(ts) + EndText(e), Scan(depth, false, false), separator) ==
            Pieces(acc, ts, e, depth, separator)
    decreases |ts|
  {
    hide *;
    var st := Scan(depth, false, false);
    if ts == [] {
      SplitEnd(acc, e, st, separator);
      PiecesEnd(acc, e, depth, separator);
    } else {
      var t, rest := ts[0], TokensText(ts[1..]) + EndText(e);
      TokensHead(ts, e);
      match t {
        case Literal(us) =>
          SplitLiteral(acc, us, rest, st, separator);
          PiecesLiteral(acc, ts, e, depth, separator);
          PiecesAre(acc + TokenText(t), ts[1..], e, depth, separator);
        case Ch(c) =>
          SplitChar(acc, c, rest, st, separator);
          PiecesChar(acc, ts, e, depth, separator);
          if c == separator && depth == 0 {
            PiecesAre("", ts[1..], e, 0, separator);
          } else {
            PiecesAre(acc + [c], ts[1..], e, Deeper(depth, t, "([{", ")]}"), separator);
          }
      }
    }
  }

  lemma TokensHead(ts: seq<Token>, e: End)
    requires ts != [] && TokensOk(ts)
    ensures TokensText(ts) + EndText(e) == TokenText(ts[0]) + (TokensText(ts[1..]) + EndText(e))
    ensures TokensOk(ts[1..])
    ensures match ts[0] case Literal(us) => UnitsOk(us) case Ch(c) => c != '"' && TokenText(ts[0]) == [c]
  {
    ConcatAssoc(TokenText(ts[0]), TokensText(ts[1..]), EndText(e));
    hide UnitsOk, UnitsText, EndText;
  }

  lemma SplitEnd(acc: string, e: End, st: Scan, separator: char)
    requires EndOk(e) && Separates(separator) && !st.inString && !st.escaped
    ensures SplitFrom(acc, TokensText([]) + EndText(e), st, separator) == [acc + EndText(e)]
  {
    var tail := EndText(e);
    OpenOver(e, st, 0, separator, OPENS, CLOSES);
    PassesNoCut(tail, st, separator);
    hide EndText, EndOk, Passes, NoCut, Run, Step;
    SplitOver(acc, tail, "", st, separator);
    assert "" + tail == tail && tail + "" == tail;
  }

  lemma PiecesEnd(acc: string, e: End, depth: nat, separator: char)
    ensures Pieces(acc, [], e, depth, separator) == [acc + EndText(e)]
  {
  }

  lemma SplitChar(acc: string, c: char, rest: string, st: Scan, separator: char)
    requires c != '"' && Separates(separator) && !st.inString && !st.escaped
    ensures SplitFrom(acc, [c] + rest, st, separator) ==
            if c == separator && st.depth == 0 then [acc] + SplitFrom("", rest, Scan(0, false, false), separator)
            else SplitFrom(acc + [c], rest, Scan(Deeper(st.depth, Ch(c), "([{", ")]}"), false, false), separator)
  {
    BracketsAre();
    assert ([c] + rest)[1..] == rest;
  }

  lemma PiecesLiteral(acc: string, ts: seq<Token>, e: End, depth: nat, separator: char)
    requires ts != [] && ts[0].Literal?
    ensures Pieces(acc, ts, e, depth, separator) == Pieces(acc + TokenText(ts[0]), ts[1..], e, depth, separator)
  {
    hide EndText, TokenText;
  }

  lemma PiecesChar(acc: string, ts: seq<Token>, e: End, depth: nat, separator: char)
    requires ts != [] && ts[0].Ch?
    ensures Pieces(acc, ts, e, depth, separator) ==
            if ts[0].c == separator && depth == 0 then [acc] + Pieces("", ts[1..], e, 0, separator)
            else Pieces(acc + [ts[0].c], ts[1..], e, Deeper(depth, ts[0], "([{", ")]}"), separator)
  {
    hide EndText, Deeper;
  }

  /** Splitting any text cuts it at the separators outside of literals and brackets, and nowhere else. */
  lemma SplitExact(ts: seq<Token>, e: End, separator: char)
    requires TokensOk(ts) && EndOk(e) && Separates(separator)
    ensures TopLevelSplit(TokensText(ts) + EndText(e), separator) == Pieces("", ts, e, 0, separator)
  {
    PiecesAre("", ts, e, 0, separator);
  }

  // ----- groups -----

  /** The text up to the bracket that closes the first one, if any does. */
  function Enclosed(acc: string, ts: seq<Token>, depth: nat, open: char, close: char): Option<string>
    decreases |ts|
  {
    if ts == [] then None
    else if ts[0] == Ch(close) && depth == 1 then Some(acc)
    else Enclosed(acc + TokenText(ts[0]), ts[1..], Deeper(depth, ts[0], [open], [close]), open, close)
  }

  lemma {:induction false} EnclosedIs(acc: string, ts: seq<Token>, e: End, depth: nat, open: char, close: char)
    requires TokensOk(ts) && EndOk(e) && close != '"' && open != '"' && open != close
    ensures Scanner.Inner(acc, TokensText(ts) + EndText(e), Scan(depth, false, false), open, close) ==
            Enclosed(acc, ts, depth, open, close)
    decreases |ts|
  {
    var st := Scan(depth, false, false);
    if ts == [] {
      var tail := EndText(e);
      OpenOver(e, st, 1, close, [open], [close]);
      InnerOver(acc, tail, "", st, open, close);
      assert "" + tail == tail && tail + "" == tail;
    } else {
      var t, rest := ts[0], TokensText(ts[1..]) + EndText(e);
      ConcatAssoc(TokenText(t), TokensText(ts[1..]), EndText(e));
      match t {
        case Literal(us) =>
          hide UnitsText, UnitsOk, EndText, Step, Passes, Run;
          LiteralOver(us, st, 1, close, [open], [close]);
          InnerOver(acc, TokenText(t), rest, st, open, close);
          EnclosedIs(acc + TokenText(t), ts[1..], e, depth, open, close);
        case Ch(c) =>
          assert ([c] + rest)[1..] == rest;
          if !(c == close && depth == 1) {
            EnclosedIs(acc + [c], ts[1..], e, Deeper(depth, t, [open], [close]), open, close);
          }
      }
    }
  }

  /**
   On any text, the group of the first opening bracket is what stands before the bracket that closes
   it, those in literals aside; there is none without an opening bracket or when nothing closes it.
   */
  lemma BalancedExact(front: string, ts: seq<Token>, e: End, open: char, close: char)
    requires open !in front && TokensOk(ts) && EndOk(e) && close != '"' && open != '"' && open != close
    ensures Balanced(front, open, close) == None
    ensures Balanced(front + [open] + (TokensText(ts) + EndText(e)), open, close) == Enclosed("", ts, 1, open, close)
  {
    CharFree(front, [open], open);
    var rest := TokensText(ts) + EndText(e);
    FirstIs(open, rest);
    assert BorderFree([open]);
    FindAfter(front, [open], rest);
    assert (front + [open] + rest)[|front| + 1..] == rest;
    EnclosedIs("", ts, e, 1, open, close);
  }

  // ----- values -----

  /** What a unit of a literal stands for: only `\n` and `\t` are undone. */
  function Meaning(us: seq<Unit>): string {
    if us == [] then ""
    else
      [match us[0] case Raw(c) => c case Esc(c) => if c == 'n' then '\n' else if c == 't' then '\t' else c]
      + Meaning(us[1..])
  }

  lemma {:induction false} UnescapeIs(us: seq<Unit>, rest: string)
    requires UnitsOk(us) && (rest == "" || rest == "\\" || rest[0] == '"')
    ensures Unescape(UnitsText(us) + rest) == Meaning(us)
  {
    if us == [] {
      assert "" + rest == rest;
    } else {
      UnescapeIs(us[1..], rest);
      ConcatAssoc(UnitText(us[0]), UnitsText(us[1..]), rest);
      var u, tail := us[0], UnitsText(us[1..]) + rest;
      hide UnitsText;
      UnescapeUnit(u, tail);
    }
  }

  lemma UnescapeUnit(u: Unit, tail: string)
    requires u.Raw? ==> u.c != '"' && u.c != '\\'
    ensures Unescape(UnitText(u) + tail) ==
            [match u case Raw(c) => c case Esc(c) => if c == 'n' then '\n' else if c == 't' then '\t' else c]
            + Unescape(tail)
  {
    assert (UnitText(u) + tail)[|UnitText(u)|..] == tail;
  }

  /** Any value: a literal means what its units stand for, whatever follows it, closed or not; the rest is kept. */
  lemma UnquoteExact(us: seq<Unit>, backslash: bool, rest: string, bare: string)
    requires UnitsOk(us) && (bare == "" || bare[0] != '"')
    ensures Unquote("\"" + (UnitsText(us) + "\"" + rest)) == Meaning(us)
    ensures Unquote(EndText(Open(us, backslash))) == Meaning(us)
    ensures Unquote(bare) == bare
  {
    UnescapeIs(us, "\"" + rest);
    assert UnitsText(us) + "\"" + rest == UnitsText(us) + ("\"" + rest);
    UnescapeIs(us, if backslash then "\\" else "");
    var t := UnitsText(us) + if backslash then "\\" else "";
    assert EndText(Open(us, backslash)) == "\"" + t;
    assert ("\"" + t)[1..] == t;
    assert ("\"" + (UnitsText(us) + "\"" + rest))[1..] == UnitsText(us) + "\"" + rest;
  }

  /** A text names no symbol exactly when it has no `@`, or a quote behind the first one that is not closed. */
  lemma NoSymbolExact(text: string)
    ensures SymbolName(text).None? <==>
            forall i :: 0 <= i < |text| && text[i] == '@' && '@' !in text[..i] ==>
                          i + 1 < |text| && text[i + 1] == '"' && '"' !in text[i + 2..]
  {
    FindSpec(text, "@");
    match Find(text, "@")
    case None =>
      forall i | 0 <= i < |text| ensures text[i] != '@' {
        assert !OccursAt(text, i, "@");
      }
    case Some(at) =>
      assert text[at + 0] == "@"[0];
      forall j | 0 <= j < at ensures text[j] != '@' {
        assert !OccursAt(text, j, "@");
      }
      var rest := text[at + 1..];
      if rest != "" && rest[0] == '"' {
        assert rest[1..] == text[at + 2..];
        QuoteFound(rest[1..]);
      }
      assert forall i :: at < i <= |text| ==> text[..i][at] == '@';
  }

  lemma QuoteFound(s: string)
    ensures Find(s, "\"").Some? <==> '"' in s
  {
    FindSpec(s, "\"");
    if Find(s, "\"").Some? {
      assert s[Find(s, "\"").value + 0] == "\""[0];
    } else {
      forall i | 0 <= i < |s| ensures s[i] != '"' {
        assert !OccursAt(s, i, "\"");
      }
    }
  }
}
