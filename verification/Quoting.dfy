/**
 Quoted strings as MLIR prints them: what reading them gives, and that the scanners pass over them.
 */
module Quoting {
  import opened Text
  import opened Scanner
  import opened Decisions

  // ----- printing -----

  type Byte = b: nat | b < 256

  /** The bytes of a character in UTF-8. */
  function Utf8(c: char): seq<Byte> {
    var n := c as int;
    if n < 0x80 then [n]
    else if n < 0x800 then [0xC0 + n / 0x40, 0x80 + n % 0x40]
    else if n < 0x1_0000 then [0xE0 + n / 0x1000, 0x80 + n / 0x40 % 0x40, 0x80 + n % 0x40]
    else [0xF0 + n / 0x4_0000 % 8, 0x80 + n / 0x1000 % 0x40, 0x80 + n / 0x40 % 0x40, 0x80 + n % 0x40]
  }

  function HexDigit(n: nat): char
    requires n < 16
  {
    if n < 10 then '0' + n as char else 'A' + (n - 10) as char
  }

  function HexPair(b: Byte): string {
    [HexDigit(b / 16), HexDigit(b % 16)]
  }

  function HexEscapes(bytes: seq<Byte>): string {
    if bytes == [] then "" else "\\" + HexPair(bytes[0]) + HexEscapes(bytes[1..])
  }

  /** The hexadecimal digits without their backslashes. */
  function HexText(bytes: seq<Byte>): string {
    if bytes == [] then "" else HexPair(bytes[0]) + HexText(bytes[1..])
  }

  /** Printable ASCII other than the quote: what MLIR prints without a hexadecimal escape. */
  predicate PlainChar(c: char) {
    ' ' <= c <= '~' && c != '"'
  }

  /** MLIR's escaping: a backslash is doubled, a quote or nonprintable byte becomes a backslash and two digits. */
  function EscapeChar(c: char): string {
    if c == '\\' then "\\\\"
    else if PlainChar(c) then [c]
    else HexEscapes(Utf8(c))
  }

  function Escape(s: string): string {
    if s == "" then "" else EscapeChar(s[0]) + Escape(s[1..])
  }

  function Quote(s: string): string {
    "\"" + Escape(s) + "\""
  }

  // ----- reading -----

  /** Reading leaves the digits of a hexadecimal escape in place of the character. */
  function ShownChar(c: char): string {
    if PlainChar(c) then [c] else HexText(Utf8(c))
  }

  function Shown(s: string): string {
    if s == "" then "" else ShownChar(s[0]) + Shown(s[1..])
  }

  predicate Plain(s: string) {
    s != "" ==> PlainChar(s[0]) && Plain(s[1..])
  }

  /** Not even a backslash: printed as it is. */
  predicate Verbatim(s: string) {
    s != "" ==> PlainChar(s[0]) && s[0] != '\\' && Verbatim(s[1..])
  }

  lemma {:induction false} UnescapeEscape(s: string, rest: string)
    ensures Unescape(Escape(s) + "\"" + rest) == Shown(s)
  {
    if s == "" {
      assert Escape(s) + "\"" + rest == "\"" + rest;
    } else {
      hide EscapeChar, ShownChar;
      UnescapeEscape(s[1..], rest);
      var tail := Escape(s[1..]) + "\"" + rest;
      EscapeGroups(EscapeChar(s[0]), Escape(s[1..]), rest);
      UnescapeFirst(s[0], tail);
    }
  }

  lemma EscapeGroups(a: string, b: string, rest: string)
    ensures a + b + "\"" + rest == a + (b + "\"" + rest)
  {
  }

  lemma UnescapeFirst(c: char, tail: string)
    ensures Unescape(EscapeChar(c) + tail) == ShownChar(c) + Unescape(tail)
  {
    if c == '\\' {
      assert ("\\\\" + tail)[2..] == tail;
    } else if PlainChar(c) {
      assert ([c] + tail)[1..] == tail;
    } else {
      UnescapeHex(Utf8(c), tail);
    }
  }

  lemma {:induction false} UnescapeHex(bytes: seq<Byte>, tail: string)
    ensures Unescape(HexEscapes(bytes) + tail) == HexText(bytes) + Unescape(tail)
  {
    if bytes == [] {
      assert "" + tail == tail && "" + Unescape(tail) == Unescape(tail);
    } else {
      UnescapeHex(bytes[1..], tail);
      var pair := HexPair(bytes[0]);
      hide HexPair;
      UnescapePair(bytes[0], HexEscapes(bytes[1..]) + tail);
      ConcatAssoc("\\" + pair, HexEscapes(bytes[1..]), tail);
      ConcatAssoc(pair, HexText(bytes[1..]), Unescape(tail));
    }
  }

  lemma UnescapePair(b: Byte, tail: string)
    ensures Unescape("\\" + HexPair(b) + tail) == HexPair(b) + Unescape(tail)
  {
    var s := "\\" + HexPair(b) + tail;
    assert s[2..][1..] == tail && s[2..][0] == HexPair(b)[1];
    assert Unescape(s[2..]) == [HexPair(b)[1]] + Unescape(tail);
  }

  lemma HexLength(bytes: seq<Byte>)
    ensures |HexText(bytes)| == 2 * |bytes| && |HexEscapes(bytes)| == 3 * |bytes|
  {
  }

  /** Reading back shows a string as it was exactly when it is plain, and lengthens every other. */
  lemma {:induction false} ShownExact(s: string)
    ensures |Shown(s)| >= |s|
    ensures Shown(s) == s <==> Plain(s)
  {
    if s != "" {
      ShownExact(s[1..]);
      HexLength(Utf8(s[0]));
      if PlainChar(s[0]) {
        assert Shown(s)[1..] == Shown(s[1..]);
      } else {
        assert |Shown(s)| > |s|;
      }
    }
  }

  predicate HexLike(c: char) {
    '0' <= c <= '9' || 'A' <= c <= 'F'
  }

  lemma {:induction false} ShownDigits(s: string)
    requires !Plain(s)
    ensures exists c :: c in Shown(s) && HexLike(c)
  {
    if PlainChar(s[0]) {
      ShownDigits(s[1..]);
    } else {
      var bytes := Utf8(s[0]);
      var c := HexText(bytes)[0];
      assert c == HexPair(bytes[0])[0] && HexLike(c);
      assert Shown(s)[0] == c;
    }
  }

  /** A word without such digits is read only where it was printed. */
  lemma ShownWord(s: string, w: string)
    requires forall c :: c in w ==> ' ' <= c <= '~' && c != '"' && !HexLike(c)
    ensures Shown(s) == w <==> s == w
  {
    if Plain(s) {
      ShownExact(s);
    } else {
      ShownDigits(s);
      PlainAll(s);
    }
  }

  lemma {:induction false} EscapeExact(s: string)
    ensures |Escape(s)| >= |s|
    ensures Escape(s) == s <==> Verbatim(s)
  {
    if s != "" {
      EscapeExact(s[1..]);
      HexLength(Utf8(s[0]));
      if PlainChar(s[0]) && s[0] != '\\' {
        assert Escape(s)[1..] == Escape(s[1..]);
      } else {
        assert |Escape(s)| > |s|;
      }
    }
  }

  lemma {:induction false} EscapeQuoteFree(s: string)
    ensures '"' !in Escape(s)
  {
    if s != "" {
      EscapeQuoteFree(s[1..]);
      HexQuoteFree(Utf8(s[0]));
    }
  }

  lemma {:induction false} HexQuoteFree(bytes: seq<Byte>)
    ensures '"' !in HexEscapes(bytes)
  {
    if bytes != [] {
      HexQuoteFree(bytes[1..]);
    }
  }

  /**
   A string as MLIR quotes it unquotes to its characters, with the hexadecimal digits in place of
   each quote and nonprintable: to itself exactly when it holds neither.
   */
  lemma UnquoteQuote(s: string)
    ensures Unquote(Quote(s)) == Shown(s)
    ensures Unquote(Quote(s)) == s <==> forall c :: c in s ==> ' ' <= c <= '~' && c != '"'
  {
    hide Escape, Unescape, Shown, Plain;
    UnescapeEscape(s, "");
    QuoteTail(Escape(s));
    ShownExact(s);
    PlainAll(s);
  }

  lemma QuoteTail(e: string)
    ensures ("\"" + e + "\"")[0] == '"' && ("\"" + e + "\"")[1..] == e + "\"" + ""
  {
  }

  lemma {:induction false} PlainAll(s: string)
    ensures Plain(s) <==> forall c :: c in s ==> PlainChar(c)
  {
    if s != "" {
      PlainAll(s[1..]);
      assert s == [s[0]] + s[1..];
    }
  }

  /** A quote comes back as its two digits, and a line feed as its own. */
  lemma QuoteReadsDigits()
    ensures Quote("\"") == "\"\\22\"" && Unquote(Quote("\"")) == "22"
    ensures Quote("\n") == "\"\\0A\"" && Unquote(Quote("\n")) == "0A"
  {
    OneShown('"');
    OneShown('\n');
    assert '"' as int == 0x22 && HexPair(0x22) == "22";
    assert '\n' as int == 0xA && HexPair(0xA) == "0A";
  }

  lemma OneShown(c: char)
    requires c as int < 0x80 && !PlainChar(c) && c != '\\'
    ensures Quote([c]) == "\"" + ("\\" + HexPair(c as int)) + "\"" && Unquote(Quote([c])) == HexPair(c as int)
  {
    OneByte(c as int);
    OneChar(c);
    hide HexPair, Escape, Shown;
    UnquoteQuote([c]);
  }

  lemma OneByte(b: Byte)
    ensures HexText([b]) == HexPair(b) && HexEscapes([b]) == "\\" + HexPair(b)
  {
    hide HexPair;
    assert [b][1..] == [];
    assert HexText([]) == "" && HexEscapes([]) == "";
    assert HexPair(b) + "" == HexPair(b) && "\\" + HexPair(b) + "" == "\\" + HexPair(b);
  }

  lemma OneChar(c: char)
    ensures Escape([c]) == EscapeChar(c) && Shown([c]) == ShownChar(c)
  {
    hide EscapeChar, ShownChar;
    assert [c][1..] == "";
    assert Escape("") == "" && Shown("") == "";
    assert EscapeChar(c) + "" == EscapeChar(c) && ShownChar(c) + "" == ShownChar(c);
  }

  lemma QuoteAfter(a: string, b: string)
    requires '"' !in a
    ensures Find(a + "\"" + b, "\"") == Some(|a|)
  {
    CharFree(a, "\"", '"');
    assert BorderFree("\"");
    FindAfter(a, "\"", b);
  }

  // ----- values neither halt nor move the scanner -----

  /** The marks and brackets of the three scans of a record. */
  predicate Marks(mark: char, opens: string, closes: string) {
    || (mark == ',' && opens == OPENS && closes == CLOSES)
    || (mark == '}' && opens == "{" && closes == "}")
    || (mark == ']' && opens == "[" && closes == "]")
  }

  predicate QuietChar(c: char) {
    c != '"' && c != ',' && c != '(' && c != ')' && c != '[' && c != ']' && c != '{' && c != '}'
  }

  lemma {:induction false} PlainPasses(s: string, st: Scan, level: nat, mark: char, opens: string, closes: string)
    requires Marks(mark, opens, closes) && !st.inString && forall i :: 0 <= i < |s| ==> QuietChar(s[i])
    ensures Passes(s, st, level, mark, opens, closes) && Run(s, st, opens, closes) == st
  {
    if s != "" {
      PlainPasses(s[1..], st, level, mark, opens, closes);
    }
  }

  lemma {:induction false} EscapedPasses(s: string, st: Scan, level: nat, mark: char, opens: string, closes: string)
    requires st.inString && !st.escaped
    ensures Neutral(Escape(s), st, level, mark, opens, closes)
  {
    if s != "" {
      hide EscapeChar;
      EscapedPasses(s[1..], st, level, mark, opens, closes);
      CharPasses(s[0], st, level, mark, opens, closes);
      NeutralConcat(EscapeChar(s[0]), Escape(s[1..]), st, level, mark, opens, closes);
    }
  }

  lemma CharPasses(c: char, st: Scan, level: nat, mark: char, opens: string, closes: string)
    requires st.inString && !st.escaped
    ensures Neutral(EscapeChar(c), st, level, mark, opens, closes)
  {
    if c == '\\' {
      EscapedPair('\\', st, level, mark, opens, closes);
    } else if PlainChar(c) {
      QuietOne(c, st, level, mark, opens, closes);
    } else {
      HexPasses(Utf8(c), st, level, mark, opens, closes);
    }
  }

  lemma EscapedPair(c: char, st: Scan, level: nat, mark: char, opens: string, closes: string)
    requires st.inString && !st.escaped
    ensures Neutral(['\\', c], st, level, mark, opens, closes)
  {
    var out := st.(escaped := true);
    assert ['\\', c][1..] == [c] && [c][1..] == "";
    assert Run([c], out, opens, closes) == st && Passes([c], out, level, mark, opens, closes);
  }

  lemma QuietOne(c: char, st: Scan, level: nat, mark: char, opens: string, closes: string)
    requires st.inString && !st.escaped && c != '"' && c != '\\'
    ensures Neutral([c], st, level, mark, opens, closes)
  {
    assert [c][1..] == "";
  }

  lemma {:induction false} HexPasses(bytes: seq<Byte>, st: Scan, level: nat, mark: char, opens: string, closes: string)
    requires st.inString && !st.escaped
    ensures Neutral(HexEscapes(bytes), st, level, mark, opens, closes)
  {
    if bytes != [] {
      HexPasses(bytes[1..], st, level, mark, opens, closes);
      var h, l := HexPair(bytes[0])[0], HexPair(bytes[0])[1];
      EscapedPair(h, st, level, mark, opens, closes);
      QuietOne(l, st, level, mark, opens, closes);
      hide Neutral;
      NeutralConcat(['\\', h], [l], st, level, mark, opens, closes);
      assert "\\" + HexPair(bytes[0]) == ['\\', h] + [l];
      NeutralConcat("\\" + HexPair(bytes[0]), HexEscapes(bytes[1..]), st, level, mark, opens, closes);
    }
  }

  lemma QuotedPasses(body: string, st: Scan, level: nat, mark: char, opens: string, closes: string)
    requires Marks(mark, opens, closes) && !st.inString && !st.escaped
    requires var inside := st.(inString := true);
             Passes(body, inside, level, mark, opens, closes) && Run(body, inside, opens, closes) == inside
    ensures var q := "\"" + body + "\"";
            Passes(q, st, level, mark, opens, closes) && Run(q, st, opens, closes) == st
  {
    var inside := st.(inString := true);
    RunConcat(body, "\"", inside, level, mark, opens, closes);
    assert ("\"" + body + "\"")[1..] == body + "\"";
    assert "\""[1..] == "";
    assert Step(inside, '"', opens, closes) == st;
    assert Run("\"", inside, opens, closes) == st;
  }

  /** Text that neither halts the scanner nor changes its state. */
  predicate Neutral(s: string, st: Scan, level: nat, mark: char, opens: string, closes: string) {
    Passes(s, st, level, mark, opens, closes) && Run(s, st, opens, closes) == st
  }

  lemma NeutralConcat(a: string, b: string, st: Scan, level: nat, mark: char, opens: string, closes: string)
    requires Neutral(a, st, level, mark, opens, closes) && Neutral(b, st, level, mark, opens, closes)
    ensures Neutral(a + b, st, level, mark, opens, closes)
  {
    RunConcat(a, b, st, level, mark, opens, closes);
  }

  lemma QuoteNeutral(s: string, st: Scan, level: nat, mark: char, opens: string, closes: string)
    requires Marks(mark, opens, closes) && !st.inString && !st.escaped
    ensures Neutral(Quote(s), st, level, mark, opens, closes)
  {
    EscapedPasses(s, st.(inString := true), level, mark, opens, closes);
    QuotedPasses(Escape(s), st, level, mark, opens, closes);
  }
}
