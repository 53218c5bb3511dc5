/**
 The JSON string writer of rocket-compiler/src/audit.rs, against a reader of the string
 grammar of section 7 of RFC 8259.
 */
module Json {
  import opened Text
  import opened Decisions

  const HEX := "0123456789abcdef"

  function HexDigit(n: nat): char
    requires n < 16
  {
    HEX[n]
  }

  function EscapeChar(c: char): string {
    if c == '"' then "\\\""
    else if c == '\\' then "\\\\"
    else if c == '\n' then "\\n"
    else if c == '\t' then "\\t"
    else if (c as int) < 0x20 then "\\u00" + [HexDigit(c as int / 16), HexDigit(c as int % 16)]
    else [c]
  }

  function EscapeAll(s: string): string {
    if s == "" then "" else EscapeChar(s[0]) + EscapeAll(s[1..])
  }

  /** `json_string` */
  function JsonString(s: string): string {
    "\"" + EscapeAll(s) + "\""
  }

  method RunJsonString(s: string) returns (out: string)
    ensures out == JsonString(s)
  {
    out := "\"";
    var rest := s;
    while rest != ""
      invariant "\"" + EscapeAll(s) == out + EscapeAll(rest)
      decreases |rest|
    {
      hide EscapeChar;
      ConcatAssoc(out, EscapeChar(rest[0]), EscapeAll(rest[1..]));
      out, rest := out + EscapeChar(rest[0]), rest[1..];
    }
    ConcatAssoc(out, "", "");
    out := out + "\"";
  }

  // ----- reading, after the grammar -----

  function HexValue(c: char): Option<nat> {
    if '0' <= c <= '9' then Some((c - '0') as nat)
    else if 'a' <= c <= 'f' then Some((c - 'a') as nat + 10)
    else if 'A' <= c <= 'F' then Some((c - 'A') as nat + 10)
    else None
  }

  /** Four hexadecimal digits: one UTF-16 code unit. */
  function CodeUnit(s: string): (r: Option<nat>)
    ensures r.Some? ==> |s| >= 4 && r.value < 0x1_0000
  {
    if |s| < 4 then None
    else
      match (HexValue(s[0]), HexValue(s[1]), HexValue(s[2]), HexValue(s[3]))
      case (Some(a), Some(b), Some(c), Some(d)) =>
        if a < 16 && b < 16 && c < 16 && d < 16 then Some(((a * 16 + b) * 16 + c) * 16 + d) else None
      case _ => None
  }

  function Simple(c: char): Option<char> {
    if c == '"' || c == '\\' || c == '/' then Some(c)
    else if c == 'b' then Some(8 as char)
    else if c == 'f' then Some(12 as char)
    else if c == 'n' then Some('\n')
    else if c == 'r' then Some('\r')
    else if c == 't' then Some('\t')
    else None
  }

  /** A `\u` escape: a code unit, or a surrogate pair of two escapes, and the text after it. */
  function Unicode(s: string): (r: Option<(char, string)>)
    ensures r.Some? ==> |r.value.1| < |s|
  {
    match CodeUnit(s)
    case None => None
    case Some(u) =>
      if u < 0xD800 || 0xE000 <= u then Some((u as char, s[4..]))
      else if u >= 0xDC00 || !("\\u" <= s[4..]) then None
      else match CodeUnit(s[6..])
        case None => None
        case Some(v) =>
          if v < 0xDC00 || 0xE000 <= v then None
          else Some(((0x1_0000 + (u - 0xD800) * 0x400 + (v - 0xDC00)) as char, s[10..]))
  }

  /** The characters up to the closing quotation mark, which ends the text. */
  function ReadChars(s: string): Option<string>
    decreases |s|
  {
    if s == "" then None
    else if s[0] == '"' then if |s| == 1 then Some("") else None
    else if s[0] == '\\' then
      if |s| == 1 then None
      else if s[1] == 'u' then
        match Unicode(s[2..])
        case None => None
        case Some((c, rest)) => Front(c, ReadChars(rest))
      else
        match Simple(s[1])
        case None => None
        case Some(c) => Front(c, ReadChars(s[2..]))
    else if (s[0] as int) < 0x20 then None
    else Front(s[0], ReadChars(s[1..]))
  }

  function Front(c: char, rest: Option<string>): Option<string> {
    match rest
    case None => None
    case Some(r) => Some([c] + r)
  }

  function ReadString(s: string): Option<string> {
    if s != "" && s[0] == '"' then ReadChars(s[1..]) else None
  }

  // ----- round trips -----

  lemma HexDigits(n: nat)
    requires n < 16
    ensures HexValue(HexDigit(n)) == Some(n)
  {
  }

  lemma ReadFirst(c: char, tail: string)
    ensures ReadChars(EscapeChar(c) + tail) == Front(c, ReadChars(tail))
  {
    var e := EscapeChar(c);
    if (c as int) < 0x20 && c != '\n' && c != '\t' {
      var a, b := c as int / 16, c as int % 16;
      HexDigits(a);
      HexDigits(b);
      var s := e + tail;
      assert s[2..] == "00" + [HexDigit(a), HexDigit(b)] + tail;
      assert s[2..][4..] == tail;
      assert CodeUnit(s[2..]) == Some(c as int);
    } else {
      assert (e + tail)[|e|..] == tail;
    }
  }

  /** Reading the written string gives the string back, for every string. */
  lemma JsonRoundTrip(s: string)
    ensures ReadString(JsonString(s)) == Some(s)
  {
    ReadAll(s);
    assert JsonString(s)[1..] == EscapeAll(s) + "\"";
  }

  lemma {:induction false} ReadAll(s: string)
    ensures ReadChars(EscapeAll(s) + "\"") == Some(s)
  {
    if s == "" {
      assert EscapeAll(s) + "\"" == "\"";
    } else {
      ReadAll(s[1..]);
      ReadFirst(s[0], EscapeAll(s[1..]) + "\"");
      assert EscapeAll(s) + "\"" == EscapeChar(s[0]) + (EscapeAll(s[1..]) + "\"");
      assert [s[0]] + s[1..] == s;
    }
  }

  /** Characters `unquote` understands when `json_string` has escaped them. */
  predicate Shared(c: char) {
    (c as int) >= 0x20 || c == '\n' || c == '\t'
  }

  lemma UnescapeJson(c: char, tail: string)
    ensures Shared(c) ==> Unescape(EscapeChar(c) + tail) == [c] + Unescape(tail)
    ensures !Shared(c) ==> |Unescape(EscapeChar(c) + tail)| == 5 + |Unescape(tail)|
  {
    var e := EscapeChar(c);
    var s := e + tail;
    if Shared(c) {
      assert s[|e|..] == tail;
    } else {
      assert s[2..] == e[2..] + tail;
      UnescapePlain(e[2..], tail);
    }
  }

  lemma {:induction false} UnescapePlain(d: string, tail: string)
    requires forall i :: 0 <= i < |d| ==> d[i] != '"' && d[i] != '\\'
    ensures Unescape(d + tail) == d + Unescape(tail)
  {
    if d == "" {
      assert d + tail == tail;
    } else {
      assert (d + tail)[1..] == d[1..] + tail;
      UnescapePlain(d[1..], tail);
    }
  }

  predicate AllShared(s: string) {
    s != "" ==> Shared(s[0]) && AllShared(s[1..])
  }

  lemma {:induction false} UnescapeAll(s: string)
    ensures AllShared(s) ==> Unescape(EscapeAll(s) + "\"") == s
    ensures !AllShared(s) ==> |Unescape(EscapeAll(s) + "\"")| > |s|
  {
    if s == "" {
      assert EscapeAll(s) + "\"" == "\"";
    } else {
      UnescapeAll(s[1..]);
      var tail := EscapeAll(s[1..]) + "\"";
      UnescapeJson(s[0], tail);
      EscapedFirst(s);
      hide *;
      if Shared(s[0]) {
        FirstAndRest(s, Unescape(tail));
      }
    }
  }

  lemma EscapedFirst(s: string)
    requires s != ""
    ensures EscapeAll(s) + "\"" == EscapeChar(s[0]) + (EscapeAll(s[1..]) + "\"")
    ensures AllShared(s) <==> Shared(s[0]) && AllShared(s[1..])
  {
    hide EscapeChar, Shared;
  }

  lemma FirstAndRest(s: string, t: string)
    requires s != ""
    ensures t == s[1..] ==> [s[0]] + t == s
    ensures |t| > |s[1..]| ==> |[s[0]] + t| > |s|
  {
  }

  /**
   The repository's own `unquote` reads a written string back if and only if the string's
   only control characters are newline and tab.
   */
  lemma UnquoteReadsJson(s: string)
    ensures Unquote(JsonString(s)) == s <==> forall i :: 0 <= i < |s| ==> Shared(s[i])
  {
    UnescapeAll(s);
    assert JsonString(s)[1..] == EscapeAll(s) + "\"";
    AllSharedIs(s);
  }

  lemma {:induction false} AllSharedIs(s: string)
    ensures AllShared(s) <==> forall i :: 0 <= i < |s| ==> Shared(s[i])
  {
    if s != "" {
      AllSharedIs(s[1..]);
      assert forall i :: 0 < i < |s| ==> s[i] == s[1..][i - 1];
      if AllShared(s) {
        forall i | 0 <= i < |s| ensures Shared(s[i]) {
          if i > 0 { assert Shared(s[1..][i - 1]); }
        }
      }
      if forall i :: 0 <= i < |s| ==> Shared(s[i]) {
        assert Shared(s[0]);
      }
    }
  }
}
