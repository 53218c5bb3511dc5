/**
 String primitives with the meaning of the Rust `str` methods the compiler driver
 relies on.  Positions are character positions.
 */
module Text {

  datatype Option<+T> = None | Some(value: T)

  datatype Result<+T, +E> = Ok(value: T) | Err(error: E)

  /** `pat` stands in `s` at position `i`. */
  predicate OccursAt(s: string, i: nat, pat: string) {
    i + |pat| <= |s| && forall k :: 0 <= k < |pat| ==> s[i + k] == pat[k]
  }

  /** The first occurrence of `pat` at or after `i`. */
  function FindFrom(s: string, pat: string, i: nat): (r: Option<nat>)
    requires i <= |s|
    ensures r.Some? ==> i <= r.value && r.value + |pat| <= |s|
    decreases |s| - i
  {
    if OccursAt(s, i, pat) then Some(i)
    else if i == |s| then None
    else FindFrom(s, pat, i + 1)
  }

  /** `s.find(pat)` */
  function Find(s: string, pat: string): (r: Option<nat>)
    ensures r.Some? ==> r.value + |pat| <= |s|
  {
    FindFrom(s, pat, 0)
  }

  predicate Contains(s: string, pat: string) {
    Find(s, pat).Some?
  }

  lemma {:induction false} FindFromSpec(s: string, pat: string, i: nat)
    requires i <= |s|
    ensures var r := FindFrom(s, pat, i);
            && (r.Some? ==> OccursAt(s, r.value, pat))
            && forall j :: i <= j && (r.Some? ==> j < r.value) ==> !OccursAt(s, j, pat)
    decreases |s| - i
  {
    if !OccursAt(s, i, pat) && i < |s| {
      FindFromSpec(s, pat, i + 1);
    }
  }

  /** What `Find` returns: the first occurrence, or none. */
  lemma FindSpec(s: string, pat: string)
    ensures Find(s, pat).Some? ==> OccursAt(s, Find(s, pat).value, pat)
    ensures Find(s, pat).Some? ==> forall j :: 0 <= j < Find(s, pat).value ==> !OccursAt(s, j, pat)
    ensures Find(s, pat).None? ==> forall j :: 0 <= j ==> !OccursAt(s, j, pat)
  {
    FindFromSpec(s, pat, 0);
  }

  lemma LetterAt(s: string, i: nat, pat: string, k: nat)
    requires k < |pat|
    ensures OccursAt(s, i, pat) ==> i + k < |s| && s[i + k] == pat[k]
  {
  }

  lemma NothingIn(pat: string)
    requires pat != ""
    ensures !Contains("", pat)
  {
    FindSpec("", pat);
  }

  lemma FoundSome(s: string, pat: string)
    ensures Contains(s, pat) <==> Find(s, pat).Some?
  {
  }

  lemma FindIs(s: string, pat: string, i: nat)
    requires OccursAt(s, i, pat) && forall j :: 0 <= j < i ==> !OccursAt(s, j, pat)
    ensures Find(s, pat) == Some(i)
  {
    FindSpec(s, pat);
  }

  /** `s.rfind(c)`: the last position holding `c`. */
  function RFindChar(s: string, c: char): (r: Option<nat>)
    ensures r.Some? ==> r.value < |s|
  {
    if s == "" then None
    else if s[|s| - 1] == c then Some(|s| - 1)
    else RFindChar(s[..|s| - 1], c)
  }

  lemma {:induction false} RFindCharIs(a: string, c: char, b: string)
    requires c !in b
    ensures RFindChar(a + [c] + b, c) == Some(|a|)
  {
    var s := a + [c] + b;
    if b != "" {
      assert s[..|s| - 1] == a + [c] + b[..|b| - 1];
      RFindCharIs(a, c, b[..|b| - 1]);
    }
  }

  lemma ConcatAssoc<T>(a: seq<T>, b: seq<T>, c: seq<T>)
    ensures a + (b + c) == a + b + c
    ensures [] + a == a && a + [] == a
  {
  }

  lemma SameHead(a: string, u: string, v: string)
    ensures a + u == a + v <==> u == v
  {
    assert (a + u)[|a|..] == u && (a + v)[|a|..] == v;
  }

  lemma SameEnd(a: string, b: string, v: string)
    ensures a + v == b + v <==> a == b
  {
    if a + v == b + v {
      assert |a| == |b| && a == (a + v)[..|a|] && b == (b + v)[..|b|];
    }
  }

  function Elements<T>(s: seq<T>): set<T> {
    set x | x in s
  }

  predicate NoDuplicates(s: seq<string>) {
    s != [] ==> s[0] !in s[1..] && NoDuplicates(s[1..])
  }

  // ----- white space -----

  /** `char::is_whitespace`: the Unicode White_Space property. */
  predicate White(c: char) {
    var n := c as int;
    || 0x9 <= n <= 0xD || n == 0x20 || n == 0x85 || n == 0xA0 || n == 0x1680
    || 0x2000 <= n <= 0x200A || n == 0x2028 || n == 0x2029 || n == 0x202F
    || n == 0x205F || n == 0x3000
  }

  predicate AllWhite(s: string) {
    forall i :: 0 <= i < |s| ==> White(s[i])
  }

  function TrimStart(s: string): string {
    if s != "" && White(s[0]) then TrimStart(s[1..]) else s
  }

  function TrimEnd(s: string): string {
    if s != "" && White(s[|s| - 1]) then TrimEnd(s[..|s| - 1]) else s
  }

  function Trim(s: string): string {
    TrimEnd(TrimStart(s))
  }

  predicate StartsWith(s: string, prefix: string) {
    prefix <= s
  }

  lemma {:induction false} TrimStartSkips(w: string, s: string)
    requires AllWhite(w) && (s == "" || !White(s[0]))
    ensures TrimStart(w + s) == s
  {
    if w == "" {
      assert w + s == s;
    } else {
      assert (w + s)[1..] == w[1..] + s;
      TrimStartSkips(w[1..], s);
    }
  }

  lemma {:induction false} TrimEndSkips(s: string, w: string)
    requires AllWhite(w) && (s == "" || !White(s[|s| - 1]))
    ensures TrimEnd(s + w) == s
  {
    if w == "" {
      assert s + w == s;
    } else {
      assert (s + w)[..|s + w| - 1] == s + w[..|w| - 1];
      TrimEndSkips(s, w[..|w| - 1]);
    }
  }

  lemma {:induction false} TrimEndPrefix(a: string, s: string)
    requires a != "" && !White(a[|a| - 1])
    ensures TrimEnd(a + s) == a + TrimEnd(s) && TrimEnd(s) <= s
  {
    if s != "" && White(s[|s| - 1]) {
      assert (a + s)[..|a + s| - 1] == a + s[..|s| - 1];
      TrimEndPrefix(a, s[..|s| - 1]);
    } else {
      TrimEndSkips(a + s, "");
      assert a + s + "" == a + s;
    }
  }

  /** Text that neither starts nor ends in white space loses exactly its surroundings. */
  lemma TrimBoth(w: string, s: string, v: string)
    requires AllWhite(w) && AllWhite(v)
    requires s != "" && !White(s[0]) && !White(s[|s| - 1])
    ensures Trim(w + s + v) == s
  {
    TrimStartSkips(w, s + v);
    assert w + s + v == w + (s + v);
    TrimEndSkips(s, v);
  }

  // ----- occurrences in concatenations -----

  /** A pattern without the character `c` cannot stand across a `c`. */
  lemma OccursSplit(a: string, c: char, b: string, pat: string, i: nat)
    requires c !in pat && pat != ""
    ensures OccursAt(a + [c] + b, i, pat) <==>
            OccursAt(a, i, pat) || (i > |a| && OccursAt(b, i - |a| - 1, pat))
  {
    var s := a + [c] + b;
    if i <= |a| < i + |pat| <= |s| {
      var k := |a| - i;
      assert s[i + k] == c && pat[k] in pat;
      assert !OccursAt(s, i, pat);
    }
    if OccursAt(s, i, pat) {
      if i > |a| {
        forall k | 0 <= k < |pat| ensures b[i - |a| - 1 + k] == pat[k] {
          assert s[i + k] == pat[k];
        }
      }
    }
    if i > |a| && OccursAt(b, i - |a| - 1, pat) {
      forall k | 0 <= k < |pat| ensures s[i + k] == pat[k] {
        assert b[i - |a| - 1 + k] == pat[k];
      }
    }
  }

  /** Searching past a separator that the pattern lacks. */
  lemma FindSplit(a: string, c: char, b: string, pat: string)
    requires c !in pat && pat != ""
    ensures Find(a + [c] + b, pat) ==
            if Contains(a, pat) then Find(a, pat)
            else if Contains(b, pat) then Some(|a| + 1 + Find(b, pat).value)
            else None
  {
    var s := a + [c] + b;
    FindSpec(a, pat);
    FindSpec(b, pat);
    FindSpec(s, pat);
    forall i: nat ensures OccursAt(s, i, pat) <==>
                          OccursAt(a, i, pat) || (i > |a| && OccursAt(b, i - |a| - 1, pat)) {
      OccursSplit(a, c, b, pat, i);
    }
    if Contains(a, pat) {
      FindIs(s, pat, Find(a, pat).value);
    } else if Contains(b, pat) {
      FindIs(s, pat, |a| + 1 + Find(b, pat).value);
    }
  }

  lemma ContainsSplit(a: string, c: char, b: string, pat: string)
    requires c !in pat && pat != ""
    ensures Contains(a + [c] + b, pat) <==> Contains(a, pat) || Contains(b, pat)
  {
    FindSplit(a, c, b, pat);
  }

  lemma OccursShift(a: string, b: string, pat: string, i: nat)
    requires OccursAt(b, i, pat)
    ensures OccursAt(a + b, |a| + i, pat)
  {
    forall k | 0 <= k < |pat| ensures (a + b)[|a| + i + k] == pat[k] {
      assert b[i + k] == pat[k];
    }
  }

  lemma OccursFront(x: string, v: string, pat: string, j: nat)
    requires j + |pat| <= |x|
    ensures OccursAt(x + v, j, pat) <==> OccursAt(x, j, pat)
  {
    assert forall k :: 0 <= k < |pat| ==> ((x + v)[j + k] == pat[k] <==> x[j + k] == pat[k]);
  }

  lemma OccursTail(a: string, b: string, pat: string, i: nat)
    ensures OccursAt(a + b, |a| + i, pat) <==> OccursAt(b, i, pat)
  {
    if OccursAt(a + b, |a| + i, pat) {
      forall k | 0 <= k < |pat| ensures b[i + k] == pat[k] {
        assert (a + b)[|a| + i + k] == pat[k];
      }
    }
    if OccursAt(b, i, pat) {
      OccursShift(a, b, pat, i);
    }
  }

  /** Text without the first character of a pattern, in front, shifts what is found. */
  lemma FindShift(a: string, s: string, pat: string)
    requires pat != "" && pat[0] !in a
    ensures Find(a + s, pat) == match Find(s, pat) case None => None case Some(i) => Some(|a| + i)
  {
    FindSpec(s, pat);
    FindSpec(a + s, pat);
    forall i: nat ensures OccursAt(a + s, i, pat) <==> i >= |a| && OccursAt(s, i - |a|, pat) {
      if i < |a| {
        assert (a + s)[i] == a[i];
        LetterAt(a + s, i, pat, 0);
      } else {
        OccursTail(a, s, pat, i - |a|);
      }
    }
    var f := Find(s, pat);
    if f.Some? {
      assert OccursAt(s, f.value, pat);
      FindIs(a + s, pat, |a| + f.value);
    }
  }

  /** What is found in the front is found first. */
  lemma StaysFound(x: string, v: string, pat: string)
    requires Contains(x, pat)
    ensures Find(x + v, pat) == Find(x, pat)
  {
    var i := Find(x, pat).value;
    FindSpec(x, pat);
    OccursFront(x, v, pat, i);
    forall j | 0 <= j < i ensures !OccursAt(x + v, j, pat) {
      OccursFront(x, v, pat, j);
    }
    FindIs(x + v, pat, i);
  }

  lemma ContainsMiddle(a: string, pat: string, b: string)
    ensures Contains(a + pat + b, pat)
  {
    FindSpec(a + pat + b, pat);
    assert OccursAt(a + pat + b, |a|, pat);
  }

  /** A part of clean text is clean. */
  lemma PartsFree(a: string, b: string, pat: string)
    ensures Contains(a, pat) || Contains(b, pat) ==> Contains(a + b, pat)
  {
    FindSpec(a, pat);
    FindSpec(b, pat);
    FindSpec(a + b, pat);
    if Contains(a, pat) {
      assert OccursAt(a + b, Find(a, pat).value, pat);
    } else if Contains(b, pat) {
      OccursShift(a, b, pat, Find(b, pat).value);
    }
  }

  /** No proper suffix of `pat` is also a prefix of it. */
  predicate BorderFree(pat: string) {
    forall k :: 0 < k < |pat| ==> Differs(pat, k)
  }

  /** `pat` differs from itself shifted by `k`. */
  predicate Differs(pat: string, k: nat) {
    exists j :: 0 <= j < |pat| - k && pat[k + j] != pat[j]
  }

  /** A pattern whose first two characters do not come again in that order. */
  lemma FirstTwo(pat: string)
    requires |pat| >= 2
    requires forall k :: 0 < k < |pat| ==> pat[k] != pat[0] || (k + 1 < |pat| && pat[k + 1] != pat[1])
    ensures BorderFree(pat)
  {
    forall k | 0 < k < |pat| ensures Differs(pat, k) {
      if pat[k] != pat[0] {
        assert pat[k + 0] != pat[0];
      } else {
        assert k + 1 < |pat| && pat[k + 1] != pat[1] by {
          assert pat[k] != pat[0] || (k + 1 < |pat| && pat[k + 1] != pat[1]);
        }
        assert pat[k + 1] != pat[0 + 1];
      }
    }
  }

  /** The first occurrence in `a + pat + b` is the one after clean text `a`. */
  lemma FindAfter(a: string, pat: string, b: string)
    requires pat != "" && BorderFree(pat) && !Contains(a, pat)
    ensures Find(a + pat + b, pat) == Some(|a|)
  {
    var s := a + pat + b;
    FindSpec(a, pat);
    assert OccursAt(s, |a|, pat);
    forall i | 0 <= i < |a| ensures !OccursAt(s, i, pat) {
      if i + |pat| <= |a| {
        assert !OccursAt(a, i, pat);
        var k :| 0 <= k < |pat| && a[i + k] != pat[k];
        assert s[i + k] == a[i + k];
      } else {
        var m := |a| - i;
        assert Differs(pat, m);
        var j :| 0 <= j < |pat| - m && pat[m + j] != pat[j];
        assert s[i + (m + j)] == pat[j];
      }
    }
    FindIs(s, pat, |a|);
  }

  /** Text without some character of a pattern is free of the pattern. */
  lemma CharFree(s: string, pat: string, c: char)
    requires c in pat && c !in s
    ensures !Contains(s, pat)
  {
    FindSpec(s, pat);
    var k :| 0 <= k < |pat| && pat[k] == c;
    forall i: nat ensures !OccursAt(s, i, pat) {
      assert i + k < |s| ==> s[i + k] != pat[k];
    }
  }

  /** The first occurrence is after text that lacks the second character of the pattern. */
  lemma FindMark(a: string, pat: string, b: string)
    requires |pat| >= 2 && pat[0] != pat[1] && pat[1] !in a
    ensures Find(a + pat + b, pat) == Some(|a|)
  {
    var s := a + pat + b;
    assert OccursAt(s, |a|, pat);
    forall i | 0 <= i < |a| ensures !OccursAt(s, i, pat) {
      assert s[i + 1] == if i + 1 < |a| then a[i + 1] else pat[0];
    }
    FindIs(s, pat, |a|);
  }

  /** `parts.join(sep)` */
  function Join(parts: seq<string>, sep: string): string {
    if parts == [] then ""
    else if |parts| == 1 then parts[0]
    else parts[0] + sep + Join(parts[1..], sep)
  }

  // ----- lines -----

  /** `text.split_inclusive('\n')` */
  function LinesInclusive(text: string): seq<string> {
    if text == "" then []
    else match Find(text, "\n")
      case None => [text]
      case Some(i) => [text[..i + 1]] + LinesInclusive(text[i + 1..])
  }

  function StripCr(line: string): string {
    if line != "" && line[|line| - 1] == '\r' then line[..|line| - 1] else line
  }

  /** `text.lines()`: a line ends in "\n" or "\r\n". */
  function Lines(text: string): seq<string> {
    if text == "" then []
    else match Find(text, "\n")
      case None => [text]
      case Some(i) => [StripCr(text[..i])] + Lines(text[i + 1..])
  }

  /** `line` is the first line of `line + "\n" + rest`. */
  lemma FirstLine(line: string, rest: string)
    requires '\n' !in line
    ensures Find(line + "\n" + rest, "\n") == Some(|line|)
    ensures LinesInclusive(line + "\n" + rest) == [line + "\n"] + LinesInclusive(rest)
    ensures Lines(line + "\n" + rest) == [StripCr(line)] + Lines(rest)
  {
    var s := line + "\n" + rest;
    CharFree(line, "\n", '\n');
    assert BorderFree("\n");
    FindAfter(line, "\n", rest);
    assert s[..|line| + 1] == line + "\n";
    assert s[..|line|] == line;
    assert s[|line| + 1..] == rest;
  }

  lemma LinesLast(line: string)
    requires '\n' !in line
    ensures Lines(line) == if line == "" then [] else [line]
  {
    CharFree(line, "\n", '\n');
  }

  /** The lines, each ended by a line feed. */
  function Unlines(lines: seq<string>): string {
    if lines == [] then "" else lines[0] + "\n" + Unlines(lines[1..])
  }

  lemma UnlinesCons(line: string, rest: seq<string>)
    ensures Unlines([line] + rest) == line + "\n" + Unlines(rest)
  {
    assert ([line] + rest)[1..] == rest;
  }

  predicate NoLineFeeds(ts: seq<string>) {
    ts != [] ==> '\n' !in ts[0] && NoLineFeeds(ts[1..])
  }

  function StripAll(ts: seq<string>): seq<string> {
    if ts == [] then [] else [StripCr(ts[0])] + StripAll(ts[1..])
  }

  lemma {:induction false} LinesOfUnlines(ts: seq<string>)
    requires NoLineFeeds(ts)
    ensures Lines(Unlines(ts)) == StripAll(ts)
  {
    if ts != [] {
      LinesOfUnlines(ts[1..]);
      FirstLine(ts[0], Unlines(ts[1..]));
    }
  }

  // ----- symbols -----

  /** A character of a bare MLIR symbol. */
  predicate SymbolChar(c: char) {
    'a' <= c <= 'z' || 'A' <= c <= 'Z' || '0' <= c <= '9' || c == '_' || c == '$' || c == '.'
  }

  /** A nonempty bare MLIR symbol. */
  predicate Symbol(s: string) {
    s != "" && forall i :: 0 <= i < |s| ==> SymbolChar(s[i])
  }

  /** The longest prefix made of symbol characters. */
  function SymbolPrefix(s: string): (r: string)
    ensures r <= s
  {
    if s != "" && SymbolChar(s[0]) then [s[0]] + SymbolPrefix(s[1..]) else ""
  }

  lemma {:induction false} SymbolPrefixIs(name: string, rest: string)
    requires forall i :: 0 <= i < |name| ==> SymbolChar(name[i])
    requires rest == "" || !SymbolChar(rest[0])
    ensures SymbolPrefix(name + rest) == name
  {
    if name == "" {
      assert name + rest == rest;
    } else {
      assert (name + rest)[1..] == name[1..] + rest;
      SymbolPrefixIs(name[1..], rest);
    }
  }

  // ----- numerals -----

  predicate Digit(c: char) { '0' <= c <= '9' }

  predicate Digits(s: string) {
    forall i :: 0 <= i < |s| ==> Digit(s[i])
  }

  /** The decimal numeral of `n`. */
  function Decimal(n: nat): (s: string)
    ensures s != "" && Digits(s)
  {
    var last := ['0' + (n % 10) as char];
    if n < 10 then last else Decimal(n / 10) + last
  }

  /** The value of a string of digits. */
  function DigitsValue(s: string): nat
    requires Digits(s)
  {
    if s == "" then 0 else DigitsValue(s[..|s| - 1]) * 10 + (s[|s| - 1] - '0') as int
  }

  lemma {:induction false} DecimalValue(n: nat)
    ensures DigitsValue(Decimal(n)) == n
  {
    var s := Decimal(n);
    if n < 10 {
      assert s[..|s| - 1] == "";
    } else {
      DecimalValue(n / 10);
      assert s[..|s| - 1] == Decimal(n / 10);
    }
  }
}
