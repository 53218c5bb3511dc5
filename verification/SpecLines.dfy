/**
 What the rewriter does to one predicate line, stated over the line's tokens.

 An admission line is `indent transform.rocket.match.admitted %handle {attrs} : type`; a
 bounds line is `indent transform.iree.match.dim_bounds value, umin = N, umax = M : type`.
 */
module SpecLines {
  import opened Text
  import opened SpecRewrite

  // ----- printing -----

  function DictText(attrs: seq<string>): string {
    "{" + Join(attrs, ", ") + "}"
  }

  /** An admission line; `attrs` is `None` when it carries no dictionary. */
  function AdmissionText(indent: string, handle: string, attrs: Option<seq<string>>, rest: string): string {
    indent + ADMITTED_OP + " " + handle
    + (match attrs case None => "" case Some(a) => " " + DictText(a))
    + " : " + rest
  }

  function BoundsText(indent: string, value: string, umin: nat, umax: nat, rest: string): string {
    indent + DIM_BOUNDS_OP + " " + value + ", umin = " + Decimal(umin)
    + ", umax = " + Decimal(umax) + " : " + rest
  }

  // ----- tokens -----

  predicate HandleToken(h: string) {
    h != "" && h[0] == '%' && ':' !in h && h[|h| - 1] != '}'
    && forall i :: 0 <= i < |h| ==> !White(h[i])
  }

  /** A dictionary body as MLIR prints one: trimmed, braces opened before they are closed. */
  predicate DictToken(d: string) {
    && d != "" && !White(d[0]) && !White(d[|d| - 1])
    && forall i :: 0 <= i < |d| && d[i] == '}' ==> '{' in d[..i]
  }

  predicate AdmissionTokens(indent: string, handle: string, attrs: Option<seq<string>>) {
    && AllWhite(indent) && HandleToken(handle)
    && (attrs.Some? && attrs.value != [] ==> DictToken(Join(attrs.value, ", ")))
  }

  // ----- what the line should become -----

  /** The attributes with `no_offload` among them, nothing dropped. */
  function DisarmAttrs(attrs: Option<seq<string>>): (r: Option<seq<string>>)
    ensures r.Some? && NO_OFFLOAD_ATTR in r.value
    ensures attrs.Some? ==> forall a :: a in attrs.value ==> a in r.value
    ensures attrs.Some? && NO_OFFLOAD_ATTR in attrs.value ==> r == attrs
  {
    match attrs
    case None => Some([NO_OFFLOAD_ATTR])
    case Some(a) => if NO_OFFLOAD_ATTR in a then attrs else Some([NO_OFFLOAD_ATTR] + a)
  }

  /**
   The exact condition under which the rewrite adds the attribute where it counts: the
   line has it already; or it names it nowhere, and its dictionary, if any, is nonempty,
   holds no typed value and no nested dictionary.
   */
  predicate AdmissionReadable(indent: string, handle: string, attrs: Option<seq<string>>, rest: string) {
    || (attrs.Some? && NO_OFFLOAD_ATTR in attrs.value)
    || (&& !Contains(AdmissionText(indent, handle, attrs, rest), NO_OFFLOAD_ATTR)
        && (attrs.Some? ==>
              && attrs.value != []
              && !Contains(Join(attrs.value, ", "), " : ")
              && '{' !in Join(attrs.value, ", ")))
  }

  // ----- literals -----

  lemma OpNames()
    ensures BorderFree(ADMITTED_OP) && BorderFree(LOOP) && BorderFree(DECL)
    ensures '\n' !in ADMITTED_OP && '\n' !in DIM_BOUNDS_OP && '\n' !in LOOP && '\n' !in DECL
  {
    hide BorderFree;
    AdmittedBorder();
    LoopBorder();
    DeclBorder();
  }

  lemma AdmittedBorder()
    ensures BorderFree(ADMITTED_OP)
  {
    FirstTwo(ADMITTED_OP);
  }

  lemma LoopBorder()
    ensures BorderFree(LOOP)
  {
    FirstTwo(LOOP);
  }

  lemma DeclBorder()
    ensures BorderFree(DECL)
  {
    FirstTwo(DECL);
  }

  // ----- admission lines -----

  /** The part of an admission line after the op name. */
  function TailText(handle: string, attrs: Option<seq<string>>, rest: string): string {
    match attrs
    case None => " " + handle + (" : " + rest)
    case Some(a) => DictTail(handle, Join(a, ", "), rest)
  }

  function DictTail(handle: string, dict: string, rest: string): string {
    " " + handle + " " + "{" + dict + "}" + (" : " + rest)
  }

  lemma AdmissionParts(indent: string, handle: string, attrs: Option<seq<string>>, rest: string)
    ensures AdmissionText(indent, handle, attrs, rest) == indent + ADMITTED_OP + TailText(handle, attrs, rest)
  {
    PartsOf(indent, ADMITTED_OP, handle, attrs, rest);
  }

  lemma PartsOf(indent: string, op: string, handle: string, attrs: Option<seq<string>>, rest: string)
    ensures indent + op + " " + handle
            + (match attrs case None => "" case Some(a) => " " + DictText(a))
            + " : " + rest
         == indent + op + TailText(handle, attrs, rest)
  {
    hide Join;
    if attrs.None? {
      NoDictGroups(indent + op, handle, rest);
    } else {
      DictGroups(indent + op, handle, Join(attrs.value, ", "), rest);
    }
  }

  lemma NoDictGroups(a: string, handle: string, rest: string)
    ensures a + " " + handle + "" + " : " + rest == a + (" " + handle + (" : " + rest))
  {
  }

  lemma DictGroups(a: string, handle: string, dict: string, rest: string)
    ensures a + " " + handle + (" " + ("{" + dict + "}")) + " : " + rest ==
            a + (" " + handle + " " + "{" + dict + "}" + (" : " + rest))
  {
  }

  lemma AdmissionStarts(indent: string, tail: string)
    requires AllWhite(indent)
    ensures Find(indent + ADMITTED_OP + tail, ADMITTED_OP) == Some(|indent|)
    ensures !IsComment(indent + ADMITTED_OP + tail)
  {
    AdmittedBorder();
    assert forall i :: 0 <= i < |indent| ==> indent[i] != 't';
    CharFree(indent, ADMITTED_OP, 't');
    FindAfter(indent, ADMITTED_OP, tail);
    NotComment(indent, ADMITTED_OP, tail);
  }

  lemma NotComment(indent: string, op: string, tail: string)
    requires AllWhite(indent) && op != "" && op[0] == 't'
    ensures !IsComment(indent + op + tail)
  {
    assert indent + op + tail == indent + (op + tail);
    TrimStartSkips(indent, op + tail);
  }

  /** The rewrite of a line that does not name the attribute yet is the rewrite of its tail. */
  lemma AdmissionRewrite(indent: string, tail: string)
    requires AllWhite(indent) && !Contains(indent + ADMITTED_OP + tail, NO_OFFLOAD_ATTR)
    ensures DisableAdmission(indent + ADMITTED_OP + tail) ==
            match DisableTail(tail, NO_OFFLOAD_ATTR)
            case None => None
            case Some(t) => Some(indent + ADMITTED_OP + t)
  {
    AdmissionStarts(indent, tail);
    var line := indent + ADMITTED_OP + tail;
    assert line[|indent| + |ADMITTED_OP|..] == tail;
    assert line[..|indent|] == indent;
  }

  /** The rewrite of a tail cut at its colon. */
  lemma TailAt(m: string, after: string, attr: string)
    requires Find(m + after, " : ") == Some(|m|)
    ensures DisableTail(m + after, attr) ==
            match DisableDictionary(TrimEnd(m), attr)
            case None => None
            case Some(r) => Some(r + after)
  {
    assert (m + after)[..|m|] == m && (m + after)[|m|..] == after;
  }

  /** A line without a dictionary gets one. */
  lemma PlainRewritten(handle: string, rest: string, attr: string)
    requires HandleToken(handle)
    ensures DisableTail(TailText(handle, None, rest), attr) == Some(DictTail(handle, attr, rest))
  {
    var m := " " + handle;
    FindMark(m, " : ", rest);
    assert m + " : " + rest == m + (" : " + rest);
    TailAt(m, " : " + rest, attr);
    TrimEndSkips(m, "");
    assert m + "" == m;
    assert m + " {" + attr + "}" == m + " " + "{" + attr + "}";
  }

  /** Where the colon is found in the tail of a line with a dictionary. */
  lemma DictColon(handle: string, dict: string, rest: string)
    requires HandleToken(handle)
    ensures Find(DictTail(handle, dict, rest), " : ") ==
            Some(|handle| + 3 + if Contains(dict, " : ") then Find(dict, " : ").value else |dict| + 1)
  {
    var a := " " + handle + " ";
    var b := dict + ['}'] + (" : " + rest);
    assert DictTail(handle, dict, rest) == a + ['{'] + b;
    CharFree(a, " : ", ':');
    FindSplit(a, '{', b, " : ");
    FindMark("", " : ", rest);
    assert "" + " : " + rest == " : " + rest;
    FindSplit(dict, '}', " : " + rest, " : ");
  }

  /** A dictionary with neither a typed value nor a nested dictionary gets the attribute in front. */
  lemma DictRewritten(handle: string, dict: string, rest: string, attr: string)
    requires HandleToken(handle) && (dict == "" || DictToken(dict))
    requires !Contains(dict, " : ") && '{' !in dict
    ensures DisableTail(DictTail(handle, dict, rest), attr) ==
            Some(DictTail(handle, attr + ", " + dict, rest))
  {
    var m := " " + handle + " " + "{" + dict + "}";
    DictColon(handle, dict, rest);
    TailAt(m, " : " + rest, attr);
    TrimEndSkips(m, "");
    assert m + "" == m;
    FlatDictionary(" " + handle + " ", dict, attr);
  }

  lemma FlatDictionary(a: string, dict: string, attr: string)
    requires (dict == "" || DictToken(dict)) && '{' !in dict
    ensures DisableDictionary(a + "{" + dict + "}", attr) ==
            Some(a + "{" + (attr + ", " + dict) + "}")
  {
    var m := a + "{" + dict + "}";
    var head := a + ['{'] + dict;
    assert m[..|m| - 1] == head;
    RFindCharIs(a, '{', dict);
    assert head[..|a|] == a && head[|a| + 1..] == dict;
    if dict != "" {
      TrimBoth("", dict, "");
      assert "" + dict + "" == dict;
    }
  }

  // ----- where an unreadable line goes wrong -----

  /** The attribute put anywhere but first in the dictionary: not the wanted text. */
  lemma WrongPlace(p: string, c: char, x: string, n: string, y: string)
    requires !Contains(p, n) && c !in n
    ensures p + [c] + x != n + y
  {
    FindSpec(p, n);
    if |p| < |n| {
      assert (p + [c] + x)[|p|] == c && (n + y)[|p|] == n[|p|];
      assert n[|p|] in n;
    } else {
      assert !OccursAt(p, 0, n);
      var k :| 0 <= k < |n| && p[0 + k] != n[k];
      assert (p + [c] + x)[k] == p[k] && (n + y)[k] == n[k];
    }
  }

  /** With a typed value or a nested dictionary the attribute lands somewhere else. */
  lemma MisplacedTail(handle: string, dict: string, rest: string, attr: string)
    returns (p: string, c: char, x: string)
    requires HandleToken(handle) && DictToken(dict)
    requires Contains(dict, " : ") || '{' in dict
    ensures p <= dict && (c == ' ' || c == '{')
    ensures DisableTail(DictTail(handle, dict, rest), attr) ==
            Some(" " + handle + " " + "{" + (p + [c] + x))
  {
    var a := " " + handle + " " + "{";
    DictColon(handle, dict, rest);
    var tail := DictTail(handle, dict, rest);
    if Contains(dict, " : ") {
      var body := dict[..Find(dict, " : ").value];
      var after := tail[|a| + |body|..];
      assert tail == a + body + after;
      TrimEndPrefix(a, body);
      p, c, x := MisplacedDictionary(a, dict, TrimEnd(body), attr);
      x := CutTail(a, body, after, p, c, x, attr);
    } else {
      var body := dict + "}";
      assert tail == a + body + (" : " + rest);
      TrimEndSkips(a + body, "");
      assert a + body + "" == a + body;
      p, c, x := NestedDictionary(a, dict, dict, attr);
      x := CutTail(a, body, " : " + rest, p, c, x, attr);
    }
  }

  lemma CutTail(a: string, body: string, after: string, p: string, c: char, y: string, attr: string)
    returns (x: string)
    requires Find(a + body + after, " : ") == Some(|a + body|)
    requires DisableDictionary(TrimEnd(a + body), attr) == Some(a + (p + [c] + y))
    ensures DisableTail(a + body + after, attr) == Some(a + (p + [c] + x))
  {
    TailAt(a + body, after, attr);
    x := y + after;
    assert a + (p + [c] + y) + after == a + (p + [c] + x);
  }

  lemma MisplacedDictionary(a: string, dict: string, q: string, attr: string)
    returns (p: string, c: char, x: string)
    requires DictToken(dict) && q <= dict && a != "" && a[|a| - 1] == '{'
    ensures p <= dict && (c == ' ' || c == '{')
    ensures DisableDictionary(a + q, attr) == Some(a + (p + [c] + x))
  {
    if q != "" && q[|q| - 1] == '}' {
      var inner := q[..|q| - 1];
      assert dict[|q| - 1] == '}' && dict[..|q| - 1] == inner;
      assert inner + "}" == q;
      p, c, x := NestedDictionary(a, dict, inner, attr);
    } else {
      p, c, x := q, ' ', "{" + attr + "}";
      assert a + q + " {" + attr + "}" == a + (p + [c] + x);
    }
  }

  lemma NestedDictionary(a: string, dict: string, inner: string, attr: string)
    returns (p: string, c: char, x: string)
    requires inner <= dict && '{' in inner
    ensures p <= dict && (c == ' ' || c == '{')
    ensures DisableDictionary(a + (inner + "}"), attr) == Some(a + (p + [c] + x))
  {
    var m := a + (inner + "}");
    var j := LastBrace(a, inner);
    assert m[..|m| - 1] == a + inner;
    p, c := inner[..j], '{';
    var added := attr + ", " + Trim((a + inner)[|a| + j + 1..]);
    x := added + "}";
    assert (a + inner)[..|a| + j] == a + p;
    assert a + p + "{" + added + "}" == a + (p + [c] + x);
  }

  /** The last brace of `a + s` is in `s`. */
  lemma {:induction false} LastBrace(a: string, s: string) returns (j: nat)
    requires '{' in s
    ensures j < |s| && RFindChar(a + s, '{') == Some(|a| + j)
  {
    if s[|s| - 1] == '{' {
      j := |s| - 1;
    } else {
      assert (a + s)[..|a + s| - 1] == a + s[..|s| - 1];
      j := LastBrace(a, s[..|s| - 1]);
    }
  }

  // ----- the exact condition -----

  lemma {:induction false} JoinContains(parts: seq<string>, sep: string, pat: string)
    requires pat in parts
    ensures Contains(Join(parts, sep), pat)
  {
    FindSpec(pat, pat);
    assert OccursAt(pat, 0, pat);
    if |parts| > 1 {
      PartsFree(parts[0] + sep, Join(parts[1..], sep), pat);
      PartsFree(parts[0], sep, pat);
      if parts[0] != pat {
        JoinContains(parts[1..], sep, pat);
      }
    }
  }

  /** What the dictionary names, the line names. */
  lemma DictOfLine(head: string, handle: string, dict: string, rest: string, pat: string)
    requires Contains(dict, pat)
    ensures Contains(head + DictTail(handle, dict, rest), pat)
  {
    var before := head + (" " + handle + " " + "{");
    PartsFree(before, dict, pat);
    PartsFree(before + dict, "}" + (" : " + rest), pat);
    assert head + DictTail(handle, dict, rest) == before + dict + ("}" + (" : " + rest));
  }

  /** The rewrite of a dictionary that does not name the attribute yet, exactly. */
  lemma DictionaryExact(handle: string, dict: string, rest: string, attr: string)
    requires HandleToken(handle) && (dict == "" || DictToken(dict))
    requires !Contains(dict, attr) && ' ' !in attr && '{' !in attr
    ensures DisableTail(DictTail(handle, dict, rest), attr) ==
            Some(DictTail(handle, attr + ", " + dict, rest)) <==>
            !Contains(dict, " : ") && '{' !in dict
  {
    if !Contains(dict, " : ") && '{' !in dict {
      DictRewritten(handle, dict, rest, attr);
    } else {
      CharFree("", " : ", ':');
      var p, c, x := MisplacedTail(handle, dict, rest, attr);
      var q := dict[|p|..];
      assert p + q == dict;
      PartsFree(p, q, attr);
      var a := " " + handle + " " + "{";
      var y := ", " + dict + "}" + (" : " + rest);
      WrongPlace(p, c, x, attr, y);
      FrontGrouped(a, attr, dict, " : " + rest);
      SameHead(a, p + [c] + x, attr + y);
    }
  }

  lemma FrontGrouped(a: string, attr: string, dict: string, after: string)
    ensures a + (attr + ", " + dict) + "}" + after == a + (attr + (", " + dict + "}" + after))
  {
  }

  lemma DictTailLength(handle: string, dict: string, rest: string)
    ensures |DictTail(handle, dict, rest)| == |handle| + |dict| + |rest| + 7
    ensures |TailText(handle, None, rest)| == |handle| + |rest| + 4
  {
  }

  /** The rewrite of an admission line disarms it if and only if the line is readable. */
  lemma AdmissionExact(indent: string, handle: string, attrs: Option<seq<string>>, rest: string)
    requires AdmissionTokens(indent, handle, attrs)
    ensures DisableAdmission(AdmissionText(indent, handle, attrs, rest)) ==
            Some(AdmissionText(indent, handle, DisarmAttrs(attrs), rest)) <==>
            AdmissionReadable(indent, handle, attrs, rest)
  {
    var line := AdmissionText(indent, handle, attrs, rest);
    var tail := TailText(handle, attrs, rest);
    var goal := TailText(handle, DisarmAttrs(attrs), rest);
    var head := indent + ADMITTED_OP;
    AdmissionParts(indent, handle, attrs, rest);
    AdmissionParts(indent, handle, DisarmAttrs(attrs), rest);
    var dict := if attrs.Some? then Join(attrs.value, ", ") else "";
    if attrs.Some? && Contains(dict, NO_OFFLOAD_ATTR) {
      DictOfLine(head, handle, dict, rest, NO_OFFLOAD_ATTR);
    }
    if attrs.Some? && NO_OFFLOAD_ATTR in attrs.value {
      JoinContains(attrs.value, ", ", NO_OFFLOAD_ATTR);
    } else {
      DisarmedText(handle, attrs, rest);
      if !Contains(line, NO_OFFLOAD_ATTR) {
        AdmissionRewrite(indent, tail);
        ExactTail(handle, attrs, rest);
        var r := DisableTail(tail, NO_OFFLOAD_ATTR);
        if r.Some? {
          SameHead(head, r.value, goal);
        }
      }
    }
  }

  /** The disarmed tail, spelled out; it is longer than the tail it came from. */
  lemma DisarmedText(handle: string, attrs: Option<seq<string>>, rest: string)
    requires attrs.Some? ==> NO_OFFLOAD_ATTR !in attrs.value
    ensures TailText(handle, DisarmAttrs(attrs), rest) ==
            if attrs.None? || attrs.value == [] then DictTail(handle, NO_OFFLOAD_ATTR, rest)
            else DictTail(handle, NO_OFFLOAD_ATTR + ", " + Join(attrs.value, ", "), rest)
    ensures |TailText(handle, DisarmAttrs(attrs), rest)| > |TailText(handle, attrs, rest)|
  {
    DictTailLength(handle, NO_OFFLOAD_ATTR, rest);
    if attrs.Some? {
      var more := [NO_OFFLOAD_ATTR] + attrs.value;
      assert more[1..] == attrs.value;
      DictTailLength(handle, Join(attrs.value, ", "), rest);
      DictTailLength(handle, Join(more, ", "), rest);
    }
  }

  lemma ExactTail(handle: string, attrs: Option<seq<string>>, rest: string)
    requires HandleToken(handle)
    requires attrs.Some? && attrs.value != [] ==> DictToken(Join(attrs.value, ", "))
    requires attrs.Some? ==> NO_OFFLOAD_ATTR !in attrs.value && !Contains(Join(attrs.value, ", "), NO_OFFLOAD_ATTR)
    ensures DisableTail(TailText(handle, attrs, rest), NO_OFFLOAD_ATTR) ==
            Some(TailText(handle, DisarmAttrs(attrs), rest)) <==>
            (attrs.Some? ==>
               && attrs.value != []
               && !Contains(Join(attrs.value, ", "), " : ")
               && '{' !in Join(attrs.value, ", "))
  {
    DisarmedText(handle, attrs, rest);
    if attrs.None? {
      PlainRewritten(handle, rest, NO_OFFLOAD_ATTR);
    } else {
      var dict := Join(attrs.value, ", ");
      DictionaryExact(handle, dict, rest, NO_OFFLOAD_ATTR);
      if attrs.value == [] {
        CharFree(dict, " : ", ':');
        DictTailLength(handle, NO_OFFLOAD_ATTR, rest);
        DictTailLength(handle, NO_OFFLOAD_ATTR + ", " + dict, rest);
      }
    }
  }

  // ----- bounds lines -----

  lemma {:induction false} DigitRunIs(d: string, s: string)
    requires Digits(d) && (s == "" || !Digit(s[0]))
    ensures DigitRun(d + s) == |d|
  {
    if d == "" {
      assert d + s == s;
    } else {
      assert (d + s)[1..] == d[1..] + s;
      DigitRunIs(d[1..], s);
    }
  }

  lemma EqualsRun(s: string)
    requires s == "" || (s[0] != ' ' && s[0] != '=')
    ensures BlankRun(" = " + s) == 3
  {
    assert (" " + s)[1..] == s;
    assert BlankRun(" " + s) == 1;
    assert ("= " + s)[1..] == " " + s;
    assert BlankRun("= " + s) == 2;
    assert (" = " + s)[1..] == "= " + s;
  }

  lemma BoundReplaced(a: string, key: string, digits: string, tail: string, bound: string)
    requires key != "" && BorderFree(key) && !Contains(a, key)
    requires digits != "" && Digits(digits) && (tail == "" || !Digit(tail[0]))
    ensures ReplaceBound(a + key + " = " + digits + tail, key, bound) ==
            Some(a + key + " = " + bound + tail)
  {
    var rest := digits + tail;
    KeyedParts(a, key, " = ", digits, tail);
    FindAfter(a, key, " = " + rest);
    assert Digit(rest[0]);
    EqualsRun(rest);
    DigitRunIs(digits, tail);
  }

  lemma KeyedParts(a: string, key: string, eq: string, digits: string, tail: string)
    ensures var line := a + key + eq + digits + tail;
            && line == a + key + (eq + (digits + tail))
            && line[|a| + |key|..] == eq + (digits + tail)
            && line[|a| + |key| + |eq|..] == digits + tail
            && line[|a| + |key| + |eq| + |digits|..] == tail
            && line[..|a| + |key| + |eq|] == a + key + eq
  {
  }

  lemma SentinelNumeral()
    ensures Decimal(999999) == NO_OFFLOAD_BOUND
  {
    assert Decimal(9) == "9";
    assert Decimal(99) == "99";
    assert Decimal(999) == "999";
    assert Decimal(9999) == "9999";
    assert Decimal(99999) == "99999";
  }

  /** The text before the bounds of a bounds line. */
  function BoundsHead(indent: string, value: string): string {
    indent + DIM_BOUNDS_OP + " " + value + ","
  }

  /** Neither key is found before the bounds. */
  predicate BoundsTokens(indent: string, value: string) {
    && AllWhite(indent)
    && !Contains(BoundsHead(indent, value), "umin") && !Contains(BoundsHead(indent, value), "umax")
  }

  /** Text between blanks is free of a pattern without blanks when each word is. */
  lemma WordsFree(a: string, b: string, pat: string)
    requires ' ' !in pat && pat != "" && !Contains(a, pat) && !Contains(b, pat)
    ensures !Contains(a + " " + b, pat)
  {
    ContainsSplit(a, ' ', b, pat);
  }

  function BoundsLine(head: string, lo: string, hi: string, rest: string): string {
    head + " " + "umin" + " = " + lo + (", umax = " + hi + " : " + rest)
  }

  lemma FirstBound(head: string, lo: string, hi: string, rest: string, bound: string)
    requires !Contains(head, "umin") && lo != "" && Digits(lo)
    ensures ReplaceBound(BoundsLine(head, lo, hi, rest), "umin", bound) ==
            Some(BoundsLine(head, bound, hi, rest))
  {
    FirstTwo("umin");
    CharFree("", "umin", 'u');
    WordsFree(head, "", "umin");
    assert head + " " + "" == head + " ";
    BoundReplaced(head + " ", "umin", lo, ", umax = " + hi + " : " + rest, bound);
  }

  lemma SecondBound(head: string, lo: string, hi: string, rest: string, bound: string)
    requires !Contains(head, "umax") && hi != "" && Digits(hi) && Digits(lo)
    ensures ReplaceBound(BoundsLine(head, lo, hi, rest), "umax", bound) ==
            Some(BoundsLine(head, lo, bound, rest))
  {
    FirstTwo("umax");
    var w := lo + ",";
    CharFree("umin", "umax", 'a');
    CharFree("=", "umax", 'a');
    CharFree(w, "umax", 'a');
    CharFree("", "umax", 'a');
    WordsFree(head, "umin", "umax");
    WordsFree(head + " " + "umin", "=", "umax");
    WordsFree(head + " " + "umin" + " " + "=", w, "umax");
    var before := head + " " + "umin" + " " + "=" + " " + w;
    WordsFree(before, "", "umax");
    assert before + " " + "" == before + " ";
    BoundReplaced(before + " ", "umax", hi, " : " + rest, bound);
    Regrouped(head, lo, hi, rest);
    Regrouped(head, lo, bound, rest);
  }

  lemma Regrouped(head: string, lo: string, hi: string, rest: string)
    ensures BoundsLine(head, lo, hi, rest) ==
            head + " " + "umin" + " " + "=" + " " + (lo + ",") + " " + "umax" + " = " + hi + (" : " + rest)
  {
  }

  lemma BoundsParts(indent: string, value: string, umin: nat, umax: nat, rest: string)
    ensures BoundsText(indent, value, umin, umax, rest) ==
            BoundsLine(BoundsHead(indent, value), Decimal(umin), Decimal(umax), rest)
  {
    BoundsGrouped(indent + DIM_BOUNDS_OP, value, Decimal(umin), Decimal(umax), rest);
  }

  lemma BoundsGrouped(a: string, value: string, lo: string, hi: string, rest: string)
    ensures a + " " + value + ", umin = " + lo + ", umax = " + hi + " : " + rest ==
            BoundsLine(a + " " + value + ",", lo, hi, rest)
  {
  }

  /** Both bounds become the sentinel, everything else stays. */
  lemma BoundsRewrite(indent: string, value: string, umin: nat, umax: nat, rest: string)
    requires BoundsTokens(indent, value)
    ensures var once := ReplaceBound(BoundsText(indent, value, umin, umax, rest), "umin", NO_OFFLOAD_BOUND);
            once.Some? &&
            ReplaceBound(once.value, "umax", NO_OFFLOAD_BOUND) ==
            Some(BoundsText(indent, value, 999999, 999999, rest))
  {
    var head := BoundsHead(indent, value);
    SentinelNumeral();
    BoundsParts(indent, value, umin, umax, rest);
    BoundsParts(indent, value, 999999, 999999, rest);
    FirstBound(head, Decimal(umin), Decimal(umax), rest, NO_OFFLOAD_BOUND);
    SecondBound(head, NO_OFFLOAD_BOUND, Decimal(umax), rest, NO_OFFLOAD_BOUND);
  }

  lemma BoundsStarts(indent: string, tail: string)
    requires AllWhite(indent)
    ensures Contains(indent + DIM_BOUNDS_OP + tail, DIM_BOUNDS_OP)
    ensures !IsComment(indent + DIM_BOUNDS_OP + tail)
  {
    ContainsMiddle(indent, DIM_BOUNDS_OP, tail);
    NotComment(indent, DIM_BOUNDS_OP, tail);
  }

  lemma BoundsSpelled(a: string, value: string, lo: string, hi: string, rest: string)
    ensures a + " " + value + ", umin = " + lo + ", umax = " + hi + " : " + rest
         == a + (" " + value + ", umin = " + lo + ", umax = " + hi + " : " + rest)
  {
  }
}
