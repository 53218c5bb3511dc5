/**
 What the rewriter does to a bounds line, whatever names stand before its bounds, and that
 rewriting a line again changes nothing.
 */
module SpecBounds {
  import opened Text
  import opened SpecRewrite
  import opened SpecLines

  // ----- runs that a digit-free pattern does not cross -----

  predicate DigitFree(pat: string) {
    pat != "" && forall i :: 0 <= i < |pat| ==> !Digit(pat[i])
  }

  /** Searching past a run of digits. */
  lemma {:induction false} FindDigits(x: string, d: string, y: string, pat: string)
    requires DigitFree(pat) && d != "" && Digits(d)
    ensures Find(x + d + y, pat) ==
            if Contains(x, pat) then Find(x, pat)
            else if Contains(y, pat) then Some(|x| + |d| + Find(y, pat).value)
            else None
    decreases |d|
  {
    hide Find;
    assert d[0] !in pat;
    FindSplit(x, d[0], d[1..] + y, pat);
    RunGroups(x, d, y);
    if |d| == 1 {
      assert d[1..] + y == y;
    } else {
      FindDigits("", d[1..], y, pat);
      assert "" + d[1..] + y == d[1..] + y;
      NothingIn(pat);
    }
  }

  lemma RunGroups(x: string, d: string, y: string)
    requires d != ""
    ensures x + d + y == x + [d[0]] + (d[1..] + y)
  {
  }

  /** One run of digits in place of another. */
  lemma DigitsBlind(x: string, d: string, e: string, y: string, pat: string)
    requires DigitFree(pat) && d != "" && e != "" && Digits(d) && Digits(e)
    ensures Contains(x + e + y, pat) <==> Contains(x + d + y, pat)
  {
    FindDigits(x, d, y, pat);
    FindDigits(x, e, y, pat);
  }

  // ----- one replacement -----

  predicate Ends(x: string) {
    x == "" || !Digit(x[|x| - 1])
  }

  predicate Starts(y: string) {
    y == "" || !Digit(y[0])
  }

  /** The text between a key and the digits that are replaced after it. */
  lemma {:induction false} BlankRunAll(s: string)
    ensures forall i :: 0 <= i < BlankRun(s) ==> s[i] == ' ' || s[i] == '='
    ensures BlankRun(s) < |s| ==> s[BlankRun(s)] != ' ' && s[BlankRun(s)] != '='
  {
    if s != "" && BlankRun(s) > 0 {
      BlankRunAll(s[1..]);
    }
  }

  lemma {:induction false} DigitRunAll(s: string)
    ensures Digits(s[..DigitRun(s)]) && Starts(s[DigitRun(s)..])
  {
    if s != "" && DigitRun(s) > 0 {
      DigitRunAll(s[1..]);
      assert s[..DigitRun(s)] == [s[0]] + s[1..][..DigitRun(s[1..])];
      assert s[DigitRun(s)..] == s[1..][DigitRun(s[1..])..];
    }
  }

  lemma BlanksPart(line: string, after: nat) returns (at: nat)
    requires after <= |line|
    ensures at == after + BlankRun(line[after..]) && at <= |line|
    ensures BlankRun(line[..at][after..]) == at - after
    ensures at > after ==> !Digit(line[at - 1])
  {
    var rest := line[after..];
    at := after + BlankRun(rest);
    BlankRunAll(rest);
    BlankRunWhole(rest, at - after);
    assert line[..at][after..] == rest[..at - after];
    assert at > after ==> line[at - 1] == rest[at - after - 1];
  }

  lemma DigitsPart(line: string, at: nat) returns (end: nat)
    requires at <= |line|
    ensures end == at + DigitRun(line[at..]) && end <= |line|
    ensures Digits(line[at..end]) && Starts(line[end..])
  {
    var rest := line[at..];
    end := at + DigitRun(rest);
    DigitRunAll(rest);
    assert line[at..end] == rest[..end - at] && line[end..] == rest[end - at..];
  }

  lemma KeyEnds(line: string, key: string)
    requires key != "" && Ends(key) && Contains(line, key)
    ensures !Digit(line[Find(line, key).value + |key| - 1])
  {
    FindSpec(line, key);
    var i := Find(line, key).value;
    assert line[i + (|key| - 1)] == key[|key| - 1];
  }

  /** A replaced line: one whole run of digits after the first key. */
  lemma Replaced(line: string, key: string, bound: string) returns (x: string, d: string, y: string)
    requires key != "" && Ends(key) && ReplaceBound(line, key, bound).Some?
    ensures line == x + d + y && ReplaceBound(line, key, bound) == Some(x + bound + y)
    ensures d != "" && Digits(d) && Ends(x) && Starts(y)
    ensures var after := Find(line, key).value + |key|; after <= |x| && BlankRun(x[after..]) == |x| - after
  {
    var after := Find(line, key).value + |key|;
    KeyEnds(line, key);
    hide Find, Contains;
    var at := BlanksPart(line, after);
    var end := DigitsPart(line, at);
    hide BlankRun, DigitRun;
    x, d, y := line[..at], line[at..end], line[end..];
    Pieces(line, at, end);
  }

  lemma Pieces(line: string, i: nat, j: nat)
    requires i <= j <= |line|
    ensures line == line[..i] + line[i..j] + line[j..]
  {
  }

  lemma {:induction false} BlankRunWhole(s: string, n: nat)
    requires n == BlankRun(s)
    ensures BlankRun(s[..n]) == n
  {
    if n > 0 {
      assert s[..n][1..] == s[1..][..n - 1];
      BlankRunWhole(s[1..], n - 1);
    }
  }

  lemma {:induction false} BlankRunGoesOn(u: string, v: string)
    ensures BlankRun(u + v) == if BlankRun(u) < |u| then BlankRun(u) else |u| + BlankRun(v)
  {
    if u == "" {
      assert u + v == v;
    } else {
      assert (u + v)[1..] == u[1..] + v;
      BlankRunGoesOn(u[1..], v);
    }
  }

  lemma {:induction false} DigitRunGoesOn(u: string, v: string)
    ensures DigitRun(u + v) == if DigitRun(u) < |u| then DigitRun(u) else |u| + DigitRun(v)
  {
    if u == "" {
      assert u + v == v;
    } else {
      assert (u + v)[1..] == u[1..] + v;
      DigitRunGoesOn(u[1..], v);
    }
  }

  /** The replacement, by where the digits after the first key start and end. */
  lemma ReplacedAt(line: string, key: string, after: nat, at: nat, end: nat, bound: string)
    requires Contains(line, key) && after == Find(line, key).value + |key| <= at <= end <= |line|
    requires at == after + BlankRun(line[after..]) && end == at + DigitRun(line[at..])
    ensures ReplaceBound(line, key, bound) == if end == at then None else Some(line[..at] + bound + line[end..])
  {
  }

  lemma LineParts(front: string, blanks: string, d: string, y: string)
    ensures var line := front + blanks + d + y;
            && line[|front|..] == blanks + (d + y) && line[|front| + |blanks|..] == d + y
            && line[|front| + |blanks| + |d|..] == y && line[..|front| + |blanks|] == front + blanks
  {
  }

  /** What is found after the first key when blanks and a run of digits follow it. */
  lemma ReplaceAt(front: string, key: string, blanks: string, d: string, y: string, bound: string)
    requires var line := front + blanks + d + y;
             Contains(line, key) && |front| == Find(line, key).value + |key|
    requires BlankRun(blanks) == |blanks| && d != "" && Digits(d) && Starts(y)
    ensures ReplaceBound(front + blanks + d + y, key, bound) == Some(front + blanks + bound + y)
  {
    hide Find, Contains, ReplaceBound;
    BlankRunGoesOn(blanks, d + y);
    NotBlank(d, y);
    DigitRunIs(d, y);
    hide BlankRun, DigitRun;
    LineParts(front, blanks, d, y);
    ReplacedAt(front + blanks + d + y, key, |front|, |front| + |blanks|, |front| + |blanks| + |d|, bound);
  }

  lemma NotBlank(d: string, y: string)
    requires d != "" && Digits(d)
    ensures BlankRun(d + y) == 0
  {
    assert (d + y)[0] == d[0] && Digit(d[0]);
  }

  // ----- rewriting again -----

  /** Replacing the digits by ones that are there already changes nothing. */
  lemma ReplacedAgain(line: string, key: string, bound: string)
    requires DigitFree(key) && bound != "" && Digits(bound) && ReplaceBound(line, key, bound).Some?
    ensures var once := ReplaceBound(line, key, bound).value; ReplaceBound(once, key, bound) == Some(once)
  {
    KeyShape(key);
    hide *;
    var x, d, y := Replaced(line, key, bound);
    KeyFound(line, key, bound);
    FoundSome(line, key);
    ConcatAssoc(x, d, y);
    FoundInFront(x, d + y, key, Find(line, key).value + |key|);
    FoundSome(x, key);
    SettledInFront(x, bound, y, key);
  }

  lemma KeyShape(key: string)
    requires DigitFree(key)
    ensures key != "" && Ends(key)
  {
  }

  lemma KeyFound(line: string, key: string, bound: string)
    requires ReplaceBound(line, key, bound).Some?
    ensures Contains(line, key)
  {
  }

  /** The digits after the key, wholly replaced. */
  lemma SettledInFront(x: string, bound: string, y: string, key: string)
    requires Contains(x, key) && Find(x, key).value + |key| <= |x|
    requires var after := Find(x, key).value + |key|; BlankRun(x[after..]) == |x| - after
    requires bound != "" && Digits(bound) && Starts(y)
    ensures ReplaceBound(x + bound + y, key, bound) == Some(x + bound + y)
  {
    var after := Find(x, key).value + |key|;
    StaysFound(x, bound + y, key);
    assert x + bound + y == x + (bound + y) && x[..after] + x[after..] == x;
    ReplaceAt(x[..after], key, x[after..], bound, y, bound);
  }

  /** A key found wholly inside the front is found there. */
  lemma FoundInFront(x: string, v: string, key: string, after: nat)
    requires Contains(x + v, key) && after == Find(x + v, key).value + |key| <= |x|
    ensures Find(x, key) == Find(x + v, key)
  {
    var i := after - |key|;
    FindSpec(x + v, key);
    OccursFront(x, v, key, i);
    forall j | 0 <= j < i ensures !OccursAt(x, j, key) {
      OccursFront(x, v, key, j);
    }
    FindIs(x, key, i);
  }

  /** Where a replaced run stands, relative to a key: in front of the key, behind it, or at its digits. */
  lemma FixedStays(x: string, d: string, y: string, key: string, bound: string)
    requires DigitFree(key) && bound != "" && Digits(bound)
    requires d != "" && Digits(d) && Ends(x) && Starts(y)
    requires ReplaceBound(x + d + y, key, bound) == Some(x + d + y)
    ensures ReplaceBound(x + bound + y, key, bound) == Some(x + bound + y)
  {
    var line := x + d + y;
    FindDigits(x, d, y, key);
    FindDigits(x, bound, y, key);
    if Contains(x, key) {
      var after := Find(x, key).value + |key|;
      FixedInFront(x, d, y, key, bound, after);
    } else {
      var i := Find(y, key).value;
      FixedBehind(x, d, y, key, bound, i + |key|);
    }
  }

  lemma FixedBehind(x: string, d: string, y: string, key: string, bound: string, k: nat)
    requires k <= |y| && Contains(x + d + y, key) && Find(x + d + y, key).value + |key| == |x| + |d| + k
    requires Contains(x + bound + y, key) && Find(x + bound + y, key).value + |key| == |x| + |bound| + k
    requires ReplaceBound(x + d + y, key, bound) == Some(x + d + y)
    ensures ReplaceBound(x + bound + y, key, bound) == Some(x + bound + y)
  {
    hide Find, Contains, ReplaceBound, BlankRun, DigitRun;
    var at := k + BlankRun(y[k..]);
    var end := at + DigitRun(y[at..]);
    BehindParts(x + d, y, k);
    BehindParts(x + d, y, at);
    BehindParts(x + d, y, end);
    BehindParts(x + bound, y, k);
    BehindParts(x + bound, y, at);
    BehindParts(x + bound, y, end);
    ReplacedAt(x + d + y, key, |x + d| + k, |x + d| + at, |x + d| + end, bound);
    ReplacedAt(x + bound + y, key, |x + bound| + k, |x + bound| + at, |x + bound| + end, bound);
    BehindGroups(x + d, y[..at], bound, y[end..]);
    BehindGroups(x + bound, y[..at], bound, y[end..]);
    SameHead(x + d, y[..at] + bound + y[end..], y);
  }

  lemma BehindGroups(a: string, b: string, c: string, d: string)
    ensures a + b + c + d == a + (b + c + d)
  {
  }

  lemma BehindParts(a: string, y: string, k: nat)
    requires k <= |y|
    ensures (a + y)[|a| + k..] == y[k..] && (a + y)[..|a| + k] == a + y[..k]
  {
  }

  lemma FixedInFront(x: string, d: string, y: string, key: string, bound: string, after: nat)
    requires bound != "" && Digits(bound) && d != "" && Digits(d) && Ends(x) && Starts(y)
    requires Contains(x, key) && Find(x, key).value + |key| == after <= |x|
    requires Contains(x + d + y, key) && Find(x + d + y, key) == Find(x, key)
    requires Contains(x + bound + y, key) && Find(x + bound + y, key) == Find(x, key)
    requires ReplaceBound(x + d + y, key, bound) == Some(x + d + y)
    ensures ReplaceBound(x + bound + y, key, bound) == Some(x + bound + y)
  {
    hide Find, ReplaceBound;
    BlanksInside(x, d, y, after);
    BlanksInside(x, bound, y, after);
    hide BlankRun;
    if BlankRun(x[after..]) < |x| - after {
      FixedInside(x, d, y, key, bound, after + BlankRun(x[after..]));
    } else {
      SettledInFront(x, bound, y, key);
    }
  }

  lemma BlanksInside(x: string, d: string, y: string, after: nat)
    requires after <= |x| && d != "" && Digits(d)
    ensures BlankRun((x + d + y)[after..]) == BlankRun(x[after..])
  {
    FrontCut(x, d, y, after);
    BlankRunGoesOn(x[after..], d + y);
    NotBlank(d, y);
  }

  /** The digits of the key end inside the front. */
  lemma FixedInside(x: string, d: string, y: string, key: string, bound: string, at: nat)
    requires d != "" && Digits(d) && bound != "" && Digits(bound) && Ends(x) && at < |x|
    requires Contains(x + d + y, key) && Contains(x + bound + y, key)
    requires var s := x + d + y;
             var after := Find(s, key).value + |key|; after <= |x| && after + BlankRun(s[after..]) == at
    requires var s := x + bound + y;
             var after := Find(s, key).value + |key|; after <= |x| && after + BlankRun(s[after..]) == at
    requires ReplaceBound(x + d + y, key, bound) == Some(x + d + y)
    ensures ReplaceBound(x + bound + y, key, bound) == Some(x + bound + y)
  {
    hide *;
    FoundSome(x + d + y, key);
    FoundSome(x + bound + y, key);
    var end := RunInside(x, d, y, at);
    var end' := RunInside(x, bound, y, at);
    InsideLength(x, d, y);
    InsideLength(x, bound, y);
    ReplacedAt(x + d + y, key, Find(x + d + y, key).value + |key|, at, end, bound);
    ReplacedAt(x + bound + y, key, Find(x + bound + y, key).value + |key|, at, end, bound);
    InsideSame(x, d, y, bound, at, end);
  }

  lemma InsideLength(x: string, d: string, y: string)
    ensures |x| <= |x + d + y|
  {
  }

  lemma InsideSame(x: string, d: string, y: string, bound: string, at: nat, end: nat)
    requires at <= end <= |x|
    ensures var s, t := x + d + y, x + bound + y;
            s[..at] + bound + s[end..] == s ==> t[..at] + bound + t[end..] == t
  {
    FrontCut(x, d, y, at);
    FrontCut(x, d, y, end);
    FrontCut(x, bound, y, at);
    FrontCut(x, bound, y, end);
    var front := x[..at] + bound + x[end..];
    FrontGroups(x[..at], bound, x[end..], d + y);
    FrontGroups(x[..at], bound, x[end..], bound + y);
    if front + (d + y) == x + (d + y) {
      SameEnd(front, x, d + y);
    }
  }

  lemma FrontGroups(a: string, b: string, c: string, v: string)
    ensures a + b + (c + v) == a + b + c + v
  {
  }

  lemma RunInside(x: string, d: string, y: string, at: nat) returns (end: nat)
    requires at < |x| && Ends(x)
    ensures end == at + DigitRun(x[at..]) <= |x| && end == at + DigitRun((x + d + y)[at..])
  {
    end := at + DigitRun(x[at..]);
    assert x[at..][|x| - at - 1] == x[|x| - 1];
    EndsShort(x[at..]);
    DigitRunGoesOn(x[at..], d + y);
    FrontCut(x, d, y, at);
  }

  lemma FrontCut(x: string, d: string, y: string, i: nat)
    requires i <= |x|
    ensures (x + d + y)[..i] == x[..i] && (x + d + y)[i..] == x[i..] + (d + y)
    ensures x + d + y == x + (d + y)
  {
  }

  /** Text that ends in no digit does not end in its digits. */
  lemma EndsShort(s: string)
    requires s != "" && Ends(s)
    ensures DigitRun(s) < |s|
  {
    DigitRunAll(s);
    if DigitRun(s) == |s| {
      assert s[..DigitRun(s)] == s;
      assert false;
    }
  }

  // ----- the whole line again -----

  /** Whether a line is a comment shows in what stands before its first op name or key. */
  lemma CommentFront(p: string, u: string, v: string)
    requires |TrimStart(p)| >= 2
    ensures IsComment(p + u) <==> IsComment(p + v)
  {
    TrimStartFront(p, u);
    TrimStartFront(p, v);
    var t := TrimStart(p);
    assert "//" <= t + u <==> t[0] == '/' && t[1] == '/' by {
      assert (t + u)[0] == t[0] && (t + u)[1] == t[1];
    }
    assert "//" <= t + v <==> t[0] == '/' && t[1] == '/' by {
      assert (t + v)[0] == t[0] && (t + v)[1] == t[1];
    }
  }

  lemma {:induction false} TrimStartFront(p: string, u: string)
    requires TrimStart(p) != ""
    ensures TrimStart(p + u) == TrimStart(p) + u
  {
    if White(p[0]) {
      assert (p + u)[1..] == p[1..] + u;
      TrimStartFront(p[1..], u);
    }
  }

  lemma {:induction false} TrimStartKeeps(p: string, k: string)
    requires |k| >= 2 && !White(k[0])
    ensures |TrimStart(p + k)| >= 2
  {
    if p == "" {
      assert p + k == k;
    } else if White(p[0]) {
      assert (p + k)[1..] == p[1..] + k;
      TrimStartKeeps(p[1..], k);
    }
  }

  lemma {:induction false} TrimStartMore(p: string, u: string)
    requires |TrimStart(p)| >= 2
    ensures |TrimStart(p + u)| >= 2
  {
    TrimStartFront(p, u);
  }

  /** A replaced line reads alike but for its digits. */
  lemma ReplacedReads(line: string, key: string, bound: string)
    requires |key| >= 2 && DigitFree(key) && !White(key[0]) && bound != "" && Digits(bound)
    requires ReplaceBound(line, key, bound).Some?
    ensures var t := ReplaceBound(line, key, bound).value;
            && (IsComment(t) <==> IsComment(line))
            && forall pat :: DigitFree(pat) ==> (Contains(t, pat) <==> Contains(line, pat))
  {
    var x, d, y := Replaced(line, key, bound);
    assert x + (d + y) == line && x + bound + y == x + (bound + y);
    FoundInFront(x, d + y, key, Find(line, key).value + |key|);
    KeyedFront(x, key);
    CommentFront(x, d + y, bound + y);
    forall pat | DigitFree(pat) ensures Contains(x + bound + y, pat) <==> Contains(line, pat) {
      DigitsBlind(x, d, bound, y, pat);
    }
  }

  lemma KeyedFront(x: string, key: string)
    requires |key| >= 2 && !White(key[0]) && Contains(x, key)
    ensures |TrimStart(x)| >= 2
  {
    var i := Find(x, key).value;
    FindSpec(x, key);
    var p, q := x[..i], x[i + |key|..];
    OccursParts(x, i, key);
    TrimStartKeeps(p, key);
    TrimStartMore(p + key, q);
  }

  lemma OccursParts(x: string, i: nat, key: string)
    requires OccursAt(x, i, key)
    ensures x == x[..i] + key + x[i + |key|..]
  {
    assert x[i..i + |key|] == key;
    assert x == x[..i] + x[i..i + |key|] + x[i + |key|..];
  }

  /** An admission line that was rewritten carries the attribute, so it is kept from then on. */
  lemma AdmissionAgain(line: string)
    requires !IsComment(line) && Contains(line, ADMITTED_OP) && DisableAdmission(line).Some?
    ensures RewriteLine(DisableAdmission(line).value) == Defeated(DisableAdmission(line).value)
  {
    if !Contains(line, NO_OFFLOAD_ATTR) {
      var at := Find(line, ADMITTED_OP).value;
      FindSpec(line, ADMITTED_OP);
      OccursParts(line, at, ADMITTED_OP);
      var p, tail := line[..at], line[at + |ADMITTED_OP|..];
      var new_ := DisableTail(tail, NO_OFFLOAD_ATTR).value;
      AttributeThere(tail, NO_OFFLOAD_ATTR);
      AdmittedFront(p, tail, new_);
    }
  }

  lemma AdmittedFront(p: string, tail: string, new_: string)
    requires !IsComment(p + ADMITTED_OP + tail) && Contains(new_, NO_OFFLOAD_ATTR)
    ensures RewriteLine(p + ADMITTED_OP + new_) == Defeated(p + ADMITTED_OP + new_)
  {
    hide DisableTail, TrimStart;
    PartsFree(p + ADMITTED_OP, new_, NO_OFFLOAD_ATTR);
    ContainsMiddle(p, ADMITTED_OP, new_);
    TrimStartKeeps(p, ADMITTED_OP);
    CommentFront(p + ADMITTED_OP, tail, new_);
  }

  lemma AttributeThere(tail: string, attr: string)
    requires DisableTail(tail, attr).Some?
    ensures Contains(DisableTail(tail, attr).value, attr)
  {
    var colon := Find(tail, " : ").value;
    DictionaryThere(TrimEnd(tail[..colon]), attr);
    PartsFree(DisableDictionary(TrimEnd(tail[..colon]), attr).value, tail[colon..], attr);
  }

  lemma DictionaryThere(middle: string, attr: string)
    requires DisableDictionary(middle, attr).Some?
    ensures Contains(DisableDictionary(middle, attr).value, attr)
  {
    var out := DisableDictionary(middle, attr).value;
    if middle != "" && middle[|middle| - 1] == '}' {
      var head := middle[..|middle| - 1];
      var open := RFindChar(head, '{').value;
      var rest := Trim(head[open + 1..]);
      ContainsMiddle(head[..open] + "{", attr, ", " + rest + "}");
      AttributeGroups(head[..open], attr, rest);
    } else {
      ContainsMiddle(middle + " {", attr, "}");
    }
  }

  lemma AttributeGroups(a: string, attr: string, rest: string)
    ensures a + "{" + (attr + ", " + rest) + "}" == a + "{" + attr + (", " + rest + "}")
  {
  }

  lemma KeysDigitFree()
    ensures DigitFree("umin") && DigitFree("umax") && DigitFree(ADMITTED_OP) && DigitFree(DIM_BOUNDS_OP)
    ensures Digits(NO_OFFLOAD_BOUND)
  {
  }

  /** A bounds line that was rewritten comes out of a second rewrite as it is. */
  lemma BoundsAgain(line: string, once: string, twice: string)
    requires !IsComment(line) && !Contains(line, ADMITTED_OP) && Contains(line, DIM_BOUNDS_OP)
    requires ReplaceBound(line, "umin", NO_OFFLOAD_BOUND) == Some(once)
    requires ReplaceBound(once, "umax", NO_OFFLOAD_BOUND) == Some(twice)
    ensures RewriteLine(twice) == Defeated(twice)
  {
    KeysDigitFree();
    hide ReplaceBound, Contains, IsComment, DigitFree;
    ReplacedReads(line, "umin", NO_OFFLOAD_BOUND);
    ReplacedReads(once, "umax", NO_OFFLOAD_BOUND);
    ReplacedAgain(line, "umin", NO_OFFLOAD_BOUND);
    ReplacedAgain(once, "umax", NO_OFFLOAD_BOUND);
    assert Ends("umax");
    var x, d, y := Replaced(once, "umax", NO_OFFLOAD_BOUND);
    FixedStays(x, d, y, "umin", NO_OFFLOAD_BOUND);
  }

  /** Rewriting is idempotent on every line: what a rewrite gives, the next one gives back. */
  lemma RewriteAgain(line: string, t: string)
    requires RewriteLine(line) == Defeated(t)
    ensures RewriteLine(t) == Defeated(t)
  {
    if Contains(line, ADMITTED_OP) {
      AdmissionAgain(line);
    } else {
      BoundsAgain(line, ReplaceBound(line, "umin", NO_OFFLOAD_BOUND).value, t);
    }
  }

  // ----- a bounds line, exactly -----

  /** A bounds line up to the comma in front of its bounds. */
  function BoundsName(indent: string, value: string): string {
    indent + DIM_BOUNDS_OP + " " + value
  }

  /** The part of a bounds line from its bounds on. */
  function BoundsTail(umin: nat, umax: nat, rest: string): string {
    " umin = " + Decimal(umin) + ", umax = " + Decimal(umax) + " : " + rest
  }

  /** What a replacement makes of the text before the comma: it takes place there if the key is there. */
  function NameRewrite(a: string, key: string): Option<string> {
    if Contains(a, key) then ReplaceBound(a, key, NO_OFFLOAD_BOUND) else Some(a)
  }

  /** A key found before a separator: the replacement happens before it, or fails. */
  lemma ReplacedBefore(a: string, key: string, c: char, b: string, bound: string)
    requires Contains(a, key) && c !in key && key != "" && c != ' ' && c != '=' && !Digit(c)
    ensures ReplaceBound(a + [c] + b, key, bound) ==
            match ReplaceBound(a, key, bound) case None => None case Some(h) => Some(h + [c] + b)
  {
    var line := a + [c] + b;
    FindSplit(a, c, b, key);
    var after := Find(a, key).value + |key|;
    MarkDropped(a, c, b, after);
    BlankRunGoesOn(a[after..], [c] + b);
    var at := after + BlankRun(a[after..]);
    MarkDropped(a, c, b, at);
    DigitRunGoesOn(a[at..], [c] + b);
    var end := at + DigitRun(a[at..]);
    MarkDropped(a, c, b, end);
    assert ([c] + b)[0] == c;
    hide BlankRun, DigitRun, Find, Contains, ReplaceBound;
    ReplacedAt(line, key, after, at, end, bound);
    ReplacedAt(a, key, after, at, end, bound);
    CutShape(a[..at], bound, a[end..], [c], b);
  }

  lemma MarkDropped(a: string, c: char, b: string, i: nat)
    requires i <= |a|
    ensures (a + [c] + b)[i..] == a[i..] + ([c] + b) && (a + [c] + b)[..i] == a[..i]
  {
  }

  lemma CutShape(a: string, bound: string, c: string, sep: string, b: string)
    ensures a + bound + (c + (sep + b)) == a + bound + c + sep + b
  {
  }

  lemma KeyBeforeComma(a: string, key: string)
    requires ',' !in key && key != ""
    ensures Contains(a + ",", key) <==> Contains(a, key)
  {
    assert a + "," == a + [','] + "";
    ContainsSplit(a, ',', "", key);
    NothingIn(key);
  }

  lemma TailParts(a: string, lo: string, hi: string, rest: string)
    ensures BoundsLine(a + ",", lo, hi, rest) == a + "," + (" umin = " + lo + ", umax = " + hi + " : " + rest)
  {
  }

  /** The lower bound of a line, or the name in front of it. */
  lemma LowerReplaced(a: string, umin: nat, umax: nat, rest: string)
    ensures ReplaceBound(a + "," + BoundsTail(umin, umax, rest), "umin", NO_OFFLOAD_BOUND) ==
            match NameRewrite(a, "umin")
            case None => None
            case Some(h) => Some(h + "," + BoundsTail(if Contains(a, "umin") then umin else 999999, umax, rest))
  {
    if Contains(a, "umin") {
      ReplacedBefore(a, "umin", ',', BoundsTail(umin, umax, rest), NO_OFFLOAD_BOUND);
    } else {
      hide Contains, ReplaceBound;
      SentinelNumeral();
      KeyBeforeComma(a, "umin");
      TailParts(a, Decimal(umin), Decimal(umax), rest);
      TailParts(a, NO_OFFLOAD_BOUND, Decimal(umax), rest);
      FirstBound(a + ",", Decimal(umin), Decimal(umax), rest, NO_OFFLOAD_BOUND);
    }
  }

  lemma UpperReplaced(a: string, umin: nat, umax: nat, rest: string)
    ensures ReplaceBound(a + "," + BoundsTail(umin, umax, rest), "umax", NO_OFFLOAD_BOUND) ==
            match NameRewrite(a, "umax")
            case None => None
            case Some(h) => Some(h + "," + BoundsTail(umin, if Contains(a, "umax") then umax else 999999, rest))
  {
    if Contains(a, "umax") {
      ReplacedBefore(a, "umax", ',', BoundsTail(umin, umax, rest), NO_OFFLOAD_BOUND);
    } else {
      hide Contains, ReplaceBound;
      SentinelNumeral();
      KeyBeforeComma(a, "umax");
      TailParts(a, Decimal(umin), Decimal(umax), rest);
      TailParts(a, Decimal(umin), NO_OFFLOAD_BOUND, rest);
      SecondBound(a + ",", Decimal(umin), Decimal(umax), rest, NO_OFFLOAD_BOUND);
    }
  }

  /** Rewriting one key's digits in a name neither adds nor removes the other key. */
  lemma NameKeeps(a: string, key: string, other: string)
    requires |key| >= 2 && DigitFree(key) && !White(key[0]) && DigitFree(other)
    requires NameRewrite(a, key).Some?
    ensures Contains(NameRewrite(a, key).value, other) <==> Contains(a, other)
  {
    if Contains(a, key) {
      KeysDigitFree();
      ReplacedReads(a, key, NO_OFFLOAD_BOUND);
    }
  }

  /** The name after both replacements; `None` when a key in it has no digits after it. */
  function NameTwice(a: string): Option<string> {
    match NameRewrite(a, "umin")
    case None => None
    case Some(h) => NameRewrite(h, "umax")
  }

  lemma BothReplaced(a: string, umin: nat, umax: nat, rest: string)
    ensures var line := a + "," + BoundsTail(umin, umax, rest);
            var once := ReplaceBound(line, "umin", NO_OFFLOAD_BOUND);
            (match once case None => None case Some(t) => ReplaceBound(t, "umax", NO_OFFLOAD_BOUND)) ==
            (match NameTwice(a)
             case None => None
             case Some(h) => Some(h + "," + BoundsTail(if Contains(a, "umin") then umin else 999999,
                                                      if Contains(a, "umax") then umax else 999999, rest)))
  {
    KeysDigitFree();
    hide Contains, ReplaceBound, NameRewrite, BoundsTail, DigitFree;
    LowerReplaced(a, umin, umax, rest);
    var h := NameRewrite(a, "umin");
    if h.Some? {
      NameKeeps(a, "umin", "umax");
      UpperReplaced(h.value, if Contains(a, "umin") then umin else 999999, umax, rest);
    }
  }

  lemma BoundsShape(indent: string, value: string, umin: nat, umax: nat, rest: string)
    ensures BoundsText(indent, value, umin, umax, rest) ==
            BoundsName(indent, value) + "," + BoundsTail(umin, umax, rest)
    ensures BoundsName(indent, value) + "," == BoundsHead(indent, value)
  {
    BoundsParts(indent, value, umin, umax, rest);
    TailParts(BoundsName(indent, value), Decimal(umin), Decimal(umax), rest);
  }

  lemma BoundsOpens(indent: string, value: string, umin: nat, umax: nat, rest: string)
    requires AllWhite(indent)
    ensures var line := BoundsText(indent, value, umin, umax, rest);
            !IsComment(line) && Contains(line, DIM_BOUNDS_OP)
  {
    var tail := " " + value + ", umin = " + Decimal(umin) + ", umax = " + Decimal(umax) + " : " + rest;
    BoundsStarts(indent, tail);
    BoundsSpelled(indent + DIM_BOUNDS_OP, value, Decimal(umin), Decimal(umax), rest);
  }

  /**
   The rewrite of any bounds line: a bound stays as it was exactly when its key stands in the
   name before it, as in `%umin3`; the digits after that key are replaced instead, and without
   any the line is refused.
   */
  lemma BoundsLineExact(indent: string, value: string, umin: nat, umax: nat, rest: string)
    requires AllWhite(indent) && !Contains(BoundsText(indent, value, umin, umax, rest), ADMITTED_OP)
    ensures var line, a := BoundsText(indent, value, umin, umax, rest), BoundsName(indent, value);
            RewriteLine(line) ==
            match NameTwice(a)
            case None => Unreadable(UnreadableBounds(Trim(line)))
            case Some(h) => Defeated(h + "," + BoundsTail(if Contains(a, "umin") then umin else 999999,
                                                          if Contains(a, "umax") then umax else 999999, rest))
  {
    var line, a := BoundsText(indent, value, umin, umax, rest), BoundsName(indent, value);
    BoundsOpens(indent, value, umin, umax, rest);
    BoundsShape(indent, value, umin, umax, rest);
    hide Contains, ReplaceBound, NameTwice, BoundsTail, BoundsText, IsComment, BoundsName;
    BothReplaced(a, umin, umax, rest);
  }

  // ----- when both bounds are lost -----

  lemma NoMoreDigits(a: string, d: string, b: string, e: string)
    requires Digits(e) && Ends(a) && a + d == b + e
    ensures |e| <= |d|
  {
    assert |a| + |d| == |b| + |e|;
    assert forall i :: |b| <= i < |b + e| ==> Digit((b + e)[i]);
    assert a != "" ==> (a + d)[|a| - 1] == a[|a| - 1];
  }

  /** The digits at the end of two equal texts are the same. */
  lemma DigitsAtEnd(a: string, d: string, b: string, e: string)
    requires Digits(d) && Digits(e) && Ends(a) && Ends(b) && a + d == b + e
    ensures a == b && d == e
  {
    NoMoreDigits(a, d, b, e);
    NoMoreDigits(b, e, a, d);
    assert |a| == |b| && a == (a + d)[..|a|] && b == (b + e)[..|b|];
    SameHead(a, d, e);
  }

  /** The bounds of a rewritten line can be read off it in one way. */
  lemma BoundsReadOff(h: string, p: nat, q: nat, g: string, p': nat, q': nat, rest: string)
    requires h + "," + BoundsTail(p, q, rest) == g + "," + BoundsTail(p', q', rest)
    ensures h == g && p == p' && q == q'
  {
    var x, x' := h + ", umin = " + Decimal(p) + ", umax = ", g + ", umin = " + Decimal(p') + ", umax = ";
    TailEnds(h, Decimal(p), Decimal(q), rest);
    TailEnds(g, Decimal(p'), Decimal(q'), rest);
    SameEnd(x + Decimal(q), x' + Decimal(q'), " : " + rest);
    DigitsAtEnd(x, Decimal(q), x', Decimal(q'));
    DecimalValue(q);
    DecimalValue(q');
    var z, z' := h + ", umin = ", g + ", umin = ";
    SameEnd(z + Decimal(p), z' + Decimal(p'), ", umax = ");
    DigitsAtEnd(z, Decimal(p), z', Decimal(p'));
    DecimalValue(p);
    DecimalValue(p');
    SameEnd(h, g, ", umin = ");
  }

  lemma TailEnds(h: string, lo: string, hi: string, rest: string)
    ensures h + "," + (" umin = " + lo + ", umax = " + hi + " : " + rest) ==
            h + ", umin = " + lo + ", umax = " + hi + (" : " + rest)
  {
  }

  /**
   Both bounds of the line that comes out are 999999 if and only if the rewrite can read the
   line and neither key stands in the name, or the bound it misses was 999999 already.
   */
  lemma BoundsLostExact(indent: string, value: string, umin: nat, umax: nat, rest: string)
    requires AllWhite(indent) && !Contains(BoundsText(indent, value, umin, umax, rest), ADMITTED_OP)
    ensures var a := BoundsName(indent, value);
            (exists h :: RewriteLine(BoundsText(indent, value, umin, umax, rest)) ==
                         Defeated(h + "," + BoundsTail(999999, 999999, rest))) <==>
            NameTwice(a).Some?
            && (Contains(a, "umin") ==> umin == 999999) && (Contains(a, "umax") ==> umax == 999999)
    ensures BoundsTokens(indent, value) ==> NameTwice(BoundsName(indent, value)) == Some(BoundsName(indent, value))
  {
    var line, a := BoundsText(indent, value, umin, umax, rest), BoundsName(indent, value);
    BoundsLineExact(indent, value, umin, umax, rest);
    KeyBeforeComma(a, "umin");
    KeyBeforeComma(a, "umax");
    hide Contains, RewriteLine, BoundsText, BoundsTail;
    var lo := if Contains(a, "umin") then umin else 999999;
    var hi := if Contains(a, "umax") then umax else 999999;
    if NameTwice(a).Some? {
      var g := NameTwice(a).value;
      forall h | Defeated(g + "," + BoundsTail(lo, hi, rest)) == Defeated(h + "," + BoundsTail(999999, 999999, rest))
        ensures lo == 999999 && hi == 999999
      {
        BoundsReadOff(g, lo, hi, h, 999999, 999999, rest);
      }
    }
  }

  lemma NotInOp(i: nat)
    ensures !OccursAt(DIM_BOUNDS_OP, i, "umin")
  {
    assert "umin"[0] == 'u' && "umin"[1] == 'm';
    LetterAt(DIM_BOUNDS_OP, i, "umin", 0);
    LetterAt(DIM_BOUNDS_OP, i, "umin", 1);
  }

  /** A name that ends in a key and digits. */
  lemma KeyedName(front: string, key: string, d: string, bound: string)
    requires key != "" && BorderFree(key) && !Contains(front, key) && d != "" && Digits(d)
    ensures Contains(front + key + d, key) && ReplaceBound(front + key + d, key, bound) == Some(front + key + bound)
  {
    FindAfter(front, key, d);
    assert front + key + d == (front + key) + "" + d + "";
    hide Find, Contains, ReplaceBound, BorderFree;
    assert Find(front + key + d, key).Some? && |front + key| == |front| + |key|;
    FoundSome(front + key + d, key);
    ReplaceAt(front + key, key, "", d, "", bound);
    assert (front + key) + "" + bound + "" == front + key + bound;
  }

  lemma OpFront()
    ensures !Contains(DIM_BOUNDS_OP + " " + "%", "umin")
  {
    FindSpec(DIM_BOUNDS_OP, "umin");
    forall i: nat ensures !OccursAt(DIM_BOUNDS_OP, i, "umin") {
      NotInOp(i);
    }
    CharFree("%", "umin", 'u');
    hide Contains;
    ContainsSplit(DIM_BOUNDS_OP, ' ', "%", "umin");
  }

  lemma NoUmax(d: string)
    requires Digits(d)
    ensures !Contains(DIM_BOUNDS_OP + " " + "%" + "umin" + d, "umax")
  {
    CharFree(DIM_BOUNDS_OP + " " + "%" + "umin" + d, "umax", 'x');
  }

  lemma NameSpelled()
    ensures BoundsName("", "%umin3") == DIM_BOUNDS_OP + " " + "%" + "umin" + "3"
    ensures BoundsName("", "%umin999999") == DIM_BOUNDS_OP + " " + "%" + "umin" + NO_OFFLOAD_BOUND
  {
    SpelledName(DIM_BOUNDS_OP, "3");
    SpelledName(DIM_BOUNDS_OP, NO_OFFLOAD_BOUND);
    assert "%umin" + "3" == "%umin3" && "%umin" + NO_OFFLOAD_BOUND == "%umin999999";
  }

  lemma SpelledName(op: string, d: string)
    ensures "" + op + " " + ("%umin" + d) == op + " " + "%" + "umin" + d
  {
  }

  lemma NamedName()
    ensures var a := BoundsName("", "%umin3");
            Contains(a, "umin") && !Contains(a, "umax") && NameTwice(a) == Some(BoundsName("", "%umin999999"))
  {
    NameSpelled();
    KeysDigitFree();
    assert Digits("3") && BorderFree("umin") by {
      FirstTwo("umin");
    }
    OpFront();
    hide Contains, BoundsName, ReplaceBound, BorderFree;
    KeyedName(DIM_BOUNDS_OP + " " + "%", "umin", "3", NO_OFFLOAD_BOUND);
    NoUmax("3");
    NoUmax(NO_OFFLOAD_BOUND);
  }

  lemma OpQuiet()
    ensures 'k' !in DIM_BOUNDS_OP && 'k' in ADMITTED_OP
  {
    assert ADMITTED_OP[13] == 'k';
  }

  lemma NoAdmission(lo: string, hi: string)
    requires Digits(lo) && Digits(hi)
    ensures !Contains(DIM_BOUNDS_OP + (" " + "%umin3" + ", umin = " + lo + ", umax = " + hi + " : " + "!t"),
                      ADMITTED_OP)
  {
    OpQuiet();
    var tail := " " + "%umin3" + ", umin = " + lo + ", umax = " + hi + " : " + "!t";
    assert 'k' !in tail;
    CharFree(DIM_BOUNDS_OP + tail, ADMITTED_OP, 'k');
  }

  lemma NamedLine(lo: string, hi: string)
    requires Digits(lo) && Digits(hi)
    ensures !Contains("" + DIM_BOUNDS_OP + " " + "%umin3" + ", umin = " + lo + ", umax = " + hi + " : " + "!t",
                      ADMITTED_OP)
  {
    NoAdmission(lo, hi);
    assert "" + DIM_BOUNDS_OP == DIM_BOUNDS_OP;
    hide Contains;
    BoundsSpelled(DIM_BOUNDS_OP, "%umin3", lo, hi, "!t");
  }

  /** The value `%umin3` takes the lower sentinel: the bound itself is left, and names another value. */
  lemma NamedLikeAKey(umin: nat, umax: nat)
    ensures RewriteLine(BoundsText("", "%umin3", umin, umax, "!t")) ==
            Defeated(BoundsText("", "%umin999999", umin, 999999, "!t"))
  {
    var a, line := BoundsName("", "%umin3"), BoundsText("", "%umin3", umin, umax, "!t");
    NamedName();
    BoundsShape("", "%umin3", umin, umax, "!t");
    BoundsShape("", "%umin999999", umin, 999999, "!t");
    NamedLine(Decimal(umin), Decimal(umax));
    hide Contains, NameTwice, BoundsName, BoundsText, BoundsTail, RewriteLine;
    BoundsLineExact("", "%umin3", umin, umax, "!t");
  }
}
