/**
 The names of exports, rocket-compiler/src/report.rs: which kind a name spells, which names spell
 none, and which are contractions.
 */
module ExportKinds {
  import opened Text
  import opened Report

  // ----- how a name is spelled -----

  /** `_dispatch_`, an ordinal, an underscore and a text, and no such infix later on. */
  predicate Infixed(x: string, f: string, ordinal: string, text: string) {
    && x == f + "_dispatch_" + (ordinal + "_" + text) && ordinal != "" && Digits(ordinal)
    && !Contains("dispatch_" + (ordinal + "_" + text), "_dispatch_")
  }

  /** No underscore stands in front of a digit. */
  predicate Unbroken(k: string) {
    forall i :: 0 <= i < |k| - 1 && k[i] == '_' ==> !Digit(k[i + 1])
  }

  /** No word of a kind starts with a digit. */
  predicate KindText(k: string) {
    (k == "" || !Digit(k[0])) && Unbroken(k)
  }

  /** What follows the kind: nothing, or an underscore and extents starting with a digit. */
  predicate ExtentsTail(t: string) {
    t == "" || (|t| >= 2 && t[0] == '_' && Digit(t[1]))
  }

  /** The name of a dispatch of kind `k`, with its extents and element types behind it. */
  predicate Spelled(x: string, f: string, ordinal: string, k: string, extents: string) {
    Infixed(x, f, ordinal, k + extents) && KindText(k) && ExtentsTail(extents)
  }

  // ----- the words of a kind -----

  lemma {:induction false} ExtentsStop(acc: string, s: string)
    requires acc != "" && Digit(acc[0])
    ensures KindWords(SplitOn(acc, s, '_')) == []
    decreases |s|
  {
    if s != "" && s[0] != '_' {
      ExtentsStop(acc + [s[0]], s[1..]);
    }
  }

  lemma JoinCons(w: string, ws: seq<string>)
    requires ws != []
    ensures Join([w] + ws, "_") == w + ("_" + Join(ws, "_"))
  {
    assert ([w] + ws)[1..] == ws;
  }

  lemma UnbrokenTail(k: string)
    requires k != "" && Unbroken(k)
    ensures Unbroken(k[1..]) && (k[0] == '_' && |k| > 1 ==> !Digit(k[1]))
  {
    forall i | 0 <= i < |k[1..]| - 1 && k[1..][i] == '_' ensures !Digit(k[1..][i + 1]) {
      assert k[i + 1] == '_';
    }
  }

  /** The words up to the first that starts with a digit, joined again. */
  lemma {:induction false} WordsJoined(acc: string, k: string, extents: string)
    requires (acc + k == "" || !Digit((acc + k)[0])) && Unbroken(k) && ExtentsTail(extents)
    ensures var words := KindWords(SplitOn(acc, k + extents, '_'));
            words != [] && Join(words, "_") == acc + k
    decreases |k|
  {
    if k == "" {
      WordEnds(acc, extents);
      assert k + extents == extents && acc + k == acc;
    } else {
      UnbrokenTail(k);
      hide Unbroken, ExtentsTail, Join;
      assert (k + extents)[1..] == k[1..] + extents;
      assert acc != "" ==> acc[0] == (acc + k)[0];
      if k[0] == '_' {
        assert "" + k[1..] == k[1..];
        WordsJoined("", k[1..], extents);
        WordInFront(acc, SplitOn("", k[1..] + extents, '_'));
        assert k == "_" + k[1..];
      } else {
        assert acc + [k[0]] + k[1..] == acc + k;
        WordsJoined(acc + [k[0]], k[1..], extents);
      }
    }
  }

  lemma WordInFront(w: string, ws: seq<string>)
    requires w == "" || !Digit(w[0])
    ensures KindWords([w] + ws) == [w] + KindWords(ws)
    ensures KindWords(ws) != [] ==> Join(KindWords([w] + ws), "_") == w + ("_" + Join(KindWords(ws), "_"))
  {
    assert ([w] + ws)[1..] == ws;
    if KindWords(ws) != [] {
      JoinCons(w, KindWords(ws));
    }
  }

  lemma WordEnds(acc: string, extents: string)
    requires (acc == "" || !Digit(acc[0])) && ExtentsTail(extents)
    ensures KindWords(SplitOn(acc, extents, '_')) == [acc]
  {
    if extents == "" {
      assert [acc][1..] == [];
    } else {
      var more := SplitOn("", extents[1..], '_');
      assert SplitOn(acc, extents, '_') == [acc] + more && ([acc] + more)[1..] == more;
      assert "" + [extents[1]] == [extents[1]] && extents[1..][1..] == extents[2..];
      ExtentsStop([extents[1]], extents[2..]);
    }
  }

  /** Every text is one without a break, up to the first underscore in front of a digit, and what follows. */
  lemma {:induction false} Divide(s: string) returns (k: string, extents: string)
    ensures s == k + extents && Unbroken(k) && ExtentsTail(extents)
  {
    if ExtentsTail(s) {
      k, extents := "", s;
    } else {
      var l, e := Divide(s[1..]);
      k, extents := [s[0]] + l, e;
      assert s == [s[0]] + s[1..];
      assert l != "" ==> l[0] == s[1];
      forall i | 0 <= i < |k| - 1 && k[i] == '_' ensures !Digit(k[i + 1]) {
        assert i > 0 ==> l[i - 1] == '_';
      }
    }
  }

  // ----- the last infix -----

  lemma {:induction false} RFindIs(s: string, pat: string, i: nat, n: nat)
    requires i <= n <= |s| && OccursAt(s, i, pat) && forall j :: i < j <= n ==> !OccursAt(s, j, pat)
    ensures RFind(s, pat, n) == Some(i)
  {
    if n != i {
      RFindIs(s, pat, i, n - 1);
    }
  }

  lemma {:induction false} SkipDigitsIs(d: string, rest: string)
    requires Digits(d) && (rest == "" || !Digit(rest[0]))
    ensures SkipDigits(d + rest) == rest
  {
    if d == "" {
      assert d + rest == rest;
    } else {
      assert (d + rest)[1..] == d[1..] + rest;
      SkipDigitsIs(d[1..], rest);
    }
  }

  /** The last infix decides: what stands before it changes nothing. */
  lemma LastInfixDecides(f: string, tail: string)
    ensures ExportKind(f + (INFIX + tail)) == ExportKind(INFIX + tail)
  {
    var s := INFIX + tail;
    assert OccursAt(s, 0, INFIX);
    RFindShift(f, s, INFIX, 0, |s|);
    hide RFind;
    var i := RFind(s, INFIX, |s|).value;
    assert (f + s)[|f| + i + |INFIX|..] == s[i + |INFIX|..];
  }

  lemma {:induction false} RFindShift(f: string, s: string, pat: string, at: nat, n: nat)
    requires at <= n <= |s| && OccursAt(s, at, pat)
    ensures RFind(s, pat, n).Some? && RFind(f + s, pat, |f| + n) == Some(|f| + RFind(s, pat, n).value)
    decreases n
  {
    ShiftedOccurs(f, s, pat, n);
    if !OccursAt(s, n, pat) {
      assert n > 0;
      RFindShift(f, s, pat, at, n - 1);
    }
  }

  lemma ShiftedOccurs(f: string, s: string, pat: string, n: nat)
    ensures OccursAt(f + s, |f| + n, pat) <==> OccursAt(s, n, pat)
  {
    if OccursAt(f + s, |f| + n, pat) {
      forall k | 0 <= k < |pat| ensures s[n + k] == pat[k] {
        assert (f + s)[|f| + n + k] == pat[k];
      }
    }
    if OccursAt(s, n, pat) {
      OccursShift(f, s, pat, n);
    }
  }

  /** The search from the end finds the infix that does not come again. */
  lemma LastInfix(f: string, tail: string)
    ensures RFind(f + INFIX + tail, INFIX, |f + INFIX + tail|) == Some(|f|) <==> !Contains(INFIX[1..] + tail, INFIX)
  {
    var s, after := f + INFIX + tail, INFIX[1..] + tail;
    InfixHere(f, tail);
    FindSpec(after, INFIX);
    if Contains(after, INFIX) {
      var i := Find(after, INFIX).value;
      InfixAfter(f, tail, i);
      hide *;
      RFindAbove(s, INFIX, |f| + 1 + i, |s|);
    } else {
      forall j | |f| < j <= |s| ensures !OccursAt(s, j, INFIX) {
        InfixAfter(f, tail, j - |f| - 1);
        hide *;
      }
      hide *;
      RFindIs(s, INFIX, |f|, |s|);
    }
  }

  lemma InfixHere(f: string, tail: string)
    ensures OccursAt(f + INFIX + tail, |f|, INFIX)
    ensures |INFIX[1..] + tail| + |f| + 1 == |f + INFIX + tail|
  {
  }

  /** The infix behind the first character of an infix, seen from the start of the name. */
  lemma InfixAfter(f: string, tail: string, i: nat)
    ensures OccursAt(f + INFIX + tail, |f| + 1 + i, INFIX) <==> OccursAt(INFIX[1..] + tail, i, INFIX)
    ensures OccursAt(INFIX[1..] + tail, i, INFIX) ==> |f| + 1 + i <= |f + INFIX + tail|
  {
    var front, after := f + [INFIX[0]], INFIX[1..] + tail;
    ShiftedOccurs(front, after, INFIX, i);
    hide OccursAt;
    assert f + INFIX + tail == front + after;
    assert |INFIX| == 10;
  }

  lemma {:induction false} RFindAbove(s: string, pat: string, at: nat, n: nat)
    requires at <= n <= |s| && OccursAt(s, at, pat)
    ensures RFind(s, pat, n).Some? && RFind(s, pat, n).value >= at
  {
    if !OccursAt(s, n, pat) {
      RFindAbove(s, pat, at, n - 1);
    }
  }

  lemma {:induction false} RFindOccurs(s: string, pat: string, n: nat)
    requires n <= |s| && RFind(s, pat, n).Some?
    ensures OccursAt(s, RFind(s, pat, n).value, pat)
  {
    if !OccursAt(s, n, pat) {
      RFindOccurs(s, pat, n - 1);
    }
  }

  /** Where the search ends. */
  lemma InfixFound(x: string) returns (f: string, tail: string)
    requires RFind(x, INFIX, |x|).Some?
    ensures x == f + INFIX + tail && RFind(x, INFIX, |x|) == Some(|f|) && !Contains(INFIX[1..] + tail, INFIX)
  {
    var i := RFind(x, INFIX, |x|).value;
    RFindOccurs(x, INFIX, |x|);
    f, tail := x[..i], x[i + |INFIX|..];
    assert x[i..i + |INFIX|] == INFIX;
    assert x == f + INFIX + tail;
    LastInfix(f, tail);
  }

  // ----- the kind -----

  lemma {:induction false} DigitRun(s: string) returns (d: string)
    ensures s == d + SkipDigits(s) && Digits(d)
    ensures SkipDigits(s) == "" || !Digit(SkipDigits(s)[0])
    ensures d == "" <==> s == "" || !Digit(s[0])
  {
    if s != "" && Digit(s[0]) {
      var e := DigitRun(s[1..]);
      d := [s[0]] + e;
    } else {
      d := "";
    }
  }

  lemma InfixIs()
    ensures INFIX == "_dispatch_" && INFIX[1..] == "dispatch_" && |INFIX| == 10
  {
  }

  /** What `export_kind` reads of a name with the infix and an ordinal. */
  lemma KindOfText(x: string, f: string, ordinal: string, text: string)
    requires Infixed(x, f, ordinal, text)
    ensures var words := KindWords(SplitOn("", text, '_'));
            ExportKind(x) == if words == [] then None else Some(Join(words, "_"))
  {
    InfixIs();
    var tail := ordinal + "_" + text;
    LastInfix(f, tail);
    SkipDigitsIs(ordinal, "_" + text);
    assert tail == ordinal + ("_" + text) && ("_" + text)[1..] == text;
    assert x[|f| + |INFIX|..] == tail;
    hide RFind, KindWords, SplitOn, SkipDigits;
  }

  /** A name whose text starts with a digit has no kind. */
  lemma DigitFirst(x: string, f: string, ordinal: string, text: string)
    requires Infixed(x, f, ordinal, text) && text != "" && Digit(text[0])
    ensures ExportKind(x).None?
  {
    KindOfText(x, f, ordinal, text);
    assert "" + [text[0]] == [text[0]];
    ExtentsStop([text[0]], text[1..]);
  }

  lemma SpelledKind(x: string, f: string, ordinal: string, k: string, extents: string)
    requires Spelled(x, f, ordinal, k, extents)
    ensures ExportKind(x) == Some(k)
  {
    KindOfText(x, f, ordinal, k + extents);
    assert "" + k == k;
    WordsJoined("", k, extents);
  }

  /** A name that is read as a kind has the infix, and its text does not start with a digit. */
  lemma KindInfixed(x: string) returns (f: string, ordinal: string, text: string)
    requires ExportKind(x).Some?
    ensures Infixed(x, f, ordinal, text) && (text == "" || !Digit(text[0]))
  {
    InfixIs();
    var tail;
    f, tail := InfixFound(x);
    assert x[|f| + |INFIX|..] == tail;
    ordinal := DigitRun(tail);
    text := SkipDigits(tail)[1..];
    assert SkipDigits(tail) == "_" + text;
    assert tail == ordinal + "_" + text;
    hide RFind, KindWords, SplitOn, SkipDigits;
    if text != "" && Digit(text[0]) {
      DigitFirst(x, f, ordinal, text);
    }
  }

  /**
   A name is read as kind `k` exactly when it spells it: after the last `_dispatch_<ordinal>_` stand
   `k`, none of whose words starts with a digit, and then nothing or a word that does.
   */
  lemma KindExact(x: string, k: string)
    ensures ExportKind(x) == Some(k) <==> exists f, ordinal, extents :: Spelled(x, f, ordinal, k, extents)
  {
    hide ExportKind;
    if ExportKind(x) == Some(k) {
      var f, ordinal, text := KindInfixed(x);
      var l, extents := Divide(text);
      SpelledKind(x, f, ordinal, l, extents);
      assert l == k && Spelled(x, f, ordinal, k, extents);
    }
    if f, ordinal, extents :| Spelled(x, f, ordinal, k, extents) {
      SpelledKind(x, f, ordinal, k, extents);
    }
  }

  /**
   A name has no kind exactly when it has no `_dispatch_<ordinal>_` that is its last `_dispatch_`, or
   a digit follows it.
   */
  lemma NoKindExact(x: string)
    ensures ExportKind(x).None? <==>
            forall f, ordinal, text :: Infixed(x, f, ordinal, text) ==> text != "" && Digit(text[0])
  {
    hide ExportKind;
    if ExportKind(x).Some? {
      var f, ordinal, text := KindInfixed(x);
    }
    forall f, ordinal, text | Infixed(x, f, ordinal, text) && ExportKind(x).None?
      ensures text != "" && Digit(text[0])
    {
      if text == "" || !Digit(text[0]) {
        var k, extents := Divide(text);
        SpelledKind(x, f, ordinal, k, extents);
      }
    }
  }

  // ----- contractions -----

  /** The names IREE gives the dispatches of convolutions and matmuls. */
  predicate ContractionWord(w: string) {
    w == "conv" || w == "conv_2d" || w == "depthwise_conv" || w == "matmul" || w == "matmul_like" || w == "batch_matmul"
  }

  /** A dispatch of a contraction: one of those names behind the last infix, alone or with extents behind it. */
  ghost predicate ContractionName(x: string) {
    exists f, ordinal, w, extents ::
      ContractionWord(w) && ExtentsTail(extents) && Infixed(x, f, ordinal, w + extents)
  }

  /** All of the names but `conv_2d` are kinds. */
  lemma WordsAreKinds(w: string)
    requires ContractionWord(w)
    ensures KindText(w) <==> w != "conv_2d"
  {
    if w == "conv_2d" {
      assert w[4] == '_' && Digit(w[5]);
    } else {
      forall i | 0 <= i < |w| - 1 && w[i] == '_' ensures !Digit(w[i + 1]) {
      }
    }
  }

  /** The digit of `conv_2d` ends its kind: it is read as `conv`, and no name is read as `conv_2d`. */
  lemma ConvTwoD(x: string, f: string, ordinal: string, extents: string)
    ensures ExportKind(x) != Some("conv_2d")
    ensures Infixed(x, f, ordinal, "conv_2d" + extents) ==> ExportKind(x) == Some("conv")
  {
    hide ExportKind;
    KindExact(x, "conv_2d");
    WordsAreKinds("conv_2d");
    WordsAreKinds("conv");
    if Infixed(x, f, ordinal, "conv_2d" + extents) {
      assert "conv_2d" + extents == "conv" + ("_2d" + extents);
      SpelledKind(x, f, ordinal, "conv", "_2d" + extents);
    }
  }

  /** An export is a contraction exactly when it is named like one. */
  lemma ContractionExact(x: string)
    ensures ExportKind(x).Some? && ContractionKind(ExportKind(x).value) <==> ContractionName(x)
  {
    hide ExportKind;
    if ExportKind(x).Some? && ContractionKind(ExportKind(x).value) {
      var k := ExportKind(x).value;
      KindExact(x, k);
      var f, ordinal, extents :| Spelled(x, f, ordinal, k, extents);
      assert ContractionWord(k) && Infixed(x, f, ordinal, k + extents);
    }
    if ContractionName(x) {
      var f, ordinal, w, extents :| ContractionWord(w) && ExtentsTail(extents) && Infixed(x, f, ordinal, w + extents);
      WordsAreKinds(w);
      if w == "conv_2d" {
        ConvTwoD(x, f, ordinal, extents);
      } else {
        SpelledKind(x, f, ordinal, w, extents);
      }
    }
  }
}
