/**
 `enable_batch_matmul` of rocket-compiler/src/spec.rs: it uncomments the unbatching pass
 and points the recording pass at the handle that pass defines.
 */
module SpecBatch {
  import opened Text
  import opened SpecRewrite

  const BATCH_MARKER := "//@ROCKET_BATCH_MATMUL@"
  const RECORD := "rocket-record-conv-attrs"
  const MIDDLE := "\" to %"
  const GEMV := "gemv_funcs"
  const UNBATCHED := "unbatched_funcs"
  const CONSUMER := "\"" + RECORD + MIDDLE + GEMV
  const REPOINTED := "\"" + RECORD + MIDDLE + UNBATCHED

  /** `text.matches(pat).count()` */
  function CountOf(text: string, pat: string): nat
    requires pat != ""
    decreases |text|
  {
    match Find(text, pat)
    case None => 0
    case Some(i) => 1 + CountOf(text[i + |pat|..], pat)
  }

  /** `text.replace(pat, with)` */
  function Replace(text: string, pat: string, with: string): string
    requires pat != ""
    decreases |text|
  {
    match Find(text, pat)
    case None => text
    case Some(i) => text[..i] + with + Replace(text[i + |pat|..], pat, with)
  }

  function EnableBatchMatmul(spec: string): Result<Rewritten, Error> {
    var lines := Lines(spec);
    var enabled := MarkedCount(lines, BATCH_MARKER);
    if enabled == 0 then Err(NoMarkedEntries)
    else
      var text := Join(UnmarkAll(lines, BATCH_MARKER), "\n");
      var consumers := CountOf(text, CONSUMER);
      if consumers != 1 then Err(ConsumerCount(consumers))
      else
        var text := Replace(text, CONSUMER, REPOINTED);
        Ok(Rewritten(if EndsWithNewline(spec) then text + "\n" else text, enabled))
  }

  method RunEnableBatchMatmul(spec: string) returns (r: Result<Rewritten, Error>)
    ensures r == EnableBatchMatmul(spec)
  {
    var out, enabled := UnmarkEach(Lines(spec), BATCH_MARKER);
    if enabled == 0 {
      return Err(NoMarkedEntries);
    }
    var text := Join(out, "\n");
    var consumers := CountOf(text, CONSUMER);
    if consumers != 1 {
      return Err(ConsumerCount(consumers));
    }
    text := Replace(text, CONSUMER, REPOINTED);
    return Ok(Rewritten(if EndsWithNewline(spec) then text + "\n" else text, enabled));
  }

  // ----- searching line by line -----

  lemma SliceFirst(a: string, b: string, i: nat, j: nat)
    requires i <= j <= |a|
    ensures (a + ['\n'] + b)[..i] == a[..i] && (a + ['\n'] + b)[j..] == a[j..] + ['\n'] + b
  {
  }

  lemma SliceSecond(a: string, b: string, i: nat, j: nat)
    requires i <= j <= |b|
    ensures (a + ['\n'] + b)[..|a| + 1 + i] == a + ['\n'] + b[..i] && (a + ['\n'] + b)[|a| + 1 + j..] == b[j..]
  {
  }

  lemma {:induction false} CountSplit(a: string, b: string, pat: string)
    requires pat != "" && '\n' !in pat
    ensures CountOf(a + ['\n'] + b, pat) == CountOf(a, pat) + CountOf(b, pat)
    decreases |a|
  {
    hide Find;
    FindSplit(a, '\n', b, pat);
    if Contains(a, pat) {
      var i := Find(a, pat).value;
      SliceFirst(a, b, i, i + |pat|);
      CountSplit(a[i + |pat|..], b, pat);
    } else if Contains(b, pat) {
      var i := Find(b, pat).value;
      SliceSecond(a, b, i, i + |pat|);
    }
  }

  /** The first use replaced, and the rest after it. */
  lemma ReplaceFirst(s: string, pat: string, with: string, i: nat, front: string, tail: string)
    requires pat != "" && Find(s, pat) == Some(i)
    requires i + |pat| <= |s| && s[..i] == front && s[i + |pat|..] == tail
    ensures Replace(s, pat, with) == front + with + Replace(tail, pat, with)
  {
    hide Find;
  }

  lemma {:induction false} ReplaceSplit(a: string, b: string, pat: string, with: string)
    requires pat != "" && '\n' !in pat
    ensures Replace(a + ['\n'] + b, pat, with) == Replace(a, pat, with) + ['\n'] + Replace(b, pat, with)
    decreases |a|
  {
    FindSplit(a, '\n', b, pat);
    hide Find, Replace;
    if Contains(a, pat) {
      var i := Find(a, pat).value;
      var rest := a[i + |pat|..];
      ReplaceSplit(rest, b, pat, with);
      SliceFirst(a, b, i, i + |pat|);
      ReplaceFirst(a, pat, with, i, a[..i], rest);
      ReplaceFirst(a + ['\n'] + b, pat, with, i, a[..i], rest + ['\n'] + b);
      Regroup(a[..i] + with, Replace(rest, pat, with), ['\n'], Replace(b, pat, with));
    } else if Contains(b, pat) {
      Untouched(a, pat, with);
      ReplaceSecond(a, b, pat, with);
    } else {
      Untouched(a, pat, with);
      Untouched(b, pat, with);
      Untouched(a + ['\n'] + b, pat, with);
    }
  }

  lemma ReplaceSecond(a: string, b: string, pat: string, with: string)
    requires pat != "" && Contains(b, pat)
    requires Find(a + ['\n'] + b, pat) == Some(|a| + 1 + Find(b, pat).value)
    ensures Replace(a + ['\n'] + b, pat, with) == a + ['\n'] + Replace(b, pat, with)
  {
    hide *;
    FoundSome(b, pat);
    var i := Find(b, pat).value;
    var front, tail := b[..i], b[i + |pat|..];
    ReplaceFirst(b, pat, with, i, front, tail);
    SliceSecond(a, b, i, i + |pat|);
    ReplaceFirst(a + ['\n'] + b, pat, with, |a| + 1 + i, a + ['\n'] + front, tail);
    RegroupTail(a, front, with, Replace(tail, pat, with));
  }

  lemma RegroupTail(a: string, b: string, c: string, d: string)
    ensures a + ['\n'] + b + c + d == a + ['\n'] + (b + c + d)
  {
  }

  lemma Regroup(a: string, b: string, c: string, d: string)
    ensures a + (b + c + d) == a + b + c + d
  {
  }

  function CountEach(ts: seq<string>, pat: string): nat
    requires pat != ""
  {
    if ts == [] then 0 else CountOf(ts[0], pat) + CountEach(ts[1..], pat)
  }

  function ReplaceEach(ts: seq<string>, pat: string, with: string): seq<string>
    requires pat != ""
  {
    if ts == [] then [] else [Replace(ts[0], pat, with)] + ReplaceEach(ts[1..], pat, with)
  }

  lemma {:induction false} JoinedLines(ts: seq<string>, pat: string, with: string)
    requires pat != "" && '\n' !in pat && ts != []
    ensures CountOf(Join(ts, "\n"), pat) == CountEach(ts, pat)
    ensures Replace(Join(ts, "\n"), pat, with) == Join(ReplaceEach(ts, pat, with), "\n")
  {
    hide CountOf, Replace;
    if |ts| == 1 {
      assert CountEach(ts[1..], pat) == 0;
      assert ReplaceEach(ts[1..], pat, with) == [];
    } else {
      JoinedLines(ts[1..], pat, with);
      CountSplit(ts[0], Join(ts[1..], "\n"), pat);
      ReplaceSplit(ts[0], Join(ts[1..], "\n"), pat, with);
      var rs := ReplaceEach(ts, pat, with);
      assert rs[1..] == ReplaceEach(ts[1..], pat, with);
      assert |rs[1..]| == |ts[1..]| by { ReplaceEachLength(ts[1..], pat, with); }
    }
  }

  lemma {:induction false} ReplaceEachLength(ts: seq<string>, pat: string, with: string)
    requires pat != ""
    ensures |ReplaceEach(ts, pat, with)| == |ts|
  {
    if ts != [] {
      ReplaceEachLength(ts[1..], pat, with);
    }
  }

  lemma Untouched(line: string, pat: string, with: string)
    requires pat != "" && !Contains(line, pat)
    ensures CountOf(line, pat) == 0 && Replace(line, pat, with) == line
  {
  }

  // ----- any text -----

  /** Replacing the one use leaves no use, given where the quotes stand. */
  lemma NoneLeft(a: string, b: string, record: string, middle: string, gemv: string, to: string)
    requires '"' !in record && record != "" && |middle| > 1 && middle[0] == '"' && middle[1] != record[0]
    requires '"' !in middle[1..] && '"' !in gemv && '"' !in to && gemv != "" && to != "" && gemv[0] != to[0]
    requires !Contains(a, "\"" + record + middle + gemv) && !Contains(b, "\"" + record + middle + gemv)
    ensures !Contains(a + ("\"" + record + middle + to) + b, "\"" + record + middle + gemv)
  {
    var pat, with := "\"" + record + middle + gemv, "\"" + record + middle + to;
    var s := a + with + b;
    var q := 1 + |record|;
    FindSpec(a, pat);
    FindSpec(b, pat);
    assert pat[0] == '"' && pat[q] == '"' && pat[1] == record[0] && pat[q + 1] == middle[1];
    assert with[0] == '"' && with[q] == '"' && with[1] == record[0] && with[q + 1] == middle[1];
    assert pat[q + |middle|] == gemv[0] && with[q + |middle|] == to[0];
    forall k | 0 <= k < |pat| && k != 0 && k != q ensures pat[k] != '"' {
      NoQuote(record, middle, gemv, k);
    }
    forall k | 0 <= k < |with| && k != 0 && k != q ensures with[k] != '"' {
      NoQuote(record, middle, to, k);
    }
    forall i: nat ensures !OccursAt(s, i, pat) {
      var o := i - |a|;
      if o + |pat| <= 0 {
        OccursFront(a, with + b, pat, i);
        assert s == a + (with + b);
      } else if o < 0 {
        LetterAt(s, i, pat, -o);
        assert s[i - o] == with[0];
        assert -o == q ==> s[i + (q + 1)] == with[1];
        LetterAt(s, i, pat, q + 1);
      } else if o < |with| {
        LetterAt(s, i, pat, 0);
        assert s[i] == with[o];
        LetterAt(s, i, pat, q + |middle|);
        assert o == 0 ==> s[i + (q + |middle|)] == with[q + |middle|];
        LetterAt(s, i, pat, 1);
        assert o == q ==> s[i + 1] == with[q + 1];
      } else {
        OccursTail(a + with, b, pat, i - |a + with|);
      }
    }
    FindSpec(s, pat);
  }

  lemma NoQuote(record: string, middle: string, tail: string, k: nat)
    requires '"' !in record && |middle| > 1 && '"' !in middle[1..] && '"' !in tail
    requires 0 < k < 1 + |record| + |middle| + |tail| && k != 1 + |record|
    ensures ("\"" + record + middle + tail)[k] != '"'
  {
    var s := "\"" + record + middle + tail;
    if k <= |record| {
      assert s[k] == record[k - 1];
    } else if k < 1 + |record| + |middle| {
      assert s[k] == middle[1..][k - 2 - |record|];
    } else {
      assert s[k] == tail[k - 1 - |record| - |middle|];
    }
  }

  /** One counted use: the text around it holds none. */
  lemma OneUse(text: string, pat: string, with: string) returns (a: string)
    requires pat != "" && CountOf(text, pat) == 1
    ensures Contains(text, pat) && a == text[..Find(text, pat).value] && !Contains(a, pat)
    ensures var b := text[|a| + |pat|..]; !Contains(b, pat) && Replace(text, pat, with) == a + with + b
  {
    a := text[..Find(text, pat).value];
    FindSpec(text, pat);
    FindSpec(a, pat);
    forall j: nat ensures !OccursAt(a, j, pat) {
      assert OccursAt(a, j, pat) ==> OccursAt(text, j, pat);
    }
  }

  // ----- the handle that is read afterwards -----

  const RECORDING := "\"" + RECORD + MIDDLE

  /** A character of a handle: MLIR's value names also take `-`. */
  predicate HandleChar(c: char) {
    SymbolChar(c) || c == '-'
  }

  /** The longest prefix made of handle characters. */
  function HandlePrefix(s: string): (r: string)
    ensures r <= s
  {
    if s != "" && HandleChar(s[0]) then [s[0]] + HandlePrefix(s[1..]) else ""
  }

  /** The handle that the recording pass at `at` reads. */
  function HandleRead(text: string, at: nat): string
    requires OccursAt(text, at, RECORDING)
  {
    HandlePrefix(text[at + |RECORDING|..])
  }

  lemma {:induction false} HandlePrefixPast(name: string, rest: string)
    requires forall c :: c in name ==> HandleChar(c)
    ensures HandlePrefix(name + rest) == name + HandlePrefix(rest)
  {
    if name == "" {
      assert name + rest == rest;
    } else {
      assert (name + rest)[1..] == name[1..] + rest;
      assert HandleChar((name + rest)[0]);
      HandlePrefixPast(name[1..], rest);
    }
  }

  /** The text after the pass is uncommented. */
  function Uncommented(spec: string): string {
    Join(UnmarkAll(Lines(spec), BATCH_MARKER), "\n")
  }

  /**
   Whatever the text, success leaves no use of the old handle for the recording pass, and the
   one use found now reads the unbatched handle with whatever stood behind the old name: it is
   the handle the unbatching pass defines exactly when nothing of a name did.
   */
  lemma UnbatchedReadExact(spec: string) returns (at: nat, rest: string)
    requires EnableBatchMatmul(spec).Ok?
    ensures var text := Uncommented(spec);
            Find(text, CONSUMER) == Some(at) && at + |CONSUMER| <= |text| && rest == text[at + |CONSUMER|..]
    ensures var out := EnableBatchMatmul(spec).value.text;
            && out == Uncommented(spec)[..at] + REPOINTED + rest + (if EndsWithNewline(spec) then "\n" else "")
            && !Contains(out, CONSUMER)
            && OccursAt(out, at, RECORDING)
            && HandleRead(out, at) == UNBATCHED + HandlePrefix(rest)
            && (HandleRead(out, at) == UNBATCHED <==> rest == "" || !HandleChar(rest[0]))
  {
    var text := Uncommented(spec);
    at := Find(text, CONSUMER).value;
    var a := OneUse(text, CONSUMER, REPOINTED);
    rest := text[at + |CONSUMER|..];
    assert a == text[..at];
    hide Lines, UnmarkAll, Join, MarkedCount, CountOf, Replace, Contains, Find, HandlePrefix;
    Repointed(a, rest);
    EndedStays(a + REPOINTED + rest);
    var end := if EndsWithNewline(spec) then "\n" else "";
    assert a + REPOINTED + rest + "" == a + REPOINTED + rest;
    ReadBehind(a, rest, end);
  }

  lemma ReadBehind(a: string, rest: string, end: string)
    requires end == "" || end == "\n"
    ensures var out := a + REPOINTED + rest + end;
            && OccursAt(out, |a|, RECORDING) && HandleRead(out, |a|) == UNBATCHED + HandlePrefix(rest)
    ensures UNBATCHED + HandlePrefix(rest) == UNBATCHED <==> rest == "" || !HandleChar(rest[0])
  {
    ReadGroups(a, RECORDING, UNBATCHED, rest, end);
    assert REPOINTED == RECORDING + UNBATCHED;
    assert forall c :: c in UNBATCHED ==> HandleChar(c);
    HandlePrefixPast(UNBATCHED, rest + end);
    PrefixEnded(rest, end);
  }

  lemma ReadGroups(a: string, recording: string, name: string, rest: string, end: string)
    ensures var out := a + (recording + name) + rest + end;
            OccursAt(out, |a|, recording) && out[|a| + |recording|..] == name + (rest + end)
  {
  }

  /** A final line feed ends the name. */
  lemma {:induction false} PrefixEnded(rest: string, end: string)
    requires end == "" || end == "\n"
    ensures HandlePrefix(rest + end) == HandlePrefix(rest)
  {
    if rest != "" {
      assert (rest + end)[1..] == rest[1..] + end;
      PrefixEnded(rest[1..], end);
    } else {
      assert rest + end == end;
    }
  }

  lemma Repointed(a: string, b: string)
    requires !Contains(a, CONSUMER) && !Contains(b, CONSUMER)
    ensures Contains(a + REPOINTED + b, REPOINTED) && !Contains(a + REPOINTED + b, CONSUMER)
  {
    assert MIDDLE[1] == ' ' && RECORD[0] == 'r' && GEMV[0] == 'g' && UNBATCHED[0] == 'u';
    assert '"' !in RECORD && '"' !in MIDDLE[1..] && '"' !in GEMV && '"' !in UNBATCHED;
    hide Contains;
    NoneLeft(a, b, RECORD, MIDDLE, GEMV, UNBATCHED);
    ContainsMiddle(a, REPOINTED, b);
  }

  /** A final line feed changes neither. */
  lemma EndedStays(out: string)
    ensures Contains(out + "\n", CONSUMER) <==> Contains(out, CONSUMER)
    ensures Contains(out + "\n", REPOINTED) <==> Contains(out, REPOINTED)
  {
    assert out + "\n" == out + ['\n'] + "";
    assert '\n' !in CONSUMER && '\n' !in REPOINTED;
    hide Contains;
    ContainsSplit(out, '\n', "", CONSUMER);
    ContainsSplit(out, '\n', "", REPOINTED);
    NothingIn(CONSUMER);
    NothingIn(REPOINTED);
  }
}
