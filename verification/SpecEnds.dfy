/**
 Line ends: a line feed at the end of a line, or of the whole text, is carried along and changes
 nothing else, and a carriage return neither makes nor hides a predicate.
 */
module SpecEnds {
  import opened Text
  import opened SpecRewrite
  import opened SpecLines
  import opened SpecBounds

  // ----- white space at the end -----

  lemma {:induction false} TrimStartEnded(a: string, c: char)
    requires White(c)
    ensures TrimStart(a + [c]) == if TrimStart(a) == "" then "" else TrimStart(a) + [c]
  {
    if a == "" {
      assert a + [c] == [c] && [c][1..] == "";
    } else if White(a[0]) {
      assert (a + [c])[1..] == a[1..] + [c];
      TrimStartEnded(a[1..], c);
    }
  }

  lemma TrimEnded(a: string, c: char)
    requires White(c)
    ensures Trim(a + [c]) == Trim(a)
  {
    TrimStartEnded(a, c);
    var t := TrimStart(a);
    assert (t + [c])[..|t|] == t;
  }

  lemma CommentEnded(a: string, c: char)
    requires White(c)
    ensures IsComment(a + [c]) <==> IsComment(a)
  {
    TrimStartEnded(a, c);
    var t := TrimStart(a);
    var u := t + [c];
    assert |t| == 1 ==> u[1] == c;
    assert |t| >= 2 ==> u[0] == t[0] && u[1] == t[1];
    assert "//" <= u <==> |u| >= 2 && u[0] == '/' && u[1] == '/';
    assert "//" <= t <==> |t| >= 2 && t[0] == '/' && t[1] == '/';
  }

  /** A character that a pattern lacks adds nothing to find. */
  lemma EndAdds(s: string, c: char, pat: string)
    requires c !in pat && pat != ""
    ensures Find(s + [c], pat) == Find(s, pat)
    ensures Contains(s + [c], pat) <==> Contains(s, pat)
  {
    FindSplit(s, c, "", pat);
    NothingIn(pat);
    assert s + [c] + "" == s + [c];
  }

  // ----- one line -----

  function Ended(t: Option<string>): Option<string> {
    match t case None => None case Some(u) => Some(u + "\n")
  }

  function EndedLine(r: LineRewrite): LineRewrite {
    match r
    case Defeated(t) => Defeated(t + "\n")
    case _ => r
  }

  lemma EndCut(s: string, k: nat)
    requires k <= |s|
    ensures (s + "\n")[..k] == s[..k] && (s + "\n")[k..] == s[k..] + "\n"
  {
  }

  lemma EndGroups(a: string, b: string)
    ensures a + (b + "\n") == a + b + "\n"
  {
  }

  lemma TailEnded(tail: string, attr: string)
    ensures DisableTail(tail + "\n", attr) == Ended(DisableTail(tail, attr))
  {
    EndAdds(tail, '\n', " : ");
    hide Find, DisableDictionary;
    var f := Find(tail, " : ");
    if f.Some? {
      EndCut(tail, f.value);
      var m := DisableDictionary(TrimEnd(tail[..f.value]), attr);
      if m.Some? {
        EndGroups(m.value, tail[f.value..]);
      }
    }
  }

  lemma AdmissionEnded(line: string)
    ensures DisableAdmission(line + "\n") == Ended(DisableAdmission(line))
  {
    OpNames();
    assert '\n' !in NO_OFFLOAD_ATTR;
    EndAdds(line, '\n', NO_OFFLOAD_ATTR);
    EndAdds(line, '\n', ADMITTED_OP);
    hide Find, DisableTail, Contains;
    var f := Find(line, ADMITTED_OP);
    if f.Some? {
      var k := f.value + |ADMITTED_OP|;
      EndCut(line, f.value);
      EndCut(line, k);
      TailEnded(line[k..], NO_OFFLOAD_ATTR);
      var t := DisableTail(line[k..], NO_OFFLOAD_ATTR);
      if t.Some? {
        EndGroups(line[..f.value] + ADMITTED_OP, t.value);
      }
    }
  }

  lemma BoundEnded(line: string, key: string, bound: string)
    requires key != "" && '\n' !in key
    ensures ReplaceBound(line + "\n", key, bound) == Ended(ReplaceBound(line, key, bound))
  {
    if Contains(line, key) {
      ReplacedBefore(line, key, '\n', "", bound);
      assert line + ['\n'] + "" == line + "\n";
      var h := ReplaceBound(line, key, bound);
      if h.Some? {
        assert h.value + ['\n'] + "" == h.value + "\n";
      }
    } else {
      EndAdds(line, '\n', key);
    }
  }

  /** A line is rewritten alike with and without its line feed, which stays. */
  lemma RewriteEnded(line: string)
    ensures RewriteLine(line + "\n") == EndedLine(RewriteLine(line))
    ensures PredicateLine(line + "\n") <==> PredicateLine(line)
  {
    OpNames();
    hide Find, DisableAdmission, ReplaceBound, IsComment, Contains, Trim;
    CommentEnded(line, '\n');
    EndAdds(line, '\n', ADMITTED_OP);
    EndAdds(line, '\n', DIM_BOUNDS_OP);
    TrimEnded(line, '\n');
    AdmissionEnded(line);
    BoundEnded(line, "umin", NO_OFFLOAD_BOUND);
    var once := ReplaceBound(line, "umin", NO_OFFLOAD_BOUND);
    if once.Some? {
      BoundEnded(once.value, "umax", NO_OFFLOAD_BOUND);
    }
  }

  lemma CrBlind(line: string)
    ensures PredicateLine(StripCr(line)) <==> PredicateLine(line)
  {
    if line != "" && line[|line| - 1] == '\r' {
      var a := line[..|line| - 1];
      assert line == a + ['\r'];
      OpNames();
      OpsLackCr();
      hide Contains, IsComment;
      EndAdds(a, '\r', ADMITTED_OP);
      EndAdds(a, '\r', DIM_BOUNDS_OP);
      CommentEnded(a, '\r');
    }
  }

  lemma OpsLackCr()
    ensures '\r' !in ADMITTED_OP && '\r' !in DIM_BOUNDS_OP
  {
  }
}
