/**
 What the device-name check of rocket-compiler/src/main.rs reads of a text, told from the text alone:
 where an attribute's body ends, and which names stand in it.
 */
module DeviceNames {
  import opened Text
  import opened Devices

  // ----- characters -----

  /** A letter of a mnemonic, or a digit. */
  predicate Letter(c: char) {
    || 'a' <= c <= 'z' || 'A' <= c <= 'Z' || '0' <= c <= '9'
    || c == '_' || c == '.'
  }

  lemma LettersAre(c: char)
    ensures MnemonicChar(c) <==> Letter(c)
    ensures SymbolChar(c) <==> Letter(c) || c == '$'
  {
  }

  // ----- where a body ends -----

  /** A `>` that is not the head of an arrow. */
  predicate Closing(s: string, i: nat)
    requires i < |s|
  {
    s[i] == '>' && !(i > 0 && (s[i - 1] == '-' || s[i - 1] == '='))
  }

  /** How many brackets are open after `n` characters, the one before the text included. */
  function Level(s: string, n: nat): int
    requires n <= |s|
  {
    if n == 0 then 1
    else Level(s, n - 1) + if s[n - 1] == '<' then 1 else if Closing(s, n - 1) then -1 else 0
  }

  /** The first `e` characters: up to the bracket that closes the first one, or all. */
  predicate Body(s: string, e: nat) {
    && e <= |s| && (forall j :: 0 <= j <= e ==> Level(s, j) >= 1)
    && (e < |s| ==> Level(s, e + 1) == 0)
  }

  lemma OneFurther(s: string, k: nat)
    requires k < |s|
    ensures s[k..] != "" && s[k..][0] == s[k] && s[k..][1..] == s[k + 1..] && s[..k] + [s[k]] == s[..k + 1]
  {
  }

  lemma {:induction false} BodyFromIs(s: string, k: nat)
    requires k <= |s| && forall j :: 0 <= j <= k ==> Level(s, j) >= 1
    ensures var r := BodyFrom(s[..k], s[k..], Level(s, k), if k == 0 then ' ' else s[k - 1]);
            Body(s, |r|) && r == s[..|r|]
    decreases |s| - k
  {
    if k < |s| {
      OneFurther(s, k);
      if !(Closing(s, k) && Level(s, k) == 1) {
        BodyFromIs(s, k + 1);
      }
    } else {
      assert s[..k] == s && s[k..] == "";
    }
  }

  /** On every text, what is read as the body of an attribute goes on to the closing bracket, or to the end. */
  lemma AttributeBodyIs(s: string, e: nat)
    requires e <= |s|
    ensures AttributeBody(s) == s[..e] <==> Body(s, e)
  {
    BodyFromIs(s, 0);
    assert s[..0] == "" && s[0..] == s;
  }

  // ----- the names in it -----

  /** `name` is the longest run of symbol characters behind the `@` at `j`. */
  predicate NameAt(text: string, j: nat, name: string) {
    && j < |text| && text[j] == '@' && name <= text[j + 1..]
    && (forall c :: c in name ==> Letter(c) || c == '$')
    && (j + 1 + |name| < |text| ==> !Letter(text[j + 1 + |name|]) && text[j + 1 + |name|] != '$')
  }

  lemma {:induction false} PrefixIs(s: string, name: string)
    ensures name == SymbolPrefix(s) <==>
            && name <= s && (forall c :: c in name ==> SymbolChar(c)) && (|name| < |s| ==> !SymbolChar(s[|name|]))
  {
    if s != "" && SymbolChar(s[0]) {
      var r := SymbolPrefix(s[1..]);
      assert s == [s[0]] + s[1..];
      if name != "" {
        PrefixIs(s[1..], name[1..]);
        assert name == [name[0]] + name[1..];
        if name <= s && (forall c :: c in name ==> SymbolChar(c)) {
          assert name[1..] <= s[1..];
        }
        if name == SymbolPrefix(s) {
          assert name[1..] == r;
        }
      }
    } else if name != "" && name <= s {
      assert name[0] == s[0] && name[0] in name;
    }
  }

  lemma RefersExact(text: string, name: string)
    ensures RefersTo(text, name) <==> exists j :: NameAt(text, j, name)
  {
    forall j: nat | j < |text| && text[j] == '@'
      ensures name == SymbolPrefix(text[j + 1..]) <==> NameAt(text, j, name)
    {
      PrefixIs(text[j + 1..], name);
      CharsAlike(name);
      if |name| < |text[j + 1..]| {
        LettersAre(text[j + 1..][|name|]);
      }
      hide SymbolPrefix, SymbolChar;
    }
    hide SymbolPrefix;
  }

  lemma CharsAlike(name: string)
    ensures (forall c :: c in name ==> SymbolChar(c)) <==> forall c :: c in name ==> Letter(c) || c == '$'
  {
    forall c | c in name ensures SymbolChar(c) <==> Letter(c) || c == '$' {
      LettersAre(c);
    }
    hide SymbolChar;
  }

  // ----- the attributes of a spec -----

  /** A device attribute at `i`: its mnemonic of letters, and the text behind its opening bracket. */
  predicate AttributeAt(spec: string, i: nat, mnemonic: string, rest: string) {
    && i <= |spec| && spec[i..] == "#hal.device." + mnemonic + "<" + rest
    && forall c :: c in mnemonic ==> Letter(c)
  }

  /** A name stands in the body of a device attribute at `i`. */
  ghost predicate Names(spec: string, i: nat, name: string) {
    exists mnemonic, rest, e: nat ::
      AttributeAt(spec, i, mnemonic, rest) && e <= |rest| && Body(rest, e) && NamedIn(rest[..e], name)
  }

  ghost predicate NamedIn(body: string, name: string) {
    exists j :: NameAt(body, j, name)
  }

  lemma {:induction false} RunIs(s: string)
    ensures forall i :: 0 <= i < MnemonicRun(s) ==> Letter(s[i])
    ensures MnemonicRun(s) < |s| ==> !Letter(s[MnemonicRun(s)])
  {
    if s != "" {
      LettersAre(s[0]);
      hide MnemonicChar;
      if MnemonicChar(s[0]) {
        RunIs(s[1..]);
        forall i | 0 <= i < MnemonicRun(s) ensures Letter(s[i]) {
          assert i > 0 ==> s[i] == s[1..][i - 1];
        }
      }
    }
  }

  lemma RunEnds(mnemonic: string, rest: string)
    requires forall c :: c in mnemonic ==> Letter(c)
    ensures MnemonicRun(mnemonic + "<" + rest) == |mnemonic|
  {
    forall i | 0 <= i < |mnemonic| ensures MnemonicChar(mnemonic[i]) {
      LettersAre(mnemonic[i]);
    }
    LettersAre('<');
    hide MnemonicChar;
    BracketFirst(rest);
    MnemonicRunIs(mnemonic, "<" + rest);
    assert mnemonic + "<" + rest == mnemonic + ("<" + rest);
  }

  lemma BracketFirst(rest: string)
    ensures ("<" + rest)[0] == '<' && !Letter('<')
  {
  }

  lemma BodyExists(s: string) returns (e: nat)
    ensures Body(s, e) && AttributeBody(s) == s[..e]
  {
    BodyFromIs(s, 0);
    assert s[..0] == "" && s[0..] == s;
    e := |AttributeBody(s)|;
  }

  lemma SymbolsIn(body: string, name: string)
    ensures name in SymbolRefs(body) <==> NamedIn(body, name)
  {
    SymbolRefsAre(body, name);
    RefersExact(body, name);
  }

  lemma MentionedNames(spec: string, i: nat, name: string)
    requires MentionedAt(spec, MARKER, i, name)
    ensures Names(spec, i, name)
  {
    hide SymbolRefs, AttributeBody, NamedIn, Body;
    var rest := spec[i + |MARKER|..];
    var open := MnemonicRun(rest);
    RunIs(rest);
    var m, t := rest[..open], rest[open + 1..];
    assert rest == m + "<" + t;
    hide MnemonicRun;
    assert spec[i..] == MARKER + rest;
    AssocText(MARKER, m, t);
    var e := BodyExists(t);
    SymbolsIn(t[..e], name);
    MarkerIs();
    assert AttributeAt(spec, i, m, t);
  }

  lemma MarkerIs()
    ensures MARKER == "#hal.device." && |MARKER| == 12
  {
  }

  lemma NamesMentioned(spec: string, i: nat, name: string)
    requires Names(spec, i, name)
    ensures MentionedAt(spec, MARKER, i, name)
  {
    hide SymbolRefs, AttributeBody, NamedIn, Body, MnemonicRun;
    MarkerIs();
    var m, t, e: nat :| AttributeAt(spec, i, m, t) && e <= |t| && Body(t, e) && NamedIn(t[..e], name);
    AssocText(MARKER, m, t);
    AttributeBodyIs(t, e);
    RunEnds(m, t);
    var rest := m + "<" + t;
    assert spec[i..] == MARKER + rest;
    MarkerAt(spec, i, rest);
    assert rest[|m|] == '<' && rest[|m| + 1..] == t;
    SymbolsIn(t[..e], name);
  }

  /** What `spec_device_symbols` takes from one marker is what the attribute there names, if it is one. */
  lemma MentionedExact(spec: string, i: nat, name: string)
    ensures MentionedAt(spec, MARKER, i, name) <==> Names(spec, i, name)
  {
    hide *;
    if MentionedAt(spec, MARKER, i, name) {
      MentionedNames(spec, i, name);
    }
    if Names(spec, i, name) {
      NamesMentioned(spec, i, name);
    }
  }

  lemma AssocText(marker: string, m: string, t: string)
    ensures marker + m + "<" + t == marker + (m + "<" + t)
  {
  }

  lemma MarkerAt(spec: string, i: nat, rest: string)
    requires i <= |spec| && spec[i..] == MARKER + rest
    ensures OccursAt(spec, i, MARKER) && spec[i + |MARKER|..] == rest
  {
    forall k | 0 <= k < |MARKER| ensures spec[i + k] == MARKER[k] {
      assert spec[i..][k] == MARKER[k];
    }
    assert spec[i..][|MARKER|..] == spec[i + |MARKER|..];
  }

  /**
   On every text the check passes if and only if every name in the body of every device attribute,
   nested ones included, is one of the two declared devices.
   */
  lemma CheckExact(spec: string, rocket: string, cpu: string)
    ensures NamesDeclared(spec, rocket, cpu) <==>
            forall i: nat, name :: Names(spec, i, name) ==> name == rocket || name == cpu
  {
    hide NamesDeclared, MentionedAt, Names;
    NamesDeclaredExact(spec, rocket, cpu);
    forall i: nat, name ensures MentionedAt(spec, MARKER, i, name) <==> Names(spec, i, name) {
      MentionedExact(spec, i, name);
    }
  }
}
