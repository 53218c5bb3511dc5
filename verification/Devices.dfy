/**
 The device-name check of rocket-compiler/src/main.rs: which `@symbol`s a transform spec
 mentions inside its `#hal.device.*<...>` attributes.
 */
module Devices {
  import opened Text

  const MARKER := "#hal.device."

  // ----- the body of an attribute -----

  predicate Dash(c: char) {
    c == '-' || c == '='
  }

  /** The scan from `text` on, with `acc` before it and `previous` the last character. */
  function BodyFrom(acc: string, text: string, depth: nat, previous: char): string
    decreases |text|
  {
    if text == "" then acc
    else
      var c := text[0];
      if c == '>' && !Dash(previous) && depth <= 1 then acc
      else
        BodyFrom(acc + [c], text[1..],
          if c == '<' then depth + 1 else if c == '>' && !Dash(previous) then depth - 1 else depth, c)
  }

  /** `attribute_body`: the text up to the `>` that closes an already opened `<`. */
  function AttributeBody(body: string): string {
    BodyFrom("", body, 1, ' ')
  }

  method RunAttributeBody(body: string) returns (r: string)
    ensures r == AttributeBody(body)
  {
    var depth, previous := 1, ' ';
    r := "";
    var rest := body;
    while rest != ""
      invariant depth >= 1
      invariant AttributeBody(body) == BodyFrom(r, rest, depth, previous)
      decreases |rest|
    {
      var c := rest[0];
      if c == '<' {
        depth := depth + 1;
      } else if c == '>' && !Dash(previous) {
        if depth == 1 {
          return;
        }
        depth := depth - 1;
      }
      r, rest, previous := r + [c], rest[1..], c;
    }
  }

  /** Text with balanced angle brackets: characters, arrows, and nested bodies. */
  datatype Piece = Ch(c: char) | Arrow(double: bool) | Nest(inner: seq<Piece>)

  function PieceText(p: Piece): string {
    match p
    case Ch(c) => [c]
    case Arrow(double) => if double then "=>" else "->"
    case Nest(inner) => "<" + BodyText(inner) + ">"
  }

  function BodyText(ps: seq<Piece>): string {
    if ps == [] then "" else PieceText(ps[0]) + BodyText(ps[1..])
  }

  predicate EndsInDash(s: string) {
    s != "" && Dash(s[|s| - 1])
  }

  /** Characters are no angle brackets, and no nested body ends right before its `>` in a dash. */
  predicate PieceOk(p: Piece) {
    match p
    case Ch(c) => c != '<' && c != '>'
    case Arrow(_) => true
    case Nest(inner) => BodyOk(inner) && !EndsInDash(BodyText(inner))
  }

  predicate BodyOk(ps: seq<Piece>) {
    ps != [] ==> PieceOk(ps[0]) && BodyOk(ps[1..])
  }

  function LastOf(previous: char, s: string): char {
    if s == "" then previous else s[|s| - 1]
  }

  lemma {:induction false} PieceOver(acc: string, p: Piece, rest: string, depth: nat, previous: char)
    requires PieceOk(p) && depth >= 1
    ensures PieceText(p) != ""
    ensures BodyFrom(acc, PieceText(p) + rest, depth, previous) ==
            BodyFrom(acc + PieceText(p), rest, depth, LastOf(previous, PieceText(p)))
    decreases p, 0
  {
    match p
    case Ch(c) =>
      assert ([c] + rest)[1..] == rest;
    case Arrow(double) =>
      var a := if double then '=' else '-';
      assert PieceText(p) + rest == [a] + (['>'] + rest);
      assert ([a] + (['>'] + rest))[1..] == ['>'] + rest && (['>'] + rest)[1..] == rest;
      assert acc + [a] + ['>'] == acc + PieceText(p);
    case Nest(inner) =>
      var b := BodyText(inner);
      hide BodyText;
      NestGroups(acc, b, rest);
      BodyOver(acc + ['<'], inner, ['>'] + rest, depth + 1, '<');
  }

  lemma NestGroups(acc: string, b: string, rest: string)
    ensures ['<'] + b + ['>'] + rest == ['<'] + (b + (['>'] + rest))
    ensures (['<'] + (b + (['>'] + rest)))[1..] == b + (['>'] + rest) && (['>'] + rest)[1..] == rest
    ensures acc + ['<'] + b + ['>'] == acc + (['<'] + b + ['>'])
  {
  }

  lemma {:induction false} BodyOver(acc: string, ps: seq<Piece>, rest: string, depth: nat, previous: char)
    requires BodyOk(ps) && depth >= 1
    ensures BodyFrom(acc, BodyText(ps) + rest, depth, previous) ==
            BodyFrom(acc + BodyText(ps), rest, depth, LastOf(previous, BodyText(ps)))
    decreases ps, 1
  {
    if ps == [] {
      assert BodyText(ps) + rest == rest && acc + BodyText(ps) == acc;
    } else {
      var t, u := PieceText(ps[0]), BodyText(ps[1..]);
      PieceOver(acc, ps[0], u + rest, depth, previous);
      BodyOver(acc + t, ps[1..], rest, depth, LastOf(previous, t));
      assert t + u + rest == t + (u + rest) && acc + t + u == acc + (t + u);
    }
  }

  lemma {:induction false} BodyGrows(acc: string, text: string, depth: nat, previous: char)
    ensures |BodyFrom(acc, text, depth, previous)| >= |acc|
    decreases |text|
  {
    if text != "" && !(text[0] == '>' && !Dash(previous) && depth <= 1) {
      var c := text[0];
      BodyGrows(acc + [c], text[1..],
        if c == '<' then depth + 1 else if c == '>' && !Dash(previous) then depth - 1 else depth, c);
    }
  }

  /**
   The body of a well-bracketed attribute is read exactly, however many arrows it holds,
   if and only if it does not end in `-` or `=`: the closing `>` would make an arrow.
   */
  lemma AttributeBodyExact(ps: seq<Piece>, rest: string)
    requires BodyOk(ps)
    ensures AttributeBody(BodyText(ps) + ">" + rest) == BodyText(ps) <==> !EndsInDash(BodyText(ps))
  {
    var b := BodyText(ps);
    BodyOver("", ps, [">"[0]] + rest, 1, ' ');
    assert b + ">" + rest == b + ([">"[0]] + rest) && "" + b == b;
    if EndsInDash(b) {
      BodyGrows(b + ['>'], rest, 1, '>');
      assert ([">"[0]] + rest)[1..] == rest;
    }
  }

  // ----- the symbols of a spec -----

  predicate MnemonicChar(c: char) {
    SymbolChar(c) && c != '$'
  }

  function MnemonicRun(s: string): (n: nat)
    ensures n <= |s|
  {
    if s != "" && MnemonicChar(s[0]) then 1 + MnemonicRun(s[1..]) else 0
  }

  /** `scan_symbol_refs`: the name after every `@`, empty when it is not a bare one. */
  function SymbolRefs(text: string): seq<string> {
    if text == "" then []
    else (if text[0] == '@' then [SymbolPrefix(text[1..])] else []) + SymbolRefs(text[1..])
  }

  /** The symbols of the attribute whose mnemonic starts `rest`, if it has a body. */
  function AttributeSymbols(rest: string): seq<string> {
    var open := MnemonicRun(rest);
    if open == |rest| || rest[open] != '<' then []
    else SymbolRefs(AttributeBody(rest[open + 1..]))
  }

  /** `spec_device_symbols`, as a list; the marker never overlaps itself. */
  function DeviceSymbols(spec: string, marker: string): seq<string>
    requires marker != ""
  {
    match Find(spec, marker)
    case None => []
    case Some(i) =>
      var rest := spec[i + |marker|..];
      AttributeSymbols(rest) + DeviceSymbols(rest, marker)
  }

  method RunDeviceSymbols(spec: string, marker: string) returns (symbols: seq<string>)
    requires marker != ""
    ensures symbols == DeviceSymbols(spec, marker)
  {
    hide AttributeSymbols;
    symbols := [];
    var rest := spec;
    var found := Find(rest, marker);
    ConcatAssoc(DeviceSymbols(spec, marker), [], []);
    while found.Some?
      invariant found == Find(rest, marker)
      invariant DeviceSymbols(spec, marker) == symbols + DeviceSymbols(rest, marker)
      decreases |rest|
    {
      rest := rest[found.value + |marker|..];
      ConcatAssoc(symbols, AttributeSymbols(rest), DeviceSymbols(rest, marker));
      symbols := symbols + AttributeSymbols(rest);
      found := Find(rest, marker);
    }
    ConcatAssoc(symbols, [], []);
  }

  /** The symbols a declared device does not back. */
  function Dangling(symbols: seq<string>, rocket: string, cpu: string): seq<string> {
    if symbols == [] then []
    else (if symbols[0] == rocket || symbols[0] == cpu then [] else [symbols[0]]) + Dangling(symbols[1..], rocket, cpu)
  }

  /** `check_spec_device_names`: nothing dangles. */
  predicate NamesDeclared(spec: string, rocket: string, cpu: string) {
    Dangling(DeviceSymbols(spec, MARKER), rocket, cpu) == []
  }

  // ----- what the check decides -----

  lemma {:induction false} DanglingNone(symbols: seq<string>, rocket: string, cpu: string)
    ensures Dangling(symbols, rocket, cpu) == [] <==> forall s :: s in symbols ==> s == rocket || s == cpu
  {
    if symbols != [] {
      DanglingNone(symbols[1..], rocket, cpu);
      var first, rest := symbols[0], Dangling(symbols[1..], rocket, cpu);
      assert forall s :: s in symbols <==> s == first || s in symbols[1..];
      assert first in symbols;
      ConcatAssoc(rest, [], []);
      assert |[first] + rest| > 0;
    }
  }

  /** `s` is mentioned in an attribute that starts at `i`. */
  predicate MentionedAt(spec: string, marker: string, i: nat, s: string) {
    OccursAt(spec, i, marker) && s in AttributeSymbols(spec[i + |marker|..])
  }

  lemma {:induction false} SymbolsOfEvery(spec: string, marker: string, s: string)
    requires marker != "" && BorderFree(marker)
    ensures s in DeviceSymbols(spec, marker) <==> exists i: nat :: MentionedAt(spec, marker, i, s)
    decreases |spec|
  {
    hide FindFrom, Find, AttributeSymbols;
    FindSpec(spec, marker);
    var f := Find(spec, marker);
    if f.Some? {
      var k := f.value + |marker|;
      var rest := spec[k..];
      SymbolsOfEvery(rest, marker, s);
      assert DeviceSymbols(spec, marker) == AttributeSymbols(rest) + DeviceSymbols(rest, marker);
      if s in AttributeSymbols(rest) {
        assert MentionedAt(spec, marker, f.value, s);
      } else if s in DeviceSymbols(rest, marker) {
        var i: nat :| MentionedAt(rest, marker, i, s);
        Shifted(spec, k, marker, i);
        assert MentionedAt(spec, marker, k + i, s);
      }
      if i: nat :| MentionedAt(spec, marker, i, s) {
        NoOverlap(spec, marker, f.value, i);
        if i != f.value {
          Unshifted(spec, k, marker, i);
          assert MentionedAt(rest, marker, i - k, s);
        }
      }
    } else {
      assert DeviceSymbols(spec, marker) == [];
    }
  }

  lemma Shifted(spec: string, k: nat, marker: string, i: nat)
    requires k <= |spec| && OccursAt(spec[k..], i, marker)
    ensures OccursAt(spec, k + i, marker) && spec[k..][i + |marker|..] == spec[k + i + |marker|..]
  {
    OccursShift(spec[..k], spec[k..], marker, i);
    assert spec[..k] + spec[k..] == spec;
  }

  lemma Unshifted(spec: string, k: nat, marker: string, i: nat)
    requires k <= i && OccursAt(spec, i, marker)
    ensures OccursAt(spec[k..], i - k, marker) && spec[k..][i - k + |marker|..] == spec[i + |marker|..]
  {
    forall j | 0 <= j < |marker| ensures spec[k..][i - k + j] == marker[j] {
      assert spec[i + j] == marker[j];
    }
  }

  /** A border-free marker does not stand inside itself. */
  lemma NotInside(spec: string, marker: string, first: nat, i: nat)
    requires BorderFree(marker) && OccursAt(spec, first, marker) && first < i < first + |marker|
    ensures !OccursAt(spec, i, marker)
  {
    assert Differs(marker, i - first);
    var j :| 0 <= j < |marker| - (i - first) && marker[i - first + j] != marker[j];
    assert spec[first + (i - first + j)] == marker[i - first + j];
  }

  lemma NoOverlap(spec: string, marker: string, first: nat, i: nat)
    requires BorderFree(marker) && OccursAt(spec, first, marker) && OccursAt(spec, i, marker)
    requires forall j :: 0 <= j < first ==> !OccursAt(spec, j, marker)
    ensures i == first || i >= first + |marker|
  {
    if first < i < first + |marker| {
      NotInside(spec, marker, first, i);
    }
  }

  lemma MarkerBorder()
    ensures BorderFree(MARKER)
  {
    FirstTwo(MARKER);
  }

  /**
   On every spec the check passes if and only if each symbol mentioned in each device
   attribute, nested ones included, is one of the two declared devices.
   */
  lemma NamesDeclaredExact(spec: string, rocket: string, cpu: string)
    ensures NamesDeclared(spec, rocket, cpu) <==>
            forall i: nat, s :: MentionedAt(spec, MARKER, i, s) ==> s == rocket || s == cpu
  {
    hide MentionedAt, DeviceSymbols, Dangling;
    MarkerBorder();
    var symbols := DeviceSymbols(spec, MARKER);
    DanglingNone(symbols, rocket, cpu);
    forall i: nat, s | MentionedAt(spec, MARKER, i, s) ensures s in symbols {
      SymbolsOfEvery(spec, MARKER, s);
    }
    forall s | s in symbols ensures exists i: nat :: MentionedAt(spec, MARKER, i, s) {
      SymbolsOfEvery(spec, MARKER, s);
    }
  }

  lemma {:induction false} MnemonicRunIs(m: string, rest: string)
    requires forall i :: 0 <= i < |m| ==> MnemonicChar(m[i])
    requires rest == "" || !MnemonicChar(rest[0])
    ensures MnemonicRun(m + rest) == |m|
  {
    if m == "" {
      assert m + rest == rest;
    } else {
      assert (m + rest)[1..] == m[1..] + rest;
      MnemonicRunIs(m[1..], rest);
    }
  }

  /** `s` follows an `@` of `text`. */
  predicate RefersTo(text: string, s: string) {
    exists j :: 0 <= j < |text| && text[j] == '@' && s == SymbolPrefix(text[j + 1..])
  }

  lemma {:induction false} SymbolRefsAre(text: string, s: string)
    ensures s in SymbolRefs(text) <==> RefersTo(text, s)
  {
    if text != "" {
      var rest := text[1..];
      SymbolRefsAre(rest, s);
      if s in SymbolRefs(rest) {
        var j :| 0 <= j < |rest| && rest[j] == '@' && s == SymbolPrefix(rest[j + 1..]);
        assert text[j + 1] == '@' && text[j + 1 + 1..] == rest[j + 1..];
      }
      if RefersTo(text, s) {
        var j :| 0 <= j < |text| && text[j] == '@' && s == SymbolPrefix(text[j + 1..]);
        if j > 0 {
          assert rest[j - 1] == '@' && rest[j - 1 + 1..] == text[j + 1..];
        }
      }
    }
  }

  /** The symbols mentioned in a well-bracketed attribute are those its own body refers to. */
  lemma MentionedInBody(before: string, mnemonic: string, ps: seq<Piece>, after: string, s: string)
    requires forall i :: 0 <= i < |mnemonic| ==> MnemonicChar(mnemonic[i])
    requires BodyOk(ps) && !EndsInDash(BodyText(ps))
    ensures MentionedAt(before + MARKER + (mnemonic + "<" + (BodyText(ps) + ">" + after)), MARKER, |before|, s) <==>
            RefersTo(BodyText(ps), s)
  {
    hide SymbolRefs, RefersTo, AttributeBody;
    var body := BodyText(ps) + ">" + after;
    var rest := mnemonic + "<" + body;
    var spec := before + MARKER + rest;
    assert OccursAt(spec, |before|, MARKER);
    assert spec[|before| + |MARKER|..] == rest;
    MnemonicRunIs(mnemonic, "<" + body);
    assert rest == mnemonic + ("<" + body) && rest[|mnemonic| + 1..] == body;
    AttributeBodyExact(ps, after);
    SymbolRefsAre(BodyText(ps), s);
  }
}
