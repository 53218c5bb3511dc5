/**
 The decision record as MLIR prints it, and what scanning the printed record gives back.
 */
module DecisionsModel {
  import opened Text
  import opened Scanner
  import opened Decisions
  import opened Quoting
  import opened Locations

  // ----- printing -----

  function IntText(n: int): string {
    if n < 0 then "-" + Decimal(-n) else Decimal(n)
  }

  datatype Key = KindKey | LayoutKey | ShapeKey | PrecisionKey | DecisionKey | StatusKey | LimitKey
    | DetailKey | JobsKey | ColumnsKey | LocKey

  function KeyName(k: Key): string {
    match k
    case KindKey => "kind" case LayoutKey => "layout" case ShapeKey => "shape"
    case PrecisionKey => "precision" case DecisionKey => "decision" case StatusKey => "status"
    case LimitKey => "limit" case DetailKey => "detail" case JobsKey => "jobs"
    case ColumnsKey => "columns" case LocKey => "loc"
  }

  function ValueText(k: Key, d: Decision, p: Place): string {
    match k
    case KindKey => Quote(d.kind) case LayoutKey => Quote(d.layout) case ShapeKey => Quote(d.shape)
    case PrecisionKey => Quote(d.precision) case DecisionKey => Quote(d.decision)
    case StatusKey => Quote(d.status) case LimitKey => Quote(d.limit) case DetailKey => Quote(d.detail)
    case JobsKey => IntText(d.jobs) + " : i64" case ColumnsKey => IntText(d.columns) + " : i64"
    case LocKey => PlaceText(p)
  }

  function FieldText(k: Key, d: Decision, p: Place): string {
    KeyName(k) + " = " + ValueText(k, d, p)
  }

  /** A decision with the key order and the location form it is printed in. */
  datatype Printed = Printed(d: Decision, order: seq<Key>, place: Place)

  function FieldTexts(order: seq<Key>, d: Decision, p: Place): seq<string> {
    if order == [] then [] else [FieldText(order[0], d, p)] + FieldTexts(order[1..], d, p)
  }

  function EntryText(e: Printed): string {
    Join(FieldTexts(e.order, e.d, e.place), ", ")
  }

  function Groups(entries: seq<string>): seq<string> {
    if entries == [] then [] else ["{" + entries[0] + "}"] + Groups(entries[1..])
  }

  function EntryTexts(es: seq<Printed>): seq<string> {
    if es == [] then [] else [EntryText(es[0])] + EntryTexts(es[1..])
  }

  // ----- what may be printed -----

  const NOTHING := Decision("", "", "", "", "", "", "", "", "", 0, 0, "")

  /** The location is printed, and any other key that is not has nothing to say. */
  predicate Complete(d: Decision, order: seq<Key>) {
    LocKey in order && forall k: Key :: k in order || Put(d, k, NOTHING) == d
  }

  predicate PrintedOk(e: Printed) {
    I64(e.d.jobs) && I64(e.d.columns) && PlaceOk(e.place) && Complete(e.d, e.order)
  }

  // ----- what reading gives -----

  function ReadName(name: string, quoted: bool): string {
    if quoted then Escape(name) else name
  }

  /** The decision that comes out. */
  function ReadBack(d: Decision, name: string, p: Place, defs: Defs): Decision {
    Decision(name, Shown(d.kind), Shown(d.layout), Shown(d.shape), Shown(d.precision), Shown(d.decision),
             Shown(d.status), Shown(d.limit), Shown(d.detail), d.jobs, d.columns, ReadPlace(p, defs))
  }

  predicate PlainStrings(d: Decision) {
    && Plain(d.kind) && Plain(d.layout) && Plain(d.shape) && Plain(d.precision)
    && Plain(d.decision) && Plain(d.status) && Plain(d.limit) && Plain(d.detail)
  }

  // ----- scalars round trip -----

  lemma {:induction false} NumeralRunIs(d: string, rest: string)
    requires forall i :: 0 <= i < |d| ==> Digit(d[i]) || d[i] == '-'
    requires rest == "" || (!Digit(rest[0]) && rest[0] != '-')
    ensures NumeralRun(d + rest) == d
  {
    if d == "" {
      assert d + rest == rest;
    } else {
      assert (d + rest)[1..] == d[1..] + rest;
      NumeralRunIs(d[1..], rest);
    }
  }

  /** A run of digits and minus signs, and what ends it. */
  predicate NumeralEnds(run: string, rest: string) {
    && (forall i :: 0 <= i < |run| ==> Digit(run[i]) || run[i] == '-')
    && (rest == "" || (!Digit(rest[0]) && rest[0] != '-'))
  }

  /**
   What any value starts with: digits, behind a minus sign perhaps, are the number they spell if a
   64-bit integer holds it, and zero otherwise; so is any other run of digits and minus signs.
   */
  lemma IntegerExact(run: string, rest: string)
    requires NumeralEnds(run, rest)
    ensures run != "" && Digits(run) ==>
              LeadingInteger(run + rest) ==
              if DigitsValue(run) <= 9223372036854775807 then DigitsValue(run) else 0
    ensures |run| > 1 && run[0] == '-' && Digits(run[1..]) ==>
              LeadingInteger(run + rest) ==
              if DigitsValue(run[1..]) <= 9223372036854775808 then 0 - DigitsValue(run[1..]) else 0
    ensures (run == "" || !Digits(run)) && (|run| <= 1 || run[0] != '-' || !Digits(run[1..])) ==>
              LeadingInteger(run + rest) == 0
  {
    NumeralRunIs(run, rest);
    hide NumeralRun, DigitsValue, Digits;
  }

  lemma LeadingIntegerIs(n: int)
    requires I64(n)
    ensures LeadingInteger(IntText(n) + " : i64") == n
  {
    NumeralRunIs(IntText(n), " : i64");
    if n < 0 {
      DecimalValue(-n);
      assert IntText(n)[1..] == Decimal(-n);
    } else {
      DecimalValue(n);
      assert Digit(Decimal(n)[0]);
    }
  }

  // ----- fields neither halt nor move the scanner -----

  lemma ValueNeutral(k: Key, d: Decision, p: Place, st: Scan, level: nat, mark: char, opens: string, closes: string)
    requires PlaceOk(p) && Marks(mark, opens, closes) && !st.inString && !st.escaped && level <= st.depth
    ensures Neutral(ValueText(k, d, p), st, level, mark, opens, closes)
  {
    hide Neutral, Quote, PlaceText;
    match k
    case JobsKey => IntNeutral(d.jobs, st, level, mark, opens, closes);
    case ColumnsKey => IntNeutral(d.columns, st, level, mark, opens, closes);
    case LocKey => PlaceNeutral(p, st, level, mark, opens, closes);
    case KindKey => QuoteNeutral(d.kind, st, level, mark, opens, closes);
    case LayoutKey => QuoteNeutral(d.layout, st, level, mark, opens, closes);
    case ShapeKey => QuoteNeutral(d.shape, st, level, mark, opens, closes);
    case PrecisionKey => QuoteNeutral(d.precision, st, level, mark, opens, closes);
    case DecisionKey => QuoteNeutral(d.decision, st, level, mark, opens, closes);
    case StatusKey => QuoteNeutral(d.status, st, level, mark, opens, closes);
    case LimitKey => QuoteNeutral(d.limit, st, level, mark, opens, closes);
    case DetailKey => QuoteNeutral(d.detail, st, level, mark, opens, closes);
  }

  lemma IntNeutral(n: int, st: Scan, level: nat, mark: char, opens: string, closes: string)
    requires Marks(mark, opens, closes) && !st.inString && !st.escaped
    ensures Neutral(IntText(n) + " : i64", st, level, mark, opens, closes)
  {
    PlainPasses(IntText(n) + " : i64", st, level, mark, opens, closes);
  }

  lemma FieldNeutral(k: Key, d: Decision, p: Place, st: Scan, level: nat, mark: char, opens: string, closes: string)
    requires PlaceOk(p) && Marks(mark, opens, closes) && !st.inString && !st.escaped && level <= st.depth
    ensures Neutral(FieldText(k, d, p), st, level, mark, opens, closes)
  {
    PlainPasses(KeyName(k) + " = ", st, level, mark, opens, closes);
    ValueNeutral(k, d, p, st, level, mark, opens, closes);
    NeutralConcat(KeyName(k) + " = ", ValueText(k, d, p), st, level, mark, opens, closes);
  }

  // ----- an entry -----

  /** The parts of an entry: all but the first keep the blank after the comma. */
  function Spaced(fields: seq<string>): seq<string> {
    if fields == [] then [] else [" " + fields[0]] + Spaced(fields[1..])
  }

  lemma {:induction false} SplitFields(acc: string, order: seq<Key>, d: Decision, p: Place)
    requires PlaceOk(p) && order != []
    ensures SplitFrom(acc, Join(FieldTexts(order, d, p), ", "), START, ',') ==
            [acc + FieldText(order[0], d, p)] + Spaced(FieldTexts(order[1..], d, p))
    decreases |order|
  {
    hide FieldText, Cuts, Step, Neutral;
    var f := FieldText(order[0], d, p);
    var fs := FieldTexts(order[1..], d, p);
    assert FieldTexts(order, d, p)[1..] == fs;
    FieldCut(acc, order[0], d, p, "");
    if |order| == 1 {
      assert f + "" == f;
    } else {
      var rest := Join(fs, ", ");
      FieldCut(acc, order[0], d, p, ", " + rest);
      assert Join(FieldTexts(order, d, p), ", ") == f + (", " + rest);
      SplitFields(" ", order[1..], d, p);
      assert fs[1..] == FieldTexts(order[1..][1..], d, p) && fs[0] == FieldText(order[1], d, p);
    }
  }

  /** A field is scanned over, and a comma after it cuts. */
  lemma FieldCut(acc: string, k: Key, d: Decision, p: Place, rest: string)
    requires PlaceOk(p)
    ensures SplitFrom(acc, FieldText(k, d, p) + rest, START, ',') ==
            SplitFrom(acc + FieldText(k, d, p), rest, START, ',')
    ensures rest == "" ==> SplitFrom(acc, FieldText(k, d, p) + rest, START, ',') == [acc + FieldText(k, d, p)]
    ensures ", " <= rest ==>
              SplitFrom(acc, FieldText(k, d, p) + rest, START, ',') ==
              [acc + FieldText(k, d, p)] + SplitFrom(" ", rest[2..], START, ',')
  {
    hide FieldText, Passes, Run;
    var f := FieldText(k, d, p);
    FieldNeutral(k, d, p, START, 0, ',', OPENS, CLOSES);
    PassesNoCut(f, START, ',');
    SplitOver(acc, f, rest, START, ',');
    if ", " <= rest {
      CommaCut(acc + f, rest[2..]);
      assert rest == ", " + rest[2..];
    }
  }

  lemma CommaCut(acc: string, rest: string)
    ensures SplitFrom(acc, ", " + rest, START, ',') == [acc] + SplitFrom(" ", rest, START, ',')
  {
    assert (", " + rest)[1..] == " " + rest && (" " + rest)[1..] == rest;
    assert "" + [' '] == " ";
  }

  /** Copies one field of `target` into `d`. */
  function Put(d: Decision, k: Key, target: Decision): Decision {
    match k
    case KindKey => d.(kind := target.kind) case LayoutKey => d.(layout := target.layout)
    case ShapeKey => d.(shape := target.shape) case PrecisionKey => d.(precision := target.precision)
    case DecisionKey => d.(decision := target.decision) case StatusKey => d.(status := target.status)
    case LimitKey => d.(limit := target.limit) case DetailKey => d.(detail := target.detail)
    case JobsKey => d.(jobs := target.jobs) case ColumnsKey => d.(columns := target.columns)
    case LocKey => d.(location := target.location)
  }

  function PutAll(d: Decision, order: seq<Key>, target: Decision): Decision
    decreases |order|
  {
    if order == [] then d else PutAll(Put(d, order[0], target), order[1..], target)
  }

  /** The keys not in `order` already agree. */
  predicate Agree(d: Decision, target: Decision, order: seq<Key>) {
    d.functionName == target.functionName && forall k: Key :: k in order || Put(d, k, target) == d
  }

  lemma {:induction false} PutAllIs(d: Decision, order: seq<Key>, target: Decision)
    requires Agree(d, target, order)
    ensures PutAll(d, order, target) == target
    decreases |order|
  {
    if order == [] {
      assert Put(d, KindKey, target) == d && Put(d, LayoutKey, target) == d && Put(d, ShapeKey, target) == d;
      assert Put(d, PrecisionKey, target) == d && Put(d, DecisionKey, target) == d && Put(d, StatusKey, target) == d;
      assert Put(d, LimitKey, target) == d && Put(d, DetailKey, target) == d && Put(d, JobsKey, target) == d;
      assert Put(d, ColumnsKey, target) == d && Put(d, LocKey, target) == d;
    } else {
      var e := Put(d, order[0], target);
      forall k: Key ensures k in order[1..] || Put(e, k, target) == e {
        assert order == [order[0]] + order[1..];
        PutKeeps(d, order[0], k, target);
      }
      PutAllIs(e, order[1..], target);
    }
  }

  lemma PutKeeps(d: Decision, j: Key, k: Key, target: Decision)
    ensures j == k || Put(d, k, target) == d ==> Put(Put(d, j, target), k, target) == Put(d, j, target)
  {
  }

  lemma ValueTrimmed(k: Key, d: Decision, p: Place)
    requires PlaceOk(p)
    ensures var v := ValueText(k, d, p); v != "" && !White(v[0]) && !White(v[|v| - 1])
  {
    hide Escape, Decimal, LocText;
    if k.LocKey? {
      match p
      case Ref(id) => assert ("#loc" + id)[|"#loc" + id| - 1] in "#loc" + id;
      case Inline(l) => assert ("loc" + "(" + LocText(l) + ")")[0] == 'l';
    }
  }

  lemma SetFieldIs(e: Decision, k: Key, d: Decision, name: string, p: Place, aliases: map<string, string>,
                   defs: Defs)
    requires PlaceOk(p) && I64(d.jobs) && I64(d.columns) && Shows(aliases, defs)
    ensures SetField(e, KeyName(k), ValueText(k, d, p), aliases) == Put(e, k, ReadBack(d, name, p, defs))
  {
    hide Quote, IntText, PlaceText, Unquote, LeadingInteger, ResolveLocation, ReadPlace, Shown, Shows;
    match k
    case JobsKey => LeadingIntegerIs(d.jobs);
    case ColumnsKey => LeadingIntegerIs(d.columns);
    case LocKey => ResolveIs(p, aliases, defs);
    case KindKey => UnquoteQuote(d.kind);
    case LayoutKey => UnquoteQuote(d.layout);
    case ShapeKey => UnquoteQuote(d.shape);
    case PrecisionKey => UnquoteQuote(d.precision);
    case DecisionKey => UnquoteQuote(d.decision);
    case StatusKey => UnquoteQuote(d.status);
    case LimitKey => UnquoteQuote(d.limit);
    case DetailKey => UnquoteQuote(d.detail);
  }

  predicate KeyToken(name: string) {
    name != "" && '=' !in name && forall i :: 0 <= i < |name| ==> !White(name[i])
  }

  lemma KeyTokens(k: Key)
    ensures KeyToken(KeyName(k))
  {
  }

  lemma PartParts(e: Decision, lead: string, name: string, value: string, aliases: map<string, string>)
    requires lead == "" || lead == " "
    requires KeyToken(name) && value != "" && !White(value[0]) && !White(value[|value| - 1])
    ensures ParsePart(e, lead + name + " = " + value, aliases) == SetField(e, name, value, aliases)
  {
    hide SetField, Find, FindFrom;
    var a := lead + name;
    FindMark(a, " = ", value);
    assert (a + " = " + value)[..|a|] == a && (a + " = " + value)[|a| + 3..] == value;
    TrimBoth(lead, name, "");
    assert a + "" == a;
    TrimBoth("", value, "");
    assert "" + value + "" == value;
  }

  lemma PartIs(e: Decision, lead: string, k: Key, d: Decision, name: string, p: Place,
               aliases: map<string, string>, defs: Defs)
    requires lead == "" || lead == " "
    requires PlaceOk(p) && I64(d.jobs) && I64(d.columns) && Shows(aliases, defs)
    ensures ParsePart(e, lead + FieldText(k, d, p), aliases) == Put(e, k, ReadBack(d, name, p, defs))
  {
    hide ParsePart, SetField, KeyName, ValueText, Put, ReadBack, Shows;
    ValueTrimmed(k, d, p);
    KeyTokens(k);
    PartParts(e, lead, KeyName(k), ValueText(k, d, p), aliases);
    assert lead + FieldText(k, d, p) == lead + KeyName(k) + " = " + ValueText(k, d, p);
    SetFieldIs(e, k, d, name, p, aliases, defs);
  }

  lemma {:induction false} ParseSpaced(e: Decision, order: seq<Key>, d: Decision, name: string, p: Place,
                                       aliases: map<string, string>, defs: Defs)
    requires PlaceOk(p) && I64(d.jobs) && I64(d.columns) && Shows(aliases, defs)
    ensures ParseFields(e, Spaced(FieldTexts(order, d, p)), aliases) == PutAll(e, order, ReadBack(d, name, p, defs))
    decreases |order|
  {
    if order != [] {
      hide FieldText, ParsePart, Put, ReadBack, Shows;
      PartIs(e, " ", order[0], d, name, p, aliases, defs);
      ParseSpaced(Put(e, order[0], ReadBack(d, name, p, defs)), order[1..], d, name, p, aliases, defs);
      var fs := FieldTexts(order, d, p);
      assert fs[0] == FieldText(order[0], d, p) && fs[1..] == FieldTexts(order[1..], d, p);
      assert Spaced(fs)[1..] == Spaced(fs[1..]);
    }
  }

  /** What is not printed reads as it is left. */
  lemma NotPrinted(d: Decision, order: seq<Key>, name: string, p: Place, defs: Defs)
    requires Complete(d, order)
    ensures Agree(EMPTY.(functionName := name), ReadBack(d, name, p, defs), order)
  {
    var first, out := EMPTY.(functionName := name), ReadBack(d, name, p, defs);
    forall k: Key ensures k in order || Put(first, k, out) == first {
      if k !in order {
        LeftEmpty(d, k, name, p, defs);
        hide *;
      }
    }
    hide Put, Shown, ReadPlace;
  }

  lemma LeftEmpty(d: Decision, k: Key, name: string, p: Place, defs: Defs)
    requires Put(d, k, NOTHING) == d && k != LocKey
    ensures var first := EMPTY.(functionName := name); Put(first, k, ReadBack(d, name, p, defs)) == first
  {
    ShownNothing();
    hide Shown, ReadPlace;
  }

  lemma ShownNothing()
    ensures Shown("") == ""
  {
  }

  /** Parsing a printed entry, in whatever key order it was printed. */
  lemma EntryReads(e: Printed, name: string, aliases: map<string, string>, defs: Defs)
    requires PrintedOk(e) && Shows(aliases, defs)
    ensures ParseDecision(name, EntryText(e), aliases) == ReadBack(e.d, name, e.place, defs)
  {
    hide FieldText, ParsePart, Put, Join, FieldTexts, Spaced, Shown, ReadPlace, Shows;
    var order, d, p, out := e.order, e.d, e.place, ReadBack(e.d, name, e.place, defs);
    assert LocKey in order;
    NotPrinted(d, order, name, p, defs);
    SplitFields("", order, d, p);
    var f := FieldText(order[0], d, p);
    var first := EMPTY.(functionName := name);
    var spaced := Spaced(FieldTexts(order[1..], d, p));
    PartIs(first, "", order[0], d, name, p, aliases, defs);
    assert "" + f == f;
    assert ([f] + spaced)[1..] == spaced;
    ParseSpaced(Put(first, order[0], out), order[1..], d, name, p, aliases, defs);
    PutAllIs(first, order, out);
  }

  /** A decision comes back as it was exactly when its strings, its name and its file print plainly. */
  lemma EntryExact(d: Decision, name: string, quoted: bool, p: Place, defs: Defs)
    requires d.functionName == name && d.location == Located(p, defs) && PlaceOk(p)
    ensures ReadBack(d, ReadName(name, quoted), p, defs) == d <==>
            PlainStrings(d) && (quoted ==> Verbatim(name)) && KeptPlace(p, defs)
  {
    hide Shown, Plain, Verbatim, Escape, ReadPlace, Located, KeptPlace;
    ShownExact(d.kind);
    ShownExact(d.layout);
    ShownExact(d.shape);
    ShownExact(d.precision);
    ShownExact(d.decision);
    ShownExact(d.status);
    ShownExact(d.limit);
    ShownExact(d.detail);
    EscapeExact(name);
    PlaceExact(p, defs);
  }

  // ----- an array of entries -----

  lemma SeparatorNeutral(st: Scan, level: nat, mark: char, opens: string, closes: string)
    requires Marks(mark, opens, closes) && mark != ',' && !st.inString
    ensures Neutral(", ", st, level, mark, opens, closes)
  {
    PlainPasses(" ", st, level, mark, opens, closes);
    assert Step(st, ',', opens, closes) == st;
    assert ", "[1..] == " ";
  }

  lemma {:induction false} EntryNeutral(order: seq<Key>, d: Decision, p: Place,
                                       st: Scan, level: nat, mark: char, opens: string, closes: string)
    requires PlaceOk(p) && Marks(mark, opens, closes) && mark != ','
    requires !st.inString && !st.escaped && level <= st.depth
    ensures Neutral(Join(FieldTexts(order, d, p), ", "), st, level, mark, opens, closes)
  {
    if order != [] {
      hide FieldText, Passes, Run;
      var fs := FieldTexts(order, d, p);
      assert fs[0] == FieldText(order[0], d, p) && fs[1..] == FieldTexts(order[1..], d, p);
      FieldNeutral(order[0], d, p, st, level, mark, opens, closes);
      if |order| > 1 {
        EntryNeutral(order[1..], d, p, st, level, mark, opens, closes);
        SeparatorNeutral(st, level, mark, opens, closes);
        NeutralConcat(fs[0], ", ", st, level, mark, opens, closes);
        NeutralConcat(fs[0] + ", ", Join(fs[1..], ", "), st, level, mark, opens, closes);
      }
    }
  }

  lemma BracesNeutral(body: string, st: Scan)
    requires !st.inString && !st.escaped && Neutral(body, st, 1, ']', "[", "]")
    ensures Neutral("{" + body + "}", st, 1, ']', "[", "]")
  {
    assert "{"[1..] == "" && "}"[1..] == "";
    NeutralConcat("{", body, st, 1, ']', "[", "]");
    NeutralConcat("{" + body, "}", st, 1, ']', "[", "]");
  }

  predicate AllPrintedOk(es: seq<Printed>) {
    es != [] ==> PrintedOk(es[0]) && AllPrintedOk(es[1..])
  }

  function ArrayText(es: seq<Printed>): string {
    Join(Groups(EntryTexts(es)), ", ")
  }

  lemma ArrayHead(es: seq<Printed>)
    requires es != []
    ensures Groups(EntryTexts(es))[0] == "{" + EntryText(es[0]) + "}"
    ensures Groups(EntryTexts(es))[1..] == Groups(EntryTexts(es[1..]))
    ensures |es| == 1 ==> ArrayText(es) == "{" + EntryText(es[0]) + "}"
    ensures |es| > 1 ==> ArrayText(es) == "{" + EntryText(es[0]) + "}" + ", " + ArrayText(es[1..])
  {
    hide EntryText;
    assert EntryTexts(es)[0] == EntryText(es[0]) && EntryTexts(es)[1..] == EntryTexts(es[1..]);
  }

  lemma {:induction false} ArrayNeutral(es: seq<Printed>, st: Scan)
    requires AllPrintedOk(es) && !st.inString && !st.escaped && 1 <= st.depth
    ensures Neutral(ArrayText(es), st, 1, ']', "[", "]")
  {
    if es != [] {
      hide EntryText, Passes, Run, Neutral;
      ArrayHead(es);
      EntryIsNeutral(es[0], st, ']', "[", "]");
      BracesNeutral(EntryText(es[0]), st);
      if |es| > 1 {
        var g := "{" + EntryText(es[0]) + "}";
        ArrayNeutral(es[1..], st);
        SeparatorNeutral(st, 1, ']', "[", "]");
        NeutralConcat(g, ", ", st, 1, ']', "[", "]");
        NeutralConcat(g + ", ", ArrayText(es[1..]), st, 1, ']', "[", "]");
      }
    } else {
      assert Join(Groups(EntryTexts(es)), ", ") == "";
    }
  }

  lemma EntryIsNeutral(e: Printed, st: Scan, mark: char, opens: string, closes: string)
    requires PrintedOk(e) && Marks(mark, opens, closes) && mark != ','
    requires !st.inString && !st.escaped && 1 <= st.depth
    ensures Neutral(EntryText(e), st, 1, mark, opens, closes)
  {
    EntryNeutral(e.order, e.d, e.place, st, 1, mark, opens, closes);
  }

  lemma GroupFirst(body: string, rest: string)
    requires Neutral(body, Scan(1, false, false), 1, '}', "{", "}")
    ensures TopLevelGroups("{" + body + "}" + rest, '{', '}') == [body] + TopLevelGroups(rest, '{', '}')
  {
    hide Find, FindFrom, Balanced;
    var text := ['{'] + body + ['}'] + rest;
    FirstIs('{', body + ['}'] + rest);
    assert text == ['{'] + (body + ['}'] + rest);
    BalancedIs(body, rest, '{', '}');
    assert text[0..] == text && text[|body| + 2..] == rest;
    assert "{" + body + "}" + rest == text;
  }

  lemma GroupsSkip(lead: string, rest: string)
    requires '{' !in lead && |lead| == 2
    ensures TopLevelGroups(lead + rest, '{', '}') == TopLevelGroups(rest, '{', '}')
  {
    hide *;
    BraceBehind(lead, rest);
    OpenMark();
    match Find(rest, "{")
    case None =>
      NoGroup(rest);
      NoGroup(lead + rest);
    case Some(i) =>
      LeadDrop(lead, rest, i);
      match Balanced(rest[i..], '{', '}')
      case None =>
        OpenGroup(rest, i);
        OpenGroup(lead + rest, 2 + i);
      case Some(g) =>
        LeadDrop(lead, rest, i + |g| + 2);
        GroupAt(rest, i, g);
        GroupAt(lead + rest, 2 + i, g);
  }

  lemma OpenMark()
    ensures ['{'] == "{"
  {
  }

  lemma NoGroup(text: string)
    requires Find(text, ['{']) == None
    ensures TopLevelGroups(text, '{', '}') == []
  {
    hide Find, Balanced;
  }

  lemma OpenGroup(text: string, i: nat)
    requires Find(text, ['{']) == Some(i) && i <= |text| && Balanced(text[i..], '{', '}') == None
    ensures TopLevelGroups(text, '{', '}') == []
  {
    hide Find, Balanced;
  }

  lemma GroupAt(text: string, i: nat, g: string)
    requires Find(text, ['{']) == Some(i) && i + |g| + 2 <= |text| && Balanced(text[i..], '{', '}') == Some(g)
    ensures TopLevelGroups(text, '{', '}') == [g] + TopLevelGroups(text[i + |g| + 2..], '{', '}')
  {
    hide Find, Balanced;
  }

  lemma BraceBehind(lead: string, rest: string)
    requires '{' !in lead && |lead| == 2
    ensures Find(lead + rest, "{") == match Find(rest, "{") case None => None case Some(i) => Some(2 + i)
  {
    CharFree(lead[..1], "{", '{');
    NothingIn("{");
    hide Find, FindFrom;
    FindSplit(lead[..1], lead[1], rest, "{");
    assert lead[..1] + [lead[1]] + rest == lead + rest;
  }

  lemma LeadDrop(lead: string, rest: string, i: nat)
    requires |lead| == 2 && i <= |rest|
    ensures (lead + rest)[i + 2..] == rest[i..]
  {
  }

  lemma {:induction false} GroupsOfArray(es: seq<Printed>)
    requires AllPrintedOk(es)
    ensures TopLevelGroups(ArrayText(es), '{', '}') == EntryTexts(es)
  {
    hide EntryText, TopLevelGroups, PrintedOk;
    if es == [] {
      NoGroups();
    } else {
      var body := EntryText(es[0]);
      ArrayHead(es);
      EntryIsNeutral(es[0], Scan(1, false, false), '}', "{", "}");
      GroupsOfArray(es[1..]);
      if |es| == 1 {
        GroupFirst(body, "");
        assert "{" + body + "}" + "" == "{" + body + "}";
        NoGroups();
      } else {
        GroupFirst(body, ", " + ArrayText(es[1..]));
        GroupsSkip(", ", ArrayText(es[1..]));
        assert "{" + body + "}" + ", " + ArrayText(es[1..]) == "{" + body + "}" + (", " + ArrayText(es[1..]));
      }
    }
  }

  lemma NoGroups()
    ensures TopLevelGroups("", '{', '}') == [] && ArrayText([]) == ""
  {
    CharFree("", "{", '{');
  }

  // ----- a module -----

  datatype IrLine =
    | Func(pre: string, name: string, quoted: bool, mid: string, entries: seq<Printed>, post: string)
      // the definition of a location alias
    | AliasDef(indent: string, id: string, loc: Loc)
    | OtherIr(text: string)

  function SymbolText(name: string, quoted: bool): string {
    if quoted then "@\"" + name + "\"" else "@" + name
  }

  function FuncHead(l: IrLine): string
    requires l.Func?
  {
    l.pre + SymbolText(ReadName(l.name, l.quoted), l.quoted) + l.mid
  }

  function IrText(l: IrLine): string {
    match l
    case Func(_, _, _, _, entries, post) => FuncHead(l) + DECISIONS_ATTR + ("[" + ArrayText(entries) + "]" + post)
    case AliasDef(indent, id, loc) => indent + ("#" + ("loc" + id) + " = " + PlaceText(Inline(loc)))
    case OtherIr(text) => text
  }

  function IrTexts(m: seq<IrLine>): seq<string> {
    if m == [] then [] else [IrText(m[0])] + IrTexts(m[1..])
  }

  /** The IR text of a module. */
  function PrintIr(m: seq<IrLine>): string {
    Unlines(IrTexts(m))
  }

  /**
   What a line defines: a location alias in terms of those before it.  An alias line in any other
   spelling is one that should read as unknown.
   */
  function Define(l: IrLine, defs: Defs): Defs {
    match l
    case AliasDef(_, id, loc) =>
      var file := FirstFile(loc, defs);
      defs["#loc" + id := Def(ReadLoc(loc), Promised(loc, file), file)]
    case OtherIr(text) =>
      (match AliasOf(text) case None => defs case Some((name, read)) => defs[name := Def(read, UNKNOWN, None)])
    case Func(_, _, _, _, _, _) => defs
  }

  /** The alias definitions of a module, a later one replacing an earlier one. */
  function DefsOf(m: seq<IrLine>, acc: Defs): Defs
    decreases |m|
  {
    if m == [] then acc else DefsOf(m[1..], Define(m[0], acc))
  }

  /** Every decision of a module, in order. */
  function DecisionsOf(es: seq<Printed>): seq<Decision> {
    if es == [] then [] else [es[0].d] + DecisionsOf(es[1..])
  }

  function AllDecisions(m: seq<IrLine>): seq<Decision> {
    if m == [] then []
    else (if m[0].Func? then DecisionsOf(m[0].entries) else []) + AllDecisions(m[1..])
  }

  /** A name that is printed without quotes, and where it ends. */
  predicate BareName(name: string, mid: string) {
    && (forall i :: 0 <= i < |name| ==> SymbolChar(name[i]))
    && (mid == "" || (!SymbolChar(mid[0]) && (name != "" || mid[0] != '"')))
  }

  /** The line reads as what it is. */
  predicate IrClean(l: IrLine) {
    var text := IrText(l);
    && '\n' !in text && (text == "" || text[|text| - 1] != '\r')
    && match l
       case Func(pre, name, quoted, mid, entries, _) =>
         && '@' !in pre && !Contains(FuncHead(l), DECISIONS_ATTR)
         && (quoted || BareName(name, mid))
         && AllPrintedOk(entries) && AliasOf(text).None?
       case AliasDef(indent, id, loc) => AllWhite(indent) && IdOk(id) && LocOk(loc) && !Contains(text, DECISIONS_ATTR)
       case OtherIr(_) => !Contains(text, DECISIONS_ATTR)
  }

  predicate AllIrClean(m: seq<IrLine>) {
    m != [] ==> IrClean(m[0]) && AllIrClean(m[1..])
  }

  /** The decisions belong to the function they stand on and to the place they are printed with. */
  predicate Placed(es: seq<Printed>, name: string, defs: Defs) {
    es != [] ==>
      && es[0].d.functionName == name && es[0].d.location == Located(es[0].place, defs)
      && Placed(es[1..], name, defs)
  }

  predicate AllPlaced(m: seq<IrLine>, defs: Defs) {
    m != [] ==> (m[0].Func? ==> Placed(m[0].entries, m[0].name, defs)) && AllPlaced(m[1..], defs)
  }

  function ReadEntries(es: seq<Printed>, name: string, defs: Defs): seq<Decision> {
    if es == [] then [] else [ReadBack(es[0].d, name, es[0].place, defs)] + ReadEntries(es[1..], name, defs)
  }

  /** What the scan finds: every decision, as it reads. */
  function ReadDecisions(m: seq<IrLine>, defs: Defs): seq<Decision> {
    if m == [] then []
    else (if m[0].Func? then ReadEntries(m[0].entries, ReadName(m[0].name, m[0].quoted), defs) else [])
         + ReadDecisions(m[1..], defs)
  }

  /** All strings of the entries, the name they stand on and their files print plainly. */
  predicate Legible(es: seq<Printed>, name: string, quoted: bool, defs: Defs) {
    es != [] ==>
      && PlainStrings(es[0].d) && (quoted ==> Verbatim(name)) && KeptPlace(es[0].place, defs)
      && Legible(es[1..], name, quoted, defs)
  }

  predicate AllLegible(m: seq<IrLine>, defs: Defs) {
    m != [] ==> (m[0].Func? ==> Legible(m[0].entries, m[0].name, m[0].quoted, defs)) && AllLegible(m[1..], defs)
  }

  lemma {:induction false} EntriesRead(es: seq<Printed>, name: string, aliases: map<string, string>, defs: Defs)
    requires AllPrintedOk(es) && Shows(aliases, defs)
    ensures ParseAll(name, EntryTexts(es), aliases) == ReadEntries(es, name, defs)
  {
    if es != [] {
      hide EntryText, ParseDecision, PrintedOk, ReadBack, Shows;
      EntryReads(es[0], name, aliases, defs);
      EntriesRead(es[1..], name, aliases, defs);
      assert EntryTexts(es)[0] == EntryText(es[0]) && EntryTexts(es)[1..] == EntryTexts(es[1..]);
    }
  }

  lemma {:induction false} EntriesExact(es: seq<Printed>, name: string, quoted: bool, defs: Defs)
    requires Placed(es, name, defs) && AllPrintedOk(es)
    ensures |ReadEntries(es, ReadName(name, quoted), defs)| == |DecisionsOf(es)|
    ensures ReadEntries(es, ReadName(name, quoted), defs) == DecisionsOf(es) <==> Legible(es, name, quoted, defs)
  {
    if es != [] {
      hide ReadBack, PlainStrings, KeptPlace, Verbatim, Located, ReadName;
      EntryExact(es[0].d, name, quoted, es[0].place, defs);
      EntriesExact(es[1..], name, quoted, defs);
      var rs, ds := ReadEntries(es, ReadName(name, quoted), defs), DecisionsOf(es);
      assert rs[1..] == ReadEntries(es[1..], ReadName(name, quoted), defs) && ds[1..] == DecisionsOf(es[1..]);
      SplitEqual([rs[0]], rs[1..], [ds[0]], ds[1..]);
    }
  }

  lemma SplitEqual<T>(a: seq<T>, b: seq<T>, c: seq<T>, d: seq<T>)
    requires |a| == |c|
    ensures a + b == c + d <==> a == c && b == d
  {
    if a + b == c + d {
      assert a == (a + b)[..|a|] && c == (c + d)[..|c|] && b == (a + b)[|a|..] && d == (c + d)[|c|..];
    }
  }

  lemma {:induction false} DecisionsExact(m: seq<IrLine>, defs: Defs)
    requires AllPlaced(m, defs) && AllIrClean(m)
    ensures |ReadDecisions(m, defs)| == |AllDecisions(m)|
    ensures ReadDecisions(m, defs) == AllDecisions(m) <==> AllLegible(m, defs)
  {
    if m != [] {
      DecisionsExact(m[1..], defs);
      PlacedHead(m, defs);
      hide *;
      if m[0].Func? {
        EntriesExact(m[0].entries, m[0].name, m[0].quoted, defs);
        SplitEqual(ReadEntries(m[0].entries, ReadName(m[0].name, m[0].quoted), defs), ReadDecisions(m[1..], defs),
                   DecisionsOf(m[0].entries), AllDecisions(m[1..]));
      }
    }
  }

  /** The first line of a module and the others. */
  lemma PlacedHead(m: seq<IrLine>, defs: Defs)
    requires m != [] && AllPlaced(m, defs) && AllIrClean(m)
    ensures m[0].Func? ==> Placed(m[0].entries, m[0].name, defs) && AllPrintedOk(m[0].entries)
    ensures AllLegible(m, defs) <==>
            (m[0].Func? ==> Legible(m[0].entries, m[0].name, m[0].quoted, defs)) && AllLegible(m[1..], defs)
    ensures if m[0].Func? then
              && ReadDecisions(m, defs) ==
                 ReadEntries(m[0].entries, ReadName(m[0].name, m[0].quoted), defs) + ReadDecisions(m[1..], defs)
              && AllDecisions(m) == DecisionsOf(m[0].entries) + AllDecisions(m[1..])
            else ReadDecisions(m, defs) == ReadDecisions(m[1..], defs) && AllDecisions(m) == AllDecisions(m[1..])
  {
    hide ReadEntries, DecisionsOf, Legible, Placed, ReadName, IrText;
    ConcatAssoc(ReadDecisions(m[1..], defs), [], []);
    ConcatAssoc(AllDecisions(m[1..]), [], []);
  }

  lemma SymbolNameIs(pre: string, name: string, quoted: bool, mid: string)
    requires '@' !in pre && if quoted then '"' !in name else BareName(name, mid)
    ensures SymbolName(pre + SymbolText(name, quoted) + mid) == Some(name)
  {
    hide Find, FindFrom;
    if quoted {
      SymbolQuoted(pre, name, mid);
    } else {
      SymbolBare(pre, name, mid);
    }
  }

  lemma SymbolBare(pre: string, name: string, mid: string)
    requires '@' !in pre && BareName(name, mid)
    ensures SymbolName(pre + ("@" + name) + mid) == Some(name)
  {
    hide Find, FindFrom, SymbolPrefix;
    AtFound(pre, name + mid);
    ConcatAssoc(pre, "@", name);
    ConcatAssoc(pre + "@", name, mid);
    SymbolPrefixIs(name, mid);
  }

  lemma SymbolQuoted(pre: string, name: string, mid: string)
    requires '@' !in pre && '"' !in name
    ensures SymbolName(pre + ("@\"" + name + "\"") + mid) == Some(name)
  {
    hide Find, FindFrom, SymbolPrefix;
    AtFound(pre, "\"" + name + "\"" + mid);
    QuotedGroups(pre, name, mid);
    QuoteAfter(name, mid);
  }

  lemma QuotedGroups(pre: string, name: string, mid: string)
    ensures pre + ("@\"" + name + "\"") + mid == pre + "@" + ("\"" + name + "\"" + mid)
    ensures ("\"" + name + "\"" + mid)[1..] == name + "\"" + mid
    ensures (name + "\"" + mid)[..|name|] == name
  {
  }

  lemma AtFound(pre: string, rest: string)
    requires '@' !in pre
    ensures Find(pre + "@" + rest, "@") == Some(|pre|) && (pre + "@" + rest)[|pre| + 1..] == rest
  {
    CharFree(pre, "@", '@');
    assert BorderFree("@");
    FindAfter(pre, "@", rest);
  }

  lemma FuncLine(l: IrLine, aliases: map<string, string>, defs: Defs)
    requires l.Func? && IrClean(l) && Shows(aliases, defs)
    ensures ScanLine(IrText(l), aliases) == ReadEntries(l.entries, ReadName(l.name, l.quoted), defs)
  {
    var name := ReadName(l.name, l.quoted);
    EscapeQuoteFree(l.name);
    hide Find, FindFrom, ArrayText, SymbolText, TopLevelGroups, Balanced, SymbolName, AllPrintedOk, ParseAll;
    hide Escape, ReadEntries, ReadName, Shows;
    var head, es := FuncHead(l), l.entries;
    var text := ArrayText(es);
    AttrBorder();
    FindAfter(head, DECISIONS_ATTR, "[" + text + "]" + l.post);
    var line := IrText(l);
    assert line[..|head|] == head;
    assert line[|head| + |DECISIONS_ATTR|..] == "[" + text + "]" + l.post;
    SymbolNameIs(l.pre, name, l.quoted, l.mid);
    ArrayNeutral(es, Scan(1, false, false));
    BalancedIs(text, l.post, '[', ']');
    assert ['['] + text + [']'] + l.post == "[" + text + "]" + l.post;
    GroupsOfArray(es);
    EntriesRead(es, name, aliases, defs);
  }

  lemma AttrBorder()
    ensures BorderFree(DECISIONS_ATTR)
  {
    FirstTwo(DECISIONS_ATTR);
  }

  lemma AliasLine(indent: string, id: string, loc: Loc)
    requires AllWhite(indent) && IdOk(id) && LocOk(loc)
    ensures AliasOf(indent + ("#" + ("loc" + id) + " = " + PlaceText(Inline(loc)))) == Some(("#loc" + id, ReadLoc(loc)))
  {
    hide Find, FindFrom, FormatLocation, LocText, ReadLoc;
    var name, body := "loc" + id, PlaceText(Inline(loc));
    var rest := name + " = " + body;
    TrimStartSkips(indent, "#" + rest);
    assert "#" + name + " = " + body == "#" + rest;
    assert ("#" + rest)[1..] == rest;
    FindMark(name, " = ", body);
    assert rest[..|name|] == name && rest[|name| + 3..] == body;
    PlaceReads(loc);
    assert "#" + name == "#loc" + id;
    PlaceStarts(loc);
  }

  lemma PlaceStarts(loc: Loc)
    ensures "loc(" <= PlaceText(Inline(loc))
  {
    hide LocText;
    assert "loc" + "(" == "loc(";
    assert PlaceText(Inline(loc)) == "loc(" + (LocText(loc) + ")");
  }

  lemma LineIs(l: IrLine, aliases: map<string, string>, defs: Defs)
    requires IrClean(l) && Shows(aliases, defs)
    ensures ScanLine(IrText(l), aliases) ==
            if l.Func? then ReadEntries(l.entries, ReadName(l.name, l.quoted), defs) else []
  {
    if l.Func? {
      FuncLine(l, aliases, defs);
    }
  }

  lemma AliasIs(l: IrLine, acc: map<string, string>, defs: Defs)
    requires IrClean(l) && Shows(acc, defs)
    ensures Shows(AddAlias(IrText(l), acc), Define(l, defs))
  {
    if l.AliasDef? {
      hide AliasOf, LocText, FirstFile, ReadLoc, Promised, Contains;
      AliasLine(l.indent, l.id, l.loc);
    }
  }

  lemma {:induction false} AliasesAre(m: seq<IrLine>, acc: map<string, string>, defs: Defs)
    requires AllIrClean(m) && Shows(acc, defs)
    ensures Shows(LocationAliases(IrTexts(m), acc), DefsOf(m, defs))
    ensures NoLineFeeds(IrTexts(m)) && StripAll(IrTexts(m)) == IrTexts(m)
    decreases |m|
  {
    if m != [] {
      hide IrText, IrClean, AddAlias, StripCr, Shows, Define;
      LineKept(m[0]);
      AliasIs(m[0], acc, defs);
      var ts := IrTexts(m);
      assert ts[0] == IrText(m[0]) && ts[1..] == IrTexts(m[1..]);
      AliasesAre(m[1..], AddAlias(ts[0], acc), Define(m[0], defs));
    }
  }

  lemma LineKept(l: IrLine)
    requires IrClean(l)
    ensures StripCr(IrText(l)) == IrText(l) && '\n' !in IrText(l)
  {
  }

  lemma {:induction false} LinesAre(m: seq<IrLine>, aliases: map<string, string>, defs: Defs)
    requires AllIrClean(m) && Shows(aliases, defs)
    ensures ScanLines(IrTexts(m), aliases) == ReadDecisions(m, defs)
  {
    if m != [] {
      hide IrText, IrClean, ScanLine, ReadEntries, ReadName, Shows;
      LineIs(m[0], aliases, defs);
      LinesAre(m[1..], aliases, defs);
      var ts := IrTexts(m);
      assert ts[0] == IrText(m[0]) && ts[1..] == IrTexts(m[1..]);
    }
  }

  /**
   Scanning the printed module finds every decision of it, in order, in whatever key order and
   location form each entry was printed and whatever its strings hold.
   */
  lemma ScanReads(m: seq<IrLine>)
    requires AllIrClean(m)
    ensures ScanRecord(PrintIr(m)) == ReadDecisions(m, DefsOf(m, map[]))
  {
    assert Shows(map[], map[]);
    hide LocationAliases, ScanLines, Lines, Unlines, IrTexts, DefsOf, ReadDecisions, Shows;
    AliasesAre(m, map[], map[]);
    LinesAre(m, LocationAliases(IrTexts(m), map[]), DefsOf(m, map[]));
    LinesOfUnlines(IrTexts(m));
  }

  /**
   The round trip: scanning the printed module gives the decisions of it exactly when no string
   field holds a quote or a nonprintable character, and no quoted function name or file name of
   a decision does or holds a backslash.
   */
  lemma RoundTrip(m: seq<IrLine>)
    requires AllIrClean(m) && AllPlaced(m, DefsOf(m, map[]))
    ensures ScanRecord(PrintIr(m)) == AllDecisions(m) <==> AllLegible(m, DefsOf(m, map[]))
  {
    hide ScanRecord, PrintIr, ReadDecisions, AllDecisions, AllLegible, DefsOf;
    ScanReads(m);
    DecisionsExact(m, DefsOf(m, map[]));
  }
}
