/**
 Media queries as they are written: the signs, prefixes and words of the language (Media Queries Level 4, sections 2 to
 4), spelled out, and what a list of queries in this spelling says of a device.
 */
module MediaReading {
  import opened Common
  import opened Strings
  import opened Locks
  import opened MediaSyntax
  import opened MediaText
  import opened MediaScan
  import opened MediaValues
  import opened MediaFeatures
  import opened MediaConditions
  import opened MediaShape
  import opened MediaRoundTrip
  import opened MediaQueries
  import opened MediaLists
  import opened MediaEval
  import opened MediaMeaning

  // ---------- the spelling ----------

  function SpelledValue(host: Host, kind: Kind, v: Value): string {
    match v
    case Keyword(ident) => ident
    case Whole(num) => host.show(num)
    case Fraction(num, denom) => host.show(num) + " / " + host.show(denom)
    case Quantity(num, unit) => host.show(num) + unit
    case Calculated(num) => "calc(" + (host.show(num) + (if kind == Resolution then "dppx" else "px")) + ")"
  }

  function Sign(op: Op): string {
    match op case LT => "<" case LE => "<=" case GT => ">" case GE => ">=" case EQ => "="
  }

  /** The sign between a value and the name of a feature that stands behind it */
  function SignBefore(op: Op): string {
    match op case LT => ">" case LE => ">=" case GT => "<" case GE => "<=" case EQ => "="
  }

  /** A feature test; of a single comparison the value may stand before the name. */
  function SpelledTest(host: Host, before: bool, def: Def, test: Test): string {
    match test
    case Present => def.name
    case Plain(bound, v) =>
      (match bound case AtLeast => "min-" case AtMost => "max-" case Exactly => "") + def.name + ": " +
      SpelledValue(host, def.kind, v)
    case Compare(op, v) =>
      if before then SpelledValue(host, def.kind, v) + " " + SignBefore(op) + " " + def.name
      else def.name + " " + Sign(op) + " " + SpelledValue(host, def.kind, v)
    case Range(low, op1, op2, high) =>
      SpelledValue(host, def.kind, low) + " " + Sign(op1) + " " + def.name + " " + Sign(op2) + " " +
      SpelledValue(host, def.kind, high)
  }

  function SpelledTests(host: Host, before: bool): TestPrinter {
    (def: Def, test: Test) => SpelledTest(host, before, def, test)
  }

  /** A condition, with a pair of parentheses around every test and every inner condition */
  function Spelled(show: TestPrinter, n: Node): string
    decreases n, 0
  {
    match n
    case Enclosed(text) => EnclosedText(text)
    case Feature(def, test) => "(" + show(def, test) + ")"
    case Not(kid) => "not " + Spelled(show, kid)
    case And(kids) => if |kids| == 1 then "(" + Spelled(show, kids[0]) + ")" else SpelledAll(show, kids, " and ")
    case Or(kids) => if |kids| == 1 then "(" + Spelled(show, kids[0]) + ")" else SpelledAll(show, kids, " or ")
  }

  function SpelledAll(show: TestPrinter, kids: seq<Node>, between: string): string
    decreases kids, 1
  {
    if kids == [] then ""
    else if |kids| == 1 then Spelled(show, kids[0])
    else Spelled(show, kids[0]) + between + SpelledAll(show, kids[1..], between)
  }

  /** A condition, or a media type, maybe with `not` or `only` before it and a condition behind it */
  function SpelledQuery(show: TestPrinter, q: Query): string {
    match q
    case Invalid => ""
    case Condition(cond) => Spelled(show, cond)
    case Typed(mediaType, negated, only, tail) =>
      (if negated then "not " else if only then "only " else "") + mediaType +
      (if tail.Some? then " and " + Spelled(show, tail.value) else "")
  }

  function SpelledList(show: TestPrinter, qs: seq<Query>): string {
    if qs == [] then ""
    else if |qs| == 1 then SpelledQuery(show, qs[0])
    else SpelledQuery(show, qs[0]) + ", " + SpelledList(show, qs[1..])
  }

  // ---------- it is what the serializer writes, but for values that stand first ----------

  lemma ValueSpelled(host: Host, kind: Kind, v: Value)
    ensures SpelledValue(host, kind, v) == ValueText(host, kind, v)
  {
  }

  lemma SignsAre(op: Op)
    ensures Sign(op) == OpText(op) && SignBefore(op) == OpText(Flip(op)) && Flip(Flip(op)) == op
  {
  }

  lemma TestSpelled(host: Host, before: bool, def: Def, test: Test)
    requires before ==> !test.Compare?
    ensures SpelledTest(host, before, def, test) == TestText(host, def, test)
  {
    match test
    case Present =>
    case Plain(_, v) => ValueSpelled(host, def.kind, v);
    case Compare(op, v) =>
      ValueSpelled(host, def.kind, v);
      SignsAre(op);
    case Range(low, op1, op2, high) =>
      ValueSpelled(host, def.kind, low);
      ValueSpelled(host, def.kind, high);
      SignsAre(op1);
      SignsAre(op2);
  }

  lemma {:induction false} ConditionSpelled(show: TestPrinter, n: Node)
    ensures Spelled(show, n) == Text(show, n)
    decreases n, 0
  {
    match n
    case Enclosed(_) =>
    case Feature(_, _) =>
    case Not(kid) => ConditionSpelled(show, kid);
    case And(kids) => if |kids| == 1 { ConditionSpelled(show, kids[0]); } else { AllSpelled(show, kids, "and", " and "); }
    case Or(kids) => if |kids| == 1 { ConditionSpelled(show, kids[0]); } else { AllSpelled(show, kids, "or", " or "); }
  }

  lemma {:induction false} AllSpelled(show: TestPrinter, kids: seq<Node>, kw: string, between: string)
    requires between == " " + kw + " "
    ensures SpelledAll(show, kids, between) == Operands(show, kids, kw)
    decreases kids, 1
  {
    if kids != [] {
      ConditionSpelled(show, kids[0]);
      if |kids| > 1 {
        AllSpelled(show, kids[1..], kw, between);
        assert More(show, kids[1..], kw) == " " + kw + " " + Operands(show, kids[1..], kw);
        Assoc(Text(show, kids[0]), between, Operands(show, kids[1..], kw));
      } else {
        assert Text(show, kids[0]) + "" == Text(show, kids[0]);
      }
    }
  }

  // ---------- a value before the name ----------

  /** The names of the table begin with letters. */
  ghost predicate LetterNames(table: seq<Def>) {
    forall i :: 0 <= i < |table| ==> table[i].name != "" && 'a' <= table[i].name[0] <= 'z'
  }

  lemma FeaturesHaveLetters()
    ensures LetterNames(FEATURES)
  {
  }

  lemma {:induction false} FoundHasLetter(table: seq<Def>, name: string)
    requires LetterNames(table) && FindDef(table, name).Some?
    ensures name != "" && 'a' <= name[0] <= 'z'
    decreases table
  {
    assert table[0].name != "" && 'a' <= table[0].name[0] <= 'z';
    if table[0].name != name {
      assert forall i :: 0 <= i < |table| - 1 ==> table[1..][i] == table[i + 1];
      FoundHasLetter(table[1..], name);
    }
  }

  /** A value is not the name of a feature. */
  lemma ValueIsNoName(host: Host, def: Def, v: Value)
    requires LetterNames(host.table) && LegalValue(host, def, v) && CanCompare(def)
    ensures SideFeature(host, ValueText(host, def.kind, v) + " ").None?
  {
    var t := ValueText(host, def.kind, v);
    ValueShape(host, def, v);
    TightTrims(t);
    if v.Calculated? {
      CalcIsNoName(host, t);
    } else {
      ValueBegins(host, def, v);
      NumberIsNoName(host, t);
    }
  }

  lemma ValueBegins(host: Host, def: Def, v: Value)
    requires LegalValue(host, def, v) && CanCompare(def) && !v.Calculated?
    ensures var t := ValueText(host, def.kind, v); t != "" && IsNumberChar(t[0]) && t[0] != 'e'
  {
  }

  lemma NumberIsNoName(host: Host, t: string)
    requires LetterNames(host.table) && t != "" && IsNumberChar(t[0]) && t[0] != 'e' && Trim(t + " ") == t
    ensures SideFeature(host, t + " ").None?
  {
    var ident := ReadIdent(t, 40);
    if ident.Some? && Lookup(host, ident.value).Some? {
      FoundHasLetter(host.table, ident.value);
    }
  }

  lemma CalcIsNoName(host: Host, t: string)
    requires Trim(t + " ") == t && StartsWith(t, "calc(")
    ensures SideFeature(host, t + " ").None?
  {
    StartsWithAt(t, "calc(");
    assert t[4] == '(';
    assert IdentLen(t) <= 4;
  }

  lemma BeforeParts(host: Host, view: Viewport, def: Def, op: Op, v: Value, vt: string)
    requires LetterNames(host.table) && LegalDef(host, def) && LegalTest(host, def, Compare(op, v))
    requires vt == ValueText(host, def.kind, v)
    ensures ParseCompare(host, view, vt + " ", Flip(op), " " + def.name) == Some(Feature(def, Compare(op, v)))
  {
    NameFacts(host, def);
    ValueShape(host, def, v);
    TightTrims(def.name);
    TightTrims(vt);
    ValueIsNoName(host, def, v);
    SideReads(host, def, " " + def.name);
    ValueRoundTrip(host, def, view, v, vt + " ");
    SignsAre(op);
  }

  lemma BeforeReads(host: Host, view: Viewport, def: Def, op: Op, v: Value, t: string)
    requires LetterNames(host.table) && LegalDef(host, def) && LegalTest(host, def, Compare(op, v))
    requires t == ValueText(host, def.kind, v) + " " + OpText(Flip(op)) + " " + def.name
    ensures ParseFeature(host, view, t) == Some(Feature(def, Compare(op, v)))
  {
    var vt := ValueText(host, def.kind, v);
    NameFacts(host, def);
    ValueShape(host, def, v);
    CompareTextCut(vt, Flip(op), def.name, t);
    ByCompare(host, view, t, vt + " ", Flip(op), " " + def.name);
    BeforeParts(host, view, def, op, v, vt);
  }

  lemma BeforeText(host: Host, def: Def, op: Op, v: Value, t: string, rest: string)
    requires t == SpelledTest(host, true, def, Compare(op, v)) && rest == OpText(Flip(op)) + " " + def.name
    ensures t == ValueText(host, def.kind, v) + " " + OpText(Flip(op)) + " " + def.name
    ensures t == ValueText(host, def.kind, v) + (" " + rest) && rest != "" && IsOpChar(rest[0])
  {
    ValueSpelled(host, def.kind, v);
    SignsAre(op);
  }

  lemma BeforeClosed(host: Host, def: Def, op: Op, v: Value, t: string)
    requires LegalDef(host, def) && LegalTest(host, def, Compare(op, v))
    requires t == ValueText(host, def.kind, v) + " " + OpText(Flip(op)) + " " + def.name
    ensures Closed(t)
  {
    NameFacts(host, def);
    ValueShape(host, def, v);
    CompareClosed(ValueText(host, def.kind, v), Flip(op), def.name, t);
  }

  lemma BeforeSuits(host: Host, view: Viewport, def: Def, op: Op, v: Value)
    requires LetterNames(host.table) && LegalDef(host, def) && LegalTest(host, def, Compare(op, v))
    ensures TestSuits(Features(host, view), SpelledTest(host, true, def, Compare(op, v)), Feature(def, Compare(op, v)))
  {
    var t, rest := SpelledTest(host, true, def, Compare(op, v)), OpText(Flip(op)) + " " + def.name;
    BeforeText(host, def, op, v, t, rest);
    BeforeClosed(host, def, op, v, t);
    BeforeReads(host, view, def, op, v, t);
    forall p: nat ensures NotCondition(Features(host, view), t, true, p) {
      ValueNoCondition(host, Features(host, view), def, v, rest, p);
    }
  }

  // ---------- the rules of the spelling ----------

  ghost function Spelling(host: Host, view: Viewport, before: bool): TestRules {
    TestRules(LegalTests(host), SpelledTests(host, before), Features(host, view))
  }

  lemma SpellingSuits(host: Host, view: Viewport, before: bool)
    requires host.table == FEATURES
    ensures Suits(Spelling(host, view, before)) && Named(host.table)
  {
    NamedFeatures();
    FeaturesHaveLetters();
    forall def, test | LegalDef(host, def) && LegalTest(host, def, test)
      ensures TestSuits(Features(host, view), SpelledTest(host, before, def, test), Feature(def, test)) {
      if before && test.Compare? {
        BeforeSuits(host, view, def, test.op, test.v);
      } else {
        TestSpelled(host, before, def, test);
        TestsSuit(host, view, def, test);
      }
    }
  }

  lemma NamedFeatures()
    ensures Named(FEATURES)
  {
  }

  // ---------- what it says ----------

  /** A legal condition holds nothing that is only enclosed. */
  lemma {:induction false} UnitIsClean(legal: TestChecker, n: Node, p: nat)
    requires LegalUnit(legal, n, p)
    ensures Clean(AnyTest(), n)
    decreases n, 0
  {
    if n.And? {
      ConditionIsClean(legal, n.kids[0], true, p + 1);
      assert n.kids[1..] == [];
    }
  }

  lemma {:induction false} ConditionIsClean(legal: TestChecker, n: Node, allowOr: bool, p: nat)
    requires LegalCondition(legal, n, allowOr, p)
    ensures Clean(AnyTest(), n)
    decreases n, 1
  {
    if LegalUnit(legal, n, p + 1) {
      UnitIsClean(legal, n, p + 1);
    } else {
      match n
      case Not(kid) => UnitIsClean(legal, kid, p + 1);
      case And(kids) => UnitsAreClean(legal, kids, p + 1);
      case Or(kids) => UnitsAreClean(legal, kids, p + 1);
    }
  }

  lemma {:induction false} UnitsAreClean(legal: TestChecker, kids: seq<Node>, p: nat)
    requires LegalUnits(legal, kids, p)
    ensures AllClean(AnyTest(), kids)
    decreases kids
  {
    if kids != [] {
      UnitIsClean(legal, kids[0], p);
      UnitsAreClean(legal, kids[1..], p);
    }
  }

  /** A query that can be spelled: what the parser may have read, with exact numbers */
  ghost predicate CanSpell(host: Host, q: Query) {
    !q.Invalid? && LegalQuery(host, q)
  }

  lemma SpelledReads(host: Host, view: Viewport, before: bool, q: Query)
    requires host.table == FEATURES && CanSpell(host, q)
    ensures var t := SpelledQuery(SpelledTests(host, before), q);
            ParseTrimmed(Features(host, view), t) == q && IsTight(t) && Closed(t)
  {
    var via := Spelling(host, view, before);
    SpellingSuits(host, view, before);
    match q
    case Condition(cond) =>
      ConditionSpelled(via.show, cond);
      WholeConditionReads(via, cond, Spelled(via.show, cond));
      ConditionShape(via, cond, true, 0);
    case Typed(_, _, _, _) => TypedSpelled(via, q);
  }

  lemma TypedSpelled(via: TestRules, q: Query)
    requires Suits(via) && q.Typed? && LegalType(q) && LegalTail(via.legal, q.tail)
    ensures var t := SpelledQuery(via.show, q); ParseTrimmed(via.feature, t) == q && IsTight(t) && Closed(t)
  {
    TypedIsText(via, q);
    TypedReads(via, q, TypedText(via.show, q));
    TypedShape(via, q);
  }

  lemma TypedIsText(via: TestRules, q: Query)
    requires q.Typed? && LegalType(q) && LegalTail(via.legal, q.tail)
    ensures SpelledQuery(via.show, q) == TypedText(via.show, q)
  {
    assert Lower(q.mediaType) == q.mediaType;
    if q.tail.Some? {
      ConditionSpelled(via.show, q.tail.value);
      ConditionText(via, q.tail.value, false, 0, 1);
    }
  }

  lemma SpelledSays(host: Host, d: Device, before: bool, q: Query)
    requires host.table == FEATURES && IsDevice(d) && CanSpell(host, q)
    ensures var t := SpelledQuery(SpelledTests(host, before), q);
            Queries(host, d.view)(t) == q && Queries(host, d.view)(" " + t) == q && EvalQuery(d, q) == Truth(SaysQuery(d, q))
  {
    var t := SpelledQuery(SpelledTests(host, before), q);
    SpelledReads(host, d.view, before, q);
    PaddedReads(host, d.view, t, q);
    if q.Condition? { ConditionIsClean(LegalTests(host), q.cond, true, 0); }
    if q.Typed? && q.tail.Some? { ConditionIsClean(LegalTests(host), q.tail.value, false, 0); }
    QueryMeans(host, d, t);
  }

  // ---------- lists ----------

  /** A text that is read as a query, behind a space or not, and holds no comma that would end it */
  ghost predicate ReadsOne(parse: QueryParser, t: string, q: Query) {
    forall key {:trigger Open(key)} :: Key(key) ==> IsTight(t) && Closed(t) && parse(t) == q && parse(" " + t) == q
  }

  lemma LastRead(parse: QueryParser, pad: string, t: string, q: Query)
    requires IsPad(pad) && ReadsOne(parse, t, q)
    ensures ParseList(parse, pad + t) == [q]
  {
    assert Open(true);
    var u := pad + t;
    PadClosed(pad, t);
    SegmentsApart(u, "");
    NothingBehind(t);
    assert u[..|u|] == u;
  }

  lemma FirstRead(parse: QueryParser, pad: string, t: string, q: Query, rest: string, u: string)
    requires IsPad(pad) && ReadsOne(parse, t, q) && u == pad + (t + (", " + rest))
    ensures ParseList(parse, u) == [q] + ParseList(parse, " " + rest)
  {
    assert Open(true);
    PadClosed(pad, t);
    SegmentsApart(pad + t, " " + rest);
    CommaText(pad, t, rest, u);
    NothingBehind(t);
  }

  lemma {:induction false} ListRead(parse: QueryParser, show: TestPrinter, pad: string, qs: seq<Query>)
    requires IsPad(pad) && qs != [] && forall q :: q in qs ==> ReadsOne(parse, SpelledQuery(show, q), q)
    ensures ParseList(parse, pad + SpelledList(show, qs)) == qs
    decreases |qs|
  {
    var t := SpelledQuery(show, qs[0]);
    if |qs| == 1 {
      LastRead(parse, pad, t, qs[0]);
    } else {
      var rest := SpelledList(show, qs[1..]);
      assert forall q :: q in qs[1..] ==> q in qs;
      ListRead(parse, show, " ", qs[1..]);
      Assoc(t, ", ", rest);
      FirstRead(parse, pad, t, qs[0], rest, pad + (t + (", " + rest)));
    }
  }

  lemma SpelledOne(host: Host, d: Device, before: bool, q: Query)
    requires host.table == FEATURES && IsDevice(d) && CanSpell(host, q)
    ensures ReadsOne(Queries(host, d.view), SpelledQuery(SpelledTests(host, before), q), q)
    ensures EvalQuery(d, q) == Truth(SaysQuery(d, q))
  {
    SpelledReads(host, d.view, before, q);
    SpelledSays(host, d, before, q);
  }

  lemma ListBegins(show: TestPrinter, qs: seq<Query>)
    requires qs != [] && IsTight(SpelledQuery(show, qs[0]))
    ensures var t := SpelledList(show, qs); t != "" && SkipWs(t) == t
  {
    WsOf(SpelledList(show, qs));
  }

  /** A list of queries, spelled out with commas between them, matches a device exactly if one of them says what is so:
      of a feature test, that the amounts compare as the sign or the prefix tells, or that the device shows the keyword;
      of a condition, what its words make of its parts; of a query, that its media type is met, or that it is not. */
  lemma SpelledListMeans(host: Host, d: Device, before: bool, qs: seq<Query>)
    requires host.table == FEATURES && IsDevice(d) && qs != [] && forall q :: q in qs ==> CanSpell(host, q)
    ensures Matches(host, d, SpelledList(SpelledTests(host, before), qs)) <==> exists q :: q in qs && SaysQuery(d, q)
  {
    var parse, show := Queries(host, d.view), SpelledTests(host, before);
    forall q | q in qs
      ensures ReadsOne(parse, SpelledQuery(show, q), q) && EvalQuery(d, q) == Truth(SaysQuery(d, q)) {
      SpelledOne(host, d, before, q);
    }
    SpelledReads(host, d.view, before, qs[0]);
    ListBegins(show, qs);
    var u := SpelledList(show, qs);
    assert "" + u == u;
    ListRead(parse, show, "", qs);
  }

  /** One feature test in parentheses */
  lemma TestSays(host: Host, d: Device, before: bool, def: Def, test: Test)
    requires host.table == FEATURES && IsDevice(d) && LegalDef(host, def) && LegalTest(host, def, test)
    ensures Matches(host, d, "(" + SpelledTest(host, before, def, test) + ")") <==> Holds(d, def, test)
  {
    var n := Feature(def, test);
    var q := Condition(n);
    assert LegalUnit(LegalTests(host), n, 1);
    SpelledListMeans(host, d, before, [q]);
    assert SpelledList(SpelledTests(host, before), [q]) == "(" + SpelledTest(host, before, def, test) + ")";
    assert SaysQuery(d, q) <==> Holds(d, def, test);
  }

  lemma WidthIs(host: Host)
    requires host.table == FEATURES
    ensures Lookup(host, "width") == Some(Def("width", Length, [])) && LegalDef(host, Def("width", Length, []))
  {
  }

  lemma WidthText(host: Host, bound: Bound, n: real, front: string)
    requires bound != Exactly && front == if bound == AtLeast then "(min-width: " else "(max-width: "
    ensures "(" + SpelledTest(host, false, Def("width", Length, []), Plain(bound, Quantity(n, "px"))) + ")" ==
            front + host.show(n) + "px)"
  {
    assert "min-" + "width" + ": " == "min-width: " && "max-" + "width" + ": " == "max-width: ";
  }

  lemma WidthLegal(host: Host, bound: Bound, n: real)
    requires host.table == FEATURES && Exact(host, n) && bound != Exactly
    ensures LegalTest(host, Def("width", Length, []), Plain(bound, Quantity(n, "px")))
  {
  }

  lemma WidthHolds(d: Device, bound: Bound, n: real)
    requires IsDevice(d) && bound != Exactly
    ensures Holds(d, Def("width", Length, []), Plain(bound, Quantity(n, "px"))) <==>
            if bound == AtLeast then d.view.w >= n else d.view.w <= n
  {
  }

  lemma WidthSays(host: Host, d: Device, bound: Bound, n: real, def: Def, test: Test)
    requires host.table == FEATURES && IsDevice(d) && Exact(host, n) && bound != Exactly
    requires def == Def("width", Length, []) && test == Plain(bound, Quantity(n, "px"))
    ensures Matches(host, d, "(" + SpelledTest(host, false, def, test) + ")") <==>
            if bound == AtLeast then d.view.w >= n else d.view.w <= n
  {
    WidthIs(host);
    WidthLegal(host, bound, n);
    WidthHolds(d, bound, n);
    TestSays(host, d, false, def, test);
  }

  /** For instance, `(min-width: 600px)` matches exactly where the viewport is at least 600 pixels wide. */
  lemma MinAndMaxWidth(host: Host, d: Device, n: real)
    requires host.table == FEATURES && IsDevice(d) && Exact(host, n)
    ensures Matches(host, d, "(min-width: " + host.show(n) + "px)") <==> d.view.w >= n
    ensures Matches(host, d, "(max-width: " + host.show(n) + "px)") <==> d.view.w <= n
  {
    var width := Def("width", Length, []);
    WidthSays(host, d, AtLeast, n, width, Plain(AtLeast, Quantity(n, "px")));
    WidthSays(host, d, AtMost, n, width, Plain(AtMost, Quantity(n, "px")));
    WidthText(host, AtLeast, n, "(min-width: ");
    WidthText(host, AtMost, n, "(max-width: ");
  }
}
