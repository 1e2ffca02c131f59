/**
 The media query serializer of src/css_media.c (CSSOM, section 5.3), and which queries it can write so that
 they can be read again.
 */
module MediaText {
  import opened Common
  import opened Strings
  import opened MediaSyntax

  // ---------- the serializer ----------

  /** mq_serialize_value */
  function ValueText(host: Host, kind: Kind, v: Value): string {
    match v
    case Keyword(ident) => ident
    case Whole(num) => host.show(num)
    case Fraction(num, denom) => host.show(num) + " / " + host.show(denom)
    case Quantity(num, unit) => host.show(num) + unit
    case Calculated(num) => "calc(" + (host.show(num) + CalcUnit(kind)) + ")"
  }

  function CalcUnit(kind: Kind): string {
    if kind == Resolution then "dppx" else "px"
  }

  function BoundText(bound: Bound): string {
    match bound case Exactly => "" case AtLeast => "min-" case AtMost => "max-"
  }

  function TestText(host: Host, def: Def, test: Test): string {
    match test
    case Present => def.name
    case Plain(bound, v) => BoundText(bound) + def.name + ": " + ValueText(host, def.kind, v)
    case Compare(op, v) => def.name + " " + OpText(op) + " " + ValueText(host, def.kind, v)
    case Range(low, op1, op2, high) =>
      ValueText(host, def.kind, low) + " " + OpText(op1) + " " + def.name + " " + OpText(op2) + " " +
      ValueText(host, def.kind, high)
  }

  /** The enclosed text with its parentheses, which may be part of it. */
  function EnclosedText(text: string): string {
    if '(' in text then text else "(" + text + ")"
  }

  /** The serializer of feature tests, for the one of conditions, which knows no more of it than what it returns. */
  type TestPrinter = (Def, Test) -> string

  function Tests(host: Host): TestPrinter {
    (def: Def, test: Test) => TestText(host, def, test)
  }

  /** mq_serialize_node: a group with one member loses its parentheses at the top and keeps them elsewhere. */
  function NodeText(show: TestPrinter, n: Node, depth: nat): string
    decreases n, 0
  {
    if depth > MAX_DEPTH then ""
    else match n
      case Enclosed(text) => EnclosedText(text)
      case Feature(def, test) => "(" + show(def, test) + ")"
      case Not(kid) => "not " + NodeText(show, kid, depth + 1)
      case And(kids) => if |kids| == 1 && depth > 0 then "(" + NodeText(show, kids[0], depth + 1) + ")"
                        else KidsText(show, kids, " and ", depth)
      case Or(kids) => if |kids| == 1 && depth > 0 then "(" + NodeText(show, kids[0], depth + 1) + ")"
                       else KidsText(show, kids, " or ", depth)
  }

  function KidsText(show: TestPrinter, kids: seq<Node>, sep: string, depth: nat): string
    decreases kids, 1
  {
    if kids == [] then ""
    else NodeText(show, kids[0], depth + 1) + (if |kids| == 1 then "" else sep + KidsText(show, kids[1..], sep, depth))
  }

  /** mq_serialize_query */
  function QueryText(host: Host, q: Query): string {
    match q
    case Invalid => "not all"
    case Condition(cond) => NodeText(Tests(host), cond, 0)
    case Typed(mediaType, negated, only, tail) =>
      (if negated then "not " else if only then "only " else "") + Lower(mediaType) +
      (if tail.Some? then " and " + NodeText(Tests(host), tail.value, 1) else "")
  }

  type QueryPrinter = Query -> string

  function QueryTexts(host: Host): QueryPrinter {
    (q: Query) => QueryText(host, q)
  }

  /** The texts of the segments, joined; a comma at the end counts as one more segment. */
  function SegmentsText(parse: QueryParser, show: QueryPrinter, u: string): string
    decreases |u|
  {
    if u == "" then ""
    else
      var e := SegmentEnd(u, 0, 0);
      show(parse(u[..e])) + if e == |u| then "" else if e + 1 == |u| then ", not all"
                            else ", " + SegmentsText(parse, show, u[e + 1..])
  }

  /** ns_css_media_list_serialize */
  function ListText(host: Host, view: Viewport, query: string): string {
    SegmentsText(Queries(host, view), QueryTexts(host), SkipWs(query))
  }

  method SerializeList(host: Host, view: Viewport, query: string) returns (out: string)
    ensures out == ListText(host, view, query)
  {
    out := SerializeSegments(Queries(host, view), QueryTexts(host), SkipWs(query));
  }

  method SerializeSegments(parse: QueryParser, show: QueryPrinter, list: string) returns (out: string)
    ensures out == SegmentsText(parse, show, list)
  {
    var u := list;
    out := "";
    var sep := "";
    while u != ""
      invariant out + (if u == "" then "" else sep + SegmentsText(parse, show, u)) == SegmentsText(parse, show, list)
      decreases |u|
    {
      var e := SegmentEnd(u, 0, 0);
      var text := show(parse(u[..e]));
      NextSegment(parse, show, u, e, text, out, sep);
      out := out + sep + text;
      sep := ", ";
      if e + 1 == |u| {
        out := out + ", not all";
        return;
      }
      u := if e == |u| then "" else u[e + 1..];
    }
  }

  lemma NextSegment(parse: QueryParser, show: QueryPrinter, u: string, e: nat, text: string, out: string, sep: string)
    requires u != "" && e == SegmentEnd(u, 0, 0) && text == show(parse(u[..e]))
    ensures out + (sep + SegmentsText(parse, show, u)) ==
            if e == |u| then out + sep + text
            else if e + 1 == |u| then out + sep + text + ", not all"
            else out + sep + text + (", " + SegmentsText(parse, show, u[e + 1..]))
  {
    var rest := if e == |u| then "" else if e + 1 == |u| then ", not all" else ", " + SegmentsText(parse, show, u[e + 1..]);
    Regroup(out, sep, text, rest);
  }

  lemma Regroup(a: string, b: string, c: string, d: string)
    ensures a + (b + (c + d)) == a + b + c + d && a + b + c + "" == a + b + c
  {
  }

  // ---------- what can be read again ----------

  predicate IsNumberChar(c: char) {
    IsDigit(c) || c == '.' || c == '+' || c == '-' || c == 'e'
  }

  predicate IsUnit(kind: Kind, unit: string) {
    if kind == Resolution then unit in {"dppx", "x", "dpi", "dpcm"}
    else unit in {"px", "em", "rem", "ex", "ch", "cm", "mm", "q", "in", "pt", "pc", "vw", "vh", "vmin", "vmax"}
  }

  /** What the serializer writes behind a number: nothing, a space, or a unit with at most a parenthesis. */
  predicate Follows(rest: string) {
    rest == "" || rest[0] == ' ' || IsAnyUnit(rest) || (rest[|rest| - 1] == ')' && IsAnyUnit(rest[..|rest| - 1]))
  }

  predicate IsAnyUnit(unit: string) {
    IsUnit(Length, unit) || IsUnit(Resolution, unit)
  }

  /** The format %g prints this number exactly: reading the numeral gives the number back. */
  ghost predicate Exact(host: Host, num: real) {
    var t := host.show(num);
    && t != "" && (forall i :: 0 <= i < |t| ==> IsNumberChar(t[i])) && t[0] != 'e'
    && forall rest {:trigger host.read(t + rest)} :: Follows(rest) ==> host.read(t + rest) == (num, |t|)
  }

  /** The numeral of a whole number is digits and maybe a sign. */
  predicate IsWholeText(t: string) {
    t != "" && var digits := if t[0] == '+' || t[0] == '-' then t[1..] else t; digits != "" && AllDigits(digits)
  }

  /** Lower-case identifier text. */
  predicate IsIdentText(s: string) {
    s != "" && forall i :: 0 <= i < |s| ==> IsIdentChar(s[i]) && LowerChar(s[i]) == s[i]
  }

  /** A value as the parser makes it, all of whose numbers are exact. */
  ghost predicate LegalValue(host: Host, def: Def, v: Value) {
    match v
    case Keyword(ident) => def.kind == Discrete && ident in def.keywords && IsIdentText(ident) && |ident| < 24
    case Whole(num) =>
      def.kind == Integer && Exact(host, num) && IsWholeText(host.show(num)) &&
      (def.name == "grid" ==> num == 0.0 || num == 1.0)
    case Fraction(num, denom) => def.kind == Ratio && num >= 0.0 && denom >= 0.0 && Exact(host, num) && Exact(host, denom)
    case Quantity(num, unit) =>
      (def.kind == Length || def.kind == Resolution) && IsUnit(def.kind, unit) && Exact(host, num) &&
      (def.kind == Resolution ==> num >= 0.0)
    case Calculated(num) => (def.kind == Length || def.kind == Resolution) && Exact(host, num)
  }

  ghost predicate LegalDef(host: Host, def: Def) {
    Lookup(host, def.name) == Some(def) && IsIdentText(def.name) && |def.name| < 40
  }

  predicate CanCompare(def: Def) {
    def.kind != Discrete && def.name != "grid"
  }

  ghost predicate LegalTest(host: Host, def: Def, test: Test) {
    match test
    case Present => true
    case Plain(bound, v) =>
      LegalValue(host, def, v) && |BoundText(bound) + def.name| < 40 && (bound != Exactly ==> CanCompare(def)) &&
      (bound == Exactly ==> !StartsWith(def.name, "min-") && !StartsWith(def.name, "max-"))
    case Compare(_, v) => CanCompare(def) && LegalValue(host, def, v)
    case Range(low, op1, op2, high) =>
      CanCompare(def) && SameDirection(op1, op2) && LegalValue(host, def, low) && LegalValue(host, def, high)
  }

  /** Which feature tests can be read again, for the definition of the conditions that can. */
  type TestChecker = (Def, Test) -> bool

  ghost function LegalTests(host: Host): TestChecker {
    (def: Def, test: Test) => LegalDef(host, def) && LegalTest(host, def, test)
  }

  /** An operand: a feature, or a condition in parentheses, so deep at most that the parser follows. */
  ghost predicate LegalUnit(legal: TestChecker, n: Node, depth: nat)
    decreases n, 0
  {
    depth <= MAX_DEPTH &&
    match n
    case Feature(def, test) => legal(def, test)
    case And(kids) => |kids| == 1 && LegalCondition(legal, kids[0], true, depth + 1)
    case _ => false
  }

  ghost predicate LegalCondition(legal: TestChecker, n: Node, allowOr: bool, depth: nat)
    decreases n, 1
  {
    depth <= MAX_DEPTH &&
    (LegalUnit(legal, n, depth + 1) ||
     match n
     case Not(kid) => LegalUnit(legal, kid, depth + 1)
     case And(kids) => |kids| >= 2 && LegalUnits(legal, kids, depth + 1)
     case Or(kids) => allowOr && |kids| >= 2 && LegalUnits(legal, kids, depth + 1)
     case _ => false)
  }

  ghost predicate LegalUnits(legal: TestChecker, kids: seq<Node>, depth: nat)
    decreases kids
  {
    kids == [] || (LegalUnit(legal, kids[0], depth) && LegalUnits(legal, kids[1..], depth))
  }

  ghost predicate LegalQuery(host: Host, q: Query) {
    match q
    case Invalid => true
    case Condition(cond) => LegalCondition(LegalTests(host), cond, true, 0)
    case Typed(mediaType, negated, only, tail) =>
      IsIdentText(mediaType) && |mediaType| < 64 && !IsReserved(mediaType) && !(negated && only) &&
      (tail.Some? ==> LegalCondition(LegalTests(host), tail.value, false, 0))
  }
}
