/**
 What the media query parser makes of a text, if it contains nothing that is only enclosed and all numbers
 are exact, can be written so that it is read again.
 */
module MediaShape {
  import opened Common
  import opened MediaSyntax
  import opened MediaText
  import MediaScan

  // ---------- values and feature tests ----------

  /** The numbers of the value are printed exactly, a whole number without a point or an exponent. */
  ghost predicate ExactValue(host: Host, v: Value) {
    match v
    case Keyword(_) => true
    case Whole(num) => Exact(host, num) && IsWholeText(host.show(num))
    case Fraction(num, denom) => Exact(host, num) && Exact(host, denom)
    case Quantity(num, _) => Exact(host, num)
    case Calculated(num) => Exact(host, num)
  }

  ghost predicate ExactTest(host: Host, test: Test) {
    match test
    case Present => true
    case Plain(_, v) => ExactValue(host, v)
    case Compare(_, v) => ExactValue(host, v)
    case Range(low, _, _, high) => ExactValue(host, low) && ExactValue(host, high)
  }

  ghost function ExactTests(host: Host): TestChecker {
    (def: Def, test: Test) => ExactTest(host, test)
  }

  lemma ValueParsed(host: Host, def: Def, view: Viewport, text: string)
    requires ParseValue(host, def, view, text).Some? && ExactValue(host, ParseValue(host, def, view, text).value)
    ensures LegalValue(host, def, ParseValue(host, def, view, text).value)
  {
    var s := Trim(text);
    match def.kind
    case Discrete => MediaScan.ReadIsIdentText(s, 24);
    case Length => QuantityParsed(host, def.kind, view, s);
    case Resolution => QuantityParsed(host, def.kind, view, s);
    case _ =>
  }

  lemma QuantityParsed(host: Host, kind: Kind, view: Viewport, s: string)
    requires ParseQuantity(host, kind, view, s).Some?
    ensures match ParseQuantity(host, kind, view, s).value
            case Quantity(num, unit) => IsUnit(kind, unit) && (kind == Resolution ==> num >= 0.0)
            case Calculated(_) => true
            case _ => false
  {
  }

  /** Every feature has a name, and it is not the word `not`. */
  ghost predicate Named(table: seq<Def>) {
    forall i :: 0 <= i < |table| ==> table[i].name != "" && table[i].name != "not"
  }

  lemma {:induction false} FindsNamed(table: seq<Def>, name: string)
    requires Named(table) && FindDef(table, name).Some?
    ensures name != "" && name != "not"
    decreases table
  {
    assert table[0].name != "" && table[0].name != "not";
    if table[0].name != name {
      assert forall i :: 0 <= i < |table| - 1 ==> table[1..][i] == table[i + 1];
      FindsNamed(table[1..], name);
    }
  }

  lemma DefParsed(host: Host, name: string)
    requires Named(host.table) && IsIdentText(name) && |name| < 40 && Lookup(host, name).Some?
    ensures LegalDef(host, Lookup(host, name).value)
  {
  }

  lemma SideParsed(host: Host, text: string)
    requires Named(host.table) && SideFeature(host, text).Some?
    ensures LegalDef(host, SideFeature(host, text).value) && CanCompare(SideFeature(host, text).value)
  {
    MediaScan.ReadIsIdentText(Trim(text), 40);
  }

  ghost predicate Readable(host: Host, n: Node) {
    n.Feature? && (ExactTest(host, n.test) ==> LegalDef(host, n.def) && LegalTest(host, n.def, n.test))
  }

  lemma BoundedParsed(host: Host, view: Viewport, name: string, text: string)
    requires Named(host.table) && IsIdentText(name) && |name| < 40 && ParseBounded(host, view, name, text).Some?
    ensures Readable(host, ParseBounded(host, view, name, text).value)
  {
    var n := ParseBounded(host, view, name, text).value;
    if ExactTest(host, n.test) {
      ValueParsed(host, n.def, view, text);
      if n.test.bound == Exactly {
        DefParsed(host, name);
      } else {
        FindsNamed(host.table, name[4..]);
        assert IsIdentText(name[4..]);
        DefParsed(host, name[4..]);
        assert BoundText(n.test.bound) + n.def.name == name;
      }
    }
  }

  lemma CompareParsed(host: Host, view: Viewport, left: string, op: Op, right: string)
    requires Named(host.table) && ParseCompare(host, view, left, op, right).Some?
    ensures Readable(host, ParseCompare(host, view, left, op, right).value)
  {
    var n := ParseCompare(host, view, left, op, right).value;
    if SideFeature(host, left).Some? {
      SideParsed(host, left);
      if ExactTest(host, n.test) { ValueParsed(host, n.def, view, right); }
    } else {
      SideParsed(host, right);
      if ExactTest(host, n.test) { ValueParsed(host, n.def, view, left); }
    }
  }

  lemma RangeParsed(host: Host, view: Viewport, left: string, op1: Op, mid: string, op2: Op, right: string)
    requires Named(host.table) && ParseRange(host, view, left, op1, mid, op2, right).Some?
    ensures Readable(host, ParseRange(host, view, left, op1, mid, op2, right).value)
  {
    var n := ParseRange(host, view, left, op1, mid, op2, right).value;
    SideParsed(host, mid);
    if ExactTest(host, n.test) {
      ValueParsed(host, n.def, view, left);
      ValueParsed(host, n.def, view, right);
    }
  }

  lemma PlainParsed(host: Host, view: Viewport, s: string, colon: nat)
    requires Named(host.table) && colon < |s| && ParsePlain(host, view, s, colon).Some?
    ensures Readable(host, ParsePlain(host, view, s, colon).value)
  {
    MediaScan.ReadIsIdentText(s[..colon], 40);
    BoundedParsed(host, view, ReadIdent(s[..colon], 40).value, s[colon + 1..]);
  }

  lemma ComparisonsParsed(host: Host, view: Viewport, left: string, op1: Op, after1: string)
    requires Named(host.table) && ParseComparisons(host, view, left, op1, after1).Some?
    ensures Readable(host, ParseComparisons(host, view, left, op1, after1).value)
  {
    var p2 := OpAt(after1, 0);
    if p2 < |after1| {
      RangeParsed(host, view, left, op1, after1[..p2], ReadOp(after1[p2..]), AfterOp(after1[p2..]));
    } else {
      CompareParsed(host, view, left, op1, after1);
    }
  }

  lemma TestParsed(host: Host, view: Viewport, text: string)
    requires Named(host.table) && ParseFeature(host, view, text).Some?
    ensures Readable(host, ParseFeature(host, view, text).value)
  {
    var s := Trim(text);
    var colon, p1 := ColonAt(s, 0), OpAt(s, 0);
    if colon < |s| {
      PlainParsed(host, view, s, colon);
    } else if p1 < |s| {
      ComparisonsParsed(host, view, s[..p1], ReadOp(s[p1..]), AfterOp(s[p1..]));
    } else {
      MediaScan.ReadIsIdentText(s, 40);
      DefParsed(host, ReadIdent(s, 40).value);
    }
  }

  // ---------- conditions ----------

  /** Nothing is only enclosed, and every feature test passes `check`. */
  ghost predicate Clean(check: TestChecker, n: Node)
    decreases n, 0
  {
    match n
    case Enclosed(_) => false
    case Feature(def, test) => check(def, test)
    case Not(kid) => Clean(check, kid)
    case And(kids) => AllClean(check, kids)
    case Or(kids) => AllClean(check, kids)
  }

  ghost predicate AllClean(check: TestChecker, kids: seq<Node>)
    decreases kids, 1
  {
    kids == [] || (Clean(check, kids[0]) && AllClean(check, kids[1..]))
  }

  ghost predicate Grants(check: TestChecker, legal: TestChecker, n: Node) {
    n.Feature? && (check(n.def, n.test) ==> legal(n.def, n.test))
  }

  /** What the feature parser returns is a feature test, and legal if it passes `check`. */
  ghost predicate Yields(feature: FeatureParser, check: TestChecker, legal: TestChecker) {
    forall s {:trigger feature(s)} :: feature(s).Some? ==> Grants(check, legal, feature(s).value)
  }

  lemma {:induction false} UnitParsed(feature: FeatureParser, check: TestChecker, legal: TestChecker, u: string, p: nat)
    requires Yields(feature, check, legal) && ParseInParens(feature, u, p).Some?
    requires Clean(check, ParseInParens(feature, u, p).value.node)
    ensures LegalUnit(legal, ParseInParens(feature, u, p).value.node, p)
    decreases MAX_DEPTH + 1 - p, |u| + 1
  {
    var at := WsLen(u);
    if at < |u| && u[at] == '(' {
      var close := at + 1 + CloseParen(u[at + 1..], 1);
      var inner, end := u[at + 1..close], PastClose(u, close);
      assert ParseInParens(feature, u, p) == ParseGroup(feature, inner, end, p);
      GroupParsed(feature, check, legal, inner, end, p, ParseGroup(feature, inner, end, p));
    }
  }

  lemma {:induction false} GroupParsed(feature: FeatureParser, check: TestChecker, legal: TestChecker, inner: string, end: nat, p: nat,
                                       r: Option<Parsed>)
    requires p <= MAX_DEPTH && end > 0 && Yields(feature, check, legal) && r == ParseGroup(feature, inner, end, p) && r.Some?
    requires Clean(check, r.value.node)
    ensures LegalUnit(legal, r.value.node, p)
    decreases MAX_DEPTH + 1 - p, |inner|
  {
    var cond := ParseCondition(feature, inner, true, p + 1);
    if cond.Some? && SkipWs(inner[cond.value.read..]) == "" {
      assert Clean(check, cond.value.node);
      ConditionParsed(feature, check, legal, inner, true, p + 1);
    }
  }

  lemma {:induction false} ConditionParsed(feature: FeatureParser, check: TestChecker, legal: TestChecker, u: string, allowOr: bool, p: nat)
    requires Yields(feature, check, legal) && ParseCondition(feature, u, allowOr, p).Some?
    requires Clean(check, ParseCondition(feature, u, allowOr, p).value.node)
    ensures LegalCondition(legal, ParseCondition(feature, u, allowOr, p).value.node, allowOr, p)
    decreases MAX_DEPTH + 1 - p, 1
  {
    var s := WsLen(u);
    if KeywordAt(u[s..], "not") {
      NotParsed(feature, check, legal, u, s + 3, allowOr, p);
    } else {
      FirstParsed(feature, check, legal, u, s, allowOr, p);
    }
  }

  lemma {:induction false} NotParsed(feature: FeatureParser, check: TestChecker, legal: TestChecker, u: string, at: nat, allowOr: bool, p: nat)
    requires at <= |u| && p <= MAX_DEPTH && Yields(feature, check, legal) && ParseNot(feature, u, at, p).Some?
    requires Clean(check, ParseNot(feature, u, at, p).value.node)
    ensures LegalCondition(legal, ParseNot(feature, u, at, p).value.node, allowOr, p)
    decreases MAX_DEPTH + 1 - p, 0, |u| + 1
  {
    UnitParsed(feature, check, legal, u[at..], p + 1);
  }

  lemma {:induction false} FirstParsed(feature: FeatureParser, check: TestChecker, legal: TestChecker, u: string, at: nat, allowOr: bool, p: nat)
    requires at <= |u| && p <= MAX_DEPTH && Yields(feature, check, legal) && ParseFirst(feature, u, at, allowOr, p).Some?
    requires Clean(check, ParseFirst(feature, u, at, allowOr, p).value.node)
    ensures LegalCondition(legal, ParseFirst(feature, u, at, allowOr, p).value.node, allowOr, p)
    decreases MAX_DEPTH + 1 - p, 0, |u| + 2
  {
    var first := ParseInParens(feature, u[at..], p + 1).value;
    var r := ParseRest(feature, u, first.node, at + first.read, allowOr, p);
    RestClean(feature, check, u, first.node, at + first.read, allowOr, p, r);
    UnitParsed(feature, check, legal, u[at..], p + 1);
    RestParsed(feature, check, legal, u, first.node, at + first.read, allowOr, p, r);
  }

  lemma RestClean(feature: FeatureParser, check: TestChecker, u: string, first: Node, at: nat, allowOr: bool, p: nat,
                  r: Option<Parsed>)
    requires 0 < at <= |u| && p <= MAX_DEPTH && r == ParseRest(feature, u, first, at, allowOr, p)
    requires r.Some? && Clean(check, r.value.node)
    ensures Clean(check, first)
  {
    if r.value.node != first { assert r.value.node.kids[0] == first; }
  }

  lemma {:induction false} RestParsed(feature: FeatureParser, check: TestChecker, legal: TestChecker, u: string, first: Node,
                                      at: nat, allowOr: bool, p: nat, r: Option<Parsed>)
    requires 0 < at <= |u| && p <= MAX_DEPTH && Yields(feature, check, legal) && LegalUnit(legal, first, p + 1)
    requires r == ParseRest(feature, u, first, at, allowOr, p) && r.Some? && Clean(check, r.value.node)
    ensures LegalCondition(legal, r.value.node, allowOr, p)
    decreases MAX_DEPTH + 1 - p, 0, |u| + 1
  {
    var rest := SkipWs(u[at..]);
    var useAnd := KeywordAt(rest, "and");
    if useAnd || (allowOr && KeywordAt(rest, "or")) {
      var kw := if useAnd then "and" else "or";
      var more := ParseMore(feature, u, at, kw, p);
      assert u[at + WsLen(u[at..])..] == rest;
      assert ([first] + more.value.0)[1..] == more.value.0;
      MoreParsed(feature, check, legal, u, at, kw, p, more);
      var q := MoreIsNext(feature, u, at, kw, p, more);
      var next, others := NextIsCons(feature, u, q, kw, p, more);
    }
  }

  lemma {:induction false} MoreParsed(feature: FeatureParser, check: TestChecker, legal: TestChecker, u: string, at: nat,
                                      kw: string, p: nat, r: Option<(seq<Node>, nat)>)
    requires at <= |u| && p <= MAX_DEPTH && Yields(feature, check, legal) && kw != ""
    requires r == ParseMore(feature, u, at, kw, p) && r.Some? && AllClean(check, r.value.0)
    ensures LegalUnits(legal, r.value.0, p + 1)
    decreases MAX_DEPTH + 1 - p, 0, |u| - at, 1
  {
    var q := MoreIsNext(feature, u, at, kw, p, r);
    if q > at { NextParsed(feature, check, legal, u, q, kw, p, r); }
  }

  /** Where the next operand begins, if the keyword stands here; otherwise there are no more operands. */

  lemma MoreIsNext(feature: FeatureParser, u: string, at: nat, kw: string, p: nat, r: Option<(seq<Node>, nat)>)
    returns (q: nat)
    requires at <= |u| && p <= MAX_DEPTH && kw != "" && r == ParseMore(feature, u, at, kw, p)
    ensures q == if KeywordAt(u[at + WsLen(u[at..])..], kw) then at + WsLen(u[at..]) + |kw| else at
    ensures q > at ==> q <= |u| && r == ParseNext(feature, u, q, kw, p)
    ensures q <= at ==> r == Some(([], at))
  {
    q := at + WsLen(u[at..]);
    q := if KeywordAt(u[q..], kw) then q + |kw| else at;
  }

  lemma {:induction false} NextParsed(feature: FeatureParser, check: TestChecker, legal: TestChecker, u: string, at: nat,
                                      kw: string, p: nat, r: Option<(seq<Node>, nat)>)
    requires at <= |u| && p <= MAX_DEPTH && Yields(feature, check, legal) && kw != ""
    requires r == ParseNext(feature, u, at, kw, p) && r.Some? && AllClean(check, r.value.0)
    ensures LegalUnits(legal, r.value.0, p + 1) && r.value.0 != []
    decreases MAX_DEPTH + 1 - p, 0, |u| - at, 0
  {
    var next, more := NextIsCons(feature, u, at, kw, p, r);
    UnitParsed(feature, check, legal, u[at..], p + 1);
    MoreParsed(feature, check, legal, u, at + next.read, kw, p, more);
  }

  lemma NextIsCons(feature: FeatureParser, u: string, at: nat, kw: string, p: nat, r: Option<(seq<Node>, nat)>)
    returns (next: Parsed, more: Option<(seq<Node>, nat)>)
    requires at <= |u| && p <= MAX_DEPTH && r == ParseNext(feature, u, at, kw, p) && r.Some?
    ensures ParseInParens(feature, u[at..], p + 1) == Some(next) && 0 < next.read && at + next.read <= |u|
    ensures more == ParseMore(feature, u, at + next.read, kw, p) && more.Some?
    ensures r.value.0 != [] && r.value.0[0] == next.node && r.value.0[1..] == more.value.0
  {
    next := ParseInParens(feature, u[at..], p + 1).value;
    more := ParseMore(feature, u, at + next.read, kw, p);
    PrependParts(next.node, more, r);
  }

  lemma PrependParts(node: Node, more: Option<(seq<Node>, nat)>, r: Option<(seq<Node>, nat)>)
    requires r == Prepend(node, more) && r.Some?
    ensures more.Some? && r.value.0 != [] && r.value.0[0] == node && r.value.0[1..] == more.value.0
  {
  }
}
