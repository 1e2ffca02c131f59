/**
 Conditions survive being written and read again, whatever the feature tests in them are: it is enough that
 each test does, and that its text is not mistaken for a condition.
 */
module MediaConditions {
  import opened Common
  import opened Locks
  import opened MediaSyntax
  import opened MediaText
  import opened MediaScan
  import opened MediaFeatures

  /** Which feature tests are legal, how they are written, and how they are read. */
  datatype TestRules = TestRules(legal: TestChecker, show: TestPrinter, feature: FeatureParser)

  /** Every legal test is read again, and its text is not a condition. */
  ghost predicate Suits(via: TestRules) {
    forall key {:trigger Open(key)} :: Key(key) ==> forall def, test {:trigger via.legal(def, test)} ::
      via.legal(def, test) ==> TestSuits(via.feature, via.show(def, test), Feature(def, test))
  }

  ghost predicate TestSuits(feature: FeatureParser, text: string, test: Node) {
    Closed(text) && feature(text) == Some(test) &&
    forall key {:trigger Open(key)} :: Key(key) ==> forall p: nat {:trigger NotCondition(feature, text, true, p)} ::
      NotCondition(feature, text, true, p)
  }

  lemma SuitsTest(via: TestRules, def: Def, test: Test)
    requires Suits(via) && via.legal(def, test)
    ensures TestSuits(via.feature, via.show(def, test), Feature(def, test))
  {
    assert Open(true);
  }

  // ---------- texts without the depth limit ----------

  function Text(show: TestPrinter, n: Node): string
    decreases n, 0
  {
    match n
    case Enclosed(text) => EnclosedText(text)
    case Feature(def, test) => "(" + show(def, test) + ")"
    case Not(kid) => "not " + Text(show, kid)
    case And(kids) => if |kids| == 1 then "(" + Text(show, kids[0]) + ")" else Operands(show, kids, "and")
    case Or(kids) => if |kids| == 1 then "(" + Text(show, kids[0]) + ")" else Operands(show, kids, "or")
  }

  function Operands(show: TestPrinter, kids: seq<Node>, kw: string): string
    decreases kids, 1
  {
    if kids == [] then "" else Text(show, kids[0]) + More(show, kids[1..], kw)
  }

  function More(show: TestPrinter, kids: seq<Node>, kw: string): string
    decreases kids, 2
  {
    if kids == [] then "" else " " + kw + " " + (Text(show, kids[0]) + More(show, kids[1..], kw))
  }

  /** A legal operand is written without being cut off: operands are parsed at odd depths, so they never reach
      the limit, and the serializer is at most one level deeper than the parser. */
  lemma {:induction false} OperandText(via: TestRules, n: Node, p: nat, d: nat)
    requires LegalUnit(via.legal, n, p) && p % 2 == 1 && 1 <= d <= p + 1
    ensures NodeText(via.show, n, d) == Text(via.show, n)
    decreases n, 0
  {
    if n.And? { ConditionText(via, n.kids[0], true, p + 1, d + 1); }
  }

  lemma {:induction false} ConditionText(via: TestRules, n: Node, allowOr: bool, p: nat, d: nat)
    requires LegalCondition(via.legal, n, allowOr, p) && p % 2 == 0 && 1 <= d <= p + 1
    ensures NodeText(via.show, n, d) == Text(via.show, n)
    decreases n, 1
  {
    if LegalUnit(via.legal, n, p + 1) {
      OperandText(via, n, p + 1, d);
    } else {
      match n
      case Not(kid) => OperandText(via, kid, p + 1, d + 1);
      case And(kids) =>
        assert LegalUnit(via.legal, kids[0], p + 1);
        OperandsText(via, kids, "and", " and ", p + 1, d);
      case Or(kids) =>
        assert LegalUnit(via.legal, kids[0], p + 1);
        OperandsText(via, kids, "or", " or ", p + 1, d);
    }
  }

  lemma {:induction false} OperandsText(via: TestRules, kids: seq<Node>, kw: string, sep: string, p: nat, d: nat)
    requires kids != [] && LegalUnits(via.legal, kids, p) && p % 2 == 1 && d <= p && sep == " " + kw + " "
    ensures KidsText(via.show, kids, sep, d) == Operands(via.show, kids, kw)
    decreases kids, 2
  {
    OperandText(via, kids[0], p, d + 1);
    if |kids| > 1 { OperandsText(via, kids[1..], kw, sep, p, d); }
  }

  // ---------- their shape ----------

  lemma Group(t: string)
    requires Closed(t)
    ensures Closed("(" + t + ")") && IsTight("(" + t + ")")
  {
    ClosedGroup(t);
  }

  lemma {:induction false} UnitShape(via: TestRules, n: Node, p: nat)
    requires Suits(via) && LegalUnit(via.legal, n, p)
    ensures Closed(Text(via.show, n)) && IsTight(Text(via.show, n)) && Text(via.show, n)[0] == '('
    decreases n, 0
  {
    match n
    case Feature(def, test) =>
      SuitsTest(via, def, test);
      Group(via.show(def, test));
    case And(kids) =>
      ConditionShape(via, kids[0], true, p + 1);
      Group(Text(via.show, kids[0]));
  }

  lemma {:induction false} ConditionShape(via: TestRules, n: Node, allowOr: bool, p: nat)
    requires Suits(via) && LegalCondition(via.legal, n, allowOr, p)
    ensures Closed(Text(via.show, n)) && IsTight(Text(via.show, n))
    decreases n, 1
  {
    if LegalUnit(via.legal, n, p + 1) {
      UnitShape(via, n, p + 1);
    } else {
      match n
      case Not(kid) =>
        UnitShape(via, kid, p + 1);
        PlainClosed("not ");
        ClosedConcat("not ", Text(via.show, kid));
        Halves("not ", Text(via.show, kid), Text(via.show, n));
      case And(kids) =>
        PlainClosed(" and ");
        assert " " + "and" + " " == " and ";
        OperandsShape(via, kids, "and", p + 1);
      case Or(kids) =>
        PlainClosed(" or ");
        assert " " + "or" + " " == " or ";
        OperandsShape(via, kids, "or", p + 1);
    }
  }

  lemma {:induction false} OperandsShape(via: TestRules, kids: seq<Node>, kw: string, p: nat)
    requires Suits(via) && kids != [] && LegalUnits(via.legal, kids, p) && Closed(" " + kw + " ")
    ensures Closed(Operands(via.show, kids, kw)) && IsTight(Operands(via.show, kids, kw)) && Operands(via.show, kids, kw)[0] == '('
    decreases kids, 2
  {
    UnitShape(via, kids[0], p);
    var first, more := Text(via.show, kids[0]), More(via.show, kids[1..], kw);
    Halves(first, more, first + more);
    if |kids| > 1 {
      OperandsShape(via, kids[1..], kw, p);
      ClosedConcat(" " + kw + " ", Operands(via.show, kids[1..], kw));
      ClosedConcat(first, more);
      Halves(" " + kw + " ", Operands(via.show, kids[1..], kw), more);
    } else {
      assert first + more == first;
    }
  }

  // ---------- reading them ----------

  /** White space that the parser skips in front of an operand. */
  predicate IsPad(pad: string) {
    pad == "" || pad == " "
  }

  lemma Padded(pad: string, t: string, u: string)
    requires IsPad(pad) && t != "" && !IsSpace(t[0]) && u == pad + t
    ensures WsLen(u) == |pad| && u[|pad|..] == t
  {
    Halves(pad, t, u);
    WsOf(t);
  }

  /** Behind white space up to `at`, the text begins with the keyword `kw`. */
  ghost predicate HeadIs(u: string, at: nat, kw: string) {
    at + |kw| <= |u| && forall key {:trigger Open(key)} :: Key(key) ==> WsLen(u) == at && KeywordAt(u[at..], kw)
  }

  /** Behind white space up to `at`, the text does not begin with the keyword `kw`. */
  ghost predicate HeadIsNot(u: string, at: nat, kw: string) {
    at <= |u| && forall key {:trigger Open(key)} :: Key(key) ==> WsLen(u) == at && !KeywordAt(u[at..], kw)
  }

  /** What the parser returns for a text, under a key. */
  ghost predicate InParensIs(feature: FeatureParser, u: string, p: nat, r: Parsed) {
    forall key {:trigger Open(key)} :: Key(key) ==> ParseInParens(feature, u, p) == Some(r)
  }

  ghost predicate ConditionIs(feature: FeatureParser, u: string, allowOr: bool, p: nat, r: Parsed) {
    forall key {:trigger Open(key)} :: Key(key) ==> ParseCondition(feature, u, allowOr, p) == Some(r)
  }

  ghost predicate RestIs(feature: FeatureParser, u: string, first: Node, at: nat, allowOr: bool, p: nat, r: Parsed) {
    0 < at <= |u| && p <= MAX_DEPTH && forall key {:trigger Open(key)} :: Key(key) ==>
      ParseRest(feature, u, first, at, allowOr, p) == Some(r)
  }

  ghost predicate MoreIs(feature: FeatureParser, u: string, at: nat, kw: string, p: nat, kids: seq<Node>) {
    at <= |u| && p <= MAX_DEPTH && forall key {:trigger Open(key)} :: Key(key) ==>
      ParseMore(feature, u, at, kw, p) == Some((kids, |u|))
  }

  // One step of each parsing function.

  /** A group stands at `at`, with `inner` inside. */
  ghost predicate GroupAt(u: string, at: nat, inner: string) {
    WsLen(u) == at && at + |inner| + 2 <= |u| && u[at] == '(' && CloseParen(u[at + 1..], 1) == |inner| &&
    u[at + 1..at + 1 + |inner|] == inner
  }

  lemma GroupCut(pad: string, inner: string, rest: string, u: string)
    requires IsPad(pad) && Closed(inner) && u == pad + ("(" + (inner + (")" + rest)))
    ensures GroupAt(u, |pad|, inner)
  {
    var group, body := "(" + (inner + (")" + rest)), inner + (")" + rest);
    Padded(pad, group, u);
    Halves("(", body, group);
    GroupCloses(inner, rest);
    InnerCut(inner, ")" + rest, |pad| + 1, u);
  }

  lemma InnerCut(inner: string, rest: string, at: nat, u: string)
    requires at <= |u| && u[at..] == inner + rest
    ensures at + |inner| <= |u| && u[at..at + |inner|] == inner
  {
    Halves(inner, rest, u[at..]);
    assert u[at..at + |inner|] == u[at..][..|inner|];
  }

  lemma GroupIsCondition(feature: FeatureParser, u: string, at: nat, inner: string, p: nat, cond: Node)
    requires GroupAt(u, at, inner) && p <= MAX_DEPTH
    requires ConditionIs(feature, inner, true, p + 1, Parsed(cond, |inner|))
    ensures InParensIs(feature, u, p, Parsed(And([cond]), at + |inner| + 2))
  {
    WholeCondition(feature, u, at, inner, p, cond, ParseInParens(feature, u, p));
  }

  lemma WholeCondition(feature: FeatureParser, u: string, at: nat, inner: string, p: nat, cond: Node, r: Option<Parsed>)
    requires GroupAt(u, at, inner) && p <= MAX_DEPTH && r == ParseInParens(feature, u, p)
    requires ConditionIs(feature, inner, true, p + 1, Parsed(cond, |inner|))
    ensures r == Some(Parsed(And([cond]), at + |inner| + 2))
  {
    var g := ParseGroup(feature, inner, at + |inner| + 2, p);
    InnerCondition(feature, inner, at + |inner| + 2, p, cond, g);
    GroupRead(feature, u, at, inner, p, g, r);
  }

  lemma InnerCondition(feature: FeatureParser, inner: string, end: nat, p: nat, cond: Node, g: Option<Parsed>)
    requires p <= MAX_DEPTH && end > 0 && ConditionIs(feature, inner, true, p + 1, Parsed(cond, |inner|))
    requires g == ParseGroup(feature, inner, end, p)
    ensures g == Some(Parsed(And([cond]), end))
  {
    assert inner[|inner|..] == "";
    assert Open(true);
  }

  /** A group is read as what stands inside. */
  lemma GroupRead(feature: FeatureParser, u: string, at: nat, inner: string, p: nat, g: Option<Parsed>, r: Option<Parsed>)
    requires GroupAt(u, at, inner) && p <= MAX_DEPTH && r == ParseInParens(feature, u, p)
    requires g == ParseGroup(feature, inner, at + |inner| + 2, p)
    ensures r == g
  {
  }

  lemma GroupIsFeature(feature: FeatureParser, u: string, at: nat, inner: string, p: nat, test: Node)
    requires GroupAt(u, at, inner) && p <= MAX_DEPTH && NotCondition(feature, inner, true, p + 1)
    requires feature(inner) == Some(test)
    ensures InParensIs(feature, u, p, Parsed(test, at + |inner| + 2))
  {
    WholeFeature(feature, u, at, inner, p, test, ParseInParens(feature, u, p));
  }

  lemma WholeFeature(feature: FeatureParser, u: string, at: nat, inner: string, p: nat, test: Node, r: Option<Parsed>)
    requires GroupAt(u, at, inner) && p <= MAX_DEPTH && NotCondition(feature, inner, true, p + 1)
    requires feature(inner) == Some(test) && r == ParseInParens(feature, u, p)
    ensures r == Some(Parsed(test, at + |inner| + 2))
  {
    var g := ParseGroup(feature, inner, at + |inner| + 2, p);
    InnerFeature(feature, inner, at + |inner| + 2, p, test, g);
    GroupRead(feature, u, at, inner, p, g, r);
  }

  lemma InnerFeature(feature: FeatureParser, inner: string, end: nat, p: nat, test: Node, g: Option<Parsed>)
    requires p <= MAX_DEPTH && end > 0 && NotCondition(feature, inner, true, p + 1) && feature(inner) == Some(test)
    requires g == ParseGroup(feature, inner, end, p)
    ensures g == Some(Parsed(test, end))
  {
    assert Open(true);
  }

  ghost predicate NotIs(feature: FeatureParser, u: string, at: nat, p: nat, r: Parsed) {
    at <= |u| && p <= MAX_DEPTH && forall key {:trigger Open(key)} :: Key(key) ==>
      ParseNot(feature, u, at, p) == Some(r)
  }

  lemma NotStep(feature: FeatureParser, u: string, allowOr: bool, p: nat, at: nat, r: Parsed)
    requires HeadIs(u, at, "not") && NotIs(feature, u, at + 3, p, r)
    ensures ConditionIs(feature, u, allowOr, p, r)
  {
    NotKeyword(feature, u, allowOr, p, at, r, ParseCondition(feature, u, allowOr, p));
  }

  lemma NotKeyword(feature: FeatureParser, u: string, allowOr: bool, p: nat, at: nat, r: Parsed, c: Option<Parsed>)
    requires HeadIs(u, at, "not") && NotIs(feature, u, at + 3, p, r) && c == ParseCondition(feature, u, allowOr, p)
    ensures c == Some(r)
  {
    assert Open(true);
  }

  lemma NotOperand(feature: FeatureParser, u: string, p: nat, at: nat, kid: Parsed)
    requires at <= |u| && p <= MAX_DEPTH && InParensIs(feature, u[at..], p + 1, kid)
    ensures NotIs(feature, u, at, p, Parsed(Not(kid.node), at + kid.read))
  {
    assert Open(true);
    assert ParseNot(feature, u, at, p) == Some(Parsed(Not(kid.node), at + kid.read));
  }

  ghost predicate FirstIs(feature: FeatureParser, u: string, at: nat, allowOr: bool, p: nat, r: Parsed) {
    at <= |u| && p <= MAX_DEPTH && forall key {:trigger Open(key)} :: Key(key) ==>
      ParseFirst(feature, u, at, allowOr, p) == Some(r)
  }

  lemma FirstStep(feature: FeatureParser, u: string, allowOr: bool, p: nat, at: nat, first: Parsed, r: Parsed)
    requires HeadIsNot(u, at, "not")
    requires InParensIs(feature, u[at..], p + 1, first) && RestIs(feature, u, first.node, at + first.read, allowOr, p, r)
    ensures ConditionIs(feature, u, allowOr, p, r)
  {
    FirstOperand(feature, u, allowOr, p, at, first, r, ParseFirst(feature, u, at, allowOr, p));
    NoNotKeyword(feature, u, allowOr, p, at, r, ParseCondition(feature, u, allowOr, p));
  }

  lemma FirstOperand(feature: FeatureParser, u: string, allowOr: bool, p: nat, at: nat, first: Parsed, r: Parsed,
                     c: Option<Parsed>)
    requires at <= |u| && p <= MAX_DEPTH && c == ParseFirst(feature, u, at, allowOr, p)
    requires InParensIs(feature, u[at..], p + 1, first) && RestIs(feature, u, first.node, at + first.read, allowOr, p, r)
    ensures c == Some(r)
  {
    assert Open(true);
  }

  lemma NoNotKeyword(feature: FeatureParser, u: string, allowOr: bool, p: nat, at: nat, r: Parsed, c: Option<Parsed>)
    requires HeadIsNot(u, at, "not") && FirstIs(feature, u, at, allowOr, p, r)
    requires c == ParseCondition(feature, u, allowOr, p)
    ensures c == Some(r)
  {
    assert Open(true);
  }

  lemma NothingLeft(feature: FeatureParser, u: string, first: Node, allowOr: bool, p: nat)
    requires u != "" && p <= MAX_DEPTH
    ensures RestIs(feature, u, first, |u|, allowOr, p, Parsed(first, |u|))
  {
    assert u[|u|..] == "" && SkipWs("") == "";
    assert ParseRest(feature, u, first, |u|, allowOr, p) == Some(Parsed(first, |u|));
  }

  function Keyword(useAnd: bool): (kw: string)
    ensures kw == "and" || kw == "or"
  {
    if useAnd then "and" else "or"
  }

  function Joined(useAnd: bool, kids: seq<Node>): Node {
    if useAnd then And(kids) else Or(kids)
  }

  lemma MoreLeft(feature: FeatureParser, u: string, at: nat, useAnd: bool, allowOr: bool, p: nat, kids: seq<Node>)
    requires 0 < at <= |u| && HeadIs(u[at..], 1, Keyword(useAnd)) && (useAnd || allowOr) && kids != []
    requires !useAnd ==> HeadIsNot(u[at..], 1, "and")
    requires MoreIs(feature, u, at, Keyword(useAnd), p, kids[1..])
    ensures RestIs(feature, u, kids[0], at, allowOr, p, Parsed(Joined(useAnd, kids), |u|))
  {
    LastOperands(feature, u, at, useAnd, allowOr, p, kids, ParseRest(feature, u, kids[0], at, allowOr, p));
  }

  lemma LastOperands(feature: FeatureParser, u: string, at: nat, useAnd: bool, allowOr: bool, p: nat, kids: seq<Node>,
                     all: Option<Parsed>)
    requires 0 < at <= |u| && HeadIs(u[at..], 1, Keyword(useAnd)) && (useAnd || allowOr) && kids != []
    requires !useAnd ==> HeadIsNot(u[at..], 1, "and")
    requires MoreIs(feature, u, at, Keyword(useAnd), p, kids[1..]) && all == ParseRest(feature, u, kids[0], at, allowOr, p)
    ensures all == Some(Parsed(Joined(useAnd, kids), |u|))
  {
    Rejoin(kids);
    assert Open(true);
  }

  lemma Rejoin(kids: seq<Node>)
    requires kids != []
    ensures [kids[0]] + kids[1..] == kids
  {
  }

  lemma NoMore(feature: FeatureParser, u: string, kw: string, p: nat)
    requires p <= MAX_DEPTH
    ensures MoreIs(feature, u, |u|, kw, p, [])
  {
    assert u[|u|..] == "";
    assert ParseMore(feature, u, |u|, kw, p) == Some(([], |u|));
  }

  ghost predicate NextIs(feature: FeatureParser, u: string, at: nat, kw: string, p: nat, kids: seq<Node>) {
    at <= |u| && p <= MAX_DEPTH && forall key {:trigger Open(key)} :: Key(key) ==>
      ParseNext(feature, u, at, kw, p) == Some((kids, |u|))
  }

  lemma NextStep(feature: FeatureParser, u: string, at: nat, read: nat, kw: string, p: nat, kids: seq<Node>)
    requires at <= |u| && kids != []
    requires InParensIs(feature, u[at..], p + 1, Parsed(kids[0], read)) && MoreIs(feature, u, at + read, kw, p, kids[1..])
    ensures NextIs(feature, u, at, kw, p, kids)
  {
    OneMore(feature, u, at, read, kw, p, kids, ParseNext(feature, u, at, kw, p));
  }

  lemma OneMore(feature: FeatureParser, u: string, at: nat, read: nat, kw: string, p: nat, kids: seq<Node>,
                all: Option<(seq<Node>, nat)>)
    requires at <= |u| && kids != [] && p <= MAX_DEPTH
    requires InParensIs(feature, u[at..], p + 1, Parsed(kids[0], read)) && MoreIs(feature, u, at + read, kw, p, kids[1..])
    requires all == ParseNext(feature, u, at, kw, p)
    ensures all == Some((kids, |u|))
  {
    Rejoin(kids);
    assert Open(true);
  }

  lemma MoreStep(feature: FeatureParser, u: string, at: nat, kw: string, p: nat, kids: seq<Node>)
    requires at <= |u| && kw != "" && HeadIs(u[at..], 1, kw) && NextIs(feature, u, at + 1 + |kw|, kw, p, kids)
    ensures MoreIs(feature, u, at, kw, p, kids)
  {
    KeywordNext(feature, u, at, kw, p, kids, ParseMore(feature, u, at, kw, p));
  }

  lemma KeywordNext(feature: FeatureParser, u: string, at: nat, kw: string, p: nat, kids: seq<Node>,
                    all: Option<(seq<Node>, nat)>)
    requires at <= |u| && kw != "" && HeadIs(u[at..], 1, kw) && NextIs(feature, u, at + 1 + |kw|, kw, p, kids)
    requires all == ParseMore(feature, u, at, kw, p)
    ensures all == Some((kids, |u|))
  {
    KeywordHere(u, at, kw);
    assert Open(true);
  }

  lemma KeywordHere(u: string, at: nat, kw: string)
    requires at <= |u| && HeadIs(u[at..], 1, kw)
    ensures WsLen(u[at..]) == 1 && KeywordAt(u[at + 1..], kw)
  {
    assert Open(true);
    assert u[at..][1..] == u[at + 1..];
  }

  // The induction over the tree.

  lemma {:induction false} UnitReads(via: TestRules, n: Node, p: nat, pad: string, rest: string, u: string)
    requires Suits(via) && LegalUnit(via.legal, n, p) && IsPad(pad) && u == pad + (Text(via.show, n) + rest)
    ensures InParensIs(via.feature, u, p, Parsed(n, |pad| + |Text(via.show, n)|))
    decreases n, 0
  {
    match n
    case Feature(def, test) =>
      SuitsTest(via, def, test);
      FeatureReads(via.feature, via.show(def, test), n, p, pad, rest, u);
    case And(kids) =>
      var inner := Text(via.show, kids[0]);
      ConditionShape(via, kids[0], true, p + 1);
      Regroup(pad, inner, rest, u);
      GroupCut(pad, inner, rest, u);
      assert "" + inner == inner;
      ConditionReads(via, kids[0], true, p + 1, "", inner);
      GroupIsCondition(via.feature, u, |pad|, inner, p, kids[0]);
      assert kids == [kids[0]];
  }

  lemma FeatureReads(feature: FeatureParser, inner: string, test: Node, p: nat, pad: string, rest: string, u: string)
    requires TestSuits(feature, inner, test) && IsPad(pad) && p <= MAX_DEPTH
    requires u == pad + ("(" + inner + ")" + rest)
    ensures InParensIs(feature, u, p, Parsed(test, |pad| + |inner| + 2))
  {
    Regroup(pad, inner, rest, u);
    GroupCut(pad, inner, rest, u);
    assert NotCondition(feature, inner, true, p + 1) by { assert Open(true); }
    GroupIsFeature(feature, u, |pad|, inner, p, test);
  }

  lemma Regroup(pad: string, inner: string, rest: string, u: string)
    requires u == pad + ("(" + inner + ")" + rest)
    ensures u == pad + ("(" + (inner + (")" + rest)))
  {
    assert "(" + inner + ")" + rest == "(" + (inner + (")" + rest));
  }

  lemma {:induction false} ConditionReads(via: TestRules, n: Node, allowOr: bool, p: nat, pad: string, u: string)
    requires Suits(via) && LegalCondition(via.legal, n, allowOr, p) && IsPad(pad) && u == pad + Text(via.show, n)
    ensures ConditionIs(via.feature, u, allowOr, p, Parsed(n, |u|))
    decreases n, 1
  {
    if LegalUnit(via.legal, n, p + 1) {
      var t := Text(via.show, n);
      UnitShape(via, n, p + 1);
      assert "" + (t + "") == t;
      UnitReads(via, n, p + 1, "", "", t);
      OnlyOperand(via.feature, n, t, allowOr, p, pad, u);
    } else {
      match n
      case Not(kid) => NotReads(via, kid, allowOr, p, pad, u);
      case And(kids) => OperandsRead(via, kids, true, allowOr, p, pad, u);
      case Or(kids) => OperandsRead(via, kids, false, allowOr, p, pad, u);
    }
  }

  lemma OnlyOperand(feature: FeatureParser, n: Node, t: string, allowOr: bool, p: nat, pad: string, u: string)
    requires IsPad(pad) && u == pad + t && t != "" && t[0] == '(' && p <= MAX_DEPTH
    requires InParensIs(feature, t, p + 1, Parsed(n, |t|))
    ensures ConditionIs(feature, u, allowOr, p, Parsed(n, |u|))
  {
    assert t == t + "";
    FirstOperandText(pad, t, "", t, u);
    NothingLeft(feature, u, n, allowOr, p);
    FirstStep(feature, u, allowOr, p, |pad|, Parsed(n, |t|), Parsed(n, |u|));
  }

  lemma {:induction false} NotReads(via: TestRules, kid: Node, allowOr: bool, p: nat, pad: string, u: string)
    requires Suits(via) && LegalUnit(via.legal, kid, p + 1) && IsPad(pad) && u == pad + ("not " + Text(via.show, kid))
    ensures ConditionIs(via.feature, u, allowOr, p, Parsed(Not(kid), |u|))
    decreases kid, 3
  {
    NotText(pad, Text(via.show, kid), u);
    UnitReads(via, kid, p + 1, " ", "", u[|pad| + 3..]);
    NotOperand(via.feature, u, p, |pad| + 3, Parsed(kid, 1 + |Text(via.show, kid)|));
    NotStep(via.feature, u, allowOr, p, |pad|, Parsed(Not(kid), |u|));
  }

  lemma NotText(pad: string, kid: string, u: string)
    requires IsPad(pad) && u == pad + ("not " + kid)
    ensures HeadIs(u, |pad|, "not") && u[|pad| + 3..] == " " + (kid + "")
  {
    assert kid + "" == kid && "not " + kid == "not" + (" " + kid);
    LowerKeyword("not");
    KeywordText("not", pad, " " + kid, u);
  }

  /** A keyword of the grammar, followed by a space. */
  lemma KeywordText(kw: string, pad: string, tail: string, u: string)
    requires IsPad(pad) && u == pad + (kw + tail) && tail != "" && tail[0] == ' '
    requires kw != "" && Lower(kw) == kw && !IsSpace(kw[0])
    ensures HeadIs(u, |pad|, kw) && u[|pad| + |kw|..] == tail
  {
    var t := kw + tail;
    Halves(kw, tail, t);
    Padded(pad, t, u);
    assert t[|kw|] == tail[0];
    assert u[|pad| + |kw|..] == t[|kw|..];
    assert KeywordAt(u[|pad|..], kw);
  }

  lemma LowerKeyword(kw: string)
    requires kw == "not" || kw == "and" || kw == "or"
    ensures Lower(kw) == kw && kw != "" && !IsSpace(kw[0])
  {
  }

  lemma {:induction false} OperandsRead(via: TestRules, kids: seq<Node>, useAnd: bool, allowOr: bool, p: nat,
                                        pad: string, u: string)
    requires Suits(via) && p <= MAX_DEPTH && |kids| >= 2 && LegalUnits(via.legal, kids, p + 1) && IsPad(pad)
    requires u == pad + Operands(via.show, kids, Keyword(useAnd)) && (useAnd || allowOr)
    ensures ConditionIs(via.feature, u, allowOr, p, Parsed(Joined(useAnd, kids), |u|))
    decreases kids, 3
  {
    var kw := Keyword(useAnd);
    var first, more := Text(via.show, kids[0]), More(via.show, kids[1..], kw);
    UnitShape(via, kids[0], p + 1);
    FirstOperandText(pad, first, more, first + more, u);
    assert "" + (first + more) == first + more;
    UnitReads(via, kids[0], p + 1, "", more, first + more);
    MoreKeyword(via.show, kids[1..], kw, more);
    MoreReads(via, kids[1..], kw, p, u, |pad| + |first|);
    JoinedReads(via.feature, kids, useAnd, allowOr, p, pad, first, more, u);
  }

  lemma JoinedReads(feature: FeatureParser, kids: seq<Node>, useAnd: bool, allowOr: bool, p: nat, pad: string,
                    first: string, more: string, u: string)
    requires p <= MAX_DEPTH && kids != [] && IsPad(pad) && (useAnd || allowOr) && first != "" && first[0] == '('
    requires u == pad + (first + more) && InParensIs(feature, first + more, p + 1, Parsed(kids[0], |first|))
    requires HeadIs(more, 1, Keyword(useAnd)) && (!useAnd ==> HeadIsNot(more, 1, "and"))
    requires MoreIs(feature, u, |pad| + |first|, Keyword(useAnd), p, kids[1..])
    ensures ConditionIs(feature, u, allowOr, p, Parsed(Joined(useAnd, kids), |u|))
  {
    FirstOperandText(pad, first, more, first + more, u);
    MoreLeft(feature, u, |pad| + |first|, useAnd, allowOr, p, kids);
    FirstStep(feature, u, allowOr, p, |pad|, Parsed(kids[0], |first|), Parsed(Joined(useAnd, kids), |u|));
  }

  lemma FirstOperandText(pad: string, first: string, more: string, t: string, u: string)
    requires IsPad(pad) && u == pad + t && t == first + more && first != "" && first[0] == '('
    ensures u[|pad|..] == t && HeadIsNot(u, |pad|, "not")
    ensures |pad| + |first| <= |u| && u[|pad| + |first|..] == more
  {
    Halves(first, more, t);
    Padded(pad, t, u);
    NoKeyword(t, "not");
    assert u[|pad| + |first|..] == t[|first|..];
  }

  /** The keyword in front of a further operand. */
  lemma MoreKeyword(show: TestPrinter, kids: seq<Node>, kw: string, more: string)
    requires kids != [] && (kw == "and" || kw == "or") && more == More(show, kids, kw)
    ensures HeadIs(more, 1, kw) && (kw == "or" ==> HeadIsNot(more, 1, "and"))
    ensures more[1 + |kw|..] == " " + (Text(show, kids[0]) + More(show, kids[1..], kw))
  {
    KeywordAhead(kw, Text(show, kids[0]) + More(show, kids[1..], kw), more);
  }

  lemma KeywordAhead(kw: string, operand: string, more: string)
    requires (kw == "and" || kw == "or") && more == " " + kw + " " + operand
    ensures HeadIs(more, 1, kw) && (kw == "or" ==> HeadIsNot(more, 1, "and"))
    ensures more[1 + |kw|..] == " " + operand
  {
    var tail := " " + operand;
    assert more == " " + (kw + tail);
    LowerKeyword(kw);
    KeywordText(kw, " ", tail, more);
    if kw == "or" { OtherKeyword(kw + tail, more); }
  }

  lemma OtherKeyword(t: string, u: string)
    requires u == " " + t && t != "" && t[0] == 'o'
    ensures HeadIsNot(u, 1, "and")
  {
    Padded(" ", t, u);
    NoKeyword(t, "and");
    assert !KeywordAt(u[1..], "and");
  }

  lemma {:induction false} MoreReads(via: TestRules, kids: seq<Node>, kw: string, p: nat, u: string, at: nat)
    requires Suits(via) && p <= MAX_DEPTH && LegalUnits(via.legal, kids, p + 1) && (kw == "and" || kw == "or")
    requires at <= |u| && u[at..] == More(via.show, kids, kw)
    ensures MoreIs(via.feature, u, at, kw, p, kids)
    decreases kids, 2
  {
    if kids == [] {
      assert at == |u|;
      NoMore(via.feature, u, kw, p);
    } else {
      var first, rest := Text(via.show, kids[0]), More(via.show, kids[1..], kw);
      MoreKeyword(via.show, kids, kw, u[at..]);
      MoreText(u, at, 1 + |kw|, first, rest);
      UnitReads(via, kids[0], p + 1, " ", rest, u[at + 1 + |kw|..]);
      MoreReads(via, kids[1..], kw, p, u, at + 1 + |kw| + (1 + |first|));
      NextStep(via.feature, u, at + 1 + |kw|, 1 + |first|, kw, p, kids);
      MoreStep(via.feature, u, at, kw, p, kids);
    }
  }

  lemma MoreText(u: string, at: nat, k: nat, first: string, rest: string)
    requires at <= |u| && k <= |u[at..]| && u[at..][k..] == " " + (first + rest)
    ensures u[at + k..] == " " + (first + rest) && at + k + (1 + |first|) <= |u|
    ensures u[at + k + (1 + |first|)..] == rest && (k >= 1 ==> at + 1 <= |u| && u[at + 1..] == u[at..][1..])
  {
    assert u[at + k..] == u[at..][k..];
    Halves(first, rest, first + rest);
    Halves(" ", first + rest, u[at + k..]);
    assert u[at + k + (1 + |first|)..] == u[at + k..][1..][|first|..];
  }
}
