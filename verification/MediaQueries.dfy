/**
 Whole queries and lists of queries: what is written is read again, up to one pair of parentheses around a
 whole condition, and it matches on the same devices.
 */
module MediaQueries {
  import opened Common
  import opened Locks
  import opened MediaSyntax
  import opened MediaText
  import opened MediaScan
  import opened MediaFeatures
  import opened MediaConditions
  import opened MediaEval
  import opened MediaShape
  import opened MediaRoundTrip

  // ---------- a legal tree is legal at a smaller depth, and evaluates the same there ----------

  lemma {:induction false} UnitHigher(legal: TestChecker, n: Node, p: nat, q: nat)
    requires LegalUnit(legal, n, p) && q <= p
    ensures LegalUnit(legal, n, q)
    decreases n, 0
  {
    if n.And? { ConditionHigher(legal, n.kids[0], true, p + 1, q + 1); }
  }

  lemma {:induction false} ConditionHigher(legal: TestChecker, n: Node, allowOr: bool, p: nat, q: nat)
    requires LegalCondition(legal, n, allowOr, p) && q <= p
    ensures LegalCondition(legal, n, allowOr, q)
    decreases n, 1
  {
    if LegalUnit(legal, n, p + 1) {
      UnitHigher(legal, n, p + 1, q + 1);
    } else {
      match n
      case Not(kid) => UnitHigher(legal, kid, p + 1, q + 1);
      case And(kids) => UnitsHigher(legal, kids, p + 1, q + 1);
      case Or(kids) => UnitsHigher(legal, kids, p + 1, q + 1);
    }
  }

  lemma {:induction false} UnitsHigher(legal: TestChecker, kids: seq<Node>, p: nat, q: nat)
    requires LegalUnits(legal, kids, p) && q <= p
    ensures LegalUnits(legal, kids, q)
    decreases kids
  {
    if kids != [] {
      UnitHigher(legal, kids[0], p, q);
      UnitsHigher(legal, kids[1..], p, q);
    }
  }

  /** The evaluator does not reach its depth limit either, so its verdict does not depend on the depth. */
  lemma {:induction false} UnitSame(legal: TestChecker, eval: TestEvaluator, n: Node, p: nat, d: nat, e: nat)
    requires LegalUnit(legal, n, p) && p % 2 == 1 && d <= p + 1 && e <= p + 1
    ensures EvalNode(eval, n, d) == EvalNode(eval, n, e)
    decreases n, 0
  {
    if n.And? {
      ConditionSame(legal, eval, n.kids[0], true, p + 1, d + 1, e + 1);
      OneOfAll(eval, n.kids, d + 1);
      OneOfAll(eval, n.kids, e + 1);
    }
  }

  lemma OneOfAll(eval: TestEvaluator, kids: seq<Node>, d: nat)
    requires |kids| == 1
    ensures AllOf(eval, Yes, kids, d) == EvalNode(eval, kids[0], d)
  {
    assert kids[1..] == [];
    assert AllOf(eval, EvalNode(eval, kids[0], d), [], d) == EvalNode(eval, kids[0], d);
  }

  lemma {:induction false} ConditionSame(legal: TestChecker, eval: TestEvaluator, n: Node, allowOr: bool, p: nat, d: nat, e: nat)
    requires LegalCondition(legal, n, allowOr, p) && p % 2 == 0 && d <= p + 1 && e <= p + 1
    ensures EvalNode(eval, n, d) == EvalNode(eval, n, e)
    decreases n, 1
  {
    if LegalUnit(legal, n, p + 1) {
      UnitSame(legal, eval, n, p + 1, d, e);
    } else {
      match n
      case Not(kid) => UnitSame(legal, eval, kid, p + 1, d + 1, e + 1);
      case And(kids) =>
        assert LegalUnit(legal, kids[0], p + 1);
        AllSame(legal, eval, Yes, kids, p + 1, d + 1, e + 1);
      case Or(kids) =>
        assert LegalUnit(legal, kids[0], p + 1);
        AnySame(legal, eval, No, kids, p + 1, d + 1, e + 1);
    }
  }

  lemma {:induction false} AllSame(legal: TestChecker, eval: TestEvaluator, r: Tri, kids: seq<Node>, p: nat, d: nat, e: nat)
    requires LegalUnits(legal, kids, p) && p % 2 == 1 && d <= p + 1 && e <= p + 1
    ensures AllOf(eval, r, kids, d) == AllOf(eval, r, kids, e)
    decreases kids
  {
    if kids != [] {
      UnitSame(legal, eval, kids[0], p, d, e);
      AllSame(legal, eval, Both(r, EvalNode(eval, kids[0], d)), kids[1..], p, d, e);
    }
  }

  lemma {:induction false} AnySame(legal: TestChecker, eval: TestEvaluator, r: Tri, kids: seq<Node>, p: nat, d: nat, e: nat)
    requires LegalUnits(legal, kids, p) && p % 2 == 1 && d <= p + 1 && e <= p + 1
    ensures AnyOf(eval, r, kids, d) == AnyOf(eval, r, kids, e)
    decreases kids
  {
    if kids != [] {
      UnitSame(legal, eval, kids[0], p, d, e);
      AnySame(legal, eval, Either(r, EvalNode(eval, kids[0], d)), kids[1..], p, d, e);
    }
  }

  // ---------- a whole condition ----------

  /** The parentheses that the serializer drops at the top. */
  function Unwrapped(n: Node): Node {
    if n.And? && |n.kids| == 1 then n.kids[0] else n
  }

  lemma TopText(via: TestRules, n: Node)
    requires LegalCondition(via.legal, n, true, 0)
    ensures LegalCondition(via.legal, Unwrapped(n), true, 0)
    ensures NodeText(via.show, n, 0) == Text(via.show, Unwrapped(n))
  {
    if n.And? && |n.kids| == 1 {
      ConditionHigher(via.legal, n.kids[0], true, 2, 0);
      ConditionText(via, n.kids[0], true, 2, 1);
      assert KidsText(via.show, n.kids, " and ", 0) == NodeText(via.show, n.kids[0], 1) + "";
    } else if !LegalUnit(via.legal, n, 1) {
      match n
      case Not(kid) => OperandText(via, kid, 1, 1);
      case And(kids) =>
        assert LegalUnit(via.legal, kids[0], 1);
        OperandsText(via, kids, "and", " and ", 1, 0);
      case Or(kids) =>
        assert LegalUnit(via.legal, kids[0], 1);
        OperandsText(via, kids, "or", " or ", 1, 0);
    }
  }

  lemma TopEval(legal: TestChecker, eval: TestEvaluator, n: Node)
    requires LegalCondition(legal, n, true, 0)
    ensures EvalNode(eval, Unwrapped(n), 0) == EvalNode(eval, n, 0)
  {
    if n.And? && |n.kids| == 1 {
      ConditionSame(legal, eval, n.kids[0], true, 2, 0, 1);
      OneOfAll(eval, n.kids, 1);
    }
  }

  lemma WholeConditionReads(via: TestRules, n: Node, u: string)
    requires Suits(via) && LegalCondition(via.legal, n, true, 0) && u == Text(via.show, n)
    ensures ParseTrimmed(via.feature, u) == Condition(n)
  {
    assert "" + u == u;
    ConditionShape(via, n, true, 0);
    ConditionReads(via, n, true, 0, "", u);
    CompleteCondition(via.feature, n, u);
  }

  lemma CompleteCondition(feature: FeatureParser, n: Node, u: string)
    requires u != "" && ConditionIs(feature, u, true, 0, Parsed(n, |u|))
    ensures ParseTrimmed(feature, u) == Condition(n)
  {
    assert Open(true);
    assert u[|u|..] == "";
  }

  // ---------- a media type ----------

  /** What stands behind the media type. */
  function TailText(show: TestPrinter, tail: Option<Node>): string {
    if tail.None? then "" else " and " + NodeText(show, tail.value, 1)
  }

  ghost predicate LegalTail(legal: TestChecker, tail: Option<Node>) {
    tail.Some? ==> LegalCondition(legal, tail.value, false, 0)
  }

  lemma TailReads(via: TestRules, q: Query)
    requires Suits(via) && q.Typed? && LegalTail(via.legal, q.tail)
    ensures ParseTail(via.feature, SkipWs(TailText(via.show, q.tail)), q.(tail := None)) == q
  {
    if q.tail.Some? {
      var n := q.tail.value;
      ConditionText(via, n, false, 0, 1);
      ConditionReads(via, n, false, 0, " ", " " + Text(via.show, n));
      AndTail(via.feature, q, n, Text(via.show, n));
    }
  }

  lemma AndTail(feature: FeatureParser, q: Query, n: Node, t: string)
    requires q.Typed? && q.tail == Some(n) && ConditionIs(feature, " " + t, false, 0, Parsed(n, |" " + t|))
    ensures ParseTail(feature, SkipWs(" and " + t), q.(tail := None)) == q
  {
    var u := " and " + t;
    AndText(t, u);
    assert Open(true);
    assert (" " + t)[|" " + t|..] == "";
  }

  lemma AndText(t: string, u: string)
    requires u == " and " + t
    ensures KeywordAt(SkipWs(u), "and") && SkipWs(u)[3..] == " " + t
  {
    assert u == " " + "and" + " " + t;
    KeywordAhead("and", t, u);
    assert Open(true);
    assert u[1 + 3..] == u[1..][3..];
  }

  lemma MediaTypeReads(via: TestRules, q: Query, p: string)
    requires Suits(via) && q.Typed? && LegalTail(via.legal, q.tail)
    requires IsIdentText(q.mediaType) && |q.mediaType| < 64 && !IsReserved(q.mediaType)
    requires p == q.mediaType + TailText(via.show, q.tail)
    ensures ParseMediaType(via.feature, p, q.negated, q.only) == q && IdentLen(p) == |q.mediaType|
    ensures ReadIdent(p, 64) == Some(q.mediaType)
  {
    IdentReads(q.mediaType, TailText(via.show, q.tail), 64);
    TailReads(via, q);
  }

  lemma TypeIsWord(w: string, tail: string, p: string)
    requires IsIdentText(w) && !IsReserved(w) && p == w + tail && (tail == "" || tail[0] == ' ')
    ensures StartsWithWord(p, w) && Lower(w) != "not"
  {
    IdentIsTight(w);
    assert p[..|w|] == w && Lower(w) == w;
    assert tail != "" ==> p[|w|] == tail[0];
  }

  /** A prefix is read as the first word. */
  lemma PrefixReads(feature: FeatureParser, prefix: string, w: string, p: string, u: string)
    requires (prefix == "not" || prefix == "only") && u == prefix + (" " + p) && StartsWithWord(p, w)
    ensures ParseTyped(feature, u) == ParseMediaType(feature, p, prefix == "not", prefix == "only")
    ensures NotCondition(feature, u, true, 0)
  {
    assert IsIdentText(prefix);
    IdentReads(prefix, " " + p, 64);
    NoCall(p, w);
    WsOf(p);
    if prefix == "only" {
      Halves(prefix, " " + p, u);
      assert Lower(prefix) == prefix;
      WordNoCondition(feature, u, prefix, true, 0);
    } else {
      WordNoParens(feature, p, w, 1);
      NotNoCondition(feature, p, u);
    }
  }

  lemma NotNoCondition(feature: FeatureParser, p: string, u: string)
    requires u == "not" + (" " + p) && ParseInParens(feature, " " + p, 1).None?
    ensures NotCondition(feature, u, true, 0)
  {
    assert "" + u == u;
    LowerKeyword("not");
    KeywordText("not", "", " " + p, u);
    assert ParseNot(feature, u, 3, 0).None?;
    NotKeywordNone(feature, u, ParseCondition(feature, u, true, 0));
  }

  lemma NotKeywordNone(feature: FeatureParser, u: string, c: Option<Parsed>)
    requires HeadIs(u, 0, "not") && ParseNot(feature, u, 3, 0).None? && c == ParseCondition(feature, u, true, 0)
    ensures c.None?
  {
    assert Open(true);
  }

  lemma NotConditionIsTyped(feature: FeatureParser, u: string)
    requires u != "" && NotCondition(feature, u, true, 0)
    ensures ParseTrimmed(feature, u) == ParseTyped(feature, u)
  {
    assert Open(true);
  }

  /** The text of a query with a media type. */
  function TypedText(show: TestPrinter, q: Query): string
    requires q.Typed?
  {
    (if q.negated then "not " else if q.only then "only " else "") + Lower(q.mediaType) + TailText(show, q.tail)
  }

  lemma TypedReads(via: TestRules, q: Query, u: string)
    requires Suits(via) && q.Typed? && LegalTail(via.legal, q.tail) && !(q.negated && q.only)
    requires IsIdentText(q.mediaType) && |q.mediaType| < 64 && !IsReserved(q.mediaType)
    requires u == TypedText(via.show, q)
    ensures ParseTrimmed(via.feature, u) == q
  {
    var p := q.mediaType + TailText(via.show, q.tail);
    MediaTypeReads(via, q, p);
    TailIsSpaced(via.show, q.tail);
    TypeIsWord(q.mediaType, TailText(via.show, q.tail), p);
    PrefixText(via.show, q, p);
    if q.negated {
      PrefixReads(via.feature, "not", q.mediaType, p, u);
    } else if q.only {
      PrefixReads(via.feature, "only", q.mediaType, p, u);
    } else {
      NoPrefixReads(via.feature, q, p);
    }
    TypedNotEmpty(via.show, q);
    NotConditionIsTyped(via.feature, u);
  }

  lemma TailIsSpaced(show: TestPrinter, tail: Option<Node>)
    ensures TailText(show, tail) == "" || TailText(show, tail)[0] == ' '
  {
  }

  lemma TypedNotEmpty(show: TestPrinter, q: Query)
    requires q.Typed? && q.mediaType != ""
    ensures TypedText(show, q) != ""
  {
  }

  lemma PrefixText(show: TestPrinter, q: Query, p: string)
    requires q.Typed? && IsIdentText(q.mediaType) && p == q.mediaType + TailText(show, q.tail)
    ensures TypedText(show, q) == if q.negated then "not" + (" " + p) else if q.only then "only" + (" " + p) else p
  {
    assert Lower(q.mediaType) == q.mediaType;
    var tail := TailText(show, q.tail);
    assert "not " == "not" + " " && "only " == "only" + " ";
    Regrouped("not", " ", q.mediaType, tail);
    Regrouped("only", " ", q.mediaType, tail);
    Regrouped("", "", q.mediaType, tail);
  }

  lemma Regrouped(a: string, b: string, c: string, d: string)
    ensures (a + b) + c + d == a + (b + (c + d)) && "" + c + d == c + d
  {
  }

  lemma NoPrefixReads(feature: FeatureParser, q: Query, p: string)
    requires q.Typed? && !q.negated && !q.only && StartsWithWord(p, q.mediaType) && Lower(q.mediaType) != "not"
    requires ReadIdent(p, 64) == Some(q.mediaType) && !IsReserved(q.mediaType)
    requires ParseMediaType(feature, p, false, false) == q
    ensures ParseTyped(feature, p) == q && NotCondition(feature, p, true, 0)
  {
    WordNoCondition(feature, p, q.mediaType, true, 0);
    NoCall(p, q.mediaType);
    WsOf(p);
  }
}
