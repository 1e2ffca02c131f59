/**
 A list of media queries, written and read again, matches on the same devices.
 */
module MediaLists {
  import opened Common
  import opened Locks
  import opened MediaSyntax
  import opened MediaText
  import opened MediaScan
  import opened MediaFeatures
  import opened MediaConditions
  import opened MediaEval
  import opened MediaShape
  import opened MediaRoundTrip
  import opened MediaQueries
  import MediaValues

  // ---------- one query ----------

  /** Nothing in the query is only enclosed, and all numbers are printed exactly. */
  ghost predicate CleanQuery(host: Host, q: Query) {
    match q
    case Invalid => true
    case Condition(cond) => Clean(ExactTests(host), cond)
    case Typed(_, _, _, tail) => tail.Some? ==> Clean(ExactTests(host), tail.value)
  }

  lemma FeaturesYield(host: Host, view: Viewport)
    requires Named(host.table)
    ensures Yields(Features(host, view), ExactTests(host), LegalTests(host))
  {
    forall s | ParseFeature(host, view, s).Some?
      ensures Grants(ExactTests(host), LegalTests(host), ParseFeature(host, view, s).value) {
      TestParsed(host, view, s);
    }
  }

  /** A media type that the parser has read. */
  ghost predicate LegalType(q: Query)
    requires q.Typed?
  {
    IsIdentText(q.mediaType) && |q.mediaType| < 64 && !IsReserved(q.mediaType) && !(q.negated && q.only)
  }

  lemma TailParsed(feature: FeatureParser, check: TestChecker, legal: TestChecker, rest: string, q: Query)
    requires q.Typed? && q.tail.None? && LegalType(q) && Yields(feature, check, legal)
    requires var r := ParseTail(feature, rest, q); r.Typed? && (r.tail.Some? ==> Clean(check, r.tail.value))
    ensures var r := ParseTail(feature, rest, q); LegalType(r) && LegalTail(legal, r.tail)
  {
    if rest != "" { ConditionParsed(feature, check, legal, rest[3..], false, 0); }
  }

  lemma TypedParsed(feature: FeatureParser, check: TestChecker, legal: TestChecker, s: string)
    requires Yields(feature, check, legal)
    requires var r := ParseTyped(feature, s); r.Typed? && (r.tail.Some? ==> Clean(check, r.tail.value))
    ensures var r := ParseTyped(feature, s); LegalType(r) && LegalTail(legal, r.tail)
  {
    var first := ReadIdent(s, 64).value;
    var negated, only := first == "not", first == "only";
    var p := SkipWs(if negated || only then s[IdentLen(s)..] else s);
    ReadIsIdentText(p, 64);
    TailParsed(feature, check, legal, SkipWs(p[IdentLen(p)..]), Typed(ReadIdent(p, 64).value, negated, only, None));
  }

  /** What the parser returns, if it is clean, can be written so that it is read again. */
  lemma QueryParsed(host: Host, view: Viewport, text: string)
    requires Named(host.table) && CleanQuery(host, ParseQuery(host, view, text))
    ensures LegalQuery(host, ParseQuery(host, view, text))
  {
    var s, feature := Trim(text), Features(host, view);
    var q := ParseTrimmed(feature, s);
    FeaturesYield(host, view);
    match q
    case Invalid =>
    case Condition(cond) => ConditionParsed(feature, ExactTests(host), LegalTests(host), s, true, 0);
    case Typed(_, _, _, _) => TypedParsed(feature, ExactTests(host), LegalTests(host), s);
  }

  const NOT_ALL := Typed("all", true, false, None)

  /** The query that is read again. */
  function Back(q: Query): Query {
    match q
    case Invalid => NOT_ALL
    case Condition(cond) => Condition(Unwrapped(cond))
    case Typed(_, _, _, _) => q
  }

  lemma NotAllText(host: Host)
    ensures LegalQuery(host, NOT_ALL) && QueryText(host, NOT_ALL) == "not all"
  {
    assert Lower("all") == "all";
    assert "not " + "all" + "" == "not all";
  }

  /** The text of a query is read as that query, and neither stops the search for a comma nor loses white
      space at its ends. */
  lemma QueryTextReads(host: Host, view: Viewport, q: Query)
    requires Named(host.table) && LegalQuery(host, q)
    ensures var t := QueryText(host, q); ParseTrimmed(Features(host, view), t) == Back(q) && IsTight(t) && Closed(t)
  {
    match q
    case Invalid =>
      NotAllText(host);
      TypedTextReads(host, view, NOT_ALL);
    case Condition(cond) => ConditionTextReads(host, view, cond);
    case Typed(_, _, _, _) => TypedTextReads(host, view, q);
  }

  lemma ConditionTextReads(host: Host, view: Viewport, cond: Node)
    requires Named(host.table) && LegalCondition(LegalTests(host), cond, true, 0)
    ensures var t := NodeText(Tests(host), cond, 0);
            ParseTrimmed(Features(host, view), t) == Condition(Unwrapped(cond)) && IsTight(t) && Closed(t)
  {
    var via := Rules(host, view);
    RulesSuit(host, view);
    TopText(via, cond);
    WholeConditionReads(via, Unwrapped(cond), NodeText(via.show, cond, 0));
    ConditionShape(via, Unwrapped(cond), true, 0);
  }

  lemma TypedTextReads(host: Host, view: Viewport, q: Query)
    requires Named(host.table) && q.Typed? && LegalQuery(host, q)
    ensures var t := QueryText(host, q); ParseTrimmed(Features(host, view), t) == q && IsTight(t) && Closed(t)
  {
    var via := Rules(host, view);
    RulesSuit(host, view);
    assert QueryText(host, q) == TypedText(via.show, q);
    TypedReads(via, q, TypedText(via.show, q));
    TypedShape(via, q);
  }

  lemma TypedShape(via: TestRules, q: Query)
    requires Suits(via) && q.Typed? && LegalType(q) && LegalTail(via.legal, q.tail)
    ensures IsTight(TypedText(via.show, q)) && Closed(TypedText(via.show, q))
  {
    var p := q.mediaType + TailText(via.show, q.tail);
    PrefixText(via.show, q, p);
    IdentIsTight(q.mediaType);
    WordIsQuiet(q.mediaType);
    if q.tail.Some? {
      ConditionText(via, q.tail.value, false, 0, 1);
      ConditionShape(via, q.tail.value, false, 0);
      AppendShape(q.mediaType, " and ", Text(via.show, q.tail.value), p);
    } else {
      assert p == q.mediaType;
    }
    if q.negated || q.only { PrefixShape(if q.negated then "not" else "only", p, TypedText(via.show, q)); }
  }

  lemma PrefixShape(prefix: string, p: string, t: string)
    requires (prefix == "not" || prefix == "only") && t == prefix + (" " + p) && IsTight(p) && Closed(p)
    ensures IsTight(t) && Closed(t)
  {
    PlainClosed(prefix);
    AppendShape(prefix, " ", p, t);
  }

  lemma AppendShape(a: string, sep: string, b: string, t: string)
    requires IsTight(a) && IsTight(b) && Closed(a) && Closed(b) && t == a + (sep + b)
    requires sep == " " || sep == " and "
    ensures IsTight(t) && Closed(t)
  {
    PlainClosed(sep);
    ClosedConcat(sep, b);
    ClosedConcat(a, sep + b);
    assert t[0] == a[0] && t[|t| - 1] == b[|b| - 1];
  }

  lemma BackEval(host: Host, d: Device, q: Query)
    requires LegalQuery(host, q)
    ensures EvalQuery(d, Back(q)) == EvalQuery(d, q)
  {
    if q.Condition? { TopEval(LegalTests(host), Evaluator(d), q.cond); }
  }

  // ---------- the list ----------

  ghost predicate CleanList(host: Host, qs: seq<Query>) {
    forall i :: 0 <= i < |qs| ==> CleanQuery(host, qs[i])
  }

  /** The text of a query is read as that query, which matches the same. */
  ghost predicate ReadsBack(parse: QueryParser, show: QueryPrinter, d: Device, q: Query) {
    forall key {:trigger Open(key)} :: Key(key) ==>
      IsTight(show(q)) && Closed(show(q)) && parse(show(q)) == Back(q) && parse(" " + show(q)) == Back(q) &&
      EvalQuery(d, Back(q)) == EvalQuery(d, q)
  }

  ghost predicate ListReadsBack(parse: QueryParser, show: QueryPrinter, d: Device, u: string)
    decreases |u|
  {
    u == "" ||
    var e := SegmentEnd(u, 0, 0);
    ReadsBack(parse, show, d, parse(u[..e])) && (e + 1 < |u| ==> ListReadsBack(parse, show, d, u[e + 1..]))
  }

  lemma CleanReadsBack(host: Host, d: Device, s: string)
    requires Named(host.table) && CleanQuery(host, ParseQuery(host, d.view, s))
    ensures ReadsBack(Queries(host, d.view), QueryTexts(host), d, ParseQuery(host, d.view, s))
  {
    var q := ParseQuery(host, d.view, s);
    QueryParsed(host, d.view, s);
    LegalReadsBack(host, d, q);
  }

  lemma LegalReadsBack(host: Host, d: Device, q: Query)
    requires Named(host.table) && LegalQuery(host, q)
    ensures ReadsBack(Queries(host, d.view), QueryTexts(host), d, q)
  {
    QueryTextReads(host, d.view, q);
    PaddedReads(host, d.view, QueryText(host, q), Back(q));
    BackEval(host, d, q);
    Witnessed(Queries(host, d.view), QueryTexts(host), d, q, QueryText(host, q));
  }

  lemma PaddedReads(host: Host, view: Viewport, t: string, r: Query)
    requires IsTight(t) && ParseTrimmed(Features(host, view), t) == r
    ensures Queries(host, view)(t) == r && Queries(host, view)(" " + t) == r
  {
    TightTrims(t);
  }

  lemma Witnessed(parse: QueryParser, show: QueryPrinter, d: Device, q: Query, t: string)
    requires show(q) == t && IsTight(t) && Closed(t) && parse(t) == Back(q) && parse(" " + t) == Back(q)
    requires EvalQuery(d, Back(q)) == EvalQuery(d, q)
    ensures ReadsBack(parse, show, d, q)
  {
  }

  lemma {:induction false} CleanPartsReadBack(host: Host, parse: QueryParser, show: QueryPrinter, d: Device, u: string)
    requires forall s {:trigger parse(s)} :: CleanQuery(host, parse(s)) ==> ReadsBack(parse, show, d, parse(s))
    requires CleanList(host, ParseList(parse, u))
    ensures ListReadsBack(parse, show, d, u)
    decreases |u|
  {
    if u != "" {
      var e := SegmentEnd(u, 0, 0);
      var all := ParseList(parse, u);
      assert CleanQuery(host, all[0]);
      if e + 1 < |u| {
        var rest := ParseList(parse, u[e + 1..]);
        forall i | 0 <= i < |rest| ensures CleanQuery(host, rest[i]) { assert all[i + 1] == rest[i]; }
        CleanPartsReadBack(host, parse, show, d, u[e + 1..]);
      }
    }
  }

  lemma CleanListReadsBack(host: Host, d: Device, u: string)
    requires Named(host.table) && CleanList(host, ParseList(Queries(host, d.view), u))
    ensures ListReadsBack(Queries(host, d.view), QueryTexts(host), d, u)
  {
    var parse, show := Queries(host, d.view), QueryTexts(host);
    forall s | CleanQuery(host, parse(s)) ensures ReadsBack(parse, show, d, parse(s)) {
      CleanReadsBack(host, d, s);
    }
    CleanPartsReadBack(host, parse, show, d, u);
  }

  /** The list that is read again: a comma at the end has become a query of its own. */
  function ReadBack(parse: QueryParser, u: string): seq<Query>
    decreases |u|
  {
    if u == "" then []
    else
      var e := SegmentEnd(u, 0, 0);
      [Back(parse(u[..e]))] +
      (if e == |u| then [] else if e + 1 == |u| then [NOT_ALL] else ReadBack(parse, u[e + 1..]))
  }

  lemma LastSegment(parse: QueryParser, show: QueryPrinter, d: Device, pad: string, q: Query)
    requires IsPad(pad) && ReadsBack(parse, show, d, q)
    ensures ParseList(parse, pad + show(q)) == [Back(q)]
  {
    assert Open(true);
    var u := pad + show(q);
    PadClosed(pad, show(q));
    SegmentsApart(u, "");
    NothingBehind(show(q));
    assert u[..|u|] == u;
  }

  lemma PadClosed(pad: string, t: string)
    requires IsPad(pad) && Closed(t)
    ensures Closed(pad + t)
  {
    PlainClosed(pad);
    ClosedConcat(pad, t);
  }

  lemma FirstSegment(parse: QueryParser, show: QueryPrinter, d: Device, pad: string, q: Query, rest: string, u: string)
    requires IsPad(pad) && ReadsBack(parse, show, d, q) && u == pad + (show(q) + (", " + rest))
    ensures ParseList(parse, u) == [Back(q)] + ParseList(parse, " " + rest)
  {
    assert Open(true);
    PadClosed(pad, show(q));
    SegmentsApart(pad + show(q), " " + rest);
    CommaText(pad, show(q), rest, u);
    NothingBehind(show(q));
  }

  lemma CommaText(pad: string, t: string, rest: string, u: string)
    requires u == pad + (t + (", " + rest))
    ensures u == (pad + t) + ("," + (" " + rest)) && u[..|pad + t|] == pad + t && u[|pad + t| + 1..] == " " + rest
  {
    assert ", " + rest == "," + (" " + rest);
    assert u == (pad + t) + ("," + (" " + rest));
    Halves(pad + t, "," + (" " + rest), u);
    Halves(",", " " + rest, "," + (" " + rest));
    assert u[|pad + t| + 1..] == u[|pad + t|..][1..];
  }

  lemma NothingBehind(t: string)
    ensures t + "" == t && "" + t == t
  {
  }

  lemma {:induction false} SegmentsRead(parse: QueryParser, show: QueryPrinter, d: Device, pad: string, u: string)
    requires IsPad(pad) && u != "" && ListReadsBack(parse, show, d, u)
    requires ReadsBack(parse, show, d, NOT_ALL) && show(NOT_ALL) == "not all"
    ensures ParseList(parse, pad + SegmentsText(parse, show, u)) == ReadBack(parse, u)
    decreases |u|
  {
    var e := SegmentEnd(u, 0, 0);
    var q := parse(u[..e]);
    if e == |u| {
      NothingBehind(show(q));
      LastSegment(parse, show, d, pad, q);
    } else if e + 1 == |u| {
      assert ", not all" == ", " + show(NOT_ALL);
      FirstSegment(parse, show, d, pad, q, show(NOT_ALL), pad + SegmentsText(parse, show, u));
      LastSegment(parse, show, d, " ", NOT_ALL);
    } else {
      FirstSegment(parse, show, d, pad, q, SegmentsText(parse, show, u[e + 1..]), pad + SegmentsText(parse, show, u));
      SegmentsRead(parse, show, d, " ", u[e + 1..]);
    }
  }

  lemma TextBegins(parse: QueryParser, show: QueryPrinter, d: Device, u: string)
    requires u != "" && ListReadsBack(parse, show, d, u)
    ensures var t := SegmentsText(parse, show, u); t != "" && SkipWs(t) == t
  {
    assert Open(true);
    WsOf(SegmentsText(parse, show, u));
  }

  /** The two lists match the same. */
  lemma {:induction false} ReadBackMatches(parse: QueryParser, show: QueryPrinter, d: Device, u: string)
    requires ListReadsBack(parse, show, d, u)
    ensures AnyMatches(d, ReadBack(parse, u)) <==> AnyMatches(d, ParseList(parse, u))
    decreases |u|
  {
    if u != "" {
      var e := SegmentEnd(u, 0, 0);
      var q := parse(u[..e]);
      var rest := if e == |u| then [] else ParseList(parse, u[e + 1..]);
      var back := if e == |u| then [] else if e + 1 == |u| then [NOT_ALL] else ReadBack(parse, u[e + 1..]);
      if e + 1 < |u| { ReadBackMatches(parse, show, d, u[e + 1..]); }
      assert EvalQuery(d, NOT_ALL) == No;
      SameVerdict(parse, show, d, q);
      FirstOrRest(d, q, rest);
      FirstOrRest(d, Back(q), back);
    }
  }

  lemma SameVerdict(parse: QueryParser, show: QueryPrinter, d: Device, q: Query)
    requires ReadsBack(parse, show, d, q)
    ensures EvalQuery(d, Back(q)) == EvalQuery(d, q)
  {
    assert Open(true);
  }

  /** The serialization of a list matches exactly where the list does. */
  lemma ListRoundTrip(host: Host, d: Device, query: string)
    requires Named(host.table) && CleanList(host, ParseList(Queries(host, d.view), SkipWs(query)))
    ensures Matches(host, d, ListText(host, d.view, query)) <==> Matches(host, d, query)
  {
    var parse, show, u := Queries(host, d.view), QueryTexts(host), SkipWs(query);
    if u != "" {
      CleanListReadsBack(host, d, u);
      NotAllText(host);
      LegalReadsBack(host, d, NOT_ALL);
      TextBegins(parse, show, d, u);
      NothingBehind(SegmentsText(parse, show, u));
      SegmentsRead(parse, show, d, "", u);
      ReadBackMatches(parse, show, d, u);
    }
  }

  // ---------- writing twice ----------

  /** Writing a query, reading it and writing it again gives the same text, except that every round takes one
      more pair of parentheses off a condition that stands in two or more. */
  lemma WritingTwice(host: Host, q: Query)
    requires LegalQuery(host, q)
    ensures QueryText(host, Back(q)) == QueryText(host, q) <==>
            !(q.Condition? && Unwrapped(q.cond) != q.cond && Unwrapped(Unwrapped(q.cond)) != Unwrapped(q.cond))
  {
    match q
    case Invalid => NotAllText(host);
    case Typed(_, _, _, _) =>
    case Condition(cond) =>
      var via := Rules(host, Viewport(0.0, 0.0));
      var inner := Unwrapped(cond);
      TopText(via, cond);
      TopText(via, inner);
      if Unwrapped(inner) != inner { assert |Text(via.show, inner)| == |Text(via.show, Unwrapped(inner))| + 2; }
      if inner == cond { TwiceWrapped(cond); }
  }

  /** "(((width)))" is written as "((width))", and that, when it is read, as "(width)". */
  lemma ThreePairs(host: Host, def: Def)
    requires host.table != [] && host.table[0] == def && def.name == "width"
    ensures var q := Query.Condition(And([And([Feature(def, Present)])]));
            && LegalQuery(host, q) && QueryText(host, q) == "((width))"
            && QueryText(host, Back(q)) == "(width)" && QueryText(host, Back(Back(q))) == "(width)"
  {
    var show, unit, legal := Tests(host), Feature(def, Present), LegalTests(host);
    assert IsIdentText("width") && |"width"| == 5;
    assert LegalDef(host, def) && LegalTest(host, def, Present) && legal(def, Present);
    assert LegalUnit(legal, unit, 5) && LegalCondition(legal, unit, true, 4);
    assert NodeText(show, unit, 0) == NodeText(show, unit, 1) == NodeText(show, unit, 2) == "(width)";
    var one := And([unit]);
    assert NodeText(show, one, 0) == KidsText(show, [unit], " and ", 0) == "(width)" + "" == "(width)";
    assert NodeText(show, one, 1) == "(" + "(width)" + ")" == "((width))";
    assert NodeText(show, And([one]), 0) == KidsText(show, [one], " and ", 0) == "((width))" + "" == "((width))";
    assert LegalUnit(legal, one, 3) && LegalCondition(legal, one, true, 2);
    assert LegalUnit(legal, And([one]), 1);
  }

  lemma TwiceWrapped(n: Node)
    ensures n.And? && |n.kids| == 1 ==> n.kids[0] != n
  {
  }

  // ---------- other viewports ----------

  /** The serialization of any calc() expression says what it came to on the viewport where it was written, and comes
      to that on every other. */
  lemma CalcIsFrozen(host: Host, def: Def, v: Viewport, s: string, c: real, w: Viewport)
    requires ParseValue(host, def, v, s) == Some(Calculated(c)) && Exact(host, c)
    ensures ParseValue(host, def, w, ValueText(host, def.kind, Calculated(c))) == Some(Calculated(c))
  {
    MediaValues.ValueShape(host, def, Calculated(c));
    TightTrims(ValueText(host, def.kind, Calculated(c)));
    MediaValues.ValueRoundTrip(host, def, w, Calculated(c), ValueText(host, def.kind, Calculated(c)));
  }

  /** For instance a number with a unit: what is written on `v` matches elsewhere as the expression itself would
      exactly if the unit comes to the same there. */
  lemma TermIsFrozen(host: Host, def: Def, num: real, unit: string, v: Viewport, c: real, w: Viewport, e: real, s: string)
    requires Exact(host, num) && s == "calc(" + (host.show(num) + unit) + ")" && Exact(host, c)
    requires MediaValues.ComesTo(def.kind, v, num, unit, c) && MediaValues.ComesTo(def.kind, w, num, unit, e)
    ensures ParseValue(host, def, v, s) == Some(Calculated(c)) && ParseValue(host, def, w, s) == Some(Calculated(e))
    ensures ParseValue(host, def, w, ValueText(host, def.kind, Calculated(c))) == ParseValue(host, def, w, s) <==> c == e
  {
    TermReads(host, def, num, unit, v, c, s);
    TermReads(host, def, num, unit, w, e, s);
    CalcIsFrozen(host, def, v, s, c, w);
  }

  lemma TermReads(host: Host, def: Def, num: real, unit: string, v: Viewport, c: real, s: string)
    requires Exact(host, num) && s == "calc(" + (host.show(num) + unit) + ")"
    requires MediaValues.ComesTo(def.kind, v, num, unit, c)
    ensures ParseValue(host, def, v, s) == Some(Calculated(c))
  {
    assert s[0] == 'c' && s[|s| - 1] == ')';
    MediaValues.CalcReads(host, def.kind, v, num, unit, c);
    TightTrims(s);
  }

  predicate IsViewportUnit(unit: string) {
    unit == "vw" || unit == "vh" || unit == "vmin" || unit == "vmax"
  }

  /** What a viewport unit measures */
  function Measured(unit: string, v: Viewport): real {
    if unit == "vw" then v.w
    else if unit == "vh" then v.h
    else if unit == "vmin" then Min(v.w, v.h)
    else Max(v.w, v.h)
  }

  /** And a length in a viewport unit comes to the same on two viewports exactly if what the unit measures is the same
      on both. */
  lemma UnitIsFrozen(num: real, unit: string, v: Viewport, w: Viewport)
    requires IsViewportUnit(unit) && num != 0.0
    ensures LengthPx(num, unit, v) == LengthPx(num, unit, w) <==> Measured(unit, v) == Measured(unit, w)
  {
    var a, b := Measured(unit, v), Measured(unit, w);
    ViewportPx(num, unit, v, a);
    ViewportPx(num, unit, w, b);
    Scaled(num, a, b);
  }

  lemma ViewportPx(num: real, unit: string, v: Viewport, measured: real)
    requires IsViewportUnit(unit) && measured == Measured(unit, v)
    ensures LengthPx(num, unit, v) == Some(Percent(num, measured))
  {
    NotFixed(unit);
  }

  lemma NotFixed(unit: string)
    requires unit != "" && unit[0] == 'v'
    ensures unit != "px" && unit != "em" && unit != "rem" && unit != "ex" && unit != "ch" && unit != "cm" && unit != "mm"
    ensures unit != "q" && unit != "in" && unit != "pt" && unit != "pc"
  {
  }

  lemma Scaled(num: real, a: real, b: real)
    requires num != 0.0
    ensures Percent(num, a) == Percent(num, b) <==> a == b
  {
    if a != b { assert num * a - num * b == num * (a - b); }
  }
}
