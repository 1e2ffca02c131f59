/**
 A list of media queries without calc() reads the same on every viewport, so that its serialization, wherever
 it was made, matches on the same devices and viewports.
 */
module MediaViewports {
  import opened Common
  import opened Strings
  import opened Locks
  import opened MediaSyntax
  import opened MediaText
  import opened MediaScan
  import opened MediaEval
  import opened MediaShape
  import opened MediaLists

  /** No calc() stands anywhere in the text. */
  predicate NoCalc(u: string) {
    u == "" || (!StartsWithAnyCase(u, "calc(") && NoCalc(u[1..]))
  }

  lemma {:induction false} NoCalcDrop(u: string, a: nat)
    requires NoCalc(u) && a <= |u|
    ensures NoCalc(u[a..])
    decreases a
  {
    if a == 0 {
      assert u[0..] == u;
    } else {
      NoCalcDrop(u[1..], a - 1);
      assert u[1..][a - 1..] == u[a..];
    }
  }

  lemma {:induction false} NoCalcTake(u: string, b: nat)
    requires NoCalc(u) && b <= |u|
    ensures NoCalc(u[..b])
    decreases b
  {
    if b > 0 {
      NoCalcTake(u[1..], b - 1);
      assert u[1..][..b - 1] == u[..b][1..];
      assert b >= 5 ==> u[..b][..5] == u[..5];
    }
  }

  lemma NoCalcSlice(u: string, a: nat, b: nat)
    requires NoCalc(u) && a <= b <= |u|
    ensures NoCalc(u[a..b])
  {
    NoCalcTake(u, b);
    NoCalcDrop(u[..b], a);
    assert u[..b][a..] == u[a..b];
  }

  lemma NoCalcTrim(u: string)
    requires NoCalc(u)
    ensures NoCalc(Trim(u)) && NoCalc(SkipWs(u))
  {
    NoCalcDrop(u, WsLen(u));
    NoCalcTake(SkipWs(u), |Trim(u)|);
    assert SkipWs(u)[..|Trim(u)|] == Trim(u);
  }

  // ---------- values and feature tests ----------

  lemma QuantitySame(host: Host, kind: Kind, v: Viewport, w: Viewport, s: string)
    requires NoCalc(s)
    ensures ParseQuantity(host, kind, v, s) == ParseQuantity(host, kind, w, s)
  {
  }

  lemma ValueSame(host: Host, def: Def, v: Viewport, w: Viewport, text: string)
    requires NoCalc(text)
    ensures ParseValue(host, def, v, text) == ParseValue(host, def, w, text)
  {
    NoCalcTrim(text);
    QuantitySame(host, def.kind, v, w, Trim(text));
  }

  lemma RangeSame(host: Host, v: Viewport, w: Viewport, left: string, op1: Op, mid: string, op2: Op, right: string)
    requires NoCalc(left) && NoCalc(right)
    ensures ParseRange(host, v, left, op1, mid, op2, right) == ParseRange(host, w, left, op1, mid, op2, right)
  {
    var def := SideFeature(host, mid);
    if def.Some? {
      ValueSame(host, def.value, v, w, left);
      ValueSame(host, def.value, v, w, right);
    }
  }

  lemma CompareSame(host: Host, v: Viewport, w: Viewport, left: string, op: Op, right: string)
    requires NoCalc(left) && NoCalc(right)
    ensures ParseCompare(host, v, left, op, right) == ParseCompare(host, w, left, op, right)
  {
    var def, other := SideFeature(host, left), SideFeature(host, right);
    if def.Some? {
      ValueSame(host, def.value, v, w, right);
    } else if other.Some? {
      ValueSame(host, other.value, v, w, left);
    }
  }

  lemma ComparisonsSame(host: Host, v: Viewport, w: Viewport, left: string, op1: Op, after1: string)
    requires NoCalc(left) && NoCalc(after1)
    ensures ParseComparisons(host, v, left, op1, after1) == ParseComparisons(host, w, left, op1, after1)
  {
    var p2 := OpAt(after1, 0);
    if p2 < |after1| {
      NoCalcTake(after1, p2);
      AfterOpNoCalc(after1, p2);
      RangeSame(host, v, w, left, op1, after1[..p2], ReadOp(after1[p2..]), AfterOp(after1[p2..]));
    } else {
      CompareSame(host, v, w, left, op1, after1);
    }
  }

  lemma AfterOpNoCalc(u: string, p: nat)
    requires NoCalc(u) && p < |u| && IsOpChar(u[p])
    ensures NoCalc(AfterOp(u[p..]))
  {
    NoCalcDrop(u, p);
    NoCalcDrop(u[p..], |u[p..]| - |AfterOp(u[p..])|);
  }

  lemma BoundedSame(host: Host, v: Viewport, w: Viewport, name: string, text: string)
    requires NoCalc(text)
    ensures ParseBounded(host, v, name, text) == ParseBounded(host, w, name, text)
  {
    forall def: Def ensures ParseValue(host, def, v, text) == ParseValue(host, def, w, text) {
      ValueSame(host, def, v, w, text);
    }
  }

  lemma PlainSame(host: Host, v: Viewport, w: Viewport, s: string, colon: nat)
    requires NoCalc(s) && colon < |s|
    ensures ParsePlain(host, v, s, colon) == ParsePlain(host, w, s, colon)
  {
    NoCalcDrop(s, colon + 1);
    var name := ReadIdent(s[..colon], 40);
    if name.Some? { BoundedSame(host, v, w, name.value, s[colon + 1..]); }
  }

  lemma OperatorSame(host: Host, v: Viewport, w: Viewport, s: string, p: nat)
    requires NoCalc(s) && p < |s| && IsOpChar(s[p])
    ensures ParseComparisons(host, v, s[..p], ReadOp(s[p..]), AfterOp(s[p..])) ==
            ParseComparisons(host, w, s[..p], ReadOp(s[p..]), AfterOp(s[p..]))
  {
    NoCalcTake(s, p);
    AfterOpNoCalc(s, p);
    ComparisonsSame(host, v, w, s[..p], ReadOp(s[p..]), AfterOp(s[p..]));
  }

  lemma FeatureSame(host: Host, v: Viewport, w: Viewport, text: string)
    requires NoCalc(text)
    ensures ParseFeature(host, v, text) == ParseFeature(host, w, text)
  {
    var s := Trim(text);
    var colon, p1 := ColonAt(s, 0), OpAt(s, 0);
    NoCalcTrim(text);
    if colon < |s| {
      PlainSame(host, v, w, s, colon);
    } else if p1 < |s| {
      OperatorSame(host, v, w, s, p1);
    }
  }

  // ---------- conditions ----------

  /** The two feature parsers agree on texts without calc(). */
  ghost predicate Agree(f: FeatureParser, g: FeatureParser) {
    forall key {:trigger Open(key)} :: Key(key) ==> forall s {:trigger f(s)} :: NoCalc(s) ==> f(s) == g(s)
  }

  ghost predicate Free(u: string) {
    forall key {:trigger Open(key)} :: Key(key) ==> NoCalc(u)
  }

  lemma FeaturesAgree(host: Host, v: Viewport, w: Viewport)
    ensures Agree(Features(host, v), Features(host, w))
  {
    forall s | NoCalc(s) ensures ParseFeature(host, v, s) == ParseFeature(host, w, s) { FeatureSame(host, v, w, s); }
  }

  lemma SameTest(f: FeatureParser, g: FeatureParser, s: string)
    requires Agree(f, g) && Free(s)
    ensures f(s) == g(s)
  {
    assert Open(true);
  }

  lemma FreeSlice(u: string, a: nat, b: nat)
    requires Free(u) && a <= b <= |u|
    ensures Free(u[a..b]) && (b == |u| ==> Free(u[a..]))
  {
    assert Open(true);
    NoCalcSlice(u, a, b);
    if b == |u| { assert u[a..b] == u[a..]; }
  }

  // Each of these takes what the two parsers return.

  lemma {:induction false} InParensSame(f: FeatureParser, g: FeatureParser, u: string, p: nat, a: Option<Parsed>, b: Option<Parsed>)
    requires Agree(f, g) && Free(u) && a == ParseInParens(f, u, p) && b == ParseInParens(g, u, p)
    ensures a == b
    decreases MAX_DEPTH + 1 - p, |u| + 1
  {
    var at := WsLen(u);
    if p <= MAX_DEPTH && at < |u| && u[at] == '(' {
      var close := at + 1 + CloseParen(u[at + 1..], 1);
      var inner := u[at + 1..close];
      FreeSlice(u, at + 1, close);
      GroupSame(f, g, inner, PastClose(u, close), p,
                ParseGroup(f, inner, PastClose(u, close), p), ParseGroup(g, inner, PastClose(u, close), p));
    }
  }

  lemma {:induction false} GroupSame(f: FeatureParser, g: FeatureParser, inner: string, end: nat, p: nat,
                                     a: Option<Parsed>, b: Option<Parsed>)
    requires Agree(f, g) && Free(inner) && p <= MAX_DEPTH && 0 < end
    requires a == ParseGroup(f, inner, end, p) && b == ParseGroup(g, inner, end, p)
    ensures a == b
    decreases MAX_DEPTH + 1 - p, |inner|
  {
    ConditionSame(f, g, inner, true, p + 1, ParseCondition(f, inner, true, p + 1), ParseCondition(g, inner, true, p + 1));
    SameTest(f, g, inner);
  }

  lemma {:induction false} ConditionSame(f: FeatureParser, g: FeatureParser, u: string, allowOr: bool, p: nat,
                                         a: Option<Parsed>, b: Option<Parsed>)
    requires Agree(f, g) && Free(u) && a == ParseCondition(f, u, allowOr, p) && b == ParseCondition(g, u, allowOr, p)
    ensures a == b
    decreases MAX_DEPTH + 1 - p, 1
  {
    if p <= MAX_DEPTH {
      var s := WsLen(u);
      if KeywordAt(u[s..], "not") { NotSame(f, g, u, s + 3, p, a, b); } else { FirstSame(f, g, u, s, allowOr, p, a, b); }
    }
  }

  lemma {:induction false} NotSame(f: FeatureParser, g: FeatureParser, u: string, at: nat, p: nat,
                                   a: Option<Parsed>, b: Option<Parsed>)
    requires Agree(f, g) && Free(u) && at <= |u| && p <= MAX_DEPTH
    requires a == ParseNot(f, u, at, p) && b == ParseNot(g, u, at, p)
    ensures a == b
    decreases MAX_DEPTH + 1 - p, 0, |u| + 1
  {
    FreeSlice(u, at, |u|);
    var kid, end := NotParts(f, u, at, p, a);
    var other, end' := NotParts(g, u, at, p, b);
    InParensSame(f, g, u[at..], p + 1, kid, other);
  }

  lemma NotParts(f: FeatureParser, u: string, at: nat, p: nat, a: Option<Parsed>) returns (kid: Option<Parsed>, end: nat)
    requires at <= |u| && p <= MAX_DEPTH && a == ParseNot(f, u, at, p)
    ensures kid == ParseInParens(f, u[at..], p + 1) && end == if kid.Some? then at + kid.value.read else at
    ensures a == if kid.None? then None else Some(Parsed(Not(kid.value.node), end))
  {
    kid := ParseInParens(f, u[at..], p + 1);
    if kid.None? { return kid, at; }
    end := at + kid.value.read;
  }

  lemma {:induction false} FirstSame(f: FeatureParser, g: FeatureParser, u: string, at: nat, allowOr: bool, p: nat,
                                     a: Option<Parsed>, b: Option<Parsed>)
    requires Agree(f, g) && Free(u) && at <= |u| && p <= MAX_DEPTH
    requires a == ParseFirst(f, u, at, allowOr, p) && b == ParseFirst(g, u, at, allowOr, p)
    ensures a == b
    decreases MAX_DEPTH + 1 - p, 0, |u| + 2
  {
    var first, end := FirstParts(f, u, at, allowOr, p, a);
    var other, end' := FirstParts(g, u, at, allowOr, p, b);
    FreeSlice(u, at, |u|);
    InParensSame(f, g, u[at..], p + 1, first, other);
    assert end == end';
    if first.Some? { RestSame(f, g, u, first.value.node, end, allowOr, p, a, b); }
  }

  lemma {:induction false} RestSame(f: FeatureParser, g: FeatureParser, u: string, first: Node, at: nat, allowOr: bool, p: nat,
                                    a: Option<Parsed>, b: Option<Parsed>)
    requires Agree(f, g) && Free(u) && 0 < at <= |u| && p <= MAX_DEPTH
    requires a == ParseRest(f, u, first, at, allowOr, p) && b == ParseRest(g, u, first, at, allowOr, p)
    ensures a == b
    decreases MAX_DEPTH + 1 - p, 0, |u| + 1
  {
    MoreSame(f, g, u, at, "and", p, ParseMore(f, u, at, "and", p), ParseMore(g, u, at, "and", p));
    MoreSame(f, g, u, at, "or", p, ParseMore(f, u, at, "or", p), ParseMore(g, u, at, "or", p));
  }

  lemma {:induction false} MoreSame(f: FeatureParser, g: FeatureParser, u: string, at: nat, kw: string, p: nat,
                                    a: Option<(seq<Node>, nat)>, b: Option<(seq<Node>, nat)>)
    requires Agree(f, g) && Free(u) && at <= |u| && p <= MAX_DEPTH && kw != ""
    requires a == ParseMore(f, u, at, kw, p) && b == ParseMore(g, u, at, kw, p)
    ensures a == b
    decreases MAX_DEPTH + 1 - p, 0, |u| - at, 1
  {
    var q := MoreIsNext(f, u, at, kw, p, a);
    var r := MoreIsNext(g, u, at, kw, p, b);
    if q > at { NextSame(f, g, u, q, kw, p, a, b); }
  }

  lemma {:induction false} NextSame(f: FeatureParser, g: FeatureParser, u: string, at: nat, kw: string, p: nat,
                                    a: Option<(seq<Node>, nat)>, b: Option<(seq<Node>, nat)>)
    requires Agree(f, g) && Free(u) && at <= |u| && p <= MAX_DEPTH && kw != ""
    requires a == ParseNext(f, u, at, kw, p) && b == ParseNext(g, u, at, kw, p)
    ensures a == b
    decreases MAX_DEPTH + 1 - p, 0, |u| - at, 0
  {
    var next, end := NextParts(f, u, at, kw, p, a);
    var other, end' := NextParts(g, u, at, kw, p, b);
    FreeSlice(u, at, |u|);
    InParensSame(f, g, u[at..], p + 1, next, other);
    assert end == end';
    if next.Some? { MoreSame(f, g, u, end, kw, p, ParseMore(f, u, end, kw, p), ParseMore(g, u, end, kw, p)); }
  }

  /** The parts of what ParseFirst returns: the first operand, and where it ends. */
  lemma FirstParts(f: FeatureParser, u: string, at: nat, allowOr: bool, p: nat, a: Option<Parsed>)
    returns (first: Option<Parsed>, end: nat)
    requires at <= |u| && p <= MAX_DEPTH && a == ParseFirst(f, u, at, allowOr, p)
    ensures first == ParseInParens(f, u[at..], p + 1) && end == if first.Some? then at + first.value.read else at
    ensures first.None? ==> a.None?
    ensures first.Some? ==> 0 < end <= |u| && at < end && a == ParseRest(f, u, first.value.node, end, allowOr, p)
  {
    first := ParseInParens(f, u[at..], p + 1);
    if first.None? { return first, at; }
    end := at + first.value.read;
    RestBehind(f, u, at, end, allowOr, p, first.value, a);
  }

  lemma RestBehind(f: FeatureParser, u: string, at: nat, end: nat, allowOr: bool, p: nat, first: Parsed, a: Option<Parsed>)
    requires at <= |u| && p <= MAX_DEPTH && a == ParseFirst(f, u, at, allowOr, p)
    requires ParseInParens(f, u[at..], p + 1) == Some(first) && end == at + first.read && 0 < end <= |u|
    ensures a == ParseRest(f, u, first.node, end, allowOr, p)
  {
  }

  lemma NextParts(f: FeatureParser, u: string, at: nat, kw: string, p: nat, a: Option<(seq<Node>, nat)>)
    returns (next: Option<Parsed>, end: nat)
    requires at <= |u| && p <= MAX_DEPTH && a == ParseNext(f, u, at, kw, p)
    ensures next == ParseInParens(f, u[at..], p + 1) && end == if next.Some? then at + next.value.read else at
    ensures next.None? ==> a.None?
    ensures next.Some? ==> at < end <= |u| && a == ParseBehind(f, u, next.value.node, end, kw, p)
  {
    next := ParseInParens(f, u[at..], p + 1);
    if next.None? { return next, at; }
    end := at + next.value.read;
  }

  // ---------- queries and lists ----------

  lemma TailSame(f: FeatureParser, g: FeatureParser, rest: string, q: Query)
    requires Agree(f, g) && NoCalc(rest) && q.Typed?
    ensures ParseTail(f, rest, q) == ParseTail(g, rest, q)
  {
    if |rest| >= 3 {
      NoCalcDrop(rest, 3);
      ConditionSame(f, g, rest[3..], false, 0, ParseCondition(f, rest[3..], false, 0), ParseCondition(g, rest[3..], false, 0));
    }
  }

  lemma MediaTypeSame(f: FeatureParser, g: FeatureParser, s: string, negated: bool, only: bool)
    requires Agree(f, g) && NoCalc(s)
    ensures ParseMediaType(f, s, negated, only) == ParseMediaType(g, s, negated, only)
  {
    var t := ReadIdent(s, 64);
    if t.Some? && !IsReserved(t.value) {
      NoCalcDrop(s, IdentLen(s));
      NoCalcTrim(s[IdentLen(s)..]);
      TailSame(f, g, SkipWs(s[IdentLen(s)..]), Typed(t.value, negated, only, None));
    }
  }

  lemma TypedSame(f: FeatureParser, g: FeatureParser, s: string)
    requires Agree(f, g) && NoCalc(s)
    ensures ParseTyped(f, s) == ParseTyped(g, s)
  {
    var first := ReadIdent(s, 64);
    if first.Some? {
      var negated, only := first.value == "not", first.value == "only";
      var behind := if negated || only then s[IdentLen(s)..] else s;
      NoCalcDrop(s, IdentLen(s));
      NoCalcTrim(behind);
      MediaTypeSame(f, g, SkipWs(behind), negated, only);
    }
  }

  lemma QuerySame(host: Host, v: Viewport, w: Viewport, s: string)
    requires NoCalc(s)
    ensures ParseQuery(host, v, s) == ParseQuery(host, w, s)
  {
    var f, g := Features(host, v), Features(host, w);
    FeaturesAgree(host, v, w);
    NoCalcTrim(s);
    ConditionSame(f, g, Trim(s), true, 0, ParseCondition(f, Trim(s), true, 0), ParseCondition(g, Trim(s), true, 0));
    TypedSame(f, g, Trim(s));
  }

  lemma {:induction false} ListSame(host: Host, v: Viewport, w: Viewport, u: string)
    requires NoCalc(u)
    ensures ParseList(Queries(host, v), u) == ParseList(Queries(host, w), u)
    ensures SegmentsText(Queries(host, v), QueryTexts(host), u) == SegmentsText(Queries(host, w), QueryTexts(host), u)
    decreases |u|
  {
    if u != "" {
      var e := SegmentEnd(u, 0, 0);
      NoCalcTake(u, e);
      QuerySame(host, v, w, u[..e]);
      if e < |u| {
        NoCalcDrop(u, e + 1);
        ListSame(host, v, w, u[e + 1..]);
      }
    }
  }

  /** Written on the viewport `v`, a list without calc() matches on every device as it did before. */
  lemma ListRoundTripAnywhere(host: Host, v: Viewport, d: Device, query: string)
    requires Named(host.table) && CleanList(host, ParseList(Queries(host, v), SkipWs(query))) && NoCalc(query)
    ensures Matches(host, d, ListText(host, v, query)) <==> Matches(host, d, query)
  {
    NoCalcTrim(query);
    ListSame(host, v, d.view, SkipWs(query));
    ListRoundTrip(host, d, query);
  }

  /** The names of the source's table. */
  lemma FeaturesNamed()
    ensures Named(FEATURES)
  {
  }
}
