/**
 Feature tests survive being written and read again, and what stands inside their parentheses is not
 mistaken for a condition.
 */
module MediaFeatures {
  import opened Common
  import opened Strings
  import opened Locks
  import opened MediaSyntax
  import opened MediaText
  import opened MediaScan
  import opened MediaValues

  // ---------- operators ----------

  lemma OpReads(op: Op, rest: string)
    requires rest == "" || rest[0] != '='
    ensures var u := OpText(op) + rest; u != "" && IsOpChar(u[0]) && ReadOp(u) == op && AfterOp(u) == rest
  {
    var u := OpText(op) + rest;
    if |OpText(op)| == 1 {
      assert u[1..] == rest;
      assert |u| > 1 ==> u[1] == rest[0];
    } else {
      assert u[2..] == rest;
    }
  }

  lemma OpFound(op: Op, rest: string)
    ensures OpAt(OpText(op) + rest, 0) == 0
    ensures ColonAt(OpText(op) + rest, 0) == |OpText(op)| + ColonAt(rest, 0)
    ensures Closed(OpText(op))
  {
    var u := OpText(op) + rest;
    if |OpText(op)| == 1 {
      assert u[1..] == rest;
    } else {
      assert u[1..] == "=" + rest && ("=" + rest)[1..] == rest;
    }
    PlainClosed(OpText(op));
  }

  lemma SpaceQuiet()
    ensures Quiet(" ") && Closed(" ")
  {
    QuietChars(" ");
    PlainClosed(" ");
  }

  // ---------- reading the three kinds of tests ----------

  lemma NameFacts(host: Host, def: Def)
    requires LegalDef(host, def)
    ensures IsTight(def.name) && IsWord(def.name) && Quiet(def.name) && Closed(def.name)
    ensures Trim(def.name) == def.name && ReadIdent(def.name, 40) == Some(def.name) && IdentLen(def.name) == |def.name|
  {
    IdentIsTight(def.name);
    WordIsQuiet(def.name);
    TightTrims(def.name);
    IdentReadsAlone(def.name, 40);
  }

  lemma PresentReads(host: Host, view: Viewport, def: Def)
    requires LegalDef(host, def)
    ensures ParseFeature(host, view, def.name) == Some(Feature(def, Present))
  {
    NameFacts(host, def);
    QuietAlone(def.name);
    assert def.name[|def.name|..] == "";
  }

  lemma SideReads(host: Host, def: Def, text: string)
    requires LegalDef(host, def) && CanCompare(def) && Trim(text) == def.name
    ensures SideFeature(host, text) == Some(def)
  {
    NameFacts(host, def);
  }

  /** The name with its prefix, and how the parser takes them apart. */
  lemma BoundReads(host: Host, def: Def, bound: Bound, b: string)
    requires LegalDef(host, def) && b == BoundText(bound) + def.name
    requires bound == Exactly ==> !StartsWith(def.name, "min-") && !StartsWith(def.name, "max-")
    ensures IsIdentText(b)
    ensures bound == AtLeast ==> StartsWith(b, "min-") && b[4..] == def.name
    ensures bound == AtMost ==> !StartsWith(b, "min-") && StartsWith(b, "max-") && b[4..] == def.name
    ensures bound == Exactly ==> b == def.name
  {
    match bound
    case Exactly =>
    case AtLeast => assert b[..4] == "min-";
    case AtMost => assert b[..4] == "max-" && b[1] == 'a'; assert b[..4][1] != "min-"[1];
  }

  lemma ByColon(host: Host, view: Viewport, t: string)
    requires Trim(t) == t && ColonAt(t, 0) < |t|
    ensures ParseFeature(host, view, t) == ParsePlain(host, view, t, ColonAt(t, 0))
  {
  }

  lemma ByCompare(host: Host, view: Viewport, t: string, left: string, op: Op, right: string)
    requires Trim(t) == t && ColonAt(t, 0) == |t| && OpAt(t, 0) == |left| < |t| && t[..|left|] == left
    requires var u := t[|left|..]; ReadOp(u) == op && AfterOp(u) == right && OpAt(right, 0) == |right|
    ensures ParseFeature(host, view, t) == ParseCompare(host, view, left, op, right)
  {
  }

  lemma ByRange(host: Host, view: Viewport, t: string, left: string, op1: Op, mid: string, op2: Op, right: string)
    requires Trim(t) == t && ColonAt(t, 0) == |t| && RangeCutIs(t, left, op1, mid, op2, right)
    ensures ParseFeature(host, view, t) == ParseRange(host, view, left, op1, mid, op2, right)
  {
  }

  /** How the parser cuts a text with two comparisons. */
  ghost predicate RangeCutIs(t: string, left: string, op1: Op, mid: string, op2: Op, right: string) {
    OpAt(t, 0) == |left| < |t| && t[..|left|] == left &&
    var u := t[|left|..];
    ReadOp(u) == op1 && RestCutIs(AfterOp(u), mid, op2, right)
  }

  ghost predicate RestCutIs(w: string, mid: string, op2: Op, right: string) {
    OpAt(w, 0) == |mid| < |w| && w[..|mid|] == mid && ReadOp(w[|mid|..]) == op2 && AfterOp(w[|mid|..]) == right
  }

  lemma PlainReads(host: Host, view: Viewport, def: Def, bound: Bound, v: Value)
    requires LegalDef(host, def) && LegalTest(host, def, Plain(bound, v))
    ensures ParseFeature(host, view, TestText(host, def, Plain(bound, v))) == Some(Feature(def, Plain(bound, v)))
  {
    var b, vt := BoundText(bound) + def.name, ValueText(host, def.kind, v);
    var t := TestText(host, def, Plain(bound, v));
    BoundReads(host, def, bound, b);
    ValueShape(host, def, v);
    PlainCut(b, vt, t);
    ByColon(host, view, t);
    TightTrims(vt);
    ValueRoundTrip(host, def, view, v, " " + vt);
    PlainParts(host, view, def, bound, v, t, b);
  }

  lemma PlainCut(b: string, vt: string, t: string)
    requires IsIdentText(b) && IsTight(vt) && t == b + ": " + vt
    ensures IsTight(t) && Trim(t) == t && ColonAt(t, 0) == |b| < |t| && t[..|b|] == b && t[|b| + 1..] == " " + vt
  {
    ColonText(b, vt, t);
    IdentIsTight(b);
    WordIsQuiet(b);
    Hears(b, ":" + (" " + vt));
    ColonFirst(":" + (" " + vt));
    TightTrims(t);
  }

  lemma ColonText(b: string, vt: string, t: string)
    requires b != "" && vt != "" && t == b + ": " + vt
    ensures t == b + (":" + (" " + vt)) && |b| < |t| && t[..|b|] == b && t[|b| + 1..] == " " + vt
    ensures t[0] == b[0] && t[|t| - 1] == vt[|vt| - 1]
  {
    var u := ":" + (" " + vt);
    assert u == ": " + vt;
    Halves(b, u, t);
    Halves(":", " " + vt, u);
    assert t[|b| + 1..] == t[|b|..][1..];
  }

  lemma ColonFirst(u: string)
    requires u != "" && u[0] == ':'
    ensures ColonAt(u, 0) == 0
  {
  }

  lemma Halves(a: string, u: string, t: string)
    requires t == a + u
    ensures |t| == |a| + |u| && t[..|a|] == a && t[|a|..] == u
    ensures a != "" ==> t[0] == a[0]
    ensures u != "" ==> t[|t| - 1] == u[|u| - 1]
  {
  }

  lemma TestClosed(b: string, vt: string)
    requires IsIdentText(b) && Closed(vt)
    ensures Closed(b + ": " + vt)
  {
    IdentIsTight(b);
    WordIsQuiet(b);
    PlainClosed(": ");
    ClosedConcat(b, ": ");
    ClosedConcat(b + ": ", vt);
  }

  lemma PlainParts(host: Host, view: Viewport, def: Def, bound: Bound, v: Value, t: string, b: string)
    requires LegalDef(host, def) && b == BoundText(bound) + def.name && |b| < 40 && (bound != Exactly ==> CanCompare(def))
    requires bound == Exactly ==> !StartsWith(def.name, "min-") && !StartsWith(def.name, "max-")
    requires |b| < |t| && t[..|b|] == b && ParseValue(host, def, view, t[|b| + 1..]) == Some(v)
    ensures ParsePlain(host, view, t, |b|) == Some(Feature(def, Plain(bound, v)))
  {
    BoundReads(host, def, bound, b);
    PlainIs(host, view, t, b);
    BoundedParts(host, view, def, bound, v, t[|b| + 1..], b);
  }

  lemma PlainIs(host: Host, view: Viewport, t: string, b: string)
    requires IsIdentText(b) && |b| < 40 && |b| < |t| && t[..|b|] == b
    ensures ParsePlain(host, view, t, |b|) == ParseBounded(host, view, b, t[|b| + 1..])
  {
    IdentReadsAlone(b, 40);
    assert b[|b|..] == "" && SkipWs("") == "";
  }

  lemma BoundedParts(host: Host, view: Viewport, def: Def, bound: Bound, v: Value, text: string, b: string)
    requires LegalDef(host, def) && b == BoundText(bound) + def.name && (bound != Exactly ==> CanCompare(def))
    requires bound == Exactly ==> !StartsWith(def.name, "min-") && !StartsWith(def.name, "max-")
    requires ParseValue(host, def, view, text) == Some(v)
    ensures ParseBounded(host, view, b, text) == Some(Feature(def, Plain(bound, v)))
  {
    BoundReads(host, def, bound, b);
  }

  /** One comparison, cut where the parser cuts it. */
  lemma CompareCut(left: string, op: Op, right: string, t: string)
    requires t == left + (OpText(op) + right) && Quiet(left) && Quiet(right) && (right == "" || right[0] != '=')
    ensures ColonAt(t, 0) == |t| && OpAt(t, 0) == |left| < |t| && OpAt(right, 0) == |right|
    ensures t[..|left|] == left && IsOpChar(t[|left|..][0])
    ensures ReadOp(t[|left|..]) == op && AfterOp(t[|left|..]) == right
  {
    Hears(left, OpText(op) + right);
    OpFound(op, right);
    QuietAlone(right);
    OpReads(op, right);
    assert t[|left|..] == OpText(op) + right;
  }

  lemma CompareReads(host: Host, view: Viewport, def: Def, op: Op, v: Value)
    requires LegalDef(host, def) && LegalTest(host, def, Compare(op, v))
    ensures ParseFeature(host, view, TestText(host, def, Compare(op, v))) == Some(Feature(def, Compare(op, v)))
  {
    var vt := ValueText(host, def.kind, v);
    var t := TestText(host, def, Compare(op, v));
    NameFacts(host, def);
    ValueShape(host, def, v);
    CompareTextCut(def.name, op, vt, t);
    ByCompare(host, view, t, def.name + " ", op, " " + vt);
    CompareParts(host, view, def, op, v, vt);
  }

  lemma CompareTextCut(name: string, op: Op, vt: string, t: string)
    requires Quiet(name) && IsTight(name) && Quiet(vt) && IsTight(vt) && t == name + " " + OpText(op) + " " + vt
    ensures var left, right := name + " ", " " + vt;
            && Trim(t) == t && ColonAt(t, 0) == |t| && OpAt(t, 0) == |left| < |t| && t[..|left|] == left
            && IsOpChar(t[|left|..][0]) && ReadOp(t[|left|..]) == op && AfterOp(t[|left|..]) == right
            && OpAt(right, 0) == |right|
  {
    var left, right := name + " ", " " + vt;
    CompareText(name, OpText(op), vt, t);
    SpaceQuiet();
    QuietConcat(name, " ");
    QuietConcat(" ", vt);
    CompareCut(left, op, right, t);
    TightTrims(t);
  }

  lemma CompareText(a: string, op: string, b: string, t: string)
    requires a != "" && b != "" && t == a + " " + op + " " + b
    ensures t == (a + " ") + (op + (" " + b)) && t[0] == a[0] && t[|t| - 1] == b[|b| - 1]
  {
  }

  lemma CompareParts(host: Host, view: Viewport, def: Def, op: Op, v: Value, vt: string)
    requires LegalDef(host, def) && LegalTest(host, def, Compare(op, v)) && vt == ValueText(host, def.kind, v)
    ensures ParseCompare(host, view, def.name + " ", op, " " + vt) == Some(Feature(def, Compare(op, v)))
  {
    NameFacts(host, def);
    ValueShape(host, def, v);
    TightTrims(def.name);
    TightTrims(vt);
    SideReads(host, def, def.name + " ");
    ValueRoundTrip(host, def, view, v, " " + vt);
  }

  lemma CompareClosed(a: string, op: Op, b: string, t: string)
    requires Closed(a) && Closed(b) && t == a + " " + OpText(op) + " " + b
    ensures Closed(t)
  {
    SpaceQuiet();
    OpFound(op, "");
    ClosedConcat(a, " ");
    ClosedConcat(a + " ", OpText(op));
    ClosedConcat(a + " " + OpText(op), " ");
    ClosedConcat(a + " " + OpText(op) + " ", b);
  }

  lemma RangeReads(host: Host, view: Viewport, def: Def, low: Value, op1: Op, op2: Op, high: Value)
    requires LegalDef(host, def) && LegalTest(host, def, Range(low, op1, op2, high))
    ensures ParseFeature(host, view, TestText(host, def, Range(low, op1, op2, high))) ==
            Some(Feature(def, Range(low, op1, op2, high)))
  {
    var a, b := ValueText(host, def.kind, low), ValueText(host, def.kind, high);
    var t := TestText(host, def, Range(low, op1, op2, high));
    NameFacts(host, def);
    ValueShape(host, def, low);
    ValueShape(host, def, high);
    RangeCut(a, op1, def.name, op2, b, t);
    assert t[0] == a[0] && t[|t| - 1] == b[|b| - 1];
    TightTrims(t);
    ByRange(host, view, t, a + " ", op1, " " + def.name + " ", op2, " " + b);
    RangeParts(host, view, def, low, op1, op2, high, a, b);
  }

  lemma RangeParts(host: Host, view: Viewport, def: Def, low: Value, op1: Op, op2: Op, high: Value, a: string, b: string)
    requires LegalDef(host, def) && LegalTest(host, def, Range(low, op1, op2, high))
    requires a == ValueText(host, def.kind, low) && b == ValueText(host, def.kind, high)
    ensures ParseRange(host, view, a + " ", op1, " " + def.name + " ", op2, " " + b) ==
            Some(Feature(def, Range(low, op1, op2, high)))
  {
    NameFacts(host, def);
    ValueShape(host, def, low);
    ValueShape(host, def, high);
    TightTrims(def.name);
    TightTrims(a);
    TightTrims(b);
    SideReads(host, def, " " + def.name + " ");
    ValueRoundTrip(host, def, view, low, a + " ");
    ValueRoundTrip(host, def, view, high, " " + b);
  }

  /** Two comparisons, cut where the parser cuts them. */
  lemma RangeCut(a: string, op1: Op, name: string, op2: Op, b: string, t: string)
    requires Quiet(a) && Quiet(name) && Quiet(b)
    requires t == a + " " + OpText(op1) + " " + name + " " + OpText(op2) + " " + b
    ensures ColonAt(t, 0) == |t| && RangeCutIs(t, a + " ", op1, " " + name + " ", op2, " " + b)
  {
    var left, mid, right := a + " ", " " + name + " ", " " + b;
    var rest := mid + (OpText(op2) + right);
    RangeText(a, op1, name, op2, b, t);
    SpaceQuiet();
    QuietConcat(a, " ");
    QuietConcat(" ", name);
    QuietConcat(" " + name, " ");
    QuietConcat(" ", b);
    CompareCut(mid, op2, right, rest);
    FirstCut(left, op1, rest, t);
  }

  lemma RangeText(a: string, op1: Op, name: string, op2: Op, b: string, t: string)
    requires t == a + " " + OpText(op1) + " " + name + " " + OpText(op2) + " " + b
    ensures t == (a + " ") + (OpText(op1) + ((" " + name + " ") + (OpText(op2) + (" " + b))))
  {
  }

  lemma FirstCut(left: string, op: Op, rest: string, t: string)
    requires t == left + (OpText(op) + rest) && Quiet(left) && rest != "" && rest[0] != '='
    ensures ColonAt(t, 0) == |left| + |OpText(op)| + ColonAt(rest, 0) && OpAt(t, 0) == |left| < |t|
    ensures t[..|left|] == left && IsOpChar(t[|left|..][0]) && ReadOp(t[|left|..]) == op && AfterOp(t[|left|..]) == rest
  {
    Hears(left, OpText(op) + rest);
    OpFound(op, rest);
    OpReads(op, rest);
    assert t[|left|..] == OpText(op) + rest;
  }

  /** The text of a legal test is tight and balanced. */
  lemma TestShape(host: Host, def: Def, test: Test)
    requires LegalDef(host, def) && LegalTest(host, def, test)
    ensures IsTight(TestText(host, def, test)) && Closed(TestText(host, def, test))
  {
    NameFacts(host, def);
    match test
    case Present =>
    case Plain(bound, v) =>
      ValueShape(host, def, v);
      BoundReads(host, def, bound, BoundText(bound) + def.name);
      TestClosed(BoundText(bound) + def.name, ValueText(host, def.kind, v));
      PlainCut(BoundText(bound) + def.name, ValueText(host, def.kind, v), TestText(host, def, test));
    case Compare(op, v) =>
      ValueShape(host, def, v);
      CompareClosed(def.name, op, ValueText(host, def.kind, v), TestText(host, def, test));
    case Range(low, op1, op2, high) =>
      var a, b := ValueText(host, def.kind, low), ValueText(host, def.kind, high);
      ValueShape(host, def, low);
      ValueShape(host, def, high);
      CompareClosed(a, op1, def.name, a + " " + OpText(op1) + " " + def.name);
      CompareClosed(a + " " + OpText(op1) + " " + def.name, op2, b, TestText(host, def, test));
  }

  /** Every legal test reads back. */
  lemma TestReads(host: Host, view: Viewport, def: Def, test: Test)
    requires LegalDef(host, def) && LegalTest(host, def, test)
    ensures ParseFeature(host, view, TestText(host, def, test)) == Some(Feature(def, test))
  {
    match test
    case Present => PresentReads(host, view, def);
    case Plain(bound, v) => PlainReads(host, view, def, bound, v);
    case Compare(op, v) => CompareReads(host, view, def, op, v);
    case Range(low, op1, op2, high) => RangeReads(host, view, def, low, op1, op2, high);
  }

  // ---------- no condition ----------

  /** What is not a complete condition. */
  ghost predicate NotCondition(feature: FeatureParser, t: string, allowOr: bool, depth: nat) {
    forall key {:trigger Open(key)} :: Key(key) ==>
      var r := ParseCondition(feature, t, allowOr, depth);
      r.Some? ==> SkipWs(t[r.value.read..]) != ""
  }

  /** A text that begins with a word, and behind it nothing, a space or a colon. */
  ghost predicate StartsWithWord(t: string, w: string) {
    IsWord(w) && StartsWith(t, w) && (|t| == |w| || t[|w|] == ' ' || t[|w|] == ':')
  }

  lemma WordNoParens(feature: FeatureParser, t: string, w: string, depth: nat)
    requires StartsWithWord(t, w)
    ensures ParseInParens(feature, t, depth).None? && ParseInParens(feature, " " + t, depth).None?
  {
    NoCall(t, w);
    assert t[0..] == t && WsLen(t) == 0;
    assert ParseInParens(feature, t, depth).None?;
    WsOf(t);
    assert (" " + t)[1..] == t;
    assert ParseInParens(feature, " " + t, depth).None?;
  }

  /** Neither a parenthesis nor a function name begins the text. */
  lemma NoCall(t: string, w: string)
    requires StartsWithWord(t, w)
    ensures t != "" && t[0] != '(' && !IsSpace(t[0]) && (IdentLen(t) < |t| ==> t[IdentLen(t)] != '(')
  {
    assert IsWordChar(w[0]) && t[0] == t[..|w|][0];
    var n := IdentLen(t);
    if n < |t| {
      assert n <= |w| by {
        if |w| < |t| { assert !IsIdentChar(t[|w|]); }
      }
      if n < |w| { assert t[n] == t[..|w|][n] && IsWordChar(w[n]); }
    }
  }

  /** A word that is not the keyword `not` does not begin a condition. */
  lemma WordNoCondition(feature: FeatureParser, t: string, w: string, allowOr: bool, depth: nat)
    requires StartsWithWord(t, w) && Lower(w) != "not"
    ensures NotCondition(feature, t, allowOr, depth)
  {
    assert IsWordChar(w[0]) && t[0] == t[..|w|][0] && t[0..] == t && WsLen(t) == 0;
    if KeywordAt(t, "not") { NotWord(t, w); }
    if depth <= MAX_DEPTH { WordNoParens(feature, t, w, depth + 1); }
    assert ParseCondition(feature, t, allowOr, depth).None?;
  }

  lemma NotWord(t: string, w: string)
    requires StartsWithWord(t, w) && KeywordAt(t, "not")
    ensures Lower(w) == "not"
  {
    assert t[..|w|] == w;
    forall i | 0 <= i < |w| ensures t[i] == w[i] && IsWordChar(t[i]) { assert t[..|w|][i] == w[i]; }
    assert |t| > 3 ==> !IsWordChar(t[3]);
    assert |w| <= 3;
    forall i | 0 <= i < 3 ensures LowerChar(t[i]) == "not"[i] { assert Lower(t[..3])[i] == LowerChar(t[..3][i]); }
    assert |w| < |t| ==> t[|w|] == ' ' || t[|w|] == ':';
    assert |w| == 3;
    assert t[..3] == w;
  }

  /** A condition of one operand, when neither keyword follows. */
  lemma OneOperand(feature: FeatureParser, t: string, allowOr: bool, depth: nat, p: nat)
    requires depth <= MAX_DEPTH && WsLen(t) == 0 && !KeywordAt(t, "not")
    requires var r := ParseInParens(feature, t, depth + 1); r.Some? ==> r.value.read == p
    requires p <= |t| && !KeywordAt(SkipWs(t[p..]), "and") && !KeywordAt(SkipWs(t[p..]), "or")
    ensures var r := ParseInParens(feature, t, depth + 1);
            ParseCondition(feature, t, allowOr, depth) == if r.None? then None else Some(Parsed(r.value.node, p))
  {
    assert t[0..] == t;
    var r := ParseInParens(feature, t, depth + 1);
    if r.Some? {
      assert ParseRest(feature, t, r.value.node, p, allowOr, depth) == Some(Parsed(r.value.node, p));
    }
    assert ParseFirst(feature, t, 0, allowOr, depth) == if r.None? then None else Some(Parsed(r.value.node, p));
    assert ParseCondition(feature, t, allowOr, depth) == ParseFirst(feature, t, 0, allowOr, depth);
  }

  /** A calc() in front is read as an unknown function, but a comparison is left over behind it. */
  lemma CalcNoCondition(feature: FeatureParser, t: string, w: string, rest: string, depth: nat)
    requires IsWord(w) && t == "calc(" + w + ")" + (" " + rest) && rest != "" && IsOpChar(rest[0])
    ensures NotCondition(feature, t, true, depth)
  {
    var head := "calc(" + w + ")";
    CalcHead(head, w, rest, t);
    if depth <= MAX_DEPTH {
      if depth < MAX_DEPTH { CalcInParens(feature, t, w, rest, depth + 1); }
      LeftOver(feature, t, rest, depth, |head|);
    } else {
      assert ParseCondition(feature, t, true, depth).None?;
    }
  }

  lemma CalcHead(head: string, w: string, rest: string, t: string)
    requires head == "calc(" + w + ")" && t == head + (" " + rest)
    ensures |head| <= |t| && t[|head|..] == " " + rest && WsLen(t) == 0 && !KeywordAt(t, "not")
  {
    Halves(head, " " + rest, t);
    assert t[0] == 'c';
    NoKeyword(t, "not");
  }

  lemma LeftOver(feature: FeatureParser, t: string, rest: string, depth: nat, p: nat)
    requires depth <= MAX_DEPTH && WsLen(t) == 0 && !KeywordAt(t, "not") && p <= |t| && t[p..] == " " + rest
    requires var r := ParseInParens(feature, t, depth + 1); r.Some? ==> r.value.read == p
    requires rest != "" && IsOpChar(rest[0])
    ensures NotCondition(feature, t, true, depth)
  {
    WsOf(rest);
    NoKeyword(rest, "and");
    NoKeyword(rest, "or");
    OneOperand(feature, t, true, depth, p);
    assert NotCondition(feature, t, true, depth);
  }

  lemma CalcInParens(feature: FeatureParser, t: string, w: string, rest: string, depth: nat)
    requires IsWord(w) && t == "calc(" + w + ")" + (" " + rest) && depth <= MAX_DEPTH
    ensures var r := ParseInParens(feature, t, depth); r.Some? ==> r.value.read == |"calc(" + w + ")"|
  {
    assert t[0] == 'c' && t[0..] == t && WsLen(t) == 0;
    assert t == "calc" + ("(" + w + ")" + (" " + rest));
    IdentReads("calc", "(" + w + ")" + (" " + rest), 40);
    WordIsQuiet(w);
    assert t[5..] == w + (")" + (" " + rest));
    GroupCloses(w, " " + rest);
  }
}
