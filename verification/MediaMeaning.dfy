/**
 What media queries mean, in the terms of Media Queries Level 4 (sections 2 and 3): a feature is an amount that is
 compared with others or a set of keywords that the device shows, and conditions combine truths.
 */
module MediaMeaning {
  import opened Common
  import opened MediaSyntax
  import opened MediaEval
  import opened MediaText
  import opened MediaShape

  // ---------- amounts ----------

  /** A number, or the quotient of something by zero.  Zero by zero is no more and no less than anything else. */
  datatype Quotient = Quotient(q: real) | Infinite | Undefined

  function Over(num: real, denom: real): Quotient {
    if denom != 0.0 then Quotient(num / denom) else if num == 0.0 then Undefined else Infinite
  }

  predicate Less(a: Quotient, b: Quotient) {
    (a.Quotient? && b.Quotient? && a.q < b.q) || (a.Quotient? && b.Infinite?)
  }

  /** One amount stands in this relation to another. */
  predicate Ordered(a: Quotient, op: Op, b: Quotient) {
    match op
    case LT => Less(a, b)
    case GT => Less(b, a)
    case LE => !Less(b, a)
    case GE => !Less(a, b)
    case EQ => !Less(a, b) && !Less(b, a)
  }

  /** Amounts as the features give them: only a denominator may be zero, and then nothing is negative. */
  predicate IsAmount(a: (real, real)) {
    a.1 >= 0.0 && (a.1 == 0.0 ==> a.0 >= 0.0)
  }

  function Product(a: real, b: real): real {
    a * b
  }

  lemma ProductKeepsOrder(a: real, b: real, c: real)
    requires c > 0.0
    ensures a < b <==> Product(a, c) < Product(b, c)
  {
    if a < b { assert (b - a) * c > 0.0; }
    if b < a { assert (a - b) * c > 0.0; }
  }

  lemma QuotientIs(a: real, b: real, x: real, y: real)
    requires b > 0.0
    ensures Product(a / b, b) == a && Product(Product(x, y), b) == Product(Product(x, b), y)
  {
  }

  /** Cross products compare as the quotients do. */
  lemma CrossLess(a: (real, real), b: (real, real))
    requires IsAmount(a) && IsAmount(b)
    ensures Product(a.0, b.1) < Product(b.0, a.1) <==> Less(Over(a.0, a.1), Over(b.0, b.1))
  {
    if a.1 > 0.0 && b.1 > 0.0 {
      var x, y := a.0 / a.1, b.0 / b.1;
      QuotientIs(a.0, a.1, x, b.1);
      QuotientIs(b.0, b.1, y, a.1);
      ProductKeepsOrder(Product(x, b.1), b.0, a.1);
      ProductKeepsOrder(x, y, b.1);
      assert Product(Product(x, b.1), a.1) == Product(Product(x, a.1), b.1) by { QuotientIs(a.0, a.1, x, b.1); }
    } else if a.1 == 0.0 {
      assert Product(b.0, a.1) == 0.0;
      NotNegative(a.0, b.1);
    } else {
      assert Product(a.0, b.1) == 0.0;
      if b.0 > 0.0 { ProductKeepsOrder(0.0, b.0, a.1); }
    }
  }

  lemma NotNegative(a: real, b: real)
    requires a >= 0.0 && b >= 0.0
    ensures Product(a, b) >= 0.0
  {
  }

  lemma CompareMeans(a: (real, real), op: Op, b: (real, real))
    requires IsAmount(a) && IsAmount(b)
    ensures CompareTo(a, op, b) == Truth(Ordered(Over(a.0, a.1), op, Over(b.0, b.1)))
  {
    CrossLess(a, b);
    CrossLess(b, a);
    assert a.0 * b.1 == Product(a.0, b.1) && b.0 * a.1 == Product(b.0, a.1);
  }

  // ---------- what a device has and shows ----------

  /** The device's amount of a feature */
  function AmountOf(d: Device, name: string): Quotient {
    if name == "width" || name == "inline-size" then Quotient(d.view.w)
    else if name == "height" || name == "block-size" then Quotient(d.view.h)
    else if name == "aspect-ratio" then Over(d.view.w, d.view.h)
    else if name == "device-width" then Quotient(d.width)
    else if name == "device-height" then Quotient(d.height)
    else if name == "device-aspect-ratio" then Over(d.width, d.height)
    else if name == "resolution" then Quotient(d.dppx)
    else if name == "color" then Quotient(d.color as real)
    else if name == "color-index" then Quotient(d.colorIndex as real)
    else if name == "monochrome" then Quotient(d.monochrome as real)
    else if name == "grid" && d.grid then Quotient(1.0)
    else Quotient(0.0)
  }

  predicate IsMeasured(name: string) {
    || name == "width" || name == "inline-size" || name == "height" || name == "block-size" || name == "aspect-ratio"
    || name == "device-width" || name == "device-height" || name == "device-aspect-ratio" || name == "resolution"
    || name == "color" || name == "color-index" || name == "monochrome" || name == "grid"
  }

  /** What can be said of a device: no size is negative. */
  predicate IsDevice(d: Device) {
    d.view.w >= 0.0 && d.view.h >= 0.0 && d.width >= 0.0 && d.height >= 0.0
  }

  lemma AmountIs(d: Device, name: string)
    requires IsDevice(d) && IsMeasured(name)
    ensures NumericCurrent(d, name).Some?
    ensures var a := NumericCurrent(d, name).value; IsAmount(a) && Over(a.0, a.1) == AmountOf(d, name)
    ensures name != "aspect-ratio" && name != "device-aspect-ratio" ==> NumericCurrent(d, name).value.1 == 1.0
  {
  }

  /** The device shows this keyword of a feature. */
  predicate Shows(d: Device, name: string, word: string) {
    if name == "any-pointer" then
      (word == "fine" && d.anyFine) || (word == "coarse" && d.anyCoarse) || (word == "none" && !d.anyFine && !d.anyCoarse)
    else ShowsOwn(d, name, word) || ShowsAlways(name, word)
  }

  /** Features that differ from device to device */
  predicate ShowsOwn(d: Device, name: string, word: string) {
    || (name == "orientation" && ((word == "landscape" && d.view.w >= d.view.h) || (word == "portrait" && d.view.w < d.view.h)))
    || (name == "hover" && ((word == "hover" && d.hover) || (word == "none" && !d.hover)))
    || (name == "any-hover" && ((word == "hover" && d.anyHover) || (word == "none" && !d.anyHover)))
    || (name == "pointer" && ((word == "fine" && d.pointer.Fine?) || (word == "coarse" && d.pointer.Coarse?) ||
                              (word == "none" && d.pointer.NoPointer?)))
    || (name == "update" && ((word == "fast" && d.update.Fast?) || (word == "slow" && d.update.Slow?) ||
                             (word == "none" && d.update.NoUpdate?)))
    || (name == "prefers-color-scheme" && ((word == "dark" && d.dark) || (word == "light" && !d.dark)))
    || (name == "prefers-reduced-motion" && ((word == "reduce" && d.reducedMotion) || (word == "no-preference" && !d.reducedMotion)))
  }

  /** Features that are the same on every device; a scan has nothing to show. */
  predicate ShowsAlways(name: string, word: string) {
    || ((name == "overflow-block" || name == "overflow-inline") && word == "scroll")
    || (name == "scripting" && word == "enabled") || (name == "display-mode" && word == "browser")
    || ((name == "forced-colors" || name == "inverted-colors") && word == "none")
    || (name == "color-gamut" && word == "srgb")
    || ((name == "dynamic-range" || name == "video-dynamic-range") && word == "standard")
    || ((name == "prefers-reduced-transparency" || name == "prefers-contrast" || name == "prefers-reduced-data") &&
        word == "no-preference")
  }

  lemma OwnOne(d: Device, name: string, word: string)
    ensures ShowsOwn(d, name, word) <==> OwnCurrent(d, name) == Some(word)
  {
  }

  lemma AlwaysOne(name: string, word: string)
    ensures ShowsAlways(name, word) <==> FixedCurrent(name) == Some(word)
  {
  }

  /** No feature is of both kinds. */
  lemma OwnOrFixed(d: Device, name: string)
    ensures OwnCurrent(d, name).None? || FixedCurrent(name).None?
  {
  }

  lemma ShowsOne(d: Device, name: string, word: string)
    requires name != "any-pointer"
    ensures Shows(d, name, word) <==> DiscreteCurrent(d, name) == Some(word)
  {
    OwnOne(d, name, word);
    AlwaysOne(name, word);
    OwnOrFixed(d, name);
  }

  // ---------- tests ----------

  /** The amount that a value stands for on a device: lengths in pixels, resolutions in dots per pixel */
  function ValueOf(d: Device, kind: Kind, v: Value): Quotient {
    match v
    case Keyword(_) => Quotient(0.0)
    case Whole(num) => Quotient(num)
    case Fraction(num, denom) => Over(num, denom)
    case Quantity(num, unit) => Quotient(match Convert(kind, num, unit, d.view) case Some(px) => px case None => 0.0)
    case Calculated(num) => Quotient(num)
  }

  /** A value as the parser makes it for a feature of this kind */
  predicate Fits(kind: Kind, v: Value) {
    match kind
    case Discrete => v.Keyword?
    case Integer => v.Whole?
    case Ratio => v.Fraction? && v.num >= 0.0 && v.denom >= 0.0
    case _ => v.Quantity? || v.Calculated?
  }

  predicate TestFits(def: Def, test: Test) {
    match test
    case Present => true
    case Plain(bound, v) => Fits(def.kind, v) && (def.kind == Discrete ==> bound == Exactly)
    case Compare(_, v) => Fits(def.kind, v) && def.kind != Discrete
    case Range(low, _, _, high) => Fits(def.kind, low) && Fits(def.kind, high) && def.kind != Discrete
  }

  /** A feature of the table */
  predicate IsFeature(def: Def) {
    def.kind == Discrete ||
    (IsMeasured(def.name) && (def.kind == Ratio <==> def.name == "aspect-ratio" || def.name == "device-aspect-ratio"))
  }

  /** What a feature test says of a device.  Without a value, a feature must be something other than nothing; `min-` is
      at least, `max-` at most, and comparisons are those of the amounts, in the order in which they are written. */
  ghost predicate Holds(d: Device, def: Def, test: Test) {
    var amount := AmountOf(d, def.name);
    match test
    case Present =>
      if def.kind == Discrete then exists word :: word != "none" && word != "no-preference" && Shows(d, def.name, word)
      else if def.kind == Ratio then amount.Quotient? && amount.q > 0.0
      else amount != Quotient(0.0)
    case Plain(bound, v) =>
      if v.Keyword? then Shows(d, def.name, v.ident)
      else Ordered(amount, match bound case Exactly => EQ case AtLeast => GE case AtMost => LE, ValueOf(d, def.kind, v))
    case Compare(op, v) => Ordered(amount, op, ValueOf(d, def.kind, v))
    case Range(low, op1, op2, high) =>
      Ordered(ValueOf(d, def.kind, low), op1, amount) && Ordered(amount, op2, ValueOf(d, def.kind, high))
  }

  lemma KeywordMeans(d: Device, def: Def, test: Test)
    requires def.kind == Discrete && TestFits(def, test)
    ensures EvalFeature(d, def, test) == Truth(Holds(d, def, test))
  {
    if def.name == "any-pointer" {
      AnyPointerMeans(d, def, test);
    } else {
      OneKeywordMeans(d, def, test);
    }
  }

  lemma AnyPointerMeans(d: Device, def: Def, test: Test)
    requires def.kind == Discrete && TestFits(def, test) && def.name == "any-pointer"
    ensures EvalDiscrete(d, def.name, test) == Truth(Holds(d, def, test))
  {
    if test.Present? {
      assert Shows(d, def.name, "fine") <==> d.anyFine;
      assert Shows(d, def.name, "coarse") <==> d.anyCoarse;
    }
  }

  lemma OneKeywordMeans(d: Device, def: Def, test: Test)
    requires def.kind == Discrete && TestFits(def, test) && def.name != "any-pointer"
    ensures EvalDiscrete(d, def.name, test) == Truth(Holds(d, def, test))
  {
    var cur := DiscreteCurrent(d, def.name);
    forall word: string ensures Shows(d, def.name, word) <==> cur == Some(word) { ShowsOne(d, def.name, word); }
    if test.Present? && cur.Some? { assert Shows(d, def.name, cur.value); }
  }

  lemma FlipIs(a: Quotient, op: Op, b: Quotient)
    ensures Ordered(a, op, b) <==> Ordered(b, Flip(op), a)
  {
  }

  lemma ValueIs(d: Device, kind: Kind, v: Value)
    requires Fits(kind, v) && kind != Discrete
    ensures var a := Amount(d, kind, v); IsAmount(a) && Over(a.0, a.1) == ValueOf(d, kind, v)
  {
  }

  lemma AmountMeans(d: Device, def: Def, test: Test)
    requires IsDevice(d) && def.kind != Discrete && IsMeasured(def.name) && TestFits(def, test)
    requires def.kind == Ratio <==> def.name == "aspect-ratio" || def.name == "device-aspect-ratio"
    ensures EvalFeature(d, def, test) == Truth(Holds(d, def, test))
  {
    AmountIs(d, def.name);
    var a := NumericCurrent(d, def.name).value;
    match test
    case Present => PresentMeans(a);
    case Plain(_, v) =>
      ValueIs(d, def.kind, v);
      CompareMeans(a, BoundOp(test.bound), Amount(d, def.kind, v));
    case Compare(op, v) =>
      ValueIs(d, def.kind, v);
      CompareMeans(a, op, Amount(d, def.kind, v));
    case Range(low, op1, op2, high) =>
      ValueIs(d, def.kind, low);
      ValueIs(d, def.kind, high);
      CompareMeans(a, Flip(op1), Amount(d, def.kind, low));
      CompareMeans(a, op2, Amount(d, def.kind, high));
      FlipIs(ValueOf(d, def.kind, low), op1, AmountOf(d, def.name));
  }

  lemma PresentMeans(a: (real, real))
    requires IsAmount(a)
    ensures a.0 > 0.0 && a.1 > 0.0 <==> Over(a.0, a.1).Quotient? && Over(a.0, a.1).q > 0.0
    ensures a.1 == 1.0 ==> (a.0 != 0.0 <==> Over(a.0, a.1) != Quotient(0.0))
  {
    if a.1 > 0.0 { QuotientIs(a.0, a.1, 0.0, 0.0); }
  }

  /** The evaluation of a feature test is what it says. */
  lemma TestMeans(d: Device, def: Def, test: Test)
    requires IsDevice(d) && IsFeature(def) && TestFits(def, test)
    ensures EvalFeature(d, def, test) == Truth(Holds(d, def, test))
  {
    if def.kind == Discrete { KeywordMeans(d, def, test); } else { AmountMeans(d, def, test); }
  }

  /** `low <= f <= high` says the same as `min-f: low` and `max-f: high` together. */
  lemma RangeIsMinAndMax(d: Device, def: Def, low: Value, high: Value)
    requires IsDevice(d) && IsFeature(def) && def.kind != Discrete && Fits(def.kind, low) && Fits(def.kind, high)
    ensures EvalFeature(d, def, Range(low, LE, LE, high)) ==
            Both(EvalFeature(d, def, Plain(AtLeast, low)), EvalFeature(d, def, Plain(AtMost, high)))
  {
    TestMeans(d, def, Range(low, LE, LE, high));
    TestMeans(d, def, Plain(AtLeast, low));
    TestMeans(d, def, Plain(AtMost, high));
  }

  /** An inch is 96 pixels, 2.54 centimetres, 25.4 millimetres, 101.6 quarters of one, 72 points and 6 picas. */
  lemma UnitsOfLength(v: real, view: Viewport)
    ensures var inch := LengthPx(v, "in", view);
            && inch == LengthPx(96.0 * v, "px", view) == Some(96.0 * v)
            && LengthPx(2.54 * v, "cm", view) == inch && LengthPx(25.4 * v, "mm", view) == inch
            && LengthPx(101.6 * v, "q", view) == inch && LengthPx(72.0 * v, "pt", view) == inch
            && LengthPx(6.0 * v, "pc", view) == inch
  {
  }

  /** Fonts are 16 pixels high and half as wide, and a hundred parts of the viewport are the whole. */
  lemma UnitsOfFontAndViewport(v: real, view: Viewport)
    ensures LengthPx(v, "em", view) == LengthPx(v, "rem", view) == Some(16.0 * v)
    ensures LengthPx(v, "ex", view) == LengthPx(v, "ch", view) == Some(8.0 * v)
    ensures LengthPx(100.0, "vw", view) == Some(view.w) && LengthPx(100.0, "vh", view) == Some(view.h)
    ensures LengthPx(100.0, "vmin", view) == Some(if view.w < view.h then view.w else view.h)
    ensures LengthPx(100.0, "vmax", view) == Some(if view.w < view.h then view.h else view.w)
  {
  }

  /** 96 dots an inch are a dot a pixel, and an inch has 2.54 centimetres. */
  lemma UnitsOfResolution(v: real)
    ensures ResolutionDppx(96.0 * v, "dpi") == ResolutionDppx(v, "dppx") == ResolutionDppx(v, "x") == Some(v)
    ensures ResolutionDppx(v, "dpcm") == ResolutionDppx(2.54 * v, "dpi")
  {
  }

  /** Parts of the viewport count in proportion. */
  lemma PartsOfViewport(v: real, k: real, unit: string, view: Viewport)
    requires unit == "vw" || unit == "vh" || unit == "vmin" || unit == "vmax"
    ensures LengthPx(k, unit, view).Some? && LengthPx(k * v, unit, view).Some?
    ensures LengthPx(k * v, unit, view).value == v * LengthPx(k, unit, view).value
  {
  }

  // ---------- the table of features ----------

  lemma MeasuredKnown(i: nat)
    requires i < 13
    ensures IsFeature(FEATURES[i])
  {
  }

  lemma DiscreteKnown(i: nat)
    requires 13 <= i < |FEATURES|
    ensures FEATURES[i].kind == Discrete
  {
  }

  lemma FeaturesKnown(def: Def)
    requires def in FEATURES
    ensures IsFeature(def)
  {
    var i :| 0 <= i < |FEATURES| && FEATURES[i] == def;
    if i < 13 { MeasuredKnown(i); } else { DiscreteKnown(i); }
  }

  lemma {:induction false} DefKnown(table: seq<Def>, name: string)
    requires FindDef(table, name).Some?
    ensures FindDef(table, name).value in table
    decreases table
  {
    if table[0].name != name { DefKnown(table[1..], name); }
  }

  lemma ValueFits(host: Host, def: Def, view: Viewport, text: string)
    requires ParseValue(host, def, view, text).Some?
    ensures Fits(def.kind, ParseValue(host, def, view, text).value)
  {
  }

  ghost predicate FeatureFits(host: Host, n: Node) {
    n.Feature? && n.def in host.table && TestFits(n.def, n.test)
  }

  lemma BoundedFits(host: Host, view: Viewport, name: string, text: string)
    requires ParseBounded(host, view, name, text).Some?
    ensures FeatureFits(host, ParseBounded(host, view, name, text).value)
  {
    var n := ParseBounded(host, view, name, text).value;
    ValueFits(host, n.def, view, text);
    DefKnown(host.table, if n.test.bound == Exactly then name else name[4..]);
  }

  lemma SideKnown(host: Host, text: string)
    requires SideFeature(host, text).Some?
    ensures SideFeature(host, text).value in host.table && SideFeature(host, text).value.kind != Discrete
  {
    DefKnown(host.table, ReadIdent(Trim(text), 40).value);
  }

  lemma CompareFits(host: Host, view: Viewport, left: string, op: Op, right: string)
    requires ParseCompare(host, view, left, op, right).Some?
    ensures FeatureFits(host, ParseCompare(host, view, left, op, right).value)
  {
    var def := SideFeature(host, left);
    if def.Some? {
      SideKnown(host, left);
      ValueFits(host, def.value, view, right);
    } else {
      SideKnown(host, right);
      ValueFits(host, SideFeature(host, right).value, view, left);
    }
  }

  lemma RangeFits(host: Host, view: Viewport, left: string, op1: Op, mid: string, op2: Op, right: string)
    requires ParseRange(host, view, left, op1, mid, op2, right).Some?
    ensures FeatureFits(host, ParseRange(host, view, left, op1, mid, op2, right).value)
  {
    var def := SideFeature(host, mid).value;
    SideKnown(host, mid);
    ValueFits(host, def, view, left);
    ValueFits(host, def, view, right);
  }

  /** The parser makes tests of features of the table, with values that fit. */
  lemma ParsedFits(host: Host, view: Viewport, text: string)
    requires ParseFeature(host, view, text).Some?
    ensures FeatureFits(host, ParseFeature(host, view, text).value)
  {
    var s := Trim(text);
    var colon, p1 := ColonAt(s, 0), OpAt(s, 0);
    if colon < |s| {
      PlainFits(host, view, s, colon);
    } else if p1 < |s| {
      ComparisonsFit(host, view, s[..p1], ReadOp(s[p1..]), AfterOp(s[p1..]));
    } else {
      PresentFits(host, s);
    }
  }

  lemma PlainFits(host: Host, view: Viewport, s: string, colon: nat)
    requires colon < |s| && ParsePlain(host, view, s, colon).Some?
    ensures FeatureFits(host, ParsePlain(host, view, s, colon).value)
  {
    BoundedFits(host, view, ReadIdent(s[..colon], 40).value, s[colon + 1..]);
  }

  lemma PresentFits(host: Host, s: string)
    requires ParsePresent(host, s).Some?
    ensures FeatureFits(host, ParsePresent(host, s).value)
  {
    DefKnown(host.table, ReadIdent(s, 40).value);
  }

  lemma ComparisonsFit(host: Host, view: Viewport, left: string, op1: Op, after1: string)
    requires ParseComparisons(host, view, left, op1, after1).Some?
    ensures FeatureFits(host, ParseComparisons(host, view, left, op1, after1).value)
  {
    var p2 := OpAt(after1, 0);
    if p2 < |after1| {
      RangeFits(host, view, left, op1, after1[..p2], ReadOp(after1[p2..]), AfterOp(after1[p2..]));
    } else {
      CompareFits(host, view, left, op1, after1);
    }
  }

  // ---------- conditions ----------

  /** What a condition says of a device; of what is only enclosed in parentheses nobody knows, so that is left to
      `unknown`. */
  ghost predicate Says(d: Device, n: Node, unknown: string -> bool)
  {
    match n
    case Enclosed(text) => unknown(text)
    case Feature(def, test) => Holds(d, def, test)
    case Not(kid) => !Says(d, kid, unknown)
    case And(kids) => forall i :: 0 <= i < |kids| ==> Says(d, kids[i], unknown)
    case Or(kids) => exists i :: 0 <= i < |kids| && Says(d, kids[i], unknown)
  }

  /** Only features of the table are tested, with values that fit. */
  ghost predicate Fitting(n: Node) {
    match n
    case Enclosed(_) => true
    case Feature(def, test) => IsFeature(def) && TestFits(def, test)
    case Not(kid) => Fitting(kid)
    case And(kids) => forall i :: 0 <= i < |kids| ==> Fitting(kids[i])
    case Or(kids) => forall i :: 0 <= i < |kids| ==> Fitting(kids[i])
  }

  /** A verdict that is not open is right, whatever stands in what is only enclosed. */
  lemma {:induction false} VerdictIsRight(d: Device, n: Node, depth: nat, unknown: string -> bool)
    requires IsDevice(d) && Fitting(n)
    ensures var v := EvalNode(Evaluator(d), n, depth);
            (v == Yes ==> Says(d, n, unknown)) && (v == No ==> !Says(d, n, unknown))
    decreases n, 0
  {
    if depth <= MAX_DEPTH {
      match n
      case Enclosed(_) =>
      case Feature(def, test) => TestMeans(d, def, test);
      case Not(kid) => VerdictIsRight(d, kid, depth + 1, unknown);
      case And(kids) => AllRight(d, Yes, kids, depth + 1, unknown);
      case Or(kids) => AnyRight(d, No, kids, depth + 1, unknown);
    }
  }

  lemma {:induction false} AllRight(d: Device, r: Tri, kids: seq<Node>, depth: nat, unknown: string -> bool)
    requires IsDevice(d) && forall i :: 0 <= i < |kids| ==> Fitting(kids[i])
    ensures var v := AllOf(Evaluator(d), r, kids, depth);
            && (v == Yes ==> r == Yes && forall i :: 0 <= i < |kids| ==> Says(d, kids[i], unknown))
            && (v == No ==> r == No || exists i :: 0 <= i < |kids| && !Says(d, kids[i], unknown))
    decreases kids, 1
  {
    if kids != [] {
      var rest := kids[1..];
      assert forall i :: 0 <= i < |rest| ==> rest[i] == kids[i + 1];
      VerdictIsRight(d, kids[0], depth, unknown);
      AllRight(d, Both(r, EvalNode(Evaluator(d), kids[0], depth)), rest, depth, unknown);
      assert forall i :: 0 < i < |kids| ==> kids[i] == rest[i - 1];
    }
  }

  lemma {:induction false} AnyRight(d: Device, r: Tri, kids: seq<Node>, depth: nat, unknown: string -> bool)
    requires IsDevice(d) && forall i :: 0 <= i < |kids| ==> Fitting(kids[i])
    ensures var v := AnyOf(Evaluator(d), r, kids, depth);
            && (v == Yes ==> r == Yes || exists i :: 0 <= i < |kids| && Says(d, kids[i], unknown))
            && (v == No ==> r == No && forall i :: 0 <= i < |kids| ==> !Says(d, kids[i], unknown))
    decreases kids, 1
  {
    if kids != [] {
      var rest := kids[1..];
      assert forall i :: 0 <= i < |rest| ==> rest[i] == kids[i + 1];
      VerdictIsRight(d, kids[0], depth, unknown);
      AnyRight(d, Either(r, EvalNode(Evaluator(d), kids[0], depth)), rest, depth, unknown);
      assert forall i :: 0 < i < |kids| ==> kids[i] == rest[i - 1];
    }
  }

  // ---------- conditions without enclosed text ----------

  ghost function AnyTest(): TestChecker {
    (def: Def, test: Test) => true
  }

  ghost function FittingTest(): TestChecker {
    (def: Def, test: Test) => IsFeature(def) && TestFits(def, test)
  }

  lemma FeaturesFit(host: Host, view: Viewport)
    requires host.table == FEATURES
    ensures Yields(Features(host, view), AnyTest(), FittingTest())
  {
    forall s | ParseFeature(host, view, s).Some?
      ensures Grants(AnyTest(), FittingTest(), ParseFeature(host, view, s).value) {
      ParsedFits(host, view, s);
      FeaturesKnown(ParseFeature(host, view, s).value.def);
    }
  }

  /** A condition that the parser has read is nowhere too deep, and fits. */
  lemma {:induction false} UnitDecides(d: Device, n: Node, p: nat, depth: nat)
    requires IsDevice(d) && LegalUnit(FittingTest(), n, p) && depth <= p
    ensures Fitting(n) && EvalNode(Evaluator(d), n, depth) != Dunno
    decreases n, 0
  {
    match n
    case Feature(def, test) => TestMeans(d, def, test);
    case And(kids) =>
      ConditionDecides(d, kids[0], true, p + 1, depth + 1);
      assert kids[1..] == [];
      AllDecided(d, Yes, kids, depth + 1);
  }

  lemma {:induction false} ConditionDecides(d: Device, n: Node, allowOr: bool, p: nat, depth: nat)
    requires IsDevice(d) && LegalCondition(FittingTest(), n, allowOr, p) && depth <= p
    ensures Fitting(n) && EvalNode(Evaluator(d), n, depth) != Dunno
    decreases n, 1
  {
    if LegalUnit(FittingTest(), n, p + 1) {
      UnitDecides(d, n, p + 1, depth);
    } else {
      match n
      case Not(kid) => UnitDecides(d, kid, p + 1, depth + 1);
      case And(kids) =>
        UnitsDecide(d, kids, p + 1, depth + 1);
        AllDecided(d, Yes, kids, depth + 1);
      case Or(kids) =>
        UnitsDecide(d, kids, p + 1, depth + 1);
        AnyDecided(d, No, kids, depth + 1);
    }
  }

  lemma {:induction false} UnitsDecide(d: Device, kids: seq<Node>, p: nat, depth: nat)
    requires IsDevice(d) && LegalUnits(FittingTest(), kids, p) && depth <= p
    ensures forall i :: 0 <= i < |kids| ==> Fitting(kids[i]) && EvalNode(Evaluator(d), kids[i], depth) != Dunno
    decreases kids
  {
    if kids != [] {
      UnitDecides(d, kids[0], p, depth);
      UnitsDecide(d, kids[1..], p, depth);
      assert forall i :: 0 < i < |kids| ==> kids[i] == kids[1..][i - 1];
    }
  }

  lemma {:induction false} AllDecided(d: Device, r: Tri, kids: seq<Node>, depth: nat)
    requires r != Dunno && forall i :: 0 <= i < |kids| ==> EvalNode(Evaluator(d), kids[i], depth) != Dunno
    ensures AllOf(Evaluator(d), r, kids, depth) != Dunno
    decreases kids
  {
    if kids != [] {
      assert forall i :: 0 <= i < |kids| - 1 ==> kids[1..][i] == kids[i + 1];
      AllDecided(d, Both(r, EvalNode(Evaluator(d), kids[0], depth)), kids[1..], depth);
    }
  }

  lemma {:induction false} AnyDecided(d: Device, r: Tri, kids: seq<Node>, depth: nat)
    requires r != Dunno && forall i :: 0 <= i < |kids| ==> EvalNode(Evaluator(d), kids[i], depth) != Dunno
    ensures AnyOf(Evaluator(d), r, kids, depth) != Dunno
    decreases kids
  {
    if kids != [] {
      assert forall i :: 0 <= i < |kids| - 1 ==> kids[1..][i] == kids[i + 1];
      AnyDecided(d, Either(r, EvalNode(Evaluator(d), kids[0], depth)), kids[1..], depth);
    }
  }

  // ---------- queries and lists ----------

  /** A reading of what is only enclosed, which the theorems do not depend on */
  const NOBODY: string -> bool := (text: string) => false

  ghost predicate SaysAlone(d: Device, n: Node) {
    Says(d, n, NOBODY)
  }

  /** What a query says: its media type is that of a screen or of all media and its condition holds, or not so if it
      is negated.  A query that cannot be read says nothing that holds. */
  ghost predicate SaysQuery(d: Device, q: Query) {
    match q
    case Invalid => false
    case Condition(cond) => SaysAlone(d, cond)
    case Typed(mediaType, negated, _, tail) =>
      negated != ((mediaType == "all" || mediaType == "screen") && (tail.Some? ==> SaysAlone(d, tail.value)))
  }

  /** Nothing in the query is only enclosed. */
  ghost predicate NothingEnclosed(q: Query) {
    match q
    case Invalid => true
    case Condition(cond) => Clean(AnyTest(), cond)
    case Typed(_, _, _, tail) => tail.Some? ==> Clean(AnyTest(), tail.value)
  }

  lemma ReadConditionMeans(host: Host, d: Device, u: string, allowOr: bool)
    requires host.table == FEATURES && IsDevice(d)
    requires var c := ParseCondition(Features(host, d.view), u, allowOr, 0); c.Some? && Clean(AnyTest(), c.value.node)
    ensures var n := ParseCondition(Features(host, d.view), u, allowOr, 0).value.node;
            EvalNode(Evaluator(d), n, 0) == Truth(SaysAlone(d, n))
  {
    var n := ParseCondition(Features(host, d.view), u, allowOr, 0).value.node;
    FeaturesFit(host, d.view);
    ConditionParsed(Features(host, d.view), AnyTest(), FittingTest(), u, allowOr, 0);
    ConditionDecides(d, n, allowOr, 0, 0);
    VerdictIsRight(d, n, 0, NOBODY);
  }

  /** A tail behind a media type comes from the parser of conditions. */
  lemma TailMeans(host: Host, d: Device, rest: string, q: Query)
    requires host.table == FEATURES && IsDevice(d) && q.Typed? && q.tail.None?
    requires var r := ParseTail(Features(host, d.view), rest, q); r.Typed? && (r.tail.Some? ==> Clean(AnyTest(), r.tail.value))
    ensures var r := ParseTail(Features(host, d.view), rest, q);
            r.tail.Some? ==> EvalNode(Evaluator(d), r.tail.value, 0) == Truth(SaysAlone(d, r.tail.value))
  {
    if rest != "" && KeywordAt(rest, "and") { ReadConditionMeans(host, d, rest[3..], false); }
  }

  lemma TypedMeans(host: Host, d: Device, s: string)
    requires host.table == FEATURES && IsDevice(d)
    requires var q := ParseTyped(Features(host, d.view), s); q.Typed? && NothingEnclosed(q)
    ensures var q := ParseTyped(Features(host, d.view), s);
            q.tail.Some? ==> EvalNode(Evaluator(d), q.tail.value, 0) == Truth(SaysAlone(d, q.tail.value))
  {
    var first := ReadIdent(s, 64).value;
    var negated, only := first == "not", first == "only";
    var p := SkipWs(if negated || only then s[IdentLen(s)..] else s);
    TailMeans(host, d, SkipWs(p[IdentLen(p)..]), Typed(ReadIdent(p, 64).value, negated, only, None));
  }

  lemma NegatedTruth(d: Device, q: Query)
    requires q.Typed? && (q.tail.Some? ==> EvalNode(Evaluator(d), q.tail.value, 0) == Truth(SaysAlone(d, q.tail.value)))
    ensures EvalQuery(d, q) == Truth(SaysQuery(d, q))
  {
  }

  /** The evaluation of a query that the parser has read is what it says. */
  lemma QueryMeans(host: Host, d: Device, text: string)
    requires host.table == FEATURES && IsDevice(d) && NothingEnclosed(ParseQuery(host, d.view, text))
    ensures var q := ParseQuery(host, d.view, text); EvalQuery(d, q) == Truth(SaysQuery(d, q))
  {
    var s := Trim(text);
    var q := ParseTrimmed(Features(host, d.view), s);
    match q
    case Invalid =>
    case Condition(_) => ReadConditionMeans(host, d, s, true);
    case Typed(_, _, _, _) =>
      TypedMeans(host, d, s);
      NegatedTruth(d, q);
  }

  /** A query of a list comes from one of its parts. */
  lemma {:induction false} ListedIsRead(parse: QueryParser, u: string, q: Query) returns (part: string)
    requires q in ParseList(parse, u)
    ensures q == parse(part)
    decreases |u|
  {
    var e := SegmentEnd(u, 0, 0);
    if q == parse(u[..e]) {
      part := u[..e];
    } else {
      part := ListedIsRead(parse, u[e + 1..], q);
    }
  }

  ghost predicate ListEnclosesNothing(host: Host, d: Device, query: string) {
    forall q :: q in ParseList(Queries(host, d.view), SkipWs(query)) ==> NothingEnclosed(q)
  }

  /** A list of queries matches a device exactly if it is blank, or what one of its queries says is so. */
  lemma MatchesMeans(host: Host, d: Device, query: string)
    requires host.table == FEATURES && IsDevice(d) && ListEnclosesNothing(host, d, query)
    ensures Matches(host, d, query) <==>
            SkipWs(query) == "" || exists q :: q in ParseList(Queries(host, d.view), SkipWs(query)) && SaysQuery(d, q)
  {
    var parse, u := Queries(host, d.view), SkipWs(query);
    forall q | q in ParseList(parse, u) ensures EvalQuery(d, q) == Truth(SaysQuery(d, q)) {
      var part := ListedIsRead(parse, u, q);
      QueryMeans(host, d, part);
    }
  }
}
