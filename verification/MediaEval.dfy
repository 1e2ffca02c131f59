/**
 The three-valued evaluation of media queries in src/css_media.c (Media Queries Level 4, section 3.1), for
 one device and one viewport.
 */
module MediaEval {
  import opened Common
  import opened MediaSyntax

  datatype Tri = No | Yes | Dunno

  /** mq_not, mq_and and mq_or */
  function Inverse(v: Tri): Tri {
    match v case Yes => No case No => Yes case Dunno => Dunno
  }

  function Both(a: Tri, b: Tri): Tri {
    if a == No || b == No then No else if a == Yes && b == Yes then Yes else Dunno
  }

  function Either(a: Tri, b: Tri): Tri {
    if a == Yes || b == Yes then Yes else if a == No && b == No then No else Dunno
  }

  datatype Pointer = NoPointer | Coarse | Fine

  datatype Update = NoUpdate | Slow | Fast

  /** The state that queries ask for: ns_css_media_device, the viewport and the user's preferences. */
  datatype Device = Device(
    view: Viewport, width: real, height: real, dppx: real, color: nat, colorIndex: nat, monochrome: nat, grid: bool,
    hover: bool, anyHover: bool, pointer: Pointer, anyCoarse: bool, anyFine: bool, update: Update,
    dark: bool, reducedMotion: bool)

  /** mq_discrete_current */
  function DiscreteCurrent(d: Device, name: string): Option<string> {
    var own := OwnCurrent(d, name);
    if own.Some? then own else FixedCurrent(name)
  }

  /** Its part for the features that differ from device to device */
  function OwnCurrent(d: Device, name: string): Option<string> {
    if name == "orientation" then Some(if d.view.w >= d.view.h then "landscape" else "portrait")
    else if name == "hover" then Some(if d.hover then "hover" else "none")
    else if name == "any-hover" then Some(if d.anyHover then "hover" else "none")
    else if name == "pointer" then Some(match d.pointer case Fine => "fine" case Coarse => "coarse" case NoPointer => "none")
    else if name == "update" then Some(match d.update case Fast => "fast" case Slow => "slow" case NoUpdate => "none")
    else if name == "prefers-color-scheme" then Some(if d.dark then "dark" else "light")
    else if name == "prefers-reduced-motion" then Some(if d.reducedMotion then "reduce" else "no-preference")
    else None
  }

  /** Its part for the features that are the same everywhere */
  function FixedCurrent(name: string): Option<string> {
    if name == "overflow-block" || name == "overflow-inline" then Some("scroll")
    else if name == "scripting" then Some("enabled")
    else if name == "display-mode" then Some("browser")
    else if name == "forced-colors" || name == "inverted-colors" then Some("none")
    else if name == "color-gamut" then Some("srgb")
    else if name == "dynamic-range" || name == "video-dynamic-range" then Some("standard")
    else if name == "prefers-reduced-transparency" || name == "prefers-contrast" || name == "prefers-reduced-data" then
      Some("no-preference")
    else None
  }

  /** mq_feature_current: a numerator and a denominator */
  function NumericCurrent(d: Device, name: string): Option<(real, real)> {
    if name == "width" || name == "inline-size" then Some((d.view.w, 1.0))
    else if name == "height" || name == "block-size" then Some((d.view.h, 1.0))
    else if name == "device-width" then Some((d.width, 1.0))
    else if name == "device-height" then Some((d.height, 1.0))
    else if name == "aspect-ratio" then Some((d.view.w, d.view.h))
    else if name == "device-aspect-ratio" then Some((d.width, d.height))
    else if name == "resolution" then Some((d.dppx, 1.0))
    else if name == "color" then Some((d.color as real, 1.0))
    else if name == "color-index" then Some((d.colorIndex as real, 1.0))
    else if name == "monochrome" then Some((d.monochrome as real, 1.0))
    else if name == "grid" then Some((if d.grid then 1.0 else 0.0, 1.0))
    else None
  }

  function Truth(b: bool): Tri {
    if b then Yes else No
  }

  /** mq_compare */
  function CompareTo(a: (real, real), op: Op, b: (real, real)): Tri {
    var lhs, rhs := a.0 * b.1, b.0 * a.1;
    Truth(match op
          case EQ => lhs == rhs case LT => lhs < rhs case LE => lhs <= rhs case GT => lhs > rhs case GE => lhs >= rhs)
  }

  /** The number of a value, in pixels or dots per pixel, with its denominator. */
  function Amount(d: Device, kind: Kind, v: Value): (real, real) {
    match v
    case Keyword(_) => (0.0, 1.0)
    case Whole(num) => (num, 1.0)
    case Fraction(num, denom) => (num, denom)
    case Quantity(num, unit) =>
      var c := Convert(kind, num, unit, d.view);
      (if c.Some? then c.value else 0.0, 1.0)
    case Calculated(num) => (num, 1.0)
  }

  function FirstValue(test: Test): Option<Value> {
    match test
    case Present => None
    case Plain(_, v) => Some(v)
    case Compare(_, v) => Some(v)
    case Range(low, _, _, _) => Some(low)
  }

  /** The half of mq_eval_feature for features with keywords */
  function EvalDiscrete(d: Device, name: string, test: Test): Tri {
    var first := FirstValue(test);
    var ident := if first.Some? && first.value.Keyword? then first.value.ident else "";
    if name == "any-pointer" then
      if first.None? then Truth(d.anyCoarse || d.anyFine)
      else if ident == "none" then Truth(!d.anyCoarse && !d.anyFine)
      else Truth((ident == "fine" && d.anyFine) || (ident == "coarse" && d.anyCoarse))
    else
      var cur := DiscreteCurrent(d, name);
      if cur.None? then No
      else if first.None? then Truth(cur.value != "none" && cur.value != "no-preference")
      else Truth(cur.value == ident)
  }

  function BoundOp(bound: Bound): Op {
    match bound case Exactly => EQ case AtLeast => GE case AtMost => LE
  }

  /** mq_eval_feature */
  function EvalFeature(d: Device, def: Def, test: Test): Tri {
    if def.kind == Discrete then EvalDiscrete(d, def.name, test)
    else
      var cur := NumericCurrent(d, def.name);
      if cur.None? then Dunno
      else match test
        case Present => Truth(if def.kind == Ratio then cur.value.0 > 0.0 && cur.value.1 > 0.0 else cur.value.0 != 0.0)
        case Plain(bound, v) => CompareTo(cur.value, BoundOp(bound), Amount(d, def.kind, v))
        case Compare(op, v) => CompareTo(cur.value, op, Amount(d, def.kind, v))
        case Range(low, op1, op2, high) =>
          Both(CompareTo(cur.value, Flip(op1), Amount(d, def.kind, low)), CompareTo(cur.value, op2, Amount(d, def.kind, high)))
  }

  /** The evaluator of feature tests, for the one of conditions. */
  type TestEvaluator = (Def, Test) -> Tri

  function Evaluator(d: Device): TestEvaluator {
    (def: Def, test: Test) => EvalFeature(d, def, test)
  }

  /** mq_eval_node */
  function EvalNode(eval: TestEvaluator, n: Node, depth: nat): Tri
    decreases n, 0
  {
    if depth > MAX_DEPTH then Dunno
    else match n
      case Enclosed(_) => Dunno
      case Feature(def, test) => eval(def, test)
      case Not(kid) => Inverse(EvalNode(eval, kid, depth + 1))
      case And(kids) => AllOf(eval, Yes, kids, depth + 1)
      case Or(kids) => AnyOf(eval, No, kids, depth + 1)
  }

  /** The two loops of mq_eval_node, with `r` from the operands so far */
  function AllOf(eval: TestEvaluator, r: Tri, kids: seq<Node>, depth: nat): Tri
    decreases kids, 1
  {
    if kids == [] then r else AllOf(eval, Both(r, EvalNode(eval, kids[0], depth)), kids[1..], depth)
  }

  function AnyOf(eval: TestEvaluator, r: Tri, kids: seq<Node>, depth: nat): Tri
    decreases kids, 1
  {
    if kids == [] then r else AnyOf(eval, Either(r, EvalNode(eval, kids[0], depth)), kids[1..], depth)
  }

  /** mq_eval_query */
  function EvalQuery(d: Device, q: Query): Tri {
    match q
    case Invalid => No
    case Condition(cond) => EvalNode(Evaluator(d), cond, 0)
    case Typed(mediaType, negated, _, tail) =>
      var t := Truth(mediaType == "all" || mediaType == "screen");
      var r := if tail.Some? then Both(t, EvalNode(Evaluator(d), tail.value, 0)) else t;
      if negated then Inverse(r) else r
  }

  predicate AnyMatches(d: Device, qs: seq<Query>) {
    exists q :: q in qs && EvalQuery(d, q) == Yes
  }

  /** ns_css_media_query_matches */
  predicate Matches(host: Host, d: Device, query: string) {
    var u := SkipWs(query);
    u == "" || AnyMatches(d, ParseList(Queries(host, d.view), u))
  }

  method QueryMatches(host: Host, d: Device, query: string) returns (any: bool)
    ensures any == Matches(host, d, query)
  {
    var u := SkipWs(query);
    if u == "" { return true; }
    any := false;
    var parse := Queries(host, d.view);
    ghost var all := ParseList(parse, u);
    while u != "" && !any
      invariant AnyMatches(d, all) <==> any || AnyMatches(d, ParseList(parse, u))
      decreases |u|, !any
    {
      var e := SegmentEnd(u, 0, 0);
      var q := parse(u[..e]);
      ghost var rest := if e == |u| then [] else ParseList(parse, u[e + 1..]);
      assert ParseList(parse, u) == [q] + rest;
      assert AnyMatches(d, [q] + rest) <==> EvalQuery(d, q) == Yes || AnyMatches(d, rest) by { FirstOrRest(d, q, rest); }
      any := EvalQuery(d, q) == Yes;
      u := if e == |u| then "" else u[e + 1..];
    }
  }

  lemma FirstOrRest(d: Device, q: Query, rest: seq<Query>)
    ensures AnyMatches(d, [q] + rest) <==> EvalQuery(d, q) == Yes || AnyMatches(d, rest)
  {
    if EvalQuery(d, q) == Yes { assert q in [q] + rest; }
    if AnyMatches(d, rest) {
      var x :| x in rest && EvalQuery(d, x) == Yes;
      assert x in [q] + rest;
    }
  }
}
