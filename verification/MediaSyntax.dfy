/**
 The media query parser of src/css_media.c (Media Queries Level 4, sections 2.4 and 3.1).

 A position in the source is a pair of pointers into the query; here it is the text between them, and a
 parser returns how much of it it has read.
 */
module MediaSyntax {
  import opened Common
  import opened Strings

  const MAX_DEPTH := 32

  // ---------- characters ----------

  predicate IsAlpha(c: char) {
    'a' <= c <= 'z' || 'A' <= c <= 'Z'
  }

  /** mq_ident_char */
  predicate IsIdentChar(c: char) {
    IsDigit(c) || IsAlpha(c) || c == '-' || c == '_'
  }

  /** mq_skip_ws: how much white space is in front */
  function WsLen(u: string): (n: nat)
    ensures n <= |u| && (n < |u| ==> !IsSpace(u[n])) && forall i :: 0 <= i < n ==> IsSpace(u[i])
  {
    if u == "" || !IsSpace(u[0]) then 0 else 1 + WsLen(u[1..])
  }

  function SkipWs(u: string): string {
    u[WsLen(u)..]
  }

  function TrimEnd(u: string): (r: string)
    ensures r <= u && (r != "" ==> !IsSpace(r[|r| - 1]))
  {
    if u != "" && IsSpace(u[|u| - 1]) then TrimEnd(u[..|u| - 1]) else u
  }

  function Trim(u: string): string {
    TrimEnd(SkipWs(u))
  }

  function IdentLen(u: string): (n: nat)
    ensures n <= |u| && (n < |u| ==> !IsIdentChar(u[n])) && forall i :: 0 <= i < n ==> IsIdentChar(u[i])
  {
    if u == "" || !IsIdentChar(u[0]) then 0 else 1 + IdentLen(u[1..])
  }

  /** mq_read_ident, for a buffer of `size` bytes; what it reads is IdentLen long. */
  function ReadIdent(u: string, size: nat): (r: Option<string>)
    ensures r.Some? ==> r.value == Lower(u[..IdentLen(u)]) && 0 < IdentLen(u) < size
  {
    var n := IdentLen(u);
    if n == 0 || n >= size then None else Some(Lower(u[..n]))
  }

  /** mq_kw_at */
  predicate KeywordAt(u: string, kw: string) {
    StartsWithAnyCase(u, kw) && (|u| == |kw| || IsSpace(u[|kw|]) || u[|kw|] == '(')
  }

  /** mq_close_paren: the closing parenthesis of the `depth`-th one still open, or the end */
  function CloseParen(u: string, depth: nat): (n: nat)
    requires depth > 0
    ensures n <= |u| && (n < |u| ==> u[n] == ')')
  {
    if u == "" then 0
    else if u[0] == '(' then 1 + CloseParen(u[1..], depth + 1)
    else if u[0] == ')' then (if depth == 1 then 0 else 1 + CloseParen(u[1..], depth - 1))
    else 1 + CloseParen(u[1..], depth)
  }

  /** mq_any_value_ok */
  predicate AnyValueOk(u: string, paren: nat, bracket: nat, brace: nat) {
    u == "" ||
    (if u[0] == '(' then AnyValueOk(u[1..], paren + 1, bracket, brace)
     else if u[0] == ')' then paren > 0 && AnyValueOk(u[1..], paren - 1, bracket, brace)
     else if u[0] == '[' then AnyValueOk(u[1..], paren, bracket + 1, brace)
     else if u[0] == ']' then bracket > 0 && AnyValueOk(u[1..], paren, bracket - 1, brace)
     else if u[0] == '{' then AnyValueOk(u[1..], paren, bracket, brace + 1)
     else if u[0] == '}' then brace > 0 && AnyValueOk(u[1..], paren, bracket, brace - 1)
     else u[0] != ';' && u[0] != '!' && AnyValueOk(u[1..], paren, bracket, brace))
  }

  // ---------- features ----------

  datatype Kind = Length | Ratio | Resolution | Integer | Discrete

  /** mq_feature_def */
  datatype Def = Def(name: string, kind: Kind, keywords: seq<string>)

  const FEATURES: seq<Def> := [
    Def("width", Length, []), Def("height", Length, []), Def("device-width", Length, []),
    Def("device-height", Length, []), Def("inline-size", Length, []), Def("block-size", Length, []),
    Def("aspect-ratio", Ratio, []), Def("device-aspect-ratio", Ratio, []), Def("resolution", Resolution, []),
    Def("color", Integer, []), Def("color-index", Integer, []), Def("monochrome", Integer, []),
    Def("grid", Integer, []),
    Def("orientation", Discrete, ["portrait", "landscape"]), Def("scan", Discrete, ["interlace", "progressive"]),
    Def("overflow-block", Discrete, ["none", "scroll", "paged"]), Def("overflow-inline", Discrete, ["none", "scroll"]),
    Def("update", Discrete, ["none", "slow", "fast"]), Def("hover", Discrete, ["none", "hover"]),
    Def("any-hover", Discrete, ["none", "hover"]), Def("pointer", Discrete, ["none", "coarse", "fine"]),
    Def("any-pointer", Discrete, ["none", "coarse", "fine"]), Def("prefers-color-scheme", Discrete, ["light", "dark"]),
    Def("prefers-reduced-motion", Discrete, ["no-preference", "reduce"]),
    Def("prefers-reduced-transparency", Discrete, ["no-preference", "reduce"]),
    Def("prefers-contrast", Discrete, ["no-preference", "less", "more", "custom"]),
    Def("prefers-reduced-data", Discrete, ["no-preference", "reduce"]), Def("forced-colors", Discrete, ["none", "active"]),
    Def("inverted-colors", Discrete, ["none", "inverted"]), Def("color-gamut", Discrete, ["srgb", "p3", "rec2020"]),
    Def("scripting", Discrete, ["none", "initial-only", "enabled"]),
    Def("display-mode", Discrete, ["fullscreen", "standalone", "minimal-ui", "browser", "picture-in-picture",
                                   "window-controls-overlay"]),
    Def("dynamic-range", Discrete, ["standard", "high"]), Def("video-dynamic-range", Discrete, ["standard", "high"])]

  function FindDef(table: seq<Def>, name: string): (r: Option<Def>)
    ensures r.Some? ==> r.value.name == name
  {
    if table == [] then None else if table[0].name == name then Some(table[0]) else FindDef(table[1..], name)
  }


  // ---------- numbers ----------

  /** What the parser and the serializer stand on: strtod, which returns a value and the length of the numeral
      (0 if there is none), the format %g, and the table of features, which is FEATURES in the source. */
  datatype Host = Host(read: string -> (real, nat), show: real -> string, table: seq<Def>)

  /** mq_feature_lookup, for a name that is already in lower case */
  function Lookup(host: Host, name: string): (r: Option<Def>)
    ensures r.Some? ==> r.value.name == name
  {
    FindDef(host.table, name)
  }

  /** The size of the viewport. */
  datatype Viewport = Viewport(w: real, h: real)

  /** mq_parse_number */
  function ReadNumber(host: Host, u: string): (r: Option<(real, nat)>)
    ensures r.Some? ==> 0 < r.value.1 <= |u|
  {
    var (v, n) := host.read(u);
    if n == 0 || n > |u| then None else Some((v, n))
  }

  function Min(a: real, b: real): real {
    if a < b then a else b
  }

  function Max(a: real, b: real): real {
    if a > b then a else b
  }

  /** mq_length_unit_px; the unit is in lower case */
  function LengthPx(v: real, unit: string, view: Viewport): Option<real> {
    if unit == "" || unit == "px" then Some(v)
    else if unit == "em" || unit == "rem" then Some(v * 16.0)
    else if unit == "ex" || unit == "ch" then Some(v * 8.0)
    else if unit == "cm" then Some(v * 96.0 / 2.54)
    else if unit == "mm" then Some(v * 96.0 / 25.4)
    else if unit == "q" then Some(v * 96.0 / 101.6)
    else if unit == "in" then Some(v * 96.0)
    else if unit == "pt" then Some(v * 96.0 / 72.0)
    else if unit == "pc" then Some(v * 16.0)
    else if unit == "vw" then Some(Percent(v, view.w))
    else if unit == "vh" then Some(Percent(v, view.h))
    else if unit == "vmin" then Some(Percent(v, Min(view.w, view.h)))
    else if unit == "vmax" then Some(Percent(v, Max(view.w, view.h)))
    else None
  }

  function Percent(v: real, whole: real): real {
    v * whole / 100.0
  }

  /** mq_resolution_unit_dppx */
  function ResolutionDppx(v: real, unit: string): Option<real> {
    if unit == "dppx" || unit == "x" then Some(v)
    else if unit == "dpi" then Some(v / 96.0)
    else if unit == "dpcm" then Some(v * 2.54 / 96.0)
    else None
  }

  function Convert(kind: Kind, v: real, unit: string, view: Viewport): Option<real> {
    if kind == Resolution then ResolutionDppx(v, unit) else LengthPx(v, unit, view)
  }

  /** The letters in front, at most `most`. */
  function AlphaLen(u: string, most: nat, percent: bool): (n: nat)
    ensures n <= |u| && n <= most && forall i :: 0 <= i < n ==> IsAlpha(u[i]) || u[i] == '%'
  {
    if u == "" || most == 0 || !(IsAlpha(u[0]) || (percent && u[0] == '%')) then 0
    else 1 + AlphaLen(u[1..], most - 1, percent)
  }

  // ---------- calc() ----------

  /** A value, whether it is a plain number, and how much was read. */
  datatype Calc = Calc(value: real, number: bool, read: nat)

  /** mq_calc_primary */
  function CalcPrimary(host: Host, kind: Kind, view: Viewport, u: string, depth: nat): (r: Option<Calc>)
    ensures r.Some? ==> r.value.read <= |u|
    decreases MAX_DEPTH + 1 - depth, |u|, 0
  {
    if depth > MAX_DEPTH then None
    else
      var p := WsLen(u);
      if p < |u| && u[p] == '(' then CalcInner(host, kind, view, u, p + 1, depth)
      else if StartsWithAnyCase(u[p..], "calc(") then CalcInner(host, kind, view, u, p + 5, depth)
      else CalcNumber(host, kind, view, u, p)
  }

  /** A number, with a unit or without one. */
  function CalcNumber(host: Host, kind: Kind, view: Viewport, u: string, p: nat): (r: Option<Calc>)
    requires p <= |u|
    ensures r.Some? ==> r.value.read <= |u|
  {
    var number := ReadNumber(host, u[p..]);
    if number.None? then None
    else
      var q := p + number.value.1;
      var n := AlphaLen(u[q..], 7, true);
      if n == 0 then Some(Calc(number.value.0, true, q))
      else
        var c := Convert(kind, number.value.0, Lower(u[q..q + n]), view);
        if c.None? then None else Some(Calc(c.value, false, q + n))
  }

  /** Behind an opening parenthesis, the closing one may be missing at the end. */
  function CalcInner(host: Host, kind: Kind, view: Viewport, u: string, p: nat, depth: nat): (r: Option<Calc>)
    requires p <= |u| && depth <= MAX_DEPTH
    ensures r.Some? ==> r.value.read <= |u|
    decreases MAX_DEPTH - depth, |u| + 1
  {
    var inner := CalcSum(host, kind, view, u[p..], depth + 1);
    if inner.None? then None
    else
      var q := p + inner.value.read;
      var e := q + WsLen(u[q..]);
      Some(Calc(inner.value.value, false, if e < |u| && u[e] == ')' then e + 1 else e))
  }

  /** The loop of mq_calc_product */
  function ProductTail(host: Host, kind: Kind, view: Viewport, u: string, acc: Calc, depth: nat): (r: Option<Calc>)
    requires acc.read <= |u|
    ensures r.Some? ==> acc.read <= r.value.read <= |u|
    decreases MAX_DEPTH + 1 - depth, |u|, 1, |u| - acc.read
  {
    var p := acc.read + WsLen(u[acc.read..]);
    if p == |u| || (u[p] != '*' && u[p] != '/') then Some(acc)
    else
      var rest := u[p + 1..];
      assert |rest| < |u|;
      var rhs := CalcPrimary(host, kind, view, rest, depth);
      if rhs.None? then None
      else
        var read := p + 1 + rhs.value.read;
        if u[p] == '*' then
          if !acc.number && !rhs.value.number then None
          else ProductTail(host, kind, view, u,
                           Calc(acc.value * rhs.value.value, acc.number && rhs.value.number, read), depth)
        else if !rhs.value.number || rhs.value.value == 0.0 then None
        else ProductTail(host, kind, view, u, Calc(acc.value / rhs.value.value, acc.number, read), depth)
  }

  /** mq_calc_product */
  function CalcProduct(host: Host, kind: Kind, view: Viewport, u: string, depth: nat): (r: Option<Calc>)
    ensures r.Some? ==> r.value.read <= |u|
    decreases MAX_DEPTH + 1 - depth, |u|, 2
  {
    var first := CalcPrimary(host, kind, view, u, depth);
    if first.None? then None else ProductTail(host, kind, view, u, first.value, depth)
  }

  /** The loop of mq_calc_sum: plus and minus must stand between white space. */
  function SumTail(host: Host, kind: Kind, view: Viewport, u: string, acc: Calc, depth: nat): (r: Option<Calc>)
    requires acc.read <= |u|
    ensures r.Some? ==> acc.read <= r.value.read <= |u|
    decreases MAX_DEPTH + 1 - depth, |u|, 3, |u| - acc.read
  {
    var p := acc.read + WsLen(u[acc.read..]);
    if p == |u| || (u[p] != '+' && u[p] != '-') then Some(acc)
    else if p == acc.read || p + 1 == |u| || !IsSpace(u[p + 1]) then None
    else
      var rest := u[p + 1..];
      assert |rest| < |u|;
      var rhs := CalcProduct(host, kind, view, rest, depth);
      if rhs.None? || rhs.value.number != acc.number then None
      else SumTail(host, kind, view, u,
                   Calc(if u[p] == '+' then acc.value + rhs.value.value else acc.value - rhs.value.value,
                        acc.number, p + 1 + rhs.value.read), depth)
  }

  /** mq_calc_sum */
  function CalcSum(host: Host, kind: Kind, view: Viewport, u: string, depth: nat): (r: Option<Calc>)
    ensures r.Some? ==> r.value.read <= |u|
    decreases MAX_DEPTH + 1 - depth, |u|, 4
  {
    if depth > MAX_DEPTH then None
    else
      var first := CalcProduct(host, kind, view, u, depth);
      if first.None? then None else SumTail(host, kind, view, u, first.value, depth)
  }

  /** mq_parse_calc, on a text that starts with `calc(` */
  function ParseCalc(host: Host, kind: Kind, view: Viewport, s: string): Option<real>
    requires |s| >= 5
  {
    var sum := CalcSum(host, kind, view, s[5..], 0);
    if sum.None? then None
    else
      var q := 5 + sum.value.read;
      var e := q + WsLen(s[q..]);
      var end := if e < |s| && s[e] == ')' then e + 1 else e;
      if end + WsLen(s[end..]) == |s| then Some(sum.value.value) else None
  }

  // ---------- values ----------

  /** mq_value.  `Quantity` is a length or a resolution as it is written, `Calculated` one in pixels or dots
      per pixel that a calc() expression came to. */
  datatype Value =
    | Keyword(ident: string) | Whole(num: real) | Fraction(num: real, denom: real)
    | Quantity(num: real, unit: string) | Calculated(num: real)

  function ParseWhole(host: Host, def: Def, s: string): Option<Value>
    requires s != ""
  {
    var digits := if s[0] == '+' || s[0] == '-' then s[1..] else s;
    if digits == "" || !AllDigits(digits) then None
    else
      var v := host.read(s).0;
      if def.name == "grid" && v != 0.0 && v != 1.0 then None else Some(Whole(v))
  }

  function ParseFraction(host: Host, s: string): Option<Value> {
    var a := ReadNumber(host, s);
    if a.None? || a.value.0 < 0.0 then None
    else
      var rest := SkipWs(s[a.value.1..]);
      if rest == "" then Some(Fraction(a.value.0, 1.0))
      else if rest[0] != '/' then None
      else
        var second := SkipWs(rest[1..]);
        var b := ReadNumber(host, second);
        if b.None? || b.value.0 < 0.0 || SkipWs(second[b.value.1..]) != "" then None
        else Some(Fraction(a.value.0, b.value.0))
  }

  function ParseQuantity(host: Host, kind: Kind, view: Viewport, s: string): Option<Value> {
    if StartsWithAnyCase(s, "calc(") then
      var v := ParseCalc(host, kind, view, s);
      if v.None? then None else Some(Calculated(v.value))
    else
      var number := ReadNumber(host, s);
      if number.None? || (kind == Resolution && number.value.0 < 0.0) then None
      else
        var rest := s[number.value.1..];
        var unit := Lower(rest);
        if AlphaLen(rest, 7, false) != |rest| then None
        else if unit == "" then
          (if kind == Resolution || number.value.0 != 0.0 then None else Some(Quantity(0.0, "px")))
        else if Convert(kind, number.value.0, unit, view).None? then None
        else Some(Quantity(number.value.0, unit))
  }

  /** mq_value_parse */
  function ParseValue(host: Host, def: Def, view: Viewport, text: string): Option<Value> {
    var s := Trim(text);
    if s == "" then None
    else match def.kind
      case Discrete =>
        var ident := ReadIdent(s, 24);
        if ident.None? || SkipWs(s[IdentLen(s)..]) != "" || ident.value !in def.keywords then None
        else Some(Keyword(ident.value))
      case Integer => ParseWhole(host, def, s)
      case Ratio => ParseFraction(host, s)
      case _ => ParseQuantity(host, def.kind, view, s)
  }

  // ---------- feature tests ----------

  datatype Op = EQ | LT | LE | GT | GE

  datatype Bound = Exactly | AtLeast | AtMost

  /** The ways to test a feature: present at all, `min-name: v`, `name op v`, and `v op name op v`. */
  datatype Test =
    | Present | Plain(bound: Bound, v: Value) | Compare(op: Op, v: Value) | Range(low: Value, op1: Op, op2: Op, high: Value)

  datatype Node =
    | Feature(def: Def, test: Test) | Not(kid: Node) | And(kids: seq<Node>) | Or(kids: seq<Node>) | Enclosed(text: string)

  function ColonAt(u: string, depth: nat): (n: nat)
    ensures n <= |u| && (n < |u| ==> u[n] == ':')
  {
    if u == "" then 0
    else if u[0] == '(' then 1 + ColonAt(u[1..], depth + 1)
    else if u[0] == ')' then 1 + ColonAt(u[1..], if depth > 0 then depth - 1 else 0)
    else if u[0] == ':' && depth == 0 then 0
    else 1 + ColonAt(u[1..], depth)
  }

  predicate IsOpChar(c: char) {
    c == '<' || c == '>' || c == '='
  }

  /** mq_find_op: the position of the first comparison outside parentheses, or the length */
  function OpAt(u: string, depth: nat): (n: nat)
    ensures n <= |u| && (n < |u| ==> IsOpChar(u[n]))
  {
    if u == "" then 0
    else if u[0] == '(' then 1 + OpAt(u[1..], depth + 1)
    else if u[0] == ')' then 1 + OpAt(u[1..], if depth > 0 then depth - 1 else 0)
    else if IsOpChar(u[0]) && depth == 0 then 0
    else 1 + OpAt(u[1..], depth)
  }

  /** The operator that starts a text. */
  function ReadOp(u: string): Op
    requires u != "" && IsOpChar(u[0])
  {
    if u[0] == '<' then (if |u| > 1 && u[1] == '=' then LE else LT)
    else if u[0] == '>' then (if |u| > 1 && u[1] == '=' then GE else GT)
    else EQ
  }

  function OpText(op: Op): string {
    match op case EQ => "=" case LT => "<" case LE => "<=" case GT => ">" case GE => ">="
  }

  /** What follows the operator that starts a text. */
  function AfterOp(u: string): (r: string)
    requires u != "" && IsOpChar(u[0])
    ensures |r| < |u|
  {
    if ReadOp(u) == LE || ReadOp(u) == GE then u[2..] else u[1..]
  }

  function Flip(op: Op): Op {
    match op case EQ => EQ case LT => GT case LE => GE case GT => LT case GE => LE
  }

  /** mq_side_is_feature */
  function SideFeature(host: Host, text: string): Option<Def> {
    var s := Trim(text);
    var ident := ReadIdent(s, 40);
    if ident.None? || IdentLen(s) != |s| then None
    else
      var def := Lookup(host, ident.value);
      if def.None? || def.value.kind == Discrete || def.value.name == "grid" then None else def
  }

  function ParsePlain(host: Host, view: Viewport, s: string, colon: nat): Option<Node>
    requires colon < |s|
  {
    var front := s[..colon];
    var name := ReadIdent(front, 40);
    if name.None? || SkipWs(front[IdentLen(front)..]) != "" then None
    else ParseBounded(host, view, name.value, s[colon + 1..])
  }

  /** A feature name, maybe with a prefix, and the text of its value. */
  function ParseBounded(host: Host, view: Viewport, name: string, text: string): Option<Node> {
    var bound := if StartsWith(name, "min-") then AtLeast else if StartsWith(name, "max-") then AtMost else Exactly;
    var def := Lookup(host, if bound == Exactly then name else name[4..]);
    if def.None? || (bound != Exactly && (def.value.kind == Discrete || def.value.name == "grid")) then None
    else
      var v := ParseValue(host, def.value, view, text);
      if v.None? then None else Some(Feature(def.value, Plain(bound, v.value)))
  }

  predicate SameDirection(a: Op, b: Op) {
    ((a == LT || a == LE) && (b == LT || b == LE)) || ((a == GT || a == GE) && (b == GT || b == GE))
  }

  function ParseRange(host: Host, view: Viewport, left: string, op1: Op, mid: string, op2: Op, right: string): Option<Node> {
    var def := SideFeature(host, mid);
    if def.None? || !SameDirection(op1, op2) then None
    else
      var a, b := ParseValue(host, def.value, view, left), ParseValue(host, def.value, view, right);
      if a.None? || b.None? then None else Some(Feature(def.value, Range(a.value, op1, op2, b.value)))
  }

  function ParseCompare(host: Host, view: Viewport, left: string, op: Op, right: string): Option<Node> {
    var def := SideFeature(host, left);
    if def.Some? then
      var v := ParseValue(host, def.value, view, right);
      if v.None? then None else Some(Feature(def.value, Compare(op, v.value)))
    else
      var other := SideFeature(host, right);
      if other.None? then None
      else
        var v := ParseValue(host, other.value, view, left);
        if v.None? then None else Some(Feature(other.value, Compare(Flip(op), v.value)))
  }

  /** A test with one or two comparisons, behind the first operator `op1` */
  function ParseComparisons(host: Host, view: Viewport, left: string, op1: Op, after1: string): Option<Node> {
    var p2 := OpAt(after1, 0);
    if p2 < |after1| then
      ParseRange(host, view, left, op1, after1[..p2], ReadOp(after1[p2..]), AfterOp(after1[p2..]))
    else ParseCompare(host, view, left, op1, after1)
  }

  function ParsePresent(host: Host, s: string): Option<Node> {
    var name := ReadIdent(s, 40);
    if name.None? || SkipWs(s[IdentLen(s)..]) != "" then None
    else
      var def := Lookup(host, name.value);
      if def.None? then None else Some(Feature(def.value, Present))
  }

  /** mq_parse_feature */
  function ParseFeature(host: Host, view: Viewport, text: string): Option<Node> {
    var s := Trim(text);
    var colon, p1 := ColonAt(s, 0), OpAt(s, 0);
    if s == "" then None
    else if colon < |s| then ParsePlain(host, view, s, colon)
    else if p1 < |s| then ParseComparisons(host, view, s[..p1], ReadOp(s[p1..]), AfterOp(s[p1..]))
    else ParsePresent(host, s)
  }

  // ---------- conditions ----------

  /** A node and how much was read. */
  datatype Parsed = Parsed(node: Node, read: nat)

  /** How far one is behind a parenthesis that may be missing at the end. */
  function PastClose(u: string, close: nat): (n: nat)
    requires close <= |u|
    ensures close <= n <= |u|
  {
    if close < |u| then close + 1 else |u|
  }

  /** mq_parse_feature, for the parser of conditions, which knows no more of it than what it returns. */
  type FeatureParser = string -> Option<Node>

  function Features(host: Host, view: Viewport): FeatureParser {
    (s: string) => ParseFeature(host, view, s)
  }

  /** mq_parse_in_parens */
  function ParseInParens(feature: FeatureParser, u: string, depth: nat): (r: Option<Parsed>)
    ensures r.Some? ==> 0 < r.value.read <= |u|
    decreases MAX_DEPTH + 1 - depth, |u| + 1
  {
    if depth > MAX_DEPTH then None
    else
      var p := WsLen(u);
      if p < |u| && u[p] == '(' then
        var close := p + 1 + CloseParen(u[p + 1..], 1);
        ParseGroup(feature, u[p + 1..close], PastClose(u, close), depth)
      else
        var ident := ReadIdent(u[p..], 40);
        var q := p + IdentLen(u[p..]);
        if ident.Some? && q < |u| && u[q] == '(' then
          var inner := q + 1;
          var close := inner + CloseParen(u[inner..], 1);
          if !AnyValueOk(u[inner..close], 0, 0, 0) then None
          else Some(Parsed(Enclosed(u[p..PastClose(u, close)]), PastClose(u, close)))
        else None
  }

  /** What stands between parentheses, of which the closing one ends at `end` */
  function ParseGroup(feature: FeatureParser, inner: string, end: nat, depth: nat): (r: Option<Parsed>)
    requires depth <= MAX_DEPTH && 0 < end
    ensures r.Some? ==> r.value.read == end
    decreases MAX_DEPTH + 1 - depth, |inner|
  {
    var cond := ParseCondition(feature, inner, true, depth + 1);
    if cond.Some? && SkipWs(inner[cond.value.read..]) == "" then Some(Parsed(And([cond.value.node]), end))
    else
      var test := feature(inner);
      if test.Some? then Some(Parsed(test.value, end))
      else if !AnyValueOk(inner, 0, 0, 0) then None
      else Some(Parsed(Enclosed(Trim(inner)), end))
  }

  /** The loop of mq_parse_condition: further operands behind the keyword `kw`, from `p` on. */
  function ParseMore(feature: FeatureParser, u: string, p: nat, kw: string, depth: nat): (r: Option<(seq<Node>, nat)>)
    requires p <= |u| && depth <= MAX_DEPTH
    ensures r.Some? ==> p <= r.value.1 <= |u|
    decreases MAX_DEPTH + 1 - depth, 0, |u| - p, 1
  {
    var q := p + WsLen(u[p..]);
    if q == |u| || !KeywordAt(u[q..], kw) then Some(([], p)) else ParseNext(feature, u, q + |kw|, kw, depth)
  }

  /** One operand behind the keyword, from `p` on, and those that follow it. */
  function ParseNext(feature: FeatureParser, u: string, p: nat, kw: string, depth: nat): (r: Option<(seq<Node>, nat)>)
    requires p <= |u| && depth <= MAX_DEPTH
    ensures r.Some? ==> p <= r.value.1 <= |u|
    decreases MAX_DEPTH + 1 - depth, 0, |u| - p, 0
  {
    var next := ParseInParens(feature, u[p..], depth + 1);
    if next.None? then None else ParseBehind(feature, u, next.value.node, p + next.value.read, kw, depth)
  }

  function ParseBehind(feature: FeatureParser, u: string, node: Node, p: nat, kw: string, depth: nat): (r: Option<(seq<Node>, nat)>)
    requires p <= |u| && depth <= MAX_DEPTH
    ensures r.Some? ==> p <= r.value.1 <= |u|
    decreases MAX_DEPTH + 1 - depth, 0, |u| - p, 2
  {
    Prepend(node, ParseMore(feature, u, p, kw, depth))
  }

  function Prepend(node: Node, more: Option<(seq<Node>, nat)>): (r: Option<(seq<Node>, nat)>)
    ensures more.Some? ==> r == Some(([node] + more.value.0, more.value.1))
  {
    if more.None? then None else Some(([node] + more.value.0, more.value.1))
  }

  /** mq_parse_condition behind its first operand, which ends at `p` */
  function ParseRest(feature: FeatureParser, u: string, first: Node, p: nat, allowOr: bool, depth: nat): (r: Option<Parsed>)
    requires 0 < p <= |u| && depth <= MAX_DEPTH
    ensures r.Some? ==> 0 < r.value.read <= |u|
    decreases MAX_DEPTH + 1 - depth, 0, |u| + 1
  {
    var rest := SkipWs(u[p..]);
    var useAnd := KeywordAt(rest, "and");
    if !(useAnd || (allowOr && KeywordAt(rest, "or"))) then Some(Parsed(first, p))
    else
      var more := ParseMore(feature, u, p, if useAnd then "and" else "or", depth);
      if more.None? then None
      else Some(Parsed(if useAnd then And([first] + more.value.0) else Or([first] + more.value.0), more.value.1))
  }

  /** mq_parse_condition where no `not` stands, behind white space up to `p` */
  function ParseFirst(feature: FeatureParser, u: string, p: nat, allowOr: bool, depth: nat): (r: Option<Parsed>)
    requires p <= |u| && depth <= MAX_DEPTH
    ensures r.Some? ==> 0 < r.value.read <= |u|
    decreases MAX_DEPTH + 1 - depth, 0, |u| + 2
  {
    var first := ParseInParens(feature, u[p..], depth + 1);
    if first.None? then None else ParseRest(feature, u, first.value.node, p + first.value.read, allowOr, depth)
  }

  /** mq_parse_condition behind the keyword `not` */
  function ParseNot(feature: FeatureParser, u: string, p: nat, depth: nat): (r: Option<Parsed>)
    requires p <= |u| && depth <= MAX_DEPTH
    ensures r.Some? ==> 0 < r.value.read <= |u|
    decreases MAX_DEPTH + 1 - depth, 0, |u| + 1
  {
    var kid := ParseInParens(feature, u[p..], depth + 1);
    if kid.None? then None else Some(Parsed(Not(kid.value.node), p + kid.value.read))
  }

  /** mq_parse_condition */
  function ParseCondition(feature: FeatureParser, u: string, allowOr: bool, depth: nat): (r: Option<Parsed>)
    ensures r.Some? ==> 0 < r.value.read <= |u|
    decreases MAX_DEPTH + 1 - depth, 1
  {
    if depth > MAX_DEPTH then None
    else
      var s := WsLen(u);
      if KeywordAt(u[s..], "not") then
        ParseNot(feature, u, s + 3, depth)
      else
        ParseFirst(feature, u, s, allowOr, depth)
  }

  // ---------- queries ----------

  datatype Query =
    | Invalid
    | Condition(cond: Node)
    | Typed(mediaType: string, negated: bool, only: bool, tail: Option<Node>)

  predicate IsReserved(ident: string) {
    ident == "not" || ident == "only" || ident == "and" || ident == "or" || ident == "layer"
  }

  /** Behind the media type of `q` */
  function ParseTail(feature: FeatureParser, rest: string, q: Query): Query
    requires q.Typed?
  {
    if rest == "" then q
    else if !KeywordAt(rest, "and") then Invalid
    else
      var tail := ParseCondition(feature, rest[3..], false, 0);
      if tail.None? || SkipWs(rest[3..][tail.value.read..]) != "" then Invalid else q.(tail := Some(tail.value.node))
  }

  function ParseMediaType(feature: FeatureParser, p: string, negated: bool, only: bool): Query {
    var mediaType := ReadIdent(p, 64);
    if mediaType.None? || IsReserved(mediaType.value) then Invalid
    else ParseTail(feature, SkipWs(p[IdentLen(p)..]), Typed(mediaType.value, negated, only, None))
  }

  /** The second half of mq_parse_query: a media type */
  function ParseTyped(feature: FeatureParser, s: string): Query {
    var first := ReadIdent(s, 64);
    if first.None? then Invalid
    else
      var negated, only := first.value == "not", first.value == "only";
      ParseMediaType(feature, SkipWs(if negated || only then s[IdentLen(s)..] else s), negated, only)
  }

  /** mq_parse_query, for a text without white space at its ends */
  function ParseTrimmed(feature: FeatureParser, s: string): Query {
    if s == "" then Invalid
    else
      var cond := ParseCondition(feature, s, true, 0);
      if cond.Some? && SkipWs(s[cond.value.read..]) == "" then Condition(cond.value.node) else ParseTyped(feature, s)
  }

  /** mq_parse_query */
  function ParseQuery(host: Host, view: Viewport, text: string): Query {
    ParseTrimmed(Features(host, view), Trim(text))
  }

  /** mq_split_next: the end of the first segment */
  function SegmentEnd(u: string, paren: nat, bracket: nat): (n: nat)
    ensures n <= |u| && (n < |u| ==> u[n] == ',')
  {
    if u == "" then 0
    else if u[0] == '(' then 1 + SegmentEnd(u[1..], paren + 1, bracket)
    else if u[0] == ')' then 1 + SegmentEnd(u[1..], if paren > 0 then paren - 1 else 0, bracket)
    else if u[0] == '[' then 1 + SegmentEnd(u[1..], paren, bracket + 1)
    else if u[0] == ']' then 1 + SegmentEnd(u[1..], paren, if bracket > 0 then bracket - 1 else 0)
    else if u[0] == ',' && paren == 0 && bracket == 0 then 0
    else 1 + SegmentEnd(u[1..], paren, bracket)
  }

  /** mq_parse_query, for the loops over a list, which know no more of it than what it returns. */
  type QueryParser = string -> Query

  function Queries(host: Host, view: Viewport): QueryParser {
    (s: string) => ParseQuery(host, view, s)
  }

  /** The queries of a list, as the two loops over it see them: nothing behind a comma at the end. */
  function ParseList(parse: QueryParser, u: string): seq<Query>
    decreases |u|
  {
    if u == "" then []
    else
      var e := SegmentEnd(u, 0, 0);
      [parse(u[..e])] + (if e == |u| then [] else ParseList(parse, u[e + 1..]))
  }
}
