/**
 Values of media features survive being written and read again.
 */
module MediaValues {
  import opened Common
  import opened Strings
  import opened MediaSyntax
  import opened MediaText
  import opened MediaScan

  lemma NumberIsWord(host: Host, num: real)
    requires Exact(host, num)
    ensures IsWord(host.show(num)) && IsTight(host.show(num)) && host.show(num)[0] != '(' && !IsAlpha(host.show(num)[0])
  {
    var t := host.show(num);
    assert IsNumberChar(t[0]) && IsNumberChar(t[|t| - 1]);
  }

  lemma NumberReads(host: Host, num: real, rest: string)
    requires Exact(host, num) && Follows(rest)
    ensures ReadNumber(host, host.show(num) + rest) == Some((num, |host.show(num)|))
    ensures (host.show(num) + rest)[|host.show(num)|..] == rest
  {
  }

  lemma NumberReadsAlone(host: Host, num: real)
    requires Exact(host, num)
    ensures ReadNumber(host, host.show(num)) == Some((num, |host.show(num)|)) && host.read(host.show(num)).0 == num
  {
    assert host.show(num) + "" == host.show(num);
    NumberReads(host, num, "");
  }

  /** Units are short words in lower-case letters, and the conversions know them. */
  lemma UnitText(kind: Kind, unit: string, v: real, view: Viewport)
    requires IsUnit(kind, unit)
    ensures 0 < |unit| <= 7 && (forall i :: 0 <= i < |unit| ==> 'a' <= unit[i] <= 'z')
    ensures Convert(kind, v, unit, view).Some?
  {
  }

  lemma LowerUnit(unit: string)
    requires forall i :: 0 <= i < |unit| ==> 'a' <= unit[i] <= 'z'
    ensures Lower(unit) == unit
  {
  }

  // ---------- the shape of value texts ----------

  lemma WordsJoin(a: string, b: string)
    requires IsWord(a) && forall i :: 0 <= i < |b| ==> IsWordChar(b[i])
    ensures IsWord(a + b)
  {
  }

  lemma CalcShape(w: string)
    requires IsWord(w)
    ensures Quiet("calc(" + w + ")") && Closed("calc(" + w + ")") && IsTight("calc(" + w + ")")
  {
    forall i | 0 <= i < |w| ensures w[i] != '(' && w[i] != ')' { assert IsWordChar(w[i]); }
    QuietGroup("calc", w);
    WordIsQuiet(w);
    WordIsQuiet("calc");
    ClosedGroup(w);
    ClosedConcat("calc", "(" + w + ")");
    assert "calc" + ("(" + w + ")") == "calc(" + w + ")";
    assert "calc" + "(" + w + ")" == "calc(" + w + ")";
  }

  lemma FractionShape(a: string, b: string)
    requires IsWord(a) && IsWord(b)
    ensures Quiet(a + " / " + b) && Closed(a + " / " + b) && IsTight(a + " / " + b)
  {
    var t := a + " / " + b;
    forall i | 0 <= i < |t| ensures IsQuietChar(t[i]) && IsPlainChar(t[i]) {
      if i < |a| { assert t[i] == a[i]; } else if i >= |a| + 3 { assert t[i] == b[i - |a| - 3]; }
    }
    QuietChars(t);
    PlainClosed(t);
    assert t[0] == a[0] && t[|t| - 1] == b[|b| - 1];
  }

  lemma ValueShape(host: Host, def: Def, v: Value)
    requires LegalValue(host, def, v)
    ensures var t := ValueText(host, def.kind, v); Quiet(t) && Closed(t) && IsTight(t)
  {
    match v
    case Keyword(ident) =>
      IdentIsTight(ident);
      WordIsQuiet(ident);
    case Whole(num) =>
      NumberIsWord(host, num);
      WordIsQuiet(host.show(num));
    case Fraction(num, denom) =>
      NumberIsWord(host, num);
      NumberIsWord(host, denom);
      FractionShape(host.show(num), host.show(denom));
    case Quantity(num, unit) =>
      NumberIsWord(host, num);
      UnitText(def.kind, unit, 0.0, Viewport(0.0, 0.0));
      WordsJoin(host.show(num), unit);
      WordIsQuiet(host.show(num) + unit);
    case Calculated(num) =>
      NumberIsWord(host, num);
      WordsJoin(host.show(num), CalcUnit(def.kind));
      CalcShape(host.show(num) + CalcUnit(def.kind));
  }

  // ---------- reading them ----------

  lemma NotCalc(s: string)
    requires s == "" || LowerChar(s[0]) != 'c'
    ensures !StartsWithAnyCase(s, "calc(")
  {
    if |s| >= 5 { assert Lower(s[..5])[0] == LowerChar(s[0]); }
  }

  lemma FractionReads(host: Host, num: real, denom: real)
    requires Exact(host, num) && Exact(host, denom) && num >= 0.0 && denom >= 0.0
    ensures ParseFraction(host, host.show(num) + " / " + host.show(denom)) == Some(Fraction(num, denom))
  {
    var a, b := host.show(num), host.show(denom);
    var s := a + " / " + b;
    assert s == a + (" / " + b);
    NumberReads(host, num, " / " + b);
    assert " / " + b == " " + ("/ " + b);
    WsOf("/ " + b);
    assert ("/ " + b)[1..] == " " + b;
    NumberIsWord(host, denom);
    WsOf(b);
    NumberReadsAlone(host, denom);
    assert b[|b|..] == "";
  }

  lemma QuantityReads(host: Host, kind: Kind, view: Viewport, num: real, unit: string)
    requires kind == Length || kind == Resolution
    requires Exact(host, num) && IsUnit(kind, unit) && (kind == Resolution ==> num >= 0.0)
    ensures ParseQuantity(host, kind, view, host.show(num) + unit) == Some(Quantity(num, unit))
  {
    NumberIsWord(host, num);
    NotCalc(host.show(num) + unit);
    UnitText(kind, unit, num, view);
    LowerUnit(unit);
    assert Follows(unit);
    NumberReads(host, num, unit);
    AlphaLenIs(unit, 7);
  }

  /** A number with this unit comes to `c`. */
  predicate ComesTo(kind: Kind, view: Viewport, num: real, unit: string, c: real) {
    (kind == Length || kind == Resolution) && IsUnit(kind, unit) && Convert(kind, num, unit, view) == Some(c)
  }

  lemma UnitFollows(kind: Kind, unit: string)
    requires IsUnit(kind, unit)
    ensures Follows(unit + ")")
  {
    var t := unit + ")";
    assert t[..|t| - 1] == unit;
  }

  /** A calc() expression of one term. */
  lemma OneTerm(host: Host, kind: Kind, view: Viewport, num: real, unit: string, c: real, u: string)
    requires Exact(host, num) && ComesTo(kind, view, num, unit, c) && u == host.show(num) + (unit + ")")
    ensures CalcPrimary(host, kind, view, u, 0) == Some(Calc(c, false, |u| - 1))
    ensures u[|u| - 1] == ')'
  {
    var t := host.show(num);
    NumberIsWord(host, num);
    assert u[0] == t[0];
    assert u[0..] == u && WsLen(u) == 0;
    NotCalc(u);
    OneNumber(host, kind, view, num, unit, c, u);
  }

  lemma OneNumber(host: Host, kind: Kind, view: Viewport, num: real, unit: string, c: real, u: string)
    requires Exact(host, num) && ComesTo(kind, view, num, unit, c) && u == host.show(num) + (unit + ")")
    ensures CalcNumber(host, kind, view, u, 0) == Some(Calc(c, false, |u| - 1))
  {
    var t := host.show(num);
    assert u[0..] == u;
    UnitFollows(kind, unit);
    NumberReads(host, num, unit + ")");
    UnitBehind(kind, t, unit, u);
    UnitConverts(kind, unit, num, view, c);
    NumberWithUnit(host, kind, view, u, num, |t|, unit, c);
  }

  lemma NumberWithUnit(host: Host, kind: Kind, view: Viewport, u: string, num: real, q: nat, unit: string, c: real)
    requires u[0..] == u && ReadNumber(host, u) == Some((num, q)) && q + |unit| <= |u| && |unit| > 0
    requires AlphaLen(u[q..], 7, true) == |unit| && u[q..q + |unit|] == unit && Convert(kind, num, Lower(unit), view) == Some(c)
    ensures CalcNumber(host, kind, view, u, 0) == Some(Calc(c, false, q + |unit|))
  {
  }

  lemma UnitConverts(kind: Kind, unit: string, num: real, view: Viewport, c: real)
    requires ComesTo(kind, view, num, unit, c)
    ensures |unit| > 0 && Convert(kind, num, Lower(unit), view) == Some(c)
  {
    UnitText(kind, unit, num, view);
    LowerUnit(unit);
  }

  lemma UnitBehind(kind: Kind, t: string, unit: string, u: string)
    requires IsUnit(kind, unit) && u == t + (unit + ")")
    ensures u[|t|..] == unit + ")" && AlphaLen(u[|t|..], 7, true) == |unit| && u[|t|..|t| + |unit|] == unit
  {
    UnitText(kind, unit, 0.0, Viewport(0.0, 0.0));
    assert u[|t|..] == unit + ")";
    AlphaLenStops(unit, ")", 7, true);
  }

  /** Before a closing parenthesis no operator follows. */
  lemma TailsStop(host: Host, kind: Kind, view: Viewport, u: string, acc: Calc)
    requires u != "" && u[|u| - 1] == ')' && acc.read == |u| - 1
    ensures ProductTail(host, kind, view, u, acc, 0) == Some(acc) && SumTail(host, kind, view, u, acc, 0) == Some(acc)
  {
    LastParen(u);
  }

  lemma OneTermSum(host: Host, kind: Kind, view: Viewport, num: real, unit: string, c: real, u: string)
    requires Exact(host, num) && ComesTo(kind, view, num, unit, c) && u == host.show(num) + (unit + ")")
    ensures CalcSum(host, kind, view, u, 0) == Some(Calc(c, false, |u| - 1)) && u[|u| - 1] == ')'
  {
    OneTerm(host, kind, view, num, unit, c, u);
    TailsStop(host, kind, view, u, Calc(c, false, |u| - 1));
  }

  /** A calc() expression of one number with a unit is read as what that comes to. */
  lemma CalcReads(host: Host, kind: Kind, view: Viewport, num: real, unit: string, c: real)
    requires Exact(host, num) && ComesTo(kind, view, num, unit, c)
    ensures ParseQuantity(host, kind, view, "calc(" + (host.show(num) + unit) + ")") == Some(Calculated(c))
  {
    var s := "calc(" + (host.show(num) + unit) + ")";
    var u := host.show(num) + (unit + ")");
    assert s == "calc(" + u;
    assert s[..5] == "calc(" && Lower("calc(") == "calc(" && s[5..] == u;
    CalcEnds(host, kind, view, num, unit, c, u, s);
  }

  lemma CalcEnds(host: Host, kind: Kind, view: Viewport, num: real, unit: string, c: real, u: string, s: string)
    requires Exact(host, num) && ComesTo(kind, view, num, unit, c) && u == host.show(num) + (unit + ")")
    requires |s| == |u| + 5 && s[5..] == u
    ensures ParseCalc(host, kind, view, s) == Some(c)
  {
    OneTermSum(host, kind, view, num, unit, c, u);
    assert s[|s| - 1] == u[|u| - 1];
    LastParen(s);
    assert WsLen(s[|s|..]) == 0;
  }

  lemma LastParen(u: string)
    requires u != "" && u[|u| - 1] == ')'
    ensures WsLen(u[|u| - 1..]) == 0
  {
    assert u[|u| - 1..][0] == ')';
  }

  /** Reading what was written gives the value back, with white space around it or not. */
  lemma ValueRoundTrip(host: Host, def: Def, view: Viewport, v: Value, text: string)
    requires LegalValue(host, def, v) && Trim(text) == ValueText(host, def.kind, v)
    ensures ParseValue(host, def, view, text) == Some(v)
  {
    ValueShape(host, def, v);
    match v
    case Keyword(ident) =>
      IdentReadsAlone(ident, 24);
      assert ident[|ident|..] == "";
    case Whole(num) =>
      NumberReadsAlone(host, num);
    case Fraction(num, denom) =>
      FractionReads(host, num, denom);
    case Quantity(num, unit) =>
      QuantityReads(host, def.kind, view, num, unit);
    case Calculated(num) =>
      CalcReads(host, def.kind, view, num, CalcUnit(def.kind), num);
  }

  /** What is written for a whole number reads back exactly if it is digits and maybe a sign, and 0 or 1 for the
      feature `grid`. */
  lemma WholeReadsDigits(host: Host, def: Def, view: Viewport, num: real)
    requires def.kind == Integer
    ensures var t := Trim(host.show(num));
            ParseValue(host, def, view, ValueText(host, def.kind, Whole(num))).Some? <==>
            t != "" && IsWholeText(t) && (def.name == "grid" ==> host.read(t).0 == 0.0 || host.read(t).0 == 1.0)
  {
  }

  /** So a numeral with an exponent, as %g writes a million, is lost. */
  lemma MillionIsLost(host: Host, def: Def, view: Viewport)
    requires def.kind == Integer && host.show(1000000.0) == "1e+06"
    ensures ParseValue(host, def, view, ValueText(host, def.kind, Whole(1000000.0))).None?
  {
    TightTrims("1e+06");
    assert "1e+06"[1] == 'e';
    WholeReadsDigits(host, def, view, 1000000.0);
  }
}
