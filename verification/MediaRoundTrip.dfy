/**
 Conditions and queries survive being written and read again.
 */
module MediaRoundTrip {
  import opened Common
  import opened Strings
  import opened Locks
  import opened MediaSyntax
  import opened MediaText
  import opened MediaScan
  import opened MediaValues
  import opened MediaFeatures
  import opened MediaConditions
  import opened MediaShape

  // ---------- what stands inside parentheses ----------

  lemma NameNotNot(host: Host, def: Def)
    requires Named(host.table) && LegalDef(host, def)
    ensures Lower(def.name) != "not"
  {
    assert Lower(def.name) == def.name;
    FindsNamed(host.table, def.name);
  }

  lemma ValueNoCondition(host: Host, feature: FeatureParser, def: Def, v: Value, rest: string, depth: nat)
    requires LegalValue(host, def, v) && CanCompare(def) && rest != "" && IsOpChar(rest[0])
    ensures NotCondition(feature, ValueText(host, def.kind, v) + (" " + rest), true, depth)
  {
    var t := ValueText(host, def.kind, v) + (" " + rest);
    match v
    case Keyword(ident) =>
    case Whole(num) =>
      NumberStart(host, num);
      WordAhead(host.show(num), " " + rest, t);
      WordNoCondition(feature, t, host.show(num), true, depth);
    case Fraction(num, denom) =>
      var w, tail := host.show(num), " / " + host.show(denom) + (" " + rest);
      NumberStart(host, num);
      assert t == w + tail;
      WordAhead(w, tail, t);
      WordNoCondition(feature, t, w, true, depth);
    case Quantity(num, unit) =>
      NumberStart(host, num);
      MediaValues.UnitText(def.kind, unit, 0.0, Viewport(0.0, 0.0));
      WordsJoin(host.show(num), unit);
      WordAhead(host.show(num) + unit, " " + rest, t);
      assert Lower(host.show(num) + unit)[0] == host.show(num)[0];
      WordNoCondition(feature, t, host.show(num) + unit, true, depth);
    case Calculated(num) =>
      NumberIsWord(host, num);
      WordsJoin(host.show(num), CalcUnit(def.kind));
      CalcNoCondition(feature, t, host.show(num) + CalcUnit(def.kind), rest, depth);
  }

  lemma NumberStart(host: Host, num: real)
    requires Exact(host, num)
    ensures IsWord(host.show(num)) && host.show(num)[0] != 'n' && LowerChar(host.show(num)[0]) == host.show(num)[0]
    ensures Lower(host.show(num)) != "not"
  {
    NumberIsWord(host, num);
    assert Lower(host.show(num))[0] == host.show(num)[0];
    assert IsNumberChar(host.show(num)[0]);
  }

  lemma WordAhead(w: string, tail: string, t: string)
    requires IsWord(w) && t == w + tail && tail != "" && (tail[0] == ' ' || tail[0] == ':')
    ensures StartsWithWord(t, w)
  {
    Halves(w, tail, t);
    assert t[|w|] == tail[0];
  }

  /** The text of a feature test is not a complete condition. */
  lemma TestNoCondition(host: Host, feature: FeatureParser, def: Def, test: Test, depth: nat)
    requires Named(host.table) && LegalDef(host, def) && LegalTest(host, def, test)
    ensures NotCondition(feature, TestText(host, def, test), true, depth)
  {
    var t := TestText(host, def, test);
    NameFacts(host, def);
    NameNotNot(host, def);
    match test
    case Present =>
      assert t[..|t|] == t;
      WordNoCondition(feature, t, def.name, true, depth);
    case Plain(bound, v) =>
      PlainNoCondition(host, feature, def, bound, ValueText(host, def.kind, v), t, depth);
    case Compare(op, v) => CompareNoCondition(feature, def.name, op, ValueText(host, def.kind, v), t, depth);
    case Range(low, op1, op2, high) =>
      RangeRest(ValueText(host, def.kind, low), op1, def.name, op2, ValueText(host, def.kind, high), t);
      ValueNoCondition(host, feature, def, low,
                       OpText(op1) + " " + def.name + " " + OpText(op2) + " " + ValueText(host, def.kind, high), depth);
  }

  lemma CompareNoCondition(feature: FeatureParser, name: string, op: Op, vt: string, t: string, depth: nat)
    requires IsWord(name) && Lower(name) != "not" && t == name + " " + OpText(op) + " " + vt
    ensures NotCondition(feature, t, true, depth)
  {
    var tail := " " + (OpText(op) + (" " + vt));
    CompareTail(name, OpText(op), vt, t);
    WordAhead(name, tail, t);
    WordNoCondition(feature, t, name, true, depth);
  }

  lemma PlainTail(a: string, vt: string, t: string)
    requires t == a + ": " + vt
    ensures t == a + (": " + vt)
  {
  }

  lemma CompareTail(a: string, op: string, b: string, t: string)
    requires t == a + " " + op + " " + b
    ensures t == a + (" " + (op + (" " + b)))
  {
  }

  lemma RangeRest(a: string, op1: Op, name: string, op2: Op, b: string, t: string)
    requires t == a + " " + OpText(op1) + " " + name + " " + OpText(op2) + " " + b
    ensures var rest := OpText(op1) + " " + name + " " + OpText(op2) + " " + b;
            t == a + (" " + rest) && rest != "" && IsOpChar(rest[0])
  {
  }

  lemma PlainNoCondition(host: Host, feature: FeatureParser, def: Def, bound: Bound, vt: string, t: string, depth: nat)
    requires Named(host.table) && LegalDef(host, def) && t == BoundText(bound) + def.name + ": " + vt
    requires bound == Exactly ==> !StartsWith(def.name, "min-") && !StartsWith(def.name, "max-")
    ensures NotCondition(feature, t, true, depth)
  {
    var b := BoundText(bound) + def.name;
    BoundWord(host, def, bound, b);
    PlainTail(b, vt, t);
    WordAhead(b, ": " + vt, t);
    WordNoCondition(feature, t, b, true, depth);
  }

  lemma BoundWord(host: Host, def: Def, bound: Bound, b: string)
    requires Named(host.table) && LegalDef(host, def) && b == BoundText(bound) + def.name
    requires bound == Exactly ==> !StartsWith(def.name, "min-") && !StartsWith(def.name, "max-")
    ensures IsWord(b) && Lower(b) != "not"
  {
    BoundReads(host, def, bound, b);
    NameNotNot(host, def);
    IdentIsTight(b);
    assert Lower(b) == b;
  }

  // ---------- the rules of the real feature tests ----------

  ghost function Rules(host: Host, view: Viewport): TestRules {
    TestRules(LegalTests(host), Tests(host), Features(host, view))
  }

  lemma TestsSuit(host: Host, view: Viewport, def: Def, test: Test)
    requires Named(host.table) && LegalDef(host, def) && LegalTest(host, def, test)
    ensures TestSuits(Features(host, view), TestText(host, def, test), Feature(def, test))
  {
    TestShape(host, def, test);
    TestReads(host, view, def, test);
    forall p: nat ensures NotCondition(Features(host, view), TestText(host, def, test), true, p) {
      TestNoCondition(host, Features(host, view), def, test, p);
    }
  }

  lemma RulesSuit(host: Host, view: Viewport)
    requires Named(host.table)
    ensures Suits(Rules(host, view))
  {
    forall def, test | LegalDef(host, def) && LegalTest(host, def, test)
      ensures TestSuits(Features(host, view), TestText(host, def, test), Feature(def, test)) {
      TestsSuit(host, view, def, test);
    }
  }
}
