/**
 The name spaces that a reader finds in what xml_serialize_node of src/dom.c writes (Namespaces in XML 1.0, sections 2
 to 6).  In a tree whose prefixes are declared where they are used, and whose declarations do not hide one another,
 every element and every attribute is read in its own.
 */
module XmlSpaces {
  import opened Common
  import opened Strings
  import opened XmlTokens
  import opened XmlSerialize
  import opened XmlReading
  import opened XmlTree

  // ---------- the reader ----------

  /** The attributes of the tags around a place, the nearest first */
  type Scope = seq<seq<Pair>>

  function Given(pairs: seq<Pair>, name: string): Option<string> {
    if pairs == [] then None else if pairs[0].name == name then Some(pairs[0].value) else Given(pairs[1..], name)
  }

  function InScope(scope: Scope, name: string): Option<string> {
    if scope == [] then None
    else
      var here := Given(scope[0], name);
      if here.Some? then here else InScope(scope[1..], name)
  }

  function DefaultNs(scope: Scope): string {
    var d := InScope(scope, "xmlns");
    if d.Some? then d.value else ""
  }

  /** The prefix xml needs no declaration. */
  function PrefixNs(scope: Scope, prefix: string): Option<string> {
    var d := InScope(scope, DeclName(Some(prefix)));
    if d.Some? then d else if prefix == "xml" then Some(XML) else None
  }

  /** The name space of a name: that of its prefix, or else, for an element, the default one */
  function SpaceOf(name: string, scope: Scope, element: bool): Option<string> {
    var i := Find(name, ':');
    if i < |name| then PrefixNs(scope, name[..i]) else Some(if element then DefaultNs(scope) else "")
  }

  datatype SpacedAttr = SpacedAttr(space: Option<string>, name: string, value: string)

  datatype Spaced = Tag(space: Option<string>, name: string, attrs: seq<SpacedAttr>) | EndTag | Else(item: Item)

  function AttrsIn(pairs: seq<Pair>, scope: Scope): seq<SpacedAttr> {
    if pairs == [] then []
    else
      (if DeclaresNs(pairs[0].name) then []
       else [SpacedAttr(SpaceOf(pairs[0].name, scope, false), Local(pairs[0].name), pairs[0].value)]) +
      AttrsIn(pairs[1..], scope)
  }

  function Resolved(items: seq<Item>, scope: Scope): seq<Spaced> {
    if items == [] then []
    else match items[0]
      case Start(name, pairs) =>
        var inner := [pairs] + scope;
        [Tag(SpaceOf(name, inner, true), Local(name), AttrsIn(pairs, inner))] + Resolved(items[1..], inner)
      case End(_) => [EndTag] + Resolved(items[1..], if scope == [] then [] else scope[1..])
      case item => [Else(item)] + Resolved(items[1..], scope)
  }

  // ---------- the tree ----------

  function AttrSpaces(attrs: seq<Attr>): seq<SpacedAttr> {
    if attrs == [] then []
    else
      var a := attrs[0];
      (if StartsWithAnyCase(a.name, "data-nd-") || a.uri == Some(XMLNS) || DeclaresNs(a.name) then []
       else [SpacedAttr(Some(if a.uri.Some? then a.uri.value else ""), AttrLocal(a), a.value)]) + AttrSpaces(attrs[1..])
  }

  function Elses(items: seq<Item>): seq<Spaced> {
    if items == [] then [] else [Else(items[0])] + Elses(items[1..])
  }

  /** The elements and attributes of a tree, each in its name space, and everything else */
  function Spaces(n: Node, levels: nat): seq<Spaced>
    decreases n, 0
  {
    if levels == 0 then []
    else match n
      case Document(children) => SpacesAll(children, levels - 1)
      case Element(name, _, _, _, attrs, children) =>
        [Tag(Some(ElementNs(n)), Local(name), AttrSpaces(attrs))] + SpacesAll(children, levels - 1) + [EndTag]
      case _ => Elses(Leaf(n))
  }

  function SpacesAll(list: seq<Node>, levels: nat): seq<Spaced>
    decreases list, 1
  {
    if list == [] then [] else Spaces(list[0], levels) + SpacesAll(list[1..], levels)
  }

  // ---------- trees whose declarations fit ----------

  /** A prefix that is declared for a name space stands for it, and is not declared anew further in. */
  ghost predicate NothingHidden(chain: Chain) {
    forall uri: string {:trigger PrefixFor(chain, uri)} ::
      PrefixFor(chain, uri).Some? ==> Declared(chain, PrefixFor(chain, uri).value) == Some(uri)
  }

  /** No prefix is declared twice in one tag. */
  ghost predicate DeclaredOnce(attrs: seq<Attr>) {
    forall i, j :: 0 <= i < j < |attrs| && IsNsDecl(attrs[i]) && IsNsDecl(attrs[j]) ==> attrs[i].name != attrs[j].name
  }

  predicate IsOwnAttr(a: Attr) {
    !IsInternal(a.name) && !IsNsDecl(a) && !DeclaresNs(a.name)
  }

  /** The name space of the attribute is declared, or needs no declaration. */
  predicate AttrFits(a: Attr, chain: Chain) {
    IsOwnAttr(a) && a.uri.Some? && a.uri.value != "" && a.uri.value != XML ==> PrefixFor(chain, a.uri.value).Some?
  }

  /** The declarations on and around an element fit the names in it: its prefix stands for its name space, and without
      one it declares no other default; so do those of its attributes. */
  ghost predicate Fits(n: Node, above: Chain)
    requires n.Element?
  {
    var chain := [n.attrs] + above;
    && NothingHidden(chain) && Declared(chain, "xml") == Some(XML) && DeclaredOnce(n.attrs)
    && (match ElementPrefix(n)
        case None => DeclaredOn(n.attrs, None).Some? ==> DeclaredOn(n.attrs, None).value == ElementNs(n)
        case Some(p) => Declared(chain, p) == Some(ElementNs(n)))
    && forall i :: 0 <= i < |n.attrs| ==> AttrFits(n.attrs[i], chain)
  }

  ghost predicate TreeFits(n: Node, above: Chain)
    decreases n, 0
  {
    match n
    case Document(children) => above == [] && TreesFit(children, above)
    case Element(_, _, _, _, attrs, children) => Fits(n, above) && TreesFit(children, [attrs] + above)
    case _ => true
  }

  ghost predicate TreesFit(list: seq<Node>, above: Chain)
    decreases list, 1
  {
    list == [] || (TreeFits(list[0], above) && TreesFit(list[1..], above))
  }

  // ---------- one element ----------

  /** What the reader knows of prefixes is what the serializer goes by. */
  ghost predicate Agree(scope: Scope, above: Chain, inherited: string) {
    DefaultNs(scope) == inherited && forall p: string :: PrefixNs(scope, p) == Declared(above, p)
  }

  /** The serializer makes up no prefix and declares none. */
  lemma ChosenFits(n: Node, above: Chain, inherited: string, index: nat)
    requires n.Element? && Fits(n, above)
    ensures var chain := [n.attrs] + above;
            var c := ChoosePrefix(n, chain, inherited, index);
            && c.index == index && (c.prefix.Some? ==> !DeclaresItself(n, chain, inherited, c))
            && (c.prefix.Some? ==> Declared(chain, c.prefix.value) == Some(ElementNs(n)))
  {
    var chain := [n.attrs] + above;
    var p := ElementPrefix(n);
    if p.Some? { assert DeclaredOn(n.attrs, p).Some? ==> DeclaredOn(n.attrs, p) == Declared(chain, p.value); }
    assert PrefixFor(chain, ElementNs(n)).Some? ==>
           Declared(chain, PrefixFor(chain, ElementNs(n)).value) == Some(ElementNs(n));
  }

  lemma AttrChosenFits(a: Attr, chain: Chain, index: nat)
    requires IsOwnAttr(a) && AttrFits(a, chain) && NothingHidden(chain) && Declared(chain, "xml") == Some(XML)
    ensures var p := ChooseAttrPrefix(a, chain, index);
            && !p.declare && p.index == index
            && (p.prefix.Some? ==> Declared(chain, p.prefix.value) == a.uri)
            && (p.prefix.None? <==> a.uri.None? || a.uri.value == "")
  {
  }

  // ---------- what is written of declarations ----------

  lemma {:induction false} GivenMore(a: seq<Pair>, b: seq<Pair>, name: string)
    ensures Given(a + b, name) == if Given(a, name).Some? then Given(a, name) else Given(b, name)
    decreases a
  {
    if a == [] {
      assert a + b == b;
    } else {
      assert (a + b)[1..] == a[1..] + b;
      GivenMore(a[1..], b, name);
    }
  }

  lemma GivenOne(p: Pair, name: string)
    ensures Given([p], name) == if p.name == name then Some(p.value) else None
  {
    assert [p][1..] == [];
  }

  /** The attribute declares this prefix, or the default name space. */
  predicate DeclaresFor(a: Attr, prefix: Option<string>) {
    IsNsDecl(a) && if prefix.None? then a.prefix.None? && a.local == Some("xmlns") else a.prefix == Some("xmlns") && a.local == prefix
  }

  lemma DeclNamesDiffer(p: Option<string>, q: Option<string>)
    ensures DeclName(p) == DeclName(q) ==> p == q
  {
    if p.Some? { assert DeclName(p)[6..] == p.value && |DeclName(p)| >= 6; }
    if q.Some? { assert DeclName(q)[6..] == q.value && |DeclName(q)| >= 6; }
  }

  lemma DeclaresByName(a: Attr, prefix: Option<string>)
    requires IsNsDecl(a) && ReadableAttr(a)
    ensures DeclaresFor(a, prefix) <==> a.name == DeclName(prefix)
  {
    DeclNamesDiffer(if a.prefix.None? then None else a.local, prefix);
  }

  lemma NsDeclIsNotInternal(a: Attr)
    requires IsNsDecl(a) && ReadableAttr(a)
    ensures !IsInternal(a.name)
  {
    NsDeclIs(a);
    InternalNames(a.name);
    StartsWithAt(a.name, "xmlns:");
    assert a.name[0] == 'x';
    assert |a.name| >= 8 ==> Lower(a.name[..8])[0] == LowerChar(a.name[0]);
  }

  /** What one attribute of a fitting element gives a declaration */
  lemma AttrGives(a: Attr, attrs: seq<Attr>, chain: Chain, c: Chosen, declares: bool, index: nat, prefix: Option<string>)
    requires ReadableAttr(a) && AttrFits(a, chain) && NothingHidden(chain) && Declared(chain, "xml") == Some(XML)
    requires ReadableChain(chain)
    ensures Given(AttrRaw(a, attrs, chain, c, declares, index), DeclName(prefix)) ==
            if DeclaresFor(a, prefix) && !IsDroppedDecl(a, attrs, c, declares) then Some(a.value) else None
  {
    if IsNsDecl(a) {
      NsDeclIsNotInternal(a);
      DeclaresByName(a, prefix);
      GivenOne(Pair(a.name, a.value), DeclName(prefix));
    } else if IsOwnAttr(a) {
      var p := ChooseAttrPrefix(a, chain, index);
      AttrChosenFits(a, chain, index);
      AttrPrefixIsPart(a, chain, index);
      WrittenName(p.prefix, AttrLocal(a));
      DeclNames(prefix);
      GivenOne(Pair(WithPrefix(p.prefix, AttrLocal(a)), a.value), DeclName(prefix));
      assert [] + [Pair(WithPrefix(p.prefix, AttrLocal(a)), a.value)] == [Pair(WithPrefix(p.prefix, AttrLocal(a)), a.value)];
    }
  }

  /** The declarations of a tag, if none is made twice, are those of the element but for the dropped ones. */
  ghost function DeclsKept(attrs: seq<Attr>, whole: seq<Attr>, c: Chosen, declares: bool, prefix: Option<string>): Option<string> {
    if prefix.None? && (declares || (c.prefix.None? && !HasEmptyDecl(whole))) then None else DeclaredOn(attrs, prefix)
  }

  lemma {:induction false} DeclaredThere(attrs: seq<Attr>, prefix: Option<string>)
    requires DeclaredOn(attrs, prefix).Some?
    ensures exists j :: 0 <= j < |attrs| && DeclaresFor(attrs[j], prefix)
    decreases attrs
  {
    if DeclaredOn(attrs[1..], prefix).Some? {
      DeclaredThere(attrs[1..], prefix);
      var j :| 0 <= j < |attrs| - 1 && DeclaresFor(attrs[1..][j], prefix);
      assert attrs[j + 1] == attrs[1..][j];
    }
  }

  lemma {:induction false} AttrsGive(list: seq<Attr>, attrs: seq<Attr>, chain: Chain, c: Chosen, declares: bool, index: nat,
                                     prefix: Option<string>)
    requires ReadableAttrs(list) && DeclaredOnce(list) && NothingHidden(chain) && Declared(chain, "xml") == Some(XML)
    requires ReadableChain(chain) && forall i :: 0 <= i < |list| ==> AttrFits(list[i], chain)
    ensures Given(AttrsRaw(list, attrs, chain, c, declares, index), DeclName(prefix)) == DeclsKept(list, attrs, c, declares, prefix)
    decreases list
  {
    if list != [] {
      var a, rest := list[0], list[1..];
      var next := AttrText(a, attrs, chain, c, declares, index).1;
      assert forall i :: 0 <= i < |rest| ==> rest[i] == list[i + 1];
      AttrGives(a, attrs, chain, c, declares, index, prefix);
      AttrsGive(rest, attrs, chain, c, declares, next, prefix);
      GivenMore(AttrRaw(a, attrs, chain, c, declares, index), AttrsRaw(rest, attrs, chain, c, declares, next), DeclName(prefix));
      if DeclaresFor(a, prefix) && DeclaredOn(rest, prefix).Some? {
        DeclaredThere(rest, prefix);
        var j :| 0 <= j < |rest| && DeclaresFor(rest[j], prefix);
        assert rest[j] == list[j + 1];
        DeclaresByName(a, prefix);
        DeclaresByName(rest[j], prefix);
      }
    }
  }

  // ---------- what a tag makes of the scope ----------

  lemma TagGives(n: Node, above: Chain, inherited: string, index: nat, prefix: Option<string>)
    requires n.Element? && Readable(n) && ReadableChain(above) && Fits(n, above)
    ensures var chain := [n.attrs] + above;
            var c := ChoosePrefix(n, chain, inherited, index);
            var declares := DeclaresItself(n, chain, inherited, c);
            Given(HeadRaw(n, above, inherited, index), DeclName(prefix)) ==
            if declares && prefix.None? then Some(ElementNs(n)) else DeclsKept(n.attrs, n.attrs, c, declares, prefix)
  {
    var chain := [n.attrs] + above;
    assert ReadableChain(chain);
    var c := ChoosePrefix(n, chain, inherited, index);
    var declares := DeclaresItself(n, chain, inherited, c);
    ChosenFits(n, above, inherited, index);
    AttrsGive(n.attrs, n.attrs, chain, c, declares, c.index, prefix);
    GivenMore(OwnRaw(declares, c.prefix, ElementNs(n)), AttrsRaw(n.attrs, n.attrs, chain, c, declares, c.index), DeclName(prefix));
    if declares {
      GivenOne(Pair(DeclName(c.prefix), ElementNs(n)), DeclName(prefix));
      DeclNamesDiffer(None, prefix);
    }
  }

  lemma InnerScope(pairs: seq<Pair>, scope: Scope, name: string)
    ensures InScope([pairs] + scope, name) == if Given(pairs, name).Some? then Given(pairs, name) else InScope(scope, name)
  {
    assert ([pairs] + scope)[1..] == scope;
  }

  /** Inside the tag the reader knows again what the serializer goes by. */
  lemma ScopeAgrees(n: Node, above: Chain, inherited: string, index: nat, scope: Scope)
    requires n.Element? && Readable(n) && ReadableChain(above) && Fits(n, above) && Agree(scope, above, inherited)
    ensures Agree([HeadRaw(n, above, inherited, index)] + scope, [n.attrs] + above, ElementHead(n, above, inherited, index).childNs)
  {
    var raw, chain := HeadRaw(n, above, inherited, index), [n.attrs] + above;
    assert chain[1..] == above;
    forall p: string ensures PrefixNs([raw] + scope, p) == Declared(chain, p) {
      TagGives(n, above, inherited, index, Some(p));
      InnerScope(raw, scope, DeclName(Some(p)));
      assert PrefixNs(scope, p) == Declared(above, p);
    }
    TagGives(n, above, inherited, index, None);
    InnerScope(raw, scope, "xmlns");
    ChosenFits(n, above, inherited, index);
  }

  lemma ColonSplits(prefix: Option<string>, local: string, name: string)
    requires ':' !in local && (prefix.Some? ==> ':' !in prefix.value) && name == WithPrefix(prefix, local)
    ensures prefix.None? ==> Find(name, ':') == |name|
    ensures prefix.Some? ==> Find(name, ':') == |prefix.value| < |name| && name[..|prefix.value|] == prefix.value
  {
    if prefix.Some? {
      var i := |prefix.value|;
      assert name[i] == ':' && name[..i] == prefix.value;
      FirstAt(name, ':', i);
    } else {
      NotIn(name, ':');
    }
  }

  /** The element is read in its name space. */
  lemma TagSpace(n: Node, above: Chain, inherited: string, index: nat, scope: Scope)
    requires n.Element? && Readable(n) && ReadableChain(above) && Fits(n, above) && Agree(scope, above, inherited)
    ensures SpaceOf(ElementHead(n, above, inherited, index).name, [HeadRaw(n, above, inherited, index)] + scope, true) ==
            Some(ElementNs(n))
  {
    var chain := [n.attrs] + above;
    assert ReadableChain(chain);
    var c := ChoosePrefix(n, chain, inherited, index);
    ScopeAgrees(n, above, inherited, index, scope);
    ChosenFits(n, above, inherited, index);
    ChosenHasNoColon(n, chain, inherited, index);
    InternalNames(n.name);
    ColonSplits(c.prefix, Local(n.name), ElementHead(n, above, inherited, index).name);
  }

  lemma OneSpaced(p: Pair, scope: Scope)
    ensures AttrsIn([p], scope) ==
            if DeclaresNs(p.name) then [] else [SpacedAttr(SpaceOf(p.name, scope, false), Local(p.name), p.value)]
  {
    assert [p][1..] == [];
  }

  lemma {:induction false} SpacedMore(a: seq<Pair>, b: seq<Pair>, scope: Scope)
    ensures AttrsIn(a + b, scope) == AttrsIn(a, scope) + AttrsIn(b, scope)
    decreases a
  {
    if a == [] {
      assert a + b == b;
    } else {
      assert (a + b)[1..] == a[1..] + b;
      SpacedMore(a[1..], b, scope);
    }
  }

  lemma OneSpace(a: Attr)
    ensures AttrSpaces([a]) ==
            if StartsWithAnyCase(a.name, "data-nd-") || a.uri == Some(XMLNS) || DeclaresNs(a.name) then []
            else [SpacedAttr(Some(if a.uri.Some? then a.uri.value else ""), AttrLocal(a), a.value)]
  {
    assert [a][1..] == [];
  }

  /** An attribute is read in its name space. */
  lemma AttrSpace(a: Attr, attrs: seq<Attr>, chain: Chain, c: Chosen, declares: bool, index: nat, scope: Scope)
    requires ReadableAttr(a) && AttrFits(a, chain) && NothingHidden(chain) && Declared(chain, "xml") == Some(XML)
    requires ReadableChain(chain) && forall p: string :: PrefixNs(scope, p) == Declared(chain, p)
    ensures AttrsIn(AttrRaw(a, attrs, chain, c, declares, index), scope) == AttrSpaces([a])
  {
    OneSpace(a);
    InternalNames(a.name);
    if IsNsDecl(a) {
      NsDeclIs(a);
      OneSpaced(Pair(a.name, a.value), scope);
    } else if IsOwnAttr(a) {
      OwnAttrSpace(a, chain, index, scope);
    }
  }

  lemma OwnAttrSpace(a: Attr, chain: Chain, index: nat, scope: Scope)
    requires ReadableAttr(a) && IsOwnAttr(a) && AttrFits(a, chain) && NothingHidden(chain) && Declared(chain, "xml") == Some(XML)
    requires ReadableChain(chain) && forall p: string :: PrefixNs(scope, p) == Declared(chain, p)
    ensures AttrsIn(PlainRaw(a, chain, index), scope) ==
            [SpacedAttr(Some(if a.uri.Some? then a.uri.value else ""), AttrLocal(a), a.value)]
  {
    var p := ChooseAttrPrefix(a, chain, index);
    var name := WithPrefix(p.prefix, AttrLocal(a));
    AttrChosenFits(a, chain, index);
    AttrPrefixIsPart(a, chain, index);
    WrittenName(p.prefix, AttrLocal(a));
    ColonSplits(p.prefix, AttrLocal(a), name);
    OneSpaced(Pair(name, a.value), scope);
    assert [] + [Pair(name, a.value)] == [Pair(name, a.value)];
  }

  lemma {:induction false} AttrsSpace(list: seq<Attr>, attrs: seq<Attr>, chain: Chain, c: Chosen, declares: bool, index: nat,
                                      scope: Scope)
    requires ReadableAttrs(list) && NothingHidden(chain) && Declared(chain, "xml") == Some(XML) && ReadableChain(chain)
    requires forall i :: 0 <= i < |list| ==> AttrFits(list[i], chain)
    requires forall p: string :: PrefixNs(scope, p) == Declared(chain, p)
    ensures AttrsIn(AttrsRaw(list, attrs, chain, c, declares, index), scope) == AttrSpaces(list)
    decreases list
  {
    if list != [] {
      var a, rest := list[0], list[1..];
      var next := AttrText(a, attrs, chain, c, declares, index).1;
      assert forall i :: 0 <= i < |rest| ==> rest[i] == list[i + 1];
      AttrSpace(a, attrs, chain, c, declares, index, scope);
      AttrsSpace(rest, attrs, chain, c, declares, next, scope);
      SpacedMore(AttrRaw(a, attrs, chain, c, declares, index), AttrsRaw(rest, attrs, chain, c, declares, next), scope);
      OneSpace(a);
    }
  }

  /** All attributes of a tag */
  lemma TagAttrs(n: Node, above: Chain, inherited: string, index: nat, scope: Scope)
    requires n.Element? && Readable(n) && ReadableChain(above) && Fits(n, above) && Agree(scope, above, inherited)
    ensures var raw := HeadRaw(n, above, inherited, index); AttrsIn(raw, [raw] + scope) == AttrSpaces(n.attrs)
  {
    var chain := [n.attrs] + above;
    assert ReadableChain(chain);
    var c := ChoosePrefix(n, chain, inherited, index);
    var declares := DeclaresItself(n, chain, inherited, c);
    var inner := [HeadRaw(n, above, inherited, index)] + scope;
    ScopeAgrees(n, above, inherited, index, scope);
    AttrsSpace(n.attrs, n.attrs, chain, c, declares, c.index, inner);
    SpacedMore(OwnRaw(declares, c.prefix, ElementNs(n)), AttrsRaw(n.attrs, n.attrs, chain, c, declares, c.index), inner);
    if declares {
      DeclNames(c.prefix);
      OneSpaced(Pair(DeclName(c.prefix), ElementNs(n)), inner);
    }
  }

  // ---------- trees ----------

  lemma {:induction false} ElsesResolve(items: seq<Item>, more: seq<Item>, scope: Scope)
    requires forall i :: 0 <= i < |items| ==> !items[i].Start? && !items[i].End?
    ensures Resolved(items + more, scope) == Elses(items) + Resolved(more, scope)
    decreases |items|
  {
    if items == [] {
      assert items + more == more;
    } else {
      assert (items + more)[1..] == items[1..] + more;
      ElsesResolve(items[1..], more, scope);
    }
  }

  lemma {:induction false} LettersAreNoTags(text: string)
    ensures forall i :: 0 <= i < |Letters(text)| ==> Letters(text)[i].Letter?
    decreases |text|
  {
    if text != "" { LettersAreNoTags(text[1..]); }
  }

  lemma LeafResolves(n: Node, more: seq<Item>, scope: Scope)
    requires !n.Element? && !n.Document?
    ensures Resolved(Leaf(n) + more, scope) == Elses(Leaf(n)) + Resolved(more, scope)
  {
    if n.Chardata? && !n.cdata { LettersAreNoTags(n.text); }
    ElsesResolve(Leaf(n), more, scope);
  }

  lemma StartResolves(name: string, pairs: seq<Pair>, more: seq<Item>, scope: Scope)
    ensures Resolved([Start(name, pairs)] + more, scope) ==
            [Tag(SpaceOf(name, [pairs] + scope, true), Local(name), AttrsIn(pairs, [pairs] + scope))] +
            Resolved(more, [pairs] + scope)
  {
    assert ([Start(name, pairs)] + more)[1..] == more;
  }

  lemma EndResolves(name: string, more: seq<Item>, pairs: seq<Pair>, scope: Scope)
    ensures Resolved([End(name)] + more, [pairs] + scope) == [EndTag] + Resolved(more, scope)
  {
    assert ([End(name)] + more)[1..] == more && ([pairs] + scope)[1..] == scope;
  }

  lemma {:induction false} ItemsResolve(n: Node, above: Chain, inherited: string, index: nat, depth: nat, scope: Scope,
                                        more: seq<Item>)
    requires Readable(n) && ReadableChain(above) && TreeFits(n, above) && depth <= MAX_DEPTH
    requires Agree(scope, above, inherited) && (above == [] ==> inherited == "")
    ensures Resolved(RawItems(n, above, inherited, index, depth) + more, scope) ==
            Spaces(n, MAX_DEPTH - depth) + Resolved(more, scope)
    decreases n, 0
  {
    if depth == MAX_DEPTH {
      assert [] + more == more && [] + Resolved(more, scope) == Resolved(more, scope);
    } else {
      match n
      case Document(children) => AllResolve(children, above, "", index, depth + 1, scope, more);
      case Element(_, _, _, _, _, _) => ElementResolves(n, above, inherited, index, depth, scope, more);
      case _ => LeafResolves(n, more, scope);
    }
  }

  lemma {:induction false} ElementResolves(n: Node, above: Chain, inherited: string, index: nat, depth: nat, scope: Scope,
                                           more: seq<Item>)
    requires n.Element? && Readable(n) && ReadableChain(above) && TreeFits(n, above) && depth < MAX_DEPTH
    requires Agree(scope, above, inherited)
    ensures Resolved(RawItems(n, above, inherited, index, depth) + more, scope) ==
            Spaces(n, MAX_DEPTH - depth) + Resolved(more, scope)
    decreases n, 0, 0
  {
    var h, raw, chain := ElementHead(n, above, inherited, index), HeadRaw(n, above, inherited, index), [n.attrs] + above;
    var kids := RawAll(n.children, chain, h.childNs, h.index, depth + 1);
    assert ReadableChain(chain);
    TagSpace(n, above, inherited, index, scope);
    TagAttrs(n, above, inherited, index, scope);
    HeadRead(n, above, inherited, index);
    ScopeAgrees(n, above, inherited, index, scope);
    AllResolve(n.children, chain, h.childNs, h.index, depth + 1, [raw] + scope, [End(h.name)] + more);
    TagsResolve(h.name, raw, kids, SpacesAll(n.children, MAX_DEPTH - depth - 1), more, scope);
  }

  lemma TagsResolve(name: string, raw: seq<Pair>, kids: seq<Item>, spaces: seq<Spaced>, more: seq<Item>, scope: Scope)
    requires var inner := [raw] + scope;
             Resolved(kids + ([End(name)] + more), inner) == spaces + Resolved([End(name)] + more, inner)
    ensures var inner := [raw] + scope;
            Resolved([Start(name, raw)] + kids + [End(name)] + more, scope) ==
            [Tag(SpaceOf(name, inner, true), Local(name), AttrsIn(raw, inner))] + spaces + [EndTag] + Resolved(more, scope)
  {
    EndResolves(name, more, raw, scope);
    StartResolves(name, raw, kids + ([End(name)] + more), scope);
    assert [Start(name, raw)] + kids + [End(name)] + more == [Start(name, raw)] + (kids + ([End(name)] + more));
  }

  lemma {:induction false} AllResolve(list: seq<Node>, above: Chain, inherited: string, index: nat, depth: nat, scope: Scope,
                                      more: seq<Item>)
    requires ReadableAll(list) && ReadableChain(above) && TreesFit(list, above) && depth <= MAX_DEPTH
    requires Agree(scope, above, inherited) && (above == [] ==> inherited == "")
    ensures Resolved(RawAll(list, above, inherited, index, depth) + more, scope) ==
            SpacesAll(list, MAX_DEPTH - depth) + Resolved(more, scope)
    decreases list, 1
  {
    if list == [] {
      assert [] + more == more && [] + Resolved(more, scope) == Resolved(more, scope);
    } else {
      var next := Tokens(list[0], above, inherited, index, depth).1;
      var first, rest := RawItems(list[0], above, inherited, index, depth), RawAll(list[1..], above, inherited, next, depth);
      AllResolve(list[1..], above, inherited, next, depth, scope, more);
      ItemsResolve(list[0], above, inherited, index, depth, scope, rest + more);
      Assoc(first, rest, more);
      Assoc(Spaces(list[0], MAX_DEPTH - depth), SpacesAll(list[1..], MAX_DEPTH - depth), Resolved(more, scope));
    }
  }

  /** Reading what the serializer writes for a document or an element without a parent, whose declarations fit, gives
      every element and every attribute in its name space. */
  lemma NameSpacesReadBack(n: Node)
    requires LegalTree(n) && Readable(n) && TreeFits(n, [])
    ensures Resolved(Read(Text(Tokens(n, [], "", 1, 0).0)), []) == Spaces(n, MAX_DEPTH)
  {
    var items := RawItems(n, [], "", 1, 0);
    TextReads(n, []);
    ItemsResolve(n, [], "", 1, 0, [], []);
    assert items + [] == items && Spaces(n, MAX_DEPTH) + [] == Spaces(n, MAX_DEPTH);
  }

  /** An element inside a tree is written without the declarations around it: if it is written with a prefix, it is read
      in its name space exactly if it declares that prefix itself. */
  lemma WrittenAlone(n: Node, above: Chain)
    requires n.Element? && Readable(n) && ReadableChain(above) && Fits(n, above)
    requires var p := ChoosePrefix(n, [n.attrs] + above, "", 1).prefix; p.Some? && p.value != "xml"
    ensures var p := ChoosePrefix(n, [n.attrs] + above, "", 1).prefix;
            SpaceOf(ElementHead(n, above, "", 1).name, [HeadRaw(n, above, "", 1)], true) == Some(ElementNs(n)) <==>
            DeclaredOn(n.attrs, p).Some?
  {
    var chain, raw := [n.attrs] + above, HeadRaw(n, above, "", 1);
    assert ReadableChain(chain);
    var p := ChoosePrefix(n, chain, "", 1).prefix;
    ChosenFits(n, above, "", 1);
    ChosenHasNoColon(n, chain, "", 1);
    InternalNames(n.name);
    ColonSplits(p, Local(n.name), ElementHead(n, above, "", 1).name);
    TagGives(n, above, "", 1, p);
    assert [raw][1..] == [];
    assert InScope([raw], DeclName(p)) == Given(raw, DeclName(p));
  }
}
