/**
 Reading back what the XML serializer of src/dom.c writes: a small reader of markup with entities, attributes and
 the usual kinds of node, and the proof that it finds the tree again in the text.
 */
module XmlReading {
  import opened Common
  import opened Strings
  import opened XmlTokens
  import opened XmlSerialize

  // ---------- entities ----------

  function Number(s: string): nat
    requires AllDigits(s)
  {
    if s == "" then 0 else 10 * Number(s[..|s| - 1]) + (s[|s| - 1] - '0') as nat
  }

  /** The character that a reference stands for */
  function Entity(name: string): Option<char> {
    if name == "amp" then Some('&')
    else if name == "lt" then Some('<')
    else if name == "gt" then Some('>')
    else if name == "quot" then Some('"')
    else if |name| > 1 && name[0] == '#' && AllDigits(name[1..]) && Number(name[1..]) < 128
    then Some(Number(name[1..]) as char)
    else None
  }

  /** A character and how much of the text stands for it */
  datatype Read1 = Read1(c: char, length: nat)

  function ReadChar(u: string): (r: Read1)
    requires u != ""
    ensures 0 < r.length <= |u|
  {
    var i := Find(u, ';');
    if u[0] == '&' && i < |u| && Entity(u[1..i]).Some? then Read1(Entity(u[1..i]).value, i + 1) else Read1(u[0], 1)
  }

  function Decode(u: string): string
    decreases |u|
  {
    if u == "" then "" else [ReadChar(u).c] + Decode(u[ReadChar(u).length..])
  }

  lemma EntityRead(name: string, rest: string)
    requires forall i :: 0 <= i < |name| ==> name[i] != ';'
    ensures var u := "&" + name + ";" + rest;
            ReadChar(u) == (if Entity(name).Some? then Read1(Entity(name).value, |name| + 2) else Read1('&', 1)) &&
            u[|name| + 2..] == rest
  {
    var u := "&" + name + ";" + rest;
    assert u[|name| + 1] == ';' && u[1..|name| + 1] == name;
    forall i | 0 <= i <= |name| ensures u[i] != ';' { if i > 0 { assert u[i] == name[i - 1]; } }
    assert Find(u, ';') == |name| + 1;
  }

  lemma NamedEntities()
    ensures Entity("amp") == Some('&') && Entity("lt") == Some('<') && Entity("gt") == Some('>') && Entity("quot") == Some('"')
  {
  }

  lemma NumberedEntity(name: string, digits: string)
    requires name == "#" + digits && digits != "" && AllDigits(digits) && Number(digits) < 128
    ensures Entity(name) == Some(Number(digits) as char)
  {
    assert name[1..] == digits && name[0] == '#';
    assert |name| > 1;
    assert name[0] != "amp"[0] && name[0] != "lt"[0] && name[0] != "gt"[0] && name[0] != "quot"[0];
  }

  lemma NumberedEntities()
    ensures Entity("#9") == Some('\t') && Entity("#10") == Some('\n') && Entity("#13") == Some('\r')
  {
    assert "10"[..1] == "1" && "13"[..1] == "1" && "9"[..0] == "" && "1"[..0] == "";
    assert Number("1") == 1 && Number("9") == 9;
    assert Number("10") == 10 && Number("13") == 13;
    NumberedEntity("#9", "9");
    NumberedEntity("#10", "10");
    NumberedEntity("#13", "13");
  }

  /** A written character that is `name` between ampersand and semicolon reads as what the name stands for. */
  lemma ReferenceRead(text: string, name: string, c: char, rest: string)
    requires text == "&" + name + ";" && (forall i :: 0 <= i < |name| ==> name[i] != ';') && Entity(name) == Some(c)
    ensures ReadChar(text + rest) == Read1(c, |text|) && (text + rest)[|text|..] == rest
  {
    assert text + rest == "&" + name + ";" + rest;
    EntityRead(name, rest);
  }

  /** Whatever follows it, an escaped character reads as that character. */
  lemma EscapedRead(c: char, attr: bool, rest: string)
    ensures var text := EscapeChar(c, attr);
            0 < |text| && ReadChar(text + rest) == Read1(c, |text|) && (text + rest)[|text|..] == rest
  {
    NamedEntities();
    NumberedEntities();
    if c == '&' {
      ReferenceRead("&amp;", "amp", c, rest);
    } else if c == '<' {
      ReferenceRead("&lt;", "lt", c, rest);
    } else if c == '>' {
      ReferenceRead("&gt;", "gt", c, rest);
    } else if c == '"' && attr {
      ReferenceRead("&quot;", "quot", c, rest);
    } else if c == '\t' && attr {
      ReferenceRead("&#9;", "#9", c, rest);
    } else if c == '\n' && attr {
      ReferenceRead("&#10;", "#10", c, rest);
    } else if c == '\r' && attr {
      ReferenceRead("&#13;", "#13", c, rest);
    } else {
      assert ([c] + rest)[1..] == rest;
    }
  }

  /** Decoding what has been escaped gives the text back, be it a text or the value of an attribute. */
  lemma {:induction false} EscapeDecoded(s: string, attr: bool)
    ensures Decode(Escape(s, attr)) == s
    decreases |s|
  {
    if s != "" {
      EscapedRead(s[0], attr, Escape(s[1..], attr));
      EscapeDecoded(s[1..], attr);
    }
  }

  // ---------- attributes ----------

  datatype Pair = Pair(name: string, value: string)

  /** An attribute at the front of a text, behind a space and with its value in double quotes, and how long that is */
  datatype OnePair = NoPair | OnePair(pair: Pair, length: nat)

  function ReadAttr(u: string): (r: OnePair)
    ensures r.OnePair? ==> 0 < r.length <= |u|
  {
    var eq := Find(u, '=');
    if u == "" || u[0] != ' ' || eq + 1 >= |u| || u[eq + 1] != '"' then NoPair
    else
      var q := FindFrom(u, '"', eq + 2, |u|);
      if q == |u| then NoPair else OnePair(Pair(u[1..eq], Decode(u[eq + 2..q])), q + 1)
  }

  /** The attributes at the front of a text, and what follows them */
  datatype ReadPairs = ReadPairs(pairs: seq<Pair>, rest: string)

  function ReadAttrs(u: string): (r: ReadPairs)
    ensures |r.rest| <= |u|
    decreases |u|
  {
    var first := ReadAttr(u);
    if first.NoPair? then ReadPairs([], u)
    else
      var more := ReadAttrs(u[first.length..]);
      ReadPairs([first.pair] + more.pairs, more.rest)
  }

  /** How attributes are written */
  function Written(pairs: seq<Pair>): string {
    if pairs == [] then "" else Quoted(pairs[0].name, pairs[0].value) + Written(pairs[1..])
  }

  lemma FirstAt(u: string, c: char, i: nat)
    requires i < |u| && u[i] == c && forall k :: 0 <= k < i ==> u[k] != c
    ensures Find(u, c) == i
  {
  }

  /** What stands before the value of an attribute */
  lemma NameLayout(name: string, tail: string, u: string)
    requires u == " " + name + "=\"" + tail && '=' !in name
    ensures var eq := |name| + 1;
            eq + 1 < |u| && u[0] == ' ' && Find(u, '=') == eq && u[1..eq] == name && u[eq + 1] == '"' && u[eq + 2..] == tail
  {
    var eq := |name| + 1;
    assert u[eq] == '=' && u[1..eq] == name && u[eq + 1] == '"';
    forall i | 0 <= i < eq ensures u[i] != '=' { if i > 0 { assert u[i] == name[i - 1]; } }
    FirstAt(u, '=', eq);
  }

  lemma ValueLayout(u: string, k: nat, w: string, rest: string)
    requires k <= |u| && u[k..] == w + "\"" + rest && '"' !in w
    ensures var q := k + |w|; q < |u| && FindFrom(u, '"', k, |u|) == q && u[k..q] == w && u[q + 1..] == rest
  {
    var q := k + |w|;
    assert |u| == k + |u[k..]|;
    assert u[q] == u[k..][|w|] == '"';
    forall i | k <= i < q ensures u[i] != '"' { assert u[i] == u[k..][i - k] == w[i - k]; }
    FindsFirst(u, k, q, '"');
    assert u[k..q] == u[k..][..|w|] == w;
    assert u[q + 1..] == u[k..][|w| + 1..] == rest;
  }

  lemma EscapedHasNoQuote(value: string)
    ensures '"' !in Escape(value, true)
  {
    EscapeSafe(value, true);
  }

  lemma QuotedIs(name: string, value: string, rest: string)
    ensures Quoted(name, value) + rest == " " + name + "=\"" + (Escape(value, true) + "\"" + rest)
    ensures |Quoted(name, value)| == |name| + |Escape(value, true)| + 4
  {
  }

  lemma AttrRead(u: string, name: string, w: string)
    requires var eq := |name| + 1;
             var q := eq + 2 + |w|;
             && q < |u| && u[0] == ' ' && Find(u, '=') == eq && u[1..eq] == name && u[eq + 1] == '"'
             && FindFrom(u, '"', eq + 2, |u|) == q && u[eq + 2..q] == w
    ensures ReadAttr(u) == OnePair(Pair(name, Decode(w)), |name| + |w| + 4)
  {
  }

  lemma QuotedRead(name: string, value: string, rest: string, u: string)
    requires '=' !in name && u == Quoted(name, value) + rest
    ensures ReadAttr(u) == OnePair(Pair(name, value), |Quoted(name, value)|) && u[|Quoted(name, value)|..] == rest
  {
    var w := Escape(value, true);
    QuotedIs(name, value, rest);
    NameLayout(name, w + "\"" + rest, u);
    EscapedHasNoQuote(value);
    ValueLayout(u, |name| + 3, w, rest);
    EscapeDecoded(value, true);
    AttrRead(u, name, w);
  }

  /** Attributes read as they were written. */
  lemma {:induction false} WrittenRead(pairs: seq<Pair>, rest: string, u: string)
    requires (forall p :: p in pairs ==> '=' !in p.name) && (rest == "" || rest[0] != ' ') && u == Written(pairs) + rest
    ensures ReadAttrs(u) == ReadPairs(pairs, rest)
    decreases pairs
  {
    if pairs == [] {
      assert u == rest;
    } else {
      var tail := Written(pairs[1..]) + rest;
      assert forall x :: x in pairs[1..] ==> x in pairs;
      WrittenRead(pairs[1..], rest, tail);
      WrittenStep(pairs, rest, u, tail);
      FirstRead(u, pairs[0], |Quoted(pairs[0].name, pairs[0].value)|, ReadPairs(pairs[1..], rest));
      assert [pairs[0]] + pairs[1..] == pairs;
    }
  }

  lemma WrittenStep(pairs: seq<Pair>, rest: string, u: string, tail: string)
    requires pairs != [] && '=' !in pairs[0].name && u == Written(pairs) + rest && tail == Written(pairs[1..]) + rest
    ensures var n := |Quoted(pairs[0].name, pairs[0].value)|; n <= |u| && ReadAttr(u) == OnePair(pairs[0], n) && u[n..] == tail
  {
    WrittenFirst(pairs, rest);
    QuotedRead(pairs[0].name, pairs[0].value, tail, u);
  }

  lemma FirstRead(u: string, p: Pair, n: nat, more: ReadPairs)
    requires ReadAttr(u) == OnePair(p, n) && n <= |u| && more == ReadAttrs(u[n..])
    ensures ReadAttrs(u) == ReadPairs([p] + more.pairs, more.rest)
  {
  }

  lemma WrittenFirst(pairs: seq<Pair>, rest: string)
    requires pairs != []
    ensures Written(pairs) + rest == Quoted(pairs[0].name, pairs[0].value) + (Written(pairs[1..]) + rest)
  {
  }

  lemma {:induction false} WrittenMore(a: seq<Pair>, b: seq<Pair>)
    ensures Written(a + b) == Written(a) + Written(b)
    decreases a
  {
    if a == [] {
      assert a + b == b;
    } else {
      assert (a + b)[1..] == a[1..] + b;
      WrittenMore(a[1..], b);
    }
  }

  // ---------- names ----------

  /** The part of a name behind its first colon, if it has one */
  function Local(name: string): string {
    var i := Find(name, ':');
    if i == |name| then name else name[i + 1..]
  }

  predicate DeclaresNs(name: string) {
    name == "xmlns" || StartsWith(name, "xmlns:")
  }

  /** The attributes of a tag, by local name, without the declarations of name spaces */
  function Kept(pairs: seq<Pair>): seq<Pair> {
    if pairs == [] then []
    else (if DeclaresNs(pairs[0].name) then [] else [Pair(Local(pairs[0].name), pairs[0].value)]) + Kept(pairs[1..])
  }

  lemma {:induction false} KeptMore(a: seq<Pair>, b: seq<Pair>)
    ensures Kept(a + b) == Kept(a) + Kept(b)
    decreases a
  {
    if a == [] {
      assert a + b == b;
    } else {
      assert (a + b)[1..] == a[1..] + b;
      KeptMore(a[1..], b);
    }
  }

  /** A part of a name: no colon, nothing that ends a name, and not what declares a name space */
  predicate IsPart(s: string) {
    (forall i :: 0 <= i < |s| ==> IsNameChar(s[i]) && s[i] != ':' && s[i] != '=') && s != "xmlns"
  }

  function AttrLocal(a: Attr): string {
    if a.local.Some? then a.local.value else Local(a.name)
  }

  /** Attributes as the DOM makes them: declarations of name spaces are called `xmlns` or `xmlns:prefix`, and prefixes and
      local names are parts of names. */
  predicate ReadableAttr(a: Attr) {
    if IsNsDecl(a) then
      || (a.prefix.None? && a.local == Some("xmlns") && a.name == "xmlns")
      || (a.prefix == Some("xmlns") && a.local.Some? && IsPart(a.local.value) && a.name == DeclName(a.local))
    else IsPart(AttrLocal(a)) && (a.prefix.Some? ==> IsPart(a.prefix.value))
  }

  /** The name of the attribute that declares a prefix, or the default name space */
  function DeclName(prefix: Option<string>): string {
    if prefix.Some? then "xmlns:" + prefix.value else "xmlns"
  }

  lemma DeclNames(prefix: Option<string>)
    ensures DeclaresNs(DeclName(prefix)) && (prefix.Some? && '=' !in prefix.value ==> '=' !in DeclName(prefix))
  {
    if prefix.Some? { assert DeclName(prefix)[..6] == "xmlns:"; }
  }

  predicate ReadableAttrs(attrs: seq<Attr>) {
    forall i :: 0 <= i < |attrs| ==> ReadableAttr(attrs[i])
  }

  predicate ReadableChain(chain: Chain) {
    forall i :: 0 <= i < |chain| ==> ReadableAttrs(chain[i])
  }

  /** What is to be read of the attributes of an element: all but those of the engine and the declarations */
  function AttrItems(attrs: seq<Attr>): seq<Pair> {
    if attrs == [] then []
    else
      var a := attrs[0];
      (if StartsWithAnyCase(a.name, "data-nd-") || a.uri == Some(XMLNS) || DeclaresNs(a.name) then []
       else [Pair(AttrLocal(a), a.value)]) + AttrItems(attrs[1..])
  }

  // ---------- the prefixes that the serializer chooses ----------

  lemma {:induction false} PrefixOnIsPart(attrs: seq<Attr>, uri: string)
    requires ReadableAttrs(attrs)
    ensures PrefixOn(attrs, uri).Some? ==> IsPart(PrefixOn(attrs, uri).value)
    decreases attrs
  {
    if attrs != [] { PrefixOnIsPart(attrs[1..], uri); }
  }

  lemma {:induction false} PrefixForIsPart(chain: Chain, uri: string)
    requires ReadableChain(chain)
    ensures PrefixFor(chain, uri).Some? ==> IsPart(PrefixFor(chain, uri).value)
    decreases chain
  {
    if chain != [] {
      PrefixOnIsPart(chain[0], uri);
      PrefixForIsPart(chain[1..], uri);
    }
  }

  lemma GeneratedIsPart(index: nat)
    ensures IsPart(GeneratedPrefix(index))
  {
    var g := GeneratedPrefix(index);
    assert g[0] == 'n' && "xmlns"[0] == 'x';
  }

  /** A written name is no declaration, and its local part is what was to be written. */
  lemma WrittenName(prefix: Option<string>, local: string)
    requires IsPart(local) && (prefix.Some? ==> IsPart(prefix.value))
    ensures var name := WithPrefix(prefix, local); !DeclaresNs(name) && Local(name) == local && '=' !in name
  {
    var name := WithPrefix(prefix, local);
    if prefix.Some? {
      var n := |prefix.value|;
      assert name[n] == ':' && name[..n] == prefix.value && name[n + 1..] == local;
      FirstAt(name, ':', n);
    }
    if StartsWith(name, "xmlns:") { ColonOfXmlns(name, prefix, local); }
  }

  lemma ColonOfXmlns(name: string, prefix: Option<string>, local: string)
    requires ':' !in local && (prefix.Some? ==> ':' !in prefix.value)
    requires name == WithPrefix(prefix, local) && StartsWith(name, "xmlns:")
    ensures prefix == Some("xmlns")
  {
    StartsWithAt(name, "xmlns:");
    assert name[5] == "xmlns:"[5];
    assert prefix.Some?;
    var p := prefix.value;
    assert name[|p|] == ':' && forall i :: 0 <= i < |p| ==> name[i] == p[i];
    assert |p| == 5;
    assert forall i :: 0 <= i < 5 ==> p[i] == "xmlns:"[i];
    assert p == "xmlns:"[..5] == "xmlns";
  }

  predicate NoEquals(pairs: seq<Pair>) {
    forall p :: p in pairs ==> '=' !in p.name
  }

  lemma InternalNames(name: string)
    ensures IsInternal(name) <==> StartsWithAnyCase(name, "data-nd-")
    ensures XmlTokens.StartsAt(name, 0, "xmlns:") <==> StartsWith(name, "xmlns:")
    ensures LocalName(name) == Local(name)
  {
    var p := "data-nd-";
    assert forall i :: 0 <= i < 8 ==> LowerChar(p[i]) == p[i];
    if |name| >= 8 {
      assert Lower(name[..8]) == p <==> forall i :: 0 <= i < 8 ==> LowerChar(name[..8][i]) == p[i];
    }
    if |name| >= 6 { assert name[0..0 + 6] == name[..6]; }
  }

  lemma DeclWritten(prefix: Option<string>, uri: string)
    ensures Written([Pair(DeclName(prefix), uri)]) == NsDecl(prefix, uri) && Kept([Pair(DeclName(prefix), uri)]) == []
  {
    DeclNames(prefix);
    OneWritten(Pair(DeclName(prefix), uri));
    OneKept(Pair(DeclName(prefix), uri));
  }

  lemma OneWritten(p: Pair)
    ensures Written([p]) == Quoted(p.name, p.value)
  {
    assert [p][1..] == [] && Written([]) == "";
  }

  lemma OneKept(p: Pair)
    ensures Kept([p]) == if DeclaresNs(p.name) then [] else [Pair(Local(p.name), p.value)]
  {
    assert [p][1..] == [];
  }

  lemma OneItem(a: Attr)
    ensures AttrItems([a]) ==
            if StartsWithAnyCase(a.name, "data-nd-") || a.uri == Some(XMLNS) || DeclaresNs(a.name) then []
            else [Pair(AttrLocal(a), a.value)]
  {
    assert [a][1..] == [];
  }

  /** What is written of an attribute that is neither internal nor a declaration */
  function PlainRaw(a: Attr, chain: Chain, index: nat): seq<Pair> {
    var p := ChooseAttrPrefix(a, chain, index);
    (if p.declare && a.uri.Some? then [Pair(DeclName(p.prefix), a.uri.value)] else []) +
    [Pair(WithPrefix(p.prefix, AttrLocal(a)), a.value)]
  }

  lemma AttrPrefixIsPart(a: Attr, chain: Chain, index: nat)
    requires (a.prefix.Some? ==> IsPart(a.prefix.value)) && ReadableChain(chain)
    ensures var p := ChooseAttrPrefix(a, chain, index); p.prefix.Some? ==> IsPart(p.prefix.value)
    ensures var p := ChooseAttrPrefix(a, chain, index); p.declare ==> p.prefix.Some? && a.uri.Some?
  {
    GeneratedIsPart(index);
    assert IsPart("xml");
    if a.uri.Some? { PrefixForIsPart(chain, a.uri.value); }
  }

  lemma PlainPairs(a: Attr, chain: Chain, index: nat)
    requires ReadableAttr(a) && !IsNsDecl(a) && ReadableChain(chain)
    ensures var raw := PlainRaw(a, chain, index);
            Written(raw) == PlainAttrText(a, chain, index).0 && Kept(raw) == [Pair(AttrLocal(a), a.value)] && NoEquals(raw)
  {
    var p, local := ChooseAttrPrefix(a, chain, index), AttrLocal(a);
    AttrPrefixIsPart(a, chain, index);
    InternalNames(a.name);
    var own := Pair(WithPrefix(p.prefix, local), a.value);
    WrittenName(p.prefix, local);
    OneWritten(own);
    OneKept(own);
    if p.declare {
      DeclNames(p.prefix);
      DeclWritten(p.prefix, a.uri.value);
      WrittenMore([Pair(DeclName(p.prefix), a.uri.value)], [own]);
      KeptMore([Pair(DeclName(p.prefix), a.uri.value)], [own]);
    } else {
      assert [] + [own] == [own];
    }
  }

  function AttrRaw(a: Attr, attrs: seq<Attr>, chain: Chain, c: Chosen, declares: bool, index: nat): seq<Pair> {
    if IsInternal(a.name) then []
    else if IsNsDecl(a) then (if IsDroppedDecl(a, attrs, c, declares) then [] else [Pair(a.name, a.value)])
    else if DeclaresNs(a.name) then []
    else PlainRaw(a, chain, index)
  }

  lemma AttrPairs(a: Attr, attrs: seq<Attr>, chain: Chain, c: Chosen, declares: bool, index: nat)
    requires ReadableAttr(a) && ReadableChain(chain)
    ensures var raw := AttrRaw(a, attrs, chain, c, declares, index);
            Written(raw) == AttrText(a, attrs, chain, c, declares, index).0 && Kept(raw) == AttrItems([a]) && NoEquals(raw)
  {
    InternalNames(a.name);
    OneItem(a);
    if IsInternal(a.name) {
    } else if IsNsDecl(a) {
      NsDeclIs(a);
      OneWritten(Pair(a.name, a.value));
      OneKept(Pair(a.name, a.value));
    } else if !DeclaresNs(a.name) {
      PlainPairs(a, chain, index);
    }
  }

  lemma NsDeclIs(a: Attr)
    requires IsNsDecl(a) && ReadableAttr(a)
    ensures DeclaresNs(a.name) && '=' !in a.name
  {
    DeclNames(if a.prefix.None? then None else a.local);
  }

  function AttrsRaw(list: seq<Attr>, attrs: seq<Attr>, chain: Chain, c: Chosen, declares: bool, index: nat): seq<Pair> {
    if list == [] then []
    else AttrRaw(list[0], attrs, chain, c, declares, index) +
         AttrsRaw(list[1..], attrs, chain, c, declares, AttrText(list[0], attrs, chain, c, declares, index).1)
  }

  lemma {:induction false} AttrsPairs(list: seq<Attr>, attrs: seq<Attr>, chain: Chain, c: Chosen, declares: bool, index: nat)
    requires ReadableAttrs(list) && ReadableChain(chain)
    ensures var raw := AttrsRaw(list, attrs, chain, c, declares, index);
            Written(raw) == AttrsText(list, attrs, chain, c, declares, index).0 && Kept(raw) == AttrItems(list) && NoEquals(raw)
    decreases list
  {
    if list != [] {
      var first, next := AttrRaw(list[0], attrs, chain, c, declares, index), AttrText(list[0], attrs, chain, c, declares, index).1;
      var rest := AttrsRaw(list[1..], attrs, chain, c, declares, next);
      AttrPairs(list[0], attrs, chain, c, declares, index);
      AttrsPairs(list[1..], attrs, chain, c, declares, next);
      WrittenMore(first, rest);
      KeptMore(first, rest);
      OneItem(list[0]);
    }
  }
}
