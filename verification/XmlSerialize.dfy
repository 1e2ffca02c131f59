/**
 The XML serializer xml_serialize_node of src/dom.c, with the name-space prefixes it chooses, and why the
 tag checker accepts what it writes.
 */
module XmlSerialize {
  import opened Common
  import opened Strings
  import opened XmlTokens

  const HTML := "http://www.w3.org/1999/xhtml"
  const SVG := "http://www.w3.org/2000/svg"
  const XML := "http://www.w3.org/XML/1998/namespace"
  const XMLNS := "http://www.w3.org/2000/xmlns/"
  const MAX_DEPTH := 512

  /** ns_attr */
  datatype Attr = Attr(name: string, uri: Option<string>, prefix: Option<string>, local: Option<string>, value: string)

  /** The node kinds; the three flags say what name space an element without a stored one is in. */
  datatype Node =
    | Element(name: string, svg: bool, foreign: bool, xmlDoc: bool, attrs: seq<Attr>, children: seq<Node>)
    | Chardata(text: string, cdata: bool)
    | CommentNode(text: string)
    | ProcessingInstruction(name: string, text: string)
    | Doctype(name: string, publicId: string, systemId: string)
    | Document(children: seq<Node>)

  /** The attributes of an element and of the elements around it, the nearest first. */
  type Chain = seq<seq<Attr>>

  // ---------- looking things up ----------

  predicate SameIgnoringCase(a: string, b: string) {
    |a| == |b| && forall i :: 0 <= i < |a| ==> LowerChar(a[i]) == LowerChar(b[i])
  }

  /** ns_element_get_attr, for a lower-case name */
  function GetAttr(attrs: seq<Attr>, name: string, exact: bool): Option<string> {
    if attrs == [] then None
    else if attrs[0].name == name || (!exact && SameIgnoringCase(attrs[0].name, name)) then Some(attrs[0].value)
    else GetAttr(attrs[1..], name, exact)
  }

  predicate IsInternal(name: string) {
    |name| >= 8 && SameIgnoringCase(name[..8], "data-nd-")
  }

  /** ns_xml_element_ns */
  function ElementNs(n: Node): string
    requires n.Element?
  {
    var stored := GetAttr(n.attrs, "data-nd-ns-uri", n.svg);
    if stored.Some? then stored.value else if n.svg then SVG else if n.foreign || n.xmlDoc then "" else HTML
  }

  predicate IsNsDecl(a: Attr) {
    a.uri == Some(XMLNS)
  }

  /** xml_declared_namespace_on: the last declaration counts. */
  function DeclaredOn(attrs: seq<Attr>, prefix: Option<string>): Option<string> {
    if attrs == [] then None
    else
      var a, rest := attrs[0], DeclaredOn(attrs[1..], prefix);
      if rest.Some? then rest
      else if IsNsDecl(a) && prefix.None? && a.prefix.None? && a.local == Some("xmlns") then Some(a.value)
      else if IsNsDecl(a) && prefix.Some? && a.prefix == Some("xmlns") && a.local == prefix then Some(a.value)
      else None
  }

  /** xml_declared_namespace */
  function Declared(chain: Chain, prefix: string): Option<string> {
    if chain == [] then (if prefix == "xml" then Some(XML) else None)
    else
      var here := DeclaredOn(chain[0], Some(prefix));
      if here.Some? then here else Declared(chain[1..], prefix)
  }

  function PrefixOn(attrs: seq<Attr>, uri: string): Option<string> {
    if attrs == [] then None
    else
      var a, rest := attrs[0], PrefixOn(attrs[1..], uri);
      if rest.Some? then rest
      else if IsNsDecl(a) && a.prefix == Some("xmlns") && a.local.Some? && a.value == uri then a.local
      else None
  }

  /** xml_prefix_for_namespace */
  function PrefixFor(chain: Chain, uri: string): Option<string> {
    if chain == [] then None
    else
      var here := PrefixOn(chain[0], uri);
      if here.Some? then here else PrefixFor(chain[1..], uri)
  }

  /** xml_has_namespace_declaration */
  predicate HasNsDecl(chain: Chain) {
    exists i, j :: 0 <= i < |chain| && 0 <= j < |chain[i]| && IsNsDecl(chain[i][j])
  }

  /** xml_has_empty_prefixed_declaration */
  predicate HasEmptyDecl(attrs: seq<Attr>) {
    exists i :: 0 <= i < |attrs| && IsNsDecl(attrs[i]) && attrs[i].prefix == Some("xmlns") && attrs[i].value == ""
  }

  /** xml_element_prefix */
  function ElementPrefix(n: Node): Option<string>
    requires n.Element?
  {
    var stored := GetAttr(n.attrs, "data-nd-ns-prefix", n.svg);
    if stored.Some? && stored.value != "" then stored
    else if Find(n.name, ':') < |n.name| then Some(n.name[..Find(n.name, ':')])
    else None
  }

  /** xml_local_name */
  function LocalName(name: string): string {
    if Find(name, ':') < |name| then name[Find(name, ':') + 1..] else name
  }

  function Digits(n: nat): (r: string)
    ensures r != "" && forall i :: 0 <= i < |r| ==> '0' <= r[i] <= '9'
  {
    var last := ['0' + (n % 10) as char];
    if n < 10 then last else Digits(n / 10) + last
  }

  /** xml_generated_prefix */
  function GeneratedPrefix(index: nat): string {
    "ns" + Digits(index)
  }

  /** ns_html_is_void */
  predicate IsVoid(tag: string) {
    tag in {"area", "base", "basefont", "bgsound", "br", "col", "embed", "frame", "hr", "img", "input", "keygen",
            "link", "meta", "param", "source", "track", "wbr"}
  }

  // ---------- escaping ----------

  function EscapeChar(c: char, attr: bool): string {
    if c == '&' then "&amp;"
    else if c == '<' then "&lt;"
    else if c == '>' then "&gt;"
    else if c == '"' && attr then "&quot;"
    else if c == '\t' && attr then "&#9;"
    else if c == '\n' && attr then "&#10;"
    else if c == '\r' && attr then "&#13;"
    else [c]
  }

  /** ns_xml_escape_append */
  function Escape(s: string, attr: bool): string {
    if s == "" then "" else EscapeChar(s[0], attr) + Escape(s[1..], attr)
  }

  lemma EscapeStep(s: string, i: nat, attr: bool, out: string)
    requires i < |s|
    ensures out + Escape(s[i..], attr) == (out + EscapeChar(s[i], attr)) + Escape(s[i + 1..], attr)
  {
    assert s[i..][0] == s[i] && s[i..][1..] == s[i + 1..];
  }

  // ---------- the start of an element ----------

  /** The prefix an element is written with, and the index of the next generated prefix. */
  datatype Chosen = Chosen(prefix: Option<string>, generated: bool, index: nat)

  function ChoosePrefix(n: Node, chain: Chain, inherited: string, index: nat): Chosen
    requires n.Element?
  {
    var ns, own, prefix := ElementNs(n), DeclaredOn(n.attrs, None), ElementPrefix(n);
    var default := if own.Some? then own.value else inherited;
    if ns == XML then Chosen(Some("xml"), false, index)
    else if prefix.Some? && default == ns then Chosen(None, false, index)
    else if prefix.Some? then
      var binding := DeclaredOn(n.attrs, prefix);
      if binding.Some? && binding.value != ns then Chosen(Some(GeneratedPrefix(index)), true, index + 1)
      else Chosen(prefix, false, index)
    else Chosen(if ns != "" then PrefixFor(chain, ns) else None, false, index)
  }

  function WithPrefix(prefix: Option<string>, local: string): string {
    if prefix.Some? then prefix.value + ":" + local else local
  }

  /** Whether the element is written with a declaration of its own name space. */
  predicate DeclaresItself(n: Node, chain: Chain, inherited: string, c: Chosen)
    requires n.Element?
  {
    if c.prefix.None? then ElementNs(n) != inherited
    else c.prefix.value != "xml" && (c.generated || Declared(chain, c.prefix.value) != Some(ElementNs(n)))
  }

  function Quoted(name: string, value: string): string {
    " " + name + "=\"" + Escape(value, true) + "\""
  }

  function NsDecl(prefix: Option<string>, uri: string): string {
    Quoted(if prefix.Some? then "xmlns:" + prefix.value else "xmlns", uri)
  }

  /** The prefix an attribute is written with, whether it is declared there, and the next index. */
  datatype AttrPrefix = AttrPrefix(prefix: Option<string>, declare: bool, index: nat)

  function ChooseAttrPrefix(a: Attr, chain: Chain, index: nat): AttrPrefix {
    if a.uri.None? || a.uri.value == "" then AttrPrefix(None, false, index)
    else if a.uri.value == XML then AttrPrefix(Some("xml"), false, index)
    else
      var known := PrefixFor(chain, a.uri.value);
      if known.Some? then AttrPrefix(known, false, index)
      else
        var own := a.prefix.Some? && a.prefix.value != "";
        var binding := if own then Declared(chain, a.prefix.value) else None;
        if own && binding == a.uri then AttrPrefix(a.prefix, false, index)
        else if own && binding.None? && !HasNsDecl(chain) then AttrPrefix(a.prefix, true, index)
        else AttrPrefix(Some(GeneratedPrefix(index)), true, index + 1)
  }

  /** The declarations that the element does not repeat. */
  predicate IsDroppedDecl(a: Attr, attrs: seq<Attr>, c: Chosen, declares: bool) {
    a.prefix.None? && (declares || (c.prefix.None? && !HasEmptyDecl(attrs)))
  }

  /** One attribute of the list. */
  function AttrText(a: Attr, attrs: seq<Attr>, chain: Chain, c: Chosen, declares: bool, index: nat): (string, nat) {
    if IsInternal(a.name) then ("", index)
    else if IsNsDecl(a) then
      (if IsDroppedDecl(a, attrs, c, declares) then "" else Quoted(a.name, a.value), index)
    else if a.name == "xmlns" || StartsAt(a.name, 0, "xmlns:") then ("", index)
    else PlainAttrText(a, chain, index)
  }

  function PlainAttrText(a: Attr, chain: Chain, index: nat): (string, nat) {
    var p := ChooseAttrPrefix(a, chain, index);
    ((if p.declare then NsDecl(p.prefix, a.uri.value) else "") +
     Quoted(WithPrefix(p.prefix, if a.local.Some? then a.local.value else LocalName(a.name)), a.value), p.index)
  }

  function AttrsText(list: seq<Attr>, attrs: seq<Attr>, chain: Chain, c: Chosen, declares: bool, index: nat): (string, nat) {
    if list == [] then ("", index)
    else
      var first := AttrText(list[0], attrs, chain, c, declares, index);
      var rest := AttrsText(list[1..], attrs, chain, c, declares, first.1);
      (first.0 + rest.0, rest.1)
  }

  /** What is written of an element before its children: its name, the rest of the tag, and the default name
      space for its children. */
  datatype Head = Head(name: string, body: string, childNs: string, index: nat)

  function ElementHead(n: Node, above: Chain, inherited: string, index: nat): Head
    requires n.Element?
  {
    var chain := [n.attrs] + above;
    var c := ChoosePrefix(n, chain, inherited, index);
    var declares := DeclaresItself(n, chain, inherited, c);
    var attrs := AttrsText(n.attrs, n.attrs, chain, c, declares, c.index);
    var own := DeclaredOn(n.attrs, None);
    Head(WithPrefix(c.prefix, LocalName(n.name)),
         (if declares then NsDecl(c.prefix, ElementNs(n)) else "") + attrs.0,
         if c.prefix.Some? then (if own.Some? then own.value else inherited) else ElementNs(n), attrs.1)
  }

  // ---------- the serializer ----------

  function InstructionText(name: string, text: string): string {
    if text == "" then name else name + " " + text
  }

  function DoctypeText(name: string, publicId: string, systemId: string): string {
    name + if publicId != "" then " PUBLIC \"" + publicId + "\"" + (if systemId != "" then " \"" + systemId + "\"" else "")
           else if systemId != "" then " SYSTEM \"" + systemId + "\"" else ""
  }

  /** What an element without children looks like: HTML elements that may have children get an end tag. */
  function Childless(n: Node, h: Head): seq<Token>
    requires n.Element?
  {
    if ElementNs(n) == HTML && !IsVoid(LocalName(n.name)) then [Open(h.name, h.body), Close(h.name)]
    else [Empty(h.name, h.body)]
  }

  /** xml_serialize_node, as the markup tokens it writes, and the next prefix index. */
  function Tokens(n: Node, above: Chain, inherited: string, index: nat, depth: nat): (seq<Token>, nat)
    decreases n, 0
  {
    if depth >= MAX_DEPTH then ([], index)
    else match n
      case Chardata(text, cdata) => ([if cdata then Cdata(text) else Chars(Escape(text, false))], index)
      case CommentNode(text) => ([Comment(text)], index)
      case ProcessingInstruction(name, text) => ([Instruction(InstructionText(name, text))], index)
      case Doctype(name, publicId, systemId) => ([Declaration(DoctypeText(name, publicId, systemId))], index)
      case Document(children) => TokensAll(children, above, "", index, depth + 1)
      case Element(_, _, _, _, attrs, children) =>
        var h := ElementHead(n, above, inherited, index);
        if children == [] then (Childless(n, h), h.index)
        else
          var kids := TokensAll(children, [attrs] + above, h.childNs, h.index, depth + 1);
          ([Open(h.name, h.body)] + kids.0 + [Close(h.name)], kids.1)
  }

  function TokensAll(list: seq<Node>, above: Chain, inherited: string, index: nat, depth: nat): (seq<Token>, nat)
    decreases list, 1
  {
    if list == [] then ([], index)
    else
      var first := Tokens(list[0], above, inherited, index, depth);
      var rest := TokensAll(list[1..], above, inherited, first.1, depth);
      (first.0 + rest.0, rest.1)
  }

  // ---------- the object that writes ----------

  /** The GString that the serializer appends to, and the counter behind generated prefixes. */
  class Writer {
    var out: string
    var prefixIndex: nat

    constructor ()
      ensures out == "" && prefixIndex == 1
    {
      out, prefixIndex := "", 1;
    }

    /** ns_xml_escape_append */
    method AppendEscaped(s: string, attr: bool)
      modifies this`out
      ensures out == old(out) + Escape(s, attr)
    {
      var i := 0;
      while i < |s|
        invariant 0 <= i <= |s| && out + Escape(s[i..], attr) == old(out) + Escape(s, attr)
      {
        EscapeStep(s, i, attr, out);
        out := out + EscapeChar(s[i], attr);
        i := i + 1;
      }
    }

    method AppendQuoted(name: string, value: string)
      modifies this`out
      ensures out == old(out) + Quoted(name, value)
    {
      out := out + " " + name + "=\"";
      AppendEscaped(value, true);
      out := out + "\"";
    }

    method AppendDecl(prefix: Option<string>, uri: string)
      modifies this`out
      ensures out == old(out) + NsDecl(prefix, uri)
    {
      AppendQuoted(if prefix.Some? then "xmlns:" + prefix.value else "xmlns", uri);
    }

    /** The loop over the attributes in xml_serialize_node */
    method AppendAttrs(attrs: seq<Attr>, chain: Chain, c: Chosen, declares: bool)
      modifies this
      ensures var r := AttrsText(attrs, attrs, chain, c, declares, old(prefixIndex));
              out == old(out) + r.0 && prefixIndex == r.1
    {
      var i := 0;
      ghost var before, all := out, AttrsText(attrs, attrs, chain, c, declares, prefixIndex);
      assert attrs[0..] == attrs;
      while i < |attrs|
        invariant 0 <= i <= |attrs|
        invariant Continues(before, out, AttrsText(attrs[i..], attrs, chain, c, declares, prefixIndex), all)
      {
        assert attrs[i..][0] == attrs[i] && attrs[i..][1..] == attrs[i + 1..];
        ghost var here, first := out, AttrText(attrs[i], attrs, chain, c, declares, prefixIndex);
        AppendAttr(attrs[i], attrs, chain, c, declares);
        Assoc(here, first.0, AttrsText(attrs[i + 1..], attrs, chain, c, declares, prefixIndex).0);
        i := i + 1;
      }
    }

    method AppendAttr(a: Attr, attrs: seq<Attr>, chain: Chain, c: Chosen, declares: bool)
      modifies this
      ensures var r := AttrText(a, attrs, chain, c, declares, old(prefixIndex));
              out == old(out) + r.0 && prefixIndex == r.1
    {
      if IsInternal(a.name) { return; }
      if IsNsDecl(a) {
        if IsDroppedDecl(a, attrs, c, declares) { return; }
        AppendQuoted(a.name, a.value);
      } else if !(a.name == "xmlns" || StartsAt(a.name, 0, "xmlns:")) {
        AppendPlainAttr(a, chain);
      }
    }

    /** The part of the loop for an attribute that is no declaration */
    method AppendPlainAttr(a: Attr, chain: Chain)
      modifies this
      ensures var r := PlainAttrText(a, chain, old(prefixIndex)); out == old(out) + r.0 && prefixIndex == r.1
    {
      var p := ChooseAttrPrefix(a, chain, prefixIndex);
      var name := WithPrefix(p.prefix, if a.local.Some? then a.local.value else LocalName(a.name));
      prefixIndex := p.index;
      ghost var before := out;
      if p.declare {
        AppendDecl(p.prefix, a.uri.value);
        Assoc(before, NsDecl(p.prefix, a.uri.value), Quoted(name, a.value));
      }
      AppendQuoted(name, a.value);
    }

    /** xml_serialize_node */
    method Serialize(n: Node, above: Chain, inherited: string, depth: nat)
      modifies this
      ensures var r := Tokens(n, above, inherited, old(prefixIndex), depth);
              out == old(out) + Text(r.0) && prefixIndex == r.1
      decreases n, 2
    {
      if depth >= MAX_DEPTH { return; }
      match n
      case Chardata(text, cdata) =>
        OneToken(if cdata then Cdata(text) else Chars(Escape(text, false)));
        if cdata {
          out := out + "<![CDATA[" + text + "]]>";
        } else {
          AppendEscaped(text, false);
        }
      case CommentNode(text) =>
        OneToken(Comment(text));
        out := out + "<!--" + text + "-->";
      case ProcessingInstruction(name, text) =>
        OneToken(Instruction(InstructionText(name, text)));
        out := out + "<?" + (if text == "" then name else name + " " + text) + "?>";
      case Doctype(name, publicId, systemId) =>
        OneToken(Declaration(DoctypeText(name, publicId, systemId)));
        out := out + "<!DOCTYPE " + DoctypeText(name, publicId, systemId) + ">";
      case Document(children) =>
        SerializeAll(children, above, "", depth + 1);
      case Element(_, _, _, _, attrs, children) =>
        SerializeElement(n, above, inherited, depth);
    }

    method SerializeElement(n: Node, above: Chain, inherited: string, depth: nat)
      requires n.Element? && depth < MAX_DEPTH
      modifies this
      ensures var r := Tokens(n, above, inherited, old(prefixIndex), depth);
              out == old(out) + Text(r.0) && prefixIndex == r.1
      decreases n, 1
    {
      ghost var before, h := out, ElementHead(n, above, inherited, prefixIndex);
      var name, childNs := StartTag(n, above, inherited);
      if n.children == [] {
        ChildlessText(before, n, h);
        if ElementNs(n) == HTML && !IsVoid(LocalName(n.name)) {
          out := out + "></" + name + ">";
        } else {
          out := out + "/>";
        }
      } else {
        out := out + ">";
        ghost var kids := TokensAll(n.children, [n.attrs] + above, childNs, prefixIndex, depth + 1).0;
        SerializeAll(n.children, [n.attrs] + above, childNs, depth + 1);
        out := out + "</" + name + ">";
        EnclosedText(before, h, kids);
      }
    }

    /** The part of xml_serialize_node up to the end of the attributes */
    method StartTag(n: Node, above: Chain, inherited: string) returns (name: string, childNs: string)
      requires n.Element?
      modifies this
      ensures var h := ElementHead(n, above, inherited, old(prefixIndex));
              out == old(out) + "<" + h.name + h.body && prefixIndex == h.index && name == h.name && childNs == h.childNs
    {
      var chain := [n.attrs] + above;
      var ns, own := ElementNs(n), DeclaredOn(n.attrs, None);
      var c := ChoosePrefix(n, chain, inherited, prefixIndex);
      prefixIndex := c.index;
      name := WithPrefix(c.prefix, LocalName(n.name));
      childNs := if c.prefix.Some? then (if own.Some? then own.value else inherited) else ns;
      out := out + "<" + name;
      var declares := DeclaresItself(n, chain, inherited, c);
      AppendTagBody(n, chain, c, declares);
    }

    method AppendTagBody(n: Node, chain: Chain, c: Chosen, declares: bool)
      requires n.Element?
      modifies this
      ensures var r := AttrsText(n.attrs, n.attrs, chain, c, declares, old(prefixIndex));
              && out == old(out) + ((if declares then NsDecl(c.prefix, ElementNs(n)) else "") + r.0)
              && prefixIndex == r.1
    {
      ghost var before, r := out, AttrsText(n.attrs, n.attrs, chain, c, declares, prefixIndex);
      Assoc(before, if declares then NsDecl(c.prefix, ElementNs(n)) else "", r.0);
      if declares { AppendDecl(c.prefix, ElementNs(n)); }
      AppendAttrs(n.attrs, chain, c, declares);
    }

    /** The loop over the children */
    method SerializeAll(list: seq<Node>, above: Chain, inherited: string, depth: nat)
      modifies this
      ensures var r := TokensAll(list, above, inherited, old(prefixIndex), depth);
              out == old(out) + Text(r.0) && prefixIndex == r.1
      decreases list
    {
      var i := 0;
      ghost var before, all := out, TokensAll(list, above, inherited, prefixIndex, depth);
      assert list[0..] == list;
      while i < |list|
        invariant 0 <= i <= |list|
        invariant ContinuesTokens(before, out, TokensAll(list[i..], above, inherited, prefixIndex, depth), all)
      {
        assert list[i..][0] == list[i] && list[i..][1..] == list[i + 1..];
        ghost var here, first := out, Tokens(list[i], above, inherited, prefixIndex, depth);
        ghost var rest := TokensAll(list[i + 1..], above, inherited, first.1, depth);
        TextConcat(first.0, rest.0);
        Serialize(list[i], above, inherited, depth);
        Assoc(here, Text(first.0), Text(rest.0));
        i := i + 1;
      }
    }
  }

  /** What has been written so far and what is still to come make up the whole. */
  ghost predicate Continues(before: string, out: string, rest: (string, nat), all: (string, nat)) {
    out + rest.0 == before + all.0 && rest.1 == all.1
  }

  ghost predicate ContinuesTokens(before: string, out: string, rest: (seq<Token>, nat), all: (seq<Token>, nat)) {
    out + Text(rest.0) == before + Text(all.0) && rest.1 == all.1
  }

  lemma ChildlessText(before: string, n: Node, h: Head)
    requires n.Element?
    ensures before + Text(Childless(n, h)) == before + "<" + h.name + h.body +
            if ElementNs(n) == HTML && !IsVoid(LocalName(n.name)) then "></" + h.name + ">" else "/>"
  {
    TwoTokens(Open(h.name, h.body), Close(h.name));
    OneToken(Empty(h.name, h.body));
  }

  lemma EnclosedText(before: string, h: Head, kids: seq<Token>)
    ensures before + Text([Open(h.name, h.body)] + kids + [Close(h.name)]) ==
            before + "<" + h.name + h.body + ">" + Text(kids) + "</" + h.name + ">"
  {
    Enclosed(Open(h.name, h.body), kids, Close(h.name));
  }

  /** ns_node_xml_outer_html */
  method OuterXml(n: Node, above: Chain) returns (text: string)
    ensures text == Text(Tokens(n, above, "", 1, 0).0)
  {
    var w := new Writer();
    w.Serialize(n, above, "", 0);
    text := w.out;
  }

  lemma OneToken(t: Token)
    ensures Text([t]) == TokenText(t)
  {
  }

  lemma TwoTokens(a: Token, b: Token)
    ensures Text([a, b]) == TokenText(a) + TokenText(b)
  {
    assert [a, b][1..] == [b];
    OneToken(b);
  }

  lemma Enclosed(a: Token, kids: seq<Token>, b: Token)
    ensures Text([a] + kids + [b]) == TokenText(a) + Text(kids) + TokenText(b)
  {
    TextConcat([a] + kids, [b]);
    TextConcat([a], kids);
  }

  // ---------- legal trees ----------

  /** A string without anything that ends a name, a tag or a string, and that does not look like a
      declaration or an instruction. */
  predicate Piece(s: string) {
    (forall i :: 0 <= i < |s| ==> IsNameChar(s[i])) && (s != "" ==> s[0] != '!' && s[0] != '?')
  }

  predicate LegalAttr(a: Attr) {
    Piece(a.name) && (a.prefix.Some? ==> Piece(a.prefix.value)) && (a.local.Some? ==> Piece(a.local.value))
  }

  predicate LegalAttrs(attrs: seq<Attr>) {
    forall i :: 0 <= i < |attrs| ==> LegalAttr(attrs[i])
  }

  predicate LegalChain(chain: Chain) {
    forall i :: 0 <= i < |chain| ==> LegalAttrs(chain[i])
  }

  predicate LegalElement(n: Node)
    requires n.Element?
  {
    && Piece(n.name) && Piece(LocalName(n.name)) && LocalName(n.name) != "" && LegalAttrs(n.attrs)
    && (ElementPrefix(n).Some? ==> Piece(ElementPrefix(n).value))
  }

  /** Names are legal, and no text holds the end mark of the markup it is written in. */
  predicate LegalTree(n: Node)
    decreases n, 0
  {
    match n
    case Chardata(text, cdata) => cdata ==> Lacks(text, "]]>")
    case CommentNode(text) => Lacks(text, "-->")
    case ProcessingInstruction(name, text) => Lacks(InstructionText(name, text), "?>")
    case Doctype(name, publicId, systemId) =>
      forall i :: 0 <= i < |DoctypeText(name, publicId, systemId)| ==> DoctypeText(name, publicId, systemId)[i] != '>'
    case Document(children) => LegalTrees(children)
    case Element(_, _, _, _, _, children) => LegalElement(n) && LegalTrees(children)
  }

  predicate LegalTrees(list: seq<Node>)
    decreases list, 1
  {
    list == [] || (LegalTree(list[0]) && LegalTrees(list[1..]))
  }

  lemma {:induction false} EscapeSafe(s: string, attr: bool)
    ensures forall i :: 0 <= i < |Escape(s, attr)| ==>
              Escape(s, attr)[i] != '<' && Escape(s, attr)[i] != '>' && (attr ==> Escape(s, attr)[i] != '"')
    decreases s
  {
    if s != "" { EscapeSafe(s[1..], attr); }
  }

  lemma {:induction false} ScanQuoted(w: string)
    requires forall i :: 0 <= i < |w| ==> w[i] != '"'
    ensures ScanTag(w, Some('"')) == At(Some('"'))
    decreases w
  {
    if w != "" { ScanQuoted(w[1..]); }
  }

  lemma QuotedBody(name: string, value: string)
    requires forall i :: 0 <= i < |name| ==> name[i] != '>' && name[i] != '"' && name[i] != '\''
    ensures IsBody(Quoted(name, value)) && Quoted(name, value) != ""
  {
    var front, mid := " " + name + "=", Escape(value, true);
    EscapeSafe(value, true);
    ScanPlain(front);
    ScanQuoted(mid);
    ScanConcat(mid, "\"", Some('"'));
    assert ("\"" + (mid + "\""))[1..] == mid + "\"";
    ScanConcat(front, "\"" + (mid + "\""), None);
    assert Quoted(name, value) == front + ("\"" + (mid + "\""));
  }

  lemma BodyConcat(a: string, b: string)
    requires IsBody(a) && IsBody(b)
    ensures IsBody(a + b)
  {
    if a == "" {
      assert a + b == b;
    } else if b == "" {
      assert a + b == a;
    } else {
      ScanConcat(a, b, None);
    }
  }

  lemma {:induction false} PrefixOnLegal(attrs: seq<Attr>, uri: string)
    requires LegalAttrs(attrs)
    ensures PrefixOn(attrs, uri).Some? ==> Piece(PrefixOn(attrs, uri).value)
    decreases attrs
  {
    if attrs != [] { PrefixOnLegal(attrs[1..], uri); }
  }

  lemma {:induction false} PrefixForLegal(chain: Chain, uri: string)
    requires LegalChain(chain)
    ensures PrefixFor(chain, uri).Some? ==> Piece(PrefixFor(chain, uri).value)
    decreases chain
  {
    if chain != [] {
      PrefixOnLegal(chain[0], uri);
      PrefixForLegal(chain[1..], uri);
    }
  }

  lemma GeneratedLegal(index: nat)
    ensures Piece(GeneratedPrefix(index))
  {
  }

  lemma ChosenLegal(n: Node, chain: Chain, inherited: string, index: nat)
    requires n.Element? && LegalElement(n) && LegalChain(chain)
    ensures var c := ChoosePrefix(n, chain, inherited, index); c.prefix.Some? ==> Piece(c.prefix.value)
  {
    GeneratedLegal(index);
    PrefixForLegal(chain, ElementNs(n));
  }

  lemma ColonLocal(s: string)
    requires Piece(s)
    ensures forall i :: 0 <= i < |LocalName(s)| ==> IsNameChar(LocalName(s)[i])
  {
  }

  lemma WithPrefixPlain(prefix: Option<string>, local: string)
    requires prefix.Some? ==> Piece(prefix.value)
    requires forall i :: 0 <= i < |local| ==> IsNameChar(local[i])
    ensures forall i :: 0 <= i < |WithPrefix(prefix, local)| ==> IsNameChar(WithPrefix(prefix, local)[i])
  {
  }

  lemma AttrPrefixLegal(a: Attr, chain: Chain, index: nat)
    requires LegalAttr(a) && LegalChain(chain)
    ensures var p := ChooseAttrPrefix(a, chain, index);
            (p.prefix.Some? ==> Piece(p.prefix.value)) && (p.declare ==> p.prefix.Some? && a.uri.Some?)
  {
    GeneratedLegal(index);
    if a.uri.Some? { PrefixForLegal(chain, a.uri.value); }
  }

  lemma DeclBody(prefix: Option<string>, uri: string)
    requires prefix.Some? ==> Piece(prefix.value)
    ensures IsBody(NsDecl(prefix, uri))
  {
    var name := if prefix.Some? then "xmlns:" + prefix.value else "xmlns";
    forall i | 0 <= i < |name| ensures name[i] != '>' && name[i] != '"' && name[i] != '\'' {
      if i >= 6 { assert IsNameChar(prefix.value[i - 6]); }
    }
    QuotedBody(name, uri);
  }

  lemma AttrBody(a: Attr, attrs: seq<Attr>, chain: Chain, c: Chosen, declares: bool, index: nat)
    requires LegalAttr(a) && LegalChain(chain)
    ensures IsBody(AttrText(a, attrs, chain, c, declares, index).0)
  {
    QuotedBody(a.name, a.value);
    AttrPrefixLegal(a, chain, index);
    var p := ChooseAttrPrefix(a, chain, index);
    var local := if a.local.Some? then a.local.value else LocalName(a.name);
    ColonLocal(a.name);
    WithPrefixPlain(p.prefix, local);
    QuotedBody(WithPrefix(p.prefix, local), a.value);
    if p.declare {
      DeclBody(p.prefix, a.uri.value);
      BodyConcat(NsDecl(p.prefix, a.uri.value), Quoted(WithPrefix(p.prefix, local), a.value));
    } else {
      BodyConcat("", Quoted(WithPrefix(p.prefix, local), a.value));
    }
  }

  lemma {:induction false} AttrsBody(list: seq<Attr>, attrs: seq<Attr>, chain: Chain, c: Chosen, declares: bool, index: nat)
    requires LegalAttrs(list) && LegalChain(chain)
    ensures IsBody(AttrsText(list, attrs, chain, c, declares, index).0)
    decreases list
  {
    if list != [] {
      var first := AttrText(list[0], attrs, chain, c, declares, index);
      AttrBody(list[0], attrs, chain, c, declares, index);
      AttrsBody(list[1..], attrs, chain, c, declares, first.1);
      BodyConcat(first.0, AttrsText(list[1..], attrs, chain, c, declares, first.1).0);
    }
  }

  /** Every start of an element is a legal tag, whatever prefixes are found or made up. */
  lemma HeadLegal(n: Node, above: Chain, inherited: string, index: nat)
    requires n.Element? && LegalElement(n) && LegalChain(above)
    ensures var h := ElementHead(n, above, inherited, index); IsName(h.name) && IsBody(h.body)
  {
    var chain := [n.attrs] + above;
    assert LegalChain(chain);
    var c := ChoosePrefix(n, chain, inherited, index);
    var declares := DeclaresItself(n, chain, inherited, c);
    ChosenLegal(n, chain, inherited, index);
    WithPrefixPlain(c.prefix, LocalName(n.name));
    AttrsBody(n.attrs, n.attrs, chain, c, declares, c.index);
    DeclBody(c.prefix, ElementNs(n));
    BodyConcat(if declares then NsDecl(c.prefix, ElementNs(n)) else "",
               AttrsText(n.attrs, n.attrs, chain, c, declares, c.index).0);
  }

  // ---------- the theorem ----------

  ghost predicate AllLegal(ts: seq<Token>) {
    forall i :: 0 <= i < |ts| ==> Legal(ts[i])
  }

  /** Content inside an open element: legal tokens that leave the stack as it was. */
  ghost predicate Content(ts: seq<Token>) {
    AllLegal(ts) && forall st: State :: Inside(st) ==> Run(ts, st) == Some(st)
  }

  predicate Inside(st: State) {
    st.stack != [] && st.seen && !st.closed
  }

  lemma ContentConcat(a: seq<Token>, b: seq<Token>)
    requires Content(a) && Content(b)
    ensures Content(a + b)
  {
    forall st: State | Inside(st) ensures Run(a + b, st) == Some(st) { RunConcat(a, b, st); }
  }

  lemma ElementRun(name: string, body: string, kids: seq<Token>, st: State)
    requires Content(kids) && !st.closed
    ensures Run([Open(name, body)] + kids + [Close(name)], st) == Some(State(st.stack, true, st.stack == []))
  {
    var a, b := [Open(name, body)], [Close(name)];
    var inner := State(st.stack + [name], true, false);
    assert Inside(inner);
    assert inner.stack[..|inner.stack| - 1] == st.stack;
    RunConcat(a + kids, b, st);
    RunConcat(a, kids, st);
    assert Run(a, st) == Some(inner) by { assert a[1..] == []; }
    assert Run(b, inner) == Some(State(st.stack, true, st.stack == [])) by { assert b[1..] == []; }
  }

  lemma EmptyElementRun(name: string, body: string, st: State)
    requires !st.closed
    ensures Run([Empty(name, body)], st) == Some(State(st.stack, true, st.stack == []))
  {
    assert [Empty(name, body)][1..] == [];
  }

  lemma Single(t: Token)
    requires Legal(t) && !t.Open? && !t.Close? && !t.Empty?
    ensures Content([t])
  {
    assert [t][1..] == [];
  }

  /** An element, in any state in which one may begin. */
  lemma {:induction false} ElementTokens(n: Node, above: Chain, inherited: string, index: nat, depth: nat)
    requires n.Element? && LegalTree(n) && LegalChain(above) && depth < MAX_DEPTH
    ensures AllLegal(Tokens(n, above, inherited, index, depth).0)
    ensures forall st: State :: !st.closed ==>
              Run(Tokens(n, above, inherited, index, depth).0, st) == Some(State(st.stack, true, st.stack == []))
    decreases n, 1
  {
    var h := ElementHead(n, above, inherited, index);
    HeadLegal(n, above, inherited, index);
    if n.children == [] {
      ChildlessRuns(n, h);
    } else {
      var chain := [n.attrs] + above;
      assert LegalChain(chain);
      ContentAll(n.children, chain, h.childNs, h.index, depth + 1);
      EnclosedRuns(h.name, h.body, TokensAll(n.children, chain, h.childNs, h.index, depth + 1).0);
    }
  }

  lemma ChildlessRuns(n: Node, h: Head)
    requires n.Element? && IsName(h.name) && IsBody(h.body)
    ensures AllLegal(Childless(n, h))
    ensures forall st: State :: !st.closed ==> Run(Childless(n, h), st) == Some(State(st.stack, true, st.stack == []))
  {
    forall st: State | !st.closed
      ensures Run(Childless(n, h), st) == Some(State(st.stack, true, st.stack == [])) {
      EmptyElementRun(h.name, h.body, st);
      ElementRun(h.name, h.body, [], st);
      assert [Open(h.name, h.body)] + [] + [Close(h.name)] == [Open(h.name, h.body), Close(h.name)];
    }
  }

  lemma EnclosedRuns(name: string, body: string, kids: seq<Token>)
    requires IsName(name) && IsBody(body) && Content(kids)
    ensures AllLegal([Open(name, body)] + kids + [Close(name)])
    ensures forall st: State :: !st.closed ==>
              Run([Open(name, body)] + kids + [Close(name)], st) == Some(State(st.stack, true, st.stack == []))
  {
    forall st: State | !st.closed
      ensures Run([Open(name, body)] + kids + [Close(name)], st) == Some(State(st.stack, true, st.stack == [])) {
      ElementRun(name, body, kids, st);
    }
  }

  lemma {:induction false} ContentOne(n: Node, above: Chain, inherited: string, index: nat, depth: nat)
    requires LegalTree(n) && LegalChain(above)
    ensures Content(Tokens(n, above, inherited, index, depth).0)
    decreases n, 2
  {
    if depth < MAX_DEPTH {
      match n
      case Chardata(text, cdata) =>
        EscapeSafe(text, false);
        Single(if cdata then Cdata(text) else Chars(Escape(text, false)));
      case CommentNode(text) => Single(Comment(text));
      case ProcessingInstruction(name, text) => Single(Instruction(InstructionText(name, text)));
      case Doctype(name, publicId, systemId) => Single(Declaration(DoctypeText(name, publicId, systemId)));
      case Document(children) => ContentAll(children, above, "", index, depth + 1);
      case Element(_, _, _, _, _, _) =>
        ElementTokens(n, above, inherited, index, depth);
        forall st: State | Inside(st) ensures Run(Tokens(n, above, inherited, index, depth).0, st) == Some(st) {}
    }
  }

  lemma {:induction false} ContentAll(list: seq<Node>, above: Chain, inherited: string, index: nat, depth: nat)
    requires LegalTrees(list) && LegalChain(above)
    ensures Content(TokensAll(list, above, inherited, index, depth).0)
    decreases list, 3
  {
    if list != [] {
      var first := Tokens(list[0], above, inherited, index, depth);
      ContentOne(list[0], above, inherited, index, depth);
      ContentAll(list[1..], above, inherited, first.1, depth);
      ContentConcat(first.0, TokensAll(list[1..], above, inherited, first.1, depth).0);
    }
  }

  /** The tag checker accepts what the serializer writes for any legal element, at any place in a tree, with
      generated prefixes, void elements and the cut-off at depth 512. */
  lemma OuterXmlIsWellFormed(n: Node, above: Chain)
    requires n.Element? && LegalTree(n) && LegalChain(above)
    ensures Check(Text(Tokens(n, above, "", 1, 0).0), START)
  {
    var ts := Tokens(n, above, "", 1, 0).0;
    ElementTokens(n, above, "", 1, 0);
    CheckIsRun(ts, START);
    assert Run(ts, START) == Some(State([], true, true));
  }
}
