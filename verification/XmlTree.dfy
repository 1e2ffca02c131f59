/**
 The tree that is read back from what xml_serialize_node of src/dom.c writes: elements with their local names and
 attributes, texts, comments, CDATA sections, processing instructions and document types, in order.
 */
module XmlTree {
  import opened Common
  import opened Strings
  import opened XmlTokens
  import opened XmlSerialize
  import opened XmlReading
  import Locks

  /** What a reader finds in a text, character by character where it is not markup; names and attributes as they are
      written */
  datatype Item =
    | Letter(c: char)
    | Start(name: string, attrs: seq<Pair>)
    | End(name: string)
    | Remark(text: string)
    | Section(text: string)
    | Instruct(target: string, data: string)
    | Type(name: string, publicId: string, systemId: string)

  // ---------- the reader ----------

  /** Some items, and how much of the text they take */
  datatype Found = Found(items: seq<Item>, length: nat)

  function Skipped(u: string): Found {
    Found([], |u|)
  }

  /** A start tag, or the tag of an empty element, which is read as a start and an end */
  function ReadStart(u: string): (r: Found)
    requires u != ""
    ensures 0 < r.length <= |u|
  {
    var n := 1 + Span(u[1..], " />");
    StartFound(|u|, u[1..n], ReadAttrs(u[n..]))
  }

  function StartFound(length: nat, name: string, attrs: ReadPairs): (r: Found)
    requires |attrs.rest| < length
    ensures 0 < r.length <= length
  {
    var start := Start(name, attrs.pairs);
    if StartsWith(attrs.rest, "/>") then Found([start, End(name)], length - |attrs.rest| + 2)
    else if StartsWith(attrs.rest, ">") then Found([start], length - |attrs.rest| + 1)
    else Found([], length)
  }

  function ReadEnd(u: string): (r: Found)
    requires |u| >= 2
    ensures 0 < r.length <= |u|
  {
    var e := FindFrom(u, '>', 2, |u|);
    if e == |u| then Skipped(u) else Found([End(u[2..e])], e + 1)
  }

  /** Target and data, or a document type with its identifiers */
  function ReadInstruction(text: string): Item {
    var i := Find(text, ' ');
    if i == |text| then Instruct(text, "") else Instruct(text[..i], text[i + 1..])
  }

  /** A string in double quotes, and what follows it */
  datatype Quote = Quote(text: string, rest: string)

  function ReadQuote(u: string): Quote {
    if u == "" || u[0] != '"' then Quote("", "")
    else
      var i := FindFrom(u, '"', 1, |u|);
      Quote(u[1..i], if i < |u| then u[i + 1..] else "")
  }

  function ReadType(text: string): Item {
    var i := Find(text, ' ');
    var name, ids := text[..i], text[i..];
    if StartsWith(ids, " PUBLIC ") then
      var publicId := ReadQuote(ids[8..]);
      Type(name, publicId.text, if publicId.rest == "" then "" else ReadQuote(publicId.rest[1..]).text)
    else if StartsWith(ids, " SYSTEM ") then Type(name, "", ReadQuote(ids[8..]).text)
    else Type(name, "", "")
  }

  /** What stands behind `open` and before the first `close`, if that is there */
  function Between(u: string, open: nat, close: string): Option<(string, nat)>
    requires close != "" && open <= |u|
  {
    var e := SkipPast(u, open, close);
    if e.None? || e.value < open + |close| then None else Some((u[open..e.value - |close|], e.value))
  }

  function ReadOne(u: string): (r: Found)
    requires u != ""
    ensures 0 < r.length <= |u|
  {
    if u[0] != '<' then Found([Letter(ReadChar(u).c)], ReadChar(u).length)
    else if StartsWith(u, "<!--") then
      var b := Between(u, 4, "-->");
      if b.None? then Skipped(u) else Found([Remark(b.value.0)], b.value.1)
    else if StartsWith(u, "<![CDATA[") then
      var b := Between(u, 9, "]]>");
      if b.None? then Skipped(u) else Found([Section(b.value.0)], b.value.1)
    else if StartsWith(u, "<!DOCTYPE ") then
      var e := FindFrom(u, '>', 10, |u|);
      if e == |u| then Skipped(u) else Found([ReadType(u[10..e])], e + 1)
    else if StartsWith(u, "<?") then
      var b := Between(u, 2, "?>");
      if b.None? then Skipped(u) else Found([ReadInstruction(b.value.0)], b.value.1)
    else if StartsWith(u, "</") then ReadEnd(u)
    else ReadStart(u)
  }

  function Read(u: string): seq<Item>
    decreases |u|
  {
    if u == "" then [] else ReadOne(u).items + Read(u[ReadOne(u).length..])
  }

  /** The same by local names, without the declarations of name spaces */
  function View(items: seq<Item>): seq<Item> {
    if items == [] then []
    else [match items[0]
          case Start(name, attrs) => Start(Local(name), Kept(attrs))
          case End(name) => End(Local(name))
          case _ => items[0]] + View(items[1..])
  }

  // ---------- the tree ----------

  function Letters(s: string): seq<Item> {
    if s == "" then [] else [Letter(s[0])] + Letters(s[1..])
  }

  /** What is to be read of a node, so many levels deep */
  function Items(n: Node, levels: nat): seq<Item>
    decreases n, 0
  {
    if levels == 0 then []
    else match n
      case Document(children) => ItemsAll(children, levels - 1)
      case Element(name, _, _, _, attrs, children) =>
        [Start(Local(name), AttrItems(attrs))] + ItemsAll(children, levels - 1) + [End(Local(name))]
      case _ => Leaf(n)
  }

  function ItemsAll(list: seq<Node>, levels: nat): seq<Item>
    decreases list, 1
  {
    if list == [] then [] else Items(list[0], levels) + ItemsAll(list[1..], levels)
  }

  function Leaf(n: Node): seq<Item> {
    match n
    case Chardata(text, cdata) => if cdata then [Section(text)] else Letters(text)
    case CommentNode(text) => [Remark(text)]
    case ProcessingInstruction(name, text) => [Instruct(name, text)]
    case Doctype(name, publicId, systemId) => [Type(name, publicId, systemId)]
    case _ => []
  }

  /** Names as the DOM makes them, and identifiers that can stand in double quotes */
  predicate Readable(n: Node)
    decreases n, 0
  {
    match n
    case Chardata(_, _) => true
    case CommentNode(_) => true
    case ProcessingInstruction(name, _) => ' ' !in name
    case Doctype(name, publicId, systemId) => ' ' !in name && '"' !in publicId && '"' !in systemId
    case Document(children) => ReadableAll(children)
    case Element(name, _, _, _, attrs, children) =>
      && ':' !in Local(name) && (ElementPrefix(n).Some? ==> ':' !in ElementPrefix(n).value && '=' !in ElementPrefix(n).value)
      && ReadableAttrs(attrs) && ReadableAll(children)
  }

  predicate ReadableAll(list: seq<Node>)
    decreases list, 1
  {
    list == [] || (Readable(list[0]) && ReadableAll(list[1..]))
  }

  // ---------- reading what is written ----------

  /** How markup begins */
  lemma Begins(u: string)
    ensures StartsWith(u, "<!--") ==> |u| > 2 && u[1] == '!' && u[2] == '-'
    ensures StartsWith(u, "<![CDATA[") ==> |u| > 2 && u[1] == '!' && u[2] == '['
    ensures StartsWith(u, "<!DOCTYPE ") ==> |u| > 2 && u[1] == '!' && u[2] == 'D'
    ensures StartsWith(u, "<?") ==> |u| > 1 && u[1] == '?'
    ensures StartsWith(u, "</") ==> |u| > 1 && u[1] == '/'
  {
    StartsWithAt(u, "<!--");
    StartsWithAt(u, "<![CDATA[");
    StartsWithAt(u, "<!DOCTYPE ");
    StartsWithAt(u, "<?");
    StartsWithAt(u, "</");
  }

  lemma BetweenFinds(open: string, text: string, close: string, rest: string, u: string)
    requires close != "" && (forall k :: 0 <= k < |close| - 1 ==> close[k] != close[|close| - 1]) && Lacks(text, close)
    requires u == open + text + close + rest
    ensures StartsWith(u, open) && forall i :: 0 <= i < |open| ==> u[i] == open[i]
    ensures |open| <= |u| && Between(u, |open|, close) == Some((text, |open| + |text| + |close|))
    ensures u[|open| + |text| + |close|..] == rest
  {
    SkippedPiece(open, text, close, rest, u);
    assert u[|open|..|open| + |text|] == text;
    assert u[..|open|] == open;
  }

  /** A text reads as these items and then as the rest, under a key. */
  ghost predicate ReadsAs(u: string, items: seq<Item>, rest: string) {
    forall key {:trigger Locks.Open(key)} :: Locks.Key(key) ==> Read(u) == items + Read(rest)
  }

  lemma ReadsNothing(u: string)
    ensures ReadsAs(u, [], u)
  {
    assert Read(u) == [] + Read(u);
  }

  lemma ReadsTogether(u: string, x: seq<Item>, v: string, y: seq<Item>, rest: string)
    requires ReadsAs(u, x, v) && ReadsAs(v, y, rest)
    ensures ReadsAs(u, x + y, rest)
  {
    assert Locks.Open(true);
    assert Read(u) == x + (y + Read(rest));
  }

  lemma ReadOn(u: string, f: Found, rest: string)
    requires u != "" && ReadOne(u) == f && u[f.length..] == rest
    ensures ReadsAs(u, f.items, rest)
  {
    assert Read(u) == f.items + Read(rest);
  }

  lemma RemarkRead(text: string, rest: string)
    requires Lacks(text, "-->")
    ensures ReadsAs(TokenText(Comment(text)) + rest, [Remark(text)], rest)
  {
    var u := TokenText(Comment(text)) + rest;
    BetweenFinds("<!--", text, "-->", rest, u);
    ReadOn(u, Found([Remark(text)], 7 + |text|), rest);
  }

  lemma SectionRead(text: string, rest: string)
    requires Lacks(text, "]]>")
    ensures ReadsAs(TokenText(Cdata(text)) + rest, [Section(text)], rest)
  {
    var u := TokenText(Cdata(text)) + rest;
    BetweenFinds("<![CDATA[", text, "]]>", rest, u);
    Begins(u);
    ReadOn(u, Found([Section(text)], 12 + |text|), rest);
  }

  lemma InstructRead(name: string, text: string, rest: string)
    requires ' ' !in name && Lacks(InstructionText(name, text), "?>")
    ensures ReadsAs(TokenText(Instruction(InstructionText(name, text))) + rest, [Instruct(name, text)], rest)
  {
    var whole := InstructionText(name, text);
    var u := TokenText(Instruction(whole)) + rest;
    BetweenFinds("<?", whole, "?>", rest, u);
    Begins(u);
    InstructionParts(name, text);
    ReadOn(u, Found([Instruct(name, text)], 4 + |whole|), rest);
  }

  lemma InstructionParts(name: string, text: string)
    requires ' ' !in name
    ensures ReadInstruction(InstructionText(name, text)) == Instruct(name, text)
  {
    var s := InstructionText(name, text);
    if text == "" {
      NotIn(s, ' ');
    } else {
      assert s[|name|] == ' ' && s[..|name|] == name && s[|name| + 1..] == text;
      FirstAt(s, ' ', |name|);
    }
  }

  lemma NotIn(s: string, c: char)
    requires c !in s
    ensures Find(s, c) == |s|
  {
  }

  function InQuotes(text: string): string {
    "\"" + text + "\""
  }

  lemma QuoteRead(text: string, rest: string)
    requires '"' !in text
    ensures ReadQuote(InQuotes(text) + rest) == Quote(text, rest)
  {
    var u, q := InQuotes(text) + rest, |text| + 1;
    assert u[0] == '"' && u[q] == '"' && u[1..q] == text && u[q + 1..] == rest;
    forall i | 1 <= i < q ensures u[i] != '"' { assert u[i] == text[i - 1]; }
    FindsFirst(u, 1, q, '"');
  }

  /** The part of a document type behind its name */
  function Ids(publicId: string, systemId: string): string {
    if publicId != "" then " PUBLIC " + (InQuotes(publicId) + if systemId != "" then " " + InQuotes(systemId) else "")
    else if systemId != "" then " SYSTEM " + (InQuotes(systemId) + "")
    else ""
  }

  lemma DoctypeIs(name: string, publicId: string, systemId: string)
    ensures DoctypeText(name, publicId, systemId) == name + Ids(publicId, systemId)
  {
    if publicId != "" {
      var s := if systemId != "" then " \"" + systemId + "\"" else "";
      assert s == if systemId != "" then " " + InQuotes(systemId) else "";
      PublicIs(publicId, s);
    }
  }

  lemma PublicIs(publicId: string, more: string)
    ensures " PUBLIC \"" + publicId + "\"" + more == " PUBLIC " + (InQuotes(publicId) + more)
  {
  }

  lemma NameOfType(name: string, ids: string)
    requires ' ' !in name && (ids == "" || ids[0] == ' ')
    ensures Find(name + ids, ' ') == |name| && (name + ids)[..|name|] == name && (name + ids)[|name|..] == ids
  {
    var s := name + ids;
    if ids == "" {
      assert s == name;
      NotIn(s, ' ');
    } else {
      assert s[|name|] == ' ';
      FirstAt(s, ' ', |name|);
    }
  }

  lemma PublicRead(publicId: string, more: string, ids: string)
    requires '"' !in publicId && ids == " PUBLIC " + (InQuotes(publicId) + more)
    ensures StartsWith(ids, " PUBLIC ") && ReadQuote(ids[8..]) == Quote(publicId, more)
  {
    QuoteRead(publicId, more);
    assert ids[8..] == InQuotes(publicId) + more && ids[..8] == " PUBLIC ";
  }

  lemma SystemRead(systemId: string, ids: string)
    requires '"' !in systemId && ids == " SYSTEM " + (InQuotes(systemId) + "")
    ensures StartsWith(ids, " SYSTEM ") && !StartsWith(ids, " PUBLIC ") && ReadQuote(ids[8..]) == Quote(systemId, "")
  {
    QuoteRead(systemId, "");
    assert ids[8..] == InQuotes(systemId) + "" && ids[..8] == " SYSTEM ";
    assert ids[..8][1] == 'S' && " PUBLIC "[1] == 'P';
  }

  lemma TypeParts(name: string, publicId: string, systemId: string)
    requires ' ' !in name && '"' !in publicId && '"' !in systemId
    ensures ReadType(DoctypeText(name, publicId, systemId)) == Type(name, publicId, systemId)
  {
    var ids := Ids(publicId, systemId);
    DoctypeIs(name, publicId, systemId);
    NameOfType(name, ids);
    if publicId != "" {
      var more := if systemId != "" then " " + InQuotes(systemId) else "";
      PublicRead(publicId, more, ids);
      if systemId != "" {
        QuoteRead(systemId, "");
        assert more[1..] == InQuotes(systemId) + "";
      }
    } else if systemId != "" {
      SystemRead(systemId, ids);
    }
  }

  lemma TypeRead(name: string, publicId: string, systemId: string, rest: string)
    requires ' ' !in name && '"' !in publicId && '"' !in systemId && '>' !in DoctypeText(name, publicId, systemId)
    ensures ReadsAs(TokenText(Declaration(DoctypeText(name, publicId, systemId))) + rest, [Type(name, publicId, systemId)],
                    rest)
  {
    var text := DoctypeText(name, publicId, systemId);
    var u := TokenText(Declaration(text)) + rest;
    DeclarationLayout(text, rest, u);
    Begins(u);
    TypeParts(name, publicId, systemId);
    ReadOn(u, Found([Type(name, publicId, systemId)], 11 + |text|), rest);
  }

  lemma DeclarationLayout(text: string, rest: string, u: string)
    requires '>' !in text && u == "<!DOCTYPE " + text + ">" + rest
    ensures StartsWith(u, "<!DOCTYPE ") && u[0] == '<' && u[1] == '!' && u[2] == 'D'
    ensures var e := 10 + |text|; e < |u| && FindFrom(u, '>', 10, |u|) == e && u[10..e] == text && u[e + 1..] == rest
  {
    var e := 10 + |text|;
    assert u[..10] == "<!DOCTYPE " && u[10..e] == text && u[e] == '>' && u[e + 1..] == rest;
    assert u[..10][0] == u[0] && u[..10][1] == u[1] && u[..10][2] == u[2];
    forall i | 10 <= i < e ensures u[i] != '>' { assert u[i] == text[i - 10]; }
    FindsFirst(u, 10, e, '>');
  }

  // ---------- texts and tags ----------

  /** An escaped text reads as its characters. */
  lemma {:induction false} LettersRead(text: string, rest: string)
    ensures ReadsAs(Escape(text, false) + rest, Letters(text), rest)
    decreases |text|
  {
    if text == "" {
      assert Escape(text, false) + rest == rest;
      ReadsNothing(rest);
    } else {
      var tail := Escape(text[1..], false) + rest;
      LettersRead(text[1..], rest);
      LetterRead(text[0], tail);
      EscapedFirst(text, rest);
      ReadsTogether(EscapeChar(text[0], false) + tail, [Letter(text[0])], tail, Letters(text[1..]), rest);
    }
  }

  lemma EscapedFirst(text: string, rest: string)
    requires text != ""
    ensures Escape(text, false) + rest == EscapeChar(text[0], false) + (Escape(text[1..], false) + rest)
  {
  }

  lemma LetterRead(c: char, tail: string)
    ensures ReadsAs(EscapeChar(c, false) + tail, [Letter(c)], tail)
  {
    EscapedRead(c, false, tail);
    NoMarkup(c, tail);
    ReadOn(EscapeChar(c, false) + tail, Found([Letter(c)], |EscapeChar(c, false)|), tail);
  }

  lemma NoMarkup(c: char, rest: string)
    ensures EscapeChar(c, false) != "" && (EscapeChar(c, false) + rest)[0] != '<'
  {
  }

  lemma WrittenBegins(raw: seq<Pair>)
    ensures raw == [] ==> Written(raw) == ""
    ensures raw != [] ==> Written(raw) != "" && Written(raw)[0] == ' '
  {
  }

  /** Where the name of a tag ends */
  lemma NameSpan(name: string, after: string, s: string)
    requires (forall i :: 0 <= i < |name| ==> IsNameChar(name[i])) && s == name + after
    requires after != "" && (after[0] == ' ' || after[0] == '/' || after[0] == '>')
    ensures Span(s, " />") == |name| && s[..|name|] == name && s[|name|..] == after
  {
    forall i | 0 <= i < |name| ensures s[i] !in " />" { assert s[i] == name[i]; }
    assert s[|name|] == after[0];
    SpanIs(s, " />", |name|);
  }

  /** What the reader sees of a start tag that ends with `tail` */
  lemma StartLayout(name: string, raw: seq<Pair>, tail: string, u: string)
    requires IsName(name) && NoEquals(raw) && tail != "" && (tail[0] == '/' || tail[0] == '>')
    requires u == "<" + name + Written(raw) + tail
    ensures |tail| < |u| && 1 < |u| && u[0] == '<' && u[1] == name[0]
    ensures var n := 1 + Span(u[1..], " />"); u[1..n] == name && ReadAttrs(u[n..]) == ReadPairs(raw, tail)
  {
    var after := Written(raw) + tail;
    AfterBegins(raw, tail);
    TagSplits(name, Written(raw), tail, u);
    NameSpan(name, after, u[1..]);
    WrittenRead(raw, tail, after);
  }

  lemma AfterBegins(raw: seq<Pair>, tail: string)
    requires tail != ""
    ensures var after := Written(raw) + tail; after != "" && after[0] == if raw == [] then tail[0] else ' '
  {
    WrittenBegins(raw);
  }

  lemma TagSplits(name: string, body: string, tail: string, u: string)
    requires name != "" && tail != "" && u == "<" + name + body + tail
    ensures |tail| < |u| && 1 < |u| && u[0] == '<' && u[1] == name[0] && u[1..] == name + (body + tail)
    ensures u[1..1 + |name|] == name && u[1 + |name|..] == body + tail
  {
  }

  lemma TailBegins(rest: string)
    ensures StartsWith("/>" + rest, "/>") && StartsWith(">" + rest, ">") && !StartsWith(">" + rest, "/>")
  {
    assert ("/>" + rest)[..2] == "/>" && (">" + rest)[..1] == ">";
    StartsWithAt(">" + rest, "/>");
    assert (">" + rest)[0] == '>' && "/>"[0] == '/';
  }

  /** No other kind of markup begins with a name. */
  lemma IsStart(u: string, name: string)
    requires IsName(name) && |u| > 1 && u[0] == '<' && u[1] == name[0]
    ensures ReadOne(u) == ReadStart(u)
  {
    assert IsNameChar(name[0]);
    Begins(u);
  }

  lemma StartIs(u: string, name: string, raw: seq<Pair>, tail: string)
    requires IsName(name) && |u| > 1 && u[0] == '<' && u[1] == name[0] && |tail| < |u|
    requires var n := 1 + Span(u[1..], " />"); u[1..n] == name && ReadAttrs(u[n..]) == ReadPairs(raw, tail)
    ensures ReadOne(u) == StartFound(|u|, name, ReadPairs(raw, tail))
  {
    IsStart(u, name);
  }

  lemma OpenFound(length: nat, name: string, raw: seq<Pair>, rest: string)
    requires |rest| + 1 < length
    ensures StartFound(length, name, ReadPairs(raw, ">" + rest)) == Found([Start(name, raw)], length - |rest|)
  {
    TailBegins(rest);
  }

  lemma EmptyFound(length: nat, name: string, raw: seq<Pair>, rest: string)
    requires |rest| + 2 < length
    ensures StartFound(length, name, ReadPairs(raw, "/>" + rest)) ==
            Found([Start(name, raw), End(name)], length - |rest|)
  {
    TailBegins(rest);
  }

  lemma Behind(front: string, mark: string, rest: string, u: string)
    requires u == front + (mark + rest)
    ensures u[|u| - |rest|..] == rest
  {
  }

  lemma TagRead(name: string, raw: seq<Pair>, mark: string, rest: string, u: string, f: Found)
    requires IsName(name) && NoEquals(raw) && mark != "" && (mark[0] == '/' || mark[0] == '>')
    requires u == "<" + name + Written(raw) + (mark + rest)
    requires |mark + rest| < |u| && f == StartFound(|u|, name, ReadPairs(raw, mark + rest)) && f.length == |u| - |rest|
    ensures ReadsAs(u, f.items, rest)
  {
    StartLayout(name, raw, mark + rest, u);
    StartIs(u, name, raw, mark + rest);
    Behind("<" + name + Written(raw), mark, rest, u);
    ReadOn(u, f, rest);
  }

  lemma OpenRead(name: string, raw: seq<Pair>, rest: string, u: string)
    requires IsName(name) && NoEquals(raw) && u == "<" + name + Written(raw) + (">" + rest)
    ensures ReadsAs(u, [Start(name, raw)], rest)
  {
    TagSplits(name, Written(raw), ">" + rest, u);
    OpenFound(|u|, name, raw, rest);
    TagRead(name, raw, ">", rest, u, Found([Start(name, raw)], |u| - |rest|));
  }

  lemma EmptyRead(name: string, raw: seq<Pair>, rest: string, u: string)
    requires IsName(name) && NoEquals(raw) && u == "<" + name + Written(raw) + ("/>" + rest)
    ensures ReadsAs(u, [Start(name, raw), End(name)], rest)
  {
    TagSplits(name, Written(raw), "/>" + rest, u);
    EmptyFound(|u|, name, raw, rest);
    TagRead(name, raw, "/>", rest, u, Found([Start(name, raw), End(name)], |u| - |rest|));
  }

  lemma EndTagRead(name: string, rest: string, u: string)
    requires IsName(name) && u == "</" + name + ">" + rest
    ensures ReadsAs(u, [End(name)], rest)
  {
    var e := 2 + |name|;
    assert u[2..e] == name && u[e] == '>' && u[e + 1..] == rest && u[..2] == "</";
    forall i | 2 <= i < e ensures u[i] != '>' { assert IsNameChar(name[i - 2]) && u[i] == name[i - 2]; }
    FindsFirst(u, 2, e, '>');
    Begins(u);
    ReadOn(u, Found([End(name)], e + 1), rest);
  }

  // ---------- elements ----------

  lemma ChosenHasNoColon(n: Node, chain: Chain, inherited: string, index: nat)
    requires n.Element? && Readable(n) && ReadableChain(chain)
    ensures var p := ChoosePrefix(n, chain, inherited, index).prefix;
            p.Some? ==> ':' !in p.value && '=' !in p.value
  {
    GeneratedIsPart(index);
    PrefixForIsPart(chain, ElementNs(n));
  }

  lemma LocalBehindPrefix(prefix: Option<string>, local: string)
    requires ':' !in local && (prefix.Some? ==> ':' !in prefix.value)
    ensures Local(WithPrefix(prefix, local)) == local
  {
    var name := WithPrefix(prefix, local);
    if prefix.Some? {
      var i := |prefix.value|;
      assert name[i] == ':' && name[..i] == prefix.value && name[i + 1..] == local;
      FirstAt(name, ':', i);
    }
  }

  /** The declaration that an element adds */
  function OwnRaw(declares: bool, prefix: Option<string>, uri: string): seq<Pair> {
    if declares then [Pair(DeclName(prefix), uri)] else []
  }

  lemma OwnPairs(declares: bool, prefix: Option<string>, uri: string)
    requires prefix.Some? ==> '=' !in prefix.value
    ensures var raw := OwnRaw(declares, prefix, uri);
            Written(raw) == (if declares then NsDecl(prefix, uri) else "") && Kept(raw) == [] && NoEquals(raw)
  {
    if declares {
      DeclNames(prefix);
      DeclWritten(prefix, uri);
    }
  }

  lemma PairsJoin(a: seq<Pair>, b: seq<Pair>)
    requires NoEquals(a) && NoEquals(b) && Kept(a) == []
    ensures Written(a + b) == Written(a) + Written(b) && Kept(a + b) == Kept(b) && NoEquals(a + b)
  {
    WrittenMore(a, b);
    KeptMore(a, b);
  }

  /** The attributes that an element is written with */
  function HeadRaw(n: Node, above: Chain, inherited: string, index: nat): seq<Pair>
    requires n.Element?
  {
    var chain := [n.attrs] + above;
    var c := ChoosePrefix(n, chain, inherited, index);
    var declares := DeclaresItself(n, chain, inherited, c);
    OwnRaw(declares, c.prefix, ElementNs(n)) + AttrsRaw(n.attrs, n.attrs, chain, c, declares, c.index)
  }

  lemma HeadPairs(n: Node, above: Chain, inherited: string, index: nat)
    requires n.Element? && Readable(n) && ReadableChain(above)
    ensures var h, raw := ElementHead(n, above, inherited, index), HeadRaw(n, above, inherited, index);
            h.body == Written(raw) && Kept(raw) == AttrItems(n.attrs) && NoEquals(raw)
  {
    var chain := [n.attrs] + above;
    assert ReadableChain(chain);
    var c := ChoosePrefix(n, chain, inherited, index);
    var declares := DeclaresItself(n, chain, inherited, c);
    ChosenHasNoColon(n, chain, inherited, index);
    AttrsPairs(n.attrs, n.attrs, chain, c, declares, c.index);
    OwnPairs(declares, c.prefix, ElementNs(n));
    PairsJoin(OwnRaw(declares, c.prefix, ElementNs(n)), AttrsRaw(n.attrs, n.attrs, chain, c, declares, c.index));
  }

  lemma HeadName(n: Node, above: Chain, inherited: string, index: nat)
    requires n.Element? && Readable(n) && ReadableChain(above)
    ensures Local(ElementHead(n, above, inherited, index).name) == Local(n.name)
  {
    var chain := [n.attrs] + above;
    assert ReadableChain(chain);
    ChosenHasNoColon(n, chain, inherited, index);
    InternalNames(n.name);
    LocalBehindPrefix(ChoosePrefix(n, chain, inherited, index).prefix, Local(n.name));
  }

  /** The name and the attributes that an element is written with read as its own. */
  lemma HeadRead(n: Node, above: Chain, inherited: string, index: nat)
    requires n.Element? && Readable(n) && ReadableChain(above)
    ensures var h, raw := ElementHead(n, above, inherited, index), HeadRaw(n, above, inherited, index);
            h.body == Written(raw) && Kept(raw) == AttrItems(n.attrs) && NoEquals(raw) && Local(h.name) == Local(n.name)
  {
    HeadPairs(n, above, inherited, index);
    HeadName(n, above, inherited, index);
  }

  // ---------- trees ----------

  /** What is to be read of what is written for a node */
  function RawItems(n: Node, above: Chain, inherited: string, index: nat, depth: nat): seq<Item>
    decreases n, 0
  {
    if depth >= MAX_DEPTH then []
    else match n
      case Document(children) => RawAll(children, above, "", index, depth + 1)
      case Element(_, _, _, _, attrs, children) =>
        var h := ElementHead(n, above, inherited, index);
        [Start(h.name, HeadRaw(n, above, inherited, index))] +
        RawAll(children, [attrs] + above, h.childNs, h.index, depth + 1) + [End(h.name)]
      case _ => Leaf(n)
  }

  function RawAll(list: seq<Node>, above: Chain, inherited: string, index: nat, depth: nat): seq<Item>
    decreases list, 1
  {
    if list == [] then []
    else RawItems(list[0], above, inherited, index, depth) +
         RawAll(list[1..], above, inherited, Tokens(list[0], above, inherited, index, depth).1, depth)
  }

  lemma {:induction false} TokensRead(n: Node, above: Chain, inherited: string, index: nat, depth: nat, rest: string)
    requires LegalTree(n) && Readable(n) && LegalChain(above) && ReadableChain(above) && depth <= MAX_DEPTH
    ensures ReadsAs(Text(Tokens(n, above, inherited, index, depth).0) + rest, RawItems(n, above, inherited, index, depth), rest)
    decreases n, 1
  {
    var ts := Tokens(n, above, inherited, index, depth).0;
    if depth == MAX_DEPTH {
      assert Text(ts) + rest == rest;
      ReadsNothing(rest);
    } else if n.Element? {
      ElementRead(n, above, inherited, index, depth, rest);
    } else if n.Document? {
      AllRead(n.children, above, "", index, depth + 1, rest);
    } else {
      LeafRead(n, above, inherited, index, depth, rest);
    }
  }

  lemma LeafRead(n: Node, above: Chain, inherited: string, index: nat, depth: nat, rest: string)
    requires LegalTree(n) && Readable(n) && !n.Element? && !n.Document? && depth < MAX_DEPTH
    ensures ReadsAs(Text(Tokens(n, above, inherited, index, depth).0) + rest, Leaf(n), rest)
  {
    var t := Tokens(n, above, inherited, index, depth).0[0];
    OneToken(t);
    match n
    case Chardata(text, cdata) => if cdata { SectionRead(text, rest); } else { LettersRead(text, rest); }
    case CommentNode(text) => RemarkRead(text, rest);
    case ProcessingInstruction(name, text) => InstructRead(name, text, rest);
    case Doctype(name, publicId, systemId) => TypeRead(name, publicId, systemId, rest);
  }

  /** An element without children */
  lemma ChildlessRead(n: Node, h: Head, raw: seq<Pair>, rest: string)
    requires n.Element? && IsName(h.name) && NoEquals(raw) && h.body == Written(raw)
    ensures ReadsAs(Text(Childless(n, h)) + rest, [Start(h.name, raw)] + [End(h.name)], rest)
  {
    if ElementNs(n) == HTML && !IsVoid(LocalName(n.name)) {
      TwoTagsRead(h, raw, rest);
    } else {
      OneTagRead(h, raw, rest);
    }
  }

  lemma TwoTagsRead(h: Head, raw: seq<Pair>, rest: string)
    requires IsName(h.name) && NoEquals(raw) && h.body == Written(raw)
    ensures ReadsAs(Text([Open(h.name, h.body), Close(h.name)]) + rest,
                    [Start(h.name, raw)] + [End(h.name)], rest)
  {
    var u, after := Text([Open(h.name, h.body), Close(h.name)]) + rest, "</" + h.name + ">" + rest;
    TwoTokens(Open(h.name, h.body), Close(h.name));
    EnclosedIs(h.name, Written(raw), "", after, rest);
    assert ("<" + h.name + h.body + ">") + "" == "<" + h.name + h.body + ">" && "" + after == after;
    EndTagRead(h.name, rest, after);
    OpenRead(h.name, raw, after, u);
    ReadsTogether(u, [Start(h.name, raw)], after, [End(h.name)], rest);
  }

  lemma OneTagRead(h: Head, raw: seq<Pair>, rest: string)
    requires IsName(h.name) && NoEquals(raw) && h.body == Written(raw)
    ensures ReadsAs(Text([Empty(h.name, h.body)]) + rest, [Start(h.name, raw)] + [End(h.name)], rest)
  {
    OneToken(Empty(h.name, h.body));
    EmptyRead(h.name, raw, rest, Text([Empty(h.name, h.body)]) + rest);
    assert [Start(h.name, raw)] + [End(h.name)] == [Start(h.name, raw), End(h.name)];
  }

  lemma EnclosedRead(name: string, raw: seq<Pair>, kids: seq<Token>, items: seq<Item>, after: string, rest: string)
    requires IsName(name) && NoEquals(raw) && after == "</" + name + ">" + rest
    requires ReadsAs(Text(kids) + after, items, after)
    ensures ReadsAs(Text([Open(name, Written(raw))] + kids + [Close(name)]) + rest,
                    [Start(name, raw)] + items + [End(name)], rest)
  {
    var u, start := Text([Open(name, Written(raw))] + kids + [Close(name)]) + rest, [Start(name, raw)];
    Enclosed(Open(name, Written(raw)), kids, Close(name));
    EnclosedIs(name, Written(raw), Text(kids), after, rest);
    EndTagRead(name, rest, after);
    OpenRead(name, raw, Text(kids) + after, u);
    ReadsTogether(u, start, Text(kids) + after, items, after);
    ReadsTogether(u, start + items, after, [End(name)], rest);
  }

  lemma EnclosedIs(name: string, body: string, inner: string, after: string, rest: string)
    requires after == "</" + name + ">" + rest
    ensures ("<" + name + body + ">") + inner + ("</" + name + ">") + rest == "<" + name + body + (">" + (inner + after))
  {
  }

  lemma {:induction false} ElementRead(n: Node, above: Chain, inherited: string, index: nat, depth: nat, rest: string)
    requires n.Element? && LegalTree(n) && Readable(n) && LegalChain(above) && ReadableChain(above) && depth < MAX_DEPTH
    ensures ReadsAs(Text(Tokens(n, above, inherited, index, depth).0) + rest, RawItems(n, above, inherited, index, depth), rest)
    decreases n, 0
  {
    var h, raw := ElementHead(n, above, inherited, index), HeadRaw(n, above, inherited, index);
    HeadLegal(n, above, inherited, index);
    HeadRead(n, above, inherited, index);
    if n.children == [] {
      ChildlessRead(n, h, raw, rest);
      NoChildren(n, above, inherited, index, depth, h);
    } else {
      var chain, after := [n.attrs] + above, "</" + h.name + ">" + rest;
      assert LegalChain(chain) && ReadableChain(chain);
      var kids := TokensAll(n.children, chain, h.childNs, h.index, depth + 1).0;
      AllRead(n.children, chain, h.childNs, h.index, depth + 1, after);
      EnclosedRead(h.name, raw, kids, RawAll(n.children, chain, h.childNs, h.index, depth + 1), after, rest);
      ElementIs(n, above, inherited, index, depth, h, kids);
    }
  }

  lemma ElementIs(n: Node, above: Chain, inherited: string, index: nat, depth: nat, h: Head, kids: seq<Token>)
    requires n.Element? && n.children != [] && depth < MAX_DEPTH && h == ElementHead(n, above, inherited, index)
    requires kids == TokensAll(n.children, [n.attrs] + above, h.childNs, h.index, depth + 1).0
    ensures Tokens(n, above, inherited, index, depth).0 == [Open(h.name, h.body)] + kids + [Close(h.name)]
  {
  }

  lemma NoChildren(n: Node, above: Chain, inherited: string, index: nat, depth: nat, h: Head)
    requires n.Element? && n.children == [] && depth < MAX_DEPTH && h == ElementHead(n, above, inherited, index)
    ensures Tokens(n, above, inherited, index, depth).0 == Childless(n, h)
    ensures RawItems(n, above, inherited, index, depth) == [Start(h.name, HeadRaw(n, above, inherited, index))] + [End(h.name)]
  {
  }

  lemma {:induction false} AllRead(list: seq<Node>, above: Chain, inherited: string, index: nat, depth: nat, rest: string)
    requires LegalTrees(list) && ReadableAll(list) && LegalChain(above) && ReadableChain(above) && depth <= MAX_DEPTH
    ensures ReadsAs(Text(TokensAll(list, above, inherited, index, depth).0) + rest, RawAll(list, above, inherited, index, depth),
                    rest)
    decreases list, 2
  {
    if list == [] {
      assert Text([]) + rest == rest;
      ReadsNothing(rest);
    } else {
      var first := Tokens(list[0], above, inherited, index, depth);
      var more := TokensAll(list[1..], above, inherited, first.1, depth);
      AllRead(list[1..], above, inherited, first.1, depth, rest);
      TokensRead(list[0], above, inherited, index, depth, Text(more.0) + rest);
      JoinedText(first.0, more.0, rest);
      ReadsTogether(Text(first.0) + (Text(more.0) + rest), RawItems(list[0], above, inherited, index, depth),
                    Text(more.0) + rest, RawAll(list[1..], above, inherited, first.1, depth), rest);
    }
  }

  lemma JoinedText(a: seq<Token>, b: seq<Token>, rest: string)
    ensures Text(a + b) + rest == Text(a) + (Text(b) + rest)
  {
    TextConcat(a, b);
  }

  /** Reading the text of a node gives the items that were written. */
  lemma TextReads(n: Node, above: Chain)
    requires LegalTree(n) && Readable(n) && LegalChain(above) && ReadableChain(above)
    ensures Read(Text(Tokens(n, above, "", 1, 0).0)) == RawItems(n, above, "", 1, 0)
  {
    var u, items := Text(Tokens(n, above, "", 1, 0).0), RawItems(n, above, "", 1, 0);
    TokensRead(n, above, "", 1, 0, "");
    assert u + "" == u;
    assert Locks.Open(true);
    assert items + [] == items;
  }

  // ---------- the view by local names ----------

  lemma {:induction false} ViewMore(a: seq<Item>, b: seq<Item>)
    ensures View(a + b) == View(a) + View(b)
    decreases |a|
  {
    if a == [] {
      assert a + b == b;
    } else {
      assert (a + b)[1..] == a[1..] + b;
      ViewMore(a[1..], b);
    }
  }

  lemma {:induction false} ViewLetters(text: string)
    ensures View(Letters(text)) == Letters(text)
    decreases |text|
  {
    if text != "" {
      assert Letters(text)[1..] == Letters(text[1..]);
      ViewLetters(text[1..]);
    }
  }

  lemma ViewOne(item: Item)
    ensures View([item]) == [match item
                             case Start(name, attrs) => Start(Local(name), Kept(attrs))
                             case End(name) => End(Local(name))
                             case _ => item]
  {
    assert [item][1..] == [];
  }

  lemma TagViewed(name: string, raw: seq<Pair>, kids: seq<Item>)
    ensures View([Start(name, raw)] + kids + [End(name)]) == [Start(Local(name), Kept(raw))] + View(kids) + [End(Local(name))]
  {
    ViewMore([Start(name, raw)] + kids, [End(name)]);
    ViewMore([Start(name, raw)], kids);
    ViewOne(Start(name, raw));
    ViewOne(End(name));
  }

  lemma ViewLeaf(n: Node)
    requires !n.Element? && !n.Document?
    ensures View(Leaf(n)) == Leaf(n)
  {
    if n.Chardata? && !n.cdata { ViewLetters(n.text); } else { ViewOne(Leaf(n)[0]); }
  }

  lemma {:induction false} ItemsViewed(n: Node, above: Chain, inherited: string, index: nat, depth: nat)
    requires Readable(n) && ReadableChain(above) && depth <= MAX_DEPTH
    ensures View(RawItems(n, above, inherited, index, depth)) == Items(n, MAX_DEPTH - depth)
    decreases n, 0
  {
    if depth < MAX_DEPTH {
      match n
      case Document(children) => AllViewed(children, above, "", index, depth + 1);
      case Element(_, _, _, _, attrs, children) =>
        var h := ElementHead(n, above, inherited, index);
        HeadRead(n, above, inherited, index);
        assert ReadableChain([attrs] + above);
        AllViewed(children, [attrs] + above, h.childNs, h.index, depth + 1);
        TagViewed(h.name, HeadRaw(n, above, inherited, index), RawAll(children, [attrs] + above, h.childNs, h.index, depth + 1));
      case _ => ViewLeaf(n);
    }
  }

  lemma {:induction false} AllViewed(list: seq<Node>, above: Chain, inherited: string, index: nat, depth: nat)
    requires ReadableAll(list) && ReadableChain(above) && depth <= MAX_DEPTH
    ensures View(RawAll(list, above, inherited, index, depth)) == ItemsAll(list, MAX_DEPTH - depth)
    decreases list, 1
  {
    if list != [] {
      var next := Tokens(list[0], above, inherited, index, depth).1;
      ItemsViewed(list[0], above, inherited, index, depth);
      AllViewed(list[1..], above, inherited, next, depth);
      ViewMore(RawItems(list[0], above, inherited, index, depth), RawAll(list[1..], above, inherited, next, depth));
    }
  }

  /** Reading what the serializer writes for a node, at any place in a tree, gives the node back, up to the depth at
      which it stops: elements with their local names and attributes, their values included, and texts, comments and
      all other nodes, in order. */
  lemma OuterXmlReadsBack(n: Node, above: Chain)
    requires LegalTree(n) && Readable(n) && LegalChain(above) && ReadableChain(above)
    ensures View(Read(Text(Tokens(n, above, "", 1, 0).0))) == Items(n, MAX_DEPTH)
  {
    TextReads(n, above);
    ItemsViewed(n, above, "", 1, 0);
  }
}
