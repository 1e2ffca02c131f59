/**
 The tag checker ns_xml_well_formed of src/html_lexbor.c, and what it makes of text that consists of whole
 markup tokens (XML 1.0, section 3): it behaves as a stack machine on the tokens.
 */
module XmlTokens {
  import opened Common
  import opened Strings

  predicate StartsAt(u: string, i: nat, d: string) {
    i + |d| <= |u| && u[i..i + |d|] == d
  }

  // ---------- the checker ----------

  /** The stack of open elements, and the flags root_seen and root_closed. */
  datatype State = State(stack: seq<string>, seen: bool, closed: bool)

  predicate Accepts(st: State) {
    st.stack == [] && st.seen
  }

  /** xml_skip_until: the position behind the first `d` at or after `i`. */
  function SkipPast(u: string, i: nat, d: string): (r: Option<nat>)
    requires d != ""
    ensures r.Some? ==> i < r.value <= |u|
    decreases |u| - i
  {
    if i + |d| > |u| then None
    else if u[i..i + |d|] == d then Some(i + |d|)
    else SkipPast(u, i + 1, d)
  }

  /** The end of a tag: the first `>` outside quotes, or the length. */
  function TagEnd(u: string, i: nat, quote: Option<char>): (e: nat)
    requires i <= |u|
    ensures i <= e <= |u|
    decreases |u| - i
  {
    if i == |u| then i
    else if quote.Some? then TagEnd(u, i + 1, if Some(u[i]) == quote then None else quote)
    else if u[i] == '"' || u[i] == '\'' then TagEnd(u, i + 1, Some(u[i]))
    else if u[i] == '>' then i
    else TagEnd(u, i + 1, None)
  }

  /** Back over white space. */
  function BackOver(u: string, q: nat, t: nat): (r: nat)
    requires t < |u|
    ensures r <= t
  {
    if t > q && IsSpace(u[t]) then BackOver(u, q, t - 1) else t
  }

  function NameEnd(u: string, i: nat, end: nat): (e: nat)
    requires i <= end <= |u|
    ensures i <= e <= end
    decreases end - i
  {
    if i == end || IsSpace(u[i]) || u[i] == '/' then i else NameEnd(u, i + 1, end)
  }

  /** What a start tag, an empty-element tag and an end tag do to the state. */
  function Opened(st: State, name: string): Option<State> {
    if st.closed then None else Some(State(st.stack + [name], true, false))
  }

  function Emptied(st: State): Option<State> {
    if st.closed then None else Some(State(st.stack, true, st.stack == []))
  }

  function Closed(st: State, name: string): Option<State> {
    if st.stack == [] || st.stack[|st.stack| - 1] != name then None
    else Some(State(st.stack[..|st.stack| - 1], st.seen, st.closed || |st.stack| == 1))
  }

  /** One piece of markup: how long it is and what it does, or None if it is malformed. */
  datatype Markup = Markup(length: nat, next: State)

  function SkipMarkup(u: string, i: nat, d: string, st: State): (r: Option<Markup>)
    requires d != ""
    ensures r.Some? ==> 0 < r.value.length <= |u|
  {
    var e := SkipPast(u, i, d);
    if e.None? then None else Some(Markup(e.value, st))
  }

  function TagMarkup(u: string, st: State): (r: Option<Markup>)
    requires u != ""
    ensures r.Some? ==> 0 < r.value.length <= |u|
  {
    var isEnd := |u| > 1 && u[1] == '/';
    var q := if isEnd then 2 else 1;
    var te := TagEnd(u, q, None);
    if te == |u| then None
    else
      var t := BackOver(u, q, te - 1);
      var selfClose := !isEnd && u[t] == '/';
      var ne := NameEnd(u, q, if selfClose then (if t < q then q else t) else te);
      var name := u[q..ne];
      if ne == q then None
      else
        var next := if isEnd then Closed(st, name) else if selfClose then Emptied(st) else Opened(st, name);
        if next.None? then None else Some(Markup(te + 1, next.value))
  }

  function ReadMarkup(u: string, st: State): (r: Option<Markup>)
    requires u != ""
    ensures r.Some? ==> 0 < r.value.length <= |u|
  {
    if StartsAt(u, 1, "!--") then SkipMarkup(u, 4, "-->", st)
    else if StartsAt(u, 1, "![CDATA[") then SkipMarkup(u, 9, "]]>", st)
    else if StartsAt(u, 1, "!") then
      var e := FindFrom(u, '>', 1, |u|);
      if e == |u| then None else Some(Markup(e + 1, st))
    else if StartsAt(u, 1, "?") then SkipMarkup(u, 2, "?>", st)
    else TagMarkup(u, st)
  }

  /** ns_xml_well_formed, from the cursor on; `u` is the rest of the input. */
  predicate Check(u: string, st: State)
    decreases |u|
  {
    if u == "" then Accepts(st)
    else if u[0] != '<' then Check(u[1..], st)
    else
      var m := ReadMarkup(u, st);
      m.Some? && Check(u[m.value.length..], m.value.next)
  }

  const START := State([], false, false)

  method SkipUntil(u: string, from: nat, d: string) returns (r: Option<nat>)
    requires d != ""
    ensures r == SkipPast(u, from, d)
  {
    var p := from;
    while p + |d| <= |u|
      invariant SkipPast(u, p, d) == SkipPast(u, from, d)
      decreases |u| - p
    {
      if u[p..p + |d|] == d { return Some(p + |d|); }
      p := p + 1;
    }
    return None;
  }

  method FindTagEnd(u: string, q: nat) returns (te: nat)
    requires q <= |u|
    ensures te == TagEnd(u, q, None)
  {
    te := q;
    var quote: Option<char> := None;
    while te < |u|
      invariant q <= te <= |u| && TagEnd(u, te, quote) == TagEnd(u, q, None)
    {
      var c := u[te];
      if quote.Some? {
        if c == quote.value { quote := None; }
      } else if c == '"' || c == '\'' {
        quote := Some(c);
      } else if c == '>' {
        return;
      }
      te := te + 1;
    }
  }

  /** The part of the loop body that reads a tag */
  method ReadTag(u: string, st: State) returns (r: Option<Markup>)
    requires u != ""
    ensures r == TagMarkup(u, st)
  {
    var isEnd := |u| > 1 && u[1] == '/';
    var q := if isEnd then 2 else 1;
    var te := FindTagEnd(u, q);
    if te == |u| { return None; }
    var t := te - 1;
    while t > q && IsSpace(u[t])
      invariant 0 <= t < |u| && BackOver(u, q, t) == BackOver(u, q, te - 1)
    {
      t := t - 1;
    }
    var selfClose := !isEnd && u[t] == '/';
    var innerEnd := if selfClose then (if t < q then q else t) else te;
    var ne := q;
    while ne < innerEnd && !IsSpace(u[ne]) && u[ne] != '/'
      invariant q <= ne <= innerEnd && NameEnd(u, ne, innerEnd) == NameEnd(u, q, innerEnd)
    {
      ne := ne + 1;
    }
    if ne == q { return None; }
    var name := u[q..ne];
    var next;
    if isEnd {
      next := Closed(st, name);
    } else if selfClose {
      next := Emptied(st);
    } else {
      next := Opened(st, name);
    }
    r := if next.None? then None else Some(Markup(te + 1, next.value));
  }

  /** ns_xml_well_formed */
  method WellFormed(input: string) returns (ok: bool)
    ensures ok == Check(input, START)
  {
    var u, st := input, START;
    while u != ""
      invariant Check(u, st) == Check(input, START)
      decreases |u|
    {
      if u[0] != '<' {
        u := u[1..];
      } else {
        var m := ReadOne(u, st);
        if m.None? { return false; }
        u, st := u[m.value.length..], m.value.next;
      }
    }
    return |st.stack| == 0 && st.seen;
  }

  /** The longer marks begin with an exclamation mark. */
  lemma LongMarks(u: string)
    ensures StartsAt(u, 1, "!--") || StartsAt(u, 1, "![CDATA[") ==> StartsAt(u, 1, "!")
  {
    if |u| > 1 {
      assert u[1..2] == [u[1]];
      if u[1] != '!' { NoBang(u); }
    }
  }

  method ReadOne(u: string, st: State) returns (m: Option<Markup>)
    requires u != ""
    ensures m == ReadMarkup(u, st)
  {
    LongMarks(u);
    var e;
    if StartsAt(u, 1, "!") {
      if StartsAt(u, 1, "!--") {
        e := SkipUntil(u, 4, "-->");
      } else if StartsAt(u, 1, "![CDATA[") {
        e := SkipUntil(u, 9, "]]>");
      } else {
        var i := 1;
        while i < |u| && u[i] != '>'
          invariant 1 <= i <= |u| && FindFrom(u, '>', i, |u|) == FindFrom(u, '>', 1, |u|)
        {
          i := i + 1;
        }
        e := if i == |u| then None else Some(i + 1);
      }
    } else if StartsAt(u, 1, "?") {
      e := SkipUntil(u, 2, "?>");
    } else {
      m := ReadTag(u, st);
      return;
    }
    m := if e.None? then None else Some(Markup(e.value, st));
  }

  // ---------- tokens ----------

  datatype Token =
    | Chars(text: string) | Open(name: string, body: string) | Empty(name: string, body: string) | Close(name: string)
    | Comment(text: string) | Cdata(text: string) | Instruction(text: string) | Declaration(text: string)

  function TokenText(t: Token): string {
    match t
    case Chars(text) => text
    case Open(name, body) => "<" + name + body + ">"
    case Empty(name, body) => "<" + name + body + "/>"
    case Close(name) => "</" + name + ">"
    case Comment(text) => "<!--" + text + "-->"
    case Cdata(text) => "<![CDATA[" + text + "]]>"
    case Instruction(text) => "<?" + text + "?>"
    case Declaration(text) => "<!DOCTYPE " + text + ">"
  }

  function Text(ts: seq<Token>): string {
    if ts == [] then "" else TokenText(ts[0]) + Text(ts[1..])
  }

  /** The stack machine. */
  function Step(t: Token, st: State): Option<State> {
    match t
    case Open(name, _) => Opened(st, name)
    case Empty(_, _) => Emptied(st)
    case Close(name) => Closed(st, name)
    case _ => Some(st)
  }

  function Run(ts: seq<Token>, st: State): Option<State> {
    if ts == [] then Some(st)
    else
      var next := Step(ts[0], st);
      if next.None? then None else Run(ts[1..], next.value)
  }

  lemma {:induction false} RunConcat(a: seq<Token>, b: seq<Token>, st: State)
    ensures Run(a + b, st) == if Run(a, st).None? then None else Run(b, Run(a, st).value)
    decreases a
  {
    if a == [] {
      assert a + b == b;
    } else {
      assert (a + b)[1..] == a[1..] + b;
      if Step(a[0], st).Some? { RunConcat(a[1..], b, Step(a[0], st).value); }
    }
  }

  lemma {:induction false} TextConcat(a: seq<Token>, b: seq<Token>)
    ensures Text(a + b) == Text(a) + Text(b)
    decreases a
  {
    if a == [] {
      assert a + b == b;
    } else {
      assert (a + b)[1..] == a[1..] + b;
      TextConcat(a[1..], b);
    }
  }

  // ---------- legal tokens ----------

  /** A character that can stand in a name: nothing that ends a name, a tag or a string. */
  predicate IsNameChar(c: char) {
    !IsSpace(c) && c != '/' && c != '>' && c != '"' && c != '\''
  }

  predicate IsName(s: string) {
    s != "" && s[0] != '!' && s[0] != '?' && forall i :: 0 <= i < |s| ==> IsNameChar(s[i])
  }

  /** The quote that is open after a stretch of a tag, if no `>` stands outside quotes in it. */
  datatype Scan = Hit | At(quote: Option<char>)

  function ScanTag(b: string, quote: Option<char>): Scan {
    if b == "" then At(quote)
    else if quote.Some? then ScanTag(b[1..], if Some(b[0]) == quote then None else quote)
    else if b[0] == '"' || b[0] == '\'' then ScanTag(b[1..], Some(b[0]))
    else if b[0] == '>' then Hit
    else ScanTag(b[1..], None)
  }

  /** What follows the name in a tag: nothing, or white space, and strings that end, the last one at the end. */
  predicate IsBody(b: string) {
    b == "" || (IsSpace(b[0]) && b[|b| - 1] == '"' && ScanTag(b, None) == At(None))
  }

  predicate Lacks(s: string, d: string) {
    forall i :: 0 <= i <= |s| ==> !StartsAt(s, i, d)
  }

  predicate Legal(t: Token) {
    match t
    case Chars(text) => forall i :: 0 <= i < |text| ==> text[i] != '<'
    case Open(name, body) => IsName(name) && IsBody(body)
    case Empty(name, body) => IsName(name) && IsBody(body)
    case Close(name) => IsName(name)
    case Comment(text) => Lacks(text, "-->")
    case Cdata(text) => Lacks(text, "]]>")
    case Instruction(text) => Lacks(text, "?>")
    case Declaration(text) => forall i :: 0 <= i < |text| ==> text[i] != '>'
  }

  // ---------- the checker on legal tokens ----------

  lemma {:induction false} CharsRun(w: string, rest: string, st: State)
    requires forall i :: 0 <= i < |w| ==> w[i] != '<'
    ensures Check(w + rest, st) == Check(rest, st)
    decreases w
  {
    if w == "" {
      assert w + rest == rest;
    } else {
      assert (w + rest)[1..] == w[1..] + rest;
      CharsRun(w[1..], rest, st);
    }
  }

  /** A delimiter whose last character is not one of its others cannot overlap a text that lacks it. */
  lemma NoEarlier(u: string, i: nat, text: string, d: string, n: nat)
    requires d != "" && (forall k :: 0 <= k < |d| - 1 ==> d[k] != d[|d| - 1]) && Lacks(text, d)
    requires n <= i < n + |text| && n + |text| + |d| <= |u|
    requires u[n..n + |text|] == text && u[n + |text|..n + |text| + |d|] == d
    ensures u[i..i + |d|] != d
  {
    if i + |d| <= n + |text| {
      var here, there := u[i..i + |d|], text[i - n..i - n + |d|];
      forall k | 0 <= k < |d| ensures here[k] == there[k] {
        assert u[i + k] == u[n..n + |text|][i + k - n];
      }
      assert here == there;
      assert !StartsAt(text, i - n, d);
    } else {
      var last := i + |d| - 1;
      assert u[last] == u[i..i + |d|][|d| - 1];
      assert u[last] == u[n + |text|..n + |text| + |d|][last - n - |text|];
    }
  }

  lemma {:induction false} SkipFinds(u: string, i: nat, text: string, d: string, n: nat)
    requires d != "" && (forall k :: 0 <= k < |d| - 1 ==> d[k] != d[|d| - 1]) && Lacks(text, d)
    requires n <= i <= n + |text| && n + |text| + |d| <= |u|
    requires u[n..n + |text|] == text && u[n + |text|..n + |text| + |d|] == d
    ensures SkipPast(u, i, d) == Some(n + |text| + |d|)
    decreases n + |text| - i
  {
    if i < n + |text| {
      NoEarlier(u, i, text, d, n);
      SkipFinds(u, i + 1, text, d, n);
    }
  }

  /** A piece of markup that is skipped: an opening, a text that lacks the delimiter, the delimiter. */
  lemma SkippedPiece(open: string, text: string, d: string, rest: string, u: string)
    requires d != "" && (forall k :: 0 <= k < |d| - 1 ==> d[k] != d[|d| - 1]) && Lacks(text, d)
    requires u == open + text + d + rest
    ensures SkipPast(u, |open|, d) == Some(|open| + |text| + |d|) && u[|open| + |text| + |d|..] == rest
    ensures forall i :: 0 <= i < |open| ==> u[i] == open[i]
  {
    assert u[|open|..|open| + |text|] == text;
    assert u[|open| + |text|..|open| + |text| + |d|] == d;
    SkipFinds(u, |open|, text, d, |open|);
  }

  lemma CommentRun(text: string, rest: string, st: State)
    requires Lacks(text, "-->")
    ensures Check(TokenText(Comment(text)) + rest, st) == Check(rest, st)
  {
    var u := TokenText(Comment(text)) + rest;
    SkippedPiece("<!--", text, "-->", rest, u);
    assert u[1..4] == "!--";
  }

  lemma CdataRun(text: string, rest: string, st: State)
    requires Lacks(text, "]]>")
    ensures Check(TokenText(Cdata(text)) + rest, st) == Check(rest, st)
  {
    var u := TokenText(Cdata(text)) + rest;
    SkippedPiece("<![CDATA[", text, "]]>", rest, u);
    assert u[1..4][1] == '[';
    assert u[1..9] == "![CDATA[";
  }

  lemma InstructionRun(text: string, rest: string, st: State)
    requires Lacks(text, "?>")
    ensures Check(TokenText(Instruction(text)) + rest, st) == Check(rest, st)
  {
    var u := TokenText(Instruction(text)) + rest;
    SkippedPiece("<?", text, "?>", rest, u);
    NoBang(u);
    assert u[1..2] == "?";
  }

  /** Markup that does not begin with an exclamation mark. */
  lemma NoBang(u: string)
    requires |u| > 1 && u[1] != '!'
    ensures !StartsAt(u, 1, "!") && !StartsAt(u, 1, "!--") && !StartsAt(u, 1, "![CDATA[")
  {
    if |u| >= 4 { assert u[1..4][0] == u[1]; }
    if |u| >= 9 { assert u[1..9][0] == u[1]; }
  }

  lemma {:induction false} FindsFirst(u: string, i: nat, e: nat, c: char)
    requires i <= e < |u| && u[e] == c && forall k :: i <= k < e ==> u[k] != c
    ensures FindFrom(u, c, i, |u|) == e
    decreases e - i
  {
    if i < e { FindsFirst(u, i + 1, e, c); }
  }

  lemma DeclarationRun(text: string, rest: string, st: State)
    requires forall i :: 0 <= i < |text| ==> text[i] != '>'
    ensures Check(TokenText(Declaration(text)) + rest, st) == Check(rest, st)
  {
    var open := "<!DOCTYPE ";
    var u := TokenText(Declaration(text)) + rest;
    var e := |open| + |text|;
    assert u[..|open|] == open && u[e] == '>' && u[e + 1..] == rest;
    assert u[1] == open[1] && u[2] == open[2];
    assert u[1..4][1] == 'D' && u[1..9][1] == 'D';
    assert u[1..2] == "!";
    forall k | 1 <= k < e ensures u[k] != '>' {
      if k < |open| { assert u[k] == u[..|open|][k]; } else { assert u[k] == text[k - |open|]; }
    }
    FindsFirst(u, 1, e, '>');
  }

  // ---------- tags ----------

  lemma {:induction false} ScanConcat(a: string, b: string, quote: Option<char>)
    ensures ScanTag(a + b, quote) == (match ScanTag(a, quote) case Hit => Hit case At(q) => ScanTag(b, q))
    decreases a
  {
    if a == "" {
      assert a + b == b;
    } else {
      assert (a + b)[1..] == a[1..] + b;
      if quote.Some? {
        ScanConcat(a[1..], b, if Some(a[0]) == quote then None else quote);
      } else if a[0] == '"' || a[0] == '\'' {
        ScanConcat(a[1..], b, Some(a[0]));
      } else if a[0] != '>' {
        ScanConcat(a[1..], b, None);
      }
    }
  }

  /** Characters without quotes and without `>`. */
  lemma {:induction false} ScanPlain(w: string)
    requires forall i :: 0 <= i < |w| ==> w[i] != '>' && w[i] != '"' && w[i] != '\''
    ensures ScanTag(w, None) == At(None)
    decreases w
  {
    if w != "" { ScanPlain(w[1..]); }
  }

  lemma {:induction false} TagEndScans(u: string, i: nat, e: nat, quote: Option<char>)
    requires i <= e <= |u| && ScanTag(u[i..e], quote).At?
    ensures TagEnd(u, i, quote) == TagEnd(u, e, ScanTag(u[i..e], quote).quote)
    decreases e - i
  {
    if i < e {
      assert u[i..e][1..] == u[i + 1..e];
      TagEndScans(u, i + 1, e, if quote.Some? then (if Some(u[i]) == quote then None else quote)
                               else if u[i] == '"' || u[i] == '\'' then Some(u[i]) else None);
    }
  }

  /** A tag ends where its text ends. */
  lemma TagEndsAt(u: string, q: nat, inside: string)
    requires q + |inside| < |u| && u[q..q + |inside|] == inside && ScanTag(inside, None) == At(None)
    requires u[q + |inside|] == '>'
    ensures TagEnd(u, q, None) == q + |inside|
  {
    TagEndScans(u, q, q + |inside|, None);
  }

  lemma {:induction false} NameEndsAt(u: string, i: nat, e: nat, end: nat)
    requires i <= e <= end <= |u| && (forall k :: i <= k < e ==> !IsSpace(u[k]) && u[k] != '/')
    requires e < end ==> IsSpace(u[e]) || u[e] == '/'
    ensures NameEnd(u, i, end) == e
    decreases e - i
  {
    if i < e { NameEndsAt(u, i + 1, e, end); }
  }

  lemma ScanInside(name: string, body: string)
    requires IsName(name) && IsBody(body)
    ensures ScanTag(name + body, None) == At(None) && ScanTag(name + body + "/", None) == At(None)
  {
    ScanPlain(name);
    ScanConcat(name, body, None);
    ScanPlain("/");
    ScanConcat(name + body, "/", None);
  }

  /** What stands where in a tag. */
  lemma TagLayout(lead: string, name: string, body: string, tail: string, rest: string, u: string)
    requires IsName(name) && u == lead + name + body + tail + rest
    ensures var q := |lead|; var n := q + |name|; var e := n + |body|;
            && u[q..n] == name && u[q..e] == name + body && u[e + |tail|..] == rest
            && (forall i :: 0 <= i < |lead| ==> u[i] == lead[i])
            && u[q] == name[0] && (forall i :: q <= i < n ==> IsNameChar(u[i]))
            && (forall i :: n <= i < e ==> u[i] == body[i - n])
            && (forall i :: e <= i < e + |tail| ==> u[i] == tail[i - e])
  {
    var q := |lead|;
    forall i | q <= i < q + |name| ensures IsNameChar(u[i]) { assert u[i] == name[i - q]; }
  }

  lemma OpenRun(name: string, body: string, rest: string, st: State)
    requires IsName(name) && IsBody(body)
    ensures Check(TokenText(Open(name, body)) + rest, st) == (Opened(st, name).Some? && Check(rest, Opened(st, name).value))
  {
    OpenLayout(name, body, rest, TokenText(Open(name, body)) + rest);
  }

  /** What the checker finds at an opening tag. */
  lemma OpenLayout(name: string, body: string, rest: string, u: string)
    requires IsName(name) && IsBody(body) && u == "<" + name + body + ">" + rest
    ensures var n := 1 + |name|; var e := n + |body|;
            && u[0] == '<' && u[1..n] == name && u[e + 1..] == rest && IsNameChar(u[1]) && u[e - 1] != '/'
            && !StartsAt(u, 1, "!") && !StartsAt(u, 1, "!--") && !StartsAt(u, 1, "![CDATA[") && !StartsAt(u, 1, "?")
            && TagEnd(u, 1, None) == e && BackOver(u, 1, e - 1) == e - 1 && NameEnd(u, 1, e) == n
  {
    var n := 1 + |name|;
    var e := n + |body|;
    TagLayout("<", name, body, ">", rest, u);
    ScanInside(name, body);
    TagEndsAt(u, 1, name + body);
    NoMark(u, n);
    NameEndsAt(u, 1, n, e);
  }

  /** A name is neither a comment nor a processing instruction. */
  lemma NoMark(u: string, n: nat)
    requires 1 < n <= |u| && (forall i :: 1 <= i < n ==> IsNameChar(u[i])) && u[1] != '!' && u[1] != '?'
    ensures !StartsAt(u, 1, "!") && !StartsAt(u, 1, "!--") && !StartsAt(u, 1, "![CDATA[") && !StartsAt(u, 1, "?")
    ensures IsNameChar(u[1]) && IsNameChar(u[n - 1])
  {
    assert IsNameChar(u[1]);
    NoBang(u);
    assert u[1..2][0] == u[1];
  }

  lemma EmptyRun(name: string, body: string, rest: string, st: State)
    requires IsName(name) && IsBody(body)
    ensures Check(TokenText(Empty(name, body)) + rest, st) == (Emptied(st).Some? && Check(rest, Emptied(st).value))
  {
    var u := TokenText(Empty(name, body)) + rest;
    var n := 1 + |name|;
    var e := n + |body|;
    TagLayout("<", name, body, "/>", rest, u);
    ScanInside(name, body);
    assert u[1..1 + |name + body + "/"|] == name + body + "/";
    TagEndsAt(u, 1, name + body + "/");
    assert IsNameChar(u[1]);
    NoBang(u);
    assert !StartsAt(u, 1, "?") by { assert u[1..2][0] == u[1]; }
    assert BackOver(u, 1, e) == e;
    NameEndsAt(u, 1, n, e);
  }

  lemma CloseRun(name: string, rest: string, st: State)
    requires IsName(name)
    ensures Check(TokenText(Close(name)) + rest, st) == (Closed(st, name).Some? && Check(rest, Closed(st, name).value))
  {
    var u := TokenText(Close(name)) + rest;
    var e := 2 + |name|;
    assert u == "</" + name + "" + ">" + rest;
    TagLayout("</", name, "", ">", rest, u);
    ScanPlain(name);
    TagEndsAt(u, 2, name);
    NoBang(u);
    assert !StartsAt(u, 1, "?") by { assert u[1..2][0] == u[1]; }
    NameEndsAt(u, 2, e, e);
  }

  /** A legal token in front of any text does to the checker what it does to the stack machine. */
  lemma TokenRun(t: Token, rest: string, st: State)
    requires Legal(t)
    ensures Check(TokenText(t) + rest, st) == (Step(t, st).Some? && Check(rest, Step(t, st).value))
  {
    match t
    case Chars(text) => CharsRun(text, rest, st);
    case Open(name, body) => OpenRun(name, body, rest, st);
    case Empty(name, body) => EmptyRun(name, body, rest, st);
    case Close(name) => CloseRun(name, rest, st);
    case Comment(text) => CommentRun(text, rest, st);
    case Cdata(text) => CdataRun(text, rest, st);
    case Instruction(text) => InstructionRun(text, rest, st);
    case Declaration(text) => DeclarationRun(text, rest, st);
  }

  /** On text made of legal tokens the checker is the stack machine. */
  lemma {:induction false} CheckIsRun(ts: seq<Token>, st: State)
    requires forall i :: 0 <= i < |ts| ==> Legal(ts[i])
    ensures Check(Text(ts), st) <==> Run(ts, st).Some? && Accepts(Run(ts, st).value)
    decreases ts
  {
    if ts != [] {
      TokenRun(ts[0], Text(ts[1..]), st);
      if Step(ts[0], st).Some? { CheckIsRun(ts[1..], Step(ts[0], st).value); }
    }
  }
}
