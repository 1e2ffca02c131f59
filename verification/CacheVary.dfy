/**
 Which stored response answers a request: the Vary selectors and the rows of src/cache.c.

 The table is a map from keys to rows; of a row only what the selection reads is kept. The digest is a parameter:
 its values are hex digits, and it is taken to tell any two texts apart.
 */
module CacheVary {
  import opened Common
  import opened Strings

  const SEPARATOR := "\U{001F}"
  const NEWLINE := "\n"

  // ---------- the headers that Vary nominates ----------

  function StripLeft(s: string): (r: string)
    ensures |r| <= |s|
  {
    if s != "" && IsSpace(s[0]) then StripLeft(s[1..]) else s
  }

  function StripRight(s: string): (r: string)
    ensures |r| <= |s|
  {
    if s != "" && IsSpace(s[|s| - 1]) then StripRight(s[..|s| - 1]) else s
  }

  /** g_strsplit(s, ",", -1) */
  function Tokens(s: string): seq<string>
    decreases |s|
  {
    var n := Span(s, ",");
    if n == |s| then [s] else [s[..n]] + Tokens(s[n + 1..])
  }

  /** The header that a token names, in small letters; none for an empty one and for Accept-Encoding */
  function NameOf(token: string): (r: Option<string>)
    ensures r.Some? ==> r.value != "" && r.value != "accept-encoding"
  {
    var name := Lower(StripRight(StripLeft(token)));
    if name == "" || name == "accept-encoding" then None else Some(name)
  }

  function NamesIn(tokens: seq<string>): seq<string> {
    if tokens == [] then []
    else
      var name := NameOf(tokens[0]);
      (if name.None? then [] else [name.value]) + NamesIn(tokens[1..])
  }

  /** The headers that a Vary field nominates, in its order, without Accept-Encoding */
  function Nominated(vary: string): seq<string> {
    if vary == "" then [] else NamesIn(Tokens(vary))
  }

  predicate Supported(name: string) {
    name == "accept" || name == "accept-language" || name == "user-agent" || name == "origin"
  }

  function SkipBlanks(s: string): (r: string)
    ensures forall c :: c in r ==> c in s
  {
    if s != "" && (s[0] == ' ' || s[0] == '\t') then SkipBlanks(s[1..]) else s
  }

  predicate Names(header: string, name: string) {
    StartsWithAnyCase(header, name) && |name| < |header| && header[|name|] == ':'
  }

  /** request_header_value: the value of the first header of a name */
  function HeaderValue(headers: seq<string>, name: string): Option<string> {
    if headers == [] then None
    else if Names(headers[0], name) then Some(SkipBlanks(headers[0][|name| + 1..]))
    else HeaderValue(headers[1..], name)
  }

  function Selected(name: string, value: string): string {
    name + ":" + value + NEWLINE
  }

  /** The selector for some nominated headers: none if one of them is not supported or not in the request */
  function SelectorFor(names: seq<string>, headers: seq<string>): Option<string> {
    if names == [] then Some("") else
    var value := HeaderValue(headers, names[0]);
    var rest := SelectorFor(names[1..], headers);
    if !Supported(names[0]) || value.None? || rest.None? then None
    else Some(Selected(names[0], value.value) + rest.value)
  }

  function Selector(vary: string, headers: seq<string>): Option<string> {
    SelectorFor(Nominated(vary), headers)
  }

  function After(done: string, rest: Option<string>): Option<string> {
    if rest.None? then None else Some(done + rest.value)
  }

  /** vary_selector */
  method VarySelector(vary: string, headers: seq<string>) returns (r: Option<string>)
    ensures r == Selector(vary, headers)
  {
    if vary == "" { return Some(""); }
    var tokens := Tokens(vary);
    assert tokens[0..] == tokens && tokens[|tokens|..] == [];
    var selector := "";
    ghost var want := SelectorFor(NamesIn(tokens), headers);
    AfterNothing(want);
    for i := 0 to |tokens|
      invariant want == After(selector, SelectorFor(NamesIn(tokens[i..]), headers))
    {
      var name := NameOf(tokens[i]);
      SelectorFrom(tokens, i, headers);
      if name.None? { continue; }
      if !Supported(name.value) { return None; }
      var value := HeaderValue(headers, name.value);
      if value.None? { return None; }
      AfterMore(selector, Selected(name.value, value.value), SelectorFor(NamesIn(tokens[i + 1..]), headers));
      selector := selector + Selected(name.value, value.value);
    }
    assert selector + "" == selector;
    return Some(selector);
  }

  lemma AfterNothing(rest: Option<string>)
    ensures After("", rest) == rest
  {
    if rest.Some? { assert "" + rest.value == rest.value; }
  }

  lemma AfterMore(done: string, more: string, rest: Option<string>)
    ensures After(done, After(more, rest)) == After(done + more, rest)
  {
    if rest.Some? { assert done + (more + rest.value) == done + more + rest.value; }
  }

  lemma SelectorFrom(tokens: seq<string>, i: nat, headers: seq<string>)
    requires i < |tokens|
    ensures var name, rest := NameOf(tokens[i]), SelectorFor(NamesIn(tokens[i + 1..]), headers);
            SelectorFor(NamesIn(tokens[i..]), headers) ==
            if name.None? then rest
            else if !Supported(name.value) || HeaderValue(headers, name.value).None? then None
            else After(Selected(name.value, HeaderValue(headers, name.value).value), rest)
  {
    var name, names := NameOf(tokens[i]), NamesIn(tokens[i + 1..]);
    assert tokens[i..][0] == tokens[i] && tokens[i..][1..] == tokens[i + 1..];
    if name.None? {
      assert [] + names == names;
    } else {
      assert ([name.value] + names)[1..] == names;
    }
  }

  // ---------- what a Vary field and a header say ----------

  /** A part of a list: nothing or a comma stands before it and behind it. */
  predicate PartOf(list: string, before: string, part: string, behind: string) {
    && list == before + part + behind && ',' !in part
    && (before == "" || before[|before| - 1] == ',') && (behind == "" || behind[0] == ',')
  }

  lemma {:induction false} TokenIsPart(list: string, part: string) returns (before: string, behind: string)
    requires part in Tokens(list)
    ensures PartOf(list, before, part, behind)
    decreases |list|
  {
    var n := Span(list, ",");
    if part == list[..n] {
      before, behind := "", list[n..];
      assert list == before + part + behind;
    } else {
      before, behind := TokenIsPart(list[n + 1..], part);
      PartBehind(list, n, before, part, behind);
      before := list[..n + 1] + before;
    }
  }

  lemma PartBehind(list: string, n: nat, before: string, part: string, behind: string)
    requires n < |list| && list[n] == ',' && PartOf(list[n + 1..], before, part, behind)
    ensures PartOf(list, list[..n + 1] + before, part, behind)
  {
    assert list == list[..n + 1] + list[n + 1..];
  }

  lemma {:induction false} PartIsToken(list: string, before: string, part: string, behind: string)
    requires PartOf(list, before, part, behind)
    ensures part in Tokens(list)
    decreases |list|
  {
    if before == "" {
      FirstToken(list, part, behind);
    } else {
      var n := Span(list, ",");
      var inner := CommaInside(list, before, part, behind, n);
      PartIsToken(list[n + 1..], inner, part, behind);
    }
  }

  lemma FirstToken(list: string, part: string, behind: string)
    requires PartOf(list, "", part, behind)
    ensures part in Tokens(list)
  {
    assert forall i :: 0 <= i < |part| ==> list[i] == part[i];
    if behind != "" { assert list[|part|] == behind[0]; }
    SpanIs(list, ",", |part|);
    assert list[..|part|] == part;
    assert Tokens(list)[0] == part;
  }

  /** The first comma stands before the part. */
  lemma CommaInside(list: string, before: string, part: string, behind: string, n: nat) returns (inner: string)
    requires PartOf(list, before, part, behind) && before != "" && n == Span(list, ",")
    ensures n < |list| && PartOf(list[n + 1..], inner, part, behind)
  {
    assert list[|before| - 1] == before[|before| - 1] == ',';
    assert n < |before|;
    inner := before[n + 1..];
    assert list[n + 1..] == inner + part + behind;
  }

  /** White space around a name */
  predicate Blank(s: string) {
    forall i :: 0 <= i < |s| ==> IsSpace(s[i])
  }

  lemma {:induction false} StripsLeft(pad: string, s: string)
    requires Blank(pad) && (s == "" || !IsSpace(s[0]))
    ensures StripLeft(pad + s) == s
    decreases |pad|
  {
    if pad != "" {
      assert (pad + s)[1..] == pad[1..] + s;
      StripsLeft(pad[1..], s);
    } else {
      assert pad + s == s;
    }
  }

  lemma {:induction false} StripsRight(s: string, pad: string)
    requires Blank(pad) && (s == "" || !IsSpace(s[|s| - 1]))
    ensures StripRight(s + pad) == s
    decreases |pad|
  {
    if pad != "" {
      assert (s + pad)[..|s + pad| - 1] == s + pad[..|pad| - 1];
      StripsRight(s, pad[..|pad| - 1]);
    } else {
      assert s + pad == s;
    }
  }

  /** A token names the header that stands in it between white space, in whatever case. */
  lemma TokenNames(left: string, name: string, right: string)
    requires Blank(left) && Blank(right) && name != "" && !IsSpace(name[0]) && !IsSpace(name[|name| - 1])
    ensures NameOf(left + name + right) == if Lower(name) == "accept-encoding" then None else Some(Lower(name))
  {
    var s := name + right;
    assert left + name + right == left + s && s[0] == name[0];
    StripsLeft(left, s);
    StripsRight(name, right);
    assert |Lower(name)| == |name|;
  }

  /** The headers that a Vary field nominates are those that its parts between commas name. */
  lemma NominatedMeans(vary: string, name: string)
    ensures name in Nominated(vary) <==> exists before, part, behind :: PartOf(vary, before, part, behind) && NameOf(part) == Some(name)
  {
    NamesAre(Tokens(vary), name);
    NothingIsNamed();
    if name in Nominated(vary) {
      var part :| part in Tokens(vary) && NameOf(part) == Some(name);
      var before, behind := TokenIsPart(vary, part);
    }
    if before, part, behind :| PartOf(vary, before, part, behind) && NameOf(part) == Some(name) {
      PartIsToken(vary, before, part, behind);
    }
  }

  lemma NothingIsNamed()
    ensures NameOf("").None?
  {
  }

  lemma {:induction false} NamesAre(tokens: seq<string>, name: string)
    ensures name in NamesIn(tokens) <==> exists t :: t in tokens && NameOf(t) == Some(name)
    decreases |tokens|
  {
    if tokens != [] {
      NamesAre(tokens[1..], name);
      if t :| t in tokens && NameOf(t) == Some(name) { assert t == tokens[0] || t in tokens[1..]; }
    }
  }

  /** The first header line of that name, in whatever case, has this value behind its colon and its blanks. */
  lemma {:induction false} ValueRead(before: seq<string>, name: string, written: string, blanks: string, value: string, behind: seq<string>)
    requires Lower(written) == name && forall h :: h in before ==> !Names(h, name)
    requires (forall c :: c in blanks ==> c == ' ' || c == '\t') && (value == "" || (value[0] != ' ' && value[0] != '\t'))
    ensures HeaderValue(before + [written + ":" + blanks + value] + behind, name) == Some(value)
    decreases |before|
  {
    var h := written + ":" + blanks + value;
    if before == [] {
      assert h[..|name|] == written && h[|name|] == ':' && h[|name| + 1..] == blanks + value;
      SkipsBlanks(blanks, value);
      assert before + [h] + behind == [h] + behind;
    } else {
      assert (before + [h] + behind)[1..] == before[1..] + [h] + behind;
      ValueRead(before[1..], name, written, blanks, value, behind);
    }
  }

  lemma {:induction false} SkipsBlanks(blanks: string, value: string)
    requires (forall c :: c in blanks ==> c == ' ' || c == '\t') && (value == "" || (value[0] != ' ' && value[0] != '\t'))
    ensures SkipBlanks(blanks + value) == value
    decreases |blanks|
  {
    if blanks != "" {
      assert forall c :: c in blanks[1..] ==> c in blanks;
      assert blanks[0] in blanks && (blanks + value)[1..] == blanks[1..] + value;
      SkipsBlanks(blanks[1..], value);
    } else {
      assert blanks + value == value;
    }
  }

  // ---------- what selectors tell apart ----------

  /** There is a selector exactly when every nominated header is supported and in the request. */
  lemma {:induction false} HasSelector(names: seq<string>, headers: seq<string>)
    ensures SelectorFor(names, headers).Some? <==>
            forall i :: 0 <= i < |names| ==> Supported(names[i]) && HeaderValue(headers, names[i]).Some?
  {
    if names != [] {
      HasSelector(names[1..], headers);
      assert forall i :: 1 <= i < |names| ==> names[i] == names[1..][i - 1];
      assert SelectorFor(names[1..], headers).Some? <==>
             forall i :: 1 <= i < |names| ==> Supported(names[i]) && HeaderValue(headers, names[i]).Some?;
    }
  }

  predicate OneLine(headers: seq<string>) {
    forall i :: 0 <= i < |headers| ==> '\n' !in headers[i]
  }

  lemma {:induction false} ValueIsOneLine(headers: seq<string>, name: string)
    requires OneLine(headers) && HeaderValue(headers, name).Some?
    ensures '\n' !in HeaderValue(headers, name).value
  {
    if Names(headers[0], name) {
      var rest := headers[0][|name| + 1..];
      assert forall c :: c in rest ==> c in headers[0];
    } else {
      ValueIsOneLine(headers[1..], name);
    }
  }

  /** Two texts that go on after a line of each are equal only if the lines are. */
  lemma LinesAreApart(name: string, v: string, w: string, p: string, q: string)
    requires '\n' !in v && '\n' !in w
    requires Selected(name, v) + p == Selected(name, w) + q
    ensures v == w && p == q
  {
    var s, t := Selected(name, v) + p, Selected(name, w) + q;
    var n := |name| + 1;
    assert s[n..] == v + NEWLINE + p && t[n..] == w + NEWLINE + q;
    PartsAt(NEWLINE, v, w, p, q);
  }

  predicate SameValues(names: seq<string>, a: seq<string>, b: seq<string>) {
    forall i :: 0 <= i < |names| ==> HeaderValue(a, names[i]) == HeaderValue(b, names[i])
  }

  /** Two requests have one selector exactly when they have the same values of the nominated headers. */
  lemma {:induction false} SelectorsTellApart(names: seq<string>, a: seq<string>, b: seq<string>)
    requires OneLine(a) && OneLine(b) && SelectorFor(names, a).Some?
    ensures SelectorFor(names, b) == SelectorFor(names, a) <==> SameValues(names, a, b)
  {
    if names != [] {
      SelectorsTellApart(names[1..], a, b);
      assert SameValues(names, a, b) <==>
             HeaderValue(a, names[0]) == HeaderValue(b, names[0]) && SameValues(names[1..], a, b) by {
        SameValuesFrom(names, a, b);
      }
      var v, w := HeaderValue(a, names[0]), HeaderValue(b, names[0]);
      ValueIsOneLine(a, names[0]);
      if SelectorFor(names, b) == SelectorFor(names, a) {
        ValueIsOneLine(b, names[0]);
        LinesAreApart(names[0], v.value, w.value, SelectorFor(names[1..], a).value, SelectorFor(names[1..], b).value);
      }
    }
  }

  lemma SameValuesFrom(names: seq<string>, a: seq<string>, b: seq<string>)
    requires names != []
    ensures SameValues(names, a, b) <==>
            HeaderValue(a, names[0]) == HeaderValue(b, names[0]) && SameValues(names[1..], a, b)
  {
    assert forall i :: 1 <= i < |names| ==> names[i] == names[1..][i - 1];
    if HeaderValue(a, names[0]) == HeaderValue(b, names[0]) && SameValues(names[1..], a, b) {
      forall i | 0 <= i < |names| ensures HeaderValue(a, names[i]) == HeaderValue(b, names[i]) {
        if i > 0 { assert names[i] == names[1..][i - 1]; }
      }
    }
    if SameValues(names, a, b) {
      forall i | 0 <= i < |names| - 1 ensures HeaderValue(a, names[1..][i]) == HeaderValue(b, names[1..][i]) {
        assert names[1..][i] == names[i + 1];
      }
    }
  }
}
