/**
 The other direction of CssText: components that tell what the text says are the ones that the parser returns.  So the
 text determines them, and the parser reads it by that grammar.
 */
module CssExact {
  import opened Common
  import opened Strings
  import opened CssSyntax
  import opened CssText

  lemma {:induction false} NameIs(s: string, p: nat, q: nat)
    requires WholeName(s, p, q)
    ensures q == NameEnd(s, p)
    decreases q - p
  {
    EscapeFound(s, p, EscapeEnd(s, p));
    if p < q {
      if IsName(s[p]) {
        NameIs(s, p + 1, q);
      } else {
        var r :| p < r <= q && Escape(s, p, r) && Name(s, r, q);
        EscapeFound(s, p, r);
        NameIs(s, r, q);
      }
    }
  }

  lemma {:induction false} StringIs(s: string, p: nat, q: nat, end: nat, quote: char, ok: bool)
    requires Content(s, p, q, quote) && Closes(s, q, end, quote, ok) && (quote == '"' || quote == '\'')
    ensures StringEnd(s, p, quote) == Quoted(end, q, ok)
    decreases q - p
  {
    EscapeFound(s, p, EscapeEnd(s, p));
    if p < q {
      if s[p] != '\\' {
        StringIs(s, p + 1, q, end, quote, ok);
      } else {
        var r :| p < r <= q && Escape(s, p, r) && Content(s, r, q, quote);
        EscapeFound(s, p, r);
        StringIs(s, r, q, end, quote, ok);
      }
    }
  }

  lemma {:induction false} CommentIs(s: string, p: nat, i: nat, q: nat)
    requires Comment(s, p, q) && p + 2 <= i <= q && forall k :: p + 2 <= k < i ==> !EndsComment(s, k)
    requires i <= q - 2 || q == |s|
    ensures CommentEnd(s, i) == q
    decreases q - i
  {
    if i + 1 < |s| && !EndsComment(s, i) { CommentIs(s, p, i + 1, q); }
  }

  lemma NumberIs(s: string, p: nat, n: nat)
    requires NumeralTo(s, p, n) && forall e :: NumeralTo(s, p, e) ==> e <= n
    ensures StartsNumber(s, p) && n == NumberEnd(s, p)
  {
    NumberIsLongest(s, p, n);
    NumberIsNumeral(s, p);
  }

  lemma NumericIs(s: string, c: Component)
    requires TellsNumeric(s, c) && IsNumeric(c.kind)
    ensures StartsNumber(s, c.start) && c == NumericAt(s, c.start).component
  {
    var n := c.start + |c.number|;
    NumberIs(s, c.start, n);
    if c.kind == Dimension {
      NameIs(s, n, c.end);
    } else if c.kind == Percentage {
      PercentIs(s, n, c.end);
    }
  }

  lemma PercentIs(s: string, n: nat, end: nat)
    requires n <= end <= |s| && s[n..end] == "%"
    ensures n < |s| && s[n] == '%' && end == n + 1
  {
    assert |s[n..end]| == 1 && s[n..end][0] == s[n];
  }

  /** What begins at a place where a component tells of the text */
  predicate Begins(s: string, p: nat, flat: bool) {
    && p < |s| && !StartsComment(s, p) && !IsCloser(s[p])
    && (flat <==> IsSpace(s[p]) || s[p] == '"' || s[p] == '\'' || StartsNumber(s, p))
  }

  lemma FlatIs(s: string, c: Component)
    requires Tells(s, c) && (IsNumeric(c.kind) || c.kind == Space || c.kind == Str)
    ensures Begins(s, c.start, true)
    ensures Ready(s, c.start) ==> c == Consume(s, c.start).component
  {
    if c.kind == Space {
      SpaceIs(s, c);
    } else if c.kind == Str {
      StringTokenIs(s, c);
    } else {
      NumericIs(s, c);
    }
  }

  lemma {:induction false} SpacesStop(s: string, p: nat, q: nat)
    requires p <= q <= |s| && (forall i :: p <= i < q ==> IsSpace(s[i])) && (q == |s| || !IsSpace(s[q]))
    ensures SpaceEnd(s, p) == q
    decreases q - p
  {
    if p < q { SpacesStop(s, p + 1, q); }
  }

  lemma SpaceIs(s: string, c: Component)
    requires TellsSpace(s, c)
    ensures c == Plain(Space, c.start, SpaceEnd(s, c.start + 1))
  {
    SpacesStop(s, c.start + 1, c.end);
  }

  lemma StringTokenIs(s: string, c: Component)
    requires TellsString(s, c) && c.kind == Str
    ensures c == StringAt(s, c.start).component
  {
    var q := c.start + 1 + |c.value|;
    var ok :| Closes(s, q, c.end, c.delimiter, ok);
    StringIs(s, c.start + 1, q, c.end, c.delimiter, ok);
    FromQuoted(s, c, q, ok);
  }

  lemma FromQuoted(s: string, c: Component, q: nat, ok: bool)
    requires 0 <= c.start < |s| && (s[c.start] == '"' || s[c.start] == '\'')
    requires StringEnd(s, c.start + 1, s[c.start]) == Quoted(c.end, q, ok) && c.value == s[c.start + 1..q]
    requires c == Component(Str, c.start, c.end, c.value, "", s[c.start], [])
    ensures c == StringAt(s, c.start).component
  {
  }

  lemma NoStart(s: string, p: nat)
    requires p < |s| && forall e :: !NumeralTo(s, p, e)
    ensures !StartsNumber(s, p)
  {
    if StartsNumber(s, p) { NumberIsNumeral(s, p); }
  }

  lemma NamedIs(s: string, c: Component)
    requires Tells(s, c) && (c.kind == AtKeyword || c.kind == Hash || c.kind == Ident)
    ensures Begins(s, c.start, false)
    ensures Ready(s, c.start) ==> c == Consume(s, c.start).component
  {
    if c.kind == Ident {
      NoStart(s, c.start);
      NameIs(s, c.start, c.end);
    } else {
      assert s[c.start..c.start + 1][0] == s[c.start];
      NameIs(s, c.start + 1, c.end);
    }
  }

  lemma MarkIs(s: string, c: Component)
    requires Tells(s, c) && (c.kind == Colon || c.kind == Semicolon || c.kind == Comma || c.kind == Delim)
    ensures Begins(s, c.start, false)
    ensures Ready(s, c.start) ==> c == Consume(s, c.start).component
  {
    NoStart(s, c.start);
  }

  /** What tells of the text at `p` is what the parser returns there. */
  lemma {:induction false} ComponentIs(s: string, c: Component)
    requires Tells(s, c) && 0 <= c.start <= |s| && Ready(s, c.start)
    ensures Begins(s, c.start, IsNumeric(c.kind) || c.kind == Space || c.kind == Str)
    ensures c == Consume(s, c.start).component
    decreases c, 1
  {
    if IsNumeric(c.kind) || c.kind == Space || c.kind == Str {
      FlatIs(s, c);
    } else if c.kind == Function {
      FunctionIs(s, c);
    } else if c.kind == Block {
      BehindBracket(s, c.start);
      ListIs(s, c.start + 1, c.children, c.end, Some(c.delimiter));
    } else if c.kind == AtKeyword || c.kind == Hash || c.kind == Ident {
      NamedIs(s, c);
    } else {
      MarkIs(s, c);
    }
  }

  lemma {:induction false} FunctionIs(s: string, c: Component)
    requires Tells(s, c) && c.kind == Function && Ready(s, c.start)
    ensures Begins(s, c.start, false) && c == Consume(s, c.start).component
    decreases c, 0
  {
    var q := c.start + |c.value|;
    NoStart(s, c.start);
    NameIs(s, c.start, q);
    BehindToken(s, c.start);
    BehindBracket(s, q);
    ListIs(s, q + 1, c.children, c.end, Some(')'));
  }

  /** The first comment or stray bracket of what stands before a list */
  lemma GapStep(s: string, p: nat, q: nat, stray: bool) returns (m: nat)
    requires p < q <= |s| && Gap(s, p, q, stray) && Ready(s, p)
    ensures p < m <= q && Gap(s, m, q, stray) && Ready(s, m)
    ensures if StartsComment(s, p) then m == CommentEnd(s, p + 2) else stray && IsCloser(s[p]) && m == p + 1
  {
    BehindToken(s, p);
    if StartsComment(s, p) {
      m :| p < m <= q && Comment(s, p, m) && Gap(s, m, q, stray);
      CommentIs(s, p, p + 2, m);
    } else {
      BehindBracket(s, p);
      m := p + 1;
    }
  }

  /** A list that tells of the text is the one that the parser returns, up to the same end. */
  lemma {:induction false} ListIs(s: string, p: nat, list: seq<Component>, end: int, closing: Option<char>)
    requires p <= |s| && Ready(s, p) && (closing.Some? ==> IsCloser(closing.value)) && TellList(s, p, list, end, closing)
    ensures var r := ParseList(s, p, closing); r.list == list && r.end == end
    decreases list, 1, |s| - p
  {
    if list == [] {
      var q :| Gap(s, p, q, closing.None?) && ListEnds(s, q, end, closing);
      EmptyListIs(s, p, q, end, closing);
    } else if p < list[0].start {
      var m := GapStep(s, p, list[0].start, closing.None?);
      ListIs(s, m, list, end, closing);
      GapRead(s, p, m, closing);
    } else {
      ComponentIs(s, list[0]);
      ListIs(s, Consume(s, p).end, list[1..], end, closing);
      assert [list[0]] + list[1..] == list;
    }
  }

  lemma GapRead(s: string, p: nat, m: nat, closing: Option<char>)
    requires p < |s| && Ready(s, p) && m <= |s| && Ready(s, m) && (closing.Some? ==> IsCloser(closing.value))
    requires if StartsComment(s, p) then m == CommentEnd(s, p + 2) else closing.None? && IsCloser(s[p]) && m == p + 1
    ensures ParseList(s, p, closing).list == ParseList(s, m, closing).list
    ensures ParseList(s, p, closing).end == ParseList(s, m, closing).end
  {
  }

  lemma {:induction false} EmptyListIs(s: string, p: nat, q: nat, end: int, closing: Option<char>)
    requires p <= q <= |s| && Ready(s, p) && (closing.Some? ==> IsCloser(closing.value))
    requires Gap(s, p, q, closing.None?) && ListEnds(s, q, end, closing)
    ensures var r := ParseList(s, p, closing); r.list == [] && r.end == end
    decreases q - p
  {
    if p < q {
      var m := GapStep(s, p, q, closing.None?);
      EmptyListIs(s, m, q, end, closing);
      GapRead(s, p, m, closing);
    } else if q < |s| {
      BehindBracket(s, q);
    }
  }

  /** The parser returns exactly the list that tells what the text says. */
  lemma ParsedExactly(s: string, list: seq<Component>)
    requires Ready(s, 0)
    ensures TellList(s, 0, list, |s|, None) <==> list == ParseList(s, 0, None).list
  {
    if TellList(s, 0, list, |s|, None) { ListIs(s, 0, list, |s|, None); }
    ListTells(s, 0, None, ParseList(s, 0, None));
    TopLevelReadsAll(s, 0);
  }
}
