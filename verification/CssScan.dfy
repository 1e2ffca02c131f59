/**
 The flat scanner ns_css_syntax_scan of src/css_syntax.c, which finds the end of a declaration or a rule
 with a cursor, a quote and a stack of brackets, and its agreement with the component parser: what the
 parser calls valid, and where its top-level components start.
 */
module CssScan {
  import opened Common
  import opened Locks
  import opened CssSyntax

  /** How many brackets the scanner can remember. */
  const STACK := 128

  /** strchr(terminators, c), which also finds the NUL at the end of the terminators. */
  predicate Stops(terms: string, c: char) {
    c == NUL || c in terms
  }

  /** The scanner from the cursor `p` on, inside the string `quote` if there is one. */
  function Scan(s: string, p: nat, quote: Option<char>, stack: string, terms: string): (r: nat)
    requires p <= |s|
    ensures p <= r <= |s|
    decreases |s| - p
  {
    if p == |s| then p
    else if quote.Some? then
      if s[p] == '\\' && p + 1 < |s| then Scan(s, p + 2, quote, stack, terms)
      else Scan(s, p + 1, if Some(s[p]) == quote then None else quote, stack, terms)
    else if StartsComment(s, p) then Scan(s, CommentEnd(s, p + 2), None, stack, terms)
    else if s[p] == '\\' && p + 1 < |s| then Scan(s, p + 2, None, stack, terms)
    else if s[p] == '"' || s[p] == '\'' then Scan(s, p + 1, Some(s[p]), stack, terms)
    else if stack == [] && Stops(terms, s[p]) then p
    else Scan(s, p + 1, None, Bracket(stack, s[p]), terms)
  }

  /** What a bracket does to the stack. */
  function Bracket(stack: string, c: char): string {
    if IsOpener(c) then (if |stack| < STACK then stack + [Closer(c)] else stack)
    else if |stack| > 0 && c == stack[|stack| - 1] then stack[..|stack| - 1]
    else stack
  }

  method FindCommentEnd(s: string, p: nat) returns (q: nat)
    requires p <= |s|
    ensures q == CommentEnd(s, p)
  {
    q := p;
    while q + 1 < |s| && !(s[q] == '*' && s[q + 1] == '/')
      invariant q <= |s| && CommentEnd(s, q) == CommentEnd(s, p)
    {
      q := q + 1;
    }
    q := if q + 1 < |s| then q + 2 else |s|;
  }

  /** ns_css_syntax_scan */
  method ScanFor(s: string, terms: string) returns (p: nat, terminator: char)
    ensures p == Scan(s, 0, None, [], terms)
    ensures p < |s| ==> Stops(terms, s[p]) && terminator == s[p]
    ensures p == |s| ==> terminator == NUL
  {
    p, terminator := 0, NUL;
    var quote: Option<char> := None;
    var stack := "";
    while p < |s|
      invariant p <= |s| && terminator == NUL
      invariant Scan(s, p, quote, stack, terms) == Scan(s, 0, None, [], terms)
    {
      var c := s[p];
      if quote.Some? {
        if c == '\\' && p + 1 < |s| {
          p := p + 2;
        } else {
          if c == quote.value { quote := None; }
          p := p + 1;
        }
      } else if c == '/' && p + 1 < |s| && s[p + 1] == '*' {
        p := FindCommentEnd(s, p + 2);
      } else if c == '\\' && p + 1 < |s| {
        p := p + 2;
      } else if c == '"' || c == '\'' {
        quote := Some(c);
        p := p + 1;
      } else if |stack| == 0 && Stops(terms, c) {
        terminator := c;
        return;
      } else {
        if IsOpener(c) {
          if |stack| < STACK { stack := stack + [Closer(c)]; }
        } else if |stack| > 0 && c == stack[|stack| - 1] {
          stack := stack[..|stack| - 1];
        }
        p := p + 1;
      }
    }
  }

  // ---------- the reference: brackets match and strings hold no raw newline ----------

  /** From `p` on, every closing bracket outside strings, comments and escapes closes the innermost open one
      (`stack` holds the closers still expected, the innermost last), and no string holds a raw newline. */
  predicate Balanced(s: string, p: nat, quote: Option<char>, stack: string)
    requires p <= |s|
    decreases |s| - p
  {
    if p == |s| then true
    else if quote.Some? then
      if Some(s[p]) == quote then Balanced(s, p + 1, None, stack)
      else if EscapeEnd(s, p) > p then Balanced(s, EscapeEnd(s, p), quote, stack)
      else !IsNewline(s[p]) && s[p] != '\\' && Balanced(s, p + 1, quote, stack)
    else if StartsComment(s, p) then Balanced(s, CommentEnd(s, p + 2), None, stack)
    else if EscapeEnd(s, p) > p then Balanced(s, EscapeEnd(s, p), None, stack)
    else if s[p] == '"' || s[p] == '\'' then Balanced(s, p + 1, Some(s[p]), stack)
    else if IsOpener(s[p]) then Balanced(s, p + 1, None, stack + [Closer(s[p])])
    else if IsCloser(s[p]) then
      |stack| > 0 && s[p] == stack[|stack| - 1] && Balanced(s, p + 1, None, stack[..|stack| - 1])
    else Balanced(s, p + 1, None, stack)
  }

  // ---------- tokens ----------

  /** What the two machines make of the stretch from `p` to `q`, which the parser read with the verdict
      `ok` and which turns the stack `before` into `after`: the reference accepts what follows `p` exactly
      if the parser was content and the reference accepts what follows `q`, and a scanner at `p` that may
      pass finds what a scanner at `q` finds. */
  ghost predicate Agrees(s: string, p: nat, q: nat, ok: bool, before: string, after: string, terms: string, pass: bool) {
    p <= q <= |s| && forall key {:trigger Open(key)} :: Key(key) ==> Accord(s, p, q, ok, before, after, terms, pass)
  }

  ghost predicate Accord(s: string, p: nat, q: nat, ok: bool, before: string, after: string, terms: string, pass: bool)
    requires p <= q <= |s|
  {
    && (Balanced(s, p, None, before) <==> ok && Balanced(s, q, None, after))
    && (ok && pass ==> Scan(s, p, None, before, terms) == Scan(s, q, None, after, terms))
  }

  /** A stretch that means nothing to either machine. */
  ghost predicate Same(s: string, p: nat, q: nat, stack: string, terms: string) {
    Agrees(s, p, q, true, stack, stack, terms, true)
  }

  lemma Nothing(s: string, p: nat, stack: string, terms: string)
    requires p <= |s|
    ensures Same(s, p, p, stack, terms)
  {
    assert Accord(s, p, p, true, stack, stack, terms, true);
  }

  lemma Joined(s: string, p: nat, q: nat, r: nat, first: bool, second: bool, before: string, middle: string,
               after: string, terms: string, here: bool, there: bool, pass: bool)
    requires Agrees(s, p, q, first, before, middle, terms, here) && Agrees(s, q, r, second, middle, after, terms, there)
    requires pass ==> here && there
    ensures Agrees(s, p, r, first && second, before, after, terms, pass)
  {
    assert Open(true);
  }

  lemma SameJoined(s: string, p: nat, q: nat, r: nat, stack: string, terms: string)
    requires Same(s, p, q, stack, terms) && Same(s, q, r, stack, terms)
    ensures Same(s, p, r, stack, terms)
  {
    Joined(s, p, q, r, true, true, stack, stack, stack, terms, true, true, true);
  }

  /** The terminators that the callers use. */
  ghost predicate Usual(terms: string) {
    forall c :: c in terms ==> c == ';' || c == ':' || c == ',' || c == '{'
  }

  /** A stack holds closing brackets only. */
  ghost predicate Closers(stack: string) {
    forall i :: 0 <= i < |stack| ==> IsCloser(stack[i])
  }

  /** The scanner may step over the character at `p`. */
  predicate MayPass(s: string, p: nat, stack: string, terms: string)
    requires p < |s|
  {
    stack != [] || !Stops(terms, s[p])
  }

  /** A single character that is no bracket, no quote and no start of anything longer. */
  lemma DelimRun(s: string, p: nat, stack: string, terms: string)
    requires p < |s| && !StartsComment(s, p) && s[p] != '\\' && s[p] != '"' && s[p] != '\''
    requires !IsOpener(s[p]) && !IsCloser(s[p]) && Closers(stack)
    ensures Agrees(s, p, p + 1, true, stack, stack, terms, MayPass(s, p, stack, terms))
  {
    assert Bracket(stack, s[p]) == stack;
    assert Accord(s, p, p + 1, true, stack, stack, terms, MayPass(s, p, stack, terms));
  }

  lemma CommentRun(s: string, p: nat, stack: string, terms: string)
    requires StartsComment(s, p)
    ensures Same(s, p, CommentEnd(s, p + 2), stack, terms)
  {
    assert Accord(s, p, CommentEnd(s, p + 2), true, stack, stack, terms, true);
  }

  /** A character that means nothing to either machine outside strings. */
  predicate Inert(c: char) {
    IsName(c) || IsSpace(c) || c == '+' || c == '.' || c == '%' || c == '@' || c == '#'
  }

  lemma {:induction false} InertRun(s: string, p: nat, q: nat, stack: string, terms: string)
    requires p <= q <= |s| && Closers(stack) && Usual(terms) && forall i :: p <= i < q ==> Inert(s[i])
    ensures Same(s, p, q, stack, terms)
    decreases q - p
  {
    if p == q {
      Nothing(s, p, stack, terms);
    } else {
      assert MayPass(s, p, stack, terms);
      DelimRun(s, p, stack, terms);
      InertRun(s, p + 1, q, stack, terms);
      SameJoined(s, p, p + 1, q, stack, terms);
    }
  }

  lemma BackslashStep(s: string, p: nat, stack: string, terms: string)
    requires p < |s| && s[p] == '\\' && EscapeEnd(s, p) > p && Closers(stack) && Usual(terms)
    requires p + 1 < |s| ==> Scan(s, p + 2, None, stack, terms) == Scan(s, EscapeEnd(s, p), None, stack, terms)
    ensures Same(s, p, EscapeEnd(s, p), stack, terms)
  {
    if p + 1 == |s| {
      assert !Stops(terms, s[p]);
      assert Bracket(stack, s[p]) == stack;
    }
    assert Accord(s, p, EscapeEnd(s, p), true, stack, stack, terms, true);
  }

  /** An escape sequence, after which hexadecimal digits and a space may follow that the scanner, unlike
      the parser, reads one by one. */
  lemma EscapeRun(s: string, p: nat, stack: string, terms: string)
    requires p < |s| && s[p] == '\\' && EscapeEnd(s, p) > p && Closers(stack) && Usual(terms)
    ensures Same(s, p, EscapeEnd(s, p), stack, terms)
  {
    if p + 1 < |s| {
      InertRun(s, p + 2, EscapeEnd(s, p), stack, terms);
      assert Open(true);
    }
    BackslashStep(s, p, stack, terms);
  }

  lemma {:induction false} NameRun(s: string, p: nat, stack: string, terms: string)
    requires p <= |s| && Closers(stack) && Usual(terms)
    ensures Same(s, p, NameEnd(s, p), stack, terms)
    decreases |s| - p
  {
    if p < |s| && IsName(s[p]) {
      InertRun(s, p, p + 1, stack, terms);
      NameRun(s, p + 1, stack, terms);
      SameJoined(s, p, p + 1, NameEnd(s, p), stack, terms);
    } else if EscapeEnd(s, p) > p {
      EscapeRun(s, p, stack, terms);
      NameRun(s, EscapeEnd(s, p), stack, terms);
      SameJoined(s, p, EscapeEnd(s, p), NameEnd(s, p), stack, terms);
    } else {
      Nothing(s, p, stack, terms);
    }
  }

  lemma NumericRun(s: string, p: nat, stack: string, terms: string)
    requires StartsNumber(s, p) && Closers(stack) && Usual(terms)
    ensures Same(s, p, NumericAt(s, p).end, stack, terms)
  {
    var n := NumberEnd(s, p);
    InertRun(s, p, n, stack, terms);
    if n < |s| && s[n] == '%' {
      InertRun(s, n, n + 1, stack, terms);
      SameJoined(s, p, n, n + 1, stack, terms);
    } else if StartsUnit(s, n) {
      NameRun(s, n, stack, terms);
      SameJoined(s, p, n, NameEnd(s, n), stack, terms);
    }
  }

  lemma NameAfter(s: string, p: nat, stack: string, terms: string)
    requires p < |s| && (s[p] == '@' || s[p] == '#') && Closers(stack) && Usual(terms)
    ensures Same(s, p, NameEnd(s, p + 1), stack, terms)
  {
    InertRun(s, p, p + 1, stack, terms);
    NameRun(s, p + 1, stack, terms);
    SameJoined(s, p, p + 1, NameEnd(s, p + 1), stack, terms);
  }

  /** Inside a string the scanner skips two characters for an escape, the parser the whole escape. */
  lemma {:induction false} HexInString(s: string, p: nat, q: nat, quote: char, stack: string, terms: string)
    requires p <= q <= |s| && forall i :: p <= i < q ==> IsHex(s[i]) || IsSpace(s[i])
    requires quote == '"' || quote == '\''
    ensures Scan(s, p, Some(quote), stack, terms) == Scan(s, q, Some(quote), stack, terms)
    decreases q - p
  {
    if p < q { HexInString(s, p + 1, q, quote, stack, terms); }
  }

  lemma {:induction false} StringRun(s: string, p: nat, quote: char, stack: string, terms: string)
    requires p <= |s| && (quote == '"' || quote == '\'')
    ensures var r := StringEnd(s, p, quote);
            && (Balanced(s, p, Some(quote), stack) <==> r.ok && Balanced(s, r.end, None, stack))
            && (r.ok ==> Scan(s, p, Some(quote), stack, terms) == Scan(s, r.end, None, stack, terms))
    decreases |s| - p
  {
    if p == |s| || s[p] == quote || IsNewline(s[p]) {
    } else if s[p] == '\\' && p + 1 < |s| {
      var q := EscapeEnd(s, p);
      if q > p {
        HexInString(s, p + 2, q, quote, stack, terms);
        StringRun(s, q, quote, stack, terms);
      }
    } else {
      StringRun(s, p + 1, quote, stack, terms);
    }
  }

  lemma StringToken(s: string, p: nat, stack: string, terms: string)
    requires p < |s| && (s[p] == '"' || s[p] == '\'')
    ensures var r := StringAt(s, p); Agrees(s, p, r.end, r.ok, stack, stack, terms, true)
  {
    StringRun(s, p + 1, s[p], stack, terms);
    var r := StringAt(s, p);
    assert Accord(s, p, r.end, r.ok, stack, stack, terms, true);
  }

  // ---------- components ----------

  predicate IsBracketed(c: Component) {
    c.kind == Function || c.kind == Block
  }

  function Nesting(c: Component): nat
    decreases c, 0
  {
    if IsBracketed(c) then 1 + ListNesting(c.children) else 0
  }

  function ListNesting(list: seq<Component>): nat
    decreases list, 1
  {
    if list == [] then 0
    else
      var first, rest := Nesting(list[0]), ListNesting(list[1..]);
      if first > rest then first else rest
  }

  lemma NestingCons(c: Component, rest: seq<Component>)
    ensures ListNesting([c] + rest) >= Nesting(c) && ListNesting([c] + rest) >= ListNesting(rest)
  {
    assert ([c] + rest)[1..] == rest;
  }

  /** The scanner's stack has room for so many more brackets. */
  ghost predicate Room(stack: string, nesting: nat) {
    |stack| + nesting <= STACK
  }

  /** A token without brackets that is not an identifier or a single character. */
  predicate StartsFlat(s: string, p: nat) {
    && p < |s|
    && (IsSpace(s[p]) || s[p] == '"' || s[p] == '\'' || StartsNumber(s, p) || StartsAt(s, p) || StartsHash(s, p))
  }

  lemma FlatRun(s: string, p: nat, stack: string, terms: string)
    requires StartsFlat(s, p) && !StartsComment(s, p) && Ready(s, p) && Closers(stack) && Usual(terms)
    ensures var r := Consume(s, p); Agrees(s, p, r.end, r.ok, stack, stack, terms, true)
  {
    if IsSpace(s[p]) {
      InertRun(s, p, SpaceEnd(s, p + 1), stack, terms);
    } else if s[p] == '"' || s[p] == '\'' {
      StringToken(s, p, stack, terms);
    } else if StartsNumber(s, p) {
      NumericRun(s, p, stack, terms);
    } else {
      NameAfter(s, p, stack, terms);
    }
  }

  /** One component, read at a place where the parser calls consume. */
  ghost predicate ReadsOne(s: string, p: nat, r: One, stack: string, terms: string)
    requires p < |s|
  {
    Agrees(s, p, r.end, r.ok, stack, stack, terms, MayPass(s, p, stack, terms) && Room(stack, Nesting(r.component)))
  }

  lemma {:induction false} ConsumeRun(s: string, p: nat, stack: string, terms: string)
    requires p < |s| && Ready(s, p) && !StartsComment(s, p) && !IsCloser(s[p])
    requires Closers(stack) && Usual(terms)
    ensures ReadsOne(s, p, Consume(s, p), stack, terms)
    decreases |s| - p, 0
  {
    var r := Consume(s, p);
    if StartsFlat(s, p) {
      FlatRun(s, p, stack, terms);
      Weaker(s, p, r.end, r.ok, stack, stack, terms, MayPass(s, p, stack, terms) && Room(stack, Nesting(r.component)));
    } else if StartsIdent(s, p) {
      IdentRun(s, p, stack, terms);
    } else if IsOpener(s[p]) {
      BracketRun(s, p, stack, terms);
    } else {
      DelimRun(s, p, stack, terms);
      Nothing(s, p + 1, stack, terms);
      Joined(s, p, p + 1, p + 1, true, true, stack, stack, stack, terms, MayPass(s, p, stack, terms), true,
             MayPass(s, p, stack, terms) && Room(stack, Nesting(r.component)));
    }
  }

  lemma Weaker(s: string, p: nat, q: nat, ok: bool, before: string, after: string, terms: string, pass: bool)
    requires Agrees(s, p, q, ok, before, after, terms, true)
    ensures Agrees(s, p, q, ok, before, after, terms, pass)
  {
    assert Open(true);
  }

  lemma {:induction false} IdentRun(s: string, p: nat, stack: string, terms: string)
    requires StartsIdent(s, p) && !StartsFlat(s, p) && Ready(s, p) && Closers(stack) && Usual(terms)
    ensures ReadsOne(s, p, Consume(s, p), stack, terms)
    decreases |s| - p - 1, 3
  {
    BehindToken(s, p);
    NameRun(s, p, stack, terms);
    var q, r := NameEnd(s, p), Consume(s, p);
    if q < |s| && s[q] == '(' {
      BracketRun(s, q, stack, terms);
      assert MayPass(s, q, stack, terms);
      Joined(s, p, q, r.end, true, r.ok, stack, stack, stack, terms, true, Room(stack, Nesting(r.component)),
             MayPass(s, p, stack, terms) && Room(stack, Nesting(r.component)));
    } else {
      Weaker(s, p, q, true, stack, stack, terms, MayPass(s, p, stack, terms) && Room(stack, Nesting(r.component)));
    }
  }

  lemma OpenerRun(s: string, p: nat, stack: string, terms: string)
    requires p < |s| && IsOpener(s[p])
    ensures Agrees(s, p, p + 1, true, stack, stack + [Closer(s[p])], terms,
                   MayPass(s, p, stack, terms) && Room(stack, 1))
  {
    assert Accord(s, p, p + 1, true, stack, stack + [Closer(s[p])], terms, MayPass(s, p, stack, terms) && Room(stack, 1));
  }

  /** An opening bracket and the list behind it. */
  lemma {:induction false} BracketRun(s: string, p: nat, stack: string, terms: string)
    requires p < |s| && IsOpener(s[p]) && Ready(s, p) && Closers(stack) && Usual(terms)
    ensures Ready(s, p + 1) && var r := ParseList(s, p + 1, Some(Closer(s[p])));
            Agrees(s, p, r.end, r.ok, stack, stack, terms,
                   MayPass(s, p, stack, terms) && Room(stack, 1 + ListNesting(r.list)))
    decreases |s| - p - 1, 2
  {
    BehindBracket(s, p);
    var r := ParseList(s, p + 1, Some(Closer(s[p])));
    OpenerRun(s, p, stack, terms);
    ListRun(s, p + 1, Closer(s[p]), stack, terms);
    Joined(s, p, p + 1, r.end, true, r.ok, stack, stack + [Closer(s[p])], stack, terms,
           MayPass(s, p, stack, terms) && Room(stack, 1), Room(stack, 1 + ListNesting(r.list)),
           MayPass(s, p, stack, terms) && Room(stack, 1 + ListNesting(r.list)));
  }

  lemma CloserRun(s: string, p: nat, closing: char, stack: string, terms: string, pass: bool)
    requires p < |s| && IsCloser(s[p]) && IsCloser(closing)
    ensures Agrees(s, p, p + 1, s[p] == closing, stack + [closing], stack, terms, pass)
  {
    var inner := stack + [closing];
    assert inner[..|inner| - 1] == stack;
    assert Accord(s, p, p + 1, s[p] == closing, inner, stack, terms, pass);
  }

  lemma AtEnd(s: string, before: string, after: string, terms: string, pass: bool)
    ensures Agrees(s, |s|, |s|, true, before, after, terms, pass)
  {
    assert Accord(s, |s|, |s|, true, before, after, terms, pass);
  }

  /** The rest of a bracketed list, from `p` on. */
  ghost predicate ReadsList(s: string, p: nat, r: Many, closing: char, stack: string, terms: string) {
    Agrees(s, p, r.end, r.ok, stack + [closing], stack, terms, Room(stack, 1 + ListNesting(r.list)))
  }

  lemma {:induction false} ListRun(s: string, p: nat, closing: char, stack: string, terms: string)
    requires p <= |s| && Ready(s, p) && IsCloser(closing) && Closers(stack) && Usual(terms)
    ensures ReadsList(s, p, ParseList(s, p, Some(closing)), closing, stack, terms)
    decreases |s| - p, 1
  {
    var inner, r := stack + [closing], ParseList(s, p, Some(closing));
    var pass := Room(stack, 1 + ListNesting(r.list));
    if p == |s| {
      AtEnd(s, inner, stack, terms, pass);
    } else if StartsComment(s, p) {
      var q := CommentEnd(s, p + 2);
      BehindToken(s, p);
      CommentRun(s, p, inner, terms);
      ListRun(s, q, closing, stack, terms);
      Joined(s, p, q, r.end, true, r.ok, inner, inner, stack, terms, true, pass, pass);
    } else if IsCloser(s[p]) {
      CloserRun(s, p, closing, stack, terms, pass);
    } else {
      var one := Consume(s, p);
      ConsumeRun(s, p, inner, terms);
      ListRun(s, one.end, closing, stack, terms);
      ListCons(s, p, one, ParseList(s, one.end, Some(closing)), closing, stack, terms);
    }
  }

  lemma ListCons(s: string, p: nat, one: One, rest: Many, closing: char, stack: string, terms: string)
    requires p < |s| && ReadsOne(s, p, one, stack + [closing], terms)
    requires ReadsList(s, one.end, rest, closing, stack, terms)
    ensures ReadsList(s, p, Many([one.component] + rest.list, rest.end, one.ok && rest.ok), closing, stack, terms)
  {
    var inner := stack + [closing];
    NestingCons(one.component, rest.list);
    Joined(s, p, one.end, rest.end, one.ok, rest.ok, inner, inner, stack, terms,
           MayPass(s, p, inner, terms) && Room(inner, Nesting(one.component)),
           Room(stack, 1 + ListNesting(rest.list)), Room(stack, 1 + ListNesting([one.component] + rest.list)));
  }

  // ---------- the two theorems ----------

  /** `valid` is true exactly when the brackets match and no string holds a raw newline. */
  lemma {:induction false} ValidIsBalanced(s: string, p: nat)
    requires p <= |s| && Ready(s, p)
    ensures ParseList(s, p, None).ok <==> Balanced(s, p, None, [])
    decreases |s| - p
  {
    if p == |s| {
    } else if StartsComment(s, p) {
      BehindToken(s, p);
      ValidIsBalanced(s, CommentEnd(s, p + 2));
    } else if !IsCloser(s[p]) {
      ConsumeRun(s, p, [], "");
      assert Open(true);
      ValidIsBalanced(s, Consume(s, p).end);
    }
  }

  /** The start of the first top-level component that begins with a terminator, or the end of the input. */
  function FirstStop(s: string, list: seq<Component>, terms: string): nat {
    if list == [] then |s|
    else if list[0].start < |s| && Stops(terms, s[list[0].start]) then list[0].start
    else FirstStop(s, list[1..], terms)
  }

  /** On input that the parser calls valid, nested at most as deep as the scanner's stack, the scanner stops
      exactly at the first top-level component that begins with a terminator. */
  lemma {:induction false} ScanFindsComponent(s: string, p: nat, terms: string)
    requires p <= |s| && Ready(s, p) && Usual(terms)
    ensures var r := ParseList(s, p, None);
            r.ok && ListNesting(r.list) <= STACK ==> Scan(s, p, None, [], terms) == FirstStop(s, r.list, terms)
    decreases |s| - p
  {
    if p == |s| {
    } else if StartsComment(s, p) {
      BehindToken(s, p);
      ScanFindsComponent(s, CommentEnd(s, p + 2), terms);
    } else if !IsCloser(s[p]) {
      var one := Consume(s, p);
      var rest := ParseList(s, one.end, None);
      ConsumeRun(s, p, [], terms);
      assert Open(true);
      NestingCons(one.component, rest.list);
      ScanFindsComponent(s, one.end, terms);
      assert ([one.component] + rest.list)[1..] == rest.list;
      if Stops(terms, s[p]) { StopsAtOnce(s, p, terms); }
    }
  }

  lemma StopsAtOnce(s: string, p: nat, terms: string)
    requires p < |s| && Stops(terms, s[p]) && Usual(terms)
    ensures Scan(s, p, None, [], terms) == p
  {
  }

  // ---------- spans ----------

  /** The components lie between `lo` and `hi`, one after the other, each with a non-empty span that holds
      its children's spans strictly inside. */
  ghost predicate Laid(list: seq<Component>, lo: nat, hi: nat)
    decreases list, 1
  {
    && (forall i :: 0 <= i < |list| ==> lo <= list[i].start < list[i].end <= hi && Nested(list[i]))
    && (forall i, j :: 0 <= i < j < |list| ==> list[i].end <= list[j].start)
  }

  ghost predicate Nested(c: Component)
    requires c.start < c.end
    decreases c, 0
  {
    Laid(c.children, c.start + 1, c.end)
  }

  lemma {:induction false} ConsumeLaid(s: string, p: nat)
    requires p < |s| && Ready(s, p) && !StartsComment(s, p)
    ensures Nested(Consume(s, p).component)
    decreases |s| - p, 0
  {
    if StartsFlat(s, p) {
    } else if StartsIdent(s, p) {
      var q := NameEnd(s, p);
      if q < |s| && s[q] == '(' {
        BehindToken(s, p);
        BehindBracket(s, q);
        ListLaid(s, q + 1, Some(')'));
        ChildrenLaid(Consume(s, p).component, q + 1);
      }
    } else if IsOpener(s[p]) {
      BehindBracket(s, p);
      ListLaid(s, p + 1, Some(Closer(s[p])));
      ChildrenLaid(Consume(s, p).component, p + 1);
    }
  }

  lemma ChildrenLaid(c: Component, lo: nat)
    requires c.start < lo && c.start < c.end && Laid(c.children, lo, c.end)
    ensures Nested(c)
  {
    LaidWider(c.children, lo, c.start + 1, c.end);
  }

  lemma LaidWider(list: seq<Component>, lo: nat, less: nat, hi: nat)
    requires Laid(list, lo, hi) && less <= lo
    ensures Laid(list, less, hi)
  {
  }

  lemma LaidCons(c: Component, rest: seq<Component>, hi: nat)
    requires c.start < c.end <= hi && Nested(c) && Laid(rest, c.end, hi)
    ensures Laid([c] + rest, c.start, hi)
  {
  }

  /** Every list that the parser returns, at the top or inside a component, is laid out in source order
      within the stretch it was read from. */
  lemma {:induction false} ListLaid(s: string, p: nat, closing: Option<char>)
    requires p <= |s| && Ready(s, p) && (closing.Some? ==> IsCloser(closing.value))
    ensures var r := ParseList(s, p, closing); Laid(r.list, p, r.end)
    decreases |s| - p, 1
  {
    if p == |s| {
    } else if StartsComment(s, p) {
      BehindToken(s, p);
      ListLaid(s, CommentEnd(s, p + 2), closing);
      LaidWider(ParseList(s, p, closing).list, CommentEnd(s, p + 2), p, ParseList(s, p, closing).end);
    } else if closing == Some(s[p]) {
    } else if IsCloser(s[p]) {
      if closing.None? {
        BehindBracket(s, p);
        ListLaid(s, p + 1, closing);
        LaidWider(ParseList(s, p, closing).list, p + 1, p, ParseList(s, p, closing).end);
      }
    } else {
      var one := Consume(s, p);
      ConsumeLaid(s, p);
      ListLaid(s, one.end, closing);
      LaidCons(one.component, ParseList(s, one.end, closing).list, ParseList(s, one.end, closing).end);
    }
  }
}
