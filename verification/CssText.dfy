/**
 What the components of a style sheet say of its text (CSS Syntax Module Level 3, section 4.3), told from the text
 alone: numerals, names, escapes, strings and comments by their grammar, and each kind of component by the
 characters that it stands for.
 */
module CssText {
  import opened Common
  import opened Strings
  import opened Locks
  import opened CssSyntax

  // ---------- numerals ----------

  predicate Digits(s: string, p: int, q: int) {
    0 <= p <= q <= |s| && forall i :: p <= i < q ==> IsDigit(s[i])
  }

  predicate IsSign(c: char) {
    c == '+' || c == '-'
  }

  /** A sign up to `a`, a whole part up to `b`, a fraction up to `c`, and an exponent up to `e`; all of them may be
      missing, but not both the whole part and the fraction. */
  predicate Numeral(s: string, p: int, a: int, b: int, c: int, e: int) {
    && 0 <= p <= a <= b <= c <= e <= |s| && a < c
    && (a == p || (a == p + 1 && IsSign(s[p])))
    && Digits(s, a, b)
    && (c == b || (s[b] == '.' && b + 1 < c && Digits(s, b + 1, c)))
    && (e == c || Exponent(s, c, e))
  }

  predicate Exponent(s: string, c: int, e: int)
    requires 0 <= c < e <= |s|
  {
    && (s[c] == 'e' || s[c] == 'E')
    && ((c + 1 < e && Digits(s, c + 1, e)) || (c + 2 < e && IsSign(s[c + 1]) && Digits(s, c + 2, e)))
  }

  /** A numeral stands between `p` and `e`. */
  ghost predicate NumeralTo(s: string, p: int, e: int) {
    exists a, b, c :: Numeral(s, p, a, b, c, e)
  }

  /** A numeral begins here exactly if the parser takes this for the beginning of one. */
  lemma NumeralBegins(s: string, p: nat)
    requires p <= |s|
    ensures StartsNumber(s, p) <==> exists e :: NumeralTo(s, p, e)
  {
    if StartsNumber(s, p) {
      NumberIsNumeral(s, p);
    }
  }

  /** What the parser takes is a numeral. */
  lemma NumberIsNumeral(s: string, p: nat)
    requires StartsNumber(s, p)
    ensures NumeralTo(s, p, NumberEnd(s, p))
  {
    var a := SignEnd(s, p);
    var b := DigitsEnd(s, a);
    var c := FractionEnd(s, b);
    var e := ExponentEnd(s, c);
    ExponentFound(s, c, e);
    assert Numeral(s, p, a, b, c, e);
  }

  lemma ExponentFound(s: string, c: nat, e: nat)
    requires c <= |s| && e == ExponentEnd(s, c)
    ensures e == c || Exponent(s, c, e)
  {
  }

  lemma DigitsStop(s: string, a: nat, b: int)
    requires Digits(s, a, b)
    ensures b <= DigitsEnd(s, a)
  {
  }

  /** And there is no longer one. */
  lemma NumberIsLongest(s: string, p: nat, e: int)
    requires p <= |s| && NumeralTo(s, p, e)
    ensures StartsNumber(s, p) && e <= NumberEnd(s, p)
  {
    var a, b, c :| Numeral(s, p, a, b, c, e);
    NumeralStarts(s, p, a, b, c, e);
    WholeStops(s, a, b, c, e);
  }

  lemma NumeralStarts(s: string, p: nat, a: int, b: int, c: int, e: int)
    requires Numeral(s, p, a, b, c, e)
    ensures StartsNumber(s, p) && a == SignEnd(s, p)
  {
    assert a < b ==> IsDigit(s[a]);
    assert a == b ==> s[a] == '.' && IsDigit(s[a + 1]);
  }

  lemma WholeStops(s: string, a: nat, b: int, c: int, e: int)
    requires a <= b <= c <= e <= |s| && Digits(s, a, b) && a < c
    requires (c == b || (s[b] == '.' && b + 1 < c && Digits(s, b + 1, c))) && (e == c || Exponent(s, c, e))
    ensures e <= ExponentEnd(s, FractionEnd(s, DigitsEnd(s, a)))
  {
    DigitsStop(s, a, b);
    if b < DigitsEnd(s, a) {
      assert IsDigit(s[b]);
    } else {
      FractionStops(s, b, c, e);
    }
  }

  lemma FractionStops(s: string, b: nat, c: int, e: int)
    requires b <= c <= e <= |s| && (c == b || (s[b] == '.' && b + 1 < c && Digits(s, b + 1, c)))
    requires e == c || Exponent(s, c, e)
    ensures e <= ExponentEnd(s, FractionEnd(s, b))
  {
    var f := FractionEnd(s, b);
    if c < f {
      assert c == b || IsDigit(s[c]);
    } else {
      assert c == f;
      if e > c { ExponentStops(s, c, e); }
    }
  }

  lemma ExponentStops(s: string, c: nat, e: nat)
    requires c < e <= |s| && Exponent(s, c, e)
    ensures e <= ExponentEnd(s, c)
  {
  }

  // ---------- escapes and names ----------

  predicate Hexes(s: string, p: int, q: int) {
    0 <= p <= q <= |s| && forall i :: p <= i < q ==> IsHex(s[i])
  }

  /** An escape from `p` to `r`: a backslash before the end of the input, before a character that is neither a newline
      nor a hexadecimal digit, or before one to six such digits, as many as there are, and maybe a space. */
  ghost predicate Escape(s: string, p: int, r: int) {
    && 0 <= p < r <= |s| && s[p] == '\\'
    && ((r == p + 1 == |s|) || (r == p + 2 && !IsHex(s[p + 1]) && !IsNewline(s[p + 1])) ||
        exists h :: HexEscape(s, p, h, r))
  }

  ghost predicate HexEscape(s: string, p: int, h: int, r: int)
    requires 0 <= p < |s|
  {
    && p + 1 < h <= p + 7 && Hexes(s, p + 1, h) && (h == p + 7 || h == |s| || !IsHex(s[h]))
    && r == if h < |s| && IsSpace(s[h]) then h + 1 else h
  }

  lemma {:induction false} HexesStop(s: string, p: nat, most: nat, h: int)
    requires Hexes(s, p, h) && h - p <= most && (h - p == most || h == |s| || !IsHex(s[h]))
    ensures HexEnd(s, p, most) == h
    decreases most
  {
    if p < h { HexesStop(s, p + 1, most - 1, h); }
  }

  lemma EscapeFound(s: string, p: nat, r: int)
    requires p <= |s|
    ensures Escape(s, p, r) <==> r == EscapeEnd(s, p) > p
  {
    if p < |s| && s[p] == '\\' {
      if h :| HexEscape(s, p, h, r) { HexesStop(s, p + 1, 6, h); }
      if p + 1 < |s| && IsHex(s[p + 1]) {
        assert HexEscape(s, p, HexEnd(s, p + 1, 6), EscapeEnd(s, p));
      }
    }
  }

  /** From `p` to `q` stand name characters and escapes. */
  ghost predicate Name(s: string, p: int, q: int)
    decreases q - p
  {
    0 <= p <= q <= |s| &&
    (p == q || (IsName(s[p]) && Name(s, p + 1, q)) || exists r :: p < r <= q && Escape(s, p, r) && Name(s, r, q))
  }

  /** A name from `p` to `q` that does not go on */
  ghost predicate WholeName(s: string, p: int, q: int) {
    Name(s, p, q) && (q < |s| ==> !IsName(s[q])) && forall r :: !Escape(s, q, r)
  }

  lemma {:induction false} NameFound(s: string, p: nat)
    requires p <= |s|
    ensures WholeName(s, p, NameEnd(s, p))
    decreases |s| - p
  {
    var q := EscapeEnd(s, p);
    EscapeFound(s, p, q);
    if p < |s| && IsName(s[p]) {
      NameFound(s, p + 1);
    } else if q > p {
      NameFound(s, q);
    } else {
      forall r ensures !Escape(s, p, r) { EscapeFound(s, p, r); }
    }
  }

  // ---------- strings and comments ----------

  /** From `p` to `q` stands what a string may hold: escapes, and characters other than its quote, newlines and
      backslashes. */
  ghost predicate Content(s: string, p: int, q: int, quote: char)
    decreases q - p
  {
    0 <= p <= q <= |s| &&
    (p == q || (s[p] != quote && s[p] != '\\' && !IsNewline(s[p]) && Content(s, p + 1, q, quote)) ||
     exists r :: p < r <= q && Escape(s, p, r) && Content(s, r, q, quote))
  }

  /** What stands behind the content of a string: its quote, the end of the input, a newline, or a backslash before
      one. */
  ghost predicate Closes(s: string, q: int, end: int, quote: char, ok: bool) {
    && 0 <= q <= |s|
    && if q == |s| then end == q && ok
       else end == q + 1 && (if s[q] == quote then ok
                             else !ok && (IsNewline(s[q]) || (s[q] == '\\' && q + 1 < |s| && IsNewline(s[q + 1]))))
  }

  lemma {:induction false} StringFound(s: string, p: nat, quote: char)
    requires p <= |s| && quote != '\\' && !IsNewline(quote)
    ensures var r := StringEnd(s, p, quote); Content(s, p, r.content, quote) && Closes(s, r.content, r.end, quote, r.ok)
    decreases |s| - p
  {
    if p == |s| || s[p] == quote || IsNewline(s[p]) {
    } else if s[p] == '\\' {
      var q := EscapeEnd(s, p);
      EscapeFound(s, p, q);
      if q > p { StringFound(s, q, quote); }
    } else {
      StringFound(s, p + 1, quote);
    }
  }

  /** A comment from `p` to `q`: it ends behind the first asterisk and slash behind its opening, or with the input. */
  ghost predicate Comment(s: string, p: int, q: int) {
    && 0 <= p && p + 2 <= q <= |s| && s[p] == '/' && s[p + 1] == '*'
    && (forall i :: p + 2 <= i < q - 2 ==> !EndsComment(s, i))
    && ((p + 4 <= q && EndsComment(s, q - 2)) || (q == |s| && forall i :: p + 2 <= i < q ==> !EndsComment(s, i)))
  }

  predicate EndsComment(s: string, i: int) {
    0 <= i && i + 1 < |s| && s[i] == '*' && s[i + 1] == '/'
  }

  lemma {:induction false} CommentFound(s: string, p: nat, i: nat)
    requires StartsComment(s, p) && p + 2 <= i <= |s| && forall k :: p + 2 <= k < i ==> !EndsComment(s, k)
    ensures Comment(s, p, CommentEnd(s, i))
    decreases |s| - i
  {
    if i + 1 < |s| && !EndsComment(s, i) { CommentFound(s, p, i + 1); }
  }

  // ---------- components ----------

  /** The text between two positions */
  predicate Reads(s: string, p: int, q: int, text: string) {
    0 <= p <= q <= |s| && s[p..q] == text
  }

  /** A numeric component is its number and its value.  Its number is the longest numeral there; a percent sign behind
      it makes a percentage, a whole name makes a dimension, and otherwise it is a plain number. */
  ghost predicate TellsNumeric(s: string, c: Component) {
    var n := c.start + |c.number|;
    && 0 <= c.start <= n <= c.end <= |s| && Reads(s, c.start, n, c.number) && Reads(s, n, c.end, c.value)
    && NumeralTo(s, c.start, n) && (forall e :: NumeralTo(s, c.start, e) ==> e <= n)
    && (c.kind == Percentage <==> c.value == "%") && (c.kind == Number <==> c.value == "")
    && (c.kind == Percentage || n == |s| || s[n] != '%')
    && (c.kind == Number ==> !UnitStarts(s, n)) && (c.kind == Dimension ==> UnitStarts(s, n) && WholeName(s, n, c.end))
    && c.delimiter == NUL && c.children == []
  }

  predicate UnitStarts(s: string, p: int) {
    0 <= p < |s| && (IsNameStart(s[p]) || s[p] == '-' || s[p] == '\\')
  }

  /** A component that is a name behind `mark` */
  ghost predicate TellsName(s: string, c: Component, mark: string) {
    var n := c.start + |mark|;
    && 0 <= c.start <= n <= c.end <= |s| && Reads(s, c.start, n, mark) && Reads(s, n, c.end, c.value) && c.value != ""
    && WholeName(s, n, c.end) && c.number == "" && c.delimiter == NUL && c.children == []
  }

  ghost predicate TellsString(s: string, c: Component) {
    && 0 <= c.start < c.end <= |s| && (s[c.start] == '"' || s[c.start] == '\'') && c.delimiter == s[c.start]
    && (var q := c.start + 1 + |c.value|;
        Reads(s, c.start + 1, q, c.value) && Content(s, c.start + 1, q, c.delimiter) &&
        exists ok :: Closes(s, q, c.end, c.delimiter, ok))
    && c.number == "" && c.children == []
  }

  ghost predicate TellsSpace(s: string, c: Component) {
    && 0 <= c.start < c.end <= |s| && (forall i :: c.start <= i < c.end ==> IsSpace(s[i]))
    && (c.end == |s| || !IsSpace(s[c.end])) && c == Plain(Space, c.start, c.end)
  }

  /** A single character that begins nothing longer */
  ghost predicate TellsMark(s: string, c: Component, kind: Kind) {
    && 0 <= c.start < |s| && c == Plain(kind, c.start, c.start + 1).(delimiter := s[c.start])
    && (kind == Colon <==> s[c.start] == ':') && (kind == Semicolon <==> s[c.start] == ';')
    && (kind == Comma <==> s[c.start] == ',') && IsMark(s, c.start)
  }

  /** No space, quote, numeral, name, at-keyword, hash, comment or bracket begins here. */
  ghost predicate IsMark(s: string, p: nat)
    requires p < |s|
  {
    && !IsSpace(s[p]) && s[p] != '"' && s[p] != '\'' && (forall e :: !NumeralTo(s, p, e)) && !UnitStarts(s, p)
    && !(s[p] == '@' && UnitStarts(s, p + 1)) && !(s[p] == '#' && p + 1 < |s| && IsName(s[p + 1]))
    && !IsOpener(s[p]) && !IsCloser(s[p]) && !(s[p] == '/' && p + 1 < |s| && s[p + 1] == '*')
  }

  /** Comments, and closing brackets that close nothing if `stray` */
  ghost predicate Gap(s: string, p: int, q: int, stray: bool)
    decreases q - p
  {
    0 <= p <= q <= |s| &&
    (p == q || (stray && IsCloser(s[p]) && Gap(s, p + 1, q, stray)) ||
     exists r :: p < r <= q && Comment(s, p, r) && Gap(s, r, q, stray))
  }

  /** The end of a list: that of the input, or behind a closing bracket. */
  ghost predicate ListEnds(s: string, q: int, end: int, closing: Option<char>) {
    (q == |s| && end == q) || (closing.Some? && 0 <= q < |s| && end == q + 1 && IsCloser(s[q]))
  }

  /** What a component tells is what its text says, and so for every component in it. */
  ghost predicate Tells(s: string, c: Component)
    decreases c, 0
  {
    match c.kind
    case Number => TellsNumeric(s, c)
    case Percentage => TellsNumeric(s, c)
    case Dimension => TellsNumeric(s, c)
    case Space => TellsSpace(s, c)
    case Str => TellsString(s, c)
    case AtKeyword => TellsName(s, c, "@") && UnitStarts(s, c.start + 1)
    case Hash => TellsName(s, c, "#") && IsName(s[c.start + 1])
    case Ident => TellsName(s, c, "") && UnitStarts(s, c.start) && (forall e :: !NumeralTo(s, c.start, e)) &&
                  (c.end == |s| || s[c.end] != '(')
    case Function =>
      var q := c.start + |c.value|;
      && 0 <= c.start < q < c.end <= |s| && Reads(s, c.start, q, c.value) && WholeName(s, c.start, q) && s[q] == '('
      && UnitStarts(s, c.start) && (forall e :: !NumeralTo(s, c.start, e)) && c.number == "" && c.delimiter == ')'
      && TellList(s, q + 1, c.children, c.end, Some(')'))
    case Block =>
      && 0 <= c.start < c.end <= |s| && IsOpener(s[c.start]) && c.value == "" && c.number == ""
      && c.delimiter == (if s[c.start] == '(' then ')' else if s[c.start] == '[' then ']' else '}')
      && TellList(s, c.start + 1, c.children, c.end, Some(c.delimiter))
    case _ => TellsMark(s, c, c.kind)
  }

  /** The components of a list tell what their text says, and nothing stands between them but comments. */
  ghost predicate TellList(s: string, p: int, list: seq<Component>, end: int, closing: Option<char>)
    decreases list, 1
  {
    if list == [] then exists q :: Gap(s, p, q, closing.None?) && ListEnds(s, q, end, closing)
    else
      && Gap(s, p, list[0].start, closing.None?) && Tells(s, list[0])
      && TellList(s, list[0].end, list[1..], end, closing)
  }

  // ---------- the parser's components ----------

  lemma UnitIsName(s: string, p: nat)
    requires StartsUnit(s, p) && Ready(s, NameEnd(s, p))
    ensures NameEnd(s, p) > p
  {
    if NameEnd(s, p) == p { BehindToken(s, p); }
  }

  predicate IsNumeric(kind: Kind) {
    kind == Number || kind == Percentage || kind == Dimension
  }

  lemma UnitTells(s: string, n: nat, c: Component)
    requires StartsUnit(s, n) && Ready(s, NameEnd(s, n)) && Reads(s, n, NameEnd(s, n), c.value)
    ensures WholeName(s, n, NameEnd(s, n)) && c.value != "" && c.value[0] == s[n]
  {
    NameFound(s, n);
    UnitIsName(s, n);
  }

  /** What stands behind the numeral, by the kind of the component */
  lemma NumericParts(s: string, p: nat, n: nat, c: Component)
    requires StartsNumber(s, p) && c == NumericAt(s, p).component && n == NumberEnd(s, p)
    ensures c.start == p < n <= c.end <= |s| && n == p + |c.number| && c.delimiter == NUL && c.children == []
    ensures Reads(s, p, n, c.number) && Reads(s, n, c.end, c.value) && IsNumeric(c.kind)
    ensures c.kind == Percentage ==> c.value == "%"
    ensures c.kind == Number ==> c.value == "" && !UnitStarts(s, n) && (n == |s| || s[n] != '%')
    ensures c.kind == Dimension ==> StartsUnit(s, n) && s[n] != '%' && c.end == NameEnd(s, n)
    ensures c.end == NumericAt(s, p).end
  {
    NumberAdvances(s, p);
  }

  lemma NumericTells(s: string, p: nat, c: Component)
    requires StartsNumber(s, p) && Ready(s, NumericAt(s, p).end) && c == NumericAt(s, p).component
    ensures TellsNumeric(s, c) && IsNumeric(c.kind)
  {
    var n := NumberEnd(s, p);
    NumericParts(s, p, n, c);
    NumberIsNumeral(s, p);
    forall e | NumeralTo(s, p, e) ensures e <= n { NumberIsLongest(s, p, e); }
    if c.kind == Dimension {
      UnitTells(s, n, c);
    }
  }

  lemma NoNumeral(s: string, p: nat)
    requires p <= |s| && !StartsNumber(s, p)
    ensures forall e :: !NumeralTo(s, p, e)
  {
    forall e ensures !NumeralTo(s, p, e) {
      if NumeralTo(s, p, e) { NumberIsLongest(s, p, e); }
    }
  }

  lemma StringTells(s: string, p: nat)
    requires p < |s| && (s[p] == '"' || s[p] == '\'')
    ensures TellsString(s, StringAt(s, p).component)
  {
    StringFound(s, p + 1, s[p]);
  }

  lemma NameTells(s: string, p: nat, mark: string, c: Component)
    requires |mark| <= 1 && p + |mark| < |s| && s[p..p + |mark|] == mark && NameEnd(s, p + |mark|) > p + |mark|
    requires c == Plain(c.kind, p, NameEnd(s, p + |mark|)).(value := s[p + |mark|..NameEnd(s, p + |mark|)])
    ensures TellsName(s, c, mark)
  {
    NameFound(s, p + |mark|);
  }

  /** A token that begins with a space, a quote or a numeral */
  lemma FlatTells(s: string, p: nat, c: Component)
    requires p < |s| && Ready(s, p) && !StartsComment(s, p) && c == Consume(s, p).component
    requires IsSpace(s[p]) || s[p] == '"' || s[p] == '\'' || StartsNumber(s, p)
    ensures Tells(s, c) && Ready(s, c.end)
  {
    if IsSpace(s[p]) {
      assert TellsSpace(s, c);
    } else if s[p] == '"' || s[p] == '\'' {
      StringTells(s, p);
    } else {
      NumericTells(s, p, c);
    }
  }

  /** None of these begins here. */
  predicate NotFlat(s: string, p: nat)
    requires p < |s|
  {
    !IsSpace(s[p]) && s[p] != '"' && s[p] != '\'' && !StartsNumber(s, p)
  }

  lemma MarkedTells(s: string, p: nat, c: Component)
    requires p < |s| && Ready(s, p) && !StartsComment(s, p) && c == Consume(s, p).component
    requires NotFlat(s, p) && (StartsAt(s, p) || StartsHash(s, p))
    ensures Tells(s, c)
  {
    if StartsAt(s, p) {
      UnitIsName(s, p + 1);
      NameTells(s, p, "@", c);
    } else {
      NameTells(s, p, "#", c);
    }
  }

  lemma IdentTells(s: string, p: nat, c: Component)
    requires p < |s| && Ready(s, p) && !StartsComment(s, p) && c == Consume(s, p).component
    requires NotFlat(s, p) && !StartsAt(s, p) && !StartsHash(s, p) && StartsIdent(s, p) && c.kind == Ident
    ensures Tells(s, c)
  {
    UnitIsName(s, p);
    NameTells(s, p, "", c);
    NoNumeral(s, p);
  }

  lemma MarkTells(s: string, p: nat, c: Component)
    requires p < |s| && Ready(s, p) && !StartsComment(s, p) && c == Consume(s, p).component
    requires NotFlat(s, p) && !StartsAt(s, p) && !StartsHash(s, p) && !StartsIdent(s, p) && !IsOpener(s[p]) && !IsCloser(s[p])
    ensures Tells(s, c)
  {
    NoNumeral(s, p);
    assert IsMark(s, p);
  }

  /** What stands before a list may begin with one more comment or stray bracket. */
  lemma GapBefore(s: string, p: nat, m: nat, list: seq<Component>, end: int, closing: Option<char>)
    requires p < m <= |s| && TellList(s, m, list, end, closing)
    requires Comment(s, p, m) || (closing.None? && IsCloser(s[p]) && m == p + 1)
    ensures TellList(s, p, list, end, closing)
  {
    if list == [] {
      var q :| Gap(s, m, q, closing.None?) && ListEnds(s, q, end, closing);
      assert Gap(s, p, q, closing.None?);
    } else {
      assert Gap(s, p, list[0].start, closing.None?);
    }
  }

  /** Every component that the parser returns, at every depth, tells what its text says. */
  lemma {:induction false} ConsumeTells(s: string, p: nat, r: One)
    requires p < |s| && Ready(s, p) && !StartsComment(s, p) && !IsCloser(s[p]) && r == Consume(s, p)
    ensures Tells(s, r.component)
    decreases |s| - p, 0
  {
    if !NotFlat(s, p) {
      FlatTells(s, p, r.component);
    } else if StartsAt(s, p) || StartsHash(s, p) {
      MarkedTells(s, p, r.component);
    } else if StartsIdent(s, p) {
      if r.component.kind == Ident { IdentTells(s, p, r.component); } else { FunctionTells(s, p, r); }
    } else if IsOpener(s[p]) {
      BehindBracket(s, p);
      ListTells(s, p + 1, Some(Closer(s[p])), ParseList(s, p + 1, Some(Closer(s[p]))));
    } else {
      MarkTells(s, p, r.component);
    }
  }

  lemma {:induction false} FunctionTells(s: string, p: nat, r: One)
    requires p < |s| && Ready(s, p) && !StartsComment(s, p) && r == Consume(s, p) && NotFlat(s, p)
    requires !StartsAt(s, p) && !StartsHash(s, p) && StartsIdent(s, p) && r.component.kind != Ident
    ensures Tells(s, r.component)
    decreases |s| - p - 1, 2
  {
    BehindToken(s, p);
    var q := NameEnd(s, p);
    BehindBracket(s, q);
    NameFound(s, p);
    NoNumeral(s, p);
    ListTells(s, q + 1, Some(')'), ParseList(s, q + 1, Some(')')));
  }

  lemma {:induction false} ListTells(s: string, p: nat, closing: Option<char>, r: Many)
    requires p <= |s| && Ready(s, p) && (closing.Some? ==> IsCloser(closing.value)) && r == ParseList(s, p, closing)
    ensures TellList(s, p, r.list, r.end, closing)
    decreases |s| - p, 1
  {
    if p == |s| {
      assert Gap(s, p, p, closing.None?) && ListEnds(s, p, r.end, closing);
    } else if StartsComment(s, p) {
      BehindToken(s, p);
      CommentFound(s, p, p + 2);
      ListTells(s, CommentEnd(s, p + 2), closing, r);
      GapBefore(s, p, CommentEnd(s, p + 2), r.list, r.end, closing);
    } else if IsCloser(s[p]) {
      BehindBracket(s, p);
      if closing.Some? {
        assert Gap(s, p, p, closing.None?) && ListEnds(s, p, r.end, closing);
      } else {
        var rest := ParseList(s, p + 1, closing);
        ListTells(s, p + 1, closing, rest);
        GapBefore(s, p, p + 1, rest.list, rest.end, closing);
      }
    } else {
      var one := Consume(s, p);
      var rest := ParseList(s, one.end, closing);
      ConsumeTells(s, p, one);
      ListTells(s, one.end, closing, rest);
      assert r.list[1..] == rest.list && Gap(s, p, p, closing.None?);
    }
  }
}
