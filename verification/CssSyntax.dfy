/**
 The component-value parser of src/css_syntax.c (CSS Syntax Module Level 3, sections 5.4.7 to 5.4.9): what
 it reads at each position of the input, as functions, and the parser object itself, whose methods move
 `offset` and `valid` exactly as those functions say.

 A `char` stands for one byte of the input.
 */
module CssSyntax {
  import opened Common
  import opened Strings
  import opened Locks

  // ---------- characters ----------

  predicate IsNewline(c: char) {
    c == '\n' || c == '\r' || c == '\U{000C}'
  }

  predicate IsHex(c: char) {
    IsDigit(c) || 'a' <= c <= 'f' || 'A' <= c <= 'F'
  }

  predicate IsNameStart(c: char) {
    'a' <= c <= 'z' || 'A' <= c <= 'Z' || c == '_' || c as int >= 0x80
  }

  predicate IsName(c: char) {
    IsNameStart(c) || IsDigit(c) || c == '-'
  }

  predicate IsCloser(c: char) {
    c == ')' || c == ']' || c == '}'
  }

  predicate IsOpener(c: char) {
    c == '(' || c == '[' || c == '{'
  }

  function Closer(c: char): char {
    if c == '(' then ')' else if c == '[' then ']' else '}'
  }

  // ---------- where each lexical form ends ----------

  function HexEnd(s: string, p: nat, most: nat): (q: nat)
    requires p <= |s|
    ensures p <= q <= |s| && q - p <= most
    ensures forall i :: p <= i < q ==> IsHex(s[i])
    ensures q < |s| && q - p < most ==> !IsHex(s[q])
    decreases most
  {
    if p < |s| && most > 0 && IsHex(s[p]) then HexEnd(s, p + 1, most - 1) else p
  }

  /** css_syntax_escape_end: the end of an escape sequence, or `p` itself if none starts there. */
  function EscapeEnd(s: string, p: nat): (q: nat)
    requires p <= |s|
    ensures p <= q <= |s|
    ensures q == p <==> p == |s| || s[p] != '\\' || (p + 1 < |s| && IsNewline(s[p + 1]))
  {
    if p == |s| || s[p] != '\\' then p
    else if p + 1 == |s| then p + 1
    else if IsHex(s[p + 1]) then
      var q := HexEnd(s, p + 1, 6);
      if q < |s| && IsSpace(s[q]) then q + 1 else q
    else if IsNewline(s[p + 1]) then p
    else p + 2
  }

  /** css_syntax_name_end */
  function NameEnd(s: string, p: nat): (q: nat)
    requires p <= |s|
    ensures p <= q <= |s|
    decreases |s| - p
  {
    if p < |s| && IsName(s[p]) then NameEnd(s, p + 1)
    else
      var q := EscapeEnd(s, p);
      if q == p then p else NameEnd(s, q)
  }

  function DigitsEnd(s: string, p: nat): (q: nat)
    requires p <= |s|
    ensures p <= q <= |s|
    ensures forall i :: p <= i < q ==> IsDigit(s[i])
    ensures q < |s| ==> !IsDigit(s[q])
    decreases |s| - p
  {
    if p < |s| && IsDigit(s[p]) then DigitsEnd(s, p + 1) else p
  }

  /** css_syntax_starts_number */
  predicate StartsNumber(s: string, p: nat) {
    && p < |s|
    && (var digit := (i: nat) => i < |s| && IsDigit(s[i]);
        if s[p] == '.' then digit(p + 1)
        else if s[p] == '+' || s[p] == '-' then digit(p + 1) || (p + 1 < |s| && s[p + 1] == '.' && digit(p + 2))
        else digit(p))
  }

  function FractionEnd(s: string, p: nat): (q: nat)
    requires p <= |s|
    ensures p <= q <= |s|
  {
    if p + 1 < |s| && s[p] == '.' && IsDigit(s[p + 1]) then DigitsEnd(s, p + 1) else p
  }

  function SignEnd(s: string, p: nat): (q: nat)
    requires p <= |s|
    ensures p <= q <= |s|
  {
    if p < |s| && (s[p] == '+' || s[p] == '-') then p + 1 else p
  }

  function ExponentEnd(s: string, p: nat): (q: nat)
    requires p <= |s|
    ensures p <= q <= |s|
  {
    if p < |s| && (s[p] == 'e' || s[p] == 'E') then
      var e := SignEnd(s, p + 1);
      if e < |s| && IsDigit(s[e]) then DigitsEnd(s, e) else p
    else p
  }

  /** css_syntax_number_end */
  function NumberEnd(s: string, p: nat): (q: nat)
    requires p <= |s|
    ensures p <= q <= |s|
  {
    ExponentEnd(s, FractionEnd(s, DigitsEnd(s, SignEnd(s, p))))
  }

  function SpaceEnd(s: string, p: nat): (q: nat)
    requires p <= |s|
    ensures p <= q <= |s|
    ensures forall i :: p <= i < q ==> IsSpace(s[i])
    ensures q < |s| ==> !IsSpace(s[q])
    decreases |s| - p
  {
    if p < |s| && IsSpace(s[p]) then SpaceEnd(s, p + 1) else p
  }

  predicate StartsComment(s: string, p: nat) {
    p + 1 < |s| && s[p] == '/' && s[p + 1] == '*'
  }

  /** Where the text of a comment that has been opened before `p` ends. */
  function CommentEnd(s: string, p: nat): (q: nat)
    requires p <= |s|
    ensures p <= q <= |s|
    decreases |s| - p
  {
    if p + 1 >= |s| then |s|
    else if s[p] == '*' && s[p + 1] == '/' then p + 2
    else CommentEnd(s, p + 1)
  }

  /** The end of a string whose content goes on at `p`, the end of its content, and whether the string is
      free of raw newlines. */
  datatype Quoted = Quoted(end: nat, content: nat, ok: bool)

  function StringEnd(s: string, p: nat, quote: char): (r: Quoted)
    requires p <= |s|
    ensures p <= r.content <= r.end <= |s|
    decreases |s| - p
  {
    if p == |s| then Quoted(p, p, true)
    else if s[p] == quote then Quoted(p + 1, p, true)
    else if IsNewline(s[p]) then Quoted(p + 1, p, false)
    else if s[p] == '\\' && p + 1 < |s| then
      var q := EscapeEnd(s, p);
      if q == p then Quoted(p + 1, p, false) else StringEnd(s, q, quote)
    else StringEnd(s, p + 1, quote)
  }

  // ---------- components ----------

  datatype Kind =
    | Space | Str | Number | Percentage | Dimension | Ident | Function | AtKeyword | Hash | Block
    | Colon | Semicolon | Comma | Delim

  /** ns_css_component.  `number` is the text of a numeric token; its value is left to strtod. */
  datatype Component = Component(kind: Kind, start: nat, end: nat, value: string, number: string,
                                 delimiter: char, children: seq<Component>)

  const NUL := 0 as char

  function Plain(kind: Kind, start: nat, end: nat): Component {
    Component(kind, start, end, "", "", NUL, [])
  }

  datatype One = One(component: Component, end: nat, ok: bool)
  datatype Many = Many(list: seq<Component>, end: nat, ok: bool)

  function StringAt(s: string, p: nat): (r: One)
    requires p < |s| && (s[p] == '"' || s[p] == '\'')
    ensures p < r.end <= |s| && r.component.start == p && r.component.end == r.end
  {
    var q := StringEnd(s, p + 1, s[p]);
    One(Plain(Str, p, q.end).(value := s[p + 1..q.content], delimiter := s[p]), q.end, q.ok)
  }

  predicate StartsUnit(s: string, p: nat) {
    p < |s| && (IsNameStart(s[p]) || s[p] == '-' || s[p] == '\\')
  }

  function NumericAt(s: string, p: nat): (r: One)
    requires StartsNumber(s, p)
    ensures p < r.end <= |s| && r.component.start == p && r.component.end == r.end
  {
    NumberAdvances(s, p);
    var n := NumberEnd(s, p);
    var kind, end :=
      if n < |s| && s[n] == '%' then Percentage else if StartsUnit(s, n) then Dimension else Number,
      if n < |s| && s[n] == '%' then n + 1 else if StartsUnit(s, n) then NameEnd(s, n) else n;
    One(Plain(kind, p, end).(number := s[p..n], value := s[n..end]), end, true)
  }

  lemma NumberAdvances(s: string, p: nat)
    requires StartsNumber(s, p)
    ensures NumberEnd(s, p) > p
  {
  }

  /** What consume does with the first character of a token that it did not take for anything longer. */
  function DelimKind(c: char): Kind {
    if c == ':' then Colon else if c == ';' then Semicolon else if c == ',' then Comma else Delim
  }

  predicate StartsAt(s: string, p: nat) {
    p < |s| && s[p] == '@' && StartsUnit(s, p + 1)
  }

  predicate StartsHash(s: string, p: nat) {
    p + 1 < |s| && s[p] == '#' && IsName(s[p + 1])
  }

  predicate StartsIdent(s: string, p: nat) {
    p < |s| && (IsNameStart(s[p]) || s[p] == '-' || s[p] == '\\')
  }

  /** Where the token at `p` ends, if every bracket is taken for a token of its own. */
  function TokenEnd(s: string, p: nat): (q: nat)
    requires p < |s|
    ensures p <= q <= |s|
    ensures q == p <==> s[p] == '\\' && p + 1 < |s| && IsNewline(s[p + 1])
  {
    if StartsComment(s, p) then CommentEnd(s, p + 2)
    else if IsSpace(s[p]) then SpaceEnd(s, p + 1)
    else if s[p] == '"' || s[p] == '\'' then StringAt(s, p).end
    else if StartsNumber(s, p) then NumericAt(s, p).end
    else if StartsAt(s, p) || StartsHash(s, p) then NameEnd(s, p + 1)
    else if StartsIdent(s, p) then NameEnd(s, p)
    else p + 1
  }

  /** From `p` on, no token begins with a backslash and a newline.  Such a token is empty, and then the loop of
      parse_list adds empty components for ever, so callers must not pass an input that comes to one.  In
      comments and strings the pair does no harm. */
  predicate Unstuck(s: string, p: nat)
    requires p <= |s|
    decreases |s| - p
  {
    p == |s| || (TokenEnd(s, p) > p && Unstuck(s, TokenEnd(s, p)))
  }

  /** The same, under a key. */
  ghost predicate Ready(s: string, p: nat)
    requires p <= |s|
  {
    forall key {:trigger Open(key)} :: Key(key) ==> Unstuck(s, p)
  }

  lemma BehindToken(s: string, p: nat)
    requires p < |s| && Ready(s, p)
    ensures TokenEnd(s, p) > p && Ready(s, TokenEnd(s, p))
  {
    assert Open(true);
  }

  lemma BehindBracket(s: string, p: nat)
    requires p < |s| && (IsOpener(s[p]) || IsCloser(s[p])) && Ready(s, p)
    ensures Ready(s, p + 1)
  {
    BehindToken(s, p);
  }

  /** It is enough that the pair is nowhere in the input. */
  lemma {:induction false} NoPairUnstuck(s: string, p: nat)
    requires p <= |s| && forall i :: 0 <= i < |s| - 1 && s[i] == '\\' ==> !IsNewline(s[i + 1])
    ensures Unstuck(s, p)
    decreases |s| - p
  {
    if p < |s| { NoPairUnstuck(s, TokenEnd(s, p)); }
  }

  /** css_syntax_consume */
  function Consume(s: string, p: nat): (r: One)
    requires p < |s| && Ready(s, p) && !StartsComment(s, p)
    ensures p < r.end <= |s| && r.component.start == p && r.component.end == r.end && Ready(s, r.end)
    decreases |s| - p, 0
  {
    BehindToken(s, p);
    if IsSpace(s[p]) then One(Plain(Space, p, SpaceEnd(s, p + 1)), SpaceEnd(s, p + 1), true)
    else if s[p] == '"' || s[p] == '\'' then StringAt(s, p)
    else if StartsNumber(s, p) then NumericAt(s, p)
    else if StartsAt(s, p) then
      var q := NameEnd(s, p + 1);
      One(Plain(AtKeyword, p, q).(value := s[p + 1..q]), q, true)
    else if StartsHash(s, p) then
      var q := NameEnd(s, p + 1);
      One(Plain(Hash, p, q).(value := s[p + 1..q]), q, true)
    else if StartsIdent(s, p) then
      var q := NameEnd(s, p);
      if q < |s| && s[q] == '(' then
        BehindBracket(s, q);
        var r := ParseList(s, q + 1, Some(')'));
        One(Component(Function, p, r.end, s[p..q], "", ')', r.list), r.end, r.ok)
      else One(Plain(Ident, p, q).(value := s[p..q]), q, true)
    else if IsOpener(s[p]) then
      BehindBracket(s, p);
      var r := ParseList(s, p + 1, Some(Closer(s[p])));
      One(Component(Block, p, r.end, "", "", Closer(s[p]), r.list), r.end, r.ok)
    else One(Plain(DelimKind(s[p]), p, p + 1).(delimiter := s[p]), p + 1, true)
  }

  /** css_syntax_parse_list */
  function ParseList(s: string, p: nat, closing: Option<char>): (r: Many)
    requires p <= |s| && Ready(s, p) && (closing.Some? ==> IsCloser(closing.value))
    ensures p <= r.end <= |s| && Ready(s, r.end)
    ensures p < |s| ==> p < r.end
    decreases |s| - p, 1
  {
    if p == |s| then Many([], p, true)
    else if StartsComment(s, p) then
      BehindToken(s, p);
      ParseList(s, CommentEnd(s, p + 2), closing)
    else if closing == Some(s[p]) then
      BehindBracket(s, p);
      Many([], p + 1, true)
    else if IsCloser(s[p]) then
      BehindBracket(s, p);
      if closing.Some? then Many([], p + 1, false) else ParseList(s, p + 1, closing).(ok := false)
    else
      var one := Consume(s, p);
      var rest := ParseList(s, one.end, closing);
      Many([one.component] + rest.list, rest.end, one.ok && rest.ok)
  }

  // ---------- the loops behind these functions ----------

  method FindEscapeEnd(s: string, p: nat) returns (q: nat)
    requires p <= |s|
    ensures q == EscapeEnd(s, p)
  {
    if p == |s| || s[p] != '\\' { return p; }
    q := p + 1;
    if q == |s| { return; }
    if IsHex(s[q]) {
      var digits := 0;
      while q < |s| && digits < 6 && IsHex(s[q])
        invariant q <= |s| && digits <= 6
        invariant HexEnd(s, q, 6 - digits) == HexEnd(s, p + 1, 6)
      {
        q := q + 1;
        digits := digits + 1;
      }
      if q < |s| && IsSpace(s[q]) { q := q + 1; }
      return;
    }
    if IsNewline(s[q]) { return p; }
    q := q + 1;
  }

  method FindNameEnd(s: string, p: nat) returns (q: nat)
    requires p <= |s|
    ensures q == NameEnd(s, p)
  {
    q := p;
    while q < |s|
      invariant p <= q <= |s| && NameEnd(s, q) == NameEnd(s, p)
    {
      if IsName(s[q]) {
        q := q + 1;
      } else if s[q] == '\\' {
        var next := FindEscapeEnd(s, q);
        if next == q { break; }
        q := next;
      } else {
        break;
      }
    }
  }

  method SkipDigits(s: string, p: nat) returns (q: nat)
    requires p <= |s|
    ensures q == DigitsEnd(s, p)
  {
    q := p;
    while q < |s| && IsDigit(s[q])
      invariant p <= q <= |s| && DigitsEnd(s, q) == DigitsEnd(s, p)
    {
      q := q + 1;
    }
  }

  method FindNumberEnd(s: string, p: nat) returns (q: nat)
    requires p <= |s|
    ensures q == NumberEnd(s, p)
  {
    q := p;
    if q < |s| && (s[q] == '+' || s[q] == '-') { q := q + 1; }
    q := SkipDigits(s, q);
    if q + 1 < |s| && s[q] == '.' && IsDigit(s[q + 1]) {
      q := SkipDigits(s, q + 1);
    }
    q := SkipExponent(s, q);
  }

  method SkipExponent(s: string, p: nat) returns (q: nat)
    requires p <= |s|
    ensures q == ExponentEnd(s, p)
  {
    q := p;
    if q < |s| && (s[q] == 'e' || s[q] == 'E') {
      var exponent := q + 1;
      if exponent < |s| && (s[exponent] == '+' || s[exponent] == '-') { exponent := exponent + 1; }
      if exponent < |s| && IsDigit(s[exponent]) {
        q := SkipDigits(s, exponent + 1);
      }
    }
  }

  // ---------- the parser object ----------

  class Parser {
    const input: string
    var offset: nat
    var valid: bool

    constructor (input: string)
      ensures this.input == input && offset == 0 && valid
    {
      this.input, offset, valid := input, 0, true;
    }

    ghost predicate Valid()
      reads this
    {
      offset <= |input| && Ready(input, offset)
    }

    /** css_syntax_skip_comment */
    method SkipComment()
      requires Valid() && StartsComment(input, offset)
      modifies this`offset
      ensures Valid() && offset == CommentEnd(input, old(offset) + 2)
    {
      BehindToken(input, offset);
      offset := offset + 2;
      while offset + 1 < |input| && !(input[offset] == '*' && input[offset + 1] == '/')
        invariant offset <= |input|
        invariant CommentEnd(input, offset) == CommentEnd(input, old(offset) + 2)
      {
        offset := offset + 1;
      }
      offset := if offset + 1 < |input| then offset + 2 else |input|;
    }

    /** One round of the loop of css_syntax_consume_string: the text it adds, and whether it goes on. */
    method ReadPiece(quote: char) returns (piece: string, more: bool)
      requires offset < |input|
      modifies this
      ensures old(offset) < offset <= |input|
      ensures more ==> valid == old(valid) && piece == input[old(offset)..offset] &&
                       StringEnd(input, old(offset), quote) == StringEnd(input, offset, quote)
      ensures !more ==> piece == "" && var r := StringEnd(input, old(offset), quote);
                        r.end == offset && r.content == old(offset) && valid == (old(valid) && r.ok)
    {
      var ch := input[offset];
      offset := offset + 1;
      if ch == quote { return "", false; }
      if IsNewline(ch) {
        valid := false;
        return "", false;
      }
      if ch == '\\' && offset < |input| {
        var escape := offset - 1;
        var next := FindEscapeEnd(input, escape);
        if next == escape {
          valid := false;
          return "", false;
        }
        offset := next;
        return input[escape..next], true;
      }
      return [ch], true;
    }

    method ReadString(quote: char) returns (value: string)
      requires offset <= |input|
      modifies this
      ensures offset <= |input| && var r := StringEnd(input, old(offset), quote);
              offset == r.end && value == input[old(offset)..r.content] && valid == (old(valid) && r.ok)
    {
      value := "";
      while offset < |input|
        invariant old(offset) <= offset <= |input| && valid == old(valid)
        invariant value == input[old(offset)..offset]
        invariant StringEnd(input, offset, quote) == StringEnd(input, old(offset), quote)
        decreases |input| - offset
      {
        ghost var here := offset;
        var piece, more := ReadPiece(quote);
        if !more { return; }
        Extend(input, old(offset), here, offset);
        value := value + piece;
      }
    }

    /** css_syntax_consume_string */
    method ConsumeString() returns (c: Component)
      requires Valid() && offset < |input| && (input[offset] == '"' || input[offset] == '\'')
      modifies this
      ensures Valid() && var r := StringAt(input, old(offset));
              c == r.component && offset == r.end && valid == (old(valid) && r.ok)
    {
      var start, quote := offset, input[offset];
      BehindToken(input, start);
      offset := offset + 1;
      var value := ReadString(quote);
      c := Plain(Str, start, offset).(value := value, delimiter := quote);
    }

    /** css_syntax_consume_numeric */
    method ConsumeNumeric() returns (c: Component)
      requires Valid() && StartsNumber(input, offset) && !IsSpace(input[offset])
      requires input[offset] != '"' && input[offset] != '\''
      modifies this`offset
      ensures Valid() && var r := NumericAt(input, old(offset)); c == r.component && offset == r.end && r.ok
    {
      var start := offset;
      BehindToken(input, start);
      var numberEnd := FindNumberEnd(input, start);
      var kind, end := Number, numberEnd;
      if end < |input| && input[end] == '%' {
        kind, end := Percentage, end + 1;
      } else if end < |input| && (IsNameStart(input[end]) || input[end] == '-' || input[end] == '\\') {
        kind := Dimension;
        end := FindNameEnd(input, end);
      }
      c := Plain(kind, start, end).(number := input[start..numberEnd], value := input[numberEnd..end]);
      offset := end;
    }

    /** css_syntax_consume_ident, called at an identifier, an at-keyword or a hash */
    method ConsumeIdent(at: bool, hash: bool) returns (c: Component)
      requires Valid() && offset < |input| && !StartsComment(input, offset)
      requires !IsSpace(input[offset]) && !StartsNumber(input, offset)
      requires input[offset] != '"' && input[offset] != '\''
      requires at <==> StartsAt(input, offset)
      requires !at ==> (hash <==> StartsHash(input, offset))
      requires !at && !hash ==> StartsIdent(input, offset)
      requires !(at && hash)
      modifies this
      ensures Valid() && var r := Consume(input, old(offset));
              c == r.component && offset == r.end && valid == (old(valid) && r.ok)
      decreases |input| - offset, 0
    {
      var start := offset;
      BehindToken(input, start);
      if at || hash { offset := offset + 1; }
      var nameStart := offset;
      offset := FindNameEnd(input, offset);
      var kind := if at then AtKeyword else if hash then Hash else Ident;
      if !at && !hash && offset < |input| && input[offset] == '(' {
        c := ConsumeArguments(start);
      } else {
        c := Plain(kind, start, offset).(value := input[nameStart..offset]);
      }
    }

    /** The part of css_syntax_consume_ident for a function, behind its name */
    method ConsumeArguments(start: nat) returns (c: Component)
      requires Valid() && start < |input| && offset == NameEnd(input, start) < |input| && start < offset
      requires !StartsComment(input, start) && !IsSpace(input[start]) && !StartsNumber(input, start)
      requires input[start] != '"' && input[start] != '\'' && !StartsAt(input, start) && !StartsHash(input, start)
      requires StartsIdent(input, start) && input[offset] == '(' && Ready(input, start)
      modifies this
      ensures Valid() && var r := Consume(input, start);
              c == r.component && offset == r.end && valid == (old(valid) && r.ok)
      decreases |input| - offset, 0
    {
      BehindToken(input, start);
      BehindBracket(input, offset);
      var value := input[start..offset];
      offset := offset + 1;
      var children := ParseComponents(Some(')'));
      c := Component(Function, start, offset, value, "", ')', children);
    }

    /** css_syntax_consume, which is never called at a comment */
    method ConsumeComponent() returns (c: Component)
      requires Valid() && offset < |input| && !StartsComment(input, offset)
      modifies this
      ensures Valid() && var r := Consume(input, old(offset));
              c == r.component && offset == r.end && valid == (old(valid) && r.ok)
      decreases |input| - offset, 1
    {
      var start, ch := offset, input[offset];
      BehindToken(input, start);
      if IsSpace(ch) {
        while offset < |input| && IsSpace(input[offset])
          invariant start <= offset <= |input| && valid == old(valid)
          invariant offset == start || SpaceEnd(input, offset) == SpaceEnd(input, start + 1)
        {
          offset := offset + 1;
        }
        return Plain(Space, start, offset);
      }
      if ch == '"' || ch == '\'' {
        c := ConsumeString();
      } else if StartsNumber(input, offset) {
        c := ConsumeNumeric();
      } else if StartsAt(input, offset) {
        c := ConsumeIdent(true, false);
      } else if StartsHash(input, offset) {
        c := ConsumeIdent(false, true);
      } else if StartsIdent(input, offset) {
        c := ConsumeIdent(false, false);
      } else {
        offset := offset + 1;
        c := Plain(DelimKind(ch), start, offset).(delimiter := ch);
        if IsOpener(ch) {
          BehindBracket(input, start);
          var children := ParseComponents(Some(Closer(ch)));
          c := Component(Block, start, offset, "", "", Closer(ch), children);
        }
      }
    }

    /** css_syntax_parse_list */
    method ParseComponents(closing: Option<char>) returns (list: seq<Component>)
      requires Valid() && (closing.Some? ==> IsCloser(closing.value))
      modifies this
      ensures Valid() && var r := ParseList(input, old(offset), closing);
              list == r.list && offset == r.end && valid == (old(valid) && r.ok)
      decreases |input| - offset, 2
    {
      list := [];
      ghost var all := ParseList(input, offset, closing);
      ghost var before, bad := valid, false;
      while offset < |input|
        invariant Valid() && offset >= old(offset)
        invariant var r := ParseList(input, offset, closing);
                  list + r.list == all.list && r.end == all.end && (valid && r.ok) == (before && all.ok)
        decreases |input| - offset
      {
        if StartsComment(input, offset) {
          SkipComment();
        } else if closing == Some(input[offset]) {
          BehindBracket(input, offset);
          offset := offset + 1;
          return;
        } else if IsCloser(input[offset]) {
          BehindBracket(input, offset);
          valid := false;
          offset := offset + 1;
          if closing.Some? { return; }
        } else {
          ghost var here, rest := offset, ParseList(input, Consume(input, offset).end, closing);
          var c := ConsumeComponent();
          Shift(list, c, rest.list);
          list := list + [c];
        }
      }
    }
  }

  lemma Extend(s: string, a: nat, b: nat, c: nat)
    requires a <= b <= c <= |s|
    ensures s[a..b] + s[b..c] == s[a..c]
  {
  }

  lemma Shift(list: seq<Component>, c: Component, rest: seq<Component>)
    ensures list + ([c] + rest) == (list + [c]) + rest
  {
  }

  /** ns_css_component_values_parse */
  method Parse(input: string) returns (list: seq<Component>, valid: bool)
    requires Ready(input, 0)
    ensures var r := ParseList(input, 0, None); list == r.list && valid == r.ok && r.end == |input|
  {
    var parser := new Parser(input);
    list := parser.ParseComponents(None);
    valid := parser.valid;
    TopLevelReadsAll(input, 0);
  }

  lemma {:induction false} TopLevelReadsAll(s: string, p: nat)
    requires p <= |s| && Ready(s, p)
    ensures ParseList(s, p, None).end == |s|
    decreases |s| - p
  {
    if p == |s| {
    } else if StartsComment(s, p) {
      BehindToken(s, p);
      TopLevelReadsAll(s, CommentEnd(s, p + 2));
    } else if IsCloser(s[p]) {
      BehindBracket(s, p);
      TopLevelReadsAll(s, p + 1);
    } else {
      TopLevelReadsAll(s, Consume(s, p).end);
    }
  }
}
