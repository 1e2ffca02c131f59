/**
 On which inputs the component-value parser of src/css_syntax.c stops.

 Here the parser is what the source says on every input, with a cursor that may stand still: it is cut off after
 `fuel` steps, and gives nothing if it has not come to an end by then.
 */
module CssHalting {
  import opened Common
  import opened Locks
  import opened CssSyntax

  /** css_syntax_consume */
  function Consumed(s: string, p: nat, fuel: nat): (r: Option<One>)
    requires p < |s|
    ensures r.Some? ==> p <= r.value.end <= |s|
    decreases fuel, 1
  {
    if IsSpace(s[p]) then Some(One(Plain(Space, p, SpaceEnd(s, p)), SpaceEnd(s, p), true))
    else if s[p] == '"' || s[p] == '\'' then Some(StringAt(s, p))
    else if StartsNumber(s, p) then Some(NumericAt(s, p))
    else if StartsAt(s, p) then Some(Named(s, p, p + 1, AtKeyword))
    else if StartsHash(s, p) then Some(Named(s, p, p + 1, Hash))
    else if StartsIdent(s, p) then
      var q := NameEnd(s, p);
      if q < |s| && s[q] == '(' then Bracketed(s, p, q, Function, s[p..q], ')', fuel)
      else Some(Named(s, p, p, Ident))
    else if IsOpener(s[p]) then Bracketed(s, p, p, Block, "", Closer(s[p]), fuel)
    else Some(One(Plain(DelimKind(s[p]), p, p + 1).(delimiter := s[p]), p + 1, true))
  }

  function Named(s: string, p: nat, nameStart: nat, kind: Kind): (r: One)
    requires p <= nameStart <= |s|
    ensures nameStart <= r.end <= |s|
  {
    var q := NameEnd(s, nameStart);
    One(Plain(kind, p, q).(value := s[nameStart..q]), q, true)
  }

  /** A component that starts at `p` and has its opening bracket at `q` */
  function Bracketed(s: string, p: nat, q: nat, kind: Kind, value: string, closing: char, fuel: nat): (r: Option<One>)
    requires p <= q < |s|
    ensures r.Some? ==> q < r.value.end <= |s|
    decreases fuel, 0
  {
    var r := if fuel == 0 then None else Listed(s, q + 1, Some(closing), fuel - 1);
    if r.None? then None
    else Some(One(Component(kind, p, r.value.end, value, "", closing, r.value.list), r.value.end, r.value.ok))
  }

  /** css_syntax_parse_list */
  function Listed(s: string, p: nat, closing: Option<char>, fuel: nat): (r: Option<Many>)
    requires p <= |s|
    ensures r.Some? ==> p <= r.value.end <= |s|
    decreases fuel, 2
  {
    if p == |s| then Some(Many([], p, true))
    else if fuel == 0 then None
    else if StartsComment(s, p) then Listed(s, CommentEnd(s, p + 2), closing, fuel - 1)
    else if closing == Some(s[p]) then Some(Many([], p + 1, true))
    else if IsCloser(s[p]) then
      if closing.Some? then Some(Many([], p + 1, false))
      else
        var r := Listed(s, p + 1, closing, fuel - 1);
        if r.None? then None else Some(r.value.(ok := false))
    else
      var one := Consumed(s, p, fuel - 1);
      if one.None? then None else
      Joined(one.value, Listed(s, one.value.end, closing, fuel - 1))
  }

  function Joined(one: One, rest: Option<Many>): (r: Option<Many>)
    ensures r.Some? <==> rest.Some?
    ensures r.Some? ==> r.value.end == rest.value.end
  {
    if rest.None? then None
    else Some(Many([one.component] + rest.value.list, rest.value.end, one.ok && rest.value.ok))
  }

  // ---------- it stops only on inputs without an empty token ----------

  lemma NothingLeft(s: string)
    ensures Ready(s, |s|)
  {
    assert Unstuck(s, |s|);
  }

  lemma OneToken(s: string, p: nat)
    requires p < |s| && TokenEnd(s, p) > p && Ready(s, TokenEnd(s, p))
    ensures Ready(s, p)
  {
    assert Open(true);
    assert Unstuck(s, p);
  }

  lemma OneBracket(s: string, p: nat)
    requires p < |s| && (IsOpener(s[p]) || IsCloser(s[p])) && Ready(s, p + 1)
    ensures Ready(s, p)
  {
    OneToken(s, p);
  }

  lemma {:induction false} BracketedReady(
      s: string, p: nat, q: nat, kind: Kind, value: string, closing: char, fuel: nat, r: Option<One>)
    requires p <= q < |s| && IsOpener(s[q]) && IsCloser(closing)
    requires r == Bracketed(s, p, q, kind, value, closing, fuel) && r.Some? && Ready(s, r.value.end)
    ensures Ready(s, q)
    decreases fuel, 0
  {
    ListedReady(s, q + 1, Some(closing), fuel - 1, Listed(s, q + 1, Some(closing), fuel - 1));
    OneBracket(s, q);
  }

  lemma {:induction false} ConsumedReady(s: string, p: nat, fuel: nat, r: Option<One>)
    requires p < |s| && !StartsComment(s, p) && r == Consumed(s, p, fuel) && r.Some? && Ready(s, r.value.end)
    ensures Ready(s, p)
    decreases fuel, 1
  {
    if IsSpace(s[p]) || s[p] == '"' || s[p] == '\'' || StartsNumber(s, p) || StartsAt(s, p) || StartsHash(s, p) {
      OneToken(s, p);
    } else if StartsIdent(s, p) {
      var q := NameEnd(s, p);
      if q < |s| && s[q] == '(' {
        BracketedReady(s, p, q, Function, s[p..q], ')', fuel, r);
      }
      if q > p { OneToken(s, p); }
    } else if IsOpener(s[p]) {
      BracketedReady(s, p, p, Block, "", Closer(s[p]), fuel, r);
    } else {
      OneToken(s, p);
    }
  }

  lemma {:induction false} ListedReady(s: string, p: nat, closing: Option<char>, fuel: nat, r: Option<Many>)
    requires p <= |s| && r == Listed(s, p, closing, fuel) && r.Some? && Ready(s, r.value.end)
    requires closing.Some? ==> IsCloser(closing.value)
    ensures Ready(s, p)
    decreases fuel, 2
  {
    if p == |s| { return; }
    if StartsComment(s, p) {
      ListedReady(s, CommentEnd(s, p + 2), closing, fuel - 1, r);
      OneToken(s, p);
    } else if IsCloser(s[p]) {
      if closing.None? { ListedReady(s, p + 1, closing, fuel - 1, Listed(s, p + 1, closing, fuel - 1)); }
      OneBracket(s, p);
    } else {
      ComponentReady(s, p, closing, fuel, Consumed(s, p, fuel - 1), r);
    }
  }

  lemma {:induction false} ComponentReady(
      s: string, p: nat, closing: Option<char>, fuel: nat, one: Option<One>, r: Option<Many>)
    requires p < |s| && 0 < fuel && !StartsComment(s, p) && one == Consumed(s, p, fuel - 1) && one.Some?
    requires r == Joined(one.value, Listed(s, one.value.end, closing, fuel - 1)) && r.Some? && Ready(s, r.value.end)
    requires closing.Some? ==> IsCloser(closing.value)
    ensures Ready(s, p)
    decreases fuel, 1
  {
    ListedReady(s, one.value.end, closing, fuel - 1, Listed(s, one.value.end, closing, fuel - 1));
    ConsumedReady(s, p, fuel - 1, one);
  }

  // ---------- it stops on all of these, with what the functions of CssSyntax say ----------

  lemma {:induction false} ConsumedIs(s: string, p: nat, fuel: nat)
    requires p < |s| && Ready(s, p) && !StartsComment(s, p) && fuel >= 2 * (|s| - p)
    ensures Consumed(s, p, fuel) == Some(Consume(s, p))
    decreases |s| - p, 0, 0
  {
    BehindToken(s, p);
    if IsSpace(s[p]) || s[p] == '"' || s[p] == '\'' || StartsNumber(s, p) || StartsAt(s, p) || StartsHash(s, p) {
    } else if StartsIdent(s, p) {
      var q := NameEnd(s, p);
      if q < |s| && s[q] == '(' {
        BehindBracket(s, q);
        ListedIs(s, q + 1, Some(')'), fuel - 1);
      }
    } else if IsOpener(s[p]) {
      BehindBracket(s, p);
      ListedIs(s, p + 1, Some(Closer(s[p])), fuel - 1);
    }
  }

  lemma {:induction false} ListedIs(s: string, p: nat, closing: Option<char>, fuel: nat)
    requires p <= |s| && Ready(s, p) && fuel >= 2 * (|s| - p) + 1 && (closing.Some? ==> IsCloser(closing.value))
    ensures Listed(s, p, closing, fuel) == Some(ParseList(s, p, closing))
    decreases |s| - p, 1
  {
    if p == |s| { return; }
    if StartsComment(s, p) {
      BehindToken(s, p);
      ListedIs(s, CommentEnd(s, p + 2), closing, fuel - 1);
    } else if IsCloser(s[p]) {
      BehindBracket(s, p);
      if closing.None? { ListedIs(s, p + 1, closing, fuel - 1); }
    } else {
      ComponentIs(s, p, closing, fuel, Consume(s, p));
    }
  }

  lemma {:induction false} ComponentIs(s: string, p: nat, closing: Option<char>, fuel: nat, one: One)
    requires p < |s| && fuel >= 2 * (|s| - p) + 1 && Ready(s, p) && !StartsComment(s, p) && !IsCloser(s[p])
    requires (closing.Some? ==> IsCloser(closing.value)) && one == Consume(s, p)
    ensures Listed(s, p, closing, fuel) == Some(ParseList(s, p, closing))
    decreases |s| - p, 0, 1
  {
    ConsumedIs(s, p, fuel - 1);
    ListedIs(s, one.end, closing, fuel - 1);
  }

  // ---------- the theorem ----------

  /** At the top level the cursor comes to the end of the input, or to no end. */
  lemma {:induction false} TopLevelEnds(s: string, p: nat, fuel: nat, r: Option<Many>)
    requires p <= |s| && r == Listed(s, p, None, fuel) && r.Some?
    ensures r.value.end == |s|
    decreases fuel
  {
    if p == |s| { return; }
    if StartsComment(s, p) {
      TopLevelEnds(s, CommentEnd(s, p + 2), fuel - 1, r);
    } else if IsCloser(s[p]) {
      TopLevelEnds(s, p + 1, fuel - 1, Listed(s, p + 1, None, fuel - 1));
    } else {
      var q := Consumed(s, p, fuel - 1).value.end;
      TopLevelEnds(s, q, fuel - 1, Listed(s, q, None, fuel - 1));
    }
  }

  predicate StopsWithin(s: string, fuel: nat) {
    Listed(s, 0, None, fuel).Some?
  }

  lemma StoppedIsReady(s: string, fuel: nat)
    requires StopsWithin(s, fuel)
    ensures Ready(s, 0)
  {
    var r := Listed(s, 0, None, fuel);
    TopLevelEnds(s, 0, fuel, r);
    NothingLeft(s);
    ListedReady(s, 0, None, fuel, r);
  }

  /** The parser stops on an input if and only if no token of it begins with a backslash and a newline.  Two steps a
      character are enough, and what it returns is what CssSyntax.ParseList says. */
  lemma ParserStops(s: string)
    ensures Ready(s, 0) <==> exists fuel: nat :: StopsWithin(s, fuel)
    ensures Ready(s, 0) ==> Listed(s, 0, None, 2 * |s| + 1) == Some(ParseList(s, 0, None))
  {
    forall fuel: nat | StopsWithin(s, fuel) ensures Ready(s, 0) { StoppedIsReady(s, fuel); }
    if Ready(s, 0) {
      ListedIs(s, 0, None, 2 * |s| + 1);
      assert StopsWithin(s, 2 * |s| + 1);
    }
  }

  /** More fuel does not help where the parser stands still. */
  lemma EscapedNewlineHangs(fuel: nat)
    ensures !StopsWithin("\\\n", fuel) && !Ready("\\\n", 0)
  {
    var s := "\\\n";
    assert TokenEnd(s, 0) == 0;
    assert !Unstuck(s, 0);
    if Ready(s, 0) { BehindToken(s, 0); }
    if StopsWithin(s, fuel) { StoppedIsReady(s, fuel); }
  }

  /** The same two characters stop nothing inside a comment or a string. */
  lemma EscapedNewlineInComment()
    ensures Ready("/*\\\n*/", 0)
  {
    var s := "/*\\\n*/";
    assert CommentEnd(s, 2) == CommentEnd(s, 3) == CommentEnd(s, 4) == 6;
    assert TokenEnd(s, 0) == 6 == |s|;
    NothingLeft(s);
    OneToken(s, 0);
  }
}
