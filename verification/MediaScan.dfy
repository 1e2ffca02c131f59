/**
 How the scanners of the media query parser move over the texts that the serializer writes.
 */
module MediaScan {
  import opened Common
  import opened Locks
  import opened MediaSyntax
  import opened MediaText

  // ---------- parentheses and commas ----------

  /** Neither the search for a closing parenthesis nor the one for a comma stops in the text. */
  ghost predicate Closed(t: string) {
    forall key {:trigger Open(key)} :: Key(key) ==>
      forall rest: string, d: nat {:trigger PassedOver(t, rest, d)} :: PassedOver(t, rest, d)
  }

  ghost predicate PassedOver(t: string, rest: string, d: nat) {
    && (d > 0 ==> CloseParen(t + rest, d) == |t| + CloseParen(rest, d))
    && SegmentEnd(t + rest, d, 0) == |t| + SegmentEnd(rest, d, 0)
  }

  lemma Passes(t: string, rest: string, d: nat)
    requires Closed(t)
    ensures d > 0 ==> CloseParen(t + rest, d) == |t| + CloseParen(rest, d)
    ensures SegmentEnd(t + rest, d, 0) == |t| + SegmentEnd(rest, d, 0)
  {
    assert Open(true);
    assert PassedOver(t, rest, d);
  }

  predicate IsPlainChar(c: char) {
    c != '(' && c != ')' && c != '[' && c != ']' && c != ','
  }

  lemma {:induction false} PlainSkips(t: string, rest: string, d: nat)
    requires forall i :: 0 <= i < |t| ==> IsPlainChar(t[i])
    ensures d > 0 ==> CloseParen(t + rest, d) == |t| + CloseParen(rest, d)
    ensures SegmentEnd(t + rest, d, 0) == |t| + SegmentEnd(rest, d, 0)
    decreases t
  {
    if t == "" {
      assert t + rest == rest;
    } else {
      assert (t + rest)[1..] == t[1..] + rest;
      PlainSkips(t[1..], rest, d);
    }
  }

  lemma PlainClosed(t: string)
    requires forall i :: 0 <= i < |t| ==> IsPlainChar(t[i])
    ensures Closed(t)
  {
    forall rest: string, d: nat ensures PassedOver(t, rest, d) { PlainSkips(t, rest, d); }
  }

  lemma ClosedConcat(a: string, b: string)
    requires Closed(a) && Closed(b)
    ensures Closed(a + b)
  {
    forall rest: string, d: nat ensures PassedOver(a + b, rest, d) {
      assert (a + b) + rest == a + (b + rest);
      Passes(a, b + rest, d);
      Passes(b, rest, d);
    }
  }

  lemma ClosedGroup(t: string)
    requires Closed(t)
    ensures Closed("(" + t + ")")
  {
    var g := "(" + t + ")";
    forall rest: string, d: nat ensures PassedOver(g, rest, d) {
      assert (g + rest)[1..] == t + (")" + rest) && (g + rest)[0] == '(';
      assert (")" + rest)[1..] == rest && (")" + rest)[0] == ')';
      Passes(t, ")" + rest, d + 1);
    }
  }

  /** The parenthesis that closes a group. */
  lemma GroupCloses(t: string, rest: string)
    requires Closed(t)
    ensures CloseParen(t + (")" + rest), 1) == |t|
  {
    Passes(t, ")" + rest, 1);
    assert (")" + rest)[0] == ')';
  }

  lemma SegmentsApart(t: string, rest: string)
    requires Closed(t)
    ensures SegmentEnd(t + ("," + rest), 0, 0) == |t| && SegmentEnd(t, 0, 0) == |t|
  {
    Passes(t, "," + rest, 0);
    Passes(t, "", 0);
    assert ("," + rest)[0] == ',';
    assert t + "" == t;
  }

  // ---------- colons and comparisons ----------

  /** Neither the search for a colon nor the one for a comparison stops in the text. */
  ghost predicate Quiet(t: string) {
    forall key {:trigger Open(key)} :: Key(key) ==>
      forall rest: string {:trigger Unheard(t, rest)} :: Unheard(t, rest)
  }

  ghost predicate Unheard(t: string, rest: string) {
    ColonAt(t + rest, 0) == |t| + ColonAt(rest, 0) && OpAt(t + rest, 0) == |t| + OpAt(rest, 0)
  }

  lemma Hears(t: string, rest: string)
    requires Quiet(t)
    ensures ColonAt(t + rest, 0) == |t| + ColonAt(rest, 0) && OpAt(t + rest, 0) == |t| + OpAt(rest, 0)
  {
    assert Open(true);
    assert Unheard(t, rest);
  }

  predicate IsQuietChar(c: char) {
    c != '(' && c != ')' && c != ':' && !IsOpChar(c)
  }

  lemma {:induction false} QuietSkips(t: string, rest: string)
    requires forall i :: 0 <= i < |t| ==> IsQuietChar(t[i])
    ensures ColonAt(t + rest, 0) == |t| + ColonAt(rest, 0)
    ensures OpAt(t + rest, 0) == |t| + OpAt(rest, 0)
    decreases t
  {
    if t == "" {
      assert t + rest == rest;
    } else {
      assert (t + rest)[1..] == t[1..] + rest;
      QuietSkips(t[1..], rest);
    }
  }

  lemma QuietChars(t: string)
    requires forall i :: 0 <= i < |t| ==> IsQuietChar(t[i])
    ensures Quiet(t)
  {
    forall rest: string ensures Unheard(t, rest) { QuietSkips(t, rest); }
  }

  lemma QuietConcat(a: string, b: string)
    requires Quiet(a) && Quiet(b)
    ensures Quiet(a + b)
  {
    forall rest: string ensures Unheard(a + b, rest) {
      assert (a + b) + rest == a + (b + rest);
      Hears(a, b + rest);
      Hears(b, rest);
    }
  }

  lemma {:induction false} QuietInside(t: string, rest: string, d: nat)
    requires forall i :: 0 <= i < |t| ==> t[i] != '(' && t[i] != ')'
    requires d > 0
    ensures ColonAt(t + rest, d) == |t| + ColonAt(rest, d) && OpAt(t + rest, d) == |t| + OpAt(rest, d)
    decreases t
  {
    if t == "" {
      assert t + rest == rest;
    } else {
      assert (t + rest)[1..] == t[1..] + rest;
      QuietInside(t[1..], rest, d);
    }
  }

  lemma QuietGroup(lead: string, t: string)
    requires forall i :: 0 <= i < |lead| ==> IsQuietChar(lead[i])
    requires forall i :: 0 <= i < |t| ==> t[i] != '(' && t[i] != ')'
    ensures Quiet(lead + "(" + t + ")")
  {
    var g := "(" + t + ")";
    forall rest: string ensures Unheard(g, rest) {
      assert (g + rest)[1..] == t + (")" + rest) && (g + rest)[0] == '(';
      QuietInside(t, ")" + rest, 1);
      assert (")" + rest)[1..] == rest && (")" + rest)[0] == ')';
    }
    QuietChars(lead);
    QuietConcat(lead, g);
    assert lead + g == lead + "(" + t + ")";
  }

  lemma QuietAlone(t: string)
    requires Quiet(t)
    ensures ColonAt(t, 0) == |t| && OpAt(t, 0) == |t|
  {
    Hears(t, "");
    assert t + "" == t;
  }

  // ---------- words ----------

  /** A character of a name, a number or a unit. */
  predicate IsWordChar(c: char) {
    IsIdentChar(c) || c == '.' || c == '+'
  }

  predicate IsWord(t: string) {
    t != "" && forall i :: 0 <= i < |t| ==> IsWordChar(t[i])
  }

  lemma WordIsQuiet(t: string)
    requires IsWord(t)
    ensures Quiet(t) && Closed(t)
  {
    forall i | 0 <= i < |t| ensures IsQuietChar(t[i]) && IsPlainChar(t[i]) { assert IsWordChar(t[i]); }
    QuietChars(t);
    PlainClosed(t);
  }

  // ---------- white space ----------

  /** A text that neither begins nor ends with white space. */
  predicate IsTight(t: string) {
    t != "" && !IsSpace(t[0]) && !IsSpace(t[|t| - 1])
  }

  lemma TightTrims(t: string)
    requires IsTight(t)
    ensures WsLen(t) == 0 && SkipWs(t) == t && Trim(t) == t
    ensures WsLen(" " + t) == 1 && SkipWs(" " + t) == t && Trim(" " + t) == t
    ensures Trim(t + " ") == t && Trim(" " + t + " ") == t
  {
    assert t[0..] == t;
    assert (" " + t)[1..] == t;
    assert TrimEnd(t) == t;
    assert (t + " ")[..|t|] == t && (t + " ")[0..] == t + " " && WsLen(t + " ") == 0;
    assert TrimEnd(t + " ") == TrimEnd(t);
    assert (" " + t + " ")[1..] == t + " " && WsLen(" " + t + " ") == 1;
  }

  lemma WsOf(rest: string)
    requires rest != "" && !IsSpace(rest[0])
    ensures WsLen(rest) == 0 && SkipWs(rest) == rest && WsLen(" " + rest) == 1 && SkipWs(" " + rest) == rest
  {
    assert rest[0..] == rest;
    assert (" " + rest)[1..] == rest;
  }

  // ---------- identifiers ----------

  lemma {:induction false} IdentLenIs(t: string, rest: string)
    requires forall i :: 0 <= i < |t| ==> IsIdentChar(t[i])
    requires rest == "" || !IsIdentChar(rest[0])
    ensures IdentLen(t + rest) == |t|
    decreases t
  {
    if t == "" {
      assert t + rest == rest;
    } else {
      assert (t + rest)[1..] == t[1..] + rest;
      IdentLenIs(t[1..], rest);
    }
  }

  lemma IdentReads(t: string, rest: string, size: nat)
    requires IsIdentText(t) && |t| < size && (rest == "" || !IsIdentChar(rest[0]))
    ensures IdentLen(t + rest) == |t| && ReadIdent(t + rest, size) == Some(t) && (t + rest)[|t|..] == rest
  {
    IdentLenIs(t, rest);
    assert (t + rest)[..|t|] == t;
    assert Lower(t) == t;
  }

  lemma IdentReadsAlone(t: string, size: nat)
    requires IsIdentText(t) && |t| < size
    ensures IdentLen(t) == |t| && ReadIdent(t, size) == Some(t)
  {
    assert t + "" == t;
    IdentReads(t, "", size);
  }

  lemma IdentIsTight(t: string)
    requires IsIdentText(t)
    ensures IsTight(t) && IsWord(t)
  {
  }

  /** What the parser reads as an identifier can be read again. */
  lemma ReadIsIdentText(u: string, size: nat)
    requires ReadIdent(u, size).Some?
    ensures IsIdentText(ReadIdent(u, size).value) && |ReadIdent(u, size).value| < size
  {
    var n := IdentLen(u);
    forall i | 0 <= i < n ensures IsIdentChar(Lower(u[..n])[i]) && LowerChar(Lower(u[..n])[i]) == Lower(u[..n])[i] {
      assert IsIdentChar(u[i]);
    }
  }

  /** `kw` is not what stands here. */
  lemma NoKeyword(u: string, kw: string)
    requires kw != "" && (u == "" || LowerChar(u[0]) != kw[0])
    ensures !KeywordAt(u, kw)
  {
    if |u| >= |kw| { assert Lower(u[..|kw|])[0] == LowerChar(u[0]); }
  }

  lemma {:induction false} AlphaLenIs(t: string, most: nat)
    requires forall i :: 0 <= i < |t| ==> IsAlpha(t[i])
    requires |t| <= most
    ensures AlphaLen(t, most, false) == |t|
    decreases t
  {
    if t != "" { AlphaLenIs(t[1..], most - 1); }
  }

  lemma {:induction false} AlphaLenStops(t: string, rest: string, most: nat, percent: bool)
    requires forall i :: 0 <= i < |t| ==> IsAlpha(t[i])
    requires |t| <= most && (rest == "" || (!IsAlpha(rest[0]) && rest[0] != '%'))
    ensures AlphaLen(t + rest, most, percent) == |t|
    decreases t
  {
    if t == "" {
      assert t + rest == rest;
    } else {
      assert (t + rest)[1..] == t[1..] + rest;
      AlphaLenStops(t[1..], rest, most - 1, percent);
    }
  }
}
