/**
 The pattern matcher of the request filter (src/ext.c): the backtracking loop ns_dnr_match_here, the language
 it accepts, and the anchors around it.
 */
module ExtPattern {
  import opened Common
  import opened Strings

  predicate IsAlnum(c: char) {
    '0' <= c <= '9' || 'a' <= c <= 'z' || 'A' <= c <= 'Z'
  }

  /** ns_dnr_sep */
  predicate IsSeparator(c: char) {
    !(IsAlnum(c) || c == '_' || c == '-' || c == '.' || c == '%')
  }

  // ---------- the language of a pattern ----------

  /** `cuts` marks off which part of `s` each character of the pattern takes, from `start` on: a star takes
      anything, a caret takes one separator or the empty rest at the end of `s`, any other character takes
      itself.  With an end anchor the last part ends where `s` ends. */
  ghost predicate Derives(p: string, s: string, start: nat, anchored: bool, cuts: seq<nat>) {
    && |cuts| == |p| + 1 && cuts[0] == start && cuts[|p|] <= |s| && (anchored ==> cuts[|p|] == |s|)
    && forall i :: 0 <= i < |p| ==> Takes(p[i], s, cuts[i], cuts[i + 1])
  }

  ghost predicate Takes(c: char, s: string, a: nat, b: nat) {
    && a <= b <= |s|
    && (c == '*' || (a + 1 == b && (if c == '^' then IsSeparator(s[a]) else s[a] == c)) || (c == '^' && a == b == |s|))
  }

  ghost predicate InLanguage(p: string, s: string, start: nat, anchored: bool) {
    exists cuts :: Derives(p, s, start, anchored, cuts)
  }

  // ---------- the matcher ----------

  /** ns_dnr_match_here on the rest of the pattern at `i` and the rest of the subject at `j`. */
  predicate Match(p: string, i: nat, s: string, j: nat, anchored: bool)
    requires i <= |p| && j <= |s|
    decreases |p| - i, |s| - j, 0
  {
    if i == |p| then (anchored ==> j == |s|)
    else if p[i] == '*' then i + 1 == |p| || MatchLater(p, i + 1, s, j, anchored)
    else if p[i] == '^' then
      if j == |s| then Match(p, i + 1, s, j, anchored)
      else IsSeparator(s[j]) && Match(p, i + 1, s, j + 1, anchored)
    else j < |s| && s[j] == p[i] && Match(p, i + 1, s, j + 1, anchored)
  }

  /** The pattern matches at `j` or further on. */
  predicate MatchLater(p: string, i: nat, s: string, j: nat, anchored: bool)
    requires i <= |p| && j <= |s|
    decreases |p| - i, |s| - j, 1
  {
    Match(p, i, s, j, anchored) || (j < |s| && MatchLater(p, i, s, j + 1, anchored))
  }

  /** ns_dnr_match_here */
  method MatchHere(p: string, i0: nat, s: string, j0: nat, anchored: bool) returns (found: bool)
    requires i0 <= |p| && j0 <= |s|
    ensures found == Match(p, i0, s, j0, anchored)
    decreases |p| - i0, 0
  {
    var i, j := i0, j0;
    while i < |p|
      invariant i0 <= i <= |p| && 0 <= j <= |s|
      invariant Match(p, i, s, j, anchored) == Match(p, i0, s, j0, anchored)
    {
      if p[i] == '*' {
        i := i + 1;
        if i == |p| { return true; }
        found := MatchAtOrAfter(p, i, s, j, anchored);
        return;
      }
      if p[i] == '^' {
        if j == |s| {
          i := i + 1;
        } else if IsSeparator(s[j]) {
          i, j := i + 1, j + 1;
        } else {
          return false;
        }
      } else {
        if j == |s| || s[j] != p[i] { return false; }
        i, j := i + 1, j + 1;
      }
    }
    return anchored ==> j == |s|;
  }

  /** The loop behind a star */
  method MatchAtOrAfter(p: string, i: nat, s: string, j0: nat, anchored: bool) returns (found: bool)
    requires i <= |p| && j0 <= |s|
    ensures found == MatchLater(p, i, s, j0, anchored)
    decreases |p| - i, 1
  {
    var j := j0;
    while true
      invariant 0 <= j <= |s|
      invariant MatchLater(p, i, s, j, anchored) == MatchLater(p, i, s, j0, anchored)
      decreases |s| - j
    {
      found := MatchHere(p, i, s, j, anchored);
      if found || j == |s| { return; }
      j := j + 1;
    }
  }

  // ---------- the matcher accepts exactly the language ----------

  ghost predicate DerivesFrom(p: string, i: nat, s: string, j: nat, anchored: bool, cuts: seq<nat>)
    requires i <= |p|
  {
    && |cuts| == |p| - i + 1 && cuts[0] == j && cuts[|p| - i] <= |s| && (anchored ==> cuts[|p| - i] == |s|)
    && forall k :: 0 <= k < |p| - i ==> Takes(p[i + k], s, cuts[k], cuts[k + 1])
  }

  lemma {:induction false} MatchDerives(p: string, i: nat, s: string, j: nat, anchored: bool) returns (cuts: seq<nat>)
    requires i <= |p| && j <= |s| && Match(p, i, s, j, anchored)
    ensures DerivesFrom(p, i, s, j, anchored, cuts)
    decreases |p| - i
  {
    if i == |p| { return [j]; }
    var k := NextCut(p, i, s, j, anchored);
    var rest := MatchDerives(p, i + 1, s, k, anchored);
    cuts := [j] + rest;
  }

  /** Where the first character of the pattern stops in a match. */
  lemma NextCut(p: string, i: nat, s: string, j: nat, anchored: bool) returns (k: nat)
    requires i < |p| && j <= |s| && Match(p, i, s, j, anchored)
    ensures Takes(p[i], s, j, k) && Match(p, i + 1, s, k, anchored)
  {
    if p[i] == '*' {
      if i + 1 == |p| { return |s|; }
      k := LaterCut(p, i + 1, s, j, anchored);
    } else if p[i] == '^' && j == |s| {
      k := j;
    } else {
      k := j + 1;
    }
  }

  lemma {:induction false} LaterCut(p: string, i: nat, s: string, j: nat, anchored: bool) returns (k: nat)
    requires i <= |p| && j <= |s| && MatchLater(p, i, s, j, anchored)
    ensures j <= k <= |s| && Match(p, i, s, k, anchored)
    decreases |s| - j
  {
    if Match(p, i, s, j, anchored) {
      k := j;
    } else {
      k := LaterCut(p, i, s, j + 1, anchored);
    }
  }

  lemma {:induction false} DerivesMatch(p: string, i: nat, s: string, j: nat, anchored: bool, cuts: seq<nat>)
    requires i <= |p| && j <= |s| && DerivesFrom(p, i, s, j, anchored, cuts)
    ensures Match(p, i, s, j, anchored)
    decreases |p| - i
  {
    if i < |p| {
      assert Takes(p[i + 0], s, cuts[0], cuts[0 + 1]);
      forall k | 0 <= k < |p| - i - 1 ensures Takes(p[i + 1 + k], s, cuts[1..][k], cuts[1..][k + 1]) {
        assert Takes(p[i + (k + 1)], s, cuts[k + 1], cuts[k + 1 + 1]);
      }
      DerivesMatch(p, i + 1, s, cuts[1], anchored, cuts[1..]);
      if p[i] == '*' { Later(p, i + 1, s, j, cuts[1], anchored); }
    }
  }

  lemma {:induction false} Later(p: string, i: nat, s: string, j: nat, k: nat, anchored: bool)
    requires i <= |p| && j <= k <= |s| && Match(p, i, s, k, anchored)
    ensures MatchLater(p, i, s, j, anchored)
    decreases k - j
  {
    if j < k { Later(p, i, s, j + 1, k, anchored); }
  }

  /** The matcher accepts exactly the language of literals, `*` and `^`. */
  lemma MatchIsLanguage(p: string, s: string, start: nat, anchored: bool)
    requires start <= |s|
    ensures Match(p, 0, s, start, anchored) <==> InLanguage(p, s, start, anchored)
  {
    if Match(p, 0, s, start, anchored) {
      var cuts := MatchDerives(p, 0, s, start, anchored);
      forall i | 0 <= i < |p| ensures Takes(p[i], s, cuts[i], cuts[i + 1]) {
        assert Takes(p[0 + i], s, cuts[i], cuts[i + 1]);
      }
      assert Derives(p, s, start, anchored, cuts);
    }
    if InLanguage(p, s, start, anchored) {
      var cuts :| Derives(p, s, start, anchored, cuts);
      forall k | 0 <= k < |p| - 0 ensures Takes(p[0 + k], s, cuts[k], cuts[k + 1]) {}
      DerivesMatch(p, 0, s, start, anchored, cuts);
    }
  }

  // ---------- anchors ----------

  /** strstr: the position of the first occurrence, or the length if there is none. */
  function FindText(s: string, t: string): (i: nat)
    ensures i <= |s| && (i < |s| ==> StartsWith(s[i..], t))
    ensures forall k :: 0 <= k < i ==> !StartsWith(s[k..], t)
  {
    if s == "" || StartsWith(s, t) then 0
    else
      var i := 1 + FindText(s[1..], t);
      assert forall k :: 0 < k <= |s| ==> s[k..] == s[1..][k - 1..];
      i
  }

  predicate EndsAuthority(c: char) {
    c == '/' || c == '?' || c == '#'
  }

  /** Where the authority that starts at `a` ends. */
  function AuthorityEnd(url: string, a: nat): (e: nat)
    requires a <= |url|
    ensures a <= e <= |url| && (e < |url| ==> EndsAuthority(url[e]))
    ensures forall k :: a <= k < e ==> !EndsAuthority(url[k])
    decreases |url| - a
  {
    if a == |url| || EndsAuthority(url[a]) then a else AuthorityEnd(url, a + 1)
  }

  function AuthorityStart(url: string): (a: nat)
    ensures a <= |url|
  {
    var i := FindText(url, "://");
    if i < |url| then i + 3 else 0
  }

  /** The pieces of a filter: its anchors and its body. */
  datatype Filter = Filter(domain: bool, start: bool, end: bool, body: string)

  function Parts(filter: string): Filter {
    var domain := StartsWith(filter, "||");
    var start := !domain && StartsWith(filter, "|");
    var rest := filter[(if domain then 2 else if start then 1 else 0)..];
    var end := rest != "" && rest[|rest| - 1] == '|';
    Filter(domain, start, end, if end then rest[..|rest| - 1] else rest)
  }

  /** A label of the host starts at `pos`. */
  predicate AtLabel(u: string, hs: nat, pos: nat)
    requires hs <= pos <= |u|
  {
    pos == hs || u[pos - 1] == '.'
  }

  /** ns_dnr_urlfilter_match: where a filter matches a URL. */
  ghost predicate FilterMatches(filter: string, url: string, caseSensitive: bool) {
    var u, f := if caseSensitive then url else Lower(url), Parts(if caseSensitive then filter else Lower(filter));
    filter == "" ||
    (if f.domain then MatchesAtLabel(f, u)
     else if f.start then InLanguage(f.body, u, 0, f.end)
     else MatchesAnywhere(f, u))
  }

  ghost predicate MatchesAtLabel(f: Filter, u: string) {
    var hs := AuthorityStart(u);
    exists pos :: hs <= pos <= AuthorityEnd(u, hs) && AtLabel(u, hs, pos) && InLanguage(f.body, u, pos, f.end)
  }

  ghost predicate MatchesAnywhere(f: Filter, u: string) {
    exists pos :: 0 <= pos <= |u| && InLanguage(f.body, u, pos, f.end)
  }

  method FilterMatch(filter: string, url: string, caseSensitive: bool) returns (found: bool)
    ensures found <==> FilterMatches(filter, url, caseSensitive)
  {
    if filter == "" { return true; }
    var u := if caseSensitive then url else Lower(url);
    var f := Parts(if caseSensitive then filter else Lower(filter));
    if f.domain {
      found := MatchAtLabels(f, u);
    } else if f.start {
      MatchIsLanguage(f.body, u, 0, f.end);
      found := MatchHere(f.body, 0, u, 0, f.end);
    } else {
      found := MatchAnywhere(f, u);
    }
  }

  method MatchAtLabels(f: Filter, u: string) returns (found: bool)
    ensures found <==> MatchesAtLabel(f, u)
  {
    var hs := AuthorityStart(u);
    var he := hs;
    while he < |u| && !EndsAuthority(u[he])
      invariant hs <= he <= |u| && AuthorityEnd(u, he) == AuthorityEnd(u, hs)
    {
      he := he + 1;
    }
    var pos := hs;
    while pos <= he
      invariant hs <= pos <= he + 1
      invariant forall k :: hs <= k < pos ==> !(AtLabel(u, hs, k) && InLanguage(f.body, u, k, f.end))
    {
      MatchIsLanguage(f.body, u, pos, f.end);
      if pos == hs || u[pos - 1] == '.' {
        var here := MatchHere(f.body, 0, u, pos, f.end);
        if here { return true; }
      }
      pos := pos + 1;
    }
    return false;
  }

  method MatchAnywhere(f: Filter, u: string) returns (found: bool)
    ensures found <==> MatchesAnywhere(f, u)
  {
    var pos := 0;
    while true
      invariant 0 <= pos <= |u|
      invariant forall k :: 0 <= k < pos ==> !InLanguage(f.body, u, k, f.end)
      decreases |u| - pos
    {
      MatchIsLanguage(f.body, u, pos, f.end);
      var here := MatchHere(f.body, 0, u, pos, f.end);
      if here { return true; }
      if pos == |u| { return false; }
      pos := pos + 1;
    }
  }
}
