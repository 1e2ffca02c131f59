/**
 Digits, prefixes, positions and spans: the functions of the C library that several files of the source use.
 */
module Strings {
  import opened Common

  predicate IsDigit(c: char) {
    '0' <= c <= '9'
  }

  predicate AllDigits(s: string) {
    forall i :: 0 <= i < |s| ==> IsDigit(s[i])
  }

  /** strchr: the position of the first `c`, or the length */
  function Find(s: string, c: char): (i: nat)
    ensures i <= |s| && (i < |s| ==> s[i] == c) && forall k :: 0 <= k < i ==> s[k] != c
  {
    if s == "" || s[0] == c then 0 else 1 + Find(s[1..], c)
  }

  /** memchr: the first `c` at or after `lo`, or `hi` */
  function FindFrom(s: string, c: char, lo: nat, hi: nat): (i: nat)
    requires lo <= hi <= |s|
    ensures lo <= i <= hi && (i < hi ==> s[i] == c)
    ensures forall k :: lo <= k < i ==> s[k] != c
    decreases hi - lo
  {
    if lo == hi || s[lo] == c then lo else FindFrom(s, c, lo + 1, hi)
  }

  predicate StartsWith(s: string, p: string) {
    |p| <= |s| && s[..|p|] == p
  }

  /** g_ascii_strncasecmp with a pattern in small letters */
  predicate StartsWithAnyCase(s: string, p: string) {
    |p| <= |s| && Lower(s[..|p|]) == p
  }

  /** strcspn */
  function Span(s: string, ends: string): (n: nat)
    ensures n <= |s|
    ensures forall i :: 0 <= i < n ==> s[i] !in ends
    ensures n < |s| ==> s[n] in ends
  {
    if s == "" || s[0] in ends then 0 else 1 + Span(s[1..], ends)
  }

  lemma {:induction false} SpanIs(s: string, ends: string, n: nat)
    requires n <= |s| && (forall i :: 0 <= i < n ==> s[i] !in ends) && (n < |s| ==> s[n] in ends)
    ensures Span(s, ends) == n
  {
    if n > 0 { SpanIs(s[1..], ends, n - 1); }
  }

  /** What stands before and after the first one of a character */
  lemma PartsAt(end: string, a: string, b: string, p: string, q: string)
    requires |end| == 1 && end[0] !in a && end[0] !in b && a + end + p == b + end + q
    ensures a == b && p == q
  {
    var s, t := a + end + p, b + end + q;
    SpanBefore(a, end, p);
    SpanBefore(b, end, q);
    assert a == s[..|a|] && b == t[..|b|] && p == s[|a| + 1..] && q == t[|b| + 1..];
  }

  lemma SpanBefore(a: string, end: string, p: string)
    requires |end| == 1 && end[0] !in a
    ensures Span(a + end + p, end) == |a|
  {
    var s := a + end + p;
    forall i | 0 <= i < |a| ensures s[i] !in end { assert s[i] == a[i]; }
    SpanIs(s, end, |a|);
  }

  lemma StartsWithAt(s: string, p: string)
    ensures StartsWith(s, p) ==> forall i :: 0 <= i < |p| ==> s[i] == p[i]
  {
    if StartsWith(s, p) {
      forall i | 0 <= i < |p| ensures s[i] == p[i] { assert s[i] == s[..|p|][i]; }
    }
  }
}
