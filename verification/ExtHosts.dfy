/**
 Plain host rules: a line `||host^` of a filter list goes into a hash of hosts instead of the list of
 rules (ns_abp_parse_network of src/ext.c).  On the URLs of ordinary requests this changes no decision.
 */
module ExtHosts {
  import opened Common
  import opened Strings
  import opened ExtPattern
  import opened ExtFilter

  predicate IsHostChar(c: char) {
    IsAlnum(c) || c == '.' || c == '-'
  }

  /** ns_abp_is_simple_host */
  predicate IsSimpleHost(p: string) {
    |p| > 3 && p[..2] == "||" && p[|p| - 1] == '^' && forall i :: 2 <= i < |p| - 1 ==> IsHostChar(p[i])
  }

  function HostIn(p: string): string
    requires IsSimpleHost(p)
  {
    Lower(p[2..|p| - 1])
  }

  /** The rule that ns_abp_parse_network makes of a pattern without options that is no exception. */
  function PlainRule(p: string): Rule {
    Rule(Block, 1, Some(p), false, None, None, None, None, None, None, None, 0)
  }

  /** What ns_abp_parse_network makes of a line without options, regular expression and exception mark. */
  datatype Loaded = Nothing | InHash(host: string) | InRules(rule: Rule)

  predicate IsPlainLine(line: string) {
    !StartsWith(line, "@@") && !StartsWith(line, "/") && forall i :: 0 <= i < |line| ==> line[i] != '$'
  }

  method ParsePlain(line: string) returns (r: Loaded)
    requires IsPlainLine(line)
    ensures r == if line == "" then Nothing
                 else if IsSimpleHost(line) then InHash(HostIn(line)) else InRules(PlainRule(line))
  {
    if line == "" { return Nothing; }
    var simple := SimpleHost(line);
    if simple { return InHash(Lower(line[2..|line| - 1])); }
    return InRules(PlainRule(line));
  }

  method SimpleHost(p: string) returns (simple: bool)
    ensures simple <==> IsSimpleHost(p)
  {
    if !(StartsWith(p, "||") && |p| > 0 && p[|p| - 1] == '^') { return false; }
    var i := 2;
    while i + 1 < |p|
      invariant 2 <= i && forall k :: 2 <= k < i && k < |p| - 1 ==> IsHostChar(p[k])
    {
      if !IsHostChar(p[i]) { return false; }
      i := i + 1;
    }
    return |p| > 3;
  }

  // ---------- the URLs this is about ----------

  /** An http or https URL: a host of letters, digits, dots and hyphens, maybe a port, and the rest. */
  datatype PlainUrl = PlainUrl(scheme: string, host: string, port: string, tail: string)

  predicate Plain(u: PlainUrl) {
    && (u.scheme == "http" || u.scheme == "https")
    && (forall i :: 0 <= i < |u.host| ==> IsHostChar(u.host[i]))
    && (u.port == "" || (u.port[0] == ':' && forall i :: 1 <= i < |u.port| ==> '0' <= u.port[i] <= '9'))
    && (u.tail == "" || EndsAuthority(u.tail[0]))
  }

  function Text(u: PlainUrl): string {
    u.scheme + "://" + u.host + u.port + u.tail
  }

  function LowerParts(u: PlainUrl): PlainUrl {
    PlainUrl(u.scheme, Lower(u.host), u.port, Lower(u.tail))
  }

  lemma LowerText(u: PlainUrl)
    requires Plain(u)
    ensures Lower(Text(u)) == Text(LowerParts(u)) && Plain(LowerParts(u))
  {
    var a, b := Lower(Text(u)), Text(LowerParts(u));
    forall i | 0 <= i < |a| ensures a[i] == b[i] {}
  }

  /** The host `host` stands in `s` at `a`, and between it and the end `he` of the authority there is at most
      a port. */
  ghost predicate Stands(s: string, a: nat, host: string, he: nat) {
    && a + |host| <= he <= |s|
    && (forall i {:trigger host[i]} :: 0 <= i < |host| ==> s[a + i] == host[i] && IsHostChar(host[i]))
    && (forall i :: a + |host| <= i < he ==> s[i] == ':' || '0' <= s[i] <= '9')
    && (a + |host| < |s| ==> s[a + |host|] == ':' || EndsAuthority(s[a + |host|]))
    && (a + |host| < he ==> s[a + |host|] == ':') && (he < |s| ==> EndsAuthority(s[he]))
  }

  /** Where the host begins, and where the authority ends. */
  function HostAt(u: PlainUrl): nat {
    |u.scheme| + 3
  }

  function HostPast(u: PlainUrl): nat {
    HostAt(u) + |u.host| + |u.port|
  }

  lemma TextAt(u: PlainUrl)
    ensures var s, a := Text(u), HostAt(u);
            && |s| == HostPast(u) + |u.tail|
            && (forall i :: 0 <= i < |u.scheme| ==> s[i] == u.scheme[i])
            && s[|u.scheme|] == ':' && s[|u.scheme| + 1] == '/' && s[|u.scheme| + 2] == '/'
            && (forall i {:trigger u.host[i]} :: 0 <= i < |u.host| ==> s[a + i] == u.host[i])
            && (forall i {:trigger u.port[i]} :: 0 <= i < |u.port| ==> s[a + |u.host| + i] == u.port[i])
            && (u.tail != "" ==> s[HostPast(u)] == u.tail[0])
  {
  }

  lemma HostStands(u: PlainUrl)
    requires Plain(u)
    ensures Stands(Text(u), HostAt(u), u.host, HostPast(u))
  {
    TextAt(u);
    var s, b := Text(u), HostAt(u) + |u.host|;
    forall i | b <= i < HostPast(u) ensures s[i] == ':' || '0' <= s[i] <= '9' { assert s[i] == u.port[i - b]; }
    if u.port != "" { assert s[b + 0] == u.port[0]; }
  }

  lemma SchemeFound(u: PlainUrl)
    requires Plain(u)
    ensures FindText(Text(u), "://") == |u.scheme| < |Text(u)| && AuthorityStart(Text(u)) == HostAt(u)
  {
    TextAt(u);
    var s := Text(u);
    assert s[|u.scheme|..][..3] == "://";
    forall k | 0 <= k < |u.scheme| ensures !StartsWith(s[k..], "://") { assert s[k..][..3][0] == u.scheme[k]; }
  }

  lemma {:induction false} AuthorityStops(s: string, a: nat, e: nat)
    requires a <= e <= |s| && (forall i :: a <= i < e ==> !EndsAuthority(s[i])) && (e < |s| ==> EndsAuthority(s[e]))
    ensures AuthorityEnd(s, a) == e
    decreases e - a
  {
    if a < e { AuthorityStops(s, a + 1, e); }
  }

  /** No character of the authority is one of those that ns_ext_url_split looks for, but the colon. */
  lemma AuthorityChars(s: string, a: nat, host: string, he: nat)
    requires Stands(s, a, host, he)
    ensures forall i :: a <= i < he ==> !EndsAuthority(s[i]) && s[i] != '@' && s[i] != '['
    ensures AuthorityEnd(s, a) == he
  {
    forall i | a <= i < he ensures !EndsAuthority(s[i]) && s[i] != '@' && s[i] != '[' {
      if i < a + |host| { assert IsHostChar(host[i - a]); }
    }
    AuthorityStops(s, a, he);
  }

  lemma HostOfPlain(u: PlainUrl)
    requires Plain(u)
    ensures HostOf(Text(u)) == Some(Lower(u.host)) && StripPort(Lower(u.host)) == Lower(u.host)
  {
    SchemeFound(u);
    HostStands(u);
    HostRead(Text(u), HostAt(u), u.host, HostPast(u));
    PlainHostWhole(u.host);
  }

  lemma HostRead(s: string, a: nat, host: string, he: nat)
    requires Stands(s, a, host, he)
    ensures HostBehind(s, a) == host
  {
    AuthorityChars(s, a, host, he);
    ColonAfterHost(s, a, host, he);
  }

  lemma ColonAfterHost(s: string, a: nat, host: string, he: nat)
    requires Stands(s, a, host, he)
    ensures FindFrom(s, ':', a, he) == a + |host| && s[a..a + |host|] == host
  {
    forall i | a <= i < a + |host| ensures s[i] != ':' { assert IsHostChar(host[i - a]); }
  }

  lemma PlainHostWhole(host: string)
    requires forall i :: 0 <= i < |host| ==> IsHostChar(host[i])
    ensures StripPort(Lower(host)) == Lower(host)
  {
    var l := Lower(host);
    forall k | 0 <= k < |l| ensures l[k] != ':' && l[k] != '[' { assert IsHostChar(host[k]); }
    assert l[..|l|] == l;
  }

  // ---------- the pattern on such a URL ----------

  /** Literals match character by character. */
  lemma {:induction false} Literals(p: string, i: nat, n: nat, s: string, j: nat, anchored: bool)
    requires i <= n <= |p| && j <= |s| && forall k :: i <= k < n ==> p[k] != '*' && p[k] != '^'
    ensures Match(p, i, s, j, anchored) <==>
            j + (n - i) <= |s| && s[j..j + (n - i)] == p[i..n] && Match(p, n, s, j + (n - i), anchored)
    decreases n - i
  {
    if i < n {
      if j < |s| {
        Literals(p, i + 1, n, s, j + 1, anchored);
        if j + (n - i) <= |s| {
          assert s[j..j + (n - i)] == [s[j]] + s[j + 1..j + (n - i)];
          assert p[i..n] == [p[i]] + p[i + 1..n];
        }
      }
    } else {
      assert s[j..j] == p[i..i];
    }
  }

  /** A literal host with a caret matches where the host stands and no host character follows. */
  lemma HostCaret(host: string, s: string, j: nat)
    requires j <= |s| && forall k :: 0 <= k < |host| ==> IsHostChar(host[k])
    ensures InLanguage(host + "^", s, j, false) <==>
            j + |host| <= |s| && s[j..j + |host|] == host && (j + |host| < |s| ==> IsSeparator(s[j + |host|]))
  {
    var p := host + "^";
    MatchIsLanguage(p, s, j, false);
    Literals(p, 0, |host|, s, j, false);
    assert p[0..|host|] == host;
  }

  lemma FilterParts(p: string)
    requires IsSimpleHost(p)
    ensures Parts(Lower(p)) == Filter(true, false, false, HostIn(p) + "^")
    ensures HostIn(p) != "" && forall k :: 0 <= k < |HostIn(p)| ==> IsHostChar(HostIn(p)[k])
  {
    var f := Lower(p);
    assert p[0] == p[..2][0] && p[1] == p[..2][1];
    assert f[..2] == "||" by { assert f[0] == '|' && f[1] == '|'; }
    assert f[2..] == HostIn(p) + "^";
    forall k | 0 <= k < |HostIn(p)| ensures IsHostChar(HostIn(p)[k]) { assert IsHostChar(p[k + 2]); }
  }

  /** If the pattern matches at `pos`, it matches the rest of the host from there. */
  lemma MatchEndsHost(s: string, a: nat, host: string, he: nat, wanted: string, pos: nat)
    requires Stands(s, a, host, he) && wanted != "" && forall k :: 0 <= k < |wanted| ==> IsHostChar(wanted[k])
    requires a <= pos <= he && AtLabel(s, a, pos) && InLanguage(wanted + "^", s, pos, false)
    ensures LabelIn({wanted}, host, pos - a)
  {
    HostCaret(wanted, s, pos);
    var e := a + |host|;
    forall k | pos <= k < pos + |wanted| ensures s[k] == wanted[k - pos] && IsHostChar(s[k]) {
      assert s[pos..pos + |wanted|][k - pos] == wanted[k - pos];
    }
    forall i | e <= i < he ensures s[i] != '.' {}
    assert pos <= e;
    assert pos + |wanted| <= e;
    forall i | a <= i < e ensures !IsSeparator(s[i]) { assert IsHostChar(host[i - a]); }
    assert pos + |wanted| == e;
    if pos > a { assert s[a + (pos - a - 1)] == host[pos - a - 1]; }
    forall k | 0 <= k < |wanted| ensures host[pos - a..][k] == wanted[k] { assert s[a + (pos - a + k)] == host[pos - a + k]; }
    assert host[pos - a..] == wanted;
  }

  lemma HostEndsMatch(s: string, a: nat, host: string, he: nat, wanted: string, p: nat)
    requires Stands(s, a, host, he) && wanted != "" && forall k :: 0 <= k < |wanted| ==> IsHostChar(wanted[k])
    requires LabelIn({wanted}, host, p)
    ensures a + p <= he && AtLabel(s, a, a + p) && InLanguage(wanted + "^", s, a + p, false)
  {
    HostCaret(wanted, s, a + p);
    forall k | 0 <= k < |wanted| ensures s[a + p + k] == wanted[k] {
      assert host[p..][k] == wanted[k];
      assert s[a + (p + k)] == host[p + k];
    }
    assert s[a + p..a + p + |wanted|] == wanted;
    if p > 0 { assert s[a + (p - 1)] == host[p - 1]; }
  }

  /** The rule and the hash agree on every such URL. */
  lemma RuleIsHash(p: string, u: PlainUrl)
    requires IsSimpleHost(p) && Plain(u)
    ensures FilterMatches(p, Text(u), false) <==> Indexed({HostIn(p)}, Lower(u.host))
  {
    var host, l := HostIn(p), LowerParts(u);
    var s, a, he := Text(l), HostAt(l), HostPast(l);
    LowerText(u);
    SchemeFound(l);
    HostStands(l);
    AuthorityChars(s, a, l.host, he);
    FilterParts(p);
    var f := Parts(Lower(p));
    if FilterMatches(p, Text(u), false) {
      assert MatchesAtLabel(f, s);
      var pos :| a <= pos <= he && AtLabel(s, a, pos) && InLanguage(f.body, s, pos, f.end);
      MatchEndsHost(s, a, l.host, he, host, pos);
    }
    if Indexed({host}, l.host) {
      var i :| LabelIn({host}, l.host, i);
      HostEndsMatch(s, a, l.host, he, host, i);
      assert MatchesAtLabel(f, s);
    }
  }

  // ---------- the decision ----------

  function WithRule(exts: seq<seq<Rule>>, e: nat, k: nat, r: Rule): seq<seq<Rule>>
    requires e < |exts| && k <= |exts[e]|
  {
    exts[e := exts[e][..k] + [r] + exts[e][k..]]
  }

  lemma HitsWithRule(exts: seq<seq<Rule>>, e: nat, k: nat, r: Rule, q: Request)
    requires e < |exts| && k <= |exts[e]|
    ensures RuleHits(WithRule(exts, e, k, r), q) ==
            RuleHits(exts, q) + if RuleMatches(r, q) then {Hit(r.priority, r.action)} else {}
  {
    var more := WithRule(exts, e, k, r);
    forall h | h in RuleHits(more, q)
      ensures h in RuleHits(exts, q) || (RuleMatches(r, q) && h == Hit(r.priority, r.action)) {
      var i, j :| 0 <= i < |more| && 0 <= j < |more[i]| && RuleMatches(more[i][j], q) &&
                  h == Hit(more[i][j].priority, more[i][j].action);
      if i != e {
        assert exts[i][j] == more[i][j];
      } else if j != k {
        assert exts[e][if j < k then j else j - 1] == more[e][j];
      }
    }
    forall h | h in RuleHits(exts, q) ensures h in RuleHits(more, q) {
      var i, j :| 0 <= i < |exts| && 0 <= j < |exts[i]| && RuleMatches(exts[i][j], q) &&
                  h == Hit(exts[i][j].priority, exts[i][j].action);
      assert more[i][if i == e && j >= k then j + 1 else j] == exts[i][j];
    }
    assert more[e][k] == r;
  }

  lemma HashHitsMore(hosts: set<string>, host: string, h: string)
    requires StripPort(h) == h
    ensures HashHits(hosts + {host}, Some(h)) ==
            HashHits(hosts, Some(h)) + if Indexed({host}, h) then {Hit(1, Block)} else {}
  {
    if Indexed(hosts + {host}, h) {
      var p :| LabelIn(hosts + {host}, h, p);
      assert LabelIn(hosts, h, p) || LabelIn({host}, h, p);
    }
    if Indexed(hosts, h) {
      var p :| LabelIn(hosts, h, p);
      assert LabelIn(hosts + {host}, h, p);
    }
    if Indexed({host}, h) {
      var p :| LabelIn({host}, h, p);
      assert LabelIn(hosts + {host}, h, p);
    }
  }

  /** Keeping a plain host rule in the hash decides every such request exactly as keeping it as a rule of
      priority 1 anywhere in any extension's list. */
  lemma HashChangesNothing(f: Filters, p: string, e: nat, k: nat, u: PlainUrl, initiator: Option<string>,
                           registrable: string -> Option<string>, infer: string -> Option<string>)
    requires IsSimpleHost(p) && Plain(u) && e < |f.exts| && k <= |f.exts[e]|
    ensures Blocks(f.(hosts := f.hosts + {HostIn(p)}), Text(u), initiator, registrable, infer) <==>
            Blocks(f.(exts := WithRule(f.exts, e, k, PlainRule(p))), Text(u), initiator, registrable, infer)
  {
    var q := RequestFor(Text(u), initiator, registrable, infer);
    var r := PlainRule(p);
    HostOfPlain(u);
    RuleIsHash(p, u);
    HitsWithRule(f.exts, e, k, r, q);
    HashHitsMore(f.hosts, HostIn(p), Lower(u.host));
    assert RuleMatches(r, q) <==> FilterMatches(p, Text(u), false);
    var extra: set<Hit> := if RuleMatches(r, q) then {Hit(1, Block)} else {};
    var hash := HashHits(f.hosts, Some(Lower(u.host)));
    assert hash + extra + RuleHits(f.exts, q) == hash + (RuleHits(f.exts, q) + extra);
  }
}
