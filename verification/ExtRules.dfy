/**
 What the request filter of src/ext.c means, in its users' terms: which hosts a domain covers, when two hosts
 belong to one site, what a filter without wildcards finds, where the host of a URL stands, and which rules
 have a say in a decision.
 */
module ExtRules {
  import opened Common
  import opened Strings
  import opened ExtPattern
  import opened ExtFilter
  import opened ExtHosts

  // ---------- domains ----------

  /** The parts between the dots of a host. */
  function Labels(host: string): (r: seq<string>)
    ensures r != [] && forall i :: 0 <= i < |r| ==> '.' !in r[i]
  {
    var dot := Find(host, '.');
    if dot == |host| then [host] else [host[..dot]] + Labels(host[dot + 1..])
  }

  /** `b` ends with `a`. */
  predicate Suffix<T(==)>(a: seq<T>, b: seq<T>) {
    |a| <= |b| && b[|b| - |a|..] == a
  }

  function Dotted(labels: seq<string>): string
    requires labels != []
  {
    if |labels| == 1 then labels[0] else labels[0] + "." + Dotted(labels[1..])
  }

  lemma {:induction false} LabelsDotted(host: string)
    ensures Dotted(Labels(host)) == host
    decreases |host|
  {
    var dot := Find(host, '.');
    if dot < |host| {
      LabelsDotted(host[dot + 1..]);
      assert Labels(host)[1..] == Labels(host[dot + 1..]);
      assert host == host[..dot] + "." + host[dot + 1..];
    }
  }

  /** The labels, if `a` is the first of them. */
  lemma FirstLabel(a: string, b: string)
    requires '.' !in a
    ensures Labels(a + "." + b) == [a] + Labels(b) && Labels(a) == [a]
  {
    var s := a + "." + b;
    assert s[|a|] == '.' && forall i :: 0 <= i < |a| ==> s[i] == a[i];
    assert Find(s, '.') == |a|;
    assert s[..|a|] == a && s[|a| + 1..] == b;
  }

  lemma {:induction false} DottedLabels(p: seq<string>)
    requires p != [] && forall i :: 0 <= i < |p| ==> '.' !in p[i]
    ensures Labels(Dotted(p)) == p
    decreases |p|
  {
    if |p| == 1 {
      FirstLabel(p[0], "");
    } else {
      DottedLabels(p[1..]);
      FirstLabel(p[0], Dotted(p[1..]));
    }
  }

  lemma {:induction false} DottedJoin(p: seq<string>, q: seq<string>)
    requires p != [] && q != []
    ensures Dotted(p + q) == Dotted(p) + "." + Dotted(q)
    decreases |p|
  {
    assert (p + q)[1..] == p[1..] + q;
    if |p| > 1 { DottedJoin(p[1..], q); }
  }

  /** A domain covers exactly itself and its subdomains, label by label. */
  lemma DomainCovers(domain: string, host: string)
    ensures DomainMatch(domain, host) <==> Suffix(Labels(domain), Labels(host))
  {
    if domain != host && DomainMatch(domain, host) { CoversSubdomain(domain, host, |host| - |domain|); }
    if Suffix(Labels(domain), Labels(host)) { CoveredByLabels(domain, host); }
  }

  lemma CoversSubdomain(domain: string, host: string, k: nat)
    requires 0 < k <= |host| && host[k - 1] == '.' && host[k..] == domain
    ensures Suffix(Labels(domain), Labels(host))
  {
    var a := host[..k - 1];
    var p, d := Labels(a), Labels(domain);
    assert host == a + "." + domain;
    LabelsDotted(a);
    LabelsDotted(domain);
    DottedJoin(p, d);
    DottedLabels(p + d);
  }

  lemma CoveredByLabels(domain: string, host: string)
    requires Suffix(Labels(domain), Labels(host))
    ensures DomainMatch(domain, host)
  {
    var d, h := Labels(domain), Labels(host);
    var p := h[..|h| - |d|];
    LabelsDotted(domain);
    LabelsDotted(host);
    assert h == p + d;
    if p == [] {
      assert h == d;
    } else {
      DottedJoin(p, d);
      EndsBehindDot(Dotted(p), domain, host);
    }
  }

  lemma EndsBehindDot(a: string, b: string, s: string)
    requires s == a + "." + b
    ensures DomainMatch(b, s)
  {
    assert s[|a|] == '.' && s[|a| + 1..] == b;
  }

  // ---------- sites ----------

  /** The two hosts are one, or they have one registrable domain. */
  ghost predicate SameSite(a: string, b: string, registrable: string -> Option<string>) {
    a == b || exists d :: registrable(a) == Some(d) && registrable(b) == Some(d)
  }

  /** The host without its port, unless it is missing or empty. */
  function Named(host: Option<string>): Option<string> {
    if host.None? || StripPort(host.value) == "" then None else Some(StripPort(host.value))
  }

  /** A request is of the same site, of a third party, or that cannot be told; which of them does not depend on
      which of the two hosts is the initiator. */
  lemma ThirdPartyTells(req: Option<string>, init: Option<string>, registrable: string -> Option<string>)
    ensures var tp, r, i := ThirdParty(req, init, registrable), Named(req), Named(init);
            && (tp == -1 <==> r.None? || i.None?)
            && (tp == 0 <==> r.Some? && i.Some? && SameSite(r.value, i.value, registrable))
            && (tp == 1 <==> r.Some? && i.Some? && !SameSite(r.value, i.value, registrable))
    ensures ThirdParty(init, req, registrable) == ThirdParty(req, init, registrable)
  {
    if Named(req).Some? && Named(init).Some? {
      var rr := registrable(Named(req).value);
      if rr.Some? && rr == registrable(Named(init).value) {
        assert SameSite(Named(req).value, Named(init).value, registrable) by { assert rr == Some(rr.value); }
      }
    }
  }

  /** A host is what stands in brackets, with them, or else what stands before the first colon. */
  lemma PortStripped(host: string, port: string)
    requires port == "" || port[0] == ':'
    requires host != "" && host[0] == '[' ==> host[|host| - 1] == ']' && forall i :: 0 <= i < |host| - 1 ==> host[i] != ']'
    requires host == "" || host[0] != '[' ==> forall i :: 0 <= i < |host| ==> host[i] != ':'
    ensures StripPort(host + port) == host
  {
    var s := host + port;
    if host != "" && host[0] == '[' {
      FoundAt(s, ']', 0, |s|, |host| - 1);
      assert s[..|host|] == host;
    } else {
      forall i | 0 <= i < |host| ensures s[i] != ':' { assert s[i] == host[i]; }
      FoundAt(s, ':', 0, |s|, |host|);
      assert s[..|host|] == host;
    }
  }

  lemma FoundAt(s: string, c: char, lo: nat, hi: nat, at: nat)
    requires lo <= at <= hi <= |s| && (forall i :: lo <= i < at ==> s[i] != c) && (at < hi ==> s[at] == c)
    ensures FindFrom(s, c, lo, hi) == at
  {
  }

  // ---------- hosts ----------

  /** What may stand where the host of a URL does: an address in brackets, or a name. */
  ghost predicate IsHostText(host: string) {
    && (forall i :: 0 <= i < |host| ==> host[i] != '@' && !EndsAuthority(host[i]))
    && if host != "" && host[0] == '[' then
         host[|host| - 1] == ']' && forall i :: 0 <= i < |host| - 1 ==> host[i] != ']'
       else forall i :: 0 <= i < |host| ==> host[i] != ':'
  }

  ghost predicate IsPortText(port: string) {
    port == "" || (port[0] == ':' && forall i :: 0 <= i < |port| ==> port[i] != '@' && !EndsAuthority(port[i]))
  }

  ghost predicate IsUserText(user: string) {
    user == "" || (user[|user| - 1] == '@' && forall i :: 0 <= i < |user| ==> !EndsAuthority(user[i]))
  }

  /** `w` stands in `u` at `i`. */
  predicate At(w: string, u: string, i: int) {
    0 <= i && i + |w| <= |u| && u[i..i + |w|] == w
  }

  /** A URL and its parts */
  datatype Url = Url(scheme: string, user: string, host: string, port: string, tail: string)

  ghost predicate Legal(u: Url) {
    && (forall i :: 0 <= i < |u.scheme| ==> u.scheme[i] != ':')
    && IsUserText(u.user) && IsHostText(u.host) && IsPortText(u.port) && (u.tail == "" || EndsAuthority(u.tail[0]))
  }

  function Authority(u: Url): string {
    u.user + u.host + u.port
  }

  function UrlText(u: Url): string {
    u.scheme + "://" + Authority(u) + u.tail
  }

  lemma SchemeEnds(u: Url)
    requires Legal(u)
    ensures FindText(UrlText(u), "://") == |u.scheme| < |UrlText(u)| && AuthorityStart(UrlText(u)) == |u.scheme| + 3
  {
    var s := UrlText(u);
    assert s[|u.scheme|..][..3] == "://";
    forall k | 0 <= k < |u.scheme| ensures !StartsWith(s[k..], "://") { assert s[k..][..3][0] == u.scheme[k]; }
  }

  lemma AuthorityStands(u: Url)
    requires Legal(u)
    ensures var s, a, w := UrlText(u), |u.scheme| + 3, Authority(u); At(w, s, a) && AuthorityEnd(s, a) == a + |w|
  {
    var s, a, w := UrlText(u), |u.scheme| + 3, Authority(u);
    assert |w| == |u.user| + |u.host| + |u.port|;
    assert s[a..a + |w|] == w;
    forall i | a <= i < a + |w| ensures !EndsAuthority(s[i]) { assert s[i] == w[i - a]; }
    if a + |w| < |s| { assert s[a + |w|] == u.tail[0]; }
  }

  lemma UserEnds(u: Url, s: string, a: nat)
    requires Legal(u) && At(Authority(u), s, a)
    ensures BehindUserinfo(s, a, a + |Authority(u)|) == a + |u.user|
  {
    var w := Authority(u);
    forall i | a + |u.user| <= i < a + |w| ensures s[i] != '@' { assert s[i] == w[i - a]; }
    if u.user != "" { assert s[a + |u.user| - 1] == w[|u.user| - 1]; }
    LastAt(s, a, a + |u.user|, a + |w|);
  }

  lemma {:induction false} LastAt(s: string, lo: nat, at: nat, hi: nat)
    requires lo <= at <= hi <= |s| && (at == lo || s[at - 1] == '@') && forall i :: at <= i < hi ==> s[i] != '@'
    ensures BehindUserinfo(s, lo, hi) == at
    decreases hi
  {
    if at < hi { LastAt(s, lo, at, hi - 1); }
  }

  /** Where the host stands in the authority */
  lemma HostStandsIn(u: Url, s: string, a: nat)
    requires Legal(u) && At(Authority(u), s, a)
    ensures var h := a + |u.user|;
            && h + |u.host| + |u.port| == a + |Authority(u)| <= |s|
            && (forall i :: 0 <= i < |u.host| ==> s[h + i] == u.host[i])
            && (u.port != "" ==> s[h + |u.host|] == ':')
  {
    var w, h := Authority(u), a + |u.user|;
    forall i | 0 <= i < |u.host| ensures s[h + i] == u.host[i] { assert s[a..a + |w|][|u.user| + i] == w[|u.user| + i]; }
    if u.port != "" { assert s[a..a + |w|][|u.user| + |u.host|] == w[|u.user| + |u.host|]; }
  }

  /** Where the host ends that begins at `h` in an authority that ends at `he` */
  lemma HostEnds(u: Url, s: string, h: nat, he: nat)
    requires Legal(u) && he == h + |u.host| + |u.port| <= |s|
    requires forall i :: 0 <= i < |u.host| ==> s[h + i] == u.host[i]
    requires u.port != "" ==> s[h + |u.host|] == ':'
    ensures HostSpan(s, h, he) == u.host
  {
    assert s[h..h + |u.host|] == u.host;
    if u.host != "" && u.host[0] == '[' {
      assert s[h + 0] == '[';
      forall i | h <= i < h + |u.host| - 1 ensures s[i] != ']' { assert s[h + (i - h)] == u.host[i - h]; }
      assert s[h + (|u.host| - 1)] == ']';
      FoundAt(s, ']', h, he, h + |u.host| - 1);
    } else {
      if u.host != "" { assert s[h + 0] == u.host[0]; }
      forall i | h <= i < h + |u.host| ensures s[i] != ':' { assert s[h + (i - h)] == u.host[i - h]; }
      FoundAt(s, ':', h, he, h + |u.host|);
    }
  }

  lemma HostStandsBetween(u: Url, s: string, a: nat)
    requires Legal(u) && At(Authority(u), s, a)
    ensures HostSpan(s, a + |u.user|, a + |Authority(u)|) == u.host
  {
    HostStandsIn(u, s, a);
    HostEnds(u, s, a + |u.user|, a + |Authority(u)|);
  }

  lemma HostFound(u: Url, s: string, a: nat)
    requires Legal(u) && At(Authority(u), s, a) && AuthorityEnd(s, a) == a + |Authority(u)|
    ensures HostBehind(s, a) == u.host
  {
    UserEnds(u, s, a);
    HostStandsBetween(u, s, a);
  }

  /** The host of a URL stands behind its user and before its port, and is told in small letters. */
  lemma HostOfUrl(u: Url)
    requires Legal(u)
    ensures HostOf(UrlText(u)) == Some(Lower(u.host))
  {
    SchemeEnds(u);
    AuthorityStands(u);
    HostFound(u, UrlText(u), |u.scheme| + 3);
  }

  // ---------- filters without wildcards ----------

  /** A text without the characters that mean something in a filter, a bar at its ends included. */
  predicate IsWord(w: string) {
    && w != "" && w[0] != '|' && w[|w| - 1] != '|'
    && forall i :: 0 <= i < |w| ==> w[i] != '*' && w[i] != '^'
  }

  function Folded(s: string, caseSensitive: bool): string {
    if caseSensitive then s else Lower(s)
  }

  lemma FoldedWord(w: string, caseSensitive: bool)
    requires IsWord(w)
    ensures IsWord(Folded(w, caseSensitive))
  {
  }

  /** Bars as in a filter */
  function Bars(n: nat): string {
    seq(n, i => '|')
  }

  lemma BarsAt(p: string)
    ensures StartsWith(p, "||") <==> |p| >= 2 && p[0] == '|' && p[1] == '|'
    ensures StartsWith(p, "|") <==> p != "" && p[0] == '|'
  {
  }

  lemma PartsBetween(front: nat, v: string, back: nat)
    requires IsWord(v) && front <= 2 && back <= 1
    ensures Parts(Bars(front) + v + Bars(back)) == Filter(front == 2, front == 1, back == 1, v)
  {
    var p := Bars(front) + v + Bars(back);
    BarsAt(p);
    assert p[front] == v[0];
    forall i | 0 <= i < front ensures p[i] == '|' {}
    assert p[front..] == v + Bars(back);
    PartsOf(p, front, v, back);
  }

  lemma PartsOf(p: string, front: nat, v: string, back: nat)
    requires v != "" && v[|v| - 1] != '|' && front <= 2 && back <= 1
    requires front <= |p| && p[front..] == v + Bars(back)
    requires (StartsWith(p, "||") <==> front == 2) && (StartsWith(p, "|") <==> front > 0)
    ensures Parts(p) == Filter(front == 2, front == 1, back == 1, v)
  {
    var rest := p[front..];
    assert rest[|rest| - 1] == if back == 1 then '|' else v[|v| - 1];
    assert v == if back == 1 then rest[..|rest| - 1] else rest;
  }

  lemma FoldedBetween(front: nat, w: string, back: nat, caseSensitive: bool)
    ensures Folded(Bars(front) + w + Bars(back), caseSensitive) == Bars(front) + Folded(w, caseSensitive) + Bars(back)
  {
  }

  lemma WordLanguage(w: string, u: string, i: nat, anchored: bool)
    requires IsWord(w) && i <= |u|
    ensures InLanguage(w, u, i, anchored) <==> At(w, u, i) && (anchored ==> i + |w| == |u|)
  {
    MatchIsLanguage(w, u, i, anchored);
    Literals(w, 0, |w|, u, i, anchored);
    assert w[0..|w|] == w;
  }

  /** A label of the host begins at `i`: there begins the authority of the URL, or a dot stands before it. */
  ghost predicate LabelBegins(u: string, i: int) {
    var a := AuthorityStart(u);
    a <= i <= AuthorityEnd(u, a) && (i == a || u[i - 1] == '.')
  }

  ghost predicate FoundBetween(front: nat, v: string, back: nat, u: string, i: int) {
    At(v, u, i) && (front == 1 ==> i == 0) && (front == 2 ==> LabelBegins(u, i)) && (back == 1 ==> i + |v| == |u|)
  }

  /** A plain word is found anywhere, behind a bar at the start, before a bar at the end, behind two bars where
      a label of the host begins. */
  lemma WordFound(front: nat, w: string, back: nat, url: string, caseSensitive: bool)
    requires IsWord(w) && front <= 2 && back <= 1
    ensures var u, v := Folded(url, caseSensitive), Folded(w, caseSensitive);
            FilterMatches(Bars(front) + w + Bars(back), url, caseSensitive) <==> exists i :: FoundBetween(front, v, back, u, i)
  {
    var u, v := Folded(url, caseSensitive), Folded(w, caseSensitive);
    FoldedWord(w, caseSensitive);
    FoldedBetween(front, w, back, caseSensitive);
    PartsBetween(front, v, back);
    PiecesFound(front, v, back, u);
    assert (Bars(front) + w + Bars(back))[front] == w[0];
  }

  lemma PiecesFound(front: nat, v: string, back: nat, u: string)
    requires IsWord(v) && front <= 2 && back <= 1
    ensures var f := Filter(front == 2, front == 1, back == 1, v);
            (if f.domain then MatchesAtLabel(f, u) else if f.start then InLanguage(v, u, 0, f.end) else MatchesAnywhere(f, u))
            <==> exists i :: FoundBetween(front, v, back, u, i)
  {
    var a, end := AuthorityStart(u), back == 1;
    forall i: nat | i <= |u| ensures InLanguage(v, u, i, end) <==> At(v, u, i) && (end ==> i + |v| == |u|) {
      WordLanguage(v, u, i, end);
    }
    if i :| 0 <= i <= |u| && InLanguage(v, u, i, end) && (front == 1 ==> i == 0) && (front == 2 ==> LabelBegins(u, i)) {
      assert FoundBetween(front, v, back, u, i);
    }
    if i :| FoundBetween(front, v, back, u, i) {
      assert InLanguage(v, u, i, end);
      assert front == 2 ==> AtLabel(u, a, i);
    }
  }

  // ---------- rules ----------

  /** One of the domains covers the host. */
  ghost predicate Covers(domains: seq<string>, host: Option<string>) {
    host.Some? && exists d :: d in domains && Suffix(Labels(d), Labels(host.value))
  }

  lemma ListCovers(domains: seq<string>, host: Option<string>)
    ensures DomainListMatch(domains, host) <==> Covers(domains, host)
  {
    if host.Some? {
      forall d | d in domains ensures DomainMatch(d, host.value) <==> Suffix(Labels(d), Labels(host.value)) {
        DomainCovers(d, host.value);
      }
    }
  }

  /** The hosts of a request and of its initiator, and the type of the request. */
  datatype Parties = Parties(host: Option<string>, initiator: Option<string>, kind: Option<string>)

  function PartiesOf(url: string, initiator: Option<string>, infer: string -> Option<string>): Parties {
    Parties(HostOf(url), if initiator.Some? then HostOf(initiator.value) else None, infer(url))
  }

  function Bare(host: Option<string>): Option<string> {
    if host.Some? then Some(StripPort(host.value)) else None
  }

  ghost predicate FromOneSite(p: Parties, registrable: string -> Option<string>) {
    var r, i := Named(p.host), Named(p.initiator);
    r.Some? && i.Some? && SameSite(r.value, i.value, registrable)
  }

  ghost predicate FromThirdParty(p: Parties, registrable: string -> Option<string>) {
    var r, i := Named(p.host), Named(p.initiator);
    r.Some? && i.Some? && !SameSite(r.value, i.value, registrable)
  }

  /** Everything that a rule asks for is there, and nothing that it excludes. */
  ghost predicate Applies(r: Rule, url: string, p: Parties, registrable: string -> Option<string>) {
    && (r.thirdParty == 1 ==> FromThirdParty(p, registrable))
    && (r.thirdParty == -1 ==> FromOneSite(p, registrable))
    && (r.requestDomains.Some? ==> Covers(r.requestDomains.value, Bare(p.host)))
    && (r.excludedRequestDomains.Some? ==> !Covers(r.excludedRequestDomains.value, Bare(p.host)))
    && (r.initiatorDomains.Some? ==> Covers(r.initiatorDomains.value, Bare(p.initiator)))
    && (r.excludedInitiatorDomains.Some? ==> !Covers(r.excludedInitiatorDomains.value, Bare(p.initiator)))
    && (r.urlFilter.Some? ==> FilterMatches(r.urlFilter.value, url, r.caseSensitive))
    && (r.regex.Some? ==> r.regex.value(url))
    && (r.resourceTypes.Some? ==> p.kind.Some? && p.kind.value in r.resourceTypes.value)
    && (r.excludedResourceTypes.Some? && p.kind.Some? ==> p.kind.value !in r.excludedResourceTypes.value)
  }

  lemma RuleApplies(r: Rule, url: string, initiator: Option<string>, registrable: string -> Option<string>,
                    infer: string -> Option<string>)
    ensures RuleMatches(r, RequestFor(url, initiator, registrable, infer)) <==>
            Applies(r, url, PartiesOf(url, initiator, infer), registrable)
  {
    var q, p := RequestFor(url, initiator, registrable, infer), PartiesOf(url, initiator, infer);
    SiteTells(p, registrable);
    MaybeCovers(r.requestDomains, q.host);
    MaybeCovers(r.excludedRequestDomains, q.host);
    MaybeCovers(r.initiatorDomains, q.initiator);
    MaybeCovers(r.excludedInitiatorDomains, q.initiator);
  }

  lemma SiteTells(p: Parties, registrable: string -> Option<string>)
    ensures FromThirdParty(p, registrable) <==> ThirdParty(p.host, p.initiator, registrable) == 1
    ensures FromOneSite(p, registrable) <==> ThirdParty(p.host, p.initiator, registrable) == 0
  {
    ThirdPartyTells(p.host, p.initiator, registrable);
  }

  lemma MaybeCovers(domains: Option<seq<string>>, host: Option<string>)
    ensures domains.Some? ==> (DomainListMatch(domains.value, host) <==> Covers(domains.value, host))
  {
    if domains.Some? { ListCovers(domains.value, host); }
  }

  // ---------- decisions ----------

  /** A domain of the hash covers the host. */
  ghost predicate Listed(hosts: set<string>, host: Option<string>) {
    host.Some? && exists d :: d in hosts && d != "" && Suffix(Labels(d), Labels(host.value))
  }

  lemma IndexedIsListed(hosts: set<string>, host: string)
    ensures Indexed(hosts, host) <==> Listed(hosts, Some(host))
  {
    if Indexed(hosts, host) {
      var p :| LabelIn(hosts, host, p);
      DomainCovers(host[p..], host);
      assert host[|host| - |host[p..]|..] == host[p..];
    }
    if Listed(hosts, Some(host)) {
      var d :| d in hosts && d != "" && Suffix(Labels(d), Labels(host));
      DomainCovers(d, host);
      assert host[0..] == host;
      assert LabelIn(hosts, host, |host| - |d|);
    }
  }

  /** Some rule that applies, or the hash, asks for this action with this priority. */
  ghost predicate Asks(f: Filters, url: string, p: Parties, registrable: string -> Option<string>, h: Hit) {
    (h == Hit(1, Block) && Listed(f.hosts, Bare(p.host))) ||
    exists rules, r :: rules in f.exts && r in rules && h == Hit(r.priority, r.action) && Applies(r, url, p, registrable)
  }

  lemma HitsAsk(f: Filters, url: string, initiator: Option<string>, registrable: string -> Option<string>,
                infer: string -> Option<string>, h: Hit)
    ensures h in HashHits(f.hosts, HostOf(url)) + RuleHits(f.exts, RequestFor(url, initiator, registrable, infer)) <==>
            Asks(f, url, PartiesOf(url, initiator, infer), registrable, h)
  {
    var q, p := RequestFor(url, initiator, registrable, infer), PartiesOf(url, initiator, infer);
    if p.host.Some? { IndexedIsListed(f.hosts, StripPort(p.host.value)); }
    if h in RuleHits(f.exts, q) {
      var i, j :| 0 <= i < |f.exts| && 0 <= j < |f.exts[i]| && RuleMatches(f.exts[i][j], q) &&
                  h == Hit(f.exts[i][j].priority, f.exts[i][j].action);
      RuleApplies(f.exts[i][j], url, initiator, registrable, infer);
      assert f.exts[i] in f.exts && f.exts[i][j] in f.exts[i];
    }
    if rules, r :| rules in f.exts && r in rules && h == Hit(r.priority, r.action) && Applies(r, url, p, registrable) {
      RuleApplies(r, url, initiator, registrable, infer);
      var i :| 0 <= i < |f.exts| && f.exts[i] == rules;
      var j :| 0 <= j < |rules| && rules[j] == r;
      assert RuleMatches(f.exts[i][j], q);
    }
  }

  /** A request is blocked exactly if it is an http or https request, an extension is loaded, and of what applies
      to it the highest priority blocks: nothing of that priority allows, and nothing stands above it. */
  lemma BlocksMeans(f: Filters, url: string, initiator: Option<string>, registrable: string -> Option<string>,
                    infer: string -> Option<string>)
    ensures var p := PartiesOf(url, initiator, infer);
            Blocks(f, url, initiator, registrable, infer) <==>
            && f.exts != [] && (StartsWith(url, "http://") || StartsWith(url, "https://"))
            && exists top :: top >= 0 && Asks(f, url, p, registrable, Hit(top, Block)) &&
                 !Asks(f, url, p, registrable, Hit(top, Allow)) &&
                 forall h :: Asks(f, url, p, registrable, h) ==> h.priority <= top
  {
    var p := PartiesOf(url, initiator, infer);
    var hits := HashHits(f.hosts, HostOf(url)) + RuleHits(f.exts, RequestFor(url, initiator, registrable, infer));
    forall h ensures h in hits <==> Asks(f, url, p, registrable, h) {
      HitsAsk(f, url, initiator, registrable, infer, h);
    }
    if Blocked(hits) {
      var h :| h in hits && h.priority >= 0 && h.action == Block && Tops(h, hits);
      assert h == Hit(h.priority, Block);
      assert Asks(f, url, p, registrable, Hit(h.priority, Allow)) <==> Hit(h.priority, Allow) in hits;
    }
    if top :| top >= 0 && Asks(f, url, p, registrable, Hit(top, Block)) &&
              !Asks(f, url, p, registrable, Hit(top, Allow)) &&
              forall h :: Asks(f, url, p, registrable, h) ==> h.priority <= top {
      forall g | g in hits ensures g.priority < top || (g.priority == top && g.action == Block) {
        assert Asks(f, url, p, registrable, g);
        assert g == Hit(g.priority, g.action);
      }
      assert Tops(Hit(top, Block), hits);
    }
  }

  /** A rule for third parties has no say in a request that is not from one, and a rule for the same site has
      none in a request that is not from there: with or without it the decision is the same. */
  lemma SiteRuleHasNoSay(f: Filters, e: nat, k: nat, r: Rule, url: string, initiator: Option<string>,
                         registrable: string -> Option<string>, infer: string -> Option<string>)
    requires e < |f.exts| && k <= |f.exts[e]|
    requires var p := PartiesOf(url, initiator, infer);
             (r.thirdParty == 1 && !FromThirdParty(p, registrable)) || (r.thirdParty == -1 && !FromOneSite(p, registrable))
    ensures Blocks(f.(exts := WithRule(f.exts, e, k, r)), url, initiator, registrable, infer) <==>
            Blocks(f, url, initiator, registrable, infer)
  {
    var q := RequestFor(url, initiator, registrable, infer);
    RuleApplies(r, url, initiator, registrable, infer);
    HitsWithRule(f.exts, e, k, r, q);
    assert RuleHits(WithRule(f.exts, e, k, r), q) == RuleHits(f.exts, q);
  }
}
