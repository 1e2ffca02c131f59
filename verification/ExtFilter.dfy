/**
 The blocking decision of src/ext.c: rules with priorities, the hash of plain host rules beside them, and
 why that hash changes nothing.
 */
module ExtFilter {
  import opened Common
  import opened Strings
  import opened ExtPattern

  // ---------- hosts ----------

  /** Behind the last `@` in the authority. */
  function BehindUserinfo(s: string, lo: nat, hi: nat): (i: nat)
    requires lo <= hi <= |s|
    ensures lo <= i <= hi
    ensures (forall k :: lo <= k < hi ==> s[k] != '@') ==> i == lo
    decreases hi - lo
  {
    if lo == hi then lo
    else if s[hi - 1] == '@' then hi
    else BehindUserinfo(s, lo, hi - 1)
  }

  /** The host that ns_ext_url_split finds. */
  function HostOf(url: string): Option<string> {
    var sep := FindText(url, "://");
    if sep == |url| then None else Some(Lower(HostBehind(url, sep + 3)))
  }

  /** The host in the authority that starts at `a`. */
  function HostBehind(url: string, a: nat): string
    requires a <= |url|
  {
    var he := AuthorityEnd(url, a);
    HostSpan(url, BehindUserinfo(url, a, he), he)
  }

  /** The host between `h` and the end of the authority, without a port. */
  function HostSpan(url: string, h: nat, he: nat): string
    requires h <= he <= |url|
  {
    var end :=
      if h < he && url[h] == '[' then
        (var close := FindFrom(url, ']', h, he); if close < he then close + 1 else he)
      else FindFrom(url, ':', h, he);
    url[h..end]
  }

  /** ns_ext_strip_port */
  function StripPort(host: string): string {
    var close := FindFrom(host, ']', 0, |host|);
    if host != "" && host[0] == '[' && close < |host| then host[..close + 1]
    else host[..FindFrom(host, ':', 0, |host|)]
  }

  /** A suffix of the host that starts at a label is in the hash. */
  ghost predicate Indexed(hosts: set<string>, host: string) {
    exists p :: LabelIn(hosts, host, p)
  }

  ghost predicate LabelIn(hosts: set<string>, host: string, p: int) {
    0 <= p < |host| && (p == 0 || host[p - 1] == '.') && host[p..] in hosts
  }

  /** ns_ext_host_indexed */
  method HostIndexed(hosts: set<string>, host: Option<string>) returns (found: bool)
    ensures found <==> host.Some? && Indexed(hosts, StripPort(host.value))
  {
    if host.None? || hosts == {} { return false; }
    var h := StripPort(host.value);
    var p := 0;
    while p < |h|
      invariant 0 <= p <= |h| && (p == 0 || h[p - 1] == '.')
      invariant forall k :: 0 <= k < p ==> !LabelIn(hosts, h, k)
    {
      if h[p..] in hosts {
        assert LabelIn(hosts, h, p);
        return true;
      }
      var dot := FindFrom(h, '.', p, |h|);
      if dot == |h| { return false; }
      p := dot + 1;
    }
    return false;
  }

  /** ns_ext_third_party: 1 for a third party, 0 for the same site, -1 if that cannot be told.  The public
      suffix list is the parameter `registrable`. */
  function ThirdParty(req: Option<string>, init: Option<string>, registrable: string -> Option<string>): int {
    if req.None? || init.None? then -1
    else
      var r, i := StripPort(req.value), StripPort(init.value);
      if r == "" || i == "" then -1
      else if r == i then 0
      else
        var rr, ir := registrable(r), registrable(i);
        if rr.None? || ir.None? then 1 else if rr == ir then 0 else 1
  }

  // ---------- rules ----------

  datatype Action = Block | Allow

  /** ns_dnr_rule.  What a regular expression says of a URL is part of the rule here. */
  datatype Rule = Rule(
    action: Action,
    priority: int,
    urlFilter: Option<string>,
    caseSensitive: bool,
    regex: Option<string -> bool>,
    requestDomains: Option<seq<string>>,
    excludedRequestDomains: Option<seq<string>>,
    initiatorDomains: Option<seq<string>>,
    excludedInitiatorDomains: Option<seq<string>>,
    resourceTypes: Option<seq<string>>,
    excludedResourceTypes: Option<seq<string>>,
    thirdParty: int)

  /** ns_dnr_domain_match */
  predicate DomainMatch(domain: string, host: string) {
    domain == host ||
    (|host| > |domain| && host[|host| - |domain| - 1] == '.' && host[|host| - |domain|..] == domain)
  }

  predicate DomainListMatch(list: seq<string>, host: Option<string>) {
    host.Some? && exists i :: 0 <= i < |list| && DomainMatch(list[i], host.value)
  }

  predicate TypeInList(list: seq<string>, kind: Option<string>) {
    kind.Some? && kind.value in list
  }

  /** What a rule is asked about. */
  datatype Request = Request(url: string, host: Option<string>, initiator: Option<string>, thirdParty: int,
                             kind: Option<string>)

  /** ns_dnr_rule_matches */
  ghost predicate RuleMatches(r: Rule, q: Request) {
    && (r.thirdParty == 1 ==> q.thirdParty == 1)
    && (r.thirdParty == -1 ==> q.thirdParty == 0)
    && (r.requestDomains.Some? ==> DomainListMatch(r.requestDomains.value, q.host))
    && (r.excludedRequestDomains.Some? ==> !DomainListMatch(r.excludedRequestDomains.value, q.host))
    && (r.initiatorDomains.Some? ==> DomainListMatch(r.initiatorDomains.value, q.initiator))
    && (r.excludedInitiatorDomains.Some? ==> !DomainListMatch(r.excludedInitiatorDomains.value, q.initiator))
    && (r.urlFilter.Some? ==> FilterMatches(r.urlFilter.value, q.url, r.caseSensitive))
    && (r.regex.Some? ==> r.regex.value(q.url))
    && (r.resourceTypes.Some? ==> TypeInList(r.resourceTypes.value, q.kind))
    && (r.excludedResourceTypes.Some? ==> !TypeInList(r.excludedResourceTypes.value, q.kind))
  }

  method RuleMatch(r: Rule, q: Request) returns (found: bool)
    ensures found <==> RuleMatches(r, q)
  {
    if r.thirdParty == 1 && q.thirdParty != 1 { return false; }
    if r.thirdParty == -1 && q.thirdParty != 0 { return false; }
    if r.requestDomains.Some? && !DomainListMatch(r.requestDomains.value, q.host) { return false; }
    if r.excludedRequestDomains.Some? && DomainListMatch(r.excludedRequestDomains.value, q.host) { return false; }
    if r.initiatorDomains.Some? && !DomainListMatch(r.initiatorDomains.value, q.initiator) { return false; }
    if r.excludedInitiatorDomains.Some? && q.initiator.Some? &&
       DomainListMatch(r.excludedInitiatorDomains.value, q.initiator) { return false; }
    if r.urlFilter.Some? {
      var hit := FilterMatch(r.urlFilter.value, q.url, r.caseSensitive);
      if !hit { return false; }
    }
    if r.regex.Some? && !r.regex.value(q.url) { return false; }
    if r.resourceTypes.Some? && !TypeInList(r.resourceTypes.value, q.kind) { return false; }
    if r.excludedResourceTypes.Some? && TypeInList(r.excludedResourceTypes.value, q.kind) { return false; }
    return true;
  }

  // ---------- priorities ----------

  datatype Hit = Hit(priority: int, action: Action)

  /** Some hit of priority at least 0 blocks, none is of higher priority, and none of the same one allows. */
  ghost predicate Blocked(hits: set<Hit>) {
    exists h :: h in hits && h.priority >= 0 && h.action == Block && Tops(h, hits)
  }

  ghost predicate Tops(h: Hit, hits: set<Hit>) {
    forall g :: g in hits ==> g.priority < h.priority || (g.priority == h.priority && g.action == Block)
  }

  /** best_pri, best_allow and best_block */
  datatype Best = Best(priority: int, allow: bool, block: bool)

  function Better(b: Best, h: Hit): Best {
    if h.priority > b.priority then Best(h.priority, h.action == Allow, h.action == Block)
    else if h.priority == b.priority then Best(b.priority, b.allow || h.action == Allow, b.block || h.action == Block)
    else b
  }

  /** What the three variables know after the hits of a set. */
  ghost predicate Sums(b: Best, hits: set<Hit>) {
    && b.priority >= -1 && (forall h :: h in hits ==> h.priority <= b.priority)
    && (b.allow <==> Hit(b.priority, Allow) in hits) && (b.block <==> Hit(b.priority, Block) in hits)
    && (b.priority == -1 || b.allow || b.block)
  }

  lemma BetterSums(b: Best, hits: set<Hit>, h: Hit)
    requires Sums(b, hits)
    ensures Sums(Better(b, h), hits + {h})
  {
  }

  /** The fold decides by the highest priority, and an allowing rule wins a tie. */
  lemma SumsDecide(b: Best, hits: set<Hit>)
    requires Sums(b, hits)
    ensures b.priority >= 0 && b.block && !b.allow <==> Blocked(hits)
  {
    if b.priority >= 0 && b.block && !b.allow {
      var h := Hit(b.priority, Block);
      forall g | g in hits ensures g.priority < h.priority || (g.priority == h.priority && g.action == Block) {
        assert g == Hit(g.priority, g.action);
      }
      assert Tops(h, hits);
    }
    if Blocked(hits) {
      var h :| h in hits && h.priority >= 0 && h.action == Block && Tops(h, hits);
      assert h == Hit(h.priority, Block);
      assert b.allow || b.block;
    }
  }

  // ---------- the decision ----------

  /** The blocked-host hash and the rules of every loaded extension. */
  datatype Filters = Filters(hosts: set<string>, exts: seq<seq<Rule>>)

  predicate IsHttp(url: string) {
    StartsWith(url, "http://") || StartsWith(url, "https://")
  }

  function RequestFor(url: string, initiator: Option<string>, registrable: string -> Option<string>,
                      infer: string -> Option<string>): Request {
    var host, init := HostOf(url), if initiator.Some? then HostOf(initiator.value) else None;
    Request(url, if host.Some? then Some(StripPort(host.value)) else None,
            if init.Some? then Some(StripPort(init.value)) else None,
            ThirdParty(host, init, registrable), infer(url))
  }

  ghost function RuleHits(exts: seq<seq<Rule>>, q: Request): set<Hit> {
    set i, j | 0 <= i < |exts| && 0 <= j < |exts[i]| && RuleMatches(exts[i][j], q) ::
      Hit(exts[i][j].priority, exts[i][j].action)
  }

  ghost function HashHits(hosts: set<string>, host: Option<string>): set<Hit> {
    if host.Some? && Indexed(hosts, StripPort(host.value)) then {Hit(1, Block)} else {}
  }

  /** What ns_ext_should_block means. */
  ghost predicate Blocks(f: Filters, url: string, initiator: Option<string>, registrable: string -> Option<string>,
                         infer: string -> Option<string>) {
    && f.exts != [] && IsHttp(url)
    && Blocked(HashHits(f.hosts, HostOf(url)) + RuleHits(f.exts, RequestFor(url, initiator, registrable, infer)))
  }

  /** ns_ext_should_block.  The public suffix list and the type guessed from a path are parameters. */
  method ShouldBlock(f: Filters, url: string, initiator: Option<string>, registrable: string -> Option<string>,
                     infer: string -> Option<string>) returns (block: bool)
    ensures block <==> Blocks(f, url, initiator, registrable, infer)
  {
    if |f.exts| == 0 || !IsHttp(url) { return false; }
    var q := RequestFor(url, initiator, registrable, infer);
    var best := Best(-1, false, false);
    var indexed := HostIndexed(f.hosts, HostOf(url));
    ghost var hits: set<Hit> := {};
    assert Sums(best, hits);
    if indexed {
      BetterSums(best, hits, Hit(1, Block));
      best, hits := Best(1, false, true), {Hit(1, Block)};
    }
    ghost var hash := hits;
    for i := 0 to |f.exts|
      invariant Sums(best, hits)
      invariant hits == hash + RuleHits(f.exts[..i], q)
    {
      best, hits := FoldRules(f.exts[i], q, best, hits);
      MoreRules(f.exts, i, q);
    }
    assert f.exts[..|f.exts|] == f.exts;
    SumsDecide(best, hits);
    return best.priority >= 0 && best.block && !best.allow;
  }

  /** The loop over the rules of one extension */
  method FoldRules(rules: seq<Rule>, q: Request, best0: Best, ghost hits0: set<Hit>)
    returns (best: Best, ghost hits: set<Hit>)
    requires Sums(best0, hits0)
    ensures Sums(best, hits) && hits == hits0 + RuleHits([rules], q)
  {
    best, hits := best0, hits0;
    for j := 0 to |rules|
      invariant Sums(best, hits) && hits == hits0 + RuleHits([rules[..j]], q)
    {
      var r := rules[j];
      var found := RuleMatch(r, q);
      OneMoreRule(rules, j, q);
      if found {
        var h := Hit(r.priority, r.action);
        BetterSums(best, hits, h);
        if r.priority > best.priority {
          best := Best(r.priority, r.action == Allow, r.action == Block);
        } else if r.priority == best.priority {
          if r.action == Allow { best := best.(allow := true); } else { best := best.(block := true); }
        }
        hits := hits + {h};
      }
    }
    assert rules[..|rules|] == rules;
  }

  lemma OneMoreRule(rules: seq<Rule>, j: nat, q: Request)
    requires j < |rules|
    ensures RuleHits([rules[..j + 1]], q) ==
            RuleHits([rules[..j]], q) + if RuleMatches(rules[j], q) then {Hit(rules[j].priority, rules[j].action)} else {}
  {
    var a, b := [rules[..j]], [rules[..j + 1]];
    forall h | h in RuleHits(b, q)
      ensures h in RuleHits(a, q) || (RuleMatches(rules[j], q) && h == Hit(rules[j].priority, rules[j].action)) {
      var k :| 0 <= k < |b[0]| && RuleMatches(b[0][k], q) && h == Hit(b[0][k].priority, b[0][k].action);
      if k < j { assert a[0][k] == b[0][k]; }
    }
    forall h | h in RuleHits(a, q) ensures h in RuleHits(b, q) {
      var k :| 0 <= k < |a[0]| && RuleMatches(a[0][k], q) && h == Hit(a[0][k].priority, a[0][k].action);
      assert b[0][k] == a[0][k];
    }
    assert b[0][j] == rules[j];
  }

  lemma MoreRules(exts: seq<seq<Rule>>, i: nat, q: Request)
    requires i < |exts|
    ensures RuleHits(exts[..i + 1], q) == RuleHits(exts[..i], q) + RuleHits([exts[i]], q)
  {
    var a, b, c := exts[..i], exts[..i + 1], [exts[i]];
    forall h | h in RuleHits(b, q) ensures h in RuleHits(a, q) + RuleHits(c, q) {
      var k, j :| 0 <= k < |b| && 0 <= j < |b[k]| && RuleMatches(b[k][j], q) && h == Hit(b[k][j].priority, b[k][j].action);
      if k < i { assert a[k][j] == b[k][j]; } else { assert c[0][j] == b[k][j]; }
    }
    forall h | h in RuleHits(a, q) ensures h in RuleHits(b, q) {
      var k, j :| 0 <= k < |a| && 0 <= j < |a[k]| && RuleMatches(a[k][j], q) && h == Hit(a[k][j].priority, a[k][j].action);
      assert b[k][j] == a[k][j];
    }
    forall h | h in RuleHits(c, q) ensures h in RuleHits(b, q) {
      var j :| 0 <= j < |c[0]| && RuleMatches(c[0][j], q) && h == Hit(c[0][j].priority, c[0][j].action);
      assert b[i][j] == c[0][j];
    }
  }
}
