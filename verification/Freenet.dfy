/**
 freenet: addresses and the URLs of the local node's gateway (src/freenet.c).

 An address names a contract by its key and a path in it. The gateway serves the contract under a path of its own,
 except for the paths that belong to the node itself. The configured gateway is a parameter.
 */
module Freenet {
  import opened Common
  import opened Strings

  const SCHEME := "freenet://"
  const WEB_PATH := "v1/contract/web/"
  const WEB_TAIL := "contract/web/"
  const INDEX := "index.html"
  const ENDS := "/?#"
  const PATH_ENDS := "?#"

  /** Digits and letters without those that look alike: 0, O, I and l */
  predicate IsBase58(c: char) {
    '1' <= c <= '9' || ('A' <= c <= 'Z' && c != 'I' && c != 'O') || ('a' <= c <= 'z' && c != 'l')
  }

  predicate KeyIsValid(key: string) {
    1 <= |key| <= 64 && forall i :: 0 <= i < |key| ==> IsBase58(key[i])
  }

  /** ns_freenet_after_web_prefix */
  function AfterWebPrefix(path: string): Option<string> {
    if (StartsWith(path, "v1/") || StartsWith(path, "v2/")) && StartsWith(path[3..], WEB_TAIL)
    then Some(path[3 + |WEB_TAIL|..])
    else None
  }

  /** ns_freenet_path_belongs_to_node */
  predicate BelongsToNode(path: string) {
    || StartsWith(path, "v1/") || StartsWith(path, "v2/") || StartsWith(path, "permission/")
    || StartsWith(path, "freenet-notify-sw.js")
  }

  datatype Address = Address(key: string, rest: string)

  /** ns_freenet_take_key */
  function TakeKey(p: string): (r: Option<Address>)
    ensures r.Some? ==> KeyIsValid(r.value.key) && |r.value.rest| < |p|
  {
    var n := Span(p, ENDS);
    if n == 0 || !KeyIsValid(p[..n]) then None
    else Some(Address(p[..n], if n < |p| && p[n] == '/' then p[n + 1..] else p[n..]))
  }

  /** The address that an address nested in the path of this one names, if the path is such */
  function Inner(a: Address): (r: Option<Address>)
    ensures r.Some? ==> KeyIsValid(r.value.key) && |r.value.rest| < |a.rest|
  {
    var inner := AfterWebPrefix(a.rest);
    if inner.None? then None else TakeKey(inner.value)
  }

  /** The innermost address */
  function Innermost(a: Address): (r: Address)
    ensures Inner(r).None?
    ensures KeyIsValid(a.key) ==> KeyIsValid(r.key)
    decreases |a.rest|
  {
    var inner := Inner(a);
    if inner.None? then a else Innermost(inner.value)
  }

  function SkipSlashes(s: string): (r: string)
    ensures r != "" ==> r[0] != '/'
  {
    if s != "" && s[0] == '/' then SkipSlashes(s[1..]) else s
  }

  predicate IsUrl(url: string) {
    StartsWithAnyCase(url, "freenet:")
  }

  /** What ns_freenet_split finds */
  function Split(url: string): (r: Option<Address>)
    ensures r.Some? ==> KeyIsValid(r.value.key) && Inner(r.value).None?
  {
    if !IsUrl(url) then None else
    var a := TakeKey(SkipSlashes(url[8..]));
    if a.None? then None else Some(Innermost(a.value))
  }

  /** ns_freenet_split */
  method SplitUrl(url: string) returns (r: Option<Address>)
    ensures r == Split(url)
  {
    if !IsUrl(url) { return None; }
    var p := url[8..];
    if StartsWith(p, "//") { p := p[2..]; }
    while p != "" && p[0] == '/'
      invariant SkipSlashes(p) == SkipSlashes(url[8..])
      decreases |p|
    {
      p := p[1..];
    }
    r := TakeKey(p);
    if r.None? { return; }
    while AfterWebPrefix(r.value.rest).Some?
      invariant r.Some? && Split(url) == Some(Innermost(r.value))
      decreases |r.value.rest|
    {
      var inner := TakeKey(AfterWebPrefix(r.value.rest).value);
      if inner.None? { break; }
      r := inner;
    }
  }

  function Written(a: Address): string {
    SCHEME + a.key + "/" + a.rest
  }

  /** ns_freenet_canonical_url */
  function Canonical(url: string): Option<string> {
    var a := Split(url);
    if a.None? then None else Some(Written(a.value))
  }

  function DropSlashes(s: string): (r: string)
    ensures r != "" ==> r[|r| - 1] != '/'
  {
    if s != "" && s[|s| - 1] == '/' then DropSlashes(s[..|s| - 1]) else s
  }

  /** The authority of the configured gateway, as ns_freenet_gateway_base cuts it out */
  function Authority(gateway: string): string {
    DropSlashes(
      if StartsWithAnyCase(gateway, "https://") then gateway[8..]
      else if StartsWithAnyCase(gateway, "http://") then gateway[7..]
      else gateway)
  }

  function Transport(gateway: string, websocket: bool): string {
    if StartsWithAnyCase(gateway, "https://") then (if websocket then "wss://" else "https://")
    else (if websocket then "ws://" else "http://")
  }

  /** ns_freenet_gateway_base */
  function Base(gateway: string, websocket: bool): Option<string> {
    if Authority(gateway) == "" then None else Some(Transport(gateway, websocket) + Authority(gateway))
  }

  predicate IsDirectory(path: string) {
    path == "" || path[|path| - 1] == '/'
  }

  /** A directory asks for its index document. */
  function WithIndex(rest: string): string {
    var n := Span(rest, PATH_ENDS);
    rest[..n] + (if IsDirectory(rest[..n]) then INDEX else "") + rest[n..]
  }

  function Served(base: string, a: Address): string {
    base + "/" + (if BelongsToNode(a.rest) then a.rest else WEB_PATH + a.key + "/" + WithIndex(a.rest))
  }

  /** ns_freenet_map: ns_freenet_to_gateway, and ns_freenet_to_gateway_ws for a web socket */
  function Mapped(gateway: string, url: string, websocket: bool): Option<string> {
    var a := Split(url);
    var base := Base(gateway, websocket);
    if a.None? || base.None? then None else Some(Served(base.value, a.value))
  }

  /** ns_freenet_host_is_loopback */
  predicate IsLoopback(host: string) {
    host != "" && NamesLoopback(if host[|host| - 1] == '.' then host[..|host| - 1] else host)
  }

  predicate NamesLoopback(h: string) {
    || Lower(h) == "localhost" || h == "::1" || h == "[::1]"
    || (|h| > 4 && h[..4] == "127." && forall i :: 4 <= i < |h| ==> '0' <= h[i] <= '9' || h[i] == '.')
  }

  /** Where the port starts, or the end: the `colon` of ns_freenet_split_authority */
  function Colon(a: string): (n: nat)
    ensures n <= |a| && (n < |a| ==> a[n] == ':')
  {
    if a != "" && a[0] == '[' then
      var close := Span(a, "]");
      if close + 1 < |a| && a[close + 1] == ':' then close + 1 else |a|
    else Span(a, ":")
  }

  function HostOf(a: string): string {
    a[..Colon(a)]
  }

  function PortOf(a: string): string {
    if Colon(a) < |a| then a[Colon(a) + 1..] else ""
  }

  /** ns_freenet_authority_is_gateway */
  predicate IsGateway(gateway: string, authority: string) {
    var g := Authority(gateway);
    && g != "" && PortOf(authority) == PortOf(g)
    && (Lower(HostOf(authority)) == Lower(HostOf(g)) || (IsLoopback(HostOf(authority)) && IsLoopback(HostOf(g))))
  }

  /** strstr(s, "://"): what follows the first one */
  function AfterScheme(s: string): Option<string> {
    if StartsWith(s, "://") then Some(s[3..]) else if s == "" then None else AfterScheme(s[1..])
  }

  /** ns_freenet_from_gateway */
  function FromGateway(gateway: string, url: string): Option<string> {
    var s := AfterScheme(url);
    if s.None? then None else FromAuthority(gateway, s.value, Span(s.value, ENDS))
  }

  function FromAuthority(gateway: string, s: string, n: nat): Option<string>
    requires n <= |s|
  {
    if !IsGateway(gateway, s[..n]) || n == |s| || s[n] != '/' then None
    else
      var p := AfterWebPrefix(s[n + 1..]);
      if p.None? then None else
      var a := TakeKey(p.value);
      if a.None? then None else Some(Written(a.value))
  }

  // ---------- canonical addresses ----------

  lemma KeyHasNoEnd(key: string, i: nat)
    requires KeyIsValid(key) && i < |key|
    ensures key[i] !in ENDS
  {
    assert IsBase58(key[i]);
  }

  /** A key is read back from where it is written. */
  lemma KeyIsTaken(a: Address)
    requires KeyIsValid(a.key)
    ensures TakeKey(a.key + "/" + a.rest) == Some(a)
  {
    var p := a.key + "/" + a.rest;
    forall i | 0 <= i < |a.key| ensures p[i] !in ENDS { KeyHasNoEnd(a.key, i); }
    SpanIs(p, ENDS, |a.key|);
    assert p[..|a.key|] == a.key && p[|a.key| + 1..] == a.rest;
  }

  lemma WrittenIsUrl(a: Address)
    ensures IsUrl(Written(a)) && Written(a)[8..] == "//" + (a.key + "/" + a.rest)
  {
    assert Written(a) == SCHEME + (a.key + "/" + a.rest);
    assert Written(a)[..8] == "freenet:";
  }

  /** Reading what is written gives the innermost address. */
  lemma SplitWritten(a: Address)
    requires KeyIsValid(a.key)
    ensures Split(Written(a)) == Some(Innermost(a))
  {
    WrittenIsUrl(a);
    KeyHasNoEnd(a.key, 0);
    var p := a.key + "/" + a.rest;
    assert ("//" + p)[1..] == "/" + p && ("/" + p)[1..] == p;
    assert SkipSlashes("//" + p) == SkipSlashes("/" + p) == SkipSlashes(p) == p;
    KeyIsTaken(a);
  }

  /** Making an address canonical once is enough, and keeps what it names. */
  lemma CanonicalIsIdempotent(url: string)
    requires Canonical(url).Some?
    ensures Canonical(Canonical(url).value) == Canonical(url)
    ensures Split(Canonical(url).value) == Split(url)
  {
    SplitWritten(Split(url).value);
  }

  /** However deep an address is nested in gateway paths of others, it names what it names alone. */
  lemma {:induction false} NestingIsUndone(outer: seq<string>, a: Address)
    requires KeyIsValid(a.key) && forall i :: 0 <= i < |outer| ==> KeyIsValid(outer[i])
    ensures KeyIsValid(Nested(outer, a).key) && Innermost(Nested(outer, a)) == Innermost(a)
    ensures Canonical(Written(Nested(outer, a))) == Canonical(Written(a))
  {
    if outer != [] {
      NestingIsUndone(outer[1..], a);
      var b := Nested(outer[1..], a);
      assert Nested(outer, a).rest == WEB_PATH + (b.key + "/" + b.rest);
      AfterWebPath(b.key + "/" + b.rest);
      KeyIsTaken(b);
      SplitWritten(Nested(outer, a));
    }
    SplitWritten(a);
  }

  function Nested(outer: seq<string>, a: Address): Address {
    if outer == [] then a
    else
      var b := Nested(outer[1..], a);
      Address(outer[0], WEB_PATH + (b.key + "/" + b.rest))
  }

  lemma AfterWebPath(t: string)
    ensures AfterWebPrefix(WEB_PATH + t) == Some(t)
  {
    var p := WEB_PATH + t;
    assert p[..3] == "v1/" && p[3..] == WEB_TAIL + t && (WEB_TAIL + t)[..|WEB_TAIL|] == WEB_TAIL;
    assert p[3 + |WEB_TAIL|..] == t;
  }
}
