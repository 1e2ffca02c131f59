/**
 freenet: addresses survive the way to the gateway's URLs and back (src/freenet.c).
 */
module FreenetGateway {
  import opened Common
  import opened Strings
  import opened Freenet

  /** The gateway is configured by its authority alone. */
  predicate IsPlain(authority: string) {
    forall i :: 0 <= i < |authority| ==> authority[i] !in ENDS
  }

  lemma LoopbackHasNoSlash(host: string, i: nat)
    requires i < |host| && host[i] == '/'
    ensures !IsLoopback(host)
  {
    var h := if host[|host| - 1] == '.' then host[..|host| - 1] else host;
    assert i < |h| && h[i] == '/';
    assert Lower(h)[i] == '/';
    assert '/' !in "127." && '/' !in "localhost" && '/' !in "::1" && '/' !in "[::1]";
    assert h[i] in h && Lower(h)[i] in Lower(h);
    assert i < 4 < |h| ==> h[i] in h[..4];
  }

  /** Where the part before a slash has its colon, the whole has its own. */
  lemma ColonOfPart(g: string, n: nat)
    requires n < |g| && g[n] == '/'
    ensures Colon(g[..n]) < n ==> Colon(g) == Colon(g[..n])
    ensures Colon(g[..n]) == n ==> n < Colon(g)
  {
    var a := g[..n];
    if n > 0 && g[0] == '[' {
      SpanOfPart(g, n, "]");
    } else {
      SpanOfPart(g, n, ":");
    }
  }

  lemma SpanOfPart(g: string, n: nat, ends: string)
    requires n < |g| && g[n] !in ends
    ensures Span(g[..n], ends) < n ==> Span(g, ends) == Span(g[..n], ends)
    ensures Span(g[..n], ends) == n ==> n < Span(g, ends)
  {
    var m := Span(g[..n], ends);
    if m < n {
      forall i | 0 <= i < m ensures g[i] !in ends { assert g[i] == g[..n][i]; }
      SpanIs(g, ends, m);
    } else {
      forall i | 0 <= i < n ensures g[i] !in ends { assert g[i] == g[..n][i]; }
    }
  }

  /** A gateway whose authority goes on with a path is not taken for what comes before the path. */
  lemma PartIsNotGateway(gateway: string, n: nat)
    requires n < |Authority(gateway)| && Authority(gateway)[n] == '/'
    ensures !IsGateway(gateway, Authority(gateway)[..n])
  {
    var g := Authority(gateway);
    ColonOfPart(g, n);
    var c := Colon(g[..n]);
    if c < n {
      assert |PortOf(g)| > |PortOf(g[..n])|;
    } else {
      assert HostOf(g)[n] == '/';
      LoopbackHasNoSlash(HostOf(g), n);
      assert |Lower(HostOf(g))| > |Lower(HostOf(g[..n]))|;
    }
  }

  lemma AfterTransport(gateway: string, websocket: bool, t: string)
    ensures AfterScheme(Transport(gateway, websocket) + t) == Some(t)
  {
    var p := Transport(gateway, websocket);
    var n := |p| - 3;
    assert p[n..] == "://" && p[n..] + t == (p + t)[n..];
    assert (p + t)[n..][..3] == "://" && (p + t)[n..][3..] == t;
    FirstScheme(p + t, n);
  }

  lemma {:induction false} FirstScheme(s: string, n: nat)
    requires n <= |s| && StartsWith(s[n..], "://") && forall i :: 0 <= i < n ==> s[i] != ':'
    ensures AfterScheme(s) == Some(s[n..][3..])
  {
    if n > 0 {
      assert s[1..][n - 1..] == s[n..];
      StartsWithAt(s, "://");
      assert "://"[0] == ':';
      FirstScheme(s[1..], n - 1);
    } else {
      assert s[0..] == s;
    }
  }

  /** What the gateway's URL says after the authority and a slash */
  function Tail(a: Address): string {
    if BelongsToNode(a.rest) then a.rest else WEB_PATH + (a.key + "/" + WithIndex(a.rest))
  }

  /** The address of a URL of the gateway, when its authority is all there is to it */
  lemma TailIsRead(a: Address)
    requires KeyIsValid(a.key) && Inner(a).None?
    ensures var p := AfterWebPrefix(Tail(a));
            if BelongsToNode(a.rest) then p.None? || TakeKey(p.value).None?
            else p.Some? && TakeKey(p.value) == Some(a.(rest := WithIndex(a.rest)))
  {
    if !BelongsToNode(a.rest) {
      AfterWebPath(a.key + "/" + WithIndex(a.rest));
      KeyIsTaken(a.(rest := WithIndex(a.rest)));
    }
  }

  lemma AuthorityIsRead(gateway: string, tail: string, s: string)
    requires Authority(gateway) != "" && IsPlain(Authority(gateway)) && s == Authority(gateway) + ("/" + tail)
    ensures FromAuthority(gateway, s, Span(s, ENDS)) ==
            (var p := AfterWebPrefix(tail);
             if p.None? then None else
             var a := TakeKey(p.value);
             if a.None? then None else Some(Written(a.value)))
  {
    var g := Authority(gateway);
    SlashEnds(g, tail, s);
    assert IsGateway(gateway, g);
  }

  lemma SlashEnds(g: string, tail: string, s: string)
    requires IsPlain(g) && s == g + ("/" + tail)
    ensures Span(s, ENDS) == |g| < |s| && s[..|g|] == g && s[|g|] == '/' && s[|g| + 1..] == tail
  {
    assert forall i :: 0 <= i < |g| ==> s[i] == g[i];
    SpanIs(s, ENDS, |g|);
  }

  lemma PathIsNoGateway(gateway: string, tail: string, s: string)
    requires !IsPlain(Authority(gateway)) && s == Authority(gateway) + ("/" + tail)
    ensures FromAuthority(gateway, s, Span(s, ENDS)).None?
  {
    var g := Authority(gateway);
    var n := Span(s, ENDS);
    var i :| 0 <= i < |g| && g[i] in ENDS;
    assert s[i] == g[i];
    assert n <= i && s[..n] == g[..n] && s[n] == g[n];
    if g[n] == '/' { PartIsNotGateway(gateway, n); }
  }

  lemma ServedParts(gateway: string, websocket: bool, a: Address)
    requires Base(gateway, websocket).Some?
    ensures Served(Base(gateway, websocket).value, a) ==
            Transport(gateway, websocket) + (Authority(gateway) + ("/" + Tail(a)))
  {
  }

  // ---------- index documents ----------

  lemma WithIndexParts(rest: string)
    ensures var n := Span(rest, PATH_ENDS);
            var path := if IsDirectory(rest[..n]) then rest[..n] + INDEX else rest[..n];
            WithIndex(rest) == path + rest[n..] && Span(WithIndex(rest), PATH_ENDS) == |path| && !IsDirectory(path)
  {
    var n := Span(rest, PATH_ENDS);
    var path := if IsDirectory(rest[..n]) then rest[..n] + INDEX else rest[..n];
    assert WithIndex(rest) == path + rest[n..];
    SpanIs(path + rest[n..], PATH_ENDS, |path|);
  }

  /** A directory has an index document, and a document has none. */
  lemma IndexOnce(rest: string)
    ensures WithIndex(WithIndex(rest)) == WithIndex(rest)
  {
    WithIndexParts(rest);
    var r := WithIndex(rest);
    var n := Span(r, PATH_ENDS);
    assert r[..n] + "" + r[n..] == r;
  }

  /** A name with no slash before its end, and no index document, does not come about by adding one. */
  lemma IndexAddsNoPrefix(rest: string, p: string)
    requires p != "" && p[0] != 'i' && p[0] !in PATH_ENDS && forall i :: 0 <= i < |p| - 1 ==> p[i] != '/'
    ensures StartsWith(WithIndex(rest), p) ==> StartsWith(rest, p)
  {
    var n := Span(rest, PATH_ENDS);
    var r := WithIndex(rest);
    if !StartsWith(r, p) { return; }
    StartsWithAt(r, p);
    if IsDirectory(rest[..n]) {
      assert r[..n] == rest[..n] && r[n] == 'i' && (n > 0 ==> r[n - 1] == '/');
      assert n >= |p|;
      assert r[..|p|] == r[..n][..|p|] == rest[..|p|];
    } else {
      assert r == rest;
    }
  }

  lemma IndexIsNotNodes(rest: string)
    requires !BelongsToNode(rest)
    ensures !BelongsToNode(WithIndex(rest))
  {
    IndexAddsNoPrefix(rest, "v1/");
    IndexAddsNoPrefix(rest, "v2/");
    IndexAddsNoPrefix(rest, "permission/");
    IndexAddsNoPrefix(rest, "freenet-notify-sw.js");
  }

  /** A path that is empty or ends with a slash gets the index document, in front of its query and fragment. */
  lemma IndexInFront(path: string, tail: string)
    requires (forall i :: 0 <= i < |path| ==> path[i] != '?' && path[i] != '#') && (tail == "" || tail[0] == '?' || tail[0] == '#')
    ensures WithIndex(path + tail) == path + (if path == "" || path[|path| - 1] == '/' then "index.html" else "") + tail
  {
    var rest := path + tail;
    assert forall i :: 0 <= i < |path| ==> rest[i] == path[i];
    SpanIs(rest, PATH_ENDS, |path|);
    assert rest[..|path|] == path && rest[|path|..] == tail;
  }

  lemma GatewayParts(scheme: string, g: string)
    requires scheme == "" || scheme == "http://" || scheme == "https://"
    requires g != "" && g[|g| - 1] != '/'
    requires scheme == "" ==> !StartsWithAnyCase(g, "http://") && !StartsWithAnyCase(g, "https://")
    ensures Authority(scheme + g) == g
    ensures StartsWithAnyCase(scheme + g, "https://") <==> scheme == "https://"
  {
    var s := scheme + g;
    if scheme == "https://" {
      assert s[..8] == scheme && Lower(s[..8]) == "https://" && s[8..] == g;
    } else if scheme == "http://" {
      assert s[..7] == scheme && Lower(s[..7]) == "http://" && s[7..] == g;
      assert s[4] == ':' && "https://"[4] == 's';
      assert |s| >= 8 ==> Lower(s[..8])[4] == LowerChar(s[4]);
    } else {
      assert s == g;
    }
  }

  /** An address is served by the configured gateway, over its own transport, under the path of the contract. */
  lemma MapsTo(scheme: string, g: string, a: Address, websocket: bool)
    requires scheme == "" || scheme == "http://" || scheme == "https://"
    requires g != "" && g[|g| - 1] != '/'
    requires scheme == "" ==> !StartsWithAnyCase(g, "http://") && !StartsWithAnyCase(g, "https://")
    requires KeyIsValid(a.key) && Inner(a).None? && !BelongsToNode(a.rest)
    ensures Mapped(scheme + g, "freenet://" + a.key + "/" + a.rest, websocket) ==
            Some((if scheme == "https://" then (if websocket then "wss://" else "https://")
                  else (if websocket then "ws://" else "http://")) + g +
                 "/" + ("v1/contract/web/" + a.key + "/" + WithIndex(a.rest)))
  {
    GatewayParts(scheme, g);
    SplitWritten(a);
  }

  // ---------- there and back ----------

  /** A gateway URL leads back to an address exactly when the address is not one of the node's own paths and the
      gateway is configured by an authority alone. */
  lemma GatewayLeadsBack(gateway: string, url: string, websocket: bool)
    requires Mapped(gateway, url, websocket).Some?
    ensures FromGateway(gateway, Mapped(gateway, url, websocket).value).Some? <==>
            IsPlain(Authority(gateway)) && !BelongsToNode(Split(url).value.rest)
  {
    FromMapped(gateway, url, websocket);
  }

  lemma FromMapped(gateway: string, url: string, websocket: bool)
    requires Mapped(gateway, url, websocket).Some?
    ensures var a := Split(url).value;
            FromGateway(gateway, Mapped(gateway, url, websocket).value) ==
            if !IsPlain(Authority(gateway)) || BelongsToNode(a.rest) then None
            else Some(Written(a.(rest := WithIndex(a.rest))))
  {
    var a := Split(url).value;
    ServedParts(gateway, websocket, a);
    var s := Authority(gateway) + ("/" + Tail(a));
    AfterTransport(gateway, websocket, s);
    if IsPlain(Authority(gateway)) {
      AuthorityIsRead(gateway, Tail(a), s);
      TailIsRead(a);
    } else {
      PathIsNoGateway(gateway, Tail(a), s);
    }
  }

  /** It leads to the canonical address, with the index document of a directory, and that address leads to the
      same gateway URL. */
  lemma ThereAndBack(gateway: string, url: string, websocket: bool)
    requires Mapped(gateway, url, websocket).Some?
    requires IsPlain(Authority(gateway)) && !BelongsToNode(Split(url).value.rest)
    ensures var back := FromGateway(gateway, Mapped(gateway, url, websocket).value);
            && back == Some(SCHEME + Split(url).value.key + "/" + WithIndex(Split(url).value.rest))
            && Canonical(back.value) == back
            && Mapped(gateway, back.value, websocket) == Mapped(gateway, url, websocket)
  {
    FromMapped(gateway, url, websocket);
    var a := Split(url).value;
    var b := a.(rest := WithIndex(a.rest));
    IndexIsNotNodes(a.rest);
    IndexOnce(a.rest);
    assert AfterWebPrefix(b.rest).None?;
    SplitWritten(b);
  }

  /** The gateway "a/b" serves the contract "1", but its URL is not read as an address. */
  lemma PathIsNotRead()
    ensures var m := Mapped("a/b", "freenet://1/", false);
            m.Some? && FromGateway("a/b", m.value).None?
  {
    OneIsSplit();
    assert "a/b"[1] == '/' && '/' in ENDS;
    assert Authority("a/b") == "a/b";
    assert !IsPlain("a/b");
    GatewayLeadsBack("a/b", "freenet://1/", false);
  }

  lemma OneIsSplit()
    ensures Split("freenet://1/").Some?
  {
    var a := Address("1", "");
    assert Written(a) == "freenet://1/";
    SplitWritten(a);
  }
}
