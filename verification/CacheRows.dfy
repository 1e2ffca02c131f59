/**
 The rows of the HTTP cache and which of them answers a request (src/cache.c).

 The table maps keys to rows. A row keeps the base key and the Vary field that the source stores; its address,
 partition and request are what they were when the response was stored, which only the statements here look at.
 */
module CacheRows {
  import opened Common
  import opened Strings
  import opened CacheVary

  datatype Row = Row(base: string, vary: string, url: string, partition: string, request: seq<string>)

  type Rows = map<string, Row>

  /** url_should_cache */
  predicate Cacheable(url: string) {
    && (StartsWithAnyCase(url, "http://") || StartsWithAnyCase(url, "https://"))
    && forall i :: 0 <= i < |url| ==> ' ' <= url[i] != '\U{007F}'
  }

  predicate IsLowerHex(c: char) {
    '0' <= c <= '9' || 'a' <= c <= 'f'
  }

  /** What the digest is taken to be: a text in hex digits that no two inputs share */
  ghost predicate IsDigest(hash: string -> string) {
    && (forall s, t :: hash(s) == hash(t) ==> s == t)
    && (forall s, c :: c in hash(s) ==> IsLowerHex(c))
  }

  function Tagged(url: string, partition: string): string {
    if partition == "" then url else url + SEPARATOR + partition
  }

  /** base_key_for_url */
  function BaseKey(hash: string -> string, url: string, partition: string): string {
    hash(Tagged(url, partition))
  }

  /** row_key_for */
  function RowKey(hash: string -> string, base: string, selector: string): string {
    if selector == "" then base else hash(base + SEPARATOR + selector)
  }

  /** The row's key is the one that the request now asking leads to: what find_row_key looks for. */
  predicate Hits(hash: string -> string, rows: Rows, base: string, headers: seq<string>, key: string) {
    && key in rows && rows[key].base == base
    && var selector := Selector(rows[key].vary, headers);
       selector.Some? && key == RowKey(hash, base, selector.value)
  }

  /** A row is filed under the key of the request that it was stored for. */
  predicate Filed(hash: string -> string, key: string, r: Row) {
    && Cacheable(r.url) && r.base == BaseKey(hash, r.url, r.partition)
    && var selector := Selector(r.vary, r.request);
       selector.Some? && key == RowKey(hash, r.base, selector.value)
  }

  predicate AllFiled(hash: string -> string, rows: Rows) {
    forall key :: key in rows ==> Filed(hash, key, rows[key])
  }

  /** The stored response was for this address, and every header that its Vary field nominates is the same. */
  predicate Answers(r: Row, url: string, partition: string, headers: seq<string>) {
    r.url == url && r.partition == partition && SameValues(Nominated(r.vary), r.request, headers)
  }

  class Table {
    const hash: string -> string
    var rows: Rows

    constructor (hash: string -> string)
      ensures Valid() && this.hash == hash && rows == map[]
    {
      this.hash := hash;
      rows := map[];
    }

    predicate Valid()
      reads this
    {
      AllFiled(hash, rows)
    }

    /** find_row_key, with the rows of a base key in whatever order the table gives them */
    method FindRowKey(base: string, headers: seq<string>) returns (found: Option<string>)
      ensures found.Some? ==> Hits(hash, rows, base, headers, found.value)
      ensures found.None? ==> forall key :: !Hits(hash, rows, base, headers, key)
    {
      var rest := set key | key in rows && rows[key].base == base;
      while rest != {}
        invariant forall key :: key in rest ==> key in rows && rows[key].base == base
        invariant forall key :: Hits(hash, rows, base, headers, key) ==> key in rest
      {
        var key :| key in rest;
        rest := rest - {key};
        var selector := VarySelector(rows[key].vary, headers);
        if selector.None? { continue; }
        if key == RowKey(hash, base, selector.value) { return Some(key); }
      }
      return None;
    }

    /** ns_cache_put, from the Vary field on; on a conflict of keys the row keeps its base key */
    method Put(url: string, partition: string, vary: string, request: seq<string>) returns (key: Option<string>)
      requires Valid() && IsDigest(hash)
      modifies this
      ensures Valid()
      ensures key.Some? <==> Cacheable(url) && Selector(vary, request).Some?
      ensures key.None? ==> rows == old(rows)
      ensures key.Some? ==> key.value == RowKey(hash, BaseKey(hash, url, partition), Selector(vary, request).value)
      ensures key.Some? ==>
                rows == old(rows)[key.value := Row(BaseKey(hash, url, partition), vary, url, partition, request)]
    {
      if !Cacheable(url) { return None; }
      var selector := VarySelector(vary, request);
      if selector.None? { return None; }
      var base := BaseKey(hash, url, partition);
      var k := RowKey(hash, base, selector.value);
      if k in rows {
        SameKeySameBase(hash, rows[k], k, url, partition, selector.value);
        rows := rows[k := rows[k].(vary := vary, url := url, partition := partition, request := request)];
      } else {
        rows := rows[k := Row(base, vary, url, partition, request)];
      }
      return Some(k);
    }

    /** delete_key, and what the evictions do with each row */
    method Delete(key: string)
      requires Valid()
      modifies this
      ensures Valid() && rows == old(rows) - {key}
    {
      rows := rows - {key};
    }
  }

  // ---------- keys ----------

  lemma StartsLikeHttp(url: string)
    requires Cacheable(url)
    ensures url != "" && !IsLowerHex(url[0]) && '\U{001F}' !in url
  {
    assert Lower(url[..7])[0] == LowerChar(url[0]);
    if StartsWithAnyCase(url, "https://") { assert Lower(url[..8])[0] == LowerChar(url[0]); }
  }

  /** The separator is not kept out of an address that is looked up.  What stands before the first one may be the
      address of another response, and what stands behind it a partition. */
  predicate Aliased(url: string, partition: string) {
    var n := Span(url, SEPARATOR);
    n < |url| && Cacheable(url[..n]) && (n + 1 < |url| || partition != "")
  }

  /** The address and partition whose responses a look-up finds */
  function Meant(url: string, partition: string): (string, string) {
    if !Aliased(url, partition) then (url, partition)
    else
      var n := Span(url, SEPARATOR);
      (url[..n], Tagged(url[n + 1..], partition))
  }

  /** What is hashed for a look-up is what is hashed for a response exactly if the look-up means its address. */
  lemma TaggedApart(url: string, partition: string, u: string, p: string)
    requires Cacheable(u)
    ensures Tagged(u, p) == Tagged(url, partition) <==> (u, p) == Meant(url, partition)
  {
    StartsLikeHttp(u);
    var n := Span(url, SEPARATOR);
    if n == |url| {
      PlainApart(url, partition, u, p);
    } else {
      SplitTagged(url, partition, n);
      SplitApart(url[..n], Tagged(url[n + 1..], partition), u, p);
    }
  }

  lemma PlainApart(url: string, partition: string, u: string, p: string)
    requires '\U{001F}' !in url && '\U{001F}' !in u
    ensures Tagged(u, p) == Tagged(url, partition) <==> u == url && p == partition
  {
    assert '\U{001F}' in Tagged(u, p) <==> p != "";
    assert '\U{001F}' in Tagged(url, partition) <==> partition != "";
    if Tagged(u, p) == Tagged(url, partition) && p != "" { PartsAt(SEPARATOR, u, url, p, partition); }
  }

  lemma SplitApart(before: string, behind: string, u: string, p: string)
    requires '\U{001F}' !in before && '\U{001F}' !in u
    ensures Tagged(u, p) == before + SEPARATOR + behind <==> u == before && p == behind && behind != ""
  {
    assert (before + SEPARATOR + behind)[|before|] == '\U{001F}';
    assert '\U{001F}' in Tagged(u, p) <==> p != "";
    if Tagged(u, p) == before + SEPARATOR + behind { PartsAt(SEPARATOR, u, before, p, behind); }
  }

  lemma SplitTagged(url: string, partition: string, n: nat)
    requires n < |url| && url[n] == '\U{001F}'
    ensures Tagged(url, partition) == url[..n] + SEPARATOR + Tagged(url[n + 1..], partition)
    ensures Tagged(url[n + 1..], partition) != "" <==> n + 1 < |url| || partition != ""
  {
    assert url == url[..n] + SEPARATOR + url[n + 1..];
  }

  /** An address and a partition are told from those of every response that may be stored exactly if they are not
      aliased. */
  lemma ToldApart(hash: string -> string, url: string, partition: string)
    requires IsDigest(hash)
    ensures (forall u, p :: Cacheable(u) && BaseKey(hash, u, p) == BaseKey(hash, url, partition) ==> u == url && p == partition)
            <==> !Aliased(url, partition)
  {
    forall u, p | Cacheable(u)
      ensures BaseKey(hash, u, p) == BaseKey(hash, url, partition) <==> (u, p) == Meant(url, partition)
    {
      TaggedApart(url, partition, u, p);
    }
    if Aliased(url, partition) {
      var (u, p) := Meant(url, partition);
      assert BaseKey(hash, u, p) == BaseKey(hash, url, partition) && |u| < |url|;
    }
  }

  /** For instance, the look-up of "http://a", the separator and "p" finds what is stored for "http://a" in the
      partition "p". */
  lemma AliasedExample()
    ensures Aliased("http://a" + SEPARATOR + "p", "") && Meant("http://a" + SEPARATOR + "p", "") == ("http://a", "p")
  {
    var u, p := "http://a", "p";
    var url := u + SEPARATOR + p;
    SpanBefore(u, SEPARATOR, p);
    assert Lower(u[..7]) == "http://";
    assert Cacheable(u);
    assert url[..8] == u && url[9..] == p;
  }

  /** Keys of rows of different addresses differ, whatever they vary on. */
  lemma RowKeysApart(hash: string -> string, a: string, s: string, b: string, t: string)
    requires IsDigest(hash) && IsBase(hash, a) && IsBase(hash, b)
    ensures RowKey(hash, a, s) == RowKey(hash, b, t) <==> a == b && s == t
  {
    if s != "" && t != "" {
      if RowKey(hash, a, s) == RowKey(hash, b, t) {
        BaseIsHex(hash, a);
        BaseIsHex(hash, b);
        PartsAt(SEPARATOR, a, b, s, t);
      }
    } else if s != "" {
      BaseIsNoRow(hash, b, a, s);
    } else if t != "" {
      BaseIsNoRow(hash, a, b, t);
    }
  }

  ghost predicate IsBase(hash: string -> string, base: string) {
    exists url, partition :: Cacheable(url) && base == BaseKey(hash, url, partition)
  }

  lemma BaseIsHex(hash: string -> string, base: string)
    requires IsDigest(hash) && IsBase(hash, base)
    ensures '\U{001F}' !in base && (base != "" ==> IsLowerHex(base[0]))
  {
    var url, partition :| Cacheable(url) && base == BaseKey(hash, url, partition);
    assert forall c :: c in hash(Tagged(url, partition)) ==> IsLowerHex(c);
  }

  /** What is hashed for a base key starts like an address, what is hashed for another key like a digest. */
  lemma BaseIsNoRow(hash: string -> string, base: string, other: string, selector: string)
    requires IsDigest(hash) && IsBase(hash, base) && IsBase(hash, other)
    ensures base != hash(other + SEPARATOR + selector)
  {
    var url, partition :| Cacheable(url) && base == BaseKey(hash, url, partition);
    StartsLikeHttp(url);
    BaseIsHex(hash, other);
    assert Tagged(url, partition)[0] == url[0];
    assert (other + SEPARATOR + selector)[0] == if other == "" then '\U{001F}' else other[0];
    assert url[0] in url;
  }

  lemma SameKeySameBase(hash: string -> string, r: Row, key: string, url: string, partition: string, selector: string)
    requires IsDigest(hash) && Filed(hash, key, r) && Cacheable(url)
    requires key == RowKey(hash, BaseKey(hash, url, partition), selector)
    ensures r.base == BaseKey(hash, url, partition)
  {
    RowKeysApart(hash, r.base, Selector(r.vary, r.request).value, BaseKey(hash, url, partition), selector);
  }

  // ---------- which rows answer ----------

  /** The row that a look-up finds is one whose stored response answers the request for the address that it means,
      and the other way around. */
  lemma HitIsAnswer(
      hash: string -> string, rows: Rows, url: string, partition: string, headers: seq<string>, key: string)
    requires IsDigest(hash) && AllFiled(hash, rows) && key in rows
    requires OneLine(headers) && OneLine(rows[key].request)
    ensures Hits(hash, rows, BaseKey(hash, url, partition), headers, key) <==>
            Answers(rows[key], Meant(url, partition).0, Meant(url, partition).1, headers)
  {
    var r := rows[key];
    TaggedApart(url, partition, r.url, r.partition);
    if (r.url, r.partition) == Meant(url, partition) {
      SelectorsTellApart(Nominated(r.vary), r.request, headers);
      var selector := Selector(r.vary, headers);
      if selector.Some? {
        RowKeysApart(hash, r.base, Selector(r.vary, r.request).value, r.base, selector.value);
      }
    }
  }

  ghost predicate AllOneLine(rows: Rows) {
    forall key :: key in rows ==> OneLine(rows[key].request)
  }

  /** Some row is found exactly when some stored response for the address that is meant has every header that its
      Vary field nominates equal in the request that stored it and the one that asks.  The address that is meant is
      the one that is looked up, unless it is aliased. */
  lemma FoundWhenAnswered(hash: string -> string, rows: Rows, url: string, partition: string, headers: seq<string>)
    requires IsDigest(hash) && AllFiled(hash, rows) && AllOneLine(rows) && OneLine(headers)
    ensures var (u, p) := Meant(url, partition);
            (exists key :: Hits(hash, rows, BaseKey(hash, url, partition), headers, key)) <==>
            (exists key :: key in rows && Answers(rows[key], u, p, headers))
    ensures Meant(url, partition) == (url, partition) <==> !Aliased(url, partition)
  {
    var (u, p) := Meant(url, partition);
    forall key | key in rows
      ensures Hits(hash, rows, BaseKey(hash, url, partition), headers, key) <==> Answers(rows[key], u, p, headers)
    {
      HitIsAnswer(hash, rows, url, partition, headers, key);
    }
  }

  /** What has been put answers the same request. It is the only row that does, so that it is what every look-up
      finds, exactly when no older row with other selecting headers answers too. */
  lemma PutAnswers(
      hash: string -> string, rows: Rows, key: string, url: string, partition: string, request: seq<string>)
    requires IsDigest(hash) && AllFiled(hash, rows) && AllOneLine(rows)
    requires key in rows && rows[key].url == url && rows[key].partition == partition && rows[key].request == request
    ensures Hits(hash, rows, BaseKey(hash, url, partition), request, key)
    ensures (forall k :: Hits(hash, rows, BaseKey(hash, url, partition), request, k) ==> k == key) <==>
            (forall k :: k in rows && k != key ==> !Answers(rows[k], url, partition, request))
  {
    StartsLikeHttp(url);
    assert Meant(url, partition) == (url, partition);
    forall k | k in rows
      ensures Hits(hash, rows, BaseKey(hash, url, partition), request, k) <==>
              Answers(rows[k], url, partition, request)
    {
      HitIsAnswer(hash, rows, url, partition, request, k);
    }
  }

  /** Two responses for one address, the first without a Vary field: both answer the request that stored them, so that
      a look-up may find either. */
  method TwoAnswer(hash: string -> string, url: string, vary: string, request: seq<string>, selector: string)
    returns (table: Table, first: string, second: string)
    requires IsDigest(hash) && Cacheable(url) && Selector(vary, request) == Some(selector) && selector != ""
    ensures first != second && table.Valid() && table.hash == hash
    ensures var base := BaseKey(hash, url, "");
            Hits(hash, table.rows, base, request, first) && Hits(hash, table.rows, base, request, second)
  {
    table := new Table(hash);
    assert Selector("", request) == Some("");
    var key := table.Put(url, "", "", request);
    first := key.value;
    key := table.Put(url, "", vary, request);
    second := key.value;
    RowKeysApart(hash, BaseKey(hash, url, ""), "", BaseKey(hash, url, ""), selector);
  }

  /** For instance, a response that varies on Accept and one that does not */
  lemma AcceptIsSelected()
    ensures Selector("accept", ["accept: b"]) == Some(Selected("accept", "b"))
  {
    AcceptIsNamed();
    AcceptHasValue();
    OneSelected("accept", "accept", ["accept: b"], "b");
  }

  lemma OneSelected(vary: string, name: string, headers: seq<string>, value: string)
    requires Nominated(vary) == [name] && Supported(name) && HeaderValue(headers, name) == Some(value)
    ensures Selector(vary, headers) == Some(Selected(name, value))
  {
    assert [name][1..] == [] && SelectorFor([], headers) == Some("");
    assert Selected(name, value) + "" == Selected(name, value);
  }

  lemma AcceptIsNamed()
    ensures Nominated("accept") == ["accept"]
  {
    var name := "accept";
    SpanIs(name, ",", 6);
    assert Tokens(name) == [name];
    assert StripLeft(name) == name && StripRight(name) == name && Lower(name) == name;
    assert [name][1..] == [];
  }

  lemma AcceptHasValue()
    ensures HeaderValue(["accept: b"], "accept") == Some("b")
  {
    var header := "accept: b";
    assert header[..6] == "accept" && Lower("accept") == "accept";
    assert header[7..] == " b" && " b"[1..] == "b";
  }
}
