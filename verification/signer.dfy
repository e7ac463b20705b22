/** The client configuration and request construction: base-URL
    normalisation in `Pyndico.__init__` and `Pyndico.build_request`. */
module Signer {
  import opened Wrappers
  import opened Text
  import opened Params

  /** Immutable client settings. An absent and an empty API key or secret
      are both "not set", as Python's truthiness test treats them. */
  datatype Client = Client(baseUrl: string, apiKey: Option<string>, secretKey: Option<string>)

  /** Python truthiness of an optional string setting. */
  predicate IsSet(o: Option<string>) {
    o.Some? && o.value != ""
  }

  /** The foreign operations the request builder calls, left uninterpreted:
      `sign(key, message)` is the lower-case hex HMAC-SHA1 digest and
      `encode(items)` is `urllib.urlencode` of an ordered pair list. */
  datatype Primitives = Primitives(
    sign: (string, string) -> string,
    encode: seq<Pair> -> string)

  /** The base URL is prefixed with `https://` unless it already contains
      the substring `http` anywhere (not only as a scheme). */
  function NormalizeBaseUrl(raw: string): (url: string)
    ensures url == raw <==> Contains(raw, "http")
    ensures url != raw ==> url == "https://" + raw
    ensures Contains(url, "http")
  {
    if Contains(raw, "http") then raw
    else
      assert IsPrefix("http", "https://" + raw);
      "https://" + raw
  }

  /** `Pyndico(base_url, api_key=..., secret_key=...)`. */
  function NewClient(rawBase: string, apiKey: Option<string>, secretKey: Option<string>): (c: Client)
    ensures c.baseUrl == rawBase <==> Contains(rawBase, "http")
    ensures c.baseUrl != rawBase ==> c.baseUrl == "https://" + rawBase
    ensures Contains(c.baseUrl, "http")
    ensures c.apiKey == apiKey && c.secretKey == secretKey
  {
    Client(NormalizeBaseUrl(rawBase), apiKey, secretKey)
  }

  /** Normalising a stored base URL again changes nothing. */
  lemma NormalizeIdempotent(raw: string)
    ensures NormalizeBaseUrl(NormalizeBaseUrl(raw)) == NormalizeBaseUrl(raw)
  {
  }

  /** A host name without any `h`, such as `indico.example.org`, gets the
      scheme prefixed. */
  lemma NormalizeBareHost(host: string)
    requires 'h' !in host
    ensures NormalizeBaseUrl(host) == "https://" + host
  {
    AbsentLeadChar(host, "http");
  }

  /** A URL with a scheme is kept as it is. */
  lemma NormalizeWithScheme()
    ensures NormalizeBaseUrl("http://indico.example.org") == "http://indico.example.org"
  {
    assert IsPrefix("http", "http://indico.example.org");
  }

  /** A host whose every `h` lies in its last three characters, such as
      the documented `indico.cern.ch` (`a` = `indico.cern`, `b` = `.ch`),
      cannot contain `http` and gets the scheme prefixed. */
  lemma NormalizeLateH(a: string, b: string)
    requires 'h' !in a
    requires |b| < 4
    ensures NormalizeBaseUrl(a + b) == "https://" + (a + b)
  {
    LeadOnlyInShortTail(a, b, "http");
  }

  /** The test is a substring test, not a scheme check: a host whose name
      merely contains `http` is kept without any scheme. */
  lemma NormalizeHostContainingHttp()
    ensures NormalizeBaseUrl("httpbin.org") == "httpbin.org"
  {
    assert IsPrefix("http", "httpbin.org");
  }

  /** The pairs appended after the caller's parameters, before any sorting:
      the API key, the public-only flag, then the timestamp (only when a
      secret is set and the request is not persistent). */
  function Extras(c: Client, onlyPublic: bool, persistent: bool, now: int): (r: seq<Pair>)
    ensures forall i :: 0 <= i < |r| ==> Appended(r[i].0)
    ensures IsSet(c.apiKey) ==> |r| > 0 && r[0] == ("apikey", c.apiKey.value)
    ensures !IsSet(c.apiKey) ==> forall i :: 0 <= i < |r| ==> r[i].0 != "apikey"
    ensures ("onlypublic", "yes") in r <==> onlyPublic
    ensures ("timestamp", IntToDecimal(now)) in r <==> IsSet(c.secretKey) && !persistent
    ensures IsSet(c.secretKey) && !persistent ==> r[|r| - 1] == ("timestamp", IntToDecimal(now))
  {
    (if IsSet(c.apiKey) then [("apikey", c.apiKey.value)] else [])
    + (if onlyPublic then [("onlypublic", "yes")] else [])
    + (if IsSet(c.secretKey) && !persistent then [("timestamp", IntToDecimal(now))] else [])
  }

  /** The keys `build_request` appends. */
  predicate Appended(k: string) {
    k == "apikey" || k == "onlypublic" || k == "timestamp"
  }

  /** The item list before signing: the caller's parameters first and
      unchanged, then only appended keys. */
  function Unsigned(c: Client, params: seq<Pair>, onlyPublic: bool, persistent: bool, now: int): (r: seq<Pair>)
    ensures |params| <= |r| <= |params| + 3
    ensures r[..|params|] == params
    ensures forall i :: |params| <= i < |r| ==> Appended(r[i].0)
  {
    params + Extras(c, onlyPublic, persistent, now)
  }

  /** The list the signature covers: the unsigned items sorted by
      lower-cased key, stably, so pairs whose lower-cased keys agree keep
      the order they were added in. By `SortedByGroups` these three facts
      determine the list. */
  function SignedItems(c: Client, params: seq<Pair>, onlyPublic: bool, persistent: bool, now: int): (s: seq<Pair>)
    ensures SortedByKey(s)
    ensures multiset(s) == multiset(Unsigned(c, params, onlyPublic, persistent, now))
    ensures forall k :: WithSortKey(s, k) == WithSortKey(Unsigned(c, params, onlyPublic, persistent, now), k)
  {
    var u := Unsigned(c, params, onlyPublic, persistent, now);
    SortStableAll(u);
    SortByKey(u)
  }

  /** The string that is signed: the path (never the base URL), `?`, and the
      encoded sorted items. */
  function SignedMessage(path: string, items: seq<Pair>, prims: Primitives): string {
    path + "?" + prims.encode(items)
  }

  /** The item list `build_request` emits. Without a secret it is the unsigned
      list as built; with a secret it is the sorted list followed by one
      `signature` pair computed over the path and that sorted list. */
  function Emitted(c: Client, path: string, params: seq<Pair>, onlyPublic: bool, persistent: bool,
                   now: int, prims: Primitives): (items: seq<Pair>)
    ensures !IsSet(c.secretKey) ==> items == Unsigned(c, params, onlyPublic, persistent, now)
    ensures IsSet(c.secretKey) ==>
      && |items| == |Unsigned(c, params, onlyPublic, persistent, now)| + 1
      && items[..|items| - 1] == SignedItems(c, params, onlyPublic, persistent, now)
      && SortedByKey(items[..|items| - 1])
      && multiset(items[..|items| - 1]) == multiset(Unsigned(c, params, onlyPublic, persistent, now))
      && items[|items| - 1]
         == ("signature", prims.sign(c.secretKey.value, path + "?" + prims.encode(items[..|items| - 1])))
    ensures |items| == 0 <==>
      |params| == 0 && !IsSet(c.apiKey) && !onlyPublic && !IsSet(c.secretKey)
  {
    if IsSet(c.secretKey) then
      var sorted := SignedItems(c, params, onlyPublic, persistent, now);
      var signature := prims.sign(c.secretKey.value, SignedMessage(path, sorted, prims));
      assert (sorted + [("signature", signature)])[..|sorted|] == sorted;
      sorted + [("signature", signature)]
    else
      Unsigned(c, params, onlyPublic, persistent, now)
  }

  /** `build_request(path, params, only_public, persistent)` with the clock
      reading `now`: the bare path when no pair is emitted, otherwise the
      base URL, the path, `?` and the encoded emitted pairs. */
  function BuildRequest(c: Client, path: string, params: seq<Pair>, onlyPublic: bool, persistent: bool,
                        now: int, prims: Primitives): (url: string)
    ensures url == path <==> |Emitted(c, path, params, onlyPublic, persistent, now, prims)| == 0
    ensures |Emitted(c, path, params, onlyPublic, persistent, now, prims)| > 0 ==>
      url == c.baseUrl + path + "?" + prims.encode(Emitted(c, path, params, onlyPublic, persistent, now, prims))
  {
    var items := Emitted(c, path, params, onlyPublic, persistent, now, prims);
    if |items| == 0 then path
    else
      var url := c.baseUrl + path + "?" + prims.encode(items);
      assert |url| > |path|;
      url
  }

  /** How often each key occurs among the extras. */
  lemma ExtrasCount(c: Client, onlyPublic: bool, persistent: bool, now: int, k: string)
    ensures CountKey(Extras(c, onlyPublic, persistent, now), k)
         == (if IsSet(c.apiKey) && k == "apikey" then 1 else 0)
          + (if onlyPublic && k == "onlypublic" then 1 else 0)
          + (if IsSet(c.secretKey) && !persistent && k == "timestamp" then 1 else 0)
  {
    var a: seq<Pair> := if IsSet(c.apiKey) then [("apikey", c.apiKey.value)] else [];
    var o: seq<Pair> := if onlyPublic then [("onlypublic", "yes")] else [];
    var t: seq<Pair> := if IsSet(c.secretKey) && !persistent then [("timestamp", IntToDecimal(now))] else [];
    assert Extras(c, onlyPublic, persistent, now) == a + o + t;
    CountKeyConcat(a + o, t, k);
    CountKeyConcat(a, o, k);
  }

  /** Without a secret nothing is sorted or signed: the caller's parameters
      come first and unchanged, then `apikey` when an API key is set, then
      `onlypublic=yes` when requested, and no `signature` or `timestamp`
      pair is added. */
  lemma UnsignedLayout(c: Client, path: string, params: seq<Pair>, onlyPublic: bool, persistent: bool,
                       now: int, prims: Primitives)
    requires !IsSet(c.secretKey)
    ensures Emitted(c, path, params, onlyPublic, persistent, now, prims)[..|params|] == params
    ensures Emitted(c, path, params, onlyPublic, persistent, now, prims)[|params|..]
         == (if IsSet(c.apiKey) then [("apikey", c.apiKey.value)] else [])
            + (if onlyPublic then [("onlypublic", "yes")] else [])
    ensures CountKey(Emitted(c, path, params, onlyPublic, persistent, now, prims), "signature")
         == CountKey(params, "signature")
    ensures CountKey(Emitted(c, path, params, onlyPublic, persistent, now, prims), "timestamp")
         == CountKey(params, "timestamp")
  {
    var items := Emitted(c, path, params, onlyPublic, persistent, now, prims);
    var extras := Extras(c, onlyPublic, persistent, now);
    assert items == params + extras;
    assert items[..|params|] == params;
    assert items[|params|..] == extras;
    assert extras == (if IsSet(c.apiKey) then [("apikey", c.apiKey.value)] else [])
                     + (if onlyPublic then [("onlypublic", "yes")] else []) + [];
    assert CountKey(items, "signature") == CountKey(params, "signature") by {
      CountKeyConcat(params, extras, "signature");
      ExtrasCount(c, onlyPublic, persistent, now, "signature");
    }
    assert CountKey(items, "timestamp") == CountKey(params, "timestamp") by {
      CountKeyConcat(params, extras, "timestamp");
      ExtrasCount(c, onlyPublic, persistent, now, "timestamp");
    }
  }

  /** The `timestamp` pair is added exactly once when a secret is set and the
      request is not persistent, and never otherwise; the signed list keeps it. */
  lemma TimestampOnce(c: Client, params: seq<Pair>, onlyPublic: bool, persistent: bool, now: int)
    ensures CountKey(Unsigned(c, params, onlyPublic, persistent, now), "timestamp")
         == CountKey(params, "timestamp") + (if IsSet(c.secretKey) && !persistent then 1 else 0)
    ensures CountKey(SignedItems(c, params, onlyPublic, persistent, now), "timestamp")
         == CountKey(Unsigned(c, params, onlyPublic, persistent, now), "timestamp")
  {
    CountKeyConcat(params, Extras(c, onlyPublic, persistent, now), "timestamp");
    ExtrasCount(c, onlyPublic, persistent, now, "timestamp");
    CountKeyPermutation(SignedItems(c, params, onlyPublic, persistent, now),
                        Unsigned(c, params, onlyPublic, persistent, now), "timestamp");
  }

  /** With a secret, exactly one `signature` pair is appended to the sorted list. */
  lemma SignatureOnce(c: Client, path: string, params: seq<Pair>, onlyPublic: bool, persistent: bool,
                      now: int, prims: Primitives)
    requires IsSet(c.secretKey)
    ensures CountKey(Emitted(c, path, params, onlyPublic, persistent, now, prims), "signature")
         == CountKey(params, "signature") + 1
  {
    var items := Emitted(c, path, params, onlyPublic, persistent, now, prims);
    var sorted := items[..|items| - 1];
    assert items == sorted + [items[|items| - 1]];
    CountKeyConcat(sorted, [items[|items| - 1]], "signature");
    assert [items[|items| - 1]][1..] == [];
    CountKeyPermutation(sorted, Unsigned(c, params, onlyPublic, persistent, now), "signature");
    CountKeyConcat(params, Extras(c, onlyPublic, persistent, now), "signature");
    ExtrasCount(c, onlyPublic, persistent, now, "signature");
  }

  /** With a secret, the emitted list (and so the signature) depends on the
      caller's parameters only through the order of the pairs under each
      lower-cased key, and not on the base URL; the URL is the same too.
      Parameters that share a lower-cased key with an appended pair, such
      as a caller's own `timestamp`, are covered: the stable sort keeps
      them ahead of the appended one in every ordering. */
  lemma SigningKeepsGroups(c1: Client, c2: Client, path: string, p1: seq<Pair>, p2: seq<Pair>,
                           onlyPublic: bool, persistent: bool, now: int, prims: Primitives)
    requires IsSet(c1.secretKey)
    requires c1.apiKey == c2.apiKey && c1.secretKey == c2.secretKey
    requires forall k :: WithSortKey(p1, k) == WithSortKey(p2, k)
    ensures Emitted(c1, path, p1, onlyPublic, persistent, now, prims)
         == Emitted(c2, path, p2, onlyPublic, persistent, now, prims)
    ensures BuildRequest(c1, path, p1, onlyPublic, persistent, now, prims)
         == BuildRequest(c1, path, p2, onlyPublic, persistent, now, prims)
  {
    var e := Extras(c1, onlyPublic, persistent, now);
    assert e == Extras(c2, onlyPublic, persistent, now);
    forall k
      ensures WithSortKey(p1 + e, k) == WithSortKey(p2 + e, k)
    {
      WithSortKeyConcat(p1, e, k);
      WithSortKeyConcat(p2, e, k);
    }
    SortGroupsIndependent(p1 + e, p2 + e);
    assert Unsigned(c1, p1, onlyPublic, persistent, now) == p1 + e;
    assert Unsigned(c2, p2, onlyPublic, persistent, now) == p2 + e;
    assert Unsigned(c1, p2, onlyPublic, persistent, now) == p2 + e;
  }

  /** With a secret, neither the base URL nor the order of the caller's
      parameters affects the emitted list (and so the signature), provided
      no two parameters differ only in the letter case of their keys; and
      the resulting URL is the same. */
  lemma SigningIgnoresOrderAndBase(c1: Client, c2: Client, path: string, p1: seq<Pair>, p2: seq<Pair>,
                                   onlyPublic: bool, persistent: bool, now: int, prims: Primitives)
    requires IsSet(c1.secretKey)
    requires c1.apiKey == c2.apiKey && c1.secretKey == c2.secretKey
    requires multiset(p1) == multiset(p2)
    requires KeysDetermine(p1)
    ensures Emitted(c1, path, p1, onlyPublic, persistent, now, prims)
         == Emitted(c2, path, p2, onlyPublic, persistent, now, prims)
    ensures BuildRequest(c1, path, p1, onlyPublic, persistent, now, prims)
         == BuildRequest(c1, path, p2, onlyPublic, persistent, now, prims)
  {
    PermutationGroups(p1, p2);
    SigningKeepsGroups(c1, c2, path, p1, p2, onlyPublic, persistent, now, prims);
  }

  /** With a secret set, a non-persistent request's unsigned list ends in
      the timestamp pair. */
  lemma UnsignedEndsInTimestamp(c: Client, params: seq<Pair>, onlyPublic: bool, now: int)
    requires IsSet(c.secretKey)
    ensures Unsigned(c, params, onlyPublic, false, now)
         == Unsigned(c, params, onlyPublic, true, now) + [("timestamp", IntToDecimal(now))]
  {
  }

  /** Two non-persistent signed requests made at different clock readings
      sign different item lists. */
  lemma TimestampSeparatesSignedItems(c: Client, params: seq<Pair>, onlyPublic: bool, now1: int, now2: int)
    requires IsSet(c.secretKey)
    requires now1 != now2
    ensures SignedItems(c, params, onlyPublic, false, now1) != SignedItems(c, params, onlyPublic, false, now2)
  {
    var stamp1 := ("timestamp", IntToDecimal(now1));
    var stamp2 := ("timestamp", IntToDecimal(now2));
    if IntToDecimal(now1) == IntToDecimal(now2) {
      IntToDecimalInjective(now1, now2);
    }
    var front := Unsigned(c, params, onlyPublic, true, now1);
    assert front == Unsigned(c, params, onlyPublic, true, now2);
    UnsignedEndsInTimestamp(c, params, onlyPublic, now1);
    UnsignedEndsInTimestamp(c, params, onlyPublic, now2);
    var m1 := multiset(front + [stamp1]);
    var m2 := multiset(front + [stamp2]);
    assert m1 == multiset(front) + multiset{stamp1};
    assert m2 == multiset(front) + multiset{stamp2};
    assert m1[stamp1] != m2[stamp1];
  }
}
