/** The query-building half of `Pyndico.get` (everything before the
    network fetch) and the keyword override `get_event` applies. */
module Query {
  import opened Wrappers
  import opened Params
  import opened Signer

  /** The export path and the URL parameters left after `qtype` and
      `qtype_id` are taken out of the keyword arguments. */
  datatype Query = Query(path: string, params: seq<Pair>)

  /** The `limit` injected when the caller gives none (the integer 123,
      written out by the URL encoder as its decimal digits). */
  const DefaultLimit: string := "123"

  /** `get(**kwargs)` up to the call of `build_request`. The keyword
      arguments are a dictionary given by its items in iteration order. */
  function Get(kwargs: seq<Pair>): (r: Result<Query>)
    ensures !HasKey(kwargs, "qtype") ==> r == Failure(KeyError("qtype"))
    ensures HasKey(kwargs, "qtype") && !HasKey(kwargs, "qtype_id") ==> r == Failure(KeyError("qtype_id"))
    ensures r.Success? <==> HasKey(kwargs, "qtype") && HasKey(kwargs, "qtype_id")
    ensures r.Success? ==>
      r.value.path == "/export/" + Lookup(kwargs, "qtype").value + "/" + Lookup(kwargs, "qtype_id").value + ".json"
    ensures r.Success? ==> !HasKey(r.value.params, "qtype") && !HasKey(r.value.params, "qtype_id")
    ensures r.Success? ==>
      Lookup(r.value.params, "limit")
      == (if HasKey(kwargs, "limit") then Lookup(kwargs, "limit") else Some(DefaultLimit))
    ensures r.Success? ==>
      forall k :: k != "qtype" && k != "qtype_id" && k != "limit" ==>
        Lookup(r.value.params, k) == Lookup(kwargs, k)
    ensures r.Success? && DistinctKeys(kwargs) ==> DistinctKeys(r.value.params)
  {
    if !HasKey(kwargs, "qtype") then Failure(KeyError("qtype"))
    else if !HasKey(kwargs, "qtype_id") then Failure(KeyError("qtype_id"))
    else
      var qtype := Lookup(kwargs, "qtype").value;
      var qtypeId := Lookup(kwargs, "qtype_id").value;
      var rest := RemoveKey(RemoveKey(kwargs, "qtype"), "qtype_id");
      RemoveKeyFacts(kwargs);
      var params := if HasKey(rest, "limit") then rest else rest + [("limit", DefaultLimit)];
      LimitFacts(rest);
      Success(Query("/export/" + qtype + "/" + qtypeId + ".json", params))
  }

  /** What removing `qtype` and `qtype_id` does to lookups and key distinctness. */
  lemma RemoveKeyFacts(kwargs: seq<Pair>)
    ensures var rest := RemoveKey(RemoveKey(kwargs, "qtype"), "qtype_id");
      && (forall k :: Lookup(rest, k) == (if k == "qtype" || k == "qtype_id" then None else Lookup(kwargs, k)))
      && (DistinctKeys(kwargs) ==> DistinctKeys(rest))
  {
    forall k
      ensures Lookup(RemoveKey(RemoveKey(kwargs, "qtype"), "qtype_id"), k)
           == (if k == "qtype" || k == "qtype_id" then None else Lookup(kwargs, k))
    {
      RemoveKeyLookup(kwargs, "qtype", k);
      RemoveKeyLookup(RemoveKey(kwargs, "qtype"), "qtype_id", k);
    }
    if DistinctKeys(kwargs) {
      RemoveKeyDistinct(kwargs, "qtype");
      RemoveKeyDistinct(RemoveKey(kwargs, "qtype"), "qtype_id");
    }
  }

  /** What appending the default `limit` to a list without one does. */
  lemma LimitFacts(rest: seq<Pair>)
    ensures var params := if HasKey(rest, "limit") then rest else rest + [("limit", DefaultLimit)];
      && Lookup(params, "limit") == (if HasKey(rest, "limit") then Lookup(rest, "limit") else Some(DefaultLimit))
      && (forall k :: k != "limit" ==> Lookup(params, k) == Lookup(rest, k))
      && (DistinctKeys(rest) ==> DistinctKeys(params))
  {
    if !HasKey(rest, "limit") {
      forall k
        ensures Lookup(rest + [("limit", DefaultLimit)], k)
             == (if k == "limit" then Some(DefaultLimit) else Lookup(rest, k))
      {
        AppendLookup(rest, ("limit", DefaultLimit), k);
      }
    }
  }

  lemma {:induction false} AppendLookup(s: seq<Pair>, p: Pair, k: string)
    requires !HasKey(s, p.0)
    ensures Lookup(s + [p], k) == (if k == p.0 then Some(p.1) else Lookup(s, k))
    decreases |s|
  {
    if |s| > 0 {
      assert (s + [p])[1..] == s[1..] + [p];
      assert (s + [p])[0] == s[0];
      forall i | 0 <= i < |s[1..]|
        ensures s[1..][i].0 != p.0
      {
        assert s[1..][i] == s[i + 1];
      }
      AppendLookup(s[1..], p, k);
    } else {
      assert s + [p] == [p];
    }
  }

  /** `get_event(**params)` first sets `params['qtype'] = 'event'`. */
  function EventKwargs(kwargs: seq<Pair>): (r: seq<Pair>)
    ensures Lookup(r, "qtype") == Some("event")
    ensures forall k :: k != "qtype" ==> Lookup(r, k) == Lookup(kwargs, k)
  {
    Update(kwargs, "qtype", "event")
  }

  /** The pieces `get` joins for an event query spell `/export/event/<id>.json`. */
  lemma EventPath(id: string)
    ensures "/export/" + "event" + "/" + id + ".json" == "/export/event/" + id + ".json"
  {
    assert "/export/" + "event" + "/" == "/export/event/";
  }

  /** An event query fails only when no `qtype_id` is given, and then
      exports from `/export/event/`. */
  lemma EventQuery(kwargs: seq<Pair>)
    ensures Get(EventKwargs(kwargs)).Failure? <==> !HasKey(kwargs, "qtype_id")
    ensures Get(EventKwargs(kwargs)).Failure? ==> Get(EventKwargs(kwargs)).error == KeyError("qtype_id")
    ensures Get(EventKwargs(kwargs)).Success? ==>
      Get(EventKwargs(kwargs)).value.path
      == "/export/event/" + Lookup(kwargs, "qtype_id").value + ".json"
  {
    var r := EventKwargs(kwargs);
    assert Lookup(r, "qtype") == Some("event");
    assert Lookup(r, "qtype_id") == Lookup(kwargs, "qtype_id");
    if HasKey(kwargs, "qtype_id") {
      EventPath(Lookup(kwargs, "qtype_id").value);
    }
  }

  /** The `limit` a query sends: the caller's, or the default. */
  function SentLimit(kwargs: seq<Pair>): string {
    if HasKey(kwargs, "limit") then Lookup(kwargs, "limit").value else DefaultLimit
  }

  /** The URL `get(**kwargs)` passes to the transport. A missing `qtype` or
      `qtype_id` fails before any URL is built. Otherwise, since a `limit`
      is always sent, it is never the bare path: it is the base URL, the
      export path, `?` and the encoded list of emitted pairs, which carries
      the caller's `limit` or the default one. */
  function RequestUrl(c: Client, kwargs: seq<Pair>, now: int, prims: Primitives): (r: Result<string>)
    ensures r.Success? <==> Get(kwargs).Success?
    ensures r.Failure? ==> r.error == Get(kwargs).error
    ensures r.Success? ==>
      var q := Get(kwargs).value;
      var items := Emitted(c, q.path, q.params, false, false, now, prims);
      && ("limit", SentLimit(kwargs)) in items
      && r.value == c.baseUrl + q.path + "?" + prims.encode(items)
  {
    var q :- Get(kwargs);
    LimitSent(c, kwargs, now, prims);
    Success(BuildRequest(c, q.path, q.params, false, false, now, prims))
  }

  /** The emitted pairs of a query carry its `limit`: the caller's when
      given, `123` otherwise, whether or not the request is signed. */
  lemma LimitSent(c: Client, kwargs: seq<Pair>, now: int, prims: Primitives)
    requires Get(kwargs).Success?
    ensures ("limit", SentLimit(kwargs))
            in Emitted(c, Get(kwargs).value.path, Get(kwargs).value.params, false, false, now, prims)
  {
    var q := Get(kwargs).value;
    assert Lookup(q.params, "limit") == Some(SentLimit(kwargs));
    assert ("limit", SentLimit(kwargs)) in q.params;
    var u := Unsigned(c, q.params, false, false, now);
    assert u == q.params + Extras(c, false, false, now);
    assert ("limit", SentLimit(kwargs)) in u;
    if IsSet(c.secretKey) {
      var items := Emitted(c, q.path, q.params, false, false, now, prims);
      assert ("limit", SentLimit(kwargs)) in multiset(u);
      assert ("limit", SentLimit(kwargs)) in multiset(items[..|items| - 1]);
      assert ("limit", SentLimit(kwargs)) in items[..|items| - 1];
    }
  }

  /** Without a caller-supplied `limit`, the request carries `limit=123`. */
  lemma DefaultLimitSent(c: Client, kwargs: seq<Pair>, now: int, prims: Primitives)
    requires Get(kwargs).Success?
    requires !HasKey(kwargs, "limit")
    ensures ("limit", DefaultLimit)
            in Emitted(c, Get(kwargs).value.path, Get(kwargs).value.params, false, false, now, prims)
  {
    LimitSent(c, kwargs, now, prims);
  }

  /** The keyword arguments left once `qtype` and `qtype_id` are popped. */
  function Remaining(kwargs: seq<Pair>): seq<Pair> {
    RemoveKey(RemoveKey(kwargs, "qtype"), "qtype_id")
  }

  /** The URL parameters are the remaining keywords, then the injected
      `limit` when none was given. */
  lemma GetParams(kwargs: seq<Pair>)
    requires Get(kwargs).Success?
    ensures Get(kwargs).value.params
         == Remaining(kwargs) + (if HasKey(Remaining(kwargs), "limit") then [] else [("limit", DefaultLimit)])
  {
  }

  /** Two orderings of the same keyword dictionary build the same path from
      the same remaining keywords. */
  lemma PermutedKwargs(k1: seq<Pair>, k2: seq<Pair>)
    requires DistinctKeys(k1) && DistinctKeys(k2)
    requires multiset(k1) == multiset(k2)
    ensures Get(k1).Success? <==> Get(k2).Success?
    ensures Get(k1).Failure? ==> Get(k1) == Get(k2)
    ensures Get(k1).Success? ==> Get(k1).value.path == Get(k2).value.path
    ensures multiset(Remaining(k1)) == multiset(Remaining(k2))
    ensures HasKey(Remaining(k1), "limit") == HasKey(Remaining(k2), "limit")
  {
    forall k
      ensures Lookup(k1, k) == Lookup(k2, k)
    {
      LookupPermutation(k1, k2, k);
    }
    assert Lookup(k1, "qtype") == Lookup(k2, "qtype");
    assert Lookup(k1, "qtype_id") == Lookup(k2, "qtype_id");
    RemoveKeyPermutation(k1, k2, "qtype");
    RemoveKeyPermutation(RemoveKey(k1, "qtype"), RemoveKey(k2, "qtype"), "qtype_id");
    RemoveKeyFacts(k1);
    RemoveKeyFacts(k2);
    assert Lookup(Remaining(k1), "limit") == Lookup(k1, "limit");
    assert Lookup(Remaining(k2), "limit") == Lookup(k2, "limit");
  }

  /** For a signing client, the URL does not depend on the order in which the
      keyword dictionary yields its items, provided no two of the URL
      parameters (the keywords other than `qtype` and `qtype_id`) differ
      only in the letter case of their keys. A parameter that shares a
      lower-cased key with the injected `limit` or an appended pair (such as
      `Limit` or `timestamp`) is allowed. */
  lemma KwargsOrderIrrelevant(c: Client, k1: seq<Pair>, k2: seq<Pair>, now: int, prims: Primitives)
    requires IsSet(c.secretKey)
    requires DistinctKeys(k1) && DistinctKeys(k2)
    requires multiset(k1) == multiset(k2)
    requires KeysDetermine(Remaining(k1))
    ensures RequestUrl(c, k1, now, prims) == RequestUrl(c, k2, now, prims)
  {
    PermutedKwargs(k1, k2);
    if Get(k1).Success? {
      var q1 := Get(k1).value;
      var q2 := Get(k2).value;
      GetParams(k1);
      GetParams(k2);
      var tail: seq<Pair> := if HasKey(Remaining(k1), "limit") then [] else [("limit", DefaultLimit)];
      PermutationGroups(Remaining(k1), Remaining(k2));
      forall k
        ensures WithSortKey(q1.params, k) == WithSortKey(q2.params, k)
      {
        WithSortKeyConcat(Remaining(k1), tail, k);
        WithSortKeyConcat(Remaining(k2), tail, k);
      }
      SigningKeepsGroups(c, c, q1.path, q1.params, q2.params, false, false, now, prims);
    }
  }
}
