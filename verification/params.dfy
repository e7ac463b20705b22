/** Query parameters as an ordered list of (key, value) pairs: the stable
    case-insensitive sort applied before signing, and the dictionary
    operations `get` performs on its keyword arguments. */
module Params {
  import opened Wrappers
  import opened Text

  type Pair = (string, string)

  /** The sort key of `sorted(items, key=lambda x: x[0].lower())`. */
  function SortKey(p: Pair): string {
    Lower(p.0)
  }

  /** Ascending by lower-cased key. */
  predicate SortedByKey(s: seq<Pair>) {
    forall i, j :: 0 <= i < j < |s| ==> LexLe(SortKey(s[i]), SortKey(s[j]))
  }

  /** Pairs whose lower-cased keys agree are the same pair: no two distinct
      parameters collide when keys are compared case-insensitively. */
  predicate KeysDetermine(s: seq<Pair>) {
    forall i, j :: 0 <= i < |s| && 0 <= j < |s| && SortKey(s[i]) == SortKey(s[j]) ==> s[i] == s[j]
  }

  /** Insert `x` before the first element whose key is not below its own. */
  function Insert(x: Pair, s: seq<Pair>): (r: seq<Pair>)
    ensures multiset(r) == multiset(s) + multiset{x}
    ensures |r| == |s| + 1
  {
    if |s| == 0 then [x]
    else if LexLe(SortKey(x), SortKey(s[0])) then [x] + s
    else
      assert s == [s[0]] + s[1..];
      [s[0]] + Insert(x, s[1..])
  }

  lemma {:induction false} InsertSorted(x: Pair, s: seq<Pair>)
    requires SortedByKey(s)
    ensures SortedByKey(Insert(x, s))
    decreases |s|
  {
    if |s| == 0 {
    } else if LexLe(SortKey(x), SortKey(s[0])) {
      InsertFront(x, s);
    } else {
      InsertSorted(x, s[1..]);
      InsertBehind(x, s);
    }
  }

  lemma InsertFront(x: Pair, s: seq<Pair>)
    requires SortedByKey(s)
    requires |s| > 0 && LexLe(SortKey(x), SortKey(s[0]))
    ensures SortedByKey([x] + s)
  {
    forall j | 0 <= j < |s|
      ensures LexLe(SortKey(x), SortKey(s[j]))
    {
      if j > 0 {
        LexLeTransitive(SortKey(x), SortKey(s[0]), SortKey(s[j]));
      }
    }
    assert SortedByKey([x] + s);
  }

  lemma InsertBehind(x: Pair, s: seq<Pair>)
    requires SortedByKey(s)
    requires |s| > 0 && !LexLe(SortKey(x), SortKey(s[0]))
    requires SortedByKey(Insert(x, s[1..]))
    ensures SortedByKey([s[0]] + Insert(x, s[1..]))
  {
    HeadBelowInsert(x, s);
  }

  lemma HeadBelowInsert(x: Pair, s: seq<Pair>)
    requires SortedByKey(s)
    requires |s| > 0 && !LexLe(SortKey(x), SortKey(s[0]))
    ensures forall j :: 0 <= j < |Insert(x, s[1..])| ==> LexLe(SortKey(s[0]), SortKey(Insert(x, s[1..])[j]))
  {
    LexLeTotal(SortKey(x), SortKey(s[0]));
    var t := Insert(x, s[1..]);
    forall j | 0 <= j < |t|
      ensures LexLe(SortKey(s[0]), SortKey(t[j]))
    {
      assert t[j] in multiset(t);
      if t[j] != x {
        assert t[j] in multiset(s[1..]);
        var m :| 0 <= m < |s[1..]| && s[1..][m] == t[j];
        assert s[1..][m] == s[m + 1];
      }
    }
  }

  /** Python's stable `sorted(items, key=lambda x: x[0].lower())`. */
  function SortByKey(s: seq<Pair>): (r: seq<Pair>)
    ensures SortedByKey(r)
    ensures multiset(r) == multiset(s)
    ensures |r| == |s|
  {
    if |s| == 0 then []
    else
      var t := SortByKey(s[1..]);
      InsertSorted(s[0], t);
      MultisetTail(s);
      Insert(s[0], t)
  }

  /** `[p]` when `p` has sort key `k`, otherwise nothing. */
  function Keep(p: Pair, k: string): seq<Pair> {
    if SortKey(p) == k then [p] else []
  }

  /** The pairs of `s` whose lower-cased key is `k`, in order. */
  function WithSortKey(s: seq<Pair>, k: string): seq<Pair> {
    if |s| == 0 then [] else Keep(s[0], k) + WithSortKey(s[1..], k)
  }

  lemma WithSortKeyCons(p: Pair, s: seq<Pair>, k: string)
    ensures WithSortKey([p] + s, k) == Keep(p, k) + WithSortKey(s, k)
  {
    assert ([p] + s)[1..] == s;
  }

  /** Two pairs out of key order cannot both have sort key `k`, so keeping
      them commutes. */
  lemma OutOfOrderKeep(x: Pair, y: Pair, k: string, w: seq<Pair>)
    requires !LexLe(SortKey(x), SortKey(y))
    ensures Keep(y, k) + (Keep(x, k) + w) == Keep(x, k) + (Keep(y, k) + w)
  {
    LexLeReflexive(SortKey(x));
    if SortKey(x) == k {
      assert Keep(y, k) == [];
    } else {
      assert Keep(x, k) == [];
      assert Keep(x, k) + w == w;
    }
  }

  /** Inserting past a head that sorts before `x` keeps the head first. */
  lemma InsertPastHead(x: Pair, s: seq<Pair>, k: string)
    requires |s| > 0 && !LexLe(SortKey(x), SortKey(s[0]))
    ensures WithSortKey(Insert(x, s), k) == Keep(s[0], k) + WithSortKey(Insert(x, s[1..]), k)
  {
    assert Insert(x, s) == [s[0]] + Insert(x, s[1..]);
    WithSortKeyCons(s[0], Insert(x, s[1..]), k);
  }

  lemma {:induction false} InsertWithSortKey(x: Pair, s: seq<Pair>, k: string)
    ensures WithSortKey(Insert(x, s), k) == Keep(x, k) + WithSortKey(s, k)
    decreases |s|
  {
    if |s| == 0 {
      WithSortKeyCons(x, [], k);
    } else if LexLe(SortKey(x), SortKey(s[0])) {
      WithSortKeyCons(x, s, k);
    } else {
      InsertWithSortKey(x, s[1..], k);
      InsertPastHead(x, s, k);
      OutOfOrderKeep(x, s[0], k, WithSortKey(s[1..], k));
    }
  }

  /** Stability: pairs with equal lower-cased keys keep their input order. */
  lemma {:induction false} SortStable(s: seq<Pair>, k: string)
    ensures WithSortKey(SortByKey(s), k) == WithSortKey(s, k)
    decreases |s|
  {
    if |s| > 0 {
      SortStable(s[1..], k);
      InsertWithSortKey(s[0], SortByKey(s[1..]), k);
    }
  }

  /** Stability for every sort key at once. */
  lemma SortStableAll(s: seq<Pair>)
    ensures forall k :: WithSortKey(SortByKey(s), k) == WithSortKey(s, k)
  {
    forall k
      ensures WithSortKey(SortByKey(s), k) == WithSortKey(s, k)
    {
      SortStable(s, k);
    }
  }

  lemma {:induction false} WithSortKeyConcat(a: seq<Pair>, b: seq<Pair>, k: string)
    ensures WithSortKey(a + b, k) == WithSortKey(a, k) + WithSortKey(b, k)
    decreases |a|
  {
    if |a| == 0 {
      assert a + b == b;
    } else {
      assert (a + b)[0] == a[0];
      assert (a + b)[1..] == a[1..] + b;
      WithSortKeyConcat(a[1..], b, k);
    }
  }

  /** The group of the first pair's sort key starts with that pair. */
  lemma GroupLead(s: seq<Pair>)
    requires |s| > 0
    ensures WithSortKey(s, SortKey(s[0])) == [s[0]] + WithSortKey(s[1..], SortKey(s[0]))
  {
  }

  /** A non-empty group has a pair of `s` with that sort key. */
  lemma {:induction false} GroupMember(s: seq<Pair>, k: string)
    requires WithSortKey(s, k) != []
    ensures exists i :: 0 <= i < |s| && SortKey(s[i]) == k
    decreases |s|
  {
    if SortKey(s[0]) != k {
      GroupMember(s[1..], k);
      var i :| 0 <= i < |s[1..]| && SortKey(s[1..][i]) == k;
      assert s[1..][i] == s[i + 1];
    }
  }

  /** A sorted list is determined by its groups: two sorted lists that hold
      the same pairs in the same order under every sort key coincide. */
  lemma {:induction false} SortedByGroups(s: seq<Pair>, t: seq<Pair>)
    requires SortedByKey(s) && SortedByKey(t)
    requires forall k :: WithSortKey(s, k) == WithSortKey(t, k)
    ensures s == t
    decreases |s|
  {
    if |s| == 0 {
      if |t| > 0 {
        GroupLead(t);
        assert false;
      }
    } else if |t| == 0 {
      GroupLead(s);
      assert false;
    } else {
      var k0 := SortKey(s[0]);
      var k1 := SortKey(t[0]);
      GroupLead(s);
      GroupLead(t);
      LexLeReflexive(k0);
      LexLeReflexive(k1);
      GroupMember(t, k0);
      var i :| 0 <= i < |t| && SortKey(t[i]) == k0;
      assert LexLe(k1, k0);
      GroupMember(s, k1);
      var j :| 0 <= j < |s| && SortKey(s[j]) == k1;
      assert LexLe(k0, k1);
      LexLeAntisymmetric(k0, k1);
      assert s[0] == t[0] by {
        assert WithSortKey(s, k0)[0] == WithSortKey(t, k0)[0];
      }
      forall k
        ensures WithSortKey(s[1..], k) == WithSortKey(t[1..], k)
      {
        var lead := Keep(s[0], k);
        assert WithSortKey(s, k) == lead + WithSortKey(s[1..], k);
        assert WithSortKey(t, k) == lead + WithSortKey(t[1..], k);
        assert (lead + WithSortKey(s[1..], k))[|lead|..] == WithSortKey(s[1..], k);
        assert (lead + WithSortKey(t[1..], k))[|lead|..] == WithSortKey(t[1..], k);
      }
      SortedTail(s);
      SortedTail(t);
      SortedByGroups(s[1..], t[1..]);
      SameHeadAndTail(s, t);
    }
  }

  /** Two lists that agree on every group sort to the same list, whatever
      the order of pairs with different sort keys. */
  lemma SortGroupsIndependent(a: seq<Pair>, b: seq<Pair>)
    requires forall k :: WithSortKey(a, k) == WithSortKey(b, k)
    ensures SortByKey(a) == SortByKey(b)
  {
    SortStableAll(a);
    SortStableAll(b);
    SortedByGroups(SortByKey(a), SortByKey(b));
  }

  /** Two orderings of the same pairs agree on every group when lower-cased
      keys determine the pairs. */
  lemma PermutationGroups(a: seq<Pair>, b: seq<Pair>)
    requires multiset(a) == multiset(b)
    requires KeysDetermine(a)
    ensures forall k :: WithSortKey(a, k) == WithSortKey(b, k)
  {
    SortOrderIndependent(a, b);
    SortStableAll(a);
    SortStableAll(b);
  }

  lemma SortedTail(s: seq<Pair>)
    requires SortedByKey(s) && |s| > 0
    ensures SortedByKey(s[1..])
  {
    forall i, j | 0 <= i < j < |s[1..]|
      ensures LexLe(SortKey(s[1..][i]), SortKey(s[1..][j]))
    {
      assert s[1..][i] == s[i + 1] && s[1..][j] == s[j + 1];
    }
  }

  /** Two sorted arrangements of the same pairs coincide when lower-cased
      keys determine the pairs. */
  lemma MultisetTail(s: seq<Pair>)
    requires |s| > 0
    ensures multiset(s) == multiset(s[1..]) + multiset{s[0]}
    ensures multiset(s[1..]) == multiset(s) - multiset{s[0]}
  {
    assert s == [s[0]] + s[1..];
  }

  lemma KeysDetermineTail(s: seq<Pair>)
    requires KeysDetermine(s) && |s| > 0
    ensures KeysDetermine(s[1..])
  {
    forall a, b | 0 <= a < |s[1..]| && 0 <= b < |s[1..]| && SortKey(s[1..][a]) == SortKey(s[1..][b])
      ensures s[1..][a] == s[1..][b]
    {
      assert s[1..][a] == s[a + 1] && s[1..][b] == s[b + 1];
    }
  }

  /** Two sorted orderings of the same pairs start with the same pair when
      keys determine pairs. */
  lemma SortedHeads(s: seq<Pair>, t: seq<Pair>)
    requires SortedByKey(s) && SortedByKey(t)
    requires multiset(s) == multiset(t)
    requires KeysDetermine(s)
    requires |s| > 0 && |t| > 0
    ensures s[0] == t[0]
  {
    assert t[0] in multiset(s);
    var i :| 0 <= i < |s| && s[i] == t[0];
    assert s[0] in multiset(t);
    var j :| 0 <= j < |t| && t[j] == s[0];
    LexLeReflexive(SortKey(s[0]));
    LexLeReflexive(SortKey(t[0]));
    assert LexLe(SortKey(s[0]), SortKey(s[i]));
    assert LexLe(SortKey(t[0]), SortKey(t[j]));
    LexLeAntisymmetric(SortKey(s[0]), SortKey(t[0]));
  }

  lemma {:induction false} SortedUnique(s: seq<Pair>, t: seq<Pair>)
    requires SortedByKey(s) && SortedByKey(t)
    requires multiset(s) == multiset(t)
    requires KeysDetermine(s)
    ensures s == t
    decreases |s|
  {
    assert |s| == |multiset(s)| == |multiset(t)| == |t|;
    if |s| > 0 {
      SortedHeads(s, t);
      MultisetTail(s);
      MultisetTail(t);
      SortedTail(s);
      SortedTail(t);
      KeysDetermineTail(s);
      SortedUnique(s[1..], t[1..]);
      SameHeadAndTail(s, t);
    }
  }

  lemma SameHeadAndTail(s: seq<Pair>, t: seq<Pair>)
    requires |s| > 0 && |t| > 0 && s[0] == t[0] && s[1..] == t[1..]
    ensures s == t
  {
    assert s == [s[0]] + s[1..];
    assert t == [t[0]] + t[1..];
  }


  /** `KeysDetermine` carries over to any list drawn from the same pairs. */
  lemma KeysDetermineSubset(s: seq<Pair>, t: seq<Pair>)
    requires multiset(s) <= multiset(t)
    requires KeysDetermine(t)
    ensures KeysDetermine(s)
  {
    forall i, j | 0 <= i < |s| && 0 <= j < |s| && SortKey(s[i]) == SortKey(s[j])
      ensures s[i] == s[j]
    {
      assert s[i] in multiset(s) && s[j] in multiset(s);
      assert s[i] in multiset(t) && s[j] in multiset(t);
      var a :| 0 <= a < |t| && t[a] == s[i];
      var b :| 0 <= b < |t| && t[b] == s[j];
    }
  }

  /** The sorted list does not depend on the input order once lower-cased
      keys determine the pairs. */
  lemma SortOrderIndependent(a: seq<Pair>, b: seq<Pair>)
    requires multiset(a) == multiset(b)
    requires KeysDetermine(a)
    ensures SortByKey(a) == SortByKey(b)
  {
    KeysDetermineSubset(SortByKey(a), a);
    SortedUnique(SortByKey(a), SortByKey(b));
  }

  /** The number of pairs whose key is exactly `k`. */
  function CountKey(s: seq<Pair>, k: string): nat {
    if |s| == 0 then 0 else (if s[0].0 == k then 1 else 0) + CountKey(s[1..], k)
  }

  lemma {:induction false} CountKeyConcat(a: seq<Pair>, b: seq<Pair>, k: string)
    ensures CountKey(a + b, k) == CountKey(a, k) + CountKey(b, k)
    decreases |a|
  {
    if |a| > 0 {
      assert (a + b)[0] == a[0];
      assert (a + b)[1..] == a[1..] + b;
      CountKeyConcat(a[1..], b, k);
    } else {
      assert a + b == b;
    }
  }

  /** Taking out the element at `j`: what is left, as a multiset and as a count. */
  lemma DropAt(b: seq<Pair>, j: int, k: string)
    requires 0 <= j < |b|
    ensures multiset(b[..j] + b[j + 1..]) == multiset(b) - multiset{b[j]}
    ensures CountKey(b, k) == CountKey(b[..j] + b[j + 1..], k) + (if b[j].0 == k then 1 else 0)
  {
    assert b == b[..j] + [b[j]] + b[j + 1..];
    assert multiset(b) == multiset(b[..j]) + multiset{b[j]} + multiset(b[j + 1..]);
    CountKeyConcat(b[..j], b[j + 1..], k);
    CountKeyConcat(b[..j] + [b[j]], b[j + 1..], k);
    CountKeyConcat(b[..j], [b[j]], k);
  }

  /** Reordering a list does not change how often a key occurs. */
  lemma {:induction false} CountKeyPermutation(a: seq<Pair>, b: seq<Pair>, k: string)
    requires multiset(a) == multiset(b)
    ensures CountKey(a, k) == CountKey(b, k)
    decreases |a|
  {
    assert |a| == |multiset(a)| == |multiset(b)| == |b|;
    if |a| > 0 {
      assert a[0] in multiset(b);
      var j :| 0 <= j < |b| && b[j] == a[0];
      DropAt(b, j, k);
      assert a == [a[0]] + a[1..];
      assert multiset(a[1..]) == multiset(a) - multiset{a[0]};
      CountKeyPermutation(a[1..], b[..j] + b[j + 1..], k);
    }
  }

  /** Python's `k in d` for a dictionary given by its items: some item is
      stored under `k`. */
  predicate HasKey(s: seq<Pair>, k: string): (b: bool)
    ensures b <==> exists v :: (k, v) in s
  {
    var b := exists i :: 0 <= i < |s| && s[i].0 == k;
    if b then
      var i :| 0 <= i < |s| && s[i].0 == k;
      assert (k, s[i].1) == s[i];
      b
    else
      b
  }

  /** The items of a dictionary: no key appears twice. */
  predicate DistinctKeys(s: seq<Pair>) {
    forall i, j :: 0 <= i < j < |s| ==> s[i].0 != s[j].0
  }

  /** `d.get(k)`: the value of the first pair with key `k`. */
  function Lookup(s: seq<Pair>, k: string): (r: Option<string>)
    ensures r.None? <==> !HasKey(s, k)
    ensures r.Some? ==> (k, r.value) in s
  {
    if |s| == 0 then None
    else if s[0].0 == k then Some(s[0].1)
    else
      assert forall i :: 0 < i < |s| ==> s[i] == s[1..][i - 1];
      Lookup(s[1..], k)
  }

  /** In a dictionary, looking a key up finds exactly the pair stored under it. */
  lemma {:induction false} LookupIffMember(s: seq<Pair>, k: string, v: string)
    requires DistinctKeys(s)
    ensures Lookup(s, k) == Some(v) <==> (k, v) in s
    decreases |s|
  {
    if |s| > 0 {
      if s[0].0 == k {
        assert forall i :: 0 < i < |s| ==> s[i].0 != k;
      } else {
        assert DistinctKeys(s[1..]) by {
          forall a, b | 0 <= a < b < |s[1..]|
            ensures s[1..][a].0 != s[1..][b].0
          {
            assert s[1..][a] == s[a + 1] && s[1..][b] == s[b + 1];
          }
        }
        LookupIffMember(s[1..], k, v);
        assert s == [s[0]] + s[1..];
      }
    }
  }

  /** Reordering the items does not change which keys are present. */
  lemma HasKeyPermutation(a: seq<Pair>, b: seq<Pair>, k: string)
    requires multiset(a) == multiset(b)
    ensures HasKey(a, k) <==> HasKey(b, k)
  {
    if HasKey(a, k) {
      var v :| (k, v) in a;
      assert (k, v) in multiset(a);
    }
    if HasKey(b, k) {
      var v :| (k, v) in b;
      assert (k, v) in multiset(b);
    }
  }

  /** Two orderings of the same dictionary answer every lookup alike. */
  lemma LookupPermutation(a: seq<Pair>, b: seq<Pair>, k: string)
    requires DistinctKeys(a) && DistinctKeys(b)
    requires multiset(a) == multiset(b)
    ensures Lookup(a, k) == Lookup(b, k)
  {
    if Lookup(a, k).Some? {
      var v := Lookup(a, k).value;
      LookupIffMember(a, k, v);
      LookupIffMember(b, k, v);
      assert (k, v) in multiset(a);
    } else {
      HasKeyPermutation(a, b, k);
    }
  }

  /** `d.pop(k)` for its effect on the dictionary: every pair with key `k`
      goes, and the rest keep their order. */
  function RemoveKey(s: seq<Pair>, k: string): (r: seq<Pair>)
    ensures !HasKey(r, k)
    ensures |r| <= |s|
    ensures forall p :: p in r ==> p in s
    ensures HasKey(s, k) ==> |r| < |s|
  {
    if |s| == 0 then []
    else (if s[0].0 == k then [] else [s[0]]) + RemoveKey(s[1..], k)
  }

  /** Removal keeps every pair under another key as often as it occurred. */
  lemma {:induction false} RemoveKeyCount(s: seq<Pair>, k: string, p: Pair)
    ensures multiset(RemoveKey(s, k))[p] == (if p.0 == k then 0 else multiset(s)[p])
    decreases |s|
  {
    if |s| > 0 {
      RemoveKeyCount(s[1..], k, p);
      assert s == [s[0]] + s[1..];
      assert multiset(s) == multiset{s[0]} + multiset(s[1..]);
      var head: seq<Pair> := if s[0].0 == k then [] else [s[0]];
      assert multiset(RemoveKey(s, k)) == multiset(head) + multiset(RemoveKey(s[1..], k));
    }
  }

  /** Removing a key from two orderings of the same pairs leaves two
      orderings of the same pairs. */
  lemma RemoveKeyPermutation(a: seq<Pair>, b: seq<Pair>, k: string)
    requires multiset(a) == multiset(b)
    ensures multiset(RemoveKey(a, k)) == multiset(RemoveKey(b, k))
  {
    forall p
      ensures multiset(RemoveKey(a, k))[p] == multiset(RemoveKey(b, k))[p]
    {
      RemoveKeyCount(a, k, p);
      RemoveKeyCount(b, k, p);
    }
  }

  lemma {:induction false} RemoveKeyLookup(s: seq<Pair>, k: string, k': string)
    ensures Lookup(RemoveKey(s, k), k') == (if k' == k then None else Lookup(s, k'))
    decreases |s|
  {
    if |s| > 0 {
      RemoveKeyLookup(s[1..], k, k');
      if s[0].0 != k {
        assert RemoveKey(s, k) == [s[0]] + RemoveKey(s[1..], k);
        assert ([s[0]] + RemoveKey(s[1..], k))[1..] == RemoveKey(s[1..], k);
        assert ([s[0]] + RemoveKey(s[1..], k))[0] == s[0];
      } else {
        assert RemoveKey(s, k) == [] + RemoveKey(s[1..], k);
        assert [] + RemoveKey(s[1..], k) == RemoveKey(s[1..], k);
        assert k' != k ==> Lookup(s, k') == Lookup(s[1..], k');
      }
    }
  }

  lemma {:induction false} RemoveKeyDistinct(s: seq<Pair>, k: string)
    requires DistinctKeys(s)
    ensures DistinctKeys(RemoveKey(s, k))
    decreases |s|
  {
    if |s| > 0 {
      var t := RemoveKey(s[1..], k);
      assert DistinctKeys(s[1..]) by {
        forall a, b | 0 <= a < b < |s[1..]|
          ensures s[1..][a].0 != s[1..][b].0
        {
          assert s[1..][a] == s[a + 1] && s[1..][b] == s[b + 1];
        }
      }
      RemoveKeyDistinct(s[1..], k);
      if s[0].0 != k {
        forall j | 0 <= j < |t|
          ensures s[0].0 != t[j].0
        {
          assert t[j] in multiset(t);
          RemoveKeyCount(s[1..], k, t[j]);
          assert t[j] in multiset(s[1..]);
          var b :| 0 <= b < |s[1..]| && s[1..][b] == t[j];
          assert s[b + 1] == t[j];
        }
        assert RemoveKey(s, k) == [s[0]] + t;
        forall a, b | 0 <= a < b < |[s[0]] + t|
          ensures ([s[0]] + t)[a].0 != ([s[0]] + t)[b].0
        {
          if a > 0 {
            assert ([s[0]] + t)[a] == t[a - 1];
          }
          assert ([s[0]] + t)[b] == t[b - 1];
        }
      } else {
        assert RemoveKey(s, k) == [] + t;
      }
    }
  }

  /** `d[k] = v`: replace the value stored under `k`, or add the pair at the end. */
  function Update(s: seq<Pair>, k: string, v: string): (r: seq<Pair>)
    ensures Lookup(r, k) == Some(v)
    ensures forall k' :: k' != k ==> Lookup(r, k') == Lookup(s, k')
  {
    if |s| == 0 then [(k, v)]
    else if s[0].0 == k then [(k, v)] + s[1..]
    else [s[0]] + Update(s[1..], k, v)
  }
}
