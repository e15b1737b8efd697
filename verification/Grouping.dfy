/** The insertion-ordered Maps of arrays and the stable sorts that the layout code is built from. */
module Grouping {
  import opened Graph

  /** The ids with key k, in input order: what repeated pushes leave in one Map entry. */
  function Bucket(ids: seq<Id>, key: map<Id, int>, k: int): (b: seq<Id>)
    ensures forall id :: id in b <==> id in ids && id in key && key[id] == k
  {
    if ids == [] then []
    else
      var n := |ids| - 1;
      if ids[n] in key && key[ids[n]] == k then Bucket(ids[..n], key, k) + [ids[n]]
      else Bucket(ids[..n], key, k)
  }

  lemma BucketOfOneMore(ids: seq<Id>, id: Id, key: map<Id, int>, k: int)
    ensures Bucket(ids + [id], key, k)
         == if id in key && key[id] == k then Bucket(ids, key, k) + [id] else Bucket(ids, key, k)
  {
    assert (ids + [id])[..|ids|] == ids;
  }

  lemma {:induction false} BucketDependsOnMembers(ids: seq<Id>, key: map<Id, int>, k: int, key': map<Id, int>, k': int)
    requires forall id :: id in ids ==> (id in key && key[id] == k <==> id in key' && key'[id] == k')
    ensures Bucket(ids, key, k) == Bucket(ids, key', k')
  {
    if ids != [] {
      var n := |ids| - 1;
      BucketDependsOnMembers(ids[..n], key, k, key', k');
      var last := ids[n];
      assert last in ids;
    }
  }

  function KeysOf(ids: seq<Id>, key: map<Id, int>): set<int> {
    set id | id in ids && id in key :: key[id]
  }

  /** What the grouping loop has built from the ids seen so far. */
  ghost predicate Grouped(ids: seq<Id>, key: map<Id, int>, groups: map<int, seq<Id>>) {
    && groups.Keys == KeysOf(ids, key)
    && forall k :: k in groups ==> groups[k] == Bucket(ids, key, k)
  }

  function Pushed(groups: map<int, seq<Id>>, k: int, id: Id): map<int, seq<Id>> {
    if k in groups then groups[k := groups[k] + [id]] else groups[k := [id]]
  }

  lemma PushBucket(ids: seq<Id>, id: Id, key: map<Id, int>, groups: map<int, seq<Id>>, k: int)
    requires Grouped(ids, key, groups) && id in key && k in Pushed(groups, key[id], id)
    ensures Pushed(groups, key[id], id)[k] == Bucket(ids + [id], key, k)
  {
    BucketOfOneMore(ids, id, key, k);
    if k !in groups {
      EmptyBucket(ids, key, k);
    }
  }

  lemma PushGroup(ids: seq<Id>, id: Id, key: map<Id, int>, groups: map<int, seq<Id>>)
    requires Grouped(ids, key, groups) && id in key
    ensures Grouped(ids + [id], key, Pushed(groups, key[id], id))
  {
    assert KeysOf(ids + [id], key) == KeysOf(ids, key) + {key[id]};
    forall k | k in Pushed(groups, key[id], id)
      ensures Pushed(groups, key[id], id)[k] == Bucket(ids + [id], key, k)
    {
      PushBucket(ids, id, key, groups, k);
    }
  }

  lemma {:induction false} EmptyBucket(ids: seq<Id>, key: map<Id, int>, k: int)
    requires k !in KeysOf(ids, key)
    ensures Bucket(ids, key, k) == []
  {
    if ids != [] {
      var n := |ids| - 1;
      var last := ids[n];
      assert last in ids;
      EmptyBucket(ids[..n], key, k);
    }
  }

  /** Groups ids by key, pushing each onto its Map entry; `order` lists the keys in the order the
      Map acquired them. */
  method GroupBy(ids: seq<Id>, key: map<Id, int>) returns (order: seq<int>, groups: map<int, seq<Id>>)
    requires forall id :: id in ids ==> id in key
    ensures Grouped(ids, key, groups) && InFirstEncounterOrder(ids, key, order)
  {
    order, groups := [], map[];
    for i := 0 to |ids|
      invariant Grouped(ids[..i], key, groups) && InFirstEncounterOrder(ids[..i], key, order)
    {
      var id := ids[i];
      assert ids[..i + 1] == ids[..i] + [id];
      PushGroup(ids[..i], id, key, groups);
      OrderOfOneMore(ids[..i], id, key, order);
      if key[id] !in groups {
        order := order + [key[id]];
      }
      groups := Pushed(groups, key[id], id);
    }
    assert ids[..|ids|] == ids;
  }

  predicate HasKey(ids: seq<Id>, key: map<Id, int>, k: int, i: nat)
    requires i < |ids|
  {
    ids[i] in key && key[ids[i]] == k
  }

  ghost function FirstFrom(ids: seq<Id>, key: map<Id, int>, k: int, from: nat): (i: nat)
    requires exists j :: from <= j < |ids| && HasKey(ids, key, k, j)
    ensures from <= i < |ids| && HasKey(ids, key, k, i)
    ensures forall j :: from <= j < i ==> !HasKey(ids, key, k, j)
    decreases |ids| - from
  {
    if HasKey(ids, key, k, from) then from else FirstFrom(ids, key, k, from + 1)
  }

  lemma KeyHasPosition(ids: seq<Id>, key: map<Id, int>, k: int)
    ensures k in KeysOf(ids, key) <==> exists j :: 0 <= j < |ids| && HasKey(ids, key, k, j)
  {
    if k in KeysOf(ids, key) {
      var id :| id in ids && id in key && key[id] == k;
      var j :| 0 <= j < |ids| && ids[j] == id;
      assert HasKey(ids, key, k, j);
    }
    if exists j :: 0 <= j < |ids| && HasKey(ids, key, k, j) {
      var j :| 0 <= j < |ids| && HasKey(ids, key, k, j);
      var id := ids[j];
      assert id in ids && id in key && key[id] == k;
    }
  }

  /** The position of the first id with key k. */
  ghost function FirstIndex(ids: seq<Id>, key: map<Id, int>, k: int): (i: nat)
    requires k in KeysOf(ids, key)
    ensures i < |ids| && HasKey(ids, key, k, i)
    ensures forall j :: 0 <= j < i ==> !HasKey(ids, key, k, j)
  {
    KeyHasPosition(ids, key, k);
    FirstFrom(ids, key, k, 0)
  }

  lemma FirstIndexUnique(ids: seq<Id>, key: map<Id, int>, k: int, i: nat)
    requires i < |ids| && HasKey(ids, key, k, i)
    requires forall j :: 0 <= j < i ==> !HasKey(ids, key, k, j)
    ensures k in KeysOf(ids, key) && FirstIndex(ids, key, k) == i
  {
    KeyHasPosition(ids, key, k);
    var f := FirstIndex(ids, key, k);
    assert HasKey(ids, key, k, f);
  }

  /** `order` lists every key once, by the position where it first appears. */
  ghost predicate InFirstEncounterOrder(ids: seq<Id>, key: map<Id, int>, order: seq<int>) {
    && (forall k :: k in order <==> k in KeysOf(ids, key))
    && (forall i, j :: 0 <= i < j < |order| ==> FirstIndex(ids, key, order[i]) < FirstIndex(ids, key, order[j]))
  }

  lemma FirstIndexOfPrefix(ids: seq<Id>, id: Id, key: map<Id, int>, k: int)
    requires k in KeysOf(ids, key)
    ensures k in KeysOf(ids + [id], key) && FirstIndex(ids + [id], key, k) == FirstIndex(ids, key, k)
  {
    var i := FirstIndex(ids, key, k);
    forall j | 0 <= j <= i
      ensures HasKey(ids + [id], key, k, j) == HasKey(ids, key, k, j)
    {
      assert (ids + [id])[j] == ids[j];
    }
    FirstIndexUnique(ids + [id], key, k, i);
  }

  lemma OrderOfOneMore(ids: seq<Id>, id: Id, key: map<Id, int>, order: seq<int>)
    requires InFirstEncounterOrder(ids, key, order) && id in key
    ensures InFirstEncounterOrder(ids + [id], key, if key[id] in order then order else order + [key[id]])
  {
    var ids' := ids + [id];
    assert KeysOf(ids', key) == KeysOf(ids, key) + {key[id]};
    forall k | k in order
      ensures FirstIndex(ids', key, k) == FirstIndex(ids, key, k)
    {
      FirstIndexOfPrefix(ids, id, key, k);
    }
    if key[id] !in order {
      assert ids'[|ids|] == id;
      forall j | 0 <= j < |ids|
        ensures !HasKey(ids', key, key[id], j)
      {
        assert ids'[j] == ids[j] && ids[j] in ids;
      }
      FirstIndexUnique(ids', key, key[id], |ids|);
    }
  }

  ghost predicate StrictlyIncreasing(s: seq<nat>) {
    forall i, j :: 0 <= i < j < |s| ==> s[i] < s[j]
  }

  /** `[...keys].sort((a, b) => a - b)` on distinct keys. */
  method SortedAscending(keys: set<nat>) returns (r: seq<nat>)
    ensures StrictlyIncreasing(r)
    ensures forall k :: k in r <==> k in keys
  {
    r := [];
    var rest := keys;
    while rest != {}
      invariant rest <= keys && StrictlyIncreasing(r)
      invariant forall k :: k in r <==> k in keys && k !in rest
      invariant forall a, b :: a in r && b in rest ==> a < b
      decreases rest
    {
      var least := Least(rest);
      assert forall i :: 0 <= i < |r| ==> r[i] in r;
      r := r + [least];
      rest := rest - {least};
    }
  }

  method Least(s: set<nat>) returns (m: nat)
    requires s != {}
    ensures m in s && forall k :: k in s ==> m <= k
  {
    m :| m in s;
    var rest := s - {m};
    while rest != {}
      invariant rest <= s && m in s
      invariant forall k :: k in s && k !in rest ==> m <= k
      decreases rest
    {
      var k :| k in rest;
      rest := rest - {k};
      if k < m {
        m := k;
      }
    }
  }

  lemma {:induction false} DistinctCardinality<T>(s: seq<T>)
    requires forall i, j :: 0 <= i < j < |s| ==> s[i] != s[j]
    ensures |Elements(s)| == |s|
  {
    if s == [] {
      assert Elements(s) == {};
    } else {
      var n := |s| - 1;
      DistinctCardinality(s[..n]);
      assert Elements(s) == Elements(s[..n]) + {s[n]};
    }
  }

  /** A strictly increasing sequence is determined by its elements. */
  lemma {:induction false} IncreasingIsUnique(r: seq<nat>, s: seq<nat>)
    requires StrictlyIncreasing(r) && StrictlyIncreasing(s)
    requires forall k :: k in r <==> k in s
    ensures r == s
  {
    assert Elements(r) == Elements(s);
    DistinctCardinality(r);
    DistinctCardinality(s);
    if r != [] {
      var n := |r| - 1;
      assert r[n] in s && s[n] in r;
      forall k
        ensures k in r[..n] <==> k in s[..n]
      {
        assert k in r <==> k in r[..n] || k == r[n];
        assert k in s <==> k in s[..n] || k == s[n];
      }
      IncreasingIsUnique(r[..n], s[..n]);
      assert r == r[..n] + [r[n]] && s == s[..n] + [s[n]];
    }
  }

  type SortKey = (nat, nat)

  predicate KeyBefore(a: SortKey, b: SortKey) {
    a.0 < b.0 || (a.0 == b.0 && a.1 < b.1)
  }

  /** Position i of the input comes before position j of the input in a stable sort. */
  predicate SortsBefore(keys: seq<SortKey>, i: nat, j: nat)
    requires i < |keys| && j < |keys|
  {
    KeyBefore(keys[i], keys[j]) || (keys[i] == keys[j] && i < j)
  }

  /** `perm` lists the input positions in stably sorted order. */
  ghost predicate IsStableOrder(keys: seq<SortKey>, perm: seq<nat>) {
    && (forall i :: 0 <= i < |perm| ==> perm[i] < |keys|)
    && (forall k :: 0 <= k < |keys| ==> k in perm)
    && (forall i, j :: 0 <= i < j < |perm| ==> SortsBefore(keys, perm[i], perm[j]))
  }

  ghost function Below(n: nat): (s: set<nat>)
    ensures |s| == n && forall k: nat :: k in s <==> k < n
  {
    if n == 0 then {} else Below(n - 1) + {n - 1}
  }

  /** Positions are listed at most once, so there are exactly |keys| of them. */
  lemma StableOrderLength(keys: seq<SortKey>, perm: seq<nat>)
    requires IsStableOrder(keys, perm)
    ensures |perm| == |keys|
  {
    forall i, j | 0 <= i < j < |perm|
      ensures perm[i] != perm[j]
    {
      assert SortsBefore(keys, perm[i], perm[j]);
    }
    DistinctCardinality(perm);
    forall k: nat
      ensures k in Elements(perm) <==> k in Below(|keys|)
    {
    }
    assert Elements(perm) == Below(|keys|);
  }

  /** A stable sort, as the positions to pick: Array.prototype.sort keeps equal keys in input order. */
  method StableSort(keys: seq<SortKey>) returns (perm: seq<nat>)
    ensures IsStableOrder(keys, perm)
  {
    perm := [];
    for n := 0 to |keys|
      invariant IsStableOrder(keys[..n], perm)
    {
      var at := |perm|;
      while at > 0 && KeyBefore(keys[n], keys[perm[at - 1]])
        invariant 0 <= at <= |perm|
        invariant forall i :: at <= i < |perm| ==> KeyBefore(keys[n], keys[perm[i]])
      {
        at := at - 1;
      }
      InsertKeepsOrder(keys, perm, n, at);
      perm := perm[..at] + [n] + perm[at..];
    }
    assert keys[..|keys|] == keys;
  }

  lemma InsertedIsListed(keys: seq<SortKey>, perm: seq<nat>, n: nat, at: nat)
    requires n < |keys| && IsStableOrder(keys[..n], perm) && at <= |perm|
    ensures forall k :: 0 <= k < n + 1 ==> k in perm[..at] + [n] + perm[at..]
  {
    var perm' := perm[..at] + [n] + perm[at..];
    forall k | 0 <= k < n + 1
      ensures k in perm'
    {
      if k < n {
        assert k in perm;
        var i :| 0 <= i < |perm| && perm[i] == k;
        assert perm'[if i < at then i else i + 1] == k;
      } else {
        assert perm'[at] == n;
      }
    }
  }

  /** The earlier positions stay in order, and the new one sorts after those before it. */
  lemma InsertionPoint(keys: seq<SortKey>, perm: seq<nat>, n: nat, at: nat)
    requires n < |keys| && IsStableOrder(keys[..n], perm) && at <= |perm|
    requires at > 0 ==> !KeyBefore(keys[n], keys[perm[at - 1]])
    ensures forall i, j :: 0 <= i < j < |perm| ==> SortsBefore(keys[..n + 1], perm[i], perm[j])
    ensures forall i :: 0 <= i < at ==> SortsBefore(keys[..n + 1], perm[i], n)
  {
    var keys' := keys[..n + 1];
    forall i, j | 0 <= i < j < |perm|
      ensures SortsBefore(keys', perm[i], perm[j])
    {
      assert SortsBefore(keys[..n], perm[i], perm[j]);
    }
    forall i | 0 <= i < at
      ensures SortsBefore(keys', perm[i], n)
    {
      if i < at - 1 {
        assert SortsBefore(keys', perm[i], perm[at - 1]);
      }
    }
  }

  lemma InsertKeepsOrder(keys: seq<SortKey>, perm: seq<nat>, n: nat, at: nat)
    requires n < |keys| && IsStableOrder(keys[..n], perm) && at <= |perm|
    requires forall i :: at <= i < |perm| ==> KeyBefore(keys[n], keys[perm[i]])
    requires at > 0 ==> !KeyBefore(keys[n], keys[perm[at - 1]])
    ensures IsStableOrder(keys[..n + 1], perm[..at] + [n] + perm[at..])
  {
    var keys' := keys[..n + 1];
    var perm' := perm[..at] + [n] + perm[at..];
    InsertedIsListed(keys, perm, n, at);
    InsertionPoint(keys, perm, n, at);
    forall i, j | 0 <= i < j < |perm'|
      ensures SortsBefore(keys', perm'[i], perm'[j])
    {
      var i', j' := if i < at then i else i - 1, if j < at then j else j - 1;
      if i != at && j != at {
        assert SortsBefore(keys', perm[i'], perm[j']);
      }
    }
  }
}
