/** The chain rules fire exactly when a cargo's complete legs are not one simple directed path. */
module CargoChainProof {
  import opened Graph
  import opened Grouping
  import opened CargoChain

  lemma {:induction false} OutCount(edges: seq<Edge>, n: Id, e: Edge)
    ensures multiset(Out(edges, n))[e] == if e.originPointId.value == n then multiset(edges)[e] else 0
  {
    if edges != [] {
      var last := edges[|edges| - 1];
      OutCount(edges[..|edges| - 1], n, e);
      assert edges == edges[..|edges| - 1] + [last];
    }
  }

  /** The legs out of a point keep their order. */
  lemma {:induction false} OutInOrder(edges: seq<Edge>, n: Id, p: nat, q: nat)
    requires p < q < |Out(edges, n)|
    ensures exists x, y :: 0 <= x < y < |edges| && edges[x] == Out(edges, n)[p] && edges[y] == Out(edges, n)[q]
  {
    var last := |edges| - 1;
    var rest := Out(edges[..last], n);
    if q < |rest| {
      OutInOrder(edges[..last], n, p, q);
      var x, y :| 0 <= x < y < last && edges[..last][x] == rest[p] && edges[..last][y] == rest[q];
      assert edges[x] == Out(edges, n)[p] && edges[y] == Out(edges, n)[q];
    } else {
      assert rest[p] in rest;
      var x :| 0 <= x < last && edges[..last][x] == rest[p];
      assert edges[x] == Out(edges, n)[p] && edges[last] == Out(edges, n)[q];
    }
  }

  lemma {:induction false} InCount(edges: seq<Edge>, n: Id, e: Edge)
    ensures multiset(In(edges, n))[e] == if e.destinationPointId.value == n then multiset(edges)[e] else 0
  {
    if edges != [] {
      var last := edges[|edges| - 1];
      InCount(edges[..|edges| - 1], n, e);
      assert edges == edges[..|edges| - 1] + [last];
    }
  }

  /** The edges at a point do not depend on the order of the list. */
  lemma SameEdgesAt(a: seq<Edge>, b: seq<Edge>, n: Id)
    requires multiset(a) == multiset(b)
    ensures multiset(Out(a, n)) == multiset(Out(b, n)) && |Out(a, n)| == |Out(b, n)|
    ensures multiset(In(a, n)) == multiset(In(b, n)) && |In(a, n)| == |In(b, n)|
    ensures IsNode(a, n) <==> IsNode(b, n)
  {
    forall e: Edge
      ensures multiset(Out(a, n))[e] == multiset(Out(b, n))[e] && multiset(In(a, n))[e] == multiset(In(b, n))[e]
    {
      OutCount(a, n, e);
      OutCount(b, n, e);
      InCount(a, n, e);
      InCount(b, n, e);
    }
    assert multiset(Out(a, n)) == multiset(Out(b, n)) && multiset(In(a, n)) == multiset(In(b, n));
    assert |multiset(Out(a, n))| == |Out(a, n)| && |multiset(In(a, n))| == |In(a, n)|;
    assert forall e :: e in a <==> e in multiset(a);
    assert forall e :: e in b <==> e in multiset(b);
  }

  lemma SingletonOut(a: seq<Edge>, b: seq<Edge>, n: Id, e: Edge)
    requires multiset(a) == multiset(b) && Out(b, n) == [e]
    ensures Out(a, n) == [e]
  {
    SameEdgesAt(a, b, n);
    var o := Out(a, n);
    assert o[0] in multiset(o);
  }

  ghost predicate PathFrom(start: Id, path: seq<Edge>) {
    Chained(start, path) && NoRepeat(PathPoints(start, path))
  }

  lemma ShorterPath(start: Id, path: seq<Edge>)
    requires PathFrom(start, path) && path != []
    ensures PathFrom(start, path[..|path| - 1])
    ensures PathPoints(start, path) == PathPoints(start, path[..|path| - 1]) + [path[|path| - 1].destinationPointId.value]
  {
    var points, shorter := PathPoints(start, path), PathPoints(start, path[..|path| - 1]);
    assert forall i :: 0 <= i < |shorter| ==> points[i] == shorter[i];
  }

  /** On a simple path the point at position i is left by leg i alone. */
  lemma {:induction false} LeftOnce(start: Id, path: seq<Edge>, i: nat)
    requires PathFrom(start, path) && i <= |path|
    ensures Out(path, PathPoints(start, path)[i]) == if i < |path| then [path[i]] else []
  {
    if path != [] {
      var n := |path| - 1;
      ShorterPath(start, path);
      assert PathPoints(start, path)[n] == path[n].originPointId.value;
      if i <= n {
        LeftOnce(start, path[..n], i);
      } else {
        NeverLeft(start, path[..n], PathPoints(start, path)[i]);
      }
    }
  }

  lemma {:induction false} NeverLeft(start: Id, path: seq<Edge>, p: Id)
    requires PathFrom(start, path) && p !in PathPoints(start, path)
    ensures Out(path, p) == [] && In(path, p) == []
  {
    if path != [] {
      var n := |path| - 1;
      ShorterPath(start, path);
      assert PathPoints(start, path)[n] == path[n].originPointId.value;
      assert PathPoints(start, path)[n + 1] == path[n].destinationPointId.value;
      NeverLeft(start, path[..n], p);
    }
  }

  /** And it is entered by leg i-1 alone. */
  lemma {:induction false} EnteredOnce(start: Id, path: seq<Edge>, i: nat)
    requires PathFrom(start, path) && i <= |path|
    ensures In(path, PathPoints(start, path)[i]) == if i > 0 then [path[i - 1]] else []
  {
    if path != [] {
      var n := |path| - 1;
      ShorterPath(start, path);
      assert PathPoints(start, path)[n + 1] == path[n].destinationPointId.value;
      if i <= n {
        EnteredOnce(start, path[..n], i);
      } else {
        NeverLeft(start, path[..n], PathPoints(start, path)[i]);
      }
    }
  }

  lemma PathDegrees(start: Id, path: seq<Edge>, i: nat)
    requires PathFrom(start, path) && i <= |path|
    ensures |Out(path, PathPoints(start, path)[i])| == if i < |path| then 1 else 0
    ensures |In(path, PathPoints(start, path)[i])| == if i > 0 then 1 else 0
  {
    LeftOnce(start, path, i);
    EnteredOnce(start, path, i);
  }

  lemma PathSurplus(edges: seq<Edge>, start: Id, path: seq<Edge>, i: nat)
    requires multiset(path) == multiset(edges) && PathFrom(start, path) && path != [] && i <= |path|
    ensures Surplus(edges, PathPoints(start, path)[i]) == if i == 0 then 1 else if i == |path| then -1 else 0
  {
    var p := PathPoints(start, path)[i];
    PathDegrees(start, path, i);
    SameEdgesAt(path, edges, p);
  }

  lemma NodeOnPath(edges: seq<Edge>, start: Id, path: seq<Edge>, n: Id) returns (i: nat)
    requires multiset(path) == multiset(edges) && PathFrom(start, path) && IsNode(edges, n)
    ensures i <= |path| && PathPoints(start, path)[i] == n
  {
    SameEdgesAt(path, edges, n);
    var e :| e in path && (e.originPointId.value == n || e.destinationPointId.value == n);
    var k :| 0 <= k < |path| && path[k] == e;
    i := if e.originPointId.value == n then k else k + 1;
  }

  lemma {:induction false} WithSurplusNoRepeat(nodes: seq<Id>, edges: seq<Edge>, s: int)
    requires NoRepeat(nodes)
    ensures NoRepeat(WithSurplus(nodes, edges, s))
  {
    if nodes != [] {
      var n := |nodes| - 1;
      WithSurplusNoRepeat(nodes[..n], edges, s);
      assert nodes[n] !in nodes[..n];
    }
  }

  lemma OnlyElement(r: seq<Id>, x: Id)
    requires NoRepeat(r) && forall n :: n in r <==> n == x
    ensures r == [x]
  {
    DistinctCardinality(r);
    assert Elements(r) == {x};
    assert r[0] in r;
  }

  lemma SurplusOnPath(edges: seq<Edge>, start: Id, path: seq<Edge>, n: Id)
    requires multiset(path) == multiset(edges) && PathFrom(start, path) && path != [] && IsNode(edges, n)
    ensures Surplus(edges, n) == if n == start then 1 else if n == PathPoints(start, path)[|path|] then -1 else 0
  {
    var i := NodeOnPath(edges, start, path, n);
    PathSurplus(edges, start, path, i);
    var points := PathPoints(start, path);
    assert i > 0 ==> points[0] != points[i];
    assert i < |path| ==> points[i] != points[|path|];
  }

  lemma PathEndsAreNodes(edges: seq<Edge>, start: Id, path: seq<Edge>)
    requires multiset(path) == multiset(edges) && PathFrom(start, path) && path != []
    ensures IsNode(edges, start) && IsNode(edges, PathPoints(start, path)[|path|])
    ensures start != PathPoints(start, path)[|path|]
  {
    var points := PathPoints(start, path);
    SameEdgesAt(path, edges, start);
    SameEdgesAt(path, edges, points[|path|]);
    assert path[0] in path && path[|path| - 1] in path;
    assert points[0] != points[|path|];
  }

  /** The nodes of a simple path: one source, its start; one sink, its end; the rest balanced. */
  lemma PathBalance(edges: seq<Edge>, nodes: seq<Id>, start: Id, path: seq<Edge>)
    requires multiset(path) == multiset(edges) && PathFrom(start, path) && path != []
    requires NoRepeat(nodes) && forall n :: n in nodes <==> IsNode(edges, n)
    ensures WithSurplus(nodes, edges, 1) == [start]
    ensures WithSurplus(nodes, edges, -1) == [PathPoints(start, path)[|path|]]
    ensures !SomeUnbalanced(nodes, edges)
  {
    var end := PathPoints(start, path)[|path|];
    WithSurplusNoRepeat(nodes, edges, 1);
    WithSurplusNoRepeat(nodes, edges, -1);
    PathEndsAreNodes(edges, start, path);
    forall n | n in nodes
      ensures Surplus(edges, n) == if n == start then 1 else if n == end then -1 else 0
    {
      SurplusOnPath(edges, start, path, n);
    }
    OnlyElement(WithSurplus(nodes, edges, 1), start);
    OnlyElement(WithSurplus(nodes, edges, -1), end);
  }

  /** The forced walk along a simple path follows it leg by leg. */
  lemma {:induction false} WalkFollowsPath(edges: seq<Edge>, start: Id, path: seq<Edge>, walked: seq<Edge>, k: nat)
    requires multiset(path) == multiset(edges) && PathFrom(start, path)
    requires Walked(edges, start, walked) && k <= |walked|
    requires forall i :: 0 <= i < |walked| ==> walked[i].originPointId.value != PathPoints(start, path)[|path|]
    ensures k <= |path| && forall i :: 0 <= i < k ==> walked[i] == path[i]
    ensures PathPoints(start, walked)[k] == PathPoints(start, path)[k]
  {
    if k > 0 {
      WalkFollowsPath(edges, start, path, walked, k - 1);
      var leg := walked[k - 1];
      assert leg.originPointId.value == PathPoints(start, path)[k - 1];
      assert k - 1 < |path|;
      LeftOnce(start, path, k - 1);
      SingletonOut(edges, path, leg.originPointId.value, path[k - 1]);
      assert leg == path[k - 1];
    }
  }

  /** So on a simple path the walk arrives, having taken exactly the path. */
  lemma WalkTakesPath(edges: seq<Edge>, start: Id, path: seq<Edge>, walked: seq<Edge>, stop: Stop)
    requires multiset(path) == multiset(edges) && PathFrom(start, path) && path != []
    requires WalkEnds(edges, start, PathPoints(start, path)[|path|], walked, stop)
    ensures stop.Arrived? && walked == path
  {
    var k := |walked|;
    WalkFollowsPath(edges, start, path, walked, k);
    if k < |path| {
      var cur := PathPoints(start, path)[k];
      LeftOnce(start, path, k);
      SingletonOut(edges, path, cur, path[k]);
      forall i | 0 <= i < |walked|
        ensures walked[i].originPointId.value != cur
      {
        assert walked[i] == path[i];
        assert PathPoints(start, path)[i] != PathPoints(start, path)[k];
      }
    }
  }

  /** A walk that arrives having taken as many steps as there are edges is a simple path of them all. */
  lemma ArrivalIsPath(edges: seq<Edge>, start: Id, end: Id, walked: seq<Edge>)
    requires WalkEnds(edges, start, end, walked, Arrived) && |walked| == |edges| && edges != []
    ensures multiset(walked) == multiset(edges) && IsSimplePath(walked) && FormsSimplePath(edges)
    ensures walked[0].originPointId.value == start
  {
    WalkFits(edges, start, walked);
    var points := PathPoints(start, walked);
    assert points[0] == walked[0].originPointId.value;
    forall i, j | 0 <= i < j < |points|
      ensures points[i] != points[j]
    {
      assert points[i] == walked[i].originPointId.value;
      if j < |walked| {
        assert points[j] == walked[j].originPointId.value;
      }
    }
    assert NoRepeat(points) && Chained(start, walked);
    assert IsSimplePath(walked);
  }
}
