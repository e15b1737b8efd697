/** packages/shared/src/route-layering.ts: the union-find inside computeRouteLayout. */
module UnionFind {
  import opened Graph

  /** Does the edge join two of the points? Only such edges are union'd. */
  predicate Joins(points: set<Id>, e: LayeringEdge) {
    e.Complete() && e.originId.value in points && e.destinationId.value in points
  }

  /** Both directions of every edge that joins two of the points. */
  ghost function Links(points: set<Id>, edges: seq<LayeringEdge>): set<Arc> {
    (set e | e in edges && Joins(points, e) :: (e.originId.value, e.destinationId.value))
    + (set e | e in edges && Joins(points, e) :: (e.destinationId.value, e.originId.value))
  }

  /** A chain of links, followed in either direction, joins u to v. */
  ghost predicate Connected(links: set<Arc>, u: Id, v: Id) {
    exists p :: WalkTo(links, p, v) && p[0] == u
  }

  ghost predicate Symmetric(links: set<Arc>) {
    forall u, v :: (u, v) in links ==> (v, u) in links
  }

  lemma ConnectedToItself(links: set<Arc>, u: Id)
    ensures Connected(links, u, u)
  {
    assert WalkTo(links, [u], u);
  }

  lemma ConnectedByLink(links: set<Arc>, u: Id, v: Id)
    requires (u, v) in links
    ensures Connected(links, u, v)
  {
    assert WalkTo(links, [u, v], v);
  }

  lemma ConnectedTransitive(links: set<Arc>, u: Id, v: Id, w: Id)
    requires Connected(links, u, v) && Connected(links, v, w)
    ensures Connected(links, u, w)
  {
    var p :| WalkTo(links, p, v) && p[0] == u;
    var q :| WalkTo(links, q, w) && q[0] == v;
    JoinWalks(links, p, q);
    assert WalkTo(links, p + q[1..], w);
  }

  lemma {:induction false} WalkReversed(links: set<Arc>, p: seq<Id>)
    requires Symmetric(links) && Walk(links, p)
    ensures Connected(links, p[|p| - 1], p[0])
  {
    var n := |p| - 1;
    if n == 0 {
      ConnectedToItself(links, p[0]);
    } else {
      SubWalk(links, p, 0, n);
      WalkReversed(links, p[..n]);
      assert (p[n - 1], p[n - 1 + 1]) in links;
      ConnectedByLink(links, p[n], p[n - 1]);
      ConnectedTransitive(links, p[n], p[n - 1], p[0]);
    }
  }

  lemma ConnectedSymmetric(links: set<Arc>, u: Id, v: Id)
    requires Symmetric(links) && Connected(links, u, v)
    ensures Connected(links, v, u)
  {
    var p :| WalkTo(links, p, v) && p[0] == u;
    WalkReversed(links, p);
  }

  lemma ConnectedMonotone(links: set<Arc>, more: set<Arc>, u: Id, v: Id)
    requires links <= more && Connected(links, u, v)
    ensures Connected(more, u, v)
  {
    var p :| WalkTo(links, p, v) && p[0] == u;
    assert WalkTo(more, p, v);
  }

  /** `root` names one representative per class: links stay inside a class, and every point is
      connected to its representative. */
  ghost predicate Represents(root: map<Id, Id>, links: set<Arc>) {
    && (forall u, v :: (u, v) in links ==> u in root && v in root && root[u] == root[v])
    && (forall x {:trigger Reaches(root, links, x)} :: x in root ==> Reaches(root, links, x))
  }

  ghost predicate Reaches(root: map<Id, Id>, links: set<Arc>, x: Id)
    requires x in root
  {
    root[x] in root && Connected(links, x, root[x])
  }

  lemma SameClass(root: map<Id, Id>, links: set<Arc>, u: Id, v: Id)
    requires Represents(root, links) && (u, v) in links
    ensures u in root && v in root && root[u] == root[v]
  {
  }

  lemma {:induction false} WalkStaysInClass(root: map<Id, Id>, links: set<Arc>, p: seq<Id>)
    requires Represents(root, links) && Walk(links, p) && p[0] in root
    ensures p[|p| - 1] in root && root[p[|p| - 1]] == root[p[0]]
  {
    var n := |p| - 1;
    if n > 0 {
      SubWalk(links, p, 0, n);
      WalkStaysInClass(root, links, p[..n]);
      assert (p[n - 1], p[n - 1 + 1]) in links;
      SameClass(root, links, p[n - 1], p[n]);
    }
  }

  /** Two points have the same representative exactly when a chain of links joins them. */
  lemma ClassesAreConnectivity(root: map<Id, Id>, links: set<Arc>, x: Id, y: Id)
    requires Represents(root, links) && Symmetric(links) && x in root && y in root
    ensures root[x] == root[y] <==> Connected(links, x, y)
  {
    assert Reaches(root, links, x) && Reaches(root, links, y);
    if root[x] == root[y] {
      ConnectedSymmetric(links, y, root[y]);
      ConnectedTransitive(links, x, root[x], y);
    }
    if Connected(links, x, y) {
      var p :| WalkTo(links, p, y) && p[0] == x;
      WalkStaysInClass(root, links, p);
    }
  }

  function Merged(root: map<Id, Id>, from: Id, into: Id): map<Id, Id> {
    map x | x in root :: if root[x] == from then into else root[x]
  }

  lemma MergedConnects(root: map<Id, Id>, links: set<Arc>, a: Id, b: Id, x: Id)
    requires Represents(root, links) && Symmetric(links) && a in root && b in root && x in root
    ensures Connected(links + {(a, b), (b, a)}, x, Merged(root, root[a], root[b])[x])
  {
    var more := links + {(a, b), (b, a)};
    assert Reaches(root, links, x) && Reaches(root, links, a) && Reaches(root, links, b);
    ConnectedMonotone(links, more, x, root[x]);
    if root[x] == root[a] {
      ConnectedSymmetric(links, a, root[a]);
      ConnectedMonotone(links, more, root[a], a);
      ConnectedByLink(more, a, b);
      ConnectedMonotone(links, more, b, root[b]);
      ConnectedTransitive(more, x, root[a], a);
      ConnectedTransitive(more, x, a, b);
      ConnectedTransitive(more, x, b, root[b]);
    }
  }

  /** Linking a to b merges their classes and nothing else. */
  lemma MergedRepresents(root: map<Id, Id>, links: set<Arc>, a: Id, b: Id)
    requires Represents(root, links) && Symmetric(links) && a in root && b in root
    ensures Represents(Merged(root, root[a], root[b]), links + {(a, b), (b, a)})
    ensures Symmetric(links + {(a, b), (b, a)})
  {
    var merged := Merged(root, root[a], root[b]);
    forall x | x in merged
      ensures Reaches(merged, links + {(a, b), (b, a)}, x)
    {
      assert Reaches(root, links, x) && Reaches(root, links, a) && Reaches(root, links, b);
      MergedConnects(root, links, a, b, x);
    }
  }

  /** What a parent map must satisfy at one point: the chain of parents climbs in rank up to the
      point's representative. */
  ghost predicate Climbs(parent: map<Id, Id>, root: map<Id, Id>, rank: map<Id, nat>, top: nat, x: Id)
    requires root.Keys == parent.Keys == rank.Keys && x in parent
  {
    && parent[x] in parent && root[x] in parent
    && root[parent[x]] == root[x]
    && parent[root[x]] == root[x]
    && (parent[x] == x ==> root[x] == x)
    && (parent[x] != x ==> rank[x] < rank[parent[x]])
    && rank[x] <= rank[root[x]] <= top
    && (root[x] != x ==> rank[x] < rank[root[x]])
  }

  ghost predicate WellRooted(parent: map<Id, Id>, root: map<Id, Id>, rank: map<Id, nat>, top: nat) {
    && root.Keys == parent.Keys == rank.Keys
    && forall x {:trigger Climbs(parent, root, rank, top, x)} :: x in parent ==> Climbs(parent, root, rank, top, x)
  }

  lemma Compress(parent: map<Id, Id>, root: map<Id, Id>, rank: map<Id, nat>, top: nat, cur: Id)
    requires WellRooted(parent, root, rank, top) && cur in parent
    ensures WellRooted(parent[cur := root[cur]], root, rank, top)
  {
    var parent' := parent[cur := root[cur]];
    assert Climbs(parent, root, rank, top, cur) && Climbs(parent, root, rank, top, root[cur]);
    forall x | x in parent'
      ensures Climbs(parent', root, rank, top, x)
    {
      assert Climbs(parent, root, rank, top, x) && Climbs(parent, root, rank, top, root[x]);
    }
  }

  lemma Attach(parent: map<Id, Id>, root: map<Id, Id>, rank: map<Id, nat>, top: nat, ra: Id, rb: Id, high: nat)
    requires WellRooted(parent, root, rank, top) && ra in parent && rb in parent && ra != rb
    requires parent[ra] == ra && parent[rb] == rb && rank[ra] < high && rank[rb] <= high
    ensures WellRooted(parent[ra := rb], Merged(root, ra, rb), rank[rb := high], top + high)
  {
    assert Climbs(parent, root, rank, top, ra) && Climbs(parent, root, rank, top, rb);
    forall x | x in parent
      ensures Climbs(parent[ra := rb], Merged(root, ra, rb), rank[rb := high], top + high, x)
    {
      assert Climbs(parent, root, rank, top, x) && Climbs(parent, root, rank, top, root[x]);
      assert Climbs(parent, root, rank, top, parent[x]);
    }
  }

  /** The parent map, with the representative it leads every point to. */
  class Forest {
    var parent: map<Id, Id>
    ghost var root: map<Id, Id>
    ghost var rank: map<Id, nat>
    ghost var top: nat

    ghost predicate Valid()
      reads this
    {
      WellRooted(parent, root, rank, top)
    }

    /** Every point is its own parent. */
    constructor (pointIds: seq<Id>)
      ensures Valid() && parent.Keys == Points(pointIds)
      ensures forall x :: x in root ==> root[x] == x
    {
      parent := map id | id in pointIds :: id;
      root := map id | id in pointIds :: id;
      rank := map id | id in pointIds :: 0;
      top := 0;
    }

    /** The representative of x; path compression changes no representative. */
    method Find(x: Id) returns (r: Id)
      requires Valid() && x in parent
      modifies this`parent
      ensures Valid() && parent.Keys == old(parent.Keys)
      ensures r == root[x] && r in parent && parent[r] == r
    {
      r := x;
      assert Climbs(parent, root, rank, top, r);
      while parent[r] != r
        invariant r in parent && root[r] == root[x] && Climbs(parent, root, rank, top, r)
        decreases top - rank[r]
      {
        r := parent[r];
        assert Climbs(parent, root, rank, top, r);
      }
      var cur := x;
      assert Climbs(parent, root, rank, top, cur);
      while cur != r
        invariant Valid() && parent.Keys == old(parent.Keys)
        invariant cur in parent && root[cur] == r && Climbs(parent, root, rank, top, cur)
        decreases top - rank[cur]
      {
        var next := parent[cur];
        Compress(parent, root, rank, top, cur);
        parent := parent[cur := r];
        cur := next;
        assert Climbs(parent, root, rank, top, cur);
      }
      assert Climbs(parent, root, rank, top, x);
    }

    /** Merges the classes of two points. */
    method Union(a: Id, b: Id)
      requires Valid() && a in parent && b in parent
      modifies this
      ensures Valid() && parent.Keys == old(parent.Keys)
      ensures root == Merged(old(root), old(root)[a], old(root)[b])
    {
      assert Climbs(parent, root, rank, top, a) && Climbs(parent, root, rank, top, b);
      var ra := Find(a);
      var rb := Find(b);
      assert Climbs(parent, root, rank, top, a);
      if ra != rb {
        ghost var high := rank[ra] + rank[rb] + 1;
        Attach(parent, root, rank, top, ra, rb, high);
        parent, root, rank, top := parent[ra := rb], Merged(root, ra, rb), rank[rb := high], top + high;
      }
    }
  }

  lemma LinksOfOneMore(points: set<Id>, edges: seq<LayeringEdge>, e: LayeringEdge)
    ensures Links(points, edges + [e]) == Links(points, edges)
      + if Joins(points, e)
        then {(e.originId.value, e.destinationId.value), (e.destinationId.value, e.originId.value)} else {}
  {
    assert forall f :: f in edges + [e] <==> f in edges || f == e;
  }

  lemma OwnClasses(root: map<Id, Id>, points: set<Id>)
    requires root.Keys == points && forall x :: x in root ==> root[x] == x
    ensures Represents(root, Links(points, []))
  {
    forall x | x in root
      ensures Reaches(root, Links(points, []), x)
    {
      ConnectedToItself(Links(points, []), x);
    }
  }

  /** The classes after the first i edges. */
  ghost predicate ClassesSoFar(root: map<Id, Id>, points: set<Id>, edges: seq<LayeringEdge>) {
    root.Keys == points && Represents(root, Links(points, edges)) && Symmetric(Links(points, edges))
  }

  lemma OneMoreEdge(root: map<Id, Id>, points: set<Id>, edges: seq<LayeringEdge>, i: nat, root': map<Id, Id>)
    requires i < |edges| && ClassesSoFar(root, points, edges[..i])
    requires root' == (if Joins(points, edges[i])
                       then Merged(root, root[edges[i].originId.value], root[edges[i].destinationId.value])
                       else root)
    ensures ClassesSoFar(root', points, edges[..i + 1])
  {
    var e := edges[i];
    assert edges[..i + 1] == edges[..i] + [e];
    LinksOfOneMore(points, edges[..i], e);
    if Joins(points, e) {
      MergedRepresents(root, Links(points, edges[..i]), e.originId.value, e.destinationId.value);
    } else {
      assert Links(points, edges[..i + 1]) == Links(points, edges[..i]);
    }
  }

  /** The loop over the edges: afterwards the classes are the connected components. */
  method UnionAll(pointIds: seq<Id>, edges: seq<LayeringEdge>) returns (forest: Forest)
    ensures fresh(forest) && forest.Valid()
    ensures ClassesSoFar(forest.root, Points(pointIds), edges)
  {
    ghost var points := Points(pointIds);
    forest := new Forest(pointIds);
    OwnClasses(forest.root, points);
    assert edges[..0] == [];
    for i := 0 to |edges|
      invariant fresh(forest) && forest.Valid()
      invariant ClassesSoFar(forest.root, points, edges[..i])
    {
      var e := edges[i];
      ghost var before := forest.root;
      if e.originId.Some? && e.destinationId.Some? {
        if e.originId.value in forest.parent && e.destinationId.value in forest.parent {
          forest.Union(e.originId.value, e.destinationId.value);
        }
      }
      OneMoreEdge(before, points, edges, i, forest.root);
    }
    assert edges[..|edges|] == edges;
  }
}
