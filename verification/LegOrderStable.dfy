/** packages/shared/src/route-layering.ts: ordering legs that are already in route order changes nothing. */
module LegOrderStable {
  import opened Wrappers
  import opened Graph
  import opened Grouping
  import opened RouteLayout
  import opened RouteLayoutProperties
  import opened LegOrder
  import UnionFind

  /** Every leg has both ends and no chain of legs returns to where it started. */
  ghost predicate CompleteRoute(ends: seq<LayeringEdge>) {
    (forall e :: e in ends ==> e.Complete()) && Acyclic(Arcs(CompleteEnds(ends)))
  }

  ghost predicate Laid(ends: seq<LayeringEdge>, plan: Plan, layout: Layout) {
    IsLayout(PointList(ends), CompleteEnds(ends), true, plan, layout)
  }

  ghost function RouteLinks(ends: seq<LayeringEdge>): set<Arc> {
    UnionFind.Links(Points(PointList(ends)), CompleteEnds(ends))
  }

  predicate Touches(e: LayeringEdge, v: Id) {
    e.originId == Some(v) || e.destinationId == Some(v)
  }

  lemma {:induction false} PointHasLeg(ends: seq<LayeringEdge>, v: Id) returns (e: LayeringEdge)
    requires v in PointList(ends)
    ensures e in ends && Touches(e, v)
  {
    var n := |ends| - 1;
    if Touches(ends[n], v) {
      e := ends[n];
    } else {
      e := PointHasLeg(ends[..n], v);
    }
  }

  lemma LegHasPoint(ends: seq<LayeringEdge>, e: LayeringEdge, v: Id)
    requires e in ends && Touches(e, v)
    ensures v in PointList(ends)
  {
  }

  lemma PointListStep(ends: seq<LayeringEdge>)
    requires ends != []
    ensures PointList(ends[..|ends| - 1]) <= PointList(ends)
  {
  }

  lemma {:induction false} PointListGrows(ends: seq<LayeringEdge>, n: nat)
    requires n <= |ends|
    ensures PointList(ends[..n]) <= PointList(ends)
    decreases |ends|
  {
    if n == |ends| {
      assert ends[..n] == ends;
    } else {
      var shorter := ends[..|ends| - 1];
      assert shorter[..n] == ends[..n];
      PointListGrows(shorter, n);
      PointListStep(ends);
      PrefixOfPrefix(PointList(ends[..n]), PointList(shorter), PointList(ends));
    }
  }

  lemma PrefixOfPrefix(a: seq<Id>, b: seq<Id>, c: seq<Id>)
    requires a <= b <= c
    ensures a <= c
  {
  }

  /** The same legs in another order make the same graph. */
  lemma SameGraph(ends: seq<LayeringEdge>, ends2: seq<LayeringEdge>)
    requires forall e :: e in ends <==> e in ends2
    ensures forall v :: v in PointList(ends) <==> v in PointList(ends2)
    ensures Points(PointList(ends)) == Points(PointList(ends2))
    ensures Arcs(CompleteEnds(ends)) == Arcs(CompleteEnds(ends2))
    ensures RouteLinks(ends) == RouteLinks(ends2)
  {
    forall v
      ensures v in PointList(ends) <==> v in PointList(ends2)
    {
      if v in PointList(ends) {
        var e := PointHasLeg(ends, v);
        LegHasPoint(ends2, e, v);
      }
      if v in PointList(ends2) {
        var e := PointHasLeg(ends2, v);
        LegHasPoint(ends, e, v);
      }
    }
    assert Points(PointList(ends)) == Points(PointList(ends2));
    assert forall e :: e in CompleteEnds(ends) <==> e in CompleteEnds(ends2);
  }

  lemma DepthIsLongest(ends: seq<LayeringEdge>, plan: Plan, layout: Layout, v: Id)
    requires CompleteRoute(ends) && Laid(ends, plan, layout) && v in PointList(ends)
    ensures v in plan.depth && LongestTo(Arcs(CompleteEnds(ends)), v, plan.depth[v])
  {
    var e := PointHasLeg(ends, v);
    assert e in CompleteEnds(ends);
    assert v in Touched(CompleteEnds(ends));
  }

  lemma FirstOfLongest(arcs: set<Arc>, v: Id, k: nat, p: seq<Id>)
    requires LongestTo(arcs, v, k) && WalkTo(arcs, p, v) && |p| == k + 1
    ensures LongestTo(arcs, p[0], 0)
  {
    PointWitnessed(arcs, p[0]);
    forall q | WalkTo(arcs, q, p[0])
      ensures |q| <= 1
    {
      JoinWalks(arcs, q, p);
      assert WalkTo(arcs, q + p[1..], v);
    }
  }

  lemma {:induction false} LeftmostIsLeast(ids: seq<Id>, col: map<Id, nat>, id: Id)
    requires id in ids && forall x :: x in ids ==> x in col
    ensures LeftmostOf(ids, col) <= col[id]
  {
    var n := |ids| - 1;
    if id != ids[n] {
      assert id in ids[..n];
      LeftmostIsLeast(ids[..n], col, id);
    }
  }

  lemma {:induction false} IncreasingAtLeastIndex(s: seq<nat>, i: nat)
    requires StrictlyIncreasing(s) && i < |s|
    ensures s[i] >= i
  {
    if i > 0 {
      IncreasingAtLeastIndex(s, i - 1);
    }
  }

  /** A point of depth 0 sits in the first global column. */
  lemma DepthZeroIsFirst(pointIds: seq<Id>, depth: map<Id, nat>, globalCol: map<Id, nat>, v: Id)
    requires GlobalGrid(pointIds, depth, globalCol) && v in pointIds && depth[v] == 0
    ensures v in globalCol && globalCol[v] == 0
  {
    var depths, row, rows :| IsGrid(pointIds, depth, depths, globalCol, row, rows);
    assert InCell(pointIds, depth, depths, v, globalCol[v], row[v]);
    IncreasingAtLeastIndex(depths, globalCol[v]);
  }

  lemma {:induction false} WalkIsConnected(ends: seq<LayeringEdge>, p: seq<Id>)
    requires Walk(Arcs(CompleteEnds(ends)), p) && p[|p| - 1] in PointList(ends)
    ensures p[0] in PointList(ends) && UnionFind.Connected(RouteLinks(ends), p[0], p[|p| - 1])
  {
    if |p| == 1 {
      UnionFind.ConnectedToItself(RouteLinks(ends), p[0]);
    } else {
      SubWalk(Arcs(CompleteEnds(ends)), p, 1, |p|);
      WalkIsConnected(ends, p[1..]);
      assert (p[0], p[0 + 1]) in Arcs(CompleteEnds(ends));
      ArcConnects(ends, p[0], p[1]);
      UnionFind.ConnectedTransitive(RouteLinks(ends), p[0], p[1], p[|p| - 1]);
    }
  }

  lemma ArcConnects(ends: seq<LayeringEdge>, u: Id, v: Id)
    requires (u, v) in Arcs(CompleteEnds(ends))
    ensures u in PointList(ends) && v in PointList(ends) && UnionFind.Connected(RouteLinks(ends), u, v)
  {
    var e :| e in CompleteEnds(ends) && e.Complete() && (e.originId.value, e.destinationId.value) == (u, v);
    EdgeEnds(Points(PointList(ends)), CompleteEnds(ends), e);
  }

  lemma IndexIsConnectivity(ends: seq<LayeringEdge>, plan: Plan, layout: Layout, u: Id, v: Id)
    requires Laid(ends, plan, layout) && u in PointList(ends) && v in PointList(ends)
    ensures u in plan.index && v in plan.index && plan.index[u] < layout.componentCount
    ensures plan.index[u] == plan.index[v] <==> UnionFind.Connected(RouteLinks(ends), u, v)
    ensures u in layout.nodes && layout.nodes[u].component == plan.index[u]
  {
    var b := PlacedIn(PointList(ends), CompleteEnds(ends), true, plan, layout, u);
    var c := PlacedIn(PointList(ends), CompleteEnds(ends), true, plan, layout, v);
    assert plan.index[u] == plan.index[v] <==> Connected(RouteLinks(ends), u, v);
  }

  /** Every point has, in its own component, a point in the first column: where its longest path starts. */
  lemma SourceOf(ends: seq<LayeringEdge>, plan: Plan, layout: Layout, v: Id) returns (source: Id)
    requires CompleteRoute(ends) && Laid(ends, plan, layout) && v in PointList(ends)
    ensures source in PointList(ends) && source in plan.globalCol && plan.globalCol[source] == 0
    ensures v in plan.index && source in plan.index && plan.index[source] == plan.index[v]
  {
    DepthIsLongest(ends, plan, layout, v);
    var p :| WalkTo(Arcs(CompleteEnds(ends)), p, v) && |p| == plan.depth[v] + 1;
    FirstOfLongest(Arcs(CompleteEnds(ends)), v, plan.depth[v], p);
    WalkIsConnected(ends, p);
    source := p[0];
    IndexIsConnectivity(ends, plan, layout, source, v);
    DepthIsLongest(ends, plan, layout, source);
    LongestToIsUnique(Arcs(CompleteEnds(ends)), source, plan.depth[source], 0);
    DepthZeroIsFirst(PointList(ends), plan.depth, plan.globalCol, source);
  }

  lemma ComponentHasPoints(ends: seq<LayeringEdge>, plan: Plan, layout: Layout, k: nat)
    requires Laid(ends, plan, layout) && k < layout.componentCount
    ensures k in KeysOf(PointList(ends), plan.index) && Bucket(PointList(ends), plan.index, k) != []
    ensures forall id :: id in Bucket(PointList(ends), plan.index, k) ==> id in plan.globalCol
  {
    assert k in KeysOf(PointList(ends), plan.index);
  }

  lemma SourceInBucket(ends: seq<LayeringEdge>, plan: Plan, layout: Layout, k: nat, v: Id) returns (source: Id)
    requires CompleteRoute(ends) && Laid(ends, plan, layout) && v in Bucket(PointList(ends), plan.index, k)
    ensures source in Bucket(PointList(ends), plan.index, k) && source in plan.globalCol && plan.globalCol[source] == 0
  {
    source := SourceOf(ends, plan, layout, v);
  }

  /** Every component of an acyclic route holds a point no leg arrives at, which sits in the first
      global column. */
  lemma LeftmostIsZero(ends: seq<LayeringEdge>, plan: Plan, layout: Layout, k: nat)
    requires CompleteRoute(ends) && Laid(ends, plan, layout) && k < layout.componentCount
    ensures k in KeysOf(PointList(ends), plan.index) && Bucket(PointList(ends), plan.index, k) != []
    ensures forall id :: id in Bucket(PointList(ends), plan.index, k) ==> id in plan.globalCol
    ensures LeftmostOf(Bucket(PointList(ends), plan.index, k), plan.globalCol) == 0
  {
    ComponentHasPoints(ends, plan, layout, k);
    var ids := Bucket(PointList(ends), plan.index, k);
    var source := SourceInBucket(ends, plan, layout, k, ids[0]);
    ZeroIsLeast(ids, plan.globalCol, source);
  }

  lemma ZeroIsLeast(ids: seq<Id>, col: map<Id, nat>, id: Id)
    requires id in ids && (forall x :: x in ids ==> x in col) && col[id] == 0
    ensures LeftmostOf(ids, col) == 0
  {
    LeftmostIsLeast(ids, col, id);
  }

  /** So the components are numbered in the order the legs first reach them. */
  lemma ComponentsByFirstPoint(ends: seq<LayeringEdge>, plan: Plan, layout: Layout, i: nat, j: nat)
    requires CompleteRoute(ends) && Laid(ends, plan, layout) && i < j < layout.componentCount
    ensures i in KeysOf(PointList(ends), plan.index) && j in KeysOf(PointList(ends), plan.index)
    ensures FirstIndex(PointList(ends), plan.index, i) < FirstIndex(PointList(ends), plan.index, j)
  {
    LeftmostIsZero(ends, plan, layout, i);
    LeftmostIsZero(ends, plan, layout, j);
    assert ClassBefore(PointList(ends), plan.globalCol, plan.index, i, j);
  }

  /** A class met in a prefix comes before a class the prefix does not meet. */
  lemma MetEarlier(ids: seq<Id>, prefix: seq<Id>, key: map<Id, int>, u: Id, w: Id)
    requires prefix <= ids && u in prefix && w in ids && u in key && w in key
    requires forall p :: p in prefix ==> !(p in key && key[p] == key[w])
    ensures key[u] in KeysOf(ids, key) && key[w] in KeysOf(ids, key)
    ensures FirstIndex(ids, key, key[u]) < FirstIndex(ids, key, key[w])
  {
    var i :| 0 <= i < |prefix| && prefix[i] == u;
    assert ids[i] == u && u in ids;
    forall j | 0 <= j < |prefix|
      ensures !HasKey(ids, key, key[w], j)
    {
      var q := prefix[j];
      assert q in prefix && ids[j] == q;
    }
    assert HasKey(ids, key, key[u], i);
  }

  /** The legs, once in route order. */
  ghost predicate Reordered(ends: seq<LayeringEdge>, plan: Plan, layout: Layout, perm: seq<nat>, ends2: seq<LayeringEdge>) {
    && CompleteRoute(ends) && IsRouteOrder(ends, plan, layout, perm)
    && IsPermutation(perm, |ends|) && ends2 == Pick(ends, perm)
  }

  lemma SameLegs(ends: seq<LayeringEdge>, perm: seq<nat>)
    requires IsPermutation(perm, |ends|)
    ensures forall e :: e in ends <==> e in Pick(ends, perm)
  {
    forall e | e in ends
      ensures e in Pick(ends, perm)
    {
      var k: nat :| k < |ends| && ends[k] == e;
      assert k in perm;
      var i :| 0 <= i < |perm| && perm[i] == k;
      assert Pick(ends, perm)[i] == e;
    }
  }

  lemma EndsShareComponent(ends: seq<LayeringEdge>, plan: Plan, layout: Layout, e: LayeringEdge, v: Id)
    requires CompleteRoute(ends) && Laid(ends, plan, layout) && e in ends && Touches(e, v)
    ensures v in plan.index && e.originId.value in plan.index && plan.index[v] == plan.index[e.originId.value]
  {
    var o := e.originId.value;
    LegHasPoint(ends, e, v);
    assert e in CompleteEnds(ends);
    IndexIsConnectivity(ends, plan, layout, o, v);
    if v != o {
      assert (o, v) in Arcs(CompleteEnds(ends));
      ArcConnects(ends, o, v);
    }
  }

  /** Up to a leg, the ordered legs only reach components up to that leg's. */
  lemma PrefixComponents(ends: seq<LayeringEdge>, plan: Plan, layout: Layout, perm: seq<nat>, ends2: seq<LayeringEdge>, t: nat, p: Id)
    requires Reordered(ends, plan, layout, perm, ends2) && t < |ends2| && p in PointList(ends2[..t + 1])
    ensures p in plan.index && ends2[t].Complete() && ends2[t].originId.value in plan.index
    ensures plan.index[p] <= plan.index[ends2[t].originId.value]
  {
    var e := PointHasLeg(ends2[..t + 1], p);
    var s: nat :| s < t + 1 && ends2[s] == e;
    assert ends2[s] in ends2 && ends2[t] in ends2;
    SameLegs(ends, perm);
    EndsShareComponent(ends, plan, layout, e, p);
    EndsShareComponent(ends, plan, layout, ends2[t], ends2[t].originId.value);
    IndexIsConnectivity(ends, plan, layout, e.originId.value, ends2[t].originId.value);
    IndexIsConnectivity(ends, plan, layout, ends2[t].originId.value, e.originId.value);
    if s < t {
      LegComponent(ends, plan, layout, perm, s, t);
    }
  }

  /** Both layouts have the same points and the same components, up to numbering. */
  lemma SameComponents(ends: seq<LayeringEdge>, plan: Plan, layout: Layout, ends2: seq<LayeringEdge>, plan2: Plan, layout2: Layout, u: Id, v: Id)
    requires forall e :: e in ends <==> e in ends2
    requires Laid(ends, plan, layout) && Laid(ends2, plan2, layout2)
    requires u in PointList(ends) && v in PointList(ends)
    ensures u in PointList(ends2) && v in PointList(ends2)
    ensures u in plan.index && v in plan.index && u in plan2.index && v in plan2.index
    ensures plan.index[u] < layout.componentCount && plan2.index[u] < layout2.componentCount
    ensures plan.index[u] == plan.index[v] <==> plan2.index[u] == plan2.index[v]
  {
    SameGraph(ends, ends2);
    IndexIsConnectivity(ends, plan, layout, u, v);
    IndexIsConnectivity(ends2, plan2, layout2, u, v);
  }

  lemma PrefixPoint(ends: seq<LayeringEdge>, ends2: seq<LayeringEdge>, t: nat, p: Id)
    requires t < |ends2| && p in PointList(ends2[..t + 1]) && forall e :: e in ends2 ==> e in ends
    ensures p in PointList(ends)
  {
    var e := PointHasLeg(ends2[..t + 1], p);
    assert e in ends2;
    LegHasPoint(ends, e, p);
  }

  lemma NotMetYet(ends: seq<LayeringEdge>, plan: Plan, layout: Layout, perm: seq<nat>, ends2: seq<LayeringEdge>,
                  plan2: Plan, layout2: Layout, t: nat, p: Id, w: Id)
    requires Reordered(ends, plan, layout, perm, ends2) && Laid(ends2, plan2, layout2)
    requires forall e :: e in ends <==> e in ends2
    requires t < |ends2| && p in PointList(ends2[..t + 1]) && w in PointList(ends) && w in plan.index
    requires ends2[t].Complete() && ends2[t].originId.value in plan.index
    requires plan.index[ends2[t].originId.value] < plan.index[w]
    ensures w in plan2.index && !(p in plan2.index && plan2.index[p] == plan2.index[w])
  {
    PrefixComponents(ends, plan, layout, perm, ends2, t, p);
    PrefixPoint(ends, ends2, t, p);
    SameComponents(ends, plan, layout, ends2, plan2, layout2, p, w);
  }

  lemma PrefixAvoids(ends: seq<LayeringEdge>, plan: Plan, layout: Layout, perm: seq<nat>, ends2: seq<LayeringEdge>,
                     plan2: Plan, layout2: Layout, t: nat, w: Id)
    requires Reordered(ends, plan, layout, perm, ends2) && Laid(ends2, plan2, layout2)
    requires t < |ends2| && w in PointList(ends) && w in plan.index
    requires ends2[t].Complete() && ends2[t].originId.value in plan.index
    requires plan.index[ends2[t].originId.value] < plan.index[w]
    ensures w in plan2.index
    ensures forall p :: p in PointList(ends2[..t + 1]) ==> !(p in plan2.index && plan2.index[p] == plan2.index[w])
  {
    SameLegs(ends, perm);
    SameComponents(ends, plan, layout, ends2, plan2, layout2, w, w);
    forall p | p in PointList(ends2[..t + 1])
      ensures !(p in plan2.index && plan2.index[p] == plan2.index[w])
    {
      NotMetYet(ends, plan, layout, perm, ends2, plan2, layout2, t, p, w);
    }
  }

  lemma LegMeetsPoint(ends: seq<LayeringEdge>, t: nat, v: Id)
    requires t < |ends| && Touches(ends[t], v)
    ensures v in PointList(ends[..t + 1]) && PointList(ends[..t + 1]) <= PointList(ends)
  {
    assert ends[..t + 1][t] == ends[t];
    LegHasPoint(ends[..t + 1], ends[t], v);
    PointListGrows(ends, t + 1);
  }

  /** In the ordered legs the points of an earlier component are met first. */
  lemma MetInOrder(ends: seq<LayeringEdge>, plan: Plan, layout: Layout, perm: seq<nat>, ends2: seq<LayeringEdge>,
                   plan2: Plan, layout2: Layout, u: Id, w: Id)
    requires Reordered(ends, plan, layout, perm, ends2) && Laid(ends2, plan2, layout2)
    requires u in PointList(ends) && w in PointList(ends) && u in plan.index && w in plan.index && plan.index[u] < plan.index[w]
    ensures u in plan2.index && w in plan2.index
    ensures plan2.index[u] in KeysOf(PointList(ends2), plan2.index) && plan2.index[w] in KeysOf(PointList(ends2), plan2.index)
    ensures FirstIndex(PointList(ends2), plan2.index, plan2.index[u]) < FirstIndex(PointList(ends2), plan2.index, plan2.index[w])
  {
    SameLegs(ends, perm);
    SameComponents(ends, plan, layout, ends2, plan2, layout2, u, w);
    var e := PointHasLeg(ends2, u);
    var t: nat :| t < |ends2| && ends2[t] == e;
    EndsShareComponent(ends, plan, layout, e, u);
    LegMeetsPoint(ends2, t, u);
    PrefixAvoids(ends, plan, layout, perm, ends2, plan2, layout2, t, w);
    SameComponents(ends, plan, layout, ends2, plan2, layout2, w, w);
    MetEarlier(PointList(ends2), PointList(ends2[..t + 1]), plan2.index, u, w);
  }

  /** The second layout never swaps two components of the first. */
  lemma OrderKept(ends: seq<LayeringEdge>, plan: Plan, layout: Layout, perm: seq<nat>, ends2: seq<LayeringEdge>,
                  plan2: Plan, layout2: Layout, u: Id, w: Id)
    requires Reordered(ends, plan, layout, perm, ends2) && CompleteRoute(ends2) && Laid(ends2, plan2, layout2)
    requires u in PointList(ends) && w in PointList(ends) && u in plan.index && w in plan.index && plan.index[u] < plan.index[w]
    ensures u in plan2.index && w in plan2.index && plan2.index[u] <= plan2.index[w]
  {
    MetInOrder(ends, plan, layout, perm, ends2, plan2, layout2, u, w);
    SameLegs(ends, perm);
    SameComponents(ends, plan, layout, ends2, plan2, layout2, u, w);
    if plan2.index[w] < plan2.index[u] {
      ComponentsByFirstPoint(ends2, plan2, layout2, plan2.index[w], plan2.index[u]);
    }
  }

  /** `index` numbers the points 0..count-1, using every number. */
  ghost predicate Numbered(points: set<Id>, index: map<Id, nat>, count: nat) {
    && (forall v :: v in points ==> v in index && index[v] < count)
    && (forall k: nat :: k < count ==> HasPoint(points, index, k))
  }

  ghost predicate HasPoint(points: set<Id>, index: map<Id, nat>, k: nat) {
    exists v :: v in points && v in index && index[v] == k
  }

  /** The two numberings have the same classes and never disagree on an order. */
  ghost predicate PairAgrees(index: map<Id, nat>, index2: map<Id, nat>, v: Id, w: Id) {
    && v in index && w in index && v in index2 && w in index2
    && (index[v] == index[w] <==> index2[v] == index2[w])
    && (index[v] < index[w] ==> index2[v] <= index2[w])
  }

  ghost predicate Agreeing(points: set<Id>, index: map<Id, nat>, index2: map<Id, nat>) {
    forall v, w {:trigger PairAgrees(index, index2, v, w)} :: v in points && w in points ==> PairAgrees(index, index2, v, w)
  }

  /** Two numberings of the same classes that never disagree on an order are equal. */
  lemma {:induction false} SameNumbering(points: set<Id>, index: map<Id, nat>, count: nat, index2: map<Id, nat>, count2: nat, u: Id, k: nat)
    requires Numbered(points, index, count) && Numbered(points, index2, count2)
    requires Agreeing(points, index, index2) && u in points && index[u] == k
    ensures index2[u] == k
    decreases k
  {
    var m := index2[u];
    if m < k {
      assert HasPoint(points, index, m);
      var w :| w in points && w in index && index[w] == m;
      assert PairAgrees(index, index2, u, w);
      SameNumbering(points, index, count, index2, count2, w, m);
    } else if m > k {
      assert HasPoint(points, index2, k);
      var w :| w in points && w in index2 && index2[w] == k;
      assert PairAgrees(index, index2, u, w);
      if index[w] < k {
        SameNumbering(points, index, count, index2, count2, w, index[w]);
      }
    }
  }

  lemma LayoutIsNumbered(ends: seq<LayeringEdge>, plan: Plan, layout: Layout)
    requires Laid(ends, plan, layout)
    ensures Numbered(Points(PointList(ends)), plan.index, layout.componentCount)
  {
    forall v | v in Points(PointList(ends))
      ensures v in plan.index && plan.index[v] < layout.componentCount
    {
      IndexIsConnectivity(ends, plan, layout, v, v);
    }
    forall k: nat | k < layout.componentCount
      ensures HasPoint(Points(PointList(ends)), plan.index, k)
    {
      assert k in KeysOf(PointList(ends), plan.index);
      var v :| v in PointList(ends) && v in plan.index && plan.index[v] == k;
      assert v in Points(PointList(ends));
    }
  }

  /** Laying out the ordered legs again. */
  ghost predicate LaidAgain(ends: seq<LayeringEdge>, plan: Plan, layout: Layout, perm: seq<nat>, ends2: seq<LayeringEdge>, plan2: Plan, layout2: Layout) {
    && Reordered(ends, plan, layout, perm, ends2) && Laid(ends2, plan2, layout2)
    && CompleteRoute(ends2) && (forall e :: e in ends <==> e in ends2)
    && (forall v :: v in PointList(ends) <==> v in PointList(ends2))
    && Points(PointList(ends)) == Points(PointList(ends2))
    && Arcs(CompleteEnds(ends)) == Arcs(CompleteEnds(ends2))
  }

  lemma PairKept(ends: seq<LayeringEdge>, plan: Plan, layout: Layout, perm: seq<nat>, ends2: seq<LayeringEdge>, plan2: Plan, layout2: Layout, v: Id, w: Id)
    requires LaidAgain(ends, plan, layout, perm, ends2, plan2, layout2) && v in PointList(ends) && w in PointList(ends)
    ensures PairAgrees(plan.index, plan2.index, v, w)
  {
    SameComponents(ends, plan, layout, ends2, plan2, layout2, v, w);
    if plan.index[v] < plan.index[w] {
      OrderKept(ends, plan, layout, perm, ends2, plan2, layout2, v, w);
    }
  }

  lemma NumberingsAgree(ends: seq<LayeringEdge>, plan: Plan, layout: Layout, perm: seq<nat>, ends2: seq<LayeringEdge>, plan2: Plan, layout2: Layout)
    requires LaidAgain(ends, plan, layout, perm, ends2, plan2, layout2)
    ensures Agreeing(Points(PointList(ends)), plan.index, plan2.index)
  {
    forall v, w | v in Points(PointList(ends)) && w in Points(PointList(ends))
      ensures PairAgrees(plan.index, plan2.index, v, w)
    {
      PairKept(ends, plan, layout, perm, ends2, plan2, layout2, v, w);
    }
  }

  lemma BothNumbered(ends: seq<LayeringEdge>, plan: Plan, layout: Layout, perm: seq<nat>, ends2: seq<LayeringEdge>, plan2: Plan, layout2: Layout)
    requires LaidAgain(ends, plan, layout, perm, ends2, plan2, layout2)
    ensures Numbered(Points(PointList(ends)), plan.index, layout.componentCount)
    ensures Numbered(Points(PointList(ends)), plan2.index, layout2.componentCount)
    ensures Agreeing(Points(PointList(ends)), plan.index, plan2.index)
  {
    LayoutIsNumbered(ends, plan, layout);
    LayoutIsNumbered(ends2, plan2, layout2);
    NumberingsAgree(ends, plan, layout, perm, ends2, plan2, layout2);
  }

  lemma ComponentsKept(ends: seq<LayeringEdge>, plan: Plan, layout: Layout, perm: seq<nat>, ends2: seq<LayeringEdge>, plan2: Plan, layout2: Layout, u: Id)
    requires LaidAgain(ends, plan, layout, perm, ends2, plan2, layout2) && u in PointList(ends)
    ensures u in plan.index && u in plan2.index && plan2.index[u] == plan.index[u]
  {
    var points := Points(PointList(ends));
    BothNumbered(ends, plan, layout, perm, ends2, plan2, layout2);
    SameNumbering(points, plan.index, layout.componentCount, plan2.index, layout2.componentCount, u, plan.index[u]);
  }

  lemma DepthKept(ends: seq<LayeringEdge>, plan: Plan, layout: Layout, perm: seq<nat>, ends2: seq<LayeringEdge>, plan2: Plan, layout2: Layout, u: Id)
    requires LaidAgain(ends, plan, layout, perm, ends2, plan2, layout2) && u in PointList(ends)
    ensures u in plan.depth && u in plan2.depth && plan2.depth[u] == plan.depth[u]
  {
    DepthIsLongest(ends, plan, layout, u);
    DepthIsLongest(ends2, plan2, layout2, u);
    LongestToIsUnique(Arcs(CompleteEnds(ends)), u, plan.depth[u], plan2.depth[u]);
  }

  /** The ids of two buckets that have the same members and depths have the same occupied depths. */
  lemma SameDepths(ids: seq<Id>, depth: map<Id, nat>, depths: seq<nat>, ids2: seq<Id>, depth2: map<Id, nat>, depths2: seq<nat>)
    requires DepthRanks(ids, depth, depths) && DepthRanks(ids2, depth2, depths2)
    requires forall id :: id in ids <==> id in ids2
    requires forall id :: id in ids ==> id in depth && id in depth2 && depth[id] == depth2[id]
    ensures depths == depths2
  {
    assert KeysOf(ids, depth) == KeysOf(ids2, depth2);
    IncreasingIsUnique(depths, depths2);
  }

  lemma BlockKept(ends: seq<LayeringEdge>, plan: Plan, layout: Layout, perm: seq<nat>, ends2: seq<LayeringEdge>, plan2: Plan, layout2: Layout, i: nat)
    requires LaidAgain(ends, plan, layout, perm, ends2, plan2, layout2) && i < |plan.blocks| && i < |plan2.blocks|
    ensures plan.blocks[i].depths == plan2.blocks[i].depths
  {
    var ids, ids2 := Bucket(PointList(ends), plan.group, i), Bucket(PointList(ends2), plan2.group, i);
    forall u
      ensures u in ids <==> u in ids2
    {
      if u in PointList(ends) {
        ComponentsKept(ends, plan, layout, perm, ends2, plan2, layout2, u);
        assert plan.group[u] == plan.index[u] && plan2.group[u] == plan2.index[u];
      }
    }
    forall u | u in ids
      ensures u in plan.depth && u in plan2.depth && plan.depth[u] == plan2.depth[u]
    {
      DepthKept(ends, plan, layout, perm, ends2, plan2, layout2, u);
    }
    SameDepths(ids, plan.depth, plan.blocks[i].depths, ids2, plan2.depth, plan2.blocks[i].depths);
  }

  lemma {:induction false} SameBlocks(pointIds: seq<Id>, depth: map<Id, nat>, group: map<Id, nat>, blocks: seq<Block>,
                                     pointIds2: seq<Id>, depth2: map<Id, nat>, group2: map<Id, nat>, blocks2: seq<Block>, i: nat)
    requires BlocksLaid(pointIds, depth, group, blocks) && BlocksLaid(pointIds2, depth2, group2, blocks2)
    requires i < |blocks| && i < |blocks2| && forall j :: 0 <= j <= i ==> blocks[j].depths == blocks2[j].depths
    ensures blocks[i] == blocks2[i]
  {
    if i > 0 {
      SameBlocks(pointIds, depth, group, blocks, pointIds2, depth2, group2, blocks2, i - 1);
    }
  }

  lemma BaseKept(ends: seq<LayeringEdge>, plan: Plan, layout: Layout, perm: seq<nat>, ends2: seq<LayeringEdge>, plan2: Plan, layout2: Layout, i: nat)
    requires LaidAgain(ends, plan, layout, perm, ends2, plan2, layout2) && i < |plan.blocks| && i < |plan2.blocks|
    ensures plan.blocks[i] == plan2.blocks[i]
  {
    forall j | 0 <= j <= i
      ensures plan.blocks[j].depths == plan2.blocks[j].depths
    {
      BlockKept(ends, plan, layout, perm, ends2, plan2, layout2, j);
    }
    SameBlocks(PointList(ends), plan.depth, plan.group, plan.blocks, PointList(ends2), plan2.depth, plan2.group, plan2.blocks, i);
  }

  lemma SameColumn(ids: seq<Id>, depth: map<Id, nat>, block: Block, u: Id, k: nat, node: Node,
                   ids2: seq<Id>, depth2: map<Id, nat>, k2: nat, node2: Node)
    requires NodeIn(ids, depth, block, u, k, node) && DepthRanks(ids, depth, block.depths)
    requires NodeIn(ids2, depth2, block, u, k2, node2) && depth[u] == depth2[u]
    ensures node.col == node2.col
  {
    ColumnOfDepth(ids, depth, block, u, k, node, node2.col - block.base);
  }

  lemma BlockOfKept(ends: seq<LayeringEdge>, plan: Plan, layout: Layout, perm: seq<nat>, ends2: seq<LayeringEdge>, plan2: Plan, layout2: Layout, u: Id)
    requires LaidAgain(ends, plan, layout, perm, ends2, plan2, layout2) && u in PointList(ends)
    requires u in plan.group && u in plan2.group && plan.group[u] < |plan.blocks| && plan2.group[u] < |plan2.blocks|
    ensures plan.blocks[plan.group[u]] == plan2.blocks[plan2.group[u]]
  {
    ComponentsKept(ends, plan, layout, perm, ends2, plan2, layout2, u);
    assert plan.group[u] == plan.index[u] && plan2.group[u] == plan2.index[u];
    BaseKept(ends, plan, layout, perm, ends2, plan2, layout2, plan.group[u]);
  }

  lemma ColumnKept(ends: seq<LayeringEdge>, plan: Plan, layout: Layout, perm: seq<nat>, ends2: seq<LayeringEdge>, plan2: Plan, layout2: Layout, u: Id)
    requires LaidAgain(ends, plan, layout, perm, ends2, plan2, layout2) && u in PointList(ends)
    ensures u in layout.nodes && u in layout2.nodes && layout.nodes[u].col == layout2.nodes[u].col
  {
    var block := PlacedIn(PointList(ends), CompleteEnds(ends), true, plan, layout, u);
    var block2 := PlacedIn(PointList(ends2), CompleteEnds(ends2), true, plan2, layout2, u);
    BlockOfKept(ends, plan, layout, perm, ends2, plan2, layout2, u);
    DepthKept(ends, plan, layout, perm, ends2, plan2, layout2, u);
    SameColumn(Bucket(PointList(ends), plan.group, plan.group[u]), plan.depth, block, u, plan.index[u], layout.nodes[u],
               Bucket(PointList(ends2), plan2.group, plan2.group[u]), plan2.depth, plan2.index[u], layout2.nodes[u]);
  }

  lemma KeyKept(ends: seq<LayeringEdge>, plan: Plan, layout: Layout, perm: seq<nat>, ends2: seq<LayeringEdge>, plan2: Plan, layout2: Layout, e: LayeringEdge)
    requires LaidAgain(ends, plan, layout, perm, ends2, plan2, layout2) && e in ends
    ensures LegKey(layout, e) == LegKey(layout2, e)
  {
    LegHasPoint(ends, e, e.originId.value);
    LegHasPoint(ends, e, e.destinationId.value);
    ColumnKept(ends, plan, layout, perm, ends2, plan2, layout2, e.originId.value);
    ColumnKept(ends, plan, layout, perm, ends2, plan2, layout2, e.destinationId.value);
  }

  /** A stable sort leaves keys that are already in order where they are. */
  lemma AlreadySorted(keys: seq<SortKey>, perm: seq<nat>)
    requires IsStableOrder(keys, perm)
    requires forall i, j :: 0 <= i < j < |keys| ==> !KeyBefore(keys[j], keys[i])
    ensures |perm| == |keys| && forall i :: 0 <= i < |perm| ==> perm[i] == i
  {
    StableOrderLength(keys, perm);
    forall i, j | 0 <= i < j < |perm|
      ensures perm[i] < perm[j]
    {
      assert SortsBefore(keys, perm[i], perm[j]);
    }
    var identity: seq<nat> := seq(|keys|, i => i);
    forall k
      ensures k in perm <==> k in identity
    {
      if 0 <= k < |keys| {
        assert k in perm && identity[k] == k;
      }
    }
    IncreasingIsUnique(perm, identity);
  }

  lemma IdentityPick<T>(items: seq<T>, perm: seq<nat>)
    requires |perm| == |items| && forall i :: 0 <= i < |perm| ==> perm[i] == i
    ensures Pick(items, perm) == items
  {
  }

  lemma LaidOutAgain(ends: seq<LayeringEdge>, plan: Plan, layout: Layout, perm: seq<nat>, ends2: seq<LayeringEdge>, plan2: Plan, layout2: Layout)
    requires CompleteRoute(ends) && IsRouteOrder(ends, plan, layout, perm) && IsPermutation(perm, |ends|)
    requires ends2 == Pick(ends, perm) && Laid(ends2, plan2, layout2)
    ensures LaidAgain(ends, plan, layout, perm, ends2, plan2, layout2)
  {
    SameLegs(ends, perm);
    SameGraph(ends, ends2);
  }

  /** Sorting twice equals sorting once: on an acyclic route whose legs all have both ends, ordering
      the ordered legs returns them unchanged. */
  lemma SortingTwiceIsSortingOnce(ends: seq<LayeringEdge>, plan: Plan, layout: Layout, perm: seq<nat>, plan2: Plan, layout2: Layout, perm2: seq<nat>)
    requires CompleteRoute(ends) && IsRouteOrder(ends, plan, layout, perm)
    requires forall i :: 0 <= i < |perm| ==> perm[i] < |ends|
    requires IsRouteOrder(Pick(ends, perm), plan2, layout2, perm2)
    ensures forall i :: 0 <= i < |perm2| ==> perm2[i] == i
    ensures Pick(Pick(ends, perm), perm2) == Pick(ends, perm)
  {
    var ends2 := Pick(ends, perm);
    var keys, keys2 := LegKeys(layout, ends), LegKeys(layout2, ends2);
    StableOrderIsPermutation(keys, perm);
    LaidOutAgain(ends, plan, layout, perm, ends2, plan2, layout2);
    forall x | 0 <= x < |ends2|
      ensures keys2[x] == keys[perm[x]]
    {
      assert ends2[x] in ends2;
      KeyKept(ends, plan, layout, perm, ends2, plan2, layout2, ends2[x]);
    }
    forall x, y | 0 <= x < y < |keys2|
      ensures !KeyBefore(keys2[y], keys2[x])
    {
      SortedPositions(keys, perm, x, y);
    }
    AlreadySorted(keys2, perm2);
    IdentityPick(ends2, perm2);
  }
}
