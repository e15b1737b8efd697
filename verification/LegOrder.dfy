/** packages/shared/src/route-layering.ts: orderLegsByRoute. */
module LegOrder {
  import opened Wrappers
  import opened Graph
  import opened Grouping
  import opened RouteLayout
  import opened RouteLayoutProperties
  import UnionFind

  /** Adds a point to an insertion-ordered Set. */
  function WithPoint(pointIds: seq<Id>, id: Option<Id>): seq<Id> {
    if id.Some? && id.value !in pointIds then pointIds + [id.value] else pointIds
  }

  /** The points of the legs in the order the Set acquires them. */
  function PointList(ends: seq<LayeringEdge>): (pointIds: seq<Id>)
    ensures forall e :: e in ends && e.originId.Some? ==> e.originId.value in pointIds
    ensures forall e :: e in ends && e.destinationId.Some? ==> e.destinationId.value in pointIds
  {
    if ends == [] then []
    else
      var n := |ends| - 1;
      assert forall e :: e in ends ==> e in ends[..n] || e == ends[n];
      WithPoint(WithPoint(PointList(ends[..n]), ends[n].originId), ends[n].destinationId)
  }

  /** The edges: the legs with both ends. */
  function CompleteEnds(ends: seq<LayeringEdge>): (edges: seq<LayeringEdge>)
    ensures forall e :: e in edges <==> e in ends && e.Complete()
  {
    if ends == [] then []
    else
      var n := |ends| - 1;
      assert forall e :: e in ends <==> e in ends[..n] || e == ends[n];
      if ends[n].Complete() then CompleteEnds(ends[..n]) + [ends[n]] else CompleteEnds(ends[..n])
  }

  method BuildGraph(ends: seq<LayeringEdge>) returns (pointIds: seq<Id>, edges: seq<LayeringEdge>)
    ensures pointIds == PointList(ends) && edges == CompleteEnds(ends)
  {
    pointIds, edges := [], [];
    for i := 0 to |ends|
      invariant pointIds == PointList(ends[..i]) && edges == CompleteEnds(ends[..i])
    {
      assert ends[..i + 1][..i] == ends[..i];
      pointIds := WithPoint(WithPoint(pointIds, ends[i].originId), ends[i].destinationId);
      if ends[i].originId.Some? && ends[i].destinationId.Some? {
        edges := edges + [ends[i]];
      }
    }
    assert ends[..|ends|] == ends;
  }

  function ColOf(layout: Layout, id: Option<Id>, fallback: nat): nat {
    if id.Some? && id.value in layout.nodes then layout.nodes[id.value].col else fallback
  }

  /** Origin column, then destination column; a missing side falls back. */
  function LegKey(layout: Layout, e: LayeringEdge): SortKey {
    var originCol := ColOf(layout, e.originId, 0);
    (originCol, ColOf(layout, e.destinationId, originCol))
  }

  function LegKeys(layout: Layout, ends: seq<LayeringEdge>): (keys: seq<SortKey>)
    ensures |keys| == |ends| && forall i :: 0 <= i < |ends| ==> keys[i] == LegKey(layout, ends[i])
  {
    if ends == [] then [] else LegKeys(layout, ends[..|ends| - 1]) + [LegKey(layout, ends[|ends| - 1])]
  }

  function EndsOf<T>(legs: seq<T>, origin: T -> Option<Id>, destination: T -> Option<Id>): (ends: seq<LayeringEdge>)
    ensures |ends| == |legs|
    ensures forall i :: 0 <= i < |legs| ==> ends[i] == LayeringEdge(origin(legs[i]), destination(legs[i]))
  {
    if legs == [] then []
    else
      var n := |legs| - 1;
      EndsOf(legs[..n], origin, destination) + [LayeringEdge(origin(legs[n]), destination(legs[n]))]
  }

  /** The items at the listed positions. */
  function Pick<T>(items: seq<T>, perm: seq<nat>): (picked: seq<T>)
    requires forall i :: 0 <= i < |perm| ==> perm[i] < |items|
    ensures |picked| == |perm| && forall i :: 0 <= i < |perm| ==> picked[i] == items[perm[i]]
  {
    if perm == [] then [] else Pick(items, perm[..|perm| - 1]) + [items[perm[|perm| - 1]]]
  }

  /** perm lists the legs by the columns of the split layout of their own points and edges. */
  ghost predicate IsRouteOrder(ends: seq<LayeringEdge>, plan: Plan, layout: Layout, perm: seq<nat>) {
    && IsLayout(PointList(ends), CompleteEnds(ends), true, plan, layout)
    && IsStableOrder(LegKeys(layout, ends), perm)
  }

  /** Sorts the legs; `perm` says where each came from. */
  method OrderLegsByRoute<T>(legs: seq<T>, origin: T -> Option<Id>, destination: T -> Option<Id>)
    returns (ordered: seq<T>, perm: seq<nat>, ghost plan: Plan, ghost layout: Layout)
    ensures IsRouteOrder(EndsOf(legs, origin, destination), plan, layout, perm)
    ensures forall i :: 0 <= i < |perm| ==> perm[i] < |legs|
    ensures ordered == Pick(legs, perm)
    ensures multiset(ordered) == multiset(legs)
  {
    var ends := EndsOf(legs, origin, destination);
    var pointIds, edges := BuildGraph(ends);
    var grid;
    grid, plan := ComputeRouteLayout(pointIds, edges, true);
    layout := grid;
    var keys := LegKeys(grid, ends);
    perm := StableSort(keys);
    ordered := Pick(legs, perm);
    StableOrderIsPermutation(keys, perm);
    PickIsPermutation(legs, perm);
  }

  /** perm lists each of 0..n-1 once. */
  ghost predicate IsPermutation(perm: seq<nat>, n: nat) {
    && |perm| == n && NoRepeat(perm)
    && (forall i :: 0 <= i < |perm| ==> perm[i] < n)
    && (forall k: nat :: k < n ==> k in perm)
  }

  lemma StableOrderIsPermutation(keys: seq<SortKey>, perm: seq<nat>)
    requires IsStableOrder(keys, perm)
    ensures IsPermutation(perm, |keys|)
  {
    StableOrderLength(keys, perm);
    forall i, j | 0 <= i < j < |perm|
      ensures perm[i] != perm[j]
    {
      assert SortsBefore(keys, perm[i], perm[j]);
    }
  }

  lemma PickConcat<T>(items: seq<T>, a: seq<nat>, b: seq<nat>)
    requires forall i :: 0 <= i < |a| ==> a[i] < |items|
    requires forall i :: 0 <= i < |b| ==> b[i] < |items|
    ensures forall i :: 0 <= i < |a + b| ==> (a + b)[i] < |items|
    ensures Pick(items, a + b) == Pick(items, a) + Pick(items, b)
  {
  }

  lemma WithoutLast(perm: seq<nat>, n: nat, at: nat)
    requires n > 0 && IsPermutation(perm, n) && at < n && perm[at] == n - 1
    ensures IsPermutation(perm[..at] + perm[at + 1..], n - 1)
  {
    var rest := perm[..at] + perm[at + 1..];
    forall i | 0 <= i < |rest|
      ensures rest[i] < n - 1
    {
      assert rest[i] == perm[if i < at then i else i + 1];
    }
    forall k: nat | k < n - 1
      ensures k in rest
    {
      assert k in perm;
      var i :| 0 <= i < |perm| && perm[i] == k;
      assert rest[if i < at then i else i - 1] == k;
    }
  }

  /** Picking one more position, in the middle of the list, adds its item. */
  lemma PickOneMore<T>(items: seq<T>, a: seq<nat>, k: nat, b: seq<nat>)
    requires forall i :: 0 <= i < |a| ==> a[i] < |items|
    requires forall i :: 0 <= i < |b| ==> b[i] < |items|
    requires k < |items|
    ensures forall i :: 0 <= i < |a + [k] + b| ==> (a + [k] + b)[i] < |items|
    ensures forall i :: 0 <= i < |a + b| ==> (a + b)[i] < |items|
    ensures multiset(Pick(items, a + [k] + b)) == multiset(Pick(items, a + b)) + multiset{items[k]}
  {
    PickConcat(items, a, b);
    PickConcat(items, a, [k]);
    PickConcat(items, a + [k], b);
    assert Pick(items, [k]) == [items[k]];
  }

  lemma SplitAround<T>(s: seq<T>, at: nat)
    requires at < |s|
    ensures s == s[..at] + [s[at]] + s[at + 1..]
  {
  }

  lemma PickFromPrefix<T>(items: seq<T>, n: nat, perm: seq<nat>)
    requires n <= |items| && forall i :: 0 <= i < |perm| ==> perm[i] < n
    ensures Pick(items[..n], perm) == Pick(items, perm)
  {
  }

  /** The item at the end of the list, wherever the order puts it. */
  lemma PickWithoutLast<T>(items: seq<T>, perm: seq<nat>, at: nat)
    requires items != [] && IsPermutation(perm, |items|) && at < |perm| && perm[at] == |items| - 1
    ensures IsPermutation(perm[..at] + perm[at + 1..], |items| - 1)
    ensures multiset(Pick(items, perm)) ==
            multiset(Pick(items[..|items| - 1], perm[..at] + perm[at + 1..])) + multiset{items[|items| - 1]}
  {
    WithoutLast(perm, |items|, at);
    PickFromPrefix(items, |items| - 1, perm[..at] + perm[at + 1..]);
    SplitAround(perm, at);
    PickOneMore(items, perm[..at], |items| - 1, perm[at + 1..]);
  }

  lemma AllButLast<T>(items: seq<T>)
    requires items != []
    ensures multiset(items) == multiset(items[..|items| - 1]) + multiset{items[|items| - 1]}
  {
    assert items == items[..|items| - 1] + [items[|items| - 1]];
  }

  /** Picking along a permutation keeps every item, with its multiplicity. */
  lemma {:induction false} PickIsPermutation<T>(items: seq<T>, perm: seq<nat>)
    requires IsPermutation(perm, |items|)
    ensures multiset(Pick(items, perm)) == multiset(items)
    decreases |items|
  {
    if items == [] {
      assert Pick(items, perm) == items;
    } else {
      var last: nat := |items| - 1;
      assert last in perm;
      var at: nat :| at < |perm| && perm[at] == last;
      PickWithoutLast(items, perm, at);
      PickIsPermutation(items[..last], perm[..at] + perm[at + 1..]);
      AllButLast(items);
    }
  }

  /** Where a leg is on the grid: its origin's column, or 0 without an origin, and its destination's
      column, or the origin's again without a destination. */
  ghost predicate SitsAt(layout: Layout, e: LayeringEdge, originCol: nat, destCol: nat) {
    && match e.originId {
         case Some(id) => id in layout.nodes && layout.nodes[id].col == originCol
         case None => originCol == 0
       }
    && match e.destinationId {
         case Some(id) => id in layout.nodes && layout.nodes[id].col == destCol
         case None => destCol == originCol
       }
  }

  /** Every leg is somewhere. */
  lemma LegSits(ends: seq<LayeringEdge>, plan: Plan, layout: Layout, e: LayeringEdge) returns (originCol: nat, destCol: nat)
    requires IsLayout(PointList(ends), CompleteEnds(ends), true, plan, layout) && e in ends
    ensures SitsAt(layout, e, originCol, destCol)
  {
    originCol := 0;
    if e.originId.Some? {
      var b := PlacedIn(PointList(ends), CompleteEnds(ends), true, plan, layout, e.originId.value);
      originCol := layout.nodes[e.originId.value].col;
    }
    destCol := originCol;
    if e.destinationId.Some? {
      var b := PlacedIn(PointList(ends), CompleteEnds(ends), true, plan, layout, e.destinationId.value);
      destCol := layout.nodes[e.destinationId.value].col;
    }
  }

  /** The order on the page: by origin column, then by destination column, then as they came. */
  predicate ComesFirst(originA: nat, destA: nat, i: nat, originB: nat, destB: nat, j: nat) {
    if originA != originB then originA < originB
    else if destA != destB then destA < destB
    else i < j
  }

  lemma LegsComeByColumns(ends: seq<LayeringEdge>, plan: Plan, layout: Layout, perm: seq<nat>, x: nat, y: nat,
                          originX: nat, destX: nat, originY: nat, destY: nat)
    requires IsRouteOrder(ends, plan, layout, perm) && x < y < |perm| && perm[x] < |ends| && perm[y] < |ends|
    requires SitsAt(layout, ends[perm[x]], originX, destX) && SitsAt(layout, ends[perm[y]], originY, destY)
    ensures ComesFirst(originX, destX, perm[x], originY, destY, perm[y])
  {
    assert SortsBefore(LegKeys(layout, ends), perm[x], perm[y]);
  }

  /** Of two legs from one origin of an acyclic route, the one whose destination leads on to the other's
      destination comes first. */
  lemma NearerDestinationComesFirst(ends: seq<LayeringEdge>, plan: Plan, layout: Layout, perm: seq<nat>, x: nat, y: nat, p: seq<Id>)
    requires IsRouteOrder(ends, plan, layout, perm) && Acyclic(Arcs(CompleteEnds(ends)))
    requires x < |perm| && y < |perm| && perm[x] < |ends| && perm[y] < |ends|
    requires ends[perm[x]].Complete() && ends[perm[y]].Complete() && ends[perm[x]].originId == ends[perm[y]].originId
    requires |p| >= 2 && WalkTo(Arcs(CompleteEnds(ends)), p, ends[perm[y]].destinationId.value) && p[0] == ends[perm[x]].destinationId.value
    ensures x < y
  {
    var a, b := ends[perm[x]], ends[perm[y]];
    assert a in ends && b in ends;
    LegGoesRight(ends, plan, layout, a);
    LegGoesRight(ends, plan, layout, b);
    LegsGoRight(ends, plan, layout);
    StrictlyRight(Arcs(CompleteEnds(ends)), layout.nodes, p);
    var oa, da, ob, db := layout.nodes[a.originId.value].col, layout.nodes[a.destinationId.value].col,
                          layout.nodes[b.originId.value].col, layout.nodes[b.destinationId.value].col;
    if y < x {
      LegsComeByColumns(ends, plan, layout, perm, y, x, ob, db, oa, da);
    }
  }

  lemma StrictlyRight(arcs: set<Arc>, nodes: map<Id, Node>, p: seq<Id>)
    requires Rightwards(arcs, nodes) && Walk(arcs, p) && |p| >= 2
    ensures p[0] in nodes && p[|p| - 1] in nodes && nodes[p[0]].col < nodes[p[|p| - 1]].col
  {
    var n := |p| - 1;
    assert (p[0], p[0 + 1]) in arcs && (p[n - 1], p[n - 1 + 1]) in arcs;
    var first, second, last, end := p[0], p[1], p[n - 1], p[n];
    assert (first, second) in arcs && (last, end) in arcs;
    SubWalk(arcs, p, 0, n);
    WalkGoesRight(arcs, nodes, p[..n]);
  }

  /** A leg with both ends is an edge between two of the points, so on an acyclic route its origin
      column is smaller than its destination column. */
  lemma LegGoesRight(ends: seq<LayeringEdge>, plan: Plan, layout: Layout, e: LayeringEdge)
    requires IsLayout(PointList(ends), CompleteEnds(ends), true, plan, layout) && Acyclic(Arcs(CompleteEnds(ends)))
    requires e in ends && e.Complete()
    ensures e.originId.value in layout.nodes && e.destinationId.value in layout.nodes
    ensures layout.nodes[e.originId.value].col < layout.nodes[e.destinationId.value].col
  {
    EdgesGoRight(PointList(ends), CompleteEnds(ends), true, plan, layout, e);
  }

  lemma ArcGoesRight(ends: seq<LayeringEdge>, plan: Plan, layout: Layout, u: Id, v: Id)
    requires IsLayout(PointList(ends), CompleteEnds(ends), true, plan, layout) && Acyclic(Arcs(CompleteEnds(ends)))
    requires (u, v) in Arcs(CompleteEnds(ends))
    ensures u in layout.nodes && v in layout.nodes && layout.nodes[u].col < layout.nodes[v].col
  {
    var e :| e in CompleteEnds(ends) && e.Complete() && (e.originId.value, e.destinationId.value) == (u, v);
    LegGoesRight(ends, plan, layout, e);
  }

  /** Every arc leads to a larger column. */
  ghost predicate Rightwards(arcs: set<Arc>, nodes: map<Id, Node>) {
    forall u, v :: (u, v) in arcs ==> u in nodes && v in nodes && nodes[u].col < nodes[v].col
  }

  lemma {:induction false} WalkGoesRight(arcs: set<Arc>, nodes: map<Id, Node>, p: seq<Id>)
    requires Rightwards(arcs, nodes) && Walk(arcs, p) && p[0] in nodes
    ensures p[|p| - 1] in nodes && nodes[p[0]].col <= nodes[p[|p| - 1]].col
  {
    var n := |p| - 1;
    if n > 0 {
      SubWalk(arcs, p, 0, n);
      WalkGoesRight(arcs, nodes, p[..n]);
      assert (p[n - 1], p[n - 1 + 1]) in arcs;
      var u, v := p[n - 1], p[n];
      assert (u, v) in arcs;
    }
  }

  lemma LegsGoRight(ends: seq<LayeringEdge>, plan: Plan, layout: Layout)
    requires IsLayout(PointList(ends), CompleteEnds(ends), true, plan, layout) && Acyclic(Arcs(CompleteEnds(ends)))
    ensures Rightwards(Arcs(CompleteEnds(ends)), layout.nodes)
  {
    forall u, v | (u, v) in Arcs(CompleteEnds(ends))
      ensures u in layout.nodes && v in layout.nodes && layout.nodes[u].col < layout.nodes[v].col
    {
      ArcGoesRight(ends, plan, layout, u, v);
    }
  }

  /** Goods can flow from the end of a to the start of b: directly or along other legs. */
  ghost predicate Feeds(ends: seq<LayeringEdge>, a: LayeringEdge, b: LayeringEdge) {
    a.Complete() && b.Complete()
    && exists p :: WalkTo(Arcs(CompleteEnds(ends)), p, b.originId.value) && p[0] == a.destinationId.value
  }

  lemma SortedPositions(keys: seq<SortKey>, perm: seq<nat>, x: nat, y: nat)
    requires IsStableOrder(keys, perm) && x < y < |perm|
    ensures !KeyBefore(keys[perm[y]], keys[perm[x]])
  {
    assert SortsBefore(keys, perm[x], perm[y]);
  }

  /** On an acyclic route a leg that feeds another, directly or along any path, comes first. */
  lemma FeedingLegComesFirst(ends: seq<LayeringEdge>, plan: Plan, layout: Layout, perm: seq<nat>, x: nat, y: nat)
    requires IsRouteOrder(ends, plan, layout, perm) && Acyclic(Arcs(CompleteEnds(ends)))
    requires x < |perm| && y < |perm| && perm[x] < |ends| && perm[y] < |ends|
    requires Feeds(ends, ends[perm[x]], ends[perm[y]])
    ensures x < y
  {
    var a, b := ends[perm[x]], ends[perm[y]];
    assert a in ends && b in ends;
    var p :| WalkTo(Arcs(CompleteEnds(ends)), p, b.originId.value) && p[0] == a.destinationId.value;
    LegGoesRight(ends, plan, layout, a);
    LegsGoRight(ends, plan, layout);
    WalkGoesRight(Arcs(CompleteEnds(ends)), layout.nodes, p);
    assert KeyBefore(LegKeys(layout, ends)[perm[x]], LegKeys(layout, ends)[perm[y]]);
    if y < x {
      SortedPositions(LegKeys(layout, ends), perm, y, x);
    }
  }

  /** Two legs with origins in the same connected component of the route. */
  ghost predicate SameComponent(ends: seq<LayeringEdge>, a: LayeringEdge, b: LayeringEdge) {
    a.originId.Some? && b.originId.Some?
    && UnionFind.Connected(UnionFind.Links(Points(PointList(ends)), CompleteEnds(ends)), a.originId.value, b.originId.value)
  }

  lemma OriginsInOrder(keys: seq<SortKey>, perm: seq<nat>, x: nat, y: nat)
    requires IsStableOrder(keys, perm) && x < y < |perm|
    ensures keys[perm[x]].0 <= keys[perm[y]].0
  {
    assert SortsBefore(keys, perm[x], perm[y]);
  }

  /** The component of a leg, read off its origin. */
  lemma LegComponent(ends: seq<LayeringEdge>, plan: Plan, layout: Layout, perm: seq<nat>, x: nat, y: nat)
    requires IsRouteOrder(ends, plan, layout, perm) && x < y < |perm| && perm[x] < |ends| && perm[y] < |ends|
    requires ends[perm[x]].originId.Some? && ends[perm[y]].originId.Some?
    ensures ends[perm[x]].originId.value in layout.nodes && ends[perm[y]].originId.value in layout.nodes
    ensures layout.nodes[ends[perm[x]].originId.value].component <= layout.nodes[ends[perm[y]].originId.value].component
    ensures SameComponent(ends, ends[perm[x]], ends[perm[y]])
        <==> layout.nodes[ends[perm[x]].originId.value].component == layout.nodes[ends[perm[y]].originId.value].component
  {
    var a, b := ends[perm[x]], ends[perm[y]];
    assert a in ends && b in ends;
    ComponentsAreBlocks(PointList(ends), CompleteEnds(ends), true, plan, layout, a.originId.value, b.originId.value);
    ComponentsAreBlocks(PointList(ends), CompleteEnds(ends), true, plan, layout, b.originId.value, a.originId.value);
    OriginsInOrder(LegKeys(layout, ends), perm, x, y);
  }

  /** The legs of a connected component form one contiguous block: on any route, acyclic or not, a
      leg with an origin that lies between two legs of a component belongs to it. */
  lemma ComponentsAreContiguous(ends: seq<LayeringEdge>, plan: Plan, layout: Layout, perm: seq<nat>, x: nat, y: nat, z: nat)
    requires IsRouteOrder(ends, plan, layout, perm) && x < y < z < |perm|
    requires perm[x] < |ends| && perm[y] < |ends| && perm[z] < |ends|
    requires ends[perm[y]].originId.Some? && SameComponent(ends, ends[perm[x]], ends[perm[z]])
    ensures SameComponent(ends, ends[perm[x]], ends[perm[y]])
  {
    LegComponent(ends, plan, layout, perm, x, y);
    LegComponent(ends, plan, layout, perm, y, z);
    LegComponent(ends, plan, layout, perm, x, z);
  }
}
