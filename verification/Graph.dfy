/** Directed and undirected walks over the point graph that the routing code works on. */
module Graph {
  import opened Wrappers

  /** Ids are only ever compared for equality. The code treats null and the empty string alike
      (`!id`), so both are None here. */
  type Id = int

  function Elements<T>(s: seq<T>): set<T> {
    set x | x in s
  }

  function Points(pointIds: seq<Id>): set<Id> {
    Elements(pointIds)
  }

  datatype LayeringEdge = LayeringEdge(originId: Option<Id>, destinationId: Option<Id>) {
    predicate Complete() {
      originId.Some? && destinationId.Some?
    }
  }

  type Arc = (Id, Id)

  /** The graph of a list of edges: one arc per edge that has both ends. */
  ghost function Arcs(edges: seq<LayeringEdge>): set<Arc> {
    set e | e in edges && e.Complete() :: (e.originId.value, e.destinationId.value)
  }

  /** The points some complete edge arrives at. */
  ghost function Destinations(edges: seq<LayeringEdge>): set<Id> {
    set e | e in edges && e.Complete() :: e.destinationId.value
  }

  ghost predicate Walk(arcs: set<Arc>, p: seq<Id>) {
    |p| >= 1 && forall i :: 0 <= i < |p| - 1 ==> (p[i], p[i + 1]) in arcs
  }

  ghost predicate WalkTo(arcs: set<Arc>, p: seq<Id>, v: Id) {
    Walk(arcs, p) && p[|p| - 1] == v
  }

  ghost predicate Acyclic(arcs: set<Arc>) {
    forall p :: Walk(arcs, p) && |p| >= 2 ==> p[0] != p[|p| - 1]
  }

  /** Some walk of exactly k arcs ends at v. */
  ghost predicate Witnessed(arcs: set<Arc>, v: Id, k: nat) {
    exists p :: WalkTo(arcs, p, v) && |p| == k + 1
  }

  /** k is the number of arcs of a longest walk ending at v. */
  ghost predicate LongestTo(arcs: set<Arc>, v: Id, k: nat) {
    Witnessed(arcs, v, k) && forall p :: WalkTo(arcs, p, v) ==> |p| <= k + 1
  }

  lemma LongestToIsUnique(arcs: set<Arc>, v: Id, j: nat, k: nat)
    requires LongestTo(arcs, v, j) && LongestTo(arcs, v, k)
    ensures j == k
  {
  }

  lemma PointWitnessed(arcs: set<Arc>, v: Id)
    ensures Witnessed(arcs, v, 0)
  {
    assert WalkTo(arcs, [v], v);
  }

  lemma ExtendWitness(arcs: set<Arc>, u: Id, v: Id, k: nat)
    requires Witnessed(arcs, u, k) && (u, v) in arcs
    ensures Witnessed(arcs, v, k + 1)
  {
    var p :| WalkTo(arcs, p, u) && |p| == k + 1;
    assert WalkTo(arcs, p + [v], v);
  }

  /** Any stretch of a walk is a walk. */
  lemma SubWalk(arcs: set<Arc>, p: seq<Id>, i: nat, j: nat)
    requires Walk(arcs, p) && i < j <= |p|
    ensures Walk(arcs, p[i..j])
  {
  }

  lemma JoinWalks(arcs: set<Arc>, p: seq<Id>, q: seq<Id>)
    requires Walk(arcs, p) && Walk(arcs, q) && p[|p| - 1] == q[0]
    ensures Walk(arcs, p + q[1..])
    ensures (p + q[1..])[0] == p[0] && (p + q[1..])[|p + q[1..]| - 1] == q[|q| - 1]
    ensures |p + q[1..]| == |p| + |q| - 1
  {
    var r := p + q[1..];
    forall i | 0 <= i < |r| - 1
      ensures (r[i], r[i + 1]) in arcs
    {
      if i >= |p| - 1 {
        assert (q[i - (|p| - 1)], q[i - (|p| - 1) + 1]) in arcs;
      }
    }
  }

  /** The arcs a walk takes. */
  ghost function ArcsTaken(p: seq<Id>): (taken: set<Arc>)
    requires |p| >= 1
    ensures forall a :: a in taken ==> a.1 in p
  {
    var n := |p| - 1;
    if n == 0 then {} else ArcsTaken(p[..n]) + {(p[n - 1], p[n])}
  }

  ghost predicate NoRepeat<T(!new)>(p: seq<T>) {
    forall i, j :: 0 <= i < j < |p| ==> p[i] != p[j]
  }

  lemma {:induction false} SimpleWalkTakesDistinctArcs(arcs: set<Arc>, p: seq<Id>)
    requires Walk(arcs, p) && NoRepeat(p)
    ensures |ArcsTaken(p)| == |p| - 1 && ArcsTaken(p) <= arcs
  {
    var n := |p| - 1;
    if n > 0 {
      SubWalk(arcs, p, 0, n);
      SimpleWalkTakesDistinctArcs(arcs, p[..n]);
      assert p[n] !in p[..n];
      assert (p[n - 1], p[n - 1 + 1]) in arcs;
    }
  }

  lemma AcyclicWalkIsSimple(arcs: set<Arc>, p: seq<Id>)
    requires Acyclic(arcs) && Walk(arcs, p)
    ensures NoRepeat(p)
  {
    forall i, j | 0 <= i < j < |p|
      ensures p[i] != p[j]
    {
      SubWalk(arcs, p, i, j + 1);
      var c := p[i..j + 1];
      assert c[0] == p[i] && c[|c| - 1] == p[j];
    }
  }

  lemma SubsetCardinality<T>(a: set<T>, b: set<T>)
    requires a <= b
    ensures |a| <= |b|
  {
    if a != b {
      assert b == a + (b - a);
    }
  }

  /** The arcs are an image of the edge list, so there are no more of them than edges. */
  lemma {:induction false} ArcsAreNoMoreThanEdges(edges: seq<LayeringEdge>)
    ensures |Arcs(edges)| <= |edges|
  {
    if edges == [] {
      assert Arcs(edges) == {};
    } else {
      var n := |edges| - 1;
      var e := edges[n];
      ArcsAreNoMoreThanEdges(edges[..n]);
      assert edges == edges[..n] + [e];
      assert Arcs(edges) == Arcs(edges[..n]) + Arcs([e]);
      if e.Complete() {
        assert Arcs([e]) == {(e.originId.value, e.destinationId.value)};
      } else {
        assert Arcs([e]) == {};
      }
    }
  }

  /** A walk of an acyclic graph has no more arcs than the edge list has edges. */
  lemma AcyclicWalkIsShort(edges: seq<LayeringEdge>, p: seq<Id>)
    requires Acyclic(Arcs(edges)) && Walk(Arcs(edges), p)
    ensures |p| - 1 <= |edges|
  {
    AcyclicWalkIsSimple(Arcs(edges), p);
    SimpleWalkTakesDistinctArcs(Arcs(edges), p);
    ArcsAreNoMoreThanEdges(edges);
    SubsetCardinality(ArcsTaken(p), Arcs(edges));
  }
}
