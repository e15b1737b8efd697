/** packages/shared/src/route-layering.ts: the longest-path relaxation. */
module LongestPath {
  import opened Graph

  /** `depth.get(id) ?? 0`. */
  function DepthOf(depth: map<Id, nat>, id: Id): nat {
    if id in depth then depth[id] else 0
  }

  /** Every walk of at most k arcs is already accounted for. */
  ghost predicate Level(arcs: set<Arc>, depth: map<Id, nat>, k: nat) {
    forall p :: Walk(arcs, p) && |p| <= k + 1 ==> DepthOf(depth, p[|p| - 1]) >= |p| - 1
  }

  ghost predicate AllWitnessed(arcs: set<Arc>, depth: map<Id, nat>) {
    forall v :: Witnessed(arcs, v, DepthOf(depth, v))
  }

  ghost predicate Grown(start: map<Id, nat>, depth: map<Id, nat>) {
    forall v :: DepthOf(start, v) <= DepthOf(depth, v)
  }

  ghost predicate Relaxed(start: map<Id, nat>, depth: map<Id, nat>, edges: seq<LayeringEdge>) {
    forall e :: e in edges && e.Complete()
      ==> DepthOf(depth, e.destinationId.value) >= DepthOf(start, e.originId.value) + 1
  }

  /** No arc can raise its destination any further. */
  ghost predicate Fixpoint(arcs: set<Arc>, depth: map<Id, nat>) {
    forall a :: a in arcs ==> DepthOf(depth, a.1) >= DepthOf(depth, a.0) + 1
  }

  lemma LevelStep(edges: seq<LayeringEdge>, start: map<Id, nat>, depth: map<Id, nat>, k: nat)
    requires Level(Arcs(edges), start, k) && Grown(start, depth) && Relaxed(start, depth, edges)
    ensures Level(Arcs(edges), depth, k + 1)
  {
    var arcs := Arcs(edges);
    forall p | Walk(arcs, p) && |p| <= k + 2
      ensures DepthOf(depth, p[|p| - 1]) >= |p| - 1
    {
      if |p| > 1 {
        var n := |p| - 1;
        SubWalk(arcs, p, 0, n);
        var q := p[..n];
        assert DepthOf(start, q[n - 1]) >= n - 1;
        assert (p[n - 1], p[n - 1 + 1]) in arcs;
      }
    }
  }

  /** At a fixpoint the depth climbs by at least one along every arc of a walk. */
  lemma {:induction false} FixpointClimbs(arcs: set<Arc>, depth: map<Id, nat>, p: seq<Id>)
    requires Fixpoint(arcs, depth) && Walk(arcs, p)
    ensures DepthOf(depth, p[|p| - 1]) >= DepthOf(depth, p[0]) + |p| - 1
  {
    if |p| > 1 {
      var n := |p| - 1;
      SubWalk(arcs, p, 0, n);
      FixpointClimbs(arcs, depth, p[..n]);
      assert (p[n - 1], p[n - 1 + 1]) in arcs;
    }
  }

  /** A fixpoint of witnessed depths is the longest-path depth, and only an acyclic graph has one. */
  lemma FixpointIsLongest(arcs: set<Arc>, depth: map<Id, nat>)
    requires Fixpoint(arcs, depth) && AllWitnessed(arcs, depth)
    ensures Acyclic(arcs)
    ensures forall v :: LongestTo(arcs, v, DepthOf(depth, v))
  {
    forall p | Walk(arcs, p) && |p| >= 2
      ensures p[0] != p[|p| - 1]
    {
      FixpointClimbs(arcs, depth, p);
    }
    forall v
      ensures LongestTo(arcs, v, DepthOf(depth, v))
    {
      forall p | WalkTo(arcs, p, v)
        ensures |p| <= DepthOf(depth, v) + 1
      {
        FixpointClimbs(arcs, depth, p);
      }
    }
  }

  /** Once every walk is accounted for, no edge of an acyclic graph can be relaxed. */
  lemma NothingLeftToRelax(edges: seq<LayeringEdge>, depth: map<Id, nat>, u: Id, v: Id)
    requires Acyclic(Arcs(edges)) && Level(Arcs(edges), depth, |edges|) && AllWitnessed(Arcs(edges), depth)
    requires (u, v) in Arcs(edges)
    ensures DepthOf(depth, v) >= DepthOf(depth, u) + 1
  {
    var arcs := Arcs(edges);
    assert Witnessed(arcs, u, DepthOf(depth, u));
    var p :| WalkTo(arcs, p, u) && |p| == DepthOf(depth, u) + 1;
    var q := p + [v];
    assert Walk(arcs, q);
    AcyclicWalkIsShort(edges, q);
  }

  lemma RaiseOne(arcs: set<Arc>, depth: map<Id, nat>, u: Id, v: Id)
    requires AllWitnessed(arcs, depth) && (u, v) in arcs
    ensures AllWitnessed(arcs, depth[v := DepthOf(depth, u) + 1])
  {
    var depth' := depth[v := DepthOf(depth, u) + 1];
    assert Witnessed(arcs, u, DepthOf(depth, u));
    ExtendWitness(arcs, u, v, DepthOf(depth, u));
    forall w
      ensures Witnessed(arcs, w, DepthOf(depth', w))
    {
      assert Witnessed(arcs, w, DepthOf(depth, w));
    }
  }

  lemma GrownLevel(arcs: set<Arc>, start: map<Id, nat>, depth: map<Id, nat>, k: nat, j: nat)
    requires Level(arcs, start, k) && Grown(start, depth) && j <= k
    ensures Level(arcs, depth, j)
  {
  }

  /** What holds between two edges of one pass. */
  ghost predicate MidPass(edges: seq<LayeringEdge>, start: map<Id, nat>, depth: map<Id, nat>, j: nat)
    requires j <= |edges|
  {
    && AllWitnessed(Arcs(edges), depth)
    && Grown(start, depth)
    && Relaxed(start, depth, edges[..j])
    && depth.Keys <= start.Keys + Destinations(edges)
    && start.Keys <= depth.Keys
  }

  ghost predicate Bounded(depth: map<Id, nat>, bound: nat) {
    forall v :: DepthOf(depth, v) <= bound
  }

  lemma EdgeRelaxed(edges: seq<LayeringEdge>, start: map<Id, nat>, depth: map<Id, nat>, j: nat, depth': map<Id, nat>)
    requires j < |edges| && MidPass(edges, start, depth, j)
    requires var e := edges[j];
      if e.Complete() && DepthOf(depth, e.originId.value) + 1 > DepthOf(depth, e.destinationId.value)
      then depth' == depth[e.destinationId.value := DepthOf(depth, e.originId.value) + 1]
      else depth' == depth
    ensures MidPass(edges, start, depth', j + 1)
  {
    var e := edges[j];
    assert edges[..j + 1] == edges[..j] + [e];
    if depth' != depth {
      assert (e.originId.value, e.destinationId.value) in Arcs(edges);
      RaiseOne(Arcs(edges), depth, e.originId.value, e.destinationId.value);
    }
  }

  /** Enough passes have run for an acyclic graph to have settled. */
  ghost predicate SettledBy(edges: seq<LayeringEdge>, pass: nat) {
    Acyclic(Arcs(edges)) && pass >= |edges|
  }

  lemma SettledPass(edges: seq<LayeringEdge>, start: map<Id, nat>, depth: map<Id, nat>, j: nat, pass: nat)
    requires j < |edges| && edges[j].Complete() && MidPass(edges, start, depth, j)
    requires SettledBy(edges, pass) && Level(Arcs(edges), start, pass)
    ensures DepthOf(depth, edges[j].originId.value) + 1 <= DepthOf(depth, edges[j].destinationId.value)
  {
    GrownLevel(Arcs(edges), start, depth, pass, |edges|);
    assert (edges[j].originId.value, edges[j].destinationId.value) in Arcs(edges);
    NothingLeftToRelax(edges, depth, edges[j].originId.value, edges[j].destinationId.value);
  }

  lemma PassEnds(edges: seq<LayeringEdge>, start: map<Id, nat>, depth: map<Id, nat>, pass: nat)
    requires MidPass(edges, start, depth, |edges|) && Level(Arcs(edges), start, pass)
    ensures Level(Arcs(edges), depth, pass + 1)
    ensures depth == start ==> Fixpoint(Arcs(edges), depth)
  {
    assert edges[..|edges|] == edges;
    LevelStep(edges, start, depth, pass);
  }

  /** The body of the inner loop, for the edge at position j. */
  method RelaxEdge(edges: seq<LayeringEdge>, ghost start: map<Id, nat>, before: map<Id, nat>, j: nat, ghost pass: nat, ghost bound: nat)
    returns (depth: map<Id, nat>, changed: bool)
    requires j < |edges| && MidPass(edges, start, before, j) && Bounded(before, bound)
    requires Level(Arcs(edges), start, pass)
    ensures MidPass(edges, start, depth, j + 1) && Bounded(depth, bound + 1)
    ensures !changed ==> depth == before
    ensures SettledBy(edges, pass) ==> !changed
  {
    depth, changed := before, false;
    var e := edges[j];
    if e.originId.Some? && e.destinationId.Some? {
      var nextDepth := DepthOf(depth, e.originId.value) + 1;
      if nextDepth > DepthOf(depth, e.destinationId.value) {
        if SettledBy(edges, pass) {
          SettledPass(edges, start, depth, j, pass);
        }
        depth := depth[e.destinationId.value := nextDepth];
        changed := true;
      }
    }
    EdgeRelaxed(edges, start, before, j, depth);
  }

  /** One pass of the inner loop, relaxing the edges in their list order. */
  method RelaxOnce(edges: seq<LayeringEdge>, start: map<Id, nat>, ghost pass: nat, ghost bound: nat)
    returns (depth: map<Id, nat>, changed: bool)
    requires AllWitnessed(Arcs(edges), start) && Level(Arcs(edges), start, pass) && Bounded(start, bound)
    ensures AllWitnessed(Arcs(edges), depth) && Level(Arcs(edges), depth, pass + 1)
    ensures Bounded(depth, bound + |edges|)
    ensures start.Keys <= depth.Keys <= start.Keys + Destinations(edges)
    ensures !changed ==> depth == start && Fixpoint(Arcs(edges), depth)
    ensures SettledBy(edges, pass) ==> !changed
  {
    depth := start;
    changed := false;
    for j := 0 to |edges|
      invariant MidPass(edges, start, depth, j) && Bounded(depth, bound + j)
      invariant !changed ==> depth == start
      invariant SettledBy(edges, pass) ==> !changed
    {
      var step;
      depth, step := RelaxEdge(edges, start, depth, j, pass, bound + j);
      changed := changed || step;
    }
    PassEnds(edges, start, depth, pass);
  }

  /** n added up k times. */
  ghost function Times(n: nat, k: nat): nat {
    if k == 0 then 0 else Times(n, k - 1) + n
  }

  lemma {:induction false} TimesGrows(n: nat, j: nat, k: nat)
    requires j <= k
    ensures Times(n, j) <= Times(n, k)
    decreases k
  {
    if j < k {
      TimesGrows(n, j, k - 1);
    }
  }

  lemma {:induction false} TimesIsProduct(n: nat, k: nat)
    ensures Times(n, k) == n * k
  {
    if k > 0 {
      TimesIsProduct(n, k - 1);
      assert n * k == n * (k - 1) + n;
    }
  }

  lemma Start(edges: seq<LayeringEdge>, depth: map<Id, nat>)
    requires forall v :: v in depth ==> depth[v] == 0
    ensures AllWitnessed(Arcs(edges), depth) && Level(Arcs(edges), depth, 0) && Bounded(depth, 0)
  {
    forall v
      ensures Witnessed(Arcs(edges), v, DepthOf(depth, v))
    {
      PointWitnessed(Arcs(edges), v);
    }
  }

  /** Every point starts at depth 0. */
  method InitialDepths(pointIds: seq<Id>) returns (depth: map<Id, nat>)
    ensures depth.Keys == Points(pointIds)
    ensures forall v :: v in depth ==> depth[v] == 0
  {
    depth := map[];
    for i := 0 to |pointIds|
      invariant depth.Keys == Points(pointIds[..i])
      invariant forall v :: v in depth ==> depth[v] == 0
    {
      assert pointIds[..i + 1] == pointIds[..i] + [pointIds[i]];
      depth := depth[pointIds[i] := 0];
    }
    assert pointIds[..|pointIds|] == pointIds;
  }

  /** What holds after i passes. */
  ghost predicate AfterPasses(edges: seq<LayeringEdge>, start: map<Id, nat>, depth: map<Id, nat>, i: nat) {
    && AllWitnessed(Arcs(edges), depth)
    && Level(Arcs(edges), depth, i)
    && Bounded(depth, Times(|edges|, i))
    && start.Keys <= depth.Keys <= start.Keys + Destinations(edges)
  }

  lemma FewerPassesBound(edges: seq<LayeringEdge>, start: map<Id, nat>, depth: map<Id, nat>, i: nat, k: nat)
    requires i <= k && AfterPasses(edges, start, depth, i)
    ensures Bounded(depth, Times(|edges|, k))
  {
    TimesGrows(|edges|, i, k);
  }

  /** One more pass. */
  method Pass(edges: seq<LayeringEdge>, ghost start: map<Id, nat>, before: map<Id, nat>, ghost i: nat)
    returns (depth: map<Id, nat>, changed: bool)
    requires AfterPasses(edges, start, before, i)
    ensures AfterPasses(edges, start, depth, i + 1)
    ensures !changed ==> depth == before && Fixpoint(Arcs(edges), depth)
    ensures SettledBy(edges, i) ==> !changed
  {
    depth, changed := RelaxOnce(edges, before, i, Times(|edges|, i));
  }

  /** The pass loop, capped at |edges| + 2 passes. */
  method RelaxAll(edges: seq<LayeringEdge>, start: map<Id, nat>) returns (depth: map<Id, nat>, ghost settled: bool)
    requires AfterPasses(edges, start, start, 0)
    ensures AllWitnessed(Arcs(edges), depth)
    ensures start.Keys <= depth.Keys <= start.Keys + Destinations(edges)
    ensures Bounded(depth, Times(|edges|, |edges| + 2))
    ensures settled ==> Fixpoint(Arcs(edges), depth)
    ensures Acyclic(Arcs(edges)) ==> settled
  {
    depth, settled := start, false;
    for i := 0 to |edges| + 2
      invariant AfterPasses(edges, start, depth, i)
      invariant !settled && (Acyclic(Arcs(edges)) ==> i <= |edges|)
    {
      var changed;
      ghost var before := depth;
      depth, changed := Pass(edges, start, depth, i);
      if !changed {
        settled := true;
        FewerPassesBound(edges, start, depth, i, |edges| + 2);
        return;
      }
    }
    FewerPassesBound(edges, start, depth, |edges| + 2, |edges| + 2);
  }

  /** Longest-path layering. The relaxation settles before its cap exactly on acyclic graphs, and
      then every depth is the longest-path depth; on any graph every depth is the length of some
      walk and is at most E * (E + 2). */
  method ComputeLongestPathDepth(pointIds: seq<Id>, edges: seq<LayeringEdge>)
    returns (depth: map<Id, nat>, ghost settled: bool)
    ensures Points(pointIds) <= depth.Keys <= Points(pointIds) + Destinations(edges)
    ensures AllWitnessed(Arcs(edges), depth)
    ensures Bounded(depth, |edges| * (|edges| + 2))
    ensures settled <==> Acyclic(Arcs(edges))
    ensures settled ==> forall v :: LongestTo(Arcs(edges), v, DepthOf(depth, v))
  {
    depth := InitialDepths(pointIds);
    Start(edges, depth);
    depth, settled := RelaxAll(edges, depth);
    TimesIsProduct(|edges|, |edges| + 2);
    if settled {
      FixpointIsLongest(Arcs(edges), depth);
    }
  }

  /** On acyclic graphs the depth of every point is a function of the set of arcs alone: neither the
      order of the points nor the order (or repetition) of the edges matters. */
  lemma DepthIgnoresOrder(edges: seq<LayeringEdge>, depth: map<Id, nat>, edges': seq<LayeringEdge>, depth': map<Id, nat>)
    requires Arcs(edges) == Arcs(edges')
    requires forall v :: LongestTo(Arcs(edges), v, DepthOf(depth, v))
    requires forall v :: LongestTo(Arcs(edges'), v, DepthOf(depth', v))
    ensures forall v :: DepthOf(depth, v) == DepthOf(depth', v)
  {
    forall v
      ensures DepthOf(depth, v) == DepthOf(depth', v)
    {
      LongestToIsUnique(Arcs(edges), v, DepthOf(depth, v), DepthOf(depth', v));
    }
  }
}
