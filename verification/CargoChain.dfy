/** packages/shared/src/route.ts: the per-cargo chain rules of validateRoute. */
module CargoChain {
  import opened Wrappers
  import opened Graph

  /** Dates are points in time; a missing or unparsable date is None. */
  datatype RouteLeg = RouteLeg(id: Id, originPointId: Option<Id>, destinationPointId: Option<Id>,
                               readyDate: Option<int>, targetDelivery: Option<int>) {
    predicate Complete() {
      originPointId.Some? && destinationPointId.Some?
    }
  }

  type Edge = l: RouteLeg | l.Complete() witness RouteLeg(0, Some(0), Some(0), None, None)

  datatype Rule = R1 | R2 | R4 | R6 | R9 | T1 | C2
  datatype Severity = Blocking | Warning
  datatype Scope = CargoScope(cargoId: Id) | LegScope(legId: Id)
  datatype Finding = Finding(rule: Rule, severity: Severity, scope: Scope)

  /** The rules that say a cargo's legs are not one chain. */
  predicate IsChainRule(r: Rule) {
    r == R1 || r == R4 || r == R6 || r == C2
  }

  ghost predicate HasChainFinding(findings: seq<Finding>) {
    exists f :: f in findings && IsChainRule(f.rule)
  }

  /** The edges that leave a point, in leg order. */
  function Out(edges: seq<Edge>, n: Id): (outs: seq<Edge>)
    ensures forall e :: e in outs <==> e in edges && e.originPointId.value == n
  {
    if edges == [] then []
    else
      var last := edges[|edges| - 1];
      assert forall e :: e in edges <==> e in edges[..|edges| - 1] || e == last;
      if last.originPointId.value == n then Out(edges[..|edges| - 1], n) + [last] else Out(edges[..|edges| - 1], n)
  }

  /** The edges that arrive at a point. */
  function In(edges: seq<Edge>, n: Id): (ins: seq<Edge>)
    ensures forall e :: e in ins <==> e in edges && e.destinationPointId.value == n
  {
    if edges == [] then []
    else
      var last := edges[|edges| - 1];
      assert forall e :: e in edges <==> e in edges[..|edges| - 1] || e == last;
      if last.destinationPointId.value == n then In(edges[..|edges| - 1], n) + [last] else In(edges[..|edges| - 1], n)
  }

  ghost predicate IsNode(edges: seq<Edge>, n: Id) {
    exists e :: e in edges && (e.originPointId.value == n || e.destinationPointId.value == n)
  }

  /** outdeg/indeg/outEdges/nodes after the tally loop. */
  datatype Tally = Tally(outdeg: map<Id, nat>, indeg: map<Id, nat>, outEdges: map<Id, seq<Edge>>, nodes: seq<Id>)

  function CountAt(m: map<Id, nat>, n: Id): nat {
    if n in m then m[n] else 0
  }

  function EdgesAt(m: map<Id, seq<Edge>>, n: Id): seq<Edge> {
    if n in m then m[n] else []
  }

  ghost predicate TalliedAt(edges: seq<Edge>, t: Tally, n: Id) {
    && CountAt(t.outdeg, n) == |Out(edges, n)|
    && CountAt(t.indeg, n) == |In(edges, n)|
    && EdgesAt(t.outEdges, n) == Out(edges, n)
    && (n in t.nodes <==> IsNode(edges, n))
  }

  ghost predicate Tallied(edges: seq<Edge>, t: Tally) {
    NoRepeat(t.nodes) && forall n {:trigger TalliedAt(edges, t, n)} :: TalliedAt(edges, t, n)
  }

  function WithNode(nodes: seq<Id>, n: Id): seq<Id> {
    if n in nodes then nodes else nodes + [n]
  }

  lemma OneMoreEdge(edges: seq<Edge>, e: Edge, n: Id)
    ensures Out(edges + [e], n) == if e.originPointId.value == n then Out(edges, n) + [e] else Out(edges, n)
    ensures In(edges + [e], n) == if e.destinationPointId.value == n then In(edges, n) + [e] else In(edges, n)
    ensures IsNode(edges + [e], n) <==> IsNode(edges, n) || e.originPointId.value == n || e.destinationPointId.value == n
  {
    assert (edges + [e])[..|edges|] == edges;
    assert forall f :: f in edges + [e] <==> f in edges || f == e;
  }

  function TallyEdge(t: Tally, e: Edge): Tally {
    var o, d := e.originPointId.value, e.destinationPointId.value;
    Tally(t.outdeg[o := CountAt(t.outdeg, o) + 1], t.indeg[d := CountAt(t.indeg, d) + 1],
          t.outEdges[o := EdgesAt(t.outEdges, o) + [e]], WithNode(WithNode(t.nodes, o), d))
  }

  lemma TallyOneMoreAt(edges: seq<Edge>, e: Edge, t: Tally, n: Id)
    requires TalliedAt(edges, t, n) && TalliedAt(edges, t, e.originPointId.value) && TalliedAt(edges, t, e.destinationPointId.value)
    ensures TalliedAt(edges + [e], TallyEdge(t, e), n)
  {
    OneMoreEdge(edges, e, n);
  }

  lemma TallyOneMore(edges: seq<Edge>, e: Edge, t: Tally)
    requires Tallied(edges, t)
    ensures Tallied(edges + [e], TallyEdge(t, e))
  {
    assert TalliedAt(edges, t, e.originPointId.value) && TalliedAt(edges, t, e.destinationPointId.value);
    forall n
      ensures TalliedAt(edges + [e], TallyEdge(t, e), n)
    {
      assert TalliedAt(edges, t, n);
      TallyOneMoreAt(edges, e, t, n);
    }
  }

  method TallyDegrees(edges: seq<Edge>) returns (t: Tally)
    ensures Tallied(edges, t)
  {
    t := Tally(map[], map[], map[], []);
    assert edges[..0] == [];
    assert forall n :: TalliedAt([], t, n);
    for i := 0 to |edges|
      invariant Tallied(edges[..i], t)
    {
      var e := edges[i];
      assert edges[..i + 1] == edges[..i] + [e];
      TallyOneMore(edges[..i], e, t);
      t := TallyEdge(t, e);
    }
    assert edges[..|edges|] == edges;
  }

  function Surplus(edges: seq<Edge>, n: Id): int {
    |Out(edges, n)| - |In(edges, n)|
  }

  /** The nodes with a given surplus of departures, in node order. */
  function WithSurplus(nodes: seq<Id>, edges: seq<Edge>, s: int): (r: seq<Id>)
    ensures forall n :: n in r <==> n in nodes && Surplus(edges, n) == s
  {
    if nodes == [] then []
    else
      var last := nodes[|nodes| - 1];
      var rest := WithSurplus(nodes[..|nodes| - 1], edges, s);
      assert forall n :: n in nodes <==> n in nodes[..|nodes| - 1] || n == last;
      if Surplus(edges, last) == s then rest + [last] else rest
  }

  predicate Unbalanced(edges: seq<Edge>, n: Id) {
    !(-1 <= Surplus(edges, n) <= 1)
  }

  ghost predicate SomeUnbalanced(nodes: seq<Id>, edges: seq<Edge>) {
    exists n :: n in nodes && Unbalanced(edges, n)
  }

  /** What R6's loop has sorted the first nodes into. */
  ghost predicate Balanced(nodes: seq<Id>, edges: seq<Edge>, sources: seq<Id>, sinks: seq<Id>, imbalanced: bool) {
    && sources == WithSurplus(nodes, edges, 1) && sinks == WithSurplus(nodes, edges, -1)
    && (imbalanced <==> SomeUnbalanced(nodes, edges))
  }

  lemma BalancedOneMore(nodes: seq<Id>, i: nat, edges: seq<Edge>, sources: seq<Id>, sinks: seq<Id>, imbalanced: bool)
    requires i < |nodes| && Balanced(nodes[..i], edges, sources, sinks, imbalanced)
    ensures Balanced(nodes[..i + 1], edges, if Surplus(edges, nodes[i]) == 1 then sources + [nodes[i]] else sources,
                     if Surplus(edges, nodes[i]) == -1 then sinks + [nodes[i]] else sinks,
                     imbalanced || Unbalanced(edges, nodes[i]))
  {
    assert nodes[..i + 1][..i] == nodes[..i];
    assert forall m :: m in nodes[..i + 1] <==> m in nodes[..i] || m == nodes[i];
  }

  lemma SurplusTallied(edges: seq<Edge>, t: Tally, n: Id)
    requires Tallied(edges, t)
    ensures CountAt(t.outdeg, n) - CountAt(t.indeg, n) == Surplus(edges, n)
  {
    assert TalliedAt(edges, t, n);
  }

  /** R6's classification of the nodes. */
  method Balance(edges: seq<Edge>, t: Tally) returns (sources: seq<Id>, sinks: seq<Id>, imbalanced: bool)
    requires Tallied(edges, t)
    ensures Balanced(t.nodes, edges, sources, sinks, imbalanced)
  {
    sources, sinks, imbalanced := [], [], false;
    for i := 0 to |t.nodes|
      invariant Balanced(t.nodes[..i], edges, sources, sinks, imbalanced)
    {
      var n := t.nodes[i];
      SurplusTallied(edges, t, n);
      BalancedOneMore(t.nodes, i, edges, sources, sinks, imbalanced);
      var di: int, dor: int := CountAt(t.indeg, n), CountAt(t.outdeg, n);
      if di != dor {
        if dor - di == 1 {
          sources := sources + [n];
        } else if di - dor == 1 {
          sinks := sinks + [n];
        } else {
          imbalanced := true;
        }
      }
    }
    assert t.nodes[..|t.nodes|] == t.nodes;
  }

  /** The points a run of legs passes, from the origin of its first leg. */
  function PathPoints(start: Id, legs: seq<Edge>): (points: seq<Id>)
    ensures |points| == |legs| + 1 && points[0] == start
    ensures forall i :: 0 <= i < |legs| ==> points[i + 1] == legs[i].destinationPointId.value
  {
    if legs == [] then [start]
    else PathPoints(start, legs[..|legs| - 1]) + [legs[|legs| - 1].destinationPointId.value]
  }

  /** Each leg departs where the one before it arrives. */
  ghost predicate Chained(start: Id, legs: seq<Edge>) {
    forall i :: 0 <= i < |legs| ==> legs[i].originPointId.value == PathPoints(start, legs)[i]
  }

  ghost predicate IsSimplePath(legs: seq<Edge>) {
    legs != [] && Chained(legs[0].originPointId.value, legs) && NoRepeat(PathPoints(legs[0].originPointId.value, legs))
  }

  /** The edges, in some order, are one directed path that repeats no point and uses each once. */
  ghost predicate FormsSimplePath(edges: seq<Edge>) {
    exists path :: multiset(path) == multiset(edges) && IsSimplePath(path)
  }

  predicate DepartsEarly(prev: RouteLeg, leg: RouteLeg) {
    prev.targetDelivery.Some? && leg.readyDate.Some? && leg.readyDate.value < prev.targetDelivery.value
  }

  /** T1: one finding per leg that departs before the previous leg of the chain arrives. */
  function LateConnections(walked: seq<Edge>, severity: Severity): seq<Finding> {
    if |walked| < 2 then []
    else
      var n := |walked| - 1;
      var rest := LateConnections(walked[..n], severity);
      if DepartsEarly(walked[n - 1], walked[n]) then rest + [Finding(T1, severity, LegScope(walked[n].id))] else rest
  }

  /** The walk so far: forced at every point, and never twice at the same one. */
  ghost predicate Walked(edges: seq<Edge>, start: Id, walked: seq<Edge>) {
    && Chained(start, walked)
    && (forall i :: 0 <= i < |walked| ==> Out(edges, walked[i].originPointId.value) == [walked[i]])
    && (forall i, j :: 0 <= i < j < |walked| ==> walked[i].originPointId != walked[j].originPointId)
  }

  ghost predicate VisitedIs(visited: set<Id>, walked: seq<Edge>) {
    forall n :: n in visited <==> exists i :: 0 <= i < |walked| && walked[i].originPointId.value == n
  }

  lemma {:induction false} DistinctMultiset<T>(s: seq<T>, x: T)
    requires forall i, j :: 0 <= i < j < |s| ==> s[i] != s[j]
    ensures multiset(s)[x] <= 1
  {
    if s != [] {
      var n := |s| - 1;
      DistinctMultiset(s[..n], x);
      assert s == s[..n] + [s[n]];
      if x == s[n] {
        assert x !in s[..n];
      }
    }
  }

  lemma SubMultiset<T>(a: multiset<T>, b: multiset<T>)
    requires a <= b
    ensures |a| <= |b| && (|a| == |b| ==> a == b)
  {
    assert b == a + (b - a);
  }

  /** A forced walk takes distinct edges, so it is no longer than the edge list; when it is as long,
      it has taken every edge. */
  lemma WalkFits(edges: seq<Edge>, start: Id, walked: seq<Edge>)
    requires Walked(edges, start, walked)
    ensures |walked| <= |edges|
    ensures |walked| == |edges| ==> multiset(walked) == multiset(edges)
  {
    forall e
      ensures multiset(walked)[e] <= multiset(edges)[e]
    {
      DistinctMultiset(walked, e);
      if e in walked {
        var i :| 0 <= i < |walked| && walked[i] == e;
        assert e in Out(edges, e.originPointId.value);
        assert e in edges;
      }
    }
    SubMultiset(multiset(walked), multiset(edges));
  }

  lemma OneMoreStep(edges: seq<Edge>, start: Id, walked: seq<Edge>, leg: Edge)
    requires Walked(edges, start, walked) && Out(edges, leg.originPointId.value) == [leg]
    requires leg.originPointId.value == PathPoints(start, walked)[|walked|]
    requires forall i :: 0 <= i < |walked| ==> walked[i].originPointId != leg.originPointId
    ensures Walked(edges, start, walked + [leg])
  {
    assert (walked + [leg])[..|walked|] == walked;
  }

  /** What the walk from `start` to `end` ends with. */
  datatype Stop = Arrived | Revisited | Forked

  ghost predicate WalkEnds(edges: seq<Edge>, start: Id, end: Id, walked: seq<Edge>, stop: Stop) {
    var cur := PathPoints(start, walked)[|walked|];
    && Walked(edges, start, walked)
    && (forall i :: 0 <= i < |walked| ==> walked[i].originPointId.value != end)
    && (stop.Arrived? <==> cur == end)
    && (stop.Revisited? ==> exists i :: 0 <= i < |walked| && walked[i].originPointId.value == cur)
    && (stop.Forked? ==> |Out(edges, cur)| != 1)
  }

  function StopFindings(stop: Stop, cargoId: Id, severity: Severity): seq<Finding> {
    match stop
    case Arrived => []
    case Revisited => [Finding(R4, severity, CargoScope(cargoId))]
    case Forked => [Finding(R1, severity, CargoScope(cargoId))]
  }

  /** What a walk reports, and how it came about. */
  ghost predicate IsWalkReport(edges: seq<Edge>, start: Id, end: Id, cargoId: Id, severity: Severity,
                               findings: seq<Finding>, steps: nat, broke: bool) {
    exists walked, stop ::
      && WalkEnds(edges, start, end, walked, stop) && steps == |walked| <= |edges|
      && findings == LateConnections(walked, severity) + StopFindings(stop, cargoId, severity)
      && (broke <==> !stop.Arrived?)
  }

  /** What holds at the head of the walk loop. */
  ghost predicate Walking(edges: seq<Edge>, start: Id, end: Id, walked: seq<Edge>, visited: set<Id>, cur: Id, prevLeg: Option<Edge>, steps: nat) {
    && Walked(edges, start, walked) && VisitedIs(visited, walked)
    && steps == |walked| && cur == PathPoints(start, walked)[|walked|]
    && prevLeg == (if walked == [] then None else Some(walked[|walked| - 1]))
    && (forall i :: 0 <= i < |walked| ==> walked[i].originPointId.value != end)
  }

  lemma StepForward(edges: seq<Edge>, start: Id, end: Id, walked: seq<Edge>, visited: set<Id>, cur: Id, prevLeg: Option<Edge>, steps: nat, leg: Edge)
    requires Walking(edges, start, end, walked, visited, cur, prevLeg, steps)
    requires cur != end && cur !in visited && Out(edges, cur) == [leg]
    ensures Walking(edges, start, end, walked + [leg], visited + {cur}, leg.destinationPointId.value, Some(leg), steps + 1)
    ensures steps + 1 <= |edges|
  {
    assert leg in Out(edges, cur);
    forall i | 0 <= i < |walked|
      ensures walked[i].originPointId != leg.originPointId
    {
      assert walked[i].originPointId.value in visited;
    }
    OneMoreStep(edges, start, walked, leg);
    WalkFits(edges, start, walked + [leg]);
    VisitedOneMore(visited, walked, leg);
  }

  lemma VisitedOneMore(visited: set<Id>, walked: seq<Edge>, leg: Edge)
    requires VisitedIs(visited, walked)
    ensures VisitedIs(visited + {leg.originPointId.value}, walked + [leg])
  {
    var walked' := walked + [leg];
    forall n
      ensures n in visited + {leg.originPointId.value} <==> exists i :: 0 <= i < |walked'| && walked'[i].originPointId.value == n
    {
      if n in visited {
        var i :| 0 <= i < |walked| && walked[i].originPointId.value == n;
        assert walked'[i].originPointId.value == n;
      }
      if n == leg.originPointId.value {
        assert walked'[|walked|].originPointId.value == n;
      }
    }
  }

  lemma ConnectionsOneMore(walked: seq<Edge>, leg: Edge, severity: Severity)
    ensures LateConnections(walked + [leg], severity)
         == LateConnections(walked, severity)
            + if walked != [] && DepartsEarly(walked[|walked| - 1], leg) then [Finding(T1, severity, LegScope(leg.id))] else []
  {
    assert (walked + [leg])[..|walked|] == walked;
  }

  lemma WalkStops(edges: seq<Edge>, start: Id, end: Id, walked: seq<Edge>, visited: set<Id>, cur: Id, prevLeg: Option<Edge>, steps: nat, stop: Stop)
    requires Walking(edges, start, end, walked, visited, cur, prevLeg, steps)
    requires if cur == end then stop.Arrived? else if cur in visited then stop.Revisited? else stop.Forked? && |Out(edges, cur)| != 1
    ensures WalkEnds(edges, start, end, walked, stop)
  {
  }

  /** The guarded walk. It always ends, and takes at most |edges| steps: the last guard, against walks
      of more than |edges| steps, never fires. */
  method WalkChain(edges: seq<Edge>, t: Tally, start: Id, end: Id, cargoId: Id, severity: Severity)
    returns (findings: seq<Finding>, steps: nat, broke: bool, ghost walked: seq<Edge>, ghost stop: Stop)
    requires Tallied(edges, t)
    ensures WalkEnds(edges, start, end, walked, stop) && steps == |walked| <= |edges|
    ensures findings == LateConnections(walked, severity) + StopFindings(stop, cargoId, severity)
    ensures broke <==> !stop.Arrived?
    ensures IsWalkReport(edges, start, end, cargoId, severity, findings, steps, broke)
  {
    findings, steps, broke, walked, stop := [], 0, false, [], Arrived;
    var visited: set<Id> := {};
    var cur := start;
    var prevLeg: Option<Edge> := None;
    while cur != end
      invariant Walking(edges, start, end, walked, visited, cur, prevLeg, steps)
      invariant findings == LateConnections(walked, severity)
      invariant steps <= |edges| && !broke && stop.Arrived?
      decreases |edges| - steps
    {
      if cur in visited {
        findings := findings + [Finding(R4, severity, CargoScope(cargoId))];
        broke, stop := true, Revisited;
        WalkStops(edges, start, end, walked, visited, cur, prevLeg, steps, stop);
        return;
      }
      ghost var before := visited;
      visited := visited + {cur};
      var outs := EdgesAt(t.outEdges, cur);
      assert TalliedAt(edges, t, cur);
      if |outs| != 1 {
        findings := findings + [Finding(R1, severity, CargoScope(cargoId))];
        broke, stop := true, Forked;
        WalkStops(edges, start, end, walked, before, cur, prevLeg, steps, stop);
        return;
      }
      var leg := outs[0];
      StepForward(edges, start, end, walked, before, cur, prevLeg, steps, leg);
      ConnectionsOneMore(walked, leg, severity);
      if prevLeg.Some? {
        if DepartsEarly(prevLeg.value, leg) {
          findings := findings + [Finding(T1, severity, LegScope(leg.id))];
        }
      }
      prevLeg, walked := Some(leg), walked + [leg];
      cur := leg.destinationPointId.value;
      steps := steps + 1;
      if steps > |edges| {
        assert false;
      }
    }
    WalkStops(edges, start, end, walked, visited, cur, prevLeg, steps, stop);
  }
}
