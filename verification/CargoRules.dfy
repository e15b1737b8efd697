/** packages/shared/src/route.ts: validateRoute's loop over the cargo rows. */
module CargoRules {
  import opened Wrappers
  import opened Graph
  import opened CargoChain
  import opened CargoChainProof
  import opened CargoFindings

  datatype Phase = Draft | Create {
    /** Route findings block at create and only warn on a draft. */
    function Severity(): CargoChain.Severity {
      if Create? then Blocking else Warning
    }
  }

  datatype Cargo = Cargo(id: Id, isDangerous: bool, msdsFileId: Option<Id>)

  datatype LegCargo = LegCargo(legId: Id, cargoItemId: Id)

  /** R2: a chain may start anywhere but at a delivery point. */
  function StartFindings(start: Id, pointById: map<Id, PointType>, cargoId: Id, severity: Severity): seq<Finding> {
    if AtDelivery(start, pointById) then [Finding(R2, severity, CargoScope(cargoId))] else []
  }

  lemma {:induction false} ConnectionsAreT1(walked: seq<Edge>, severity: Severity)
    ensures forall f :: f in LateConnections(walked, severity) ==> f.rule == T1 && f.scope.LegScope?
  {
    if |walked| >= 2 {
      ConnectionsAreT1(walked[..|walked| - 1], severity);
    }
  }

  /** A simple path has one source, one sink and no unbalanced point. */
  lemma PathIsBalanced(edges: seq<Edge>, t: Tally, sources: seq<Id>, sinks: seq<Id>, imbalanced: bool, path: seq<Edge>)
    requires Tallied(edges, t) && Balanced(t.nodes, edges, sources, sinks, imbalanced)
    requires multiset(path) == multiset(edges) && IsSimplePath(path)
    ensures sources == [path[0].originPointId.value] && !imbalanced
    ensures sinks == [PathPoints(path[0].originPointId.value, path)[|path|]]
  {
    forall n
      ensures n in t.nodes <==> IsNode(edges, n)
    {
      assert TalliedAt(edges, t, n);
    }
    PathBalance(edges, t.nodes, path[0].originPointId.value, path);
  }

  /** The walk of a simple path arrives and yields the path. */
  lemma PathWalk(edges: seq<Edge>, walked: seq<Edge>, stop: Stop, path: seq<Edge>)
    requires multiset(path) == multiset(edges) && IsSimplePath(path)
    requires WalkEnds(edges, path[0].originPointId.value, PathPoints(path[0].originPointId.value, path)[|path|], walked, stop)
    ensures stop.Arrived? && walked == path && |walked| == |edges|
  {
    WalkTakesPath(edges, path[0].originPointId.value, path, walked, stop);
    assert |multiset(path)| == |path| && |multiset(edges)| == |edges|;
  }

  /** What the rules say when the complete legs are the given path: only where it starts and which
      connections it misses. */
  ghost predicate ReportsOnPath(findings: seq<Finding>, edges: seq<Edge>, pointById: map<Id, PointType>, cargoId: Id, severity: Severity) {
    forall path: seq<Edge> :: multiset(path) == multiset(edges) && IsSimplePath(path)
      ==> findings == StartFindings(path[0].originPointId.value, pointById, cargoId, severity) + LateConnections(path, severity)
  }

  /** Findings about a cargo row name that row, and chain findings are always about the row. */
  ghost predicate ScopedTo(findings: seq<Finding>, cargoId: Id) {
    forall f :: f in findings ==> (f.scope.CargoScope? ==> f.scope.cargoId == cargoId) && (IsChainRule(f.rule) ==> f.scope.CargoScope?)
  }

  ghost predicate HasRule(findings: seq<Finding>, rule: Rule) {
    exists f :: f in findings && f.rule == rule
  }

  /** The chain rules are right about the edges, and on a simple path report only R2 and T1. */
  ghost predicate ChainChecked(findings: seq<Finding>, edges: seq<Edge>, pointById: map<Id, PointType>, cargoId: Id, severity: Severity) {
    && (HasChainFinding(findings) <==> !FormsSimplePath(edges))
    && ReportsOnPath(findings, edges, pointById, cargoId, severity)
    && ScopedTo(findings, cargoId) && !HasRule(findings, R9)
  }

  lemma SplitPath(edges: seq<Edge>, t: Tally, sources: seq<Id>, sinks: seq<Id>, imbalanced: bool)
    requires Tallied(edges, t) && Balanced(t.nodes, edges, sources, sinks, imbalanced)
    requires imbalanced || |sources| != 1 || |sinks| != 1
    ensures !FormsSimplePath(edges)
  {
    forall path: seq<Edge> | multiset(path) == multiset(edges)
      ensures !IsSimplePath(path)
    {
      if IsSimplePath(path) {
        PathIsBalanced(edges, t, sources, sinks, imbalanced, path);
      }
    }
  }

  /** After the walk: how R1, R4, R6 and C2 relate to simple paths. */
  lemma WalkDecides(edges: seq<Edge>, t: Tally, start: Id, end: Id, imbalanced: bool, walked: seq<Edge>, stop: Stop)
    requires edges != [] && Tallied(edges, t) && Balanced(t.nodes, edges, [start], [end], imbalanced)
    requires WalkEnds(edges, start, end, walked, stop)
    ensures FormsSimplePath(edges) <==> !imbalanced && stop.Arrived? && |walked| == |edges|
    ensures forall path: seq<Edge> :: multiset(path) == multiset(edges) && IsSimplePath(path)
              ==> path == walked && path[0].originPointId.value == start
  {
    forall path: seq<Edge> | multiset(path) == multiset(edges) && IsSimplePath(path)
      ensures path == walked && path[0].originPointId.value == start
      ensures !imbalanced && stop.Arrived? && |walked| == |edges|
    {
      PathIsBalanced(edges, t, [start], [end], imbalanced, path);
      PathWalk(edges, walked, stop, path);
    }
    if !imbalanced && stop.Arrived? && |walked| == |edges| {
      ArrivalIsPath(edges, start, end, walked);
    }
  }

  /** The chain rules for one cargo row with at least one complete leg. They find nothing against the
      chain exactly when the complete legs form one simple directed path; and they report exactly what
      the rules call for. */
  method CheckChain(edges: seq<Edge>, pointById: map<Id, PointType>, cargoId: Id, severity: Severity) returns (findings: seq<Finding>)
    requires edges != []
    ensures ChainChecked(findings, edges, pointById, cargoId, severity)
    ensures AsCalledFor(findings, edges, pointById, cargoId, severity)
  {
    var t := TallyDegrees(edges);
    var sources, sinks, imbalanced := Balance(edges, t);
    findings := PlusIf([], imbalanced, Finding(R6, severity, CargoScope(cargoId)));
    if |sources| != 1 || |sinks| != 1 {
      findings := findings + [Finding(R1, severity, CargoScope(cargoId))];
      SplitVerdict(findings, edges, t, sources, sinks, imbalanced, pointById, cargoId, severity);
      SplitAsCalledFor(findings, edges, t, imbalanced, pointById, cargoId, severity);
      return;
    }
    var start, end := sources[0], sinks[0];
    assert sources == [start] && sinks == [end];
    ghost var walked, stop;
    findings, walked, stop := CheckWalk(edges, t, start, end, imbalanced, findings, pointById, cargoId, severity);
    ChainVerdict(findings, edges, t, start, end, imbalanced, pointById, walked, stop, cargoId, severity);
    WalkAsCalledFor(findings, edges, t, start, end, imbalanced, pointById, walked, stop, cargoId, severity);
  }

  /** R2, the walk, and C2, once there is one source and one sink. */
  method CheckWalk(edges: seq<Edge>, t: Tally, start: Id, end: Id, ghost imbalanced: bool, findings0: seq<Finding>,
                   pointById: map<Id, PointType>, cargoId: Id, severity: Severity)
    returns (findings: seq<Finding>, ghost walked: seq<Edge>, ghost stop: Stop)
    requires Tallied(edges, t)
    requires findings0 == PlusIf([], imbalanced, Finding(R6, severity, CargoScope(cargoId)))
    ensures WalkEnds(edges, start, end, walked, stop)
    ensures findings == Assembled(imbalanced, start, pointById, walked, stop, |edges|, cargoId, severity)
  {
    findings := findings0;
    if AtDelivery(start, pointById) {
      findings := findings + [Finding(R2, severity, CargoScope(cargoId))];
    }
    var onWalk, steps, broke;
    onWalk, steps, broke, walked, stop := WalkChain(edges, t, start, end, cargoId, severity);
    findings := findings + onWalk;
    if !broke && steps != |edges| {
      findings := findings + [Finding(C2, severity, CargoScope(cargoId))];
    }
  }

  lemma SplitVerdict(findings: seq<Finding>, edges: seq<Edge>, t: Tally, sources: seq<Id>, sinks: seq<Id>, imbalanced: bool,
                     pointById: map<Id, PointType>, cargoId: Id, severity: Severity)
    requires Tallied(edges, t) && Balanced(t.nodes, edges, sources, sinks, imbalanced)
    requires |sources| != 1 || |sinks| != 1
    requires findings == PlusIf([], imbalanced, Finding(R6, severity, CargoScope(cargoId))) + [Finding(R1, severity, CargoScope(cargoId))]
    ensures ChainChecked(findings, edges, pointById, cargoId, severity)
  {
    var r6, r1 := Finding(R6, severity, CargoScope(cargoId)), Finding(R1, severity, CargoScope(cargoId));
    SaysPlus([], imbalanced, r6, cargoId, false);
    SaysOne(r1, cargoId);
    SaysBoth(PlusIf([], imbalanced, r6), [r1], cargoId, imbalanced, true);
    SplitPath(edges, t, sources, sinks, imbalanced);
  }

  lemma ChainVerdict(findings: seq<Finding>, edges: seq<Edge>, t: Tally, start: Id, end: Id, imbalanced: bool,
                     pointById: map<Id, PointType>, walked: seq<Edge>, stop: Stop, cargoId: Id, severity: Severity)
    requires edges != [] && Tallied(edges, t) && Balanced(t.nodes, edges, [start], [end], imbalanced)
    requires WalkEnds(edges, start, end, walked, stop)
    requires findings == Assembled(imbalanced, start, pointById, walked, stop, |edges|, cargoId, severity)
    ensures ChainChecked(findings, edges, pointById, cargoId, severity)
  {
    WalkDecides(edges, t, start, end, imbalanced, walked, stop);
    FindingsDecide(findings, imbalanced, start, pointById, walked, stop, |edges|, cargoId, severity);
    if FormsSimplePath(edges) {
      AssembledOnPath(start, pointById, walked, cargoId, severity);
    }
  }

  lemma AssembledOnPath(start: Id, pointById: map<Id, PointType>, walked: seq<Edge>, cargoId: Id, severity: Severity)
    ensures Assembled(false, start, pointById, walked, Arrived, |walked|, cargoId, severity)
         == StartFindings(start, pointById, cargoId, severity) + LateConnections(walked, severity)
  {
  }

  /** What a list of findings says about one cargo row's chain. */
  ghost predicate Says(findings: seq<Finding>, cargoId: Id, chainBroken: bool) {
    ScopedTo(findings, cargoId) && !HasRule(findings, R9) && (HasChainFinding(findings) <==> chainBroken)
  }

  lemma SaysBoth(a: seq<Finding>, b: seq<Finding>, cargoId: Id, brokenA: bool, brokenB: bool)
    requires Says(a, cargoId, brokenA) && Says(b, cargoId, brokenB)
    ensures Says(a + b, cargoId, brokenA || brokenB)
  {
    assert forall f :: f in a + b <==> f in a || f in b;
  }

  lemma SaysOne(f: Finding, cargoId: Id)
    requires f.scope == CargoScope(cargoId) && f.rule != R9
    ensures Says([f], cargoId, IsChainRule(f.rule))
  {
    assert f in [f];
  }

  lemma SaysPlus(findings: seq<Finding>, cond: bool, f: Finding, cargoId: Id, broken: bool)
    requires Says(findings, cargoId, broken) && f.scope == CargoScope(cargoId) && f.rule != R9
    ensures Says(PlusIf(findings, cond, f), cargoId, broken || (cond && IsChainRule(f.rule)))
  {
    if cond {
      SaysOne(f, cargoId);
      SaysBoth(findings, [f], cargoId, broken, IsChainRule(f.rule));
    }
  }

  lemma FindingsDecide(findings: seq<Finding>, imbalanced: bool, start: Id, pointById: map<Id, PointType>, walked: seq<Edge>, stop: Stop,
                       edgeCount: nat, cargoId: Id, severity: Severity)
    requires findings == Assembled(imbalanced, start, pointById, walked, stop, edgeCount, cargoId, severity)
    ensures Says(findings, cargoId, imbalanced || !stop.Arrived? || |walked| != edgeCount)
  {
    var r6, r2 := Finding(R6, severity, CargoScope(cargoId)), Finding(R2, severity, CargoScope(cargoId));
    SaysPlus([], imbalanced, r6, cargoId, false);
    SaysPlus(PlusIf([], imbalanced, r6), AtDelivery(start, pointById), r2, cargoId, imbalanced);
    var before := BeforeWalk(imbalanced, start, pointById, cargoId, severity);
    var late, last := LateConnections(walked, severity), StopFindings(stop, cargoId, severity);
    ConnectionsAreT1(walked, severity);
    if !stop.Arrived? {
      SaysOne(last[0], cargoId);
    }
    SaysBoth(late, last, cargoId, false, !stop.Arrived?);
    SaysBoth(before, late + last, cargoId, imbalanced, !stop.Arrived?);
    SaysPlus(before + (late + last), stop.Arrived? && |walked| != edgeCount, Finding(C2, severity, CargoScope(cargoId)),
             cargoId, imbalanced || !stop.Arrived?);
  }

  /** The legs a cargo rides on, from the join rows. */
  function LegIdsOf(legCargo: seq<LegCargo>, cargoId: Id): (ids: seq<Id>)
    ensures forall id :: multiset(ids)[id] == multiset(legCargo)[LegCargo(id, cargoId)]
  {
    if legCargo == [] then []
    else
      assert legCargo == legCargo[..|legCargo| - 1] + [legCargo[|legCargo| - 1]];
      var last := legCargo[|legCargo| - 1];
      var rest := LegIdsOf(legCargo[..|legCargo| - 1], cargoId);
      if last.cargoItemId == cargoId then rest + [last.legId] else rest
  }

  /** The rows that assign two of the legs come in the legs' order. */
  ghost predicate AssignedBefore(legCargo: seq<LegCargo>, cargoId: Id, a: Id, b: Id) {
    exists x, y :: 0 <= x < y < |legCargo| && legCargo[x] == LegCargo(a, cargoId) && legCargo[y] == LegCargo(b, cargoId)
  }

  lemma {:induction false} AssignedInOrder(legCargo: seq<LegCargo>, cargoId: Id, p: nat, q: nat)
    requires p < q < |LegIdsOf(legCargo, cargoId)|
    ensures AssignedBefore(legCargo, cargoId, LegIdsOf(legCargo, cargoId)[p], LegIdsOf(legCargo, cargoId)[q])
  {
    var n := |legCargo| - 1;
    var rest := LegIdsOf(legCargo[..n], cargoId);
    if q < |rest| {
      AssignedInOrder(legCargo[..n], cargoId, p, q);
      var x, y :| 0 <= x < y < n && legCargo[..n][x] == LegCargo(rest[p], cargoId) && legCargo[..n][y] == LegCargo(rest[q], cargoId);
      assert legCargo[x] == LegCargo(rest[p], cargoId) && legCargo[y] == LegCargo(rest[q], cargoId);
    } else {
      assert rest[p] in multiset(rest) && LegCargo(rest[p], cargoId) in multiset(legCargo[..n]);
      var x :| 0 <= x < n && legCargo[..n][x] == LegCargo(rest[p], cargoId);
      assert legCargo[x] == LegCargo(rest[p], cargoId) && legCargo[n] == LegCargo(LegIdsOf(legCargo, cargoId)[q], cargoId);
    }
  }

  /** The last leg of its id, which a map built from the list keeps. */
  ghost predicate IsLatest(legs: seq<RouteLeg>, leg: RouteLeg) {
    exists i :: 0 <= i < |legs| && legs[i] == leg && forall j :: i < j < |legs| ==> legs[j].id != leg.id
  }

  function IndexLegs(legs: seq<RouteLeg>): map<Id, RouteLeg> {
    if legs == [] then map[] else IndexLegs(legs[..|legs| - 1])[legs[|legs| - 1].id := legs[|legs| - 1]]
  }

  lemma {:induction false} IndexHolds(legs: seq<RouteLeg>, id: Id)
    ensures id in IndexLegs(legs) <==> exists l :: l in legs && l.id == id
    ensures id in IndexLegs(legs) ==> IndexLegs(legs)[id].id == id && IsLatest(legs, IndexLegs(legs)[id])
  {
    if legs != [] {
      var n := |legs| - 1;
      IndexHolds(legs[..n], id);
      assert forall l :: l in legs <==> l in legs[..n] || l == legs[n];
      if id != legs[n].id && id in IndexLegs(legs) {
        StaysLatest(legs, IndexLegs(legs)[id]);
      }
    }
  }

  lemma StaysLatest(legs: seq<RouteLeg>, leg: RouteLeg)
    requires legs != [] && IsLatest(legs[..|legs| - 1], leg) && leg.id != legs[|legs| - 1].id
    ensures IsLatest(legs, leg)
  {
    var n := |legs| - 1;
    var i :| 0 <= i < n && legs[..n][i] == leg && forall j :: i < j < n ==> legs[..n][j].id != leg.id;
    assert forall j :: 0 <= j < n ==> legs[j] == legs[..n][j];
  }

  /** The looked-up legs, dropping ids that name no leg. */
  function CarryingLegs(ids: seq<Id>, legById: map<Id, RouteLeg>): seq<RouteLeg> {
    if ids == [] then []
    else
      var n := |ids| - 1;
      var rest := CarryingLegs(ids[..n], legById);
      if ids[n] in legById then rest + [legById[ids[n]]] else rest
  }

  lemma {:induction false} CarryingCount(ids: seq<Id>, legById: map<Id, RouteLeg>, l: RouteLeg)
    requires forall id :: id in legById ==> legById[id].id == id
    ensures multiset(CarryingLegs(ids, legById))[l] == if l.id in legById && legById[l.id] == l then multiset(ids)[l.id] else 0
  {
    if ids != [] {
      var n := |ids| - 1;
      CarryingCount(ids[..n], legById, l);
      assert ids == ids[..n] + [ids[n]];
    }
  }

  /** The legs that have both ends. */
  function CompleteLegs(legs: seq<RouteLeg>): (edges: seq<Edge>)
    ensures forall l: RouteLeg :: l.Complete() ==> multiset(edges)[l] == multiset(legs)[l]
  {
    if legs == [] then []
    else
      var n := |legs| - 1;
      assert legs == legs[..n] + [legs[n]];
      var rest := CompleteLegs(legs[..n]);
      if legs[n].Complete() then rest + [legs[n]] else rest
  }

  /** The complete legs that carry a cargo row. */
  function EdgesOf(c: Cargo, legs: seq<RouteLeg>, legCargo: seq<LegCargo>): seq<Edge> {
    CompleteLegs(CarryingLegs(LegIdsOf(legCargo, c.id), IndexLegs(legs)))
  }

  lemma LatestIsIndexed(legs: seq<RouteLeg>, leg: RouteLeg)
    ensures IsLatest(legs, leg) <==> leg.id in IndexLegs(legs) && IndexLegs(legs)[leg.id] == leg
  {
    IndexHolds(legs, leg.id);
    if IsLatest(legs, leg) {
      var i :| 0 <= i < |legs| && legs[i] == leg && forall j :: i < j < |legs| ==> legs[j].id != leg.id;
      assert legs[i] in legs;
      var found := IndexLegs(legs)[leg.id];
      var k :| 0 <= k < |legs| && legs[k] == found && forall j :: k < j < |legs| ==> legs[j].id != found.id;
    }
  }

  /** A leg with both ends is among the row's, as often as it is assigned to the row. */
  lemma CarryingLegCount(c: Cargo, legs: seq<RouteLeg>, legCargo: seq<LegCargo>, l: RouteLeg)
    ensures multiset(CarryingLegs(LegIdsOf(legCargo, c.id), IndexLegs(legs)))[l]
         == if IsLatest(legs, l) then multiset(legCargo)[LegCargo(l.id, c.id)] else 0
    ensures l.Complete()
        ==> multiset(EdgesOf(c, legs, legCargo))[l] == if IsLatest(legs, l) then multiset(legCargo)[LegCargo(l.id, c.id)] else 0
  {
    LatestIsIndexed(legs, l);
    forall id
      ensures id in IndexLegs(legs) ==> IndexLegs(legs)[id].id == id
    {
      IndexHolds(legs, id);
    }
    CarryingCount(LegIdsOf(legCargo, c.id), IndexLegs(legs), l);
  }

  function IdsAt(m: map<Id, seq<Id>>, id: Id): seq<Id> {
    if id in m then m[id] else []
  }

  method LegsByCargo(legCargo: seq<LegCargo>) returns (m: map<Id, seq<Id>>)
    ensures forall id :: IdsAt(m, id) == LegIdsOf(legCargo, id)
  {
    m := map[];
    for i := 0 to |legCargo|
      invariant forall id :: IdsAt(m, id) == LegIdsOf(legCargo[..i], id)
    {
      var lc := legCargo[i];
      assert legCargo[..i + 1][..i] == legCargo[..i];
      m := m[lc.cargoItemId := IdsAt(m, lc.cargoItemId) + [lc.legId]];
    }
    assert legCargo[..|legCargo|] == legCargo;
  }

  /** R9: dangerous goods without a safety sheet, once per carrying leg. */
  method CheckDangerous(legs: seq<RouteLeg>, severity: Severity) returns (findings: seq<Finding>)
    ensures |findings| == |legs| && forall i :: 0 <= i < |legs| ==> findings[i] == Finding(R9, severity, LegScope(legs[i].id))
  {
    findings := [];
    for i := 0 to |legs|
      invariant |findings| == i && forall j :: 0 <= j < i ==> findings[j] == Finding(R9, severity, LegScope(legs[j].id))
    {
      findings := findings + [Finding(R9, severity, LegScope(legs[i].id))];
    }
  }

  /** R9 is called for at every leg that carries the row, if the row needs a sheet it does not have. */
  ghost predicate NeedsSheet(c: Cargo, carrying: seq<RouteLeg>, scope: Scope) {
    c.isDangerous && c.msdsFileId == None && scope.LegScope? && exists l :: l in carrying && l.id == scope.legId
  }

  /** What the rules call for on one row, given the legs that carry it. */
  ghost predicate RowCallsFor(c: Cargo, carrying: seq<RouteLeg>, pointById: map<Id, PointType>, rule: Rule, scope: Scope) {
    || (rule == R9 && NeedsSheet(c, carrying, scope))
    || (CompleteLegs(carrying) != [] && CallsFor(CompleteLegs(carrying), pointById, c.id, rule, scope))
  }

  ghost predicate RowAsCalledFor(findings: seq<Finding>, c: Cargo, carrying: seq<RouteLeg>, pointById: map<Id, PointType>, severity: Severity) {
    forall f :: f in findings <==> f.severity == severity && RowCallsFor(c, carrying, pointById, f.rule, f.scope)
  }

  /** The R9 findings of a row, before its chain is looked at. */
  ghost predicate DangerChecked(dangerous: seq<Finding>, c: Cargo, carrying: seq<RouteLeg>, severity: Severity) {
    && (forall f :: f in dangerous <==> f.severity == severity && f.rule == R9 && NeedsSheet(c, carrying, f.scope))
    && (dangerous != [] <==> c.isDangerous && c.msdsFileId.None? && carrying != [])
  }

  lemma DangerFound(dangerous: seq<Finding>, c: Cargo, carrying: seq<RouteLeg>, severity: Severity)
    requires c.isDangerous && c.msdsFileId.None? && carrying != [] && |dangerous| == |carrying|
    requires forall i :: 0 <= i < |carrying| ==> dangerous[i] == Finding(R9, severity, LegScope(carrying[i].id))
    ensures DangerChecked(dangerous, c, carrying, severity)
  {
    forall f
      ensures f in dangerous <==> f.severity == severity && f.rule == R9 && NeedsSheet(c, carrying, f.scope)
    {
      if f.severity == severity && f.rule == R9 && NeedsSheet(c, carrying, f.scope) {
        var l :| l in carrying && l.id == f.scope.legId;
        var i :| 0 <= i < |carrying| && carrying[i] == l;
        assert dangerous[i] == f;
      }
    }
  }

  /** One row: blamed under a chain rule, or not, and under R9, or not. */
  ghost predicate RowChecked(findings: seq<Finding>, c: Cargo, carrying: seq<RouteLeg>) {
    && (HasChainFinding(findings) <==> CompleteLegs(carrying) != [] && !FormsSimplePath(CompleteLegs(carrying)))
    && ScopedTo(findings, c.id)
    && (HasRule(findings, R9) <==> c.isDangerous && c.msdsFileId.None? && carrying != [])
  }

  lemma DangerAlone(dangerous: seq<Finding>, c: Cargo, carrying: seq<RouteLeg>, pointById: map<Id, PointType>, severity: Severity)
    requires DangerChecked(dangerous, c, carrying, severity) && CompleteLegs(carrying) == []
    ensures RowChecked(dangerous, c, carrying) && RowAsCalledFor(dangerous, c, carrying, pointById, severity)
  {
    if dangerous != [] {
      assert dangerous[0] in dangerous;
    }
  }

  lemma AppendSays(dangerous: seq<Finding>, onChain: seq<Finding>, cargoId: Id, broken: bool)
    requires (forall f :: f in dangerous ==> f.rule == R9 && f.scope.LegScope?) && Says(onChain, cargoId, broken)
    ensures ScopedTo(dangerous + onChain, cargoId) && (HasChainFinding(dangerous + onChain) <==> broken)
    ensures HasRule(dangerous + onChain, R9) <==> dangerous != []
  {
    if dangerous != [] {
      assert dangerous[0] in dangerous + onChain;
    }
    assert forall f :: f in dangerous + onChain <==> f in dangerous || f in onChain;
  }

  lemma AppendChain(dangerous: seq<Finding>, onChain: seq<Finding>, c: Cargo, carrying: seq<RouteLeg>, severity: Severity)
    requires DangerChecked(dangerous, c, carrying, severity) && CompleteLegs(carrying) != []
    requires Says(onChain, c.id, !FormsSimplePath(CompleteLegs(carrying)))
    ensures RowChecked(dangerous + onChain, c, carrying)
  {
    AppendSays(dangerous, onChain, c.id, !FormsSimplePath(CompleteLegs(carrying)));
  }

  lemma AppendCalledFor(dangerous: seq<Finding>, onChain: seq<Finding>, c: Cargo, carrying: seq<RouteLeg>,
                        pointById: map<Id, PointType>, severity: Severity)
    requires DangerChecked(dangerous, c, carrying, severity) && CompleteLegs(carrying) != []
    requires AsCalledFor(onChain, CompleteLegs(carrying), pointById, c.id, severity)
    ensures RowAsCalledFor(dangerous + onChain, c, carrying, pointById, severity)
  {
    assert forall f :: f in dangerous + onChain <==> f in dangerous || f in onChain;
  }

  /** The body of the loop over the cargo rows. */
  method CheckCargo(c: Cargo, legIds: seq<Id>, legById: map<Id, RouteLeg>, pointById: map<Id, PointType>, severity: Severity)
    returns (findings: seq<Finding>)
    ensures RowChecked(findings, c, CarryingLegs(legIds, legById))
    ensures RowAsCalledFor(findings, c, CarryingLegs(legIds, legById), pointById, severity)
  {
    findings := [];
    var legs := CarryingLegs(legIds, legById);
    if |legs| == 0 {
      DangerAlone([], c, legs, pointById, severity);
      return;
    }
    if c.isDangerous && c.msdsFileId.None? {
      findings := CheckDangerous(legs, severity);
      DangerFound(findings, c, legs, severity);
    }
    var edges := CompleteLegs(legs);
    if |edges| == 0 {
      DangerAlone(findings, c, legs, pointById, severity);
      return;
    }
    var onChain := CheckChain(edges, pointById, c.id, severity);
    AppendChain(findings, onChain, c, legs, severity);
    AppendCalledFor(findings, onChain, c, legs, pointById, severity);
    findings := findings + onChain;
  }

  /** The findings of one cargo row among those of all rows. */
  ghost predicate BlamesChain(findings: seq<Finding>, cargoId: Id) {
    exists f :: f in findings && IsChainRule(f.rule) && f.scope == CargoScope(cargoId)
  }

  lemma BlameOneMore(findings: seq<Finding>, more: seq<Finding>, moreId: Id, cargoId: Id)
    requires ScopedTo(more, moreId)
    ensures BlamesChain(findings + more, cargoId)
        <==> BlamesChain(findings, cargoId) || (cargoId == moreId && HasChainFinding(more))
  {
    assert forall f :: f in findings + more <==> f in findings || f in more;
  }

  ghost predicate Verdict(c: Cargo, legs: seq<RouteLeg>, legCargo: seq<LegCargo>, findings: seq<Finding>) {
    BlamesChain(findings, c.id) <==> EdgesOf(c, legs, legCargo) != [] && !FormsSimplePath(EdgesOf(c, legs, legCargo))
  }

  /** What the rules call for on one row of a query: R9 at the legs it is assigned to, and the chain
      findings of its complete legs. */
  ghost predicate CargoCallsFor(c: Cargo, legs: seq<RouteLeg>, legCargo: seq<LegCargo>, pointById: map<Id, PointType>, rule: Rule, scope: Scope) {
    || (rule == R9 && c.isDangerous && c.msdsFileId == None && scope.LegScope?
        && LegCargo(scope.legId, c.id) in legCargo && exists l :: l in legs && l.id == scope.legId)
    || (EdgesOf(c, legs, legCargo) != [] && CallsFor(EdgesOf(c, legs, legCargo), pointById, c.id, rule, scope))
  }

  lemma SheetNeeded(c: Cargo, legs: seq<RouteLeg>, legCargo: seq<LegCargo>, legId: Id)
    ensures (exists l :: l in CarryingLegs(LegIdsOf(legCargo, c.id), IndexLegs(legs)) && l.id == legId)
       <==> LegCargo(legId, c.id) in legCargo && exists l :: l in legs && l.id == legId
  {
    var carrying := CarryingLegs(LegIdsOf(legCargo, c.id), IndexLegs(legs));
    forall l: RouteLeg | l.id == legId
      ensures l in carrying <==> IsLatest(legs, l) && LegCargo(legId, c.id) in legCargo
    {
      CarryingLegCount(c, legs, legCargo, l);
      assert l in carrying <==> multiset(carrying)[l] > 0;
    }
    IndexHolds(legs, legId);
    if l :| l in legs && l.id == legId {
      LatestIsIndexed(legs, IndexLegs(legs)[legId]);
    }
  }

  lemma RowIsCargo(c: Cargo, legs: seq<RouteLeg>, legCargo: seq<LegCargo>, pointById: map<Id, PointType>, rule: Rule, scope: Scope)
    ensures RowCallsFor(c, CarryingLegs(LegIdsOf(legCargo, c.id), IndexLegs(legs)), pointById, rule, scope)
       <==> CargoCallsFor(c, legs, legCargo, pointById, rule, scope)
  {
    if scope.LegScope? {
      SheetNeeded(c, legs, legCargo, scope.legId);
    }
  }

  /** Exactly what the rules call for on some of the rows: blocking when the query is being created,
      warnings while it is a draft. */
  ghost predicate ReportsRows(findings: seq<Finding>, cargo: seq<Cargo>, legs: seq<RouteLeg>, legCargo: seq<LegCargo>,
                              pointById: map<Id, PointType>, phase: Phase) {
    forall f :: f in findings
      <==> f.severity == (match phase case Create => Blocking case Draft => Warning)
           && exists c :: c in cargo && CargoCallsFor(c, legs, legCargo, pointById, f.rule, f.scope)
  }

  lemma ReportOneMore(findings: seq<Finding>, more: seq<Finding>, cargo: seq<Cargo>, c: Cargo, legs: seq<RouteLeg>,
                      legCargo: seq<LegCargo>, pointById: map<Id, PointType>, phase: Phase)
    requires ReportsRows(findings, cargo, legs, legCargo, pointById, phase)
    requires RowAsCalledFor(more, c, CarryingLegs(LegIdsOf(legCargo, c.id), IndexLegs(legs)), pointById, phase.Severity())
    ensures ReportsRows(findings + more, cargo + [c], legs, legCargo, pointById, phase)
  {
    forall f
      ensures f in findings + more
         <==> f.severity == (match phase case Create => Blocking case Draft => Warning)
              && exists d :: d in cargo + [c] && CargoCallsFor(d, legs, legCargo, pointById, f.rule, f.scope)
    {
      RowIsCargo(c, legs, legCargo, pointById, f.rule, f.scope);
      assert f in findings + more <==> f in findings || f in more;
      assert forall d :: d in cargo + [c] <==> d in cargo || d == c;
    }
  }

  /** The per-cargo part of validateRoute: a cargo row is reported under R1, R4, R6 or C2 exactly when
      it has complete carrying legs and they are not one simple directed path, and the whole report is
      what the rules call for on the rows. */
  method ValidateCargo(cargo: seq<Cargo>, legs: seq<RouteLeg>, legCargo: seq<LegCargo>, pointById: map<Id, PointType>, phase: Phase)
    returns (findings: seq<Finding>)
    requires forall i, j :: 0 <= i < j < |cargo| ==> cargo[i].id != cargo[j].id
    ensures forall c :: c in cargo ==> Verdict(c, legs, legCargo, findings)
    ensures ReportsRows(findings, cargo, legs, legCargo, pointById, phase)
  {
    var legById := IndexLegs(legs);
    var legsByCargo := LegsByCargo(legCargo);
    findings := [];
    for i := 0 to |cargo|
      invariant forall j :: 0 <= j < i ==> Verdict(cargo[j], legs, legCargo, findings)
      invariant forall j :: i <= j < |cargo| ==> !BlamesChain(findings, cargo[j].id)
      invariant ReportsRows(findings, cargo[..i], legs, legCargo, pointById, phase)
    {
      var c := cargo[i];
      var more := CheckCargo(c, IdsAt(legsByCargo, c.id), legById, pointById, phase.Severity());
      forall j | 0 <= j < |cargo|
        ensures BlamesChain(findings + more, cargo[j].id)
            <==> BlamesChain(findings, cargo[j].id) || (j == i && HasChainFinding(more))
      {
        BlameOneMore(findings, more, c.id, cargo[j].id);
      }
      ReportOneMore(findings, more, cargo[..i], c, legs, legCargo, pointById, phase);
      assert cargo[..i + 1] == cargo[..i] + [c];
      findings := findings + more;
    }
    assert cargo[..|cargo|] == cargo;
  }
}
