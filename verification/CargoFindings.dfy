/** Which findings the chain rules call for, read off the legs and not off the walk that looks for them. */
module CargoFindings {
  import opened Wrappers
  import opened Graph
  import opened CargoChain
  import CargoChainProof

  datatype PointType = Pickup | Delivery | Warehouse | Airport | Seaport

  function PlusIf(findings: seq<Finding>, cond: bool, f: Finding): seq<Finding> {
    if cond then findings + [f] else findings
  }

  predicate AtDelivery(start: Id, pointById: map<Id, PointType>) {
    start in pointById && pointById[start].Delivery?
  }

  /** R6 and R2, which come before the walk. */
  function BeforeWalk(imbalanced: bool, start: Id, pointById: map<Id, PointType>, cargoId: Id, severity: Severity): seq<Finding> {
    PlusIf(PlusIf([], imbalanced, Finding(R6, severity, CargoScope(cargoId))),
           AtDelivery(start, pointById), Finding(R2, severity, CargoScope(cargoId)))
  }

  function Assembled(imbalanced: bool, start: Id, pointById: map<Id, PointType>, walked: seq<Edge>, stop: Stop, edgeCount: nat,
                     cargoId: Id, severity: Severity): seq<Finding> {
    PlusIf(BeforeWalk(imbalanced, start, pointById, cargoId, severity)
           + (LateConnections(walked, severity) + StopFindings(stop, cargoId, severity)),
           stop.Arrived? && |walked| != edgeCount, Finding(C2, severity, CargoScope(cargoId)))
  }

  /** One point is left once more than it is entered, one is entered once more than it is left. */
  ghost predicate SoleEnds(edges: seq<Edge>, start: Id, end: Id) {
    forall n :: (|Out(edges, n)| - |In(edges, n)| == 1 <==> n == start) && (|In(edges, n)| - |Out(edges, n)| == 1 <==> n == end)
  }

  /** A walk from the sole source that takes the only way out of every point, meets no point twice
      before its last, and stops at the sole sink if it gets there. */
  ghost predicate Forced(edges: seq<Edge>, start: Id, end: Id, walk: seq<Edge>) {
    SoleEnds(edges, start, end) && Walked(edges, start, walk) && forall i :: 0 <= i < |walk| ==> walk[i].originPointId.value != end
  }

  ghost predicate TooMany(edges: seq<Edge>, n: Id) {
    |Out(edges, n)| > |In(edges, n)| + 1 || |In(edges, n)| > |Out(edges, n)| + 1
  }

  /** The walk is at a point, short of the end, that has no way out or several. */
  ghost predicate Strands(edges: seq<Edge>, start: Id, end: Id, walk: seq<Edge>) {
    var at := PathPoints(start, walk)[|walk|];
    Forced(edges, start, end, walk) && at != end && |Out(edges, at)| != 1
  }

  /** The walk is back at a point it has left. */
  ghost predicate Returns(edges: seq<Edge>, start: Id, end: Id, walk: seq<Edge>) {
    var at := PathPoints(start, walk)[|walk|];
    Forced(edges, start, end, walk) && at != end && exists i :: 0 <= i < |walk| && walk[i].originPointId.value == at
  }

  /** The walk got to the end past some of the legs. */
  ghost predicate LeavesLegsOut(edges: seq<Edge>, start: Id, end: Id, walk: seq<Edge>) {
    Forced(edges, start, end, walk) && PathPoints(start, walk)[|walk|] == end && |walk| != |edges|
  }

  /** The last leg of the walk is due to depart before the leg before it is due to arrive. */
  ghost predicate Misses(edges: seq<Edge>, start: Id, end: Id, walk: seq<Edge>, legId: Id) {
    && Forced(edges, start, end, walk) && |walk| >= 2
    && var prev, leg := walk[|walk| - 2], walk[|walk| - 1];
       && leg.id == legId && prev.targetDelivery.Some? && leg.readyDate.Some?
       && leg.readyDate.value < prev.targetDelivery.value
  }

  ghost predicate SomePointUnbalanced(edges: seq<Edge>) {
    exists n :: TooMany(edges, n)
  }

  ghost predicate StartsAtDelivery(edges: seq<Edge>, pointById: map<Id, PointType>) {
    exists start, end :: SoleEnds(edges, start, end) && start in pointById && pointById[start] == Delivery
  }

  ghost predicate SomeEnds(edges: seq<Edge>) {
    exists start, end :: SoleEnds(edges, start, end)
  }

  ghost predicate SomeWalkStrands(edges: seq<Edge>) {
    exists start, end, walk :: Strands(edges, start, end, walk)
  }

  ghost predicate SomeWalkReturns(edges: seq<Edge>) {
    exists start, end, walk :: Returns(edges, start, end, walk)
  }

  ghost predicate SomeWalkLeavesLegsOut(edges: seq<Edge>) {
    exists start, end, walk :: LeavesLegsOut(edges, start, end, walk)
  }

  ghost predicate SomeWalkMisses(edges: seq<Edge>, legId: Id) {
    exists start, end, walk :: Misses(edges, start, end, walk, legId)
  }

  /** The findings the chain rules call for, given the complete legs that carry a cargo row. */
  ghost predicate CallsFor(edges: seq<Edge>, pointById: map<Id, PointType>, cargoId: Id, rule: Rule, scope: Scope) {
    match rule
    case R6 => scope == CargoScope(cargoId) && SomePointUnbalanced(edges)
    case R2 => scope == CargoScope(cargoId) && StartsAtDelivery(edges, pointById)
    case R1 => scope == CargoScope(cargoId) && (!SomeEnds(edges) || SomeWalkStrands(edges))
    case R4 => scope == CargoScope(cargoId) && SomeWalkReturns(edges)
    case C2 => scope == CargoScope(cargoId) && SomeWalkLeavesLegsOut(edges)
    case T1 => scope.LegScope? && SomeWalkMisses(edges, scope.legId)
    case R9 => false
  }

  /** Exactly the findings called for, all of one severity. */
  ghost predicate AsCalledFor(findings: seq<Finding>, edges: seq<Edge>, pointById: map<Id, PointType>, cargoId: Id, severity: Severity) {
    forall f :: f in findings <==> f.severity == severity && CallsFor(edges, pointById, cargoId, f.rule, f.scope)
  }

  lemma BusyIsNode(edges: seq<Edge>, n: Id)
    ensures Out(edges, n) != [] || In(edges, n) != [] ==> IsNode(edges, n)
  {
    if Out(edges, n) != [] {
      assert Out(edges, n)[0] in edges;
    }
    if In(edges, n) != [] {
      assert In(edges, n)[0] in edges;
    }
  }

  lemma SurplusFound(edges: seq<Edge>, t: Tally, n: Id)
    requires Tallied(edges, t)
    ensures forall s :: s != 0 ==> (n in WithSurplus(t.nodes, edges, s) <==> Surplus(edges, n) == s)
    ensures !(n in t.nodes) ==> Surplus(edges, n) == 0
  {
    assert TalliedAt(edges, t, n);
    BusyIsNode(edges, n);
  }

  lemma ImbalanceIsTooMany(edges: seq<Edge>, t: Tally)
    requires Tallied(edges, t)
    ensures SomeUnbalanced(t.nodes, edges) <==> SomePointUnbalanced(edges)
  {
    if n :| n in t.nodes && Unbalanced(edges, n) {
      assert TooMany(edges, n);
    }
    if n :| TooMany(edges, n) {
      SurplusFound(edges, t, n);
      assert Unbalanced(edges, n);
    }
  }

  lemma OneSourceOneSink(edges: seq<Edge>, t: Tally, start: Id, end: Id)
    requires Tallied(edges, t) && WithSurplus(t.nodes, edges, 1) == [start] && WithSurplus(t.nodes, edges, -1) == [end]
    ensures SoleEnds(edges, start, end)
  {
    forall n
      ensures Surplus(edges, n) == 1 <==> n == start
      ensures Surplus(edges, n) == -1 <==> n == end
    {
      SurplusFound(edges, t, n);
      assert n in [start] <==> n == start;
      assert n in [end] <==> n == end;
    }
    assert forall n :: |Out(edges, n)| - |In(edges, n)| == Surplus(edges, n);
  }

  lemma EndsAreFound(edges: seq<Edge>, t: Tally, start: Id, end: Id)
    requires Tallied(edges, t) && SoleEnds(edges, start, end)
    ensures WithSurplus(t.nodes, edges, 1) == [start] && WithSurplus(t.nodes, edges, -1) == [end]
  {
    forall n
      ensures n in WithSurplus(t.nodes, edges, 1) <==> n == start
      ensures n in WithSurplus(t.nodes, edges, -1) <==> n == end
    {
      SurplusFound(edges, t, n);
      assert |Out(edges, n)| - |In(edges, n)| == Surplus(edges, n);
    }
    CargoChainProof.WithSurplusNoRepeat(t.nodes, edges, 1);
    CargoChainProof.WithSurplusNoRepeat(t.nodes, edges, -1);
    CargoChainProof.OnlyElement(WithSurplus(t.nodes, edges, 1), start);
    CargoChainProof.OnlyElement(WithSurplus(t.nodes, edges, -1), end);
  }

  lemma NoEndsNoWalks(edges: seq<Edge>, pointById: map<Id, PointType>)
    requires !SomeEnds(edges)
    ensures !StartsAtDelivery(edges, pointById) && !SomeWalkStrands(edges) && !SomeWalkReturns(edges) && !SomeWalkLeavesLegsOut(edges)
    ensures forall legId :: !SomeWalkMisses(edges, legId)
  {
  }

  /** Without one source and one sink no walk is forced, and R1 is all there is beside R6. */
  lemma SplitAsCalledFor(findings: seq<Finding>, edges: seq<Edge>, t: Tally, imbalanced: bool, pointById: map<Id, PointType>,
                         cargoId: Id, severity: Severity)
    requires Tallied(edges, t) && (imbalanced <==> SomeUnbalanced(t.nodes, edges))
    requires |WithSurplus(t.nodes, edges, 1)| != 1 || |WithSurplus(t.nodes, edges, -1)| != 1
    requires findings == PlusIf([], imbalanced, Finding(R6, severity, CargoScope(cargoId))) + [Finding(R1, severity, CargoScope(cargoId))]
    ensures AsCalledFor(findings, edges, pointById, cargoId, severity)
  {
    ImbalanceIsTooMany(edges, t);
    forall start, end
      ensures !SoleEnds(edges, start, end)
    {
      if SoleEnds(edges, start, end) {
        EndsAreFound(edges, t, start, end);
      }
    }
    NoEndsNoWalks(edges, pointById);
  }

  lemma NextLeg(edges: seq<Edge>, start: Id, walk: seq<Edge>, i: nat)
    requires Walked(edges, start, walk) && i < |walk|
    ensures walk[i].originPointId.value == PathPoints(start, walk)[i] && Out(edges, walk[i].originPointId.value) == [walk[i]]
  {
  }

  /** A walk that has stopped short of the end with one way on is back where it has been. */
  lemma StoppedForGood(edges: seq<Edge>, start: Id, end: Id, walked: seq<Edge>, stop: Stop)
    requires WalkEnds(edges, start, end, walked, stop)
    requires PathPoints(start, walked)[|walked|] != end && |Out(edges, PathPoints(start, walked)[|walked|])| == 1
    ensures exists i :: 0 <= i < |walked| && walked[i].originPointId.value == PathPoints(start, walked)[|walked|]
  {
  }

  lemma NotBack(edges: seq<Edge>, start: Id, walked: seq<Edge>, walk: seq<Edge>)
    requires |walked| < |walk| && (forall i :: 0 <= i < |walked| ==> walk[i] == walked[i]) && Walked(edges, start, walk)
    ensures forall i :: 0 <= i < |walked| ==> walked[i].originPointId.value != walk[|walked|].originPointId.value
  {
  }

  /** Two walks that take the same first k legs. */
  ghost predicate SameUpTo(start: Id, a: seq<Edge>, b: seq<Edge>, k: nat) {
    && k <= |a| && k <= |b| && (forall i :: 0 <= i < k ==> a[i] == b[i])
    && PathPoints(start, a)[k] == PathPoints(start, b)[k]
  }

  lemma OneLegMore(start: Id, a: seq<Edge>, b: seq<Edge>, k: nat)
    requires SameUpTo(start, a, b, k) && k < |a| && k < |b| && a[k] == b[k]
    ensures SameUpTo(start, a, b, k + 1)
  {
  }

  lemma SameStep(edges: seq<Edge>, start: Id, end: Id, walked: seq<Edge>, stop: Stop, walk: seq<Edge>, k: nat)
    requires WalkEnds(edges, start, end, walked, stop) && Forced(edges, start, end, walk) && k < |walk|
    requires SameUpTo(start, walk, walked, k)
    ensures k < |walked| && walk[k] == walked[k]
  {
    NextLeg(edges, start, walk, k);
    if k == |walked| {
      StoppedForGood(edges, start, end, walked, stop);
      NotBack(edges, start, walked, walk);
      assert false;
    } else {
      NextLeg(edges, start, walked, k);
      assert [walk[k]] == [walked[k]];
    }
  }

  ghost predicate SameLeg(start: Id, a: seq<Edge>, b: seq<Edge>, k: nat) {
    SameUpTo(start, a, b, k) && k < |a| ==> k < |b| && a[k] == b[k]
  }

  lemma {:induction false} SameAllTheWay(start: Id, a: seq<Edge>, b: seq<Edge>, k: nat)
    requires (forall i: nat {:trigger SameLeg(start, a, b, i)} :: SameLeg(start, a, b, i)) && k <= |a|
    ensures SameUpTo(start, a, b, k)
  {
    if k > 0 {
      SameAllTheWay(start, a, b, k - 1);
      assert SameLeg(start, a, b, k - 1);
      OneLegMore(start, a, b, k - 1);
    }
  }

  /** Every forced walk is the beginning of the one that went on to its stop. */
  lemma ForcedIsPrefix(edges: seq<Edge>, start: Id, end: Id, walked: seq<Edge>, stop: Stop, walk: seq<Edge>)
    requires WalkEnds(edges, start, end, walked, stop) && Forced(edges, start, end, walk)
    ensures walk <= walked && PathPoints(start, walk)[|walk|] == PathPoints(start, walked)[|walk|]
  {
    forall k: nat
      ensures SameLeg(start, walk, walked, k)
    {
      if SameUpTo(start, walk, walked, k) && k < |walk| {
        SameStep(edges, start, end, walked, stop, walk, k);
      }
    }
    SameAllTheWay(start, walk, walked, |walk|);
  }

  /** A forced walk is the whole one, or has exactly one way on to a point that is not the end. */
  lemma ForcedGoesOn(edges: seq<Edge>, start: Id, end: Id, walked: seq<Edge>, stop: Stop, walk: seq<Edge>)
    requires WalkEnds(edges, start, end, walked, stop) && Forced(edges, start, end, walk)
    ensures walk <= walked
    ensures walk != walked ==>
      var at := PathPoints(start, walk)[|walk|];
      |Out(edges, at)| == 1 && at != end && forall i :: 0 <= i < |walk| ==> walk[i].originPointId.value != at
  {
    ForcedIsPrefix(edges, start, end, walked, stop, walk);
    if walk != walked {
      NextLeg(edges, start, walked, |walk|);
      NotBack(edges, start, walk, walked);
    }
  }

  lemma {:induction false} EarlierPoints(start: Id, legs: seq<Edge>, k: nat, i: nat)
    requires i <= k <= |legs|
    ensures PathPoints(start, legs[..k])[i] == PathPoints(start, legs)[i]
  {
    if i > 0 {
      assert PathPoints(start, legs[..k])[i - 1 + 1] == legs[..k][i - 1].destinationPointId.value;
      assert PathPoints(start, legs)[i - 1 + 1] == legs[i - 1].destinationPointId.value;
    }
  }

  lemma BeginningIsWalked(edges: seq<Edge>, start: Id, walked: seq<Edge>, k: nat)
    requires Walked(edges, start, walked) && k <= |walked|
    ensures Walked(edges, start, walked[..k])
  {
    var walk := walked[..k];
    forall i | 0 <= i < k
      ensures walk[i].originPointId.value == PathPoints(start, walk)[i] && Out(edges, walk[i].originPointId.value) == [walk[i]]
    {
      EarlierPoints(start, walked, k, i);
      NextLeg(edges, start, walked, i);
    }
    forall i, j | 0 <= i < j < k
      ensures walk[i].originPointId != walk[j].originPointId
    {
      assert walked[i].originPointId != walked[j].originPointId;
    }
  }

  lemma BeginningIsForced(edges: seq<Edge>, start: Id, end: Id, walked: seq<Edge>, k: nat)
    requires Forced(edges, start, end, walked) && k <= |walked|
    ensures Forced(edges, start, end, walked[..k])
  {
    BeginningIsWalked(edges, start, walked, k);
  }

  ghost predicate MissesOneAt(walked: seq<Edge>, k: nat, legId: Id) {
    1 <= k < |walked| && walked[k].id == legId && DepartsEarly(walked[k - 1], walked[k])
  }

  ghost predicate MissesOne(walked: seq<Edge>, legId: Id) {
    exists k: nat :: MissesOneAt(walked, k, legId)
  }

  lemma MissesOneMore(walked: seq<Edge>, legId: Id)
    requires |walked| >= 2
    ensures MissesOne(walked, legId) <==> MissesOne(walked[..|walked| - 1], legId) || MissesOneAt(walked, |walked| - 1, legId)
  {
    var n := |walked| - 1;
    forall k: nat
      ensures MissesOneAt(walked[..n], k, legId) ==> MissesOneAt(walked, k, legId)
      ensures MissesOneAt(walked, k, legId) ==> MissesOneAt(walked[..n], k, legId) || k == n
    {
    }
  }

  lemma {:induction false} WhatIsLate(walked: seq<Edge>, severity: Severity, f: Finding)
    ensures f in LateConnections(walked, severity)
       <==> f.severity == severity && f.rule == T1
            && f.scope.LegScope? && MissesOne(walked, f.scope.legId)
  {
    if |walked| >= 2 {
      var n := |walked| - 1;
      WhatIsLate(walked[..n], severity, f);
      if f.scope.LegScope? {
        MissesOneMore(walked, f.scope.legId);
      }
    }
  }

  lemma LastLegsMiss(edges: seq<Edge>, start: Id, end: Id, walked: seq<Edge>, k: nat, legId: Id)
    requires Forced(edges, start, end, walked) && MissesOneAt(walked, k, legId)
    ensures Misses(edges, start, end, walked[..k + 1], legId)
  {
    BeginningIsForced(edges, start, end, walked, k + 1);
  }

  lemma MissIsOnWalk(edges: seq<Edge>, start: Id, end: Id, walked: seq<Edge>, stop: Stop, walk: seq<Edge>, legId: Id)
    requires WalkEnds(edges, start, end, walked, stop) && Misses(edges, start, end, walk, legId)
    ensures MissesOneAt(walked, |walk| - 1, legId)
  {
    ForcedGoesOn(edges, start, end, walked, stop, walk);
  }

  lemma MissesExactly(edges: seq<Edge>, start: Id, end: Id, walked: seq<Edge>, stop: Stop, legId: Id)
    requires SoleEnds(edges, start, end) && WalkEnds(edges, start, end, walked, stop)
    ensures MissesOne(walked, legId) <==> SomeWalkMisses(edges, legId)
  {
    if k: nat :| MissesOneAt(walked, k, legId) {
      LastLegsMiss(edges, start, end, walked, k, legId);
    }
    if s, e, walk :| Misses(edges, s, e, walk, legId) {
      EndsAreUnique(edges, s, e, start, end);
      MissIsOnWalk(edges, start, end, walked, stop, walk, legId);
    }
  }

  lemma EndsAreUnique(edges: seq<Edge>, s: Id, e: Id, start: Id, end: Id)
    requires SoleEnds(edges, s, e) && SoleEnds(edges, start, end)
    ensures s == start && e == end
  {
    assert |Out(edges, s)| - |In(edges, s)| == 1;
    assert |In(edges, e)| - |Out(edges, e)| == 1;
  }

  /** How the walk stopped is which of the three its forced walks do. */
  lemma StopsExactly(edges: seq<Edge>, start: Id, end: Id, walked: seq<Edge>, stop: Stop)
    requires SoleEnds(edges, start, end) && WalkEnds(edges, start, end, walked, stop)
    ensures stop.Forked? <==> SomeWalkStrands(edges)
    ensures stop.Revisited? <==> SomeWalkReturns(edges)
    ensures stop.Arrived? && |walked| != |edges| <==> SomeWalkLeavesLegsOut(edges)
  {
    assert Forced(edges, start, end, walked);
    forall s, e, walk | Forced(edges, s, e, walk)
      ensures s == start && e == end
      ensures walk != walked ==> !Strands(edges, s, e, walk) && !Returns(edges, s, e, walk) && !LeavesLegsOut(edges, s, e, walk)
    {
      EndsAreUnique(edges, s, e, start, end);
      ForcedGoesOn(edges, start, end, walked, stop, walk);
    }
    assert stop.Forked? <==> Strands(edges, start, end, walked);
    assert stop.Revisited? <==> Returns(edges, start, end, walked);
    assert stop.Arrived? && |walked| != |edges| <==> LeavesLegsOut(edges, start, end, walked);
  }

  lemma InAssembled(imbalanced: bool, start: Id, pointById: map<Id, PointType>, walked: seq<Edge>, stop: Stop, edgeCount: nat,
                    cargoId: Id, severity: Severity, f: Finding)
    ensures f in Assembled(imbalanced, start, pointById, walked, stop, edgeCount, cargoId, severity)
       <==> f in LateConnections(walked, severity)
            || (f.severity == severity && f.scope == CargoScope(cargoId)
                && match f.rule
                   case R6 => imbalanced
                   case R2 => AtDelivery(start, pointById)
                   case R1 => stop.Forked?
                   case R4 => stop.Revisited?
                   case C2 => stop.Arrived? && |walked| != edgeCount
                   case T1 => false
                   case R9 => false)
  {
  }

  /** With one source and one sink the report is exactly what is called for. */
  lemma WalkAsCalledFor(findings: seq<Finding>, edges: seq<Edge>, t: Tally, start: Id, end: Id, imbalanced: bool,
                        pointById: map<Id, PointType>, walked: seq<Edge>, stop: Stop, cargoId: Id, severity: Severity)
    requires Tallied(edges, t) && Balanced(t.nodes, edges, [start], [end], imbalanced)
    requires WalkEnds(edges, start, end, walked, stop)
    requires findings == Assembled(imbalanced, start, pointById, walked, stop, |edges|, cargoId, severity)
    ensures AsCalledFor(findings, edges, pointById, cargoId, severity)
  {
    OneSourceOneSink(edges, t, start, end);
    ImbalanceIsTooMany(edges, t);
    StopsExactly(edges, start, end, walked, stop);
    forall f
      ensures f in findings <==> f.severity == severity && CallsFor(edges, pointById, cargoId, f.rule, f.scope)
    {
      OneAsCalledFor(edges, start, end, imbalanced, pointById, walked, stop, cargoId, severity, f);
    }
  }

  lemma OneAsCalledFor(edges: seq<Edge>, start: Id, end: Id, imbalanced: bool, pointById: map<Id, PointType>,
                       walked: seq<Edge>, stop: Stop, cargoId: Id, severity: Severity, f: Finding)
    requires SoleEnds(edges, start, end) && WalkEnds(edges, start, end, walked, stop)
    requires imbalanced <==> SomePointUnbalanced(edges)
    ensures f in Assembled(imbalanced, start, pointById, walked, stop, |edges|, cargoId, severity)
       <==> f.severity == severity && CallsFor(edges, pointById, cargoId, f.rule, f.scope)
  {
    InAssembled(imbalanced, start, pointById, walked, stop, |edges|, cargoId, severity, f);
    WhatIsLate(walked, severity, f);
    StopsExactly(edges, start, end, walked, stop);
    StartsExactly(edges, start, end, pointById);
    if f.rule == T1 && f.scope.LegScope? {
      MissesExactly(edges, start, end, walked, stop, f.scope.legId);
    }
  }

  lemma StartsExactly(edges: seq<Edge>, start: Id, end: Id, pointById: map<Id, PointType>)
    requires SoleEnds(edges, start, end)
    ensures AtDelivery(start, pointById)
       <==> StartsAtDelivery(edges, pointById)
  {
    forall s, e | SoleEnds(edges, s, e)
      ensures s == start
    {
      EndsAreUnique(edges, s, e, start, end);
    }
  }
}
