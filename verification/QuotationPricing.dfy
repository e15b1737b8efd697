/** packages/shared/src/quotation-pricing.ts. */
module QuotationPricing {
  import opened Money

  datatype ChargeGroup = ORIGIN | FREIGHT | DESTINATION | WAREHOUSE

  datatype CostLine = CostLine(id: string, costNative: real, costUsd: real)
  datatype CostGroup = CostGroup(group: ChargeGroup, lines: seq<CostLine>, costUsd: real)
  datatype CostLeg = CostLeg(legId: string, legCode: string, groups: seq<CostGroup>)

  datatype PricedLine = PricedLine(line: CostLine, clientUsd: real, overridden: bool)
  datatype PricedGroup = PricedGroup(group: ChargeGroup, lines: seq<PricedLine>, costUsd: real, clientUsd: real)
  datatype PricedLeg = PricedLeg(legId: string, legCode: string, groups: seq<PricedGroup>, costUsd: real, clientUsd: real)
  datatype Priced = Priced(legs: seq<PricedLeg>, costTotalUsd: real, clientTotalUsd: real, marginValueUsd: real)

  type Overrides = map<string, real>

  /** Markup on cost, rounded to cents. */
  function ClientAmount(costUsd: real, marginPct: real): real {
    Round2(costUsd * (1.0 + marginPct / 100.0))
  }

  function LineKey(legId: string, lineId: string): string {
    legId + ":" + lineId
  }

  /** A pinned line charges its override, whatever the margin. */
  function PriceLine(legId: string, line: CostLine, marginPct: real, overrides: Overrides): PricedLine {
    var key := LineKey(legId, line.id);
    PricedLine(line, if key in overrides then overrides[key] else ClientAmount(line.costUsd, marginPct), key in overrides)
  }

  function PriceLines(legId: string, lines: seq<CostLine>, marginPct: real, overrides: Overrides): (priced: seq<PricedLine>)
    ensures |priced| == |lines|
  {
    if lines == [] then []
    else
      var n := |lines| - 1;
      PriceLines(legId, lines[..n], marginPct, overrides) + [PriceLine(legId, lines[n], marginPct, overrides)]
  }

  function PriceGroup(legId: string, group: CostGroup, marginPct: real, overrides: Overrides): PricedGroup {
    var lines := PriceLines(legId, group.lines, marginPct, overrides);
    PricedGroup(group.group, lines,
                Round2(Sum(lines, (l: PricedLine) => l.line.costUsd)), Round2(Sum(lines, (l: PricedLine) => l.clientUsd)))
  }

  function PriceGroups(legId: string, groups: seq<CostGroup>, marginPct: real, overrides: Overrides): (priced: seq<PricedGroup>)
    ensures |priced| == |groups|
  {
    if groups == [] then []
    else
      var n := |groups| - 1;
      PriceGroups(legId, groups[..n], marginPct, overrides) + [PriceGroup(legId, groups[n], marginPct, overrides)]
  }

  function PriceLeg(leg: CostLeg, marginPct: real, overrides: Overrides): PricedLeg {
    var groups := PriceGroups(leg.legId, leg.groups, marginPct, overrides);
    PricedLeg(leg.legId, leg.legCode, groups,
              Round2(Sum(groups, (g: PricedGroup) => g.costUsd)), Round2(Sum(groups, (g: PricedGroup) => g.clientUsd)))
  }

  function PriceLegs(legs: seq<CostLeg>, marginPct: real, overrides: Overrides): (priced: seq<PricedLeg>)
    ensures |priced| == |legs|
  {
    if legs == [] then []
    else
      var n := |legs| - 1;
      PriceLegs(legs[..n], marginPct, overrides) + [PriceLeg(legs[n], marginPct, overrides)]
  }

  function PriceQuotation(legs: seq<CostLeg>, marginPct: real, overrides: Overrides): Priced {
    var priced := PriceLegs(legs, marginPct, overrides);
    var cost := Round2(Sum(priced, (l: PricedLeg) => l.costUsd));
    var client := Round2(Sum(priced, (l: PricedLeg) => l.clientUsd));
    Priced(priced, cost, client, Round2(client - cost))
  }

  // What the client is shown for each line.

  /** A line with an override charges it; any other, its cost and the margin on it to the nearest cent. */
  ghost predicate LineIsPriced(legId: string, line: CostLine, marginPct: real, overrides: Overrides, p: PricedLine) {
    var key := legId + ":" + line.id;
    && p.line == line && (p.overridden <==> key in overrides)
    && (key in overrides ==> p.clientUsd == overrides[key])
    && (key !in overrides ==>
          IsCents(p.clientUsd) && -HALF_CENT < p.clientUsd - (line.costUsd + line.costUsd * marginPct / 100.0) <= HALF_CENT)
  }

  ghost predicate GroupIsPriced(legId: string, g: CostGroup, marginPct: real, overrides: Overrides, p: PricedGroup) {
    && p.group == g.group && |p.lines| == |g.lines|
    && forall i :: 0 <= i < |g.lines| ==> LineIsPriced(legId, g.lines[i], marginPct, overrides, p.lines[i])
  }

  ghost predicate LegIsPriced(leg: CostLeg, marginPct: real, overrides: Overrides, p: PricedLeg) {
    && p.legId == leg.legId && p.legCode == leg.legCode && |p.groups| == |leg.groups|
    && forall i :: 0 <= i < |leg.groups| ==> GroupIsPriced(leg.legId, leg.groups[i], marginPct, overrides, p.groups[i])
  }

  lemma PriceLineIsRight(legId: string, line: CostLine, marginPct: real, overrides: Overrides)
    ensures LineIsPriced(legId, line, marginPct, overrides, PriceLine(legId, line, marginPct, overrides))
  {
    var exact := line.costUsd * (1.0 + marginPct / 100.0);
    assert exact == line.costUsd + line.costUsd * marginPct / 100.0;
    RoundIsClose(exact);
    RoundIsCents(exact);
  }

  lemma {:induction false} LinesArePriced(legId: string, lines: seq<CostLine>, marginPct: real, overrides: Overrides, i: nat)
    requires i < |lines|
    ensures LineIsPriced(legId, lines[i], marginPct, overrides, PriceLines(legId, lines, marginPct, overrides)[i])
  {
    if i == |lines| - 1 {
      PriceLineIsRight(legId, lines[i], marginPct, overrides);
    } else {
      LinesArePriced(legId, lines[..|lines| - 1], marginPct, overrides, i);
    }
  }

  lemma {:induction false} GroupsArePriced(legId: string, groups: seq<CostGroup>, marginPct: real, overrides: Overrides, i: nat)
    requires i < |groups|
    ensures GroupIsPriced(legId, groups[i], marginPct, overrides, PriceGroups(legId, groups, marginPct, overrides)[i])
  {
    if i == |groups| - 1 {
      forall k | 0 <= k < |groups[i].lines|
        ensures LineIsPriced(legId, groups[i].lines[k], marginPct, overrides, PriceLines(legId, groups[i].lines, marginPct, overrides)[k])
      {
        LinesArePriced(legId, groups[i].lines, marginPct, overrides, k);
      }
    } else {
      GroupsArePriced(legId, groups[..|groups| - 1], marginPct, overrides, i);
    }
  }

  /** Every line of every leg is priced where it stands. */
  lemma {:induction false} LegsArePriced(legs: seq<CostLeg>, marginPct: real, overrides: Overrides, i: nat)
    requires i < |legs|
    ensures LegIsPriced(legs[i], marginPct, overrides, PriceLegs(legs, marginPct, overrides)[i])
  {
    if i == |legs| - 1 {
      forall k | 0 <= k < |legs[i].groups|
        ensures GroupIsPriced(legs[i].legId, legs[i].groups[k], marginPct, overrides, PriceGroups(legs[i].legId, legs[i].groups, marginPct, overrides)[k])
      {
        GroupsArePriced(legs[i].legId, legs[i].groups, marginPct, overrides, k);
      }
    } else {
      LegsArePriced(legs[..|legs| - 1], marginPct, overrides, i);
    }
  }

  /** A quotation has the legs, groups and lines it is priced from, in their order. */
  lemma EveryLineIsPriced(legs: seq<CostLeg>, marginPct: real, overrides: Overrides)
    ensures var priced := PriceQuotation(legs, marginPct, overrides).legs;
      |priced| == |legs| && forall i :: 0 <= i < |legs| ==> LegIsPriced(legs[i], marginPct, overrides, priced[i])
  {
    forall i | 0 <= i < |legs|
      ensures LegIsPriced(legs[i], marginPct, overrides, PriceLegs(legs, marginPct, overrides)[i])
    {
      LegsArePriced(legs, marginPct, overrides, i);
    }
  }

  // The totals, as sums over the input rather than over the rounded intermediate figures.

  function LineCost(line: CostLine): real {
    line.costUsd
  }

  function GroupLineCost(g: CostGroup): real {
    Sum(g.lines, LineCost)
  }

  function LegLineCost(leg: CostLeg): real {
    Sum(leg.groups, GroupLineCost)
  }

  /** What all the cost lines add up to. */
  function AllLineCost(legs: seq<CostLeg>): real {
    Sum(legs, LegLineCost)
  }

  function LineClient(legId: string, marginPct: real, overrides: Overrides): CostLine -> real {
    (line: CostLine) => PriceLine(legId, line, marginPct, overrides).clientUsd
  }

  function GroupLineClient(legId: string, marginPct: real, overrides: Overrides): CostGroup -> real {
    (g: CostGroup) => Sum(g.lines, LineClient(legId, marginPct, overrides))
  }

  function LegLineClient(marginPct: real, overrides: Overrides): CostLeg -> real {
    (leg: CostLeg) => Sum(leg.groups, GroupLineClient(leg.legId, marginPct, overrides))
  }

  /** What all the lines charge the client. */
  function AllLineClient(legs: seq<CostLeg>, marginPct: real, overrides: Overrides): real {
    Sum(legs, LegLineClient(marginPct, overrides))
  }

  /** How many groups of lines there are. */
  function GroupCount(legs: seq<CostLeg>): nat {
    if legs == [] then 0 else GroupCount(legs[..|legs| - 1]) + |legs[|legs| - 1].groups|
  }

  predicate CostsInCents(legs: seq<CostLeg>) {
    forall leg :: leg in legs ==> forall g :: g in leg.groups ==> forall l :: l in g.lines ==> IsCents(l.costUsd)
  }

  predicate OverridesInCents(overrides: Overrides) {
    forall key :: key in overrides ==> IsCents(overrides[key])
  }

  // Sums over the priced lists are sums over the input.

  lemma {:induction false} LineSums(legId: string, lines: seq<CostLine>, marginPct: real, overrides: Overrides)
    ensures Sum(PriceLines(legId, lines, marginPct, overrides), (l: PricedLine) => l.line.costUsd) == Sum(lines, LineCost)
    ensures Sum(PriceLines(legId, lines, marginPct, overrides), (l: PricedLine) => l.clientUsd)
         == Sum(lines, LineClient(legId, marginPct, overrides))
  {
    if lines != [] {
      var n := |lines| - 1;
      LineSums(legId, lines[..n], marginPct, overrides);
      SumOfOneMore(PriceLines(legId, lines[..n], marginPct, overrides), PriceLine(legId, lines[n], marginPct, overrides),
                   (l: PricedLine) => l.line.costUsd);
      SumOfOneMore(PriceLines(legId, lines[..n], marginPct, overrides), PriceLine(legId, lines[n], marginPct, overrides),
                   (l: PricedLine) => l.clientUsd);
    }
  }

  function GroupCost(legId: string, marginPct: real, overrides: Overrides): CostGroup -> real {
    (g: CostGroup) => PriceGroup(legId, g, marginPct, overrides).costUsd
  }

  function GroupClient(legId: string, marginPct: real, overrides: Overrides): CostGroup -> real {
    (g: CostGroup) => PriceGroup(legId, g, marginPct, overrides).clientUsd
  }

  lemma {:induction false} GroupSums(legId: string, groups: seq<CostGroup>, marginPct: real, overrides: Overrides)
    ensures Sum(PriceGroups(legId, groups, marginPct, overrides), (g: PricedGroup) => g.costUsd)
         == Sum(groups, GroupCost(legId, marginPct, overrides))
    ensures Sum(PriceGroups(legId, groups, marginPct, overrides), (g: PricedGroup) => g.clientUsd)
         == Sum(groups, GroupClient(legId, marginPct, overrides))
  {
    if groups != [] {
      var n := |groups| - 1;
      GroupSums(legId, groups[..n], marginPct, overrides);
      SumOfOneMore(PriceGroups(legId, groups[..n], marginPct, overrides), PriceGroup(legId, groups[n], marginPct, overrides),
                   (g: PricedGroup) => g.costUsd);
      SumOfOneMore(PriceGroups(legId, groups[..n], marginPct, overrides), PriceGroup(legId, groups[n], marginPct, overrides),
                   (g: PricedGroup) => g.clientUsd);
    }
  }

  function LegCost(marginPct: real, overrides: Overrides): CostLeg -> real {
    (leg: CostLeg) => PriceLeg(leg, marginPct, overrides).costUsd
  }

  function LegClient(marginPct: real, overrides: Overrides): CostLeg -> real {
    (leg: CostLeg) => PriceLeg(leg, marginPct, overrides).clientUsd
  }

  lemma {:induction false} LegSums(legs: seq<CostLeg>, marginPct: real, overrides: Overrides)
    ensures Sum(PriceLegs(legs, marginPct, overrides), (l: PricedLeg) => l.costUsd) == Sum(legs, LegCost(marginPct, overrides))
    ensures Sum(PriceLegs(legs, marginPct, overrides), (l: PricedLeg) => l.clientUsd) == Sum(legs, LegClient(marginPct, overrides))
  {
    if legs != [] {
      var n := |legs| - 1;
      LegSums(legs[..n], marginPct, overrides);
      SumOfOneMore(PriceLegs(legs[..n], marginPct, overrides), PriceLeg(legs[n], marginPct, overrides), (l: PricedLeg) => l.costUsd);
      SumOfOneMore(PriceLegs(legs[..n], marginPct, overrides), PriceLeg(legs[n], marginPct, overrides), (l: PricedLeg) => l.clientUsd);
    }
  }

  /** The totals do not depend on the order of the legs, so pricing in stored order and pricing in
      route order agree. */
  lemma TotalsIgnoreLegOrder(legs: seq<CostLeg>, legs': seq<CostLeg>, marginPct: real, overrides: Overrides)
    requires multiset(legs) == multiset(legs')
    ensures PriceQuotation(legs, marginPct, overrides).costTotalUsd == PriceQuotation(legs', marginPct, overrides).costTotalUsd
    ensures PriceQuotation(legs, marginPct, overrides).clientTotalUsd == PriceQuotation(legs', marginPct, overrides).clientTotalUsd
    ensures PriceQuotation(legs, marginPct, overrides).marginValueUsd == PriceQuotation(legs', marginPct, overrides).marginValueUsd
  {
    LegSums(legs, marginPct, overrides);
    LegSums(legs', marginPct, overrides);
    SumPermutes(legs, legs', LegCost(marginPct, overrides));
    SumPermutes(legs, legs', LegClient(marginPct, overrides));
  }

  // Conservation.

  lemma GroupCostIsExact(legId: string, g: CostGroup, marginPct: real, overrides: Overrides)
    requires forall l :: l in g.lines ==> IsCents(l.costUsd)
    ensures PriceGroup(legId, g, marginPct, overrides).costUsd == GroupLineCost(g) && IsCents(GroupLineCost(g))
  {
    LineSums(legId, g.lines, marginPct, overrides);
    SumIsCents(g.lines, LineCost);
    RoundOfCents(GroupLineCost(g));
  }

  lemma LegCostIsExact(leg: CostLeg, marginPct: real, overrides: Overrides)
    requires forall g :: g in leg.groups ==> forall l :: l in g.lines ==> IsCents(l.costUsd)
    ensures PriceLeg(leg, marginPct, overrides).costUsd == LegLineCost(leg) && IsCents(LegLineCost(leg))
  {
    forall g | g in leg.groups
      ensures GroupCost(leg.legId, marginPct, overrides)(g) == GroupLineCost(g) && IsCents(GroupLineCost(g))
    {
      GroupCostIsExact(leg.legId, g, marginPct, overrides);
    }
    GroupSums(leg.legId, leg.groups, marginPct, overrides);
    SumEqual(leg.groups, GroupCost(leg.legId, marginPct, overrides), GroupLineCost);
    SumIsCents(leg.groups, GroupLineCost);
    RoundOfCents(LegLineCost(leg));
  }

  /** The cost total is exactly the sum of the line costs. */
  lemma CostTotalIsConserved(legs: seq<CostLeg>, marginPct: real, overrides: Overrides)
    requires CostsInCents(legs)
    ensures PriceQuotation(legs, marginPct, overrides).costTotalUsd == AllLineCost(legs)
  {
    forall leg | leg in legs
      ensures LegCost(marginPct, overrides)(leg) == LegLineCost(leg) && IsCents(LegLineCost(leg))
    {
      LegCostIsExact(leg, marginPct, overrides);
    }
    LegSums(legs, marginPct, overrides);
    SumEqual(legs, LegCost(marginPct, overrides), LegLineCost);
    SumIsCents(legs, LegLineCost);
    RoundOfCents(AllLineCost(legs));
  }

  /** A leg's client amount is exactly the sum of its groups' rounded amounts. */
  lemma LegClientIsExact(leg: CostLeg, marginPct: real, overrides: Overrides)
    ensures PriceLeg(leg, marginPct, overrides).clientUsd == Sum(leg.groups, GroupClient(leg.legId, marginPct, overrides))
    ensures IsCents(PriceLeg(leg, marginPct, overrides).clientUsd)
  {
    var f := GroupClient(leg.legId, marginPct, overrides);
    GroupSums(leg.legId, leg.groups, marginPct, overrides);
    forall g | g in leg.groups
      ensures IsCents(f(g))
    {
      RoundIsCents(Sum(PriceLines(leg.legId, g.lines, marginPct, overrides), (l: PricedLine) => l.clientUsd));
    }
    SumIsCents(leg.groups, f);
    RoundOfCents(Sum(leg.groups, f));
  }

  lemma ClientTotalIsLegTotal(legs: seq<CostLeg>, marginPct: real, overrides: Overrides)
    ensures PriceQuotation(legs, marginPct, overrides).clientTotalUsd == Sum(legs, LegClient(marginPct, overrides))
  {
    forall leg | leg in legs
      ensures IsCents(LegClient(marginPct, overrides)(leg))
    {
      LegClientIsExact(leg, marginPct, overrides);
    }
    LegSums(legs, marginPct, overrides);
    SumIsCents(legs, LegClient(marginPct, overrides));
    RoundOfCents(Sum(legs, LegClient(marginPct, overrides)));
  }

  function HalfCent<T>(): T -> real {
    (x: T) => HALF_CENT
  }

  function GroupHalfCents(leg: CostLeg): real {
    HALF_CENT * |leg.groups| as real
  }

  lemma {:induction false} HalfCents<T>(s: seq<T>)
    ensures Sum(s, HalfCent<T>()) == HALF_CENT * |s| as real
  {
    if s != [] {
      HalfCents(s[..|s| - 1]);
    }
  }

  lemma {:induction false} HalfCentsOfGroups(legs: seq<CostLeg>)
    ensures Sum(legs, GroupHalfCents) == HALF_CENT * GroupCount(legs) as real
  {
    if legs != [] {
      HalfCentsOfGroups(legs[..|legs| - 1]);
    }
  }

  lemma GroupClientIsClose(legId: string, g: CostGroup, marginPct: real, overrides: Overrides)
    ensures -HALF_CENT <= GroupClient(legId, marginPct, overrides)(g) - GroupLineClient(legId, marginPct, overrides)(g) <= HALF_CENT
    ensures OverridesInCents(overrides) ==> GroupClient(legId, marginPct, overrides)(g) == GroupLineClient(legId, marginPct, overrides)(g)
  {
    var f := LineClient(legId, marginPct, overrides);
    LineSums(legId, g.lines, marginPct, overrides);
    RoundIsClose(Sum(g.lines, f));
    if OverridesInCents(overrides) {
      forall l | l in g.lines
        ensures IsCents(f(l))
      {
        RoundIsCents(l.costUsd * (1.0 + marginPct / 100.0));
      }
      SumIsCents(g.lines, f);
      RoundOfCents(Sum(g.lines, f));
    }
  }

  lemma LegClientIsClose(leg: CostLeg, marginPct: real, overrides: Overrides)
    ensures -GroupHalfCents(leg) <= LegClient(marginPct, overrides)(leg) - LegLineClient(marginPct, overrides)(leg) <= GroupHalfCents(leg)
    ensures OverridesInCents(overrides) ==> LegClient(marginPct, overrides)(leg) == LegLineClient(marginPct, overrides)(leg)
  {
    var f, g := GroupClient(leg.legId, marginPct, overrides), GroupLineClient(leg.legId, marginPct, overrides);
    forall x | x in leg.groups
      ensures -HALF_CENT <= f(x) - g(x) <= HALF_CENT && (OverridesInCents(overrides) ==> f(x) == g(x))
    {
      GroupClientIsClose(leg.legId, x, marginPct, overrides);
    }
    LegClientIsExact(leg, marginPct, overrides);
    SumClose(leg.groups, f, g, HalfCent<CostGroup>());
    HalfCents(leg.groups);
    if OverridesInCents(overrides) {
      SumEqual(leg.groups, f, g);
    }
  }

  /** The client total is within half a cent per group of what the lines charge, and exactly that
      when the overrides are whole cents. */
  lemma ClientTotalIsConserved(legs: seq<CostLeg>, marginPct: real, overrides: Overrides)
    ensures Abs(PriceQuotation(legs, marginPct, overrides).clientTotalUsd - AllLineClient(legs, marginPct, overrides))
         <= HALF_CENT * GroupCount(legs) as real
    ensures OverridesInCents(overrides)
        ==> PriceQuotation(legs, marginPct, overrides).clientTotalUsd == AllLineClient(legs, marginPct, overrides)
  {
    var f, g := LegClient(marginPct, overrides), LegLineClient(marginPct, overrides);
    forall leg | leg in legs
      ensures -GroupHalfCents(leg) <= f(leg) - g(leg) <= GroupHalfCents(leg) && (OverridesInCents(overrides) ==> f(leg) == g(leg))
    {
      LegClientIsClose(leg, marginPct, overrides);
    }
    ClientTotalIsLegTotal(legs, marginPct, overrides);
    SumClose(legs, f, g, GroupHalfCents);
    HalfCentsOfGroups(legs);
    if OverridesInCents(overrides) {
      SumEqual(legs, f, g);
    }
  }

  /** The margin value is exactly the difference of the two totals. */
  lemma MarginIsTheDifference(legs: seq<CostLeg>, marginPct: real, overrides: Overrides)
    ensures var q := PriceQuotation(legs, marginPct, overrides); q.marginValueUsd == q.clientTotalUsd - q.costTotalUsd
  {
    var priced := PriceLegs(legs, marginPct, overrides);
    var cost, client := Sum(priced, (l: PricedLeg) => l.costUsd), Sum(priced, (l: PricedLeg) => l.clientUsd);
    RoundOfCents(Round2(client) - Round2(cost)) by {
      WholeCents(CentsOf(client) - CentsOf(cost));
    }
  }

  // Monotonicity in the margin.

  lemma ClientAmountRises(costUsd: real, m: real, m': real)
    requires costUsd >= 0.0 && m <= m'
    ensures ClientAmount(costUsd, m) <= ClientAmount(costUsd, m')
  {
    assert costUsd * (m' / 100.0 - m / 100.0) >= 0.0;
    RoundMonotone(costUsd * (1.0 + m / 100.0), costUsd * (1.0 + m' / 100.0));
  }

  /** A line costing at least a cent less than nothing charges less at the highest margin than at none. */
  lemma NegativeLineFalls(costUsd: real)
    requires costUsd < 0.0 && IsCents(costUsd)
    ensures ClientAmount(costUsd, 100.0) < ClientAmount(costUsd, 0.0)
  {
    assert costUsd <= -0.01;
    RoundOfCents(costUsd);
    CentsAdd(costUsd, costUsd);
    RoundOfCents(costUsd + costUsd);
    assert costUsd * (1.0 + 100.0 / 100.0) == costUsd + costUsd;
    assert costUsd * (1.0 + 0.0 / 100.0) == costUsd;
  }

  /** The client amount of a line never falls as the margin rises exactly when its cost is not negative. */
  lemma LineRisesExactlyWhenCostIsNotNegative(costUsd: real)
    requires IsCents(costUsd)
    ensures (forall m, m' :: 0.0 <= m <= m' <= 100.0 ==> ClientAmount(costUsd, m) <= ClientAmount(costUsd, m')) <==> costUsd >= 0.0
  {
    if costUsd >= 0.0 {
      forall m, m' | 0.0 <= m <= m' <= 100.0
        ensures ClientAmount(costUsd, m) <= ClientAmount(costUsd, m')
      {
        ClientAmountRises(costUsd, m, m');
      }
    } else {
      NegativeLineFalls(costUsd);
      assert 0.0 <= 0.0 <= 100.0 <= 100.0;
    }
  }

  /** No line that the margin prices has a negative cost. */
  predicate MarkedUpCostsNotNegative(legs: seq<CostLeg>, overrides: Overrides) {
    forall leg :: leg in legs ==> forall g :: g in leg.groups ==> forall l :: l in g.lines ==>
      LineKey(leg.legId, l.id) in overrides || l.costUsd >= 0.0
  }

  lemma GroupClientRises(legId: string, g: CostGroup, m: real, m': real, overrides: Overrides)
    requires m <= m' && forall l :: l in g.lines ==> LineKey(legId, l.id) in overrides || l.costUsd >= 0.0
    ensures GroupClient(legId, m, overrides)(g) <= GroupClient(legId, m', overrides)(g)
  {
    var f, f' := LineClient(legId, m, overrides), LineClient(legId, m', overrides);
    forall l | l in g.lines
      ensures f(l) <= f'(l)
    {
      if LineKey(legId, l.id) !in overrides {
        ClientAmountRises(l.costUsd, m, m');
      }
    }
    SumMonotone(g.lines, f, f');
    LineSums(legId, g.lines, m, overrides);
    LineSums(legId, g.lines, m', overrides);
    RoundMonotone(Sum(g.lines, f), Sum(g.lines, f'));
  }

  lemma LegClientRises(leg: CostLeg, m: real, m': real, overrides: Overrides)
    requires m <= m' && MarkedUpCostsNotNegative([leg], overrides)
    ensures LegClient(m, overrides)(leg) <= LegClient(m', overrides)(leg)
  {
    var f, f' := GroupClient(leg.legId, m, overrides), GroupClient(leg.legId, m', overrides);
    assert leg in [leg];
    forall g | g in leg.groups
      ensures f(g) <= f'(g)
    {
      GroupClientRises(leg.legId, g, m, m', overrides);
    }
    SumMonotone(leg.groups, f, f');
    LegClientIsExact(leg, m, overrides);
    LegClientIsExact(leg, m', overrides);
  }

  /** With no negative marked-up cost, the client total never falls when the margin rises. */
  lemma ClientTotalRisesWithMargin(legs: seq<CostLeg>, m: real, m': real, overrides: Overrides)
    requires m <= m' && MarkedUpCostsNotNegative(legs, overrides)
    ensures PriceQuotation(legs, m, overrides).clientTotalUsd <= PriceQuotation(legs, m', overrides).clientTotalUsd
  {
    forall leg | leg in legs
      ensures LegClient(m, overrides)(leg) <= LegClient(m', overrides)(leg)
    {
      LegClientRises(leg, m, m', overrides);
    }
    SumMonotone(legs, LegClient(m, overrides), LegClient(m', overrides));
    ClientTotalIsLegTotal(legs, m, overrides);
    ClientTotalIsLegTotal(legs, m', overrides);
  }
}
