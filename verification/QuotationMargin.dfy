/** When does raising the margin never lower the client total? Margins are what the column holds: two
    decimals, from 0 to 100. */
module QuotationMargin {
  import opened Money
  import opened QuotationPricing

  /** The margins are MarginAt(0) to MarginAt(LAST_STEP). */
  const LAST_STEP: nat := 10000

  function MarginAt(k: nat): real {
    k as real / 100.0
  }

  function TotalAt(legs: seq<CostLeg>, overrides: Overrides, k: nat): real {
    PriceQuotation(legs, MarginAt(k), overrides).clientTotalUsd
  }

  ghost predicate NeverFalls(legs: seq<CostLeg>, overrides: Overrides) {
    forall j: nat, k: nat :: j <= k <= LAST_STEP ==> TotalAt(legs, overrides, j) <= TotalAt(legs, overrides, k)
  }

  // The lines that the margin prices, and the rest.

  function UnpinnedLines(legId: string, lines: seq<CostLine>, overrides: Overrides): seq<real> {
    if lines == [] then []
    else
      var n := |lines| - 1;
      var rest := UnpinnedLines(legId, lines[..n], overrides);
      if LineKey(legId, lines[n].id) in overrides then rest else rest + [lines[n].costUsd]
  }

  function UnpinnedGroups(legId: string, groups: seq<CostGroup>, overrides: Overrides): seq<real> {
    if groups == [] then []
    else
      var n := |groups| - 1;
      UnpinnedGroups(legId, groups[..n], overrides) + UnpinnedLines(legId, groups[n].lines, overrides)
  }

  /** The costs of all lines without an override, whatever leg and group they are in. */
  function UnpinnedCosts(legs: seq<CostLeg>, overrides: Overrides): seq<real> {
    if legs == [] then []
    else
      var n := |legs| - 1;
      UnpinnedCosts(legs[..n], overrides) + UnpinnedGroups(legs[n].legId, legs[n].groups, overrides)
  }

  function PinnedLine(legId: string, overrides: Overrides): CostLine -> real {
    (l: CostLine) => if LineKey(legId, l.id) in overrides then overrides[LineKey(legId, l.id)] else 0.0
  }

  function PinnedGroup(legId: string, overrides: Overrides): CostGroup -> real {
    (g: CostGroup) => Round2(Sum(g.lines, PinnedLine(legId, overrides)))
  }

  function PinnedLeg(overrides: Overrides): CostLeg -> real {
    (leg: CostLeg) => Sum(leg.groups, PinnedGroup(leg.legId, overrides))
  }

  /** What the pinned lines charge, rounded group by group. */
  function PinnedTotal(legs: seq<CostLeg>, overrides: Overrides): real {
    Sum(legs, PinnedLeg(overrides))
  }

  function Marked(marginPct: real): real -> real {
    (c: real) => ClientAmount(c, marginPct)
  }

  lemma MarkedIsCents(costs: seq<real>, m: real)
    ensures IsCents(Sum(costs, Marked(m)))
  {
    forall c | c in costs
      ensures IsCents(Marked(m)(c))
    {
      RoundIsCents(c * (1.0 + m / 100.0));
    }
    SumIsCents(costs, Marked(m));
  }

  lemma RoundAddsCents(x: real, y: real)
    requires IsCents(x)
    ensures Round2(x + y) == x + Round2(y)
  {
    var n := (x * 100.0).Floor;
    assert (x + y) * 100.0 + 0.5 == n as real + (y * 100.0 + 0.5);
    IntegerFloor((x + y) * 100.0 + 0.5, n + (y * 100.0 + 0.5).Floor);
  }

  lemma {:induction false} LinesSplit(legId: string, lines: seq<CostLine>, m: real, overrides: Overrides)
    ensures Sum(lines, LineClient(legId, m, overrides))
         == Sum(UnpinnedLines(legId, lines, overrides), Marked(m)) + Sum(lines, PinnedLine(legId, overrides))
  {
    if lines != [] {
      var n := |lines| - 1;
      LinesSplit(legId, lines[..n], m, overrides);
      SumOfOneMore(UnpinnedLines(legId, lines[..n], overrides), lines[n].costUsd, Marked(m));
    }
  }

  lemma GroupSplits(legId: string, g: CostGroup, m: real, overrides: Overrides)
    ensures GroupClient(legId, m, overrides)(g)
         == Sum(UnpinnedLines(legId, g.lines, overrides), Marked(m)) + PinnedGroup(legId, overrides)(g)
  {
    LineSums(legId, g.lines, m, overrides);
    LinesSplit(legId, g.lines, m, overrides);
    MarkedIsCents(UnpinnedLines(legId, g.lines, overrides), m);
    RoundAddsCents(Sum(UnpinnedLines(legId, g.lines, overrides), Marked(m)), Sum(g.lines, PinnedLine(legId, overrides)));
  }

  lemma {:induction false} GroupsSplit(legId: string, groups: seq<CostGroup>, m: real, overrides: Overrides)
    ensures Sum(groups, GroupClient(legId, m, overrides))
         == Sum(UnpinnedGroups(legId, groups, overrides), Marked(m)) + Sum(groups, PinnedGroup(legId, overrides))
  {
    if groups != [] {
      var n := |groups| - 1;
      GroupsSplit(legId, groups[..n], m, overrides);
      GroupSplits(legId, groups[n], m, overrides);
      SumConcat(UnpinnedGroups(legId, groups[..n], overrides), UnpinnedLines(legId, groups[n].lines, overrides), Marked(m));
    }
  }

  lemma {:induction false} LegsSplit(legs: seq<CostLeg>, m: real, overrides: Overrides)
    ensures Sum(legs, LegClient(m, overrides)) == Sum(UnpinnedCosts(legs, overrides), Marked(m)) + PinnedTotal(legs, overrides)
  {
    if legs != [] {
      var n := |legs| - 1;
      LegsSplit(legs[..n], m, overrides);
      LegClientIsExact(legs[n], m, overrides);
      GroupsSplit(legs[n].legId, legs[n].groups, m, overrides);
      SumConcat(UnpinnedCosts(legs[..n], overrides), UnpinnedGroups(legs[n].legId, legs[n].groups, overrides), Marked(m));
    }
  }

  /** The client total is what the unpinned costs are marked up to, plus a part that the margin does not
      touch: groups and legs, with all their rounding, drop out. */
  lemma ClientTotalSplits(legs: seq<CostLeg>, m: real, overrides: Overrides)
    ensures PriceQuotation(legs, m, overrides).clientTotalUsd == Sum(UnpinnedCosts(legs, overrides), Marked(m)) + PinnedTotal(legs, overrides)
  {
    ClientTotalIsLegTotal(legs, m, overrides);
    LegsSplit(legs, m, overrides);
  }

  // One step of the margin.

  /** What one hundredth of a percent adds to the client amount of a cost. */
  function Rise(k: nat): real -> real {
    (c: real) => ClientAmount(c, MarginAt(k + 1)) - ClientAmount(c, MarginAt(k))
  }

  /** No step of the margin takes away from what the costs charge together. */
  ghost predicate EveryStepRises(costs: seq<real>) {
    forall k: nat :: k < LAST_STEP ==> Sum(costs, Rise(k)) >= 0.0
  }

  lemma {:induction false} RiseIsDifference(costs: seq<real>, k: nat)
    ensures Sum(costs, Rise(k)) == Sum(costs, Marked(MarginAt(k + 1))) - Sum(costs, Marked(MarginAt(k)))
  {
    if costs != [] {
      RiseIsDifference(costs[..|costs| - 1], k);
    }
  }

  lemma TotalRisesBy(legs: seq<CostLeg>, overrides: Overrides, k: nat)
    ensures TotalAt(legs, overrides, k + 1) - TotalAt(legs, overrides, k) == Sum(UnpinnedCosts(legs, overrides), Rise(k))
  {
    ClientTotalSplits(legs, MarginAt(k), overrides);
    ClientTotalSplits(legs, MarginAt(k + 1), overrides);
    RiseIsDifference(UnpinnedCosts(legs, overrides), k);
  }

  ghost predicate RisesAt(f: nat -> real, k: nat) {
    f(k) <= f(k + 1)
  }

  lemma {:induction false} StepsAddUp(f: nat -> real, j: nat, k: nat)
    requires j <= k <= LAST_STEP && forall i: nat :: i < LAST_STEP ==> RisesAt(f, i)
    ensures f(j) <= f(k)
    decreases k
  {
    if j < k {
      StepsAddUp(f, j, k - 1);
      assert RisesAt(f, k - 1);
    }
  }

  /** The client total never falls as the margin rises exactly when no single step of the margin lowers
      what the costs without an override charge together. Overrides, groups and legs do not matter. */
  lemma NeverFallsExactlyWhenEveryStepRises(legs: seq<CostLeg>, overrides: Overrides)
    ensures NeverFalls(legs, overrides) <==> EveryStepRises(UnpinnedCosts(legs, overrides))
  {
    if EveryStepRises(UnpinnedCosts(legs, overrides)) {
      var f := (i: nat) => TotalAt(legs, overrides, i);
      forall i: nat | i < LAST_STEP
        ensures RisesAt(f, i)
      {
        TotalRisesBy(legs, overrides, i);
      }
      forall j: nat, k: nat | j <= k <= LAST_STEP
        ensures TotalAt(legs, overrides, j) <= TotalAt(legs, overrides, k)
      {
        StepsAddUp(f, j, k);
        assert f(j) == TotalAt(legs, overrides, j) && f(k) == TotalAt(legs, overrides, k);
      }
    }
    if NeverFalls(legs, overrides) {
      forall k: nat | k < LAST_STEP
        ensures Sum(UnpinnedCosts(legs, overrides), Rise(k)) >= 0.0
      {
        TotalRisesBy(legs, overrides, k);
        assert TotalAt(legs, overrides, k) <= TotalAt(legs, overrides, k + 1);
      }
    }
  }

  // The step in whole cents.

  lemma FloorOfQuotient(a: int)
    ensures (a as real / 10000.0).Floor == a / 10000
  {
    var q, r := a / 10000, a % 10000;
    assert a == q * 10000 + r;
    assert a as real / 10000.0 == q as real + r as real / 10000.0;
    IntegerFloor(a as real / 10000.0, q);
  }

  /** The client amount of n cents at step k, in cents. */
  function CentsAt(n: int, k: nat): int {
    n + (n * k + 5000) / 10000
  }

  lemma ScaledAmount(c: real, n: int, k: nat)
    requires c * 100.0 == n as real
    ensures c * (1.0 + MarginAt(k) / 100.0) * 100.0 + 0.5 == (n * 10000 + n * k + 5000) as real / 10000.0
  {
    assert MarginAt(k) / 100.0 == k as real / 10000.0;
    var f := k as real / 10000.0;
    assert c * (1.0 + f) * 100.0 == n as real + n as real * f;
    assert n as real * f == (n * k) as real / 10000.0 by {
      assert (n * k) as real == n as real * k as real;
    }
  }

  /** On whole cents the condition is one on integers. */
  lemma AmountInCents(c: real, n: int, k: nat)
    requires c * 100.0 == n as real
    ensures ClientAmount(c, MarginAt(k)) == CentsAt(n, k) as real / 100.0
  {
    ScaledAmount(c, n, k);
    FloorOfQuotient(n * 10000 + n * k + 5000);
    assert (n * 10000 + (n * k + 5000)) / 10000 == n + (n * k + 5000) / 10000;
  }

  // What is enough, and what is needed.

  /** No negative cost among the lines that the margin prices is enough. */
  lemma NeverFallsWithoutNegativeCosts(legs: seq<CostLeg>, overrides: Overrides)
    requires MarkedUpCostsNotNegative(legs, overrides)
    ensures NeverFalls(legs, overrides)
  {
    forall j: nat, k: nat | j <= k <= LAST_STEP
      ensures TotalAt(legs, overrides, j) <= TotalAt(legs, overrides, k)
    {
      ClientTotalRisesWithMargin(legs, MarginAt(j), MarginAt(k), overrides);
    }
  }

  function Itself(): real -> real {
    (c: real) => c
  }

  lemma EndsOfOne(c: real)
    requires IsCents(c)
    ensures Marked(MarginAt(LAST_STEP))(c) - Marked(MarginAt(0))(c) == c
  {
    var n := (c * 100.0).Floor;
    AmountInCents(c, n, 0);
    AmountInCents(c, n, LAST_STEP);
    assert CentsAt(n, 0) == n && CentsAt(n, LAST_STEP) == n + n;
  }

  lemma {:induction false} EndsOfTheRange(costs: seq<real>)
    requires forall c :: c in costs ==> IsCents(c)
    ensures Sum(costs, Marked(MarginAt(LAST_STEP))) - Sum(costs, Marked(MarginAt(0))) == Sum(costs, Itself())
  {
    if costs != [] {
      var n := |costs| - 1;
      assert costs[n] in costs;
      EndsOfTheRange(costs[..n]);
      EndsOfOne(costs[n]);
    }
  }

  lemma {:induction false} UnpinnedLinesInCents(legId: string, lines: seq<CostLine>, overrides: Overrides)
    requires forall l :: l in lines ==> IsCents(l.costUsd)
    ensures forall c :: c in UnpinnedLines(legId, lines, overrides) ==> IsCents(c)
  {
    if lines != [] {
      UnpinnedLinesInCents(legId, lines[..|lines| - 1], overrides);
    }
  }

  lemma {:induction false} UnpinnedGroupsInCents(legId: string, groups: seq<CostGroup>, overrides: Overrides)
    requires forall g :: g in groups ==> forall l :: l in g.lines ==> IsCents(l.costUsd)
    ensures forall c :: c in UnpinnedGroups(legId, groups, overrides) ==> IsCents(c)
  {
    if groups != [] {
      var n := |groups| - 1;
      UnpinnedGroupsInCents(legId, groups[..n], overrides);
      UnpinnedLinesInCents(legId, groups[n].lines, overrides);
    }
  }

  lemma {:induction false} UnpinnedInCents(legs: seq<CostLeg>, overrides: Overrides)
    requires CostsInCents(legs)
    ensures forall c :: c in UnpinnedCosts(legs, overrides) ==> IsCents(c)
  {
    if legs != [] {
      var n := |legs| - 1;
      UnpinnedInCents(legs[..n], overrides);
      UnpinnedGroupsInCents(legs[n].legId, legs[n].groups, overrides);
    }
  }

  /** From no margin to the whole margin the total gains exactly the unpinned costs. */
  lemma WholeMarginAddsTheCosts(legs: seq<CostLeg>, overrides: Overrides)
    requires CostsInCents(legs)
    ensures TotalAt(legs, overrides, LAST_STEP) - TotalAt(legs, overrides, 0) == Sum(UnpinnedCosts(legs, overrides), Itself())
  {
    UnpinnedInCents(legs, overrides);
    ClientTotalSplits(legs, MarginAt(0), overrides);
    ClientTotalSplits(legs, MarginAt(LAST_STEP), overrides);
    EndsOfTheRange(UnpinnedCosts(legs, overrides));
  }

  /** So costs that sum to less than nothing lower the total between the margins 0 and 100: a sum that
      is not negative is needed. */
  lemma NegativeSumLowersTotal(legs: seq<CostLeg>, overrides: Overrides)
    requires CostsInCents(legs) && Sum(UnpinnedCosts(legs, overrides), Itself()) < 0.0
    ensures TotalAt(legs, overrides, LAST_STEP) < TotalAt(legs, overrides, 0) && !NeverFalls(legs, overrides)
  {
    WholeMarginAddsTheCosts(legs, overrides);
  }

  // Three quotations of one leg.

  function Leg(costs: seq<CostLine>): seq<CostLeg> {
    [CostLeg("A", "L1", [CostGroup(FREIGHT, costs, Round2(Sum(costs, LineCost)))])]
  }

  function LineOf(id: string, n: int): CostLine {
    CostLine(id, n as real / 100.0, n as real / 100.0)
  }

  lemma TwoCosts(a: CostLine, b: CostLine)
    ensures UnpinnedCosts(Leg([a, b]), map[]) == [a.costUsd, b.costUsd]
  {
    var leg := Leg([a, b])[0];
    assert [leg][..0] == [] && leg.groups[..0] == [];
    assert [a, b][..1] == [a] && [a][..0] == [];
    assert UnpinnedLines("A", [a], map[]) == [a.costUsd];
    assert UnpinnedLines("A", [a, b], map[]) == [a.costUsd] + [b.costUsd];
    assert UnpinnedGroups("A", leg.groups, map[]) == [] + UnpinnedLines("A", [a, b], map[]);
    assert UnpinnedCosts([leg], map[]) == [] + UnpinnedGroups("A", leg.groups, map[]);
  }

  lemma TwoRises(m: int, n: int, k: nat)
    ensures var costs := UnpinnedCosts(Leg([LineOf("FREIGHT:0", m), LineOf("FREIGHT:1", n)]), map[]);
      Sum(costs, Rise(k)) == (CentsAt(m, k + 1) - CentsAt(m, k) + CentsAt(n, k + 1) - CentsAt(n, k)) as real / 100.0
  {
    var a, b := LineOf("FREIGHT:0", m), LineOf("FREIGHT:1", n);
    TwoCosts(a, b);
    assert [a.costUsd, b.costUsd][..1] == [a.costUsd] && [a.costUsd][..0] == [];
    AmountInCents(a.costUsd, m, k);
    AmountInCents(a.costUsd, m, k + 1);
    AmountInCents(b.costUsd, n, k);
    AmountInCents(b.costUsd, n, k + 1);
    assert Sum([a.costUsd], Rise(k)) == Rise(k)(a.costUsd);
    assert Sum([a.costUsd, b.costUsd], Rise(k)) == Sum([a.costUsd], Rise(k)) + Rise(k)(b.costUsd);
  }

  /** The promise fails: a charge of 1.00 with a discount of 2.00 gets cheaper as the margin rises. */
  lemma DiscountedQuotationFalls()
    ensures var legs := Leg([LineOf("FREIGHT:0", 100), LineOf("FREIGHT:1", -200)]);
      TotalAt(legs, map[], LAST_STEP) < TotalAt(legs, map[], 0)
  {
    var a, b := LineOf("FREIGHT:0", 100), LineOf("FREIGHT:1", -200);
    var legs := Leg([a, b]);
    TwoCosts(a, b);
    WholeCents(100);
    WholeCents(-200);
    assert CostsInCents(legs);
    assert [a.costUsd, b.costUsd][..1] == [a.costUsd] && [a.costUsd][..0] == [];
    assert Sum([a.costUsd], Itself()) == 1.0;
    assert Sum([a.costUsd, b.costUsd], Itself()) == 1.0 + -2.0;
    NegativeSumLowersTotal(legs, map[]);
  }

  /** A negative line alone does not break it: a discount of a cent on a charge of 10000.00 never lowers
      the total. */
  lemma SmallDiscountNeverFalls()
    ensures var legs := Leg([LineOf("FREIGHT:0", 1000000), LineOf("FREIGHT:1", -1)]);
      NeverFalls(legs, map[]) && !MarkedUpCostsNotNegative(legs, map[])
  {
    var legs := Leg([LineOf("FREIGHT:0", 1000000), LineOf("FREIGHT:1", -1)]);
    forall k: nat | k < LAST_STEP
      ensures Sum(UnpinnedCosts(legs, map[]), Rise(k)) >= 0.0
    {
      TwoRises(1000000, -1, k);
    }
    NeverFallsExactlyWhenEveryStepRises(legs, map[]);
    var leg := legs[0];
    var g := leg.groups[0];
    assert leg in legs && g in leg.groups && g.lines[1] in g.lines && g.lines[1].costUsd < 0.0;
  }

  /** And a sum that is not negative is not enough: a cent and a discount of a cent lose a cent between
      the margins 50.00 and 50.01. */
  lemma ZeroSumCanFall()
    ensures var legs := Leg([LineOf("FREIGHT:0", 1), LineOf("FREIGHT:1", -1)]);
      TotalAt(legs, map[], 5001) < TotalAt(legs, map[], 5000)
  {
    TwoRises(1, -1, 5000);
    assert CentsAt(1, 5000) == 2 && CentsAt(1, 5001) == 2 && CentsAt(-1, 5000) == -1 && CentsAt(-1, 5001) == -2;
    TotalRisesBy(Leg([LineOf("FREIGHT:0", 1), LineOf("FREIGHT:1", -1)]), map[], 5000);
  }
}
