/** packages/shared/src/fx.ts, and the pricing loop of award.service.ts generateClientQuote: the frozen
    award, and how far a quotation priced from it can drift. */
module AwardPricing {
  import opened Wrappers
  import opened Money
  import opened QuoteEngine
  import opened QuotationPricing
  import opened QuotationCharges

  datatype FxRate = FxRate(currency: string, unitsPerUsd: real, effectiveFrom: int, createdAt: int) {
    predicate NewerThan(other: FxRate) {
      effectiveFrom > other.effectiveFrom || (effectiveFrom == other.effectiveFrom && createdAt > other.createdAt)
    }
  }

  /** No rate of its currency takes effect later than rates[i], none of the same date was created
      later, and rates[i] is the first listed of those alike in both. */
  ghost predicate IsLatest(rates: seq<FxRate>, i: nat)
    requires i < |rates|
  {
    forall j :: 0 <= j < |rates| && rates[j].currency == rates[i].currency ==>
      && rates[i].effectiveFrom >= rates[j].effectiveFrom
      && (rates[i].effectiveFrom == rates[j].effectiveFrom ==> rates[i].createdAt >= rates[j].createdAt)
      && (rates[i].effectiveFrom == rates[j].effectiveFrom && rates[i].createdAt == rates[j].createdAt ==> i <= j)
  }

  ghost predicate LatestOf(rates: seq<FxRate>, c: string, r: FxRate) {
    exists i :: 0 <= i < |rates| && rates[i] == r && r.currency == c && IsLatest(rates, i)
  }

  ghost predicate LatestRates(rates: seq<FxRate>, m: map<string, FxRate>) {
    && (forall c :: c in m ==> LatestOf(rates, c, m[c]))
    && (forall r :: r in rates ==> r.currency in m)
  }

  function WithRate(m: map<string, FxRate>, r: FxRate): map<string, FxRate> {
    if r.currency !in m || r.NewerThan(m[r.currency]) then m[r.currency := r] else m
  }

  lemma LatestOfOneMore(rates: seq<FxRate>, m: map<string, FxRate>, r: FxRate, c: string)
    requires LatestRates(rates, m) && c in WithRate(m, r)
    ensures LatestOf(rates + [r], c, WithRate(m, r)[c])
  {
    var rates' := rates + [r];
    if c == r.currency && (c !in m || r.NewerThan(m[c])) {
      forall j | 0 <= j < |rates| && rates[j].currency == c
        ensures r.NewerThan(rates[j])
      {
        assert rates[j] in rates;
        var i :| 0 <= i < |rates| && rates[i] == m[c] && IsLatest(rates, i);
      }
      assert rates'[|rates|] == r && IsLatest(rates', |rates|);
    } else {
      var i :| 0 <= i < |rates| && rates[i] == m[c] && m[c].currency == c && IsLatest(rates, i);
      assert rates'[i] == m[c] && IsLatest(rates', i);
    }
  }

  method LatestRateByCurrency(rates: seq<FxRate>) returns (m: map<string, FxRate>)
    ensures LatestRates(rates, m)
  {
    m := map[];
    for i := 0 to |rates|
      invariant LatestRates(rates[..i], m)
    {
      assert rates[..i + 1] == rates[..i] + [rates[i]];
      forall c | c in WithRate(m, rates[i])
        ensures LatestOf(rates[..i] + [rates[i]], c, WithRate(m, rates[i])[c])
      {
        LatestOfOneMore(rates[..i], m, rates[i], c);
      }
      m := WithRate(m, rates[i]);
    }
    assert rates[..|rates|] == rates;
  }

  /** Dollars pass through as they are; anything else needs a positive rate, and is rounded. */
  function ToUsd(amount: real, currency: string, rate: Option<FxRate>): Option<real> {
    if currency == "USD" then Some(amount)
    else if rate.None? || rate.value.unitsPerUsd <= 0.0 then None
    else Some(Round2(amount / rate.value.unitsPerUsd))
  }

  datatype AwardError = NotPriceable | NoFxRate

  /** A leg with its approved decision: the winner's submitted offer and the shortlisted variant. */
  datatype DecidedLeg = DecidedLeg(legId: string, legCode: string, submitted: Option<QuoteDraft>, rfqCurrency: Option<string>, variant: Option<Variant>)

  datatype SnapshotLeg = SnapshotLeg(legId: string, variant: Option<Variant>, currency: Option<string>, unitsPerUsd: Option<real>,
                                     usdTotal: real, nativeTotal: real)

  datatype Snapshot = Snapshot(legs: seq<SnapshotLeg>, combinedUsd: real)

  function CurrencyOf(draft: QuoteDraft, rfqCurrency: Option<string>): Option<string> {
    if draft.currency.Some? then draft.currency else rfqCurrency
  }

  function RateFor(currency: Option<string>, rates: map<string, FxRate>): Option<FxRate> {
    if currency.Some? && currency.value in rates then Some(rates[currency.value]) else None
  }

  /** One turn of the pricing loop. */
  function PriceWinner(leg: DecidedLeg, rates: map<string, FxRate>): Result<SnapshotLeg, AwardError> {
    if leg.submitted.None? || leg.variant !in VariantsForMode(leg.submitted.value.mode) then Err(NotPriceable)
    else
      var draft := leg.submitted.value;
      var nativeTotal := GrandTotal(draft, leg.variant);
      var currency := CurrencyOf(draft, leg.rfqCurrency);
      var rate := RateFor(currency, rates);
      var usdTotal := if currency.Some? then ToUsd(nativeTotal, currency.value, rate) else None;
      if usdTotal.None? then Err(NoFxRate)
      else Ok(SnapshotLeg(leg.legId, leg.variant, currency, if rate.Some? then Some(rate.value.unitsPerUsd) else None,
                          usdTotal.value, nativeTotal))
  }

  /** The currency of an offer: its own, or else that of the request it answers. */
  ghost predicate OffersIn(leg: DecidedLeg, currency: Option<string>)
    requires leg.submitted.Some?
  {
    && (leg.submitted.value.currency.Some? ==> currency == leg.submitted.value.currency)
    && (leg.submitted.value.currency.None? ==> currency == leg.rfqCurrency)
  }

  /** The shortlisted column is one the offer's mode has. */
  ghost predicate HasColumn(leg: DecidedLeg) {
    leg.submitted.Some?
    && match leg.submitted.value.mode
       case Some(ROAD) => leg.variant == Some(DEDICATED) || leg.variant == Some(GROUPAGE)
       case Some(SEA) => leg.variant == Some(FCL) || leg.variant == Some(LCL)
       case _ => leg.variant == None
  }

  /** A winner is refused exactly when its column does not exist, or its currency is unknown or has no
      positive rate; else the frozen total is the column's total itself for dollars, and for any other
      currency whole cents within half a cent of the total at the currency's rate. */
  lemma WinnerIsPriced(leg: DecidedLeg, rates: map<string, FxRate>, c: Option<string>)
    requires leg.submitted.Some? ==> OffersIn(leg, c)
    ensures PriceWinner(leg, rates) == Err(NotPriceable) <==> !HasColumn(leg)
    ensures PriceWinner(leg, rates) == Err(NoFxRate)
       <==> HasColumn(leg) && (c == None || (c != Some("USD") && (c.value !in rates || rates[c.value].unitsPerUsd <= 0.0)))
    ensures PriceWinner(leg, rates).Ok? ==>
      var w := PriceWinner(leg, rates).value;
      && w.legId == leg.legId && w.variant == leg.variant && w.currency == c
      && w.nativeTotal == GrandTotal(leg.submitted.value, leg.variant)
      && (c.value in rates ==> w.unitsPerUsd == Some(rates[c.value].unitsPerUsd))
      && (c == Some("USD") ==> w.usdTotal == w.nativeTotal)
      && (c != Some("USD") ==> IsCents(w.usdTotal) && -HALF_CENT < w.usdTotal - w.nativeTotal / rates[c.value].unitsPerUsd <= HALF_CENT)
  {
    if PriceWinner(leg, rates).Ok? && c != Some("USD") {
      var exact := GrandTotal(leg.submitted.value, leg.variant) / rates[c.value].unitsPerUsd;
      RoundIsClose(exact);
      RoundIsCents(exact);
    }
  }

  function UsdTotalOf(w: SnapshotLeg): real {
    w.usdTotal
  }

  /** Every leg is priced, in order, or the first refusal stands. */
  ghost predicate Frozen(legs: seq<DecidedLeg>, rates: map<string, FxRate>, s: Snapshot) {
    && |s.legs| == |legs|
    && (forall i :: 0 <= i < |legs| ==> PriceWinner(legs[i], rates) == Ok(s.legs[i]))
    && s.combinedUsd == Round2(Sum(s.legs, UsdTotalOf))
  }

  method FreezeAward(legs: seq<DecidedLeg>, rates: map<string, FxRate>) returns (r: Result<Snapshot, AwardError>)
    ensures r.Ok? ==> Frozen(legs, rates, r.value)
    ensures r.Err? <==> exists i :: 0 <= i < |legs| && PriceWinner(legs[i], rates).Err?
    ensures r.Err? ==>
      exists i :: 0 <= i < |legs| && PriceWinner(legs[i], rates) == Err(r.error) && forall j :: 0 <= j < i ==> PriceWinner(legs[j], rates).Ok?
  {
    var winners: seq<SnapshotLeg> := [];
    for i := 0 to |legs|
      invariant |winners| == i && forall j :: 0 <= j < i ==> PriceWinner(legs[j], rates) == Ok(winners[j])
    {
      var w := PriceWinner(legs[i], rates);
      if w.Err? {
        return Err(w.error);
      }
      winners := winners + [w.value];
    }
    r := Ok(Snapshot(winners, Round2(Sum(winners, UsdTotalOf))));
  }

  /** The lines a new quotation draft gives the winner of a leg. */
  function DraftLeg(leg: DecidedLeg, w: SnapshotLeg): Result<CostLeg, ChargesError>
    requires leg.submitted.Some?
  {
    var conv := ConversionOf(w.currency, w.unitsPerUsd);
    if conv.Err? then Err(conv.error) else Ok(CostLeg(w.legId, leg.legCode, GroupsOf(Entries(leg.submitted.value, w.variant), conv.value)))
  }

  /** A frozen winner can always be priced for the client: the rate that froze it is usable. */
  lemma FrozenWinnerIsPriceable(leg: DecidedLeg, rates: map<string, FxRate>, w: SnapshotLeg)
    requires PriceWinner(leg, rates) == Ok(w)
    ensures DraftLeg(leg, w).Ok? && ConversionOf(w.currency, w.unitsPerUsd).Ok?
    ensures ConversionOf(w.currency, w.unitsPerUsd).value.Usable()
  {
  }

  function ExactUsd(conv: Conversion): real -> real
    requires conv.Usable()
  {
    match conv
    case Same => (a: real) => a
    case Per(u) => (a: real) => if u > 0.0 then a / u else a
  }

  function RoundedUsd(conv: Conversion): real -> real
    requires conv.Usable()
  {
    var exact := ExactUsd(conv);
    (a: real) => Round2(exact(a))
  }

  lemma QuotientAdds(a: real, b: real, u: real)
    requires u > 0.0
    ensures (a + b) / u == a / u + b / u
  {
    var x, y := a / u, b / u;
    assert (x + y) * u == a + b;
  }

  lemma ExactAdds(conv: Conversion, a: real, b: real)
    requires conv.Usable()
    ensures ExactUsd(conv)(a + b) == ExactUsd(conv)(a) + ExactUsd(conv)(b) && ExactUsd(conv)(0.0) == 0.0
  {
    if conv.Per? {
      QuotientAdds(a, b, conv.unitsPerUsd);
    }
  }

  /** Converting each entry exactly and summing is converting the sum. */
  lemma {:induction false} ConvertedSum(entries: seq<Entry>, conv: Conversion)
    requires conv.Usable()
    ensures Sum(entries, Of(ExactUsd(conv))) == ExactUsd(conv)(Sum(entries, EntryAmount))
  {
    if entries == [] {
      ExactAdds(conv, 0.0, 0.0);
    } else {
      var n := |entries| - 1;
      ConvertedSum(entries[..n], conv);
      ExactAdds(conv, Sum(entries[..n], EntryAmount), entries[n].amount);
    }
  }

  /** Rounding every line costs at most half a cent a line. */
  lemma RoundedSumIsClose(entries: seq<Entry>, conv: Conversion)
    requires conv.Usable()
    ensures Abs(Sum(entries, Of(RoundedUsd(conv))) - ExactUsd(conv)(Sum(entries, EntryAmount))) <= HALF_CENT * |entries| as real
  {
    var f, g := Of(RoundedUsd(conv)), Of(ExactUsd(conv));
    forall e | e in entries
      ensures -HALF_CENT <= f(e) - g(e) <= HALF_CENT
    {
      RoundIsClose(ExactUsd(conv)(e.amount));
    }
    SumClose(entries, f, g, HalfCent<Entry>());
    HalfCents(entries);
    ConvertedSum(entries, conv);
  }

  lemma LegCostIsEntrySum(leg: DecidedLeg, w: SnapshotLeg, conv: Conversion)
    requires leg.submitted.Some? && conv.Usable() && ConversionOf(w.currency, w.unitsPerUsd) == Ok(conv)
    ensures LegLineCost(DraftLeg(leg, w).value) == Sum(Entries(leg.submitted.value, w.variant), Of(RoundedUsd(conv)))
  {
    var entries := Entries(leg.submitted.value, w.variant);
    GroupsSum(entries, conv, GroupLineCost, LineCost);
    LinesSum(entries, conv, LineCost, RoundedUsd(conv));
  }

  /** What the rows of a leg that its award does not count are worth in dollars. */
  function ExcessUsd(leg: DecidedLeg, w: SnapshotLeg): real {
    var conv := ConversionOf(w.currency, w.unitsPerUsd);
    if leg.submitted.Some? && conv.Ok? && conv.value.Usable() then ExactUsd(conv.value)(Excess(leg.submitted.value, w.variant)) else 0.0
  }

  /** How many lines the quotation has for a leg. */
  function LegLineCount(leg: DecidedLeg, w: SnapshotLeg): nat {
    if leg.submitted.Some? then |Entries(leg.submitted.value, w.variant)| else 0
  }

  predicate WithinHalfCents(x: real, n: nat) {
    Abs(x) <= HALF_CENT * n as real
  }

  lemma BoundsAdd(a: real, b: real, x: real, m: nat, n: nat)
    requires WithinHalfCents(a, m) && WithinHalfCents(b, n) && x == a + b
    ensures WithinHalfCents(x, m + n)
  {
  }

  lemma UsdTotalIsClose(leg: DecidedLeg, rates: map<string, FxRate>, w: SnapshotLeg, conv: Conversion)
    requires PriceWinner(leg, rates) == Ok(w) && ConversionOf(w.currency, w.unitsPerUsd) == Ok(conv) && conv.Usable()
    ensures w.variant == leg.variant
    ensures WithinHalfCents(ExactUsd(conv)(GrandTotal(leg.submitted.value, w.variant)) - w.usdTotal, 1)
  {
    RoundIsClose(ExactUsd(conv)(GrandTotal(leg.submitted.value, leg.variant)));
  }

  /** A leg, its frozen winner, and the lines a new quotation draft gives it. */
  ghost predicate Drafted(leg: DecidedLeg, rates: map<string, FxRate>, w: SnapshotLeg, d: CostLeg) {
    PriceWinner(leg, rates) == Ok(w) && leg.submitted.Some? && DraftLeg(leg, w) == Ok(d)
  }

  lemma ExactEntrySum(draft: QuoteDraft, v: Option<Variant>, conv: Conversion)
    requires conv.Usable()
    ensures ExactUsd(conv)(Sum(Entries(draft, v), EntryAmount)) == ExactUsd(conv)(GrandTotal(draft, v)) + ExactUsd(conv)(Excess(draft, v))
  {
    EntriesSum(draft, v);
    ExactAdds(conv, GrandTotal(draft, v), Excess(draft, v));
  }

  lemma Regroup(a: real, b: real, c: real, n: nat)
    requires Abs(a - (b + c)) <= HALF_CENT * n as real
    ensures WithinHalfCents(a - b - c, n)
  {
  }

  /** The rounded entries against the exact value of what the award and the excess rows come to. */
  lemma EntriesAreClose(draft: QuoteDraft, v: Option<Variant>, conv: Conversion)
    requires conv.Usable()
    ensures WithinHalfCents(Sum(Entries(draft, v), Of(RoundedUsd(conv))) - ExactUsd(conv)(GrandTotal(draft, v)) - ExactUsd(conv)(Excess(draft, v)),
                            |Entries(draft, v)|)
  {
    RoundedSumIsClose(Entries(draft, v), conv);
    ExactEntrySum(draft, v, conv);
    var rounded := Sum(Entries(draft, v), Of(RoundedUsd(conv)));
    var total, excess := ExactUsd(conv)(GrandTotal(draft, v)), ExactUsd(conv)(Excess(draft, v));
    Regroup(rounded, total, excess, |Entries(draft, v)|);
  }

  /** One leg: the quotation's lines against the award's total. */
  lemma LegIsClose(leg: DecidedLeg, rates: map<string, FxRate>, w: SnapshotLeg, d: CostLeg)
    requires Drafted(leg, rates, w, d)
    ensures WithinHalfCents(LegLineCost(d) - w.usdTotal - ExcessUsd(leg, w), LegLineCount(leg, w) + 1)
  {
    FrozenWinnerIsPriceable(leg, rates, w);
    var conv := ConversionOf(w.currency, w.unitsPerUsd).value;
    var exact := ExactUsd(conv);
    LegCostIsEntrySum(leg, w, conv);
    EntriesAreClose(leg.submitted.value, w.variant, conv);
    UsdTotalIsClose(leg, rates, w, conv);
    BoundsAdd(LegLineCost(d) - exact(GrandTotal(leg.submitted.value, w.variant)) - ExcessUsd(leg, w),
              exact(GrandTotal(leg.submitted.value, w.variant)) - w.usdTotal,
              LegLineCost(d) - w.usdTotal - ExcessUsd(leg, w), LegLineCount(leg, w), 1);
  }

  /** The draft of a whole frozen award. */
  ghost predicate DraftedFrom(legs: seq<DecidedLeg>, rates: map<string, FxRate>, winners: seq<SnapshotLeg>, draft: seq<CostLeg>) {
    && |winners| == |legs| == |draft|
    && forall i :: 0 <= i < |legs| ==> Drafted(legs[i], rates, winners[i], draft[i])
  }

  /** How many lines the quotation has. */
  function LineCount(legs: seq<DecidedLeg>, winners: seq<SnapshotLeg>): nat
    requires |winners| == |legs|
  {
    if legs == [] then 0
    else
      var n := |legs| - 1;
      LineCount(legs[..n], winners[..n]) + LegLineCount(legs[n], winners[n])
  }

  /** What the award does not count, over all legs. */
  function AllExcessUsd(legs: seq<DecidedLeg>, winners: seq<SnapshotLeg>): real
    requires |winners| == |legs|
  {
    if legs == [] then 0.0
    else
      var n := |legs| - 1;
      AllExcessUsd(legs[..n], winners[..n]) + ExcessUsd(legs[n], winners[n])
  }

  /** How far the lines of all legs are from their awards. */
  function Drift(legs: seq<DecidedLeg>, winners: seq<SnapshotLeg>, draft: seq<CostLeg>): real
    requires |winners| == |legs| == |draft|
  {
    AllLineCost(draft) - Sum(winners, UsdTotalOf) - AllExcessUsd(legs, winners)
  }

  lemma LastDrift(legs: seq<DecidedLeg>, winners: seq<SnapshotLeg>, draft: seq<CostLeg>)
    requires |winners| == |legs| == |draft| && legs != []
    ensures var n := |legs| - 1;
      Drift(legs, winners, draft)
      == Drift(legs[..n], winners[..n], draft[..n]) + (LegLineCost(draft[n]) - winners[n].usdTotal - ExcessUsd(legs[n], winners[n]))
  {
  }

  /** One leg more moves the drift by no more than that leg's own bound. */
  lemma DriftOfOneMore(legs: seq<DecidedLeg>, rates: map<string, FxRate>, winners: seq<SnapshotLeg>, draft: seq<CostLeg>)
    requires DraftedFrom(legs, rates, winners, draft) && legs != []
    requires var n := |legs| - 1; WithinHalfCents(Drift(legs[..n], winners[..n], draft[..n]), LineCount(legs[..n], winners[..n]) + n)
    ensures WithinHalfCents(Drift(legs, winners, draft), LineCount(legs, winners) + |legs|)
  {
    var n := |legs| - 1;
    LegIsClose(legs[n], rates, winners[n], draft[n]);
    LastDrift(legs, winners, draft);
    var before, own := Drift(legs[..n], winners[..n], draft[..n]), LegLineCost(draft[n]) - winners[n].usdTotal - ExcessUsd(legs[n], winners[n]);
    BoundsAdd(before, own, Drift(legs, winners, draft), LineCount(legs[..n], winners[..n]) + n, LegLineCount(legs[n], winners[n]) + 1);
  }

  lemma {:induction false} SumsAreClose(legs: seq<DecidedLeg>, rates: map<string, FxRate>, winners: seq<SnapshotLeg>, draft: seq<CostLeg>)
    requires DraftedFrom(legs, rates, winners, draft)
    ensures WithinHalfCents(Drift(legs, winners, draft), LineCount(legs, winners) + |legs|)
  {
    if legs != [] {
      var n := |legs| - 1;
      SumsAreClose(legs[..n], rates, winners[..n], draft[..n]);
      DriftOfOneMore(legs, rates, winners, draft);
    }
  }

  lemma GroupsAreInCents(entries: seq<Entry>, conv: Conversion, g: CostGroup)
    requires conv.Usable() && g in GroupsOf(entries, conv)
    ensures forall l :: l in g.lines ==> IsCents(l.costUsd)
  {
    assert g.lines == LinesOf(entries, g.group, conv);
    LineCostsAreCents(entries, g.group, conv);
  }

  lemma LinesAreInCents(leg: DecidedLeg, w: SnapshotLeg)
    requires leg.submitted.Some? && DraftLeg(leg, w).Ok?
    ensures CostsInCents([DraftLeg(leg, w).value])
  {
    var conv, d := ConversionOf(w.currency, w.unitsPerUsd).value, DraftLeg(leg, w).value;
    forall g | g in d.groups
      ensures forall l :: l in g.lines ==> IsCents(l.costUsd)
    {
      GroupsAreInCents(Entries(leg.submitted.value, w.variant), conv, g);
    }
  }

  lemma {:induction false} LineCostsAreCents(entries: seq<Entry>, g: ChargeGroup, conv: Conversion)
    requires conv.Usable()
    ensures forall l :: l in LinesOf(entries, g, conv) ==> IsCents(l.costUsd)
  {
    if entries != [] {
      LineCostsAreCents(entries[..|entries| - 1], g, conv);
      RoundIsCents(conv.Exact(entries[|entries| - 1].amount));
    }
  }

  lemma DraftIsInCents(legs: seq<DecidedLeg>, rates: map<string, FxRate>, winners: seq<SnapshotLeg>, draft: seq<CostLeg>)
    requires DraftedFrom(legs, rates, winners, draft)
    ensures CostsInCents(draft)
  {
    forall leg | leg in draft
      ensures CostsInCents([leg]) && leg in [leg]
    {
      var i :| 0 <= i < |draft| && draft[i] == leg;
      assert Drafted(legs[i], rates, winners[i], draft[i]);
      LinesAreInCents(legs[i], winners[i]);
    }
  }

  /** The quotation's cost total and the award's frozen total, for the same winners, differ by the
      rows the award does not count, to within half a cent for every line, every leg and the total. */
  lemma CostTotalMatchesAward(legs: seq<DecidedLeg>, rates: map<string, FxRate>, s: Snapshot, draft: seq<CostLeg>,
                              marginPct: real, overrides: Overrides)
    requires Frozen(legs, rates, s) && DraftedFrom(legs, rates, s.legs, draft)
    ensures WithinHalfCents(PriceQuotation(draft, marginPct, overrides).costTotalUsd - s.combinedUsd - AllExcessUsd(legs, s.legs),
                            LineCount(legs, s.legs) + |legs| + 1)
  {
    DraftIsInCents(legs, rates, s.legs, draft);
    CostTotalIsConserved(draft, marginPct, overrides);
    SumsAreClose(legs, rates, s.legs, draft);
    CombinedIsClose(s);
    BoundsAdd(Drift(legs, s.legs, draft), Sum(s.legs, UsdTotalOf) - Round2(Sum(s.legs, UsdTotalOf)),
              AllLineCost(draft) - s.combinedUsd - AllExcessUsd(legs, s.legs), LineCount(legs, s.legs) + |legs|, 1);
  }

  lemma CombinedIsClose(s: Snapshot)
    ensures WithinHalfCents(Sum(s.legs, UsdTotalOf) - Round2(Sum(s.legs, UsdTotalOf)), 1)
  {
    RoundIsClose(Sum(s.legs, UsdTotalOf));
  }

  lemma {:induction false} SeededHaveNoExcess(legs: seq<DecidedLeg>, rates: map<string, FxRate>, winners: seq<SnapshotLeg>, draft: seq<CostLeg>)
    requires DraftedFrom(legs, rates, winners, draft)
    requires forall i :: 0 <= i < |legs| ==> legs[i].submitted.Some? && SeededShape(legs[i].submitted.value)
    ensures AllExcessUsd(legs, winners) == 0.0
  {
    if legs != [] {
      var n := |legs| - 1;
      SeededHaveNoExcess(legs[..n], rates, winners[..n], draft[..n]);
      assert Drafted(legs[n], rates, winners[n], draft[n]);
      SeededLegHasNoExcess(legs[n], rates, winners[n]);
    }
  }

  lemma SeededLegHasNoExcess(leg: DecidedLeg, rates: map<string, FxRate>, w: SnapshotLeg)
    requires PriceWinner(leg, rates) == Ok(w) && leg.submitted.Some? && SeededShape(leg.submitted.value)
    ensures ExcessUsd(leg, w) == 0.0
  {
    SeededHasNoExcess(leg.submitted.value, w.variant);
    FrozenWinnerIsPriceable(leg, rates, w);
    ExactAdds(ConversionOf(w.currency, w.unitsPerUsd).value, 0.0, 0.0);
  }

  /** For offers of the seeded shape the two totals agree to within that rounding. */
  lemma SeededCostTotalMatchesAward(legs: seq<DecidedLeg>, rates: map<string, FxRate>, s: Snapshot, draft: seq<CostLeg>,
                                    marginPct: real, overrides: Overrides)
    requires Frozen(legs, rates, s) && DraftedFrom(legs, rates, s.legs, draft)
    requires forall i :: 0 <= i < |legs| ==> legs[i].submitted.Some? && SeededShape(legs[i].submitted.value)
    ensures Abs(PriceQuotation(draft, marginPct, overrides).costTotalUsd - s.combinedUsd)
         <= HALF_CENT * (LineCount(legs, s.legs) + |legs| + 1) as real
  {
    CostTotalMatchesAward(legs, rates, s, draft, marginPct, overrides);
    SeededHaveNoExcess(legs, rates, s.legs, draft);
  }
}
