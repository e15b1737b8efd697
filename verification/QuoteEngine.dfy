/** packages/shared/src/quote-engine.ts and quote.ts: what a forwarder's submitted quote comes to. */
module QuoteEngine {
  import opened Wrappers
  import opened Money

  datatype Mode = ROAD | SEA | AIR
  datatype Variant = DEDICATED | GROUPAGE | FCL | LCL
  datatype Zone = ORIGIN_ZONE | DESTINATION_ZONE | MAIN_FREIGHT

  datatype Charge = Charge(zone: Option<Zone>, amount: Option<real>, pieceWeightKg: Option<real>,
                           airlineLimitKg: Option<real>, ratePerExcessKg: Option<real>)
  datatype RateRow = RateRow(rateVariant: Variant, amount: Option<real>)

  /** The priced part of a submitted quote. A null mode is None. */
  datatype QuoteDraft = QuoteDraft(mode: Option<Mode>, currency: Option<string>, charges: seq<Charge>, trucking: seq<RateRow>,
                                   seaRates: seq<RateRow>, warehouse: seq<Option<real>>)

  function ComputeHeavyWeightAmount(pieceWeightKg: real, airlineLimitKg: real, ratePerExcessKg: real): real {
    (if pieceWeightKg - airlineLimitKg > 0.0 then pieceWeightKg - airlineLimitKg else 0.0) * ratePerExcessKg
  }

  /** A line with all three weight inputs is worth what they compute, whatever its amount says. */
  function EffectiveChargeAmount(c: Charge): real {
    if c.pieceWeightKg.Some? && c.airlineLimitKg.Some? && c.ratePerExcessKg.Some?
    then ComputeHeavyWeightAmount(c.pieceWeightKg.value, c.airlineLimitKg.value, c.ratePerExcessKg.value)
    else c.amount.UnwrapOr(0.0)
  }

  /** The freight columns of a mode; air and an unset mode have one implicit column. */
  function VariantsForMode(mode: Option<Mode>): seq<Option<Variant>> {
    match mode
    case Some(ROAD) => [Some(DEDICATED), Some(GROUPAGE)]
    case Some(SEA) => [Some(FCL), Some(LCL)]
    case _ => [None]
  }

  /** The amount of the first row of a variant. */
  function FirstRate(rows: seq<RateRow>, v: Option<Variant>): Option<real> {
    if rows == [] then None
    else if Some(rows[0].rateVariant) == v then rows[0].amount
    else FirstRate(rows[1..], v)
  }

  function VariantRate(draft: QuoteDraft, v: Option<Variant>): Option<real> {
    match draft.mode
    case Some(ROAD) => FirstRate(draft.trucking, v)
    case Some(SEA) => FirstRate(draft.seaRates, v)
    case _ => None
  }

  function WarehouseSum(draft: QuoteDraft): real {
    Sum(draft.warehouse, (w: Option<real>) => w.UnwrapOr(0.0))
  }

  function AdditionalChargeSum(draft: QuoteDraft): real {
    Sum(draft.charges, EffectiveChargeAmount)
  }

  /** computeQuoteTotals, for one column. */
  function GrandTotal(draft: QuoteDraft, v: Option<Variant>): real {
    VariantRate(draft, v).UnwrapOr(0.0) + AdditionalChargeSum(draft) + WarehouseSum(draft)
  }

  /** An excess-weight line is worth its kilos over the limit at the rate, whatever its amount says;
      any other line its amount, a blank one nothing. */
  lemma ChargeWorth(c: Charge)
    ensures c.pieceWeightKg.Some? && c.airlineLimitKg.Some? && c.ratePerExcessKg.Some? ==>
      && (c.pieceWeightKg.value <= c.airlineLimitKg.value ==> EffectiveChargeAmount(c) == 0.0)
      && (c.pieceWeightKg.value > c.airlineLimitKg.value
          ==> EffectiveChargeAmount(c) == (c.pieceWeightKg.value - c.airlineLimitKg.value) * c.ratePerExcessKg.value)
    ensures c.pieceWeightKg.None? || c.airlineLimitKg.None? || c.ratePerExcessKg.None? ==>
      EffectiveChargeAmount(c) == if c.amount.Some? then c.amount.value else 0.0
  {
  }

  /** Only the first row of a variant counts. */
  lemma {:induction false} FirstRateIsFirst(rows: seq<RateRow>, v: Option<Variant>, i: nat)
    requires i < |rows| && Some(rows[i].rateVariant) == v && forall j :: 0 <= j < i ==> Some(rows[j].rateVariant) != v
    ensures FirstRate(rows, v) == rows[i].amount
  {
    if i > 0 {
      FirstRateIsFirst(rows[1..], v, i - 1);
    }
  }

  /** A column's total: the amount of its first row in the table of its mode, everything charged beside
      it, and the warehouse. */
  lemma TotalOfColumn(draft: QuoteDraft, rows: seq<RateRow>, v: Option<Variant>, i: nat)
    requires (draft.mode == Some(ROAD) && rows == draft.trucking) || (draft.mode == Some(SEA) && rows == draft.seaRates)
    requires i < |rows| && Some(rows[i].rateVariant) == v && forall j :: 0 <= j < i ==> Some(rows[j].rateVariant) != v
    ensures GrandTotal(draft, v)
         == (if rows[i].amount.Some? then rows[i].amount.value else 0.0) + AdditionalChargeSum(draft) + WarehouseSum(draft)
  {
    FirstRateIsFirst(rows, v, i);
  }
}
