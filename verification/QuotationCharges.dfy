/** packages/shared/src/quotation-charges.ts: the cost lines a client quotation is priced from. */
module QuotationCharges {
  import opened Wrappers
  import opened Money
  import opened QuoteEngine
  import opened QuotationPricing

  /** How native amounts become dollars: as they are, or divided by a rate. */
  datatype Conversion = Same | Per(unitsPerUsd: real) {
    function Exact(native: real): real
      requires Per? ==> unitsPerUsd > 0.0
    {
      if Per? then native / unitsPerUsd else native
    }

    predicate Usable() {
      Per? ==> unitsPerUsd > 0.0
    }
  }

  /** One call of push: a native amount for a group. */
  datatype Entry = Entry(group: ChargeGroup, amount: real)

  function GroupOfZone(zone: Option<Zone>): ChargeGroup {
    match zone
    case Some(ORIGIN_ZONE) => ORIGIN
    case Some(DESTINATION_ZONE) => DESTINATION
    case _ => FREIGHT
  }

  function ChargeEntries(charges: seq<Charge>): seq<Entry> {
    if charges == [] then []
    else
      var last := charges[|charges| - 1];
      ChargeEntries(charges[..|charges| - 1]) + [Entry(GroupOfZone(last.zone), EffectiveChargeAmount(last))]
  }

  /** Every rate row of the variant becomes a freight line, not just the first. */
  function RateEntries(rows: seq<RateRow>, v: Option<Variant>): seq<Entry> {
    if rows == [] then []
    else
      var last := rows[|rows| - 1];
      var rest := RateEntries(rows[..|rows| - 1], v);
      if Some(last.rateVariant) == v then rest + [Entry(FREIGHT, last.amount.UnwrapOr(0.0))] else rest
  }

  function WarehouseEntries(warehouse: seq<Option<real>>): seq<Entry> {
    if warehouse == [] then []
    else WarehouseEntries(warehouse[..|warehouse| - 1]) + [Entry(WAREHOUSE, warehouse[|warehouse| - 1].UnwrapOr(0.0))]
  }

  /** Everything the four loops push, in order. */
  function Entries(draft: QuoteDraft, v: Option<Variant>): seq<Entry> {
    ChargeEntries(draft.charges) + RateEntries(draft.trucking, v) + RateEntries(draft.seaRates, v) + WarehouseEntries(draft.warehouse)
  }

  function Digits(n: nat): string {
    if n < 10 then ["0123456789"[n]] else Digits(n / 10) + ["0123456789"[n % 10]]
  }

  function GroupName(g: ChargeGroup): string {
    match g
    case ORIGIN => "ORIGIN"
    case FREIGHT => "FREIGHT"
    case DESTINATION => "DESTINATION"
    case WAREHOUSE => "WAREHOUSE"
  }

  function LineId(g: ChargeGroup, index: nat): string {
    GroupName(g) + ":" + Digits(index)
  }

  function LineOf(g: ChargeGroup, index: nat, native: real, conv: Conversion): CostLine
    requires conv.Usable()
  {
    CostLine(LineId(g, index), native, Round2(conv.Exact(native)))
  }

  /** The lines of one group. */
  function LinesOf(entries: seq<Entry>, g: ChargeGroup, conv: Conversion): seq<CostLine>
    requires conv.Usable()
  {
    if entries == [] then []
    else
      var last := entries[|entries| - 1];
      var rest := LinesOf(entries[..|entries| - 1], g, conv);
      if last.group == g then rest + [LineOf(g, |rest|, last.amount, conv)] else rest
  }

  function GroupIfAny(entries: seq<Entry>, g: ChargeGroup, conv: Conversion): seq<CostGroup>
    requires conv.Usable()
  {
    var lines := LinesOf(entries, g, conv);
    if lines == [] then [] else [CostGroup(g, lines, Round2(Sum(lines, LineCost)))]
  }

  function GroupsOf(entries: seq<Entry>, conv: Conversion): seq<CostGroup>
    requires conv.Usable()
  {
    GroupIfAny(entries, ORIGIN, conv) + GroupIfAny(entries, FREIGHT, conv)
    + GroupIfAny(entries, DESTINATION, conv) + GroupIfAny(entries, WAREHOUSE, conv)
  }

  datatype ChargesError = NoUsableRate

  predicate NeedsConversion(currency: Option<string>) {
    currency.Some? && currency.value != "USD"
  }

  predicate RateUsable(unitsPerUsd: Option<real>) {
    unitsPerUsd.Some? && unitsPerUsd.value > 0.0
  }

  function ConversionOf(currency: Option<string>, unitsPerUsd: Option<real>): Result<Conversion, ChargesError> {
    if !NeedsConversion(currency) then Ok(Same)
    else if RateUsable(unitsPerUsd) then Ok(Per(unitsPerUsd.value))
    else Err(NoUsableRate)
  }

  /** The four line arrays, one per group. */
  datatype Ledger = Ledger(origin: seq<CostLine>, freight: seq<CostLine>, destination: seq<CostLine>, warehouse: seq<CostLine>) {
    function At(g: ChargeGroup): seq<CostLine> {
      match g
      case ORIGIN => origin
      case FREIGHT => freight
      case DESTINATION => destination
      case WAREHOUSE => warehouse
    }

    function With(g: ChargeGroup, lines: seq<CostLine>): Ledger {
      match g
      case ORIGIN => this.(origin := lines)
      case FREIGHT => this.(freight := lines)
      case DESTINATION => this.(destination := lines)
      case WAREHOUSE => this.(warehouse := lines)
    }
  }

  ghost predicate LedgerOf(entries: seq<Entry>, conv: Conversion, ledger: Ledger)
    requires conv.Usable()
  {
    forall g: ChargeGroup :: ledger.At(g) == LinesOf(entries, g, conv)
  }

  /** push: appends a line to its group. */
  method Push(ledger: Ledger, g: ChargeGroup, amount: real, conv: Conversion, ghost entries: seq<Entry>) returns (ledger': Ledger)
    requires conv.Usable() && LedgerOf(entries, conv, ledger)
    ensures LedgerOf(entries + [Entry(g, amount)], conv, ledger')
  {
    var lines := ledger.At(g);
    ledger' := ledger.With(g, lines + [LineOf(g, |lines|, amount, conv)]);
    assert (entries + [Entry(g, amount)])[..|entries|] == entries;
  }

  method PushCharges(charges: seq<Charge>, conv: Conversion, ledger: Ledger, ghost entries: seq<Entry>) returns (ledger': Ledger)
    requires conv.Usable() && LedgerOf(entries, conv, ledger)
    ensures LedgerOf(entries + ChargeEntries(charges), conv, ledger')
  {
    ledger' := ledger;
    assert entries + [] == entries;
    for i := 0 to |charges|
      invariant LedgerOf(entries + ChargeEntries(charges[..i]), conv, ledger')
    {
      assert charges[..i + 1][..i] == charges[..i];
      var amount := EffectiveChargeAmount(charges[i]);
      ghost var sofar := entries + ChargeEntries(charges[..i]);
      assert entries + ChargeEntries(charges[..i + 1]) == sofar + [Entry(GroupOfZone(charges[i].zone), amount)];
      ledger' := Push(ledger', GroupOfZone(charges[i].zone), amount, conv, sofar);
    }
    assert charges[..|charges|] == charges;
  }

  method PushRates(rows: seq<RateRow>, v: Option<Variant>, conv: Conversion, ledger: Ledger, ghost entries: seq<Entry>) returns (ledger': Ledger)
    requires conv.Usable() && LedgerOf(entries, conv, ledger)
    ensures LedgerOf(entries + RateEntries(rows, v), conv, ledger')
  {
    ledger' := ledger;
    assert entries + [] == entries;
    for i := 0 to |rows|
      invariant LedgerOf(entries + RateEntries(rows[..i], v), conv, ledger')
    {
      assert rows[..i + 1][..i] == rows[..i];
      ghost var sofar := entries + RateEntries(rows[..i], v);
      if Some(rows[i].rateVariant) == v {
        assert entries + RateEntries(rows[..i + 1], v) == sofar + [Entry(FREIGHT, rows[i].amount.UnwrapOr(0.0))];
        ledger' := Push(ledger', FREIGHT, rows[i].amount.UnwrapOr(0.0), conv, sofar);
      }
    }
    assert rows[..|rows|] == rows;
  }

  method PushWarehouse(warehouse: seq<Option<real>>, conv: Conversion, ledger: Ledger, ghost entries: seq<Entry>) returns (ledger': Ledger)
    requires conv.Usable() && LedgerOf(entries, conv, ledger)
    ensures LedgerOf(entries + WarehouseEntries(warehouse), conv, ledger')
  {
    ledger' := ledger;
    assert entries + [] == entries;
    for i := 0 to |warehouse|
      invariant LedgerOf(entries + WarehouseEntries(warehouse[..i]), conv, ledger')
    {
      assert warehouse[..i + 1][..i] == warehouse[..i];
      ghost var sofar := entries + WarehouseEntries(warehouse[..i]);
      assert entries + WarehouseEntries(warehouse[..i + 1]) == sofar + [Entry(WAREHOUSE, warehouse[i].UnwrapOr(0.0))];
      ledger' := Push(ledger', WAREHOUSE, warehouse[i].UnwrapOr(0.0), conv, sofar);
    }
    assert warehouse[..|warehouse|] == warehouse;
  }

  const GROUP_ORDER := [ORIGIN, FREIGHT, DESTINATION, WAREHOUSE]

  function GroupsUpTo(entries: seq<Entry>, conv: Conversion, n: nat): seq<CostGroup>
    requires conv.Usable() && n <= 4
  {
    if n == 0 then [] else GroupsUpTo(entries, conv, n - 1) + GroupIfAny(entries, GROUP_ORDER[n - 1], conv)
  }

  method CollectGroups(ledger: Ledger, conv: Conversion, ghost entries: seq<Entry>) returns (groups: seq<CostGroup>)
    requires conv.Usable() && LedgerOf(entries, conv, ledger)
    ensures groups == GroupsOf(entries, conv)
  {
    groups := [];
    for i := 0 to 4
      invariant groups == GroupsUpTo(entries, conv, i)
    {
      var g := GROUP_ORDER[i];
      var lines := ledger.At(g);
      if |lines| != 0 {
        groups := groups + [CostGroup(g, lines, Round2(Sum(lines, LineCost)))];
      }
    }
    FourGroups(entries, conv);
  }

  lemma FourGroups(entries: seq<Entry>, conv: Conversion)
    requires conv.Usable()
    ensures GroupsUpTo(entries, conv, 4) == GroupsOf(entries, conv)
  {
    assert GroupsUpTo(entries, conv, 1) == GroupIfAny(entries, ORIGIN, conv);
    assert GroupsUpTo(entries, conv, 2) == GroupsUpTo(entries, conv, 1) + GroupIfAny(entries, FREIGHT, conv);
    assert GroupsUpTo(entries, conv, 3) == GroupsUpTo(entries, conv, 2) + GroupIfAny(entries, DESTINATION, conv);
  }

  /** The line's dollars: its native amount, divided by the rate unless it is in dollars already, to the
      nearest cent. */
  ghost predicate InDollars(l: CostLine, foreign: bool, unitsPerUsd: real)
    requires foreign ==> unitsPerUsd != 0.0
  {
    var exact := if foreign then l.costNative / unitsPerUsd else l.costNative;
    IsCents(l.costUsd) && -HALF_CENT < l.costUsd - exact <= HALF_CENT
  }

  /** Every line is in dollars, and a group's figure is the sum of its lines, rounded. */
  ghost predicate AllInDollars(groups: seq<CostGroup>, foreign: bool, unitsPerUsd: real)
    requires foreign ==> unitsPerUsd != 0.0
  {
    forall g :: g in groups ==>
      && g.lines != [] && IsCents(g.costUsd) && g.costUsd == Sum(g.lines, LineCost)
      && forall l :: l in g.lines ==> InDollars(l, foreign, unitsPerUsd)
  }

  function RateOf(conv: Conversion): real {
    if conv.Per? then conv.unitsPerUsd else 0.0
  }

  lemma LineIsInDollars(g: ChargeGroup, index: nat, native: real, conv: Conversion)
    requires conv.Usable()
    ensures InDollars(LineOf(g, index, native, conv), conv.Per?, RateOf(conv))
  {
    RoundIsClose(conv.Exact(native));
    RoundIsCents(conv.Exact(native));
  }

  lemma {:induction false} LinesAreInDollars(entries: seq<Entry>, g: ChargeGroup, conv: Conversion)
    requires conv.Usable()
    ensures forall l :: l in LinesOf(entries, g, conv) ==> InDollars(l, conv.Per?, RateOf(conv))
  {
    if entries != [] {
      var n := |entries| - 1;
      LinesAreInDollars(entries[..n], g, conv);
      LineIsInDollars(g, |LinesOf(entries[..n], g, conv)|, entries[n].amount, conv);
    }
  }

  lemma {:induction false} SumIsCents(lines: seq<CostLine>)
    requires forall l :: l in lines ==> IsCents(l.costUsd)
    ensures IsCents(Sum(lines, LineCost))
  {
    if lines == [] {
      WholeCents(0);
    } else {
      var n := |lines| - 1;
      SumIsCents(lines[..n]);
      assert lines[n] in lines;
      CentsAdd(Sum(lines[..n], LineCost), lines[n].costUsd);
    }
  }

  lemma GroupIsItsLines(entries: seq<Entry>, conv: Conversion, g: CostGroup)
    requires conv.Usable() && g in GroupsOf(entries, conv)
    ensures g.lines == LinesOf(entries, g.group, conv) && g.lines != [] && g.costUsd == Round2(Sum(g.lines, LineCost))
  {
  }

  lemma GroupsAreInDollars(entries: seq<Entry>, conv: Conversion)
    requires conv.Usable()
    ensures AllInDollars(GroupsOf(entries, conv), conv.Per?, RateOf(conv))
  {
    forall g | g in GroupsOf(entries, conv)
      ensures g.lines != [] && IsCents(g.costUsd) && g.costUsd == Sum(g.lines, LineCost)
      ensures forall l :: l in g.lines ==> InDollars(l, conv.Per?, RateOf(conv))
    {
      GroupIsItsLines(entries, conv, g);
      LinesAreInDollars(entries, g.group, conv);
      SumIsCents(g.lines);
      RoundOfCents(Sum(g.lines, LineCost));
    }
  }

  /** The four loops and the collecting one. */
  method GroupLines(draft: QuoteDraft, v: Option<Variant>, conv: Conversion) returns (groups: seq<CostGroup>)
    requires conv.Usable()
    ensures groups == GroupsOf(Entries(draft, v), conv)
  {
    var ledger := Ledger([], [], [], []);
    ghost var entries: seq<Entry> := [];
    ledger := PushCharges(draft.charges, conv, ledger, entries);
    entries := entries + ChargeEntries(draft.charges);
    ledger := PushRates(draft.trucking, v, conv, ledger, entries);
    entries := entries + RateEntries(draft.trucking, v);
    ledger := PushRates(draft.seaRates, v, conv, ledger, entries);
    entries := entries + RateEntries(draft.seaRates, v);
    ledger := PushWarehouse(draft.warehouse, conv, ledger, entries);
    entries := entries + WarehouseEntries(draft.warehouse);
    assert entries == Entries(draft, v);
    groups := CollectGroups(ledger, conv, entries);
  }

  /** Refuses to price a foreign leg without a usable rate; otherwise one line per charge, rate row of
      the variant and warehouse row, grouped and rounded. */
  method BuildQuotationCostLines(draft: QuoteDraft, v: Option<Variant>, currency: Option<string>, unitsPerUsd: Option<real>)
    returns (r: Result<seq<CostGroup>, ChargesError>)
    ensures r == if NeedsConversion(currency) && !RateUsable(unitsPerUsd) then Err(NoUsableRate)
                 else Ok(GroupsOf(Entries(draft, v), ConversionOf(currency, unitsPerUsd).value))
    ensures r.Err? <==> currency.Some? && currency.value != "USD" && (unitsPerUsd.None? || unitsPerUsd.value <= 0.0)
    ensures r.Ok? ==> AllInDollars(r.value, currency.Some? && currency.value != "USD", unitsPerUsd.UnwrapOr(0.0))
  {
    var needsConversion := currency.Some? && currency.value != "USD";
    if needsConversion && !(unitsPerUsd.Some? && unitsPerUsd.value > 0.0) {
      return Err(NoUsableRate);
    }
    var conv := if needsConversion then Per(unitsPerUsd.value) else Same;
    var groups := GroupLines(draft, v, conv);
    GroupsAreInDollars(Entries(draft, v), conv);
    r := Ok(groups);
  }

  function Place(g: ChargeGroup): nat {
    match g
    case ORIGIN => 0
    case FREIGHT => 1
    case DESTINATION => 2
    case WAREHOUSE => 3
  }

  /** Origin first and the warehouse last, no group twice. */
  ghost predicate InPlace(groups: seq<CostGroup>) {
    forall i, j :: 0 <= i < j < |groups| ==> Place(groups[i].group) < Place(groups[j].group)
  }

  lemma {:induction false} PlacesUpTo(entries: seq<Entry>, conv: Conversion, n: nat)
    requires conv.Usable() && n <= 4
    ensures InPlace(GroupsUpTo(entries, conv, n)) && forall g :: g in GroupsUpTo(entries, conv, n) ==> Place(g.group) < n
  {
    if n > 0 {
      PlacesUpTo(entries, conv, n - 1);
      assert Place(GROUP_ORDER[n - 1]) == n - 1;
    }
  }

  lemma GroupsComeInOrder(entries: seq<Entry>, conv: Conversion)
    requires conv.Usable()
    ensures InPlace(GroupsOf(entries, conv))
  {
    PlacesUpTo(entries, conv, 4);
    FourGroups(entries, conv);
  }

  /** No entry's group is missing. */
  lemma EveryEntryHasItsGroup(entries: seq<Entry>, e: Entry, conv: Conversion) returns (g: CostGroup)
    requires conv.Usable() && e in entries
    ensures g in GroupsOf(entries, conv) && g.group == e.group && g.lines == LinesOf(entries, e.group, conv)
  {
    EntryHasLine(entries, e, conv);
    g := GroupIfAny(entries, e.group, conv)[0];
  }

  lemma {:induction false} EntryHasLine(entries: seq<Entry>, e: Entry, conv: Conversion)
    requires conv.Usable() && e in entries
    ensures LinesOf(entries, e.group, conv) != []
  {
    if e in entries[..|entries| - 1] {
      EntryHasLine(entries[..|entries| - 1], e, conv);
    }
  }

  // Which group a row lands in.

  function Natives(lines: seq<CostLine>): seq<real> {
    if lines == [] then [] else Natives(lines[..|lines| - 1]) + [lines[|lines| - 1].costNative]
  }

  /** What the charges of some zones are worth, in order. */
  function WorthsIn(charges: seq<Charge>, zones: set<Option<Zone>>): seq<real> {
    if charges == [] then []
    else
      var last, rest := charges[|charges| - 1], WorthsIn(charges[..|charges| - 1], zones);
      if last.zone in zones then rest + [EffectiveChargeAmount(last)] else rest
  }

  /** The amounts of a variant's rows, in order; a blank one is zero. */
  function AmountsOf(rows: seq<RateRow>, v: Option<Variant>): seq<real> {
    if rows == [] then []
    else
      var last, rest := rows[|rows| - 1], AmountsOf(rows[..|rows| - 1], v);
      if Some(last.rateVariant) == v then rest + [if last.amount.Some? then last.amount.value else 0.0] else rest
  }

  function StoreAmounts(warehouse: seq<Option<real>>): seq<real> {
    if warehouse == [] then []
    else
      var last := warehouse[|warehouse| - 1];
      StoreAmounts(warehouse[..|warehouse| - 1]) + [if last.Some? then last.value else 0.0]
  }

  lemma OneMoreNative(lines: seq<CostLine>, l: CostLine)
    ensures Natives(lines + [l]) == Natives(lines) + [l.costNative]
  {
    assert (lines + [l])[..|lines|] == lines;
  }

  function NativesIn(entries: seq<Entry>, g: ChargeGroup, conv: Conversion): seq<real>
    requires conv.Usable()
  {
    Natives(LinesOf(entries, g, conv))
  }

  lemma OneMoreIn(entries: seq<Entry>, e: Entry, g: ChargeGroup, conv: Conversion)
    requires conv.Usable()
    ensures NativesIn(entries + [e], g, conv) == NativesIn(entries, g, conv) + if e.group == g then [e.amount] else []
  {
    assert (entries + [e])[..|entries|] == entries;
    var rest := LinesOf(entries, g, conv);
    OneMoreNative(rest, LineOf(g, |rest|, e.amount, conv));
  }

  lemma {:induction false} NativesConcat(a: seq<Entry>, b: seq<Entry>, g: ChargeGroup, conv: Conversion)
    requires conv.Usable()
    ensures NativesIn(a + b, g, conv) == NativesIn(a, g, conv) + NativesIn(b, g, conv)
  {
    if b == [] {
      assert a + b == a;
    } else {
      var n := |b| - 1;
      NativesConcat(a, b[..n], g, conv);
      OneMoreIn(a + b[..n], b[n], g, conv);
      OneMoreIn(b[..n], b[n], g, conv);
      assert a + b == a + b[..n] + [b[n]] && b == b[..n] + [b[n]];
    }
  }

  function ZonesOf(g: ChargeGroup): set<Option<Zone>> {
    match g
    case ORIGIN => {Some(ORIGIN_ZONE)}
    case DESTINATION => {Some(DESTINATION_ZONE)}
    case FREIGHT => {Some(MAIN_FREIGHT), None}
    case WAREHOUSE => {}
  }

  lemma ZoneFits(zone: Option<Zone>, g: ChargeGroup)
    ensures GroupOfZone(zone) == g <==> zone in ZonesOf(g)
  {
    assert zone in ZonesOf(FREIGHT) <==> zone == Some(MAIN_FREIGHT) || zone == None;
  }

  lemma OneMoreCharge(charges: seq<Charge>, g: ChargeGroup, conv: Conversion)
    requires conv.Usable() && charges != []
    ensures var n := |charges| - 1;
      NativesIn(ChargeEntries(charges), g, conv)
      == NativesIn(ChargeEntries(charges[..n]), g, conv)
         + if GroupOfZone(charges[n].zone) == g then [EffectiveChargeAmount(charges[n])] else []
  {
    var n := |charges| - 1;
    OneMoreIn(ChargeEntries(charges[..n]), Entry(GroupOfZone(charges[n].zone), EffectiveChargeAmount(charges[n])), g, conv);
  }

  lemma {:induction false} ChargesLandByZone(charges: seq<Charge>, g: ChargeGroup, conv: Conversion)
    requires conv.Usable()
    ensures NativesIn(ChargeEntries(charges), g, conv) == WorthsIn(charges, ZonesOf(g))
  {
    if charges != [] {
      var n := |charges| - 1;
      ChargesLandByZone(charges[..n], g, conv);
      OneMoreCharge(charges, g, conv);
      ZoneFits(charges[n].zone, g);
    }
  }

  lemma {:induction false} RatesLandInFreight(rows: seq<RateRow>, v: Option<Variant>, g: ChargeGroup, conv: Conversion)
    requires conv.Usable()
    ensures NativesIn(RateEntries(rows, v), g, conv) == if g == FREIGHT then AmountsOf(rows, v) else []
  {
    if rows != [] {
      var n := |rows| - 1;
      RatesLandInFreight(rows[..n], v, g, conv);
      OneMoreIn(RateEntries(rows[..n], v), Entry(FREIGHT, rows[n].amount.UnwrapOr(0.0)), g, conv);
    }
  }

  lemma {:induction false} StoresLandInWarehouse(warehouse: seq<Option<real>>, g: ChargeGroup, conv: Conversion)
    requires conv.Usable()
    ensures NativesIn(WarehouseEntries(warehouse), g, conv) == if g == WAREHOUSE then StoreAmounts(warehouse) else []
  {
    if warehouse != [] {
      var n := |warehouse| - 1;
      StoresLandInWarehouse(warehouse[..n], g, conv);
      OneMoreIn(WarehouseEntries(warehouse[..n]), Entry(WAREHOUSE, warehouse[n].UnwrapOr(0.0)), g, conv);
    }
  }

  lemma FourLoops(draft: QuoteDraft, v: Option<Variant>, g: ChargeGroup, conv: Conversion)
    requires conv.Usable()
    ensures NativesIn(Entries(draft, v), g, conv)
         == NativesIn(ChargeEntries(draft.charges), g, conv) + NativesIn(RateEntries(draft.trucking, v), g, conv)
            + NativesIn(RateEntries(draft.seaRates, v), g, conv) + NativesIn(WarehouseEntries(draft.warehouse), g, conv)
  {
    var c, t, s, w := ChargeEntries(draft.charges), RateEntries(draft.trucking, v), RateEntries(draft.seaRates, v),
                      WarehouseEntries(draft.warehouse);
    NativesConcat(c, t, g, conv);
    NativesConcat(c + t, s, g, conv);
    NativesConcat(c + t + s, w, g, conv);
  }

  lemma {:induction false} NoZones(charges: seq<Charge>)
    ensures WorthsIn(charges, {}) == []
  {
    if charges != [] {
      NoZones(charges[..|charges| - 1]);
    }
  }

  lemma RowsLandIn(draft: QuoteDraft, v: Option<Variant>, g: ChargeGroup, conv: Conversion)
    requires conv.Usable()
    ensures NativesIn(Entries(draft, v), g, conv)
         == WorthsIn(draft.charges, ZonesOf(g)) + (if g == FREIGHT then AmountsOf(draft.trucking, v) else [])
            + (if g == FREIGHT then AmountsOf(draft.seaRates, v) else []) + if g == WAREHOUSE then StoreAmounts(draft.warehouse) else []
  {
    FourLoops(draft, v, g, conv);
    ChargesLandByZone(draft.charges, g, conv);
    RatesLandInFreight(draft.trucking, v, g, conv);
    RatesLandInFreight(draft.seaRates, v, g, conv);
    StoresLandInWarehouse(draft.warehouse, g, conv);
  }

  /** The lines of each group, in order: charges of the origin and of the destination in their own
      groups, all other charges and then the rate rows of the variant under freight, and the warehouse
      rows by themselves. */
  lemma RowsLandInTheirGroups(draft: QuoteDraft, v: Option<Variant>, conv: Conversion)
    requires conv.Usable()
    ensures NativesIn(Entries(draft, v), ORIGIN, conv) == WorthsIn(draft.charges, {Some(ORIGIN_ZONE)})
    ensures NativesIn(Entries(draft, v), DESTINATION, conv) == WorthsIn(draft.charges, {Some(DESTINATION_ZONE)})
    ensures NativesIn(Entries(draft, v), FREIGHT, conv)
         == WorthsIn(draft.charges, {Some(MAIN_FREIGHT), None}) + AmountsOf(draft.trucking, v) + AmountsOf(draft.seaRates, v)
    ensures NativesIn(Entries(draft, v), WAREHOUSE, conv) == StoreAmounts(draft.warehouse)
  {
    RowsLandIn(draft, v, ORIGIN, conv);
    RowsLandIn(draft, v, DESTINATION, conv);
    RowsLandIn(draft, v, FREIGHT, conv);
    RowsLandIn(draft, v, WAREHOUSE, conv);
    NoZones(draft.charges);
  }

  // What the lines add up to.

  function EntryAmount(e: Entry): real {
    e.amount
  }

  lemma {:induction false} ChargeEntriesSum(charges: seq<Charge>)
    ensures Sum(ChargeEntries(charges), EntryAmount) == Sum(charges, EffectiveChargeAmount)
  {
    if charges != [] {
      var n := |charges| - 1;
      ChargeEntriesSum(charges[..n]);
      SumOfOneMore(ChargeEntries(charges[..n]), Entry(GroupOfZone(charges[n].zone), EffectiveChargeAmount(charges[n])), EntryAmount);
    }
  }

  lemma {:induction false} WarehouseEntriesSum(warehouse: seq<Option<real>>)
    ensures Sum(WarehouseEntries(warehouse), EntryAmount) == Sum(warehouse, (w: Option<real>) => w.UnwrapOr(0.0))
  {
    if warehouse != [] {
      var n := |warehouse| - 1;
      WarehouseEntriesSum(warehouse[..n]);
      SumOfOneMore(WarehouseEntries(warehouse[..n]), Entry(WAREHOUSE, warehouse[n].UnwrapOr(0.0)), EntryAmount);
    }
  }

  /** What the rows of the variant add up to, duplicates included. */
  function RateRowSum(draft: QuoteDraft, v: Option<Variant>): real {
    Sum(RateEntries(draft.trucking, v), EntryAmount) + Sum(RateEntries(draft.seaRates, v), EntryAmount)
  }

  /** What the cost lines count that the variant's grand total does not: rate rows past the first one
      of the variant in the mode's own table. */
  function Excess(draft: QuoteDraft, v: Option<Variant>): real {
    RateRowSum(draft, v) - VariantRate(draft, v).UnwrapOr(0.0)
  }

  /** The native amounts of all lines add up to the variant's grand total, plus the excess rows. */
  lemma EntriesSum(draft: QuoteDraft, v: Option<Variant>)
    ensures Sum(Entries(draft, v), EntryAmount) == GrandTotal(draft, v) + Excess(draft, v)
  {
    ChargeEntriesSum(draft.charges);
    WarehouseEntriesSum(draft.warehouse);
    var c, t, s, w := ChargeEntries(draft.charges), RateEntries(draft.trucking, v), RateEntries(draft.seaRates, v),
                      WarehouseEntries(draft.warehouse);
    SumConcat(c, t, EntryAmount);
    SumConcat(c + t, s, EntryAmount);
    SumConcat(c + t + s, w, EntryAmount);
  }

  function LineNative(l: CostLine): real {
    l.costNative
  }

  function GroupNative(g: CostGroup): real {
    Sum(g.lines, LineNative)
  }

  /** h reads off a line something that depends on its native amount only. */
  ghost predicate ReadsAmount(conv: Conversion, h: CostLine -> real, k: real -> real)
    requires conv.Usable()
  {
    forall g, i: nat, a {:trigger LineOf(g, i, a, conv)} :: h(LineOf(g, i, a, conv)) == k(a)
  }

  function Of(k: real -> real): Entry -> real {
    (e: Entry) => k(e.amount)
  }

  lemma OneMoreLine(entries: seq<Entry>, g: ChargeGroup, conv: Conversion, h: CostLine -> real, k: real -> real)
    requires conv.Usable() && entries != [] && ReadsAmount(conv, h, k)
    ensures var last := entries[|entries| - 1];
      Sum(LinesOf(entries, g, conv), h)
      == Sum(LinesOf(entries[..|entries| - 1], g, conv), h) + if last.group == g then k(last.amount) else 0.0
  {
    var last, rest := entries[|entries| - 1], LinesOf(entries[..|entries| - 1], g, conv);
    SumOfOneMore(rest, LineOf(g, |rest|, last.amount, conv), h);
  }

  /** Every entry becomes one line of one group. */
  lemma {:induction false} LinesSum(entries: seq<Entry>, conv: Conversion, h: CostLine -> real, k: real -> real)
    requires conv.Usable() && ReadsAmount(conv, h, k)
    ensures Sum(LinesOf(entries, ORIGIN, conv), h) + Sum(LinesOf(entries, FREIGHT, conv), h)
          + Sum(LinesOf(entries, DESTINATION, conv), h) + Sum(LinesOf(entries, WAREHOUSE, conv), h)
         == Sum(entries, Of(k))
  {
    if entries != [] {
      var n := |entries| - 1;
      LinesSum(entries[..n], conv, h, k);
      OneMoreLine(entries, ORIGIN, conv, h, k);
      OneMoreLine(entries, FREIGHT, conv, h, k);
      OneMoreLine(entries, DESTINATION, conv, h, k);
      OneMoreLine(entries, WAREHOUSE, conv, h, k);
    }
  }

  lemma GroupIfAnySum(entries: seq<Entry>, g: ChargeGroup, conv: Conversion, f: CostGroup -> real, h: CostLine -> real)
    requires conv.Usable() && forall x: CostGroup :: f(x) == Sum(x.lines, h)
    ensures Sum(GroupIfAny(entries, g, conv), f) == Sum(LinesOf(entries, g, conv), h)
  {
    var lines := LinesOf(entries, g, conv);
    if lines != [] {
      SumOfOneMore([], CostGroup(g, lines, Round2(Sum(lines, LineCost))), f);
    }
  }

  /** Any sum over the lines of the groups is the sum over the four lists of lines. */
  lemma GroupsSum(entries: seq<Entry>, conv: Conversion, f: CostGroup -> real, h: CostLine -> real)
    requires conv.Usable() && forall x: CostGroup :: f(x) == Sum(x.lines, h)
    ensures Sum(GroupsOf(entries, conv), f)
         == Sum(LinesOf(entries, ORIGIN, conv), h) + Sum(LinesOf(entries, FREIGHT, conv), h)
          + Sum(LinesOf(entries, DESTINATION, conv), h) + Sum(LinesOf(entries, WAREHOUSE, conv), h)
  {
    var o, fr := GroupIfAny(entries, ORIGIN, conv), GroupIfAny(entries, FREIGHT, conv);
    var d, w := GroupIfAny(entries, DESTINATION, conv), GroupIfAny(entries, WAREHOUSE, conv);
    GroupIfAnySum(entries, ORIGIN, conv, f, h);
    GroupIfAnySum(entries, FREIGHT, conv, f, h);
    GroupIfAnySum(entries, DESTINATION, conv, f, h);
    GroupIfAnySum(entries, WAREHOUSE, conv, f, h);
    SumConcat(o, fr, f);
    SumConcat(o + fr, d, f);
    SumConcat(o + fr + d, w, f);
  }

  // The rate rows that the grand total does not count.

  function MatchingRows(rows: seq<RateRow>, v: Option<Variant>): seq<RateRow> {
    if rows == [] then []
    else
      var n := |rows| - 1;
      if Some(rows[n].rateVariant) == v then MatchingRows(rows[..n], v) + [rows[n]] else MatchingRows(rows[..n], v)
  }

  function RowAmount(r: RateRow): real {
    r.amount.UnwrapOr(0.0)
  }

  function AfterFirst(rows: seq<RateRow>): seq<RateRow> {
    if rows == [] then [] else rows[1..]
  }

  /** The rows of the variant other than the first one in the mode's own table. */
  function UncountedRows(draft: QuoteDraft, v: Option<Variant>): seq<RateRow> {
    var t, s := MatchingRows(draft.trucking, v), MatchingRows(draft.seaRates, v);
    (if draft.mode == Some(ROAD) then AfterFirst(t) else t) + (if draft.mode == Some(SEA) then AfterFirst(s) else s)
  }

  lemma {:induction false} MatchingSum(rows: seq<RateRow>, v: Option<Variant>)
    ensures Sum(RateEntries(rows, v), EntryAmount) == Sum(MatchingRows(rows, v), RowAmount)
  {
    if rows != [] {
      var n := |rows| - 1;
      MatchingSum(rows[..n], v);
      SumOfOneMore(RateEntries(rows[..n], v), Entry(FREIGHT, RowAmount(rows[n])), EntryAmount);
      SumOfOneMore(MatchingRows(rows[..n], v), rows[n], RowAmount);
    }
  }

  lemma {:induction false} MatchingIsThere(rows: seq<RateRow>, v: Option<Variant>)
    ensures MatchingRows(rows, v) != [] <==> exists r :: r in rows && Some(r.rateVariant) == v
  {
    if rows != [] {
      var n := |rows| - 1;
      MatchingIsThere(rows[..n], v);
      assert forall r :: r in rows <==> r in rows[..n] || r == rows[n];
    }
  }

  lemma {:induction false} FirstIsMatching(rows: seq<RateRow>, v: Option<Variant>)
    ensures FirstRate(rows, v).UnwrapOr(0.0) == if MatchingRows(rows, v) == [] then 0.0 else RowAmount(MatchingRows(rows, v)[0])
  {
    if rows != [] {
      var n := |rows| - 1;
      FirstIsMatching(rows[..n], v);
      MatchingIsThere(rows[..n], v);
      LastRate(rows, v);
    }
  }

  lemma SumOfFirstAndRest(rows: seq<RateRow>)
    ensures Sum(rows, RowAmount) == (if rows == [] then 0.0 else RowAmount(rows[0])) + Sum(AfterFirst(rows), RowAmount)
  {
    if rows != [] {
      assert rows == [rows[0]] + rows[1..];
      SumConcat([rows[0]], rows[1..], RowAmount);
      assert Sum([rows[0]], RowAmount) == RowAmount(rows[0]);
    }
  }

  lemma ExcessIsUncounted(draft: QuoteDraft, v: Option<Variant>)
    ensures Excess(draft, v) == Sum(UncountedRows(draft, v), RowAmount)
  {
    var t, s := MatchingRows(draft.trucking, v), MatchingRows(draft.seaRates, v);
    MatchingSum(draft.trucking, v);
    MatchingSum(draft.seaRates, v);
    FirstIsMatching(draft.trucking, v);
    FirstIsMatching(draft.seaRates, v);
    SumOfFirstAndRest(t);
    SumOfFirstAndRest(s);
    SumConcat(if draft.mode == Some(ROAD) then AfterFirst(t) else t, if draft.mode == Some(SEA) then AfterFirst(s) else s, RowAmount);
  }

  lemma {:induction false} ZeroSum(rows: seq<RateRow>)
    requires forall r :: r in rows ==> RowAmount(r) >= 0.0
    ensures Sum(rows, RowAmount) >= 0.0
    ensures Sum(rows, RowAmount) == 0.0 <==> forall r :: r in rows ==> RowAmount(r) == 0.0
  {
    if rows != [] {
      var n := |rows| - 1;
      ZeroSum(rows[..n]);
      assert rows[n] in rows;
      assert forall r :: r in rows <==> r in rows[..n] || r == rows[n];
    }
  }

  /** The native lines of a leg come to the variant's grand total plus the rate rows it does not count.
      With amounts that are not negative, they come to the grand total exactly when every row of the
      variant beyond the first in the mode's own table is blank or zero. */
  lemma NativeLinesSumToGrandTotal(draft: QuoteDraft, v: Option<Variant>, conv: Conversion)
    requires conv.Usable()
    ensures Sum(GroupsOf(Entries(draft, v), conv), GroupNative) == GrandTotal(draft, v) + Sum(UncountedRows(draft, v), RowAmount)
    ensures (forall r :: r in UncountedRows(draft, v) ==> RowAmount(r) >= 0.0) ==>
      (Sum(GroupsOf(Entries(draft, v), conv), GroupNative) == GrandTotal(draft, v)
       <==> forall r :: r in UncountedRows(draft, v) ==> RowAmount(r) == 0.0)
  {
    GroupsSum(Entries(draft, v), conv, GroupNative, LineNative);
    LinesSum(Entries(draft, v), conv, LineNative, (a: real) => a);
    SumEqual(Entries(draft, v), Of((a: real) => a), EntryAmount);
    EntriesSum(draft, v);
    ExcessIsUncounted(draft, v);
    if forall r :: r in UncountedRows(draft, v) ==> RowAmount(r) >= 0.0 {
      ZeroSum(UncountedRows(draft, v));
    }
  }

  /** At most one rate row per variant, and only in the table of the quote's own mode: what
      seedQuoteDraftPricing makes, however the amounts are then edited. */
  predicate OneRowPerVariant(rows: seq<RateRow>) {
    forall i, j :: 0 <= i < j < |rows| ==> rows[i].rateVariant != rows[j].rateVariant
  }

  predicate RowsOf(rows: seq<RateRow>, variants: set<Variant>) {
    forall r :: r in rows ==> r.rateVariant in variants
  }

  predicate SeededShape(draft: QuoteDraft) {
    && OneRowPerVariant(draft.trucking) && OneRowPerVariant(draft.seaRates)
    && RowsOf(draft.trucking, if draft.mode == Some(ROAD) then {DEDICATED, GROUPAGE} else {})
    && RowsOf(draft.seaRates, if draft.mode == Some(SEA) then {FCL, LCL} else {})
  }

  lemma {:induction false} NoRowsOfVariant(rows: seq<RateRow>, v: Option<Variant>)
    requires forall r :: r in rows ==> Some(r.rateVariant) != v
    ensures RateEntries(rows, v) == [] && FirstRate(rows, v) == None
  {
    if rows != [] {
      NoRowsOfVariant(rows[..|rows| - 1], v);
      NoFirstRate(rows, v);
    }
  }

  lemma {:induction false} NoFirstRate(rows: seq<RateRow>, v: Option<Variant>)
    requires forall r :: r in rows ==> Some(r.rateVariant) != v
    ensures FirstRate(rows, v) == None
  {
    if rows != [] {
      assert rows[0] in rows;
      NoFirstRate(rows[1..], v);
    }
  }

  /** With one row per variant, the lines of a variant are worth its first row. */
  lemma {:induction false} OneRowSum(rows: seq<RateRow>, v: Option<Variant>)
    requires OneRowPerVariant(rows)
    ensures Sum(RateEntries(rows, v), EntryAmount) == FirstRate(rows, v).UnwrapOr(0.0)
  {
    if rows != [] {
      var n := |rows| - 1;
      OneRowSum(rows[..n], v);
      LastRate(rows, v);
      if Some(rows[n].rateVariant) == v {
        NoRowsOfVariant(rows[..n], v);
        SumOfOneMore([], Entry(FREIGHT, rows[n].amount.UnwrapOr(0.0)), EntryAmount);
      } else if forall r :: r in rows[..n] ==> Some(r.rateVariant) != v {
        NoFirstRate(rows[..n], v);
      }
    }
  }

  lemma {:induction false} LastRate(rows: seq<RateRow>, v: Option<Variant>)
    requires rows != []
    ensures var n := |rows| - 1;
      FirstRate(rows, v) == if exists r :: r in rows[..n] && Some(r.rateVariant) == v then FirstRate(rows[..n], v)
                            else if Some(rows[n].rateVariant) == v then rows[n].amount else None
  {
    var n := |rows| - 1;
    if n > 0 {
      LastRate(rows[1..], v);
      assert rows[1..][..n - 1] == rows[..n][1..];
      assert forall r :: r in rows[..n] <==> r == rows[0] || r in rows[..n][1..];
    }
  }

  lemma SeededHasNoExcess(draft: QuoteDraft, v: Option<Variant>)
    requires SeededShape(draft) && v in VariantsForMode(draft.mode)
    ensures Excess(draft, v) == 0.0
  {
    if draft.mode == Some(ROAD) {
      OneRowSum(draft.trucking, v);
      NoRowsOfVariant(draft.seaRates, v);
    } else if draft.mode == Some(SEA) {
      OneRowSum(draft.seaRates, v);
      NoRowsOfVariant(draft.trucking, v);
    } else {
      NoRowsOfVariant(draft.trucking, v);
      NoRowsOfVariant(draft.seaRates, v);
    }
  }

  // Line ids.

  lemma {:induction false} DigitsAreDigits(n: nat)
    ensures |Digits(n)| > 0 && forall c :: c in Digits(n) ==> c in "0123456789"
  {
    if n >= 10 {
      DigitsAreDigits(n / 10);
    }
    assert "0123456789"[n % 10] in "0123456789";
    assert n < 10 ==> "0123456789"[n] in "0123456789";
  }

  lemma {:induction false} DigitsInjective(m: nat, n: nat)
    requires Digits(m) == Digits(n)
    ensures m == n
  {
    DigitsAreDigits(m / 10);
    DigitsAreDigits(n / 10);
    if m >= 10 && n >= 10 {
      var a, b := Digits(m), Digits(n);
      assert a[..|a| - 1] == Digits(m / 10) && b[..|b| - 1] == Digits(n / 10);
      DigitsInjective(m / 10, n / 10);
      assert a[|a| - 1] == b[|b| - 1];
    }
  }

  /** Within a leg, an id names one group and one position. */
  lemma LineIdIsUnique(g: ChargeGroup, i: nat, h: ChargeGroup, j: nat)
    requires LineId(g, i) == LineId(h, j)
    ensures g == h && i == j
  {
    assert LineId(g, i)[0] == GroupName(g)[0] && LineId(h, j)[0] == GroupName(h)[0];
    var k := |GroupName(g)| + 1;
    assert LineId(g, i)[k..] == Digits(i) && LineId(h, j)[k..] == Digits(j);
    DigitsInjective(i, j);
  }

  /** With leg ids that hold no colon, an override key names one line of one leg: an override can
      never price another leg's line. */
  lemma OverrideKeysDoNotBleed(legA: string, g: ChargeGroup, i: nat, legB: string, h: ChargeGroup, j: nat)
    requires ':' !in legA && ':' !in legB
    requires LineKey(legA, LineId(g, i)) == LineKey(legB, LineId(h, j))
    ensures legA == legB && g == h && i == j
  {
    var a, b := LineKey(legA, LineId(g, i)), LineKey(legB, LineId(h, j));
    assert a[|legA|] == ':' && b[|legB|] == ':';
    assert forall k :: 0 <= k < |legA| ==> a[k] == legA[k];
    assert forall k :: 0 <= k < |legB| ==> b[k] == legB[k];
    assert a[..|legA|] == legA && b[..|legB|] == legB;
    assert a[|legA| + 1..] == LineId(g, i) && b[|legB| + 1..] == LineId(h, j);
    LineIdIsUnique(g, i, h, j);
  }
}
