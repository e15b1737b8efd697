# Route, award and client-quotation model

A freight forwarding query moves from a route of legs, through forwarders' quotes and an approved award per leg, to a
priced quotation for the client. This project models the parts of that system that carry algorithms, protocols or money,
and proves what they promise.

* **Route graph.** `Graph` and `LongestPath` hold the in-place relaxation that layers a route; `UnionFind` the connected
  components with path compression; `Grouping` the insertion-ordered maps and stable sorts; `RouteLayout` the grid of
  columns and rows, split into component blocks or not; `RouteLayoutProperties` what a reader of a layout may rely on;
  `LegOrder` and `LegOrderStable` the route order of legs. `CargoChain`, `CargoChainProof` and `CargoRules` hold the
  per-cargo chain check, degree balance, then a guarded walk; `CargoFindings` which findings the legs call for.
* **Money.** `Money` is half-up rounding to cents over exact reals. `QuotationPricing` and `QuotationMargin` price a
  quotation; `QuoteEngine` totals an offer; `QuotationCharges` turns an offer into cost lines; `AwardPricing` converts and
  freezes the award and bounds how far a quotation can drift from it.
* **Client quotation.** `QuotationTable` is the rows and the single statements on them; `QuotationProtocol` any number of
  GET, PATCH, issue, revise and reopen calls, interleaved between any two statements; `QuotationGuarantees` what holds in
  every such run; `QuotationService` the calls as methods over stored rows. `CanonicalJson` and `CanonicalJsonProof` hold
  the text by which two drafts are compared.
* **Award.** `AwardMachines` are the leg and quote transition tables and the rollup; `AwardWorld` every operation with its
  fires after the commit, as a function of the award state of one query; `AwardInvariant`, `AwardOperations` and
  `AwardChange` the agreement they keep; `AwardRuns` the guarantees over all runs of completed operations;
  `AwardExactly` when each operation goes through and the rows it leaves;
  `AwardWedge` the run that ends in a stuck send, and `AwardRecovery` the way out of operations that stopped past their
  commit; `AwardService` the operations as methods that update rows in place;
  `ConcurrentSends` any number of sends on one leg, interleaved at each read, lock, write, commit and fire.
* **Contacts.** `Contacts` is the ordered writes that bring the contacts of one owner to a payload.

Code that updates state in the program is a method with loops here, or a class with the same fields, proved against a
function or predicate; the theorems are lemmas about those. Ghost out-parameters such as `plan` are witnesses for the
lemmas, not results. Where the code and its comments disagree, the code is followed.

## What turned out not to hold

Four promises fail for some inputs. The model keeps the code as it is, shows the failure, and proves when the promise holds.

* *The client total never falls when the margin rises.* False when the lines without an override include discounts: a
  charge of 1.00 with a discount of 2.00 gets cheaper from margin 0 to margin 100
  (`QuotationMargin.DiscountedQuotationFalls`). Over the margins a quotation can carry, two decimals from 0 to 100, it
  holds exactly when no single step of the margin takes away from what the costs without an override are marked up to
  together; overrides, groups and legs drop out (`QuotationMargin.NeverFallsExactlyWhenEveryStepRises`). No negative cost
  is enough, though not needed; a sum of costs that is not negative is needed, though not enough.
* *A PATCH moves the stamp only if it changes something.* False when two PATCHes with the same body overlap: both read,
  both write, and the second write moves the stamp for nothing
  (`QuotationGuarantees.RacingPatchesMoveTheStampForNothing`). In every run a PATCH moves only the stamp exactly when,
  after it read the row, another PATCH wrote the same margin and the same draft and nobody wrote the row since
  (`QuotationGuarantees.PatchMovesOnlyTheStampExactlyWhen`).
* *A send that passes every guard completes.* False from a leg at RFQ_SENT: once a priced offer was asked for again and
  expired, and the other forwarder's window has closed, every guard passes, the decision is committed, and the leg fire is
  illegal (`AwardWedge.GuardedSendCanWedge`, reached by a run of completed operations). A send completes exactly when the
  leg is FULLY_QUOTED or PARTIALLY_QUOTED, or its row lags behind another QUOTED offer
  (`AwardOperations.SendCompletesExactlyFromSendableLeg`). A stuck send is not lost: a rejection by anybody else completes
  and puts every row back in agreement (`AwardWedge.StuckSendIsRecoverable`).
* *Reconciled contacts are exactly the payload.* A kept contact that omits its optional designation keeps the stored one,
  because an absent field is not written, and the payload schema has no way to clear it. The rows equal the payload field
  for field exactly when no kept contact omits a designation that its row has
  (`Contacts.RowsEqualThePayloadExactlyWhen`; a failing payload is `Contacts.OmittedDesignationSurvives`).

## Model

| member | source | states |
|---|---|---|
| LongestPath.RelaxEdge | packages/shared/src/route-layering.ts:44-53 | one edge of a pass keeps every depth witnessed by a walk, never shrinks one, and changes nothing once the depths have settled |
| LongestPath.RelaxOnce | packages/shared/src/route-layering.ts:43-54 | after pass k every walk of k+1 edges has been paid for; a pass that changes nothing leaves a fixpoint; no pass changes anything once as many passes as edges have run on an acyclic graph |
| LongestPath.RelaxAll | packages/shared/src/route-layering.ts:41-55 | on an acyclic graph the loop settles before its cap of edges.length + 2 |
| LongestPath.FixpointIsLongest | packages/shared/src/route-layering.ts:24-33 | settled, witnessed depths are longest-path lengths, and only an acyclic graph has them |
| LongestPath.ComputeLongestPathDepth | packages/shared/src/route-layering.ts:34-58 | settles if and only if the graph is acyclic, and then every depth is the length of the longest directed path ending there; on any graph every depth is the length of a walk and at most E*(E+2) |
| LongestPath.DepthIgnoresOrder | packages/shared/src/route-layering.ts:24-27 | the order and repetition of edges and points does not matter |
| UnionFind.Forest.constructor | packages/shared/src/route-layering.ts:164-165 | every point starts as its own representative |
| UnionFind.Forest.Find | packages/shared/src/route-layering.ts:166-176 | terminates, returns the representative, and changes no representative while it compresses the path |
| UnionFind.Forest.Union | packages/shared/src/route-layering.ts:180-182 | merges exactly the two classes |
| UnionFind.ClassesAreConnectivity | packages/shared/src/route-layering.ts:162-163 | equal representatives if and only if a chain of edges, in either direction, joins the points |
| UnionFind.UnionAll | packages/shared/src/route-layering.ts:177-183 | after the loop the classes are the connected components of the edges with both ends among the points |
| Grouping.GroupBy | packages/shared/src/route-layering.ts:140-147 | every key's entry holds exactly its ids in input order, and keys are met in first-encounter order |
| Grouping.StableSort | packages/shared/src/route-layering.ts:197-201 | a permutation in key order that keeps equal keys in input order |
| RouteLayout.TrailOrphans | packages/shared/src/route-layering.ts:122-138 | touched points keep their longest-path depth, untouched ones come after all of them, at 0 without edges |
| RouteLayout.PlaceGrid | packages/shared/src/route-layering.ts:149-160 | the column of a point is the rank of its depth, its row its place among the points of that depth, and the height is the tallest column |
| RouteLayout.Components | packages/shared/src/route-layering.ts:185-206 | component numbers are 0..n-1, equal exactly for joined points, ordered by leftmost column with ties in first-encounter order |
| RouteLayout.ComputeRouteLayout | packages/shared/src/route-layering.ts:115-255 | the layout is that of the depths, the grid, the components and the runs of columns above, split or not |
| RouteLayoutProperties.NoSharedCell | packages/shared/src/route-layering.ts:208-254 | two different points never share a cell |
| RouteLayoutProperties.ComponentsAreBlocks | packages/shared/src/route-layering.ts:226-250 | same component number if and only if edges join the points; in a split layout a break column separates a smaller component from a larger one |
| RouteLayoutProperties.EveryComponentIsUsed | packages/shared/src/route-layering.ts:202-206 | the numbers in use are exactly 0..componentCount-1 |
| RouteLayoutProperties.ColumnsAreOccupiedOrBreaks | packages/shared/src/route-layering.ts:226-251 | columns 0..colCount-1 are exactly the occupied ones and the breaks, never both; there are componentCount-1 breaks when split, none otherwise |
| RouteLayoutProperties.EdgesGoRight | packages/shared/src/route-layering.ts:130-160 | on an acyclic graph every edge goes strictly rightwards |
| RouteLayoutProperties.OrphansTrail | packages/shared/src/route-layering.ts:130-138 | unsplit, a point no edge touches lies right of every point an edge touches |
| RouteLayoutProperties.RowsAreBounded | packages/shared/src/route-layering.ts:215-246 | every row is below maxRows |
| RouteLayoutProperties.LastRowIsReached | packages/shared/src/route-layering.ts:215-246 | with distinct ids some point is in the last row, so maxRows is no more than needed |
| RouteLayoutProperties.RowsKeepInputOrder | packages/shared/src/route-layering.ts:149-160 | within a column the points stand top to bottom in the order they were given in |
| RouteLayoutProperties.ComponentsComeByDepth | packages/shared/src/route-layering.ts:185-206 | of two components the one with the smaller number reaches a smaller depth first, or the same one and a point of it was given first |
| LegOrder.BuildGraph | packages/shared/src/route-layering.ts:298-306 | the points in the order the set acquires them, and an edge per leg with both ends |
| LegOrder.OrderLegsByRoute | packages/shared/src/route-layering.ts:293-319 | the result lists the legs once each, with the same multiplicity, by the stable order of their keys in their own split layout |
| LegOrder.LegSits | packages/shared/src/route-layering.ts:307-317 | a leg sorts by the columns of the nodes its ends are at; without an origin it starts at column 0, without a destination it ends at its own origin column |
| LegOrder.LegsComeByColumns | packages/shared/src/route-layering.ts:312-318 | of two legs of the result the first has the smaller origin column, or the same one and the smaller destination column, or the same of both and came first in the input |
| LegOrder.NearerDestinationComesFirst | packages/shared/src/route-layering.ts:257-279 | on an acyclic route, of two legs from one point the one whose destination has a path to the other's destination comes first |
| LegOrder.FeedingLegComesFirst | packages/shared/src/route-layering.ts:257-279 | on an acyclic route a leg that feeds another, directly or along any path, comes first |
| LegOrder.ComponentsAreContiguous | packages/shared/src/route-layering.ts:274-279 | a leg between two legs of one component belongs to it, on any route |
| LegOrderStable.SortingTwiceIsSortingOnce | packages/shared/src/route-layering.ts:281-288 | on an acyclic route of legs with both ends, ordering the ordered legs changes nothing |
| CargoChain.TallyDegrees | packages/shared/src/route.ts:206-216 | the maps hold the in- and out-degrees and the outgoing legs of every point, in leg order |
| CargoChain.Balance | packages/shared/src/route.ts:218-229 | sources, sinks and the imbalance flag are the nodes with one departure too many, one arrival too many, and any other imbalance |
| CargoChain.WalkChain | packages/shared/src/route.ts:263-297 | the walk always ends within edges.length steps, so its last guard never fires; what it reports is why it stopped and the connections it missed |
| CargoChainProof.OutInOrder | packages/shared/src/route.ts:210-213 | the legs out of a point are listed in leg order |
| CargoChainProof.PathBalance | packages/shared/src/route.ts:218-252 | on a simple path there is one source, one sink and no imbalance |
| CargoChainProof.WalkTakesPath | packages/shared/src/route.ts:263-297 | on a simple path the walk arrives, having taken exactly the path |
| CargoChainProof.ArrivalIsPath | packages/shared/src/route.ts:299-301 | a walk that arrives having used as many legs as there are is a simple path of them all |
| CargoRules.CheckChain | packages/shared/src/route.ts:206-301 | R1, R4, R6 or C2 is reported if and only if there is no order of the complete legs that makes them one directed path without a repeated point; on such a path the findings are exactly R2 at a Delivery start and T1 at each missed connection; on any legs they are exactly those called for |
| CargoFindings.SplitAsCalledFor | packages/shared/src/route.ts:218-252 | without one point left once too often and one entered once too often the report is R1, and R6 exactly when some point is out by more than one |
| CargoFindings.WalkAsCalledFor | packages/shared/src/route.ts:253-301 | with such points, each rule is reported exactly when the legs call for it: R2 when the walk would start at a Delivery; T1 at a leg on the forced walk due to leave before the one before it is due; R1, R4 or C2 when the walk strands, comes back to a point, or ends with legs left out |
| CargoRules.CarryingLegCount | packages/shared/src/route.ts:84-90 | the legs of a cargo row are those it is assigned to, as often as assigned, each the last leg of its id |
| CargoRules.LegsByCargo | packages/shared/src/route.ts:87-90 | every cargo row's legs, in assignment order |
| CargoRules.AssignedInOrder | packages/shared/src/route.ts:86-90 | that order is the order of the assignments |
| CargoRules.CheckDangerous | packages/shared/src/route.ts:197-201 | one R9 per carrying leg |
| CargoRules.CheckCargo | packages/shared/src/route.ts:193-302 | a row is blamed under a chain rule if and only if it has complete carrying legs that are not one path; R9 if and only if it is dangerous, has no sheet and has a carrying leg; and its findings are exactly those called for |
| CargoRules.ValidateCargo | packages/shared/src/route.ts:192-305 | the verdict on each cargo row is independent of the other rows; a finding is in the report if and only if some row calls for it, R9 for each leg the row is assigned to, and it is blocking on create and a warning on a draft |
| QuotationPricing.EveryLineIsPriced | packages/shared/src/quotation-pricing.ts:65-109 | a quotation has the legs, groups and lines it is priced from, in order; a line with an override charges it, any other its cost plus the margin on it to the nearest cent, halves up |
| QuotationPricing.TotalsIgnoreLegOrder | packages/shared/src/quotation-pricing.ts:100-108 | totals depend on the legs as a multiset, so stored order and route order price alike |
| QuotationPricing.CostTotalIsConserved | packages/shared/src/quotation-pricing.ts:47-109 | the cost total is exactly the sum of the line costs |
| QuotationPricing.ClientTotalIsConserved | packages/shared/src/quotation-pricing.ts:47-109 | the client total is within half a cent per group of what the lines charge, and exact when overrides are whole cents |
| QuotationPricing.MarginIsTheDifference | packages/shared/src/quotation-pricing.ts:43-44 | the margin value is exactly client total minus cost total |
| QuotationPricing.LineRisesExactlyWhenCostIsNotNegative | packages/shared/src/quotation-pricing.ts:7-11 | a line's client amount never falls with the margin if and only if its cost is not negative |
| QuotationPricing.ClientTotalRisesWithMargin | packages/shared/src/quotation-pricing.ts:59-109 | without negative marked-up costs the client total never falls when the margin rises |
| QuotationMargin.ClientTotalSplits | packages/shared/src/quotation-pricing.ts:55-101 | the client total is exactly what the costs without an override are marked up to, plus a part the margin does not touch |
| QuotationMargin.NeverFallsExactlyWhenEveryStepRises | packages/shared/src/quotation-pricing.ts:59-109 | over two-decimal margins from 0 to 100 the client total never falls if and only if at every step of the margin the rises of the costs without an override sum to nothing less than zero |
| QuotationMargin.AmountInCents | packages/shared/src/quotation-pricing.ts:7-11 | on whole cents a client amount, and with it the condition, is integer arithmetic |
| QuotationMargin.NeverFallsWithoutNegativeCosts | packages/shared/src/quotation-pricing.ts:59-109 | no negative cost without an override is enough |
| QuotationMargin.WholeMarginAddsTheCosts | packages/shared/src/quotation-pricing.ts:59-109 | from margin 0 to margin 100 the client total gains exactly the sum of the costs without an override |
| QuotationMargin.NegativeSumLowersTotal | packages/shared/src/quotation-pricing.ts:59-109 | so a negative sum of them makes the total fall |
| QuotationMargin.DiscountedQuotationFalls | packages/shared/src/quotation-pricing.ts:59-109 | a quotation that falls |
| QuotationMargin.SmallDiscountNeverFalls | packages/shared/src/quotation-pricing.ts:59-109 | a quotation with a negative line that never falls |
| QuotationMargin.ZeroSumCanFall | packages/shared/src/quotation-pricing.ts:59-109 | a quotation whose costs sum to zero and whose total falls |
| QuotationCharges.BuildQuotationCostLines | packages/shared/src/quotation-charges.ts:56-138 | refuses exactly a currency other than dollars without a positive rate; otherwise every line is its native amount, divided by the rate unless in dollars, to the nearest cent, and a group's cost is the sum of its lines |
| QuotationCharges.RowsLandInTheirGroups | packages/shared/src/quotation-charges.ts:95-124 | origin and destination charges land in their own groups, all other charges and then the variant's rate rows in freight, warehouse rows in the warehouse group, in order and with their amounts |
| QuotationCharges.GroupsComeInOrder | packages/shared/src/quotation-charges.ts:30-31 | origin, freight, destination, warehouse, no group twice |
| QuoteEngine.ChargeWorth | packages/shared/src/quote-engine.ts:18-40 | an excess-weight charge is worth its kilos over the limit at the rate, whatever its amount says; any other its amount |
| QuoteEngine.TotalOfColumn | packages/shared/src/quote-engine.ts:75-90 | a column's grand total counts the first row of the variant in the mode's table, the charges and the warehouse |
| QuotationCharges.EntriesSum | packages/shared/src/quote-engine.ts:75-90 | the amounts of the lines come to the variant's grand total plus the rate rows it does not count |
| QuotationCharges.NativeLinesSumToGrandTotal | packages/shared/src/quotation-charges.ts:95-135 | the native lines sum to the variant's grand total plus the variant's rate rows beyond the first in the mode's own table; with amounts that are not negative, to the grand total if and only if all those rows are blank or zero |
| QuotationCharges.SeededHasNoExcess | packages/shared/src/quote-seed.ts:46-105 | an offer of the seeded shape has no such row |
| QuotationCharges.LineIdIsUnique | packages/shared/src/quotation-charges.ts:82-93 | a line id names one group and one position of a leg |
| QuotationCharges.OverrideKeysDoNotBleed | packages/shared/src/quotation-pricing.ts:50-53 | an override key names one line of one leg, so an override never prices another leg's line |
| AwardPricing.LatestRateByCurrency | packages/shared/src/fx.ts:37-51 | every currency with a rate gets one that no other of it takes effect after, none of the same date was created after, and no earlier listed equals in both |
| AwardPricing.WinnerIsPriced | apps/api/src/modules/award/award.service.ts:1341-1388 | a winner is refused exactly when its column does not exist in its mode or its currency, the offer's own before the request's, is unknown or has no positive rate; dollars are frozen as they are, any other total at the rate to the nearest cent |
| AwardPricing.FreezeAward | apps/api/src/modules/award/award.service.ts:1320-1399 | the snapshot prices every leg in order and rounds the sum, or is refused exactly when some leg cannot be priced, with the first such leg's error |
| AwardPricing.FrozenWinnerIsPriceable | packages/shared/src/quotation-charges.ts:62-71 | the rate that froze a winner is always usable for its cost lines |
| AwardPricing.CostTotalMatchesAward | apps/api/src/modules/award/award.service.ts:1391-1399 | for the same winners the quotation's cost total and the award's total differ by the uncounted rate rows, to within half a cent per line, per leg and once more |
| AwardPricing.SeededCostTotalMatchesAward | packages/shared/src/quotation-charges.ts:95-102 | for offers of the seeded shape the two totals agree to within that rounding |
| CanonicalJson.CanonicalText | apps/api/src/modules/quotation/quotation.service.ts:91-124 | the recursive walk computes the canonical text, or gives up at the first part that is not JSON |
| CanonicalJson.ItemTexts | apps/api/src/modules/quotation/quotation.service.ts:99-107 | array items in their order |
| CanonicalJson.FieldTexts | apps/api/src/modules/quotation/quotation.service.ts:114-123 | the defined fields of an object in key order |
| CanonicalJsonProof.ReadBack | apps/api/src/modules/quotation/quotation.service.ts:91-124 | two canonical texts, each followed by nothing, a comma or a closing bracket, agree as a whole only if the values mean the same and what follows is the same |
| CanonicalJsonProof.CanonicalTextDecides | apps/api/src/modules/quotation/quotation.service.ts:66-90 | a value has a text if and only if it is JSON all through, and two texts are equal if and only if the values are equal as JSON, key order and undefined fields aside |
| QuotationTable.OnlyNextVersion | prisma/schema.prisma:1317 | the unique key admits a version after a settled one only as the next version, when there is no draft |
| QuotationTable.CreatedOk | apps/api/src/modules/quotation/quotation.service.ts:268-281 | an insert past a settled version keeps versions 1..n and the one draft, whether or not the key refuses it |
| QuotationTable.PatchedOk | apps/api/src/modules/quotation/quotation.service.ts:380-388 | the guarded update keeps the table in order and touches no row that left DRAFT |
| QuotationTable.IssuedOk | apps/api/src/modules/quotation/quotation.service.ts:493-517 | so does the issuing update, priced in any order of the legs |
| QuotationTable.ReopenedOk | apps/api/src/modules/award/award.service.ts:1450-1467 | reopening supersedes every issued row and deletes the draft, keeping 1..n |
| QuotationProtocol.StepKeepsInv | apps/api/src/modules/quotation/quotation.service.ts:246-695 | every step of every interleaved call keeps the table in order, what each call in flight relies on, and every frozen row |
| QuotationProtocol.SoloGetSucceeds | apps/api/src/modules/quotation/quotation.service.ts:230-238 | a GET on a frozen award alone never meets a version conflict, even after a reopen left only superseded rows |
| QuotationProtocol.NextVersionIsFree | apps/api/src/modules/quotation/quotation.service.ts:664-695 | without a draft the version after the latest issued one is free: whatever was superseded came before whatever was not |
| QuotationGuarantees.VersionsAreOneToN | apps/api/src/modules/quotation/quotation.service.ts:224-245 | in every interleaving the versions are exactly 1..n, each once, and only n may be a draft |
| QuotationGuarantees.NeverTwoDrafts | apps/api/src/modules/quotation/quotation.service.ts:239-245 | there is never a second draft |
| QuotationGuarantees.TotalsArePrices | apps/api/src/modules/quotation/quotation.service.ts:332-336 | stored totals are always the price of the stored draft at the stored margin |
| QuotationGuarantees.IssuedRowsAreFrozen | apps/api/src/modules/quotation/quotation.service.ts:298-305 | after issuing, margin, draft, totals and snapshot never change in any run, the row is never deleted, and its status may only become SUPERSEDED |
| QuotationGuarantees.StampFixesContent | apps/api/src/modules/quotation/quotation.service.ts:447-454 | a row seen twice with the same stamp is the same row |
| QuotationGuarantees.CallKeepsExpected | apps/api/src/modules/quotation/quotation.service.ts:451-501 | the stamp an issue call writes against is the one its caller named |
| QuotationGuarantees.IssueFreezesWhatTheCallerSaw | apps/api/src/modules/quotation/quotation.service.ts:439-558 | a successful issue freezes exactly the price of the draft as it was with the caller's stamp, whatever PATCHes race it |
| QuotationGuarantees.PatchMovesOnlyTheStampExactlyWhen | apps/api/src/modules/quotation/quotation.service.ts:307-393 | in every run a PATCH moves only the stamp if and only if, after its read, another PATCH wrote the same margin and draft and nobody wrote the row since |
| QuotationGuarantees.PatchMovesStampForAChange | apps/api/src/modules/quotation/quotation.service.ts:307-338 | so a PATCH whose row nobody wrote since it was read moves the stamp and changes something |
| QuotationGuarantees.QuantizedIsAStep | apps/api/src/modules/quotation/quotation.service.ts:48-64 | every margin from 0 to 100 is priced as one of the 10001 two-decimal margins |
| QuotationGuarantees.QuantizedIsNearest | apps/api/src/modules/quotation/quotation.service.ts:62-64 | a quantized margin is the nearest two-decimal one, halves away from zero |
| QuotationGuarantees.SoloPatchMovesStampExactlyForAChange | apps/api/src/modules/quotation/quotation.service.ts:356-388 | alone, a PATCH moves the stamp exactly when margin, draft or a total changes |
| QuotationGuarantees.RepeatedPatchWritesNothing | apps/api/src/modules/quotation/quotation.service.ts:48-64 | sending the same PATCH again writes nothing, whatever precision its margin has |
| QuotationGuarantees.RacingPatchesMoveTheStampForNothing | apps/api/src/modules/quotation/quotation.service.ts:378-393 | two overlapping equal PATCHes move the stamp for nothing, from every state with a draft they would change |
| QuotationService.SortByCode | apps/api/src/modules/quotation/quotation.service.ts:733 | the legs by code in the locale's order, those of one place as stored |
| QuotationService.OrderLegs | apps/api/src/modules/quotation/quotation.service.ts:726-739 | legs are sorted by code first, ties as stored, then in route order; every stored leg is kept, also one whose row is gone |
| QuotationService.Service.LatestQuotation | apps/api/src/modules/quotation/quotation.service.ts:285-289 | a row with the highest version, if there is a row |
| QuotationService.Service.Create | apps/api/src/modules/quotation/quotation.service.ts:268-281 | the insert happens unless the version exists |
| QuotationService.Service.GetOrCreateDraft | apps/api/src/modules/quotation/quotation.service.ts:246-283 | refused without a frozen award; otherwise it returns the latest row, live, creating it only when there is none, as the next version at no margin; run alone, the protocol's steps do this |
| QuotationService.Service.Patch | apps/api/src/modules/quotation/quotation.service.ts:343-398 | goes through exactly on a latest row that is a draft; the row then holds the margin, quantized, and the overrides of the body, whatever was not mentioned as before, and its totals; run alone, the protocol's steps do this |
| QuotationService.Service.Issue | apps/api/src/modules/quotation/quotation.service.ts:439-558 | goes through exactly when the latest row is a draft with the caller's stamp and a leg; that row alone changes, to ISSUED with its content kept and a snapshot priced over its legs in route order; run alone, the protocol's steps do this |
| QuotationService.Service.Revise | apps/api/src/modules/quotation/quotation.service.ts:664-695 | goes through exactly when there is no draft and an issued row; the new draft has the margin, lines, overrides and totals of the latest issued row, one version on; run alone, the protocol's steps do this |
| QuotationService.Service.ReopenComparison | apps/api/src/modules/award/award.service.ts:1432-1476 | clears the award, supersedes issued rows as they stood and deletes the draft, or is refused without an award; run alone, the protocol's steps do this |
| AwardInvariant.FireQuoteFrame | apps/api/src/modules/rfq/leg-quote.projector.ts:80-139 | a quote fire moves that quote alone, at most its own leg's row, and no leg under review |
| AwardOperations.SubmitKeepsInv | apps/api/src/modules/ff-portal/ff-portal.service.ts:372-400 | a portal submission keeps decision, leg and quote in agreement and the leg row caught up |
| AwardOperations.ExpireKeepsInv | apps/api/src/modules/rfq/rfq-schedule.listener.ts:176-180 | so does an expiry |
| AwardOperations.RequoteKeepsInv | apps/api/src/modules/award/negotiation.service.ts:66-256 | so does a re-quote, backward walk and decision reset included |
| AwardOperations.SendCompletesExactlyFromSendableLeg | apps/api/src/modules/award/award.service.ts:405-644 | a guarded send completes if and only if the leg is fully or partially quoted, or lags behind another quoted offer; otherwise it is stuck after its commit |
| AwardOperations.CompletedSend | apps/api/src/modules/award/award.service.ts:559-641 | a completed send leaves decision, leg and quote pending, the quote's and the leg's earlier status in the log, and a permission unless the leg was fully quoted |
| AwardOperations.SendKeepsInv | apps/api/src/modules/award/award.service.ts:405-644 | a completed send keeps the agreement |
| AwardOperations.PendingIsApprovable | apps/api/src/modules/award/award.service.ts:783-885 | a pending decision in any agreeing state passes every approval guard for another user, and both fires are legal |
| AwardOperations.ApproveKeepsInv | apps/api/src/modules/award/award.service.ts:852-882 | approving keeps the agreement |
| AwardOperations.RejectAlwaysCompletes | apps/api/src/modules/award/award.service.ts:1002-1194 | from any state of the rows a guarded rejection completes: the decision is a draft, a quote under review is back on the status it was sent from, neither leg nor quote is under review, no other row moves and the log of sends stays |
| AwardOperations.RejectCompletes | apps/api/src/modules/award/award.service.ts:1128-1194 | when the rows agreed, both fires run: the quote is back on the status it was sent from and the leg on the one it earned |
| AwardRecovery.RejectRecoversSend | apps/api/src/modules/award/award.service.ts:950-1001 | wherever a send stopped past its commit, a rejection by anybody but its sender completes, puts every quote back on the status it had and restores the agreement of all rows |
| AwardRecovery.RejectRecoversApproval | apps/api/src/modules/award/award.service.ts:1032-1067 | wherever an approval stopped past its commit, anybody's rejection ends as if the pending decision had been rejected |
| AwardOperations.RejectKeepsInv | apps/api/src/modules/award/award.service.ts:1128-1194 | rejecting keeps the agreement |
| AwardChange.ChangeOrderReopens | apps/api/src/modules/changes/change-order.strategy.ts:212-227 | a change order on a leg invalidates its offers, reopens it and resets its decision, whatever stage it was at |
| AwardChange.ChangeOrderKeepsInv | apps/api/src/modules/award/award-change-order.listener.ts:48-87 | and keeps the agreement |
| AwardExactly.ProjectorFits | apps/api/src/modules/rfq/leg-quote.projector.ts:80-139 | after any quote fire the leg is FULLY_QUOTED once everybody asked has answered, PARTIALLY_QUOTED at the first offer, and goes back only after a re-quote |
| AwardExactly.SubmitExactly | apps/api/src/modules/ff-portal/ff-portal.service.ts:372-400 | an offer is taken exactly while it is asked for and its leg is not approved for another; it is then QUOTED with its offer, and nothing else moves but the leg row that fits |
| AwardExactly.ExpireExactly | apps/api/src/modules/rfq/rfq-schedule.listener.ts:176-180 | a closing window expires exactly a quote still asked for |
| AwardExactly.SendExactly | apps/api/src/modules/award/award.service.ts:405-614 | a send passes its guards exactly when the query is not frozen, no decision is live, the named offer stands and is justified, no re-quote is passed over without a reason, and the leg is fully quoted or every awaited window has closed |
| AwardExactly.OpenWindowBlocksSend | apps/api/src/modules/award/award.service.ts:543-556 | while an awaited forwarder's window is open nobody sends from a leg that is not fully quoted |
| AwardExactly.SendIsExplained | apps/api/src/modules/award/award.service.ts:587-614 | the send's log entry carries no permission from a fully quoted leg, else the sender's reason or that the windows had closed |
| AwardExactly.RejectExactly | apps/api/src/modules/award/award.service.ts:705-722 | in every run, also with stops, a rejection completes exactly on an unfrozen query when the decision is approved, or pending and sent by somebody else |
| AwardExactly.RequoteExactly | apps/api/src/modules/award/negotiation.service.ts:66-256 | a re-quote goes through exactly on a quoted or expired quote of a leg without a live decision, unfrozen; the quote is then REQUOTED, the decision blank, the leg row the fitting one |
| AwardExactly.GenerateExactly | apps/api/src/modules/award/award.service.ts:1303-1430 | the award is frozen exactly when every leg, and there is one, is approved for an existing quote and can be priced; it then names those quotes |
| AwardExactly.DistributeExactly | apps/api/src/modules/rfq/rfq.service.ts:317-548 | distributing sends exactly the leg's fresh and invalidated quotes, old offers cleared, and takes a ready leg along |
| AwardExactly.ChangeOrderExactly | apps/api/src/modules/award/award-change-order.listener.ts:48-87 | a change order invalidates exactly the leg's standing offers, those under review, and expired ones with an offer, and blanks the decision |
| AwardExactly.ReviewsAreSends | apps/api/src/modules/award/award.service.ts:627-641 | in every run only a send puts a leg under review and only an approval approves it |
| AwardRuns.StepKeepsInv | apps/api/src/modules/award/award.service.ts:405-1477 | every completed operation keeps the agreement |
| AwardRuns.AtMostOneUnderReview | apps/api/src/modules/award/award.service.ts:483-496 | in every run a leg has at most one quote pending approval or approved |
| AwardRuns.DecisionLegAndQuoteAgree | apps/api/src/modules/award/award.service.ts:627-641 | decision, leg and shortlisted quote are all pending, all approved, or none of the leg's rows is either |
| AwardRuns.PendingStaysApprovable | apps/api/src/modules/award/award.service.ts:831-850 | whatever happens after a send, a different user can approve it while it is pending |
| AwardRuns.ApproveCompletesExactly | apps/api/src/modules/award/award.service.ts:667-681 | in every run an approval completes if and only if the query is not frozen, the decision is pending and somebody else sent it |
| AwardRuns.LiveDecisionHasItsUsers | apps/api/src/modules/award/award.service.ts:667-681 | in every run a live decision goes back to a send by the user it names, and a decided one to an approval after that by another user |
| AwardRuns.NobodyApprovesTheirOwnSend | apps/api/src/modules/award/award.service.ts:677-678 | in every run the user who approved a leg is not the one who sent it |
| AwardRuns.LiveDecisionStaysRejectable | apps/api/src/modules/award/award.service.ts:950-1067 | in every run, also one in which operations stopped past their commit, a live decision of an unlocked query can be rejected, and then neither its leg nor its quote is under review |
| AwardRuns.FrozenAwardIsHeld | apps/api/src/modules/award/award.service.ts:1303-1310 | a frozen award names one winner per leg, each leg is approved for that quote, and the portal refuses every write to every quote |
| AwardRuns.FrozenUntilReopened | apps/api/src/modules/award/query-lock.service.ts:36-45 | only reopening changes a frozen award; besides it only expiries can complete |
| AwardRuns.LiveDecisionKeepsItsSend | apps/api/src/modules/award/award.service.ts:274-299 | while a decision is live no operation replaces its quote or the log entries of its send |
| AwardRuns.SendThenRejectReturns | apps/api/src/modules/award/award.service.ts:1056-1148 | send, then reject, approved in between or not, over any history: the quote is back on the status it was sent from, the leg on FULLY_QUOTED if sent from there or justified by then, else PARTIALLY_QUOTED |
| AwardRuns.RejectRestoresLeg | apps/api/src/modules/award/award.service.ts:369-376 | with siblings unchanged a quoted leg is back exactly as it left |
| AwardWedge.GuardedSendCanWedge | apps/api/src/modules/award/award.module.ts:118-119 | a run of completed operations reaches a state where a send passes every guard and cannot move its leg |
| AwardWedge.StuckSendIsRecoverable | apps/api/src/modules/award/award.service.ts:984-1001 | after any stuck send in any run, a rejection by anybody else puts every quote back on the status it had and all rows in agreement |
| AwardService.Award.FireLeg | apps/api/src/modules/status/status.service.ts:40-75 | a legal edge logs and stores, an illegal one changes nothing |
| AwardService.Award.Recompute | apps/api/src/modules/rfq/leg-quote.projector.ts:80-139 | the leg row after the forward rollup or the re-quote's backward walk |
| AwardService.Award.FireQuote | apps/api/src/modules/rfq/leg-quote.projector.ts:45-61 | the quote's own change, then the projector |
| AwardService.Award.SendGuards | apps/api/src/modules/award/award.service.ts:414-614 | the guards pass exactly when the specification allows the send, with the permission it records |
| AwardService.Award.SendForApproval | apps/api/src/modules/award/award.service.ts:405-644 | guards in order, one commit, quote fire, leg fire: the rows end as the specification says, also when a fire is illegal, and in agreement unless stuck |
| AwardService.Award.Approve | apps/api/src/modules/award/award.service.ts:783-885 | likewise for an approval; it goes past its guards only for a pending decision the caller did not send |
| AwardService.Award.Reject | apps/api/src/modules/award/award.service.ts:1002-1194 | likewise from any state of the rows, with either fire skipped when its row is not under review; it never gets stuck, and nobody rejects a pending send of their own |
| AwardService.Award.RequestRequote | apps/api/src/modules/award/negotiation.service.ts:66-256 | likewise, the decision reset last |
| AwardService.Award.ClosedLegs | apps/api/src/modules/ff-portal/leg-closure.ts:37-57 | exactly the legs approved for a quote other than the one asked about |
| AwardService.Award.SaveDraft | apps/api/src/modules/ff-portal/ff-portal.service.ts:348-352 | accepted exactly when the leg is open to this quote and the quote is writable |
| AwardService.Award.Submit | apps/api/src/modules/ff-portal/ff-portal.service.ts:395-400 | the same guard, then the stored offer and the fire |
| AwardService.Award.GenerateClientQuote | apps/api/src/modules/award/award.service.ts:1303-1430 | freezes one winner per leg exactly when every leg is approved with a shortlisted quote and the winners can be priced |
| AwardService.Award.ReopenComparison | apps/api/src/modules/award/award.service.ts:1432-1476 | clears the frozen award and leaves decisions, legs and quotes alone |
| ConcurrentSends.NextKeepsOk | apps/api/src/modules/award/award.service.ts:432-496 | every step of every interleaved send keeps: one lock holder, guards that still hold until commit, one winner |
| ConcurrentSends.AtMostOneCommits | apps/api/src/modules/award/award.service.ts:178-209 | however sends interleave, at most one commits |
| ConcurrentSends.DecisionIsTheWinners | apps/api/src/modules/award/award.service.ts:559-585 | the persisted decision is the one that caller named |
| ConcurrentSends.OnlyTheWinnersQuoteMoves | apps/api/src/modules/award/award.service.ts:617-631 | no other quote of the leg is moved to PENDING_APPROVAL |
| ConcurrentSends.WinnersQuoteIsUnderReview | apps/api/src/modules/award/award.service.ts:627-631 | once the winner's quote fire has run, its quote is under review and stays there |
| ConcurrentSends.SoloSendIsSend | apps/api/src/modules/award/award.service.ts:405-644 | a send that nobody interrupts does what AwardWorld.SendForApproval does: refused, completed, or stuck past its commit with no step left |
| Contacts.ContactTable.Update | apps/api/src/common/reconcile-contacts.ts:79-88 | one update, legal only when it keeps one PRIMARY per owner; an absent designation is left as stored |
| Contacts.ContactTable.Check | apps/api/src/common/reconcile-contacts.ts:50-69 | two primaries, then a foreign id, are refused before anything is written |
| Contacts.ContactTable.Deletes | apps/api/src/common/reconcile-contacts.ts:71-75 | exactly the owner's rows the payload does not name are gone |
| Contacts.ContactTable.Demotions | apps/api/src/common/reconcile-contacts.ts:77-82 | every demotion is legal under the index |
| Contacts.ContactTable.Promotions | apps/api/src/common/reconcile-contacts.ts:84-88 | every promotion is legal once the demotions have run |
| Contacts.ContactTable.Creates | apps/api/src/common/reconcile-contacts.ts:96-101 | every insert is legal, the PRIMARY one last |
| Contacts.DemotionsFreeTheIndex | apps/api/src/common/reconcile-contacts.ts:35-41 | after the demotions the owner's PRIMARY row, if any, is the one the payload wants |
| Contacts.PromotingFirstBreaksTheIndex | apps/api/src/common/reconcile-contacts.ts:35-41 | promoting another contact while the PRIMARY is still there always breaks the index |
| Contacts.ContactTable.Reconcile | apps/api/src/common/reconcile-contacts.ts:41-102 | at most one PRIMARY per owner after every single write, also with repeated ids; a refusal writes nothing; otherwise the rows end as the four passes say |
| Contacts.FinalRowsAreThePayload | apps/api/src/common/reconcile-contacts.ts:32-34 | with distinct ids: one row per contact as that contact asks, no other row of the owner, everybody else's rows untouched |
| Contacts.EveryFieldIsAsAsked | apps/api/src/common/reconcile-contacts.ts:79-101 | each contact's row has this owner and the contact's details, level and designation; a missing designation is the stored one, or none on a new row |
| Contacts.VerdictExactly | apps/api/src/common/reconcile-contacts.ts:50-69 | refused for two primaries first, then for an id that names no row of the owner, and for nothing else |
| Contacts.RowsEqualThePayloadExactlyWhen | packages/shared/src/masters/contacts.ts:16-39 | the rows are the payload field for field if and only if no kept contact omits a designation its row has |
| Contacts.OmittedDesignationSurvives | packages/shared/src/masters/contacts.ts:16-39 | a payload for which they are not |

## Left out

- The rules of validateRoute outside the per-cargo loop (T3, C1, C3, R3, R5, R7, R8, V-M1): local checks, each readable from its own lines.
- Message texts, labels and notes on findings and cost lines; a leg code's place in the locale's order is a given rank.
- Floating point and the EPSILON term in rounding: amounts are exact reals, rounded half up to cents; a JSON number is the numeral it is written as.
- QuotationPricing.ClientAmount: rounds half up on exact values, so binary artefacts of the program's numbers are not modelled.
- LegOrderStable.SortingTwiceIsSortingOnce: legs with a missing end are excluded, as the promise excludes them; they fall back to column 0 and carry no order promise.
- How a new quotation draft is read from the award's rows: its legs are an arbitrary value in the protocol; AwardPricing states what they are for frozen winners.
- Drafts in the quotation tables are compared with equality; CanonicalJsonProof.CanonicalTextDecides is why the program's text comparison is that equality for stored JSON.
- Letter text, templates, recipients, message log, email and notification dispatch, audit events, tenants and the query status projection.
- Row stamps are strictly increasing numbers; two writes within one clock tick of the database are not modelled.
- Approving, rejecting, re-quoting and revising interleaved with each other or with reopening, for agreement across rows: the code accepts partial failures there, so AwardRuns is about operations that ran to completion.
- AwardRuns.PendingStaysApprovable: says nothing about states after a stuck send, where approving can be refused or get stuck too; rejecting is the way out.
- Which offers the compare grid prices, whether an override reason was needed and given, and which forwarders' windows have closed: inputs of a send.
- A change order on several legs at once is modelled leg by leg; deleting legs and edits that carry no live quote are not modelled.
- Base leg edges out of DRAFT other than validation, and every status after APPROVED, which no modelled operation fires.
- Scratchpad contents, the stale-page version check and offer validation of the portal: only the write guards decide the award state.
- Contacts: actor columns and timestamps; the ids of inserted rows are given by the caller of the model.
- File storage, exports, the web client, timezones, charge catalogues and seeding.
