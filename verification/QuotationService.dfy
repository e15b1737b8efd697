/** apps/api/src/modules/quotation/quotation.service.ts: the service's calls, each run to completion
    over the rows of one query. */
module QuotationService {
  import opened Wrappers
  import opened Graph
  import opened QuotationPricing
  import opened QuotationTable
  import opened QuotationProtocol
  import Grouping
  import LegOrder

  /** The end points of the legs, as the Leg table has them now. */
  type LegEnds = map<string, (Option<Id>, Option<Id>)>

  function OriginIn(ends: LegEnds): CostLeg -> Option<Id> {
    (l: CostLeg) => if l.legId in ends then ends[l.legId].0 else None
  }

  function DestinationIn(ends: LegEnds): CostLeg -> Option<Id> {
    (l: CostLeg) => if l.legId in ends then ends[l.legId].1 else None
  }

  /** Where a leg code comes in the locale's order. */
  type Collation = string -> nat

  function CodeKeys(legs: seq<CostLeg>, collate: Collation): (keys: seq<Grouping.SortKey>)
    ensures |keys| == |legs| && forall i :: 0 <= i < |legs| ==> keys[i] == (collate(legs[i].legCode), 0)
  {
    if legs == [] then [] else CodeKeys(legs[..|legs| - 1], collate) + [(collate(legs[|legs| - 1].legCode), 0)]
  }

  /** byCode are the legs by leg code, those of one place as they were stored. */
  ghost predicate InCodeOrder(legs: seq<CostLeg>, collate: Collation, byCode: seq<CostLeg>, perm: seq<nat>) {
    && LegOrder.IsPermutation(perm, |legs|) && byCode == LegOrder.Pick(legs, perm)
    && (forall x, y :: 0 <= x < y < |perm| ==> collate(byCode[x].legCode) <= collate(byCode[y].legCode))
    && (forall x, y :: 0 <= x < y < |perm| && collate(byCode[x].legCode) == collate(byCode[y].legCode) ==> perm[x] < perm[y])
  }

  ghost predicate InRouteOrder(legs: seq<CostLeg>, ends: LegEnds, ordered: seq<CostLeg>) {
    exists plan, layout, perm :: LegOrder.IsRouteOrder(LegOrder.EndsOf(legs, OriginIn(ends), DestinationIn(ends)), plan, layout, perm)
      && (forall i :: 0 <= i < |perm| ==> perm[i] < |legs|) && ordered == LegOrder.Pick(legs, perm)
  }

  /** The legs in route order, those that the route leaves open by leg code. */
  ghost predicate IsOrdered(legs: seq<CostLeg>, ends: LegEnds, collate: Collation, ordered: seq<CostLeg>) {
    if |legs| <= 1 then ordered == legs
    else exists byCode, perm :: InCodeOrder(legs, collate, byCode, perm) && InRouteOrder(byCode, ends, ordered)
  }

  /** The legs by code: Array.prototype.sort with localeCompare. */
  method SortByCode(legs: seq<CostLeg>, collate: Collation) returns (byCode: seq<CostLeg>, ghost perm: seq<nat>)
    ensures InCodeOrder(legs, collate, byCode, perm) && multiset(byCode) == multiset(legs)
  {
    var keys := CodeKeys(legs, collate);
    var order := Grouping.StableSort(keys);
    LegOrder.StableOrderIsPermutation(keys, order);
    LegOrder.PickIsPermutation(legs, order);
    byCode, perm := LegOrder.Pick(legs, order), order;
    forall x, y | 0 <= x < y < |order|
      ensures collate(byCode[x].legCode) <= collate(byCode[y].legCode)
      ensures collate(byCode[x].legCode) == collate(byCode[y].legCode) ==> order[x] < order[y]
    {
      assert Grouping.SortsBefore(keys, order[x], order[y]);
    }
  }

  /** orderLegs: the stored legs in route order; a leg with no row has no end points. */
  method OrderLegs(legs: seq<CostLeg>, ends: LegEnds, collate: Collation) returns (ordered: seq<CostLeg>)
    ensures multiset(ordered) == multiset(legs)
    ensures IsOrdered(legs, ends, collate, ordered)
  {
    if |legs| <= 1 {
      return legs;
    }
    ghost var codePerm;
    var byCode;
    byCode, codePerm := SortByCode(legs, collate);
    var perm;
    ghost var plan, layout;
    ordered, perm, plan, layout := LegOrder.OrderLegsByRoute(byCode, OriginIn(ends), DestinationIn(ends));
    assert InRouteOrder(byCode, ends, ordered);
  }

  // What a caller gets, read off the rows alone.

  /** Row id is there before and after, and every other row is as it was. */
  ghost predicate OnlyRowChanges(before: map<RowId, Row>, after: map<RowId, Row>, id: RowId) {
    && id in before && after.Keys == before.Keys && forall other :: other in before && other != id ==> after[other] == before[other]
  }

  /** issue may go through: the caller saw the latest row, a DRAFT with something to charge for. */
  ghost predicate MayIssue(rows: map<RowId, Row>, latest: Option<RowId>, expectedUpdatedAt: nat) {
    && latest.Some? && latest.value in rows && rows[latest.value].status == DRAFT
    && rows[latest.value].updatedAt == expectedUpdatedAt && |rows[latest.value].draft.legs| > 0
  }

  /** The row went out: its content stays, its legs are priced in their order, and its totals are those. */
  ghost predicate WentOut(before: Row, after: Row, ordered: seq<CostLeg>) {
    && after.status == ISSUED && after.version == before.version && after.marginPct == before.marginPct && after.draft == before.draft
    && after.issuedSnapshot == Some(PriceQuotation(ordered, before.marginPct, before.draft.overrides))
    && after.costTotalUsd == PriceQuotation(ordered, before.marginPct, before.draft.overrides).costTotalUsd
    && after.clientTotalUsd == PriceQuotation(ordered, before.marginPct, before.draft.overrides).clientTotalUsd
    && after.updatedAt > before.updatedAt
  }

  /** The row holds what the PATCH asked for, and whatever it did not mention as before. */
  ghost predicate HoldsPatch(before: Row, after: Row, body: PatchBody) {
    && after.status == DRAFT && after.version == before.version && after.draft.legs == before.draft.legs
    && (body.marginPct.Some? ==> after.marginPct == QuantizeMargin(body.marginPct.value))
    && (body.marginPct.None? ==> after.marginPct == QuantizeMargin(before.marginPct))
    && (body.overrides.Some? ==> after.draft.overrides == body.overrides.value)
    && (body.overrides.None? ==> after.draft.overrides == before.draft.overrides)
    && after.costTotalUsd == PriceQuotation(after.draft.legs, after.marginPct, after.draft.overrides).costTotalUsd
    && after.clientTotalUsd == PriceQuotation(after.draft.legs, after.marginPct, after.draft.overrides).clientTotalUsd
  }

  /** A fresh DRAFT at no margin, one version past the latest. */
  ghost predicate IsFirstDraft(before: map<RowId, Row>, latest: Option<RowId>, row: Row, built: Draft) {
    && row.status == DRAFT && row.marginPct == 0.0 && row.draft == built && row.issuedSnapshot.None?
    && row.version == (if latest.Some? && latest.value in before then before[latest.value].version + 1 else 1)
    && row.costTotalUsd == PriceQuotation(built.legs, 0.0, built.overrides).costTotalUsd
    && row.clientTotalUsd == PriceQuotation(built.legs, 0.0, built.overrides).clientTotalUsd
  }

  /** A fresh DRAFT with all that the issued row went out with, one version past it. */
  ghost predicate IsRevision(issued: Row, row: Row) {
    && row.status == DRAFT && row.version == issued.version + 1 && row.marginPct == issued.marginPct && row.draft == issued.draft
    && row.costTotalUsd == issued.costTotalUsd && row.clientTotalUsd == issued.clientTotalUsd && row.issuedSnapshot.None?
  }

  lemma ReadyToRevise(db: Db, id: RowId)
    requires DbOk(db) && IsLatestIssued(db.rows, Some(id)) && !HasDraft(db.rows)
    ensures AfterReviseIssued(db, Some(id)) == ReviseCreate(db.rows[id].version + 1, db.rows[id].marginPct, db.rows[id].draft)
    ensures DbOk(Created(db, db.rows[id].version + 1, db.rows[id].marginPct, db.rows[id].draft))
    ensures !HasVersion(db.rows, db.rows[id].version + 1)
  {
    RevisedOk(db, id);
    NextVersionIsFree(db.rows, id);
  }

  lemma ReviseAnswers(db: Db, latestIssued: RowId)
    requires DbOk(db) && IsLatestIssued(db.rows, Some(latestIssued)) && !HasDraft(db.rows)
    ensures AfterReviseIssued(db, Some(latestIssued)).ReviseCreate? && db.nextId !in db.rows
    ensures var pc := AfterReviseIssued(db, Some(latestIssued));
      var db' := Created(db, pc.version, pc.marginPct, pc.draft);
      && !HasVersion(db.rows, pc.version) && db'.rows == db.rows[db.nextId := db'.rows[db.nextId]]
      && IsRevision(db.rows[latestIssued], db'.rows[db.nextId])
  {
    NextVersionIsFree(db.rows, latestIssued);
    assert RowHere(db, latestIssued) && RowHere(db, db.nextId);
  }

  /** The rows of a reopened comparison: what had been issued is superseded as it stood, and the DRAFT
      is gone. */
  ghost predicate IsReopened(before: map<RowId, Row>, after: map<RowId, Row>) {
    forall id :: (id in after <==> id in before && before[id].status != DRAFT)
      && (id in after ==> after[id].status == SUPERSEDED && StaysFrozen(before[id], after[id]))
  }

  lemma ReopenAnswers(db: Db)
    requires DbOk(db)
    ensures IsReopened(db.rows, Reopened(db).rows) && !Reopened(db).awarded
  {
  }

  lemma GetAnswers(db: Db, latest: Option<RowId>, built: Draft)
    requires DbOk(db) && IsLatest(db.rows, latest) && !(latest.Some? && db.rows[latest.value].status != SUPERSEDED)
    ensures !IsLive(db, latest) && db.nextId !in db.rows
    ensures var db' := Created(db, AfterGetAgain(db, latest, built).version, 0.0, built);
      && db'.rows == db.rows[db.nextId := db'.rows[db.nextId]] && IsFirstDraft(db.rows, latest, db'.rows[db.nextId], built)
  {
    SoloGetSucceeds(db, built, latest);
    assert RowHere(db, db.nextId);
  }

  lemma PatchAnswers(db: Db, latest: Option<RowId>, body: PatchBody)
    requires DbOk(db) && IsLatest(db.rows, latest)
    ensures var pc := AfterPatchRead(db, latest, body);
      var db' := if pc.PatchWrite? then Patched(db, pc.id, pc.marginPct, pc.draft) else db;
      && (pc != Done(false) <==> latest.Some? && db.rows[latest.value].status == DRAFT)
      && (if pc != Done(false) then OnlyRowChanges(db.rows, db'.rows, latest.value) && HoldsPatch(db.rows[latest.value], db'.rows[latest.value], body)
          else db'.rows == db.rows)
  {
  }

  /** The read of a lone issue goes on exactly when the caller may issue, and then its write lands. */
  lemma IssueAnswers(db: Db, latest: Option<RowId>, expected: nat, ordered: seq<CostLeg>)
    requires DbOk(db) && IsLatest(db.rows, latest)
    ensures AfterIssueRead(db, latest, expected) != Done(false) <==> MayIssue(db.rows, latest, expected)
    ensures MayIssue(db.rows, latest, expected) ==>
      var pc := AfterIssueRead(db, latest, expected);
      && pc == IssueOrder(latest.value, expected, db.rows[latest.value].marginPct, db.rows[latest.value].draft)
      && IsDraftAt(db, pc.id, pc.stamp)
      && var db' := Issued(db, pc.id, pc.stamp, PriceQuotation(ordered, pc.marginPct, pc.draft.overrides));
      OnlyRowChanges(db.rows, db'.rows, latest.value) && WentOut(db.rows[latest.value], db'.rows[latest.value], ordered)
  {
    if latest.Some? {
      assert RowHere(db, latest.value);
    }
  }

  class Service {
    var rows: map<RowId, Row>
    var nextId: RowId
    var clock: nat
    var awarded: bool

    ghost function Table(): Db
      reads this
    {
      Db(rows, nextId, clock, awarded)
    }

    ghost predicate Valid()
      reads this
    {
      DbOk(Table())
    }

    constructor ()
      ensures Valid() && rows == map[] && !awarded
    {
      rows, nextId, clock, awarded := map[], 0, 0, false;
      new;
      assert VersionsExact(rows, 0);
    }

    /** The row with the highest version. */
    method LatestQuotation() returns (r: Option<RowId>)
      ensures IsLatest(rows, r)
    {
      r := None;
      var rest := rows.Keys;
      while rest != {}
        invariant rest <= rows.Keys
        invariant r.None? ==> rest == rows.Keys
        invariant r.Some? ==> r.value in rows && forall id :: id in rows && id !in rest ==> rows[id].version <= rows[r.value].version
        decreases rest
      {
        var id :| id in rest;
        rest := rest - {id};
        if r.None? || rows[id].version > rows[r.value].version {
          r := Some(id);
        }
      }
    }

    method LatestIssued() returns (r: Option<RowId>)
      ensures IsLatestIssued(rows, r)
    {
      r := None;
      var rest := rows.Keys;
      while rest != {}
        invariant rest <= rows.Keys
        invariant r.None? ==> forall id :: id in rows && id !in rest ==> rows[id].status != ISSUED
        invariant r.Some? ==> r.value in rows && rows[r.value].status == ISSUED
        invariant r.Some? ==> forall id :: id in rows && id !in rest && rows[id].status == ISSUED ==> rows[id].version <= rows[r.value].version
        decreases rest
      {
        var id :| id in rest;
        rest := rest - {id};
        if rows[id].status == ISSUED && (r.None? || rows[id].version > rows[r.value].version) {
          r := Some(id);
        }
      }
    }

    method FindDraft() returns (found: bool)
      ensures found == HasDraft(rows)
    {
      found := exists id :: id in rows && rows[id].status == DRAFT;
    }

    /** The insert; false is the unique key's refusal. */
    method Create(version: nat, marginPct: real, draft: Draft) returns (ok: bool)
      modifies this
      ensures Table() == Created(old(Table()), version, marginPct, draft) && ok == !HasVersion(old(rows), version)
    {
      ok := !(exists id :: id in rows && rows[id].version == version);
      if ok {
        rows := rows[nextId := NewRow(version, marginPct, draft, clock + 1)];
        nextId, clock := nextId + 1, clock + 1;
      }
    }

    /** One UPDATE of a row. */
    method Store(id: RowId, row: Row)
      modifies this
      ensures Table() == Written(old(Table()), id, row)
    {
      rows := rows[id := row];
      clock := clock + 1;
    }

    /** GET: the live row, or a new DRAFT priced at no margin. Refused until the award is frozen. */
    method FindOrCreate(built: Draft) returns (found: Option<RowId>, ghost latest: Option<RowId>)
      requires Valid()
      modifies this
      ensures Valid() && IsLatest(old(rows), latest)
      ensures found.Some? <==> old(awarded)
      ensures found.Some? ==> found.value in rows && rows[found.value].status != SUPERSEDED && IsLatest(rows, found)
      ensures Table() == if old(awarded) && !IsLive(old(Table()), latest)
        then Created(old(Table()), AfterGetAgain(old(Table()), latest, built).version, 0.0, built) else old(Table())
      ensures found.Some? ==> found == if IsLive(old(Table()), latest) then latest else Some(old(nextId))
    {
      found := None;
      var current := LatestQuotation();
      latest := current;
      if !awarded {
        return;
      }
      if current.Some? && rows[current.value].status != SUPERSEDED {
        return current, latest;
      }
      SoloGetSucceeds(Table(), built, current);
      var version := (if current.Some? then rows[current.value].version else 0) + 1;
      var id := nextId;
      var ok := Create(version, 0.0, built);
      found := Some(id);
    }

    method GetOrCreateDraft(built: Draft) returns (found: Option<RowId>, ghost latest: Option<RowId>)
      requires Valid()
      modifies this
      ensures Valid() && IsLatest(old(rows), latest)
      ensures found.Some? <==> old(awarded)
      ensures found.Some? ==> found.value in rows && rows[found.value].status != SUPERSEDED && IsLatest(rows, found)
      ensures found.None? ==> Table() == old(Table())
      ensures found.Some? && latest.Some? && old(rows)[latest.value].status != SUPERSEDED ==> found == latest && Table() == old(Table())
      ensures found.Some? && !(latest.Some? && old(rows)[latest.value].status != SUPERSEDED) ==>
        found.value !in old(rows) && rows == old(rows)[found.value := rows[found.value]]
        && IsFirstDraft(old(rows), latest, rows[found.value], built)
      ensures RunsAs(old(Table()), GetAward, Table(), found.Some?)
    {
      found, latest := FindOrCreate(built);
      GetRunsAlone(old(Table()), latest, built);
      if found.Some? && !(latest.Some? && old(rows)[latest.value].status != SUPERSEDED) {
        GetAnswers(old(Table()), latest, built);
      }
    }

    /** Writes a new margin and draft over the DRAFT, and what they price at. */
    method StorePatched(id: RowId, marginPct: real, draft: Draft, priced: Priced)
      requires Valid() && IsDraftRow(Table(), id) && priced == Price(draft, marginPct)
      modifies this
      ensures Valid() && Table() == Patched(old(Table()), id, marginPct, draft)
    {
      PatchedOk(Table(), id, marginPct, draft);
      Store(id, rows[id].(marginPct := marginPct, draft := draft, costTotalUsd := priced.costTotalUsd,
                          clientTotalUsd := priced.clientTotalUsd, updatedAt := clock + 1));
    }

    /** PATCH: reprices the DRAFT, or writes nothing at all when nothing would change. */
    method Reprice(body: PatchBody) returns (ok: bool, ghost latest: Option<RowId>)
      requires Valid()
      modifies this
      ensures Valid() && IsLatest(old(rows), latest)
      ensures var pc := AfterPatchRead(old(Table()), latest, body);
        && ok == (pc != Done(false))
        && Table() == if pc.PatchWrite? then Patched(old(Table()), pc.id, pc.marginPct, pc.draft) else old(Table())
    {
      var current := LatestQuotation();
      latest := current;
      if current.None? {
        return false, latest;
      }
      var row := rows[current.value];
      if row.status != DRAFT {
        return false, latest;
      }
      var marginPct := QuantizeMargin(body.marginPct.UnwrapOr(row.marginPct));
      var overrides := body.overrides.UnwrapOr(row.draft.overrides);
      var nextDraft := Draft(row.draft.legs, overrides);
      var priced := PriceQuotation(nextDraft.legs, marginPct, overrides);
      ok := true;
      if row.marginPct == marginPct && row.costTotalUsd == priced.costTotalUsd && row.clientTotalUsd == priced.clientTotalUsd && row.draft == nextDraft {
        return;
      }
      StorePatched(current.value, marginPct, nextDraft, priced);
    }

    method Patch(body: PatchBody) returns (ok: bool, ghost latest: Option<RowId>)
      requires Valid()
      modifies this
      ensures Valid() && IsLatest(old(rows), latest)
      ensures var pc := AfterPatchRead(old(Table()), latest, body);
        Table() == if pc.PatchWrite? then Patched(old(Table()), pc.id, pc.marginPct, pc.draft) else old(Table())
      ensures ok <==> latest.Some? && old(rows)[latest.value].status == DRAFT
      ensures if ok then OnlyRowChanges(old(rows), rows, latest.value) && HoldsPatch(old(rows)[latest.value], rows[latest.value], body)
              else rows == old(rows)
      ensures RunsAs(old(Table()), PatchRead(body), Table(), ok)
    {
      ok, latest := Reprice(body);
      PatchRunsAlone(old(Table()), latest, body);
      PatchAnswers(old(Table()), latest, body);
    }

    /** Prices the DRAFT over its legs, in the order given, and freezes it. */
    method Freeze(id: RowId, legs: seq<CostLeg>)
      requires Valid() && IsDraftRow(Table(), id) && multiset(legs) == multiset(rows[id].draft.legs)
      modifies this
      ensures Valid()
      ensures var row := old(rows)[id];
        Table() == Issued(old(Table()), id, row.updatedAt, PriceQuotation(legs, row.marginPct, row.draft.overrides))
    {
      var row := rows[id];
      var priced := PriceQuotation(legs, row.marginPct, row.draft.overrides);
      IssuedOk(Table(), id, row.updatedAt, legs, priced);
      Store(id, row.(status := ISSUED, issuedSnapshot := Some(priced), costTotalUsd := priced.costTotalUsd,
                     clientTotalUsd := priced.clientTotalUsd, updatedAt := clock + 1));
    }

    /** issue: freezes the DRAFT the caller saw, priced in route order. */
    method OrderAndFreeze(expectedUpdatedAt: nat, ends: LegEnds, collate: Collation)
      returns (ok: bool, ghost latest: Option<RowId>, ghost ordered: seq<CostLeg>)
      requires Valid()
      modifies this
      ensures Valid() && IsLatest(old(rows), latest)
      ensures ok <==> MayIssue(old(rows), latest, expectedUpdatedAt)
      ensures if ok then
                && OnlyRowChanges(old(rows), rows, latest.value) && WentOut(old(rows)[latest.value], rows[latest.value], ordered)
                && IsOrdered(old(rows)[latest.value].draft.legs, ends, collate, ordered)
                && multiset(ordered) == multiset(old(rows)[latest.value].draft.legs)
                && Table() == Issued(old(Table()), latest.value, expectedUpdatedAt,
                                     PriceQuotation(ordered, old(rows)[latest.value].marginPct, old(rows)[latest.value].draft.overrides))
              else Table() == old(Table())
    {
      var current := LatestQuotation();
      latest, ordered, ok := current, [], false;
      if current.None? {
        return;
      }
      var row := rows[current.value];
      if row.status != DRAFT || row.updatedAt != expectedUpdatedAt || row.draft.legs == [] {
        return;
      }
      var legs := OrderLegs(row.draft.legs, ends, collate);
      ordered := legs;
      Freeze(current.value, legs);
      IssueAnswers(old(Table()), latest, expectedUpdatedAt, ordered);
      ok := true;
    }

    method Issue(expectedUpdatedAt: nat, ends: LegEnds, collate: Collation)
      returns (ok: bool, ghost latest: Option<RowId>, ghost ordered: seq<CostLeg>)
      requires Valid()
      modifies this
      ensures Valid() && IsLatest(old(rows), latest)
      ensures ok <==> MayIssue(old(rows), latest, expectedUpdatedAt)
      ensures if ok then
                && OnlyRowChanges(old(rows), rows, latest.value) && WentOut(old(rows)[latest.value], rows[latest.value], ordered)
                && IsOrdered(old(rows)[latest.value].draft.legs, ends, collate, ordered)
                && multiset(ordered) == multiset(old(rows)[latest.value].draft.legs)
              else Table() == old(Table())
      ensures RunsAs(old(Table()), IssueRead(expectedUpdatedAt), Table(), ok)
    {
      ok, latest, ordered := OrderAndFreeze(expectedUpdatedAt, ends, collate);
      IssueAnswers(old(Table()), latest, expectedUpdatedAt, ordered);
      IssueRunsAlone(old(Table()), latest, expectedUpdatedAt, ordered);
    }

    /** revise: a new DRAFT carrying the latest issued margin, lines and overrides. */
    method CopyIssued() returns (ok: bool, ghost latestIssued: Option<RowId>)
      requires Valid()
      modifies this
      ensures Valid() && IsLatestIssued(old(rows), latestIssued)
      ensures ok <==> !HasDraft(old(rows)) && latestIssued.Some?
      ensures var pc := AfterReviseIssued(old(Table()), latestIssued);
        Table() == if ok then Created(old(Table()), pc.version, pc.marginPct, pc.draft) else old(Table())
    {
      var issued := LatestIssued();
      latestIssued, ok := issued, false;
      var drafted := FindDraft();
      if drafted || issued.None? {
        return;
      }
      var row := rows[issued.value];
      ReadyToRevise(Table(), issued.value);
      ok := Create(row.version + 1, row.marginPct, row.draft);
    }

    method Revise() returns (ok: bool, ghost latestIssued: Option<RowId>)
      requires Valid()
      modifies this
      ensures Valid() && IsLatestIssued(old(rows), latestIssued)
      ensures ok <==> (forall id :: id in old(rows) ==> old(rows)[id].status != DRAFT) && exists id :: id in old(rows) && old(rows)[id].status == ISSUED
      ensures if ok then
                && latestIssued.Some? && old(nextId) !in old(rows) && old(nextId) in rows && rows == old(rows)[old(nextId) := rows[old(nextId)]]
                && IsRevision(old(rows)[latestIssued.value], rows[old(nextId)])
              else Table() == old(Table())
      ensures RunsAs(old(Table()), ReviseDraft, Table(), ok)
    {
      ok, latestIssued := CopyIssued();
      ReviseRunsAlone(old(Table()), latestIssued);
      if ok {
        ReviseAnswers(old(Table()), latestIssued.value);
      }
    }

    /** The transaction of reopenComparison on the quotation rows and the award. */
    method SupersedeAndDiscard()
      modifies this
      ensures Table() == Reopened(old(Table()))
    {
      rows := map id | id in rows && rows[id].status != DRAFT :: Superseded(rows[id], clock + 1);
      clock, awarded := clock + 1, false;
    }

    /** reopenComparison, as far as the quotation rows go. */
    method ReopenComparison() returns (ok: bool)
      requires Valid()
      modifies this
      ensures Valid() && ok == old(awarded)
      ensures Table() == if ok then Reopened(old(Table())) else old(Table())
      ensures ok ==> IsReopened(old(rows), rows) && !awarded
      ensures RunsAs(old(Table()), ReopenRead, Table(), ok)
    {
      ok := awarded;
      ReopenRunsAlone(Table());
      if ok {
        ReopenedOk(Table());
        ReopenAnswers(Table());
        SupersedeAndDiscard();
      }
    }
  }
}
