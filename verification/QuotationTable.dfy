/** apps/api/src/modules/quotation/quotation.service.ts: the quotation rows of one query and the
    single statements and transactions that change them. */
module QuotationTable {
  import opened Wrappers
  import opened QuotationPricing

  datatype Status = DRAFT | ISSUED | SUPERSEDED

  /** The priced legs and the overrides, as stored. */
  datatype Draft = Draft(legs: seq<CostLeg>, overrides: Overrides)

  datatype Row = Row(version: nat, status: Status, marginPct: real, draft: Draft, costTotalUsd: real, clientTotalUsd: real,
                     issuedSnapshot: Option<Priced>, updatedAt: nat)

  type RowId = nat

  /** The rows by id, the next unused id, the last stamp given out, and whether the award is frozen. */
  datatype Db = Db(rows: map<RowId, Row>, nextId: RowId, clock: nat, awarded: bool)

  function Price(draft: Draft, marginPct: real): Priced {
    PriceQuotation(draft.legs, marginPct, draft.overrides)
  }

  /** latestQuotation: the row with the highest version, if there is any row. */
  ghost predicate IsLatest(rows: map<RowId, Row>, r: Option<RowId>) {
    match r
    case None => rows == map[]
    case Some(id) => id in rows && forall other :: other in rows ==> rows[other].version <= rows[id].version
  }

  ghost predicate IsLatestIssued(rows: map<RowId, Row>, r: Option<RowId>) {
    match r
    case None => forall id :: id in rows ==> rows[id].status != ISSUED
    case Some(id) =>
      && id in rows && rows[id].status == ISSUED
      && forall other :: other in rows && rows[other].status == ISSUED ==> rows[other].version <= rows[id].version
  }

  ghost predicate HasVersion(rows: map<RowId, Row>, version: nat) {
    exists id :: id in rows && rows[id].version == version
  }

  ghost predicate HasDraft(rows: map<RowId, Row>) {
    exists id :: id in rows && rows[id].status == DRAFT
  }

  function NewRow(version: nat, marginPct: real, draft: Draft, stamp: nat): Row {
    Row(version, DRAFT, marginPct, draft, Price(draft, marginPct).costTotalUsd, Price(draft, marginPct).clientTotalUsd, None, stamp)
  }

  /** quotation.create: the unique key on (query, version) refuses a version that exists. */
  ghost function Created(db: Db, version: nat, marginPct: real, draft: Draft): Db {
    if HasVersion(db.rows, version) then db
    else db.(rows := db.rows[db.nextId := NewRow(version, marginPct, draft, db.clock + 1)], nextId := db.nextId + 1, clock := db.clock + 1)
  }

  predicate IsDraftRow(db: Db, id: RowId) {
    id in db.rows && db.rows[id].status == DRAFT
  }

  /** One row rewritten by an UPDATE. */
  function Written(db: Db, id: RowId, row: Row): Db {
    db.(rows := db.rows[id := row], clock := db.clock + 1)
  }

  /** The UPDATE of patch: only while the row is a DRAFT. */
  function Patched(db: Db, id: RowId, marginPct: real, draft: Draft): Db {
    if !IsDraftRow(db, id) then db
    else
      var row := db.rows[id].(marginPct := marginPct, draft := draft, costTotalUsd := Price(draft, marginPct).costTotalUsd,
                              clientTotalUsd := Price(draft, marginPct).clientTotalUsd, updatedAt := db.clock + 1);
      Written(db, id, row)
  }

  predicate IsDraftAt(db: Db, id: RowId, stamp: nat) {
    IsDraftRow(db, id) && db.rows[id].updatedAt == stamp
  }

  function IssuedRow(row: Row, priced: Priced, stamp: nat): Row {
    row.(status := ISSUED, issuedSnapshot := Some(priced), costTotalUsd := priced.costTotalUsd,
         clientTotalUsd := priced.clientTotalUsd, updatedAt := stamp)
  }

  /** The UPDATE of issue: only while the row is a DRAFT with the expected stamp. */
  function Issued(db: Db, id: RowId, stamp: nat, priced: Priced): Db {
    if !IsDraftAt(db, id, stamp) then db
    else Written(db, id, IssuedRow(db.rows[id], priced, db.clock + 1))
  }

  function Superseded(row: Row, stamp: nat): Row {
    if row.status == ISSUED then row.(status := SUPERSEDED, updatedAt := stamp) else row
  }

  /** The transaction of reopenComparison: clears the award, supersedes every ISSUED row and deletes
      the DRAFT. */
  function Reopened(db: Db): Db {
    db.(rows := map id | id in db.rows && db.rows[id].status != DRAFT :: Superseded(db.rows[id], db.clock + 1),
        clock := db.clock + 1, awarded := false)
  }

  /** The transaction of generateClientQuote that freezes the award. */
  function Generated(db: Db): Db {
    db.(awarded := true)
  }

  // What every table looks like.

  /** The versions are exactly 1..n, each once, and only version n may be a DRAFT. */
  ghost predicate VersionsExact(rows: map<RowId, Row>, n: nat) {
    && (forall i, j :: i in rows && j in rows && rows[i].version == rows[j].version ==> i == j)
    && (forall id :: id in rows ==> 1 <= rows[id].version <= n)
    && (forall v: nat :: 1 <= v <= n ==> HasVersion(rows, v))
    && (forall id :: id in rows && rows[id].status == DRAFT ==> rows[id].version == n)
  }

  /** legs in some order, priced as the row is. */
  ghost predicate PricedAs(priced: Priced, draft: Draft, marginPct: real) {
    exists legs :: multiset(legs) == multiset(draft.legs) && priced == PriceQuotation(legs, marginPct, draft.overrides)
  }

  /** The stored totals are the price of the stored draft, and a row that left DRAFT carries the priced
      lines it went out with. */
  ghost predicate RowOk(row: Row) {
    && row.costTotalUsd == Price(row.draft, row.marginPct).costTotalUsd
    && row.clientTotalUsd == Price(row.draft, row.marginPct).clientTotalUsd
    && (row.status == DRAFT <==> row.issuedSnapshot.None?)
    && (row.issuedSnapshot.Some? ==> PricedAs(row.issuedSnapshot.value, row.draft, row.marginPct))
  }

  ghost predicate RowHere(db: Db, id: RowId) {
    id in db.rows ==> RowOk(db.rows[id]) && db.rows[id].updatedAt <= db.clock && id < db.nextId
  }

  /** What a reopening superseded came before everything that has not been. */
  ghost predicate SupersededFirst(rows: map<RowId, Row>) {
    forall i, j :: i in rows && j in rows && rows[i].status == SUPERSEDED && rows[j].status != SUPERSEDED ==> rows[i].version < rows[j].version
  }

  ghost predicate DbOk(db: Db) {
    && (exists n :: VersionsExact(db.rows, n)) && SupersededFirst(db.rows)
    && (forall id {:trigger RowHere(db, id)} :: RowHere(db, id))
  }

  // How a table may change.

  /** A row that is no longer a DRAFT keeps everything but its status, which may become SUPERSEDED. */
  ghost predicate StaysFrozen(row: Row, row': Row) {
    && row'.version == row.version && row'.marginPct == row.marginPct && row'.draft == row.draft
    && row'.costTotalUsd == row.costTotalUsd && row'.clientTotalUsd == row.clientTotalUsd
    && row'.issuedSnapshot == row.issuedSnapshot
    && (row'.status == row.status || (row.status == ISSUED && row'.status == SUPERSEDED))
  }

  ghost predicate FrozenAt(db: Db, db': Db, id: RowId) {
    id in db.rows && db.rows[id].status != DRAFT ==> id in db'.rows && StaysFrozen(db.rows[id], db'.rows[id])
  }

  /** A row that was there and changed carries a stamp newer than the whole old table. */
  ghost predicate StampedAt(db: Db, db': Db, id: RowId) {
    id in db'.rows && id < db.nextId ==> id in db.rows && (db'.rows[id] == db.rows[id] || db'.rows[id].updatedAt > db.clock)
  }

  /** From db the table can get to db': frozen rows stay, and a row that changed carries a newer stamp. */
  ghost predicate Evolves(db: Db, db': Db) {
    && db.clock <= db'.clock && db.nextId <= db'.nextId
    && (forall id {:trigger FrozenAt(db, db', id)} :: FrozenAt(db, db', id))
    && (forall id {:trigger StampedAt(db, db', id)} :: StampedAt(db, db', id))
  }

  lemma EvolvesToItself(db: Db)
    requires DbOk(db)
    ensures Evolves(db, db)
  {
    forall id
      ensures StampedAt(db, db, id)
    {
    }
  }

  lemma EvolvesTransitively(a: Db, b: Db, c: Db)
    requires Evolves(a, b) && Evolves(b, c)
    ensures Evolves(a, c)
  {
    forall id
      ensures FrozenAt(a, c, id) && StampedAt(a, c, id)
    {
      assert FrozenAt(a, b, id) && FrozenAt(b, c, id);
      assert StampedAt(a, b, id) && StampedAt(b, c, id);
    }
  }

  /** A version that is settled: there, and not a DRAFT. */
  ghost predicate Settled(rows: map<RowId, Row>, version: nat) {
    exists id :: id in rows && rows[id].version == version && rows[id].status != DRAFT
  }

  lemma SettledStays(db: Db, db': Db, version: nat)
    requires Evolves(db, db') && Settled(db.rows, version)
    ensures Settled(db'.rows, version)
  {
    var id :| id in db.rows && db.rows[id].version == version && db.rows[id].status != DRAFT;
    assert FrozenAt(db, db', id);
  }

  lemma NewRowOk(version: nat, marginPct: real, draft: Draft, stamp: nat)
    ensures RowOk(NewRow(version, marginPct, draft, stamp))
  {
  }

  lemma CreatedVersions(rows: map<RowId, Row>, n: nat, id: RowId, row: Row)
    requires VersionsExact(rows, n) && id !in rows && row.status == DRAFT && row.version == n + 1
    requires forall other :: other in rows && rows[other].version == n ==> rows[other].status != DRAFT
    ensures VersionsExact(rows[id := row], n + 1)
  {
    var rows' := rows[id := row];
    forall v: nat | 1 <= v <= n + 1
      ensures HasVersion(rows', v)
    {
      if v <= n {
        assert HasVersion(rows, v);
        var other :| other in rows && rows[other].version == v;
        assert other in rows' && rows'[other].version == v;
      } else {
        assert id in rows' && rows'[id].version == v;
      }
    }
  }

  /** A version past a settled one, or 1, can only be the next one. */
  lemma OnlyNextVersion(rows: map<RowId, Row>, n: nat, version: nat)
    requires VersionsExact(rows, n) && version >= 1 && (version == 1 || Settled(rows, version - 1)) && !HasVersion(rows, version)
    ensures version == n + 1
    ensures forall id :: id in rows && rows[id].version == n ==> rows[id].status != DRAFT
  {
    if version > 1 {
      var id :| id in rows && rows[id].version == version - 1 && rows[id].status != DRAFT;
      assert version - 1 <= n;
    }
  }

  /** Creating a row past a settled version keeps the table in order. */
  lemma CreatedOk(db: Db, version: nat, marginPct: real, draft: Draft)
    requires DbOk(db) && version >= 1 && (version == 1 || Settled(db.rows, version - 1))
    ensures DbOk(Created(db, version, marginPct, draft)) && Evolves(db, Created(db, version, marginPct, draft))
  {
    if HasVersion(db.rows, version) {
      EvolvesToItself(db);
    } else {
      var n :| VersionsExact(db.rows, n);
      OnlyNextVersion(db.rows, n, version);
      var row := NewRow(version, marginPct, draft, db.clock + 1);
      NewRowOk(version, marginPct, draft, db.clock + 1);
      assert RowHere(db, db.nextId);
      CreatedVersions(db.rows, n, db.nextId, row);
      CreatedSuperseded(db.rows, n, db.nextId, row);
      OneRowChanges(db, db.nextId, row, db.nextId + 1);
    }
  }

  /** What one written row does to the table: nothing to the others. */
  lemma OneRowChanges(db: Db, id: RowId, row: Row, nextId: RowId)
    requires DbOk(db) && id < nextId && db.nextId <= nextId && (id in db.rows || id == db.nextId)
    requires id in db.rows ==> db.rows[id].status == DRAFT
    requires RowOk(row) && row.updatedAt == db.clock + 1
    ensures var db' := db.(rows := db.rows[id := row], nextId := nextId, clock := db.clock + 1);
      Evolves(db, db') && forall other {:trigger RowHere(db', other)} :: RowHere(db', other)
  {
    var db' := db.(rows := db.rows[id := row], nextId := nextId, clock := db.clock + 1);
    forall other
      ensures RowHere(db', other) && FrozenAt(db, db', other) && StampedAt(db, db', other)
    {
      assert RowHere(db, other);
    }
  }

  /** Rewriting a row in place, with the same version, keeps the versions. */
  lemma UpdatedVersions(rows: map<RowId, Row>, n: nat, id: RowId, row: Row)
    requires VersionsExact(rows, n) && id in rows && row.version == rows[id].version
    requires row.status == DRAFT ==> rows[id].status == DRAFT
    ensures VersionsExact(rows[id := row], n)
  {
    var rows' := rows[id := row];
    forall v: nat | 1 <= v <= n
      ensures HasVersion(rows', v)
    {
      assert HasVersion(rows, v);
      var other :| other in rows && rows[other].version == v;
      assert other in rows' && rows'[other].version == v;
    }
  }

  lemma WrittenSuperseded(rows: map<RowId, Row>, id: RowId, row: Row)
    requires SupersededFirst(rows) && id in rows && rows[id].status == DRAFT && row.status != SUPERSEDED && row.version == rows[id].version
    ensures SupersededFirst(rows[id := row])
  {
  }

  lemma WrittenVersions(db: Db, id: RowId, row: Row)
    requires DbOk(db) && IsDraftRow(db, id) && row.version == db.rows[id].version && row.status != SUPERSEDED
    ensures var rows := db.rows[id := row]; (exists n :: VersionsExact(rows, n)) && SupersededFirst(rows)
  {
    var n :| VersionsExact(db.rows, n);
    UpdatedVersions(db.rows, n, id, row);
    WrittenSuperseded(db.rows, id, row);
  }

  lemma CreatedSuperseded(rows: map<RowId, Row>, n: nat, id: RowId, row: Row)
    requires SupersededFirst(rows) && VersionsExact(rows, n) && id !in rows && row.status == DRAFT && row.version == n + 1
    ensures SupersededFirst(rows[id := row])
  {
  }

  /** Writing a good row over a DRAFT of the same version keeps the table in order. */
  lemma WrittenOk(db: Db, id: RowId, row: Row)
    requires DbOk(db) && IsDraftRow(db, id) && RowOk(row)
    requires row.version == db.rows[id].version && row.updatedAt == db.clock + 1 && row.status != SUPERSEDED
    ensures DbOk(Written(db, id, row)) && Evolves(db, Written(db, id, row))
  {
    assert RowHere(db, id);
    WrittenVersions(db, id, row);
    OneRowChanges(db, id, row, db.nextId);
    assert Written(db, id, row) == db.(rows := db.rows[id := row], nextId := db.nextId, clock := db.clock + 1);
  }

  lemma PatchedOk(db: Db, id: RowId, marginPct: real, draft: Draft)
    requires DbOk(db)
    ensures DbOk(Patched(db, id, marginPct, draft)) && Evolves(db, Patched(db, id, marginPct, draft))
  {
    if !IsDraftRow(db, id) {
      EvolvesToItself(db);
    } else {
      assert RowHere(db, id);
      WrittenOk(db, id, Patched(db, id, marginPct, draft).rows[id]);
    }
  }

  lemma IssuedRowOk(row: Row, legs: seq<CostLeg>, stamp: nat)
    requires RowOk(row) && row.status == DRAFT && multiset(legs) == multiset(row.draft.legs)
    ensures RowOk(IssuedRow(row, PriceQuotation(legs, row.marginPct, row.draft.overrides), stamp))
  {
    TotalsIgnoreLegOrder(legs, row.draft.legs, row.marginPct, row.draft.overrides);
    assert PricedAs(PriceQuotation(legs, row.marginPct, row.draft.overrides), row.draft, row.marginPct);
  }

  /** Issuing at a price of the row's own draft, in any order of its legs. */
  lemma IssuedOk(db: Db, id: RowId, stamp: nat, legs: seq<CostLeg>, priced: Priced)
    requires DbOk(db)
    requires IsDraftAt(db, id, stamp) ==> multiset(legs) == multiset(db.rows[id].draft.legs)
    requires IsDraftAt(db, id, stamp) ==> priced == PriceQuotation(legs, db.rows[id].marginPct, db.rows[id].draft.overrides)
    ensures DbOk(Issued(db, id, stamp, priced)) && Evolves(db, Issued(db, id, stamp, priced))
  {
    if !IsDraftAt(db, id, stamp) {
      EvolvesToItself(db);
    } else {
      PricedIssueOk(db, id, legs);
    }
  }

  lemma PricedIssueOk(db: Db, id: RowId, legs: seq<CostLeg>)
    requires DbOk(db) && IsDraftRow(db, id) && multiset(legs) == multiset(db.rows[id].draft.legs)
    ensures var row := IssuedRow(db.rows[id], PriceQuotation(legs, db.rows[id].marginPct, db.rows[id].draft.overrides), db.clock + 1);
      DbOk(Written(db, id, row)) && Evolves(db, Written(db, id, row))
  {
    assert RowHere(db, id);
    IssuedRowOk(db.rows[id], legs, db.clock + 1);
    WrittenOk(db, id, IssuedRow(db.rows[id], PriceQuotation(legs, db.rows[id].marginPct, db.rows[id].draft.overrides), db.clock + 1));
  }

  lemma ReopenedVersions(db: Db, n: nat)
    requires VersionsExact(db.rows, n)
    ensures VersionsExact(Reopened(db).rows, if HasDraft(db.rows) then n - 1 else n)
  {
    var m := if HasDraft(db.rows) then n - 1 else n;
    forall v: nat | 1 <= v <= m
      ensures HasVersion(Reopened(db).rows, v)
    {
      ReopenedKeepsVersion(db, n, v);
    }
  }

  lemma ReopenedKeepsVersion(db: Db, n: nat, v: nat)
    requires VersionsExact(db.rows, n) && 1 <= v <= (if HasDraft(db.rows) then n - 1 else n)
    ensures HasVersion(Reopened(db).rows, v)
  {
    assert HasVersion(db.rows, v);
    var id :| id in db.rows && db.rows[id].version == v;
    assert id in Reopened(db).rows && Reopened(db).rows[id].version == v;
  }

  lemma ReopenedRows(db: Db)
    ensures forall id :: id in Reopened(db).rows ==> Reopened(db).rows[id].status == SUPERSEDED
    ensures SupersededFirst(Reopened(db).rows)
  {
  }

  lemma ReopenedFrame(db: Db, id: RowId)
    requires RowHere(db, id)
    ensures RowHere(Reopened(db), id) && FrozenAt(db, Reopened(db), id) && StampedAt(db, Reopened(db), id)
  {
  }

  lemma ReopenedOk(db: Db)
    requires DbOk(db)
    ensures DbOk(Reopened(db)) && Evolves(db, Reopened(db))
    ensures forall id :: id in Reopened(db).rows ==> Reopened(db).rows[id].status == SUPERSEDED
  {
    var n :| VersionsExact(db.rows, n);
    ReopenedVersions(db, n);
    ReopenedRows(db);
    forall id
      ensures RowHere(Reopened(db), id) && FrozenAt(db, Reopened(db), id) && StampedAt(db, Reopened(db), id)
    {
      assert RowHere(db, id);
      ReopenedFrame(db, id);
    }
  }
}
