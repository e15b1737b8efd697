/** apps/api/src/modules/quotation/quotation.service.ts and award.service.ts reopenComparison: any
    number of concurrent GET, PATCH, issue, revise and reopen calls on one query. Every read outside a
    transaction is a step of its own; every single write and every transaction is one atomic step. */
module QuotationProtocol {
  import opened Wrappers
  import opened Money
  import opened QuotationPricing
  import opened QuotationTable

  /** A PATCH body: either part may be absent. */
  datatype PatchBody = PatchBody(marginPct: Option<real>, overrides: Option<Overrides>)

  /** Rounds a margin to the scale of the column, half away from zero. */
  function QuantizeMargin(m: real): real {
    if m >= 0.0 then Round2(m) else -Round2(-m)
  }

  /** Where a call is between two of its steps, with what it has read so far. */
  datatype Pc =
    | GetAward                                             // before reading whether the award is frozen
    | GetLatest                                            // before the first read of the latest row
    | GetBuild                                             // no live row seen; before building the draft
    | GetAgain(draft: Draft)                               // before the re-read
    | GetCreate(draft: Draft, version: nat)                // before the insert
    | PatchRead(body: PatchBody)
    | PatchWrite(id: RowId, marginPct: real, draft: Draft, readStamp: nat)
    | IssueRead(expected: nat)
    | IssueOrder(id: RowId, stamp: nat, marginPct: real, draft: Draft)
    | IssueWrite(id: RowId, stamp: nat, marginPct: real, draft: Draft, ordered: seq<CostLeg>)
    | ReviseDraft                                          // before looking for a DRAFT
    | ReviseIssued                                         // before looking for the latest ISSUED row
    | ReviseCreate(version: nat, marginPct: real, draft: Draft)
    | ReopenRead
    | ReopenWrite
    | Done(ok: bool)

  /** Where a call of each kind starts. */
  predicate Initial(pc: Pc) {
    pc.GetAward? || pc.PatchRead? || pc.IssueRead? || pc.ReviseDraft? || pc.ReopenRead?
  }

  predicate IsLive(db: Db, r: Option<RowId>)
    requires r.Some? ==> r.value in db.rows
  {
    r.Some? && db.rows[r.value].status != SUPERSEDED
  }

  /** The margin and draft a PATCH would store over a row. */
  function PatchedMargin(row: Row, body: PatchBody): real {
    QuantizeMargin(body.marginPct.UnwrapOr(row.marginPct))
  }

  function PatchedDraft(row: Row, body: PatchBody): Draft {
    Draft(row.draft.legs, body.overrides.UnwrapOr(row.draft.overrides))
  }

  /** Storing this margin and draft over the row would change none of the four columns. */
  predicate SameContent(row: Row, marginPct: real, draft: Draft) {
    && row.marginPct == marginPct && row.draft == draft
    && row.costTotalUsd == Price(draft, marginPct).costTotalUsd
    && row.clientTotalUsd == Price(draft, marginPct).clientTotalUsd
  }

  // What each read leads to, given the row it found.

  function AfterGetLatest(db: Db, r: Option<RowId>): Pc
    requires r.Some? ==> r.value in db.rows
  {
    if IsLive(db, r) then Done(true) else GetBuild
  }

  function AfterGetAgain(db: Db, r: Option<RowId>, draft: Draft): Pc
    requires r.Some? ==> r.value in db.rows
  {
    if IsLive(db, r) then Done(true)
    else GetCreate(draft, (if r.Some? then db.rows[r.value].version else 0) + 1)
  }

  function AfterPatchRead(db: Db, r: Option<RowId>, body: PatchBody): Pc
    requires r.Some? ==> r.value in db.rows
  {
    if r.None? then Done(false)
    else
      var row := db.rows[r.value];
      if row.status != DRAFT then Done(false)
      else if SameContent(row, PatchedMargin(row, body), PatchedDraft(row, body)) then Done(true)
      else PatchWrite(r.value, PatchedMargin(row, body), PatchedDraft(row, body), row.updatedAt)
  }

  function AfterIssueRead(db: Db, r: Option<RowId>, expected: nat): Pc
    requires r.Some? ==> r.value in db.rows
  {
    if r.None? then Done(false)
    else
      var row := db.rows[r.value];
      if row.status != DRAFT || row.updatedAt != expected || row.draft.legs == [] then Done(false)
      else IssueOrder(r.value, row.updatedAt, row.marginPct, row.draft)
  }

  function AfterReviseIssued(db: Db, r: Option<RowId>): Pc
    requires r.Some? ==> r.value in db.rows
  {
    if r.None? then Done(false)
    else
      var row := db.rows[r.value];
      ReviseCreate(row.version + 1, row.marginPct, row.draft)
  }

  /** One atomic step of a call from pc to pc'. */
  ghost predicate CallStep(db: Db, pc: Pc, db': Db, pc': Pc) {
    match pc
    case GetAward => db' == db && pc' == (if db.awarded then GetLatest else Done(false))
    case GetLatest => db' == db && exists r :: IsLatest(db.rows, r) && pc' == AfterGetLatest(db, r)
    case GetBuild => db' == db && (pc'.GetAgain? || pc' == Done(false))
    case GetAgain(draft) => db' == db && exists r :: IsLatest(db.rows, r) && pc' == AfterGetAgain(db, r, draft)
    case GetCreate(draft, version) =>
      db' == Created(db, version, 0.0, draft) && pc' == Done(!HasVersion(db.rows, version))
    case PatchRead(body) => db' == db && exists r :: IsLatest(db.rows, r) && pc' == AfterPatchRead(db, r, body)
    case PatchWrite(id, marginPct, draft, _) =>
      db' == Patched(db, id, marginPct, draft) && pc' == Done(IsDraftRow(db, id))
    case IssueRead(expected) => db' == db && exists r :: IsLatest(db.rows, r) && pc' == AfterIssueRead(db, r, expected)
    case IssueOrder(id, stamp, marginPct, draft) =>
      db' == db && (pc' == Done(false) || exists legs :: multiset(legs) == multiset(draft.legs) && pc' == IssueWrite(id, stamp, marginPct, draft, legs))
    case IssueWrite(id, stamp, marginPct, draft, ordered) =>
      db' == Issued(db, id, stamp, PriceQuotation(ordered, marginPct, draft.overrides)) && pc' == Done(IsDraftAt(db, id, stamp))
    case ReviseDraft => db' == db && pc' == (if HasDraft(db.rows) then Done(false) else ReviseIssued)
    case ReviseIssued => db' == db && exists r :: IsLatestIssued(db.rows, r) && pc' == AfterReviseIssued(db, r)
    case ReviseCreate(version, marginPct, draft) =>
      db' == Created(db, version, marginPct, draft) && pc' == Done(!HasVersion(db.rows, version))
    case ReopenRead => db' == db && pc' == (if db.awarded then ReopenWrite else Done(false))
    case ReopenWrite => db' == Reopened(db) && pc' == Done(true)
    case Done(_) => false
  }

  type Caller = nat

  /** The table and the calls in flight (finished calls stay as Done). */
  datatype System = System(db: Db, calls: map<Caller, Pc>)

  /** A call begins, a call takes a step, or the award is frozen (again) by generateClientQuote. */
  datatype Step = Begin(caller: Caller, pc: Pc) | Advance(caller: Caller, pc': Pc) | Generate

  ghost predicate Next(s: System, s': System, step: Step) {
    match step
    case Begin(c, pc) => c !in s.calls && Initial(pc) && s' == s.(calls := s.calls[c := pc])
    case Advance(c, pc') => c in s.calls && CallStep(s.db, s.calls[c], s'.db, pc') && s'.calls == s.calls[c := pc']
    case Generate => s' == s.(db := Generated(s.db))
  }

  /** What a call in flight may rely on. */
  ghost predicate CallOk(db: Db, pc: Pc) {
    match pc
    case GetCreate(_, version) => version >= 1 && (version == 1 || Settled(db.rows, version - 1))
    case ReviseCreate(version, _, _) => version >= 1 && (version == 1 || Settled(db.rows, version - 1))
    case PatchWrite(id, marginPct, draft, readStamp) =>
      && id < db.nextId && readStamp <= db.clock
      && (IsDraftAt(db, id, readStamp) ==> !SameContent(db.rows[id], marginPct, draft))
    case IssueOrder(id, stamp, marginPct, draft) => ReadStill(db, id, stamp, marginPct, draft)
    case IssueWrite(id, stamp, marginPct, draft, ordered) =>
      ReadStill(db, id, stamp, marginPct, draft) && multiset(ordered) == multiset(draft.legs)
    case _ => true
  }

  /** While the row keeps the stamp it was read with, it keeps what was read. */
  ghost predicate ReadStill(db: Db, id: RowId, stamp: nat, marginPct: real, draft: Draft) {
    && id < db.nextId && stamp <= db.clock
    && (IsDraftAt(db, id, stamp) ==> db.rows[id].marginPct == marginPct && db.rows[id].draft == draft)
  }

  ghost predicate CallsOk(s: System) {
    forall c {:trigger s.calls[c]} :: c in s.calls ==> CallOk(s.db, s.calls[c])
  }

  ghost predicate Inv(s: System) {
    DbOk(s.db) && CallsOk(s)
  }

  /** What a call relies on survives whatever happens to the table. */
  lemma CallStaysOk(db: Db, db': Db, pc: Pc)
    requires CallOk(db, pc) && Evolves(db, db')
    ensures CallOk(db', pc)
  {
    match pc {
      case GetCreate(_, version) => if version > 1 { SettledStays(db, db', version - 1); }
      case ReviseCreate(version, _, _) => if version > 1 { SettledStays(db, db', version - 1); }
      case PatchWrite(id, _, _, _) => assert StampedAt(db, db', id);
      case IssueOrder(id, _, _, _) => assert StampedAt(db, db', id);
      case IssueWrite(id, _, _, _, _) => assert StampedAt(db, db', id);
      case _ =>
    }
  }

  /** The latest row of a table is its last version; with no live latest row, that version is settled. */
  lemma NextAfterLatest(db: Db, r: Option<RowId>)
    requires DbOk(db) && IsLatest(db.rows, r) && !IsLive(db, r)
    ensures r.Some? ==> Settled(db.rows, db.rows[r.value].version)
  {
  }

  /** A GET on a frozen award always gets a quotation: alone, from any table in order, it finds a live
      row or creates the next version, even after a reopen left only SUPERSEDED rows. */
  lemma SoloGetSucceeds(db: Db, draft: Draft, r: Option<RowId>)
    requires DbOk(db) && IsLatest(db.rows, r) && !IsLive(db, r)
    ensures AfterGetLatest(db, r) == GetBuild && AfterGetAgain(db, r, draft).GetCreate?
    ensures var version := AfterGetAgain(db, r, draft).version;
      var db' := Created(db, version, 0.0, draft);
      && !HasVersion(db.rows, version) && DbOk(db')
      && IsDraftRow(db', db.nextId) && IsLatest(db'.rows, Some(db.nextId))
  {
    NextAfterLatest(db, r);
    CreatedOk(db, AfterGetAgain(db, r, draft).version, 0.0, draft);
    var n :| VersionsExact(db.rows, n);
    if r.Some? {
      assert HasVersion(db.rows, n);
    }
  }

  /** Without a DRAFT the latest ISSUED row is the last version. */
  lemma NextVersionIsFree(rows: map<RowId, Row>, id: RowId)
    requires SupersededFirst(rows) && IsLatestIssued(rows, Some(id)) && !HasDraft(rows)
    ensures !HasVersion(rows, rows[id].version + 1)
  {
    forall other | other in rows
      ensures rows[other].version != rows[id].version + 1
    {
      assert rows[other].status != DRAFT;
    }
  }

  /** Revising the latest ISSUED row keeps the table in order. */
  lemma RevisedOk(db: Db, id: RowId)
    requires DbOk(db) && id in db.rows && db.rows[id].status == ISSUED
    ensures DbOk(Created(db, db.rows[id].version + 1, db.rows[id].marginPct, db.rows[id].draft))
  {
    assert Settled(db.rows, db.rows[id].version);
    CreatedOk(db, db.rows[id].version + 1, db.rows[id].marginPct, db.rows[id].draft);
  }

  // Calls that run alone.

  /** n steps of one call, with nobody else's in between. */
  ghost predicate Leads(db: Db, pc: Pc, db': Db, pc': Pc, n: nat)
    decreases n
  {
    if n == 0 then db' == db && pc' == pc
    else exists mid, midPc :: CallStep(db, pc, mid, midPc) && Leads(mid, midPc, db', pc', n - 1)
  }

  ghost predicate RunsAs(db: Db, pc: Pc, db': Db, ok: bool) {
    exists n: nat :: Leads(db, pc, db', Done(ok), n)
  }

  lemma OneStep(db: Db, pc: Pc, db': Db, ok: bool)
    requires CallStep(db, pc, db', Done(ok))
    ensures RunsAs(db, pc, db', ok)
  {
    assert Leads(db', Done(ok), db', Done(ok), 0);
    assert Leads(db, pc, db', Done(ok), 1);
  }

  lemma StepFirst(db: Db, pc: Pc, mid: Db, midPc: Pc, db': Db, ok: bool)
    requires CallStep(db, pc, mid, midPc) && RunsAs(mid, midPc, db', ok)
    ensures RunsAs(db, pc, db', ok)
  {
    var n: nat :| Leads(mid, midPc, db', Done(ok), n);
    assert Leads(db, pc, db', Done(ok), n + 1);
  }

  lemma GetRunsAlone(db: Db, r: Option<RowId>, built: Draft)
    requires IsLatest(db.rows, r)
    ensures !db.awarded ==> RunsAs(db, GetAward, db, false)
    ensures db.awarded && IsLive(db, r) ==> RunsAs(db, GetAward, db, true)
    ensures db.awarded && !IsLive(db, r) ==>
      var version := AfterGetAgain(db, r, built).version;
      RunsAs(db, GetAward, Created(db, version, 0.0, built), !HasVersion(db.rows, version))
  {
    if !db.awarded {
      OneStep(db, GetAward, db, false);
    } else if IsLive(db, r) {
      OneStep(db, GetLatest, db, true);
      StepFirst(db, GetAward, db, GetLatest, db, true);
    } else {
      var version := AfterGetAgain(db, r, built).version;
      var db', ok := Created(db, version, 0.0, built), !HasVersion(db.rows, version);
      OneStep(db, GetCreate(built, version), db', ok);
      StepFirst(db, GetAgain(built), db, GetCreate(built, version), db', ok);
      StepFirst(db, GetBuild, db, GetAgain(built), db', ok);
      StepFirst(db, GetLatest, db, GetBuild, db', ok);
      StepFirst(db, GetAward, db, GetLatest, db', ok);
    }
  }

  lemma PatchRunsAlone(db: Db, r: Option<RowId>, body: PatchBody)
    requires IsLatest(db.rows, r)
    ensures var pc := AfterPatchRead(db, r, body);
      if pc.PatchWrite? then RunsAs(db, PatchRead(body), Patched(db, pc.id, pc.marginPct, pc.draft), true)
      else pc.Done? && RunsAs(db, PatchRead(body), db, pc.ok)
  {
    var pc := AfterPatchRead(db, r, body);
    if pc.PatchWrite? {
      OneStep(db, pc, Patched(db, pc.id, pc.marginPct, pc.draft), true);
      StepFirst(db, PatchRead(body), db, pc, Patched(db, pc.id, pc.marginPct, pc.draft), true);
    } else {
      OneStep(db, PatchRead(body), db, pc.ok);
    }
  }

  lemma IssueRunsAlone(db: Db, r: Option<RowId>, expected: nat, ordered: seq<CostLeg>)
    requires IsLatest(db.rows, r)
    ensures var pc := AfterIssueRead(db, r, expected);
      if pc.IssueOrder?
      then multiset(ordered) == multiset(pc.draft.legs) ==>
             RunsAs(db, IssueRead(expected), Issued(db, pc.id, pc.stamp, PriceQuotation(ordered, pc.marginPct, pc.draft.overrides)),
                    IsDraftAt(db, pc.id, pc.stamp))
      else pc == Done(false) && RunsAs(db, IssueRead(expected), db, false)
  {
    var pc := AfterIssueRead(db, r, expected);
    if pc.IssueOrder? {
      if multiset(ordered) == multiset(pc.draft.legs) {
        var write := IssueWrite(pc.id, pc.stamp, pc.marginPct, pc.draft, ordered);
        var db', ok := Issued(db, pc.id, pc.stamp, PriceQuotation(ordered, pc.marginPct, pc.draft.overrides)), IsDraftAt(db, pc.id, pc.stamp);
        OneStep(db, write, db', ok);
        StepFirst(db, pc, db, write, db', ok);
        StepFirst(db, IssueRead(expected), db, pc, db', ok);
      }
    } else {
      OneStep(db, IssueRead(expected), db, false);
    }
  }

  lemma ReviseRunsAlone(db: Db, r: Option<RowId>)
    requires IsLatestIssued(db.rows, r)
    ensures HasDraft(db.rows) || r.None? ==> RunsAs(db, ReviseDraft, db, false)
    ensures !HasDraft(db.rows) && r.Some? ==>
      var pc := AfterReviseIssued(db, r);
      pc.ReviseCreate? && RunsAs(db, ReviseDraft, Created(db, pc.version, pc.marginPct, pc.draft), !HasVersion(db.rows, pc.version))
  {
    if HasDraft(db.rows) {
      OneStep(db, ReviseDraft, db, false);
    } else if r.None? {
      OneStep(db, ReviseIssued, db, false);
      StepFirst(db, ReviseDraft, db, ReviseIssued, db, false);
    } else {
      var pc := AfterReviseIssued(db, r);
      var db', ok := Created(db, pc.version, pc.marginPct, pc.draft), !HasVersion(db.rows, pc.version);
      OneStep(db, pc, db', ok);
      StepFirst(db, ReviseIssued, db, pc, db', ok);
      StepFirst(db, ReviseDraft, db, ReviseIssued, db', ok);
    }
  }

  lemma ReopenRunsAlone(db: Db)
    ensures RunsAs(db, ReopenRead, if db.awarded then Reopened(db) else db, db.awarded)
  {
    if db.awarded {
      OneStep(db, ReopenWrite, Reopened(db), true);
      StepFirst(db, ReopenRead, db, ReopenWrite, Reopened(db), true);
    } else {
      OneStep(db, ReopenRead, db, false);
    }
  }

  lemma CallStepOk(db: Db, pc: Pc, db': Db, pc': Pc)
    requires DbOk(db) && CallOk(db, pc) && CallStep(db, pc, db', pc')
    ensures DbOk(db') && Evolves(db, db') && CallOk(db', pc')
  {
    match pc {
      case GetCreate(draft, version) => CreatedOk(db, version, 0.0, draft);
      case ReviseCreate(version, marginPct, draft) => CreatedOk(db, version, marginPct, draft);
      case PatchWrite(id, marginPct, draft, _) => PatchedOk(db, id, marginPct, draft);
      case IssueWrite(id, stamp, marginPct, draft, ordered) =>
        IssuedOk(db, id, stamp, ordered, PriceQuotation(ordered, marginPct, draft.overrides));
      case ReopenWrite => ReopenedOk(db);
      case _ =>
        EvolvesToItself(db);
        ReadStepOk(db, pc, pc');
    }
  }

  lemma RowReadOk(db: Db, id: RowId)
    requires DbOk(db) && id in db.rows
    ensures id < db.nextId && db.rows[id].updatedAt <= db.clock
  {
    assert RowHere(db, id);
  }

  lemma PatchReadOk(db: Db, r: Option<RowId>, body: PatchBody)
    requires DbOk(db) && IsLatest(db.rows, r)
    ensures CallOk(db, AfterPatchRead(db, r, body))
  {
    if r.Some? {
      RowReadOk(db, r.value);
    }
  }

  lemma IssueReadOk(db: Db, r: Option<RowId>, expected: nat)
    requires DbOk(db) && IsLatest(db.rows, r)
    ensures CallOk(db, AfterIssueRead(db, r, expected))
  {
    if r.Some? {
      RowReadOk(db, r.value);
    }
  }

  lemma ReadStepOk(db: Db, pc: Pc, pc': Pc)
    requires DbOk(db) && CallOk(db, pc) && CallStep(db, pc, db, pc')
    requires !pc.GetCreate? && !pc.ReviseCreate? && !pc.PatchWrite? && !pc.IssueWrite? && !pc.ReopenWrite?
    ensures CallOk(db, pc')
  {
    match pc {
      case GetAgain(draft) =>
        var r :| IsLatest(db.rows, r) && pc' == AfterGetAgain(db, r, draft);
        if !IsLive(db, r) {
          NextAfterLatest(db, r);
        }
      case PatchRead(body) =>
        var r :| IsLatest(db.rows, r) && pc' == AfterPatchRead(db, r, body);
        PatchReadOk(db, r, body);
      case IssueRead(expected) =>
        var r :| IsLatest(db.rows, r) && pc' == AfterIssueRead(db, r, expected);
        IssueReadOk(db, r, expected);
      case ReviseIssued =>
        var r :| IsLatestIssued(db.rows, r) && pc' == AfterReviseIssued(db, r);
      case _ =>
    }
  }

  lemma GeneratedOk(db: Db)
    requires DbOk(db)
    ensures DbOk(Generated(db)) && Evolves(db, Generated(db))
  {
    forall id
      ensures RowHere(Generated(db), id) && StampedAt(db, Generated(db), id)
    {
      assert RowHere(db, id);
    }
  }

  /** Every step of every call keeps the invariant and only evolves the table. */
  lemma StepKeepsInv(s: System, s': System, step: Step)
    requires Inv(s) && Next(s, s', step)
    ensures Inv(s') && Evolves(s.db, s'.db)
  {
    match step {
      case Begin(_, _) => EvolvesToItself(s.db);
      case Advance(c, pc') => CallStepOk(s.db, s.calls[c], s'.db, pc');
      case Generate => GeneratedOk(s.db);
    }
    forall c | c in s'.calls
      ensures CallOk(s'.db, s'.calls[c])
    {
      if c in s.calls && s'.calls[c] == s.calls[c] {
        CallStaysOk(s.db, s'.db, s.calls[c]);
      }
    }
  }
}
