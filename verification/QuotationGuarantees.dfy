/** What holds in every run of the quotation protocol, from an empty table. */
module QuotationGuarantees {
  import opened Wrappers
  import opened Money
  import opened QuotationMargin
  import opened QuotationTable
  import opened QuotationProtocol

  /** A run: its states, and the step between every two of them. */
  datatype Run = Run(states: seq<System>, steps: seq<Step>)

  ghost predicate IsRun(run: Run) {
    IsTrace(run.states, run.steps) && run.states[0].db.rows == map[] && run.states[0].calls == map[]
  }

  /** Steps from any state. */
  ghost predicate IsTrace(states: seq<System>, steps: seq<Step>) {
    && |states| == |steps| + 1
    && forall i :: 0 <= i < |steps| ==> Next(states[i], states[i + 1], steps[i])
  }

  lemma EmptyIsOk(s: System)
    requires s.db.rows == map[] && s.calls == map[]
    ensures Inv(s)
  {
    assert VersionsExact(s.db.rows, 0);
  }

  lemma {:induction false} RunKeepsInv(run: Run, i: nat)
    requires IsRun(run) && i < |run.states|
    ensures Inv(run.states[i])
  {
    if i == 0 {
      EmptyIsOk(run.states[0]);
    } else {
      RunKeepsInv(run, i - 1);
      StepKeepsInv(run.states[i - 1], run.states[i - 1 + 1], run.steps[i - 1]);
    }
  }

  lemma StepEvolves(run: Run, i: nat)
    requires IsRun(run) && i + 1 < |run.states|
    ensures Evolves(run.states[i].db, run.states[i + 1].db)
  {
    RunKeepsInv(run, i);
    StepKeepsInv(run.states[i], run.states[i + 1], run.steps[i]);
  }

  lemma {:induction false} RunEvolves(run: Run, i: nat, j: nat)
    requires IsRun(run) && i <= j < |run.states|
    ensures Evolves(run.states[i].db, run.states[j].db)
    decreases j
  {
    if i == j {
      RunKeepsInv(run, i);
      EvolvesToItself(run.states[i].db);
    } else {
      RunEvolves(run, i, j - 1);
      StepEvolves(run, j - 1);
      EvolvesTransitively(run.states[i].db, run.states[j - 1].db, run.states[j].db);
    }
  }

  /** In every interleaving the versions present are exactly 1..n, each once, and only version n may
      be a DRAFT. */
  lemma VersionsAreOneToN(run: Run, i: nat)
    requires IsRun(run) && i < |run.states|
    ensures exists n :: VersionsExact(run.states[i].db.rows, n)
  {
    RunKeepsInv(run, i);
  }

  /** So there is never a second DRAFT. */
  lemma NeverTwoDrafts(run: Run, i: nat, a: RowId, b: RowId)
    requires IsRun(run) && i < |run.states|
    requires IsDraftRow(run.states[i].db, a) && IsDraftRow(run.states[i].db, b)
    ensures a == b
  {
    RunKeepsInv(run, i);
  }

  /** The stored totals of every row are always the price of its stored draft at its stored margin. */
  lemma TotalsArePrices(run: Run, i: nat, id: RowId)
    requires IsRun(run) && i < |run.states| && id in run.states[i].db.rows
    ensures var row := run.states[i].db.rows[id];
      row.costTotalUsd == Price(row.draft, row.marginPct).costTotalUsd && row.clientTotalUsd == Price(row.draft, row.marginPct).clientTotalUsd
  {
    RunKeepsInv(run, i);
    assert RowHere(run.states[i].db, id);
  }

  /** Once a row has left DRAFT, its margin, draft, totals and snapshot never change in any run; its
      status may only become SUPERSEDED; and the row is never deleted. */
  lemma IssuedRowsAreFrozen(run: Run, i: nat, j: nat, id: RowId)
    requires IsRun(run) && i <= j < |run.states|
    requires id in run.states[i].db.rows && run.states[i].db.rows[id].status != DRAFT
    ensures id in run.states[j].db.rows && StaysFrozen(run.states[i].db.rows[id], run.states[j].db.rows[id])
  {
    RunEvolves(run, i, j);
    assert FrozenAt(run.states[i].db, run.states[j].db, id);
  }

  /** A stamp stands for one content: a row seen twice with the same stamp is the same row. */
  lemma StampFixesContent(run: Run, i: nat, j: nat, id: RowId)
    requires IsRun(run) && i <= j < |run.states|
    requires id in run.states[i].db.rows && id in run.states[j].db.rows
    requires run.states[i].db.rows[id].updatedAt == run.states[j].db.rows[id].updatedAt
    ensures run.states[i].db.rows[id] == run.states[j].db.rows[id]
  {
    RunEvolves(run, i, j);
    RunKeepsInv(run, i);
    assert RowHere(run.states[i].db, id);
    assert StampedAt(run.states[i].db, run.states[j].db, id);
  }

  /** The stamp an issue call compares with is the one its caller named. */
  ghost predicate IssuesAt(pc: Pc, expected: nat) {
    match pc
    case IssueRead(e) => e == expected
    case IssueOrder(_, stamp, _, _) => stamp == expected
    case IssueWrite(_, stamp, _, _, _) => stamp == expected
    case Done(_) => true
    case _ => false
  }

  lemma {:induction false} CallKeepsExpected(run: Run, j: nat, i: nat, c: Caller, expected: nat)
    requires IsRun(run) && j <= i < |run.states| && c in run.states[j].calls && run.states[j].calls[c] == IssueRead(expected)
    ensures c in run.states[i].calls && IssuesAt(run.states[i].calls[c], expected)
    decreases i
  {
    if j < i {
      CallKeepsExpected(run, j, i - 1, c, expected);
      assert Next(run.states[i - 1], run.states[i - 1 + 1], run.steps[i - 1]);
    }
  }

  /** The step in which an issue call commits. */
  ghost predicate CommitsIssue(s: System, s': System, c: Caller) {
    c in s.calls && s.calls[c].IssueWrite? && CallStep(s.db, s.calls[c], s'.db, Done(true))
  }

  /** A successful issue freezes exactly the price of the draft that carried the caller's stamp,
      whatever PATCHes raced it: the margin, draft and totals of the row as anyone ever saw it with
      that stamp, and the priced lines of its legs in some order. */
  lemma IssueFreezesWhatTheCallerSaw(run: Run, j: nat, k: nat, i: nat, c: Caller, expected: nat)
    requires IsRun(run) && j <= i < |run.steps| && k <= i
    requires c in run.states[j].calls && run.states[j].calls[c] == IssueRead(expected)
    requires CommitsIssue(run.states[i], run.states[i + 1], c)
    requires run.states[i].calls[c].id in run.states[k].db.rows
    requires run.states[k].db.rows[run.states[i].calls[c].id].updatedAt == expected
    ensures var seen := run.states[k].db.rows[run.states[i].calls[c].id];
      && run.states[i].calls[c].id in run.states[i + 1].db.rows
      && var row := run.states[i + 1].db.rows[run.states[i].calls[c].id];
      && row.status == ISSUED && row.marginPct == seen.marginPct && row.draft == seen.draft
      && row.costTotalUsd == seen.costTotalUsd && row.clientTotalUsd == seen.clientTotalUsd
      && row.issuedSnapshot.Some? && PricedAs(row.issuedSnapshot.value, seen.draft, seen.marginPct)
  {
    CallKeepsExpected(run, j, i, c, expected);
    RunKeepsInv(run, i);
    var db, pc := run.states[i].db, run.states[i].calls[c];
    StampFixesContent(run, k, i, pc.id);
    CallStepOk(db, pc, run.states[i + 1].db, Done(true));
    assert RowHere(db, pc.id) && RowHere(run.states[i + 1].db, pc.id);
  }

  /** A PATCH that runs alone moves the stamp exactly when it changes the margin, the draft or a
      stored total. */
  lemma SoloPatchMovesStampExactlyForAChange(db: Db, id: RowId, body: PatchBody)
    requires DbOk(db) && IsLatest(db.rows, Some(id)) && IsDraftRow(db, id)
    ensures var row, m, d := db.rows[id], PatchedMargin(db.rows[id], body), PatchedDraft(db.rows[id], body);
      && AfterPatchRead(db, Some(id), body) == (if SameContent(row, m, d) then Done(true) else PatchWrite(id, m, d, row.updatedAt))
      && (!SameContent(row, m, d) ==> Patched(db, id, m, d).rows[id].updatedAt != row.updatedAt
                                      && Patched(db, id, m, d).rows[id].(updatedAt := row.updatedAt) != row)
  {
    assert RowHere(db, id);
  }

  lemma QuantizedIsStable(m: real)
    ensures QuantizeMargin(QuantizeMargin(m)) == QuantizeMargin(m)
  {
    if m >= 0.0 {
      RoundMonotone(0.0, m);
      RoundOfCents(0.0);
      RoundIsCents(m);
      RoundOfCents(Round2(m));
    } else {
      RoundMonotone(0.0, -m);
      RoundOfCents(0.0);
      RoundIsCents(-m);
      RoundOfCents(Round2(-m));
    }
  }

  /** The margin is rounded to the nearest hundredth, and from the middle away from zero. */
  lemma QuantizedIsNearest(m: real)
    ensures IsCents(QuantizeMargin(m)) && Abs(QuantizeMargin(m) - m) <= HALF_CENT
    ensures Abs(QuantizeMargin(m) - m) == HALF_CENT ==> Abs(QuantizeMargin(m)) > Abs(m)
  {
    if m >= 0.0 {
      RoundIsCents(m);
      RoundIsClose(m);
    } else {
      RoundIsCents(-m);
      RoundIsClose(-m);
      WholeCents(-CentsOf(-m));
    }
  }

  /** The same PATCH sent again finds nothing to change, whatever precision its margin came in. */
  lemma RepeatedPatchWritesNothing(db: Db, id: RowId, body: PatchBody)
    requires IsLatest(db.rows, Some(id)) && IsDraftRow(db, id)
    ensures var once := Patched(db, id, PatchedMargin(db.rows[id], body), PatchedDraft(db.rows[id], body));
      IsLatest(once.rows, Some(id)) && AfterPatchRead(once, Some(id), body) == Done(true)
  {
    QuantizedIsStable(body.marginPct.UnwrapOr(db.rows[id].marginPct));
  }

  // When does a PATCH move the stamp for nothing?

  /** Step r is the read that left call c to write pc. */
  ghost predicate ReadsToWrite(run: Run, r: nat, c: Caller, pc: Pc) {
    && r < |run.steps| < |run.states| && run.steps[r] == Advance(c, pc) && pc.PatchWrite?
    && c in run.states[r].calls && run.states[r].calls[c].PatchRead?
  }

  /** Step i is call c's write of pc, and the row was still a DRAFT. */
  ghost predicate Lands(run: Run, i: nat, c: Caller, pc: Pc) {
    && i < |run.steps| < |run.states| && run.steps[i] == Advance(c, Done(true)) && pc.PatchWrite?
    && c in run.states[i].calls && run.states[i].calls[c] == pc
  }

  /** Step i left the row as it was but for its stamp. */
  ghost predicate OnlyTheStampMoves(run: Run, i: nat, id: RowId)
    requires i + 1 < |run.states|
  {
    && id in run.states[i].db.rows && id in run.states[i + 1].db.rows
    && run.states[i + 1].db.rows[id] == run.states[i].db.rows[id].(updatedAt := run.states[i + 1].db.rows[id].updatedAt)
  }

  /** From state j on, up to state i, nobody wrote the row. */
  ghost predicate Untouched(run: Run, j: nat, i: nat, id: RowId)
    requires j <= i < |run.states|
  {
    && id in run.states[i].db.rows
    && forall k :: j <= k <= i ==> id in run.states[k].db.rows && run.states[k].db.rows[id] == run.states[i].db.rows[id]
  }

  /** The last write to the row before step i, at step j after the read at r, was call b's PATCH, with the
      same margin and the same draft. */
  ghost predicate LastWriteWasTheSame(run: Run, r: nat, j: nat, i: nat, b: Caller, pc: Pc)
    requires pc.PatchWrite? && i < |run.states|
  {
    && r < j < i && Untouched(run, j + 1, i, pc.id)
    && exists seen: nat :: Lands(run, j, b, pc.(readStamp := seen))
  }

  /** A row that is there and was there before was there all along. */
  lemma RowStayed(run: Run, j: nat, i: nat, id: RowId)
    requires IsRun(run) && j <= i < |run.states| && id in run.states[i].db.rows && id < run.states[j].db.nextId
    ensures id in run.states[j].db.rows
  {
    RunEvolves(run, j, i);
    assert StampedAt(run.states[j].db, run.states[i].db, id);
  }

  /** The read decided to write because the write would change something. */
  lemma ReadSawADifference(run: Run, r: nat, c: Caller, pc: Pc)
    requires IsRun(run) && ReadsToWrite(run, r, c, pc)
    ensures run.states[r + 1].db == run.states[r].db && pc.id in run.states[r].db.rows && pc.id < run.states[r].db.nextId
    ensures !SameContent(run.states[r].db.rows[pc.id], pc.marginPct, pc.draft)
  {
    RunKeepsInv(run, r);
    assert Next(run.states[r], run.states[r + 1], run.steps[r]);
    assert RowHere(run.states[r].db, pc.id);
  }

  lemma CallChangesDraftByPatch(db: Db, pc: Pc, db': Db, pc': Pc, id: RowId)
    requires CallStep(db, pc, db', pc') && id in db.rows && id < db.nextId && IsDraftRow(db', id) && db'.rows[id] != db.rows[id]
    ensures pc.PatchWrite? && pc.id == id && pc' == Done(true)
    ensures db'.rows[id].marginPct == pc.marginPct && db'.rows[id].draft == pc.draft
  {
  }

  /** The only write that changes a row and leaves it a DRAFT is a PATCH. */
  lemma DraftIsChangedByPatch(s: System, s': System, step: Step, id: RowId) returns (b: Caller, pc: Pc)
    requires Inv(s) && Next(s, s', step) && id in s.db.rows && IsDraftRow(s'.db, id) && s'.db.rows[id] != s.db.rows[id]
    ensures step == Advance(b, Done(true)) && b in s.calls && s.calls[b] == pc && pc.PatchWrite? && pc.id == id
    ensures s'.db.rows[id].marginPct == pc.marginPct && s'.db.rows[id].draft == pc.draft
  {
    assert RowHere(s.db, id);
    b := step.caller;
    pc := s.calls[b];
    CallChangesDraftByPatch(s.db, pc, s'.db, step.pc', id);
  }

  lemma OneStateEarlier(run: Run, j: nat, i: nat, id: RowId)
    requires j < i < |run.states| && Untouched(run, j + 1, i, id)
    requires id in run.states[j].db.rows && id in run.states[j + 1].db.rows && run.states[j].db.rows[id] == run.states[j + 1].db.rows[id]
    ensures Untouched(run, j, i, id)
  {
  }

  /** Going back from state i to state j, either nobody wrote the row, or somebody wrote it last. */
  lemma {:induction false} LastWrite(run: Run, j: nat, i: nat, id: RowId) returns (k: nat)
    requires IsRun(run) && j <= i < |run.states| && id in run.states[i].db.rows && id < run.states[j].db.nextId
    ensures j <= k <= i && Untouched(run, k, i, id)
    ensures k == j || (id in run.states[k - 1].db.rows && run.states[k - 1].db.rows[id] != run.states[k].db.rows[id])
    decreases i - j
  {
    RowStayed(run, j, i, id);
    if j == i {
      k := i;
    } else {
      RunEvolves(run, j, j + 1);
      k := LastWrite(run, j + 1, i, id);
      if k == j + 1 && run.states[j].db.rows[id] == run.states[k].db.rows[id] {
        OneStateEarlier(run, j, i, id);
        k := j;
      }
    }
  }

  lemma SameContentIsSameRow(run: Run, i: nat, id: RowId, marginPct: real, draft: Draft)
    requires IsRun(run) && i < |run.states| && id in run.states[i].db.rows
    ensures SameContent(run.states[i].db.rows[id], marginPct, draft)
       <==> run.states[i].db.rows[id].marginPct == marginPct && run.states[i].db.rows[id].draft == draft
  {
    TotalsArePrices(run, i, id);
  }

  /** A PATCH's write lands on a DRAFT, and moves only the stamp exactly when that has its content. */
  lemma LandingPatch(run: Run, i: nat, c: Caller, pc: Pc)
    requires IsRun(run) && Lands(run, i, c, pc)
    ensures IsDraftRow(run.states[i].db, pc.id) && pc.id in run.states[i + 1].db.rows
    ensures run.states[i + 1].db.rows[pc.id].updatedAt > run.states[i].db.rows[pc.id].updatedAt
    ensures run.states[i + 1].db.rows[pc.id].marginPct == pc.marginPct && run.states[i + 1].db.rows[pc.id].draft == pc.draft
    ensures OnlyTheStampMoves(run, i, pc.id)
       <==> run.states[i].db.rows[pc.id].marginPct == pc.marginPct && run.states[i].db.rows[pc.id].draft == pc.draft
  {
    RunKeepsInv(run, i);
    assert Next(run.states[i], run.states[i + 1], run.steps[i]);
    assert RowHere(run.states[i].db, pc.id);
    SameContentIsSameRow(run, i, pc.id, pc.marginPct, pc.draft);
  }

  /** Whoever changed a row that is a DRAFT after it. */
  lemma WriterOf(run: Run, j: nat, id: RowId) returns (b: Caller, pc: Pc)
    requires IsRun(run) && j < |run.steps| && id in run.states[j].db.rows && IsDraftRow(run.states[j + 1].db, id)
    requires run.states[j + 1].db.rows[id] != run.states[j].db.rows[id]
    ensures Lands(run, j, b, pc) && pc.id == id
    ensures run.states[j + 1].db.rows[id].marginPct == pc.marginPct && run.states[j + 1].db.rows[id].draft == pc.draft
  {
    RunKeepsInv(run, j);
    assert Next(run.states[j], run.states[j + 1], run.steps[j]);
    b, pc := DraftIsChangedByPatch(run.states[j], run.states[j + 1], run.steps[j], id);
  }

  /** A row with the content that a PATCH wants to write has been written since that PATCH read it. */
  lemma WrittenSinceRead(run: Run, r: nat, i: nat, c: Caller, pc: Pc)
    requires IsRun(run) && ReadsToWrite(run, r, c, pc) && r < i < |run.states|
    requires pc.id in run.states[i].db.rows
    requires run.states[i].db.rows[pc.id].marginPct == pc.marginPct && run.states[i].db.rows[pc.id].draft == pc.draft
    ensures !Untouched(run, r + 1, i, pc.id)
  {
    ReadSawADifference(run, r, c, pc);
    SameContentIsSameRow(run, r, pc.id, pc.marginPct, pc.draft);
  }

  /** The last write to a DRAFT that was written was a PATCH with the content it has. */
  lemma LastWriter(run: Run, from: nat, i: nat, id: RowId) returns (j: nat, b: Caller, pb: Pc)
    requires IsRun(run) && from <= i < |run.states| && IsDraftRow(run.states[i].db, id) && id < run.states[from].db.nextId
    requires !Untouched(run, from, i, id)
    ensures from <= j < i && Untouched(run, j + 1, i, id) && Lands(run, j, b, pb) && pb.id == id
    ensures run.states[i].db.rows[id].marginPct == pb.marginPct && run.states[i].db.rows[id].draft == pb.draft
  {
    var k := LastWrite(run, from, i, id);
    j := k - 1;
    b, pb := WriterOf(run, j, id);
  }

  /** If only the stamp moved, somebody wrote the same in between. */
  lemma SomebodyWroteTheSame(run: Run, r: nat, i: nat, c: Caller, pc: Pc) returns (j: nat, b: Caller)
    requires IsRun(run) && ReadsToWrite(run, r, c, pc) && Lands(run, i, c, pc) && r < i && OnlyTheStampMoves(run, i, pc.id)
    ensures LastWriteWasTheSame(run, r, j, i, b, pc)
  {
    LandingPatch(run, i, c, pc);
    ReadSawADifference(run, r, c, pc);
    WrittenSinceRead(run, r, i, c, pc);
    var pb;
    j, b, pb := LastWriter(run, r + 1, i, pc.id);
    assert pb == pc.(readStamp := pb.readStamp);
  }

  /** In every run a PATCH moves the stamp and changes nothing else exactly when, after it read the row,
      another PATCH wrote the same margin and the same draft and nobody wrote the row since. */
  lemma PatchMovesOnlyTheStampExactlyWhen(run: Run, r: nat, i: nat, c: Caller, pc: Pc)
    requires IsRun(run) && ReadsToWrite(run, r, c, pc) && Lands(run, i, c, pc) && r < i
    ensures OnlyTheStampMoves(run, i, pc.id) <==> exists j: nat, b :: LastWriteWasTheSame(run, r, j, i, b, pc)
  {
    if OnlyTheStampMoves(run, i, pc.id) {
      var j, b := SomebodyWroteTheSame(run, r, i, c, pc);
    }
    if j: nat, b :| LastWriteWasTheSame(run, r, j, i, b, pc) {
      var seen: nat :| Lands(run, j, b, pc.(readStamp := seen));
      LandingPatch(run, j, b, pc.(readStamp := seen));
      LandingPatch(run, i, c, pc);
    }
  }

  /** In particular a PATCH whose row nobody wrote since it was read moves the stamp for a change. */
  lemma PatchMovesStampForAChange(run: Run, r: nat, i: nat, c: Caller, pc: Pc)
    requires IsRun(run) && ReadsToWrite(run, r, c, pc) && Lands(run, i, c, pc) && r < i && Untouched(run, r + 1, i, pc.id)
    ensures pc.id in run.states[i].db.rows && pc.id in run.states[i + 1].db.rows && !OnlyTheStampMoves(run, i, pc.id)
    ensures run.states[i + 1].db.rows[pc.id].updatedAt > run.states[i].db.rows[pc.id].updatedAt
  {
    LandingPatch(run, i, c, pc);
    if OnlyTheStampMoves(run, i, pc.id) {
      WrittenSinceRead(run, r, i, c, pc);
    }
  }

  /** Every margin a quotation is priced at is one of the two-decimal margins from 0 to 100. */
  lemma QuantizedIsAStep(m: real) returns (k: nat)
    requires 0.0 <= m <= 100.0
    ensures k <= LAST_STEP && QuantizeMargin(m) == MarginAt(k)
  {
    var v := m * 100.0 + 0.5;
    assert 0.5 <= v <= 10000.5;
    k := CentsOf(m);
  }

  lemma OneMoreStep(states: seq<System>, steps: seq<Step>, s: System, step: Step)
    requires IsTrace(states, steps) && Next(states[|states| - 1], s, step)
    ensures IsTrace(states + [s], steps + [step])
  {
  }

  /** The second of two PATCHes that read the same row writes what is there already. */
  lemma SecondWriteOnlyMovesTheStamp(db: Db, id: RowId, marginPct: real, draft: Draft)
    requires IsDraftRow(db, id)
    ensures var once := Patched(db, id, marginPct, draft);
      && IsDraftRow(once, id) && id in Patched(once, id, marginPct, draft).rows
      && Patched(once, id, marginPct, draft).rows[id] == once.rows[id].(updatedAt := once.clock + 1)
      && once.rows[id].updatedAt == once.clock
  {
  }

  /** Two callers have read the same DRAFT and mean to write the same. */
  ghost predicate BothRead(s: System, db: Db, a: Caller, b: Caller, write: Pc) {
    a != b && a in s.calls && b in s.calls && s.db == db && s.calls[a] == write && s.calls[b] == write
  }

  lemma BothCanRead(s: System, id: RowId, body: PatchBody, a: Caller, b: Caller) returns (states: seq<System>, steps: seq<Step>)
    requires IsLatest(s.db.rows, Some(id)) && AfterPatchRead(s.db, Some(id), body).PatchWrite?
    requires a != b && a !in s.calls && b !in s.calls
    ensures IsTrace(states, steps) && states[0] == s
    ensures BothRead(states[|states| - 1], s.db, a, b, AfterPatchRead(s.db, Some(id), body))
  {
    var write := AfterPatchRead(s.db, Some(id), body);
    var s1 := s.(calls := s.calls[a := PatchRead(body)]);
    var s2 := s1.(calls := s1.calls[b := PatchRead(body)]);
    var s3 := s2.(calls := s2.calls[a := write]);
    var s4 := s3.(calls := s3.calls[b := write]);
    states, steps := [s], [];
    OneMoreStep(states, steps, s1, Begin(a, PatchRead(body)));
    states, steps := states + [s1], steps + [Begin(a, PatchRead(body))];
    OneMoreStep(states, steps, s2, Begin(b, PatchRead(body)));
    states, steps := states + [s2], steps + [Begin(b, PatchRead(body))];
    OneMoreStep(states, steps, s3, Advance(a, write));
    states, steps := states + [s3], steps + [Advance(a, write)];
    OneMoreStep(states, steps, s4, Advance(b, write));
    states, steps := states + [s4], steps + [Advance(b, write)];
  }

  /** The property fails between overlapping PATCHes. From any state with a DRAFT that a body would
      change, two callers sending that same body can both read before either writes; the second
      write then moves the stamp and changes nothing. */
  lemma RacingPatchesMoveTheStampForNothing(s: System, id: RowId, body: PatchBody, a: Caller, b: Caller)
    returns (states: seq<System>, steps: seq<Step>, last: System)
    requires IsLatest(s.db.rows, Some(id)) && IsDraftRow(s.db, id) && a != b && a !in s.calls && b !in s.calls
    requires !SameContent(s.db.rows[id], PatchedMargin(s.db.rows[id], body), PatchedDraft(s.db.rows[id], body))
    ensures IsTrace(states, steps) && states[0] == s && Next(states[|states| - 1], last, Advance(b, Done(true)))
    ensures id in states[|states| - 1].db.rows && id in last.db.rows
    ensures last.db.rows[id].updatedAt > states[|states| - 1].db.rows[id].updatedAt
    ensures last.db.rows[id].(updatedAt := states[|states| - 1].db.rows[id].updatedAt) == states[|states| - 1].db.rows[id]
  {
    var m, d := PatchedMargin(s.db.rows[id], body), PatchedDraft(s.db.rows[id], body);
    states, steps := BothCanRead(s, id, body, a, b);
    var read := states[|states| - 1];
    var once := System(Patched(s.db, id, m, d), read.calls[a := Done(true)]);
    OneMoreStep(states, steps, once, Advance(a, Done(true)));
    states, steps := states + [once], steps + [Advance(a, Done(true))];
    last := System(Patched(once.db, id, m, d), once.calls[b := Done(true)]);
    SecondWriteOnlyMovesTheStamp(s.db, id, m, d);
  }
}
