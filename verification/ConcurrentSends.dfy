/** award.service.ts sendForApproval and lockLeg: any number of concurrent sends on one leg,
    interleaved at every read, lock, write, commit and fire. A transaction's writes become visible at
    its commit, which also releases the leg's row lock. */
module ConcurrentSends {
  import opened Wrappers
  import opened AwardMachines
  import opened AwardWorld
  import opened AwardInvariant

  type Caller = nat

  /** Where a call is. Everything from ReadQuotes to Commit happens while holding the row lock; the
      fires come after it is released. */
  datatype Phase =
    | CheckLock                                   // before assertUnlocked
    | Compare                                     // before reading the compare grid
    | AwaitRowLock                                // before SELECT ... FOR UPDATE
    | ReadQuotes                                  // before reading the leg and its quotes
    | ReadDecision(allowed: bool, permission: Option<string>)
    | Write(permission: Option<string>)           // every guard passed
    | Commit(permission: Option<string>)          // written, not yet visible
    | FireTheQuote(permission: Option<string>)
    | FireTheLeg(permission: Option<string>)
    | Sent
    | Failed

  datatype Call = Call(input: SendInput, user: UserId, phase: Phase)

  datatype System = System(w: World, leg: LegId, holder: Option<Caller>, calls: map<Caller, Call>)

  predicate HoldsRowLock(p: Phase) {
    p.ReadQuotes? || p.ReadDecision? || p.Write? || p.Commit?
  }

  /** The call's decision is in the database. */
  predicate HasCommitted(p: Phase) {
    p.FireTheQuote? || p.FireTheLeg? || p.Sent?
  }

  /** The guards that the leg and its quotes decide, as one read sees them. */
  predicate QuotesAllow(w: World, l: LegId, input: SendInput) {
    && l in w.legs && OnLeg(w, input.quote, l) && Sendable(w.quotes[input.quote].status)
    && (RequoteInFlight(w, l) ==> ProceedOverride(w, l, input)) && MayStopWaiting(w, l, input) && input.justified
  }

  predicate OnGrid(w: World, l: LegId, input: SendInput) {
    OnLeg(w, input.quote, l) && Comparable(w.quotes[input.quote].status) && w.quotes[input.quote].submitted && input.priced
  }

  function At(s: System, c: Caller, phase: Phase): System
    requires c in s.calls
  {
    s.(calls := s.calls[c := s.calls[c].(phase := phase)])
  }

  /** A guard failed inside the transaction: it rolls back and lets go of the row. */
  function RolledBack(s: System, c: Caller): System
    requires c in s.calls
  {
    At(s, c, Failed).(holder := None)
  }

  /** One step of call c; s itself when the call cannot move (it waits for the lock, or has ended). */
  function Advance(s: System, c: Caller): System
    requires c in s.calls
  {
    var call, l := s.calls[c], s.leg;
    match call.phase
    case CheckLock => At(s, c, if Locked(s.w) then Failed else Compare)
    case Compare => At(s, c, if OnGrid(s.w, l, call.input) then AwaitRowLock else Failed)
    case AwaitRowLock =>
      if s.holder.Some? then s
      else if l !in s.w.legs then At(s, c, Failed)
      else At(s, c, ReadQuotes).(holder := Some(c))
    case ReadQuotes =>
      At(s, c, ReadDecision(QuotesAllow(s.w, l, call.input), if l in s.w.legs then SendPermission(s.w, l, call.input) else None))
    case ReadDecision(allowed, permission) =>
      if allowed && Stage(s.w, l) == DRAFT then At(s, c, Write(permission)) else RolledBack(s, c)
    case Write(permission) => At(s, c, Commit(permission))
    case Commit(permission) =>
      At(s, c, FireTheQuote(permission)).(
        w := s.w.(decisions := s.w.decisions[l := Decision(PENDING, Some(call.input.quote), Some(call.user))]), holder := None)
    case FireTheQuote(permission) =>
      var fired := if call.input.quote in s.w.quotes then FireQuote(s.w, call.input.quote, SEND_FOR_APPROVAL) else None;
      if fired.None? then s else At(s, c, FireTheLeg(permission)).(w := fired.value)
    case FireTheLeg(permission) =>
      var fired := if l in s.w.legs then FireLeg(s.w, l, LEG_SEND_FOR_APPROVAL, permission) else None;
      if fired.None? then s else At(s, c, Sent).(w := fired.value)
    case Sent => s
    case Failed => s
  }

  /** A new call arrives, or a call moves on. */
  ghost predicate Next(s: System, s': System) {
    || (exists c: Caller, input: SendInput, user: UserId :: c !in s.calls && s' == s.(calls := s.calls[c := Call(input, user, CheckLock)]))
    || (exists c :: c in s.calls && s' == Advance(s, c))
  }

  ghost predicate IsRun(run: seq<System>) {
    && run != [] && run[0].calls == map[] && run[0].holder.None?
    && Inv(run[0].w) && Stage(run[0].w, run[0].leg) == DRAFT
    && forall i :: 0 <= i < |run| - 1 ==> Next(run[i], run[i + 1])
  }

  // The invariant.

  /** At most the winner's quote has moved, and only to PENDING_APPROVAL. */
  ghost predicate OnlyWinnerMoved(w0: World, w: World, winner: Option<QuoteId>) {
    && w.quotes.Keys == w0.quotes.Keys && w.legs.Keys == w0.legs.Keys
    && forall q :: q in w0.quotes ==>
         && w.quotes[q].leg == w0.quotes[q].leg
         && (w.quotes[q].status == w0.quotes[q].status || (winner == Some(q) && w.quotes[q].status == PENDING_APPROVAL))
  }

  ghost predicate RowLockOk(s: System) {
    forall c :: c in s.calls && HoldsRowLock(s.calls[c].phase) ==> s.holder == Some(c)
  }

  /** A call past its guards is right that no decision is live. */
  ghost predicate GuardsStillHold(s: System) {
    forall c :: c in s.calls && (s.calls[c].phase.Write? || s.calls[c].phase.Commit?) ==> Stage(s.w, s.leg) == DRAFT
  }

  ghost predicate NobodyCommitted(s: System, w0: World) {
    && s.w.decisions == w0.decisions && OnlyWinnerMoved(w0, s.w, None)
    && forall c :: c in s.calls ==> !HasCommitted(s.calls[c].phase)
  }

  ghost predicate CommittedBy(s: System, w0: World, winner: Caller) {
    && winner in s.calls && HasCommitted(s.calls[winner].phase)
    && s.w.decisions == w0.decisions[s.leg := Decision(PENDING, Some(s.calls[winner].input.quote), Some(s.calls[winner].user))]
    && OnlyWinnerMoved(w0, s.w, Some(s.calls[winner].input.quote))
    && forall c :: c in s.calls && c != winner ==> !HasCommitted(s.calls[c].phase)
  }

  ghost predicate SystemOk(s: System, w0: World) {
    RowLockOk(s) && GuardsStillHold(s) && (NobodyCommitted(s, w0) || exists winner :: CommittedBy(s, w0, winner))
  }

  lemma FireKeepsOthers(w0: World, w: World, q: QuoteId)
    requires OnlyWinnerMoved(w0, w, Some(q)) && q in w.quotes && FireQuote(w, q, SEND_FOR_APPROVAL).Some?
    ensures OnlyWinnerMoved(w0, FireQuote(w, q, SEND_FOR_APPROVAL).value, Some(q))
    ensures FireQuote(w, q, SEND_FOR_APPROVAL).value.decisions == w.decisions
  {
    FireQuoteFrame(w, q, SEND_FOR_APPROVAL);
  }

  /** The step in which a decision is committed makes its caller the winner: nobody else had committed. */
  lemma CommitMakesWinner(s: System, w0: World, c: Caller)
    requires SystemOk(s, w0) && Stage(w0, s.leg) == DRAFT && c in s.calls && s.calls[c].phase.Commit?
    ensures SystemOk(Advance(s, c), w0)
  {
    assert Stage(s.w, s.leg) == DRAFT;
    assert NobodyCommitted(s, w0);
    assert CommittedBy(Advance(s, c), w0, c);
  }

  /** A step of the winner after its commit. */
  lemma WinnerStep(s: System, w0: World, c: Caller)
    requires SystemOk(s, w0) && c in s.calls && HasCommitted(s.calls[c].phase)
    ensures SystemOk(Advance(s, c), w0)
  {
    var winner :| CommittedBy(s, w0, winner);
    assert winner == c;
    var q := s.calls[c].input.quote;
    if s.calls[c].phase.FireTheQuote? && q in s.w.quotes && FireQuote(s.w, q, SEND_FOR_APPROVAL).Some? {
      FireKeepsOthers(w0, s.w, q);
    }
    assert CommittedBy(Advance(s, c), w0, c);
  }

  /** Any other step touches only the call itself and the lock. */
  lemma QuietFrame(s: System, c: Caller)
    requires c in s.calls && !HasCommitted(s.calls[c].phase) && !s.calls[c].phase.Commit?
    ensures Advance(s, c).w == s.w && Advance(s, c).leg == s.leg
    ensures Advance(s, c).calls == s.calls[c := Advance(s, c).calls[c]] && !HasCommitted(Advance(s, c).calls[c].phase)
    ensures Advance(s, c).calls[c].input == s.calls[c].input
  {
    assert s.calls[c := s.calls[c]] == s.calls;
  }

  lemma QuietLock(s: System, c: Caller)
    requires RowLockOk(s) && GuardsStillHold(s) && c in s.calls && !HasCommitted(s.calls[c].phase) && !s.calls[c].phase.Commit?
    ensures RowLockOk(Advance(s, c)) && GuardsStillHold(Advance(s, c))
  {
    var s' := Advance(s, c);
    QuietFrame(s, c);
    forall d | d in s'.calls && HoldsRowLock(s'.calls[d].phase)
      ensures s'.holder == Some(d)
    {
      if d != c {
        assert s'.calls[d] == s.calls[d];
      }
    }
  }

  lemma QuietStep(s: System, w0: World, c: Caller)
    requires SystemOk(s, w0) && c in s.calls && !HasCommitted(s.calls[c].phase) && !s.calls[c].phase.Commit?
    ensures SystemOk(Advance(s, c), w0)
  {
    QuietLock(s, c);
    QuietFrame(s, c);
    QuietWinner(s, Advance(s, c), w0, c);
  }

  lemma QuietWinner(s: System, s': System, w0: World, c: Caller)
    requires SystemOk(s, w0) && s'.w == s.w && s'.leg == s.leg && c in s.calls && c in s'.calls
    requires s'.calls == s.calls[c := s'.calls[c]]
    requires !HasCommitted(s.calls[c].phase) && !HasCommitted(s'.calls[c].phase)
    ensures NobodyCommitted(s', w0) || exists winner :: CommittedBy(s', w0, winner)
  {
    if !NobodyCommitted(s, w0) {
      var winner :| CommittedBy(s, w0, winner);
      assert CommittedBy(s', w0, winner);
    }
  }

  lemma ArrivalStep(s: System, w0: World, c: Caller, call: Call)
    requires SystemOk(s, w0) && c !in s.calls && call.phase == CheckLock
    ensures SystemOk(s.(calls := s.calls[c := call]), w0)
  {
    if !NobodyCommitted(s, w0) {
      var winner :| CommittedBy(s, w0, winner);
      assert CommittedBy(s.(calls := s.calls[c := call]), w0, winner);
    }
  }

  lemma AdvanceKeepsOk(s: System, w0: World, c: Caller)
    requires SystemOk(s, w0) && Stage(w0, s.leg) == DRAFT && c in s.calls
    ensures SystemOk(Advance(s, c), w0)
  {
    if s.calls[c].phase.Commit? {
      CommitMakesWinner(s, w0, c);
    } else if HasCommitted(s.calls[c].phase) {
      WinnerStep(s, w0, c);
    } else {
      QuietStep(s, w0, c);
    }
  }

  lemma LegStays(s: System, c: Caller)
    requires c in s.calls
    ensures Advance(s, c).leg == s.leg
  {
  }

  lemma NextKeepsOk(s: System, s': System, w0: World)
    requires SystemOk(s, w0) && Stage(w0, s.leg) == DRAFT && Next(s, s')
    ensures SystemOk(s', w0) && s'.leg == s.leg
  {
    if c: Caller, input: SendInput, user: UserId :| c !in s.calls && s' == s.(calls := s.calls[c := Call(input, user, CheckLock)]) {
      ArrivalStep(s, w0, c, Call(input, user, CheckLock));
    } else {
      var c :| c in s.calls && s' == Advance(s, c);
      AdvanceKeepsOk(s, w0, c);
      LegStays(s, c);
    }
  }

  lemma {:induction false} RunKeepsOk(run: seq<System>, i: nat)
    requires IsRun(run) && i < |run|
    ensures SystemOk(run[i], run[0].w) && run[i].leg == run[0].leg
  {
    if i > 0 {
      RunKeepsOk(run, i - 1);
      assert Next(run[i - 1], run[i - 1 + 1]);
      NextKeepsOk(run[i - 1], run[i], run[0].w);
    }
  }

  /** However the calls interleave, at most one commits. */
  lemma AtMostOneCommits(run: seq<System>, i: nat, a: Caller, b: Caller)
    requires IsRun(run) && i < |run| && a in run[i].calls && b in run[i].calls
    requires HasCommitted(run[i].calls[a].phase) && HasCommitted(run[i].calls[b].phase)
    ensures a == b
  {
    RunKeepsOk(run, i);
  }

  /** The persisted decision is the one that caller asked for. */
  lemma DecisionIsTheWinners(run: seq<System>, i: nat, c: Caller)
    requires IsRun(run) && i < |run| && c in run[i].calls && HasCommitted(run[i].calls[c].phase)
    ensures run[i].leg in run[i].w.decisions
    ensures run[i].w.decisions[run[i].leg] == Decision(PENDING, Some(run[i].calls[c].input.quote), Some(run[i].calls[c].user))
  {
    RunKeepsOk(run, i);
  }

  /** No quote of the leg but the one that caller named is moved to PENDING_APPROVAL. */
  lemma OnlyTheWinnersQuoteMoves(run: seq<System>, i: nat, q: QuoteId)
    requires IsRun(run) && i < |run| && OnLeg(run[i].w, q, run[i].leg) && run[i].w.quotes[q].status == PENDING_APPROVAL
    ensures exists c :: c in run[i].calls && HasCommitted(run[i].calls[c].phase) && run[i].calls[c].input.quote == q
  {
    RunKeepsOk(run, i);
    var w0 := run[0].w;
    assert QuoteAgrees(w0, q);
    var winner :| CommittedBy(run[i], w0, winner);
  }

  /** The quote of a call that has fired it is under review. */
  ghost predicate FiredIsUnderReview(s: System, c: Caller) {
    c in s.calls && QuoteFired(s.calls[c].phase) ==>
      s.calls[c].input.quote in s.w.quotes && s.w.quotes[s.calls[c].input.quote].status == PENDING_APPROVAL
  }

  lemma UnderReviewStep(s: System, s': System, w0: World, c: Caller)
    requires SystemOk(s, w0) && Next(s, s') && FiredIsUnderReview(s, c)
    ensures FiredIsUnderReview(s', c)
  {
    if c in s'.calls && QuoteFired(s'.calls[c].phase) {
      if c in s.calls && QuoteFired(s.calls[c].phase) {
        StaysUnderReview(s, s', w0, c);
      } else {
        FiredQuoteIsUnderReview(s, s', c);
      }
    }
  }

  lemma {:induction false} FiredStaysUnderReview(run: seq<System>, i: nat, c: Caller)
    requires IsRun(run) && i < |run|
    ensures FiredIsUnderReview(run[i], c)
  {
    if i > 0 {
      FiredStaysUnderReview(run, i - 1, c);
      RunKeepsOk(run, i - 1);
      assert Next(run[i - 1], run[i - 1 + 1]);
      UnderReviewStep(run[i - 1], run[i], run[0].w, c);
    }
  }

  /** And once its quote fire has run, that quote is under review: the winner's response is true. */
  lemma WinnersQuoteIsUnderReview(run: seq<System>, i: nat, c: Caller)
    requires IsRun(run) && i < |run| && c in run[i].calls && (run[i].calls[c].phase.FireTheLeg? || run[i].calls[c].phase.Sent?)
    ensures run[i].calls[c].input.quote in run[i].w.quotes
    ensures run[i].w.quotes[run[i].calls[c].input.quote].status == PENDING_APPROVAL
  {
    FiredStaysUnderReview(run, i, c);
  }

  predicate QuoteFired(p: Phase) {
    p.FireTheLeg? || p.Sent?
  }

  lemma OthersStay(s: System, d: Caller, c: Caller)
    requires c in s.calls && d in s.calls && c != d
    ensures c in Advance(s, d).calls && Advance(s, d).calls[c] == s.calls[c]
  {
  }

  /** The step that gets a call past its quote fire is that fire. */
  lemma OnlyTheFireGetsPast(s: System, c: Caller)
    requires c in s.calls && !QuoteFired(s.calls[c].phase) && QuoteFired(Advance(s, c).calls[c].phase)
    ensures Advance(s, c).calls[c].input == s.calls[c].input
    ensures s.calls[c].input.quote in s.w.quotes
    ensures FireQuote(s.w, s.calls[c].input.quote, SEND_FOR_APPROVAL) == Some(Advance(s, c).w)
  {
    assert s.calls[c].phase.FireTheQuote?;
  }

  lemma FiredQuoteIsUnderReview(s: System, s': System, c: Caller)
    requires Next(s, s') && c in s'.calls && QuoteFired(s'.calls[c].phase)
    requires !(c in s.calls && QuoteFired(s.calls[c].phase))
    ensures s'.calls[c].input.quote in s'.w.quotes && s'.w.quotes[s'.calls[c].input.quote].status == PENDING_APPROVAL
  {
    if d :| d in s.calls && s' == Advance(s, d) {
      if d == c {
        OnlyTheFireGetsPast(s, c);
        FireQuoteFrame(s.w, s.calls[c].input.quote, SEND_FOR_APPROVAL);
      } else if c in s.calls {
        OthersStay(s, d, c);
      }
    }
  }

  /** Only a quote fire changes quotes. */
  lemma QuotesMoveByFire(s: System, c: Caller)
    requires c in s.calls && !s.calls[c].phase.FireTheQuote?
    ensures Advance(s, c).w.quotes == s.w.quotes
  {
  }

  lemma InputsStay(s: System, c: Caller, d: Caller)
    requires c in s.calls && d in s.calls
    ensures d in Advance(s, c).calls && Advance(s, c).calls[d].input == s.calls[d].input
  {
  }

  lemma StaysUnderReview(s: System, s': System, w0: World, c: Caller)
    requires SystemOk(s, w0) && Next(s, s') && c in s.calls && (s.calls[c].phase.FireTheLeg? || s.calls[c].phase.Sent?)
    requires s.calls[c].input.quote in s.w.quotes && s.w.quotes[s.calls[c].input.quote].status == PENDING_APPROVAL
    ensures c in s'.calls && s'.calls[c].input == s.calls[c].input
    ensures s.calls[c].input.quote in s'.w.quotes && s'.w.quotes[s.calls[c].input.quote].status == PENDING_APPROVAL
  {
    var winner :| CommittedBy(s, w0, winner);
    assert winner == c;
    if d :| d in s.calls && s' == Advance(s, d) {
      assert !s.calls[d].phase.FireTheQuote?;
      QuotesMoveByFire(s, d);
      InputsStay(s, d, c);
    }
  }

  // A call that runs alone.

  /** n steps of call c. */
  function After(s: System, c: Caller, n: nat): System
    decreases n
  {
    if n == 0 || c !in s.calls then s else After(Advance(s, c), c, n - 1)
  }

  /** The only call there is, and where it stands. */
  ghost predicate Alone(s: System, w: World, l: LegId, holder: Option<Caller>, c: Caller, input: SendInput, user: UserId, phase: Phase) {
    s.w == w && s.leg == l && s.holder == holder && c in s.calls && s.calls[c] == Call(input, user, phase)
  }

  lemma AfterMore(s: System, c: Caller, n: nat)
    requires c in s.calls
    ensures After(s, c, n + 1) == After(Advance(s, c), c, n)
  {
  }

  /** Up to the row lock: refused, or holding it. */
  lemma SoloUpToLock(s: System, w: World, l: LegId, c: Caller, input: SendInput, user: UserId)
    requires Alone(s, w, l, None, c, input, user, CheckLock)
    ensures Locked(w) || !OnGrid(w, l, input) || l !in w.legs ==> Alone(After(s, c, 3), w, l, None, c, input, user, Failed)
    ensures !Locked(w) && OnGrid(w, l, input) && l in w.legs ==> Alone(After(s, c, 3), w, l, Some(c), c, input, user, ReadQuotes)
  {
    var s1 := Advance(s, c);
    var s2 := Advance(s1, c);
    AfterMore(s, c, 2);
    AfterMore(s1, c, 1);
    AfterMore(s2, c, 0);
  }

  /** Under the lock: rolled back, or committed. */
  lemma SoloUnderLock(s: System, w: World, l: LegId, c: Caller, input: SendInput, user: UserId)
    requires Alone(s, w, l, Some(c), c, input, user, ReadQuotes) && l in w.legs
    ensures !QuotesAllow(w, l, input) || Stage(w, l) != DRAFT ==> Alone(After(s, c, 4), w, l, None, c, input, user, Failed)
    ensures QuotesAllow(w, l, input) && Stage(w, l) == DRAFT ==>
      Alone(After(s, c, 4), w.(decisions := w.decisions[l := Decision(PENDING, Some(input.quote), Some(user))]), l, None, c, input, user,
            FireTheQuote(SendPermission(w, l, input)))
  {
    var s1 := Advance(s, c);
    var s2 := Advance(s1, c);
    var s3 := Advance(s2, c);
    AfterMore(s, c, 3);
    AfterMore(s1, c, 2);
    AfterMore(s2, c, 1);
    AfterMore(s3, c, 0);
  }

  /** After the commit: both fires, or stuck before the one that is illegal. */
  lemma SoloFires(s: System, w: World, l: LegId, c: Caller, input: SendInput, user: UserId, permission: Option<string>)
    requires Alone(s, w, l, None, c, input, user, FireTheQuote(permission)) && input.quote in w.quotes
    ensures var out := AfterCommit(w, input.quote, SEND_FOR_APPROVAL, l, LEG_SEND_FOR_APPROVAL, permission);
      && !out.Refused? && After(s, c, 2).w == out.world && c in After(s, c, 2).calls
      && (out.Done? <==> After(s, c, 2).calls[c].phase == Sent)
      && (out.Wedged? ==> Advance(After(s, c, 2), c) == After(s, c, 2))
  {
    var s1 := Advance(s, c);
    AfterMore(s, c, 1);
    AfterMore(s1, c, 0);
  }

  lemma FailedStays(s: System, c: Caller, n: nat)
    requires c in s.calls && s.calls[c].phase == Failed
    ensures After(s, c, n) == s
  {
  }

  lemma {:induction false} AfterSum(s: System, c: Caller, m: nat, n: nat)
    ensures After(s, c, m + n) == After(After(s, c, m), c, n)
    decreases m
  {
    if m > 0 && c in s.calls {
      AfterSum(Advance(s, c), c, m - 1, n);
    }
  }

  /** A send that runs alone does what sendForApproval does: refused, completed, or stuck past its commit
      with no step left to take. */
  lemma SoloSendIsSend(s: System, w: World, l: LegId, c: Caller, input: SendInput, user: UserId)
    requires Alone(s, w, l, None, c, input, user, CheckLock)
    ensures var end := After(s, c, 9);
      c in end.calls
      && match SendForApproval(w, l, input, user)
         case Refused => end.calls[c].phase == Failed && end.w == w
         case Done(w') => end.calls[c].phase == Sent && end.w == w'
         case Wedged(w') => end.calls[c].phase != Sent && end.w == w' && Advance(end, c) == end
  {
    SoloUpToLock(s, w, l, c, input, user);
    AfterSum(s, c, 3, 6);
    if Locked(w) || !OnGrid(w, l, input) || l !in w.legs {
      FailedStays(After(s, c, 3), c, 6);
    } else {
      SoloUnderLock(After(s, c, 3), w, l, c, input, user);
      AfterSum(After(s, c, 3), c, 4, 2);
      if !QuotesAllow(w, l, input) || Stage(w, l) != DRAFT {
        FailedStays(After(After(s, c, 3), c, 4), c, 2);
      } else {
        SoloFires(After(After(s, c, 3), c, 4), w.(decisions := w.decisions[l := Decision(PENDING, Some(input.quote), Some(user))]),
                  l, c, input, user, SendPermission(w, l, input));
      }
    }
  }
}
