/** award.service.ts, negotiation.service.ts, leg-quote.projector.ts and the portal's writes as the
    program runs them: rows updated in place, one statement after another, guards before writes and
    status fires after the commit. Each method does to the rows what its specification in AwardWorld
    says. */
module AwardService {
  import opened Wrappers
  import opened AwardMachines
  import opened AwardWorld
  import opened AwardInvariant
  import opened AwardOperations
  import opened AwardRuns

  /** REFUSED wrote nothing; STUCK threw after its decision was committed. */
  datatype Verdict = REFUSED | COMPLETED | STUCK

  ghost predicate Matches(before: World, after: World, verdict: Verdict, outcome: Outcome) {
    match outcome
    case Refused => verdict == REFUSED && after == before
    case Done(w) => verdict == COMPLETED && after == w
    case Wedged(w) => verdict == STUCK && after == w
  }

  /** Unless it got stuck, an operation leaves decision, leg and quote rows in agreement if they were. */
  ghost predicate KeepsAgreement(before: World, after: World, verdict: Verdict) {
    Inv(before) && verdict != STUCK ==> Inv(after)
  }

  lemma StepKeepsAgreement(before: World, step: Step, after: World, verdict: Verdict)
    requires Matches(before, after, verdict, Perform(before, step))
    ensures KeepsAgreement(before, after, verdict)
  {
    if Inv(before) && verdict == COMPLETED {
      StepKeepsInv(before, step);
    }
  }

  class Award {
    var legs: map<LegId, LegStatus>
    var quotes: map<QuoteId, Quote>
    var decisions: map<LegId, Decision>
    var legLog: seq<LegEntry>
    var quoteLog: seq<QuoteEntry>
    var snapshot: Option<map<LegId, QuoteId>>

    function Now(): World
      reads this
    {
      World(legs, quotes, decisions, legLog, quoteLog, snapshot)
    }

    constructor ()
      ensures legs == map[] && quotes == map[] && decisions == map[] && legLog == [] && quoteLog == [] && snapshot.None?
    {
      legs, quotes, decisions, legLog, quoteLog, snapshot := map[], map[], map[], [], [], None;
    }

    /** StatusService.fire on a leg; false is IllegalTransitionError. */
    method FireLeg(l: LegId, e: LegEvent, reason: Option<string>) returns (ok: bool)
      requires l in legs
      modifies this`legs, this`legLog
      ensures ok == AwardWorld.FireLeg(old(Now()), l, e, reason).Some?
      ensures Now() == AwardWorld.FireLeg(old(Now()), l, e, reason).UnwrapOr(old(Now()))
    {
      var to := LegEdge(legs[l], e);
      ok := to.Some?;
      if ok {
        legLog := legLog + [LegEntry(l, e, legs[l], to.value, reason)];
        legs := legs[l := to.value];
      }
    }

    /** LegQuoteProjector.recomputeLeg; an illegal fire is logged and swallowed. */
    method Recompute(l: LegId, requote: bool)
      modifies this`legs, this`legLog
      ensures Now() == RecomputeLeg(old(Now()), l, requote)
    {
      if l !in legs || LegUnderReview(legs[l]) {
        return;
      }
      var target := Rollup(Now(), l);
      var fired;
      if target.Some? && target.value != legs[l] {
        if target.value == FULLY_QUOTED {
          fired := FireLeg(l, QUOTE_FULL, None);
          return;
        }
        if legs[l] == LEG_RFQ_SENT {
          fired := FireLeg(l, QUOTE_PARTIAL, None);
          return;
        }
      }
      if !requote {
        return;
      }
      if legs[l] != FULLY_QUOTED && legs[l] != PARTIALLY_QUOTED {
        return;
      }
      var back := if target.Some? then target else if StatusesOn(Now(), l) - {SELECT} != {} then Some(LEG_RFQ_SENT) else None;
      if back.None? || back.value == legs[l] {
        return;
      }
      if back.value == PARTIALLY_QUOTED {
        fired := FireLeg(l, REQUOTE_PARTIAL, None);
      } else if back.value == LEG_RFQ_SENT {
        fired := FireLeg(l, REQUOTE_OUTSTANDING, None);
      }
    }

    /** StatusService.fire on a quote, with the projector that listens to it. */
    method FireQuote(q: QuoteId, e: QuoteEvent) returns (ok: bool)
      requires q in quotes
      modifies this`legs, this`legLog, this`quotes, this`quoteLog
      ensures ok == AwardWorld.FireQuote(old(Now()), q, e).Some?
      ensures Now() == AwardWorld.FireQuote(old(Now()), q, e).UnwrapOr(old(Now()))
    {
      var to := QuoteEdge(quotes[q].status, e);
      ok := to.Some?;
      if ok {
        var l := quotes[q].leg;
        quoteLog := quoteLog + [QuoteEntry(q, e, quotes[q].status, to.value)];
        quotes := quotes[q := quotes[q].(status := to.value)];
        Recompute(l, to.value == REQUOTED);
      }
    }

    /** After a commit: quote first, then leg. */
    method FireBoth(q: QuoteId, quoteEvent: QuoteEvent, l: LegId, legEvent: LegEvent, reason: Option<string>) returns (verdict: Verdict)
      requires q in quotes
      modifies this`legs, this`legLog, this`quotes, this`quoteLog
      ensures verdict != REFUSED
      ensures Matches(old(Now()), Now(), verdict, AfterCommit(old(Now()), q, quoteEvent, l, legEvent, reason))
    {
      var moved := FireQuote(q, quoteEvent);
      if !moved || l !in legs {
        return STUCK;
      }
      var fired := FireLeg(l, legEvent, reason);
      verdict := if fired then COMPLETED else STUCK;
    }

    /** Every guard of a send, and the permission its leg transition will record. */
    method SendGuards(l: LegId, input: SendInput) returns (ok: bool, permission: Option<string>)
      ensures ok == SendAllowed(Now(), l, input)
      ensures ok ==> permission == SendPermission(Now(), l, input)
    {
      permission := None;
      var q := input.quote;
      if snapshot.Some? {
        return false, None;
      }
      // The offer must be on the compare grid, and sendable now.
      if l !in legs || q !in quotes || quotes[q].leg != l || !Comparable(quotes[q].status) || !quotes[q].submitted || !input.priced {
        return false, None;
      }
      if !Sendable(quotes[q].status) {
        return false, None;
      }
      if l in decisions && decisions[l].status != DRAFT {
        return false, None;
      }
      var waived := ProceedOverride(Now(), l, input);
      if RequoteInFlight(Now(), l) && !waived {
        return false, None;
      }
      var fullyQuoted := legs[l] == FULLY_QUOTED;
      var waitedOn := WaitedOn(Now(), l, waived);
      var deadlinePassed := waitedOn != {} && waitedOn <= input.windowClosed;
      var nothingLeft := waived && waitedOn == {};
      if !fullyQuoted && !deadlinePassed && !nothingLeft {
        return false, None;
      }
      permission := if fullyQuoted then None else if waived then input.proceedReason else Some(DEADLINE_PERMISSION);
      ok := input.justified;
    }

    method SendForApproval(l: LegId, input: SendInput, user: UserId) returns (verdict: Verdict)
      modifies this
      ensures Matches(old(Now()), Now(), verdict, AwardWorld.SendForApproval(old(Now()), l, input, user))
      ensures KeepsAgreement(old(Now()), Now(), verdict)
    {
      verdict := REFUSED;
      var allowed, permission := SendGuards(l, input);
      if allowed {
        verdict := CommitSend(l, input, user, permission);
      }
      StepKeepsAgreement(old(Now()), DoSend(l, input, user), Now(), verdict);
    }

    /** The decision's commit, and the fires after it. */
    method CommitSend(l: LegId, input: SendInput, user: UserId, permission: Option<string>) returns (verdict: Verdict)
      requires SendAllowed(Now(), l, input) && permission == SendPermission(Now(), l, input)
      modifies this
      ensures Matches(old(Now()), Now(), verdict, AwardWorld.SendForApproval(old(Now()), l, input, user))
    {
      decisions := decisions[l := Decision(PENDING, Some(input.quote), Some(user))];
      verdict := FireBoth(input.quote, SEND_FOR_APPROVAL, l, LEG_SEND_FOR_APPROVAL, permission);
    }

    method ApproveGuards(l: LegId, user: UserId) returns (ok: bool)
      ensures ok == ApproveAllowed(Now(), l, user)
    {
      if snapshot.Some? || l !in legs || l !in decisions {
        return false;
      }
      var decision := decisions[l];
      if decision.status != PENDING || decision.sentBy == Some(user) {
        return false;
      }
      if !FullyQuotedForDecision(Now(), l) && !Permitted(Now(), l) {
        return false;
      }
      ok := decision.shortlisted.Some? && decision.shortlisted.value in quotes && quotes[decision.shortlisted.value].status == PENDING_APPROVAL;
    }

    method Approve(l: LegId, user: UserId) returns (verdict: Verdict)
      modifies this
      ensures Matches(old(Now()), Now(), verdict, AwardWorld.Approve(old(Now()), l, user))
      ensures KeepsAgreement(old(Now()), Now(), verdict)
      ensures verdict != REFUSED ==>
        old(snapshot) == None && l in old(decisions) && old(decisions)[l].status == PENDING && old(decisions)[l].sentBy != Some(user)
    {
      verdict := REFUSED;
      var allowed := ApproveGuards(l, user);
      if allowed {
        verdict := CommitApproval(l, user);
      }
    }

    method CommitApproval(l: LegId, user: UserId) returns (verdict: Verdict)
      requires ApproveAllowed(Now(), l, user)
      modifies this
      ensures Matches(old(Now()), Now(), verdict, AwardWorld.Approve(old(Now()), l, user))
      ensures KeepsAgreement(old(Now()), Now(), verdict)
    {
      var q := decisions[l].shortlisted.value;
      decisions := decisions[l := decisions[l].(status := DECIDED)];
      verdict := FireBoth(q, APPROVE, l, LEG_APPROVE, None);
      StepKeepsAgreement(old(Now()), DoApprove(l, user), Now(), verdict);
    }

    /** Rows that already left review are tolerated: their fire is skipped. So whatever state the rows
        are in, a rejection never gets stuck. */
    method Reject(l: LegId, reason: string, user: UserId) returns (verdict: Verdict)
      modifies this
      ensures Matches(old(Now()), Now(), verdict, AwardWorld.Reject(old(Now()), l, reason, user))
      ensures KeepsAgreement(old(Now()), Now(), verdict)
      ensures verdict == if RejectAllowed(old(Now()), l, user) then COMPLETED else REFUSED
      ensures verdict == COMPLETED ==>
        old(snapshot) == None && l in old(decisions)
        && (old(decisions)[l].status == PENDING ==> old(decisions)[l].sentBy != Some(user))
    {
      if snapshot.Some? || l !in legs || l !in decisions {
        return REFUSED;
      }
      var decision := decisions[l];
      if decision.status == DRAFT || (decision.status == PENDING && decision.sentBy == Some(user)) {
        return REFUSED;
      }
      RejectAlwaysCompletes(Now(), l, reason, user);
      var legNeedsReturn := LegUnderReview(legs[l]);
      var quoteNeedsReturn := QuoteNeedsReturn(Now(), decision.shortlisted);
      var quoteEvent := RETURN;
      if quoteNeedsReturn {
        quoteEvent := ReturnEvent(Now(), decision.shortlisted.value);
      }
      var legEvent := if FullyQuotedForDecision(Now(), l) then RETURN_FULL else RETURN_PARTIAL;
      decisions := decisions[l := decision.(status := DRAFT, sentBy := None)];
      var ok := true;
      if quoteNeedsReturn {
        ok := FireQuote(decision.shortlisted.value, quoteEvent);
      }
      if ok && legNeedsReturn {
        ok := FireLeg(l, legEvent, Some(reason));
      }
      verdict := if ok then COMPLETED else STUCK;
      StepKeepsAgreement(old(Now()), DoReject(l, reason, user), Now(), verdict);
    }

    /** The transaction that resets the decision, and the cleared award. */
    method ResetDecision(l: LegId)
      modifies this`decisions, this`snapshot
      ensures Now() == DecisionReset(old(Now()), l).(snapshot := None)
    {
      if l in decisions {
        decisions := decisions[l := Decision(DRAFT, None, None)];
      }
      snapshot := None;
    }

    /** The leg's own way back from an approval, with the rollup it then owes. */
    method ReopenAward(l: LegId) returns (ok: bool)
      modifies this`legs, this`legLog
      ensures ok == (l in old(legs) && AwardWorld.FireLeg(old(Now()), l, REOPEN_AWARD, None).Some?)
      ensures Now() == if ok then RecomputeLeg(AwardWorld.FireLeg(old(Now()), l, REOPEN_AWARD, None).value, l, true) else old(Now())
    {
      ok := false;
      if l in legs {
        ok := FireLeg(l, REOPEN_AWARD, None);
        if ok {
          Recompute(l, true);
        }
      }
    }

    method RequestRequote(l: LegId, q: QuoteId) returns (verdict: Verdict)
      modifies this
      ensures Matches(old(Now()), Now(), verdict, AwardWorld.RequestRequote(old(Now()), l, q))
      ensures KeepsAgreement(old(Now()), Now(), verdict)
    {
      verdict := REFUSED;
      if RequoteAllowed(Now(), l, q) {
        verdict := AskAgain(l, q);
      }
      StepKeepsAgreement(old(Now()), DoRequote(l, q), Now(), verdict);
    }

    /** The quote fire, the leg's way back if it was approved, and the reset, in that order. */
    method AskAgain(l: LegId, q: QuoteId) returns (verdict: Verdict)
      requires RequoteAllowed(Now(), l, q)
      modifies this
      ensures Matches(old(Now()), Now(), verdict, AwardWorld.RequestRequote(old(Now()), l, q))
    {
      var wasApproved := l in legs && legs[l] == LEG_APPROVED;
      var ok := FireQuote(q, REQUEST_REQUOTE);
      if ok && wasApproved {
        ok := ReopenAward(l);
      }
      if ok {
        ResetDecision(l);
      }
      verdict := if ok then COMPLETED else STUCK;
    }

    /** closedLegReasons: the legs, among those of the given quotes, that are closed to their forwarder. */
    method ClosedLegs(ids: seq<QuoteId>) returns (closed: set<LegId>)
      requires forall q :: q in ids ==> q in quotes
      ensures forall l :: l in closed <==> exists q :: q in ids && quotes[q].leg == l && ClosedTo(Now(), q)
    {
      closed := {};
      for i := 0 to |ids|
        invariant forall l :: l in closed <==> exists q :: q in ids[..i] && quotes[q].leg == l && ClosedTo(Now(), q)
      {
        var q := ids[i];
        assert q in ids;
        assert ids[..i + 1] == ids[..i] + [q];
        var l := quotes[q].leg;
        if l in decisions && decisions[l].status == DECIDED && decisions[l].shortlisted != Some(q) {
          closed := closed + {l};
        }
      }
      assert ids[..|ids|] == ids;
    }

    /** saveDraft: the guards; the scratchpad it writes is not part of the award state. */
    method SaveDraft(q: QuoteId) returns (verdict: Verdict)
      requires q in quotes
      ensures verdict == if PortalOpen(Now(), q) then COMPLETED else REFUSED
    {
      var closed := ClosedLegs([q]);
      assert forall p :: p in [q] <==> p == q;
      assert quotes[q].leg in closed <==> ClosedTo(Now(), q);
      if quotes[q].leg in closed || !Writable(quotes[q].status) {
        return REFUSED;
      }
      verdict := COMPLETED;
    }

    method Submit(q: QuoteId) returns (verdict: Verdict)
      requires q in quotes
      modifies this
      ensures Matches(old(Now()), Now(), verdict, AwardWorld.Submit(old(Now()), q))
      ensures KeepsAgreement(old(Now()), Now(), verdict)
    {
      verdict := SaveDraft(q);
      if verdict == REFUSED {
        return;
      }
      quotes := quotes[q := quotes[q].(submitted := true)];
      var fired := FireQuote(q, SUBMIT);
      verdict := if fired then COMPLETED else STUCK;
      StepKeepsAgreement(old(Now()), DoSubmit(q), Now(), verdict);
    }

    /** The winners' loop and the freeze. */
    method GenerateClientQuote(priceable: bool) returns (verdict: Verdict)
      modifies this
      ensures Matches(old(Now()), Now(), verdict, AwardWorld.GenerateClientQuote(old(Now()), priceable))
      ensures KeepsAgreement(old(Now()), Now(), verdict)
    {
      if snapshot.Some? || legs == map[] {
        return REFUSED;
      }
      var winners: map<LegId, QuoteId> := map[];
      var rest := legs.Keys;
      while rest != {}
        invariant rest <= legs.Keys && winners.Keys == legs.Keys - rest
        invariant forall l :: l in winners ==> l in legs && Stage(Now(), l) == DECIDED && Shortlisted(Now(), l) == Some(winners[l])
        invariant forall l :: l in winners ==> winners[l] in quotes
        decreases rest
      {
        var l :| l in rest;
        if l !in decisions || decisions[l].status != DECIDED || decisions[l].shortlisted.None? || decisions[l].shortlisted.value !in quotes {
          assert l in Now().legs;
          assert !(Stage(Now(), l) == DECIDED && Shortlisted(Now(), l).Some? && Shortlisted(Now(), l).value in Now().quotes);
          return REFUSED;
        }
        winners := winners[l := decisions[l].shortlisted.value];
        rest := rest - {l};
      }
      if !priceable {
        return REFUSED;
      }
      assert forall l :: l in Now().legs ==> l in winners;
      assert GenerateAllowed(Now(), priceable);
      assert winners == AwardWorld.GenerateClientQuote(Now(), priceable).world.snapshot.value;
      snapshot := Some(winners);
      verdict := COMPLETED;
      StepKeepsAgreement(old(Now()), DoGenerate(priceable), Now(), verdict);
    }

    method ReopenComparison() returns (verdict: Verdict)
      modifies this
      ensures Matches(old(Now()), Now(), verdict, AwardWorld.ReopenComparison(old(Now())))
      ensures KeepsAgreement(old(Now()), Now(), verdict)
    {
      if snapshot.None? {
        return REFUSED;
      }
      snapshot := None;
      verdict := COMPLETED;
      StepKeepsAgreement(old(Now()), DoReopen, Now(), verdict);
    }
  }
}
