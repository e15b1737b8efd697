/** award.service.ts reject as the way out of an operation that stopped past its commit: a send or an
    approval whose fires did not all run, because one was illegal or because the process died between
    them. */
module AwardRecovery {
  import opened Wrappers
  import opened AwardMachines
  import opened AwardWorld
  import opened AwardInvariant
  import opened AwardOperations

  /** A send from w that got past its commit and stopped before its leg fire: w' is what it left. */
  ghost predicate SendStoppedAt(w: World, w': World, l: LegId, input: SendInput, sender: UserId) {
    && SendAllowed(w, l, input)
    && (w' == CommittedSend(w, l, input.quote, sender)
        || FireQuote(CommittedSend(w, l, input.quote, sender), input.quote, SEND_FOR_APPROVAL) == Some(w'))
  }

  /** A stuck send is one that stopped so. */
  lemma StuckSendStopped(w: World, l: LegId, input: SendInput, sender: UserId)
    requires SendForApproval(w, l, input, sender).Wedged?
    ensures SendStoppedAt(w, SendForApproval(w, l, input, sender).world, l, input, sender)
  {
  }

  /** w' is w but for a draft decision on a leg that had none live, and the row of that leg. */
  ghost predicate BackFrom(w: World, w': World, l: LegId, q: QuoteId) {
    && w'.quotes == w.quotes && w'.decisions == w.decisions[l := Decision(DRAFT, Some(q), None)] && w'.snapshot == w.snapshot
    && w'.legs.Keys == w.legs.Keys && (forall k :: k in w.legs && k != l ==> w'.legs[k] == w.legs[k])
    && l in w'.legs && !LegUnderReview(w'.legs[l]) && CaughtUp(w', l)
    && (forall k :: LatestSend(w'.legLog, k) == LatestSend(w.legLog, k))
    && (forall p :: p != q ==> LatestQuoteSend(w'.quoteLog, p) == LatestQuoteSend(w.quoteLog, p))
  }

  lemma BackKeepsInv(w: World, w': World, l: LegId, q: QuoteId)
    requires Inv(w) && !Locked(w) && Stage(w, l) == DRAFT && OnLeg(w, q, l) && BackFrom(w, w', l, q)
    ensures Inv(w')
  {
    forall p
      ensures QuoteAgrees(w', p)
    {
      assert QuoteAgrees(w, p);
    }
    forall k
      ensures LegAgrees(w', k) && SendOnRecord(w', k) && CaughtUp(w', k)
    {
      assert LegAgrees(w, k) && SendOnRecord(w, k) && CaughtUp(w, k);
      if k != l {
        SameStatuses(w, w', k);
      }
    }
  }

  /** Stopped before its quote fire: no row but the decision has moved, and both fires are skipped. */
  lemma BackFromCommit(w: World, l: LegId, input: SendInput, sender: UserId, reason: string, other: UserId)
    requires Inv(w) && SendAllowed(w, l, input) && other != sender
    ensures var w' := CommittedSend(w, l, input.quote, sender);
      Reject(w', l, reason, other).Done? && BackFrom(w, Reject(w', l, reason, other).world, l, input.quote)
  {
    var w' := CommittedSend(w, l, input.quote, sender);
    assert LegAgrees(w, l) && CaughtUp(w, l);
    SameStatuses(w, WithoutDecision(w', l), l);
    assert w'.decisions[l := Decision(DRAFT, Some(input.quote), None)] == w.decisions[l := Decision(DRAFT, Some(input.quote), None)];
  }

  lemma StoppedAfterQuoteFire(w: World, w': World, l: LegId, input: SendInput, sender: UserId)
    requires Inv(w) && SendAllowed(w, l, input)
    requires FireQuote(CommittedSend(w, l, input.quote, sender), input.quote, SEND_FOR_APPROVAL) == Some(w')
    ensures QuoteMoved(CommittedSend(w, l, input.quote, sender), w', input.quote, PENDING_APPROVAL)
    ensures SentQuoteStatus(w', input.quote) == w.quotes[input.quote].status
    ensures l in w'.legs && !LegUnderReview(w'.legs[l])
  {
    assert LegAgrees(w, l);
    FireQuoteFrame(CommittedSend(w, l, input.quote, sender), input.quote, SEND_FOR_APPROVAL);
  }

  /** With its leg out of review a rejection is its decision's reset and the quote's way back. */
  lemma RejectIsQuoteReturn(w: World, l: LegId, reason: string, other: UserId)
    requires RejectAllowed(w, l, other) && !LegUnderReview(w.legs[l]) && QuoteNeedsReturn(w, Shortlisted(w, l))
    ensures var q := Shortlisted(w, l).value; FireQuote(WithoutDecision(w, l), q, ReturnEvent(w, q)).Some?
    ensures var q := Shortlisted(w, l).value;
      Reject(w, l, reason, other) == Done(FireQuote(WithoutDecision(w, l), q, ReturnEvent(w, q)).value)
    ensures var q := Shortlisted(w, l).value;
      QuoteMoved(WithoutDecision(w, l), Reject(w, l, reason, other).world, q, SentQuoteStatus(w, q))
  {
    var q := Shortlisted(w, l).value;
    ReturnIsLegal(w, q);
    FireQuoteFrame(WithoutDecision(w, l), q, ReturnEvent(w, q));
  }

  /** There and back: the quote moved to PENDING_APPROVAL, then to the status it had. */
  lemma ThereAndBack(w: World, w': World, back: World, l: LegId, q: QuoteId, sender: UserId)
    requires OnLeg(w, q, l) && l in w.legs && !LegUnderReview(w.legs[l])
    requires QuoteMoved(CommittedSend(w, l, q, sender), w', q, PENDING_APPROVAL) && l in w'.decisions
    requires QuoteMoved(WithoutDecision(w', l), back, q, w.quotes[q].status)
    ensures BackFrom(w, back, l, q)
  {
    assert w.quotes[q := w.quotes[q].(status := PENDING_APPROVAL)][q := w.quotes[q]] == w.quotes;
    assert w'.decisions[l := Decision(DRAFT, Some(q), None)] == w.decisions[l := Decision(DRAFT, Some(q), None)];
  }

  /** Stopped after its quote fire: the quote is walked back to the status it was sent from. */
  lemma BackFromQuoteFire(w: World, w': World, l: LegId, input: SendInput, sender: UserId, reason: string, other: UserId)
    requires Inv(w) && SendAllowed(w, l, input) && other != sender
    requires FireQuote(CommittedSend(w, l, input.quote, sender), input.quote, SEND_FOR_APPROVAL) == Some(w')
    ensures Reject(w', l, reason, other).Done? && BackFrom(w, Reject(w', l, reason, other).world, l, input.quote)
  {
    assert LegAgrees(w, l);
    StoppedAfterQuoteFire(w, w', l, input, sender);
    RejectIsQuoteReturn(w', l, reason, other);
    ThereAndBack(w, w', Reject(w', l, reason, other).world, l, input.quote, sender);
  }

  /** Wherever a send stopped past its commit, a rejection by anybody but its sender completes, puts
      every quote back on the status it had, and restores the agreement of all rows. */
  lemma RejectRecoversSend(w: World, w': World, l: LegId, input: SendInput, sender: UserId, reason: string, other: UserId)
    requires Inv(w) && SendStoppedAt(w, w', l, input, sender) && other != sender
    ensures Reject(w', l, reason, other).Done?
    ensures var back := Reject(w', l, reason, other).world;
      Inv(back) && back.quotes == w.quotes && back.decisions == w.decisions[l := Decision(DRAFT, Some(input.quote), None)]
  {
    if w' == CommittedSend(w, l, input.quote, sender) {
      BackFromCommit(w, l, input, sender, reason, other);
    } else {
      BackFromQuoteFire(w, w', l, input, sender, reason, other);
    }
    BackKeepsInv(w, Reject(w', l, reason, other).world, l, input.quote);
  }

  /** An approval of w that got past its commit and stopped before its leg fire. */
  ghost predicate ApprovalStoppedAt(w: World, w': World, l: LegId, user: UserId) {
    && ApproveAllowed(w, l, user)
    && var committed := w.(decisions := w.decisions[l := w.decisions[l].(status := DECIDED)]);
    (w' == committed || FireQuote(committed, w.decisions[l].shortlisted.value, APPROVE) == Some(w'))
  }

  /** What either stop leaves: an approved decision over rows still, or half, under review. */
  ghost predicate HalfApproved(w: World, w': World, l: LegId, s: QuoteStatus)
    requires Stage(w, l) == PENDING && Shortlisted(w, l).Some? && Shortlisted(w, l).value in w.quotes
  {
    && (s == PENDING_APPROVAL || s == APPROVED)
    && w'.decisions == w.decisions[l := w.decisions[l].(status := DECIDED)]
    && w'.quotes == w.quotes[Shortlisted(w, l).value := w.quotes[Shortlisted(w, l).value].(status := s)]
    && w'.legs == w.legs && w'.snapshot == w.snapshot && w'.legLog == w.legLog
    && (forall p :: LatestQuoteSend(w'.quoteLog, p) == LatestQuoteSend(w.quoteLog, p))
  }

  lemma StoppedIsHalfApproved(w: World, w': World, l: LegId, user: UserId) returns (s: QuoteStatus)
    requires Inv(w) && ApprovalStoppedAt(w, w', l, user)
    ensures Stage(w, l) == PENDING && l in w.legs && w.legs[l] == LEG_PENDING
    ensures Shortlisted(w, l).Some? && OnLeg(w, Shortlisted(w, l).value, l) && HalfApproved(w, w', l, s)
  {
    WinnersAreUnderReview(w, l);
    var q := Shortlisted(w, l).value;
    var committed := w.(decisions := w.decisions[l := w.decisions[l].(status := DECIDED)]);
    s := PENDING_APPROVAL;
    if w' == committed {
      assert w.quotes[q := w.quotes[q].(status := s)] == w.quotes;
    } else {
      s := APPROVED;
      FireQuoteFrame(committed, q, APPROVE);
      FrozenLegStays(committed, q, APPROVE);
    }
  }

  lemma HalfApprovedIsAsFull(w: World, w': World, l: LegId, s: QuoteStatus)
    requires Stage(w, l) == PENDING && Shortlisted(w, l).Some? && OnLeg(w, Shortlisted(w, l).value, l)
    requires w.quotes[Shortlisted(w, l).value].status == PENDING_APPROVAL && HalfApproved(w, w', l, s)
    ensures FullyQuotedForDecision(w', l) == FullyQuotedForDecision(w, l)
  {
    SettledMoveKeepsFullness(w, w', Shortlisted(w, l).value, l);
  }

  lemma AsIfPending(w: World, w': World, back: World, l: LegId, s: QuoteStatus)
    requires Stage(w, l) == PENDING && l in w.legs && w.legs[l] == LEG_PENDING
    requires Shortlisted(w, l).Some? && OnLeg(w, Shortlisted(w, l).value, l)
    requires w.quotes[Shortlisted(w, l).value].status == PENDING_APPROVAL
    requires HalfApproved(w, w', l, s) && IsRejectedFrom(w', back, l)
    ensures IsRejected(w, back, l)
  {
    var q := Shortlisted(w, l).value;
    HalfApprovedIsAsFull(w, w', l, s);
    assert back.legs == w.legs[l := ReturnedLegStatus(w, l)];
    assert back.quotes == w.quotes[q := w.quotes[q].(status := SentQuoteStatus(w, q))];
  }

  /** Wherever an approval stopped past its commit, anybody may reject, its sender and its approver
      included, and every row ends as if the pending decision had been rejected. */
  lemma RejectRecoversApproval(w: World, w': World, l: LegId, user: UserId, reason: string, other: UserId)
    requires Inv(w) && ApprovalStoppedAt(w, w', l, user)
    ensures Stage(w, l) == PENDING && l in w.legs && Shortlisted(w, l).Some? && Shortlisted(w, l).value in w.quotes
    ensures Reject(w', l, reason, other).Done?
    ensures IsRejected(w, Reject(w', l, reason, other).world, l) && Inv(Reject(w', l, reason, other).world)
  {
    var s := StoppedIsHalfApproved(w, w', l, user);
    WinnersAreUnderReview(w, l);
    RejectAlwaysCompletes(w', l, reason, other);
    AsIfPending(w, w', Reject(w', l, reason, other).world, l, s);
    RejectedKeepsInv(w, Reject(w', l, reason, other).world, l);
  }
}
