/** Every completed operation keeps the award invariant. */
module AwardOperations {
  import opened Wrappers
  import opened AwardMachines
  import opened AwardWorld
  import opened AwardInvariant

  /** The same world up to which quotes carry an offer. */
  ghost predicate SameButOffers(w: World, w': World) {
    && w' == w.(quotes := w'.quotes) && w'.quotes.Keys == w.quotes.Keys
    && forall q :: q in w.quotes ==> w'.quotes[q].leg == w.quotes[q].leg && w'.quotes[q].status == w.quotes[q].status
  }

  lemma OffersDoNotMatter(w: World, w': World)
    requires Inv(w) && SameButOffers(w, w')
    ensures Inv(w')
  {
    forall q
      ensures QuoteAgrees(w', q)
    {
      assert QuoteAgrees(w, q);
    }
    forall l
      ensures LegAgrees(w', l) && SendOnRecord(w', l) && CaughtUp(w', l)
    {
      assert LegAgrees(w, l) && SendOnRecord(w, l) && CaughtUp(w, l);
      SameStatuses(w, w', l);
    }
  }

  lemma SubmitKeepsInv(w: World, q: QuoteId)
    requires Inv(w) && Submit(w, q).Done?
    ensures Inv(Submit(w, q).world)
  {
    var stored := w.(quotes := w.quotes[q := w.quotes[q].(submitted := true)]);
    OffersDoNotMatter(w, stored);
    QuietQuoteFire(stored, q, SUBMIT);
  }

  lemma ExpireKeepsInv(w: World, q: QuoteId)
    requires Inv(w) && Expire(w, q).Done?
    ensures Inv(Expire(w, q).world)
  {
    QuietQuoteFire(w, q, EXPIRE);
  }

  lemma AddLegKeepsInv(w: World, l: LegId)
    requires Inv(w) && AddLeg(w, l).Done?
    ensures Inv(AddLeg(w, l).world)
  {
    var w' := AddLeg(w, l).world;
    forall q
      ensures QuoteAgrees(w', q)
    {
      assert QuoteAgrees(w, q);
    }
    forall k
      ensures LegAgrees(w', k) && SendOnRecord(w', k) && CaughtUp(w', k)
    {
      assert LegAgrees(w, k) && SendOnRecord(w, k) && CaughtUp(w, k);
      SameStatuses(w, w', k);
    }
  }

  /** A leg fire between statuses outside review that leaves the leg caught up. */
  lemma QuietLegFire(w: World, l: LegId, e: LegEvent, reason: Option<string>)
    requires Inv(w) && l in w.legs && FireLeg(w, l, e, reason).Some? && e != LEG_SEND_FOR_APPROVAL
    requires !LegUnderReview(w.legs[l]) && !LegUnderReview(LegEdge(w.legs[l], e).value)
    requires CaughtUp(FireLeg(w, l, e, reason).value, l)
    ensures Inv(FireLeg(w, l, e, reason).value)
  {
    var w' := FireLeg(w, l, e, reason).value;
    FireLegFrame(w, l, e, reason);
    forall q
      ensures QuoteAgrees(w', q)
    {
      assert QuoteAgrees(w, q);
    }
    forall k
      ensures LegAgrees(w', k) && SendOnRecord(w', k) && CaughtUp(w', k)
    {
      assert LegAgrees(w, k) && SendOnRecord(w, k) && CaughtUp(w, k);
      SameStatuses(w, w', k);
    }
  }

  lemma ValidateLegKeepsInv(w: World, l: LegId)
    requires Inv(w) && ValidateLeg(w, l).Done?
    ensures Inv(ValidateLeg(w, l).world)
  {
    QuietLegFire(w, l, VALIDATE_PASS, None);
  }

  /** Undistributed quotes do not count in the rollup. */
  lemma CandidatesDoNotCount(w: World, w': World, k: LegId)
    requires StatusesOn(w, k) - {SELECT} == StatusesOn(w', k) - {SELECT}
    ensures Rollup(w, k) == Rollup(w', k)
  {
  }

  lemma SameDistributed(w: World, w': World, k: LegId)
    requires forall p :: OnLeg(w, p, k) && w.quotes[p].status != SELECT ==> OnLeg(w', p, k) && w'.quotes[p].status == w.quotes[p].status
    requires forall p :: OnLeg(w', p, k) && w'.quotes[p].status != SELECT ==> OnLeg(w, p, k) && w'.quotes[p].status == w.quotes[p].status
    ensures StatusesOn(w, k) - {SELECT} == StatusesOn(w', k) - {SELECT}
  {
    forall s | s != SELECT
      ensures s in StatusesOn(w, k) <==> s in StatusesOn(w', k)
    {
      if s in StatusesOn(w, k) {
        var p :| p in w.quotes && w.quotes[p].leg == k && w.quotes[p].status == s;
        assert OnLeg(w, p, k);
      }
      if s in StatusesOn(w', k) {
        var p :| p in w'.quotes && w'.quotes[p].leg == k && w'.quotes[p].status == s;
        assert OnLeg(w', p, k);
      }
    }
  }

  /** Only candidates were added or removed. */
  ghost predicate OnlyCandidates(w: World, w': World) {
    && w' == w.(quotes := w'.quotes)
    && (forall p :: p in w.quotes && w.quotes[p].status != SELECT ==> p in w'.quotes && w'.quotes[p] == w.quotes[p])
    && (forall p :: p in w'.quotes && w'.quotes[p].status != SELECT ==> p in w.quotes && w'.quotes[p] == w.quotes[p])
    && (forall p :: p in w'.quotes && w'.quotes[p].status == SELECT ==> w'.quotes[p].leg in w.legs)
  }

  lemma CandidatesKeepInv(w: World, w': World)
    requires Inv(w) && OnlyCandidates(w, w')
    requires forall l :: Stage(w, l) != DRAFT && Shortlisted(w, l).Some? ==> Shortlisted(w, l).value !in w'.quotes || w'.quotes[Shortlisted(w, l).value].status != SELECT
    ensures Inv(w')
  {
    forall q
      ensures QuoteAgrees(w', q)
    {
      assert QuoteAgrees(w, q);
      if q in w'.quotes && w'.quotes[q].status == SELECT {
        var l := w'.quotes[q].leg;
        assert LegAgrees(w, l);
      }
    }
    forall l
      ensures LegAgrees(w', l) && SendOnRecord(w', l) && CaughtUp(w', l)
    {
      assert LegAgrees(w, l) && SendOnRecord(w, l) && CaughtUp(w, l);
      if Stage(w, l) != DRAFT {
        assert QuoteAgrees(w, Shortlisted(w, l).value);
      }
      SameDistributed(w, w', l);
      CandidatesDoNotCount(w, w', l);
    }
  }

  lemma WinnersAreUnderReview(w: World, l: LegId)
    requires Inv(w) && Stage(w, l) != DRAFT
    ensures l in w.legs && Shortlisted(w, l).Some? && OnLeg(w, Shortlisted(w, l).value, l)
    ensures w.quotes[Shortlisted(w, l).value].status == if Stage(w, l) == PENDING then PENDING_APPROVAL else APPROVED
    ensures w.legs[l] == if Stage(w, l) == PENDING then LEG_PENDING else LEG_APPROVED
  {
    assert LegAgrees(w, l) && SendOnRecord(w, l);
    assert QuoteAgrees(w, Shortlisted(w, l).value);
  }

  lemma CandidateStepsKeepInv(w: World, l: LegId, q: QuoteId)
    requires Inv(w)
    ensures AddCandidate(w, l, q).Done? ==> Inv(AddCandidate(w, l, q).world)
    ensures RemoveCandidate(w, q).Done? ==> Inv(RemoveCandidate(w, q).world)
  {
    forall k | Stage(w, k) != DRAFT
      ensures Shortlisted(w, k).Some? && Shortlisted(w, k).value in w.quotes && w.quotes[Shortlisted(w, k).value].status != SELECT
    {
      WinnersAreUnderReview(w, k);
    }
    forall p | p in w.quotes
      ensures w.quotes[p].leg in w.legs
    {
      assert QuoteAgrees(w, p);
    }
    if AddCandidate(w, l, q).Done? {
      CandidatesKeepInv(w, AddCandidate(w, l, q).world);
    }
    if RemoveCandidate(w, q).Done? {
      CandidatesKeepInv(w, RemoveCandidate(w, q).world);
    }
  }

  // Distribution.

  /** The legs and decisions of a world after some quiet fires on leg l. */
  ghost predicate QuietOn(w: World, w': World, l: LegId) {
    && w'.decisions == w.decisions && w'.snapshot == w.snapshot && w'.legs.Keys == w.legs.Keys && w'.quotes.Keys == w.quotes.Keys
    && (forall q :: q in w.quotes ==> w'.quotes[q].leg == w.quotes[q].leg)
    && (forall k :: k in w.legs && k != l ==> w'.legs[k] == w.legs[k])
    && (l in w.legs && w.legs[l] == READY_FOR_RFQ ==> w'.legs[l] == READY_FOR_RFQ)
  }

  lemma ReadyLegStays(w: World, q: QuoteId, e: QuoteEvent)
    requires q in w.quotes && w.quotes[q].leg in w.legs && w.legs[w.quotes[q].leg] == READY_FOR_RFQ && FireQuote(w, q, e).Some?
    ensures FireQuote(w, q, e).value.legs == w.legs
  {
  }

  lemma OneSend(w: World, q: QuoteId, l: LegId)
    requires Inv(w) && OnLeg(w, q, l) && FireQuote(w, q, SEND).Some?
    ensures Inv(FireQuote(w, q, SEND).value) && QuietOn(w, FireQuote(w, q, SEND).value, l)
    ensures FireQuote(w, q, SEND).value.quotes == w.quotes[q := w.quotes[q].(status := RFQ_SENT)]
  {
    QuietQuoteFire(w, q, SEND);
    FireQuoteFrame(w, q, SEND);
    assert QuoteAgrees(w, q);
    if w.legs[l] == READY_FOR_RFQ {
      ReadyLegStays(w, q, SEND);
    }
  }

  lemma {:induction false} SendAllKeepsInv(w: World, batch: seq<QuoteId>, l: LegId)
    requires Inv(w) && SendAll(w, batch).Some? && forall q :: q in batch ==> OnLeg(w, q, l)
    requires forall i, j :: 0 <= i < j < |batch| ==> batch[i] != batch[j]
    ensures Inv(SendAll(w, batch).value) && QuietOn(w, SendAll(w, batch).value, l)
    ensures forall q :: q in batch && q in w.quotes ==> SendAll(w, batch).value.quotes[q].status == RFQ_SENT
    ensures forall q :: q in w.quotes && q !in batch ==> SendAll(w, batch).value.quotes[q] == w.quotes[q]
    decreases |batch|
  {
    if batch != [] {
      var q, rest := batch[0], batch[1..];
      assert q in batch;
      var w1 := FireQuote(w, q, SEND).value;
      OneSend(w, q, l);
      assert forall p :: p in rest ==> p in batch;
      SendAllKeepsInv(w1, rest, l);
      assert q !in rest;
      assert forall p :: p in batch <==> p == q || p in rest;
    }
  }

  lemma AwaitedIsNotFull(w: World, l: LegId, q: QuoteId)
    requires OnLeg(w, q, l) && w.quotes[q].status == RFQ_SENT
    ensures Rollup(w, l) != Some(FULLY_QUOTED)
  {
    assert RFQ_SENT in StatusesOn(w, l) - {SELECT};
    assert !Resolved(RFQ_SENT);
  }

  lemma DistributeKeepsInv(w: World, l: LegId, batch: seq<QuoteId>)
    requires Inv(w) && Distribute(w, l, batch).Done?
    ensures Inv(Distribute(w, l, batch).world)
  {
    var cleared := OffersCleared(w, batch);
    OffersDoNotMatter(w, cleared);
    SendAllKeepsInv(cleared, batch, l);
    var sent := SendAll(cleared, batch).value;
    if w.legs[l] == READY_FOR_RFQ {
      var fired := FireLeg(sent, l, SEND_RFQ, None).value;
      assert batch[0] in batch;
      SameStatuses(sent, fired, l);
      AwaitedIsNotFull(fired, l, batch[0]);
      QuietLegFire(sent, l, SEND_RFQ, None);
    }
  }

  // Re-quote.

  lemma ResetKeepsInv(w: World, l: LegId)
    requires Inv(w) && Stage(w, l) == DRAFT
    ensures Inv(DecisionReset(w, l))
  {
    var w' := DecisionReset(w, l);
    forall q
      ensures QuoteAgrees(w', q)
    {
      assert QuoteAgrees(w, q);
    }
    forall k
      ensures LegAgrees(w', k) && SendOnRecord(w', k) && CaughtUp(w', k)
    {
      assert LegAgrees(w, k) && SendOnRecord(w, k) && CaughtUp(w, k);
      SameStatuses(w, w', k);
    }
  }

  lemma RequoteKeepsInv(w: World, l: LegId, q: QuoteId)
    requires Inv(w) && RequestRequote(w, l, q).Done?
    ensures Inv(RequestRequote(w, l, q).world)
  {
    assert QuoteAgrees(w, q) && LegAgrees(w, l);
    QuietQuoteFire(w, q, REQUEST_REQUOTE);
    FireQuoteFrame(w, q, REQUEST_REQUOTE);
    ResetKeepsInv(FireQuote(w, q, REQUEST_REQUOTE).value, l);
  }

  // Sending for approval.

  /** A quote that moves between two settled statuses does not change whether the leg is fully quoted. */
  lemma SettledMoveKeepsFullness(w: World, w': World, q: QuoteId, l: LegId)
    requires q in w.quotes && w.quotes[q].leg == l && q in w'.quotes
    requires w'.quotes == w.quotes[q := w.quotes[q].(status := w'.quotes[q].status)]
    requires Resolved(w.quotes[q].status) && Resolved(w'.quotes[q].status)
    ensures Rollup(w, l) == Some(FULLY_QUOTED) <==> Rollup(w', l) == Some(FULLY_QUOTED)
  {
    var a, b := StatusesOn(w, l) - {SELECT}, StatusesOn(w', l) - {SELECT};
    assert w.quotes[q].status in a && w'.quotes[q].status in b;
    forall s | !Resolved(s)
      ensures s in a <==> s in b
    {
      if s in a {
        var p :| p in w.quotes && w.quotes[p].leg == l && w.quotes[p].status == s;
        assert p in w'.quotes && w'.quotes[p] == w.quotes[p];
      }
      if s in b {
        var p :| p in w'.quotes && w'.quotes[p].leg == l && w'.quotes[p].status == s;
        assert p in w.quotes && w'.quotes[p] == w.quotes[p];
      }
    }
  }

  /** Another quote of the leg is QUOTED. */
  predicate OtherQuoted(w: World, l: LegId, q: QuoteId) {
    exists p :: p in w.quotes && p != q && w.quotes[p].leg == l && w.quotes[p].status == QUOTED
  }

  /** The legs a send can be completed from: one fully or partially quoted, or one the send's own quote
      fire makes partially quoted because its row lagged. */
  predicate SendableLeg(w: World, l: LegId, q: QuoteId)
    requires l in w.legs
  {
    w.legs[l] == FULLY_QUOTED || w.legs[l] == PARTIALLY_QUOTED || (w.legs[l] == LEG_RFQ_SENT && OtherQuoted(w, l, q))
  }

  /** What the projector makes of the leg row when a quote of it is sent for approval. */
  lemma SendMovesLegRow(w: World, q: QuoteId)
    requires q in w.quotes && w.quotes[q].leg in w.legs && CaughtUp(w, w.quotes[q].leg) && Sendable(w.quotes[q].status)
    ensures FireQuote(w, q, SEND_FOR_APPROVAL).Some?
    ensures var l, w' := w.quotes[q].leg, FireQuote(w, q, SEND_FOR_APPROVAL).value;
      && l in w'.legs
      && (LegEdge(w'.legs[l], LEG_SEND_FOR_APPROVAL).Some? <==> SendableLeg(w, l, q))
      && (w'.legs[l] == FULLY_QUOTED <==> w.legs[l] == FULLY_QUOTED)
      && (w.legs[l] == PARTIALLY_QUOTED ==> w'.legs[l] == PARTIALLY_QUOTED)
  {
    var l, set1 := w.quotes[q].leg, SetQuote(w, q, SEND_FOR_APPROVAL, PENDING_APPROVAL);
    SettledMoveKeepsFullness(w, set1, q, l);
    QuotedAfterSend(w, set1, q, l);
  }

  lemma QuotedAfterSend(w: World, w': World, q: QuoteId, l: LegId)
    requires q in w.quotes && w.quotes[q].leg == l && w'.quotes == w.quotes[q := w.quotes[q].(status := PENDING_APPROVAL)]
    ensures QUOTED in StatusesOn(w', l) - {SELECT} <==> OtherQuoted(w, l, q)
    ensures StatusesOn(w', l) - {SELECT} != {}
  {
    assert w'.quotes[q].status in StatusesOn(w', l);
    assert PENDING_APPROVAL in StatusesOn(w', l) - {SELECT};
    if QUOTED in StatusesOn(w', l) {
      var p :| p in w'.quotes && w'.quotes[p].leg == l && w'.quotes[p].status == QUOTED;
      assert p != q;
    }
    if OtherQuoted(w, l, q) {
      var p :| p in w.quotes && p != q && w.quotes[p].leg == l && w.quotes[p].status == QUOTED;
      assert p in w'.quotes && w'.quotes[p].leg == l && w'.quotes[p].status == QUOTED;
      assert w'.quotes[p].status in StatusesOn(w', l);
    }
  }

  /** What a completed send leaves: the decision names the quote, quote and leg are under review, and
      both logs record the statuses they left. */
  ghost predicate IsSent(w: World, w': World, l: LegId, input: SendInput, user: UserId)
    requires l in w.legs && input.quote in w.quotes
  {
    var q := input.quote;
    && w'.decisions == w.decisions[l := Decision(PENDING, Some(q), Some(user))]
    && w'.quotes == w.quotes[q := w.quotes[q].(status := PENDING_APPROVAL)]
    && w'.snapshot == w.snapshot && w'.legs == w.legs[l := LEG_PENDING]
    && (forall k :: k != l ==> LatestSend(w'.legLog, k) == LatestSend(w.legLog, k))
    && (forall p :: p != q ==> LatestQuoteSend(w'.quoteLog, p) == LatestQuoteSend(w.quoteLog, p))
    && LatestQuoteSend(w'.quoteLog, q) == Some(QuoteEntry(q, SEND_FOR_APPROVAL, w.quotes[q].status, PENDING_APPROVAL))
    && LatestSend(w'.legLog, l).Some?
    && LegSentFrom(w, l, LatestSend(w'.legLog, l).value) && LatestSend(w'.legLog, l).value.reason == SendPermission(w, l, input)
  }

  ghost predicate LegSentFrom(w: World, l: LegId, entry: LegEntry)
    requires l in w.legs
  {
    && (entry.from == FULLY_QUOTED || entry.from == PARTIALLY_QUOTED)
    && (entry.from == FULLY_QUOTED <==> w.legs[l] == FULLY_QUOTED)
  }

  function CommittedSend(w: World, l: LegId, q: QuoteId, user: UserId): World {
    w.(decisions := w.decisions[l := Decision(PENDING, Some(q), Some(user))])
  }

  /** The quote fire of a send. */
  lemma SendQuoteFire(w: World, l: LegId, q: QuoteId, user: UserId)
    requires l in w.legs && OnLeg(w, q, l) && CaughtUp(w, l) && Sendable(w.quotes[q].status)
    ensures FireQuote(CommittedSend(w, l, q, user), q, SEND_FOR_APPROVAL).Some?
    ensures var moved := FireQuote(CommittedSend(w, l, q, user), q, SEND_FOR_APPROVAL).value;
      && QuoteMoved(CommittedSend(w, l, q, user), moved, q, PENDING_APPROVAL)
      && LatestQuoteSend(moved.quoteLog, q) == Some(QuoteEntry(q, SEND_FOR_APPROVAL, w.quotes[q].status, PENDING_APPROVAL))
      && l in moved.legs && (LegEdge(moved.legs[l], LEG_SEND_FOR_APPROVAL).Some? <==> SendableLeg(w, l, q))
      && (moved.legs[l] == FULLY_QUOTED <==> w.legs[l] == FULLY_QUOTED)
  {
    var committed := CommittedSend(w, l, q, user);
    SameStatuses(w, committed, l);
    assert CaughtUp(committed, l);
    SendMovesLegRow(committed, q);
    FireQuoteFrame(committed, q, SEND_FOR_APPROVAL);
  }

  /** A send that passes every guard completes exactly when the leg can be sent from; from any other
      leg its decision is committed and the leg fire is illegal. */
  lemma SendCompletesExactlyFromSendableLeg(w: World, l: LegId, input: SendInput, user: UserId)
    requires Inv(w) && SendAllowed(w, l, input)
    ensures SendForApproval(w, l, input, user).Done? <==> SendableLeg(w, l, input.quote)
    ensures SendForApproval(w, l, input, user).Wedged? <==> !SendableLeg(w, l, input.quote)
  {
    assert CaughtUp(w, l);
    SendQuoteFire(w, l, input.quote, user);
  }

  lemma CompletedSend(w: World, l: LegId, input: SendInput, user: UserId)
    requires Inv(w) && SendForApproval(w, l, input, user).Done?
    ensures SendAllowed(w, l, input) && IsSent(w, SendForApproval(w, l, input, user).world, l, input, user)
  {
    assert CaughtUp(w, l);
    SendQuoteFire(w, l, input.quote, user);
    BothFires(w, FireQuote(CommittedSend(w, l, input.quote, user), input.quote, SEND_FOR_APPROVAL).value, l, input, user);
  }

  lemma BothFires(w: World, moved: World, l: LegId, input: SendInput, user: UserId)
    requires l in w.legs && OnLeg(w, input.quote, l)
    requires QuoteMoved(CommittedSend(w, l, input.quote, user), moved, input.quote, PENDING_APPROVAL)
    requires LatestQuoteSend(moved.quoteLog, input.quote)
          == Some(QuoteEntry(input.quote, SEND_FOR_APPROVAL, w.quotes[input.quote].status, PENDING_APPROVAL))
    requires l in moved.legs && LegEdge(moved.legs[l], LEG_SEND_FOR_APPROVAL).Some?
    requires moved.legs[l] == FULLY_QUOTED <==> w.legs[l] == FULLY_QUOTED
    ensures FireLeg(moved, l, LEG_SEND_FOR_APPROVAL, SendPermission(w, l, input)).Some?
    ensures IsSent(w, FireLeg(moved, l, LEG_SEND_FOR_APPROVAL, SendPermission(w, l, input)).value, l, input, user)
  {
    SendLegFire(moved, l, SendPermission(w, l, input));
    assert moved.legs[l := LEG_PENDING] == w.legs[l := LEG_PENDING];
  }

  /** The leg fire of a send. */
  lemma SendLegFire(w: World, l: LegId, permission: Option<string>)
    requires l in w.legs && LegEdge(w.legs[l], LEG_SEND_FOR_APPROVAL).Some?
    ensures FireLeg(w, l, LEG_SEND_FOR_APPROVAL, permission).Some?
    ensures var w' := FireLeg(w, l, LEG_SEND_FOR_APPROVAL, permission).value;
      && w' == w.(legs := w.legs[l := LEG_PENDING], legLog := w'.legLog)
      && LatestSend(w'.legLog, l) == Some(LegEntry(l, LEG_SEND_FOR_APPROVAL, w.legs[l], LEG_PENDING, permission))
      && forall k :: k != l ==> LatestSend(w'.legLog, k) == LatestSend(w.legLog, k)
  {
    var entry := LegEntry(l, LEG_SEND_FOR_APPROVAL, w.legs[l], LEG_PENDING, permission);
    forall k
      ensures LatestSend(w.legLog + [entry], k) == if k == l then Some(entry) else LatestSend(w.legLog, k)
    {
      LogOther(w.legLog, entry, k);
    }
  }

  lemma SendKeepsInv(w: World, l: LegId, input: SendInput, user: UserId)
    requires Inv(w) && SendForApproval(w, l, input, user).Done?
    ensures Inv(SendForApproval(w, l, input, user).world)
    ensures SendAllowed(w, l, input) && IsSent(w, SendForApproval(w, l, input, user).world, l, input, user)
  {
    CompletedSend(w, l, input, user);
    SentKeepsInv(w, SendForApproval(w, l, input, user).world, l, input, user);
  }

  lemma SentKeepsInv(w: World, w': World, l: LegId, input: SendInput, user: UserId)
    requires Inv(w) && SendAllowed(w, l, input) && IsSent(w, w', l, input, user)
    ensures Inv(w')
  {
    var q := input.quote;
    assert LegAgrees(w, l) && QuoteAgrees(w, q);
    forall p
      ensures QuoteAgrees(w', p)
    {
      assert QuoteAgrees(w, p);
      if p in w.quotes {
        assert LegAgrees(w, w.quotes[p].leg);
      }
    }
    forall k
      ensures LegAgrees(w', k) && SendOnRecord(w', k) && CaughtUp(w', k)
    {
      assert LegAgrees(w, k) && SendOnRecord(w, k) && CaughtUp(w, k);
      if k != l {
        SameStatuses(w, w', k);
        if Stage(w, k) != DRAFT {
          WinnersAreUnderReview(w, k);
        }
      }
    }
  }

  // Approving.

  /** A pending decision of an unlocked query is always approvable by somebody who did not send it. */
  lemma PendingIsApprovable(w: World, l: LegId, user: UserId)
    requires Inv(w) && !Locked(w) && Stage(w, l) == PENDING && w.decisions[l].sentBy != Some(user)
    ensures Approve(w, l, user).Done?
  {
    assert SendOnRecord(w, l);
    WinnersAreUnderReview(w, l);
    var q := w.decisions[l].shortlisted.value;
    var committed := w.(decisions := w.decisions[l := w.decisions[l].(status := DECIDED)]);
    FireQuoteFrame(committed, q, APPROVE);
  }

  /** What a completed approval leaves. */
  ghost predicate IsApproved(w: World, w': World, l: LegId)
    requires Stage(w, l) != DRAFT && Shortlisted(w, l).Some? && Shortlisted(w, l).value in w.quotes && l in w.legs
  {
    var q := Shortlisted(w, l).value;
    && w'.decisions == w.decisions[l := w.decisions[l].(status := DECIDED)]
    && w'.quotes == w.quotes[q := w.quotes[q].(status := APPROVED)]
    && w'.snapshot == w.snapshot && w'.legs == w.legs[l := LEG_APPROVED]
    && (forall k :: LatestSend(w'.legLog, k) == LatestSend(w.legLog, k))
    && (forall p :: LatestQuoteSend(w'.quoteLog, p) == LatestQuoteSend(w.quoteLog, p))
  }

  lemma ApprovedResult(w: World, l: LegId, user: UserId)
    requires Inv(w) && Approve(w, l, user).Done?
    ensures !Locked(w) && Stage(w, l) == PENDING && l in w.legs && Shortlisted(w, l).Some? && OnLeg(w, Shortlisted(w, l).value, l)
    ensures IsApproved(w, Approve(w, l, user).world, l)
  {
    WinnersAreUnderReview(w, l);
    var q := w.decisions[l].shortlisted.value;
    var committed := w.(decisions := w.decisions[l := w.decisions[l].(status := DECIDED)]);
    FireQuoteFrame(committed, q, APPROVE);
    var moved := FireQuote(committed, q, APPROVE).value;
    FrozenLegStays(committed, q, APPROVE);
    FireLegFrame(moved, l, LEG_APPROVE, None);
    assert w.legs[l := LEG_APPROVED] == moved.legs[l := LEG_APPROVED];
  }

  /** A quote fire on a leg under review moves no leg. */
  lemma FrozenLegStays(w: World, q: QuoteId, e: QuoteEvent)
    requires q in w.quotes && w.quotes[q].leg in w.legs && LegUnderReview(w.legs[w.quotes[q].leg]) && FireQuote(w, q, e).Some?
    ensures FireQuote(w, q, e).value == SetQuote(w, q, e, QuoteEdge(w.quotes[q].status, e).value)
  {
  }

  lemma ApproveKeepsInv(w: World, l: LegId, user: UserId)
    requires Inv(w) && Approve(w, l, user).Done?
    ensures Inv(Approve(w, l, user).world)
  {
    ApprovedResult(w, l, user);
    ApprovedKeepsInv(w, Approve(w, l, user).world, l);
  }

  lemma ApprovedKeepsInv(w: World, w': World, l: LegId)
    requires Inv(w) && !Locked(w) && Stage(w, l) == PENDING && l in w.legs && Shortlisted(w, l).Some? && OnLeg(w, Shortlisted(w, l).value, l)
    requires IsApproved(w, w', l)
    ensures Inv(w')
  {
    assert LegAgrees(w, l) && QuoteAgrees(w, Shortlisted(w, l).value) && SendOnRecord(w, l);
    forall p
      ensures QuoteAgrees(w', p)
    {
      assert QuoteAgrees(w, p);
    }
    forall k
      ensures LegAgrees(w', k) && SendOnRecord(w', k) && CaughtUp(w', k)
    {
      assert LegAgrees(w, k) && SendOnRecord(w, k) && CaughtUp(w, k);
      if k != l {
        SameStatuses(w, w', k);
      }
    }
  }

  // Rejecting.

  /** The status a live decision's quote was sent from. */
  function SentQuoteStatus(w: World, q: QuoteId): QuoteStatus {
    if WasExpiredWhenSent(w, q) then EXPIRED else QUOTED
  }

  function ReturnedLegStatus(w: World, l: LegId): LegStatus {
    if FullyQuotedForDecision(w, l) then FULLY_QUOTED else PARTIALLY_QUOTED
  }

  /** The quote fire of a rejection is always legal: it is skipped unless the quote is under review. */
  lemma ReturnIsLegal(w: World, q: QuoteId)
    requires q in w.quotes && QuoteUnderReview(w.quotes[q].status)
    ensures QuoteEdge(w.quotes[q].status, ReturnEvent(w, q)) == Some(SentQuoteStatus(w, q))
  {
  }

  function WithoutDecision(w: World, l: LegId): World
    requires l in w.decisions
  {
    w.(decisions := w.decisions[l := w.decisions[l].(status := DRAFT, sentBy := None)])
  }

  /** The leg fire of a rejection is skipped unless the leg is under review, where it is legal. */
  lemma ReturnedLeg(w: World, l: LegId, full: bool, reason: string)
    requires l in w.legs && LegUnderReview(w.legs[l])
    ensures var e := if full then RETURN_FULL else RETURN_PARTIAL;
      FireLeg(w, l, e, Some(reason)).Some? && OnlyLegMoved(w, FireLeg(w, l, e, Some(reason)).value, l)
      && FireLeg(w, l, e, Some(reason)).value.legs[l] == if full then FULLY_QUOTED else PARTIALLY_QUOTED
  {
    FireLegFrame(w, l, if full then RETURN_FULL else RETURN_PARTIAL, Some(reason));
  }

  /** No send is logged, and no leg moves but this one and the one its shortlisted quote is on. */
  ghost predicate OthersUntouched(w: World, w': World, l: LegId) {
    && w'.legs.Keys == w.legs.Keys
    && (forall k :: k in w.legs && k != l && !(Shortlisted(w, l).Some? && OnLeg(w, Shortlisted(w, l).value, k)) ==> w'.legs[k] == w.legs[k])
    && (forall k :: LatestSend(w'.legLog, k) == LatestSend(w.legLog, k))
    && (forall p :: LatestQuoteSend(w'.quoteLog, p) == LatestQuoteSend(w.quoteLog, p))
  }

  /** What a rejection leaves, whatever it found. */
  ghost predicate IsRejectedFrom(w: World, w': World, l: LegId)
    requires l in w.legs && l in w.decisions
  {
    var q := Shortlisted(w, l);
    && w'.decisions == WithoutDecision(w, l).decisions && w'.snapshot == w.snapshot
    && w'.quotes == (if QuoteNeedsReturn(w, q) then w.quotes[q.value := w.quotes[q.value].(status := SentQuoteStatus(w, q.value))] else w.quotes)
    && l in w'.legs && !LegUnderReview(w'.legs[l]) && !QuoteNeedsReturn(w', q)
    && (LegUnderReview(w.legs[l]) ==> w'.legs[l] == ReturnedLegStatus(w, l))
    && OthersUntouched(w, w', l)
  }

  /** After the quote part of a rejection: the leg, if under review, is still there. */
  ghost predicate QuoteReturned(w: World, m: World, l: LegId)
    requires l in w.legs && l in w.decisions
  {
    var q := Shortlisted(w, l);
    && m.decisions == WithoutDecision(w, l).decisions && m.snapshot == w.snapshot
    && m.quotes == (if QuoteNeedsReturn(w, q) then w.quotes[q.value := w.quotes[q.value].(status := SentQuoteStatus(w, q.value))] else w.quotes)
    && l in m.legs && (if LegUnderReview(w.legs[l]) then m.legs[l] == w.legs[l] else !LegUnderReview(m.legs[l]))
    && OthersUntouched(w, m, l)
  }

  lemma QuotePart(w: World, l: LegId) returns (m: World)
    requires l in w.legs && l in w.decisions
    ensures var q := Shortlisted(w, l);
      if QuoteNeedsReturn(w, q) then FireQuote(WithoutDecision(w, l), q.value, ReturnEvent(w, q.value)) == Some(m) else m == WithoutDecision(w, l)
    ensures QuoteReturned(w, m, l)
  {
    var q := Shortlisted(w, l);
    m := WithoutDecision(w, l);
    if QuoteNeedsReturn(w, q) {
      ReturnIsLegal(w, q.value);
      FireQuoteFrame(m, q.value, ReturnEvent(w, q.value));
      m := FireQuote(m, q.value, ReturnEvent(w, q.value)).value;
    }
  }

  lemma LegPart(w: World, m: World, l: LegId, reason: string)
    requires l in w.legs && l in w.decisions && QuoteReturned(w, m, l)
    ensures var e := if FullyQuotedForDecision(w, l) then RETURN_FULL else RETURN_PARTIAL;
      if LegUnderReview(w.legs[l])
      then FireLeg(m, l, e, Some(reason)).Some? && IsRejectedFrom(w, FireLeg(m, l, e, Some(reason)).value, l)
      else IsRejectedFrom(w, m, l)
  {
    if LegUnderReview(w.legs[l]) {
      ReturnedLeg(m, l, FullyQuotedForDecision(w, l), reason);
    }
  }

  /** Rejection is the recovery path: from ANY state, whatever the rows of the leg are at, one that
      passes its guards completes. Its decision is a draft again, its quote, if it was under review, is
      back on the status it was sent from, and neither leg nor quote is under review any more. */
  lemma RejectAlwaysCompletes(w: World, l: LegId, reason: string, user: UserId)
    requires RejectAllowed(w, l, user)
    ensures Reject(w, l, reason, user).Done? && IsRejectedFrom(w, Reject(w, l, reason, user).world, l)
  {
    var m := QuotePart(w, l);
    LegPart(w, m, l, reason);
  }

  /** What a completed rejection leaves. */
  ghost predicate IsRejected(w: World, w': World, l: LegId)
    requires Stage(w, l) != DRAFT && Shortlisted(w, l).Some? && Shortlisted(w, l).value in w.quotes && l in w.legs
  {
    var q := Shortlisted(w, l).value;
    && w'.decisions == w.decisions[l := w.decisions[l].(status := DRAFT, sentBy := None)]
    && w'.quotes == w.quotes[q := w.quotes[q].(status := SentQuoteStatus(w, q))]
    && w'.snapshot == w.snapshot && w'.legs == w.legs[l := ReturnedLegStatus(w, l)]
    && (forall k :: LatestSend(w'.legLog, k) == LatestSend(w.legLog, k))
    && (forall p :: LatestQuoteSend(w'.quoteLog, p) == LatestQuoteSend(w.quoteLog, p))
  }

  /** A rejection that passes its guards always completes, and puts quote and leg back. */
  lemma RejectCompletes(w: World, l: LegId, reason: string, user: UserId)
    requires Inv(w) && RejectAllowed(w, l, user)
    ensures Stage(w, l) != DRAFT && l in w.legs && Shortlisted(w, l).Some? && OnLeg(w, Shortlisted(w, l).value, l)
    ensures Reject(w, l, reason, user).Done?
    ensures IsRejected(w, Reject(w, l, reason, user).world, l)
  {
    WinnersAreUnderReview(w, l);
    var q := w.decisions[l].shortlisted.value;
    var committed := w.(decisions := w.decisions[l := w.decisions[l].(status := DRAFT, sentBy := None)]);
    var e := ReturnEvent(w, q);
    FireQuoteFrame(committed, q, e);
    FrozenLegStays(committed, q, e);
    var moved := FireQuote(committed, q, e).value;
    FireLegFrame(moved, l, if FullyQuotedForDecision(w, l) then RETURN_FULL else RETURN_PARTIAL, Some(reason));
  }

  lemma RejectKeepsInv(w: World, l: LegId, reason: string, user: UserId)
    requires Inv(w) && Reject(w, l, reason, user).Done?
    ensures Inv(Reject(w, l, reason, user).world)
  {
    RejectCompletes(w, l, reason, user);
    RejectedKeepsInv(w, Reject(w, l, reason, user).world, l);
  }

  lemma RejectedKeepsInv(w: World, w': World, l: LegId)
    requires Inv(w) && !Locked(w) && Stage(w, l) != DRAFT && l in w.legs && Shortlisted(w, l).Some? && OnLeg(w, Shortlisted(w, l).value, l)
    requires IsRejected(w, w', l)
    ensures Inv(w')
  {
    var q := Shortlisted(w, l).value;
    WinnersAreUnderReview(w, l);
    forall p
      ensures QuoteAgrees(w', p)
    {
      assert QuoteAgrees(w, p);
    }
    forall k
      ensures LegAgrees(w', k) && SendOnRecord(w', k) && CaughtUp(w', k)
    {
      assert LegAgrees(w, k) && SendOnRecord(w, k) && CaughtUp(w, k);
      if k != l {
        SameStatuses(w, w', k);
      } else {
        SettledMoveKeepsFullness(w, w', q, l);
      }
    }
  }
}
