/** What every completed operation keeps: decision, leg and shortlisted quote agree. */
module AwardInvariant {
  import opened Wrappers
  import opened AwardMachines
  import opened AwardWorld

  /** A quote is under review exactly when its leg's decision is live and names it, and then both are
      at the same stage. */
  ghost predicate QuoteAgrees(w: World, q: QuoteId) {
    q in w.quotes ==>
      var l := w.quotes[q].leg;
      && l in w.legs
      && (w.quotes[q].status == PENDING_APPROVAL <==> Stage(w, l) == PENDING && Shortlisted(w, l) == Some(q))
      && (w.quotes[q].status == APPROVED <==> Stage(w, l) == DECIDED && Shortlisted(w, l) == Some(q))
  }

  /** A live decision names a quote of its leg, and leg and decision are at the same stage. */
  ghost predicate LegAgrees(w: World, l: LegId) {
    && (l in w.decisions ==> l in w.legs)
    && (l in w.legs ==>
      && (w.legs[l] == LEG_PENDING <==> Stage(w, l) == PENDING)
      && (w.legs[l] == LEG_APPROVED <==> Stage(w, l) == DECIDED)
      && (Stage(w, l) != DRAFT ==> Shortlisted(w, l).Some? && OnLeg(w, Shortlisted(w, l).value, l)))
  }

  /** The send that put the leg under review is on record, with the status it left and, unless that
      was FULLY_QUOTED, the permission it was sent under. */
  ghost predicate SendOnRecord(w: World, l: LegId) {
    Stage(w, l) != DRAFT ==>
      var sent := LatestSend(w.legLog, l);
      && sent.Some?
      && (sent.value.from == FULLY_QUOTED || sent.value.from == PARTIALLY_QUOTED)
      && (sent.value.reason.None? <==> sent.value.from == FULLY_QUOTED)
      && Shortlisted(w, l).Some?
      && LatestQuoteSend(w.quoteLog, Shortlisted(w, l).value).Some?
      && Sendable(LatestQuoteSend(w.quoteLog, Shortlisted(w, l).value).value.from)
  }

  /** The leg row does not lag: a leg whose quotes are all settled is not left waiting. */
  ghost predicate CaughtUp(w: World, l: LegId) {
    l in w.legs && (w.legs[l] == LEG_RFQ_SENT || w.legs[l] == PARTIALLY_QUOTED) ==> Rollup(w, l) != Some(FULLY_QUOTED)
  }

  /** While the award is frozen it names, for every leg, the quote the leg is approved for. */
  ghost predicate SnapshotAgrees(w: World) {
    w.snapshot.Some? ==>
      && w.snapshot.value.Keys == w.legs.Keys
      && forall l :: l in w.legs ==> Stage(w, l) == DECIDED && Shortlisted(w, l) == Some(w.snapshot.value[l])
  }

  ghost predicate Inv(w: World) {
    && (forall q {:trigger QuoteAgrees(w, q)} :: QuoteAgrees(w, q))
    && (forall l {:trigger LegAgrees(w, l)} :: LegAgrees(w, l))
    && (forall l {:trigger SendOnRecord(w, l)} :: SendOnRecord(w, l))
    && (forall l {:trigger CaughtUp(w, l)} :: CaughtUp(w, l))
    && SnapshotAgrees(w)
  }

  // Frames.

  /** Only the leg row and its log can differ. */
  ghost predicate OnlyLegMoved(w: World, w': World, l: LegId) {
    && w'.quotes == w.quotes && w'.decisions == w.decisions && w'.quoteLog == w.quoteLog && w'.snapshot == w.snapshot
    && w'.legs.Keys == w.legs.Keys
    && (forall k :: k in w.legs && k != l ==> w'.legs[k] == w.legs[k])
    && (forall k :: LatestSend(w'.legLog, k) == LatestSend(w.legLog, k))
  }

  lemma LogOther(log: seq<LegEntry>, e: LegEntry, k: LegId)
    ensures LatestSend(log + [e], k)
         == if e.leg == k && e.event == LEG_SEND_FOR_APPROVAL && e.to == LEG_PENDING then Some(e) else LatestSend(log, k)
  {
    assert (log + [e])[..|log|] == log;
  }

  lemma QuoteLogOther(log: seq<QuoteEntry>, e: QuoteEntry, p: QuoteId)
    ensures LatestQuoteSend(log + [e], p)
         == if e.quote == p && e.event == SEND_FOR_APPROVAL && e.to == PENDING_APPROVAL then Some(e) else LatestQuoteSend(log, p)
  {
    assert (log + [e])[..|log|] == log;
  }

  lemma FireLegFrame(w: World, l: LegId, e: LegEvent, reason: Option<string>)
    requires l in w.legs && e != LEG_SEND_FOR_APPROVAL && FireLeg(w, l, e, reason).Some?
    ensures OnlyLegMoved(w, FireLeg(w, l, e, reason).value, l)
  {
    var entry := LegEntry(l, e, w.legs[l], LegEdge(w.legs[l], e).value, reason);
    forall k
      ensures LatestSend(w.legLog + [entry], k) == LatestSend(w.legLog, k)
    {
      LogOther(w.legLog, entry, k);
    }
  }

  /** The projector moves nothing but the leg, never a leg under review, never onto a review status;
      and it leaves the leg caught up. */
  lemma RecomputeFrame(w: World, l: LegId, requote: bool)
    ensures OnlyLegMoved(w, RecomputeLeg(w, l, requote), l)
    ensures l in w.legs && LegUnderReview(w.legs[l]) ==> RecomputeLeg(w, l, requote) == w
    ensures l in w.legs && !LegUnderReview(w.legs[l]) ==> !LegUnderReview(RecomputeLeg(w, l, requote).legs[l])
    ensures CaughtUp(RecomputeLeg(w, l, requote), l)
  {
    if l in w.legs && !LegUnderReview(w.legs[l]) {
      forall e | e in {QUOTE_FULL, QUOTE_PARTIAL, REQUOTE_PARTIAL, REQUOTE_OUTSTANDING} && FireLeg(w, l, e, None).Some?
        ensures OnlyLegMoved(w, FireLeg(w, l, e, None).value, l)
      {
        FireLegFrame(w, l, e, None);
      }
    }
  }

  /** A quote fire changes that quote's status, its log, and its leg's row by the projector. */
  ghost predicate QuoteMoved(w: World, w': World, q: QuoteId, to: QuoteStatus)
    requires q in w.quotes
  {
    && w'.quotes == w.quotes[q := w.quotes[q].(status := to)]
    && w'.decisions == w.decisions && w'.snapshot == w.snapshot
    && w'.legs.Keys == w.legs.Keys
    && (forall k :: k in w.legs && (k != w.quotes[q].leg || LegUnderReview(w.legs[k])) ==> w'.legs[k] == w.legs[k])
    && (forall k :: k in w.legs && !LegUnderReview(w.legs[k]) ==> !LegUnderReview(w'.legs[k]))
    && (forall k :: LatestSend(w'.legLog, k) == LatestSend(w.legLog, k))
    && (forall p :: p != q ==> LatestQuoteSend(w'.quoteLog, p) == LatestQuoteSend(w.quoteLog, p))
    && CaughtUp(w', w.quotes[q].leg)
  }

  lemma FireQuoteFrame(w: World, q: QuoteId, e: QuoteEvent)
    requires q in w.quotes && FireQuote(w, q, e).Some?
    ensures QuoteMoved(w, FireQuote(w, q, e).value, q, QuoteEdge(w.quotes[q].status, e).value)
    ensures LatestQuoteSend(FireQuote(w, q, e).value.quoteLog, q)
         == if e == SEND_FOR_APPROVAL then Some(QuoteEntry(q, e, w.quotes[q].status, PENDING_APPROVAL)) else LatestQuoteSend(w.quoteLog, q)
  {
    var to := QuoteEdge(w.quotes[q].status, e).value;
    var entry := QuoteEntry(q, e, w.quotes[q].status, to);
    forall p
      ensures LatestQuoteSend(w.quoteLog + [entry], p)
           == if e == SEND_FOR_APPROVAL && p == q then Some(entry) else LatestQuoteSend(w.quoteLog, p)
    {
      QuoteLogOther(w.quoteLog, entry, p);
    }
    RecomputeFrame(SetQuote(w, q, e, to), w.quotes[q].leg, to == REQUOTED);
  }

  lemma SameStatuses(w: World, w': World, k: LegId)
    requires forall p :: OnLeg(w, p, k) <==> OnLeg(w', p, k)
    requires forall p :: OnLeg(w, p, k) ==> p in w'.quotes && w.quotes[p].status == w'.quotes[p].status
    ensures StatusesOn(w, k) == StatusesOn(w', k)
  {
    forall s
      ensures s in StatusesOn(w, k) <==> s in StatusesOn(w', k)
    {
      if s in StatusesOn(w, k) {
        var p :| p in w.quotes && w.quotes[p].leg == k && w.quotes[p].status == s;
        assert OnLeg(w, p, k);
      }
      if s in StatusesOn(w', k) {
        var p :| p in w'.quotes && w'.quotes[p].leg == k && w'.quotes[p].status == s;
        assert OnLeg(w', p, k);
      }
    }
  }

  /** A quote's fire leaves the other legs as caught up as they were. */
  lemma OthersStayCaughtUp(w: World, w': World, q: QuoteId, to: QuoteStatus, k: LegId)
    requires q in w.quotes && QuoteMoved(w, w', q, to) && CaughtUp(w, k) && k != w.quotes[q].leg
    ensures CaughtUp(w', k)
  {
    SameStatuses(w, w', k);
  }

  /** Any fire of a quote outside review, to a status outside review, keeps the invariant. */
  lemma QuietQuoteFire(w: World, q: QuoteId, e: QuoteEvent)
    requires Inv(w) && q in w.quotes && FireQuote(w, q, e).Some?
    requires !QuoteUnderReview(w.quotes[q].status) && !QuoteUnderReview(QuoteEdge(w.quotes[q].status, e).value)
    ensures Inv(FireQuote(w, q, e).value)
  {
    var w', to := FireQuote(w, q, e).value, QuoteEdge(w.quotes[q].status, e).value;
    FireQuoteFrame(w, q, e);
    QuietMoveKeepsInv(w, w', q, to);
  }

  lemma QuietMoveKeepsInv(w: World, w': World, q: QuoteId, to: QuoteStatus)
    requires Inv(w) && q in w.quotes && QuoteMoved(w, w', q, to)
    requires LatestQuoteSend(w'.quoteLog, q) == LatestQuoteSend(w.quoteLog, q)
    requires !QuoteUnderReview(w.quotes[q].status) && !QuoteUnderReview(to)
    ensures Inv(w')
  {
    assert QuoteAgrees(w, q);
    forall p
      ensures QuoteAgrees(w', p)
    {
      assert QuoteAgrees(w, p);
    }
    forall k
      ensures LegAgrees(w', k) && SendOnRecord(w', k) && CaughtUp(w', k)
    {
      assert LegAgrees(w, k) && SendOnRecord(w, k) && CaughtUp(w, k);
      if k != w.quotes[q].leg {
        OthersStayCaughtUp(w, w', q, to, k);
      }
    }
  }
}
