/** The change-order cascade, freezing and reopening keep the award invariant. */
module AwardChange {
  import opened Wrappers
  import opened AwardMachines
  import opened AwardWorld
  import opened AwardInvariant

  /** Only leg l, the statuses of its quotes and the logs moved, and no send was logged. */
  ghost predicate LegQuotesMoved(w: World, w': World, l: LegId) {
    && w'.decisions == w.decisions && w'.snapshot == w.snapshot
    && w'.legs.Keys == w.legs.Keys && w'.quotes.Keys == w.quotes.Keys
    && (forall q :: q in w.quotes ==> w'.quotes[q].leg == w.quotes[q].leg)
    && (forall q :: q in w.quotes && w.quotes[q].leg != l ==> w'.quotes[q] == w.quotes[q])
    && (forall k :: k in w.legs && k != l ==> w'.legs[k] == w.legs[k])
    && (forall k :: LatestSend(w'.legLog, k) == LatestSend(w.legLog, k))
    && (forall p :: LatestQuoteSend(w'.quoteLog, p) == LatestQuoteSend(w.quoteLog, p))
  }

  lemma {:induction false} InvalidateAllMoves(w: World, batch: seq<QuoteId>, l: LegId)
    requires InvalidateAll(w, batch).Some? && forall q :: q in batch ==> OnLeg(w, q, l)
    ensures LegQuotesMoved(w, InvalidateAll(w, batch).value, l)
    ensures forall q :: q in w.quotes && q !in batch ==> InvalidateAll(w, batch).value.quotes[q] == w.quotes[q]
    ensures forall q :: q in batch && q in w.quotes ==> InvalidateAll(w, batch).value.quotes[q].status == INVALID
    decreases |batch|
  {
    if batch != [] {
      var q, rest := batch[0], batch[1..];
      assert q in batch;
      var w1 := FireQuote(w, q, INVALIDATE).value;
      FireQuoteFrame(w, q, INVALIDATE);
      assert forall p :: p in rest ==> p in batch;
      InvalidateAllMoves(w1, rest, l);
      assert forall p :: p in batch <==> p == q || p in rest;
    }
  }

  /** The cascade leaves no offer of the leg standing, reopens the leg and clears its decision. */
  ghost predicate IsReopened(w: World, w': World, l: LegId) {
    && l in w.legs && w'.legs.Keys == w.legs.Keys && w'.quotes.Keys == w.quotes.Keys && w'.snapshot == w.snapshot
    && (w'.legs[l] == READY_FOR_RFQ || w'.legs[l] == DRAFT_LEG)
    && (forall k :: k in w.legs && k != l ==> w'.legs[k] == w.legs[k])
    && (forall q :: q in w.quotes ==> w'.quotes[q].leg == w.quotes[q].leg)
    && (forall q :: q in w.quotes && w.quotes[q].leg != l ==> w'.quotes[q] == w.quotes[q])
    && (forall q :: q in w.quotes && w.quotes[q].leg == l ==> !InvalidatedByChangeOrder(w'.quotes[q]))
    && w'.decisions == (if l in w.decisions then w.decisions[l := Decision(DRAFT, None, None)] else w.decisions)
    && (forall k :: LatestSend(w'.legLog, k) == LatestSend(w.legLog, k))
    && (forall p :: LatestQuoteSend(w'.quoteLog, p) == LatestQuoteSend(w.quoteLog, p))
  }

  lemma ChangeOrderReopens(w: World, l: LegId, batch: seq<QuoteId>)
    requires ChangeOrder(w, l, batch).Done?
    ensures IsReopened(w, ChangeOrder(w, l, batch).world, l)
  {
    var undone := InvalidateAll(w, batch).value;
    InvalidateAllMoves(w, batch, l);
    FireLegFrame(undone, l, REOPEN, None);
    forall q | q in w.quotes && w.quotes[q].leg == l
      ensures !InvalidatedByChangeOrder(undone.quotes[q])
    {
      if q !in batch {
        assert undone.quotes[q] == w.quotes[q];
      }
    }
  }

  lemma ReopenedKeepsInv(w: World, w': World, l: LegId)
    requires Inv(w) && !Locked(w) && IsReopened(w, w', l)
    ensures Inv(w')
  {
    assert LegAgrees(w, l);
    forall p
      ensures QuoteAgrees(w', p)
    {
      assert QuoteAgrees(w, p);
    }
    forall k
      ensures LegAgrees(w', k) && SendOnRecord(w', k) && CaughtUp(w', k)
    {
      assert LegAgrees(w, k) && SendOnRecord(w, k) && CaughtUp(w, k);
      if k != l {
        SameStatuses(w, w', k);
      }
    }
  }

  lemma ChangeOrderKeepsInv(w: World, l: LegId, batch: seq<QuoteId>)
    requires Inv(w) && ChangeOrder(w, l, batch).Done?
    ensures Inv(ChangeOrder(w, l, batch).world)
  {
    ChangeOrderReopens(w, l, batch);
    ReopenedKeepsInv(w, ChangeOrder(w, l, batch).world, l);
  }

  lemma SnapshotStepKeepsInv(w: World, w': World)
    requires Inv(w) && w' == w.(snapshot := w'.snapshot) && SnapshotAgrees(w')
    ensures Inv(w')
  {
    forall q
      ensures QuoteAgrees(w', q)
    {
      assert QuoteAgrees(w, q);
    }
    forall k
      ensures LegAgrees(w', k) && SendOnRecord(w', k) && CaughtUp(w', k)
    {
      assert LegAgrees(w, k) && SendOnRecord(w, k) && CaughtUp(w, k);
      SameStatuses(w, w', k);
    }
  }

  lemma GenerateAndReopenKeepInv(w: World, priceable: bool)
    requires Inv(w)
    ensures GenerateClientQuote(w, priceable).Done? ==> Inv(GenerateClientQuote(w, priceable).world)
    ensures ReopenComparison(w).Done? ==> Inv(ReopenComparison(w).world)
  {
    if GenerateClientQuote(w, priceable).Done? {
      var w' := GenerateClientQuote(w, priceable).world;
      assert SnapshotAgrees(w') by {
        assert w'.snapshot.value.Keys == w.legs.Keys;
      }
      SnapshotStepKeepsInv(w, w');
    }
    if ReopenComparison(w).Done? {
      SnapshotStepKeepsInv(w, ReopenComparison(w).world);
    }
  }
}
