/** When each award operation goes through, and the rows it then leaves, field by field. */
module AwardExactly {
  import opened Wrappers
  import opened AwardMachines
  import opened AwardWorld
  import opened AwardInvariant
  import opened AwardOperations
  import opened AwardChange
  import opened AwardRuns

  // The projector.

  ghost predicate SomeDistributed(w: World, l: LegId) {
    exists q :: q in w.quotes && w.quotes[q].leg == l && w.quotes[q].status != SELECT
  }

  ghost predicate SomeQuoted(w: World, l: LegId) {
    exists q :: q in w.quotes && w.quotes[q].leg == l && w.quotes[q].status == QUOTED
  }

  /** Nobody who was asked still owes an answer. */
  ghost predicate NoneAwaited(w: World, l: LegId) {
    forall q :: q in w.quotes && w.quotes[q].leg == l
      ==> w.quotes[q].status != RFQ_SENT && w.quotes[q].status != REQUOTED && w.quotes[q].status != INVALID
  }

  /** The leg row that fits the quotes: up to FULLY_QUOTED once everybody has answered, to
      PARTIALLY_QUOTED at the first offer, and back again only after a re-quote. */
  ghost function FittingRow(w: World, l: LegId, requote: bool): LegStatus
    requires l in w.legs
  {
    var s := w.legs[l];
    if s == LEG_RFQ_SENT && SomeDistributed(w, l) && NoneAwaited(w, l) then FULLY_QUOTED
    else if s == PARTIALLY_QUOTED && SomeDistributed(w, l) && NoneAwaited(w, l) then FULLY_QUOTED
    else if s == LEG_RFQ_SENT && SomeQuoted(w, l) then PARTIALLY_QUOTED
    else if requote && s == FULLY_QUOTED && SomeDistributed(w, l) && !NoneAwaited(w, l) && SomeQuoted(w, l) then PARTIALLY_QUOTED
    else if requote && (s == FULLY_QUOTED || s == PARTIALLY_QUOTED) && SomeDistributed(w, l) && !NoneAwaited(w, l) && !SomeQuoted(w, l)
    then LEG_RFQ_SENT
    else s
  }

  lemma StatusIsThere(w: World, l: LegId, q: QuoteId)
    requires q in w.quotes && w.quotes[q].leg == l
    ensures w.quotes[q].status in StatusesOn(w, l)
  {
  }

  lemma RollupReads(w: World, l: LegId)
    ensures StatusesOn(w, l) - {SELECT} != {} <==> SomeDistributed(w, l)
    ensures QUOTED in StatusesOn(w, l) - {SELECT} <==> SomeQuoted(w, l)
    ensures (forall s :: s in StatusesOn(w, l) - {SELECT} ==> Resolved(s)) <==> NoneAwaited(w, l)
  {
    forall q | q in w.quotes && w.quotes[q].leg == l
      ensures w.quotes[q].status in StatusesOn(w, l)
    {
      StatusIsThere(w, l, q);
    }
    if q :| q in w.quotes && w.quotes[q].leg == l && w.quotes[q].status != SELECT {
      assert w.quotes[q].status in StatusesOn(w, l) - {SELECT};
    }
    if forall s :: s in StatusesOn(w, l) - {SELECT} ==> Resolved(s) {
      forall q | q in w.quotes && w.quotes[q].leg == l
        ensures w.quotes[q].status != RFQ_SENT && w.quotes[q].status != REQUOTED && w.quotes[q].status != INVALID
      {
        assert w.quotes[q].status == SELECT || w.quotes[q].status in StatusesOn(w, l) - {SELECT};
      }
    }
  }

  /** What the rollup says, in those terms. */
  lemma RollupIs(w: World, l: LegId)
    ensures Rollup(w, l) == if !SomeDistributed(w, l) then None
                            else if NoneAwaited(w, l) then Some(FULLY_QUOTED)
                            else if SomeQuoted(w, l) then Some(PARTIALLY_QUOTED) else None
    ensures StatusesOn(w, l) - {SELECT} != {} <==> SomeDistributed(w, l)
    ensures SomeQuoted(w, l) ==> SomeDistributed(w, l)
  {
    RollupReads(w, l);
  }

  /** The projector puts the leg on the row that fits its quotes, and moves nothing else. */
  lemma ProjectorFits(w: World, l: LegId, requote: bool)
    requires l in w.legs
    ensures RecomputeLeg(w, l, requote).legs == w.legs[l := FittingRow(w, l, requote)]
  {
    RollupIs(w, l);
    assert w.legs[l := w.legs[l]] == w.legs;
  }

  /** A quote fire: that quote's status, the rows that fit, and nothing else but logs. */
  ghost predicate QuoteSet(w: World, w': World, q: QuoteId, row: Quote, requote: bool)
    requires q in w.quotes
  {
    var l := w.quotes[q].leg;
    && w'.quotes == w.quotes[q := row] && w'.decisions == w.decisions && w'.snapshot == w.snapshot
    && w'.legs == if l in w.legs then w.legs[l := FittingRow(w.(quotes := w.quotes[q := row]), l, requote)] else w.legs
  }

  lemma FittingReadsRows(w: World, w': World, l: LegId, requote: bool)
    requires l in w.legs && l in w'.legs && w.legs[l] == w'.legs[l] && w.quotes == w'.quotes
    ensures FittingRow(w, l, requote) == FittingRow(w', l, requote)
  {
    assert SomeDistributed(w, l) == SomeDistributed(w', l);
    assert SomeQuoted(w, l) == SomeQuoted(w', l);
    assert NoneAwaited(w, l) == NoneAwaited(w', l);
  }

  lemma QuoteFires(w: World, q: QuoteId, e: QuoteEvent)
    requires q in w.quotes && QuoteEdge(w.quotes[q].status, e).Some?
    ensures var to := QuoteEdge(w.quotes[q].status, e).value;
      FireQuote(w, q, e).Some? && QuoteSet(w, FireQuote(w, q, e).value, q, w.quotes[q].(status := to), to == REQUOTED)
  {
    var to, l := QuoteEdge(w.quotes[q].status, e).value, w.quotes[q].leg;
    var moved := SetQuote(w, q, e, to);
    FireQuoteFrame(w, q, e);
    if l in w.legs {
      ProjectorFits(moved, l, to == REQUOTED);
      FittingReadsRows(moved, w.(quotes := moved.quotes), l, to == REQUOTED);
    }
  }

  // The portal and the sweep.

  /** An offer can be handed in exactly while it is asked for and its leg is not approved for another;
      it is then QUOTED, with its offer. */
  lemma SubmitExactly(w: World, q: QuoteId)
    ensures Submit(w, q).Refused?
       <==> !(q in w.quotes && (w.quotes[q].status == RFQ_SENT || w.quotes[q].status == REQUOTED)
              && (w.quotes[q].leg in w.decisions && w.decisions[w.quotes[q].leg].status == DECIDED
                  ==> w.decisions[w.quotes[q].leg].shortlisted == Some(q)))
    ensures !Submit(w, q).Refused? ==>
      Submit(w, q).Done? && QuoteSet(w, Submit(w, q).world, q, Quote(w.quotes[q].leg, QUOTED, true), false)
  {
    if !Submit(w, q).Refused? {
      var stored := w.(quotes := w.quotes[q := w.quotes[q].(submitted := true)]);
      QuoteFires(stored, q, SUBMIT);
      var row := Quote(w.quotes[q].leg, QUOTED, true);
      assert stored.quotes[q := row] == w.quotes[q := row];
      if w.quotes[q].leg in w.legs {
        FittingReadsRows(stored.(quotes := stored.quotes[q := row]), w.(quotes := w.quotes[q := row]), w.quotes[q].leg, false);
      }
    }
  }

  /** A window that closes expires exactly the quotes still asked for. */
  lemma ExpireExactly(w: World, q: QuoteId)
    ensures Expire(w, q).Refused? <==> !(q in w.quotes && (w.quotes[q].status == RFQ_SENT || w.quotes[q].status == REQUOTED))
    ensures !Expire(w, q).Refused? ==> Expire(w, q).Done? && QuoteSet(w, Expire(w, q).world, q, w.quotes[q].(status := EXPIRED), false)
  {
    if !Expire(w, q).Refused? {
      QuoteFires(w, q, EXPIRE);
    }
  }

  // Sending.

  /** A forwarder of the leg was asked and has not answered, and the sender gave no reason to go on
      without its re-quote. */
  ghost predicate Awaits(w: World, l: LegId, input: SendInput, q: QuoteId) {
    && q in w.quotes && w.quotes[q].leg == l
    && (w.quotes[q].status == RFQ_SENT || w.quotes[q].status == INVALID || (w.quotes[q].status == REQUOTED && input.proceedReason == None))
  }

  ghost predicate RequoteAsked(w: World, l: LegId) {
    exists q :: q in w.quotes && w.quotes[q].leg == l && w.quotes[q].status == REQUOTED
  }

  /** The offer itself: handed in on this leg, priced, and QUOTED or EXPIRED. */
  ghost predicate OfferStands(w: World, l: LegId, input: SendInput) {
    && input.quote in w.quotes && w.quotes[input.quote].leg == l && w.quotes[input.quote].submitted && input.priced
    && (w.quotes[input.quote].status == QUOTED || w.quotes[input.quote].status == EXPIRED)
  }

  /** Nobody is left to wait for: the leg is fully quoted; or every awaited window has closed, and there
      is one, or a re-quote the sender has a reason to go on without. */
  ghost predicate WaitingIsOver(w: World, l: LegId, input: SendInput)
    requires l in w.legs
  {
    || w.legs[l] == FULLY_QUOTED
    || ((forall q :: Awaits(w, l, input, q) ==> q in input.windowClosed)
        && ((exists q :: Awaits(w, l, input, q)) || (RequoteAsked(w, l) && input.proceedReason != None)))
  }

  lemma AwaitedAreWaitedOn(w: World, l: LegId, input: SendInput, q: QuoteId)
    ensures q in WaitedOn(w, l, ProceedOverride(w, l, input)) <==> Awaits(w, l, input, q)
  {
    if q in w.quotes && w.quotes[q].leg == l && w.quotes[q].status == REQUOTED {
      assert RequoteInFlight(w, l);
    }
  }

  lemma WaitingExactly(w: World, l: LegId, input: SendInput)
    requires l in w.legs
    ensures MayStopWaiting(w, l, input) <==> WaitingIsOver(w, l, input)
  {
    var waitedOn := WaitedOn(w, l, ProceedOverride(w, l, input));
    forall q
      ensures q in waitedOn <==> Awaits(w, l, input, q)
    {
      AwaitedAreWaitedOn(w, l, input, q);
    }
  }

  /** A send goes past its guards exactly when the query is not frozen, the leg has no live decision,
      the offer stands and is justified, a re-quote under way is not passed over without a reason, and
      waiting is over. */
  lemma SendExactly(w: World, l: LegId, input: SendInput, user: UserId)
    ensures !SendForApproval(w, l, input, user).Refused?
       <==> w.snapshot == None && l in w.legs && (l in w.decisions ==> w.decisions[l].status == DRAFT)
            && OfferStands(w, l, input) && input.justified
            && (RequoteAsked(w, l) ==> input.proceedReason != None) && WaitingIsOver(w, l, input)
  {
    if l in w.legs {
      WaitingExactly(w, l, input);
    }
  }

  /** While a forwarder's window is open, nobody sends from a leg that is not fully quoted. */
  lemma OpenWindowBlocksSend(w: World, l: LegId, input: SendInput, user: UserId, q: QuoteId)
    requires l in w.legs && w.legs[l] != FULLY_QUOTED && Awaits(w, l, input, q) && q !in input.windowClosed
    ensures SendForApproval(w, l, input, user) == Refused
  {
    SendExactly(w, l, input, user);
  }

  /** What a send puts on record: no permission from a fully quoted leg; else the sender's reason for
      passing over a re-quote, or that the windows had closed. */
  lemma SendIsExplained(w: World, l: LegId, input: SendInput, user: UserId)
    requires Inv(w) && SendForApproval(w, l, input, user).Done?
    ensures l in w.legs && LatestSend(SendForApproval(w, l, input, user).world.legLog, l).Some?
    ensures var reason := LatestSend(SendForApproval(w, l, input, user).world.legLog, l).value.reason;
      && (w.legs[l] == FULLY_QUOTED ==> reason == None)
      && (w.legs[l] != FULLY_QUOTED && RequoteAsked(w, l) ==> reason == input.proceedReason && reason != None)
      && (w.legs[l] != FULLY_QUOTED && !RequoteAsked(w, l) ==> reason == Some(DEADLINE_PERMISSION))
  {
    CompletedSend(w, l, input, user);
    SendExactly(w, l, input, user);
  }

  // Rejecting and asking again.

  /** A rejection goes through exactly when the query is not frozen and the decision is approved, or
      pending and sent by somebody else: nobody takes back their own send. */
  lemma RejectExactly(worlds: seq<World>, steps: seq<Step>, i: nat, l: LegId, reason: string, user: UserId)
    requires IsRunWithStops(worlds, steps) && i < |worlds|
    ensures var w := worlds[i];
      Reject(w, l, reason, user).Done?
      <==> w.snapshot == None && l in w.decisions
           && (w.decisions[l].status == DECIDED || (w.decisions[l].status == PENDING && w.decisions[l].sentBy != Some(user)))
    ensures !Reject(worlds[i], l, reason, user).Done? ==> Reject(worlds[i], l, reason, user) == Refused
  {
    LegsStay(worlds, steps, i);
    if RejectAllowed(worlds[i], l, user) {
      RejectAlwaysCompletes(worlds[i], l, reason, user);
    }
  }

  /** A re-quote is asked for exactly on an answered quote of a leg without a live decision, in a query
      that is not frozen. It leaves the quote REQUOTED, the decision blank and the leg on what fits. */
  lemma RequoteExactly(w: World, l: LegId, q: QuoteId)
    requires Inv(w)
    ensures RequestRequote(w, l, q).Done?
       <==> w.snapshot == None && q in w.quotes && w.quotes[q].leg == l
            && (l in w.decisions ==> w.decisions[l].status == DRAFT) && (w.quotes[q].status == QUOTED || w.quotes[q].status == EXPIRED)
    ensures RequestRequote(w, l, q).Done? ==>
      var w' := RequestRequote(w, l, q).world;
      && QuoteSet(w, w'.(decisions := w.decisions), q, w.quotes[q].(status := REQUOTED), true)
      && w'.decisions == if l in w.decisions then w.decisions[l := Decision(DRAFT, None, None)] else w.decisions
  {
    assert QuoteAgrees(w, q) && LegAgrees(w, l);
    if RequoteAllowed(w, l, q) {
      QuoteFires(w, q, REQUEST_REQUOTE);
    }
  }

  // Freezing.

  /** The award is frozen exactly when every leg, and there is one, is approved for a quote that exists
      and the winners can be priced; it then names those quotes. */
  lemma GenerateExactly(w: World, priceable: bool)
    ensures !GenerateClientQuote(w, priceable).Refused?
       <==> w.snapshot == None && w.legs != map[] && priceable
            && forall l :: l in w.legs ==>
                 l in w.decisions && w.decisions[l].status == DECIDED && w.decisions[l].shortlisted.Some? && w.decisions[l].shortlisted.value in w.quotes
    ensures !GenerateClientQuote(w, priceable).Refused? ==>
      && GenerateClientQuote(w, priceable).Done?
      && var w' := GenerateClientQuote(w, priceable).world;
         && w' == w.(snapshot := w'.snapshot) && w'.snapshot.Some? && w'.snapshot.value.Keys == w.legs.Keys
         && forall l :: l in w.legs ==> w.decisions[l].shortlisted == Some(w'.snapshot.value[l])
  {
    forall l
      ensures Stage(w, l) == DECIDED && Shortlisted(w, l).Some? && Shortlisted(w, l).value in w.quotes
         <==> l in w.decisions && w.decisions[l].status == DECIDED && w.decisions[l].shortlisted.Some? && w.decisions[l].shortlisted.value in w.quotes
    {
    }
  }

  // Distributing, and the change order.

  /** Distributing sends exactly the leg's fresh and invalidated quotes, their old offers gone, and takes
      a ready leg along. */
  lemma DistributeExactly(w: World, l: LegId, batch: seq<QuoteId>)
    requires Inv(w) && Distribute(w, l, batch).Done?
    ensures var w' := Distribute(w, l, batch).world;
      && w'.quotes.Keys == w.quotes.Keys && w'.decisions == w.decisions && w'.snapshot == None
      && (forall q :: q in w.quotes ==>
            w'.quotes[q] == if w.quotes[q].leg == l && (w.quotes[q].status == SELECT || w.quotes[q].status == INVALID)
                            then Quote(l, RFQ_SENT, false) else w.quotes[q])
      && l in w.legs && l in w'.legs && (w.legs[l] == READY_FOR_RFQ ==> w'.legs[l] == LEG_RFQ_SENT)
      && (forall k :: k in w.legs && k != l ==> k in w'.legs && w'.legs[k] == w.legs[k])
  {
    var cleared := OffersCleared(w, batch);
    OffersDoNotMatter(w, cleared);
    SendAllKeepsInv(cleared, batch, l);
    SendAllClearsOffers(cleared, batch);
    forall q | q in w.quotes
      ensures q in batch <==> w.quotes[q].leg == l && (w.quotes[q].status == SELECT || w.quotes[q].status == INVALID)
    {
      assert Distributable(w, l, q) <==> w.quotes[q].leg == l && (w.quotes[q].status == SELECT || w.quotes[q].status == INVALID);
    }
  }

  lemma {:induction false} SendAllClearsOffers(w: World, batch: seq<QuoteId>)
    requires SendAll(w, batch).Some?
    ensures SendAll(w, batch).value.quotes.Keys == w.quotes.Keys
    ensures forall q :: q in w.quotes ==> SendAll(w, batch).value.quotes[q].submitted == w.quotes[q].submitted
    decreases |batch|
  {
    if batch != [] {
      FireQuoteFrame(w, batch[0], SEND);
      SendAllClearsOffers(FireQuote(w, batch[0], SEND).value, batch[1..]);
    }
  }

  /** A change order invalidates exactly what the leg's forwarders had committed to: offers standing or
      under review, and expired ones that carry an offer. The leg waits to be sent out again, with a
      blank decision. */
  lemma ChangeOrderExactly(w: World, l: LegId, batch: seq<QuoteId>)
    requires ChangeOrder(w, l, batch).Done? && l in w.legs
    ensures var w' := ChangeOrder(w, l, batch).world;
      && w'.quotes.Keys == w.quotes.Keys && l in w'.legs
      && (forall q :: q in w.quotes ==>
            var hit := w.quotes[q].leg == l
              && (w.quotes[q].status == QUOTED || w.quotes[q].status == PENDING_APPROVAL || w.quotes[q].status == APPROVED
                  || (w.quotes[q].status == EXPIRED && w.quotes[q].submitted));
            w'.quotes[q].leg == w.quotes[q].leg && w'.quotes[q].status == if hit then INVALID else w.quotes[q].status)
      && (l in w.decisions ==> l in w'.decisions && w'.decisions[l] == Decision(DRAFT, None, None))
  {
    InvalidateAllMoves(w, batch, l);
    ChangeOrderReopens(w, l, batch);
    var undone := InvalidateAll(w, batch).value;
    FireLegFrame(undone, l, REOPEN, None);
    forall q | q in w.quotes
      ensures q in batch
         <==> w.quotes[q].leg == l
              && (w.quotes[q].status == QUOTED || w.quotes[q].status == PENDING_APPROVAL || w.quotes[q].status == APPROVED
                  || (w.quotes[q].status == EXPIRED && w.quotes[q].submitted))
    {
      assert q in batch <==> w.quotes[q].leg == l && InvalidatedByChangeOrder(w.quotes[q]);
    }
  }

  // Reviews.

  /** Only a send puts a leg, or a quote of it, under review, and only an approval approves it. */
  lemma ReviewsAreSends(worlds: seq<World>, steps: seq<Step>, i: nat, l: LegId)
    requires IsRun(worlds, steps) && i < |steps| && l in worlds[i].legs && l in worlds[i + 1].legs
    ensures worlds[i].legs[l] != LEG_PENDING && worlds[i + 1].legs[l] == LEG_PENDING ==> steps[i].DoSend? && steps[i].l == l
    ensures worlds[i].legs[l] != LEG_APPROVED && worlds[i + 1].legs[l] == LEG_APPROVED ==> steps[i].DoApprove? && steps[i].l == l
  {
    RunKeepsInv(worlds, steps, i);
    RunKeepsInv(worlds, steps, i + 1);
    assert Perform(worlds[i], steps[i]) == Done(worlds[i + 1]);
    assert LegAgrees(worlds[i], l) && LegAgrees(worlds[i + 1], l);
    if Stage(worlds[i + 1], l) != DRAFT {
      DecisionStep(worlds[i], steps[i], l);
    }
  }
}
