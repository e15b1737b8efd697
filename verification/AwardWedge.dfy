/** A send that passes every guard of sendForApproval and still cannot complete: the guards let a leg
    at RFQ_SENT through, but the leg machine has no send edge from there. */
module AwardWedge {
  import opened Wrappers
  import opened AwardMachines
  import opened AwardWorld
  import opened AwardInvariant
  import opened AwardOperations
  import opened AwardRecovery
  import opened AwardRuns

  const LEG: LegId := 0
  const OFFER: QuoteId := 0
  const SILENT: QuoteId := 1

  /** Leg 0 at a status, with two quotes of its own and no decision. */
  ghost predicate At(w: World, leg: LegStatus, offer: Quote, silent: Quote) {
    && w.legs == map[LEG := leg] && w.quotes == map[OFFER := offer, SILENT := silent]
    && w.decisions == map[] && w.snapshot.None? && offer.leg == LEG && silent.leg == LEG
  }

  lemma StatusesAt(w: World, leg: LegStatus, offer: Quote, silent: Quote)
    requires At(w, leg, offer, silent)
    ensures StatusesOn(w, LEG) == {offer.status, silent.status}
  {
    assert w.quotes[OFFER] == offer && w.quotes[SILENT] == silent;
    assert OFFER in w.quotes && SILENT in w.quotes;
  }

  /** Two candidates are distributed to. */
  lemma Distributed(w: World)
    requires At(w, READY_FOR_RFQ, Quote(LEG, SELECT, false), Quote(LEG, SELECT, false))
    ensures Distribute(w, LEG, [OFFER, SILENT]).Done?
    ensures At(Distribute(w, LEG, [OFFER, SILENT]).world, LEG_RFQ_SENT, Quote(LEG, RFQ_SENT, false), Quote(LEG, RFQ_SENT, false))
  {
    var batch := [OFFER, SILENT];
    assert DistributeAllowed(w, LEG, batch);
    var cleared := OffersCleared(w, batch);
    assert At(cleared, READY_FOR_RFQ, Quote(LEG, SELECT, false), Quote(LEG, SELECT, false));
    var w1 := FireQuote(cleared, OFFER, SEND).value;
    FirstSent(cleared);
    SecondSent(w1);
    assert batch[1..] == [SILENT] && batch[1..][1..] == [];
    assert SendAll(cleared, batch) == SendAll(w1, [SILENT]);
    assert SendAll(w1, [SILENT]) == SendAll(FireQuote(w1, SILENT, SEND).value, [SILENT][1..]);
  }

  lemma FirstSent(w: World)
    requires At(w, READY_FOR_RFQ, Quote(LEG, SELECT, false), Quote(LEG, SELECT, false))
    ensures FireQuote(w, OFFER, SEND).Some?
    ensures At(FireQuote(w, OFFER, SEND).value, READY_FOR_RFQ, Quote(LEG, RFQ_SENT, false), Quote(LEG, SELECT, false))
  {
    StatusesAt(SetQuote(w, OFFER, SEND, RFQ_SENT), READY_FOR_RFQ, Quote(LEG, RFQ_SENT, false), Quote(LEG, SELECT, false));
    NotFull(RFQ_SENT, SELECT);
  }

  lemma SecondSent(w: World)
    requires At(w, READY_FOR_RFQ, Quote(LEG, RFQ_SENT, false), Quote(LEG, SELECT, false))
    ensures FireQuote(w, SILENT, SEND).Some?
    ensures At(FireQuote(w, SILENT, SEND).value, READY_FOR_RFQ, Quote(LEG, RFQ_SENT, false), Quote(LEG, RFQ_SENT, false))
  {
    StatusesAt(SetQuote(w, SILENT, SEND, RFQ_SENT), READY_FOR_RFQ, Quote(LEG, RFQ_SENT, false), Quote(LEG, RFQ_SENT, false));
    NotFull(RFQ_SENT, RFQ_SENT);
  }

  /** What the rollup says of two quotes of which one is unanswered. */
  lemma NotFull(a: QuoteStatus, b: QuoteStatus)
    requires a == RFQ_SENT || b == RFQ_SENT
    ensures RollupLegTarget({a, b}) == if a == QUOTED || b == QUOTED then Some(PARTIALLY_QUOTED) else None
  {
    var distributed := {a, b} - {SELECT};
    assert RFQ_SENT in distributed && !Resolved(RFQ_SENT);
  }

  /** One forwarder answers: the leg is partially quoted. */
  lemma Answered(w: World)
    requires At(w, LEG_RFQ_SENT, Quote(LEG, RFQ_SENT, false), Quote(LEG, RFQ_SENT, false))
    ensures Submit(w, OFFER).Done?
    ensures At(Submit(w, OFFER).world, PARTIALLY_QUOTED, Quote(LEG, QUOTED, true), Quote(LEG, RFQ_SENT, false))
  {
    var stored := w.(quotes := w.quotes[OFFER := w.quotes[OFFER].(submitted := true)]);
    StatusesAt(SetQuote(stored, OFFER, SUBMIT, QUOTED), LEG_RFQ_SENT, Quote(LEG, QUOTED, true), Quote(LEG, RFQ_SENT, false));
    NotFull(QUOTED, RFQ_SENT);
  }

  /** It is asked again: nothing comparable is left, and the leg falls back to RFQ_SENT. */
  lemma AskedAgain(w: World)
    requires At(w, PARTIALLY_QUOTED, Quote(LEG, QUOTED, true), Quote(LEG, RFQ_SENT, false))
    ensures RequestRequote(w, LEG, OFFER).Done?
    ensures At(RequestRequote(w, LEG, OFFER).world, LEG_RFQ_SENT, Quote(LEG, REQUOTED, true), Quote(LEG, RFQ_SENT, false))
  {
    StatusesAt(SetQuote(w, OFFER, REQUEST_REQUOTE, REQUOTED), PARTIALLY_QUOTED, Quote(LEG, REQUOTED, true), Quote(LEG, RFQ_SENT, false));
    NotFull(REQUOTED, RFQ_SENT);
    assert RFQ_SENT in {REQUOTED, RFQ_SENT} - {SELECT};
  }

  /** It stays silent: its window closes, its earlier price is kept. */
  lemma Lapsed(w: World)
    requires At(w, LEG_RFQ_SENT, Quote(LEG, REQUOTED, true), Quote(LEG, RFQ_SENT, false))
    ensures Expire(w, OFFER).Done?
    ensures At(Expire(w, OFFER).world, LEG_RFQ_SENT, Quote(LEG, EXPIRED, true), Quote(LEG, RFQ_SENT, false))
  {
    StatusesAt(SetQuote(w, OFFER, EXPIRE, EXPIRED), LEG_RFQ_SENT, Quote(LEG, EXPIRED, true), Quote(LEG, RFQ_SENT, false));
    NotFull(EXPIRED, RFQ_SENT);
  }

  const STUCK_SEND := SendInput(OFFER, true, true, None, {SILENT})

  /** Once the other forwarder's window has closed too, the kept price passes every guard. */
  lemma KeptPriceMayBeSent(w: World)
    requires At(w, LEG_RFQ_SENT, Quote(LEG, EXPIRED, true), Quote(LEG, RFQ_SENT, false))
    ensures SendAllowed(w, LEG, STUCK_SEND)
  {
    assert WaitedOn(w, LEG, false) == {SILENT} by {
      assert SILENT in w.quotes && OFFER in w.quotes;
    }
  }

  /** Its quote fire does not move the leg. */
  lemma LegStaysBehind(w: World, user: UserId)
    requires At(w, LEG_RFQ_SENT, Quote(LEG, EXPIRED, true), Quote(LEG, RFQ_SENT, false))
    ensures FireQuote(CommittedSend(w, LEG, OFFER, user), OFFER, SEND_FOR_APPROVAL)
         == Some(SetQuote(CommittedSend(w, LEG, OFFER, user), OFFER, SEND_FOR_APPROVAL, PENDING_APPROVAL))
  {
    var moved := SetQuote(CommittedSend(w, LEG, OFFER, user), OFFER, SEND_FOR_APPROVAL, PENDING_APPROVAL);
    StatusesAt(moved.(decisions := map[]), LEG_RFQ_SENT, Quote(LEG, PENDING_APPROVAL, true), Quote(LEG, RFQ_SENT, false));
    assert StatusesOn(moved, LEG) == StatusesOn(moved.(decisions := map[]), LEG);
    NotFull(PENDING_APPROVAL, RFQ_SENT);
  }

  /** So the leg fire is illegal, after the commit. */
  lemma SentAndStuck(w: World, user: UserId)
    requires At(w, LEG_RFQ_SENT, Quote(LEG, EXPIRED, true), Quote(LEG, RFQ_SENT, false))
    ensures SendAllowed(w, LEG, STUCK_SEND)
    ensures var outcome := SendForApproval(w, LEG, STUCK_SEND, user);
      && outcome.Wedged? && Stage(outcome.world, LEG) == PENDING && outcome.world.legs[LEG] == LEG_RFQ_SENT
  {
    KeptPriceMayBeSent(w);
    LegStaysBehind(w, user);
  }

  /** A run that ends in a world. */
  ghost predicate Reaches(run: (seq<World>, seq<Step>), w: World) {
    IsRun(run.0, run.1) && run.0[|run.0| - 1] == w
  }

  lemma RunOn(run: (seq<World>, seq<Step>), w: World, step: Step, w': World) returns (longer: (seq<World>, seq<Step>))
    requires Reaches(run, w) && Perform(w, step) == Done(w')
    ensures Reaches(longer, w')
  {
    longer := (run.0 + [w'], run.1 + [step]);
    forall i | 0 <= i < |longer.1|
      ensures Perform(longer.0[i], longer.1[i]) == Done(longer.0[i + 1])
    {
      if i < |run.1| {
        assert longer.0[i] == run.0[i] && longer.0[i + 1] == run.0[i + 1] && longer.1[i] == run.1[i];
      }
    }
  }

  lemma Ready() returns (run: (seq<World>, seq<Step>), w: World)
    ensures Reaches(run, w) && At(w, READY_FOR_RFQ, Quote(LEG, SELECT, false), Quote(LEG, SELECT, false))
  {
    var w1 := AddLeg(START, LEG).world;
    var w2 := ValidateLeg(w1, LEG).world;
    var w3 := AddCandidate(w2, LEG, OFFER).world;
    w := AddCandidate(w3, LEG, SILENT).world;
    run := RunOn(([START], []), START, DoAddLeg(LEG), w1);
    run := RunOn(run, w1, DoValidateLeg(LEG), w2);
    run := RunOn(run, w2, DoAddCandidate(LEG, OFFER), w3);
    run := RunOn(run, w3, DoAddCandidate(LEG, SILENT), w);
  }

  lemma Asked() returns (run: (seq<World>, seq<Step>), w: World)
    ensures Reaches(run, w) && At(w, LEG_RFQ_SENT, Quote(LEG, RFQ_SENT, false), Quote(LEG, RFQ_SENT, false))
  {
    var before, w0 := Ready();
    Distributed(w0);
    w := Distribute(w0, LEG, [OFFER, SILENT]).world;
    run := RunOn(before, w0, DoDistribute(LEG, [OFFER, SILENT]), w);
  }

  lemma Priced() returns (run: (seq<World>, seq<Step>), w: World)
    ensures Reaches(run, w) && At(w, PARTIALLY_QUOTED, Quote(LEG, QUOTED, true), Quote(LEG, RFQ_SENT, false))
  {
    var before, w0 := Asked();
    Answered(w0);
    w := Submit(w0, OFFER).world;
    run := RunOn(before, w0, DoSubmit(OFFER), w);
  }

  lemma Requested() returns (run: (seq<World>, seq<Step>), w: World)
    ensures Reaches(run, w) && At(w, LEG_RFQ_SENT, Quote(LEG, REQUOTED, true), Quote(LEG, RFQ_SENT, false))
  {
    var before, w0 := Priced();
    AskedAgain(w0);
    w := RequestRequote(w0, LEG, OFFER).world;
    run := RunOn(before, w0, DoRequote(LEG, OFFER), w);
  }

  lemma Silent() returns (run: (seq<World>, seq<Step>), w: World)
    ensures Reaches(run, w) && At(w, LEG_RFQ_SENT, Quote(LEG, EXPIRED, true), Quote(LEG, RFQ_SENT, false))
  {
    var before, w0 := Requested();
    Lapsed(w0);
    w := Expire(w0, OFFER).world;
    run := RunOn(before, w0, DoExpire(OFFER), w);
  }

  /** So some run of completed operations reaches a state in which a send passes every guard, commits
      its decision, and leaves the leg behind at RFQ_SENT. */
  lemma GuardedSendCanWedge(user: UserId) returns (run: (seq<World>, seq<Step>), w: World, input: SendInput)
    ensures Reaches(run, w)
    ensures SendAllowed(w, LEG, input) && SendForApproval(w, LEG, input, user).Wedged?
    ensures w.legs == map[LEG := LEG_RFQ_SENT] && input.quote == OFFER
    ensures w.quotes == map[OFFER := Quote(LEG, EXPIRED, true), SILENT := Quote(LEG, RFQ_SENT, false)]
  {
    run, w := Silent();
    input := STUCK_SEND;
    SentAndStuck(w, user);
  }

  /** Recovery: wherever a run of completed operations has got to, a stuck send is undone by a rejection
      by anybody else. Every quote is back on the status it had, and all rows agree again. */
  lemma StuckSendIsRecoverable(worlds: seq<World>, steps: seq<Step>, i: nat, l: LegId, input: SendInput, sender: UserId,
                               reason: string, other: UserId)
    requires IsRun(worlds, steps) && i < |worlds| && SendForApproval(worlds[i], l, input, sender).Wedged? && other != sender
    ensures var stuck := SendForApproval(worlds[i], l, input, sender).world;
      && Reject(stuck, l, reason, other).Done?
      && Inv(Reject(stuck, l, reason, other).world)
      && Reject(stuck, l, reason, other).world.quotes == worlds[i].quotes
      && Stage(Reject(stuck, l, reason, other).world, l) == DRAFT
  {
    RunKeepsInv(worlds, steps, i);
    StuckSendStopped(worlds[i], l, input, sender);
    RejectRecoversSend(worlds[i], SendForApproval(worlds[i], l, input, sender).world, l, input, sender, reason, other);
  }
}
