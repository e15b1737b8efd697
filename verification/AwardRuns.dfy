/** Runs of completed award operations, from a query with no legs. */
module AwardRuns {
  import opened Wrappers
  import opened AwardMachines
  import opened AwardWorld
  import opened AwardInvariant
  import opened AwardOperations
  import opened AwardChange

  datatype Step =
    | DoAddLeg(l: LegId)
    | DoValidateLeg(l: LegId)
    | DoAddCandidate(l: LegId, q: QuoteId)
    | DoRemoveCandidate(q: QuoteId)
    | DoDistribute(l: LegId, batch: seq<QuoteId>)
    | DoSubmit(q: QuoteId)
    | DoExpire(q: QuoteId)
    | DoSend(l: LegId, input: SendInput, user: UserId)
    | DoApprove(l: LegId, user: UserId)
    | DoReject(l: LegId, reason: string, user: UserId)
    | DoRequote(l: LegId, q: QuoteId)
    | DoChangeOrder(l: LegId, batch: seq<QuoteId>)
    | DoGenerate(priceable: bool)
    | DoReopen

  function Perform(w: World, step: Step): Outcome {
    match step
    case DoAddLeg(l) => AddLeg(w, l)
    case DoValidateLeg(l) => ValidateLeg(w, l)
    case DoAddCandidate(l, q) => AddCandidate(w, l, q)
    case DoRemoveCandidate(q) => RemoveCandidate(w, q)
    case DoDistribute(l, batch) => Distribute(w, l, batch)
    case DoSubmit(q) => Submit(w, q)
    case DoExpire(q) => Expire(w, q)
    case DoSend(l, input, user) => SendForApproval(w, l, input, user)
    case DoApprove(l, user) => Approve(w, l, user)
    case DoReject(l, reason, user) => Reject(w, l, reason, user)
    case DoRequote(l, q) => RequestRequote(w, l, q)
    case DoChangeOrder(l, batch) => ChangeOrder(w, l, batch)
    case DoGenerate(priceable) => GenerateClientQuote(w, priceable)
    case DoReopen => ReopenComparison(w)
  }

  const START := World(map[], map[], map[], [], [], None)

  /** Every operation of the run completed. */
  ghost predicate IsRun(worlds: seq<World>, steps: seq<Step>) {
    && |worlds| == |steps| + 1 && worlds[0] == START
    && forall i :: 0 <= i < |steps| ==> Perform(worlds[i], steps[i]) == Done(worlds[i + 1])
  }

  lemma StartIsOk()
    ensures Inv(START)
  {
    forall l
      ensures CaughtUp(START, l) && LegAgrees(START, l) && SendOnRecord(START, l)
    {
    }
  }

  lemma StepKeepsInv(w: World, step: Step)
    requires Inv(w) && Perform(w, step).Done?
    ensures Inv(Perform(w, step).world)
  {
    match step {
      case DoAddLeg(l) => AddLegKeepsInv(w, l);
      case DoValidateLeg(l) => ValidateLegKeepsInv(w, l);
      case DoAddCandidate(l, q) => CandidateStepsKeepInv(w, l, q);
      case DoRemoveCandidate(q) => CandidateStepsKeepInv(w, 0, q);
      case DoDistribute(l, batch) => DistributeKeepsInv(w, l, batch);
      case DoSubmit(q) => SubmitKeepsInv(w, q);
      case DoExpire(q) => ExpireKeepsInv(w, q);
      case DoSend(l, input, user) => SendKeepsInv(w, l, input, user);
      case DoApprove(l, user) => ApproveKeepsInv(w, l, user);
      case DoReject(l, reason, user) => RejectKeepsInv(w, l, reason, user);
      case DoRequote(l, q) => RequoteKeepsInv(w, l, q);
      case DoChangeOrder(l, batch) => ChangeOrderKeepsInv(w, l, batch);
      case DoGenerate(priceable) => GenerateAndReopenKeepInv(w, priceable);
      case DoReopen => GenerateAndReopenKeepInv(w, true);
    }
  }

  lemma {:induction false} RunKeepsInv(worlds: seq<World>, steps: seq<Step>, i: nat)
    requires IsRun(worlds, steps) && i < |worlds|
    ensures Inv(worlds[i])
  {
    if i == 0 {
      StartIsOk();
    } else {
      RunKeepsInv(worlds, steps, i - 1);
      assert Perform(worlds[i - 1], steps[i - 1]) == Done(worlds[i - 1 + 1]);
      StepKeepsInv(worlds[i - 1], steps[i - 1]);
    }
  }

  /** Each leg has at most one quote under review or approved. */
  lemma AtMostOneUnderReview(worlds: seq<World>, steps: seq<Step>, i: nat, p: QuoteId, q: QuoteId)
    requires IsRun(worlds, steps) && i < |worlds| && p in worlds[i].quotes && q in worlds[i].quotes
    requires worlds[i].quotes[p].leg == worlds[i].quotes[q].leg
    requires QuoteUnderReview(worlds[i].quotes[p].status) && QuoteUnderReview(worlds[i].quotes[q].status)
    ensures p == q
  {
    RunKeepsInv(worlds, steps, i);
    assert QuoteAgrees(worlds[i], p) && QuoteAgrees(worlds[i], q);
  }

  /** Decision, leg and shortlisted quote are all pending approval, all approved, or none of the leg's
      rows is in either state. */
  lemma DecisionLegAndQuoteAgree(worlds: seq<World>, steps: seq<Step>, i: nat, l: LegId)
    requires IsRun(worlds, steps) && i < |worlds| && l in worlds[i].legs
    ensures var w := worlds[i];
      match Stage(w, l)
      case PENDING =>
        && w.legs[l] == LEG_PENDING && Shortlisted(w, l).Some? && OnLeg(w, Shortlisted(w, l).value, l)
        && w.quotes[Shortlisted(w, l).value].status == PENDING_APPROVAL
      case DECIDED =>
        && w.legs[l] == LEG_APPROVED && Shortlisted(w, l).Some? && OnLeg(w, Shortlisted(w, l).value, l)
        && w.quotes[Shortlisted(w, l).value].status == APPROVED
      case DRAFT =>
        && !LegUnderReview(w.legs[l])
        && forall q :: q in w.quotes && w.quotes[q].leg == l ==> !QuoteUnderReview(w.quotes[q].status)
  {
    RunKeepsInv(worlds, steps, i);
    var w := worlds[i];
    assert LegAgrees(w, l);
    if Stage(w, l) != DRAFT {
      WinnersAreUnderReview(w, l);
    } else {
      forall q | q in w.quotes && w.quotes[q].leg == l
        ensures !QuoteUnderReview(w.quotes[q].status)
      {
        assert QuoteAgrees(w, q);
      }
    }
  }

  /** A legally permitted send stays approvable: whenever a decision is pending, whatever has happened
      since the send, approve by a different user passes every guard and completes. */
  lemma PendingStaysApprovable(worlds: seq<World>, steps: seq<Step>, i: nat, l: LegId, user: UserId)
    requires IsRun(worlds, steps) && i < |worlds| && Stage(worlds[i], l) == PENDING && worlds[i].decisions[l].sentBy != Some(user)
    ensures Approve(worlds[i], l, user).Done?
  {
    RunKeepsInv(worlds, steps, i);
    assert LegAgrees(worlds[i], l);
    PendingIsApprovable(worlds[i], l, user);
  }

  /** Four eyes: an approval completes exactly when the query is not frozen, the decision is pending, and
      somebody else sent it. */
  lemma ApproveCompletesExactly(worlds: seq<World>, steps: seq<Step>, i: nat, l: LegId, user: UserId)
    requires IsRun(worlds, steps) && i < |worlds|
    ensures Approve(worlds[i], l, user).Done?
       <==> worlds[i].snapshot.None? && l in worlds[i].decisions && worlds[i].decisions[l].status == PENDING
            && worlds[i].decisions[l].sentBy != Some(user)
    ensures !Approve(worlds[i], l, user).Done? ==> Approve(worlds[i], l, user).Refused?
  {
    RunKeepsInv(worlds, steps, i);
    var w := worlds[i];
    if w.snapshot.None? && l in w.decisions && w.decisions[l].status == PENDING && w.decisions[l].sentBy != Some(user) {
      PendingIsApprovable(w, l, user);
    }
  }

  /** How a live decision came to be what it is after a step: as it was, sent, or approved. */
  ghost predicate DecidedBy(w: World, step: Step, l: LegId, now: Decision) {
    || (l in w.decisions && w.decisions[l] == now)
    || (exists input: SendInput, user: UserId :: step == DoSend(l, input, user) && now == Decision(PENDING, Some(input.quote), Some(user)))
    || (exists user: UserId :: step == DoApprove(l, user) && l in w.decisions && w.decisions[l].status == PENDING
          && w.decisions[l].sentBy != Some(user) && now == w.decisions[l].(status := DECIDED))
  }

  lemma DecisionStep(w: World, step: Step, l: LegId)
    requires Inv(w) && Perform(w, step).Done? && Stage(Perform(w, step).world, l) != DRAFT
    ensures DecidedBy(w, step, l, Perform(w, step).world.decisions[l])
  {
    match step {
      case DoAddLeg(_) =>
      case DoValidateLeg(k) => FireLegFrame(w, k, VALIDATE_PASS, None);
      case DoAddCandidate(_, _) =>
      case DoRemoveCandidate(_) =>
      case DoDistribute(k, batch) =>
        SendAllKeepsDecisions(OffersCleared(w, batch), batch);
        if w.legs[k] == READY_FOR_RFQ {
          FireLegFrame(SendAll(OffersCleared(w, batch), batch).value, k, SEND_RFQ, None);
        }
      case DoSubmit(p) => FireQuoteFrame(w.(quotes := w.quotes[p := w.quotes[p].(submitted := true)]), p, SUBMIT);
      case DoExpire(p) => FireQuoteFrame(w, p, EXPIRE);
      case DoSend(k, input, user) => SendKeepsInv(w, k, input, user);
      case DoApprove(k, user) => ApprovedResult(w, k, user);
      case DoReject(k, reason, user) => RejectCompletes(w, k, reason, user);
      case DoRequote(k, p) => RequoteOnlyResets(w, k, p, l);
      case DoChangeOrder(k, batch) => ChangeOrderReopens(w, k, batch);
      case DoGenerate(_) =>
      case DoReopen =>
    }
  }

  lemma RequoteOnlyResets(w: World, k: LegId, p: QuoteId, l: LegId)
    requires Inv(w) && RequestRequote(w, k, p).Done? && Stage(RequestRequote(w, k, p).world, l) != DRAFT
    ensures l in w.decisions && RequestRequote(w, k, p).world.decisions[l] == w.decisions[l]
  {
    assert LegAgrees(w, k) && QuoteAgrees(w, p);
    FireQuoteFrame(w, p, REQUEST_REQUOTE);
  }

  /** The send behind a pending decision, still its latest. */
  ghost predicate SentAt(worlds: seq<World>, steps: seq<Step>, l: LegId, i: nat, k: nat, sender: UserId) {
    && i < k < |worlds| == |steps| + 1 && UnderReviewThrough(worlds, l, i, k)
    && exists input :: steps[i] == DoSend(l, input, sender)
  }

  ghost predicate ApprovedAt(worlds: seq<World>, steps: seq<Step>, l: LegId, i: nat, j: nat, k: nat, approver: UserId) {
    i < j < k < |worlds| == |steps| + 1 && steps[j] == DoApprove(l, approver)
  }

  /** Who sent, and who approved, the live decision of world k: in steps i and j. */
  ghost predicate HasUsers(worlds: seq<World>, steps: seq<Step>, l: LegId, k: nat, i: nat, j: nat, sender: UserId, approver: UserId) {
    && k < |worlds| && l in worlds[k].decisions && worlds[k].decisions[l].sentBy == Some(sender)
    && SentAt(worlds, steps, l, i, k, sender)
    && (worlds[k].decisions[l].status == DECIDED ==> ApprovedAt(worlds, steps, l, i, j, k, approver) && approver != sender)
  }

  lemma UsersStay(worlds: seq<World>, steps: seq<Step>, l: LegId, k: nat, i: nat, j: nat, sender: UserId, approver: UserId)
    requires 0 < k < |worlds| == |steps| + 1 && HasUsers(worlds, steps, l, k - 1, i, j, sender, approver)
    requires Stage(worlds[k], l) != DRAFT && worlds[k].decisions[l] == worlds[k - 1].decisions[l]
    ensures HasUsers(worlds, steps, l, k, i, j, sender, approver)
  {
  }

  lemma UsersOfApproval(worlds: seq<World>, steps: seq<Step>, l: LegId, k: nat, i: nat, j: nat, sender: UserId, approver: UserId, user: UserId)
    requires 0 < k < |worlds| == |steps| + 1 && HasUsers(worlds, steps, l, k - 1, i, j, sender, approver)
    requires steps[k - 1] == DoApprove(l, user) && worlds[k - 1].decisions[l].sentBy != Some(user)
    requires l in worlds[k].decisions && worlds[k].decisions[l] == worlds[k - 1].decisions[l].(status := DECIDED)
    ensures HasUsers(worlds, steps, l, k, i, k - 1, sender, user)
  {
  }

  lemma UsersOfSend(worlds: seq<World>, steps: seq<Step>, l: LegId, k: nat, input: SendInput, user: UserId)
    requires 0 < k < |worlds| == |steps| + 1 && steps[k - 1] == DoSend(l, input, user)
    requires l in worlds[k].decisions && worlds[k].decisions[l] == Decision(PENDING, Some(input.quote), Some(user))
    ensures HasUsers(worlds, steps, l, k, k - 1, k - 1, user, user)
  {
  }

  /** Every live decision goes back to a send by the user it names, without having been dropped since; a
      decided one, to an approval after that by another user. */
  lemma {:induction false} LiveDecisionHasItsUsers(worlds: seq<World>, steps: seq<Step>, l: LegId, k: nat)
    returns (i: nat, j: nat, sender: UserId, approver: UserId)
    requires IsRun(worlds, steps) && k < |worlds| && Stage(worlds[k], l) != DRAFT
    ensures SentAt(worlds, steps, l, i, k, sender) && worlds[k].decisions[l].sentBy == Some(sender)
    ensures Stage(worlds[k], l) == DECIDED ==> ApprovedAt(worlds, steps, l, i, j, k, approver) && approver != sender
    ensures HasUsers(worlds, steps, l, k, i, j, sender, approver)
  {
    assert k > 0;
    assert Perform(worlds[k - 1], steps[k - 1]) == Done(worlds[k - 1 + 1]);
    RunKeepsInv(worlds, steps, k - 1);
    DecisionStep(worlds[k - 1], steps[k - 1], l);
    if Stage(worlds[k - 1], l) == DRAFT {
      i, j, sender, approver := k - 1, k - 1, steps[k - 1].user, steps[k - 1].user;
      UsersOfSend(worlds, steps, l, k, steps[k - 1].input, sender);
    } else {
      i, j, sender, approver := LiveDecisionHasItsUsers(worlds, steps, l, k - 1);
      SentFromDraft(worlds[k - 1], steps[k - 1], l);
      if worlds[k].decisions[l] == worlds[k - 1].decisions[l] {
        UsersStay(worlds, steps, l, k, i, j, sender, approver);
      } else {
        UsersOfApproval(worlds, steps, l, k, i, j, sender, approver, steps[k - 1].user);
        j, approver := k - 1, steps[k - 1].user;
      }
    }
  }

  /** A leg with a live decision is not sent again. */
  lemma SentFromDraft(w: World, step: Step, l: LegId)
    requires Perform(w, step).Done? && Stage(w, l) != DRAFT
    ensures !(step.DoSend? && step.l == l)
  {
  }

  /** In every run, whoever approved a leg is not who sent it. */
  lemma NobodyApprovesTheirOwnSend(worlds: seq<World>, steps: seq<Step>, l: LegId, i: nat, j: nat, input: SendInput,
                                   sender: UserId, approver: UserId)
    requires IsRun(worlds, steps) && i < j < |steps| && steps[i] == DoSend(l, input, sender) && steps[j] == DoApprove(l, approver)
    requires UnderReviewThrough(worlds, l, i, j)
    ensures sender != approver
  {
    SenderStays(worlds, steps, l, i, j, input, sender);
    assert Perform(worlds[j], steps[j]) == Done(worlds[j + 1]);
    ApproveCompletesExactly(worlds, steps, j, l, approver);
  }

  lemma SenderStep(w: World, step: Step, l: LegId)
    requires Inv(w) && Perform(w, step).Done? && Stage(w, l) != DRAFT && Stage(Perform(w, step).world, l) != DRAFT
    ensures Perform(w, step).world.decisions[l].sentBy == w.decisions[l].sentBy
  {
    DecisionStep(w, step, l);
    SentFromDraft(w, step, l);
  }

  lemma SendNamesSender(w: World, l: LegId, input: SendInput, sender: UserId)
    requires Inv(w) && SendForApproval(w, l, input, sender).Done?
    ensures var w' := SendForApproval(w, l, input, sender).world; l in w'.decisions && w'.decisions[l].sentBy == Some(sender)
  {
    SendKeepsInv(w, l, input, sender);
  }

  lemma {:induction false} SenderStays(worlds: seq<World>, steps: seq<Step>, l: LegId, i: nat, k: nat, input: SendInput, sender: UserId)
    requires IsRun(worlds, steps) && i < k < |worlds| && steps[i] == DoSend(l, input, sender) && UnderReviewThrough(worlds, l, i, k)
    ensures l in worlds[k].decisions && worlds[k].decisions[l].sentBy == Some(sender)
    decreases k
  {
    assert Perform(worlds[k - 1], steps[k - 1]) == Done(worlds[k - 1 + 1]);
    RunKeepsInv(worlds, steps, k - 1);
    if k == i + 1 {
      SendNamesSender(worlds[i], l, input, sender);
    } else {
      SenderStays(worlds, steps, l, i, k - 1, input, sender);
      SenderStep(worlds[k - 1], steps[k - 1], l);
    }
  }

  /** A run in which an operation may also stop past its commit, where a fire is illegal. */
  ghost predicate IsRunWithStops(worlds: seq<World>, steps: seq<Step>) {
    && |worlds| == |steps| + 1 && worlds[0] == START
    && forall i :: 0 <= i < |steps| ==> !Perform(worlds[i], steps[i]).Refused? && Perform(worlds[i], steps[i]).world == worlds[i + 1]
  }

  /** Every decision is about a leg of the query. */
  ghost predicate DecisionsHaveLegs(w: World) {
    w.decisions.Keys <= w.legs.Keys
  }

  /** A step in which nothing but rows already there moves. */
  ghost predicate SameKeys(w: World, w': World) {
    w'.decisions.Keys == w.decisions.Keys && w'.legs.Keys == w.legs.Keys
  }

  lemma FireKeepsKeys(w: World, q: QuoteId, e: QuoteEvent)
    requires q in w.quotes && FireQuote(w, q, e).Some?
    ensures SameKeys(w, FireQuote(w, q, e).value)
  {
    FireQuoteFrame(w, q, e);
  }

  lemma {:induction false} SendAllKeepsKeys(w: World, batch: seq<QuoteId>)
    requires SendAll(w, batch).Some?
    ensures SameKeys(w, SendAll(w, batch).value)
    decreases |batch|
  {
    if batch != [] {
      FireKeepsKeys(w, batch[0], SEND);
      SendAllKeepsKeys(FireQuote(w, batch[0], SEND).value, batch[1..]);
    }
  }

  lemma {:induction false} InvalidateAllKeepsKeys(w: World, batch: seq<QuoteId>)
    requires InvalidateAll(w, batch).Some?
    ensures SameKeys(w, InvalidateAll(w, batch).value)
    decreases |batch|
  {
    if batch != [] {
      FireKeepsKeys(w, batch[0], INVALIDATE);
      InvalidateAllKeepsKeys(FireQuote(w, batch[0], INVALIDATE).value, batch[1..]);
    }
  }

  lemma RequoteKeepsKeys(w: World, l: LegId, q: QuoteId)
    requires !RequestRequote(w, l, q).Refused?
    ensures SameKeys(w, RequestRequote(w, l, q).world)
  {
    if FireQuote(w, q, REQUEST_REQUOTE).Some? {
      FireKeepsKeys(w, q, REQUEST_REQUOTE);
      var asked := FireQuote(w, q, REQUEST_REQUOTE).value;
      if l in asked.legs && FireLeg(asked, l, REOPEN_AWARD, None).Some? {
        RecomputeFrame(FireLeg(asked, l, REOPEN_AWARD, None).value, l, true);
      }
    }
  }

  lemma SendKeepsLegs(w: World, l: LegId, input: SendInput, user: UserId)
    requires DecisionsHaveLegs(w) && !SendForApproval(w, l, input, user).Refused?
    ensures DecisionsHaveLegs(SendForApproval(w, l, input, user).world)
  {
    var committed := CommittedSend(w, l, input.quote, user);
    if FireQuote(committed, input.quote, SEND_FOR_APPROVAL).Some? {
      FireKeepsKeys(committed, input.quote, SEND_FOR_APPROVAL);
    }
  }

  lemma ApproveKeepsKeys(w: World, l: LegId, user: UserId)
    requires !Approve(w, l, user).Refused?
    ensures SameKeys(w, Approve(w, l, user).world)
  {
    var q := w.decisions[l].shortlisted.value;
    var committed := w.(decisions := w.decisions[l := w.decisions[l].(status := DECIDED)]);
    if FireQuote(committed, q, APPROVE).Some? {
      FireKeepsKeys(committed, q, APPROVE);
    }
  }

  lemma StepKeepsLegs(w: World, step: Step)
    requires DecisionsHaveLegs(w) && !Perform(w, step).Refused?
    ensures DecisionsHaveLegs(Perform(w, step).world)
  {
    match step {
      case DoDistribute(_, batch) =>
        if SendAll(OffersCleared(w, batch), batch).Some? {
          SendAllKeepsKeys(OffersCleared(w, batch), batch);
        }
      case DoSubmit(q) =>
        var stored := w.(quotes := w.quotes[q := w.quotes[q].(submitted := true)]);
        if FireQuote(stored, q, SUBMIT).Some? {
          FireKeepsKeys(stored, q, SUBMIT);
        }
      case DoExpire(q) =>
        if FireQuote(w, q, EXPIRE).Some? {
          FireKeepsKeys(w, q, EXPIRE);
        }
      case DoSend(l, input, user) => SendKeepsLegs(w, l, input, user);
      case DoApprove(l, user) => ApproveKeepsKeys(w, l, user);
      case DoReject(l, reason, user) => RejectAlwaysCompletes(w, l, reason, user);
      case DoRequote(l, q) => RequoteKeepsKeys(w, l, q);
      case DoChangeOrder(_, batch) =>
        if InvalidateAll(w, batch).Some? {
          InvalidateAllKeepsKeys(w, batch);
        }
      case _ =>
    }
  }

  lemma {:induction false} LegsStay(worlds: seq<World>, steps: seq<Step>, i: nat)
    requires IsRunWithStops(worlds, steps) && i < |worlds|
    ensures DecisionsHaveLegs(worlds[i])
  {
    if i > 0 {
      LegsStay(worlds, steps, i - 1);
      assert Perform(worlds[i - 1], steps[i - 1]).world == worlds[i - 1 + 1];
      StepKeepsLegs(worlds[i - 1], steps[i - 1]);
    }
  }

  /** And rejectable, also when operations stopped past their commit on the way: no live decision of an
      unlocked query is ever stuck, and a rejection leaves neither its leg nor its quote under review. */
  lemma LiveDecisionStaysRejectable(worlds: seq<World>, steps: seq<Step>, i: nat, l: LegId, reason: string, user: UserId)
    requires IsRunWithStops(worlds, steps) && i < |worlds| && Stage(worlds[i], l) != DRAFT && !Locked(worlds[i])
    requires Stage(worlds[i], l) == PENDING ==> worlds[i].decisions[l].sentBy != Some(user)
    ensures Reject(worlds[i], l, reason, user).Done?
    ensures var w' := Reject(worlds[i], l, reason, user).world;
      Stage(w', l) == DRAFT && l in w'.legs && !LegUnderReview(w'.legs[l]) && !QuoteNeedsReturn(w', Shortlisted(w', l))
  {
    LegsStay(worlds, steps, i);
    RejectAlwaysCompletes(worlds[i], l, reason, user);
  }

  /** While the award is frozen it holds exactly one winner per leg, each leg is approved for that
      same quote, and the portal refuses every write to every quote of the query. */
  lemma FrozenAwardIsHeld(worlds: seq<World>, steps: seq<Step>, i: nat)
    requires IsRun(worlds, steps) && i < |worlds| && Locked(worlds[i])
    ensures var w := worlds[i];
      && w.snapshot.value.Keys == w.legs.Keys
      && (forall l :: l in w.legs ==> Stage(w, l) == DECIDED && Shortlisted(w, l) == Some(w.snapshot.value[l]))
      && (forall l :: l in w.legs ==> OnLeg(w, w.snapshot.value[l], l) && w.quotes[w.snapshot.value[l]].status == APPROVED)
      && (forall q :: q in w.quotes ==> !PortalOpen(w, q) && Submit(w, q) == Refused)
  {
    RunKeepsInv(worlds, steps, i);
    var w := worlds[i];
    forall l | l in w.legs
      ensures OnLeg(w, w.snapshot.value[l], l) && w.quotes[w.snapshot.value[l]].status == APPROVED
    {
      WinnersAreUnderReview(w, l);
    }
    forall q | q in w.quotes
      ensures !PortalOpen(w, q)
    {
      assert QuoteAgrees(w, q);
    }
  }

  /** And it stays as it is until reopenComparison clears it: every other step leaves it alone. */
  lemma FrozenUntilReopened(worlds: seq<World>, steps: seq<Step>, i: nat)
    requires IsRun(worlds, steps) && i < |steps| && Locked(worlds[i])
    ensures steps[i] == DoReopen || worlds[i + 1].snapshot == worlds[i].snapshot
    ensures steps[i] == DoReopen || steps[i].DoExpire?
  {
    RunKeepsInv(worlds, steps, i);
    assert Perform(worlds[i], steps[i]) == Done(worlds[i + 1]);
    if steps[i].DoSubmit? {
      FrozenAwardIsHeld(worlds, steps, i);
    }
    if steps[i].DoExpire? {
      FireQuoteFrame(worlds[i], steps[i].q, EXPIRE);
    }
  }

  // The round trip.

  /** The decision of leg l stays live, naming quote q, from world i+1 to world j. */
  ghost predicate UnderReviewThrough(worlds: seq<World>, l: LegId, i: nat, j: nat)
    requires i < j < |worlds|
  {
    forall k :: i < k <= j ==> Stage(worlds[k], l) != DRAFT
  }

  /** No send was logged for the leg or for the quote. */
  ghost predicate SendsKept(w: World, w': World, l: LegId, q: QuoteId) {
    LatestSend(w'.legLog, l) == LatestSend(w.legLog, l) && LatestQuoteSend(w'.quoteLog, q) == LatestQuoteSend(w.quoteLog, q)
  }

  lemma {:induction false} SendAllKeepsSends(w: World, batch: seq<QuoteId>, l: LegId, q: QuoteId)
    requires SendAll(w, batch).Some?
    ensures SendsKept(w, SendAll(w, batch).value, l, q)
    decreases |batch|
  {
    if batch != [] {
      FireQuoteFrame(w, batch[0], SEND);
      SendAllKeepsSends(FireQuote(w, batch[0], SEND).value, batch[1..], l, q);
    }
  }

  /** While a decision is live no step replaces its quote or the record of its send. */
  lemma LiveDecisionKeepsItsSend(w: World, step: Step, l: LegId)
    requires Inv(w) && Perform(w, step).Done? && Stage(w, l) != DRAFT && Stage(Perform(w, step).world, l) != DRAFT
    ensures Shortlisted(w, l).Some? && Shortlisted(Perform(w, step).world, l) == Shortlisted(w, l)
    ensures SendsKept(w, Perform(w, step).world, l, Shortlisted(w, l).value)
  {
    WinnersAreUnderReview(w, l);
    var q := Shortlisted(w, l).value;
    match step {
      case DoAddLeg(_) =>
      case DoValidateLeg(k) => FireLegFrame(w, k, VALIDATE_PASS, None);
      case DoAddCandidate(_, _) =>
      case DoRemoveCandidate(_) =>
      case DoDistribute(k, batch) =>
        SendAllKeepsSends(OffersCleared(w, batch), batch, l, q);
        SendAllKeepsDecisions(OffersCleared(w, batch), batch);
        if w.legs[k] == READY_FOR_RFQ {
          FireLegFrame(SendAll(OffersCleared(w, batch), batch).value, k, SEND_RFQ, None);
        }
      case DoSubmit(p) => FireQuoteFrame(w.(quotes := w.quotes[p := w.quotes[p].(submitted := true)]), p, SUBMIT);
      case DoExpire(p) => FireQuoteFrame(w, p, EXPIRE);
      case DoSend(k, input, user) => SendElsewhere(w, k, input, user, l);
      case DoApprove(k, user) => ApprovedResult(w, k, user);
      case DoReject(k, reason, user) => RejectCompletes(w, k, reason, user);
      case DoRequote(k, p) => RequoteElsewhere(w, k, p, l);
      case DoChangeOrder(k, batch) => ChangeOrderReopens(w, k, batch);
      case DoGenerate(_) =>
      case DoReopen =>
    }
  }

  lemma {:induction false} SendAllKeepsDecisions(w: World, batch: seq<QuoteId>)
    requires SendAll(w, batch).Some?
    ensures SendAll(w, batch).value.decisions == w.decisions
    decreases |batch|
  {
    if batch != [] {
      FireQuoteFrame(w, batch[0], SEND);
      SendAllKeepsDecisions(FireQuote(w, batch[0], SEND).value, batch[1..]);
    }
  }

  lemma SendElsewhere(w: World, k: LegId, input: SendInput, user: UserId, l: LegId)
    requires Inv(w) && SendForApproval(w, k, input, user).Done? && Stage(w, l) != DRAFT
    ensures Shortlisted(w, l).Some? && Shortlisted(SendForApproval(w, k, input, user).world, l) == Shortlisted(w, l)
    ensures SendsKept(w, SendForApproval(w, k, input, user).world, l, Shortlisted(w, l).value)
  {
    SendKeepsInv(w, k, input, user);
    WinnersAreUnderReview(w, l);
  }

  lemma RequoteElsewhere(w: World, k: LegId, p: QuoteId, l: LegId)
    requires Inv(w) && RequestRequote(w, k, p).Done? && Stage(w, l) != DRAFT
    ensures Shortlisted(w, l).Some? && Shortlisted(RequestRequote(w, k, p).world, l) == Shortlisted(w, l)
    ensures SendsKept(w, RequestRequote(w, k, p).world, l, Shortlisted(w, l).value)
  {
    assert LegAgrees(w, k) && QuoteAgrees(w, p);
    WinnersAreUnderReview(w, l);
    FireQuoteFrame(w, p, REQUEST_REQUOTE);
  }

  lemma {:induction false} SendStaysOnRecord(worlds: seq<World>, steps: seq<Step>, l: LegId, input: SendInput, user: UserId, i: nat, j: nat)
    requires IsRun(worlds, steps) && i < j < |worlds| && steps[i] == DoSend(l, input, user) && UnderReviewThrough(worlds, l, i, j)
    ensures l in worlds[i].legs && input.quote in worlds[i].quotes
    ensures Shortlisted(worlds[j], l) == Some(input.quote)
    ensures LatestQuoteSend(worlds[j].quoteLog, input.quote) == Some(QuoteEntry(input.quote, SEND_FOR_APPROVAL, worlds[i].quotes[input.quote].status, PENDING_APPROVAL))
    ensures LatestSend(worlds[j].legLog, l).Some? && LegSentFrom(worlds[i], l, LatestSend(worlds[j].legLog, l).value)
    decreases j
  {
    if j == i + 1 {
      RunKeepsInv(worlds, steps, i);
      assert Perform(worlds[i], steps[i]) == Done(worlds[i + 1]);
      SendKeepsInv(worlds[i], l, input, user);
    } else {
      SendStaysOnRecord(worlds, steps, l, input, user, i, j - 1);
      RunKeepsInv(worlds, steps, j - 1);
      assert Perform(worlds[j - 1], steps[j - 1]) == Done(worlds[j - 1 + 1]);
      LiveDecisionKeepsItsSend(worlds[j - 1], steps[j - 1], l);
    }
  }

  /** Sending an offer and later rejecting it, approved in between or not, puts the quote back on the
      status it was sent from, over any history of earlier sends and rejections and whatever else
      happens meanwhile. A leg sent from FULLY_QUOTED goes back there; any other goes to FULLY_QUOTED
      exactly when its quotes justify that by then, and else to PARTIALLY_QUOTED. */
  lemma SendThenRejectReturns(worlds: seq<World>, steps: seq<Step>, l: LegId, input: SendInput, sender: UserId,
                              i: nat, j: nat, reason: string, checker: UserId)
    requires IsRun(worlds, steps) && i < j < |steps| && steps[i] == DoSend(l, input, sender)
    requires UnderReviewThrough(worlds, l, i, j) && steps[j] == DoReject(l, reason, checker)
    ensures input.quote in worlds[i].quotes && input.quote in worlds[j + 1].quotes && l in worlds[i].legs && l in worlds[j + 1].legs
    ensures worlds[j + 1].quotes[input.quote].status == worlds[i].quotes[input.quote].status
    ensures worlds[j + 1].legs[l]
         == if worlds[i].legs[l] == FULLY_QUOTED || Rollup(worlds[j], l) == Some(FULLY_QUOTED) then FULLY_QUOTED else PARTIALLY_QUOTED
  {
    SendStaysOnRecord(worlds, steps, l, input, sender, i, j);
    RunKeepsInv(worlds, steps, i);
    RunKeepsInv(worlds, steps, j);
    assert Perform(worlds[i], steps[i]) == Done(worlds[i + 1]);
    assert Perform(worlds[j], steps[j]) == Done(worlds[j + 1]);
    SendKeepsInv(worlds[i], l, input, sender);
    RejectCompletes(worlds[j], l, reason, checker);
  }

  /** The other quotes of the leg are as they were. */
  ghost predicate SiblingsUnchanged(w: World, w': World, l: LegId, q: QuoteId) {
    && (forall p :: p in w.quotes && p != q && w.quotes[p].leg == l ==> OnLeg(w', p, l) && w'.quotes[p].status == w.quotes[p].status)
    && (forall p :: p in w'.quotes && p != q && w'.quotes[p].leg == l ==> OnLeg(w, p, l) && w'.quotes[p].status == w.quotes[p].status)
  }

  /** With its siblings unchanged, rejecting puts a leg sent from FULLY_QUOTED or PARTIALLY_QUOTED back
      exactly as it left. */
  lemma RejectRestoresLeg(worlds: seq<World>, steps: seq<Step>, l: LegId, input: SendInput, sender: UserId,
                          i: nat, j: nat, reason: string, checker: UserId)
    requires IsRun(worlds, steps) && i < j < |steps| && steps[i] == DoSend(l, input, sender)
    requires UnderReviewThrough(worlds, l, i, j) && steps[j] == DoReject(l, reason, checker)
    requires l in worlds[i].legs && (worlds[i].legs[l] == FULLY_QUOTED || worlds[i].legs[l] == PARTIALLY_QUOTED)
    requires SiblingsUnchanged(worlds[i], worlds[j], l, input.quote)
    ensures l in worlds[j + 1].legs && worlds[j + 1].legs[l] == worlds[i].legs[l]
  {
    SendThenRejectReturns(worlds, steps, l, input, sender, i, j, reason, checker);
    RunKeepsInv(worlds, steps, i);
    RunKeepsInv(worlds, steps, j);
    assert Perform(worlds[i], steps[i]) == Done(worlds[i + 1]);
    SendStaysOnRecord(worlds, steps, l, input, sender, i, j);
    WinnersAreUnderReview(worlds[j], l);
    assert CaughtUp(worlds[i], l);
    SiblingsKeepFullness(worlds[i], worlds[j], l, input.quote);
  }

  lemma SiblingsKeepFullness(w: World, w': World, l: LegId, q: QuoteId)
    requires OnLeg(w, q, l) && OnLeg(w', q, l) && SiblingsUnchanged(w, w', l, q)
    requires Resolved(w.quotes[q].status) && Resolved(w'.quotes[q].status)
    ensures Rollup(w, l) == Some(FULLY_QUOTED) <==> Rollup(w', l) == Some(FULLY_QUOTED)
  {
    var a, b := StatusesOn(w, l) - {SELECT}, StatusesOn(w', l) - {SELECT};
    assert w.quotes[q].status in a && w'.quotes[q].status in b;
    forall s | !Resolved(s)
      ensures s in a <==> s in b
    {
      if s in a {
        var p :| p in w.quotes && w.quotes[p].leg == l && w.quotes[p].status == s;
        assert OnLeg(w', p, l) && w'.quotes[p].status == s;
      }
      if s in b {
        var p :| p in w'.quotes && w'.quotes[p].leg == l && w'.quotes[p].status == s;
        assert OnLeg(w, p, l) && w.quotes[p].status == s;
      }
    }
  }
}
