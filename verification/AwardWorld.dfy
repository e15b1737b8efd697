/** The award state of one query, and what each operation does to it: award.service.ts,
    negotiation.service.ts, leg-quote.projector.ts, status.service.ts, the RFQ and portal writes, and
    the change-order cascade. */
module AwardWorld {
  import opened Wrappers
  import opened AwardMachines

  type LegId = nat
  type QuoteId = nat
  type UserId = nat

  /** submitted: the quote carries a submittedJson. */
  datatype Quote = Quote(leg: LegId, status: QuoteStatus, submitted: bool)

  datatype DecisionStatus = DRAFT | PENDING | DECIDED

  datatype Decision = Decision(status: DecisionStatus, shortlisted: Option<QuoteId>, sentBy: Option<UserId>)

  /** One row of the transition log. */
  datatype LegEntry = LegEntry(leg: LegId, event: LegEvent, from: LegStatus, to: LegStatus, reason: Option<string>)
  datatype QuoteEntry = QuoteEntry(quote: QuoteId, event: QuoteEvent, from: QuoteStatus, to: QuoteStatus)

  /** snapshot: the winner of every leg, while the award is frozen. */
  datatype World = World(legs: map<LegId, LegStatus>, quotes: map<QuoteId, Quote>, decisions: map<LegId, Decision>,
                         legLog: seq<LegEntry>, quoteLog: seq<QuoteEntry>, snapshot: Option<map<LegId, QuoteId>>)

  /** Refused writes nothing. Wedged is an IllegalTransitionError after the decision was committed. */
  datatype Outcome = Refused | Done(world: World) | Wedged(world: World)

  // Status changes.

  function StatusesOn(w: World, l: LegId): set<QuoteStatus> {
    set q | q in w.quotes && w.quotes[q].leg == l :: w.quotes[q].status
  }

  function Rollup(w: World, l: LegId): Option<LegStatus> {
    RollupLegTarget(StatusesOn(w, l))
  }

  /** StatusService.fire on a leg: looks up the edge, logs it, stores the new status. */
  function FireLeg(w: World, l: LegId, e: LegEvent, reason: Option<string>): Option<World>
    requires l in w.legs
  {
    var to := LegEdge(w.legs[l], e);
    if to.None? then None
    else Some(w.(legs := w.legs[l := to.value], legLog := w.legLog + [LegEntry(l, e, w.legs[l], to.value, reason)]))
  }

  /** A fire whose failure is logged and swallowed. */
  function TryFireLeg(w: World, l: LegId, e: LegEvent): World
    requires l in w.legs
  {
    FireLeg(w, l, e, None).UnwrapOr(w)
  }

  /** LegQuoteProjector.recomputeLeg. */
  function RecomputeLeg(w: World, l: LegId, requote: bool): World {
    if l !in w.legs || LegUnderReview(w.legs[l]) then w
    else
      var s, target := w.legs[l], Rollup(w, l);
      if target == Some(FULLY_QUOTED) && s != FULLY_QUOTED then TryFireLeg(w, l, QUOTE_FULL)
      else if target.Some? && target.value != s && s == LEG_RFQ_SENT then TryFireLeg(w, l, QUOTE_PARTIAL)
      else if !requote || (s != FULLY_QUOTED && s != PARTIALLY_QUOTED) then w
      else
        var back := if target.Some? then target else if StatusesOn(w, l) - {SELECT} != {} then Some(LEG_RFQ_SENT) else None;
        if back.None? || back.value == s then w
        else if back.value == PARTIALLY_QUOTED then TryFireLeg(w, l, REQUOTE_PARTIAL)
        else if back.value == LEG_RFQ_SENT then TryFireLeg(w, l, REQUOTE_OUTSTANDING)
        else w
  }

  /** A quote's own row change and log entry. */
  function SetQuote(w: World, q: QuoteId, e: QuoteEvent, to: QuoteStatus): World
    requires q in w.quotes
  {
    w.(quotes := w.quotes[q := w.quotes[q].(status := to)], quoteLog := w.quoteLog + [QuoteEntry(q, e, w.quotes[q].status, to)])
  }

  /** StatusService.fire on a quote: after the commit the projector recomputes the leg. */
  function FireQuote(w: World, q: QuoteId, e: QuoteEvent): Option<World>
    requires q in w.quotes
  {
    var to := QuoteEdge(w.quotes[q].status, e);
    if to.None? then None else Some(RecomputeLeg(SetQuote(w, q, e, to.value), w.quotes[q].leg, to.value == REQUOTED))
  }

  // Reading the state.

  function Stage(w: World, l: LegId): DecisionStatus {
    if l in w.decisions then w.decisions[l].status else DRAFT
  }

  function Shortlisted(w: World, l: LegId): Option<QuoteId> {
    if l in w.decisions then w.decisions[l].shortlisted else None
  }

  predicate Locked(w: World) {
    w.snapshot.Some?
  }

  /** latestSendForApproval: the last send entry of the leg. */
  function LatestSend(log: seq<LegEntry>, l: LegId): Option<LegEntry> {
    if log == [] then None
    else
      var last := log[|log| - 1];
      if last.leg == l && last.event == LEG_SEND_FOR_APPROVAL && last.to == LEG_PENDING then Some(last)
      else LatestSend(log[..|log| - 1], l)
  }

  function LatestQuoteSend(log: seq<QuoteEntry>, q: QuoteId): Option<QuoteEntry> {
    if log == [] then None
    else
      var last := log[|log| - 1];
      if last.quote == q && last.event == SEND_FOR_APPROVAL && last.to == PENDING_APPROVAL then Some(last)
      else LatestQuoteSend(log[..|log| - 1], q)
  }

  /** isFullyQuotedForDecision: the leg held FULLY_QUOTED when it was sent, or its quotes justify it now. */
  predicate FullyQuotedForDecision(w: World, l: LegId) {
    var sent := LatestSend(w.legLog, l);
    (sent.Some? && sent.value.from == FULLY_QUOTED) || Rollup(w, l) == Some(FULLY_QUOTED)
  }

  predicate Permitted(w: World, l: LegId) {
    var sent := LatestSend(w.legLog, l);
    sent.Some? && sent.value.reason.Some?
  }

  predicate WasExpiredWhenSent(w: World, q: QuoteId) {
    var sent := LatestQuoteSend(w.quoteLog, q);
    sent.Some? && sent.value.from == EXPIRED
  }

  // sendForApproval.

  /** The request, with what the model takes from outside: whether the compare grid lists the named
      variant as priced, whether a needed override reason was given, and which forwarders' windows
      have closed by now. */
  datatype SendInput = SendInput(quote: QuoteId, priced: bool, justified: bool, proceedReason: Option<string>, windowClosed: set<QuoteId>)

  predicate Comparable(s: QuoteStatus) {
    s in {QUOTED, REQUOTED, PENDING_APPROVAL, APPROVED, EXPIRED}
  }

  predicate Sendable(s: QuoteStatus) {
    s == QUOTED || s == EXPIRED
  }

  predicate Outstanding(s: QuoteStatus) {
    s == RFQ_SENT || s == REQUOTED || s == INVALID
  }

  predicate OnLeg(w: World, q: QuoteId, l: LegId) {
    q in w.quotes && w.quotes[q].leg == l
  }

  predicate RequoteInFlight(w: World, l: LegId) {
    exists q :: q in w.quotes && w.quotes[q].leg == l && w.quotes[q].status == REQUOTED
  }

  /** The quotes the sender still has to wait for. */
  function WaitedOn(w: World, l: LegId, waiveRequotes: bool): set<QuoteId> {
    set q | q in w.quotes && w.quotes[q].leg == l && Outstanding(w.quotes[q].status) && !(waiveRequotes && w.quotes[q].status == REQUOTED)
  }

  predicate ProceedOverride(w: World, l: LegId, input: SendInput) {
    RequoteInFlight(w, l) && input.proceedReason.Some?
  }

  /** Rule A3: fully quoted, every awaited window closed, or nothing left to wait for. */
  predicate MayStopWaiting(w: World, l: LegId, input: SendInput)
    requires l in w.legs
  {
    var waived := ProceedOverride(w, l, input);
    var waitedOn := WaitedOn(w, l, waived);
    w.legs[l] == FULLY_QUOTED || (waitedOn != {} && waitedOn <= input.windowClosed) || (waived && waitedOn == {})
  }

  /** Every guard of sendForApproval, in order. */
  predicate SendAllowed(w: World, l: LegId, input: SendInput) {
    && !Locked(w) && l in w.legs
    && OnLeg(w, input.quote, l) && Comparable(w.quotes[input.quote].status) && w.quotes[input.quote].submitted && input.priced
    && Sendable(w.quotes[input.quote].status)
    && Stage(w, l) == DRAFT
    && (RequoteInFlight(w, l) ==> ProceedOverride(w, l, input))
    && MayStopWaiting(w, l, input)
    && input.justified
  }

  const DEADLINE_PERMISSION := "All outstanding RFQ windows had closed at send time"

  /** What is recorded on the leg's transition: nothing when it was fully quoted, else why it may be sent. */
  function SendPermission(w: World, l: LegId, input: SendInput): Option<string>
    requires l in w.legs
  {
    if w.legs[l] == FULLY_QUOTED then None
    else if ProceedOverride(w, l, input) then input.proceedReason
    else Some(DEADLINE_PERMISSION)
  }

  /** The fires that follow a committed decision: the quote's, then the leg's. */
  function AfterCommit(committed: World, q: QuoteId, quoteEvent: QuoteEvent, l: LegId, legEvent: LegEvent, reason: Option<string>): Outcome
    requires q in committed.quotes
  {
    var moved := FireQuote(committed, q, quoteEvent);
    if moved.None? then Wedged(committed)
    else if l !in moved.value.legs then Wedged(moved.value)
    else
      var fired := FireLeg(moved.value, l, legEvent, reason);
      if fired.None? then Wedged(moved.value) else Done(fired.value)
  }

  function SendForApproval(w: World, l: LegId, input: SendInput, user: UserId): Outcome {
    if !SendAllowed(w, l, input) then Refused
    else
      var committed := w.(decisions := w.decisions[l := Decision(PENDING, Some(input.quote), Some(user))]);
      AfterCommit(committed, input.quote, SEND_FOR_APPROVAL, l, LEG_SEND_FOR_APPROVAL, SendPermission(w, l, input))
  }

  // approve and reject.

  predicate ApproveAllowed(w: World, l: LegId, user: UserId) {
    && !Locked(w) && l in w.legs && l in w.decisions
    && w.decisions[l].status == PENDING && w.decisions[l].sentBy != Some(user)
    && (FullyQuotedForDecision(w, l) || Permitted(w, l))
    && w.decisions[l].shortlisted.Some?
    && w.decisions[l].shortlisted.value in w.quotes && w.quotes[w.decisions[l].shortlisted.value].status == PENDING_APPROVAL
  }

  function Approve(w: World, l: LegId, user: UserId): Outcome {
    if !ApproveAllowed(w, l, user) then Refused
    else
      var q := w.decisions[l].shortlisted.value;
      var committed := w.(decisions := w.decisions[l := w.decisions[l].(status := DECIDED)]);
      AfterCommit(committed, q, APPROVE, l, LEG_APPROVE, None)
  }

  predicate RejectAllowed(w: World, l: LegId, user: UserId) {
    && !Locked(w) && l in w.legs && l in w.decisions
    && (w.decisions[l].status == DECIDED || (w.decisions[l].status == PENDING && w.decisions[l].sentBy != Some(user)))
  }

  predicate QuoteNeedsReturn(w: World, q: Option<QuoteId>) {
    q.Some? && q.value in w.quotes && QuoteUnderReview(w.quotes[q.value].status)
  }

  function ReturnEvent(w: World, q: QuoteId): QuoteEvent
    requires q in w.quotes
  {
    if WasExpiredWhenSent(w, q) then RETURN_EXPIRED
    else if w.quotes[q].status == APPROVED then UNAPPROVE
    else RETURN
  }

  function Reject(w: World, l: LegId, reason: string, user: UserId): Outcome {
    if !RejectAllowed(w, l, user) then Refused
    else
      var legNeedsReturn := LegUnderReview(w.legs[l]);
      var q := w.decisions[l].shortlisted;
      var legEvent := if FullyQuotedForDecision(w, l) then RETURN_FULL else RETURN_PARTIAL;
      var committed := w.(decisions := w.decisions[l := w.decisions[l].(status := DRAFT, sentBy := None)]);
      var moved := if QuoteNeedsReturn(w, q) then FireQuote(committed, q.value, ReturnEvent(w, q.value)) else Some(committed);
      if moved.None? || l !in moved.value.legs then Wedged(committed)
      else if !legNeedsReturn then Done(moved.value)
      else
        var returned := FireLeg(moved.value, l, legEvent, Some(reason));
        if returned.None? then Wedged(moved.value) else Done(returned.value)
  }

  // requestRequote.

  predicate Requotable(s: QuoteStatus) {
    s == QUOTED || s == APPROVED || s == EXPIRED
  }

  predicate RequoteAllowed(w: World, l: LegId, q: QuoteId) {
    !Locked(w) && OnLeg(w, q, l) && Stage(w, l) == DRAFT && Requotable(w.quotes[q].status)
  }

  function DecisionReset(w: World, l: LegId): World {
    if l in w.decisions then w.(decisions := w.decisions[l := Decision(DRAFT, None, None)]) else w
  }

  function RequestRequote(w: World, l: LegId, q: QuoteId): Outcome {
    if !RequoteAllowed(w, l, q) then Refused
    else
      var wasApproved := l in w.legs && w.legs[l] == LEG_APPROVED;
      var asked := FireQuote(w, q, REQUEST_REQUOTE);
      if asked.None? then Wedged(w)
      else if !wasApproved then Done(DecisionReset(asked.value, l).(snapshot := None))
      else if l !in asked.value.legs then Wedged(asked.value)
      else
        var reopened := FireLeg(asked.value, l, REOPEN_AWARD, None);
        if reopened.None? then Wedged(asked.value)
        else Done(DecisionReset(RecomputeLeg(reopened.value, l, true), l).(snapshot := None))
  }

  // The forwarder's portal and the deadline sweep.

  predicate Writable(s: QuoteStatus) {
    s == RFQ_SENT || s == REQUOTED
  }

  /** closedLegReasons, for one quote: its leg is approved for another. */
  predicate ClosedTo(w: World, q: QuoteId)
    requires q in w.quotes
  {
    Stage(w, w.quotes[q].leg) == DECIDED && Shortlisted(w, w.quotes[q].leg) != Some(q)
  }

  /** The write guard saveDraft and submit share. */
  predicate PortalOpen(w: World, q: QuoteId) {
    q in w.quotes && !ClosedTo(w, q) && Writable(w.quotes[q].status)
  }

  /** submit: stores the offer, then fires. */
  function Submit(w: World, q: QuoteId): Outcome {
    if !PortalOpen(w, q) then Refused
    else
      var stored := w.(quotes := w.quotes[q := w.quotes[q].(submitted := true)]);
      var fired := FireQuote(stored, q, SUBMIT);
      if fired.None? then Wedged(stored) else Done(fired.value)
  }

  /** The sweep, for one quote still open when its window closes. */
  function Expire(w: World, q: QuoteId): Outcome {
    if q !in w.quotes || !Writable(w.quotes[q].status) then Refused
    else
      var fired := FireQuote(w, q, EXPIRE);
      if fired.None? then Wedged(w) else Done(fired.value)
  }

  // Distribution.

  function AddLeg(w: World, l: LegId): Outcome {
    if Locked(w) || l in w.legs || l in w.decisions then Refused else Done(w.(legs := w.legs[l := DRAFT_LEG]))
  }

  /** Create Query: the leg's route has been validated. */
  function ValidateLeg(w: World, l: LegId): Outcome {
    if Locked(w) || l !in w.legs then Refused
    else
      var fired := FireLeg(w, l, VALIDATE_PASS, None);
      if fired.None? then Refused else Done(fired.value)
  }

  function AddCandidate(w: World, l: LegId, q: QuoteId): Outcome {
    if Locked(w) || l !in w.legs || q in w.quotes then Refused
    else Done(w.(quotes := w.quotes[q := Quote(l, SELECT, false)]))
  }

  function RemoveCandidate(w: World, q: QuoteId): Outcome {
    if Locked(w) || q !in w.quotes || w.quotes[q].status != SELECT then Refused
    else Done(w.(quotes := map p | p in w.quotes && p != q :: w.quotes[p]))
  }

  /** Fresh or invalidated quotes of the leg. */
  predicate Distributable(w: World, l: LegId, q: QuoteId) {
    OnLeg(w, q, l) && (w.quotes[q].status == SELECT || w.quotes[q].status == INVALID)
  }

  /** The distribution's transaction: old offers are cleared. */
  function OffersCleared(w: World, batch: seq<QuoteId>): World {
    w.(quotes := map q | q in w.quotes :: if q in batch then w.quotes[q].(submitted := false) else w.quotes[q])
  }

  /** The SEND fires, one quote after another. */
  function SendAll(w: World, batch: seq<QuoteId>): Option<World>
    decreases |batch|
  {
    if batch == [] then Some(w)
    else if batch[0] !in w.quotes then None
    else
      var fired := FireQuote(w, batch[0], SEND);
      if fired.None? then None else SendAll(fired.value, batch[1..])
  }

  predicate DistributeAllowed(w: World, l: LegId, batch: seq<QuoteId>) {
    && !Locked(w) && l in w.legs && w.legs[l] != DRAFT_LEG && batch != []
    && (forall q :: q in batch ==> Distributable(w, l, q))
    && (forall q :: q in w.quotes && Distributable(w, l, q) ==> q in batch)
    && (forall i, j :: 0 <= i < j < |batch| ==> batch[i] != batch[j])
  }

  /** distributeLeg: sends every fresh and invalidated quote of the leg, then moves a ready leg on. */
  function Distribute(w: World, l: LegId, batch: seq<QuoteId>): Outcome {
    if !DistributeAllowed(w, l, batch) then Refused
    else
      var sent := SendAll(OffersCleared(w, batch), batch);
      if sent.None? || l !in sent.value.legs then Wedged(w)
      else if w.legs[l] != READY_FOR_RFQ then Done(sent.value)
      else
        var fired := FireLeg(sent.value, l, SEND_RFQ, None);
        if fired.None? then Wedged(sent.value) else Done(fired.value)
  }

  // The change-order cascade on one leg.

  /** A commitment the change order must undo. */
  predicate InvalidatedByChangeOrder(quote: Quote) {
    quote.status in {QUOTED, PENDING_APPROVAL, APPROVED} || (quote.status == EXPIRED && quote.submitted)
  }

  predicate LiveQuote(quote: Quote) {
    quote.status == RFQ_SENT || InvalidatedByChangeOrder(quote)
  }

  function InvalidateAll(w: World, batch: seq<QuoteId>): Option<World>
    decreases |batch|
  {
    if batch == [] then Some(w)
    else if batch[0] !in w.quotes then None
    else
      var fired := FireQuote(w, batch[0], INVALIDATE);
      if fired.None? then None else InvalidateAll(fired.value, batch[1..])
  }

  /** The leg carries a live quote, and batch lists the ones to invalidate. */
  predicate ChangeOrderApplies(w: World, l: LegId, batch: seq<QuoteId>) {
    && !Locked(w) && l in w.legs
    && (exists q :: q in w.quotes && w.quotes[q].leg == l && LiveQuote(w.quotes[q]))
    && (forall q :: q in batch ==> OnLeg(w, q, l) && InvalidatedByChangeOrder(w.quotes[q]))
    && (forall q :: q in w.quotes && w.quotes[q].leg == l && InvalidatedByChangeOrder(w.quotes[q]) ==> q in batch)
    && (forall i, j :: 0 <= i < j < |batch| ==> batch[i] != batch[j])
  }

  /** Invalidates the offers, reopens the leg, and resets the decision. */
  function ChangeOrder(w: World, l: LegId, batch: seq<QuoteId>): Outcome {
    if !ChangeOrderApplies(w, l, batch) then Refused
    else
      var undone := InvalidateAll(w, batch);
      if undone.None? || l !in undone.value.legs then Wedged(w)
      else
        var reopened := FireLeg(undone.value, l, REOPEN, None);
        if reopened.None? then Wedged(undone.value) else Done(DecisionReset(reopened.value, l).(snapshot := None))
  }

  // generateClientQuote and reopenComparison.

  predicate GenerateAllowed(w: World, priceable: bool) {
    && !Locked(w) && w.legs != map[]
    && (forall l :: l in w.legs ==> Stage(w, l) == DECIDED && Shortlisted(w, l).Some? && Shortlisted(w, l).value in w.quotes)
    && priceable
  }

  /** One winner per leg. */
  function GenerateClientQuote(w: World, priceable: bool): Outcome {
    if !GenerateAllowed(w, priceable) then Refused
    else Done(w.(snapshot := Some(map l | l in w.legs :: w.decisions[l].shortlisted.value)))
  }

  function ReopenComparison(w: World): Outcome {
    if !Locked(w) then Refused else Done(w.(snapshot := None))
  }
}
