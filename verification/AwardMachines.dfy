/** packages/shared/src/status.ts and the transition tables that leg.machine.ts, quote.machine.ts,
    rfq.module.ts and award.module.ts register. */
module AwardMachines {
  import opened Wrappers

  datatype LegStatus =
    | DRAFT_LEG | READY_FOR_RFQ | LEG_RFQ_SENT | PARTIALLY_QUOTED | FULLY_QUOTED
    | LEG_PENDING | LEG_APPROVED | AWARDED | IN_TRANSIT | DELIVERED | LEG_CLOSED

  datatype LegEvent =
    | VALIDATE_PASS | REOPEN | SEND_RFQ | QUOTE_PARTIAL | QUOTE_FULL | LEG_SEND_FOR_APPROVAL | LEG_APPROVE
    | RETURN_FULL | RETURN_PARTIAL | REOPEN_AWARD | REQUOTE_PARTIAL | REQUOTE_OUTSTANDING

  datatype QuoteStatus =
    | SELECT | RFQ_SENT | QUOTED | EXPIRED | INVALID | REQUOTED | PENDING_APPROVAL | CLOSED | APPROVED

  datatype QuoteEvent =
    | SEND | SUBMIT | EXPIRE | INVALIDATE | SEND_FOR_APPROVAL | APPROVE | RETURN | UNAPPROVE | RETURN_EXPIRED | REQUEST_REQUOTE

  /** findTransition on the leg machine; None is IllegalTransitionError. */
  function LegEdge(from: LegStatus, on: LegEvent): Option<LegStatus> {
    match on
    case VALIDATE_PASS => if from == DRAFT_LEG then Some(READY_FOR_RFQ) else None
    case REOPEN =>
      if from == READY_FOR_RFQ then Some(DRAFT_LEG)
      else if from in {LEG_RFQ_SENT, PARTIALLY_QUOTED, FULLY_QUOTED, LEG_APPROVED, LEG_PENDING} then Some(READY_FOR_RFQ)
      else None
    case SEND_RFQ => if from == READY_FOR_RFQ then Some(LEG_RFQ_SENT) else None
    case QUOTE_PARTIAL => if from == LEG_RFQ_SENT then Some(PARTIALLY_QUOTED) else None
    case QUOTE_FULL => if from == LEG_RFQ_SENT || from == PARTIALLY_QUOTED then Some(FULLY_QUOTED) else None
    case LEG_SEND_FOR_APPROVAL => if from == FULLY_QUOTED || from == PARTIALLY_QUOTED then Some(LEG_PENDING) else None
    case LEG_APPROVE => if from == LEG_PENDING then Some(LEG_APPROVED) else None
    case RETURN_FULL => if from == LEG_PENDING || from == LEG_APPROVED then Some(FULLY_QUOTED) else None
    case RETURN_PARTIAL => if from == LEG_PENDING || from == LEG_APPROVED then Some(PARTIALLY_QUOTED) else None
    case REOPEN_AWARD => if from == LEG_APPROVED then Some(FULLY_QUOTED) else None
    case REQUOTE_PARTIAL => if from == FULLY_QUOTED then Some(PARTIALLY_QUOTED) else None
    case REQUOTE_OUTSTANDING => if from == FULLY_QUOTED || from == PARTIALLY_QUOTED then Some(LEG_RFQ_SENT) else None
  }

  /** findTransition on the quote machine. */
  function QuoteEdge(from: QuoteStatus, on: QuoteEvent): Option<QuoteStatus> {
    match on
    case SEND => if from == SELECT || from == INVALID then Some(RFQ_SENT) else None
    case SUBMIT => if from == RFQ_SENT || from == REQUOTED then Some(QUOTED) else None
    case EXPIRE => if from == RFQ_SENT || from == REQUOTED then Some(EXPIRED) else None
    case INVALIDATE => if from in {QUOTED, PENDING_APPROVAL, APPROVED, EXPIRED} then Some(INVALID) else None
    case SEND_FOR_APPROVAL => if from == QUOTED || from == EXPIRED then Some(PENDING_APPROVAL) else None
    case APPROVE => if from == PENDING_APPROVAL then Some(APPROVED) else None
    case RETURN => if from == PENDING_APPROVAL then Some(QUOTED) else None
    case UNAPPROVE => if from == APPROVED then Some(QUOTED) else None
    case RETURN_EXPIRED => if from == PENDING_APPROVAL || from == APPROVED then Some(EXPIRED) else None
    case REQUEST_REQUOTE => if from in {QUOTED, PENDING_APPROVAL, APPROVED, EXPIRED} then Some(REQUOTED) else None
  }

  /** Statuses the approval flow owns; the rollup never touches a leg in one of them. */
  predicate LegUnderReview(s: LegStatus) {
    s == LEG_PENDING || s == LEG_APPROVED
  }

  predicate QuoteUnderReview(s: QuoteStatus) {
    s == PENDING_APPROVAL || s == APPROVED
  }

  /** A quote the rollup is no longer waiting for. */
  predicate Resolved(s: QuoteStatus) {
    s in {QUOTED, EXPIRED, CLOSED, PENDING_APPROVAL, APPROVED}
  }

  /** rollupLegTarget: what a leg's status should be, given the statuses of its quotes. */
  function RollupLegTarget(statuses: set<QuoteStatus>): Option<LegStatus> {
    var distributed := statuses - {SELECT};
    if distributed == {} then None
    else if forall s :: s in distributed ==> Resolved(s) then Some(FULLY_QUOTED)
    else if QUOTED in distributed then Some(PARTIALLY_QUOTED)
    else None
  }
}
