/** The approval aggregate: statuses, intents, stored approvals and the evidence invariant. */
module Model {
  import opened Wrappers
  import opened Instants

  datatype ApprovalStatus = Pending | Approved | Rejected | Cancelled | Expired {
    function Text(): string {
      match this
      case Pending => "pending"
      case Approved => "approved"
      case Rejected => "rejected"
      case Cancelled => "cancelled"
      case Expired => "expired"
    }
  }

  datatype StorageError =
    | Unavailable
    | InvalidStatus(status: string)
    | InvalidRevision
    | InvalidEvidence
    | InconsistentIdempotency

  datatype DomainFailure =
    | IdempotencyConflict
    | RequestNotFound
    | AlreadyTerminal
    | NotRequester
    | NotDue

  datatype RequestIntent = RequestIntent(
    requestId: string,
    requesterInstance: string,
    idempotencyKey: string,
    requestedBy: string,
    approvalKind: string,
    subjectKind: string,
    subjectId: string,
    intentDigest: Option<string>,
    requestedAt: Instant,
    expiresAt: Instant)

  /** The source keeps the intent's fields flat in the stored record; here they are one field. */
  datatype StoredApproval = StoredApproval(
    intent: RequestIntent,
    status: ApprovalStatus,
    revision: int,
    terminalCaller: Option<string>,
    terminalActor: Option<string>,
    evidenceRef: Option<string>,
    reason: Option<string>,
    terminalAt: Option<Instant>)

  function ParseStatus(text: string): Result<ApprovalStatus, StorageError> {
    if text == "pending" then Success(Pending)
    else if text == "approved" then Success(Approved)
    else if text == "rejected" then Success(Rejected)
    else if text == "cancelled" then Success(Cancelled)
    else if text == "expired" then Success(Expired)
    else Failure(InvalidStatus(text))
  }

  /** The stored text of a status determines it, and no other text parses. */
  lemma StatusTextRoundTrip(status: ApprovalStatus, text: string)
    ensures ParseStatus(status.Text()) == Success(status)
    ensures ParseStatus(text).Success? ==> ParseStatus(text).value.Text() == text
  {
    assert |"pending"| == 7 && |"expired"| == 7 && "pending"[0] != "expired"[0];
    assert |"approved"| == 8 && |"rejected"| == 8 && "approved"[0] != "rejected"[0];
    assert |"cancelled"| == 9;
  }

  predicate EvidenceValid(a: StoredApproval) {
    match a.status
    case Pending =>
      a.revision == 1 && a.terminalCaller.None? && a.terminalActor.None?
      && a.evidenceRef.None? && a.reason.None? && a.terminalAt.None?
    case Approved =>
      a.revision == 2 && a.terminalCaller.Some? && a.terminalActor.Some?
      && a.evidenceRef.Some? && a.terminalAt.Some?
    case Rejected =>
      a.revision == 2 && a.terminalCaller.Some? && a.terminalActor.Some?
      && a.evidenceRef.Some? && a.terminalAt.Some?
    case Cancelled =>
      a.revision == 2 && a.terminalCaller.Some? && a.terminalActor.Some?
      && a.evidenceRef.None? && a.terminalAt.Some?
    case Expired =>
      a.revision == 2 && a.terminalCaller.Some? && a.terminalActor.None?
      && a.evidenceRef.None? && a.reason.None? && a.terminalAt.Some?
  }

  predicate SameIntent(a: StoredApproval, intent: RequestIntent) {
    && a.intent.requestId == intent.requestId
    && a.intent.requesterInstance == intent.requesterInstance
    && a.intent.idempotencyKey == intent.idempotencyKey
    && a.intent.requestedBy == intent.requestedBy
    && a.intent.approvalKind == intent.approvalKind
    && a.intent.subjectKind == intent.subjectKind
    && a.intent.subjectId == intent.subjectId
    && a.intent.intentDigest == intent.intentDigest
    && a.intent.expiresAt == intent.expiresAt
  }

  /** The comparison skips requested_at and nothing else. */
  lemma SameIntentIsExact(a: StoredApproval, intent: RequestIntent)
    ensures SameIntent(a, intent) <==> a.intent.(requestedAt := intent.requestedAt) == intent
  {
  }

  /** Two intents compete for a row when they share the request id or the delivery key. */
  predicate Collide(a: RequestIntent, b: RequestIntent) {
    || a.requestId == b.requestId
    || (a.requesterInstance == b.requesterInstance && a.idempotencyKey == b.idempotencyKey)
  }

  predicate ValidDigest(digest: string) {
    |digest| == 64 && forall i :: 0 <= i < |digest| ==> '0' <= digest[i] <= '9' || 'a' <= digest[i] <= 'f'
  }
}
