/** The shared service: admission, exact-caller authority, and the projection of store results. */
module Service {
  import opened Wrappers
  import opened Instants
  import opened Model
  import opened Spec
  import Codec

  datatype Policy = Policy(requesters: seq<string>, deciders: seq<string>, executors: seq<string>) {
    predicate CanRequest(caller: string) {
      caller in requesters
    }

    predicate CanDecide(caller: string) {
      caller in deciders
    }

    predicate CanExpire(caller: string) {
      caller in executors
    }

    predicate CanRead(caller: string) {
      CanRequest(caller) || CanDecide(caller) || CanExpire(caller)
    }

    predicate CanReadAnyRequest(caller: string) {
      CanDecide(caller) || CanExpire(caller)
    }
  }

  // deniesHuman: what the authorization library says of the context; that library is not part of
  // this model.
  datatype Context = Context(caller: Option<string>, deniesHuman: bool)

  // A deadline that is not RFC 3339 is None.
  datatype Call =
    | RequestCall(requestId: string, idempotencyKey: string, requestedBy: string, approvalKind: string,
                  subjectKind: string, subjectId: string, intentDigest: Option<string>, expiresAt: Option<Instant>)
    | DecideCall(requestId: string, approve: bool, decidedBy: string, evidenceRef: string, reason: Option<string>)
    | CancelCall(requestId: string, cancelledBy: string, reason: Option<string>)
    | ReadCall(requestId: string)
    | ExpireCall(requestId: string)

  datatype RuntimeFault =
    | StorageFault(error: StorageError)
    | TimestampOutOfRange
    | BadRevision
    | InconsistentEvidence
    | Unformattable

  datatype Response =
    | RequestResponse(created: bool, requestId: string, status: ApprovalStatus, revision: int)
    | TransitionResponse(requestId: string, status: ApprovalStatus, revision: int, terminalCaller: string,
                         terminalActor: Option<string>, evidenceRef: Option<string>, reason: Option<string>,
                         terminalAt: Instant)
    | ReadResponse(approval: StoredApproval)

  datatype Answer<+T> = Ok(value: T) | Domain(error: Codec.Variant) | Runtime(fault: RuntimeFault)

  // Validators. Lengths count UTF-8 bytes; whatever else passes a byte test is ASCII.

  predicate Alphanumeric(c: char) {
    'a' <= c <= 'z' || 'A' <= c <= 'Z' || '0' <= c <= '9'
  }

  predicate ValidIdentifier(value: string, maximum: nat) {
    value != "" && |value| <= maximum
    && forall k :: 0 <= k < |value| ==> Alphanumeric(value[k]) || value[k] in {'.', '_', '-', ':'}
  }

  predicate ValidReference(value: string) {
    value != "" && |value| <= 512
    && forall k :: 0 <= k < |value| ==> Alphanumeric(value[k]) || value[k] in {'.', '_', '-', ':', '/'}
  }

  predicate KindEdge(c: char) {
    'a' <= c <= 'z' || '0' <= c <= '9'
  }

  predicate ValidKind(value: string) {
    && value != "" && |value| <= 128
    && (forall k :: 0 <= k < |value| ==> KindEdge(value[k]) || value[k] in {'.', '_', '-'})
    && KindEdge(value[0]) && KindEdge(value[|value| - 1])
  }

  function Utf8Length(value: string): nat {
    if value == "" then 0
    else (if value[0] < '\U{80}' then 1
          else if value[0] < '\U{800}' then 2
          else if value[0] < '\U{10000}' then 3
          else 4)
         + Utf8Length(value[1..])
  }

  predicate Whitespace(c: char) {
    || '\U{9}' <= c <= '\U{D}' || '\U{2000}' <= c <= '\U{200A}'
    || c in {' ', '\U{85}', '\U{A0}', '\U{1680}', '\U{2028}', '\U{2029}', '\U{202F}', '\U{205F}', '\U{3000}'}
  }

  predicate Control(c: char) {
    c <= '\U{1F}' || '\U{7F}' <= c <= '\U{9F}'
  }

  predicate ValidReason(reason: Option<string>) {
    reason.Some? ==>
      && (exists k :: 0 <= k < |reason.value| && !Whitespace(reason.value[k]))
      && Utf8Length(reason.value) <= 1_000
      && (forall k :: 0 <= k < |reason.value| ==> !Control(reason.value[k]))
  }

  predicate ValidRequestFields(i: RequestIntent) {
    && ValidIdentifier(i.requestId, 128) && ValidIdentifier(i.idempotencyKey, 256)
    && ValidReference(i.requestedBy) && ValidKind(i.approvalKind) && ValidKind(i.subjectKind)
    && ValidReference(i.subjectId)
    && (i.intentDigest.Some? ==> ValidDigest(i.intentDigest.value))
    && (i.subjectKind == "management-operation" ==> i.intentDigest.Some?)
    && i.requestedAt < i.expiresAt
  }

  // Admission: what each operation checks before it calls the store.

  function AdmitRequest(policy: Policy, ctx: Context, now: Result<Instant, StorageError>, call: Call): Answer<Op>
    requires call.RequestCall?
  {
    if ctx.caller.None? || !policy.CanRequest(ctx.caller.value) then Domain(Codec.Forbidden)
    else if now.Failure? then Runtime(StorageFault(now.error))
    else
      var requestedAt := NormalizeTimestamp(now.value);
      if requestedAt.None? then Runtime(TimestampOutOfRange)
      else if call.expiresAt.None? then Domain(Codec.InvalidRequest)
      else
        var expiresAt := NormalizeTimestamp(call.expiresAt.value);
        if expiresAt.None? then Runtime(TimestampOutOfRange)
        else
          var intent := RequestIntent(call.requestId, ctx.caller.value, call.idempotencyKey, call.requestedBy,
                                      call.approvalKind, call.subjectKind, call.subjectId, call.intentDigest,
                                      requestedAt.value, expiresAt.value);
          if !ValidRequestFields(intent) then Domain(Codec.InvalidRequest) else Ok(Request(intent))
  }

  function AdmitDecide(policy: Policy, ctx: Context, call: Call): Answer<Op>
    requires call.DecideCall?
  {
    if ctx.caller.None? || !policy.CanDecide(ctx.caller.value) then Domain(Codec.Forbidden)
    else if ctx.deniesHuman then Domain(Codec.Forbidden)
    else if !ValidIdentifier(call.requestId, 128) || !ValidReference(call.decidedBy)
            || !ValidReference(call.evidenceRef) || !ValidReason(call.reason) then Domain(Codec.InvalidRequest)
    else Ok(Decide(call.requestId, if call.approve then Approved else Rejected, ctx.caller.value, call.decidedBy,
                   call.evidenceRef, call.reason))
  }

  function AdmitCancel(policy: Policy, ctx: Context, call: Call): Answer<Op>
    requires call.CancelCall?
  {
    if ctx.caller.None? || !policy.CanRequest(ctx.caller.value) then Domain(Codec.Forbidden)
    else if !ValidIdentifier(call.requestId, 128) || !ValidReference(call.cancelledBy) || !ValidReason(call.reason)
    then Domain(Codec.InvalidRequest)
    else Ok(Cancel(call.requestId, ctx.caller.value, call.cancelledBy, call.reason))
  }

  function AdmitRead(policy: Policy, ctx: Context, call: Call): Answer<Op>
    requires call.ReadCall?
  {
    if ctx.caller.None? || !policy.CanRead(ctx.caller.value) then Domain(Codec.Forbidden)
    else if !ValidIdentifier(call.requestId, 128) then Domain(Codec.InvalidRequest)
    else Ok(Read(call.requestId, if policy.CanReadAnyRequest(ctx.caller.value) then None else Some(ctx.caller.value)))
  }

  function AdmitExpire(policy: Policy, ctx: Context, call: Call): Answer<Op>
    requires call.ExpireCall?
  {
    if ctx.caller.None? || !policy.CanExpire(ctx.caller.value) then Domain(Codec.Forbidden)
    else if !ValidIdentifier(call.requestId, 128) then Domain(Codec.InvalidRequest)
    else Ok(Expire(call.requestId, ctx.caller.value))
  }

  function Admit(policy: Policy, ctx: Context, now: Result<Instant, StorageError>, call: Call): Answer<Op> {
    match call
    case RequestCall(_, _, _, _, _, _, _, _) => AdmitRequest(policy, ctx, now, call)
    case DecideCall(_, _, _, _, _) => AdmitDecide(policy, ctx, call)
    case CancelCall(_, _, _) => AdmitCancel(policy, ctx, call)
    case ReadCall(_) => AdmitRead(policy, ctx, call)
    case ExpireCall(_) => AdmitExpire(policy, ctx, call)
  }

  // Projection of what the store answers.

  function RevisionText(revision: int): Answer<int> {
    if revision < 1 then Runtime(BadRevision) else Ok(revision)
  }

  function FormatTimestamp(t: Instant): Answer<Instant> {
    if Writable(t) then Ok(t) else Runtime(Unformattable)
  }

  /** The bodies of decide_response, cancel_response and expire_response after their status test. */
  function TransitionBody(a: StoredApproval): Answer<Response> {
    if RevisionText(a.revision).Runtime? then Runtime(BadRevision)
    else if a.terminalCaller.None? then Runtime(InconsistentEvidence)
    else if a.terminalAt.None? then Runtime(InconsistentEvidence)
    else if FormatTimestamp(a.terminalAt.value).Runtime? then Runtime(Unformattable)
    else Ok(TransitionResponse(a.intent.requestId, a.status, a.revision, a.terminalCaller.value, a.terminalActor,
                               a.evidenceRef, a.reason, a.terminalAt.value))
  }

  function MapRequestFailure(f: DomainFailure): Codec.Variant {
    match f
    case IdempotencyConflict => Codec.IdempotencyConflict
    case _ => Codec.InvalidRequest
  }

  function MapDecideFailure(f: DomainFailure): Codec.Variant {
    match f
    case RequestNotFound => Codec.RequestNotFound
    case AlreadyTerminal => Codec.AlreadyTerminal
    case _ => Codec.InvalidRequest
  }

  function MapCancelFailure(f: DomainFailure): Codec.Variant {
    match f
    case RequestNotFound => Codec.RequestNotFound
    case AlreadyTerminal => Codec.AlreadyTerminal
    case NotRequester => Codec.NotRequester
    case _ => Codec.InvalidRequest
  }

  function MapExpireFailure(f: DomainFailure): Codec.Variant {
    match f
    case RequestNotFound => Codec.RequestNotFound
    case AlreadyTerminal => Codec.AlreadyTerminal
    case NotDue => Codec.NotDue
    case _ => Codec.InvalidRequest
  }

  function Respond(op: Op, result: Result<Reply, StorageError>): Answer<Response>
    requires result.Success? ==> Fits(op, result.value)
  {
    if result.Failure? then Runtime(StorageFault(result.error))
    else
      var reply := result.value;
      match op
      case Request(_) =>
        if reply.Refused? then Domain(MapRequestFailure(reply.failure))
        else if RevisionText(reply.approval.revision).Runtime? then Runtime(BadRevision)
        else Ok(RequestResponse(reply.created, reply.approval.intent.requestId, reply.approval.status,
                                reply.approval.revision))
      case Read(_, _) =>
        if reply.answer.None? then Domain(Codec.RequestNotFound)
        else
          var a := reply.answer.value;
          if RevisionText(a.revision).Runtime? then Runtime(BadRevision)
          else if FormatTimestamp(a.intent.requestedAt).Runtime? || FormatTimestamp(a.intent.expiresAt).Runtime?
                  || (a.terminalAt.Some? && FormatTimestamp(a.terminalAt.value).Runtime?) then Runtime(Unformattable)
          else Ok(ReadResponse(a))
      case Decide(_, _, _, _, _, _) =>
        if reply.Refused? then Domain(MapDecideFailure(reply.failure))
        else if reply.approval.status != Approved && reply.approval.status != Rejected
        then Runtime(InconsistentEvidence)
        else TransitionBody(reply.approval)
      case Cancel(_, _, _, _) =>
        if reply.Refused? then Domain(MapCancelFailure(reply.failure))
        else if reply.approval.status != Cancelled then Runtime(InconsistentEvidence)
        else TransitionBody(reply.approval)
      case Expire(_, _) =>
        if reply.Refused? then Domain(MapExpireFailure(reply.failure))
        else if reply.approval.status != Expired then Runtime(InconsistentEvidence)
        else TransitionBody(reply.approval)
  }

  /** The answer says that this call created or terminated a row. */
  predicate ClaimsEffect(answer: Answer<Response>) {
    answer.Ok? && (answer.value.TransitionResponse? || (answer.value.RequestResponse? && answer.value.created))
  }

  /** Unless the service faults, it passes on what the store claims of the call's own effect. */
  lemma ClaimIsPassedOn(op: Op, reply: Reply)
    requires Fits(op, reply) && !Respond(op, Success(reply)).Runtime?
    ensures ClaimsEffect(Respond(op, Success(reply))) <==> ClaimsWrite(reply)
    ensures op.Request? && reply == Refused(IdempotencyConflict) ==>
              Respond(op, Success(reply)) == Domain(Codec.IdempotencyConflict)
  {
  }

  /** A whole service call on the sequential store. */
  datatype Outcome = Outcome(store: Store, answer: Answer<Response>)

  function Handle(policy: Policy, s: Store, ctx: Context, now: Result<Instant, StorageError>, call: Call,
                  clock: Clock): Outcome {
    match Admit(policy, ctx, now, call)
    case Domain(error) => Outcome(s, Domain(error))
    case Runtime(fault) => Outcome(s, Runtime(fault))
    case Ok(op) =>
      var step := Apply(s, op, clock);
      ApplyFits(s, op, clock);
      Outcome(step.store, Respond(op, Success(step.reply)))
  }
}
