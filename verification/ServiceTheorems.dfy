/** End-to-end theorems: the service over any history of the store. */
module ServiceTheorems {
  import opened Wrappers
  import opened Instants
  import opened Model
  import opened Spec
  import opened History
  import opened Service
  import opened Fields
  import Codec

  /** The operations a policy lets through, and nothing else. */
  predicate Admitted(policy: Policy, op: Op) {
    match op
    case Request(i) =>
      && i.requesterInstance in policy.requesters && RequestFields(i)
      && WholeMicros(i.requestedAt) && Representable(i.requestedAt)
      && WholeMicros(i.expiresAt) && Representable(i.expiresAt)
    case Read(id, requester) =>
      && IdentifierText(id, 128)
      && (match requester
          case None => policy.deciders != [] || policy.executors != []
          case Some(caller) =>
            caller in policy.requesters && caller !in policy.deciders && caller !in policy.executors)
    case Decide(id, decision, caller, actor, evidence, note) =>
      && caller in policy.deciders && (decision == Approved || decision == Rejected)
      && IdentifierText(id, 128) && ReferenceText(actor) && ReferenceText(evidence)
      && (note.Some? ==> ReasonText(note.value))
    case Cancel(id, caller, actor, note) =>
      && caller in policy.requesters
      && IdentifierText(id, 128) && ReferenceText(actor) && (note.Some? ==> ReasonText(note.value))
    case Expire(id, caller) => caller in policy.executors && IdentifierText(id, 128)
  }

  lemma OpFieldsAgree(op: Op)
    ensures op.Request? ==> (ValidRequestFields(op.intent) <==> RequestFields(op.intent))
    ensures !op.Request? ==> (ValidIdentifier(op.id, 128) <==> IdentifierText(op.id, 128))
    ensures op.Decide? || op.Cancel? ==>
              && (ValidReference(op.actor) <==> ReferenceText(op.actor))
              && (ValidReason(op.note) <==> op.note.None? || ReasonText(op.note.value))
    ensures op.Decide? ==> (ValidReference(op.evidence) <==> ReferenceText(op.evidence))
  {
    hide ValidRequestFields, RequestFields, ValidIdentifier, IdentifierText, ValidReference, ReferenceText;
    hide ValidReason, ReasonText;
    match op
    case Request(i) => RequestsAgree(i);
    case Read(id, _) => IdentifiersAgree(id, 128);
    case Decide(id, _, _, actor, evidence, note) =>
      IdentifiersAgree(id, 128);
      ReferencesAgree(actor);
      ReferencesAgree(evidence);
      ReasonsAgree(note);
    case Cancel(id, _, actor, note) =>
      IdentifiersAgree(id, 128);
      ReferencesAgree(actor);
      ReasonsAgree(note);
    case Expire(id, _) => IdentifiersAgree(id, 128);
  }

  lemma AdmitIsAdmitted(policy: Policy, ctx: Context, now: Result<Instant, StorageError>, call: Call)
    requires Admit(policy, ctx, now, call).Ok?
    ensures Admitted(policy, Admit(policy, ctx, now, call).value)
  {
    hide ValidRequestFields, RequestFields, ValidIdentifier, IdentifierText, ValidReference, ReferenceText;
    hide ValidReason, ReasonText;
    OpFieldsAgree(Admit(policy, ctx, now, call).value);
    if call.RequestCall? {
      NormalizeIsFloor(now.value);
      NormalizeIsFloor(call.expiresAt.value);
    }
  }

  /** A call that produces an admitted operation. */
  lemma AdmittedHasCall(policy: Policy, op: Op) returns (ctx: Context, now: Result<Instant, StorageError>, call: Call)
    requires Admitted(policy, op)
    ensures Admit(policy, ctx, now, call) == Ok(op)
  {
    hide ValidRequestFields, RequestFields, ValidIdentifier, IdentifierText, ValidReference, ReferenceText;
    hide ValidReason, ReasonText;
    OpFieldsAgree(op);
    now := Success(0);
    match op
    case Request(i) =>
      ctx, now := Context(Some(i.requesterInstance), false), Success(i.requestedAt);
      call := RequestCall(i.requestId, i.idempotencyKey, i.requestedBy, i.approvalKind, i.subjectKind, i.subjectId,
                          i.intentDigest, Some(i.expiresAt));
      NormalizeIsFloor(i.requestedAt);
      NormalizeIsFloor(i.expiresAt);
    case Read(id, requester) =>
      var caller := if requester.Some? then requester.value
                    else if policy.deciders != [] then policy.deciders[0]
                    else policy.executors[0];
      ctx, call := Context(Some(caller), false), ReadCall(id);
    case Decide(id, decision, caller, actor, evidence, note) =>
      ctx, call := Context(Some(caller), false), DecideCall(id, decision == Approved, actor, evidence, note);
    case Cancel(id, caller, actor, note) =>
      ctx, call := Context(Some(caller), false), CancelCall(id, actor, note);
    case Expire(id, caller) =>
      ctx, call := Context(Some(caller), false), ExpireCall(id);
  }

  /** The service lets through exactly the admitted operations. */
  lemma AdmissionIsExact(policy: Policy, op: Op)
    ensures Admitted(policy, op) <==> exists ctx, now, call :: Admit(policy, ctx, now, call) == Ok(op)
  {
    if Admitted(policy, op) {
      var ctx, now, call := AdmittedHasCall(policy, op);
    }
    forall ctx, now, call | Admit(policy, ctx, now, call) == Ok(op)
      ensures Admitted(policy, op)
    {
      AdmitIsAdmitted(policy, ctx, now, call);
    }
  }

  /** What the service admits under a clock that RFC 3339 can write is what the stores rely on. */
  lemma AdmittedIsReady(policy: Policy, op: Op)
    requires Admitted(policy, op) && (op.Request? ==> Writable(op.intent.requestedAt))
    ensures Ready(op)
  {
    if op.Request? && op.intent.intentDigest.Some? {
      DigestsAgree(op.intent.intentDigest.value);
    }
  }

  /** The caller is on the operation's list, and a human denied by its context does not decide. */
  predicate Permitted(policy: Policy, ctx: Context, call: Call) {
    ctx.caller.Some? &&
    match call
    case RequestCall(_, _, _, _, _, _, _, _) => ctx.caller.value in policy.requesters
    case DecideCall(_, _, _, _, _) => ctx.caller.value in policy.deciders && !ctx.deniesHuman
    case CancelCall(_, _, _) => ctx.caller.value in policy.requesters
    case ReadCall(_) => ctx.caller.value in policy.requesters + policy.deciders + policy.executors
    case ExpireCall(_) => ctx.caller.value in policy.executors
  }

  /** Without the caller on the operation's list the answer is Forbidden and the store is not
      touched; a human denied by its context cannot decide. */
  lemma Authority(policy: Policy, s: Store, ctx: Context, now: Result<Instant, StorageError>, call: Call, clock: Clock)
    ensures !Permitted(policy, ctx, call) <==>
            Handle(policy, s, ctx, now, call, clock).answer == Domain(Codec.Forbidden)
    ensures Handle(policy, s, ctx, now, call, clock).answer == Domain(Codec.Forbidden) ==>
              Handle(policy, s, ctx, now, call, clock).store == s
  {
  }

  // Provenance.

  ghost predicate AllAdmitted(policy: Policy, log: Log) {
    forall k :: 0 <= k < |log| ==> Admitted(policy, log[k].op)
  }

  /** A digest of 64 digits and letters a to f. */
  predicate CarriesDigest(i: RequestIntent) {
    && i.intentDigest.Some? && |i.intentDigest.value| == 64
    && forall k :: 0 <= k < 64 ==> i.intentDigest.value[k] in "0123456789abcdef"
  }

  lemma DigestIsCarried(i: RequestIntent)
    requires i.intentDigest.Some? && DigestText(i.intentDigest.value)
    ensures CarriesDigest(i)
  {
    var hex := "0123456789abcdef";
    forall k | 0 <= k < 64
      ensures i.intentDigest.value[k] in hex
    {
      var n := CodePoint(i.intentDigest.value[k]);
      assert i.intentDigest.value[k] == if n <= 0x39 then hex[n - 0x30] else hex[n - 0x61 + 10];
    }
  }

  /** Who may have created and terminated a row, and what a row must carry. */
  predicate ProvenRow(policy: Policy, a: StoredApproval) {
    && a.intent.requesterInstance in policy.requesters && RequestFields(a.intent)
    && (a.intent.subjectKind == "management-operation" ==> CarriesDigest(a.intent))
    && match a.status
       case Pending => true
       case Approved =>
         && a.terminalCaller.Some? && a.terminalCaller.value in policy.deciders
         && a.evidenceRef.Some? && ReferenceText(a.evidenceRef.value)
       case Rejected =>
         && a.terminalCaller.Some? && a.terminalCaller.value in policy.deciders
         && a.evidenceRef.Some? && ReferenceText(a.evidenceRef.value)
       case Cancelled => a.terminalCaller == Some(a.intent.requesterInstance)
       case Expired => a.terminalCaller.Some? && a.terminalCaller.value in policy.executors
  }

  /** Under a fixed policy every row was requested by a listed requester with admitted fields;
      decisions come from listed deciders, cancellations from the row's own requester, expiries
      from listed executors. */
  lemma Provenance(policy: Policy, log: Log, id: string)
    requires Legal(log) && AllAdmitted(policy, log) && id in After(log)
    ensures ProvenRow(policy, After(log)[id])
  {
    var a := After(log)[id];
    EveryRowHasAuthors(log, id);
    var k: nat :| CreatedBy(log, k, a);
    assert Admitted(policy, log[k].op);
    if a.intent.intentDigest.Some? {
      DigestIsCarried(a.intent);
    }
    if a.status != Pending {
      var t: nat :| TerminatedBy(log, t, a);
      assert Admitted(policy, log[t].op);
    }
  }

  // Totality of the responses.

  /** A row whose evidence and instants a response can show. */
  predicate Showable(a: StoredApproval) {
    && EvidenceValid(a) && Sane(a.intent.requestedAt) && Sane(a.intent.expiresAt)
    && (a.terminalAt.Some? ==> Sane(a.terminalAt.value))
  }

  lemma RowsAreShowable(log: Log, id: string)
    requires Legal(log) && id in After(log)
    ensures Showable(After(log)[id])
  {
    var a := After(log)[id];
    AfterIsValid(log);
    EveryRowHasAuthors(log, id);
    var k: nat :| CreatedBy(log, k, a);
    EntryAt(log, k);
    if a.status != Pending {
      var t: nat :| TerminatedBy(log, t, a);
      EntryAt(log, t);
    }
  }

  /** The error code that names a domain failure. */
  function Named(f: DomainFailure): Codec.Variant {
    match f
    case IdempotencyConflict => Codec.IdempotencyConflict
    case RequestNotFound => Codec.RequestNotFound
    case AlreadyTerminal => Codec.AlreadyTerminal
    case NotRequester => Codec.NotRequester
    case NotDue => Codec.NotDue
  }

  function OperationOf(op: Op): Codec.Operation {
    match op
    case Request(_) => Codec.RequestOperation
    case Read(_, _) => Codec.ReadOperation
    case Decide(_, _, _, _, _, _) => Codec.DecideOperation
    case Cancel(_, _, _, _) => Codec.CancelOperation
    case Expire(_, _) => Codec.ExpireOperation
  }

  /** A response without fault: a refusal keeps its name, and only refusals and empty reads are errors. */
  ghost predicate Faithful(op: Op, reply: Reply) {
    && Fits(op, reply)
    && var answer := Respond(op, Success(reply));
       && !answer.Runtime?
       && (reply.Refused? ==> answer == Domain(Named(reply.failure)))
       && (answer.Domain? ==> Codec.Declares(OperationOf(op), answer.error))
       && (answer.Domain? <==> reply.Refused? || reply == Found(None))
  }

  lemma RequestFaithful(s: Store, intent: RequestIntent, clock: Clock)
    requires intent.requestId in s ==> Showable(s[intent.requestId])
    ensures Faithful(Request(intent), Apply(s, Request(intent), clock).reply)
  {
  }

  lemma ReadFaithful(s: Store, id: string, requester: Option<string>, clock: Clock)
    requires id in s ==> Showable(s[id])
    ensures Faithful(Read(id, requester), Apply(s, Read(id, requester), clock).reply)
  {
  }

  lemma TransitionFaithful(s: Store, op: Op, clock: Clock)
    requires op.Transition() && Ready(op) && Sane(clock.stamp) && (op.id in s ==> Showable(s[op.id]))
    ensures Faithful(op, Apply(s, op, clock).reply)
  {
  }

  /** Whatever a store answers in a reachable state, the response builders never meet inconsistent
      evidence, a bad revision or an unformattable timestamp, no refusal falls into a catch-all,
      and every refusal is a code the operation declares. */
  lemma ResponsesAreTotal(log: Log, op: Op, clock: Clock)
    requires Legal(log) && Ready(op) && SaneClock(clock)
    ensures Faithful(op, Apply(After(log), op, clock).reply)
  {
    var s := After(log);
    var id := if op.Request? then op.intent.requestId else op.id;
    if id in s {
      RowsAreShowable(log, id);
    }
    match op
    case Request(intent) => RequestFaithful(s, intent, clock);
    case Read(_, requester) => ReadFaithful(s, id, requester, clock);
    case _ => TransitionFaithful(s, op, clock);
  }

  // What an accepted call did.

  predicate TransitionCall(call: Call) {
    call.DecideCall? || call.CancelCall? || call.ExpireCall?
  }

  /** The calls that terminate a request: by whom, with what, and on what row. Approving an overdue
      request is among them. */
  predicate Terminates(policy: Policy, s: Store, ctx: Context, call: Call, due: Instant)
    requires TransitionCall(call)
  {
    && ctx.caller.Some? && ValidIdentifier(call.requestId, 128)
    && call.requestId in s && s[call.requestId].status == Pending
    && match call
       case DecideCall(_, _, actor, evidence, reason) =>
         ctx.caller.value in policy.deciders && !ctx.deniesHuman
         && ValidReference(actor) && ValidReference(evidence) && ValidReason(reason)
       case CancelCall(id, actor, reason) =>
         ctx.caller.value in policy.requesters && ctx.caller.value == s[id].intent.requesterInstance
         && ValidReference(actor) && ValidReason(reason)
       case ExpireCall(id) => ctx.caller.value in policy.executors && s[id].intent.expiresAt <= due
  }

  /** The response to an accepted transition repeats the call. */
  function Echo(ctx: Context, call: Call, stamp: Instant): Response
    requires TransitionCall(call) && ctx.caller.Some?
  {
    var caller := ctx.caller.value;
    match call
    case DecideCall(id, approve, actor, evidence, reason) =>
      TransitionResponse(id, if approve then Approved else Rejected, 2, caller, Some(actor), Some(evidence), reason,
                         stamp)
    case CancelCall(id, actor, reason) => TransitionResponse(id, Cancelled, 2, caller, Some(actor), None, reason, stamp)
    case ExpireCall(id) => TransitionResponse(id, Expired, 2, caller, None, None, None, stamp)
  }

  /** The call is answered with its echo when it terminates the row, and then the row carries the
      call's own evidence and no other row changes; otherwise it is not accepted and changes nothing. */
  ghost predicate AcceptedIff(terminates: bool, s: Store, ctx: Context, call: Call, stamp: Instant,
                              out: Service.Outcome)
    requires TransitionCall(call) && (terminates ==> ctx.caller.Some? && call.requestId in s)
  {
    if terminates then
      var r := Echo(ctx, call, stamp);
      && out.answer == Ok(r)
      && out.store == s[call.requestId := StoredApproval(
             s[call.requestId].intent, r.status, r.revision, Some(r.terminalCaller), r.terminalActor,
             r.evidenceRef, r.reason, Some(r.terminalAt))]
    else !out.answer.Ok? && out.store == s
  }

  lemma DecideAccepted(policy: Policy, s: Store, ctx: Context, now: Result<Instant, StorageError>, call: Call,
                       clock: Clock)
    requires Valid(s) && SaneClock(clock) && call.DecideCall?
    ensures AcceptedIff(Terminates(policy, s, ctx, call, clock.due), s, ctx, call, clock.stamp,
                        Handle(policy, s, ctx, now, call, clock))
  {
    hide ValidIdentifier, ValidReference, ValidReason, Sane;
    SaneIsWritable(clock.stamp);
    if call.requestId in s {
      assert EvidenceValid(s[call.requestId]) && s[call.requestId].intent.requestId == call.requestId;
    }
  }

  lemma CancelAccepted(policy: Policy, s: Store, ctx: Context, now: Result<Instant, StorageError>, call: Call,
                       clock: Clock)
    requires Valid(s) && SaneClock(clock) && call.CancelCall?
    ensures AcceptedIff(Terminates(policy, s, ctx, call, clock.due), s, ctx, call, clock.stamp,
                        Handle(policy, s, ctx, now, call, clock))
  {
    hide ValidIdentifier, ValidReference, ValidReason, Sane;
    SaneIsWritable(clock.stamp);
    if call.requestId in s {
      assert EvidenceValid(s[call.requestId]) && s[call.requestId].intent.requestId == call.requestId;
    }
  }

  lemma ExpireAccepted(policy: Policy, s: Store, ctx: Context, now: Result<Instant, StorageError>, call: Call,
                       clock: Clock)
    requires Valid(s) && SaneClock(clock) && call.ExpireCall?
    ensures AcceptedIff(Terminates(policy, s, ctx, call, clock.due), s, ctx, call, clock.stamp,
                        Handle(policy, s, ctx, now, call, clock))
  {
    hide ValidIdentifier, ValidReference, ValidReason, Sane;
    SaneIsWritable(clock.stamp);
    if call.requestId in s {
      assert EvidenceValid(s[call.requestId]) && s[call.requestId].intent.requestId == call.requestId;
    }
  }

  /** A decision, cancellation or expiry is accepted exactly when it may terminate the row. */
  lemma TransitionAccepted(policy: Policy, s: Store, ctx: Context, now: Result<Instant, StorageError>, call: Call,
                           clock: Clock)
    requires Valid(s) && SaneClock(clock) && TransitionCall(call)
    ensures AcceptedIff(Terminates(policy, s, ctx, call, clock.due), s, ctx, call, clock.stamp,
                        Handle(policy, s, ctx, now, call, clock))
  {
    hide Terminates, AcceptedIff, Valid, Handle;
    match call
    case DecideCall(_, _, _, _, _) => DecideAccepted(policy, s, ctx, now, call, clock);
    case CancelCall(_, _, _) => CancelAccepted(policy, s, ctx, now, call, clock);
    case ExpireCall(_) => ExpireAccepted(policy, s, ctx, now, call, clock);
  }

  lemma SaneIsWritable(t: Instant)
    requires Sane(t)
    ensures Writable(t)
  {
  }

  /** A first submission creates the pending row the call describes, in the caller's name and with
      both instants cut to microseconds. */
  lemma FirstSubmission(policy: Policy, s: Store, ctx: Context, now: Instant, call: Call, clock: Clock)
    requires call.RequestCall? && Admit(policy, ctx, Success(now), call).Ok?
    requires !Taken(s, Admit(policy, ctx, Success(now), call).value.intent)
    ensures var out := Handle(policy, s, ctx, Success(now), call, clock);
            && out.answer == Ok(RequestResponse(true, call.requestId, Pending, 1))
            && ctx.caller.Some? && call.expiresAt.Some?
            && out.store == s[call.requestId := StoredApproval(
                   RequestIntent(call.requestId, ctx.caller.value, call.idempotencyKey, call.requestedBy,
                                 call.approvalKind,
                                 call.subjectKind, call.subjectId, call.intentDigest,
                                 (now / 1000) * 1000, (call.expiresAt.value / 1000) * 1000),
                   Pending, 1, None, None, None, None, None)]
  {
    hide ValidRequestFields, Taken;
  }

  // Replays.

  lemma AdmitsRequest(policy: Policy, ctx: Context, now: Result<Instant, StorageError>, call: Call)
    requires call.RequestCall? && Admit(policy, ctx, now, call).Ok?
    ensures Admit(policy, ctx, now, call).value.Request?
  {
  }

  /** A resubmission is admitted with the same intent until the deadline, and InvalidRequest after. */
  lemma Resubmitted(policy: Policy, ctx: Context, call: Call, now: Instant, later: Instant, first: RequestIntent)
    requires call.RequestCall? && Writable(now) && Writable(later)
    requires Admit(policy, ctx, Success(now), call) == Ok(Request(first))
    ensures call.requestId == first.requestId
    ensures var again := first.(requestedAt := NormalizeTimestamp(later).value);
            Admit(policy, ctx, Success(later), call) ==
            if again.requestedAt < first.expiresAt then Ok(Request(again)) else Domain(Codec.InvalidRequest)
  {
    NormalizeIsFloor(now);
    NormalizeIsFloor(later);
  }

  /** A creation is there, unchanged in its intent, ever after. */
  lemma CreationStays(log: Log, k: nat)
    requires Legal(log) && k < |log| && log[k].op.Request? && log[k].reply.Resolved? && log[k].reply.created
    ensures var i := log[k].op.intent;
            Valid(After(log)) && i.requestId in After(log) && After(log)[i.requestId].intent == i
  {
    EntryAt(log, k);
    EffectAt(log, k);
    HistoryEvolves(log, k + 1, |log|);
    assert log[..|log|] == log;
    AfterIsValid(log);
  }

  /** The call, made again at `later`, is answered from the row its intent has in the store, with
      that row's current status and revision, while the reading's microsecond is before the
      deadline; from then on it is InvalidRequest. It changes nothing. */
  ghost predicate Replayed(policy: Policy, s: Store, intent: RequestIntent, ctx: Context, call: Call, later: Instant,
                           clock: Clock)
    requires Writable(later)
  {
    var out := Handle(policy, s, ctx, Success(later), call, clock);
    && out.store == s && call.requestId in s && s[call.requestId].intent == intent
    && out.answer ==
       if NormalizeTimestamp(later).value < intent.expiresAt
       then Ok(RequestResponse(false, call.requestId, s[call.requestId].status, s[call.requestId].revision))
       else Domain(Codec.InvalidRequest)
  }

  /** Submitting the same request again, after a creation, at any later point of the history and at
      any clock reading. */
  lemma EndToEndReplay(policy: Policy, log: Log, k: nat, ctx: Context, call: Call, now: Instant, later: Instant,
                       clock: Clock)
    requires Legal(log) && k < |log| && call.RequestCall?
    requires Writable(now) && Writable(later)
    requires Admit(policy, ctx, Success(now), call) == Ok(log[k].op)
    requires log[k].reply.Resolved? && log[k].reply.created
    ensures log[k].op.Request? && Replayed(policy, After(log), log[k].op.intent, ctx, call, later, clock)
  {
    hide Admit, Legal, Apply, After;
    AdmitsRequest(policy, ctx, Success(now), call);
    var first := log[k].op.intent;
    Resubmitted(policy, ctx, call, now, later, first);
    CreationStays(log, k);
    var again := first.(requestedAt := NormalizeTimestamp(later).value);
    ConflictOrReplay(After(log), call.requestId, again, clock);
  }

  /** The reply names the row of `intent` in the store, and the service passes its status and revision on. */
  ghost predicate RowReplayed(op: Op, s: Store, intent: RequestIntent, reply: Reply) {
    && op.Request? && intent.requestId in s
    && var row := s[intent.requestId];
       && row.intent == intent && reply == Resolved(false, row)
       && Respond(op, Success(reply)) == Ok(RequestResponse(false, intent.requestId, row.status, row.revision))
  }

  /** Two submissions of one call in the same history: when the first created, the second can only
      have been admitted before the deadline, and is answered from the row as it is at its moment. */
  lemma ResubmissionReplays(policy: Policy, log: Log, k: nat, j: nat, ctx: Context, call: Call,
                            now: Instant, later: Instant)
    requires Legal(log) && k < |log| && j < |log| && k != j && call.RequestCall?
    requires Writable(now) && Writable(later)
    requires Admit(policy, ctx, Success(now), call) == Ok(log[k].op)
    requires Admit(policy, ctx, Success(later), call) == Ok(log[j].op)
    requires log[k].reply.Resolved? && log[k].reply.created
    ensures log[k].op.Request? && log[k].op.intent.requestId == call.requestId
    ensures NormalizeTimestamp(later).value < log[k].op.intent.expiresAt
    ensures RowReplayed(log[j].op, After(log[..j]), log[k].op.intent, log[j].reply)
  {
    hide Admit, Legal, Apply, After, Valid, RowReplayed, NormalizeTimestamp;
    AdmitsRequest(policy, ctx, Success(now), call);
    AdmitsRequest(policy, ctx, Success(later), call);
    NormalizeIsFloor(later);
    Resubmitted(policy, ctx, call, now, later, log[k].op.intent);
    CreationIsUnique(log, k, j);
    EffectAt(log, j);
    EntryAt(log, j);
    AfterIsValid(log[..j]);
    ReplayIsPassedOn(log[j].op, After(log[..j]), log[j].reply);
  }

  lemma ReplayIsPassedOn(op: Op, s: Store, reply: Reply)
    requires Valid(s) && op.Request? && reply.Resolved? && !reply.created
    requires reply.approval.intent.requestId in s && s[reply.approval.intent.requestId] == reply.approval
    ensures RowReplayed(op, s, reply.approval.intent, reply)
  {
  }

  // Read isolation.

  ghost predicate AgreeOnOwned(s: Store, s': Store, caller: string) {
    forall id :: || (id in s && s[id].intent.requesterInstance == caller)
                 || (id in s' && s'[id].intent.requesterInstance == caller) ==>
      id in s && id in s' && s[id] == s'[id]
  }

  /** A caller that is only a requester learns nothing but its own rows: stores that agree on them
      answer all its reads alike. */
  lemma ReadIsolation(policy: Policy, s: Store, s': Store, ctx: Context, now: Result<Instant, StorageError>,
                      call: Call, clock: Clock)
    requires call.ReadCall? && ctx.caller.Some?
    requires ctx.caller.value !in policy.deciders && ctx.caller.value !in policy.executors
    requires AgreeOnOwned(s, s', ctx.caller.value)
    ensures Handle(policy, s, ctx, now, call, clock).answer == Handle(policy, s', ctx, now, call, clock).answer
  {
  }

  /** The id names somebody else's request. */
  predicate HeldByOther(s: Store, id: string, caller: string) {
    id in s && s[id].intent.requesterInstance != caller
  }

  /** The requester has used this idempotency key. */
  predicate KeyUsed(s: Store, intent: RequestIntent) {
    exists id :: id in s && s[id].intent.requesterInstance == intent.requesterInstance
                 && s[id].intent.idempotencyKey == intent.idempotencyKey
  }

  lemma CancelsAgree(s: Store, s': Store, op: Op, clock: Clock)
    requires op.Cancel? && AgreeOnOwned(s, s', op.caller)
    ensures HeldByOther(s, op.id, op.caller) == HeldByOther(s', op.id, op.caller) ==>
              Apply(s, op, clock).reply == Apply(s', op, clock).reply
    ensures HeldByOther(s, op.id, op.caller) ==> Apply(s, op, clock).reply == Refused(NotRequester)
    ensures !HeldByOther(s, op.id, op.caller) ==> Apply(s, op, clock).reply != Refused(NotRequester)
  {
  }

  /** Cancelling tells a requester nothing of other requesters' rows but whether the id is one of
      theirs: NotRequester where an unused id gives RequestNotFound. */
  lemma CancelIsolation(policy: Policy, s: Store, s': Store, ctx: Context, now: Result<Instant, StorageError>,
                        call: Call, clock: Clock)
    requires call.CancelCall? && ctx.caller.Some? && AgreeOnOwned(s, s', ctx.caller.value)
    requires Valid(s) && Valid(s') && SaneClock(clock)
    ensures Handle(policy, s, ctx, now, call, clock).answer == Handle(policy, s', ctx, now, call, clock).answer <==>
            || !Admit(policy, ctx, now, call).Ok?
            || HeldByOther(s, call.requestId, ctx.caller.value) == HeldByOther(s', call.requestId, ctx.caller.value)
  {
    if Admit(policy, ctx, now, call).Ok? {
      var op := Admit(policy, ctx, now, call).value;
      CancelsAgree(s, s', op, clock);
      CancelsAgree(s', s, op, clock);
      hide Admit, Apply, AgreeOnOwned, Valid, HeldByOther;
      CancelAnswers(s, op, clock);
      CancelAnswers(s', op, clock);
    }
  }

  lemma CancelAnswers(s: Store, op: Op, clock: Clock)
    requires Valid(s) && op.Cancel? && SaneClock(clock)
    ensures Fits(op, Apply(s, op, clock).reply)
    ensures Respond(op, Success(Apply(s, op, clock).reply)) == Domain(Codec.NotRequester)
            <==> Apply(s, op, clock).reply == Refused(NotRequester)
  {
  }

  lemma OwnedKeysAgree(s: Store, s': Store, intent: RequestIntent)
    requires AgreeOnOwned(s, s', intent.requesterInstance)
    ensures KeyUsed(s, intent) ==> KeyUsed(s', intent)
  {
    if id :| id in s && s[id].intent.requesterInstance == intent.requesterInstance
             && s[id].intent.idempotencyKey == intent.idempotencyKey
    {
      assert id in s' && s'[id] == s[id];
    }
  }

  lemma TakenByWhom(s: Store, intent: RequestIntent)
    requires Valid(s)
    ensures Taken(s, intent) <==> intent.requestId in s || KeyUsed(s, intent)
  {
    if intent.requestId in s {
      assert Collide(s[intent.requestId].intent, intent);
    }
    if KeyUsed(s, intent) {
      var id :| id in s && s[id].intent.requesterInstance == intent.requesterInstance
                && s[id].intent.idempotencyKey == intent.idempotencyKey;
      assert Collide(s[id].intent, intent);
    }
  }

  /** Requesting tells a requester nothing of other requesters' rows but whether the id is one of
      theirs, and that only if its own idempotency key is still free. */
  lemma RequestIsolation(policy: Policy, s: Store, s': Store, ctx: Context, now: Result<Instant, StorageError>,
                         call: Call, clock: Clock)
    requires call.RequestCall? && ctx.caller.Some? && AgreeOnOwned(s, s', ctx.caller.value)
    requires Valid(s) && Valid(s')
    ensures Handle(policy, s, ctx, now, call, clock).answer == Handle(policy, s', ctx, now, call, clock).answer <==>
            || !Admit(policy, ctx, now, call).Ok?
            || HeldByOther(s, call.requestId, ctx.caller.value) == HeldByOther(s', call.requestId, ctx.caller.value)
            || KeyUsed(s, Admit(policy, ctx, now, call).value.intent)
  {
    if Admit(policy, ctx, now, call).Ok? {
      var intent := Admit(policy, ctx, now, call).value.intent;
      assert intent.requestId == call.requestId && intent.requesterInstance == ctx.caller.value;
      hide Admit, KeyUsed, Taken;
      TakenByWhom(s, intent);
      TakenByWhom(s', intent);
      OwnedKeysAgree(s, s', intent);
      OwnedKeysAgree(s', s, intent);
    }
  }

  /** When the service as a whole faults: on a request by a listed requester, if the clock fails or
      the deadline parses but lies outside the range in UTC, and never else. */
  lemma FaultsAreExact(policy: Policy, log: Log, ctx: Context, now: Result<Instant, StorageError>, call: Call,
                       clock: Clock)
    requires Legal(log) && SaneClock(clock) && (now.Success? ==> Writable(now.value))
    ensures Handle(policy, After(log), ctx, now, call, clock).answer.Runtime? <==>
            && call.RequestCall? && ctx.caller.Some? && ctx.caller.value in policy.requesters
            && (now.Failure? || (call.expiresAt.Some? && !Representable(call.expiresAt.value)))
    ensures var out := Handle(policy, After(log), ctx, now, call, clock);
            out.answer.Runtime? ==>
              && out.store == After(log)
              && out.answer == Runtime(if now.Failure? then StorageFault(now.error) else TimestampOutOfRange)
  {
    AdmissionFaults(policy, ctx, now, call);
    if Admit(policy, ctx, now, call).Ok? {
      AdmittedCallIsReady(policy, ctx, now, call);
      hide Admit, Legal, After, Apply, Respond, Ready, Fits;
      ResponsesAreTotal(log, Admit(policy, ctx, now, call).value, clock);
    }
  }

  lemma AdmissionFaults(policy: Policy, ctx: Context, now: Result<Instant, StorageError>, call: Call)
    requires now.Success? ==> Writable(now.value)
    ensures Admit(policy, ctx, now, call).Runtime? <==>
            && call.RequestCall? && ctx.caller.Some? && ctx.caller.value in policy.requesters
            && (now.Failure? || (call.expiresAt.Some? && !Representable(call.expiresAt.value)))
    ensures Admit(policy, ctx, now, call).Runtime? ==>
              Admit(policy, ctx, now, call) ==
              Runtime(if now.Failure? then StorageFault(now.error) else TimestampOutOfRange)
  {
    if now.Success? {
      NormalizeIsFloor(now.value);
    }
    if call.RequestCall? && call.expiresAt.Some? {
      NormalizeIsFloor(call.expiresAt.value);
    }
  }

  /** A call admitted at a clock reading RFC 3339 can write is ready for the stores. */
  lemma AdmittedCallIsReady(policy: Policy, ctx: Context, now: Result<Instant, StorageError>, call: Call)
    requires now.Success? ==> Writable(now.value)
    requires Admit(policy, ctx, now, call).Ok?
    ensures Ready(Admit(policy, ctx, now, call).value)
  {
    hide Ready;
    AdmitIsAdmitted(policy, ctx, now, call);
    if call.RequestCall? {
      NormalizeIsFloor(now.value);
      NormalizeIdempotentAndMonotone(now.value, now.value);
    }
    AdmittedIsReady(policy, Admit(policy, ctx, now, call).value);
  }

  /** Deciders and executors see exactly the row there is. */
  lemma PrivilegedRead(policy: Policy, log: Log, ctx: Context, now: Result<Instant, StorageError>, call: Call,
                       clock: Clock)
    requires Legal(log) && call.ReadCall? && ValidIdentifier(call.requestId, 128)
    requires ctx.caller.Some? && ctx.caller.value in policy.deciders + policy.executors
    ensures Handle(policy, After(log), ctx, now, call, clock).answer ==
            if call.requestId in After(log) then Ok(ReadResponse(After(log)[call.requestId]))
            else Domain(Codec.RequestNotFound)
  {
    if call.requestId in After(log) {
      RowsAreShowable(log, call.requestId);
    }
  }

  /** A caller that is only a requester sees exactly its own rows; another's row is as good as absent. */
  lemma OwnRead(policy: Policy, log: Log, ctx: Context, now: Result<Instant, StorageError>, call: Call, clock: Clock)
    requires Legal(log) && call.ReadCall? && ValidIdentifier(call.requestId, 128)
    requires ctx.caller.Some? && ctx.caller.value in policy.requesters
    requires ctx.caller.value !in policy.deciders && ctx.caller.value !in policy.executors
    ensures Handle(policy, After(log), ctx, now, call, clock).answer ==
            if call.requestId in After(log) && After(log)[call.requestId].intent.requesterInstance == ctx.caller.value
            then Ok(ReadResponse(After(log)[call.requestId]))
            else Domain(Codec.RequestNotFound)
  {
    if call.requestId in After(log) {
      RowsAreShowable(log, call.requestId);
    }
  }

  // Which calls are refused before they reach the store.

  /** The fields of the call follow the rules; a request's instants count by whole microseconds. */
  predicate WellFormed(call: Call, now: Instant) {
    match call
    case RequestCall(id, key, requestedBy, kind, subjectKind, subjectId, digest, expiresAt) =>
      && expiresAt.Some?
      && RequestFields(RequestIntent(id, "", key, requestedBy, kind, subjectKind, subjectId, digest,
                                     (now / 1000) * 1000, (expiresAt.value / 1000) * 1000))
    case DecideCall(id, _, actor, evidence, reason) =>
      && IdentifierText(id, 128) && ReferenceText(actor) && ReferenceText(evidence)
      && (reason.Some? ==> ReasonText(reason.value))
    case CancelCall(id, actor, reason) =>
      IdentifierText(id, 128) && ReferenceText(actor) && (reason.Some? ==> ReasonText(reason.value))
    case ReadCall(id) => IdentifierText(id, 128)
    case ExpireCall(id) => IdentifierText(id, 128)
  }

  /** The service faults before it looks at the other fields. */
  predicate ClockOrRangeFault(call: Call, now: Result<Instant, StorageError>) {
    call.RequestCall? && (now.Failure? || (call.expiresAt.Some? && !Representable(call.expiresAt.value)))
  }

  lemma RequestFormed(i: RequestIntent, requester: string)
    ensures ValidRequestFields(i) <==> RequestFields(i.(requesterInstance := requester))
  {
    RequestsAgree(i);
  }

  lemma RequestAdmission(policy: Policy, ctx: Context, now: Result<Instant, StorageError>, call: Call)
    requires call.RequestCall? && Permitted(policy, ctx, call) && !ClockOrRangeFault(call, now)
    requires now.Success? ==> Writable(now.value)
    ensures var answer := Admit(policy, ctx, now, call);
            if WellFormed(call, now.value) then answer.Ok? else answer == Domain(Codec.InvalidRequest)
  {
    hide ValidRequestFields, RequestFields;
    NormalizeIsFloor(now.value);
    if call.expiresAt.Some? {
      NormalizeIsFloor(call.expiresAt.value);
      RequestFormed(RequestIntent(call.requestId, ctx.caller.value, call.idempotencyKey, call.requestedBy,
                                  call.approvalKind, call.subjectKind, call.subjectId, call.intentDigest,
                                  (now.value / 1000) * 1000, (call.expiresAt.value / 1000) * 1000), "");
    }
  }

  lemma OtherAdmission(policy: Policy, ctx: Context, now: Result<Instant, StorageError>, call: Call)
    requires !call.RequestCall? && Permitted(policy, ctx, call)
    ensures var answer := Admit(policy, ctx, now, call);
            if WellFormed(call, 0) then answer.Ok? else answer == Domain(Codec.InvalidRequest)
  {
    hide ValidIdentifier, IdentifierText, ValidReference, ReferenceText, ValidReason, ReasonText;
    IdentifiersAgree(call.requestId, 128);
    match call
    case DecideCall(_, _, actor, evidence, reason) =>
      ReferencesAgree(actor);
      ReferencesAgree(evidence);
      ReasonsAgree(reason);
    case CancelCall(_, actor, reason) =>
      ReferencesAgree(actor);
      ReasonsAgree(reason);
    case _ =>
  }

  /** InvalidRequest, for every call and in any reachable state: exactly a permitted call that meets no
      fault and breaks a field rule. It changes nothing. */
  lemma InvalidIsExact(policy: Policy, log: Log, ctx: Context, now: Result<Instant, StorageError>, call: Call,
                       clock: Clock)
    requires Legal(log) && SaneClock(clock) && (now.Success? ==> Writable(now.value))
    ensures var out := Handle(policy, After(log), ctx, now, call, clock);
            && (out.answer == Domain(Codec.InvalidRequest) <==>
                  && Permitted(policy, ctx, call) && !ClockOrRangeFault(call, now)
                  && !WellFormed(call, if now.Success? then now.value else 0))
            && (out.answer == Domain(Codec.InvalidRequest) ==> out.store == After(log))
  {
    hide WellFormed, Legal, After, Apply, Respond, Ready, Fits;
    Authority(policy, After(log), ctx, now, call, clock);
    FaultsAreExact(policy, log, ctx, now, call, clock);
    if Permitted(policy, ctx, call) && !ClockOrRangeFault(call, now) {
      if call.RequestCall? {
        RequestAdmission(policy, ctx, now, call);
      } else {
        OtherAdmission(policy, ctx, now, call);
        WellFormedApart(call, 0, if now.Success? then now.value else 0);
      }
    }
    if Admit(policy, ctx, now, call).Ok? {
      AdmittedCallIsReady(policy, ctx, now, call);
      ResponsesAreTotal(log, Admit(policy, ctx, now, call).value, clock);
      StoreRefusalsAreOthers(Admit(policy, ctx, now, call).value,
                             Apply(After(log), Admit(policy, ctx, now, call).value, clock).reply);
    }
  }

  /** No reply of a store is passed on as InvalidRequest. */
  lemma StoreRefusalsAreOthers(op: Op, reply: Reply)
    requires Faithful(op, reply)
    ensures Respond(op, Success(reply)) != Domain(Codec.InvalidRequest)
  {
  }

  /** Only a request looks at the clock. */
  lemma WellFormedApart(call: Call, now: Instant, now': Instant)
    requires !call.RequestCall?
    ensures WellFormed(call, now) <==> WellFormed(call, now')
  {
  }

  /** A management operation cannot be requested without a digest. */
  lemma ManagementNeedsDigest(policy: Policy, s: Store, ctx: Context, now: Instant, call: Call, clock: Clock)
    requires call.RequestCall? && call.subjectKind == "management-operation" && call.intentDigest.None?
    requires ctx.caller.Some? && ctx.caller.value in policy.requesters
    requires Representable(now) && (call.expiresAt.Some? ==> Representable(call.expiresAt.value))
    ensures Handle(policy, s, ctx, Success(now), call, clock) == Service.Outcome(s, Domain(Codec.InvalidRequest))
  {
    NormalizeIsFloor(now);
    if call.expiresAt.Some? {
      NormalizeIsFloor(call.expiresAt.value);
    }
  }
}
