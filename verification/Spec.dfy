/** The sequential specification: a map from request id to approval and one atomic operation at a time. */
module Spec {
  import opened Wrappers
  import opened Instants
  import opened Model

  type Store = map<string, StoredApproval>

  datatype Op =
    | Request(intent: RequestIntent)
    | Read(id: string, requester: Option<string>)
    | Decide(id: string, decision: ApprovalStatus, caller: string, actor: string, evidence: string,
             note: Option<string>)
    | Cancel(id: string, caller: string, actor: string, note: Option<string>)
    | Expire(id: string, caller: string)
  {
    predicate Transition() {
      Decide? || Cancel? || Expire?
    }
  }

  // PostgreSQL reads its clock once a transaction; D1 reads one instant to stamp the
  // terminal evidence and another to compare with the deadline.
  datatype Clock = Clock(stamp: Instant, due: Instant)

  datatype Reply =
    | Resolved(created: bool, approval: StoredApproval)
    | Changed(approval: StoredApproval)
    | Found(answer: Option<StoredApproval>)
    | Refused(failure: DomainFailure)

  datatype Step = Step(store: Store, reply: Reply)

  function Fresh(intent: RequestIntent): StoredApproval {
    StoredApproval(intent, Pending, 1, None, None, None, None, None)
  }

  predicate Taken(s: Store, intent: RequestIntent) {
    exists id :: id in s && Collide(s[id].intent, intent)
  }

  predicate Replays(s: Store, intent: RequestIntent) {
    intent.requestId in s && SameIntent(s[intent.requestId], intent)
  }

  /** Why a transition of approval `a` is refused, if it is. */
  function Objection(a: StoredApproval, op: Op, due: Instant): Option<DomainFailure>
    requires op.Transition()
  {
    if op.Cancel? && a.intent.requesterInstance != op.caller then Some(NotRequester)
    else if a.status != Pending then Some(AlreadyTerminal)
    else if op.Expire? && due < a.intent.expiresAt then Some(NotDue)
    else None
  }

  function Terminated(a: StoredApproval, op: Op, stamp: Instant): StoredApproval
    requires op.Transition()
  {
    match op
    case Decide(_, decision, caller, actor, evidence, note) =>
      StoredApproval(a.intent, decision, a.revision + 1, Some(caller), Some(actor), Some(evidence), note, Some(stamp))
    case Cancel(_, caller, actor, note) =>
      StoredApproval(a.intent, Cancelled, a.revision + 1, Some(caller), Some(actor), None, note, Some(stamp))
    case Expire(_, caller) =>
      StoredApproval(a.intent, Expired, a.revision + 1, Some(caller), None, None, None, Some(stamp))
  }

  function Visible(s: Store, id: string, requester: Option<string>): Option<StoredApproval> {
    if id in s && (requester.None? || s[id].intent.requesterInstance == requester.value) then Some(s[id]) else None
  }

  function Apply(s: Store, op: Op, clock: Clock): Step {
    match op
    case Request(intent) =>
      if !Taken(s, intent) then Step(s[intent.requestId := Fresh(intent)], Resolved(true, Fresh(intent)))
      else if Replays(s, intent) then Step(s, Resolved(false, s[intent.requestId]))
      else Step(s, Refused(IdempotencyConflict))
    case Read(id, requester) => Step(s, Found(Visible(s, id, requester)))
    case _ =>
      if op.id !in s then Step(s, Refused(RequestNotFound))
      else
        var objection := Objection(s[op.id], op, clock.due);
        if objection.Some? then Step(s, Refused(objection.value))
        else
          var a := Terminated(s[op.id], op, clock.stamp);
          Step(s[op.id := a], Changed(a))
  }

  /** The kinds of reply a store method can return. */
  predicate Fits(op: Op, reply: Reply) {
    match op
    case Request(_) => reply.Resolved? || reply.Refused?
    case Read(_, _) => reply.Found?
    case _ => reply.Changed? || reply.Refused?
  }

  /** The reply says that this call created or terminated a row. */
  predicate ClaimsWrite(reply: Reply) {
    reply.Changed? || (reply.Resolved? && reply.created)
  }

  lemma ApplyFits(s: Store, op: Op, clock: Clock)
    ensures Fits(op, Apply(s, op, clock).reply)
  {
  }

  /** What the storage layers rely on: the service hands over nothing else. */
  predicate Ready(op: Op) {
    match op
    case Request(i) =>
      && Sane(i.requestedAt) && Sane(i.expiresAt) && i.requestedAt < i.expiresAt
      && (i.intentDigest.Some? ==> ValidDigest(i.intentDigest.value))
    case Decide(_, decision, _, _, _, _) => decision == Approved || decision == Rejected
    case _ => true
  }

  predicate SaneClock(clock: Clock) {
    Sane(clock.stamp) && Sane(clock.due)
  }

  /** Every row is filed under its own id, has valid evidence and shares no key with another row. */
  ghost predicate Valid(s: Store) {
    && (forall id :: id in s ==> s[id].intent.requestId == id && EvidenceValid(s[id]))
    && (forall id, id' :: id in s && id' in s && id != id' ==> !Collide(s[id].intent, s[id'].intent))
  }

  lemma CreationKeepsValid(s: Store, intent: RequestIntent)
    requires Valid(s) && !Taken(s, intent)
    ensures Valid(s[intent.requestId := Fresh(intent)])
  {
  }

  lemma ReplacementKeepsValid(s: Store, id: string, a: StoredApproval)
    requires Valid(s) && id in s && a.intent == s[id].intent && EvidenceValid(a)
    ensures Valid(s[id := a])
  {
  }

  /** No operation files a row wrongly, breaks its evidence or lets two rows share a key. */
  lemma ApplyKeepsValid(s: Store, op: Op, clock: Clock)
    requires Valid(s) && Ready(op)
    ensures Valid(Apply(s, op, clock).store)
  {
    var reply := Apply(s, op, clock).reply;
    ApplyTakesEffect(s, op, clock);
    match reply
    case Resolved(created, a) =>
      if created {
        CreationKeepsValid(s, op.intent);
      }
    case Changed(a) => ReplacementKeepsValid(s, op.id, a);
    case _ =>
  }

  /** What a reply says happened to the store. */
  ghost predicate EffectOf(before: Store, after: Store, reply: Reply) {
    match reply
    case Resolved(created, a) =>
      if created then a == Fresh(a.intent) && a.intent.requestId !in before && after == before[a.intent.requestId := a]
      else after == before && a.intent.requestId in before && before[a.intent.requestId] == a
    case Changed(a) =>
      && a.intent.requestId in before
      && before[a.intent.requestId].status == Pending && before[a.intent.requestId].intent == a.intent
      && a.status != Pending && after == before[a.intent.requestId := a]
    case Found(_) => after == before
    case Refused(_) => after == before
  }

  lemma ApplyTakesEffect(s: Store, op: Op, clock: Clock)
    requires Valid(s) && Ready(op)
    ensures EffectOf(s, Apply(s, op, clock).store, Apply(s, op, clock).reply)
  {
    if op.Request? && op.intent.requestId in s {
      assert Collide(s[op.intent.requestId].intent, op.intent);
    }
  }

  /** What no operation ever undoes: rows stay, intents never change, terminal rows are final. */
  ghost predicate Evolves(s: Store, s': Store) {
    forall id :: id in s ==>
      && id in s'
      && s'[id].intent == s[id].intent
      && (s[id].status != Pending ==> s'[id] == s[id])
      && (s'[id] != s[id] ==> s[id].status == Pending && s'[id].status != Pending)
  }

  lemma EffectEvolves(s: Store, s': Store, reply: Reply)
    requires EffectOf(s, s', reply)
    ensures Evolves(s, s')
  {
  }

  lemma ApplyEvolves(s: Store, op: Op, clock: Clock)
    requires Valid(s) && Ready(op)
    ensures Evolves(s, Apply(s, op, clock).store)
  {
    ApplyTakesEffect(s, op, clock);
    EffectEvolves(s, Apply(s, op, clock).store, Apply(s, op, clock).reply);
  }

  lemma EvolvesReflexive(s: Store)
    ensures Evolves(s, s)
  {
  }

  lemma EvolvesTransitive(s: Store, s': Store, s'': Store)
    requires Evolves(s, s') && Evolves(s', s'')
    ensures Evolves(s, s'')
  {
  }

  /** The rows a request can meet. */
  ghost function Matching(s: Store, intent: RequestIntent): set<string> {
    set id | id in s && Collide(s[id].intent, intent)
  }

  /** The two-key lookup: at most two rows match, and a row with the same intent is the only
      match, so counting rows and comparing the single one decides as the simple rule does. */
  lemma LookupByCount(s: Store, intent: RequestIntent)
    requires Valid(s)
    ensures |Matching(s, intent)| <= 2
    ensures Taken(s, intent) <==> Matching(s, intent) != {}
    ensures Replays(s, intent) <==>
              |Matching(s, intent)| == 1
              && forall id :: id in Matching(s, intent) ==> SameIntent(s[id], intent)
    ensures Replays(s, intent) ==> Matching(s, intent) == {intent.requestId}
  {
    var m := Matching(s, intent);
    if Taken(s, intent) {
      var id :| id in s && Collide(s[id].intent, intent);
      assert id in m;
    }
    // rows with the request id, and rows with the delivery key
    var byId := set id | id in m && id == intent.requestId;
    var byKey := set id | id in m && s[id].intent.requesterInstance == intent.requesterInstance
                          && s[id].intent.idempotencyKey == intent.idempotencyKey;
    assert m == byId + byKey;
    AtMostOne(byId);
    AtMostOne(byKey);
    if Replays(s, intent) {
      assert m == {intent.requestId};
    }
    if |m| == 1 && forall id :: id in m ==> SameIntent(s[id], intent) {
      var id :| id in m;
      assert intent.requestId == id;
    }
  }

  lemma AtMostOne(ids: set<string>)
    requires forall a, b :: a in ids && b in ids ==> a == b
    ensures |ids| <= 1
  {
    if a :| a in ids {
      assert ids == {a};
    }
  }

  /** A row just created always passes the same-intent comparison. */
  lemma CreatedMatchesIntent(s: Store, intent: RequestIntent, clock: Clock)
    requires Valid(s) && !Taken(s, intent)
    ensures var s' := Apply(s, Request(intent), clock).store;
            Matching(s', intent) == {intent.requestId} && Replays(s', intent)
  {
  }

  /** Only an expiry looks at the deadline; a decision, or a cancellation by the requester, is
      accepted on every pending row at every clock reading. */
  lemma DeadlineBindsOnlyExpiry(op: Op)
    requires op.Transition()
    ensures op.Expire? <==>
              exists s: Store, stamp: Instant, due: Instant, due': Instant ::
                Valid(s) && Apply(s, op, Clock(stamp, due)).reply != Apply(s, op, Clock(stamp, due')).reply
    ensures !op.Expire? ==>
              forall s: Store, clock: Clock ::
                && op.id in s && s[op.id].status == Pending
                && (op.Cancel? ==> s[op.id].intent.requesterInstance == op.caller) ==>
                  Apply(s, op, clock).reply == Changed(Terminated(s[op.id], op, clock.stamp))
  {
    if op.Expire? {
      var s: Store := map[op.id := Fresh(RequestIntent(op.id, "q", "k", "b", "a", "s", "i", None, 0, 1000))];
      assert Valid(s);
      assert Apply(s, op, Clock(0, 0)).reply == Refused(NotDue);
      assert Apply(s, op, Clock(0, 1000)).reply.Changed?;
    }
  }
}
