/** Histories: what holds of every sequence of operations the specification can answer. */
module History {
  import opened Wrappers
  import opened Instants
  import opened Model
  import opened Spec

  // `call` names the invocation that the entry answers.
  datatype Entry = Entry(call: nat, op: Op, clock: Clock, reply: Reply)

  type Log = seq<Entry>

  function After(log: Log): Store {
    if |log| == 0 then map[]
    else
      var last := log[|log| - 1];
      Apply(After(log[..|log| - 1]), last.op, last.clock).store
  }

  /** Each entry's reply is the one the specification gives at that point. */
  ghost predicate Legal(log: Log) {
    |log| > 0 ==>
      var last := log[|log| - 1];
      && Legal(log[..|log| - 1])
      && Ready(last.op)
      && SaneClock(last.clock)
      && last.reply == Apply(After(log[..|log| - 1]), last.op, last.clock).reply
  }

  lemma Append(log: Log, e: Entry)
    requires Legal(log) && Ready(e.op) && SaneClock(e.clock)
    requires e.reply == Apply(After(log), e.op, e.clock).reply
    ensures Legal(log + [e])
    ensures After(log + [e]) == Apply(After(log), e.op, e.clock).store
  {
    assert (log + [e])[..|log|] == log;
  }

  lemma {:induction false} LegalPrefix(log: Log, n: nat)
    requires Legal(log) && n <= |log|
    ensures Legal(log[..n])
  {
    if n == |log| {
      assert log[..n] == log;
    } else {
      LegalPrefix(log[..|log| - 1], n);
      assert log[..|log| - 1][..n] == log[..n];
    }
  }

  /** What happened at position i. */
  lemma EntryAt(log: Log, i: nat)
    requires Legal(log) && i < |log|
    ensures Legal(log[..i]) && Legal(log[..i + 1])
    ensures Ready(log[i].op) && SaneClock(log[i].clock)
    ensures Apply(After(log[..i]), log[i].op, log[i].clock) == Step(After(log[..i + 1]), log[i].reply)
  {
    LegalPrefix(log, i);
    LegalPrefix(log, i + 1);
    assert log[..i + 1][..i] == log[..i];
  }

  lemma LastEntry(log: Log, e: Entry)
    requires Legal(log + [e])
    ensures Apply(After(log), e.op, e.clock) == Step(After(log + [e]), e.reply)
  {
    assert (log + [e])[..|log|] == log;
  }

  lemma {:induction false} AfterIsValid(log: Log)
    requires Legal(log)
    ensures Valid(After(log))
  {
    if |log| == 0 {
    } else {
      var last := log[|log| - 1];
      AfterIsValid(log[..|log| - 1]);
      ApplyKeepsValid(After(log[..|log| - 1]), last.op, last.clock);
    }
  }

  lemma EffectAt(log: Log, i: nat)
    requires Legal(log) && i < |log|
    ensures EffectOf(After(log[..i]), After(log[..i + 1]), log[i].reply)
  {
    EntryAt(log, i);
    AfterIsValid(log[..i]);
    ApplyTakesEffect(After(log[..i]), log[i].op, log[i].clock);
  }

  /** Single durable outcome: between any two moments of a history rows stay, intents are
      unchanged and a terminal row is never touched again. */
  lemma {:induction false} HistoryEvolves(log: Log, i: nat, j: nat)
    requires Legal(log) && i <= j <= |log|
    ensures Evolves(After(log[..i]), After(log[..j]))
    decreases j
  {
    if i == j {
      EvolvesReflexive(After(log[..i]));
    } else {
      hide Apply, Evolves, Legal, After, Valid;
      HistoryEvolves(log, i, j - 1);
      EntryAt(log, j - 1);
      AfterIsValid(log[..j - 1]);
      ApplyEvolves(After(log[..j - 1]), log[j - 1].op, log[j - 1].clock);
      EvolvesTransitive(After(log[..i]), After(log[..j - 1]), After(log[..j]));
    }
  }

  /** How a terminal approval `a` answers any later operation addressed to it. */
  ghost predicate AnswersFinally(a: StoredApproval, op: Op, reply: Reply) {
    var id := a.intent.requestId;
    match op
    case Request(intent) =>
      intent.requestId == id ==>
        reply == if SameIntent(a, intent) then Resolved(false, a) else Refused(IdempotencyConflict)
    case Read(rid, requester) =>
      rid == id ==>
        reply == Found(if requester.None? || requester.value == a.intent.requesterInstance then Some(a) else None)
    case Cancel(rid, caller, _, _) =>
      rid == id ==>
        reply == Refused(if caller == a.intent.requesterInstance then AlreadyTerminal else NotRequester)
    case Decide(rid, _, _, _, _, _) => rid == id ==> reply == Refused(AlreadyTerminal)
    case Expire(rid, _) => rid == id ==> reply == Refused(AlreadyTerminal)
  }

  lemma TerminalRowAnswers(s: Store, id: string, op: Op, clock: Clock)
    requires Valid(s) && id in s && s[id].status != Pending
    ensures AnswersFinally(s[id], op, Apply(s, op, clock).reply)
  {
    if op.Request? && op.intent.requestId == id {
      assert Collide(s[id].intent, op.intent);
    }
  }

  /** What a transition answered `Changed` did to the store. */
  lemma ChangedAt(log: Log, i: nat)
    requires Legal(log) && i < |log| && log[i].reply.Changed?
    ensures var op, a := log[i].op, log[i].reply.approval;
            && op.Transition() && a.intent.requestId == op.id && a.status != Pending
            && op.id in After(log[..i]) && After(log[..i])[op.id].status == Pending
            && Objection(After(log[..i])[op.id], op, log[i].clock.due).None?
            && a == Terminated(After(log[..i])[op.id], op, log[i].clock.stamp)
            && After(log[..i + 1]) == After(log[..i])[op.id := a]
  {
    EntryAt(log, i);
    AfterIsValid(log[..i]);
  }

  /** The first terminal transition wins: whatever is asked of that request later is answered
      from the approval it returned, and no second transition is accepted. */
  lemma FirstTerminalWins(log: Log, i: nat, j: nat)
    requires Legal(log) && i < j < |log| && log[i].reply.Changed?
    ensures AnswersFinally(log[i].reply.approval, log[j].op, log[j].reply)
    ensures log[j].reply.Changed? ==> log[j].reply.approval.intent.requestId != log[i].reply.approval.intent.requestId
  {
    ChangedAt(log, i);
    EntryAt(log, j);
    AfterIsValid(log[..j]);
    HistoryEvolves(log, i + 1, j);
    TerminalRowAnswers(After(log[..j]), log[i].op.id, log[j].op, log[j].clock);
    if log[j].reply.Changed? {
      ChangedAt(log, j);
    }
  }

  /** Idempotency: after a creation, a request that shares the id or the delivery key is a replay
      naming that row when it differs in nothing but requested_at, and a conflict otherwise. */
  lemma CreatedOnce(log: Log, i: nat, j: nat)
    requires Legal(log) && i < j < |log|
    requires log[i].op.Request? && log[i].reply.Resolved? && log[i].reply.created
    requires log[j].op.Request? && Collide(log[i].op.intent, log[j].op.intent)
    ensures var a, intent := log[i].reply.approval, log[j].op.intent;
            && a == Fresh(log[i].op.intent)
            && (a.intent.(requestedAt := intent.requestedAt) == intent ==>
                  && log[j].reply.Resolved? && !log[j].reply.created
                  && log[j].reply.approval.intent == a.intent)
            && (a.intent.(requestedAt := intent.requestedAt) != intent ==> log[j].reply == Refused(IdempotencyConflict))
  {
    EntryAt(log, i);
    EntryAt(log, j);
    AfterIsValid(log[..j]);
    HistoryEvolves(log, i + 1, j);
    ConflictOrReplay(After(log[..j]), log[i].op.intent.requestId, log[j].op.intent, log[j].clock);
    SameIntentIsExact(After(log[..j])[log[i].op.intent.requestId], log[j].op.intent);
  }

  lemma TakenStays(s: Store, s': Store, intent: RequestIntent)
    requires Evolves(s, s')
    ensures Taken(s, intent) ==> Taken(s', intent)
  {
    if id :| id in s && Collide(s[id].intent, intent) {
      assert id in s' && Collide(s'[id].intent, intent);
    }
  }

  /** A request that got a row occupies its keys. */
  lemma ResolvedTakes(s: Store, op: Op, clock: Clock, other: RequestIntent)
    requires Valid(s) && op.Request? && Collide(op.intent, other)
    ensures Apply(s, op, clock).reply.Resolved? ==> Taken(Apply(s, op, clock).store, other)
  {
    var step := Apply(s, op, clock);
    if step.reply.Resolved? {
      var id := op.intent.requestId;
      assert id in step.store && Collide(step.store[id].intent, other);
    }
  }

  /** A request that came before the creation of a competing row was refused. */
  lemma RefusedBeforeCreation(log: Log, i: nat, j: nat)
    requires Legal(log) && i < j < |log|
    requires log[j].op.Request? && log[j].reply.Resolved? && log[j].reply.created
    requires log[i].op.Request? && Collide(log[i].op.intent, log[j].op.intent)
    ensures log[i].reply == Refused(IdempotencyConflict)
  {
    EntryAt(log, i);
    EntryAt(log, j);
    AfterIsValid(log[..i]);
    HistoryEvolves(log, i + 1, j);
    hide After, Legal, Evolves, Valid, Collide, Taken;
    ResolvedTakes(After(log[..i]), log[i].op, log[i].clock, log[j].op.intent);
    TakenStays(After(log[..i + 1]), After(log[..j]), log[j].op.intent);
  }

  /** The reply names the row of `a`, created earlier by somebody else. */
  predicate ReplaysRow(reply: Reply, a: StoredApproval) {
    reply.Resolved? && !reply.created && reply.approval.intent == a.intent
  }

  /** Requests with the same id and delivery key compete with the same rows. */
  lemma SameKeysTaken(s: Store, intent: RequestIntent, other: RequestIntent)
    requires intent.requestId == other.requestId && intent.requesterInstance == other.requesterInstance
    requires intent.idempotencyKey == other.idempotencyKey
    ensures Taken(s, intent) <==> Taken(s, other)
  {
    if id :| id in s && Collide(s[id].intent, intent) {
      assert Collide(s[id].intent, other);
    }
    if id :| id in s && Collide(s[id].intent, other) {
      assert Collide(s[id].intent, intent);
    }
  }

  /** Whoever submits an intent before its row is created creates it. */
  lemma CreationComesFirst(log: Log, i: nat, j: nat)
    requires Legal(log) && i < j < |log|
    requires log[j].op.Request? && log[j].reply.Resolved? && log[j].reply.created
    requires log[i].op.Request?
    ensures log[j].op.intent.(requestedAt := log[i].op.intent.requestedAt) != log[i].op.intent
  {
    var earlier, later := log[i].op.intent, log[j].op.intent;
    EntryAt(log, i);
    EntryAt(log, j);
    AfterIsValid(log[..i]);
    HistoryEvolves(log, i, j);
    HistoryEvolves(log, i + 1, j);
    hide After, Legal, Evolves, Valid, Taken;
    if later.(requestedAt := earlier.requestedAt) == earlier {
      SameKeysTaken(After(log[..i]), earlier, later);
      TakenStays(After(log[..i]), After(log[..j]), later);
      ResolvedTakes(After(log[..i]), log[i].op, log[i].clock, later);
      TakenStays(After(log[..i + 1]), After(log[..j]), later);
    }
  }

  /** One creation in a whole history: of the requests that share an id or a delivery key, in
      whatever order they ran, those that differ from it in nothing but requested_at are replays of
      the created row, and all others are conflicts. */
  lemma CreationIsUnique(log: Log, i: nat, j: nat)
    requires Legal(log) && i < |log| && j < |log| && i != j
    requires log[i].op.Request? && log[i].reply.Resolved? && log[i].reply.created
    requires log[j].op.Request? && Collide(log[i].op.intent, log[j].op.intent)
    ensures var a := log[i].reply.approval;
            && a.intent == log[i].op.intent
            && if a.intent.(requestedAt := log[j].op.intent.requestedAt) == log[j].op.intent
               then ReplaysRow(log[j].reply, a)
               else log[j].reply == Refused(IdempotencyConflict)
  {
    if i < j {
      CreatedOnce(log, i, j);
    } else {
      EntryAt(log, i);
      CreationComesFirst(log, j, i);
      RefusedBeforeCreation(log, j, i);
    }
  }

  lemma ConflictOrReplay(s: Store, id: string, intent: RequestIntent, clock: Clock)
    requires Valid(s) && id in s && Collide(s[id].intent, intent)
    ensures Apply(s, Request(intent), clock) ==
            Step(s, if SameIntent(s[id], intent) then Resolved(false, s[id]) else Refused(IdempotencyConflict))
  {
    assert Taken(s, intent);
    if Replays(s, intent) {
      assert intent.requestId == id;
    }
  }

  /** Every row was created by exactly the request whose intent it carries. */
  ghost predicate CreatedBy(log: Log, k: nat, a: StoredApproval) {
    k < |log| && log[k].op == Request(a.intent) && log[k].reply == Resolved(true, Fresh(a.intent))
  }

  /** A terminal row was written by the transition that returned it. */
  ghost predicate TerminatedBy(log: Log, k: nat, a: StoredApproval) {
    && k < |log| && log[k].op.Transition() && log[k].reply == Changed(a)
    && log[k].op.id == a.intent.requestId
    && exists before: StoredApproval ::
         && before.status == Pending && before.intent == a.intent
         && Objection(before, log[k].op, log[k].clock.due).None?
         && a == Terminated(before, log[k].op, log[k].clock.stamp)
  }

  /** How a row can differ after one operation. */
  lemma RowAfter(s: Store, op: Op, clock: Clock, id: string)
    requires Valid(s) && id in Apply(s, op, clock).store
    ensures var step := Apply(s, op, clock);
            var a := step.store[id];
            if id !in s then op == Request(a.intent) && step.reply == Resolved(true, a) && a == Fresh(a.intent)
            else a != s[id] ==>
              && op.Transition() && op.id == id && step.reply == Changed(a)
              && s[id].status == Pending && Objection(s[id], op, clock.due).None?
              && a == Terminated(s[id], op, clock.stamp)
  {
  }

  lemma {:induction false} EveryRowHasAuthors(log: Log, id: string)
    requires Legal(log) && id in After(log)
    ensures exists k :: CreatedBy(log, k, After(log)[id])
    ensures After(log)[id].status != Pending ==> exists k :: TerminatedBy(log, k, After(log)[id])
  {
    var n := |log| - 1;
    var before := After(log[..n]);
    var a := After(log)[id];
    EntryAt(log, n);
    assert log[..n + 1] == log;
    AfterIsValid(log[..n]);
    RowAfter(before, log[n].op, log[n].clock, id);
    hide Apply, Legal, After, Valid, Objection;
    if id in before && before[id] == a {
      EveryRowHasAuthors(log[..n], id);
      var k :| CreatedBy(log[..n], k, a);
      assert CreatedBy(log, k, a);
      if a.status != Pending {
        var t :| TerminatedBy(log[..n], t, a);
        assert TerminatedBy(log, t, a);
      }
    } else if id in before {
      EveryRowHasAuthors(log[..n], id);
      var k :| CreatedBy(log[..n], k, before[id]);
      assert CreatedBy(log, k, a);
      assert TerminatedBy(log, n, a);
    } else {
      assert CreatedBy(log, n, a);
    }
  }

  lemma CreatedEarly(log: Log, k: nat, a: StoredApproval)
    requires Legal(log) && CreatedBy(log, k, a)
    ensures a.intent.requestedAt < a.intent.expiresAt
  {
    EntryAt(log, k);
  }

  lemma ExpiredLate(log: Log, k: nat, a: StoredApproval)
    requires Legal(log) && TerminatedBy(log, k, a) && a.status == Expired
    ensures log[k].op.Expire? && a.intent.expiresAt <= log[k].clock.due && a.terminalAt == Some(log[k].clock.stamp)
  {
    EntryAt(log, k);
  }

  /** Expiry safety: an expired row's deadline had passed at the executing call's clock reading. */
  lemma ExpiredWasDue(log: Log, id: string)
    requires Legal(log) && id in After(log) && After(log)[id].status == Expired
    ensures var a := After(log)[id];
            && a.intent.requestedAt < a.intent.expiresAt
            && exists k: nat :: && TerminatedBy(log, k, a) && log[k].op.Expire?
                           && a.intent.expiresAt <= log[k].clock.due && a.terminalAt == Some(log[k].clock.stamp)
    ensures (forall k :: 0 <= k < |log| ==> log[k].clock.stamp == log[k].clock.due) ==>
              var a := After(log)[id];
              a.terminalAt.Some? && a.terminalAt.value >= a.intent.expiresAt > a.intent.requestedAt
  {
    var a := After(log)[id];
    EveryRowHasAuthors(log, id);
    hide Apply, Legal, After, CreatedBy, TerminatedBy;
    var c: nat :| CreatedBy(log, c, a);
    CreatedEarly(log, c, a);
    var k: nat :| TerminatedBy(log, k, a);
    ExpiredLate(log, k, a);
  }

  /** A history of two calls: a request, and one transition of its row. */
  function TwoCalls(i: RequestIntent, at: Clock, op: Op, clock: Clock): Log
    requires op.Transition()
  {
    [Entry(0, Request(i), at, Resolved(true, Fresh(i))),
     Entry(1, op, clock, Changed(Terminated(Fresh(i), op, clock.stamp)))]
  }

  lemma TwoCallsAreLegal(i: RequestIntent, at: Clock, op: Op, clock: Clock)
    requires Ready(Request(i)) && SaneClock(at) && op.Transition() && Ready(op) && SaneClock(clock)
    requires op.id == i.requestId && Objection(Fresh(i), op, clock.due).None?
    ensures Legal(TwoCalls(i, at, op, clock))
  {
    var log := TwoCalls(i, at, op, clock);
    assert log[..0] == [] && log[..1] == [] + [log[0]] && log == log[..1] + [log[1]];
    assert !Taken(After([]), i);
    Append([], log[0]);
    assert After(log[..1]) == map[i.requestId := Fresh(i)];
    Append(log[..1], log[1]);
  }

  /** The last call of the history is an expiry, with this clock, that stamps its row before the
      row's own deadline. */
  ghost predicate EndsInEarlyExpiry(log: Log, clock: Clock) {
    && Legal(log) && |log| > 0
    && var e := log[|log| - 1];
       && e.op.Expire? && e.clock == clock && e.reply.Changed?
       && e.reply.approval.terminalAt.Some?
       && e.reply.approval.terminalAt.value < e.reply.approval.intent.expiresAt
  }

  /** The request of a history that shows it: its deadline is the reading compared, and it was made
      `lead` before. */
  function EarlyIntent(requester: string, clock: Clock, lead: int): RequestIntent {
    RequestIntent("r", requester, "k", "b", "a", "s", "i", None, clock.due - lead, clock.due)
  }

  function EarlyExpiry(requester: string, executor: string, clock: Clock, lead: int): Log {
    TwoCalls(EarlyIntent(requester, clock, lead), Clock(clock.due - lead, clock.due - lead),
             Expire("r", executor), clock)
  }

  lemma EarlyExpiryHappens(requester: string, executor: string, clock: Clock, lead: int)
    requires SaneClock(clock) && 0 < lead <= clock.due - clock.stamp && WholeMicros(lead)
    ensures EndsInEarlyExpiry(EarlyExpiry(requester, executor, clock, lead), clock)
    ensures var log := EarlyExpiry(requester, executor, clock, lead);
            var a := log[1].reply.approval;
            a.status == Expired && "r" in After(log) && After(log)["r"] == a
  {
    var log := EarlyExpiry(requester, executor, clock, lead);
    TwoCallsAreLegal(EarlyIntent(requester, clock, lead), Clock(clock.due - lead, clock.due - lead),
                     Expire("r", executor), clock);
    ChangedAt(log, 1);
    assert log[..2] == log;
  }

  /** When the evidence is stamped with one clock reading and the deadline compared with another, an
      admitted request can come to be expired before its deadline exactly when the stamp is the
      earlier reading. */
  lemma StampCoversDeadline(clock: Clock)
    requires SaneClock(clock)
    ensures clock.stamp < clock.due <==> exists log :: EndsInEarlyExpiry(log, clock)
  {
    if clock.stamp < clock.due {
      assert clock.due - clock.stamp >= MICRO;
      EarlyExpiryHappens("q", "x", clock, MICRO);
    }
    forall log | EndsInEarlyExpiry(log, clock)
      ensures clock.stamp < clock.due
    {
      ChangedAt(log, |log| - 1);
    }
  }

  /** Any decision or cancellation can be accepted after the deadline of the request it terminates. */
  lemma OverdueIsTerminated(op: Op) returns (log: Log)
    requires (op.Decide? || op.Cancel?) && Ready(op)
    ensures Legal(log) && |log| == 2 && log[1].op == op && log[1].reply.Changed?
    ensures var deadline := log[1].reply.approval.intent.expiresAt;
            log[1].clock.stamp > deadline && log[1].clock.due > deadline
  {
    var requester := if op.Cancel? then op.caller else "q";
    var i := RequestIntent(op.id, requester, "k", "b", "a", "s", "i", None, 0, MICRO);
    log := TwoCalls(i, Clock(0, 0), op, Clock(2 * MICRO, 2 * MICRO));
    TwoCallsAreLegal(i, Clock(0, 0), op, Clock(2 * MICRO, 2 * MICRO));
  }

  /** The calls of a log without their answers. */
  ghost predicate SameCalls(log: Log, log': Log) {
    |log| == |log'| && forall i :: 0 <= i < |log| ==> log[i].op == log'[i].op && log[i].clock == log'[i].clock
  }

  /** The answers and the final store are determined by the calls alone. */
  lemma {:induction false} CallsDetermineAnswers(log: Log, log': Log)
    requires Legal(log) && Legal(log') && SameCalls(log, log')
    ensures After(log) == After(log')
    ensures forall i :: 0 <= i < |log| ==> log[i].reply == log'[i].reply
  {
    if |log| == 0 {
    } else {
      CallsDetermineAnswers(log[..|log| - 1], log'[..|log| - 1]);
      forall i | 0 <= i < |log|
        ensures log[i].reply == log'[i].reply
      {
        if i < |log| - 1 {
          assert log[..|log| - 1][i].reply == log'[..|log| - 1][i].reply;
        }
      }
    }
  }
}
