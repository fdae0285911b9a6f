/** The service on top of either backend, over whole runs. */
module EndToEnd {
  import opened Wrappers
  import opened Instants
  import opened Model
  import opened Spec
  import opened History
  import opened Service
  import opened Fields
  import opened ServiceTheorems
  import opened D1Runs
  import Codec
  import Postgres
  import PostgresProof
  import PostgresSteps
  import PostgresTheorems
  import Schema
  import D1
  import D1Proof
  import D1Theorems

  /** Every transaction of the run was begun by the service. */
  ghost predicate BegunByService(policy: Policy, events: seq<Postgres.Event>) {
    forall k :: 0 <= k < |events| && events[k].move.Begin? ==> Admitted(policy, events[k].move.op)
  }

  ghost predicate CalledByService(policy: Policy, invs: seq<Invocation>) {
    forall k :: 0 <= k < |invs| ==> Admitted(policy, invs[k].op)
  }

  lemma StatementKeepsOp(s: Postgres.Cluster, tx: nat)
    requires tx in s.sessions
    ensures Postgres.CanInsert(s, tx) ==> Postgres.AfterInsert(s, tx).sessions[tx].op == s.sessions[tx].op
    ensures Postgres.CanLock(s, tx) ==> Postgres.AfterLock(s, tx).sessions[tx].op == s.sessions[tx].op
    ensures Postgres.CanUpdate(s, tx) ==> Postgres.AfterUpdate(s, tx).sessions[tx].op == s.sessions[tx].op
    ensures Postgres.CanCommit(s.sessions[tx]) ==>
              forall delivered :: Postgres.AfterCommit(s, tx, delivered).sessions[tx].op == s.sessions[tx].op
    ensures s.sessions[tx].op.Read? ==> Postgres.AfterSelect(s, tx).sessions[tx].op == s.sessions[tx].op
  {
  }

  /** A transaction works for the operation it was begun with. */
  lemma NextKeepsOps(s: Postgres.Cluster, e: Postgres.Event, tx: nat)
    requires tx in Postgres.Next(s, e).sessions
    ensures tx in s.sessions ==> Postgres.Next(s, e).sessions[tx].op == s.sessions[tx].op
    ensures tx !in s.sessions ==> e.move.Begin? && Postgres.Next(s, e).sessions[tx].op == e.move.op
  {
    PostgresProof.NextTouchesOne(s, e);
    if e.tx in s.sessions {
      StatementKeepsOp(s, e.tx);
      hide Postgres.AfterInsert, Postgres.AfterLock, Postgres.AfterUpdate, Postgres.AfterCommit, Postgres.AfterSelect;
    }
  }

  lemma {:induction false} SessionsAdmitted(policy: Policy, events: seq<Postgres.Event>, tx: nat)
    requires BegunByService(policy, events) && tx in PostgresTheorems.Reached(events).sessions
    ensures Admitted(policy, PostgresTheorems.Reached(events).sessions[tx].op)
  {
    hide Postgres.Next, Admitted;
    var n := |events| - 1;
    var before := PostgresTheorems.Reached(events[..n]);
    NextKeepsOps(before, events[n], tx);
    if tx in before.sessions {
      SessionsAdmitted(policy, events[..n], tx);
    }
  }

  /** Under a fixed policy, whatever interleaves, every committed row has the authors it should. */
  lemma PostgresProvenance(policy: Policy, events: seq<Postgres.Event>, id: string)
    requires BegunByService(policy, events) && id in PostgresTheorems.Reached(events).rows
    ensures ProvenRow(policy, Postgres.Held(PostgresTheorems.Reached(events).rows[id]))
  {
    hide Admitted, ProvenRow;
    var s := PostgresTheorems.Reached(events);
    PostgresTheorems.ReachedInv(events);
    assert PostgresProof.LogOk(s);
    forall k | 0 <= k < |s.log|
      ensures Admitted(policy, s.log[k].op)
    {
      SessionsAdmitted(policy, events, s.log[k].call);
    }
    Provenance(policy, s.log, id);
    assert After(s.log)[id] == Postgres.Held(s.rows[id]);
  }

  lemma {:induction false} LogAdmitted(policy: Policy, invs: seq<Invocation>)
    requires Proper(invs) && CalledByService(policy, invs)
    ensures AllAdmitted(policy, LogAfter(invs))
  {
    hide Admitted, Apply;
    if |invs| == 0 {
    } else {
      LogAdmitted(policy, invs[..|invs| - 1]);
    }
  }

  lemma D1Provenance(policy: Policy, invs: seq<Invocation>, id: string)
    requires Proper(invs) && CalledByService(policy, invs) && id in TableAfter(invs)
    ensures ProvenRow(policy, D1Proof.Abstract(TableAfter(invs))[id])
  {
    hide Admitted, ProvenRow, LogAfter;
    RunRefines(invs);
    LogAdmitted(policy, invs);
    Provenance(policy, LogAfter(invs), id);
  }

  /** No answered transaction of any run makes the service fail or lose the reason of a refusal. */
  lemma PostgresResponses(events: seq<Postgres.Event>, tx: nat, reply: Reply)
    requires PostgresTheorems.AnsweredWith(PostgresTheorems.Reached(events), tx, reply)
    ensures Faithful(PostgresTheorems.Reached(events).sessions[tx].op, reply)
  {
    hide Faithful, Apply, Legal;
    PostgresTheorems.Linearizable(events);
    var i := PostgresTheorems.ReceiptsAreSound(events, tx, reply);
    var log := PostgresTheorems.Reached(events).log;
    EntryAt(log, i);
    ResponsesAreTotal(log[..i], log[i].op, log[i].clock);
  }

  lemma D1Responses(invs: seq<Invocation>, k: nat, reply: Reply)
    requires Proper(invs) && k < |invs| && Answered(invs, k, reply)
    ensures Faithful(invs[k].op, reply)
  {
    hide Faithful, Apply, Legal, LogAfter, ReplyAt, Answered, Position, Settled;
    RunRefines(invs);
    EntryOfCall(invs, k);
    SettledAt(invs, k, reply);
    var log, p := LogAfter(invs), Position(invs, k);
    EntryAt(log, p);
    ResponsesAreTotal(log[..p], log[p].op, log[p].clock);
  }

  /** Whatever rows a D1 receipt shows: unless the service faults, its answer says truly whether this
      call created or terminated a row, except for a hidden creation, which is answered as a conflict. */
  lemma D1AnswersAreTrue(invs: seq<Invocation>, k: nat, reply: Reply)
    requires Proper(invs) && k < |invs| && Told(invs, k, reply)
    ensures Fits(invs[k].op, reply)
    ensures var answer := Respond(invs[k].op, Success(reply));
            !answer.Runtime? ==>
              && ((ClaimsEffect(answer) <==> Wrote(invs, k)) <==> !HiddenCreation(invs, k))
              && (HiddenCreation(invs, k) ==> answer == Domain(Codec.IdempotencyConflict) && Wrote(invs, k))
  {
    hide Respond, Wrote, D1.Serve;
    D1Theorems.ServeFits(TableAfter(invs[..k]), invs[k].op, invs[k].clock, invs[k].delivery);
    ReceiptsAreSound(invs, k, reply);
    if !Respond(invs[k].op, Success(reply)).Runtime? {
      ClaimIsPassedOn(invs[k].op, reply);
    }
  }

  /** A requester told of a conflict because the rows read back got lost can find out: its request is
      there, and submitting it again before the deadline replays it. */
  lemma ConflictThenReplay(policy: Policy, ctx: Context, call: Call, now: Instant, later: Instant,
                           clock: Clock, clock': Clock)
    requires call.RequestCall? && Writable(now) && Writable(later) && SaneClock(clock) && SaneClock(clock')
    requires Admit(policy, ctx, Success(now), call).Ok? && Admit(policy, ctx, Success(later), call).Ok?
    ensures var op, op' := Admit(policy, ctx, Success(now), call).value, Admit(policy, ctx, Success(later), call).value;
            var invs := [Invocation(0, op, clock, D1.Garbled(D1Theorems.EmptyReceipt())),
                         Invocation(1, op', clock', D1.Delivered)];
            && Proper(invs) && op.Request? && Told(invs, 0, Refused(IdempotencyConflict))
            && Respond(op, Success(Refused(IdempotencyConflict))) == Domain(Codec.IdempotencyConflict)
            && exists reply :: Answered(invs, 1, reply)
                 && RowReplayed(op', D1Proof.Abstract(TableAfter(invs[..1])), op.intent, reply)
  {
    AdmitsRequest(policy, ctx, Success(now), call);
    AdmitsRequest(policy, ctx, Success(later), call);
    AdmittedCallIsReady(policy, ctx, Success(now), call);
    AdmittedCallIsReady(policy, ctx, Success(later), call);
    var op, op' := Admit(policy, ctx, Success(now), call).value, Admit(policy, ctx, Success(later), call).value;
    hide Admit, Ready, SaneClock, D1.Serve, Apply, D1Proof.TableOk, D1Proof.Abstract, RowReplayed, HiddenCreation;
    var invs := [Invocation(0, op, clock, D1.Garbled(D1Theorems.EmptyReceipt())),
                 Invocation(1, op', clock', D1.Delivered)];
    assert invs[..1] == [invs[0]] && invs[..0] == [] && [invs[0]][..0] == [];
    ConflictAfterCreation(op.intent, clock);
    EntryOfCall(invs, 1);
    assert Settled(invs, 0, Resolved(true, Fresh(op.intent)));
    D1Resubmission(policy, invs, 0, 1, Fresh(op.intent), ReplyAt(invs, 1), ctx, call, now, later);
  }

  /** All clock readings of the run are whole milliseconds, as Date gives them. */
  ghost predicate ReadInMillis(invs: seq<Invocation>) {
    forall k :: 0 <= k < |invs| ==>
      && WholeMillis(invs[k].clock.stamp) && WholeMillis(invs[k].clock.due)
      && (invs[k].op.Request? ==> WholeMillis(invs[k].op.intent.requestedAt))
  }

  /** Under any policy with a requester and an executor, a D1 run of calls the service admits, all
      clocks read in milliseconds, can leave a row that expired before its deadline exactly when the
      expiry's stamp is the earlier of its two readings. */
  lemma D1StampCoversDeadline(policy: Policy, clock: Clock)
    requires policy.requesters != [] && policy.executors != []
    requires SaneClock(clock) && WholeMillis(clock.stamp) && WholeMillis(clock.due)
    ensures clock.stamp < clock.due <==>
            exists invs :: LeavesEarlyExpiry(invs, clock) && CalledByService(policy, invs) && ReadInMillis(invs)
  {
    hide LeavesEarlyExpiry, CalledByService, ReadInMillis, ServedIntact, EarlyExpiry;
    if clock.stamp < clock.due {
      var requester, executor := policy.requesters[0], policy.executors[0];
      assert clock.due - clock.stamp >= MILLI;
      EarlyExpiryRun(requester, executor, clock, MILLI);
      EarlyCallsAdmitted(policy, requester, executor, clock);
    }
    D1Runs.StampCoversDeadline(clock);
  }

  lemma EarlyCallsAdmitted(policy: Policy, requester: string, executor: string, clock: Clock)
    requires requester in policy.requesters && executor in policy.executors
    requires SaneClock(clock) && WholeMillis(clock.stamp) && WholeMillis(clock.due) && clock.due - clock.stamp >= MILLI
    ensures var invs := ServedIntact(EarlyExpiry(requester, executor, clock, MILLI));
            CalledByService(policy, invs) && ReadInMillis(invs)
  {
    hide RequestFields, IdentifierText, Sane, WholeMillis, WholeMicros, Representable, Admitted;
    var i, log := EarlyIntent(requester, clock, MILLI), EarlyExpiry(requester, executor, clock, MILLI);
    EarlyIntentIsValid(requester, clock);
    EarlyInstants(clock);
    OpsAreAdmitted(policy, i, executor);
    assert log[0].op == Request(i) && log[1].op == Expire("r", executor) && |log| == 2;
  }

  lemma EarlyInstants(clock: Clock)
    requires SaneClock(clock) && WholeMillis(clock.due) && clock.due - clock.stamp >= MILLI
    ensures var at := clock.due - MILLI;
            && WholeMillis(at) && WholeMicros(at) && Representable(at)
            && WholeMicros(clock.due) && Representable(clock.due)
  {
    hide WholeMillis;
    MilliBefore(clock.due);
  }

  lemma OpsAreAdmitted(policy: Policy, i: RequestIntent, executor: string)
    requires i.requesterInstance in policy.requesters && executor in policy.executors
    requires RequestFields(i) && IdentifierText("r", 128)
    requires WholeMicros(i.requestedAt) && Representable(i.requestedAt)
    requires WholeMicros(i.expiresAt) && Representable(i.expiresAt)
    ensures Admitted(policy, Request(i)) && Admitted(policy, Expire("r", executor))
  {
    hide RequestFields, IdentifierText, WholeMicros, Representable;
  }

  lemma EarlyIntentIsValid(requester: string, clock: Clock)
    ensures RequestFields(EarlyIntent(requester, clock, MILLI)) && IdentifierText("r", 128)
  {
    assert |"s"| != |"management-operation"|;
  }

  // Replays, backend by backend.

  /** After a request created its row, told or not, in whatever run, the service would answer it from
      the committed row until the deadline. */
  lemma PostgresReplay(policy: Policy, events: seq<Postgres.Event>, tx: nat, a: StoredApproval,
                       ctx: Context, call: Call, now: Instant, later: Instant, clock: Clock)
    requires PostgresTheorems.Settled(PostgresTheorems.Reached(events), tx, Resolved(true, a))
    requires call.RequestCall? && Writable(now) && Writable(later) && tx in PostgresTheorems.Reached(events).sessions
    requires Admit(policy, ctx, Success(now), call) == Ok(PostgresTheorems.Reached(events).sessions[tx].op)
    ensures Replayed(policy, Postgres.View(PostgresTheorems.Reached(events).rows), a.intent, ctx, call, later, clock)
  {
    hide Admit, Legal, Apply, After, Replayed;
    PostgresTheorems.Linearizable(events);
    var k := PostgresTheorems.SettledAt(events, tx, Resolved(true, a));
    CreatedFor(PostgresTheorems.Reached(events).log, k);
    EndToEndReplay(policy, PostgresTheorems.Reached(events).log, k, ctx, call, now, later, clock);
  }

  /** Two transactions begun for the same call: when one created the row, told or not, whatever runs
      in between or alongside, the other is answered from the row committed at its own moment. */
  lemma PostgresResubmission(policy: Policy, events: seq<Postgres.Event>, tx: nat, tx': nat,
                             a: StoredApproval, reply: Reply, ctx: Context, call: Call, now: Instant, later: Instant)
    returns (j: nat)
    requires var s := PostgresTheorems.Reached(events);
             && tx != tx' && tx in s.sessions && PostgresTheorems.Settled(s, tx, Resolved(true, a))
             && PostgresTheorems.AnsweredWith(s, tx', reply)
             && call.RequestCall? && Writable(now) && Writable(later)
             && Admit(policy, ctx, Success(now), call) == Ok(s.sessions[tx].op)
             && Admit(policy, ctx, Success(later), call) == Ok(s.sessions[tx'].op)
    ensures var s := PostgresTheorems.Reached(events);
            && j < |s.log| && s.log[j].call == tx' && s.log[j].op == s.sessions[tx'].op
            && s.log[j].reply == reply && a.intent.requestId == call.requestId
            && RowReplayed(s.log[j].op, After(s.log[..j]), a.intent, reply)
    ensures NormalizeTimestamp(later).value < a.intent.expiresAt
  {
    hide Admit, Legal, Apply, After, RowReplayed, EffectOf, PostgresTheorems.Reached;
    PostgresTheorems.Linearizable(events);
    var log := PostgresTheorems.Reached(events).log;
    var k := PostgresTheorems.SettledAt(events, tx, Resolved(true, a));
    j := PostgresTheorems.ReceiptsAreSound(events, tx', reply);
    CreatedFor(log, k);
    ResubmissionReplays(policy, log, k, j, ctx, call, now, later);
  }

  lemma CreatedFor(log: Log, k: nat)
    requires Legal(log) && k < |log| && log[k].reply.Resolved? && log[k].reply.created
    ensures log[k].op == Request(log[k].reply.approval.intent)
  {
    EntryAt(log, k);
  }

  lemma D1Replay(policy: Policy, invs: seq<Invocation>, k: nat, a: StoredApproval,
                 ctx: Context, call: Call, now: Instant, later: Instant, clock: Clock)
    requires Proper(invs) && k < |invs| && Settled(invs, k, Resolved(true, a))
    requires call.RequestCall? && Writable(now) && Writable(later)
    requires Admit(policy, ctx, Success(now), call) == Ok(invs[k].op)
    ensures Replayed(policy, D1Proof.Abstract(TableAfter(invs)), a.intent, ctx, call, later, clock)
  {
    hide Admit, Legal, Apply, After, Replayed, LogAfter, ReplyAt, Position, Settled, D1Proof.Abstract, D1Proof.TableOk;
    RunRefines(invs);
    SettledAt(invs, k, Resolved(true, a));
    CreatedFor(LogAfter(invs), Position(invs, k));
    EndToEndReplay(policy, LogAfter(invs), Position(invs, k), ctx, call, now, later, clock);
  }

  /** Two D1 calls made for the same service call: when one created the row, told or not, the other,
      if answered, is answered from the row in the table when it runs. */
  lemma D1Resubmission(policy: Policy, invs: seq<Invocation>, k: nat, j: nat, a: StoredApproval, reply: Reply,
                       ctx: Context, call: Call, now: Instant, later: Instant)
    requires Proper(invs) && k < |invs| && j < |invs| && k != j
    requires Settled(invs, k, Resolved(true, a)) && Answered(invs, j, reply)
    requires call.RequestCall? && Writable(now) && Writable(later)
    requires Admit(policy, ctx, Success(now), call) == Ok(invs[k].op)
    requires Admit(policy, ctx, Success(later), call) == Ok(invs[j].op)
    ensures a.intent.requestId == call.requestId && NormalizeTimestamp(later).value < a.intent.expiresAt
    ensures RowReplayed(invs[j].op, D1Proof.Abstract(TableAfter(invs[..j])), a.intent, reply)
  {
    hide Admit, Legal, Apply, After, LogAfter, ReplyAt, Position, D1Proof.Abstract, D1Proof.TableOk, RowReplayed;
    var log := LogAfter(invs);
    RunRefines(invs);
    RunRefines(invs[..j]);
    EntryOfCall(invs, j);
    SettledAt(invs, k, Resolved(true, a));
    SettledAt(invs, j, reply);
    if k < j {
      PositionsIncrease(invs, k, j);
    } else {
      PositionsIncrease(invs, j, k);
    }
    CreatedFor(log, Position(invs, k));
    ResubmissionReplays(policy, log, Position(invs, k), Position(invs, j), ctx, call, now, later);
  }

  // Read isolation, backend by backend.

  lemma SameRowsSeen(s: Store, s': Store, id: string, caller: string)
    requires AgreeOnOwned(s, s', caller)
    ensures Visible(s, id, Some(caller)) == Visible(s', id, Some(caller))
  {
  }

  /** What a row-owner's SELECT answers in any reachable state is what the visible row says. */
  lemma SelectAnswers(events: seq<Postgres.Event>, tx: nat)
    requires tx in PostgresTheorems.Reached(events).sessions
    requires var ses := PostgresTheorems.Reached(events).sessions[tx]; ses.phase.Begun? && ses.op.Read?
    ensures var s := PostgresTheorems.Reached(events);
            var op := s.sessions[tx].op;
            Postgres.AfterSelect(s, tx).sessions[tx].phase
            == Postgres.Ended(Postgres.Answered(Found(Visible(Postgres.View(s.rows), op.id, op.requester))))
  {
    hide PostgresProof.Inv, Schema.Decode, PostgresTheorems.Reached;
    PostgresTheorems.ReachedInv(events);
    var s := PostgresTheorems.Reached(events);
    var op := s.sessions[tx].op;
    if op.id in s.rows {
      PostgresSteps.CommittedRowDecodes(s, op.id);
    }
  }

  /** Two databases reached by whatever runs, agreeing on one requester's rows: that requester's
      read, in progress in both, ends the same way in both. */
  lemma PostgresReadIsolation(events: seq<Postgres.Event>, events': seq<Postgres.Event>, tx: nat, tx': nat,
                              id: string, caller: string)
    requires var s, s' := PostgresTheorems.Reached(events), PostgresTheorems.Reached(events');
             && tx in s.sessions && s.sessions[tx].phase.Begun? && s.sessions[tx].op == Read(id, Some(caller))
             && tx' in s'.sessions && s'.sessions[tx'].phase.Begun? && s'.sessions[tx'].op == Read(id, Some(caller))
             && AgreeOnOwned(Postgres.View(s.rows), Postgres.View(s'.rows), caller)
    ensures var s, s' := PostgresTheorems.Reached(events), PostgresTheorems.Reached(events');
            Postgres.AfterSelect(s, tx).sessions[tx].phase == Postgres.AfterSelect(s', tx').sessions[tx'].phase
  {
    hide Postgres.View, PostgresTheorems.Reached;
    var s, s' := PostgresTheorems.Reached(events), PostgresTheorems.Reached(events');
    SelectAnswers(events, tx);
    SelectAnswers(events', tx');
    SameRowsSeen(Postgres.View(s.rows), Postgres.View(s'.rows), id, caller);
  }

  lemma D1ReadIsolation(t: D1.Table, t': D1.Table, id: string, caller: string)
    requires D1Proof.TableOk(t) && D1Proof.TableOk(t')
    requires AgreeOnOwned(D1Proof.Abstract(t), D1Proof.Abstract(t'), caller)
    ensures D1.ClassifyRead(D1.SelectOne(t, id, Some(caller))) == D1.ClassifyRead(D1.SelectOne(t', id, Some(caller)))
  {
    hide D1Proof.TableOk, D1Proof.Abstract, D1.ClassifyRead, D1.SelectOne;
    D1Theorems.ReadClassified(t, id, Some(caller), Clock(0, 0));
    D1Theorems.ReadClassified(t', id, Some(caller), Clock(0, 0));
    SameRowsSeen(D1Proof.Abstract(t), D1Proof.Abstract(t'), id, caller);
  }
}
