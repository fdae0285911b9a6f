/** Runs of the D1 backend: any sequence of calls, each delivered, lost, garbled or never executed. */
module D1Runs {
  import opened Wrappers
  import opened Instants
  import opened Model
  import opened Spec
  import opened History
  import opened Conservation
  import opened D1
  import opened D1Proof
  import opened D1Theorems

  datatype Invocation = Invocation(call: nat, op: Op, clock: Clock, delivery: Delivery)

  ghost predicate Proper(invs: seq<Invocation>) {
    forall k :: 0 <= k < |invs| ==> Ready(invs[k].op) && SaneClock(invs[k].clock)
  }

  /** The table a run of service-admitted calls leads to from an empty one, whatever the callers are
      told; it is always coherent. */
  ghost function TableAfter(invs: seq<Invocation>): (t: Table)
    requires Proper(invs)
    ensures TableOk(t)
  {
    if |invs| == 0 then map[]
    else
      var t, last := TableAfter(invs[..|invs| - 1]), invs[|invs| - 1];
      ServeRefines(t, last.op, last.clock, last.delivery);
      Serve(t, last.op, last.clock, last.delivery).table
  }

  /** The answers of the calls whose batch ran, in order. */
  ghost function LogAfter(invs: seq<Invocation>): Log
    requires Proper(invs)
  {
    if |invs| == 0 then []
    else
      var log, last := LogAfter(invs[..|invs| - 1]), invs[|invs| - 1];
      log + if last.delivery.NotRun? then []
            else [Entry(last.call, last.op, last.clock, Apply(After(log), last.op, last.clock).reply)]
  }

  /** What the k-th caller sees. */
  ghost function ResultAt(invs: seq<Invocation>, k: nat): Result<Reply, StorageError>
    requires Proper(invs) && k < |invs|
  {
    Serve(TableAfter(invs[..k]), invs[k].op, invs[k].clock, invs[k].delivery).result
  }

  lemma {:induction false} RunRefines(invs: seq<Invocation>)
    requires Proper(invs)
    ensures Legal(LogAfter(invs)) && Abstract(TableAfter(invs)) == After(LogAfter(invs))
  {
    hide Serve, Apply, TableOk, Abstract;
    if |invs| == 0 {
      EmptyTable();
    } else {
      var n := |invs| - 1;
      RunRefines(invs[..n]);
      var t, log, last := TableAfter(invs[..n]), LogAfter(invs[..n]), invs[n];
      ServeRefines(t, last.op, last.clock, last.delivery);
      if last.delivery.NotRun? {
        assert LogAfter(invs) == log;
      } else {
        Append(log, Entry(last.call, last.op, last.clock, Apply(After(log), last.op, last.clock).reply));
      }
    }
  }

  lemma EmptyTable()
    ensures TableOk(map[]) && Abstract(map[]) == map[]
  {
  }

  /** The reply the specification gives to the k-th call if its batch runs. */
  ghost function ReplyAt(invs: seq<Invocation>, k: nat): Reply
    requires Proper(invs) && k < |invs|
  {
    Apply(After(LogAfter(invs[..k])), invs[k].op, invs[k].clock).reply
  }

  /** The k-th call took effect with this reply, whether or not its caller was told. */
  ghost predicate Settled(invs: seq<Invocation>, k: nat, reply: Reply)
    requires Proper(invs) && k < |invs|
  {
    !invs[k].delivery.NotRun? && ReplyAt(invs, k) == reply
  }

  /** The k-th call created or terminated a row. */
  ghost predicate Wrote(invs: seq<Invocation>, k: nat)
    requires Proper(invs) && k < |invs|
  {
    !invs[k].delivery.NotRun? && ClaimsWrite(ReplyAt(invs, k))
  }

  /** The k-th caller was told this. What it received may be anything with a true change count. */
  ghost predicate Told(invs: seq<Invocation>, k: nat, reply: Reply)
    requires Proper(invs) && k < |invs|
  {
    && CountIsTrue(TableAfter(invs[..k]), invs[k].op, invs[k].clock, invs[k].delivery)
    && ResultAt(invs, k) == Success(reply)
  }

  /** The k-th caller was told this by the real receipt. */
  ghost predicate Answered(invs: seq<Invocation>, k: nat, reply: Reply)
    requires Proper(invs) && k < |invs|
  {
    invs[k].delivery.Delivered? && ResultAt(invs, k) == Success(reply)
  }

  /** The k-th call is a request that created its row, and its receipt does not show it. */
  ghost predicate HiddenCreation(invs: seq<Invocation>, k: nat)
    requires Proper(invs) && k < |invs|
  {
    HidesCreation(TableAfter(invs[..k]), invs[k].op, invs[k].delivery)
  }

  /** Each call adds its own entry to the history if its batch ran, and nothing if not, whatever its
      caller is told; and the real receipt tells its reply. */
  lemma EntryOfCall(invs: seq<Invocation>, k: nat)
    requires Proper(invs) && k < |invs|
    ensures var before, after := LogAfter(invs[..k]), LogAfter(invs[..k + 1]);
            var e := Entry(invs[k].call, invs[k].op, invs[k].clock, ReplyAt(invs, k));
            after == if invs[k].delivery.NotRun? then before else before + [e]
    ensures invs[k].delivery.Delivered? ==> ResultAt(invs, k) == Success(ReplyAt(invs, k))
    ensures forall reply :: Answered(invs, k, reply) ==> Settled(invs, k, reply) && Told(invs, k, reply)
  {
    hide Serve, Apply, TableOk, Abstract, Legal;
    RunRefines(invs[..k]);
    assert invs[..k + 1][..k] == invs[..k];
    ServeRefines(TableAfter(invs[..k]), invs[k].op, invs[k].clock, invs[k].delivery);
  }

  /** What a call leaves behind: the effect of its reply if its batch ran. */
  lemma EffectOfCall(invs: seq<Invocation>, k: nat)
    requires Proper(invs) && k < |invs|
    ensures var before, after := Abstract(TableAfter(invs[..k])), Abstract(TableAfter(invs[..k + 1]));
            && (if invs[k].delivery.NotRun? then after == before else EffectOf(before, after, ReplyAt(invs, k)))
            && (Wrote(invs, k) <==> after != before)
  {
    hide Serve, Apply, TableOk, Abstract, Legal, EffectOf, Settled, Told, ClaimsWrite;
    RunRefines(invs[..k]);
    RunRefines(invs[..k + 1]);
    EntryOfCall(invs, k);
    var log := LogAfter(invs[..k]);
    AfterIsValid(log);
    ApplyTakesEffect(After(log), invs[k].op, invs[k].clock);
    if !invs[k].delivery.NotRun? {
      EffectShows(Abstract(TableAfter(invs[..k])), Abstract(TableAfter(invs[..k + 1])), ReplyAt(invs, k));
    }
  }

  lemma EffectShows(before: Store, after: Store, reply: Reply)
    requires EffectOf(before, after, reply)
    ensures ClaimsWrite(reply) <==> after != before
  {
    if reply.Changed? {
      assert after[reply.approval.intent.requestId] != before[reply.approval.intent.requestId];
    }
  }

  /** Receipts are sound under any losses and any garbling of the rows they show: a caller told of a
      success is told so by the call that wrote, and one told of a refusal, a replay or a read by a
      call that wrote nothing, unless the receipt hides a creation; and then the caller is told of a
      conflict though its own call created the row. */
  lemma ReceiptsAreSound(invs: seq<Invocation>, k: nat, reply: Reply)
    requires Proper(invs) && k < |invs| && Told(invs, k, reply)
    ensures (ClaimsWrite(reply) <==> Wrote(invs, k)) <==> !HiddenCreation(invs, k)
    ensures HiddenCreation(invs, k) ==> reply == Refused(IdempotencyConflict) && Wrote(invs, k)
  {
    hide Serve, Apply, TableOk, Abstract, Legal, CountIsTrue, HidesCreation, Writes;
    RunRefines(invs[..k]);
    ToldTruly(TableAfter(invs[..k]), invs[k].op, invs[k].clock, invs[k].delivery);
    WritesIsClaimed(TableAfter(invs[..k]), invs[k].op, invs[k].clock);
  }

  /** Two callers told of a success transition were told of two requests, whatever rows they saw. */
  lemma OneToldWinner(invs: seq<Invocation>, i: nat, j: nat, a: StoredApproval, b: StoredApproval)
    requires Proper(invs) && i < j < |invs|
    requires Told(invs, i, Changed(a)) && Told(invs, j, Changed(b))
    ensures invs[i].op.Transition() && invs[j].op.Transition() && invs[i].op.id != invs[j].op.id
  {
    hide Legal, LogAfter, Position, HiddenCreation, Told, AnswersFinally;
    ToldTransition(invs, i, a);
    ToldTransition(invs, j, b);
    OneWinner(invs, i, j, ReplyAt(invs, i).approval, ReplyAt(invs, j));
  }

  /** Who is told of a success transition made it, on the request it was made for. */
  lemma ToldTransition(invs: seq<Invocation>, k: nat, a: StoredApproval)
    requires Proper(invs) && k < |invs| && Told(invs, k, Changed(a))
    ensures invs[k].op.Transition() && !invs[k].delivery.NotRun? && ReplyAt(invs, k).Changed?
    ensures ReplyAt(invs, k).approval.intent.requestId == invs[k].op.id
  {
    hide Legal, LogAfter, Told, Serve, TableOk, Abstract, HiddenCreation;
    ReceiptsAreSound(invs, k, Changed(a));
    RunRefines(invs[..k]);
    AfterIsValid(LogAfter(invs[..k]));
    FitsTransition(invs, k, a);
  }

  lemma FitsTransition(invs: seq<Invocation>, k: nat, a: StoredApproval)
    requires Proper(invs) && k < |invs| && Told(invs, k, Changed(a))
    ensures invs[k].op.Transition()
  {
    hide Serve;
    ServeFits(TableAfter(invs[..k]), invs[k].op, invs[k].clock, invs[k].delivery);
  }

  /** The gap is real: any request the service can make creates its row in an empty database, and is
      told of a conflict, when the rows read back get lost. */
  lemma ConflictAfterCreation(i: RequestIntent, clock: Clock)
    requires Ready(Request(i)) && SaneClock(clock)
    ensures var invs := [Invocation(0, Request(i), clock, Garbled(EmptyReceipt()))];
            && Proper(invs) && Told(invs, 0, Refused(IdempotencyConflict)) && HiddenCreation(invs, 0)
            && Settled(invs, 0, Resolved(true, Fresh(i))) && i.requestId in TableAfter(invs)
  {
    var invs := [Invocation(0, Request(i), clock, Garbled(EmptyReceipt()))];
    assert invs[..0] == [];
    assert !Taken(After([]), i) && Inserts(map[], i);
    hide Serve, Insert;
    CreationAnsweredAsConflict(map[], i, clock);
  }

  lemma {:induction false} LogGrowsAlong(invs: seq<Invocation>, n: nat)
    requires Proper(invs) && n <= |invs|
    ensures LogAfter(invs[..n]) <= LogAfter(invs)
  {
    if n == |invs| {
      assert invs[..n] == invs;
    } else {
      var shorter := invs[..|invs| - 1];
      LogGrowsAlong(shorter, n);
      assert shorter[..n] == invs[..n];
    }
  }

  /** Where a call whose batch ran stands in the history. */
  ghost function Position(invs: seq<Invocation>, k: nat): nat
    requires Proper(invs) && k < |invs|
  {
    |LogAfter(invs[..k])|
  }

  lemma SettledAt(invs: seq<Invocation>, k: nat, reply: Reply)
    requires Proper(invs) && k < |invs| && Settled(invs, k, reply)
    ensures var log, p := LogAfter(invs), Position(invs, k);
            && p < |log| && log[..p] == LogAfter(invs[..k])
            && log[p] == Entry(invs[k].call, invs[k].op, invs[k].clock, reply)
  {
    hide ReplyAt;
    assert invs[..k + 1][..k] == invs[..k];
    hide Apply;
    EntryOfCall(invs, k);
    LogGrowsAlong(invs, k + 1);
  }

  lemma PositionsIncrease(invs: seq<Invocation>, i: nat, j: nat)
    requires Proper(invs) && i < j < |invs| && !invs[i].delivery.NotRun?
    ensures Position(invs, i) < Position(invs, j)
  {
    hide Apply, ReplyAt, Answered, Settled, Told;
    EntryOfCall(invs, i);
    LogGrowsAlong(invs[..j], i + 1);
    assert invs[..j][..i + 1] == invs[..i + 1];
  }

  /** However often callers retry after unknown outcomes, a request has one winner: once a
      transition took effect, told or not, every later call is answered from it and none succeeds. */
  lemma OneWinner(invs: seq<Invocation>, i: nat, j: nat, a: StoredApproval, reply: Reply)
    requires Proper(invs) && i < j < |invs| && Settled(invs, i, Changed(a)) && Settled(invs, j, reply)
    ensures AnswersFinally(a, invs[j].op, reply)
    ensures reply.Changed? ==> reply.approval.intent.requestId != a.intent.requestId
  {
    hide Legal, LogAfter, ReplyAt, Position, AnswersFinally;
    RunRefines(invs);
    SettledAt(invs, i, Changed(a));
    SettledAt(invs, j, reply);
    PositionsIncrease(invs, i, j);
    FirstTerminalWins(LogAfter(invs), Position(invs, i), Position(invs, j));
  }

  /** One creation among all requests that share an id or a delivery key, in any order, told or not.
      A request that differs in nothing but requested_at replays its row, any other is a conflict. */
  lemma OneCreation(invs: seq<Invocation>, i: nat, j: nat, a: StoredApproval, reply: Reply)
    requires Proper(invs) && i < |invs| && j < |invs| && i != j
    requires Settled(invs, i, Resolved(true, a)) && Settled(invs, j, reply)
    requires invs[i].op.Request? && invs[j].op.Request? && Collide(invs[i].op.intent, invs[j].op.intent)
    ensures a.intent == invs[i].op.intent
    ensures if a.intent.(requestedAt := invs[j].op.intent.requestedAt) == invs[j].op.intent then ReplaysRow(reply, a)
            else reply == Refused(IdempotencyConflict)
  {
    hide Legal, LogAfter, ReplyAt, Position, ReplaysRow;
    RunRefines(invs);
    SettledAt(invs, i, Resolved(true, a));
    SettledAt(invs, j, reply);
    if i < j {
      PositionsIncrease(invs, i, j);
    } else {
      PositionsIncrease(invs, j, i);
    }
    CreationIsUnique(LogAfter(invs), Position(invs, i), Position(invs, j));
  }

  /** Rows never disappear, never change intent, and are final once terminal. */
  lemma StoredRowsEvolve(invs: seq<Invocation>, n: nat)
    requires Proper(invs) && n <= |invs|
    ensures Evolves(Abstract(TableAfter(invs[..n])), Abstract(TableAfter(invs)))
  {
    hide Serve, Apply, TableOk, Abstract, Legal, Evolves;
    RunRefines(invs[..n]);
    RunRefines(invs);
    LogGrowsAlong(invs, n);
    var log, log' := LogAfter(invs[..n]), LogAfter(invs);
    assert log'[..|log|] == log && log'[..|log'|] == log';
    HistoryEvolves(log', |log|, |log'|);
  }

  /** An expired row's deadline had passed at the clock reading of an expiry call that ran. */
  lemma ExpiredRowsWereDue(invs: seq<Invocation>, id: string)
    requires Proper(invs) && id in TableAfter(invs) && Abstract(TableAfter(invs))[id].status == Expired
    ensures var a, log := Abstract(TableAfter(invs))[id], LogAfter(invs);
            exists k: nat :: && TerminatedBy(log, k, a) && log[k].op.Expire?
                        && a.intent.requestedAt < a.intent.expiresAt <= log[k].clock.due
  {
    RunRefines(invs);
    ExpiredWasDue(LogAfter(invs), id);
  }

  /** The stored revisions count creations and transitions, so lost replies cost nothing. */
  lemma StoredRevisions(invs: seq<Invocation>)
    requires Proper(invs)
    ensures var s, log := Abstract(TableAfter(invs)), LogAfter(invs);
            && Sum(s, Revision) == Count(log, IsCreation) + Count(log, IsTransition)
            && Count(log, IsTransition) <= Count(log, IsCreation) == |s|
  {
    RunRefines(invs);
    RevisionsAreConserved(LogAfter(invs));
  }

  /** The calls of a history, each served by D1 without loss. */
  function ServedIntact(log: Log): (invs: seq<Invocation>)
    ensures |invs| == |log|
  {
    seq(|log|, i requires 0 <= i < |log| => Invocation(log[i].call, log[i].op, log[i].clock, Delivered))
  }

  lemma NextIntact(invs: seq<Invocation>, e: Entry)
    requires Proper(invs) && Ready(e.op) && SaneClock(e.clock)
    requires e.reply == Apply(After(LogAfter(invs)), e.op, e.clock).reply
    ensures var invs' := invs + [Invocation(e.call, e.op, e.clock, Delivered)];
            Proper(invs') && LogAfter(invs') == LogAfter(invs) + [e]
  {
    hide Apply, After, TableAfter, SaneClock, Ready;
    assert (invs + [Invocation(e.call, e.op, e.clock, Delivered)])[..|invs|] == invs;
  }

  lemma ServedIntactSplits(log: Log)
    requires |log| > 0
    ensures var n, last := |log| - 1, log[|log| - 1];
            ServedIntact(log) == ServedIntact(log[..n]) + [Invocation(last.call, last.op, last.clock, Delivered)]
  {
  }

  lemma {:induction false} ServedIntactRefines(log: Log)
    requires Legal(log)
    ensures Proper(ServedIntact(log)) && LogAfter(ServedIntact(log)) == log
  {
    if |log| == 0 {
    } else {
      var n := |log| - 1;
      EntryAt(log, n);
      assert log == log[..n + 1] == log[..n] + [log[n]];
      ServedIntactSplits(log);
      hide Apply, After, Legal, LogAfter, Proper, Ready, SaneClock, ServedIntact;
      ServedIntactRefines(log[..n]);
      NextIntact(ServedIntact(log[..n]), log[n]);
    }
  }

  lemma ServedIntactAnswers(log: Log, k: nat)
    requires Legal(log) && k < |log|
    ensures Proper(ServedIntact(log)) && ResultAt(ServedIntact(log), k) == Success(log[k].reply)
  {
    hide Serve, Apply, Legal, TableOk, Abstract;
    ServedIntactRefines(log);
    EntryAt(log, k);
    ServedIntactRefines(log[..k]);
    var invs := ServedIntact(log);
    assert invs[..k] == ServedIntact(log[..k]);
    RunRefines(invs[..k]);
    ServeRefines(TableAfter(invs[..k]), invs[k].op, invs[k].clock, invs[k].delivery);
  }

  lemma ServedIntactSettles(log: Log, k: nat)
    requires Legal(log) && k < |log|
    ensures Proper(ServedIntact(log)) && Settled(ServedIntact(log), k, log[k].reply)
  {
    ServedIntactRefines(log);
    ServedIntactAnswers(log, k);
    hide Legal, LogAfter, ResultAt, ReplyAt;
    EntryOfCall(ServedIntact(log), k);
    assert Answered(ServedIntact(log), k, log[k].reply);
  }

  /** The histories of the D1 backend are exactly the legal ones. */
  lemma HistoriesAreExact(log: Log)
    ensures (exists invs :: Proper(invs) && LogAfter(invs) == log) <==> Legal(log)
  {
    hide Legal, LogAfter;
    if Legal(log) {
      ServedIntactRefines(log);
    }
    forall invs | Proper(invs) && LogAfter(invs) == log
      ensures Legal(log)
    {
      RunRefines(invs);
    }
  }

  /** The last call of the run is an expiry, with this clock, that leaves its row in the table as
      expired before the row's own deadline. */
  ghost predicate LeavesEarlyExpiry(invs: seq<Invocation>, clock: Clock) {
    && Proper(invs) && |invs| > 0
    && var last := invs[|invs| - 1];
       && last.op.Expire? && last.clock == clock && last.op.id in TableAfter(invs)
       && var row := Abstract(TableAfter(invs))[last.op.id];
          && Settled(invs, |invs| - 1, Changed(row)) && row.status == Expired
          && row.terminalAt.Some? && row.terminalAt.value < row.intent.expiresAt
  }

  lemma LastIsSettled(invs: seq<Invocation>, reply: Reply)
    requires Proper(invs) && |invs| > 0 && Settled(invs, |invs| - 1, reply)
    ensures var n, last := |invs| - 1, invs[|invs| - 1];
            LogAfter(invs) == LogAfter(invs[..n]) + [Entry(last.call, last.op, last.clock, reply)]
  {
  }

  /** D1 stamps one clock reading and compares another: a run can leave a row that expired before its
      deadline exactly when the stamp is the earlier reading. */
  lemma StampCoversDeadline(clock: Clock)
    requires SaneClock(clock)
    ensures clock.stamp < clock.due <==> exists invs :: LeavesEarlyExpiry(invs, clock)
  {
    if clock.stamp < clock.due {
      assert clock.due - clock.stamp >= MICRO;
      EarlyExpiryRun("q", "x", clock, MICRO);
    }
    forall invs | LeavesEarlyExpiry(invs, clock)
      ensures clock.stamp < clock.due
    {
      EarlyExpiryIsLogged(invs, clock);
      History.StampCoversDeadline(clock);
    }
  }

  lemma EarlyExpiryIsLogged(invs: seq<Invocation>, clock: Clock)
    requires LeavesEarlyExpiry(invs, clock)
    ensures EndsInEarlyExpiry(LogAfter(invs), clock)
  {
    hide TableOk, Abstract, LogAfter, ReplyAt, Legal;
    RunRefines(invs);
    TableKeys(TableAfter(invs));
    LastIsSettled(invs, Changed(Abstract(TableAfter(invs))[invs[|invs| - 1].op.id]));
  }

  lemma EarlyExpiryRun(requester: string, executor: string, clock: Clock, lead: int)
    requires SaneClock(clock) && 0 < lead <= clock.due - clock.stamp && WholeMicros(lead)
    ensures LeavesEarlyExpiry(ServedIntact(EarlyExpiry(requester, executor, clock, lead)), clock)
  {
    var log := EarlyExpiry(requester, executor, clock, lead);
    EarlyExpiryHappens(requester, executor, clock, lead);
    hide TableOk, Abstract, TableAfter, LogAfter, Legal, After, Settled;
    ServedIntactRefines(log);
    RunRefines(ServedIntact(log));
    ServedIntactSettles(log, 1);
    TableKeys(TableAfter(ServedIntact(log)));
  }
}
