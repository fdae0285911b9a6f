/** The D1 store as code that edits its table in place, and the Rust handle on top of it. */
module D1Store {
  import opened Wrappers
  import opened Instants
  import opened Model
  import opened Spec
  import opened D1
  import opened D1Proof
  import opened D1Theorems

  /** What one call may do to the table and what it may answer: the specification's reply when it is
      delivered, an error for a rejected receipt or none, and otherwise the truth about this call's own
      effect, unless a request's receipt hides its creation. */
  ghost predicate Answers(t: Table, t': Table, op: Op, clock: Clock, d: Delivery, r: Result<Reply, StorageError>)
    requires TableOk(t) && TableOk(t')
  {
    var step := Apply(Abstract(t), op, clock);
    && (if d.NotRun? then t' == t else Abstract(t') == step.store)
    && (d.NotRun? || !Writes(t, op, clock) ==> t' == t)
    && Reported(op, d, Success(step.reply), r)
    && (r.Success? && CountIsTrue(t, op, clock, d) ==> !d.NotRun? && Truthful(t, op, clock, d, r.value))
    && (r.Success? ==> Fits(op, r.value))
  }

  lemma ServeTells(t: Table, op: Op, clock: Clock, d: Delivery)
    requires TableOk(t) && Ready(op) && SaneClock(clock)
    ensures var s := Serve(t, op, clock, d);
            && (d.NotRun? || !Writes(t, op, clock) ==> s.table == t)
            && (s.result.Success? && CountIsTrue(t, op, clock, d) ==>
                  !d.NotRun? && Truthful(t, op, clock, d, s.result.value))
            && (s.result.Success? ==> Fits(op, s.result.value))
  {
    hide Serve, TableOk, Writes, CountIsTrue, Truthful;
    TableKeys(t);
    WritesOrNothing(t, op, clock, d);
    if CountIsTrue(t, op, clock, d) {
      ToldTruly(t, op, clock, d);
    }
    if Serve(t, op, clock, d).result.Success? {
      ServeFits(t, op, clock, d);
    }
  }

  class D1Store {
    var table: Table

    ghost predicate Valid()
      reads this
    {
      TableOk(table)
    }

    constructor ()
      ensures Valid() && table == map[]
    {
      table := map[];
    }

    /** The JavaScript transition: one conditional update and one read back, in one batch. None is
        an exception. */
    method Transition(op: Op, clock: Clock, d: Delivery) returns (r: Option<TransitionResult>)
      requires op.Transition() && Ready(op)
      modifies this
      ensures table == if d.NotRun? then old(table) else Update(old(table), op, clock)
      ensures d.NotRun? ==> r.None?
      ensures !d.NotRun? ==>
                var honest := HonestReceipt(Updates(old(table), op, clock.due),
                                            if op.id in table then [table[op.id].record] else []);
                r == if Received(d, honest).Some? then ReadReceipt(Received(d, honest).value) else None
    {
      hide JsonSet;
      var status := if op.Decide? then op.decision.Text() else if op.Cancel? then "cancelled" else "expired";
      if op.Decide? && status !in ["approved", "rejected"] {
        return None;
      }
      var actor := if op.Expire? then None else Some(op.actor);
      var evidence := if op.Decide? then Some(op.evidence) else None;
      var reason := if op.Expire? then None else op.note;
      var requester: Option<string>, deadline: Option<int> := None, None;
      if op.Cancel? {
        requester := Some(op.caller);
      }
      if op.Expire? {
        deadline := Some(CastInteger(Micros(clock.due)));
      }
      if d.NotRun? {
        return None;
      }
      var changes := 0;
      if op.id in table && table[op.id].status == "pending" && table[op.id].revision == 1
         && (requester.None? || table[op.id].requesterInstance == requester.value)
         && (deadline.None? || table[op.id].expiresUs <= deadline.value)
      {
        var row := table[op.id];
        table := table[op.id := row.(status := status, revision := 2,
                                     record := JsonSet(row.record, status, op.caller, actor, evidence, reason,
                                                       clock.stamp))];
        changes := 1;
      }
      var docs := if op.id in table then [table[op.id].record] else [];
      var receipt := Received(d, Some([StatementResult(true, Some([]), Some(changes)),
                                       StatementResult(true, Some(docs), Some(0))]));
      if receipt.None? || !AssertBatch(receipt.value) {
        return None;
      }
      var rows := receipt.value.value;
      r := Some(TransitionResult(rows[0].changes.value == 1,
                                 if |rows[1].results.value| > 0 then Some(rows[1].results.value[0]) else None));
    }

    /** The JavaScript request: one insert that yields to either key, and one read back. */
    method InsertAndSelect(intent: RequestIntent, d: Delivery) returns (r: Option<RequestRows>)
      requires Valid() && Ready(Op.Request(intent))
      modifies this
      ensures Valid() && table == if d.NotRun? then old(table) else Insert(old(table), intent)
      ensures d.NotRun? ==> r.None?
      ensures !d.NotRun? ==>
                var honest := HonestReceipt(Inserts(old(table), intent), SelectByKeys(table, intent));
                r == if Received(d, honest).Some? then ReadRows(Received(d, honest).value) else None
    {
      if d.NotRun? {
        return None;
      }
      InsertCoherent(table, intent, Clock(0, 0));
      var changes := 0;
      if intent.requestId !in table && !KeyTaken(table, intent) {
        table := table[intent.requestId := D1Row(intent.requesterInstance, intent.idempotencyKey, "pending", 1,
                                                 CastInteger(Micros(intent.expiresAt)), NewDoc(intent))];
        changes := 1;
      }
      var docs := SelectByKeys(table, intent);
      var receipt := Received(d, Some([StatementResult(true, Some([]), Some(changes)),
                                       StatementResult(true, Some(docs), Some(0))]));
      if receipt.None? || !AssertBatch(receipt.value) {
        return None;
      }
      r := Some(RequestRows(receipt.value.value[0].changes.value == 1, receipt.value.value[1].results.value));
    }

    // The Rust handle.

    method Request(intent: RequestIntent, clock: Clock, d: Delivery) returns (r: Result<Reply, StorageError>)
      requires Valid() && Ready(Op.Request(intent)) && SaneClock(clock)
      modifies this
      ensures Valid() && Answers(old(table), table, Op.Request(intent), clock, d, r)
    {
      ServeRefines(table, Op.Request(intent), clock, d);
      ServeTells(table, Op.Request(intent), clock, d);
      ghost var served := Serve(table, Op.Request(intent), clock, d);
      var result := InsertAndSelect(intent, d);
      r := ClassifyRequest(intent, result);
      assert served == Served(table, r);
    }

    method Read(id: string, requester: Option<string>, clock: Clock, d: Delivery)
      returns (r: Result<Reply, StorageError>)
      requires Valid() && SaneClock(clock)
      ensures Answers(table, table, Op.Read(id, requester), clock, d, r)
    {
      ServeRefines(table, Op.Read(id, requester), clock, d);
      ServeTells(table, Op.Read(id, requester), clock, d);
      var received := Received(d, HonestRow(SelectOne(table, id, requester)));
      r := ClassifyFirst(if received.Some? then FirstRow(received.value) else None);
    }

    method Decide(id: string, decision: ApprovalStatus, caller: string, actor: string, evidence: string,
                  note: Option<string>, clock: Clock, d: Delivery)
      returns (r: Result<Reply, StorageError>)
      requires Valid() && (decision == Approved || decision == Rejected) && SaneClock(clock)
      modifies this
      ensures Valid() && Answers(old(table), table, Op.Decide(id, decision, caller, actor, evidence, note), clock, d, r)
    {
      r := Terminate(Op.Decide(id, decision, caller, actor, evidence, note), clock, d);
    }

    method Cancel(id: string, caller: string, actor: string, note: Option<string>, clock: Clock, d: Delivery)
      returns (r: Result<Reply, StorageError>)
      requires Valid() && SaneClock(clock)
      modifies this
      ensures Valid() && Answers(old(table), table, Op.Cancel(id, caller, actor, note), clock, d, r)
    {
      r := Terminate(Op.Cancel(id, caller, actor, note), clock, d);
    }

    method Expire(id: string, caller: string, clock: Clock, d: Delivery) returns (r: Result<Reply, StorageError>)
      requires Valid() && SaneClock(clock)
      modifies this
      ensures Valid() && Answers(old(table), table, Op.Expire(id, caller), clock, d, r)
    {
      r := Terminate(Op.Expire(id, caller), clock, d);
    }

    /** Run a transition and classify what came back. */
    method Terminate(op: Op, clock: Clock, d: Delivery) returns (r: Result<Reply, StorageError>)
      requires Valid() && op.Transition() && Ready(op) && SaneClock(clock)
      modifies this
      ensures Valid() && Answers(old(table), table, op, clock, d, r)
    {
      hide TableOk, Abstract, Apply, DecodeDoc, UpdatedRow;
      TableKeys(table);
      ServeRefines(table, op, clock, d);
      ServeTells(table, op, clock, d);
      ghost var served := Serve(table, op, clock, d);
      var result := Transition(op, clock, d);
      r := ClassifyTransition(op, result);
      assert served == Served(table, r);
    }
  }
}
