/** One call of the D1 backend refines the specification, whatever becomes of its reply. */
module D1Theorems {
  import opened Wrappers
  import opened Instants
  import opened Model
  import opened Spec
  import opened D1
  import opened D1Proof

  predicate Presentable(doc: Doc) {
    DecodeDoc(doc).Some? && EvidenceValid(DecodeDoc(doc).value)
  }

  /** No reason for refusing the transition can be seen in the row. */
  predicate Eligible(op: Op, a: StoredApproval)
    requires op.Transition()
  {
    a.status == Pending && !op.Expire? && (op.Cancel? ==> a.intent.requesterInstance == op.caller)
  }

  /** The receipts the code turns into an error. A transition also rejects a receipt that contradicts
      itself, a change without a row or no change of an eligible row; a request does not. */
  predicate Rejected(op: Op, receipt: Receipt) {
    match op
    case Request(_) =>
      AssertBatch(receipt) ==>
        var docs := receipt.value[1].results.value;
        || (exists k :: 0 <= k < |docs| && DecodeDoc(docs[k]).None?)
        || (|docs| == 1 && !Presentable(docs[0]))
    case Read(_, _) =>
      FirstRow(receipt).Some? ==>
        FirstRow(receipt).value.Some? && !Presentable(FirstRow(receipt).value.value)
    case _ =>
      AssertBatch(receipt) ==>
        var changed, docs := receipt.value[0].changes.value == 1, receipt.value[1].results.value;
        if |docs| == 0 then changed
        else !Presentable(docs[0]) || (!changed && Eligible(op, DecodeDoc(docs[0]).value))
  }

  /** The one row that matters decodes, and its evidence is invalid. */
  predicate ShowsBadEvidence(op: Op, receipt: Receipt) {
    match op
    case Request(_) =>
      && AssertBatch(receipt) && |receipt.value[1].results.value| == 1
      && BadEvidence(receipt.value[1].results.value[0])
    case Read(_, _) =>
      FirstRow(receipt).Some? && FirstRow(receipt).value.Some? && BadEvidence(FirstRow(receipt).value.value)
    case _ =>
      && AssertBatch(receipt) && |receipt.value[1].results.value| > 0
      && BadEvidence(receipt.value[1].results.value[0])
  }

  predicate BadEvidence(doc: Doc) {
    DecodeDoc(doc).Some? && !EvidenceValid(DecodeDoc(doc).value)
  }

  /** The code reports a storage error on a received receipt exactly when it is one of these: invalid
      evidence as such, and anything else as unavailable. */
  lemma RejectionIsExact(t: Table, op: Op, clock: Clock, receipt: Receipt)
    requires UniqueKeys(t) && Ready(op)
    ensures var r := Serve(t, op, clock, Garbled(receipt)).result;
            && (r.Failure? <==> Rejected(op, receipt))
            && (r.Failure? ==> r.error == if ShowsBadEvidence(op, receipt) then InvalidEvidence else Unavailable)
  {
    hide DecodeDoc, EvidenceValid, SelectByKeys, UpdatedRow, AssertBatch;
    match op
    case Request(_) =>
    case Read(_, _) =>
    case _ =>
  }

  // Soundness of what a caller is told, whatever rows the receipt shows.

  /** The call's batch, if it runs, writes a row. */
  predicate Writes(t: Table, op: Op, clock: Clock) {
    match op
    case Request(i) => Inserts(t, i)
    case Read(_, _) => false
    case _ => Updates(t, op, clock.due)
  }

  /** The fault: the receipt may have any shape and show any rows, but a change count that passes the
      receipt check is the real one. */
  predicate CountIsTrue(t: Table, op: Op, clock: Clock, d: Delivery) {
    d.Garbled? && !op.Read? && AssertBatch(d.receipt) ==>
      (d.receipt.value[0].changes.value == 1 <==> Writes(t, op, clock))
  }

  /** The request's batch inserted its row, and the receipt does not show just a row of its intent. */
  predicate HidesCreation(t: Table, op: Op, d: Delivery) {
    && d.Garbled? && op.Request? && Inserts(t, op.intent) && AssertBatch(d.receipt)
    && var docs := d.receipt.value[1].results.value;
       !(|docs| == 1 && DecodeDoc(docs[0]).Some? && SameIntent(DecodeDoc(docs[0]).value, op.intent))
  }

  /** What is claimed of this call's own effect is true, except that a creation whose row the receipt
      hides is answered as a conflict. */
  predicate Truthful(t: Table, op: Op, clock: Clock, d: Delivery, reply: Reply) {
    && ((ClaimsWrite(reply) <==> Writes(t, op, clock)) <==> !HidesCreation(t, op, d))
    && (HidesCreation(t, op, d) ==> reply == Refused(IdempotencyConflict))
  }

  lemma GarbledIsTruthful(t: Table, op: Op, clock: Clock, receipt: Receipt)
    requires UniqueKeys(t) && Ready(op) && CountIsTrue(t, op, clock, Garbled(receipt))
    ensures var r := Serve(t, op, clock, Garbled(receipt)).result;
            r.Success? ==> Truthful(t, op, clock, Garbled(receipt), r.value)
  {
    hide DecodeDoc, EvidenceValid, SelectByKeys, UpdatedRow, AssertBatch, SameIntent, Inserts, Updates;
    match op
    case Request(_) =>
    case Read(_, _) =>
    case _ =>
  }

  /** The batch writes exactly when the specification's reply claims it. */
  lemma WritesIsClaimed(t: Table, op: Op, clock: Clock)
    requires TableOk(t) && Ready(op) && SaneClock(clock)
    ensures Writes(t, op, clock) <==> ClaimsWrite(Apply(Abstract(t), op, clock).reply)
  {
    hide TableOk, Abstract, Updates, Inserts;
    match op
    case Request(i) => CollisionsOnColumns(t, i);
    case Read(_, _) =>
    case _ =>
      TableKeys(t);
      ColumnsDecideAsDocument(t, op, clock.due);
  }

  /** A call whose batch ran writes, or leaves the table as it was. */
  lemma WritesOrNothing(t: Table, op: Op, clock: Clock, d: Delivery)
    requires UniqueKeys(t)
    ensures d.NotRun? || !Writes(t, op, clock) ==> Serve(t, op, clock, d).table == t
    ensures Ready(op) && !d.NotRun? && Writes(t, op, clock) ==> Serve(t, op, clock, d).table != t
  {
  }

  /** Receipts are sound: whoever is told of a success or a refusal is told truly whether this call
      wrote, whatever the rows in the receipt, unless they hide its creation; and only then not. */
  lemma ToldTruly(t: Table, op: Op, clock: Clock, d: Delivery)
    requires TableOk(t) && Ready(op) && SaneClock(clock) && CountIsTrue(t, op, clock, d)
    ensures var r := Serve(t, op, clock, d).result;
            r.Success? ==> !d.NotRun? && Truthful(t, op, clock, d, r.value)
  {
    hide Serve, TableOk, Abstract, Apply, CountIsTrue, Writes, Rejected;
    TableKeys(t);
    ServeRefines(t, op, clock, d);
    match d
    case Delivered => WritesIsClaimed(t, op, clock);
    case Garbled(receipt) => GarbledIsTruthful(t, op, clock, receipt);
    case NotRun =>
    case ReplyLost =>
  }

  /** The receipt that hides a creation: one change, and no row. A transition would reject it. */
  function EmptyReceipt(): Receipt {
    HonestReceipt(true, [])
  }

  /** Every request that inserts its row is told of a conflict if the rows it reads back get lost. */
  lemma CreationAnsweredAsConflict(t: Table, i: RequestIntent, clock: Clock)
    requires UniqueKeys(t) && Inserts(t, i)
    ensures var s := Serve(t, Request(i), clock, Garbled(EmptyReceipt()));
            s.result == Success(Refused(IdempotencyConflict)) && i.requestId in s.table && i.requestId !in t
    ensures CountIsTrue(t, Request(i), clock, Garbled(EmptyReceipt()))
    ensures HidesCreation(t, Request(i), Garbled(EmptyReceipt()))
    ensures forall op: Op :: op.Transition() ==> Rejected(op, EmptyReceipt())
  {
  }

  lemma DocOf(t: Table, id: string)
    requires TableOk(t) && id in t
    ensures DecodeDoc(t[id].record) == Some(Abstract(t)[id])
    ensures var a := Abstract(t)[id];
            && EvidenceValid(a) && a.intent.requestId == id
            && a.intent.requesterInstance == t[id].requesterInstance && a.intent.idempotencyKey == t[id].idempotencyKey
  {
    assert Coherent(id, t[id]);
  }

  lemma TableKeys(t: Table)
    requires TableOk(t)
    ensures UniqueKeys(t) && Abstract(t).Keys == t.Keys && Valid(Abstract(t))
  {
    AbstractIsValid(t);
  }

  /** Reading both keys back after the insert finds the created row alone. */
  lemma CreatedRowReadBack(t: Table, i: RequestIntent)
    requires TableOk(t) && Ready(Request(i)) && Inserts(t, i)
    ensures TableOk(Insert(t, i)) && SelectByKeys(Insert(t, i), i) == [NewDoc(i)]
  {
    InsertCoherent(t, i, Clock(0, 0));
    var t' := Insert(t, i);
    assert t'[i.requestId].requesterInstance == i.requesterInstance;
    assert t'[i.requestId].idempotencyKey == i.idempotencyKey;
    assert KeyTaken(t', i);
  }

  /** Counting the rows read back and comparing a single one classifies as the specification. */
  lemma TakenRowsClassified(t: Table, i: RequestIntent, clock: Clock)
    requires TableOk(t) && !Inserts(t, i)
    ensures ClassifyRequest(i, Some(RequestRows(false, SelectByKeys(t, i))))
            == Success(Apply(Abstract(t), Request(i), clock).reply)
  {
    hide DecodeDoc, Coherent, TableOk, Abstract;
    TableKeys(t);
    CollisionsOnColumns(t, i);
    if i.requestId in t {
      DocOf(t, i.requestId);
    }
    if KeyTaken(t, i) {
      DocOf(t, KeyHolder(t, i));
    }
    if Replays(Abstract(t), i) {
      DocOf(t, i.requestId);
      assert KeyTaken(t, i);
    }
  }

  lemma RequestClassified(t: Table, i: RequestIntent, clock: Clock)
    requires TableOk(t) && Ready(Request(i))
    ensures TableOk(Insert(t, i))
    ensures ClassifyRequest(i, Some(RequestRows(Inserts(t, i), SelectByKeys(Insert(t, i), i))))
            == Success(Apply(Abstract(t), Request(i), clock).reply)
  {
    InsertCoherent(t, i, clock);
    if Inserts(t, i) {
      CreatedRowReadBack(t, i);
      NewDocDecodes(i);
      CollisionsOnColumns(t, i);
    } else {
      TakenRowsClassified(t, i, clock);
    }
  }

  /** The reason reconstructed from the row read back is the specification's reason; the
      `pending and eligible yet unchanged` branch is never taken. */
  lemma TransitionClassified(t: Table, op: Op, clock: Clock)
    requires TableOk(t) && op.Transition() && Ready(op) && Sane(clock.due)
    ensures var t' := Update(t, op, clock);
            ClassifyTransition(op, Some(TransitionResult(Updates(t, op, clock.due),
                                                         if op.id in t' then Some(t'[op.id].record) else None)))
            == Success(Apply(Abstract(t), op, clock).reply)
  {
    hide DecodeDoc, TableOk, Abstract, Coherent, UpdatedRow;
    UpdateCoherent(t, op, clock);
    ColumnsDecideAsDocument(t, op, clock.due);
    var t' := Update(t, op, clock);
    TableKeys(t);
    TableKeys(t');
    if op.id in t {
      DocOf(t, op.id);
      DocOf(t', op.id);
    }
  }

  lemma ReadClassified(t: Table, id: string, requester: Option<string>, clock: Clock)
    requires TableOk(t)
    ensures ClassifyRead(SelectOne(t, id, requester)) == Success(Apply(Abstract(t), Read(id, requester), clock).reply)
  {
    if id in t {
      DocOf(t, id);
    }
  }

  /** How a call reports: the real reply, an error for a rejected receipt, and an error for none. */
  predicate Reported(op: Op, d: Delivery, actual: Result<Reply, StorageError>, told: Result<Reply, StorageError>) {
    match d
    case Delivered => told == actual
    case Garbled(receipt) => told.Failure? <==> Rejected(op, receipt)
    case _ => told.Failure?
  }

  /** One call: the abstract row set is the specification's unless the batch never ran, the columns
      and documents stay coherent, a reply delivered intact is the specification's, and a lost,
      absent or rejected one is an error. */
  lemma ServeRefines(t: Table, op: Op, clock: Clock, d: Delivery)
    requires TableOk(t) && Ready(op) && SaneClock(clock)
    ensures var s, step := Serve(t, op, clock, d), Apply(Abstract(t), op, clock);
            && TableOk(s.table)
            && (if d.NotRun? then s.table == t else Abstract(s.table) == step.store)
            && Reported(op, d, Success(step.reply), s.result)
  {
    hide DecodeDoc, TableOk, Abstract, Coherent, ClassifyRequest, ClassifyRead, SelectByKeys, Apply, Rejected;
    match op
    case Request(i) =>
      InsertCoherent(t, i, clock);
      RequestClassified(t, i, clock);
      RequestDelivery(t, i, clock, d);
    case Read(id, requester) =>
      ReadClassified(t, id, requester, clock);
      ReadLeavesStore(t, id, requester, clock);
      ReadDelivery(t, id, requester, clock, d);
    case _ =>
      UpdateCoherent(t, op, clock);
      TransitionClassified(t, op, clock);
      TransitionDelivery(t, op, clock, d);
  }

  lemma ReadLeavesStore(t: Table, id: string, requester: Option<string>, clock: Clock)
    requires TableOk(t)
    ensures Apply(Abstract(t), Read(id, requester), clock).store == Abstract(t)
  {
  }

  lemma ReadDelivery(t: Table, id: string, requester: Option<string>, clock: Clock, d: Delivery)
    requires TableOk(t)
    ensures var s := Serve(t, Read(id, requester), clock, d);
            s.table == t && Reported(Read(id, requester), d, ClassifyRead(SelectOne(t, id, requester)), s.result)
  {
    hide DecodeDoc, EvidenceValid, Rejected;
    if d.Garbled? {
      RejectionIsExact(t, Read(id, requester), clock, d.receipt);
    }
  }

  lemma RequestDelivery(t: Table, i: RequestIntent, clock: Clock, d: Delivery)
    requires TableOk(t) && TableOk(Insert(t, i)) && Ready(Request(i))
    ensures var s := Serve(t, Request(i), clock, d);
            && s.table == (if d.NotRun? then t else Insert(t, i))
            && Reported(Request(i), d,
                        ClassifyRequest(i, Some(RequestRows(Inserts(t, i), SelectByKeys(Insert(t, i), i)))), s.result)
  {
    hide DecodeDoc, EvidenceValid, Rejected, SelectByKeys;
    if d.Garbled? {
      RejectionIsExact(t, Request(i), clock, d.receipt);
    }
  }

  lemma TransitionDelivery(t: Table, op: Op, clock: Clock, d: Delivery)
    requires TableOk(t) && op.Transition() && Ready(op)
    ensures var s, t' := Serve(t, op, clock, d), Update(t, op, clock);
            && s.table == (if d.NotRun? then t else t')
            && Reported(op, d,
                        ClassifyTransition(op, Some(TransitionResult(Updates(t, op, clock.due),
                                                      if op.id in t' then Some(t'[op.id].record) else None))),
                        s.result)
  {
    hide DecodeDoc, EvidenceValid, Rejected, UpdatedRow, TableOk, NewStatus, Updates;
    TableKeys(t);
    if d.Garbled? {
      RejectionIsExact(t, op, clock, d.receipt);
    }
  }

  /** Whatever a caller is told is a reply its operation can have. */
  lemma ServeFits(t: Table, op: Op, clock: Clock, d: Delivery)
    requires UniqueKeys(t) && Serve(t, op, clock, d).result.Success?
    ensures Fits(op, Serve(t, op, clock, d).result.value)
  {
    hide DecodeDoc, EvidenceValid, SelectByKeys, UpdatedRow, AssertBatch;
  }
}
