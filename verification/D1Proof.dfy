/** Coherence of the D1 table: its columns and its documents tell the same story. */
module D1Proof {
  import opened Wrappers
  import opened Instants
  import opened Model
  import opened Spec
  import opened D1

  function Stored(row: D1Row): StoredApproval
    requires DecodeDoc(row.record).Some?
  {
    DecodeDoc(row.record).value
  }

  /** The columns of a row agree with its document. */
  ghost predicate Coherent(id: string, row: D1Row) {
    && DecodeDoc(row.record).Some?
    && var a := Stored(row);
       && EvidenceValid(a) && Sane(a.intent.expiresAt)
       && a.intent.requestId == id
       && a.intent.requesterInstance == row.requesterInstance && a.intent.idempotencyKey == row.idempotencyKey
       && a.status.Text() == row.status && a.revision == row.revision
       && CastInteger(Micros(a.intent.expiresAt)) == row.expiresUs
  }

  /** The table's CHECKs turn down just an unknown status or a revision other than 1 and 2. A coherent
      row passes them, so no insert or update of the code is turned down. */
  lemma CoherentPassesChecks(id: string, row: D1Row)
    ensures Coherent(id, row) ==> ChecksPass(row)
    ensures ChecksPass(row) <==> ParseStatus(row.status).Success? && 0 < row.revision < 3
  {
    if Coherent(id, row) {
      StatusTextRoundTrip(Stored(row).status, "");
    }
  }

  ghost predicate TableOk(t: Table) {
    UniqueKeys(t) && forall id :: id in t ==> Coherent(id, t[id])
  }

  /** The abstract store the documents stand for. */
  ghost function Abstract(t: Table): Store
    requires TableOk(t)
  {
    map id | id in t :: Stored(t[id])
  }

  lemma NewDocDecodes(i: RequestIntent)
    ensures DecodeDoc(NewDoc(i)) == Some(Fresh(i))
  {
    StatusTextRoundTrip(Pending, "");
  }

  /** json_set edits exactly the members a transition writes. */
  lemma JsonSetDecodes(doc: Doc, status: ApprovalStatus, caller: string, actor: Option<string>,
                       evidence: Option<string>, reason: Option<string>, at: Instant)
    requires DecodeDoc(doc).Some?
    ensures DecodeDoc(JsonSet(doc, status.Text(), caller, actor, evidence, reason, at)) ==
            Some(StoredApproval(DecodeDoc(doc).value.intent, status, 2,
                                Some(caller), actor, evidence, reason, Some(at)))
  {
    StatusTextRoundTrip(status, "");
  }

  lemma CastExact(t: Instant)
    requires Sane(t)
    ensures CastInteger(Micros(t)) == Micros(t)
  {
    MicrosFitAndOrder(t, t);
  }

  /** The document and the columns after a transition agree again, and hold the specified approval. */
  lemma UpdatedRowCoherent(id: string, row: D1Row, op: Op, stamp: Instant)
    requires Coherent(id, row) && row.revision == 1 && op.Transition() && Ready(op)
    ensures Coherent(id, UpdatedRow(row, op, stamp))
    ensures Stored(UpdatedRow(row, op, stamp)) == Terminated(Stored(row), op, stamp)
  {
    var status := match op case Decide(_, d, _, _, _, _) => d case Cancel(_, _, _, _) => Cancelled case _ => Expired;
    assert NewStatus(op) == status.Text();
    JsonSetDecodes(row.record, status, op.caller, if op.Expire? then None else Some(op.actor),
                   if op.Decide? then Some(op.evidence) else None, if op.Expire? then None else op.note, stamp);
  }

  /** Filtering on columns decides exactly what filtering on the document would. */
  lemma ColumnsDecideAsDocument(t: Table, op: Op, due: Instant)
    requires TableOk(t) && op.Transition() && Sane(due)
    ensures Updates(t, op, due) <==> op.id in t && Objection(Abstract(t)[op.id], op, due).None?
  {
    if op.id in t {
      var a := Stored(t[op.id]);
      assert Coherent(op.id, t[op.id]);
      StatusTextRoundTrip(a.status, "");
      StatusTextRoundTrip(Pending, "");
      CastExact(due);
      CastExact(a.intent.expiresAt);
      MicrosFitAndOrder(a.intent.expiresAt, due);
    }
  }

  lemma CollisionsOnColumns(t: Table, i: RequestIntent)
    requires TableOk(t)
    ensures Inserts(t, i) <==> !Taken(Abstract(t), i)
  {
    if !Inserts(t, i) {
      var id := if i.requestId in t then i.requestId else KeyHolder(t, i);
      assert Coherent(id, t[id]);
      assert id in Abstract(t) && Collide(Abstract(t)[id].intent, i);
    }
    if Taken(Abstract(t), i) {
      var id :| id in Abstract(t) && Collide(Abstract(t)[id].intent, i);
      assert Coherent(id, t[id]);
    }
  }

  lemma AbstractIsValid(t: Table)
    requires TableOk(t)
    ensures Valid(Abstract(t))
  {
    var s := Abstract(t);
    forall id, id' | id in s && id' in s && id != id'
      ensures !Collide(s[id].intent, s[id'].intent)
    {
      assert Coherent(id, t[id]) && Coherent(id', t[id']);
    }
  }

  lemma InsertCoherent(t: Table, i: RequestIntent, clock: Clock)
    requires TableOk(t) && Ready(Request(i))
    ensures TableOk(Insert(t, i))
    ensures Abstract(Insert(t, i)) == Apply(Abstract(t), Request(i), clock).store
  {
    hide Coherent, DecodeDoc, NewDoc, Abstract;
    CollisionsOnColumns(t, i);
    if Inserts(t, i) {
      NewRowCoherent(i);
      AddedRowOk(t, i.requestId,
                 D1Row(i.requesterInstance, i.idempotencyKey, "pending", 1,
                       CastInteger(Micros(i.expiresAt)), NewDoc(i)));
    }
  }

  lemma AddedRowOk(t: Table, id: string, row: D1Row)
    requires TableOk(t) && id !in t && Coherent(id, row)
    requires forall k :: k in t ==>
                           t[k].requesterInstance != row.requesterInstance || t[k].idempotencyKey != row.idempotencyKey
    ensures TableOk(t[id := row]) && Abstract(t[id := row]) == Abstract(t)[id := Stored(row)]
  {
  }

  lemma NewRowCoherent(i: RequestIntent)
    ensures var row := D1Row(i.requesterInstance, i.idempotencyKey, "pending", 1, CastInteger(Micros(i.expiresAt)),
                             NewDoc(i));
            (Ready(Request(i)) ==> Coherent(i.requestId, row)) && DecodeDoc(row.record) == Some(Fresh(i))
  {
    NewDocDecodes(i);
  }

  lemma UpdateCoherent(t: Table, op: Op, clock: Clock)
    requires TableOk(t) && op.Transition() && Ready(op) && Sane(clock.due)
    ensures TableOk(Update(t, op, clock))
    ensures Abstract(Update(t, op, clock)) == Apply(Abstract(t), op, clock).store
  {
    hide Coherent, DecodeDoc, JsonSet, Objection, Terminated;
    ColumnsDecideAsDocument(t, op, clock.due);
    if Updates(t, op, clock.due) {
      UpdatedRowCoherent(op.id, t[op.id], op, clock.stamp);
      ReplacedRowOk(t, op.id, UpdatedRow(t[op.id], op, clock.stamp));
    }
  }

  lemma ReplacedRowOk(t: Table, id: string, row: D1Row)
    requires TableOk(t) && id in t && Coherent(id, row)
    requires row.requesterInstance == t[id].requesterInstance && row.idempotencyKey == t[id].idempotencyKey
    ensures TableOk(t[id := row]) && Abstract(t[id := row]) == Abstract(t)[id := Stored(row)]
  {
  }
}
