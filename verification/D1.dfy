/** The D1 backend: a table whose rows are stored twice, as columns and as a JSON document, and
    calls that run one atomic batch each and may lose their reply. */
module D1 {
  import opened Wrappers
  import opened Instants
  import opened Model
  import opened Spec

  // A member of record_json. An instant stands for its RFC 3339 text, which determines it.
  datatype Json = JAbsent | JNull | JText(text: string) | JInteger(n: int) | JInstant(at: Instant)

  // record_json, member by member; members the code never names are left out.
  datatype Doc = Doc(
    requestId: Json, requesterInstance: Json, idempotencyKey: Json, requestedBy: Json, approvalKind: Json,
    subjectKind: Json, subjectId: Json, intentDigest: Json, requestedAt: Json, expiresAt: Json,
    status: Json, revision: Json, terminalCaller: Json, terminalActor: Json, evidenceRef: Json,
    reason: Json, terminalAt: Json)

  // The primary key request_id is the table's key.
  datatype D1Row = D1Row(
    requesterInstance: string,
    idempotencyKey: string,
    status: string,
    revision: int,
    expiresUs: int,
    record: Doc)

  type Table = map<string, D1Row>

  /** The CHECKs of the table's definition. */
  predicate ChecksPass(row: D1Row) {
    && row.status in ["pending", "approved", "rejected", "cancelled", "expired"]
    && (row.revision == 1 || row.revision == 2)
  }

  datatype StatementResult = StatementResult(success: bool, results: Option<seq<Doc>>, changes: Option<int>)

  // None is anything that is not an array.
  type Receipt = Option<seq<StatementResult>>

  // What the caller of a batch experiences.
  datatype Delivery = Delivered | NotRun | ReplyLost | Garbled(receipt: Receipt)

  const MAX_SAFE_INTEGER: int := 9_007_199_254_740_991

  predicate AssertBatch(receipt: Receipt) {
    && receipt.Some? && |receipt.value| == 2
    && receipt.value[0].success && receipt.value[0].results.Some?
    && receipt.value[1].success && receipt.value[1].results.Some?
    && receipt.value[0].changes.Some?
    && -MAX_SAFE_INTEGER <= receipt.value[0].changes.value <= MAX_SAFE_INTEGER
    && 0 <= receipt.value[0].changes.value <= 1
  }

  /** What passes the receipt check: two successful statements with rows, the first of which changed
      one row or none. */
  lemma CheckedReceipts(receipt: Receipt)
    ensures AssertBatch(receipt) <==>
            exists rows: seq<Doc>, docs: seq<Doc>, count: int, other: Option<int> ::
              && (count == 0 || count == 1)
              && receipt == Some([StatementResult(true, Some(rows), Some(count)),
                                  StatementResult(true, Some(docs), other)])
  {
    if AssertBatch(receipt) {
      var first, second := receipt.value[0], receipt.value[1];
      assert receipt.value == [first, second];
      assert receipt == Some([StatementResult(true, Some(first.results.value), Some(first.changes.value)),
                              StatementResult(true, Some(second.results.value), second.changes)]);
    }
  }

  /** SQLite's CAST of a decimal text to INTEGER. */
  function CastInteger(n: int): int {
    if n < -0x8000_0000_0000_0000 then -0x8000_0000_0000_0000
    else if n > 0x7fff_ffff_ffff_ffff then 0x7fff_ffff_ffff_ffff
    else n
  }

  function OptionalText(text: Option<string>): Json {
    match text case None => JNull case Some(t) => JText(t)
  }

  function NewDoc(i: RequestIntent): Doc {
    Doc(JText(i.requestId), JText(i.requesterInstance), JText(i.idempotencyKey), JText(i.requestedBy),
        JText(i.approvalKind), JText(i.subjectKind), JText(i.subjectId), OptionalText(i.intentDigest),
        JInstant(i.requestedAt), JInstant(i.expiresAt),
        JText("pending"), JInteger(1), JNull, JNull, JNull, JNull, JNull)
  }

  function JsonSet(doc: Doc, status: string, caller: string, actor: Option<string>, evidence: Option<string>,
                   reason: Option<string>, at: Instant): Doc
  {
    doc.(status := JText(status), revision := JInteger(2), terminalCaller := JText(caller),
         terminalActor := OptionalText(actor), evidenceRef := OptionalText(evidence),
         reason := OptionalText(reason), terminalAt := JInstant(at))
  }

  // Deserializing a document in Rust.

  /** An absent optional member reads as none. */
  predicate OptionalTextual(j: Json) {
    j.JAbsent? || j.JNull? || j.JText?
  }

  function TextOption(j: Json): Option<string> {
    if j.JText? then Some(j.text) else None
  }

  predicate WellTyped(doc: Doc) {
    && doc.requestId.JText? && doc.requesterInstance.JText? && doc.idempotencyKey.JText?
    && doc.requestedBy.JText? && doc.approvalKind.JText? && doc.subjectKind.JText?
    && doc.subjectId.JText? && OptionalTextual(doc.intentDigest)
    && doc.requestedAt.JInstant? && doc.expiresAt.JInstant?
    && doc.status.JText? && ParseStatus(doc.status.text).Success?
    && doc.revision.JInteger?
    && OptionalTextual(doc.terminalCaller) && OptionalTextual(doc.terminalActor)
    && OptionalTextual(doc.evidenceRef) && OptionalTextual(doc.reason)
    && (doc.terminalAt.JNull? || doc.terminalAt.JInstant?)
  }

  function DecodeDoc(doc: Doc): Option<StoredApproval> {
    if !WellTyped(doc) then None
    else Some(StoredApproval(
      RequestIntent(doc.requestId.text, doc.requesterInstance.text, doc.idempotencyKey.text,
                    doc.requestedBy.text, doc.approvalKind.text, doc.subjectKind.text,
                    doc.subjectId.text, TextOption(doc.intentDigest),
                    doc.requestedAt.at, doc.expiresAt.at),
      ParseStatus(doc.status.text).value, doc.revision.n,
      TextOption(doc.terminalCaller), TextOption(doc.terminalActor), TextOption(doc.evidenceRef),
      TextOption(doc.reason),
      if doc.terminalAt.JInstant? then Some(doc.terminalAt.at) else None))
  }

  /** A member that holds an optional text. */
  predicate Shows(j: Json, text: Option<string>) {
    match text
    case None => j == JNull || j == JAbsent
    case Some(t) => j == JText(t)
  }

  /** A document decodes to an approval exactly when its members hold the approval's fields; optional
      texts may be null or absent, the terminal time only null. */
  lemma DecodingIsExact(doc: Doc, a: StoredApproval)
    ensures DecodeDoc(doc) == Some(a) <==>
            && doc.requestId == JText(a.intent.requestId) && doc.requesterInstance == JText(a.intent.requesterInstance)
            && doc.idempotencyKey == JText(a.intent.idempotencyKey) && doc.requestedBy == JText(a.intent.requestedBy)
            && doc.approvalKind == JText(a.intent.approvalKind) && doc.subjectKind == JText(a.intent.subjectKind)
            && doc.subjectId == JText(a.intent.subjectId) && Shows(doc.intentDigest, a.intent.intentDigest)
            && doc.requestedAt == JInstant(a.intent.requestedAt) && doc.expiresAt == JInstant(a.intent.expiresAt)
            && doc.status == JText(a.status.Text()) && doc.revision == JInteger(a.revision)
            && Shows(doc.terminalCaller, a.terminalCaller) && Shows(doc.terminalActor, a.terminalActor)
            && Shows(doc.evidenceRef, a.evidenceRef) && Shows(doc.reason, a.reason)
            && doc.terminalAt == (if a.terminalAt.Some? then JInstant(a.terminalAt.value) else JNull)
  {
    StatusTextRoundTrip(a.status, if doc.status.JText? then doc.status.text else "");
  }

  // The batches.

  ghost predicate UniqueKeys(t: Table) {
    forall id, id' :: id in t && id' in t && id != id' ==>
      t[id].requesterInstance != t[id'].requesterInstance || t[id].idempotencyKey != t[id'].idempotencyKey
  }

  predicate KeyTaken(t: Table, i: RequestIntent) {
    exists id :: id in t && t[id].requesterInstance == i.requesterInstance && t[id].idempotencyKey == i.idempotencyKey
  }

  function KeyHolder(t: Table, i: RequestIntent): string
    requires UniqueKeys(t) && KeyTaken(t, i)
  {
    var id :| id in t && t[id].requesterInstance == i.requesterInstance && t[id].idempotencyKey == i.idempotencyKey;
    id
  }

  predicate Inserts(t: Table, i: RequestIntent) {
    i.requestId !in t && !KeyTaken(t, i)
  }

  /** INSERT .. ON CONFLICT DO NOTHING. */
  function Insert(t: Table, i: RequestIntent): Table {
    if !Inserts(t, i) then t
    else t[i.requestId := D1Row(i.requesterInstance, i.idempotencyKey, "pending", 1, CastInteger(Micros(i.expiresAt)),
                                NewDoc(i))]
  }

  /** The rows with the request id or the delivery key; only their number and a single row matter. */
  function SelectByKeys(t: Table, i: RequestIntent): seq<Doc>
    requires UniqueKeys(t)
  {
    var byId := if i.requestId in t then [t[i.requestId].record] else [];
    var byKey := if KeyTaken(t, i) && KeyHolder(t, i) != i.requestId then [t[KeyHolder(t, i)].record] else [];
    byId + byKey
  }

  /** The WHERE clause of the conditional update, on columns only. */
  predicate Updates(t: Table, op: Op, due: Instant)
    requires op.Transition()
  {
    && op.id in t && t[op.id].status == "pending" && t[op.id].revision == 1
    && (op.Cancel? ==> t[op.id].requesterInstance == op.caller)
    && (op.Expire? ==> t[op.id].expiresUs <= CastInteger(Micros(due)))
  }

  function NewStatus(op: Op): string
    requires op.Transition()
  {
    match op
    case Decide(_, decision, _, _, _, _) => decision.Text()
    case Cancel(_, _, _, _) => "cancelled"
    case _ => "expired"
  }

  function UpdatedRow(row: D1Row, op: Op, stamp: Instant): D1Row
    requires op.Transition()
  {
    row.(status := NewStatus(op), revision := 2,
         record := JsonSet(row.record, NewStatus(op), op.caller,
                           if op.Expire? then None else Some(op.actor),
                           if op.Decide? then Some(op.evidence) else None,
                           if op.Expire? then None else op.note, stamp))
  }

  function Update(t: Table, op: Op, clock: Clock): Table
    requires op.Transition()
  {
    if Updates(t, op, clock.due) then t[op.id := UpdatedRow(t[op.id], op, clock.stamp)] else t
  }

  function HonestReceipt(changed: bool, docs: seq<Doc>): Receipt {
    Some([StatementResult(true, Some([]), Some(if changed then 1 else 0)), StatementResult(true, Some(docs), Some(0))])
  }

  /** The receipt that reaches the JavaScript caller, unless the call throws. */
  function Received(d: Delivery, honest: Receipt): Option<Receipt> {
    match d
    case Delivered => Some(honest)
    case Garbled(receipt) => Some(receipt)
    case _ => None
  }

  // What JavaScript hands to Rust.
  datatype TransitionResult = TransitionResult(changed: bool, approval: Option<Doc>)
  datatype RequestRows = RequestRows(created: bool, rows: seq<Doc>)

  function ReadReceipt(receipt: Receipt): Option<TransitionResult> {
    if !AssertBatch(receipt) then None
    else
      var docs := receipt.value[1].results.value;
      Some(TransitionResult(receipt.value[0].changes.value == 1, if |docs| > 0 then Some(docs[0]) else None))
  }

  function ReadRows(receipt: Receipt): Option<RequestRows> {
    if !AssertBatch(receipt) then None
    else Some(RequestRows(receipt.value[0].changes.value == 1, receipt.value[1].results.value))
  }

  // The Rust handle: the reason for a refusal is reconstructed from the row read back.

  function ClassifyTransition(op: Op, result: Option<TransitionResult>): Result<Reply, StorageError>
    requires op.Transition()
  {
    if result.None? then Failure(Unavailable)
    else if result.value.approval.None? then
      if result.value.changed then Failure(Unavailable) else Success(Refused(RequestNotFound))
    else
      var decoded := DecodeDoc(result.value.approval.value);
      if decoded.None? then Failure(Unavailable)
      else if !EvidenceValid(decoded.value) then Failure(InvalidEvidence)
      else if result.value.changed then Success(Changed(decoded.value))
      else if op.Cancel? && decoded.value.intent.requesterInstance != op.caller then Success(Refused(NotRequester))
      else if decoded.value.status != Pending then Success(Refused(AlreadyTerminal))
      else if op.Expire? then Success(Refused(NotDue))
      else Failure(Unavailable)
  }

  function ClassifyRequest(intent: RequestIntent, result: Option<RequestRows>): Result<Reply, StorageError> {
    if result.None? then Failure(Unavailable)
    else if exists k :: 0 <= k < |result.value.rows| && DecodeDoc(result.value.rows[k]).None? then Failure(Unavailable)
    else if |result.value.rows| != 1 then Success(Refused(IdempotencyConflict))
    else
      var approval := DecodeDoc(result.value.rows[0]).value;
      if !EvidenceValid(approval) then Failure(InvalidEvidence)
      else if !SameIntent(approval, intent) then Success(Refused(IdempotencyConflict))
      else Success(Resolved(result.value.created, approval))
  }

  function ClassifyRead(doc: Option<Doc>): Result<Reply, StorageError> {
    match doc
    case None => Success(Found(None))
    case Some(d) =>
      var decoded := DecodeDoc(d);
      if decoded.None? then Failure(Unavailable)
      else if !EvidenceValid(decoded.value) then Failure(InvalidEvidence)
      else Success(Found(decoded))
  }

  /** first(): the first row of a single statement, if there is one. None is an exception. */
  function FirstRow(receipt: Receipt): Option<Option<Doc>> {
    if receipt.None? || |receipt.value| == 0 || !receipt.value[0].success || receipt.value[0].results.None? then None
    else
      var docs := receipt.value[0].results.value;
      Some(if |docs| > 0 then Some(docs[0]) else None)
  }

  function HonestRow(doc: Option<Doc>): Receipt {
    Some([StatementResult(true, Some(if doc.Some? then [doc.value] else []), Some(0))])
  }

  function ClassifyFirst(row: Option<Option<Doc>>): Result<Reply, StorageError> {
    if row.None? then Failure(Unavailable) else ClassifyRead(row.value)
  }

  function SelectOne(t: Table, id: string, requester: Option<string>): Option<Doc> {
    if id in t && (requester.None? || t[id].requesterInstance == requester.value) then Some(t[id].record) else None
  }

  /** One call from the Rust handle through the batch and back. */
  datatype Served = Served(table: Table, result: Result<Reply, StorageError>)

  function Serve(t: Table, op: Op, clock: Clock, d: Delivery): Served
    requires UniqueKeys(t)
  {
    match op
    case Request(intent) =>
      if d.NotRun? then Served(t, Failure(Unavailable))
      else
        var t' := Insert(t, intent);
        assert UniqueKeys(t');
        var received := Received(d, HonestReceipt(Inserts(t, intent), SelectByKeys(t', intent)));
        Served(t', ClassifyRequest(intent, if received.Some? then ReadRows(received.value) else None))
    case Read(id, requester) =>
      var received := Received(d, HonestRow(SelectOne(t, id, requester)));
      Served(t, ClassifyFirst(if received.Some? then FirstRow(received.value) else None))
    case _ =>
      if d.NotRun? || (op.Decide? && op.decision.Text() !in ["approved", "rejected"])
      then Served(t, Failure(Unavailable))
      else
        var t' := Update(t, op, clock);
        var honest := HonestReceipt(Updates(t, op, clock.due), if op.id in t' then [t'[op.id].record] else []);
        var received := Received(d, honest);
        Served(t', ClassifyTransition(op, if received.Some? then ReadReceipt(received.value) else None))
  }
}
