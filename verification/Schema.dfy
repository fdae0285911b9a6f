/** The PostgreSQL table: rows, CHECK constraints under SQL's three-valued logic, and decoding. */
module Schema {
  import opened Wrappers
  import opened Instants
  import opened Model

  // Nullable columns are options; TIMESTAMPTZ columns count microseconds.
  datatype PgRow = PgRow(
    requestId: string,
    requesterInstance: string,
    idempotencyKey: string,
    requestedBy: string,
    approvalKind: string,
    subjectKind: string,
    subjectId: string,
    status: string,
    revision: int,
    requestedAt: int,
    expiresAt: int,
    terminalCaller: Option<string>,
    terminalActor: Option<string>,
    evidenceRef: Option<string>,
    reason: Option<string>,
    terminalAt: Option<int>,
    intentDigest: Option<string>)

  datatype Truth = True | False | Null {
    function And(that: Truth): Truth {
      if this.False? || that.False? then False
      else if this.Null? || that.Null? then Null
      else True
    }

    function Or(that: Truth): Truth {
      if this.True? || that.True? then True
      else if this.Null? || that.Null? then Null
      else False
    }
  }

  function Lift(b: bool): Truth {
    if b then True else False
  }

  function IsNull<T>(column: Option<T>): Truth {
    Lift(column.None?)
  }

  function IsNotNull<T>(column: Option<T>): Truth {
    Lift(column.Some?)
  }

  /** The per-status CHECK of migration 1. */
  function EvidenceCheck(row: PgRow): Truth {
    Lift(row.status == "pending").And(Lift(row.revision == 1))
      .And(IsNull(row.terminalCaller)).And(IsNull(row.terminalActor))
      .And(IsNull(row.evidenceRef)).And(IsNull(row.reason)).And(IsNull(row.terminalAt))
    .Or(
      Lift(row.status == "approved").Or(Lift(row.status == "rejected")).And(Lift(row.revision == 2))
        .And(IsNotNull(row.terminalCaller)).And(IsNotNull(row.terminalActor))
        .And(IsNotNull(row.evidenceRef)).And(IsNotNull(row.terminalAt)))
    .Or(
      Lift(row.status == "cancelled").And(Lift(row.revision == 2))
        .And(IsNotNull(row.terminalCaller)).And(IsNotNull(row.terminalActor))
        .And(IsNull(row.evidenceRef)).And(IsNotNull(row.terminalAt)))
    .Or(
      Lift(row.status == "expired").And(Lift(row.revision == 2))
        .And(IsNotNull(row.terminalCaller)).And(IsNull(row.terminalActor))
        .And(IsNull(row.evidenceRef)).And(IsNull(row.reason)).And(IsNotNull(row.terminalAt)))
  }

  function StatusCheck(row: PgRow): Truth {
    Lift(row.status in ["pending", "approved", "rejected", "cancelled", "expired"])
  }

  /** Migration 2's format constraint: a NULL digest makes the comparison NULL. */
  function DigestCheck(row: PgRow): Truth {
    match row.intentDigest
    case None => Null
    case Some(digest) => Lift(ValidDigest(digest))
  }

  /** PostgreSQL accepts a row unless some CHECK is false; NULL passes. */
  predicate Accepted(row: PgRow) {
    && !StatusCheck(row).False?
    && !Lift(row.revision >= 1).False?
    && !Lift(row.expiresAt > row.requestedAt).False?
    && !EvidenceCheck(row).False?
    && !DigestCheck(row).False?
  }

  /** The approval a row holds, before its evidence is validated. */
  function Read(row: PgRow, status: ApprovalStatus): StoredApproval {
    StoredApproval(
      RequestIntent(row.requestId, row.requesterInstance, row.idempotencyKey, row.requestedBy,
                    row.approvalKind, row.subjectKind, row.subjectId, row.intentDigest,
                    row.requestedAt * MICRO, row.expiresAt * MICRO),
      status, row.revision, row.terminalCaller, row.terminalActor, row.evidenceRef, row.reason,
      match row.terminalAt case None => None case Some(t) => Some(t * MICRO))
  }

  function Decode(row: PgRow): Result<StoredApproval, StorageError> {
    var parsed := ParseStatus(row.status);
    if parsed.Failure? then Failure(parsed.error)
    else if row.revision < 1 then Failure(InvalidRevision)
    else if !EvidenceValid(Read(row, parsed.value)) then Failure(InvalidEvidence)
    else Success(Read(row, parsed.value))
  }

  /** The row INSERT builds; timestamps keep their microseconds only. */
  function NewRow(i: RequestIntent): PgRow {
    PgRow(i.requestId, i.requesterInstance, i.idempotencyKey, i.requestedBy, i.approvalKind,
          i.subjectKind, i.subjectId, "pending", 1, Micros(i.requestedAt), Micros(i.expiresAt),
          None, None, None, None, None, i.intentDigest)
  }

  /** The SQL CHECK and the Rust evidence validation accept the same rows. */
  lemma EvidenceCheckMatchesValidation(row: PgRow)
    ensures EvidenceCheck(row) == Lift(ParseStatus(row.status).Success?
                                       && EvidenceValid(Read(row, ParseStatus(row.status).value)))
  {
    if ParseStatus(row.status).Success? {
      var status := ParseStatus(row.status).value;
      StatusTextRoundTrip(status, row.status);
    }
    StatusTexts();
  }

  lemma StatusTexts()
    ensures forall s: ApprovalStatus, t: ApprovalStatus :: s.Text() == t.Text() ==> s == t
  {
    forall s: ApprovalStatus, t: ApprovalStatus | s.Text() == t.Text()
      ensures s == t
    {
      StatusTextRoundTrip(s, "");
      StatusTextRoundTrip(t, "");
    }
  }

  /** Accepted rows are exactly the decodable rows with a later deadline and a well-formed digest. */
  lemma AcceptedIffDecodable(row: PgRow)
    ensures Accepted(row) <==>
              && Decode(row).Success?
              && row.expiresAt > row.requestedAt
              && (row.intentDigest.Some? ==> ValidDigest(row.intentDigest.value))
    ensures Accepted(row) ==> EvidenceValid(Decode(row).value)
  {
    EvidenceCheckMatchesValidation(row);
    if ParseStatus(row.status).Success? {
      StatusTextRoundTrip(ParseStatus(row.status).value, row.status);
    }
  }

  /** Which error a row is given up with: its status first, then its revision, then its evidence. */
  lemma FailureIsExact(row: PgRow)
    ensures Decode(row) ==
            if !StatusCheck(row).True? then Failure(InvalidStatus(row.status))
            else if row.revision <= 0 then Failure(InvalidRevision)
            else if !EvidenceCheck(row).True? then Failure(InvalidEvidence)
            else Success(Read(row, ParseStatus(row.status).value))
  {
    EvidenceCheckMatchesValidation(row);
    if ParseStatus(row.status).Success? {
      StatusTextRoundTrip(ParseStatus(row.status).value, row.status);
    }
  }

  /** The row PostgreSQL would hold for an approval. */
  function Encode(a: StoredApproval): PgRow {
    NewRow(a.intent).(
      status := a.status.Text(), revision := a.revision, terminalCaller := a.terminalCaller,
      terminalActor := a.terminalActor, evidenceRef := a.evidenceRef, reason := a.reason,
      terminalAt := match a.terminalAt case None => None case Some(t) => Some(Micros(t)))
  }

  /** Nothing is lost between a stored approval and its row exactly when its evidence is valid
      and its instants are whole microseconds. */
  lemma DecodeEncode(a: StoredApproval)
    ensures Decode(Encode(a)) == Success(a) <==>
              && EvidenceValid(a)
              && WholeMicros(a.intent.requestedAt) && WholeMicros(a.intent.expiresAt)
              && (a.terminalAt.Some? ==> WholeMicros(a.terminalAt.value))
  {
    StatusTextRoundTrip(a.status, "");
    MicrosExact(a.intent.requestedAt);
    MicrosExact(a.intent.expiresAt);
    if a.terminalAt.Some? {
      MicrosExact(a.terminalAt.value);
    }
    if EvidenceValid(a) {
      assert EvidenceValid(Read(Encode(a), a.status));
    }
  }

  /** A row just created passes the same-intent comparison exactly when the deadline was normalised:
      one with nanoseconds left would come back different and be taken for a conflict. */
  lemma CreatedRowMatchesIntent(i: RequestIntent)
    ensures SameIntent(Read(NewRow(i), Pending), i) <==> WholeMicros(i.expiresAt)
  {
    MicrosExact(i.expiresAt);
  }
}
