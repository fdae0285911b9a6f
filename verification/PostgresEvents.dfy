/** Each event of the PostgreSQL backend keeps the invariant; hence so does every run. */
module PostgresEvents {
  import opened Wrappers
  import opened Instants
  import opened Model
  import opened Schema
  import opened Spec
  import opened History
  import opened Postgres
  import opened PostgresProof

  lemma AcceptedHeld(row: PgRow)
    requires Accepted(row)
    ensures Decode(row) == Success(Held(row)) && EvidenceValid(Held(row))
  {
    AcceptedIffDecodable(row);
  }

  /** A service-admitted insert passes every CHECK, decodes, and loses nothing of the intent. */
  lemma NewRowHolds(i: RequestIntent)
    requires Ready(Request(i))
    ensures Accepted(NewRow(i)) && Decode(NewRow(i)) == Success(Fresh(i)) && Held(NewRow(i)) == Fresh(i)
  {
    MicrosExact(i.requestedAt);
    MicrosExact(i.expiresAt);
    MicrosFitAndOrder(i.expiresAt, i.requestedAt);
    DecodeEncode(Fresh(i));
    assert Encode(Fresh(i)) == NewRow(i);
    AcceptedIffDecodable(NewRow(i));
  }

  /** An unguarded UPDATE of a pending row passes every CHECK and is the specification's transition. */
  lemma UpdatedHolds(row: PgRow, op: Op, now: Instant)
    requires Accepted(row) && Held(row).status == Pending
    requires op.Transition() && Ready(op) && Sane(now)
    ensures var row' := Updated(row, op, now);
            Accepted(row') && Held(row') == Terminated(Held(row), op, now) && SameKeys(row, row')
  {
    AcceptedHeld(row);
    MicrosExact(now);
    var row' := Updated(row, op, now);
    var status := match op case Decide(_, d, _, _, _, _) => d case Cancel(_, _, _, _) => Cancelled case _ => Expired;
    assert row'.status == status.Text();
    StatusTextRoundTrip(status, row'.status);
    AcceptedIffDecodable(row);
    AcceptedIffDecodable(row');
  }

  lemma ViewUpdated(rows: map<string, PgRow>, id: string, row: PgRow)
    ensures View(rows[id := row]) == View(rows)[id := Held(row)]
  {
  }

  /** Collisions are the same whether judged on rows or on the approvals they hold. */
  lemma ConflictIsTaken(s: Cluster, i: RequestIntent)
    ensures CommittedConflict(s, i) <==> Taken(View(s.rows), i)
  {
    if CommittedConflict(s, i) {
      var id :| id in s.rows && RowCollides(s.rows[id], i);
      assert id in View(s.rows) && Collide(View(s.rows)[id].intent, i);
    }
    if Taken(View(s.rows), i) {
      var id :| id in View(s.rows) && Collide(View(s.rows)[id].intent, i);
      assert id in s.rows && RowCollides(s.rows[id], i);
    }
  }

  /** What the locked lookup is made of: no row is a fault, several are a conflict, and a single one is
      a replay if it differs from the request in nothing but requested_at. */
  lemma ResolvedByCount(rows: seq<PgRow>, intent: RequestIntent)
    ensures Resolve(rows, intent) ==
            if rows == [] then Fault(InconsistentIdempotency)
            else if |rows| >= 2 then Conflict
            else
              match Decode(rows[0])
              case Failure(error) => Fault(error)
              case Success(a) => if a.intent.(requestedAt := intent.requestedAt) == intent then Replay(a) else Conflict
  {
    if |rows| == 1 && Decode(rows[0]).Success? {
      SameIntentIsExact(Decode(rows[0]).value, intent);
    }
  }

  /** The rows gathered under lock classify the request as the specification does. */
  lemma ResolveIsApply(s: Cluster, tx: nat, i: RequestIntent, got: seq<PgRow>, clock: Clock)
    requires RowsOk(s.rows) && GatheredOk(s, tx, i, {}, got)
    ensures var r := Resolve(got, i);
            && !r.Fault?
            && Apply(View(s.rows), Request(i), clock) ==
               Spec.Step(View(s.rows), if r.Replay? then Resolved(false, r.approval) else Refused(IdempotencyConflict))
  {
    hide Decode, Accepted, LogOk;
    var v := View(s.rows);
    var id := got[0].requestId;
    AcceptedHeld(got[0]);
    assert id in v && v[id] == Held(got[0]) && Collide(v[id].intent, i);
    assert Taken(v, i);
    if |got| > 1 {
      assert got[0].requestId != got[1].requestId;
      assert Collide(v[got[1].requestId].intent, i);
    }
  }

  lemma BeginKeeps(s: Cluster, tx: nat, op: Op, now: Instant)
    requires Inv(s) && tx !in s.sessions && Ready(op) && Sane(now)
    ensures Inv(s.(sessions := s.sessions[tx := Session(op, now, Begun)]))
  {
    hide Legal, After, View, RowsOk;
    var s' := s.(sessions := s.sessions[tx := Session(op, now, Begun)]);
    assert LogOk(s);
    assert LogOk(s') && Unlogged(s.log, tx);
    InvAfter(s, s', tx);
  }

  lemma InsertKeeps(s: Cluster, tx: nat)
    requires Inv(s) && tx in s.sessions && CanInsert(s, tx)
    ensures Inv(AfterInsert(s, tx))
  {
    assert SessionOk(s, tx);
    var i := s.sessions[tx].op.intent;
    NewRowHolds(i);
    if CommittedConflict(s, i) {
      EnterKeeps(s, tx, Conflicted);
    } else {
      forall other | other in s.sessions && other != tx && s.sessions[other].phase.Inserted?
        ensures !RowCollides(s.sessions[other].phase.draft, i)
        ensures s.sessions[other].op.Request? && !RowCollides(NewRow(i), s.sessions[other].op.intent)
      {
        assert SessionOk(s, other);
      }
      assert DraftClear(s, tx, NewRow(i));
      EnterKeeps(s, tx, Inserted(NewRow(i)));
    }
  }

  lemma GatherKeeps(s: Cluster, tx: nat)
    requires Inv(s) && tx in s.sessions && s.sessions[tx].phase.Conflicted? && s.sessions[tx].op.Request?
    ensures Inv(AfterGather(s, tx))
  {
    assert SessionOk(s, tx);
    var i := s.sessions[tx].op.intent;
    var id :| id in s.rows && RowCollides(s.rows[id], i);
    var wanted := set id | id in s.rows && RowCollides(s.rows[id], i);
    assert id in wanted;
    EnterKeeps(s, tx, Gathering(wanted, []));
  }

  lemma GatheredGrows(s: Cluster, tx: nat, i: RequestIntent, wanted: set<string>, got: seq<PgRow>, id: string)
    requires GatheredOk(s, tx, i, wanted, got) && id in wanted && Owns(s, tx, id) && s.rows[id].requestId == id
    ensures GatheredOk(s, tx, i, wanted - {id}, got + [s.rows[id]])
  {
  }

  lemma LockOneKeeps(s: Cluster, tx: nat, id: string)
    requires Inv(s) && tx in s.sessions && s.sessions[tx].phase.Gathering?
    requires id in s.sessions[tx].phase.wanted && id in s.rows && !LockedByOther(s, tx, id)
    ensures Inv(AfterLockOne(s, tx, id))
  {
    var phase := s.sessions[tx].phase;
    var g := Granted(s, tx, id);
    GrantKeeps(s, tx, id);
    assert SessionOk(g, tx);
    assert s.rows[id].requestId == id;
    GatheredGrows(g, tx, g.sessions[tx].op.intent, phase.wanted, phase.got, id);
    EnterKeeps(g, tx, Gathering(phase.wanted - {id}, phase.got + [s.rows[id]]));
  }

  lemma LockKeeps(s: Cluster, tx: nat)
    requires Inv(s) && tx in s.sessions && CanLock(s, tx)
    ensures Inv(AfterLock(s, tx))
  {
    var id := s.sessions[tx].op.id;
    if id in s.rows {
      AcceptedHeld(s.rows[id]);
      GrantKeeps(s, tx, id);
      EnterKeeps(Granted(s, tx, id), tx, Locked(Held(s.rows[id])));
    } else {
      AnswerKeeps(s, tx, Refused(RequestNotFound), true);
    }
  }

  lemma CheckDueKeeps(s: Cluster, tx: nat)
    requires Inv(s) && tx in s.sessions && CanCheckDue(s, tx)
    ensures Inv(AfterCheckDue(s, tx))
  {
    assert SessionOk(s, tx);
    var ses := s.sessions[tx];
    MicrosExact(ses.began);
    EnterKeeps(s, tx, Checked(ses.phase.current, s.rows[ses.op.id].expiresAt <= Micros(ses.began)));
  }

  lemma UpdateKeeps(s: Cluster, tx: nat)
    requires Inv(s) && tx in s.sessions && CanUpdate(s, tx)
    ensures Inv(AfterUpdate(s, tx))
  {
    assert SessionOk(s, tx);
    var ses := s.sessions[tx];
    var row := Updated(s.rows[ses.op.id], ses.op, ses.began);
    UpdatedHolds(s.rows[ses.op.id], ses.op, ses.began);
    AcceptedHeld(row);
    GrantKeeps(s, tx, ses.op.id);
    EnterKeeps(Granted(s, tx, ses.op.id), tx, Written(row));
  }

  /** The checks made on a locked snapshot refuse as the specification does. */
  lemma ObjectionIsApply(s: Cluster, tx: nat, op: Op, began: Instant, a: StoredApproval, failure: DomainFailure)
    requires op.Transition() && HoldsSnapshot(s, tx, op.id, a) && Objection(a, op, began) == Some(failure)
    ensures Apply(View(s.rows), op, Clock(began, began)) == Spec.Step(View(s.rows), Refused(failure))
  {
  }

  /** Each refusal is the specification's. */
  lemma RefusalIsApply(s: Cluster, tx: nat, failure: DomainFailure)
    requires RowsOk(s.rows) && tx in s.sessions && SessionOk(s, tx) && CanRefuse(s.sessions[tx], failure)
    ensures Apply(View(s.rows), s.sessions[tx].op, s.sessions[tx].Reading())
            == Spec.Step(View(s.rows), Refused(failure))
  {
    hide Apply, View, Resolve, Accepted;
    var ses := s.sessions[tx];
    if ses.phase.Gathering? {
      ResolveIsApply(s, tx, ses.op.intent, ses.phase.got, ses.Reading());
    } else {
      ObjectionIsApply(s, tx, ses.op, ses.began, ses.phase.current, failure);
    }
  }

  lemma RefuseKeeps(s: Cluster, tx: nat, failure: DomainFailure)
    requires Inv(s) && tx in s.sessions && CanRefuse(s.sessions[tx], failure)
    ensures Inv(Conclude(s, tx, Refused(failure), true))
  {
    assert SessionOk(s, tx);
    RefusalIsApply(s, tx, failure);
    AnswerKeeps(s, tx, Refused(failure), true);
  }

  /** The branch that reports an inconsistent lookup is never taken. */
  lemma NeverGivesUp(s: Cluster, tx: nat, error: StorageError)
    requires Inv(s) && tx in s.sessions
    ensures !CanGiveUp(s.sessions[tx], error)
  {
    var ses := s.sessions[tx];
    if LookedUp(ses) {
      assert SessionOk(s, tx);
      ResolveIsApply(s, tx, ses.op.intent, ses.phase.got, ses.Reading());
    }
  }

  lemma SelectKeeps(s: Cluster, tx: nat)
    requires Inv(s) && tx in s.sessions && s.sessions[tx].phase.Begun? && s.sessions[tx].op.Read?
    ensures Inv(AfterSelect(s, tx))
  {
    hide LogOk, Accepted, Decode, LocksOk;
    var op := s.sessions[tx].op;
    if op.id in s.rows {
      AcceptedHeld(s.rows[op.id]);
    }
    AnswerKeeps(s, tx, Found(Visible(View(s.rows), op.id, op.requester)), true);
  }

  /** Committing an insert publishes a row no other transaction competes with. */
  lemma InsertedRowsEvolve(s: Cluster, tx: nat, i: RequestIntent, draft: PgRow)
    requires RowsOk(s.rows[i.requestId := draft]) && i.requestId !in s.rows && DraftClear(s, tx, draft)
    ensures RowsEvolve(s, s.rows[i.requestId := draft], tx)
  {
  }

  lemma InsertedRowsOk(rows: map<string, PgRow>, i: RequestIntent)
    requires RowsOk(rows) && Accepted(NewRow(i))
    requires forall id :: id in rows ==> !RowCollides(rows[id], i)
    ensures RowsOk(rows[i.requestId := NewRow(i)])
  {
  }

  lemma DraftIsClear(s: Cluster, tx: nat)
    requires Inv(s) && tx in s.sessions && s.sessions[tx].phase.Inserted?
    ensures DraftClear(s, tx, s.sessions[tx].phase.draft)
  {
    forall other | && other in s.sessions && other != tx
                   && s.sessions[other].phase.Inserted? && s.sessions[other].op.Request?
      ensures !RowCollides(s.sessions[tx].phase.draft, s.sessions[other].op.intent)
    {
      assert SessionOk(s, other);
    }
  }

  lemma CommitInsertKeeps(s: Cluster, tx: nat, delivered: bool)
    requires Inv(s) && tx in s.sessions && s.sessions[tx].phase.Inserted? && CanCommit(s.sessions[tx])
    ensures Inv(AfterCommit(s, tx, delivered))
  {
    assert SessionOk(s, tx);
    var i := s.sessions[tx].op.intent;
    NewRowHolds(i);
    ConflictIsTaken(s, i);
    ViewUpdated(s.rows, i.requestId, NewRow(i));
    DraftIsClear(s, tx);
    InsertedRowsOk(s.rows, i);
    InsertedRowsEvolve(s, tx, i, NewRow(i));
    ConcludeKeeps(s, tx, Resolved(true, Fresh(i)), delivered, s.rows[i.requestId := NewRow(i)]);
  }

  lemma UpdatedRowsOk(rows: map<string, PgRow>, id: string, row: PgRow)
    requires RowsOk(rows) && id in rows && SameKeys(rows[id], row) && Accepted(row)
    ensures RowsOk(rows[id := row])
  {
  }

  lemma UpdatedRowsEvolve(s: Cluster, tx: nat, id: string, row: PgRow)
    requires Owns(s, tx, id) && SameKeys(s.rows[id], row) && RowsOk(s.rows[id := row])
    ensures RowsEvolve(s, s.rows[id := row], tx)
  {
  }

  /** What a justified image commits. */
  lemma ImageIsApply(s: Cluster, tx: nat, op: Op, began: Instant, image: PgRow)
    requires RowsOk(s.rows) && op.Transition() && Ready(op) && Sane(began) && ImageOk(s, tx, op, began, image)
    ensures Accepted(image) && SameKeys(s.rows[op.id], image)
    ensures Apply(View(s.rows), op, Clock(began, began))
            == Spec.Step(View(s.rows[op.id := image]), Changed(Held(image)))
  {
    UpdatedHolds(s.rows[op.id], op, began);
    ViewUpdated(s.rows, op.id, image);
  }

  lemma CommitUpdateKeeps(s: Cluster, tx: nat, delivered: bool)
    requires Inv(s) && tx in s.sessions && s.sessions[tx].phase.Written? && CanCommit(s.sessions[tx])
    ensures Inv(AfterCommit(s, tx, delivered))
  {
    assert SessionOk(s, tx);
    var ses := s.sessions[tx];
    var image := ses.phase.image;
    ImageIsApply(s, tx, ses.op, ses.began, image);
    UpdatedRowsOk(s.rows, ses.op.id, image);
    UpdatedRowsEvolve(s, tx, ses.op.id, image);
    ConcludeKeeps(s, tx, Changed(Held(image)), delivered, s.rows[ses.op.id := image]);
  }

  lemma CommitReplayKeeps(s: Cluster, tx: nat, delivered: bool)
    requires Inv(s) && tx in s.sessions && s.sessions[tx].phase.Gathering? && CanCommit(s.sessions[tx])
    ensures Inv(AfterCommit(s, tx, delivered))
  {
    assert SessionOk(s, tx);
    var ses := s.sessions[tx];
    ResolveIsApply(s, tx, ses.op.intent, ses.phase.got, ses.Reading());
    AnswerKeeps(s, tx, Resolved(false, Resolve(ses.phase.got, ses.op.intent).approval), delivered);
  }

  lemma RequestEventKeeps(s: Cluster, e: Event)
    requires Inv(s) && Enabled(s, e)
    requires e.move.Insert? || e.move.Gather? || e.move.LockOne? || e.move.GiveUp?
    ensures Inv(Next(s, e))
  {
    match e.move
    case Insert => InsertKeeps(s, e.tx);
    case Gather => GatherKeeps(s, e.tx);
    case LockOne(id) => LockOneKeeps(s, e.tx, id);
    case GiveUp(error) => NeverGivesUp(s, e.tx, error);
  }

  lemma TransitionEventKeeps(s: Cluster, e: Event)
    requires Inv(s) && Enabled(s, e)
    requires e.move.Lock? || e.move.CheckDue? || e.move.Update? || e.move.Refuse?
    ensures Inv(Next(s, e))
  {
    match e.move
    case Lock => LockKeeps(s, e.tx);
    case CheckDue => CheckDueKeeps(s, e.tx);
    case Update => UpdateKeeps(s, e.tx);
    case Refuse(failure) => RefuseKeeps(s, e.tx, failure);
  }

  lemma CommitKeeps(s: Cluster, tx: nat, delivered: bool)
    requires Inv(s) && tx in s.sessions && CanCommit(s.sessions[tx])
    ensures Inv(AfterCommit(s, tx, delivered))
  {
    if s.sessions[tx].phase.Inserted? {
      CommitInsertKeeps(s, tx, delivered);
    } else if s.sessions[tx].phase.Written? {
      CommitUpdateKeeps(s, tx, delivered);
    } else {
      CommitReplayKeeps(s, tx, delivered);
    }
  }

  lemma NextKeepsInv(s: Cluster, e: Event)
    requires Inv(s)
    ensures Inv(Next(s, e))
  {
    if Enabled(s, e) {
      match e.move
      case Begin(op, now) => BeginKeeps(s, e.tx, op, now);
      case Commit(delivered) => CommitKeeps(s, e.tx, delivered);
      case Abort => EndKeeps(s, e.tx);
      case Select => SelectKeeps(s, e.tx);
      case Insert => RequestEventKeeps(s, e);
      case Gather => RequestEventKeeps(s, e);
      case LockOne(_) => RequestEventKeeps(s, e);
      case GiveUp(_) => RequestEventKeeps(s, e);
      case _ => TransitionEventKeeps(s, e);
    }
  }
}
