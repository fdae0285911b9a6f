/** What single statements of the PostgreSQL backend lead to, and what happens when no other
    transaction is in progress. */
module PostgresSteps {
  import opened Wrappers
  import opened Instants
  import opened Model
  import opened Schema
  import opened Spec
  import opened History
  import opened Postgres
  import opened PostgresProof
  import opened PostgresEvents

  /** No other transaction is in progress. */
  ghost predicate Alone(s: Cluster, tx: nat) {
    forall other :: other in s.sessions && other != tx ==> s.sessions[other].phase.Ended?
  }

  lemma AloneHoldsAllLocks(s: Cluster, tx: nat)
    requires Inv(s) && Alone(s, tx)
    ensures forall id :: !LockedByOther(s, tx, id)
    ensures forall i :: !InsertInFlight(s, tx, i)
  {
  }

  /** From `s` to `s'` only `tx` did anything, and the answers given are `answers`. */
  ghost predicate Still(s: Cluster, s': Cluster, tx: nat, answers: Log) {
    Alone(s', tx) && s'.log == s.log + answers
  }

  lemma StillStill(s: Cluster, s': Cluster, s'': Cluster, tx: nat, answers: Log)
    requires Still(s, s', tx, []) && Still(s', s'', tx, answers)
    ensures Still(s, s'', tx, answers)
  {
  }

  // What single statements lead to.

  lemma BeginOutcome(s: Cluster, tx: nat, op: Op, now: Instant)
    requires Inv(s) && tx !in s.sessions && Ready(op) && Sane(now)
    ensures var s' := Next(s, Event(tx, Begin(op, now)));
            && Inv(s') && tx in s'.sessions && s'.sessions[tx] == Session(op, now, Begun)
            && s'.rows == s.rows && (Alone(s, tx) ==> Still(s, s', tx, []))
  {
    hide Inv;
    BeginKeeps(s, tx, op, now);
  }

  lemma LockOutcome(s: Cluster, tx: nat)
    requires Inv(s) && tx in s.sessions && CanLock(s, tx)
    ensures var ses, s' := s.sessions[tx], Next(s, Event(tx, Lock));
            && Inv(s') && tx in s'.sessions
            && if ses.op.id in s.rows then
                 && s'.sessions[tx] == ses.(phase := Locked(Held(s.rows[ses.op.id])))
                 && (Alone(s, tx) ==> Still(s, s', tx, []))
               else
                 && s'.sessions[tx] == ses.(phase := Ended(Answered(Refused(RequestNotFound))))
                 && (Alone(s, tx) ==> Still(s, s', tx, [Entry(tx, ses.op, ses.Reading(), Refused(RequestNotFound))]))
  {
    hide Inv, Decode;
    if s.sessions[tx].op.id in s.rows {
      CommittedRowDecodes(s, s.sessions[tx].op.id);
    }
    LockKeeps(s, tx);
  }

  lemma CommittedRowDecodes(s: Cluster, id: string)
    requires Inv(s) && id in s.rows
    ensures Decode(s.rows[id]) == Success(Held(s.rows[id]))
  {
    AcceptedHeld(s.rows[id]);
  }

  /** The locked row is there and its column decides the deadline as the snapshot does. */
  lemma CheckDueReady(s: Cluster, tx: nat)
    requires Inv(s) && tx in s.sessions && s.sessions[tx].phase.Locked? && s.sessions[tx].op.Expire?
    requires Precheck(s.sessions[tx].op, s.sessions[tx].phase.current).None?
    ensures CanCheckDue(s, tx)
    ensures var ses := s.sessions[tx];
            s.rows[ses.op.id].expiresAt <= Micros(ses.began) <==> ses.phase.current.intent.expiresAt <= ses.began
  {
    assert SessionOk(s, tx);
    MicrosExact(s.sessions[tx].began);
  }

  lemma CheckDueOutcome(s: Cluster, tx: nat)
    requires Inv(s) && tx in s.sessions && s.sessions[tx].phase.Locked? && s.sessions[tx].op.Expire?
    requires Precheck(s.sessions[tx].op, s.sessions[tx].phase.current).None?
    ensures CanCheckDue(s, tx)
    ensures var ses, s' := s.sessions[tx], Next(s, Event(tx, CheckDue));
            && Inv(s') && tx in s'.sessions
            && s'.sessions[tx] == ses.(phase := Checked(ses.phase.current,
                                                        ses.phase.current.intent.expiresAt <= ses.began))
            && (Alone(s, tx) ==> Still(s, s', tx, []))
  {
    hide Inv, Precheck;
    CheckDueReady(s, tx);
    CheckDueKeeps(s, tx);
  }

  predicate MayUpdate(ses: Session) {
    || (ses.phase.Locked? && ses.op.Transition() && !ses.op.Expire? && Precheck(ses.op, ses.phase.current).None?)
    || (ses.phase.Checked? && ses.phase.due && ses.op.Expire?)
  }

  /** What the transaction's UPDATE leaves of the row it locked. */
  function Intended(ses: Session): StoredApproval
    requires MayUpdate(ses)
  {
    Terminated(ses.phase.current, ses.op, ses.began)
  }

  lemma UpdateReady(s: Cluster, tx: nat)
    requires Inv(s) && tx in s.sessions && MayUpdate(s.sessions[tx])
    ensures CanUpdate(s, tx)
    ensures var ses := s.sessions[tx];
            var row := Updated(s.rows[ses.op.id], ses.op, ses.began);
            && Accepted(row) && Decode(row) == Success(Held(row))
            && Held(row) == Intended(ses)
  {
    hide Accepted, Updated, Decode, LogOk, Terminated;
    assert SessionOk(s, tx);
    var ses := s.sessions[tx];
    UpdatedHolds(s.rows[ses.op.id], ses.op, ses.began);
    AcceptedHeld(Updated(s.rows[ses.op.id], ses.op, ses.began));
  }

  /** Holding the row lock, the UPDATE never waits, passes every CHECK and decodes. */
  lemma UpdateOutcome(s: Cluster, tx: nat)
    requires Inv(s) && tx in s.sessions && MayUpdate(s.sessions[tx])
    ensures CanUpdate(s, tx)
    ensures var ses, s' := s.sessions[tx], Next(s, Event(tx, Update));
            && Inv(s') && tx in s'.sessions && s'.sessions[tx].phase.Written?
            && s'.sessions[tx].op == ses.op && s'.sessions[tx].began == ses.began
            && Held(s'.sessions[tx].phase.image) == Intended(ses)
            && (Alone(s, tx) ==> Still(s, s', tx, []))
  {
    hide Inv, Accepted, Updated, Decode, Terminated;
    UpdateReady(s, tx);
    UpdateKeeps(s, tx);
  }

  lemma RefuseOutcome(s: Cluster, tx: nat, failure: DomainFailure)
    requires Inv(s) && tx in s.sessions && CanRefuse(s.sessions[tx], failure)
    ensures var ses, s' := s.sessions[tx], Next(s, Event(tx, Refuse(failure)));
            && Inv(s') && tx in s'.sessions && s'.sessions[tx] == ses.(phase := Ended(Answered(Refused(failure))))
            && (Alone(s, tx) ==> Still(s, s', tx, [Entry(tx, ses.op, ses.Reading(), Refused(failure))]))
  {
    hide Inv, CanRefuse;
    RefuseKeeps(s, tx, failure);
  }

  /** The reply a committing transaction gives. */
  function CommitReply(ses: Session): Reply
    requires CanCommit(ses)
  {
    if ses.phase.Inserted? then Resolved(true, Held(ses.phase.draft))
    else if ses.phase.Written? then Changed(Held(ses.phase.image))
    else Resolved(false, Resolve(ses.phase.got, ses.op.intent).approval)
  }

  lemma InsertOutcome(s: Cluster, tx: nat)
    requires Inv(s) && tx in s.sessions && CanInsert(s, tx)
    ensures var ses, s' := s.sessions[tx], Next(s, Event(tx, Insert));
            && Inv(s') && tx in s'.sessions
            && s'.sessions[tx] == ses.(phase := if CommittedConflict(s, ses.op.intent) then Conflicted
                                                else Inserted(NewRow(ses.op.intent)))
            && (Alone(s, tx) ==> Still(s, s', tx, []))
  {
    hide Inv, Decode, Accepted;
    InsertKeeps(s, tx);
    InsertIsReady(s, tx);
    NewRowHolds(s.sessions[tx].op.intent);
  }

  lemma InsertIsReady(s: Cluster, tx: nat)
    requires Inv(s) && tx in s.sessions
    ensures Ready(s.sessions[tx].op)
  {
    assert SessionOk(s, tx);
  }

  lemma GatherOutcome(s: Cluster, tx: nat)
    requires Inv(s) && tx in s.sessions && s.sessions[tx].phase.Conflicted? && s.sessions[tx].op.Request?
    ensures var ses, s' := s.sessions[tx], Next(s, Event(tx, Gather));
            && Inv(s') && tx in s'.sessions && s'.sessions[tx].phase.Gathering?
            && s'.sessions[tx] == ses.(phase := Gathering(s'.sessions[tx].phase.wanted, []))
            && (Alone(s, tx) ==> Still(s, s', tx, []))
  {
    hide Inv;
    GatherKeeps(s, tx);
  }

  lemma LockOneOutcome(s: Cluster, tx: nat, id: string)
    requires Inv(s) && tx in s.sessions && s.sessions[tx].phase.Gathering?
    requires id in s.sessions[tx].phase.wanted && id in s.rows && !LockedByOther(s, tx, id)
    ensures var ses, s' := s.sessions[tx], Next(s, Event(tx, LockOne(id)));
            && Inv(s') && tx in s'.sessions
            && s'.sessions[tx] == ses.(phase := Gathering(ses.phase.wanted - {id}, ses.phase.got + [s.rows[id]]))
            && (Alone(s, tx) ==> Still(s, s', tx, []))
  {
    hide Inv;
    LockOneKeeps(s, tx, id);
  }

  lemma WantedRowExists(s: Cluster, tx: nat, id: string)
    requires Inv(s) && tx in s.sessions && s.sessions[tx].phase.Gathering? && id in s.sessions[tx].phase.wanted
    ensures id in s.rows && s.sessions[tx].op.Request? && RowCollides(s.rows[id], s.sessions[tx].op.intent)
  {
    assert SessionOk(s, tx);
  }

  lemma GatheredIsNotEmpty(s: Cluster, tx: nat)
    requires Inv(s) && tx in s.sessions && s.sessions[tx].phase.Gathering? && s.sessions[tx].phase.wanted == {}
    ensures s.sessions[tx].phase.got != []
  {
    assert SessionOk(s, tx);
  }

  lemma GatheredRowDecodes(s: Cluster, tx: nat)
    requires Inv(s) && tx in s.sessions && s.sessions[tx].phase.Gathering? && s.sessions[tx].phase.got != []
    ensures Decode(s.sessions[tx].phase.got[0]).Success?
  {
    assert SessionOk(s, tx);
    AcceptedHeld(s.sessions[tx].phase.got[0]);
  }

  lemma SelectOutcome(s: Cluster, tx: nat)
    requires Inv(s) && tx in s.sessions && s.sessions[tx].phase.Begun? && s.sessions[tx].op.Read?
    ensures var ses, s' := s.sessions[tx], Next(s, Event(tx, Select));
            && Inv(s') && tx in s'.sessions
            && s'.sessions[tx].phase.Ended? && s'.sessions[tx].phase.outcome.Answered?
            && s'.sessions[tx] == ses.(phase := s'.sessions[tx].phase)
            && (Alone(s, tx) ==> Still(s, s', tx,
                                       [Entry(tx, ses.op, ses.Reading(), s'.sessions[tx].phase.outcome.reply)]))
  {
    hide Inv, Decode, Accepted;
    if s.sessions[tx].op.id in s.rows {
      CommittedRowDecodes(s, s.sessions[tx].op.id);
    }
    SelectKeeps(s, tx);
  }

  lemma CommitOutcome(s: Cluster, tx: nat)
    requires Inv(s) && tx in s.sessions && CanCommit(s.sessions[tx])
    ensures var ses, s' := s.sessions[tx], Next(s, Event(tx, Commit(true)));
            && Inv(s') && tx in s'.sessions && s'.sessions[tx] == ses.(phase := Ended(Answered(CommitReply(ses))))
            && (Alone(s, tx) ==> Still(s, s', tx, [Entry(tx, ses.op, ses.Reading(), CommitReply(ses))]))
  {
    hide Inv;
    CommitKeeps(s, tx, true);
  }

  // What a transaction can have to wait for.

  /** Another transaction has inserted, but not yet committed, a row with the id or delivery key. */
  ghost predicate InsertedMeanwhile(s: Cluster, tx: nat, i: RequestIntent) {
    exists other: nat :: && other in s.sessions && other != tx && s.sessions[other].phase.Inserted?
                    && var row := s.sessions[other].phase.draft;
                       || row.requestId == i.requestId
                       || (row.requesterInstance == i.requesterInstance && row.idempotencyKey == i.idempotencyKey)
  }

  /** Another transaction holds the lock on a committed row with the id or delivery key. */
  ghost predicate MatchLocked(s: Cluster, tx: nat, i: RequestIntent) {
    exists id :: && id in s.locks && s.locks[id] != tx && id in s.rows
            && var row := s.rows[id];
               || row.requestId == i.requestId
               || (row.requesterInstance == i.requesterInstance && row.idempotencyKey == i.idempotencyKey)
  }

  lemma InsertWaits(s: Cluster, tx: nat)
    requires tx in s.sessions && s.sessions[tx].phase.Begun? && s.sessions[tx].op.Request?
    ensures CanInsert(s, tx) || InsertedMeanwhile(End(s, tx, Lost), tx, s.sessions[tx].op.intent)
  {
    var i := s.sessions[tx].op.intent;
    if InsertInFlight(s, tx, i) {
      var other: nat :| && other in s.sessions && other != tx && s.sessions[other].phase.Inserted?
                        && RowCollides(s.sessions[other].phase.draft, i);
      assert End(s, tx, Lost).sessions[other] == s.sessions[other];
    }
  }

  /** What the transaction's next statement waits for, if it waits. */
  ghost predicate Waits(s: Cluster, tx: nat)
    requires tx in s.sessions
  {
    var ses := s.sessions[tx];
    || (ses.phase.Begun? && ses.op.Transition() && ses.op.id in s.locks && s.locks[ses.op.id] != tx)
    || (ses.phase.Begun? && ses.op.Request? && InsertedMeanwhile(s, tx, ses.op.intent))
    || (ses.phase.Gathering? && ses.op.Request? && MatchLocked(s, tx, ses.op.intent))
  }

  /** Some statement, or the end it decided on, is open to the transaction. */
  ghost predicate CanProceed(s: Cluster, tx: nat) {
    exists move: Move :: !move.Abort? && Enabled(s, Event(tx, move))
  }

  lemma BegunProceeds(s: Cluster, tx: nat)
    requires tx in s.sessions && s.sessions[tx].phase.Begun?
    ensures CanProceed(s, tx) || Waits(s, tx)
  {
    var op := s.sessions[tx].op;
    match op
    case Request(i) =>
      if InsertInFlight(s, tx, i) {
        var other: nat :| && other in s.sessions && other != tx && s.sessions[other].phase.Inserted?
                          && RowCollides(s.sessions[other].phase.draft, i);
        assert InsertedMeanwhile(s, tx, i);
      } else {
        assert Enabled(s, Event(tx, Insert));
      }
    case Read(_, _) => assert Enabled(s, Event(tx, Select));
    case _ => assert Enabled(s, Event(tx, Lock)) || LockedByOther(s, tx, op.id);
  }

  /** The phases of a transaction go with its operation. */
  lemma PhaseFitsOp(s: Cluster, tx: nat)
    requires Inv(s) && tx in s.sessions
    ensures var ses := s.sessions[tx];
            && (ses.phase.Inserted? || ses.phase.Conflicted? || ses.phase.Gathering? ==> ses.op.Request?)
            && (ses.phase.Locked? || ses.phase.Written? ==> ses.op.Transition())
            && (ses.phase.Checked? ==> ses.op.Expire? && Precheck(ses.op, ses.phase.current).None?)
  {
    assert SessionOk(s, tx);
  }

  lemma Proceeds(s: Cluster, tx: nat, move: Move)
    requires !move.Abort? && Enabled(s, Event(tx, move))
    ensures CanProceed(s, tx)
  {
  }

  lemma GatheringProceeds(s: Cluster, tx: nat)
    requires Inv(s) && tx in s.sessions && s.sessions[tx].phase.Gathering?
    ensures CanProceed(s, tx) || Waits(s, tx)
  {
    hide Inv, CanProceed, Resolve;
    PhaseFitsOp(s, tx);
    var ses := s.sessions[tx];
    if ses.phase.wanted != {} {
      var id :| id in ses.phase.wanted;
      WantedRowExists(s, tx, id);
      if !LockedByOther(s, tx, id) {
        Proceeds(s, tx, LockOne(id));
      }
    } else {
      var r := Resolve(ses.phase.got, ses.op.intent);
      match r
      case Fault(error) => NeverGivesUp(s, tx, error);
      case Replay(_) => Proceeds(s, tx, Commit(true));
      case Conflict => Proceeds(s, tx, Refuse(IdempotencyConflict));
    }
  }

  lemma HolderProceeds(s: Cluster, tx: nat)
    requires Inv(s) && tx in s.sessions && (s.sessions[tx].phase.Locked? || s.sessions[tx].phase.Checked?)
    ensures CanProceed(s, tx)
  {
    hide Inv, CanProceed, Updated, Accepted, Decode, Intended, CanCheckDue, CanUpdate;
    PhaseFitsOp(s, tx);
    var ses := s.sessions[tx];
    var failure := Precheck(ses.op, ses.phase.current);
    if ses.phase.Checked? && !ses.phase.due {
      Proceeds(s, tx, Refuse(NotDue));
    } else if failure.Some? {
      Proceeds(s, tx, Refuse(failure.value));
    } else if ses.phase.Locked? && ses.op.Expire? {
      CheckDueReady(s, tx);
      Proceeds(s, tx, CheckDue);
    } else {
      UpdateReady(s, tx);
      Proceeds(s, tx, Update);
    }
  }

  /** A transaction in progress can go on, or waits for a lock on the very row it addresses, or for an
      insert of its own id or delivery key. */
  lemma NeverStuck(s: Cluster, tx: nat)
    requires Inv(s) && tx in s.sessions && !s.sessions[tx].phase.Ended?
    ensures CanProceed(s, tx) || Waits(s, tx)
  {
    hide Inv, CanProceed, Waits;
    PhaseFitsOp(s, tx);
    match s.sessions[tx].phase
    case Begun => BegunProceeds(s, tx);
    case Inserted(_) => Proceeds(s, tx, Commit(true));
    case Conflicted => Proceeds(s, tx, Gather);
    case Gathering(_, _) => GatheringProceeds(s, tx);
    case Written(_) => Proceeds(s, tx, Commit(true));
    case _ => HolderProceeds(s, tx);
  }
}
