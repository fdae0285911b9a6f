/** The PostgreSQL backend as a state machine. Every statement of a transaction is one event, and
    the events of any number of transactions interleave freely.

    What is taken from PostgreSQL itself, at READ COMMITTED: a statement sees what is committed when
    it starts; a row lock is held until its transaction ends, and whoever wants it waits; an insert
    waits for a concurrent insert of the same key; transaction_timestamp() is fixed at begin. An
    event that has to wait is not enabled, and an event that is not enabled changes nothing. */
module Postgres {
  import opened Wrappers
  import opened Instants
  import opened Model
  import opened Schema
  import opened Spec
  import opened History

  // Lost: the caller sees a database error. Broken: the code itself gives up.
  datatype Outcome = Answered(reply: Reply) | Lost | Broken(error: StorageError)

  datatype Phase =
    | Begun
    | Inserted(draft: PgRow)                              // uncommitted insert
    | Conflicted                                          // ON CONFLICT DO NOTHING did nothing
    | Gathering(wanted: set<string>, got: seq<PgRow>)     // locking the conflicting rows one by one
    | Locked(current: StoredApproval)                     // SELECT .. FOR UPDATE returned
    | Checked(current: StoredApproval, due: bool)         // the deadline query returned
    | Written(image: PgRow)                               // uncommitted update
    | Ended(outcome: Outcome)

  datatype Session = Session(op: Op, began: Instant, phase: Phase) {
    function Reading(): Clock {
      Clock(began, began)
    }
  }

  datatype Cluster = Cluster(
    rows: map<string, PgRow>,        // committed rows
    locks: map<string, nat>,         // row locks and the transactions that own them
    sessions: map<nat, Session>,
    log: Log)                        // history of the answers, in the order they took effect

  datatype Move =
    | Begin(op: Op, now: Instant)
    | Insert
    | Gather
    | LockOne(id: string)
    | Lock
    | CheckDue
    | Update
    | Refuse(failure: DomainFailure)
    | GiveUp(error: StorageError)
    | Commit(delivered: bool)
    | Abort
    | Select

  datatype Event = Event(tx: nat, move: Move)

  const EMPTY := Cluster(map[], map[], map[], [])

  predicate RowCollides(row: PgRow, i: RequestIntent) {
    || row.requestId == i.requestId
    || (row.requesterInstance == i.requesterInstance && row.idempotencyKey == i.idempotencyKey)
  }

  predicate CommittedConflict(s: Cluster, i: RequestIntent) {
    exists id :: id in s.rows && RowCollides(s.rows[id], i)
  }

  predicate InsertInFlight(s: Cluster, tx: nat, i: RequestIntent) {
    exists other :: && other in s.sessions && other != tx && s.sessions[other].phase.Inserted?
                    && RowCollides(s.sessions[other].phase.draft, i)
  }

  predicate LockedByOther(s: Cluster, tx: nat, id: string) {
    id in s.locks && s.locks[id] != tx
  }

  /** The checks the code makes on the row it locked, before any further statement. */
  function Precheck(op: Op, current: StoredApproval): Option<DomainFailure>
    requires op.Transition()
  {
    if op.Cancel? && current.intent.requesterInstance != op.caller then Some(NotRequester)
    else if current.status != Pending then Some(AlreadyTerminal)
    else None
  }

  datatype Resolution = Conflict | Replay(approval: StoredApproval) | Fault(error: StorageError)

  /** How `request` classifies the rows its locked lookup returned. */
  function Resolve(rows: seq<PgRow>, intent: RequestIntent): Resolution {
    if |rows| != 1 then if |rows| == 0 then Fault(InconsistentIdempotency) else Conflict
    else
      match Decode(rows[0])
      case Failure(error) => Fault(error)
      case Success(approval) => if SameIntent(approval, intent) then Replay(approval) else Conflict
  }

  /** UPDATE .. WHERE request_id=$1: no guard on the status. */
  function Updated(row: PgRow, op: Op, now: Instant): PgRow
    requires op.Transition()
  {
    var status := match op
                  case Decide(_, d, _, _, _, _) => d.Text()
                  case Cancel(_, _, _, _) => "cancelled"
                  case _ => "expired";
    row.(status := status, revision := row.revision + 1,
         terminalCaller := Some(op.caller),
         terminalActor := if op.Expire? then None else Some(op.actor),
         evidenceRef := if op.Decide? then Some(op.evidence) else None,
         reason := if op.Expire? then None else op.note,
         terminalAt := Some(Micros(now)))
  }

  // When each statement or client decision can happen in transaction `tx`.

  predicate CanInsert(s: Cluster, tx: nat)
    requires tx in s.sessions
  {
    var ses := s.sessions[tx];
    && ses.phase.Begun? && ses.op.Request?
    && (CommittedConflict(s, ses.op.intent) || !InsertInFlight(s, tx, ses.op.intent))
  }

  predicate CanLock(s: Cluster, tx: nat)
    requires tx in s.sessions
  {
    var ses := s.sessions[tx];
    ses.phase.Begun? && ses.op.Transition() && (ses.op.id in s.rows ==> !LockedByOther(s, tx, ses.op.id))
  }

  predicate CanCheckDue(s: Cluster, tx: nat)
    requires tx in s.sessions
  {
    var ses := s.sessions[tx];
    ses.phase.Locked? && ses.op.Expire? && Precheck(ses.op, ses.phase.current).None? && ses.op.id in s.rows
  }

  predicate CanUpdate(s: Cluster, tx: nat)
    requires tx in s.sessions
  {
    var ses := s.sessions[tx];
    && ses.op.Transition() && ses.op.id in s.rows && !LockedByOther(s, tx, ses.op.id)
    && (|| (ses.phase.Locked? && !ses.op.Expire? && Precheck(ses.op, ses.phase.current).None?)
        || (ses.phase.Checked? && ses.phase.due))
  }

  predicate LookedUp(ses: Session) {
    ses.phase.Gathering? && ses.op.Request? && ses.phase.wanted == {}
  }

  predicate CanRefuse(ses: Session, failure: DomainFailure) {
    || (ses.phase.Locked? && ses.op.Transition() && Precheck(ses.op, ses.phase.current) == Some(failure))
    || (ses.phase.Checked? && !ses.phase.due && failure == NotDue)
    || (LookedUp(ses) && failure == IdempotencyConflict && Resolve(ses.phase.got, ses.op.intent).Conflict?)
  }

  predicate CanGiveUp(ses: Session, error: StorageError) {
    LookedUp(ses) && Resolve(ses.phase.got, ses.op.intent) == Fault(error)
  }

  predicate CanCommit(ses: Session) {
    || (ses.phase.Inserted? && ses.op.Request?)
    || (ses.phase.Written? && ses.op.Transition())
    || (LookedUp(ses) && Resolve(ses.phase.got, ses.op.intent).Replay?)
  }

  predicate Enabled(s: Cluster, e: Event) {
    if e.move.Begin? then e.tx !in s.sessions && Ready(e.move.op) && Sane(e.move.now)
    else
      && e.tx in s.sessions
      && var ses := s.sessions[e.tx];
         match e.move
         case Begin(_, _) => false
         case Insert => CanInsert(s, e.tx)
         case Gather => ses.phase.Conflicted? && ses.op.Request?
         case LockOne(id) =>
           ses.phase.Gathering? && id in ses.phase.wanted && id in s.rows && !LockedByOther(s, e.tx, id)
         case Lock => CanLock(s, e.tx)
         case CheckDue => CanCheckDue(s, e.tx)
         case Update => CanUpdate(s, e.tx)
         case Refuse(failure) => CanRefuse(ses, failure)
         case GiveUp(error) => CanGiveUp(ses, error)
         case Commit(_) => CanCommit(ses)
         case Abort => !ses.phase.Ended?
         case Select => ses.phase.Begun? && ses.op.Read?
  }

  function Enter(s: Cluster, tx: nat, phase: Phase): Cluster
    requires tx in s.sessions
  {
    s.(sessions := s.sessions[tx := s.sessions[tx].(phase := phase)])
  }

  /** The transaction ends: its locks are released. */
  function End(s: Cluster, tx: nat, outcome: Outcome): Cluster
    requires tx in s.sessions
  {
    Enter(s, tx, Ended(outcome)).(locks := map id | id in s.locks && s.locks[id] != tx :: s.locks[id])
  }

  /** The transaction ends and its reply takes effect. */
  function Conclude(s: Cluster, tx: nat, reply: Reply, delivered: bool): Cluster
    requires tx in s.sessions
  {
    End(s, tx, if delivered then Answered(reply) else Lost)
      .(log := s.log + [Entry(tx, s.sessions[tx].op, s.sessions[tx].Reading(), reply)])
  }

  /** Decode the row a statement returned and go on, or give the transaction up. */
  function Returned(s: Cluster, tx: nat, row: PgRow, onward: StoredApproval -> Phase): Cluster
    requires tx in s.sessions
  {
    match Decode(row)
    case Failure(error) => End(s, tx, Broken(error))
    case Success(approval) => Enter(s, tx, onward(approval))
  }

  function Granted(s: Cluster, tx: nat, id: string): Cluster {
    s.(locks := s.locks[id := tx])
  }

  /** INSERT .. ON CONFLICT DO NOTHING RETURNING: CHECKs first, then the two unique keys. */
  function AfterInsert(s: Cluster, tx: nat): Cluster
    requires tx in s.sessions && CanInsert(s, tx)
  {
    var intent := s.sessions[tx].op.intent;
    if !Accepted(NewRow(intent)) then End(s, tx, Broken(Unavailable))
    else if CommittedConflict(s, intent) then Enter(s, tx, Conflicted)
    else Returned(s, tx, NewRow(intent), approval => Inserted(NewRow(intent)))
  }

  /** The locked lookup starts: the rows of its snapshot are fixed. */
  function AfterGather(s: Cluster, tx: nat): Cluster
    requires tx in s.sessions && s.sessions[tx].op.Request?
  {
    Enter(s, tx, Gathering(set id | id in s.rows && RowCollides(s.rows[id], s.sessions[tx].op.intent), []))
  }

  /** One of its rows is granted and read again as it is now. */
  function AfterLockOne(s: Cluster, tx: nat, id: string): Cluster
    requires tx in s.sessions && s.sessions[tx].phase.Gathering? && id in s.rows
  {
    var phase := s.sessions[tx].phase;
    Enter(Granted(s, tx, id), tx, Gathering(phase.wanted - {id}, phase.got + [s.rows[id]]))
  }

  /** SELECT .. WHERE request_id=$1 FOR UPDATE: no row ends the call, a row is decoded. */
  function AfterLock(s: Cluster, tx: nat): Cluster
    requires tx in s.sessions && CanLock(s, tx)
  {
    var id := s.sessions[tx].op.id;
    if id !in s.rows then Conclude(s, tx, Refused(RequestNotFound), true)
    else Returned(Granted(s, tx, id), tx, s.rows[id], approval => Locked(approval))
  }

  function AfterCheckDue(s: Cluster, tx: nat): Cluster
    requires tx in s.sessions && CanCheckDue(s, tx)
  {
    var ses := s.sessions[tx];
    Enter(s, tx, Checked(ses.phase.current, s.rows[ses.op.id].expiresAt <= Micros(ses.began)))
  }

  function AfterUpdate(s: Cluster, tx: nat): Cluster
    requires tx in s.sessions && CanUpdate(s, tx)
  {
    var ses := s.sessions[tx];
    var row := Updated(s.rows[ses.op.id], ses.op, ses.began);
    if !Accepted(row) then End(s, tx, Broken(Unavailable))
    else Returned(Granted(s, tx, ses.op.id), tx, row, approval => Written(row))
  }

  function AfterCommit(s: Cluster, tx: nat, delivered: bool): Cluster
    requires tx in s.sessions && CanCommit(s.sessions[tx])
  {
    var ses := s.sessions[tx];
    if ses.phase.Inserted? then
      Conclude(s, tx, Resolved(true, Held(ses.phase.draft)), delivered)
        .(rows := s.rows[ses.phase.draft.requestId := ses.phase.draft])
    else if ses.phase.Written? then
      Conclude(s, tx, Changed(Held(ses.phase.image)), delivered).(rows := s.rows[ses.op.id := ses.phase.image])
    else Conclude(s, tx, Resolved(false, Resolve(ses.phase.got, ses.op.intent).approval), delivered)
  }

  function AfterSelect(s: Cluster, tx: nat): Cluster
    requires tx in s.sessions && s.sessions[tx].op.Read?
  {
    var op := s.sessions[tx].op;
    if op.id !in s.rows || (op.requester.Some? && s.rows[op.id].requesterInstance != op.requester.value)
    then Conclude(s, tx, Found(None), true)
    else
      match Decode(s.rows[op.id])
      case Failure(error) => End(s, tx, Broken(error))
      case Success(approval) => Conclude(s, tx, Found(Some(approval)), true)
  }

  function Next(s: Cluster, e: Event): Cluster {
    if !Enabled(s, e) then s
    else
      match e.move
      case Begin(op, now) => s.(sessions := s.sessions[e.tx := Session(op, now, Begun)])
      case Insert => AfterInsert(s, e.tx)
      case Gather => AfterGather(s, e.tx)
      case LockOne(id) => AfterLockOne(s, e.tx, id)
      case Lock => AfterLock(s, e.tx)
      case CheckDue => AfterCheckDue(s, e.tx)
      case Update => AfterUpdate(s, e.tx)
      case Refuse(failure) => Conclude(s, e.tx, Refused(failure), true)
      case GiveUp(error) => End(s, e.tx, Broken(error))
      case Commit(delivered) => AfterCommit(s, e.tx, delivered)
      case Abort => End(s, e.tx, Lost)
      case Select => AfterSelect(s, e.tx)
  }

  function Run(s: Cluster, events: seq<Event>): Cluster {
    if |events| == 0 then s else Next(Run(s, events[..|events| - 1]), events[|events| - 1])
  }

  /** The approval in a row, whether or not its evidence is valid. */
  function Held(row: PgRow): StoredApproval {
    var parsed := ParseStatus(row.status);
    Schema.Read(row, if parsed.Success? then parsed.value else Pending)
  }

  /** The abstract store the committed rows stand for. */
  function View(rows: map<string, PgRow>): Store {
    map id | id in rows :: Held(rows[id])
  }
}
