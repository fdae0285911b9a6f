/** The invariant of the PostgreSQL backend, and how it survives the events of other transactions. */
module PostgresProof {
  import opened Instants
  import opened Model
  import opened Schema
  import opened Spec
  import opened History
  import opened Postgres

  ghost predicate RowsOk(rows: map<string, PgRow>) {
    && (forall id :: id in rows ==> rows[id].requestId == id && Accepted(rows[id]))
    && (forall id, id' :: id in rows && id' in rows && id != id' ==>
          || rows[id].requesterInstance != rows[id'].requesterInstance
          || rows[id].idempotencyKey != rows[id'].idempotencyKey)
  }

  ghost predicate Owns(s: Cluster, tx: nat, id: string) {
    id in s.rows && id in s.locks && s.locks[id] == tx
  }

  ghost predicate Unlogged(log: Log, tx: nat) {
    forall i :: 0 <= i < |log| ==> log[i].call != tx
  }

  ghost predicate Logged(log: Log, e: Entry) {
    exists i :: 0 <= i < |log| && log[i] == e
  }

  /** An uncommitted row competes with no committed row and no other uncommitted row. */
  ghost predicate DraftOk(s: Cluster, tx: nat, intent: RequestIntent, draft: PgRow) {
    && draft == NewRow(intent) && Accepted(draft)
    && (forall id :: id in s.rows ==> !RowCollides(s.rows[id], intent))
    && (forall other :: other in s.sessions && other != tx && s.sessions[other].phase.Inserted? ==>
          !RowCollides(s.sessions[other].phase.draft, intent))
  }

  ghost predicate GatheredOk(s: Cluster, tx: nat, intent: RequestIntent, wanted: set<string>, got: seq<PgRow>) {
    && (forall id :: id in wanted ==> id in s.rows && RowCollides(s.rows[id], intent))
    && (forall k :: 0 <= k < |got| ==>
          && Owns(s, tx, got[k].requestId) && s.rows[got[k].requestId] == got[k]
          && got[k].requestId !in wanted && RowCollides(got[k], intent))
    && (forall k, l :: 0 <= k < l < |got| ==> got[k].requestId != got[l].requestId)
    && (wanted == {} ==> got != [])
  }

  ghost predicate HoldsSnapshot(s: Cluster, tx: nat, id: string, a: StoredApproval) {
    Owns(s, tx, id) && a == Held(s.rows[id])
  }

  ghost predicate ImageOk(s: Cluster, tx: nat, op: Op, began: Instant, image: PgRow)
    requires op.Transition()
  {
    && Owns(s, tx, op.id)
    && Objection(Held(s.rows[op.id]), op, began).None?
    && image == Updated(s.rows[op.id], op, began)
  }

  /** What a transaction may rely on at each point. The core is that a lock holder's snapshot is
      the committed row, which is what makes the unguarded UPDATE safe. */
  ghost predicate PhaseOk(s: Cluster, tx: nat, op: Op, began: Instant, phase: Phase) {
    match phase
    case Begun => true
    case Inserted(draft) => op.Request? && DraftOk(s, tx, op.intent, draft)
    case Conflicted => op.Request? && CommittedConflict(s, op.intent)
    case Gathering(wanted, got) => op.Request? && GatheredOk(s, tx, op.intent, wanted, got)
    case Locked(a) => op.Transition() && HoldsSnapshot(s, tx, op.id, a)
    case Checked(a, due) =>
      op.Expire? && HoldsSnapshot(s, tx, op.id, a) && Precheck(op, a).None? && (due <==> a.intent.expiresAt <= began)
    case Written(image) => op.Transition() && ImageOk(s, tx, op, began, image)
    case Ended(outcome) =>
      !outcome.Broken? && (outcome.Answered? ==> Logged(s.log, Entry(tx, op, Clock(began, began), outcome.reply)))
  }

  ghost predicate SessionOk(s: Cluster, tx: nat)
    requires tx in s.sessions
  {
    var ses := s.sessions[tx];
    && Ready(ses.op) && Sane(ses.began)
    && (!ses.phase.Ended? ==> Unlogged(s.log, tx))
    && PhaseOk(s, tx, ses.op, ses.began, ses.phase)
  }

  ghost predicate LogOk(s: Cluster) {
    && Legal(s.log) && View(s.rows) == After(s.log)
    && (forall i, j :: 0 <= i < j < |s.log| ==> s.log[i].call != s.log[j].call)
    && (forall i :: 0 <= i < |s.log| ==>
          && s.log[i].call in s.sessions
          && s.log[i].op == s.sessions[s.log[i].call].op
          && s.log[i].clock == s.sessions[s.log[i].call].Reading())
  }

  ghost predicate LocksOk(s: Cluster) {
    forall id :: id in s.locks ==> s.locks[id] in s.sessions && !s.sessions[s.locks[id]].phase.Ended?
  }

  ghost predicate Inv(s: Cluster) {
    && RowsOk(s.rows) && LogOk(s) && LocksOk(s)
    && forall tx :: tx in s.sessions ==> SessionOk(s, tx)
  }

  predicate SameKeys(a: PgRow, b: PgRow) {
    a.requestId == b.requestId && a.requesterInstance == b.requesterInstance && a.idempotencyKey == b.idempotencyKey
  }

  /** An event of `tx` leaves other transactions' rows, locks and answers alone. */
  ghost predicate OnlyTouches(s: Cluster, s': Cluster, tx: nat) {
    && tx in s'.sessions && s'.sessions == s.sessions[tx := s'.sessions[tx]]
    && (forall id :: id in s.rows ==>
          id in s'.rows && SameKeys(s.rows[id], s'.rows[id]) && (s'.rows[id] == s.rows[id] || Owns(s, tx, id)))
    && (forall id :: id in s.locks && s.locks[id] != tx ==> id in s'.locks && s'.locks[id] == s.locks[id])
    && (s'.log == s.log || (|s'.log| > 0 && s.log == s'.log[..|s'.log| - 1] && s'.log[|s'.log| - 1].call == tx))
    && (forall other :: other in s.sessions && other != tx
                        && s.sessions[other].phase.Inserted? && s.sessions[other].op.Request? ==>
          && (forall id :: id in s'.rows && id !in s.rows ==> !RowCollides(s'.rows[id], s.sessions[other].op.intent))
          && (s'.sessions[tx].phase.Inserted? ==>
                !RowCollides(s'.sessions[tx].phase.draft, s.sessions[other].op.intent)))
  }

  lemma GatheredStays(s: Cluster, s': Cluster, tx: nat, other: nat, intent: RequestIntent, wanted: set<string>,
                      got: seq<PgRow>)
    requires OnlyTouches(s, s', tx) && other != tx && GatheredOk(s, other, intent, wanted, got)
    ensures GatheredOk(s', other, intent, wanted, got)
  {
  }

  lemma DraftStays(s: Cluster, s': Cluster, tx: nat, other: nat)
    requires OnlyTouches(s, s', tx) && other != tx && other in s.sessions
    requires s.sessions[other].phase.Inserted? && s.sessions[other].op.Request?
    requires DraftOk(s, other, s.sessions[other].op.intent, s.sessions[other].phase.draft)
    ensures DraftOk(s', other, s.sessions[other].op.intent, s.sessions[other].phase.draft)
  {
  }

  lemma LoggedStays(log: Log, log': Log, e: Entry)
    requires |log| <= |log'| && log'[..|log|] == log && Logged(log, e)
    ensures Logged(log', e)
  {
    var i :| 0 <= i < |log| && log[i] == e;
    assert log'[i] == e;
  }

  lemma OtherPhaseStays(s: Cluster, s': Cluster, tx: nat, other: nat)
    requires OnlyTouches(s, s', tx) && other in s.sessions && other != tx
    requires var ses := s.sessions[other]; PhaseOk(s, other, ses.op, ses.began, ses.phase)
    ensures var ses := s.sessions[other]; PhaseOk(s', other, ses.op, ses.began, ses.phase)
  {
    var ses := s.sessions[other];
    match ses.phase
    case Begun =>
    case Inserted(draft) => DraftStays(s, s', tx, other);
    case Conflicted =>
      var id :| id in s.rows && RowCollides(s.rows[id], ses.op.intent);
      assert id in s'.rows && RowCollides(s'.rows[id], ses.op.intent);
    case Gathering(wanted, got) => GatheredStays(s, s', tx, other, ses.op.intent, wanted, got);
    case Locked(a) =>
    case Checked(a, due) =>
    case Written(image) =>
    case Ended(outcome) =>
      if outcome.Answered? {
        LoggedStays(s.log, s'.log, Entry(other, ses.op, Clock(ses.began, ses.began), outcome.reply));
      }
  }

  /** The whole invariant after an event follows from the event's own session and the log. */
  lemma InvAfter(s: Cluster, s': Cluster, tx: nat)
    requires Inv(s) && OnlyTouches(s, s', tx)
    requires RowsOk(s'.rows) && LogOk(s') && LocksOk(s') && SessionOk(s', tx)
    ensures Inv(s')
  {
    forall other | other in s'.sessions
      ensures SessionOk(s', other)
    {
      if other != tx {
        assert SessionOk(s, other);
        assert s'.sessions[other] == s.sessions[other];
        OtherPhaseStays(s, s', tx, other);
      }
    }
  }

  /** A transaction in progress moves on: its new phase only has to be justified. */
  lemma EnterKeeps(s: Cluster, tx: nat, phase: Phase)
    requires Inv(s) && tx in s.sessions && !s.sessions[tx].phase.Ended? && !phase.Ended?
    requires PhaseOk(s, tx, s.sessions[tx].op, s.sessions[tx].began, phase)
    requires phase.Inserted? ==> DraftClear(s, tx, phase.draft)
    ensures Inv(Enter(s, tx, phase))
  {
    EnterSession(s, tx, phase);
    EnterLog(s, tx, phase);
    EnterLocks(s, tx, phase);
    InvAfter(s, Enter(s, tx, phase), tx);
  }

  /** No other uncommitted insert wants the keys of `draft`. */
  ghost predicate DraftClear(s: Cluster, tx: nat, draft: PgRow) {
    forall other :: other in s.sessions && other != tx
                    && s.sessions[other].phase.Inserted? && s.sessions[other].op.Request? ==>
      !RowCollides(draft, s.sessions[other].op.intent)
  }

  lemma EnterSession(s: Cluster, tx: nat, phase: Phase)
    requires tx in s.sessions && SessionOk(s, tx) && !s.sessions[tx].phase.Ended? && !phase.Ended?
    requires PhaseOk(s, tx, s.sessions[tx].op, s.sessions[tx].began, phase)
    ensures SessionOk(Enter(s, tx, phase), tx)
  {
    var op := s.sessions[tx].op;
    var s' := Enter(s, tx, phase);
    if phase.Conflicted? {
      assert CommittedConflict(s', op.intent) by {
        var c :| c in s.rows && RowCollides(s.rows[c], op.intent);
        assert c in s'.rows && RowCollides(s'.rows[c], op.intent);
      }
    }
  }

  lemma EnterLocks(s: Cluster, tx: nat, phase: Phase)
    requires LocksOk(s) && tx in s.sessions && !phase.Ended?
    ensures LocksOk(Enter(s, tx, phase))
  {
  }

  lemma EnterLog(s: Cluster, tx: nat, phase: Phase)
    requires LogOk(s) && tx in s.sessions
    ensures LogOk(Enter(s, tx, phase))
  {
  }

  /** A free row lock is granted. */
  lemma GrantKeeps(s: Cluster, tx: nat, id: string)
    requires Inv(s) && tx in s.sessions && !s.sessions[tx].phase.Ended? && !s.sessions[tx].phase.Inserted?
    requires id in s.rows && !LockedByOther(s, tx, id)
    ensures Inv(Granted(s, tx, id)) && Owns(Granted(s, tx, id), tx, id)
  {
    GrantTouches(s, tx, id);
    GrantOwn(s, tx, id);
    GrantLog(s, tx, id);
    InvAfter(s, Granted(s, tx, id), tx);
  }

  lemma GrantTouches(s: Cluster, tx: nat, id: string)
    requires tx in s.sessions && !s.sessions[tx].phase.Inserted? && !LockedByOther(s, tx, id)
    ensures OnlyTouches(s, Granted(s, tx, id), tx)
  {
    assert s.sessions == s.sessions[tx := s.sessions[tx]];
  }

  lemma GrantLog(s: Cluster, tx: nat, id: string)
    requires LogOk(s)
    ensures LogOk(Granted(s, tx, id))
  {
  }

  lemma GrantOwn(s: Cluster, tx: nat, id: string)
    requires tx in s.sessions && SessionOk(s, tx) && !LockedByOther(s, tx, id)
    ensures SessionOk(Granted(s, tx, id), tx)
  {
    var ses := s.sessions[tx];
    var s' := Granted(s, tx, id);
    if ses.phase.Conflicted? {
      assert CommittedConflict(s', ses.op.intent) by {
        var c :| c in s.rows && RowCollides(s.rows[c], ses.op.intent);
        assert c in s'.rows && RowCollides(s'.rows[c], ses.op.intent);
      }
    }
  }

  /** A transaction ends without effect. */
  lemma EndKeeps(s: Cluster, tx: nat)
    requires Inv(s) && tx in s.sessions && !s.sessions[tx].phase.Ended?
    ensures Inv(End(s, tx, Lost))
  {
    assert SessionOk(s, tx);
    EndLocks(s, tx);
    EndLog(s, tx);
    InvAfter(s, End(s, tx, Lost), tx);
  }

  lemma EndLocks(s: Cluster, tx: nat)
    requires LocksOk(s) && tx in s.sessions
    ensures LocksOk(End(s, tx, Lost)) && OnlyTouches(s, End(s, tx, Lost), tx)
  {
  }

  lemma EndLog(s: Cluster, tx: nat)
    requires LogOk(s) && tx in s.sessions
    ensures LogOk(End(s, tx, Lost))
  {
  }

  /** Appending the specification's own reply keeps the log legal. */
  lemma LogGrows(s: Cluster, s': Cluster, tx: nat, reply: Reply)
    requires LogOk(s) && tx in s.sessions && tx in s'.sessions && Unlogged(s.log, tx)
    requires Ready(s.sessions[tx].op) && Sane(s.sessions[tx].began)
    requires s'.sessions == s.sessions[tx := s'.sessions[tx]]
    requires s'.sessions[tx].op == s.sessions[tx].op && s'.sessions[tx].began == s.sessions[tx].began
    requires s'.log == s.log + [Entry(tx, s.sessions[tx].op, s.sessions[tx].Reading(), reply)]
    requires Apply(View(s.rows), s.sessions[tx].op, s.sessions[tx].Reading()) == Spec.Step(View(s'.rows), reply)
    ensures LogOk(s')
  {
    hide Apply, View, After, Legal, Ready;
    Append(s.log, s'.log[|s.log|]);
  }

  /** The rows a commit may leave behind. */
  ghost predicate RowsEvolve(s: Cluster, rows: map<string, PgRow>, tx: nat) {
    && RowsOk(rows)
    && (forall id :: id in s.rows ==>
          id in rows && SameKeys(s.rows[id], rows[id]) && (rows[id] == s.rows[id] || Owns(s, tx, id)))
    && (forall other :: other in s.sessions && other != tx
                        && s.sessions[other].phase.Inserted? && s.sessions[other].op.Request? ==>
          forall id :: id in rows && id !in s.rows ==> !RowCollides(rows[id], s.sessions[other].op.intent))
  }

  /** An answer keeps the invariant when it is what the specification says at this point. */
  lemma ConcludeKeeps(s: Cluster, tx: nat, reply: Reply, delivered: bool, rows: map<string, PgRow>)
    requires Inv(s) && tx in s.sessions && !s.sessions[tx].phase.Ended? && RowsEvolve(s, rows, tx)
    requires Apply(View(s.rows), s.sessions[tx].op, s.sessions[tx].Reading()) == Spec.Step(View(rows), reply)
    ensures Inv(Conclude(s, tx, reply, delivered).(rows := rows))
  {
    var s' := Conclude(s, tx, reply, delivered).(rows := rows);
    assert SessionOk(s, tx);
    LogGrows(s, s', tx, reply);
    ConcludeTouches(s, tx, reply, delivered, rows);
    ConcludeSession(s, tx, reply, delivered, rows);
    InvAfter(s, s', tx);
  }

  lemma ConcludeTouches(s: Cluster, tx: nat, reply: Reply, delivered: bool, rows: map<string, PgRow>)
    requires tx in s.sessions && RowsEvolve(s, rows, tx) && LocksOk(s)
    ensures var s' := Conclude(s, tx, reply, delivered).(rows := rows);
            OnlyTouches(s, s', tx) && LocksOk(s')
  {
    var log' := Conclude(s, tx, reply, delivered).log;
    assert log'[..|log'| - 1] == s.log;
  }

  lemma ConcludeSession(s: Cluster, tx: nat, reply: Reply, delivered: bool, rows: map<string, PgRow>)
    requires tx in s.sessions && SessionOk(s, tx)
    ensures SessionOk(Conclude(s, tx, reply, delivered).(rows := rows), tx)
  {
    var s' := Conclude(s, tx, reply, delivered).(rows := rows);
    assert s'.log[|s.log|] == Entry(tx, s.sessions[tx].op, s.sessions[tx].Reading(), reply);
  }

  /** An answer that writes nothing. */
  lemma AnswerKeeps(s: Cluster, tx: nat, reply: Reply, delivered: bool)
    requires Inv(s) && tx in s.sessions && !s.sessions[tx].phase.Ended?
    requires Apply(View(s.rows), s.sessions[tx].op, s.sessions[tx].Reading()) == Spec.Step(View(s.rows), reply)
    ensures Inv(Conclude(s, tx, reply, delivered))
  {
    ConcludeKeeps(s, tx, reply, delivered, s.rows);
  }

  ghost predicate TouchesOne(s: Cluster, s': Cluster, tx: nat) {
    && tx in s'.sessions && s'.sessions == s.sessions[tx := s'.sessions[tx]]
    && s.log <= s'.log && (forall i :: |s.log| <= i < |s'.log| ==> s'.log[i].call == tx)
  }

  lemma RequestTouchesOne(s: Cluster, tx: nat)
    requires tx in s.sessions
    ensures CanInsert(s, tx) ==> TouchesOne(s, AfterInsert(s, tx), tx)
    ensures s.sessions[tx].op.Request? ==> TouchesOne(s, AfterGather(s, tx), tx)
    ensures s.sessions[tx].phase.Gathering? ==> forall id :: id in s.rows ==> TouchesOne(s, AfterLockOne(s, tx, id), tx)
  {
  }

  lemma TransitionTouchesOne(s: Cluster, tx: nat)
    requires tx in s.sessions
    ensures CanLock(s, tx) ==> TouchesOne(s, AfterLock(s, tx), tx)
    ensures CanCheckDue(s, tx) ==> TouchesOne(s, AfterCheckDue(s, tx), tx)
    ensures CanUpdate(s, tx) ==> TouchesOne(s, AfterUpdate(s, tx), tx)
  {
  }

  lemma EndTouchesOne(s: Cluster, tx: nat)
    requires tx in s.sessions
    ensures forall delivered :: CanCommit(s.sessions[tx]) ==> TouchesOne(s, AfterCommit(s, tx, delivered), tx)
    ensures s.sessions[tx].op.Read? ==> TouchesOne(s, AfterSelect(s, tx), tx)
    ensures forall reply, delivered :: TouchesOne(s, Conclude(s, tx, reply, delivered), tx)
    ensures forall outcome :: TouchesOne(s, End(s, tx, outcome), tx)
  {
  }

  /** An event changes the session of its own transaction only. */
  lemma NextTouchesOne(s: Cluster, e: Event)
    ensures Next(s, e) == s || TouchesOne(s, Next(s, e), e.tx)
  {
    if Enabled(s, e) && e.tx in s.sessions {
      match e.move
      case Insert => RequestTouchesOne(s, e.tx);
      case Gather => RequestTouchesOne(s, e.tx);
      case LockOne(_) => RequestTouchesOne(s, e.tx);
      case Lock => TransitionTouchesOne(s, e.tx);
      case CheckDue => TransitionTouchesOne(s, e.tx);
      case Update => TransitionTouchesOne(s, e.tx);
      case _ => EndTouchesOne(s, e.tx);
    }
  }

  /** A transaction that has ended has no further statements. */
  lemma EndedIsIdle(s: Cluster, e: Event)
    requires e.tx in s.sessions && s.sessions[e.tx].phase.Ended?
    ensures Next(s, e) == s
  {
  }
}
