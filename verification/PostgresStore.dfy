/** The storage functions themselves: statement by statement, with other transactions running in
    between and any statement failing. */
module PostgresStore {
  import opened Wrappers
  import opened Instants
  import opened Model
  import opened Schema
  import opened Spec
  import opened History
  import opened Postgres
  import opened PostgresProof
  import opened PostgresEvents
  import opened PostgresTheorems
  import opened PostgresSteps

  // What surrounds one statement: the events of other transactions before it, and whether it
  // fails. A commit can fail after it took effect.
  datatype Fault = Fine | FailsBefore | FailsAfter
  datatype Weather = Weather(others: seq<Event>, fault: Fault)

  predicate Calm(w: Weather) {
    w == Weather([], Fine)
  }

  // Why a call fails: a statement failed, or it had to wait for another transaction in vain.

  ghost predicate Faulty(env: nat -> Weather) {
    exists k: nat :: !env(k).fault.Fine?
  }

  /** The call `tx` has ended with result `r`; with no answer its effect is unknown. */
  ghost predicate Returns(s: Cluster, tx: nat, op: Op, now: Instant, r: Result<Reply, StorageError>) {
    && tx in s.sessions
    && s.sessions[tx] == Session(op, now, Ended(if r.Success? then Answered(r.value) else Lost))
  }

  /** The database answered exactly as the specification does, and nothing else happened. */
  ghost predicate ServedAlone(s: Cluster, s': Cluster, tx: nat, op: Op, now: Instant, r: Result<Reply, StorageError>) {
    var step := Apply(View(s.rows), op, Clock(now, now));
    r == Success(step.reply) && View(s'.rows) == step.store && Alone(s', tx)
  }

  /** Somewhere between the call and its return the specification gave this reply, on the rows
      committed at that moment and with the transaction's own clock reading. */
  ghost predicate TookEffect(s: Cluster, s': Cluster, tx: nat, op: Op, now: Instant, reply: Reply) {
    exists i :: && |s.log| <= i < |s'.log| && s'.log[i].call == tx
                && Apply(After(s'.log[..i]), op, Clock(now, now)) == Spec.Step(After(s'.log[..i + 1]), reply)
  }

  lemma AnswerTookEffect(before: seq<Event>, after: seq<Event>, tx: nat, op: Op, now: Instant, reply: Reply)
    requires before <= after && tx !in Reached(before).sessions
    requires Returns(Reached(after), tx, op, now, Success(reply))
    ensures TookEffect(Reached(before), Reached(after), tx, op, now, reply)
  {
    hide Reached, Apply, After, Legal, EffectOf;
    ReachedInv(before);
    ReachedInv(after);
    LogGrowsAlong(after, |before|);
    assert after[..|before|] == before;
    var s, s' := Reached(before), Reached(after);
    assert SessionOk(s', tx);
    var i :| 0 <= i < |s'.log| && s'.log[i] == Entry(tx, op, Clock(now, now), reply);
    assert LogOk(s) && LogOk(s');
    EntryAt(s'.log, i);
    assert forall k :: 0 <= k < |s.log| ==> s'.log[k].call == s.log[k].call && s.log[k].call in s.sessions;
  }

  lemma LogIsView(s: Cluster)
    requires Inv(s)
    ensures Legal(s.log) && View(s.rows) == After(s.log)
  {
    assert LogOk(s);
  }

  lemma ServedAloneByLog(s: Cluster, s': Cluster, tx: nat, op: Op, now: Instant, reply: Reply)
    requires Inv(s) && Inv(s') && Still(s, s', tx, [Entry(tx, op, Clock(now, now), reply)])
    ensures ServedAlone(s, s', tx, op, now, Success(reply))
  {
    hide Inv, View, After, Legal, Apply;
    LogIsView(s);
    LogIsView(s');
    LastEntry(s.log, Entry(tx, op, Clock(now, now), reply));
  }

  /** What the end of a call shows. */
  lemma CallEnds(before: seq<Event>, after: seq<Event>, tx: nat, op: Op, now: Instant, r: Result<Reply, StorageError>)
    requires before <= after && tx !in Reached(before).sessions && Returns(Reached(after), tx, op, now, r)
    ensures r.Success? ==> TookEffect(Reached(before), Reached(after), tx, op, now, r.value)
    ensures r.Success? && Still(Reached(before), Reached(after), tx, [Entry(tx, op, Clock(now, now), r.value)]) ==>
              ServedAlone(Reached(before), Reached(after), tx, op, now, r)
  {
    hide Inv, Reached, TookEffect, Still, ServedAlone;
    if r.Success? {
      AnswerTookEffect(before, after, tx, op, now, r.value);
      if Still(Reached(before), Reached(after), tx, [Entry(tx, op, Clock(now, now), r.value)]) {
        ReachedInv(before);
        ReachedInv(after);
        ServedAloneByLog(Reached(before), Reached(after), tx, op, now, r.value);
      }
    }
  }

  class PostgresStore {
    var db: Cluster
    ghost var history: seq<Event>

    /** The database is where a run of the state machine leads. */
    ghost predicate Valid()
      reads this
    {
      db == Reached(history) && Inv(db)
    }

    constructor ()
      ensures Valid() && db == EMPTY && history == []
    {
      db, history := EMPTY, [];
      ReachedInv([]);
    }

    /** One event of the state machine; nothing else ever changes the database. */
    method Perform(e: Event)
      requires Valid()
      modifies this
      ensures Valid() && db == Next(old(db), e) && history == old(history) + [e]
    {
      hide Inv, Next;
      NextKeepsInv(db, e);
      assert (history + [e])[..|history|] == history;
      db, history := Next(db, e), history + [e];
    }

    /** Other transactions run. */
    method Others(tx: nat, events: seq<Event>)
      requires Valid()
      modifies this
      ensures Valid() && old(history) <= history
      ensures tx in db.sessions <==> tx in old(db.sessions)
      ensures tx in db.sessions ==> db.sessions[tx] == old(db.sessions[tx])
      ensures events == [] ==> db == old(db)
    {
      hide Inv, Reached, Next;
      for k := 0 to |events|
        invariant Valid() && old(history) <= history
        invariant tx in db.sessions <==> tx in old(db.sessions)
        invariant tx in db.sessions ==> db.sessions[tx] == old(db.sessions[tx])
        invariant k == 0 ==> db == old(db)
      {
        if events[k].tx != tx {
          NextTouchesOne(db, events[k]);
          Perform(events[k]);
        }
      }
    }

    /** The caller is told of a failure; a commit may have taken effect all the same. */
    method Fail(tx: nat, committed: bool)
      requires Valid() && tx in db.sessions && !db.sessions[tx].phase.Ended?
      requires committed ==> CanCommit(db.sessions[tx])
      modifies this
      ensures Valid() && old(history) <= history
      ensures tx in db.sessions && db.sessions[tx] == old(db.sessions[tx]).(phase := Ended(Lost))
      ensures !committed ==> db == End(old(db), tx, Lost)
    {
      hide Inv, Reached, CanCommit, Resolve;
      Perform(Event(tx, if committed then Commit(false) else Abort));
    }

    method Begin(tx: nat, op: Op, now: Instant, w: Weather) returns (ok: bool)
      requires Valid() && tx !in db.sessions && Ready(op) && Sane(now)
      modifies this
      ensures Valid() && old(history) <= history
      ensures tx in db.sessions && db.sessions[tx] == Session(op, now, if ok then Begun else Ended(Lost))
      ensures ok <==> w.fault.Fine?
      ensures Calm(w) && Alone(old(db), tx) ==> ok && Still(old(db), db, tx, [])
    {
      hide Inv, Reached, Next, Still;
      Others(tx, w.others);
      BeginOutcome(db, tx, op, now);
      Perform(Event(tx, Move.Begin(op, now)));
      ok := w.fault.Fine?;
      if !ok {
        Fail(tx, false);
      }
    }

    /** SELECT .. FOR UPDATE on one request id. */
    method LockRequest(tx: nat, w: Weather) returns (r: Result<Option<StoredApproval>, StorageError>)
      requires Valid() && tx in db.sessions && db.sessions[tx].phase.Begun? && db.sessions[tx].op.Transition()
      modifies this
      ensures Valid() && old(history) <= history && tx in db.sessions
      ensures var phase := match r
                           case Failure(_) => Ended(Lost)
                           case Success(None) => Ended(Answered(Refused(RequestNotFound)))
                           case Success(Some(a)) => Locked(a);
              db.sessions[tx] == old(db.sessions[tx]).(phase := phase)
      ensures r.Failure? ==>
                || !w.fault.Fine?
                || (db.sessions[tx].op.id in db.locks && db.locks[db.sessions[tx].op.id] != tx)
      ensures Calm(w) && Alone(old(db), tx) ==>
                && r.Success?
                && Still(old(db), db, tx, if r.value.Some? then [] else
                     [Entry(tx, db.sessions[tx].op, db.sessions[tx].Reading(), Refused(RequestNotFound))])
    {
      hide Inv, Reached, Next, Still;
      if Calm(w) && Alone(db, tx) {
        AloneHoldsAllLocks(db, tx);
      }
      Others(tx, w.others);
      if !CanLock(db, tx) || !w.fault.Fine? {
        Fail(tx, false);
        return Failure(Unavailable);
      }
      LockOutcome(db, tx);
      Perform(Event(tx, Lock));
      if db.sessions[tx].phase.Locked? {
        return Success(Some(db.sessions[tx].phase.current));
      }
      return Success(None);
    }

    /** SELECT expires_at <= transaction_timestamp(). */
    method CheckDeadline(tx: nat, w: Weather) returns (r: Result<bool, StorageError>)
      requires Valid() && tx in db.sessions && db.sessions[tx].phase.Locked? && db.sessions[tx].op.Expire?
      requires Precheck(db.sessions[tx].op, db.sessions[tx].phase.current).None?
      modifies this
      ensures Valid() && old(history) <= history && tx in db.sessions
      ensures var current := old(db.sessions[tx].phase.current);
              && db.sessions[tx] ==
                 old(db.sessions[tx]).(phase := if r.Success? then Checked(current, r.value) else Ended(Lost))
              && (r.Success? ==> (r.value <==> current.intent.expiresAt <= db.sessions[tx].began))
      ensures r.Success? <==> w.fault.Fine?
      ensures Calm(w) && Alone(old(db), tx) ==> r.Success? && Still(old(db), db, tx, [])
    {
      hide Inv, Reached, Next, Still;
      Others(tx, w.others);
      if !w.fault.Fine? {
        Fail(tx, false);
        return Failure(Unavailable);
      }
      CheckDueOutcome(db, tx);
      Perform(Event(tx, CheckDue));
      r := Success(db.sessions[tx].phase.due);
    }

    /** The call returns a domain failure; dropping the transaction rolls it back. */
    method Rollback(tx: nat, failure: DomainFailure) returns (r: Result<Reply, StorageError>)
      requires Valid() && tx in db.sessions && CanRefuse(db.sessions[tx], failure)
      modifies this
      ensures Valid() && old(history) <= history && tx in db.sessions && r == Success(Refused(failure))
      ensures db.sessions[tx] == old(db.sessions[tx]).(phase := Ended(Answered(Refused(failure))))
      ensures Alone(old(db), tx) ==>
                Still(old(db), db, tx, [Entry(tx, db.sessions[tx].op, db.sessions[tx].Reading(), Refused(failure))])
    {
      hide Inv, Reached, Next, Still;
      RefuseOutcome(db, tx, failure);
      Perform(Event(tx, Refuse(failure)));
      r := Success(Refused(failure));
    }

    /** UPDATE .. RETURNING, and decoding the row. */
    method UpdateRow(tx: nat, w: Weather) returns (r: Result<StoredApproval, StorageError>)
      requires Valid() && tx in db.sessions
      requires MayUpdate(db.sessions[tx])
      modifies this
      ensures Valid() && old(history) <= history && tx in db.sessions
      ensures db.sessions[tx].op == old(db.sessions[tx].op) && db.sessions[tx].began == old(db.sessions[tx].began)
      ensures r.Success? <==> w.fault.Fine?
      ensures match r
              case Failure(_) => db.sessions[tx].phase == Ended(Lost)
              case Success(a) =>
                && db.sessions[tx].phase.Written? && Held(db.sessions[tx].phase.image) == a
                && a == Intended(old(db.sessions[tx]))
      ensures Calm(w) && Alone(old(db), tx) ==> r.Success? && Still(old(db), db, tx, [])
    {
      hide Inv, Reached, Next, Still;
      Others(tx, w.others);
      if !w.fault.Fine? {
        Fail(tx, false);
        return Failure(Unavailable);
      }
      UpdateOutcome(db, tx);
      Perform(Event(tx, Update));
      r := Success(Held(db.sessions[tx].phase.image));
    }

    /** COMMIT: on an error it may have taken effect or not. */
    method CommitWork(tx: nat, w: Weather) returns (ok: bool)
      requires Valid() && tx in db.sessions && CanCommit(db.sessions[tx])
      modifies this
      ensures Valid() && old(history) <= history && tx in db.sessions
      ensures db.sessions[tx] ==
              old(db.sessions[tx]).(phase := Ended(if ok then Answered(CommitReply(old(db.sessions[tx]))) else Lost))
      ensures ok <==> w.fault.Fine?
      ensures Calm(w) && Alone(old(db), tx) ==>
                && ok
                && Still(old(db), db, tx,
                         [Entry(tx, db.sessions[tx].op, db.sessions[tx].Reading(), CommitReply(old(db.sessions[tx])))])
    {
      hide Inv, Reached, Next, Still, CommitReply;
      Others(tx, w.others);
      ok := w.fault.Fine?;
      if ok {
        CommitOutcome(db, tx);
        Perform(Event(tx, Commit(true)));
      } else {
        Fail(tx, w.fault.FailsAfter?);
      }
    }

    /** The write of a transition and its commit. */
    method UpdateAndCommit(tx: nat, update: Weather, commit: Weather) returns (r: Result<Reply, StorageError>)
      requires Valid() && tx in db.sessions && MayUpdate(db.sessions[tx])
      modifies this
      ensures Valid() && old(history) <= history && tx in db.sessions
      ensures r.Success? ==> r.value == Changed(Intended(old(db.sessions[tx])))
      ensures r.Success? <==> update.fault.Fine? && commit.fault.Fine?
      ensures db.sessions[tx] == old(db.sessions[tx]).(phase := Ended(if r.Success? then Answered(r.value) else Lost))
      ensures Calm(update) && Calm(commit) && Alone(old(db), tx) ==>
                && r.Success?
                && Still(old(db), db, tx, [Entry(tx, db.sessions[tx].op, db.sessions[tx].Reading(), r.value)])
    {
      hide Inv, Reached, Held, Intended, Resolve, Alone;
      var updated := UpdateRow(tx, update);
      if updated.Failure? {
        return Failure(updated.error);
      }
      var ok := CommitWork(tx, commit);
      r := if ok then Success(Changed(updated.value)) else Failure(Unavailable);
    }

    method Decide(tx: nat, now: Instant, id: string, decision: ApprovalStatus, caller: string, actor: string,
                  evidence: string, note: Option<string>, env: nat -> Weather)
      returns (r: Result<Reply, StorageError>)
      requires Valid() && tx !in db.sessions && Sane(now) && (decision == Approved || decision == Rejected)
      modifies this
      ensures Valid() && old(history) <= history
      ensures Returns(db, tx, Op.Decide(id, decision, caller, actor, evidence, note), now, r)
      ensures r.Success? ==>
                TookEffect(old(db), db, tx, Op.Decide(id, decision, caller, actor, evidence, note), now, r.value)
      ensures r.Failure? ==> Faulty(env) || (id in db.locks && db.locks[id] != tx)
      ensures (forall k :: Calm(env(k))) && Alone(old(db), tx) ==>
                ServedAlone(old(db), db, tx, Op.Decide(id, decision, caller, actor, evidence, note), now, r)
    {
      hide Inv, Reached, Held, Resolve, Terminated, TookEffect, ServedAlone;
      var op := Op.Decide(id, decision, caller, actor, evidence, note);
      var ok := Begin(tx, op, now, env(0));
      if !ok {
        return Failure(Unavailable);
      }
      var locked := LockRequest(tx, env(1));
      match locked {
        case Failure(error) => return Failure(error);
        case Success(None) => r := Success(Refused(RequestNotFound));
        case Success(Some(current)) =>
          if current.status != Pending {
            r := Rollback(tx, AlreadyTerminal);
          } else {
            r := UpdateAndCommit(tx, env(2), env(3));
          }
      }
      CallEnds(old(history), history, tx, op, now, r);
    }

    method Cancel(tx: nat, now: Instant, id: string, caller: string, actor: string, note: Option<string>,
                  env: nat -> Weather)
      returns (r: Result<Reply, StorageError>)
      requires Valid() && tx !in db.sessions && Sane(now)
      modifies this
      ensures Valid() && old(history) <= history && Returns(db, tx, Op.Cancel(id, caller, actor, note), now, r)
      ensures r.Success? ==> TookEffect(old(db), db, tx, Op.Cancel(id, caller, actor, note), now, r.value)
      ensures r.Failure? ==> Faulty(env) || (id in db.locks && db.locks[id] != tx)
      ensures (forall k :: Calm(env(k))) && Alone(old(db), tx) ==>
                ServedAlone(old(db), db, tx, Op.Cancel(id, caller, actor, note), now, r)
    {
      hide Inv, Reached, Held, Resolve, Terminated, TookEffect, ServedAlone;
      var op := Op.Cancel(id, caller, actor, note);
      var ok := Begin(tx, op, now, env(0));
      if !ok {
        return Failure(Unavailable);
      }
      var locked := LockRequest(tx, env(1));
      match locked {
        case Failure(error) => return Failure(error);
        case Success(None) => r := Success(Refused(RequestNotFound));
        case Success(Some(current)) =>
          if current.intent.requesterInstance != caller {
            r := Rollback(tx, NotRequester);
          } else if current.status != Pending {
            r := Rollback(tx, AlreadyTerminal);
          } else {
            r := UpdateAndCommit(tx, env(2), env(3));
          }
      }
      CallEnds(old(history), history, tx, op, now, r);
    }

    /** The deadline test of an expiry, and its write. */
    method ExpirePending(tx: nat, test: Weather, update: Weather, commit: Weather)
      returns (r: Result<Reply, StorageError>)
      requires Valid() && tx in db.sessions && db.sessions[tx].phase.Locked? && db.sessions[tx].op.Expire?
      requires Precheck(db.sessions[tx].op, db.sessions[tx].phase.current).None?
      modifies this
      ensures Valid() && old(history) <= history && tx in db.sessions
      ensures db.sessions[tx] == old(db.sessions[tx]).(phase := Ended(if r.Success? then Answered(r.value) else Lost))
      ensures r.Success? ==>
                (r.value.Refused? <==> db.sessions[tx].began < old(db.sessions[tx].phase.current).intent.expiresAt)
      ensures r.Failure? ==> !test.fault.Fine? || !update.fault.Fine? || !commit.fault.Fine?
      ensures Calm(test) && Calm(update) && Calm(commit) && Alone(old(db), tx) ==>
                && r.Success?
                && Still(old(db), db, tx, [Entry(tx, db.sessions[tx].op, db.sessions[tx].Reading(), r.value)])
    {
      hide Inv, Reached, Held, Intended, Resolve, Alone;
      var due := CheckDeadline(tx, test);
      if due.Failure? {
        return Failure(due.error);
      }
      if !due.value {
        r := Rollback(tx, NotDue);
      } else {
        r := UpdateAndCommit(tx, update, commit);
      }
    }

    method Expire(tx: nat, now: Instant, id: string, caller: string, env: nat -> Weather)
      returns (r: Result<Reply, StorageError>)
      requires Valid() && tx !in db.sessions && Sane(now)
      modifies this
      ensures Valid() && old(history) <= history && Returns(db, tx, Op.Expire(id, caller), now, r)
      ensures r.Success? ==> TookEffect(old(db), db, tx, Op.Expire(id, caller), now, r.value)
      ensures r.Failure? ==> Faulty(env) || (id in db.locks && db.locks[id] != tx)
      ensures (forall k :: Calm(env(k))) && Alone(old(db), tx) ==>
                ServedAlone(old(db), db, tx, Op.Expire(id, caller), now, r)
    {
      hide Inv, Reached, Held, Resolve, Terminated, TookEffect, ServedAlone;
      var op := Op.Expire(id, caller);
      var ok := Begin(tx, op, now, env(0));
      if !ok {
        return Failure(Unavailable);
      }
      var locked := LockRequest(tx, env(1));
      match locked {
        case Failure(error) => return Failure(error);
        case Success(None) => r := Success(Refused(RequestNotFound));
        case Success(Some(current)) =>
          if current.status != Pending {
            r := Rollback(tx, AlreadyTerminal);
          } else {
            r := ExpirePending(tx, env(2), env(3), env(4));
          }
      }
      CallEnds(old(history), history, tx, op, now, r);
    }

    /** INSERT .. ON CONFLICT DO NOTHING RETURNING. */
    method InsertRow(tx: nat, w: Weather) returns (r: Result<Option<StoredApproval>, StorageError>)
      requires Valid() && tx in db.sessions && db.sessions[tx].phase.Begun? && db.sessions[tx].op.Request?
      modifies this
      ensures Valid() && old(history) <= history && tx in db.sessions
      ensures var draft := NewRow(old(db.sessions[tx].op).intent);
              var phase := match r
                           case Failure(_) => Ended(Lost)
                           case Success(None) => Conflicted
                           case Success(Some(a)) => Inserted(draft);
              && db.sessions[tx] == old(db.sessions[tx]).(phase := phase)
              && (r.Success? && r.value.Some? ==> r.value.value == Held(draft))
      ensures r.Failure? ==> !w.fault.Fine? || InsertedMeanwhile(db, tx, db.sessions[tx].op.intent)
      ensures Calm(w) && Alone(old(db), tx) ==> r.Success? && Still(old(db), db, tx, [])
    {
      hide Inv, Reached, Next, Still, Held;
      if Calm(w) && Alone(db, tx) {
        AloneHoldsAllLocks(db, tx);
      }
      Others(tx, w.others);
      if !CanInsert(db, tx) || !w.fault.Fine? {
        InsertWaits(db, tx);
        Fail(tx, false);
        return Failure(Unavailable);
      }
      InsertOutcome(db, tx);
      Perform(Event(tx, Insert));
      r := Success(if db.sessions[tx].phase.Inserted? then Some(Held(db.sessions[tx].phase.draft)) else None);
    }

    /** SELECT .. WHERE both keys .. FOR UPDATE: the rows are locked one after another. */
    method LockMatching(tx: nat, env: nat -> Weather) returns (r: Result<seq<PgRow>, StorageError>)
      requires Valid() && tx in db.sessions && db.sessions[tx].phase.Conflicted? && db.sessions[tx].op.Request?
      modifies this
      ensures Valid() && old(history) <= history && tx in db.sessions
      ensures db.sessions[tx] ==
              old(db.sessions[tx]).(phase := if r.Success? then Gathering({}, r.value) else Ended(Lost))
      ensures r.Success? ==> r.value != []
      ensures r.Failure? ==> Faulty(env) || MatchLocked(db, tx, db.sessions[tx].op.intent)
      ensures (forall k :: Calm(env(k))) && Alone(old(db), tx) ==> r.Success? && Still(old(db), db, tx, [])
    {
      hide Inv, Reached, Next;
      Others(tx, env(0).others);
      if !env(0).fault.Fine? {
        Fail(tx, false);
        return Failure(Unavailable);
      }
      GatherOutcome(db, tx);
      Perform(Event(tx, Gather));
      var wanted, got, k := db.sessions[tx].phase.wanted, [], 0;
      while wanted != {}
        invariant Valid() && old(history) <= history && tx in db.sessions
        invariant db.sessions[tx] == old(db.sessions[tx]).(phase := Gathering(wanted, got))
        invariant (forall k :: Calm(env(k))) && Alone(old(db), tx) ==> Still(old(db), db, tx, [])
        decreases wanted
      {
        k := k + 1;
        Others(tx, env(k).others);
        var id :| id in wanted;
        if Calm(env(k)) && Alone(db, tx) {
          AloneHoldsAllLocks(db, tx);
        }
        WantedRowExists(db, tx, id);
        if LockedByOther(db, tx, id) || !env(k).fault.Fine? {
          Fail(tx, false);
          return Failure(Unavailable);
        }
        LockOneOutcome(db, tx, id);
        got := got + [db.rows[id]];
        Perform(Event(tx, LockOne(id)));
        wanted := wanted - {id};
      }
      GatheredIsNotEmpty(db, tx);
      r := Success(got);
    }

    /** The locked lookup of the rows in the way, and what is made of them. */
    method ResolveConflict(tx: nat, env: nat -> Weather) returns (r: Result<Reply, StorageError>)
      requires Valid() && tx in db.sessions && db.sessions[tx].phase.Conflicted? && db.sessions[tx].op.Request?
      modifies this
      ensures Valid() && old(history) <= history && tx in db.sessions
      ensures db.sessions[tx] == old(db.sessions[tx]).(phase := Ended(if r.Success? then Answered(r.value) else Lost))
      ensures r.Success? ==>
                if r.value.Resolved? then !r.value.created && SameIntent(r.value.approval, db.sessions[tx].op.intent)
                else r.value == Refused(IdempotencyConflict)
      ensures r.Failure? ==> Faulty(env) || MatchLocked(db, tx, db.sessions[tx].op.intent)
      ensures (forall k :: Calm(env(k))) && Alone(old(db), tx) ==>
                && r.Success?
                && Still(old(db), db, tx, [Entry(tx, db.sessions[tx].op, db.sessions[tx].Reading(), r.value)])
    {
      hide Inv, Reached, Held, Alone, Decode;
      var found := LockMatching(tx, (k: nat) => env(k + 3));
      if found.Failure? {
        return Failure(found.error);
      }
      // The lookup never comes back empty, so the count is one or a conflict.
      var rows := found.value;
      if |rows| != 1 {
        r := Rollback(tx, IdempotencyConflict);
      } else {
        GatheredRowDecodes(db, tx);
        var approval := Decode(rows[0]).value;
        if !SameIntent(approval, db.sessions[tx].op.intent) {
          r := Rollback(tx, IdempotencyConflict);
        } else {
          var ok := CommitWork(tx, env(2));
          r := if ok then Success(Resolved(false, approval)) else Failure(Unavailable);
        }
      }
    }

    method Request(tx: nat, now: Instant, intent: RequestIntent, env: nat -> Weather)
      returns (r: Result<Reply, StorageError>)
      requires Valid() && tx !in db.sessions && Sane(now) && Ready(Op.Request(intent))
      modifies this
      ensures Valid() && old(history) <= history && Returns(db, tx, Op.Request(intent), now, r)
      ensures r.Success? ==> TookEffect(old(db), db, tx, Op.Request(intent), now, r.value)
      ensures r.Failure? ==> Faulty(env) || InsertedMeanwhile(db, tx, intent) || MatchLocked(db, tx, intent)
      ensures (forall k :: Calm(env(k))) && Alone(old(db), tx) ==>
                ServedAlone(old(db), db, tx, Op.Request(intent), now, r)
    {
      hide Inv, Reached, Held, Decode, Accepted, TookEffect, ServedAlone;
      var op := Op.Request(intent);
      var ok := Begin(tx, op, now, env(0));
      if !ok {
        return Failure(Unavailable);
      }
      var inserted := InsertRow(tx, env(1));
      match inserted {
        case Failure(error) => return Failure(error);
        case Success(Some(approval)) =>
          ok := CommitWork(tx, env(2));
          r := if ok then Success(Resolved(true, approval)) else Failure(Unavailable);
        case Success(None) =>
          r := ResolveConflict(tx, env);
      }
      CallEnds(old(history), history, tx, op, now, r);
    }

    method Read(tx: nat, now: Instant, id: string, requester: Option<string>, env: nat -> Weather)
      returns (r: Result<Reply, StorageError>)
      requires Valid() && tx !in db.sessions && Sane(now)
      modifies this
      ensures Valid() && old(history) <= history && Returns(db, tx, Op.Read(id, requester), now, r)
      ensures r.Success? ==> TookEffect(old(db), db, tx, Op.Read(id, requester), now, r.value)
      ensures r.Failure? ==> Faulty(env)
      ensures (forall k :: Calm(env(k))) && Alone(old(db), tx) ==>
                ServedAlone(old(db), db, tx, Op.Read(id, requester), now, r)
    {
      hide Inv, Reached, Next, Held, TookEffect, ServedAlone;
      var op := Op.Read(id, requester);
      var ok := Begin(tx, op, now, env(0));
      if !ok {
        return Failure(Unavailable);
      }
      Others(tx, env(1).others);
      if !env(1).fault.Fine? {
        Fail(tx, false);
        return Failure(Unavailable);
      }
      SelectOutcome(db, tx);
      Perform(Event(tx, Select));
      r := Success(db.sessions[tx].phase.outcome.reply);
      CallEnds(old(history), history, tx, op, now, r);
    }
  }
}
