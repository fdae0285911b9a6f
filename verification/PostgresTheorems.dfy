/** What holds of every run of the PostgreSQL backend: any number of transactions, any interleaving,
    any losses. */
module PostgresTheorems {
  import opened Wrappers
  import opened Model
  import opened Schema
  import opened Spec
  import opened History
  import opened Conservation
  import opened Postgres
  import opened PostgresProof
  import opened PostgresEvents

  lemma {:induction false} RunKeepsInv(s: Cluster, events: seq<Event>)
    requires Inv(s)
    ensures Inv(Run(s, events))
  {
    if |events| == 0 {
    } else {
      RunKeepsInv(s, events[..|events| - 1]);
      NextKeepsInv(Run(s, events[..|events| - 1]), events[|events| - 1]);
    }
  }

  /** The state a history of events leads to from an empty database. */
  ghost function Reached(events: seq<Event>): Cluster {
    Run(EMPTY, events)
  }

  lemma ReachedInv(events: seq<Event>)
    ensures Inv(Reached(events))
  {
    RunKeepsInv(EMPTY, events);
  }

  /** Linearizability: the log answers every call as the sequential specification does, the
      committed rows are the specification's store, and each transaction's answer is in the log
      exactly once. A refusal or success is never reported by a transaction that is still running,
      and no transaction ever fails through a CHECK, undecodable evidence or an empty lookup. */
  lemma Linearizable(events: seq<Event>)
    ensures var s := Reached(events);
            && Legal(s.log) && View(s.rows) == After(s.log)
            && (forall i, j :: 0 <= i < j < |s.log| ==> s.log[i].call != s.log[j].call)
            && (forall tx :: tx in s.sessions ==>
                  var ses := s.sessions[tx];
                  && (!ses.phase.Ended? ==> Unlogged(s.log, tx))
                  && !(ses.phase.Ended? && ses.phase.outcome.Broken?)
                  && (ses.phase.Ended? && ses.phase.outcome.Answered? ==>
                        Logged(s.log, Entry(tx, ses.op, Clock(ses.began, ses.began), ses.phase.outcome.reply))))
  {
    ReachedInv(events);
    var s := Reached(events);
    forall tx | tx in s.sessions
      ensures var ses := s.sessions[tx];
              && (!ses.phase.Ended? ==> Unlogged(s.log, tx))
              && !(ses.phase.Ended? && ses.phase.outcome.Broken?)
              && (ses.phase.Ended? && ses.phase.outcome.Answered? ==>
                    Logged(s.log, Entry(tx, ses.op, Clock(ses.began, ses.began), ses.phase.outcome.reply)))
    {
      assert SessionOk(s, tx);
    }
  }

  lemma {:induction false} LogGrowsAlong(events: seq<Event>, n: nat)
    requires n <= |events|
    ensures Reached(events[..n]).log <= Reached(events).log
  {
    hide Next;
    if n == |events| {
      assert events[..n] == events;
    } else {
      var shorter := events[..|events| - 1];
      LogGrowsAlong(shorter, n);
      assert shorter[..n] == events[..n];
      NextTouchesOne(Reached(shorter), events[|events| - 1]);
    }
  }

  lemma LogIsOk(events: seq<Event>)
    ensures LogOk(Reached(events))
  {
    ReachedInv(events);
  }

  /** A call that has ended, told or not, stays as it is and takes no effect any more. */
  lemma {:induction false} EndedIsOver(events: seq<Event>, n: nat, tx: nat)
    requires n <= |events| && tx in Reached(events[..n]).sessions && Reached(events[..n]).sessions[tx].phase.Ended?
    ensures var past, s := Reached(events[..n]), Reached(events);
            && tx in s.sessions && s.sessions[tx] == past.sessions[tx]
            && forall i :: |past.log| <= i < |s.log| ==> s.log[i].call != tx
  {
    hide Next;
    if n == |events| {
      assert events[..n] == events;
    } else {
      var shorter, e := events[..|events| - 1], events[|events| - 1];
      assert shorter[..n] == events[..n];
      EndedIsOver(shorter, n, tx);
      if e.tx == tx {
        EndedIsIdle(Reached(shorter), e);
      } else {
        NextTouchesOne(Reached(shorter), e);
      }
    }
  }

  /** The log respects real time: a call that ended before another began, told or not, comes first if
      both took effect. */
  lemma RealTimeOrder(events: seq<Event>, n: nat, i: nat, j: nat)
    requires n <= |events| && i < |Reached(events).log| && j < |Reached(events).log|
    requires var past := Reached(events[..n]);
             var log := Reached(events).log;
             && log[i].call in past.sessions && past.sessions[log[i].call].phase.Ended?
             && log[j].call !in past.sessions
    ensures i < j
  {
    LogIsOk(events[..n]);
    hide Reached;
    var past, log := Reached(events[..n]), Reached(events).log;
    LogGrowsAlong(events, n);
    EndedIsOver(events, n, log[i].call);
    assert forall k :: 0 <= k < |past.log| ==> past.log[k] == log[k] && past.log[k].call in past.sessions;
  }

  /** The key invariant: while a transaction relies on the row it locked, nobody else owns that row
      and the snapshot is the committed row; an uncommitted update always replaces a pending row. */
  lemma SnapshotIsCommittedRow(events: seq<Event>, tx: nat)
    requires tx in Reached(events).sessions
    requires var p := Reached(events).sessions[tx].phase; p.Locked? || p.Checked? || p.Written?
    ensures var s := Reached(events);
            var ses := s.sessions[tx];
            && ses.op.Transition() && ses.op.id in s.rows && ses.op.id in s.locks && s.locks[ses.op.id] == tx
            && (!ses.phase.Written? ==> Decode(s.rows[ses.op.id]) == Success(ses.phase.current))
            && (ses.phase.Written? ==>
                  && Held(s.rows[ses.op.id]).status == Pending && Accepted(ses.phase.image)
                  && Held(ses.phase.image) == Terminated(Held(s.rows[ses.op.id]), ses.op, ses.began))
  {
    ReachedInv(events);
    var s := Reached(events);
    var ses := s.sessions[tx];
    assert SessionOk(s, tx);
    AcceptedHeld(s.rows[ses.op.id]);
    if ses.phase.Written? {
      UpdatedHolds(s.rows[ses.op.id], ses.op, ses.began);
    }
  }

  ghost predicate AnsweredWith(s: Cluster, tx: nat, reply: Reply) {
    tx in s.sessions && s.sessions[tx].phase == Ended(Answered(reply))
  }

  /** Receipts are sound: an answered call took effect, once, exactly as its answer says. A
      success was committed by this very call, and a refusal changed nothing. */
  lemma ReceiptsAreSound(events: seq<Event>, tx: nat, reply: Reply) returns (i: nat)
    requires AnsweredWith(Reached(events), tx, reply)
    ensures var log := Reached(events).log;
            && i < |log| && log[i].call == tx && log[i].op == Reached(events).sessions[tx].op && log[i].reply == reply
            && EffectOf(After(log[..i]), After(log[..i + 1]), reply)
            && (forall j :: 0 <= j < |log| && j != i ==> log[j].call != tx)
  {
    ReachedInv(events);
    var s := Reached(events);
    var ses := s.sessions[tx];
    assert SessionOk(s, tx);
    i :| 0 <= i < |s.log| && s.log[i] == Entry(tx, ses.op, Clock(ses.began, ses.began), reply);
    EffectAt(s.log, i);
    assert LogOk(s);
  }

  /** The call `tx` took effect with this reply, whether or not its caller was told. */
  ghost predicate Settled(s: Cluster, tx: nat, reply: Reply) {
    exists i :: 0 <= i < |s.log| && s.log[i].call == tx && s.log[i].reply == reply
  }

  /** An answered call took effect with its answer; a call that took effect belongs to its session. */
  lemma AnsweredIsSettled(events: seq<Event>, tx: nat, reply: Reply)
    ensures AnsweredWith(Reached(events), tx, reply) ==> Settled(Reached(events), tx, reply)
    ensures Settled(Reached(events), tx, reply) ==> tx in Reached(events).sessions
  {
    ReachedInv(events);
    assert LogOk(Reached(events));
    hide Reached, Inv;
    if AnsweredWith(Reached(events), tx, reply) {
      var i := ReceiptsAreSound(events, tx, reply);
    }
  }

  lemma SettledAt(events: seq<Event>, tx: nat, reply: Reply) returns (i: nat)
    requires Settled(Reached(events), tx, reply)
    ensures var s := Reached(events);
            i < |s.log| && s.log[i].call == tx && s.log[i].reply == reply
            && tx in s.sessions && s.log[i].op == s.sessions[tx].op
  {
    ReachedInv(events);
    assert LogOk(Reached(events));
    i :| 0 <= i < |Reached(events).log| && Reached(events).log[i].call == tx && Reached(events).log[i].reply == reply;
  }

  /** However many callers race and retry, with or without lost replies, a request has one winner. */
  lemma OneWinner(events: seq<Event>, tx: nat, tx': nat, a: StoredApproval, a': StoredApproval)
    requires Settled(Reached(events), tx, Changed(a)) && Settled(Reached(events), tx', Changed(a'))
    requires tx != tx'
    ensures a.intent.requestId != a'.intent.requestId
  {
    hide Inv, Legal, Reached, AnswersFinally;
    Linearizable(events);
    var i := SettledAt(events, tx, Changed(a));
    var j := SettledAt(events, tx', Changed(a'));
    if i < j {
      FirstTerminalWins(Reached(events).log, i, j);
    } else {
      FirstTerminalWins(Reached(events).log, j, i);
    }
  }

  /** Once a transition has taken effect, told or not, every call begun later is answered from the
      approval it left. */
  lemma WinnerIsFinal(events: seq<Event>, n: nat, tx: nat, tx': nat, a: StoredApproval, reply: Reply)
    requires n <= |events| && Settled(Reached(events[..n]), tx, Changed(a))
    requires tx' !in Reached(events[..n]).sessions && Settled(Reached(events), tx', reply)
    ensures tx' in Reached(events).sessions && AnswersFinally(a, Reached(events).sessions[tx'].op, reply)
  {
    hide Inv, Legal, Reached, AnswersFinally;
    Linearizable(events);
    LogGrowsAlong(events, n);
    LogIsOk(events[..n]);
    var i := SettledAt(events[..n], tx, Changed(a));
    var j := SettledAt(events, tx', reply);
    FirstTerminalWins(Reached(events).log, i, j);
  }

  /** Idempotency under concurrent inserts: of all the requests that share an id or a delivery key,
      in whatever order they ran and whether or not their callers were told, one creates; those that
      differ in nothing but requested_at are replays of its row, and all others are conflicts. */
  lemma OneCreation(events: seq<Event>, tx: nat, tx': nat, a: StoredApproval, reply: Reply)
    requires tx != tx' && Settled(Reached(events), tx, Resolved(true, a)) && Settled(Reached(events), tx', reply)
    requires && tx in Reached(events).sessions && tx' in Reached(events).sessions
             && var op, op' := Reached(events).sessions[tx].op, Reached(events).sessions[tx'].op;
                op.Request? && op'.Request? && Collide(op.intent, op'.intent)
    ensures a.intent == Reached(events).sessions[tx].op.intent
    ensures var intent' := Reached(events).sessions[tx'].op.intent;
            if a.intent.(requestedAt := intent'.requestedAt) == intent' then ReplaysRow(reply, a)
            else reply == Refused(IdempotencyConflict)
  {
    hide Inv, Legal, Reached, EffectOf, ReplaysRow;
    Linearizable(events);
    var i := SettledAt(events, tx, Resolved(true, a));
    var j := SettledAt(events, tx', reply);
    CreationIsUnique(Reached(events).log, i, j);
  }

  /** Committed rows never disappear, never change intent, and are final once terminal. */
  lemma CommittedRowsEvolve(events: seq<Event>, n: nat)
    requires n <= |events|
    ensures Evolves(View(Reached(events[..n]).rows), View(Reached(events).rows))
  {
    ReachedInv(events[..n]);
    ReachedInv(events);
    var log, log' := Reached(events[..n]).log, Reached(events).log;
    LogGrowsAlong(events, n);
    HistoryEvolves(log', |log|, |log'|);
    assert log'[..|log|] == log && log'[..|log'|] == log';
  }

  /** The revisions of the committed rows count creations and transitions. */
  lemma CommittedRevisions(events: seq<Event>)
    ensures var s := Reached(events);
            && Sum(View(s.rows), Revision) == Count(s.log, IsCreation) + Count(s.log, IsTransition)
            && Count(s.log, IsTransition) <= Count(s.log, IsCreation) == |s.rows|
  {
    ReachedInv(events);
    var s := Reached(events);
    RevisionsAreConserved(s.log);
    assert View(s.rows).Keys == s.rows.Keys;
  }

  /** Expiry safety: an expired row was terminated at or after its deadline. */
  lemma ExpiredRowsWereDue(events: seq<Event>, id: string)
    requires id in Reached(events).rows && Held(Reached(events).rows[id]).status == Expired
    ensures var a := Held(Reached(events).rows[id]);
            a.terminalAt.Some? && a.terminalAt.value >= a.intent.expiresAt > a.intent.requestedAt
  {
    ReachedInv(events);
    var s := Reached(events);
    assert forall k :: 0 <= k < |s.log| ==> s.log[k].clock.stamp == s.log[k].clock.due;
    assert After(s.log)[id] == Held(s.rows[id]);
    ExpiredWasDue(s.log, id);
  }
}
