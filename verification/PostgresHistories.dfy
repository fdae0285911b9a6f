/** The histories of the PostgreSQL backend are exactly the legal ones in which every call reads
    its clock once: nothing else happens, and every one of them does. */
module PostgresHistories {
  import opened Instants
  import opened Model
  import opened Spec
  import opened History
  import opened Postgres
  import opened PostgresProof
  import opened PostgresEvents
  import opened PostgresTheorems
  import opened PostgresSteps

  /** Each call answered once, with one clock reading. */
  ghost predicate SingleReadings(log: Log) {
    && (forall i, j :: 0 <= i < j < |log| ==> log[i].call != log[j].call)
    && (forall i :: 0 <= i < |log| ==> log[i].clock.stamp == log[i].clock.due)
  }

  lemma {:induction false} RunConcat(s: Cluster, a: seq<Event>, b: seq<Event>)
    ensures Run(s, a + b) == Run(Run(s, a), b)
  {
    if |b| == 0 {
      assert a + b == a;
    } else {
      RunConcat(s, a, b[..|b| - 1]);
      assert (a + b)[..|a + b| - 1] == a + b[..|b| - 1];
    }
  }

  lemma RunOne(s: Cluster, e: Event)
    ensures Run(s, [e]) == Next(s, e)
  {
    assert [e][..0] == [];
  }

  /** `events` take a call that runs alone to its end, with one answer. */
  ghost predicate Finishes(s: Cluster, events: seq<Event>, tx: nat) {
    var s' := Run(s, events);
    && tx in s.sessions && tx in s'.sessions && s'.sessions[tx].phase.Ended? && s'.sessions.Keys == s.sessions.Keys
    && exists reply :: Still(s, s', tx, [Entry(tx, s.sessions[tx].op, s.sessions[tx].Reading(), reply)])
  }

  ghost predicate InProgress(s: Cluster, tx: nat) {
    Inv(s) && Alone(s, tx) && tx in s.sessions
  }

  /** One statement, and then whatever finishes the call. */
  lemma StepThenFinish(s: Cluster, e: Event, rest: seq<Event>)
    requires InProgress(s, e.tx) && InProgress(Next(s, e), e.tx) && Finishes(Next(s, e), rest, e.tx)
    requires Still(s, Next(s, e), e.tx, [])
    requires Next(s, e).sessions[e.tx].op == s.sessions[e.tx].op
    requires Next(s, e).sessions[e.tx].began == s.sessions[e.tx].began
    ensures Finishes(s, [e] + rest, e.tx)
  {
    hide Inv, Next;
    RunOne(s, e);
    RunConcat(s, [e], rest);
    NextTouchesOne(s, e);
    var s1, s' := Next(s, e), Run(s, [e] + rest);
    var ses := s.sessions[e.tx];
    var reply :| Still(s1, s', e.tx, [Entry(e.tx, ses.op, ses.Reading(), reply)]);
    StillStill(s, s1, s', e.tx, [Entry(e.tx, ses.op, ses.Reading(), reply)]);
  }

  /** A last statement. */
  lemma StepFinishes(s: Cluster, e: Event, reply: Reply)
    requires InProgress(s, e.tx) && e.tx in Next(s, e).sessions && Next(s, e).sessions[e.tx].phase.Ended?
    requires Still(s, Next(s, e), e.tx, [Entry(e.tx, s.sessions[e.tx].op, s.sessions[e.tx].Reading(), reply)])
    ensures Finishes(s, [e], e.tx)
  {
    hide Inv, Next;
    RunOne(s, e);
    NextTouchesOne(s, e);
  }

  lemma CommitFinishes(s: Cluster, tx: nat) returns (events: seq<Event>)
    requires InProgress(s, tx) && CanCommit(s.sessions[tx])
    ensures Finishes(s, events, tx)
  {
    hide Inv, Next, Finishes, CanCommit, Resolve;
    events := [Event(tx, Commit(true))];
    CommitOutcome(s, tx);
    StepFinishes(s, events[0], CommitReply(s.sessions[tx]));
  }

  lemma RefusalFinishes(s: Cluster, tx: nat, failure: DomainFailure) returns (events: seq<Event>)
    requires InProgress(s, tx) && CanRefuse(s.sessions[tx], failure)
    ensures Finishes(s, events, tx)
  {
    hide Inv, Next, Finishes, CanRefuse;
    events := [Event(tx, Refuse(failure))];
    RefuseOutcome(s, tx, failure);
    StepFinishes(s, events[0], Refused(failure));
  }

  lemma UpdateFinishes(s: Cluster, tx: nat) returns (events: seq<Event>)
    requires InProgress(s, tx) && MayUpdate(s.sessions[tx])
    ensures Finishes(s, events, tx)
  {
    hide Inv, Next, Finishes, Still, Precheck, Intended;
    var e := Event(tx, Update);
    UpdateOutcome(s, tx);
    AloneStays(s, Next(s, e), tx, []);
    var rest := CommitFinishes(Next(s, e), tx);
    StepThenFinish(s, e, rest);
    events := [e] + rest;
  }

  lemma AloneStays(s: Cluster, s': Cluster, tx: nat, answers: Log)
    requires Still(s, s', tx, answers)
    ensures Alone(s', tx)
  {
  }

  lemma LockedFinishes(s: Cluster, tx: nat) returns (events: seq<Event>)
    requires InProgress(s, tx) && s.sessions[tx].phase.Locked? && s.sessions[tx].op.Transition()
    ensures Finishes(s, events, tx)
  {
    hide Inv, Next, Finishes, Still, Precheck, Intended;
    var ses := s.sessions[tx];
    var failure := Precheck(ses.op, ses.phase.current);
    if failure.Some? {
      events := RefusalFinishes(s, tx, failure.value);
    } else if !ses.op.Expire? {
      events := UpdateFinishes(s, tx);
    } else {
      var e := Event(tx, CheckDue);
      CheckDueOutcome(s, tx);
      var s1 := Next(s, e);
      AloneStays(s, s1, tx, []);
      var rest;
      if s1.sessions[tx].phase.due {
        rest := UpdateFinishes(s1, tx);
      } else {
        rest := RefusalFinishes(s1, tx, NotDue);
      }
      StepThenFinish(s, e, rest);
      events := [e] + rest;
    }
  }

  lemma TransitionFinishes(s: Cluster, tx: nat) returns (events: seq<Event>)
    requires InProgress(s, tx) && s.sessions[tx].phase.Begun? && s.sessions[tx].op.Transition()
    ensures Finishes(s, events, tx)
  {
    hide Inv, Next, Finishes, Still;
    var e := Event(tx, Lock);
    AloneHoldsAllLocks(s, tx);
    LockOutcome(s, tx);
    if s.sessions[tx].op.id in s.rows {
      AloneStays(s, Next(s, e), tx, []);
      var rest := LockedFinishes(Next(s, e), tx);
      StepThenFinish(s, e, rest);
      events := [e] + rest;
    } else {
      StepFinishes(s, e, Refused(RequestNotFound));
      events := [e];
    }
  }

  lemma {:induction false} GatheringFinishes(s: Cluster, tx: nat) returns (events: seq<Event>)
    requires InProgress(s, tx) && s.sessions[tx].phase.Gathering? && s.sessions[tx].op.Request?
    ensures Finishes(s, events, tx)
    decreases s.sessions[tx].phase.wanted
  {
    hide Inv, Next, Finishes, Still, Resolve;
    var ses := s.sessions[tx];
    if ses.phase.wanted == {} {
      ResolvedLookup(s, tx);
      if CanCommit(ses) {
        events := CommitFinishes(s, tx);
      } else {
        events := RefusalFinishes(s, tx, IdempotencyConflict);
      }
    } else {
      var id :| id in ses.phase.wanted;
      var e := Event(tx, LockOne(id));
      AloneHoldsAllLocks(s, tx);
      WantedRowExists(s, tx, id);
      LockOneOutcome(s, tx, id);
      AloneStays(s, Next(s, e), tx, []);
      var rest := GatheringFinishes(Next(s, e), tx);
      StepThenFinish(s, e, rest);
      events := [e] + rest;
    }
  }

  /** A finished lookup either replays or conflicts. */
  lemma ResolvedLookup(s: Cluster, tx: nat)
    requires Inv(s) && tx in s.sessions && LookedUp(s.sessions[tx])
    ensures CanCommit(s.sessions[tx]) || CanRefuse(s.sessions[tx], IdempotencyConflict)
  {
    hide Inv;
    var r := Resolve(s.sessions[tx].phase.got, s.sessions[tx].op.intent);
    if r.Fault? {
      NeverGivesUp(s, tx, r.error);
    }
  }

  lemma RequestFinishes(s: Cluster, tx: nat) returns (events: seq<Event>)
    requires InProgress(s, tx) && s.sessions[tx].phase.Begun? && s.sessions[tx].op.Request?
    ensures Finishes(s, events, tx)
  {
    hide Inv, Next, Finishes, Still;
    var e, g := Event(tx, Insert), Event(tx, Gather);
    AloneHoldsAllLocks(s, tx);
    InsertOutcome(s, tx);
    var s1 := Next(s, e);
    AloneStays(s, s1, tx, []);
    var rest;
    if s1.sessions[tx].phase.Inserted? {
      rest := CommitFinishes(s1, tx);
    } else {
      GatherOutcome(s1, tx);
      AloneStays(s1, Next(s1, g), tx, []);
      var tail := GatheringFinishes(Next(s1, g), tx);
      StepThenFinish(s1, g, tail);
      rest := [g] + tail;
    }
    StepThenFinish(s, e, rest);
    events := [e] + rest;
  }

  lemma ReadFinishes(s: Cluster, tx: nat) returns (events: seq<Event>)
    requires InProgress(s, tx) && s.sessions[tx].phase.Begun? && s.sessions[tx].op.Read?
    ensures Finishes(s, events, tx)
  {
    hide Inv, Next, Finishes, Still;
    events := [Event(tx, Select)];
    SelectOutcome(s, tx);
    StepFinishes(s, events[0], Next(s, events[0]).sessions[tx].phase.outcome.reply);
  }

  /** A call that runs alone is answered, and as the specification answers it. */
  lemma ServedSerially(s: Cluster, tx: nat, op: Op, now: Instant) returns (events: seq<Event>)
    requires Inv(s) && Alone(s, tx) && tx !in s.sessions && Ready(op) && Sane(now)
    ensures var s' := Run(s, events);
            && Inv(s') && s'.sessions.Keys == s.sessions.Keys + {tx}
            && (forall other :: other in s'.sessions ==> s'.sessions[other].phase.Ended?)
            && s'.log == s.log + [Entry(tx, op, Clock(now, now), Apply(View(s.rows), op, Clock(now, now)).reply)]
  {
    hide Inv, Next, Apply, View;
    var e := Event(tx, Begin(op, now));
    BeginOutcome(s, tx, op, now);
    var s1 := Next(s, e);
    NextTouchesOne(s, e);
    var rest;
    match op {
      case Request(_) => rest := RequestFinishes(s1, tx);
      case Read(_, _) => rest := ReadFinishes(s1, tx);
      case _ => rest := TransitionFinishes(s1, tx);
    }
    events := [e] + rest;
    RunOne(s, e);
    RunConcat(s, [e], rest);
    RunKeepsInv(s, events);
    var s' := Run(s, events);
    var reply :| Still(s1, s', tx, [Entry(tx, op, Clock(now, now), reply)]);
    ReplyIsApplied(s, s', Entry(tx, op, Clock(now, now), reply));
  }

  lemma ReplyIsApplied(s: Cluster, s': Cluster, e: Entry)
    requires Inv(s) && Inv(s') && s'.log == s.log + [e]
    ensures e.reply == Apply(View(s.rows), e.op, e.clock).reply
  {
    LastEntry(s.log, e);
  }

  ghost function Calls(log: Log): set<nat> {
    set i | 0 <= i < |log| :: log[i].call
  }

  lemma CallsGrow(log: Log, e: Entry)
    ensures Calls(log + [e]) == Calls(log) + {e.call}
    ensures SingleReadings(log + [e]) ==>
              SingleReadings(log) && e.call !in Calls(log) && e.clock == Clock(e.clock.stamp, e.clock.stamp)
  {
    var log' := log + [e];
    assert log'[|log|] == e && forall i :: 0 <= i < |log| ==> log'[i] == log[i];
  }

  /** Every legal history with single readings happens. */
  lemma {:induction false} EveryHistoryHappens(log: Log) returns (events: seq<Event>)
    requires Legal(log) && SingleReadings(log)
    ensures var s := Reached(events);
            && s.log == log && s.sessions.Keys == Calls(log)
            && (forall tx :: tx in s.sessions ==> s.sessions[tx].phase.Ended?)
  {
    if |log| == 0 {
      events := [];
    } else {
      var n, last := |log| - 1, log[|log| - 1];
      assert log[..n] + [last] == log;
      CallsGrow(log[..n], last);
      EntryAt(log, n);
      hide Apply, After, Legal, SingleReadings, Calls;
      var before := EveryHistoryHappens(log[..n]);
      var s := Reached(before);
      ReachedInv(before);
      Linearizable(before);
      var tail := ServedSerially(s, last.call, last.op, last.clock.stamp);
      events := before + tail;
      RunConcat(EMPTY, before, tail);
    }
  }

  /** The backend's histories, exactly: it refines the specification and leaves out none of it. */
  lemma HistoriesAreExact(log: Log)
    ensures (exists events :: Reached(events).log == log) <==> Legal(log) && SingleReadings(log)
  {
    if Legal(log) && SingleReadings(log) {
      var events := EveryHistoryHappens(log);
    }
    forall events | Reached(events).log == log
      ensures Legal(log) && SingleReadings(log)
    {
      ReachedInv(events);
      assert LogOk(Reached(events));
    }
  }
}
