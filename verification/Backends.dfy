/** The two backends compared: lock-then-write in PostgreSQL, compare-and-set in D1. */
module Backends {
  import opened Wrappers
  import opened History
  import opened D1Runs
  import Postgres
  import PostgresTheorems
  import PostgresHistories
  import D1Proof

  /** Calls that take effect in the same order with the same clock readings get the same answers
      from both backends and leave the same rows. */
  lemma BackendsAgree(events: seq<Postgres.Event>, invs: seq<Invocation>)
    requires Proper(invs) && SameCalls(PostgresTheorems.Reached(events).log, LogAfter(invs))
    ensures var log, log' := PostgresTheorems.Reached(events).log, LogAfter(invs);
            forall k :: 0 <= k < |log| ==> log[k].reply == log'[k].reply
    ensures Postgres.View(PostgresTheorems.Reached(events).rows) == D1Proof.Abstract(TableAfter(invs))
  {
    hide Legal, After, LogAfter, D1Proof.TableOk, D1Proof.Abstract;
    PostgresTheorems.Linearizable(events);
    RunRefines(invs);
    CallsDetermineAnswers(PostgresTheorems.Reached(events).log, LogAfter(invs));
  }

  /** Whatever PostgreSQL does under any interleaving, D1 does when it serves the same calls one
      after another. */
  lemma D1Mirrors(events: seq<Postgres.Event>)
    ensures var s := PostgresTheorems.Reached(events);
            var invs := ServedIntact(s.log);
            && Proper(invs) && D1Proof.Abstract(TableAfter(invs)) == Postgres.View(s.rows)
            && forall k :: 0 <= k < |s.log| ==> ResultAt(invs, k) == Success(s.log[k].reply)
  {
    hide Legal, After, LogAfter, ServedIntact, D1Proof.TableOk, D1Proof.Abstract, ResultAt;
    var log := PostgresTheorems.Reached(events).log;
    PostgresTheorems.Linearizable(events);
    ServedIntactRefines(log);
    RunRefines(ServedIntact(log));
    forall k | 0 <= k < |log|
      ensures ResultAt(ServedIntact(log), k) == Success(log[k].reply)
    {
      ServedIntactAnswers(log, k);
    }
  }

  /** Whatever D1 does, with any losses, PostgreSQL can do, provided each call is stamped with the
      reading it compares. */
  lemma PostgresMirrors(invs: seq<Invocation>) returns (events: seq<Postgres.Event>)
    requires Proper(invs) && PostgresHistories.SingleReadings(LogAfter(invs))
    ensures var s := PostgresTheorems.Reached(events);
            s.log == LogAfter(invs) && Postgres.View(s.rows) == D1Proof.Abstract(TableAfter(invs))
  {
    hide Legal, After, LogAfter, PostgresHistories.SingleReadings, D1Proof.TableOk, D1Proof.Abstract;
    RunRefines(invs);
    events := PostgresHistories.EveryHistoryHappens(LogAfter(invs));
    PostgresTheorems.Linearizable(events);
  }
}
