/** Conservation: revisions and pending rows count creations and committed transitions. */
module Conservation {
  import opened Model
  import opened Spec
  import opened History

  ghost function Sum(s: Store, weight: StoredApproval -> int): int {
    if s == map[] then 0
    else
      var id :| id in s;
      weight(s[id]) + Sum(s - {id}, weight)
  }

  lemma {:induction false} SumSplit(s: Store, weight: StoredApproval -> int, id: string)
    requires id in s
    ensures Sum(s, weight) == weight(s[id]) + Sum(s - {id}, weight)
    decreases |s|
  {
    var pick :| pick in s && Sum(s, weight) == weight(s[pick]) + Sum(s - {pick}, weight);
    if pick != id {
      SumSplit(s - {pick}, weight, id);
      SumSplit(s - {id}, weight, pick);
      assert s - {pick} - {id} == s - {id} - {pick};
    }
  }

  lemma SumUpdate(s: Store, weight: StoredApproval -> int, id: string, a: StoredApproval)
    ensures Sum(s[id := a], weight) == Sum(s, weight) + weight(a) - if id in s then weight(s[id]) else 0
  {
    SumSplit(s[id := a], weight, id);
    if id in s {
      SumSplit(s, weight, id);
      assert s[id := a] - {id} == s - {id};
    } else {
      assert s[id := a] - {id} == s;
    }
  }

  lemma {:induction false} SumNonNegative(s: Store, weight: StoredApproval -> int)
    requires forall a :: weight(a) >= 0
    ensures Sum(s, weight) >= 0
    decreases |s|
  {
    if s == map[] {
    } else {
      var id :| id in s && Sum(s, weight) == weight(s[id]) + Sum(s - {id}, weight);
      SumNonNegative(s - {id}, weight);
    }
  }

  ghost function Revision(a: StoredApproval): int {
    a.revision
  }

  ghost function IsPending(a: StoredApproval): int {
    if a.status == Pending then 1 else 0
  }

  ghost function Count(log: Log, counts: Reply -> bool): nat {
    if |log| == 0 then 0
    else Count(log[..|log| - 1], counts) + if counts(log[|log| - 1].reply) then 1 else 0
  }

  ghost predicate IsCreation(r: Reply) {
    r.Resolved? && r.created
  }

  ghost predicate IsTransition(r: Reply) {
    r.Changed?
  }

  /** What one reply adds to the revisions, the pending rows and the rows. */
  lemma EffectOnSums(s: Store, s': Store, reply: Reply)
    requires Valid(s) && Valid(s') && EffectOf(s, s', reply)
    ensures Sum(s', Revision) ==
            Sum(s, Revision) + (if IsCreation(reply) then 1 else 0) + (if IsTransition(reply) then 1 else 0)
    ensures Sum(s', IsPending) ==
            Sum(s, IsPending) + (if IsCreation(reply) then 1 else 0) - (if IsTransition(reply) then 1 else 0)
    ensures |s'| == |s| + if IsCreation(reply) then 1 else 0
  {
    if IsCreation(reply) || IsTransition(reply) {
      var a := reply.approval;
      var id := a.intent.requestId;
      assert id in s' && s'[id] == a && EvidenceValid(a);
      SumUpdate(s, Revision, id, a);
      SumUpdate(s, IsPending, id, a);
    }
  }

  /** In every reachable state the revisions add up to creations plus accepted transitions, and
      the pending rows are the creations no transition has consumed; so among any number of
      racing attempts n creations admit at most n transitions. */
  lemma {:induction false} RevisionsAreConserved(log: Log)
    requires Legal(log)
    ensures Sum(After(log), Revision) == Count(log, IsCreation) + Count(log, IsTransition)
    ensures Sum(After(log), IsPending) == Count(log, IsCreation) - Count(log, IsTransition)
    ensures |After(log)| == Count(log, IsCreation)
    ensures Count(log, IsTransition) <= Count(log, IsCreation)
  {
    if |log| == 0 {
    } else {
      var n := |log| - 1;
      RevisionsAreConserved(log[..n]);
      assert log[..n + 1] == log;
      EffectAt(log, n);
      AfterIsValid(log[..n]);
      AfterIsValid(log);
      EffectOnSums(After(log[..n]), After(log), log[n].reply);
    }
    SumNonNegative(After(log), IsPending);
  }
}
