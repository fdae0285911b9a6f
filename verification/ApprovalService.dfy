/** The service as code driving a store. */
module ApprovalService {
  import opened Wrappers
  import opened Instants
  import opened Model
  import opened Service
  import opened ServiceTheorems
  import Codec
  import Spec
  import D1
  import D1Proof
  import D1Theorems
  import D1Store

  ghost predicate TrulyAnswered(t: D1.Table, op: Spec.Op, clock: Spec.Clock, d: D1.Delivery, answer: Answer<Response>) {
    && ((ClaimsEffect(answer) <==> D1Theorems.Writes(t, op, clock)) <==> !D1Theorems.HidesCreation(t, op, d))
    && (D1Theorems.HidesCreation(t, op, d) ==> answer == Domain(Codec.IdempotencyConflict))
  }

  /** What a service call does to the table and answers. An inadmissible call never reaches the
      store; an admitted one is served as on the sequential store if its reply arrives, and fails as a
      storage fault if none does or the receipt is rejected. Otherwise a success or refusal is true of
      this call's own effect, unless the receipt hides a creation, which is answered as a conflict. */
  ghost predicate Handled(policy: Policy, t: D1.Table, t': D1.Table, ctx: Context, now: Result<Instant, StorageError>,
                          call: Call, clock: Spec.Clock, d: D1.Delivery, answer: Answer<Response>)
    requires D1Proof.TableOk(t) && D1Proof.TableOk(t')
  {
    var out := Handle(policy, D1Proof.Abstract(t), ctx, now, call, clock);
    if !Admit(policy, ctx, now, call).Ok? then t' == t && answer == out.answer
    else
      var op := Admit(policy, ctx, now, call).value;
      && (if d.NotRun? then t' == t else D1Proof.Abstract(t') == out.store)
      && match d
         case Delivered => answer == out.answer
         case Garbled(receipt) =>
           && (D1Theorems.Rejected(op, receipt) ==> answer.Runtime? && answer.fault.StorageFault?)
           && (D1Theorems.CountIsTrue(t, op, clock, d) && !answer.Runtime? ==> TrulyAnswered(t, op, clock, d, answer))
         case _ => answer.Runtime? && answer.fault.StorageFault?
  }

  predicate WritableNow(now: Result<Instant, StorageError>) {
    now.Success? ==> Writable(now.value)
  }

  /** A storage error is a storage fault, and any other answer keeps the claim of the reply. */
  lemma ResultIsPassedOn(op: Spec.Op, result: Result<Spec.Reply, StorageError>)
    requires result.Success? ==> Spec.Fits(op, result.value)
    ensures result.Failure? ==> Respond(op, result) == Runtime(StorageFault(result.error))
    ensures result.Success? && !Respond(op, result).Runtime? ==>
              && (ClaimsEffect(Respond(op, result)) <==> Spec.ClaimsWrite(result.value))
              && (op.Request? && result.value == Spec.Refused(IdempotencyConflict) ==>
                    Respond(op, result) == Domain(Codec.IdempotencyConflict))
  {
    hide Respond;
    if result.Success? && !Respond(op, result).Runtime? {
      ClaimIsPassedOn(op, result.value);
    } else {
      FailureIsFault(op, result);
    }
  }

  lemma FailureIsFault(op: Spec.Op, result: Result<Spec.Reply, StorageError>)
    requires result.Success? ==> Spec.Fits(op, result.value)
    ensures result.Failure? ==> Respond(op, result) == Runtime(StorageFault(result.error))
  {
  }

  class ApprovalService {
    const policy: Policy
    const store: D1Store.D1Store

    ghost predicate Valid()
      reads store
    {
      store.Valid()
    }

    constructor (policy: Policy, store: D1Store.D1Store)
      requires store.Valid()
      ensures Valid() && this.policy == policy && this.store == store
    {
      this.policy, this.store := policy, store;
    }

    method Request(ctx: Context, now: Result<Instant, StorageError>, call: Call, clock: Spec.Clock, d: D1.Delivery)
      returns (answer: Answer<Response>)
      requires Valid() && call.RequestCall? && WritableNow(now) && Spec.SaneClock(clock)
      modifies store
      ensures Valid() && Handled(policy, old(store.table), store.table, ctx, now, call, clock, d, answer)
    {
      hide D1Proof.TableOk, D1Proof.Abstract, D1Theorems.Writes, D1Theorems.CountIsTrue;
      hide Spec.Apply, Spec.Ready, Respond;
      var admitted := AdmitRequest(policy, ctx, now, call);
      match admitted
      case Domain(error) => answer := Domain(error);
      case Runtime(fault) => answer := Runtime(fault);
      case Ok(op) =>
        AdmittedCallIsReady(policy, ctx, now, call);
        Spec.ApplyFits(D1Proof.Abstract(store.table), op, clock);
        var result := store.Request(op.intent, clock, d);
        ResultIsPassedOn(op, result);
        answer := Respond(op, result);
    }

    method Decide(ctx: Context, call: Call, clock: Spec.Clock, d: D1.Delivery) returns (answer: Answer<Response>)
      requires Valid() && call.DecideCall? && Spec.SaneClock(clock)
      modifies store
      ensures Valid()
      ensures Handled(policy, old(store.table), store.table, ctx, Failure(Unavailable), call, clock, d, answer)
    {
      hide D1Proof.TableOk, D1Proof.Abstract, D1Theorems.Writes, D1Theorems.CountIsTrue;
      hide Spec.Apply, Spec.Ready, Respond;
      var admitted := AdmitDecide(policy, ctx, call);
      match admitted
      case Domain(error) => answer := Domain(error);
      case Runtime(fault) => answer := Runtime(fault);
      case Ok(op) =>
        AdmittedCallIsReady(policy, ctx, Failure(Unavailable), call);
        Spec.ApplyFits(D1Proof.Abstract(store.table), op, clock);
        var result := store.Decide(op.id, op.decision, op.caller, op.actor, op.evidence, op.note, clock, d);
        ResultIsPassedOn(op, result);
        answer := Respond(op, result);
    }

    method Cancel(ctx: Context, call: Call, clock: Spec.Clock, d: D1.Delivery) returns (answer: Answer<Response>)
      requires Valid() && call.CancelCall? && Spec.SaneClock(clock)
      modifies store
      ensures Valid()
      ensures Handled(policy, old(store.table), store.table, ctx, Failure(Unavailable), call, clock, d, answer)
    {
      hide D1Proof.TableOk, D1Proof.Abstract, D1Theorems.Writes, D1Theorems.CountIsTrue;
      hide Spec.Apply, Spec.Ready, Respond;
      var admitted := AdmitCancel(policy, ctx, call);
      match admitted
      case Domain(error) => answer := Domain(error);
      case Runtime(fault) => answer := Runtime(fault);
      case Ok(op) =>
        Spec.ApplyFits(D1Proof.Abstract(store.table), op, clock);
        var result := store.Cancel(op.id, op.caller, op.actor, op.note, clock, d);
        ResultIsPassedOn(op, result);
        answer := Respond(op, result);
    }

    method Expire(ctx: Context, call: Call, clock: Spec.Clock, d: D1.Delivery) returns (answer: Answer<Response>)
      requires Valid() && call.ExpireCall? && Spec.SaneClock(clock)
      modifies store
      ensures Valid()
      ensures Handled(policy, old(store.table), store.table, ctx, Failure(Unavailable), call, clock, d, answer)
    {
      hide D1Proof.TableOk, D1Proof.Abstract, D1Theorems.Writes, D1Theorems.CountIsTrue;
      hide Spec.Apply, Spec.Ready, Respond;
      var admitted := AdmitExpire(policy, ctx, call);
      match admitted
      case Domain(error) => answer := Domain(error);
      case Runtime(fault) => answer := Runtime(fault);
      case Ok(op) =>
        Spec.ApplyFits(D1Proof.Abstract(store.table), op, clock);
        var result := store.Expire(op.id, op.caller, clock, d);
        ResultIsPassedOn(op, result);
        answer := Respond(op, result);
    }

    method Read(ctx: Context, call: Call, clock: Spec.Clock, d: D1.Delivery) returns (answer: Answer<Response>)
      requires Valid() && call.ReadCall? && Spec.SaneClock(clock)
      ensures Handled(policy, store.table, store.table, ctx, Failure(Unavailable), call, clock, d, answer)
    {
      hide D1Proof.TableOk, D1Proof.Abstract, D1Theorems.CountIsTrue;
      hide Spec.Ready, Respond;
      var admitted := AdmitRead(policy, ctx, call);
      match admitted
      case Domain(error) => answer := Domain(error);
      case Runtime(fault) => answer := Runtime(fault);
      case Ok(op) =>
        Spec.ApplyFits(D1Proof.Abstract(store.table), op, clock);
        var result := store.Read(op.id, op.requester, clock, d);
        ResultIsPassedOn(op, result);
        answer := Respond(op, result);
    }
  }
}
