/** The DAG callback fires at most once for an execution that is never retried, across any interleaving of workers,
    crashes and recoveries. */
module CallbackOnce {
  import opened Wrappers
  import opened QueueItems
  import opened QueueSteps
  import opened QueueCoupling
  import opened WorkerPool
  import opened WorkerSafety

  // The row leaves `processing` for good: the row calls succeed, and no retry is granted.
  predicate SettlesRow(e: Event) {
    match e
    case SettleSuccess(_, f) => f.getOk && f.updateOk
    case SettleFailure(_, retryCount, maxRetries, f) => retryCount >= maxRetries && f.getOk && f.updateOk
    case _ => false
  }

  // An attempt ends at this step.
  predicate EndsAttempt(s: Sys, e: Event, id: ExecId) {
    (e.SettleSuccess? || e.SettleFailure?) && IsHolding(s, e.worker) && s.workers[e.worker].id == id
  }

  // Every attempt at id settles its row, unless that is gone, and nobody requeues it from the dead letter queue.
  predicate SettlesForGood(s: Sys, e: Event, id: ExecId) {
    && (EndsAttempt(s, e, id) && id in s.queue.table ==> SettlesRow(e))
    && !(e.DeadLetterRequeue? && e.id == id)
  }

  ghost predicate SettlesForGoodRun(capacity: nat, s: Sys, trace: seq<Event>, id: ExecId)
    requires Possible(capacity, s, trace)
  {
    trace == [] ||
    (SettlesForGoodRun(capacity, s, trace[..|trace| - 1], id)
     && SettlesForGood(After(capacity, s, trace[..|trace| - 1]), trace[|trace| - 1], id))
  }

  predicate OwesCallback(s: Sys, w: int, id: ExecId) { 0 <= w < |s.workers| && s.workers[w] == Settled(id) }

  ghost predicate SingleDebtor(s: Sys, id: ExecId) {
    forall w, v :: OwesCallback(s, w, id) && OwesCallback(s, v, id) ==> w == v
  }

  ghost predicate CalledBackOnce(s: Sys, id: ExecId) {
    forall i, j :: 0 <= i < |s.callbacks| && 0 <= j < |s.callbacks| && s.callbacks[i] == id == s.callbacks[j] ==> i == j
  }

  // The callback of id fired or is due.
  ghost predicate Done(s: Sys, id: ExecId) { id in s.callbacks || exists w :: OwesCallback(s, w, id) }

  // id can never be dispatched again.
  ghost predicate Retired(s: Sys, id: ExecId) {
    && id in s.accepted && id !in s.queue.pending
    && (forall w :: IsHolding(s, w) ==> s.workers[w].id != id)
    && (id in s.queue.table ==> s.queue.table[id].status in {Completed, RowFailed, DeadLetter})
  }

  ghost predicate Once(s: Sys, id: ExecId) {
    && SingleDebtor(s, id) && CalledBackOnce(s, id)
    && (id in s.callbacks ==> forall w :: !OwesCallback(s, w, id))
    && (Done(s, id) ==> Retired(s, id))
  }

  // ---- a retired execution stays retired ----

  // The steps, other than a dequeue, in which workers change phase.
  predicate MovesWorker(e: Event) { IsSettle(e) || e.MarkRunning? || e.Callback? || e.CrashEvent? }

  lemma RetiredThroughDequeue(capacity: nat, s: Sys, e: Event, id: ExecId)
    requires SysInvariant(capacity, s) && Enabled(s, e) && Retired(s, id) && e.DequeueCall?
    ensures Retired(Step(capacity, s, e), id)
    ensures Step(capacity, s, e).callbacks == s.callbacks
    ensures forall w :: OwesCallback(Step(capacity, s, e), w, id) <==> OwesCallback(s, w, id)
  {
    DequeueKeepsCoupling(s.queue, capacity, e.env);
    var t, r := Step(capacity, s, e), Dequeue(s.queue, e.env).1;
    if r.Ok? && r.value.Some? {
      assert t.workers == s.workers[e.worker := Picked(r.value.value.executionId)];
    }
  }

  lemma RetiredThroughQueue(capacity: nat, s: Sys, e: Event, id: ExecId)
    requires SysInvariant(capacity, s) && Enabled(s, e) && SettlesForGood(s, e, id) && Retired(s, id)
    requires !MovesWorker(e)
    ensures Retired(Step(capacity, s, e), id)
    ensures Step(capacity, s, e).callbacks == s.callbacks
    ensures forall w :: OwesCallback(Step(capacity, s, e), w, id) <==> OwesCallback(s, w, id)
  {
    if e.DequeueCall? {
      RetiredThroughDequeue(capacity, s, e, id);
    } else {
      RetiredRowStays(capacity, s, e, id);
    }
  }

  ghost predicate RowKept(s: Sys, t: Sys, id: ExecId) {
    && t.workers == s.workers && t.accepted >= s.accepted && t.callbacks == s.callbacks
    && id !in t.queue.pending
    && (id in t.queue.table ==> id in s.queue.table && t.queue.table[id] == s.queue.table[id])
  }

  lemma RetiredRowStays(capacity: nat, s: Sys, e: Event, id: ExecId)
    requires Enabled(s, e) && SettlesForGood(s, e, id) && Retired(s, id)
    requires !MovesWorker(e) && !e.DequeueCall?
    ensures RowKept(s, Step(capacity, s, e), id)
  {
    if e.EnqueueCall? {
      EnqueueKeepsKnown(s, capacity, e.item, e.now, e.dbOk, id);
    } else if OnlyDrops(e) {
      DropsExactly(capacity, s, e);
    } else if e.RecoverCall? {
      RecoverKeepsSettled(s.queue, capacity, e.recovery, id);
    } else {
      RequeueKeepsOther(capacity, s, e, id);
    }
  }

  lemma RequeueKeepsOther(capacity: nat, s: Sys, e: Event, id: ExecId)
    requires Enabled(s, e) && (e.RetryRequeue? || e.DeadLetterRequeue?) && e.id != id && id !in s.queue.pending
    ensures RowKept(s, Step(capacity, s, e), id)
  {
    if e.RetryRequeue? {
      RetriedKeepsOther(s.queue, e.id, e.dbOk, id);
    } else {
      DeadKeepsOther(s.queue, e.id, e.faults, id);
    }
  }

  lemma RetriedKeepsOther(q: Queue, other: ExecId, dbOk: bool, id: ExecId)
    requires other != id && id !in q.pending
    ensures var next := RequeueRetried(q, other, dbOk);
            id !in next.pending && (id in next.table ==> id in q.table && next.table[id] == q.table[id])
  {}

  lemma DeadKeepsOther(q: Queue, other: ExecId, faults: RowFaults, id: ExecId)
    requires other != id && id !in q.pending
    ensures var next := RequeueDead(q, other, faults).0;
            id !in next.pending && (id in next.table ==> id in q.table && next.table[id] == q.table[id])
  {}

  lemma RecoverKeepsSettled(q: Queue, capacity: nat, env: RecoverEnv, id: ExecId)
    requires ListingAllowed(q, env) && (id in q.table ==> q.table[id].status != Processing)
    ensures var r := Recover(q, capacity, env);
            && r.pending == q.pending && r.pushes == q.pushes && r.table.Keys == q.table.Keys
            && (id in q.table ==> r.table[id] == q.table[id])
  {}

  lemma RetiredThroughSettle(capacity: nat, s: Sys, e: Event, id: ExecId)
    requires SysInvariant(capacity, s) && Enabled(s, e) && Retired(s, id) && IsSettle(e)
    ensures Retired(Step(capacity, s, e), id)
    ensures forall w :: OwesCallback(Step(capacity, s, e), w, id) ==> OwesCallback(s, w, id)
  {
    SettleTouches(capacity, s, e);
    assert s.workers[e.worker].id != id;
  }

  lemma RetiredThroughWorkers(capacity: nat, s: Sys, e: Event, id: ExecId)
    requires SysInvariant(capacity, s) && Enabled(s, e) && Retired(s, id)
    requires MovesWorker(e)
    ensures Retired(Step(capacity, s, e), id)
    ensures forall w :: OwesCallback(Step(capacity, s, e), w, id) ==> OwesCallback(s, w, id)
  {
    if IsSettle(e) {
      RetiredThroughSettle(capacity, s, e, id);
    } else {
      var t := Step(capacity, s, e);
      DropsExactly(capacity, s, e);
      assert forall w :: IsHolding(t, w) ==> IsHolding(s, w) && t.workers[w].id == s.workers[w].id;
    }
  }

  // ---- each step keeps the callback unique ----

  lemma QueueStepKeepsOnce(capacity: nat, s: Sys, e: Event, id: ExecId)
    requires SysInvariant(capacity, s) && Enabled(s, e) && SettlesForGood(s, e, id) && Once(s, id)
    requires !MovesWorker(e)
    ensures Once(Step(capacity, s, e), id)
  {
    var t := Step(capacity, s, e);
    if Done(s, id) {
      RetiredThroughQueue(capacity, s, e, id);
    } else {
      forall w ensures !OwesCallback(t, w, id) {
        assert !OwesCallback(s, w, id);
      }
    }
  }

  lemma SettleStepKeepsOnce(capacity: nat, s: Sys, e: Event, id: ExecId)
    requires SysInvariant(capacity, s) && Enabled(s, e) && SettlesForGood(s, e, id) && Once(s, id)
    requires e.SettleSuccess? || e.SettleFailure?
    ensures Once(Step(capacity, s, e), id)
  {
    var t, w := Step(capacity, s, e), e.worker;
    if s.workers[w].id == id {
      assert !Retired(s, id);
      assert forall v :: !OwesCallback(s, v, id);
      assert forall v :: OwesCallback(t, v, id) && v != w ==> OwesCallback(s, v, id);
      assert forall v :: IsHolding(t, v) ==> IsHolding(s, v) && t.workers[v] == s.workers[v] && v != w;
    } else {
      OtherWorkerStepKeepsOnce(capacity, s, e, id);
    }
  }

  lemma OtherWorkerStepKeepsOnce(capacity: nat, s: Sys, e: Event, id: ExecId)
    requires SysInvariant(capacity, s) && Enabled(s, e) && Once(s, id)
    requires e.MarkRunning? || e.StartFailure? || e.CrashEvent?
             || ((e.SettleSuccess? || e.SettleFailure?) && s.workers[e.worker].id != id)
    ensures Once(Step(capacity, s, e), id)
  {
    var t := Step(capacity, s, e);
    assert t.callbacks == s.callbacks;
    assert forall w :: OwesCallback(t, w, id) ==> OwesCallback(s, w, id);
    if Done(s, id) {
      RetiredThroughWorkers(capacity, s, e, id);
    }
  }

  lemma CallbackStepKeepsOnce(capacity: nat, s: Sys, e: Event, id: ExecId)
    requires SysInvariant(capacity, s) && Enabled(s, e) && Once(s, id) && e.Callback?
    ensures Once(Step(capacity, s, e), id)
  {
    var t, w := Step(capacity, s, e), e.worker;
    assert forall v :: OwesCallback(t, v, id) ==> v != w && OwesCallback(s, v, id);
    if s.workers[w].id == id {
      assert OwesCallback(s, w, id);
      RetiredThroughWorkers(capacity, s, e, id);
    } else if Done(s, id) {
      RetiredThroughWorkers(capacity, s, e, id);
    }
  }

  lemma StepKeepsOnce(capacity: nat, s: Sys, e: Event, id: ExecId)
    requires SysInvariant(capacity, s) && Enabled(s, e) && SettlesForGood(s, e, id) && Once(s, id)
    ensures Once(Step(capacity, s, e), id)
  {
    match e {
      case SettleSuccess(_, _) => SettleStepKeepsOnce(capacity, s, e, id);
      case SettleFailure(_, _, _, _) => SettleStepKeepsOnce(capacity, s, e, id);
      case MarkRunning(_) => OtherWorkerStepKeepsOnce(capacity, s, e, id);
      case StartFailure(_, _) => OtherWorkerStepKeepsOnce(capacity, s, e, id);
      case CrashEvent => OtherWorkerStepKeepsOnce(capacity, s, e, id);
      case Callback(_) => CallbackStepKeepsOnce(capacity, s, e, id);
      case _ => QueueStepKeepsOnce(capacity, s, e, id);
    }
  }

  lemma {:induction false} OnceAlways(capacity: nat, s: Sys, trace: seq<Event>, id: ExecId)
    requires SysInvariant(capacity, s) && Once(s, id)
    requires Possible(capacity, s, trace) && OrderlyRun(capacity, s, trace) && SettlesForGoodRun(capacity, s, trace, id)
    ensures Once(After(capacity, s, trace), id)
  {
    if trace != [] {
      var front, e := trace[..|trace| - 1], trace[|trace| - 1];
      OnceAlways(capacity, s, front, id);
      InvariantAlways(capacity, s, front);
      StepKeepsOnce(capacity, After(capacity, s, front), e, id);
    }
  }

  // A state that an orderly run gets to in which every attempt at id settles for good.
  ghost predicate ReachableWithoutRetry(capacity: nat, s: Sys, id: ExecId) {
    exists rows, workers, trace ::
      Leads(capacity, Booted(rows, workers), trace, s) && SettlesForGoodRun(capacity, Booted(rows, workers), trace, id)
  }

  // At-most-once: over any interleaving, on_execution_complete fires at most once for an execution whose attempts all
  // settle its row for good, because the row leaves `processing` before the callback.
  lemma CallbackFiresAtMostOnce(capacity: nat, s: Sys, id: ExecId)
    requires ReachableWithoutRetry(capacity, s, id)
    ensures forall i, j :: 0 <= i < j < |s.callbacks| ==> s.callbacks[i] != id || s.callbacks[j] != id
  {
    var rows, workers, trace :|
      Leads(capacity, Booted(rows, workers), trace, s) && SettlesForGoodRun(capacity, Booted(rows, workers), trace, id);
    BootedIsSafe(capacity, rows, workers);
    OnceAlways(capacity, Booted(rows, workers), trace, id);
  }
}
