/** The queue with its workers as a state machine (src/worker/pool.rs over src/queue/manager.rs): any interleaving of
    enqueues, dequeues, row updates, DAG callbacks, retries, cancellations, deletions, crashes and recoveries, with any
    database call failing. Each call is one atomic step, except that a retry requeues its row and pushes its item in
    two, because it takes the queue's lock only for the push. */
module WorkerPool {
  import opened Wrappers
  import opened QueueItems
  import opened QueueSteps
  import opened QueueCoupling

  // A worker polls, has picked up the execution it dequeued, has marked its record running, or has settled its
  // row and owes the DAG callback.
  datatype Phase = Idle | Picked(id: ExecId) | Started(id: ExecId) | Settled(id: ExecId)

  // `existing` holds the accepted executions whose record has not been deleted. `accepted`, `dispatched` and
  // `callbacks` record history: the ids ever enqueued, the ids handed to workers, and the ids for which
  // on_execution_complete was called.
  datatype Sys = Sys(queue: Queue, workers: seq<Phase>, accepted: set<ExecId>, existing: set<ExecId>,
                     dispatched: seq<ExecId>, callbacks: seq<ExecId>)

  datatype Event =
    | EnqueueCall(item: QueueItem, now: nat, dbOk: bool)
    | DequeueCall(worker: nat, env: DequeueEnv)
    | MarkRunning(worker: nat)
    | StartFailure(worker: nat, faults: RowFaults)
    | SettleSuccess(worker: nat, faults: RowFaults)
    | SettleFailure(worker: nat, retryCount: int, maxRetries: int, faults: RowFaults)
    | Callback(worker: nat)
    | RemoveCall(id: ExecId, dbOk: bool)
    | RetryRequeue(id: ExecId, dbOk: bool)
    | DeadLetterRequeue(id: ExecId, faults: RowFaults)
    | PushCall(push: Push, catalog: Catalog)
    | CleanupCall(stale: set<ExecId>)
    | DeleteExecutions(ids: set<ExecId>)
    | CrashEvent
    | RecoverCall(recovery: RecoverEnv)

  // The worker has an execution in hand whose row it has not settled.
  predicate IsHolding(s: Sys, w: int) { 0 <= w < |s.workers| && (s.workers[w].Picked? || s.workers[w].Started?) }

  predicate HasStarted(s: Sys, w: int) { 0 <= w < |s.workers| && s.workers[w].Started? }

  predicate AllIdle(s: Sys) { forall w :: 0 <= w < |s.workers| ==> s.workers[w] == Idle }

  // When a step can happen. An execution exists when it is enqueued (its row refers to it), and its id is not
  // enqueued again once its row was removed. Only what exists can be rebuilt or marked running. Recovery runs at
  // startup.
  ghost predicate Enabled(s: Sys, e: Event) {
    match e
    case EnqueueCall(item, _, _) => item.executionId !in s.accepted || item.executionId in s.queue.table
    case DequeueCall(w, env) => w < |s.workers| && s.workers[w] == Idle && PickAllowed(s.queue, env)
                              && env.catalog.Keys <= s.existing
    case MarkRunning(w) => w < |s.workers| && s.workers[w].Picked? && s.workers[w].id in s.existing
    case StartFailure(w, _) => w < |s.workers| && s.workers[w].Picked?
    case SettleSuccess(w, _) => HasStarted(s, w)
    case SettleFailure(w, _, _, _) => HasStarted(s, w)
    case Callback(w) => w < |s.workers| && s.workers[w].Settled?
    case RetryRequeue(id, _) => id in s.queue.pending
    case PushCall(p, catalog) => p in s.queue.pushes && catalog.Keys <= s.existing
    case RecoverCall(env) =>
      && AllIdle(s) && s.queue.heap == [] && s.queue.pending == multiset{} && s.queue.pushes == multiset{}
      && ListingAllowed(s.queue, env) && env.catalog.Keys <= s.existing
    case RemoveCall(_, _) => true
    case DeadLetterRequeue(_, _) => true
    case CleanupCall(_) => true
    case DeleteExecutions(_) => true
    case CrashEvent => true
  }

  function Release(s: Sys, w: nat, queue: Queue, phase: Phase): Sys
    requires w < |s.workers|
  {
    s.(queue := queue, workers := s.workers[w := phase])
  }

  ghost function Step(capacity: nat, s: Sys, e: Event): Sys
    requires Enabled(s, e)
  {
    match e
    case EnqueueCall(item, now, dbOk) =>
      if EnqueueAnswer(s.queue, item, dbOk).Ok?
      then s.(queue := Enqueue(s.queue, capacity, item, now, dbOk), accepted := s.accepted + {item.executionId},
              existing := s.existing + {item.executionId})
      else s
    case DequeueCall(w, env) =>
      var (queue, r) := Dequeue(s.queue, env);
      if r.Ok? && r.value.Some?
      then
        var id := r.value.value.executionId;
        Release(s, w, queue, Picked(id)).(dispatched := s.dispatched + [id])
      else s.(queue := queue)
    case MarkRunning(w) => s.(workers := s.workers[w := Started(s.workers[w].id)])
    case StartFailure(w, f) =>
      Release(s, w, SetStatus(s.queue, s.workers[w].id, RowFailed, f.getOk, f.updateOk), Idle)
    case SettleSuccess(w, f) =>
      Release(s, w, SetStatus(s.queue, s.workers[w].id, Completed, f.getOk, f.updateOk), Settled(s.workers[w].id))
    case SettleFailure(w, retryCount, maxRetries, f) =>
      Release(s, w, FailWithRetry(s.queue, s.workers[w].id, retryCount, maxRetries, f).0, Settled(s.workers[w].id))
    case Callback(w) =>
      s.(workers := s.workers[w := Idle], callbacks := s.callbacks + [s.workers[w].id])
    case RemoveCall(id, dbOk) => s.(queue := Remove(s.queue, id, dbOk))
    case RetryRequeue(id, dbOk) => s.(queue := RequeueRetried(s.queue, id, dbOk))
    case DeadLetterRequeue(id, faults) => s.(queue := RequeueDead(s.queue, id, faults).0)
    case PushCall(p, catalog) => s.(queue := PushRequeued(s.queue, capacity, p, catalog))
    case CleanupCall(stale) => s.(queue := Cleanup(s.queue, stale))
    case DeleteExecutions(ids) => s.(queue := DeleteRows(s.queue, ids), existing := s.existing - ids)
    case CrashEvent => s.(queue := Crash(s.queue), workers := seq(|s.workers|, _ => Idle))
    case RecoverCall(env) => s.(queue := Recover(s.queue, capacity, env))
  }

  // Nothing stops a push whose row was taken or deleted since it was requeued, nor the deletion of an
  // execution that is in memory. Steps that do neither are orderly.
  ghost predicate Orderly(capacity: nat, s: Sys, e: Event) {
    match e
    case PushCall(p, catalog) => Pushes(s.queue, capacity, p, catalog) ==> Awaited(s.queue, p.id)
    case DeleteExecutions(ids) => forall x :: x in s.queue.heap ==> x.executionId !in ids
    case _ => true
  }

  // ---- runs ----

  ghost predicate Possible(capacity: nat, s: Sys, trace: seq<Event>)
    decreases |trace|, 0
  {
    trace == [] ||
    (Possible(capacity, s, trace[..|trace| - 1])
         && Enabled(After(capacity, s, trace[..|trace| - 1]), trace[|trace| - 1]))
  }

  ghost function After(capacity: nat, s: Sys, trace: seq<Event>): Sys
    requires Possible(capacity, s, trace)
    decreases |trace|, 1
  {
    if trace == [] then s else Step(capacity, After(capacity, s, trace[..|trace| - 1]), trace[|trace| - 1])
  }

  ghost predicate OrderlyRun(capacity: nat, s: Sys, trace: seq<Event>)
    requires Possible(capacity, s, trace)
  {
    trace == [] ||
    (OrderlyRun(capacity, s, trace[..|trace| - 1])
     && Orderly(capacity, After(capacity, s, trace[..|trace| - 1]), trace[|trace| - 1]))
  }
}
