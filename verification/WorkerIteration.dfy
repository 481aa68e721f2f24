/** One pass of the worker loop in src/worker/pool.rs, undisturbed: poll, start, settle the row, then the DAG
    callback. The interleaving of many such passes is the state machine of WorkerPool. */
module WorkerIteration {
  import opened Wrappers
  import opened QueueItems
  import opened QueueSteps
  import opened QueueCoupling
  import opened QueueManagers
  import opened WorkerPool
  import opened WorkerSafety
  import opened CallbackOnce
  import opened CallbackRepeats
  import DagRuns

  // What the executor reports, whatever the job did.
  datatype Attempt = Attempt(timedOut: bool, memoryExceeded: bool, success: bool)

  predicate Succeeded(attempt: Attempt) { !attempt.timedOut && !attempt.memoryExceeded && attempt.success }

  // What the two lookups yield when an attempt fails: the execution's retry count and its job's limit.
  datatype Limits = Limits(retryCount: Option<int>, jobMaxRetries: Option<int>)

  function RetryCount(limits: Limits): int { if limits.retryCount.Some? then limits.retryCount.value else 0 }

  function RetryLimit(limits: Limits, default: int): int {
    if limits.jobMaxRetries.Some? then limits.jobMaxRetries.value else default
  }

  // The row update that the outcome of an attempt leads to.
  function SettleRow(q: Queue, id: ExecId, attempt: Attempt, limits: Limits, default: int, faults: RowFaults): Queue {
    if Succeeded(attempt) then SetStatus(q, id, Completed, faults.getOk, faults.updateOk)
    else FailWithRetry(q, id, RetryCount(limits), RetryLimit(limits, default), faults).0
  }

  // ---- the execution's own record ----

  datatype RecordStatus = Pending | Enqueued | Running | Success | Failed | Timeout | Cancelled

  function AsString(status: RecordStatus): string {
    match status
    case Pending => "pending"
    case Enqueued => "queued"
    case Running => "running"
    case Success => "success"
    case Failed => "failed"
    case Timeout => "timeout"
    case Cancelled => "cancelled"
  }

  type Statuses = map<ExecId, RecordStatus>

  // When a write of the cancel handler lands: before the worker marks the record running, before it reads the record
  // back, between that and its final write, or after that and before the engine reads the record.
  datatype Moment = BeforeStart | BeforeRead | BeforeWrite | AfterWrite

  // What happens to the record during an attempt: whether marking it running succeeds, whether it can be read back,
  // whether the final write succeeds, and when it is cancelled.
  datatype Writes = Writes(runningOk: bool, readOk: bool, finalOk: bool, cancelledAt: set<Moment>)

  function FinalStatus(attempt: Attempt): RecordStatus {
    if attempt.timedOut then Timeout else if Succeeded(attempt) then Success else Failed
  }

  // The worker reads the record back and finds it cancelled.
  predicate SeesCancellation(writes: Writes) { BeforeRead in writes.cancelledAt && writes.readOk }

  function CancelWrite(writes: Writes, moment: Moment): seq<RecordStatus> {
    if moment in writes.cancelledAt then [Cancelled] else []
  }

  // The writes that the record gets from the start of the attempt on, in their order.
  function RecordLog(attempt: Attempt, writes: Writes): (log: seq<RecordStatus>)
    ensures log != []
  {
    [Running] + CancelWrite(writes, BeforeRead) + CancelWrite(writes, BeforeWrite)
    + (if writes.finalOk && !SeesCancellation(writes) then [FinalStatus(attempt)] else [])
    + CancelWrite(writes, AfterWrite)
  }

  // The last write wins.
  function Recorded(statuses: Statuses, id: ExecId, attempt: Attempt, writes: Writes): Statuses {
    var log := RecordLog(attempt, writes);
    statuses[id := log[|log| - 1]]
  }

  // What is left if the attempt cannot start.
  function Unstarted(statuses: Statuses, id: ExecId, writes: Writes): Statuses {
    if BeforeStart in writes.cancelledAt && id in statuses then statuses[id := Cancelled] else statuses
  }

  // The final write of a successful attempt stands: it succeeded, the worker did not see a cancellation before
  // it, and none landed after it.
  predicate SuccessStands(attempt: Attempt, writes: Writes) {
    Succeeded(attempt) && writes.finalOk && !SeesCancellation(writes) && AfterWrite !in writes.cancelledAt
  }

  // A cancellation stands: it landed after the final write, or the worker saw it, or it landed before a final
  // write that failed.
  predicate CancellationStands(writes: Writes) {
    || AfterWrite in writes.cancelledAt || SeesCancellation(writes)
    || (!writes.finalOk && (BeforeRead in writes.cancelledAt || BeforeWrite in writes.cancelledAt))
  }

  // What an attempt leaves in the record, by the moments of the cancellations: a timeout, a success or, in every other
  // case, memory overruns included, a failure; or a cancellation that stands; or `running`, if nothing followed it.
  ghost predicate LeavesRecord(attempt: Attempt, writes: Writes, record: RecordStatus) {
    var final := writes.finalOk && !CancellationStands(writes);
    && (record == Cancelled <==> CancellationStands(writes))
    && (record == Running <==> !writes.finalOk && !CancellationStands(writes))
    && (record == Timeout <==> final && attempt.timedOut)
    && (record == Success <==> final && !attempt.timedOut && !attempt.memoryExceeded && attempt.success)
    && (record == Failed <==> final && !attempt.timedOut && (attempt.memoryExceeded || !attempt.success))
  }

  lemma LastWrite(attempt: Attempt, writes: Writes)
    ensures var log := RecordLog(attempt, writes);
            LeavesRecord(attempt, writes, log[|log| - 1])
  {}

  class Executions {
    var statuses: Statuses

    constructor (statuses: Statuses)
      ensures this.statuses == statuses
    {
      this.statuses := statuses;
    }

    method Write(id: ExecId, status: RecordStatus, ok: bool) returns (r: Result<()>)
      modifies this
      ensures r == if !ok then Err(Database) else if id !in old(statuses) then Err(NotFound) else Ok(())
      ensures statuses == if r.Ok? then old(statuses)[id := status] else old(statuses)
    {
      if !ok {
        return Err(Database);
      }
      if id !in statuses {
        return Err(NotFound);
      }
      statuses := statuses[id := status];
      return Ok(());
    }
  }

  // The cancel handler's write, if it lands at this moment.
  method CancelAt(executions: Executions, id: ExecId, writes: Writes, moment: Moment)
    modifies executions
    ensures executions.statuses == if moment in writes.cancelledAt && id in old(executions.statuses)
                                   then old(executions.statuses)[id := Cancelled] else old(executions.statuses)
  {
    if moment in writes.cancelledAt {
      var _ := executions.Write(id, Cancelled, true);
    }
  }

  // From the start of the attempt on: finalize the record, unless it is read back as cancelled.
  method FinalizeRecord(executions: Executions, id: ExecId, attempt: Attempt, writes: Writes)
    requires id in executions.statuses && executions.statuses[id] == Running
    modifies executions
    ensures executions.statuses == Recorded(old(executions.statuses), id, attempt, writes)
    ensures LeavesRecord(attempt, writes, executions.statuses[id])
  {
    LastWrite(attempt, writes);
    CancelAt(executions, id, writes, BeforeRead);
    var seen := writes.readOk && executions.statuses[id] == Cancelled;
    CancelAt(executions, id, writes, BeforeWrite);
    if !seen {
      var _ := executions.Write(id, FinalStatus(attempt), writes.finalOk);
    }
    CancelAt(executions, id, writes, AfterWrite);
    assert executions.statuses == old(executions.statuses)[id := executions.statuses[id]];
  }

  // The record through one attempt. The cancel handler may write at any moment in between.
  method RecordAttempt(executions: Executions, id: ExecId, attempt: Attempt, writes: Writes) returns (started: bool)
    modifies executions
    ensures started <==> writes.runningOk && id in old(executions.statuses)
    ensures executions.statuses == if started then Recorded(old(executions.statuses), id, attempt, writes)
                                   else Unstarted(old(executions.statuses), id, writes)
    ensures started ==> LeavesRecord(attempt, writes, executions.statuses[id])
    ensures !started ==> forall other :: other in old(executions.statuses) ==>
              executions.statuses[other]
              == if other == id && BeforeStart in writes.cancelledAt then Cancelled else old(executions.statuses)[other]
  {
    CancelAt(executions, id, writes, BeforeStart);
    var marked := executions.Write(id, Running, writes.runningOk);
    if marked.Err? {
      return false;
    }
    FinalizeRecord(executions, id, attempt, writes);
    assert executions.statuses == Recorded(old(executions.statuses), id, attempt, writes);
    return true;
  }

  // ---- a pass ----

  // The queue and the records after a pass, and the execution whose callback fired.
  function Pass(q: Queue, statuses: Statuses, env: DequeueEnv, attempt: Attempt, writes: Writes, limits: Limits,
                default: int, faults: RowFaults)
    : (Queue, Statuses, Option<ExecId>)
  {
    var (taken, r) := Dequeue(q, env);
    if r.Err? || r.value.None? then (taken, statuses, None)
    else
      var id := r.value.value.executionId;
      if !writes.runningOk || id !in statuses
      then (SetStatus(taken, id, RowFailed, faults.getOk, faults.updateOk), Unstarted(statuses, id, writes), None)
      else (SettleRow(taken, id, attempt, limits, default, faults), Recorded(statuses, id, attempt, writes), Some(id))
  }

  method RunOnce(qm: QueueManager, executions: Executions, env: DequeueEnv, attempt: Attempt, writes: Writes,
                 limits: Limits, faults: RowFaults)
    returns (callback: Option<ExecId>, ghost pick: ExecId)
    modifies qm, executions
    ensures PickAllowed(old(qm.Contents()), env.(pick := pick))
    ensures (qm.Contents(), executions.statuses, callback)
         == Pass(old(qm.Contents()), old(executions.statuses), env.(pick := pick), attempt, writes, limits,
                 qm.maxRetries, faults)
  {
    var r;
    r, pick := qm.DequeueItem(env);
    if r.Err? || r.value.None? {
      return None, pick;
    }
    var id := r.value.value.executionId;
    var started := RecordAttempt(executions, id, attempt, writes);
    if !started {
      var _ := qm.MarkRow(id, RowFailed, faults.getOk, faults.updateOk);
      return None, pick;
    }
    if Succeeded(attempt) {
      var _ := qm.MarkRow(id, Completed, faults.getOk, faults.updateOk);
    } else {
      var _ := qm.MarkFailedWithRetry(id, RetryCount(limits), limits.jobMaxRetries, faults);
    }
    callback := Some(id);
  }

  // What a pass that ends with a callback leaves in the records, and what one that cannot start its execution does:
  // the record is at most cancelled, and the row is marked failed, if it is there and the calls succeed.
  lemma PassLeavesRecord(q: Queue, statuses: Statuses, env: DequeueEnv, attempt: Attempt, writes: Writes,
                         limits: Limits, default: int, faults: RowFaults, id: ExecId)
    requires HandsOut(q, env, id)
    ensures var (after, records, callback) := Pass(q, statuses, env, attempt, writes, limits, default, faults);
            && (callback == Some(id) <==> writes.runningOk && id in statuses)
            && (forall other :: other in statuses && other != id ==>
                  other in records && records[other] == statuses[other])
            && (callback == Some(id) ==> id in records && LeavesRecord(attempt, writes, records[id]))
            && (callback != Some(id) ==>
                  && callback == None && records.Keys == statuses.Keys
                  && (id in records ==>
                        records[id] == if BeforeStart in writes.cancelledAt then Cancelled else statuses[id])
                  && (id in after.table && faults.getOk && faults.updateOk ==> after.table[id].status == RowFailed))
  {
    LastWrite(attempt, writes);
  }

  // What the DAG engine makes of the record when the callback fires, by the moments of the cancellations.
  lemma ReportsExactlyWhen(q: Queue, statuses: Statuses, env: DequeueEnv, attempt: Attempt, writes: Writes,
                           limits: Limits, default: int, faults: RowFaults)
    requires Pass(q, statuses, env, attempt, writes, limits, default, faults).2.Some?
    ensures var (_, after, callback) := Pass(q, statuses, env, attempt, writes, limits, default, faults);
            && callback.value in after
            && var outcome := DagRuns.Outcome(AsString(after[callback.value]));
               && (outcome == DagRuns.Success <==> SuccessStands(attempt, writes))
               && (outcome == DagRuns.Cancelled <==> CancellationStands(writes))
               && (outcome == DagRuns.Failed <==> !SuccessStands(attempt, writes) && !CancellationStands(writes))
  {
    LastWrite(attempt, writes);
    var (_, after, callback) := Pass(q, statuses, env, attempt, writes, limits, default, faults);
    OutcomeOf(after[callback.value]);
  }

  // The engine takes everything but a success and a cancellation for a failure.
  lemma OutcomeOf(status: RecordStatus)
    ensures DagRuns.Outcome(AsString(status))
         == match status case Success => DagRuns.Success case Cancelled => DagRuns.Cancelled case _ => DagRuns.Failed
  {
    assert "success"[0] == 's' && "cancelled"[0] == 'c' && "failed"[0] == 'f' && "pending"[0] == 'p';
    assert "timeout"[0] == 't' && "running"[0] == 'r' && "queued"[0] == 'q';
  }

  // ---- a pass is a run of the state machine ----

  function SettleEvent(w: nat, attempt: Attempt, limits: Limits, default: int, faults: RowFaults): Event {
    if Succeeded(attempt) then SettleSuccess(w, faults)
    else SettleFailure(w, RetryCount(limits), RetryLimit(limits, default), faults)
  }

  // Polling, marking running, settling and calling back with nothing in between is the pass of one worker.
  lemma PassIsFourSteps(capacity: nat, s: Sys, w: nat, statuses: Statuses, env: DequeueEnv, attempt: Attempt,
                         writes: Writes, limits: Limits, default: int, faults: RowFaults)
    requires Enabled(s, DequeueCall(w, env)) && statuses.Keys == s.existing
    requires Pass(s.queue, statuses, env, attempt, writes, limits, default, faults).2.Some?
    ensures var (after, _, callback) := Pass(s.queue, statuses, env, attempt, writes, limits, default, faults);
            var settle := SettleEvent(w, attempt, limits, default, faults);
            var taken := Step(capacity, s, DequeueCall(w, env));
            && taken.workers[w] == Picked(callback.value) && Enabled(taken, MarkRunning(w))
            && var started := Step(capacity, taken, MarkRunning(w));
               && started.workers[w] == Started(callback.value)
               && Enabled(started, settle) && Enabled(Step(capacity, started, settle), Callback(w))
               && var last := Step(capacity, Step(capacity, started, settle), Callback(w));
                  last == s.(queue := after, dispatched := s.dispatched + [callback.value],
                       callbacks := s.callbacks + [callback.value])
  {
    var started := Step(capacity, Step(capacity, s, DequeueCall(w, env)), MarkRunning(w));
    var settle := SettleEvent(w, attempt, limits, default, faults);
    var last := Step(capacity, Step(capacity, started, settle), Callback(w));
    assert last.workers == s.workers;
  }

  // The row leaves `processing` before the callback fires: if the row calls succeed, then by that time the row is
  // settled or gone, or a retry was scheduled; and a retry is scheduled only if the attempt failed with attempts left.
  lemma RowSettledBeforeCallback(q: Queue, statuses: Statuses, env: DequeueEnv, attempt: Attempt, writes: Writes,
                                 limits: Limits, default: int)
    requires Pass(q, statuses, env, attempt, writes, limits, default, NO_ROW_FAULTS).2.Some?
    ensures var (after, _, callback) := Pass(q, statuses, env, attempt, writes, limits, default, NO_ROW_FAULTS);
            var succeeded := !attempt.timedOut && !attempt.memoryExceeded && attempt.success;
            var count := if limits.retryCount.Some? then limits.retryCount.value else 0;
            var limit := if limits.jobMaxRetries.Some? then limits.jobMaxRetries.value else default;
            var retried := !succeeded && count < limit;
            var id := callback.value;
            && (id in after.table && !retried ==>
                 after.table[id].status == if succeeded then Completed else DeadLetter)
            && after.pending == (if retried && id in after.table then q.pending + multiset{id} else q.pending)
  {}

  // After a pass the callback of its execution can fire again exactly if its row was not settled for good: a row call
  // failed, or the attempt failed with attempts left. Otherwise another worker or another retry must have been at it.
  lemma PassRepeatsExactlyWhen(capacity: nat, s: Sys, w: nat, statuses: Statuses, env: DequeueEnv, attempt: Attempt,
                               writes: Writes, limits: Limits, default: int, faults: RowFaults, t: Sys, id: ExecId)
    requires Reachable(capacity, s) && Enabled(s, DequeueCall(w, env)) && statuses.Keys == s.existing
    requires Pass(s.queue, statuses, env, attempt, writes, limits, default, faults).2 == Some(id)
    requires t == s.(queue := Pass(s.queue, statuses, env, attempt, writes, limits, default, faults).0,
                     dispatched := s.dispatched + [id], callbacks := s.callbacks + [id])
    ensures var settled := && faults.getOk && faults.updateOk
                           && (Succeeded(attempt) || RetryCount(limits) >= RetryLimit(limits, default));
            CanFire(capacity, t, id, false) <==> !settled || Owed(s, id) || (PushDue(s.queue, id) && capacity > 0)
  {
    var poll, settle := DequeueCall(w, env), SettleEvent(w, attempt, limits, default, faults);
    PassIsFourSteps(capacity, s, w, statuses, env, attempt, writes, limits, default, faults);
    ReachableIsSafe(capacity, s);
    var started := StartedRow(capacity, s, poll, id);
    CallbackRepeatsExactlyWhen(capacity, started, settle, t, id);
  }

  // A reachable dequeue and start leave the row in the table and the execution existing.
  lemma StartedRow(capacity: nat, s: Sys, e: Event, id: ExecId) returns (started: Sys)
    requires Reachable(capacity, s) && Enabled(s, e) && Dispatches(s, e, id)
    requires Enabled(Step(capacity, s, e), MarkRunning(e.worker))
    ensures started == Step(capacity, Step(capacity, s, e), MarkRunning(e.worker)) && Reachable(capacity, started)
    ensures id in started.queue.table && started.queue.pushes == s.queue.pushes && id in started.existing
    ensures Owed(started, id) <==> Owed(s, id)
  {
    ReachableIsSafe(capacity, s);
    DequeueStep(capacity, s, e);
    ReachableStep(capacity, s, e);
    var taken := Step(capacity, s, e);
    TakenRow(capacity, s, e, id);
    ReachableStep(capacity, taken, MarkRunning(e.worker));
    started := Step(capacity, taken, MarkRunning(e.worker));
    forall v ensures OwesCallback(started, v, id) <==> OwesCallback(taken, v, id) {}
  }

  lemma TakenRow(capacity: nat, s: Sys, e: Event, id: ExecId)
    requires SysInvariant(capacity, s) && Enabled(s, e) && Dispatches(s, e, id)
    ensures var t := Step(capacity, s, e);
            id in t.queue.table && t.queue.pushes == s.queue.pushes && (Owed(t, id) <==> Owed(s, id))
  {
    var t := Step(capacity, s, e);
    DequeueKeepsCoupling(s.queue, capacity, e.env);
    forall v ensures OwesCallback(t, v, id) <==> OwesCallback(s, v, id) {
      assert t.workers == s.workers[e.worker := Picked(id)];
    }
  }
}
