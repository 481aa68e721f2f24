/** Safety of the queue with its workers over whole runs: heap and table stay coupled, no execution is lost, none is
    dispatched twice without a reason, and the DAG callback fires at most once where retries are off. */
module WorkerSafety {
  import opened Wrappers
  import opened QueueItems
  import opened QueueSteps
  import opened QueueCoupling
  import opened WorkerPool

  // ---- the invariant ----

  // Taken from the queue and not back in it: if the row still exists, it is processing.
  predicate InFlight(q: Queue, id: ExecId) { id in q.table ==> q.table[id].status == Processing }

  ghost predicate HoldersDistinct(s: Sys) {
    forall w, v :: IsHolding(s, w) && IsHolding(s, v) && s.workers[w].id == s.workers[v].id ==> w == v
  }

  ghost predicate HoldersInFlight(s: Sys) {
    forall w :: IsHolding(s, w) ==>
      s.workers[w].id in s.accepted && s.workers[w].id !in s.queue.pending && InFlight(s.queue, s.workers[w].id)
  }

  ghost predicate PendingInFlight(s: Sys) {
    forall id :: id in s.queue.pending ==> s.queue.pending[id] == 1 && id in s.accepted && InFlight(s.queue, id)
  }

  // A row refers to an execution that exists.
  predicate RowsExist(s: Sys) { s.queue.table.Keys <= s.existing && s.existing <= s.accepted }

  ghost predicate SysInvariant(capacity: nat, s: Sys) {
    && Coupled(s.queue, capacity) && RowsExist(s)
    && HoldersDistinct(s) && HoldersInFlight(s) && PendingInFlight(s)
  }

  // A fresh process over whatever rows an earlier one left.
  function Booted(rows: map<ExecId, Row>, workers: nat): Sys {
    Sys(Queue([], rows, multiset{}, multiset{}), seq(workers, _ => Idle), rows.Keys, rows.Keys, [], [])
  }

  lemma BootedIsSafe(capacity: nat, rows: map<ExecId, Row>, workers: nat)
    ensures SysInvariant(capacity, Booted(rows, workers))
  {}

  // ---- a queue call that disturbs no in-flight row ----

  // No worker changed, no retry was scheduled, and in-flight executions stay in flight.
  ghost predicate Undisturbed(s: Sys, t: Sys) {
    && t.workers == s.workers && t.accepted >= s.accepted && t.queue.pending == s.queue.pending
    && t.dispatched == s.dispatched && t.callbacks == s.callbacks
    && forall id :: id in s.accepted && InFlight(s.queue, id) ==> InFlight(t.queue, id)
  }

  lemma UndisturbedKeepsInvariant(capacity: nat, s: Sys, t: Sys)
    requires SysInvariant(capacity, s) && Undisturbed(s, t)
    requires Coupled(t.queue, capacity) && RowsExist(t)
    ensures SysInvariant(capacity, t)
  {}

  lemma EnqueueStep(capacity: nat, s: Sys, e: Event)
    requires SysInvariant(capacity, s) && e.EnqueueCall? && Enabled(s, e)
    ensures Undisturbed(s, Step(capacity, s, e)) && SysInvariant(capacity, Step(capacity, s, e))
  {
    EnqueueKeepsCoupling(s.queue, capacity, e.item, e.now, e.dbOk);
    UndisturbedKeepsInvariant(capacity, s, Step(capacity, s, e));
  }

  lemma RemoveStep(capacity: nat, s: Sys, e: Event)
    requires SysInvariant(capacity, s) && e.RemoveCall?
    ensures Undisturbed(s, Step(capacity, s, e)) && SysInvariant(capacity, Step(capacity, s, e))
  {
    RemoveKeepsCoupling(s.queue, capacity, e.id, e.dbOk);
    UndisturbedKeepsInvariant(capacity, s, Step(capacity, s, e));
  }

  lemma CleanupStep(capacity: nat, s: Sys, e: Event)
    requires SysInvariant(capacity, s) && e.CleanupCall?
    ensures Undisturbed(s, Step(capacity, s, e)) && SysInvariant(capacity, Step(capacity, s, e))
  {
    CleanupKeepsCoupling(s.queue, capacity, e.stale);
    UndisturbedKeepsInvariant(capacity, s, Step(capacity, s, e));
  }

  lemma RequeueDeadStep(capacity: nat, s: Sys, e: Event)
    requires SysInvariant(capacity, s) && e.DeadLetterRequeue?
    ensures Undisturbed(s, Step(capacity, s, e)) && SysInvariant(capacity, Step(capacity, s, e))
  {
    RequeueDeadKeepsCoupling(s.queue, capacity, e.id, e.faults);
    UndisturbedKeepsInvariant(capacity, s, Step(capacity, s, e));
  }

  // The two steps that can break the coupling leave everything else in order.
  lemma UnlockedStep(capacity: nat, s: Sys, e: Event)
    requires SysInvariant(capacity, s) && Enabled(s, e) && (e.PushCall? || e.DeleteExecutions?)
    ensures Undisturbed(s, Step(capacity, s, e))
    ensures Coupled(Step(capacity, s, e).queue, capacity) <==> Orderly(capacity, s, e)
    ensures Orderly(capacity, s, e) ==> SysInvariant(capacity, Step(capacity, s, e))
  {
    if e.PushCall? {
      PushKeepsCouplingExactlyWhen(s.queue, capacity, e.push, e.catalog);
    } else {
      DeleteKeepsCouplingExactlyWhen(s.queue, capacity, e.ids);
    }
    if Orderly(capacity, s, e) { UndisturbedKeepsInvariant(capacity, s, Step(capacity, s, e)); }
  }

  // ---- the worker's steps ----

  predicate Dispatches(s: Sys, e: Event, id: ExecId) {
    e.DequeueCall? && HandsOut(s.queue, e.env, id)
  }

  lemma DequeueStep(capacity: nat, s: Sys, e: Event)
    requires SysInvariant(capacity, s) && e.DequeueCall? && Enabled(s, e)
    ensures SysInvariant(capacity, Step(capacity, s, e))
    ensures forall id :: Dispatches(s, e, id) ==> IsQueued(s.queue, id) && !IsQueued(Step(capacity, s, e).queue, id)
  {
    DequeueKeepsCoupling(s.queue, capacity, e.env);
    var (next, r) := Dequeue(s.queue, e.env);
    var t := Step(capacity, s, e);
    if r.Ok? && r.value.Some? {
      DispatchKeepsHolders(s, t, e.worker, r.value.value.executionId);
    } else {
      UndisturbedKeepsInvariant(capacity, s, t);
    }
  }

  lemma DispatchKeepsHolders(s: Sys, t: Sys, w: nat, id: ExecId)
    requires HoldersDistinct(s) && HoldersInFlight(s) && PendingInFlight(s) && RowsExist(s)
    requires w < |s.workers| && s.workers[w] == Idle && IsQueued(s.queue, id)
    requires t.workers == s.workers[w := Picked(id)] && t.accepted == s.accepted
    requires t.queue.pending == s.queue.pending && t.queue.table == WithStatus(s.queue.table, id, Processing)
    ensures HoldersDistinct(t) && HoldersInFlight(t) && PendingInFlight(t)
  {
    assert forall v :: IsHolding(t, v) && v != w ==> IsHolding(s, v) && t.workers[v] == s.workers[v];
    assert id !in s.queue.pending;
  }

  // A worker lets go of its execution: its row may change, and a retry may be scheduled for it.
  lemma ReleaseKeepsHolders(s: Sys, t: Sys, w: nat)
    requires HoldersDistinct(s) && HoldersInFlight(s) && PendingInFlight(s) && IsHolding(s, w)
    requires |t.workers| == |s.workers| && !IsHolding(t, w) && t.workers == s.workers[w := t.workers[w]]
    requires t.accepted == s.accepted && OnlyTouches(s.queue.table, t.queue.table, {s.workers[w].id})
    requires t.queue.pending == s.queue.pending
          || (t.queue.pending == s.queue.pending + multiset{s.workers[w].id} && t.queue.table == s.queue.table)
    ensures HoldersDistinct(t) && HoldersInFlight(t) && PendingInFlight(t)
  {
    var id := s.workers[w].id;
    assert forall v :: IsHolding(t, v) ==>
             v != w && IsHolding(s, v) && t.workers[v] == s.workers[v] && s.workers[v].id != id;
    assert id !in s.queue.pending;
  }

  lemma SettleStep(capacity: nat, s: Sys, e: Event)
    requires SysInvariant(capacity, s) && (e.StartFailure? || e.SettleSuccess? || e.SettleFailure?) && Enabled(s, e)
    ensures SysInvariant(capacity, Step(capacity, s, e))
  {
    var id, t := s.workers[e.worker].id, Step(capacity, s, e);
    assert !IsQueued(s.queue, id);
    match e {
      case StartFailure(w, f) =>
        SetStatusKeepsCoupling(s.queue, capacity, id, RowFailed, f.getOk, f.updateOk);
      case SettleSuccess(w, f) =>
        SetStatusKeepsCoupling(s.queue, capacity, id, Completed, f.getOk, f.updateOk);
      case SettleFailure(w, c, m, f) =>
        SetStatusKeepsCoupling(s.queue, capacity, id, DeadLetter, if c < m then f.getAgainOk else f.getOk, f.updateOk);
    }
    ReleaseKeepsHolders(s, t, e.worker);
  }

  lemma MarkStep(capacity: nat, s: Sys, e: Event)
    requires SysInvariant(capacity, s) && e.MarkRunning? && Enabled(s, e)
    ensures SysInvariant(capacity, Step(capacity, s, e))
  {
    var t := Step(capacity, s, e);
    assert forall v :: IsHolding(t, v) ==> IsHolding(s, v) && t.workers[v].id == s.workers[v].id;
  }

  lemma CallbackStep(capacity: nat, s: Sys, e: Event)
    requires SysInvariant(capacity, s) && e.Callback? && Enabled(s, e)
    ensures SysInvariant(capacity, Step(capacity, s, e))
  {
    var t := Step(capacity, s, e);
    assert forall v :: IsHolding(t, v) ==> IsHolding(s, v) && t.workers[v] == s.workers[v];
  }

  lemma RequeueStep(capacity: nat, s: Sys, e: Event)
    requires SysInvariant(capacity, s) && e.RetryRequeue? && Enabled(s, e)
    ensures SysInvariant(capacity, Step(capacity, s, e))
  {
    var t := Step(capacity, s, e);
    RequeueRetriedKeepsCoupling(s.queue, capacity, e.id, e.dbOk);
    assert e.id !in t.queue.pending;
    assert forall id :: id != e.id ==> t.queue.pending[id] == s.queue.pending[id];
    assert forall v :: IsHolding(t, v) ==> IsHolding(s, v) && s.workers[v].id != e.id;
  }

  lemma CrashStep(capacity: nat, s: Sys)
    requires SysInvariant(capacity, s)
    ensures SysInvariant(capacity, Step(capacity, s, CrashEvent))
  {}

  lemma RecoverStep(capacity: nat, s: Sys, e: Event)
    requires SysInvariant(capacity, s) && e.RecoverCall? && Enabled(s, e)
    ensures SysInvariant(capacity, Step(capacity, s, e))
  {
    RecoverKeepsCoupling(s.queue, capacity, e.recovery);
  }

  lemma StepKeepsInvariant(capacity: nat, s: Sys, e: Event)
    requires SysInvariant(capacity, s) && Enabled(s, e) && Orderly(capacity, s, e)
    ensures SysInvariant(capacity, Step(capacity, s, e))
  {
    match e {
      case EnqueueCall(_, _, _) => EnqueueStep(capacity, s, e);
      case DequeueCall(_, _) => DequeueStep(capacity, s, e);
      case MarkRunning(_) => MarkStep(capacity, s, e);
      case StartFailure(_, _) => SettleStep(capacity, s, e);
      case SettleSuccess(_, _) => SettleStep(capacity, s, e);
      case SettleFailure(_, _, _, _) => SettleStep(capacity, s, e);
      case Callback(_) => CallbackStep(capacity, s, e);
      case RemoveCall(_, _) => RemoveStep(capacity, s, e);
      case RetryRequeue(_, _) => RequeueStep(capacity, s, e);
      case DeadLetterRequeue(_, _) => RequeueDeadStep(capacity, s, e);
      case PushCall(_, _) => UnlockedStep(capacity, s, e);
      case CleanupCall(_) => CleanupStep(capacity, s, e);
      case DeleteExecutions(_) => UnlockedStep(capacity, s, e);
      case CrashEvent => CrashStep(capacity, s);
      case RecoverCall(_) => RecoverStep(capacity, s, e);
    }
  }

  // A step breaks the coupling exactly when it is not orderly.
  lemma StepKeepsCouplingExactlyWhen(capacity: nat, s: Sys, e: Event)
    requires SysInvariant(capacity, s) && Enabled(s, e)
    ensures Coupled(Step(capacity, s, e).queue, capacity) <==> Orderly(capacity, s, e)
  {
    if e.PushCall? || e.DeleteExecutions? {
      UnlockedStep(capacity, s, e);
    } else {
      StepKeepsInvariant(capacity, s, e);
    }
  }

  lemma {:induction false} InvariantAlways(capacity: nat, s: Sys, trace: seq<Event>)
    requires SysInvariant(capacity, s) && Possible(capacity, s, trace) && OrderlyRun(capacity, s, trace)
    ensures SysInvariant(capacity, After(capacity, s, trace))
  {
    if trace != [] {
      InvariantAlways(capacity, s, trace[..|trace| - 1]);
      StepKeepsInvariant(capacity, After(capacity, s, trace[..|trace| - 1]), trace[|trace| - 1]);
    }
  }

  // A state that an orderly run gets to from some table.
  ghost predicate Reachable(capacity: nat, s: Sys) {
    exists rows, workers, trace :: Leads(capacity, Booted(rows, workers), trace, s)
  }

  ghost predicate Leads(capacity: nat, s: Sys, trace: seq<Event>, t: Sys) {
    Possible(capacity, s, trace) && OrderlyRun(capacity, s, trace) && t == After(capacity, s, trace)
  }

  lemma ReachableIsSafe(capacity: nat, s: Sys)
    requires Reachable(capacity, s)
    ensures SysInvariant(capacity, s)
  {
    var rows, workers, trace :| Leads(capacity, Booted(rows, workers), trace, s);
    BootedIsSafe(capacity, rows, workers);
    InvariantAlways(capacity, Booted(rows, workers), trace);
  }

  lemma OneStepMore(capacity: nat, s: Sys, trace: seq<Event>, e: Event)
    requires Possible(capacity, s, trace) && Enabled(After(capacity, s, trace), e)
    ensures Possible(capacity, s, trace + [e])
    ensures After(capacity, s, trace + [e]) == Step(capacity, After(capacity, s, trace), e)
  {
    assert (trace + [e])[..|trace|] == trace;
  }

  lemma ReachableStep(capacity: nat, s: Sys, e: Event)
    requires Reachable(capacity, s) && Enabled(s, e) && Orderly(capacity, s, e)
    ensures Reachable(capacity, Step(capacity, s, e))
  {
    var rows, workers, trace :| Leads(capacity, Booted(rows, workers), trace, s);
    OneStepMore(capacity, Booted(rows, workers), trace, e);
    assert (trace + [e])[..|trace|] == trace;
    assert Leads(capacity, Booted(rows, workers), trace + [e], Step(capacity, s, e));
  }

  // In every reachable state the heap and the table are coupled, and the reported overflow size is exact.
  lemma CouplingHoldsAlways(capacity: nat, s: Sys)
    requires Reachable(capacity, s)
    ensures DistinctIds(s.queue.heap) && |s.queue.heap| <= capacity
    ensures forall x :: x in s.queue.heap ==> IsQueued(s.queue, x.executionId)
    ensures OverflowSize(s.queue) == |set id | id in QueuedIds(s.queue.table) && !HasId(s.queue.heap, id)|
  {
    ReachableIsSafe(capacity, s);
    OverflowSizeIsExact(s.queue, capacity);
    forall x | x in s.queue.heap ensures IsQueued(s.queue, x.executionId) {
      assert x.executionId in HeapIds(s.queue.heap);
    }
  }

  // ---- conservation ----

  // The step deletes the row of id.
  predicate Deletes(s: Sys, e: Event, id: ExecId) {
    match e
    case RemoveCall(other, dbOk) => other == id && dbOk
    case CleanupCall(stale) => id in stale && id in s.queue.table && s.queue.table[id].status in {Completed, RowFailed}
    case DeleteExecutions(ids) => id in ids
    case _ => false
  }

  // The steps that write no row: they only drop rows, exactly those they delete.
  predicate OnlyDrops(e: Event) {
    || e.MarkRunning? || e.Callback? || e.RemoveCall? || e.PushCall? || e.CleanupCall? || e.DeleteExecutions?
    || e.CrashEvent?
  }

  lemma DropsExactly(capacity: nat, s: Sys, e: Event)
    requires Enabled(s, e) && OnlyDrops(e)
    ensures var t := Step(capacity, s, e);
            && t.accepted == s.accepted
            && (forall id :: id in t.queue.table <==> id in s.queue.table && !Deletes(s, e, id))
            && (forall id :: id in t.queue.table ==> t.queue.table[id] == s.queue.table[id])
  {}

  // Enqueuing touches no execution that was accepted before.
  lemma EnqueueKeepsKnown(s: Sys, capacity: nat, item: QueueItem, now: nat, dbOk: bool, id: ExecId)
    requires Enabled(s, EnqueueCall(item, now, dbOk)) && id in s.accepted
    ensures var q := Enqueue(s.queue, capacity, item, now, dbOk);
            && (id in q.table <==> id in s.queue.table) && (id in q.table ==> q.table[id] == s.queue.table[id])
            && (HasId(q.heap, id) ==> HasId(s.queue.heap, id))
  {
    if item.executionId != id && !HasId(s.queue.heap, id) { PushKeepsOut(s.queue.heap, item, capacity, id); }
  }

  ghost predicate DeletedDuring(capacity: nat, s: Sys, trace: seq<Event>, id: ExecId)
    requires Possible(capacity, s, trace)
  {
    trace != [] &&
    var front, e := trace[..|trace| - 1], trace[|trace| - 1];
    DeletedDuring(capacity, s, front, id)
    || (id in After(capacity, s, front).queue.table && Deletes(After(capacity, s, front), e, id))
  }

  // An accepted execution keeps its one row, whatever fails and whether or not the run is orderly, exactly as
  // long as it is not removed, deleted or, once completed or failed, cleaned up.
  lemma {:induction false} AcceptedIsNeverLost(capacity: nat, rows: map<ExecId, Row>, workers: nat,
                                               trace: seq<Event>, id: ExecId)
    requires Possible(capacity, Booted(rows, workers), trace)
    ensures var s := After(capacity, Booted(rows, workers), trace);
            && (id in s.queue.table ==> id in s.accepted)
            && (DeletedDuring(capacity, Booted(rows, workers), trace, id)
                <==> id in s.accepted && id !in s.queue.table)
  {
    if trace != [] {
      var front, e := trace[..|trace| - 1], trace[|trace| - 1];
      AcceptedIsNeverLost(capacity, rows, workers, front, id);
      StepKeepsRow(capacity, After(capacity, Booted(rows, workers), front), e, id);
    }
  }

  lemma StepKeepsRow(capacity: nat, s: Sys, e: Event, id: ExecId)
    requires Enabled(s, e) && (id in s.queue.table ==> id in s.accepted)
    ensures var t := Step(capacity, s, e);
            && (id in s.queue.table ==> (id in t.queue.table <==> !Deletes(s, e, id)))
            && (id in s.accepted && id !in s.queue.table ==> id !in t.queue.table)
            && (id in t.accepted <==> id in s.accepted || id in t.queue.table)
  {
    if e.EnqueueCall? {
      if id in s.accepted { EnqueueKeepsKnown(s, capacity, e.item, e.now, e.dbOk, id); }
    } else if OnlyDrops(e) {
      DropsExactly(capacity, s, e);
    } else {
      OthersKeepRows(capacity, s, e);
    }
  }

  lemma OthersKeepRows(capacity: nat, s: Sys, e: Event)
    requires Enabled(s, e) && !e.EnqueueCall? && !OnlyDrops(e)
    ensures Step(capacity, s, e).queue.table.Keys == s.queue.table.Keys && Step(capacity, s, e).accepted == s.accepted
  {
    if IsSettle(e) {
      SettleTouches(capacity, s, e);
    } else if e.DequeueCall? {
      DequeueKeepsKeys(s.queue, e.env);
    } else if e.RecoverCall? {
      RecoverKeepsKeys(s.queue, capacity, e.recovery);
    }
  }

  lemma RecoverKeepsKeys(q: Queue, capacity: nat, env: RecoverEnv)
    requires ListingAllowed(q, env)
    ensures Recover(q, capacity, env).table.Keys == q.table.Keys
  {}

  lemma DequeueKeepsKeys(q: Queue, env: DequeueEnv)
    ensures Dequeue(q, env).0.table.Keys == q.table.Keys && Dequeue(q, env).0.pushes == q.pushes
  {}

  // A dequeue that fails after the pop leaves the row queued, where the overflow path finds it.
  lemma FailedPopStaysQueued(q: Queue, capacity: nat, env: DequeueEnv)
    requires Coupled(q, capacity) && q.heap != [] && Dequeue(q, env).1.Err?
    ensures var (next, _) := Dequeue(q, env);
            var id := Greatest(q.heap).executionId;
            next.table == q.table && IsQueued(next, id) && !HasId(next.heap, id)
  {
    PopIds(q.heap);
    HeapIdsAre(Rest(q.heap), Greatest(q.heap).executionId);
  }

  // After a crash and a recovery without database failures every row that was queued, processing or waiting out a retry
  // delay is queued, and every settled or dead-lettered row is as it was.
  lemma CrashAndRecoveryConserve(capacity: nat, s: Sys, env: RecoverEnv)
    requires SysInvariant(capacity, s)
    requires Enabled(Step(capacity, s, CrashEvent), RecoverCall(env)) && env.resetOk && env.listOk
    ensures var r := Step(capacity, Step(capacity, s, CrashEvent), RecoverCall(env));
            && r.queue.table.Keys == s.queue.table.Keys
            && (forall id :: id in s.queue.table ==>
                  r.queue.table[id]
                  == if s.queue.table[id].status in {Queued, Processing} then s.queue.table[id].(status := Queued)
                     else s.queue.table[id])
            && (forall id :: id in s.queue.pending && id in s.queue.table ==> IsQueued(r.queue, id))
            && (forall w :: IsHolding(s, w) && s.workers[w].id in s.queue.table ==> IsQueued(r.queue, s.workers[w].id))
  {}

  // ---- no double dispatch ----

  predicate OffQueue(s: Sys, id: ExecId) { id in s.accepted && !IsQueued(s.queue, id) }

  // The step turns the row of id back to queued.
  ghost predicate TurnsBack(capacity: nat, s: Sys, e: Event, id: ExecId)
    requires Enabled(s, e)
  {
    !IsQueued(s.queue, id) && IsQueued(Step(capacity, s, e).queue, id)
  }

  // Only a retry's requeue, a manual requeue of a dead-lettered row and a recovery do that, and exactly when
  // their guards hold.
  predicate Requeues(s: Sys, e: Event, id: ExecId) {
    id in s.queue.table &&
    match e
    case RetryRequeue(other, dbOk) => other == id && dbOk
    case DeadLetterRequeue(other, f) => other == id && f.getOk && f.updateOk && s.queue.table[id].status == DeadLetter
    case RecoverCall(env) => env.resetOk && s.queue.table[id].status == Processing
    case _ => false
  }

  predicate IsSettle(e: Event) { e.StartFailure? || e.SettleSuccess? || e.SettleFailure? }

  // Settling touches the row of the held execution alone, and never queues it.
  lemma SettleTouches(capacity: nat, s: Sys, e: Event)
    requires Enabled(s, e) && IsSettle(e)
    ensures var t, held := Step(capacity, s, e), s.workers[e.worker].id;
            && t.queue.heap == s.queue.heap && t.queue.pushes == s.queue.pushes && t.accepted == s.accepted
            && t.queue.table.Keys == s.queue.table.Keys
            && (forall id :: id in s.queue.table && id != held ==> t.queue.table[id] == s.queue.table[id])
            && (IsQueued(t.queue, held) ==> IsQueued(s.queue, held))
  {}

  lemma TurnsBackExactlyWhen(capacity: nat, s: Sys, e: Event, id: ExecId)
    requires Enabled(s, e) && OffQueue(s, id)
    ensures TurnsBack(capacity, s, e, id) <==> Requeues(s, e, id)
    ensures id in Step(capacity, s, e).accepted
  {
    if IsSettle(e) {
      SettleTouches(capacity, s, e);
    } else if e.DequeueCall? {
      DequeueQueuesNothing(s.queue, e.env, id);
    } else if e.RecoverCall? {
      RecoverTurnsBack(s.queue, capacity, e.recovery, id);
    } else {
      QueueCallTurnsBack(capacity, s, e, id);
    }
  }

  lemma RecoverTurnsBack(q: Queue, capacity: nat, env: RecoverEnv, id: ExecId)
    requires ListingAllowed(q, env) && !IsQueued(q, id)
    ensures IsQueued(Recover(q, capacity, env), id)
       <==> id in q.table && env.resetOk && q.table[id].status == Processing
  {
    assert Recover(q, capacity, env).table == if env.resetOk then ResetTable(q.table) else q.table;
  }

  lemma QueueCallTurnsBack(capacity: nat, s: Sys, e: Event, id: ExecId)
    requires Enabled(s, e) && OffQueue(s, id) && !IsSettle(e) && !e.DequeueCall? && !e.RecoverCall?
    ensures IsQueued(Step(capacity, s, e).queue, id) <==> Requeues(s, e, id)
    ensures id in Step(capacity, s, e).accepted
  {
    if e.EnqueueCall? {
      EnqueueKeepsKnown(s, capacity, e.item, e.now, e.dbOk, id);
    } else if OnlyDrops(e) {
      DropsExactly(capacity, s, e);
    } else {
      RequeuesTurnBack(capacity, s, e, id);
    }
  }

  lemma RequeuesTurnBack(capacity: nat, s: Sys, e: Event, id: ExecId)
    requires Enabled(s, e) && OffQueue(s, id) && (e.RetryRequeue? || e.DeadLetterRequeue?)
    ensures IsQueued(Step(capacity, s, e).queue, id) <==> Requeues(s, e, id)
    ensures id in Step(capacity, s, e).accepted
  {}

  lemma DequeueQueuesNothing(q: Queue, env: DequeueEnv, id: ExecId)
    requires !IsQueued(q, id)
    ensures !IsQueued(Dequeue(q, env).0, id)
  {}

  // Some step of the run turned the row of id back to queued.
  ghost predicate TurnedBack(capacity: nat, s: Sys, trace: seq<Event>, id: ExecId)
    requires Possible(capacity, s, trace)
  {
    trace != [] &&
    var front := trace[..|trace| - 1];
    TurnedBack(capacity, s, front, id) || TurnsBack(capacity, After(capacity, s, front), trace[|trace| - 1], id)
  }

  lemma {:induction false} StaysOffQueue(capacity: nat, s: Sys, trace: seq<Event>, id: ExecId)
    requires Possible(capacity, s, trace) && OffQueue(s, id) && !TurnedBack(capacity, s, trace, id)
    ensures OffQueue(After(capacity, s, trace), id)
  {
    if trace != [] {
      StaysOffQueue(capacity, s, trace[..|trace| - 1], id);
      TurnsBackExactlyWhen(capacity, After(capacity, s, trace[..|trace| - 1]), trace[|trace| - 1], id);
    }
  }

  // Between two dequeues that hand out the same execution some step turned its row back to queued.
  lemma NoDoubleDispatch(capacity: nat, s: Sys, first: Event, t: Sys, between: seq<Event>, u: Sys, second: Event,
                         id: ExecId)
    requires Reachable(capacity, s) && Enabled(s, first) && Dispatches(s, first, id) && t == Step(capacity, s, first)
    requires Leads(capacity, t, between, u) && Enabled(u, second) && Dispatches(u, second, id)
    ensures TurnedBack(capacity, t, between, id)
  {
    ReachableIsSafe(capacity, s);
    DequeueStep(capacity, s, first);
    InvariantAlways(capacity, t, between);
    DequeueStep(capacity, u, second);
    if !TurnedBack(capacity, t, between, id) {
      StaysOffQueue(capacity, t, between, id);
    }
  }
}
