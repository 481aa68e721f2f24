/** What becomes of the priority an execution was enqueued with, over every run of the queue with its workers: its row
    keeps it, and so does its item, except when a retry pushes it with its job's priority and that is another one. */
module QueuePriorities {
  import opened Wrappers
  import opened QueueItems
  import opened QueueSteps
  import opened QueueCoupling
  import opened WorkerPool
  import opened WorkerSafety

  // Everything that can come back to the queue was enqueued.
  ghost predicate AllAccepted(s: Sys) {
    && s.queue.table.Keys <= s.accepted && s.existing <= s.accepted
    && (forall x :: x in s.queue.heap ==> x.executionId in s.accepted)
    && (forall id :: id in s.queue.pending ==> id in s.accepted)
    && (forall p :: p in s.queue.pushes ==> p.id in s.accepted)
    && (forall w :: 0 <= w < |s.workers| && s.workers[w] != Idle ==> s.workers[w].id in s.accepted)
  }

  // A push that was ordered by hand carries the priority of its row.
  ghost predicate PushesCarry(q: Queue) {
    forall p :: p in q.pushes && p.priority.Some? && p.id in q.table ==> p.priority.value == q.table[p.id].priority
  }

  // An item in memory carries the priority of its row.
  ghost predicate HeapCarries(q: Queue) {
    forall x :: x in q.heap && x.executionId in q.table ==> x.priority == q.table[x.executionId].priority
  }

  // The step pushes the item of a retry with its job's priority, which is not that of its row.
  predicate Skews(capacity: nat, s: Sys, e: Event) {
    && e.PushCall? && e.push.priority.None? && e.push.id in e.catalog && |s.queue.heap| < capacity
    && e.push.id in s.queue.table && e.catalog[e.push.id].priority != s.queue.table[e.push.id].priority
  }

  // ---- rows ----

  predicate SameOrder(a: Row, b: Row) { a.jobId == b.jobId && a.priority == b.priority && a.queuedAt == b.queuedAt }

  // No step but the enqueue that makes it writes a row's job, priority or time.
  ghost predicate KeepsOrders(q: Queue, r: Queue) {
    forall id :: id in r.table ==> id in q.table && SameOrder(r.table[id], q.table[id])
  }

  predicate Enqueues(s: Sys, e: Event, id: ExecId) {
    e.EnqueueCall? && e.dbOk && e.item.executionId == id && id !in s.queue.table
  }

  lemma RowOrigin(capacity: nat, s: Sys, e: Event, id: ExecId)
    requires Enabled(s, e) && id in Step(capacity, s, e).queue.table
    ensures var row := Step(capacity, s, e).queue.table[id];
            if Enqueues(s, e, id)
            then row.jobId == e.item.jobId && row.priority == e.item.priority && row.queuedAt == e.now
            else id in s.queue.table && SameOrder(row, s.queue.table[id])
  {
    if e.EnqueueCall? {
    } else if OnlyDrops(e) {
      DropsExactly(capacity, s, e);
    } else if IsSettle(e) {
      SettleKeepsOrders(capacity, s, e);
    } else if e.DequeueCall? {
      DequeueKeepsOrders(s.queue, e.env);
    } else if e.RecoverCall? {
      RecoverKeepsOrders(s.queue, capacity, e.recovery);
    } else {
      RequeueKeepsOrders(capacity, s, e);
    }
  }

  lemma SettleKeepsOrders(capacity: nat, s: Sys, e: Event)
    requires Enabled(s, e) && IsSettle(e)
    ensures KeepsOrders(s.queue, Step(capacity, s, e).queue)
  {}

  lemma DequeueKeepsOrders(q: Queue, env: DequeueEnv)
    ensures KeepsOrders(q, Dequeue(q, env).0)
  {}

  lemma RecoverKeepsOrders(q: Queue, capacity: nat, env: RecoverEnv)
    requires ListingAllowed(q, env)
    ensures KeepsOrders(q, Recover(q, capacity, env))
  {}

  lemma RequeueKeepsOrders(capacity: nat, s: Sys, e: Event)
    requires Enabled(s, e) && (e.RetryRequeue? || e.DeadLetterRequeue?)
    ensures KeepsOrders(s.queue, Step(capacity, s, e).queue)
  {}

  // The enqueue that made the row of id, as the k-th step of the run.
  ghost predicate MadeBy(trace: seq<Event>, k: nat, id: ExecId, row: Row) {
    && k < |trace| && trace[k].EnqueueCall? && trace[k].dbOk && trace[k].item.executionId == id
    && trace[k].item.jobId == row.jobId && trace[k].item.priority == row.priority && trace[k].now == row.queuedAt
  }

  // Over every run, whatever fails, a row has the job and the priority of the item it was enqueued for, and its time;
  // or it was there from the start and has what it had.
  lemma {:induction false} RowsKeepWhatWasEnqueued(capacity: nat, rows: map<ExecId, Row>, workers: nat,
                                                   trace: seq<Event>, id: ExecId)
    requires Possible(capacity, Booted(rows, workers), trace)
    requires id in After(capacity, Booted(rows, workers), trace).queue.table
    ensures var row := After(capacity, Booted(rows, workers), trace).queue.table[id];
            (id in rows && SameOrder(row, rows[id])) || exists k: nat :: MadeBy(trace, k, id, row)
  {
    if trace != [] {
      var front, e := trace[..|trace| - 1], trace[|trace| - 1];
      var before := After(capacity, Booted(rows, workers), front);
      var row := Step(capacity, before, e).queue.table[id];
      RowOrigin(capacity, before, e, id);
      if Enqueues(before, e, id) {
        assert MadeBy(trace, |front|, id, row);
      } else {
        RowsKeepWhatWasEnqueued(capacity, rows, workers, front, id);
        if k: nat :| MadeBy(front, k, id, before.queue.table[id]) {
          assert MadeBy(trace, k, id, row);
        }
      }
    }
  }

  // ---- items ----

  lemma RetryStep(s: Sys, id: ExecId, dbOk: bool, t: Sys)
    requires AllAccepted(s) && PushesCarry(s.queue) && id in s.queue.pending
    requires t == s.(queue := RequeueRetried(s.queue, id, dbOk))
    ensures AllAccepted(t) && PushesCarry(t.queue) && t.queue.heap == s.queue.heap
  {
    assert forall p :: p in t.queue.pushes ==> p in s.queue.pushes || p == Push(id, None);
  }

  lemma DeadStep(s: Sys, id: ExecId, faults: RowFaults, t: Sys)
    requires AllAccepted(s) && PushesCarry(s.queue) && t == s.(queue := RequeueDead(s.queue, id, faults).0)
    ensures AllAccepted(t) && PushesCarry(t.queue) && t.queue.heap == s.queue.heap
  {
    if t != s {
      assert forall p :: p in t.queue.pushes ==>
               p in s.queue.pushes || p == Push(id, Some(s.queue.table[id].priority));
    }
  }

  lemma RequeueStep(capacity: nat, s: Sys, e: Event)
    requires AllAccepted(s) && PushesCarry(s.queue) && Enabled(s, e) && (e.RetryRequeue? || e.DeadLetterRequeue?)
    ensures var t := Step(capacity, s, e);
            && AllAccepted(t) && PushesCarry(t.queue) && t.queue.heap == s.queue.heap
            && KeepsOrders(s.queue, t.queue)
  {
    RequeueKeepsOrders(capacity, s, e);
    if e.RetryRequeue? {
      RetryStep(s, e.id, e.dbOk, Step(capacity, s, e));
    } else {
      DeadStep(s, e.id, e.faults, Step(capacity, s, e));
    }
  }

  lemma PushStep(capacity: nat, s: Sys, e: Event)
    requires AllAccepted(s) && PushesCarry(s.queue) && Enabled(s, e) && e.PushCall?
    ensures var t := Step(capacity, s, e);
            && AllAccepted(t) && PushesCarry(t.queue)
            && (HeapCarries(s.queue) ==> (HeapCarries(t.queue) <==> !Skews(capacity, s, e)))
  {
    var q := s.queue;
    if e.push.id in e.catalog && |q.heap| < capacity {
      var item := PushedItem(e.push, e.catalog[e.push.id]);
      assert Step(capacity, s, e).queue.heap == q.heap + [item];
      assert item in q.heap + [item];
    }
  }

  lemma EnqueueItemStep(capacity: nat, s: Sys, e: Event)
    requires AllAccepted(s) && PushesCarry(s.queue) && Enabled(s, e) && e.EnqueueCall?
    ensures var t := Step(capacity, s, e);
            AllAccepted(t) && PushesCarry(t.queue) && (HeapCarries(s.queue) ==> HeapCarries(t.queue))
  {}

  lemma DequeueItemStep(capacity: nat, s: Sys, e: Event)
    requires AllAccepted(s) && PushesCarry(s.queue) && Enabled(s, e) && e.DequeueCall?
    ensures var t := Step(capacity, s, e);
            AllAccepted(t) && PushesCarry(t.queue) && (HeapCarries(s.queue) ==> HeapCarries(t.queue))
  {
    DequeueKeepsOrders(s.queue, e.env);
    DequeueTakesFromHeap(s.queue, e.env);
  }

  lemma DequeueTakesFromHeap(q: Queue, env: DequeueEnv)
    ensures var (next, r) := Dequeue(q, env);
            && (forall x :: x in next.heap ==> x in q.heap) && next.pending == q.pending && next.pushes == q.pushes
            && (r.Ok? && r.value.Some? ==> r.value.value in q.heap || r.value.value.executionId in q.table)
  {
    if q.heap != [] { RestIs(q.heap); }
  }

  lemma SettleItemStep(capacity: nat, s: Sys, e: Event)
    requires AllAccepted(s) && PushesCarry(s.queue) && Enabled(s, e) && IsSettle(e)
    ensures var t := Step(capacity, s, e);
            AllAccepted(t) && PushesCarry(t.queue) && (HeapCarries(s.queue) ==> HeapCarries(t.queue))
  {
    SettleKeepsOrders(capacity, s, e);
  }

  lemma RecoverItemStep(capacity: nat, s: Sys, e: Event)
    requires AllAccepted(s) && PushesCarry(s.queue) && Enabled(s, e) && e.RecoverCall?
    ensures var t := Step(capacity, s, e); AllAccepted(t) && PushesCarry(t.queue) && HeapCarries(t.queue)
  {
    var q, env := s.queue, e.recovery;
    RecoverKeepsOrders(q, capacity, env);
    var read := LoadFills(q.heap, capacity, ResetTable(q.table), env.entries, env.catalog);
  }

  lemma DropItemStep(capacity: nat, s: Sys, e: Event)
    requires AllAccepted(s) && PushesCarry(s.queue) && Enabled(s, e) && OnlyDrops(e) && !e.PushCall?
    ensures var t := Step(capacity, s, e);
            AllAccepted(t) && PushesCarry(t.queue) && (HeapCarries(s.queue) ==> HeapCarries(t.queue))
  {
    DropsExactly(capacity, s, e);
    if e.RemoveCall? { WithoutIdIs(s.queue.heap, e.id); }
  }

  // Whatever the step and whatever fails in it: if the items in memory carry their rows' priorities, they still do
  // afterwards exactly unless the step pushes the item of a retry whose job's priority is not that of the row.
  lemma StepKeepsPrioritiesExactlyWhen(capacity: nat, s: Sys, e: Event)
    requires AllAccepted(s) && PushesCarry(s.queue) && Enabled(s, e)
    ensures var t := Step(capacity, s, e);
            && AllAccepted(t) && PushesCarry(t.queue)
            && (HeapCarries(s.queue) ==> (HeapCarries(t.queue) <==> !Skews(capacity, s, e)))
  {
    if e.EnqueueCall? {
      EnqueueItemStep(capacity, s, e);
    } else if e.DequeueCall? {
      DequeueItemStep(capacity, s, e);
    } else if IsSettle(e) {
      SettleItemStep(capacity, s, e);
    } else if e.RecoverCall? {
      RecoverItemStep(capacity, s, e);
    } else if e.PushCall? {
      PushStep(capacity, s, e);
    } else if OnlyDrops(e) {
      DropItemStep(capacity, s, e);
    } else {
      RequeueStep(capacity, s, e);
    }
  }

  ghost predicate Skewed(capacity: nat, s: Sys, trace: seq<Event>)
    requires Possible(capacity, s, trace)
  {
    trace != [] &&
    var front := trace[..|trace| - 1];
    Skewed(capacity, s, front) || Skews(capacity, After(capacity, s, front), trace[|trace| - 1])
  }

  lemma {:induction false} PrioritiesHold(capacity: nat, rows: map<ExecId, Row>, workers: nat, trace: seq<Event>)
    requires Possible(capacity, Booted(rows, workers), trace)
    ensures var s := After(capacity, Booted(rows, workers), trace);
            && AllAccepted(s) && PushesCarry(s.queue)
            && (!Skewed(capacity, Booted(rows, workers), trace) ==> HeapCarries(s.queue))
  {
    if trace != [] {
      var front := trace[..|trace| - 1];
      PrioritiesHold(capacity, rows, workers, front);
      StepKeepsPrioritiesExactlyWhen(capacity, After(capacity, Booted(rows, workers), front), trace[|trace| - 1]);
    }
  }

  lemma HandedOutPriority(q: Queue, env: DequeueEnv, item: QueueItem)
    requires HeapCarries(q) && Dequeue(q, env).1 == Ok(Some(item)) && item.executionId in q.table
    ensures item.priority == q.table[item.executionId].priority
  {}

  // Over every run, orderly or not and whatever fails in it, in which no retry is pushed with another priority: what a
  // dequeue hands out, if it has a row, has the priority that the row was enqueued with.
  lemma HandedOutAtEnqueuedPriority(capacity: nat, workers: nat, trace: seq<Event>, env: DequeueEnv, item: QueueItem)
    requires Possible(capacity, Booted(map[], workers), trace) && !Skewed(capacity, Booted(map[], workers), trace)
    requires Dequeue(After(capacity, Booted(map[], workers), trace).queue, env).1 == Ok(Some(item))
    requires item.executionId in After(capacity, Booted(map[], workers), trace).queue.table
    ensures exists k: nat ::
              && k < |trace| && trace[k].EnqueueCall? && trace[k].dbOk
              && trace[k].item.executionId == item.executionId && trace[k].item.priority == item.priority
  {
    var q := After(capacity, Booted(map[], workers), trace).queue;
    PrioritiesHold(capacity, map[], workers, trace);
    HandedOutPriority(q, env, item);
    RowsKeepWhatWasEnqueued(capacity, map[], workers, trace, item.executionId);
    var k: nat :| MadeBy(trace, k, item.executionId, q.table[item.executionId]);
    assert trace[k].EnqueueCall?;
  }
}
