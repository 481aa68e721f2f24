/** The queue manager in the imperative form of src/queue/manager.rs. Its memory queue and the rows of job_queue
    are fields that each method updates step by step; every method is proved against the value-level step it carries
    out, and to keep the heap coupled to the rows, or to say exactly when it does. The boolean parameters say which
    database calls succeed. */
module QueueManagers {
  import opened Wrappers
  import opened QueueItems
  import opened QueueSteps
  import opened QueueCoupling
  import opened QueueListing
  import opened QueueServing

  class QueueManager {
    const maxMemorySize: nat
    const maxRetries: int
    var memoryQueue: seq<QueueItem>
    var rows: map<ExecId, Row>
    var pending: multiset<ExecId>
    var pushes: multiset<Push>

    function Contents(): Queue reads this { Queue(memoryQueue, rows, pending, pushes) }

    ghost predicate Valid() reads this { Coupled(Contents(), maxMemorySize) }

    // A new manager finds whatever rows an earlier process left.
    constructor (maxMemorySize: nat, maxRetries: int, rows: map<ExecId, Row>)
      ensures this.maxMemorySize == maxMemorySize && this.maxRetries == maxRetries
      ensures Contents() == Queue([], rows, multiset{}, multiset{}) && Valid()
    {
      this.maxMemorySize, this.maxRetries := maxMemorySize, maxRetries;
      memoryQueue, this.rows, pending, pushes := [], rows, multiset{}, multiset{};
    }

    method EnqueueItem(item: QueueItem, now: nat, dbOk: bool) returns (r: Result<()>)
      modifies this`memoryQueue, this`rows
      ensures r == EnqueueAnswer(old(Contents()), item, dbOk)
      ensures Contents() == Enqueue(old(Contents()), maxMemorySize, item, now, dbOk)
      ensures r.Ok? <==> dbOk && item.executionId !in old(rows)
      ensures r.Ok? ==>
                && item.executionId in rows && rows[item.executionId] == Row(item.jobId, item.priority, Queued, now)
                && OnlyTouches(old(rows), rows, {item.executionId})
                && memoryQueue == old(memoryQueue) + if |old(memoryQueue)| < maxMemorySize then [item] else []
      ensures r.Err? ==> rows == old(rows) && memoryQueue == old(memoryQueue)
      ensures old(Valid()) ==> Valid()
    {
      if Valid() { EnqueueKeepsCoupling(Contents(), maxMemorySize, item, now, dbOk); }
      var entry := Row(item.jobId, item.priority, Queued, now);
      if !dbOk || item.executionId in rows {
        return Err(Database);
      }
      rows := rows[item.executionId := entry];
      if |memoryQueue| < maxMemorySize {
        memoryQueue := memoryQueue + [item];
      }
      return Ok(());
    }

    method Pop() returns (item: Option<QueueItem>)
      modifies this`memoryQueue
      ensures item.None? <==> old(memoryQueue) == []
      ensures item.None? ==> memoryQueue == []
      ensures item.Some? ==>
                && old(memoryQueue) != [] && item.value == Greatest(old(memoryQueue))
                && memoryQueue == Rest(old(memoryQueue))
    {
      if memoryQueue == [] {
        return None;
      }
      item := Some(Greatest(memoryQueue));
      memoryQueue := Rest(memoryQueue);
    }

    method MarkRow(id: ExecId, status: RowStatus, getOk: bool, updateOk: bool) returns (r: Result<()>)
      modifies this`rows
      ensures r == SetStatusAnswer(old(Contents()), id, getOk, updateOk)
      ensures Contents() == SetStatus(old(Contents()), id, status, getOk, updateOk)
      ensures r.Ok? <==> getOk && (id in rows ==> updateOk)
      ensures rows.Keys == old(rows).Keys && OnlyTouches(old(rows), rows, {id})
      ensures id in rows ==> rows[id] == if r.Ok? then old(rows)[id].(status := status) else old(rows)[id]
      ensures old(Valid() && !IsQueued(Contents(), id)) ==> Valid()
    {
      if Valid() && !IsQueued(Contents(), id) {
        SetStatusKeepsCoupling(Contents(), maxMemorySize, id, status, getOk, updateOk);
      }
      if !getOk {
        return Err(Database);
      }
      if id in rows {
        var entry := rows[id].(status := status);
        if !updateOk {
          return Err(Database);
        }
        rows := rows[id := entry];
      }
      return Ok(());
    }

    // Serve the in-memory queue; fall back to the overflow rows when it is empty.
    method DequeueItem(env: DequeueEnv) returns (r: Result<Option<QueueItem>>, ghost pick: ExecId)
      modifies this`memoryQueue, this`rows
      ensures PickAllowed(old(Contents()), env.(pick := pick))
      ensures (Contents(), r) == Dequeue(old(Contents()), env.(pick := pick))
      ensures old(Valid()) ==> Valid()
    {
      if Valid() {
        forall e | PickAllowed(Contents(), e) ensures Coupled(Dequeue(Contents(), e).0, maxMemorySize) {
          DequeueKeepsCoupling(Contents(), maxMemorySize, e);
        }
      }
      pick := env.pick;
      var item := Pop();
      if item.Some? {
        var marked := MarkRow(item.value.executionId, Processing, env.getOk, env.updateOk);
        if marked.Err? {
          return Err(Database), pick;
        }
        return Ok(item), pick;
      }
      var chosen := SelectBest();
      if chosen.Some? {
        pick := chosen.value;
      }
      if !env.selectOk {
        return Err(Database), pick;
      }
      if chosen.None? {
        return Ok(None), pick;
      }
      var id := chosen.value;
      rows := rows[id := rows[id].(status := Processing)];
      if id in env.catalog {
        return Ok(Some(Rebuilt(id, rows[id].priority, env.catalog[id]))), pick;
      }
      if !env.settleOk {
        return Err(Database), pick;
      }
      rows := rows[id := rows[id].(status := RowFailed)];
      assert rows == WithStatus(old(rows), id, RowFailed);
      return Ok(None), pick;
    }

    // The row the overflow query would update.
    method SelectBest() returns (chosen: Option<ExecId>)
      ensures chosen.None? <==> QueuedIds(rows) == {}
      ensures chosen.Some? ==> IsBest(rows, chosen.value) && ComesFirst(rows, chosen.value)
    {
      var left := QueuedIds(rows);
      if left == {} {
        return None;
      }
      var best: ExecId :| best in left;
      left := left - {best};
      while left != {}
        invariant left <= QueuedIds(rows) && best in QueuedIds(rows)
        invariant forall id :: id in QueuedIds(rows) - left ==> Precedes(rows[best], rows[id])
        decreases |left|
      {
        var id :| id in left;
        if Precedes(rows[id], rows[best]) {
          best := id;
        }
        left := left - {id};
      }
      return Some(best);
    }

    method RemoveExecution(id: ExecId, dbOk: bool) returns (r: Result<()>)
      modifies this`memoryQueue, this`rows
      ensures r == if dbOk then Ok(()) else Err(Database)
      ensures Contents() == Remove(old(Contents()), id, dbOk)
      ensures TakesOut(old(Contents()), id, dbOk, Contents())
      ensures old(Valid()) ==> Valid()
    {
      RemoveTakesOut(Contents(), id, dbOk);
      if Valid() { RemoveKeepsCoupling(Contents(), maxMemorySize, id, dbOk); }
      RefillWithout(id);
      if !dbOk {
        return Err(Database);
      }
      rows := rows - {id};
      return Ok(());
    }

    // Drain the memory queue and push back what is not the execution's.
    method RefillWithout(id: ExecId)
      modifies this`memoryQueue
      ensures memoryQueue == WithoutId(old(memoryQueue), id)
    {
      var drained := memoryQueue;
      memoryQueue := [];
      for i := 0 to |drained|
        invariant memoryQueue == WithoutId(drained[..i], id)
      {
        assert drained[..i + 1][..i] == drained[..i];
        if drained[i].executionId != id {
          memoryQueue := memoryQueue + [drained[i]];
        }
      }
      assert drained[..|drained|] == drained;
    }

    method MarkFailedWithRetry(id: ExecId, retryCount: int, maxRetriesOverride: Option<int>, faults: RowFaults)
      returns (r: Result<bool>)
      modifies this`rows, this`pending
      ensures var limit := if maxRetriesOverride.Some? then maxRetriesOverride.value else maxRetries;
              && (Contents(), r) == FailWithRetry(old(Contents()), id, retryCount, limit, faults)
              && (r == Ok(true) <==> retryCount < limit && faults.getOk && id in rows)
      ensures pending == old(pending) + if r == Ok(true) then multiset{id} else multiset{}
      ensures rows.Keys == old(rows).Keys && OnlyTouches(old(rows), rows, {id})
      ensures id in rows ==> rows[id] == if r == Ok(false) then old(rows)[id].(status := DeadLetter) else old(rows)[id]
      ensures old(Valid() && !IsQueued(Contents(), id)) ==> Valid()
    {
      var limit := if maxRetriesOverride.Some? then maxRetriesOverride.value else maxRetries;
      var getOk := faults.getOk;
      if retryCount < limit {
        if !getOk {
          return Err(Database);
        }
        if id in rows {
          pending := pending + multiset{id};
          return Ok(true);
        }
        getOk := faults.getAgainOk;
      }
      var moved := MarkRow(id, DeadLetter, getOk, faults.updateOk);
      if moved.Err? {
        return Err(Database);
      }
      return Ok(false);
    }

    // The spawned retry, once its delay has passed: first the row, without the lock ...
    method RequeueRetriedRow(id: ExecId, dbOk: bool)
      modifies this`rows, this`pending, this`pushes
      ensures Contents() == RequeueRetried(old(Contents()), id, dbOk)
      ensures rows.Keys == old(rows).Keys && OnlyTouches(old(rows), rows, {id})
      ensures id in rows ==> rows[id] == if dbOk then old(rows)[id].(status := Queued) else old(rows)[id]
      ensures old(Valid()) ==> Valid()
    {
      if Valid() { RequeueRetriedKeepsCoupling(Contents(), maxMemorySize, id, dbOk); }
      pending := pending - multiset{id};
      if !dbOk {
        return;
      }
      if id in rows {
        rows := rows[id := rows[id].(status := Queued)];
      }
      pushes := pushes + multiset{Push(id, None)};
    }

    // A manual retry begins with the row, too.
    method RequeueDeadRow(id: ExecId, faults: RowFaults) returns (r: Result<()>)
      modifies this`rows, this`pushes
      ensures (Contents(), r) == RequeueDead(old(Contents()), id, faults)
      ensures rows.Keys == old(rows).Keys && OnlyTouches(old(rows), rows, {id})
      ensures var requeued := r.Ok? && id in rows && old(rows)[id].status == DeadLetter;
              && (id in rows ==> rows[id] == if requeued then old(rows)[id].(status := Queued) else old(rows)[id])
              && (pushes == if requeued then old(pushes) + multiset{Push(id, Some(old(rows)[id].priority))}
                            else old(pushes))
              && (r.Ok? <==> faults.getOk && (id in rows ==> old(rows)[id].status == DeadLetter && faults.updateOk))
      ensures old(Valid()) ==> Valid()
    {
      if Valid() { RequeueDeadKeepsCoupling(Contents(), maxMemorySize, id, faults); }
      if !faults.getOk {
        return Err(Database);
      }
      if id in rows {
        var entry := rows[id];
        if entry.status != DeadLetter {
          return Err(Validation(NotDeadLetter));
        }
        if !faults.updateOk {
          return Err(Database);
        }
        rows := rows[id := entry.(status := Queued)];
        pushes := pushes + multiset{Push(id, Some(entry.priority))};
      }
      return Ok(());
    }

    // ... then, with the lock, the rebuilt item.
    method PushRequeuedItem(p: Push, catalog: Catalog)
      modifies this`memoryQueue, this`pushes
      ensures Contents() == PushRequeued(old(Contents()), maxMemorySize, p, catalog)
      ensures memoryQueue == old(memoryQueue) +
                if p.id !in catalog || |old(memoryQueue)| >= maxMemorySize then []
                else [QueueItem(p.id, catalog[p.id].id,
                                if p.priority.Some? then p.priority.value else catalog[p.id].priority)]
      ensures old(Valid()) ==>
                (Valid() <==> (old(Pushes(Contents(), maxMemorySize, p, catalog)) ==> old(Awaited(Contents(), p.id))))
    {
      if Valid() { PushKeepsCouplingExactlyWhen(Contents(), maxMemorySize, p, catalog); }
      pushes := pushes - multiset{p};
      if p.id in catalog {
        var item := PushedItem(p, catalog[p.id]);
        if |memoryQueue| < maxMemorySize {
          memoryQueue := memoryQueue + [item];
        }
      }
    }

    // After a restart: reset interrupted rows, then load queued rows until the heap is full.
    method RecoverQueue(env: RecoverEnv) returns (r: Result<nat>)
      requires ListingAllowed(Contents(), env)
      modifies this`memoryQueue, this`rows
      ensures Contents() == Recover(old(Contents()), maxMemorySize, env)
      ensures r == if env.resetOk && env.listOk then Ok(|Unfinished(old(rows))|) else Err(Database)
      ensures Recovers(old(Contents()), maxMemorySize, env, Contents())
      ensures old(memoryQueue) == [] ==> Valid()
    {
      ListingLength(ResetTable(rows), env.entries);
      RecoverFills(Contents(), maxMemorySize, env);
      if memoryQueue == [] { RecoverKeepsCoupling(Contents(), maxMemorySize, env); }
      if !env.resetOk {
        return Err(Database);
      }
      rows := ResetTable(rows);
      if !env.listOk {
        return Err(Database);
      }
      LoadEntries(env.entries, env.catalog);
      return Ok(|env.entries|);
    }

    // Push the items of listed rows, skipping those that cannot be rebuilt, until the memory queue is full.
    method LoadEntries(entries: seq<ExecId>, catalog: Catalog)
      requires forall id :: id in entries ==> id in rows
      modifies this`memoryQueue
      ensures memoryQueue == Load(old(memoryQueue), maxMemorySize, rows, entries, catalog)
    {
      ghost var before := memoryQueue;
      var recovered := 0;
      var i := 0;
      ghost var rest := entries;
      while i < |entries| && |memoryQueue| < maxMemorySize
        invariant i <= |entries| && rest == entries[i..] && recovered <= i
        invariant |memoryQueue| == |before| + recovered
        invariant Load(memoryQueue, maxMemorySize, rows, rest, catalog)
               == Load(before, maxMemorySize, rows, entries, catalog)
      {
        var id := entries[i];
        if id in catalog {
          memoryQueue := memoryQueue + [Rebuilt(id, rows[id].priority, catalog[id])];
          recovered := recovered + 1;
        }
        i := i + 1;
        rest := rest[1..];
      }
    }

    // The number of queued rows that are not in memory.
    method OverflowQueueSize() returns (n: int)
      ensures Valid() ==> n == |set id | id in QueuedIds(rows) && !HasId(memoryQueue, id)|
    {
      var total := |QueuedIds(rows)|;
      n := total - |memoryQueue|;
      if Valid() { OverflowSizeIsExact(Contents(), maxMemorySize); }
    }
  }
}
