/** How the in-memory heap and the rows fit together, and that every call keeps them so even when
    database calls fail midway. */
module QueueCoupling {
  import opened Wrappers
  import opened QueueItems
  import opened QueueSteps

  function HeapIds(heap: seq<QueueItem>): set<ExecId> { set x | x in heap :: x.executionId }

  // Heap ids are distinct, each has a queued row, and the heap respects its bound.
  ghost predicate Coupled(q: Queue, capacity: nat) {
    DistinctIds(q.heap) && HeapIds(q.heap) <= QueuedIds(q.table) && |q.heap| <= capacity
  }

  // ---- heap ids ----

  lemma HeapIdsAre(heap: seq<QueueItem>, id: ExecId)
    ensures id in HeapIds(heap) <==> HasId(heap, id)
  {
    if id in HeapIds(heap) {
      var x :| x in heap && x.executionId == id;
      var i :| 0 <= i < |heap| && heap[i] == x;
    }
    if HasId(heap, id) {
      var i :| 0 <= i < |heap| && heap[i].executionId == id;
      assert heap[i] in heap;
    }
  }

  lemma {:induction false} HeapIdsCount(heap: seq<QueueItem>)
    requires DistinctIds(heap)
    ensures |HeapIds(heap)| == |heap|
  {
    if heap == [] {
      assert HeapIds(heap) == {};
    } else {
      var front, last := heap[..|heap| - 1], heap[|heap| - 1];
      assert heap == front + [last];
      PushKeepsDistinct(front, last);
      HeapIdsAre(front, last.executionId);
      HeapIdsCount(front);
      assert HeapIds(heap) == HeapIds(front) + {last.executionId};
    }
  }

  lemma PopIds(heap: seq<QueueItem>)
    requires heap != [] && DistinctIds(heap)
    ensures DistinctIds(Rest(heap)) && HeapIds(Rest(heap)) == HeapIds(heap) - {Greatest(heap).executionId}
    ensures Greatest(heap).executionId in HeapIds(heap)
  {
    var top := Greatest(heap);
    RestIs(heap);
    HeapIdsAre(Rest(heap), top.executionId);
    forall id ensures id in HeapIds(Rest(heap)) <==> id in HeapIds(heap) && id != top.executionId {
      if id in HeapIds(heap) && id != top.executionId {
        var x :| x in heap && x.executionId == id;
        assert x in Rest(heap);
      }
    }
  }

  lemma RemoveIds(heap: seq<QueueItem>, id: ExecId)
    requires DistinctIds(heap)
    ensures DistinctIds(WithoutId(heap, id)) && HeapIds(WithoutId(heap, id)) == HeapIds(heap) - {id}
  {
    WithoutIdDistinct(heap, id);
    WithoutIdIs(heap, id);
    forall other ensures other in HeapIds(WithoutId(heap, id)) <==> other in HeapIds(heap) && other != id {
      if other in HeapIds(heap) && other != id {
        var x :| x in heap && x.executionId == other;
        assert x in WithoutId(heap, id);
      }
    }
  }

  lemma PushIds(heap: seq<QueueItem>, item: QueueItem, capacity: nat)
    ensures var pushed := PushBounded(heap, item, capacity);
            && HeapIds(pushed) == (if |heap| < capacity then HeapIds(heap) + {item.executionId} else HeapIds(heap))
            && (|heap| < capacity ==>
                  (DistinctIds(pushed) <==> DistinctIds(heap) && item.executionId !in HeapIds(heap)))
  {
    PushKeepsDistinct(heap, item);
    HeapIdsAre(heap, item.executionId);
  }

  lemma PushKeepsOut(heap: seq<QueueItem>, item: QueueItem, capacity: nat, id: ExecId)
    requires item.executionId != id && !HasId(heap, id)
    ensures !HasId(PushBounded(heap, item, capacity), id)
  {}

  lemma RemoveKeepsOut(heap: seq<QueueItem>, other: ExecId, id: ExecId)
    requires !HasId(heap, id)
    ensures !HasId(WithoutId(heap, other), id)
  {
    WithoutIdIs(heap, other);
    MembersAndIds(heap, id);
    MembersAndIds(WithoutId(heap, other), id);
  }

  // ---- each call keeps the coupling ----

  // The only rows that differ are those of `ids`.
  predicate OnlyTouches(a: map<ExecId, Row>, b: map<ExecId, Row>, ids: set<ExecId>) {
    && (forall id :: id in a && id !in ids ==> id in b && b[id] == a[id])
    && (forall id :: id in b && id !in ids ==> id in a)
  }

  lemma EnqueueKeepsCoupling(q: Queue, capacity: nat, item: QueueItem, now: nat, dbOk: bool)
    requires Coupled(q, capacity)
    ensures Coupled(Enqueue(q, capacity, item, now, dbOk), capacity)
  {
    PushIds(q.heap, item, capacity);
  }

  // A dequeue takes at most one row, and that row was queued. If it yields an item, the item's row is the
  // one taken, and it is processing.
  lemma DequeueKeepsCoupling(q: Queue, capacity: nat, env: DequeueEnv)
    requires Coupled(q, capacity) && PickAllowed(q, env)
    ensures var (next, r) := Dequeue(q, env);
            && Coupled(next, capacity) && next.pending == q.pending && next.table.Keys == q.table.Keys
            && (r == Ok(None) || r.Err? ==>
                  next.table == q.table || (IsQueued(q, env.pick) && OnlyTouches(q.table, next.table, {env.pick})))
            && (r.Ok? && r.value.Some? ==>
                  var id := r.value.value.executionId;
                  IsQueued(q, id) && next.table == WithStatus(q.table, id, Processing))
  {
    if q.heap != [] {
      PopIds(q.heap);
      assert QueuedIds(WithStatus(q.table, Greatest(q.heap).executionId, Processing))
           == QueuedIds(q.table) - {Greatest(q.heap).executionId};
    }
  }

  // Every item of id leaves the memory, and its row goes if the delete succeeds.
  ghost predicate TakesOut(q: Queue, id: ExecId, dbOk: bool, r: Queue) {
    && r == q.(heap := r.heap, table := r.table)
    && (forall x :: x in r.heap <==> x in q.heap && x.executionId != id)
    && (forall other :: other in r.table <==> other in q.table && (other != id || !dbOk))
    && (forall other :: other in r.table ==> r.table[other] == q.table[other])
  }

  lemma RemoveTakesOut(q: Queue, id: ExecId, dbOk: bool)
    ensures TakesOut(q, id, dbOk, Remove(q, id, dbOk))
  {
    WithoutIdIs(q.heap, id);
  }

  lemma RemoveKeepsCoupling(q: Queue, capacity: nat, id: ExecId, dbOk: bool)
    requires Coupled(q, capacity)
    ensures Coupled(Remove(q, id, dbOk), capacity)
  {
    RemoveIds(q.heap, id);
    WithoutIdIs(q.heap, id);
    assert QueuedIds(q.table - {id}) == QueuedIds(q.table) - {id};
  }

  lemma SetStatusKeepsCoupling(q: Queue, capacity: nat, id: ExecId, status: RowStatus, getOk: bool, updateOk: bool)
    requires Coupled(q, capacity) && !IsQueued(q, id)
    ensures Coupled(SetStatus(q, id, status, getOk, updateOk), capacity)
  {
    assert id !in HeapIds(q.heap);
  }

  lemma RequeueRetriedKeepsCoupling(q: Queue, capacity: nat, id: ExecId, dbOk: bool)
    requires Coupled(q, capacity)
    ensures Coupled(RequeueRetried(q, id, dbOk), capacity)
  {
    if id in q.table {
      assert QueuedIds(WithStatus(q.table, id, Queued)) == QueuedIds(q.table) + {id};
    }
  }

  lemma RequeueDeadKeepsCoupling(q: Queue, capacity: nat, id: ExecId, faults: RowFaults)
    requires Coupled(q, capacity)
    ensures Coupled(RequeueDead(q, id, faults).0, capacity)
  {
    if id in q.table {
      assert QueuedIds(WithStatus(q.table, id, Queued)) == QueuedIds(q.table) + {id};
    }
  }

  // The row of p's execution is queued and its item not in memory: its push does no harm.
  predicate Awaited(q: Queue, id: ExecId) { IsQueued(q, id) && !HasId(q.heap, id) }

  // A push keeps the coupling exactly when it does nothing, or the row is still queued and not in memory.
  lemma PushKeepsCouplingExactlyWhen(q: Queue, capacity: nat, p: Push, catalog: Catalog)
    requires Coupled(q, capacity)
    ensures Coupled(PushRequeued(q, capacity, p, catalog), capacity)
       <==> (Pushes(q, capacity, p, catalog) ==> Awaited(q, p.id))
  {
    if Pushes(q, capacity, p, catalog) {
      var item := PushedItem(p, catalog[p.id]);
      PushIds(q.heap, item, capacity);
      HeapIdsAre(q.heap, p.id);
      assert p.id in HeapIds(PushRequeued(q, capacity, p, catalog).heap);
    }
  }

  // The item that a woken retry pushes has its job's priority, whatever its row says.
  lemma RetriedPriority(q: Queue, capacity: nat, id: ExecId, catalog: Catalog, item: QueueItem)
    requires id in q.table && id in catalog && !HasId(q.heap, id) && |q.heap| < capacity
    requires item in PushRequeued(RequeueRetried(q, id, true), capacity, Push(id, None), catalog).heap
    requires item.executionId == id
    ensures item.jobId == catalog[id].id && item.priority == catalog[id].priority
  {
    MembersAndIds(q.heap, id);
  }

  // One requeued by hand is pushed with the priority of its row.
  lemma RequeuedByHandPriority(q: Queue, capacity: nat, id: ExecId, faults: RowFaults, catalog: Catalog)
    requires id in q.table && q.table[id].status == DeadLetter && faults.getOk && faults.updateOk
    requires id in catalog && |q.heap| < capacity
    ensures var requeued := RequeueDead(q, id, faults).0;
            exists p :: p in requeued.pushes && p.id == id
              && PushRequeued(requeued, capacity, p, catalog).heap
                 == q.heap + [QueueItem(id, catalog[id].id, q.table[id].priority)]
  {
    assert Push(id, Some(q.table[id].priority)) in RequeueDead(q, id, faults).0.pushes;
  }

  // Deleting executions keeps the coupling exactly when none of them is in memory.
  lemma DeleteKeepsCouplingExactlyWhen(q: Queue, capacity: nat, ids: set<ExecId>)
    requires Coupled(q, capacity)
    ensures Coupled(DeleteRows(q, ids), capacity) <==> forall x :: x in q.heap ==> x.executionId !in ids
  {
    assert QueuedIds(q.table - ids) == QueuedIds(q.table) - ids;
    forall x | x in q.heap ensures x.executionId in HeapIds(q.heap) {}
  }

  lemma CleanupKeepsCoupling(q: Queue, capacity: nat, stale: set<ExecId>)
    requires Coupled(q, capacity)
    ensures Coupled(Cleanup(q, stale), capacity) && QueuedIds(Cleanup(q, stale).table) == QueuedIds(q.table)
  {}

  lemma {:induction false} LoadKeepsCoupling(heap: seq<QueueItem>, capacity: nat, table: map<ExecId, Row>,
                                             entries: seq<ExecId>, catalog: Catalog)
    requires DistinctIds(heap) && |heap| <= capacity && HeapIds(heap) <= QueuedIds(table)
    requires forall i, j :: 0 <= i < j < |entries| ==> entries[i] != entries[j]
    requires forall id :: id in entries ==> id in QueuedIds(table) && id !in HeapIds(heap)
    ensures var loaded := Load(heap, capacity, table, entries, catalog);
            DistinctIds(loaded) && |loaded| <= capacity && HeapIds(loaded) <= QueuedIds(table)
    decreases |entries|
  {
    if entries != [] && |heap| < capacity {
      var id, rest := entries[0], entries[1..];
      assert id in entries && forall e :: e in rest ==> e in entries && e != id;
      if id in catalog {
        var item := Rebuilt(id, table[id].priority, catalog[id]);
        PushIds(heap, item, capacity);
        LoadKeepsCoupling(heap + [item], capacity, table, rest, catalog);
      } else {
        LoadKeepsCoupling(heap, capacity, table, rest, catalog);
      }
    }
  }

  // What is loaded: the heap as it was, and behind it exactly the items of the first `read` listed rows that can be
  // rebuilt, each with its row's priority. Reading stops before the end of the list only at a full heap.
  lemma {:induction false} LoadFills(heap: seq<QueueItem>, capacity: nat, table: map<ExecId, Row>,
                                     entries: seq<ExecId>, catalog: Catalog) returns (read: nat)
    requires forall id :: id in entries ==> id in table
    ensures read <= |entries|
    ensures var loaded := Load(heap, capacity, table, entries, catalog);
            && heap <= loaded && (read < |entries| ==> |loaded| >= capacity)
            && (|heap| <= capacity ==> |loaded| <= capacity)
            && forall x :: x in loaded[|heap|..] <==>
                 && x.executionId in entries[..read] && x.executionId in catalog
                 && x == QueueItem(x.executionId, catalog[x.executionId].id, table[x.executionId].priority)
    decreases |entries|
  {
    read := 0;
    if entries != [] && |heap| < capacity {
      var id, rest := entries[0], entries[1..];
      assert forall e :: e in rest ==> e in entries;
      if id in catalog {
        var item := QueueItem(id, catalog[id].id, table[id].priority);
        read := LoadFills(heap + [item], capacity, table, rest, catalog);
        var loaded := Load(heap, capacity, table, entries, catalog);
        assert loaded[|heap|..] == [item] + loaded[|heap + [item]|..];
      } else {
        read := LoadFills(heap, capacity, table, rest, catalog);
      }
      read := read + 1;
      assert entries[..read] == [id] + rest[..read - 1];
    }
  }

  // The rows that were waiting or interrupted.
  function Unfinished(table: map<ExecId, Row>): set<ExecId> {
    set id | id in table && table[id].status in {Queued, Processing}
  }

  // The memory holds what it held and items of unfinished rows that can be rebuilt, each with its row's priority; and
  // if there is room left in it, then all of these.
  ghost predicate FillsMemory(heap: seq<QueueItem>, capacity: nat, table: map<ExecId, Row>, catalog: Catalog,
                              loaded: seq<QueueItem>)
  {
    && heap <= loaded && (|heap| <= capacity ==> |loaded| <= capacity)
    && (forall x :: x in loaded[|heap|..] ==>
          && x.executionId in Unfinished(table) && x.executionId in catalog
          && x == QueueItem(x.executionId, catalog[x.executionId].id, table[x.executionId].priority))
    && (|loaded| < capacity ==>
          forall id :: id in Unfinished(table) && id in catalog ==>
            QueueItem(id, catalog[id].id, table[id].priority) in loaded[|heap|..])
  }

  // Recovery queues every unfinished row and fills the memory, up to the call that fails.
  ghost predicate Recovers(q: Queue, capacity: nat, env: RecoverEnv, r: Queue) {
    && r == q.(table := r.table, heap := r.heap) && r.table.Keys == q.table.Keys
    && (forall id :: id in q.table ==>
          r.table[id] == if env.resetOk && id in Unfinished(q.table) then q.table[id].(status := Queued)
                         else q.table[id])
    && if env.resetOk && env.listOk then FillsMemory(q.heap, capacity, q.table, env.catalog, r.heap)
       else r.heap == q.heap
  }

  lemma ResetQueues(table: map<ExecId, Row>)
    ensures QueuedIds(ResetTable(table)) == Unfinished(table)
  {}

  lemma RecoverFills(q: Queue, capacity: nat, env: RecoverEnv)
    requires ListingAllowed(q, env)
    ensures Recovers(q, capacity, env, Recover(q, capacity, env))
    ensures QueuedIds(ResetTable(q.table)) == Unfinished(q.table)
  {
    ResetQueues(q.table);
    if env.resetOk && env.listOk {
      var table := ResetTable(q.table);
      var read := LoadFills(q.heap, capacity, table, env.entries, env.catalog);
      assert env.entries[..|env.entries|] == env.entries;
    }
  }

  lemma RecoverKeepsCoupling(q: Queue, capacity: nat, env: RecoverEnv)
    requires q.heap == [] && ListingAllowed(q, env)
    ensures Coupled(Recover(q, capacity, env), capacity)
  {
    LoadKeepsCoupling([], capacity, ResetTable(q.table), env.entries, env.catalog);
  }

  // overflow_queue_size is exactly the number of queued rows that are not in memory.
  lemma OverflowSizeIsExact(q: Queue, capacity: nat)
    requires Coupled(q, capacity)
    ensures OverflowSize(q) == |set id | id in QueuedIds(q.table) && !HasId(q.heap, id)|
  {
    var outside := set id | id in QueuedIds(q.table) && !HasId(q.heap, id);
    HeapIdsCount(q.heap);
    forall id ensures id in outside <==> id in QueuedIds(q.table) - HeapIds(q.heap) {
      HeapIdsAre(q.heap, id);
    }
    assert outside == QueuedIds(q.table) - HeapIds(q.heap);
  }
}
