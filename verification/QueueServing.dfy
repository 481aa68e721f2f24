/** What one dequeue takes and hands out, in each tier and whichever call fails in it. */
module QueueServing {
  import opened Wrappers
  import opened QueueItems
  import opened QueueSteps
  import opened QueueCoupling

  // The listing of queued rows may begin with the row of id.
  ghost predicate ComesFirst(table: map<ExecId, Row>, id: ExecId) {
    && id in table && table[id].status == Queued
    && forall other :: other in table && table[other].status == Queued ==>
         || table[id].priority > table[other].priority
         || (table[id].priority == table[other].priority && table[id].queuedAt <= table[other].queuedAt)
  }

  // A dequeue from memory pops its greatest item. It hands the item out, with its row processing if it has one; or a
  // call fails, and no row changes.
  ghost predicate FromMemory(q: Queue, next: Queue, r: Result<Option<QueueItem>>)
    requires q.heap != []
  {
    exists item :: IsGreatest(q.heap, item) && multiset(next.heap) == multiset(q.heap) - multiset{item}
      && (r == Err(Database) || r == Ok(Some(item)))
      && next.table.Keys == q.table.Keys && OnlyTouches(q.table, next.table, {item.executionId})
      && (item.executionId in q.table ==>
            next.table[item.executionId]
            == if r.Err? then q.table[item.executionId] else q.table[item.executionId].(status := Processing))
  }

  // One from the overflow takes a row that comes first, if there is a queued one: it hands its item out, with the row's
  // priority, or marks the row failed if there is none to rebuild. After a failing call the row is at most processing.
  ghost predicate FromOverflow(q: Queue, catalog: Catalog, next: Queue, r: Result<Option<QueueItem>>) {
    && next.heap == [] && next.table.Keys == q.table.Keys
    && (next.table == q.table ==> r == Err(Database) || (r == Ok(None) && QueuedIds(q.table) == {}))
    && (next.table != q.table ==>
          exists id :: ComesFirst(q.table, id) && id in next.table && OnlyTouches(q.table, next.table, {id})
            && (r.Err? ==> next.table[id] == q.table[id].(status := Processing) && id !in catalog)
            && (r == Ok(None) ==> next.table[id] == q.table[id].(status := RowFailed) && id !in catalog)
            && (r.Ok? && r.value.Some? ==>
                  && next.table[id] == q.table[id].(status := Processing) && id in catalog
                  && r.value.value == QueueItem(id, catalog[id].id, q.table[id].priority)))
  }

  lemma MemoryServes(q: Queue, env: DequeueEnv)
    requires q.heap != []
    ensures FromMemory(q, DequeueFast(q, env).0, DequeueFast(q, env).1)
  {
    RestIs(q.heap);
    var (next, r) := DequeueFast(q, env);
    var item := Greatest(q.heap);
    assert multiset(next.heap) == multiset(q.heap) - multiset{item};
    assert r == Err(Database) || r == Ok(Some(item));
    assert OnlyTouches(q.table, next.table, {item.executionId});
  }

  lemma BestComesFirst(table: map<ExecId, Row>, id: ExecId)
    requires IsBest(table, id)
    ensures ComesFirst(table, id)
  {}

  lemma OverflowServes(q: Queue, env: DequeueEnv)
    requires q.heap == [] && PickAllowed(q, env)
    ensures FromOverflow(q, env.catalog, DequeueSlow(q, env).0, DequeueSlow(q, env).1)
  {
    var (next, r) := DequeueSlow(q, env);
    if env.selectOk && env.pick in QueuedIds(q.table) {
      BestComesFirst(q.table, env.pick);
      assert next.table[env.pick].status != Queued;
    }
  }

  // Whatever the queue holds and whichever calls fail: a dequeue serves the memory if there is anything in it, and
  // otherwise the overflow.
  lemma DequeueServes(q: Queue, env: DequeueEnv)
    requires PickAllowed(q, env)
    ensures var (next, r) := Dequeue(q, env);
            if q.heap != [] then FromMemory(q, next, r) else FromOverflow(q, env.catalog, next, r)
  {
    if q.heap != [] { MemoryServes(q, env); } else { OverflowServes(q, env); }
  }
}
