/** The two-tier queue as a value, and what each call of the queue manager does to it
    (src/queue/manager.rs, src/db/queue.rs, src/models/queue.rs). Any database call may fail; which ones do is part
    of a call's input. */
module QueueSteps {
  import opened Wrappers
  import opened QueueItems

  datatype RowStatus = Queued | Processing | Completed | RowFailed | DeadLetter

  // queuedAt is a logical clock.
  datatype Row = Row(jobId: string, priority: int, status: RowStatus, queuedAt: nat)

  // A requeued execution whose item is still to be pushed: with its row's priority if it was requeued
  // by hand, with its job's if by a spawned retry.
  datatype Push = Push(id: ExecId, priority: Option<int>)

  // job_queue is keyed by execution_id, which is unique. `pending` holds the retries that sleep, `pushes`
  // those that have requeued their row and wait for the lock.
  datatype Queue = Queue(heap: seq<QueueItem>, table: map<ExecId, Row>, pending: multiset<ExecId>,
                         pushes: multiset<Push>)

  // What can be read back about an execution when its item is rebuilt: its job and the job's priority.
  datatype Job = Job(id: string, priority: int)

  type Catalog = map<ExecId, Job>

  function QueuedIds(table: map<ExecId, Row>): (r: set<ExecId>)
    ensures r <= table.Keys
  {
    set id | id in table && table[id].status == Queued
  }

  predicate IsQueued(q: Queue, id: ExecId) { id in q.table && q.table[id].status == Queued }

  // ORDER BY priority DESC, queued_at ASC: may a be listed before b?
  predicate Precedes(a: Row, b: Row) {
    a.priority > b.priority || (a.priority == b.priority && a.queuedAt <= b.queuedAt)
  }

  // LIMIT 1 of that order: ties are broken arbitrarily.
  predicate IsBest(table: map<ExecId, Row>, id: ExecId) {
    id in QueuedIds(table) && forall other :: other in QueuedIds(table) ==> Precedes(table[id], table[other])
  }

  function WithStatus(table: map<ExecId, Row>, id: ExecId, status: RowStatus): (r: map<ExecId, Row>)
    requires id in table
    ensures r.Keys == table.Keys
  {
    table[id := table[id].(status := status)]
  }

  function PushBounded(heap: seq<QueueItem>, item: QueueItem, capacity: nat): seq<QueueItem> {
    if |heap| < capacity then heap + [item] else heap
  }

  // ---- enqueue ----

  function EnqueueAnswer(q: Queue, item: QueueItem, dbOk: bool): Result<()> {
    if !dbOk || item.executionId in q.table then Err(Database) else Ok(())
  }

  function Enqueue(q: Queue, capacity: nat, item: QueueItem, now: nat, dbOk: bool): Queue {
    if EnqueueAnswer(q, item, dbOk).Err? then q
    else q.(table := q.table[item.executionId := Row(item.jobId, item.priority, Queued, now)],
            heap := PushBounded(q.heap, item, capacity))
  }

  // ---- dequeue ----

  // Which database calls succeed, and what the catalog yields, during one dequeue. `pick` is the
  // row that the overflow query selects among equals.
  datatype DequeueEnv = DequeueEnv(getOk: bool, updateOk: bool, selectOk: bool, settleOk: bool,
                                   pick: ExecId, catalog: Catalog)

  ghost predicate PickAllowed(q: Queue, env: DequeueEnv) {
    q.heap == [] && QueuedIds(q.table) != {} ==> IsBest(q.table, env.pick)
  }

  function Rebuilt(id: ExecId, priority: int, job: Job): QueueItem { QueueItem(id, job.id, priority) }

  function DequeueFast(q: Queue, env: DequeueEnv): (Queue, Result<Option<QueueItem>>)
    requires q.heap != []
  {
    var item := Greatest(q.heap);
    var popped := q.(heap := Rest(q.heap));
    if !env.getOk then (popped, Err(Database))
    else if item.executionId !in q.table then (popped, Ok(Some(item)))
    else if !env.updateOk then (popped, Err(Database))
    else (popped.(table := WithStatus(q.table, item.executionId, Processing)), Ok(Some(item)))
  }

  function DequeueSlow(q: Queue, env: DequeueEnv): (Queue, Result<Option<QueueItem>>) {
    if !env.selectOk then (q, Err(Database))
    else if env.pick !in QueuedIds(q.table) then (q, Ok(None))
    else
      var taken := q.(table := WithStatus(q.table, env.pick, Processing));
      if env.pick in env.catalog
      then (taken, Ok(Some(Rebuilt(env.pick, q.table[env.pick].priority, env.catalog[env.pick]))))
      else if !env.settleOk then (taken, Err(Database))
      else (q.(table := WithStatus(q.table, env.pick, RowFailed)), Ok(None))
  }

  function Dequeue(q: Queue, env: DequeueEnv): (Queue, Result<Option<QueueItem>>) {
    if q.heap != [] then DequeueFast(q, env) else DequeueSlow(q, env)
  }

  predicate HandsOut(q: Queue, env: DequeueEnv, id: ExecId) {
    var r := Dequeue(q, env).1;
    r.Ok? && r.value.Some? && r.value.value.executionId == id
  }

  // ---- remove ----

  function Remove(q: Queue, id: ExecId, dbOk: bool): Queue {
    q.(heap := WithoutId(q.heap, id), table := if dbOk then q.table - {id} else q.table)
  }

  // ---- settling a row ----

  datatype RowFaults = RowFaults(getOk: bool, getAgainOk: bool, updateOk: bool)

  const NO_ROW_FAULTS := RowFaults(true, true, true)

  // Read the row and write it back with a new status; nothing happens if there is no row.
  function SetStatus(q: Queue, id: ExecId, status: RowStatus, getOk: bool, updateOk: bool): Queue {
    if getOk && updateOk && id in q.table then q.(table := WithStatus(q.table, id, status)) else q
  }

  function SetStatusAnswer(q: Queue, id: ExecId, getOk: bool, updateOk: bool): Result<()> {
    if !getOk || (id in q.table && !updateOk) then Err(Database) else Ok(())
  }

  // Retry after a delay while attempts remain, otherwise the dead letter queue.
  function FailWithRetry(q: Queue, id: ExecId, retryCount: int, maxRetries: int, faults: RowFaults)
    : (Queue, Result<bool>)
  {
    if retryCount < maxRetries && !faults.getOk then (q, Err(Database))
    else if retryCount < maxRetries && id in q.table then (q.(pending := q.pending + multiset{id}), Ok(true))
    else
      var getOk := if retryCount < maxRetries then faults.getAgainOk else faults.getOk;
      (SetStatus(q, id, DeadLetter, getOk, faults.updateOk),
       if SetStatusAnswer(q, id, getOk, faults.updateOk).Err? then Err(Database) else Ok(false))
  }

  // ---- a spawned retry, after its delay ----

  // First the row is requeued, outside the lock; nothing checks that it still exists.
  function RequeueRetried(q: Queue, id: ExecId, dbOk: bool): Queue {
    var woken := q.(pending := q.pending - multiset{id});
    if !dbOk then woken
    else woken.(table := if id in q.table then WithStatus(q.table, id, Queued) else q.table,
                pushes := q.pushes + multiset{Push(id, None)})
  }

  function PushedItem(p: Push, job: Job): QueueItem {
    Rebuilt(p.id, if p.priority.Some? then p.priority.value else job.priority, job)
  }

  predicate Pushes(q: Queue, capacity: nat, p: Push, catalog: Catalog) {
    p.id in catalog && |q.heap| < capacity
  }

  // Then the rebuilt item is pushed, under the lock; nothing checks the row again.
  function PushRequeued(q: Queue, capacity: nat, p: Push, catalog: Catalog): Queue {
    var done := q.(pushes := q.pushes - multiset{p});
    if p.id in catalog then done.(heap := PushBounded(q.heap, PushedItem(p, catalog[p.id]), capacity)) else done
  }

  // ---- a manual retry of a dead-lettered execution ----

  // The first half; the second is the same push.
  function RequeueDead(q: Queue, id: ExecId, faults: RowFaults): (Queue, Result<()>) {
    if !faults.getOk then (q, Err(Database))
    else if id !in q.table then (q, Ok(()))
    else if q.table[id].status != DeadLetter then (q, Err(Validation(NotDeadLetter)))
    else if !faults.updateOk then (q, Err(Database))
    else (q.(table := WithStatus(q.table, id, Queued),
             pushes := q.pushes + multiset{Push(id, Some(q.table[id].priority))}), Ok(()))
  }

  // ---- crash and recovery ----

  function Crash(q: Queue): Queue { q.(heap := [], pending := multiset{}, pushes := multiset{}) }

  function ResetRow(row: Row): Row { if row.status == Processing then row.(status := Queued) else row }

  function ResetTable(table: map<ExecId, Row>): (r: map<ExecId, Row>)
    ensures r.Keys == table.Keys
  {
    map id | id in table :: ResetRow(table[id])
  }

  // SELECT ... WHERE status = 'queued' ORDER BY priority DESC, queued_at ASC
  ghost predicate IsListing(table: map<ExecId, Row>, entries: seq<ExecId>) {
    && (forall i, j :: 0 <= i < j < |entries| ==> entries[i] != entries[j])
    && (forall i :: 0 <= i < |entries| ==> entries[i] in QueuedIds(table))
    && (forall id :: id in QueuedIds(table) ==> id in entries)
    && (forall i, j :: 0 <= i < j < |entries| ==> Precedes(table[entries[i]], table[entries[j]]))
  }

  // Load entries until the heap is full, skipping those that cannot be rebuilt.
  function Load(heap: seq<QueueItem>, capacity: nat, table: map<ExecId, Row>, entries: seq<ExecId>,
                catalog: Catalog): seq<QueueItem>
    requires forall id :: id in entries ==> id in table
    decreases |entries|
  {
    if entries == [] || |heap| >= capacity then heap
    else if entries[0] in catalog
    then
      var item := Rebuilt(entries[0], table[entries[0]].priority, catalog[entries[0]]);
      Load(heap + [item], capacity, table, entries[1..], catalog)
    else Load(heap, capacity, table, entries[1..], catalog)
  }

  datatype RecoverEnv = RecoverEnv(resetOk: bool, listOk: bool, entries: seq<ExecId>, catalog: Catalog)

  ghost predicate ListingAllowed(q: Queue, env: RecoverEnv) { IsListing(ResetTable(q.table), env.entries) }

  ghost function Recover(q: Queue, capacity: nat, env: RecoverEnv): Queue
    requires ListingAllowed(q, env)
  {
    if !env.resetOk then q
    else
      var table := ResetTable(q.table);
      if !env.listOk then q.(table := table)
      else q.(table := table, heap := Load(q.heap, capacity, table, env.entries, env.catalog))
  }

  // ---- retention and deletion ----

  // Old completed and failed rows are deleted; which ones are old is up to the clock.
  function Cleanup(q: Queue, stale: set<ExecId>): Queue {
    q.(table := map id | id in q.table && !(id in stale && q.table[id].status in {Completed, RowFailed}) :: q.table[id])
  }

  // Deleting executions or their jobs cascades to the rows; nothing touches the heap.
  function DeleteRows(q: Queue, ids: set<ExecId>): Queue { q.(table := q.table - ids) }

  // total.saturating_sub(memory_size), on 64-bit counts
  function OverflowSize(q: Queue): int { |QueuedIds(q.table)| - |q.heap| }
}
