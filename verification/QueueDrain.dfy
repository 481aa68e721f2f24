/** Draining the queue after a recovery: every queued row leaves once, the reconstructible ones as items, in
    non-increasing priority across the boundary between memory and overflow. */
module QueueDrain {
  import opened Wrappers
  import opened QueueItems
  import opened QueueSteps
  import opened QueueCoupling
  import opened QueueListing

  // A dequeue in which no database call fails.
  function Calm(pick: ExecId, catalog: Catalog): DequeueEnv { DequeueEnv(true, true, true, true, pick, catalog) }

  function DrainAfter(q: Queue, catalog: Catalog, picks: seq<ExecId>): Queue {
    if picks == [] then q else
      Dequeue(DrainAfter(q, catalog, picks[..|picks| - 1]), Calm(picks[|picks| - 1], catalog)).0
  }

  // The items the dequeues return, None answers left out.
  function DrainOut(q: Queue, catalog: Catalog, picks: seq<ExecId>): seq<QueueItem> {
    if picks == [] then [] else
      var front := picks[..|picks| - 1];
      var r := Dequeue(DrainAfter(q, catalog, front), Calm(picks[|picks| - 1], catalog)).1;
      DrainOut(q, catalog, front) + if r.Ok? && r.value.Some? then [r.value.value] else []
  }

  ghost predicate PicksAllowed(q: Queue, catalog: Catalog, picks: seq<ExecId>) {
    picks == [] ||
    (PicksAllowed(q, catalog, picks[..|picks| - 1])
     && PickAllowed(DrainAfter(q, catalog, picks[..|picks| - 1]), Calm(picks[|picks| - 1], catalog)))
  }

  // ---- the recovered heap holds the top of the order ----

  predicate Carries(x: QueueItem, table: map<ExecId, Row>, catalog: Catalog) {
    x.executionId in catalog && x.executionId in table && x.priority == table[x.executionId].priority
  }

  // Items carry their rows' priorities, and what is reconstructible but not in memory has no higher one.
  ghost predicate TopInMemory(heap: seq<QueueItem>, table: map<ExecId, Row>, waiting: set<ExecId>, catalog: Catalog) {
    && (forall x :: x in heap ==> Carries(x, table, catalog))
    && (forall x, id :: x in heap && id in waiting && id in catalog && id in table && id !in HeapIds(heap) ==>
         x.priority >= table[id].priority)
  }

  lemma {:induction false} LoadTakesTop(heap: seq<QueueItem>, capacity: nat, table: map<ExecId, Row>,
                                        entries: seq<ExecId>, catalog: Catalog)
    requires forall id :: id in entries ==> id in table
    requires forall i, j :: 0 <= i < j < |entries| ==> Precedes(table[entries[i]], table[entries[j]])
    requires forall x :: x in heap ==> Carries(x, table, catalog)
    requires forall x, id :: x in heap && id in entries ==> x.priority >= table[id].priority
    ensures var loaded := Load(heap, capacity, table, entries, catalog);
            TopInMemory(loaded, table, (set id | id in entries), catalog) && forall x :: x in heap ==> x in loaded
    decreases |entries|
  {
    if entries != [] && |heap| < capacity {
      var id, rest := entries[0], entries[1..];
      assert forall e :: e in entries <==> e == id || e in rest;
      forall e | e in rest ensures Precedes(table[id], table[e]) {
        var k :| 0 <= k < |rest| && rest[k] == e;
        assert entries[k + 1] == e;
      }
      forall i, j | 0 <= i < j < |rest| ensures Precedes(table[rest[i]], table[rest[j]]) {
        assert rest[i] == entries[i + 1] && rest[j] == entries[j + 1];
      }
      if id in catalog {
        var item := Rebuilt(id, table[id].priority, catalog[id]);
        LoadTakesTop(heap + [item], capacity, table, rest, catalog);
        assert item in heap + [item];
        var loaded := Load(heap, capacity, table, entries, catalog);
        assert item in loaded && id in HeapIds(loaded);
      } else {
        LoadTakesTop(heap, capacity, table, rest, catalog);
      }
    }
  }

  // ---- one dequeue ----

  // The row c leaves the queue; it had the highest priority of the reconstructible rows if it is one itself.
  ghost predicate Takes(q: Queue, catalog: Catalog, next: Queue, r: Result<Option<QueueItem>>, c: ExecId) {
    && IsQueued(q, c)
    && next == q.(heap := next.heap, table := WithStatus(q.table, c, if c in catalog then Processing else RowFailed))
    && HeapIds(next.heap) == HeapIds(q.heap) - {c} && (forall x :: x in next.heap ==> x in q.heap)
    && (c !in catalog ==> r == Ok(None))
    && (c in catalog ==>
          && r.Ok? && r.value.Some? && r.value.value.executionId == c && r.value.value.priority == q.table[c].priority
          && forall id :: id in QueuedIds(q.table) && id in catalog ==> q.table[c].priority >= q.table[id].priority)
  }

  lemma TakesOne(q: Queue, capacity: nat, catalog: Catalog, pick: ExecId) returns (c: ExecId)
    requires Coupled(q, capacity) && TopInMemory(q.heap, q.table, QueuedIds(q.table), catalog)
    requires QueuedIds(q.table) != {} && PickAllowed(q, Calm(pick, catalog))
    ensures Takes(q, catalog, Dequeue(q, Calm(pick, catalog)).0, Dequeue(q, Calm(pick, catalog)).1, c)
  {
    if q.heap == [] {
      c := pick;
    } else {
      var top := Greatest(q.heap);
      c := top.executionId;
      PopIds(q.heap);
      RestIs(q.heap);
      forall id | id in QueuedIds(q.table) && id in catalog ensures q.table[c].priority >= q.table[id].priority {
        if id in HeapIds(q.heap) {
          var x :| x in q.heap && x.executionId == id;
          assert AtMost(x, top);
        }
      }
    }
  }

  lemma TakingKeepsTop(q: Queue, capacity: nat, catalog: Catalog, next: Queue, r: Result<Option<QueueItem>>, c: ExecId)
    requires TopInMemory(q.heap, q.table, QueuedIds(q.table), catalog) && Takes(q, catalog, next, r, c)
    ensures QueuedIds(next.table) == QueuedIds(q.table) - {c} && c in QueuedIds(q.table)
    ensures TopInMemory(next.heap, next.table, QueuedIds(next.table), catalog)
  {
    assert QueuedIds(next.table) == QueuedIds(q.table) - {c};
  }

  // ---- the whole drain ----

  // The rows that left the queue since q0 were taken or, if they could not be rebuilt, failed.
  ghost predicate RowsDrained(q0: Queue, catalog: Catalog, q: Queue) {
    && q.table.Keys == q0.table.Keys && QueuedIds(q.table) <= QueuedIds(q0.table)
    && (forall id :: id in q0.table ==>
          q.table[id] == if IsQueued(q, id) || !IsQueued(q0, id) then q0.table[id]
                         else q0.table[id].(status := if id in catalog then Processing else RowFailed))
  }

  // What has come out, and that it outranks what is left.
  ghost predicate Output(q0: Queue, catalog: Catalog, q: Queue, out: seq<QueueItem>) {
    && DistinctIds(out) && HeapIds(out) == (QueuedIds(q0.table) - QueuedIds(q.table)) * catalog.Keys
    && (forall i :: 0 <= i < |out| ==> Outranks(q0, catalog, q, out[i]))
    && (forall i, j :: 0 <= i < j < |out| ==> out[i].priority >= out[j].priority)
  }

  // Where a drain that began at q0 stands.
  ghost predicate Draining(q0: Queue, catalog: Catalog, q: Queue, out: seq<QueueItem>) {
    RowsDrained(q0, catalog, q) && Output(q0, catalog, q, out)
  }

  ghost predicate Outranks(q0: Queue, catalog: Catalog, q: Queue, item: QueueItem) {
    && item.executionId in q0.table && item.priority == q0.table[item.executionId].priority
    && forall id :: id in QueuedIds(q.table) && id in catalog && id in q0.table ==>
         item.priority >= q0.table[id].priority
  }

  lemma DrainStep(q0: Queue, catalog: Catalog, q: Queue, out: seq<QueueItem>, next: Queue,
                  r: Result<Option<QueueItem>>, c: ExecId)
    requires Draining(q0, catalog, q, out) && Takes(q, catalog, next, r, c)
             && QueuedIds(next.table) == QueuedIds(q.table) - {c}
    ensures Draining(q0, catalog, next, out + if r.Ok? && r.value.Some? then [r.value.value] else [])
  {
    assert c in QueuedIds(q.table) && q.table[c] == q0.table[c];
    if c in catalog {
      GrowsOutput(q0, catalog, q, out, next, r.value.value);
    } else {
      KeepsOutput(q0, catalog, q, out, next, c);
      assert out + [] == out;
    }
  }

  lemma KeepsOutput(q0: Queue, catalog: Catalog, q: Queue, out: seq<QueueItem>, next: Queue, c: ExecId)
    requires Output(q0, catalog, q, out) && c in QueuedIds(q.table) && c !in catalog
    requires QueuedIds(next.table) == QueuedIds(q.table) - {c}
    ensures Output(q0, catalog, next, out)
  {
    forall i | 0 <= i < |out| ensures Outranks(q0, catalog, next, out[i]) {
      assert Outranks(q0, catalog, q, out[i]);
    }
  }

  lemma GrowsOutput(q0: Queue, catalog: Catalog, q: Queue, out: seq<QueueItem>, next: Queue, item: QueueItem)
    requires RowsDrained(q0, catalog, q) && Output(q0, catalog, q, out)
    requires item.executionId in QueuedIds(q.table) && item.executionId in catalog
             && item.priority == q.table[item.executionId].priority
    requires forall id :: id in QueuedIds(q.table) && id in catalog ==> item.priority >= q.table[id].priority
    requires QueuedIds(next.table) == QueuedIds(q.table) - {item.executionId}
    ensures Output(q0, catalog, next, out + [item])
  {
    var c := item.executionId;
    assert QueuedIds(q0.table) - QueuedIds(next.table) == QueuedIds(q0.table) - QueuedIds(q.table) + {c};
    assert c !in HeapIds(out);
    PushIds(out, item, |out| + 1);
    TopOutranks(q0, catalog, q, next, item);
    forall i | 0 <= i < |out| ensures Outranks(q0, catalog, next, out[i]) && out[i].priority >= item.priority {
      assert Outranks(q0, catalog, q, out[i]);
    }
  }

  lemma TopOutranks(q0: Queue, catalog: Catalog, q: Queue, next: Queue, item: QueueItem)
    requires QueuedIds(next.table) <= QueuedIds(q.table) && item.executionId in QueuedIds(q.table)
    requires item.executionId in q0.table
             && item.priority == q0.table[item.executionId].priority == q.table[item.executionId].priority
    requires forall id :: id in QueuedIds(q.table) && id in q0.table ==> q.table[id] == q0.table[id]
    requires forall id :: id in QueuedIds(q.table) && id in catalog ==> item.priority >= q.table[id].priority
    ensures Outranks(q0, catalog, next, item)
  {}

  lemma {:induction false} DrainHolds(q0: Queue, capacity: nat, catalog: Catalog, picks: seq<ExecId>)
    requires Coupled(q0, capacity) && TopInMemory(q0.heap, q0.table, QueuedIds(q0.table), catalog)
    requires PicksAllowed(q0, catalog, picks) && |picks| <= |QueuedIds(q0.table)|
    ensures var q := DrainAfter(q0, catalog, picks);
            && Coupled(q, capacity) && TopInMemory(q.heap, q.table, QueuedIds(q.table), catalog)
            && |QueuedIds(q.table)| == |QueuedIds(q0.table)| - |picks|
            && Draining(q0, catalog, q, DrainOut(q0, catalog, picks))
  {
    if picks == [] {
      assert HeapIds([]) == {};
    } else {
      var front, pick := picks[..|picks| - 1], picks[|picks| - 1];
      DrainHolds(q0, capacity, catalog, front);
      var q := DrainAfter(q0, catalog, front);
      var (next, r) := Dequeue(q, Calm(pick, catalog));
      assert QueuedIds(q.table) != {};
      var c := TakesOne(q, capacity, catalog, pick);
      DequeueKeepsCoupling(q, capacity, Calm(pick, catalog));
      TakingKeepsTop(q, capacity, catalog, next, r, c);
      DrainStep(q0, catalog, q, DrainOut(q0, catalog, front), next, r, c);
    }
  }

  // Recovering q and then dequeuing once for each queued row gets from start to end and yields out.
  ghost predicate Drains(q: Queue, capacity: nat, env: RecoverEnv, start: Queue, end: Queue, out: seq<QueueItem>) {
    && q.heap == [] && ListingAllowed(q, env) && env.resetOk && env.listOk && start == Recover(q, capacity, env)
    && exists picks ::
         && |picks| == |QueuedIds(start.table)| && PicksAllowed(start, env.catalog, picks)
         && end == DrainAfter(start, env.catalog, picks) && out == DrainOut(start, env.catalog, picks)
  }

  lemma {:induction false} PicksExist(q: Queue, catalog: Catalog, n: nat) returns (picks: seq<ExecId>)
    ensures |picks| == n && PicksAllowed(q, catalog, picks)
  {
    if n == 0 {
      picks := [];
    } else {
      var front := PicksExist(q, catalog, n - 1);
      var table := DrainAfter(q, catalog, front).table;
      var pick := "";
      if QueuedIds(table) != {} { pick := BestOf(table, QueuedIds(table)); }
      picks := front + [pick];
      assert picks[..n - 1] == front;
    }
  }

  // Whatever the table and the catalog, there is such a recovery and such a sequence of dequeues.
  lemma DrainExists(q: Queue, capacity: nat, catalog: Catalog)
    returns (env: RecoverEnv, start: Queue, end: Queue, out: seq<QueueItem>)
    requires q.heap == []
    ensures env.catalog == catalog && Drains(q, capacity, env, start, end, out)
  {
    var entries := ListingExists(ResetTable(q.table));
    env := RecoverEnv(true, true, entries, catalog);
    start := Recover(q, capacity, env);
    var picks := PicksExist(start, catalog, |QueuedIds(start.table)|);
    end, out := DrainAfter(start, catalog, picks), DrainOut(start, catalog, picks);
  }

  // From any table and an empty heap, after a recovery and with no other calls and no failing ones: as many dequeues
  // as there are queued rows empty the queue. They return each reconstructible row exactly once, with its priority,
  // in non-increasing priority, whatever rows the overflow query picks among equals; the other rows end up failed.
  lemma DrainAfterRecovery(q: Queue, capacity: nat, env: RecoverEnv, start: Queue, end: Queue, out: seq<QueueItem>)
    requires Drains(q, capacity, env, start, end, out)
    ensures QueuedIds(start.table) == set id | id in q.table && q.table[id].status in {Queued, Processing}
    ensures end.heap == [] && QueuedIds(end.table) == {}
    ensures DistinctIds(out) && HeapIds(out) == QueuedIds(start.table) * env.catalog.Keys
    ensures forall x :: x in out ==> x.executionId in q.table && x.priority == q.table[x.executionId].priority
    ensures forall i, j :: 0 <= i < j < |out| ==> out[i].priority >= out[j].priority
    ensures forall id :: id in QueuedIds(start.table) ==>
              id in end.table && end.table[id].status == if id in env.catalog then Processing else RowFailed
  {
    var picks :|
      && |picks| == |QueuedIds(start.table)| && PicksAllowed(start, env.catalog, picks)
      && end == DrainAfter(start, env.catalog, picks) && out == DrainOut(start, env.catalog, picks);
    RecoveredTop(q, capacity, env);
    FullDrain(start, capacity, env.catalog, picks);
  }

  // Everything queued at start has left, the reconstructible rows as items in order.
  ghost predicate Emptied(start: Queue, catalog: Catalog, end: Queue, out: seq<QueueItem>) {
    && DistinctIds(out) && HeapIds(out) == QueuedIds(start.table) * catalog.Keys
    && (forall x :: x in out ==> x.executionId in start.table && x.priority == start.table[x.executionId].priority)
    && (forall i, j :: 0 <= i < j < |out| ==> out[i].priority >= out[j].priority)
    && (forall id :: id in QueuedIds(start.table) ==>
          id in end.table && end.table[id].status == if id in catalog then Processing else RowFailed)
  }

  lemma FullDrain(start: Queue, capacity: nat, catalog: Catalog, picks: seq<ExecId>)
    requires Coupled(start, capacity) && TopInMemory(start.heap, start.table, QueuedIds(start.table), catalog)
    requires PicksAllowed(start, catalog, picks) && |picks| == |QueuedIds(start.table)|
    ensures var end, out := DrainAfter(start, catalog, picks), DrainOut(start, catalog, picks);
            end.heap == [] && QueuedIds(end.table) == {} && Emptied(start, catalog, end, out)
  {
    DrainHolds(start, capacity, catalog, picks);
    EmptyHeap(DrainAfter(start, catalog, picks), capacity);
    AllDrained(start, catalog, DrainAfter(start, catalog, picks), DrainOut(start, catalog, picks));
  }

  lemma AllDrained(start: Queue, catalog: Catalog, end: Queue, out: seq<QueueItem>)
    requires Draining(start, catalog, end, out) && QueuedIds(end.table) == {}
    ensures Emptied(start, catalog, end, out)
  {
    forall x | x in out ensures x.executionId in start.table && x.priority == start.table[x.executionId].priority {
      var i :| 0 <= i < |out| && out[i] == x;
      assert Outranks(start, catalog, end, out[i]);
    }
    forall id | id in QueuedIds(start.table)
      ensures id in end.table && end.table[id].status == if id in catalog then Processing else RowFailed
    {
      assert id !in QueuedIds(end.table);
    }
  }

  lemma RecoveredTop(q: Queue, capacity: nat, env: RecoverEnv)
    requires q.heap == [] && ListingAllowed(q, env) && env.resetOk && env.listOk
    ensures var start := Recover(q, capacity, env);
            && Coupled(start, capacity) && TopInMemory(start.heap, start.table, QueuedIds(start.table), env.catalog)
            && start.table == ResetTable(q.table)
            && QueuedIds(start.table) == set id | id in q.table && q.table[id].status in {Queued, Processing}
  {
    var table := ResetTable(q.table);
    RecoverKeepsCoupling(q, capacity, env);
    LoadTakesTop([], capacity, table, env.entries, env.catalog);
    assert (set id | id in env.entries) == QueuedIds(table);
  }

  lemma EmptyHeap(q: Queue, capacity: nat)
    requires Coupled(q, capacity) && |QueuedIds(q.table)| == 0
    ensures QueuedIds(q.table) == {} && q.heap == []
  {
    HeapIdsCount(q.heap);
    assert HeapIds(q.heap) == {};
  }
}
