/** In which order the queue hands its executions out when nothing else happens: first the memory, greatest item first,
    then the overflow, by priority and age. */
module QueueTiers {
  import opened Wrappers
  import opened QueueItems
  import opened QueueSteps
  import opened QueueCoupling
  import opened QueueListing
  import opened QueueDrain

  // ---- the memory tier ----

  function Popped(heap: seq<QueueItem>, n: nat): (r: seq<QueueItem>)
    requires n <= |heap|
    ensures |r| == |heap| - n
  {
    if n == 0 then heap else Rest(Popped(heap, n - 1))
  }

  lemma {:induction false} DrainLength(heap: seq<QueueItem>)
    ensures |DrainHeap(heap)| == |heap|
    decreases |heap|
  {
    if heap != [] { DrainLength(Rest(heap)); }
  }

  lemma {:induction false} PoppedInOrder(heap: seq<QueueItem>, n: nat)
    requires n <= |heap| == |DrainHeap(heap)|
    ensures DrainHeap(heap)[n..] == DrainHeap(Popped(heap, n))
  {
    if n > 0 {
      var before := Popped(heap, n - 1);
      PoppedInOrder(heap, n - 1);
      assert DrainHeap(before)[1..] == DrainHeap(Rest(before));
    }
  }

  // The rows of the items that left the memory are processing; nothing else has changed.
  ghost predicate MemoryServed(q: Queue, r: Queue) {
    && r == q.(heap := r.heap, table := r.table) && r.table.Keys == q.table.Keys && HeapIds(r.heap) <= HeapIds(q.heap)
    && forall id :: id in q.table ==>
         r.table[id] == if id in HeapIds(q.heap) - HeapIds(r.heap) then q.table[id].(status := Processing)
                        else q.table[id]
  }

  lemma ServesMemory(q0: Queue, q: Queue, capacity: nat, catalog: Catalog, pick: ExecId)
    requires Coupled(q, capacity) && MemoryServed(q0, q) && q.heap != []
    ensures var (next, r) := Dequeue(q, Calm(pick, catalog));
            && Coupled(next, capacity) && MemoryServed(q0, next)
            && next.heap == Rest(q.heap) && r == Ok(Some(Greatest(q.heap)))
  {
    DequeueKeepsCoupling(q, capacity, Calm(pick, catalog));
    PopIds(q.heap);
  }

  lemma {:induction false} MemoryPhase(q: Queue, capacity: nat, catalog: Catalog, picks: seq<ExecId>)
    requires Coupled(q, capacity) && |picks| <= |q.heap|
    ensures var r := DrainAfter(q, catalog, picks);
            && Coupled(r, capacity) && MemoryServed(q, r) && r.heap == Popped(q.heap, |picks|)
            && |DrainHeap(q.heap)| == |q.heap| && DrainOut(q, catalog, picks) == DrainHeap(q.heap)[..|picks|]
  {
    DrainLength(q.heap);
    if picks != [] {
      var front, pick := picks[..|picks| - 1], picks[|picks| - 1];
      MemoryPhase(q, capacity, catalog, front);
      ServesMemory(q, DrainAfter(q, catalog, front), capacity, catalog, pick);
      NextPopped(q.heap, |front|);
    }
  }

  lemma NextPopped(heap: seq<QueueItem>, n: nat)
    requires n < |heap| == |DrainHeap(heap)|
    ensures DrainHeap(heap)[..n + 1] == DrainHeap(heap)[..n] + [Greatest(Popped(heap, n))]
  {
    PoppedInOrder(heap, n);
    assert DrainHeap(heap)[n] == DrainHeap(heap)[n..][0] == DrainHeap(Popped(heap, n))[0];
  }

  // ---- the overflow tier ----

  // a outranks b, or is at least as old and of the same priority.
  predicate ServedBefore(a: Row, b: Row) {
    if a.priority == b.priority then a.queuedAt <= b.queuedAt else a.priority > b.priority
  }

  // The overflow rows that have left, and what came out for those that can be rebuilt.
  ghost predicate OverflowServed(q0: Queue, catalog: Catalog, q: Queue, out: seq<QueueItem>) {
    && q.heap == [] && RowsDrained(q0, catalog, q)
    && DistinctIds(out) && HeapIds(out) == (QueuedIds(q0.table) - QueuedIds(q.table)) * catalog.Keys
    && AreRebuilt(q0, catalog, out) && InServiceOrder(q0, out)
    && (forall x, id :: x in out && id in QueuedIds(q.table) && x.executionId in q0.table && id in q0.table ==>
          ServedBefore(q0.table[x.executionId], q0.table[id]))
  }

  // The items carry the priorities of their rows and the jobs that the catalog names.
  ghost predicate AreRebuilt(q: Queue, catalog: Catalog, out: seq<QueueItem>) {
    forall x :: x in out ==>
      && x.executionId in q.table && x.executionId in catalog
      && x == QueueItem(x.executionId, catalog[x.executionId].id, q.table[x.executionId].priority)
  }

  ghost predicate InServiceOrder(q0: Queue, out: seq<QueueItem>) {
    forall i, j :: 0 <= i < j < |out| && out[i].executionId in q0.table && out[j].executionId in q0.table ==>
      ServedBefore(q0.table[out[i].executionId], q0.table[out[j].executionId])
  }

  lemma ServesOverflow(q0: Queue, catalog: Catalog, q: Queue, out: seq<QueueItem>, pick: ExecId)
    requires OverflowServed(q0, catalog, q, out)
    requires QueuedIds(q.table) != {} && PickAllowed(q, Calm(pick, catalog))
    ensures var (next, r) := Dequeue(q, Calm(pick, catalog));
            && QueuedIds(next.table) == QueuedIds(q.table) - {pick} && pick in QueuedIds(q.table)
            && OverflowServed(q0, catalog, next, out + if r.Ok? && r.value.Some? then [r.value.value] else [])
  {
    var (next, r) := Dequeue(q, Calm(pick, catalog));
    assert q.table[pick] == q0.table[pick];
    assert next.table == WithStatus(q.table, pick, if pick in catalog then Processing else RowFailed);
    assert QueuedIds(next.table) == QueuedIds(q.table) - {pick};
    assert forall id :: id in QueuedIds(q.table) ==> q.table[id] == q0.table[id];
    PickOutranks(q0, q, pick);
    if pick in catalog {
      OneMoreServed(q0, catalog, q, out, next, QueueItem(pick, catalog[pick].id, q0.table[pick].priority));
    } else {
      assert out + [] == out;
    }
  }

  lemma PickOutranks(q0: Queue, q: Queue, pick: ExecId)
    requires IsBest(q.table, pick)
    requires forall id :: id in QueuedIds(q.table) ==> id in q0.table && q.table[id] == q0.table[id]
    ensures forall id :: id in QueuedIds(q.table) ==> ServedBefore(q0.table[pick], q0.table[id])
  {}

  lemma OneMoreServed(q0: Queue, catalog: Catalog, q: Queue, out: seq<QueueItem>, next: Queue, item: QueueItem)
    requires OverflowServed(q0, catalog, q, out) && next.heap == [] && RowsDrained(q0, catalog, next)
    requires item.executionId in QueuedIds(q.table) && item.executionId in catalog && item.executionId in q0.table
    requires QueuedIds(next.table) == QueuedIds(q.table) - {item.executionId}
    requires item == QueueItem(item.executionId, catalog[item.executionId].id, q0.table[item.executionId].priority)
    requires forall id :: id in QueuedIds(q.table) && id in q0.table ==>
               ServedBefore(q0.table[item.executionId], q0.table[id])
    ensures OverflowServed(q0, catalog, next, out + [item])
  {
    OneMoreId(QueuedIds(q0.table), QueuedIds(q.table), catalog.Keys, out, item);
    AppendedInOrder(q0, out, item);
    AppendedRebuilt(q0, catalog, out, item);
  }

  lemma OneMoreId(all: set<ExecId>, left: set<ExecId>, known: set<ExecId>, out: seq<QueueItem>, item: QueueItem)
    requires left <= all && DistinctIds(out) && HeapIds(out) == (all - left) * known
    requires item.executionId in left && item.executionId in known
    ensures DistinctIds(out + [item]) && HeapIds(out + [item]) == (all - (left - {item.executionId})) * known
  {
    assert item.executionId !in HeapIds(out);
    PushIds(out, item, |out| + 1);
  }

  lemma AppendedRebuilt(q0: Queue, catalog: Catalog, out: seq<QueueItem>, item: QueueItem)
    requires AreRebuilt(q0, catalog, out) && AreRebuilt(q0, catalog, [item])
    ensures AreRebuilt(q0, catalog, out + [item])
  {}

  lemma AppendedInOrder(q0: Queue, out: seq<QueueItem>, item: QueueItem)
    requires InServiceOrder(q0, out) && item.executionId in q0.table
    requires forall x :: x in out && x.executionId in q0.table ==>
               ServedBefore(q0.table[x.executionId], q0.table[item.executionId])
    ensures InServiceOrder(q0, out + [item])
  {
    assert forall i :: 0 <= i < |out| ==> out[i] in out;
  }

  // ---- both ----

  lemma OverflowBegins(q: Queue, catalog: Catalog)
    requires q.heap == []
    ensures OverflowServed(q, catalog, q, [])
  {
    assert HeapIds([]) == {};
  }

  // After the first |q.heap| dequeues, which led to `middle`, the overflow is served.
  lemma {:induction false} OverflowPhase(q: Queue, capacity: nat, catalog: Catalog, picks: seq<ExecId>, middle: Queue)
    requires Coupled(q, capacity) && |q.heap| <= |picks| <= |QueuedIds(q.table)| && PicksAllowed(q, catalog, picks)
    requires middle == DrainAfter(q, catalog, picks[..|q.heap|]) && MemoryEmpty(q, middle)
    ensures PhasesDone(q, catalog, picks, middle, DrainAfter(q, catalog, picks), DrainOut(q, catalog, picks))
  {
    if |picks| == |q.heap| {
      assert picks[..|q.heap|] == picks;
      MemoryPhase(q, capacity, catalog, picks);
      PhaseBegins(q, catalog, picks, middle, DrainOut(q, catalog, picks));
    } else {
      var front, pick := picks[..|picks| - 1], picks[|picks| - 1];
      assert front[..|q.heap|] == picks[..|q.heap|];
      OverflowPhase(q, capacity, catalog, front, middle);
      PhaseStep(q, catalog, front, middle, DrainAfter(q, catalog, front), DrainOut(q, catalog, front), pick);
    }
  }

  ghost predicate MemoryEmpty(q: Queue, middle: Queue) {
    && middle.heap == [] && QueuedIds(middle.table) == QueuedIds(q.table) - HeapIds(q.heap)
    && |QueuedIds(middle.table)| == |QueuedIds(q.table)| - |q.heap|
    && forall id :: id in QueuedIds(middle.table) ==> middle.table[id] == q.table[id]
  }

  ghost predicate PhasesDone(q: Queue, catalog: Catalog, picks: seq<ExecId>, middle: Queue, r: Queue,
                             out: seq<QueueItem>)
  {
    && |q.heap| <= |out| && out[..|q.heap|] == DrainHeap(q.heap)
    && OverflowServed(middle, catalog, r, out[|q.heap|..])
    && |QueuedIds(r.table)| == |QueuedIds(q.table)| - |picks|
  }

  lemma PhaseBegins(q: Queue, catalog: Catalog, picks: seq<ExecId>, middle: Queue, out: seq<QueueItem>)
    requires MemoryEmpty(q, middle) && |picks| == |q.heap| == |DrainHeap(q.heap)|
    requires out == DrainHeap(q.heap)[..|picks|]
    ensures PhasesDone(q, catalog, picks, middle, middle, out)
  {
    OverflowBegins(middle, catalog);
    assert out == DrainHeap(q.heap) && out[|q.heap|..] == [] && out[..|q.heap|] == out;
  }

  lemma PhaseStep(q: Queue, catalog: Catalog, front: seq<ExecId>, middle: Queue, r: Queue, out: seq<QueueItem>,
                  pick: ExecId)
    requires PhasesDone(q, catalog, front, middle, r, out) && |front| < |QueuedIds(q.table)|
    requires PickAllowed(r, Calm(pick, catalog))
    ensures var (next, answer) := Dequeue(r, Calm(pick, catalog));
            PhasesDone(q, catalog, front + [pick], middle, next,
                       out + if answer.Ok? && answer.value.Some? then [answer.value.value] else [])
  {
    assert QueuedIds(r.table) != {};
    ServesOverflow(middle, catalog, r, out[|q.heap|..], pick);
    var (next, answer) := Dequeue(r, Calm(pick, catalog));
    var more := if answer.Ok? && answer.value.Some? then [answer.value.value] else [];
    SubsetIsSmaller({pick}, QueuedIds(r.table));
    PhaseExtends(q, catalog, front, middle, next, out, pick, more);
  }

  lemma PhaseExtends(q: Queue, catalog: Catalog, front: seq<ExecId>, middle: Queue, next: Queue, out: seq<QueueItem>,
                     pick: ExecId, more: seq<QueueItem>)
    requires |q.heap| <= |out| && out[..|q.heap|] == DrainHeap(q.heap)
    requires OverflowServed(middle, catalog, next, out[|q.heap|..] + more)
    requires |QueuedIds(next.table)| == |QueuedIds(q.table)| - |front| - 1
    ensures PhasesDone(q, catalog, front + [pick], middle, next, out + more)
  {
    assert (out + more)[|q.heap|..] == out[|q.heap|..] + more && (out + more)[..|q.heap|] == out[..|q.heap|];
  }

  // n dequeues, one for each queued row, with nothing else in between and no failing call: what comes out.
  ghost predicate Serves(q: Queue, catalog: Catalog, end: Queue, out: seq<QueueItem>) {
    exists picks :: ServesWith(q, catalog, picks, end, out)
  }

  ghost predicate ServesWith(q: Queue, catalog: Catalog, picks: seq<ExecId>, end: Queue, out: seq<QueueItem>) {
    && |picks| == |QueuedIds(q.table)| && PicksAllowed(q, catalog, picks)
    && end == DrainAfter(q, catalog, picks) && out == DrainOut(q, catalog, picks)
  }

  lemma ServingExists(q: Queue, catalog: Catalog) returns (end: Queue, out: seq<QueueItem>)
    ensures Serves(q, catalog, end, out)
  {
    var picks := PicksExist(q, catalog, |QueuedIds(q.table)|);
    end, out := DrainAfter(q, catalog, picks), DrainOut(q, catalog, picks);
    assert ServesWith(q, catalog, picks, end, out);
  }

  // The overflow part of an output: the queued rows outside memory that can be rebuilt, each once, with its priority,
  // by priority and, where that is equal, by age.
  ghost predicate OverflowInOrder(q: Queue, catalog: Catalog, out: seq<QueueItem>) {
    && DistinctIds(out) && HeapIds(out) == (QueuedIds(q.table) - HeapIds(q.heap)) * catalog.Keys
    && AreRebuilt(q, catalog, out) && InServiceOrder(q, out)
  }

  // Whatever the queue holds, as long as memory and rows are coupled: the items in memory come out first, in their
  // order, and then the overflow in its own, whichever of equal rows the query picks.
  lemma ServedByTier(q: Queue, capacity: nat, catalog: Catalog, end: Queue, out: seq<QueueItem>)
    requires Coupled(q, capacity) && Serves(q, catalog, end, out)
    ensures end.heap == [] && QueuedIds(end.table) == {} && |q.heap| <= |out|
    ensures out[..|q.heap|] == DrainHeap(q.heap) && OverflowInOrder(q, catalog, out[|q.heap|..])
  {
    var picks :| ServesWith(q, catalog, picks, end, out);
    HeapIdsCount(q.heap);
    SubsetIsSmaller(HeapIds(q.heap), QueuedIds(q.table));
    var first := picks[..|q.heap|];
    var middle := DrainAfter(q, catalog, first);
    MemoryPhase(q, capacity, catalog, first);
    MemoryEmptied(q, middle);
    OverflowPhase(q, capacity, catalog, picks, middle);
    OverflowOrdered(q, catalog, middle, end, out[|q.heap|..]);
  }

  lemma SubsetIsSmaller(a: set<ExecId>, b: set<ExecId>)
    requires a <= b
    ensures |b - a| == |b| - |a| >= 0
  {
    assert b == a + (b - a);
  }

  lemma MemoryEmptied(q: Queue, middle: Queue)
    requires MemoryServed(q, middle) && |middle.heap| == 0 && HeapIds(q.heap) <= QueuedIds(q.table)
    requires |HeapIds(q.heap)| == |q.heap|
    ensures MemoryEmpty(q, middle)
  {
    assert HeapIds(middle.heap) == {};
    assert QueuedIds(middle.table) == QueuedIds(q.table) - HeapIds(q.heap);
    SubsetIsSmaller(HeapIds(q.heap), QueuedIds(q.table));
  }

  lemma OverflowOrdered(q: Queue, catalog: Catalog, middle: Queue, end: Queue, out: seq<QueueItem>)
    requires OverflowServed(middle, catalog, end, out) && |QueuedIds(end.table)| == 0
    requires QueuedIds(middle.table) == QueuedIds(q.table) - HeapIds(q.heap)
    requires forall id :: id in QueuedIds(middle.table) ==> middle.table[id] == q.table[id]
    ensures QueuedIds(end.table) == {} && OverflowInOrder(q, catalog, out)
  {
    assert QueuedIds(end.table) == {};
    assert HeapIds(out) == QueuedIds(middle.table) * catalog.Keys;
    OutputWasQueued(q, middle, out);
    SameServiceOrder(q, middle, out);
    SameItems(q, catalog, middle, out);
  }

  lemma OutputWasQueued(q: Queue, middle: Queue, out: seq<QueueItem>)
    requires HeapIds(out) <= QueuedIds(middle.table) <= QueuedIds(q.table)
    requires forall id :: id in QueuedIds(middle.table) ==> middle.table[id] == q.table[id]
    ensures forall i :: 0 <= i < |out| ==> QueuedBefore(q, middle, out[i])
  {
    forall i | 0 <= i < |out| ensures QueuedBefore(q, middle, out[i]) {
      assert out[i] in out && out[i].executionId in HeapIds(out);
    }
  }

  predicate QueuedBefore(q: Queue, middle: Queue, x: QueueItem) {
    x.executionId in q.table && x.executionId in middle.table && middle.table[x.executionId] == q.table[x.executionId]
  }

  lemma SameItems(q: Queue, catalog: Catalog, middle: Queue, out: seq<QueueItem>)
    requires forall i :: 0 <= i < |out| ==> QueuedBefore(q, middle, out[i])
    requires AreRebuilt(middle, catalog, out)
    ensures AreRebuilt(q, catalog, out)
  {
    forall x | x in out ensures QueuedBefore(q, middle, x) {
      var i :| 0 <= i < |out| && out[i] == x;
    }
  }

  lemma SameServiceOrder(q: Queue, middle: Queue, out: seq<QueueItem>)
    requires InServiceOrder(middle, out) && forall i :: 0 <= i < |out| ==> QueuedBefore(q, middle, out[i])
    ensures InServiceOrder(q, out)
  {
    forall i, j | 0 <= i < j < |out|
      ensures out[i].executionId in q.table && out[j].executionId in q.table
      ensures ServedBefore(q.table[out[i].executionId], q.table[out[j].executionId])
    {
      assert QueuedBefore(q, middle, out[i]) && QueuedBefore(q, middle, out[j]);
    }
  }
}
