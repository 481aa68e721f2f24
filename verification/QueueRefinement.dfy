/** While nothing overflows and no database call fails, the two-tier queue is one priority queue: it always hands
    out the greatest item by priority and execution id. */
module QueueRefinement {
  import opened Wrappers
  import opened QueueItems
  import opened QueueSteps
  import opened QueueCoupling

  datatype Op = Add(item: QueueItem, now: nat) | Take | Drop(id: ExecId)

  datatype Answer = Accepted | Refused | Taken(item: Option<QueueItem>) | Dropped

  // ---- the two-tier queue ----

  function NoFaultTake(): DequeueEnv { DequeueEnv(true, true, true, true, "", map[]) }

  function Serve(q: Queue, capacity: nat, op: Op): (Queue, Answer) {
    match op
    case Add(item, now) =>
      (Enqueue(q, capacity, item, now, true), if EnqueueAnswer(q, item, true).Ok? then Accepted else Refused)
    case Take =>
      var (next, r) := Dequeue(q, NoFaultTake());
      (next, if r.Ok? then Taken(r.value) else Refused)
    case Drop(id) => (Remove(q, id, true), Dropped)
  }

  function Answers(q: Queue, capacity: nat, ops: seq<Op>): seq<Answer>
    decreases |ops|
  {
    if ops == [] then [] else
      var (next, answer) := Serve(q, capacity, ops[0]);
      [answer] + Answers(next, capacity, ops[1..])
  }

  // ---- the abstract priority queue: a set of items, and the ids that have a row ----

  datatype PriorityQueue = PriorityQueue(items: set<QueueItem>, known: set<ExecId>)

  ghost predicate IsMaximum(items: set<QueueItem>, m: QueueItem) {
    m in items && forall x :: x in items ==> AtMost(x, m)
  }

  ghost predicate HasMaximum(items: set<QueueItem>) { exists m :: IsMaximum(items, m) }

  ghost function Offer(a: PriorityQueue, op: Op): (PriorityQueue, Answer)
    requires a.items != {} ==> HasMaximum(a.items)
  {
    match op
    case Add(item, _) =>
      if item.executionId in a.known then (a, Refused)
      else (PriorityQueue(a.items + {item}, a.known + {item.executionId}), Accepted)
    case Take =>
      if a.items == {} then (a, Taken(None))
      else
        var m :| IsMaximum(a.items, m);
        (a.(items := a.items - {m}), Taken(Some(m)))
    case Drop(id) =>
      (PriorityQueue((set x | x in a.items && x.executionId != id), a.known - {id}), Dropped)
  }

  ghost function Offers(a: PriorityQueue, ops: seq<Op>): seq<Answer>
    decreases |ops|
  {
    if ops == [] then [] else
      MaximumExists(a.items);
      var (next, answer) := Offer(a, ops[0]);
      [answer] + Offers(next, ops[1..])
  }

  // No accepted item finds the memory queue full.
  ghost predicate NeverOverflows(a: PriorityQueue, capacity: nat, ops: seq<Op>)
    decreases |ops|
  {
    ops == [] ||
    (MaximumExists(a.items);
     (ops[0].Add? && ops[0].item.executionId !in a.known ==> |a.items| < capacity)
     && NeverOverflows(Offer(a, ops[0]).0, capacity, ops[1..]))
  }

  lemma {:induction false} MaximumExists(items: set<QueueItem>)
    ensures items != {} ==> HasMaximum(items)
  {
    if items != {} {
      var x :| x in items;
      var rest := items - {x};
      ItemOrderTotal(x, x);
      if rest == {} {
        assert items == {x};
        assert IsMaximum(items, x);
      } else {
        MaximumExists(rest);
        var m :| IsMaximum(rest, m);
        ItemOrderTotal(x, m);
        ItemOrderTotal(m, m);
        if AtMost(x, m) {
          assert IsMaximum(items, m);
        } else {
          forall y | y in items ensures AtMost(y, x) {
            if y != x { ItemOrderTransitive(y, m, x); }
          }
          assert IsMaximum(items, x);
        }
      }
    }
  }

  // ---- the refinement ----

  function HeapItems(heap: seq<QueueItem>): set<QueueItem> { set x | x in heap }

  // The heap holds exactly the abstract items, and no queued row lies outside it.
  ghost predicate Represents(q: Queue, a: PriorityQueue) {
    && DistinctIds(q.heap) && HeapItems(q.heap) == a.items
    && QueuedIds(q.table) == HeapIds(q.heap) && q.table.Keys == a.known
  }

  lemma SizesAgree(q: Queue, a: PriorityQueue)
    requires Represents(q, a)
    ensures |q.heap| == |a.items|
  {
    ItemsDistinct(q.heap);
  }

  lemma {:induction false} ItemsDistinct(heap: seq<QueueItem>)
    requires DistinctIds(heap)
    ensures |HeapItems(heap)| == |heap|
  {
    if heap == [] {
      assert HeapItems(heap) == {};
    } else {
      var front, last := heap[..|heap| - 1], heap[|heap| - 1];
      assert heap == front + [last];
      PushKeepsDistinct(front, last);
      MembersAndIds(front, last.executionId);
      ItemsDistinct(front);
      assert HeapItems(heap) == HeapItems(front) + {last};
    }
  }

  lemma AddRefines(q: Queue, a: PriorityQueue, capacity: nat, item: QueueItem, now: nat)
    requires Represents(q, a) && (item.executionId !in a.known ==> |a.items| < capacity)
    requires a.items != {} ==> HasMaximum(a.items)
    ensures var (next, answer) := Serve(q, capacity, Add(item, now));
            Represents(next, Offer(a, Add(item, now)).0) && answer == Offer(a, Add(item, now)).1
  {
    if item.executionId !in a.known {
      SizesAgree(q, a);
      PushedRepresents(q, a, capacity, item, now);
    }
  }

  lemma PushedRepresents(q: Queue, a: PriorityQueue, capacity: nat, item: QueueItem, now: nat)
    requires Represents(q, a) && item.executionId !in q.table && |q.heap| < capacity
    ensures Represents(Enqueue(q, capacity, item, now, true),
                       PriorityQueue(a.items + {item}, a.known + {item.executionId}))
  {
    PushIds(q.heap, item, capacity);
    assert HeapItems(q.heap + [item]) == HeapItems(q.heap) + {item};
    assert QueuedIds(q.table[item.executionId := Row(item.jobId, item.priority, Queued, now)])
         == QueuedIds(q.table) + {item.executionId};
  }

  lemma TakeRefines(q: Queue, a: PriorityQueue, capacity: nat)
    requires Represents(q, a)
    requires a.items != {} ==> HasMaximum(a.items)
    ensures var (next, answer) := Serve(q, capacity, Take);
            Represents(next, Offer(a, Take).0) && answer == Offer(a, Take).1
  {
    if q.heap == [] {
      assert HeapIds(q.heap) == {};
    } else {
      var top := Greatest(q.heap);
      assert top in a.items;
      PopIds(q.heap);
      RestIs(q.heap);
      assert IsMaximum(a.items, top);
      forall m | IsMaximum(a.items, m) ensures m == top {
        GreatestIsUnique(q.heap, m, top);
      }
      assert HeapItems(Rest(q.heap)) == a.items - {top};
      assert QueuedIds(WithStatus(q.table, top.executionId, Processing)) == QueuedIds(q.table) - {top.executionId};
    }
  }

  lemma DropRefines(q: Queue, a: PriorityQueue, capacity: nat, id: ExecId)
    requires Represents(q, a)
    requires a.items != {} ==> HasMaximum(a.items)
    ensures var (next, answer) := Serve(q, capacity, Drop(id));
            Represents(next, Offer(a, Drop(id)).0) && answer == Offer(a, Drop(id)).1
  {
    RemoveIds(q.heap, id);
    WithoutIdIs(q.heap, id);
    assert QueuedIds(q.table - {id}) == QueuedIds(q.table) - {id};
  }

  // Every trace of enqueues, dequeues and removals that never overflows gets the answers of one priority queue.
  lemma {:induction false} MatchesPriorityQueue(q: Queue, a: PriorityQueue, capacity: nat, ops: seq<Op>)
    requires Represents(q, a) && NeverOverflows(a, capacity, ops)
    ensures Answers(q, capacity, ops) == Offers(a, ops)
    decreases |ops|
  {
    if ops != [] {
      MaximumExists(a.items);
      match ops[0] {
        case Add(item, now) => AddRefines(q, a, capacity, item, now);
        case Take => TakeRefines(q, a, capacity);
        case Drop(id) => DropRefines(q, a, capacity, id);
      }
      MatchesPriorityQueue(Serve(q, capacity, ops[0]).0, Offer(a, ops[0]).0, capacity, ops[1..]);
    }
  }
}
