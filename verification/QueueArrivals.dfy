/** Enqueuing into an empty queue and then dequeuing: in which order the executions come out, by the priorities they
    were enqueued with. */
module QueueArrivals {
  import opened Wrappers
  import opened QueueItems
  import opened QueueSteps
  import opened QueueCoupling
  import opened QueueDrain
  import opened QueueTiers

  datatype Arrival = Arrival(item: QueueItem, now: nat)

  function EnqueueAll(capacity: nat, arrivals: seq<Arrival>): Queue {
    if arrivals == [] then Queue([], map[], multiset{}, multiset{})
    else
      var last := arrivals[|arrivals| - 1];
      Enqueue(EnqueueAll(capacity, arrivals[..|arrivals| - 1]), capacity, last.item, last.now, true)
  }

  predicate HasArrived(arrivals: seq<Arrival>, id: ExecId) {
    exists i :: 0 <= i < |arrivals| && arrivals[i].item.executionId == id
  }

  // The first arrival of each execution; the others are refused.
  function FirstArrivals(arrivals: seq<Arrival>): seq<Arrival> {
    if arrivals == [] then []
    else
      var front, last := arrivals[..|arrivals| - 1], arrivals[|arrivals| - 1];
      FirstArrivals(front) + if HasArrived(front, last.item.executionId) then [] else [last]
  }

  function ItemsOf(arrivals: seq<Arrival>): (items: seq<QueueItem>)
    ensures |items| == |arrivals| && forall i :: 0 <= i < |items| ==> items[i] == arrivals[i].item
  {
    seq(|arrivals|, i requires 0 <= i < |arrivals| => arrivals[i].item)
  }

  function IdsOf(arrivals: seq<Arrival>): set<ExecId> { set a | a in arrivals :: a.item.executionId }

  function AtMostOf(n: nat, capacity: nat): nat { if n < capacity then n else capacity }

  // The first arrivals up to the capacity are in memory, and each has its row.
  ghost predicate Holds(q: Queue, capacity: nat, firsts: seq<Arrival>) {
    && Coupled(q, capacity) && q.heap == ItemsOf(firsts[..AtMostOf(|firsts|, capacity)])
    && QueuedIds(q.table) == q.table.Keys == IdsOf(firsts)
    && (forall a :: a in firsts ==> HasRow(q, a)) && DistinctIds(ItemsOf(firsts))
  }

  predicate HasRow(q: Queue, a: Arrival) {
    && a.item.executionId in q.table
    && q.table[a.item.executionId] == Row(a.item.jobId, a.item.priority, Queued, a.now)
  }

  lemma {:induction false} FirstArrivalsIds(arrivals: seq<Arrival>, id: ExecId)
    ensures id in IdsOf(FirstArrivals(arrivals)) <==> HasArrived(arrivals, id)
  {
    if arrivals != [] {
      var front, last := arrivals[..|arrivals| - 1], arrivals[|arrivals| - 1];
      FirstArrivalsIds(front, id);
      FirstArrivalsIds(front, last.item.executionId);
      assert arrivals == front + [last];
      assert HasArrived(arrivals, id) <==> HasArrived(front, id) || last.item.executionId == id;
      assert IdsOf(FirstArrivals(front) + [last]) == IdsOf(FirstArrivals(front)) + {last.item.executionId};
    }
  }

  lemma NextInMemory(capacity: nat, firsts: seq<Arrival>, a: Arrival)
    ensures PushBounded(ItemsOf(firsts[..AtMostOf(|firsts|, capacity)]), a.item, capacity)
         == ItemsOf((firsts + [a])[..AtMostOf(|firsts| + 1, capacity)])
  {
    var more, n := firsts + [a], AtMostOf(|firsts|, capacity);
    if |firsts| < capacity {
      assert more[..n + 1] == more && firsts[..n] == firsts;
    } else {
      assert more[..n] == firsts[..n];
    }
  }

  lemma NextIds(firsts: seq<Arrival>, a: Arrival)
    requires DistinctIds(ItemsOf(firsts)) && a.item.executionId !in IdsOf(firsts)
    ensures IdsOf(firsts + [a]) == IdsOf(firsts) + {a.item.executionId} && DistinctIds(ItemsOf(firsts + [a]))
  {
    assert ItemsOf(firsts + [a]) == ItemsOf(firsts) + [a.item];
    forall i | 0 <= i < |firsts| ensures ItemsOf(firsts)[i].executionId != a.item.executionId {
      assert firsts[i] in firsts;
    }
    PushKeepsDistinct(ItemsOf(firsts), a.item);
  }

  lemma NextRows(q: Queue, capacity: nat, firsts: seq<Arrival>, a: Arrival)
    requires QueuedIds(q.table) == q.table.Keys == IdsOf(firsts) && a.item.executionId !in q.table
    requires forall b :: b in firsts ==> HasRow(q, b)
    ensures var r := Enqueue(q, capacity, a.item, a.now, true);
            && QueuedIds(r.table) == r.table.Keys == IdsOf(firsts) + {a.item.executionId}
            && forall b :: b in firsts + [a] ==> HasRow(r, b)
  {
    var r := Enqueue(q, capacity, a.item, a.now, true);
    assert QueuedIds(r.table) == QueuedIds(q.table) + {a.item.executionId};
  }

  lemma EnqueueHolds(q: Queue, capacity: nat, firsts: seq<Arrival>, a: Arrival)
    requires Holds(q, capacity, firsts) && a.item.executionId !in IdsOf(firsts)
    ensures Holds(Enqueue(q, capacity, a.item, a.now, true), capacity, firsts + [a])
  {
    EnqueueKeepsCoupling(q, capacity, a.item, a.now, true);
    NextInMemory(capacity, firsts, a);
    NextIds(firsts, a);
    NextRows(q, capacity, firsts, a);
  }

  lemma {:induction false} EnqueueAllHolds(capacity: nat, arrivals: seq<Arrival>)
    ensures Holds(EnqueueAll(capacity, arrivals), capacity, FirstArrivals(arrivals))
  {
    if arrivals != [] {
      var front, last := arrivals[..|arrivals| - 1], arrivals[|arrivals| - 1];
      EnqueueAllHolds(capacity, front);
      FirstArrivalsIds(front, last.item.executionId);
      if HasArrived(front, last.item.executionId) {
        assert FirstArrivals(arrivals) == FirstArrivals(front);
      } else {
        EnqueueHolds(EnqueueAll(capacity, front), capacity, FirstArrivals(front), last);
      }
    }
  }

  // ---- and then handed out ----

  // What comes out of the overflow: the arrivals that found the memory full, each once if it can be rebuilt, under the
  // priority it was enqueued with.
  ghost predicate ComesFrom(late: seq<Arrival>, catalog: Catalog, out: seq<QueueItem>) {
    && DistinctIds(out) && HeapIds(out) == IdsOf(late) * catalog.Keys
    && forall x, a :: x in out && a in late && a.item.executionId == x.executionId ==> x.priority == a.item.priority
  }

  // By the priority they were enqueued with and, where that is equal, first come, first served.
  ghost predicate FirstComeFirstServed(late: seq<Arrival>, out: seq<QueueItem>) {
    forall i, j, a, b :: 0 <= i < j < |out| && Brought(late, a, out[i]) && Brought(late, b, out[j]) ==>
      if a.item.priority == b.item.priority then a.now <= b.now else a.item.priority > b.item.priority
  }

  predicate Brought(late: seq<Arrival>, a: Arrival, x: QueueItem) {
    a in late && a.item.executionId == x.executionId
  }

  // Whatever is enqueued into an empty queue, refused duplicates included, with any capacity: if no call fails and
  // nothing else happens, the dequeues that follow hand out first the earliest arrivals, as many as fit into memory,
  // by priority and execution id, and then the others by priority and time, all by the priority they were enqueued
  // with.
  lemma EnqueuedThenServed(capacity: nat, arrivals: seq<Arrival>, catalog: Catalog, end: Queue, out: seq<QueueItem>)
    requires Serves(EnqueueAll(capacity, arrivals), catalog, end, out)
    ensures var firsts := FirstArrivals(arrivals);
            var n := AtMostOf(|firsts|, capacity);
            && QueuedIds(end.table) == {} && n <= |out|
            && Descending(out[..n]) && multiset(out[..n]) == multiset(ItemsOf(firsts[..n]))
            && ComesFrom(firsts[n..], catalog, out[n..]) && FirstComeFirstServed(firsts[n..], out[n..])
  {
    var q, firsts := EnqueueAll(capacity, arrivals), FirstArrivals(arrivals);
    var n := AtMostOf(|firsts|, capacity);
    EnqueueAllHolds(capacity, arrivals);
    ServedByTier(q, capacity, catalog, end, out);
    DrainIsSorted(q.heap);
    LateIds(firsts, n);
    LateServed(q, firsts[n..], catalog, out[n..]);
  }

  lemma LateIds(firsts: seq<Arrival>, n: nat)
    requires n <= |firsts| && DistinctIds(ItemsOf(firsts))
    ensures IdsOf(firsts) - HeapIds(ItemsOf(firsts[..n])) == IdsOf(firsts[n..])
    ensures forall a :: a in firsts[n..] ==> a in firsts
  {
    var early, late := ItemsOf(firsts[..n]), firsts[n..];
    forall i | 0 <= i < n ensures firsts[i].item.executionId in HeapIds(early) {
      assert early[i] in early;
    }
    forall id ensures id in IdsOf(firsts) && id !in HeapIds(early) <==> id in IdsOf(late) {
      if id in IdsOf(late) {
        var a :| a in late && a.item.executionId == id;
        LateIsNotEarly(firsts, n, a);
      }
      if id in IdsOf(firsts) && id !in HeapIds(early) {
        var a :| a in firsts && a.item.executionId == id;
        var i :| 0 <= i < |firsts| && firsts[i] == a;
        assert late[i - n] == a;
      }
    }
  }

  lemma LateIsNotEarly(firsts: seq<Arrival>, n: nat, a: Arrival)
    requires n <= |firsts| && DistinctIds(ItemsOf(firsts)) && a in firsts[n..]
    ensures a in firsts && a.item.executionId !in HeapIds(ItemsOf(firsts[..n]))
  {
    var k :| 0 <= k < |firsts[n..]| && firsts[n..][k] == a;
    assert firsts[n + k] == a;
    forall x | x in ItemsOf(firsts[..n]) ensures x.executionId != a.item.executionId {
      var i :| 0 <= i < n && ItemsOf(firsts[..n])[i] == x;
      assert ItemsOf(firsts)[i] == x && ItemsOf(firsts)[n + k] == a.item;
    }
  }

  lemma LateServed(q: Queue, late: seq<Arrival>, catalog: Catalog, out: seq<QueueItem>)
    requires OverflowInOrder(q, catalog, out) && QueuedIds(q.table) - HeapIds(q.heap) == IdsOf(late)
    requires forall a :: a in late ==> HasRow(q, a)
    ensures ComesFrom(late, catalog, out) && FirstComeFirstServed(late, out)
  {
    forall i, j, a, b | 0 <= i < j < |out| && Brought(late, a, out[i]) && Brought(late, b, out[j])
      ensures if a.item.priority == b.item.priority then a.now <= b.now else a.item.priority > b.item.priority
    {
      assert HasRow(q, a) && HasRow(q, b);
      assert ServedBefore(q.table[out[i].executionId], q.table[out[j].executionId]);
    }
  }
}
