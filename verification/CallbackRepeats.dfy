/** Exactly when the DAG callback of an execution can fire from here on, over every continuation, orderly or not; and,
    for the end of an attempt, exactly when it can fire again. */
module CallbackRepeats {
  import opened Wrappers
  import opened QueueItems
  import opened QueueSteps
  import opened QueueCoupling
  import opened QueueListing
  import opened WorkerPool
  import opened WorkerSafety
  import opened CallbackOnce

  // ---- continuations ----

  predicate IsManual(e: Event, id: ExecId) { e.DeadLetterRequeue? && e.id == id }

  // The run can go on from s to t; requeuing id by hand is allowed only if `manual`.
  ghost predicate CanReach(capacity: nat, s: Sys, t: Sys, id: ExecId, manual: bool) {
    exists trace :: Possible(capacity, s, trace) && t == After(capacity, s, trace)
                    && (manual || forall e :: e in trace ==> !IsManual(e, id))
  }

  function Fired(s: Sys, id: ExecId): nat { multiset(s.callbacks)[id] }

  // From s on, the callback of id can fire.
  ghost predicate CanFire(capacity: nat, s: Sys, id: ExecId, manual: bool) {
    exists t :: CanReach(capacity, s, t, id, manual) && Fired(t, id) > Fired(s, id)
  }

  // t is on the way: no callback of id got lost.
  ghost predicate OnTheWay(capacity: nat, s: Sys, t: Sys, id: ExecId, manual: bool) {
    CanReach(capacity, s, t, id, manual) && Fired(t, id) >= Fired(s, id)
  }

  lemma Begins(capacity: nat, s: Sys, id: ExecId, manual: bool)
    ensures OnTheWay(capacity, s, s, id, manual)
  {
    assert Possible(capacity, s, []) && s == After(capacity, s, []);
  }

  lemma GoesOn(capacity: nat, s: Sys, t: Sys, e: Event, id: ExecId, manual: bool)
    requires CanReach(capacity, s, t, id, manual) && Enabled(t, e) && (manual || !IsManual(e, id))
    ensures CanReach(capacity, s, Step(capacity, t, e), id, manual)
  {
    var trace :| Possible(capacity, s, trace) && t == After(capacity, s, trace)
                 && (manual || forall e :: e in trace ==> !IsManual(e, id));
    OneStepMore(capacity, s, trace, e);
  }

  // ---- what keeps an execution in play ----

  ghost predicate Owed(s: Sys, id: ExecId) { exists w :: OwesCallback(s, w, id) }

  ghost predicate Held(s: Sys, id: ExecId) { exists w :: IsHolding(s, w) && s.workers[w].id == id }

  ghost predicate PushDue(q: Queue, id: ExecId) { exists p :: p in q.pushes && p.id == id }

  predicate RowInPlay(q: Queue, id: ExecId, manual: bool) {
    id in q.table && (q.table[id].status in {Queued, Processing} || (manual && q.table[id].status == DeadLetter))
  }

  // A worker has marked it running.
  ghost predicate Running(s: Sys, id: ExecId) { exists w :: HasStarted(s, w) && s.workers[w].id == id }

  // A worker holds it, it is in memory, its row is queued or processing, or a retry of it sleeps or is about to
  // push; a retry without a row only matters if the memory queue can hold an item.
  ghost predicate Waiting(capacity: nat, s: Sys, id: ExecId, manual: bool) {
    || Held(s, id) || HasId(s.queue.heap, id) || RowInPlay(s.queue, id, manual)
    || (id in s.queue.pending && (id in s.queue.table || capacity > 0))
    || (PushDue(s.queue, id) && capacity > 0)
  }

  // A worker has marked it running, or it waits for that and still exists.
  ghost predicate InPlay(capacity: nat, s: Sys, id: ExecId, manual: bool) {
    Running(s, id) || (id in s.existing && Waiting(capacity, s, id, manual))
  }

  // ---- what is in play can fire ----

  lemma FiresWhenOwed(capacity: nat, s: Sys, t: Sys, id: ExecId, manual: bool, w: nat)
    requires OnTheWay(capacity, s, t, id, manual) && OwesCallback(t, w, id)
    ensures CanFire(capacity, s, id, manual)
  {
    GoesOn(capacity, s, t, Callback(w), id, manual);
    assert Fired(Step(capacity, t, Callback(w)), id) == Fired(t, id) + 1;
  }

  lemma FiresWhenRunning(capacity: nat, s: Sys, t: Sys, id: ExecId, manual: bool, w: nat)
    requires OnTheWay(capacity, s, t, id, manual) && HasStarted(t, w) && t.workers[w].id == id
    ensures CanFire(capacity, s, id, manual)
  {
    var settle := SettleSuccess(w, NO_ROW_FAULTS);
    GoesOn(capacity, s, t, settle, id, manual);
    FiresWhenOwed(capacity, s, Step(capacity, t, settle), id, manual, w);
  }

  lemma FiresWhenHeld(capacity: nat, s: Sys, t: Sys, id: ExecId, manual: bool, w: nat)
    requires OnTheWay(capacity, s, t, id, manual) && IsHolding(t, w) && t.workers[w].id == id && id in t.existing
    ensures CanFire(capacity, s, id, manual)
  {
    if t.workers[w].Started? {
      FiresWhenRunning(capacity, s, t, id, manual, w);
    } else {
      GoesOn(capacity, s, t, MarkRunning(w), id, manual);
      FiresWhenRunning(capacity, s, Step(capacity, t, MarkRunning(w)), id, manual, w);
    }
  }

  // The first worker finishes what it is at.
  lemma FreesWorker(capacity: nat, s: Sys, t: Sys, id: ExecId, manual: bool) returns (u: Sys)
    requires OnTheWay(capacity, s, t, id, manual) && |t.workers| > 0
    ensures OnTheWay(capacity, s, u, id, manual) && u.workers == t.workers[0 := Idle]
    ensures u.queue == t.queue && u.existing == t.existing
  {
    u := t;
    if u.workers[0].Picked? {
      var fail := StartFailure(0, RowFaults(false, false, false));
      GoesOn(capacity, s, u, fail, id, manual);
      u := Step(capacity, u, fail);
    } else if u.workers[0].Started? {
      var settle := SettleSuccess(0, RowFaults(false, false, false));
      GoesOn(capacity, s, u, settle, id, manual);
      u := Step(capacity, u, settle);
    }
    if u.workers[0].Settled? {
      GoesOn(capacity, s, u, Callback(0), id, manual);
      u := Step(capacity, u, Callback(0));
    }
  }

  lemma {:induction false} RemovalShrinks(heap: seq<QueueItem>, id: ExecId)
    requires HasId(heap, id)
    ensures |WithoutId(heap, id)| < |heap|
  {
    var front, last := heap[..|heap| - 1], heap[|heap| - 1];
    if last.executionId == id {
      WithoutIdIs(front, id);
    } else {
      var i :| 0 <= i < |heap| && heap[i].executionId == id;
      assert front[i].executionId == id;
      RemovalShrinks(front, id);
    }
  }

  ghost predicate OnlyItemsOf(heap: seq<QueueItem>, id: ExecId) { forall x :: x in heap ==> x.executionId == id }

  // All other items are removed from memory.
  lemma {:induction false} ClearsOthers(capacity: nat, s: Sys, t: Sys, id: ExecId, manual: bool) returns (u: Sys)
    requires OnTheWay(capacity, s, t, id, manual)
    ensures OnTheWay(capacity, s, u, id, manual) && u == t.(queue := t.queue.(heap := u.queue.heap))
    ensures OnlyItemsOf(u.queue.heap, id) && (HasId(t.queue.heap, id) ==> HasId(u.queue.heap, id))
    ensures u.queue.heap == [] || HasId(u.queue.heap, id)
    decreases |t.queue.heap|
  {
    if OnlyItemsOf(t.queue.heap, id) {
      u := t;
      if u.queue.heap != [] { assert u.queue.heap[0] in u.queue.heap; }
    } else {
      var x :| x in t.queue.heap && x.executionId != id;
      var remove := RemoveCall(x.executionId, false);
      MembersAndIds(t.queue.heap, x.executionId);
      RemovalShrinks(t.queue.heap, x.executionId);
      if HasId(t.queue.heap, id) { KeepsId(t.queue.heap, x.executionId, id); }
      GoesOn(capacity, s, t, remove, id, manual);
      u := ClearsOthers(capacity, s, Step(capacity, t, remove), id, manual);
    }
  }

  lemma KeepsId(heap: seq<QueueItem>, other: ExecId, id: ExecId)
    requires other != id && HasId(heap, id)
    ensures HasId(WithoutId(heap, other), id)
  {
    MembersAndIds(heap, id);
    MembersAndIds(WithoutId(heap, other), id);
    var x :| x in heap && x.executionId == id;
    WithoutIdIs(heap, other);
    assert x in WithoutId(heap, other);
  }

  lemma FiresFromMemory(capacity: nat, s: Sys, t: Sys, id: ExecId, manual: bool)
    requires OnTheWay(capacity, s, t, id, manual) && |t.workers| > 0 && id in t.existing && HasId(t.queue.heap, id)
    ensures CanFire(capacity, s, id, manual)
  {
    var u := ClearsOthers(capacity, s, t, id, manual);
    u := FreesWorker(capacity, s, u, id, manual);
    var poll := DequeueCall(0, DequeueEnv(true, true, true, true, id, map[]));
    assert u.queue.heap != [] && Greatest(u.queue.heap) in u.queue.heap;
    GoesOn(capacity, s, u, poll, id, manual);
    FiresWhenHeld(capacity, s, Step(capacity, u, poll), id, manual, 0);
  }

  lemma FiresFromPush(capacity: nat, s: Sys, t: Sys, id: ExecId, manual: bool)
    requires OnTheWay(capacity, s, t, id, manual) && |t.workers| > 0 && id in t.existing
    requires PushDue(t.queue, id) && capacity > 0
    ensures CanFire(capacity, s, id, manual)
  {
    var p :| p in t.queue.pushes && p.id == id;
    var u := ClearsOthers(capacity, s, t, id, manual);
    if HasId(u.queue.heap, id) {
      FiresFromMemory(capacity, s, u, id, manual);
    } else {
      var push := PushCall(p, map[id := Job("", 0)]);
      GoesOn(capacity, s, u, push, id, manual);
      var v := Step(capacity, u, push);
      assert v.queue.heap == [PushedItem(p, Job("", 0))];
      assert v.queue.heap[0].executionId == id;
      FiresFromMemory(capacity, s, v, id, manual);
    }
  }

  // With an empty memory and an idle worker, dequeues get through the rows before it.
  lemma {:induction false} FiresFromOverflow(capacity: nat, s: Sys, t: Sys, id: ExecId, manual: bool)
    requires OnTheWay(capacity, s, t, id, manual) && |t.workers| > 0 && t.workers[0] == Idle
    requires id in t.existing && t.queue.heap == [] && IsQueued(t.queue, id)
    ensures CanFire(capacity, s, id, manual)
    decreases |QueuedIds(t.queue.table)|
  {
    assert id in QueuedIds(t.queue.table);
    var best := BestOf(t.queue.table, QueuedIds(t.queue.table));
    var poll := DequeueCall(0, Finding(best, id));
    OverflowAnswer(t.queue, best, id);
    GoesOn(capacity, s, t, poll, id, manual);
    var u := Step(capacity, t, poll);
    if best == id {
      FiresWhenHeld(capacity, s, u, id, manual, 0);
    } else {
      FiresFromOverflow(capacity, s, u, id, manual);
    }
  }

  // A dequeue in which nothing fails and only id can be rebuilt.
  function Finding(pick: ExecId, id: ExecId): DequeueEnv {
    DequeueEnv(true, true, true, true, pick, map[id := Job("", 0)])
  }

  lemma OverflowAnswer(q: Queue, best: ExecId, id: ExecId)
    requires q.heap == [] && IsBest(q.table, best) && IsQueued(q, id)
    ensures var (next, r) := Dequeue(q, Finding(best, id));
            if best == id then HandsOut(q, Finding(best, id), id)
            else r == Ok(None) && next.heap == [] && IsQueued(next, id)
                 && QueuedIds(next.table) == QueuedIds(q.table) - {best}
  {
    var next := Dequeue(q, Finding(best, id)).0;
    if best != id {
      assert next == q.(table := WithStatus(q.table, best, RowFailed));
    }
  }

  lemma {:induction false} LoadedItems(heap: seq<QueueItem>, capacity: nat, table: map<ExecId, Row>,
                                       entries: seq<ExecId>, catalog: Catalog)
    requires forall id :: id in entries ==> id in table
    ensures forall x :: x in Load(heap, capacity, table, entries, catalog) ==>
              x in heap || (x.executionId in entries && x.executionId in catalog)
    decreases |entries|
  {
    if entries != [] && |heap| < capacity {
      var more := if entries[0] in catalog
                  then heap + [Rebuilt(entries[0], table[entries[0]].priority, catalog[entries[0]])] else heap;
      LoadedItems(more, capacity, table, entries[1..], catalog);
    }
  }

  lemma RecoversOnly(q: Queue, capacity: nat, env: RecoverEnv, id: ExecId)
    requires q.heap == [] && ListingAllowed(q, env) && env.resetOk && env.listOk && env.catalog.Keys == {id}
    requires RowInPlay(q, id, false)
    ensures IsQueued(Recover(q, capacity, env), id) && OnlyItemsOf(Recover(q, capacity, env).heap, id)
  {
    LoadedItems([], capacity, ResetTable(q.table), env.entries, env.catalog);
  }

  // A crash and a recovery bring back whatever has a live row.
  lemma CrashesAndRecovers(capacity: nat, s: Sys, t: Sys, id: ExecId, manual: bool) returns (u: Sys)
    requires OnTheWay(capacity, s, t, id, manual) && id in t.existing && RowInPlay(t.queue, id, false)
    ensures OnTheWay(capacity, s, u, id, manual) && |u.workers| == |t.workers| && AllIdle(u)
    ensures id in u.existing && IsQueued(u.queue, id) && OnlyItemsOf(u.queue.heap, id)
  {
    GoesOn(capacity, s, t, CrashEvent, id, manual);
    u := Step(capacity, t, CrashEvent);
    var entries := ListingExists(ResetTable(u.queue.table));
    var recover := RecoverCall(RecoverEnv(true, true, entries, map[id := Job("", 0)]));
    RecoversOnly(u.queue, capacity, recover.recovery, id);
    GoesOn(capacity, s, u, recover, id, manual);
    u := Step(capacity, u, recover);
  }

  lemma FiresFromRow(capacity: nat, s: Sys, t: Sys, id: ExecId, manual: bool)
    requires OnTheWay(capacity, s, t, id, manual) && |t.workers| > 0 && id in t.existing
    requires RowInPlay(t.queue, id, false)
    ensures CanFire(capacity, s, id, manual)
  {
    var u := CrashesAndRecovers(capacity, s, t, id, manual);
    if u.queue.heap == [] {
      FiresFromOverflow(capacity, s, u, id, manual);
    } else {
      assert u.queue.heap[0] in u.queue.heap;
      FiresFromMemory(capacity, s, u, id, manual);
    }
  }

  lemma FiresFromRetry(capacity: nat, s: Sys, t: Sys, id: ExecId, manual: bool)
    requires OnTheWay(capacity, s, t, id, manual) && |t.workers| > 0 && id in t.existing
    requires id in t.queue.pending && (id in t.queue.table || capacity > 0)
    ensures CanFire(capacity, s, id, manual)
  {
    var requeue := RetryRequeue(id, true);
    GoesOn(capacity, s, t, requeue, id, manual);
    var u := Step(capacity, t, requeue);
    if id in t.queue.table {
      FiresFromRow(capacity, s, u, id, manual);
    } else {
      assert Push(id, None) in u.queue.pushes;
      FiresFromPush(capacity, s, u, id, manual);
    }
  }

  lemma FiresByHand(capacity: nat, s: Sys, t: Sys, id: ExecId)
    requires OnTheWay(capacity, s, t, id, true) && |t.workers| > 0 && id in t.existing
    requires id in t.queue.table && t.queue.table[id].status == DeadLetter
    ensures CanFire(capacity, s, id, true)
  {
    var requeue := DeadLetterRequeue(id, NO_ROW_FAULTS);
    GoesOn(capacity, s, t, requeue, id, true);
    FiresFromRow(capacity, s, Step(capacity, t, requeue), id, true);
  }

  lemma InPlayCanFire(capacity: nat, s: Sys, id: ExecId, manual: bool)
    requires |s.workers| > 0 && (Owed(s, id) || InPlay(capacity, s, id, manual))
    ensures CanFire(capacity, s, id, manual)
  {
    Begins(capacity, s, id, manual);
    if Owed(s, id) {
      var w: nat :| OwesCallback(s, w, id);
      FiresWhenOwed(capacity, s, s, id, manual, w);
    } else if Running(s, id) {
      var w: nat :| HasStarted(s, w) && s.workers[w].id == id;
      FiresWhenRunning(capacity, s, s, id, manual, w);
    } else if Held(s, id) {
      var w: nat :| IsHolding(s, w) && s.workers[w].id == id;
      FiresWhenHeld(capacity, s, s, id, manual, w);
    } else if HasId(s.queue.heap, id) {
      FiresFromMemory(capacity, s, s, id, manual);
    } else if RowInPlay(s.queue, id, false) {
      FiresFromRow(capacity, s, s, id, manual);
    } else if RowInPlay(s.queue, id, manual) {
      FiresByHand(capacity, s, s, id);
    } else if PushDue(s.queue, id) && capacity > 0 {
      FiresFromPush(capacity, s, s, id, manual);
    } else {
      FiresFromRetry(capacity, s, s, id, manual);
    }
  }

  // ---- what is out of play stays so ----

  ghost predicate OutOfPlay(capacity: nat, s: Sys, id: ExecId, manual: bool) {
    id in s.accepted && !Owed(s, id) && !InPlay(capacity, s, id, manual)
  }

  // Deleted before a worker marked it running: nothing starts it any more.
  ghost predicate Gone(s: Sys, id: ExecId) {
    id in s.accepted && id !in s.existing && !Owed(s, id) && !Running(s, id)
  }

  // Finished with: no worker holds it, and nothing in the queue leads back to one.
  ghost predicate Finished(capacity: nat, s: Sys, id: ExecId, manual: bool) {
    id in s.accepted && !Owed(s, id) && !Held(s, id) && QueueDone(capacity, s.queue, id, manual)
  }

  lemma OutOfPlayIs(capacity: nat, s: Sys, id: ExecId, manual: bool)
    ensures OutOfPlay(capacity, s, id, manual) <==> Gone(s, id) || Finished(capacity, s, id, manual)
  {
    assert Running(s, id) ==> Held(s, id) by {
      if Running(s, id) {
        var w :| HasStarted(s, w) && s.workers[w].id == id;
        assert IsHolding(s, w);
      }
    }
  }

  lemma GoneStays(capacity: nat, s: Sys, e: Event, id: ExecId)
    requires Gone(s, id) && Enabled(s, e)
    ensures Gone(Step(capacity, s, e), id) && Fired(Step(capacity, s, e), id) == Fired(s, id)
  {
    var t := Step(capacity, s, e);
    if e.Callback? { assert !OwesCallback(s, e.worker, id); }
    forall w ensures !OwesCallback(t, w, id) && !(HasStarted(t, w) && t.workers[w].id == id) {
      assert !OwesCallback(s, w, id) && !(HasStarted(s, w) && s.workers[w].id == id);
    }
  }

  // The queue's part of it.
  ghost predicate QueueDone(capacity: nat, q: Queue, id: ExecId, manual: bool) {
    && !HasId(q.heap, id) && !RowInPlay(q, id, manual)
    && (id in q.pending ==> id !in q.table && capacity == 0)
    && (PushDue(q, id) ==> capacity == 0)
  }

  // No worker took up id, and none fired its callback.
  ghost predicate WorkersApart(s: Sys, t: Sys, id: ExecId) {
    && Fired(t, id) == Fired(s, id) && s.accepted <= t.accepted
    && forall w :: 0 <= w < |t.workers| ==>
         (w < |s.workers| && t.workers[w] == s.workers[w]) || t.workers[w] == Idle || t.workers[w].id != id
  }

  lemma StaysOut(capacity: nat, s: Sys, t: Sys, id: ExecId, manual: bool)
    requires Finished(capacity, s, id, manual) && WorkersApart(s, t, id) && QueueDone(capacity, t.queue, id, manual)
    ensures Finished(capacity, t, id, manual)
  {
    forall w ensures !OwesCallback(t, w, id) {
      assert !OwesCallback(s, w, id);
    }
    forall w ensures !(IsHolding(t, w) && t.workers[w].id == id) {
      assert !(IsHolding(s, w) && s.workers[w].id == id);
    }
  }

  lemma DequeueStaysOut(capacity: nat, q: Queue, env: DequeueEnv, id: ExecId, manual: bool)
    requires QueueDone(capacity, q, id, manual)
    ensures QueueDone(capacity, Dequeue(q, env).0, id, manual) && !HandsOut(q, env, id)
  {
    var next := Dequeue(q, env).0;
    assert next.pending == q.pending && next.pushes == q.pushes && next.table.Keys == q.table.Keys;
    if q.heap != [] {
      RestIs(q.heap);
      MembersAndIds(q.heap, id);
      MembersAndIds(Rest(q.heap), id);
    }
  }

  lemma RecoverStaysOut(capacity: nat, q: Queue, env: RecoverEnv, id: ExecId, manual: bool)
    requires QueueDone(capacity, q, id, manual) && ListingAllowed(q, env) && q.heap == []
    ensures QueueDone(capacity, Recover(q, capacity, env), id, manual)
  {
    var r := Recover(q, capacity, env);
    RecoverKeepsSettled(q, capacity, env, id);
    MembersAndIds(r.heap, id);
    if env.resetOk && env.listOk {
      LoadedItems([], capacity, ResetTable(q.table), env.entries, env.catalog);
    }
  }

  lemma DropStaysOut(capacity: nat, s: Sys, e: Event, id: ExecId, manual: bool)
    requires QueueDone(capacity, s.queue, id, manual) && Enabled(s, e) && OnlyDrops(e)
    ensures QueueDone(capacity, Step(capacity, s, e).queue, id, manual)
  {
    var t := Step(capacity, s, e);
    DropsExactly(capacity, s, e);
    assert t.queue.pending <= s.queue.pending && t.queue.pushes <= s.queue.pushes;
    if e.PushCall? && e.push.id in e.catalog {
      assert e.push.id == id ==> capacity == 0;
      if e.push.id != id { PushKeepsOut(s.queue.heap, PushedItem(e.push, e.catalog[e.push.id]), capacity, id); }
    } else if e.RemoveCall? {
      RemoveKeepsOut(s.queue.heap, e.id, id);
    }
  }

  lemma RetryStaysOut(capacity: nat, q: Queue, other: ExecId, dbOk: bool, id: ExecId, manual: bool)
    requires QueueDone(capacity, q, id, manual) && other in q.pending
    ensures QueueDone(capacity, RequeueRetried(q, other, dbOk), id, manual)
  {
    var next := RequeueRetried(q, other, dbOk);
    assert next.pending <= q.pending;
    forall p | p in next.pushes ensures p in q.pushes || p.id == other {}
  }

  lemma RequeueDeadStaysOut(capacity: nat, q: Queue, other: ExecId, faults: RowFaults, id: ExecId, manual: bool)
    requires QueueDone(capacity, q, id, manual) && (manual || other != id)
    ensures QueueDone(capacity, RequeueDead(q, other, faults).0, id, manual)
  {
    var next := RequeueDead(q, other, faults).0;
    forall p | p in next.pushes ensures p in q.pushes || (p.id == other && IsQueued(next, other)) {}
  }

  lemma SettleStaysOut(capacity: nat, s: Sys, e: Event, id: ExecId, manual: bool)
    requires QueueDone(capacity, s.queue, id, manual) && Enabled(s, e) && IsSettle(e) && s.workers[e.worker].id != id
    ensures QueueDone(capacity, Step(capacity, s, e).queue, id, manual)
  {
    SettleTouches(capacity, s, e);
  }

  lemma QueueStaysDone(capacity: nat, s: Sys, e: Event, id: ExecId, manual: bool)
    requires Finished(capacity, s, id, manual) && Enabled(s, e) && (manual || !IsManual(e, id))
    ensures QueueDone(capacity, Step(capacity, s, e).queue, id, manual)
    ensures e.DequeueCall? ==> !HandsOut(s.queue, e.env, id)
  {
    match e {
      case EnqueueCall(item, now, dbOk) => EnqueueKeepsKnown(s, capacity, item, now, dbOk, id);
      case DequeueCall(_, env) => DequeueStaysOut(capacity, s.queue, env, id, manual);
      case StartFailure(_, _) => SettleStaysOut(capacity, s, e, id, manual);
      case SettleSuccess(_, _) => SettleStaysOut(capacity, s, e, id, manual);
      case SettleFailure(_, _, _, _) => SettleStaysOut(capacity, s, e, id, manual);
      case RetryRequeue(other, dbOk) => RetryStaysOut(capacity, s.queue, other, dbOk, id, manual);
      case DeadLetterRequeue(other, faults) => RequeueDeadStaysOut(capacity, s.queue, other, faults, id, manual);
      case RecoverCall(env) => RecoverStaysOut(capacity, s.queue, env, id, manual);
      case _ => DropStaysOut(capacity, s, e, id, manual);
    }
  }

  lemma WorkersStayApart(capacity: nat, s: Sys, e: Event, id: ExecId)
    requires Enabled(s, e) && !Owed(s, id) && !Held(s, id)
    requires e.DequeueCall? ==> !HandsOut(s.queue, e.env, id)
    ensures WorkersApart(s, Step(capacity, s, e), id)
  {
    if e.Callback? { assert !OwesCallback(s, e.worker, id); }
  }

  lemma StepStaysOut(capacity: nat, s: Sys, e: Event, id: ExecId, manual: bool)
    requires OutOfPlay(capacity, s, id, manual) && Enabled(s, e) && (manual || !IsManual(e, id))
    ensures OutOfPlay(capacity, Step(capacity, s, e), id, manual)
    ensures Fired(Step(capacity, s, e), id) == Fired(s, id)
  {
    OutOfPlayIs(capacity, s, id, manual);
    if Gone(s, id) {
      GoneStays(capacity, s, e, id);
    } else {
      QueueStaysDone(capacity, s, e, id, manual);
      WorkersStayApart(capacity, s, e, id);
      StaysOut(capacity, s, Step(capacity, s, e), id, manual);
    }
    OutOfPlayIs(capacity, Step(capacity, s, e), id, manual);
  }

  lemma {:induction false} OutOfPlayNeverFires(capacity: nat, s: Sys, trace: seq<Event>, id: ExecId, manual: bool)
    requires OutOfPlay(capacity, s, id, manual) && Possible(capacity, s, trace)
    requires manual || forall e :: e in trace ==> !IsManual(e, id)
    ensures OutOfPlay(capacity, After(capacity, s, trace), id, manual)
    ensures Fired(After(capacity, s, trace), id) == Fired(s, id)
  {
    if trace != [] {
      var front, e := trace[..|trace| - 1], trace[|trace| - 1];
      assert trace == front + [e];
      OutOfPlayNeverFires(capacity, s, front, id, manual);
      StepStaysOut(capacity, After(capacity, s, front), e, id, manual);
    }
  }

  // ---- the exact condition ----

  // From any state, the callback of an accepted execution can fire exactly if it is owed or the execution is in
  // play; a deleted one is in play only if a worker had marked it running before.
  lemma CallbackCanFireExactlyWhen(capacity: nat, s: Sys, id: ExecId, manual: bool)
    requires id in s.accepted && |s.workers| > 0
    ensures CanFire(capacity, s, id, manual) <==> Owed(s, id) || InPlay(capacity, s, id, manual)
  {
    if Owed(s, id) || InPlay(capacity, s, id, manual) {
      InPlayCanFire(capacity, s, id, manual);
    } else if CanFire(capacity, s, id, manual) {
      var t :| CanReach(capacity, s, t, id, manual) && Fired(t, id) > Fired(s, id);
      var trace :| Possible(capacity, s, trace) && t == After(capacity, s, trace)
                   && (manual || forall e :: e in trace ==> !IsManual(e, id));
      OutOfPlayNeverFires(capacity, s, trace, id, manual);
    }
  }

  // Deleting an execution ends its callbacks, except for one that is owed or whose attempt is running.
  lemma DeletionStopsCallbackExactlyWhen(capacity: nat, s: Sys, ids: set<ExecId>, t: Sys, id: ExecId, manual: bool)
    requires id in ids && id in s.accepted && |s.workers| > 0 && t == Step(capacity, s, DeleteExecutions(ids))
    ensures !CanFire(capacity, t, id, manual) <==> !Owed(s, id) && !Running(s, id)
  {
    CallbackCanFireExactlyWhen(capacity, t, id, manual);
    assert Owed(t, id) <==> Owed(s, id) by {
      assert forall w :: OwesCallback(t, w, id) <==> OwesCallback(s, w, id);
    }
    assert Running(t, id) <==> Running(s, id) by {
      assert forall w :: HasStarted(t, w) <==> HasStarted(s, w);
    }
  }

  // ---- how callbacks get lost ----

  // Removing a queued execution ends its callbacks, unless one is owed or a push of it is due.
  lemma RemovalLosesCallbackExactlyWhen(capacity: nat, s: Sys, id: ExecId, t: Sys, manual: bool)
    requires SysInvariant(capacity, s) && IsQueued(s.queue, id) && t == Step(capacity, s, RemoveCall(id, true))
    ensures OutOfPlay(capacity, t, id, manual) <==> !Owed(s, id) && !(PushDue(s.queue, id) && capacity > 0)
  {
    WithoutIdIs(s.queue.heap, id);
    MembersAndIds(t.queue.heap, id);
    OutOfPlayIs(capacity, t, id, manual);
    assert forall w :: OwesCallback(t, w, id) <==> OwesCallback(s, w, id);
    assert !Held(t, id);
  }

  // So does a worker that cannot mark it running, if its row update is not lost.
  lemma StartFailureLosesCallbackExactlyWhen(capacity: nat, s: Sys, w: nat, faults: RowFaults, id: ExecId, t: Sys)
    requires SysInvariant(capacity, s) && Enabled(s, StartFailure(w, faults)) && s.workers[w].id == id
    requires t == Step(capacity, s, StartFailure(w, faults))
    ensures OutOfPlay(capacity, t, id, false)
       <==> !Owed(s, id) && (id in s.existing ==>
              (id in s.queue.table ==> faults.getOk && faults.updateOk) && !(PushDue(s.queue, id) && capacity > 0))
  {
    HeapIdsAre(s.queue.heap, id);
    OutOfPlayIs(capacity, t, id, false);
    assert forall v :: OwesCallback(t, v, id) <==> OwesCallback(s, v, id);
    assert forall v :: IsHolding(t, v) ==> v != w && IsHolding(s, v) && t.workers[v] == s.workers[v];
    assert !Held(t, id);
  }

  // And a crash, of a callback that is owed included, unless the row is still queued or processing.
  lemma CrashLosesCallbackExactlyWhen(capacity: nat, s: Sys, id: ExecId, t: Sys)
    requires SysInvariant(capacity, s) && id in s.accepted && t == Step(capacity, s, CrashEvent)
    ensures OutOfPlay(capacity, t, id, false) <==> !RowInPlay(s.queue, id, false)
  {
    OutOfPlayIs(capacity, t, id, false);
    assert !Owed(t, id) && !Held(t, id) && !PushDue(t.queue, id);
  }

  // ---- the end of an attempt ----

  // The worker settles the row of the execution it holds and fires its callback.
  ghost predicate FiresAfter(capacity: nat, s: Sys, e: Event, t: Sys) {
    && Enabled(s, e) && (e.SettleSuccess? || e.SettleFailure?)
    && t == Step(capacity, Step(capacity, s, e), Callback(e.worker))
  }

  lemma AfterAttempt(capacity: nat, s: Sys, e: Event, t: Sys, id: ExecId)
    requires SysInvariant(capacity, s) && EndsAttempt(s, e, id) && FiresAfter(capacity, s, e, t)
    ensures id in t.accepted && |t.workers| == |s.workers| > 0 && !Held(t, id) && !HasId(t.queue.heap, id)
    ensures t.queue.pushes == s.queue.pushes && t.existing == s.existing
    ensures Owed(t, id) <==> Owed(s, id)
    ensures RowInPlay(t.queue, id, false) <==> id in s.queue.table && !SettlesRow(e)
    ensures id in t.queue.pending ==> id in s.queue.table && id in t.queue.table && !SettlesRow(e)
  {
    HeapIdsAre(s.queue.heap, id);
    forall w ensures OwesCallback(t, w, id) <==> OwesCallback(s, w, id) {
      assert w != e.worker && 0 <= w < |s.workers| ==> t.workers[w] == s.workers[w];
    }
    forall w ensures !(IsHolding(t, w) && t.workers[w].id == id) {
      assert IsHolding(t, w) ==> w != e.worker && t.workers[w] == s.workers[w];
    }
  }

  // When an attempt has ended and its callback has fired, the callback can fire again exactly if its row was
  // there and was not settled for good (the row update was lost or a retry was granted), or another worker still owes
  // it, or another retry of it is about to push and it has not been deleted.
  lemma CallbackRepeatsExactlyWhen(capacity: nat, s: Sys, e: Event, t: Sys, id: ExecId)
    requires Reachable(capacity, s) && EndsAttempt(s, e, id) && FiresAfter(capacity, s, e, t)
    ensures CanFire(capacity, t, id, false)
       <==> || (id in s.queue.table && !SettlesRow(e)) || Owed(s, id)
            || (PushDue(s.queue, id) && capacity > 0 && id in s.existing)
  {
    ReachableIsSafe(capacity, s);
    AfterAttempt(capacity, s, e, t, id);
    OutOfPlayIs(capacity, t, id, false);
    CallbackCanFireExactlyWhen(capacity, t, id, false);
  }

  // ---- a callback that has fired ----

  ghost predicate WorkKnown(s: Sys) {
    && (forall id :: id in s.callbacks ==> id in s.accepted)
    && (forall w :: 0 <= w < |s.workers| && s.workers[w] != Idle ==> s.workers[w].id in s.accepted)
  }

  lemma StepKeepsKnown(capacity: nat, s: Sys, e: Event)
    requires SysInvariant(capacity, s) && Enabled(s, e) && WorkKnown(s)
    ensures WorkKnown(Step(capacity, s, e))
  {
    if e.DequeueCall? {
      DequeueStep(capacity, s, e);
      var r := Dequeue(s.queue, e.env).1;
      if r.Ok? && r.value.Some? { assert Dispatches(s, e, r.value.value.executionId); }
    }
  }

  lemma {:induction false} KnownAlways(capacity: nat, s: Sys, trace: seq<Event>)
    requires SysInvariant(capacity, s) && WorkKnown(s)
    requires Possible(capacity, s, trace) && OrderlyRun(capacity, s, trace)
    ensures WorkKnown(After(capacity, s, trace))
  {
    if trace != [] {
      KnownAlways(capacity, s, trace[..|trace| - 1]);
      InvariantAlways(capacity, s, trace[..|trace| - 1]);
      StepKeepsKnown(capacity, After(capacity, s, trace[..|trace| - 1]), trace[|trace| - 1]);
    }
  }

  lemma ReachableIsKnown(capacity: nat, s: Sys)
    requires Reachable(capacity, s)
    ensures WorkKnown(s)
  {
    var rows, workers, trace :| Leads(capacity, Booted(rows, workers), trace, s);
    BootedIsSafe(capacity, rows, workers);
    KnownAlways(capacity, Booted(rows, workers), trace);
  }

  // In a reachable state in which the callback of id has fired and none is owed, it can fire again exactly if
  // the execution is in play.
  lemma FiredCanRepeatExactlyWhen(capacity: nat, s: Sys, id: ExecId, manual: bool)
    requires Reachable(capacity, s) && |s.workers| > 0 && id in s.callbacks && !Owed(s, id)
    ensures CanFire(capacity, s, id, manual) <==> InPlay(capacity, s, id, manual)
  {
    ReachableIsKnown(capacity, s);
    CallbackCanFireExactlyWhen(capacity, s, id, manual);
  }
}
