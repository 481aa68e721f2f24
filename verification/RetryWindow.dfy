/** A retry requeues its row without the queue's lock and pushes its item later. What can happen to the row in between,
    and what the push then does. */
module RetryWindow {
  import opened Wrappers
  import opened QueueItems
  import opened QueueSteps
  import opened QueueCoupling
  import opened WorkerPool
  import opened WorkerSafety

  // The step takes the queued row of id that is not in memory.
  predicate Takes(s: Sys, e: Event, id: ExecId) {
    (e.DequeueCall? && s.queue.heap == [] && e.env.selectOk && e.env.pick == id) || Deletes(s, e, id)
  }

  // While a push of id is due, its row leaves `queued` exactly by a dequeue that finds the memory empty and picks
  // the row, or by a removal or deletion; unless the process crashes or another push of id comes, nothing else changes.
  lemma AwaitedLeavesExactlyWhen(capacity: nat, s: Sys, e: Event, p: Push)
    requires SysInvariant(capacity, s) && Enabled(s, e) && p in s.queue.pushes && Awaited(s.queue, p.id)
    requires !e.CrashEvent? && !(e.PushCall? && e.push.id == p.id)
    ensures Awaited(Step(capacity, s, e).queue, p.id) <==> !Takes(s, e, p.id)
    ensures !Awaited(Step(capacity, s, e).queue, p.id) ==> !IsQueued(Step(capacity, s, e).queue, p.id)
    ensures p in Step(capacity, s, e).queue.pushes
  {
    if IsSettle(e) {
      SettleTouches(capacity, s, e);
      assert s.workers[e.worker].id != p.id;
    } else if e.DequeueCall? {
      DequeueTakes(s.queue, capacity, e.env, p.id);
    } else {
      QueueCallTakes(capacity, s, e, p);
    }
  }

  lemma RequeueTakes(capacity: nat, s: Sys, e: Event, p: Push)
    requires Enabled(s, e) && p in s.queue.pushes && Awaited(s.queue, p.id)
    requires e.RetryRequeue? || e.DeadLetterRequeue?
    ensures var t := Step(capacity, s, e);
            !HasId(t.queue.heap, p.id) && IsQueued(t.queue, p.id) && p in t.queue.pushes
  {}

  lemma QueueCallTakes(capacity: nat, s: Sys, e: Event, p: Push)
    requires Enabled(s, e) && p in s.queue.pushes && Awaited(s.queue, p.id) && p.id in s.accepted
    requires !IsSettle(e) && !e.DequeueCall? && !e.CrashEvent? && !(e.PushCall? && e.push.id == p.id)
    ensures var t := Step(capacity, s, e);
            && !HasId(t.queue.heap, p.id) && (IsQueued(t.queue, p.id) <==> !Deletes(s, e, p.id))
            && p in t.queue.pushes
  {
    if e.EnqueueCall? {
      EnqueueKeepsKnown(s, capacity, e.item, e.now, e.dbOk, p.id);
    } else if OnlyDrops(e) {
      DropsExactly(capacity, s, e);
      DropKeepsOut(capacity, s, e, p);
    } else {
      RequeueTakes(capacity, s, e, p);
    }
  }

  lemma DropKeepsOut(capacity: nat, s: Sys, e: Event, p: Push)
    requires Enabled(s, e) && p in s.queue.pushes && !HasId(s.queue.heap, p.id)
    requires OnlyDrops(e) && !e.CrashEvent? && !(e.PushCall? && e.push.id == p.id)
    ensures !HasId(Step(capacity, s, e).queue.heap, p.id) && p in Step(capacity, s, e).queue.pushes
  {
    if e.PushCall? && e.push.id in e.catalog {
      PushKeepsOut(s.queue.heap, PushedItem(e.push, e.catalog[e.push.id]), capacity, p.id);
    } else if e.RemoveCall? {
      RemoveKeepsOut(s.queue.heap, e.id, p.id);
    }
  }

  lemma DequeueTakes(q: Queue, capacity: nat, env: DequeueEnv, id: ExecId)
    requires Coupled(q, capacity) && Awaited(q, id)
    ensures Awaited(Dequeue(q, env).0, id) <==> !(q.heap == [] && env.selectOk && env.pick == id)
    ensures !Awaited(Dequeue(q, env).0, id) ==> !IsQueued(Dequeue(q, env).0, id)
  {
    HeapIdsAre(q.heap, id);
    if q.heap != [] {
      PopIds(q.heap);
      HeapIdsAre(Rest(q.heap), id);
    }
  }

  // ---- the whole window ----

  ghost predicate TakenDuring(capacity: nat, s: Sys, trace: seq<Event>, id: ExecId)
    requires Possible(capacity, s, trace)
  {
    trace != [] &&
    var front := trace[..|trace| - 1];
    TakenDuring(capacity, s, front, id) || Takes(After(capacity, s, front), trace[|trace| - 1], id)
  }

  // The process lives on, and no other retry of id requeues or pushes.
  predicate Undisputed(trace: seq<Event>, id: ExecId) {
    forall e :: e in trace ==>
      && !e.CrashEvent? && !(e.PushCall? && e.push.id == id)
      && !(e.RetryRequeue? && e.id == id) && !(e.DeadLetterRequeue? && e.id == id)
  }

  // When the push comes, the row is still queued and not in memory exactly if no step of the window took it.
  lemma {:induction false} AwaitedExactlyUntilTaken(capacity: nat, s: Sys, trace: seq<Event>, p: Push)
    requires SysInvariant(capacity, s) && Possible(capacity, s, trace) && OrderlyRun(capacity, s, trace)
    requires p in s.queue.pushes && Awaited(s.queue, p.id) && Undisputed(trace, p.id)
    ensures var t := After(capacity, s, trace);
            && p in t.queue.pushes && p.id in t.accepted
            && (Awaited(t.queue, p.id) <==> !TakenDuring(capacity, s, trace, p.id))
            && (TakenDuring(capacity, s, trace, p.id) ==> !IsQueued(t.queue, p.id))
  {
    if trace != [] {
      var front, e := trace[..|trace| - 1], trace[|trace| - 1];
      assert trace == front + [e];
      AwaitedExactlyUntilTaken(capacity, s, front, p);
      InvariantAlways(capacity, s, front);
      WindowStep(capacity, After(capacity, s, front), e, p);
    }
  }

  lemma WindowStep(capacity: nat, s: Sys, e: Event, p: Push)
    requires SysInvariant(capacity, s) && Enabled(s, e) && p in s.queue.pushes && p.id in s.accepted
    requires Undisputed([e], p.id)
    ensures var t := Step(capacity, s, e);
            && p in t.queue.pushes && p.id in t.accepted
            && (Awaited(s.queue, p.id) ==> (Awaited(t.queue, p.id) <==> !Takes(s, e, p.id)))
            && (Awaited(s.queue, p.id) && !Awaited(t.queue, p.id) ==> !IsQueued(t.queue, p.id))
            && (!IsQueued(s.queue, p.id) ==> !IsQueued(t.queue, p.id))
  {
    assert e in [e];
    PushesStay(capacity, s, e, p);
    if Awaited(s.queue, p.id) {
      AwaitedLeavesExactlyWhen(capacity, s, e, p);
    } else if !IsQueued(s.queue, p.id) {
      TurnsBackExactlyWhen(capacity, s, e, p.id);
    }
  }

  lemma PushesStay(capacity: nat, s: Sys, e: Event, p: Push)
    requires Enabled(s, e) && p in s.queue.pushes && !e.CrashEvent? && !(e.PushCall? && e.push.id == p.id)
    ensures p in Step(capacity, s, e).queue.pushes && s.accepted <= Step(capacity, s, e).accepted
  {
    if IsSettle(e) {
      SettleTouches(capacity, s, e);
    } else if e.DequeueCall? {
      DequeueKeepsKeys(s.queue, e.env);
    }
  }

  // So at the end of the window the push breaks the coupling exactly if it pushes and the row was taken.
  lemma PushAfterWindow(capacity: nat, s: Sys, trace: seq<Event>, t: Sys, p: Push, catalog: Catalog)
    requires SysInvariant(capacity, s) && Leads(capacity, s, trace, t) && catalog.Keys <= t.existing
    requires p in s.queue.pushes && Awaited(s.queue, p.id) && Undisputed(trace, p.id)
    ensures Enabled(t, PushCall(p, catalog))
    ensures !Coupled(Step(capacity, t, PushCall(p, catalog)).queue, capacity)
       <==> Pushes(t.queue, capacity, p, catalog) && TakenDuring(capacity, s, trace, p.id)
  {
    AwaitedExactlyUntilTaken(capacity, s, trace, p);
    InvariantAlways(capacity, s, trace);
    StepKeepsCouplingExactlyWhen(capacity, t, PushCall(p, catalog));
  }

  // If it was a dequeue that took the row, the next dequeue hands out the execution a second time exactly if
  // the push pushes.
  lemma SplitRetryDispatchesTwice(q: Queue, capacity: nat, p: Push, catalog: Catalog, first: DequeueEnv,
                                  second: DequeueEnv)
    requires Coupled(q, capacity) && Awaited(q, p.id) && HandsOut(q, first, p.id)
    requires second.getOk && second.updateOk
    ensures var pushed := PushRequeued(Dequeue(q, first).0, capacity, p, catalog);
            PickAllowed(pushed, second) ==>
              (HandsOut(pushed, second, p.id) <==> Pushes(Dequeue(q, first).0, capacity, p, catalog))
  {
    HeapIdsAre(q.heap, p.id);
    assert q.heap == [];
    var taken := Dequeue(q, first).0;
    var pushed := PushRequeued(taken, capacity, p, catalog);
    if Pushes(taken, capacity, p, catalog) {
      assert pushed.heap == [PushedItem(p, catalog[p.id])];
      assert Greatest(pushed.heap) in pushed.heap;
    } else {
      assert pushed.heap == [] && !IsQueued(pushed, p.id);
    }
  }
}
