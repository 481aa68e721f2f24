/** Concrete runs that show what the queue's guarantees depend on. */
module QueueHazards {
  import opened Wrappers
  import opened QueueItems
  import opened QueueSteps
  import opened QueueCoupling
  import opened WorkerPool
  import opened WorkerSafety

  const ITEM := QueueItem("x", "job", 0)
  const CATALOG: Catalog := map["x" := Job("job", 0)]
  const POLL := DequeueCall(0, DequeueEnv(true, true, true, true, "x", map[]))
  const PUSH := PushCall(Push("x", None), CATALOG)
  const RECOVERY := RecoverCall(RecoverEnv(true, true, ["x"], CATALOG))

  // One worker, one slot in memory, and no rows to begin with; `trace` is an orderly run to s.
  ghost predicate LeadsTo(trace: seq<Event>, s: Sys) { Leads(1, Booted(map[], 1), trace, s) }

  lemma OneMore(trace: seq<Event>, s: Sys, e: Event)
    requires LeadsTo(trace, s) && Enabled(s, e)
    ensures Possible(1, Booted(map[], 1), trace + [e]) && After(1, Booted(map[], 1), trace + [e]) == Step(1, s, e)
    ensures Orderly(1, s, e) ==> LeadsTo(trace + [e], Step(1, s, e))
  {
    OneStepMore(1, Booted(map[], 1), trace, e);
    assert (trace + [e])[..|trace|] == trace;
  }

  function OneRow(heap: seq<QueueItem>, status: RowStatus, worker: Phase, dispatched: seq<ExecId>,
                  callbacks: seq<ExecId>): Sys {
    Sys(Queue(heap, map["x" := Row("job", 0, status, 0)], multiset{}, multiset{}), [worker], {"x"}, {"x"},
        dispatched, callbacks)
  }

  lemma PopItem()
    ensures Greatest([ITEM]) == ITEM && Rest([ITEM]) == []
  {
    assert Greatest([ITEM]) in [ITEM];
  }

  lemma Polls(dispatched: seq<ExecId>, callbacks: seq<ExecId>)
    ensures var s := OneRow([ITEM], Queued, Idle, dispatched, callbacks);
            Enabled(s, POLL) && Step(1, s, POLL) == OneRow([], Processing, Picked("x"), dispatched + ["x"], callbacks)
  {
    PopItem();
  }

  lemma Starts(dispatched: seq<ExecId>, callbacks: seq<ExecId>)
    ensures var s := OneRow([], Processing, Picked("x"), dispatched, callbacks);
            && Enabled(s, MarkRunning(0))
            && Step(1, s, MarkRunning(0)) == OneRow([], Processing, Started("x"), dispatched, callbacks)
  {}

  lemma CallsBack(status: RowStatus, dispatched: seq<ExecId>, callbacks: seq<ExecId>)
    ensures var s := OneRow([], status, Settled("x"), dispatched, callbacks);
            && Enabled(s, Callback(0))
            && Step(1, s, Callback(0)) == OneRow([], status, Idle, dispatched, callbacks + ["x"])
  {}

  lemma Settles(updateOk: bool, dispatched: seq<ExecId>, callbacks: seq<ExecId>)
    ensures var s := OneRow([], Processing, Started("x"), dispatched, callbacks);
            var e := SettleSuccess(0, RowFaults(true, true, updateOk));
            var status := if updateOk then Completed else Processing;
            Enabled(s, e) && Step(1, s, e) == OneRow([], status, Settled("x"), dispatched, callbacks)
  {}

  lemma Accepts() returns (trace: seq<Event>)
    ensures LeadsTo(trace, OneRow([ITEM], Queued, Idle, [], []))
  {
    var s := Booted(map[], 1);
    assert s.workers == [Idle];
    trace := [] + [EnqueueCall(ITEM, 0, true)];
    OneMore([], s, EnqueueCall(ITEM, 0, true));
  }

  lemma Recovers(dispatched: seq<ExecId>, callbacks: seq<ExecId>)
    ensures var s := OneRow([], Processing, Idle, dispatched, callbacks);
            && Step(1, s, CrashEvent) == s
            && Enabled(s, RECOVERY) && Step(1, s, RECOVERY) == OneRow([ITEM], Queued, Idle, dispatched, callbacks)
  {
    var s := OneRow([], Processing, Idle, dispatched, callbacks);
    assert ResetTable(s.queue.table) == map["x" := Row("job", 0, Queued, 0)];
    assert IsListing(ResetTable(s.queue.table), ["x"]);
    assert Load([], 1, ResetTable(s.queue.table), ["x"], CATALOG) == [ITEM];
  }

  // If the row update of a finished execution fails, its row is still `processing` when the callback fires; a crash
  // and a recovery then bring the execution back, and the callback fires a second time.
  lemma LostRowUpdateRepeatsCallback() returns (trace: seq<Event>)
    ensures Possible(1, Booted(map[], 1), trace) && OrderlyRun(1, Booted(map[], 1), trace)
    ensures After(1, Booted(map[], 1), trace).callbacks == ["x", "x"]
  {
    trace := Accepts();
    trace := PollSettleAndCallBack(trace, false, [], []);
    trace := CrashAndRecover(trace, ["x"], ["x"]);
    trace := PollSettleAndCallBack(trace, true, ["x"], ["x"]);
  }

  lemma CrashAndRecover(before: seq<Event>, dispatched: seq<ExecId>, callbacks: seq<ExecId>) returns (trace: seq<Event>)
    requires LeadsTo(before, OneRow([], Processing, Idle, dispatched, callbacks))
    ensures LeadsTo(trace, OneRow([ITEM], Queued, Idle, dispatched, callbacks))
  {
    var s := OneRow([], Processing, Idle, dispatched, callbacks);
    Recovers(dispatched, callbacks);
    OneMore(before, s, CrashEvent);
    OneMore(before + [CrashEvent], s, RECOVERY);
    trace := before + [CrashEvent] + [RECOVERY];
  }

  lemma PollSettleAndCallBack(before: seq<Event>, updateOk: bool, dispatched: seq<ExecId>,
                              callbacks: seq<ExecId>) returns (trace: seq<Event>)
    requires LeadsTo(before, OneRow([ITEM], Queued, Idle, dispatched, callbacks))
    ensures var status := if updateOk then Completed else Processing;
            LeadsTo(trace, OneRow([], status, Idle, dispatched + ["x"], callbacks + ["x"]))
  {
    trace := PollAndStart(before, dispatched, callbacks);
    trace := SettleAndCallBack(trace, updateOk, dispatched + ["x"], callbacks);
  }

  lemma PollAndStart(before: seq<Event>, dispatched: seq<ExecId>, callbacks: seq<ExecId>) returns (trace: seq<Event>)
    requires LeadsTo(before, OneRow([ITEM], Queued, Idle, dispatched, callbacks))
    ensures LeadsTo(trace, OneRow([], Processing, Started("x"), dispatched + ["x"], callbacks))
  {
    Polls(dispatched, callbacks);
    OneMore(before, OneRow([ITEM], Queued, Idle, dispatched, callbacks), POLL);
    Starts(dispatched + ["x"], callbacks);
    OneMore(before + [POLL], OneRow([], Processing, Picked("x"), dispatched + ["x"], callbacks), MarkRunning(0));
    trace := before + [POLL] + [MarkRunning(0)];
  }

  lemma SettleAndCallBack(before: seq<Event>, updateOk: bool, dispatched: seq<ExecId>, callbacks: seq<ExecId>)
    returns (trace: seq<Event>)
    requires LeadsTo(before, OneRow([], Processing, Started("x"), dispatched, callbacks))
    ensures LeadsTo(trace, OneRow([], if updateOk then Completed else Processing, Idle, dispatched, callbacks + ["x"]))
  {
    var settle := SettleSuccess(0, RowFaults(true, true, updateOk));
    Settles(updateOk, dispatched, callbacks);
    OneMore(before, OneRow([], Processing, Started("x"), dispatched, callbacks), settle);
    var status := if updateOk then Completed else Processing;
    CallsBack(status, dispatched, callbacks);
    OneMore(before + [settle], OneRow([], status, Settled("x"), dispatched, callbacks), Callback(0));
    trace := before + [settle] + [Callback(0)];
  }

  // A cancelled execution whose retry was asleep: no row, and the retry about to wake, or about to push.
  function Cancelled(heap: seq<QueueItem>, pending: multiset<ExecId>, pushes: multiset<Push>): Sys {
    Sys(Queue(heap, map[], pending, pushes), [Idle], {"x"}, {"x"}, ["x"], ["x"])
  }

  lemma FailsIntoRetry()
    ensures var held := OneRow([], Processing, Started("x"), ["x"], []);
            var asleep := Sys(Queue([], held.queue.table, multiset{"x"}, multiset{}), [Settled("x")], held.existing,
                              held.accepted, ["x"], []);
            && Enabled(held, SettleFailure(0, 0, 1, NO_ROW_FAULTS))
            && Step(1, held, SettleFailure(0, 0, 1, NO_ROW_FAULTS)) == asleep
  {}

  lemma CancelsDuringRetry(before: seq<Event>) returns (trace: seq<Event>)
    requires LeadsTo(before, OneRow([], Processing, Started("x"), ["x"], []))
    ensures LeadsTo(trace, Cancelled([], multiset{"x"}, multiset{}))
  {
    var held := OneRow([], Processing, Started("x"), ["x"], []);
    var fail := SettleFailure(0, 0, 1, NO_ROW_FAULTS);
    FailsIntoRetry();
    OneMore(before, held, fail);
    var asleep := held.(queue := held.queue.(pending := multiset{"x"}), workers := [Settled("x")]);
    OneMore(before + [fail], asleep, Callback(0));
    var idle := asleep.(workers := [Idle], callbacks := ["x"]);
    assert Step(1, asleep, Callback(0)) == idle;
    OneMore(before + [fail] + [Callback(0)], idle, RemoveCall("x", true));
    assert Step(1, idle, RemoveCall("x", true)).queue.table == map[];
    assert Step(1, idle, RemoveCall("x", true)) == Cancelled([], multiset{"x"}, multiset{});
    trace := before + [fail] + [Callback(0)] + [RemoveCall("x", true)];
  }

  lemma PushesWithoutRow()
    ensures var asleep := Cancelled([], multiset{"x"}, multiset{});
            var awake := Cancelled([], multiset{}, multiset{Push("x", None)});
            var pushed := Cancelled([ITEM], multiset{}, multiset{});
            && Enabled(asleep, RetryRequeue("x", true)) && Step(1, asleep, RetryRequeue("x", true)) == awake
            && Enabled(awake, PUSH) && Step(1, awake, PUSH) == pushed
            && !Coupled(pushed.queue, 1) && Enabled(pushed, POLL) && Dispatches(pushed, POLL, "x")
  {
    assert ITEM in [ITEM] && "x" in HeapIds([ITEM]);
    PopItem();
  }

  // Removing an execution from the queue while its retry sleeps deletes the row, but the spawned retry still pushes the
  // item: the heap then holds an execution without a row, and the next dequeue dispatches it although it was removed.
  lemma CancelledDuringRetryIsDispatched() returns (trace: seq<Event>)
    ensures Possible(1, Booted(map[], 1), trace)
    ensures var s := After(1, Booted(map[], 1), trace);
            && !Coupled(s.queue, 1) && "x" !in s.queue.table
            && Enabled(s, POLL) && Dispatches(s, POLL, "x")
  {
    trace := Accepts();
    trace := PollAndStart(trace, [], []);
    trace := CancelsDuringRetry(trace);
    PushesWithoutRow();
    OneMore(trace, Cancelled([], multiset{"x"}, multiset{}), RetryRequeue("x", true));
    trace := trace + [RetryRequeue("x", true)];
    OneMore(trace, Cancelled([], multiset{}, multiset{Push("x", None)}), PUSH);
    trace := trace + [PUSH];
  }

  // Deleting a queued execution takes its row and leaves its item in memory: the next dequeue hands it out, and the
  // worker can only give up on it.
  lemma DeletedWhileQueuedIsDispatched() returns (trace: seq<Event>)
    ensures Possible(1, Booted(map[], 1), trace)
    ensures var s := After(1, Booted(map[], 1), trace);
            && !Coupled(s.queue, 1) && "x" !in s.queue.table
            && Enabled(s, POLL) && Dispatches(s, POLL, "x")
            && var picked := Step(1, s, POLL); picked.workers == [Picked("x")] && !Enabled(picked, MarkRunning(0))
  {
    trace := Accepts();
    var before := OneRow([ITEM], Queued, Idle, [], []);
    var e := DeleteExecutions({"x"});
    OneMore(trace, before, e);
    var s := Step(1, before, e);
    assert ITEM in s.queue.heap && "x" in HeapIds(s.queue.heap);
    PopItem();
    trace := trace + [e];
  }
}
