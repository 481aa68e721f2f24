/** A DAG run and the queue that executes it, together: the engine hands executions to the queue, workers call it back,
    and anything else the queue does goes on around that. Each engine call is one atomic step. */
module Pipeline {
  import opened Wrappers
  import opened Graphs
  import opened DagRuns
  import opened RunSafety
  import opened RunCounters
  import opened RunProgress
  import opened EngineCallbacks
  import I = QueueItems
  import P = WorkerPool
  import S = WorkerSafety
  import O = CallbackOnce
  import R = CallbackRepeats
  import W = WorkerIteration

  // `name` gives the queue's id of each execution of the run.
  datatype Setup = Setup(capacity: nat, cfg: Config, name: nat -> I.ExecId)

  ghost predicate NamesApart(u: Setup) { forall x, y :: u.name(x) == u.name(y) ==> x == y }

  ghost predicate IsNamed(u: Setup, id: I.ExecId) { exists x :: u.name(x) == id }

  // `events` records what the engine was called with.
  datatype Joint = Joint(sys: P.Sys, run: Run, events: seq<Event>)

  datatype Move =
    | QueueMove(event: P.Event)
    | CallbackMove(worker: nat, reported: Option<string>, faults: Faults)
    | CancelMove

  // An execution of the run is enqueued only after the engine has submitted it, and its record can be read only
  // while it exists.
  ghost predicate Allowed(u: Setup, j: Joint, m: Move) {
    match m
    case QueueMove(e) =>
      && P.Enabled(j.sys, e) && !e.Callback?
      && (e.EnqueueCall? ==> forall x :: u.name(x) == e.item.executionId ==> x in j.run.submitted)
    case CallbackMove(w, reported, _) =>
      P.Enabled(j.sys, P.Callback(w)) && (reported.Some? ==> j.sys.workers[w].id in j.sys.existing)
    case CancelMove => true
  }

  // The engine ignores callbacks of executions that are not the run's.
  ghost function AfterMove(u: Setup, j: Joint, m: Move): Joint
    requires Allowed(u, j, m)
  {
    match m
    case QueueMove(e) => j.(sys := P.Step(u.capacity, j.sys, e))
    case CallbackMove(w, reported, faults) =>
      var called := j.(sys := P.Step(u.capacity, j.sys, P.Callback(w)));
      var id := j.sys.workers[w].id;
      if IsNamed(u, id) then
        var x :| u.name(x) == id;
        Told(u, called, Completion(x, reported, faults))
      else called
    case CancelMove => Told(u, j, Cancellation)
  }

  function Told(u: Setup, j: Joint, event: Event): Joint {
    j.(run := Apply(u.cfg, j.run, event), events := j.events + [event])
  }

  ghost predicate CanMove(u: Setup, j: Joint, moves: seq<Move>)
    decreases |moves|, 0
  {
    moves == [] ||
    (CanMove(u, j, moves[..|moves| - 1])
     && Allowed(u, AfterMoves(u, j, moves[..|moves| - 1]), moves[|moves| - 1]))
  }

  ghost function AfterMoves(u: Setup, j: Joint, moves: seq<Move>): Joint
    requires CanMove(u, j, moves)
    decreases |moves|, 1
  {
    if moves == [] then j else AfterMove(u, AfterMoves(u, j, moves[..|moves| - 1]), moves[|moves| - 1])
  }

  // ---- runs whose executions are not retried ----

  // The queue's step is orderly, every attempt of the run's executions settles its row, callbacks can read the
  // outcome, and the run is not cancelled.
  ghost predicate Smooth(u: Setup, j: Joint, m: Move) {
    match m
    case QueueMove(e) => P.Enabled(j.sys, e) && P.Orderly(u.capacity, j.sys, e)
                         && forall x :: O.SettlesForGood(j.sys, e, u.name(x))
    case CallbackMove(_, reported, _) => reported.Some?
    case CancelMove => false
  }

  ghost predicate SmoothMoves(u: Setup, j: Joint, moves: seq<Move>)
    requires CanMove(u, j, moves)
  {
    moves == [] ||
    (SmoothMoves(u, j, moves[..|moves| - 1])
     && Smooth(u, AfterMoves(u, j, moves[..|moves| - 1]), moves[|moves| - 1]))
  }

  // The queue's side: only submitted executions were accepted, and each fires its callback at most once.
  ghost predicate QueueSide(u: Setup, j: Joint) {
    && S.SysInvariant(u.capacity, j.sys) && R.WorkKnown(j.sys)
    && (forall x :: u.name(x) in j.sys.accepted ==> x in j.run.submitted)
    && forall x :: O.Once(j.sys, u.name(x))
  }

  // The engine's side: it was called once for each started node that has called back.
  ghost predicate EngineSide(u: Setup, first: Run, j: Joint) {
    && Safe(u.cfg, first) && j.run == After(u.cfg, first, j.events) && OneCallbackEach(u.cfg, first, j.events)
    && SubmittedOnce(j.run) && RunsUntilCalledBack(j.run, j.events)
  }

  // Both have seen the same callbacks.
  ghost predicate SameCallbacks(u: Setup, j: Joint) {
    forall x :: CalledBack(j.events, x) <==> u.name(x) in j.sys.callbacks
  }

  ghost predicate InStep(u: Setup, first: Run, j: Joint) {
    QueueSide(u, j) && EngineSide(u, first, j) && SameCallbacks(u, j)
  }

  lemma OnlyCallbacksFire(capacity: nat, s: P.Sys, e: P.Event)
    requires P.Enabled(s, e) && !e.Callback?
    ensures P.Step(capacity, s, e).callbacks == s.callbacks
  {}

  lemma OnlyEnqueuesAccept(capacity: nat, s: P.Sys, e: P.Event, id: I.ExecId)
    requires P.Enabled(s, e) && id in P.Step(capacity, s, e).accepted && id !in s.accepted
    ensures e.EnqueueCall? && e.item.executionId == id
  {}

  lemma QueueMoveKeepsStep(u: Setup, first: Run, j: Joint, e: P.Event)
    requires InStep(u, first, j) && Allowed(u, j, QueueMove(e)) && Smooth(u, j, QueueMove(e))
    ensures InStep(u, first, AfterMove(u, j, QueueMove(e)))
  {
    var t := P.Step(u.capacity, j.sys, e);
    S.StepKeepsInvariant(u.capacity, j.sys, e);
    R.StepKeepsKnown(u.capacity, j.sys, e);
    OnlyCallbacksFire(u.capacity, j.sys, e);
    forall x ensures O.Once(t, u.name(x)) {
      O.StepKeepsOnce(u.capacity, j.sys, e, u.name(x));
    }
    forall x | u.name(x) in t.accepted ensures x in j.run.submitted {
      if u.name(x) !in j.sys.accepted { OnlyEnqueuesAccept(u.capacity, j.sys, e, u.name(x)); }
    }
  }

  lemma CallbackKeepsQueueSide(u: Setup, j: Joint, w: nat, t: P.Sys, r: Run)
    requires QueueSide(u, j) && P.Enabled(j.sys, P.Callback(w)) && t == P.Step(u.capacity, j.sys, P.Callback(w))
    requires forall x :: x in j.run.submitted ==> x in r.submitted
    ensures QueueSide(u, j.(sys := t, run := r))
  {
    S.StepKeepsInvariant(u.capacity, j.sys, P.Callback(w));
    R.StepKeepsKnown(u.capacity, j.sys, P.Callback(w));
    forall x ensures O.Once(t, u.name(x)) {
      O.StepKeepsOnce(u.capacity, j.sys, P.Callback(w), u.name(x));
    }
  }

  // A worker owes the callback of the run's execution x: it is the first one, and a node has started for it.
  lemma CallbackIsFirst(u: Setup, first: Run, j: Joint, w: nat, event: Event)
    requires InStep(u, first, j) && P.Enabled(j.sys, P.Callback(w)) && event.Completion? && event.reported.Some?
    requires u.name(event.execution) == j.sys.workers[w].id
    ensures Accepted(j.run, event) && !CalledBack(j.events, event.execution)
  {
    var id := j.sys.workers[w].id;
    assert O.OwesCallback(j.sys, w, id) && O.Once(j.sys, u.name(event.execution));
  }

  lemma EngineKeepsStep(u: Setup, first: Run, j: Joint, event: Event)
    requires EngineSide(u, first, j) && Accepted(j.run, event) && !CalledBack(j.events, event.execution)
    ensures EngineSide(u, first, Told(u, j, event))
    ensures forall x :: x in j.run.submitted ==> x in Apply(u.cfg, j.run, event).submitted
  {
    SafeAlways(u.cfg, first, j.events);
    StepSubmits(u.cfg, j.run, event);
    var job := CallbackStep(u.cfg, j.run, j.events, event);
    OneMoreEach(u.cfg, first, j.events, event, job);
    assert forall x :: x in j.run.submitted ==> x in Apply(u.cfg, j.run, event).submitted by {
      Prefixes(j.run.submitted, Apply(u.cfg, j.run, event).submitted);
    }
  }

  lemma Prefixes(a: seq<nat>, b: seq<nat>)
    requires a <= b
    ensures forall x :: x in a ==> x in b
  {}

  lemma OneMoreEach(cfg: Config, first: Run, events: seq<Event>, event: Event, job: JobId)
    requires OneCallbackEach(cfg, first, events) && CallsBack(After(cfg, first, events), job, event)
    requires event.reported.Some?
    ensures OneCallbackEach(cfg, first, events + [event])
    ensures After(cfg, first, events + [event]) == Apply(cfg, After(cfg, first, events), event)
  {
    var more := events + [event];
    assert more[..|more| - 1] == events;
  }

  lemma CallbacksStaySame(u: Setup, j: Joint, t: P.Sys, id: I.ExecId, event: Event)
    requires NamesApart(u) && SameCallbacks(u, j) && t.callbacks == j.sys.callbacks + [id]
    requires event.Completion? && u.name(event.execution) == id
    ensures SameCallbacks(u, Told(u, j.(sys := t), event))
  {
    var more := j.events + [event];
    forall x ensures CalledBack(more, x) <==> u.name(x) in t.callbacks {
      assert more[|j.events|] == event;
      if CalledBack(j.events, x) { StillCalledBack(j.events, event, x); }
      if CalledBack(more, x) && x != event.execution {
        var i :| 0 <= i < |more| && more[i].Completion? && more[i].execution == x;
        assert j.events[i] == more[i];
      }
    }
  }

  lemma CallbackMoveKeepsStep(u: Setup, first: Run, j: Joint, m: Move)
    requires NamesApart(u) && InStep(u, first, j) && m.CallbackMove? && Allowed(u, j, m) && m.reported.Some?
    ensures InStep(u, first, AfterMove(u, j, m))
  {
    var t := P.Step(u.capacity, j.sys, P.Callback(m.worker));
    var id := j.sys.workers[m.worker].id;
    if IsNamed(u, id) {
      var x: nat :| u.name(x) == id;
      var event := Completion(x, m.reported, m.faults);
      assert AfterMove(u, j, m) == Told(u, j.(sys := t), event);
      CallbackIsFirst(u, first, j, m.worker, event);
      EngineKeepsStep(u, first, j, event);
      CallbackKeepsQueueSide(u, j, m.worker, t, Apply(u.cfg, j.run, event));
      CallbacksStaySame(u, j, t, id, event);
    } else {
      CallbackKeepsQueueSide(u, j, m.worker, t, j.run);
      assert forall x :: u.name(x) != id;
    }
  }

  lemma {:induction false} InStepAlways(u: Setup, first: Run, j: Joint, moves: seq<Move>)
    requires NamesApart(u) && InStep(u, first, j) && CanMove(u, j, moves) && SmoothMoves(u, j, moves)
    ensures InStep(u, first, AfterMoves(u, j, moves))
  {
    if moves != [] {
      var before, m := AfterMoves(u, j, moves[..|moves| - 1]), moves[|moves| - 1];
      InStepAlways(u, first, j, moves[..|moves| - 1]);
      match m {
        case QueueMove(e) => QueueMoveKeepsStep(u, first, before, e);
        case CallbackMove(_, _, _) => CallbackMoveKeepsStep(u, first, before, m);
      }
    }
  }

  // The run is triggered next to a queue with any history, which has not seen the run's executions.
  ghost predicate Starts(u: Setup, j: Joint, order: seq<JobId>, nextExecution: nat, faults: Faults) {
    && u.cfg.startable <= {Waiting, Ready} && Enumerates(order, Nodes(u.cfg.edges)) && NamesApart(u)
    && S.Reachable(u.capacity, j.sys) && (forall x :: u.name(x) !in j.sys.accepted)
    && j.run == Triggered(u.cfg, order, nextExecution, faults) && j.events == []
  }

  lemma StartIsInStep(u: Setup, j: Joint, order: seq<JobId>, nextExecution: nat, faults: Faults)
    requires Starts(u, j, order, nextExecution, faults)
    ensures InStep(u, j.run, j)
  {
    S.ReachableIsSafe(u.capacity, j.sys);
    R.ReachableIsKnown(u.capacity, j.sys);
    TriggerIsSafe(u.cfg, order, nextExecution, faults);
    TriggeredRuns(u.cfg, order, nextExecution, faults);
    SubmissionsAlways(u.cfg, order, nextExecution, faults, []);
    forall x ensures O.Once(j.sys, u.name(x)) {
      NeverSeen(u.capacity, j.sys, u.name(x));
    }
  }

  lemma NeverSeen(capacity: nat, s: P.Sys, id: I.ExecId)
    requires R.WorkKnown(s) && id !in s.accepted
    ensures O.Once(s, id) && id !in s.callbacks
  {}

  // If no execution of the run is retried, then whatever the interleaving of workers, crashes and recoveries and
  // whatever else the queue does, the engine is called once for each started node that calls back. So the results on
  // counters hold for the run, and if no engine call meets a fault those on progress do.
  lemma UnretriedRunIsTracked(u: Setup, j: Joint, order: seq<JobId>, nextExecution: nat, faults: Faults,
                              moves: seq<Move>)
    requires Starts(u, j, order, nextExecution, faults) && CanMove(u, j, moves) && SmoothMoves(u, j, moves)
    ensures var t := AfterMoves(u, j, moves);
            && t.run == After(u.cfg, j.run, t.events) && OneCallbackEach(u.cfg, j.run, t.events)
            && ReachableByCallbacks(u.cfg, t.run)
            && (faults == NO_FAULTS && FaultFree(t.events) ==> AfterCallbacks(u.cfg, t.run, |t.events|))
  {
    StartIsInStep(u, j, order, nextExecution, faults);
    InStepAlways(u, j.run, j, moves);
  }

  // ---- lost callbacks ----

  // A node is running, and the callback of its execution can no longer fire.
  ghost predicate Abandoned(u: Setup, j: Joint, job: JobId, manual: bool) {
    && Safe(u.cfg, j.run) && ClosedWhenSettled(j.run) && job in RunningJobs(j.run) && HasExecution(j.run, job)
    && R.OutOfPlay(u.capacity, j.sys, u.name(j.run.nodes[job].execution.value), manual)
  }

  // The move neither cancels the run nor, unless that is allowed, requeues the node's execution by hand.
  ghost predicate LeavesAlone(u: Setup, j: Joint, job: JobId, m: Move, manual: bool)
    requires HasExecution(j.run, job)
  {
    && !m.CancelMove?
    && (m.QueueMove? ==> manual || !R.IsManual(m.event, u.name(j.run.nodes[job].execution.value)))
  }

  lemma OtherCompletionKeepsRunning(cfg: Config, run: Run, other: JobId, status: NodeStatus, faults: Faults, job: JobId)
    requires Safe(cfg, run) && HasExecution(run, other) && Terminal(status)
    requires job in RunningJobs(run) && HasExecution(run, job) && job != other
    ensures var r := CompleteNode(cfg, run, other, status, faults);
            job in RunningJobs(r) && HasExecution(r, job) && r.nodes[job].execution == run.nodes[job].execution
  {
    CompleteLasts(cfg, run, other, status, faults);
    CompletionLeavesOthers(cfg, run, other, status, faults, job);
  }

  lemma OtherCallbackStays(cfg: Config, run: Run, event: Event, job: JobId)
    requires Safe(cfg, run) && event.Completion?
    requires job in RunningJobs(run) && HasExecution(run, job) && run.nodes[job].execution != Some(event.execution)
    ensures var r := Apply(cfg, run, event);
            job in RunningJobs(r) && HasExecution(r, job) && r.nodes[job].execution == run.nodes[job].execution
  {
    if Accepted(run, event) {
      FindNodeIs(run, run.order, event.execution);
      var other := FindNode(run, run.order, event.execution).value;
      OtherCompletionKeepsRunning(cfg, run, other, Outcome(event.reported.value), event.faults, job);
    } else {
      OtherCallbackIsIgnored(cfg, run, event);
    }
  }

  lemma OtherCallbackKeepsRunning(cfg: Config, run: Run, event: Event, job: JobId)
    requires Safe(cfg, run) && ClosedWhenSettled(run) && event.Completion?
    requires job in RunningJobs(run) && HasExecution(run, job) && run.nodes[job].execution != Some(event.execution)
    ensures var r := Apply(cfg, run, event);
            && Safe(cfg, r) && ClosedWhenSettled(r) && job in RunningJobs(r)
            && HasExecution(r, job) && r.nodes[job].execution == run.nodes[job].execution
  {
    StepKeepsSafe(cfg, run, event);
    StepCloses(cfg, run, event);
    OtherCallbackStays(cfg, run, event, job);
  }

  lemma MoveKeepsAbandoned(u: Setup, j: Joint, m: Move, job: JobId, manual: bool)
    requires Abandoned(u, j, job, manual) && Allowed(u, j, m) && LeavesAlone(u, j, job, m, manual)
    ensures Abandoned(u, AfterMove(u, j, m), job, manual)
    ensures AfterMove(u, j, m).run.nodes[job].execution == j.run.nodes[job].execution
  {
    var id := u.name(j.run.nodes[job].execution.value);
    match m {
      case QueueMove(e) => R.StepStaysOut(u.capacity, j.sys, e, id, manual);
      case CallbackMove(w, reported, faults) =>
        R.StepStaysOut(u.capacity, j.sys, P.Callback(w), id, manual);
        assert O.OwesCallback(j.sys, w, j.sys.workers[w].id) && !O.OwesCallback(j.sys, w, id);
        if IsNamed(u, j.sys.workers[w].id) {
          OthersKeepRunning(u, j, m, job);
        }
    }
  }

  lemma OthersKeepRunning(u: Setup, j: Joint, m: Move, job: JobId)
    requires Safe(u.cfg, j.run) && ClosedWhenSettled(j.run) && job in RunningJobs(j.run) && HasExecution(j.run, job)
    requires m.CallbackMove? && Allowed(u, j, m) && IsNamed(u, j.sys.workers[m.worker].id)
    requires u.name(j.run.nodes[job].execution.value) != j.sys.workers[m.worker].id
    ensures var r := AfterMove(u, j, m).run;
            && Safe(u.cfg, r) && ClosedWhenSettled(r) && job in RunningJobs(r)
            && HasExecution(r, job) && r.nodes[job].execution == j.run.nodes[job].execution
  {
    var x: nat :| u.name(x) == j.sys.workers[m.worker].id
                  && AfterMove(u, j, m).run == Apply(u.cfg, j.run, Completion(x, m.reported, m.faults));
    OtherCallbackKeepsRunning(u.cfg, j.run, Completion(x, m.reported, m.faults), job);
  }

  ghost predicate AllLeaveAlone(u: Setup, j: Joint, moves: seq<Move>, id: I.ExecId, manual: bool) {
    forall m :: m in moves ==> !m.CancelMove? && (m.QueueMove? ==> manual || !R.IsManual(m.event, id))
  }

  // Once the callback of a running node can no longer fire, the node stays running, and the run live, for ever: over
  // every continuation, orderly or not, in which the run is not cancelled.
  lemma {:induction false} LostCallbackKeepsRunOpen(u: Setup, j: Joint, moves: seq<Move>, job: JobId, manual: bool)
    requires Abandoned(u, j, job, manual) && CanMove(u, j, moves)
    requires AllLeaveAlone(u, j, moves, u.name(j.run.nodes[job].execution.value), manual)
    ensures var t := AfterMoves(u, j, moves);
            && Abandoned(u, t, job, manual) && t.run.nodes[job].execution == j.run.nodes[job].execution
            && job in RunningJobs(t.run) && t.run.status == InProgress
  {
    if moves != [] {
      var front, m := moves[..|moves| - 1], moves[|moves| - 1];
      assert moves == front + [m];
      LostCallbackKeepsRunOpen(u, j, front, job, manual);
      MoveKeepsAbandoned(u, AfterMoves(u, j, front), m, job, manual);
    }
    RunningIsLive(AfterMoves(u, j, moves).run, job);
  }

  lemma RunningIsLive(run: Run, job: JobId)
    requires ClosedWhenSettled(run) && job in RunningJobs(run)
    ensures run.status == InProgress
  {
    assert !Terminal(run.nodes[job].status);
  }

  // ---- what the worker's record makes of the node ----

  // After a pass for a node's execution the node is a success exactly if the attempt's final write stood, and
  // cancelled exactly if a cancellation stood.
  lemma PassSettlesNode(cfg: Config, run: Run, event: Event, job: JobId, attempt: W.Attempt, writes: W.Writes,
                        statuses: W.Statuses, id: I.ExecId)
    requires Safe(cfg, run) && HasExecution(run, job) && event.Completion?
    requires run.nodes[job].execution == Some(event.execution)
    requires event.reported == Some(W.AsString(W.Recorded(statuses, id, attempt, writes)[id]))
    ensures job in Apply(cfg, run, event).nodes
    ensures var status := Apply(cfg, run, event).nodes[job].status;
            && (status == Success <==> W.SuccessStands(attempt, writes))
            && (status == Cancelled <==> W.CancellationStands(writes))
            && (status == Failed <==> !W.SuccessStands(attempt, writes) && !W.CancellationStands(writes))
  {
    NodeBecomesReported(cfg, run, event, job);
    W.LastWrite(attempt, writes);
    W.OutcomeOf(W.Recorded(statuses, id, attempt, writes)[id]);
  }
}
