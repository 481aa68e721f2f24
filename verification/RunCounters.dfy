/** The counters and the closing of DAG runs: what completed_nodes and failed_nodes count, when a run is closed, and how
    cancelled and stopped runs end. */
module RunCounters {
  import opened Wrappers
  import opened Graphs
  import opened DagRuns
  import opened RunSafety

  // ---- one callback per started node ----

  // Every event is the callback of a node that is running at that moment.
  ghost predicate OneCallbackEach(cfg: Config, run: Run, events: seq<Event>) {
    events == [] ||
    var before, event := After(cfg, run, events[..|events| - 1]), events[|events| - 1];
    && OneCallbackEach(cfg, run, events[..|events| - 1])
    && event.Completion? && event.reported.Some?
    && exists j :: CallsBack(before, j, event)
  }

  ghost predicate CallsBack(run: Run, j: JobId, event: Event) {
    event.Completion? && j in RunningJobs(run) && run.nodes[j].execution == Some(event.execution)
  }

  // The nodes whose execution has called back, and the unsuccessful ones among them.
  function Returned(run: Run): (r: set<JobId>)
    ensures r <= run.nodes.Keys
  {
    set j | j in run.nodes && HasExecution(run, j) && Settled(run, j)
  }

  function ReturnedFailed(run: Run): (r: set<JobId>)
    ensures r <= run.nodes.Keys
  {
    set j | j in run.nodes && HasExecution(run, j) && IsFailure(run.nodes[j].status)
  }

  ghost predicate SkipHasCause(run: Run) {
    AnyStatus(run, {Skipped}) ==> AnyStatus(run, {Failed, Cancelled})
  }

  ghost predicate AllSucceeded(run: Run) { forall j :: j in run.nodes ==> run.nodes[j].status == Success }

  ghost predicate Finalised(run: Run) {
    && run.status in {Succeeded, RunFailed, Partial}
    && AllTerminal(run) && run.completed == run.total
    && (run.status == Succeeded <==> AllSucceeded(run))
    && (run.status == RunFailed ==> AnyStatus(run, {Failed, Cancelled}))
    && (run.status == Partial ==> AnyStatus(run, {Failed, Cancelled}) && AnyStatus(run, {Skipped}))
  }

  ghost predicate Counted(run: Run) {
    && (run.status == InProgress ==> run.completed == |Returned(run)|)
    && run.failed == |ReturnedFailed(run)|
  }

  ghost predicate Tracked(cfg: Config, run: Run) {
    Safe(cfg, run) && SkipHasCause(run) && Counted(run) && (run.status == InProgress || Finalised(run))
  }

  lemma AdvanceKeepsCounters(cfg: Config, run: Run, faults: Faults)
    requires Safe(cfg, run) && Counted(run) && SkipHasCause(run)
    ensures var r := Advance(cfg, run, faults);
            Counted(r) && SkipHasCause(r) && r.status == run.status && r.completed == run.completed
  {
    AdvanceEffect(cfg, run, faults);
    StartKeepsCounters(run, Chosen(cfg, run), faults, Advance(cfg, run, faults));
  }

  lemma StartKeepsCounters(run: Run, xs: seq<JobId>, faults: Faults, r: Run)
    requires StartEffect(run, xs, faults, r) && ExecutionIds(run) && forall i :: i in xs ==> IsOpen(run, i)
    ensures Returned(r) == Returned(run) && ReturnedFailed(r) == ReturnedFailed(run)
    ensures SkipHasCause(run) ==> SkipHasCause(r)
  {
    forall j | j in run.nodes
      ensures j in Returned(r) <==> j in Returned(run)
      ensures j in ReturnedFailed(r) <==> j in ReturnedFailed(run)
      ensures r.nodes[j].status == Skipped <==> run.nodes[j].status == Skipped
      ensures IsFailure(run.nodes[j].status) ==> IsFailure(r.nodes[j].status)
    {
      assert RowEffect(run, xs, faults, r, j);
      StartedRow(run, xs, faults, r, j);
    }
  }

  lemma SettleAddsOne(run: Run, job: JobId, status: NodeStatus)
    requires job in RunningJobs(run) && HasExecution(run, job) && Terminal(status)
    ensures var r := Settle(run, job, status);
            && |Returned(r)| == |Returned(run)| + 1
            && |ReturnedFailed(r)| == |ReturnedFailed(run)| + (if IsFailure(status) then 1 else 0)
            && |SettledJobs(r)| == |SettledJobs(run)| + 1
  {
    SettleSets(run, job, status);
  }

  lemma SettleSets(run: Run, job: JobId, status: NodeStatus)
    requires job in RunningJobs(run) && HasExecution(run, job) && Terminal(status)
    ensures job !in Returned(run) && job !in ReturnedFailed(run) && job !in SettledJobs(run)
    ensures var r := Settle(run, job, status);
            && Returned(r) == Returned(run) + {job}
            && ReturnedFailed(r) == (if IsFailure(status) then ReturnedFailed(run) + {job} else ReturnedFailed(run))
            && SettledJobs(r) == SettledJobs(run) + {job}
  {
    var r := Settle(run, job, status);
    forall j
      ensures j in Returned(r) <==> j in Returned(run) || j == job
      ensures j in ReturnedFailed(r) <==> j in ReturnedFailed(run) || (j == job && IsFailure(status))
      ensures j in SettledJobs(r) <==> j in SettledJobs(run) || j == job
    {
      assert j != job && j in run.nodes ==> r.nodes[j] == run.nodes[j];
    }
  }

  lemma SettleKeepsCounters(run: Run, job: JobId, status: NodeStatus)
    requires job in RunningJobs(run) && HasExecution(run, job) && Terminal(status) && status != Skipped
    requires Counted(run) && SkipHasCause(run)
    ensures var r := Settle(run, job, status); Counted(r) && SkipHasCause(r)
  {
    var r := Settle(run, job, status);
    SettleAddsOne(run, job, status);
    forall j | j in run.nodes && run.nodes[j].status in {Failed, Cancelled}
      ensures r.nodes[j].status in {Failed, Cancelled}
    {}
  }

  lemma SkippingKeepsCounters(run: Run)
    requires ExecutionIds(run)
    ensures Returned(SkipOpen(run)) == Returned(run) && ReturnedFailed(SkipOpen(run)) == ReturnedFailed(run)
  {}

  lemma SkippingSettlesAll(run: Run)
    requires RunningJobs(run) == {}
    ensures AllTerminal(SkipOpen(run)) && SettledJobs(SkipOpen(run)) == run.nodes.Keys
  {
    forall j | j in run.nodes ensures Terminal(SkipOpen(run).nodes[j].status) {
      assert j !in RunningJobs(run);
    }
  }

  lemma StopTracks(cfg: Config, run: Run, job: JobId)
    requires Shape(cfg, run) && ExecutionIds(run) && Counted(run) && run.status == InProgress
    requires job in run.nodes && IsFailure(run.nodes[job].status)
    ensures var r := StopRun(run);
            Counted(r) && SkipHasCause(r) && (r.status == InProgress || Finalised(r))
  {
    var r := StopRun(run);
    SkippingKeepsCounters(run);
    assert Returned(r) == Returned(run) && ReturnedFailed(r) == ReturnedFailed(run);
    assert r.nodes[job] == run.nodes[job];
    if RunningJobs(run) == {} {
      StopFinalises(cfg, run, job);
    }
  }

  lemma StopFinalises(cfg: Config, run: Run, job: JobId)
    requires Shape(cfg, run) && RunningJobs(run) == {}
    requires job in run.nodes && IsFailure(run.nodes[job].status)
    ensures Finalised(StopRun(run))
  {
    SkippingSettlesAll(run);
    EnumerationSize(run.order, run.nodes.Keys);
    assert StopRun(run).nodes[job] == run.nodes[job];
  }

  lemma FinishTracks(cfg: Config, run: Run)
    requires Safe(cfg, run) && Counted(run) && SkipHasCause(run) && run.status == InProgress
    ensures var r := FinishIfDone(run);
            Counted(r) && SkipHasCause(r) && (if AllTerminal(run) then Finalised(r) else r == run)
  {
    FinishKeepsSets(run, FinishIfDone(run));
    if AllTerminal(run) { FinishFinalises(cfg, run); }
  }

  lemma FinishKeepsSets(run: Run, r: Run)
    requires r.nodes == run.nodes
    ensures Returned(r) == Returned(run) && ReturnedFailed(r) == ReturnedFailed(run)
    ensures SkipHasCause(run) ==> SkipHasCause(r)
  {}

  lemma FinishFinalises(cfg: Config, run: Run)
    requires Shape(cfg, run) && SkipHasCause(run) && AllTerminal(run)
    ensures Finalised(FinishIfDone(run))
  {}

  lemma CallbackTracks(cfg: Config, run: Run, event: Event, job: JobId)
    requires Tracked(cfg, run) && CallsBack(run, job, event) && event.reported.Some?
    ensures Apply(cfg, run, event) == CompleteNode(cfg, run, job, Outcome(event.reported.value), event.faults)
    ensures Tracked(cfg, Apply(cfg, run, event))
  {
    FindNodeIs(run, run.order, event.execution);
    assert HasExecution(run, job);
    StepKeepsSafe(cfg, run, event);
    var status := Outcome(event.reported.value);
    var settled := Settle(run, job, status);
    SettleIs(run, job, status);
    SettlingKeepsSafe(cfg, run, settled);
    SettleKeepsCounters(run, job, status);
    assert run.status == InProgress;
    if IsFailure(status) && cfg.onFailure == "stop" {
      StopTracks(cfg, settled, job);
    } else {
      AdvanceKeepsSafe(cfg, settled, event.faults);
      AdvanceKeepsCounters(cfg, settled, event.faults);
      FinishTracks(cfg, Advance(cfg, settled, event.faults));
    }
  }

  lemma CreatedIsTracked(cfg: Config, order: seq<JobId>, nextExecution: nat)
    requires cfg.startable <= {Waiting, Ready} && Enumerates(order, Nodes(cfg.edges))
    ensures var created := Created(cfg.edges, order, nextExecution);
            && Safe(cfg, created) && Counted(created) && SkipHasCause(created)
            && created.status == InProgress && SettledJobs(created) == {}
  {
    var created := Created(cfg.edges, order, nextExecution);
    assert Returned(created) == {} && ReturnedFailed(created) == {};
  }

  lemma TriggerTracks(cfg: Config, order: seq<JobId>, nextExecution: nat, faults: Faults)
    requires cfg.startable <= {Waiting, Ready} && Enumerates(order, Nodes(cfg.edges))
    ensures Tracked(cfg, Triggered(cfg, order, nextExecution, faults))
  {
    TriggerIsSafe(cfg, order, nextExecution, faults);
    CreatedIsTracked(cfg, order, nextExecution);
    AdvanceKeepsCounters(cfg, Created(cfg.edges, order, nextExecution), faults);
  }

  lemma {:induction false} TrackedAlways(cfg: Config, order: seq<JobId>, nextExecution: nat, faults: Faults,
                                         events: seq<Event>)
    requires cfg.startable <= {Waiting, Ready} && Enumerates(order, Nodes(cfg.edges))
    requires OneCallbackEach(cfg, Triggered(cfg, order, nextExecution, faults), events)
    ensures Tracked(cfg, After(cfg, Triggered(cfg, order, nextExecution, faults), events))
  {
    var first := Triggered(cfg, order, nextExecution, faults);
    if events == [] {
      TriggerTracks(cfg, order, nextExecution, faults);
    } else {
      var front, event := events[..|events| - 1], events[|events| - 1];
      TrackedAlways(cfg, order, nextExecution, faults, front);
      var before := After(cfg, first, front);
      var job :| CallsBack(before, job, event);
      CallbackTracks(cfg, before, event, job);
    }
  }

  // A state that a triggered run gets to with one callback per started node and no cancellation.
  ghost predicate ReachableByCallbacks(cfg: Config, run: Run) {
    exists order, nextExecution, faults, events ::
      && Enumerates(order, Nodes(cfg.edges))
      && OneCallbackEach(cfg, Triggered(cfg, order, nextExecution, faults), events)
      && run == After(cfg, Triggered(cfg, order, nextExecution, faults), events)
  }

  lemma FinalisedEnds(run: Run)
    requires Finalised(run)
    ensures run.status == RunFailed ==> exists j :: j in run.nodes && run.nodes[j].status in {Failed, Cancelled}
    ensures run.status == Partial ==>
              && (exists j :: j in run.nodes && run.nodes[j].status in {Failed, Cancelled})
              && exists j :: j in run.nodes && run.nodes[j].status == Skipped
  {}

  lemma ByCallbacksIsTracked(cfg: Config, run: Run)
    requires cfg.startable <= {Waiting, Ready} && ReachableByCallbacks(cfg, run)
    ensures Tracked(cfg, run)
  {
    var order, nextExecution, faults, events :|
      && Enumerates(order, Nodes(cfg.edges))
      && OneCallbackEach(cfg, Triggered(cfg, order, nextExecution, faults), events)
      && run == After(cfg, Triggered(cfg, order, nextExecution, faults), events);
    TrackedAlways(cfg, order, nextExecution, faults, events);
  }

  // While such a run is live, completed_nodes counts the settled nodes that hold an execution and failed_nodes
  // the unsuccessful ones among them; when it is finalised, on either exit path, completed_nodes is total_nodes
  // it succeeded exactly if every node did, and it is partial only if some node was skipped. This covers all three
  // failure policies.
  lemma CountersTrackNodes(cfg: Config, run: Run)
    requires cfg.startable <= {Waiting, Ready} && ReachableByCallbacks(cfg, run)
    ensures run.failed == |ReturnedFailed(run)|
    ensures run.status == InProgress ==> run.completed == |Returned(run)|
    ensures run.status != InProgress ==> AllTerminal(run) && run.completed == run.total == |run.order|
    ensures run.status != InProgress ==> (run.status == Succeeded <==> AllSucceeded(run))
    ensures run.status == RunFailed ==> exists j :: j in run.nodes && run.nodes[j].status in {Failed, Cancelled}
    ensures run.status == Partial ==>
              && (exists j :: j in run.nodes && run.nodes[j].status in {Failed, Cancelled})
              && exists j :: j in run.nodes && run.nodes[j].status == Skipped
  {
    ByCallbacksIsTracked(cfg, run);
    if run.status != InProgress { FinalisedEnds(run); }
  }

  // ---- any callbacks: retried nodes call back once for every attempt ----

  // The callback of a node that has started, with a readable outcome.
  ghost predicate Accepted(run: Run, event: Event) {
    event.Completion? && event.reported.Some? && HeldByNode(run, event.execution)
  }

  // How many callbacks a run has accepted, or how many unsuccessful ones.
  ghost function AcceptedCount(cfg: Config, run: Run, events: seq<Event>, failedOnly: bool): nat {
    if events == [] then 0
    else
      var front, event := events[..|events| - 1], events[|events| - 1];
      AcceptedCount(cfg, run, front, failedOnly)
      + if Accepted(After(cfg, run, front), event) && (failedOnly ==> event.reported != Some("success")) then 1 else 0
  }

  lemma OtherCallbackIsIgnored(cfg: Config, run: Run, event: Event)
    requires event.Completion? && !Accepted(run, event)
    ensures Apply(cfg, run, event) == run
  {
    FindNodeIs(run, run.order, event.execution);
  }

  lemma StepCounts(cfg: Config, run: Run, event: Event)
    requires Safe(cfg, run)
    ensures var r, one := Apply(cfg, run, event), if Accepted(run, event) then 1 else 0;
            && r.failed == run.failed + (if event.Completion? && event.reported != Some("success") then one else 0)
            && (r.status == InProgress ==> run.status == InProgress && r.completed == run.completed + one)
  {
    if event.Completion? {
      if Accepted(run, event) {
        FindNodeIs(run, run.order, event.execution);
        var job := FindNode(run, run.order, event.execution).value;
        CompletionCounts(cfg, run, job, Outcome(event.reported.value), event.faults);
      } else {
        OtherCallbackIsIgnored(cfg, run, event);
      }
    }
  }

  lemma AdvanceKeepsHeader(cfg: Config, run: Run, faults: Faults)
    requires Shape(cfg, run)
    ensures var r := Advance(cfg, run, faults);
            r.status == run.status && r.completed == run.completed && r.failed == run.failed
  {
    AdvanceEffect(cfg, run, faults);
  }

  lemma CompletionCounts(cfg: Config, run: Run, job: JobId, status: NodeStatus, faults: Faults)
    requires Shape(cfg, run) && job in run.nodes
    ensures var r := CompleteNode(cfg, run, job, status, faults);
            && r.failed == run.failed + (if IsFailure(status) then 1 else 0)
            && (r.status == InProgress ==> run.status == InProgress && r.completed == run.completed + 1)
  {
    var settled := Settle(run, job, status);
    assert Shape(cfg, settled);
    AdvanceKeepsHeader(cfg, settled, faults);
    FinishHeader(Advance(cfg, settled, faults));
  }

  lemma FinishHeader(run: Run)
    ensures var r := FinishIfDone(run);
            r.failed == run.failed && (r.status == InProgress ==> r == run)
  {}

  lemma {:induction false} CountAlways(cfg: Config, first: Run, events: seq<Event>)
    requires Safe(cfg, first)
    ensures var run := After(cfg, first, events);
            && run.failed == first.failed + AcceptedCount(cfg, first, events, true)
            && (run.status == InProgress ==>
                  run.completed == first.completed + AcceptedCount(cfg, first, events, false))
  {
    if events != [] {
      var front, event := events[..|events| - 1], events[|events| - 1];
      CountAlways(cfg, first, front);
      SafeAlways(cfg, first, front);
      StepCounts(cfg, After(cfg, first, front), event);
    }
  }

  // Whatever calls back, how often, and in what order: failed_nodes counts the accepted unsuccessful callbacks, and
  // while the run is live completed_nodes counts the accepted callbacks.
  lemma CountersCountCallbacks(cfg: Config, order: seq<JobId>, nextExecution: nat, faults: Faults, events: seq<Event>)
    requires cfg.startable <= {Waiting, Ready} && Enumerates(order, Nodes(cfg.edges))
    ensures var first := Triggered(cfg, order, nextExecution, faults);
            var run := After(cfg, first, events);
            && run.failed == AcceptedCount(cfg, first, events, true)
            && (run.status == InProgress ==> run.completed == AcceptedCount(cfg, first, events, false))
  {
    TriggerIsSafe(cfg, order, nextExecution, faults);
    AdvanceKeepsHeader(cfg, Created(cfg.edges, order, nextExecution), faults);
    CountAlways(cfg, Triggered(cfg, order, nextExecution, faults), events);
  }

  // ---- when a run is closed ----

  // A run is live exactly while some node is not terminal.
  ghost predicate ClosedWhenSettled(run: Run) { run.status == InProgress <==> !AllTerminal(run) }

  lemma SomeNodeOpen(cfg: Config, run: Run)
    requires Shape(cfg, run) && cfg.edges != [] && SettledJobs(run) == {}
    ensures !AllTerminal(run)
  {
    var j := cfg.edges[0].upstream;
    assert j in run.nodes && j !in SettledJobs(run);
  }

  // The downstream end of an edge does not start before the upstream end is settled.
  lemma TriggerStaysOpen(cfg: Config, order: seq<JobId>, nextExecution: nat, faults: Faults)
    requires cfg.startable <= {Waiting, Ready} && Enumerates(order, Nodes(cfg.edges)) && cfg.edges != []
    ensures !AllTerminal(Triggered(cfg, order, nextExecution, faults))
    ensures Triggered(cfg, order, nextExecution, faults).status == InProgress
  {
    var created, e := Created(cfg.edges, order, nextExecution), cfg.edges[0];
    CreatedIsTracked(cfg, order, nextExecution);
    assert e.upstream in created.nodes && e.upstream !in SettledJobs(created);
    AdvanceLeavesWaiting(cfg, created, faults, e);
    AdvanceKeepsHeader(cfg, created, faults);
  }

  lemma AdvanceLeavesWaiting(cfg: Config, run: Run, faults: Faults, e: DagEdge)
    requires Shape(cfg, run) && e in cfg.edges && e.upstream in run.nodes
    requires !Satisfied(e.condition, run.nodes[e.upstream].status)
    ensures e.downstream in run.nodes && Advance(cfg, run, faults).nodes[e.downstream] == run.nodes[e.downstream]
  {
    AdvanceEffect(cfg, run, faults);
    assert !IsNodeReady(cfg.edges, run.nodes, e.downstream);
    assert RowEffect(run, Chosen(cfg, run), faults, Advance(cfg, run, faults), e.downstream);
  }

  lemma CompletionCloses(cfg: Config, run: Run, job: JobId, status: NodeStatus, faults: Faults)
    requires Shape(cfg, run) && ClosedWhenSettled(run) && job in run.nodes && Terminal(status)
    ensures ClosedWhenSettled(CompleteNode(cfg, run, job, status, faults))
  {
    var settled := Settle(run, job, status);
    assert Shape(cfg, settled);
    if IsFailure(status) && cfg.onFailure == "stop" {
      StopCloses(run, job, status);
    } else if AllTerminal(run) {
      assert AllTerminal(settled) && Frozen(settled);
      FrozenStays(cfg, settled, faults);
    } else {
      AdvanceKeepsHeader(cfg, settled, faults);
      FinishCloses(Advance(cfg, settled, faults));
    }
  }

  lemma FinishCloses(run: Run)
    requires run.status == InProgress
    ensures ClosedWhenSettled(FinishIfDone(run))
  {}

  lemma StopCloses(run: Run, job: JobId, status: NodeStatus)
    requires ClosedWhenSettled(run) && job in run.nodes && Terminal(status)
    ensures ClosedWhenSettled(StopRun(Settle(run, job, status)))
  {
    var settled := Settle(run, job, status);
    if RunningJobs(settled) == {} {
      SkippingSettlesAll(settled);
    } else {
      var k :| k in RunningJobs(settled);
      assert run.nodes[k] == settled.nodes[k] && StopRun(settled).nodes[k] == settled.nodes[k];
    }
  }

  lemma StepCloses(cfg: Config, run: Run, event: Event)
    requires Safe(cfg, run) && ClosedWhenSettled(run)
    ensures ClosedWhenSettled(Apply(cfg, run, event))
  {
    if event.Cancellation? {
      CancelIs(run);
    } else if Accepted(run, event) {
      FindNodeIs(run, run.order, event.execution);
      var job := FindNode(run, run.order, event.execution).value;
      CompletionCloses(cfg, run, job, Outcome(event.reported.value), event.faults);
    } else {
      OtherCallbackIsIgnored(cfg, run, event);
    }
  }

  lemma {:induction false} ClosedAlways(cfg: Config, run: Run, events: seq<Event>)
    requires Safe(cfg, run) && ClosedWhenSettled(run)
    ensures ClosedWhenSettled(After(cfg, run, events))
  {
    if events != [] {
      ClosedAlways(cfg, run, events[..|events| - 1]);
      SafeAlways(cfg, run, events[..|events| - 1]);
      StepCloses(cfg, After(cfg, run, events[..|events| - 1]), events[|events| - 1]);
    }
  }

  // In every reachable state, under any policy, failures, repeated callbacks and cancellations, the run is live
  // exactly if some node is not terminal; so it is closed as soon as nothing is open and nothing runs.
  lemma RunClosedExactlyWhenSettled(cfg: Config, run: Run)
    requires cfg.startable <= {Waiting, Ready} && cfg.edges != [] && Reachable(cfg, run)
    ensures run.status == InProgress <==> !AllTerminal(run)
    ensures run.status != InProgress <==> Frozen(run) && RunningJobs(run) == {}
  {
    var order, nextExecution, faults, events :|
      Enumerates(order, Nodes(cfg.edges)) && run == After(cfg, Triggered(cfg, order, nextExecution, faults), events);
    TriggerIsSafe(cfg, order, nextExecution, faults);
    TriggerStaysOpen(cfg, order, nextExecution, faults);
    ClosedAlways(cfg, Triggered(cfg, order, nextExecution, faults), events);
    SettledParts(run);
  }

  lemma SettledParts(run: Run)
    ensures AllTerminal(run) <==> Frozen(run) && RunningJobs(run) == {}
  {
    if AllTerminal(run) {
      assert forall j :: !IsOpen(run, j) && j !in RunningJobs(run);
    }
    if Frozen(run) && RunningJobs(run) == {} {
      forall j | j in run.nodes ensures Terminal(run.nodes[j].status) {
        assert !IsOpen(run, j) && j !in RunningJobs(run);
      }
    }
  }

  // ---- a stopped run ----

  lemma SettleRunning(run: Run, job: JobId, status: NodeStatus)
    requires job in RunningJobs(run) && Terminal(status)
    ensures var r := Settle(run, job, status);
            && RunningJobs(r) == RunningJobs(run) - {job} && |RunningJobs(r)| == |RunningJobs(run)| - 1
            && (Frozen(run) ==> Frozen(r))
  {
    assert forall j :: IsOpen(Settle(run, job, status), j) ==> IsOpen(run, j);
  }

  lemma StopRunning(run: Run)
    ensures RunningJobs(StopRun(run)) == RunningJobs(run) && Frozen(StopRun(run))
  {
    StopIs(run);
    forall j ensures j in RunningJobs(StopRun(run)) <==> j in RunningJobs(run) {}
  }

  lemma FrozenCompletion(cfg: Config, run: Run, job: JobId, status: NodeStatus, faults: Faults)
    requires Shape(cfg, run) && job in RunningJobs(run) && Terminal(status)
    requires Frozen(run) || (IsFailure(status) && cfg.onFailure == "stop")
    ensures var r := CompleteNode(cfg, run, job, status, faults);
            Frozen(r) && RunningJobs(r) == RunningJobs(run) - {job} && |RunningJobs(r)| == |RunningJobs(run)| - 1
  {
    var settled := Settle(run, job, status);
    SettleRunning(run, job, status);
    if IsFailure(status) && cfg.onFailure == "stop" {
      StopRunning(settled);
    } else {
      FrozenStays(cfg, settled, faults);
      FinishIs(settled);
    }
  }

  lemma CallbackCompletes(cfg: Config, run: Run, event: Event, job: JobId)
    requires Shape(cfg, run) && ExecutionIds(run) && CallsBack(run, job, event) && event.reported.Some?
    ensures Apply(cfg, run, event) == CompleteNode(cfg, run, job, Outcome(event.reported.value), event.faults)
  {
    FindNodeIs(run, run.order, event.execution);
    assert HasExecution(run, job);
  }

  lemma FrozenStep(cfg: Config, run: Run, event: Event, job: JobId)
    requires Shape(cfg, run) && ExecutionIds(run) && CallsBack(run, job, event) && event.reported.Some?
    requires Frozen(run) || (event.reported.value != "success" && cfg.onFailure == "stop")
    ensures var r := Apply(cfg, run, event);
            Frozen(r) && |RunningJobs(r)| == |RunningJobs(run)| - 1
  {
    CallbackCompletes(cfg, run, event, job);
    FrozenCompletion(cfg, run, job, Outcome(event.reported.value), event.faults);
  }

  lemma {:induction false} FrozenCount(cfg: Config, run: Run, events: seq<Event>)
    requires Safe(cfg, run) && Frozen(run) && OneCallbackEach(cfg, run, events)
    ensures Frozen(After(cfg, run, events)) && |events| + |RunningJobs(After(cfg, run, events))| == |RunningJobs(run)|
  {
    if events != [] {
      var front, event := events[..|events| - 1], events[|events| - 1];
      FrozenCount(cfg, run, front);
      SafeAlways(cfg, run, front);
      var job :| CallsBack(After(cfg, run, front), job, event);
      FrozenStep(cfg, After(cfg, run, front), event, job);
    }
  }

  // Once nothing can start, each callback leaves one node less running, and the run closes with the last of them.
  lemma FrozenRunCloses(cfg: Config, run: Run, events: seq<Event>)
    requires Safe(cfg, run) && Frozen(run) && ClosedWhenSettled(run) && OneCallbackEach(cfg, run, events)
    ensures |events| <= |RunningJobs(run)|
    ensures After(cfg, run, events).status != InProgress <==> |events| == |RunningJobs(run)|
  {
    var r := After(cfg, run, events);
    ClosedAlways(cfg, run, events);
    FrozenCount(cfg, run, events);
    SettledParts(r);
    assert RunningJobs(r) == {} <==> |RunningJobs(r)| == 0;
  }

  // Stop policy: after a failed or cancelled callback the run closes exactly with the callback of the last
  // node that is still running.
  lemma StoppedRunCloses(cfg: Config, run: Run, event: Event, job: JobId, events: seq<Event>)
    requires cfg.startable <= {Waiting, Ready} && cfg.edges != [] && Reachable(cfg, run) && cfg.onFailure == "stop"
    requires CallsBack(run, job, event) && event.reported.Some? && event.reported.value != "success"
    requires OneCallbackEach(cfg, Apply(cfg, run, event), events)
    ensures |events| < |RunningJobs(run)|
    ensures After(cfg, Apply(cfg, run, event), events).status != InProgress <==> |events| + 1 == |RunningJobs(run)|
  {
    ReachableIsSafe(cfg, run);
    RunClosedExactlyWhenSettled(cfg, run);
    StepKeepsSafe(cfg, run, event);
    StepCloses(cfg, run, event);
    FrozenStep(cfg, run, event, job);
    FrozenRunCloses(cfg, Apply(cfg, run, event), events);
  }

  // ---- a cancelled run ----

  // A cancellation of a live run settles every node, the open and the running ones as cancelled; another is refused.
  lemma CancelSettlesAll(cfg: Config, run: Run)
    requires Safe(cfg, run)
    ensures run.status in {InProgress, Pending} ==>
              Safe(cfg, Cancel(run)) && AllTerminal(Cancel(run)) && Cancels(run, Cancel(run))
    ensures run.status !in {InProgress, Pending} ==> Cancel(run) == run
  {
    CancelIs(run);
    if Cancellable(run) { SettlingKeepsSafe(cfg, run, Cancel(run)); }
  }

  // The cancelled status is not final: it is overwritten exactly by the callback of a node that had started.
  lemma CancelledStatusOverwrittenExactlyWhen(cfg: Config, run: Run, event: Event, next: Run)
    requires Safe(cfg, run) && AllTerminal(run) && run.status == RunCancelled && next == Apply(cfg, run, event)
    ensures next.status != RunCancelled <==> Accepted(run, event)
    ensures next.started == run.started
  {
    if Accepted(run, event) {
      LateOverwrites(cfg, run, event);
    } else {
      if event.Completion? { OtherCallbackIsIgnored(cfg, run, event); }
    }
  }

  lemma LateOverwrites(cfg: Config, run: Run, event: Event)
    requires Safe(cfg, run) && AllTerminal(run) && Accepted(run, event)
    ensures Apply(cfg, run, event).status != RunCancelled && Apply(cfg, run, event).started == run.started
  {
    FindNodeIs(run, run.order, event.execution);
    var node := FindNode(run, run.order, event.execution).value;
    LateCompletion(cfg, run, node, Outcome(event.reported.value), event.faults);
  }

  lemma LateCompletion(cfg: Config, run: Run, job: JobId, status: NodeStatus, faults: Faults)
    requires Safe(cfg, run) && HasExecution(run, job) && AllTerminal(run) && Terminal(status)
    ensures CompleteNode(cfg, run, job, status, faults).status in {Succeeded, RunFailed, Partial}
    ensures CompleteNode(cfg, run, job, status, faults).started == run.started
  {
    var settled := Settle(run, job, status);
    SettleIs(run, job, status);
    SettlingKeepsSafe(cfg, run, settled);
    assert AllTerminal(settled) && Frozen(settled) && RunningJobs(settled) == {};
    FrozenStays(cfg, settled, faults);
  }
}
