/** How the nodes and the runs of a DAG end: what a terminal node becomes when its execution calls back again, what
    cancelled and stopped runs leave, and which final status a run gets. */
module RunEndings {
  import opened Wrappers
  import opened Graphs
  import opened DagRuns
  import opened RunSafety
  import opened RunCounters
  import opened EngineCallbacks

  // ---- terminal nodes follow their own callbacks ----

  // The engine's reading of an execution's status.
  function ReadAs(reported: string): NodeStatus {
    match reported
    case "success" => Success
    case "cancelled" => Cancelled
    case _ => Failed
  }

  predicate CallsBackFor(event: Event, execution: Option<nat>) {
    event.Completion? && event.reported.Some? && Some(event.execution) == execution
  }

  // What the events make of a node that is terminal: as the last readable callback of its execution says.
  function EndsAs(status: NodeStatus, execution: Option<nat>, events: seq<Event>): NodeStatus {
    if events == [] then status
    else if CallsBackFor(events[|events| - 1], execution) then ReadAs(events[|events| - 1].reported.value)
    else EndsAs(status, execution, events[..|events| - 1])
  }

  lemma StopLeavesSettled(run: Run, j: JobId)
    requires Settled(run, j)
    ensures j in StopRun(run).nodes && StopRun(run).nodes[j] == run.nodes[j]
  {}

  lemma AdvanceLeavesSettled(cfg: Config, run: Run, faults: Faults, j: JobId)
    requires Shape(cfg, run) && Settled(run, j)
    ensures Advance(cfg, run, faults).nodes[j] == run.nodes[j]
  {
    AdvanceEffect(cfg, run, faults);
    assert RowEffect(run, Chosen(cfg, run), faults, Advance(cfg, run, faults), j);
  }

  lemma CompletionLeavesSettled(cfg: Config, run: Run, job: JobId, status: NodeStatus, faults: Faults, j: JobId)
    requires Safe(cfg, run) && HasExecution(run, job) && Terminal(status) && Settled(run, j)
    ensures var r := CompleteNode(cfg, run, job, status, faults);
            j in r.nodes && r.nodes[j] == if j == job then run.nodes[j].(status := status) else run.nodes[j]
  {
    var settled := Settle(run, job, status);
    assert Shape(cfg, settled) && Settled(settled, j);
    if IsFailure(status) && cfg.onFailure == "stop" {
      StopLeavesSettled(settled, j);
    } else {
      AdvanceLeavesSettled(cfg, settled, faults, j);
      FinishIs(Advance(cfg, settled, faults));
    }
  }

  lemma CancelLeavesSettled(run: Run, j: JobId)
    requires Settled(run, j)
    ensures j in Cancel(run).nodes && Cancel(run).nodes[j] == run.nodes[j]
  {}

  lemma SettledStep(cfg: Config, run: Run, event: Event, j: JobId)
    requires Safe(cfg, run) && Settled(run, j)
    ensures var r, x := Apply(cfg, run, event), run.nodes[j].execution;
            j in r.nodes && r.nodes[j]
              == if CallsBackFor(event, x) then NodeRow(ReadAs(event.reported.value), x) else run.nodes[j]
  {
    if event.Cancellation? {
      CancelLeavesSettled(run, j);
    } else if Accepted(run, event) {
      SettledCallback(cfg, run, event, j);
    } else {
      OtherCallbackIsIgnored(cfg, run, event);
      assert HasExecution(run, j) && event.reported.Some? ==> run.nodes[j].execution != Some(event.execution);
    }
  }

  lemma SettledCallback(cfg: Config, run: Run, event: Event, j: JobId)
    requires Safe(cfg, run) && Settled(run, j) && Accepted(run, event)
    ensures var r, x := Apply(cfg, run, event), run.nodes[j].execution;
            j in r.nodes && r.nodes[j]
              == if CallsBackFor(event, x) then NodeRow(ReadAs(event.reported.value), x) else run.nodes[j]
  {
    FindNodeIs(run, run.order, event.execution);
    var job := FindNode(run, run.order, event.execution).value;
    CompletionLeavesSettled(cfg, run, job, Outcome(event.reported.value), event.faults, j);
  }

  lemma FollowsLast(cfg: Config, run: Run, j: JobId, status: NodeStatus, execution: Option<nat>, events: seq<Event>)
    requires Safe(cfg, run) && Settled(run, j) && events != []
    requires run.nodes[j] == NodeRow(EndsAs(status, execution, events[..|events| - 1]), execution)
    ensures var r := Apply(cfg, run, events[|events| - 1]);
            Settled(r, j) && r.nodes[j] == NodeRow(EndsAs(status, execution, events), execution)
  {
    SettledStep(cfg, run, events[|events| - 1], j);
  }

  // Over every sequence of events a terminal node changes exactly by the callbacks of its own execution, the last of
  // which wins.
  lemma {:induction false} SettledNodeFollowsCallbacks(cfg: Config, run: Run, events: seq<Event>, j: JobId)
    requires Safe(cfg, run) && Settled(run, j)
    ensures var r, x := After(cfg, run, events), run.nodes[j].execution;
            j in r.nodes && r.nodes[j] == NodeRow(EndsAs(run.nodes[j].status, x, events), x)
    ensures Settled(After(cfg, run, events), j)
  {
    if events != [] {
      var front, event := events[..|events| - 1], events[|events| - 1];
      SettledNodeFollowsCallbacks(cfg, run, front, j);
      SafeAlways(cfg, run, front);
      FollowsLast(cfg, After(cfg, run, front), j, run.nodes[j].status, run.nodes[j].execution, events);
    }
  }

  lemma {:induction false} NoCallbacksLeave(status: NodeStatus, execution: Option<nat>, events: seq<Event>)
    requires forall e :: e in events ==> !CallsBackFor(e, execution)
    ensures EndsAs(status, execution, events) == status
  {
    if events != [] { NoCallbacksLeave(status, execution, events[..|events| - 1]); }
  }

  // ---- cancelled and stopped runs ----

  // After a cancellation every node that was open or running is cancelled, under the execution it had, until that
  // execution calls back; so one that had not started is cancelled for good.
  lemma CancelledUntilCalledBack(cfg: Config, run: Run, events: seq<Event>, j: JobId)
    requires Safe(cfg, run) && run.status in {InProgress, Pending}
    requires j in run.nodes && run.nodes[j].status in {Waiting, Ready, Running}
    ensures var r, x := After(cfg, Cancel(run), events), run.nodes[j].execution;
            && j in r.nodes && r.nodes[j] == NodeRow(EndsAs(Cancelled, x, events), x)
            && ((forall e :: e in events ==> !CallsBackFor(e, x)) ==> r.nodes[j].status == Cancelled)
            && (run.nodes[j].status != Running ==> r.nodes[j] == NodeRow(Cancelled, None))
  {
    CancelSettlesAll(cfg, run);
    var x := run.nodes[j].execution;
    SettledNodeFollowsCallbacks(cfg, Cancel(run), events, j);
    if forall e :: e in events ==> !CallsBackFor(e, x) { NoCallbacksLeave(Cancelled, x, events); }
    if run.nodes[j].status != Running {
      assert IsOpen(run, j);
      NoCallbacksLeave(Cancelled, None, events);
    }
  }

  lemma StopSkips(cfg: Config, run: Run, event: Event, j: JobId)
    requires Shape(cfg, run) && ExecutionIds(run) && cfg.onFailure == "stop"
    requires Accepted(run, event) && event.reported.value != "success" && IsOpen(run, j)
    ensures var r := Apply(cfg, run, event); j in r.nodes && r.nodes[j] == NodeRow(Skipped, None)
  {
    FindNodeIs(run, run.order, event.execution);
    var job := FindNode(run, run.order, event.execution).value;
    StopIs(Settle(run, job, Outcome(event.reported.value)));
  }

  // Under the stop policy a failed or cancelled callback skips every node that has not started, for good.
  lemma StopSkipsForGood(cfg: Config, run: Run, event: Event, events: seq<Event>, j: JobId)
    requires Safe(cfg, run) && cfg.onFailure == "stop"
    requires Accepted(run, event) && event.reported.value != "success"
    requires j in run.nodes && run.nodes[j].status in {Waiting, Ready}
    ensures var r := After(cfg, Apply(cfg, run, event), events);
            j in r.nodes && r.nodes[j] == NodeRow(Skipped, None)
  {
    StepKeepsSafe(cfg, run, event);
    StopSkips(cfg, run, event, j);
    SettledNodeFollowsCallbacks(cfg, Apply(cfg, run, event), events, j);
    NoCallbacksLeave(Skipped, None, events);
  }

  // ---- final statuses ----

  // The callback leaves a node failed or cancelled, or skipped, or fails under the stop policy.
  ghost predicate SomeFailed(run: Run) { exists j :: j in run.nodes && run.nodes[j].status in {Failed, Cancelled} }

  ghost predicate SomeSkipped(run: Run) { exists j :: j in run.nodes && run.nodes[j].status == Skipped }

  ghost predicate EndsWith(run: Run, stopped: bool) {
    && (run.status == Succeeded <==> !SomeFailed(run))
    && (run.status == Partial <==> SomeFailed(run) && SomeSkipped(run) && !stopped)
    && (run.status == RunFailed <==> SomeFailed(run) && (stopped || !SomeSkipped(run)))
  }

  lemma FinishEnds(run: Run)
    requires AllTerminal(run)
    ensures EndsWith(FinishIfDone(run), false)
  {}

  lemma StopEnds(run: Run, job: JobId)
    requires AllTerminal(StopRun(run)) && job in run.nodes && run.nodes[job].status in {Failed, Cancelled}
    ensures EndsWith(StopRun(run), true)
  {
    StopIs(run);
    assert StopRun(run).nodes[job] == run.nodes[job];
    forall j | j in run.nodes ensures run.nodes[j].status != Running {
      assert StopRun(run).nodes[j] == run.nodes[j] || run.nodes[j].status in {Waiting, Ready};
    }
  }

  // Whatever came before, cancellations included, a callback after which every node is terminal closes the run:
  // succeeded exactly if no node failed or was cancelled; partial exactly if some did, some node was skipped and the
  // callback did not itself fail under the stop policy; failed in every other case.
  lemma FinalStatusExactlyWhen(cfg: Config, run: Run, event: Event)
    requires Safe(cfg, run) && Accepted(run, event) && AllTerminal(Apply(cfg, run, event))
    ensures EndsWith(Apply(cfg, run, event), cfg.onFailure == "stop" && event.reported.value != "success")
  {
    FindNodeIs(run, run.order, event.execution);
    var job := FindNode(run, run.order, event.execution).value;
    CompletionEnds(cfg, run, job, Outcome(event.reported.value), event.faults);
  }

  lemma CompletionEnds(cfg: Config, run: Run, job: JobId, status: NodeStatus, faults: Faults)
    requires job in run.nodes && AllTerminal(CompleteNode(cfg, run, job, status, faults))
    ensures EndsWith(CompleteNode(cfg, run, job, status, faults), cfg.onFailure == "stop" && IsFailure(status))
  {
    var settled := Settle(run, job, status);
    if IsFailure(status) && cfg.onFailure == "stop" {
      StopEnds(settled, job);
    } else {
      FinishEnds(Advance(cfg, settled, faults));
    }
  }

  // ---- skipped nodes ----

  // Nodes are skipped only under the stop policy, and once one is, nothing can start any more.
  ghost predicate SkipsFreeze(cfg: Config, run: Run) { SomeSkipped(run) ==> cfg.onFailure == "stop" && Frozen(run) }

  lemma AdvanceSkipsNone(cfg: Config, run: Run, faults: Faults)
    requires Shape(cfg, run) && SkipsFreeze(cfg, run)
    ensures SkipsFreeze(cfg, Advance(cfg, run, faults))
  {
    if SomeSkipped(run) {
      FrozenStays(cfg, run, faults);
    } else {
      AdvanceEffect(cfg, run, faults);
      var r := Advance(cfg, run, faults);
      forall j | j in r.nodes ensures r.nodes[j].status != Skipped {
        assert RowEffect(run, Chosen(cfg, run), faults, r, j);
      }
    }
  }

  lemma CompletionSkips(cfg: Config, run: Run, job: JobId, status: NodeStatus, faults: Faults)
    requires Shape(cfg, run) && HasExecution(run, job) && ExecutionIds(run) && SkipsFreeze(cfg, run)
    requires status in {Success, Failed, Cancelled}
    ensures SkipsFreeze(cfg, CompleteNode(cfg, run, job, status, faults))
  {
    var settled := Settle(run, job, status);
    if IsFailure(status) && cfg.onFailure == "stop" {
      StopIs(settled);
    } else {
      SettleIs(run, job, status);
      forall j | j in settled.nodes && settled.nodes[j].status == Skipped ensures run.nodes[j].status == Skipped {}
      AdvanceSkipsNone(cfg, settled, faults);
      FinishIs(Advance(cfg, settled, faults));
    }
  }

  lemma StepSkips(cfg: Config, run: Run, event: Event)
    requires Safe(cfg, run) && SkipsFreeze(cfg, run)
    ensures SkipsFreeze(cfg, Apply(cfg, run, event))
  {
    if event.Cancellation? {
      CancelIs(run);
      if Cancellable(run) && SomeSkipped(Cancel(run)) {
        var j :| j in run.nodes && Cancel(run).nodes[j].status == Skipped;
        assert run.nodes[j].status == Skipped;
      }
    } else if Accepted(run, event) {
      FindNodeIs(run, run.order, event.execution);
      var job := FindNode(run, run.order, event.execution).value;
      CompletionSkips(cfg, run, job, Outcome(event.reported.value), event.faults);
    } else {
      OtherCallbackIsIgnored(cfg, run, event);
    }
  }

  lemma {:induction false} SkipsFreezeAfter(cfg: Config, run: Run, events: seq<Event>)
    requires Safe(cfg, run) && SkipsFreeze(cfg, run)
    ensures SkipsFreeze(cfg, After(cfg, run, events))
  {
    if events != [] {
      SkipsFreezeAfter(cfg, run, events[..|events| - 1]);
      SafeAlways(cfg, run, events[..|events| - 1]);
      StepSkips(cfg, After(cfg, run, events[..|events| - 1]), events[|events| - 1]);
    }
  }

  lemma TriggerSkipsNone(cfg: Config, order: seq<JobId>, nextExecution: nat, faults: Faults)
    requires cfg.startable <= {Waiting, Ready} && Enumerates(order, Nodes(cfg.edges))
    ensures SkipsFreeze(cfg, Triggered(cfg, order, nextExecution, faults))
  {
    AdvanceSkipsNone(cfg, Created(cfg.edges, order, nextExecution), faults);
  }

  // In every reachable state: a node is skipped only under the stop policy, and then nothing can start. So without
  // that policy no run ends partial.
  lemma SkippingFreezesAlways(cfg: Config, run: Run)
    requires cfg.startable <= {Waiting, Ready} && Reachable(cfg, run)
    ensures (exists j :: j in run.nodes && run.nodes[j].status == Skipped) ==> cfg.onFailure == "stop" && Frozen(run)
  {
    var order, nextExecution, faults, events :|
      Enumerates(order, Nodes(cfg.edges)) && run == After(cfg, Triggered(cfg, order, nextExecution, faults), events);
    TriggerIsSafe(cfg, order, nextExecution, faults);
    TriggerSkipsNone(cfg, order, nextExecution, faults);
    SkipsFreezeAfter(cfg, Triggered(cfg, order, nextExecution, faults), events);
  }

  // So under the other policies a finished run with one callback per started node is failed exactly if some node
  // failed or was cancelled, and never partial.
  lemma FinishedWithoutStop(cfg: Config, run: Run)
    requires cfg.startable <= {Waiting, Ready} && cfg.onFailure != "stop" && ReachableByCallbacks(cfg, run)
    requires run.status != InProgress
    ensures run.status == if SomeFailed(run) then RunFailed else Succeeded
  {
    ByCallbacksIsTracked(cfg, run);
    ByCallbacksIsReachable(cfg, run);
    SkippingFreezesAlways(cfg, run);
    FinalisedUnskipped(run);
  }

  lemma ByCallbacksIsReachable(cfg: Config, run: Run)
    requires ReachableByCallbacks(cfg, run)
    ensures Reachable(cfg, run)
  {
    var order, nextExecution, faults, events :|
      && Enumerates(order, Nodes(cfg.edges))
      && OneCallbackEach(cfg, Triggered(cfg, order, nextExecution, faults), events)
      && run == After(cfg, Triggered(cfg, order, nextExecution, faults), events);
  }

  lemma FinalisedUnskipped(run: Run)
    requires Finalised(run) && !SomeSkipped(run)
    ensures run.status == if SomeFailed(run) then RunFailed else Succeeded
  {
    FinalisedEnds(run);
  }
}
