/** What sequences of callbacks do to a DAG run: callbacks of started nodes with distinct executions are one callback
    for each of them, and each leaves its node as it reports. */
module EngineCallbacks {
  import opened Wrappers
  import opened Graphs
  import opened DagRuns
  import opened RunSafety
  import opened RunCounters

  // Every event is a readable callback of a node that has started by then.
  ghost predicate FromStartedNodes(cfg: Config, run: Run, events: seq<Event>) {
    events == [] ||
    (FromStartedNodes(cfg, run, events[..|events| - 1])
     && Accepted(After(cfg, run, events[..|events| - 1]), events[|events| - 1]))
  }

  // No two of them are for the same execution.
  ghost predicate DistinctExecutions(events: seq<Event>) {
    && (forall e :: e in events ==> e.Completion?)
    && forall i, k :: 0 <= i < k < |events| ==> events[i].execution != events[k].execution
  }

  // Whatever holds an execution is running, unless that execution has called back.
  ghost predicate RunsUntilCalledBack(run: Run, events: seq<Event>) {
    forall j :: HasExecution(run, j) ==> j in RunningJobs(run) || CalledBack(events, run.nodes[j].execution.value)
  }

  predicate CalledBack(events: seq<Event>, execution: nat) {
    exists i :: 0 <= i < |events| && events[i].Completion? && events[i].execution == execution
  }

  lemma AdvanceLeavesStarted(cfg: Config, run: Run, faults: Faults, j: JobId)
    requires Shape(cfg, run) && ExecutionIds(run) && j in run.nodes
    ensures var r := Advance(cfg, run, faults);
            if HasExecution(run, j) then r.nodes[j] == run.nodes[j] else HasExecution(r, j) ==> j in RunningJobs(r)
  {
    AdvanceEffect(cfg, run, faults);
    StartedRow(run, Chosen(cfg, run), faults, Advance(cfg, run, faults), j);
  }

  // A callback settles its own node; other nodes that hold an execution are as before or have just started.
  lemma CompletionLeavesOthers(cfg: Config, run: Run, job: JobId, status: NodeStatus, faults: Faults, j: JobId)
    requires Safe(cfg, run) && HasExecution(run, job) && Terminal(status) && j in run.nodes && j != job
    ensures var r := CompleteNode(cfg, run, job, status, faults);
            HasExecution(r, j) ==> j in RunningJobs(r) || (HasExecution(run, j) && r.nodes[j] == run.nodes[j])
  {
    var settled := Settle(run, job, status);
    assert settled.nodes[j] == run.nodes[j];
    if IsFailure(status) && cfg.onFailure == "stop" {
      StopLeavesStarted(settled, j);
    } else {
      SettleIs(run, job, status);
      SettlingKeepsIds(run, settled);
      AdvanceLeavesStarted(cfg, settled, faults, j);
      FinishIs(Advance(cfg, settled, faults));
    }
  }

  lemma StopLeavesStarted(run: Run, j: JobId)
    requires j in run.nodes
    ensures HasExecution(StopRun(run), j) ==> HasExecution(run, j)
    ensures !IsOpen(run, j) ==> StopRun(run).nodes[j] == run.nodes[j]
  {}

  lemma CompletionKeepsOthers(cfg: Config, run: Run, events: seq<Event>, event: Event, job: JobId, r: Run)
    requires Safe(cfg, run) && RunsUntilCalledBack(run, events) && event.Completion? && event.reported.Some?
    requires HasExecution(run, job) && run.nodes[job].execution == Some(event.execution)
    requires r == CompleteNode(cfg, run, job, Outcome(event.reported.value), event.faults)
    ensures RunsUntilCalledBack(r, events + [event])
  {
    CompleteLasts(cfg, run, job, Outcome(event.reported.value), event.faults);
    CompletionLeavesAll(cfg, run, job, Outcome(event.reported.value), event.faults);
    assert (events + [event])[|events|] == event;
    forall j | HasExecution(r, j) && j != job && j !in RunningJobs(r)
      ensures CalledBack(events + [event], r.nodes[j].execution.value)
    {
      StillCalledBack(events, event, r.nodes[j].execution.value);
    }
  }

  lemma CompletionLeavesAll(cfg: Config, run: Run, job: JobId, status: NodeStatus, faults: Faults)
    requires Safe(cfg, run) && HasExecution(run, job) && Terminal(status)
    ensures var r := CompleteNode(cfg, run, job, status, faults);
            forall j :: HasExecution(r, j) && j != job && j !in RunningJobs(r) ==>
              HasExecution(run, j) && r.nodes[j] == run.nodes[j]
  {
    var r := CompleteNode(cfg, run, job, status, faults);
    forall j | HasExecution(r, j) && j != job && j !in RunningJobs(r)
      ensures HasExecution(run, j) && r.nodes[j] == run.nodes[j]
    {
      CompletionKeepsKeys(cfg, run, job, status, faults);
      CompletionLeavesOthers(cfg, run, job, status, faults, j);
    }
  }

  lemma CompletionKeepsKeys(cfg: Config, run: Run, job: JobId, status: NodeStatus, faults: Faults)
    requires job in run.nodes
    ensures CompleteNode(cfg, run, job, status, faults).nodes.Keys == run.nodes.Keys
  {}

  lemma CallbackKeepsOthers(cfg: Config, run: Run, events: seq<Event>, event: Event)
    requires Safe(cfg, run) && RunsUntilCalledBack(run, events) && Accepted(run, event)
    ensures RunsUntilCalledBack(Apply(cfg, run, event), events + [event])
  {
    FindNodeIs(run, run.order, event.execution);
    var job := FindNode(run, run.order, event.execution).value;
    CompletionKeepsOthers(cfg, run, events, event, job, Apply(cfg, run, event));
  }

  lemma StillCalledBack(events: seq<Event>, event: Event, execution: nat)
    requires CalledBack(events, execution)
    ensures CalledBack(events + [event], execution)
  {
    var i :| 0 <= i < |events| && events[i].Completion? && events[i].execution == execution;
    assert (events + [event])[i] == events[i];
  }

  lemma FirstCallbackFindsRunning(run: Run, events: seq<Event>, event: Event) returns (job: JobId)
    requires RunsUntilCalledBack(run, events) && Accepted(run, event) && !CalledBack(events, event.execution)
    ensures CallsBack(run, job, event)
  {
    job :| HasExecution(run, job) && run.nodes[job].execution == Some(event.execution);
  }

  lemma LastCallback(events: seq<Event>)
    requires DistinctExecutions(events) && events != []
    ensures var front, event := events[..|events| - 1], events[|events| - 1];
            && DistinctExecutions(front) && event.Completion? && !CalledBack(front, event.execution)
            && events == front + [event]
  {
    var front, event := events[..|events| - 1], events[|events| - 1];
    assert forall i :: 0 <= i < |front| ==> events[i] == front[i];
    assert event in events && forall e :: e in front ==> e in events;
  }

  lemma CallbackStep(cfg: Config, run: Run, front: seq<Event>, event: Event) returns (job: JobId)
    requires Safe(cfg, run) && RunsUntilCalledBack(run, front)
    requires Accepted(run, event) && !CalledBack(front, event.execution)
    ensures CallsBack(run, job, event) && RunsUntilCalledBack(Apply(cfg, run, event), front + [event])
  {
    job := FirstCallbackFindsRunning(run, front, event);
    CallbackKeepsOthers(cfg, run, front, event);
  }

  // Distinct callbacks of started nodes are one callback for each.
  lemma {:induction false} DistinctAreOneEach(cfg: Config, run: Run, events: seq<Event>)
    requires Safe(cfg, run) && RunsUntilCalledBack(run, [])
    requires FromStartedNodes(cfg, run, events) && DistinctExecutions(events)
    ensures OneCallbackEach(cfg, run, events) && RunsUntilCalledBack(After(cfg, run, events), events)
  {
    if events != [] {
      var front, event := events[..|events| - 1], events[|events| - 1];
      LastCallback(events);
      DistinctAreOneEach(cfg, run, front);
      SafeAlways(cfg, run, front);
      var job := CallbackStep(cfg, After(cfg, run, front), front, event);
    }
  }

  lemma TriggeredRuns(cfg: Config, order: seq<JobId>, nextExecution: nat, faults: Faults)
    requires cfg.startable <= {Waiting, Ready} && Enumerates(order, Nodes(cfg.edges))
    ensures RunsUntilCalledBack(Triggered(cfg, order, nextExecution, faults), [])
  {
    var created := Created(cfg.edges, order, nextExecution);
    forall j | HasExecution(Advance(cfg, created, faults), j) ensures j in RunningJobs(Advance(cfg, created, faults)) {
      AdvanceLeavesStarted(cfg, created, faults, j);
    }
  }

  // ---- what a callback makes of its node ----

  // The node of an accepted callback ends up as the engine reads the reported status, whatever else the step starts,
  // skips or closes.
  lemma NodeBecomesReported(cfg: Config, run: Run, event: Event, job: JobId)
    requires Safe(cfg, run) && event.Completion? && event.reported.Some?
    requires HasExecution(run, job) && run.nodes[job].execution == Some(event.execution)
    ensures job in Apply(cfg, run, event).nodes
    ensures Apply(cfg, run, event).nodes[job].status == Outcome(event.reported.value)
  {
    FindNodeIs(run, run.order, event.execution);
    assert FindNode(run, run.order, event.execution) == Some(job);
    CompletionSettles(cfg, run, job, Outcome(event.reported.value), event.faults);
  }

  lemma CompletionSettles(cfg: Config, run: Run, job: JobId, status: NodeStatus, faults: Faults)
    requires Safe(cfg, run) && HasExecution(run, job) && Terminal(status)
    ensures var r := CompleteNode(cfg, run, job, status, faults); job in r.nodes && r.nodes[job].status == status
  {
    var settled := Settle(run, job, status);
    if IsFailure(status) && cfg.onFailure == "stop" {
      StopLeavesStarted(settled, job);
    } else {
      SettleIs(run, job, status);
      SettlingKeepsIds(run, settled);
      AdvanceLeavesStarted(cfg, settled, faults, job);
      FinishIs(Advance(cfg, settled, faults));
    }
  }
}
