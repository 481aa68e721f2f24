/** Where DAG runs get to: exactly when the intended engine, in which ready roots start, can stall, and the run that
    goes nowhere when they do not start (the code as written). */
module RunProgress {
  import opened Wrappers
  import opened Graphs
  import opened DagRuns
  import opened RunSafety
  import opened RunCounters

  // ---- what a run can be left waiting for ----

  // The intended engine: ready roots start, and there is at least one slot.
  ghost predicate Intended(cfg: Config) {
    cfg.startable == {Waiting, Ready} && cfg.maxConcurrent >= 1 && cfg.edges != [] && Acyclic(cfg.edges)
  }

  ghost predicate AllAlways(cfg: Config) { forall e :: e in cfg.edges ==> e.condition == "always" }

  // Nothing runs although some node is not terminal.
  predicate Stalled(run: Run) { RunningJobs(run) == {} && !AllTerminal(run) }

  // v waits for a condition that its settled upstreams do not meet.
  ghost predicate HopelesslyWaiting(cfg: Config, run: Run, v: JobId) {
    && IsOpen(run, v)
    && (forall u :: HasEdge(cfg.edges, u, v) ==> Settled(run, u))
    && exists e :: e in cfg.edges && e.downstream == v && Settled(run, e.upstream)
         && !Satisfied(e.condition, run.nodes[e.upstream].status)
  }

  lemma FirstOpenNode(cfg: Config, run: Run) returns (v: JobId)
    requires Shape(cfg, run) && Acyclic(cfg.edges) && RunningJobs(run) == {} && !AllTerminal(run)
    ensures IsOpen(run, v) && forall u :: HasEdge(cfg.edges, u, v) ==> Settled(run, u)
  {
    var open := set j | j in run.nodes && IsOpen(run, j);
    forall j | j in run.nodes && !Terminal(run.nodes[j].status) ensures j in open {
      assert j !in RunningJobs(run);
    }
    if forall w {:trigger UpstreamIn(cfg.edges, open, w)} :: w in open ==> UpstreamIn(cfg.edges, open, w) {
      ClosedUnderUpstreamHasCycle(cfg.edges, open);
    }
    v :| v in open && !UpstreamIn(cfg.edges, open, v);
    forall u | HasEdge(cfg.edges, u, v) ensures Settled(run, u) {
      HasEdgeNodes(cfg.edges, u, v);
      assert u !in open;
    }
  }

  // After an advance without faults that leaves nothing running, open nodes remain exactly if one of them is
  // hopelessly waiting.
  lemma StallHasCause(cfg: Config, run: Run)
    requires Intended(cfg) && Safe(cfg, run)
    ensures var r := Advance(cfg, run, NO_FAULTS);
            && (RunningJobs(r) == {} ==> (!AllTerminal(r) <==> exists v :: HopelesslyWaiting(cfg, r, v)))
            && (Stalled(r) ==> r == run)
  {
    var r := Advance(cfg, run, NO_FAULTS);
    AdvanceEffect(cfg, run, NO_FAULTS);
    LaunchingRuns(run, Chosen(cfg, run), r);
    if Stalled(r) {
      assert r == run;
      var v := FirstOpenNode(cfg, run);
      assert !Eligible(cfg, run, v);
      UnmetCondition(cfg, run, v);
    }
  }

  lemma LaunchingRuns(run: Run, xs: seq<JobId>, r: Run)
    requires StartEffect(run, xs, NO_FAULTS, r) && forall j :: j in xs ==> j in run.nodes
    ensures xs != [] ==> RunningJobs(r) != {}
  {
    if xs != [] {
      assert xs[0] in xs;
      assert RowEffect(run, xs, NO_FAULTS, r, xs[0]);
      assert xs[0] in RunningJobs(r);
    }
  }

  lemma UnmetCondition(cfg: Config, run: Run, v: JobId)
    requires Intended(cfg) && IsOpen(run, v) && !Eligible(cfg, run, v)
    requires forall u :: HasEdge(cfg.edges, u, v) ==> Settled(run, u)
    ensures HopelesslyWaiting(cfg, run, v)
  {
    var e :| e in cfg.edges && e.downstream == v &&
             !(e.upstream in run.nodes && Satisfied(e.condition, run.nodes[e.upstream].status));
    assert HasEdge(cfg.edges, e.upstream, v);
  }

  // ---- stalls with faults ----

  // Nothing is running, every chosen node is blocked by a fault, and not everything open was chosen.
  ghost predicate LaunchStalls(cfg: Config, run: Run, faults: Faults) {
    && RunningJobs(run) == {} && (forall j :: j in Chosen(cfg, run) ==> Blocked(faults, j))
    && exists j :: IsOpen(run, j) && j !in Chosen(cfg, run)
  }

  // Whatever job lookups and execution creations fail, that is exactly when an advance leaves the run stalled.
  lemma AdvanceStallsExactlyWhen(cfg: Config, run: Run, faults: Faults)
    requires Shape(cfg, run)
    ensures Stalled(Advance(cfg, run, faults)) <==> LaunchStalls(cfg, run, faults)
  {
    AdvanceEffect(cfg, run, faults);
    AdvanceRunning(cfg, run, faults);
    StartedOpen(run, Chosen(cfg, run), faults, Advance(cfg, run, faults));
    SettledParts(Advance(cfg, run, faults));
  }

  lemma StartedOpen(run: Run, xs: seq<JobId>, faults: Faults, r: Run)
    requires StartEffect(run, xs, faults, r)
    ensures forall j :: IsOpen(r, j) <==> IsOpen(run, j) && j !in xs
  {
    forall j | j in run.nodes ensures IsOpen(r, j) <==> IsOpen(run, j) && j !in xs {
      assert RowEffect(run, xs, faults, r, j);
    }
  }

  // The callback settles this node.
  ghost predicate Answers(run: Run, job: JobId, event: Event) {
    event.Completion? && HasExecution(run, job) && run.nodes[job].execution == Some(event.execution)
  }

  // The accepted callback leaves the run stalled: it does not stop it, and the advance after it stalls.
  ghost predicate CallbackStalls(cfg: Config, run: Run, event: Event)
    requires event.Completion? && event.reported.Some?
  {
    var status := Outcome(event.reported.value);
    && !(IsFailure(status) && cfg.onFailure == "stop")
    && exists job :: Answers(run, job, event) && LaunchStalls(cfg, Settle(run, job, status), event.faults)
  }

  lemma CallbackStallsExactlyWhen(cfg: Config, run: Run, event: Event)
    requires Safe(cfg, run) && Accepted(run, event)
    ensures Stalled(Apply(cfg, run, event)) <==> CallbackStalls(cfg, run, event)
  {
    FindNodeIs(run, run.order, event.execution);
    var job := FindNode(run, run.order, event.execution).value;
    assert forall other :: Answers(run, other, event) <==> other == job;
    CompletionStalls(cfg, run, job, Outcome(event.reported.value), event.faults);
  }

  lemma CompletionStalls(cfg: Config, run: Run, job: JobId, status: NodeStatus, faults: Faults)
    requires Shape(cfg, run) && job in run.nodes
    ensures Stalled(CompleteNode(cfg, run, job, status, faults))
       <==> !(IsFailure(status) && cfg.onFailure == "stop") && LaunchStalls(cfg, Settle(run, job, status), faults)
  {
    var settled := Settle(run, job, status);
    if IsFailure(status) && cfg.onFailure == "stop" {
      StopLeavesNone(cfg, settled);
    } else {
      assert Shape(cfg, settled);
      AdvanceStallsExactlyWhen(cfg, settled, faults);
      FinishIs(Advance(cfg, settled, faults));
      assert RunningJobs(FinishIfDone(Advance(cfg, settled, faults))) == RunningJobs(Advance(cfg, settled, faults));
    }
  }

  // The trigger or the last callback that was accepted left the run stalled, and no cancellation came since.
  ghost predicate LeftStalled(cfg: Config, order: seq<JobId>, nextExecution: nat, faults: Faults, events: seq<Event>) {
    if events == [] then LaunchStalls(cfg, Created(cfg.edges, order, nextExecution), faults)
    else
      var front, event := events[..|events| - 1], events[|events| - 1];
      var before := After(cfg, Triggered(cfg, order, nextExecution, faults), front);
      if event.Cancellation? then false
      else if Accepted(before, event) then CallbackStalls(cfg, before, event)
      else LeftStalled(cfg, order, nextExecution, faults, front)
  }

  // Over every run, with any faults at any step, repeated callbacks and cancellations.
  lemma {:induction false} RunStallsExactlyWhen(cfg: Config, order: seq<JobId>, nextExecution: nat, faults: Faults,
                                                events: seq<Event>)
    requires cfg.startable <= {Waiting, Ready} && Enumerates(order, Nodes(cfg.edges)) && cfg.edges != []
    ensures Stalled(After(cfg, Triggered(cfg, order, nextExecution, faults), events))
       <==> LeftStalled(cfg, order, nextExecution, faults, events)
  {
    var first := Triggered(cfg, order, nextExecution, faults);
    if events == [] {
      CreatedIsTracked(cfg, order, nextExecution);
      AdvanceStallsExactlyWhen(cfg, Created(cfg.edges, order, nextExecution), faults);
    } else {
      var front, event := events[..|events| - 1], events[|events| - 1];
      RunStallsExactlyWhen(cfg, order, nextExecution, faults, front);
      TriggerIsSafe(cfg, order, nextExecution, faults);
      TriggerStaysOpen(cfg, order, nextExecution, faults);
      SafeAlways(cfg, first, front);
      ClosedAlways(cfg, first, front);
      OtherStepsStall(cfg, After(cfg, first, front), event);
    }
  }

  // A cancellation ends a stall, and an ignored callback changes nothing.
  lemma OtherStepsStall(cfg: Config, run: Run, event: Event)
    requires Safe(cfg, run) && ClosedWhenSettled(run)
    ensures event.Cancellation? ==> !Stalled(Apply(cfg, run, event))
    ensures Accepted(run, event) ==> (Stalled(Apply(cfg, run, event)) <==> CallbackStalls(cfg, run, event))
    ensures event.Completion? && !Accepted(run, event) ==> Apply(cfg, run, event) == run
  {
    if event.Cancellation? {
      CancelIs(run);
      SettledParts(CancelAll(run));
    } else if Accepted(run, event) {
      CallbackStallsExactlyWhen(cfg, run, event);
    } else {
      OtherCallbackIsIgnored(cfg, run, event);
    }
  }

  // No graph is safe from faults: if every node that the trigger chooses is blocked, the run is stalled at once.
  lemma BlockedTriggerStalls(cfg: Config, order: seq<JobId>, nextExecution: nat, faults: Faults)
    requires cfg.startable <= {Waiting, Ready} && Enumerates(order, Nodes(cfg.edges)) && cfg.edges != []
    requires forall j :: j in Chosen(cfg, Created(cfg.edges, order, nextExecution)) ==> Blocked(faults, j)
    ensures Stalled(Triggered(cfg, order, nextExecution, faults))
  {
    var created := Created(cfg.edges, order, nextExecution);
    CreatedIsTracked(cfg, order, nextExecution);
    DownstreamWaits(cfg, order, nextExecution, cfg.edges[0]);
    AdvanceStallsExactlyWhen(cfg, created, faults);
  }

  lemma DownstreamWaits(cfg: Config, order: seq<JobId>, nextExecution: nat, e: DagEdge)
    requires cfg.startable <= {Waiting, Ready} && Enumerates(order, Nodes(cfg.edges)) && e in cfg.edges
    ensures var created := Created(cfg.edges, order, nextExecution);
            && RunningJobs(created) == {} && IsOpen(created, e.downstream)
            && e.downstream !in Chosen(cfg, created)
  {
    var created := Created(cfg.edges, order, nextExecution);
    assert e.upstream in created.nodes && e.downstream in created.nodes;
    SelectedAre(cfg, created, order, Slots(cfg, created));
    assert !IsNodeReady(cfg.edges, created.nodes, e.downstream);
  }

  // ---- hopeless for good ----

  lemma SettleKeepsHopeless(cfg: Config, run: Run, job: JobId, status: NodeStatus, v: JobId)
    requires HopelesslyWaiting(cfg, run, v) && job in RunningJobs(run) && Terminal(status)
    ensures HopelesslyWaiting(cfg, Settle(run, job, status), v)
  {
    var settled := Settle(run, job, status);
    var e :| e in cfg.edges && e.downstream == v && Settled(run, e.upstream)
             && !Satisfied(e.condition, run.nodes[e.upstream].status);
    assert forall u :: Settled(run, u) ==> Settled(settled, u) && settled.nodes[u] == run.nodes[u];
    assert Settled(settled, e.upstream);
  }

  // The callback of a running node changes no settled node, and never starts a hopelessly waiting one.
  lemma CallbackKeepsHopeless(cfg: Config, run: Run, event: Event, job: JobId, v: JobId)
    requires Safe(cfg, run) && cfg.onFailure != "stop" && HopelesslyWaiting(cfg, run, v)
    requires CallsBack(run, job, event) && event.reported.Some?
    ensures HopelesslyWaiting(cfg, Apply(cfg, run, event), v)
  {
    var status := Outcome(event.reported.value);
    CallbackCompletes(cfg, run, event, job);
    SettleKeepsHopeless(cfg, run, job, status, v);
    AdvanceKeepsHopeless(cfg, Settle(run, job, status), event.faults, v);
    FinishKeepsHopeless(cfg, Advance(cfg, Settle(run, job, status), event.faults), v);
  }

  lemma FinishKeepsHopeless(cfg: Config, run: Run, v: JobId)
    requires HopelesslyWaiting(cfg, run, v)
    ensures FinishIfDone(run) == run
  {
    assert !Terminal(run.nodes[v].status);
  }

  lemma AdvanceKeepsHopeless(cfg: Config, run: Run, faults: Faults, v: JobId)
    requires Shape(cfg, run) && HopelesslyWaiting(cfg, run, v)
    ensures HopelesslyWaiting(cfg, Advance(cfg, run, faults), v)
  {
    var r := Advance(cfg, run, faults);
    var e :| e in cfg.edges && e.downstream == v && Settled(run, e.upstream)
             && !Satisfied(e.condition, run.nodes[e.upstream].status);
    AdvanceLeavesWaiting(cfg, run, faults, e);
    AdvanceEffect(cfg, run, faults);
    forall u | Settled(run, u) ensures Settled(r, u) && r.nodes[u] == run.nodes[u] {
      assert RowEffect(run, Chosen(cfg, run), faults, r, u);
    }
  }

  // With one callback per started node a hopelessly waiting node stays so, whatever fails, and the run is never
  // closed. (Not so if a node calls back again: SecondCallbackRevives.)
  lemma {:induction false} HopelessForever(cfg: Config, run: Run, events: seq<Event>, v: JobId)
    requires Safe(cfg, run) && ClosedWhenSettled(run) && cfg.onFailure != "stop" && HopelesslyWaiting(cfg, run, v)
    requires OneCallbackEach(cfg, run, events)
    ensures HopelesslyWaiting(cfg, After(cfg, run, events), v) && After(cfg, run, events).status == InProgress
  {
    ClosedAlways(cfg, run, events);
    if events != [] {
      var front, event := events[..|events| - 1], events[|events| - 1];
      HopelessForever(cfg, run, front, v);
      SafeAlways(cfg, run, front);
      var job :| CallsBack(After(cfg, run, front), job, event);
      CallbackKeepsHopeless(cfg, After(cfg, run, front), event, job, v);
    }
  }

  // ---- when nothing stalls ----

  // Whatever an upstream node comes to, the condition is met by the time the node is terminal, unless its failure
  // stops the run.
  predicate MetByEveryOutcome(cfg: Config, condition: string) {
    condition == "always" || (cfg.onFailure == "stop" && condition != "failure" && condition != "skipped")
  }

  ghost predicate EveryOutcomeMeets(cfg: Config) {
    forall e :: e in cfg.edges ==> MetByEveryOutcome(cfg, e.condition)
  }

  // Under the stop policy a run in which something can still start has seen no failure.
  ghost predicate Unfailed(cfg: Config, run: Run) {
    cfg.onFailure == "stop" && !Frozen(run) ==> forall j :: Settled(run, j) ==> run.nodes[j].status == Success
  }

  lemma NoneHopeless(cfg: Config, run: Run, v: JobId)
    requires EveryOutcomeMeets(cfg) && Unfailed(cfg, run)
    ensures !HopelesslyWaiting(cfg, run, v)
  {
    forall e | e in cfg.edges && e.downstream == v && Settled(run, e.upstream) && IsOpen(run, v)
      ensures Satisfied(e.condition, run.nodes[e.upstream].status)
    {
      assert MetByEveryOutcome(cfg, e.condition);
    }
  }

  // Where no node can be hopelessly waiting, a stall means that something chosen was blocked.
  lemma StallNeedsFaults(cfg: Config, run: Run, faults: Faults)
    requires Intended(cfg) && EveryOutcomeMeets(cfg) && Safe(cfg, run) && Unfailed(cfg, run)
    requires LaunchStalls(cfg, run, faults)
    ensures exists j :: j in Chosen(cfg, run) && Blocked(faults, j)
  {
    if Chosen(cfg, run) == [] {
      AdvanceStallsExactlyWhen(cfg, run, NO_FAULTS);
      StallHasCause(cfg, run);
      forall v ensures !HopelesslyWaiting(cfg, run, v) { NoneHopeless(cfg, run, v); }
    } else {
      assert Chosen(cfg, run)[0] in Chosen(cfg, run);
    }
  }

  lemma LaunchingSettlesNone(run: Run, xs: seq<JobId>, r: Run)
    requires StartEffect(run, xs, NO_FAULTS, r) && forall j :: j in xs ==> IsOpen(run, j)
    ensures SettledJobs(r) == SettledJobs(run)
  {
    forall j | j in run.nodes ensures j in SettledJobs(r) <==> j in SettledJobs(run) {
      assert RowEffect(run, xs, NO_FAULTS, r, j);
    }
  }

  lemma AdvanceKeepsUnfailed(cfg: Config, run: Run)
    requires Shape(cfg, run) && Unfailed(cfg, run)
    ensures var r := Advance(cfg, run, NO_FAULTS);
            SettledJobs(r) == SettledJobs(run) && Unfailed(cfg, r)
  {
    var r, xs := Advance(cfg, run, NO_FAULTS), Chosen(cfg, run);
    AdvanceEffect(cfg, run, NO_FAULTS);
    LaunchingSettlesNone(run, xs, r);
    if Frozen(run) {
      FrozenStays(cfg, run, NO_FAULTS);
    } else {
      forall j | Settled(r, j) ensures Settled(run, j) && r.nodes[j] == run.nodes[j] {
        assert j in SettledJobs(r);
        assert RowEffect(run, xs, NO_FAULTS, r, j);
      }
    }
  }

  // After k callbacks the run is closed, or something is running or hopelessly waiting; without the stop policy
  // each callback has settled exactly one node.
  ghost predicate Accounted(cfg: Config, run: Run, k: nat) {
    Safe(cfg, run) && ClosedWhenSettled(run) && Progressed(cfg, run, k)
  }

  ghost predicate Progressed(cfg: Config, run: Run, k: nat) {
    && Unfailed(cfg, run)
    && (cfg.onFailure != "stop" ==> |SettledJobs(run)| == k)
    && (Stalled(run) ==> exists v :: HopelesslyWaiting(cfg, run, v))
  }

  lemma TriggerIsAccounted(cfg: Config, order: seq<JobId>, nextExecution: nat)
    requires Intended(cfg) && Enumerates(order, Nodes(cfg.edges))
    ensures Accounted(cfg, Triggered(cfg, order, nextExecution, NO_FAULTS), 0)
  {
    var created := Created(cfg.edges, order, nextExecution);
    CreatedIsTracked(cfg, order, nextExecution);
    assert forall j :: !Settled(created, j) by {
      forall j ensures !Settled(created, j) { assert j !in SettledJobs(created); }
    }
    TriggerIsSafe(cfg, order, nextExecution, NO_FAULTS);
    TriggerStaysOpen(cfg, order, nextExecution, NO_FAULTS);
    AdvanceKeepsUnfailed(cfg, created);
    StallHasCause(cfg, created);
  }

  lemma SettleKeepsUnfailed(cfg: Config, run: Run, job: JobId, status: NodeStatus)
    requires Unfailed(cfg, run) && job in run.nodes && !IsOpen(run, job) && Terminal(status)
    requires cfg.onFailure == "stop" ==> status == Success
    ensures Unfailed(cfg, Settle(run, job, status))
  {
    var r := Settle(run, job, status);
    assert forall j :: IsOpen(r, j) <==> IsOpen(run, j);
    assert forall i :: Settled(r, i) && i != job ==> Settled(run, i) && r.nodes[i] == run.nodes[i];
  }

  lemma CallbackStaysAccounted(cfg: Config, run: Run, event: Event, job: JobId, k: nat)
    requires Intended(cfg) && Accounted(cfg, run, k)
    requires CallsBack(run, job, event) && event.reported.Some? && event.faults == NO_FAULTS
    ensures Accounted(cfg, Apply(cfg, run, event), k + 1)
  {
    StepKeepsSafe(cfg, run, event);
    StepCloses(cfg, run, event);
    CallbackCompletes(cfg, run, event, job);
    CompletionProgresses(cfg, run, job, Outcome(event.reported.value), k);
  }

  lemma CompletionProgresses(cfg: Config, run: Run, job: JobId, status: NodeStatus, k: nat)
    requires Intended(cfg) && Accounted(cfg, run, k) && job in RunningJobs(run)
    requires status in {Success, Failed, Cancelled}
    ensures Progressed(cfg, CompleteNode(cfg, run, job, status, NO_FAULTS), k + 1)
  {
    if IsFailure(status) && cfg.onFailure == "stop" {
      StopLeavesNone(cfg, Settle(run, job, status));
    } else {
      CompletionStaysAccounted(cfg, run, job, status, k);
    }
  }

  lemma StopLeavesNone(cfg: Config, run: Run)
    ensures Unfailed(cfg, StopRun(run)) && !Stalled(StopRun(run))
  {
    StopRunning(run);
    SettledParts(StopRun(run));
  }

  lemma CompletionStaysAccounted(cfg: Config, run: Run, job: JobId, status: NodeStatus, k: nat)
    requires Intended(cfg) && Accounted(cfg, run, k) && job in RunningJobs(run) && Terminal(status)
    requires cfg.onFailure == "stop" ==> status == Success
    ensures Progressed(cfg, FinishIfDone(Advance(cfg, Settle(run, job, status), NO_FAULTS)), k + 1)
  {
    assert HasExecution(run, job);
    SettleAddsOne(run, job, status);
    SettleIs(run, job, status);
    SettlingKeepsSafe(cfg, run, Settle(run, job, status));
    SettleKeepsUnfailed(cfg, run, job, status);
    FinishStaysAccounted(cfg, Settle(run, job, status));
  }

  lemma FinishStaysAccounted(cfg: Config, settled: Run)
    requires Intended(cfg) && Safe(cfg, settled) && Unfailed(cfg, settled)
    ensures var r := FinishIfDone(Advance(cfg, settled, NO_FAULTS));
            && SettledJobs(r) == SettledJobs(settled) && Unfailed(cfg, r)
            && (Stalled(r) ==> exists v :: HopelesslyWaiting(cfg, r, v))
  {
    var advanced := Advance(cfg, settled, NO_FAULTS);
    AdvanceKeepsUnfailed(cfg, settled);
    StallHasCause(cfg, settled);
    FinishIs(advanced);
    assert SettledJobs(FinishIfDone(advanced)) == SettledJobs(advanced);
    assert AllTerminal(advanced) ==> !Stalled(FinishIfDone(advanced));
  }

  lemma {:induction false} AccountedAlways(cfg: Config, order: seq<JobId>, nextExecution: nat, events: seq<Event>)
    requires Intended(cfg) && Enumerates(order, Nodes(cfg.edges))
    requires OneCallbackEach(cfg, Triggered(cfg, order, nextExecution, NO_FAULTS), events) && FaultFree(events)
    ensures Accounted(cfg, After(cfg, Triggered(cfg, order, nextExecution, NO_FAULTS), events), |events|)
  {
    if events == [] {
      TriggerIsAccounted(cfg, order, nextExecution);
    } else {
      var front, event := events[..|events| - 1], events[|events| - 1];
      AccountedAlways(cfg, order, nextExecution, front);
      var before := After(cfg, Triggered(cfg, order, nextExecution, NO_FAULTS), front);
      var job :| CallsBack(before, job, event);
      assert event in events;
      CallbackStaysAccounted(cfg, before, event, job, |front|);
    }
  }

  ghost predicate FaultFree(events: seq<Event>) { forall e :: e in events ==> e.Completion? && e.faults == NO_FAULTS }

  // The state of a triggered run after k callbacks, each of a node that was running, and no faults.
  ghost predicate AfterCallbacks(cfg: Config, run: Run, k: nat) {
    exists order, nextExecution, events ::
      && Enumerates(order, Nodes(cfg.edges)) && |events| == k && FaultFree(events)
      && OneCallbackEach(cfg, Triggered(cfg, order, nextExecution, NO_FAULTS), events)
      && run == After(cfg, Triggered(cfg, order, nextExecution, NO_FAULTS), events)
  }

  lemma CallbacksAccounted(cfg: Config, run: Run, k: nat)
    requires Intended(cfg) && AfterCallbacks(cfg, run, k)
    ensures Accounted(cfg, run, k)
  {
    var order, nextExecution, events :|
      && Enumerates(order, Nodes(cfg.edges)) && |events| == k && FaultFree(events)
      && OneCallbackEach(cfg, Triggered(cfg, order, nextExecution, NO_FAULTS), events)
      && run == After(cfg, Triggered(cfg, order, nextExecution, NO_FAULTS), events);
    AccountedAlways(cfg, order, nextExecution, events);
  }

  // In every such state, with any conditions and any policy, a run in which nothing runs is closed, or some node
  // is hopelessly waiting.
  lemma StalledExactlyWhenHopeless(cfg: Config, run: Run, k: nat)
    requires Intended(cfg) && AfterCallbacks(cfg, run, k) && RunningJobs(run) == {}
    ensures run.status == InProgress <==> exists v :: HopelesslyWaiting(cfg, run, v)
  {
    CallbacksAccounted(cfg, run, k);
  }

  // With `always` edges and a policy other than stop every callback settles exactly one node, something runs until all
  // have called back, and a run of N nodes is closed by the N-th callback and not before.
  lemma NeverStalls(cfg: Config, run: Run, k: nat)
    requires Intended(cfg) && AllAlways(cfg) && cfg.onFailure != "stop" && AfterCallbacks(cfg, run, k)
    ensures k <= |Nodes(cfg.edges)| && |SettledJobs(run)| == k
    ensures k < |Nodes(cfg.edges)| ==> run.status == InProgress && RunningJobs(run) != {}
    ensures k == |Nodes(cfg.edges)| ==> AllTerminal(run) && run.status in {Succeeded, RunFailed, Partial}
  {
    CallbacksAccounted(cfg, run, k);
    SettledCount(cfg, run);
    EnumerationSize(run.order, Nodes(cfg.edges));
    forall v ensures !HopelesslyWaiting(cfg, run, v) {
      NoneHopeless(cfg, run, v);
    }
    CallbacksTracked(cfg, run, k);
  }

  lemma CallbacksTracked(cfg: Config, run: Run, k: nat)
    requires Intended(cfg) && AfterCallbacks(cfg, run, k)
    ensures Tracked(cfg, run)
  {
    var order, nextExecution, events :|
      && Enumerates(order, Nodes(cfg.edges)) && |events| == k && FaultFree(events)
      && OneCallbackEach(cfg, Triggered(cfg, order, nextExecution, NO_FAULTS), events)
      && run == After(cfg, Triggered(cfg, order, nextExecution, NO_FAULTS), events);
    TrackedAlways(cfg, order, nextExecution, NO_FAULTS, events);
  }

  lemma SettledCount(cfg: Config, run: Run)
    requires Shape(cfg, run)
    ensures |SettledJobs(run)| <= |run.order|
    ensures |SettledJobs(run)| == |run.order| <==> AllTerminal(run)
  {
    EnumerationSize(run.order, run.nodes.Keys);
    SubsetSize(SettledJobs(run), run.nodes.Keys);
    if AllTerminal(run) {
      assert SettledJobs(run) == run.nodes.Keys;
    } else {
      var j :| j in run.nodes && !Terminal(run.nodes[j].status);
      SubsetSize(SettledJobs(run), run.nodes.Keys - {j});
    }
  }

  // ---- and when something does ----

  // The outcome that leaves the condition unmet, if one does.
  function Unhelpful(condition: string): string {
    if condition == "failure" || condition == "skipped" then "success" else "failed"
  }

  // The downstream end of e is open, and what its upstream end is at does not meet the condition.
  ghost predicate Unmet(run: Run, e: DagEdge) {
    IsOpen(run, e.downstream) && e.upstream in run.nodes && !Satisfied(e.condition, run.nodes[e.upstream].status)
  }

  lemma AdvanceKeepsUnmet(cfg: Config, run: Run, e: DagEdge)
    requires Shape(cfg, run) && e in cfg.edges && e.condition != "always" && Unmet(run, e)
    ensures var r := Advance(cfg, run, NO_FAULTS);
            Unmet(r, e) && SettledJobs(r) == SettledJobs(run) && r.status == run.status
  {
    var r := Advance(cfg, run, NO_FAULTS);
    AdvanceLeavesWaiting(cfg, run, NO_FAULTS, e);
    AdvanceEffect(cfg, run, NO_FAULTS);
    LaunchingSettlesNone(run, Chosen(cfg, run), r);
    assert RowEffect(run, Chosen(cfg, run), NO_FAULTS, r, e.upstream);
  }

  lemma CallbackKeepsUnmet(cfg: Config, run: Run, event: Event, job: JobId, e: DagEdge)
    requires Safe(cfg, run) && e in cfg.edges && !MetByEveryOutcome(cfg, e.condition) && Unmet(run, e)
    requires CallsBack(run, job, event) && event == Completion(event.execution, Some(Unhelpful(e.condition)), NO_FAULTS)
    ensures Unmet(Apply(cfg, run, event), e) && |SettledJobs(Apply(cfg, run, event))| == |SettledJobs(run)| + 1
  {
    var status := Outcome(Unhelpful(e.condition));
    var settled := Settle(run, job, status);
    CallbackCompletes(cfg, run, event, job);
    assert HasExecution(run, job);
    SettleAddsOne(run, job, status);
    assert Shape(cfg, settled) && Unmet(settled, e);
    AdvanceKeepsUnmet(cfg, settled, e);
    assert !AllTerminal(Advance(cfg, settled, NO_FAULTS));
  }

  lemma OneMoreCallback(cfg: Config, run: Run, k: nat, event: Event, job: JobId)
    requires AfterCallbacks(cfg, run, k) && CallsBack(run, job, event)
    requires event.reported.Some? && event.faults == NO_FAULTS
    ensures AfterCallbacks(cfg, Apply(cfg, run, event), k + 1)
  {
    var order, nextExecution, events :|
      && Enumerates(order, Nodes(cfg.edges)) && |events| == k && FaultFree(events)
      && OneCallbackEach(cfg, Triggered(cfg, order, nextExecution, NO_FAULTS), events)
      && run == After(cfg, Triggered(cfg, order, nextExecution, NO_FAULTS), events);
    var more := events + [event];
    assert more[..|more| - 1] == events;
    assert OneCallbackEach(cfg, Triggered(cfg, order, nextExecution, NO_FAULTS), more) && FaultFree(more);
  }

  // Letting every running node call back with that outcome ends in a stall.
  lemma {:induction false} StallsAt(cfg: Config, run: Run, k: nat, e: DagEdge) returns (last: Run, n: nat)
    requires Intended(cfg) && AfterCallbacks(cfg, run, k)
    requires e in cfg.edges && !MetByEveryOutcome(cfg, e.condition) && Unmet(run, e)
    ensures AfterCallbacks(cfg, last, n) && RunningJobs(last) == {} && IsOpen(last, e.downstream)
    decreases |Nodes(cfg.edges)| - |SettledJobs(run)|
  {
    CallbacksAccounted(cfg, run, k);
    if RunningJobs(run) == {} {
      last, n := run, k;
    } else {
      var job :| job in RunningJobs(run);
      assert HasExecution(run, job);
      var event := Completion(run.nodes[job].execution.value, Some(Unhelpful(e.condition)), NO_FAULTS);
      assert CallsBack(run, job, event);
      CallbackKeepsUnmet(cfg, run, event, job, e);
      OneMoreCallback(cfg, run, k, event, job);
      SettledWithin(cfg, Apply(cfg, run, event), k + 1);
      last, n := StallsAt(cfg, Apply(cfg, run, event), k + 1, e);
    }
  }

  lemma SettledWithin(cfg: Config, run: Run, k: nat)
    requires Intended(cfg) && AfterCallbacks(cfg, run, k)
    ensures |SettledJobs(run)| <= |Nodes(cfg.edges)|
  {
    CallbacksAccounted(cfg, run, k);
    SubsetSize(SettledJobs(run), Nodes(cfg.edges));
  }

  // An edge whose condition some outcome of its upstream leaves unmet stalls some run.
  lemma StallExists(cfg: Config, e: DagEdge) returns (run: Run, k: nat)
    requires Intended(cfg) && e in cfg.edges && !MetByEveryOutcome(cfg, e.condition)
    ensures AfterCallbacks(cfg, run, k) && Stalled(run) && IsOpen(run, e.downstream) && run.status == InProgress
  {
    var order := Listing(Nodes(cfg.edges));
    TriggerIsUnmet(cfg, order, e);
    TriggeredAfterNone(cfg, order);
    run, k := StallsAt(cfg, Triggered(cfg, order, 0, NO_FAULTS), 0, e);
    CallbacksAccounted(cfg, run, k);
  }

  lemma TriggerIsUnmet(cfg: Config, order: seq<JobId>, e: DagEdge)
    requires cfg.startable <= {Waiting, Ready} && Enumerates(order, Nodes(cfg.edges))
    requires e in cfg.edges && e.condition != "always"
    ensures Unmet(Triggered(cfg, order, 0, NO_FAULTS), e)
  {
    CreatedIsUnmet(cfg, order, e);
    CreatedIsTracked(cfg, order, 0);
    AdvanceKeepsUnmet(cfg, Created(cfg.edges, order, 0), e);
  }

  lemma CreatedIsUnmet(cfg: Config, order: seq<JobId>, e: DagEdge)
    requires Enumerates(order, Nodes(cfg.edges)) && e in cfg.edges && e.condition != "always"
    ensures Unmet(Created(cfg.edges, order, 0), e)
  {
    assert e.upstream in Nodes(cfg.edges) && e.downstream in Nodes(cfg.edges);
  }

  lemma TriggeredAfterNone(cfg: Config, order: seq<JobId>)
    requires Enumerates(order, Nodes(cfg.edges))
    ensures AfterCallbacks(cfg, Triggered(cfg, order, 0, NO_FAULTS), 0)
  {
    var first := Triggered(cfg, order, 0, NO_FAULTS);
    var none: seq<Event> := [];
    assert |none| == 0 && FaultFree(none) && OneCallbackEach(cfg, first, none) && first == After(cfg, first, none);
  }

  lemma {:induction false} Listing(all: set<JobId>) returns (order: seq<JobId>)
    ensures Enumerates(order, all)
    decreases |all|
  {
    if all == {} {
      order := [];
    } else {
      var x :| x in all;
      var rest := Listing(all - {x});
      order := [x] + rest;
    }
  }

  // ---- fault-free runs with any events ----

  // A state that a fault-free run gets to, with any callbacks, repeated or not, and any cancellations.
  ghost predicate ReachableFaultFree(cfg: Config, run: Run) {
    exists order, nextExecution, events ::
      && Enumerates(order, Nodes(cfg.edges)) && NoFaults(events)
      && run == After(cfg, Triggered(cfg, order, nextExecution, NO_FAULTS), events)
  }

  ghost predicate NoFaults(events: seq<Event>) { forall e :: e in events ==> e.Completion? ==> e.faults == NO_FAULTS }

  // Nothing can be left waiting: what holds in every state of such a run if every outcome meets every condition.
  ghost predicate KeepsGoing(cfg: Config, run: Run) {
    Safe(cfg, run) && ClosedWhenSettled(run) && Unfailed(cfg, run) && !Stalled(run)
  }

  lemma CompletionKeepsGoing(cfg: Config, run: Run, job: JobId, status: NodeStatus)
    requires Intended(cfg) && EveryOutcomeMeets(cfg) && KeepsGoing(cfg, run)
    requires HasExecution(run, job) && status in {Success, Failed, Cancelled}
    ensures var r := CompleteNode(cfg, run, job, status, NO_FAULTS); Unfailed(cfg, r) && !Stalled(r)
  {
    var settled := Settle(run, job, status);
    if IsFailure(status) && cfg.onFailure == "stop" {
      StopLeavesNone(cfg, settled);
    } else {
      SettleIs(run, job, status);
      SettlingKeepsSafe(cfg, run, settled);
      SettleKeepsUnfailed(cfg, run, job, status);
      FinishStaysAccounted(cfg, settled);
      var r := FinishIfDone(Advance(cfg, settled, NO_FAULTS));
      forall v ensures !HopelesslyWaiting(cfg, r, v) { NoneHopeless(cfg, r, v); }
    }
  }

  lemma AcceptedKeepsGoing(cfg: Config, run: Run, event: Event)
    requires Intended(cfg) && EveryOutcomeMeets(cfg) && KeepsGoing(cfg, run)
    requires Accepted(run, event) && event.faults == NO_FAULTS
    ensures var r := Apply(cfg, run, event); Unfailed(cfg, r) && !Stalled(r)
  {
    FindNodeIs(run, run.order, event.execution);
    var job := FindNode(run, run.order, event.execution).value;
    CompletionKeepsGoing(cfg, run, job, Outcome(event.reported.value));
  }

  lemma CancelKeepsGoing(cfg: Config, run: Run)
    requires Safe(cfg, run) && Unfailed(cfg, run) && !Stalled(run)
    ensures var r := Apply(cfg, run, Cancellation); Unfailed(cfg, r) && !Stalled(r)
  {
    CancelIs(run);
    SettledParts(CancelAll(run));
  }

  lemma StepKeepsGoing(cfg: Config, run: Run, event: Event)
    requires Intended(cfg) && EveryOutcomeMeets(cfg) && KeepsGoing(cfg, run)
    requires event.Completion? ==> event.faults == NO_FAULTS
    ensures KeepsGoing(cfg, Apply(cfg, run, event))
  {
    StepKeepsSafe(cfg, run, event);
    StepCloses(cfg, run, event);
    if event.Cancellation? {
      CancelKeepsGoing(cfg, run);
    } else if Accepted(run, event) {
      AcceptedKeepsGoing(cfg, run, event);
    } else {
      OtherCallbackIsIgnored(cfg, run, event);
    }
  }

  lemma {:induction false} KeepsGoingAlways(cfg: Config, run: Run, events: seq<Event>)
    requires Intended(cfg) && EveryOutcomeMeets(cfg) && KeepsGoing(cfg, run) && NoFaults(events)
    ensures KeepsGoing(cfg, After(cfg, run, events))
  {
    if events != [] {
      var front, event := events[..|events| - 1], events[|events| - 1];
      assert events == front + [event];
      KeepsGoingAlways(cfg, run, front);
      StepKeepsGoing(cfg, After(cfg, run, front), event);
    }
  }

  lemma TriggerKeepsGoing(cfg: Config, order: seq<JobId>, nextExecution: nat)
    requires Intended(cfg) && EveryOutcomeMeets(cfg) && Enumerates(order, Nodes(cfg.edges))
    ensures KeepsGoing(cfg, Triggered(cfg, order, nextExecution, NO_FAULTS))
  {
    var first := Triggered(cfg, order, nextExecution, NO_FAULTS);
    TriggerIsAccounted(cfg, order, nextExecution);
    forall v ensures !HopelesslyWaiting(cfg, first, v) { NoneHopeless(cfg, first, v); }
  }

  lemma CallbacksAreFaultFree(cfg: Config, run: Run, k: nat)
    requires AfterCallbacks(cfg, run, k)
    ensures ReachableFaultFree(cfg, run)
  {
    var order, nextExecution, events :|
      && Enumerates(order, Nodes(cfg.edges)) && |events| == k && FaultFree(events)
      && OneCallbackEach(cfg, Triggered(cfg, order, nextExecution, NO_FAULTS), events)
      && run == After(cfg, Triggered(cfg, order, nextExecution, NO_FAULTS), events);
    assert NoFaults(events);
  }

  // No fault-free run of the intended engine stalls, with any callbacks and cancellations, exactly if every edge's
  // condition is met by every outcome: all are `always` or, under the stop policy, neither `failure` nor
  // `skipped`. Runs with one callback per started node are enough to tell.
  lemma NeverStallsExactlyWhen(cfg: Config)
    requires Intended(cfg)
    ensures (forall run :: ReachableFaultFree(cfg, run) ==> !Stalled(run)) <==> EveryOutcomeMeets(cfg)
    ensures (forall run, k :: AfterCallbacks(cfg, run, k) ==> !Stalled(run)) <==> EveryOutcomeMeets(cfg)
  {
    if EveryOutcomeMeets(cfg) {
      forall run | ReachableFaultFree(cfg, run) ensures !Stalled(run) {
        var order, nextExecution, events :|
          && Enumerates(order, Nodes(cfg.edges)) && NoFaults(events)
          && run == After(cfg, Triggered(cfg, order, nextExecution, NO_FAULTS), events);
        TriggerKeepsGoing(cfg, order, nextExecution);
        KeepsGoingAlways(cfg, Triggered(cfg, order, nextExecution, NO_FAULTS), events);
      }
      forall run, k | AfterCallbacks(cfg, run, k) ensures !Stalled(run) {
        CallbacksAreFaultFree(cfg, run, k);
      }
    } else {
      var e :| e in cfg.edges && !MetByEveryOutcome(cfg, e.condition);
      var run, k := StallExists(cfg, e);
      CallbacksAreFaultFree(cfg, run, k);
      assert AfterCallbacks(cfg, run, k) && Stalled(run);
    }
  }

  // ---- two jobs and one edge, as inputs ----

  predicate SingleEdge(cfg: Config, e: DagEdge) {
    && cfg.edges == [e] && e.upstream != e.downstream
    && cfg.startable == {Waiting, Ready} && cfg.maxConcurrent >= 1
  }

  // One edge with the default condition; failures do not stop the run.
  predicate DefaultEdge(cfg: Config, e: DagEdge) {
    SingleEdge(cfg, e) && e.condition == "success" && cfg.onFailure != "stop"
  }

  // The upstream node has started, as execution 0; the downstream node waits.
  function AtFirst(e: DagEdge, upstream: NodeStatus, completed: int, failed: int): Run {
    Run([e.upstream, e.downstream],
        map[e.upstream := NodeRow(upstream, Some(0)), e.downstream := NodeRow(Waiting, None)],
        InProgress, 2, completed, failed, 1, [e.upstream], [0])
  }

  // Both have started.
  function AtSecond(e: DagEdge, upstream: NodeStatus, completed: int, failed: int): Run {
    Run([e.upstream, e.downstream],
        map[e.upstream := NodeRow(upstream, Some(0)), e.downstream := NodeRow(Running, Some(1))],
        InProgress, 2, completed, failed, 2, [e.upstream, e.downstream], [0, 1])
  }

  lemma OneEdgeOnly(cfg: Config, e: DagEdge)
    requires SingleEdge(cfg, e)
    ensures forall other :: other in cfg.edges <==> other == e
    ensures Nodes(cfg.edges) == {e.upstream, e.downstream}
    ensures Enumerates([e.upstream, e.downstream], Nodes(cfg.edges))
  {
    assert cfg.edges[0] == e;
    assert forall other :: other in cfg.edges <==> other == e;
    assert Nodes(cfg.edges) == {e.upstream, e.downstream};
  }

  lemma StartsOne(cfg: Config, run: Run, job: JobId)
    requires job in run.nodes && Chosen(cfg, run) == [job]
    ensures Advance(cfg, run, NO_FAULTS) == StartOne(run, job, NO_FAULTS)
  {
    assert [job][..|[job]| - 1] == [] && StartAll(run, [], NO_FAULTS) == run;
  }

  // The downstream node waits for the upstream one, so at most one of them can start.
  lemma OneChoice(cfg: Config, e: DagEdge, run: Run)
    requires SingleEdge(cfg, e) && run.order == [e.upstream, e.downstream]
    requires run.nodes.Keys == {e.upstream, e.downstream} && RunningJobs(run) == {}
    ensures var u, v := run.nodes[e.upstream].status, run.nodes[e.downstream].status;
            Chosen(cfg, run) == if Open(u) then [e.upstream]
                                else if Open(v) && Satisfied(e.condition, u) then [e.downstream] else []
  {
    OneEdgeOnly(cfg, e);
    var u, v, slots := run.nodes[e.upstream].status, run.nodes[e.downstream].status, Slots(cfg, run);
    assert Eligible(cfg, run, e.upstream) <==> Open(u);
    assert Eligible(cfg, run, e.downstream) <==> Open(v) && Satisfied(e.condition, u);
    assert run.order[1..] == [e.downstream] && [e.downstream][1..] == [];
    assert Select(cfg, run, [], slots) == [] && Select(cfg, run, [], slots - 1) == [];
    assert Select(cfg, run, [e.downstream], slots) == if Eligible(cfg, run, e.downstream) then [e.downstream] else [];
    assert Open(u) ==> Select(cfg, run, [e.downstream], slots - 1) == [];
  }

  lemma CreatedRows(cfg: Config, e: DagEdge)
    requires SingleEdge(cfg, e)
    ensures var created := Created(cfg.edges, [e.upstream, e.downstream], 0);
            && created.nodes == map[e.upstream := NodeRow(Ready, None), e.downstream := NodeRow(Waiting, None)]
            && RunningJobs(created) == {}
  {
    OneEdgeOnly(cfg, e);
    assert IsRoot(cfg.edges, e.upstream) && !IsRoot(cfg.edges, e.downstream);
  }

  lemma FirstNodeStarts(cfg: Config, e: DagEdge)
    requires SingleEdge(cfg, e)
    ensures Triggered(cfg, [e.upstream, e.downstream], 0, NO_FAULTS) == AtFirst(e, Running, 0, 0)
  {
    var created := Created(cfg.edges, [e.upstream, e.downstream], 0);
    CreatedRows(cfg, e);
    OneChoice(cfg, e, created);
    StartsOne(cfg, created, e.upstream);
  }

  // The upstream node calls back, whatever it was at before.
  lemma UpstreamCallsBack(cfg: Config, e: DagEdge, u: NodeStatus, completed: int, failed: int, reported: string)
    requires DefaultEdge(cfg, e) && reported != "cancelled"
    ensures Apply(cfg, AtFirst(e, u, completed, failed), Completion(0, Some(reported), NO_FAULTS))
         == if reported == "success" then AtSecond(e, Success, completed + 1, failed)
            else AtFirst(e, Failed, completed + 1, failed + 1)
  {
    var run := AtFirst(e, u, completed, failed);
    assert FindNode(run, run.order, 0) == Some(e.upstream);
    var settled := Settle(run, e.upstream, Outcome(reported));
    assert settled == AtFirst(e, Outcome(reported), completed + 1, failed + if reported == "success" then 0 else 1);
    assert RunningJobs(settled) == {};
    OneChoice(cfg, e, settled);
    DownstreamGoesOn(cfg, e, Outcome(reported), settled.completed, settled.failed);
  }

  lemma DownstreamGoesOn(cfg: Config, e: DagEdge, u: NodeStatus, completed: int, failed: int)
    requires DefaultEdge(cfg, e) && u in {Success, Failed}
    requires Chosen(cfg, AtFirst(e, u, completed, failed)) == if u == Success then [e.downstream] else []
    ensures FinishIfDone(Advance(cfg, AtFirst(e, u, completed, failed), NO_FAULTS))
         == if u == Success then AtSecond(e, Success, completed, failed) else AtFirst(e, u, completed, failed)
  {
    var settled := AtFirst(e, u, completed, failed);
    if u == Success {
      StartsOne(cfg, settled, e.downstream);
      assert Advance(cfg, settled, NO_FAULTS).nodes[e.downstream].status == Running;
    } else {
      assert settled.nodes[e.downstream].status == Waiting;
    }
  }

  // The only node that can start fails, and nothing runs any more, although the run is live.
  lemma DefaultConditionStalls(cfg: Config, e: DagEdge, first: Run, fails: seq<Event>, run: Run)
    requires DefaultEdge(cfg, e) && first == Triggered(cfg, [e.upstream, e.downstream], 0, NO_FAULTS)
    requires fails == [Completion(0, Some("failed"), NO_FAULTS)] && run == After(cfg, first, fails)
    ensures Enumerates([e.upstream, e.downstream], Nodes(cfg.edges)) && OneCallbackEach(cfg, first, fails)
    ensures run == AtFirst(e, Failed, 1, 1) && Stalled(run) && HopelesslyWaiting(cfg, run, e.downstream)
  {
    EdgeOrder(cfg, e);
    FirstNodeStarts(cfg, e);
    FirstFails(cfg, e, first, fails, run);
    StalledAtSecond(cfg, e, run);
  }

  lemma EdgeOrder(cfg: Config, e: DagEdge)
    requires SingleEdge(cfg, e)
    ensures Enumerates([e.upstream, e.downstream], Nodes(cfg.edges))
  {
    OneEdgeOnly(cfg, e);
  }

  lemma FirstFails(cfg: Config, e: DagEdge, first: Run, fails: seq<Event>, run: Run)
    requires DefaultEdge(cfg, e) && first == AtFirst(e, Running, 0, 0)
    requires fails == [Completion(0, Some("failed"), NO_FAULTS)] && run == After(cfg, first, fails)
    ensures OneCallbackEach(cfg, first, fails) && run == AtFirst(e, Failed, 1, 1)
  {
    OneCallback(cfg, first, fails[0], e.upstream);
    UpstreamCallsBack(cfg, e, Running, 0, 0, "failed");
  }

  lemma OneCallback(cfg: Config, run: Run, event: Event, job: JobId)
    requires CallsBack(run, job, event) && event.reported.Some?
    ensures OneCallbackEach(cfg, run, [event]) && After(cfg, run, [event]) == Apply(cfg, run, event)
  {
    var events, none: seq<Event> := [event], [];
    assert events[..|events| - 1] == none;
    assert OneCallbackEach(cfg, run, none) && After(cfg, run, none) == run;
  }

  lemma StalledAtSecond(cfg: Config, e: DagEdge, run: Run)
    requires DefaultEdge(cfg, e) && run.nodes.Keys == {e.upstream, e.downstream}
    requires run.nodes[e.upstream].status == Failed && run.nodes[e.downstream].status == Waiting
    ensures Stalled(run) && HopelesslyWaiting(cfg, run, e.downstream)
  {
    OneEdgeOnly(cfg, e);
    assert IsOpen(run, e.downstream);
  }

  // A granted retry makes the node call back a second time: a success then starts the waiting node, with as many
  // callbacks counted as there are nodes while it still runs.
  lemma SecondCallbackRevives(cfg: Config, e: DagEdge)
    requires DefaultEdge(cfg, e)
    ensures var run := Apply(cfg, AtFirst(e, Failed, 1, 1), Completion(0, Some("success"), NO_FAULTS));
            && run == AtSecond(e, Success, 2, 1)
            && e.downstream in RunningJobs(run) && run.completed == run.total && run.status == InProgress
  {
    UpstreamCallsBack(cfg, e, Failed, 1, 1, "success");
  }

  // Whatever the condition and the policy, `always` included: if the execution of the first job cannot be created at
  // the trigger, nothing runs, although the run is live.
  lemma FailedCreationStalls(cfg: Config, e: DagEdge, faults: Faults)
    requires SingleEdge(cfg, e) && faults == Faults({}, {e.upstream}, {})
    ensures Enumerates([e.upstream, e.downstream], Nodes(cfg.edges))
    ensures var run := Triggered(cfg, [e.upstream, e.downstream], 0, faults);
            Stalled(run) && run.status == InProgress
    ensures e.condition == "always" ==> EveryOutcomeMeets(cfg)
  {
    var order := [e.upstream, e.downstream];
    var created := Created(cfg.edges, order, 0);
    OneEdgeOnly(cfg, e);
    DownstreamWaits(cfg, order, 0, e);
    SelectedAre(cfg, created, order, Slots(cfg, created));
    BlockedTriggerStalls(cfg, order, 0, faults);
    TriggerStaysOpen(cfg, order, 0, faults);
  }

  // ---- the code as written ----

  // Trigger marks the roots ready, and advance only looks at waiting nodes: `startable` is {Waiting}.
  lemma NothingEligible(cfg: Config, order: seq<JobId>, nextExecution: nat)
    requires Ready !in cfg.startable && cfg.startable <= {Waiting, Ready} && Enumerates(order, Nodes(cfg.edges))
    ensures forall j :: !Eligible(cfg, Created(cfg.edges, order, nextExecution), j)
  {
    var run := Created(cfg.edges, order, nextExecution);
    forall j | j in run.nodes && run.nodes[j].status == Waiting ensures !IsNodeReady(cfg.edges, run.nodes, j) {
      var e :| e in cfg.edges && e.downstream == j;
      assert e.upstream in Nodes(cfg.edges);
    }
  }

  lemma TriggerStartsNothing(cfg: Config, order: seq<JobId>, nextExecution: nat, faults: Faults)
    requires Ready !in cfg.startable && cfg.startable <= {Waiting, Ready} && Enumerates(order, Nodes(cfg.edges))
    ensures Triggered(cfg, order, nextExecution, faults) == Created(cfg.edges, order, nextExecution)
  {
    var run := Created(cfg.edges, order, nextExecution);
    NothingEligible(cfg, order, nextExecution);
    SelectIs(cfg, run, order, Slots(cfg, run));
    NonemptyHasMember(Chosen(cfg, run));
  }

  ghost predicate NoExecutions(run: Run) { forall j :: !HasExecution(run, j) }

  lemma NoCallbackMatches(cfg: Config, run: Run, event: Event)
    requires NoExecutions(run) && event.Completion?
    ensures Apply(cfg, run, event) == run
  {
    FindNodeIs(run, run.order, event.execution);
  }

  lemma RootIsEligible(cfg: Config, order: seq<JobId>, nextExecution: nat) returns (v: JobId)
    requires Ready in cfg.startable && cfg.startable <= {Waiting, Ready} && Enumerates(order, Nodes(cfg.edges))
    requires cfg.edges != [] && Acyclic(cfg.edges)
    ensures Eligible(cfg, Created(cfg.edges, order, nextExecution), v)
  {
    var run := Created(cfg.edges, order, nextExecution);
    CreatedIsTracked(cfg, order, nextExecution);
    SomeNodeOpen(cfg, run);
    v := FirstOpenNode(cfg, run);
    forall e | e in cfg.edges ensures e.downstream != v {
      assert HasEdge(cfg.edges, e.upstream, e.downstream);
      assert e.upstream !in SettledJobs(run);
    }
  }

  // A DAG that the trigger accepts, with a free slot and no faults, starts a node on trigger exactly when
  // ready nodes count as startable.
  lemma TriggerStartsExactlyWhen(cfg: Config, order: seq<JobId>, nextExecution: nat)
    requires cfg.startable <= {Waiting, Ready} && Enumerates(order, Nodes(cfg.edges))
    requires cfg.edges != [] && Acyclic(cfg.edges) && cfg.maxConcurrent >= 1
    ensures RunningJobs(Triggered(cfg, order, nextExecution, NO_FAULTS)) != {} <==> Ready in cfg.startable
  {
    var run := Created(cfg.edges, order, nextExecution);
    CreatedIsTracked(cfg, order, nextExecution);
    if Ready in cfg.startable {
      var v := RootIsEligible(cfg, order, nextExecution);
      AdvanceEffect(cfg, run, NO_FAULTS);
      assert RunningJobs(run) == {};
      LaunchingRuns(run, Chosen(cfg, run), Advance(cfg, run, NO_FAULTS));
    } else {
      TriggerStartsNothing(cfg, order, nextExecution, NO_FAULTS);
    }
  }

  ghost predicate IsStuck(run: Run) { NoExecutions(run) && RunningJobs(run) == {} && run.started == [] }

  lemma CreatedIsStuck(edges: seq<DagEdge>, order: seq<JobId>, nextExecution: nat)
    ensures var run := Created(edges, order, nextExecution);
            IsStuck(run) && IsStuck(CancelAll(run)) && Cancellable(run) && !Cancellable(CancelAll(run))
  {
    CancelIs(Created(edges, order, nextExecution));
  }

  lemma {:induction false} StuckAlways(cfg: Config, first: Run, events: seq<Event>)
    requires IsStuck(first) && IsStuck(CancelAll(first)) && Cancellable(first) && !Cancellable(CancelAll(first))
    ensures After(cfg, first, events) == if Cancellation in events then CancelAll(first) else first
  {
    if events != [] {
      var front, event := events[..|events| - 1], events[|events| - 1];
      StuckAlways(cfg, first, front);
      assert events == front + [event];
      if event.Completion? { NoCallbackMatches(cfg, After(cfg, first, front), event); }
    }
  }

  // Stuck: as written, no reachable state of any triggered run has a running node or an execution,
  // and nothing but a cancellation ever changes it.
  lemma AsWrittenNeverStarts(cfg: Config, order: seq<JobId>, nextExecution: nat, faults: Faults, events: seq<Event>)
    requires Ready !in cfg.startable && cfg.startable <= {Waiting, Ready} && Enumerates(order, Nodes(cfg.edges))
    ensures var first := Triggered(cfg, order, nextExecution, faults);
            var run := After(cfg, first, events);
            IsStuck(run) && run == if Cancellation in events then CancelAll(first) else first
  {
    TriggerStartsNothing(cfg, order, nextExecution, faults);
    CreatedIsStuck(cfg.edges, order, nextExecution);
    StuckAlways(cfg, Triggered(cfg, order, nextExecution, faults), events);
  }
}
