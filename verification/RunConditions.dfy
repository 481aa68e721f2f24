/** What the conditions of the edges and the bound on running nodes let an advance start, and which conditions can be
    met in a run at all. */
module RunConditions {
  import opened Wrappers
  import opened Graphs
  import opened DagRuns
  import opened RunSafety
  import opened RunCounters
  import opened RunProgress
  import opened RunEndings

  // ---- when an advance starts a node ----

  // What a condition asks of the upstream node; an unknown one asks for a success.
  predicate Meets(condition: string, upstream: NodeStatus) {
    match upstream
    case Success => condition != "failure" && condition != "skipped"
    case Failed => condition == "failure" || condition == "always"
    case Skipped => condition == "skipped" || condition == "always"
    case Cancelled => condition == "always"
    case _ => false
  }

  predicate MayStart(cfg: Config, run: Run, job: JobId) {
    && job in run.nodes && run.nodes[job].status in cfg.startable
    && forall e :: e in cfg.edges && e.downstream == job ==>
         e.upstream in run.nodes && Meets(e.condition, run.nodes[e.upstream].status)
  }

  // How many of xs may start.
  function MayStartCount(cfg: Config, run: Run, xs: seq<JobId>): nat {
    if xs == [] then 0 else (if MayStart(cfg, run, xs[0]) then 1 else 0) + MayStartCount(cfg, run, xs[1..])
  }

  lemma MeetsIsSatisfied(cfg: Config, run: Run, job: JobId)
    ensures forall condition, status :: Satisfied(condition, status) <==> Meets(condition, status)
    ensures Eligible(cfg, run, job) <==> MayStart(cfg, run, job)
  {
    forall condition, status ensures Satisfied(condition, status) <==> Meets(condition, status) {
      MeetsSatisfies(condition, status);
    }
  }

  lemma MeetsSatisfies(condition: string, status: NodeStatus)
    ensures Satisfied(condition, status) <==> Meets(condition, status)
  {
    assert "failure"[0] == 'f' && "always"[0] == 'a' && "skipped"[0] == 's';
  }

  lemma {:induction false} SelectedExactlyWhen(cfg: Config, run: Run, xs: seq<JobId>, slots: nat, k: nat)
    requires NoDuplicates(xs) && k < |xs|
    ensures xs[k] in Select(cfg, run, xs, slots)
       <==> MayStart(cfg, run, xs[k]) && MayStartCount(cfg, run, xs[..k]) < slots
  {
    MeetsIsSatisfied(cfg, run, xs[0]);
    MeetsIsSatisfied(cfg, run, xs[k]);
    var left := if Eligible(cfg, run, xs[0]) && slots > 0 then slots - 1 else slots;
    SelectedAre(cfg, run, xs[1..], left);
    if k > 0 && slots > 0 {
      SelectedExactlyWhen(cfg, run, xs[1..], left, k - 1);
      assert xs[..k][1..] == xs[1..][..k - 1] && xs[..k][0] == xs[0];
    }
  }

  // An advance runs exactly the nodes that ran before and, in row order and while the bound allows, those that may
  // start: their status is startable and the upstream end of each of their edges meets its condition. A node whose job
  // or execution is missing is failed in its place, without an execution; all other rows stay.
  lemma AdvanceStartsExactlyWhen(cfg: Config, run: Run, faults: Faults, k: nat)
    requires Shape(cfg, run) && k < |run.order|
    ensures var v, r := run.order[k], Advance(cfg, run, faults);
            var taken := && MayStart(cfg, run, v)
                         && |RunningJobs(run)| + MayStartCount(cfg, run, run.order[..k]) < cfg.maxConcurrent;
            var blocked := v in faults.missingJobs || v in faults.failedCreations;
            && v in run.nodes && v in r.nodes
            && (!taken ==> r.nodes[v] == run.nodes[v])
            && (taken && blocked ==> r.nodes[v] == NodeRow(Failed, run.nodes[v].execution))
            && (taken && !blocked ==> r.nodes[v].status == Running && r.nodes[v].execution.Some?)
  {
    var v := run.order[k];
    assert v in run.order;
    SelectedExactlyWhen(cfg, run, run.order, Slots(cfg, run), k);
    AdvanceEffect(cfg, run, faults);
    assert RowEffect(run, Chosen(cfg, run), faults, Advance(cfg, run, faults), v);
  }

  // ---- each condition, on one edge ----

  // One edge: its upstream node starts at the trigger and calls back. The downstream node then runs exactly if the
  // condition is `always`, or `failure` and the report is neither a success nor a cancellation, or neither `failure`
  // nor `skipped` and the report is a success; unless the report stopped the run.
  lemma ConditionDecides(cfg: Config, e: DagEdge, reported: string)
    requires SingleEdge(cfg, e) && (reported == "success" || cfg.onFailure != "stop")
    ensures var first := Triggered(cfg, [e.upstream, e.downstream], 0, NO_FAULTS);
            var run := Apply(cfg, first, Completion(0, Some(reported), NO_FAULTS));
            && first == AtFirst(e, Running, 0, 0)
            && (e.downstream in RunningJobs(run) <==>
                  || e.condition == "always"
                  || (e.condition == "failure" && reported != "success" && reported != "cancelled")
                  || (e.condition != "failure" && e.condition != "skipped" && reported == "success"))
  {
    FirstNodeStarts(cfg, e);
    var outcome := Outcome(reported);
    var settled := AtFirst(e, outcome, 1, if IsFailure(outcome) then 1 else 0);
    UpstreamSettles(cfg, e, reported, settled);
    FinishRuns(Advance(cfg, settled, NO_FAULTS));
    DownstreamStarts(cfg, e, outcome, settled);
    ReportMeets(e.condition, reported);
  }

  lemma FinishRuns(run: Run)
    ensures RunningJobs(FinishIfDone(run)) == RunningJobs(run)
  {}

  lemma ReportMeets(condition: string, reported: string)
    ensures Meets(condition, Outcome(reported)) <==>
              || condition == "always"
              || (condition == "failure" && reported != "success" && reported != "cancelled")
              || (condition != "failure" && condition != "skipped" && reported == "success")
  {
    assert "failure"[0] == 'f' && "always"[0] == 'a' && "skipped"[0] == 's' && "cancelled"[0] == 'c';
    assert "success"[1] == 'u' && "skipped"[1] == 'k';
  }

  lemma UpstreamSettles(cfg: Config, e: DagEdge, reported: string, settled: Run)
    requires SingleEdge(cfg, e) && (reported == "success" || cfg.onFailure != "stop")
    requires settled == AtFirst(e, Outcome(reported), 1, if IsFailure(Outcome(reported)) then 1 else 0)
    ensures Apply(cfg, AtFirst(e, Running, 0, 0), Completion(0, Some(reported), NO_FAULTS))
         == FinishIfDone(Advance(cfg, settled, NO_FAULTS))
  {
    var first := AtFirst(e, Running, 0, 0);
    assert FindNode(first, first.order, 0) == Some(e.upstream);
    assert Settle(first, e.upstream, Outcome(reported)) == settled;
  }

  lemma DownstreamStarts(cfg: Config, e: DagEdge, outcome: NodeStatus, settled: Run)
    requires SingleEdge(cfg, e) && outcome in {Success, Failed, Cancelled}
    requires settled.order == [e.upstream, e.downstream] && settled.total == 2
    requires settled.nodes == map[e.upstream := NodeRow(outcome, Some(0)), e.downstream := NodeRow(Waiting, None)]
    ensures e.downstream in RunningJobs(Advance(cfg, settled, NO_FAULTS)) <==> Meets(e.condition, outcome)
  {
    OneEdgeOnly(cfg, e);
    assert RunningJobs(settled) == {};
    assert settled.order[..1] == [e.upstream] && [e.upstream][1..] == [];
    assert !MayStart(cfg, settled, e.upstream) && MayStartCount(cfg, settled, []) == 0;
    AdvanceStartsExactlyWhen(cfg, settled, NO_FAULTS, 1);
    assert MayStart(cfg, settled, e.downstream) <==> Meets(e.condition, outcome);
  }

  // ---- a condition that no run meets ----

  ghost predicate NeverStarted(run: Run, v: JobId) { !HasExecution(run, v) && v !in run.started }

  lemma AdvanceSkipsCondition(cfg: Config, run: Run, faults: Faults, e: DagEdge)
    requires Shape(cfg, run) && SkipsFreeze(cfg, run) && NeverStarted(run, e.downstream)
    requires e in cfg.edges && e.condition == "skipped"
    ensures NeverStarted(Advance(cfg, run, faults), e.downstream)
  {
    if SomeSkipped(run) {
      FrozenStays(cfg, run, faults);
    } else {
      AdvanceEffect(cfg, run, faults);
      var v := e.downstream;
      MeetsIsSatisfied(cfg, run, v);
      assert !MayStart(cfg, run, v);
      assert v in Nodes(cfg.edges);
      assert RowEffect(run, Chosen(cfg, run), faults, Advance(cfg, run, faults), v);
    }
  }

  lemma StepSkipsCondition(cfg: Config, run: Run, event: Event, e: DagEdge)
    requires Safe(cfg, run) && SkipsFreeze(cfg, run) && NeverStarted(run, e.downstream)
    requires e in cfg.edges && e.condition == "skipped"
    ensures NeverStarted(Apply(cfg, run, event), e.downstream)
  {
    if event.Cancellation? {
      CancelIs(run);
    } else if Accepted(run, event) {
      FindNodeIs(run, run.order, event.execution);
      var job := FindNode(run, run.order, event.execution).value;
      CompletionSkipsCondition(cfg, run, job, Outcome(event.reported.value), event.faults, e);
    } else {
      OtherCallbackIsIgnored(cfg, run, event);
    }
  }

  lemma CompletionSkipsCondition(cfg: Config, run: Run, job: JobId, status: NodeStatus, faults: Faults, e: DagEdge)
    requires Safe(cfg, run) && SkipsFreeze(cfg, run) && NeverStarted(run, e.downstream) && HasExecution(run, job)
    requires e in cfg.edges && e.condition == "skipped" && status in {Success, Failed, Cancelled}
    ensures NeverStarted(CompleteNode(cfg, run, job, status, faults), e.downstream)
  {
    var settled := Settle(run, job, status);
    if IsFailure(status) && cfg.onFailure == "stop" {
      StopIs(settled);
    } else {
      SettleIs(run, job, status);
      forall j | j in settled.nodes && settled.nodes[j].status == Skipped ensures run.nodes[j].status == Skipped {}
      AdvanceSkipsCondition(cfg, settled, faults, e);
      FinishIs(Advance(cfg, settled, faults));
    }
  }

  lemma {:induction false} SkippedConditionAfter(cfg: Config, run: Run, events: seq<Event>, e: DagEdge)
    requires Safe(cfg, run) && SkipsFreeze(cfg, run) && NeverStarted(run, e.downstream)
    requires e in cfg.edges && e.condition == "skipped"
    ensures NeverStarted(After(cfg, run, events), e.downstream)
  {
    if events != [] {
      var front, event := events[..|events| - 1], events[|events| - 1];
      SkippedConditionAfter(cfg, run, front, e);
      SafeAlways(cfg, run, front);
      SkipsFreezeAfter(cfg, run, front);
      StepSkipsCondition(cfg, After(cfg, run, front), event, e);
    }
  }

  // The condition `skipped` is met in no run: nodes are skipped only when a stopped run skips all that is open. So in
  // every reachable state the downstream end of such an edge has never started, in the code as written and as intended.
  lemma SkippedConditionNeverStarts(cfg: Config, run: Run, e: DagEdge)
    requires cfg.startable <= {Waiting, Ready} && Reachable(cfg, run) && e in cfg.edges && e.condition == "skipped"
    ensures !HasExecution(run, e.downstream) && e.downstream !in run.started
  {
    var order, nextExecution, faults, events :|
      Enumerates(order, Nodes(cfg.edges)) && run == After(cfg, Triggered(cfg, order, nextExecution, faults), events);
    TriggerIsSafe(cfg, order, nextExecution, faults);
    TriggerSkipsNone(cfg, order, nextExecution, faults);
    AdvanceSkipsCondition(cfg, Created(cfg.edges, order, nextExecution), faults, e);
    SkippedConditionAfter(cfg, Triggered(cfg, order, nextExecution, faults), events, e);
  }
}
