/** The DAG engine in the imperative form of src/dag/engine.rs: one object is one run's rows. Each method is proved
    against the value-level step of the same name. */
module DagEngines {
  import opened Wrappers
  import opened Graphs
  import opened DagGraphService
  import opened DagRuns
  import opened RunSafety

  lemma NextInOrder(order: seq<JobId>, i: nat)
    requires NoDuplicates(order) && i < |order|
    ensures order[i] in order && order[i] !in order[..i]
    ensures forall j :: j in order[..i + 1] <==> j in order[..i] || j == order[i]
  {
    assert order[..i + 1] == order[..i] + [order[i]];
  }

  lemma AdvanceIs(cfg: Config, run: Run, faults: Faults, slots: nat)
    requires slots == Slots(cfg, run)
    ensures forall j :: j in Select(cfg, run, run.order, slots) ==> j in run.nodes
    ensures Advance(cfg, run, faults) == StartAll(run, Select(cfg, run, run.order, slots), faults)
    ensures slots == 0 ==> Advance(cfg, run, faults) == run
  {
    SelectedAre(cfg, run, run.order, slots);
  }

  class DagEngine {
    const cfg: Config
    var order: seq<JobId>
    var nodes: map<JobId, NodeRow>
    var status: RunStatus
    var total: int
    var completed: int
    var failed: int
    var nextExecution: nat
    var started: seq<JobId>
    var submitted: seq<nat>

    function Rows(): Run reads this {
      Run(order, nodes, status, total, completed, failed, nextExecution, started, submitted)
    }

    ghost predicate Valid() reads this { Enumerates(order, nodes.Keys) }

    constructor (cfg: Config)
      ensures this.cfg == cfg && Rows() == Run([], map[], Pending, 0, 0, 0, 0, [], []) && Valid()
    {
      this.cfg := cfg;
      order, nodes, status := [], map[], Pending;
      total, completed, failed, nextExecution, started, submitted := 0, 0, 0, 0, [], [];
    }

    // Create the run and its node rows, mark the roots ready, then advance.
    method TriggerDag(enabled: bool, faults: Faults) returns (r: Result<()>)
      requires Valid()
      modifies this
      ensures Valid()
      ensures r == if !enabled || cfg.edges == [] then Err(BadRequest)
                   else if !Acyclic(cfg.edges) then Err(Validation(CycleFound)) else Ok(())
      ensures r.Ok? ==>
                Enumerates(order, Nodes(cfg.edges)) && Rows() == Triggered(cfg, order, old(nextExecution), faults)
      ensures r.Err? ==> Rows() == old(Rows())
    {
      if !enabled {
        return Err(BadRequest);
      }
      if cfg.edges == [] {
        return Err(BadRequest);
      }
      var iteration := IterationOrder(Nodes(cfg.edges));
      var check := ValidateNoCycles(cfg.edges, iteration);
      if check.Err? {
        return Err(check.error);
      }
      CreateRows();
      AdvanceDagRun(faults);
      return Ok(());
    }

    method CreateRows()
      modifies this
      ensures Enumerates(order, Nodes(cfg.edges)) && Valid()
      ensures Rows() == Created(cfg.edges, order, old(nextExecution))
    {
      order := IterationOrder(Nodes(cfg.edges));
      nodes, started, submitted := map[], [], [];
      status, total, completed, failed := InProgress, |order|, 0, 0;
      ghost var jobs := order;
      for i := 0 to |order|
        invariant order == jobs && Rows() == Rows().(total := |order|, order := order, status := InProgress,
                                                     completed := 0, failed := 0, started := [], submitted := [],
                                                     nextExecution := old(nextExecution))
        invariant nodes == map j | j in order[..i] :: NodeRow(Waiting, None)
      {
        assert order[..i + 1] == order[..i] + [order[i]];
        nodes := nodes[order[i] := NodeRow(Waiting, None)];
      }
      assert order[..|order|] == order;
      MarkRoots();
    }

    method MarkRoots()
      requires Valid() && forall j :: j in nodes ==> nodes[j] == NodeRow(Waiting, None)
      modifies this`nodes
      ensures nodes == map j | j in order :: NodeRow(if IsRoot(cfg.edges, j) then Ready else Waiting, None)
    {
      ghost var before := nodes;
      for i := 0 to |order|
        invariant nodes.Keys == before.Keys
        invariant forall k :: 0 <= k < i ==>
                 nodes[order[k]] == NodeRow(if IsRoot(cfg.edges, order[k]) then Ready else Waiting, None)
        invariant forall k :: i <= k < |order| ==> nodes[order[k]] == NodeRow(Waiting, None)
      {
        if IsRoot(cfg.edges, order[i]) {
          nodes := nodes[order[i] := nodes[order[i]].(status := Ready)];
        }
      }
    }

    method CountRunning() returns (n: nat)
      requires Valid()
      ensures n == |RunningJobs(Rows())|
    {
      n := 0;
      ghost var seen: set<JobId> := {};
      for i := 0 to |order|
        invariant n == |seen| && forall j :: j in seen <==> j in order[..i] && nodes[j].status == Running
      {
        NextInOrder(order, i);
        if nodes[order[i]].status == Running {
          n := n + 1;
          seen := seen + {order[i]};
        }
      }
      assert order[..|order|] == order;
      assert seen == RunningJobs(Rows());
    }

    method CountSettled() returns (n: nat)
      requires Valid()
      ensures n == |SettledJobs(Rows())|
    {
      n := 0;
      ghost var seen: set<JobId> := {};
      for i := 0 to |order|
        invariant n == |seen| && forall j :: j in seen <==> j in order[..i] && Terminal(nodes[j].status)
      {
        NextInOrder(order, i);
        if nodes[order[i]].status != Waiting && nodes[order[i]].status != Ready && nodes[order[i]].status != Running {
          n := n + 1;
          seen := seen + {order[i]};
        }
      }
      assert order[..|order|] == order;
      assert seen == SettledJobs(Rows());
    }

    // Pick what the snapshot lets start, then start the picked nodes one by one.
    method AdvanceDagRun(faults: Faults)
      requires Valid()
      modifies this
      ensures Valid() && order == old(order)
      ensures Rows() == Advance(cfg, old(Rows()), faults)
    {
      var running := CountRunning();
      var slots := if cfg.maxConcurrent - running < 0 then 0 else cfg.maxConcurrent - running;
      AdvanceIs(cfg, Rows(), faults, slots);
      if slots <= 0 {
        return;
      }
      var newlyReady := PickReady(slots);
      StartNodes(newlyReady, faults);
    }

    method PickReady(slots: nat) returns (newlyReady: seq<JobId>)
      requires Valid()
      ensures newlyReady == Select(cfg, Rows(), order, slots)
      ensures forall j :: j in newlyReady ==> j in nodes
    {
      newlyReady := [];
      ghost var rest := order;
      for i := 0 to |order|
        invariant |newlyReady| <= slots && rest == order[i..]
        invariant newlyReady + Select(cfg, Rows(), rest, slots - |newlyReady|) == Select(cfg, Rows(), order, slots)
      {
        if |newlyReady| >= slots {
          break;
        }
        var job := order[i];
        assert job in order;
        if nodes[job].status in cfg.startable && IsNodeReady(cfg.edges, nodes, job) {
          newlyReady := newlyReady + [job];
        }
        rest := rest[1..];
      }
      SelectedAre(cfg, Rows(), order, slots);
    }

    method StartNodes(newlyReady: seq<JobId>, faults: Faults)
      requires forall j :: j in newlyReady ==> j in nodes
      modifies this`nodes, this`nextExecution, this`started, this`submitted
      ensures Rows() == StartAll(old(Rows()), newlyReady, faults)
    {
      for k := 0 to |newlyReady|
        invariant Rows() == StartAll(old(Rows()), newlyReady[..k], faults)
        invariant nodes.Keys == old(nodes.Keys)
      {
        var job := newlyReady[k];
        assert newlyReady[..k + 1][..k] == newlyReady[..k];
        if job in faults.missingJobs {
          nodes := nodes[job := nodes[job].(status := Failed)];
        } else if job in faults.failedCreations {
          nodes := nodes[job := nodes[job].(status := Failed)];
        } else {
          nodes := nodes[job := nodes[job].(execution := Some(nextExecution), status := Running)];
          started := started + [job];
          if job !in faults.failedEnqueues {
            submitted := submitted + [nextExecution];
          }
          nextExecution := nextExecution + 1;
        }
      }
      assert newlyReady[..|newlyReady|] == newlyReady;
    }

    method FindNodeByExecution(execution: nat) returns (node: Option<JobId>)
      requires Valid()
      ensures node == FindNode(Rows(), order, execution)
      ensures node.Some? ==> node.value in nodes
    {
      for i := 0 to |order|
        invariant FindNode(Rows(), order, execution) == FindNode(Rows(), order[i..], execution)
      {
        assert order[i] in order && order[i..][0] == order[i] && order[i..][1..] == order[i + 1..];
        if nodes[order[i]].execution == Some(execution) {
          return Some(order[i]);
        }
      }
      return None;
    }

    method SettleNode(job: JobId, nodeStatus: NodeStatus)
      requires job in nodes
      modifies this`nodes, this`completed, this`failed
      ensures Rows() == Settle(old(Rows()), job, nodeStatus)
    {
      nodes := nodes[job := nodes[job].(status := nodeStatus)];
      completed := completed + 1;
      if IsFailure(nodeStatus) {
        failed := failed + 1;
      }
    }

    // The worker's callback after every attempt of an execution.
    method OnExecutionComplete(execution: nat, reported: Option<string>, faults: Faults) returns (r: Result<()>)
      requires Valid()
      modifies this
      ensures Valid() && Rows() == Complete(cfg, old(Rows()), execution, reported, faults)
      ensures r.Ok? <==> FindNode(old(Rows()), old(order), execution).None? || reported.Some?
    {
      var node := FindNodeByExecution(execution);
      if node.None? {
        return Ok(());
      }
      if reported.None? {
        return Err(Database);
      }
      var nodeStatus := Outcome(reported.value);
      SettleNode(node.value, nodeStatus);
      if IsFailure(nodeStatus) && cfg.onFailure == "stop" {
        HandleStop();
        return Ok(());
      }
      AdvanceDagRun(faults);
      FinishRun();
      return Ok(());
    }

    method FinishRun()
      requires Valid()
      modifies this`status, this`completed
      ensures Rows() == FinishIfDone(old(Rows()))
    {
      var allTerminal := true;
      for i := 0 to |order|
        invariant allTerminal <==> forall k :: 0 <= k < i ==> Terminal(nodes[order[k]].status)
      {
        allTerminal := allTerminal && Terminal(nodes[order[i]].status);
      }
      assert allTerminal == AllTerminal(Rows());
      if allTerminal {
        status := FinalStatus(Rows());
        completed := |order|;
      }
    }

    // on_failure = stop: skip everything not started, and close the run if nothing is running.
    method HandleStop()
      requires Valid()
      modifies this
      ensures Valid() && Rows() == StopRun(old(Rows()))
      ensures Stops(old(Rows()), Rows())
    {
      StopIs(Rows());
      var running := CountRunning();
      SkipOpenNodes();
      if running == 0 {
        var settled := CountSettled();
        status, completed := RunFailed, settled;
      }
    }

    method SkipOpenNodes()
      requires Valid()
      modifies this`nodes
      ensures Rows() == SkipOpen(old(Rows())) && Valid()
    {
      ghost var before := nodes;
      for i := 0 to |order|
        invariant nodes.Keys == before.Keys
        invariant forall k :: 0 <= k < i ==> nodes[order[k]] == SkipRow(before[order[k]])
        invariant forall k :: i <= k < |order| ==> nodes[order[k]] == before[order[k]]
      {
        if Open(nodes[order[i]].status) {
          nodes := nodes[order[i] := nodes[order[i]].(status := Skipped)];
        }
      }
    }

    method CancelOpenNodes()
      requires Valid()
      modifies this`nodes
      ensures nodes == map j | j in old(nodes) :: CancelRow(old(nodes)[j])
    {
      ghost var before := nodes;
      for i := 0 to |order|
        invariant nodes.Keys == before.Keys
        invariant forall k :: 0 <= k < i ==> nodes[order[k]] == CancelRow(before[order[k]])
        invariant forall k :: i <= k < |order| ==> nodes[order[k]] == before[order[k]]
      {
        if Open(nodes[order[i]].status) || nodes[order[i]].status == Running {
          nodes := nodes[order[i] := nodes[order[i]].(status := Cancelled)];
        }
      }
    }

    method CancelDagRun() returns (r: Result<()>)
      requires Valid()
      modifies this
      ensures Valid() && Rows() == Cancel(old(Rows()))
      ensures r == if old(status) in {InProgress, Pending} then Ok(()) else Err(BadRequest)
      ensures r.Ok? ==> Cancels(old(Rows()), Rows())
      ensures r.Err? ==> Rows() == old(Rows())
    {
      if status != InProgress && status != Pending {
        return Err(BadRequest);
      }
      CancelIs(Rows());
      CancelOpenNodes();
      status := RunCancelled;
      return Ok(());
    }
  }
}
