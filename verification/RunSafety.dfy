/** What every reachable state of a DAG run satisfies: for the code ({Waiting} startable), for the
    intent ({Waiting, Ready}), under any failures of job lookup and execution creation, any order and
    number of callbacks, and cancellation at any point. */
module RunSafety {
  import opened Wrappers
  import opened Graphs
  import opened DagRuns

  // ---- the invariant ----

  ghost predicate Shape(cfg: Config, run: Run) {
    && cfg.startable <= {Waiting, Ready}
    && Enumerates(run.order, run.nodes.Keys)
    && run.nodes.Keys == Nodes(cfg.edges)
    && run.total == |run.order|
  }

  predicate HasExecution(run: Run, j: JobId) { j in run.nodes && run.nodes[j].execution.Some? }

  ghost predicate HeldByNode(run: Run, execution: nat) {
    exists j :: HasExecution(run, j) && run.nodes[j].execution == Some(execution)
  }

  predicate Settled(run: Run, j: JobId) { j in run.nodes && Terminal(run.nodes[j].status) }

  predicate IsOpen(run: Run, j: JobId) { j in run.nodes && Open(run.nodes[j].status) }

  // Execution ids are distinct; exactly the nodes that ever started hold one.
  ghost predicate ExecutionIds(run: Run) {
    && (forall j :: HasExecution(run, j) ==> run.nodes[j].execution.value < run.nextExecution)
    && (forall j, k ::
          HasExecution(run, j) && HasExecution(run, k) && run.nodes[j].execution == run.nodes[k].execution ==> j == k)
    && (forall j :: j in run.nodes && run.nodes[j].status == Running ==> HasExecution(run, j))
    && (forall j :: IsOpen(run, j) ==> !HasExecution(run, j))
  }

  // Each node starts at most once.
  ghost predicate StartLog(run: Run) {
    && NoDuplicates(run.started)
    && (forall j :: j in run.started <==> HasExecution(run, j))
  }

  ghost predicate WithinBound(cfg: Config, run: Run) {
    |RunningJobs(run)| <= if cfg.maxConcurrent < 0 then 0 else cfg.maxConcurrent
  }

  // Nothing can start any more.
  ghost predicate Frozen(run: Run) { forall j :: !IsOpen(run, j) }

  // Whatever left the open statuses had all its upstreams settled.
  ghost predicate Closed(cfg: Config, run: Run) {
    forall u, v :: v in run.nodes && !IsOpen(run, v) && HasEdge(cfg.edges, u, v) ==> Settled(run, u)
  }

  // Whatever was given an execution has all its transitive upstreams settled.
  ghost predicate AncestorsSettled(cfg: Config, run: Run) {
    forall u, v :: HasExecution(run, v) && Ancestor(cfg.edges, u, v) ==> Settled(run, u)
  }

  // No node starts before one of its transitive upstreams does.
  ghost predicate StartsInOrder(cfg: Config, run: Run) {
    forall i, k :: 0 <= i < k < |run.started| ==> !Ancestor(cfg.edges, run.started[k], run.started[i])
  }

  ghost predicate Safe(cfg: Config, run: Run) {
    && Shape(cfg, run) && ExecutionIds(run) && StartLog(run) && WithinBound(cfg, run)
    && (Frozen(run) || Closed(cfg, run)) && AncestorsSettled(cfg, run) && StartsInOrder(cfg, run)
  }

  // ---- what selecting and starting do ----

  lemma {:induction false} SelectIs(cfg: Config, run: Run, xs: seq<JobId>, slots: nat)
    requires NoDuplicates(xs)
    ensures var s := Select(cfg, run, xs, slots);
            && NoDuplicates(s) && |s| <= slots
            && (forall j :: j in s ==> j in xs && Eligible(cfg, run, j))
            && (|s| < slots ==> forall j :: j in xs && Eligible(cfg, run, j) ==> j in s)
  {
    if xs != [] && slots > 0 {
      SelectIs(cfg, run, xs[1..], if Eligible(cfg, run, xs[0]) then slots - 1 else slots);
    }
  }

  function Launched(xs: seq<JobId>, faults: Faults): seq<JobId> {
    if xs == [] then [] else
      Launched(xs[..|xs| - 1], faults) + if Blocked(faults, xs[|xs| - 1]) then [] else [xs[|xs| - 1]]
  }

  lemma {:induction false} LaunchedAre(xs: seq<JobId>, faults: Faults)
    requires NoDuplicates(xs)
    ensures var s := Launched(xs, faults);
            NoDuplicates(s) && |s| <= |xs| && forall j :: j in s <==> j in xs && !Blocked(faults, j)
  {
    if xs != [] {
      LaunchedAre(xs[..|xs| - 1], faults);
      assert xs == xs[..|xs| - 1] + [xs[|xs| - 1]];
    }
  }

  // Starting xs fails the blocked ones and runs the others under fresh execution ids.
  ghost predicate StartEffect(run: Run, xs: seq<JobId>, faults: Faults, r: Run) {
    && r == run.(nodes := r.nodes, nextExecution := r.nextExecution, started := run.started + Launched(xs, faults),
               submitted := r.submitted)
    && r.nodes.Keys == run.nodes.Keys && run.nextExecution <= r.nextExecution
    && (forall j :: j in run.nodes ==> RowEffect(run, xs, faults, r, j))
    && (forall j, k ::
          (Started(run, xs, faults, j) && Started(run, xs, faults, k) && r.nodes[j].execution == r.nodes[k].execution)
          ==> j == k)
  }

  ghost predicate RowEffect(run: Run, xs: seq<JobId>, faults: Faults, r: Run, j: JobId)
    requires j in run.nodes && j in r.nodes
  {
    if j !in xs then r.nodes[j] == run.nodes[j]
    else if Blocked(faults, j) then r.nodes[j] == run.nodes[j].(status := Failed)
    else Fresh(run, r, j)
  }

  predicate Started(run: Run, xs: seq<JobId>, faults: Faults, j: JobId) {
    j in run.nodes && j in xs && !Blocked(faults, j)
  }

  ghost predicate Fresh(run: Run, r: Run, j: JobId)
    requires j in r.nodes
  {
    r.nodes[j].status == Running && r.nodes[j].execution.Some?
    && run.nextExecution <= r.nodes[j].execution.value < r.nextExecution
  }

  lemma {:induction false} StartAllEffect(run: Run, xs: seq<JobId>, faults: Faults)
    requires NoDuplicates(xs) && forall j :: j in xs ==> j in run.nodes
    ensures StartEffect(run, xs, faults, StartAll(run, xs, faults))
  {
    if xs != [] {
      var front, x := xs[..|xs| - 1], xs[|xs| - 1];
      StartAllEffect(run, front, faults);
      assert xs == front + [x] && x !in front;
      StartOneMore(run, front, x, faults, StartAll(run, front, faults));
    } else {
      assert run.started + [] == run.started;
    }
  }

  lemma StartOneMore(run: Run, front: seq<JobId>, x: JobId, faults: Faults, mid: Run)
    requires StartEffect(run, front, faults, mid) && x in run.nodes && x !in front
    ensures StartEffect(run, front + [x], faults, StartOne(mid, x, faults))
  {
    var xs, r := front + [x], StartOne(mid, x, faults);
    assert Launched(xs, faults) == Launched(front, faults) + if Blocked(faults, x) then [] else [x] by {
      assert xs[..|front|] == front;
    }
    forall j | j in run.nodes ensures RowEffect(run, xs, faults, r, j) {
      StartOneRow(run, front, x, faults, mid, j);
    }
    forall j, k | Started(run, xs, faults, j) && Started(run, xs, faults, k)
         && r.nodes[j].execution == r.nodes[k].execution
      ensures j == k
    {
      StartedEarlier(run, front, x, faults, mid, j);
      StartedEarlier(run, front, x, faults, mid, k);
    }
  }

  lemma StartOneRow(run: Run, front: seq<JobId>, x: JobId, faults: Faults, mid: Run, j: JobId)
    requires StartEffect(run, front, faults, mid) && x in run.nodes && x !in front && j in run.nodes
    ensures RowEffect(run, front + [x], faults, StartOne(mid, x, faults), j)
  {
    assert RowEffect(run, front, faults, mid, x);
    assert RowEffect(run, front, faults, mid, j);
  }

  lemma StartedEarlier(run: Run, front: seq<JobId>, x: JobId, faults: Faults, mid: Run, j: JobId)
    requires StartEffect(run, front, faults, mid) && x in run.nodes && x !in front
    requires Started(run, front + [x], faults, j)
    ensures var r := StartOne(mid, x, faults);
            if j == x then r.nodes[j].execution == Some(mid.nextExecution)
            else Started(run, front, faults, j) && r.nodes[j] == mid.nodes[j] && Fresh(run, mid, j)
  {
    assert RowEffect(run, front, faults, mid, j);
  }

  lemma ChosenAre(cfg: Config, run: Run)
    requires Shape(cfg, run)
    ensures var xs := Chosen(cfg, run);
            && NoDuplicates(xs) && |xs| <= Slots(cfg, run)
            && (forall j :: j in xs ==> Eligible(cfg, run, j) && IsOpen(run, j))
            && (|xs| < Slots(cfg, run) ==> forall j :: Eligible(cfg, run, j) ==> j in xs)
  {
    SelectIs(cfg, run, run.order, Slots(cfg, run));
  }

  lemma AdvanceEffect(cfg: Config, run: Run, faults: Faults)
    requires Shape(cfg, run)
    ensures var xs := Chosen(cfg, run);
            && NoDuplicates(xs) && |xs| <= Slots(cfg, run)
            && (forall j :: j in xs ==> Eligible(cfg, run, j) && IsOpen(run, j))
            && (|xs| < Slots(cfg, run) ==> forall j :: Eligible(cfg, run, j) ==> j in xs)
            && StartEffect(run, xs, faults, Advance(cfg, run, faults))
            && NoDuplicates(Launched(xs, faults)) && |Launched(xs, faults)| <= |xs|
            && (forall j :: j in Launched(xs, faults) <==> j in xs && !Blocked(faults, j))
  {
    ChosenAre(cfg, run);
    StartAllEffect(run, Chosen(cfg, run), faults);
    LaunchedAre(Chosen(cfg, run), faults);
  }

  // ---- advance keeps the invariant ----

  // How one row relates to the row before, whatever was chosen among the open nodes.
  lemma StartedRow(run: Run, xs: seq<JobId>, faults: Faults, r: Run, j: JobId)
    requires StartEffect(run, xs, faults, r) && ExecutionIds(run) && j in run.nodes
    requires forall i :: i in xs ==> IsOpen(run, i)
    ensures HasExecution(run, j) ==> r.nodes[j] == run.nodes[j]
    ensures HasExecution(r, j) && !HasExecution(run, j) ==> Started(run, xs, faults, j) && Fresh(run, r, j)
    ensures Started(run, xs, faults, j) ==> HasExecution(r, j)
    ensures r.nodes[j].status == Running ==> HasExecution(r, j)
    ensures IsOpen(r, j) ==> IsOpen(run, j) && r.nodes[j] == run.nodes[j]
    ensures Settled(run, j) ==> Settled(r, j)
  {
    assert RowEffect(run, xs, faults, r, j);
  }

  lemma StartKeepsIds(run: Run, xs: seq<JobId>, faults: Faults, r: Run)
    requires StartEffect(run, xs, faults, r) && ExecutionIds(run)
    requires forall i :: i in xs ==> IsOpen(run, i)
    ensures ExecutionIds(r)
  {
    forall j | j in run.nodes
      ensures HasExecution(r, j) ==> r.nodes[j].execution.value < r.nextExecution
      ensures r.nodes[j].status == Running ==> HasExecution(r, j)
      ensures IsOpen(r, j) ==> !HasExecution(r, j)
    {
      StartedRow(run, xs, faults, r, j);
    }
    forall j, k | HasExecution(r, j) && HasExecution(r, k) && r.nodes[j].execution == r.nodes[k].execution
      ensures j == k
    {
      StartedRow(run, xs, faults, r, j);
      StartedRow(run, xs, faults, r, k);
    }
  }

  lemma StartKeepsLog(run: Run, xs: seq<JobId>, faults: Faults, r: Run)
    requires StartEffect(run, xs, faults, r) && ExecutionIds(run) && StartLog(run)
    requires NoDuplicates(Launched(xs, faults))
    requires forall j :: j in Launched(xs, faults) <==> j in xs && !Blocked(faults, j)
    requires forall i :: i in xs ==> IsOpen(run, i)
    ensures StartLog(r)
  {
    var launched := Launched(xs, faults);
    forall j ensures j in r.started <==> HasExecution(r, j) {
      if j in run.nodes {
        StartedRow(run, xs, faults, r, j);
      } else {
        assert j in xs ==> IsOpen(run, j);
      }
    }
    forall i, k | 0 <= i < k < |r.started| ensures r.started[i] != r.started[k] {
      if i < |run.started| <= k {
        assert r.started[i] in run.started && r.started[k] in launched;
        assert IsOpen(run, r.started[k]);
      }
    }
  }

  lemma AdvanceKeepsIds(cfg: Config, run: Run, faults: Faults)
    requires Shape(cfg, run) && ExecutionIds(run) && StartLog(run)
    ensures var r := Advance(cfg, run, faults); Shape(cfg, r) && ExecutionIds(r) && StartLog(r)
  {
    AdvanceEffect(cfg, run, faults);
    StartKeepsIds(run, Chosen(cfg, run), faults, Advance(cfg, run, faults));
    StartKeepsLog(run, Chosen(cfg, run), faults, Advance(cfg, run, faults));
  }

  lemma SequenceAsSet(s: seq<JobId>, t: set<JobId>)
    requires NoDuplicates(s) && forall j :: j in t <==> j in s
    ensures |t| == |s|
  {
    EnumerationSize(s, t);
  }

  lemma AdvanceRunning(cfg: Config, run: Run, faults: Faults)
    requires Shape(cfg, run)
    ensures var r, launched := Advance(cfg, run, faults), Launched(Chosen(cfg, run), faults);
            && RunningJobs(run) <= RunningJobs(r)
            && (forall j :: j in RunningJobs(r) <==> j in RunningJobs(run) || j in launched)
            && |RunningJobs(r)| == |RunningJobs(run)| + |launched|
  {
    AdvanceEffect(cfg, run, faults);
    StartRunning(run, Chosen(cfg, run), faults, Advance(cfg, run, faults));
  }

  lemma StartRunning(run: Run, xs: seq<JobId>, faults: Faults, r: Run)
    requires StartEffect(run, xs, faults, r) && forall i :: i in xs ==> IsOpen(run, i)
    requires NoDuplicates(Launched(xs, faults))
    requires forall j :: j in Launched(xs, faults) <==> j in xs && !Blocked(faults, j)
    ensures RunningJobs(run) <= RunningJobs(r)
    ensures forall j :: j in RunningJobs(r) <==> j in RunningJobs(run) || j in Launched(xs, faults)
    ensures |RunningJobs(r)| == |RunningJobs(run)| + |Launched(xs, faults)|
  {
    var added := set j | j in Launched(xs, faults);
    SequenceAsSet(Launched(xs, faults), added);
    StartedSets(run, xs, faults, r, added);
  }

  lemma StartedSets(run: Run, xs: seq<JobId>, faults: Faults, r: Run, added: set<JobId>)
    requires StartEffect(run, xs, faults, r) && forall i :: i in xs ==> IsOpen(run, i)
    requires forall j :: j in added <==> j in xs && !Blocked(faults, j)
    ensures RunningJobs(r) == RunningJobs(run) + added && |RunningJobs(r)| == |RunningJobs(run)| + |added|
  {
    forall j ensures j in RunningJobs(r) <==> j in RunningJobs(run) || j in added {
      StartedRunning(run, xs, faults, r, j);
    }
    forall j | j in added ensures j !in RunningJobs(run) {
      assert IsOpen(run, j);
    }
    assert RunningJobs(r) == RunningJobs(run) + added;
  }

  lemma StartedRunning(run: Run, xs: seq<JobId>, faults: Faults, r: Run, j: JobId)
    requires StartEffect(run, xs, faults, r) && forall i :: i in xs ==> IsOpen(run, i)
    ensures j in RunningJobs(r) <==> j in RunningJobs(run) || (j in xs && !Blocked(faults, j))
  {
    if j in run.nodes {
      assert RowEffect(run, xs, faults, r, j);
    } else {
      assert j in xs ==> IsOpen(run, j);
    }
  }

  // The number of running nodes never exceeds max_concurrent_nodes.
  lemma AdvanceKeepsBound(cfg: Config, run: Run, faults: Faults)
    requires Shape(cfg, run) && WithinBound(cfg, run)
    ensures WithinBound(cfg, Advance(cfg, run, faults))
  {
    AdvanceEffect(cfg, run, faults);
    AdvanceRunning(cfg, run, faults);
  }

  // And no slot is left idle: if every chosen node could be launched, then afterwards the bound is
  // reached or everything the snapshot allowed to start is running.
  lemma AdvanceConservesWork(cfg: Config, run: Run, faults: Faults)
    requires Shape(cfg, run) && forall j :: j in Chosen(cfg, run) ==> !Blocked(faults, j)
    ensures var r := Advance(cfg, run, faults);
            |RunningJobs(r)| >= cfg.maxConcurrent || forall j :: Eligible(cfg, run, j) ==> j in RunningJobs(r)
  {
    AdvanceEffect(cfg, run, faults);
    AdvanceRunning(cfg, run, faults);
    var xs := Chosen(cfg, run);
    EnumerationSize(Launched(xs, faults), set j | j in xs);
    EnumerationSize(xs, set j | j in xs);
  }

  lemma ReadyHasSettledUpstreams(cfg: Config, run: Run, u: JobId, v: JobId)
    requires IsNodeReady(cfg.edges, run.nodes, v) && HasEdge(cfg.edges, u, v)
    ensures Settled(run, u)
  {
    var e :| e in cfg.edges && e.upstream == u && e.downstream == v;
  }

  lemma StartKeepsClosed(cfg: Config, run: Run, xs: seq<JobId>, faults: Faults, r: Run)
    requires StartEffect(run, xs, faults, r) && ExecutionIds(run) && Closed(cfg, run)
    requires forall i :: i in xs ==> IsOpen(run, i) && IsNodeReady(cfg.edges, run.nodes, i)
    ensures Closed(cfg, r)
  {
    forall u, v | v in r.nodes && !IsOpen(r, v) && HasEdge(cfg.edges, u, v) ensures Settled(r, u) {
      if IsOpen(run, v) {
        assert RowEffect(run, xs, faults, r, v);
        ReadyHasSettledUpstreams(cfg, run, u, v);
      }
      assert Settled(run, u);
      StartedRow(run, xs, faults, r, u);
    }
  }

  lemma AdvanceKeepsClosed(cfg: Config, run: Run, faults: Faults)
    requires Shape(cfg, run) && ExecutionIds(run) && Closed(cfg, run)
    ensures Closed(cfg, Advance(cfg, run, faults))
  {
    AdvanceEffect(cfg, run, faults);
    StartKeepsClosed(cfg, run, Chosen(cfg, run), faults, Advance(cfg, run, faults));
  }

  lemma NonemptyHasMember<T>(s: seq<T>)
    ensures s != [] ==> exists x :: x in s
  {
    if s != [] { assert s[0] in s; }
  }

  lemma FrozenStays(cfg: Config, run: Run, faults: Faults)
    requires Shape(cfg, run) && Frozen(run)
    ensures Advance(cfg, run, faults) == run
  {
    AdvanceEffect(cfg, run, faults);
    var xs := Chosen(cfg, run);
    NonemptyHasMember(xs);
  }

  lemma {:induction false} ClosedAlongWalk(cfg: Config, run: Run, p: seq<JobId>)
    requires Closed(cfg, run) && IsWalk(cfg.edges, p) && |p| >= 2
    requires p[|p| - 1] in run.nodes && !IsOpen(run, p[|p| - 1])
    ensures Settled(run, p[0])
  {
    assert Link(cfg.edges, p, |p| - 2);
    if |p| > 2 {
      SubWalk(cfg.edges, p, 0, |p| - 2);
      assert p[0..|p| - 1] == p[..|p| - 1];
      ClosedAlongWalk(cfg, run, p[..|p| - 1]);
    }
  }

  lemma ClosedSettlesAncestors(cfg: Config, run: Run)
    requires Closed(cfg, run) && ExecutionIds(run)
    ensures AncestorsSettled(cfg, run)
  {
    forall u, v | HasExecution(run, v) && Ancestor(cfg.edges, u, v) ensures Settled(run, u) {
      var p :| IsWalkFromTo(cfg.edges, p, u, v) && |p| >= 2;
      ClosedAlongWalk(cfg, run, p);
    }
  }

  lemma AdvanceKeepsStartOrder(cfg: Config, run: Run, faults: Faults)
    requires Shape(cfg, run) && StartsInOrder(cfg, run)
    requires StartLog(Advance(cfg, run, faults)) && AncestorsSettled(cfg, Advance(cfg, run, faults))
    ensures StartsInOrder(cfg, Advance(cfg, run, faults))
  {
    AdvanceEffect(cfg, run, faults);
    var r, xs := Advance(cfg, run, faults), Chosen(cfg, run);
    forall i, k | 0 <= i < k < |r.started| ensures !Ancestor(cfg.edges, r.started[k], r.started[i]) {
      if k >= |run.started| {
        assert r.started[k] in Launched(xs, faults);
        assert Fresh(run, r, r.started[k]);
        assert r.started[i] in r.started;
      }
    }
  }

  lemma AdvanceKeepsSafe(cfg: Config, run: Run, faults: Faults)
    requires Safe(cfg, run)
    ensures Safe(cfg, Advance(cfg, run, faults))
  {
    if Frozen(run) {
      FrozenStays(cfg, run, faults);
    } else {
      AdvanceKeepsIds(cfg, run, faults);
      AdvanceKeepsBound(cfg, run, faults);
      AdvanceKeepsClosed(cfg, run, faults);
      ClosedSettlesAncestors(cfg, Advance(cfg, run, faults));
      AdvanceKeepsStartOrder(cfg, run, faults);
    }
  }

  // ---- the other steps keep it ----

  // A step that only settles nodes: it starts none, keeps every execution id, and unsettles none.
  ghost predicate OnlySettles(run: Run, r: Run) {
    && r.order == run.order && r.nodes.Keys == run.nodes.Keys && r.total == run.total
    && r.started == run.started && r.nextExecution == run.nextExecution && r.submitted == run.submitted
    && forall j :: j in run.nodes ==>
         && r.nodes[j].execution == run.nodes[j].execution
         && (r.nodes[j] == run.nodes[j] || Terminal(r.nodes[j].status))
  }

  // Either everything open was settled, or nothing open was touched.
  ghost predicate AllOrNoneOpen(run: Run, r: Run) { Frozen(r) || forall j :: IsOpen(run, j) ==> IsOpen(r, j) }

  lemma SettlingKeepsIds(run: Run, r: Run)
    requires ExecutionIds(run) && StartLog(run) && OnlySettles(run, r)
    ensures ExecutionIds(r) && StartLog(r)
  {
    assert forall j :: HasExecution(r, j) <==> HasExecution(run, j);
    assert forall j :: IsOpen(r, j) ==> IsOpen(run, j);
  }

  lemma SettlingKeepsRows(cfg: Config, run: Run, r: Run)
    requires Shape(cfg, run) && ExecutionIds(run) && StartLog(run) && WithinBound(cfg, run) && OnlySettles(run, r)
    ensures Shape(cfg, r) && ExecutionIds(r) && StartLog(r) && WithinBound(cfg, r)
  {
    SubsetSize(RunningJobs(r), RunningJobs(run));
    SettlingKeepsIds(run, r);
  }

  lemma SettlingKeepsSafe(cfg: Config, run: Run, r: Run)
    requires Safe(cfg, run) && OnlySettles(run, r) && AllOrNoneOpen(run, r)
    ensures Safe(cfg, r)
  {
    SettlingKeepsRows(cfg, run, r);
    SettlingKeepsOrder(cfg, run, r);
  }

  lemma SettlingKeepsOrder(cfg: Config, run: Run, r: Run)
    requires Frozen(run) || Closed(cfg, run)
    requires AncestorsSettled(cfg, run) && StartsInOrder(cfg, run) && OnlySettles(run, r) && AllOrNoneOpen(run, r)
    ensures (Frozen(r) || Closed(cfg, r)) && AncestorsSettled(cfg, r) && StartsInOrder(cfg, r)
  {
    assert forall j :: HasExecution(r, j) ==> HasExecution(run, j);
    assert forall j :: Settled(run, j) ==> Settled(r, j);
    assert forall j :: IsOpen(r, j) ==> IsOpen(run, j);
  }

  lemma SettleIs(run: Run, job: JobId, status: NodeStatus)
    requires job in run.nodes && !IsOpen(run, job) && Terminal(status)
    ensures OnlySettles(run, Settle(run, job, status)) && AllOrNoneOpen(run, Settle(run, job, status))
    ensures forall j :: IsOpen(run, j) <==> IsOpen(Settle(run, job, status), j)
  {}

  lemma StopIs(run: Run)
    ensures OnlySettles(run, StopRun(run)) && Frozen(StopRun(run))
    ensures Stops(run, StopRun(run))
  {
    if RunningJobs(run) == {} {
      forall j | j in run.nodes ensures j in SettledJobs(SkipOpen(run)) {
        assert j !in RunningJobs(run);
      }
      assert SettledJobs(SkipOpen(run)) == run.nodes.Keys;
    }
  }

  // Whatever had not started is skipped; if nothing runs, the run has failed, with every node counted as completed.
  ghost predicate Stops(run: Run, r: Run) {
    && r == run.(nodes := r.nodes, status := r.status, completed := r.completed) && r.nodes.Keys == run.nodes.Keys
    && (forall j :: j in run.nodes ==>
          r.nodes[j] == if run.nodes[j].status in {Waiting, Ready} then run.nodes[j].(status := Skipped)
                        else run.nodes[j])
    && (r.status, r.completed) == if exists j :: j in run.nodes && run.nodes[j].status == Running
                                  then (run.status, run.completed) else (RunFailed, |run.nodes|)
  }

  lemma CancelIs(run: Run)
    ensures OnlySettles(run, CancelAll(run)) && Frozen(CancelAll(run)) && RunningJobs(CancelAll(run)) == {}
    ensures Cancels(run, CancelAll(run))
  {}

  // Whatever was not terminal is cancelled and keeps its execution; the rest and the counters stay.
  ghost predicate Cancels(run: Run, r: Run) {
    && r == run.(nodes := r.nodes, status := RunCancelled) && r.nodes.Keys == run.nodes.Keys
    && forall j :: j in run.nodes ==>
         r.nodes[j] == if run.nodes[j].status in {Waiting, Ready, Running}
                       then NodeRow(Cancelled, run.nodes[j].execution) else run.nodes[j]
  }

  lemma FinishIs(run: Run)
    ensures OnlySettles(run, FinishIfDone(run)) && FinishIfDone(run).nodes == run.nodes
    ensures AllOrNoneOpen(run, FinishIfDone(run))
  {}

  lemma SubsetSize<T>(a: set<T>, b: set<T>)
    requires a <= b
    ensures |a| <= |b|
  {
    assert b == a + (b - a);
  }

  lemma {:induction false} FindNodeIs(run: Run, order: seq<JobId>, execution: nat)
    ensures var f := FindNode(run, order, execution);
            && (f.Some? ==>
                  f.value in order && HasExecution(run, f.value) && run.nodes[f.value].execution == Some(execution))
            && (f.None? ==> forall j :: j in order && HasExecution(run, j) ==>
                 run.nodes[j].execution != Some(execution))
  {
    if order != [] {
      FindNodeIs(run, order[1..], execution);
    }
  }

  lemma StepKeepsSafe(cfg: Config, run: Run, event: Event)
    requires Safe(cfg, run)
    ensures Safe(cfg, Apply(cfg, run, event))
  {
    match event {
      case Cancellation =>
        CancelIs(run);
        if Cancellable(run) { SettlingKeepsSafe(cfg, run, CancelAll(run)); }
      case Completion(x, reported, faults) =>
        FindNodeIs(run, run.order, x);
        var node := FindNode(run, run.order, x);
        if node.Some? && reported.Some? {
          CompleteKeepsSafe(cfg, run, node.value, Outcome(reported.value), faults);
        }
    }
  }

  lemma CompleteKeepsSafe(cfg: Config, run: Run, job: JobId, status: NodeStatus, faults: Faults)
    requires Safe(cfg, run) && HasExecution(run, job) && Terminal(status)
    ensures Safe(cfg, CompleteNode(cfg, run, job, status, faults))
  {
    var settled := Settle(run, job, status);
    SettleIs(run, job, status);
    SettlingKeepsSafe(cfg, run, settled);
    if IsFailure(status) && cfg.onFailure == "stop" {
      StopIs(settled);
      SettlingKeepsSafe(cfg, settled, StopRun(settled));
    } else {
      AdvanceKeepsSafe(cfg, settled, faults);
      var advanced := Advance(cfg, settled, faults);
      FinishIs(advanced);
      SettlingKeepsSafe(cfg, advanced, FinishIfDone(advanced));
    }
  }

  lemma TriggerIsSafe(cfg: Config, order: seq<JobId>, nextExecution: nat, faults: Faults)
    requires cfg.startable <= {Waiting, Ready} && Enumerates(order, Nodes(cfg.edges))
    ensures Safe(cfg, Triggered(cfg, order, nextExecution, faults))
  {
    AdvanceKeepsSafe(cfg, Created(cfg.edges, order, nextExecution), faults);
  }

  // ---- over whole runs ----

  lemma {:induction false} SafeAlways(cfg: Config, run: Run, events: seq<Event>)
    requires Safe(cfg, run)
    ensures Safe(cfg, After(cfg, run, events))
  {
    if events != [] {
      SafeAlways(cfg, run, events[..|events| - 1]);
      StepKeepsSafe(cfg, After(cfg, run, events[..|events| - 1]), events[|events| - 1]);
    }
  }

  // A state that some triggered run gets to.
  ghost predicate Reachable(cfg: Config, run: Run) {
    exists order, nextExecution, faults, events ::
      Enumerates(order, Nodes(cfg.edges)) && run == After(cfg, Triggered(cfg, order, nextExecution, faults), events)
  }

  lemma ReachableIsSafe(cfg: Config, run: Run)
    requires cfg.startable <= {Waiting, Ready} && Reachable(cfg, run)
    ensures Safe(cfg, run)
  {
    var order, nextExecution, faults, events :|
      Enumerates(order, Nodes(cfg.edges)) && run == After(cfg, Triggered(cfg, order, nextExecution, faults), events);
    TriggerIsSafe(cfg, order, nextExecution, faults);
    SafeAlways(cfg, Triggered(cfg, order, nextExecution, faults), events);
  }

  // Dependency order: in every reachable state whatever holds an execution has only settled
  // transitive upstreams, and the start sequence is a linear extension of the edges.
  lemma DependencyOrder(cfg: Config, run: Run)
    requires cfg.startable <= {Waiting, Ready} && Reachable(cfg, run)
    ensures forall u, v :: HasExecution(run, v) && Ancestor(cfg.edges, u, v) ==> Settled(run, u)
    ensures forall i, k :: 0 <= i < k < |run.started| ==> !Ancestor(cfg.edges, run.started[k], run.started[i])
  {
    ReachableIsSafe(cfg, run);
  }

  // Concurrency bound and single start, in every reachable state.
  lemma BoundedConcurrency(cfg: Config, run: Run)
    requires cfg.startable <= {Waiting, Ready} && Reachable(cfg, run)
    ensures cfg.maxConcurrent >= 0 ==> |RunningJobs(run)| <= cfg.maxConcurrent
    ensures NoDuplicates(run.started) && forall j :: j in run.started <==> HasExecution(run, j)
    ensures forall j, k :: HasExecution(run, j) && HasExecution(run, k) && j != k ==>
              run.nodes[j].execution != run.nodes[k].execution
  {
    ReachableIsSafe(cfg, run);
  }

  // ---- terminal nodes and execution ids last; under `stop` a failure freezes the run ----

  // What a run never loses.
  ghost predicate Lasts(run: Run, r: Run) {
    && (forall j :: Settled(run, j) ==> Settled(r, j))
    && (forall j :: HasExecution(run, j) ==> HasExecution(r, j) && r.nodes[j].execution == run.nodes[j].execution)
    && run.started <= r.started
    && (Frozen(run) ==> Frozen(r) && r.started == run.started && RunningJobs(r) <= RunningJobs(run))
  }

  lemma SettlingLasts(run: Run, r: Run)
    requires OnlySettles(run, r)
    ensures Lasts(run, r)
  {
    assert forall j :: IsOpen(r, j) ==> IsOpen(run, j);
  }

  lemma StartLasts(run: Run, xs: seq<JobId>, faults: Faults, r: Run)
    requires StartEffect(run, xs, faults, r) && ExecutionIds(run) && !Frozen(run)
    requires forall i :: i in xs ==> IsOpen(run, i)
    ensures Lasts(run, r)
  {
    forall j | j in run.nodes
      ensures Settled(run, j) ==> Settled(r, j)
      ensures HasExecution(run, j) ==> r.nodes[j] == run.nodes[j]
    {
      StartedRow(run, xs, faults, r, j);
    }
  }

  lemma AdvanceLasts(cfg: Config, run: Run, faults: Faults)
    requires Shape(cfg, run) && ExecutionIds(run)
    ensures Lasts(run, Advance(cfg, run, faults))
  {
    if Frozen(run) {
      FrozenStays(cfg, run, faults);
    } else {
      AdvanceEffect(cfg, run, faults);
      StartLasts(run, Chosen(cfg, run), faults, Advance(cfg, run, faults));
    }
  }

  lemma LastsTransitive(a: Run, b: Run, c: Run)
    requires Lasts(a, b) && Lasts(b, c)
    ensures Lasts(a, c)
  {}

  // Terminal nodes stay terminal and execution ids are never reassigned, whatever the step.
  lemma StepLasts(cfg: Config, run: Run, event: Event)
    requires Safe(cfg, run)
    ensures Lasts(run, Apply(cfg, run, event))
  {
    match event {
      case Cancellation =>
        CancelIs(run);
        SettlingLasts(run, CancelAll(run));
      case Completion(x, reported, faults) =>
        FindNodeIs(run, run.order, x);
        var node := FindNode(run, run.order, x);
        if node.Some? && reported.Some? {
          CompleteLasts(cfg, run, node.value, Outcome(reported.value), faults);
        }
    }
  }

  lemma CompleteLasts(cfg: Config, run: Run, job: JobId, status: NodeStatus, faults: Faults)
    requires Safe(cfg, run) && HasExecution(run, job) && Terminal(status)
    ensures Lasts(run, CompleteNode(cfg, run, job, status, faults))
  {
    var settled := Settle(run, job, status);
    SettleIs(run, job, status);
    SettlingLasts(run, settled);
    if IsFailure(status) && cfg.onFailure == "stop" {
      StopIs(settled);
      SettlingLasts(settled, StopRun(settled));
      LastsTransitive(run, settled, StopRun(settled));
    } else {
      SettlingKeepsRows(cfg, run, settled);
      var advanced := Advance(cfg, settled, faults);
      AdvanceLasts(cfg, settled, faults);
      FinishIs(advanced);
      SettlingLasts(advanced, FinishIfDone(advanced));
      LastsTransitive(settled, advanced, FinishIfDone(advanced));
      LastsTransitive(run, settled, FinishIfDone(advanced));
    }
  }

  lemma StopFreezes(run: Run, job: JobId, status: NodeStatus)
    requires job in run.nodes && Terminal(status)
    ensures var stopped := StopRun(Settle(run, job, status));
            Frozen(stopped) && stopped.started == run.started && RunningJobs(stopped) <= RunningJobs(run) - {job}
  {
    StopIs(Settle(run, job, status));
  }

  lemma {:induction false} LastsForever(cfg: Config, run: Run, events: seq<Event>)
    requires Safe(cfg, run)
    ensures Lasts(run, After(cfg, run, events))
  {
    if events != [] {
      LastsForever(cfg, run, events[..|events| - 1]);
      SafeAlways(cfg, run, events[..|events| - 1]);
      StepLasts(cfg, After(cfg, run, events[..|events| - 1]), events[|events| - 1]);
    }
  }

  // Stop policy: after a failed or cancelled completion no later step ever starts a node.
  lemma StopPolicyFreezes(cfg: Config, run: Run, job: JobId, reported: string, faults: Faults, events: seq<Event>)
    requires Safe(cfg, run) && cfg.onFailure == "stop"
    requires HasExecution(run, job) && reported != "success"
    ensures var stopped := Complete(cfg, run, run.nodes[job].execution.value, Some(reported), faults);
            && After(cfg, stopped, events).started == run.started
            && RunningJobs(After(cfg, stopped, events)) <= RunningJobs(run) - {job}
  {
    var execution := run.nodes[job].execution.value;
    FindNodeIs(run, run.order, execution);
    assert FindNode(run, run.order, execution) == Some(job);
    var stopped := Complete(cfg, run, execution, Some(reported), faults);
    CompleteKeepsSafe(cfg, run, job, Outcome(reported), faults);
    StopFreezes(run, job, Outcome(reported));
    LastsForever(cfg, stopped, events);
  }

  // ---- what the queue is handed ----

  // Each submitted execution is held by a node, and submitted once.
  ghost predicate SubmittedOnce(run: Run) {
    NoDuplicates(run.submitted) && forall x :: x in run.submitted ==> x < run.nextExecution && HeldByNode(run, x)
  }

  ghost predicate AllSubmitted(run: Run) {
    forall j :: HasExecution(run, j) ==> run.nodes[j].execution.value in run.submitted
  }

  // The step takes no submission back, and loses none.
  ghost predicate Submits(run: Run, r: Run, lossless: bool) {
    && run.submitted <= r.submitted
    && (SubmittedOnce(run) ==> SubmittedOnce(r)) && (lossless && AllSubmitted(run) ==> AllSubmitted(r))
  }

  lemma HeldStays(run: Run, r: Run, x: nat)
    requires HeldByNode(run, x) && forall j :: HasExecution(run, j) ==>
               HasExecution(r, j) && r.nodes[j].execution == run.nodes[j].execution
    ensures HeldByNode(r, x)
  {
    var j :| HasExecution(run, j) && run.nodes[j].execution == Some(x);
    assert HasExecution(r, j) && r.nodes[j].execution == Some(x);
  }

  lemma AppendedOnce(s: seq<nat>, x: nat)
    requires NoDuplicates(s) && x !in s
    ensures NoDuplicates(s + [x])
  {}

  lemma StartOneSubmits(run: Run, job: JobId, faults: Faults)
    requires job in run.nodes && !HasExecution(run, job)
    ensures Submits(run, StartOne(run, job, faults), faults.failedEnqueues == {})
  {
    var r := StartOne(run, job, faults);
    if !Blocked(faults, job) {
      assert HasExecution(r, job) && r.nodes[job].execution == Some(run.nextExecution);
      if SubmittedOnce(run) { AppendedOnce(run.submitted, run.nextExecution); }
      forall x | HeldByNode(run, x) ensures HeldByNode(r, x) { HeldStays(run, r, x); }
      assert forall j :: HasExecution(r, j) && j != job ==> HasExecution(run, j) && r.nodes[j] == run.nodes[j];
    } else {
      forall x | HeldByNode(run, x) ensures HeldByNode(r, x) { HeldStays(run, r, x); }
      assert forall j :: HasExecution(r, j) <==> HasExecution(run, j);
    }
  }

  lemma {:induction false} StartAllSubmits(run: Run, xs: seq<JobId>, faults: Faults)
    requires NoDuplicates(xs) && forall j :: j in xs ==> j in run.nodes && !HasExecution(run, j)
    ensures Submits(run, StartAll(run, xs, faults), faults.failedEnqueues == {})
  {
    if xs != [] {
      var front, x := xs[..|xs| - 1], xs[|xs| - 1];
      assert xs == front + [x] && x !in front;
      StartAllSubmits(run, front, faults);
      StartAllEffect(run, front, faults);
      assert RowEffect(run, front, faults, StartAll(run, front, faults), x);
      StartOneSubmits(StartAll(run, front, faults), x, faults);
    }
  }

  lemma AdvanceSubmits(cfg: Config, run: Run, faults: Faults)
    requires Shape(cfg, run) && ExecutionIds(run)
    ensures Submits(run, Advance(cfg, run, faults), faults.failedEnqueues == {})
  {
    AdvanceEffect(cfg, run, faults);
    StartAllSubmits(run, Chosen(cfg, run), faults);
  }

  lemma SettlingSubmits(run: Run, r: Run)
    requires OnlySettles(run, r)
    ensures Submits(run, r, true)
  {
    forall x | HeldByNode(run, x) ensures HeldByNode(r, x) { HeldStays(run, r, x); }
    assert forall j :: HasExecution(r, j) ==> HasExecution(run, j) && r.nodes[j].execution == run.nodes[j].execution;
  }

  predicate Lossless(event: Event) { event.Completion? ==> event.faults.failedEnqueues == {} }

  lemma StepSubmits(cfg: Config, run: Run, event: Event)
    requires Safe(cfg, run)
    ensures Submits(run, Apply(cfg, run, event), Lossless(event))
  {
    match event {
      case Cancellation =>
        CancelIs(run);
        SettlingSubmits(run, CancelAll(run));
      case Completion(x, reported, faults) =>
        FindNodeIs(run, run.order, x);
        var node := FindNode(run, run.order, x);
        if node.Some? && reported.Some? {
          CompleteSubmits(cfg, run, node.value, Outcome(reported.value), faults);
        }
    }
  }

  lemma CompleteSubmits(cfg: Config, run: Run, job: JobId, status: NodeStatus, faults: Faults)
    requires Safe(cfg, run) && HasExecution(run, job) && Terminal(status)
    ensures Submits(run, CompleteNode(cfg, run, job, status, faults), faults.failedEnqueues == {})
  {
    var settled := Settle(run, job, status);
    SettleIs(run, job, status);
    SettlingSubmits(run, settled);
    if IsFailure(status) && cfg.onFailure == "stop" {
      StopIs(settled);
      SettlingSubmits(settled, StopRun(settled));
    } else {
      SettlingKeepsRows(cfg, run, settled);
      AdvanceSubmits(cfg, settled, faults);
      FinishIs(Advance(cfg, settled, faults));
      SettlingSubmits(Advance(cfg, settled, faults), FinishIfDone(Advance(cfg, settled, faults)));
    }
  }

  // In every reachable state the queue was handed only executions that a node holds, each once; and if it refused
  // none, it was handed all of them.
  lemma {:induction false} SubmissionsAlways(cfg: Config, order: seq<JobId>, nextExecution: nat, faults: Faults,
                                             events: seq<Event>)
    requires cfg.startable <= {Waiting, Ready} && Enumerates(order, Nodes(cfg.edges))
    ensures var run := After(cfg, Triggered(cfg, order, nextExecution, faults), events);
            && SubmittedOnce(run)
            && (faults.failedEnqueues == {} && (forall e :: e in events ==> Lossless(e)) ==> AllSubmitted(run))
  {
    var first := Triggered(cfg, order, nextExecution, faults);
    if events == [] {
      AdvanceSubmits(cfg, Created(cfg.edges, order, nextExecution), faults);
    } else {
      var front, event := events[..|events| - 1], events[|events| - 1];
      assert events == front + [event];
      SubmissionsAlways(cfg, order, nextExecution, faults, front);
      TriggerIsSafe(cfg, order, nextExecution, faults);
      SafeAlways(cfg, first, front);
      StepSubmits(cfg, After(cfg, first, front), event);
    }
  }
}
