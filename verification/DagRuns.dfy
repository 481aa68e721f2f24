/** One DAG run as a value, and what each call of the DAG engine does to it
    (src/dag/engine.rs). Each call is one atomic step. */
module DagRuns {
  import opened Wrappers
  import opened Graphs

  datatype NodeStatus = Waiting | Ready | Running | Success | Failed | Skipped | Cancelled

  datatype RunStatus = Pending | InProgress | Succeeded | RunFailed | Partial | RunCancelled

  datatype NodeRow = NodeRow(status: NodeStatus, execution: Option<nat>)

  // `startable` is the set of statuses that the advance step looks at. The code has {Waiting};
  // its comments and the README intend ready roots to start as well.
  datatype Config = Config(edges: seq<DagEdge>, maxConcurrent: int, onFailure: string, startable: set<NodeStatus>)

  // `order` is the creation order of the node rows; `started` lists the nodes by started_at;
  // execution ids come from a counter, which makes them fresh; `submitted` are those the queue accepted.
  datatype Run = Run(order: seq<JobId>, nodes: map<JobId, NodeRow>, status: RunStatus, total: int, completed: int,
                     failed: int, nextExecution: nat, started: seq<JobId>, submitted: seq<nat>)

  // The jobs whose lookup fails, those whose execution cannot be created, and those whose execution the queue
  // refuses, during one call.
  datatype Faults = Faults(missingJobs: set<JobId>, failedCreations: set<JobId>, failedEnqueues: set<JobId>)

  const NO_FAULTS := Faults({}, {}, {})

  predicate Terminal(s: NodeStatus) { s != Waiting && s != Ready && s != Running }

  predicate Open(s: NodeStatus) { s == Waiting || s == Ready }

  function RunningJobs(run: Run): (r: set<JobId>)
    ensures r <= run.nodes.Keys
  {
    set j | j in run.nodes && run.nodes[j].status == Running
  }

  function SettledJobs(run: Run): (r: set<JobId>)
    ensures r <= run.nodes.Keys
  {
    set j | j in run.nodes && Terminal(run.nodes[j].status)
  }

  // ---- readiness ----

  predicate Satisfied(condition: string, upstream: NodeStatus) {
    if condition == "failure" then upstream == Failed
    else if condition == "always" then Terminal(upstream)
    else if condition == "skipped" then upstream == Skipped
    else upstream == Success
  }

  predicate IsNodeReady(edges: seq<DagEdge>, nodes: map<JobId, NodeRow>, job: JobId) {
    forall e :: e in edges && e.downstream == job ==>
      e.upstream in nodes && Satisfied(e.condition, nodes[e.upstream].status)
  }

  predicate IsRoot(edges: seq<DagEdge>, job: JobId) {
    forall e :: e in edges ==> e.downstream != job
  }

  predicate Eligible(cfg: Config, run: Run, job: JobId) {
    job in run.nodes && run.nodes[job].status in cfg.startable && IsNodeReady(cfg.edges, run.nodes, job)
  }

  // The first `slots` eligible jobs of xs, judged by one snapshot.
  function Select(cfg: Config, run: Run, xs: seq<JobId>, slots: nat): seq<JobId> {
    if xs == [] || slots == 0 then []
    else if Eligible(cfg, run, xs[0]) then [xs[0]] + Select(cfg, run, xs[1..], slots - 1)
    else Select(cfg, run, xs[1..], slots)
  }

  // ---- advance ----

  predicate Blocked(faults: Faults, job: JobId) {
    job in faults.missingJobs || job in faults.failedCreations
  }

  function StartOne(run: Run, job: JobId, faults: Faults): (r: Run)
    requires job in run.nodes
    ensures r.nodes.Keys == run.nodes.Keys
  {
    if Blocked(faults, job) then run.(nodes := run.nodes[job := run.nodes[job].(status := Failed)])
    else run.(nodes := run.nodes[job := NodeRow(Running, Some(run.nextExecution))],
              nextExecution := run.nextExecution + 1,
              started := run.started + [job],
              submitted := run.submitted + if job in faults.failedEnqueues then [] else [run.nextExecution])
  }

  function StartAll(run: Run, xs: seq<JobId>, faults: Faults): (r: Run)
    requires forall j :: j in xs ==> j in run.nodes
    ensures r.nodes.Keys == run.nodes.Keys
  {
    if xs == [] then run else
      StartOne(StartAll(run, xs[..|xs| - 1], faults), xs[|xs| - 1], faults)
  }

  function Slots(cfg: Config, run: Run): nat {
    var free := cfg.maxConcurrent - |RunningJobs(run)|;
    if free < 0 then 0 else free
  }

  function Chosen(cfg: Config, run: Run): seq<JobId> { Select(cfg, run, run.order, Slots(cfg, run)) }

  function Advance(cfg: Config, run: Run, faults: Faults): (r: Run)
    ensures r.nodes.Keys == run.nodes.Keys
  {
    SelectedAre(cfg, run, run.order, Slots(cfg, run));
    StartAll(run, Chosen(cfg, run), faults)
  }

  lemma SelectedAre(cfg: Config, run: Run, xs: seq<JobId>, slots: nat)
    ensures var s := Select(cfg, run, xs, slots);
            |s| <= slots && forall j :: j in s ==> j in xs && Eligible(cfg, run, j)
  {}

  // ---- trigger ----

  function Created(edges: seq<DagEdge>, order: seq<JobId>, nextExecution: nat): Run {
    var nodes := map j | j in order :: NodeRow(if IsRoot(edges, j) then Ready else Waiting, None);
    Run(order, nodes, InProgress, |order|, 0, 0, nextExecution, [], [])
  }

  function Triggered(cfg: Config, order: seq<JobId>, nextExecution: nat, faults: Faults): Run {
    Advance(cfg, Created(cfg.edges, order, nextExecution), faults)
  }

  // ---- completion ----

  function Outcome(reported: string): NodeStatus {
    if reported == "success" then Success else if reported == "cancelled" then Cancelled else Failed
  }

  predicate IsFailure(s: NodeStatus) { s == Failed || s == Cancelled }

  // SELECT ... WHERE execution_id = ?
  function FindNode(run: Run, order: seq<JobId>, execution: nat): Option<JobId> {
    if order == [] then None
    else if order[0] in run.nodes && run.nodes[order[0]].execution == Some(execution) then Some(order[0])
    else FindNode(run, order[1..], execution)
  }

  function Settle(run: Run, job: JobId, status: NodeStatus): (r: Run)
    requires job in run.nodes
    ensures r.nodes.Keys == run.nodes.Keys
  {
    run.(nodes := run.nodes[job := run.nodes[job].(status := status)],
         completed := run.completed + 1,
         failed := run.failed + if IsFailure(status) then 1 else 0)
  }

  function SkipRow(row: NodeRow): NodeRow { if Open(row.status) then row.(status := Skipped) else row }

  function CancelRow(row: NodeRow): NodeRow { if Terminal(row.status) then row else row.(status := Cancelled) }

  function SkipOpen(run: Run): (r: Run)
    ensures r.nodes.Keys == run.nodes.Keys
  {
    run.(nodes := map j | j in run.nodes :: SkipRow(run.nodes[j]))
  }

  function StopRun(run: Run): (r: Run)
    ensures r.nodes.Keys == run.nodes.Keys
  {
    if RunningJobs(run) != {} then SkipOpen(run)
    else SkipOpen(run).(status := RunFailed, completed := |SettledJobs(SkipOpen(run))|)
  }

  predicate AllTerminal(run: Run) { forall j :: j in run.nodes ==> Terminal(run.nodes[j].status) }

  predicate AnyStatus(run: Run, statuses: set<NodeStatus>) {
    exists j :: j in run.nodes && run.nodes[j].status in statuses
  }

  function FinalStatus(run: Run): RunStatus {
    if AnyStatus(run, {Failed, Cancelled}) then
      if AnyStatus(run, {Skipped}) then Partial else RunFailed
    else Succeeded
  }

  function FinishIfDone(run: Run): Run {
    if AllTerminal(run) then run.(status := FinalStatus(run), completed := |run.order|) else run
  }

  function CompleteNode(cfg: Config, run: Run, job: JobId, status: NodeStatus, faults: Faults): Run
    requires job in run.nodes
  {
    var settled := Settle(run, job, status);
    if IsFailure(status) && cfg.onFailure == "stop" then StopRun(settled)
    else FinishIfDone(Advance(cfg, settled, faults))
  }

  // `reported` is the status stored for the execution, None if it cannot be read.
  function Complete(cfg: Config, run: Run, execution: nat, reported: Option<string>, faults: Faults): Run {
    var node := FindNode(run, run.order, execution);
    if node.Some? && node.value in run.nodes && reported.Some?
    then CompleteNode(cfg, run, node.value, Outcome(reported.value), faults) else run
  }

  // ---- cancellation ----

  predicate Cancellable(run: Run) { run.status == InProgress || run.status == Pending }

  function CancelAll(run: Run): Run {
    run.(nodes := map j | j in run.nodes :: CancelRow(run.nodes[j]), status := RunCancelled)
  }

  function Cancel(run: Run): Run {
    if Cancellable(run) then CancelAll(run) else run
  }

  // ---- runs ----

  datatype Event =
    | Completion(execution: nat, reported: Option<string>, faults: Faults)
    | Cancellation

  function Apply(cfg: Config, run: Run, event: Event): Run {
    match event
    case Completion(x, reported, faults) => Complete(cfg, run, x, reported, faults)
    case Cancellation => Cancel(run)
  }

  function After(cfg: Config, run: Run, events: seq<Event>): Run {
    if events == [] then run else Apply(cfg, After(cfg, run, events[..|events| - 1]), events[|events| - 1])
  }
}
