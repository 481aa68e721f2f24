# Verified model of the serverust-less scheduler

serverust-less runs Python jobs. Jobs can be linked into DAGs; a DAG run starts each job once its upstream
conditions are met, and every started job becomes an execution that goes through a two-tier queue to a pool of
workers. This project models the three pieces of that path that carry the logic, and proves properties of them.

**The graph service** (`Graphs`, `KahnSpec`, `Layering`, `DagService`, `DagStore`). Edge lists are arbitrary:
edges may repeat and may be self-loops. Cycles are defined by walks. Kahn's algorithm is specified as the history
of its FIFO queue (`KahnLog`), and both loops of the service are proved to follow it. The in-degree table is a hash
map, so the order in which it is iterated is a parameter, and every result holds for every such order.

**The DAG engine** (`DagRuns`, `DagEngine`, `RunSafety`, `RunCounters`, `RunEndings`, `RunProgress`, `RunConditions`). A
run is a value; each engine call is a step on it, and the class `DagEngine` carries out the same steps in place, loop by
loop. A run is any sequence of callbacks and cancellations, with any job lookups, execution creations and enqueues
failing. The set of statuses that the advance step looks at is the parameter `startable`:

* as written it is `{waiting}`. The trigger marks roots `ready` (src/dag/engine.rs:85) and the advance step skips
  everything that is not `waiting` (src/dag/engine.rs:223), so no run ever starts a node. `AsWrittenNeverStarts`
  proves this for every run, and `TriggerStartsExactlyWhen` says when a trigger does start something: exactly when
  `ready` is startable.
* the comments (src/dag/engine.rs:90, src/dag/engine.rs:315) and the repository's README.md:62-65 intend
  `{waiting, ready}`. Progress is proved for that.

Safety (`DependencyOrder`, `BoundedConcurrency`, `CountersTrackNodes`, `CountersCountCallbacks`,
`RunClosedExactlyWhenSettled`, `StopPolicyFreezes`) is proved for both.

**The queue and its workers** (`QueueItems`, `QueueSteps`, `QueueManager`, `QueueCoupling`, `QueueServing`,
`QueueListing`, `QueueDrain`, `QueueTiers`, `QueueArrivals`, `QueueRefinement`, `WorkerPool`, `WorkerSafety`,
`QueuePriorities`, `RetryWindow`, `CallbackOnce`, `CallbackRepeats`, `QueueHazards`, `WorkerIteration`). The rows of
`job_queue` are a map keyed by execution id, the memory queue is a bounded collection with pop-max, and sleeping retries
are a volatile multiset. A retry takes the queue's lock only for the push of its item, so its requeue and its push are
two steps, and anything can come in between. The class `QueueManager` updates these fields step by step; `WorkerPool`
interleaves the steps with workers, DAG callbacks, cancellations, deletions of executions, crashes and recoveries. Which
database calls fail, and which row the overflow query picks among equals, is input to each step. A worker picks an
execution up first and then marks its record running, which only an existing execution allows.

**Both together** (`EngineCallbacks`, `Pipeline`). The engine hands executions to the queue and workers call it back,
amid anything else the queue does. If no execution of a run is retried, the engine is called once for each started node
that calls back (`UnretriedRunIsTracked`), which is what the results on counters and progress are about.

Where guarantees depend on something the code does not ensure, the condition is proved to be exact:

* The intended engine can stall: nothing runs, and the run is live. Whatever job lookups and execution creations fail,
  an advance leaves the run stalled exactly if nothing was running, every node it chose was blocked by a failure, and
  not everything open was chosen (`AdvanceStallsExactlyWhen`); `RunStallsExactlyWhen` says the same over every run. So a
  failed creation at the trigger can stall any graph, one with only `always` edges included (`FailedCreationStalls`).
* Without such failures, with any callbacks and cancellations, no run stalls exactly if every edge's condition is met by
  every outcome of its upstream node (`NeverStallsExactlyWhen`): all conditions are `always`, or the policy is `stop`
  and none is `failure` or `skipped`. The default condition with a policy that goes on is the ordinary case in which a
  run stalls (`DefaultConditionStalls`). A node whose settled upstreams do not meet its condition then waits for ever as
  long as every node calls back once (`HopelessForever`); the second callback that a granted retry causes can still
  start it (`SecondCallbackRevives`).
* No run meets the condition `skipped`: nodes are skipped only when a failure stops the run, and then nothing can start
  (`SkippingFreezesAlways`). So the job behind such an edge never starts (`SkippedConditionNeverStarts`).
* A finished run is partial only under the stop policy, and exactly if a node failed or was cancelled, another was
  skipped, and the callback that closed it was a success (`FinalStatusExactlyWhen`, `FinishedWithoutStop`).
* Items in memory carry the priority they were enqueued with until, exactly, a retry pushes one whose job has another
  priority by then (`StepKeepsPrioritiesExactlyWhen`).
* A step breaks the coupling of heap and table exactly if it pushes an item whose row is no longer queued or already in
  memory, or deletes an execution that is in memory (`StepKeepsCouplingExactlyWhen`); the database cascades the deletion
  of executions and jobs to the rows, and nothing touches the heap. Both happen
  (`CancelledDuringRetryIsDispatched`, `DeletedWhileQueuedIsDispatched`). Runs without such a step are called orderly,
  and the invariants over whole runs are about them. Between its two steps a retried row is taken exactly by a dequeue
  that finds the memory empty and picks it, or by a removal or deletion (`AwaitedLeavesExactlyWhen`).
* The DAG callback of an execution can fire, from any state and over every continuation, exactly if it is owed or the
  execution is in play (`CallbackCanFireExactlyWhen`): a worker has marked it running, or it still exists and is picked
  up, in memory, its row queued or processing, or a retry of it under way. So after an attempt it can fire again exactly
  if the row update was lost or a retry was granted (`CallbackRepeatsExactlyWhen`, `PassRepeatsExactlyWhen`).
* A callback that can no longer fire leaves its node running and the run live for ever, unless the run is cancelled
  (`LostCallbackKeepsRunOpen`). Removing a queued execution, a failed start and a crash do that, each under its exact
  condition.
* What the engine is told depends on the moment of a cancellation. The node becomes a success exactly if the attempt
  succeeded, its final write did too, and no cancellation was seen before it or landed after it (`PassSettlesNode`).
* The cancelled status of a DAG run is overwritten exactly by a late callback
  (`CancelledStatusOverwrittenExactlyWhen`).

## Model

| member | source | states |
|---|---|---|
| DagGraphService.BuildGraph | src/services/dag_service.rs:161-173 | the loop over the edges yields each node's in-degree, repeats counted, and its downstream ends in edge order |
| DagGraphService.QueueRoots | src/services/dag_service.rs:175-180 | the initial queue is the nodes of in-degree zero in the table's iteration order |
| DagGraphService.ReleaseNeighbors | src/services/dag_service.rs:185-194 | lowering the in-degrees of one node's neighbours never underflows, leaves the in-degrees over the edges not yet emitted, and queues exactly those that reach zero |
| DagGraphService.EmitNode | src/services/dag_service.rs:182-195 | popping the front node and releasing its neighbours keeps both loops in the history of Kahn's algorithm, with fewer nodes emitted than there are |
| DagGraphService.ValidateNoCycles | src/services/dag_service.rs:160-204 | succeeds if and only if no walk with an edge returns to its start; the result then lists every node once with every edge pointing forward, and is the order of Kahn's algorithm for that iteration order |
| KahnSpec.LogHolds | src/services/dag_service.rs:182-195 | after any number of pops nothing was queued twice, the queued nodes are exactly those whose upstreams were all emitted, and each comes after all its upstreams |
| KahnSpec.KahnDecidesAcyclicity | src/services/dag_service.rs:197-203 | for every edge list and iteration order, the number of emitted nodes equals the number of nodes exactly when the graph is acyclic |
| Graphs.ClosedUnderUpstreamHasCycle | src/services/dag_service.rs:197-201 | nodes that are left over, each with an upstream left over, contain a cycle |
| DagGraphService.EmitLevel | src/services/dag_service.rs:233-253 | one pass emits exactly the nodes queued at its start, and whatever it queues has an upstream among them |
| DagGraphService.TopologicalLevels | src/services/dag_service.rs:207-262 | succeeds if and only if the graph is acyclic; level k is then exactly the nodes whose longest incoming walk has k edges, every node appears once, and no schedule that respects the edges has fewer rounds |
| Layering.LinkedLevelsAreExact | src/services/dag_service.rs:232-253 | levels in which every upstream is earlier and some upstream is in the level just before are the longest-path depths |
| Layering.LinkedLevelsAreFewest | src/services/dag_service.rs:232-253 | such levels are as few as any assignment of rounds in which edges go forward |
| DagGraphService.LevelsAgreeWithOrder | src/services/dag_service.rs:175-261 | from one iteration order both loops fail on the same inputs, and the levels laid end to end are the cycle check's order |
| Graphs.AddEdgeAcyclic | src/services/dag_service.rs:135-141 | adding u to v keeps an acyclic graph acyclic exactly when u and v differ and v does not reach u |
| DagStore.DagService.AddEdge | src/services/dag_service.rs:118-145 | answers with the first check that fails, with a cycle exactly when the downstream job already reaches the upstream one; appends the edge to the rows exactly if none fails, and leaves them alone otherwise; every stored graph stays acyclic |
| DagStore.DagService.DeleteEdge | src/services/dag_service.rs:147-153 | if the edge of that id belongs to the DAG, exactly the rows of other ids remain; otherwise answers not found and changes nothing; every stored graph stays acyclic |
| DagStore.TrimmedIs | src/services/dag_service.rs:35-38 | trimming takes whitespace off both ends and nothing else, leaves none there, and leaves nothing exactly if the name was all whitespace |
| DagStore.DagService.CreateDag | src/services/dag_service.rs:34-56 | answers with the first check that fails: an empty name after trimming, an unknown policy, a name or id that is taken; otherwise stores the DAG under the trimmed name with max_concurrent_nodes raised to at least one |
| DagStore.DagService.UpdateDag | src/services/dag_service.rs:68-103 | answers with the first check that fails, an unknown DAG first, and otherwise patches only the given fields, with the same trimming and the same lower bound |
| DagStore.StoredGraphsStayAcyclic | src/services/dag_service.rs:118-153 | over every sequence of edge calls every DAG's graph stays acyclic |
| DagStore.EdgeStoredExactlyWhen | src/services/dag_service.rs:118-153 | over every sequence of edge calls an edge is stored exactly if it was there or was accepted, and no accepted deletion of its id came after that |
| DagStore.PatchedFields | src/services/dag_service.rs:68-103 | an update takes over the given fields, the bound raised to at least one, and leaves the others and the id alone |
| DagEngines.DagEngine.TriggerDag | src/dag/engine.rs:38-95 | refuses disabled, empty and cyclic DAGs without a trace, and otherwise leaves exactly the rows of a triggered run |
| DagEngines.DagEngine.MarkRoots | src/dag/engine.rs:79-88 | the nodes without incoming edges become ready and no others |
| DagEngines.DagEngine.CountRunning | src/dag/engine.rs:212-214 | the loop counts the running nodes |
| DagEngines.DagEngine.PickReady | src/dag/engine.rs:220-233 | picks the first eligible nodes of the snapshot in row order, at most as many as there are slots |
| DagEngines.DagEngine.StartNodes | src/dag/engine.rs:235-296 | fails the nodes whose job or execution is missing, starts the others under fresh execution ids and hands these to the queue, going on if it refuses one |
| DagEngines.DagEngine.AdvanceDagRun | src/dag/engine.rs:198-299 | the new rows are the advance step of the old ones |
| DagEngines.DagEngine.FindNodeByExecution | src/db/dags.rs:319-327 | finds the node that holds the execution id |
| DagEngines.DagEngine.OnExecutionComplete | src/dag/engine.rs:98-195 | the new rows are the completion step of the old ones; it errs exactly if a matching execution cannot be read |
| DagEngines.DagEngine.HandleStop | src/dag/engine.rs:141-166 | skips exactly the nodes that have not started, and closes the run as failed, with every node counted, exactly if none is running |
| DagEngines.DagEngine.FinishRun | src/dag/engine.rs:171-192 | gives the final status once every node is terminal, and changes nothing before |
| DagEngines.DagEngine.CancelDagRun | src/dag/engine.rs:360-387 | cancels every waiting, ready and running node, which keeps its execution, and leaves terminal nodes and counters alone; refuses finished runs and then changes nothing |
| RunSafety.AdvanceKeepsBound | src/dag/engine.rs:212-233 | an advance never exceeds max_concurrent_nodes |
| RunSafety.AdvanceConservesWork | src/dag/engine.rs:212-233 | if no chosen node is blocked, then afterwards the bound is reached or all that the snapshot let start is running |
| RunSafety.StepLasts | src/dag/engine.rs:98-387 | whatever the step, terminal nodes stay terminal, execution ids are not reassigned, and a frozen run starts nothing |
| RunSafety.DependencyOrder | src/dag/engine.rs:198-343 | in every reachable state a node with an execution id has only terminal transitive upstreams, and nodes start in an order compatible with all edges |
| RunSafety.BoundedConcurrency | src/dag/engine.rs:212-272 | in every reachable state at most max_concurrent_nodes nodes run, each started once under its own execution id |
| RunSafety.StopPolicyFreezes | src/dag/engine.rs:140-166 | under the stop policy, after a failed or cancelled completion no later step ever starts a node |
| RunSafety.SubmissionsAlways | src/dag/engine.rs:274-288 | in every reachable state the queue was handed only executions that a node holds, each once, and all of them if it refused none |
| RunCounters.CountersTrackNodes | src/dag/engine.rs:113-192 | with one callback per started node and no cancellation, completed_nodes and failed_nodes count the returned and the failed nodes while the run is live; at the end completed_nodes is total_nodes, the run succeeded exactly if every node did, a failed run has a failed or cancelled node, and a partial one a skipped node besides |
| RunCounters.CountersCountCallbacks | src/dag/engine.rs:113-125 | whatever calls back and how often, failed_nodes counts the accepted unsuccessful callbacks, and completed_nodes the accepted ones while the run is live |
| RunCounters.RunClosedExactlyWhenSettled | src/dag/engine.rs:140-192 | in every reachable state, under any policy, faults, repeated callbacks and cancellations, the run is live exactly if some node is not terminal |
| RunCounters.StoppedRunCloses | src/dag/engine.rs:140-166 | under the stop policy, after a failed or cancelled callback the run closes exactly with the callback of the last node still running |
| RunProgress.AdvanceStallsExactlyWhen | src/dag/engine.rs:198-299 | whatever lookups and creations fail, an advance leaves the run stalled exactly if nothing was running, every chosen node was blocked and not everything open was chosen |
| RunProgress.RunStallsExactlyWhen | src/dag/engine.rs:79-195 | over every run, with any faults, repeated callbacks and cancellations, a state is stalled exactly if the trigger or the last accepted callback left it so and no cancellation came since |
| RunProgress.StallHasCause | src/dag/engine.rs:222-233 | an advance without faults that leaves nothing running leaves open nodes exactly if it leaves a node whose settled upstreams do not meet its condition |
| RunProgress.StallNeedsFaults | src/dag/engine.rs:235-264 | where every outcome meets every condition, a stalled launch means that a chosen node was blocked |
| RunProgress.BlockedTriggerStalls | src/dag/engine.rs:235-264 | every graph stalls at the trigger if all nodes chosen there are blocked |
| RunProgress.StalledExactlyWhenHopeless | src/dag/engine.rs:98-343 | in every state of a fault-free run of the intended engine in which nothing runs, the run is live exactly if such a node waits |
| RunProgress.HopelessForever | src/dag/engine.rs:222-233 | with one callback per started node and no stop policy such a node waits for ever and the run is never closed, whatever fails |
| RunProgress.NeverStallsExactlyWhen | src/dag/engine.rs:98-343 | no run of the intended engine without failing lookups and creations stalls, with any callbacks and cancellations, exactly if every edge's condition is met by every outcome: all are always or, under the stop policy, neither failure nor skipped |
| RunProgress.DefaultConditionStalls | src/models/dag.rs:150-154 | two jobs joined by the default condition stall when the first fails under a policy other than stop |
| RunProgress.FailedCreationStalls | src/dag/engine.rs:251-264 | two jobs joined by any edge stall at the trigger if the first one's execution cannot be created, although an always edge is met by every outcome |
| RunProgress.SecondCallbackRevives | src/dag/engine.rs:98-138 | a second, successful callback of the failed node then starts the waiting one, and the callbacks counted equal the total while it runs |
| RunProgress.NeverStalls | src/dag/engine.rs:98-343 | the intended engine with acyclic always edges and no stop policy has something running after each of the first N - 1 callbacks, settles one node with each, and is closed by the N-th |
| RunProgress.TriggerStartsExactlyWhen | src/dag/engine.rs:79-91 | an accepted trigger starts a node exactly when ready nodes are startable |
| RunProgress.AsWrittenNeverStarts | src/dag/engine.rs:222-225 | as written no reachable state of any run has a running node or an execution id, and only a cancellation changes it |
| RunCounters.CancelSettlesAll | src/dag/engine.rs:374-387 | a cancellation of a live run cancels exactly the nodes that were not terminal, keeps their executions, the terminal nodes and the counters, and closes the run as cancelled; of another run it changes nothing |
| RunCounters.CancelledStatusOverwrittenExactlyWhen | src/dag/engine.rs:359-387 | the status of a cancelled run is overwritten exactly by the readable callback of a node that had started, and nothing starts |
| RunEndings.SettledNodeFollowsCallbacks | src/dag/engine.rs:98-116 | over every sequence of events a terminal node changes exactly by the readable callbacks of its own execution, the last of which wins |
| RunEndings.CancelledUntilCalledBack | src/dag/engine.rs:360-387 | whatever follows a cancellation, the nodes that were open or running are cancelled, under the executions they had, until these call back; those that had not started, for good |
| RunEndings.StopSkipsForGood | src/dag/engine.rs:140-153 | under the stop policy a failed or cancelled callback skips every node that has not started, whatever follows |
| RunEndings.FinalStatusExactlyWhen | src/dag/engine.rs:140-192 | a callback after which every node is terminal ends the run as a success exactly if no node failed or was cancelled, as partial exactly if one did, one was skipped and the callback did not stop the run, and as failed otherwise |
| RunEndings.SkippingFreezesAlways | src/dag/engine.rs:143-153 | in every reachable state a node is skipped only under the stop policy, and then nothing can start any more |
| RunEndings.FinishedWithoutStop | src/dag/engine.rs:171-192 | under the other policies, with one callback per started node, a finished run is failed exactly if some node failed or was cancelled, and never partial |
| RunConditions.AdvanceStartsExactlyWhen | src/dag/engine.rs:212-343 | a node starts in an advance exactly if its status is startable, the upstream end of each of its edges meets that edge's condition, and the running nodes and those before it in row order that may start leave a slot; a missing job or execution fails it in its place, and all other rows stay |
| RunConditions.ConditionDecides | src/dag/engine.rs:326-335 | on one edge the callback of the upstream node starts the downstream one exactly if the condition is always, or failure and neither a success nor a cancellation is reported, or the default and a success is |
| RunConditions.SkippedConditionNeverStarts | src/dag/engine.rs:333 | in no reachable state of any run has the downstream end of an edge with the condition skipped started |
| QueueItems.ItemOrderTotal | src/models/queue.rs:178-185 | items are totally ordered by priority and execution id |
| QueueItems.ItemOrderTransitive | src/models/queue.rs:178-185 | that order is transitive |
| QueueItems.LexicographicExactlyWhen | src/models/queue.rs:182-184 | ids are compared as strings: the smaller one is a prefix, or has the smaller character where they first differ |
| QueueItems.DrainIsSorted | src/queue/manager.rs:122-128 | popping until empty yields every item, by priority and then by execution id, greatest first |
| QueueItems.DrainIgnoresInsertionOrder | src/queue/manager.rs:104-107 | the pop order does not depend on the insertion order |
| QueueItems.RemoveThenDrain | src/queue/manager.rs:151-157 | removing an execution and draining is draining and leaving it out |
| QueueManagers.QueueManager.EnqueueItem | src/queue/manager.rs:96-113 | refused exactly if the insert fails or the execution has a row, and then nothing changes; otherwise its row has the item's job, priority and time and is queued, no other row changes, and the item is in memory if there was room; the coupling is kept |
| QueueManagers.QueueManager.DequeueItem | src/queue/manager.rs:118-148 | the answer and the new queue are the dequeue step, for a row the overflow query may pick; the coupling is kept whichever call fails |
| QueueManagers.QueueManager.SelectBest | src/db/queue.rs:164-170 | picks a queued row of highest priority and, among those, oldest |
| QueueManagers.QueueManager.RemoveExecution | src/queue/manager.rs:151-163 | exactly the items of other executions stay in memory, and the row goes exactly if the delete succeeds; the coupling is kept |
| QueueManagers.QueueManager.MarkRow | src/queue/manager.rs:166-181 | rewrites the status of the row if it exists and both database calls succeed |
| QueueManagers.QueueManager.MarkFailedWithRetry | src/queue/manager.rs:203-290 | schedules a retry exactly while attempts are left and the row can be read, and otherwise dead-letters the row; no other row changes |
| QueueManagers.QueueManager.RequeueRetriedRow | src/queue/manager.rs:232-240 | the woken retry requeues the row, if there is one, and a push becomes due; the coupling is kept |
| QueueManagers.QueueManager.RequeueDeadRow | src/queue/manager.rs:303-310 | requeues exactly a dead-lettered row, after which a push with the row's priority is due |
| QueueManagers.QueueManager.PushRequeuedItem | src/queue/manager.rs:242-266 | pushes the rebuilt item if there is room, whether or not the row is still there; the coupling is kept exactly if nothing is pushed or the row is queued and not in memory |
| QueueManagers.QueueManager.RecoverQueue | src/queue/manager.rs:328-358 | queues every interrupted row and answers with the number of unfinished ones; the memory keeps what it held and gets only items of unfinished rows, with their priorities, and all that can be rebuilt if it has room left |
| QueueManagers.QueueManager.LoadEntries | src/queue/manager.rs:339-350 | the loop over the listed rows is the load: in order, skipping those that cannot be rebuilt, until memory is full |
| QueueManagers.QueueManager.OverflowQueueSize | src/queue/manager.rs:190-194 | is the number of queued rows that are not in memory |
| QueueCoupling.EnqueueKeepsCoupling | src/queue/manager.rs:96-113 | heap ids stay distinct, each with a queued row, within the bound |
| QueueCoupling.DequeueKeepsCoupling | src/queue/manager.rs:118-148 | the same even when a call fails midway; at most one row is taken, it was queued, and an item that is handed out has its row processing |
| QueueCoupling.RemoveKeepsCoupling | src/queue/manager.rs:151-163 | the same, also if the delete fails |
| QueueCoupling.PushKeepsCouplingExactlyWhen | src/queue/manager.rs:260-266 | a push keeps the coupling exactly when it does nothing or the row is queued and not in memory |
| QueueCoupling.DeleteKeepsCouplingExactlyWhen | migrations/014_create_job_queue.sql:11-12 | deleting executions, whose rows go by cascade, keeps the coupling exactly when none of them is in memory |
| QueueCoupling.RecoverKeepsCoupling | src/queue/manager.rs:328-351 | a recovery into an empty heap establishes the coupling |
| QueueCoupling.LoadFills | src/queue/manager.rs:342-350 | what is loaded is the heap as it was and exactly the items of the first listed rows that can be rebuilt, with their rows' priorities; only a full heap ends the loading early |
| QueueCoupling.RecoverFills | src/queue/manager.rs:328-350 | a recovery that leaves room in memory has loaded every waiting or interrupted row that can be rebuilt |
| QueueServing.DequeueServes | src/queue/manager.rs:118-148 | whichever call fails, a dequeue pops the greatest item in memory, if there is one, and otherwise takes a row of highest priority and then age; what it hands out has that row's priority, its row is processing, and no other row changes |
| QueueCoupling.OverflowSizeIsExact | src/queue/manager.rs:190-194 | the reported overflow size is the number of queued rows that are not in memory |
| WorkerSafety.StepKeepsCouplingExactlyWhen | src/queue/manager.rs:96-358 | whatever the step and whichever calls fail in it, it breaks the coupling exactly if it is a push of an item whose row is not queued or already in memory, or a deletion of an execution in memory |
| WorkerSafety.CouplingHoldsAlways | src/queue/manager.rs:96-194 | in every state that a run without such a step reaches, heap and table are coupled and the overflow size is exact |
| WorkerSafety.AcceptedIsNeverLost | src/queue/manager.rs:96-290 | over every run, orderly or not, an accepted execution has its one row exactly until a step removes, deletes or cleans up the row |
| WorkerSafety.FailedPopStaysQueued | src/queue/manager.rs:122-127 | a dequeue that fails after the pop leaves the row queued for the overflow path |
| WorkerSafety.CrashAndRecoveryConserve | src/db/queue.rs:148-156 | after a crash and a recovery every queued, processing or retry-delayed row is queued, and settled and dead-lettered rows are as they were |
| WorkerSafety.TurnsBackExactlyWhen | src/db/queue.rs:256-270 | a row that is not queued turns back to queued exactly by a successful requeue of a retry, a successful manual requeue of a dead-lettered row, or a reset of a processing one |
| WorkerSafety.NoDoubleDispatch | src/queue/manager.rs:118-148 | between two dequeues that hand out one execution some step turned its row back to queued |
| RetryWindow.AwaitedLeavesExactlyWhen | src/queue/manager.rs:236-266 | while a push is due, its row leaves queued exactly by a dequeue that finds the memory empty and picks it, or by a removal or deletion |
| RetryWindow.AwaitedExactlyUntilTaken | src/queue/manager.rs:236-266 | when the push comes, the row is queued and not in memory exactly if no step since the requeue took it |
| RetryWindow.PushAfterWindow | src/queue/manager.rs:236-266 | the push then breaks the coupling exactly if there is room for the item and a step took the row |
| RetryWindow.SplitRetryDispatchesTwice | src/queue/manager.rs:236-266 | if a dequeue took it, the next dequeue hands out the execution a second time exactly if the push found room |
| CallbackOnce.CallbackFiresAtMostOnce | src/worker/pool.rs:222-260 | over any interleaving with crashes and recoveries, on_execution_complete fires at most once for an execution whose attempts settle its row if it is still there |
| CallbackRepeats.CallbackCanFireExactlyWhen | src/worker/pool.rs:78-260 | from any state and over all continuations, orderly or not, the callback of an accepted execution can fire exactly if it is owed or the execution is in play, which a deleted one is only if a worker had marked it running |
| CallbackRepeats.DeletionStopsCallbackExactlyWhen | src/worker/pool.rs:98-112 | deleting an execution ends its callbacks exactly if none is owed and no worker has marked it running |
| CallbackRepeats.RemovalLosesCallbackExactlyWhen | src/queue/manager.rs:151-163 | removing a queued execution ends its callbacks exactly if none is owed and no push of it is due to a memory with room |
| CallbackRepeats.StartFailureLosesCallbackExactlyWhen | src/worker/pool.rs:99-112 | so does a failed start, exactly if in addition its row was marked failed or the execution is gone |
| CallbackRepeats.CrashLosesCallbackExactlyWhen | src/worker/pool.rs:222-260 | so does a crash, exactly if the row is neither queued nor processing, even if the callback was owed |
| CallbackRepeats.FiredCanRepeatExactlyWhen | src/worker/pool.rs:222-260 | once it has fired and none is owed it can fire again exactly if the execution is in play |
| CallbackRepeats.CallbackRepeatsExactlyWhen | src/worker/pool.rs:222-260 | after an attempt it can fire again exactly if the row was there and not settled for good, or another worker owes it, or another push of it is due and it has not been deleted |
| EngineCallbacks.DistinctAreOneEach | src/dag/engine.rs:98-138 | callbacks of started nodes with distinct executions are one callback for each started node |
| EngineCallbacks.NodeBecomesReported | src/dag/engine.rs:105-116 | the node of a callback ends up as the engine reads the reported status, whatever else the step starts, skips or closes |
| Pipeline.UnretriedRunIsTracked | src/worker/pool.rs:253-260 | if no execution of a run is retried, then whatever the interleaving of workers, crashes and other queue calls, the engine is called once for each started node that calls back; so the run is in a state that the results on counters and, without faults, on progress are about |
| Pipeline.LostCallbackKeepsRunOpen | src/dag/engine.rs:98-104 | once the callback of a running node can no longer fire, the node stays running and the run live over every continuation in which the run is not cancelled |
| Pipeline.PassSettlesNode | src/worker/pool.rs:186-260 | after a pass for a node's execution the node is a success exactly if the attempt's final write stood, cancelled exactly if a cancellation stood, and failed otherwise |
| QueueDrain.LoadTakesTop | src/queue/manager.rs:342-350 | what recovery loads has at least the priority of every rebuildable row it leaves in the overflow |
| QueueDrain.DrainAfterRecovery | src/queue/manager.rs:118-148 | after a recovery as many dequeues as queued rows empty the queue, returning each rebuildable row once in non-increasing priority across the boundary between memory and overflow |
| QueueDrain.DrainExists | src/queue/manager.rs:328-358 | from every table and catalog there is such a recovery and drain |
| QueueTiers.ServedByTier | src/queue/manager.rs:118-148 | from every coupled queue, with nothing else in between, the dequeues hand out the memory in its order and then each overflow row that can be rebuilt once, with its priority, by priority and age |
| QueueArrivals.EnqueuedThenServed | src/queue/manager.rs:96-148 | after any enqueues into an empty queue the earliest arrivals, as many as fit into memory, come out by priority and id and the others by priority and time, all by the priority they were enqueued with |
| QueuePriorities.RowsKeepWhatWasEnqueued | src/queue/manager.rs:100-101 | over every run, whatever fails, a row has the job, the priority and the time of the enqueue that made it |
| QueuePriorities.StepKeepsPrioritiesExactlyWhen | src/queue/manager.rs:96-358 | whatever the step, the items in memory keep their rows' priorities exactly unless the step pushes the item of a retry whose job's priority is not that of the row |
| QueuePriorities.HandedOutAtEnqueuedPriority | src/queue/manager.rs:96-148 | over every run without such a push, what a dequeue hands out, if it has a row, has the priority it was enqueued with |
| QueueCoupling.RetriedPriority | src/queue/manager.rs:242-266 | the item that a woken retry pushes has its job's priority, whatever its row says |
| QueueCoupling.RequeuedByHandPriority | src/queue/manager.rs:303-322 | the item of a dead-lettered execution that is requeued by hand is pushed with the priority of its row |
| QueueListing.ListingExists | src/db/queue.rs:179-192 | every table has a listing of its queued rows by priority and age |
| QueueRefinement.MatchesPriorityQueue | src/queue/manager.rs:96-163 | while nothing overflows, every trace of enqueues, dequeues and removals gets the answers of one abstract priority queue |
| QueueHazards.LostRowUpdateRepeatsCallback | src/worker/pool.rs:245-260 | a lost row update, a crash and a recovery make the callback fire twice |
| QueueHazards.CancelledDuringRetryIsDispatched | src/queue/manager.rs:236-266 | removing an execution whose retry sleeps leads to a heap item without a row, which is then dispatched |
| QueueHazards.DeletedWhileQueuedIsDispatched | src/db/executions.rs:206-220 | deleting a queued execution leaves its item in memory, and the next dequeue dispatches it |
| WorkerIteration.FinalizeRecord | src/worker/pool.rs:186-217 | reads the record back and writes the outcome unless it is seen cancelled; cancellations may land before, in between and after; what is left is a timeout, a success or a failure by the flags of the attempt, or cancelled, or running |
| WorkerIteration.RecordAttempt | src/worker/pool.rs:98-217 | the record is marked running, which fails if there is none, and then finalized; the last of all writes wins, and records of other executions stay |
| WorkerIteration.RunOnce | src/worker/pool.rs:78-260 | one undisturbed pass of a worker is the pass step: poll, mark running, finalize, settle the row, callback |
| WorkerIteration.PassIsFourSteps | src/worker/pool.rs:78-260 | such a pass is a run of the state machine that hands out, marks running, settles and calls back one execution |
| WorkerIteration.RowSettledBeforeCallback | src/worker/pool.rs:222-260 | if the row calls succeed, then when the callback fires the row is completed or dead-lettered, or a retry was scheduled because attempts were left |
| WorkerIteration.PassLeavesRecord | src/worker/pool.rs:99-217 | by the moments of the cancellations a pass leaves the record timed out, successful or, memory overruns included, failed, or cancelled, or running if the final write failed; a pass that cannot start leaves it at most cancelled and fails the row |
| WorkerIteration.ReportsExactlyWhen | src/worker/pool.rs:186-217 | by the moments of the cancellations: the engine is told of a success exactly if the final write of a successful attempt stands, and of a cancellation exactly if one stands |
| WorkerIteration.PassRepeatsExactlyWhen | src/worker/pool.rs:222-260 | after a pass from a reachable state the callback can fire again exactly if a row call failed or a failed attempt had attempts left, unless another worker or push of the same execution is under way |

## Left out

- DagEngines.DagEngine.OnExecutionComplete: database failures inside an engine call, and two callbacks interleaving
  within one, are not modelled; each call is one atomic step.
- DagEngines.DagEngine.AdvanceDagRun: failing updates of node rows are not modelled, for the same reason.
- DagEngines.DagEngine.TriggerDag: nor is a trigger that fails after it created the run row, which it leaves behind.
- Deletions on the DAG side are left out. Deleting an execution sets the execution id of its node row to NULL
  (migrations/018_create_dag_runs.sql:28); the DAG runs keep the id, but as a deleted execution cannot be read, its
  callback changes nothing either way. Deleting a job cascades to its node rows and edges, which the DAG runs do not do.
- RunProgress.NeverStalls: stated for the intended engine; the code as written never starts a node.
- QueueManagers.QueueManager.MarkRow: reading a row and writing it back is one step; so is the read before a manual
  requeue, and so are reading an execution back and pushing its item.
- CallbackOnce.CallbackFiresAtMostOnce: about orderly runs; `CallbackCanFireExactlyWhen` is about all of them.
- WorkerIteration.RunOnce: the endless worker loop is its single pass; the interleaving of passes is the state
  machine. The Python process, its logs, its registration and its result channel are an arbitrary outcome, and the
  cancel handler's removal of the row is a step of the state machine, not of the pass.
- DagStore.DagService.AddEdge: calls are made one at a time; two concurrent calls could each pass the cycle check.
- DagStore.DagService.CreateDag: descriptions and timestamps are left out.
- Execution ids in a DAG run are counters and those of the queue are strings that are not enqueued again once their row
  was removed; both stand for freshly generated UUIDs.
- The payload of a queue item (code, limits, input) is left out: it is copied and never examined.
- Timestamps other than the queueing time, which is a logical clock, are left out; `started_at` of nodes is the order
  of the start list.
- Counters are unbounded integers instead of 32 bits wide.
- Claims the code does not meet and this model does not make: priority order under overflow (the heap is served
  before higher-priority overflow rows) and a bound on automatic retries (nothing counts them).
- HTTP handlers, cron scheduling, packages, virtual environments, audit and retention policy: thin wrappers over SQL
  or foreign calls.
