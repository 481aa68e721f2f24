/** The two graph loops of the DAG service, in the imperative form of src/services/dag_service.rs. The
    in-degree table is a hash map, so the order in which it is iterated is arbitrary:
    it is the parameter `order`, any enumeration of the nodes. */
module DagGraphService {
  import opened Wrappers
  import opened Graphs
  import opened KahnSpec
  import opened Layering

  // The order in which a hash table yields its keys.
  method IterationOrder(keys: set<JobId>) returns (order: seq<JobId>)
    ensures Enumerates(order, keys)
  {
    order := [];
    var rest := keys;
    while rest != {}
      invariant rest <= keys && Enumerates(order, keys - rest)
      decreases |rest|
    {
      var k :| k in rest;
      order := order + [k];
      rest := rest - {k};
    }
    assert keys - rest == keys;
  }

  function AdjacentTo(adj: map<JobId, seq<JobId>>, u: JobId): seq<JobId> {
    if u in adj then adj[u] else []
  }

  // The in-degree table after the given neighbours of the last emitted node were lowered.
  ghost predicate Degrees(edges: seq<DagEdge>, emitted: seq<JobId>, lowered: seq<JobId>, inDegree: map<JobId, nat>) {
    && inDegree.Keys == Nodes(edges)
    && forall v :: v in inDegree ==> inDegree[v] == Pending(edges, emitted, v) - Occurrences(lowered, v)
  }

  ghost predicate Adjacency(edges: seq<DagEdge>, adj: map<JobId, seq<JobId>>) {
    forall u :: Neighbors(edges, u) == AdjacentTo(adj, u)
  }

  // Both methods start by building the in-degree table and the adjacency lists.
  method BuildGraph(edges: seq<DagEdge>)
    returns (inDegree: map<JobId, nat>, adj: map<JobId, seq<JobId>>, allNodes: set<JobId>)
    ensures allNodes == Nodes(edges) && Degrees(edges, [], [], inDegree) && Adjacency(edges, adj)
  {
    inDegree, adj, allNodes := map[], map[], {};
    for i := 0 to |edges|
      invariant allNodes == Nodes(edges[..i]) && Degrees(edges[..i], [], [], inDegree) && Adjacency(edges[..i], adj)
    {
      var e := edges[i];
      assert edges[..i + 1] == edges[..i] + [e];
      NextPending(edges[..i], e);
      NextDegrees(edges[..i], e, inDegree);
      NextAdjacency(edges[..i], e, adj);
      allNodes := allNodes + {e.upstream, e.downstream};
      var degree := if e.downstream in inDegree then inDegree[e.downstream] else 0;
      inDegree := inDegree[e.downstream := degree + 1];
      if e.upstream !in inDegree {
        inDegree := inDegree[e.upstream := 0];
      }
      adj := adj[e.upstream := AdjacentTo(adj, e.upstream) + [e.downstream]];
    }
    assert edges[..|edges|] == edges;
  }

  lemma NextAdjacency(edges: seq<DagEdge>, e: DagEdge, adj: map<JobId, seq<JobId>>)
    requires Adjacency(edges, adj)
    ensures Adjacency(edges + [e], adj[e.upstream := AdjacentTo(adj, e.upstream) + [e.downstream]])
  {
    assert (edges + [e])[..|edges|] == edges;
    forall u
      ensures Neighbors(edges + [e], u) == Neighbors(edges, u) + if e.upstream == u then [e.downstream] else []
    {}
    assert forall u :: Neighbors(edges, u) + [] == Neighbors(edges, u);
  }

  lemma NextPending(edges: seq<DagEdge>, e: DagEdge)
    ensures Nodes(edges + [e]) == Nodes(edges) + {e.upstream, e.downstream}
    ensures forall v :: Pending(edges + [e], [], v) == Pending(edges, [], v) + if e.downstream == v then 1 else 0
    ensures forall v :: v !in Nodes(edges) ==> Pending(edges, [], v) == 0
  {
    assert (edges + [e])[..|edges|] == edges;
    forall v | v !in Nodes(edges) ensures Pending(edges, [], v) == 0 {
      PendingZero(edges, [], v);
    }
  }

  lemma NextDegrees(edges: seq<DagEdge>, e: DagEdge, inDegree: map<JobId, nat>)
    requires Degrees(edges, [], [], inDegree)
    ensures var counted := inDegree[e.downstream := 1 + if e.downstream in inDegree then inDegree[e.downstream] else 0];
            Degrees(edges + [e], [], [], if e.upstream in counted then counted else counted[e.upstream := 0])
  {
    NextPending(edges, e);
    var counted := inDegree[e.downstream := 1 + if e.downstream in inDegree then inDegree[e.downstream] else 0];
    var next := if e.upstream in counted then counted else counted[e.upstream := 0];
    assert next.Keys == Nodes(edges + [e]);
    forall v | v in next ensures next[v] == Pending(edges + [e], [], v) - Occurrences([], v) {
      assert v in inDegree ==> inDegree[v] == Pending(edges, [], v);
    }
  }

  method QueueRoots(edges: seq<DagEdge>, inDegree: map<JobId, nat>, order: seq<JobId>) returns (queue: seq<JobId>)
    requires Enumerates(order, Nodes(edges)) && Degrees(edges, [], [], inDegree)
    ensures queue == Roots(edges, order)
  {
    queue := [];
    for i := 0 to |order|
      invariant queue == Roots(edges, order[..i])
    {
      assert order[..i + 1][..i] == order[..i];
      assert order[i] in order;
      if inDegree[order[i]] == 0 {
        queue := queue + [order[i]];
      }
    }
    assert order[..|order|] == order;
  }

  // Lower the in-degree of each neighbour of the node u just popped, and queue those that reach
  // zero. In-degrees are natural numbers: the decrement never underflows.
  method ReleaseNeighbors(ghost edges: seq<DagEdge>, ghost emitted: seq<JobId>, ghost u: JobId,
                          neighbors: seq<JobId>, degrees: map<JobId, nat>, queued: seq<JobId>)
    returns (inDegree: map<JobId, nat>, queue: seq<JobId>)
    requires u !in emitted && neighbors == Neighbors(edges, u)
    requires Degrees(edges, emitted, [], degrees)
    ensures queue == queued + Released(edges, emitted, neighbors)
    ensures Degrees(edges, emitted + [u], [], inDegree)
  {
    inDegree, queue := degrees, queued;
    for j := 0 to |neighbors|
      invariant Degrees(edges, emitted, neighbors[..j], inDegree)
      invariant queue == queued + Released(edges, emitted, neighbors[..j])
    {
      var v := neighbors[j];
      LowerNext(edges, emitted, u, j, inDegree);
      if v in inDegree {
        inDegree := inDegree[v := inDegree[v] - 1];
        if inDegree[v] == 0 {
          queue := queue + [v];
        }
      }
    }
    assert neighbors[..|neighbors|] == neighbors;
    LoweredIsEmitted(edges, emitted, u, inDegree);
  }

  lemma LoweredIsEmitted(edges: seq<DagEdge>, emitted: seq<JobId>, u: JobId, inDegree: map<JobId, nat>)
    requires u !in emitted && Degrees(edges, emitted, Neighbors(edges, u), inDegree)
    ensures Degrees(edges, emitted + [u], [], inDegree)
  {
    forall v | v in inDegree ensures inDegree[v] == Pending(edges, emitted + [u], v) {
      PendingEmit(edges, emitted, u, v);
    }
  }

  lemma NeighborIsPending(edges: seq<DagEdge>, emitted: seq<JobId>, u: JobId, j: nat)
    requires u !in emitted && j < |Neighbors(edges, u)|
    ensures var nbrs := Neighbors(edges, u); var v := nbrs[j];
            v in Nodes(edges) && Pending(edges, emitted, v) > Occurrences(nbrs[..j], v)
  {
    var nbrs := Neighbors(edges, u);
    NeighborsBounded(edges, emitted, u);
    assert nbrs[j] in nbrs;
    OccurrencesPrefix(nbrs, j + 1, nbrs[j]);
    assert nbrs[..j + 1][..j] == nbrs[..j];
  }

  lemma NextLowered(edges: seq<DagEdge>, emitted: seq<JobId>, lowered: seq<JobId>, v: JobId, inDegree: map<JobId, nat>)
    requires Degrees(edges, emitted, lowered, inDegree) && v in inDegree && inDegree[v] > 0
    ensures Degrees(edges, emitted, lowered + [v], inDegree[v := inDegree[v] - 1])
    ensures Released(edges, emitted, lowered + [v])
         == Released(edges, emitted, lowered) + if inDegree[v] == 1 then [v] else []
  {
    assert (lowered + [v])[..|lowered|] == lowered;
  }

  lemma LowerNext(edges: seq<DagEdge>, emitted: seq<JobId>, u: JobId, j: nat, inDegree: map<JobId, nat>)
    requires u !in emitted && j < |Neighbors(edges, u)|
    requires Degrees(edges, emitted, Neighbors(edges, u)[..j], inDegree)
    ensures var nbrs := Neighbors(edges, u); var v := nbrs[j];
            && v in inDegree && inDegree[v] > 0
            && Degrees(edges, emitted, nbrs[..j + 1], inDegree[v := inDegree[v] - 1])
            && Released(edges, emitted, nbrs[..j + 1])
               == Released(edges, emitted, nbrs[..j]) + if inDegree[v] == 1 then [v] else []
  {
    var nbrs := Neighbors(edges, u);
    NeighborIsPending(edges, emitted, u, j);
    NextLowered(edges, emitted, nbrs[..j], nbrs[j], inDegree);
    assert nbrs[..j + 1] == nbrs[..j] + [nbrs[j]];
  }

  lemma NeighborsBounded(edges: seq<DagEdge>, emitted: seq<JobId>, u: JobId)
    requires u !in emitted
    ensures Bounded(edges, emitted, Neighbors(edges, u))
    ensures forall v :: v in Neighbors(edges, u) ==> v in Nodes(edges)
  {
    forall v ensures Occurrences(Neighbors(edges, u), v) <= Pending(edges, emitted, v) {
      PendingEmit(edges, emitted, u, v);
    }
    forall v | v in Neighbors(edges, u) ensures v in Nodes(edges) {
      NeighborsAreEdges(edges, u, v);
      HasEdgeNodes(edges, u, v);
    }
  }

  // The state both loops share: what was emitted so far and the queue are the history of Kahn's
  // algorithm after that many pops.
  ghost predicate InHistory(edges: seq<DagEdge>, order: seq<JobId>, emitted: seq<JobId>, queue: seq<JobId>) {
    emitted + queue == KahnLog(edges, Roots(edges, order), |emitted|)
  }

  lemma HistoryFacts(edges: seq<DagEdge>, order: seq<JobId>, emitted: seq<JobId>, queue: seq<JobId>)
    requires Enumerates(order, Nodes(edges)) && InHistory(edges, order, emitted, queue)
    ensures |emitted + queue| <= |Nodes(edges)|
    ensures queue != [] ==> queue[0] !in emitted
  {
    var log := emitted + queue;
    LogHolds(edges, order, |emitted|);
    NoDuplicatesBound(log, Nodes(edges));
    assert queue != [] ==> log[|emitted|] == queue[0];
  }

  lemma QueuedAreReady(edges: seq<DagEdge>, order: seq<JobId>, emitted: seq<JobId>, queue: seq<JobId>)
    requires Enumerates(order, Nodes(edges)) && InHistory(edges, order, emitted, queue)
    ensures forall v, u :: v in queue && HasEdge(edges, u, v) ==> u in emitted
  {
    var log := emitted + queue;
    LogHolds(edges, order, |emitted|);
    assert log[..|emitted|] == emitted;
    forall v, u | v in queue && HasEdge(edges, u, v) ensures u in emitted {
      assert v in log;
      PendingZero(edges, emitted, v);
    }
  }

  lemma TakeFromQueue(emitted: seq<JobId>, queue: seq<JobId>, released: seq<JobId>)
    requires queue != []
    ensures (emitted + queue)[..|emitted|] == emitted && (emitted + queue)[|emitted|] == queue[0]
    ensures emitted + queue + released == emitted + [queue[0]] + (queue[1..] + released)
  {}

  lemma NextInHistory(edges: seq<DagEdge>, order: seq<JobId>, emitted: seq<JobId>, queue: seq<JobId>)
    requires InHistory(edges, order, emitted, queue) && queue != []
    ensures var released := Released(edges, emitted, Neighbors(edges, queue[0]));
            InHistory(edges, order, emitted + [queue[0]], queue[1..] + released)
  {
    var released := Released(edges, emitted, Neighbors(edges, queue[0]));
    TakeFromQueue(emitted, queue, released);
  }

  lemma ReleasedHaveEdge(edges: seq<DagEdge>, emitted: seq<JobId>, u: JobId)
    requires u !in emitted
    ensures forall v :: v in Released(edges, emitted, Neighbors(edges, u)) ==> HasEdge(edges, u, v)
  {
    var nbrs := Neighbors(edges, u);
    NeighborsBounded(edges, emitted, u);
    ReleasedAre(edges, emitted, nbrs);
    forall v | v in Released(edges, emitted, nbrs) ensures HasEdge(edges, u, v) {
      OccurrencesPositive(nbrs, v);
      NeighborsAreEdges(edges, u, v);
    }
  }

  lemma HistoryEnds(edges: seq<DagEdge>, order: seq<JobId>, emitted: seq<JobId>)
    requires Enumerates(order, Nodes(edges)) && InHistory(edges, order, emitted, [])
    ensures emitted == KahnOrder(edges, order)
    ensures |emitted| == |Nodes(edges)| <==> Acyclic(edges)
    ensures Acyclic(edges) ==> IsTopologicalOrder(edges, emitted)
  {
    assert emitted + [] == emitted;
    LogEnds(edges, order, |emitted|);
    KahnDecidesAcyclicity(edges, order);
  }

  // Pop the first node of the queue and release its neighbours, as both loops do.
  method EmitNode(ghost edges: seq<DagEdge>, ghost order: seq<JobId>, ghost emitted: seq<JobId>, queued: seq<JobId>,
                  degrees: map<JobId, nat>, adj: map<JobId, seq<JobId>>)
    returns (node: JobId, queue: seq<JobId>, inDegree: map<JobId, nat>)
    requires Enumerates(order, Nodes(edges)) && Adjacency(edges, adj) && queued != []
    requires InHistory(edges, order, emitted, queued) && Degrees(edges, emitted, [], degrees)
    ensures node == queued[0] && queue == queued[1..] + Released(edges, emitted, Neighbors(edges, node))
    ensures InHistory(edges, order, emitted + [node], queue) && Degrees(edges, emitted + [node], [], inDegree)
    ensures |emitted| < |Nodes(edges)|
  {
    HistoryFacts(edges, order, emitted, queued);
    NextInHistory(edges, order, emitted, queued);
    node := queued[0];
    inDegree, queue := ReleaseNeighbors(edges, emitted, node, AdjacentTo(adj, node), degrees, queued[1..]);
  }

  // Kahn's algorithm. Sound and complete for cycles, and its result is a topological order.
  method ValidateNoCycles(edges: seq<DagEdge>, order: seq<JobId>) returns (r: Result<seq<JobId>>)
    requires Enumerates(order, Nodes(edges))
    ensures r.Ok? <==> Acyclic(edges)
    ensures r.Ok? ==> IsTopologicalOrder(edges, r.value) && r.value == KahnOrder(edges, order)
    ensures r.Err? ==> r.error == Validation(CycleFound)
  {
    var inDegree, adj, allNodes := BuildGraph(edges);
    var queue := QueueRoots(edges, inDegree, order);
    var sorted: seq<JobId> := [];
    while queue != []
      invariant InHistory(edges, order, sorted, queue) && Degrees(edges, sorted, [], inDegree)
      decreases |Nodes(edges)| - |sorted|
    {
      var node;
      node, queue, inDegree := EmitNode(edges, order, sorted, queue, inDegree, adj);
      sorted := sorted + [node];
    }
    HistoryEnds(edges, order, sorted);
    if |sorted| != |allNodes| {
      return Err(Validation(CycleFound));
    }
    return Ok(sorted);
  }

  // The same loop, one level at a time. Level k is exactly the nodes at longest-path depth k,
  // and no schedule with fewer rounds respects the edges.
  method TopologicalLevels(edges: seq<DagEdge>, order: seq<JobId>) returns (r: Result<seq<seq<JobId>>>)
    requires Enumerates(order, Nodes(edges))
    ensures r.Ok? <==> Acyclic(edges)
    ensures r.Err? ==> r.error == Validation(CycleFound)
    ensures r.Ok? ==> Flatten(r.value) == KahnOrder(edges, order) && Enumerates(Flatten(r.value), Nodes(edges))
    ensures r.Ok? ==> ExactLevels(edges, r.value) && FewestRounds(edges, |r.value|)
  {
    if edges == [] {
      EmptyGraph(edges, order);
      return Ok([]);
    }
    var inDegree, adj, _ := BuildGraph(edges);
    var levels: seq<seq<JobId>> := [];
    var queue := QueueRoots(edges, inDegree, order);
    ghost var emitted: seq<JobId> := [];
    while queue != []
      invariant InHistory(edges, order, emitted, queue) && Degrees(edges, emitted, [], inDegree)
      invariant Linked(edges, levels) && Extends(edges, levels, queue) && Flatten(levels) == emitted
      decreases |Nodes(edges)| - |emitted|
    {
      HistoryFacts(edges, order, emitted, queue);
      QueuedAreReady(edges, order, emitted, queue);
      var level, next, lowered := EmitLevel(edges, order, emitted, queue, inDegree, adj);
      LevelAdded(edges, levels, level, next);
      levels, queue, inDegree := levels + [level], next, lowered;
      emitted := emitted + level;
    }
    FinishedLevels(edges, order, levels);
    var totalNodes := |inDegree|;
    var sortedCount := |Flatten(levels)|;
    if sortedCount != totalNodes {
      return Err(Validation(CycleFound));
    }
    return Ok(levels);
  }

  // The inner loop: emit exactly the nodes that were queued when the level began.
  method EmitLevel(ghost edges: seq<DagEdge>, ghost order: seq<JobId>, ghost before: seq<JobId>,
                   whole: seq<JobId>, degrees: map<JobId, nat>, adj: map<JobId, seq<JobId>>)
    returns (level: seq<JobId>, queue: seq<JobId>, inDegree: map<JobId, nat>)
    requires Enumerates(order, Nodes(edges)) && Adjacency(edges, adj)
    requires InHistory(edges, order, before, whole) && Degrees(edges, before, [], degrees)
    ensures level == whole
    ensures InHistory(edges, order, before + level, queue) && Degrees(edges, before + level, [], inDegree)
    ensures forall v :: v in queue ==> UpstreamInLevel(edges, level, v)
  {
    var levelSize := |whole|;
    level, queue, inDegree := [], whole, degrees;
    ghost var rest, next: seq<JobId> := whole, [];
    assert before + [] == before;
    for i := 0 to levelSize
      invariant |rest| == levelSize - i && level + rest == whole && queue == rest + next
      invariant InHistory(edges, order, before + level, queue) && Degrees(edges, before + level, [], inDegree)
      invariant forall v :: v in next ==> UpstreamInLevel(edges, level, v)
    {
      HistoryFacts(edges, order, before + level, queue);
      ghost var released := Released(edges, before + level, Neighbors(edges, queue[0]));
      ReleasedHaveEdge(edges, before + level, queue[0]);
      TakeFirst(before, level, rest, next, released);
      MoreUpstreams(edges, level, queue[0], next, released);
      var node;
      node, queue, inDegree := EmitNode(edges, order, before + level, queue, inDegree, adj);
      level := level + [node];
      rest, next := rest[1..], next + released;
    }
  }

  // ---- lemmas of the level loop ----

  lemma TakeFirst(before: seq<JobId>, level: seq<JobId>, rest: seq<JobId>, next: seq<JobId>, more: seq<JobId>)
    requires rest != []
    ensures (rest + next)[1..] + more == rest[1..] + (next + more) && level + [rest[0]] + rest[1..] == level + rest
    ensures before + level + [rest[0]] == before + (level + [rest[0]])
  {}

  lemma MoreUpstreams(edges: seq<DagEdge>, level: seq<JobId>, u: JobId, next: seq<JobId>, released: seq<JobId>)
    requires forall v :: v in next ==> UpstreamInLevel(edges, level, v)
    requires forall v :: v in released ==> HasEdge(edges, u, v)
    ensures forall v :: v in next + released ==> UpstreamInLevel(edges, level + [u], v)
  {
    assert forall x :: x in level + [u] <==> x in level || x == u;
  }

  lemma EmptyGraph(edges: seq<DagEdge>, order: seq<JobId>)
    requires edges == [] && Enumerates(order, Nodes(edges))
    ensures Flatten([]) == KahnOrder(edges, order) && Enumerates(Flatten([]), Nodes(edges))
    ensures Acyclic(edges) && ExactLevels(edges, []) && FewestRounds(edges, 0)
  {
    assert Nodes(edges) == {};
    EnumerationSize(order, {});
    assert |Nodes(edges)| == 0;
    KahnDecidesAcyclicity(edges, order);
  }

  ghost predicate Extends(edges: seq<DagEdge>, levels: seq<seq<JobId>>, queue: seq<JobId>) {
    && (forall k :: 0 <= k < |levels| ==> levels[k] != [])
    && (levels != [] ==> forall v :: v in queue ==> UpstreamInLevel(edges, levels[|levels| - 1], v))
  }

  lemma LevelAdded(edges: seq<DagEdge>, levels: seq<seq<JobId>>, level: seq<JobId>, queue: seq<JobId>)
    requires Linked(edges, levels) && level != [] && Extends(edges, levels, level)
    requires forall v, u :: v in level && HasEdge(edges, u, v) ==> u in Flatten(levels)
    requires forall v :: v in queue ==> UpstreamInLevel(edges, level, v)
    ensures Linked(edges, levels + [level]) && Extends(edges, levels + [level], queue)
    ensures Flatten(levels + [level]) == Flatten(levels) + level
  {
    var all := levels + [level];
    assert all[..|levels|] == levels;
    forall k, v | 0 <= k < |all| && v in all[k]
      ensures forall u :: HasEdge(edges, u, v) ==> u in Flatten(all[..k])
      ensures k > 0 ==> UpstreamInLevel(edges, all[k - 1], v)
    {
      assert k < |levels| ==> all[..k] == levels[..k];
      assert k == |levels| ==> all[..k] == levels;
    }
  }

  lemma FinishedLevels(edges: seq<DagEdge>, order: seq<JobId>, levels: seq<seq<JobId>>)
    requires Enumerates(order, Nodes(edges)) && InHistory(edges, order, Flatten(levels), [])
    requires Linked(edges, levels) && Extends(edges, levels, [])
    ensures Flatten(levels) == KahnOrder(edges, order)
    ensures |Flatten(levels)| == |Nodes(edges)| <==> Acyclic(edges)
    ensures Acyclic(edges) ==>
              Enumerates(Flatten(levels), Nodes(edges)) && ExactLevels(edges, levels) && FewestRounds(edges, |levels|)
  {
    HistoryEnds(edges, order, Flatten(levels));
    if Acyclic(edges) {
      LinkedLevelsAreExact(edges, levels);
      LinkedLevelsAreFewest(edges, levels);
    }
  }

  // ---- the two loops agree ----

  // From the same iteration order both loops err on the same inputs, and the levels laid end to
  // end are the order that the cycle check returns.
  method LevelsAgreeWithOrder(edges: seq<DagEdge>, order: seq<JobId>)
    returns (sorted: Result<seq<JobId>>, levels: Result<seq<seq<JobId>>>)
    requires Enumerates(order, Nodes(edges))
    ensures sorted.Ok? <==> levels.Ok?
    ensures sorted.Ok? ==> sorted.value == Flatten(levels.value)
  {
    sorted := ValidateNoCycles(edges, order);
    levels := TopologicalLevels(edges, order);
  }
}
