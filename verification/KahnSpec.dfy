/** Kahn's algorithm as a function: the history of its FIFO queue. The queue's
    history after n pops is a prefix-growing list; its first n entries are the
    nodes emitted so far and the rest is the queue. */
module KahnSpec {
  import opened Graphs

  // The in-degree of v over the edges whose upstream has not been emitted, repeats counted.
  function Pending(edges: seq<DagEdge>, emitted: seq<JobId>, v: JobId): nat {
    if edges == [] then 0 else
      var e := edges[|edges| - 1];
      Pending(edges[..|edges| - 1], emitted, v)
      + if e.downstream == v && e.upstream !in emitted then 1 else 0
  }

  // The downstream ends of u's edges, in edge order, repeats kept.
  function Neighbors(edges: seq<DagEdge>, u: JobId): seq<JobId> {
    if edges == [] then [] else
      var e := edges[|edges| - 1];
      Neighbors(edges[..|edges| - 1], u) + if e.upstream == u then [e.downstream] else []
  }

  function Occurrences(s: seq<JobId>, v: JobId): nat {
    if s == [] then 0 else
      Occurrences(s[..|s| - 1], v) + if s[|s| - 1] == v then 1 else 0
  }

  // The nodes of in-degree zero, in the order the in-degree table yields them.
  function Roots(edges: seq<DagEdge>, order: seq<JobId>): seq<JobId> {
    if order == [] then [] else
      var v := order[|order| - 1];
      Roots(edges, order[..|order| - 1]) + if Pending(edges, [], v) == 0 then [v] else []
  }

  // The neighbours whose remaining in-degree is brought to zero, in push order.
  function Released(edges: seq<DagEdge>, emitted: seq<JobId>, nbrs: seq<JobId>): seq<JobId> {
    if nbrs == [] then [] else
      var v := nbrs[|nbrs| - 1];
      Released(edges, emitted, nbrs[..|nbrs| - 1])
      + if Occurrences(nbrs, v) == Pending(edges, emitted, v) then [v] else []
  }

  // Emitting the (n + 1)-st queued node appends what it releases.
  function Emit(edges: seq<DagEdge>, log: seq<JobId>, n: nat): seq<JobId>
    requires n < |log|
  {
    log + Released(edges, log[..n], Neighbors(edges, log[n]))
  }

  function KahnLog(edges: seq<DagEdge>, roots: seq<JobId>, n: nat): seq<JobId> {
    if n == 0 then roots else
      var log := KahnLog(edges, roots, n - 1);
      if n - 1 < |log| then Emit(edges, log, n - 1) else log
  }

  // Everything ever queued: no more pops than there are nodes can happen.
  function KahnOrder(edges: seq<DagEdge>, order: seq<JobId>): seq<JobId> {
    KahnLog(edges, Roots(edges, order), |Nodes(edges)|)
  }

  // ---- in-degrees ----

  lemma {:induction false} PendingZero(edges: seq<DagEdge>, emitted: seq<JobId>, v: JobId)
    ensures Pending(edges, emitted, v) == 0 <==> forall u :: HasEdge(edges, u, v) ==> u in emitted
  {
    if edges != [] {
      var rest, e := edges[..|edges| - 1], edges[|edges| - 1];
      PendingZero(rest, emitted, v);
      assert forall u :: HasEdge(edges, u, v) <==> HasEdge(rest, u, v) || (e.upstream == u && e.downstream == v) by {
        assert edges == rest + [e];
      }
    }
  }

  lemma OccurrencesAppend(s: seq<JobId>, x: JobId, v: JobId)
    ensures Occurrences(s + [x], v) == Occurrences(s, v) + if x == v then 1 else 0
  {
    assert (s + [x])[..|s|] == s;
  }

  lemma {:induction false} PendingEmit(edges: seq<DagEdge>, emitted: seq<JobId>, u: JobId, v: JobId)
    requires u !in emitted
    ensures Pending(edges, emitted, v) == Pending(edges, emitted + [u], v) + Occurrences(Neighbors(edges, u), v)
  {
    if edges != [] {
      var e := edges[|edges| - 1];
      PendingEmit(edges[..|edges| - 1], emitted, u, v);
      assert e.upstream in emitted + [u] <==> e.upstream in emitted || e.upstream == u;
      var ns := Neighbors(edges[..|edges| - 1], u);
      assert Neighbors(edges, u) == if e.upstream == u then ns + [e.downstream] else ns;
      OccurrencesAppend(ns, e.downstream, v);
    }
  }

  lemma {:induction false} NeighborsAreEdges(edges: seq<DagEdge>, u: JobId, v: JobId)
    ensures v in Neighbors(edges, u) <==> HasEdge(edges, u, v)
  {
    if edges != [] {
      var rest, e := edges[..|edges| - 1], edges[|edges| - 1];
      NeighborsAreEdges(rest, u, v);
      assert HasEdge(edges, u, v) <==> HasEdge(rest, u, v) || (e.upstream == u && e.downstream == v) by {
        assert edges == rest + [e];
      }
    }
  }

  lemma {:induction false} OccurrencesPositive(s: seq<JobId>, v: JobId)
    ensures v in s <==> Occurrences(s, v) > 0
  {
    if s != [] {
      OccurrencesPositive(s[..|s| - 1], v);
      assert s == s[..|s| - 1] + [s[|s| - 1]];
    }
  }

  lemma {:induction false} OccurrencesPrefix(s: seq<JobId>, j: nat, v: JobId)
    requires j <= |s|
    ensures Occurrences(s[..j], v) <= Occurrences(s, v)
  {
    if j < |s| {
      OccurrencesPrefix(s[..|s| - 1], j, v);
      assert s[..|s| - 1][..j] == s[..j];
    } else {
      assert s[..j] == s;
    }
  }

  lemma {:induction false} RootsAre(edges: seq<DagEdge>, order: seq<JobId>)
    requires NoDuplicates(order)
    ensures NoDuplicates(Roots(edges, order))
    ensures forall v :: v in Roots(edges, order) <==> v in order && Pending(edges, [], v) == 0
  {
    if order != [] {
      RootsAre(edges, order[..|order| - 1]);
      assert order == order[..|order| - 1] + [order[|order| - 1]];
    }
  }

  // ---- one emission ----

  ghost predicate Bounded(edges: seq<DagEdge>, emitted: seq<JobId>, nbrs: seq<JobId>) {
    forall v :: Occurrences(nbrs, v) <= Pending(edges, emitted, v)
  }

  lemma {:induction false} ReleasedAre(edges: seq<DagEdge>, emitted: seq<JobId>, nbrs: seq<JobId>)
    requires Bounded(edges, emitted, nbrs)
    ensures NoDuplicates(Released(edges, emitted, nbrs))
    ensures forall v :: v in Released(edges, emitted, nbrs)
              <==> Occurrences(nbrs, v) > 0 && Occurrences(nbrs, v) == Pending(edges, emitted, v)
  {
    if nbrs != [] {
      var rest, x := nbrs[..|nbrs| - 1], nbrs[|nbrs| - 1];
      assert forall v :: Occurrences(nbrs, v) == Occurrences(rest, v) + if x == v then 1 else 0;
      ReleasedAre(edges, emitted, rest);
    }
  }

  // ---- the queue's history ----

  function Popped(log: seq<JobId>, n: nat): seq<JobId> {
    if n <= |log| then log[..n] else log
  }

  ghost predicate LogInvariant(edges: seq<DagEdge>, log: seq<JobId>, n: nat) {
    && NoDuplicates(log)
    && (forall v :: v in log <==> v in Nodes(edges) && Pending(edges, Popped(log, n), v) == 0)
    && PointsForward(edges, log)
  }

  ghost predicate PointsForward(edges: seq<DagEdge>, log: seq<JobId>) {
    forall i, u :: 0 <= i < |log| && HasEdge(edges, u, log[i]) ==> u in log[..i]
  }

  // Emitting the next node keeps the history free of repeats and forward-pointing, and the
  // nodes in it are exactly those whose upstreams have all been emitted.
  lemma {:induction false} LogHolds(edges: seq<DagEdge>, order: seq<JobId>, n: nat)
    requires Enumerates(order, Nodes(edges))
    ensures LogInvariant(edges, KahnLog(edges, Roots(edges, order), n), n)
  {
    if n == 0 {
      LogStarts(edges, order);
    } else {
      LogHolds(edges, order, n - 1);
      var log := KahnLog(edges, Roots(edges, order), n - 1);
      if n - 1 < |log| {
        LogStep(edges, log, n - 1);
      } else {
        LogIdle(edges, log, n - 1);
      }
    }
  }

  lemma LogIdle(edges: seq<DagEdge>, log: seq<JobId>, n: nat)
    requires n >= |log| && LogInvariant(edges, log, n)
    ensures LogInvariant(edges, log, n + 1)
  {
    assert Popped(log, n) == Popped(log, n + 1);
  }

  lemma LogStarts(edges: seq<DagEdge>, order: seq<JobId>)
    requires Enumerates(order, Nodes(edges))
    ensures LogInvariant(edges, Roots(edges, order), 0)
  {
    var roots := Roots(edges, order);
    RootsAre(edges, order);
    forall i, u | 0 <= i < |roots| ensures !HasEdge(edges, u, roots[i]) {
      assert roots[i] in roots;
      PendingZero(edges, [], roots[i]);
    }
    assert Popped(roots, 0) == [];
  }

  lemma EmitBounded(edges: seq<DagEdge>, log: seq<JobId>, n: nat)
    requires n < |log| && NoDuplicates(log)
    ensures Bounded(edges, log[..n], Neighbors(edges, log[n]))
  {
    forall v ensures Occurrences(Neighbors(edges, log[n]), v) <= Pending(edges, log[..n], v) {
      PendingEmit(edges, log[..n], log[n], v);
    }
  }

  lemma ReleasedByEmit(edges: seq<DagEdge>, log: seq<JobId>, n: nat)
    requires n < |log| && LogInvariant(edges, log, n)
    ensures var released := Released(edges, log[..n], Neighbors(edges, log[n]));
            && NoDuplicates(released)
            && forall v :: v in released <==> v in Nodes(edges) && v !in log && Pending(edges, log[..n + 1], v) == 0
  {
    var nbrs := Neighbors(edges, log[n]);
    EmitBounded(edges, log, n);
    ReleasedAre(edges, log[..n], nbrs);
    assert log[..n + 1] == log[..n] + [log[n]];
    forall v ensures v in Released(edges, log[..n], nbrs)
         <==> v in Nodes(edges) && v !in log && Pending(edges, log[..n + 1], v) == 0 {
      PendingEmit(edges, log[..n], log[n], v);
      OccurrencesPositive(nbrs, v);
      NeighborsAreEdges(edges, log[n], v);
    }
  }

  lemma LogStep(edges: seq<DagEdge>, log: seq<JobId>, n: nat)
    requires n < |log| && LogInvariant(edges, log, n)
    ensures LogInvariant(edges, Emit(edges, log, n), n + 1)
  {
    var released := Released(edges, log[..n], Neighbors(edges, log[n]));
    var next := log + released;
    ReleasedByEmit(edges, log, n);
    assert Popped(next, n + 1) == log[..n + 1];
    forall i, j | 0 <= i < j < |next| ensures next[i] != next[j] {
      if i < |log| <= j {
        assert next[i] in log && next[j] in released;
      }
    }
    forall v ensures v in next <==> v in Nodes(edges) && Pending(edges, log[..n + 1], v) == 0 {
      assert log[..n + 1] == log[..n] + [log[n]];
      PendingEmit(edges, log[..n], log[n], v);
    }
    forall i, w | 0 <= i < |next| && HasEdge(edges, w, next[i]) ensures w in next[..i] {
      if i < |log| {
        assert next[..i] == log[..i];
      } else {
        assert next[i] == released[i - |log|];
        assert next[i] in released;
        PendingZero(edges, log[..n + 1], next[i]);
        assert w in log;
        assert next[..i] == log + released[..i - |log|];
      }
    }
  }

  lemma {:induction false} LogStuck(edges: seq<DagEdge>, roots: seq<JobId>, n: nat, m: nat)
    requires n <= m && |KahnLog(edges, roots, n)| <= n
    ensures KahnLog(edges, roots, m) == KahnLog(edges, roots, n)
    decreases m
  {
    if n < m {
      LogStuck(edges, roots, n, m - 1);
    }
  }

  // When the queue runs dry after n pops, its history is the final order.
  lemma LogEnds(edges: seq<DagEdge>, order: seq<JobId>, n: nat)
    requires Enumerates(order, Nodes(edges))
    requires |KahnLog(edges, Roots(edges, order), n)| <= n
    ensures KahnLog(edges, Roots(edges, order), n) == KahnOrder(edges, order)
  {
    var roots, size := Roots(edges, order), |Nodes(edges)|;
    if n <= size {
      LogStuck(edges, roots, n, size);
    } else {
      LogHolds(edges, order, size);
      NoDuplicatesBound(KahnOrder(edges, order), Nodes(edges));
      LogStuck(edges, roots, size, n);
    }
  }

  // Kahn's order covers all nodes exactly when the graph has no cycle, for every edge list and
  // every order in which the in-degree table is iterated; it is then a topological order.
  lemma KahnDecidesAcyclicity(edges: seq<DagEdge>, order: seq<JobId>)
    requires Enumerates(order, Nodes(edges))
    ensures |KahnOrder(edges, order)| == |Nodes(edges)| <==> Acyclic(edges)
    ensures Acyclic(edges) ==> IsTopologicalOrder(edges, KahnOrder(edges, order))
  {
    var log, nodes := KahnOrder(edges, order), Nodes(edges);
    LogHolds(edges, order, |nodes|);
    NoDuplicatesBound(log, nodes);
    assert Popped(log, |nodes|) == log == Popped(log, |log|);
    if forall v :: v in nodes ==> v in log {
      EnumerationSize(log, nodes);
      TopologicalOrderAcyclic(edges, log);
    } else {
      MissingNodes(edges, log);
    }
  }

  lemma MissingNodes(edges: seq<DagEdge>, log: seq<JobId>)
    requires LogInvariant(edges, log, |log|) && exists v :: v in Nodes(edges) && v !in log
    ensures |log| < |Nodes(edges)| && !Acyclic(edges)
  {
    var nodes := Nodes(edges);
    var v :| v in nodes && v !in log;
    NoDuplicatesBound(log, nodes - {v});
    var rest := set w | w in nodes && w !in log;
    assert v in rest;
    forall w {:trigger UpstreamIn(edges, rest, w)} | w in rest ensures UpstreamIn(edges, rest, w) {
      assert Popped(log, |log|) == log;
      PendingZero(edges, log, w);
      var u :| HasEdge(edges, u, w) && u !in log;
      HasEdgeNodes(edges, u, w);
    }
    ClosedUnderUpstreamHasCycle(edges, rest);
  }
}
