/** What the levels of a graph are: longest-path depth, and the least number of rounds. */
module Layering {
  import opened Graphs

  function Flatten(levels: seq<seq<JobId>>): seq<JobId> {
    if levels == [] then [] else Flatten(levels[..|levels| - 1]) + levels[|levels| - 1]
  }

  // The longest walk that ends in v has exactly k edges.
  ghost predicate LongestIncoming(edges: seq<DagEdge>, v: JobId, k: nat) {
    && (exists p :: IsWalk(edges, p) && p[|p| - 1] == v && |p| == k + 1)
    && (forall p :: IsWalk(edges, p) && p[|p| - 1] == v ==> |p| <= k + 1)
  }

  // Level k holds precisely the nodes at depth k.
  ghost predicate ExactLevels(edges: seq<DagEdge>, levels: seq<seq<JobId>>) {
    forall k, v :: 0 <= k < |levels| ==>
      (v in levels[k] <==> v in Nodes(edges) && LongestIncoming(edges, v, k))
  }

  // An assignment of rounds 0 .. rounds - 1 in which every edge goes to a later round.
  ghost predicate IsSchedule(edges: seq<DagEdge>, round: map<JobId, nat>, rounds: nat) {
    && (forall v :: v in Nodes(edges) ==> v in round && round[v] < rounds)
    && (forall u, v :: u in round && v in round && HasEdge(edges, u, v) ==> round[u] < round[v])
  }

  ghost predicate FewestRounds(edges: seq<DagEdge>, rounds: nat) {
    forall round, n :: IsSchedule(edges, round, n) ==> rounds <= n
  }

  // How the levels are linked: every upstream lies in an earlier level, and some upstream
  // lies in the level just before.
  ghost predicate Linked(edges: seq<DagEdge>, levels: seq<seq<JobId>>) {
    forall k, v :: 0 <= k < |levels| && v in levels[k] ==>
      && (forall u :: HasEdge(edges, u, v) ==> u in Flatten(levels[..k]))
      && (k > 0 ==> UpstreamInLevel(edges, levels[k - 1], v))
  }

  ghost predicate UpstreamInLevel(edges: seq<DagEdge>, level: seq<JobId>, v: JobId) {
    exists u :: u in level && HasEdge(edges, u, v)
  }

  lemma {:induction false} InFlatten(levels: seq<seq<JobId>>, v: JobId) returns (k: nat)
    requires v in Flatten(levels)
    ensures k < |levels| && v in levels[k]
  {
    var last := |levels| - 1;
    if v in levels[last] {
      k := last;
    } else {
      k := InFlatten(levels[..last], v);
    }
  }

  lemma {:induction false} LevelInFlatten(levels: seq<seq<JobId>>, k: nat, v: JobId)
    requires k < |levels| && v in levels[k]
    ensures v in Flatten(levels)
  {
    if k < |levels| - 1 {
      LevelInFlatten(levels[..|levels| - 1], k, v);
    }
  }

  // There is a walk with k edges into each node of level k ...
  lemma {:induction false} WalkToLevel(edges: seq<DagEdge>, levels: seq<seq<JobId>>, k: nat, v: JobId)
    returns (p: seq<JobId>)
    requires Linked(edges, levels) && k < |levels| && v in levels[k]
    ensures IsWalk(edges, p) && p[|p| - 1] == v && |p| == k + 1
  {
    if k == 0 {
      p := [v];
    } else {
      var u :| u in levels[k - 1] && HasEdge(edges, u, v);
      var q := WalkToLevel(edges, levels, k - 1, u);
      EdgeWalk(edges, u, v);
      ConcatWalks(edges, q, [u, v]);
      p := q + [u, v][1..];
    }
  }

  lemma WithoutLast(edges: seq<DagEdge>, p: seq<JobId>) returns (q: seq<JobId>)
    requires IsWalk(edges, p) && |p| > 1
    ensures q == p[..|p| - 1] && IsWalk(edges, q) && HasEdge(edges, q[|q| - 1], p[|p| - 1])
  {
    q := p[..|p| - 1];
    assert Link(edges, p, |p| - 2);
    SubWalk(edges, p, 0, |p| - 2);
    assert p[0..|p| - 1] == q;
  }

  // ... and none with more.
  lemma {:induction false} WalkBoundedByLevel(edges: seq<DagEdge>, levels: seq<seq<JobId>>, k: nat, p: seq<JobId>)
    requires Linked(edges, levels) && k < |levels| && IsWalk(edges, p) && p[|p| - 1] in levels[k]
    ensures |p| <= k + 1
  {
    if |p| > 1 {
      var q := WithoutLast(edges, p);
      var m := InFlatten(levels[..k], q[|q| - 1]);
      assert levels[..k][m] == levels[m];
      WalkBoundedByLevel(edges, levels, m, q);
    }
  }

  lemma LinkedLevelsAreExact(edges: seq<DagEdge>, levels: seq<seq<JobId>>)
    requires Linked(edges, levels) && Enumerates(Flatten(levels), Nodes(edges))
    ensures ExactLevels(edges, levels)
  {
    forall k, v | 0 <= k < |levels|
      ensures v in levels[k] <==> v in Nodes(edges) && LongestIncoming(edges, v, k)
    {
      if v in levels[k] {
        LevelInFlatten(levels, k, v);
        LevelIsDepth(edges, levels, k, v);
      } else if v in Nodes(edges) && LongestIncoming(edges, v, k) {
        var m := InFlatten(levels, v);
        LevelIsDepth(edges, levels, m, v);
        DepthIsUnique(edges, v, k, m);
      }
    }
  }

  lemma DepthIsUnique(edges: seq<DagEdge>, v: JobId, k: nat, m: nat)
    requires LongestIncoming(edges, v, k) && LongestIncoming(edges, v, m)
    ensures k == m
  {}

  lemma LevelIsDepth(edges: seq<DagEdge>, levels: seq<seq<JobId>>, k: nat, v: JobId)
    requires Linked(edges, levels) && k < |levels| && v in levels[k]
    ensures LongestIncoming(edges, v, k)
  {
    var p := WalkToLevel(edges, levels, k, v);
    forall q | IsWalk(edges, q) && q[|q| - 1] == v ensures |q| <= k + 1 {
      WalkBoundedByLevel(edges, levels, k, q);
    }
  }

  lemma {:induction false} RoundsGrowAlongWalk(edges: seq<DagEdge>, round: map<JobId, nat>, rounds: nat, p: seq<JobId>)
    requires IsSchedule(edges, round, rounds) && IsWalk(edges, p) && forall x :: x in p ==> x in Nodes(edges)
    ensures round[p[|p| - 1]] >= |p| - 1
  {
    if |p| > 1 {
      var q := WithoutLast(edges, p);
      RoundsGrowAlongWalk(edges, round, rounds, q);
      assert p[|p| - 2] in p && p[|p| - 1] in p;
    }
  }

  lemma WalkInNodes(edges: seq<DagEdge>, p: seq<JobId>)
    requires IsWalk(edges, p) && p[|p| - 1] in Nodes(edges)
    ensures forall x :: x in p ==> x in Nodes(edges)
  {
    forall i | 0 <= i < |p| ensures p[i] in Nodes(edges) {
      if i < |p| - 1 {
        assert Link(edges, p, i);
        HasEdgeNodes(edges, p[i], p[i + 1]);
      }
    }
  }

  lemma LinkedLevelsAreFewest(edges: seq<DagEdge>, levels: seq<seq<JobId>>)
    requires Linked(edges, levels) && Enumerates(Flatten(levels), Nodes(edges))
    requires forall k :: 0 <= k < |levels| ==> levels[k] != []
    ensures FewestRounds(edges, |levels|)
  {
    forall round, n | IsSchedule(edges, round, n) ensures |levels| <= n {
      if levels != [] {
        var k := |levels| - 1;
        var v := levels[k][0];
        LevelInFlatten(levels, k, v);
        var p := WalkToLevel(edges, levels, k, v);
        WalkInNodes(edges, p);
        RoundsGrowAlongWalk(edges, round, n, p);
      }
    }
  }
}
