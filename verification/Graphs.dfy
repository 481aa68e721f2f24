/** DAG edge lists as directed graphs: walks, reachability, cycles. Edge lists are
    arbitrary: they may repeat an edge and may contain self-loops. */
module Graphs {
  type JobId = string

  datatype DagEdge = DagEdge(id: string, dagId: string, upstream: JobId, downstream: JobId, condition: string)

  predicate HasEdge(edges: seq<DagEdge>, u: JobId, v: JobId) {
    exists e :: e in edges && e.upstream == u && e.downstream == v
  }

  function Nodes(edges: seq<DagEdge>): set<JobId> {
    (set e | e in edges :: e.upstream) + (set e | e in edges :: e.downstream)
  }

  // A walk is the sequence of the nodes it visits, so it has |p| - 1 edges.
  ghost predicate IsWalk(edges: seq<DagEdge>, p: seq<JobId>) {
    |p| > 0 && forall i :: 0 <= i < |p| - 1 ==> Link(edges, p, i)
  }

  ghost predicate Link(edges: seq<DagEdge>, p: seq<JobId>, i: nat)
    requires i < |p| - 1
  {
    HasEdge(edges, p[i], p[i + 1])
  }

  ghost predicate IsWalkFromTo(edges: seq<DagEdge>, p: seq<JobId>, u: JobId, v: JobId) {
    IsWalk(edges, p) && p[0] == u && p[|p| - 1] == v
  }

  // u reaches v in zero or more edges
  ghost predicate Reaches(edges: seq<DagEdge>, u: JobId, v: JobId) {
    exists p :: IsWalkFromTo(edges, p, u, v)
  }

  // u is a transitive upstream of v: one or more edges
  ghost predicate Ancestor(edges: seq<DagEdge>, u: JobId, v: JobId) {
    exists p :: IsWalkFromTo(edges, p, u, v) && |p| >= 2
  }

  // No walk with at least one edge returns to its start.
  ghost predicate Acyclic(edges: seq<DagEdge>) {
    forall v :: !Ancestor(edges, v, v)
  }

  ghost predicate NoDuplicates<T>(s: seq<T>) {
    forall i, j :: 0 <= i < j < |s| ==> s[i] != s[j]
  }

  ghost predicate Enumerates<T>(s: seq<T>, all: set<T>) {
    NoDuplicates(s) && (forall x :: x in s ==> x in all) && (forall x :: x in all ==> x in s)
  }

  // s lists every node once, and every edge points forward in it.
  ghost predicate IsTopologicalOrder(edges: seq<DagEdge>, s: seq<JobId>) {
    && Enumerates(s, Nodes(edges))
    && forall i, u :: 0 <= i < |s| && HasEdge(edges, u, s[i]) ==> u in s[..i]
  }

  // ---- walks ----

  lemma HasEdgeNodes(edges: seq<DagEdge>, u: JobId, v: JobId)
    requires HasEdge(edges, u, v)
    ensures u in Nodes(edges) && v in Nodes(edges)
  {}

  lemma ConcatWalks(edges: seq<DagEdge>, p: seq<JobId>, q: seq<JobId>)
    requires IsWalk(edges, p) && IsWalk(edges, q) && p[|p| - 1] == q[0]
    ensures IsWalkFromTo(edges, p + q[1..], p[0], q[|q| - 1])
  {
    var r := p + q[1..];
    forall i | 0 <= i < |r| - 1 ensures Link(edges, r, i) {
      if i < |p| - 1 {
        assert Link(edges, p, i);
      } else {
        assert Link(edges, q, i - (|p| - 1));
      }
    }
  }

  lemma SubWalk(edges: seq<DagEdge>, p: seq<JobId>, i: nat, j: nat)
    requires IsWalk(edges, p) && i <= j < |p|
    ensures IsWalkFromTo(edges, p[i..j + 1], p[i], p[j])
  {
    var r := p[i..j + 1];
    forall k | 0 <= k < |r| - 1 ensures Link(edges, r, k) {
      assert Link(edges, p, i + k);
    }
  }

  lemma EdgeWalk(edges: seq<DagEdge>, u: JobId, v: JobId)
    requires HasEdge(edges, u, v)
    ensures IsWalkFromTo(edges, [u, v], u, v)
  {}

  lemma ReachesTransitive(edges: seq<DagEdge>, u: JobId, v: JobId, w: JobId)
    requires Reaches(edges, u, v) && Reaches(edges, v, w)
    ensures Reaches(edges, u, w)
  {
    var p :| IsWalkFromTo(edges, p, u, v);
    var q :| IsWalkFromTo(edges, q, v, w);
    ConcatWalks(edges, p, q);
  }

  lemma EdgeThenReaches(edges: seq<DagEdge>, u: JobId, v: JobId, w: JobId)
    requires HasEdge(edges, u, v) && Reaches(edges, v, w)
    ensures Ancestor(edges, u, w)
  {
    var p :| IsWalkFromTo(edges, p, v, w);
    EdgeWalk(edges, u, v);
    ConcatWalks(edges, [u, v], p);
  }

  // ---- pigeonhole ----

  lemma {:induction false} NoDuplicatesBound<T>(s: seq<T>, all: set<T>)
    requires NoDuplicates(s) && forall x :: x in s ==> x in all
    ensures |s| <= |all|
  {
    if s != [] {
      var last := s[|s| - 1];
      assert last in s;
      forall x | x in s[..|s| - 1] ensures x in all - {last} {}
      NoDuplicatesBound(s[..|s| - 1], all - {last});
    }
  }

  lemma {:induction false} EnumerationSize<T>(s: seq<T>, all: set<T>)
    requires Enumerates(s, all)
    ensures |s| == |all|
  {
    if s == [] {
      assert all == {};
    } else {
      var last := s[|s| - 1];
      assert last in s;
      EnumerationSize(s[..|s| - 1], all - {last});
    }
  }

  // ---- cycles ----

  ghost predicate UpstreamIn(edges: seq<DagEdge>, s: set<JobId>, v: JobId) {
    exists u :: u in s && HasEdge(edges, u, v)
  }

  // A nonempty set whose every member has an upstream in the set holds a cycle.
  lemma ClosedUnderUpstreamHasCycle(edges: seq<DagEdge>, s: set<JobId>)
    requires s != {}
    requires forall v {:trigger UpstreamIn(edges, s, v)} :: v in s ==> UpstreamIn(edges, s, v)
    ensures !Acyclic(edges)
  {
    var p := BackwardWalk(edges, s, |s|);
    if NoDuplicates(p) {
      NoDuplicatesBound(p, s);
      assert false;
    }
    var i, j :| 0 <= i < j < |p| && p[i] == p[j];
    SubWalk(edges, p, i, j);
    assert Ancestor(edges, p[i], p[i]);
  }

  lemma {:induction false} BackwardWalk(edges: seq<DagEdge>, s: set<JobId>, n: nat) returns (p: seq<JobId>)
    requires s != {}
    requires forall v {:trigger UpstreamIn(edges, s, v)} :: v in s ==> UpstreamIn(edges, s, v)
    ensures |p| == n + 1 && IsWalk(edges, p) && forall x :: x in p ==> x in s
  {
    if n == 0 {
      var v :| v in s;
      p := [v];
    } else {
      var q := BackwardWalk(edges, s, n - 1);
      assert q[0] in s;
      assert UpstreamIn(edges, s, q[0]);
      var u :| u in s && HasEdge(edges, u, q[0]);
      EdgeWalk(edges, u, q[0]);
      ConcatWalks(edges, [u, q[0]], q);
      p := [u, q[0]] + q[1..];
    }
  }

  lemma TopologicalOrderAcyclic(edges: seq<DagEdge>, s: seq<JobId>)
    requires IsTopologicalOrder(edges, s)
    ensures Acyclic(edges)
  {
    forall v ensures !Ancestor(edges, v, v) {
      if Ancestor(edges, v, v) {
        var p :| IsWalkFromTo(edges, p, v, v) && |p| >= 2;
        assert Link(edges, p, |p| - 2);
        assert v in s;
        var i :| 0 <= i < |s| && s[i] == v;
        WalkGoesForward(edges, s, p, i);
      }
    }
  }

  lemma {:induction false} WalkGoesForward(edges: seq<DagEdge>, s: seq<JobId>, p: seq<JobId>, i: nat)
    requires IsTopologicalOrder(edges, s) && IsWalk(edges, p) && |p| >= 2
    requires i < |s| && s[i] == p[|p| - 1]
    ensures p[0] in s[..i]
  {
    var u := p[|p| - 2];
    assert Link(edges, p, |p| - 2);
    assert u in s[..i];
    var j :| 0 <= j < i && s[j] == u;
    if |p| > 2 {
      SubWalk(edges, p, 0, |p| - 2);
      WalkGoesForward(edges, s, p[..|p| - 1], j);
    }
  }

  // A walk in a smaller graph is a walk in a larger one.
  lemma SubgraphWalk(small: seq<DagEdge>, big: seq<DagEdge>, p: seq<JobId>)
    requires IsWalk(small, p)
    requires forall u, v :: HasEdge(small, u, v) ==> HasEdge(big, u, v)
    ensures IsWalk(big, p)
  {
    forall i | 0 <= i < |p| - 1 ensures Link(big, p, i) {
      assert Link(small, p, i);
    }
  }

  lemma SubgraphAcyclic(small: seq<DagEdge>, big: seq<DagEdge>)
    requires Acyclic(big)
    requires forall u, v :: HasEdge(small, u, v) ==> HasEdge(big, u, v)
    ensures Acyclic(small)
  {
    forall v, p | IsWalkFromTo(small, p, v, v) && |p| >= 2 ensures Ancestor(big, v, v) {
      SubgraphWalk(small, big, p);
      assert IsWalkFromTo(big, p, v, v);
    }
  }

  // A walk in edges + [e] either avoids e, or reaches e's upstream and then goes on from e's downstream.
  lemma {:induction false} WalkThroughNewEdge(edges: seq<DagEdge>, e: DagEdge, p: seq<JobId>)
    requires IsWalk(edges + [e], p)
    ensures IsWalk(edges, p) || (Reaches(edges, p[0], e.upstream) && Reaches(edges, e.downstream, p[|p| - 1]))
  {
    if |p| > 1 {
      var q := p[..|p| - 1];
      var x, y := p[|p| - 2], p[|p| - 1];
      SubWalk(edges + [e], p, 0, |p| - 2);
      assert p[0..|p| - 1] == q;
      WalkThroughNewEdge(edges, e, q);
      assert Link(edges + [e], p, |p| - 2);
      if HasEdge(edges, x, y) {
        EdgeWalk(edges, x, y);
        if IsWalk(edges, q) {
          ConcatWalks(edges, q, [x, y]);
          assert q + [x, y][1..] == p;
        } else {
          assert IsWalkFromTo(edges, [x, y], x, y);
          ReachesTransitive(edges, e.downstream, x, y);
        }
      } else {
        assert x == e.upstream && y == e.downstream;
        assert IsWalkFromTo(edges, [y], y, y);
        assert IsWalk(edges, q) ==> IsWalkFromTo(edges, q, p[0], x);
      }
    }
  }

  // Adding u -> v to an acyclic graph closes a cycle exactly when u == v or v already reaches u.
  lemma AddEdgeAcyclic(edges: seq<DagEdge>, e: DagEdge)
    requires Acyclic(edges)
    ensures Acyclic(edges + [e]) <==> e.upstream != e.downstream && !Reaches(edges, e.downstream, e.upstream)
  {
    var big := edges + [e];
    var u, v := e.upstream, e.downstream;
    assert HasEdge(big, u, v) by { assert e in big; }
    assert forall a, b :: HasEdge(edges, a, b) ==> HasEdge(big, a, b);
    if Reaches(edges, v, u) {
      var p :| IsWalkFromTo(edges, p, v, u);
      SubgraphWalk(edges, big, p);
      assert IsWalkFromTo(big, p, v, u);
      EdgeThenReaches(big, u, v, u);
    }
    if u == v {
      EdgeWalk(big, u, v);
      assert Ancestor(big, u, u);
    }
    if !Acyclic(big) {
      var x :| Ancestor(big, x, x);
      var p :| IsWalkFromTo(big, p, x, x) && |p| >= 2;
      WalkThroughNewEdge(edges, e, p);
      assert IsWalkFromTo(edges, p, x, x) ==> Ancestor(edges, x, x);
      if !IsWalk(edges, p) {
        ReachesTransitive(edges, v, x, u);
      }
    }
  }
}
