/** Queue items, their order, and the in-memory heap as a collection with pop-max (src/models/queue.rs).
    The collection is a sequence in no particular order: pop takes the greatest item. */
module QueueItems {
  type ExecId = string

  datatype QueueItem = QueueItem(executionId: ExecId, jobId: string, priority: int)

  // ---- the order of items: priority, then execution id ----

  // Lexicographic order, as Rust orders strings.
  predicate StringAtMost(a: string, b: string) {
    a == "" || (b != "" && (a[0] < b[0] || (a[0] == b[0] && StringAtMost(a[1..], b[1..]))))
  }

  predicate AtMost(a: QueueItem, b: QueueItem) {
    a.priority < b.priority || (a.priority == b.priority && StringAtMost(a.executionId, b.executionId))
  }

  lemma {:induction false} StringOrderTotal(a: string, b: string)
    ensures StringAtMost(a, b) || StringAtMost(b, a)
    ensures StringAtMost(a, b) && StringAtMost(b, a) ==> a == b
  {
    if a != "" && b != "" {
      StringOrderTotal(a[1..], b[1..]);
      assert a == [a[0]] + a[1..] && b == [b[0]] + b[1..];
    }
  }

  lemma {:induction false} StringOrderTransitive(a: string, b: string, c: string)
    requires StringAtMost(a, b) && StringAtMost(b, c)
    ensures StringAtMost(a, c)
  {
    if a != "" {
      if a[0] == b[0] == c[0] { StringOrderTransitive(a[1..], b[1..], c[1..]); }
    }
  }

  lemma ItemOrderTotal(a: QueueItem, b: QueueItem)
    ensures AtMost(a, b) || AtMost(b, a)
    ensures AtMost(a, b) && AtMost(b, a) ==> a.executionId == b.executionId && a.priority == b.priority
  {
    StringOrderTotal(a.executionId, b.executionId);
  }

  lemma ItemOrderTransitive(a: QueueItem, b: QueueItem, c: QueueItem)
    requires AtMost(a, b) && AtMost(b, c)
    ensures AtMost(a, c)
  {
    if a.priority == b.priority == c.priority { StringOrderTransitive(a.executionId, b.executionId, c.executionId); }
  }

  // They agree up to k, where a has the smaller character.
  predicate SmallerAt(a: string, b: string, k: nat) { k < |a| && k < |b| && a[..k] == b[..k] && a[k] < b[k] }

  lemma SmallerFurtherOn(a: string, b: string, k: nat)
    requires a != "" && b != "" && a[0] == b[0]
    ensures SmallerAt(a, b, k + 1) <==> SmallerAt(a[1..], b[1..], k)
  {
    if k < |a[1..]| && k < |b[1..]| {
      assert a[..k + 1] == [a[0]] + a[1..][..k] && b[..k + 1] == [b[0]] + b[1..][..k];
    }
  }

  lemma SmallerAtOnce(a: string, b: string)
    requires a != "" && b != ""
    ensures SmallerAt(a, b, 0) <==> a[0] < b[0]
    ensures a[0] != b[0] ==> forall k: nat :: SmallerAt(a, b, k) ==> k == 0
  {
    forall k: nat | SmallerAt(a, b, k) && k > 0 ensures a[0] == b[0] {
      assert a[..k][0] == b[..k][0];
    }
  }

  // b is a or continues it, or they first differ where a has the smaller character.
  lemma {:induction false} LexicographicExactlyWhen(a: string, b: string)
    ensures StringAtMost(a, b) <==> a <= b || exists k: nat :: SmallerAt(a, b, k)
  {
    if a != "" && b != "" {
      SmallerAtOnce(a, b);
      if a[0] == b[0] {
        LexicographicExactlyWhen(a[1..], b[1..]);
        assert a <= b <==> a[1..] <= b[1..];
        SmallerExistsFurtherOn(a, b);
      }
    }
  }

  lemma SmallerExistsFurtherOn(a: string, b: string)
    requires a != "" && b != "" && a[0] == b[0]
    ensures (exists k: nat :: SmallerAt(a, b, k)) <==> exists k: nat :: SmallerAt(a[1..], b[1..], k)
  {
    if k: nat :| SmallerAt(a, b, k) {
      SmallerFurtherOn(a, b, k - 1);
    }
    if k: nat :| SmallerAt(a[1..], b[1..], k) {
      SmallerFurtherOn(a, b, k);
    }
  }

  // ---- the heap ----

  predicate HasId(heap: seq<QueueItem>, id: ExecId) { exists i :: 0 <= i < |heap| && heap[i].executionId == id }

  ghost predicate DistinctIds(heap: seq<QueueItem>) {
    forall i, j :: 0 <= i < |heap| && 0 <= j < |heap| && heap[i].executionId == heap[j].executionId ==> i == j
  }

  ghost predicate IsGreatest(heap: seq<QueueItem>, item: QueueItem) {
    item in heap && forall x :: x in heap ==> AtMost(x, item)
  }

  function MaxIndex(heap: seq<QueueItem>): (i: nat)
    requires heap != []
    ensures i < |heap| && IsGreatest(heap, heap[i])
  {
    var last := heap[|heap| - 1];
    if |heap| == 1 then
      ItemOrderTotal(last, last);
      0
    else
      var front := heap[..|heap| - 1];
      var m := MaxIndex(front);
      ItemOrderTotal(last, last);
      ItemOrderTotal(last, front[m]);
      assert heap == front + [last];
      if AtMost(last, front[m]) then m else
        assert forall x :: x in front ==> AtMost(x, last) by {
          forall x | x in front ensures AtMost(x, last) { ItemOrderTransitive(x, front[m], last); }
        }
        |heap| - 1
  }

  function Greatest(heap: seq<QueueItem>): (m: QueueItem)
    requires heap != []
    ensures IsGreatest(heap, m)
  {
    heap[MaxIndex(heap)]
  }

  function WithoutIndex(heap: seq<QueueItem>, i: nat): seq<QueueItem>
    requires i < |heap|
  {
    heap[..i] + heap[i + 1..]
  }

  function Rest(heap: seq<QueueItem>): (r: seq<QueueItem>)
    requires heap != []
    ensures |r| == |heap| - 1
  {
    WithoutIndex(heap, MaxIndex(heap))
  }

  // Popping until the heap is empty.
  function DrainHeap(heap: seq<QueueItem>): seq<QueueItem>
    decreases |heap|
  {
    if heap == [] then [] else [Greatest(heap)] + DrainHeap(Rest(heap))
  }

  function WithoutId(heap: seq<QueueItem>, id: ExecId): seq<QueueItem> {
    if heap == [] then [] else
      WithoutId(heap[..|heap| - 1], id) + if heap[|heap| - 1].executionId == id then [] else [heap[|heap| - 1]]
  }

  ghost predicate Descending(s: seq<QueueItem>) {
    forall i, j :: 0 <= i < j < |s| ==> AtMost(s[j], s[i])
  }

  // ---- what the heap operations do ----

  lemma RestIs(heap: seq<QueueItem>)
    requires heap != []
    ensures multiset(Rest(heap)) + multiset{Greatest(heap)} == multiset(heap)
    ensures DistinctIds(heap) ==> DistinctIds(Rest(heap)) && !HasId(Rest(heap), Greatest(heap).executionId)
    ensures DistinctIds(heap) ==> forall x :: x in Rest(heap) <==> x in heap && x != Greatest(heap)
    ensures forall x :: x in Rest(heap) ==> x in heap
  {
    var m := MaxIndex(heap);
    assert heap == heap[..m] + [heap[m]] + heap[m + 1..];
    if DistinctIds(heap) {
      OthersRemain(heap, m);
    }
  }

  lemma OthersRemain(heap: seq<QueueItem>, m: nat)
    requires m < |heap| && DistinctIds(heap)
    ensures var r := WithoutIndex(heap, m);
            && DistinctIds(r) && !HasId(r, heap[m].executionId)
            && forall x :: x in r <==> x in heap && x != heap[m]
  {
    var r := WithoutIndex(heap, m);
    assert forall i :: 0 <= i < |r| ==> r[i] == heap[if i < m then i else i + 1];
    forall x | x in heap && x != heap[m] ensures x in r {
      var k :| 0 <= k < |heap| && heap[k] == x;
      assert x == r[if k < m then k else k - 1];
    }
  }

  lemma {:induction false} WithoutIdIs(heap: seq<QueueItem>, id: ExecId)
    ensures forall x :: x in WithoutId(heap, id) <==> x in heap && x.executionId != id
    ensures |WithoutId(heap, id)| <= |heap|
  {
    if heap != [] {
      WithoutIdIs(heap[..|heap| - 1], id);
      assert heap == heap[..|heap| - 1] + [heap[|heap| - 1]];
    }
  }

  lemma {:induction false} WithoutIdDistinct(heap: seq<QueueItem>, id: ExecId)
    requires DistinctIds(heap)
    ensures DistinctIds(WithoutId(heap, id))
  {
    if heap != [] {
      var front, last := heap[..|heap| - 1], heap[|heap| - 1];
      assert heap == front + [last];
      PushKeepsDistinct(front, last);
      WithoutIdDistinct(front, id);
      WithoutIdIs(front, id);
      MembersAndIds(WithoutId(front, id), last.executionId);
      MembersAndIds(front, last.executionId);
      PushKeepsDistinct(WithoutId(front, id), last);
    }
  }

  lemma MembersAndIds(heap: seq<QueueItem>, id: ExecId)
    ensures HasId(heap, id) <==> exists x :: x in heap && x.executionId == id
  {}

  lemma PushKeepsDistinct(heap: seq<QueueItem>, item: QueueItem)
    ensures DistinctIds(heap + [item]) <==> DistinctIds(heap) && !HasId(heap, item.executionId)
  {
    var h := heap + [item];
    if DistinctIds(h) {
      assert forall i :: 0 <= i < |heap| ==> heap[i] == h[i];
    }
    if HasId(heap, item.executionId) {
      var i :| 0 <= i < |heap| && heap[i].executionId == item.executionId;
      assert h[i].executionId == h[|heap|].executionId;
    }
  }

  // ---- the order in which items come out ----

  lemma {:induction false} DrainIsSorted(heap: seq<QueueItem>)
    ensures Descending(DrainHeap(heap)) && multiset(DrainHeap(heap)) == multiset(heap)
    ensures var d := DrainHeap(heap);
            forall i, j :: 0 <= i < j < |d| ==>
              || d[i].priority > d[j].priority
              || (d[i].priority == d[j].priority && StringAtMost(d[j].executionId, d[i].executionId))
    decreases |heap|
  {
    if heap != [] {
      RestIs(heap);
      DrainIsSorted(Rest(heap));
      SameElements(DrainHeap(Rest(heap)), Rest(heap));
      PrependGreatest(Greatest(heap), DrainHeap(Rest(heap)));
    }
  }

  lemma PrependGreatest(top: QueueItem, s: seq<QueueItem>)
    requires Descending(s) && forall x :: x in s ==> AtMost(x, top)
    ensures Descending([top] + s) && multiset([top] + s) == multiset(s) + multiset{top}
  {
    forall i, j | 0 <= i < j < |s| + 1 ensures AtMost(([top] + s)[j], ([top] + s)[i]) {
      assert s[j - 1] in s;
    }
  }

  lemma SameElements(s: seq<QueueItem>, t: seq<QueueItem>)
    requires multiset(s) == multiset(t)
    ensures forall x :: x in s <==> x in t
  {
    forall x ensures x in s <==> x in t {
      assert x in s <==> x in multiset(s);
      assert x in t <==> x in multiset(t);
    }
  }

  lemma GreatestIsUnique(heap: seq<QueueItem>, a: QueueItem, b: QueueItem)
    requires DistinctIds(heap) && IsGreatest(heap, a) && IsGreatest(heap, b)
    ensures a == b
  {
    ItemOrderTotal(a, b);
    var i :| 0 <= i < |heap| && heap[i] == a;
    var j :| 0 <= j < |heap| && heap[j] == b;
  }

  lemma HeadIsGreatest(s: seq<QueueItem>)
    requires Descending(s) && s != []
    ensures IsGreatest(s, s[0])
  {
    ItemOrderTotal(s[0], s[0]);
  }

  // A descending listing of items with distinct ids is determined by its elements.
  lemma {:induction false} DescendingIsUnique(s: seq<QueueItem>, t: seq<QueueItem>)
    requires Descending(s) && Descending(t) && multiset(s) == multiset(t) && DistinctIds(s)
    ensures s == t
  {
    assert |s| == |multiset(s)| == |t|;
    if s != [] {
      SameElements(s, t);
      HeadIsGreatest(s);
      HeadIsGreatest(t);
      GreatestIsUnique(s, s[0], t[0]);
      TailMultiset(s);
      TailMultiset(t);
      TailDistinct(s);
      DescendingIsUnique(s[1..], t[1..]);
    }
  }

  lemma TailMultiset(s: seq<QueueItem>)
    requires s != []
    ensures s == [s[0]] + s[1..] && multiset(s[1..]) == multiset(s) - multiset{s[0]}
  {
    assert s == [s[0]] + s[1..];
  }

  lemma TailDistinct(s: seq<QueueItem>)
    requires s != [] && DistinctIds(s)
    ensures DistinctIds(s[1..])
  {
    forall i, j | 0 <= i < |s| - 1 && 0 <= j < |s| - 1 && s[1..][i].executionId == s[1..][j].executionId
      ensures i == j
    {
      assert s[i + 1].executionId == s[j + 1].executionId;
    }
  }

  lemma DistinctIdsOfPermutation(s: seq<QueueItem>, t: seq<QueueItem>)
    requires multiset(s) == multiset(t) && DistinctIds(s)
    ensures DistinctIds(t)
  {
    SameElements(s, t);
    forall i, j | 0 <= i < j < |t| ensures t[i].executionId != t[j].executionId {
      assert t[i] in s && t[j] in s;
      var a :| 0 <= a < |s| && s[a] == t[i];
      OccursOnce(s, a);
      OccursTwice(t, i, j);
    }
  }

  lemma OccursTwice(t: seq<QueueItem>, i: nat, j: nat)
    requires i < j < |t|
    ensures t[i] == t[j] ==> multiset(t)[t[i]] >= 2
  {
    assert t == t[..j] + [t[j]] + t[j + 1..];
    assert t[..j][i] in t[..j];
    assert multiset(t) == multiset(t[..j]) + multiset{t[j]} + multiset(t[j + 1..]);
  }

  lemma OccursOnce(s: seq<QueueItem>, a: nat)
    requires DistinctIds(s) && a < |s|
    ensures multiset(s)[s[a]] == 1
  {
    assert s == s[..a] + [s[a]] + s[a + 1..];
    assert s[a] !in s[..a] && s[a] !in s[a + 1..];
  }

  // The pop order does not depend on the order of insertion.
  lemma DrainIgnoresInsertionOrder(heap: seq<QueueItem>, other: seq<QueueItem>)
    requires DistinctIds(heap) && multiset(heap) == multiset(other)
    ensures DrainHeap(heap) == DrainHeap(other)
  {
    DrainIsSorted(heap);
    DrainIsSorted(other);
    DistinctIdsOfPermutation(heap, DrainHeap(heap));
    DescendingIsUnique(DrainHeap(heap), DrainHeap(other));
  }

  lemma {:induction false} WithoutIdMultiset(s: seq<QueueItem>, t: seq<QueueItem>, id: ExecId)
    requires multiset(s) == multiset(t)
    ensures multiset(WithoutId(s, id)) == multiset(WithoutId(t, id))
  {
    forall x ensures multiset(WithoutId(s, id))[x] == multiset(WithoutId(t, id))[x] {
      WithoutIdCount(s, id, x);
      WithoutIdCount(t, id, x);
    }
  }

  lemma {:induction false} WithoutIdCount(s: seq<QueueItem>, id: ExecId, x: QueueItem)
    ensures multiset(WithoutId(s, id))[x] == if x.executionId == id then 0 else multiset(s)[x]
  {
    if s != [] {
      WithoutIdCount(s[..|s| - 1], id, x);
      assert s == s[..|s| - 1] + [s[|s| - 1]];
    }
  }

  lemma {:induction false} WithoutIdDescending(s: seq<QueueItem>, id: ExecId)
    requires Descending(s)
    ensures Descending(WithoutId(s, id))
  {
    if s != [] {
      var front, last := s[..|s| - 1], s[|s| - 1];
      WithoutIdDescending(front, id);
      WithoutIdIs(front, id);
      var w := WithoutId(front, id);
      forall i | 0 <= i < |w| ensures AtMost(last, w[i]) {
        assert w[i] in front;
      }
    }
  }

  // Removing an execution and then draining is draining and then leaving it out.
  lemma RemoveThenDrain(heap: seq<QueueItem>, id: ExecId)
    requires DistinctIds(heap)
    ensures DrainHeap(WithoutId(heap, id)) == WithoutId(DrainHeap(heap), id)
  {
    var removed := WithoutId(heap, id);
    WithoutIdDistinct(heap, id);
    DrainIsSorted(heap);
    DrainIsSorted(removed);
    WithoutIdDescending(DrainHeap(heap), id);
    WithoutIdMultiset(heap, DrainHeap(heap), id);
    DistinctIdsOfPermutation(removed, DrainHeap(removed));
    DescendingIsUnique(DrainHeap(removed), WithoutId(DrainHeap(heap), id));
  }
}
