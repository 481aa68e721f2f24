/** The overflow and recovery queries always have an answer: a best queued row, and a listing of all of them. */
module QueueListing {
  import opened QueueItems
  import opened QueueSteps

  lemma {:induction false} BestOf(table: map<ExecId, Row>, ids: set<ExecId>) returns (best: ExecId)
    requires ids != {} && ids <= QueuedIds(table)
    ensures best in ids && forall other :: other in ids ==> Precedes(table[best], table[other])
    decreases |ids|
  {
    best :| best in ids;
    if ids != {best} {
      var rest := ids - {best};
      assert rest != {};
      var next := BestOf(table, rest);
      if Precedes(table[next], table[best]) { best := next; }
    }
  }

  lemma {:induction false} ListingOf(table: map<ExecId, Row>, ids: set<ExecId>) returns (entries: seq<ExecId>)
    requires ids <= QueuedIds(table)
    ensures forall id :: id in entries <==> id in ids
    ensures forall i, j :: 0 <= i < j < |entries| ==> entries[i] != entries[j]
    ensures forall i, j :: 0 <= i < j < |entries| ==> Precedes(table[entries[i]], table[entries[j]])
    decreases |ids|
  {
    if ids == {} {
      entries := [];
    } else {
      var best := BestOf(table, ids);
      var rest := ListingOf(table, ids - {best});
      entries := [best] + rest;
      assert forall j :: 0 < j < |entries| ==> entries[j] in rest;
    }
  }

  lemma ListingExists(table: map<ExecId, Row>) returns (entries: seq<ExecId>)
    ensures IsListing(table, entries)
  {
    entries := ListingOf(table, QueuedIds(table));
    assert forall i :: 0 <= i < |entries| ==> entries[i] in entries;
  }

  // A listing names each queued row once.
  lemma ListingLength(table: map<ExecId, Row>, entries: seq<ExecId>)
    requires IsListing(table, entries)
    ensures |entries| == |QueuedIds(table)|
  {
    var ids := set id | id in entries;
    DistinctLength(entries);
    assert ids == QueuedIds(table);
  }

  lemma {:induction false} DistinctLength(entries: seq<ExecId>)
    requires forall i, j :: 0 <= i < j < |entries| ==> entries[i] != entries[j]
    ensures |set id | id in entries| == |entries|
  {
    if entries != [] {
      var front, last := entries[..|entries| - 1], entries[|entries| - 1];
      DistinctLength(front);
      assert entries == front + [last];
      assert (set id | id in entries) == (set id | id in front) + {last};
    }
  }
}
