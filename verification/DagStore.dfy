/** Stored DAGs and their edges (src/services/dag_service.rs, src/db/dags.rs). Whatever sequence of calls is made,
    one at a time, every stored graph stays acyclic. */
module DagStore {
  import opened Wrappers
  import opened Graphs
  import opened DagGraphService

  datatype Dag = Dag(id: string, name: string, enabled: bool, maxConcurrentNodes: int, onFailure: string)

  // The tables the service works on; `jobs` holds the ids the foreign keys refer to.
  datatype Store = Store(jobs: set<JobId>, dags: map<string, Dag>, rows: seq<DagEdge>)

  predicate KnownPolicy(policy: string) { policy in {"stop", "continue", "retry"} }

  predicate KnownCondition(condition: string) { condition in {"success", "failure", "always", "skipped"} }

  function AtLeastOne(n: int): int { if n < 1 then 1 else n }

  // ---- names ----

  // The characters that the trimming of a name takes away: those with the Unicode property White_Space.
  predicate IsWhitespace(c: char) {
    || '\U{9}' <= c <= '\U{D}' || c == ' ' || c == '\U{85}' || c == '\U{A0}' || c == '\U{1680}'
    || '\U{2000}' <= c <= '\U{200A}' || c == '\U{2028}' || c == '\U{2029}' || c == '\U{202F}' || c == '\U{205F}'
    || c == '\U{3000}'
  }

  // Nonempty, with no whitespace at either end.
  predicate ProperName(s: string) { s != "" && !IsWhitespace(s[0]) && !IsWhitespace(s[|s| - 1]) }

  predicate AllWhitespace(s: string) { forall c :: c in s ==> IsWhitespace(c) }

  function TrimStart(s: string): string {
    if s != "" && IsWhitespace(s[0]) then TrimStart(s[1..]) else s
  }

  function TrimEnd(s: string): string {
    if s != "" && IsWhitespace(s[|s| - 1]) then TrimEnd(s[..|s| - 1]) else s
  }

  function Trimmed(s: string): string { TrimEnd(TrimStart(s)) }

  lemma {:induction false} TrimStartIs(s: string) returns (before: string)
    ensures s == before + TrimStart(s) && AllWhitespace(before)
    ensures TrimStart(s) != "" ==> !IsWhitespace(TrimStart(s)[0])
  {
    if s != "" && IsWhitespace(s[0]) {
      before := TrimStartIs(s[1..]);
      before := [s[0]] + before;
      assert s == [s[0]] + s[1..];
    } else {
      before := "";
    }
  }

  lemma {:induction false} TrimEndIs(s: string) returns (after: string)
    ensures s == TrimEnd(s) + after && AllWhitespace(after)
    ensures TrimEnd(s) != "" ==> !IsWhitespace(TrimEnd(s)[|TrimEnd(s)| - 1])
  {
    if s != "" && IsWhitespace(s[|s| - 1]) {
      after := TrimEndIs(s[..|s| - 1]);
      after := after + [s[|s| - 1]];
      assert s == s[..|s| - 1] + [s[|s| - 1]];
    } else {
      after := "";
    }
  }

  // Trimming takes whitespace off both ends and nothing else, and leaves none there; so the name is empty exactly
  // if it was all whitespace.
  lemma TrimmedIs(s: string) returns (before: string, after: string)
    ensures s == before + Trimmed(s) + after && AllWhitespace(before) && AllWhitespace(after)
    ensures Trimmed(s) != "" <==> ProperName(Trimmed(s))
    ensures Trimmed(s) == "" <==> AllWhitespace(s)
  {
    before := TrimStartIs(s);
    after := TrimEndIs(TrimStart(s));
    assert s == before + (Trimmed(s) + after) == before + Trimmed(s) + after;
    if Trimmed(s) == "" {
      assert s == before + after;
    } else {
      assert Trimmed(s)[0] == TrimStart(s)[0] && TrimStart(s)[0] in TrimStart(s);
      assert s[|before|] == Trimmed(s)[0];
    }
  }

  datatype DagUpdate = DagUpdate(name: Option<string>, enabled: Option<bool>,
                                 maxConcurrentNodes: Option<int>, onFailure: Option<string>)

  function Patched(dag: Dag, req: DagUpdate): Dag {
    Dag(dag.id,
        if req.name.Some? then Trimmed(req.name.value) else dag.name,
        if req.enabled.Some? then req.enabled.value else dag.enabled,
        if req.maxConcurrentNodes.Some? then AtLeastOne(req.maxConcurrentNodes.value) else dag.maxConcurrentNodes,
        if req.onFailure.Some? then req.onFailure.value else dag.onFailure)
  }

  // Given fields are taken over, the name trimmed and the bound raised to at least one; the others and the id stay.
  lemma PatchedFields(dag: Dag, req: DagUpdate)
    ensures var p := Patched(dag, req);
            && p == dag.(name := p.name, enabled := p.enabled, maxConcurrentNodes := p.maxConcurrentNodes,
                     onFailure := p.onFailure)
            && (forall name :: req.name == Some(name) ==> p.name == Trimmed(name))
            && (forall enabled :: req.enabled == Some(enabled) ==> p.enabled == enabled)
            && (forall policy :: req.onFailure == Some(policy) ==> p.onFailure == policy)
            && (forall n :: req.maxConcurrentNodes == Some(n) ==>
                  p.maxConcurrentNodes >= 1 && p.maxConcurrentNodes >= n && p.maxConcurrentNodes in {1, n})
            && (req.name == None ==> p.name == dag.name) && (req.enabled == None ==> p.enabled == dag.enabled)
            && (req.onFailure == None ==> p.onFailure == dag.onFailure)
            && (req.maxConcurrentNodes == None ==> p.maxConcurrentNodes == dag.maxConcurrentNodes)
  {}

  // Another DAG holds the name: the column is unique.
  predicate NameTaken(dags: map<string, Dag>, id: string, name: string) {
    exists d :: d in dags && d != id && dags[d].name == name
  }

  // SELECT ... WHERE dag_id = ? ORDER BY created_at
  function EdgesOf(rows: seq<DagEdge>, dagId: string): seq<DagEdge> {
    if rows == [] then [] else
      EdgesOf(rows[..|rows| - 1], dagId) + if rows[|rows| - 1].dagId == dagId then [rows[|rows| - 1]] else []
  }

  // The primary key and UNIQUE(dag_id, upstream_job_id, downstream_job_id).
  predicate Clashes(a: DagEdge, b: DagEdge) {
    a.id == b.id || (a.dagId == b.dagId && a.upstream == b.upstream && a.downstream == b.downstream)
  }

  ghost predicate StoreInvariant(s: Store) {
    && (forall i, j :: 0 <= i < j < |s.rows| ==> !Clashes(s.rows[i], s.rows[j]))
    && (forall d :: Acyclic(EdgesOf(s.rows, d)))
    && (forall c, d :: c in s.dags && d in s.dags && s.dags[c].name == s.dags[d].name ==> c == d)
    && (forall d :: d in s.dags ==>
          s.dags[d].maxConcurrentNodes >= 1 && KnownPolicy(s.dags[d].onFailure) && ProperName(s.dags[d].name))
  }

  // ---- what each call answers and does ----

  // The first check that fails decides the answer.
  function CreateAnswer(s: Store, id: string, name: string, maxConcurrentNodes: int, onFailure: string): Result<Dag> {
    if Trimmed(name) == "" then Err(Validation(EmptyName))
    else if !KnownPolicy(onFailure) then Err(Validation(UnknownPolicy))
    else if id in s.dags || NameTaken(s.dags, id, Trimmed(name)) then Err(Database)
    else Ok(Dag(id, Trimmed(name), true, AtLeastOne(maxConcurrentNodes), onFailure))
  }

  function UpdateAnswer(s: Store, id: string, req: DagUpdate): Result<Dag> {
    if id !in s.dags then Err(NotFound)
    else if req.name.Some? && Trimmed(req.name.value) == "" then Err(Validation(EmptyName))
    else if req.onFailure.Some? && !KnownPolicy(req.onFailure.value) then Err(Validation(UnknownPolicy))
    else if NameTaken(s.dags, id, Patched(s.dags[id], req).name) then Err(Database)
    else Ok(Patched(s.dags[id], req))
  }

  // An edge u -> v is refused as a cycle exactly when u == v or v already reaches u.
  ghost function AddEdgeAnswer(s: Store, e: DagEdge): Result<DagEdge> {
    if e.dagId !in s.dags then Err(NotFound)
    else if e.upstream == e.downstream then Err(Validation(SelfDependency))
    else if !KnownCondition(e.condition) then Err(Validation(UnknownCondition))
    else if Reaches(EdgesOf(s.rows, e.dagId), e.downstream, e.upstream) then Err(Validation(CycleFound))
    else if exists row :: row in s.rows && Clashes(row, e) then Err(Conflict)
    else if e.upstream !in s.jobs || e.downstream !in s.jobs then Err(Database)
    else Ok(e)
  }

  function WithoutEdge(rows: seq<DagEdge>, id: string): seq<DagEdge> {
    if rows == [] then [] else
      WithoutEdge(rows[..|rows| - 1], id) + if rows[|rows| - 1].id == id then [] else [rows[|rows| - 1]]
  }

  datatype EdgeCall = AddCall(edge: DagEdge) | DeleteCall(dagId: string, edgeId: string)

  ghost function AfterCall(s: Store, call: EdgeCall): Store {
    match call
    case AddCall(e) => if AddEdgeAnswer(s, e).Ok? then s.(rows := s.rows + [e]) else s
    case DeleteCall(d, id) =>
      if exists row :: row in s.rows && row.id == id && row.dagId == d then s.(rows := WithoutEdge(s.rows, id)) else s
  }

  ghost function AfterCalls(s: Store, calls: seq<EdgeCall>): Store {
    if calls == [] then s else AfterCall(AfterCalls(s, calls[..|calls| - 1]), calls[|calls| - 1])
  }

  // ---- the invariant over every sequence of calls ----

  lemma {:induction false} EdgesOfAre(rows: seq<DagEdge>, d: string, e: DagEdge)
    ensures e in EdgesOf(rows, d) <==> e in rows && e.dagId == d
  {
    if rows != [] {
      EdgesOfAre(rows[..|rows| - 1], d, e);
      assert rows == rows[..|rows| - 1] + [rows[|rows| - 1]];
    }
  }

  lemma {:induction false} WithoutEdgeAre(rows: seq<DagEdge>, id: string)
    requires forall i, j :: 0 <= i < j < |rows| ==> !Clashes(rows[i], rows[j])
    ensures var rest := WithoutEdge(rows, id);
            && (forall e :: e in rest <==> e in rows && e.id != id)
            && (forall i, j :: 0 <= i < j < |rest| ==> !Clashes(rest[i], rest[j]))
  {
    if rows != [] {
      var front, last := rows[..|rows| - 1], rows[|rows| - 1];
      WithoutEdgeAre(front, id);
      assert rows == front + [last];
      var rest := WithoutEdge(front, id);
      forall i | 0 <= i < |rest| ensures !Clashes(rest[i], last) {
        assert rest[i] in rest;
      }
    }
  }

  lemma AddKeepsInvariant(s: Store, e: DagEdge)
    requires StoreInvariant(s) && AddEdgeAnswer(s, e).Ok?
    ensures StoreInvariant(s.(rows := s.rows + [e]))
  {
    var rows := s.rows + [e];
    assert rows[..|s.rows|] == s.rows;
    forall d ensures Acyclic(EdgesOf(rows, d)) {
      if d == e.dagId {
        AddEdgeAcyclic(EdgesOf(s.rows, d), e);
      } else {
        assert EdgesOf(rows, d) == EdgesOf(s.rows, d);
      }
    }
  }

  lemma DeleteKeepsInvariant(s: Store, id: string)
    requires StoreInvariant(s)
    ensures StoreInvariant(s.(rows := WithoutEdge(s.rows, id)))
  {
    var rows := WithoutEdge(s.rows, id);
    WithoutEdgeAre(s.rows, id);
    forall d ensures Acyclic(EdgesOf(rows, d)) {
      forall u, v | HasEdge(EdgesOf(rows, d), u, v) ensures HasEdge(EdgesOf(s.rows, d), u, v) {
        var e :| e in EdgesOf(rows, d) && e.upstream == u && e.downstream == v;
        EdgesOfAre(rows, d, e);
        EdgesOfAre(s.rows, d, e);
      }
      SubgraphAcyclic(EdgesOf(rows, d), EdgesOf(s.rows, d));
    }
  }

  lemma DagChangeKeepsInvariant(s: Store, id: string, dag: Dag)
    requires StoreInvariant(s) && !NameTaken(s.dags, id, dag.name)
    requires dag.maxConcurrentNodes >= 1 && KnownPolicy(dag.onFailure) && ProperName(dag.name)
    ensures StoreInvariant(s.(dags := s.dags[id := dag]))
  {}

  // Over every sequence of edge calls the graph of every DAG stays acyclic.
  lemma {:induction false} StoredGraphsStayAcyclic(s: Store, calls: seq<EdgeCall>)
    requires StoreInvariant(s)
    ensures StoreInvariant(AfterCalls(s, calls))
    ensures forall d :: Acyclic(EdgesOf(AfterCalls(s, calls).rows, d))
  {
    if calls != [] {
      var before, call := AfterCalls(s, calls[..|calls| - 1]), calls[|calls| - 1];
      StoredGraphsStayAcyclic(s, calls[..|calls| - 1]);
      match call {
        case AddCall(e) =>
          if AddEdgeAnswer(before, e).Ok? { AddKeepsInvariant(before, e); }
        case DeleteCall(d, id) =>
          if exists row :: row in before.rows && row.id == id && row.dagId == d { DeleteKeepsInvariant(before, id); }
      }
    }
  }

  // ---- which edges are stored ----

  // The k-th call stores e: no check failed.
  ghost predicate StoresAt(s: Store, calls: seq<EdgeCall>, k: nat, e: DagEdge) {
    k < |calls| && calls[k] == AddCall(e) && AddEdgeAnswer(AfterCalls(s, calls[..k]), e).Ok?
  }

  // The k-th call deletes the edge of that id: it was stored in the DAG the call names.
  ghost predicate DeletesAt(s: Store, calls: seq<EdgeCall>, k: nat, id: string) {
    && k < |calls| && calls[k].DeleteCall? && calls[k].edgeId == id
    && exists row :: row in AfterCalls(s, calls[..k]).rows && row.id == id && row.dagId == calls[k].dagId
  }

  // It was stored to begin with (at 0) or by the call before `at`, and no later call deleted it.
  ghost predicate StoredSince(s: Store, calls: seq<EdgeCall>, at: nat, e: DagEdge) {
    && at <= |calls| && (if at == 0 then e in s.rows else StoresAt(s, calls, at - 1, e))
    && forall k :: at <= k < |calls| ==> !DeletesAt(s, calls, k, e.id)
  }

  // What one call changes, apart from the function that gives the new store.
  lemma CallChanges(s: Store, call: EdgeCall, e: DagEdge)
    requires StoreInvariant(s)
    ensures var r := AfterCall(s, call);
            e in r.rows <==>
              || (call == AddCall(e) && AddEdgeAnswer(s, e).Ok?)
              || (e in s.rows && !(call.DeleteCall? && call.edgeId == e.id && call.dagId == e.dagId))
  {
    if call.DeleteCall? {
      WithoutEdgeAre(s.rows, call.edgeId);
      if e in s.rows && call.edgeId == e.id { RowOfId(s, e, call.dagId); }
    }
  }

  // The id determines the row.
  lemma RowOfId(s: Store, e: DagEdge, dagId: string)
    requires StoreInvariant(s) && e in s.rows
    ensures (exists row :: row in s.rows && row.id == e.id && row.dagId == dagId) <==> dagId == e.dagId
  {
    var i :| 0 <= i < |s.rows| && s.rows[i] == e;
    if exists row :: row in s.rows && row.id == e.id && row.dagId == dagId {
      var row :| row in s.rows && row.id == e.id && row.dagId == dagId;
      var j :| 0 <= j < |s.rows| && s.rows[j] == row;
      assert Clashes(s.rows[i], s.rows[j]) && Clashes(s.rows[j], s.rows[i]);
    }
  }

  lemma StoredSinceGrows(s: Store, calls: seq<EdgeCall>, call: EdgeCall, at: nat, e: DagEdge)
    requires at <= |calls|
    ensures StoredSince(s, calls + [call], at, e)
       <==> StoredSince(s, calls, at, e) && !DeletesAt(s, calls + [call], |calls|, e.id)
  {
    var more := calls + [call];
    assert more[..|calls|] == calls;
    forall k: nat | k < |calls|
      ensures StoresAt(s, more, k, e) <==> StoresAt(s, calls, k, e)
      ensures DeletesAt(s, more, k, e.id) <==> DeletesAt(s, calls, k, e.id)
    {
      assert more[..k] == calls[..k];
    }
  }

  // Over every sequence of calls an edge is stored exactly if it was there or was accepted, and no accepted deletion
  // of its id came after that.
  lemma {:induction false} EdgeStoredExactlyWhen(s: Store, calls: seq<EdgeCall>, e: DagEdge)
    requires StoreInvariant(s)
    ensures e in AfterCalls(s, calls).rows <==> exists at: nat :: StoredSince(s, calls, at, e)
  {
    if calls == [] {
      assert StoredSince(s, calls, 0, e) <==> e in s.rows;
    } else {
      var front, call := calls[..|calls| - 1], calls[|calls| - 1];
      assert calls == front + [call] && calls[..|front|] == front;
      EdgeStoredExactlyWhen(s, front, e);
      StoredGraphsStayAcyclic(s, front);
      StoredByLast(s, front, call, e);
    }
  }

  lemma StoredByLast(s: Store, front: seq<EdgeCall>, call: EdgeCall, e: DagEdge)
    requires StoreInvariant(AfterCalls(s, front))
    requires e in AfterCalls(s, front).rows <==> exists at: nat :: StoredSince(s, front, at, e)
    ensures e in AfterCall(AfterCalls(s, front), call).rows
       <==> exists at: nat :: StoredSince(s, front + [call], at, e)
  {
    var before, calls := AfterCalls(s, front), front + [call];
    assert calls[..|front|] == front;
    CallChanges(before, call, e);
    if e in before.rows { RowOfId(before, e, if call.DeleteCall? then call.dagId else e.dagId); }
    forall at: nat | at <= |front|
      ensures StoredSince(s, calls, at, e) <==> StoredSince(s, front, at, e) && !DeletesAt(s, calls, |front|, e.id)
    {
      StoredSinceGrows(s, front, call, at, e);
    }
    assert StoredSince(s, calls, |calls|, e) <==> call == AddCall(e) && AddEdgeAnswer(before, e).Ok?;
    if e in before.rows {
      var at: nat :| StoredSince(s, front, at, e);
      assert StoredSince(s, calls, at, e) <==> !DeletesAt(s, calls, |front|, e.id);
    }
  }

  class DagService {
    var jobs: set<JobId>
    var dags: map<string, Dag>
    var rows: seq<DagEdge>

    ghost function Contents(): (s: Store) reads this { Store(jobs, dags, rows) }

    ghost predicate Valid() reads this { StoreInvariant(Contents()) }

    constructor (jobs: set<JobId>)
      ensures Contents() == Store(jobs, map[], []) && Valid()
    {
      this.jobs, dags, rows := jobs, map[], [];
      new;
      forall d ensures Acyclic(EdgesOf([], d)) {
        assert forall u, v :: !HasEdge([], u, v);
        TopologicalOrderAcyclic([], []);
      }
    }

    method CreateDag(id: string, name: string, maxConcurrentNodes: int, onFailure: string) returns (r: Result<Dag>)
      requires Valid()
      modifies this
      ensures Valid()
      ensures r == CreateAnswer(old(Contents()), id, name, maxConcurrentNodes, onFailure)
      ensures r.Ok? <==>
                && !AllWhitespace(name) && onFailure in {"stop", "continue", "retry"}
                && id !in old(dags) && forall d :: d in old(dags) ==> old(dags)[d].name != Trimmed(name)
      ensures r == Err(Validation(EmptyName)) <==> AllWhitespace(name)
      ensures var bound := if maxConcurrentNodes > 1 then maxConcurrentNodes else 1;
              r.Ok? ==> r.value == Dag(id, Trimmed(name), true, bound, onFailure)
      ensures Contents() == if r.Ok? then old(Contents()).(dags := old(dags)[id := r.value]) else old(Contents())
    {
      var trimmed := Trimmed(name);
      var _, _ := TrimmedIs(name);
      if trimmed == "" {
        return Err(Validation(EmptyName));
      }
      if !KnownPolicy(onFailure) {
        return Err(Validation(UnknownPolicy));
      }
      if id in dags || NameTaken(dags, id, trimmed) {
        return Err(Database);
      }
      var dag := Dag(id, trimmed, true, AtLeastOne(maxConcurrentNodes), onFailure);
      DagChangeKeepsInvariant(Contents(), id, dag);
      dags := dags[id := dag];
      return Ok(dag);
    }

    method UpdateDag(id: string, req: DagUpdate) returns (r: Result<Dag>)
      requires Valid()
      modifies this`dags
      ensures Valid()
      ensures r == UpdateAnswer(old(Contents()), id, req)
      ensures dags == if r.Ok? then old(dags)[id := r.value] else old(dags)
    {
      if id !in dags {
        return Err(NotFound);
      }
      var dag := dags[id];
      if req.name.Some? {
        var trimmed := Trimmed(req.name.value);
        var _, _ := TrimmedIs(req.name.value);
        if trimmed == "" {
          return Err(Validation(EmptyName));
        }
        dag := dag.(name := trimmed);
      }
      if req.enabled.Some? {
        dag := dag.(enabled := req.enabled.value);
      }
      if req.maxConcurrentNodes.Some? {
        dag := dag.(maxConcurrentNodes := AtLeastOne(req.maxConcurrentNodes.value));
      }
      if req.onFailure.Some? {
        if !KnownPolicy(req.onFailure.value) {
          return Err(Validation(UnknownPolicy));
        }
        dag := dag.(onFailure := req.onFailure.value);
      }
      if NameTaken(dags, id, dag.name) {
        return Err(Database);
      }
      DagChangeKeepsInvariant(Contents(), id, dag);
      dags := dags[id := dag];
      return Ok(dag);
    }

    // Add an edge if that keeps the DAG's graph acyclic.
    method AddEdge(e: DagEdge) returns (r: Result<DagEdge>)
      requires Valid()
      modifies this`rows
      ensures Valid()
      ensures r == AddEdgeAnswer(old(Contents()), e)
      ensures Contents() == AfterCall(old(Contents()), AddCall(e))
      ensures r.Ok? ==> r.value == e && rows == old(rows) + [e]
      ensures r.Err? ==> rows == old(rows)
      ensures r.Ok? <==>
                && e.dagId in dags && e.upstream != e.downstream
                && e.condition in {"success", "failure", "always", "skipped"}
                && !Reaches(EdgesOf(old(rows), e.dagId), e.downstream, e.upstream)
                && e.upstream in jobs && e.downstream in jobs
                && forall row :: row in old(rows) ==>
                     && row.id != e.id
                     && !(row.dagId == e.dagId && row.upstream == e.upstream && row.downstream == e.downstream)
    {
      if e.dagId !in dags {
        return Err(NotFound);
      }
      if e.upstream == e.downstream {
        return Err(Validation(SelfDependency));
      }
      if !KnownCondition(e.condition) {
        return Err(Validation(UnknownCondition));
      }
      var edges := EdgesOf(rows, e.dagId) + [e];
      var order := IterationOrder(Nodes(edges));
      var check := ValidateNoCycles(edges, order);
      AddEdgeAcyclic(EdgesOf(rows, e.dagId), e);
      if check.Err? {
        return Err(check.error);
      }
      if exists row :: row in rows && Clashes(row, e) {
        return Err(Conflict);
      }
      if e.upstream !in jobs || e.downstream !in jobs {
        return Err(Database);
      }
      AddKeepsInvariant(Contents(), e);
      rows := rows + [e];
      return Ok(e);
    }

    method DeleteEdge(dagId: string, edgeId: string) returns (r: Result<()>)
      requires Valid()
      modifies this`rows
      ensures Valid()
      ensures r == if exists e :: e in old(rows) && e.id == edgeId && e.dagId == dagId then Ok(()) else Err(NotFound)
      ensures Contents() == AfterCall(old(Contents()), DeleteCall(dagId, edgeId))
      ensures r.Ok? ==> forall e :: e in rows <==> e in old(rows) && e.id != edgeId
      ensures r.Err? ==> rows == old(rows)
    {
      WithoutEdgeAre(rows, edgeId);
      if !exists e :: e in rows && e.id == edgeId && e.dagId == dagId {
        return Err(NotFound);
      }
      DeleteKeepsInvariant(Contents(), edgeId);
      rows := WithoutEdge(rows, edgeId);
      return Ok(());
    }
  }
}
