// The two persisted tables of the discovery graph, with the constraints declared in
// migrations/00002_trace_graph.sql, and what a batch of discoveries means for them.
module TraceTables {
  import opened Entities

  type Id = int

  // parent_trace_id, NULL on the edge of a scan's seed
  datatype ParentId = NoParent | Parent(id: Id)

  // A row of trace_edges.
  datatype EdgeRow = EdgeRow(parent: ParentId, child: Id, pluginName: string, scan: Id)

  // The same row with its ids read back as traces.
  datatype TraceEdge = TraceEdge(parent: Option<Trace>, child: Trace, pluginName: string, scan: Id)

  // lastId is the largest id AUTOINCREMENT has handed out.
  datatype Tables = Tables(traces: map<Id, Trace>, lastId: Id, edges: seq<EdgeRow>, scans: set<Id>)

  const SEED_PLUGIN_NAME := "__seed__"

  // UNIQUE(value, type)
  ghost predicate UniqueTraces(traces: map<Id, Trace>) {
    forall i, j :: i in traces && j in traces && traces[i] == traces[j] ==> i == j
  }

  // UNIQUE(parent_trace_id, child_trace_id, plugin_name, scan_id): NULL parents never collide.
  ghost predicate UniqueEdges(edges: seq<EdgeRow>) {
    forall i, j :: 0 <= i < j < |edges| && edges[i].parent.Parent? ==> edges[i] != edges[j]
  }

  predicate ForeignKeysHold(row: EdgeRow, traces: map<Id, Trace>, scans: set<Id>) {
    && (row.parent.Parent? ==> row.parent.id in traces)
    && row.child in traces
    && row.scan in scans
  }

  ghost predicate ValidTables(t: Tables) {
    && UniqueTraces(t.traces)
    && (forall i :: i in t.traces ==> 0 < i <= t.lastId)
    && t.lastId >= 0
    && UniqueEdges(t.edges)
    && (forall row :: row in t.edges ==> ForeignKeysHold(row, t.traces, t.scans))
  }

  // The traces that have a row.
  ghost function Stored(traces: map<Id, Trace>): set<Trace> {
    set i | i in traces :: traces[i]
  }

  ghost function IdOf(traces: map<Id, Trace>, t: Trace): (id: Id)
    requires t in Stored(traces)
    ensures id in traces && traces[id] == t
  {
    var id :| id in traces && traces[id] == t;
    id
  }

  // INSERT OR IGNORE of a row that the uniqueness constraint covers.
  function AddNew<R(==)>(rows: seq<R>, row: R): seq<R> {
    if row in rows then rows else rows + [row]
  }

  function AddAllNew<R(==)>(rows: seq<R>, more: seq<R>): seq<R> {
    if more == [] then rows else AddNew(AddAllNew(rows, more[..|more| - 1]), more[|more| - 1])
  }

  // INSERT OR IGNORE into trace_edges.
  function AddEdge(edges: seq<EdgeRow>, row: EdgeRow): seq<EdgeRow> {
    if row.parent.NoParent? then edges + [row] else AddNew(edges, row)
  }

  // INSERT OR IGNORE into traces followed by reading the id back: an existing trace keeps
  // its id and leaves the table alone, a new one gets some id never handed out before.
  ghost predicate Resolved(traces: map<Id, Trace>, lastId: Id, t: Trace, traces': map<Id, Trace>, lastId': Id, id: Id) {
    && id in traces' && traces'[id] == t
    && if t in Stored(traces) then traces' == traces && lastId' == lastId
       else id > lastId && lastId' == id && traces' == traces[id := t]
  }

  ghost function Mentioned(ds: seq<Discovery>): set<Trace> {
    (set d | d in ds :: d.parent) + (set d | d in ds :: d.child)
  }

  function TraceRow(d: Discovery, scan: Id): TraceEdge {
    TraceEdge(Some(d.parent), d.child, d.pluginName, scan)
  }

  ghost function IdRow(d: Discovery, scan: Id, traces: map<Id, Trace>): EdgeRow
    requires d.parent in Stored(traces) && d.child in Stored(traces)
  {
    EdgeRow(Parent(IdOf(traces, d.parent)), IdOf(traces, d.child), d.pluginName, scan)
  }

  ghost function IdRows(ds: seq<Discovery>, scan: Id, traces: map<Id, Trace>): (rows: seq<EdgeRow>)
    requires Mentioned(ds) <= Stored(traces)
    ensures |rows| == |ds|
    ensures forall i :: 0 <= i < |ds| ==> ds[i].parent in Stored(traces) && ds[i].child in Stored(traces)
                                           && rows[i] == IdRow(ds[i], scan, traces)
  {
    assert forall d :: d in ds ==> d.parent in Mentioned(ds) && d.child in Mentioned(ds);
    seq(|ds|, i requires 0 <= i < |ds| => IdRow(ds[i], scan, traces))
  }

  // Every old row of traces is still there under its old id; new rows have new ids.
  ghost predicate TracesGrow(traces: map<Id, Trace>, lastId: Id, traces': map<Id, Trace>, lastId': Id) {
    && traces.Keys <= traces'.Keys
    && (forall i :: i in traces ==> traces'[i] == traces[i])
    && lastId <= lastId'
    && (forall i :: i in traces' && i !in traces ==> lastId < i <= lastId')
    && (traces'.Keys == traces.Keys ==> lastId' == lastId)
    && UniqueTraces(traces')
  }

  ghost predicate TracesPersisted(pre: Tables, ds: seq<Discovery>, post: Tables) {
    && TracesGrow(pre.traces, pre.lastId, post.traces, post.lastId)
    && Stored(post.traces) == Stored(pre.traces) + Mentioned(ds)
  }

  // What committing a batch of discoveries does to the tables, up to the choice of new ids.
  ghost predicate Persisted(pre: Tables, scan: Id, ds: seq<Discovery>, post: Tables) {
    && TracesPersisted(pre, ds, post)
    && post.edges == AddAllNew(pre.edges, IdRows(ds, scan, post.traces))
    && post.scans == pre.scans
  }

  // ---- Insert or ignore ----

  lemma {:induction false} AddAllNewMembers<R>(rows: seq<R>, more: seq<R>)
    ensures forall row :: row in AddAllNew(rows, more) <==> row in rows || row in more
    ensures rows <= AddAllNew(rows, more)
  {
    if more != [] {
      var front, last := more[..|more| - 1], more[|more| - 1];
      AddAllNewMembers(rows, front);
      assert forall row :: row in more <==> row in front || row == last;
    }
  }

  lemma {:induction false} AddAllNewUnique(edges: seq<EdgeRow>, more: seq<EdgeRow>)
    requires UniqueEdges(edges)
    ensures UniqueEdges(AddAllNew(edges, more))
  {
    if more != [] {
      AddAllNewUnique(edges, more[..|more| - 1]);
    }
  }

  // Rows that are all present already change nothing.
  lemma {:induction false} AddAllNewPresent<R>(rows: seq<R>, more: seq<R>)
    requires forall row :: row in more ==> row in rows
    ensures AddAllNew(rows, more) == rows
  {
    if more != [] {
      AddAllNewPresent(rows, more[..|more| - 1]);
    }
  }

  lemma AddAllNewStep<R>(rows: seq<R>, more: seq<R>, row: R)
    ensures AddAllNew(rows, more + [row]) == AddNew(AddAllNew(rows, more), row)
  {
    assert (more + [row])[..|more|] == more;
  }

  // Inserting an edge again is without effect exactly when it has a parent; the seed edge of a
  // scan is added once more every time.
  lemma InsertEdgeIsIdempotent(edges: seq<EdgeRow>, row: EdgeRow)
    ensures AddEdge(AddEdge(edges, row), row) == AddEdge(edges, row) <==> row.parent.Parent?
  {
    if row.parent.NoParent? {
      assert |AddEdge(AddEdge(edges, row), row)| == |AddEdge(edges, row)| + 1;
    } else {
      assert row in AddEdge(edges, row);
    }
  }

  // ---- Ids and traces ----

  lemma GrowKeepsIds(traces: map<Id, Trace>, lastId: Id, traces': map<Id, Trace>, lastId': Id, ds: seq<Discovery>,
      scan: Id)
    requires TracesGrow(traces, lastId, traces', lastId')
    requires Mentioned(ds) <= Stored(traces)
    ensures Stored(traces) <= Stored(traces')
    ensures IdRows(ds, scan, traces) == IdRows(ds, scan, traces')
  {
    forall t | t in Stored(traces)
      ensures t in Stored(traces') && IdOf(traces', t) == IdOf(traces, t)
    {
      assert traces'[IdOf(traces, t)] == t;
    }
  }

  lemma ResolvedGrows(traces: map<Id, Trace>, lastId: Id, t: Trace, traces': map<Id, Trace>, lastId': Id, id: Id)
    requires UniqueTraces(traces) && forall i :: i in traces ==> i <= lastId
    requires Resolved(traces, lastId, t, traces', lastId', id)
    ensures TracesGrow(traces, lastId, traces', lastId')
    ensures Stored(traces') == Stored(traces) + {t}
    ensures forall i :: i in traces' ==> i <= lastId'
    ensures IdOf(traces', t) == id
  {
    if t !in Stored(traces) {
      assert traces'.Keys != traces.Keys by { assert id in traces' && id !in traces; }
      forall u | u in Stored(traces)
        ensures u in Stored(traces')
      {
        assert traces'[IdOf(traces, u)] == u;
      }
      forall i, j | i in traces' && j in traces' && traces'[i] == traces'[j]
        ensures i == j
      {
        assert i != id ==> traces[i] in Stored(traces);
        assert j != id ==> traces[j] in Stored(traces);
      }
    }
  }

  lemma GrowTransitive(t0: map<Id, Trace>, l0: Id, t1: map<Id, Trace>, l1: Id, t2: map<Id, Trace>, l2: Id)
    requires TracesGrow(t0, l0, t1, l1) && TracesGrow(t1, l1, t2, l2)
    ensures TracesGrow(t0, l0, t2, l2)
  {
    if t2.Keys == t0.Keys {
      assert t1.Keys == t0.Keys;
    }
  }

  lemma MentionedStep(ds: seq<Discovery>, d: Discovery)
    ensures Mentioned(ds + [d]) == Mentioned(ds) + {d.parent, d.child}
  {
    assert forall e :: e in ds + [d] <==> e in ds || e == d;
    assert d in ds + [d];
  }

  // ---- One discovery at a time ----

  // GetOrCreateTrace on the parent, GetOrCreateTrace on the child, then InsertEdge; m and mId
  // are the table and its last id in between, p and c the two ids.
  ghost predicate StoredBy(pre: Tables, scan: Id, d: Discovery, m: map<Id, Trace>, mId: Id, p: Id, c: Id,
                           post: Tables) {
    && Resolved(pre.traces, pre.lastId, d.parent, m, mId, p)
    && Resolved(m, mId, d.child, post.traces, post.lastId, c)
    && post.edges == AddNew(pre.edges, EdgeRow(Parent(p), c, d.pluginName, scan))
    && post.scans == pre.scans
  }

  ghost predicate StoredOne(pre: Tables, scan: Id, d: Discovery, post: Tables) {
    exists m: map<Id, Trace>, mId: Id, p: Id, c: Id :: StoredBy(pre, scan, d, m, mId, p, c, post)
  }

  // The simple form: discoveries stored one after another, each looked up afresh.
  ghost predicate StoredInTurn(states: seq<Tables>, scan: Id, ds: seq<Discovery>) {
    && |states| == |ds| + 1
    && forall i :: 0 <= i < |ds| ==> StoredOne(states[i], scan, ds[i], states[i + 1])
  }

  // One step of a batch: the two resolved traces and the inserted edge extend the batch by one.
  lemma PersistedStep(pre: Tables, scan: Id, ds: seq<Discovery>, mid: Tables, d: Discovery, ds': seq<Discovery>,
                      m: map<Id, Trace>, mId: Id, p: Id, c: Id, post: Tables)
    requires ds' == ds + [d] && Persisted(pre, scan, ds, mid)
    requires forall i :: i in mid.traces ==> i <= mid.lastId
    requires StoredBy(mid, scan, d, m, mId, p, c, post)
    ensures Persisted(pre, scan, ds', post)
  {
    TracesStep(pre, ds, mid, d, ds', m, mId, p, c, post);
    GrowKeepsIds(mid.traces, mid.lastId, post.traces, post.lastId, ds, scan);
    RowsStep(pre.edges, scan, ds, d, ds', post.traces);
  }

  // The rows of one more discovery.
  lemma RowsStep(edges: seq<EdgeRow>, scan: Id, ds: seq<Discovery>, d: Discovery, ds': seq<Discovery>,
                 traces: map<Id, Trace>)
    requires ds' == ds + [d] && Mentioned(ds) <= Stored(traces) && Mentioned(ds') <= Stored(traces)
    requires d.parent in Stored(traces) && d.child in Stored(traces)
    ensures AddAllNew(edges, IdRows(ds', scan, traces)) ==
            AddNew(AddAllNew(edges, IdRows(ds, scan, traces)), IdRow(d, scan, traces))
  {
    var rows := IdRows(ds, scan, traces);
    assert IdRows(ds', scan, traces) == rows + [IdRow(d, scan, traces)];
    AddAllNewStep(edges, rows, IdRow(d, scan, traces));
  }

  lemma TracesStep(pre: Tables, ds: seq<Discovery>, mid: Tables, d: Discovery, ds': seq<Discovery>,
                   m: map<Id, Trace>, mId: Id, p: Id, c: Id, post: Tables)
    requires ds' == ds + [d] && TracesPersisted(pre, ds, mid)
    requires forall i :: i in mid.traces ==> i <= mid.lastId
    requires Resolved(mid.traces, mid.lastId, d.parent, m, mId, p)
    requires Resolved(m, mId, d.child, post.traces, post.lastId, c)
    ensures TracesPersisted(pre, ds', post)
    ensures TracesGrow(mid.traces, mid.lastId, post.traces, post.lastId)
    ensures Mentioned(ds') <= Stored(post.traces) && {d.parent, d.child} <= Stored(post.traces)
    ensures IdOf(post.traces, d.parent) == p && IdOf(post.traces, d.child) == c
  {
    ResolvedGrows(mid.traces, mid.lastId, d.parent, m, mId, p);
    ResolvedGrows(m, mId, d.child, post.traces, post.lastId, c);
    GrowTransitive(mid.traces, mid.lastId, m, mId, post.traces, post.lastId);
    GrowTransitive(pre.traces, pre.lastId, mid.traces, mid.lastId, post.traces, post.lastId);
    MentionedStep(ds, d);
    assert post.traces[p] == d.parent;
  }

  lemma PersistedIdBound(pre: Tables, scan: Id, ds: seq<Discovery>, post: Tables)
    requires Persisted(pre, scan, ds, post) && forall i :: i in pre.traces ==> i <= pre.lastId
    ensures forall i :: i in post.traces ==> i <= post.lastId
  {
  }

  lemma PersistedNothing(pre: Tables, scan: Id)
    requires UniqueTraces(pre.traces)
    ensures Persisted(pre, scan, [], pre)
  {
  }

  // The batch and the one-at-a-time form mean the same thing.
  lemma {:induction false} InTurnIsPersisted(states: seq<Tables>, scan: Id, ds: seq<Discovery>)
    requires StoredInTurn(states, scan, ds) && ValidTables(states[0])
    ensures Persisted(states[0], scan, ds, states[|ds|])
    decreases |ds|
  {
    if ds == [] {
      PersistedNothing(states[0], scan);
    } else {
      var n := |ds| - 1;
      InTurnPrefix(states, scan, ds, n);
      InTurnIsPersisted(states[..n + 1], scan, ds[..n]);
      PersistedIdBound(states[0], scan, ds[..n], states[n]);
      assert StoredOne(states[n], scan, ds[n], states[n + 1]);
      StoredOneExtends(states[0], scan, ds, states[n], states[n + 1]);
    }
  }

  lemma InTurnPrefix(states: seq<Tables>, scan: Id, ds: seq<Discovery>, n: nat)
    requires StoredInTurn(states, scan, ds) && n <= |ds|
    ensures StoredInTurn(states[..n + 1], scan, ds[..n])
  {
    forall i | 0 <= i < n
      ensures StoredOne(states[..n + 1][i], scan, ds[..n][i], states[..n + 1][i + 1])
    {
      assert StoredOne(states[i], scan, ds[i], states[i + 1]);
    }
  }

  lemma StoredOneExtends(pre: Tables, scan: Id, ds: seq<Discovery>, mid: Tables, post: Tables)
    requires ds != [] && Persisted(pre, scan, ds[..|ds| - 1], mid) && forall i :: i in mid.traces ==> i <= mid.lastId
    requires StoredOne(mid, scan, ds[|ds| - 1], post)
    ensures Persisted(pre, scan, ds, post)
  {
    var m, mId, p, c :| StoredBy(mid, scan, ds[|ds| - 1], m, mId, p, c, post);
    assert ds == ds[..|ds| - 1] + [ds[|ds| - 1]];
    PersistedStep(pre, scan, ds[..|ds| - 1], mid, ds[|ds| - 1], ds, m, mId, p, c, post);
  }

  lemma StoredOneAppends(pre: Tables, scan: Id, ds: seq<Discovery>, i: nat, mid: Tables, post: Tables)
    requires i < |ds| && Persisted(pre, scan, ds[..i], mid) && forall j :: j in mid.traces ==> j <= mid.lastId
    requires StoredOne(mid, scan, ds[i], post)
    ensures Persisted(pre, scan, ds[..i + 1], post)
  {
    assert ds[..i + 1][..i] == ds[..i];
    StoredOneExtends(pre, scan, ds[..i + 1], mid, post);
  }

  // A valid store stays valid, provided the scan exists.
  lemma PersistedValid(pre: Tables, scan: Id, ds: seq<Discovery>, post: Tables)
    requires ValidTables(pre) && Persisted(pre, scan, ds, post)
    requires ds == [] || scan in pre.scans
    ensures ValidTables(post)
  {
    var rows := IdRows(ds, scan, post.traces);
    AddAllNewUnique(pre.edges, rows);
    AddAllNewMembers(pre.edges, rows);
    IdRowsHold(ds, scan, post.traces, post.scans);
  }

  lemma IdRowsHold(ds: seq<Discovery>, scan: Id, traces: map<Id, Trace>, scans: set<Id>)
    requires Mentioned(ds) <= Stored(traces) && (ds == [] || scan in scans)
    ensures forall row :: row in IdRows(ds, scan, traces) ==> ForeignKeysHold(row, traces, scans)
  {
    var rows := IdRows(ds, scan, traces);
    forall row | row in rows
      ensures ForeignKeysHold(row, traces, scans)
    {
      var i :| 0 <= i < |rows| && rows[i] == row;
      assert row == IdRow(ds[i], scan, traces);
    }
  }

  // Persisting the same batch a second time changes nothing at all.
  lemma PersistAgainChangesNothing(pre: Tables, scan: Id, ds: seq<Discovery>, once: Tables, twice: Tables)
    requires ValidTables(pre)
    requires Persisted(pre, scan, ds, once) && Persisted(once, scan, ds, twice)
    ensures twice == once
  {
    SameTraces(once, ds, twice);
    var rows := IdRows(ds, scan, once.traces);
    AddAllNewMembers(pre.edges, rows);
    AddAllNewPresent(once.edges, rows);
  }

  // With nothing new to store, the traces table and its id counter stand still.
  lemma SameTraces(pre: Tables, ds: seq<Discovery>, post: Tables)
    requires TracesPersisted(pre, ds, post) && Mentioned(ds) <= Stored(pre.traces)
    ensures post.traces == pre.traces && post.lastId == pre.lastId
  {
    forall i | i in post.traces
      ensures i in pre.traces
    {
      var t := post.traces[i];
      assert t in Stored(post.traces);
      assert post.traces[IdOf(pre.traces, t)] == t;
    }
    assert post.traces.Keys == pre.traces.Keys;
    assert forall i :: i in pre.traces ==> post.traces[i] == pre.traces[i];
    assert post.traces == pre.traces;
  }

  // ---- Reading ids back as traces ----

  function LiftRow(row: EdgeRow, traces: map<Id, Trace>, scans: set<Id>): TraceEdge
    requires ForeignKeysHold(row, traces, scans)
  {
    TraceEdge(if row.parent.Parent? then Some(traces[row.parent.id]) else None,
              traces[row.child], row.pluginName, row.scan)
  }

  // The edges of the table with every id replaced by its trace.
  ghost function Lifted(t: Tables): (rows: seq<TraceEdge>)
    requires ValidTables(t)
    ensures |rows| == |t.edges|
    ensures forall i :: 0 <= i < |rows| ==> rows[i] == LiftRow(t.edges[i], t.traces, t.scans)
  {
    seq(|t.edges|, i requires 0 <= i < |t.edges| => LiftRow(t.edges[i], t.traces, t.scans))
  }

  function TraceRows(ds: seq<Discovery>, scan: Id): (rows: seq<TraceEdge>)
    ensures |rows| == |ds| && forall i :: 0 <= i < |ds| ==> rows[i] == TraceRow(ds[i], scan)
  {
    seq(|ds|, i requires 0 <= i < |ds| => TraceRow(ds[i], scan))
  }

  // Insert-or-ignore on ids and insert-or-ignore on traces agree, because ids and traces
  // are in bijection.
  lemma {:induction false} LiftAddAllNew(t: Tables, rows: seq<EdgeRow>, lifted: seq<TraceEdge>, post: Tables)
    requires ValidTables(t) && ValidTables(post)
    requires post == t.(edges := AddAllNew(t.edges, rows))
    requires |lifted| == |rows|
    requires forall i :: 0 <= i < |rows| ==>
      ForeignKeysHold(rows[i], t.traces, t.scans) && lifted[i] == LiftRow(rows[i], t.traces, t.scans)
    ensures Lifted(post) == AddAllNew(Lifted(t), lifted)
    decreases |rows|
  {
    if rows != [] {
      var front, row := rows[..|rows| - 1], rows[|rows| - 1];
      var mid := t.(edges := AddAllNew(t.edges, front));
      AddAllNewMembers(t.edges, front);
      AddAllNewUnique(t.edges, front);
      LiftAddAllNew(t, front, lifted[..|rows| - 1], mid);
      LiftAddNew(mid, row, post);
    }
  }

  lemma SameLift(t: Tables, a: EdgeRow, b: EdgeRow)
    requires ForeignKeysHold(a, t.traces, t.scans) && ForeignKeysHold(b, t.traces, t.scans)
    requires UniqueTraces(t.traces) && LiftRow(a, t.traces, t.scans) == LiftRow(b, t.traces, t.scans)
    ensures a == b
  {
  }

  lemma LiftAddNew(t: Tables, row: EdgeRow, post: Tables)
    requires ValidTables(t) && ValidTables(post)
    requires ForeignKeysHold(row, t.traces, t.scans)
    requires post == t.(edges := AddNew(t.edges, row))
    ensures Lifted(post) == AddNew(Lifted(t), LiftRow(row, t.traces, t.scans))
  {
    var lift := LiftRow(row, t.traces, t.scans);
    if lift in Lifted(t) {
      var i :| 0 <= i < |t.edges| && Lifted(t)[i] == lift;
      var e := t.edges[i];
      assert e in t.edges;
      assert ForeignKeysHold(e, t.traces, t.scans);
      SameLift(t, e, row);
    }
    if row in t.edges {
      var i :| 0 <= i < |t.edges| && t.edges[i] == row;
      assert Lifted(t)[i] == lift;
    }
  }

  lemma LiftedUnchanged(t: Tables, grown: Tables)
    requires ValidTables(t) && ValidTables(grown)
    requires TracesGrow(t.traces, t.lastId, grown.traces, grown.lastId)
    requires grown.edges == t.edges && grown.scans == t.scans
    ensures Lifted(grown) == Lifted(t)
  {
    forall i | 0 <= i < |t.edges|
      ensures Lifted(grown)[i] == Lifted(t)[i]
    {
      var row := t.edges[i];
      assert row in t.edges && ForeignKeysHold(row, t.traces, t.scans);
    }
  }

  // Seen through the bijection, a batch adds its traces and its edges and nothing else;
  // the ids chosen for new traces do not show.
  lemma PersistedMeaning(pre: Tables, scan: Id, ds: seq<Discovery>, post: Tables)
    requires ValidTables(pre) && ValidTables(post) && Persisted(pre, scan, ds, post)
    requires ds == [] || scan in pre.scans
    ensures Stored(post.traces) == Stored(pre.traces) + Mentioned(ds)
    ensures Lifted(post) == AddAllNew(Lifted(pre), TraceRows(ds, scan))
  {
    var mid := pre.(traces := post.traces, lastId := post.lastId);
    assert ValidTables(mid);
    LiftedUnchanged(pre, mid);
    var rows := IdRows(ds, scan, post.traces);
    LiftAddAllNew(mid, rows, TraceRows(ds, scan), post);
  }

  // Two runs over the same batch, whichever form they take and whichever ids they pick,
  // end in stores that read the same.
  lemma PersistedUpToIds(scan: Id, ds: seq<Discovery>, batch: Tables, states: seq<Tables>)
    requires StoredInTurn(states, scan, ds)
    requires ValidTables(states[0]) && (ds == [] || scan in states[0].scans)
    requires Persisted(states[0], scan, ds, batch)
    ensures ValidTables(batch) && ValidTables(states[|ds|])
    ensures Stored(batch.traces) == Stored(states[|ds|].traces)
    ensures Lifted(batch) == Lifted(states[|ds|])
  {
    InTurnIsPersisted(states, scan, ds);
    PersistedValid(states[0], scan, ds, batch);
    PersistedValid(states[0], scan, ds, states[|ds|]);
    PersistedMeaning(states[0], scan, ds, batch);
    PersistedMeaning(states[0], scan, ds, states[|ds|]);
  }
}
