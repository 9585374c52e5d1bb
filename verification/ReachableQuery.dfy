// GetReachableTraces: the forward recursive query, with its hop counter, its visited text
// and its grouping, over a fixed edge table.
module ReachableQuery {
  import opened Entities
  import opened TraceTables
  import opened Walks
  import opened VisitedGuard

  datatype ReachRow = ReachRow(id: Id, hops: nat, visited: string)

  datatype ReachableTrace = ReachableTrace(id: Id, value: string, kind: TraceType, hops: nat)

  // The links a scan recorded: parent to child, whichever plugin found it.
  ghost function ScanLinks(edges: seq<EdgeRow>, scan: Id): Graph<Id> {
    (a, b) => exists e :: e in edges && e.scan == scan && e.parent == Parent(a) && e.child == b
  }

  predicate Follows(e: EdgeRow, r: ReachRow, scan: Id, maxHops: int) {
    && e.scan == scan
    && e.parent == Parent(r.id)
    && r.hops < maxHops
    && !Contains(r.visited, Pattern(e.child))
  }

  function NextRow(e: EdgeRow, r: ReachRow): ReachRow {
    ReachRow(e.child, r.hops + 1, r.visited + Decimal(e.child) + ",")
  }

  // The recursive select applied to one row of the queue.
  function Expand(edges: seq<EdgeRow>, scan: Id, maxHops: int, r: ReachRow): seq<ReachRow> {
    if edges == [] then []
    else
      (if Follows(edges[0], r, scan, maxHops) then [NextRow(edges[0], r)] else [])
      + Expand(edges[1..], scan, maxHops, r)
  }

  function ExpandAll(edges: seq<EdgeRow>, scan: Id, maxHops: int, rs: seq<ReachRow>): seq<ReachRow> {
    if rs == [] then []
    else Expand(edges, scan, maxHops, rs[0]) + ExpandAll(edges, scan, maxHops, rs[1..])
  }

  // The rows the recursion adds in its k-th round.
  function Level(edges: seq<EdgeRow>, scan: Id, start: Id, maxHops: int, k: nat): seq<ReachRow> {
    if k == 0 then [ReachRow(start, 0, "," + Decimal(start) + ",")]
    else ExpandAll(edges, scan, maxHops, Level(edges, scan, start, maxHops, k - 1))
  }

  function Rows(edges: seq<EdgeRow>, scan: Id, start: Id, maxHops: int, k: nat): seq<ReachRow> {
    if k == 0 then Level(edges, scan, start, maxHops, 0)
    else Rows(edges, scan, start, maxHops, k - 1) + Level(edges, scan, start, maxHops, k)
  }

  lemma {:induction false} ExpandSource(edges: seq<EdgeRow>, scan: Id, maxHops: int, r: ReachRow, row: ReachRow)
    returns (e: EdgeRow)
    requires row in Expand(edges, scan, maxHops, r)
    ensures e in edges && Follows(e, r, scan, maxHops) && row == NextRow(e, r)
  {
    if Follows(edges[0], r, scan, maxHops) && row == NextRow(edges[0], r) {
      e := edges[0];
    } else {
      e := ExpandSource(edges[1..], scan, maxHops, r, row);
    }
  }

  lemma {:induction false} ExpandTarget(edges: seq<EdgeRow>, scan: Id, maxHops: int, r: ReachRow, e: EdgeRow)
    requires e in edges && Follows(e, r, scan, maxHops)
    ensures NextRow(e, r) in Expand(edges, scan, maxHops, r)
  {
    if e != edges[0] {
      assert e in edges[1..];
      ExpandTarget(edges[1..], scan, maxHops, r, e);
    }
  }

  lemma {:induction false} ExpandAllSource(edges: seq<EdgeRow>, scan: Id, maxHops: int, rs: seq<ReachRow>,
      row: ReachRow)
    returns (r: ReachRow, e: EdgeRow)
    requires row in ExpandAll(edges, scan, maxHops, rs)
    ensures r in rs && e in edges && Follows(e, r, scan, maxHops) && row == NextRow(e, r)
  {
    if row in Expand(edges, scan, maxHops, rs[0]) {
      r := rs[0];
      e := ExpandSource(edges, scan, maxHops, r, row);
    } else {
      r, e := ExpandAllSource(edges, scan, maxHops, rs[1..], row);
    }
  }

  lemma {:induction false} ExpandAllTarget(edges: seq<EdgeRow>, scan: Id, maxHops: int, rs: seq<ReachRow>,
      r: ReachRow, e: EdgeRow)
    requires r in rs && e in edges && Follows(e, r, scan, maxHops)
    ensures NextRow(e, r) in ExpandAll(edges, scan, maxHops, rs)
  {
    if r == rs[0] {
      ExpandTarget(edges, scan, maxHops, r, e);
    } else {
      assert r in rs[1..];
      ExpandAllTarget(edges, scan, maxHops, rs[1..], r, e);
    }
  }

  lemma {:induction false} RowsSource(edges: seq<EdgeRow>, scan: Id, start: Id, maxHops: int, k: nat, row: ReachRow)
    returns (j: nat)
    requires row in Rows(edges, scan, start, maxHops, k)
    ensures j <= k && row in Level(edges, scan, start, maxHops, j)
  {
    if row in Level(edges, scan, start, maxHops, k) {
      j := k;
    } else {
      j := RowsSource(edges, scan, start, maxHops, k - 1, row);
    }
  }

  lemma {:induction false} RowsTarget(edges: seq<EdgeRow>, scan: Id, start: Id, maxHops: int, k: nat, j: nat,
      row: ReachRow)
    requires j <= k && row in Level(edges, scan, start, maxHops, j)
    ensures row in Rows(edges, scan, start, maxHops, k)
  {
    if j < k {
      RowsTarget(edges, scan, start, maxHops, k - 1, j, row);
      assert Rows(edges, scan, start, maxHops, k) ==
             Rows(edges, scan, start, maxHops, k - 1) + Level(edges, scan, start, maxHops, k);
    }
  }

  // A row spells out the simple walk that reached it.
  ghost predicate Spells(edges: seq<EdgeRow>, scan: Id, start: Id, row: ReachRow, w: seq<Id>) {
    && Joins(ScanLinks(edges, scan), start, row.id, w)
    && Simple(w)
    && |w| == row.hops + 1
    && row.visited == Encode(w)
  }

  lemma {:induction false} RowsAreSimpleWalks(edges: seq<EdgeRow>, scan: Id, start: Id, maxHops: int, k: nat,
      row: ReachRow)
    returns (w: seq<Id>)
    requires row in Level(edges, scan, start, maxHops, k)
    ensures Spells(edges, scan, start, row, w) && row.hops == k
    ensures k == 0 || k <= maxHops
    decreases k
  {
    if k == 0 {
      w := [start];
      FirstRowSpells(edges, scan, start, maxHops, row);
    } else {
      var r, e := LevelSource(edges, scan, start, maxHops, k, row);
      var v := RowsAreSimpleWalks(edges, scan, start, maxHops, k - 1, r);
      NextRowSpells(edges, scan, start, maxHops, r, e, v);
      w := v + [e.child];
    }
  }

  lemma FirstRowSpells(edges: seq<EdgeRow>, scan: Id, start: Id, maxHops: int, row: ReachRow)
    requires row in Level(edges, scan, start, maxHops, 0)
    ensures Spells(edges, scan, start, row, [start]) && row.hops == 0
  {
    FirstRow(edges, scan, start, maxHops);
  }

  lemma LevelSource(edges: seq<EdgeRow>, scan: Id, start: Id, maxHops: int, k: nat, row: ReachRow)
    returns (r: ReachRow, e: EdgeRow)
    requires k > 0 && row in Level(edges, scan, start, maxHops, k)
    ensures r in Level(edges, scan, start, maxHops, k - 1)
    ensures e in edges && Follows(e, r, scan, maxHops) && row == NextRow(e, r)
  {
    var rs := Level(edges, scan, start, maxHops, k - 1);
    assert Level(edges, scan, start, maxHops, k) == ExpandAll(edges, scan, maxHops, rs);
    r, e := ExpandAllSource(edges, scan, maxHops, rs, row);
  }

  lemma LevelTarget(edges: seq<EdgeRow>, scan: Id, start: Id, maxHops: int, k: nat, r: ReachRow, e: EdgeRow)
    requires r in Level(edges, scan, start, maxHops, k) && e in edges && Follows(e, r, scan, maxHops)
    ensures NextRow(e, r) in Level(edges, scan, start, maxHops, k + 1)
  {
    var rs := Level(edges, scan, start, maxHops, k);
    assert Level(edges, scan, start, maxHops, k + 1) == ExpandAll(edges, scan, maxHops, rs);
    ExpandAllTarget(edges, scan, maxHops, rs, r, e);
  }

  lemma NextRowSpells(edges: seq<EdgeRow>, scan: Id, start: Id, maxHops: int, r: ReachRow, e: EdgeRow, v: seq<Id>)
    requires Spells(edges, scan, start, r, v) && e in edges && Follows(e, r, scan, maxHops)
    ensures Spells(edges, scan, start, NextRow(e, r), v + [e.child])
  {
    GuardIsMembership(v, e.child);
    EncodeAppend(v, e.child);
    SimpleAppend(v, e.child);
    assert ScanLinks(edges, scan)(r.id, e.child);
    ExtendWalk(ScanLinks(edges, scan), start, r.id, e.child, v);
  }

  lemma FirstRow(edges: seq<EdgeRow>, scan: Id, start: Id, maxHops: int)
    ensures Level(edges, scan, start, maxHops, 0) == [WalkRow([start])]
  {
    EncodeAppend([], start);
    assert [] + [start] == [start];
  }

  lemma {:induction false} SimpleWalksHaveRows(edges: seq<EdgeRow>, scan: Id, start: Id, maxHops: int, w: seq<Id>)
    requires IsWalk(ScanLinks(edges, scan), w) && w[0] == start && Simple(w)
    requires |w| == 1 || |w| <= maxHops + 1
    ensures WalkRow(w) in Level(edges, scan, start, maxHops, |w| - 1)
    decreases |w|
  {
    if |w| == 1 {
      FirstRow(edges, scan, start, maxHops);
      assert w == [start];
    } else {
      var front, a, b := SplitSimpleWalk(ScanLinks(edges, scan), w);
      SimpleWalksHaveRows(edges, scan, start, maxHops, front);
      var e :| e in edges && e.scan == scan && e.parent == Parent(a) && e.child == b;
      EdgeOffWalk(scan, maxHops, front, e);
      LevelTarget(edges, scan, start, maxHops, |front| - 1, WalkRow(front), e);
    }
  }

  // The row of a walk, and the one an edge to a node off the walk makes of it.
  function WalkRow(w: seq<Id>): ReachRow
    requires w != []
  {
    ReachRow(w[|w| - 1], |w| - 1, Encode(w))
  }

  lemma EdgeOffWalk(scan: Id, maxHops: int, front: seq<Id>, e: EdgeRow)
    requires front != [] && |front| <= maxHops && e.child !in front
    requires e.scan == scan && e.parent == Parent(front[|front| - 1])
    ensures Follows(e, WalkRow(front), scan, maxHops)
    ensures NextRow(e, WalkRow(front)) == WalkRow(front + [e.child])
  {
    GuardIsMembership(front, e.child);
    EncodeAppend(front, e.child);
  }

  // All nodes a walk from start can visit.
  ghost function Nodes(edges: seq<EdgeRow>, scan: Id, start: Id): set<Id> {
    {start} + set e | e in edges && e.scan == scan :: e.child
  }

  // The recursion runs dry: past the hop budget, and in any case once every node was visited.
  lemma RecursionStops(edges: seq<EdgeRow>, scan: Id, start: Id, maxHops: int, k: nat)
    requires k > 0 && (k > maxHops || k >= |Nodes(edges, scan, start)|)
    ensures Level(edges, scan, start, maxHops, k) == []
  {
    var rows := Level(edges, scan, start, maxHops, k);
    if rows != [] {
      var w := RowsAreSimpleWalks(edges, scan, start, maxHops, k, rows[0]);
      forall x | x in w
        ensures x in Nodes(edges, scan, start)
      {
        var i :| 0 <= i < |w| && w[i] == x;
        if i > 0 {
          assert ScanLinks(edges, scan)(w[i - 1], w[i]);
        }
      }
      SimpleBound(w, Nodes(edges, scan, start));
      assert false;
    }
  }

  // ---- GROUP BY trace_id with MIN(hops), JOIN traces, ORDER BY hops, value ----

  function GroupMin(rows: seq<ReachRow>): map<Id, nat> {
    if rows == [] then map[]
    else
      var groups, row := GroupMin(rows[..|rows| - 1]), rows[|rows| - 1];
      if row.id in groups && groups[row.id] <= row.hops then groups else groups[row.id := row.hops]
  }

  lemma {:induction false} GroupMinSource(rows: seq<ReachRow>, id: Id) returns (row: ReachRow)
    requires id in GroupMin(rows)
    ensures row in rows && row.id == id && row.hops == GroupMin(rows)[id]
  {
    var front, last := rows[..|rows| - 1], rows[|rows| - 1];
    if id == last.id && GroupMin(rows)[id] == last.hops {
      row := last;
    } else {
      row := GroupMinSource(front, id);
    }
  }

  lemma {:induction false} GroupMinBound(rows: seq<ReachRow>, row: ReachRow)
    requires row in rows
    ensures row.id in GroupMin(rows) && GroupMin(rows)[row.id] <= row.hops
  {
    var front, last := rows[..|rows| - 1], rows[|rows| - 1];
    if row in front {
      GroupMinBound(front, row);
    }
  }

  // Text order by code unit.
  predicate TextLeq(a: string, b: string) {
    a == "" || (b != "" && (a[0] < b[0] || (a[0] == b[0] && TextLeq(a[1..], b[1..]))))
  }

  // The same order in characters: past their common start a ends, or its next character is smaller.
  ghost predicate SortsBefore(a: string, b: string) {
    exists k :: && 0 <= k <= |a| && k <= |b| && a[..k] == b[..k]
                && (k == |a| || (k < |b| && a[k] < b[k]))
  }

  lemma {:induction false} TextOrder(a: string, b: string)
    ensures TextLeq(a, b) <==> SortsBefore(a, b)
  {
    if a == "" {
      assert a[..0] == b[..0];
    } else if b != "" && a[0] == b[0] {
      TextOrder(a[1..], b[1..]);
      if k :| 0 <= k <= |a[1..]| && k <= |b[1..]| && a[1..][..k] == b[1..][..k]
              && (k == |a[1..]| || (k < |b[1..]| && a[1..][k] < b[1..][k]))
      {
        assert a[..k + 1] == [a[0]] + a[1..][..k] && b[..k + 1] == [b[0]] + b[1..][..k];
        assert SortsBefore(a, b);
      }
      if k :| 0 <= k <= |a| && k <= |b| && a[..k] == b[..k] && (k == |a| || (k < |b| && a[k] < b[k])) {
        assert k > 0;
        assert a[1..][..k - 1] == a[..k][1..] && b[1..][..k - 1] == b[..k][1..];
        assert SortsBefore(a[1..], b[1..]);
      }
    } else if b != "" {
      if a[0] < b[0] {
        assert a[..0] == b[..0];
      }
      if k :| 0 <= k <= |a| && k <= |b| && a[..k] == b[..k] && (k == |a| || (k < |b| && a[k] < b[k])) {
        assert k > 0 ==> a[..k][0] == b[..k][0];
      }
    }
  }

  predicate RowLeq(a: ReachableTrace, b: ReachableTrace) {
    a.hops < b.hops || (a.hops == b.hops && TextLeq(a.value, b.value))
  }

  ghost predicate Ordered(rows: seq<ReachableTrace>) {
    forall i, j :: 0 <= i < j < |rows| ==> RowLeq(rows[i], rows[j])
  }

  ghost predicate DistinctIds(rows: seq<ReachableTrace>) {
    forall i, j :: 0 <= i < j < |rows| ==> rows[i].id != rows[j].id
  }

  function Groups(t: Tables, scan: Id, start: Id, maxHops: int): map<Id, nat> {
    GroupMin(Rows(t.edges, scan, start, maxHops, if maxHops < 0 then 0 else maxHops))
  }

  function JoinRow(id: Id, hops: nat, t: Trace): ReachableTrace {
    ReachableTrace(id, t.value, t.kind, hops)
  }

  // A list GetReachableTraces may return: each group with a traces row once, in order.
  // Rows that tie on hops and value may come in either order.
  ghost predicate IsAnswer(t: Tables, scan: Id, start: Id, maxHops: int, out: seq<ReachableTrace>) {
    Lists(t.traces, Groups(t, scan, start, maxHops), out)
  }

  ghost predicate Lists(traces: map<Id, Trace>, groups: map<Id, nat>, out: seq<ReachableTrace>) {
    && Ordered(out)
    && DistinctIds(out)
    && (forall r :: r in out ==> r.id in groups && r.id in traces && r == JoinRow(r.id, groups[r.id], traces[r.id]))
    && (forall id :: id in groups && id in traces ==> exists r :: r in out && r.id == id)
  }

  lemma {:induction false} TextLeqTotal(a: string, b: string)
    ensures TextLeq(a, b) || TextLeq(b, a)
  {
    if a != "" && b != "" {
      TextLeqTotal(a[1..], b[1..]);
    }
  }

  lemma {:induction false} TextLeqTransitive(a: string, b: string, c: string)
    requires TextLeq(a, b) && TextLeq(b, c)
    ensures TextLeq(a, c)
  {
    if a != "" && a[0] == b[0] == c[0] {
      TextLeqTransitive(a[1..], b[1..], c[1..]);
    }
  }

  lemma RowLeqTransitive(a: ReachableTrace, b: ReachableTrace, c: ReachableTrace)
    requires RowLeq(a, b) && RowLeq(b, c)
    ensures RowLeq(a, c)
  {
    if a.hops == b.hops == c.hops {
      TextLeqTransitive(a.value, b.value, c.value);
    }
  }

  // Where a new row goes so that the order holds.
  lemma {:induction false} InsertPosition(rows: seq<ReachableTrace>, row: ReachableTrace) returns (k: nat)
    requires Ordered(rows)
    ensures k <= |rows|
    ensures forall i :: 0 <= i < k ==> RowLeq(rows[i], row)
    ensures forall i :: k <= i < |rows| ==> RowLeq(row, rows[i])
  {
    if rows == [] {
      k := 0;
    } else if RowLeq(row, rows[0]) {
      k := 0;
      forall i | 0 < i < |rows|
        ensures RowLeq(row, rows[i])
      {
        RowLeqTransitive(row, rows[0], rows[i]);
      }
    } else {
      TextLeqTotal(row.value, rows[0].value);
      k := InsertPosition(rows[1..], row);
      forall i | k + 1 <= i < |rows|
        ensures RowLeq(row, rows[i])
      {
        assert rows[i] == rows[1..][i - 1];
      }
      forall i | 0 <= i < k + 1
        ensures RowLeq(rows[i], row)
      {
        assert i > 0 ==> rows[i] == rows[1..][i - 1];
      }
      k := k + 1;
    }
  }

  // The query always has an answer.
  lemma {:induction false} AnswerExists(traces: map<Id, Trace>, groups: map<Id, nat>) returns (out: seq<ReachableTrace>)
    ensures Lists(traces, groups, out)
    decreases |groups|
  {
    if id :| id in groups {
      var smaller := groups - {id};
      assert groups.Keys == smaller.Keys + {id};
      var rest := AnswerExists(traces, smaller);
      if id in traces {
        var row := JoinRow(id, groups[id], traces[id]);
        var k := InsertPosition(rest, row);
        out := rest[..k] + [row] + rest[k..];
        InsertedLists(traces, groups, id, rest, k, out);
      } else {
        out := rest;
      }
    } else {
      out := [];
    }
  }

  lemma InsertedLists(traces: map<Id, Trace>, groups: map<Id, nat>, id: Id, rest: seq<ReachableTrace>, k: nat,
      out: seq<ReachableTrace>)
    requires id in groups && id in traces && k <= |rest|
    requires Lists(traces, groups - {id}, rest)
    requires forall i :: 0 <= i < k ==> RowLeq(rest[i], JoinRow(id, groups[id], traces[id]))
    requires forall i :: k <= i < |rest| ==> RowLeq(JoinRow(id, groups[id], traces[id]), rest[i])
    requires out == rest[..k] + [JoinRow(id, groups[id], traces[id])] + rest[k..]
    ensures Lists(traces, groups, out)
  {
    var row := JoinRow(id, groups[id], traces[id]);
    assert forall r :: r in rest ==> r.id != id;
    InsertedOrder(rest, row, k, out);
    InsertedMembers(rest, row, k, out);
    forall r | r in out
      ensures r.id in groups && r.id in traces && r == JoinRow(r.id, groups[r.id], traces[r.id])
    {
      assert r == row || r in rest;
    }
    forall other | other in groups && other in traces
      ensures exists r :: r in out && r.id == other
    {
      if other == id {
        assert row in out;
      } else {
        assert other in groups - {id};
        var r :| r in rest && r.id == other;
        assert r in out;
      }
    }
  }

  lemma InsertedMembers(rest: seq<ReachableTrace>, row: ReachableTrace, k: nat, out: seq<ReachableTrace>)
    requires k <= |rest| && out == rest[..k] + [row] + rest[k..]
    ensures forall r :: r in out <==> r in rest || r == row
  {
    assert rest == rest[..k] + rest[k..];
    forall r: ReachableTrace
      ensures r in out <==> r in rest || r == row
    {
      InConcat(rest[..k], rest[k..], r);
      InConcat(rest[..k] + [row], rest[k..], r);
      InConcat(rest[..k], [row], r);
    }
  }

  lemma InsertedOrder(rest: seq<ReachableTrace>, row: ReachableTrace, k: nat, out: seq<ReachableTrace>)
    requires k <= |rest| && Ordered(rest) && DistinctIds(rest)
    requires forall i :: 0 <= i < k ==> RowLeq(rest[i], row)
    requires forall i :: k <= i < |rest| ==> RowLeq(row, rest[i])
    requires forall r :: r in rest ==> r.id != row.id
    requires out == rest[..k] + [row] + rest[k..]
    ensures Ordered(out) && DistinctIds(out)
  {
    assert forall i :: 0 <= i < |out| ==> out[i] == if i < k then rest[i] else if i == k then row else rest[i - 1];
    forall i, j | 0 <= i < j < |out|
      ensures RowLeq(out[i], out[j]) && out[i].id != out[j].id
    {
    }
  }

  // ---- The query is shortest-walk distance ----

  lemma GroupsAreDistances(t: Tables, scan: Id, start: Id, maxHops: int, id: Id)
    requires maxHops >= 0
    ensures id in Groups(t, scan, start, maxHops) <==>
            exists d: nat :: d <= maxHops && Distance(ScanLinks(t.edges, scan), start, id, d)
    ensures id in Groups(t, scan, start, maxHops) ==>
            Distance(ScanLinks(t.edges, scan), start, id, Groups(t, scan, start, maxHops)[id])
  {
    var g := ScanLinks(t.edges, scan);
    var rows := Rows(t.edges, scan, start, maxHops, maxHops);
    if id in Groups(t, scan, start, maxHops) {
      var row := GroupMinSource(rows, id);
      var j := RowsSource(t.edges, scan, start, maxHops, maxHops, row);
      var w := RowsAreSimpleWalks(t.edges, scan, start, maxHops, j, row);
      var d := row.hops;
      forall v | Joins(g, start, id, v)
        ensures |v| >= d + 1
      {
        if |v| <= d {
          WalksAreGrouped(t, scan, start, maxHops, v);
        }
      }
      assert Distance(g, start, id, d);
    }
    if d: nat :| d <= maxHops && Distance(g, start, id, d) {
      var v :| Joins(g, start, id, v) && |v| == d + 1;
      WalksAreGrouped(t, scan, start, maxHops, v);
    }
  }

  // Any walk within the budget puts its end in a group no farther than the walk is long.
  lemma WalksAreGrouped(t: Tables, scan: Id, start: Id, maxHops: int, w: seq<Id>)
    requires IsWalk(ScanLinks(t.edges, scan), w) && w[0] == start && maxHops >= 0 && |w| <= maxHops + 1
    ensures w[|w| - 1] in Groups(t, scan, start, maxHops)
    ensures Groups(t, scan, start, maxHops)[w[|w| - 1]] < |w|
  {
    var s := SimpleWalk(ScanLinks(t.edges, scan), w);
    SimpleWalksHaveRows(t.edges, scan, start, maxHops, s);
    var row := WalkRow(s);
    RowsTarget(t.edges, scan, start, maxHops, maxHops, |s| - 1, row);
    GroupMinBound(Rows(t.edges, scan, start, maxHops, maxHops), row);
  }

  // Over any edge table, with cycles, self-loops, parallel edges and NULL parents, the
  // answer names each trace once, exactly those whose shortest walk fits the budget,
  // each with the length of that walk.
  lemma ReachableIsShortestDistance(t: Tables, scan: Id, start: Id, maxHops: int, out: seq<ReachableTrace>)
    requires maxHops >= 0 && IsAnswer(t, scan, start, maxHops, out)
    ensures DistinctIds(out)
    ensures forall r :: r in out ==>
              r.id in t.traces && Trace(r.value, r.kind) == t.traces[r.id] && r.hops <= maxHops
              && Distance(ScanLinks(t.edges, scan), start, r.id, r.hops)
    ensures forall id, d: nat :: id in t.traces && d <= maxHops && Distance(ScanLinks(t.edges, scan), start, id, d) ==>
              JoinRow(id, d, t.traces[id]) in out
    ensures forall i, j :: 0 <= i < j < |out| ==>
              || out[i].hops < out[j].hops
              || (out[i].hops == out[j].hops && SortsBefore(out[i].value, out[j].value))
  {
    var g := ScanLinks(t.edges, scan);
    forall r | r in out
      ensures r.hops <= maxHops && Distance(g, start, r.id, r.hops)
    {
      GroupsAreDistances(t, scan, start, maxHops, r.id);
      var d: nat :| d <= maxHops && Distance(g, start, r.id, d);
      DistanceIsUnique(g, start, r.id, d, r.hops);
    }
    forall id, d: nat | id in t.traces && d <= maxHops && Distance(g, start, id, d)
      ensures JoinRow(id, d, t.traces[id]) in out
    {
      GroupsAreDistances(t, scan, start, maxHops, id);
      var r :| r in out && r.id == id;
      DistanceIsUnique(g, start, id, d, r.hops);
    }
    forall i, j | 0 <= i < j < |out| && out[i].hops >= out[j].hops
      ensures out[i].hops == out[j].hops && SortsBefore(out[i].value, out[j].value)
    {
      assert RowLeq(out[i], out[j]);
      TextOrder(out[i].value, out[j].value);
    }
  }

  // A negative budget still answers with the start itself.
  lemma NegativeBudget(t: Tables, scan: Id, start: Id, maxHops: int, out: seq<ReachableTrace>)
    requires maxHops < 0 && IsAnswer(t, scan, start, maxHops, out)
    ensures DistinctIds(out)
    ensures forall r :: r in out <==> start in t.traces && r == JoinRow(start, 0, t.traces[start])
  {
    var rows := Rows(t.edges, scan, start, maxHops, 0);
    assert rows == [ReachRow(start, 0, "," + Decimal(start) + ",")] && rows[..0] == [];
    assert GroupMin(rows[..0]) == map[];
    assert Groups(t, scan, start, maxHops) == map[start := 0];
    assert start in Groups(t, scan, start, maxHops);
  }
}
