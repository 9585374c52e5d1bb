// GetDiscoveryPath: the backward recursive query from a target towards the seed.
module DiscoveryPath {
  import opened TraceTables
  import opened Walks
  import opened VisitedGuard
  import opened ReachableQuery

  datatype PathRow = PathRow(child: Id, parent: ParentId, pluginName: string, hop: nat, visited: string)

  predicate StartsAt(e: EdgeRow, scan: Id, target: Id) {
    e.scan == scan && e.child == target
  }

  function BaseRow(e: EdgeRow, target: Id): PathRow {
    PathRow(e.child, e.parent, e.pluginName, 0, "," + Decimal(target) + ",")
  }

  predicate Continues(e: EdgeRow, p: PathRow, scan: Id) {
    && p.parent == Parent(e.child)
    && e.scan == scan
    && e.parent.Parent?
    && !Contains(p.visited, Pattern(e.parent.id))
  }

  function BackRow(e: EdgeRow, p: PathRow): PathRow
    requires e.parent.Parent?
  {
    PathRow(e.child, e.parent, e.pluginName, p.hop + 1, p.visited + Decimal(e.parent.id) + ",")
  }

  function BaseRows(edges: seq<EdgeRow>, scan: Id, target: Id): seq<PathRow> {
    if edges == [] then []
    else
      (if StartsAt(edges[0], scan, target) then [BaseRow(edges[0], target)] else [])
      + BaseRows(edges[1..], scan, target)
  }

  function BackFrom(edges: seq<EdgeRow>, scan: Id, p: PathRow): seq<PathRow> {
    if edges == [] then []
    else
      (if Continues(edges[0], p, scan) then [BackRow(edges[0], p)] else [])
      + BackFrom(edges[1..], scan, p)
  }

  function BackFromAll(edges: seq<EdgeRow>, scan: Id, ps: seq<PathRow>): seq<PathRow> {
    if ps == [] then [] else BackFrom(edges, scan, ps[0]) + BackFromAll(edges, scan, ps[1..])
  }

  // The rows the recursion adds in its k-th round, duplicates included (UNION ALL).
  function PathLevel(edges: seq<EdgeRow>, scan: Id, target: Id, k: nat): seq<PathRow> {
    if k == 0 then BaseRows(edges, scan, target)
    else BackFromAll(edges, scan, PathLevel(edges, scan, target, k - 1))
  }

  // The first rounds, ORDER BY hop DESC.
  function Descending(edges: seq<EdgeRow>, scan: Id, target: Id, rounds: nat): seq<PathRow> {
    if rounds == 0 then []
    else PathLevel(edges, scan, target, rounds - 1) + Descending(edges, scan, target, rounds - 1)
  }

  // All nodes the visited text can come to hold.
  function Ancestors(edges: seq<EdgeRow>, scan: Id, target: Id): set<Id> {
    {target} + set e | e in edges && e.scan == scan && e.parent.Parent? :: e.parent.id
  }

  // One order of ties; PathRecursionStops shows that these rounds are all there are.
  function GetDiscoveryPath(edges: seq<EdgeRow>, scan: Id, target: Id): seq<PathRow> {
    Descending(edges, scan, target, |Ancestors(edges, scan, target)|)
  }

  // ---- Chains ----

  // Edges of the scan from the target back: each one ends where the one before it began.
  ghost predicate IsChain(edges: seq<EdgeRow>, scan: Id, target: Id, es: seq<EdgeRow>) {
    && es != []
    && (forall i :: 0 <= i < |es| ==> es[i] in edges && es[i].scan == scan)
    && es[0].child == target
    && (forall i :: 0 < i < |es| ==> es[i - 1].parent == Parent(es[i].child) && es[i].parent.Parent?)
  }

  // What the visited text holds along a chain: the target and every parent but the first.
  function Guarded(target: Id, es: seq<EdgeRow>): (v: seq<Id>)
    requires forall i :: 0 < i < |es| ==> es[i].parent.Parent?
    ensures |es| > 0 ==> |v| == |es| && v[0] == target
  {
    if |es| <= 1 then [target] else Guarded(target, es[..|es| - 1]) + [es[|es| - 1].parent.id]
  }

  ghost predicate IsGuardedChain(edges: seq<EdgeRow>, scan: Id, target: Id, es: seq<EdgeRow>) {
    IsChain(edges, scan, target, es) && Simple(Guarded(target, es))
  }

  function ChainRow(target: Id, es: seq<EdgeRow>): PathRow
    requires es != [] && forall i :: 0 < i < |es| ==> es[i].parent.Parent?
  {
    var e := es[|es| - 1];
    PathRow(e.child, e.parent, e.pluginName, |es| - 1, Encode(Guarded(target, es)))
  }

  lemma {:induction false} BaseSource(edges: seq<EdgeRow>, scan: Id, target: Id, row: PathRow) returns (e: EdgeRow)
    requires row in BaseRows(edges, scan, target)
    ensures e in edges && StartsAt(e, scan, target) && row == BaseRow(e, target)
  {
    if StartsAt(edges[0], scan, target) && row == BaseRow(edges[0], target) {
      e := edges[0];
    } else {
      e := BaseSource(edges[1..], scan, target, row);
    }
  }

  lemma {:induction false} BaseTarget(edges: seq<EdgeRow>, scan: Id, target: Id, e: EdgeRow)
    requires e in edges && StartsAt(e, scan, target)
    ensures BaseRow(e, target) in BaseRows(edges, scan, target)
  {
    if e != edges[0] {
      assert e in edges[1..];
      BaseTarget(edges[1..], scan, target, e);
    }
  }

  lemma {:induction false} BackSource(edges: seq<EdgeRow>, scan: Id, p: PathRow, row: PathRow) returns (e: EdgeRow)
    requires row in BackFrom(edges, scan, p)
    ensures e in edges && Continues(e, p, scan) && row == BackRow(e, p)
  {
    if Continues(edges[0], p, scan) && row == BackRow(edges[0], p) {
      e := edges[0];
    } else {
      e := BackSource(edges[1..], scan, p, row);
    }
  }

  lemma {:induction false} BackTarget(edges: seq<EdgeRow>, scan: Id, p: PathRow, e: EdgeRow)
    requires e in edges && Continues(e, p, scan)
    ensures BackRow(e, p) in BackFrom(edges, scan, p)
  {
    if e != edges[0] {
      assert e in edges[1..];
      BackTarget(edges[1..], scan, p, e);
    }
  }

  lemma {:induction false} BackAllSource(edges: seq<EdgeRow>, scan: Id, ps: seq<PathRow>, row: PathRow)
    returns (p: PathRow, e: EdgeRow)
    requires row in BackFromAll(edges, scan, ps)
    ensures p in ps && e in edges && Continues(e, p, scan) && row == BackRow(e, p)
  {
    if row in BackFrom(edges, scan, ps[0]) {
      p := ps[0];
      e := BackSource(edges, scan, p, row);
    } else {
      p, e := BackAllSource(edges, scan, ps[1..], row);
    }
  }

  lemma {:induction false} BackAllTarget(edges: seq<EdgeRow>, scan: Id, ps: seq<PathRow>, p: PathRow, e: EdgeRow)
    requires p in ps && e in edges && Continues(e, p, scan)
    ensures BackRow(e, p) in BackFromAll(edges, scan, ps)
  {
    if p == ps[0] {
      BackTarget(edges, scan, p, e);
    } else {
      assert p in ps[1..];
      BackAllTarget(edges, scan, ps[1..], p, e);
    }
  }

  // The row of the k-th round that a guarded chain ends with.
  ghost predicate EndsChain(edges: seq<EdgeRow>, scan: Id, target: Id, k: nat, row: PathRow, es: seq<EdgeRow>) {
    IsGuardedChain(edges, scan, target, es) && |es| == k + 1 && row == ChainRow(target, es)
  }

  // Every row continues a backward chain from the target.
  lemma {:induction false} RowIsChain(edges: seq<EdgeRow>, scan: Id, target: Id, k: nat, row: PathRow)
    returns (es: seq<EdgeRow>)
    requires row in PathLevel(edges, scan, target, k)
    ensures EndsChain(edges, scan, target, k, row, es)
    decreases k
  {
    if k == 0 {
      es := FirstRowIsChain(edges, scan, target, row);
    } else {
      var p, e := PathLevelSource(edges, scan, target, k, row);
      var front := RowIsChain(edges, scan, target, k - 1, p);
      es := ContinueChain(edges, scan, target, k - 1, p, front, e);
    }
  }

  lemma FirstRowIsChain(edges: seq<EdgeRow>, scan: Id, target: Id, row: PathRow) returns (es: seq<EdgeRow>)
    requires row in PathLevel(edges, scan, target, 0)
    ensures EndsChain(edges, scan, target, 0, row, es)
  {
    assert PathLevel(edges, scan, target, 0) == BaseRows(edges, scan, target);
    var e := BaseSource(edges, scan, target, row);
    es := [e];
    BaseIsChain(edges, scan, target, e);
  }

  lemma PathLevelSource(edges: seq<EdgeRow>, scan: Id, target: Id, k: nat, row: PathRow)
    returns (p: PathRow, e: EdgeRow)
    requires k > 0 && row in PathLevel(edges, scan, target, k)
    ensures p in PathLevel(edges, scan, target, k - 1) && e in edges && Continues(e, p, scan) && row == BackRow(e, p)
  {
    var ps := PathLevel(edges, scan, target, k - 1);
    assert PathLevel(edges, scan, target, k) == BackFromAll(edges, scan, ps);
    p, e := BackAllSource(edges, scan, ps, row);
  }

  lemma BaseIsChain(edges: seq<EdgeRow>, scan: Id, target: Id, e: EdgeRow)
    requires e in edges && StartsAt(e, scan, target)
    ensures IsGuardedChain(edges, scan, target, [e]) && BaseRow(e, target) == ChainRow(target, [e])
  {
    EncodeAppend([], target);
    assert Guarded(target, [e]) == [] + [target];
  }

  lemma ContinueChain(edges: seq<EdgeRow>, scan: Id, target: Id, k: nat, p: PathRow, front: seq<EdgeRow>, e: EdgeRow)
    returns (es: seq<EdgeRow>)
    requires EndsChain(edges, scan, target, k, p, front) && e in edges && Continues(e, p, scan)
    ensures es == front + [e] && EndsChain(edges, scan, target, k + 1, BackRow(e, p), es)
  {
    GuardIsMembership(Guarded(target, front), e.parent.id);
    EncodeAppend(Guarded(target, front), e.parent.id);
    es := AppendToChain(edges, scan, target, front, e);
  }

  lemma AppendToChain(edges: seq<EdgeRow>, scan: Id, target: Id, front: seq<EdgeRow>, e: EdgeRow)
      returns (es: seq<EdgeRow>)
    requires IsGuardedChain(edges, scan, target, front) && e in edges && e.scan == scan
    requires e.parent.Parent? && front[|front| - 1].parent == Parent(e.child)
    requires e.parent.id !in Guarded(target, front)
    ensures es == front + [e] && IsGuardedChain(edges, scan, target, es)
    ensures Guarded(target, es) == Guarded(target, front) + [e.parent.id]
  {
    es := front + [e];
    assert es[..|front|] == front;
    SimpleAppend(Guarded(target, front), e.parent.id);
  }

  // Every guarded chain is found.
  lemma {:induction false} ChainHasRow(edges: seq<EdgeRow>, scan: Id, target: Id, es: seq<EdgeRow>)
    requires IsGuardedChain(edges, scan, target, es)
    ensures ChainRow(target, es) in PathLevel(edges, scan, target, |es| - 1)
    decreases |es|
  {
    if |es| == 1 {
      EncodeAppend([], target);
      assert [] + [target] == [target] == Guarded(target, es);
      BaseTarget(edges, scan, target, es[0]);
    } else {
      var front, e := SplitChain(edges, scan, target, es);
      ChainHasRow(edges, scan, target, front);
      PathRowGrows(edges, scan, target, |front| - 1, ChainRow(target, front), Guarded(target, front), e);
    }
  }

  lemma SplitChain(edges: seq<EdgeRow>, scan: Id, target: Id, es: seq<EdgeRow>)
    returns (front: seq<EdgeRow>, e: EdgeRow)
    requires IsGuardedChain(edges, scan, target, es) && |es| > 1
    ensures es == front + [e] && IsGuardedChain(edges, scan, target, front)
    ensures e in edges && e.scan == scan && e.parent.Parent? && front[|front| - 1].parent == Parent(e.child)
    ensures e.parent.id !in Guarded(target, front)
    ensures Guarded(target, es) == Guarded(target, front) + [e.parent.id]
  {
    var n := |es| - 1;
    front, e := es[..n], es[n];
    assert Guarded(target, es) == Guarded(target, front) + [e.parent.id];
    SimpleAppend(Guarded(target, front), e.parent.id);
  }

  // A row grows by any edge whose parent is not yet among the visited nodes.
  lemma PathRowGrows(edges: seq<EdgeRow>, scan: Id, target: Id, k: nat, p: PathRow, v: seq<Id>, e: EdgeRow)
    requires p in PathLevel(edges, scan, target, k) && p.visited == Encode(v)
    requires e in edges && e.scan == scan && e.parent.Parent? && p.parent == Parent(e.child) && e.parent.id !in v
    ensures PathRow(e.child, e.parent, e.pluginName, p.hop + 1, Encode(v + [e.parent.id]))
            in PathLevel(edges, scan, target, k + 1)
  {
    GuardIsMembership(v, e.parent.id);
    EncodeAppend(v, e.parent.id);
    assert Continues(e, p, scan);
    assert BackRow(e, p) == PathRow(e.child, e.parent, e.pluginName, p.hop + 1, Encode(v + [e.parent.id]));
    BackAllTarget(edges, scan, PathLevel(edges, scan, target, k), p, e);
  }

  lemma GuardedNodes(edges: seq<EdgeRow>, scan: Id, target: Id, es: seq<EdgeRow>)
    requires IsChain(edges, scan, target, es)
    ensures forall x :: x in Guarded(target, es) ==> x in Ancestors(edges, scan, target)
    decreases |es|
  {
    if |es| > 1 {
      GuardedNodes(edges, scan, target, es[..|es| - 1]);
      assert es[|es| - 1] in edges;
    }
  }

  // With no hop cap the recursion still ends: a round past the last node finds nothing.
  lemma PathRecursionStops(edges: seq<EdgeRow>, scan: Id, target: Id, k: nat)
    requires k >= |Ancestors(edges, scan, target)|
    ensures PathLevel(edges, scan, target, k) == []
  {
    var rows := PathLevel(edges, scan, target, k);
    if rows != [] {
      var es := RowIsChain(edges, scan, target, k, rows[0]);
      var v, nodes := Guarded(target, es), Ancestors(edges, scan, target);
      GuardedNodes(edges, scan, target, es);
      assert forall x :: x in v ==> x in nodes;
      SimpleBound(v, nodes);
      assert false;
    }
  }

  lemma {:induction false} DescendingSource(edges: seq<EdgeRow>, scan: Id, target: Id, rounds: nat, row: PathRow)
    returns (k: nat)
    requires row in Descending(edges, scan, target, rounds)
    ensures k < rounds && row in PathLevel(edges, scan, target, k)
  {
    assert rounds > 0;
    DescendingSplit(edges, scan, target, rounds, row);
    if row in PathLevel(edges, scan, target, rounds - 1) {
      k := rounds - 1;
    } else {
      k := DescendingSource(edges, scan, target, rounds - 1, row);
    }
  }

  lemma DescendingSplit(edges: seq<EdgeRow>, scan: Id, target: Id, rounds: nat, row: PathRow)
    requires rounds > 0
    ensures row in Descending(edges, scan, target, rounds) <==>
            row in PathLevel(edges, scan, target, rounds - 1) || row in Descending(edges, scan, target, rounds - 1)
  {
    InConcat(PathLevel(edges, scan, target, rounds - 1), Descending(edges, scan, target, rounds - 1), row);
  }

  lemma {:induction false} DescendingTarget(edges: seq<EdgeRow>, scan: Id, target: Id, rounds: nat, k: nat,
      row: PathRow)
    requires k < rounds && row in PathLevel(edges, scan, target, k)
    ensures row in Descending(edges, scan, target, rounds)
  {
    if k < rounds - 1 {
      DescendingTarget(edges, scan, target, rounds - 1, k, row);
    }
  }

  predicate HopsDescend(rows: seq<PathRow>, bound: nat) {
    && (forall i :: 0 <= i < |rows| ==> rows[i].hop < bound)
    && forall i, j :: 0 <= i < j < |rows| ==> rows[i].hop >= rows[j].hop
  }

  lemma HopsConcat(first: seq<PathRow>, later: seq<PathRow>, hop: nat)
    requires (forall i :: 0 <= i < |first| ==> first[i].hop == hop) && HopsDescend(later, hop)
    ensures HopsDescend(first + later, hop + 1)
  {
  }

  lemma {:induction false} DescendingOrder(edges: seq<EdgeRow>, scan: Id, target: Id, rounds: nat)
    ensures HopsDescend(Descending(edges, scan, target, rounds), rounds)
  {
    if rounds > 0 {
      DescendingOrder(edges, scan, target, rounds - 1);
      var first := PathLevel(edges, scan, target, rounds - 1);
      forall i | 0 <= i < |first|
        ensures first[i].hop == rounds - 1
      {
        var _ := RowIsChain(edges, scan, target, rounds - 1, first[i]);
      }
      HopsConcat(first, Descending(edges, scan, target, rounds - 1), rounds - 1);
    }
  }

  lemma ReturnedRowIsChain(edges: seq<EdgeRow>, scan: Id, target: Id, row: PathRow) returns (es: seq<EdgeRow>)
    requires row in GetDiscoveryPath(edges, scan, target)
    ensures IsGuardedChain(edges, scan, target, es) && row == ChainRow(target, es)
  {
    var k := DescendingSource(edges, scan, target, |Ancestors(edges, scan, target)|, row);
    es := RowIsChain(edges, scan, target, k, row);
  }

  lemma GuardedChainIsReturned(edges: seq<EdgeRow>, scan: Id, target: Id, es: seq<EdgeRow>)
    requires IsGuardedChain(edges, scan, target, es)
    ensures ChainRow(target, es) in GetDiscoveryPath(edges, scan, target)
  {
    var n, k := |Ancestors(edges, scan, target)|, |es| - 1;
    ChainHasRow(edges, scan, target, es);
    if k >= n {
      PathRecursionStops(edges, scan, target, k);
    }
    DescendingTarget(edges, scan, target, n, k, ChainRow(target, es));
  }

  // The answer is exactly the guarded chains.
  lemma PathRowsAreChains(edges: seq<EdgeRow>, scan: Id, target: Id, row: PathRow)
    ensures row in GetDiscoveryPath(edges, scan, target) <==>
            exists es :: IsGuardedChain(edges, scan, target, es) && row == ChainRow(target, es)
  {
    if row in GetDiscoveryPath(edges, scan, target) {
      var es := ReturnedRowIsChain(edges, scan, target, row);
    } else if es :| IsGuardedChain(edges, scan, target, es) && row == ChainRow(target, es) {
      GuardedChainIsReturned(edges, scan, target, es);
      assert false;
    }
  }

  // The root side comes first.
  lemma PathIsRootFirst(edges: seq<EdgeRow>, scan: Id, target: Id)
    ensures var rows := GetDiscoveryPath(edges, scan, target);
            forall i, j :: 0 <= i < j < |rows| ==> rows[i].hop >= rows[j].hop
  {
    var n := |Ancestors(edges, scan, target)|;
    DescendingOrder(edges, scan, target, n);
    assert GetDiscoveryPath(edges, scan, target) == Descending(edges, scan, target, n);
  }

  // ---- Simple paths ----

  // The edges of a simple walk, read backward from its end down to its j-th link.
  lemma {:induction false} WalkChain(edges: seq<EdgeRow>, scan: Id, w: seq<Id>, j: nat, e: EdgeRow, target: Id)
    returns (es: seq<EdgeRow>)
    requires IsWalk(ScanLinks(edges, scan), w) && Simple(w) && j + 1 < |w| && target == w[|w| - 1]
    requires e in edges && e.scan == scan && e.parent == Parent(w[j]) && e.child == w[j + 1]
    ensures IsGuardedChain(edges, scan, target, es) && |es| == |w| - 1 - j && es[|es| - 1] == e
    ensures forall x :: x in Guarded(target, es) ==> x == target || x in w[j..]
    ensures forall i :: 0 <= i < |es| ==> es[i].parent == Parent(w[|w| - 2 - i])
    decreases |w| - j
  {
    if j + 2 == |w| {
      es := [e];
    } else {
      assert ScanLinks(edges, scan)(w[j + 1], w[j + 2]);
      var next :| next in edges && next.scan == scan && next.parent == Parent(w[j + 1]) && next.child == w[j + 2];
      var front := WalkChain(edges, scan, w, j + 1, next, target);
      assert w[j] !in w[j + 1..];
      es := AppendToChain(edges, scan, target, front, e);
      assert w[j..] == [w[j]] + w[j + 1..];
    }
  }

  // Every edge of every simple path to the target is returned, at its distance along the path.
  lemma SimplePathsAppear(edges: seq<EdgeRow>, scan: Id, w: seq<Id>, j: nat, e: EdgeRow)
    requires IsWalk(ScanLinks(edges, scan), w) && Simple(w) && j + 1 < |w|
    requires e in edges && e.scan == scan && e.parent == Parent(w[j]) && e.child == w[j + 1]
    ensures exists row :: row in GetDiscoveryPath(edges, scan, w[|w| - 1])
                          && row.child == e.child && row.parent == e.parent && row.pluginName == e.pluginName
                          && row.hop == |w| - 2 - j
  {
    var target := w[|w| - 1];
    var es := WalkChain(edges, scan, w, j, e, target);
    GuardedChainIsReturned(edges, scan, target, es);
  }

  // Some returned row leads from a to b at this distance from the target.
  ghost predicate LinkListed(edges: seq<EdgeRow>, scan: Id, target: Id, a: Id, b: Id, hop: int) {
    exists row :: row in GetDiscoveryPath(edges, scan, target)
                  && row.parent == Parent(a) && row.child == b && row.hop == hop
  }

  // So a whole simple path to the target can be read back from the rows.
  lemma WalkIsListed(edges: seq<EdgeRow>, scan: Id, w: seq<Id>)
    requires IsWalk(ScanLinks(edges, scan), w) && Simple(w)
    ensures forall j :: 0 <= j < |w| - 1 ==> LinkListed(edges, scan, w[|w| - 1], w[j], w[j + 1], |w| - 2 - j)
  {
    forall j | 0 <= j < |w| - 1
      ensures LinkListed(edges, scan, w[|w| - 1], w[j], w[j + 1], |w| - 2 - j)
    {
      assert ScanLinks(edges, scan)(w[j], w[j + 1]);
      var e :| e in edges && e.scan == scan && e.parent == Parent(w[j]) && e.child == w[j + 1];
      SimplePathsAppear(edges, scan, w, j, e);
    }
  }

  // The nodes a chain passes through: the target, then every parent.
  function ChainNodes(target: Id, es: seq<EdgeRow>): (v: seq<Id>)
    requires forall i :: 0 <= i < |es| ==> es[i].parent.Parent?
    ensures |v| == |es| + 1 && v[0] == target
    ensures forall i :: 0 <= i < |es| ==> v[i + 1] == es[i].parent.id
  {
    [target] + seq(|es|, i requires 0 <= i < |es| => es[i].parent.id)
  }

  lemma {:induction false} GuardedAt(target: Id, es: seq<EdgeRow>, i: nat)
    requires (forall j :: 0 < j < |es| ==> es[j].parent.Parent?) && 0 < i < |es|
    ensures Guarded(target, es)[i] == es[i].parent.id
  {
    if i < |es| - 1 {
      GuardedAt(target, es[..|es| - 1], i);
    }
  }

  // The parent of the first row is missing from the visited text, so a returned chain is a
  // simple path exactly when it does not come back to that parent.
  lemma ChainIsSimple(edges: seq<EdgeRow>, scan: Id, target: Id, es: seq<EdgeRow>)
    requires IsGuardedChain(edges, scan, target, es) && es[0].parent.Parent?
    ensures Simple(ChainNodes(target, es)) <==> es[0].parent.id !in Guarded(target, es)
  {
    var v, g := ChainNodes(target, es), Guarded(target, es);
    forall i | 0 < i < |es|
      ensures g[i] == v[i + 1]
    {
      GuardedAt(target, es, i);
    }
    if es[0].parent.id in g {
      var i :| 0 <= i < |g| && g[i] == v[1];
      assert i == 0 ==> v[0] == v[1];
    } else {
      forall i, j | 0 <= i < j < |v|
        ensures v[i] != v[j]
      {
        if i == 1 {
          assert v[j] == g[j - 1];
        } else if j == 1 {
          assert v[i] == g[0];
        } else {
          assert v[j] == g[j - 1];
          assert v[i] == if i == 0 then g[0] else g[i - 1];
        }
      }
    }
  }

  // A returned chain that passes through some node twice.
  ghost predicate ReturnsTwisted(edges: seq<EdgeRow>, scan: Id, target: Id) {
    exists es: seq<EdgeRow> ::
      IsGuardedChain(edges, scan, target, es) && es[0].parent.Parent? && !Simple(ChainNodes(target, es))
  }

  // What the edge table must hold for that: a parent p of the target that is the target, or
  // that lies on a cycle which avoids the target.
  ghost predicate OnCycle(edges: seq<EdgeRow>, scan: Id, target: Id, p: Id, w: seq<Id>) {
    Joins(ScanLinks(edges, scan), p, p, w) && |w| > 1 && target !in w
  }

  ghost predicate HasCyclicParent(edges: seq<EdgeRow>, scan: Id, target: Id) {
    exists p :: ScanLinks(edges, scan)(p, target) && (p == target || exists w :: OnCycle(edges, scan, target, p, w))
  }

  // The parents of es[0], ..., es[i], from the last of them down to the first.
  function ParentsBack(es: seq<EdgeRow>, i: nat): (w: seq<Id>)
    requires i < |es| && forall k :: 0 <= k < |es| ==> es[k].parent.Parent?
    ensures |w| == i + 1 && forall k :: 0 <= k <= i ==> w[k] == es[i - k].parent.id
  {
    seq(i + 1, k requires 0 <= k < i + 1 => es[i - k].parent.id)
  }

  lemma ParentsBackIsWalk(edges: seq<EdgeRow>, scan: Id, target: Id, es: seq<EdgeRow>, i: nat)
    requires IsGuardedChain(edges, scan, target, es) && es[0].parent.Parent? && es[0].parent.id != target && i < |es|
    ensures IsWalk(ScanLinks(edges, scan), ParentsBack(es, i)) && target !in ParentsBack(es, i)
  {
    var w := ParentsBack(es, i);
    forall k | 0 < k < |w|
      ensures ScanLinks(edges, scan)(w[k - 1], w[k])
    {
      var e := es[i - k + 1];
      assert e in edges && es[i - k].parent == Parent(e.child);
    }
    forall k | 0 <= k <= i
      ensures w[k] != target
    {
      if k < i {
        GuardedAt(target, es, i - k);
      }
    }
  }

  // A chain that comes back to its first parent has gone round a cycle.
  lemma TwistedHasCycle(edges: seq<EdgeRow>, scan: Id, target: Id, es: seq<EdgeRow>)
    requires IsGuardedChain(edges, scan, target, es) && es[0].parent.Parent? && !Simple(ChainNodes(target, es))
    ensures HasCyclicParent(edges, scan, target)
  {
    var p, guarded := es[0].parent.id, Guarded(target, es);
    ChainIsSimple(edges, scan, target, es);
    assert es[0] in edges && ScanLinks(edges, scan)(p, target);
    if p != target {
      var i :| 0 <= i < |guarded| && guarded[i] == p;
      GuardedAt(target, es, i);
      ParentsBackIsWalk(edges, scan, target, es, i);
      assert OnCycle(edges, scan, target, p, ParentsBack(es, i));
    }
  }

  // And a cycle at a parent of the target is followed all the way round.
  lemma CycleIsFollowed(edges: seq<EdgeRow>, scan: Id, target: Id, p: Id, w: seq<Id>)
    requires ScanLinks(edges, scan)(p, target) && OnCycle(edges, scan, target, p, w)
    ensures ReturnsTwisted(edges, scan, target)
  {
    var g := ScanLinks(edges, scan);
    assert IsWalk(g, w[1..]);
    var s := SimpleWalk(g, w[1..]);
    assert target !in s;
    SimpleAppend(s, target);
    var v := s + [target];
    ExtendWalk(g, s[0], p, target, s);
    assert g(v[0], v[1]) && g(p, s[0]);
    var next :| next in edges && next.scan == scan && next.parent == Parent(v[0]) && next.child == v[1];
    var front := WalkChain(edges, scan, v, 0, next, target);
    var last :| last in edges && last.scan == scan && last.parent == Parent(p) && last.child == s[0];
    forall i | 0 <= i < |front|
      ensures Guarded(target, front)[i] != p
    {
      if i > 0 {
        GuardedAt(target, front, i);
      }
    }
    var es := AppendToChain(edges, scan, target, front, last);
    assert es[0] == front[0] && p in Guarded(target, es);
    ChainIsSimple(edges, scan, target, es);
  }

  // The query returns a path that is not simple exactly when the table has such a cycle.
  lemma TwistedIffCyclicParent(edges: seq<EdgeRow>, scan: Id, target: Id)
    ensures ReturnsTwisted(edges, scan, target) <==> HasCyclicParent(edges, scan, target)
  {
    if es: seq<EdgeRow> :|
      IsGuardedChain(edges, scan, target, es) && es[0].parent.Parent? && !Simple(ChainNodes(target, es))
    {
      TwistedHasCycle(edges, scan, target, es);
    }
    if p :| ScanLinks(edges, scan)(p, target) && (p == target || exists w :: OnCycle(edges, scan, target, p, w)) {
      if p == target {
        SelfLoopIsFollowed(edges, scan, target);
      } else {
        var w :| OnCycle(edges, scan, target, p, w);
        CycleIsFollowed(edges, scan, target, p, w);
      }
    }
  }

  lemma SelfLoopIsFollowed(edges: seq<EdgeRow>, scan: Id, target: Id)
    requires ScanLinks(edges, scan)(target, target)
    ensures ReturnsTwisted(edges, scan, target)
  {
    var e :| e in edges && e.scan == scan && e.parent == Parent(target) && e.child == target;
    assert ChainNodes(target, [e])[0] == ChainNodes(target, [e])[1];
    assert IsGuardedChain(edges, scan, target, [e]);
  }

  // The smallest such table: with links 2 -> 1, 3 -> 2 and 2 -> 3, the path to 1 contains the
  // edge 2 -> 3.
  function CyclicTable(scan: Id): seq<EdgeRow> {
    [EdgeRow(Parent(2), 1, "p", scan), EdgeRow(Parent(3), 2, "p", scan), EdgeRow(Parent(2), 3, "p", scan)]
  }

  lemma ChainMayRevisitItsFirstParent(scan: Id)
    ensures IsGuardedChain(CyclicTable(scan), scan, 1, CyclicTable(scan))
    ensures !Simple(ChainNodes(1, CyclicTable(scan))) && ReturnsTwisted(CyclicTable(scan), scan, 1)
    ensures exists row :: row in GetDiscoveryPath(CyclicTable(scan), scan, 1)
                          && row.child == 3 && row.parent == Parent(2)
  {
    var edges := CyclicTable(scan);
    assert edges[..2][..1] == edges[..1] == [edges[0]];
    assert Guarded(1, edges[..1]) == [1];
    assert Guarded(1, edges[..2]) == [1, 3];
    assert Guarded(1, edges) == [1, 3, 2];
    assert ChainNodes(1, edges)[1] == ChainNodes(1, edges)[3];
    GuardedChainIsReturned(edges, scan, 1, edges);
  }
}
