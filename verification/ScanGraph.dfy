// What a scan leaves in the graph store, and what the two recursive queries read back.
module ScanGraph {
  import opened Entities
  import opened TraceTables
  import opened Walks
  import opened ScanMachine
  import opened ReachableQuery
  import opened DiscoveryPath

  // The edges of a scan that has processed the traces in `processed`: the seed edge, and one
  // edge for every discovery, whether or not its child had been seen before.
  ghost predicate IsScanEdge(g: PluginGraph, processed: seq<Trace>, seed: Trace, scan: Id, x: TraceEdge) {
    || x == TraceEdge(None, seed, "__seed__", scan)
    || (x.scan == scan && x.parent.Some? && x.parent.value in processed
        && IsDiscovery(g, Discovery(x.parent.value, x.pluginName, x.child)))
  }

  // post is pre plus exactly the traces and edges of the scan so far.
  ghost predicate ScanStored(pre: Tables, post: Tables, scan: Id, g: PluginGraph, seed: Trace, s: Scan) {
    && ValidTables(pre) && ValidTables(post)
    && s.done <= |s.all|
    && TracesGrow(pre.traces, pre.lastId, post.traces, post.lastId)
    && Stored(post.traces) == Stored(pre.traces) + (set t | t in s.all)
    && post.scans == pre.scans
    && (forall x :: x in Lifted(post) <==> x in Lifted(pre) || IsScanEdge(g, s.all[..s.done], seed, scan, x))
  }

  // What a failure to record the seed may leave behind: its trace, but no edge.
  ghost predicate OnlyRootAdded(pre: Tables, post: Tables, seed: Trace) {
    && post.edges == pre.edges && post.scans == pre.scans
    && ((post.traces == pre.traces && post.lastId == pre.lastId)
        || exists id :: Resolved(pre.traces, pre.lastId, seed, post.traces, post.lastId, id))
  }

  lemma SeedStored(pre: Tables, mid: Tables, post: Tables, scan: Id, g: PluginGraph, seed: Trace, id: Id)
    requires ValidTables(pre) && scan in pre.scans
    requires Resolved(pre.traces, pre.lastId, seed, mid.traces, mid.lastId, id)
    requires mid.edges == pre.edges && mid.scans == pre.scans && ValidTables(mid)
    requires post == mid.(edges := pre.edges + [EdgeRow(NoParent, id, SEED_PLUGIN_NAME, scan)])
    requires ValidTables(post)
    ensures ScanStored(pre, post, scan, g, seed, Start(seed))
  {
    ResolvedGrows(pre.traces, pre.lastId, seed, mid.traces, mid.lastId, id);
    LiftedUnchanged(pre, mid);
    assert Lifted(post) == Lifted(mid) + [TraceEdge(None, seed, SEED_PLUGIN_NAME, scan)];
  }

  lemma BatchTracesStored(s: Scan, maxConcurrency: int, g: PluginGraph, ds: seq<Discovery>, s': Scan)
    requires s.done <= |s.all| && 0 <= maxConcurrency && Arrives(g, Batch(s, maxConcurrency), ds)
    requires s'.all == Admit(s.all, ds)
    ensures (set t | t in s.all) + Mentioned(ds) == set t | t in s'.all
  {
    AdmitFacts(s.all, ds);
    forall t | t in Mentioned(ds)
      ensures t in s'.all
    {
      var d: Discovery :| d in ds && (d.parent == t || d.child == t);
      assert d.parent in Batch(s, maxConcurrency);
    }
  }

  lemma BatchEdgesStored(s: Scan, maxConcurrency: int, g: PluginGraph, ds: seq<Discovery>, s': Scan, seed: Trace,
      scan: Id, x: TraceEdge)
    requires s.done <= |s.all| && 0 <= maxConcurrency && Arrives(g, Batch(s, maxConcurrency), ds)
    requires s'.all == Admit(s.all, ds) && s'.done == s.done + BatchSize(s, maxConcurrency)
    ensures s'.done <= |s'.all|
    ensures IsScanEdge(g, s'.all[..s'.done], seed, scan, x) <==>
            IsScanEdge(g, s.all[..s.done], seed, scan, x) || x in TraceRows(ds, scan)
  {
    AdmitFacts(s.all, ds);
    assert s'.all[..s'.done] == s.all[..s.done] + Batch(s, maxConcurrency);
    TraceRowIsArrival(g, Batch(s, maxConcurrency), ds, scan, x);
  }

  // The rows of a batch are the discoveries of its traces.
  lemma TraceRowIsArrival(g: PluginGraph, batch: seq<Trace>, ds: seq<Discovery>, scan: Id, x: TraceEdge)
    requires Arrives(g, batch, ds)
    ensures x in TraceRows(ds, scan) <==>
            && x.scan == scan && x.parent.Some? && x.parent.value in batch
            && IsDiscovery(g, Discovery(x.parent.value, x.pluginName, x.child))
  {
    if x in TraceRows(ds, scan) {
      var i :| 0 <= i < |ds| && TraceRows(ds, scan)[i] == x;
      assert ds[i] in ds && IsDiscovery(g, ds[i]);
    }
    if x.scan == scan && x.parent.Some? && x.parent.value in batch {
      var d := Discovery(x.parent.value, x.pluginName, x.child);
      if IsDiscovery(g, d) {
        var i :| 0 <= i < |ds| && ds[i] == d;
        assert TraceRows(ds, scan)[i] == x;
      }
    }
  }

  lemma BatchStored(pre: Tables, mid: Tables, post: Tables, scan: Id, g: PluginGraph, seed: Trace,
                    maxConcurrency: int, s: Scan, ds: seq<Discovery>, s': Scan)
    requires ScanStored(pre, mid, scan, g, seed, s) && scan in pre.scans
    requires 0 <= maxConcurrency && Arrives(g, Batch(s, maxConcurrency), ds)
    requires s'.all == Admit(s.all, ds) && s'.done == s.done + BatchSize(s, maxConcurrency)
    requires Persisted(mid, scan, ds, post)
    ensures ScanStored(pre, post, scan, g, seed, s')
  {
    PersistedValid(mid, scan, ds, post);
    PersistedMeaning(mid, scan, ds, post);
    BatchTracesStored(s, maxConcurrency, g, ds, s');
    GrowTransitive(pre.traces, pre.lastId, mid.traces, mid.lastId, post.traces, post.lastId);
    AddAllNewMembers(Lifted(mid), TraceRows(ds, scan));
    AdmitFacts(s.all, ds);
    forall x: TraceEdge
      ensures x in Lifted(post) <==> x in Lifted(pre) || IsScanEdge(g, s'.all[..s'.done], seed, scan, x)
    {
      BatchEdgesStored(s, maxConcurrency, g, ds, s', seed, scan, x);
    }
  }

  // ---- A finished scan on a fresh scan id ----

  ghost predicate FinishedScan(pre: Tables, post: Tables, scan: Id, g: PluginGraph, seed: Trace,
      maxConcurrency: int, run: seq<Scan>) {
    && IsFinishedRun(g, maxConcurrency, seed, run)
    && (forall row :: row in pre.edges ==> row.scan != scan)
    && ScanStored(pre, post, scan, g, seed, run[|run| - 1])
  }

  // The links the query follows are the children the plugins returned, read through the ids.
  lemma LinksAreChildren(pre: Tables, post: Tables, scan: Id, g: PluginGraph, seed: Trace, c: int, run: seq<Scan>,
      a: Id, b: Id)
    requires FinishedScan(pre, post, scan, g, seed, c, run)
    ensures ScanLinks(post.edges, scan)(a, b) <==>
            && a in post.traces && b in post.traces
            && post.traces[a] in Results(run) && IsChild(g, post.traces[a], post.traces[b])
  {
    var all := Results(run);
    assert run[|run| - 1].all[..run[|run| - 1].done] == all;
    if ScanLinks(post.edges, scan)(a, b) {
      var e :| e in post.edges && e.scan == scan && e.parent == Parent(a) && e.child == b;
      var i :| 0 <= i < |post.edges| && post.edges[i] == e;
      var x := Lifted(post)[i];
      assert x in Lifted(post);
      FreshScanHasNoEdge(pre, scan, x);
      assert IsScanEdge(g, all, seed, scan, x);
    }
    if a in post.traces && b in post.traces && post.traces[a] in all && IsChild(g, post.traces[a], post.traces[b]) {
      var f :| f in g(post.traces[a]).finds && f.child == post.traces[b];
      var x := TraceEdge(Some(post.traces[a]), post.traces[b], f.pluginName, scan);
      assert IsScanEdge(g, all, seed, scan, x);
      var i :| 0 <= i < |post.edges| && Lifted(post)[i] == x;
      var e := post.edges[i];
      assert e in post.edges;
      assert e.parent.Parent? && post.traces[e.parent.id] == post.traces[a] && post.traces[e.child] == post.traces[b];
      assert e.parent == Parent(a) && e.child == b;
    }
  }

  lemma FreshScanHasNoEdge(pre: Tables, scan: Id, x: TraceEdge)
    requires ValidTables(pre) && (forall row :: row in pre.edges ==> row.scan != scan) && x.scan == scan
    ensures x !in Lifted(pre)
  {
    forall i | 0 <= i < |pre.edges|
      ensures Lifted(pre)[i].scan != scan
    {
      assert pre.edges[i] in pre.edges;
    }
  }

  function Names(traces: map<Id, Trace>, w: seq<Id>): (v: seq<Trace>)
    requires forall i :: 0 <= i < |w| ==> w[i] in traces
    ensures |v| == |w| && forall i :: 0 <= i < |w| ==> v[i] == traces[w[i]]
  {
    seq(|w|, i requires 0 <= i < |w| => traces[w[i]])
  }

  ghost function Ids(traces: map<Id, Trace>, v: seq<Trace>): (w: seq<Id>)
    requires forall i :: 0 <= i < |v| ==> v[i] in Stored(traces)
    ensures |w| == |v| && forall i :: 0 <= i < |v| ==> w[i] in traces && traces[w[i]] == v[i]
  {
    seq(|v|, i requires 0 <= i < |v| => IdOf(traces, v[i]))
  }

  // Walks over ids and walks over traces correspond, link by link.
  lemma WalkToNames(pre: Tables, post: Tables, scan: Id, g: PluginGraph, seed: Trace, c: int, run: seq<Scan>,
      root: Id, b: Id, w: seq<Id>)
    returns (v: seq<Trace>)
    requires FinishedScan(pre, post, scan, g, seed, c, run)
    requires root in post.traces && post.traces[root] == seed
    requires Joins(ScanLinks(post.edges, scan), root, b, w)
    ensures b in post.traces && Joins(Children(g), seed, post.traces[b], v) && |v| == |w|
  {
    forall i | 0 <= i < |w|
      ensures w[i] in post.traces && (i > 0 ==> IsChild(g, post.traces[w[i - 1]], post.traces[w[i]]))
    {
      if i > 0 {
        assert ScanLinks(post.edges, scan)(w[i - 1], w[i]);
        LinksAreChildren(pre, post, scan, g, seed, c, run, w[i - 1], w[i]);
      }
    }
    v := Names(post.traces, w);
  }

  lemma WalkToIds(pre: Tables, post: Tables, scan: Id, g: PluginGraph, seed: Trace, c: int, run: seq<Scan>,
      root: Id, t: Trace, v: seq<Trace>)
    returns (w: seq<Id>)
    requires FinishedScan(pre, post, scan, g, seed, c, run)
    requires root in post.traces && post.traces[root] == seed
    requires Joins(Children(g), seed, t, v)
    ensures t in Stored(post.traces) && Joins(ScanLinks(post.edges, scan), root, IdOf(post.traces, t), w) && |w| == |v|
  {
    WalkInResults(g, c, seed, run, v);
    w := Ids(post.traces, v);
    forall i | 0 < i < |w|
      ensures ScanLinks(post.edges, scan)(w[i - 1], w[i])
    {
      assert Children(g)(v[i - 1], v[i]);
      assert v[i - 1] in v;
      LinksAreChildren(pre, post, scan, g, seed, c, run, w[i - 1], w[i]);
    }
    assert v[|v| - 1] in v;
  }

  // A walk from the seed never leaves the results.
  lemma {:induction false} WalkInResults(g: PluginGraph, c: int, seed: Trace, run: seq<Scan>, v: seq<Trace>)
    requires IsFinishedRun(g, c, seed, run) && IsWalk(Children(g), v) && v[0] == seed
    ensures forall i :: 0 <= i < |v| ==> v[i] in Results(run)
    decreases |v|
  {
    ResultsAreTheClosure(g, c, seed, run);
    forall i | 0 <= i < |v|
      ensures v[i] in Results(run)
    {
      assert Joins(Children(g), seed, v[i], v[..i + 1]);
    }
  }

  // The distance the query sees is the distance in the plugin graph.
  lemma DistancesAgree(pre: Tables, post: Tables, scan: Id, g: PluginGraph, seed: Trace, c: int, run: seq<Scan>,
      root: Id, b: Id, d: nat)
    requires FinishedScan(pre, post, scan, g, seed, c, run)
    requires root in post.traces && post.traces[root] == seed
    ensures Distance(ScanLinks(post.edges, scan), root, b, d) <==>
            b in post.traces && Distance(Children(g), seed, post.traces[b], d)
  {
    var links := ScanLinks(post.edges, scan);
    if Distance(links, root, b, d) {
      var w :| Joins(links, root, b, w) && |w| == d + 1;
      var v := WalkToNames(pre, post, scan, g, seed, c, run, root, b, w);
      var t := post.traces[b];
      assert t in Stored(post.traces) && IdOf(post.traces, t) == b;
      forall u | Joins(Children(g), seed, t, u)
        ensures |u| >= d + 1
      {
        var x := WalkToIds(pre, post, scan, g, seed, c, run, root, t, u);
      }
    }
    if b in post.traces && Distance(Children(g), seed, post.traces[b], d) {
      var t := post.traces[b];
      assert t in Stored(post.traces) && IdOf(post.traces, t) == b;
      var v :| Joins(Children(g), seed, t, v) && |v| == d + 1;
      var w := WalkToIds(pre, post, scan, g, seed, c, run, root, t, v);
      forall x | Joins(links, root, b, x)
        ensures |x| >= d + 1
      {
        var u := WalkToNames(pre, post, scan, g, seed, c, run, root, b, x);
      }
    }
  }

  // ---- Main results ----

  ghost function Answered(out: seq<ReachableTrace>): set<Trace> {
    set r | r in out :: Trace(r.value, r.kind)
  }

  lemma ResultDistance(g: PluginGraph, c: int, seed: Trace, run: seq<Scan>, t: Trace) returns (d: nat)
    requires IsFinishedRun(g, c, seed, run) && t in Results(run)
    ensures Distance(Children(g), seed, t, d) && d < |Results(run)|
  {
    ResultsAreTheClosure(g, c, seed, run);
    var all := Results(run);
    var v :| Joins(Children(g), seed, t, v);
    WalkInResults(g, c, seed, run, v);
    var nodes := set x | x in all;
    d := DistanceWithin(Children(g), seed, t, v, nodes);
    SetOfSeq(all, nodes);
  }

  lemma {:induction false} SetOfSeq(w: seq<Trace>, nodes: set<Trace>)
    requires forall x :: x in nodes ==> x in w
    ensures |nodes| <= |w|
  {
    if w != [] {
      SetOfSeq(w[1..], nodes - {w[0]});
    } else {
      assert nodes == {};
    }
  }

  // End to end: with a hop budget of at least one less than the number of results, the
  // reachability query from the root returns exactly the traces ProcessInput returned, each
  // with its distance from the seed in the plugin graph.
  lemma QueryReturnsTheResults(pre: Tables, post: Tables, scan: Id, g: PluginGraph, seed: Trace, c: int, run: seq<Scan>,
                               root: Id, maxHops: int, out: seq<ReachableTrace>)
    requires FinishedScan(pre, post, scan, g, seed, c, run)
    requires root in post.traces && post.traces[root] == seed
    requires maxHops >= |Results(run)| - 1 && IsAnswer(post, scan, root, maxHops, out)
    ensures Answered(out) == set t | t in Results(run)
    ensures DistinctIds(out)
    ensures forall r :: r in out ==> Distance(Children(g), seed, Trace(r.value, r.kind), r.hops)
  {
    var all := Results(run);
    ResultsAreTheClosure(g, c, seed, run);
    ReachableIsShortestDistance(post, scan, root, maxHops, out);
    forall r | r in out
      ensures Distance(Children(g), seed, Trace(r.value, r.kind), r.hops) && Trace(r.value, r.kind) in all
    {
      DistancesAgree(pre, post, scan, g, seed, c, run, root, r.id, r.hops);
      var v :| Joins(Children(g), seed, Trace(r.value, r.kind), v);
      assert Reachable(Children(g), seed, Trace(r.value, r.kind));
    }
    forall t | t in all
      ensures t in Answered(out)
    {
      var d := ResultDistance(g, c, seed, run, t);
      assert t in Stored(post.traces);
      var id := IdOf(post.traces, t);
      DistancesAgree(pre, post, scan, g, seed, c, run, root, id, d);
      var r := JoinRow(id, d, t);
      assert r in out && Trace(r.value, r.kind) == t;
    }
  }

  // With one worker the returned list is non-decreasing in the hops the query reports.
  lemma ResultsFollowReportedHops(pre: Tables, post: Tables, scan: Id, g: PluginGraph, seed: Trace, run: seq<Scan>,
                                  root: Id, maxHops: int, out: seq<ReachableTrace>, i: nat, j: nat,
                                  ri: ReachableTrace, rj: ReachableTrace)
    requires FinishedScan(pre, post, scan, g, seed, 1, run)
    requires root in post.traces && post.traces[root] == seed
    requires maxHops >= |Results(run)| - 1 && IsAnswer(post, scan, root, maxHops, out)
    requires i <= j < |Results(run)| && ri in out && rj in out
    requires Trace(ri.value, ri.kind) == Results(run)[i] && Trace(rj.value, rj.kind) == Results(run)[j]
    ensures ri.hops <= rj.hops
  {
    QueryReturnsTheResults(pre, post, scan, g, seed, 1, run, root, maxHops, out);
    OneWorkerIsBreadthFirst(g, seed, run);
    if i == j {
      DistanceIsUnique(Children(g), seed, Results(run)[i], ri.hops, rj.hops);
    }
  }

  // Every result other than the seed has a chain of returned path rows from the root: a
  // simple walk each of whose links GetDiscoveryPath lists at its distance from the target.
  lemma ResultsHaveDiscoveryPaths(pre: Tables, post: Tables, scan: Id, g: PluginGraph, seed: Trace, c: int,
                                  run: seq<Scan>, root: Id, t: Trace)
    returns (w: seq<Id>)
    requires FinishedScan(pre, post, scan, g, seed, c, run)
    requires root in post.traces && post.traces[root] == seed
    requires t in Results(run) && t != seed
    ensures t in Stored(post.traces) && |w| >= 2 && Simple(w) && w[0] == root && w[|w| - 1] == IdOf(post.traces, t)
    ensures forall j :: 0 <= j < |w| - 1 ==>
              LinkListed(post.edges, scan, IdOf(post.traces, t), w[j], w[j + 1], |w| - 2 - j)
  {
    ResultsAreTheClosure(g, c, seed, run);
    var v :| Joins(Children(g), seed, t, v);
    var x := WalkToIds(pre, post, scan, g, seed, c, run, root, t, v);
    w := SimpleWalk(ScanLinks(post.edges, scan), x);
    WalkIsListed(post.edges, scan, w);
  }
}
