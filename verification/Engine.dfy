// Engine.ProcessInput and processBatch: the worklist loop over the store. Every execution
// is a finished run of ScanMachine and leaves exactly that run's traces and edges behind.
module ScanEngine {
  import opened Entities
  import opened TraceTables
  import opened Repositories
  import opened ScanMachine
  import opened ScanGraph
  import opened Text

  function Indices(n: nat): (s: set<int>)
    ensures forall i :: i in s <==> 0 <= i < n
  {
    if n == 0 then {} else Indices(n - 1) + {n - 1}
  }

  class Engine {
    const maxConcurrency: int
    // what the plugins registered for a trace find from it
    const plugins: PluginGraph
    // guessTraceType
    const guess: string -> TraceType
    const repo: Repository

    constructor (maxConcurrency: int, plugins: PluginGraph, guess: string -> TraceType, repo: Repository)
      ensures this.maxConcurrency == maxConcurrency && this.plugins == plugins
      ensures this.guess == guess && this.repo == repo
    {
      this.maxConcurrency, this.plugins, this.guess, this.repo := maxConcurrency, plugins, guess, repo;
    }

    // entities.NewTrace of the trimmed input
    function Seed(input: string): (seed: Trace)
      ensures StartsFrom(input, seed)
    {
      TrimmedPart(input);
      var value := TrimSpace(input);
      Trace(value, guess(value))
    }

    // The trace is the part of the input between the space at its ends, and typed by it.
    ghost predicate StartsFrom(input: string, seed: Trace) {
      exists i: nat, j: nat :: IsTrimmed(input, i, j) && seed == Trace(input[i..j], guess(input[i..j]))
    }

    // The goroutines of a batch finish in any order, and each appends its results when it
    // does; a failed one appends nothing.
    method ProcessBatch(batch: seq<Trace>) returns (allResults: seq<Discovery>)
      ensures Arrives(plugins, batch, allResults)
    {
      allResults := [];
      var running := Indices(|batch|);
      while running != {}
        invariant forall i :: i in running ==> 0 <= i < |batch|
        invariant forall d :: d in allResults <==>
          IsDiscovery(plugins, d) && exists i :: 0 <= i < |batch| && i !in running && batch[i] == d.parent
        decreases running
      {
        var i :| i in running;
        var ok, results := ProcessTrace(batch[i]);
        if ok {
          allResults := allResults + results;
        }
        running := running - {i};
      }
    }

    // The replies of a trace's plugins come in any order; an error may cut the list short.
    method ProcessTrace(t: Trace) returns (ok: bool, results: seq<Discovery>)
      ensures ok <==> plugins(t).Found?
      ensures ok ==> forall d :: d in results <==> d.parent == t && IsDiscovery(plugins, d)
    {
      results := [];
      if plugins(t).Failed? {
        return false, results;
      }
      var finds := Finds(plugins, t);
      var waiting := Indices(|finds|);
      while waiting != {}
        invariant forall i :: i in waiting ==> 0 <= i < |finds|
        invariant forall d :: d in results <==>
          d.parent == t && exists i :: 0 <= i < |finds| && i !in waiting && finds[i] == Find(d.pluginName, d.child)
        decreases waiting
      {
        var i :| i in waiting;
        results := results + [Discovery(t, finds[i].pluginName, finds[i].child)];
        waiting := waiting - {i};
      }
      ok := true;
    }

    // The loop appending to allTraces and stack; seen is the set of allTraces.
    method AdmitChildren(allTraces: seq<Trace>, ds: seq<Discovery>) returns (allTraces': seq<Trace>)
      ensures allTraces' == Admit(allTraces, ds)
    {
      allTraces' := allTraces;
      var i := 0;
      while i < |ds|
        invariant 0 <= i <= |ds|
        invariant allTraces' == Admit(allTraces, ds[..i])
      {
        assert ds[..i + 1][..i] == ds[..i];
        if ds[i].child !in allTraces' {
          allTraces' := allTraces' + [ds[i].child];
        }
        i := i + 1;
      }
      assert ds[..i] == ds;
    }

    // The root trace and the seed edge, before the first batch.
    method PersistSeed(seed: Trace, scan: Id) returns (ok: bool)
      requires repo.Valid()
      modifies repo, repo.driver
      ensures repo.Valid() && repo.scans == old(repo.scans)
      ensures ok <==> repo.driver.faults == old(repo.driver.faults) && scan in repo.scans
      ensures !ok ==> OnlyRootAdded(old(repo.Snapshot()), repo.Snapshot(), seed)
      ensures ok ==> ScanStored(old(repo.Snapshot()), repo.Snapshot(), scan, plugins, seed, Start(seed))
    {
      ghost var pre := repo.Snapshot();
      var rootId := repo.GetOrCreateTrace(seed);
      if rootId.Err? {
        return false;
      }
      ghost var mid := repo.Snapshot();
      ok := repo.InsertEdge(EdgeRow(NoParent, rootId.value, SEED_PLUGIN_NAME, scan));
      if ok {
        SeedStored(pre, mid, repo.Snapshot(), scan, plugins, seed, rootId.value);
      }
    }

    // One turn of the loop: process a batch, persist all it found, keep the new children.
    method OneBatch(s: Scan, scan: Id, ghost pre: Tables, ghost seed: Trace)
      returns (ok: bool, s': Scan)
      requires repo.Valid() && maxConcurrency >= 0 && s.done < |s.all| && scan in pre.scans
      requires ScanStored(pre, repo.Snapshot(), scan, plugins, seed, s)
      modifies repo, repo.driver
      ensures repo.Valid()
      ensures ok <==> repo.driver.faults == old(repo.driver.faults)
      ensures ok ==> Step(plugins, maxConcurrency, s, s')
      ensures ok ==> ScanStored(pre, repo.Snapshot(), scan, plugins, seed, s')
      ensures !ok ==> repo.Snapshot() == old(repo.Snapshot())
    {
      s' := s;
      var batchSize := Min(|s.all| - s.done, maxConcurrency);
      var batch := s.all[s.done..s.done + batchSize];
      assert batch == Batch(s, maxConcurrency);
      var discoveries := ProcessBatch(batch);
      ghost var before := repo.Snapshot();
      ok := repo.PersistDiscoveries(scan, discoveries);
      if ok {
        var allTraces := AdmitChildren(s.all, discoveries);
        s' := Scan(allTraces, s.done + batchSize);
        StepBy(plugins, maxConcurrency, s, s', discoveries);
        BatchStored(pre, before, repo.Snapshot(), scan, plugins, seed, maxConcurrency, s, discoveries, s');
      }
    }

    // universe is any finite set the plugins do not lead out of; without one the scan does
    // not end. An error leaves the store with the seed and the batches persisted before it.
    method ProcessInput(input: string, scan: Id, ghost universe: set<Trace>)
      returns (r: Result<seq<Trace>>, ghost run: seq<Scan>)
      requires repo.Valid()
      requires !IsBlank(input) ==> maxConcurrency >= 1 && IsUniverse(plugins, Seed(input), universe)
      modifies repo, repo.driver
      ensures repo.Valid()
      ensures r.Ok? <==>
        !IsBlank(input) && repo.driver.faults == old(repo.driver.faults) && scan in old(repo.scans)
      ensures r.Ok? ==> exists i: nat, j: nat ::
        IsTrimmed(input, i, j) && r.value != [] && r.value[0] == Trace(input[i..j], guess(input[i..j]))
      ensures r.Ok? ==> IsFinishedRun(plugins, maxConcurrency, Seed(input), run) && r.value == Results(run)
      ensures run != [] ==> IsRun(plugins, maxConcurrency, Seed(input), run)
      ensures run != [] ==>
        ScanStored(old(repo.Snapshot()), repo.Snapshot(), scan, plugins, Seed(input), run[|run| - 1])
      ensures run == [] && !IsBlank(input) ==>
        OnlyRootAdded(old(repo.Snapshot()), repo.Snapshot(), Seed(input))
      ensures r.Ok? && (forall row :: row in old(repo.edges) ==> row.scan != scan) ==>
        FinishedScan(old(repo.Snapshot()), repo.Snapshot(), scan, plugins, Seed(input), maxConcurrency, run)
      ensures IsBlank(input) ==> repo.Snapshot() == old(repo.Snapshot())
    {
      run := [];
      TrimmedPart(input);
      if TrimSpace(input) == "" {
        return Err("scan input must not be empty"), run;
      }
      var seed := Seed(input);
      ghost var pre := repo.Snapshot();
      var ok := PersistSeed(seed, scan);
      if !ok {
        return Err("failed to persist seed"), run;
      }
      var s := Start(seed);
      run := [s];
      while s.done < |s.all|
        invariant repo.Valid() && repo.driver.faults == old(repo.driver.faults) && scan in pre.scans
        invariant IsRun(plugins, maxConcurrency, seed, run) && run[|run| - 1] == s
        invariant ScanStored(pre, repo.Snapshot(), scan, plugins, seed, s)
        decreases |universe| - s.done
      {
        StaysInUniverse(plugins, maxConcurrency, seed, run, universe);
        ghost var before := s;
        ok, s := OneBatch(s, scan, pre, seed);
        if !ok {
          return Err("failed to persist discoveries"), run;
        }
        StepAdds(plugins, maxConcurrency, before, s);
        RunExtends(plugins, maxConcurrency, seed, run, s);
        run := run + [s];
      }
      r := Ok(s.all);
      RunSound(plugins, maxConcurrency, seed, run);
    }

    // The scan command: a new session, then the scan under its id. The id is fresh, so on
    // success the graph queries read back exactly this scan.
    method RunScan(input: string, ghost universe: set<Trace>)
      returns (r: Result<seq<Trace>>, scan: Id, ghost run: seq<Scan>)
      requires repo.Valid()
      requires !IsBlank(input) ==> maxConcurrency >= 1 && IsUniverse(plugins, Seed(input), universe)
      modifies repo, repo.driver
      ensures repo.Valid()
      ensures r.Ok? <==> !IsBlank(input) && repo.driver.faults == old(repo.driver.faults)
      ensures r.Ok? ==> exists i: nat, j: nat ::
        IsTrimmed(input, i, j) && r.value != [] && r.value[0] == Trace(input[i..j], guess(input[i..j]))
      ensures r.Ok? ==> run != [] && r.value == Results(run)
      ensures r.Ok? ==> exists pre ::
        && pre == old(repo.Snapshot()).(scans := old(repo.scans) + {scan}) && scan !in old(repo.scans)
        && FinishedScan(pre, repo.Snapshot(), scan, plugins, Seed(input), maxConcurrency, run)
    {
      var session := repo.CreateScanSession();
      if session.Err? {
        return Err(session.message), 0, [];
      }
      scan := session.value;
      ghost var pre := repo.Snapshot();
      r, run := ProcessInput(input, scan, universe);
      assert r.Ok? ==> FinishedScan(pre, repo.Snapshot(), scan, plugins, Seed(input), maxConcurrency, run);
    }
  }
}
