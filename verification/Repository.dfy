// The write side of the graph store: rows are inserted in place, a batch inside one
// transaction, and any statement may fail in the database driver.
module Repositories {
  import opened Drivers
  import opened Entities
  import opened TraceTables

  class Repository {
    const driver: Driver
    var traces: map<Id, Trace>
    var lastId: Id
    var edges: seq<EdgeRow>
    var scans: set<Id>
    var lastScan: Id

    function Snapshot(): Tables
      reads this
    {
      Tables(traces, lastId, edges, scans)
    }

    ghost predicate Valid()
      reads this
    {
      ValidTables(Snapshot()) && forall scan :: scan in scans ==> scan <= lastScan
    }

    constructor (driver: Driver)
      ensures Valid() && Snapshot() == Tables(map[], 0, [], {}) && this.driver == driver
    {
      this.driver := driver;
      traces, lastId, edges, scans, lastScan := map[], 0, [], {}, 0;
    }

    // INSERT OR IGNORE INTO traces, then the id of the inserted or the existing row.
    // The table is untouched when the insert itself fails; a failure after it keeps the row.
    method GetOrCreateTrace(t: Trace) returns (r: Result<Id>)
      requires Valid()
      modifies this`traces, this`lastId, driver
      ensures Valid()
      ensures r.Ok? <==> driver.faults == old(driver.faults)
      ensures r.Ok? ==> Resolved(old(traces), old(lastId), t, traces, lastId, r.value)
      ensures r.Err? ==> (traces == old(traces) && lastId == old(lastId))
                         || exists id :: Resolved(old(traces), old(lastId), t, traces, lastId, id)
    {
      var failed := driver.Statement();
      if failed {
        return Err("failed to insert trace");
      }
      if exists i :: i in traces && traces[i] == t {
        var id :| id in traces && traces[id] == t;
        r := Ok(id);
      } else {
        var id: Id :| id > lastId;
        ResolvedGrows(traces, lastId, t, traces[id := t], id, id);
        traces, lastId := traces[id := t], id;
        r := Ok(id);
      }
      assert Resolved(old(traces), old(lastId), t, traces, lastId, r.value);
      failed := driver.Statement();
      if failed {
        return Err("failed to get trace id");
      }
    }

    // InsertEdge: the row is added unless it repeats a row with a parent; foreign keys are
    // enforced, so an unknown trace or scan is an error.
    method InsertEdge(row: EdgeRow) returns (ok: bool)
      requires Valid()
      modifies this`edges, driver
      ensures Valid()
      ensures ok <==> driver.faults == old(driver.faults) && ForeignKeysHold(row, traces, scans)
      ensures edges == if ok then AddEdge(old(edges), row) else old(edges)
    {
      var failed := driver.Statement();
      if failed || !ForeignKeysHold(row, traces, scans) {
        return false;
      }
      if row.parent.NoParent? || row !in edges {
        edges := edges + [row];
      }
      ok := true;
    }

    // The batch's own look-up: the id cache answers first and is filled on the way; otherwise
    // it runs the same statements as GetOrCreateTrace, inside the transaction.
    method ResolveCached(t: Trace, idCache: map<string, Id>) returns (r: Result<Id>, idCache': map<string, Id>)
      requires Valid() && CacheAgrees(idCache, traces)
      modifies this`traces, this`lastId, driver
      ensures Valid()
      ensures r.Ok? <==> driver.faults == old(driver.faults)
      ensures r.Ok? ==> Resolved(old(traces), old(lastId), t, traces, lastId, r.value)
      ensures r.Ok? ==> CacheAgrees(idCache', traces)
    {
      var key := TraceKey(t);
      idCache' := idCache;
      if key in idCache {
        return Ok(idCache[key]), idCache';
      }
      r := GetOrCreateTrace(t);
      if r.Ok? {
        idCache' := idCache[key := r.value];
        forall u: Trace | TraceKey(u) in idCache'
          ensures idCache'[TraceKey(u)] in traces && traces[idCache'[TraceKey(u)]] == u
        {
          if TraceKey(u) == key {
            TraceKeyInjective(u, t);
          }
        }
      }
    }

    // One turn of the batch loop: both traces are resolved and the edge is inserted.
    method PersistOne(scan: Id, d: Discovery, idCache: map<string, Id>)
      returns (ok: bool, idCache': map<string, Id>)
      requires Valid() && CacheAgrees(idCache, traces)
      modifies this`traces, this`lastId, this`edges, driver
      ensures Valid()
      ensures ok ==> StoredOne(old(Snapshot()), scan, d, Snapshot()) && CacheAgrees(idCache', traces)
      ensures ok <==> driver.faults == old(driver.faults) && scan in scans
    {
      ghost var pre := Snapshot();
      var parent, child: Result<Id>;
      parent, idCache' := ResolveCached(d.parent, idCache);
      if parent.Err? {
        return false, idCache';
      }
      ghost var m, mId := traces, lastId;
      child, idCache' := ResolveCached(d.child, idCache');
      if child.Err? {
        return false, idCache';
      }
      ok := InsertEdge(EdgeRow(Parent(parent.value), child.value, d.pluginName, scan));
      if ok {
        assert StoredBy(pre, scan, d, m, mId, parent.value, child.value, Snapshot());
      }
    }

    // The statements between BEGIN and COMMIT; an error leaves the tables half-written.
    method PersistBatch(scan: Id, ds: seq<Discovery>) returns (ok: bool)
      requires Valid()
      modifies this`traces, this`lastId, this`edges, driver
      ensures ok ==> Persisted(old(Snapshot()), scan, ds, Snapshot())
      ensures ok <==> driver.faults == old(driver.faults) && (ds == [] || scan in scans)
    {
      ok := true;
      ghost var pre := Snapshot();
      PersistedNothing(pre, scan);
      var idCache: map<string, Id> := map[];
      var i := 0;
      while i < |ds|
        invariant 0 <= i <= |ds|
        invariant ok && driver.faults == old(driver.faults) && (i == 0 || scan in scans)
        invariant Valid() && CacheAgrees(idCache, traces)
        invariant Persisted(pre, scan, ds[..i], Snapshot())
      {
        ghost var mid := Snapshot();
        ok, idCache := PersistOne(scan, ds[i], idCache);
        if !ok {
          return;
        }
        StoredOneAppends(pre, scan, ds, i, mid, Snapshot());
        i := i + 1;
      }
      assert ds[..i] == ds;
    }

    // PersistDiscoveries: all traces and edges of a batch in one transaction.
    method PersistDiscoveries(scan: Id, ds: seq<Discovery>) returns (ok: bool)
      requires Valid()
      modifies this, driver
      ensures Valid()
      ensures ok ==> Persisted(old(Snapshot()), scan, ds, Snapshot())
      ensures !ok ==> Snapshot() == old(Snapshot())
      ensures ok <==> driver.faults == old(driver.faults) && (ds == [] || scan in old(scans))
    {
      if ds == [] {
        PersistedNothing(Snapshot(), scan);
        return true;
      }
      var failed := driver.Statement();
      if failed {
        return false;
      }
      // BEGIN remembers what a rollback restores
      var saved := Snapshot();
      ok := PersistBatch(scan, ds);
      if ok {
        // COMMIT
        failed := driver.Statement();
        ok := !failed;
      }
      if ok {
        PersistedValid(saved, scan, ds, Snapshot());
      } else {
        // ROLLBACK
        traces, lastId, edges := saved.traces, saved.lastId, saved.edges;
      }
    }

    // A new scan session under an id never handed out before, so no edge carries it yet.
    method CreateScanSession() returns (r: Result<Id>)
      requires Valid()
      modifies this`scans, this`lastScan, driver
      ensures Valid()
      ensures r.Ok? <==> driver.faults == old(driver.faults)
      ensures r.Ok? ==> r.value !in old(scans) && scans == old(scans) + {r.value}
      ensures r.Ok? ==> forall row :: row in edges ==> row.scan != r.value
    {
      var failed := driver.Statement();
      if failed {
        return Err("failed to create scan session");
      }
      var id: Id :| id > lastScan;
      scans, lastScan := scans + {id}, id;
      failed := driver.Statement();
      r := if failed then Err("failed to get session ID") else Ok(id);
    }
  }

  // Every cached id is the id of the trace whose key it is filed under.
  ghost predicate CacheAgrees(idCache: map<string, Id>, traces: map<Id, Trace>) {
    forall t: Trace :: TraceKey(t) in idCache ==>
      idCache[TraceKey(t)] in traces && traces[idCache[TraceKey(t)]] == t
  }
}
