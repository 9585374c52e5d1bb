// The cache_entries table and its expiry rules, over any history of stores and cleanups.
module CacheTable {
  import opened Drivers
  import opened Entities

  // A time or a duration in nanoseconds.
  type Time = int

  datatype Entry = Entry(value: seq<Trace>, expiresAt: Option<Time>)

  type Table = map<string, Entry>

  // Cache.Set: a positive time to live becomes an expiry time, any other means none.
  function Stored(t: Table, key: string, value: seq<Trace>, ttl: Time, now: Time): Table {
    t[key := Entry(value, if ttl > 0 then Some(now + ttl) else None)]
  }

  predicate IsExpired(e: Entry, now: Time) {
    e.expiresAt.Some? && now > e.expiresAt.value
  }

  // GetCacheEntry: an expired row reads as a miss.
  function Lookup(t: Table, key: string, now: Time): Option<seq<Trace>> {
    if key in t && !IsExpired(t[key], now) then Some(t[key].value) else None
  }

  // CleanExpiredCache
  function Cleaned(t: Table, now: Time): Table {
    map k | k in t && !(t[k].expiresAt.Some? && t[k].expiresAt.value < now) :: t[k]
  }

  // Cleaning deletes only what every later lookup would miss anyway.
  lemma CleanupIsInvisible(t: Table, key: string, cleaned: Time, now: Time)
    requires cleaned <= now
    ensures Lookup(Cleaned(t, cleaned), key, now) == Lookup(t, key, now)
  {
  }

  // Cleaning keeps exactly the rows that a lookup would still find, as they are.
  lemma CleanupKeepsTheLiving(t: Table, now: Time)
    ensures forall k :: k in Cleaned(t, now) <==> Lookup(t, k, now).Some?
    ensures forall k :: k in Cleaned(t, now) ==> Cleaned(t, now)[k] == t[k]
  {
  }

  class CacheStore {
    const driver: Driver
    var table: Table

    constructor (driver: Driver)
      ensures table == map[] && this.driver == driver
    {
      this.driver, table := driver, map[];
    }

    method Set(key: string, value: seq<Trace>, ttl: Time, now: Time) returns (ok: bool)
      modifies this, driver
      ensures ok <==> driver.faults == old(driver.faults)
      ensures table == if ok then Stored(old(table), key, value, ttl, now) else old(table)
    {
      var failed := driver.Statement();
      ok := !failed;
      if ok {
        var expiresAt := None;
        if ttl > 0 {
          expiresAt := Some(now + ttl);
        }
        table := table[key := Entry(value, expiresAt)];
      }
    }

    method Get(key: string, now: Time) returns (r: Result<Option<seq<Trace>>>)
      modifies driver
      ensures r.Ok? <==> driver.faults == old(driver.faults)
      ensures r.Ok? ==> r.value == Lookup(table, key, now)
    {
      var failed := driver.Statement();
      if failed {
        return Err("failed to get cache entry");
      }
      if key !in table {
        return Ok(None);
      }
      var entry := table[key];
      if entry.expiresAt.Some? && now > entry.expiresAt.value {
        return Ok(None);
      }
      r := Ok(Some(entry.value));
    }

    method CleanExpired(now: Time) returns (ok: bool)
      modifies this, driver
      ensures ok <==> driver.faults == old(driver.faults)
      ensures table == if ok then Cleaned(old(table), now) else old(table)
      ensures ok ==> forall k :: k in table <==> Lookup(old(table), k, now).Some?
    {
      var failed := driver.Statement();
      ok := !failed;
      if ok {
        table := map k | k in table && !(table[k].expiresAt.Some? && table[k].expiresAt.value < now) :: table[k];
      }
    }
  }

  // ---- Whole histories ----

  datatype CacheEvent = Store(key: string, value: seq<Trace>, ttl: Time, at: Time) | Clean(at: Time)

  function TableAfter(evs: seq<CacheEvent>): Table {
    if evs == [] then map[]
    else
      var front := TableAfter(evs[..|evs| - 1]);
      match evs[|evs| - 1]
      case Store(key, value, ttl, at) => Stored(front, key, value, ttl, at)
      case Clean(at) => Cleaned(front, at)
  }

  predicate InOrder(evs: seq<CacheEvent>) {
    forall i, j :: 0 <= i < j < |evs| ==> evs[i].at <= evs[j].at
  }

  // What the last store of the key wrote, if it is still alive.
  function LastWrite(evs: seq<CacheEvent>, key: string, now: Time): Option<seq<Trace>> {
    if evs == [] then None
    else
      var last := evs[|evs| - 1];
      if last.Store? && last.key == key then
        if last.ttl <= 0 || now <= last.at + last.ttl then Some(last.value) else None
      else LastWrite(evs[..|evs| - 1], key, now)
  }

  // A lookup sees the last store of its key until that store's time to live is over, whatever
  // cleanups ran in between.
  lemma {:induction false} LookupSeesLastWrite(evs: seq<CacheEvent>, key: string, now: Time)
    requires InOrder(evs) && forall ev :: ev in evs ==> ev.at <= now
    ensures Lookup(TableAfter(evs), key, now) == LastWrite(evs, key, now)
    decreases |evs|
  {
    if evs != [] {
      var front, last := evs[..|evs| - 1], evs[|evs| - 1];
      LookupSeesLastWrite(front, key, now);
      if last.Clean? {
        CleanupIsInvisible(TableAfter(front), key, last.at, now);
      }
    }
  }

  // Right after a cleanup the table holds exactly the keys whose last store is still alive.
  lemma CleanedTableIsAlive(evs: seq<CacheEvent>, now: Time)
    requires InOrder(evs) && forall ev :: ev in evs ==> ev.at <= now
    ensures var t := TableAfter(evs + [Clean(now)]);
            forall k :: (k in t <==> LastWrite(evs, k, now).Some?)
                        && (k in t ==> t[k].value == LastWrite(evs, k, now).value)
  {
    assert (evs + [Clean(now)])[..|evs|] == evs;
    CleanupKeepsTheLiving(TableAfter(evs), now);
    forall k
      ensures Lookup(TableAfter(evs), k, now) == LastWrite(evs, k, now)
    {
      LookupSeesLastWrite(evs, k, now);
    }
  }

  lemma {:induction false} LastWriteWasStored(evs: seq<CacheEvent>, key: string, now: Time) returns (i: nat)
    requires LastWrite(evs, key, now).Some?
    ensures i < |evs| && evs[i].Store? && evs[i].key == key
    ensures evs[i].ttl <= 0 || now <= evs[i].at + evs[i].ttl
  {
    var n := |evs| - 1;
    if evs[n].Store? && evs[n].key == key {
      i := n;
    } else {
      i := LastWriteWasStored(evs[..n], key, now);
    }
  }
}
