// DeduplicationCache: the memory cache in front of the persistent marker table.
module Deduplication {
  import opened Entities
  import opened CacheTable
  import opened LruOrder
  import opened LruCaches

  class DeduplicationCache {
    const enableCache: bool
    const persistentCache: bool
    const cacheTTL: Time
    const memoryCache: LruCache<string>
    const dbCache: CacheStore?
    var memoryHits: nat
    var cacheHits: nat
    var cacheMisses: nat

    constructor (enableCache: bool, persistentCache: bool, cacheTTL: Time, maxMemorySize: int, dbCache: CacheStore?)
      ensures this.enableCache == enableCache && this.persistentCache == persistentCache
      ensures this.cacheTTL == cacheTTL && this.dbCache == dbCache
      ensures fresh(memoryCache) && memoryCache.Valid()
      ensures memoryCache.keys == [] && memoryCache.cache == map[] && memoryCache.maxSize == maxMemorySize
    {
      this.enableCache, this.persistentCache, this.cacheTTL := enableCache, persistentCache, cacheTTL;
      this.memoryCache := new LruCache<string>(maxMemorySize);
      this.dbCache := dbCache;
      memoryHits, cacheHits, cacheMisses := 0, 0, 0;
    }

    // checkPersistentCache: any row that has not expired counts, since the marker is never nil.
    method CheckPersistent(taskId: string, now: Time) returns (r: Result<bool>)
      requires dbCache != null
      modifies dbCache.driver
      ensures r.Ok? <==> dbCache.driver.faults == old(dbCache.driver.faults)
      ensures r.Ok? ==> r.value == Lookup(dbCache.table, taskId, now).Some?
    {
      var results := dbCache.Get(taskId, now);
      r := if results.Err? then Err(results.message) else Ok(results.value.Some?);
    }

    // The memory's answer; a hit makes the id the most recent one.
    method CheckMemory(taskId: string) returns (seen: bool)
      requires memoryCache.Valid()
      modifies this`memoryHits, memoryCache
      ensures memoryCache.Valid() && memoryCache.cache == old(memoryCache.cache)
      ensures forall e :: e in memoryCache.list <==> e in old(memoryCache.list)
      ensures seen <==> enableCache && taskId in old(memoryCache.keys)
      ensures memoryCache.keys == if seen then GetKey(old(memoryCache.keys), taskId) else old(memoryCache.keys)
      ensures memoryHits == old(memoryHits) + (if seen then 1 else 0)
    {
      seen := false;
      if enableCache {
        memoryCache.ListedAreCached();
        var value := memoryCache.Get(taskId);
        memoryCache.ListedAreCached();
        seen := value.Some?;
        if seen {
          memoryHits := memoryHits + 1;
        }
      }
    }

    method Remember(taskId: string)
      requires memoryCache.Valid()
      modifies memoryCache, memoryCache.list
      ensures memoryCache.Valid()
      ensures forall j :: 0 <= j < |memoryCache.list| ==>
        memoryCache.list[j] in old(memoryCache.list) || fresh(memoryCache.list[j])
      ensures memoryCache.keys == PutKey(old(memoryCache.keys), taskId, memoryCache.maxSize)
    {
      memoryCache.ListedAreCached();
      memoryCache.Put(taskId, taskId);
      memoryCache.ListedAreCached();
    }

    // The table's answer, counted; no row and a failed look-up are both no duplicate.
    method CheckTable(taskId: string, now: Time) returns (found: bool, ghost dbFailed: bool)
      modifies this`cacheHits, this`cacheMisses, if dbCache == null then {} else {dbCache.driver}
      ensures dbFailed <==> dbCache != null && dbCache.driver.faults != old(dbCache.driver.faults)
      ensures found <==> persistentCache && dbCache != null && !dbFailed && Lookup(dbCache.table, taskId, now).Some?
      ensures cacheHits == old(cacheHits) + (if found then 1 else 0)
      ensures cacheMisses == old(cacheMisses) +
        (if persistentCache && dbCache != null && !dbFailed && !found then 1 else 0)
    {
      found, dbFailed := false, false;
      if persistentCache && dbCache != null {
        var duplicate := CheckPersistent(taskId, now);
        if duplicate.Err? {
          dbFailed := true;
        } else if duplicate.value {
          cacheHits, found := cacheHits + 1, true;
        } else {
          cacheMisses := cacheMisses + 1;
        }
      }
    }

    // What follows a miss in memory.
    method LookFurther(taskId: string, now: Time) returns (duplicate: bool, ghost dbFailed: bool)
      requires memoryCache.Valid()
      modifies this`cacheHits, this`cacheMisses, memoryCache, memoryCache.list
      modifies if dbCache == null then {} else {dbCache.driver}
      ensures memoryCache.Valid()
      ensures forall j :: 0 <= j < |memoryCache.list| ==>
        memoryCache.list[j] in old(memoryCache.list) || fresh(memoryCache.list[j])
      ensures dbFailed <==> dbCache != null && dbCache.driver.faults != old(dbCache.driver.faults)
      ensures duplicate <==> persistentCache && dbCache != null && !dbFailed && Lookup(dbCache.table, taskId, now).Some?
      ensures memoryCache.keys ==
        if duplicate || enableCache then PutKey(old(memoryCache.keys), taskId, memoryCache.maxSize)
        else old(memoryCache.keys)
      ensures cacheHits == old(cacheHits) + (if duplicate then 1 else 0)
      ensures cacheMisses == old(cacheMisses) +
        (if persistentCache && dbCache != null && !dbFailed && !duplicate then 1 else 0)
    {
      duplicate, dbFailed := CheckTable(taskId, now);
      if duplicate || enableCache {
        Remember(taskId);
      }
    }

    // IsDuplicate: memory first, then the table; a miss in both is remembered in memory only.
    method IsDuplicate(taskId: string, now: Time) returns (duplicate: bool, ghost dbFailed: bool)
      requires memoryCache.Valid()
      modifies this, memoryCache, memoryCache.list, if dbCache == null then {} else {dbCache.driver}
      ensures memoryCache.Valid()
      ensures forall j :: 0 <= j < |memoryCache.list| ==>
        memoryCache.list[j] in old(memoryCache.list) || fresh(memoryCache.list[j])
      ensures dbFailed <==> dbCache != null && dbCache.driver.faults != old(dbCache.driver.faults)
      ensures duplicate <==>
        || (enableCache && taskId in old(memoryCache.keys))
        || (persistentCache && dbCache != null && !dbFailed && Lookup(dbCache.table, taskId, now).Some?)
      ensures memoryCache.keys ==
        if enableCache then Access(old(memoryCache.keys), taskId, memoryCache.maxSize)
        else if duplicate then PutKey(old(memoryCache.keys), taskId, memoryCache.maxSize)
        else old(memoryCache.keys)
      ensures memoryHits == old(memoryHits) + (if enableCache && taskId in old(memoryCache.keys) then 1 else 0)
      ensures memoryHits + cacheHits == old(memoryHits + cacheHits) + (if duplicate then 1 else 0)
      ensures cacheMisses == old(cacheMisses) +
        (if persistentCache && dbCache != null && !dbFailed && !duplicate then 1 else 0)
    {
      dbFailed := false;
      duplicate := CheckMemory(taskId);
      if !duplicate {
        duplicate, dbFailed := LookFurther(taskId, now);
      }
    }

    // storeInPersistentCache: the marker is an empty, non-nil result.
    method StoreMarker(taskId: string, now: Time) returns (ok: bool)
      requires dbCache != null
      modifies dbCache, dbCache.driver
      ensures ok <==> dbCache.driver.faults == old(dbCache.driver.faults)
      ensures dbCache.table == if ok then Stored(old(dbCache.table), taskId, [], cacheTTL, now) else old(dbCache.table)
    {
      ok := dbCache.Set(taskId, [], cacheTTL, now);
    }
  }

  // What a memory of this size answers to the ids in turn.
  function Answers(ids: seq<string>, maxMemorySize: int): (answers: seq<bool>)
    ensures |answers| == |ids|
  {
    if ids == [] then []
    else
      var n := |ids| - 1;
      Answers(ids[..n], maxMemorySize) + [ids[n] in Memory(ids[..n], maxMemorySize)]
  }

  lemma {:induction false} AnswerAt(ids: seq<string>, maxMemorySize: int, i: nat)
    requires i < |ids|
    ensures Answers(ids, maxMemorySize)[i] <==> ids[i] in Memory(ids[..i], maxMemorySize)
  {
    if i < |ids| - 1 {
      AnswerAt(ids[..|ids| - 1], maxMemorySize, i);
      assert ids[..|ids| - 1][..i] == ids[..i];
    }
  }

  lemma NextAnswer(ids: seq<string>, maxMemorySize: int, i: nat)
    requires i < |ids|
    ensures Answers(ids[..i + 1], maxMemorySize) ==
            Answers(ids[..i], maxMemorySize) + [ids[i] in Memory(ids[..i], maxMemorySize)]
    ensures Memory(ids[..i + 1], maxMemorySize) == Access(Memory(ids[..i], maxMemorySize), ids[i], maxMemorySize)
  {
    assert ids[..i + 1][..i] == ids[..i];
  }

  // A new memory-only cache answering a whole history: an id is a duplicate exactly when it
  // was checked before and fewer other ids than the cache has room for were checked since.
  method CheckAll(maxMemorySize: int, ids: seq<string>, now: Time) returns (duplicates: seq<bool>)
    ensures |duplicates| == |ids|
    ensures forall i :: 0 <= i < |ids| ==>
      (duplicates[i] <==> ids[i] in ids[..i] && |SeenSince(ids[..i], ids[i])| < Capacity(maxMemorySize))
  {
    var cache := new DeduplicationCache(true, false, 0, maxMemorySize, null);
    duplicates := [];
    var i := 0;
    while i < |ids|
      invariant 0 <= i <= |ids|
      invariant fresh(cache) && fresh(cache.memoryCache) && cache.memoryCache.Valid()
      invariant cache.enableCache && !cache.persistentCache && cache.dbCache == null
      invariant cache.memoryCache.maxSize == maxMemorySize
      invariant forall j :: 0 <= j < |cache.memoryCache.list| ==> fresh(cache.memoryCache.list[j])
      invariant cache.memoryCache.keys == Memory(ids[..i], maxMemorySize)
      invariant duplicates == Answers(ids[..i], maxMemorySize)
    {
      var duplicate, _ := cache.IsDuplicate(ids[i], now);
      NextAnswer(ids, maxMemorySize, i);
      duplicates := duplicates + [duplicate];
      i := i + 1;
    }
    assert ids[..i] == ids;
    forall j | 0 <= j < |ids|
      ensures duplicates[j] <==> ids[j] in ids[..j] && |SeenSince(ids[..j], ids[j])| < Capacity(maxMemorySize)
    {
      AnswerAt(ids, maxMemorySize, j);
      HitIffFewSeenSince(ids[..j], ids[j], maxMemorySize);
    }
  }
}
