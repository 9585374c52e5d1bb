// The persistent side of the duplicate check over a whole run: which tasks leave a marker, and
// what the marker table answers.
module PersistentMarkers {
  import opened CacheTable

  // Finished: a worker recorded the task's result. Flushed: the goroutine MarkProcessed
  // started for an error-free result wrote the marker, at some later time.
  datatype RunEvent = Finished(id: string, failed: bool) | Flushed(id: string, at: Time) | Expired(at: Time)

  // pending: markers whose goroutine has not written yet.
  datatype RunState = RunState(writes: seq<CacheEvent>, pending: multiset<string>)

  predicate CanHappen(s: RunState, ev: RunEvent) {
    ev.Flushed? ==> ev.id in s.pending
  }

  function Advance(s: RunState, ev: RunEvent, ttl: Time): RunState
    requires CanHappen(s, ev)
  {
    match ev
    case Finished(id, failed) => if failed then s else s.(pending := s.pending + multiset{id})
    case Flushed(id, at) => s.(writes := s.writes + [Store(id, [], ttl, at)], pending := s.pending - multiset{id})
    case Expired(at) => s.(writes := s.writes + [Clean(at)])
  }

  ghost predicate IsRun(states: seq<RunState>, evs: seq<RunEvent>, ttl: Time) {
    && |states| == |evs| + 1
    && states[0] == RunState([], multiset{})
    && forall i :: 0 <= i < |evs| ==> CanHappen(states[i], evs[i]) && states[i + 1] == Advance(states[i], evs[i], ttl)
  }

  // The task finished without an error among the first n events.
  ghost predicate Completed(evs: seq<RunEvent>, n: nat, id: string) {
    exists i :: 0 <= i < n && i < |evs| && evs[i] == Finished(id, false)
  }

  ghost predicate OnlyCompleted(s: RunState, evs: seq<RunEvent>, n: nat, ttl: Time) {
    && (forall id :: id in s.pending ==> Completed(evs, n, id))
    && (forall i :: 0 <= i < |s.writes| && s.writes[i].Store? ==>
          Completed(evs, n, s.writes[i].key) && s.writes[i].ttl == ttl)
  }

  lemma CompletedLater(evs: seq<RunEvent>, n: nat, id: string)
    requires Completed(evs, n, id)
    ensures Completed(evs, n + 1, id)
  {
  }

  lemma StepOnlyCompleted(s: RunState, evs: seq<RunEvent>, ttl: Time, n: nat)
    requires n < |evs| && CanHappen(s, evs[n]) && OnlyCompleted(s, evs, n, ttl)
    ensures OnlyCompleted(Advance(s, evs[n], ttl), evs, n + 1, ttl)
  {
    var ev, s' := evs[n], Advance(s, evs[n], ttl);
    forall id | id in s'.pending
      ensures Completed(evs, n + 1, id)
    {
      if id in s.pending {
        CompletedLater(evs, n, id);
      } else {
        assert evs[n] == Finished(id, false);
      }
    }
    forall i | 0 <= i < |s'.writes| && s'.writes[i].Store?
      ensures Completed(evs, n + 1, s'.writes[i].key) && s'.writes[i].ttl == ttl
    {
      CompletedLater(evs, n, s'.writes[i].key);
    }
  }

  lemma {:induction false} MarkersAreOfCompleted(states: seq<RunState>, evs: seq<RunEvent>, ttl: Time, n: nat)
    requires IsRun(states, evs, ttl) && n <= |evs|
    ensures OnlyCompleted(states[n], evs, n, ttl)
  {
    if n > 0 {
      MarkersAreOfCompleted(states, evs, ttl, n - 1);
      assert CanHappen(states[n - 1], evs[n - 1]) && states[n - 1 + 1] == Advance(states[n - 1], evs[n - 1], ttl);
      StepOnlyCompleted(states[n - 1], evs, ttl, n - 1);
    }
  }

  // A persistent hit means that the same task completed without an error earlier, and that its
  // marker was written within the last cacheTTL, if that is positive.
  lemma PersistentHitMeansCompleted(states: seq<RunState>, evs: seq<RunEvent>, ttl: Time, id: string, now: Time)
    requires IsRun(states, evs, ttl)
    requires InOrder(states[|evs|].writes) && forall w :: w in states[|evs|].writes ==> w.at <= now
    requires Lookup(TableAfter(states[|evs|].writes), id, now).Some?
    ensures Completed(evs, |evs|, id)
    ensures exists w :: w in states[|evs|].writes && w.Store? && w.key == id && (ttl <= 0 || now <= w.at + ttl)
  {
    var writes := states[|evs|].writes;
    MarkersAreOfCompleted(states, evs, ttl, |evs|);
    LookupSeesLastWrite(writes, id, now);
    var i := LastWriteWasStored(writes, id, now);
    assert writes[i] in writes;
  }

  // ---- What was flushed is what is found ----

  ghost predicate WasFlushed(evs: seq<RunEvent>, n: nat, id: string, at: Time) {
    exists i :: 0 <= i < n && i < |evs| && evs[i] == Flushed(id, at)
  }

  // The task's marker was written among the first n events and is not yet over.
  ghost predicate IsMarked(evs: seq<RunEvent>, n: nat, id: string, ttl: Time, now: Time) {
    exists at :: WasFlushed(evs, n, id, at) && (ttl <= 0 || now <= at + ttl)
  }

  function FinishedOk(evs: seq<RunEvent>, id: string): nat {
    if evs == [] then 0
    else FinishedOk(evs[..|evs| - 1], id) + (if evs[|evs| - 1] == Finished(id, false) then 1 else 0)
  }

  function FlushedCount(evs: seq<RunEvent>, id: string): nat {
    if evs == [] then 0
    else
      var last := evs[|evs| - 1];
      FlushedCount(evs[..|evs| - 1], id) + (if last.Flushed? && last.id == id then 1 else 0)
  }

  lemma OwedStep(s: RunState, ev: RunEvent, ttl: Time, id: string)
    requires CanHappen(s, ev)
    ensures Advance(s, ev, ttl).pending[id] + (if ev.Flushed? && ev.id == id then 1 else 0) ==
            s.pending[id] + (if ev == Finished(id, false) then 1 else 0)
  {
  }

  // Every error-free completion owes one marker, which is pending until it is written.
  lemma {:induction false} MarkersAreOwed(states: seq<RunState>, evs: seq<RunEvent>, ttl: Time, n: nat, id: string)
    requires IsRun(states, evs, ttl) && n <= |evs|
    ensures states[n].pending[id] + FlushedCount(evs[..n], id) == FinishedOk(evs[..n], id)
  {
    if n > 0 {
      MarkersAreOwed(states, evs, ttl, n - 1, id);
      assert evs[..n][..n - 1] == evs[..n - 1] && evs[..n][n - 1] == evs[n - 1];
      assert CanHappen(states[n - 1], evs[n - 1]) && states[n - 1 + 1] == Advance(states[n - 1], evs[n - 1], ttl);
      OwedStep(states[n - 1], evs[n - 1], ttl, id);
    }
  }

  lemma {:induction false} FlushedIsWritten(states: seq<RunState>, evs: seq<RunEvent>, ttl: Time, n: nat, id: string,
      at: Time)
    requires IsRun(states, evs, ttl) && n <= |evs|
    ensures Store(id, [], ttl, at) in states[n].writes <==> WasFlushed(evs, n, id, at)
  {
    if n > 0 {
      FlushedIsWritten(states, evs, ttl, n - 1, id, at);
      var s, ev := states[n - 1], evs[n - 1];
      assert CanHappen(s, ev) && states[n - 1 + 1] == Advance(s, ev, ttl);
      if WasFlushed(evs, n - 1, id, at) {
        assert Store(id, [], ttl, at) in states[n].writes;
      } else if ev == Flushed(id, at) {
        assert states[n].writes[|s.writes|] == Store(id, [], ttl, at);
      }
    }
  }

  // A store of the key that is not yet over leaves its last store alive: that came no earlier.
  lemma {:induction false} LiveStoreIsSeen(evs: seq<CacheEvent>, key: string, ttl: Time, at: Time, now: Time)
    requires InOrder(evs) && Store(key, [], ttl, at) in evs && (ttl <= 0 || now <= at + ttl)
    requires forall w :: w in evs && w.Store? ==> w.ttl == ttl
    ensures LastWrite(evs, key, now).Some?
    decreases |evs|
  {
    var n := |evs| - 1;
    var i :| 0 <= i <= n && evs[i] == Store(key, [], ttl, at);
    if evs[n].Store? && evs[n].key == key {
      assert evs[i].at <= evs[n].at && evs[n] in evs;
    } else {
      assert evs[..n][i] == evs[i];
      LiveStoreIsSeen(evs[..n], key, ttl, at, now);
    }
  }

  // The table answers with a duplicate exactly when the task's marker was written within the
  // last cacheTTL, or ever if that is not positive.
  lemma PersistentHitIffFlushed(states: seq<RunState>, evs: seq<RunEvent>, ttl: Time, id: string, now: Time)
    requires IsRun(states, evs, ttl)
    requires InOrder(states[|evs|].writes) && forall w :: w in states[|evs|].writes ==> w.at <= now
    ensures Lookup(TableAfter(states[|evs|].writes), id, now).Some? <==> IsMarked(evs, |evs|, id, ttl, now)
  {
    var writes := states[|evs|].writes;
    MarkersAreOfCompleted(states, evs, ttl, |evs|);
    LookupSeesLastWrite(writes, id, now);
    if LastWrite(writes, id, now).Some? {
      var i := LastWriteWasStored(writes, id, now);
      MarkersAreEmpty(states, evs, ttl, |evs|);
      assert writes[i] == Store(id, [], ttl, writes[i].at);
      FlushedIsWritten(states, evs, ttl, |evs|, id, writes[i].at);
    }
    if at :| WasFlushed(evs, |evs|, id, at) && (ttl <= 0 || now <= at + ttl) {
      FlushedIsWritten(states, evs, ttl, |evs|, id, at);
      LiveStoreIsSeen(writes, id, ttl, at, now);
    }
  }

  lemma {:induction false} MarkersAreEmpty(states: seq<RunState>, evs: seq<RunEvent>, ttl: Time, n: nat)
    requires IsRun(states, evs, ttl) && n <= |evs|
    ensures forall i :: 0 <= i < |states[n].writes| && states[n].writes[i].Store? ==> states[n].writes[i].value == []
  {
    if n > 0 {
      MarkersAreEmpty(states, evs, ttl, n - 1);
      assert CanHappen(states[n - 1], evs[n - 1]) && states[n - 1 + 1] == Advance(states[n - 1], evs[n - 1], ttl);
    }
  }

  lemma PrefixIsRun(states: seq<RunState>, evs: seq<RunEvent>, ttl: Time, n: nat)
    requires IsRun(states, evs, ttl) && n <= |evs|
    ensures IsRun(states[..n + 1], evs[..n], ttl)
  {
    forall i | 0 <= i < n
      ensures CanHappen(states[..n + 1][i], evs[..n][i])
      ensures states[..n + 1][i + 1] == Advance(states[..n + 1][i], evs[..n][i], ttl)
    {
      assert CanHappen(states[i], evs[i]) && states[i + 1] == Advance(states[i], evs[i], ttl);
    }
  }

  lemma MarkedBefore(evs: seq<RunEvent>, n: nat, id: string, ttl: Time, now: Time)
    requires |evs| == n + 1 && !evs[n].Flushed?
    ensures IsMarked(evs, |evs|, id, ttl, now) <==> IsMarked(evs[..n], n, id, ttl, now)
  {
    var front := evs[..n];
    assert forall i :: 0 <= i < n ==> front[i] == evs[i];
    if at :| WasFlushed(evs, |evs|, id, at) && (ttl <= 0 || now <= at + ttl) {
      assert WasFlushed(front, n, id, at);
    }
    if at :| WasFlushed(front, n, id, at) && (ttl <= 0 || now <= at + ttl) {
      assert WasFlushed(evs, |evs|, id, at);
    }
  }

  lemma OrderBefore(writes: seq<CacheEvent>, now: Time)
    requires InOrder(writes + [Clean(now)])
    ensures InOrder(writes) && forall w :: w in writes ==> w.at <= now
  {
    var all := writes + [Clean(now)];
    assert all[|writes|].at == now;
    forall i | 0 <= i < |writes|
      ensures all[i] == writes[i] && writes[i].at <= now
    {
      assert all[i].at <= all[|writes|].at;
    }
  }

  // After a cleanup the table holds a row for exactly the tasks whose marker is still alive.
  lemma CleanupLeavesLiveMarkers(states: seq<RunState>, evs: seq<RunEvent>, ttl: Time, id: string, now: Time)
    requires IsRun(states, evs, ttl) && evs != [] && evs[|evs| - 1] == Expired(now)
    requires InOrder(states[|evs|].writes)
    ensures id in TableAfter(states[|evs|].writes) <==> IsMarked(evs, |evs|, id, ttl, now)
  {
    var n := |evs| - 1;
    var writes := states[n].writes;
    assert CanHappen(states[n], evs[n]) && states[n + 1] == Advance(states[n], evs[n], ttl);
    OrderBefore(writes, now);
    CleanedTableIsAlive(writes, now);
    LookupSeesLastWrite(writes, id, now);
    PrefixIsRun(states, evs, ttl, n);
    PersistentHitIffFlushed(states[..n + 1], evs[..n], ttl, id, now);
    MarkedBefore(evs, n, id, ttl, now);
  }
}
