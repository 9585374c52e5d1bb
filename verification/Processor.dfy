// The loops inside one ProcessTrace call: what the task handler keeps of a plugin's traces,
// and what the collection loop makes of the replies it receives.
module TraceProcessor {
  import opened Entities
  import opened WorkerPool

  // ---- What is kept, and in which order ----

  predicate Increasing(at: seq<nat>) {
    forall j, k :: 0 <= j < k < |at| ==> at[j] < at[k]
  }

  // The traces at these places, and no others, have a value.
  predicate AreFilled(ts: seq<Trace>, at: seq<nat>) {
    && (forall k :: 0 <= k < |at| ==> at[k] < |ts| && ts[at[k]].value != "")
    && (forall i: nat :: i < |ts| && ts[i].value != "" ==> i in at)
  }

  // The traces with a value are kept, each as often as it comes and in the order they come.
  ghost predicate IsFiltered(ts: seq<Trace>, kept: seq<Trace>, at: seq<nat>) {
    && Increasing(at) && AreFilled(ts, at)
    && |kept| == |at| && forall k :: 0 <= k < |at| ==> kept[k] == ts[at[k]]
  }

  lemma FilterNext(front: seq<Trace>, kept: seq<Trace>, at: seq<nat>, last: Trace)
    requires IsFiltered(front, kept, at)
    ensures last.value != "" ==> IsFiltered(front + [last], kept + [last], at + [|front|])
    ensures last.value == "" ==> IsFiltered(front + [last], kept, at)
  {
    if last.value != "" {
      forall i: nat | i < |front + [last]| && (front + [last])[i].value != ""
        ensures i in at + [|front|]
      {
        if i == |front| {
          assert (at + [|front|])[|at|] == i;
        } else {
          assert front[i].value != "" && i in at;
        }
      }
    }
  }

  lemma {:induction false} FilledPlaces(ts: seq<Trace>) returns (at: seq<nat>)
    ensures IsFiltered(ts, NonEmpty(ts), at)
  {
    at := [];
    if ts != [] {
      var front, last := ts[..|ts| - 1], ts[|ts| - 1];
      assert ts == front + [last];
      var at' := FilledPlaces(front);
      FilterNext(front, NonEmpty(front), at', last);
      at := if last.value != "" then at' + [|front|] else at';
    }
  }

  lemma {:induction false} DiscoveriesAre(parent: Trace, name: string, ts: seq<Trace>)
    ensures |AsDiscoveries(parent, name, ts)| == |NonEmpty(ts)|
    ensures forall k :: 0 <= k < |NonEmpty(ts)| ==>
              AsDiscoveries(parent, name, ts)[k] == Discovery(parent, name, NonEmpty(ts)[k])
  {
    if ts != [] {
      DiscoveriesAre(parent, name, ts[..|ts| - 1]);
    }
  }

  // The child-th trace of the reply-th reply.
  datatype Spot = Spot(reply: nat, child: nat)

  predicate IsFind(rs: seq<Reply>, at: Spot) {
    && at.reply < |rs| && rs[at.reply].payload.Found?
    && at.child < |rs[at.reply].payload.traces| && rs[at.reply].payload.traces[at.child].value != ""
  }

  function FoundAt(parent: Trace, rs: seq<Reply>, at: Spot): Discovery
    requires IsFind(rs, at)
  {
    var found := rs[at.reply].payload;
    Discovery(parent, found.pluginName, found.traces[at.child])
  }

  predicate Before(a: Spot, b: Spot) {
    a.reply < b.reply || (a.reply == b.reply && a.child < b.child)
  }

  // One discovery per trace found, reply by reply and within a reply in the plugin's order.
  ghost predicate InOrder(parent: Trace, rs: seq<Reply>, ds: seq<Discovery>, from: seq<Spot>) {
    && |ds| == |from|
    && (forall j, k :: 0 <= j < k < |from| ==> Before(from[j], from[k]))
    && (forall k :: 0 <= k < |from| ==> IsFind(rs, from[k]) && ds[k] == FoundAt(parent, rs, from[k]))
    && (forall at :: IsFind(rs, at) ==> at in from)
  }

  lemma {:induction false} CollectedInOrder(parent: Trace, rs: seq<Reply>) returns (from: seq<Spot>)
    ensures InOrder(parent, rs, Collected(parent, rs), from)
  {
    from := [];
    if rs != [] {
      var front, last := rs[..|rs| - 1], rs[|rs| - 1];
      var earlier := CollectedInOrder(parent, front);
      var added := SpotsOf(parent, |front|, last);
      from := earlier + added;
      assert rs == front + [last];
      Joined(parent, front, last, Collected(parent, front), earlier, Contribution(parent, last), added);
    }
  }

  ghost predicate AddsAt(parent: Trace, r: Reply, d: Discovery, child: nat) {
    IsFind([r], Spot(0, child)) && d == FoundAt(parent, [r], Spot(0, child))
  }

  // The places of the traces that the n-th reply adds.
  ghost predicate AreSpots(parent: Trace, n: nat, r: Reply, ds: seq<Discovery>, spots: seq<Spot>) {
    && |ds| == |spots|
    && (forall j, k :: 0 <= j < k < |spots| ==> spots[j].child < spots[k].child)
    && (forall k :: 0 <= k < |spots| ==> spots[k].reply == n && AddsAt(parent, r, ds[k], spots[k].child))
    && (forall i: nat :: IsFind([r], Spot(0, i)) ==> Spot(n, i) in spots)
  }

  lemma SpotsAre(parent: Trace, n: nat, r: Reply, ds: seq<Discovery>, at: seq<nat>, spots: seq<Spot>)
    requires r.payload.Found? && Increasing(at) && AreFilled(r.payload.traces, at)
    requires |ds| == |at| == |spots| && forall k :: 0 <= k < |at| ==> spots[k] == Spot(n, at[k])
    requires forall k :: 0 <= k < |at| ==> ds[k] == Discovery(parent, r.payload.pluginName, r.payload.traces[at[k]])
    ensures AreSpots(parent, n, r, ds, spots)
  {
    forall i: nat | IsFind([r], Spot(0, i))
      ensures Spot(n, i) in spots
    {
      var k :| 0 <= k < |at| && at[k] == i;
      assert spots[k] == Spot(n, i);
    }
  }

  lemma SpotsOf(parent: Trace, n: nat, r: Reply) returns (spots: seq<Spot>)
    ensures AreSpots(parent, n, r, Contribution(parent, r), spots)
  {
    spots := [];
    if r.payload.Found? {
      var at := FilledPlaces(r.payload.traces);
      DiscoveriesAre(parent, r.payload.pluginName, r.payload.traces);
      spots := seq(|at|, k requires 0 <= k < |at| => Spot(n, at[k]));
      SpotsAre(parent, n, r, Contribution(parent, r), at, spots);
    }
  }

  lemma Joined(parent: Trace, front: seq<Reply>, last: Reply, ds: seq<Discovery>, from: seq<Spot>,
      ds': seq<Discovery>, spots: seq<Spot>)
    requires InOrder(parent, front, ds, from) && AreSpots(parent, |front|, last, ds', spots)
    ensures InOrder(parent, front + [last], ds + ds', from + spots)
  {
    JoinedItems(parent, front, last, ds, from, ds', spots);
    forall at | IsFind(front + [last], at)
      ensures at in from + spots
    {
      if at.reply < |front| {
        assert IsFind(front, at);
      } else {
        assert IsFind([last], Spot(0, at.child)) && at == Spot(|front|, at.child);
      }
    }
  }

  lemma JoinedItems(parent: Trace, front: seq<Reply>, last: Reply, ds: seq<Discovery>, from: seq<Spot>,
      ds': seq<Discovery>, spots: seq<Spot>)
    requires InOrder(parent, front, ds, from) && AreSpots(parent, |front|, last, ds', spots)
    ensures forall k :: 0 <= k < |from + spots| ==> IsFind(front + [last], (from + spots)[k])
    ensures forall k :: 0 <= k < |from + spots| ==> (ds + ds')[k] == FoundAt(parent, front + [last], (from + spots)[k])
    ensures forall j, k :: 0 <= j < k < |from + spots| ==> Before((from + spots)[j], (from + spots)[k])
  {
    forall k | 0 <= k < |from + spots|
      ensures IsFind(front + [last], (from + spots)[k])
      ensures (ds + ds')[k] == FoundAt(parent, front + [last], (from + spots)[k])
    {
      if k < |from| {
        assert IsFind(front, from[k]);
      } else {
        assert AddsAt(parent, last, ds'[k - |from|], spots[k - |from|].child);
      }
    }
  }

  // newTraceTaskHandler's filter
  method FilterTraces(newTraces: seq<Trace>) returns (filtered: seq<Trace>)
    ensures filtered == NonEmpty(newTraces)
    ensures exists at :: IsFiltered(newTraces, filtered, at)
  {
    filtered := [];
    var i := 0;
    while i < |newTraces|
      invariant 0 <= i <= |newTraces|
      invariant filtered == NonEmpty(newTraces[..i])
    {
      assert newTraces[..i + 1][..i] == newTraces[..i];
      if newTraces[i].value != "" {
        filtered := filtered + [newTraces[i]];
      }
      i := i + 1;
    }
    assert newTraces[..i] == newTraces;
    ghost var at := FilledPlaces(newTraces);
    assert IsFiltered(newTraces, filtered, at);
  }

  // One reply: an error or a duplicate adds nothing.
  method AddReply(trace: Trace, discoveries: seq<Discovery>, result: Reply) returns (discoveries': seq<Discovery>)
    ensures discoveries' == discoveries + Contribution(trace, result)
  {
    discoveries' := discoveries;
    if !result.payload.Found? {
      return;
    }
    var name, traces := result.payload.pluginName, result.payload.traces;
    var i := 0;
    while i < |traces|
      invariant 0 <= i <= |traces|
      invariant discoveries' == discoveries + AsDiscoveries(trace, name, traces[..i])
    {
      assert traces[..i + 1][..i] == traces[..i];
      if traces[i].value != "" {
        discoveries' := discoveries' + [Discovery(trace, name, traces[i])];
      }
      i := i + 1;
    }
    assert traces[..i] == traces;
  }

  // The collection loop, over the replies in the order they arrive.
  method CollectReplies(trace: Trace, replies: seq<Reply>) returns (discoveries: seq<Discovery>)
    ensures discoveries == Collected(trace, replies)
    ensures exists from :: InOrder(trace, replies, discoveries, from)
  {
    discoveries := [];
    var i := 0;
    while i < |replies|
      invariant 0 <= i <= |replies|
      invariant discoveries == Collected(trace, replies[..i])
    {
      assert replies[..i + 1][..i] == replies[..i];
      discoveries := AddReply(trace, discoveries, replies[i]);
      i := i + 1;
    }
    assert replies[..i] == replies;
    ghost var from := CollectedInOrder(trace, replies);
  }
}
