// The worklist of Engine.ProcessInput as a state machine: what one batch may do, and what
// holds of every finished run, whatever the batch size and the completion order.
module ScanMachine {
  import opened Entities
  import opened Walks

  // What one plugin call contributed for a trace.
  datatype Find = Find(pluginName: string, child: Trace)

  // What ProcessTrace returned for a trace; an error contributes nothing.
  datatype Outcome = Found(finds: seq<Find>) | Failed

  type PluginGraph = Trace -> Outcome

  function Finds(g: PluginGraph, t: Trace): seq<Find> {
    match g(t)
    case Found(finds) => finds
    case Failed => []
  }

  ghost predicate IsDiscovery(g: PluginGraph, d: Discovery) {
    g(d.parent).Found? && Find(d.pluginName, d.child) in g(d.parent).finds
  }

  // Links from a trace to the traces found from it.
  ghost predicate IsChild(g: PluginGraph, a: Trace, b: Trace) {
    g(a).Found? && exists f :: f in g(a).finds && f.child == b
  }

  ghost function Children(g: PluginGraph): Graph<Trace> {
    (a, b) => IsChild(g, a, b)
  }

  // all: the traces found so far, in order of discovery; the first `done` of them were
  // processed, the rest are the stack, and `seen` holds exactly these traces.
  datatype Scan = Scan(all: seq<Trace>, done: nat)

  function Start(seed: Trace): Scan {
    Scan([seed], 0)
  }

  function Min(a: int, b: int): int {
    if a < b then a else b
  }

  function BatchSize(s: Scan, maxConcurrency: int): int {
    Min(|s.all| - s.done, maxConcurrency)
  }

  function Batch(s: Scan, maxConcurrency: int): seq<Trace>
    requires s.done <= |s.all| && 0 <= maxConcurrency
  {
    s.all[s.done..s.done + BatchSize(s, maxConcurrency)]
  }

  // A possible result of a batch: the discoveries of all its traces, in any order.
  ghost predicate Arrives(g: PluginGraph, batch: seq<Trace>, ds: seq<Discovery>) {
    forall d :: d in ds <==> d.parent in batch && IsDiscovery(g, d)
  }

  // The loop that appends each child not seen before.
  function Admit(all: seq<Trace>, ds: seq<Discovery>): seq<Trace> {
    if ds == [] then all
    else
      var front := Admit(all, ds[..|ds| - 1]);
      var child := ds[|ds| - 1].child;
      if child in front then front else front + [child]
  }

  ghost predicate Step(g: PluginGraph, maxConcurrency: int, s: Scan, s': Scan) {
    && s.done < |s.all| && 0 <= maxConcurrency
    && s'.done == s.done + BatchSize(s, maxConcurrency)
    && exists ds :: Arrives(g, Batch(s, maxConcurrency), ds) && s'.all == Admit(s.all, ds)
  }

  lemma StepBy(g: PluginGraph, maxConcurrency: int, s: Scan, s': Scan, ds: seq<Discovery>)
    requires s.done < |s.all| && 0 <= maxConcurrency && s'.done == s.done + BatchSize(s, maxConcurrency)
    requires Arrives(g, Batch(s, maxConcurrency), ds) && s'.all == Admit(s.all, ds)
    ensures Step(g, maxConcurrency, s, s')
  {
  }

  ghost predicate IsRun(g: PluginGraph, maxConcurrency: int, seed: Trace, run: seq<Scan>) {
    && run != []
    && run[0] == Start(seed)
    && forall i :: 0 < i < |run| ==> Step(g, maxConcurrency, run[i - 1], run[i])
  }

  lemma RunExtends(g: PluginGraph, maxConcurrency: int, seed: Trace, run: seq<Scan>, s: Scan)
    requires IsRun(g, maxConcurrency, seed, run) && Step(g, maxConcurrency, run[|run| - 1], s)
    ensures IsRun(g, maxConcurrency, seed, run + [s])
  {
  }

  ghost predicate IsFinishedRun(g: PluginGraph, maxConcurrency: int, seed: Trace, run: seq<Scan>) {
    IsRun(g, maxConcurrency, seed, run) && run[|run| - 1].done == |run[|run| - 1].all|
  }

  function Results(run: seq<Scan>): seq<Trace>
    requires run != []
  {
    run[|run| - 1].all
  }

  lemma AdmitOne(all: seq<Trace>, d: Discovery)
    requires d.child !in all
    ensures Admit(all, [d]) == all + [d.child]
  {
    assert [d][..0] == [];
  }

  lemma {:induction false} AdmitFacts(all: seq<Trace>, ds: seq<Discovery>)
    ensures all <= Admit(all, ds)
    ensures Simple(all) ==> Simple(Admit(all, ds))
    ensures forall t :: t in Admit(all, ds) <==> t in all || exists d :: d in ds && d.child == t
  {
    if ds != [] {
      var front, last := ds[..|ds| - 1], ds[|ds| - 1];
      AdmitFacts(all, front);
      SimpleAppend(Admit(all, front), last.child);
      assert forall d :: d in ds <==> d in front || d == last;
    }
  }

  // The i-th result is the first with its child, which is new.
  ghost predicate IsNews(all: seq<Trace>, ds: seq<Discovery>, i: nat) {
    i < |ds| && ds[i].child !in all && forall j :: 0 <= j < i ==> ds[j].child != ds[i].child
  }

  // The children that are new are appended in the order they first come in the results.
  ghost predicate AppendsInOrder(all: seq<Trace>, ds: seq<Discovery>, all': seq<Trace>, at: seq<nat>) {
    && |all'| == |all| + |at| && all'[..|all|] == all
    && (forall j, k :: 0 <= j < k < |at| ==> at[j] < at[k])
    && (forall k :: 0 <= k < |at| ==> IsNews(all, ds, at[k]) && all'[|all| + k] == ds[at[k]].child)
  }

  lemma AppendNext(all: seq<Trace>, front: seq<Discovery>, all': seq<Trace>, at: seq<nat>, last: Discovery)
    requires AppendsInOrder(all, front, all', at)
    ensures AppendsInOrder(all, front + [last], all', at)
    ensures IsNews(all, front + [last], |front|) ==>
              AppendsInOrder(all, front + [last], all' + [last.child], at + [|front|])
  {
    forall i: nat | IsNews(all, front, i)
      ensures IsNews(all, front + [last], i)
    {
    }
    assert (all' + [last.child])[..|all|] == all;
  }

  lemma {:induction false} AdmitKeepsOrder(all: seq<Trace>, ds: seq<Discovery>) returns (at: seq<nat>)
    ensures AppendsInOrder(all, ds, Admit(all, ds), at)
  {
    at := [];
    if ds != [] {
      var front, last := ds[..|ds| - 1], ds[|ds| - 1];
      assert ds == front + [last];
      var at' := AdmitKeepsOrder(all, front);
      AdmitFacts(all, front);
      AppendNext(all, front, Admit(all, front), at', last);
      if last.child in Admit(all, front) {
        at := at';
      } else {
        assert forall i :: 0 <= i < |front| ==> front[i] in front;
        assert IsNews(all, front + [last], |front|);
        at := at' + [|front|];
      }
    }
  }

  // ---- Every run ----

  ghost predicate Sound(g: PluginGraph, seed: Trace, s: Scan) {
    && s.done <= |s.all|
    && s.all != [] && s.all[0] == seed
    && Simple(s.all)
    && (forall t :: t in s.all ==> Reachable(Children(g), seed, t))
    && (forall i, t :: 0 <= i < s.done && IsChild(g, s.all[i], t) ==> t in s.all)
  }

  // t was found from one of the traces all[i..j].
  ghost predicate FoundFrom(g: PluginGraph, all: seq<Trace>, i: nat, j: nat, t: Trace) {
    exists k :: i <= k < j && k < |all| && IsChild(g, all[k], t)
  }

  lemma ArrivalsAreChildren(g: PluginGraph, s: Scan, j: nat, ds: seq<Discovery>, t: Trace)
    requires s.done <= j <= |s.all| && Arrives(g, s.all[s.done..j], ds)
    ensures (exists d :: d in ds && d.child == t) <==> FoundFrom(g, s.all, s.done, j, t)
  {
    if d: Discovery :| d in ds && d.child == t {
      DiscoveryIsFound(g, s.all, s.done, j, d);
    }
    if FoundFrom(g, s.all, s.done, j, t) {
      var d := FoundHasDiscovery(g, s.all, s.done, j, t);
      assert d in ds;
    }
  }

  lemma DiscoveryIsFound(g: PluginGraph, all: seq<Trace>, i: nat, j: nat, d: Discovery)
    requires i <= j <= |all| && d.parent in all[i..j] && IsDiscovery(g, d)
    ensures FoundFrom(g, all, i, j, d.child)
  {
    var k :| i <= k < j && all[k] == d.parent;
    assert IsChild(g, all[k], d.child);
  }

  lemma FoundHasDiscovery(g: PluginGraph, all: seq<Trace>, i: nat, j: nat, t: Trace) returns (d: Discovery)
    requires i <= j <= |all| && FoundFrom(g, all, i, j, t)
    ensures d.parent in all[i..j] && IsDiscovery(g, d) && d.child == t
  {
    var k :| i <= k < j && k < |all| && IsChild(g, all[k], t);
    var f :| f in g(all[k]).finds && f.child == t;
    assert f == Find(f.pluginName, t);
    assert all[k] == all[i..j][k - i];
    d := Discovery(all[k], f.pluginName, t);
  }

  // One batch keeps what was found and adds exactly the unseen children of its traces.
  lemma StepAdds(g: PluginGraph, maxConcurrency: int, s: Scan, s': Scan)
    requires Step(g, maxConcurrency, s, s')
    ensures s.done <= s'.done <= |s.all| && s.all <= s'.all
    ensures Simple(s.all) ==> Simple(s'.all)
    ensures forall t :: t in s'.all <==> t in s.all || FoundFrom(g, s.all, s.done, s'.done, t)
  {
    var ds: seq<Discovery> :| Arrives(g, Batch(s, maxConcurrency), ds) && s'.all == Admit(s.all, ds);
    AdmittedAre(g, s, s'.done, ds);
  }

  lemma AdmittedAre(g: PluginGraph, s: Scan, j: nat, ds: seq<Discovery>)
    requires s.done <= j <= |s.all| && Arrives(g, s.all[s.done..j], ds)
    ensures s.all <= Admit(s.all, ds)
    ensures Simple(s.all) ==> Simple(Admit(s.all, ds))
    ensures forall t :: t in Admit(s.all, ds) <==> t in s.all || FoundFrom(g, s.all, s.done, j, t)
  {
    AdmitFacts(s.all, ds);
    forall t: Trace
      ensures t in Admit(s.all, ds) <==> t in s.all || FoundFrom(g, s.all, s.done, j, t)
    {
      ArrivalsAreChildren(g, s, j, ds, t);
    }
  }

  lemma StepSound(g: PluginGraph, maxConcurrency: int, seed: Trace, s: Scan, s': Scan)
    requires Sound(g, seed, s) && Step(g, maxConcurrency, s, s')
    ensures Sound(g, seed, s') && s.all <= s'.all && s.done <= s'.done <= |s.all|
  {
    StepAdds(g, maxConcurrency, s, s');
    forall t | t in s'.all
      ensures Reachable(Children(g), seed, t)
    {
      if t !in s.all {
        var i :| s.done <= i < s'.done && i < |s.all| && IsChild(g, s.all[i], t);
        assert s.all[i] in s.all;
        var w :| Joins(Children(g), seed, s.all[i], w);
        ExtendWalk(Children(g), seed, s.all[i], t, w);
      }
    }
    forall i, t | 0 <= i < s'.done && IsChild(g, s'.all[i], t)
      ensures t in s'.all
    {
      assert s'.all[i] == s.all[i];
    }
  }

  lemma {:induction false} RunSound(g: PluginGraph, maxConcurrency: int, seed: Trace, run: seq<Scan>)
    requires IsRun(g, maxConcurrency, seed, run)
    ensures Sound(g, seed, run[|run| - 1])
    decreases |run|
  {
    if |run| == 1 {
      assert Joins(Children(g), seed, seed, [seed]);
    } else {
      var n := |run| - 1;
      RunSound(g, maxConcurrency, seed, run[..n]);
      assert Step(g, maxConcurrency, run[n - 1], run[n]);
      StepSound(g, maxConcurrency, seed, run[n - 1], run[n]);
    }
  }

  ghost predicate Closed(g: PluginGraph, ts: iset<Trace>) {
    forall a, b :: a in ts && IsChild(g, a, b) ==> b in ts
  }

  lemma {:induction false} WalkStaysInside(g: PluginGraph, ts: iset<Trace>, w: seq<Trace>)
    requires Closed(g, ts) && IsWalk(Children(g), w) && w[0] in ts
    ensures w[|w| - 1] in ts
    decreases |w|
  {
    if |w| > 1 {
      WalkStaysInside(g, ts, w[..|w| - 1]);
      assert IsChild(g, w[|w| - 2], w[|w| - 1]);
    }
  }

  // The results are the least set that holds the seed and is closed under children, listed
  // without repetition and seed first; for any batch size and any completion order.
  lemma ResultsAreTheClosure(g: PluginGraph, maxConcurrency: int, seed: Trace, run: seq<Scan>)
    requires IsFinishedRun(g, maxConcurrency, seed, run)
    ensures var all := Results(run);
            && Simple(all) && all != [] && all[0] == seed
            && Closed(g, iset t | t in all)
            && (forall t :: t in all <==> Reachable(Children(g), seed, t))
            && (forall ts: iset<Trace> :: seed in ts && Closed(g, ts) ==> forall t :: t in all ==> t in ts)
  {
    var all := Results(run);
    RunSound(g, maxConcurrency, seed, run);
    forall a, b | a in all && IsChild(g, a, b)
      ensures b in all
    {
      var i :| 0 <= i < |all| && all[i] == a;
    }
    forall t | Reachable(Children(g), seed, t)
      ensures t in all
    {
      var w :| Joins(Children(g), seed, t, w);
      WalkStaysInside(g, (iset x | x in all), w);
    }
    forall ts: iset<Trace>, t | seed in ts && Closed(g, ts) && t in all
      ensures t in ts
    {
      var w :| Joins(Children(g), seed, t, w);
      WalkStaysInside(g, ts, w);
    }
  }

  // Confluence: two finished scans of one plugin graph agree up to order.
  lemma RunsAgree(g: PluginGraph, seed: Trace, c1: int, run1: seq<Scan>, c2: int, run2: seq<Scan>)
    requires IsFinishedRun(g, c1, seed, run1) && IsFinishedRun(g, c2, seed, run2)
    ensures multiset(Results(run1)) == multiset(Results(run2))
  {
    ResultsAreTheClosure(g, c1, seed, run1);
    ResultsAreTheClosure(g, c2, seed, run2);
    SimpleCounts(Results(run1));
    SimpleCounts(Results(run2));
  }

  lemma {:induction false} SimpleCounts(w: seq<Trace>)
    requires Simple(w)
    ensures forall t :: multiset(w)[t] == if t in w then 1 else 0
  {
    if w != [] {
      var n := |w| - 1;
      SimpleCounts(w[..n]);
      assert w == w[..n] + [w[n]];
      assert w[n] !in w[..n];
    }
  }

  // ---- Each trace is processed exactly once ----

  ghost predicate Advances(s: Scan, s': Scan) {
    s.done <= s'.done <= |s.all|
  }

  // The batches of a run, one after another.
  ghost function Processed(run: seq<Scan>): seq<Trace> {
    if |run| <= 1 then [] else Processed(run[..|run| - 1]) + Taken(run[|run| - 2], run[|run| - 1])
  }

  // The batch between two states.
  ghost function Taken(s: Scan, s': Scan): seq<Trace> {
    if Advances(s, s') then s.all[s.done..s'.done] else []
  }

  lemma {:induction false} RunAdvances(g: PluginGraph, maxConcurrency: int, seed: Trace, run: seq<Scan>)
    requires IsRun(g, maxConcurrency, seed, run)
    ensures forall i :: 0 < i < |run| ==> Advances(run[i - 1], run[i])
  {
    forall i | 0 < i < |run|
      ensures Advances(run[i - 1], run[i])
    {
      assert Step(g, maxConcurrency, run[i - 1], run[i]);
      StepAdds(g, maxConcurrency, run[i - 1], run[i]);
    }
  }

  lemma StepAppends(g: PluginGraph, maxConcurrency: int, s: Scan, s': Scan)
    requires Step(g, maxConcurrency, s, s')
    ensures Advances(s, s') && s'.done <= |s'.all|
    ensures s'.all[..s'.done] == s.all[..s.done] + Taken(s, s')
  {
    StepAdds(g, maxConcurrency, s, s');
    assert s'.all[..s'.done] == s.all[..s'.done];
  }

  lemma {:induction false} ProcessedSoFar(g: PluginGraph, maxConcurrency: int, seed: Trace, run: seq<Scan>)
    requires IsRun(g, maxConcurrency, seed, run)
    ensures run[|run| - 1].done <= |run[|run| - 1].all|
    ensures Processed(run) == run[|run| - 1].all[..run[|run| - 1].done]
    decreases |run|
  {
    if |run| > 1 {
      var n := |run| - 1;
      var s, s' := run[n - 1], run[n];
      var front := run[..n];
      assert front[n - 1] == s;
      ProcessedSoFar(g, maxConcurrency, seed, front);
      assert Step(g, maxConcurrency, s, s');
      StepAppends(g, maxConcurrency, s, s');
      assert Processed(run) == Processed(front) + Taken(s, s');
    }
  }

  // In a finished run the batches spell out the results, so every result was handed to the
  // plugins once and nothing else was.
  lemma EachTraceProcessedOnce(g: PluginGraph, maxConcurrency: int, seed: Trace, run: seq<Scan>)
    requires IsFinishedRun(g, maxConcurrency, seed, run)
    ensures forall i :: 0 < i < |run| ==> Advances(run[i - 1], run[i])
    ensures Processed(run) == Results(run) && Simple(Processed(run))
  {
    RunAdvances(g, maxConcurrency, seed, run);
    ProcessedSoFar(g, maxConcurrency, seed, run);
    RunSound(g, maxConcurrency, seed, run);
  }

  // ---- Termination ----

  // With at least one worker a run takes no more steps than there are reachable traces.
  lemma {:induction false} RunIsBounded(g: PluginGraph, maxConcurrency: int, seed: Trace, run: seq<Scan>,
      universe: set<Trace>)
    requires IsRun(g, maxConcurrency, seed, run) && maxConcurrency >= 1
    requires forall t :: Reachable(Children(g), seed, t) ==> t in universe
    ensures |run| <= run[|run| - 1].done + 1 <= |universe| + 1
    decreases |run|
  {
    var s := run[|run| - 1];
    RunSound(g, maxConcurrency, seed, run);
    SimpleBound(s.all, universe);
    if |run| > 1 {
      var n := |run| - 1;
      RunIsBounded(g, maxConcurrency, seed, run[..n], universe);
      assert Step(g, maxConcurrency, run[n - 1], run[n]);
    }
  }

  // A batch makes progress exactly when the configured concurrency is not zero; the fallback
  // inside processBatch comes too late to help.
  lemma ProgressNeedsConcurrency(g: PluginGraph, maxConcurrency: int, s: Scan, s': Scan)
    requires Step(g, maxConcurrency, s, s')
    ensures s' != s <==> maxConcurrency >= 1
  {
    var ds: seq<Discovery> :| Arrives(g, Batch(s, maxConcurrency), ds) && s'.all == Admit(s.all, ds);
    if maxConcurrency == 0 {
      assert forall d :: d !in ds;
      assert ds == [];
    }
  }

  // The plugins do not lead out of this set.
  ghost predicate IsUniverse(g: PluginGraph, seed: Trace, universe: set<Trace>) {
    seed in universe && forall a, b :: a in universe && IsChild(g, a, b) ==> b in universe
  }

  lemma StaysInUniverse(g: PluginGraph, maxConcurrency: int, seed: Trace, run: seq<Scan>, universe: set<Trace>)
    requires IsRun(g, maxConcurrency, seed, run) && IsUniverse(g, seed, universe)
    ensures |run[|run| - 1].all| <= |universe|
  {
    RunSound(g, maxConcurrency, seed, run);
    var all, ts := run[|run| - 1].all, iset t | t in universe;
    forall t | t in all
      ensures t in universe
    {
      var w :| Joins(Children(g), seed, t, w);
      WalkStaysInside(g, ts, w);
    }
    SimpleBound(all, universe);
  }

  // Without a positive concurrency a run never leaves its start: an empty batch changes
  // nothing, and a negative one cannot be cut.
  lemma {:induction false} RunStaysAtStart(g: PluginGraph, maxConcurrency: int, seed: Trace, run: seq<Scan>)
    requires IsRun(g, maxConcurrency, seed, run) && maxConcurrency < 1
    ensures run[|run| - 1] == Start(seed)
    decreases |run|
  {
    if |run| > 1 {
      var n := |run| - 1;
      RunStaysAtStart(g, maxConcurrency, seed, run[..n]);
      assert Step(g, maxConcurrency, run[n - 1], run[n]);
      ProgressNeedsConcurrency(g, maxConcurrency, run[n - 1], run[n]);
    }
  }

  // Every batch has a possible result.
  lemma {:induction false} BatchResult(g: PluginGraph, batch: seq<Trace>) returns (ds: seq<Discovery>)
    ensures Arrives(g, batch, ds)
  {
    if batch == [] {
      ds := [];
    } else {
      var front, t := batch[..|batch| - 1], batch[|batch| - 1];
      var earlier := BatchResult(g, front);
      var later := TraceResult(g, t);
      ds := earlier + later;
      assert forall u :: u in batch <==> u in front || u == t;
    }
  }

  lemma TraceResult(g: PluginGraph, t: Trace) returns (ds: seq<Discovery>)
    ensures forall d :: d in ds <==> d.parent == t && IsDiscovery(g, d)
  {
    var finds := Finds(g, t);
    ds := seq(|finds|, i requires 0 <= i < |finds| => Discovery(t, finds[i].pluginName, finds[i].child));
    forall d: Discovery | d.parent == t && IsDiscovery(g, d)
      ensures d in ds
    {
      var i :| 0 <= i < |finds| && finds[i] == Find(d.pluginName, d.child);
      assert ds[i] == d;
    }
  }

  lemma {:induction false} RunFinishes(g: PluginGraph, maxConcurrency: int, seed: Trace, run: seq<Scan>,
      universe: set<Trace>)
    returns (run': seq<Scan>)
    requires IsRun(g, maxConcurrency, seed, run) && maxConcurrency >= 1 && IsUniverse(g, seed, universe)
    ensures IsFinishedRun(g, maxConcurrency, seed, run')
    decreases |universe| - run[|run| - 1].done
  {
    var s := run[|run| - 1];
    RunSound(g, maxConcurrency, seed, run);
    if s.done == |s.all| {
      run' := run;
    } else {
      StaysInUniverse(g, maxConcurrency, seed, run, universe);
      var ds := BatchResult(g, Batch(s, maxConcurrency));
      var s' := Scan(Admit(s.all, ds), s.done + BatchSize(s, maxConcurrency));
      StepBy(g, maxConcurrency, s, s', ds);
      RunExtends(g, maxConcurrency, seed, run, s');
      run' := RunFinishes(g, maxConcurrency, seed, run + [s'], universe);
    }
  }

  // A scan that can find only finitely many traces can finish if and only if the configured
  // concurrency is positive.
  lemma FinishesIffConcurrency(g: PluginGraph, maxConcurrency: int, seed: Trace, universe: set<Trace>)
    requires IsUniverse(g, seed, universe)
    ensures (exists run :: IsFinishedRun(g, maxConcurrency, seed, run)) <==> maxConcurrency >= 1
  {
    if maxConcurrency >= 1 {
      var run := RunFinishes(g, maxConcurrency, seed, [Start(seed)], universe);
    } else if run :| IsFinishedRun(g, maxConcurrency, seed, run) {
      RunStaysAtStart(g, maxConcurrency, seed, run);
      assert false;
    }
  }

  // ---- Breadth-first order with one worker ----

  // dist records for every trace the length of some walk to it.
  ghost predicate Walked(g: PluginGraph, seed: Trace, dist: map<Trace, nat>) {
    forall t :: t in dist ==> exists w :: Joins(Children(g), seed, t, w) && |w| == dist[t] + 1
  }

  ghost predicate Layered(g: PluginGraph, seed: Trace, s: Scan, dist: map<Trace, nat>) {
    && Sound(g, seed, s)
    && (forall t :: t in dist <==> t in s.all)
    && dist[seed] == 0
    && (forall i, j :: 0 <= i <= j < |s.all| ==> dist[s.all[i]] <= dist[s.all[j]])
    && (s.done < |s.all| ==> dist[s.all[|s.all| - 1]] <= dist[s.all[s.done]] + 1)
    && (forall i, t :: 0 <= i < s.done && IsChild(g, s.all[i], t) ==> t in dist && dist[t] <= dist[s.all[i]] + 1)
  }

  function Relabel(s: Scan, all': seq<Trace>, dist: map<Trace, nat>): map<Trace, nat>
    requires s.done < |s.all| && s.all[s.done] in dist
  {
    map t | t in all' :: if t in dist then dist[t] else dist[s.all[s.done]] + 1
  }

  lemma NewItem(all: seq<Trace>, all': seq<Trace>, i: nat)
    requires all <= all' && Simple(all') && i < |all'|
    ensures all'[i] in all <==> i < |all|
  {
    if all'[i] in all {
      var j :| 0 <= j < |all| && all[j] == all'[i];
      assert all'[j] == all'[i];
      assert i == j;
    } else if i < |all| {
      assert false;
    }
  }

  // With one worker a step adds the unseen children of the oldest unprocessed trace.
  lemma StepAddsChildren(g: PluginGraph, s: Scan, s': Scan)
    requires Step(g, 1, s, s') && Simple(s.all)
    ensures s.done < |s.all| && s'.done == s.done + 1 && s.all <= s'.all && Simple(s'.all)
    ensures forall t :: t in s'.all <==> t in s.all || IsChild(g, s.all[s.done], t)
  {
    StepAdds(g, 1, s, s');
  }

  lemma RelabelAt(s: Scan, all': seq<Trace>, dist: map<Trace, nat>, i: nat)
    requires s.done < |s.all| && s.all <= all' && Simple(all') && i < |all'|
    requires forall t :: t in dist <==> t in s.all
    ensures Relabel(s, all', dist)[all'[i]] == if i < |s.all| then dist[s.all[i]] else dist[s.all[s.done]] + 1
  {
    NewItem(s.all, all', i);
    assert i < |s.all| ==> all'[i] == s.all[i];
  }

  lemma StepKeepsOrder(g: PluginGraph, seed: Trace, s: Scan, s': Scan, dist: map<Trace, nat>, i: nat, j: nat)
    requires Layered(g, seed, s, dist) && Step(g, 1, s, s') && i <= j < |s'.all|
    ensures s'.all[i] in Relabel(s, s'.all, dist) && s'.all[j] in Relabel(s, s'.all, dist)
    ensures Relabel(s, s'.all, dist)[s'.all[i]] <= Relabel(s, s'.all, dist)[s'.all[j]]
    ensures s.done <= i ==> Relabel(s, s'.all, dist)[s'.all[j]] <= Relabel(s, s'.all, dist)[s'.all[i]] + 1
  {
    StepAddsChildren(g, s, s');
    RelabelAt(s, s'.all, dist, i);
    RelabelAt(s, s'.all, dist, j);
    var n := |s.all|;
    assert i < n ==> dist[s.all[i]] <= dist[s.all[n - 1]];
    assert j < n ==> dist[s.all[j]] <= dist[s.all[n - 1]];
    assert s.done <= i < n ==> dist[s.all[s.done]] <= dist[s.all[i]];
  }

  lemma StepKeepsChildren(g: PluginGraph, seed: Trace, s: Scan, s': Scan, dist: map<Trace, nat>, i: nat, t: Trace)
    requires Layered(g, seed, s, dist) && Step(g, 1, s, s') && i < s'.done <= |s'.all| && IsChild(g, s'.all[i], t)
    ensures t in Relabel(s, s'.all, dist) && s'.all[i] in Relabel(s, s'.all, dist)
    ensures Relabel(s, s'.all, dist)[t] <= Relabel(s, s'.all, dist)[s'.all[i]] + 1
  {
    StepAddsChildren(g, s, s');
    RelabelAt(s, s'.all, dist, i);
    assert s'.all[i] == s.all[i];
    if t in dist {
      var j :| 0 <= j < |s.all| && s.all[j] == t;
      assert i == s.done ==> dist[s.all[j]] <= dist[s.all[|s.all| - 1]];
    }
  }

  lemma StepLayered(g: PluginGraph, seed: Trace, s: Scan, s': Scan, dist: map<Trace, nat>)
    requires Layered(g, seed, s, dist) && Step(g, 1, s, s')
    ensures Layered(g, seed, s', Relabel(s, s'.all, dist))
  {
    StepSound(g, 1, seed, s, s');
    StepAddsChildren(g, s, s');
    var dist' := Relabel(s, s'.all, dist);
    forall i, j | 0 <= i <= j < |s'.all|
      ensures dist'[s'.all[i]] <= dist'[s'.all[j]]
    {
      StepKeepsOrder(g, seed, s, s', dist, i, j);
    }
    if s'.done < |s'.all| {
      StepKeepsOrder(g, seed, s, s', dist, s'.done, |s'.all| - 1);
    }
    forall i, t | 0 <= i < s'.done && IsChild(g, s'.all[i], t)
      ensures t in dist' && dist'[t] <= dist'[s'.all[i]] + 1
    {
      StepKeepsChildren(g, seed, s, s', dist, i, t);
    }
  }

  lemma StepWalked(g: PluginGraph, seed: Trace, s: Scan, s': Scan, dist: map<Trace, nat>)
    requires Simple(s.all) && Step(g, 1, s, s') && Walked(g, seed, dist)
    requires forall t :: t in dist <==> t in s.all
    ensures Walked(g, seed, Relabel(s, s'.all, dist))
  {
    StepAddsChildren(g, s, s');
    var u, dist' := s.all[s.done], Relabel(s, s'.all, dist);
    var w :| Joins(Children(g), seed, u, w) && |w| == dist[u] + 1;
    forall t | t in dist'
      ensures exists w :: Joins(Children(g), seed, t, w) && |w| == dist'[t] + 1
    {
      if t !in dist {
        ExtendWalk(Children(g), seed, u, t, w);
        assert |w + [t]| == dist'[t] + 1;
      } else {
        var v :| Joins(Children(g), seed, t, v) && |v| == dist[t] + 1;
        assert dist'[t] == dist[t];
      }
    }
  }

  lemma {:induction false} RunLayered(g: PluginGraph, seed: Trace, run: seq<Scan>) returns (dist: map<Trace, nat>)
    requires IsRun(g, 1, seed, run)
    ensures Layered(g, seed, run[|run| - 1], dist) && Walked(g, seed, dist)
    decreases |run|
  {
    if |run| == 1 {
      dist := map[seed := 0];
      assert Joins(Children(g), seed, seed, [seed]);
      RunSound(g, 1, seed, run);
    } else {
      var n := |run| - 1;
      dist := RunLayered(g, seed, run[..n]);
      assert Step(g, 1, run[n - 1], run[n]);
      StepLayered(g, seed, run[n - 1], run[n], dist);
      StepWalked(g, seed, run[n - 1], run[n], dist);
      dist := Relabel(run[n - 1], run[n].all, dist);
    }
  }

  ghost predicate InHopOrder(g: PluginGraph, seed: Trace, all: seq<Trace>) {
    forall i, j, di: nat, dj: nat ::
      0 <= i < j < |all| && Distance(Children(g), seed, all[i], di) && Distance(Children(g), seed, all[j], dj)
      ==> di <= dj
  }

  lemma OneWorkerIsBreadthFirst(g: PluginGraph, seed: Trace, run: seq<Scan>)
    requires IsFinishedRun(g, 1, seed, run)
    ensures InHopOrder(g, seed, Results(run))
  {
    var dist := RunLayered(g, seed, run);
    var all := Results(run);
    forall u, v | u in dist && IsChild(g, u, v)
      ensures v in dist && dist[v] <= dist[u] + 1
    {
      var i :| 0 <= i < |all| && all[i] == u;
    }
    forall t | t in all
      ensures Distance(Children(g), seed, t, dist[t])
    {
      forall w | Joins(Children(g), seed, t, w)
        ensures |w| >= dist[t] + 1
      {
        LabelsBoundWalks(Children(g), seed, dist, |w|, w);
      }
    }
    forall i, j, di: nat, dj: nat |
      0 <= i < j < |all| && Distance(Children(g), seed, all[i], di) && Distance(Children(g), seed, all[j], dj)
      ensures di <= dj
    {
      DistanceIsUnique(Children(g), seed, all[i], di, dist[all[i]]);
      DistanceIsUnique(Children(g), seed, all[j], dj, dist[all[j]]);
    }
  }
}
