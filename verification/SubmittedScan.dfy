// The scan with the pool's duplicate check in it: a task whose id was submitted before is not
// run again. Ids leave out the trace's type, so two traces may compete for one task.
module SubmittedScan {
  import opened Entities
  import opened Walks
  import opened ScanMachine
  import opened Tasks

  // plugins: the eligible plugins of a trace; follow: what a plugin finds for it, without error.
  datatype Registry = Registry(plugins: Trace -> seq<string>, follow: (string, Trace) -> seq<Trace>)

  datatype Job = Job(trace: Trace, plugin: string)

  predicate IsJob(r: Registry, j: Job) {
    j.plugin in r.plugins(j.trace)
  }

  function JobId(j: Job): string {
    TaskId(j.trace, j.plugin)
  }

  function Follow(r: Registry, j: Job): seq<Trace> {
    r.follow(j.plugin, j.trace)
  }

  // ---- The graph if nothing were suppressed ----

  function FindsOf(name: string, children: seq<Trace>): (finds: seq<Find>)
    ensures |finds| == |children| && forall i :: 0 <= i < |finds| ==> finds[i] == Find(name, children[i])
  {
    seq(|children|, i requires 0 <= i < |children| => Find(name, children[i]))
  }

  function AllFinds(r: Registry, t: Trace, plugins: seq<string>): seq<Find> {
    if plugins == [] then []
    else
      var front, p := plugins[..|plugins| - 1], plugins[|plugins| - 1];
      AllFinds(r, t, front) + FindsOf(p, r.follow(p, t))
  }

  function FullGraph(r: Registry): PluginGraph {
    t => Found(AllFinds(r, t, r.plugins(t)))
  }

  lemma InFindsOf(name: string, children: seq<Trace>, f: Find)
    ensures f in FindsOf(name, children) <==> f.pluginName == name && f.child in children
  {
    if f.pluginName == name && f.child in children {
      var i :| 0 <= i < |children| && children[i] == f.child;
      assert FindsOf(name, children)[i] == f;
    }
  }

  lemma {:induction false} InAllFinds(r: Registry, t: Trace, plugins: seq<string>, f: Find)
    ensures f in AllFinds(r, t, plugins) <==> f.pluginName in plugins && f.child in r.follow(f.pluginName, t)
  {
    if plugins != [] {
      var front, p := plugins[..|plugins| - 1], plugins[|plugins| - 1];
      InAllFinds(r, t, front, f);
      InFindsOf(p, r.follow(p, t), f);
      assert plugins == front + [p];
    }
  }

  lemma ChildHasJob(r: Registry, a: Trace, b: Trace)
    ensures IsChild(FullGraph(r), a, b) <==> exists j: Job :: j.trace == a && IsJob(r, j) && b in Follow(r, j)
  {
    if f :| f in Finds(FullGraph(r), a) && f.child == b {
      InAllFinds(r, a, r.plugins(a), f);
      assert b in Follow(r, Job(a, f.pluginName));
    }
    if j: Job :| j.trace == a && IsJob(r, j) && b in Follow(r, j) {
      InAllFinds(r, a, r.plugins(a), Find(j.plugin, b));
      assert Find(j.plugin, b) in Finds(FullGraph(r), a);
    }
  }

  // ---- The worklist ----

  // submitted: the ids the duplicate check remembers, with room for all.
  datatype Progress = Progress(scan: Scan, submitted: set<string>)

  function Begin(seed: Trace): Progress {
    Progress(ScanMachine.Start(seed), {})
  }

  // Of the batch's jobs, one of each id not submitted before runs, whichever comes first.
  ghost predicate MayRun(r: Registry, batch: seq<Trace>, submitted: set<string>, ran: set<Job>) {
    && (forall j :: j in ran ==> j.trace in batch && IsJob(r, j) && JobId(j) !in submitted)
    && (forall j, k :: j in ran && k in ran && JobId(j) == JobId(k) ==> j == k)
    && (forall j: Job :: j.trace in batch && IsJob(r, j) ==> JobId(j) in submitted + Ids(ran))
  }

  function Ids(jobs: set<Job>): set<string> {
    set j | j in jobs :: JobId(j)
  }

  ghost predicate Yields(r: Registry, ran: set<Job>, ds: seq<Discovery>) {
    forall d :: d in ds <==> Job(d.parent, d.pluginName) in ran && d.child in r.follow(d.pluginName, d.parent)
  }

  ghost predicate StepBy(r: Registry, maxConcurrency: int, s: Progress, s': Progress, ran: set<Job>,
      ds: seq<Discovery>)
  {
    && s.scan.done < |s.scan.all| && 0 <= maxConcurrency
    && MayRun(r, Batch(s.scan, maxConcurrency), s.submitted, ran) && Yields(r, ran, ds)
    && s'.scan == Scan(Admit(s.scan.all, ds), s.scan.done + BatchSize(s.scan, maxConcurrency))
    && s'.submitted == s.submitted + Ids(ran)
  }

  ghost predicate Step(r: Registry, maxConcurrency: int, s: Progress, s': Progress) {
    exists ran, ds :: StepBy(r, maxConcurrency, s, s', ran, ds)
  }

  ghost predicate IsRun(r: Registry, maxConcurrency: int, seed: Trace, run: seq<Progress>) {
    && run != []
    && run[0] == Begin(seed)
    && forall i :: 0 < i < |run| ==> Step(r, maxConcurrency, run[i - 1], run[i])
  }

  ghost predicate IsFinishedRun(r: Registry, maxConcurrency: int, seed: Trace, run: seq<Progress>) {
    IsRun(r, maxConcurrency, seed, run) && run[|run| - 1].scan.done == |run[|run| - 1].scan.all|
  }

  function Results(run: seq<Progress>): seq<Trace>
    requires run != []
  {
    run[|run| - 1].scan.all
  }

  // ---- Finds that depend on the id alone ----

  ghost predicate FindsFollowIds(r: Registry) {
    forall j, k :: IsJob(r, j) && IsJob(r, k) && JobId(j) == JobId(k) ==>
      forall t :: t in Follow(r, j) ==> t in Follow(r, k)
  }

  // Some job of this id ran, and all it found is there.
  ghost predicate Covered(r: Registry, all: seq<Trace>, id: string) {
    exists j :: IsJob(r, j) && JobId(j) == id && forall t :: t in Follow(r, j) ==> t in all
  }

  ghost predicate Sound(r: Registry, seed: Trace, s: Progress) {
    && s.scan.done <= |s.scan.all|
    && s.scan.all != [] && s.scan.all[0] == seed && Simple(s.scan.all)
    && (forall t :: t in s.scan.all ==> Reachable(Children(FullGraph(r)), seed, t))
    && (forall id :: id in s.submitted ==> Covered(r, s.scan.all, id))
    && (forall i, j: Job :: 0 <= i < s.scan.done && j.trace == s.scan.all[i] && IsJob(r, j) ==> JobId(j) in s.submitted)
  }

  lemma StepReaches(r: Registry, maxConcurrency: int, seed: Trace, s: Progress, s': Progress, ran: set<Job>,
      ds: seq<Discovery>, t: Trace)
    requires Sound(r, seed, s) && StepBy(r, maxConcurrency, s, s', ran, ds) && t in s'.scan.all
    ensures Reachable(Children(FullGraph(r)), seed, t)
  {
    AdmitFacts(s.scan.all, ds);
    if t !in s.scan.all {
      var d: Discovery :| d in ds && d.child == t;
      var j := Job(d.parent, d.pluginName);
      assert j in ran && j.trace in Batch(s.scan, maxConcurrency);
      assert IsJob(r, j) && t in Follow(r, j) && j.trace in s.scan.all;
      ChildHasJob(r, j.trace, t);
      var w :| Joins(Children(FullGraph(r)), seed, j.trace, w);
      ExtendWalk(Children(FullGraph(r)), seed, j.trace, t, w);
    }
  }

  lemma StepCovers(r: Registry, maxConcurrency: int, seed: Trace, s: Progress, s': Progress, ran: set<Job>,
      ds: seq<Discovery>, id: string)
    requires Sound(r, seed, s) && StepBy(r, maxConcurrency, s, s', ran, ds) && id in s'.submitted
    ensures Covered(r, s'.scan.all, id)
  {
    AdmitFacts(s.scan.all, ds);
    if id in s.submitted {
      var j :| IsJob(r, j) && JobId(j) == id && forall t :: t in Follow(r, j) ==> t in s.scan.all;
      assert forall t :: t in s.scan.all ==> t in s'.scan.all;
    } else {
      var j :| j in ran && JobId(j) == id;
      forall t | t in Follow(r, j)
        ensures t in s'.scan.all
      {
        assert Discovery(j.trace, j.plugin, t) in ds;
      }
    }
  }

  lemma StepSound(r: Registry, maxConcurrency: int, seed: Trace, s: Progress, s': Progress)
    requires Sound(r, seed, s) && Step(r, maxConcurrency, s, s')
    ensures Sound(r, seed, s')
  {
    var ran, ds :| StepBy(r, maxConcurrency, s, s', ran, ds);
    AdmitFacts(s.scan.all, ds);
    forall t | t in s'.scan.all
      ensures Reachable(Children(FullGraph(r)), seed, t)
    {
      StepReaches(r, maxConcurrency, seed, s, s', ran, ds, t);
    }
    forall id | id in s'.submitted
      ensures Covered(r, s'.scan.all, id)
    {
      StepCovers(r, maxConcurrency, seed, s, s', ran, ds, id);
    }
    forall i, j: Job | 0 <= i < s'.scan.done && j.trace == s'.scan.all[i] && IsJob(r, j)
      ensures JobId(j) in s'.submitted
    {
      assert s'.scan.all[i] == s.scan.all[i];
      if i >= s.scan.done {
        assert Batch(s.scan, maxConcurrency)[i - s.scan.done] == j.trace;
      }
    }
  }

  lemma {:induction false} RunSound(r: Registry, maxConcurrency: int, seed: Trace, run: seq<Progress>)
    requires IsRun(r, maxConcurrency, seed, run)
    ensures Sound(r, seed, run[|run| - 1])
    decreases |run|
  {
    if |run| == 1 {
      assert Joins(Children(FullGraph(r)), seed, seed, [seed]);
    } else {
      var n := |run| - 1;
      RunSound(r, maxConcurrency, seed, run[..n]);
      assert Step(r, maxConcurrency, run[n - 1], run[n]);
      StepSound(r, maxConcurrency, seed, run[n - 1], run[n]);
    }
  }

  // If what a plugin finds depends on the task id alone, suppressing repeated ids loses
  // nothing: every schedule ends with exactly the traces reachable when all jobs run.
  lemma SuppressionLosesNothing(r: Registry, maxConcurrency: int, seed: Trace, run: seq<Progress>)
    requires FindsFollowIds(r) && IsFinishedRun(r, maxConcurrency, seed, run)
    ensures Simple(Results(run)) && Results(run) != [] && Results(run)[0] == seed
    ensures forall t :: t in Results(run) <==> Reachable(Children(FullGraph(r)), seed, t)
  {
    var all, g := Results(run), FullGraph(r);
    RunSound(r, maxConcurrency, seed, run);
    var ts := iset t | t in all;
    forall a, b | a in ts && IsChild(g, a, b)
      ensures b in ts
    {
      ChildHasJob(r, a, b);
      var j: Job :| j.trace == a && IsJob(r, j) && b in Follow(r, j);
      var i :| 0 <= i < |all| && all[i] == a;
      var k :| IsJob(r, k) && JobId(k) == JobId(j) && forall t :: t in Follow(r, k) ==> t in all;
    }
    forall t | Reachable(Children(g), seed, t)
      ensures t in all
    {
      var w :| Joins(Children(g), seed, t, w);
      WalkStaysInside(g, ts, w);
    }
  }

  // So such a scan agrees, up to order, with every scan that suppresses nothing.
  lemma SuppressedRunsAgree(r: Registry, seed: Trace, c1: int, run1: seq<Progress>, c2: int, run2: seq<Scan>)
    requires FindsFollowIds(r) && IsFinishedRun(r, c1, seed, run1)
    requires ScanMachine.IsFinishedRun(FullGraph(r), c2, seed, run2)
    ensures multiset(Results(run1)) == multiset(ScanMachine.Results(run2))
  {
    SuppressionLosesNothing(r, c1, seed, run1);
    ScanMachine.ResultsAreTheClosure(FullGraph(r), c2, seed, run2);
    SimpleCounts(Results(run1));
    SimpleCounts(ScanMachine.Results(run2));
  }

  // ---- In terms of values and plugin names ----

  // What a plugin finds for a trace depends on the trace's value, not on its type.
  ghost predicate FindsFollowValues(r: Registry) {
    forall a, b, p :: p in r.plugins(a) && p in r.plugins(b) && a.value == b.value ==>
      forall t :: t in r.follow(p, a) ==> t in r.follow(p, b)
  }

  ghost predicate PlainNames(r: Registry) {
    forall t, p :: p in r.plugins(t) ==> ':' !in p
  }

  // Some eligible plugin of a finds b.
  ghost predicate LeadsTo(r: Registry, a: Trace, b: Trace) {
    exists p :: p in r.plugins(a) && b in r.follow(p, a)
  }

  ghost function Findings(r: Registry): Graph<Trace> {
    (a, b) => LeadsTo(r, a, b)
  }

  lemma ChildrenAreFound(r: Registry, seed: Trace, t: Trace)
    ensures Reachable(Children(FullGraph(r)), seed, t) <==> Reachable(Findings(r), seed, t)
  {
    forall a, b
      ensures Children(FullGraph(r))(a, b) <==> Findings(r)(a, b)
    {
      ChildHasJob(r, a, b);
      if LeadsTo(r, a, b) {
        var p :| p in r.plugins(a) && b in r.follow(p, a);
        assert IsJob(r, Job(a, p)) && b in Follow(r, Job(a, p));
      }
    }
    forall w
      ensures Joins(Children(FullGraph(r)), seed, t, w) <==> Joins(Findings(r), seed, t, w)
    {
    }
  }

  lemma ValuesFixIds(r: Registry)
    requires FindsFollowValues(r) && PlainNames(r)
    ensures FindsFollowIds(r)
  {
    forall j, k | IsJob(r, j) && IsJob(r, k) && JobId(j) == JobId(k)
      ensures forall t :: t in Follow(r, j) ==> t in Follow(r, k)
    {
      TaskIdIgnoresType(j.trace, j.plugin, k.trace, k.plugin);
    }
  }

  // For plugins that look at the value alone, under names without a colon, the duplicate check
  // never costs a result: every schedule ends with all that eligible plugins lead to.
  lemma SuppressionIsSafe(r: Registry, maxConcurrency: int, seed: Trace, run: seq<Progress>)
    requires FindsFollowValues(r) && PlainNames(r) && IsFinishedRun(r, maxConcurrency, seed, run)
    ensures Simple(Results(run)) && forall t :: t in Results(run) <==> Reachable(Findings(r), seed, t)
  {
    ValuesFixIds(r);
    SuppressionLosesNothing(r, maxConcurrency, seed, run);
    forall t
      ensures t in Results(run) <==> Reachable(Findings(r), seed, t)
    {
      ChildrenAreFound(r, seed, t);
    }
  }

  // ---- No task twice ----

  // The run with what each of its batches ran and found.
  ghost predicate IsRunBy(r: Registry, maxConcurrency: int, seed: Trace, run: seq<Progress>, rans: seq<set<Job>>,
      found: seq<seq<Discovery>>)
  {
    && |run| == |rans| + 1 && |found| == |rans| && run[0] == Begin(seed)
    && forall i :: 0 <= i < |rans| ==> StepBy(r, maxConcurrency, run[i], run[i + 1], rans[i], found[i])
  }

  lemma {:induction false} RunIsSubmitted(r: Registry, maxConcurrency: int, seed: Trace, run: seq<Progress>,
      rans: seq<set<Job>>, found: seq<seq<Discovery>>, i: nat, j: nat)
    requires IsRunBy(r, maxConcurrency, seed, run, rans, found) && i < j <= |rans|
    ensures Ids(rans[i]) <= run[j].submitted
  {
    assert StepBy(r, maxConcurrency, run[j - 1], run[j - 1 + 1], rans[j - 1], found[j - 1]);
    if i < j - 1 {
      RunIsSubmitted(r, maxConcurrency, seed, run, rans, found, i, j - 1);
    }
  }

  // Over a whole run no plugin is asked twice about one value.
  lemma EachTaskRunsOnce(r: Registry, maxConcurrency: int, seed: Trace, run: seq<Progress>, rans: seq<set<Job>>,
      found: seq<seq<Discovery>>, i: nat, a: Job, j: nat, b: Job)
    requires IsRunBy(r, maxConcurrency, seed, run, rans, found)
    requires i <= j < |rans| && a in rans[i] && b in rans[j] && a.trace.value == b.trace.value && a.plugin == b.plugin
    ensures i == j && a == b
  {
    assert JobId(a) == JobId(b) && JobId(a) in Ids(rans[i]);
    assert StepBy(r, maxConcurrency, run[j], run[j + 1], rans[j], found[j]);
    if i < j {
      RunIsSubmitted(r, maxConcurrency, seed, run, rans, found, i, j);
    }
  }

  // ---- Finds that depend on the type ----

  const SEED := Trace("seed", "username")
  const AS_DOMAIN := Trace("example.com", "domain")
  const AS_SUBDOMAIN := Trace("example.com", "subdomain")
  const FIRST := Trace("first", "phone")
  const SECOND := Trace("second", "phone")

  // The DNS records plugin is registered for both types; for one value its ids are the same.
  lemma TypesShareAnId()
    ensures AS_DOMAIN != AS_SUBDOMAIN
    ensures JobId(Job(AS_DOMAIN, "DNSRecordsPlugin")) == JobId(Job(AS_SUBDOMAIN, "DNSRecordsPlugin"))
  {
  }

  // A plugin of this kind that told the types apart.
  function TypedPlugins(t: Trace): seq<string> {
    if t == SEED then ["p"] else if t == AS_DOMAIN || t == AS_SUBDOMAIN then ["DNSRecordsPlugin"] else []
  }

  function TypedFollow(p: string, t: Trace): seq<Trace> {
    if t == SEED then [AS_DOMAIN, AS_SUBDOMAIN]
    else if t == AS_DOMAIN then [FIRST]
    else if t == AS_SUBDOMAIN then [SECOND]
    else []
  }

  function Typed(): Registry {
    Registry(TypedPlugins, TypedFollow)
  }

  // The run in which the one of the two traces that finds `found` is submitted first.
  function TypedRun(found: Trace): seq<Progress> {
    var seedId, id := JobId(Job(SEED, "p")), JobId(Job(AS_DOMAIN, "DNSRecordsPlugin"));
    var both := [SEED, AS_DOMAIN, AS_SUBDOMAIN];
    [Begin(SEED), Progress(Scan(both, 1), {seedId}), Progress(Scan(both + [found], 3), {seedId, id}),
     Progress(Scan(both + [found], 4), {seedId, id})]
  }

  lemma SeedStep(c: int, found: Trace)
    requires c >= 2
    ensures Step(Typed(), c, TypedRun(found)[0], TypedRun(found)[1])
  {
    var s, s', job := TypedRun(found)[0], TypedRun(found)[1], Job(SEED, "p");
    var ds := [Discovery(SEED, "p", AS_DOMAIN), Discovery(SEED, "p", AS_SUBDOMAIN)];
    assert Batch(s.scan, c) == [SEED];
    assert ds[..1] == [ds[0]] && ds[..1][..0] == [];
    assert Admit([SEED], ds[..1]) == [SEED, AS_DOMAIN];
    assert Admit([SEED], ds) == [SEED, AS_DOMAIN, AS_SUBDOMAIN];
    assert Ids({job}) == {JobId(job)};
    assert StepBy(Typed(), c, s, s', {job}, ds);
  }

  lemma EitherMayRun(winner: Trace)
    requires winner == AS_DOMAIN || winner == AS_SUBDOMAIN
    ensures var job := Job(winner, "DNSRecordsPlugin");
            && MayRun(Typed(), [AS_DOMAIN, AS_SUBDOMAIN], {JobId(Job(SEED, "p"))}, {job})
            && Ids({job}) == {JobId(Job(AS_DOMAIN, "DNSRecordsPlugin"))}
  {
    var job := Job(winner, "DNSRecordsPlugin");
    TypesShareAnId();
    assert Ids({job}) == {JobId(job)};
    assert JobId(job)[0] == 'e' && JobId(Job(SEED, "p"))[0] == 's';
  }

  lemma RaceStep(c: int, winner: Trace, found: Trace)
    requires c >= 2
    requires (winner == AS_DOMAIN && found == FIRST) || (winner == AS_SUBDOMAIN && found == SECOND)
    ensures Step(Typed(), c, TypedRun(found)[1], TypedRun(found)[2])
  {
    var s, s', job := TypedRun(found)[1], TypedRun(found)[2], Job(winner, "DNSRecordsPlugin");
    var ds := [Discovery(winner, "DNSRecordsPlugin", found)];
    assert Batch(s.scan, c) == [AS_DOMAIN, AS_SUBDOMAIN];
    EitherMayRun(winner);
    AdmitOne(s.scan.all, ds[0]);
    assert Yields(Typed(), {job}, ds);
    assert StepBy(Typed(), c, s, s', {job}, ds);
  }

  lemma LastStep(c: int, found: Trace)
    requires c >= 2 && (found == FIRST || found == SECOND)
    ensures Step(Typed(), c, TypedRun(found)[2], TypedRun(found)[3])
  {
    var s, s' := TypedRun(found)[2], TypedRun(found)[3];
    assert Batch(s.scan, c) == [found];
    assert Ids({}) == {};
    assert StepBy(Typed(), c, s, s', {}, []);
  }

  lemma RaceFinishes(c: int, winner: Trace, found: Trace)
    requires c >= 2
    requires (winner == AS_DOMAIN && found == FIRST) || (winner == AS_SUBDOMAIN && found == SECOND)
    ensures IsFinishedRun(Typed(), c, SEED, TypedRun(found))
  {
    SeedStep(c, found);
    RaceStep(c, winner, found);
    LastStep(c, found);
  }

  // Then two schedules of one scan end with different traces.
  lemma ScheduleDecides(c: int)
    requires c >= 2
    ensures IsFinishedRun(Typed(), c, SEED, TypedRun(FIRST)) && IsFinishedRun(Typed(), c, SEED, TypedRun(SECOND))
    ensures FIRST in Results(TypedRun(FIRST)) && FIRST !in Results(TypedRun(SECOND))
  {
    RaceFinishes(c, AS_DOMAIN, FIRST);
    RaceFinishes(c, AS_SUBDOMAIN, SECOND);
    assert Results(TypedRun(FIRST))[3] == FIRST;
    assert FIRST.value[0] == 'f' && SECOND.value[0] == 's';
  }
}
