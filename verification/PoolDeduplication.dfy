// The worker pool and the duplicate check together. Each check is one atomic action of its
// caller, apart from the reply or the submission that follows it; the memory cache answers.
module PoolDeduplication {
  import opened Entities
  import opened LruOrder
  import opened WorkerPool
  import opened PoolGuarantees
  import opened PoolOrder
  import opened Tasks

  // checks: the ids checked so far, in order. passed and hits: the tasks whose check found
  // nothing, or a duplicate.
  datatype Shared = Shared(pool: Pool, checks: seq<string>, passed: set<Task>, hits: set<Task>)

  datatype SharedEvent = Check(c: nat) | Act(event: Event)

  predicate IsTask(cfg: Config, s: Pool, t: Task) {
    IsCall(s, t.call) && t.idx < |Candidates(cfg, s.calls[t.call].trace)|
  }

  // TraceProcessingTask.GetID
  function IdOf(cfg: Config, s: Pool, t: Task): string
    requires IsTask(cfg, s, t)
  {
    TaskId(s.calls[t.call].trace, PluginOf(cfg, s, t).name)
  }

  // The task of the candidate at hand.
  function Current(s: Pool, c: nat): Task
    requires IsCall(s, c)
  {
    Task(c, s.calls[c].next)
  }

  // Submit checks a task once; only then does it reply to a duplicate, or go on.
  predicate CanHappen(cfg: Config, s: Shared, ev: SharedEvent) {
    match ev
    case Check(c) => AtEligible(cfg, s.pool, c) && Current(s.pool, c) !in s.passed + s.hits
    case Act(e) =>
      && Enabled(cfg, s.pool, e)
      && (e.Dedup? ==> Current(s.pool, e.c) in s.hits)
      && (e.Reject? || e.Enqueue? ==> Current(s.pool, e.c) in s.passed)
  }

  // The memory of an LRU cache of this size answers a check.
  function After(cfg: Config, size: int, s: Shared, ev: SharedEvent): Shared
    requires CanHappen(cfg, s, ev)
  {
    match ev
    case Check(c) =>
      var t := Current(s.pool, c);
      var id := IdOf(cfg, s.pool, t);
      if id in Memory(s.checks, size) then s.(checks := s.checks + [id], hits := s.hits + {t})
      else s.(checks := s.checks + [id], passed := s.passed + {t})
    case Act(e) => s.(pool := Next(cfg, s.pool, e))
  }

  ghost predicate Leads(cfg: Config, size: int, s: Shared, evs: seq<SharedEvent>, s': Shared)
    decreases |evs|
  {
    if evs == [] then s' == s
    else CanHappen(cfg, s, evs[0]) && Leads(cfg, size, After(cfg, size, s, evs[0]), evs[1..], s')
  }

  ghost predicate SharedReachable(cfg: Config, size: int, s: Shared) {
    exists workers: nat, evs :: Leads(cfg, size, Shared(WorkerPool.Start(workers), [], {}, {}), evs, s)
  }

  function Distinct(ids: seq<string>): set<string> {
    set id | id in ids
  }

  // The cache has room for every id checked so far.
  predicate HasRoom(s: Shared, size: int) {
    |Distinct(s.checks)| <= size
  }

  ghost predicate HasId(cfg: Config, s: Pool, t: Task, id: string) {
    IsTask(cfg, s, t) && IdOf(cfg, s, t) == id
  }

  // Task t was answered as a duplicate.
  ghost predicate AnsweredDuplicate(s: Pool, t: Task) {
    InChannel(s, Reply(t, Deduplicated))
  }

  // Every checked task stands for one of the checked ids.
  ghost predicate TasksChecked(cfg: Config, s: Shared) {
    forall t :: t in s.passed || t in s.hits ==> IsTask(cfg, s.pool, t) && IdOf(cfg, s.pool, t) in s.checks
  }

  ghost predicate SomePassed(cfg: Config, s: Shared, id: string) {
    exists t :: t in s.passed && HasId(cfg, s.pool, t, id)
  }

  ghost predicate IdsPassed(cfg: Config, s: Shared) {
    forall id :: id in s.checks ==> SomePassed(cfg, s, id)
  }

  ghost predicate PassedOnce(cfg: Config, s: Shared) {
    forall t, u, id ::
      t in s.passed && u in s.passed && HasId(cfg, s.pool, t, id) && HasId(cfg, s.pool, u, id) ==> t == u
  }

  ghost predicate AcceptedOk(s: Shared) {
    forall t :: t in s.pool.accepted ==> t in s.passed || (t in s.hits && AnsweredDuplicate(s.pool, t))
  }

  // A duplicate's reply is only sent for a task whose check found a duplicate.
  ghost predicate DuplicatesOk(s: Shared) {
    && s.passed !! s.hits
    && forall t :: Holds(s.pool, Reply(t, Deduplicated)) ==> t in s.hits
  }

  ghost predicate SharedOk(cfg: Config, size: int, s: Shared) {
    && Inv(cfg, s.pool) && TasksChecked(cfg, s) && IdsPassed(cfg, s)
    && (HasRoom(s, size) ==> PassedOnce(cfg, s))
    && AcceptedOk(s) && DuplicatesOk(s)
  }

  // What is remembered was checked; with room, what was checked is remembered.
  lemma RoomRemembers(h: seq<string>, id: string, size: int)
    ensures id in Memory(h, size) ==> id in h
    ensures |Distinct(h)| <= size && id in h ==> id in Memory(h, size)
  {
    HitIffFewSeenSince(h, id, size);
    if |Distinct(h)| <= size && id in h {
      EachIdAdmittedOnce(h, id, size, Distinct(h));
    }
  }

  lemma RoomBefore(h: seq<string>, id: string)
    ensures |Distinct(h)| <= |Distinct(h + [id])|
  {
    assert Distinct(h) <= Distinct(h + [id]);
    SubsetSize(Distinct(h), Distinct(h + [id]));
  }

  // A check adds one task, to those that passed unless its id is remembered.
  ghost predicate Checked(cfg: Config, size: int, s: Shared, s': Shared, t: Task, id: string) {
    && HasId(cfg, s.pool, t, id) && s'.pool == s.pool && s'.checks == s.checks + [id]
    && if id in Memory(s.checks, size) then s'.hits == s.hits + {t} && s'.passed == s.passed
       else s'.passed == s.passed + {t} && s'.hits == s.hits
  }

  lemma CheckedIdsPassed(cfg: Config, size: int, s: Shared, s': Shared, t: Task, id: string)
    requires Checked(cfg, size, s, s', t, id) && IdsPassed(cfg, s)
    ensures IdsPassed(cfg, s')
  {
    RoomRemembers(s.checks, id, size);
    forall x | x in s'.checks
      ensures SomePassed(cfg, s', x)
    {
      if x in s.checks {
        var u :| u in s.passed && HasId(cfg, s.pool, u, x);
        assert u in s'.passed && HasId(cfg, s'.pool, u, x);
      } else {
        assert t in s'.passed && HasId(cfg, s'.pool, t, x);
      }
    }
  }

  lemma CheckedPassedOnce(cfg: Config, size: int, s: Shared, s': Shared, t: Task, id: string)
    requires Checked(cfg, size, s, s', t, id) && TasksChecked(cfg, s)
    requires HasRoom(s', size) && (HasRoom(s, size) ==> PassedOnce(cfg, s))
    ensures PassedOnce(cfg, s')
  {
    RoomRemembers(s.checks, id, size);
    RoomBefore(s.checks, id);
    forall u, x | u in s.passed && HasId(cfg, s.pool, u, x)
      ensures x in s.checks
    {
    }
  }

  lemma CheckedTasks(cfg: Config, size: int, s: Shared, s': Shared, t: Task, id: string)
    requires Checked(cfg, size, s, s', t, id) && TasksChecked(cfg, s)
    ensures TasksChecked(cfg, s')
  {
  }

  lemma CheckedAnswers(cfg: Config, size: int, s: Shared, s': Shared, t: Task, id: string)
    requires Checked(cfg, size, s, s', t, id) && t !in s.passed + s.hits && AcceptedOk(s) && DuplicatesOk(s)
    ensures AcceptedOk(s') && DuplicatesOk(s')
  {
  }

  lemma CheckKeeps(cfg: Config, size: int, s: Shared, c: nat)
    requires SharedOk(cfg, size, s) && CanHappen(cfg, s, Check(c))
    ensures SharedOk(cfg, size, After(cfg, size, s, Check(c)))
  {
    var s', t := After(cfg, size, s, Check(c)), Current(s.pool, c);
    var id := IdOf(cfg, s.pool, t);
    assert Checked(cfg, size, s, s', t, id);
    CheckedTasks(cfg, size, s, s', t, id);
    CheckedAnswers(cfg, size, s, s', t, id);
    CheckedIdsPassed(cfg, size, s, s', t, id);
    if HasRoom(s', size) {
      CheckedPassedOnce(cfg, size, s, s', t, id);
    }
  }

  lemma IdKept(cfg: Config, s: Pool, ev: Event, t: Task)
    requires Enabled(cfg, s, ev) && IsTask(cfg, s, t)
    ensures IsTask(cfg, Next(cfg, s, ev), t) && IdOf(cfg, Next(cfg, s, ev), t) == IdOf(cfg, s, t)
  {
    TracesKept(cfg, s, ev);
  }

  // Only a reply to a duplicate and a submission accept a task.
  lemma AcceptedComesFrom(cfg: Config, s: Pool, ev: Event, t: Task)
    requires Enabled(cfg, s, ev) && t in Next(cfg, s, ev).accepted && t !in s.accepted
    ensures (ev.Dedup? || ev.Enqueue?) && t == Current(s, ev.c)
  {
  }

  lemma DuplicateIsAnswered(cfg: Config, s: Pool, c: nat)
    requires Enabled(cfg, s, Dedup(c))
    ensures AnsweredDuplicate(Next(cfg, s, Dedup(c)), Current(s, c))
  {
    var r := Reply(Current(s, c), Deduplicated);
    assert Next(cfg, s, Dedup(c)).calls[c].replyTo == s.calls[c].replyTo + [r];
  }

  lemma AcceptedKept(cfg: Config, s: Shared, e: Event, t: Task)
    requires Inv(cfg, s.pool) && CanHappen(cfg, s, Act(e)) && t in Next(cfg, s.pool, e).accepted
    requires AcceptedOk(s)
    ensures t in s.passed || (t in s.hits && AnsweredDuplicate(Next(cfg, s.pool, e), t))
  {
    if t !in s.pool.accepted {
      AcceptedComesFrom(cfg, s.pool, e, t);
      if e.Dedup? {
        DuplicateIsAnswered(cfg, s.pool, e.c);
      }
    } else if t !in s.passed {
      InvOwnReplies(cfg, s.pool);
      ChannelReplyKept(cfg, s.pool, e, Reply(t, Deduplicated));
    }
  }

  // The pool moves on; every checked task keeps its id.
  ghost predicate Moved(cfg: Config, s: Shared, s': Shared) {
    && s'.checks == s.checks && s'.passed == s.passed && s'.hits == s.hits
    && forall t :: IsTask(cfg, s.pool, t) ==>
         IsTask(cfg, s'.pool, t) && IdOf(cfg, s'.pool, t) == IdOf(cfg, s.pool, t)
  }

  lemma MovedIdsPassed(cfg: Config, s: Shared, s': Shared)
    requires Moved(cfg, s, s') && IdsPassed(cfg, s)
    ensures IdsPassed(cfg, s')
  {
    forall id | id in s'.checks
      ensures SomePassed(cfg, s', id)
    {
      var t :| t in s.passed && HasId(cfg, s.pool, t, id);
      assert t in s'.passed && HasId(cfg, s'.pool, t, id);
    }
  }

  lemma MovedPassedOnce(cfg: Config, s: Shared, s': Shared)
    requires Moved(cfg, s, s') && TasksChecked(cfg, s)
    ensures TasksChecked(cfg, s')
    ensures PassedOnce(cfg, s) ==> PassedOnce(cfg, s')
  {
    forall t, id | t in s.passed && HasId(cfg, s'.pool, t, id)
      ensures HasId(cfg, s.pool, t, id)
    {
    }
  }

  lemma DuplicatesKept(cfg: Config, s: Shared, e: Event)
    requires Inv(cfg, s.pool) && DuplicatesOk(s) && CanHappen(cfg, s, Act(e))
    ensures DuplicatesOk(s.(pool := Next(cfg, s.pool, e)))
  {
    InvOwnReplies(cfg, s.pool);
    forall t | Holds(Next(cfg, s.pool, e), Reply(t, Deduplicated))
      ensures t in s.hits
    {
      RepliesComeFrom(cfg, s.pool, e, Reply(t, Deduplicated));
    }
  }

  lemma ActKeeps(cfg: Config, size: int, s: Shared, e: Event)
    requires SharedOk(cfg, size, s) && CanHappen(cfg, s, Act(e))
    ensures SharedOk(cfg, size, After(cfg, size, s, Act(e)))
  {
    var s' := After(cfg, size, s, Act(e));
    InvKept(cfg, s.pool, e);
    forall t | IsTask(cfg, s.pool, t)
      ensures IsTask(cfg, s'.pool, t) && IdOf(cfg, s'.pool, t) == IdOf(cfg, s.pool, t)
    {
      IdKept(cfg, s.pool, e, t);
    }
    MovedIdsPassed(cfg, s, s');
    MovedPassedOnce(cfg, s, s');
    forall t | t in s'.pool.accepted
      ensures t in s'.passed || (t in s'.hits && AnsweredDuplicate(s'.pool, t))
    {
      AcceptedKept(cfg, s, e, t);
    }
    DuplicatesKept(cfg, s, e);
  }

  lemma {:induction false} SharedOkAlways(cfg: Config, size: int, s: Shared, evs: seq<SharedEvent>, s': Shared)
    requires SharedOk(cfg, size, s) && Leads(cfg, size, s, evs, s')
    ensures SharedOk(cfg, size, s')
    decreases |evs|
  {
    if evs != [] {
      match evs[0] {
        case Check(c) => CheckKeeps(cfg, size, s, c);
        case Act(e) => ActKeeps(cfg, size, s, e);
      }
      SharedOkAlways(cfg, size, After(cfg, size, s, evs[0]), evs[1..], s');
    }
  }

  lemma ReachableOk(cfg: Config, size: int, s: Shared)
    requires SharedReachable(cfg, size, s)
    ensures SharedOk(cfg, size, s)
  {
    var workers: nat, evs :| Leads(cfg, size, Shared(WorkerPool.Start(workers), [], {}, {}), evs, s);
    InvAtStart(cfg, workers);
    SharedOkAlways(cfg, size, Shared(WorkerPool.Start(workers), [], {}, {}), evs, s);
  }

  // While the cache has room for all ids, of the accepted tasks that share an id at most one
  // was not answered as a duplicate.
  lemma OneTaskPerId(cfg: Config, size: int, s: Shared, t: Task, u: Task, id: string)
    requires SharedReachable(cfg, size, s) && HasRoom(s, size)
    requires t in s.pool.accepted && u in s.pool.accepted
    requires HasId(cfg, s.pool, t, id) && HasId(cfg, s.pool, u, id)
    requires !AnsweredDuplicate(s.pool, t) && !AnsweredDuplicate(s.pool, u)
    ensures t == u
  {
    ReachableOk(cfg, size, s);
  }

  // Of the tasks with a checked id exactly one passed the check, and every other accepted one
  // was answered as a duplicate of it, even if the pool refused that one afterwards.
  lemma FirstOfItsId(cfg: Config, size: int, s: Shared, id: string) returns (first: Task)
    requires SharedReachable(cfg, size, s) && HasRoom(s, size) && id in s.checks
    ensures first in s.passed && HasId(cfg, s.pool, first, id)
    ensures forall t :: t in s.passed && HasId(cfg, s.pool, t, id) ==> t == first
    ensures forall t :: t in s.pool.accepted && HasId(cfg, s.pool, t, id) && t != first ==> AnsweredDuplicate(s.pool, t)
  {
    ReachableOk(cfg, size, s);
    assert SomePassed(cfg, s, id);
    first :| first in s.passed && HasId(cfg, s.pool, first, id);
  }

  lemma AcceptedWasChecked(cfg: Config, size: int, s: Shared, t: Task)
    requires SharedReachable(cfg, size, s) && t in s.pool.accepted
    ensures IsTask(cfg, s.pool, t) && IdOf(cfg, s.pool, t) in s.checks
  {
    ReachableOk(cfg, size, s);
  }

  // ---- The pool under the duplicate check ----

  lemma {:induction false} LeadsIsRun(cfg: Config, size: int, s: Shared, evs: seq<SharedEvent>, s': Shared)
    returns (acts: seq<Event>)
    requires Leads(cfg, size, s, evs, s')
    ensures Reaches(cfg, s.pool, acts, s'.pool)
    decreases |evs|
  {
    acts := [];
    if evs != [] {
      acts := LeadsIsRun(cfg, size, After(cfg, size, s, evs[0]), evs[1..], s');
      if evs[0].Act? {
        var rest := acts;
        acts := [evs[0].event] + rest;
        assert acts[1..] == rest;
      }
    }
  }

  // The check leads the pool into no new state, so all that holds of every reachable pool
  // holds here.
  lemma SharedPoolIsReachable(cfg: Config, size: int, s: Shared)
    requires SharedReachable(cfg, size, s)
    ensures Reachable(cfg, s.pool)
  {
    var workers: nat, evs :| Leads(cfg, size, Shared(WorkerPool.Start(workers), [], {}, {}), evs, s);
    var acts := LeadsIsRun(cfg, size, Shared(WorkerPool.Start(workers), [], {}, {}), evs, s);
  }

  // A plugin that accepts the trace is checked once; then the task is answered as a duplicate,
  // or goes to the queue if there is room, or is refused.
  lemma SubmissionSteps(cfg: Config, size: int, s: Shared, c: nat)
    requires SharedReachable(cfg, size, s)
    requires HasNext(cfg, s.pool, c) && Serves(cfg, s.pool.calls[c].trace, s.pool.calls[c].next)
    ensures var t := Task(c, s.pool.calls[c].next);
            && (CanHappen(cfg, s, Check(c)) <==> t !in s.passed && t !in s.hits)
            && (CanHappen(cfg, s, Act(Dedup(c))) <==> t in s.hits)
            && (CanHappen(cfg, s, Act(Enqueue(c))) <==> t in s.passed && |s.pool.queue| < cfg.queueSize)
            && (CanHappen(cfg, s, Act(Reject(c))) <==> t in s.passed)
  {
    SharedPoolIsReachable(cfg, size, s);
    EnabledIffGuard(cfg, s.pool, Dedup(c));
    EnabledIffGuard(cfg, s.pool, Enqueue(c));
    EnabledIffGuard(cfg, s.pool, Reject(c));
  }

  // ---- In terms of values and registered plugins ----

  // Task t follows a trace of this value with a plugin registered under this name.
  ghost predicate Follows(cfg: Config, s: Pool, t: Task, value: string, name: string) {
    && t.call < |s.calls| && s.calls[t.call].trace.kind in cfg.registry
    && t.idx < |cfg.registry[s.calls[t.call].trace.kind]|
    && s.calls[t.call].trace.value == value && cfg.registry[s.calls[t.call].trace.kind][t.idx].name == name
  }

  // No plugin is registered under a name with a colon.
  ghost predicate PlainNames(cfg: Config) {
    forall kind :: kind in cfg.registry ==>
      forall i :: 0 <= i < |cfg.registry[kind]| ==> ':' !in cfg.registry[kind][i].name
  }

  lemma IdOfWork(cfg: Config, s: Pool, t: Task, value: string, name: string)
    requires Follows(cfg, s, t, value, name)
    ensures HasId(cfg, s, t, value + ":" + name)
  {
  }

  lemma WorkOfId(cfg: Config, s: Pool, t: Task, value: string, name: string)
    requires PlainNames(cfg) && ':' !in name && HasId(cfg, s, t, value + ":" + name)
    ensures Follows(cfg, s, t, value, name)
  {
    var trace := s.calls[t.call].trace;
    TaskIdIgnoresType(trace, PluginOf(cfg, s, t).name, trace.(value := value), name);
  }

  // While the cache has room, a plugin is asked at most once about a value, whatever the types
  // of the traces that carry it.
  lemma OneTaskPerValueAndPlugin(cfg: Config, size: int, s: Shared, t: Task, u: Task, value: string, name: string)
    requires SharedReachable(cfg, size, s) && HasRoom(s, size)
    requires t in s.pool.accepted && u in s.pool.accepted
    requires Follows(cfg, s.pool, t, value, name) && Follows(cfg, s.pool, u, value, name)
    requires !AnsweredDuplicate(s.pool, t) && !AnsweredDuplicate(s.pool, u)
    ensures t == u
  {
    IdOfWork(cfg, s.pool, t, value, name);
    IdOfWork(cfg, s.pool, u, value, name);
    OneTaskPerId(cfg, size, s, t, u, value + ":" + name);
  }

  // With a cache of any size, a task is answered as a duplicate only if another task for the
  // same value and the same plugin has passed its check.
  lemma DuplicateHasAnOriginal(cfg: Config, size: int, s: Shared, t: Task, value: string, name: string)
    returns (u: Task)
    requires SharedReachable(cfg, size, s) && PlainNames(cfg)
    requires AnsweredDuplicate(s.pool, t) && Follows(cfg, s.pool, t, value, name)
    ensures u != t && u in s.passed && Follows(cfg, s.pool, u, value, name)
  {
    ReachableOk(cfg, size, s);
    IdOfWork(cfg, s.pool, t, value, name);
    assert t in s.hits && SomePassed(cfg, s, value + ":" + name);
    u :| u in s.passed && HasId(cfg, s.pool, u, value + ":" + name);
    WorkOfId(cfg, s.pool, u, value, name);
  }
}
