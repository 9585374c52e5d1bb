// The reply protocol between concurrent ProcessTrace calls and the worker pool, as a state
// machine: each event is one atomic action of a caller or of a worker.
module WorkerPool {
  import opened Entities

  // matches is false only where the plugin opts into TraceMatcher and rejects the trace.
  datatype Plugin = Plugin(name: string, implementsInterface: bool, matches: Trace -> bool)

  datatype Config = Config(registry: map<TraceType, seq<Plugin>>, queueSize: nat)

  // The idx-th candidate plugin of a call.
  datatype Task = Task(call: nat, idx: nat)

  datatype Payload = Deduplicated | Failed | Found(pluginName: string, traces: seq<Trace>)

  datatype Reply = Reply(task: Task, payload: Payload)

  datatype Phase = Submitting | Collecting | Returned | GaveUp

  // Where a task of a call is; kept for the proof, no action looks at it.
  datatype Stage = New | Skipped | Rejected | Queued | Running | Replying | Sent | Received

  datatype Call = Call(
    trace: Trace,
    phase: Phase,
    next: nat,
    submitted: nat,
    replyTo: seq<Reply>,
    received: seq<Reply>,
    discoveries: seq<Discovery>,
    stages: seq<Stage>)

  datatype Worker = Idle | Busy(task: Task) | Sending(reply: Reply)

  // What FollowTrace returned for a task.
  datatype Return = Return(task: Task, traces: seq<Trace>)

  // accepted, rejected, replied and returned are histories.
  datatype Pool = Pool(
    calls: seq<Call>,
    queue: seq<Task>,
    workers: seq<Worker>,
    accepted: set<Task>,
    rejected: set<Task>,
    replied: multiset<Task>,
    returned: set<Return>)

  datatype Event =
    | Begin(trace: Trace)
    | Skip(c: nat)
    | Dedup(c: nat)
    | Reject(c: nat)
    | Enqueue(c: nat)
    | StartCollect(c: nat)
    | Receive(c: nat)
    | Finish(c: nat)
    | GiveUp(c: nat)
    | Take(w: nat)
    | Run(w: nat, outcome: Option<seq<Trace>>)
    | Send(w: nat)

  function Candidates(cfg: Config, t: Trace): seq<Plugin> {
    if t.kind in cfg.registry then cfg.registry[t.kind] else []
  }

  predicate Eligible(p: Plugin, t: Trace) {
    p.implementsInterface && p.matches(t)
  }

  function NonEmpty(ts: seq<Trace>): (r: seq<Trace>)
    ensures forall t :: t in r <==> t in ts && t.value != ""
  {
    if ts == [] then []
    else
      var front, last := ts[..|ts| - 1], ts[|ts| - 1];
      assert ts == front + [last];
      if last.value != "" then NonEmpty(front) + [last] else NonEmpty(front)
  }

  function AsDiscoveries(parent: Trace, name: string, ts: seq<Trace>): (ds: seq<Discovery>)
    ensures forall d :: d in ds <==> d.parent == parent && d.pluginName == name && d.child in ts && d.child.value != ""
  {
    if ts == [] then []
    else
      var front, last := ts[..|ts| - 1], ts[|ts| - 1];
      assert ts == front + [last];
      var earlier := AsDiscoveries(parent, name, front);
      if last.value != "" then earlier + [Discovery(parent, name, last)] else earlier
  }

  // What one received reply adds to the discoveries of a call.
  function Contribution(parent: Trace, r: Reply): seq<Discovery> {
    match r.payload
    case Found(name, ts) => AsDiscoveries(parent, name, ts)
    case _ => []
  }

  function Collected(parent: Trace, rs: seq<Reply>): seq<Discovery> {
    if rs == [] then [] else Collected(parent, rs[..|rs| - 1]) + Contribution(parent, rs[|rs| - 1])
  }

  // ---- The actions ----

  predicate IsCall(s: Pool, c: nat) {
    c < |s.calls|
  }

  // The submission loop of call c is about to handle its next candidate.
  predicate AtSubmit(cfg: Config, s: Pool, c: nat) {
    && IsCall(s, c) && s.calls[c].phase.Submitting?
    && s.calls[c].next < |Candidates(cfg, s.calls[c].trace)|
    && s.calls[c].next < |s.calls[c].stages|
  }

  predicate AtEligible(cfg: Config, s: Pool, c: nat) {
    AtSubmit(cfg, s, c) && Eligible(Candidates(cfg, s.calls[c].trace)[s.calls[c].next], s.calls[c].trace)
  }

  // A send on replyTo goes through at once: its buffer has one place per candidate.
  predicate CanSend(cfg: Config, s: Pool, c: nat) {
    IsCall(s, c) && |s.calls[c].replyTo| < |Candidates(cfg, s.calls[c].trace)|
  }

  predicate ValidTask(s: Pool, t: Task) {
    IsCall(s, t.call) && t.idx < |s.calls[t.call].stages|
  }

  predicate Enabled(cfg: Config, s: Pool, ev: Event) {
    match ev
    case Begin(t) => Candidates(cfg, t) != []
    case Skip(c) => AtSubmit(cfg, s, c) && !AtEligible(cfg, s, c)
    case Dedup(c) => AtEligible(cfg, s, c) && CanSend(cfg, s, c)
    case Reject(c) => AtEligible(cfg, s, c)
    case Enqueue(c) => AtEligible(cfg, s, c) && |s.queue| < cfg.queueSize
    case StartCollect(c) => IsCall(s, c) && s.calls[c].phase.Submitting?
                            && s.calls[c].next == |Candidates(cfg, s.calls[c].trace)|
    case Receive(c) => IsCall(s, c) && s.calls[c].phase.Collecting? && |s.calls[c].received| < s.calls[c].submitted
                       && s.calls[c].replyTo != [] && ValidTask(s, s.calls[c].replyTo[0].task)
    case Finish(c) => IsCall(s, c) && s.calls[c].phase.Collecting? && |s.calls[c].received| == s.calls[c].submitted
    case GiveUp(c) => IsCall(s, c) && s.calls[c].phase.Collecting? && |s.calls[c].received| < s.calls[c].submitted
    case Take(w) => w < |s.workers| && s.workers[w].Idle? && s.queue != [] && ValidTask(s, s.queue[0])
    case Run(w, _) => w < |s.workers| && s.workers[w].Busy? && ValidTask(s, s.workers[w].task)
                      && s.workers[w].task.idx < |Candidates(cfg, s.calls[s.workers[w].task.call].trace)|
    case Send(w) => w < |s.workers| && s.workers[w].Sending? && ValidTask(s, s.workers[w].reply.task)
                    && CanSend(cfg, s, s.workers[w].reply.task.call)
  }

  function SetStage(s: Pool, t: Task, stage: Stage): Pool
    requires ValidTask(s, t)
  {
    var call := s.calls[t.call];
    s.(calls := s.calls[t.call := call.(stages := call.stages[t.idx := stage])])
  }

  // The candidate at hand is dealt with: the loop moves on, counting it if Submit returned nil.
  function Advance(s: Pool, c: nat, stage: Stage, counted: nat): Pool
    requires IsCall(s, c) && s.calls[c].next < |s.calls[c].stages|
  {
    var call := s.calls[c];
    s.(calls := s.calls[c := call.(next := call.next + 1, submitted := call.submitted + counted,
                                   stages := call.stages[call.next := stage])])
  }

  function PutReply(s: Pool, r: Reply): Pool
    requires IsCall(s, r.task.call)
  {
    var call := s.calls[r.task.call];
    s.(calls := s.calls[r.task.call := call.(replyTo := call.replyTo + [r])], replied := s.replied + multiset{r.task})
  }

  function SetPhase(s: Pool, c: nat, phase: Phase): Pool
    requires IsCall(s, c)
  {
    s.(calls := s.calls[c := s.calls[c].(phase := phase)])
  }

  function PopReply(s: Pool, c: nat): Pool
    requires IsCall(s, c) && s.calls[c].replyTo != []
  {
    var call := s.calls[c];
    var r := call.replyTo[0];
    s.(calls := s.calls[c := call.(replyTo := call.replyTo[1..], received := call.received + [r],
                                   discoveries := call.discoveries + Contribution(call.trace, r))])
  }

  function NewCall(cfg: Config, t: Trace): Call {
    Call(t, Submitting, 0, 0, [], [], [], seq(|Candidates(cfg, t)|, _ => New))
  }

  function HandlerResult(cfg: Config, s: Pool, t: Task, outcome: Option<seq<Trace>>): Payload
    requires ValidTask(s, t) && t.idx < |Candidates(cfg, s.calls[t.call].trace)|
  {
    match outcome
    case None => Failed
    case Some(ts) => Found(Candidates(cfg, s.calls[t.call].trace)[t.idx].name, NonEmpty(ts))
  }

  function Next(cfg: Config, s: Pool, ev: Event): Pool
    requires Enabled(cfg, s, ev)
  {
    match ev
    case Begin(t) => s.(calls := s.calls + [NewCall(cfg, t)])
    case Skip(c) => Advance(s, c, Skipped, 0)
    case Dedup(c) =>
      var t := Task(c, s.calls[c].next);
      PutReply(Advance(s, c, Sent, 1), Reply(t, Deduplicated)).(accepted := s.accepted + {t})
    case Reject(c) =>
      Advance(s, c, Rejected, 0).(rejected := s.rejected + {Task(c, s.calls[c].next)})
    case Enqueue(c) =>
      var t := Task(c, s.calls[c].next);
      Advance(s, c, Queued, 1).(queue := s.queue + [t], accepted := s.accepted + {t})
    case StartCollect(c) => SetPhase(s, c, Collecting)
    case Receive(c) => SetStage(PopReply(s, c), s.calls[c].replyTo[0].task, Received)
    case Finish(c) => SetPhase(s, c, Returned)
    case GiveUp(c) => SetPhase(s, c, GaveUp)
    case Take(w) => SetStage(s, s.queue[0], Running).(queue := s.queue[1..],
        workers := s.workers[w := Busy(s.queue[0])])
    case Run(w, outcome) =>
      var t := s.workers[w].task;
      var payload := HandlerResult(cfg, s, t, outcome);
      SetStage(s, t, Replying).(workers := s.workers[w := Sending(Reply(t, payload))],
                                returned := match outcome
                                            case None => s.returned
                                            case Some(ts) => s.returned + {Return(t, ts)})
    case Send(w) =>
      var r := s.workers[w].reply;
      PutReply(SetStage(s, r.task, Sent), r).(workers := s.workers[w := Idle])
  }

  function Start(workers: nat): Pool {
    Pool([], [], seq(workers, _ => Idle), {}, {}, multiset{}, {})
  }

  // The state after a sequence of events, each enabled when it happens.
  ghost predicate Reaches(cfg: Config, s: Pool, evs: seq<Event>, s': Pool)
    decreases |evs|
  {
    if evs == [] then s' == s
    else Enabled(cfg, s, evs[0]) && Reaches(cfg, Next(cfg, s, evs[0]), evs[1..], s')
  }

  // ---- The invariant ----

  function Count(stages: seq<Stage>, st: Stage): nat {
    if stages == [] then 0
    else Count(stages[..|stages| - 1], st) + (if stages[|stages| - 1] == st then 1 else 0)
  }

  lemma {:induction false} CountUpdate(stages: seq<Stage>, i: nat, b: Stage, st: Stage)
    requires i < |stages|
    ensures Count(stages[i := b], st) ==
            Count(stages, st) - (if stages[i] == st then 1 else 0) + (if b == st then 1 else 0)
  {
    var n := |stages| - 1;
    if i < n {
      CountUpdate(stages[..n], i, b, st);
      assert stages[i := b][..n] == stages[..n][i := b];
    } else {
      assert stages[i := b][..n] == stages[..n];
    }
  }

  lemma {:induction false} CountBound(stages: seq<Stage>, st: Stage, i: nat)
    requires i < |stages| && stages[i] != st
    ensures Count(stages, st) < |stages|
  {
    var n := |stages| - 1;
    if i < n {
      CountBound(stages[..n], st, i);
    } else {
      CountAtMost(stages[..n], st);
    }
  }

  lemma {:induction false} CountAtMost(stages: seq<Stage>, st: Stage)
    ensures Count(stages, st) <= |stages|
  {
    if stages != [] {
      CountAtMost(stages[..|stages| - 1], st);
    }
  }

  lemma {:induction false} CountZero(stages: seq<Stage>, st: Stage)
    ensures Count(stages, st) == 0 <==> forall i :: 0 <= i < |stages| ==> stages[i] != st
  {
    if stages != [] {
      CountZero(stages[..|stages| - 1], st);
    }
  }

  function StageOf(s: Pool, t: Task): Stage
    requires ValidTask(s, t)
  {
    s.calls[t.call].stages[t.idx]
  }

  predicate InFlight(st: Stage) {
    st.Queued? || st.Running? || st.Replying?
  }

  function InFlightCount(stages: seq<Stage>): nat {
    Count(stages, Queued) + Count(stages, Running) + Count(stages, Replying)
  }

  // Tags of replies are distinct and all at the given stage.
  ghost predicate Tagged(c: nat, stages: seq<Stage>, rs: seq<Reply>, st: Stage) {
    && (forall k :: 0 <= k < |rs| ==>
          rs[k].task.call == c && rs[k].task.idx < |stages| && stages[rs[k].task.idx] == st)
    && (forall j, k :: 0 <= j < k < |rs| ==> rs[j].task != rs[k].task)
    && |rs| == Count(stages, st)
  }

  ghost predicate CallOk(cfg: Config, c: nat, call: Call) {
    var plugins := Candidates(cfg, call.trace);
    && |call.stages| == |plugins|
    && call.next <= |plugins|
    && (forall i :: 0 <= i < |plugins| ==> (call.stages[i] == New <==> i >= call.next))
    && (forall i :: 0 <= i < |plugins| && !call.stages[i].New? && !call.stages[i].Skipped? ==>
          Eligible(plugins[i], call.trace))
    && (forall i :: 0 <= i < |plugins| && call.stages[i].Skipped? ==> !Eligible(plugins[i], call.trace))
    && (!call.phase.Submitting? ==> call.next == |plugins|)
    && Tagged(c, call.stages, call.replyTo, Sent)
    && Tagged(c, call.stages, call.received, Received)
    && call.submitted == InFlightCount(call.stages) + |call.replyTo| + |call.received|
    && (call.phase.Returned? ==> |call.received| == call.submitted)
    && call.discoveries == Collected(call.trace, call.received)
  }

  ghost predicate QueueOk(s: Pool) {
    && (forall k :: 0 <= k < |s.queue| ==> ValidTask(s, s.queue[k]) && StageOf(s, s.queue[k]) == Queued)
    && (forall j, k :: 0 <= j < k < |s.queue| ==> s.queue[j] != s.queue[k])
    && (forall t :: ValidTask(s, t) && StageOf(s, t) == Queued ==> t in s.queue)
  }

  function WorkerTask(w: Worker): Task
    requires !w.Idle?
  {
    if w.Busy? then w.task else w.reply.task
  }

  function WorkerStage(w: Worker): Stage
    requires !w.Idle?
  {
    if w.Busy? then Running else Replying
  }

  predicate WorksOn(w: Worker, t: Task, st: Stage) {
    !w.Idle? && WorkerTask(w) == t && WorkerStage(w) == st
  }

  ghost predicate WorkersOk(s: Pool) {
    && (forall k :: 0 <= k < |s.workers| && !s.workers[k].Idle? ==>
          ValidTask(s, WorkerTask(s.workers[k])) && StageOf(s, WorkerTask(s.workers[k])) == WorkerStage(s.workers[k]))
    && (forall j, k :: 0 <= j < k < |s.workers| && !s.workers[j].Idle? && !s.workers[k].Idle? ==>
          WorkerTask(s.workers[j]) != WorkerTask(s.workers[k]))
    && (forall t :: ValidTask(s, t) && (StageOf(s, t) == Running || StageOf(s, t) == Replying) ==>
          exists k :: 0 <= k < |s.workers| && WorksOn(s.workers[k], t, StageOf(s, t)))
  }

  ghost predicate HistoryOk(s: Pool) {
    && (forall t :: t in s.accepted <==>
          ValidTask(s, t) && (InFlight(StageOf(s, t)) || StageOf(s, t).Sent? || StageOf(s, t).Received?))
    && (forall t :: t in s.rejected <==> ValidTask(s, t) && StageOf(s, t).Rejected?)
    && (forall t :: s.replied[t] ==
          if ValidTask(s, t) && (StageOf(s, t).Sent? || StageOf(s, t).Received?) then 1 else 0)
  }

  ghost predicate Inv(cfg: Config, s: Pool) {
    && (forall c :: 0 <= c < |s.calls| ==> CallOk(cfg, c, s.calls[c]))
    && QueueOk(s)
    && WorkersOk(s)
    && HistoryOk(s)
  }

  // ---- Every event keeps the invariant ----

  // From s to s' only task t changes its stage.
  ghost predicate Moves(s: Pool, s': Pool, t: Task, to: Stage) {
    && ValidTask(s, t)
    && (forall u :: ValidTask(s', u) <==> ValidTask(s, u))
    && (forall u :: ValidTask(s, u) ==> StageOf(s', u) == if u == t then to else StageOf(s, u))
  }

  lemma QueueKept(s: Pool, s': Pool, t: Task, to: Stage)
    requires QueueOk(s) && Moves(s, s', t, to) && s'.queue == s.queue
    requires StageOf(s, t) != Queued && to != Queued
    ensures QueueOk(s')
  {
  }

  lemma WorkersKept(s: Pool, s': Pool, t: Task, to: Stage)
    requires WorkersOk(s) && Moves(s, s', t, to) && s'.workers == s.workers
    requires !StageOf(s, t).Running? && !StageOf(s, t).Replying? && !to.Running? && !to.Replying?
    ensures WorkersOk(s')
  {
  }

  lemma TaggedKept(c: nat, stages: seq<Stage>, rs: seq<Reply>, st: Stage, i: nat, b: Stage)
    requires Tagged(c, stages, rs, st) && i < |stages| && stages[i] != st && b != st
    ensures Tagged(c, stages[i := b], rs, st)
  {
    CountUpdate(stages, i, b, st);
  }

  lemma TaggedPush(c: nat, stages: seq<Stage>, rs: seq<Reply>, st: Stage, i: nat, r: Reply)
    requires Tagged(c, stages, rs, st) && i < |stages| && stages[i] != st && r.task == Task(c, i)
    ensures Tagged(c, stages[i := st], rs + [r], st)
  {
    CountUpdate(stages, i, st, st);
  }

  lemma TaggedPop(c: nat, stages: seq<Stage>, rs: seq<Reply>, st: Stage, b: Stage)
    requires Tagged(c, stages, rs, st) && rs != [] && b != st
    ensures Tagged(c, stages[rs[0].task.idx := b], rs[1..], st)
  {
    CountUpdate(stages, rs[0].task.idx, b, st);
    forall k | 0 <= k < |rs[1..]|
      ensures rs[1..][k].task.idx != rs[0].task.idx
    {
      assert rs[0].task != rs[k + 1].task;
      assert rs[0].task.call == c && rs[k + 1].task.call == c;
    }
  }

  lemma InFlightUpdate(stages: seq<Stage>, i: nat, b: Stage)
    requires i < |stages|
    ensures InFlightCount(stages[i := b]) ==
            InFlightCount(stages) - (if InFlight(stages[i]) then 1 else 0) + (if InFlight(b) then 1 else 0)
  {
    CountUpdate(stages, i, b, Queued);
    CountUpdate(stages, i, b, Running);
    CountUpdate(stages, i, b, Replying);
  }

  lemma OtherCallsKept(cfg: Config, s: Pool, s': Pool, c: nat)
    requires forall k :: 0 <= k < |s.calls| ==> CallOk(cfg, k, s.calls[k])
    requires |s'.calls| == |s.calls| && c < |s.calls| && CallOk(cfg, c, s'.calls[c])
    requires forall k :: 0 <= k < |s.calls| && k != c ==> s'.calls[k] == s.calls[k]
    ensures forall k :: 0 <= k < |s'.calls| ==> CallOk(cfg, k, s'.calls[k])
  {
  }

  lemma SubmitCall(cfg: Config, s: Pool, c: nat, to: Stage, counted: nat)
    requires AtSubmit(cfg, s, c) && CallOk(cfg, c, s.calls[c])
    requires || (to.Skipped? && !AtEligible(cfg, s, c))
             || (to.Rejected? && AtEligible(cfg, s, c)) || (to.Queued? && AtEligible(cfg, s, c))
    requires counted == if to.Queued? then 1 else 0
    ensures CallOk(cfg, c, Advance(s, c, to, counted).calls[c])
  {
    var call := s.calls[c];
    var i := call.next;
    TaggedKept(c, call.stages, call.replyTo, Sent, i, to);
    TaggedKept(c, call.stages, call.received, Received, i, to);
    InFlightUpdate(call.stages, i, to);
  }

  lemma AdvanceMoves(cfg: Config, s: Pool, s': Pool, c: nat, to: Stage)
    requires AtSubmit(cfg, s, c) && CallOk(cfg, c, s.calls[c]) && |s'.calls| == |s.calls|
    requires OnlyCall(s, s', c) && s'.calls[c].stages == s.calls[c].stages[s.calls[c].next := to]
    ensures Moves(s, s', Task(c, s.calls[c].next), to)
    ensures StageOf(s, Task(c, s.calls[c].next)) == New
  {
  }

  lemma StageMoves(s: Pool, s': Pool, t: Task, to: Stage)
    requires ValidTask(s, t) && OnlyCall(s, s', t.call)
    requires s'.calls[t.call].stages == s.calls[t.call].stages[t.idx := to]
    ensures Moves(s, s', t, to)
  {
  }

  predicate IsAccepted(st: Stage) {
    InFlight(st) || st.Sent? || st.Received?
  }

  // The histories grow by t exactly where its new stage says so.
  ghost predicate Records(s: Pool, s': Pool, t: Task, to: Stage) {
    && s'.accepted == (if IsAccepted(to) then s.accepted + {t} else s.accepted)
    && s'.rejected == (if to.Rejected? then s.rejected + {t} else s.rejected)
    && s'.replied == (if to.Sent? then s.replied + multiset{t} else s.replied)
  }

  // The stages a task may go through.
  predicate MayGo(from: Stage, to: Stage) {
    match from
    case New => to.Skipped? || to.Rejected? || to.Queued? || to.Sent?
    case Queued => to.Running?
    case Running => to.Replying?
    case Replying => to.Sent?
    case Sent => to.Received?
    case _ => false
  }

  lemma HistoryKept(s: Pool, s': Pool, t: Task, to: Stage)
    requires HistoryOk(s) && Moves(s, s', t, to) && MayGo(StageOf(s, t), to) && Records(s, s', t, to)
    ensures HistoryOk(s')
  {
  }

  ghost predicate OnlyCall(s: Pool, s': Pool, c: nat) {
    && |s'.calls| == |s.calls|
    && forall k :: 0 <= k < |s.calls| && k != c ==> s'.calls[k] == s.calls[k]
  }

  lemma Assemble(cfg: Config, s: Pool, s': Pool, t: Task, to: Stage)
    requires Inv(cfg, s) && Moves(s, s', t, to) && MayGo(StageOf(s, t), to)
    requires OnlyCall(s, s', t.call) && CallOk(cfg, t.call, s'.calls[t.call])
    requires Records(s, s', t, to) && QueueOk(s') && WorkersOk(s')
    ensures Inv(cfg, s')
  {
    OtherCallsKept(cfg, s, s', t.call);
    HistoryKept(s, s', t, to);
  }

  // Neither the queue nor a worker is concerned.
  lemma AssembleIdle(cfg: Config, s: Pool, s': Pool, t: Task, from: Stage, to: Stage)
    requires Inv(cfg, s) && Moves(s, s', t, to) && StageOf(s, t) == from && MayGo(from, to)
    requires !InFlight(from) && !InFlight(to)
    requires OnlyCall(s, s', t.call) && CallOk(cfg, t.call, s'.calls[t.call])
    requires Records(s, s', t, to) && s'.queue == s.queue && s'.workers == s.workers
    ensures Inv(cfg, s')
  {
    QueueKept(s, s', t, to);
    WorkersKept(s, s', t, to);
    Assemble(cfg, s, s', t, to);
  }

  lemma KeepSkip(cfg: Config, s: Pool, c: nat)
    requires Inv(cfg, s) && Enabled(cfg, s, Skip(c))
    ensures Inv(cfg, Next(cfg, s, Skip(c)))
  {
    var s', t := Next(cfg, s, Skip(c)), Task(c, s.calls[c].next);
    SubmitCall(cfg, s, c, Skipped, 0);
    AdvanceMoves(cfg, s, s', c, Skipped);
    AssembleIdle(cfg, s, s', t, New, Skipped);
  }

  lemma KeepReject(cfg: Config, s: Pool, c: nat)
    requires Inv(cfg, s) && Enabled(cfg, s, Reject(c))
    ensures Inv(cfg, Next(cfg, s, Reject(c)))
  {
    var s', t := Next(cfg, s, Reject(c)), Task(c, s.calls[c].next);
    SubmitCall(cfg, s, c, Rejected, 0);
    AdvanceMoves(cfg, s, s', c, Rejected);
    AssembleIdle(cfg, s, s', t, New, Rejected);
  }

  lemma KeepEnqueue(cfg: Config, s: Pool, c: nat)
    requires Inv(cfg, s) && Enabled(cfg, s, Enqueue(c))
    ensures Inv(cfg, Next(cfg, s, Enqueue(c)))
  {
    var s', t := Next(cfg, s, Enqueue(c)), Task(c, s.calls[c].next);
    SubmitCall(cfg, s, c, Queued, 1);
    AdvanceMoves(cfg, s, s', c, Queued);
    WorkersKept(s, s', t, Queued);
    QueuePush(s, s', t);
    Assemble(cfg, s, s', t, Queued);
  }

  lemma QueuePush(s: Pool, s': Pool, t: Task)
    requires QueueOk(s) && Moves(s, s', t, Queued) && StageOf(s, t) == New && s'.queue == s.queue + [t]
    ensures QueueOk(s')
  {
    assert t !in s.queue;
  }

  lemma QueuePop(s: Pool, s': Pool, t: Task)
    requires QueueOk(s) && s.queue != [] && t == s.queue[0] && Moves(s, s', t, Running) && s'.queue == s.queue[1..]
    ensures QueueOk(s')
  {
    assert s.queue == [t] + s'.queue;
  }

  lemma DedupCall(cfg: Config, s: Pool, c: nat)
    requires AtEligible(cfg, s, c) && CallOk(cfg, c, s.calls[c])
    ensures CallOk(cfg, c, PutReply(Advance(s, c, Sent, 1), Reply(Task(c, s.calls[c].next), Deduplicated)).calls[c])
  {
    var call := s.calls[c];
    var i := call.next;
    TaggedPush(c, call.stages, call.replyTo, Sent, i, Reply(Task(c, i), Deduplicated));
    TaggedKept(c, call.stages, call.received, Received, i, Sent);
    InFlightUpdate(call.stages, i, Sent);
  }

  lemma KeepDedup(cfg: Config, s: Pool, c: nat)
    requires Inv(cfg, s) && Enabled(cfg, s, Dedup(c))
    ensures Inv(cfg, Next(cfg, s, Dedup(c)))
  {
    var s', t := Next(cfg, s, Dedup(c)), Task(c, s.calls[c].next);
    DedupCall(cfg, s, c);
    AdvanceMoves(cfg, s, s', c, Sent);
    AssembleIdle(cfg, s, s', t, New, Sent);
  }

  // From s to s' only tasks at the first stage are added.
  ghost predicate Joined(s: Pool, s': Pool) {
    && (forall u :: ValidTask(s, u) ==> ValidTask(s', u) && StageOf(s', u) == StageOf(s, u))
    && (forall u :: ValidTask(s', u) && !ValidTask(s, u) ==> StageOf(s', u) == New)
  }

  lemma CallsJoin(cfg: Config, s: Pool, s': Pool, call: Call)
    requires forall c :: 0 <= c < |s.calls| ==> CallOk(cfg, c, s.calls[c])
    requires s'.calls == s.calls + [call] && CallOk(cfg, |s.calls|, call)
    ensures forall c :: 0 <= c < |s'.calls| ==> CallOk(cfg, c, s'.calls[c])
  {
  }

  lemma TasksJoin(s: Pool, s': Pool, call: Call)
    requires s'.calls == s.calls + [call] && forall i :: 0 <= i < |call.stages| ==> call.stages[i] == New
    ensures Joined(s, s')
  {
  }

  lemma QueueJoined(s: Pool, s': Pool)
    requires QueueOk(s) && Joined(s, s') && s'.queue == s.queue
    ensures QueueOk(s')
  {
  }

  lemma WorkersJoined(s: Pool, s': Pool)
    requires WorkersOk(s) && Joined(s, s') && s'.workers == s.workers
    ensures WorkersOk(s')
  {
    forall t | ValidTask(s', t) && (StageOf(s', t) == Running || StageOf(s', t) == Replying)
      ensures exists k :: 0 <= k < |s'.workers| && WorksOn(s'.workers[k], t, StageOf(s', t))
    {
      assert ValidTask(s, t);
    }
  }

  lemma HistoryJoined(s: Pool, s': Pool)
    requires HistoryOk(s) && Joined(s, s')
    requires s'.accepted == s.accepted && s'.rejected == s.rejected && s'.replied == s.replied
    ensures HistoryOk(s')
  {
  }

  lemma PhaseCall(cfg: Config, s: Pool, ev: Event)
    requires Enabled(cfg, s, ev) && (ev.StartCollect? || ev.Finish? || ev.GiveUp?) && CallOk(cfg, ev.c, s.calls[ev.c])
    ensures CallOk(cfg, ev.c, Next(cfg, s, ev).calls[ev.c]) && OnlyCall(s, Next(cfg, s, ev), ev.c)
  {
  }

  lemma KeepPhase(cfg: Config, s: Pool, ev: Event)
    requires Inv(cfg, s) && Enabled(cfg, s, ev) && (ev.StartCollect? || ev.Finish? || ev.GiveUp?)
    ensures Inv(cfg, Next(cfg, s, ev))
  {
    var s' := Next(cfg, s, ev);
    PhaseCall(cfg, s, ev);
    OtherCallsKept(cfg, s, s', ev.c);
    StagesStay(s, s', ev.c);
    QueueJoined(s, s');
    WorkersJoined(s, s');
    HistoryJoined(s, s');
  }

  lemma StagesStay(s: Pool, s': Pool, c: nat)
    requires c < |s.calls| && OnlyCall(s, s', c) && s'.calls[c].stages == s.calls[c].stages
    ensures Joined(s, s')
  {
  }

  lemma {:induction false} NewStages(stages: seq<Stage>, st: Stage)
    requires (forall i :: 0 <= i < |stages| ==> stages[i] == New) && st != New
    ensures Count(stages, st) == 0
  {
    CountZero(stages, st);
  }

  lemma KeepBegin(cfg: Config, s: Pool, t: Trace)
    requires Inv(cfg, s) && Enabled(cfg, s, Begin(t))
    ensures Inv(cfg, Next(cfg, s, Begin(t)))
  {
    var s' := Next(cfg, s, Begin(t));
    NewCallOk(cfg, |s.calls|, t);
    CallsJoin(cfg, s, s', NewCall(cfg, t));
    TasksJoin(s, s', NewCall(cfg, t));
    QueueJoined(s, s');
    WorkersJoined(s, s');
    HistoryJoined(s, s');
  }

  lemma NewCallOk(cfg: Config, c: nat, t: Trace)
    ensures CallOk(cfg, c, NewCall(cfg, t))
  {
    var stages := NewCall(cfg, t).stages;
    NewStages(stages, Sent);
    NewStages(stages, Received);
    NewStages(stages, Queued);
    NewStages(stages, Running);
    NewStages(stages, Replying);
  }

  lemma ReceiveCall(cfg: Config, s: Pool, c: nat)
    requires Enabled(cfg, s, Receive(c)) && CallOk(cfg, c, s.calls[c])
    ensures s.calls[c].replyTo[0].task.call == c && StageOf(s, s.calls[c].replyTo[0].task) == Sent
    ensures CallOk(cfg, c, Next(cfg, s, Receive(c)).calls[c])
  {
    var call := s.calls[c];
    var r := call.replyTo[0];
    var i := r.task.idx;
    TaggedPop(c, call.stages, call.replyTo, Sent, Received);
    TaggedPush(c, call.stages, call.received, Received, i, r);
    InFlightUpdate(call.stages, i, Received);
    assert (call.received + [r])[..|call.received|] == call.received;
  }

  lemma ReceiveMoves(cfg: Config, s: Pool, c: nat)
    requires Enabled(cfg, s, Receive(c)) && CallOk(cfg, c, s.calls[c])
    ensures var s', t := Next(cfg, s, Receive(c)), s.calls[c].replyTo[0].task;
            && t.call == c && StageOf(s, t) == Sent
            && CallOk(cfg, c, s'.calls[c]) && OnlyCall(s, s', c) && Moves(s, s', t, Received)
            && s'.queue == s.queue && s'.workers == s.workers
            && s'.accepted == s.accepted && s'.rejected == s.rejected && s'.replied == s.replied
  {
    ReceiveCall(cfg, s, c);
    StageMoves(s, Next(cfg, s, Receive(c)), s.calls[c].replyTo[0].task, Received);
  }

  // The task moves on without a new entry in the histories.
  lemma AssembleQuiet(cfg: Config, s: Pool, s': Pool, t: Task, to: Stage)
    requires Inv(cfg, s) && Moves(s, s', t, to) && MayGo(StageOf(s, t), to)
    requires IsAccepted(StageOf(s, t)) && IsAccepted(to) && !to.Sent?
    requires OnlyCall(s, s', t.call) && CallOk(cfg, t.call, s'.calls[t.call])
    requires QueueOk(s') && WorkersOk(s')
    requires s'.accepted == s.accepted && s'.rejected == s.rejected && s'.replied == s.replied
    ensures Inv(cfg, s')
  {
    HistoryHas(s, t);
    Assemble(cfg, s, s', t, to);
  }

  lemma KeepReceive(cfg: Config, s: Pool, c: nat)
    requires Inv(cfg, s) && Enabled(cfg, s, Receive(c))
    ensures Inv(cfg, Next(cfg, s, Receive(c)))
  {
    ReceiveMoves(cfg, s, c);
    var s', t := Next(cfg, s, Receive(c)), s.calls[c].replyTo[0].task;
    QueueKept(s, s', t, Received);
    WorkersKept(s, s', t, Received);
    AssembleQuiet(cfg, s, s', t, Received);
  }

  lemma HistoryHas(s: Pool, t: Task)
    requires HistoryOk(s) && ValidTask(s, t) && IsAccepted(StageOf(s, t))
    ensures s.accepted + {t} == s.accepted
  {
  }

  lemma InFlightCall(cfg: Config, s: Pool, t: Task, to: Stage)
    requires ValidTask(s, t) && CallOk(cfg, t.call, s.calls[t.call])
    requires InFlight(StageOf(s, t)) && InFlight(to)
    ensures CallOk(cfg, t.call, SetStage(s, t, to).calls[t.call])
  {
    var call := s.calls[t.call];
    TaggedKept(t.call, call.stages, call.replyTo, Sent, t.idx, to);
    TaggedKept(t.call, call.stages, call.received, Received, t.idx, to);
    InFlightUpdate(call.stages, t.idx, to);
  }

  lemma KeepTake(cfg: Config, s: Pool, w: nat)
    requires Inv(cfg, s) && Enabled(cfg, s, Take(w))
    ensures Inv(cfg, Next(cfg, s, Take(w)))
  {
    var s', t := Next(cfg, s, Take(w)), s.queue[0];
    InFlightCall(cfg, s, t, Running);
    assert OnlyCall(s, s', t.call);
    StageMoves(s, s', t, Running);
    QueuePop(s, s', t);
    TakeWorkers(s, s', w, t);
    AssembleQuiet(cfg, s, s', t, Running);
  }

  lemma TakeWorkers(s: Pool, s': Pool, w: nat, t: Task)
    requires WorkersOk(s) && Moves(s, s', t, Running) && StageOf(s, t) == Queued
    requires w < |s.workers| && s.workers[w].Idle? && s'.workers == s.workers[w := Busy(t)]
    ensures WorkersOk(s')
  {
    forall u | ValidTask(s', u) && (StageOf(s', u) == Running || StageOf(s', u) == Replying)
      ensures exists k :: 0 <= k < |s'.workers| && WorksOn(s'.workers[k], u, StageOf(s', u))
    {
      if u == t {
        assert WorksOn(s'.workers[w], t, Running);
      } else {
        var k :| 0 <= k < |s.workers| && WorksOn(s.workers[k], u, StageOf(s, u));
        assert WorksOn(s'.workers[k], u, StageOf(s', u));
      }
    }
  }

  lemma RunWorkers(s: Pool, s': Pool, w: nat, t: Task, r: Reply)
    requires WorkersOk(s) && Moves(s, s', t, Replying) && w < |s.workers| && s.workers[w] == Busy(t)
    requires r.task == t && s'.workers == s.workers[w := Sending(r)]
    ensures WorkersOk(s')
  {
    forall u | ValidTask(s', u) && (StageOf(s', u) == Running || StageOf(s', u) == Replying)
      ensures exists k :: 0 <= k < |s'.workers| && WorksOn(s'.workers[k], u, StageOf(s', u))
    {
      if u == t {
        assert WorksOn(s'.workers[w], t, Replying);
      } else {
        var k :| 0 <= k < |s.workers| && WorksOn(s.workers[k], u, StageOf(s, u));
        assert WorksOn(s'.workers[k], u, StageOf(s', u));
      }
    }
  }

  lemma KeepRun(cfg: Config, s: Pool, w: nat, outcome: Option<seq<Trace>>)
    requires Inv(cfg, s) && Enabled(cfg, s, Run(w, outcome))
    ensures Inv(cfg, Next(cfg, s, Run(w, outcome)))
  {
    var s', t := Next(cfg, s, Run(w, outcome)), s.workers[w].task;
    InFlightCall(cfg, s, t, Replying);
    StageMoves(s, s', t, Replying);
    QueueKept(s, s', t, Replying);
    RunWorkers(s, s', w, t, s'.workers[w].reply);
    AssembleQuiet(cfg, s, s', t, Replying);
  }

  lemma SendCall(cfg: Config, s: Pool, r: Reply)
    requires ValidTask(s, r.task) && CallOk(cfg, r.task.call, s.calls[r.task.call]) && StageOf(s, r.task) == Replying
    ensures CallOk(cfg, r.task.call, PutReply(SetStage(s, r.task, Sent), r).calls[r.task.call])
  {
    var call, t := s.calls[r.task.call], r.task;
    TaggedPush(t.call, call.stages, call.replyTo, Sent, t.idx, r);
    TaggedKept(t.call, call.stages, call.received, Received, t.idx, Sent);
    InFlightUpdate(call.stages, t.idx, Sent);
  }

  lemma SendWorkers(s: Pool, s': Pool, w: nat, r: Reply)
    requires WorkersOk(s) && Moves(s, s', r.task, Sent) && w < |s.workers| && s.workers[w] == Sending(r)
    requires s'.workers == s.workers[w := Idle]
    ensures WorkersOk(s')
  {
    forall u | ValidTask(s', u) && (StageOf(s', u) == Running || StageOf(s', u) == Replying)
      ensures exists k :: 0 <= k < |s'.workers| && WorksOn(s'.workers[k], u, StageOf(s', u))
    {
      var k :| 0 <= k < |s.workers| && WorksOn(s.workers[k], u, StageOf(s, u));
      assert WorksOn(s'.workers[k], u, StageOf(s', u));
    }
  }

  lemma KeepSend(cfg: Config, s: Pool, w: nat)
    requires Inv(cfg, s) && Enabled(cfg, s, Send(w))
    ensures Inv(cfg, Next(cfg, s, Send(w)))
  {
    var s', r := Next(cfg, s, Send(w)), s.workers[w].reply;
    SendCall(cfg, s, r);
    StageMoves(s, s', r.task, Sent);
    HistoryHas(s, r.task);
    QueueKept(s, s', r.task, Sent);
    SendWorkers(s, s', w, r);
    Assemble(cfg, s, s', r.task, Sent);
  }

  lemma InvKept(cfg: Config, s: Pool, ev: Event)
    requires Inv(cfg, s) && Enabled(cfg, s, ev)
    ensures Inv(cfg, Next(cfg, s, ev))
  {
    match ev
    case Begin(t) => KeepBegin(cfg, s, t);
    case Skip(c) => KeepSkip(cfg, s, c);
    case Dedup(c) => KeepDedup(cfg, s, c);
    case Reject(c) => KeepReject(cfg, s, c);
    case Enqueue(c) => KeepEnqueue(cfg, s, c);
    case StartCollect(_) => KeepPhase(cfg, s, ev);
    case Receive(c) => KeepReceive(cfg, s, c);
    case Finish(_) => KeepPhase(cfg, s, ev);
    case GiveUp(_) => KeepPhase(cfg, s, ev);
    case Take(w) => KeepTake(cfg, s, w);
    case Run(w, o) => KeepRun(cfg, s, w, o);
    case Send(w) => KeepSend(cfg, s, w);
  }

  lemma InvAtStart(cfg: Config, workers: nat)
    ensures Inv(cfg, Start(workers))
  {
  }

  lemma {:induction false} InvAlways(cfg: Config, s: Pool, evs: seq<Event>, s': Pool)
    requires Inv(cfg, s) && Reaches(cfg, s, evs, s')
    ensures Inv(cfg, s')
    decreases |evs|
  {
    if evs != [] {
      InvKept(cfg, s, evs[0]);
      InvAlways(cfg, Next(cfg, s, evs[0]), evs[1..], s');
    }
  }
}
