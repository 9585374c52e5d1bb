// What holds in every state the protocol can reach: one reply per accepted task, no blocked
// send, correct attribution of discoveries, and progress of every waiting call.
module PoolGuarantees {
  import opened Entities
  import opened WorkerPool
  import ScanMachine

  ghost predicate Reachable(cfg: Config, s: Pool) {
    exists workers: nat, evs :: Reaches(cfg, Start(workers), evs, s)
  }

  lemma ReachableInv(cfg: Config, s: Pool)
    requires Reachable(cfg, s)
    ensures Inv(cfg, s)
  {
    var workers: nat, evs :| Reaches(cfg, Start(workers), evs, s);
    InvAtStart(cfg, workers);
    InvAlways(cfg, Start(workers), evs, s);
  }

  // ---- One reply per task ----

  ghost predicate InQueueOrAtWorker(s: Pool, t: Task) {
    t in s.queue || exists k :: 0 <= k < |s.workers| && !s.workers[k].Idle? && WorkerTask(s.workers[k]) == t
  }

  lemma InFlightIsSomewhere(s: Pool, t: Task)
    requires QueueOk(s) && WorkersOk(s)
    ensures InQueueOrAtWorker(s, t) <==> ValidTask(s, t) && InFlight(StageOf(s, t))
  {
    if t in s.queue {
      var k :| 0 <= k < |s.queue| && s.queue[k] == t;
    } else if ValidTask(s, t) && (StageOf(s, t).Running? || StageOf(s, t).Replying?) {
      var k :| 0 <= k < |s.workers| && WorksOn(s.workers[k], t, StageOf(s, t));
    }
  }

  // A task whose Submit returned nil has had one reply, or none yet while it is queued or at a
  // worker; a task whose Submit failed has none; no other task has any.
  lemma OneReplyPerAcceptedTask(cfg: Config, s: Pool, t: Task)
    requires Reachable(cfg, s)
    ensures s.accepted !! s.rejected
    ensures s.replied[t] == if t in s.accepted && !InQueueOrAtWorker(s, t) then 1 else 0
  {
    ReachableInv(cfg, s);
    InFlightIsSomewhere(s, t);
    HistoriesOf(s, t);
  }

  lemma HistoriesOf(s: Pool, t: Task)
    requires HistoryOk(s)
    ensures s.accepted !! s.rejected
    ensures s.replied[t] == if t in s.accepted && !(ValidTask(s, t) && InFlight(StageOf(s, t))) then 1 else 0
  {
    assert forall u :: u in s.accepted ==> u !in s.rejected;
  }

  // The reply channel of call c, with one place for each plugin registered for the trace's
  // type, is not full.
  ghost predicate HasPlace(cfg: Config, s: Pool, c: nat) {
    && c < |s.calls| && s.calls[c].trace.kind in cfg.registry
    && |s.calls[c].replyTo| < |cfg.registry[s.calls[c].trace.kind]|
  }

  // Call c has plugins left to submit.
  ghost predicate HasNext(cfg: Config, s: Pool, c: nat) {
    && c < |s.calls| && s.calls[c].phase.Submitting? && s.calls[c].trace.kind in cfg.registry
    && s.calls[c].next < |cfg.registry[s.calls[c].trace.kind]|
  }

  // No send to a reply channel ever finds it full, whatever became of the caller.
  lemma SendsNeverBlock(cfg: Config, s: Pool)
    requires Reachable(cfg, s)
    ensures forall c: nat :: HasNext(cfg, s, c) ==> HasPlace(cfg, s, c)
    ensures forall w :: 0 <= w < |s.workers| && s.workers[w].Sending? ==> HasPlace(cfg, s, s.workers[w].reply.task.call)
  {
    ReachableInv(cfg, s);
    forall c: nat | HasNext(cfg, s, c)
      ensures HasPlace(cfg, s, c)
    {
      assert CallOk(cfg, c, s.calls[c]);
      CountBound(s.calls[c].stages, Sent, s.calls[c].next);
    }
    forall w | 0 <= w < |s.workers| && s.workers[w].Sending?
      ensures HasPlace(cfg, s, s.workers[w].reply.task.call)
    {
      var t := s.workers[w].reply.task;
      assert WorkerTask(s.workers[w]) == t && WorkerStage(s.workers[w]) == Replying;
      assert ValidTask(s, t) && CallOk(cfg, t.call, s.calls[t.call]);
      CountBound(s.calls[t.call].stages, Sent, t.idx);
    }
  }

  // A channel carries only its own caller's replies, and a call that returned has received
  // exactly one reply for each of its accepted tasks.
  lemma ReturnedCallGotAllReplies(cfg: Config, s: Pool, c: nat)
    requires Reachable(cfg, s) && IsCall(s, c)
    ensures forall r :: r in s.calls[c].replyTo || r in s.calls[c].received ==> r.task.call == c
    ensures s.calls[c].phase.Returned? ==>
      forall t: Task :: t.call == c ==> (t in s.accepted <==> exists r :: r in s.calls[c].received && r.task == t)
    ensures forall j, k :: 0 <= j < k < |s.calls[c].received| ==>
      s.calls[c].received[j].task != s.calls[c].received[k].task
    ensures s.calls[c].phase.Returned? ==> s.calls[c].replyTo == []
  {
    ReachableInv(cfg, s);
    assert CallOk(cfg, c, s.calls[c]);
    if s.calls[c].phase.Returned? {
      ReturnedCallIsComplete(cfg, s, c);
    }
  }

  lemma ReturnedCallIsComplete(cfg: Config, s: Pool, c: nat)
    requires IsCall(s, c) && CallOk(cfg, c, s.calls[c]) && HistoryOk(s) && s.calls[c].phase.Returned?
    ensures s.calls[c].replyTo == []
    ensures forall t: Task :: t.call == c ==> (t in s.accepted <==> exists r :: r in s.calls[c].received && r.task == t)
  {
    var call := s.calls[c];
    CountZero(call.stages, Queued);
    CountZero(call.stages, Running);
    CountZero(call.stages, Replying);
    CountZero(call.stages, Sent);
    forall t: Task | t.call == c && t in s.accepted
      ensures exists r :: r in call.received && r.task == t
    {
      assert call.stages[t.idx] == Received;
      var r := TagOf(c, call.stages, call.received, Received, t.idx);
    }
    forall r | r in call.received
      ensures r.task in s.accepted
    {
      assert ValidTask(s, r.task) && StageOf(s, r.task) == Received;
    }
  }

  // With as many distinct tags as there are tasks at the stage, every such task has a tag.
  lemma {:induction false} TagOf(c: nat, stages: seq<Stage>, rs: seq<Reply>, st: Stage, i: nat) returns (r: Reply)
    requires Tagged(c, stages, rs, st) && i < |stages| && stages[i] == st && st != New
    ensures r in rs && r.task == Task(c, i)
    decreases |rs|
  {
    if rs == [] {
      CountZero(stages, st);
      assert false;
    }
    if rs[0].task.idx == i {
      r := rs[0];
    } else {
      TaggedPop(c, stages, rs, st, New);
      r := TagOf(c, stages[rs[0].task.idx := New], rs[1..], st, i);
    }
  }

  // ---- Attribution ----

  ghost predicate AtWorker(s: Pool, r: Reply) {
    exists w :: 0 <= w < |s.workers| && s.workers[w] == Sending(r)
  }

  ghost predicate InChannel(s: Pool, r: Reply) {
    IsCall(s, r.task.call) && (r in s.calls[r.task.call].replyTo || r in s.calls[r.task.call].received)
  }

  // Reply r was computed and has not been lost.
  ghost predicate Holds(s: Pool, r: Reply) {
    AtWorker(s, r) || InChannel(s, r)
  }

  function PluginOf(cfg: Config, s: Pool, t: Task): Plugin
    requires IsCall(s, t.call) && t.idx < |Candidates(cfg, s.calls[t.call].trace)|
  {
    Candidates(cfg, s.calls[t.call].trace)[t.idx]
  }

  // The reply carries what the task's own plugin returned, without the empty values.
  ghost predicate Genuine(cfg: Config, s: Pool, r: Reply) {
    r.payload.Found? ==>
      && IsCall(s, r.task.call) && r.task.idx < |Candidates(cfg, s.calls[r.task.call].trace)|
      && r.payload.pluginName == PluginOf(cfg, s, r.task).name
      && exists ts :: Return(r.task, ts) in s.returned && r.payload.traces == NonEmpty(ts)
  }

  ghost predicate Answers(cfg: Config, s: Pool, ret: Return, r: Reply) {
    && IsCall(s, ret.task.call) && ret.task.idx < |Candidates(cfg, s.calls[ret.task.call].trace)|
    && Holds(s, r) && r == Reply(ret.task, Found(PluginOf(cfg, s, ret.task).name, NonEmpty(ret.traces)))
  }

  ghost predicate Attributed(cfg: Config, s: Pool) {
    && (forall r :: Holds(s, r) ==> Genuine(cfg, s, r))
    && (forall ret :: ret in s.returned ==> exists r :: Answers(cfg, s, ret, r))
  }

  // Calls keep their trace.
  ghost predicate SameTraces(s: Pool, s': Pool) {
    && |s.calls| <= |s'.calls|
    && forall c :: 0 <= c < |s.calls| ==> s'.calls[c].trace == s.calls[c].trace
  }

  lemma TracesKept(cfg: Config, s: Pool, ev: Event)
    requires Enabled(cfg, s, ev)
    ensures SameTraces(s, Next(cfg, s, ev)) && s.returned <= Next(cfg, s, ev).returned
  {
  }

  // A channel carries only its own caller's replies.
  ghost predicate OwnReplies(s: Pool) {
    forall c, r :: 0 <= c < |s.calls| && r in s.calls[c].replyTo ==> r.task.call == c
  }

  lemma InvOwnReplies(cfg: Config, s: Pool)
    requires Inv(cfg, s)
    ensures OwnReplies(s)
  {
    forall c, r | 0 <= c < |s.calls| && r in s.calls[c].replyTo
      ensures r.task.call == c
    {
      assert CallOk(cfg, c, s.calls[c]);
    }
  }

  lemma WorkerReplyKept(cfg: Config, s: Pool, ev: Event, r: Reply)
    requires Enabled(cfg, s, ev) && AtWorker(s, r)
    ensures AtWorker(Next(cfg, s, ev), r) || InChannel(Next(cfg, s, ev), r)
  {
    var s' := Next(cfg, s, ev);
    var w :| 0 <= w < |s.workers| && s.workers[w] == Sending(r);
    if ev == Send(w) {
      assert s'.calls[r.task.call].replyTo == s.calls[r.task.call].replyTo + [r];
    } else {
      assert s'.workers[w] == Sending(r);
    }
  }

  lemma ReceiveMovesReply(cfg: Config, s: Pool, c: nat)
    requires Enabled(cfg, s, Receive(c)) && OwnReplies(s)
    ensures var s', r := Next(cfg, s, Receive(c)), s.calls[c].replyTo[0];
            && OnlyCall(s, s', c) && s'.workers == s.workers
            && s'.calls[c].replyTo == s.calls[c].replyTo[1..]
            && s'.calls[c].received == s.calls[c].received + [r]
  {
    assert s.calls[c].replyTo[0].task.call == c;
  }

  lemma ChannelReplyKept(cfg: Config, s: Pool, ev: Event, r: Reply)
    requires Enabled(cfg, s, ev) && InChannel(s, r) && OwnReplies(s)
    ensures InChannel(Next(cfg, s, ev), r)
  {
    if ev.Receive? {
      ReceiveMovesReply(cfg, s, ev.c);
      var replyTo := s.calls[ev.c].replyTo;
      assert replyTo == [replyTo[0]] + replyTo[1..];
    }
  }

  // Replies are not lost.
  lemma RepliesKept(cfg: Config, s: Pool, ev: Event, r: Reply)
    requires Enabled(cfg, s, ev) && OwnReplies(s) && Holds(s, r)
    ensures Holds(Next(cfg, s, ev), r)
  {
    if AtWorker(s, r) {
      WorkerReplyKept(cfg, s, ev, r);
    } else {
      ChannelReplyKept(cfg, s, ev, r);
    }
  }

  ghost predicate IsNewReply(cfg: Config, s: Pool, ev: Event, r: Reply) {
    || (ev.Dedup? && IsCall(s, ev.c) && r == Reply(Task(ev.c, s.calls[ev.c].next), Deduplicated))
    || (ev.Run? && Enabled(cfg, s, ev)
        && r == Reply(s.workers[ev.w].task, HandlerResult(cfg, s, s.workers[ev.w].task, ev.outcome)))
  }

  lemma WorkerReplyComesFrom(cfg: Config, s: Pool, ev: Event, r: Reply)
    requires Enabled(cfg, s, ev) && AtWorker(Next(cfg, s, ev), r)
    ensures AtWorker(s, r) || IsNewReply(cfg, s, ev, r)
  {
    var s' := Next(cfg, s, ev);
    var w :| 0 <= w < |s'.workers| && s'.workers[w] == Sending(r);
    if s.workers[w] != Sending(r) {
      assert ev.Run? && ev.w == w;
    }
  }

  lemma ChannelReplyComesFrom(cfg: Config, s: Pool, ev: Event, r: Reply)
    requires Enabled(cfg, s, ev) && OwnReplies(s) && InChannel(Next(cfg, s, ev), r)
    ensures InChannel(s, r) || AtWorker(s, r) || IsNewReply(cfg, s, ev, r)
  {
    match ev
    case Receive(c) =>
      ReceiveMovesReply(cfg, s, c);
      var replyTo := s.calls[c].replyTo;
      assert replyTo == [replyTo[0]] + replyTo[1..];
    case Send(w) =>
      assert AtWorker(s, s.workers[w].reply);
    case Dedup(c) =>
      var dup := Reply(Task(c, s.calls[c].next), Deduplicated);
      assert Next(cfg, s, ev).calls[c].replyTo == s.calls[c].replyTo + [dup];
    case _ =>
  }

  // Only a plugin run creates a reply with traces.
  lemma RepliesComeFrom(cfg: Config, s: Pool, ev: Event, r: Reply)
    requires Enabled(cfg, s, ev) && OwnReplies(s) && Holds(Next(cfg, s, ev), r)
    ensures Holds(s, r) || IsNewReply(cfg, s, ev, r)
  {
    if AtWorker(Next(cfg, s, ev), r) {
      WorkerReplyComesFrom(cfg, s, ev, r);
    } else {
      ChannelReplyComesFrom(cfg, s, ev, r);
    }
  }

  lemma NewReplyGenuine(cfg: Config, s: Pool, ev: Event, r: Reply)
    requires Enabled(cfg, s, ev) && IsNewReply(cfg, s, ev, r) && SameTraces(s, Next(cfg, s, ev))
    ensures Genuine(cfg, Next(cfg, s, ev), r)
  {
    if ev.Run? && ev.outcome.Some? {
      assert Return(r.task, ev.outcome.value) in Next(cfg, s, ev).returned;
    }
  }

  lemma GenuineKept(cfg: Config, s: Pool, s': Pool, r: Reply)
    requires Genuine(cfg, s, r) && SameTraces(s, s') && s.returned <= s'.returned
    ensures Genuine(cfg, s', r)
  {
  }

  lemma NewReturnAnswered(cfg: Config, s: Pool, ev: Event, ret: Return)
    requires Enabled(cfg, s, ev) && ret in Next(cfg, s, ev).returned && ret !in s.returned
    ensures exists r :: Answers(cfg, Next(cfg, s, ev), ret, r)
  {
    var s' := Next(cfg, s, ev);
    assert ev.Run?;
    var r := s'.workers[ev.w].reply;
    assert s'.workers[ev.w] == Sending(r);
    assert Answers(cfg, s', ret, r);
  }

  lemma AttributedKept(cfg: Config, s: Pool, ev: Event)
    requires OwnReplies(s) && Attributed(cfg, s) && Enabled(cfg, s, ev)
    ensures Attributed(cfg, Next(cfg, s, ev))
  {
    var s' := Next(cfg, s, ev);
    TracesKept(cfg, s, ev);
    forall r | Holds(s', r)
      ensures Genuine(cfg, s', r)
    {
      RepliesComeFrom(cfg, s, ev, r);
      if Holds(s, r) {
        GenuineKept(cfg, s, s', r);
      } else {
        NewReplyGenuine(cfg, s, ev, r);
      }
    }
    forall ret | ret in s'.returned
      ensures exists r :: Answers(cfg, s', ret, r)
    {
      if ret in s.returned {
        var r :| Answers(cfg, s, ret, r);
        RepliesKept(cfg, s, ev, r);
        assert Answers(cfg, s', ret, r);
      } else {
        NewReturnAnswered(cfg, s, ev, ret);
      }
    }
  }

  lemma {:induction false} AttributedAlways(cfg: Config, s: Pool, evs: seq<Event>, s': Pool)
    requires Inv(cfg, s) && Attributed(cfg, s) && Reaches(cfg, s, evs, s')
    ensures Attributed(cfg, s')
    decreases |evs|
  {
    if evs != [] {
      InvKept(cfg, s, evs[0]);
      InvOwnReplies(cfg, s);
      AttributedKept(cfg, s, evs[0]);
      AttributedAlways(cfg, Next(cfg, s, evs[0]), evs[1..], s');
    }
  }

  lemma ReachableAttributed(cfg: Config, s: Pool)
    requires Reachable(cfg, s)
    ensures Attributed(cfg, s)
  {
    var workers: nat, evs :| Reaches(cfg, Start(workers), evs, s);
    InvAtStart(cfg, workers);
    AttributedAlways(cfg, Start(workers), evs, s);
  }

  lemma {:induction false} InCollected(parent: Trace, rs: seq<Reply>, d: Discovery)
    ensures d in Collected(parent, rs) <==> exists r :: r in rs && d in Contribution(parent, r)
  {
    if rs != [] {
      var front, last := rs[..|rs| - 1], rs[|rs| - 1];
      InCollected(parent, front, d);
      assert forall r :: r in rs <==> r in front || r == last;
    }
  }

  // The i-th plugin registered for the type of t implements the interface and does not reject t.
  ghost predicate Serves(cfg: Config, t: Trace, i: nat) {
    && t.kind in cfg.registry && i < |cfg.registry[t.kind]|
    && cfg.registry[t.kind][i].implementsInterface && cfg.registry[t.kind][i].matches(t)
  }

  // The i-th plugin registered for the parent's type serves the parent and returned this child.
  ghost predicate HasSource(cfg: Config, s: Pool, c: nat, d: Discovery, i: nat, ts: seq<Trace>) {
    && IsCall(s, c)
    && d.parent == s.calls[c].trace
    && Serves(cfg, d.parent, i)
    && d.pluginName == cfg.registry[d.parent.kind][i].name
    && Return(Task(c, i), ts) in s.returned
    && d.child in ts && d.child.value != ""
  }

  // Attribution, under every interleaving of callers and workers.
  lemma DiscoveriesHaveSources(cfg: Config, s: Pool, c: nat, d: Discovery)
    requires Reachable(cfg, s) && IsCall(s, c) && d in s.calls[c].discoveries
    ensures exists i: nat, ts :: HasSource(cfg, s, c, d, i, ts)
  {
    ReachableInv(cfg, s);
    ReachableAttributed(cfg, s);
    assert CallOk(cfg, c, s.calls[c]);
    DiscoveryHasSource(cfg, s, c, d);
  }

  lemma DiscoveryHasSource(cfg: Config, s: Pool, c: nat, d: Discovery)
    requires IsCall(s, c) && CallOk(cfg, c, s.calls[c]) && Attributed(cfg, s) && d in s.calls[c].discoveries
    ensures exists i: nat, ts :: HasSource(cfg, s, c, d, i, ts)
  {
    var call := s.calls[c];
    InCollected(call.trace, call.received, d);
    var r :| r in call.received && d in Contribution(call.trace, r);
    var k :| 0 <= k < |call.received| && call.received[k] == r;
    assert r.task.call == c && call.stages[r.task.idx] == Received;
    assert Holds(s, r) && Genuine(cfg, s, r);
    var ts :| Return(r.task, ts) in s.returned && r.payload.traces == NonEmpty(ts);
    assert HasSource(cfg, s, c, d, r.task.idx, ts);
  }

  // Once the call has returned the converse holds too: nothing a plugin returned is missing.
  lemma ReturnedCallHasAllFinds(cfg: Config, s: Pool, c: nat, d: Discovery)
    requires Reachable(cfg, s) && IsCall(s, c) && s.calls[c].phase.Returned?
    ensures d in s.calls[c].discoveries <==> exists i: nat, ts :: HasSource(cfg, s, c, d, i, ts)
  {
    if d in s.calls[c].discoveries {
      DiscoveriesHaveSources(cfg, s, c, d);
    }
    if i: nat, ts :| HasSource(cfg, s, c, d, i, ts) {
      SourceIsCollected(cfg, s, c, d, i, ts);
    }
  }

  lemma SourceIsCollected(cfg: Config, s: Pool, c: nat, d: Discovery, i: nat, ts: seq<Trace>)
    requires Reachable(cfg, s) && IsCall(s, c) && s.calls[c].phase.Returned? && HasSource(cfg, s, c, d, i, ts)
    ensures d in s.calls[c].discoveries
  {
    ReachableInv(cfg, s);
    ReachableAttributed(cfg, s);
    var call := s.calls[c];
    assert CallOk(cfg, c, call);
    var r :| Answers(cfg, s, Return(Task(c, i), ts), r);
    ReturnedCallIsIdle(cfg, s, c, r);
    assert d in Contribution(call.trace, r);
    InCollected(call.trace, call.received, d);
  }

  lemma ReturnedCallIsIdle(cfg: Config, s: Pool, c: nat, r: Reply)
    requires Inv(cfg, s) && IsCall(s, c) && s.calls[c].phase.Returned? && r.task.call == c && Holds(s, r)
    ensures r in s.calls[c].received
  {
    var call := s.calls[c];
    assert CallOk(cfg, c, call);
    CountZero(call.stages, Replying);
    forall w | 0 <= w < |s.workers| && s.workers[w].Sending?
      ensures s.workers[w].reply.task.call != c
    {
      var t := WorkerTask(s.workers[w]);
      assert ValidTask(s, t) && s.calls[t.call].stages[t.idx] == Replying;
    }
  }

  // ---- What became of each candidate ----

  // Submit refused the task, or it had a reply: a duplicate, a failure, or a plugin's traces.
  datatype Fate = Refused | Answered(payload: Payload)

  ghost predicate GotReply(s: Pool, t: Task, r: Reply) {
    IsCall(s, t.call) && r in s.calls[t.call].received && r.task == t
  }

  ghost predicate HasFate(s: Pool, t: Task, f: Fate) {
    match f
    case Refused => t in s.rejected
    case Answered(payload) => GotReply(s, t, Reply(t, payload))
  }

  lemma ReturnedStages(cfg: Config, s: Pool, c: nat, i: nat)
    requires IsCall(s, c) && CallOk(cfg, c, s.calls[c]) && s.calls[c].phase.Returned?
    requires i < |Candidates(cfg, s.calls[c].trace)|
    ensures ValidTask(s, Task(c, i))
    ensures var st := StageOf(s, Task(c, i));
            if Eligible(Candidates(cfg, s.calls[c].trace)[i], s.calls[c].trace) then st.Rejected? || st.Received?
            else st.Skipped?
  {
    var stages := s.calls[c].stages;
    CountZero(stages, Queued);
    CountZero(stages, Running);
    CountZero(stages, Replying);
    CountZero(stages, Sent);
    assert stages[i] != New;
  }

  lemma NoPluginNoFate(cfg: Config, s: Pool, c: nat, i: nat)
    requires IsCall(s, c) && CallOk(cfg, c, s.calls[c]) && HistoryOk(s)
    requires i >= |Candidates(cfg, s.calls[c].trace)|
    ensures forall g :: !HasFate(s, Task(c, i), g)
  {
    assert !ValidTask(s, Task(c, i));
  }

  // When a call has returned, every registered plugin that serves its trace has exactly one
  // fate, and no other plugin has any.
  lemma EligibleTasksHaveOneFate(cfg: Config, s: Pool, c: nat, i: nat) returns (f: Fate)
    requires Reachable(cfg, s) && IsCall(s, c) && s.calls[c].phase.Returned?
    ensures Serves(cfg, s.calls[c].trace, i) <==> HasFate(s, Task(c, i), f)
    ensures forall g :: HasFate(s, Task(c, i), g) ==> g == f
  {
    var t, call := Task(c, i), s.calls[c];
    ReachableInv(cfg, s);
    assert CallOk(cfg, c, call);
    f := Refused;
    if i >= |Candidates(cfg, call.trace)| {
      NoPluginNoFate(cfg, s, c, i);
      return;
    }
    ReturnedStages(cfg, s, c, i);
    if StageOf(s, t).Received? {
      var r := TagOf(c, call.stages, call.received, Received, i);
      f := Answered(r.payload);
    }
    forall g | HasFate(s, t, g)
      ensures g == f && !StageOf(s, t).Skipped?
    {
      if g.Answered? {
        SameTagSameReply(c, call.stages, call.received, Received, Reply(t, g.payload));
        var r := TagOf(c, call.stages, call.received, Received, i);
        SameTagSameReply(c, call.stages, call.received, Received, r);
      }
    }
  }

  lemma SameTagSameReply(c: nat, stages: seq<Stage>, rs: seq<Reply>, st: Stage, r: Reply)
    requires Tagged(c, stages, rs, st) && r in rs
    ensures r.task.call == c && r.task.idx < |stages| && stages[r.task.idx] == st
    ensures forall q :: q in rs && q.task == r.task ==> q == r
  {
  }

  // The i-th registered plugin serves the trace and found a child with a value.
  ghost predicate PluginFinds(cfg: Config, t: Trace, finds: seq<seq<Trace>>, i: nat, name: string, child: Trace) {
    && Serves(cfg, t, i) && i < |finds|
    && cfg.registry[t.kind][i].name == name
    && child in finds[i] && child.value != ""
  }

  // All registered plugins that serve the trace ran and returned: finds[i] is what the i-th one
  // returned.
  ghost predicate AllReturned(cfg: Config, s: Pool, c: nat, finds: seq<seq<Trace>>) {
    && IsCall(s, c) && s.calls[c].phase.Returned?
    && s.calls[c].trace.kind in cfg.registry && |finds| == |cfg.registry[s.calls[c].trace.kind]|
    && forall i :: 0 <= i < |finds| && Serves(cfg, s.calls[c].trace, i) ==>
         HasFate(s, Task(c, i), Answered(Found(cfg.registry[s.calls[c].trace.kind][i].name, NonEmpty(finds[i]))))
  }

  // Then the discoveries are exactly the finds of all plugins that serve the trace.
  lemma AllReturnedFindsAll(cfg: Config, s: Pool, c: nat, finds: seq<seq<Trace>>, d: Discovery)
    requires Reachable(cfg, s) && AllReturned(cfg, s, c, finds)
    ensures d in s.calls[c].discoveries <==>
            d.parent == s.calls[c].trace && exists i :: PluginFinds(cfg, d.parent, finds, i, d.pluginName, d.child)
  {
    ReachableInv(cfg, s);
    var call := s.calls[c];
    assert CallOk(cfg, c, call);
    InCollected(call.trace, call.received, d);
    if r :| r in call.received && d in Contribution(call.trace, r) {
      ReceivedIsFound(cfg, s, c, finds, r);
      assert PluginFinds(cfg, d.parent, finds, r.task.idx, d.pluginName, d.child);
    }
    if i :| d.parent == call.trace && PluginFinds(cfg, d.parent, finds, i, d.pluginName, d.child) {
      var r := FoundIsReceived(cfg, s, c, finds, i, d);
    }
  }

  lemma FoundIsReceived(cfg: Config, s: Pool, c: nat, finds: seq<seq<Trace>>, i: nat, d: Discovery)
    returns (r: Reply)
    requires AllReturned(cfg, s, c, finds) && d.parent == s.calls[c].trace
    requires PluginFinds(cfg, d.parent, finds, i, d.pluginName, d.child)
    ensures r in s.calls[c].received && d in Contribution(d.parent, r)
  {
    r := Reply(Task(c, i), Found(cfg.registry[d.parent.kind][i].name, NonEmpty(finds[i])));
    assert HasFate(s, Task(c, i), Answered(r.payload));
  }

  lemma ReceivedIsFound(cfg: Config, s: Pool, c: nat, finds: seq<seq<Trace>>, r: Reply)
    requires Reachable(cfg, s) && AllReturned(cfg, s, c, finds) && r in s.calls[c].received
    ensures var i, t := r.task.idx, s.calls[c].trace;
            && Serves(cfg, t, i) && i < |finds|
            && r.payload == Found(cfg.registry[t.kind][i].name, NonEmpty(finds[i]))
  {
    ReachableInv(cfg, s);
    var call, i := s.calls[c], r.task.idx;
    assert CallOk(cfg, c, call);
    SameTagSameReply(c, call.stages, call.received, Received, r);
    var f := EligibleTasksHaveOneFate(cfg, s, c, i);
    assert HasFate(s, Task(c, i), Answered(r.payload));
  }

  // In the terms of the scan: where the plugin graph lists these finds for the trace, the call
  // returns a possible result of the batch that holds just this trace.
  lemma ReturnedCallFollowsGraph(cfg: Config, s: Pool, c: nat, finds: seq<seq<Trace>>, g: ScanMachine.PluginGraph)
    requires Reachable(cfg, s) && AllReturned(cfg, s, c, finds)
    requires forall f: ScanMachine.Find :: f in ScanMachine.Finds(g, s.calls[c].trace) <==>
               exists i :: PluginFinds(cfg, s.calls[c].trace, finds, i, f.pluginName, f.child)
    ensures ScanMachine.Arrives(g, [s.calls[c].trace], s.calls[c].discoveries)
  {
    var t := s.calls[c].trace;
    forall d: Discovery
      ensures d in s.calls[c].discoveries <==> d.parent in [t] && ScanMachine.IsDiscovery(g, d)
    {
      AllReturnedFindsAll(cfg, s, c, finds, d);
      var f := ScanMachine.Find(d.pluginName, d.child);
      if d.parent == t {
        assert f in ScanMachine.Finds(g, t) <==> exists i :: PluginFinds(cfg, t, finds, i, f.pluginName, f.child);
      }
    }
  }

  // ---- Progress ----

  function PhaseWeight(p: Phase): nat {
    match p
    case Submitting => 2
    case Collecting => 1
    case _ => 0
  }

  function StageWeight(st: Stage): nat {
    match st
    case New => 5
    case Queued => 4
    case Running => 3
    case Replying => 2
    case Sent => 1
    case _ => 0
  }

  function StagesWeight(stages: seq<Stage>): nat {
    if stages == [] then 0 else StagesWeight(stages[..|stages| - 1]) + StageWeight(stages[|stages| - 1])
  }

  // How many actions a call has at most before it: each task weighs less the further it has come.
  function Rank(call: Call): nat {
    StagesWeight(call.stages) + PhaseWeight(call.phase)
  }

  function StartRank(cfg: Config, t: Trace): nat {
    5 * |Candidates(cfg, t)| + 2
  }

  lemma {:induction false} StagesWeightUpdate(stages: seq<Stage>, i: nat, st: Stage)
    requires i < |stages|
    ensures StagesWeight(stages[i := st]) == StagesWeight(stages) - StageWeight(stages[i]) + StageWeight(st)
  {
    var n := |stages| - 1;
    if i < n {
      StagesWeightUpdate(stages[..n], i, st);
      assert stages[i := st][..n] == stages[..n][i := st];
    } else {
      assert stages[i := st][..n] == stages[..n];
    }
  }

  lemma {:induction false} NewStagesWeight(stages: seq<Stage>)
    requires forall i :: 0 <= i < |stages| ==> stages[i] == New
    ensures StagesWeight(stages) == 5 * |stages|
  {
    if stages != [] {
      NewStagesWeight(stages[..|stages| - 1]);
    }
  }

  predicate IsWorkerEvent(ev: Event) {
    ev.Take? || ev.Run? || ev.Send?
  }

  // The call an action is taken for; a new call is nobody's yet.
  function CallOf(cfg: Config, s: Pool, ev: Event): (c: Option<nat>)
    requires Enabled(cfg, s, ev)
    ensures c.None? <==> ev.Begin?
    ensures c.Some? ==> IsCall(s, c.value)
  {
    match ev
    case Begin(_) => None
    case Take(_) => Some(s.queue[0].call)
    case Run(w, _) => Some(s.workers[w].task.call)
    case Send(w) => Some(s.workers[w].reply.task.call)
    case _ => Some(ev.c)
  }

  // The task an action moves on, unless it only changes the phase of its call.
  function TaskOf(cfg: Config, s: Pool, ev: Event): Option<Task>
    requires Enabled(cfg, s, ev)
  {
    match ev
    case Begin(_) => None
    case Take(_) => Some(s.queue[0])
    case Run(w, _) => Some(s.workers[w].task)
    case Send(w) => Some(s.workers[w].reply.task)
    case Receive(c) => Some(s.calls[c].replyTo[0].task)
    case StartCollect(_) => None
    case Finish(_) => None
    case GiveUp(_) => None
    case _ => Some(Task(ev.c, s.calls[ev.c].next))
  }

  function NextStage(ev: Event): Stage {
    match ev
    case Skip(_) => Skipped
    case Reject(_) => Rejected
    case Enqueue(_) => Queued
    case Take(_) => Running
    case Run(_, _) => Replying
    case Receive(_) => Received
    case _ => Sent
  }

  // What an action finds: the stage of its task before it.
  lemma TaskBefore(cfg: Config, s: Pool, ev: Event)
    requires Inv(cfg, s) && Enabled(cfg, s, ev) && TaskOf(cfg, s, ev).Some?
    ensures var t := TaskOf(cfg, s, ev).value;
            CallOf(cfg, s, ev) == Some(t.call) && ValidTask(s, t) && MayGo(StageOf(s, t), NextStage(ev))
  {
    var c := CallOf(cfg, s, ev).value;
    assert CallOk(cfg, c, s.calls[c]);
    if IsWorkerEvent(ev) {
      WorkerTaskBefore(cfg, s, ev);
    } else {
      CallTaskBefore(cfg, s, ev);
    }
  }

  lemma WorkerTaskBefore(cfg: Config, s: Pool, ev: Event)
    requires QueueOk(s) && WorkersOk(s) && Enabled(cfg, s, ev) && IsWorkerEvent(ev)
    ensures var t := TaskOf(cfg, s, ev).value;
            ValidTask(s, t) && MayGo(StageOf(s, t), NextStage(ev))
  {
    if ev.Take? {
      assert StageOf(s, s.queue[0]) == Queued;
    } else {
      assert StageOf(s, WorkerTask(s.workers[ev.w])) == WorkerStage(s.workers[ev.w]);
    }
  }

  lemma CallTaskBefore(cfg: Config, s: Pool, ev: Event)
    requires Enabled(cfg, s, ev) && TaskOf(cfg, s, ev).Some? && !IsWorkerEvent(ev)
    requires CallOk(cfg, ev.c, s.calls[ev.c])
    ensures var t := TaskOf(cfg, s, ev).value;
            t.call == ev.c && ValidTask(s, t) && MayGo(StageOf(s, t), NextStage(ev))
  {
    if ev.Receive? {
      assert s.calls[ev.c].replyTo[0].task.call == ev.c;
    }
  }

  // One task of one call changes its stage.
  ghost predicate StageEffect(s: Pool, s': Pool, t: Task, to: Stage) {
    && ValidTask(s, t) && OnlyCall(s, s', t.call)
    && s'.calls[t.call].phase == s.calls[t.call].phase
    && s'.calls[t.call].stages == s.calls[t.call].stages[t.idx := to]
  }

  // One call comes to a later phase.
  ghost predicate PhaseEffect(s: Pool, s': Pool, c: nat) {
    && IsCall(s, c) && OnlyCall(s, s', c)
    && s'.calls[c].stages == s.calls[c].stages
    && PhaseWeight(s'.calls[c].phase) < PhaseWeight(s.calls[c].phase)
  }

  lemma SubmitEffect(cfg: Config, s: Pool, ev: Event)
    requires Enabled(cfg, s, ev) && (ev.Skip? || ev.Dedup? || ev.Reject? || ev.Enqueue?)
    ensures StageEffect(s, Next(cfg, s, ev), Task(ev.c, s.calls[ev.c].next), NextStage(ev))
  {
  }

  lemma ReceiveEffect(cfg: Config, s: Pool, c: nat)
    requires Enabled(cfg, s, Receive(c)) && s.calls[c].replyTo[0].task.call == c
    ensures StageEffect(s, Next(cfg, s, Receive(c)), s.calls[c].replyTo[0].task, Received)
  {
  }

  lemma WorkerEffect(cfg: Config, s: Pool, ev: Event)
    requires Enabled(cfg, s, ev) && IsWorkerEvent(ev)
    ensures StageEffect(s, Next(cfg, s, ev), TaskOf(cfg, s, ev).value, NextStage(ev))
  {
  }

  // What an action does to the calls.
  lemma EventEffect(cfg: Config, s: Pool, ev: Event)
    requires Inv(cfg, s) && Enabled(cfg, s, ev) && !ev.Begin?
    ensures match TaskOf(cfg, s, ev)
            case None => PhaseEffect(s, Next(cfg, s, ev), CallOf(cfg, s, ev).value)
            case Some(t) => StageEffect(s, Next(cfg, s, ev), t, NextStage(ev))
  {
    if ev.Skip? || ev.Dedup? || ev.Reject? || ev.Enqueue? {
      SubmitEffect(cfg, s, ev);
    } else if ev.Receive? {
      TaskBefore(cfg, s, ev);
      ReceiveEffect(cfg, s, ev.c);
    } else if IsWorkerEvent(ev) {
      WorkerEffect(cfg, s, ev);
    }
  }

  lemma StageEffectRank(s: Pool, s': Pool, t: Task, to: Stage)
    requires StageEffect(s, s', t, to) && MayGo(StageOf(s, t), to)
    ensures Rank(s'.calls[t.call]) < Rank(s.calls[t.call])
  {
    StagesWeightUpdate(s.calls[t.call].stages, t.idx, to);
  }

  // An action changes one call, whose rank it lowers.
  ghost predicate Lowers(s: Pool, s': Pool, c: nat) {
    IsCall(s, c) && OnlyCall(s, s', c) && Rank(s'.calls[c]) < Rank(s.calls[c])
  }

  lemma EventLowers(cfg: Config, s: Pool, ev: Event)
    requires Inv(cfg, s) && Enabled(cfg, s, ev) && !ev.Begin?
    ensures Lowers(s, Next(cfg, s, ev), CallOf(cfg, s, ev).value)
  {
    var s', t := Next(cfg, s, ev), TaskOf(cfg, s, ev);
    EventEffect(cfg, s, ev);
    if t.Some? {
      TaskBefore(cfg, s, ev);
      StageEffectRank(s, s', t.value, NextStage(ev));
    }
  }

  // An action of a call strictly lowers that call's rank; every other action, the start of
  // further calls included, leaves the call as it was.
  lemma EventDecreases(cfg: Config, s: Pool, ev: Event, c: nat)
    requires Inv(cfg, s) && Enabled(cfg, s, ev) && IsCall(s, c)
    ensures IsCall(Next(cfg, s, ev), c)
    ensures if CallOf(cfg, s, ev) == Some(c) then Rank(Next(cfg, s, ev).calls[c]) < Rank(s.calls[c])
            else Next(cfg, s, ev).calls[c] == s.calls[c]
  {
    if !ev.Begin? {
      EventLowers(cfg, s, ev);
    }
  }

  // How many of the events of a run belong to call c.
  ghost function EventsOf(cfg: Config, s: Pool, evs: seq<Event>, c: nat): nat
    decreases |evs|
  {
    if evs == [] || !Enabled(cfg, s, evs[0]) then 0
    else (if CallOf(cfg, s, evs[0]) == Some(c) then 1 else 0) + EventsOf(cfg, Next(cfg, s, evs[0]), evs[1..], c)
  }

  // However many other calls start and run meanwhile, a call takes no more actions than its rank.
  lemma CallActionsAreBounded(cfg: Config, s: Pool, evs: seq<Event>, s': Pool, c: nat)
    requires Reachable(cfg, s) && Reaches(cfg, s, evs, s') && IsCall(s, c)
    ensures IsCall(s', c) && EventsOf(cfg, s, evs, c) + Rank(s'.calls[c]) <= Rank(s.calls[c])
  {
    ReachableInv(cfg, s);
    CallSpendsRank(cfg, s, evs, s', c);
  }

  lemma {:induction false} CallSpendsRank(cfg: Config, s: Pool, evs: seq<Event>, s': Pool, c: nat)
    requires Inv(cfg, s) && Reaches(cfg, s, evs, s') && IsCall(s, c)
    ensures IsCall(s', c) && EventsOf(cfg, s, evs, c) + Rank(s'.calls[c]) <= Rank(s.calls[c])
    decreases |evs|
  {
    if evs != [] {
      EventDecreases(cfg, s, evs[0], c);
      InvKept(cfg, s, evs[0]);
      CallSpendsRank(cfg, Next(cfg, s, evs[0]), evs[1..], s', c);
    }
  }

  function TotalRank(calls: seq<Call>): nat {
    if calls == [] then 0 else TotalRank(calls[..|calls| - 1]) + Rank(calls[|calls| - 1])
  }

  lemma {:induction false} TotalRankUpdate(calls: seq<Call>, c: nat, call: Call)
    requires c < |calls|
    ensures TotalRank(calls[c := call]) == TotalRank(calls) - Rank(calls[c]) + Rank(call)
  {
    var n := |calls| - 1;
    if c < n {
      TotalRankUpdate(calls[..n], c, call);
      assert calls[c := call][..n] == calls[..n][c := call];
    } else {
      assert calls[c := call][..n] == calls[..n];
    }
  }

  // What an event adds to the total: a new call brings its own rank.
  function Brought(cfg: Config, ev: Event): nat {
    if ev.Begin? then StartRank(cfg, ev.trace) else 0
  }

  function BroughtBy(cfg: Config, evs: seq<Event>): nat {
    if evs == [] then 0 else Brought(cfg, evs[0]) + BroughtBy(cfg, evs[1..])
  }

  // The events other than starts of calls.
  function Actions(evs: seq<Event>): nat {
    if evs == [] then 0 else (if evs[0].Begin? then 0 else 1) + Actions(evs[1..])
  }

  lemma EventSpendsRank(cfg: Config, s: Pool, ev: Event)
    requires Inv(cfg, s) && Enabled(cfg, s, ev)
    ensures TotalRank(Next(cfg, s, ev).calls) + (if ev.Begin? then 0 else 1) <= TotalRank(s.calls) + Brought(cfg, ev)
  {
    var s' := Next(cfg, s, ev);
    if ev.Begin? {
      NewStagesWeight(NewCall(cfg, ev.trace).stages);
      assert s'.calls[..|s.calls|] == s.calls;
    } else {
      EventLowers(cfg, s, ev);
      LoweredTotal(s, s', CallOf(cfg, s, ev).value);
    }
  }

  lemma LoweredTotal(s: Pool, s': Pool, c: nat)
    requires Lowers(s, s', c)
    ensures TotalRank(s'.calls) < TotalRank(s.calls)
  {
    TotalRankUpdate(s.calls, c, s'.calls[c]);
    assert s'.calls == s.calls[c := s'.calls[c]];
  }

  // In any run, with calls starting at any time, the actions taken are paid for by the ranks
  // of the calls there were and of those that started.
  lemma RunsAreBounded(cfg: Config, s: Pool, evs: seq<Event>, s': Pool)
    requires Reachable(cfg, s) && Reaches(cfg, s, evs, s')
    ensures Actions(evs) + TotalRank(s'.calls) <= TotalRank(s.calls) + BroughtBy(cfg, evs)
  {
    ReachableInv(cfg, s);
    ActionsSpendRank(cfg, s, evs, s');
  }

  lemma {:induction false} ActionsSpendRank(cfg: Config, s: Pool, evs: seq<Event>, s': Pool)
    requires Inv(cfg, s) && Reaches(cfg, s, evs, s')
    ensures Actions(evs) + TotalRank(s'.calls) <= TotalRank(s.calls) + BroughtBy(cfg, evs)
    decreases |evs|
  {
    if evs != [] {
      EventSpendsRank(cfg, s, evs[0]);
      InvKept(cfg, s, evs[0]);
      ActionsSpendRank(cfg, Next(cfg, s, evs[0]), evs[1..], s');
    }
  }

  // ---- First in, first out ----

  // How many tasks are queued in front of t.
  function Place(queue: seq<Task>, t: Task): nat {
    if queue == [] || queue[0] == t then 0 else 1 + Place(queue[1..], t)
  }

  lemma {:induction false} PlaceAppend(queue: seq<Task>, t: Task, u: Task)
    requires t in queue
    ensures Place(queue + [u], t) == Place(queue, t) < |queue|
  {
    if queue[0] != t {
      assert t in queue[1..] && (queue + [u])[1..] == queue[1..] + [u];
      PlaceAppend(queue[1..], t, u);
    }
  }

  function WorkerWeight(w: Worker): nat {
    match w
    case Idle => 0
    case Busy(_) => 2
    case Sending(_) => 1
  }

  function WorkersWeight(ws: seq<Worker>): nat {
    if ws == [] then 0 else WorkersWeight(ws[..|ws| - 1]) + WorkerWeight(ws[|ws| - 1])
  }

  lemma {:induction false} WorkersWeightUpdate(ws: seq<Worker>, k: nat, w: Worker)
    requires k < |ws|
    ensures WorkersWeight(ws[k := w]) == WorkersWeight(ws) - WorkerWeight(ws[k]) + WorkerWeight(w)
  {
    var n := |ws| - 1;
    if k < n {
      WorkersWeightUpdate(ws[..n], k, w);
      assert ws[k := w][..n] == ws[..n][k := w];
    } else {
      assert ws[k := w][..n] == ws[..n];
    }
  }

  // What the workers have to do before they take t.
  function Ahead(s: Pool, t: Task): nat {
    3 * Place(s.queue, t) + WorkersWeight(s.workers)
  }

  // Until a worker takes a queued task, its place never grows, and every action of a worker,
  // for whichever call, brings it nearer.
  lemma QueuedTaskAdvances(cfg: Config, s: Pool, ev: Event, t: Task)
    requires Enabled(cfg, s, ev) && t in s.queue && !(ev.Take? && s.queue[0] == t)
    ensures t in Next(cfg, s, ev).queue && Place(Next(cfg, s, ev).queue, t) <= Place(s.queue, t)
    ensures Ahead(Next(cfg, s, ev), t) + (if IsWorkerEvent(ev) then 1 else 0) <= Ahead(s, t)
  {
    var s' := Next(cfg, s, ev);
    if IsWorkerEvent(ev) {
      WorkersWeightUpdate(s.workers, ev.w, s'.workers[ev.w]);
    }
    if ev.Enqueue? {
      PlaceAppend(s.queue, t, Task(ev.c, s.calls[ev.c].next));
    }
  }

  function WorkerEvents(evs: seq<Event>): nat {
    if evs == [] then 0 else (if IsWorkerEvent(evs[0]) then 1 else 0) + WorkerEvents(evs[1..])
  }

  // No event of the run takes t.
  ghost predicate NotTaken(cfg: Config, s: Pool, evs: seq<Event>, t: Task)
    decreases |evs|
  {
    evs == [] || (Enabled(cfg, s, evs[0]) && !(evs[0].Take? && s.queue[0] == t)
                  && NotTaken(cfg, Next(cfg, s, evs[0]), evs[1..], t))
  }

  // So the workers do only boundedly many things before they come to a queued task, however
  // many calls start and submit meanwhile.
  lemma {:induction false} QueuedTaskIsNotPassedOver(cfg: Config, s: Pool, evs: seq<Event>, s': Pool, t: Task)
    requires Reaches(cfg, s, evs, s') && t in s.queue && NotTaken(cfg, s, evs, t)
    ensures t in s'.queue && WorkerEvents(evs) + Ahead(s', t) <= Ahead(s, t)
    decreases |evs|
  {
    if evs != [] {
      QueuedTaskAdvances(cfg, s, evs[0], t);
      QueuedTaskIsNotPassedOver(cfg, Next(cfg, s, evs[0]), evs[1..], s', t);
    }
  }

  predicate Waiting(call: Call) {
    call.phase.Submitting? || call.phase.Collecting?
  }

  // An event the code takes by itself: no new call, no cancellation, and Submit fails only
  // when the queue is full.
  predicate Unforced(cfg: Config, s: Pool, ev: Event) {
    !ev.Begin? && !ev.GiveUp? && (ev.Reject? ==> |s.queue| >= cfg.queueSize)
  }

  lemma WorkerCanAct(cfg: Config, s: Pool, w: nat) returns (ev: Event)
    requires Reachable(cfg, s) && w < |s.workers| && !s.workers[w].Idle?
    ensures Enabled(cfg, s, ev) && Unforced(cfg, s, ev) && (ev.Run? || ev.Send?)
    ensures CallOf(cfg, s, ev) == Some(WorkerTask(s.workers[w]).call)
  {
    ReachableInv(cfg, s);
    SendsNeverBlock(cfg, s);
    var t := WorkerTask(s.workers[w]);
    assert ValidTask(s, t) && CallOk(cfg, t.call, s.calls[t.call]);
    ev := if s.workers[w].Busy? then Run(w, None) else Send(w);
  }

  // The action brings call c on: it is the call's own, or a worker's that brings task t of
  // the call nearer to the head of the queue and to a free worker.
  ghost predicate BringsOn(cfg: Config, s: Pool, ev: Event, c: nat, t: Task) {
    && Enabled(cfg, s, ev)
    && (|| CallOf(cfg, s, ev) == Some(c)
        || (&& IsWorkerEvent(ev) && t.call == c && t in s.queue && t in Next(cfg, s, ev).queue
            && Ahead(Next(cfg, s, ev), t) < Ahead(s, t)))
  }

  // With at least one worker, a waiting call always has an action that brings it on.
  lemma WaitingCallsProgress(cfg: Config, s: Pool, c: nat) returns (ev: Event, t: Task)
    requires Reachable(cfg, s) && |s.workers| >= 1 && IsCall(s, c) && Waiting(s.calls[c])
    ensures Unforced(cfg, s, ev) && BringsOn(cfg, s, ev, c, t)
  {
    ReachableInv(cfg, s);
    assert CallOk(cfg, c, s.calls[c]);
    var call := s.calls[c];
    if call.phase.Submitting? || |call.received| == call.submitted || call.replyTo != [] {
      t := Task(c, 0);
      ev := OwnAction(cfg, s, c);
    } else {
      t := InFlightTask(cfg, s, c);
      ev := TaskProgress(cfg, s, t);
    }
  }

  lemma OwnAction(cfg: Config, s: Pool, c: nat) returns (ev: Event)
    requires IsCall(s, c) && CallOk(cfg, c, s.calls[c]) && Waiting(s.calls[c])
    requires s.calls[c].phase.Submitting? || |s.calls[c].received| == s.calls[c].submitted || s.calls[c].replyTo != []
    ensures Enabled(cfg, s, ev) && Unforced(cfg, s, ev) && CallOf(cfg, s, ev) == Some(c)
  {
    var call := s.calls[c];
    if call.phase.Submitting? {
      if call.next == |Candidates(cfg, call.trace)| {
        ev := StartCollect(c);
      } else if !AtEligible(cfg, s, c) {
        ev := Skip(c);
      } else {
        ev := if |s.queue| < cfg.queueSize then Enqueue(c) else Reject(c);
      }
    } else if |call.received| == call.submitted {
      ev := Finish(c);
    } else {
      assert call.replyTo[0].task.call == c;
      ev := Receive(c);
    }
  }

  lemma TaskProgress(cfg: Config, s: Pool, t: Task) returns (ev: Event)
    requires Reachable(cfg, s) && |s.workers| >= 1 && ValidTask(s, t) && InFlight(StageOf(s, t))
    ensures Unforced(cfg, s, ev) && BringsOn(cfg, s, ev, t.call, t)
  {
    ReachableInv(cfg, s);
    InFlightIsSomewhere(s, t);
    if t !in s.queue {
      var k :| 0 <= k < |s.workers| && !s.workers[k].Idle? && WorkerTask(s.workers[k]) == t;
      ev := WorkerCanAct(cfg, s, k);
    } else {
      if w :| 0 <= w < |s.workers| && !s.workers[w].Idle? {
        ev := WorkerCanAct(cfg, s, w);
      } else {
        assert ValidTask(s, s.queue[0]);
        ev := Take(0);
      }
      if CallOf(cfg, s, ev) != Some(t.call) {
        QueuedTaskAdvances(cfg, s, ev, t);
      }
    }
  }

  // A reply still missing is owed by a task in flight.
  lemma InFlightTask(cfg: Config, s: Pool, c: nat) returns (t: Task)
    requires IsCall(s, c) && CallOk(cfg, c, s.calls[c])
    requires s.calls[c].replyTo == [] && |s.calls[c].received| != s.calls[c].submitted
    ensures t.call == c && ValidTask(s, t) && InFlight(StageOf(s, t))
  {
    var stages := s.calls[c].stages;
    CountZero(stages, Queued);
    CountZero(stages, Running);
    CountZero(stages, Replying);
    var i :| 0 <= i < |stages| && InFlight(stages[i]);
    t := Task(c, i);
  }

  // When nothing can happen any more, every call has ended.
  lemma AtRestAllCallsEnded(cfg: Config, s: Pool, c: nat)
    requires Reachable(cfg, s) && |s.workers| >= 1 && IsCall(s, c)
    requires forall ev :: Unforced(cfg, s, ev) ==> !Enabled(cfg, s, ev)
    ensures s.calls[c].phase.Returned? || s.calls[c].phase.GaveUp?
  {
    if Waiting(s.calls[c]) {
      var ev, t := WaitingCallsProgress(cfg, s, c);
    }
  }
}
