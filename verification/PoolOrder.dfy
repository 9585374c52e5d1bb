// Orders and bounds of the worker pool: the channels hand over what was sent first, a call
// keeps what it received in that order, and neither the queue nor the crew of workers grows.
module PoolOrder {
  import opened Entities
  import opened WorkerPool
  import opened PoolGuarantees
  import opened TraceProcessor

  // Every reply sent to call c so far, received or not.
  function SentTo(s: Pool, c: nat): seq<Reply>
    requires IsCall(s, c)
  {
    s.calls[c].received + s.calls[c].replyTo
  }

  lemma SentToGrows(cfg: Config, s: Pool, ev: Event, c: nat)
    requires OwnReplies(s) && Enabled(cfg, s, ev) && IsCall(s, c)
    ensures IsCall(Next(cfg, s, ev), c)
    ensures SentTo(s, c) <= SentTo(Next(cfg, s, ev), c)
    ensures s.calls[c].received <= Next(cfg, s, ev).calls[c].received
  {
    var s' := Next(cfg, s, ev);
    if ev == Receive(c) {
      var call := s.calls[c];
      ReceiveMovesReply(cfg, s, c);
      assert call.replyTo == [call.replyTo[0]] + call.replyTo[1..];
      assert SentTo(s', c) == SentTo(s, c);
    }
  }

  // A reply channel is first in, first out: over any run, what call c has received and what
  // still waits in its channel only grow at the end, so replies are received as they were sent.
  lemma RepliesComeInOrder(cfg: Config, s: Pool, evs: seq<Event>, s': Pool, c: nat)
    requires Reachable(cfg, s) && Reaches(cfg, s, evs, s') && IsCall(s, c)
    ensures IsCall(s', c) && SentTo(s, c) <= SentTo(s', c) && s.calls[c].received <= s'.calls[c].received
  {
    ReachableInv(cfg, s);
    SentToKept(cfg, s, evs, s', c);
  }

  lemma {:induction false} SentToKept(cfg: Config, s: Pool, evs: seq<Event>, s': Pool, c: nat)
    requires Inv(cfg, s) && Reaches(cfg, s, evs, s') && IsCall(s, c)
    ensures IsCall(s', c) && SentTo(s, c) <= SentTo(s', c) && s.calls[c].received <= s'.calls[c].received
    decreases |evs|
  {
    if evs != [] {
      InvKept(cfg, s, evs[0]);
      InvOwnReplies(cfg, s);
      SentToGrows(cfg, s, evs[0], c);
      SentToKept(cfg, Next(cfg, s, evs[0]), evs[1..], s', c);
    }
  }

  // A call's discoveries are the traces of the replies it received, one for one and in order.
  lemma DiscoveriesFollowReplies(cfg: Config, s: Pool, c: nat) returns (from: seq<Spot>)
    requires Reachable(cfg, s) && IsCall(s, c)
    ensures InOrder(s.calls[c].trace, s.calls[c].received, s.calls[c].discoveries, from)
  {
    ReachableInv(cfg, s);
    assert CallOk(cfg, c, s.calls[c]);
    from := CollectedInOrder(s.calls[c].trace, s.calls[c].received);
  }

  // A call is only ever made for a trace whose type has plugins, and has one task for each.
  ghost predicate HasTasks(cfg: Config, call: Call) {
    && call.trace.kind in cfg.registry && cfg.registry[call.trace.kind] != []
    && |call.stages| == |cfg.registry[call.trace.kind]|
  }

  ghost predicate WithinBounds(cfg: Config, workers: nat, s: Pool) {
    && |s.queue| <= cfg.queueSize && |s.workers| == workers
    && forall c :: 0 <= c < |s.calls| ==> HasTasks(cfg, s.calls[c])
  }

  lemma BoundsKept(cfg: Config, workers: nat, s: Pool, ev: Event)
    requires WithinBounds(cfg, workers, s) && Enabled(cfg, s, ev)
    ensures WithinBounds(cfg, workers, Next(cfg, s, ev))
  {
  }

  lemma {:induction false} BoundsAlways(cfg: Config, workers: nat, s: Pool, evs: seq<Event>, s': Pool)
    requires WithinBounds(cfg, workers, s) && Reaches(cfg, s, evs, s')
    ensures WithinBounds(cfg, workers, s')
    decreases |evs|
  {
    if evs != [] {
      BoundsKept(cfg, workers, s, evs[0]);
      BoundsAlways(cfg, workers, Next(cfg, s, evs[0]), evs[1..], s');
    }
  }

  // The queue never holds more than its size, the pool keeps its workers, and only traces with
  // plugins are submitted, whatever happens.
  lemma PoolStaysWithinBounds(cfg: Config, workers: nat, evs: seq<Event>, s: Pool)
    requires Reaches(cfg, WorkerPool.Start(workers), evs, s)
    ensures WithinBounds(cfg, workers, s)
  {
    BoundsAlways(cfg, workers, WorkerPool.Start(workers), evs, s);
  }

  // ---- When each action can happen ----

  // The conditions the code itself puts on an action: nothing about free places in a reply
  // channel, and nothing about the tasks that queue, workers and replies refer to.
  ghost predicate Guard(cfg: Config, s: Pool, ev: Event) {
    match ev
    case Begin(t) => t.kind in cfg.registry && cfg.registry[t.kind] != []
    case Skip(c) => HasNext(cfg, s, c) && !Serves(cfg, s.calls[c].trace, s.calls[c].next)
    case Dedup(c) => HasNext(cfg, s, c) && Serves(cfg, s.calls[c].trace, s.calls[c].next)
    case Reject(c) => HasNext(cfg, s, c) && Serves(cfg, s.calls[c].trace, s.calls[c].next)
    case Enqueue(c) => HasNext(cfg, s, c) && Serves(cfg, s.calls[c].trace, s.calls[c].next)
                       && |s.queue| < cfg.queueSize
    case StartCollect(c) => c < |s.calls| && s.calls[c].phase.Submitting? && !HasNext(cfg, s, c)
    case Receive(c) => c < |s.calls| && s.calls[c].phase.Collecting? && |s.calls[c].received| < s.calls[c].submitted
                       && s.calls[c].replyTo != []
    case Finish(c) => c < |s.calls| && s.calls[c].phase.Collecting? && |s.calls[c].received| == s.calls[c].submitted
    case GiveUp(c) => c < |s.calls| && s.calls[c].phase.Collecting? && |s.calls[c].received| < s.calls[c].submitted
    case Take(w) => w < |s.workers| && s.workers[w].Idle? && s.queue != []
    case Run(w, _) => w < |s.workers| && s.workers[w].Busy?
    case Send(w) => w < |s.workers| && s.workers[w].Sending?
  }

  // No action of the code ever has to wait for anything else.
  lemma EnabledIffGuard(cfg: Config, s: Pool, ev: Event)
    requires Reachable(cfg, s)
    ensures Enabled(cfg, s, ev) <==> Guard(cfg, s, ev)
  {
    ReachableInv(cfg, s);
    SendsNeverBlock(cfg, s);
    if IsWorkerEvent(ev) {
      WorkerGuard(cfg, s, ev);
    } else if !ev.Begin? && ev.c < |s.calls| {
      CallGuard(cfg, s, ev);
    }
  }

  lemma WorkerGuard(cfg: Config, s: Pool, ev: Event)
    requires Inv(cfg, s) && IsWorkerEvent(ev)
    requires ev.Send? && ev.w < |s.workers| && s.workers[ev.w].Sending? ==>
               HasPlace(cfg, s, s.workers[ev.w].reply.task.call)
    ensures Enabled(cfg, s, ev) <==> Guard(cfg, s, ev)
  {
    WorkerHasTask(cfg, s, ev.w);
    assert s.queue != [] ==> ValidTask(s, s.queue[0]);
  }

  lemma WorkerHasTask(cfg: Config, s: Pool, w: nat)
    requires Inv(cfg, s)
    ensures w < |s.workers| && !s.workers[w].Idle? ==>
              var t := WorkerTask(s.workers[w]);
              ValidTask(s, t) && t.idx < |Candidates(cfg, s.calls[t.call].trace)|
  {
    if w < |s.workers| && !s.workers[w].Idle? {
      var t := WorkerTask(s.workers[w]);
      assert ValidTask(s, t) && CallOk(cfg, t.call, s.calls[t.call]);
    }
  }

  lemma CallGuard(cfg: Config, s: Pool, ev: Event)
    requires !ev.Begin? && !IsWorkerEvent(ev) && ev.c < |s.calls| && CallOk(cfg, ev.c, s.calls[ev.c])
    requires HasNext(cfg, s, ev.c) ==> HasPlace(cfg, s, ev.c)
    ensures Enabled(cfg, s, ev) <==> Guard(cfg, s, ev)
  {
    var call := s.calls[ev.c];
    if call.replyTo != [] {
      assert call.replyTo[0].task.call == ev.c && call.replyTo[0].task.idx < |call.stages|;
    }
  }
}
