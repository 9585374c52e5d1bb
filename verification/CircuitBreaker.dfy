// The circuit breaker over whole runs of sequential Execute calls.
module CircuitBreakers {
  import opened Arithmetic

  // A clock reading or a duration, in nanoseconds.
  type Time = int

  const SECOND: Time := 1_000_000_000

  datatype State = Closed | Open | HalfOpen

  datatype Config = Config(failureThreshold: int, recoveryTimeout: Time, halfOpenMaxCalls: int, windowSize: Time)

  // NewCircuitBreaker's defaults.
  function WithDefaults(c: Config): Config {
    Config(if c.failureThreshold <= 0 then 5 else c.failureThreshold,
           if c.recoveryTimeout <= 0 then 60 * SECOND else c.recoveryTimeout,
           if c.halfOpenMaxCalls <= 0 then 3 else c.halfOpenMaxCalls,
           if c.windowSize <= 0 then 60 * SECOND else c.windowSize)
  }

  predicate IsConfigured(c: Config) {
    c.failureThreshold > 0 && c.recoveryTimeout > 0 && c.halfOpenMaxCalls > 0 && c.windowSize > 0
  }

  // A positive value given is the one used; any other is replaced.
  predicate IsSet(used: int, given: int, standard: int) {
    (given > 0 ==> used == given) && (given <= 0 ==> used == standard)
  }

  datatype Breaker = Breaker(
    state: State,
    failureCount: int,
    lastFailureTime: Time,
    halfOpenCalls: int,
    successCount: int)

  // The clock readings of one Execute, in order: shouldOpen inside IsOpen, tryHalfOpen,
  // recordFailure, and shouldOpen after it; and whether fn succeeded.
  datatype Call = Call(check: Time, trial: Time, record: Time, settle: Time, ok: bool)

  function ShouldOpen(c: Config, b: Breaker, now: Time): bool {
    b.failureCount >= c.failureThreshold && now - b.lastFailureTime <= c.windowSize
  }

  function RefusesCalls(c: Config, b: Breaker, now: Time): bool {
    match b.state
    case Open => true
    case HalfOpen => b.halfOpenCalls < c.halfOpenMaxCalls
    case Closed => ShouldOpen(c, b, now)
  }

  function CanTry(c: Config, b: Breaker, now: Time): bool {
    b.state.Open? && now - b.lastFailureTime >= c.recoveryTimeout
  }

  // recordSuccess and recordFailure
  function Recorded(c: Config, b: Breaker, record: Time, settle: Time, ok: bool): Breaker {
    if ok then
      var b' := b.(successCount := b.successCount + 1, failureCount := 0);
      if b.state.HalfOpen? then b'.(state := Closed, halfOpenCalls := 0) else b'
    else
      var b' := b.(failureCount := b.failureCount + 1, lastFailureTime := record);
      if ShouldOpen(c, b', settle) then b'.(state := Open) else b'
  }

  function Runs(c: Config, b: Breaker, call: Call): bool {
    !RefusesCalls(c, b, call.check) || CanTry(c, b, call.trial)
  }

  // The breaker at the moment fn is called.
  function Admitted(c: Config, b: Breaker, call: Call): Breaker {
    var b' := if RefusesCalls(c, b, call.check) then b.(state := HalfOpen, halfOpenCalls := 0) else b;
    if b'.state.HalfOpen? then b'.(halfOpenCalls := b'.halfOpenCalls + 1) else b'
  }

  function Executed(c: Config, b: Breaker, call: Call): Breaker {
    if Runs(c, b, call) then Recorded(c, Admitted(c, b, call), call.record, call.settle, call.ok) else b
  }

  class CircuitBreaker {
    const config: Config
    var state: State
    var failureCount: int
    var lastFailureTime: Time
    var halfOpenCalls: int
    var successCount: int

    function Value(): Breaker
      reads this
    {
      Breaker(state, failureCount, lastFailureTime, halfOpenCalls, successCount)
    }

    constructor (config: Config)
      ensures this.config == WithDefaults(config) && IsConfigured(this.config)
      ensures IsSet(this.config.failureThreshold, config.failureThreshold, 5)
      ensures IsSet(this.config.recoveryTimeout, config.recoveryTimeout, 60_000_000_000)
      ensures IsSet(this.config.halfOpenMaxCalls, config.halfOpenMaxCalls, 3)
      ensures IsSet(this.config.windowSize, config.windowSize, 60_000_000_000)
      ensures Value() == Breaker(Closed, 0, 0, 0, 0)
    {
      this.config := WithDefaults(config);
      state, failureCount, lastFailureTime, halfOpenCalls, successCount := Closed, 0, 0, 0, 0;
    }

    method IsOpen(now: Time) returns (open: bool)
      ensures open == RefusesCalls(config, Value(), now)
    {
      match state
      case Open => open := true;
      case HalfOpen => open := halfOpenCalls < config.halfOpenMaxCalls;
      case Closed => open := failureCount >= config.failureThreshold && now - lastFailureTime <= config.windowSize;
    }

    method TryHalfOpen(now: Time) returns (ok: bool)
      modifies this
      ensures ok == CanTry(config, old(Value()), now)
      ensures Value() == if ok then old(Value()).(state := HalfOpen, halfOpenCalls := 0) else old(Value())
    {
      if state != Open || now - lastFailureTime < config.recoveryTimeout {
        return false;
      }
      state, halfOpenCalls := HalfOpen, 0;
      ok := true;
    }

    method RecordResult(record: Time, settle: Time, success: bool)
      modifies this
      ensures Value() == Recorded(config, old(Value()), record, settle, success)
    {
      if success {
        successCount, failureCount := successCount + 1, 0;
        if state == HalfOpen {
          state, halfOpenCalls := Closed, 0;
        }
      } else {
        lastFailureTime, failureCount := record, failureCount + 1;
        if failureCount >= config.failureThreshold && settle - lastFailureTime <= config.windowSize {
          state := Open;
        }
      }
    }

    // ran tells whether fn was called; if not, the caller got ErrCircuitBreakerOpen.
    method Execute(call: Call) returns (ran: bool)
      modifies this
      ensures ran == Runs(config, old(Value()), call)
      ensures Value() == Executed(config, old(Value()), call)
    {
      var open := IsOpen(call.check);
      if open {
        var trying := TryHalfOpen(call.trial);
        if !trying {
          return false;
        }
      }
      if state == HalfOpen {
        halfOpenCalls := halfOpenCalls + 1;
      }
      RecordResult(call.record, call.settle, call.ok);
      ran := true;
    }
  }

  // ---- Whole runs ----

  function Fresh(): Breaker {
    Breaker(Closed, 0, 0, 0, 0)
  }

  function From(c: Config, b: Breaker, calls: seq<Call>): Breaker {
    if calls == [] then b else Executed(c, From(c, b, calls[..|calls| - 1]), calls[|calls| - 1])
  }

  function After(c: Config, calls: seq<Call>): Breaker {
    From(c, Fresh(), calls)
  }

  // The last call of the sequence was let through.
  predicate LastRan(c: Config, calls: seq<Call>)
    requires calls != []
  {
    Runs(c, After(c, calls[..|calls| - 1]), calls[|calls| - 1])
  }

  // Consecutive failures at the end, refused calls not counted.
  function TrailingFailures(c: Config, calls: seq<Call>): nat {
    if calls == [] then 0
    else if !LastRan(c, calls) then TrailingFailures(c, calls[..|calls| - 1])
    else if calls[|calls| - 1].ok then 0
    else TrailingFailures(c, calls[..|calls| - 1]) + 1
  }

  // How often fn was called.
  function Executions(c: Config, calls: seq<Call>): nat {
    if calls == [] then 0
    else Executions(c, calls[..|calls| - 1]) + (if LastRan(c, calls) then 1 else 0)
  }

  // The outcomes of the calls that were let through, with the times they were recorded.
  datatype Outcome = Outcome(ok: bool, record: Time)

  function Outcomes(c: Config, calls: seq<Call>): seq<Outcome> {
    if calls == [] then []
    else
      var front, last := calls[..|calls| - 1], calls[|calls| - 1];
      if LastRan(c, calls) then Outcomes(c, front) + [Outcome(last.ok, last.record)] else Outcomes(c, front)
  }

  function Successes(outcomes: seq<Outcome>): nat {
    if outcomes == [] then 0
    else Successes(outcomes[..|outcomes| - 1]) + (if outcomes[|outcomes| - 1].ok then 1 else 0)
  }

  // No failure came after the i-th outcome, which is one.
  predicate IsLastFailure(outcomes: seq<Outcome>, i: int) {
    0 <= i < |outcomes| && !outcomes[i].ok && forall j :: i < j < |outcomes| ==> outcomes[j].ok
  }

  lemma LastFailureOf(front: seq<Outcome>, last: Outcome, i: int)
    requires IsLastFailure(front + [last], i)
    ensures if last.ok then IsLastFailure(front, i) && (front + [last])[i] == front[i] else i == |front|
  {
    assert (front + [last])[|front|] == last;
    if last.ok {
      assert i < |front|;
      forall j | i < j < |front|
        ensures front[j].ok
      {
        assert (front + [last])[j] == front[j];
      }
    }
  }

  // The successes are all counted, and the last failure's time is kept, whatever the breaker
  // did in between; refused calls leave no trace.
  lemma {:induction false} CountersFollowOutcomes(c: Config, calls: seq<Call>)
    ensures |Outcomes(c, calls)| == Executions(c, calls)
    ensures After(c, calls).successCount == Successes(Outcomes(c, calls))
    ensures forall i :: IsLastFailure(Outcomes(c, calls), i) ==>
              After(c, calls).lastFailureTime == Outcomes(c, calls)[i].record
    decreases |calls|
  {
    if calls != [] {
      var front := calls[..|calls| - 1];
      CountersFollowOutcomes(c, front);
      if LastRan(c, calls) {
        forall i | IsLastFailure(Outcomes(c, calls), i)
          ensures After(c, calls).lastFailureTime == Outcomes(c, calls)[i].record
        {
          var last := calls[|calls| - 1];
          LastFailureOf(Outcomes(c, front), Outcome(last.ok, last.record), i);
        }
      }
    }
  }

  // The failures at the end of the run have reached the threshold, but the last of them took
  // longer than the window to record.
  predicate LateTrip(c: Config, calls: seq<Call>)
    requires calls != []
  {
    var call := calls[|calls| - 1];
    && LastRan(c, calls) && !call.ok
    && TrailingFailures(c, calls) >= c.failureThreshold
    && call.settle - call.record > c.windowSize
  }

  predicate OnTime(c: Config, calls: seq<Call>) {
    forall n :: 0 < n <= |calls| ==> !LateTrip(c, calls[..n])
  }

  // Never half-open: open when the failures at the end reach the threshold, closed otherwise.
  predicate OpenOnFailures(c: Config, calls: seq<Call>) {
    After(c, calls).state == if TrailingFailures(c, calls) >= c.failureThreshold then Open else Closed
  }

  lemma {:induction false} FailureCountIsTrailing(c: Config, calls: seq<Call>)
    ensures After(c, calls).failureCount == TrailingFailures(c, calls)
    decreases |calls|
  {
    if calls != [] {
      FailureCountIsTrailing(c, calls[..|calls| - 1]);
    }
  }

  lemma OpenOnFailuresStep(c: Config, calls: seq<Call>)
    requires IsConfigured(c) && calls != [] && OpenOnFailures(c, calls[..|calls| - 1])
    ensures OpenOnFailures(c, calls) <==> !LateTrip(c, calls)
  {
    FailureCountIsTrailing(c, calls[..|calls| - 1]);
    FailureCountIsTrailing(c, calls);
  }

  lemma PrefixOfFront<T>(s: seq<T>, n: nat)
    requires n < |s|
    ensures s[..|s| - 1][..n] == s[..n]
  {
  }

  // Whatever the clock reads, the breaker is between any two calls open exactly when the
  // trailing failures reach the threshold, and never half-open, if and only if no failure that
  // brings them there took longer than the window to record.
  lemma {:induction false} OpenIffTrailingFailures(c: Config, calls: seq<Call>)
    requires IsConfigured(c)
    ensures (forall n :: 0 <= n <= |calls| ==> OpenOnFailures(c, calls[..n])) <==> OnTime(c, calls)
    decreases |calls|
  {
    if calls == [] {
      assert calls[..0] == [];
    } else {
      var front := calls[..|calls| - 1];
      OpenIffTrailingFailures(c, front);
      assert calls[..|calls|] == calls;
      forall n | 0 <= n < |calls|
        ensures front[..n] == calls[..n]
      {
        PrefixOfFront(calls, n);
      }
      assert front[..|front|] == front;
      if OpenOnFailures(c, front) {
        OpenOnFailuresStep(c, calls);
      }
    }
  }

  // ---- Left half-open ----

  // The last call was the trial of an open breaker; it failed and was recorded late.
  predicate LateTrial(c: Config, calls: seq<Call>)
    requires calls != []
  {
    var call := calls[|calls| - 1];
    && After(c, calls[..|calls| - 1]).state.Open?
    && LastRan(c, calls) && !call.ok
    && call.settle - call.record > c.windowSize
  }

  // A trial of an open breaker leaves it half-open exactly when it is such a one.
  lemma TrialMayEndHalfOpen(c: Config, b: Breaker, call: Call)
    requires IsConfigured(c) && b.state.Open? && b.failureCount >= c.failureThreshold
    ensures Executed(c, b, call).state.HalfOpen? <==>
            Runs(c, b, call) && !call.ok && call.settle - call.record > c.windowSize
  {
  }

  lemma {:induction false} TrippedHasFailures(c: Config, calls: seq<Call>)
    requires IsConfigured(c)
    ensures var b := After(c, calls);
            && (!b.state.Closed? ==> b.failureCount >= c.failureThreshold)
            && (b.state.HalfOpen? ==> b.halfOpenCalls >= 1 && (c.halfOpenMaxCalls > 1 ==> b.halfOpenCalls == 1))
    decreases |calls|
  {
    if calls != [] {
      TrippedHasFailures(c, calls[..|calls| - 1]);
    }
  }

  // A run leaves the breaker half-open somewhere if and only if some trial was such a one.
  lemma {:induction false} HalfOpenIffLateTrial(c: Config, calls: seq<Call>)
    requires IsConfigured(c)
    ensures (exists n :: 0 <= n <= |calls| && After(c, calls[..n]).state.HalfOpen?) <==>
            (exists n :: 0 < n <= |calls| && LateTrial(c, calls[..n]))
    decreases |calls|
  {
    if n :| 0 < n <= |calls| && LateTrial(c, calls[..n]) {
      TrippedHasFailures(c, calls[..n][..n - 1]);
      TrialMayEndHalfOpen(c, After(c, calls[..n][..n - 1]), calls[n - 1]);
      assert After(c, calls[..n]).state.HalfOpen?;
    }
    if n :| 0 <= n <= |calls| && After(c, calls[..n]).state.HalfOpen? {
      var m := FirstLateTrial(c, calls[..n]);
      assert calls[..n][..m] == calls[..m];
    }
  }

  lemma {:induction false} FirstLateTrial(c: Config, calls: seq<Call>) returns (n: nat)
    requires IsConfigured(c) && After(c, calls).state.HalfOpen?
    ensures 0 < n <= |calls| && LateTrial(c, calls[..n])
    decreases |calls|
  {
    assert calls != [];
    var front := calls[..|calls| - 1];
    if After(c, front).state.HalfOpen? {
      n := FirstLateTrial(c, front);
      assert front[..n] == calls[..n];
    } else {
      n := |calls|;
      assert calls[..n] == calls;
      TrippedHasFailures(c, front);
    }
  }

  // A breaker left half-open refuses every later call if and only if it has trials to spare.
  lemma {:induction false} HalfOpenIsStuck(c: Config, b: Breaker, later: seq<Call>)
    requires b.state.HalfOpen? && later != []
    ensures (forall i :: 0 <= i < |later| ==> !Runs(c, From(c, b, later[..i]), later[i])) <==>
            b.halfOpenCalls < c.halfOpenMaxCalls
  {
    assert later[..0] == [] && From(c, b, later[..0]) == b;
    if b.halfOpenCalls < c.halfOpenMaxCalls {
      forall i | 0 <= i < |later|
        ensures !Runs(c, From(c, b, later[..i]), later[i])
      {
        HalfOpenStays(c, b, later[..i]);
      }
    } else {
      assert Runs(c, b, later[0]);
    }
  }

  lemma {:induction false} HalfOpenStays(c: Config, b: Breaker, later: seq<Call>)
    requires b.state.HalfOpen? && b.halfOpenCalls < c.halfOpenMaxCalls
    ensures From(c, b, later) == b
    decreases |later|
  {
    if later != [] {
      HalfOpenStays(c, b, later[..|later| - 1]);
    }
  }

  // So after a run that ends half-open it refuses every later call if and only if more than
  // one trial is configured.
  lemma StuckUnlessOneTrial(c: Config, calls: seq<Call>, later: seq<Call>)
    requires IsConfigured(c) && After(c, calls).state.HalfOpen? && later != []
    ensures (forall i :: 0 <= i < |later| ==> !Runs(c, From(c, After(c, calls), later[..i]), later[i])) <==>
            c.halfOpenMaxCalls > 1
  {
    TrippedHasFailures(c, calls);
    HalfOpenIsStuck(c, After(c, calls), later);
  }

  // n failing calls at time 0.
  function Failures(n: nat): (calls: seq<Call>)
    ensures |calls| == n && forall i :: 0 <= i < n ==> calls[i] == Call(0, 0, 0, 0, false)
  {
    seq(n, i => Call(0, 0, 0, 0, false))
  }

  lemma {:induction false} FailuresTrip(c: Config, n: nat)
    requires IsConfigured(c) && n <= c.failureThreshold
    ensures After(c, Failures(n)) == Breaker(if n < c.failureThreshold then Closed else Open, n, 0, 0, 0)
    ensures Executions(c, Failures(n)) == n
  {
    if n > 0 {
      FailuresTrip(c, n - 1);
      assert Failures(n)[..n - 1] == Failures(n - 1);
    }
  }

  // Every configuration has a run that ends half-open, and one that ends closed although the
  // failures have reached the threshold.
  lemma LateRunsExist(c: Config)
    requires IsConfigured(c)
    ensures var r := c.recoveryTimeout;
            After(c, Failures(c.failureThreshold) + [Call(r, r, r, r + c.windowSize + 1, false)]).state.HalfOpen?
    ensures var calls := Failures(c.failureThreshold - 1) + [Call(0, 0, 0, c.windowSize + 1, false)];
            After(c, calls).state.Closed? && TrailingFailures(c, calls) == c.failureThreshold
  {
    var n, r := c.failureThreshold, c.recoveryTimeout;
    FailuresTrip(c, n);
    FailuresTrip(c, n - 1);
    var trial, late := Call(r, r, r, r + c.windowSize + 1, false), Call(0, 0, 0, c.windowSize + 1, false);
    assert (Failures(n) + [trial])[..n] == Failures(n);
    assert (Failures(n - 1) + [late])[..n - 1] == Failures(n - 1);
    FailureCountIsTrailing(c, Failures(n - 1) + [late]);
  }

  // ---- Runs in which fn keeps failing ----

  predicate InOrder(call: Call) {
    call.check <= call.trial <= call.record <= call.settle
  }

  // Every call fails, and clock readings do not decrease.
  predicate IsFailingRun(calls: seq<Call>) {
    && (forall i :: 0 <= i < |calls| ==> InOrder(calls[i]) && !calls[i].ok)
    && (forall i, j :: 0 <= i < j < |calls| ==> calls[i].settle <= calls[j].check)
  }

  // The moment such a run tripped the breaker.
  function TripTime(c: Config, calls: seq<Call>): Time
    requires Executions(c, calls) >= c.failureThreshold > 0
  {
    var front := calls[..|calls| - 1];
    if Executions(c, front) >= c.failureThreshold then TripTime(c, front) else calls[|calls| - 1].record
  }

  // fn was called at most failureThreshold times plus once per recoveryTimeout since then.
  predicate CallsAreRare(c: Config, calls: seq<Call>)
    requires IsConfigured(c) && Executions(c, calls) >= c.failureThreshold
  {
    var span := calls[|calls| - 1].settle - TripTime(c, calls);
    span >= 0 && Executions(c, calls) <= c.failureThreshold + span / c.recoveryTimeout
  }

  // The clock readings of the last call bound what the breaker has recorded.
  lemma {:induction false} FailingRunFacts(c: Config, calls: seq<Call>)
    requires IsConfigured(c) && IsFailingRun(calls)
    ensures After(c, calls).failureCount == Executions(c, calls)
    ensures calls != [] && Executions(c, calls) > 0 ==> After(c, calls).lastFailureTime <= calls[|calls| - 1].settle
    ensures After(c, calls).state.HalfOpen? ==>
      calls != [] && calls[|calls| - 1].settle - After(c, calls).lastFailureTime > c.windowSize
    decreases |calls|
  {
    if calls != [] {
      var n := |calls| - 1;
      FailingRunFacts(c, calls[..n]);
      TrippedHasFailures(c, calls[..n]);
      assert InOrder(calls[n]);
      if n > 0 {
        assert calls[n - 1].settle <= calls[n].check;
      }
    }
  }

  // Past the threshold, fn is called again only after the recovery timeout.
  lemma FailuresAreSpaced(c: Config, calls: seq<Call>)
    requires IsConfigured(c) && IsFailingRun(calls) && calls != []
    requires c.recoveryTimeout <= c.windowSize + 1 || OnTime(c, calls)
    requires Executions(c, calls[..|calls| - 1]) >= c.failureThreshold && LastRan(c, calls)
    ensures calls[|calls| - 1].record - After(c, calls[..|calls| - 1]).lastFailureTime >= c.recoveryTimeout
  {
    var n := |calls| - 1;
    FailingRunFacts(c, calls[..n]);
    assert InOrder(calls[n]);
    if n > 0 {
      assert calls[n - 1].settle <= calls[n].check;
    }
    if c.recoveryTimeout > c.windowSize + 1 {
      OpenIffTrailingFailures(c, calls);
      FailureCountIsTrailing(c, calls[..n]);
      assert OpenOnFailures(c, calls[..n]);
    }
  }

  lemma OneMore(m: int, r: int, span: int, step: int)
    requires m * r <= span && r <= step
    ensures (m + 1) * r <= span + step
  {
    assert (m + 1) * r == m * r + r;
  }

  lemma {:induction false} FailuresAreSpread(c: Config, calls: seq<Call>)
    requires IsConfigured(c) && IsFailingRun(calls) && Executions(c, calls) >= c.failureThreshold
    requires c.recoveryTimeout <= c.windowSize + 1 || OnTime(c, calls)
    ensures (Executions(c, calls) - c.failureThreshold) * c.recoveryTimeout
            <= After(c, calls).lastFailureTime - TripTime(c, calls)
    decreases |calls|
  {
    var n := |calls| - 1;
    var front := calls[..n];
    if Executions(c, front) >= c.failureThreshold {
      forall m | 0 < m <= n
        ensures front[..m] == calls[..m]
      {
      }
      FailuresAreSpread(c, front);
      if LastRan(c, calls) {
        FailuresAreSpaced(c, calls);
        OneMore(Executions(c, front) - c.failureThreshold, c.recoveryTimeout,
                After(c, front).lastFailureTime - TripTime(c, front),
                calls[n].record - After(c, front).lastFailureTime);
      }
    }
  }

  // Such a run calls fn rarely, provided the window is not shorter than the recovery timeout,
  // or else no failure that trips the breaker is recorded late.
  lemma FailingCallsAreRare(c: Config, calls: seq<Call>)
    requires IsConfigured(c) && IsFailingRun(calls) && Executions(c, calls) >= c.failureThreshold
    requires c.recoveryTimeout <= c.windowSize + 1 || OnTime(c, calls)
    ensures CallsAreRare(c, calls)
  {
    FailuresAreSpread(c, calls);
    FailingRunFacts(c, calls);
    SpanBound(Executions(c, calls) - c.failureThreshold, c.recoveryTimeout,
              After(c, calls).lastFailureTime - TripTime(c, calls), calls[|calls| - 1].settle - TripTime(c, calls));
  }

  lemma SpanBound(m: nat, r: int, failing: int, span: int)
    requires r > 0 && m * r <= failing <= span
    ensures 0 <= span && m <= span / r
  {
    TimesMonotone(0, m, r);
    DivisionBound(m, r, span);
  }

  // Over all runs of a configuration, late recordings included, the bound holds if and only if
  // the recovery timeout does not exceed the window by more than one tick.
  lemma RareIffWindowCoversRecovery(c: Config)
    requires IsConfigured(c)
    ensures (forall calls :: IsFailingRun(calls) && Executions(c, calls) >= c.failureThreshold ==>
               CallsAreRare(c, calls)) <==> c.recoveryTimeout <= c.windowSize + 1
  {
    if c.recoveryTimeout <= c.windowSize + 1 {
      forall calls | IsFailingRun(calls) && Executions(c, calls) >= c.failureThreshold
        ensures CallsAreRare(c, calls)
      {
        FailingCallsAreRare(c, calls);
      }
    } else {
      LateTripIsRetriedEarly(c);
    }
  }

  // The failure that should have tripped the breaker is recorded late; the breaker stays
  // closed, and the next call runs as soon as the window is over.
  function EarlyRetry(c: Config): seq<Call>
    requires IsConfigured(c)
  {
    var t := c.windowSize + 1;
    Failures(c.failureThreshold - 1) + [Call(0, 0, 0, t, false), Call(t, t, t, t, false)]
  }

  lemma LateTripStaysClosed(c: Config, late: seq<Call>)
    requires IsConfigured(c)
    requires late == Failures(c.failureThreshold - 1) + [Call(0, 0, 0, c.windowSize + 1, false)]
    ensures Executions(c, late) == c.failureThreshold && TripTime(c, late) == 0
    ensures After(c, late) == Breaker(Closed, c.failureThreshold, 0, 0, 0)
  {
    var n := c.failureThreshold;
    FailuresTrip(c, n - 1);
    assert late[..n - 1] == Failures(n - 1);
  }

  lemma LateTripIsRetriedEarly(c: Config)
    requires IsConfigured(c) && c.recoveryTimeout > c.windowSize + 1
    ensures IsFailingRun(EarlyRetry(c)) && Executions(c, EarlyRetry(c)) >= c.failureThreshold
    ensures !CallsAreRare(c, EarlyRetry(c))
  {
    var n, t, calls := c.failureThreshold, c.windowSize + 1, EarlyRetry(c);
    var late := Failures(n - 1) + [Call(0, 0, 0, t, false)];
    LateTripStaysClosed(c, late);
    assert calls[..n] == late;
    assert Executions(c, calls) == n + 1 && TripTime(c, calls) == 0;
  }
}
