// Per-type metrics: the running average kept in integer nanoseconds.
module TraceMetrics {
  import opened Arithmetic

  // Go's integer division, which truncates toward zero.
  function Quotient(a: int, b: int): int
    requires b > 0
  {
    if a >= 0 then a / b else -((-a) / b)
  }

  datatype Metrics = Metrics(processed: nat, discovered: nat, avgTime: int)

  function Recorded(m: Metrics, processed: bool, discovered: nat, duration: int): Metrics {
    var n := if processed then m.processed + 1 else m.processed;
    Metrics(n, m.discovered + discovered,
            if n > 0 then Quotient(m.avgTime * (n - 1) + duration, n) else duration)
  }

  class TraceTypeMetrics {
    var processed: nat
    var discovered: nat
    var avgTime: int

    function Value(): Metrics
      reads this
    {
      Metrics(processed, discovered, avgTime)
    }

    constructor ()
      ensures Value() == Metrics(0, 0, 0)
    {
      processed, discovered, avgTime := 0, 0, 0;
    }

    method Record(wasProcessed: bool, found: nat, duration: int)
      modifies this
      ensures Value() == Recorded(old(Value()), wasProcessed, found, duration)
    {
      if wasProcessed {
        processed := processed + 1;
      }
      discovered := discovered + found;
      if processed > 0 {
        avgTime := Quotient(avgTime * (processed - 1) + duration, processed);
      } else {
        avgTime := duration;
      }
    }
  }

  // The metrics after processing traces that took the given times.
  function After(durations: seq<nat>): Metrics {
    if durations == [] then Metrics(0, 0, 0)
    else Recorded(After(durations[..|durations| - 1]), true, 0, durations[|durations| - 1])
  }

  function Sum(durations: seq<nat>): nat {
    if durations == [] then 0 else Sum(durations[..|durations| - 1]) + durations[|durations| - 1]
  }

  // Each step loses less than one nanosecond per trace counted so far, so after n traces the
  // average is off by at most n(n-1)/2 in total, and it stays within the recorded range.
  lemma {:induction false} AverageErrorIsBounded(durations: seq<nat>, low: nat, high: nat)
    requires durations != [] && forall i :: 0 <= i < |durations| ==> low <= durations[i] <= high
    ensures var n, a := |durations|, After(durations).avgTime;
            && After(durations).processed == n
            && 0 <= 2 * (Sum(durations) - n * a) <= n * (n - 1)
            && low <= a <= high
    decreases |durations|
  {
    var n := |durations|;
    var front, d := durations[..n - 1], durations[n - 1];
    if n == 1 {
      assert After(front) == Metrics(0, 0, 0) && Sum(front) == 0;
    } else {
      AverageErrorIsBounded(front, low, high);
      StepError(After(front).avgTime, n, d, Sum(front), low, high);
    }
  }

  lemma StepError(a: int, n: int, d: nat, s: nat, low: nat, high: nat)
    requires n >= 2 && low <= a <= high && low <= d <= high
    requires 0 <= 2 * (s - (n - 1) * a) <= (n - 1) * (n - 2)
    ensures var a' := Quotient(a * (n - 1) + d, n);
            0 <= 2 * (s + d - n * a') <= n * (n - 1) && low <= a' <= high
  {
    var x := a * (n - 1) + d;
    TimesMonotone(0, a, n - 1);
    TimesMonotone(low, a, n - 1);
    TimesMonotone(a, high, n - 1);
    Remainder(x, n);
    assert (n - 1) * (n - 2) + 2 * (n - 1) == n * (n - 1);
    assert low * n == low * (n - 1) + low && high * n == high * (n - 1) + high;
    WithinRange(x, n, low, high);
  }

  lemma Remainder(x: int, n: int)
    requires x >= 0 && n > 0
    ensures x - n < n * Quotient(x, n) <= x
  {
    assert x == n * (x / n) + x % n;
  }

  // The division truncates: what is left over is smaller than the divisor and has the sign of
  // the dividend.
  lemma QuotientTruncates(a: int, b: int)
    requires b > 0
    ensures var left := a - b * Quotient(a, b);
            -b < left < b && (left > 0 ==> a > 0) && (left < 0 ==> a < 0)
  {
    if a >= 0 {
      assert a == b * (a / b) + a % b;
    } else {
      var q := (-a) / b;
      assert -a == b * q + (-a) % b;
      assert b * -q == -(b * q);
    }
  }

  lemma WithinRange(x: int, n: int, low: int, high: int)
    requires n > 0 && low * n <= x <= high * n
    ensures low <= Quotient(x, n) <= high
  {
    var q := Quotient(x, n);
    QuotientTruncates(x, n);
    assert n * q == q * n && (q + 1) * n == q * n + n && (high + 1) * n == high * n + n;
    if q + 1 <= low {
      TimesMonotone(q + 1, low, n);
    }
    if high + 1 <= q {
      TimesMonotone(high + 1, q, n);
    }
  }

  // The bound is reached: times 0, 1, 2, ... are averaged to 0.
  lemma {:induction false} BoundIsTight(n: nat, durations: seq<nat>)
    requires n > 0 && |durations| == n && forall i :: 0 <= i < n ==> durations[i] == i
    ensures After(durations) == Metrics(n, 0, 0) && 2 * Sum(durations) == n * (n - 1)
    decreases n
  {
    if n > 1 {
      BoundIsTight(n - 1, durations[..n - 1]);
      assert 0 * (n - 1) + (n - 1) == n - 1 && (n - 1) / n == 0;
      assert After(durations) == Recorded(Metrics(n - 1, 0, 0), true, 0, n - 1);
      assert n * (n - 1) == (n - 1) * (n - 2) + 2 * (n - 1);
    } else {
      assert durations[..0] == [] && After(durations[..0]) == Metrics(0, 0, 0);
    }
  }

  // ---- Traces with and without plugins, mixed ----

  datatype Recording = Recording(processed: bool, discovered: nat, duration: int)

  function AfterAll(rs: seq<Recording>): Metrics {
    if rs == [] then Metrics(0, 0, 0)
    else
      var last := rs[|rs| - 1];
      Recorded(AfterAll(rs[..|rs| - 1]), last.processed, last.discovered, last.duration)
  }

  function ProcessedIn(rs: seq<Recording>): nat {
    if rs == [] then 0 else ProcessedIn(rs[..|rs| - 1]) + (if rs[|rs| - 1].processed then 1 else 0)
  }

  function DiscoveredIn(rs: seq<Recording>): nat {
    if rs == [] then 0 else DiscoveredIn(rs[..|rs| - 1]) + rs[|rs| - 1].discovered
  }

  // The counters are the totals over all recordings. The average never leaves the range of the
  // recorded times, and is the last of them until a trace was processed.
  lemma {:induction false} TotalsAddUp(rs: seq<Recording>, low: int, high: int)
    requires rs != [] && forall i :: 0 <= i < |rs| ==> low <= rs[i].duration <= high
    ensures AfterAll(rs).processed == ProcessedIn(rs) && AfterAll(rs).discovered == DiscoveredIn(rs)
    ensures low <= AfterAll(rs).avgTime <= high
    ensures ProcessedIn(rs) == 0 ==> AfterAll(rs).avgTime == rs[|rs| - 1].duration
    decreases |rs|
  {
    var n := |rs| - 1;
    if n == 0 {
      assert rs[..0] == [];
      RecordedInRange(Metrics(0, 0, 0), rs[0], low, high);
    } else {
      TotalsAddUp(rs[..n], low, high);
      RecordedInRange(AfterAll(rs[..n]), rs[n], low, high);
    }
  }

  // A trace that was not processed still shifts the average, as if it were the last one counted.
  lemma RecordedInRange(m: Metrics, r: Recording, low: int, high: int)
    requires low <= r.duration <= high && (m.processed > 0 ==> low <= m.avgTime <= high)
    ensures var m' := Recorded(m, r.processed, r.discovered, r.duration);
            low <= m'.avgTime <= high && (m'.processed == 0 ==> m'.avgTime == r.duration)
  {
    var n := if r.processed then m.processed + 1 else m.processed;
    if n > 0 {
      WeightedSum(m.avgTime, n, r.duration, low, high);
      WithinRange(m.avgTime * (n - 1) + r.duration, n, low, high);
    }
  }

  lemma WeightedSum(a: int, n: nat, d: int, low: int, high: int)
    requires n > 0 && low <= d <= high && (n > 1 ==> low <= a <= high)
    ensures low * n <= a * (n - 1) + d <= high * n
  {
    if n > 1 {
      TimesMonotone(low, a, n - 1);
      TimesMonotone(a, high, n - 1);
    }
    assert low * n == low * (n - 1) + low && high * n == high * (n - 1) + high;
  }
}
