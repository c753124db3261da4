/**
 When the scan loop starts its cycles.  Deadlines are absolute, so a late cycle does not
 push the later ones; sleeping is taken to end exactly at the deadline, or at once if it
 has passed.
 */
module ScanClock {
  /** The deadline before which cycle `n` may not start. */
  function Scheduled(t0: int, period: nat, n: nat): int {
    if n == 0 then t0 else Scheduled(t0, period, n - 1) + period
  }

  lemma {:induction false} ScheduledIsPeriodic(t0: int, period: nat, n: nat)
    ensures Scheduled(t0, period, n) == t0 + n * period
  {
    if n > 0 {
      ScheduledIsPeriodic(t0, period, n - 1);
      assert n * period == (n - 1) * period + period;
    }
  }

  /** Start of cycle `n`, when cycle `i` works for `work[i]`. */
  function Start(t0: int, period: nat, work: seq<nat>, n: nat): int
    requires n <= |work|
  {
    if n == 0 then t0
    else
      var finished, deadline := Start(t0, period, work, n - 1) + work[n - 1], Scheduled(t0, period, n);
      if finished < deadline then deadline else finished
  }

  /** The loop: advance the deadline, work, sleep until the deadline. */
  method Run(t0: int, period: nat, work: seq<nat>) returns (starts: seq<int>)
    ensures |starts| == |work| && forall n :: 0 <= n < |work| ==> starts[n] == Start(t0, period, work, n)
  {
    starts := [];
    var now, nextCycleTime := t0, t0;
    for n := 0 to |work|
      invariant |starts| == n && forall i :: 0 <= i < n ==> starts[i] == Start(t0, period, work, i)
      invariant now == Start(t0, period, work, n) && nextCycleTime == Scheduled(t0, period, n)
    {
      starts := starts + [now];
      nextCycleTime := nextCycleTime + period;
      now := now + work[n];
      if now < nextCycleTime {
        now := nextCycleTime;
      }
    }
  }

  /** Work done in cycles j..n-1. */
  function WorkFrom(work: seq<nat>, j: nat, n: nat): nat
    requires j <= n <= |work|
  {
    if j == n then 0 else WorkFrom(work, j, n - 1) + work[n - 1]
  }

  /** Cycle `n` starts at the latest of: the scheduled start of some cycle j, plus all work since. */
  lemma {:induction false} StartClosedForm(t0: int, period: nat, work: seq<nat>, n: nat) returns (latest: nat)
    requires n <= |work|
    ensures forall j :: 0 <= j <= n ==> Scheduled(t0, period, j) + WorkFrom(work, j, n) <= Start(t0, period, work, n)
    ensures latest <= n && Start(t0, period, work, n) == Scheduled(t0, period, latest) + WorkFrom(work, latest, n)
  {
    latest := 0;
    if n > 0 {
      latest := StartClosedForm(t0, period, work, n - 1);
      if Start(t0, period, work, n) == Scheduled(t0, period, n) {
        latest := n;
      }
    }
  }

  /** By how much cycle `n` starts after its time. */
  function Lateness(t0: int, period: nat, work: seq<nat>, n: nat): int
    requires n <= |work|
  {
    Start(t0, period, work, n) - (t0 + n * period)
  }

  /** A cycle never starts before its time, and it starts late by the overrun of the worst
      stretch of cycles that ends just before it: lateness does not pile up beyond that. */
  lemma LatenessIsOverrun(t0: int, period: nat, work: seq<nat>, n: nat) returns (j: nat)
    requires n <= |work|
    ensures j <= n && Lateness(t0, period, work, n) == WorkFrom(work, j, n) - (n * period - j * period)
    ensures forall i :: 0 <= i <= n ==>
      WorkFrom(work, i, n) - (n * period - i * period) <= Lateness(t0, period, work, n)
    ensures Lateness(t0, period, work, n) >= 0
  {
    j := StartClosedForm(t0, period, work, n);
    ScheduledIsPeriodic(t0, period, j);
    ScheduledIsPeriodic(t0, period, n);
    forall i | 0 <= i <= n
      ensures WorkFrom(work, i, n) - (n * period - i * period) <= Lateness(t0, period, work, n)
    {
      ScheduledIsPeriodic(t0, period, i);
    }
    assert Scheduled(t0, period, n) + WorkFrom(work, n, n) <= Start(t0, period, work, n);
  }

  ghost predicate OnSchedule(t0: int, period: nat, work: seq<nat>, n: nat)
    requires n <= |work|
  {
    Start(t0, period, work, n) == Scheduled(t0, period, n)
  }

  /** Every cycle starts exactly on its period if and only if no cycle works longer than one. */
  lemma OnScheduleIff(t0: int, period: nat, work: seq<nat>)
    ensures (forall n :: 0 <= n <= |work| ==> OnSchedule(t0, period, work, n))
       <==> (forall i :: 0 <= i < |work| ==> work[i] <= period)
  {
    if forall i :: 0 <= i < |work| ==> work[i] <= period {
      forall n | 0 <= n <= |work| ensures OnSchedule(t0, period, work, n) {
        OnTime(t0, period, work, n);
      }
    }
    if forall n :: 0 <= n <= |work| ==> OnSchedule(t0, period, work, n) {
      forall i | 0 <= i < |work| ensures work[i] <= period {
        assert OnSchedule(t0, period, work, i) && OnSchedule(t0, period, work, i + 1);
      }
    }
  }

  lemma {:induction false} OnTime(t0: int, period: nat, work: seq<nat>, n: nat)
    requires n <= |work| && forall i :: 0 <= i < |work| ==> work[i] <= period
    ensures OnSchedule(t0, period, work, n)
  {
    if n > 0 {
      OnTime(t0, period, work, n - 1);
    }
  }
}
