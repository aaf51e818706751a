/** The periodic health check: its options and the arithmetic of its schedule. Times are in nanoseconds. */
module Health {
  const MINUTE: int := 60_000_000_000

  /** The option handling of NewHealthChecker, which overwrites the fields of the options it is given. */
  class HealthCheckerOptions {
    var interval: int
    var timeout: int

    constructor (interval: int, timeout: int)
      ensures this.interval == interval && this.timeout == timeout
    {
      this.interval := interval;
      this.timeout := timeout;
    }

    method Normalize()
      modifies this
      ensures 0 < timeout <= interval
      ensures interval == if old(interval) > 0 then old(interval) else MINUTE
      ensures timeout == if 0 < old(timeout) <= interval then old(timeout) else interval
    {
      if interval <= 0 {
        interval := MINUTE;
      }
      if timeout <= 0 || timeout > interval {
        timeout := interval;
      }
    }
  }

  function Max(a: int, b: int): int {
    if a >= b then a else b
  }

  /** What happens around one pass of the loop: how late the timer fires, and how long the check runs. */
  datatype Pass = Pass(lag: nat, duration: nat)

  /** nextCheck after k advances by the interval. */
  function Slot(t0: int, interval: int, k: nat): int {
    if k == 0 then t0 else Slot(t0, interval, k - 1) + interval
  }

  lemma {:induction false} SlotIsMultiple(t0: int, interval: int, k: nat)
    ensures Slot(t0, interval, k) == t0 + k * interval
  {
    if k == 0 {
    } else {
      SlotIsMultiple(t0, interval, k - 1);
      assert k * interval == (k - 1) * interval + interval;
    }
  }

  /** When the k-th pass could begin at the earliest: at its slot, or when the pass before it ended. */
  function Ready(t0: int, interval: int, passes: seq<Pass>, starts: seq<int>, k: nat): int
    requires k < |starts| <= |passes|
  {
    var slot := Slot(t0, interval, k);
    if k == 0 then slot else Max(slot, starts[k - 1] + passes[k - 1].duration)
  }

  /** The k-th check starts when it is ready, plus the lateness of its timer. */
  predicate OnTime(t0: int, interval: int, passes: seq<Pass>, starts: seq<int>, k: nat)
    requires k < |starts| <= |passes|
  {
    starts[k] == Ready(t0, interval, passes, starts, k) + passes[k].lag
  }

  ghost predicate Schedule(t0: int, interval: int, passes: seq<Pass>, starts: seq<int>) {
    |starts| <= |passes| && forall k :: 0 <= k < |starts| ==> OnTime(t0, interval, passes, starts, k)
  }

  /** periodicHealthCheck, started at t0 and cancelled after |passes| checks; returns the times at which checks start. */
  method PeriodicHealthCheck(t0: int, interval: int, passes: seq<Pass>) returns (starts: seq<int>)
    ensures |starts| == |passes| && Schedule(t0, interval, passes, starts)
  {
    starts := [];
    var now := t0;
    var nextCheck := t0;
    while |starts| < |passes|
      invariant |starts| <= |passes|
      invariant nextCheck == Slot(t0, interval, |starts|)
      invariant now == if |starts| == 0 then t0 else starts[|starts| - 1] + passes[|starts| - 1].duration
      invariant Schedule(t0, interval, passes, starts)
    {
      var pass := passes[|starts|];
      // the timer runs for nextCheck - now, and fires at once if that is not positive
      now := now + Max(nextCheck - now, 0) + pass.lag;
      ghost var before := starts;
      starts := starts + [now];
      forall k | 0 <= k < |starts| ensures OnTime(t0, interval, passes, starts, k) {
        assert k < |before| ==> OnTime(t0, interval, passes, before, k);
      }
      now := now + pass.duration;
      nextCheck := nextCheck + interval;
    }
  }

  /** Checks never drift early: the k-th starts no earlier than t0 + k * interval, nor before the one before it ended. */
  lemma NeverEarly(t0: int, interval: int, passes: seq<Pass>, starts: seq<int>, k: nat)
    requires Schedule(t0, interval, passes, starts) && k < |starts|
    ensures starts[k] >= t0 + k * interval
    ensures k > 0 ==> starts[k] >= starts[k - 1] + passes[k - 1].duration
  {
    SlotIsMultiple(t0, interval, k);
    assert OnTime(t0, interval, passes, starts, k);
  }

  ghost predicate IdealTimers(passes: seq<Pass>) {
    forall k :: 0 <= k < |passes| ==> passes[k].lag == 0
  }

  ghost predicate WithinTimeout(passes: seq<Pass>, timeout: int) {
    forall k :: 0 <= k < |passes| ==> passes[k].duration <= timeout
  }

  /** The total time the passes j, ..., k - 1 take. */
  function Busy(passes: seq<Pass>, j: nat, k: nat): nat
    requires j <= k <= |passes|
    decreases k
  {
    if j == k then 0 else Busy(passes, j, k - 1) + passes[k - 1].duration
  }

  /** With ideal timers, the start of check k is the latest of "slot j, then all checks from j on back to back", over all
      j <= k: an overrun delays what follows by exactly the backlog, and leaves no trace once it is caught up. */
  lemma {:induction false} StartIsLatestBacklog(t0: int, interval: int, passes: seq<Pass>, starts: seq<int>, k: nat)
    requires Schedule(t0, interval, passes, starts) && IdealTimers(passes) && k < |starts|
    ensures forall j: nat :: j <= k ==> starts[k] >= Slot(t0, interval, j) + Busy(passes, j, k)
    ensures exists j: nat :: j <= k && starts[k] == Slot(t0, interval, j) + Busy(passes, j, k)
  {
    assert OnTime(t0, interval, passes, starts, k);
    if k == 0 {
      assert starts[0] == Slot(t0, interval, 0) + Busy(passes, 0, 0);
    } else {
      StartIsLatestBacklog(t0, interval, passes, starts, k - 1);
      var i: nat :| i <= k - 1 && starts[k - 1] == Slot(t0, interval, i) + Busy(passes, i, k - 1);
      var j := if Slot(t0, interval, k) >= starts[k - 1] + passes[k - 1].duration then k else i;
      assert starts[k] == Slot(t0, interval, j) + Busy(passes, j, k);
      forall j: nat | j <= k ensures starts[k] >= Slot(t0, interval, j) + Busy(passes, j, k) {
        if j < k {
          assert starts[k - 1] >= Slot(t0, interval, j) + Busy(passes, j, k - 1);
        }
      }
    }
  }

  /** Ideal timers and checks that keep to a timeout of at most the interval put every check exactly on its slot. */
  lemma {:induction false} ChecksStayOnSlots(t0: int, interval: int, timeout: int, passes: seq<Pass>, starts: seq<int>, k: nat)
    requires 0 < timeout <= interval
    requires Schedule(t0, interval, passes, starts) && IdealTimers(passes) && WithinTimeout(passes, timeout)
    requires k < |starts|
    ensures starts[k] == t0 + k * interval
  {
    StartsAtSlot(t0, interval, timeout, passes, starts, k);
    SlotIsMultiple(t0, interval, k);
  }

  lemma {:induction false} StartsAtSlot(t0: int, interval: int, timeout: int, passes: seq<Pass>, starts: seq<int>, k: nat)
    requires timeout <= interval && k < |starts|
    requires Schedule(t0, interval, passes, starts) && IdealTimers(passes) && WithinTimeout(passes, timeout)
    ensures starts[k] == Slot(t0, interval, k)
  {
    assert OnTime(t0, interval, passes, starts, k);
    if k == 0 {
    } else {
      StartsAtSlot(t0, interval, timeout, passes, starts, k - 1);
      assert passes[k - 1].duration <= interval;
    }
  }

  /** How many checks have started by time t. */
  function StartedBy(starts: seq<int>, t: int): nat {
    if starts == [] then 0 else StartedBy(starts[..|starts| - 1], t) + (if starts[|starts| - 1] <= t then 1 else 0)
  }

  lemma {:induction false} StartedByOnSlots(t0: int, interval: int, starts: seq<int>, t: int)
    requires interval > 0 && t >= t0
    requires forall k :: 0 <= k < |starts| ==> starts[k] == Slot(t0, interval, k)
    ensures StartedBy(starts, t) == if |starts| <= (t - t0) / interval + 1 then |starts| else (t - t0) / interval + 1
  {
    if starts == [] {
    } else {
      var n := |starts| - 1;
      StartedByOnSlots(t0, interval, starts[..n], t);
      SlotReached(t0, interval, n, t);
    }
  }

  lemma {:induction false} SlotReached(t0: int, interval: int, n: nat, t: int)
    requires interval > 0 && t >= t0
    ensures Slot(t0, interval, n) <= t <==> n <= (t - t0) / interval
  {
    SlotIsMultiple(t0, interval, n);
    MultipleReached(n, interval, t - t0);
  }

  lemma MultipleReached(n: nat, interval: int, elapsed: nat)
    requires interval > 0
    ensures n * interval <= elapsed <==> n <= elapsed / interval
  {
    var q := elapsed / interval;
    assert elapsed == q * interval + elapsed % interval;
    if n <= q {
      assert n * interval <= q * interval;
    } else {
      assert n * interval >= (q + 1) * interval;
    }
  }

  /** With options as NewHealthChecker leaves them, ideal timers and checks that respect their timeout, exactly
      floor((t - t0) / interval) + 1 checks have started by time t, as long as the loop has not been cancelled before. */
  lemma {:induction false} ExactNumberOfChecks(t0: int, interval: int, timeout: int, passes: seq<Pass>, starts: seq<int>, t: int)
    requires 0 < timeout <= interval && t >= t0
    requires Schedule(t0, interval, passes, starts) && IdealTimers(passes) && WithinTimeout(passes, timeout)
    requires |starts| >= (t - t0) / interval + 1
    ensures StartedBy(starts, t) == (t - t0) / interval + 1
  {
    forall k | 0 <= k < |starts| ensures starts[k] == Slot(t0, interval, k) {
      StartsAtSlot(t0, interval, timeout, passes, starts, k);
    }
    StartedByOnSlots(t0, interval, starts, t);
  }
}
