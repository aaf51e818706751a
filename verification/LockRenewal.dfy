/** renewMessageLock: the retry loop of one renewal, against an arbitrary clock, context and renewer. */
module LockRenewal {
  import opened Common

  const SECOND: int := 1_000_000_000

  datatype RawOptions = RawOptions(interval: Option<int>, timeout: Option<int>, cancelOnStop: Option<bool>)

  datatype Options = Options(interval: int, timeout: int, cancelOnStop: bool)

  /** The option handling of NewRenewLockHandler. */
  method NormalizeOptions(raw: Option<RawOptions>) returns (o: Options)
    ensures o.timeout != 0
    ensures raw.Some? && raw.value.timeout.Some? && raw.value.timeout.value != 0 ==> o.timeout == raw.value.timeout.value
    ensures raw.None? || raw.value.timeout.None? || raw.value.timeout.value == 0 ==> o.timeout == 5 * SECOND
    ensures o.interval == if raw.Some? && raw.value.interval.Some? then raw.value.interval.value else 10 * SECOND
    ensures o.cancelOnStop <==> (raw.None? || raw.value.cancelOnStop != Some(false))
  {
    o := Options(10 * SECOND, 5 * SECOND, true);
    if raw.Some? {
      if raw.value.interval.Some? {
        o := o.(interval := raw.value.interval.value);
      }
      if raw.value.timeout.Some? && raw.value.timeout.value != 0 {
        o := o.(timeout := raw.value.timeout.value);
      }
      if raw.value.cancelOnStop.Some? {
        o := o.(cancelOnStop := raw.value.cancelOnStop.value);
      }
    }
  }

  /** What the environment answers around the i-th evaluation of the loop guard: the clock and the context read by the
      guard; the context read after the loop, should the guard fail; and otherwise the outcome of the attempt
      and the value LockedUntil has after it. */
  datatype Reading = Reading(now: int, ctx: Context, exitCtx: Context, outcome: Option<Error>, lockedUntil: int)

  /** Pending: the script ended while the loop was still running. */
  datatype Status = Done(result: Option<Error>) | Pending

  /** LockedUntil as the i-th guard sees it. */
  function LockAt(until: int, script: seq<Reading>, i: nat): int
    requires i <= |script|
  {
    if i == 0 then until else script[i - 1].lockedUntil
  }

  predicate GuardHolds(until: int, script: seq<Reading>, i: nat)
    requires i < |script|
  {
    script[i].now < LockAt(until, script, i) && script[i].ctx.Live?
  }

  predicate TimedOut(reading: Reading) {
    reading.outcome == Some(DeadlineExceeded)
  }

  function ExitError(reading: Reading): Error {
    match reading.exitCtx.Err()
    case Some(e) => e
    case None => LockLost
  }

  /** The specification of the loop: it runs through timed-out attempts, each after a guard that saw an unexpired
      lock and a live context, up to the first other outcome or the first failing guard. */
  ghost predicate RetrySpec(until: int, script: seq<Reading>, status: Status, attempts: nat, timeouts: nat) {
    && timeouts <= attempts <= |script|
    && (forall i: nat :: i < timeouts ==> TimedOut(script[i]))
    && (forall i: nat :: i < attempts ==> GuardHolds(until, script, i))
    && match status
       case Pending => timeouts == |script|
       case Done(result) =>
         if timeouts < attempts
         then attempts == timeouts + 1 && !TimedOut(script[timeouts]) && result == script[timeouts].outcome
         else timeouts < |script| && !GuardHolds(until, script, timeouts) && result == Some(ExitError(script[timeouts]))
  }

  /** The whole call: without an unexpired lock nothing is attempted. */
  ghost predicate RenewSpec(lockedUntil: Option<int>, entry: int, script: seq<Reading>,
                            status: Status, attempts: nat, timeouts: nat) {
    if lockedUntil.None? || lockedUntil.value < entry
    then status == Done(Some(LockLost)) && attempts == timeouts == 0
    else RetrySpec(lockedUntil.value, script, status, attempts, timeouts)
  }

  /** renewMessageLock. `entry` and `timeoutRead` are the clock readings of the expiry check and of the default timeout. */
  method RenewMessageLock(option: int, lockedUntil: Option<int>, entry: int, timeoutRead: int, script: seq<Reading>)
    returns (status: Status, attempts: nat, timeouts: nat, renewalTimeout: int)
    ensures RenewSpec(lockedUntil, entry, script, status, attempts, timeouts)
    ensures lockedUntil.Some? && entry <= lockedUntil.value ==>
              renewalTimeout == if option > 0 then option else lockedUntil.value - timeoutRead
  {
    attempts, timeouts, renewalTimeout := 0, 0, 0;
    if lockedUntil.None? || lockedUntil.value - entry < 0 {
      return Done(Some(LockLost)), attempts, timeouts, renewalTimeout;
    }
    var until := lockedUntil.value;
    renewalTimeout := until - timeoutRead;
    if option > 0 {
      renewalTimeout := option;
    }
    while timeouts < |script|
      invariant attempts == timeouts <= |script|
      invariant until == LockAt(lockedUntil.value, script, timeouts)
      invariant forall i: nat :: i < timeouts ==> TimedOut(script[i])
      invariant forall i: nat :: i < attempts ==> GuardHolds(lockedUntil.value, script, i)
    {
      var reading := script[timeouts];
      if !(until - reading.now > 0 && reading.ctx.Live?) {
        return Done(Some(ExitError(reading))), attempts, timeouts, renewalTimeout;
      }
      attempts := attempts + 1;
      until := reading.lockedUntil;
      if reading.outcome != Some(DeadlineExceeded) {
        return Done(reading.outcome), attempts, timeouts, renewalTimeout;
      }
      timeouts := timeouts + 1;
    }
    status := Pending;
  }

  /** The specification leaves no freedom: it fixes the result, the attempts made and the timeouts counted. */
  lemma RetrySpecIsDeterministic(until: int, script: seq<Reading>, s1: Status, a1: nat, t1: nat,
                                 s2: Status, a2: nat, t2: nat)
    requires RetrySpec(until, script, s1, a1, t1) && RetrySpec(until, script, s2, a2, t2)
    ensures s1 == s2 && a1 == a2 && t1 == t2
  {
    assert t1 < |script| && !TimedOut(script[t1]) ==> t2 <= t1;
    assert t2 < |script| && !TimedOut(script[t2]) ==> t1 <= t2;
    assert t1 < |script| && !GuardHolds(until, script, t1) ==> a2 <= t1;
    assert t2 < |script| && !GuardHolds(until, script, t2) ==> a1 <= t2;
  }

  /** A context that has ended stays ended. */
  ghost predicate ContextsMonotone(script: seq<Reading>) {
    forall i :: 0 <= i < |script| && script[i].ctx.Ended? ==> script[i].exitCtx == script[i].ctx
  }

  /** A deadline error is returned only for the message context itself, never for a timed-out attempt; when the context
      ends while the lock is valid, its error is returned; and lock-lost without the renewer saying so
      means the lock had expired. */
  lemma ResultsAreExplained(until: int, script: seq<Reading>, result: Option<Error>, attempts: nat, timeouts: nat)
    requires RetrySpec(until, script, Done(result), attempts, timeouts) && ContextsMonotone(script)
    ensures result == Some(DeadlineExceeded) ==>
              attempts == timeouts < |script| && script[timeouts].exitCtx == Ended(ByDeadline)
    ensures attempts == timeouts && script[timeouts].ctx.Ended? && script[timeouts].now < LockAt(until, script, timeouts)
            ==> result == script[timeouts].ctx.Err()
    ensures attempts == timeouts && result == Some(LockLost) ==> script[timeouts].now >= LockAt(until, script, timeouts)
  {
  }

  /** Every timed-out attempt lasts at least its timeout and leaves LockedUntil alone. */
  ghost predicate AttemptsRunFull(until: int, script: seq<Reading>, timeout: int) {
    && (forall i :: 0 <= i < |script| && TimedOut(script[i]) ==> script[i].lockedUntil == until)
    && (forall i, j :: 0 <= i < j < |script| && j == i + 1 && TimedOut(script[i])
          ==> script[j].now >= script[i].now + timeout)
  }

  lemma {:induction false} ClockAdvances(until: int, script: seq<Reading>, timeout: int, n: nat)
    requires AttemptsRunFull(until, script, timeout)
    requires n < |script| && forall i: nat :: i < n ==> TimedOut(script[i])
    ensures script[n].now >= script[0].now + n * timeout
  {
    if n == 0 {
    } else {
      ClockAdvances(until, script, timeout, n - 1);
      assert script[n].now >= script[n - 1].now + timeout;
    }
  }

  function CeilDiv(a: int, b: int): int
    requires b > 0
  {
    (a + b - 1) / b
  }

  lemma CeilDivBound(n: int, a: int, b: int)
    requires b > 0 && (n - 1) * b < a
    ensures n <= CeilDiv(a, b)
  {
    var q := CeilDiv(a, b);
    assert a + b - 1 == b * q + (a + b - 1) % b;
    assert (n - 1) * b < b * q;
    assert n - 1 >= q ==> (n - 1) * b >= q * b;
  }

  /** With a positive timeout the loop makes at most ceil(remaining lock time / timeout) attempts. */
  lemma AttemptBound(until: int, script: seq<Reading>, timeout: int, status: Status, attempts: nat, timeouts: nat)
    requires timeout > 0 && |script| > 0
    requires AttemptsRunFull(until, script, timeout) && RetrySpec(until, script, status, attempts, timeouts)
    ensures attempts == 0 || attempts <= CeilDiv(until - script[0].now, timeout)
  {
    if attempts > 0 {
      var last := attempts - 1;
      ClockAdvances(until, script, timeout, last);
      assert GuardHolds(until, script, last);
      CeilDivBound(attempts, until - script[0].now, timeout);
    }
  }

  /** With a non-positive timeout option the timeout is the remaining lock time, so there is at most one attempt. */
  lemma NegativeTimeoutMeansOneAttempt(until: int, timeoutRead: int, script: seq<Reading>, status: Status,
                                       attempts: nat, timeouts: nat)
    requires |script| > 0 ==> timeoutRead <= script[0].now
    requires AttemptsRunFull(until, script, until - timeoutRead)
    requires RetrySpec(until, script, status, attempts, timeouts)
    ensures attempts <= 1
  {
    assert |script| > 1 && timeouts > 0 ==> script[1].now >= script[0].now + (until - timeoutRead);
    assert |script| > 1 && timeouts > 0 ==> !GuardHolds(until, script, 1);
  }
}
