/** Start and startWithRetries: the retry loop around start attempts. */
module StartRetries {
  import opened Common

  const UINT32: nat := 0x1_0000_0000

  /** What one call of start does. Pump.StartNeverReturnsNil shows that the nil case does not arise. */
  datatype StartOutcome = Failed(err: Error) | ReturnsNil | Panics

  /** Which case of the select between attempts is taken. */
  datatype Wait = Elapsed | ContextDone(cause: Cause)

  datatype Result = Nil | Joined(errs: seq<Error>) | ContextError(err: Error) | PanicRecovered

  /** What the retry loop did: how many attempts it made, and the arguments with which it asked for delays. */
  datatype Trace = Trace(attempts: nat, delays: seq<nat>)

  ghost predicate NeverNil(start: nat -> StartOutcome, maxAttempts: int) {
    forall i: nat :: i < maxAttempts ==> !start(i).ReturnsNil?
  }

  /** The loop goes on after attempt i: the attempt failed and the delay elapsed. */
  ghost predicate GoesOn(start: nat -> StartOutcome, wait: nat -> Wait, i: nat) {
    start(i).Failed? && wait(i).Elapsed?
  }

  /** Start returns the errors of exactly maxAttempts attempts in order, or the context error after fewer, or reports the
      panic of an attempt; it never returns nil, and asks for delays with 0, 1, 2, ... as uint32 values. */
  ghost predicate StartSpec(maxAttempts: int, start: nat -> StartOutcome, wait: nat -> Wait, result: Result, t: Trace) {
    && 1 <= t.attempts <= maxAttempts
    && (forall i: nat :: i < t.attempts - 1 ==> GoesOn(start, wait, i))
    && (forall i :: 0 <= i < |t.delays| ==> t.delays[i] == i % UINT32)
    && match result
       case Joined(errs) =>
         && t.attempts == maxAttempts == |errs| && |t.delays| == maxAttempts - 1
         && forall i :: 0 <= i < |errs| ==> start(i) == Failed(errs[i])
       case ContextError(err) =>
         && t.attempts < maxAttempts && |t.delays| == t.attempts
         && start(t.attempts - 1).Failed? && wait(t.attempts - 1).ContextDone?
         && Some(err) == Ended(wait(t.attempts - 1).cause).Err()
       case PanicRecovered => start(t.attempts - 1).Panics? && |t.delays| == t.attempts - 1
       case Nil => false
  }

  /** Start with its recover, over arbitrary outcomes of the attempts and of the waits between them. */
  method Start(maxAttempts: int, start: nat -> StartOutcome, wait: nat -> Wait) returns (result: Result, t: Trace)
    requires maxAttempts >= 1
    ensures t.attempts <= maxAttempts && |t.delays| <= maxAttempts - 1
    ensures NeverNil(start, maxAttempts) ==> StartSpec(maxAttempts, start, wait, result, t)
    ensures result.Nil? ==> t.attempts == maxAttempts && forall i: nat :: i < maxAttempts ==> start(i).ReturnsNil?
  {
    var saved: seq<Error> := [];
    var delays: seq<nat> := [];
    var attempt := 0;
    while attempt < maxAttempts
      invariant 0 <= attempt <= maxAttempts
      invariant |delays| <= attempt && |delays| <= maxAttempts - 1
      invariant saved == [] ==> forall i: nat :: i < attempt ==> start(i).ReturnsNil?
      invariant NeverNil(start, maxAttempts) ==>
                  && |delays| == attempt == |saved| < maxAttempts
                  && (forall i: nat :: i < attempt ==> GoesOn(start, wait, i))
                  && (forall i :: 0 <= i < |saved| ==> start(i) == Failed(saved[i]))
                  && (forall i :: 0 <= i < |delays| ==> delays[i] == i % UINT32)
    {
      match start(attempt) {
        case Panics =>
          return PanicRecovered, Trace(attempt + 1, delays);
        case ReturnsNil =>
        case Failed(err) =>
          saved := saved + [err];
          if attempt + 1 == maxAttempts {
            return Joined(saved), Trace(attempt + 1, delays);
          }
          delays := delays + [attempt % UINT32];
          match wait(attempt) {
            case Elapsed =>
              assert NeverNil(start, maxAttempts) ==> GoesOn(start, wait, attempt);
            case ContextDone(cause) =>
              return ContextError(if cause.ByCancel? then Canceled else DeadlineExceeded), Trace(attempt + 1, delays);
          }
      }
      attempt := attempt + 1;
    }
    result := if saved == [] then Nil else Joined(saved);
    t := Trace(attempt, delays);
  }

  /** The specification fixes the result and the trace. */
  lemma StartSpecIsDeterministic(maxAttempts: int, start: nat -> StartOutcome, wait: nat -> Wait,
                                 r1: Result, t1: Trace, r2: Result, t2: Trace)
    requires StartSpec(maxAttempts, start, wait, r1, t1) && StartSpec(maxAttempts, start, wait, r2, t2)
    ensures r1 == r2 && t1 == t2
  {
    assert t1.attempts < t2.attempts ==> GoesOn(start, wait, t1.attempts - 1);
    assert t2.attempts < t1.attempts ==> GoesOn(start, wait, t2.attempts - 1);
    assert t1.attempts == t2.attempts;
    assert t1.delays == t2.delays;
    if r1.Joined? && r2.Joined? {
      forall i | 0 <= i < |r1.errs| ensures r1.errs[i] == r2.errs[i] {
        assert start(i) == Failed(r1.errs[i]) && start(i) == Failed(r2.errs[i]);
      }
      assert r1.errs == r2.errs;
    }
    assert r1.Joined? && r1.errs != [] ==> start(|r1.errs| - 1).Failed?;
    assert r2.Joined? && r2.errs != [] ==> start(|r2.errs| - 1).Failed?;
  }
}
