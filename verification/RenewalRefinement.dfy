/** Every finished call of renewMessageLock, for every clock, context and sequence of outcomes, is a path of the renewal
    protocol, so what the protocol proves of all its runs holds for runs made of concrete renewal calls. */
module RenewalRefinement {
  import opened Common
  import opened LockRenewal
  import P = RenewalProtocol

  function Outcomes(script: seq<Reading>): seq<Option<Error>> {
    if script == [] then [] else [script[0].outcome] + Outcomes(script[1..])
  }

  /** The protocol state in which the renewal goroutine is about to return `result`, having made the given attempts. */
  ghost predicate Arrives(s: P.State, s': P.State, result: Option<Error>, made: seq<Reading>, timeouts: nat) {
    && s'.l == P.Returned(result) && s'.h == s.h
    && s'.m.alive == s.m.alive && s'.m.signals == s.m.signals
    && s'.t.calls == s.t.calls + |made|
    && s'.t.timeouts == s.t.timeouts + timeouts
    && s'.t.outcomes == s.t.outcomes + Outcomes(made)
    && s'.t.results == s.t.results + [result]
  }

  lemma {:induction false} SpecAfterTimeout(until: int, script: seq<Reading>, result: Option<Error>, attempts: nat, timeouts: nat)
    requires RetrySpec(until, script, Done(result), attempts, timeouts) && timeouts > 0
    ensures RetrySpec(script[0].lockedUntil, script[1..], Done(result), attempts - 1, timeouts - 1)
  {
    var rest := script[1..];
    forall i: nat | i < attempts - 1 ensures GuardHolds(script[0].lockedUntil, rest, i) {
      assert GuardHolds(until, script, i + 1);
    }
    forall i: nat | i < timeouts - 1 ensures TimedOut(rest[i]) {
      assert TimedOut(script[i + 1]);
    }
    assert timeouts < |script| ==>
        GuardHolds(script[0].lockedUntil, rest, timeouts - 1) == GuardHolds(until, script, timeouts);
  }

  /** One attempt: the guard is evaluated, the call begins, and the call returns in state s'. */
  lemma {:induction false} Attempt(c: P.Config, s: P.State, o: Option<Error>) returns (r: seq<P.State>, s': P.State)
    requires s.l.RetryGuard? && s.m.ctx.Live? && s.h != P.Gone(true)
    ensures P.IsPath(c, r) && r[0] == s && P.Step(c, r[|r| - 1], s')
    ensures s'.m == s.m && s'.h == s.h && s'.t.calls == s.t.calls + 1 && s'.t.outcomes == s.t.outcomes + [o]
    ensures if o == Some(DeadlineExceeded)
            then s'.l.RetryGuard? && s'.t.timeouts == s.t.timeouts + 1 && s'.t.results == s.t.results
            else s'.l == P.Returned(o) && s'.t.timeouts == s.t.timeouts && s'.t.results == s.t.results + [o]
  {
    var s1 := s.(l := P.Committed);
    var s2 := s1.(l := P.Calling, t := s1.t.(calls := s1.t.calls + 1));
    var logged := s2.t.(outcomes := s2.t.outcomes + [o]);
    s' := if o == Some(DeadlineExceeded) then s2.(l := P.RetryGuard, t := logged.(timeouts := logged.timeouts + 1))
          else P.Return(s2.(t := logged), o);
    assert P.LoopStep(c, s, s1) && P.LoopStep(c, s1, s2) && P.LoopStep(c, s2, s');
    P.Join(c, [s], [s1]);
    P.Join(c, [s] + [s1], [s2]);
    r := [s] + [s1] + [s2];
  }

  /** A context that had already ended in state s is read as ended. */
  ghost predicate Agrees(s: P.State, script: seq<Reading>) {
    s.m.ctx.Ended? ==> forall i :: 0 <= i < |script| ==> script[i].ctx == script[i].exitCtx == s.m.ctx
  }

  /** A failing guard: the lock has expired, or the context has ended, or both, in either order. */
  lemma {:induction false} GuardFails(c: P.Config, s: P.State, until: int, reading: Reading) returns (r: seq<P.State>)
    requires s.l.RetryGuard? && s.h != P.Gone(true) && Agrees(s, [reading])
    requires reading.now >= until || reading.ctx.Ended?
    requires reading.ctx.Ended? ==> reading.exitCtx == reading.ctx
    ensures P.IsPath(c, r) && r[0] == s
    ensures Arrives(s, r[|r| - 1], Some(ExitError(reading)), [], 0)
  {
    var left := (if reading.now >= until then P.SeeExpiry(s) else s).(l := P.Leaving);
    var ended := s.(m := s.m.(ctx := reading.exitCtx));
    assert [reading][0] == reading;
    if reading.exitCtx == s.m.ctx {
      var s2 := P.Return(left, Some(ExitError(reading)));
      assert P.LoopStep(c, s, left) && P.LoopStep(c, left, s2);
      P.Join(c, [s], [left]);
      P.Join(c, [s] + [left], [s2]);
      r := [s] + [left] + [s2];
    } else {
      var s2 := left.(m := ended.m);
      var s3 := P.Return(s2, reading.exitCtx.Err());
      assert P.EnvironmentStep(s, ended) && P.LoopStep(c, ended, s2) && P.LoopStep(c, s2, s3);
      P.Join(c, [s], [ended]);
      P.Join(c, [s] + [ended], [s2]);
      P.Join(c, [s] + [ended] + [s2], [s3]);
      r := [s] + [ended] + [s2] + [s3];
    }
  }

  /** The retry loop is a protocol path, by induction on the attempts that time out. */
  lemma {:induction false} RetryLoopIsAPath(c: P.Config, s: P.State, until: int, script: seq<Reading>, result: Option<Error>,
                                            attempts: nat, timeouts: nat) returns (r: seq<P.State>)
    requires s.l.RetryGuard? && s.h != P.Gone(true) && Agrees(s, script)
    requires RetrySpec(until, script, Done(result), attempts, timeouts) && ContextsMonotone(script)
    ensures P.IsPath(c, r) && r[0] == s
    ensures Arrives(s, r[|r| - 1], result, script[..attempts], timeouts)
    decreases timeouts
  {
    if attempts == 0 {
      assert !GuardHolds(until, script, 0);
      r := GuardFails(c, s, until, script[0]);
    } else {
      assert GuardHolds(until, script, 0);
      var first, s' := Attempt(c, s, script[0].outcome);
      var rest := [s'];
      if timeouts == 0 {
        assert script[..1][1..] == [] && Outcomes(script[..1]) == [script[0].outcome];
      } else {
        SpecAfterTimeout(until, script, result, attempts, timeouts);
        assert script[..attempts][1..] == script[1..][..attempts - 1];
        rest := RetryLoopIsAPath(c, s', script[0].lockedUntil, script[1..], result, attempts - 1, timeouts - 1);
        ArrivesAfterTimeout(s, s', rest[|rest| - 1], result, script[..attempts], timeouts);
      }
      P.Join(c, first, rest);
      r := first + rest;
    }
  }

  lemma {:induction false} ArrivesAfterTimeout(s: P.State, mid: P.State, s': P.State, result: Option<Error>,
                                               made: seq<Reading>, timeouts: nat)
    requires made != [] && timeouts > 0 && Arrives(mid, s', result, made[1..], timeouts - 1)
    requires mid.m == s.m && mid.h == s.h && mid.t.calls == s.t.calls + 1
    requires mid.t.outcomes == s.t.outcomes + [made[0].outcome] && mid.t.timeouts == s.t.timeouts + 1
    requires mid.t.results == s.t.results
    ensures Arrives(s, s', result, made, timeouts)
  {
  }

  /** The whole call, from its expiry check to its return. */
  lemma {:induction false} RenewalIsAProtocolPath(c: P.Config, s: P.State, lockedUntil: Option<int>, entry: int,
                                                  script: seq<Reading>, result: Option<Error>, attempts: nat, timeouts: nat)
    returns (r: seq<P.State>)
    requires s.l.Entry? && s.h != P.Gone(true) && Agrees(s, script)
    requires RenewSpec(lockedUntil, entry, script, Done(result), attempts, timeouts) && ContextsMonotone(script)
    ensures attempts <= |script| && P.IsPath(c, r) && r[0] == s
    ensures Arrives(s, r[|r| - 1], result, script[..attempts], timeouts)
  {
    if lockedUntil.None? || lockedUntil.value < entry {
      var s1 := P.Return(P.SeeExpiry(s), Some(LockLost));
      assert P.LoopStep(c, s, s1);
      P.Join(c, [s], [s1]);
      r := [s] + [s1];
    } else {
      var s1 := s.(l := P.RetryGuard);
      assert P.LoopStep(c, s, s1);
      r := RetryLoopIsAPath(c, s1, lockedUntil.value, script, result, attempts, timeouts);
      P.Join(c, [s], r);
      r := [s] + r;
    }
  }
}
