/** The life of one message: the handler goroutine (processor, panic handler, lock renewal handler, user handler)
    running beside the renewal goroutine. Each atomic load or store, the length check, the channel send, the receive,
    the cancel, each deferred call and each renewal attempt is one step; timers, the clock, the end of the
    message context and the outcome of every RenewMessageLock call are nondeterministic. */
module RenewalProtocol {
  import opened Common

  /** cancelOnStop is CancelMessageContextOnStop; recovers says whether the chain contains the panic handler. */
  datatype Config = Config(cancelOnStop: bool, recovers: bool)

  /** Program points inside peekLockRenewer.stop, which both goroutines call. */
  datatype StopPc = ClearAlive | CheckLength | Send | CancelContext

  /** Program points of the handler goroutine; Releasing and Canceling are the two deferred calls of process. */
  datatype HandlerPc =
    | Handling
    | HandlerStop(at: StopPc)
    | Recovering
    | Releasing(panicking: bool)
    | Canceling(panicking: bool)
    | Gone(panicking: bool)

  /** Program points of startPeriodicRenewal; Entry to Returned lie inside renewMessageLock. */
  datatype LoopPc =
    | NotStarted
    | Guard
    | Select
    | Ticked
    | Entry
    | RetryGuard
    | Committed
    | Calling
    | Leaving
    | Returned(result: Option<Error>)
    | LoopStop(at: StopPc)
    | Signalled
    | Clearing
    | Exited

  /** What the goroutines share: the alive flag, the number of signals in the channel, and the message context. */
  datatype Shared = Shared(alive: bool, signals: nat, ctx: Context)

  /** Metrics and history: outcomes are those of the RenewMessageLock calls, results those of renewMessageLock. */
  datatype Tally = Tally(
    passes: nat, calls: nat, ticks: nat,
    successes: nat, failures: nat, contextTicks: nat, timeouts: nat, deadlineReached: nat,
    handlerStops: nat, loopStops: nat, received: nat, releases: nat,
    outcomes: seq<Option<Error>>, results: seq<Option<Error>>, expired: bool)

  datatype State = State(m: Shared, h: HandlerPc, l: LoopPc, t: Tally)

  function Init(): State {
    State(Shared(false, 0, Live), Handling, NotStarted, Tally(0, 0, 0, 0, 0, 0, 0, 0, 0, 0, 0, 0, [], [], false))
  }

  const CAPACITY: nat := 1

  // ---------- stop, shared by both goroutines ----------

  predicate StopEnabled(m: Shared, p: StopPc) {
    p.Send? ==> m.signals < CAPACITY
  }

  function StopEffect(c: Config, m: Shared, p: StopPc): Shared {
    match p
    case ClearAlive => m.(alive := false)
    case CheckLength => m
    case Send => m.(signals := m.signals + 1)
    case CancelContext => if c.cancelOnStop then m.(ctx := m.ctx.Cancel()) else m
  }

  function StopNext(m: Shared, p: StopPc): Option<StopPc> {
    match p
    case ClearAlive => Some(CheckLength)
    case CheckLength => Some(if m.signals == 0 then Send else CancelContext)
    case Send => Some(CancelContext)
    case CancelContext => None
  }

  // ---------- the handler goroutine ----------

  ghost predicate HandlerStep(c: Config, s: State, s': State) {
    match s.h
    case Handling =>
      || s' == s.(h := HandlerStop(ClearAlive), t := s.t.(handlerStops := s.t.handlerStops + 1))
      || s' == s.(h := if c.recovers then Recovering else Releasing(true))
    case HandlerStop(p) =>
      && StopEnabled(s.m, p)
      && s' == s.(m := StopEffect(c, s.m, p),
                  h := match StopNext(s.m, p) case Some(q) => HandlerStop(q) case None => Releasing(false))
    case Recovering =>
      // the recovery hook runs user code and may panic itself
      s' == s.(h := Releasing(false)) || s' == s.(h := Releasing(true))
    case Releasing(panicking) =>
      s' == s.(h := Canceling(panicking), t := s.t.(releases := s.t.releases + 1))
    case Canceling(panicking) =>
      s' == s.(m := s.m.(ctx := s.m.ctx.Cancel()), h := Gone(panicking))
    case Gone(_) => false
  }

  // ---------- the renewal goroutine ----------

  ghost predicate SelectStep(s: State, s': State) {
    || s' == s.(l := Ticked)
    || (&& s.m.ctx.Ended?
        && s' == s.(l := LoopStop(ClearAlive),
                    t := s.t.(loopStops := s.t.loopStops + 1,
                              deadlineReached := s.t.deadlineReached + if s.m.ctx.cause.ByDeadline? then 1 else 0)))
    || (&& s.m.signals > 0
        && s' == s.(m := s.m.(signals := s.m.signals - 1), l := Signalled, t := s.t.(received := s.t.received + 1)))
  }

  /** renewMessageLock returns. */
  function Return(s: State, result: Option<Error>): State {
    s.(l := Returned(result), t := s.t.(results := s.t.results + [result]))
  }

  function SeeExpiry(s: State): State {
    s.(t := s.t.(expired := true))
  }

  ghost predicate CallReturns(s: State, s': State) {
    && |s'.t.outcomes| == |s.t.outcomes| + 1
    && var o := s'.t.outcomes[|s.t.outcomes|];
       var logged := s.t.(outcomes := s.t.outcomes + [o]);
       if o == Some(DeadlineExceeded)
       then s' == s.(l := RetryGuard, t := logged.(timeouts := s.t.timeouts + 1))
       else s' == Return(s.(t := logged), o)
  }

  function AfterRenewal(s: State, result: Option<Error>): State {
    match result
    case None => s.(l := Guard, t := s.t.(successes := s.t.successes + 1))
    case Some(e) =>
      if IsContextError(e) then
        s.(l := LoopStop(ClearAlive),
           t := s.t.(contextTicks := s.t.contextTicks + 1, loopStops := s.t.loopStops + 1))
      else if IsPermanent(e) then
        s.(l := LoopStop(ClearAlive),
           t := s.t.(failures := s.t.failures + 1, loopStops := s.t.loopStops + 1))
      else
        s.(l := Guard, t := s.t.(failures := s.t.failures + 1))
  }

  ghost predicate LoopStep(c: Config, s: State, s': State) {
    match s.l
    case NotStarted => s' == s.(m := s.m.(alive := true), l := Guard)
    case Guard =>
      if s.m.alive then s' == s.(l := Select, t := s.t.(passes := s.t.passes + 1)) else s' == s.(l := Exited)
    case Select => SelectStep(s, s')
    case Ticked =>
      if s.m.alive then s' == s.(l := Entry, t := s.t.(ticks := s.t.ticks + 1)) else s' == s.(l := Exited)
    case Entry =>
      s' == s.(l := RetryGuard) || s' == Return(SeeExpiry(s), Some(LockLost))
    case RetryGuard =>
      // the clock is read first, the context only if the lock has not expired
      || s' == SeeExpiry(s).(l := Leaving)
      || s' == s.(l := if s.m.ctx.Live? then Committed else Leaving)
    case Committed => s' == s.(l := Calling, t := s.t.(calls := s.t.calls + 1))
    case Calling => CallReturns(s, s')
    case Leaving => s' == Return(s, if s.m.ctx.Ended? then s.m.ctx.Err() else Some(LockLost))
    case Returned(result) => s' == AfterRenewal(s, result)
    case LoopStop(p) =>
      && StopEnabled(s.m, p)
      && s' == s.(m := StopEffect(c, s.m, p),
                  l := match StopNext(s.m, p) case Some(q) => LoopStop(q) case None => Guard)
    case Signalled => s' == s.(l := if s.m.alive then Clearing else Guard)
    case Clearing => s' == s.(m := s.m.(alive := false), l := Guard)
    case Exited => false
  }

  /** The message context ends from outside: its deadline passes or the processor's context ends. */
  ghost predicate EnvironmentStep(s: State, s': State) {
    && s.m.ctx.Live?
    && (s' == s.(m := s.m.(ctx := Ended(ByCancel))) || s' == s.(m := s.m.(ctx := Ended(ByDeadline))))
  }

  /** An unrecovered panic ends the program, so nothing moves after Gone(true). */
  ghost predicate Step(c: Config, s: State, s': State) {
    && s.h != Gone(true)
    && (HandlerStep(c, s, s') || LoopStep(c, s, s') || EnvironmentStep(s, s'))
  }

  ghost predicate StepAt(c: Config, r: seq<State>, i: nat)
    requires i + 1 < |r|
  {
    Step(c, r[i], r[i + 1])
  }

  /** A path of steps from any state. */
  ghost predicate IsPath(c: Config, r: seq<State>) {
    |r| > 0 && forall i :: 0 <= i < |r| - 1 ==> StepAt(c, r, i)
  }

  ghost predicate IsRun(c: Config, r: seq<State>) {
    IsPath(c, r) && r[0] == Init()
  }

  lemma Join(c: Config, r1: seq<State>, r2: seq<State>)
    requires IsPath(c, r1) && IsPath(c, r2) && Step(c, r1[|r1| - 1], r2[0])
    ensures IsPath(c, r1 + r2)
  {
    var r := r1 + r2;
    forall i | 0 <= i < |r| - 1 ensures StepAt(c, r, i) {
      if i < |r1| - 1 {
        assert StepAt(c, r1, i);
      } else if i >= |r1| {
        assert StepAt(c, r2, i - |r1|);
      }
    }
  }

  // ---------- the inductive invariant of the stop protocol ----------

  /** The handler's stop call is past its send: it sent a signal or saw one in the channel. */
  predicate HandlerPastSend(s: State) {
    && s.t.handlerStops == 1
    && (s.h.HandlerStop? ==> s.h.at.CancelContext?)
  }

  predicate LoopPastSend(s: State) {
    && s.t.loopStops == 1
    && (s.l.LoopStop? ==> s.l.at.CancelContext?)
  }

  predicate HandlerInv(s: State) {
    && s.t.handlerStops <= 1
    && (s.h.HandlerStop? ==> s.t.handlerStops == 1)
    && (s.h.Handling? || s.h.Recovering? ==> s.t.handlerStops == 0)
    && s.t.releases == (if s.h.Canceling? || s.h.Gone? then 1 else 0)
    && (s.h.Gone? ==> s.m.ctx.Ended?)
  }

  predicate LoopInv(s: State) {
    && s.t.loopStops <= 1
    && s.t.received <= 1
    && (s.l.NotStarted? ==> !s.m.alive && s.t.loopStops == 0 && s.t.received == 0)
    && (s.l.LoopStop? ==> s.t.loopStops == 1)
    && (s.t.loopStops == 1 ==> s.l.LoopStop? || s.l.Guard? || s.l.Exited?)
    && (s.t.loopStops == 1 && s.l != LoopStop(ClearAlive) ==> !s.m.alive)
    && (s.l.Signalled? || s.l.Clearing? ==> s.t.received == 1)
    && (s.t.received == 1 ==> s.l.Signalled? || s.l.Clearing? || s.l.Guard? || s.l.Exited?)
    && (s.t.received == 1 && (s.l.Guard? || s.l.Exited?) ==> !s.m.alive)
  }

  predicate SignalInv(s: State) {
    && s.m.signals <= CAPACITY
    && (s.t.received == 1 ==> HandlerPastSend(s) && s.m.signals == 0 && s.t.loopStops == 0)
    && (HandlerPastSend(s) && s.t.loopStops == 0 && s.t.received == 0 ==> s.m.signals == 1)
    && (s.m.signals == 1 ==> HandlerPastSend(s) || LoopPastSend(s))
  }

  predicate Inv(s: State) {
    HandlerInv(s) && LoopInv(s) && SignalInv(s)
  }

  lemma HandlerStepKeepsInv(c: Config, s: State, s': State)
    requires Inv(s) && HandlerStep(c, s, s')
    ensures Inv(s')
  {
  }

  lemma LoopStepKeepsLoopInv(c: Config, s: State, s': State)
    requires Inv(s) && LoopStep(c, s, s')
    ensures LoopInv(s')
  {
  }

  lemma LoopStepKeepsHandlerInv(c: Config, s: State, s': State)
    requires Inv(s) && LoopStep(c, s, s')
    ensures HandlerInv(s')
  {
  }

  lemma LoopStepKeepsSignalInv(c: Config, s: State, s': State)
    requires Inv(s) && LoopStep(c, s, s')
    ensures SignalInv(s')
  {
  }

  lemma StepKeepsInv(c: Config, s: State, s': State)
    requires Inv(s) && Step(c, s, s')
    ensures Inv(s')
  {
    if HandlerStep(c, s, s') {
      HandlerStepKeepsInv(c, s, s');
    } else if LoopStep(c, s, s') {
      LoopStepKeepsHandlerInv(c, s, s');
      LoopStepKeepsLoopInv(c, s, s');
      LoopStepKeepsSignalInv(c, s, s');
    }
  }

  lemma {:induction false} PathInv(c: Config, r: seq<State>, n: nat)
    requires IsPath(c, r) && Inv(r[0]) && n < |r|
    ensures Inv(r[n])
  {
    if n == 0 {
    } else {
      PathInv(c, r, n - 1);
      assert StepAt(c, r, n - 1);
      StepKeepsInv(c, r[n - 1], r[n]);
    }
  }

  lemma ReachableInv(c: Config, r: seq<State>, n: nat)
    requires IsRun(c, r) && n < |r|
    ensures Inv(r[n])
  {
    PathInv(c, r, n);
  }

  // ---------- no stop is lost ----------

  /** Once the handler's stop is past its send, a renewal goroutine waiting in the select has a signal and can receive it;
      the channel never holds two, and each goroutine calls stop at most once. */
  lemma NoStopIsLost(c: Config, r: seq<State>, n: nat)
    requires IsRun(c, r) && n < |r|
    ensures HandlerPastSend(r[n]) && r[n].l.Select? ==>
              r[n].m.signals == 1 && exists s' :: LoopStep(c, r[n], s') && s'.l.Signalled?
    ensures r[n].m.signals <= 1 && r[n].t.handlerStops <= 1 && r[n].t.loopStops <= 1
  {
    ReachableInv(c, r, n);
    var s := r[n];
    if HandlerPastSend(s) && s.l.Select? {
      var s' := s.(m := s.m.(signals := 0), l := Signalled, t := s.t.(received := s.t.received + 1));
      assert LoopStep(c, s, s');
    }
  }

  /** The select takes any ready case: the timer's at any time, that of the context if and only if it has ended, and that of
      the stop signal if and only if one is in the channel. */
  lemma SelectTakesAnyReadyCase(c: Config, r: seq<State>, n: nat)
    requires IsRun(c, r) && n < |r| && r[n].l.Select? && r[n].h != Gone(true)
    ensures exists s' :: Step(c, r[n], s') && s'.l.Ticked?
    ensures r[n].m.ctx.Ended? <==> exists s' :: Step(c, r[n], s') && s'.l == LoopStop(ClearAlive)
    ensures r[n].m.signals > 0 <==> exists s' :: Step(c, r[n], s') && s'.l.Signalled?
  {
    var s := r[n];
    assert LoopStep(c, s, s.(l := Ticked));
    if s.m.ctx.Ended? {
      var metric := s.t.deadlineReached + if s.m.ctx.cause.ByDeadline? then 1 else 0;
      assert LoopStep(c, s, s.(l := LoopStop(ClearAlive), t := s.t.(loopStops := s.t.loopStops + 1, deadlineReached := metric)));
    }
    if s.m.signals > 0 {
      assert LoopStep(c, s, s.(m := s.m.(signals := s.m.signals - 1), l := Signalled, t := s.t.(received := s.t.received + 1)));
    }
  }

  lemma StepAfterStop(c: Config, s: State, s': State)
    requires Inv(s) && Step(c, s, s') && (s.t.received == 1 || s.t.loopStops == 1)
    ensures (s'.t.received == 1 || s'.t.loopStops == 1) && s'.t.passes == s.t.passes && s'.t.calls == s.t.calls
  {
  }

  /** A loop that has received the signal, or has called stop itself, starts no further pass and no further renewal call. */
  lemma {:induction false} StoppedLoopDoesNothingMore(c: Config, r: seq<State>, k: nat, n: nat)
    requires IsRun(c, r) && k <= n < |r| && (r[k].t.received == 1 || r[k].t.loopStops == 1)
    ensures r[n].t.received == 1 || r[n].t.loopStops == 1
    ensures r[n].t.passes == r[k].t.passes && r[n].t.calls == r[k].t.calls
    decreases n
  {
    if k == n {
    } else {
      StoppedLoopDoesNothingMore(c, r, k, n - 1);
      ReachableInv(c, r, n - 1);
      assert StepAt(c, r, n - 1);
      StepAfterStop(c, r[n - 1], r[n]);
    }
  }

  // ---------- stop and the message context ----------

  /** A finished stop call has cancelled the message context, if it is configured to. */
  predicate CancelInv(c: Config, s: State) {
    c.cancelOnStop ==>
      && (s.t.handlerStops == 1 && !s.h.HandlerStop? ==> s.m.ctx.Ended?)
      && (s.t.loopStops == 1 && !s.l.LoopStop? ==> s.m.ctx.Ended?)
  }

  lemma HandlerStepKeepsCancelInv(c: Config, s: State, s': State)
    requires HandlerInv(s) && CancelInv(c, s) && HandlerStep(c, s, s')
    ensures CancelInv(c, s')
  {
  }

  lemma LoopStepKeepsCancelInv(c: Config, s: State, s': State)
    requires LoopInv(s) && CancelInv(c, s) && LoopStep(c, s, s')
    ensures CancelInv(c, s')
  {
  }

  /** With CancelMessageContextOnStop, the message context has ended whenever the handler's or the loop's stop has returned. */
  lemma {:induction false} StopCancelsTheContext(c: Config, r: seq<State>, n: nat)
    requires IsRun(c, r) && n < |r| && c.cancelOnStop
    ensures r[n].t.handlerStops == 1 && !r[n].h.HandlerStop? ==> r[n].m.ctx.Ended?
    ensures r[n].t.loopStops == 1 && !r[n].l.LoopStop? ==> r[n].m.ctx.Ended?
  {
    if n == 0 {
    } else {
      StopCancelsTheContext(c, r, n - 1);
      ReachableInv(c, r, n - 1);
      assert StepAt(c, r, n - 1);
      if HandlerStep(c, r[n - 1], r[n]) {
        HandlerStepKeepsCancelInv(c, r[n - 1], r[n]);
      } else if LoopStep(c, r[n - 1], r[n]) {
        LoopStepKeepsCancelInv(c, r[n - 1], r[n]);
      }
    }
  }

  /** Without it, stop leaves the context alone: the context ends only from outside, in a step that moves neither goroutine, or by
      the deferred cancel of the processor. */
  lemma StopLeavesTheContextAlone(c: Config, r: seq<State>, n: nat)
    requires IsRun(c, r) && n + 1 < |r| && !c.cancelOnStop && r[n].m.ctx != r[n + 1].m.ctx
    ensures r[n + 1].l == r[n].l && (r[n + 1].h == r[n].h || (r[n].h.Canceling? && r[n + 1].h.Gone?))
  {
    assert StepAt(c, r, n);
  }

  // ---------- when stop blocks ----------

  predicate HandlerBlocked(s: State) {
    s.h == HandlerStop(Send) && !StopEnabled(s.m, Send)
  }

  predicate LoopBlocked(s: State) {
    s.l == LoopStop(Send) && !StopEnabled(s.m, Send)
  }

  predicate Blocked(s: State) {
    HandlerBlocked(s) || LoopBlocked(s)
  }

  /** Both goroutines have read length 0 and neither has sent. */
  predicate Overlap(s: State) {
    s.h == HandlerStop(Send) && s.l == LoopStop(Send)
  }

  lemma BlockingStep(c: Config, s: State, s': State)
    requires Inv(s) && Step(c, s, s')
    ensures !Blocked(s) && Blocked(s') <==> Overlap(s) && !Overlap(s')
  {
  }

  /** At index k the two stop calls overlap, and the next step is one of the two sends. */
  predicate OverlapEndsAt(r: seq<State>, k: nat)
    requires k + 1 < |r|
  {
    Overlap(r[k]) && !Overlap(r[k + 1])
  }

  /** A run contains a blocked stop call exactly when two stop calls overlap between check and send
      and one of them then sends. */
  lemma StopBlocksIffChecksOverlap(c: Config, r: seq<State>)
    requires IsRun(c, r)
    ensures (exists n :: 0 <= n < |r| && Blocked(r[n])) <==> (exists k :: 0 <= k < |r| - 1 && OverlapEndsAt(r, k))
  {
    if n :| 0 <= n < |r| && Blocked(r[n]) {
      var k := FindOverlap(c, r, n);
      assert OverlapEndsAt(r, k);
    }
    if k :| 0 <= k < |r| - 1 && OverlapEndsAt(r, k) {
      ReachableInv(c, r, k);
      assert StepAt(c, r, k);
      BlockingStep(c, r[k], r[k + 1]);
      assert Blocked(r[k + 1]);
    }
  }

  lemma {:induction false} FindOverlap(c: Config, r: seq<State>, n: nat) returns (k: nat)
    requires IsRun(c, r) && n < |r| && Blocked(r[n])
    ensures k < n && OverlapEndsAt(r, k)
  {
    if n == 0 {
      assert false;
    } else if Blocked(r[n - 1]) {
      k := FindOverlap(c, r, n - 1);
    } else {
      k := n - 1;
      ReachableInv(c, r, k);
      assert StepAt(c, r, k);
      BlockingStep(c, r[k], r[k + 1]);
    }
  }

  /** A blocked stop call never resumes: the only receiver is the loop, and it no longer reaches its select.
      When the handler's call is the blocked one, the concurrency token is never released. */
  lemma {:induction false} BlockedStopIsStuckForever(c: Config, r: seq<State>, k: nat, n: nat)
    requires IsRun(c, r) && k <= n < |r|
    ensures HandlerBlocked(r[k]) ==> HandlerBlocked(r[n]) && r[n].t.releases == 0
    ensures LoopBlocked(r[k]) ==> LoopBlocked(r[n])
    decreases n
  {
    ReachableInv(c, r, n);
    if k == n {
    } else {
      BlockedStopIsStuckForever(c, r, k, n - 1);
      ReachableInv(c, r, n - 1);
      assert StepAt(c, r, n - 1);
    }
  }

  /** Such a run exists with the default options, so the comment that the buffered channel keeps stop
      from blocking does not hold of every interleaving. */
  lemma StopCanBlock() returns (r: seq<State>)
    ensures IsRun(Config(true, true), r) && |r| > 0 && HandlerBlocked(r[|r| - 1])
  {
    var c := Config(true, true);
    r := LoopReadsLengthZero(c);
    var s6 := r[6];
    var s7 := s6.(h := HandlerStop(ClearAlive), t := s6.t.(handlerStops := 1));
    var s8 := s7.(h := HandlerStop(CheckLength));
    var s9 := s8.(h := HandlerStop(Send));
    var s10 := s9.(m := s9.m.(signals := 1), l := LoopStop(CancelContext));
    Extend(c, r, s7);
    Extend(c, r + [s7], s8);
    Extend(c, r + [s7] + [s8], s9);
    Extend(c, r + [s7] + [s8] + [s9], s10);
    r := r + [s7] + [s8] + [s9] + [s10];
  }

  lemma Extend(c: Config, r: seq<State>, s: State)
    requires IsRun(c, r) && Step(c, r[|r| - 1], s)
    ensures IsRun(c, r + [s])
  {
    Join(c, r, [s]);
  }

  /** The context ends, the loop notices, calls stop, and reads length 0 before the handler returns. */
  lemma LoopReadsLengthZero(c: Config) returns (r: seq<State>)
    ensures IsRun(c, r) && |r| == 7
    ensures r[6].h.Handling? && r[6].l == LoopStop(Send) && r[6].m == Shared(false, 0, Ended(ByCancel))
    ensures r[6].t.handlerStops == 0
  {
    var s0 := Init();
    var s1 := s0.(m := s0.m.(alive := true), l := Guard);
    var s2 := s1.(l := Select, t := s1.t.(passes := 1));
    var s3 := s2.(m := s2.m.(ctx := Ended(ByCancel)));
    var s4 := s3.(l := LoopStop(ClearAlive), t := s3.t.(loopStops := 1));
    var s5 := s4.(m := s4.m.(alive := false), l := LoopStop(CheckLength));
    var s6 := s5.(l := LoopStop(Send));
    Extend(c, [s0], s1);
    Extend(c, [s0] + [s1], s2);
    Extend(c, [s0] + [s1] + [s2], s3);
    Extend(c, [s0] + [s1] + [s2] + [s3], s4);
    Extend(c, [s0] + [s1] + [s2] + [s3] + [s4], s5);
    Extend(c, [s0] + [s1] + [s2] + [s3] + [s4] + [s5], s6);
    r := [s0] + [s1] + [s2] + [s3] + [s4] + [s5] + [s6];
  }

  // ---------- from which states a stop can still block ----------

  /** The handler's stop is still to come, or is not past its send. */
  predicate HandlerBeforeSend(s: State) {
    s.h.Handling? || (s.h.HandlerStop? && !s.h.at.CancelContext?)
  }

  predicate StopsLoop(result: Option<Error>) {
    result.Some? && (IsContextError(result.value) || IsPermanent(result.value))
  }

  /** The loop is in its own stop, not past the send, or can still come to call it. */
  predicate LoopCanStop(s: State) {
    match s.l
    case NotStarted => true
    case Guard => s.m.alive
    case Select => true
    case Ticked => s.m.alive
    case Entry => true
    case RetryGuard => true
    case Committed => true
    case Calling => true
    case Leaving => true
    case Returned(result) => StopsLoop(result) || s.m.alive
    case LoopStop(p) => !p.CancelContext?
    case Signalled => false
    case Clearing => false
    case Exited => false
  }

  predicate CanBlock(s: State) {
    Blocked(s) || (HandlerBeforeSend(s) && LoopCanStop(s))
  }

  /** How far the loop is from the send of its own stop, on the shortest way there. */
  function LoopToSend(s: State): nat {
    match s.l
    case NotStarted => 6
    case Guard => 5
    case Select => if s.m.ctx.Live? then 4 else 3
    case Ticked => 5
    case Entry => 4
    case RetryGuard => 5
    case Committed => 5
    case Calling => 4
    case Leaving => 4
    case Returned(result) => if StopsLoop(result) then 3 else 6
    case LoopStop(ClearAlive) => 2
    case LoopStop(CheckLength) => 1
    case _ => 0
  }

  lemma StepToLoopSend(c: Config, s: State) returns (s': State)
    requires Inv(s) && HandlerBeforeSend(s) && LoopCanStop(s) && s.l != LoopStop(Send)
    ensures Step(c, s, s') && s'.h == s.h && LoopCanStop(s') && LoopToSend(s') < LoopToSend(s)
  {
    match s.l
    case NotStarted => s' := s.(m := s.m.(alive := true), l := Guard);
    case Guard => s' := s.(l := Select, t := s.t.(passes := s.t.passes + 1));
    case Select =>
      if s.m.ctx.Live? {
        s' := s.(m := s.m.(ctx := Ended(ByCancel)));
        assert EnvironmentStep(s, s');
        return;
      }
      s' := s.(l := LoopStop(ClearAlive),
               t := s.t.(loopStops := s.t.loopStops + 1,
                         deadlineReached := s.t.deadlineReached + if s.m.ctx.cause.ByDeadline? then 1 else 0));
    case Ticked => s' := s.(l := Entry, t := s.t.(ticks := s.t.ticks + 1));
    case Entry => s' := Return(SeeExpiry(s), Some(LockLost));
    case RetryGuard => s' := SeeExpiry(s).(l := Leaving);
    case Committed => s' := s.(l := Calling, t := s.t.(calls := s.t.calls + 1));
    case Calling => s' := Return(s.(t := s.t.(outcomes := s.t.outcomes + [Some(LockLost)])), Some(LockLost));
    case Leaving => s' := Return(s, if s.m.ctx.Ended? then s.m.ctx.Err() else Some(LockLost));
    case Returned(result) => s' := AfterRenewal(s, result);
    case LoopStop(p) =>
      s' := s.(m := StopEffect(c, s.m, p),
               l := match StopNext(s.m, p) case Some(q) => LoopStop(q) case None => Guard);
    assert LoopStep(c, s, s');
  }

  lemma StepToHandlerSend(c: Config, s: State) returns (s': State)
    requires Inv(s) && HandlerBeforeSend(s) && s.l == LoopStop(Send) && s.h != HandlerStop(Send)
    ensures Step(c, s, s') && HandlerBeforeSend(s') && s'.l == s.l
    ensures HandlerStepsLeft(s'.h) < HandlerStepsLeft(s.h)
  {
    s' := if s.h.Handling? then s.(h := HandlerStop(ClearAlive), t := s.t.(handlerStops := s.t.handlerStops + 1))
          else s.(m := StopEffect(c, s.m, s.h.at), h := HandlerStop(StopNext(s.m, s.h.at).value));
    assert HandlerStep(c, s, s');
  }

  /** From a state that allows it: bring the loop to its send, then the handler, then let the loop send. */
  lemma {:induction false} PathToBlocked(c: Config, s: State) returns (p: seq<State>)
    requires Inv(s) && HandlerBeforeSend(s) && LoopCanStop(s)
    ensures IsPath(c, p) && p[0] == s && Blocked(p[|p| - 1])
    decreases LoopToSend(s), HandlerStepsLeft(s.h)
  {
    if Blocked(s) {
      p := [s];
    } else {
      var s';
      if s.l == LoopStop(Send) && s.h == HandlerStop(Send) {
        s' := s.(m := s.m.(signals := s.m.signals + 1), l := LoopStop(CancelContext));
        assert LoopStep(c, s, s') && Blocked(s');
        Join(c, [s], [s']);
        p := [s] + [s'];
        return;
      } else if s.l == LoopStop(Send) {
        s' := StepToHandlerSend(c, s);
      } else {
        s' := StepToLoopSend(c, s);
      }
      StepKeepsInv(c, s, s');
      var rest := PathToBlocked(c, s');
      Join(c, [s], rest);
      p := [s] + rest;
    }
  }

  lemma LoopStepKeepsUnblockable(c: Config, s: State, s': State)
    requires LoopInv(s) && LoopStep(c, s, s') && !LoopCanStop(s)
    ensures !LoopCanStop(s')
  {
  }

  lemma StepKeepsUnblockable(c: Config, s: State, s': State)
    requires Inv(s) && Step(c, s, s') && !CanBlock(s)
    ensures !CanBlock(s')
  {
    BlockingStep(c, s, s');
    if LoopStep(c, s, s') && !LoopCanStop(s) {
      LoopStepKeepsUnblockable(c, s, s');
    }
  }

  lemma {:induction false} UnblockableStays(c: Config, p: seq<State>, n: nat)
    requires IsPath(c, p) && Inv(p[0]) && !CanBlock(p[0]) && n < |p|
    ensures !CanBlock(p[n])
  {
    if n == 0 {
    } else {
      UnblockableStays(c, p, n - 1);
      PathInv(c, p, n - 1);
      assert StepAt(c, p, n - 1);
      StepKeepsUnblockable(c, p[n - 1], p[n]);
    }
  }

  ghost predicate LeadsToBlocked(c: Config, p: seq<State>, s: State) {
    IsPath(c, p) && p[0] == s && Blocked(p[|p| - 1])
  }

  /** From every reachable state, some continuation blocks a stop call if and only if one is blocked already, or the handler
      is not past the send of its stop and the loop can still come to the send of its own. */
  lemma StopCanStillBlockIff(c: Config, r: seq<State>, n: nat)
    requires IsRun(c, r) && n < |r|
    ensures CanBlock(r[n]) <==> exists p :: LeadsToBlocked(c, p, r[n])
  {
    ReachableInv(c, r, n);
    if Blocked(r[n]) {
      assert LeadsToBlocked(c, [r[n]], r[n]);
    } else if CanBlock(r[n]) {
      var p := PathToBlocked(c, r[n]);
      assert LeadsToBlocked(c, p, r[n]);
    } else if p :| LeadsToBlocked(c, p, r[n]) {
      UnblockableStays(c, p, |p| - 1);
    }
  }

  // ---------- after the message context has ended ----------

  /** How many passes the loop can still start once the context has ended. */
  function PassesLeft(s: State): nat {
    match s.l
    case NotStarted => 1
    case Guard => if s.m.alive then 1 else 0
    case Committed => 1
    case Calling => 1
    case Returned(None) => 1
    case Returned(Some(e)) => if IsContextError(e) || IsPermanent(e) then 0 else 1
    case _ => 0
  }

  /** How many RenewMessageLock calls it can still begin: the one whose guard was already evaluated. */
  function CallsLeft(s: State): nat {
    if s.l.Committed? then 1 else 0
  }

  /** How many steps of its own the loop can still take. */
  function StepsLeft(s: State): nat {
    match s.l
    case NotStarted => 13
    case Guard => if s.m.alive then 12 else 1
    case Select => 11
    case Ticked => 10
    case Entry => 9
    case RetryGuard => 8
    case Committed => 15
    case Calling => 14
    case Leaving => 7
    case Returned(None) => 13
    case Returned(Some(e)) => if IsContextError(e) || IsPermanent(e) then 6 else 13
    case LoopStop(ClearAlive) => 5
    case LoopStop(CheckLength) => 4
    case LoopStop(Send) => 3
    case LoopStop(CancelContext) => 2
    case Signalled => 3
    case Clearing => 2
    case Exited => 0
  }

  ghost predicate WindsDown(s: State, s': State) {
    && s'.m.ctx == s.m.ctx
    && s'.t.passes + PassesLeft(s') <= s.t.passes + PassesLeft(s)
    && s'.t.calls + CallsLeft(s') <= s.t.calls + CallsLeft(s)
    && StepsLeft(s') + (if s'.l != s.l then 1 else 0) <= StepsLeft(s)
  }

  lemma LoopStepAfterEnd(c: Config, s: State, s': State)
    requires LoopInv(s) && LoopStep(c, s, s') && s.m.ctx.Ended?
    ensures WindsDown(s, s')
  {
  }

  lemma HandlerStepAfterEnd(c: Config, s: State, s': State)
    requires HandlerStep(c, s, s') && s.m.ctx.Ended?
    ensures WindsDown(s, s')
  {
  }

  lemma StepAfterEnd(c: Config, s: State, s': State)
    requires Inv(s) && Step(c, s, s') && s.m.ctx.Ended?
    ensures WindsDown(s, s')
  {
    if LoopStep(c, s, s') {
      LoopStepAfterEnd(c, s, s');
    } else {
      HandlerStepAfterEnd(c, s, s');
    }
  }

  /** The steps of the renewal goroutine in r[k..n]: each of them changes its program point, and no other step does. */
  ghost function LoopMoves(r: seq<State>, k: nat, n: nat): nat
    requires k <= n < |r|
    decreases n
  {
    if k == n then 0 else LoopMoves(r, k, n - 1) + (if r[n].l != r[n - 1].l then 1 else 0)
  }

  lemma {:induction false} RunAfterEnd(c: Config, r: seq<State>, k: nat, n: nat)
    requires IsRun(c, r) && k <= n < |r| && r[k].m.ctx.Ended?
    ensures r[n].m.ctx == r[k].m.ctx
    ensures r[n].t.passes + PassesLeft(r[n]) <= r[k].t.passes + PassesLeft(r[k])
    ensures r[n].t.calls + CallsLeft(r[n]) <= r[k].t.calls + CallsLeft(r[k])
    ensures LoopMoves(r, k, n) + StepsLeft(r[n]) <= StepsLeft(r[k])
    decreases n
  {
    if k == n {
    } else {
      RunAfterEnd(c, r, k, n - 1);
      ReachableInv(c, r, n - 1);
      assert StepAt(c, r, n - 1);
      StepAfterEnd(c, r[n - 1], r[n]);
    }
  }

  /** The context keeps its first cause, and a goroutine that ends it ends it by cancellation, never by the deadline. */
  lemma {:induction false} FirstCauseStands(c: Config, r: seq<State>, k: nat, n: nat)
    requires IsRun(c, r) && k < n < |r|
    ensures r[k].m.ctx.Ended? ==> r[n].m.ctx == r[k].m.ctx
    ensures r[n - 1].m.ctx.Live? && r[n].m.ctx.Ended? && (r[n].h != r[n - 1].h || r[n].l != r[n - 1].l) ==>
              r[n].m.ctx.Err() == Some(Canceled)
  {
    if r[k].m.ctx.Ended? {
      RunAfterEnd(c, r, k, n);
    }
    assert StepAt(c, r, n - 1);
  }

  /** After the context ended the loop starts at most one more pass, begins no RenewMessageLock call unless its guard
      had already been evaluated, and takes at most 15 more steps, whichever select cases are chosen. */
  lemma {:induction false} LoopWindsDownAfterContextEnd(c: Config, r: seq<State>, k: nat, n: nat)
    requires IsRun(c, r) && k <= n < |r| && r[k].m.ctx.Ended?
    ensures r[n].t.passes <= r[k].t.passes + 1
    ensures r[n].t.calls <= r[k].t.calls + (if r[k].l.Committed? then 1 else 0)
    ensures LoopMoves(r, k, n) <= 15
  {
    RunAfterEnd(c, r, k, n);
  }

  /** The wind-down cannot stall: the loop has a step to take exactly when it has not exited and is not blocked in its
      own stop. */
  lemma LoopCanMoveAfterContextEnd(c: Config, r: seq<State>, n: nat)
    requires IsRun(c, r) && n < |r| && r[n].m.ctx.Ended?
    ensures (exists s' :: LoopStep(c, r[n], s')) <==> !r[n].l.Exited? && !LoopBlocked(r[n])
  {
    if !r[n].l.Exited? && !LoopBlocked(r[n]) {
      var s' := SomeLoopStep(c, r[n]);
    }
  }

  lemma SomeLoopStep(c: Config, s: State) returns (s': State)
    requires !s.l.Exited? && !LoopBlocked(s)
    ensures LoopStep(c, s, s')
  {
    match s.l
    case NotStarted => s' := s.(m := s.m.(alive := true), l := Guard);
    case Guard => s' := if s.m.alive then s.(l := Select, t := s.t.(passes := s.t.passes + 1)) else s.(l := Exited);
    case Select => s' := s.(l := Ticked);
    case Ticked => s' := if s.m.alive then s.(l := Entry, t := s.t.(ticks := s.t.ticks + 1)) else s.(l := Exited);
    case Entry => s' := s.(l := RetryGuard);
    case RetryGuard => s' := s.(l := if s.m.ctx.Live? then Committed else Leaving);
    case Committed => s' := s.(l := Calling, t := s.t.(calls := s.t.calls + 1));
    case Calling => s' := Return(s.(t := s.t.(outcomes := s.t.outcomes + [None])), None);
    case Leaving => s' := Return(s, if s.m.ctx.Ended? then s.m.ctx.Err() else Some(LockLost));
    case Returned(result) => s' := AfterRenewal(s, result);
    case LoopStop(p) =>
      s' := s.(m := StopEffect(c, s.m, p),
               l := match StopNext(s.m, p) case Some(q) => LoopStop(q) case None => Guard);
    case Signalled => s' := s.(l := if s.m.alive then Clearing else Guard);
    case Clearing => s' := s.(m := s.m.(alive := false), l := Guard);
  }

  // ---------- the handler chain ----------

  /** Whether the user handler returns or panics, recovered or not: the token is released exactly once, before the
      goroutine ends, and the message context has ended by then, so the loop starts at most one more pass. */
  lemma {:induction false} ChainReleasesTokenAndEndsContext(c: Config, r: seq<State>, k: nat, n: nat)
    requires IsRun(c, r) && k <= n < |r|
    ensures r[n].t.releases <= 1
    ensures r[k].h.Gone? ==> r[n].t.releases == 1 && r[n].m.ctx.Ended? && r[n].t.passes <= r[k].t.passes + 1
    ensures r[k].h.Gone? ==> LoopMoves(r, k, n) <= 15
  {
    ReachableInv(c, r, n);
    ReachableInv(c, r, k);
    if r[k].h.Gone? {
      GoneStaysGone(c, r, k, n);
      LoopWindsDownAfterContextEnd(c, r, k, n);
    }
  }

  lemma {:induction false} GoneStaysGone(c: Config, r: seq<State>, k: nat, n: nat)
    requires IsRun(c, r) && k <= n < |r| && r[k].h.Gone?
    ensures r[n].h.Gone?
    decreases n
  {
    if k == n {
    } else {
      GoneStaysGone(c, r, k, n - 1);
      assert StepAt(c, r, n - 1);
    }
  }

  predicate Panicking(h: HandlerPc) {
    (h.Releasing? || h.Canceling? || h.Gone?) && h.panicking
  }

  predicate PanicInv(c: Config, s: State) {
    && (Panicking(s.h) || s.h.Recovering? ==> s.t.handlerStops == 0)
    && (s.h.Recovering? ==> c.recovers)
    && ((s.h.Releasing? || s.h.Canceling? || s.h.Gone?) && s.t.handlerStops == 0 && !c.recovers ==> s.h.panicking)
  }

  /** A panic skips stop. Without the panic handler it ends the program; with it, the panic goes through the recovery hook,
      and the program ends only if the hook itself panics. Nothing happens after the program has ended. */
  lemma {:induction false} PanicsAreRecovered(c: Config, r: seq<State>, n: nat)
    requires IsRun(c, r) && n < |r|
    ensures PanicInv(c, r[n])
    ensures c.recovers && Panicking(r[n].h) ==> exists k :: 0 <= k < n && r[k].h.Recovering?
    ensures r[n].h == Gone(true) ==> n == |r| - 1
  {
    if n + 1 < |r| {
      assert StepAt(c, r, n);
    }
    if n == 0 {
    } else {
      PanicsAreRecovered(c, r, n - 1);
      ReachableInv(c, r, n - 1);
      assert StepAt(c, r, n - 1);
      if c.recovers && Panicking(r[n].h) && r[n - 1].h.Recovering? {
        assert 0 <= n - 1 < n;
      }
    }
  }

  /** The panicking handler does occur: a run in which the handler panics while the loop waits in its select, stop is skipped,
      and still the token is released and the context ended when the goroutine is gone; the recovery hook may panic or not. */
  lemma PanickedHandler(c: Config, hookPanics: bool) returns (r: seq<State>)
    ensures IsRun(c, r) && var s := r[|r| - 1];
            && s.h == Gone(!c.recovers || hookPanics) && s.t.handlerStops == 0 && s.t.releases == 1
            && s.m.ctx.Ended? && s.l.Select?
  {
    var s0 := Init();
    var s1 := s0.(m := s0.m.(alive := true), l := Guard);
    var s2 := s1.(l := Select, t := s1.t.(passes := 1));
    Extend(c, [s0], s1);
    Extend(c, [s0] + [s1], s2);
    r := [s0] + [s1] + [s2];
    var s := s2;
    if c.recovers {
      s := s2.(h := Recovering);
      Extend(c, r, s);
      r := r + [s];
    }
    r := UnwindChain(c, r, !c.recovers || hookPanics);
  }

  lemma UnwindChain(c: Config, r: seq<State>, panicking: bool) returns (r': seq<State>)
    requires IsRun(c, r) && var s := r[|r| - 1];
             s.h == (if c.recovers then Recovering else Handling) && s.l.Select? && s.t.handlerStops == 0
    requires c.recovers || panicking
    ensures IsRun(c, r') && var s := r'[|r'| - 1];
            && s.h == Gone(panicking) && s.t.handlerStops == 0 && s.t.releases == 1 && s.m.ctx.Ended? && s.l.Select?
  {
    ReachableInv(c, r, |r| - 1);
    var s := r[|r| - 1];
    var s1 := s.(h := Releasing(panicking));
    var s2 := s1.(h := Canceling(panicking), t := s1.t.(releases := s1.t.releases + 1));
    var s3 := s2.(m := s2.m.(ctx := s2.m.ctx.Cancel()), h := Gone(panicking));
    assert HandlerStep(c, s, s1) && HandlerStep(c, s1, s2) && HandlerStep(c, s2, s3);
    Extend(c, r, s1);
    Extend(c, r + [s1], s2);
    Extend(c, r + [s1] + [s2], s3);
    r' := r + [s1] + [s2] + [s3];
  }

  /** From the end of the user handler, the handler goroutine takes at most seven steps, and the only thing
      that can hold it up is a blocked stop. */
  function HandlerStepsLeft(h: HandlerPc): nat {
    match h
    case Handling => 7
    case HandlerStop(ClearAlive) => 6
    case HandlerStop(CheckLength) => 5
    case HandlerStop(Send) => 4
    case HandlerStop(CancelContext) => 3
    case Recovering => 3
    case Releasing(_) => 2
    case Canceling(_) => 1
    case Gone(_) => 0
  }

  lemma HandlerProgress(c: Config, s: State)
    ensures forall s' :: HandlerStep(c, s, s') ==> HandlerStepsLeft(s'.h) < HandlerStepsLeft(s.h)
    ensures (exists s' :: HandlerStep(c, s, s')) <==> !s.h.Gone? && !HandlerBlocked(s)
  {
    if !s.h.Gone? && !HandlerBlocked(s) {
      var s' :=
        match s.h
        case Handling => s.(h := HandlerStop(ClearAlive), t := s.t.(handlerStops := s.t.handlerStops + 1))
        case HandlerStop(p) =>
          s.(m := StopEffect(c, s.m, p),
             h := match StopNext(s.m, p) case Some(q) => HandlerStop(q) case None => Releasing(false))
        case Recovering => s.(h := Releasing(false))
        case Releasing(b) => s.(h := Canceling(b), t := s.t.(releases := s.t.releases + 1))
        case Canceling(b) => s.(m := s.m.(ctx := s.m.ctx.Cancel()), h := Gone(b))
        case Gone(b) => s;
      assert HandlerStep(c, s, s');
    }
  }

  // ---------- why the loop stops itself, and its metrics ----------

  predicate Renewing(l: LoopPc) {
    l.Entry? || l.RetryGuard? || l.Committed? || l.Calling? || l.Leaving? || l.Returned?
  }

  /** The reasons for which the loop may stop itself. */
  predicate MayStop(s: State) {
    || s.m.ctx.Ended?
    || s.t.expired
    || Some(Canceled) in s.t.outcomes
    || Some(LockLost) in s.t.outcomes
    || Some(UnauthorizedAccess) in s.t.outcomes
  }

  /** How often outcome o occurs in the log. */
  function Occurrences(log: seq<Option<Error>>, o: Option<Error>): nat {
    if log == [] then 0
    else Occurrences(log[..|log| - 1], o) + (if log[|log| - 1] == o then 1 else 0)
  }

  predicate TickInv(s: State) {
    && s.t.ticks == s.t.successes + s.t.failures + s.t.contextTicks + (if Renewing(s.l) then 1 else 0)
    && s.t.contextTicks + s.t.deadlineReached <= s.t.loopStops
  }

  /** How many results are errors of the given kind: of a context, or any other. */
  function ErrorResults(results: seq<Option<Error>>, ofContext: bool): nat {
    if results == [] then 0
    else ErrorResults(results[..|results| - 1], ofContext)
         + (if IsErrorResult(results[|results| - 1], ofContext) then 1 else 0)
  }

  predicate IsErrorResult(result: Option<Error>, ofContext: bool) {
    result.Some? && ((result == Some(Canceled) || result == Some(DeadlineExceeded)) <==> ofContext)
  }

  /** Each result of renewMessageLock shows in exactly one of the three metrics, once the loop has handled it. */
  predicate SuccessInv(s: State) {
    && (s.l.Returned? ==> s.t.results != [] && s.t.results[|s.t.results| - 1] == s.l.result)
    && s.t.successes + (if s.l == Returned(None) then 1 else 0) == Occurrences(s.t.results, None)
  }

  predicate ErrorInv(s: State, ofContext: bool) {
    (if ofContext then s.t.contextTicks else s.t.failures)
    + (if s.l.Returned? && IsErrorResult(s.l.result, ofContext) then 1 else 0) == ErrorResults(s.t.results, ofContext)
  }

  /** The results on which the loop has to stop itself. */
  predicate IsStopResult(result: Option<Error>) {
    || result == Some(LockLost) || result == Some(UnauthorizedAccess)
    || result == Some(Canceled) || result == Some(DeadlineExceeded)
  }

  /** The loop has called stop because of a result, or is about to. */
  predicate Stopping(s: State) {
    s.t.loopStops == 1 || (s.l.Returned? && IsStopResult(s.l.result))
  }

  predicate StopError(e: Error) {
    e.LockLost? || e.UnauthorizedAccess? || e.Canceled?
  }

  /** Whatever obliges the loop to stop itself has made it do so. */
  ghost predicate StopInv(s: State) {
    && (forall e :: StopError(e) && Some(e) in s.t.outcomes ==> Stopping(s))
    && (s.t.expired ==> Stopping(s) || s.l.Leaving?)
  }

  /** An exit through the context shows in the deadline metric. */
  predicate ExitInv(s: State) {
    && (s.t.deadlineReached > 0 ==> s.m.ctx == Ended(ByDeadline))
    && (s.t.loopStops == 1 && s.t.contextTicks == 0
        && Some(LockLost) !in s.t.results && Some(UnauthorizedAccess) !in s.t.results
        ==> s.m.ctx.Ended? && s.t.deadlineReached == if s.m.ctx.cause.ByDeadline? then 1 else 0)
  }

  predicate LogInv(s: State) {
    && s.t.calls == |s.t.outcomes| + (if s.l.Calling? then 1 else 0)
    && s.t.timeouts == Occurrences(s.t.outcomes, Some(DeadlineExceeded))
    && s.t.successes + (if s.l == Returned(None) then 1 else 0) == Occurrences(s.t.outcomes, None)
  }

  predicate ReasonInv(s: State) {
    && (s.t.loopStops == 1 ==> MayStop(s))
    && (s.l.Leaving? ==> s.m.ctx.Ended? || s.t.expired)
    && (s.l.Returned? && s.l.result.Some? && (IsContextError(s.l.result.value) || IsPermanent(s.l.result.value))
        ==> MayStop(s))
    && (s.l == Returned(Some(DeadlineExceeded)) ==> s.m.ctx.Ended?)
  }

  lemma LoopStepKeepsTickInv(c: Config, s: State, s': State)
    requires TickInv(s) && LoopStep(c, s, s')
    ensures TickInv(s')
  {
  }

  lemma LoopStepKeepsLogInv(c: Config, s: State, s': State)
    requires LogInv(s) && LoopStep(c, s, s')
    ensures LogInv(s')
  {
    if s.l.Calling? {
      assert s'.t.outcomes[..|s.t.outcomes|] == s.t.outcomes;
    }
  }

  /** Results are logged one by one on return, and the metrics for them change only afterwards. */
  lemma ResultsAreLoggedOnReturn(c: Config, s: State, s': State)
    requires LoopStep(c, s, s')
    ensures if s'.l.Returned? then s'.t.results == s.t.results + [s'.l.result] && !s.l.Returned?
            else s'.t.results == s.t.results
    ensures if s.l.Returned? then s' == AfterRenewal(s, s.l.result)
            else s'.t.successes == s.t.successes && s'.t.failures == s.t.failures && s'.t.contextTicks == s.t.contextTicks
  {
  }

  lemma LoopStepKeepsSuccessInv(c: Config, s: State, s': State)
    requires SuccessInv(s) && LoopStep(c, s, s')
    ensures SuccessInv(s')
  {
    ResultsAreLoggedOnReturn(c, s, s');
    if s'.l.Returned? {
      assert s'.t.results[..|s.t.results|] == s.t.results;
    }
  }

  lemma LoopStepKeepsErrorInv(c: Config, s: State, s': State, ofContext: bool)
    requires ErrorInv(s, ofContext) && LoopStep(c, s, s')
    ensures ErrorInv(s', ofContext)
  {
    ResultsAreLoggedOnReturn(c, s, s');
    if s'.l.Returned? {
      assert s'.t.results[..|s.t.results|] == s.t.results;
    }
  }

  lemma LoopStepKeepsStopInv(c: Config, s: State, s': State)
    requires LoopInv(s) && StopInv(s) && LoopStep(c, s, s')
    ensures StopInv(s')
  {
  }

  lemma LoopStepKeepsExitInv(c: Config, s: State, s': State)
    requires LoopInv(s) && TickInv(s) && SuccessInv(s) && ExitInv(s) && LoopStep(c, s, s')
    ensures ExitInv(s')
  {
    if s.l.Returned? {
      assert s.l.result in s.t.results && s'.t.results == s.t.results;
    }
  }

  lemma LoopStepKeepsReasonInv(c: Config, s: State, s': State)
    requires LoopInv(s) && ReasonInv(s) && LoopStep(c, s, s')
    ensures ReasonInv(s')
  {
  }

  ghost predicate AccountInv(s: State) {
    && TickInv(s) && LogInv(s) && ReasonInv(s)
    && SuccessInv(s) && ErrorInv(s, false) && ErrorInv(s, true) && StopInv(s) && ExitInv(s)
  }

  lemma OtherStepKeepsAccount(c: Config, s: State, s': State)
    requires AccountInv(s) && (HandlerStep(c, s, s') || EnvironmentStep(s, s'))
    ensures AccountInv(s')
  {
    assert s'.l == s.l && s'.t == s.t.(handlerStops := s'.t.handlerStops, releases := s'.t.releases);
    assert s.m.ctx.Ended? ==> s'.m.ctx.Ended?;
  }

  lemma StepKeepsAccount(c: Config, s: State, s': State)
    requires Inv(s) && AccountInv(s) && Step(c, s, s')
    ensures AccountInv(s')
  {
    if LoopStep(c, s, s') {
      LoopStepKeepsTickInv(c, s, s');
      LoopStepKeepsLogInv(c, s, s');
      LoopStepKeepsReasonInv(c, s, s');
      LoopStepKeepsSuccessInv(c, s, s');
      LoopStepKeepsErrorInv(c, s, s', false);
      LoopStepKeepsErrorInv(c, s, s', true);
      LoopStepKeepsStopInv(c, s, s');
      LoopStepKeepsExitInv(c, s, s');
    } else {
      OtherStepKeepsAccount(c, s, s');
    }
  }

  lemma {:induction false} ReachableAccount(c: Config, r: seq<State>, n: nat)
    requires IsRun(c, r) && n < |r|
    ensures AccountInv(r[n])
  {
    if n == 0 {
    } else {
      ReachableAccount(c, r, n - 1);
      ReachableInv(c, r, n - 1);
      assert StepAt(c, r, n - 1);
      StepKeepsAccount(c, r[n - 1], r[n]);
    }
  }

  /** Timed-out attempts and unclassified errors alone never make the loop call stop: it does so only after the context
      ended, a reported cancellation, a lost or locally expired lock, or an unauthorized call. */
  lemma TimeoutsAloneNeverStopTheLoop(c: Config, r: seq<State>, n: nat)
    requires IsRun(c, r) && n < |r|
    requires r[n].m.ctx.Live? && !r[n].t.expired
    requires forall o :: o in r[n].t.outcomes ==> o.None? || o.value.DeadlineExceeded? || o.value.Other?
    ensures r[n].t.loopStops == 0 && !r[n].l.LoopStop?
  {
    ReachableInv(c, r, n);
    ReachableAccount(c, r, n);
  }

  /** The converse: a call reported as lost, unauthorized or cancelled makes the loop stop itself, and so does an expired lock, at
      once; nothing but returning from the renewal comes in between. */
  lemma PermanentErrorsStopTheLoop(c: Config, r: seq<State>, n: nat)
    requires IsRun(c, r) && n < |r|
    ensures Some(LockLost) in r[n].t.outcomes ==> Stopping(r[n])
    ensures Some(UnauthorizedAccess) in r[n].t.outcomes ==> Stopping(r[n])
    ensures Some(Canceled) in r[n].t.outcomes ==> Stopping(r[n])
    ensures r[n].t.expired ==> Stopping(r[n]) || r[n].l.Leaving?
  {
    ReachableAccount(c, r, n);
    assert StopError(LockLost) && StopError(UnauthorizedAccess) && StopError(Canceled);
  }

  /** The deadline metric is raised exactly for a loop that left through its context case after the message deadline passed: never
      before the context ended by deadline, and always when the loop stopped itself for no other reason. */
  lemma DeadlineMetricIsExact(c: Config, r: seq<State>, n: nat)
    requires IsRun(c, r) && n < |r|
    ensures r[n].t.deadlineReached > 0 ==> r[n].m.ctx == Ended(ByDeadline)
    ensures r[n].t.loopStops == 1 && r[n].t.contextTicks == 0
            && Some(LockLost) !in r[n].t.results && Some(UnauthorizedAccess) !in r[n].t.results
            ==> r[n].m.ctx.Ended? && r[n].t.deadlineReached == if r[n].m.ctx == Ended(ByDeadline) then 1 else 0
  {
    ReachableAccount(c, r, n);
  }

  /** A stop call can block only in a run in which the loop had a reason to stop itself: without a context end, a reported
      cancellation, a lost or expired lock or an unauthorized call, no stop call ever blocks. */
  lemma BlockedStopNeedsAReason(c: Config, r: seq<State>, n: nat)
    requires IsRun(c, r) && n < |r| && Blocked(r[n])
    ensures MayStop(r[n])
  {
    ReachableInv(c, r, n);
    ReachableAccount(c, r, n);
  }

  /** Every tick is accounted for once: a success, a failure, a context error (at most one), or the renewal in progress;
      the deadline metric is raised at most once, and never in the same run as a context-error tick; the timeout
      metric counts the timed-out calls; and once the loop has exited, the success metric counts the successful calls, the
      failure metric the results that are errors of no context, and the rest were context errors. */
  lemma TicksAreAccountedFor(c: Config, r: seq<State>, n: nat)
    requires IsRun(c, r) && n < |r|
    ensures r[n].l.Exited? ==> r[n].t.ticks == r[n].t.successes + r[n].t.failures + r[n].t.contextTicks
    ensures r[n].t.successes + r[n].t.failures + r[n].t.contextTicks <= r[n].t.ticks
            <= r[n].t.successes + r[n].t.failures + r[n].t.contextTicks + 1
    ensures r[n].t.contextTicks + r[n].t.deadlineReached <= 1
    ensures r[n].t.timeouts == Occurrences(r[n].t.outcomes, Some(DeadlineExceeded))
    ensures r[n].l.Exited? ==>
              && r[n].t.successes == Occurrences(r[n].t.outcomes, None) == Occurrences(r[n].t.results, None)
              && r[n].t.failures == ErrorResults(r[n].t.results, false)
              && r[n].t.contextTicks == ErrorResults(r[n].t.results, true)
  {
    ReachableInv(c, r, n);
    ReachableAccount(c, r, n);
  }
}
