/** The message pump of Processor: one pump goroutine that receives messages and acquires concurrency tokens, and any
    number of handler goroutines that release them. Start attempts follow each other while handlers of
    earlier attempts are still running. */
module Pump {
  import opened Common
  import SR = StartRetries

  datatype RawOptions = RawOptions(maxConcurrency: int, maxReceiveCount: int, startMaxAttempt: int)

  datatype Options = Options(maxConcurrency: int, maxReceiveCount: int, startMaxAttempt: int)

  predicate ValidOptions(o: Options) {
    1 <= o.maxReceiveCount <= o.maxConcurrency && 1 <= o.startMaxAttempt
  }

  /** applyProcessorOptions */
  method ApplyProcessorOptions(options: Option<RawOptions>) returns (o: Options)
    ensures ValidOptions(o)
    ensures options.None? ==> o == Options(1, 1, 1)
    ensures options.Some? ==>
              && (options.value.maxConcurrency > 0 ==> o.maxConcurrency == options.value.maxConcurrency)
              && (options.value.maxConcurrency <= 0 ==> o.maxConcurrency == 1)
              && (0 < options.value.maxReceiveCount <= o.maxConcurrency ==> o.maxReceiveCount == options.value.maxReceiveCount)
              && (options.value.maxReceiveCount <= 0 || options.value.maxReceiveCount > o.maxConcurrency
                  ==> o.maxReceiveCount == o.maxConcurrency)
              && (options.value.startMaxAttempt > 0 ==> o.startMaxAttempt == options.value.startMaxAttempt)
              && (options.value.startMaxAttempt <= 0 ==> o.startMaxAttempt == 1)
  {
    o := Options(1, 1, 1);
    if options.Some? {
      var raw := options.value;
      if raw.maxConcurrency > 0 {
        o := o.(maxConcurrency := raw.maxConcurrency);
        o := o.(maxReceiveCount := raw.maxConcurrency);
      }
      if raw.maxReceiveCount > 0 && raw.maxReceiveCount < o.maxConcurrency {
        o := o.(maxReceiveCount := raw.maxReceiveCount);
      }
      if raw.startMaxAttempt > 0 {
        o := o.(startMaxAttempt := raw.startMaxAttempt);
      }
    }
  }

  // ---------- the state machine ----------

  datatype Message = Message(id: nat)

  /** One handler goroutine. It holds its token while Spawned or Handling; Closing is after the token was given
      back and before the concurrency gauge is decremented. */
  datatype Phase = Spawned | Handling | Closing | Finished

  predicate HoldsToken(p: Phase) {
    p.Spawned? || p.Handling?
  }

  /** Program points of the goroutine that called Start. `initial` marks the receive at the head of start. */
  datatype PumpPc =
    | Idle
    | Receiving(initial: bool, asked: int)
    | Dispatch(initial: bool, batch: seq<Message>)
    | Spawning(initial: bool, batch: seq<Message>)
    | LoopGuard
    | Waiting
    | Counted(asked: int)
    | Leaving
    | Returned(err: Option<Error>)
    | Delaying

  /** What the current or last Start call has done: the errors it saved, the delays it asked for, and what it returned. */
  datatype StartLog = StartLog(errs: seq<Error>, delays: seq<nat>, result: Option<SR.Result>)

  /** attempt counts within one Start call, attempts over the life of the processor; handlers[i] runs started[i]. */
  datatype State = State(
    tokens: nat, ctx: Context, pump: PumpPc, attempt: nat, attempts: nat, log: StartLog,
    received: seq<Message>, started: seq<Message>, handlers: seq<Phase>)

  const NO_LOG: StartLog := StartLog([], [], None)

  function Init(): State {
    State(0, Live, Idle, 0, 0, NO_LOG, [], [], [])
  }

  function Min(a: int, b: int): int {
    if a <= b then a else b
  }

  function BeginAttempt(o: Options, s: State, attempt: nat): State {
    s.(pump := Receiving(true, o.maxReceiveCount), attempt := attempt, attempts := s.attempts + 1)
  }

  /** Start returns. */
  function EndStart(s: State, result: SR.Result): State {
    s.(pump := Idle, log := s.log.(result := Some(result)))
  }

  /** startWithRetries returns its saved errors. */
  function EndWithErrors(s: State): State {
    EndStart(s, if s.log.errs == [] then SR.Nil else SR.Joined(s.log.errs))
  }

  /** The next turn of the loop in startWithRetries. */
  function NextAttempt(o: Options, s: State): State {
    if s.attempt + 1 < o.startMaxAttempt then BeginAttempt(o, s, s.attempt + 1) else EndWithErrors(s)
  }

  /** A failed attempt: its error is saved, and unless it was the last one a delay is asked for. */
  function SaveError(o: Options, s: State, e: Error): State {
    var saved := s.(log := s.log.(errs := s.log.errs + [e]));
    if s.attempt + 1 == o.startMaxAttempt then EndWithErrors(saved)
    else saved.(pump := Delaying, log := saved.log.(delays := s.log.delays + [s.attempt % SR.UINT32]))
  }

  /** A successful receive returns at most the number asked for; a panic in it is recovered by Start. */
  ghost predicate ReceiveStep(s: State, s': State, initial: bool, asked: int) {
    || s' == EndStart(s, SR.PanicRecovered)
    || (s'.pump.Returned? && s'.pump.err.Some? && s' == s.(pump := s'.pump))
    || (&& s'.pump.Dispatch?
        && |s'.pump.batch| <= asked
        && s' == s.(pump := Dispatch(initial, s'.pump.batch), received := s.received + s'.pump.batch))
  }

  ghost predicate PumpStep(o: Options, s: State, s': State) {
    match s.pump
    case Idle =>
      // Start is called, with a context of its own
      s' == BeginAttempt(o, s.(ctx := s'.ctx, log := NO_LOG), 0)
    case Receiving(initial, asked) => ReceiveStep(s, s', initial, asked)
    case Dispatch(initial, batch) =>
      if batch == [] then s' == s.(pump := LoopGuard)
      else s.tokens < o.maxConcurrency && s' == s.(tokens := s.tokens + 1, pump := Spawning(initial, batch))
    case Spawning(initial, batch) =>
      && batch != []
      && s' == s.(pump := Dispatch(initial, batch[1..]),
                  started := s.started + [batch[0]], handlers := s.handlers + [Spawned])
    case LoopGuard => s' == s.(pump := if s.ctx.Live? then Waiting else Leaving)
    case Waiting =>
      || s' == s.(pump := Counted(Min(o.maxReceiveCount, o.maxConcurrency - s.tokens)))
      || (s.ctx.Ended? && s' == s.(pump := LoopGuard))
    case Counted(asked) =>
      s' == s.(pump := if s.ctx.Ended? || asked == 0 then LoopGuard else Receiving(false, asked))
    case Leaving => s' == s.(pump := Returned(s.ctx.Err()))
    case Returned(err) => s' == (match err case None => NextAttempt(o, s) case Some(e) => SaveError(o, s, e))
    case Delaying =>
      || s' == NextAttempt(o, s)
      || (s.ctx.Ended? && s' == EndStart(s, SR.ContextError(s.ctx.Err().value)))
  }

  predicate HandlerStep(s: State, s': State, i: nat) {
    && i < |s.handlers|
    && match s.handlers[i]
       case Spawned => s' == s.(handlers := s.handlers[i := Handling])
       case Handling => s.tokens > 0 && s' == s.(tokens := s.tokens - 1, handlers := s.handlers[i := Closing])
       case Closing => s' == s.(handlers := s.handlers[i := Finished])
       case Finished => false
  }

  ghost predicate ContextEnds(s: State, s': State) {
    s.ctx.Live? && s'.ctx.Ended? && s' == s.(ctx := s'.ctx)
  }

  ghost predicate Step(o: Options, s: State, s': State) {
    PumpStep(o, s, s') || (exists i :: HandlerStep(s, s', i)) || ContextEnds(s, s')
  }

  ghost predicate StepAt(o: Options, r: seq<State>, i: nat)
    requires i + 1 < |r|
  {
    Step(o, r[i], r[i + 1])
  }

  /** r is a path of steps, from any state. */
  ghost predicate IsPath(o: Options, r: seq<State>) {
    |r| > 0 && forall i :: 0 <= i < |r| - 1 ==> StepAt(o, r, i)
  }

  ghost predicate IsRun(o: Options, r: seq<State>) {
    ValidOptions(o) && IsPath(o, r) && r[0] == Init()
  }

  // ---------- counting handlers ----------

  function Holders(hs: seq<Phase>): nat {
    if hs == [] then 0 else Holders(hs[..|hs| - 1]) + (if HoldsToken(hs[|hs| - 1]) then 1 else 0)
  }

  function Count(hs: seq<Phase>, p: Phase): nat {
    if hs == [] then 0 else Count(hs[..|hs| - 1], p) + (if hs[|hs| - 1] == p then 1 else 0)
  }

  lemma {:induction false} CountsAfterUpdate(hs: seq<Phase>, i: nat, q: Phase, p: Phase)
    requires i < |hs|
    ensures Holders(hs[i := q]) ==
            Holders(hs) - (if HoldsToken(hs[i]) then 1 else 0) + (if HoldsToken(q) then 1 else 0)
    ensures Count(hs[i := q], p) == Count(hs, p) - (if hs[i] == p then 1 else 0) + (if q == p then 1 else 0)
  {
    var front := hs[..|hs| - 1];
    if i == |hs| - 1 {
      assert hs[i := q][..|hs| - 1] == front;
    } else {
      CountsAfterUpdate(front, i, q, p);
      assert hs[i := q][..|hs| - 1] == front[i := q];
    }
  }

  lemma {:induction false} CountsAfterSpawn(hs: seq<Phase>, p: Phase)
    ensures Holders(hs + [Spawned]) == Holders(hs) + 1
    ensures Count(hs + [Spawned], p) == Count(hs, p) + (if p == Spawned then 1 else 0)
  {
    assert (hs + [Spawned])[..|hs|] == hs;
  }

  lemma {:induction false} CountsCover(hs: seq<Phase>)
    ensures Holders(hs) == Count(hs, Spawned) + Count(hs, Handling)
    ensures |hs| == Count(hs, Spawned) + Count(hs, Handling) + Count(hs, Closing) + Count(hs, Finished)
  {
    if hs == [] {
    } else {
      CountsCover(hs[..|hs| - 1]);
    }
  }

  lemma {:induction false} SomeHolder(hs: seq<Phase>) returns (i: nat)
    requires Holders(hs) > 0
    ensures i < |hs| && HoldsToken(hs[i])
  {
    if HoldsToken(hs[|hs| - 1]) {
      i := |hs| - 1;
    } else {
      i := SomeHolder(hs[..|hs| - 1]);
    }
  }

  // ---------- the inductive invariant ----------

  /** The messages received but not yet handed to a handler run. */
  function InBatch(s: State): seq<Message> {
    if s.pump.Dispatch? || s.pump.Spawning? then s.pump.batch else []
  }

  function FreeTokens(o: Options, s: State): int {
    o.maxConcurrency - s.tokens
  }

  /** Whether the current batch was sized by the free tokens: every loop receive, and the first receive of all. */
  predicate Sized(s: State, initial: bool) {
    !initial || s.attempts == 1
  }

  predicate TokenInv(o: Options, s: State) {
    && s.tokens == Holders(s.handlers) + (if s.pump.Spawning? then 1 else 0)
    && s.tokens <= o.maxConcurrency
    && (s.attempts == 0 ==> s.pump.Idle? && s.handlers == [])
  }

  predicate FlowInv(s: State) {
    && s.received == s.started + InBatch(s)
    && |s.handlers| == |s.started|
    && (s.pump.Spawning? ==> s.pump.batch != [])
  }

  predicate SizeInv(o: Options, s: State) {
    match s.pump
    case Receiving(true, asked) => asked == o.maxReceiveCount && (s.attempts == 1 ==> s.handlers == [])
    case Receiving(false, asked) => 1 <= asked <= o.maxReceiveCount && asked <= FreeTokens(o, s)
    case Counted(asked) => 0 <= asked <= o.maxReceiveCount && asked <= FreeTokens(o, s)
    case Dispatch(initial, batch) => Sized(s, initial) ==> |batch| <= FreeTokens(o, s)
    case Spawning(initial, batch) => Sized(s, initial) ==> |batch| - 1 <= FreeTokens(o, s)
    case _ => true
  }

  predicate StartInv(o: Options, s: State) {
    && (s.pump.Leaving? ==> s.ctx.Ended?)
    && (s.pump.Returned? ==> s.pump.err.Some?)
    && s.attempt < o.startMaxAttempt
    && (s.pump.Delaying? ==> s.attempt + 1 < o.startMaxAttempt)
  }

  /** The errors and delays of the Start call, one for each attempt that failed and each delay asked for. */
  predicate LogInv(o: Options, s: State) {
    && (forall i :: 0 <= i < |s.log.delays| ==> s.log.delays[i] == i % SR.UINT32)
    && (s.attempts == 0 ==> s.log == NO_LOG)
    && match s.pump
       case Idle => s.attempts > 0 ==> s.log.result.Some? && EndedProperly(o, s, s.log.result.value)
       case Delaying => s.log.result.None? && |s.log.errs| == |s.log.delays| == s.attempt + 1
       case _ => s.log.result.None? && |s.log.errs| == |s.log.delays| == s.attempt
  }

  /** How many attempts the log of a Start call that returned this result must show. */
  predicate EndedProperly(o: Options, s: State, result: SR.Result) {
    match result
    case Joined(errs) => errs == s.log.errs && s.attempt + 1 == |errs| == o.startMaxAttempt && |s.log.delays| == s.attempt
    case ContextError(e) =>
      && s.ctx.Err() == Some(e)
      && |s.log.errs| == |s.log.delays| == s.attempt + 1 < o.startMaxAttempt
    case PanicRecovered => |s.log.errs| == |s.log.delays| == s.attempt
    case Nil => false
  }

  predicate Inv(o: Options, s: State) {
    ValidOptions(o) && TokenInv(o, s) && FlowInv(s) && SizeInv(o, s) && StartInv(o, s) && LogInv(o, s)
  }

  lemma PumpStepKeepsTokens(o: Options, s: State, s': State)
    requires Inv(o, s) && PumpStep(o, s, s')
    ensures TokenInv(o, s')
  {
    if s.pump.Spawning? {
      CountsAfterSpawn(s.handlers, Spawned);
    }
  }

  lemma SpawnKeepsFlow(o: Options, s: State, s': State)
    requires FlowInv(s) && s.pump.Spawning? && PumpStep(o, s, s')
    ensures FlowInv(s')
  {
    var batch := s.pump.batch;
    assert batch == [batch[0]] + batch[1..];
  }

  lemma ReceiveKeepsFlow(o: Options, s: State, s': State)
    requires FlowInv(s) && s.pump.Receiving? && PumpStep(o, s, s')
    ensures FlowInv(s')
  {
    assert s.started + [] == s.started;
  }

  lemma PumpStepKeepsFlow(o: Options, s: State, s': State)
    requires FlowInv(s) && PumpStep(o, s, s')
    ensures FlowInv(s')
  {
    if s.pump.Spawning? {
      SpawnKeepsFlow(o, s, s');
    } else if s.pump.Receiving? {
      ReceiveKeepsFlow(o, s, s');
    } else {
      assert InBatch(s') == InBatch(s) && s'.received == s.received && s'.started == s.started;
    }
  }

  lemma PumpStepKeepsSizes(o: Options, s: State, s': State)
    requires Inv(o, s) && PumpStep(o, s, s')
    ensures SizeInv(o, s')
  {
  }

  lemma PumpStepKeepsStart(o: Options, s: State, s': State)
    requires Inv(o, s) && PumpStep(o, s, s')
    ensures StartInv(o, s')
  {
  }

  lemma PumpStepKeepsLog(o: Options, s: State, s': State)
    requires Inv(o, s) && PumpStep(o, s, s')
    ensures LogInv(o, s')
  {
  }

  lemma HandlerStepKeepsInv(o: Options, s: State, s': State, i: nat)
    requires Inv(o, s) && HandlerStep(s, s', i)
    ensures Inv(o, s')
  {
    CountsAfterUpdate(s.handlers, i, s'.handlers[i], Spawned);
  }

  lemma StepKeepsInv(o: Options, s: State, s': State)
    requires Inv(o, s) && Step(o, s, s')
    ensures Inv(o, s')
  {
    if PumpStep(o, s, s') {
      PumpStepKeepsTokens(o, s, s');
      PumpStepKeepsFlow(o, s, s');
      PumpStepKeepsSizes(o, s, s');
      PumpStepKeepsStart(o, s, s');
      PumpStepKeepsLog(o, s, s');
    } else if i: nat :| HandlerStep(s, s', i) {
      HandlerStepKeepsInv(o, s, s', i);
    }
  }

  lemma {:induction false} ReachableInv(o: Options, r: seq<State>, n: nat)
    requires IsRun(o, r) && n < |r|
    ensures Inv(o, r[n])
  {
    if n == 0 {
    } else {
      ReachableInv(o, r, n - 1);
      assert StepAt(o, r, n - 1);
      StepKeepsInv(o, r[n - 1], r[n]);
    }
  }

  // ---------- capacity ----------

  /** In every reachable state: running handlers are at most the held tokens, held tokens at most MaxConcurrency, and a
      receive made by the loop asks for between 1 and MaxReceiveCount messages and never for more than the tokens
      that are free at that moment, although handlers release tokens after the count was read. */
  lemma CapacityIsNeverExceeded(o: Options, r: seq<State>, n: nat)
    requires IsRun(o, r) && n < |r|
    ensures Count(r[n].handlers, Handling) <= Holders(r[n].handlers) <= r[n].tokens <= o.maxConcurrency
    ensures r[n].pump.Receiving? ==> 1 <= r[n].pump.asked <= o.maxReceiveCount
    ensures r[n].pump.Receiving? && r[n].pump.initial ==> r[n].pump.asked == o.maxReceiveCount
    ensures r[n].pump.Receiving? && !r[n].pump.initial ==> r[n].pump.asked <= FreeTokens(o, r[n])
  {
    ReachableInv(o, r, n);
    CountsCover(r[n].handlers);
  }

  /** The loop asks for as much as it can: the count it computes is MaxReceiveCount or all tokens free at that moment, whichever
      is less, and with a live context a positive count is the one its receive is made with. */
  lemma LoopAsksForAllItCan(o: Options, r: seq<State>, n: nat)
    requires IsRun(o, r) && n + 1 < |r| && r[n + 1].pump != r[n].pump
    ensures r[n].pump.Waiting? && r[n + 1].pump.Counted? ==>
              && (r[n + 1].pump.asked == o.maxReceiveCount || r[n + 1].pump.asked == FreeTokens(o, r[n]))
              && r[n + 1].pump.asked <= o.maxReceiveCount && r[n + 1].pump.asked <= FreeTokens(o, r[n])
    ensures r[n].pump.Counted? ==>
              if r[n].ctx.Live? && r[n].pump.asked > 0 then r[n + 1].pump == Receiving(false, r[n].pump.asked)
              else r[n + 1].pump == LoopGuard
  {
    ReachableInv(o, r, n);
    assert StepAt(o, r, n);
  }

  /** The processor's part of a handler goroutine never waits: once the handler chain has returned, its token can be given back
      at once. (Whether the chain returns is the business of RenewalProtocol.) */
  lemma HandlersNeverWait(o: Options, r: seq<State>, n: nat, i: nat)
    requires IsRun(o, r) && n < |r| && i < |r[n].handlers|
    ensures (exists s' :: HandlerStep(r[n], s', i)) <==> !r[n].handlers[i].Finished?
  {
    ReachableInv(o, r, n);
    var s := r[n];
    match s.handlers[i]
    case Spawned => assert HandlerStep(s, s.(handlers := s.handlers[i := Handling]), i);
    case Handling =>
      CountsAfterUpdate(s.handlers, i, Closing, Closing);
      assert HandlerStep(s, s.(tokens := s.tokens - 1, handlers := s.handlers[i := Closing]), i);
    case Closing => assert HandlerStep(s, s.(handlers := s.handlers[i := Finished]), i);
    case Finished =>
  }

  // ---------- when token acquisition blocks ----------

  predicate Blocked(o: Options, s: State) {
    s.pump.Dispatch? && s.pump.batch != [] && s.tokens >= o.maxConcurrency
  }

  /** Blocked token acquisition is the only thing the pump itself ever waits for: in every other state it has a step. */
  lemma PumpCanMoveUnlessBlocked(o: Options, r: seq<State>, n: nat)
    requires IsRun(o, r) && n < |r|
    ensures (exists s' :: PumpStep(o, r[n], s')) <==> !Blocked(o, r[n])
  {
    ReachableInv(o, r, n);
    var s := r[n];
    if !Blocked(o, s) {
      var s' :=
        match s.pump
        case Idle => BeginAttempt(o, s.(log := NO_LOG), 0)
        case Receiving(_, _) => EndStart(s, SR.PanicRecovered)
        case Dispatch(initial, batch) =>
          if batch == [] then s.(pump := LoopGuard) else s.(tokens := s.tokens + 1, pump := Spawning(initial, batch))
        case Spawning(initial, batch) =>
          s.(pump := Dispatch(initial, batch[1..]), started := s.started + [batch[0]], handlers := s.handlers + [Spawned])
        case LoopGuard => s.(pump := if s.ctx.Live? then Waiting else Leaving)
        case Waiting => s.(pump := Counted(Min(o.maxReceiveCount, o.maxConcurrency - s.tokens)))
        case Counted(asked) => s.(pump := if s.ctx.Ended? || asked == 0 then LoopGuard else Receiving(false, asked))
        case Leaving => s.(pump := Returned(s.ctx.Err()))
        case Returned(err) => (match err case None => NextAttempt(o, s) case Some(e) => SaveError(o, s, e))
        case Delaying => NextAttempt(o, s);
      assert PumpStep(o, s, s');
    }
  }

  /** Acquisition can block only in the initial batch of a later attempt, and then every token is held by
      the handler of an already started message, so some handler can release one. */
  lemma OnlyRetriedInitialBatchBlocks(o: Options, r: seq<State>, n: nat) returns (i: nat)
    requires IsRun(o, r) && n < |r| && Blocked(o, r[n])
    ensures r[n].pump.initial && r[n].attempts > 1
    ensures Holders(r[n].handlers) == o.maxConcurrency
    ensures i < |r[n].handlers| && HoldsToken(r[n].handlers[i])
  {
    ReachableInv(o, r, n);
    i := SomeHolder(r[n].handlers);
  }

  /** Part of a path during which the pump stays inside one batch. */
  ghost predicate InsideBatch(r: seq<State>) {
    forall i :: 0 <= i < |r| ==> r[i].pump.Dispatch? || r[i].pump.Spawning?
  }

  lemma {:induction false} FittingBatchNeverBlocks(o: Options, r: seq<State>, n: nat)
    requires IsPath(o, r) && InsideBatch(r) && n < |r|
    requires r[0].pump.Dispatch? && |r[0].pump.batch| <= FreeTokens(o, r[0])
    ensures |InBatch(r[n])| - (if r[n].pump.Spawning? then 1 else 0) <= FreeTokens(o, r[n])
  {
    if n == 0 {
    } else {
      FittingBatchNeverBlocks(o, r, n - 1);
      assert StepAt(o, r, n - 1);
    }
  }

  /** The pump alone, with no handler finishing, works through its batch until the tokens run out. */
  lemma {:induction false} OversizedBatchCanBlock(o: Options, s: State) returns (r: seq<State>)
    requires s.pump.Dispatch? && s.tokens <= o.maxConcurrency && |s.pump.batch| > FreeTokens(o, s)
    ensures IsPath(o, r) && InsideBatch(r) && r[0] == s && Blocked(o, r[|r| - 1])
    decreases FreeTokens(o, s)
  {
    if s.tokens == o.maxConcurrency {
      r := [s];
    } else {
      var batch := s.pump.batch;
      var s1 := s.(tokens := s.tokens + 1, pump := Spawning(s.pump.initial, batch));
      var s2 := s1.(pump := Dispatch(s.pump.initial, batch[1..]),
                    started := s.started + [batch[0]], handlers := s.handlers + [Spawned]);
      assert PumpStep(o, s, s1) && PumpStep(o, s1, s2);
      var rest := OversizedBatchCanBlock(o, s2);
      r := [s, s1] + rest;
      forall i | 0 <= i < |r| - 1 ensures StepAt(o, r, i) {
        if i >= 2 {
          assert StepAt(o, rest, i - 2);
        }
      }
    }
  }

  /** Exactly when a batch can block: some continuation inside the batch blocks if and only if
      the batch is larger than the number of tokens free when its dispatch begins. */
  lemma BatchCanBlockIffLargerThanFreeTokens(o: Options, s: State)
    requires s.pump.Dispatch? && s.tokens <= o.maxConcurrency
    ensures |s.pump.batch| > FreeTokens(o, s)
            <==> exists r :: IsPath(o, r) && InsideBatch(r) && r[0] == s && Blocked(o, r[|r| - 1])
  {
    if |s.pump.batch| > FreeTokens(o, s) {
      var r := OversizedBatchCanBlock(o, s);
    } else if r :| IsPath(o, r) && InsideBatch(r) && r[0] == s && Blocked(o, r[|r| - 1]) {
      FittingBatchNeverBlocks(o, r, |r| - 1);
    }
  }

  lemma Extend(o: Options, r: seq<State>, s: State) returns (r': seq<State>)
    requires IsRun(o, r) && PumpStep(o, r[|r| - 1], s)
    ensures IsRun(o, r') && r'[|r'| - 1] == s
  {
    r' := r + [s];
    forall i | 0 <= i < |r'| - 1 ensures StepAt(o, r', i) {
      if i < |r| - 1 {
        assert StepAt(o, r, i);
      }
    }
  }

  const FIRST_FAILED: StartLog := StartLog([Other(0)], [0], None)

  /** The first attempt starts one handler, which keeps running. */
  lemma FirstAttempt(o: Options, a: Message) returns (r: seq<State>)
    requires o == Options(2, 2, 2)
    ensures IsRun(o, r) && r[|r| - 1] == State(1, Live, Dispatch(true, []), 0, 1, NO_LOG, [a], [a], [Spawned])
  {
    r := [Init()];
    r := Extend(o, r, State(0, Live, Receiving(true, 2), 0, 1, NO_LOG, [], [], []));
    r := Extend(o, r, State(0, Live, Dispatch(true, [a]), 0, 1, NO_LOG, [a], [], []));
    r := Extend(o, r, State(1, Live, Spawning(true, [a]), 0, 1, NO_LOG, [a], [], []));
    assert [a][1..] == [];
    r := Extend(o, r, State(1, Live, Dispatch(true, []), 0, 1, NO_LOG, [a], [a], [Spawned]));
  }

  /** ... and then its next receive fails. */
  lemma FailedFirstAttempt(o: Options, a: Message) returns (r: seq<State>)
    requires o == Options(2, 2, 2)
    ensures IsRun(o, r) && r[|r| - 1] == State(1, Live, Delaying, 0, 1, FIRST_FAILED, [a], [a], [Spawned])
  {
    r := FirstAttempt(o, a);
    r := Extend(o, r, State(1, Live, LoopGuard, 0, 1, NO_LOG, [a], [a], [Spawned]));
    r := Extend(o, r, State(1, Live, Waiting, 0, 1, NO_LOG, [a], [a], [Spawned]));
    r := Extend(o, r, State(1, Live, Counted(1), 0, 1, NO_LOG, [a], [a], [Spawned]));
    r := Extend(o, r, State(1, Live, Receiving(false, 1), 0, 1, NO_LOG, [a], [a], [Spawned]));
    r := Extend(o, r, State(1, Live, Returned(Some(Other(0))), 0, 1, NO_LOG, [a], [a], [Spawned]));
    r := Extend(o, r, State(1, Live, Delaying, 0, 1, FIRST_FAILED, [a], [a], [Spawned]));
  }

  /** A retried attempt's initial batch does wait in some run: its receive asks for MaxReceiveCount messages
      without looking at the tokens that handlers of the earlier attempt still hold. */
  lemma RetriedInitialBatchCanBlock(a: Message, b: Message, d: Message) returns (r: seq<State>)
    ensures IsRun(Options(2, 2, 2), r) && Blocked(Options(2, 2, 2), r[|r| - 1])
  {
    var o := Options(2, 2, 2);
    r := FailedFirstAttempt(o, a);
    r := Extend(o, r, State(1, Live, Receiving(true, 2), 1, 2, FIRST_FAILED, [a], [a], [Spawned]));
    r := Extend(o, r, State(1, Live, Dispatch(true, [b, d]), 1, 2, FIRST_FAILED, [a, b, d], [a], [Spawned]));
    r := Extend(o, r, State(2, Live, Spawning(true, [b, d]), 1, 2, FIRST_FAILED, [a, b, d], [a], [Spawned]));
    r := Extend(o, r, State(2, Live, Dispatch(true, [d]), 1, 2, FIRST_FAILED, [a, b, d], [a, b], [Spawned, Spawned]));
  }

  // ---------- conservation ----------

  /** Every message of a successful receive is handed to exactly one handler run, in the order received, also across start
      retries: the started messages are a prefix of the received ones, the rest is the current batch, each
      started message has its own handler, and received = in batch + in flight + finished. */
  lemma MessagesAreConserved(o: Options, r: seq<State>, n: nat)
    requires IsRun(o, r) && n < |r|
    ensures r[n].received == r[n].started + InBatch(r[n]) && |r[n].handlers| == |r[n].started|
    ensures |r[n].received| == |InBatch(r[n])|
                               + Count(r[n].handlers, Spawned) + Count(r[n].handlers, Handling)
                               + Count(r[n].handlers, Closing) + Count(r[n].handlers, Finished)
    ensures r[n].pump.Idle? || r[n].pump.Receiving? || r[n].pump.Delaying? ==> r[n].started == r[n].received
  {
    ReachableInv(o, r, n);
    CountsCover(r[n].handlers);
    assert r[n].started + [] == r[n].started;
  }

  /** How far a handler run has come. */
  function Stage(p: Phase): nat {
    match p
    case Spawned => 0
    case Handling => 1
    case Closing => 2
    case Finished => 3
  }

  /** Handler runs are never forgotten, repeated or reassigned: later states extend the log of started messages, and
      no handler's phase ever goes back. */
  lemma {:induction false} HandlerRunsPersist(o: Options, r: seq<State>, k: nat, n: nat)
    requires IsRun(o, r) && k <= n < |r|
    ensures r[k].started <= r[n].started && r[k].received <= r[n].received
    ensures |r[k].handlers| <= |r[n].handlers|
    ensures forall i :: 0 <= i < |r[k].handlers| ==> Stage(r[k].handlers[i]) <= Stage(r[n].handlers[i])
    decreases n
  {
    if k == n {
    } else {
      HandlerRunsPersist(o, r, k, n - 1);
      assert StepAt(o, r, n - 1);
      StepAdvances(o, r[n - 1], r[n]);
    }
  }

  lemma StepAdvances(o: Options, s: State, s': State)
    requires Step(o, s, s')
    ensures s.started <= s'.started && s.received <= s'.received && |s.handlers| <= |s'.handlers|
    ensures forall i :: 0 <= i < |s.handlers| ==> Stage(s.handlers[i]) <= Stage(s'.handlers[i])
  {
  }

  // ---------- handlers that never return ----------

  /** Distinct handlers that hold tokens are counted by Holders. */
  lemma {:induction false} HoldersCount(hs: seq<Phase>, stuck: set<nat>)
    requires forall i :: i in stuck ==> i < |hs| && HoldsToken(hs[i])
    ensures |stuck| <= Holders(hs)
    decreases |hs|
  {
    if hs == [] {
      assert stuck == {};
    } else {
      var last := |hs| - 1;
      HoldersCount(hs[..last], stuck - {last});
    }
  }

  /** While the handlers in `stuck` hold their tokens, a loop receive asks for at most MaxConcurrency - |stuck| messages,
      and once every token is stuck the loop makes no receive at all. */
  lemma StuckHandlersShrinkReceives(o: Options, r: seq<State>, n: nat, stuck: set<nat>)
    requires IsRun(o, r) && n < |r|
    requires forall i :: i in stuck ==> i < |r[n].handlers| && HoldsToken(r[n].handlers[i])
    ensures |stuck| <= r[n].tokens <= o.maxConcurrency
    ensures r[n].pump.Receiving? && !r[n].pump.initial ==> r[n].pump.asked <= o.maxConcurrency - |stuck|
    ensures |stuck| == o.maxConcurrency ==> !(r[n].pump.Receiving? && !r[n].pump.initial)
  {
    ReachableInv(o, r, n);
    HoldersCount(r[n].handlers, stuck);
  }

  // ---------- after the context has ended ----------

  /** The attempt is over: start has returned. */
  predicate AttemptOver(s: State) {
    s.pump.Idle? || s.pump.Returned? || s.pump.Delaying?
  }

  /** How many steps of its own the pump can still take in this attempt once the context has ended. */
  function PumpStepsLeft(s: State): int {
    match s.pump
    case Receiving(_, asked) => 4 + 2 * asked
    case Dispatch(_, batch) => 3 + 2 * |batch|
    case Spawning(_, batch) => 2 + 2 * |batch|
    case Waiting => 4
    case Counted(_) => 3
    case LoopGuard => 2
    case Leaving => 1
    case _ => 0
  }

  lemma StepAfterEnd(o: Options, s: State, s': State)
    requires Inv(o, s) && Step(o, s, s') && s.ctx.Ended? && !AttemptOver(s)
    ensures s'.ctx == s.ctx && 0 <= PumpStepsLeft(s')
    ensures PumpStepsLeft(s') + (if s'.pump != s.pump then 1 else 0) <= PumpStepsLeft(s)
    ensures s'.pump.Receiving? ==> s'.pump == s.pump
  {
  }

  /** The steps of the pump in r[k..n]: each of them changes its program point, and no other step does. */
  ghost function PumpMoves(r: seq<State>, k: nat, n: nat): nat
    requires k <= n < |r|
    decreases n
  {
    if k == n then 0 else PumpMoves(r, k, n - 1) + (if r[n].pump != r[n - 1].pump then 1 else 0)
  }

  /** Once the context has ended the pump begins no further receive in this attempt, hands out what it has received, and
      returns after a bounded number of its own steps: at most four, and two for each message it still has or asks for. */
  lemma {:induction false} PumpWindsDownAfterContextEnd(o: Options, r: seq<State>, k: nat, n: nat)
    requires IsRun(o, r) && k <= n < |r| && r[k].ctx.Ended?
    requires forall i :: k <= i < n ==> !AttemptOver(r[i])
    ensures r[n].ctx == r[k].ctx
    ensures PumpMoves(r, k, n) + PumpStepsLeft(r[n]) <= PumpStepsLeft(r[k]) && 0 <= PumpStepsLeft(r[n])
    ensures r[n].pump.Receiving? ==> r[n].pump == r[k].pump
    decreases n
  {
    ReachableInv(o, r, n);
    if k == n {
    } else {
      PumpWindsDownAfterContextEnd(o, r, k, n - 1);
      ReachableInv(o, r, n - 1);
      assert StepAt(o, r, n - 1);
      StepAfterEnd(o, r[n - 1], r[n]);
    }
  }

  // ---------- start ----------

  /** A panic in the receiver does occur, and Start reports it. */
  lemma ReceiverPanicIsRecovered(o: Options) returns (r: seq<State>)
    requires ValidOptions(o)
    ensures IsRun(o, r) && r[|r| - 1].pump.Idle? && r[|r| - 1].log.result == Some(SR.PanicRecovered)
  {
    var s := BeginAttempt(o, Init(), 0);
    r := [Init()];
    r := Extend(o, r, s);
    r := Extend(o, r, EndStart(s, SR.PanicRecovered));
  }

  /** The two selects of the pump take any ready case: the timer's at any time, that of the context if and only if it has ended. After
      the receive interval the free tokens are counted, after the retry delay the next attempt begins. */
  lemma SelectsTakeAnyReadyCase(o: Options, r: seq<State>, n: nat)
    requires IsRun(o, r) && n < |r|
    ensures r[n].pump.Waiting? ==>
              && (exists s' :: PumpStep(o, r[n], s') && s'.pump.Counted?)
              && (r[n].ctx.Ended? <==> exists s' :: PumpStep(o, r[n], s') && s'.pump.LoopGuard?)
    ensures r[n].pump.Delaying? ==>
              && (exists s' :: PumpStep(o, r[n], s') && s'.pump.Receiving? && s'.attempt == r[n].attempt + 1)
              && (r[n].ctx.Ended? <==> exists s' :: PumpStep(o, r[n], s') && s'.pump.Idle?)
  {
    ReachableInv(o, r, n);
    var s := r[n];
    if s.pump.Waiting? {
      assert PumpStep(o, s, s.(pump := Counted(Min(o.maxReceiveCount, o.maxConcurrency - s.tokens))));
      if s.ctx.Ended? {
        assert PumpStep(o, s, s.(pump := LoopGuard));
      }
    } else if s.pump.Delaying? {
      assert PumpStep(o, s, NextAttempt(o, s));
      if s.ctx.Ended? {
        assert PumpStep(o, s, EndStart(s, SR.ContextError(s.ctx.Err().value)));
      }
    }
  }

  /** The error that stands for the end of a context. */
  predicate IsErrorOf(e: Error, ctx: Context) {
    (ctx == Ended(ByCancel) && e.Canceled?) || (ctx == Ended(ByDeadline) && e.DeadlineExceeded?)
  }

  /** An attempt that does not fail in a receive returns the error of its own context, which has ended; and a Start call that gives
      up between two attempts returns that error. */
  lemma AttemptsReportTheirContext(o: Options, r: seq<State>, n: nat)
    requires IsRun(o, r) && n + 1 < |r| && r[n + 1].pump != r[n].pump
    ensures r[n + 1].pump.Returned? ==>
              r[n + 1].pump.err.Some? && (r[n].pump.Receiving? || IsErrorOf(r[n + 1].pump.err.value, r[n].ctx))
    ensures r[n].pump.Delaying? && r[n + 1].pump.Idle? ==>
              exists e :: r[n + 1].log.result == Some(SR.ContextError(e)) && IsErrorOf(e, r[n].ctx)
  {
    ReachableInv(o, r, n);
    assert StepAt(o, r, n);
    if r[n].pump.Delaying? && r[n + 1].pump.Idle? {
      var e := r[n].ctx.Err().value;
      assert IsErrorOf(e, r[n].ctx);
    }
  }

  /** start never returns nil, and one Start call makes at most StartMaxAttempt attempts. */
  lemma StartNeverReturnsNil(o: Options, r: seq<State>, n: nat)
    requires IsRun(o, r) && n < |r|
    ensures r[n].pump.Returned? ==> r[n].pump.err.Some?
    ensures !r[n].pump.Idle? ==> r[n].attempt < o.startMaxAttempt
  {
    ReachableInv(o, r, n);
  }

  /** The outcomes of a Start call's attempts, as its log shows them. */
  function StartOf(s: State): nat -> SR.StartOutcome {
    (i: nat) => if i < |s.log.errs| then SR.Failed(s.log.errs[i]) else SR.Panics
  }

  /** The cases taken in its waits: only the last one can have ended with the context. */
  function WaitOf(s: State): nat -> SR.Wait {
    (i: nat) => if i == s.attempt && s.ctx.Ended? then SR.ContextDone(s.ctx.cause) else SR.Elapsed
  }

  /** Every Start call of every run of the pump that has returned meets the specification of Start: it returned the errors of
      exactly StartMaxAttempt attempts in order, or the context error after fewer, or a recovered panic; never nil. */
  lemma StartCallMeetsSpec(o: Options, r: seq<State>, n: nat)
    requires IsRun(o, r) && n < |r| && r[n].pump.Idle? && r[n].attempts > 0
    ensures r[n].log.result.Some? && r[n].log.result != Some(SR.Nil)
    ensures SR.NeverNil(StartOf(r[n]), o.startMaxAttempt)
    ensures SR.StartSpec(o.startMaxAttempt, StartOf(r[n]), WaitOf(r[n]), r[n].log.result.value,
                         SR.Trace(r[n].attempt + 1, r[n].log.delays))
  {
    ReachableInv(o, r, n);
  }

  /** The errors in the log are those with which the attempts of this Start call returned, each at its place. */
  lemma {:induction false} SavedErrorsAreThoseOfTheAttempts(o: Options, r: seq<State>, n: nat, i: nat) returns (k: nat)
    requires IsRun(o, r) && n < |r| && i < |r[n].log.errs|
    ensures k < n && r[k].pump == Returned(Some(r[n].log.errs[i]))
    ensures r[k].attempt == i && r[k].attempts - r[k].attempt == r[n].attempts - r[n].attempt
  {
    if n == 0 {
      assert false;
    } else {
      ReachableInv(o, r, n - 1);
      assert StepAt(o, r, n - 1);
      StepKeepsErrors(o, r[n - 1], r[n]);
      if i < |r[n - 1].log.errs| {
        k := SavedErrorsAreThoseOfTheAttempts(o, r, n - 1, i);
      } else {
        k := n - 1;
      }
    }
  }

  /** A step forgets the errors of an earlier Start call, keeps those of this one, or adds the error of the attempt that
      has just returned. */
  lemma StepKeepsErrors(o: Options, s: State, s': State)
    requires Inv(o, s) && Step(o, s, s')
    ensures || s'.log.errs == []
            || (s'.log.errs == s.log.errs && s'.attempts - s'.attempt == s.attempts - s.attempt)
            || (&& s.pump.Returned? && s.pump.err.Some? && |s.log.errs| == s.attempt
                && s'.log.errs == s.log.errs + [s.pump.err.value]
                && s'.attempts - s'.attempt == s.attempts - s.attempt)
  {
  }
}
