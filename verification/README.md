# go-shuttle: verified model

go-shuttle is a Go library around Azure Service Bus. This project models its concurrent and stateful parts in Dafny 4.11
and proves what they promise over all interleavings, inputs, clock readings, outcomes and retry histories.
`dafny verify dfyconfig.toml` checks everything.

| file | what it models |
|---|---|
| `Common.dfy` | errors, optional values and the state of a context |
| `RenewalProtocol.dfy` | one message: the handler goroutine (processor, panic handler, lock renewal handler, user handler) beside the renewal goroutine, as a transition system with one step for each atomic load or store, length check, channel operation, cancel, deferred call and renewal attempt |
| `LockRenewal.dfy` | the option handling and the retry loop of one lock renewal |
| `RenewalRefinement.dfy` | every concrete lock renewal is a path of the renewal protocol |
| `Pump.dfy` | the message pump with its concurrency tokens, handlers and start attempts, as a transition system |
| `StartRetries.dfy` | the retry loop around start attempts |
| `BatchSender.dfy` | greedy splitting of messages into batches |
| `SenderSwap.dfy` | underlying sends and sender swaps under the read-write mutex, and the race of a send's result against its context |
| `Starvation.dfy` | the pump and the lives of its messages observed together: what a blocked stop call does to the pump |
| `Settling.dfy` | managed settling, settlements, and the life of a message over its redeliveries |
| `Health.dfy` | option handling and schedule of the periodic health check |

The concurrent parts are transition systems, because their claims range over interleavings; a run is a sequence of states, and the
main results quantify over every run and every position in it. The sequential parts are methods with the loops, mutable
batches, logs and options of the original, each proved against a specification predicate. Where such a predicate is
relational, a lemma shows that it determines the outcome.

What the environment decides is a parameter or a nondeterministic step: clocks, timers, the end of contexts, the answers
of the receiver, sender and settler, and the user's handler. The assumptions are few: a receive returns at most the
number of messages asked for; a batch that refuses a message is unchanged; a redelivery adds one to the delivery
count; one `Start` runs at a time; a context that has ended stays ended.

## Findings

Three properties that the code, its comments or its documentation suggest do not hold in every run. The code is modelled as it is; for
each there is a run or history that shows the failure, and an if-and-only-if that says when it occurs.

- **`stop` can block** (`v2/lockrenewer.go:65` says that the buffered channel keeps it from blocking). Two overlapping `stop` calls can both
  read length 0 (`v2/lockrenewer.go:107`); then one of them waits forever, and if that is the handler's call, its concurrency
  token is never released (`StopCanBlock`, `BlockedStopIsStuckForever`), so that the pump receives less and less
  (`BlockedStopsStarveThePump`). A run blocks if and only if the two checks overlap and one of the two then sends
  (`StopBlocksIffChecksOverlap`). A reachable state can still lead to a blocked stop if and only if one is blocked
  already, or the handler is not past its send and the loop can still come to its own (`StopCanStillBlockIff`); and a run
  in which the loop has no reason to stop itself never blocks (`BlockedStopNeedsAReason`).
- **A send goroutine need not end** (`v2/sender.go:96` and `v2/sender.go:230` make the channel unbuffered). Abandoned at the end of its context, it gives
  back its read lock but waits forever, because nobody receives its result: `ContextErrorLeavesFateUnknown` builds such a
  run for every result of the underlying call, and `SendCanEndIffNotAbandoned` shows that the goroutine can still end if and
  only if its caller has not given up. The same run shows that a send reported as failed may have succeeded.
- **`MaxAttempts` does not bound every message** (`v2/managedsettling.go:59` says that it defines how many deliveries the handler allows). A message whose
  handler succeeds but whose completion is refused is neither abandoned nor dead-lettered by the handler, at any delivery
  count (`UncompletedMessageIsNeverDeadLettered`). For every mixed history, a message is dead-lettered if and only if the
  first delivery that ends its life is one whose handler failed (`FateIsDecidedByFirstFinalDelivery`).
  Also, `v2/managedsettling.go:79` speaks of five retries by default, while the comparison allows five deliveries: a failing message
  first seen at count 1 is abandoned four times (`DefaultGivesFiveAttempts`).

The gauge of concurrent messages is not claimed to stay within `MaxConcurrency`: the token is given back before the gauge goes down, and
the model keeps that phase (`Pump.Phase.Closing`) apart from the phases that hold a token.

## Model

| member | source | states |
|---|---|---|
| RenewalProtocol.StepKeepsInv | v2/lockrenewer.go:103-179 | every step of either goroutine and of the environment keeps the invariant that ties the alive flag, the signal in the channel and the program points of both goroutines together |
| RenewalProtocol.NoStopIsLost | v2/lockrenewer.go:94-115 | in every run, also when stop runs before the loop starts: once the handler's stop is past its send, a loop waiting in its select has a signal and can receive it; the channel holds at most one signal and each goroutine calls stop at most once |
| RenewalProtocol.SelectTakesAnyReadyCase | v2/lockrenewer.go:131-179 | in every reachable select the timer's case can be taken, the context's if and only if the context has ended, the stop signal's if and only if one is in the channel |
| RenewalProtocol.StoppedLoopDoesNothingMore | v2/lockrenewer.go:131-179 | once the loop has received the signal or called stop itself, it starts no further pass and no further renewal call |
| RenewalProtocol.StopCancelsTheContext | v2/lockrenewer.go:110-113 | with CancelMessageContextOnStop, the message context has ended in every reachable state in which the stop of either goroutine is over |
| RenewalProtocol.StopLeavesTheContextAlone | v2/lockrenewer.go:110-113 | without it, no step of stop changes the context: it ends from outside or by the deferred cancel of the processor, and in no other step |
| RenewalProtocol.FirstCauseStands | v2/lockrenewer.go:110-113 | the message context keeps its first cause, and a goroutine that ends it ends it as cancelled, never as past its deadline |
| RenewalProtocol.StopBlocksIffChecksOverlap | v2/lockrenewer.go:103-109 | a run contains a blocked stop if and only if both goroutines are between length check and send at once and one of them then sends |
| RenewalProtocol.BlockedStopIsStuckForever | v2/lockrenewer.go:103-115 | a blocked stop stays blocked in every continuation, and a blocked handler never releases its token |
| RenewalProtocol.StopCanBlock | v2/lockrenewer.go:65-71 | a concrete run with default options in which the handler's stop blocks |
| RenewalProtocol.StopCanStillBlockIff | v2/lockrenewer.go:103-179 | from every reachable state some continuation blocks a stop call if and only if one is blocked already, or the handler is not past the send of its stop and the loop can still come to the send of its own |
| RenewalProtocol.BlockedStopNeedsAReason | v2/lockrenewer.go:103-171 | a stop call blocks only in runs with a context end, a reported cancellation, a lost or expired lock or an unauthorized call |
| Starvation.BlockedStopsStarveThePump | v2/processor.go:166-178 | once the stops of m handlers are blocked, every later loop receive asks for at most MaxConcurrency - m messages, and none is made when m is MaxConcurrency |
| RenewalProtocol.LoopWindsDownAfterContextEnd | v2/lockrenewer.go:131-179 | after the message context ended, the loop starts at most one more pass, begins no renewal call unless its guard was already evaluated, and takes at most 15 more steps, whichever select cases are taken |
| RenewalProtocol.LoopCanMoveAfterContextEnd | v2/lockrenewer.go:131-179 | after the context ended the loop has a step to take exactly when it has neither exited nor is blocked in its own stop |
| RenewalProtocol.ChainReleasesTokenAndEndsContext | v2/processor.go:187-201 | whether the user handler returns or panics, recovered or not: the token is released exactly once, the message context has ended, and the renewal loop then starts at most one more pass |
| RenewalProtocol.HandlerProgress | v2/processor.go:220-227 | every step brings the handler goroutine closer to its end, and it can move exactly when it has not ended and its stop is not blocked |
| RenewalProtocol.PanicsAreRecovered | v2/processor.go:220-227 | a panic skips stop; with the panic handler it goes through the recovery hook, and the program ends only if the hook panics; without it every panic ends the program, and nothing moves after that |
| RenewalProtocol.PanickedHandler | v2/processor.go:187-201 | for each configuration, and for a hook that panics or does not, a run in which the handler panics, and still the token is released and the context ended |
| RenewalProtocol.TimeoutsAloneNeverStopTheLoop | v2/lockrenewer.go:117-179 | without a context end, a reported cancellation, a lost or expired lock or an unauthorized call, the loop never calls stop, however many attempts time out or fail otherwise |
| RenewalProtocol.PermanentErrorsStopTheLoop | v2/lockrenewer.go:117-159 | the converse: once a renewal call reported a lost lock, unauthorized access or a cancellation, or the lock was seen expired, the loop has called stop or does so next |
| RenewalProtocol.DeadlineMetricIsExact | v2/lockrenewer.go:163-171 | the deadline metric is raised only for a context that ended by its deadline, and always when the loop stopped itself on such an end and for no failed renewal |
| RenewalProtocol.TicksAreAccountedFor | v2/lockrenewer.go:131-179 | ticks equal successes plus failures plus at most one context-error tick plus the renewal in progress; the deadline metric is raised at most once; timeouts equal the timed-out calls; at the end successes, failures and context errors equal the renewals with such a result |
| LockRenewal.NormalizeOptions | v2/lockrenewer.go:38-56 | defaults of 10 s, 5 s and true; a zero timeout means the default, a negative one is kept |
| LockRenewal.RenewMessageLock | v2/lockrenewer.go:181-217 | attempts only after seeing an unexpired lock and a live context, returns the first outcome that is not a deadline, or else the context error or lock-lost, and counts one timeout per deadline outcome |
| LockRenewal.RetrySpecIsDeterministic | v2/lockrenewer.go:193-216 | for any clock, context and outcomes, the specification fixes result, attempts and timeouts |
| LockRenewal.ResultsAreExplained | v2/lockrenewer.go:205-216 | a deadline error is only ever that of the message context; lock-lost that the renewer did not report means the lock had expired |
| LockRenewal.AttemptBound | v2/lockrenewer.go:188-211 | at most ceil(remaining lock time / timeout) attempts when timed-out attempts run their full timeout |
| LockRenewal.NegativeTimeoutMeansOneAttempt | v2/lockrenewer.go:188-191 | with a non-positive timeout option there is at most one attempt |
| RenewalRefinement.RenewalIsAProtocolPath | v2/lockrenewer.go:181-217 | every finished concrete renewal is a path of the protocol with the same result, calls, timeouts, outcomes and logged result |
| Pump.ApplyProcessorOptions | v2/processor.go:72-99 | the normalised options satisfy 1 <= MaxReceiveCount <= MaxConcurrency and 1 <= StartMaxAttempt, with the stated fallbacks |
| Pump.StepKeepsInv | v2/processor.go:151-201 | every step of the pump, of a handler and of the environment keeps token count, message flow, receive sizes and attempt counters consistent |
| Pump.CapacityIsNeverExceeded | v2/processor.go:163-178 | in every reachable state running handlers are at most the held tokens, these at most MaxConcurrency; the initial receive asks for exactly MaxReceiveCount messages, a loop receive for 1 to MaxReceiveCount and no more than the tokens free at that moment |
| Pump.LoopAsksForAllItCan | v2/processor.go:166-170 | the count computed by the loop is MaxReceiveCount or all tokens free at that moment, whichever is less; with a live context a positive count is the one the receive is made with, and otherwise no receive follows |
| Pump.HandlersNeverWait | v2/processor.go:193-199 | the processor's part of a handler goroutine never waits: whenever the handler chain has returned, the token can be given back at once |
| Pump.OnlyRetriedInitialBatchBlocks | v2/processor.go:154-178 | token acquisition can block only in the initial batch of a later start attempt, and then handlers of started messages hold every token |
| Pump.PumpCanMoveUnlessBlocked | v2/processor.go:151-188 | in every reachable state the pump has a step to take if and only if it is not blocked in token acquisition |
| Pump.SelectsTakeAnyReadyCase | v2/processor.go:139-165 | the receive interval and the retry delay can always elapse, and the end of the context is taken instead if and only if it has ended |
| Pump.StuckHandlersShrinkReceives | v2/processor.go:166-170 | while m handlers hold their tokens, a loop receive asks for at most MaxConcurrency - m messages and none is made when m is MaxConcurrency |
| Pump.BatchCanBlockIffLargerThanFreeTokens | v2/processor.go:160-188 | some continuation of a batch blocks if and only if the batch is larger than the number of free tokens |
| Pump.RetriedInitialBatchCanBlock | v2/processor.go:131-162 | a concrete run in which a retried attempt's initial batch waits for a handler of the attempt before it |
| Pump.MessagesAreConserved | v2/processor.go:151-201 | the started messages are a prefix of the received ones, in order, the rest is the current batch, and received = in batch + in flight + finished, also across start retries |
| Pump.HandlerRunsPersist | v2/processor.go:187-201 | handler runs are never dropped, repeated or reassigned later in a run, and no handler's phase ever goes back |
| Pump.PumpWindsDownAfterContextEnd | v2/processor.go:163-184 | after the context ended the attempt makes no further receive, hands out what it has received, and is over after a bounded number of pump steps |
| Pump.ReceiverPanicIsRecovered | v2/processor.go:115-122 | for all options a run in which a receive panics and Start reports it as a recovered panic |
| Pump.AttemptsReportTheirContext | v2/processor.go:142-184 | an attempt that does not fail in a receive returns the error of its ended context, and a Start call given up between attempts returns that error |
| Pump.StartNeverReturnsNil | v2/processor.go:151-185 | an attempt never returns nil, and one Start makes at most StartMaxAttempt attempts |
| Pump.StartCallMeetsSpec | v2/processor.go:115-148 | every Start call of every pump run that has returned meets the specification of Start with attempts that never return nil: never nil, the errors of exactly StartMaxAttempt attempts in order, or the context error after fewer, or the recovered panic, and the delays 0, 1, 2, ... |
| Pump.SavedErrorsAreThoseOfTheAttempts | v2/processor.go:131-133 | the i-th saved error is the one with which the i-th attempt of this Start call returned |
| StartRetries.Start | v2/processor.go:115-148 | for attempts that never return nil, which Pump.StartCallMeetsSpec shows of all pump runs: the errors of exactly StartMaxAttempt attempts in order, or the context error after fewer, or the recovered panic; never nil; delays asked for with 0, 1, 2, ... as uint32, at most StartMaxAttempt - 1 times; for other attempts, nil only if all of them returned nil |
| StartRetries.StartSpecIsDeterministic | v2/processor.go:128-148 | the specification fixes the result, the number of attempts and the delays |
| BatchSender.MessageBatch.AddMessage | v2/sender.go:184-186 | appends if the message fits, otherwise leaves the batch unchanged |
| BatchSender.SendAsBatch | v2/sender.go:153-226 | meets SendSpec: confirmed batches are an in-order prefix, each non-empty, fitting and full; each result has its exact cause; the rewinding loop terminates and the final nil is never reached |
| BatchSender.SendSpecIsDeterministic | v2/sender.go:171-226 | result, confirmed batches and batch of unknown fate are fixed by the input and the bus |
| BatchSender.SuccessSendsEverythingInOrder | v2/sender.go:182-223 | on success the batches concatenate to the input, each is non-empty and fits, and each but the last could not take the next message |
| BatchSender.FailureConfirmsAPrefix | v2/sender.go:186-223 | on failure the confirmed batches are a prefix ending at a batch boundary, and at most the next batch has an unknown fate |
| BatchSender.GreedyStaysAhead | v2/sender.go:182-218 | after any number of batches the greedy split has covered at least as much as any other split |
| BatchSender.GreedyIsOptimal | v2/sender.go:182-223 | no order-preserving split into fitting batches uses fewer batches |
| BatchSender.MultiBatchSucceedsIffEachFits | v2/sender.go:186-217 | with sends that succeed, multi-batch mode succeeds if and only if the input is non-empty and every message fits alone; otherwise it sends exactly the messages before the first that does not |
| BatchSender.SingleBatchSucceedsIffAllFit | v2/sender.go:193-197 | with sends that succeed, single-batch mode succeeds if and only if the whole non-empty input fits, and sends nothing otherwise |
| SenderSwap.StepKeepsInv | v2/sender.go:259-291 | every step keeps readers, writer, versions and race results consistent |
| SenderSwap.SwapNeverOverlapsACall | v2/sender.go:259-291 | when the installed sender changes, no underlying call is in progress and no read lock is held |
| SenderSwap.CallUsesInstalledSender | v2/sender.go:259-275 | all through an underlying call, the sender it uses is the installed one |
| SenderSwap.CallsAfterSwapUseItOrLater | v2/sender.go:284-291 | every call that begins after SetAzSender returned uses that sender or a later one |
| SenderSwap.SameSenderIffNoSwapBetween | v2/sender.go:177-205 | the creation of a batch and its sending, or any two calls, use the same sender version if and only if no swap takes effect between them |
| SenderSwap.OperationCanSpanASwap | v2/sender.go:284-291 | a run in which a batch is created by one sender and sent by the next |
| SenderSwap.ThreadsCarryTheirResults | v2/sender.go:229-251 | in every run a goroutine keeps the sender version it used and the result its underlying call returned up to its end, a swap keeps the sender it was called with, and a caller that has returned does not change its mind |
| SenderSwap.ResultComesFromTheCall | v2/sender.go:259-275 | every result a goroutine has to deliver was returned by its own underlying call at some earlier step |
| SenderSwap.CallerReturnsNilIffNilWasDelivered | v2/sender.go:229-251 | a caller returns nil if and only if at an earlier step the underlying call returned nil and that was delivered, the call's error if and only if the call returned that error and it was delivered, and otherwise the error of its context |
| SenderSwap.ContextErrorLeavesFateUnknown | v2/sender.go:239-242 | for every result of the underlying call, nil included, and either context error, a run in which the call returned it, the caller reported the context error, and the goroutine is left waiting |
| SenderSwap.EveryOutcomeOccurs | v2/sender.go:229-251 | every outcome that the batch sender reckons with is that of some race |
| SenderSwap.AbandonedSendHoldsNoLock | v2/sender.go:229-251 | a goroutine abandoned at the end of its context holds no read lock once its call has returned and unlocked |
| SenderSwap.AbandonedSendNeverEnds | v2/sender.go:96-119 | such a goroutine never delivers its result and stays forever |
| SenderSwap.CanReportIffNotAbandoned | v2/sender.go:230-237 | a goroutine ready to deliver its result can do so if and only if its caller has not given up |
| SenderSwap.SendCanEndIffNotAbandoned | v2/sender.go:230-243 | some continuation ends the goroutine of a raced call if and only if its caller has not given up |
| SenderSwap.RaceHasOneWinner | v2/sender.go:106-117 | the waiting caller got a result exactly when the goroutine delivered it, and it is the one with which the underlying call returned |
| Settling.Settle | v2/settlehandler.go:110-123 | makes its one call and lets no error out |
| Settling.Decision | v2/managedsettling.go:102-138 | a given retry decision is used as it is; without one a message is retried exactly at delivery counts below five |
| Settling.HandleError | v2/managedsettling.go:148-175 | one settlement call, then its own hook with the handler's error: OnDeadLettered after a dead-lettering when no retry is allowed, otherwise one sleep for the delivery count, an abandon and OnAbandoned |
| Settling.Handle | v2/managedsettling.go:34-51 | the events of one managed delivery, in order: one settlement call, a completion exactly when the handler succeeded, then the hook that belongs to it; a refused completion fires OnAbandoned with the refusal |
| Settling.OneSettlementThenOneHook | v2/managedsettling.go:34-51 | for every decision, handler result and answer: exactly one settlement call, then exactly one hook, the one that belongs to the call; an abandon exactly when a retry is allowed; OnCompleted exactly when completion returned no error |
| Settling.SettlementFailureDoesNotEscape | v2/managedsettling.go:157-174 | a failing abandon or dead-letter call changes no other event, and the hook gets the handler's error |
| Settling.LifeFollowsDeliveries | v2/managedsettling.go:34-51 | over all redeliveries the settlement calls follow the deliveries one to one up to the first that ends the message's life |
| Settling.AbandonsAreBounded | v2/managedsettling.go:67-69 | for any handler and any answers, only the first max(0, MaxAttempts - count) deliveries can be abandoned, and from then on the first accepted call ends the life |
| Settling.FailingMessageIsDeadLettered | v2/managedsettling.go:148-175 | a message whose handler always fails is abandoned exactly max(0, MaxAttempts - count) times, whatever the answers, and then dead-lettered until the broker accepts |
| Settling.FateIsDecidedByFirstFinalDelivery | v2/managedsettling.go:34-69 | for every history: dead-lettered if and only if the first delivery that ends the life is one whose handler failed, completed if and only if its handler succeeded, queued if and only if no delivery ends the life |
| Settling.DefaultGivesFiveAttempts | v2/managedsettling.go:130-138 | with the default decision a failing message first seen at count 1 is abandoned four times and dead-lettered on its fifth delivery |
| Settling.UncompletedMessageIsNeverDeadLettered | v2/managedsettling.go:41-49 | refused completions are not bounded by MaxAttempts |
| Settling.HandleSettlement | v2/settlehandler.go:85-103 | a nil settlement panics unless OnNilSettlement answers with one; otherwise exactly the returned settlement's call is made, and none for NoOp |
| Health.HealthCheckerOptions.Normalize | v2/health.go:34-43 | afterwards 0 < timeout <= interval, with defaults only where needed |
| Health.PeriodicHealthCheck | v2/health.go:62-80 | each check starts at the later of its slot and the end of the check before it, plus the lateness of its timer |
| Health.NeverEarly | v2/health.go:62-80 | the k-th check starts no earlier than t0 + k * interval and not before the one before it ended |
| Health.StartIsLatestBacklog | v2/health.go:68-77 | with ideal timers a start time is the maximum over all earlier slots of that slot plus the time the checks since then took |
| Health.ChecksStayOnSlots | v2/health.go:34-79 | with ideal timers and checks within their timeout, the k-th check starts exactly at t0 + k * interval |
| Health.ExactNumberOfChecks | v2/health.go:62-79 | then exactly floor((t - t0) / interval) + 1 checks have started by time t |

## Left out

- The Azure SDK and the broker: foreign code, represented by arbitrary outcomes and the assumptions above.
- Metrics registries, tracing, logging: kept only as counters where a property needs them.
- Marshalling, message options and the reflected message type: they rest on libraries outside the repository or are single assignments.
- `HealthCheck` of sender and receiver, and starting one health check per namespace: network calls, and independent copies of the loop modelled here.
- Custom `OnError` functions of the managed settling handler: user code.
- The writer preference of Go's RWMutex: the model lets a reader in whenever no writer holds the lock, which allows more runs than Go does.
- A panic inside the SDK's `RenewMessageLock`: it would end the program.
- The content of error messages, and the delays themselves (`ConstantDelayStrategy`): only the arguments with which delays are asked for are kept.
- Wrap-around of the uint32 delivery count: counts are unbounded here; a count below MaxAttempts cannot wrap.
