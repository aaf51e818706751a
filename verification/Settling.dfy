/** Settlement of messages: the managed settling handler with its default error handler, the settlement handler, and
    the life of a message over all its redeliveries. */
module Settling {
  import opened Common

  datatype Call = Complete | Abandon | DeadLetter | Defer

  /** What a delivery does that can be observed from outside, in order. */
  datatype Event =
    | Slept(count: nat)
    | Settled(call: Call, answer: Option<Error>)
    | OnCompleted
    | OnAbandoned(cause: Error)
    | OnDeadLettered(cause: Error)

  /** The receiver's settling interface together with the hooks: it records what happens to it. */
  class MessageSettler {
    var log: seq<Event>

    constructor ()
      ensures log == []
    {
      log := [];
    }

    /** A settling call that the broker answers with nil or an error. */
    method Invoke(call: Call, answer: Option<Error>) returns (err: Option<Error>)
      modifies this
      ensures err == answer && log == old(log) + [Settled(call, answer)]
    {
      log := log + [Settled(call, answer)];
      err := answer;
    }

    method Record(e: Event)
      modifies this
      ensures log == old(log) + [e]
    {
      log := log + [e];
    }
  }

  /** settlement.settle makes its one call and lets no error out. */
  method Settle(settler: MessageSettler, call: Call, answer: Option<Error>)
    modifies settler
    ensures settler.log == old(settler.log) + [Settled(call, answer)]
  {
    var err := settler.Invoke(call, answer);
  }

  // ---------- the managed settling handler ----------

  /** RetryDecision.CanRetry, given the handler's error and the delivery count. */
  type RetryDecision = (Error, nat) -> bool

  /** MaxAttemptsRetryDecision.CanRetry */
  function MaxAttempts(max: nat): RetryDecision {
    (err, count) => count < max
  }

  const DEFAULT_MAX_ATTEMPTS: nat := 5

  /** The retry decision of NewManagedSettlingHandler: nil keeps the default. */
  function Decision(override: Option<RetryDecision>): (d: RetryDecision)
    ensures override.Some? ==> d == override.value
    ensures override.None? ==> forall err, count: nat :: d(err, count) <==> count < 5
  {
    match override
    case Some(d) => d
    case None => MaxAttempts(DEFAULT_MAX_ATTEMPTS)
  }

  /** The events of one delivery at the given delivery count, whose handler returned handlerErr and
      whose settlement call the broker answers with `answer`. */
  function DeliveryEvents(canRetry: RetryDecision, count: nat, handlerErr: Option<Error>, answer: Option<Error>)
    : seq<Event>
  {
    match handlerErr
    case None => [Settled(Complete, answer), if answer.None? then OnCompleted else OnAbandoned(answer.value)]
    case Some(e) =>
      if canRetry(e, count)
      then [Slept(count), Settled(Abandon, answer), OnAbandoned(e)]
      else [Settled(DeadLetter, answer), OnDeadLettered(e)]
  }

  predicate IsHook(e: Event) {
    e.OnCompleted? || e.OnAbandoned? || e.OnDeadLettered?
  }

  /** Exactly one settlement call, with the given answer, followed by exactly one hook and nothing else. The call is a completion
      exactly when the handler succeeded; each call has its own hook: OnCompleted follows an accepted completion, OnAbandoned
      a refused one, with the refusal, or an abandon, with the handler's error and after one sleep for the delivery
      count, and OnDeadLettered a dead-lettering, with the handler's error. */
  ghost predicate OneSettlementOneHook(events: seq<Event>, count: nat, handlerErr: Option<Error>, answer: Option<Error>) {
    var n := |events|;
    && n >= 2 && events[n - 2].Settled? && events[n - 2].answer == answer
    && (events[n - 2].call.Complete? <==> handlerErr.None?)
    && match events[n - 2].call
       case Complete =>
         n == 2 && events[1] == (match answer case None => OnCompleted case Some(refusal) => OnAbandoned(refusal))
       case Abandon => n == 3 && events[0] == Slept(count) && handlerErr.Some? && events[2] == OnAbandoned(handlerErr.value)
       case DeadLetter => n == 2 && handlerErr.Some? && events[1] == OnDeadLettered(handlerErr.value)
       case Defer => false
  }

  /** Every delivery makes exactly one settlement call, followed by exactly one hook and nothing else. */
  lemma OneSettlementThenOneHook(canRetry: RetryDecision, count: nat, handlerErr: Option<Error>, answer: Option<Error>)
    ensures var events := DeliveryEvents(canRetry, count, handlerErr, answer);
            && OneSettlementOneHook(events, count, handlerErr, answer)
            && (handlerErr.Some? ==> (events[|events| - 2].call.Abandon? <==> canRetry(handlerErr.value, count)))
            && (OnCompleted in events <==> Settled(Complete, None) in events)
            && (forall i :: 0 <= i < |events| - 2 ==> events[i].Slept?) && IsHook(events[|events| - 1])
  {
    var events := DeliveryEvents(canRetry, count, handlerErr, answer);
    var hook := events[|events| - 1];
    assert hook in events && events[|events| - 2] in events;
  }

  /** handleError */
  method HandleError(canRetry: RetryDecision, settler: MessageSettler, count: nat, handlerErr: Error,
                     answer: Option<Error>)
    modifies settler
    ensures settler.log == old(settler.log) + DeliveryEvents(canRetry, count, Some(handlerErr), answer)
    ensures OneSettlementOneHook(settler.log[|old(settler.log)|..], count, Some(handlerErr), answer)
  {
    ghost var before := settler.log;
    ghost var events := DeliveryEvents(canRetry, count, Some(handlerErr), answer);
    OneSettlementThenOneHook(canRetry, count, Some(handlerErr), answer);
    assert (before + events)[|before|..] == events;
    if !canRetry(handlerErr, count) {
      Settle(settler, DeadLetter, answer);
      settler.Record(OnDeadLettered(handlerErr));
      return;
    }
    settler.Record(Slept(count));
    Settle(settler, Abandon, answer);
    settler.Record(OnAbandoned(handlerErr));
  }

  /** ManagedSettler.Handle with the default error handler. */
  method Handle(canRetry: RetryDecision, settler: MessageSettler, count: nat, handlerErr: Option<Error>,
                answer: Option<Error>)
    modifies settler
    ensures settler.log == old(settler.log) + DeliveryEvents(canRetry, count, handlerErr, answer)
    ensures OneSettlementOneHook(settler.log[|old(settler.log)|..], count, handlerErr, answer)
  {
    ghost var before := settler.log;
    ghost var events := DeliveryEvents(canRetry, count, handlerErr, answer);
    OneSettlementThenOneHook(canRetry, count, handlerErr, answer);
    assert (before + events)[|before|..] == events;
    if handlerErr.Some? {
      HandleError(canRetry, settler, count, handlerErr.value, answer);
      return;
    }
    var err := settler.Invoke(Complete, answer);
    if err.Some? {
      settler.Record(OnAbandoned(err.value));
      return;
    }
    settler.Record(OnCompleted);
  }

  /** A failing abandon or dead-letter call changes nothing else: the same hook fires with the handler's error. */
  lemma SettlementFailureDoesNotEscape(canRetry: RetryDecision, count: nat, e: Error, a1: Option<Error>, a2: Option<Error>)
    ensures var ev1 := DeliveryEvents(canRetry, count, Some(e), a1);
            var ev2 := DeliveryEvents(canRetry, count, Some(e), a2);
            && |ev1| == |ev2|
            && (forall i :: 0 <= i < |ev1| ==> ev1[i] == ev2[i] || (ev1[i].Settled? && ev1[i].(answer := a2) == ev2[i]))
            && (ev1[|ev1| - 1] == OnAbandoned(e) || ev1[|ev1| - 1] == OnDeadLettered(e))
  {
  }

  // ---------- the life of a message over all its deliveries ----------

  /** One delivery: what the handler returned, and how the broker answered the settlement call. */
  datatype Delivery = Delivery(handlerErr: Option<Error>, answer: Option<Error>)

  datatype Fate = Queued(count: nat) | Completed | DeadLettered

  /** The settlement call of a delivery, as its events show it. */
  function CallOf(canRetry: RetryDecision, count: nat, d: Delivery): Call {
    var events := DeliveryEvents(canRetry, count, d.handlerErr, d.answer);
    events[|events| - 2].call
  }

  /** A message first delivered at `count`: the settlement calls made, and what becomes of it. A completed or dead-lettered
      message is gone; after an abandon, or after any failed call, the message comes back with one
      more on its delivery count. */
  function Life(canRetry: RetryDecision, count: nat, ds: seq<Delivery>): (seq<Call>, Fate)
    decreases |ds|
  {
    if ds == [] then ([], Queued(count))
    else
      var call := CallOf(canRetry, count, ds[0]);
      if ds[0].answer.None? && call.Complete? then ([call], Completed)
      else if ds[0].answer.None? && call.DeadLetter? then ([call], DeadLettered)
      else
        var (calls, fate) := Life(canRetry, count + 1, ds[1..]);
        ([call] + calls, fate)
  }

  function RetriesLeft(max: nat, count: nat): nat {
    if count < max then max - count else 0
  }

  ghost predicate AlwaysFails(ds: seq<Delivery>) {
    forall i :: 0 <= i < |ds| ==> ds[i].handlerErr.Some?
  }

  /** The broker accepted a call after which the message does not come back. */
  predicate EndsLife(call: Call, d: Delivery) {
    d.answer.None? && (call.Complete? || call.DeadLetter?)
  }

  /** The calls follow the deliveries one to one, up to the first delivery that ends the life. */
  ghost predicate LifeSpec(canRetry: RetryDecision, count: nat, ds: seq<Delivery>, calls: seq<Call>, fate: Fate) {
    && |calls| <= |ds|
    && (forall i :: 0 <= i < |calls| ==> calls[i] == CallOf(canRetry, count + i, ds[i]))
    && (forall i :: 0 <= i < |calls| - (if fate.Queued? then 0 else 1) ==> !EndsLife(calls[i], ds[i]))
    && match fate
       case Queued(c) => |calls| == |ds| && c == count + |ds|
       case Completed => |calls| > 0 && EndsLife(calls[|calls| - 1], ds[|calls| - 1]) && calls[|calls| - 1].Complete?
       case DeadLettered => |calls| > 0 && EndsLife(calls[|calls| - 1], ds[|calls| - 1]) && calls[|calls| - 1].DeadLetter?
  }

  lemma {:induction false} LifeGoesOn(canRetry: RetryDecision, count: nat, ds: seq<Delivery>, calls: seq<Call>, fate: Fate)
    requires ds != [] && LifeSpec(canRetry, count + 1, ds[1..], calls, fate)
    requires !EndsLife(CallOf(canRetry, count, ds[0]), ds[0])
    ensures LifeSpec(canRetry, count, ds, [CallOf(canRetry, count, ds[0])] + calls, fate)
  {
    var all := [CallOf(canRetry, count, ds[0])] + calls;
    forall i | 0 <= i < |all| ensures all[i] == CallOf(canRetry, count + i, ds[i]) {
      if i > 0 {
        assert ds[1..][i - 1] == ds[i] && all[i] == calls[i - 1];
        assert calls[i - 1] == CallOf(canRetry, count + 1 + (i - 1), ds[1..][i - 1]);
      }
    }
    forall i | 0 <= i < |all| - (if fate.Queued? then 0 else 1) ensures !EndsLife(all[i], ds[i]) {
      if i > 0 {
        assert !EndsLife(calls[i - 1], ds[1..][i - 1]);
      }
    }
  }

  lemma {:induction false} LifeFollowsDeliveries(canRetry: RetryDecision, count: nat, ds: seq<Delivery>)
    ensures var (calls, fate) := Life(canRetry, count, ds);
            LifeSpec(canRetry, count, ds, calls, fate)
    decreases |ds|
  {
    if ds != [] && !EndsLife(CallOf(canRetry, count, ds[0]), ds[0]) {
      LifeFollowsDeliveries(canRetry, count + 1, ds[1..]);
      var (calls, fate) := Life(canRetry, count + 1, ds[1..]);
      LifeGoesOn(canRetry, count, ds, calls, fate);
    }
  }

  /** Whatever the handler does and however the broker answers: with at most max attempts, only the first
      RetriesLeft deliveries can be abandoned, and from then on the first call the broker accepts ends the life. */
  lemma {:induction false} AbandonsAreBounded(max: nat, count: nat, ds: seq<Delivery>)
    ensures var (calls, fate) := Life(MaxAttempts(max), count, ds);
            var k := RetriesLeft(max, count);
            && |calls| <= |ds|
            && (forall i :: k <= i < |calls| ==> !calls[i].Abandon?)
            && (forall i :: k <= i < |calls| - (if fate.Queued? then 0 else 1) ==> ds[i].answer.Some?)
            && (fate.Queued? <==> |calls| == |ds| && (ds == [] || !EndsLife(calls[|ds| - 1], ds[|ds| - 1])))
  {
    LifeFollowsDeliveries(MaxAttempts(max), count, ds);
    var (calls, fate) := Life(MaxAttempts(max), count, ds);
    var k := RetriesLeft(max, count);
    forall i | k <= i < |calls| ensures !calls[i].Abandon? {
      assert calls[i] == CallOf(MaxAttempts(max), count + i, ds[i]);
    }
  }

  /** A message whose handler always fails is abandoned exactly RetriesLeft times, whatever mix of abandon calls succeed
      or fail, and then goes to dead-lettering until the broker accepts it. */
  lemma {:induction false} FailingMessageIsDeadLettered(max: nat, count: nat, ds: seq<Delivery>)
    requires AlwaysFails(ds)
    ensures var (calls, fate) := Life(MaxAttempts(max), count, ds);
            var k := RetriesLeft(max, count);
            && (forall i :: 0 <= i < |calls| ==> calls[i] == if i < k then Abandon else DeadLetter)
            && !fate.Completed?
            && (fate.DeadLettered? <==> exists i :: k <= i < |ds| && ds[i].answer.None?)
            && (fate.DeadLettered? ==> |calls| > k)
            && (k < |ds| && ds[k].answer.None? ==> |calls| == k + 1)
  {
    LifeFollowsDeliveries(MaxAttempts(max), count, ds);
    AbandonsAreBounded(max, count, ds);
    var (calls, fate) := Life(MaxAttempts(max), count, ds);
    var k := RetriesLeft(max, count);
    forall i | 0 <= i < |calls| ensures calls[i] == if i < k then Abandon else DeadLetter {
      assert calls[i] == CallOf(MaxAttempts(max), count + i, ds[i]) && ds[i].handlerErr.Some?;
    }
    if fate.DeadLettered? {
      assert k <= |calls| - 1 && ds[|calls| - 1].answer.None?;
    }
  }

  /** Delivery i, should it take place, ends the life of the message: the broker accepts its call, and the call is a completion
      or, the retries being used up, a dead-lettering. */
  predicate Final(max: nat, count: nat, ds: seq<Delivery>, i: nat)
    requires i < |ds|
  {
    ds[i].answer.None? && (ds[i].handlerErr.None? || count + i >= max)
  }

  /** Delivery i is the first that ends the life. */
  ghost predicate FirstFinal(max: nat, count: nat, ds: seq<Delivery>, i: nat)
    requires i < |ds|
  {
    Final(max, count, ds, i) && forall j: nat :: j < i ==> !Final(max, count, ds, j)
  }

  /** What MaxAttempts does for a message, for every history of deliveries: it is dead-lettered if and only if the first delivery
      that ends its life is one whose handler failed, completed if and only if that delivery's handler succeeded, and it
      stays in the queue if and only if no delivery ends its life. */
  lemma {:induction false} FateIsDecidedByFirstFinalDelivery(max: nat, count: nat, ds: seq<Delivery>)
    ensures var fate := Life(MaxAttempts(max), count, ds).1;
            && (fate.DeadLettered? <==> exists i: nat :: i < |ds| && FirstFinal(max, count, ds, i) && ds[i].handlerErr.Some?)
            && (fate.Completed? <==> exists i: nat :: i < |ds| && FirstFinal(max, count, ds, i) && ds[i].handlerErr.None?)
            && (fate.Queued? <==> forall i: nat :: i < |ds| ==> !Final(max, count, ds, i))
  {
    LifeFollowsDeliveries(MaxAttempts(max), count, ds);
    var (calls, fate) := Life(MaxAttempts(max), count, ds);
    forall i: nat | i < |calls| ensures EndsLife(calls[i], ds[i]) == Final(max, count, ds, i) {
      assert calls[i] == CallOf(MaxAttempts(max), count + i, ds[i]);
    }
    if !fate.Queued? {
      var last := |calls| - 1;
      assert calls[last] == CallOf(MaxAttempts(max), count + last, ds[last]);
      assert FirstFinal(max, count, ds, last);
      forall i: nat | i < |ds| && FirstFinal(max, count, ds, i) ensures i == last {
      }
    }
  }

  /** With nil options the limit is five: a failing message first seen at count 1 is abandoned four times, and its
      fifth delivery is dead-lettered. */
  lemma {:induction false} DefaultGivesFiveAttempts(ds: seq<Delivery>)
    requires AlwaysFails(ds) && |ds| == 5 && ds[4].answer.None?
    ensures Life(Decision(None), 1, ds) == ([Abandon, Abandon, Abandon, Abandon, DeadLetter], DeadLettered)
  {
    FailingMessageIsDeadLettered(DEFAULT_MAX_ATTEMPTS, 1, ds);
    var (calls, fate) := Life(MaxAttempts(DEFAULT_MAX_ATTEMPTS), 1, ds);
    assert calls == [Abandon, Abandon, Abandon, Abandon, DeadLetter];
  }

  /** MaxAttempts does not bound a message whose handler succeeds but whose completion the broker keeps refusing: it is never
      abandoned or dead-lettered by this handler, at any delivery count. */
  lemma {:induction false} UncompletedMessageIsNeverDeadLettered(max: nat, count: nat, ds: seq<Delivery>)
    requires forall i :: 0 <= i < |ds| ==> ds[i].handlerErr.None? && ds[i].answer.Some?
    ensures var (calls, fate) := Life(MaxAttempts(max), count, ds);
            fate == Queued(count + |ds|) && |calls| == |ds| && forall i :: 0 <= i < |calls| ==> calls[i].Complete?
    decreases |ds|
  {
    if ds == [] {
    } else {
      UncompletedMessageIsNeverDeadLettered(max, count + 1, ds[1..]);
    }
  }

  // ---------- the settlement handler ----------

  /** What a settling handler returns; nil is None at the use sites. */
  datatype Settlement = By(call: Call) | NoOp

  /** OnNilSettlement: a function that answers with a settlement or nil, or one that panics. */
  datatype NilPolicy = Panics | Answers(settlement: Option<Settlement>)

  /** opts is None for nil options, Some(None) for options whose OnNilSettlement was left nil. */
  method HandleSettlement(settler: MessageSettler, opts: Option<Option<NilPolicy>>, returned: Option<Settlement>,
                          answer: Option<Error>) returns (panicked: bool)
    modifies settler
    ensures panicked <==> returned.None? && !(exists s :: opts == Some(Some(Answers(Some(s)))))
    ensures panicked ==> settler.log == old(settler.log)
    ensures !panicked ==>
              exists s :: (returned == Some(s) || (returned.None? && opts == Some(Some(Answers(Some(s)))))) &&
                          settler.log == old(settler.log) + (if s.NoOp? then [] else [Settled(s.call, answer)])
  {
    var onNil := Some(Panics);
    if opts.Some? {
      onNil := opts.value;
    }
    var s := returned;
    if s.None? {
      if onNil.None? || onNil.value.Panics? {
        return true;
      }
      s := onNil.value.settlement;
      if s.None? {
        return true;
      }
    }
    panicked := false;
    if s.value.By? {
      Settle(settler, s.value.call, answer);
    }
  }
}
