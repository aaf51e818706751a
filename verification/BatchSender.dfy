/** SendAsBatch: greedy in-order packing of messages into batches of the service bus SDK. */
module BatchSender {
  import opened Common

  /** Messages are told apart by number only; their sizes are the business of Bus.fits. */
  type Message = nat

  datatype AddResult = Added | TooLarge | AddFailed(err: Error)

  /** The environment: whether the k-th batch can be created, what fits into it, which messages cannot be encoded at all,
      and how sending the k-th batch goes. */
  datatype Bus = Bus(
    newBatch: nat -> Option<Error>,
    fits: (nat, seq<Message>) -> bool,
    invalid: Message -> Option<Error>,
    send: nat -> SendOutcome)

  /** The SDK's MessageBatch: AddMessage appends if the result fits and otherwise leaves the batch as it was. */
  class MessageBatch {
    const number: nat
    const bus: Bus
    var messages: seq<Message>

    constructor (bus: Bus, number: nat)
      ensures this.bus == bus && this.number == number && messages == []
    {
      this.bus := bus;
      this.number := number;
      messages := [];
    }

    method AddMessage(m: Message) returns (r: AddResult)
      modifies this
      ensures r.AddFailed? <==> bus.invalid(m).Some?
      ensures r.AddFailed? ==> bus.invalid(m) == Some(r.err)
      ensures r.Added? <==> bus.invalid(m).None? && bus.fits(number, old(messages) + [m])
      ensures messages == if r.Added? then old(messages) + [m] else old(messages)
    {
      if bus.invalid(m).Some? {
        return AddFailed(bus.invalid(m).value);
      }
      if !bus.fits(number, messages + [m]) {
        return TooLarge;
      }
      messages := messages + [m];
      r := Added;
    }

    function NumMessages(): nat
      reads this
    {
      |messages|
    }
  }

  datatype Failure =
    | ContextDone(ctxErr: Error)
    | EmptyInput
    | NoBatch(batchErr: Error)
    | SingleTooLarge
    | DoNotFit
    | CannotAdd(addErr: Error)
    | SendFailed(sendErr: Error)

  // ---------- sequences of batches ----------

  function Flatten(bs: seq<seq<Message>>): seq<Message> {
    if bs == [] then [] else Flatten(bs[..|bs| - 1]) + bs[|bs| - 1]
  }

  /** Where the k-th batch begins in the input. */
  function Start(bs: seq<seq<Message>>, k: nat): nat
    requires k <= |bs|
  {
    |Flatten(bs[..k])|
  }

  lemma {:induction false} FlattenAppend(bs: seq<seq<Message>>, b: seq<Message>)
    ensures Flatten(bs + [b]) == Flatten(bs) + b
  {
    assert (bs + [b])[..|bs|] == bs;
  }

  lemma StartStep(bs: seq<seq<Message>>, k: nat)
    requires k < |bs|
    ensures Flatten(bs[..k + 1]) == Flatten(bs[..k]) + bs[k]
    ensures Start(bs, k + 1) == Start(bs, k) + |bs[k]|
  {
    assert bs[..k + 1][..k] == bs[..k];
  }

  lemma {:induction false} StartIsMonotone(bs: seq<seq<Message>>, j: nat, k: nat)
    requires j <= k <= |bs|
    ensures Flatten(bs[..j]) <= Flatten(bs[..k])
    ensures Start(bs, j) <= Start(bs, k)
    decreases k
  {
    if j == k {
    } else {
      StartIsMonotone(bs, j, k - 1);
      StartStep(bs, k - 1);
    }
  }

  /** The k-th batch is the stretch of the input between its start and the next one. */
  lemma {:induction false} BatchIsStretch(bs: seq<seq<Message>>, msgs: seq<Message>, k: nat)
    requires Flatten(bs) <= msgs && k < |bs|
    ensures Start(bs, k) + |bs[k]| == Start(bs, k + 1) <= |msgs|
    ensures bs[k] == msgs[Start(bs, k)..Start(bs, k + 1)]
  {
    StartStep(bs, k);
    StartIsMonotone(bs, k + 1, |bs|);
    assert bs[..|bs|] == bs;
    assert Flatten(bs[..k]) + bs[k] <= msgs;
  }

  // ---------- the specification ----------

  /** Batch k accepts the messages of b one after the other. */
  predicate Accepts(bus: Bus, k: nat, b: seq<Message>) {
    forall i :: 0 <= i < |b| ==> bus.invalid(b[i]).None? && bus.fits(k, b[..i + 1])
  }

  /** After accepting b, batch k finds the next message of the input, m, too large. */
  predicate Refuses(bus: Bus, k: nat, b: seq<Message>, m: Message) {
    bus.invalid(m).None? && !bus.fits(k, b + [m])
  }

  /** Batch b, the k-th, is non-empty and accepted, hence fits. */
  predicate GoodBatch(bus: Bus, k: nat, b: seq<Message>) {
    b != [] && bus.newBatch(k).None? && Accepts(bus, k, b)
  }

  /** The k-th batch could not take the next message of the input. */
  predicate Full(bus: Bus, msgs: seq<Message>, bs: seq<seq<Message>>, k: nat)
    requires k < |bs|
  {
    Start(bs, k + 1) < |msgs| ==> Refuses(bus, k, bs[k], msgs[Start(bs, k + 1)])
  }

  /** The batches bs are a prefix of the input, in order, each good, confirmed, and full unless it ends the input. */
  ghost predicate Packed(bus: Bus, msgs: seq<Message>, bs: seq<seq<Message>>) {
    && Flatten(bs) <= msgs
    && forall k :: 0 <= k < |bs| ==> PackedAt(bus, msgs, bs, k)
  }

  predicate PackedAt(bus: Bus, msgs: seq<Message>, bs: seq<seq<Message>>, k: nat)
    requires k < |bs|
  {
    GoodBatch(bus, k, bs[k]) && bus.send(k).Confirmed? && Full(bus, msgs, bs, k)
  }

  /** Why SendAsBatch stops after n confirmed batches with `rest` of the input left: the result, and the batch
      whose fate is unknown. */
  ghost predicate Stops(bus: Bus, n: nat, rest: seq<Message>, allowMultiple: bool,
                        r: Option<Failure>, unknown: Option<seq<Message>>) {
    match r
    case None => n > 0 && rest == [] && unknown.None?
    case Some(ContextDone(_)) => false
    case Some(EmptyInput) => n == 0 && rest == [] && unknown.None?
    case Some(NoBatch(e)) => rest != [] && unknown.None? && bus.newBatch(n) == Some(e)
    case Some(SingleTooLarge) => rest != [] && unknown.None? && bus.newBatch(n).None? && Refuses(bus, n, [], rest[0])
    case Some(DoNotFit) =>
      && !allowMultiple && unknown.None?
      && exists j :: 1 <= j < |rest| && GoodBatch(bus, n, rest[..j]) && Refuses(bus, n, rest[..j], rest[j])
    case Some(CannotAdd(e)) =>
      && bus.newBatch(n).None? && unknown.None?
      && exists j :: 0 <= j < |rest| && Accepts(bus, n, rest[..j]) && bus.invalid(rest[j]) == Some(e)
    case Some(SendFailed(e)) =>
      && unknown.Some? && unknown.value <= rest && GoodBatch(bus, n, unknown.value)
      && (|unknown.value| < |rest| ==> allowMultiple && Refuses(bus, n, unknown.value, rest[|unknown.value|]))
      && (bus.send(n) == Rejected(e) || bus.send(n) == Abandoned(e))
  }

  /** What SendAsBatch promises about its result r, the batches confirmed as sent, and the batch of unknown fate, if any. */
  ghost predicate SendSpec(bus: Bus, ctx: Context, msgs: seq<Message>, allowMultiple: bool,
                           r: Option<Failure>, confirmed: seq<seq<Message>>, unknown: Option<seq<Message>>) {
    if ctx.Ended? then ctx.Err().Some? && r == Some(ContextDone(ctx.Err().value)) && confirmed == [] && unknown.None?
    else
      && Packed(bus, msgs, confirmed)
      && (!allowMultiple ==> confirmed == [] || confirmed == [msgs])
      && Stops(bus, |confirmed|, msgs[|Flatten(confirmed)|..], allowMultiple, r, unknown)
  }

  // ---------- the operation ----------

  /** One more batch, confirmed and refused the next message, keeps the packing. */
  lemma {:induction false} PackOne(bus: Bus, msgs: seq<Message>, bs: seq<seq<Message>>, b: seq<Message>)
    requires Packed(bus, msgs, bs) && Flatten(bs) + b <= msgs
    requires GoodBatch(bus, |bs|, b) && bus.send(|bs|).Confirmed?
    requires var next := |Flatten(bs)| + |b|; next < |msgs| ==> Refuses(bus, |bs|, b, msgs[next])
    ensures Packed(bus, msgs, bs + [b]) && Flatten(bs + [b]) == Flatten(bs) + b
  {
    FlattenAppend(bs, b);
    var bs' := bs + [b];
    forall k | 0 <= k < |bs'| ensures PackedAt(bus, msgs, bs', k) {
      if k < |bs| {
        assert bs'[..k + 1] == bs[..k + 1];
        assert PackedAt(bus, msgs, bs, k);
      } else {
        assert bs'[..k + 1] == bs';
      }
    }
  }

  /** sendBatch, seen from its caller; SenderSwap has the race behind it. */
  method SendBatch(bus: Bus, k: nat) returns (err: Option<Error>)
    ensures err.None? <==> bus.send(k).Confirmed?
    ensures err.Some? ==> bus.send(k) == Rejected(err.value) || bus.send(k) == Abandoned(err.value)
  {
    err := bus.send(k).Returned();
  }

  /** The state of the packing loop before message i is added: what has been confirmed, and the current batch. */
  ghost predicate Packing(bus: Bus, msgs: seq<Message>, confirmed: seq<seq<Message>>, current: seq<Message>, i: nat) {
    && i <= |msgs|
    && Packed(bus, msgs, confirmed)
    && Flatten(confirmed) + current == msgs[..i]
    && bus.newBatch(|confirmed|).None?
    && Accepts(bus, |confirmed|, current)
  }

  lemma AddOne(bus: Bus, msgs: seq<Message>, confirmed: seq<seq<Message>>, current: seq<Message>, i: nat)
    requires Packing(bus, msgs, confirmed, current, i) && i < |msgs|
    requires bus.invalid(msgs[i]).None? && bus.fits(|confirmed|, current + [msgs[i]])
    ensures Packing(bus, msgs, confirmed, current + [msgs[i]], i + 1)
  {
    var grown := current + [msgs[i]];
    assert msgs[..i + 1] == msgs[..i] + [msgs[i]];
    forall j | 0 <= j < |grown| ensures bus.invalid(grown[j]).None? && bus.fits(|confirmed|, grown[..j + 1]) {
      if j < |current| {
        assert grown[..j + 1] == current[..j + 1];
      } else {
        assert grown[..j + 1] == grown;
      }
    }
  }

  /** What is left of the input begins with the current batch and goes on with message i. */
  lemma {:induction false} RestOfInput(bus: Bus, msgs: seq<Message>, confirmed: seq<seq<Message>>, current: seq<Message>, i: nat)
    requires Packing(bus, msgs, confirmed, current, i)
    ensures |Flatten(confirmed)| + |current| == i
    ensures var rest := msgs[|Flatten(confirmed)|..];
            && current == rest[..|current|]
            && (i < |msgs| ==> |current| < |rest| && rest[|current|] == msgs[i])
            && (i == |msgs| ==> rest == current)
  {
    assert msgs == msgs[..i] + msgs[i..];
  }

  lemma StopAtMessage(bus: Bus, msgs: seq<Message>, allowMultiple: bool, confirmed: seq<seq<Message>>,
                      current: seq<Message>, i: nat, r: Option<Failure>)
    requires Packing(bus, msgs, confirmed, current, i) && i < |msgs| && (!allowMultiple ==> confirmed == [])
    requires || (r == Some(SingleTooLarge) && current == [] && Refuses(bus, |confirmed|, [], msgs[i]))
             || (r == Some(DoNotFit) && current != [] && !allowMultiple && Refuses(bus, |confirmed|, current, msgs[i]))
             || (r.Some? && r.value.CannotAdd? && bus.invalid(msgs[i]) == Some(r.value.addErr))
    ensures SendSpec(bus, Live, msgs, allowMultiple, r, confirmed, None)
  {
    RestOfInput(bus, msgs, confirmed, current, i);
  }

  lemma StopAtSend(bus: Bus, msgs: seq<Message>, allowMultiple: bool, confirmed: seq<seq<Message>>,
                   current: seq<Message>, i: nat, e: Error)
    requires Packing(bus, msgs, confirmed, current, i) && current != [] && (!allowMultiple ==> confirmed == [])
    requires bus.send(|confirmed|) == Rejected(e) || bus.send(|confirmed|) == Abandoned(e)
    requires i < |msgs| ==> allowMultiple && Refuses(bus, |confirmed|, current, msgs[i])
    ensures SendSpec(bus, Live, msgs, allowMultiple, Some(SendFailed(e)), confirmed, Some(current))
  {
    RestOfInput(bus, msgs, confirmed, current, i);
  }

  /** The current batch was confirmed: it joins the packed ones, and the next batch begins at message i. */
  lemma Rotate(bus: Bus, msgs: seq<Message>, allowMultiple: bool, confirmed: seq<seq<Message>>,
               current: seq<Message>, i: nat)
    requires Packing(bus, msgs, confirmed, current, i) && current != [] && (!allowMultiple ==> confirmed == [])
    requires bus.send(|confirmed|).Confirmed?
    requires i < |msgs| ==> allowMultiple && Refuses(bus, |confirmed|, current, msgs[i])
    ensures var all := confirmed + [current];
            && (bus.newBatch(|all|).None? ==> Packing(bus, msgs, all, [], i))
            && (i < |msgs| && bus.newBatch(|all|).Some?
                ==> SendSpec(bus, Live, msgs, allowMultiple, Some(NoBatch(bus.newBatch(|all|).value)), all, None))
            && (i == |msgs| ==> SendSpec(bus, Live, msgs, allowMultiple, None, all, None))
  {
    RestOfInput(bus, msgs, confirmed, current, i);
    PackOne(bus, msgs, confirmed, current);
    var all := confirmed + [current];
    assert Flatten(all) + [] == msgs[..i];
    assert i == |msgs| ==> msgs[..i] == msgs;
    if i == |msgs| && !allowMultiple {
      assert Flatten([]) + current == current;
      assert all == [msgs];
    }
  }

  /** SendAsBatch, with the loop index rewound after a full batch was sent. */
  method SendAsBatch(bus: Bus, ctx: Context, msgs: seq<Message>, allowMultiple: bool)
    returns (r: Option<Failure>, confirmed: seq<seq<Message>>, unknown: Option<seq<Message>>)
    ensures SendSpec(bus, ctx, msgs, allowMultiple, r, confirmed, unknown)
  {
    confirmed, unknown := [], None;
    if ctx.Ended? {
      return Some(ContextDone(ctx.Err().value)), confirmed, unknown;
    }
    if |msgs| == 0 {
      return Some(EmptyInput), confirmed, unknown;
    }
    if bus.newBatch(0).Some? {
      return Some(NoBatch(bus.newBatch(0).value)), confirmed, unknown;
    }
    var batch := new MessageBatch(bus, 0);
    var i := 0;
    while i < |msgs|
      invariant 0 <= i <= |msgs| && fresh(batch) && batch.bus == bus && batch.number == |confirmed|
      invariant Packing(bus, msgs, confirmed, batch.messages, i)
      invariant !allowMultiple ==> confirmed == []
      invariant i == |msgs| ==> batch.messages != []
      decreases |msgs| - i, |batch.messages|
    {
      ghost var current := batch.messages;
      var added := batch.AddMessage(msgs[i]);
      if added.TooLarge? {
        if batch.NumMessages() == 0 {
          StopAtMessage(bus, msgs, allowMultiple, confirmed, current, i, Some(SingleTooLarge));
          return Some(SingleTooLarge), confirmed, unknown;
        }
        if !allowMultiple {
          StopAtMessage(bus, msgs, allowMultiple, confirmed, current, i, Some(DoNotFit));
          return Some(DoNotFit), confirmed, unknown;
        }
        var err := SendBatch(bus, |confirmed|);
        if err.Some? {
          StopAtSend(bus, msgs, allowMultiple, confirmed, current, i, err.value);
          return Some(SendFailed(err.value)), confirmed, Some(batch.messages);
        }
        Rotate(bus, msgs, allowMultiple, confirmed, current, i);
        confirmed := confirmed + [batch.messages];
        if bus.newBatch(|confirmed|).Some? {
          return Some(NoBatch(bus.newBatch(|confirmed|).value)), confirmed, unknown;
        }
        batch := new MessageBatch(bus, |confirmed|);
        i := i - 1;
      } else if added.AddFailed? {
        StopAtMessage(bus, msgs, allowMultiple, confirmed, current, i, Some(CannotAdd(added.err)));
        return Some(CannotAdd(added.err)), confirmed, unknown;
      } else {
        AddOne(bus, msgs, confirmed, current, i);
      }
      i := i + 1;
    }
    if batch.NumMessages() > 0 {
      var err := SendBatch(bus, |confirmed|);
      if err.Some? {
        StopAtSend(bus, msgs, allowMultiple, confirmed, batch.messages, i, err.value);
        return Some(SendFailed(err.value)), confirmed, Some(batch.messages);
      }
      Rotate(bus, msgs, allowMultiple, confirmed, batch.messages, i);
      confirmed := confirmed + [batch.messages];
      return None, confirmed, unknown;
    }
    assert false; // the final return of nil is never reached
    r := None;
  }

  // ---------- what the specification implies ----------

  /** a is as much of rest as batch k accepts before its first refusal or error. */
  ghost predicate Longest(bus: Bus, k: nat, rest: seq<Message>, a: seq<Message>) {
    && a <= rest
    && Accepts(bus, k, a)
    && (|a| < |rest| ==> bus.invalid(rest[|a|]).Some? || Refuses(bus, k, a, rest[|a|]))
  }

  lemma LongestIsUnique(bus: Bus, k: nat, rest: seq<Message>, a: seq<Message>, b: seq<Message>)
    requires Longest(bus, k, rest, a) && Longest(bus, k, rest, b)
    ensures a == b
  {
    if |a| < |b| {
      assert b[..|a|] == a && b[|a|] == rest[|a|];
      AcceptsNext(bus, k, b, |a|);
    } else if |b| < |a| {
      assert a[..|b|] == b && a[|b|] == rest[|b|];
      AcceptsNext(bus, k, a, |b|);
    }
  }

  lemma AcceptsNext(bus: Bus, k: nat, b: seq<Message>, n: nat)
    requires Accepts(bus, k, b) && n < |b|
    ensures bus.invalid(b[n]).None? && bus.fits(k, b[..n] + [b[n]])
  {
    assert b[..n + 1] == b[..n] + [b[n]];
  }

  /** How a call stops once the longest accepted stretch a of the rest is known. */
  function Verdict(bus: Bus, n: nat, rest: seq<Message>, a: seq<Message>, allowMultiple: bool)
    : (Option<Failure>, Option<seq<Message>>)
    requires a <= rest
  {
    if |a| < |rest| && bus.invalid(rest[|a|]).Some? then (Some(CannotAdd(bus.invalid(rest[|a|]).value)), None)
    else if |a| < |rest| && a == [] then (Some(SingleTooLarge), None)
    else if |a| < |rest| && !allowMultiple then (Some(DoNotFit), None)
    else if bus.send(n).Confirmed? then (None, None)
    else (Some(SendFailed(bus.send(n).err)), Some(a))
  }

  lemma StopsByVerdict(bus: Bus, n: nat, rest: seq<Message>, allowMultiple: bool,
                       r: Option<Failure>, unknown: Option<seq<Message>>) returns (a: seq<Message>)
    requires Stops(bus, n, rest, allowMultiple, r, unknown) && rest != [] && bus.newBatch(n).None?
    ensures Longest(bus, n, rest, a) && (r, unknown) == Verdict(bus, n, rest, a, allowMultiple) && r.Some?
  {
    match r.value
    case SingleTooLarge => a := [];
    case DoNotFit =>
      var j :| 1 <= j < |rest| && GoodBatch(bus, n, rest[..j]) && Refuses(bus, n, rest[..j], rest[j]);
      a := rest[..j];
    case CannotAdd(e) =>
      var j :| 0 <= j < |rest| && Accepts(bus, n, rest[..j]) && bus.invalid(rest[j]) == Some(e);
      a := rest[..j];
    case SendFailed(_) => a := unknown.value;
  }

  lemma {:induction false} SamePacking(bus: Bus, msgs: seq<Message>, c1: seq<seq<Message>>, c2: seq<seq<Message>>, k: nat)
    requires Packed(bus, msgs, c1) && Packed(bus, msgs, c2) && k <= |c1| && k <= |c2|
    ensures c1[..k] == c2[..k]
  {
    if k == 0 {
    } else {
      SamePacking(bus, msgs, c1, c2, k - 1);
      BatchIsLongest(bus, msgs, c1, k - 1);
      BatchIsLongest(bus, msgs, c2, k - 1);
      LongestIsUnique(bus, k - 1, msgs[Start(c1, k - 1)..], c1[k - 1], c2[k - 1]);
      assert c1[..k] == c1[..k - 1] + [c1[k - 1]] && c2[..k] == c2[..k - 1] + [c2[k - 1]];
    }
  }

  lemma BatchIsLongest(bus: Bus, msgs: seq<Message>, bs: seq<seq<Message>>, k: nat)
    requires Packed(bus, msgs, bs) && k < |bs|
    ensures Start(bs, k) < |msgs|
    ensures Longest(bus, k, msgs[Start(bs, k)..], bs[k])
    ensures |bs[k]| < |msgs[Start(bs, k)..]| ==> bus.invalid(msgs[Start(bs, k)..][|bs[k]|]).None?
  {
    BatchIsStretch(bs, msgs, k);
    assert PackedAt(bus, msgs, bs, k);
  }

  /** No packing confirmed by the same bus goes further than the one of a call that has stopped. */
  lemma StopsLast(bus: Bus, msgs: seq<Message>, allowMultiple: bool, r: Option<Failure>, c1: seq<seq<Message>>,
                  unknown: Option<seq<Message>>, c2: seq<seq<Message>>)
    requires SendSpec(bus, Live, msgs, allowMultiple, r, c1, unknown)
    requires Packed(bus, msgs, c2) && (!allowMultiple ==> c2 == [] || c2 == [msgs])
    ensures |c2| <= |c1|
  {
    if |c1| < |c2| {
      var n := |c1|;
      SamePacking(bus, msgs, c1, c2, n);
      assert c1[..n] == c1;
      var rest := msgs[Start(c2, n)..];
      BatchIsLongest(bus, msgs, c2, n);
      assert PackedAt(bus, msgs, c2, n);
      var a := StopsByVerdict(bus, n, rest, allowMultiple, r, unknown);
      LongestIsUnique(bus, n, rest, a, c2[n]);
    }
  }

  /** The specification leaves no freedom: it fixes the result, the confirmed batches and the batch of unknown fate. */
  lemma SendSpecIsDeterministic(bus: Bus, ctx: Context, msgs: seq<Message>, allowMultiple: bool,
                                r1: Option<Failure>, c1: seq<seq<Message>>, u1: Option<seq<Message>>,
                                r2: Option<Failure>, c2: seq<seq<Message>>, u2: Option<seq<Message>>)
    requires SendSpec(bus, ctx, msgs, allowMultiple, r1, c1, u1) && SendSpec(bus, ctx, msgs, allowMultiple, r2, c2, u2)
    ensures r1 == r2 && c1 == c2 && u1 == u2
  {
    if ctx.Live? {
      StopsLast(bus, msgs, allowMultiple, r1, c1, u1, c2);
      StopsLast(bus, msgs, allowMultiple, r2, c2, u2, c1);
      var n := |c1|;
      SamePacking(bus, msgs, c1, c2, n);
      assert c1[..n] == c1 && c2[..n] == c2;
      var rest := msgs[|Flatten(c1)|..];
      if rest != [] && bus.newBatch(n).None? {
        var a1 := StopsByVerdict(bus, n, rest, allowMultiple, r1, u1);
        var a2 := StopsByVerdict(bus, n, rest, allowMultiple, r2, u2);
        LongestIsUnique(bus, n, rest, a1, a2);
      } else {
        SameStopWithoutBatch(bus, n, rest, allowMultiple, r1, u1, r2, u2);
      }
    }
  }

  lemma SameStopWithoutBatch(bus: Bus, n: nat, rest: seq<Message>, allowMultiple: bool,
                             r1: Option<Failure>, u1: Option<seq<Message>>, r2: Option<Failure>, u2: Option<seq<Message>>)
    requires Stops(bus, n, rest, allowMultiple, r1, u1) && Stops(bus, n, rest, allowMultiple, r2, u2)
    requires rest == [] || bus.newBatch(n).Some?
    ensures r1 == r2 && u1 == u2
  {
  }

  /** On success the confirmed batches concatenate to exactly the input, each is non-empty and fits, and each
      but the last could not take the next message; without AllowMultipleBatch there is one batch. */
  lemma {:induction false} SuccessSendsEverythingInOrder(bus: Bus, ctx: Context, msgs: seq<Message>, allowMultiple: bool,
                                      confirmed: seq<seq<Message>>, unknown: Option<seq<Message>>)
    requires SendSpec(bus, ctx, msgs, allowMultiple, None, confirmed, unknown)
    ensures Flatten(confirmed) == msgs && unknown.None?
    ensures forall k :: 0 <= k < |confirmed| ==> confirmed[k] != [] && bus.fits(k, confirmed[k])
    ensures forall k, j :: 0 <= k < j < |confirmed| && j == k + 1 ==> !bus.fits(k, confirmed[k] + [confirmed[j][0]])
    ensures !allowMultiple ==> confirmed == [msgs]
  {
    forall k | 0 <= k < |confirmed| ensures confirmed[k] != [] && bus.fits(k, confirmed[k]) {
      assert PackedAt(bus, msgs, confirmed, k);
      GoodBatchFits(bus, k, confirmed[k]);
    }
    forall k, j | 0 <= k < j < |confirmed| && j == k + 1
      ensures !bus.fits(k, confirmed[k] + [confirmed[j][0]])
    {
      NextMessageRefused(bus, msgs, confirmed, k);
    }
    assert |Flatten(confirmed)| == |msgs|;
  }

  lemma GoodBatchFits(bus: Bus, k: nat, b: seq<Message>)
    requires GoodBatch(bus, k, b)
    ensures bus.fits(k, b)
  {
    AcceptsNext(bus, k, b, |b| - 1);
    assert b[..|b| - 1] + [b[|b| - 1]] == b;
  }

  lemma NextMessageRefused(bus: Bus, msgs: seq<Message>, bs: seq<seq<Message>>, k: nat)
    requires Packed(bus, msgs, bs) && k + 1 < |bs|
    ensures bs[k + 1] != [] && !bus.fits(k, bs[k] + [bs[k + 1][0]])
  {
    BatchIsStretch(bs, msgs, k + 1);
    assert PackedAt(bus, msgs, bs, k + 1) && PackedAt(bus, msgs, bs, k);
  }

  /** On any failure the confirmed batches are a prefix of the input that ends at a batch boundary, and at most the one
      contiguous batch right after it has an unknown fate. */
  lemma {:induction false} FailureConfirmsAPrefix(bus: Bus, ctx: Context, msgs: seq<Message>, allowMultiple: bool,
                               f: Failure, confirmed: seq<seq<Message>>, unknown: Option<seq<Message>>)
    requires SendSpec(bus, ctx, msgs, allowMultiple, Some(f), confirmed, unknown)
    ensures Flatten(confirmed) + (if unknown.Some? then unknown.value else []) <= msgs
    ensures unknown.Some? <==> f.SendFailed?
    ensures !allowMultiple ==> confirmed == []
  {
    if ctx.Live? {
      var done := Flatten(confirmed);
      assert msgs == done + msgs[|done|..];
      assert confirmed == [msgs] ==> done == Flatten([]) + msgs;
    }
  }

  // ---------- a bus of fixed capacity on which everything succeeds ----------

  /** One size limit for all batches: `fits` does not depend on the batch, and part of what fits also fits. */
  ghost predicate FixedCapacity(bus: Bus, fits: seq<Message> -> bool) {
    && (forall k: nat, b: seq<Message> :: bus.fits(k, b) <==> fits(b))
    && (forall b: seq<Message>, i, j :: PartFits(fits, b, i, j))
  }

  predicate PartFits(fits: seq<Message> -> bool, b: seq<Message>, i: int, j: int) {
    0 <= i <= j <= |b| && fits(b) ==> fits(b[i..j])
  }

  ghost predicate Healthy(bus: Bus) {
    && (forall k: nat :: bus.newBatch(k).None? && bus.send(k).Confirmed?)
    && (forall m: Message :: bus.invalid(m).None?)
  }

  /** A split of the input into fitting batches, in order. */
  ghost predicate Split(fits: seq<Message> -> bool, msgs: seq<Message>, bs: seq<seq<Message>>) {
    Flatten(bs) == msgs && forall k :: 0 <= k < |bs| ==> fits(bs[k])
  }

  /** Greedy packing stays ahead: after k batches it has covered at least as much as any split. */
  lemma {:induction false} GreedyStaysAhead(bus: Bus, fits: seq<Message> -> bool, msgs: seq<Message>,
                                            greedy: seq<seq<Message>>, split: seq<seq<Message>>, k: nat)
    requires FixedCapacity(bus, fits) && Packed(bus, msgs, greedy) && Split(fits, msgs, split)
    requires k <= |greedy| && k <= |split|
    ensures Start(split, k) <= Start(greedy, k)
  {
    if k == 0 {
    } else {
      GreedyStaysAhead(bus, fits, msgs, greedy, split, k - 1);
      BatchIsStretch(greedy, msgs, k - 1);
      BatchIsStretch(split, msgs, k - 1);
      assert PackedAt(bus, msgs, greedy, k - 1);
      NoBatchReachesFurther(fits, msgs, Start(split, k - 1), Start(split, k), Start(greedy, k - 1), Start(greedy, k));
    }
  }

  /** If msgs[from..to] cannot take the next message, no fitting stretch that begins at or before `from` reaches past `to`. */
  lemma NoBatchReachesFurther(fits: seq<Message> -> bool, msgs: seq<Message>, start: nat, end: nat, from: nat, to: nat)
    requires forall b: seq<Message>, i, j :: PartFits(fits, b, i, j)
    requires start <= from <= to <= |msgs| && start <= end <= |msgs|
    requires fits(msgs[start..end])
    requires to < |msgs| ==> !fits(msgs[from..to] + [msgs[to]])
    ensures end <= to
  {
    if to < end {
      assert msgs[from..to + 1] == msgs[from..to] + [msgs[to]];
      StretchFits(fits, msgs, start, end, from, to + 1);
    }
  }

  lemma StretchFits(fits: seq<Message> -> bool, s: seq<Message>, a: nat, b: nat, i: nat, j: nat)
    requires forall b: seq<Message>, i, j :: PartFits(fits, b, i, j)
    requires a <= i <= j <= b <= |s| && fits(s[a..b])
    ensures fits(s[i..j])
  {
    var part := s[a..b][i - a..j - a];
    assert PartFits(fits, s[a..b], i - a, j - a);
    assert |part| == |s[i..j]| && forall k :: 0 <= k < |part| ==> part[k] == s[i..j][k];
    assert part == s[i..j];
  }

  /** Greedy splitting is optimal: no order-preserving split into fitting batches uses fewer batches. */
  lemma GreedyIsOptimal(bus: Bus, fits: seq<Message> -> bool, msgs: seq<Message>, ctx: Context,
                        confirmed: seq<seq<Message>>, unknown: Option<seq<Message>>, split: seq<seq<Message>>)
    requires FixedCapacity(bus, fits) && Split(fits, msgs, split)
    requires SendSpec(bus, ctx, msgs, true, None, confirmed, unknown)
    ensures |confirmed| <= |split|
  {
    if |split| < |confirmed| {
      assert PackedAt(bus, msgs, confirmed, |split|);
      BatchIsStretch(confirmed, msgs, |split|);
      assert split[..|split|] == split;
      GreedyStaysAhead(bus, fits, msgs, confirmed, split, |split|);
    }
  }

  /** A message is stuck if it does not fit into a batch of its own. */
  predicate FitsAlone(fits: seq<Message> -> bool, m: Message) {
    fits([m])
  }

  /** On a healthy bus, multi-batch mode succeeds exactly when the input is non-empty and every message fits alone;
      otherwise it confirms exactly the messages before the first one that does not, and reports it. */
  lemma {:induction false} MultiBatchSucceedsIffEachFits(bus: Bus, fits: seq<Message> -> bool, msgs: seq<Message>,
                                      r: Option<Failure>, confirmed: seq<seq<Message>>, unknown: Option<seq<Message>>)
    requires FixedCapacity(bus, fits) && Healthy(bus) && SendSpec(bus, Live, msgs, true, r, confirmed, unknown)
    ensures r.None? <==> msgs != [] && forall i :: 0 <= i < |msgs| ==> FitsAlone(fits, msgs[i])
    ensures r.Some? && msgs != [] ==>
              && r == Some(SingleTooLarge)
              && |Flatten(confirmed)| < |msgs| && !FitsAlone(fits, msgs[|Flatten(confirmed)|])
    ensures forall i :: 0 <= i < |Flatten(confirmed)| ==> FitsAlone(fits, msgs[i])
  {
    var done := Flatten(confirmed);
    assert confirmed[..|confirmed|] == confirmed;
    forall i | 0 <= i < |done| ensures FitsAlone(fits, msgs[i]) {
      SentMessageFits(bus, fits, msgs, confirmed, |confirmed|, i);
    }
    HealthyStop(bus, |confirmed|, msgs[|done|..], r, unknown);
    assert |done| < |msgs| ==> [] + [msgs[|done|..][0]] == [msgs[|done|]];
    assert confirmed == [] ==> done == [];
    if confirmed != [] {
      assert PackedAt(bus, msgs, confirmed, 0);
      BatchIsStretch(confirmed, msgs, 0);
    }
  }

  /** On a healthy bus a multi-batch call has only three ways to stop. */
  lemma HealthyStop(bus: Bus, n: nat, rest: seq<Message>, r: Option<Failure>, unknown: Option<seq<Message>>)
    requires Healthy(bus) && Stops(bus, n, rest, true, r, unknown)
    ensures r == (if rest == [] then if n > 0 then None else Some(EmptyInput) else Some(SingleTooLarge))
    ensures rest != [] ==> Refuses(bus, n, [], rest[0])
  {
    if rest != [] {
      var a := StopsByVerdict(bus, n, rest, true, r, unknown);
    }
  }

  lemma {:induction false} SentMessageFits(bus: Bus, fits: seq<Message> -> bool, msgs: seq<Message>,
                                           confirmed: seq<seq<Message>>, k: nat, i: nat)
    requires FixedCapacity(bus, fits) && Packed(bus, msgs, confirmed)
    requires k <= |confirmed| && i < Start(confirmed, k) && i < |msgs|
    ensures FitsAlone(fits, msgs[i])
  {
    if k == 0 {
    } else {
      BatchIsStretch(confirmed, msgs, k - 1);
      if i < Start(confirmed, k - 1) {
        SentMessageFits(bus, fits, msgs, confirmed, k - 1, i);
      } else {
        assert PackedAt(bus, msgs, confirmed, k - 1);
        GoodBatchFits(bus, k - 1, confirmed[k - 1]);
        MemberFits(fits, confirmed[k - 1], i - Start(confirmed, k - 1));
      }
    }
  }

  lemma MemberFits(fits: seq<Message> -> bool, b: seq<Message>, i: nat)
    requires (forall b: seq<Message>, i, j :: PartFits(fits, b, i, j)) && fits(b) && i < |b|
    ensures FitsAlone(fits, b[i])
  {
    assert PartFits(fits, b, i, i + 1);
    assert b[i..i + 1] == [b[i]];
  }

  /** On a healthy bus, single-batch mode succeeds exactly when the whole non-empty input fits, and sends nothing otherwise. */
  lemma SingleBatchSucceedsIffAllFit(bus: Bus, fits: seq<Message> -> bool, msgs: seq<Message>,
                                     r: Option<Failure>, confirmed: seq<seq<Message>>, unknown: Option<seq<Message>>)
    requires FixedCapacity(bus, fits) && Healthy(bus) && SendSpec(bus, Live, msgs, false, r, confirmed, unknown)
    ensures r.None? <==> msgs != [] && fits(msgs)
    ensures r.None? ==> confirmed == [msgs]
    ensures r.Some? ==> confirmed == [] && unknown.None?
  {
    if r.None? {
      SuccessSendsEverythingInOrder(bus, Live, msgs, false, confirmed, unknown);
    } else {
      FailureConfirmsAPrefix(bus, Live, msgs, false, r.value, confirmed, unknown);
      assert msgs[0..] == msgs;
      if msgs != [] {
        var a := StopsByVerdict(bus, 0, msgs, false, r, unknown);
        assert a + [msgs[|a|]] == msgs[0..|a| + 1];
        assert PartFits(fits, msgs, 0, |a| + 1);
      }
    }
  }
}
