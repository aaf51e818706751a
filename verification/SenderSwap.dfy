/** The RWMutex around Sender.sbSender: any number of goroutines make underlying calls under the read lock while others
    swap the sender under the write lock. SendMessage and sendBatch run their call in a goroutine of its own and
    race its result, passed over an unbuffered channel, against the end of the context. */
module SenderSwap {
  import opened Common

  /** An underlying azservicebus sender. */
  type AzSender = nat

  /** Version v of the sender is installed[v]. `since` is the version that was current when a call began, `used` the one it
      reads, and `result` what the underlying call returned; `since` and `used` do not influence the steps. */
  datatype Thread =
    | Starting(since: nat)
    | Locked(since: nat)
    | InCall(since: nat, used: nat)
    | Unlocking(since: nat, used: nat, result: Option<Error>)
    | Reporting(since: nat, used: nat, result: Option<Error>)
    | Reported(since: nat, used: nat, result: Option<Error>)
    | WantsLock(sender: AzSender)
    | HoldsLock(sender: AzSender)
    | Assigned(sender: AzSender, version: nat)
    | Swapped(sender: AzSender, version: nat)

  /** The caller of a raced call: SendMessage or sendBatch in its select, and the case it took. */
  datatype Waiter = Waiting | GotResult(received: Option<Error>) | GaveUp(cause: Cause)

  /** A call is raced if it has a waiter; newMessageBatch and AzSender have none. */
  datatype State = State(
    installed: seq<AzSender>, readers: set<nat>, writer: Option<nat>,
    threads: map<nat, Thread>, waiters: map<nat, Waiter>)

  function Init(sender: AzSender): State {
    State([sender], {}, None, map[], map[])
  }

  function Current(s: State): int {
    |s.installed| - 1
  }

  function Put(s: State, t: nat, th: Thread): State {
    s.(threads := s.threads[t := th])
  }

  predicate Begin(s: State, s': State, t: nat) {
    && t !in s.threads && s.installed != []
    && (|| s' == Put(s, t, Starting(Current(s)))
        || s' == Put(s, t, Starting(Current(s))).(waiters := s.waiters[t := Waiting])
        || (t in s'.threads && s'.threads[t].WantsLock? && s' == Put(s, t, s'.threads[t])))
  }

  /** Thread t takes its next step. */
  predicate Advance(s: State, s': State, t: nat) {
    && t in s.threads
    && match s.threads[t]
       case Starting(since) => s.writer.None? && s' == Put(s, t, Locked(since)).(readers := s.readers + {t})
       case Locked(since) => s.installed != [] && s' == Put(s, t, InCall(since, Current(s)))
       case InCall(since, used) =>
         // the underlying call returns nil or any error
         && t in s'.threads && s'.threads[t].Unlocking?
         && s' == Put(s, t, Unlocking(since, used, s'.threads[t].result))
       case Unlocking(since, used, result) =>
         s' == Put(s, t, Reporting(since, used, result)).(readers := s.readers - {t})
       case Reporting(since, used, result) =>
         // an unbuffered send completes only together with a receive
         if t in s.waiters
         then && s.waiters[t].Waiting?
              && s' == Put(s, t, Reported(since, used, result)).(waiters := s.waiters[t := GotResult(result)])
         else s' == Put(s, t, Reported(since, used, result))
       case Reported(_, _, _) => false
       case WantsLock(sender) =>
         s.writer.None? && s.readers == {} && s' == Put(s, t, HoldsLock(sender)).(writer := Some(t))
       case HoldsLock(sender) =>
         s' == Put(s, t, Assigned(sender, |s.installed|)).(installed := s.installed + [sender])
       case Assigned(sender, version) => s' == Put(s, t, Swapped(sender, version)).(writer := None)
       case Swapped(_, _) => false
  }

  /** The context of raced call t ends, and its waiter returns without the result. */
  predicate GiveUp(s: State, s': State, t: nat) {
    && t in s.waiters && s.waiters[t].Waiting?
    && t in s'.waiters && s'.waiters[t].GaveUp? && s' == s.(waiters := s.waiters[t := s'.waiters[t]])
  }

  predicate StepOf(s: State, s': State, t: nat) {
    Begin(s, s', t) || Advance(s, s', t) || GiveUp(s, s', t)
  }

  ghost predicate Step(s: State, s': State) {
    exists t: nat :: StepOf(s, s', t)
  }

  ghost predicate StepAt(r: seq<State>, i: nat)
    requires i + 1 < |r|
  {
    Step(r[i], r[i + 1])
  }

  /** A path of steps from any state. */
  ghost predicate IsPath(r: seq<State>) {
    |r| > 0 && forall i :: 0 <= i < |r| - 1 ==> StepAt(r, i)
  }

  ghost predicate IsRun(r: seq<State>) {
    IsPath(r) && exists sender :: r[0] == Init(sender)
  }

  lemma Join(r1: seq<State>, r2: seq<State>, t: nat)
    requires IsPath(r1) && IsPath(r2) && StepOf(r1[|r1| - 1], r2[0], t)
    ensures IsPath(r1 + r2)
  {
    var r := r1 + r2;
    forall i | 0 <= i < |r| - 1 ensures StepAt(r, i) {
      if i < |r1| - 1 {
        assert StepAt(r1, i);
      } else if i >= |r1| {
        assert StepAt(r2, i - |r1|);
      }
    }
  }

  // ---------- the inductive invariant ----------

  predicate HoldsRead(th: Thread) {
    th.Locked? || th.InCall? || th.Unlocking?
  }

  predicate HoldsWrite(th: Thread) {
    th.HoldsLock? || th.Assigned?
  }

  predicate IsCall(th: Thread) {
    th.Starting? || th.Locked? || HasUsed(th)
  }

  predicate HasUsed(th: Thread) {
    th.InCall? || th.Unlocking? || th.Reporting? || th.Reported?
  }

  predicate ThreadInv(s: State, t: nat)
    requires t in s.threads
  {
    var th := s.threads[t];
    && (HoldsRead(th) <==> t in s.readers)
    && (HoldsWrite(th) <==> s.writer == Some(t))
    && (IsCall(th) ==> th.since <= Current(s))
    && (HasUsed(th) ==> th.since <= th.used <= Current(s))
    && (th.InCall? || th.Unlocking? ==> th.used == Current(s))
    && (th.Assigned? || th.Swapped? ==> th.version <= Current(s) && s.installed[th.version] == th.sender)
    && (t in s.waiters ==> IsCall(th) && (th.Reported? <==> s.waiters[t].GotResult?))
    && (t in s.waiters && th.Reported? ==> s.waiters[t].received == th.result)
  }

  predicate Shape(s: State) {
    && s.installed != []
    && (s.writer.Some? ==> s.readers == {} && s.writer.value in s.threads)
    && s.readers <= s.threads.Keys
    && s.waiters.Keys <= s.threads.Keys
  }

  predicate Inv(s: State) {
    Shape(s) && forall t :: t in s.threads ==> ThreadInv(s, t)
  }

  lemma AdvanceKeepsShape(s: State, s': State, t: nat)
    requires Shape(s) && Advance(s, s', t) && ThreadInv(s, t)
    ensures Shape(s') && s'.threads.Keys == s.threads.Keys
  {
  }

  lemma AdvanceKeepsOwn(s: State, s': State, t: nat)
    requires Shape(s) && Advance(s, s', t) && ThreadInv(s, t)
    ensures t in s'.threads && ThreadInv(s', t)
  {
  }

  /** What a step of t leaves alone in another thread u. */
  ghost predicate Framed(s: State, s': State, u: nat) {
    && u in s.threads && u in s'.threads && s'.threads[u] == s.threads[u]
    && (u in s'.readers <==> u in s.readers)
    && (s'.writer == Some(u) <==> s.writer == Some(u))
    && (u in s'.waiters <==> u in s.waiters) && (u in s.waiters ==> s'.waiters[u] == s.waiters[u])
    && s.installed <= s'.installed && (s.installed != s'.installed ==> u !in s.readers)
  }

  lemma AdvanceFrames(s: State, s': State, t: nat, u: nat)
    requires Shape(s) && Advance(s, s', t) && ThreadInv(s, t) && u != t && u in s.threads
    ensures Framed(s, s', u)
  {
  }

  lemma AdvanceKeepsOther(s: State, s': State, u: nat)
    requires Framed(s, s', u) && ThreadInv(s, u)
    ensures ThreadInv(s', u)
  {
  }

  lemma BeginKeepsInv(s: State, s': State, t: nat)
    requires Inv(s) && Begin(s, s', t)
    ensures Inv(s')
  {
    forall u | u in s'.threads ensures ThreadInv(s', u) {
      if u != t {
        assert ThreadInv(s, u);
      }
    }
  }

  lemma StepKeepsInv(s: State, s': State, t: nat)
    requires Inv(s) && StepOf(s, s', t)
    ensures Inv(s')
  {
    if Begin(s, s', t) {
      BeginKeepsInv(s, s', t);
    } else if Advance(s, s', t) {
      AdvanceKeepsShape(s, s', t);
      forall u | u in s'.threads ensures ThreadInv(s', u) {
        if u == t {
          AdvanceKeepsOwn(s, s', t);
        } else {
          AdvanceFrames(s, s', t, u);
          AdvanceKeepsOther(s, s', u);
        }
      }
    } else {
      forall u | u in s'.threads ensures ThreadInv(s', u) {
        assert ThreadInv(s, u);
      }
    }
  }

  lemma {:induction false} PathInv(r: seq<State>, n: nat)
    requires IsPath(r) && Inv(r[0]) && n < |r|
    ensures Inv(r[n])
  {
    if n == 0 {
    } else {
      PathInv(r, n - 1);
      assert StepAt(r, n - 1);
      var t: nat :| StepOf(r[n - 1], r[n], t);
      StepKeepsInv(r[n - 1], r[n], t);
    }
  }

  lemma ReachableInv(r: seq<State>, n: nat)
    requires IsRun(r) && n < |r|
    ensures Inv(r[n])
  {
    PathInv(r, n);
  }

  // ---------- what a thread carries with it ----------

  predicate HasResult(th: Thread) {
    th.Unlocking? || th.Reporting? || th.Reported?
  }

  predicate IsSwap(th: Thread) {
    th.WantsLock? || th.HoldsLock? || th.Assigned? || th.Swapped?
  }

  /** Later states of a thread keep the version it began and read at, the result its underlying call returned, or the
      sender it was to install. */
  predicate Carries(th: Thread, th': Thread) {
    && (IsCall(th) ==> IsCall(th') && th'.since == th.since)
    && (HasUsed(th) ==> HasUsed(th') && th'.used == th.used)
    && (HasResult(th) ==> HasResult(th') && th'.result == th.result)
    && (IsSwap(th) ==> IsSwap(th') && th'.sender == th.sender)
    && (th.Assigned? || th.Swapped? ==> (th'.Assigned? || th'.Swapped?) && th'.version == th.version)
    && (th.Reported? || th.Swapped? ==> th' == th)
  }

  /** A step of another thread or waiter leaves thread t as it is. */
  lemma OtherStepFrames(s: State, s': State, u: nat, t: nat)
    requires StepOf(s, s', u) && (u != t || GiveUp(s, s', u))
    ensures t in s'.threads <==> t in s.threads
    ensures t in s.threads ==> s'.threads[t] == s.threads[t]
    ensures t in s.waiters && !s.waiters[t].Waiting? ==> t in s'.waiters && s'.waiters[t] == s.waiters[t]
  {
    if GiveUp(s, s', u) {
    } else if Begin(s, s', u) {
      assert s'.threads == s.threads[u := s'.threads[u]];
    } else {
      assert u in s'.threads && s'.threads == s.threads[u := s'.threads[u]];
    }
  }

  /** A result appears only when the underlying call returns. */
  lemma OwnStepCarries(s: State, s': State, t: nat)
    requires Advance(s, s', t)
    ensures t in s'.threads && Carries(s.threads[t], s'.threads[t])
    ensures t in s.waiters && !s.waiters[t].Waiting? ==> t in s'.waiters && s'.waiters[t] == s.waiters[t]
    ensures HasResult(s'.threads[t]) && !HasResult(s.threads[t]) ==> s.threads[t].InCall? && s'.threads[t].Unlocking?
  {
  }

  lemma StepCarries(s: State, s': State, u: nat, t: nat)
    requires Shape(s) && StepOf(s, s', u) && t in s.threads
    ensures t in s'.threads && Carries(s.threads[t], s'.threads[t])
    ensures t in s.waiters && !s.waiters[t].Waiting? ==> t in s'.waiters && s'.waiters[t] == s.waiters[t]
  {
    if u == t && Advance(s, s', u) {
      OwnStepCarries(s, s', t);
    } else {
      OtherStepFrames(s, s', u, t);
    }
  }

  lemma ResultAppearsByReturn(s: State, s': State, u: nat, t: nat)
    requires Shape(s) && StepOf(s, s', u) && t in s'.threads && HasResult(s'.threads[t])
    ensures t in s.threads
    ensures HasResult(s.threads[t]) || (s.threads[t].InCall? && s'.threads[t].Unlocking?)
  {
    if u == t && Advance(s, s', u) {
      OwnStepCarries(s, s', t);
    } else if u != t || GiveUp(s, s', u) {
      OtherStepFrames(s, s', u, t);
    }
  }

  /** What the underlying call returned is what its goroutine reports, whatever happens in between; the sender a swap was called
      with is the one it installs; and a caller that has returned does not change its mind. */
  lemma {:induction false} ThreadsCarryTheirResults(r: seq<State>, k: nat, n: nat, t: nat)
    requires IsRun(r) && k <= n < |r| && t in r[k].threads
    ensures t in r[n].threads && Carries(r[k].threads[t], r[n].threads[t])
    ensures t in r[k].waiters && !r[k].waiters[t].Waiting? ==> t in r[n].waiters && r[n].waiters[t] == r[k].waiters[t]
    decreases n
  {
    if k == n {
    } else {
      ThreadsCarryTheirResults(r, k, n - 1, t);
      ReachableInv(r, n - 1);
      assert StepAt(r, n - 1);
      var u: nat :| StepOf(r[n - 1], r[n], u);
      StepCarries(r[n - 1], r[n], u, t);
    }
  }

  /** The underlying call of t returns `result` with the step after index k. */
  predicate CallReturnsAt(r: seq<State>, k: nat, t: nat, result: Option<Error>)
    requires k + 1 < |r|
  {
    && t in r[k].threads && r[k].threads[t].InCall?
    && t in r[k + 1].threads && r[k + 1].threads[t].Unlocking? && r[k + 1].threads[t].result == result
  }

  /** Every goroutine that has a result got it from its underlying call. */
  lemma {:induction false} ResultComesFromTheCall(r: seq<State>, n: nat, t: nat) returns (k: nat)
    requires IsRun(r) && n < |r| && t in r[n].threads && HasResult(r[n].threads[t])
    ensures k < n && CallReturnsAt(r, k, t, r[n].threads[t].result)
  {
    if n == 0 {
      assert false;
    } else {
      ReachableInv(r, n - 1);
      assert StepAt(r, n - 1);
      var u: nat :| StepOf(r[n - 1], r[n], u);
      ResultAppearsByReturn(r[n - 1], r[n], u, t);
      if HasResult(r[n - 1].threads[t]) {
        StepCarries(r[n - 1], r[n], u, t);
        k := ResultComesFromTheCall(r, n - 1, t);
      } else {
        k := n - 1;
      }
    }
  }

  // ---------- swaps and calls ----------

  /** No swap takes effect during an underlying call: when the installed sender changes, no call is in
      progress and no read lock is held. */
  lemma SwapNeverOverlapsACall(r: seq<State>, n: nat)
    requires IsRun(r) && n + 1 < |r| && r[n].installed != r[n + 1].installed
    ensures r[n].readers == {} && forall t :: t in r[n].threads ==> !r[n].threads[t].InCall?
    ensures r[n].installed <= r[n + 1].installed && |r[n + 1].installed| == |r[n].installed| + 1
  {
    ReachableInv(r, n);
    assert StepAt(r, n);
    var t: nat :| StepOf(r[n], r[n + 1], t);
    assert ThreadInv(r[n], t);
    forall u | u in r[n].threads ensures !r[n].threads[u].InCall? {
      assert ThreadInv(r[n], u);
    }
  }

  /** A call in progress uses the sender that is installed at that moment, all through the call. */
  lemma CallUsesInstalledSender(r: seq<State>, n: nat, t: nat)
    requires IsRun(r) && n < |r| && t in r[n].threads && r[n].threads[t].InCall?
    ensures r[n].threads[t].used == Current(r[n]) && t in r[n].readers && r[n].writer.None?
  {
    ReachableInv(r, n);
    assert ThreadInv(r[n], t);
  }

  lemma {:induction false} VersionsGrow(r: seq<State>, k: nat, n: nat)
    requires IsRun(r) && k <= n < |r|
    ensures r[k].installed <= r[n].installed
    decreases n
  {
    if k == n {
    } else {
      VersionsGrow(r, k, n - 1);
      assert StepAt(r, n - 1);
      var t: nat :| StepOf(r[n - 1], r[n], t);
    }
  }

  lemma {:induction false} BeganSince(r: seq<State>, k: nat, n: nat, u: nat)
    requires IsRun(r) && k <= n < |r| && u !in r[k].threads
    ensures u in r[n].threads && IsCall(r[n].threads[u]) ==> r[n].threads[u].since >= Current(r[k])
    decreases n
  {
    if k == n {
    } else {
      BeganSince(r, k, n - 1, u);
      VersionsGrow(r, k, n - 1);
      assert StepAt(r, n - 1);
      var t: nat :| StepOf(r[n - 1], r[n], t);
    }
  }

  /** Once SetAzSender has returned, every call that begins afterwards uses that sender or a later one. */
  lemma CallsAfterSwapUseItOrLater(r: seq<State>, k: nat, n: nat, t: nat, u: nat)
    requires IsRun(r) && k <= n < |r|
    requires t in r[k].threads && r[k].threads[t].Swapped?
    requires u !in r[k].threads && u in r[n].threads && HasUsed(r[n].threads[u])
    ensures var v := r[k].threads[t].version;
            && v <= r[n].threads[u].used < |r[n].installed|
            && r[n].installed[v] == r[k].threads[t].sender
  {
    ReachableInv(r, k);
    ReachableInv(r, n);
    assert ThreadInv(r[k], t) && ThreadInv(r[n], u);
    VersionsGrow(r, k, n);
    BeganSince(r, k, n, u);
  }

  /** A swap takes effect with the step after index m. */
  predicate CommitsAt(r: seq<State>, m: nat)
    requires m + 1 < |r|
  {
    r[m].installed != r[m + 1].installed
  }

  /** Two calls of one operation, say the creation of a batch at i and its sending at j, use the same sender version
      if and only if no swap takes effect between them. */
  lemma SameSenderIffNoSwapBetween(r: seq<State>, i: nat, j: nat, a: nat, b: nat)
    requires IsRun(r) && i <= j < |r|
    requires a in r[i].threads && r[i].threads[a].InCall? && b in r[j].threads && r[j].threads[b].InCall?
    ensures r[i].threads[a].used == r[j].threads[b].used <==> forall m :: i <= m < j ==> !CommitsAt(r, m)
  {
    CallUsesInstalledSender(r, i, a);
    CallUsesInstalledSender(r, j, b);
    VersionsGrow(r, i, j);
    if r[i].installed == r[j].installed {
      forall m | i <= m < j ensures !CommitsAt(r, m) {
        VersionsGrow(r, i, m);
        VersionsGrow(r, m, m + 1);
        VersionsGrow(r, m + 1, j);
      }
    } else {
      var m := FindCommit(r, i, j);
      assert CommitsAt(r, m);
    }
  }

  lemma {:induction false} FindCommit(r: seq<State>, i: nat, j: nat) returns (m: nat)
    requires i <= j < |r| && r[i].installed != r[j].installed
    ensures i <= m < j && CommitsAt(r, m)
    decreases j - i
  {
    if r[j - 1].installed == r[i].installed {
      m := j - 1;
    } else {
      m := FindCommit(r, i, j - 1);
    }
  }

  lemma Extend(r: seq<State>, s: State, t: nat) returns (r': seq<State>)
    requires IsRun(r) && StepOf(r[|r| - 1], s, t)
    ensures IsRun(r') && r' == r + [s]
  {
    Join(r, [s], t);
    r' := r + [s];
  }

  /** Thread t's complete direct call, which returns nil. */
  lemma DirectCall(sender: AzSender, t: nat) returns (r: seq<State>)
    ensures IsRun(r) && |r| == 7 && t in r[3].threads && r[3].threads[t] == InCall(0, 0)
    ensures r[6] == Put(Init(sender), t, Reported(0, 0, None))
  {
    var s := Init(sender);
    r := [s];
    r := Extend(r, Put(s, t, Starting(0)), t);
    r := Extend(r, Put(s, t, Locked(0)).(readers := {t}), t);
    r := Extend(r, Put(s, t, InCall(0, 0)).(readers := {t}), t);
    r := Extend(r, Put(s, t, Unlocking(0, 0, None)).(readers := {t}), t);
    r := Extend(r, Put(s, t, Reporting(0, 0, None)), t);
    r := Extend(r, Put(s, t, Reported(0, 0, None)), t);
  }

  /** A complete swap to sender b, by thread t, after a run in which no lock is held. */
  lemma CompleteSwap(r: seq<State>, b: AzSender, t: nat) returns (r': seq<State>)
    requires IsRun(r)
    requires var s := r[|r| - 1]; t !in s.threads && s.writer.None? && s.readers == {} && s.installed != []
    ensures IsRun(r') && |r'| == |r| + 4 && r <= r'
    ensures var s := r[|r| - 1];
            r'[|r'| - 1] == Put(s, t, Swapped(b, |s.installed|)).(installed := s.installed + [b])
  {
    var s := r[|r| - 1];
    var grown := s.installed + [b];
    r' := Extend(r, Put(s, t, WantsLock(b)), t);
    r' := Extend(r', Put(s, t, HoldsLock(b)).(writer := Some(t)), t);
    r' := Extend(r', Put(s, t, Assigned(b, |s.installed|)).(writer := Some(t), installed := grown), t);
    r' := Extend(r', Put(s, t, Swapped(b, |s.installed|)).(installed := grown), t);
  }

  /** The two calls of one operation can use different senders: a batch is created by one sender and, after a swap,
      sent by another. */
  lemma OperationCanSpanASwap(a: AzSender, b: AzSender) returns (r: seq<State>, i: nat, j: nat)
    ensures IsRun(r) && i < j < |r|
    ensures 0 in r[i].threads && r[i].threads[0] == InCall(0, 0)
    ensures 0 in r[j].threads && r[j].threads[0].Reported?
    ensures 2 in r[j].threads && r[j].threads[2] == InCall(1, 1) && 2 in r[j].waiters
  {
    r := DirectCall(a, 0);
    r := CompleteSwap(r, b, 1);
    var s := r[10];
    var w := map[2 := Waiting];
    r := Extend(r, Put(s, 2, Starting(1)).(waiters := w), 2);
    r := Extend(r, Put(s, 2, Locked(1)).(waiters := w, readers := {2}), 2);
    r := Extend(r, Put(s, 2, InCall(1, 1)).(waiters := w, readers := {2}), 2);
    i, j := 3, 13;
  }

  // ---------- the race between a send and its context ----------

  predicate Abandoned(s: State, t: nat) {
    t in s.waiters && s.waiters[t].GaveUp?
  }

  /** What the caller of raced call t has seen of it, once it returned. */
  function OutcomeOf(w: Waiter): Option<SendOutcome> {
    match w
    case Waiting => None
    case GotResult(None) => Some(SendOutcome.Confirmed)
    case GotResult(Some(e)) => Some(SendOutcome.Rejected(e))
    case GaveUp(ByCancel) => Some(SendOutcome.Abandoned(Canceled))
    case GaveUp(ByDeadline) => Some(SendOutcome.Abandoned(DeadlineExceeded))
  }

  /** The underlying call of t has returned `result` before index n. */
  ghost predicate HadReturned(r: seq<State>, n: nat, t: nat, result: Option<Error>)
    requires n < |r|
  {
    exists k :: 0 <= k < n && CallReturnsAt(r, k, t, result)
  }

  /** The result of the underlying call, as it returned, reached the caller of t. */
  ghost predicate Delivered(r: seq<State>, n: nat, t: nat, result: Option<Error>)
    requires n < |r|
  {
    HadReturned(r, n, t, result) && t in r[n].threads && r[n].threads[t].Reported?
  }

  lemma DeliveredIsTheResult(r: seq<State>, n: nat, t: nat, result: Option<Error>)
    requires IsRun(r) && n < |r| && t in r[n].threads && r[n].threads[t].Reported?
    ensures Delivered(r, n, t, result) <==> r[n].threads[t].result == result
  {
    var k := ResultComesFromTheCall(r, n, t);
    if j :| 0 <= j < n && CallReturnsAt(r, j, t, result) {
      ThreadsCarryTheirResults(r, j + 1, n, t);
    }
  }

  /** A caller that has returned: it returned nil if and only if the underlying call returned nil and that result was delivered; it
      saw a rejection with e if and only if the call returned e and that was delivered; and otherwise it returned the error
      of its context, whatever the underlying call did or will do. */
  lemma CallerReturnsNilIffNilWasDelivered(r: seq<State>, n: nat, t: nat, e: Error)
    requires IsRun(r) && n < |r| && t in r[n].waiters && !r[n].waiters[t].Waiting?
    ensures OutcomeOf(r[n].waiters[t]).Some?
    ensures var o := OutcomeOf(r[n].waiters[t]).value;
            && (o.Returned().None? <==> Delivered(r, n, t, None))
            && (o == SendOutcome.Rejected(e) <==> Delivered(r, n, t, Some(e)))
            && (o == SendOutcome.Abandoned(e)
                <==> r[n].waiters[t].GaveUp? && Ended(r[n].waiters[t].cause).Err() == Some(e))
            && (o.Returned() == Some(e) <==> o == SendOutcome.Rejected(e) || o == SendOutcome.Abandoned(e))
  {
    ReachableInv(r, n);
    assert ThreadInv(r[n], t);
    if r[n].threads[t].Reported? {
      DeliveredIsTheResult(r, n, t, None);
      DeliveredIsTheResult(r, n, t, Some(e));
    }
  }

  /** The caller has received a result exactly when the goroutine delivered it, and it is what the underlying call returned. */
  lemma RaceHasOneWinner(r: seq<State>, n: nat, t: nat)
    requires IsRun(r) && n < |r| && t in r[n].waiters
    ensures t in r[n].threads && (r[n].waiters[t].GotResult? <==> r[n].threads[t].Reported?)
    ensures forall result :: r[n].waiters[t] == GotResult(result) <==> Delivered(r, n, t, result)
  {
    ReachableInv(r, n);
    assert ThreadInv(r[n], t);
    forall result ensures r[n].waiters[t] == GotResult(result) <==> Delivered(r, n, t, result) {
      if r[n].threads[t].Reported? {
        DeliveredIsTheResult(r, n, t, result);
      }
    }
  }

  /** Thread t's raced call up to the return of the underlying call with the given result. */
  lemma RacedCall(sender: AzSender, t: nat, result: Option<Error>) returns (r: seq<State>)
    ensures IsRun(r) && |r| == 5 && CallReturnsAt(r, 3, t, result)
    ensures r[4] == Put(Init(sender), t, Unlocking(0, 0, result)).(readers := {t}, waiters := map[t := Waiting])
  {
    var s := Init(sender);
    var w := map[t := Waiting];
    r := [s];
    r := Extend(r, Put(s, t, Starting(0)).(waiters := w), t);
    r := Extend(r, Put(s, t, Locked(0)).(readers := {t}, waiters := w), t);
    r := Extend(r, Put(s, t, InCall(0, 0)).(readers := {t}, waiters := w), t);
    r := Extend(r, Put(s, t, Unlocking(0, 0, result)).(readers := {t}, waiters := w), t);
  }

  /** A context error says nothing about the fate of the message: for every result of the underlying call, nil included,
      and for either context error, there is a run in which the call returned that result and
      the caller nevertheless reported the context error. */
  lemma ContextErrorLeavesFateUnknown(sender: AzSender, t: nat, result: Option<Error>, cause: Cause)
    returns (r: seq<State>)
    ensures IsRun(r) && var s := r[|r| - 1];
            && t in s.threads && s.threads[t].Reporting?
            && t in s.waiters && s.waiters[t] == GaveUp(cause) && Abandoned(s, t)
    ensures HadReturned(r, |r| - 1, t, result)
  {
    r := RacedCall(sender, t, result);
    var s := Init(sender);
    var w := map[t := Waiting];
    r := Extend(r, Put(s, t, Reporting(0, 0, result)).(waiters := w), t);
    r := Extend(r, Put(s, t, Reporting(0, 0, result)).(waiters := w[t := GaveUp(cause)]), t);
    assert CallReturnsAt(r, 3, t, result);
  }

  /** Every outcome that the batch sender reckons with is the outcome of some race. */
  lemma EveryOutcomeOccurs(o: SendOutcome, t: nat) returns (r: seq<State>)
    requires o.Abandoned? ==> IsContextError(o.err)
    ensures IsRun(r) && t in r[|r| - 1].waiters && OutcomeOf(r[|r| - 1].waiters[t]) == Some(o)
  {
    if o.Abandoned? {
      r := ContextErrorLeavesFateUnknown(0, t, None, if o.err.Canceled? then ByCancel else ByDeadline);
    } else {
      var result := o.Returned();
      r := RacedCall(0, t, result);
      var s := Init(0);
      var w := map[t := Waiting];
      r := Extend(r, Put(s, t, Reporting(0, 0, result)).(waiters := w), t);
      r := Extend(r, Put(s, t, Reported(0, 0, result)).(waiters := w[t := GotResult(result)]), t);
    }
  }

  // ---------- abandoned sends ----------

  /** A goroutine abandoned when the context ended holds no read lock once its underlying call has returned
      and its deferred unlock ran, so it does not hold up a swap. */
  lemma AbandonedSendHoldsNoLock(r: seq<State>, n: nat, t: nat)
    requires IsRun(r) && n < |r| && Abandoned(r[n], t)
    ensures t in r[n].threads && (t in r[n].readers <==> HoldsRead(r[n].threads[t]))
    ensures r[n].threads[t].Reporting? ==> t !in r[n].readers
  {
    ReachableInv(r, n);
    assert ThreadInv(r[n], t);
  }

  lemma {:induction false} AbandonedStays(r: seq<State>, n: nat, t: nat)
    requires IsPath(r) && Inv(r[0]) && Abandoned(r[0], t) && n < |r|
    ensures Abandoned(r[n], t) && t in r[n].threads && !r[n].threads[t].Reported?
  {
    PathInv(r, n);
    if n == 0 {
      assert ThreadInv(r[0], t);
    } else {
      AbandonedStays(r, n - 1, t);
      PathInv(r, n - 1);
      assert StepAt(r, n - 1);
      var u: nat :| StepOf(r[n - 1], r[n], u);
      StepKeepsAbandoned(r[n - 1], r[n], u, t);
      assert ThreadInv(r[n], t);
    }
  }

  lemma StepKeepsAbandoned(s: State, s': State, u: nat, t: nat)
    requires Shape(s) && StepOf(s, s', u) && Abandoned(s, t)
    ensures Abandoned(s', t)
  {
  }

  /** An abandoned goroutine never ends: its result has no receiver, so once it waits on the channel it does so forever. */
  lemma {:induction false} AbandonedSendNeverEnds(r: seq<State>, k: nat, n: nat, t: nat)
    requires IsRun(r) && k <= n < |r| && Abandoned(r[k], t)
    ensures Abandoned(r[n], t) && t in r[n].threads && !r[n].threads[t].Reported?
    ensures t in r[k].threads && (r[k].threads[t].Reporting? ==> r[n].threads[t] == r[k].threads[t])
    decreases n
  {
    ReachableInv(r, k);
    if k == n {
      assert ThreadInv(r[k], t);
    } else {
      AbandonedSendNeverEnds(r, k, n - 1, t);
      ReachableInv(r, n - 1);
      ReachableInv(r, n);
      assert StepAt(r, n - 1);
      var u: nat :| StepOf(r[n - 1], r[n], u);
      StepKeepsAbandoned(r[n - 1], r[n], u, t);
      assert ThreadInv(r[n], t);
      if u != t && Advance(r[n - 1], r[n], u) {
        assert ThreadInv(r[n - 1], u);
        AdvanceFrames(r[n - 1], r[n], u, t);
      }
    }
  }

  /** The goroutine of a raced call can deliver its result exactly as long as its caller has not given up. */
  lemma CanReportIffNotAbandoned(r: seq<State>, n: nat, t: nat)
    requires IsRun(r) && n < |r| && t in r[n].waiters && t in r[n].threads && r[n].threads[t].Reporting?
    ensures (exists s' :: Advance(r[n], s', t)) <==> !Abandoned(r[n], t)
  {
    ReachableInv(r, n);
    assert ThreadInv(r[n], t);
    var s := r[n];
    var th := s.threads[t];
    if !Abandoned(s, t) {
      var s' := Put(s, t, Reported(th.since, th.used, th.result)).(waiters := s.waiters[t := GotResult(th.result)]);
      assert Advance(s, s', t);
    }
  }

  /** Steps until raced call t is reported, counting those of a swap that keeps it from its read lock. */
  function StepsToReport(s: State, t: nat): nat
    requires t in s.threads
  {
    match s.threads[t]
    case Starting(_) =>
      5 + (if s.writer.Some? && s.writer.value in s.threads
           then if s.threads[s.writer.value].HoldsLock? then 2 else 1 else 0)
    case Locked(_) => 4
    case InCall(_, _) => 3
    case Unlocking(_, _, _) => 2
    case Reporting(_, _, _) => 1
    case _ => 0
  }

  /** One step towards the report: of the swap in the way, if there is one, and otherwise of the call itself. */
  lemma {:induction false} StepTowardsReport(s: State, t: nat) returns (s': State, u: nat)
    requires Inv(s) && t in s.waiters && t in s.threads && !Abandoned(s, t) && !s.threads[t].Reported?
    ensures StepOf(s, s', u) && t in s'.waiters && t in s'.threads && !Abandoned(s', t)
    ensures StepsToReport(s', t) < StepsToReport(s, t)
  {
    assert ThreadInv(s, t);
    var th := s.threads[t];
    u := t;
    match th
    case Starting(since) =>
      if s.writer.Some? {
        u := s.writer.value;
        assert ThreadInv(s, u);
        var swap := s.threads[u];
        s' := if swap.HoldsLock? then Put(s, u, Assigned(swap.sender, |s.installed|)).(installed := s.installed + [swap.sender])
              else Put(s, u, Swapped(swap.sender, swap.version)).(writer := None);
      } else {
        s' := Put(s, t, Locked(since)).(readers := s.readers + {t});
      }
    case Locked(since) => s' := Put(s, t, InCall(since, Current(s)));
    case InCall(since, used) => s' := Put(s, t, Unlocking(since, used, None));
    case Unlocking(since, used, result) => s' := Put(s, t, Reporting(since, used, result)).(readers := s.readers - {t});
    case Reporting(since, used, result) =>
      s' := Put(s, t, Reported(since, used, result)).(waiters := s.waiters[t := GotResult(result)]);
    assert Advance(s, s', u);
  }

  /** Path p leads from s to a state in which call t has delivered its result and ended. */
  ghost predicate LeadsToReport(p: seq<State>, s: State, t: nat) {
    IsPath(p) && p[0] == s && t in p[|p| - 1].threads && p[|p| - 1].threads[t].Reported?
  }

  lemma {:induction false} PathToReport(s: State, t: nat) returns (r: seq<State>)
    requires Inv(s) && t in s.waiters && t in s.threads && !Abandoned(s, t)
    ensures LeadsToReport(r, s, t)
    decreases StepsToReport(s, t)
  {
    if s.threads[t].Reported? {
      r := [s];
    } else {
      var s', u := StepTowardsReport(s, t);
      StepKeepsInv(s, s', u);
      var rest := PathToReport(s', t);
      Join([s], rest, u);
      r := [s] + rest;
    }
  }

  /** The goroutine of a raced call can still end, in some continuation, if and only if its caller has not given up:
      an abandoned one waits on its unbuffered channel forever. */
  lemma SendCanEndIffNotAbandoned(r: seq<State>, n: nat, t: nat)
    requires IsRun(r) && n < |r| && t in r[n].waiters
    ensures !Abandoned(r[n], t)
            <==> exists p :: LeadsToReport(p, r[n], t)
  {
    ReachableInv(r, n);
    if !Abandoned(r[n], t) {
      var p := PathToReport(r[n], t);
    } else if p :| LeadsToReport(p, r[n], t) {
      AbandonedStays(p, |p| - 1, t);
    }
  }
}
