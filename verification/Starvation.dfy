/** What a blocked stop call means for the message pump. The pump and the life of each message are observed together: the
    i-th handler of the pump is the handler goroutine of the i-th message's run of the renewal protocol. */
module Starvation {
  import Pump
  import P = RenewalProtocol

  /** runs(i) is the life of the i-th started message, and pos(i, n) how far it has come when the pump is in its n-th state. */
  ghost predicate Observes(c: P.Config, r: seq<Pump.State>, runs: nat -> seq<P.State>, pos: (nat, nat) -> nat, i: nat) {
    && P.IsRun(c, runs(i))
    && (forall n: nat :: pos(i, n) < |runs(i)|)
    && (forall k: nat, n: nat :: k <= n ==> pos(i, k) <= pos(i, n))
    && (forall n: nat :: n < |r| && i < |r[n].handlers| ==> TokenAgrees(r[n], runs(i)[pos(i, n)], i))
  }

  /** The pump counts the handler's token as held exactly until the handler goroutine releases it. */
  predicate TokenAgrees(s: Pump.State, m: P.State, i: nat)
    requires i < |s.handlers|
  {
    Pump.HoldsToken(s.handlers[i]) <==> m.t.releases == 0
  }

  /** Once the stop calls of the handlers in `stuck` are blocked, they hold their tokens in every later state: from then on every
      loop receive asks for at most MaxConcurrency - |stuck| messages, and if every token is stuck, none is made. */
  lemma BlockedStopsStarveThePump(c: P.Config, o: Pump.Options, r: seq<Pump.State>, runs: nat -> seq<P.State>,
                                  pos: (nat, nat) -> nat, stuck: set<nat>, k: nat, n: nat)
    requires Pump.IsRun(o, r) && k <= n < |r|
    requires forall i :: i in stuck ==>
               Observes(c, r, runs, pos, i) && i < |r[k].handlers| && P.HandlerBlocked(runs(i)[pos(i, k)])
    ensures |stuck| <= r[n].tokens <= o.maxConcurrency
    ensures r[n].pump.Receiving? && !r[n].pump.initial ==> r[n].pump.asked <= o.maxConcurrency - |stuck|
    ensures |stuck| == o.maxConcurrency ==> !(r[n].pump.Receiving? && !r[n].pump.initial)
  {
    Pump.HandlerRunsPersist(o, r, k, n);
    forall i | i in stuck ensures i < |r[n].handlers| && Pump.HoldsToken(r[n].handlers[i]) {
      assert Observes(c, r, runs, pos, i);
      P.BlockedStopIsStuckForever(c, runs(i), pos(i, k), pos(i, n));
      assert TokenAgrees(r[n], runs(i)[pos(i, n)], i);
    }
    Pump.StuckHandlersShrinkReceives(o, r, n, stuck);
  }
}
