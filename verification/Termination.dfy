/**
 Calls that are under way finish or come to rest: a weighted sum over the threads falls with
 every step of the call bodies, so no run without new calls and spurious wake-ups is endless.
 */
module Termination {
  import opened Wrappers
  import opened AtomicQueue
  import opened Protocol
  import opened WakeUps

  /**
   The steps a thread may still cause, among `n` threads. A notify_one (3) pays for the
   sleeper it wakes (5 to 7); a notify_all (2n + 1) pays for all of them.
   */
  function Cost<T>(th: Thread<T>, n: nat): nat {
    match th
    case Idle => 0
    case Returned(_, _) => 0
    case In(c, pc) =>
      match pc
      case Want => if c.Close? then 4 * n + 5 else 7
      case Check => 6
      case Act => if c.Close? then 4 * n + 4 else 5
      case Unlock(_) => if c.Close? then 4 * n + 3 else 4
      case Notify(_) => 3
      case NotifyConsumers => 4 * n + 2
      case NotifyProducers => 2 * n + 1
      case Asleep => 5
      case Woken => 7
      case Expired => 2
      case Leave(_) => 1
  }

  function TotalCost<T>(ths: seq<Thread<T>>, n: nat): nat {
    if |ths| == 0 then 0 else Cost(ths[0], n) + TotalCost(ths[1..], n)
  }

  function Measure<T>(s: State<T>): nat { TotalCost(s.threads, |s.threads|) }

  lemma {:induction false} CostPut<T>(ths: seq<Thread<T>>, t: nat, th: Thread<T>, n: nat)
    requires t < |ths|
    ensures TotalCost(ths[t := th], n) == TotalCost(ths, n) - Cost(ths[t], n) + Cost(th, n)
  {
    if t == 0 {
      assert ths[t := th][1..] == ths[1..];
    } else {
      assert ths[t := th][1..] == ths[1..][t - 1 := th];
      CostPut(ths[1..], t - 1, th, n);
    }
  }

  lemma {:induction false} CostNothing<T>(ths: seq<Thread<T>>, n: nat)
    requires forall i :: 0 <= i < |ths| ==> !ths[i].In?
    ensures TotalCost(ths, n) == 0
  {
    if |ths| > 0 { CostNothing(ths[1..], n); }
  }

  /** Waking everybody costs at most two steps a thread. */
  lemma {:induction false} CostWakeAll<T>(ths: seq<Thread<T>>, side: Side, n: nat)
    ensures TotalCost(WakeAll(ths, side), n) <= TotalCost(ths, n) + 2 * |ths|
  {
    if |ths| > 0 { CostWakeAll(ths[1..], side, n); }
  }

  lemma {:induction false} MeasureNotifyAll<T>(s: State<T>, t: nat)
    requires Inv(s) && Enabled(s, NotifyAll(t))
    ensures Measure(AfterNotifyAll(s, t)) < Measure(s)
  {
    var n := |s.threads|;
    var In(c, pc) := s.threads[t];
    var th, side := if pc.NotifyConsumers? then In(c, NotifyProducers) else Returned(c, Unit),
                    if pc.NotifyConsumers? then Consumers else Producers;
    CostPut(s.threads, t, th, n);
    CostWakeAll(s.threads[t := th], side, n);
  }

  lemma {:induction false} MeasureNotifyOne<T>(s: State<T>, t: nat, w: Option<nat>)
    requires Inv(s) && Enabled(s, NotifyOne(t, w))
    ensures Measure(AfterNotifyOne(s, t, w)) < Measure(s)
  {
    var n, mid := |s.threads|, Put(s, t, Returned(s.threads[t].call, s.threads[t].pc.ret));
    CostPut(s.threads, t, mid.threads[t], n);
    if w.Some? { CostPut(mid.threads, w.value, mid.threads[w.value].(pc := Woken), n); }
  }

  /** A step that moves one thread makes that thread cheaper. */
  lemma {:induction false} CostFalls<T>(s: State<T>, a: Action<T>)
    requires Inv(s) && Enabled(s, a) && Internal(a) && !a.NotifyOne? && !a.NotifyAll?
    ensures var th := Apply(s, a).threads[a.t];
            Cost(th, |s.threads|) < Cost(s.threads[a.t], |s.threads|) && Apply(s, a).threads == s.threads[a.t := th]
  {
    assert ThreadOk(s.queue, s.threads[a.t]);
  }

  /** Every internal step, timeouts of both kinds included, lowers the measure. */
  lemma {:induction false} MeasureFalls<T>(s: State<T>, a: Action<T>)
    requires Inv(s) && Enabled(s, a) && Internal(a)
    ensures Measure(Apply(s, a)) < Measure(s)
  {
    if a.NotifyOne? {
      MeasureNotifyOne(s, a.t, a.woken);
    } else if a.NotifyAll? {
      MeasureNotifyAll(s, a.t);
    } else {
      CostFalls(s, a);
      CostPut(s.threads, a.t, Apply(s, a).threads[a.t], |s.threads|);
    }
  }

  predicate AllInternal<T>(run: seq<Action<T>>) { forall k :: 0 <= k < |run| ==> Internal(run[k]) }

  /** How many spurious wake-ups a run contains. */
  function SpuriousIn<T>(run: seq<Action<T>>): nat {
    if |run| == 0 then 0 else (if run[0].Spurious? then 1 else 0) + SpuriousIn(run[1..])
  }

  predicate NoNewCalls<T>(run: seq<Action<T>>) { forall k :: 0 <= k < |run| ==> !run[k].Begin? }

  /** A spurious wake-up costs no more than the two steps of going back to sleep. */
  lemma {:induction false} SpuriousCost<T>(s: State<T>, t: nat)
    requires Enabled(s, Spurious(t))
    ensures Measure(Apply(s, Spurious(t))) == Measure(s) + 2
  {
    CostPut(s.threads, t, s.threads[t].(pc := Woken), |s.threads|);
  }

  /** No run of the calls under way is longer than the starting measure, plus three for each spurious wake-up. */
  lemma {:induction false} RunsAreBounded<T>(s: State<T>, run: seq<Action<T>>)
    requires Inv(s) && Runs(s, run) && NoNewCalls(run)
    ensures |run| + Measure(End(s, run)) <= Measure(s) + 3 * SpuriousIn(run)
    decreases |run|
  {
    if |run| > 0 {
      assert !run[0].Begin?;
      if run[0].Spurious? { SpuriousCost(s, run[0].t); } else { MeasureFalls(s, run[0]); }
      InvStep(s, run[0]);
      RunsAreBounded(Apply(s, run[0]), run[1..]);
    }
  }

  /** From every state, the calls under way can be run until none of them can move. */
  lemma {:induction false} ReachesStuck<T(!new)>(s: State<T>) returns (run: seq<Action<T>>)
    requires Inv(s)
    ensures Runs(s, run) && AllInternal(run) && Stuck(End(s, run))
    decreases Measure(s)
  {
    run := [];
    if !Stuck(s) {
      var a: Action<T> :| Internal(a) && Enabled(s, a);
      MeasureFalls(s, a);
      InvStep(s, a);
      var rest := ReachesStuck(Apply(s, a));
      run := [a] + rest;
      assert run[1..] == rest;
    }
  }
}
