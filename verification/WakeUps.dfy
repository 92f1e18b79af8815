/**
 No lost wake-up: a counting invariant over every interleaving, and what it says about the
 states in which no thread can move any more.
 */
module WakeUps {
  import opened Wrappers
  import opened AtomicQueue
  import opened Protocol

  /** Roles a thread can play towards one condition variable. */
  datatype Role =
    | Sleeping(side: Side)    // asleep on it
    | Rechecking(side: Side)  // of that side, woken or already holding the mutex before its commit
    | Owing(side: Side)       // committed a push or pop and still owes this side a notify_one
    | Closing(side: Side)     // closed the queue and still owes this side a notify_all

  predicate Plays<T>(th: Thread<T>, role: Role) {
    th.In? &&
    match role
    case Sleeping(side) => th.pc.Asleep? && OnSide(th.call, side)
    case Rechecking(side) => (th.pc.Woken? || th.pc.Check? || th.pc.Act?) && OnSide(th.call, side)
    case Owing(side) => (th.pc.Unlock? || th.pc.Notify?) && Waits(th.call) && NotifiedSide(th.call) == side
    case Closing(side) =>
      th.call.Close? && (th.pc.Unlock? || th.pc.NotifyConsumers? || (side.Producers? && th.pc.NotifyProducers?))
  }

  function Weight<T>(th: Thread<T>, role: Role): nat { if Plays(th, role) then 1 else 0 }

  /** How many threads play the role. */
  function Number<T>(ths: seq<Thread<T>>, role: Role): nat {
    if |ths| == 0 then 0 else Weight(ths[0], role) + Number(ths[1..], role)
  }

  /** What a sleeper of the side waits for: items for consumers, free places for producers. */
  function Supply<T>(q: Queue<T>, side: Side): int {
    match side
    case Consumers => |q.items|
    case Producers => q.capacity - |q.items|
  }

  /**
   While the queue is open, a side with sleepers has no more supply than there are
   notifications on their way to it and rechecks already under way; once it is closed, a
   side has sleepers only while some close still owes it a notify_all.
   */
  predicate SideOk<T>(s: State<T>, side: Side) {
    Number(s.threads, Sleeping(side)) > 0 ==>
      if s.queue.closed
      then Number(s.threads, Closing(side)) > 0
      else Supply(s.queue, side) <= Number(s.threads, Owing(side)) + Number(s.threads, Rechecking(side))
  }

  predicate WakeInv<T>(s: State<T>) { SideOk(s, Consumers) && SideOk(s, Producers) }

  /** How one thread's move changes the count of a role. */
  predicate Changes<T>(ths: seq<Thread<T>>, t: nat, th: Thread<T>, role: Role)
    requires t < |ths|
  {
    Number(ths[t := th], role) == Number(ths, role) - Weight(ths[t], role) + Weight(th, role)
  }

  lemma {:induction false} NumberPut<T>(ths: seq<Thread<T>>, t: nat, th: Thread<T>, role: Role)
    requires t < |ths|
    ensures Changes(ths, t, th, role)
  {
    if t == 0 {
      assert ths[t := th][1..] == ths[1..];
    } else {
      assert ths[t := th][1..] == ths[1..][t - 1 := th];
      NumberPut(ths[1..], t - 1, th, role);
    }
  }

  lemma {:induction false} NumberPositive<T>(ths: seq<Thread<T>>, t: nat, role: Role)
    requires t < |ths| && Plays(ths[t], role)
    ensures Number(ths, role) > 0
  {
    if t > 0 { NumberPositive(ths[1..], t - 1, role); }
  }

  lemma {:induction false} NumberZero<T>(ths: seq<Thread<T>>, role: Role)
    requires forall i :: 0 <= i < |ths| ==> !Plays(ths[i], role)
    ensures Number(ths, role) == 0
  {
    if |ths| > 0 { NumberZero(ths[1..], role); }
  }

  /** A wake-up turns a sleeper of its side into a rechecker and is nothing to anybody else. */
  lemma WakeWeights<T>(th: Thread<T>, side: Side, other: Side)
    ensures var w := Wake(th, side);
            && Weight(w, Sleeping(other)) == (if other == side then 0 else Weight(th, Sleeping(other)))
            && Weight(w, Rechecking(other)) ==
               Weight(th, Rechecking(other)) + (if other == side then Weight(th, Sleeping(other)) else 0)
            && Weight(w, Owing(other)) == Weight(th, Owing(other))
            && Weight(w, Closing(other)) == Weight(th, Closing(other))
  {
  }

  /** notify_all leaves no sleeper on its side and changes no other count but the rechecks. */
  lemma {:induction false} NumberWakeAll<T>(ths: seq<Thread<T>>, side: Side, other: Side)
    ensures var r := WakeAll(ths, side);
            && Number(r, Sleeping(other)) == (if other == side then 0 else Number(ths, Sleeping(other)))
            && Number(r, Rechecking(other)) ==
               Number(ths, Rechecking(other)) + (if other == side then Number(ths, Sleeping(other)) else 0)
            && Number(r, Owing(other)) == Number(ths, Owing(other))
            && Number(r, Closing(other)) == Number(ths, Closing(other))
  {
    if |ths| > 0 {
      WakeWeights(ths[0], side, other);
      NumberWakeAll(ths[1..], side, other);
      assert WakeAll(ths, side)[1..] == WakeAll(ths[1..], side);
    }
  }

  /** The same for all four roles of a side. */
  lemma PutCounts<T>(ths: seq<Thread<T>>, t: nat, th: Thread<T>, side: Side)
    requires t < |ths|
    ensures Changes(ths, t, th, Sleeping(side)) && Changes(ths, t, th, Rechecking(side))
    ensures Changes(ths, t, th, Owing(side)) && Changes(ths, t, th, Closing(side))
  {
    NumberPut(ths, t, th, Sleeping(side));
    NumberPut(ths, t, th, Rechecking(side));
    NumberPut(ths, t, th, Owing(side));
    NumberPut(ths, t, th, Closing(side));
  }

  /** The notification reaches a sleeper, who now counts as rechecking instead. */
  lemma {:induction false} WakeSomebody<T>(s: State<T>, t: nat, w: nat, side: Side)
    requires Inv(s) && Enabled(s, NotifyOne(t, Some(w))) && SideOk(s, side)
    ensures SideOk(AfterNotifyOne(s, t, Some(w)), side)
  {
    var mid := s.threads[t := Returned(s.threads[t].call, s.threads[t].pc.ret)];
    PutCounts(s.threads, t, mid[t], side);
    PutCounts(mid, w, mid[w].(pc := Woken), side);
    var b := if side == NotifiedSide(s.threads[t].call) then 1 else 0;
    assert ThreadOk(s.queue, s.threads[t]) && Weight(s.threads[t], Owing(side)) == b;
    assert Weight(mid[w], Sleeping(side)) == b == Weight(mid[w].(pc := Woken), Rechecking(side));
  }

  /** The notification finds no sleeper, so none is left on that side. */
  lemma {:induction false} WakeNobody<T>(s: State<T>, t: nat, side: Side)
    requires Inv(s) && Enabled(s, NotifyOne(t, None)) && SideOk(s, side)
    ensures SideOk(AfterNotifyOne(s, t, None), side)
  {
    var th := s.threads[t];
    var mid := s.threads[t := Returned(th.call, th.pc.ret)];
    PutCounts(s.threads, t, mid[t], side);
    if side == NotifiedSide(th.call) {
      forall i | 0 <= i < |mid| ensures !Plays(mid[i], Sleeping(side)) {
        assert !SleepsOn(s.threads[i], side);
      }
      NumberZero(mid, Sleeping(side));
    }
  }

  lemma {:induction false} WakeNotifyAll<T>(s: State<T>, t: nat, side: Side)
    requires Inv(s) && Enabled(s, NotifyAll(t)) && SideOk(s, side)
    ensures SideOk(AfterNotifyAll(s, t), side)
  {
    var In(c, pc) := s.threads[t];
    var th, woken := if pc.NotifyConsumers? then In(c, NotifyProducers) else Returned(c, Unit),
                     if pc.NotifyConsumers? then Consumers else Producers;
    PutCounts(s.threads, t, th, side);
    NumberWakeAll(s.threads[t := th], woken, side);
    if pc.NotifyConsumers? { NumberPositive(s.threads[t := th], t, Closing(Producers)); }
  }

  lemma {:induction false} WakeTest<T>(s: State<T>, t: nat, side: Side)
    requires Inv(s) && Enabled(s, Test(t)) && SideOk(s, side)
    ensures SideOk(AfterTest(s, t), side)
  {
    PutCounts(s.threads, t, AfterTest(s, t).threads[t], side);
  }

  lemma {:induction false} WakeCommit<T>(s: State<T>, t: nat, side: Side)
    requires Inv(s) && Enabled(s, Commit(t)) && SideOk(s, side)
    ensures SideOk(AfterCommit(s, t), side)
  {
    var c, s' := s.threads[t].call, AfterCommit(s, t);
    PutCounts(s.threads, t, s'.threads[t], side);
    if c.Close? { NumberPositive(s'.threads, t, Closing(side)); }
  }

  /** The remaining single-thread steps leave the queue alone and add no sleeper. */
  lemma {:induction false} WakeOneThread<T>(s: State<T>, s': State<T>, t: nat, th: Thread<T>, side: Side)
    requires t < |s.threads| && SideOk(s, side)
    requires s'.queue == s.queue && s'.threads == s.threads[t := th]
    requires Weight(th, Sleeping(side)) <= Weight(s.threads[t], Sleeping(side))
    requires Weight(th, Rechecking(side)) >= Weight(s.threads[t], Rechecking(side))
    requires Weight(th, Owing(side)) >= Weight(s.threads[t], Owing(side))
    requires Weight(th, Closing(side)) >= Weight(s.threads[t], Closing(side))
    ensures SideOk(s', side)
  {
    PutCounts(s.threads, t, th, side);
  }

  predicate HasSlack<T>(s: State<T>, side: Side) {
    || s.queue.closed
    || Number(s.threads, Sleeping(side)) == 0
    || Supply(s.queue, side) < Number(s.threads, Owing(side)) + Number(s.threads, Rechecking(side))
  }

  lemma {:induction false} LateTimeoutSide<T>(s: State<T>, t: nat, side: Side)
    requires Inv(s) && Enabled(s, LateTimeout(t)) && SideOk(s, side)
    ensures SideOk(Move(s, t, Expired), side) <==> (HasSlack(s, side) || !OnSide(s.threads[t].call, side))
  {
    var th := s.threads[t].(pc := Expired);
    PutCounts(s.threads, t, th, side);
    assert Weight(th, Rechecking(side)) == 0 && Weight(th, Sleeping(side)) == 0;
    assert Weight(s.threads[t], Rechecking(side)) == if OnSide(s.threads[t].call, side) then 1 else 0;
  }

  /** Every step keeps each side's invariant, except a timeout of that side that swallows a wake-up. */
  lemma {:induction false} SideStep<T>(s: State<T>, a: Action<T>, side: Side)
    requires Inv(s) && Enabled(s, a) && SideOk(s, side)
    requires a.LateTimeout? ==> HasSlack(s, side) || !OnSide(s.threads[a.t].call, side)
    ensures SideOk(Apply(s, a), side)
  {
    if a.NotifyOne? {
      if a.woken.Some? { WakeSomebody(s, a.t, a.woken.value, side); } else { WakeNobody(s, a.t, side); }
    } else if a.NotifyAll? {
      WakeNotifyAll(s, a.t, side);
    } else if a.Test? {
      WakeTest(s, a.t, side);
    } else if a.Commit? {
      WakeCommit(s, a.t, side);
    } else if a.LateTimeout? {
      LateTimeoutSide(s, a.t, side);
    } else {
      WakeOneThread(s, Apply(s, a), a.t, Apply(s, a).threads[a.t], side);
    }
  }

  lemma {:induction false} WakeStep<T>(s: State<T>, a: Action<T>)
    requires Inv(s) && Enabled(s, a) && WakeInv(s) && !a.LateTimeout?
    ensures WakeInv(Apply(s, a))
  {
    SideStep(s, a, Consumers);
    SideStep(s, a, Producers);
  }

  /** A run in which no timeout swallows a wake-up. */
  predicate Considerate<T>(run: seq<Action<T>>) { forall k :: 0 <= k < |run| ==> !run[k].LateTimeout? }

  lemma WakeInit<T>(capacity: nat, n: nat)
    ensures WakeInv(Init<T>(capacity, n))
  {
    var s := Init<T>(capacity, n);
    NumberZero(s.threads, Sleeping(Consumers));
    NumberZero(s.threads, Sleeping(Producers));
  }

  /** No lost wake-up in any reachable state, whatever the interleaving, spurious wake-ups included. */
  lemma {:induction false} WakeRun<T>(s: State<T>, run: seq<Action<T>>)
    requires Inv(s) && WakeInv(s) && Runs(s, run) && Considerate(run)
    ensures Inv(End(s, run)) && WakeInv(End(s, run))
    decreases |run|
  {
    if |run| > 0 {
      assert !run[0].LateTimeout?;
      InvStep(s, run[0]);
      WakeStep(s, run[0]);
      WakeRun(Apply(s, run[0]), run[1..]);
    }
  }

  /** No timed call is in progress. */
  predicate Untimed<T>(s: State<T>) {
    forall t :: 0 <= t < |s.threads| && s.threads[t].In? ==> !Timed(s.threads[t].call)
  }

  /** No timed call is started. */
  predicate StartsUntimed<T>(run: seq<Action<T>>) {
    forall k :: 0 <= k < |run| && run[k].Begin? ==> !Timed(run[k].call)
  }

  lemma {:induction false} UntimedStep<T>(s: State<T>, a: Action<T>)
    requires Untimed(s) && Enabled(s, a) && (a.Begin? ==> !Timed(a.call))
    ensures Untimed(Apply(s, a)) && !a.LateTimeout?
  {
  }

  /** With untimed calls only, no assumption about timeouts is needed. */
  lemma {:induction false} UntimedIsConsiderate<T>(s: State<T>, run: seq<Action<T>>)
    requires Untimed(s) && Runs(s, run) && StartsUntimed(run)
    ensures Considerate(run)
    decreases |run|
  {
    if |run| > 0 {
      UntimedStep(s, run[0]);
      var s', rest := Apply(s, run[0]), run[1..];
      forall k | 0 <= k < |rest| && rest[k].Begin? ensures !Timed(rest[k].call) {
        assert rest[k] == run[k + 1];
      }
      UntimedIsConsiderate(s', rest);
      forall k | 0 <= k < |run| ensures !run[k].LateTimeout? {
        if k > 0 { assert run[k] == rest[k - 1]; }
      }
    }
  }

  /**
   Exactly when a late timeout is harmless: a timed call whose wait times out although it was
   notified returns without rechecking, so unless the queue is closed or nobody of its side
   sleeps, there must be a notification or recheck to spare.
   */
  lemma {:induction false} LateTimeoutExact<T>(s: State<T>, t: nat, side: Side)
    requires Inv(s) && Enabled(s, LateTimeout(t)) && WakeInv(s) && OnSide(s.threads[t].call, side)
    ensures WakeInv(Apply(s, LateTimeout(t))) <==> HasSlack(s, side)
  {
    LateTimeoutSide(s, t, Consumers);
    LateTimeoutSide(s, t, Producers);
  }

  /** The part of the invariant about closed queues; it needs no assumption on timeouts. */
  predicate CloseInv<T>(s: State<T>) { s.queue.closed ==> WakeInv(s) }

  lemma {:induction false} CloseStep<T>(s: State<T>, a: Action<T>)
    requires Inv(s) && Enabled(s, a) && CloseInv(s)
    ensures CloseInv(Apply(s, a))
  {
    if s.queue.closed {
      SideStep(s, a, Consumers);
      SideStep(s, a, Producers);
    } else if a.Commit? && s.threads[a.t].call.Close? {
      NumberPositive(Apply(s, a).threads, a.t, Closing(Consumers));
      NumberPositive(Apply(s, a).threads, a.t, Closing(Producers));
    }
  }

  lemma {:induction false} CloseRun<T>(s: State<T>, run: seq<Action<T>>)
    requires Inv(s) && CloseInv(s) && Runs(s, run)
    ensures Inv(End(s, run)) && CloseInv(End(s, run))
    decreases |run|
  {
    if |run| > 0 {
      InvStep(s, run[0]);
      CloseStep(s, run[0]);
      CloseRun(Apply(s, run[0]), run[1..]);
    }
  }

  // ---------------------------------------------------------------- states without progress

  /** The steps the call bodies take by themselves. */
  predicate Internal<T>(a: Action<T>) { !a.Begin? && !a.Spurious? }

  ghost predicate Stuck<T(!new)>(s: State<T>) {
    forall a: Action<T> :: Internal(a) ==> !Enabled(s, a)
  }

  /** Between calls, or in an untimed wait whose condition really holds. */
  predicate AtRest<T>(q: Queue<T>, th: Thread<T>) {
    th.In? ==> th.pc.Asleep? && !Timed(th.call) && Blocked(q, th.call)
  }

  /** A thread inside a call, unless it is in an untimed sleep, or somebody else, can move. */
  lemma {:induction false} InsideCanMove<T(!new)>(s: State<T>, t: nat)
    requires Inv(s) && t < |s.threads| && s.threads[t].In?
    requires !s.threads[t].pc.Asleep? || Timed(s.threads[t].call)
    ensures !Stuck(s)
  {
    if s.lock.Some? {
      HolderCanMove(s, s.lock.value);
    } else {
      var pc := s.threads[t].pc;
      var side := NotifiedSide(s.threads[t].call);
      if pc.Notify? {
        if i :| 0 <= i < |s.threads| && SleepsOn(s.threads[i], side) {
          assert Enabled(s, NotifyOne(t, Some(i)));
        } else {
          assert Enabled(s, NotifyOne(t, None));
        }
      } else if pc.Asleep? {
        assert Enabled(s, Timeout(t));
      } else if pc.NotifyConsumers? || pc.NotifyProducers? {
        assert Enabled(s, NotifyAll(t));
      } else {
        assert !Holds(s.threads[t]);
        assert Enabled(s, Acquire(t));
      }
    }
  }

  lemma {:induction false} HolderCanMove<T(!new)>(s: State<T>, t: nat)
    requires Inv(s) && t < |s.threads| && s.lock == Some(t)
    ensures !Stuck(s)
  {
    assert Holds(s.threads[t]);
    var pc := s.threads[t].pc;
    if pc.Check? { assert Enabled(s, Test(t)); }
    else if pc.Act? { assert Enabled(s, Commit(t)); }
    else { assert Enabled(s, Release(t)); }
  }

  /** When every thread is between calls or asleep untimed, the counts that excuse a sleeper are zero. */
  lemma {:induction false} QuietSleeperIsBlocked<T>(s: State<T>, t: nat, side: Side)
    requires Inv(s) && SideOk(s, side) && t < |s.threads| && SleepsOn(s.threads[t], side)
    requires forall i :: 0 <= i < |s.threads| && s.threads[i].In? ==> s.threads[i].pc.Asleep?
    ensures Blocked(s.queue, s.threads[t].call)
  {
    NumberPositive(s.threads, t, Sleeping(side));
    NumberZero(s.threads, Owing(side));
    NumberZero(s.threads, Rechecking(side));
    NumberZero(s.threads, Closing(side));
  }

  /**
   The stuck states are exactly the legitimate ones: no internal step is possible if and
   only if every thread is between calls or in an untimed wait whose own condition (queue
   full for a push, empty for a pop, and not closed) holds right now.
   */
  lemma {:induction false} StuckExactly<T(!new)>(s: State<T>)
    requires Inv(s) && WakeInv(s)
    ensures Stuck(s) <==> forall t :: 0 <= t < |s.threads| ==> AtRest(s.queue, s.threads[t])
  {
    if Stuck(s) {
      forall t | 0 <= t < |s.threads| && s.threads[t].In? ensures s.threads[t].pc.Asleep? && !Timed(s.threads[t].call) {
        if !(s.threads[t].pc.Asleep? && !Timed(s.threads[t].call)) { InsideCanMove(s, t); }
      }
      forall t | 0 <= t < |s.threads| ensures AtRest(s.queue, s.threads[t]) {
        if s.threads[t].In? {
          assert ThreadOk(s.queue, s.threads[t]);
          QuietSleeperIsBlocked(s, t, if IsPush(s.threads[t].call) then Producers else Consumers);
        }
      }
    }
    if forall t :: 0 <= t < |s.threads| ==> AtRest(s.queue, s.threads[t]) {
      forall a: Action<T> | Internal(a) ensures !Enabled(s, a) {
        if a.t < |s.threads| { assert AtRest(s.queue, s.threads[a.t]); }
      }
    }
  }

  /** With room for at least one item, producers and consumers never sleep together in a stuck state. */
  lemma {:induction false} NeverBothStuck<T(!new)>(s: State<T>, i: nat, j: nat)
    requires Inv(s) && WakeInv(s) && Stuck(s) && s.queue.capacity >= 1
    requires i < |s.threads| && j < |s.threads|
    ensures !(SleepsOn(s.threads[i], Producers) && SleepsOn(s.threads[j], Consumers))
  {
    StuckExactly(s);
    assert AtRest(s.queue, s.threads[i]) && AtRest(s.queue, s.threads[j]);
  }

  /** Once the queue is closed, a stuck state has every call returned. */
  lemma {:induction false} CloseReleasesEverybody<T(!new)>(s: State<T>)
    requires Inv(s) && WakeInv(s) && Stuck(s) && s.queue.closed
    ensures forall t :: 0 <= t < |s.threads| ==> !s.threads[t].In?
  {
    StuckExactly(s);
    forall t | 0 <= t < |s.threads| ensures !s.threads[t].In? {
      assert AtRest(s.queue, s.threads[t]);
    }
  }
}
