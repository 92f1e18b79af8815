/**
 What callers may rely on over whole runs of the lock-level machine: order and conservation
 with many producers and consumers, draining after a close, and what a "false" means.
 */
module Safety {
  import opened Wrappers
  import opened AtomicQueue
  import opened Protocol
  import opened Refinement
  import opened WakeUps

  /** At most one thread is inside a critical section, and only its commit changes the queue. */
  lemma {:induction false} OnlyHolderChangesQueue<T>(s: State<T>, a: Action<T>)
    requires Inv(s) && Enabled(s, a)
    ensures forall i, j :: 0 <= i < |s.threads| && 0 <= j < |s.threads| ==>
              Holds(s.threads[i]) && Holds(s.threads[j]) ==> i == j
    ensures Apply(s, a).queue != s.queue ==> a.Commit? && s.lock == Some(a.t)
  {
    forall i, j | 0 <= i < |s.threads| && 0 <= j < |s.threads| && Holds(s.threads[i]) && Holds(s.threads[j])
      ensures i == j
    {
      assert s.lock == Some(i) && s.lock == Some(j);
    }
    if a.Commit? { assert Holds(s.threads[a.t]); }
  }

  /**
   In every reachable state, with any number of threads and any capacity: the accepted items
   are the delivered ones followed by the queue, which never exceeds its capacity; producer
   `p`'s delivered items are a prefix of what it had accepted; consumer `c` received exactly
   its own positions of the accepted sequence.
   */
  lemma {:induction false} ReachableFifo<T>(capacity: nat, n: nat, run: seq<Action<T>>, p: nat, c: nat)
    requires Runs(Init<T>(capacity, n), run)
    ensures var s := End(Init<T>(capacity, n), run);
            var accepted, delivered := AcceptedItems(s.log), DeliveredItems(s.log);
            var k := |delivered|;
            && s.queue.capacity == capacity
            && accepted == delivered + s.queue.items && |s.queue.items| <= capacity
            && |Origins(s.log)| == |accepted| && |Receivers(s.log)| == k <= |accepted|
            && Select(delivered, Origins(s.log)[..k], p) <= AcceptedItems(EventsBy(s.log, p))
            && DeliveredItems(EventsBy(s.log, c)) == Select(accepted[..k], Receivers(s.log), c)
  {
    var s0 := Init<T>(capacity, n);
    var s := End(s0, run);
    EventsRun(s0, run);
    assert s.log == Events(s0, run);
    FreshConservation(capacity, s.log);
    Conservation(Fresh(capacity), s.log);
    OrderPerThread(capacity, s.log, p, c);
  }

  /** From the closing step on, the queue stays closed and nothing more is accepted. */
  lemma {:induction false} CloseFreezesAccepted<T>(s: State<T>, run: seq<Action<T>>)
    requires Inv(s) && Runs(s, run) && s.queue.closed
    ensures End(s, run).queue.closed
    ensures AcceptedItems(End(s, run).log) == AcceptedItems(s.log)
    ensures s.queue.items == DeliveredItems(Events(s, run)) + End(s, run).queue.items
  {
    EventsRun(s, run);
    ClosedIsFinal(s.queue, Events(s, run));
    ReplayConcat(Fresh(s.queue.capacity), s.log, Events(s, run));
  }

  /**
   Once an untimed pop has decided to return false, every accepted item has been delivered,
   and from then on nothing is accepted, delivered or queued any more.
   */
  lemma {:induction false} FalsePopIsFinal<T>(s: State<T>, run: seq<Action<T>>, t: nat)
    requires Inv(s) && Runs(s, run) && t < |s.threads|
    requires s.threads[t] == Returned(Pop, Nothing) || s.threads[t] == In(Pop, Leave(Nothing))
    ensures s.queue.closed && End(s, run).queue == s.queue
    ensures AcceptedItems(s.log) == DeliveredItems(s.log)
    ensures AcceptedItems(End(s, run).log) == AcceptedItems(s.log)
    ensures DeliveredItems(End(s, run).log) == DeliveredItems(s.log)
  {
    assert ThreadOk(s.queue, s.threads[t]);
    FreshConservation(s.queue.capacity, s.log);
    CloseFreezesAccepted(s, run);
    InvRun(s, run);
    EventsRun(s, run);
    Conservation(s.queue, Events(s, run));
    ReplayConcat(Fresh(s.queue.capacity), s.log, Events(s, run));
  }

  /**
   In every reachable state in which the queue is closed and no thread can move, every call
   has returned; unlike the open case this holds whatever timeouts do to wake-ups.
   */
  lemma {:induction false} CloseLetsEverybodyReturn<T(!new)>(capacity: nat, n: nat, run: seq<Action<T>>)
    requires Runs(Init<T>(capacity, n), run)
    requires End(Init<T>(capacity, n), run).queue.closed && Stuck(End(Init<T>(capacity, n), run))
    ensures var s := End(Init<T>(capacity, n), run);
            forall t :: 0 <= t < |s.threads| ==> !s.threads[t].In?
  {
    CloseRun(Init<T>(capacity, n), run);
    CloseReleasesEverybody(End(Init<T>(capacity, n), run));
  }

  /**
   In every reachable state in which no thread can move, if no timeout has swallowed a
   wake-up, each thread is between calls or in an untimed wait whose condition holds.
   */
  lemma {:induction false} ReachableStuckExactly<T(!new)>(capacity: nat, n: nat, run: seq<Action<T>>)
    requires Runs(Init<T>(capacity, n), run) && Considerate(run)
    ensures var s := End(Init<T>(capacity, n), run);
            Stuck(s) <==> forall t :: 0 <= t < |s.threads| ==> AtRest(s.queue, s.threads[t])
  {
    WakeInit<T>(capacity, n);
    WakeRun(Init<T>(capacity, n), run);
    StuckExactly(End(Init<T>(capacity, n), run));
  }

  /** The same for callers that use no timed call, with no assumption left about timeouts. */
  lemma {:induction false} UntimedStuckExactly<T(!new)>(capacity: nat, n: nat, run: seq<Action<T>>)
    requires Runs(Init<T>(capacity, n), run) && StartsUntimed(run)
    ensures var s := End(Init<T>(capacity, n), run);
            Stuck(s) <==> forall t :: 0 <= t < |s.threads| ==> AtRest(s.queue, s.threads[t])
  {
    UntimedIsConsiderate(Init<T>(capacity, n), run);
    ReachableStuckExactly(capacity, n, run);
  }

  // ---------------------------------------------------------------- what a "false" means

  /** What justifies returning "false" from the call. */
  predicate Excuse<T>(q: Queue<T>, c: Call<T>) { if IsPush(c) then q.closed || Full(q) else Empty(q) }

  lemma {:induction false} OthersLeaveAwake<T>(s: State<T>, a: Action<T>, t: nat)
    requires Enabled(s, a) && a.t != t && t < |s.threads|
    requires !(s.threads[t].In? && s.threads[t].pc.Asleep?)
    ensures Apply(s, a).threads[t] == s.threads[t]
  {
  }

  /** A commit on the way to "false" found the excuse and left the queue as it was. */
  lemma {:induction false} FalseCommit<T>(s: State<T>, run: seq<Action<T>>, t: nat, c: Call<T>)
    requires Inv(s) && Runs(s, run) && SameCall(run, t) && Doing(s, t, c) && Waits(c)
    requires |run| > 0 && run[0] == Commit(t) && t < |End(s, run).threads|
    requires End(s, run).threads[t] == Returned(c, Failure(c))
    ensures Excuse(s.queue, c) && Apply(s, run[0]).queue == s.queue
    ensures AcceptedItems(Apply(s, run[0]).log) == AcceptedItems(s.log)
    ensures DeliveredItems(Apply(s, run[0]).log) == DeliveredItems(s.log)
  {
    TailSameCall(run, t);
    InvStep(s, run[0]);
    StaysDoing(s, run[0], t, c);
    OneEventAhead(Apply(s, run[0]), run[1..], t, c);
    assert ThreadOk(s.queue, s.threads[t]);
    Snoc(s.queue, s.log, Event(t, c, Failure(c)));
  }

  predicate BeforeVerdict<T>(th: Thread<T>) { th.In? && (th.pc.Want? || th.pc.Check? || th.pc.Act?) }

  lemma {:induction false} NoVerdictYet<T>(s: State<T>, a: Action<T>, t: nat, c: Call<T>)
    requires Enabled(s, a) && !(a.Begin? && a.t == t) && Doing(s, t, c) && BeforeVerdict(s.threads[t])
    requires a != Commit(t) && !(a == Test(t) && Blocked(s.queue, c))
    ensures Doing(Apply(s, a), t, c) && BeforeVerdict(Apply(s, a).threads[t])
  {
    if a.t != t { OthersLeaveAwake(s, a, t); }
  }

  lemma {:induction false} VerdictHere<T>(s: State<T>, run: seq<Action<T>>, t: nat, c: Call<T>)
    requires Inv(s) && Runs(s, run) && SameCall(run, t) && Waits(c) && Doing(s, t, c)
    requires t < |End(s, run).threads| && End(s, run).threads[t] == Returned(c, Failure(c))
    requires |run| > 0 && (run[0] == Commit(t) || (run[0] == Test(t) && Blocked(s.queue, c)))
    ensures s.lock == Some(t) && Excuse(s.queue, c)
  {
    assert Holds(s.threads[t]);
    if run[0] == Commit(t) { FalseCommit(s, run, t, c); }
  }

  /**
   A push that returns false, timed or not, saw the queue full or closed, and a pop that
   returns false saw it empty, in one of its own critical sections during the call.
   */
  lemma {:induction false} FalseCallSawIt<T>(s: State<T>, run: seq<Action<T>>, t: nat, c: Call<T>) returns (k: nat)
    requires Inv(s) && Runs(s, run) && SameCall(run, t) && Waits(c)
    requires Doing(s, t, c) && BeforeVerdict(s.threads[t])
    requires t < |End(s, run).threads| && End(s, run).threads[t] == Returned(c, Failure(c))
    ensures k < |run| && (run[k] == Test(t) || run[k] == Commit(t))
    ensures StateAt(s, run, k).lock == Some(t) && Excuse(StateAt(s, run, k).queue, c)
    decreases |run|
  {
    if run[0] == Commit(t) || (run[0] == Test(t) && Blocked(s.queue, c)) {
      VerdictHere(s, run, t, c);
      k := 0;
    } else {
      TailSameCall(run, t);
      InvStep(s, run[0]);
      NoVerdictYet(s, run[0], t, c);
      var k' := FalseCallSawIt(Apply(s, run[0]), run[1..], t, c);
      k := k' + 1;
    }
  }

  /** Only a commit and a timed failure add to the log, and the latter adds no item. */
  lemma {:induction false} QuietLog<T>(s: State<T>, a: Action<T>)
    requires Inv(s) && Enabled(s, a) && !a.Commit?
    ensures Apply(s, a).queue == s.queue
    ensures AcceptedItems(Apply(s, a).log) == AcceptedItems(s.log)
    ensures DeliveredItems(Apply(s, a).log) == DeliveredItems(s.log)
  {
    assert ThreadOk(s.queue, s.threads[a.t]);
    if a.Acquire? && s.threads[a.t].pc.Expired? {
      var c := s.threads[a.t].call;
      Snoc(s.queue, s.log, Event(a.t, c, Failure(c)));
      assert Apply(s, a).log == s.log + [Event(a.t, c, Failure(c))];
    } else {
      assert Apply(s, a).log == s.log;
    }
  }

  /** No step of a call that returns false changes the queue, what was accepted or what was delivered. */
  lemma {:induction false} FalseCallChangesNothing<T>(s: State<T>, run: seq<Action<T>>, t: nat, c: Call<T>, k: nat)
    requires Inv(s) && Runs(s, run) && SameCall(run, t) && Doing(s, t, c) && Waits(c)
    requires t < |End(s, run).threads| && End(s, run).threads[t] == Returned(c, Failure(c))
    requires k < |run| && run[k].t == t
    ensures var before, after := StateAt(s, run, k), StateAt(s, run, k + 1);
            && after.queue == before.queue
            && AcceptedItems(after.log) == AcceptedItems(before.log)
            && DeliveredItems(after.log) == DeliveredItems(before.log)
    decreases |run|
  {
    if k > 0 {
      TailSameCall(run, t);
      InvStep(s, run[0]);
      StaysDoing(s, run[0], t, c);
      FalseCallChangesNothing(Apply(s, run[0]), run[1..], t, c, k - 1);
    } else if run[0].Commit? {
      FalseCommit(s, run, t, c);
    } else {
      QuietLog(s, run[0]);
    }
  }

  // ---------------------------------------------------------------- runs that show a limit

  lemma {:induction false} Extend<T>(s: State<T>, run: seq<Action<T>>, a: Action<T>)
    requires Runs(s, run) && Enabled(End(s, run), a)
    ensures Runs(s, run + [a]) && End(s, run + [a]) == Apply(End(s, run), a)
    decreases |run|
  {
    if |run| == 0 {
      assert run + [a] == [a];
    } else {
      Extend(Apply(s, run[0]), run[1..], a);
      assert (run + [a])[0] == run[0] && (run + [a])[1..] == run[1..] + [a];
    }
  }

  /** A false pop_for does not mean closed: it may be a plain timeout on an open queue. */
  lemma {:induction false} FalsePopForWhileOpen<T>(capacity: nat) returns (run: seq<Action<T>>)
    ensures Runs(Init<T>(capacity, 1), run)
    ensures var s := End(Init<T>(capacity, 1), run);
            |s.threads| == 1 && s.threads[0] == Returned(PopFor, Nothing) && !s.queue.closed
  {
    var s0 := Init<T>(capacity, 1);
    run := [];
    Extend(s0, run, Begin(0, PopFor)); run := run + [Begin(0, PopFor)];
    Extend(s0, run, Acquire(0)); run := run + [Acquire(0)];
    Extend(s0, run, Test(0)); run := run + [Test(0)];
    Extend(s0, run, Timeout(0)); run := run + [Timeout(0)];
    Extend(s0, run, Acquire(0)); run := run + [Acquire(0)];
    Extend(s0, run, Release(0)); run := run + [Release(0)];
  }
}
