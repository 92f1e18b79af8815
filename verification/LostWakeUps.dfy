/**
 Exactly when the queue can lose a wake-up. A timed call whose wait times out although it
 was notified returns without rechecking and without passing the notification on. Which
 calls a program makes, and on how many threads, decides whether that can happen to a
 sleeper of its side.
 */
module LostWakeUps {
  import opened Wrappers
  import opened AtomicQueue
  import opened Protocol
  import opened WakeUps
  import opened Safety

  datatype Kind = Pushes | TimedPushes | Pops | TimedPops | Others

  function KindOf<T>(c: Call<T>): Kind {
    match c
    case Push(_) => Pushes
    case PushFor(_) => TimedPushes
    case Pop => Pops
    case PopFor => TimedPops
    case _ => Others
  }

  /** The program makes calls of these kinds only. */
  predicate Uses<T>(run: seq<Action<T>>, kinds: set<Kind>) {
    forall k :: 0 <= k < |run| && run[k].Begin? ==> KindOf(run[k].call) in kinds
  }

  predicate HasTimed(kinds: set<Kind>, side: Side) {
    match side
    case Consumers => TimedPops in kinds
    case Producers => TimedPushes in kinds
  }

  predicate HasUntimed(kinds: set<Kind>, side: Side) {
    match side
    case Consumers => Pops in kinds
    case Producers => Pushes in kinds
  }

  /** Nobody of the other side ever calls. */
  predicate OneSided(kinds: set<Kind>, side: Side) {
    match side
    case Consumers => Pushes !in kinds && TimedPushes !in kinds
    case Producers => Pops !in kinds && TimedPops !in kinds
  }

  /** The side makes timed calls, the other side notifies it, and there is a third thread to forget. */
  predicate CanDrop(capacity: nat, n: nat, kinds: set<Kind>, side: Side) {
    n >= 3 && capacity >= 1 && HasTimed(kinds, side) && !OneSided(kinds, side)
  }

  /** Nobody can move, yet some untimed caller of the side sleeps without reason. */
  ghost predicate Lost<T(!new)>(s: State<T>, side: Side) {
    Stuck(s) && exists t :: 0 <= t < |s.threads| && SleepsOn(s.threads[t], side) && !Blocked(s.queue, s.threads[t].call)
  }

  // ---------------------------------------------------------------- without the risk, nothing is lost

  predicate KindsOk<T>(s: State<T>, kinds: set<Kind>) {
    forall t :: 0 <= t < |s.threads| && s.threads[t].In? ==> KindOf(s.threads[t].call) in kinds
  }

  /** With no caller on the other side the queue stays empty, or stays full once somebody waits. */
  predicate OneSidedOk<T>(s: State<T>, side: Side) {
    match side
    case Consumers => Empty(s.queue)
    case Producers =>
      (exists t :: 0 <= t < |s.threads| && SleepsOn(s.threads[t], Producers)) ==> s.queue.closed || Full(s.queue)
  }

  /** Among two threads, a sleeper's supply is covered by the notifications on their way alone. */
  predicate PairOk<T>(s: State<T>, side: Side) {
    !s.queue.closed && Number(s.threads, Sleeping(side)) > 0 ==>
      Supply(s.queue, side) <= Number(s.threads, Owing(side))
  }

  /** What is kept along every run of the program. */
  ghost predicate Kept<T>(s: State<T>, kinds: set<Kind>, side: Side) {
    && Inv(s) && KindsOk(s, kinds) && CloseInv(s)
    && (!HasTimed(kinds, side) ==> SideOk(s, side))
    && (OneSided(kinds, side) ==> OneSidedOk(s, side))
    && (|s.threads| <= 2 ==> PairOk(s, side))
  }

  lemma {:induction false} KindsStep<T>(s: State<T>, a: Action<T>, kinds: set<Kind>)
    requires Enabled(s, a) && KindsOk(s, kinds) && (a.Begin? ==> KindOf(a.call) in kinds)
    ensures KindsOk(Apply(s, a), kinds)
  {
  }

  lemma {:induction false} OneSidedStep<T>(s: State<T>, a: Action<T>, kinds: set<Kind>, side: Side)
    requires Inv(s) && Enabled(s, a) && KindsOk(s, kinds) && OneSided(kinds, side) && OneSidedOk(s, side)
    ensures OneSidedOk(Apply(s, a), side)
  {
    if a.Commit? { assert KindOf(s.threads[a.t].call) in kinds; }
    if a.Acquire? || a.Release? { assert Apply(s, a).queue == s.queue; }
  }

  /** Of two threads, one notifies and wakes the other, so that nobody is left asleep on that side. */
  lemma {:induction false} PairNotifyOne<T>(s: State<T>, t: nat, w: Option<nat>, side: Side)
    requires Inv(s) && Enabled(s, NotifyOne(t, w)) && |s.threads| <= 2 && PairOk(s, side)
    ensures PairOk(AfterNotifyOne(s, t, w), side)
  {
    var s', th := AfterNotifyOne(s, t, w), s.threads[t];
    if side == NotifiedSide(th.call) {
      forall i | 0 <= i < |s.threads| ensures !Plays(s'.threads[i], Sleeping(side)) {
        if i != t && w.None? { assert !SleepsOn(s.threads[i], side); }
      }
      NumberZero(s'.threads, Sleeping(side));
    } else {
      var mid := s.threads[t := s'.threads[t]];
      PutCounts(s.threads, t, s'.threads[t], side);
      if w.Some? { PutCounts(mid, w.value, mid[w.value].(pc := Woken), side); }
    }
  }

  lemma {:induction false} PairNotifyAll<T>(s: State<T>, t: nat, side: Side)
    requires Inv(s) && Enabled(s, NotifyAll(t))
    ensures PairOk(AfterNotifyAll(s, t), side)
  {
    assert ThreadOk(s.queue, s.threads[t]);
  }

  lemma {:induction false} PairCommit<T>(s: State<T>, t: nat, side: Side)
    requires Inv(s) && Enabled(s, Commit(t)) && PairOk(s, side)
    ensures PairOk(AfterCommit(s, t), side)
  {
    PutCounts(s.threads, t, AfterCommit(s, t).threads[t], side);
  }

  /** The remaining steps add no sleeper, save one whose condition is true, and cancel no notification. */
  lemma {:induction false} PairOneThread<T>(s: State<T>, a: Action<T>, side: Side)
    requires Inv(s) && Enabled(s, a) && PairOk(s, side) && !a.NotifyOne? && !a.NotifyAll? && !a.Commit?
    ensures PairOk(Apply(s, a), side)
  {
    var s' := Apply(s, a);
    PutCounts(s.threads, a.t, s'.threads[a.t], side);
    assert s'.queue == s.queue && s'.threads == s.threads[a.t := s'.threads[a.t]];
    assert Weight(s'.threads[a.t], Owing(side)) >= Weight(s.threads[a.t], Owing(side));
  }

  lemma {:induction false} PairStep<T>(s: State<T>, a: Action<T>, side: Side)
    requires Inv(s) && Enabled(s, a) && |s.threads| <= 2 && PairOk(s, side)
    ensures PairOk(Apply(s, a), side)
  {
    if a.NotifyOne? {
      PairNotifyOne(s, a.t, a.woken, side);
    } else if a.NotifyAll? {
      PairNotifyAll(s, a.t, side);
    } else if a.Commit? {
      PairCommit(s, a.t, side);
    } else {
      PairOneThread(s, a, side);
    }
  }

  lemma {:induction false} KeptStep<T>(s: State<T>, a: Action<T>, kinds: set<Kind>, side: Side)
    requires Kept(s, kinds, side) && Enabled(s, a) && (a.Begin? ==> KindOf(a.call) in kinds)
    ensures Kept(Apply(s, a), kinds, side)
  {
    InvStep(s, a);
    KindsStep(s, a, kinds);
    CloseStep(s, a);
    if !HasTimed(kinds, side) {
      assert a.LateTimeout? ==> KindOf(s.threads[a.t].call) in kinds;
      SideStep(s, a, side);
    }
    if OneSided(kinds, side) { OneSidedStep(s, a, kinds, side); }
    if |s.threads| <= 2 { PairStep(s, a, side); }
  }

  lemma {:induction false} KeptRun<T>(s: State<T>, run: seq<Action<T>>, kinds: set<Kind>, side: Side)
    requires Kept(s, kinds, side) && Runs(s, run) && Uses(run, kinds)
    ensures Kept(End(s, run), kinds, side)
    ensures |End(s, run).threads| == |s.threads| && End(s, run).queue.capacity == s.queue.capacity
    decreases |run|
  {
    if |run| > 0 {
      KeptStep(s, run[0], kinds, side);
      var rest := run[1..];
      forall k | 0 <= k < |rest| && rest[k].Begin? ensures KindOf(rest[k].call) in kinds {
        assert rest[k] == run[k + 1];
      }
      KeptRun(Apply(s, run[0]), rest, kinds, side);
    }
  }

  lemma KeptInit<T>(capacity: nat, n: nat, kinds: set<Kind>, side: Side)
    ensures Kept(Init<T>(capacity, n), kinds, side)
  {
    WakeInit<T>(capacity, n);
    NumberZero(Init<T>(capacity, n).threads, Sleeping(side));
  }

  /** Without the risk the counting invariant of the side holds, late timeouts or not. */
  lemma {:induction false} SideHolds<T>(s: State<T>, kinds: set<Kind>, side: Side)
    requires Kept(s, kinds, side) && !CanDrop(s.queue.capacity, |s.threads|, kinds, side)
    ensures SideOk(s, side)
  {
    if !s.queue.closed && |s.threads| > 2 && HasTimed(kinds, side) && Supply(s.queue, side) > 0 {
      assert side == Producers && OneSided(kinds, side);
      NumberZero(s.threads, Sleeping(side));
    }
  }

  lemma {:induction false} SafeState<T>(capacity: nat, n: nat, kinds: set<Kind>, side: Side, run: seq<Action<T>>)
    requires !CanDrop(capacity, n, kinds, side) && Runs(Init<T>(capacity, n), run) && Uses(run, kinds)
    ensures SideOk(End(Init<T>(capacity, n), run), side)
  {
    KeptInit<T>(capacity, n, kinds, side);
    KeptRun(Init<T>(capacity, n), run, kinds, side);
    SideHolds(End(Init<T>(capacity, n), run), kinds, side);
  }

  /** In a stuck state, every sleeper of a side without risk has its reason. */
  lemma {:induction false} SleeperHasReason<T(!new)>(s: State<T>, kinds: set<Kind>, side: Side, t: nat)
    requires Kept(s, kinds, side) && Stuck(s)
    requires !CanDrop(s.queue.capacity, |s.threads|, kinds, side) || !HasUntimed(kinds, side)
    requires t < |s.threads| && SleepsOn(s.threads[t], side)
    ensures Blocked(s.queue, s.threads[t].call)
  {
    forall i | 0 <= i < |s.threads| && s.threads[i].In? ensures s.threads[i].pc.Asleep? && !Timed(s.threads[i].call) {
      if !(s.threads[i].pc.Asleep? && !Timed(s.threads[i].call)) { InsideCanMove(s, i); }
    }
    assert KindOf(s.threads[t].call) in kinds;
    SideHolds(s, kinds, side);
    QuietSleeperIsBlocked(s, t, side);
  }

  // ---------------------------------------------------------------- with the risk, a run that loses one

  /** A run under construction that keeps to the program's kinds of calls. */
  ghost predicate Leads<T>(n: nat, kinds: set<Kind>, run: seq<Action<T>>, s: State<T>) {
    Runs(Init<T>(s.queue.capacity, n), run) && Uses(run, kinds) && End(Init<T>(s.queue.capacity, n), run) == s
  }

  lemma {:induction false} Then<T>(n: nat, kinds: set<Kind>, run: seq<Action<T>>, s: State<T>, a: Action<T>)
    returns (run': seq<Action<T>>)
    requires Leads(n, kinds, run, s) && Enabled(s, a) && (a.Begin? ==> KindOf(a.call) in kinds)
    ensures Leads(n, kinds, run', Apply(s, a))
  {
    Extend(Init<T>(s.queue.capacity, n), run, a);
    run' := run + [a];
  }

  /** Thread `t` starts a call, finds its condition false and falls asleep. */
  lemma {:induction false} ThenSleep<T>(n: nat, kinds: set<Kind>, run: seq<Action<T>>, s: State<T>, t: nat, c: Call<T>)
    returns (run': seq<Action<T>>)
    requires Leads(n, kinds, run, s) && KindOf(c) in kinds
    requires t < |s.threads| && !s.threads[t].In? && s.lock.None? && Blocked(s.queue, c)
    ensures Leads(n, kinds, run', Put(s, t, In(c, Asleep)))
  {
    run' := Then(n, kinds, run, s, Begin(t, c));
    var s1 := Apply(s, Begin(t, c));
    run' := Then(n, kinds, run', s1, Acquire(t));
    var s2 := Apply(s1, Acquire(t));
    run' := Then(n, kinds, run', s2, Test(t));
    assert Apply(s2, Test(t)) == Put(s, t, In(c, Asleep));
  }

  /** The state after thread `t`'s call `c` has taken effect and come to its notification. */
  function Notifying<T>(s: State<T>, t: nat, c: Call<T>): State<T>
    requires t < |s.threads|
  {
    var (q, r) := Execute(s.queue, c);
    Put(s, t, In(c, Notify(r))).(queue := q, log := s.log + [Event(t, c, r)])
  }

  /** Thread `t` carries out a successful push or pop up to its notification. */
  lemma {:induction false} ThenSucceed<T>(n: nat, kinds: set<Kind>, run: seq<Action<T>>, s: State<T>, t: nat,
        c: Call<T>)
    returns (run': seq<Action<T>>)
    requires Leads(n, kinds, run, s) && KindOf(c) in kinds && Waits(c)
    requires t < |s.threads| && !s.threads[t].In? && s.lock.None? && !Blocked(s.queue, c) && !s.queue.closed
    ensures Leads(n, kinds, run', Notifying(s, t, c))
  {
    run' := Then(n, kinds, run, s, Begin(t, c));
    var s1 := Apply(s, Begin(t, c));
    run' := Then(n, kinds, run', s1, Acquire(t));
    var s2 := Apply(s1, Acquire(t));
    run' := Then(n, kinds, run', s2, Test(t));
    var s3 := Apply(s2, Test(t));
    run' := Then(n, kinds, run', s3, Commit(t));
    var s4 := Apply(s3, Commit(t));
    run' := Then(n, kinds, run', s4, Release(t));
    assert Apply(s4, Release(t)) == Notifying(s, t, c);
  }

  /** A timed sleeper is notified, times out all the same, and returns. */
  lemma {:induction false} ThenLose<T>(n: nat, kinds: set<Kind>, run: seq<Action<T>>, s: State<T>, t: nat, sleeper: nat)
    returns (run': seq<Action<T>>, s': State<T>)
    requires Leads(n, kinds, run, s) && Enabled(s, NotifyOne(t, Some(sleeper))) && s.lock.None?
    requires Timed(s.threads[sleeper].call)
    ensures Leads(n, kinds, run', s') && s'.queue == s.queue && s'.lock.None?
    ensures s'.threads == s.threads[t := Returned(s.threads[t].call, s.threads[t].pc.ret)]
                                   [sleeper := Returned(s.threads[sleeper].call, Failure(s.threads[sleeper].call))]
  {
    run' := Then(n, kinds, run, s, NotifyOne(t, Some(sleeper)));
    var s1 := Apply(s, NotifyOne(t, Some(sleeper)));
    run' := Then(n, kinds, run', s1, LateTimeout(sleeper));
    var s2 := Apply(s1, LateTimeout(sleeper));
    run' := Then(n, kinds, run', s2, Acquire(sleeper));
    var s3 := Apply(s2, Acquire(sleeper));
    run' := Then(n, kinds, run', s3, Release(sleeper));
    s' := Apply(s3, Release(sleeper));
  }

  /** Thread 1 alone is inside a call, asleep on an open queue although its condition is false. */
  ghost predicate Forgotten<T>(s: State<T>, c: Call<T>) {
    && |s.threads| >= 3 && s.threads[1] == In(c, Asleep) && s.lock.None? && Waits(c)
    && (forall i :: 0 <= i < |s.threads| && i != 1 ==> !s.threads[i].In?)
    && !s.queue.closed && !Blocked(s.queue, c)
  }

  function SideOf<T>(c: Call<T>): Side { if IsPush(c) then Producers else Consumers }

  /** Nobody owes it a notification and nobody is on its way to recheck. */
  lemma {:induction false} ForgottenBreaksCount<T>(s: State<T>, c: Call<T>)
    requires Forgotten(s, c)
    ensures !SideOk(s, SideOf(c))
  {
    NumberPositive(s.threads, 1, Sleeping(SideOf(c)));
    NumberZero(s.threads, Owing(SideOf(c)));
    NumberZero(s.threads, Rechecking(SideOf(c)));
  }

  /** If its call is untimed, no step of the calls under way will ever wake it. */
  lemma {:induction false} ForgottenIsLost<T(!new)>(s: State<T>, c: Call<T>)
    requires Forgotten(s, c) && !Timed(c)
    ensures Lost(s, SideOf(c))
  {
    assert SleepsOn(s.threads[1], SideOf(c));
  }

  /** A sleeper in a timed call, a second sleeper of its side, and a notification that is lost on the first. */
  lemma {:induction false} ForgetOne<T>(n: nat, kinds: set<Kind>, run0: seq<Action<T>>, s: State<T>, timed: Call<T>,
        second: Call<T>,
        other: Call<T>)
    returns (run: seq<Action<T>>, s': State<T>)
    requires Leads(n, kinds, run0, s) && s.lock.None? && !s.queue.closed && |s.threads| >= 3
    requires forall i :: 0 <= i < |s.threads| ==> !s.threads[i].In?
    requires {KindOf(timed), KindOf(second), KindOf(other)} <= kinds
    requires Timed(timed) && Waits(second) && Waits(other)
    requires IsPush(timed) == IsPush(second) != IsPush(other)
    requires Blocked(s.queue, timed) && Blocked(s.queue, second) && !Blocked(s.queue, other)
    requires !Blocked(Execute(s.queue, other).0, second)
    ensures s'.queue.capacity == s.queue.capacity
    ensures Leads(n, kinds, run, s') && Forgotten(s', second)
  {
    run := ThenSleep(n, kinds, run0, s, 0, timed);
    var s1 := Put(s, 0, In(timed, Asleep));
    run := ThenSleep(n, kinds, run, s1, 1, second);
    var s2 := Put(s1, 1, In(second, Asleep));
    run := ThenSucceed(n, kinds, run, s2, 2, other);
    var s3 := Notifying(s2, 2, other);
    run, s' := ThenLose(n, kinds, run, s3, 2, 0);
    assert s'.threads[1] == In(second, Asleep);
  }

  /** One thread fills the queue with `k` items. */
  lemma {:induction false} Fill<T>(capacity: nat, n: nat, kinds: set<Kind>, k: nat, x: T)
    returns (run: seq<Action<T>>, s: State<T>)
    requires k <= capacity && n >= 3 && TimedPushes in kinds
    ensures Leads(n, kinds, run, s) && s.lock.None? && |s.threads| == n
    ensures s.queue.capacity == capacity && |s.queue.items| == k && !s.queue.closed
    ensures forall i :: 0 <= i < n ==> !s.threads[i].In?
  {
    if k == 0 {
      run, s := [], Init<T>(capacity, n);
    } else {
      var run0, s0 := Fill(capacity, n, kinds, k - 1, x);
      run := ThenSucceed(n, kinds, run0, s0, 2, PushFor(x));
      var s1 := Notifying(s0, 2, PushFor(x));
      run := Then(n, kinds, run, s1, NotifyOne(2, None));
      s := Apply(s1, NotifyOne(2, None));
    }
  }

  /** A program at risk forgets any second caller of the side. */
  lemma Forget<T>(capacity: nat, n: nat, kinds: set<Kind>, second: Call<T>, x: T)
    returns (run: seq<Action<T>>, s: State<T>)
    requires Waits(second) && KindOf(second) in kinds && CanDrop(capacity, n, kinds, SideOf(second))
    ensures Leads(n, kinds, run, s) && s.queue.capacity == capacity && Forgotten(s, second)
  {
    if IsPush(second) {
      var run0, s0 := Fill(capacity, n, kinds, capacity, x);
      var other: Call<T> := if Pops in kinds then Pop else PopFor;
      run, s := ForgetOne(n, kinds, run0, s0, PushFor(x), second, other);
    } else {
      var run0, s0 := [], Init<T>(capacity, n);
      assert Leads(n, kinds, run0, s0);
      var other := if Pushes in kinds then Push(x) else PushFor(x);
      run, s := ForgetOne(n, kinds, run0, s0, PopFor, second, other);
    }
  }

  // ---------------------------------------------------------------- the exact conditions

  /** Some interleaving of such calls on `n` threads loses a wake-up: the counting invariant fails. */
  ghost predicate CanMiss<T(!new)>(capacity: nat, n: nat, kinds: set<Kind>, side: Side) {
    exists run: seq<Action<T>> ::
      Runs(Init<T>(capacity, n), run) && Uses(run, kinds) && !SideOk(End(Init<T>(capacity, n), run), side)
  }

  /** Some interleaving of such calls on `n` threads comes to rest with an untimed caller left asleep. */
  ghost predicate CanLose<T(!new)>(capacity: nat, n: nat, kinds: set<Kind>, side: Side) {
    exists run: seq<Action<T>> ::
      Runs(Init<T>(capacity, n), run) && Uses(run, kinds) && Lost(End(Init<T>(capacity, n), run), side)
  }

  /**
   The exact condition for no lost wake-up, for every capacity, thread count and choice of
   calls: the counting invariant of a side fails in some reachable state if and only if there
   are at least three threads, the capacity is at least one, and the program makes timed
   calls of that side and any calls of the other.
   */
  lemma MissesExactlyWhenDropping<T(!new)>(capacity: nat, n: nat, kinds: set<Kind>, side: Side, x: T)
    ensures CanMiss<T>(capacity, n, kinds, side) <==> CanDrop(capacity, n, kinds, side)
  {
    if CanDrop(capacity, n, kinds, side) {
      var second := match side case Consumers => PopFor case Producers => PushFor(x);
      var run, s := Forget(capacity, n, kinds, second, x);
      ForgottenBreaksCount(s, second);
      assert Runs(Init<T>(capacity, n), run);
    } else {
      forall run: seq<Action<T>> | Runs(Init<T>(capacity, n), run) && Uses(run, kinds)
        ensures SideOk(End(Init<T>(capacity, n), run), side)
      {
        SafeState(capacity, n, kinds, side, run);
      }
    }
  }

  lemma {:induction false} SafeRun<T(!new)>(capacity: nat, n: nat, kinds: set<Kind>, side: Side, run: seq<Action<T>>)
    requires !CanDrop(capacity, n, kinds, side) || !HasUntimed(kinds, side)
    requires Runs(Init<T>(capacity, n), run) && Uses(run, kinds)
    ensures !Lost(End(Init<T>(capacity, n), run), side)
  {
    var s := End(Init<T>(capacity, n), run);
    KeptInit<T>(capacity, n, kinds, side);
    KeptRun(Init<T>(capacity, n), run, kinds, side);
    if Stuck(s) {
      forall t | 0 <= t < |s.threads| && SleepsOn(s.threads[t], side) ensures Blocked(s.queue, s.threads[t].call) {
        SleeperHasReason(s, kinds, side, t);
      }
    }
  }

  /**
   The exact condition for leaving an untimed caller asleep, although its condition is false,
   until some later call happens to wake it: the same, and the program also makes untimed
   calls of that side.
   */
  lemma LosesExactlyWhenMixing<T(!new)>(capacity: nat, n: nat, kinds: set<Kind>, side: Side, x: T)
    ensures CanLose<T>(capacity, n, kinds, side) <==> CanDrop(capacity, n, kinds, side) && HasUntimed(kinds, side)
  {
    if CanDrop(capacity, n, kinds, side) && HasUntimed(kinds, side) {
      var second := match side case Consumers => Pop case Producers => Push(x);
      var run, s := Forget(capacity, n, kinds, second, x);
      ForgottenIsLost(s, second);
      assert Runs(Init<T>(capacity, n), run);
    } else {
      forall run: seq<Action<T>> | Runs(Init<T>(capacity, n), run) && Uses(run, kinds)
        ensures !Lost(End(Init<T>(capacity, n), run), side)
      {
        SafeRun(capacity, n, kinds, side, run);
      }
    }
  }
}
