/**
 bounded_blocking_queue as a lock-level machine: one mutex, two condition variables, and any
 number of threads, each somewhere inside one call. Every interleaving of the actions below
 is a run; a wait releases the lock and falls asleep in one step, a notification is sent
 after the unlock, wakes at most one arbitrary sleeper, and spurious wake-ups are allowed.
 */
module Protocol {
  import opened Wrappers
  import opened AtomicQueue

  /** Where a thread is inside its call. */
  datatype Pc<+T> =
    | Want               // in the mutex's lock() at the start of the call
    | Check              // holds the mutex, about to evaluate the wait loop's guard
    | Act                // holds the mutex, past the loop
    | Leave(ret: Return<T>)   // holds the mutex, returning: the guard's destructor unlocks
    | Unlock(ret: Return<T>)  // holds the mutex, about to unlock explicitly
    | Notify(ret: Return<T>)  // unlocked, about to notify_one the other side
    | NotifyConsumers    // close: about to notify_all on not-empty
    | NotifyProducers    // close: about to notify_all on not-full
    | Asleep             // on the condition variable of its own side
    | Woken              // woken, waiting for the mutex, has not rechecked the guard
    | Expired            // timed out, waiting for the mutex, will not recheck

  datatype Thread<+T> = Idle | In(call: Call<T>, pc: Pc<T>) | Returned(call: Call<T>, ret: Return<T>)

  /** `log` lists the calls that have taken effect; it is bookkeeping that no action reads. */
  datatype State<T> = State(queue: Queue<T>, lock: Option<nat>, threads: seq<Thread<T>>, log: seq<Event<T>>)

  datatype Action<+T> =
    | Begin(t: nat, call: Call<T>)
    | Acquire(t: nat)
    | Test(t: nat)
    | Commit(t: nat)
    | Release(t: nat)
    | NotifyOne(t: nat, woken: Option<nat>)
    | NotifyAll(t: nat)
    | Timeout(t: nat)       // the deadline passes for a thread that nobody has woken
    | LateTimeout(t: nat)   // the deadline passes for a woken thread: the signal is consumed
    | Spurious(t: nat)

  /** The two condition variables: producers sleep on not-full, consumers on not-empty. */
  datatype Side = Producers | Consumers

  predicate OnSide<T>(c: Call<T>, side: Side) {
    match side
    case Producers => IsPush(c)
    case Consumers => IsPop(c)
  }

  /** The condition variable that a successful push or pop notifies. */
  function NotifiedSide<T>(c: Call<T>): Side { if IsPush(c) then Consumers else Producers }

  predicate SleepsOn<T>(th: Thread<T>, side: Side) {
    th.In? && th.pc.Asleep? && OnSide(th.call, side)
  }

  predicate Holds<T>(th: Thread<T>) {
    th.In? && (th.pc.Check? || th.pc.Act? || th.pc.Leave? || th.pc.Unlock?)
  }

  function Wake<T>(th: Thread<T>, side: Side): Thread<T> {
    if SleepsOn(th, side) then th.(pc := Woken) else th
  }

  function WakeAll<T>(ths: seq<Thread<T>>, side: Side): (r: seq<Thread<T>>)
    ensures |r| == |ths|
    ensures forall i :: 0 <= i < |ths| ==> r[i] == Wake(ths[i], side)
  {
    if |ths| == 0 then [] else [Wake(ths[0], side)] + WakeAll(ths[1..], side)
  }

  function Init<T>(capacity: nat, n: nat): State<T> {
    State(Fresh(capacity), None, seq(n, _ => Idle), [])
  }

  predicate Enabled<T>(s: State<T>, a: Action<T>) {
    a.t < |s.threads| &&
    var th := s.threads[a.t];
    match a
    case Begin(_, _) => !th.In?
    case Acquire(_) => s.lock.None? && th.In? && (th.pc.Want? || th.pc.Woken? || th.pc.Expired?)
    case Test(_) => th.In? && th.pc.Check?
    case Commit(_) => th.In? && th.pc.Act?
    case Release(_) => th.In? && (th.pc.Unlock? || th.pc.Leave?)
    case NotifyOne(_, w) =>
      && th.In? && th.pc.Notify?
      && (match w
          case Some(i) => i < |s.threads| && SleepsOn(s.threads[i], NotifiedSide(th.call))
          case None => forall i :: 0 <= i < |s.threads| ==> !SleepsOn(s.threads[i], NotifiedSide(th.call)))
    case NotifyAll(_) => th.In? && (th.pc.NotifyConsumers? || th.pc.NotifyProducers?)
    case Timeout(_) => th.In? && th.pc.Asleep? && Timed(th.call)
    case LateTimeout(_) => th.In? && th.pc.Woken? && Timed(th.call)
    case Spurious(_) => th.In? && th.pc.Asleep?
  }

  function Put<T>(s: State<T>, t: nat, th: Thread<T>): State<T>
    requires t < |s.threads|
  {
    s.(threads := s.threads[t := th])
  }

  function Move<T>(s: State<T>, t: nat, pc: Pc<T>): State<T>
    requires t < |s.threads| && s.threads[t].In?
  {
    Put(s, t, s.threads[t].(pc := pc))
  }

  /** The mutex is taken at the start of a call or when a wait ends. */
  function AfterAcquire<T>(s: State<T>, t: nat): State<T>
    requires Enabled(s, Acquire(t))
  {
    var In(c, pc) := s.threads[t];
    var locked := s.(lock := Some(t));
    match pc
    case Expired => Move(locked, t, Leave(Failure(c))).(log := s.log + [Event(t, c, Failure(c))])
    case Woken => Move(locked, t, Check)
    case _ => Move(locked, t, if Waits(c) then Check else Act)
  }

  /** The wait loop's guard: go to sleep, releasing the mutex, or leave the loop. */
  function AfterTest<T>(s: State<T>, t: nat): State<T>
    requires Enabled(s, Test(t))
  {
    if Blocked(s.queue, s.threads[t].call) then Move(s, t, Asleep).(lock := None) else Move(s, t, Act)
  }

  /** Successful pushes and pops, and close, unlock explicitly and then notify. */
  predicate Notifies<T>(r: Return<T>) { r.Accepted? || r.Got? || r.Unit? }

  function AfterCommit<T>(s: State<T>, t: nat): State<T>
    requires Enabled(s, Commit(t))
  {
    var c := s.threads[t].call;
    var (q, r) := Execute(s.queue, c);
    Move(s, t, if Notifies(r) then Unlock(r) else Leave(r)).(queue := q, log := s.log + [Event(t, c, r)])
  }

  function AfterRelease<T>(s: State<T>, t: nat): State<T>
    requires Enabled(s, Release(t))
  {
    var In(c, pc) := s.threads[t];
    var unlocked := s.(lock := None);
    match pc
    case Leave(r) => Put(unlocked, t, Returned(c, r))
    case Unlock(r) => Move(unlocked, t, if c.Close? then NotifyConsumers else Notify(r))
  }

  function AfterNotifyOne<T>(s: State<T>, t: nat, woken: Option<nat>): State<T>
    requires Enabled(s, NotifyOne(t, woken))
  {
    var In(c, pc) := s.threads[t];
    var s' := Put(s, t, Returned(c, pc.ret));
    if woken.Some? then Move(s', woken.value, Woken) else s'
  }

  function AfterNotifyAll<T>(s: State<T>, t: nat): State<T>
    requires Enabled(s, NotifyAll(t))
  {
    var In(c, pc) := s.threads[t];
    if pc.NotifyConsumers?
    then Move(s, t, NotifyProducers).(threads := WakeAll(Move(s, t, NotifyProducers).threads, Consumers))
    else Put(s, t, Returned(c, Unit)).(threads := WakeAll(Put(s, t, Returned(c, Unit)).threads, Producers))
  }

  function Apply<T>(s: State<T>, a: Action<T>): (s': State<T>)
    requires Enabled(s, a)
    ensures |s'.threads| == |s.threads| && s'.queue.capacity == s.queue.capacity
  {
    match a
    case Begin(t, c) => Put(s, t, In(c, Want))
    case Acquire(t) => AfterAcquire(s, t)
    case Test(t) => AfterTest(s, t)
    case Commit(t) => AfterCommit(s, t)
    case Release(t) => AfterRelease(s, t)
    case NotifyOne(t, w) => AfterNotifyOne(s, t, w)
    case NotifyAll(t) => AfterNotifyAll(s, t)
    case Timeout(t) => Move(s, t, Expired)
    case LateTimeout(t) => Move(s, t, Expired)
    case Spurious(t) => Move(s, t, Woken)
  }

  /** `run` is a sequence of actions, each enabled when it is taken. */
  ghost predicate Runs<T>(s: State<T>, run: seq<Action<T>>)
    decreases |run|
  {
    |run| == 0 || (Enabled(s, run[0]) && Runs(Apply(s, run[0]), run[1..]))
  }

  ghost function End<T>(s: State<T>, run: seq<Action<T>>): State<T>
    requires Runs(s, run)
    decreases |run|
  {
    if |run| == 0 then s else End(Apply(s, run[0]), run[1..])
  }

  /** The state before the `k`-th action of a run. */
  ghost function StateAt<T>(s: State<T>, run: seq<Action<T>>, k: nat): State<T>
    requires Runs(s, run) && k <= |run|
    decreases k
  {
    if k == 0 then s else StateAt(Apply(s, run[0]), run[1..], k - 1)
  }

  // ---------------------------------------------------------------- the safety invariant

  /** What a return value, once decided, keeps saying about the queue. */
  predicate ReturnOk<T>(q: Queue<T>, c: Call<T>, r: Return<T>) {
    && (IsPush(c) ==> r.Accepted? || r.Refused?)
    && (IsPop(c) ==> r.Got? || r.Nothing?)
    && (c.Close? ==> r.Unit? && q.closed)
    && (!Waits(c) && !c.Close? ==> r.Flag? || r.Count?)
    && (c.Push? && r.Refused? ==> q.closed)
    && (c.Pop? && r.Nothing? ==> q.closed && Empty(q))
  }

  predicate ThreadOk<T>(q: Queue<T>, th: Thread<T>) {
    match th
    case Idle => true
    case Returned(c, r) => ReturnOk(q, c, r)
    case In(c, pc) =>
      match pc
      case Want => true
      case Check => Waits(c)
      case Asleep => Waits(c)
      case Woken => Waits(c)
      case Expired => Timed(c)
      case Act => !Blocked(q, c)
      case Leave(r) => ReturnOk(q, c, r) && !Notifies(r)
      case Unlock(r) => ReturnOk(q, c, r) && Notifies(r)
      case Notify(r) => ReturnOk(q, c, r) && Notifies(r) && Waits(c)
      case NotifyConsumers => c.Close? && q.closed
      case NotifyProducers => c.Close? && q.closed
  }

  ghost predicate Inv<T>(s: State<T>) {
    && |s.queue.items| <= s.queue.capacity
    && (s.lock.Some? ==> s.lock.value < |s.threads|)
    && (forall t :: 0 <= t < |s.threads| ==> (Holds(s.threads[t]) <==> s.lock == Some(t)))
    && (forall t :: 0 <= t < |s.threads| ==> ThreadOk(s.queue, s.threads[t]))
    && LegalLog(Fresh(s.queue.capacity), s.log)
    && Replay(Fresh(s.queue.capacity), s.log) == s.queue
  }

  lemma InvInit<T>(capacity: nat, n: nat)
    ensures Inv(Init<T>(capacity, n))
  {
  }

  /** A critical section leaves every other thread's facts standing: only one thread is at Act. */
  lemma CommitKeepsOthers<T>(q: Queue<T>, c: Call<T>, th: Thread<T>)
    requires ThreadOk(q, th) && !Holds(th) && !Blocked(q, c)
    ensures ThreadOk(Execute(q, c).0, th)
  {
  }

  /** A step of thread `t` that touches neither the queue nor the other threads. */
  lemma {:induction false} InvOneThread<T>(s: State<T>, s': State<T>, t: nat, th: Thread<T>)
    requires Inv(s) && t < |s.threads| && ThreadOk(s.queue, th)
    requires s' == s.(threads := s.threads[t := th], lock := s'.lock)
    requires if Holds(th) then s.lock in {None, Some(t)} && s'.lock == Some(t)
             else s'.lock == if Holds(s.threads[t]) then None else s.lock
    ensures Inv(s')
  {
  }

  lemma {:induction false} InvTimedFailure<T>(s: State<T>, e: Event<T>)
    requires Inv(s) && TimedFailure(e)
    ensures Inv(s.(log := s.log + [e]))
  {
    Snoc(Fresh(s.queue.capacity), s.log, e);
  }

  lemma {:induction false} InvAcquire<T>(s: State<T>, t: nat)
    requires Inv(s) && Enabled(s, Acquire(t))
    ensures Inv(AfterAcquire(s, t))
  {
    var c := s.threads[t].call;
    var s' := AfterAcquire(s, t);
    InvOneThread(s, s'.(log := s.log), t, s'.threads[t]);
    if s.threads[t].pc.Expired? {
      InvTimedFailure(s'.(log := s.log), Event(t, c, Failure(c)));
    }
  }

  /** A commit by the holder, seen piece by piece. */
  lemma {:induction false} InvCommitParts<T>(s: State<T>, t: nat)
    requires Inv(s) && Enabled(s, Commit(t))
    ensures var s' := AfterCommit(s, t);
            && |s'.queue.items| <= s'.queue.capacity == s.queue.capacity && s'.lock == s.lock == Some(t)
            && Holds(s'.threads[t]) && ThreadOk(s'.queue, s'.threads[t])
            && forall i :: 0 <= i < |s.threads| && i != t ==> s'.threads[i] == s.threads[i]
  {
    assert Holds(s.threads[t]) && ThreadOk(s.queue, s.threads[t]);
  }

  lemma {:induction false} InvCommit<T>(s: State<T>, t: nat)
    requires Inv(s) && Enabled(s, Commit(t))
    ensures Inv(AfterCommit(s, t))
  {
    var c, s' := s.threads[t].call, AfterCommit(s, t);
    InvCommitParts(s, t);
    assert ThreadOk(s.queue, s.threads[t]);
    Snoc(Fresh(s.queue.capacity), s.log, Event(t, c, Execute(s.queue, c).1));
    forall i | 0 <= i < |s.threads| && i != t
      ensures ThreadOk(s'.queue, s'.threads[i])
    {
      CommitKeepsOthers(s.queue, c, s.threads[i]);
    }
  }

  lemma WakeKeepsThread<T>(q: Queue<T>, th: Thread<T>, side: Side)
    requires ThreadOk(q, th)
    ensures ThreadOk(q, Wake(th, side)) && (Holds(Wake(th, side)) <==> Holds(th))
  {
  }

  lemma {:induction false} InvWakeAll<T>(s: State<T>, side: Side)
    requires Inv(s)
    ensures Inv(s.(threads := WakeAll(s.threads, side)))
  {
    var s' := s.(threads := WakeAll(s.threads, side));
    forall i | 0 <= i < |s.threads|
      ensures ThreadOk(s'.queue, s'.threads[i]) && (Holds(s'.threads[i]) <==> s'.lock == Some(i))
    {
      WakeKeepsThread(s.queue, s.threads[i], side);
    }
  }

  lemma {:induction false} InvNotifyOne<T>(s: State<T>, t: nat, w: Option<nat>)
    requires Inv(s) && Enabled(s, NotifyOne(t, w))
    ensures Inv(AfterNotifyOne(s, t, w))
  {
    var mid := Put(s, t, Returned(s.threads[t].call, s.threads[t].pc.ret));
    InvOneThread(s, mid, t, mid.threads[t]);
    if w.Some? { InvOneThread(mid, Move(mid, w.value, Woken), w.value, mid.threads[w.value].(pc := Woken)); }
  }

  lemma {:induction false} InvNotifyAll<T>(s: State<T>, t: nat)
    requires Inv(s) && Enabled(s, NotifyAll(t))
    ensures Inv(AfterNotifyAll(s, t))
  {
    var c, first := s.threads[t].call, s.threads[t].pc.NotifyConsumers?;
    var th := if first then In(c, NotifyProducers) else Returned(c, Unit);
    InvOneThread(s, Put(s, t, th), t, th);
    InvWakeAll(Put(s, t, th), if first then Consumers else Producers);
  }

  /** The steps that leave the queue and the other threads alone. */
  lemma {:induction false} InvQuiet<T>(s: State<T>, a: Action<T>)
    requires Inv(s) && Enabled(s, a)
    requires !a.Acquire? && !a.Commit? && !a.NotifyOne? && !a.NotifyAll?
    ensures Inv(Apply(s, a))
  {
    InvOneThread(s, Apply(s, a), a.t, Apply(s, a).threads[a.t]);
  }

  lemma {:induction false} InvStep<T>(s: State<T>, a: Action<T>)
    requires Inv(s) && Enabled(s, a)
    ensures Inv(Apply(s, a))
  {
    match a
    case Acquire(t) => InvAcquire(s, t);
    case Commit(t) => InvCommit(s, t);
    case NotifyOne(t, w) => InvNotifyOne(s, t, w);
    case NotifyAll(t) => InvNotifyAll(s, t);
    case _ => InvQuiet(s, a);
  }

  /** Every reachable state satisfies the invariant, spurious wake-ups and timeouts of both kinds included. */
  lemma {:induction false} InvRun<T>(s: State<T>, run: seq<Action<T>>)
    requires Inv(s) && Runs(s, run)
    ensures Inv(End(s, run))
    decreases |run|
  {
    if |run| > 0 {
      InvStep(s, run[0]);
      InvRun(Apply(s, run[0]), run[1..]);
    }
  }
}
