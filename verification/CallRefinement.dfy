/**
 The methods of the queue object and the lock-level machine agree: a call of the machine is
 the method's call under the wake-ups that the run itself gives it.
 */
module CallRefinement {
  import opened AtomicQueue
  import opened Protocol
  import opened Refinement
  import opened BlockingQueue

  // ---------------------------------------------------------------- the wake-ups of a run

  /** The position of thread `t`'s next taking of the mutex, or the end of the run. */
  function NextAcquire<T>(run: seq<Action<T>>, t: nat): (k: nat)
    ensures k <= |run|
    ensures k < |run| ==> run[k].Acquire? && run[k].t == t
    ensures forall i :: 0 <= i < k ==> !(run[i].Acquire? && run[i].t == t)
  {
    if |run| == 0 || (run[0].Acquire? && run[0].t == t) then 0 else 1 + NextAcquire(run[1..], t)
  }

  /** What happens before thread `t` has the mutex. */
  ghost function UntilMutex<T>(s: State<T>, run: seq<Action<T>>, t: nat): seq<Event<T>>
    requires Runs(s, run)
  {
    EventsUpTo(s, run, NextAcquire(run, t))
  }

  /** Whether thread `t` comes to the mutex with its wait timed out. */
  ghost predicate ComesExpired<T>(s: State<T>, run: seq<Action<T>>, t: nat)
    requires Runs(s, run)
  {
    var s' := StateAt(s, run, NextAcquire(run, t));
    t < |s'.threads| && s'.threads[t].In? && s'.threads[t].pc.Expired?
  }

  /** The first action is thread `t` finding its wait condition true, so that it falls asleep. */
  predicate FallsAsleep<T>(s: State<T>, run: seq<Action<T>>, t: nat) {
    |run| > 0 && Enabled(s, run[0]) && run[0].Test? && run[0].t == t && Blocked(s.queue, s.threads[t].call)
  }

  /** How often thread `t` falls asleep in the run. */
  ghost function Sleeps<T>(s: State<T>, run: seq<Action<T>>, t: nat): nat
    requires Runs(s, run)
    decreases |run|
  {
    if |run| == 0 then 0 else
      (if FallsAsleep(s, run, t) then 1 else 0) + Sleeps(Apply(s, run[0]), run[1..], t)
  }

  /**
   The wake-ups the run gives to thread `t`: one for each time it falls asleep, holding the
   events from there to its next taking of the mutex, and whether it took it timed out.
   */
  ghost function WakesOf<T>(s: State<T>, run: seq<Action<T>>, t: nat): (wakes: seq<Wake<T>>)
    requires Runs(s, run)
    ensures |wakes| == Sleeps(s, run, t)
    decreases |run|
  {
    if |run| == 0 then [] else
      var s', rest := Apply(s, run[0]), run[1..];
      (if FallsAsleep(s, run, t) then [Wake(UntilMutex(s', rest, t), ComesExpired(s', rest, t))] else [])
      + WakesOf(s', rest, t)
  }

  /** Events of threads other than `t`, among `n` threads. */
  predicate Foreign<T>(evs: seq<Event<T>>, t: nat, n: nat) {
    forall i :: 0 <= i < |evs| ==> evs[i].caller < n && evs[i].caller != t
  }

  /**
   Wake-ups that a call of thread `t` can get: each follows a sleep, the events between are
   legal and of other threads, and only the last may have timed out, and only in a timed call.
   */
  ghost predicate Fitting<T>(q: Queue<T>, c: Call<T>, t: nat, n: nat, wakes: seq<Wake<T>>)
    decreases |wakes|
  {
    |wakes| == 0 ||
    (&& Blocked(q, c) && LegalLog(q, wakes[0].meanwhile) && Foreign(wakes[0].meanwhile, t, n)
     && (wakes[0].timedOut ==> Timed(c) && |wakes| == 1)
     && Fitting(Replay(q, wakes[0].meanwhile), c, t, n, wakes[1..]))
  }

  lemma {:induction false} FittingIsPlausible<T>(q: Queue<T>, c: Call<T>, t: nat, n: nat, wakes: seq<Wake<T>>)
    requires Fitting(q, c, t, n, wakes)
    ensures Plausible(q, wakes)
    decreases |wakes|
  {
    if |wakes| > 0 { FittingIsPlausible(Replay(q, wakes[0].meanwhile), c, t, n, wakes[1..]); }
  }

  // ---------------------------------------------------------------- the account of a call

  /** The rest of a call: first the wait for the mutex, then either a timeout or the method. */
  datatype Account<+T> = Account(first: seq<Event<T>>, timedOut: bool, wakes: seq<Wake<T>>)

  /** The account that the run itself gives, from any point of the call before its effect. */
  ghost function AccountOf<T>(s: State<T>, run: seq<Action<T>>, t: nat): Account<T>
    requires Runs(s, run) && t < |s.threads|
  {
    if Holds(s.threads[t]) then Account([], false, WakesOf(s, run, t))
    else Account(UntilMutex(s, run, t), ComesExpired(s, run, t), WakesOf(s, run, t))
  }

  /** The events up to and including the call's own. */
  ghost function Told<T>(q: Queue<T>, c: Call<T>, t: nat, acc: Account<T>): seq<Event<T>> {
    acc.first +
    (if acc.timedOut then [Event(t, c, Failure(c))] else History(Replay(q, acc.first), c, t, acc.wakes))
  }

  /** The account fits the call, its return value and the events of the run. */
  ghost predicate Explains<T>(q: Queue<T>, c: Call<T>, t: nat, n: nat, r: Return<T>, evs: seq<Event<T>>,
        acc: Account<T>) {
    && Told(q, c, t, acc) <= evs
    && LegalLog(q, acc.first) && Foreign(acc.first, t, n)
    && (acc.timedOut ==> Timed(c) && r == Failure(c) && acc.wakes == [])
    && (!acc.timedOut ==>
        && Fitting(Replay(q, acc.first), c, t, n, acc.wakes)
        && CallResult(Replay(q, acc.first), c, acc.wakes).1 == Done(r))
  }

  lemma Regrouped<A>(m: seq<A>, f: seq<A>, t: seq<A>, evs: seq<A>)
    requires f + t <= evs
    ensures (m + f) + t <= m + evs
  {
    assert (m + f) + t == m + (f + t);
  }

  /** Events of the others come first. */
  lemma Prepend<T>(q: Queue<T>, c: Call<T>, t: nat, n: nat, r: Return<T>, mine: seq<Event<T>>, evs: seq<Event<T>>,
        acc: Account<T>)
    requires LegalLog(q, mine) && Explains(Replay(q, mine), c, t, n, r, evs, acc) && Foreign(mine, t, n)
    ensures Explains(q, c, t, n, r, mine + evs, acc.(first := mine + acc.first))
  {
    ReplayConcat(q, mine, acc.first);
    var tail := if acc.timedOut then [Event(t, c, Failure(c))]
                else History(Replay(Replay(q, mine), acc.first), c, t, acc.wakes);
    Regrouped(mine, acc.first, tail, evs);
  }

  function Asleepen<T>(acc: Account<T>): Account<T> {
    Account([], false, [Wake(acc.first, acc.timedOut)] + acc.wakes)
  }

  /** Falling asleep turns the account of the sleep into the first wake-up. */
  lemma FallAsleep<T>(q: Queue<T>, c: Call<T>, t: nat, n: nat, r: Return<T>, evs: seq<Event<T>>, acc: Account<T>)
    requires Blocked(q, c) && Explains(q, c, t, n, r, evs, acc)
    ensures Explains(q, c, t, n, r, evs, Asleepen(acc))
  {
    var wakes := Asleepen(acc).wakes;
    assert wakes[1..] == acc.wakes;
    assert Told(q, c, t, Asleepen(acc)) == Told(q, c, t, acc);
  }

  lemma DirectAccount<T>(q: Queue<T>, c: Call<T>, t: nat, n: nat, later: seq<Event<T>>)
    requires !Blocked(q, c)
    ensures Explains(q, c, t, n, Execute(q, c).1, [Event(t, c, Execute(q, c).1)] + later, Account([], false, []))
  {
  }

  lemma TimedOutAccount<T>(q: Queue<T>, c: Call<T>, t: nat, n: nat, later: seq<Event<T>>)
    requires Timed(c)
    ensures Explains(q, c, t, n, Failure(c), [Event(t, c, Failure(c))] + later, Account([], true, []))
  {
  }

  /** A call that has taken effect does not wait any more. */
  lemma {:induction false} DecidedSleepsNoMore<T>(s: State<T>, run: seq<Action<T>>, t: nat, c: Call<T>)
    requires Inv(s) && Runs(s, run) && SameCall(run, t) && Doing(s, t, c) && !ClientOf(s.threads[t]).Invoked?
    ensures WakesOf(s, run, t) == []
    decreases |run|
  {
    if |run| > 0 {
      TailSameCall(run, t);
      StepSeenBy(s, run[0], t, c);
      StaysDoing(s, run[0], t, c);
      InvStep(s, run[0]);
      DecidedSleepsNoMore(Apply(s, run[0]), run[1..], t, c);
    }
  }

  /** After the step in which the call takes effect. */
  lemma {:induction false} AfterEffect<T>(s: State<T>, run: seq<Action<T>>, t: nat, c: Call<T>)
    requires Inv(s) && Runs(s, run) && SameCall(run, t) && |run| > 0 && Doing(s, t, c)
    requires Doing(Apply(s, run[0]), t, c) && ClientOf(Apply(s, run[0]).threads[t]).Effected?
    requires t < |End(s, run).threads| && End(s, run).threads[t].Returned?
    ensures End(s, run).threads[t].ret == ClientOf(Apply(s, run[0]).threads[t]).ret
    ensures WakesOf(Apply(s, run[0]), run[1..], t) == []
  {
    TailSameCall(run, t);
    InvStep(s, run[0]);
    OneEventAhead(Apply(s, run[0]), run[1..], t, c);
    DecidedSleepsNoMore(Apply(s, run[0]), run[1..], t, c);
  }

  /** The step in which the call takes effect, by its commit or as a timed failure. */
  lemma {:induction false} TakesEffect<T>(s: State<T>, run: seq<Action<T>>, t: nat, c: Call<T>)
    requires Inv(s) && Runs(s, run) && SameCall(run, t) && |run| > 0 && run[0].t == t
    requires Doing(s, t, c) && s.threads[t].In?
    requires run[0].Commit? || (run[0].Acquire? && s.threads[t].pc.Expired?)
    requires t < |End(s, run).threads| && End(s, run).threads[t].Returned?
    ensures Explains(s.queue, c, t, |s.threads|, End(s, run).threads[t].ret, Events(s, run),
                     Account([], run[0].Acquire?, []))
    ensures WakesOf(s, run, t) == []
  {
    var s', rest := Apply(s, run[0]), run[1..];
    assert ThreadOk(s.queue, s.threads[t]);
    AfterEffect(s, run, t, c);
    if run[0].Commit? {
      DirectAccount(s.queue, c, t, |s.threads|, Events(s', rest));
    } else {
      TimedOutAccount(s.queue, c, t, |s.threads|, Events(s', rest));
    }
  }

  /** Steps of the others: they cannot touch the queue while `t` is inside its critical section. */
  lemma {:induction false} OthersStep<T>(s: State<T>, a: Action<T>, t: nat)
    requires Inv(s) && Enabled(s, a) && a.t != t && t < |s.threads| && s.threads[t].In?
    ensures var th := Apply(s, a).threads[t];
            th == s.threads[t] || (s.threads[t].pc.Asleep? && th == s.threads[t].(pc := Woken))
    ensures Holds(s.threads[t]) ==> NewEvents(s, a) == []
  {
    if Holds(s.threads[t]) { assert !Holds(s.threads[a.t]); }
  }

  predicate Undecided<T>(th: Thread<T>) {
    th.In? && (th.pc.Want? || th.pc.Check? || th.pc.Act? || th.pc.Asleep? || th.pc.Woken? || th.pc.Expired?)
  }

  /** An undecided thread takes effect, takes the mutex, tests its condition, or merely moves on. */
  lemma {:induction false} StillUndecided<T>(s: State<T>, a: Action<T>, t: nat, c: Call<T>)
    requires Inv(s) && Enabled(s, a) && !(a.Begin? && a.t == t) && Doing(s, t, c) && Undecided(s.threads[t])
    requires !(a.t == t && (a.Commit? || (a.Acquire? && s.threads[t].pc.Expired?)))
    ensures Doing(Apply(s, a), t, c) && Undecided(Apply(s, a).threads[t])
    ensures a.t == t || Holds(s.threads[t]) ==> NewEvents(s, a) == []
    ensures Foreign(NewEvents(s, a), t, |s.threads|)
    ensures Holds(Apply(s, a).threads[t]) <==>
            if a.t == t && a.Acquire? then true
            else Holds(s.threads[t]) && !(a.t == t && a.Test? && Blocked(s.queue, c))
  {
    assert ThreadOk(s.queue, s.threads[t]);
    if a.t != t { OthersStep(s, a, t); }
  }

  /** How the run's own account grows by one step that neither takes effect nor falls asleep. */
  lemma {:induction false} AccountStep<T>(s: State<T>, run: seq<Action<T>>, t: nat, c: Call<T>)
    requires Inv(s) && Runs(s, run) && |run| > 0 && !(run[0].Begin? && run[0].t == t)
    requires Doing(s, t, c) && Undecided(s.threads[t])
    requires !(run[0].t == t && (run[0].Commit? || (run[0].Acquire? && s.threads[t].pc.Expired?)))
    requires !FallsAsleep(s, run, t)
    ensures t < |Apply(s, run[0]).threads|
    ensures var acc := AccountOf(Apply(s, run[0]), run[1..], t);
            AccountOf(s, run, t) == acc.(first := NewEvents(s, run[0]) + acc.first)
  {
    StillUndecided(s, run[0], t, c);
    assert ThreadOk(s.queue, s.threads[t]);
  }

  /** From any point of a call before its effect, the run's own account explains the rest. */
  lemma {:induction false} RestOfCall<T>(s: State<T>, run: seq<Action<T>>, t: nat, c: Call<T>)
    requires Inv(s) && Runs(s, run) && SameCall(run, t) && Doing(s, t, c) && Undecided(s.threads[t])
    requires t < |End(s, run).threads| && End(s, run).threads[t].Returned?
    ensures Explains(s.queue, c, t, |s.threads|, End(s, run).threads[t].ret, Events(s, run), AccountOf(s, run, t))
    ensures Holds(s.threads[t]) || NextAcquire(run, t) < |run|
    decreases |run|
  {
    var a := run[0];
    var s', rest, r := Apply(s, a), run[1..], End(s, run).threads[t].ret;
    if a.t == t && (a.Commit? || (a.Acquire? && s.threads[t].pc.Expired?)) {
      TakesEffect(s, run, t, c);
    } else {
      TailSameCall(run, t);
      InvStep(s, a);
      EventsStep(s, a);
      StillUndecided(s, a, t, c);
      RestOfCall(s', rest, t, c);
      var acc := AccountOf(s', rest, t);
      Prepend(s.queue, c, t, |s.threads|, r, NewEvents(s, a), Events(s', rest), acc);
      if FallsAsleep(s, run, t) {
        assert NewEvents(s, a) + acc.first == acc.first;
        FallAsleep(s.queue, c, t, |s.threads|, r, Events(s, run), acc);
      } else {
        AccountStep(s, run, t, c);
      }
    }
  }

  /**
   A call of the machine is a call of the method: over any stretch of a run in which thread
   `t` carries out one call from start to return, take what happened before `t` first got
   the mutex, and the wake-ups the run gave it, one for each time it fell asleep. The method
   called on the queue found then, under these wake-ups, returns the same value, and its
   history follows what happened before in the history of the run.
   */
  lemma {:induction false} MachineCallIsMethodCall<T>(s: State<T>, run: seq<Action<T>>, t: nat, c: Call<T>)
    requires Inv(s) && Runs(s, run) && SameCall(run, t)
    requires t < |s.threads| && s.threads[t] == In(c, Want)
    requires t < |End(s, run).threads| && End(s, run).threads[t].Returned?
    ensures var before, wakes := UntilMutex(s, run, t), WakesOf(s, run, t);
            var found := Replay(s.queue, before);
            && NextAcquire(run, t) < |run|
            && StateAt(s, run, NextAcquire(run, t)).queue == found
            && LegalLog(s.queue, before) && Fitting(found, c, t, |s.threads|, wakes) && Plausible(found, wakes)
            && CallResult(found, c, wakes).1 == Done(End(s, run).threads[t].ret)
            && before + History(found, c, t, wakes) <= Events(s, run)
  {
    RestOfCall(s, run, t, c);
    WantNeverExpires(s, run, t, c);
    QueueAt(s, run, NextAcquire(run, t));
    FittingIsPlausible(Replay(s.queue, UntilMutex(s, run, t)), c, t, |s.threads|, WakesOf(s, run, t));
  }

  /** Before its first taking of the mutex a call cannot time out. */
  lemma {:induction false} WantNeverExpires<T>(s: State<T>, run: seq<Action<T>>, t: nat, c: Call<T>)
    requires Inv(s) && Runs(s, run) && SameCall(run, t) && Doing(s, t, c) && s.threads[t] == In(c, Want)
    ensures !ComesExpired(s, run, t)
    decreases |run|
  {
    if |run| > 0 && !(run[0].Acquire? && run[0].t == t) {
      TailSameCall(run, t);
      InvStep(s, run[0]);
      if run[0].t != t { OthersStep(s, run[0], t); }
      WantNeverExpires(Apply(s, run[0]), run[1..], t, c);
    }
  }
}
