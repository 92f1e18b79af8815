/**
 The converse of the agreement between method and machine: which wake-ups a run of the
 machine can give to a call. They must fit the call, let it return, and have a cause for
 every failed timed call of the other threads; and any such wake-ups are given by some run.
 */
module CallRealisation {
  import opened Wrappers
  import opened AtomicQueue
  import opened Protocol
  import opened Refinement
  import opened BlockingQueue
  import opened Causes
  import opened CallRefinement

  // ---------------------------------------------------------------- joining runs

  /** A piece of a run in which thread `t` takes no step. */
  ghost predicate Aside<T>(s: State<T>, seg: seq<Action<T>>, t: nat, s': State<T>, evs: seq<Event<T>>) {
    && Runs(s, seg) && End(s, seg) == s' && Events(s, seg) == evs
    && forall k :: 0 <= k < |seg| ==> seg[k].t != t
  }

  lemma {:induction false} JoinRuns<T>(s: State<T>, seg: seq<Action<T>>, run: seq<Action<T>>)
    requires Runs(s, seg) && Runs(End(s, seg), run)
    ensures Runs(s, seg + run) && End(s, seg + run) == End(End(s, seg), run)
    decreases |seg|
  {
    if |seg| == 0 {
      assert seg + run == run;
    } else {
      assert (seg + run)[0] == seg[0] && (seg + run)[1..] == seg[1..] + run;
      JoinRuns(Apply(s, seg[0]), seg[1..], run);
    }
  }

  lemma {:induction false} Join<T>(s: State<T>, seg: seq<Action<T>>, run: seq<Action<T>>)
    requires Runs(s, seg) && Runs(End(s, seg), run)
    ensures Runs(s, seg + run) && End(s, seg + run) == End(End(s, seg), run)
    ensures Events(s, seg + run) == Events(s, seg) + Events(End(s, seg), run)
    decreases |seg|
  {
    JoinRuns(s, seg, run);
    if |seg| == 0 {
      assert seg + run == run;
    } else {
      var s', rest := Apply(s, seg[0]), seg[1..];
      assert (seg + run)[0] == seg[0] && (seg + run)[1..] == rest + run;
      Join(s', rest, run);
    }
  }

  /** To thread `t`, the first run is the second with the events `evs` of others in front. */
  ghost predicate Delays<T>(s: State<T>, run: seq<Action<T>>, s': State<T>, run': seq<Action<T>>, t: nat,
        evs: seq<Event<T>>) {
    && Runs(s, run) && Runs(s', run')
    && WakesOf(s, run, t) == WakesOf(s', run', t)
    && UntilMutex(s, run, t) == evs + UntilMutex(s', run', t)
    && (ComesExpired(s, run, t) <==> ComesExpired(s', run', t))
    && (SameCall(run', t) ==> SameCall(run, t))
  }

  lemma {:induction false} DelaysNothing<T>(s: State<T>, run: seq<Action<T>>, t: nat)
    requires Runs(s, run)
    ensures Delays(s, run, s, run, t, [])
  {
  }

  lemma {:induction false} DelaysStep<T>(s: State<T>, run: seq<Action<T>>, t: nat)
    requires Runs(s, run) && |run| > 0 && run[0].t != t
    ensures Delays(s, run, Apply(s, run[0]), run[1..], t, NewEvents(s, run[0]))
  {
    var s', rest := Apply(s, run[0]), run[1..];
    assert [] + WakesOf(s', rest, t) == WakesOf(s', rest, t);
    if SameCall(rest, t) {
      forall k | 0 <= k < |run| ensures !(run[k].Begin? && run[k].t == t) {
        if k > 0 { assert run[k] == rest[k - 1]; }
      }
    }
  }

  lemma {:induction false} DelaysTwice<T>(s1: State<T>, run1: seq<Action<T>>, s2: State<T>, run2: seq<Action<T>>,
        s3: State<T>,
                       run3: seq<Action<T>>, t: nat, evs: seq<Event<T>>, evs': seq<Event<T>>)
    requires Delays(s1, run1, s2, run2, t, evs) && Delays(s2, run2, s3, run3, t, evs')
    ensures Delays(s1, run1, s3, run3, t, evs + evs')
  {
    assert evs + (evs' + UntilMutex(s3, run3, t)) == (evs + evs') + UntilMutex(s3, run3, t);
  }

  /** What a run looks like to thread `t` with such a piece in front of it. */
  lemma {:induction false} AsideThen<T>(s: State<T>, seg: seq<Action<T>>, t: nat, s': State<T>, evs: seq<Event<T>>,
                                        run: seq<Action<T>>)
    requires Aside(s, seg, t, s', evs) && Runs(s', run)
    ensures Delays(s, seg + run, s', run, t, evs)
    decreases |seg|
  {
    Join(s, seg, run);
    if |seg| == 0 {
      assert seg + run == run;
      DelaysNothing(s, run, t);
    } else {
      var s1, rest := Apply(s, seg[0]), seg[1..];
      assert (seg + run)[0] == seg[0] && (seg + run)[1..] == rest + run;
      DelaysStep(s, seg + run, t);
      AsideThen(s1, rest, t, s', Events(s1, rest), run);
      DelaysTwice(s, seg + run, s1, rest + run, s', run, t, NewEvents(s, seg[0]), Events(s1, rest));
    }
  }

  /** One more step of another thread. */
  lemma {:induction false} AsideStep<T>(s: State<T>, seg: seq<Action<T>>, t: nat, mid: State<T>, evs: seq<Event<T>>,
        a: Action<T>)
    returns (seg': seq<Action<T>>)
    requires Aside(s, seg, t, mid, evs) && Enabled(mid, a) && a.t != t
    ensures Aside(s, seg', t, Apply(mid, a), evs + NewEvents(mid, a))
  {
    Join(s, seg, [a]);
    seg' := seg + [a];
    assert Events(mid, [a]) == NewEvents(mid, a) + [];
  }

  lemma {:induction false} AsideConcat<T>(s: State<T>, a: seq<Action<T>>, t: nat, mid: State<T>, evs: seq<Event<T>>,
                       b: seq<Action<T>>, s': State<T>, evs': seq<Event<T>>)
    requires Aside(s, a, t, mid, evs) && Aside(mid, b, t, s', evs')
    ensures Aside(s, a + b, t, s', evs + evs')
  {
    Join(s, a, b);
  }

  // ---------------------------------------------------------------- the others' events

  predicate OthersOut<T>(s: State<T>, t: nat) {
    forall i :: 0 <= i < |s.threads| && i != t ==> !s.threads[i].In?
  }

  /** A thread between calls, or ready to fail: its wait has timed out. */
  predicate Ready<T>(th: Thread<T>) { th.In? ==> th.pc.Expired? && Timed(th.call) }

  /** Thread `t` is in its wait, the mutex is free and all others are ready. */
  ghost predicate Waiting<T>(s: State<T>, t: nat, c: Call<T>) {
    && s.lock.None? && Waits(c)
    && (forall i :: 0 <= i < |s.threads| && i != t ==> Ready(s.threads[i]))
    && t < |s.threads| && (s.threads[t] == In(c, Asleep) || s.threads[t] == In(c, Woken))
  }

  /** Threads other than `t` and `h` have not moved. */
  ghost predicate Untouched<T>(s: State<T>, s': State<T>, t: nat, h: nat) {
    && |s'.threads| == |s.threads|
    && forall i :: 0 <= i < |s.threads| && i != t && i != h ==> s'.threads[i] == s.threads[i]
  }

  /** Thread `h`, between calls, starts its call and takes the mutex. */
  lemma {:induction false} HelperEnters<T>(s: State<T>, t: nat, c: Call<T>, h: nat, call: Call<T>)
    returns (seg: seq<Action<T>>)
    requires Waiting(s, t, c) && h < |s.threads| && h != t && !s.threads[h].In?
    ensures Aside(s, seg, t, Put(s, h, In(call, if Waits(call) then Check else Act)).(lock := Some(h)), [])
  {
    var s1 := Apply(s, Begin(h, call));
    seg := AsideStep(s, [], t, s, [], Begin(h, call));
    seg := AsideStep(s, seg, t, s1, [] + [], Acquire(h));
    assert s1.threads[h := In(call, if Waits(call) then Check else Act)]
        == s.threads[h := In(call, if Waits(call) then Check else Act)];
    assert [] + NewEvents(s1, Acquire(h)) == [];
  }

  /** Thread `h` starts a call whose condition is true, and falls asleep. */
  lemma {:induction false} HelperSleeps<T>(s: State<T>, t: nat, c: Call<T>, h: nat, call: Call<T>)
    returns (seg: seq<Action<T>>)
    requires Waiting(s, t, c) && h < |s.threads| && h != t && !s.threads[h].In?
    requires Waits(call) && Blocked(s.queue, call)
    ensures Aside(s, seg, t, Put(s, h, In(call, Asleep)), [])
  {
    seg := HelperEnters(s, t, c, h, call);
    var s1 := Put(s, h, In(call, Check)).(lock := Some(h));
    seg := AsideStep(s, seg, t, s1, [], Test(h));
    assert Apply(s1, Test(h)) == Put(s, h, In(call, Asleep));
    assert [] + NewEvents(s1, Test(h)) == [];
  }

  /** Thread `h` starts a timed call whose condition is true, and times out without taking the mutex again. */
  lemma {:induction false} HelperArms<T>(s: State<T>, t: nat, c: Call<T>, h: nat, call: Call<T>)
    returns (seg: seq<Action<T>>)
    requires Waiting(s, t, c) && h < |s.threads| && h != t && !s.threads[h].In?
    requires Timed(call) && Blocked(s.queue, call)
    ensures Aside(s, seg, t, Put(s, h, In(call, Expired)), [])
  {
    seg := HelperSleeps(s, t, c, h, call);
    var s1 := Put(s, h, In(call, Asleep));
    seg := AsideStep(s, seg, t, s1, [], Timeout(h));
    assert Apply(s1, Timeout(h)) == Put(s, h, In(call, Expired));
    assert [] + NewEvents(s1, Timeout(h)) == [];
  }

  /** Thread `h`, which has timed out, takes the mutex and returns. */
  lemma {:induction false} HelperExpires<T>(s: State<T>, t: nat, c: Call<T>, e: Event<T>)
    returns (seg: seq<Action<T>>, s': State<T>)
    requires Waiting(s, t, c) && e.caller < |s.threads| && e.caller != t
    requires s.threads[e.caller] == In(e.call, Expired) && e.ret == Failure(e.call)
    ensures Aside(s, seg, t, s', [e]) && Waiting(s', t, c) && Untouched(s, s', t, e.caller)
    ensures s'.queue == s.queue && !s'.threads[e.caller].In?
  {
    var h := e.caller;
    seg := AsideStep(s, [], t, s, [], Acquire(h));
    var s1 := Apply(s, Acquire(h));
    assert [] + NewEvents(s, Acquire(h)) == [e];
    seg := AsideStep(s, seg, t, s1, [e], Release(h));
    s' := Apply(s1, Release(h));
    assert [e] + [] == [e];
  }

  /** The critical section of another thread, up to the point where it unlocks. */
  lemma {:induction false} HelperCommits<T>(s: State<T>, t: nat, c: Call<T>, e: Event<T>)
    returns (seg: seq<Action<T>>, s': State<T>)
    requires Waiting(s, t, c) && e.caller < |s.threads| && e.caller != t && !s.threads[e.caller].In?
    requires ByItself(s.queue, e)
    ensures Aside(s, seg, t, s', [e]) && s'.queue == Execute(s.queue, e.call).0
    ensures s'.threads == s.threads[e.caller := In(e.call, if Notifies(e.ret) then Unlock(e.ret) else Leave(e.ret))]
  {
    var h := e.caller;
    seg := HelperEnters(s, t, c, h, e.call);
    var s1 := Put(s, h, In(e.call, if Waits(e.call) then Check else Act)).(lock := Some(h));
    var s2 := s1;
    if Waits(e.call) {
      seg := AsideStep(s, seg, t, s1, [], Test(h));
      s2 := Apply(s1, Test(h));
      assert [] + NewEvents(s1, Test(h)) == [];
    }
    seg := AsideStep(s, seg, t, s2, [], Commit(h));
    s' := Apply(s2, Commit(h));
    assert [] + NewEvents(s2, Commit(h)) == [e];
  }

  /** As Waiting, but thread `h` is still on its way out of a call. */
  ghost predicate WaitingBut<T>(s: State<T>, t: nat, c: Call<T>, h: nat) {
    && Waits(c) && h < |s.threads| && h != t && s.threads[h].In?
    && (forall i :: 0 <= i < |s.threads| && i != t && i != h ==> Ready(s.threads[i]))
    && t < |s.threads| && (s.threads[t] == In(c, Asleep) || s.threads[t] == In(c, Woken))
  }

  /** The notification of a push or pop wakes thread `t` if it sleeps on that side, and nobody else. */
  lemma {:induction false} HelperNotifies<T>(s: State<T>, t: nat, c: Call<T>, h: nat) returns (a: Action<T>)
    requires WaitingBut(s, t, c, h) && s.lock.None? && s.threads[h].pc.Notify?
    ensures Enabled(s, a) && a.NotifyOne? && a.t == h && Waiting(Apply(s, a), t, c) && Apply(s, a).queue == s.queue
    ensures Untouched(s, Apply(s, a), t, h) && !Apply(s, a).threads[h].In?
  {
    var side := NotifiedSide(s.threads[h].call);
    if SleepsOn(s.threads[t], side) {
      a := NotifyOne(h, Some(t));
    } else {
      a := NotifyOne(h, None);
    }
  }

  lemma {:induction false} HelperNotifiesConsumers<T>(s: State<T>, t: nat, c: Call<T>, h: nat)
    requires WaitingBut(s, t, c, h) && s.lock.None? && s.threads[h].pc.NotifyConsumers?
    ensures var s' := AfterNotifyAll(s, h);
            && WaitingBut(s', t, c, h) && s'.lock.None? && s'.threads[h].pc.NotifyProducers?
            && s'.queue == s.queue && Untouched(s, s', t, h)
  {
  }

  lemma {:induction false} HelperNotifiesProducers<T>(s: State<T>, t: nat, c: Call<T>, h: nat)
    requires WaitingBut(s, t, c, h) && s.lock.None? && s.threads[h].pc.NotifyProducers?
    ensures var s' := AfterNotifyAll(s, h);
            Waiting(s', t, c) && s'.queue == s.queue && Untouched(s, s', t, h) && !s'.threads[h].In?
  {
  }

  lemma {:induction false} HelperNotifiesAll<T>(s: State<T>, t: nat, c: Call<T>, h: nat)
    returns (seg: seq<Action<T>>, s': State<T>)
    requires WaitingBut(s, t, c, h) && s.lock.None? && s.threads[h].pc.NotifyConsumers?
    ensures Aside(s, seg, t, s', []) && Waiting(s', t, c) && s'.queue == s.queue
    ensures Untouched(s, s', t, h) && !s'.threads[h].In?
  {
    HelperNotifiesConsumers(s, t, c, h);
    seg := AsideStep(s, [], t, s, [], NotifyAll(h));
    var s1 := Apply(s, NotifyAll(h));
    HelperNotifiesProducers(s1, t, c, h);
    seg := AsideStep(s, seg, t, s1, [], NotifyAll(h));
    s' := Apply(s1, NotifyAll(h));
  }

  /** The unlock and the notifications, which at most wake thread `t`. */
  lemma {:induction false} HelperLeaves<T>(s: State<T>, t: nat, c: Call<T>, h: nat, call: Call<T>, r: Return<T>)
    returns (seg: seq<Action<T>>, s': State<T>)
    requires WaitingBut(s, t, c, h) && s.threads[h] == In(call, if Notifies(r) then Unlock(r) else Leave(r))
    ensures Aside(s, seg, t, s', []) && Waiting(s', t, c) && s'.queue == s.queue
    ensures Untouched(s, s', t, h) && !s'.threads[h].In?
  {
    seg := AsideStep(s, [], t, s, [], Release(h));
    s' := Apply(s, Release(h));
    if Notifies(r) {
      assert WaitingBut(s', t, c, h);
      if call.Close? {
        var rest, last := HelperNotifiesAll(s', t, c, h);
        AsideConcat(s, seg, t, s', [], rest, last, []);
        seg, s' := seg + rest, last;
      } else {
        var a := HelperNotifies(s', t, c, h);
        seg := AsideStep(s, seg, t, s', [], a);
        s' := Apply(s', a);
      }
    }
  }

  /** A whole call of a thread between calls, decided in its critical section. */
  lemma {:induction false} HelperCalls<T>(s: State<T>, t: nat, c: Call<T>, e: Event<T>)
    returns (seg: seq<Action<T>>, s': State<T>)
    requires Waiting(s, t, c) && e.caller < |s.threads| && e.caller != t && !s.threads[e.caller].In?
    requires ByItself(s.queue, e)
    ensures Aside(s, seg, t, s', [e]) && Waiting(s', t, c) && s'.queue == Execute(s.queue, e.call).0
    ensures Untouched(s, s', t, e.caller) && !s'.threads[e.caller].In?
  {
    var first, mid := HelperCommits(s, t, c, e);
    assert WaitingBut(mid, t, c, e.caller);
    var second, last := HelperLeaves(mid, t, c, e.caller, e.call, e.ret);
    AsideConcat(s, first, t, mid, [e], second, last, []);
    seg, s' := first + second, last;
    assert [e] + [] == [e];
  }

  // ---------------------------------------------------------------- a history of the others

  /** The first event of thread `u`, or the end of the history. */
  function FirstBy<T>(log: seq<Event<T>>, u: nat): (i: nat)
    ensures i <= |log| && Silent(log, 0, i, u) && (i < |log| ==> log[i].caller == u)
  {
    if |log| == 0 || log[0].caller == u then 0
    else
      var i := FirstBy(log[1..], u) + 1;
      assert forall k :: 0 < k < i ==> log[k] == log[1..][k - 1];
      i
  }

  lemma FirstIsUnique<T>(log: seq<Event<T>>, u: nat, i: nat)
    requires i < |log| && log[i].caller == u && Silent(log, 0, i, u)
    ensures FirstBy(log, u) == i
  {
  }

  /** The next event of thread `u` is a timed failure whose condition is true now. */
  predicate Failing<T>(q: Queue<T>, log: seq<Event<T>>, u: nat) {
    var i := FirstBy(log, u);
    i < |log| && TimedFailure(log[i]) && Blocked(q, log[i].call)
  }

  /** Thread `u` has timed out in the call that its next event ends. */
  ghost predicate ArmedFor<T>(th: Thread<T>, log: seq<Event<T>>, u: nat) {
    var i := FirstBy(log, u);
    i < |log| && TimedFailure(log[i]) && th == In(log[i].call, Expired)
  }

  /** Every thread but `t` inside a call is armed for its next event. */
  ghost predicate Matched<T>(log: seq<Event<T>>, ths: seq<Thread<T>>, t: nat) {
    forall u :: 0 <= u < |ths| && u != t && ths[u].In? ==> ArmedFor(ths[u], log, u)
  }

  /** Everything that the future history `log` needs from the state. */
  ghost predicate Prepared<T>(s: State<T>, t: nat, log: seq<Event<T>>) {
    && LegalLog(s.queue, log) && Foreign(log, t, |s.threads|)
    && CausedFrom(s.queue, log, s.threads) && Matched(log, s.threads, t)
  }

  /** Of the threads below `n`, those that are failing are armed. */
  ghost predicate ArmedBelow<T>(s: State<T>, t: nat, log: seq<Event<T>>, n: nat) {
    forall u :: 0 <= u < n && u < |s.threads| && u != t && Failing(s.queue, log, u) ==> ArmedFor(s.threads[u], log, u)
  }

  lemma {:induction false} Arms<T>(s: State<T>, t: nat, c: Call<T>, log: seq<Event<T>>, u: nat)
    returns (seg: seq<Action<T>>, s': State<T>)
    requires Waiting(s, t, c) && Matched(log, s.threads, t) && ArmedBelow(s, t, log, u) && u < |s.threads|
    ensures Aside(s, seg, t, s', []) && s'.queue == s.queue && Untouched(s, s', t, u)
    ensures Waiting(s', t, c) && Matched(log, s'.threads, t) && ArmedBelow(s', t, log, u + 1)
    ensures s.threads[u].In? ==> s' == s
  {
    seg, s' := [], s;
    if u != t && Failing(s.queue, log, u) && !s.threads[u].In? {
      var call := log[FirstBy(log, u)].call;
      seg := HelperArms(s, t, c, u, call);
      s' := Put(s, u, In(call, Expired));
    }
  }

  /** Who has waited keeps waiting while others are armed. */
  ghost predicate WaitsKept<T>(s: State<T>, s': State<T>, t: nat) {
    && |s'.threads| == |s.threads|
    && forall i :: 0 <= i < |s.threads| && i != t && s.threads[i].In? ==> s'.threads[i] == s.threads[i]
  }

  lemma {:induction false} ArmsBelow<T>(s: State<T>, t: nat, c: Call<T>, log: seq<Event<T>>, n: nat)
    returns (seg: seq<Action<T>>, s': State<T>)
    requires Waiting(s, t, c) && Matched(log, s.threads, t) && n <= |s.threads|
    ensures Aside(s, seg, t, s', []) && s'.queue == s.queue && WaitsKept(s, s', t)
    ensures Waiting(s', t, c) && Matched(log, s'.threads, t) && ArmedBelow(s', t, log, n)
    decreases n
  {
    if n == 0 {
      seg, s' := [], s;
    } else {
      var first, mid := ArmsBelow(s, t, c, log, n - 1);
      var second, last := Arms(mid, t, c, log, n - 1);
      AsideConcat(s, first, t, mid, [], second, last, []);
      seg, s' := first + second, last;
    }
  }

  /** Arming takes away no cause. */
  lemma {:induction false} CausesKept<T>(s: State<T>, s': State<T>, t: nat, log: seq<Event<T>>)
    requires CausedFrom(s.queue, log, s.threads) && WaitsKept(s, s', t) && s'.queue == s.queue
    requires Foreign(log, t, |s.threads|)
    ensures CausedFrom(s'.queue, log, s'.threads)
  {
  }

  /** With all failing threads armed, the first event is a commit or comes from an armed thread. */
  lemma {:induction false} FirstIsPossible<T>(s: State<T>, t: nat, log: seq<Event<T>>)
    requires Prepared(s, t, log) && ArmedBelow(s, t, log, |s.threads|) && |log| > 0
    ensures var e := log[0];
            if s.threads[e.caller].In? then TimedFailure(e) && s.threads[e.caller] == In(e.call, Expired)
            else ByItself(s.queue, e)
  {
    var e := log[0];
    ReplayFront(s.queue, log);
    FirstIsUnique(log, e.caller, 0);
    if !s.threads[e.caller].In? && !ByItself(s.queue, e) {
      assert log[..0] == [] && NeedsCause(s.queue, log, 0);
    }
  }

  /** After the first event, the causes of the others are still there. */
  lemma {:induction false} CausesLater<T>(s: State<T>, s': State<T>, t: nat, log: seq<Event<T>>)
    requires Prepared(s, t, log) && ArmedBelow(s, t, log, |s.threads|) && |log| > 0
    requires s'.queue == After(s.queue, log[0]) && Untouched(s, s', t, log[0].caller)
    ensures CausedFrom(s'.queue, log[1..], s'.threads)
  {
    var rest := log[1..];
    forall i | 0 <= i < |rest| && NeedsCause(s'.queue, rest, i)
      ensures HasCause(s'.queue, rest, i) || Pending(rest, i, s'.threads)
    {
      var e := log[i + 1];
      Shift(s.queue, log, i + 1);
      if HasCause(s.queue, log, i + 1) {
        var j: nat :| CauseAt(s.queue, log, i + 1, j);
        if j > 0 {
          assert CauseAt(s'.queue, rest, i, j - 1);
        } else {
          FirstIsUnique(log, e.caller, i + 1);
          SilentFront(log, i + 1, e.caller);
          assert log[..0] == [] && ArmedFor(s.threads[e.caller], log, e.caller);
        }
      } else {
        SilentFront(log, i + 1, e.caller);
      }
    }
  }

  lemma {:induction false} MatchedLater<T>(s: State<T>, s': State<T>, t: nat, log: seq<Event<T>>)
    requires Matched(log, s.threads, t) && |log| > 0
    requires Untouched(s, s', t, log[0].caller)
    requires log[0].caller < |s.threads| && !s'.threads[log[0].caller].In?
    ensures Matched(log[1..], s'.threads, t)
  {
  }

  /** The next event of a prepared history happens. */
  lemma {:induction false} NextEvent<T>(s: State<T>, t: nat, c: Call<T>, log: seq<Event<T>>)
    returns (seg: seq<Action<T>>, s': State<T>)
    requires Waiting(s, t, c) && Prepared(s, t, log) && |log| > 0
    ensures Aside(s, seg, t, s', [log[0]]) && Waiting(s', t, c) && Prepared(s', t, log[1..])
    ensures s'.queue == After(s.queue, log[0]) && |s'.threads| == |s.threads|
  {
    var e := log[0];
    var first, mid := ArmsBelow(s, t, c, log, |s.threads|);
    CausesKept(s, mid, t, log);
    FirstIsPossible(mid, t, log);
    var second, last;
    if mid.threads[e.caller].In? {
      second, last := HelperExpires(mid, t, c, e);
    } else {
      second, last := HelperCalls(mid, t, c, e);
    }
    AsideConcat(s, first, t, mid, [], second, last, [e]);
    seg, s' := first + second, last;
    assert [] + [e] == [e];
    ReplayFront(s.queue, log);
    CausesLater(mid, s', t, log);
    MatchedLater(mid, s', t, log);
    assert Foreign(log[1..], t, |s.threads|);
  }

  /** The first part of a prepared history happens. */
  lemma {:induction false} NextEvents<T>(s: State<T>, t: nat, c: Call<T>, part: seq<Event<T>>, later: seq<Event<T>>)
    returns (seg: seq<Action<T>>, s': State<T>)
    requires Waiting(s, t, c) && Prepared(s, t, part + later)
    ensures Aside(s, seg, t, s', part) && Waiting(s', t, c) && Prepared(s', t, later)
    ensures s'.queue == Replay(s.queue, part) && |s'.threads| == |s.threads|
    decreases |part|
  {
    if |part| == 0 {
      assert part + later == later;
      seg, s' := [], s;
    } else {
      var first, mid := NextEvent(s, t, c, part + later);
      assert (part + later)[1..] == part[1..] + later;
      var second, last := NextEvents(mid, t, c, part[1..], later);
      AsideConcat(s, first, t, mid, [part[0]], second, last, part[1..]);
      seg, s' := first + second, last;
      assert [part[0]] + part[1..] == part;
      ReplayFront(s.queue, part);
    }
  }

  // ---------------------------------------------------------------- the call itself

  /** All that the others do during the waits, in order. */
  function Meanwhile<T>(wakes: seq<Wake<T>>): seq<Event<T>> {
    if |wakes| == 0 then [] else wakes[0].meanwhile + Meanwhile(wakes[1..])
  }

  /** Thread `t` has the mutex and is about to test its condition. */
  ghost predicate Testing<T>(s: State<T>, t: nat, c: Call<T>) {
    && Waits(c) && t < |s.threads| && s.threads[t] == In(c, Check) && s.lock == Some(t)
    && forall i :: 0 <= i < |s.threads| && i != t ==> Ready(s.threads[i])
  }

  /** The run carries thread `t`'s call to its return, leaving `q` and giving it these wake-ups. */
  ghost predicate Completes<T>(s: State<T>, run: seq<Action<T>>, t: nat, c: Call<T>, q: Queue<T>, r: Return<T>,
        wakes: seq<Wake<T>>) {
    && Runs(s, run) && SameCall(run, t) && WakesOf(s, run, t) == wakes
    && t < |End(s, run).threads| && End(s, run).threads[t] == Returned(c, r) && End(s, run).queue == q
  }

  /** A step of thread `t` itself, other than falling asleep or starting a call, in front of such a run. */
  lemma {:induction false} OwnStepFirst<T>(s: State<T>, a: Action<T>, run: seq<Action<T>>, t: nat, c: Call<T>,
        q: Queue<T>, r: Return<T>,
                        wakes: seq<Wake<T>>)
    requires Enabled(s, a) && a.t == t && !a.Begin? && !FallsAsleep(s, [a] + run, t)
    requires Completes(Apply(s, a), run, t, c, q, r, wakes)
    ensures Completes(s, [a] + run, t, c, q, r, wakes)
  {
    assert ([a] + run)[1..] == run;
    assert [] + WakesOf(Apply(s, a), run, t) == wakes;
  }

  /** A call whose condition is false runs through. */
  lemma {:induction false} RunsThrough<T>(s: State<T>, t: nat, c: Call<T>) returns (run: seq<Action<T>>)
    requires Testing(s, t, c) && !Blocked(s.queue, c)
    ensures Completes(s, run, t, c, Execute(s.queue, c).0, Execute(s.queue, c).1, [])
  {
    var (q, r) := Execute(s.queue, c);
    var s1 := Apply(s, Test(t));
    var s2 := Apply(s1, Commit(t));
    var s3 := Apply(s2, Release(t));
    run := [];
    if Notifies(r) {
      assert !SleepsOn(s3.threads[t], NotifiedSide(c));
      assert Completes(Apply(s3, NotifyOne(t, None)), [], t, c, q, r, []);
      OwnStepFirst(s3, NotifyOne(t, None), [], t, c, q, r, []);
      run := [NotifyOne(t, None)] + run;
    }
    OwnStepFirst(s2, Release(t), run, t, c, q, r, []);
    OwnStepFirst(s1, Commit(t), [Release(t)] + run, t, c, q, r, []);
    OwnStepFirst(s, Test(t), [Commit(t)] + ([Release(t)] + run), t, c, q, r, []);
    run := [Test(t)] + ([Commit(t)] + ([Release(t)] + run));
  }

  /** A wait that times out: the call returns without rechecking. */
  lemma {:induction false} Expires<T>(s: State<T>, t: nat, c: Call<T>) returns (run: seq<Action<T>>)
    requires Waiting(s, t, c) && Timed(c)
    ensures Completes(s, run, t, c, s.queue, Failure(c), []) && UntilMutex(s, run, t) == [] && ComesExpired(s, run, t)
  {
    var a: Action<T> := if s.threads[t].pc.Asleep? then Timeout(t) else LateTimeout(t);
    var s1 := Apply(s, a);
    var s2 := Apply(s1, Acquire(t));
    assert Completes(Apply(s2, Release(t)), [], t, c, s.queue, Failure(c), []);
    OwnStepFirst(s2, Release(t), [], t, c, s.queue, Failure(c), []);
    var tail := [Release(t)] + [];
    OwnStepFirst(s1, Acquire(t), tail, t, c, s.queue, Failure(c), []);
    var rest := [Acquire(t)] + tail;
    OwnStepFirst(s, a, rest, t, c, s.queue, Failure(c), []);
    run := [a] + rest;
    assert run[1..] == rest && NextAcquire(rest, t) == 0 && NextAcquire(run, t) == 1;
    assert StateAt(s, run, 1) == StateAt(s1, rest, 0) == s1;
    assert EventsUpTo(s, run, 1) == NewEvents(s, a) + EventsUpTo(s1, rest, 0);
  }

  /** The state in which a woken thread tests its condition again. */
  function BackAtTest<T>(s: State<T>, t: nat, c: Call<T>): State<T>
    requires t < |s.threads|
  {
    Put(s, t, In(c, Check)).(lock := Some(t))
  }

  lemma {:induction false} TakesMutex<T>(s: State<T>, t: nat, c: Call<T>, rest: seq<Action<T>>, q: Queue<T>,
        r: Return<T>,
        wakes: seq<Wake<T>>)
    requires Waiting(s, t, c) && s.threads[t].pc.Woken? && Completes(BackAtTest(s, t, c), rest, t, c, q, r, wakes)
    ensures Completes(s, [Acquire(t)] + rest, t, c, q, r, wakes)
    ensures UntilMutex(s, [Acquire(t)] + rest, t) == [] && !ComesExpired(s, [Acquire(t)] + rest, t)
  {
    assert Apply(s, Acquire(t)) == BackAtTest(s, t, c);
    OwnStepFirst(s, Acquire(t), rest, t, c, q, r, wakes);
    assert NextAcquire([Acquire(t)] + rest, t) == 0;
  }

  /** A wait that ends with a wake-up: the call goes back to its test, and `rest` follows. */
  lemma {:induction false} Rechecks<T>(s: State<T>, t: nat, c: Call<T>, rest: seq<Action<T>>, q: Queue<T>, r: Return<T>,
        wakes: seq<Wake<T>>)
    returns (run: seq<Action<T>>)
    requires Waiting(s, t, c) && Completes(BackAtTest(s, t, c), rest, t, c, q, r, wakes)
    ensures Completes(s, run, t, c, q, r, wakes) && UntilMutex(s, run, t) == [] && !ComesExpired(s, run, t)
  {
    if s.threads[t].pc.Woken? {
      TakesMutex(s, t, c, rest, q, r, wakes);
      run := [Acquire(t)] + rest;
    } else {
      var s1 := Apply(s, Spurious(t));
      var tail := [Acquire(t)] + rest;
      assert BackAtTest(s1, t, c).threads == BackAtTest(s, t, c).threads;
      TakesMutex(s1, t, c, rest, q, r, wakes);
      OwnStepFirst(s, Spurious(t), tail, t, c, q, r, wakes);
      run := [Spurious(t)] + tail;
      assert run[1..] == tail && NextAcquire(tail, t) == 0 && NextAcquire(run, t) == 1;
      assert StateAt(s, run, 1) == StateAt(s1, tail, 0) == s1;
      assert EventsUpTo(s, run, 1) == NewEvents(s, Spurious(t)) + EventsUpTo(s1, tail, 0);
    }
  }

  /** Falling asleep, what the others do meanwhile, and the rest of the call. */
  lemma {:induction false} SleepsThen<T>(s: State<T>, t: nat, c: Call<T>, seg: seq<Action<T>>, mid: State<T>,
        w: Wake<T>,
        rest: seq<Action<T>>,
                      q: Queue<T>, r: Return<T>, wakes: seq<Wake<T>>)
    requires Testing(s, t, c) && Blocked(s.queue, c) && Aside(Apply(s, Test(t)), seg, t, mid, w.meanwhile)
    requires Completes(mid, rest, t, c, q, r, wakes) && UntilMutex(mid, rest, t) == []
    requires ComesExpired(mid, rest, t) == w.timedOut
    ensures Completes(s, [Test(t)] + (seg + rest), t, c, q, r, [w] + wakes)
  {
    var s1, run := Apply(s, Test(t)), [Test(t)] + (seg + rest);
    AsideThen(s1, seg, t, mid, w.meanwhile, rest);
    Join(s1, seg, rest);
    assert run[0] == Test(t) && run[1..] == seg + rest;
    assert Wake(UntilMutex(s1, seg + rest, t), ComesExpired(s1, seg + rest, t)) == w;
    assert FallsAsleep(s, run, t);
    forall k | 0 <= k < |run| ensures !(run[k].Begin? && run[k].t == t) {
      if k > 0 { assert run[k] == (seg + rest)[k - 1]; }
    }
  }

  /** What the method makes of its first wake-up. */
  lemma FirstWake<T>(q: Queue<T>, c: Call<T>, t: nat, n: nat, wakes: seq<Wake<T>>)
    requires Fitting(q, c, t, n, wakes) && |wakes| > 0
    ensures var q' := Replay(q, wakes[0].meanwhile);
            if wakes[0].timedOut
            then Timed(c) && wakes[1..] == [] && CallResult(q, c, wakes) == (q', Done(Failure(c)))
            else Fitting(q', c, t, n, wakes[1..]) && CallResult(q, c, wakes) == CallResult(q', c, wakes[1..])
  {
  }

  /** Thread `t` is no cause for the others, wherever it is. */
  lemma {:induction false} PreparedStays<T>(s: State<T>, s': State<T>, t: nat, log: seq<Event<T>>)
    requires Prepared(s, t, log) && s'.queue == s.queue && t < |s.threads| == |s'.threads|
    requires s'.threads == s.threads[t := s'.threads[t]]
    ensures Prepared(s', t, log)
  {
  }

  lemma {:induction false} Realises<T>(s: State<T>, t: nat, c: Call<T>, wakes: seq<Wake<T>>)
    returns (run: seq<Action<T>>)
    requires Testing(s, t, c) && CallResult(s.queue, c, wakes).1.Done?
    requires Fitting(s.queue, c, t, |s.threads|, wakes) && Prepared(s, t, Meanwhile(wakes))
    ensures var (q, out) := CallResult(s.queue, c, wakes); Completes(s, run, t, c, q, out.ret, wakes)
    decreases |wakes|
  {
    if |wakes| == 0 {
      run := RunsThrough(s, t, c);
    } else {
      var w, others := wakes[0], wakes[1..];
      var (q, out) := CallResult(s.queue, c, wakes);
      FirstWake(s.queue, c, t, |s.threads|, wakes);
      PreparedStays(s, Apply(s, Test(t)), t, Meanwhile(wakes));
      var seg, mid := NextEvents(Apply(s, Test(t)), t, c, w.meanwhile, Meanwhile(others));
      var rest;
      if w.timedOut {
        rest := Expires(mid, t, c);
      } else {
        PreparedStays(mid, BackAtTest(mid, t, c), t, Meanwhile(others));
        rest := Realises(BackAtTest(mid, t, c), t, c, others);
        rest := Rechecks(mid, t, c, rest, q, out.ret, others);
      }
      SleepsThen(s, t, c, seg, mid, w, rest, q, out.ret, others);
      run := [Test(t)] + (seg + rest);
      assert [w] + others == wakes;
    }
  }

  lemma {:induction false} MeanwhileIsForeign<T>(q: Queue<T>, c: Call<T>, t: nat, n: nat, wakes: seq<Wake<T>>)
    requires Fitting(q, c, t, n, wakes)
    ensures LegalLog(q, Meanwhile(wakes)) && Foreign(Meanwhile(wakes), t, n)
    ensures CallResult(q, c, wakes).1.Done? ==> Meanwhile(wakes) <= History(q, c, t, wakes)
    decreases |wakes|
  {
    if |wakes| > 0 {
      var log, others := wakes[0].meanwhile, wakes[1..];
      MeanwhileIsForeign(Replay(q, log), c, t, n, others);
      ReplayConcat(q, log, Meanwhile(others));
    }
  }

  /**
   Every method call is a call of the machine: whatever queue thread `t` finds at the start
   of a waiting call, and whatever wake-ups fit the call, let it return and have a cause for
   each timed failure, some run gives the call exactly these wake-ups and ends with the
   method's queue and return value.
   */
  lemma {:induction false} MethodCallIsMachineCall<T>(s: State<T>, t: nat, c: Call<T>, wakes: seq<Wake<T>>)
    returns (run: seq<Action<T>>)
    requires t < |s.threads| && s.threads[t] == In(c, Want) && Waits(c) && s.lock.None? && OthersOut(s, t)
    requires Fitting(s.queue, c, t, |s.threads|, wakes) && Caused(s.queue, Meanwhile(wakes))
    requires CallResult(s.queue, c, wakes).1.Done?
    ensures var (q, out) := CallResult(s.queue, c, wakes); Completes(s, run, t, c, q, out.ret, wakes)
    ensures UntilMutex(s, run, t) == []
  {
    var s1 := Apply(s, Acquire(t));
    var (q, out) := CallResult(s.queue, c, wakes);
    MeanwhileIsForeign(s.queue, c, t, |s.threads|, wakes);
    assert Prepared(s1, t, Meanwhile(wakes));
    var rest := Realises(s1, t, c, wakes);
    OwnStepFirst(s, Acquire(t), rest, t, c, q, out.ret, wakes);
    run := [Acquire(t)] + rest;
    assert NextAcquire(run, t) == 0;
  }

  // ---------------------------------------------------------------- exactly these wake-ups

  /** The run is one whole call of thread `t`, which finds the mutex free, with these wake-ups. */
  ghost predicate Gives<T>(s: State<T>, run: seq<Action<T>>, t: nat, wakes: seq<Wake<T>>) {
    && Runs(s, run) && SameCall(run, t) && UntilMutex(s, run, t) == [] && WakesOf(s, run, t) == wakes
    && t < |End(s, run).threads| && End(s, run).threads[t].Returned?
  }

  lemma {:induction false} GivenIsCaused<T>(s: State<T>, run: seq<Action<T>>, t: nat, c: Call<T>, wakes: seq<Wake<T>>)
    requires Inv(s) && t < |s.threads| && s.threads[t] == In(c, Want) && OthersOut(s, t)
    requires Gives(s, run, t, wakes)
    ensures Fitting(s.queue, c, t, |s.threads|, wakes) && CallResult(s.queue, c, wakes).1.Done?
    ensures Caused(s.queue, Meanwhile(wakes))
  {
    MachineCallIsMethodCall(s, run, t, c);
    MeanwhileIsForeign(s.queue, c, t, |s.threads|, wakes);
    assert [] + History(s.queue, c, t, wakes) == History(s.queue, c, t, wakes);
    RunIsCaused(s, run);
    PrefixIsCaused(s.queue, Events(s, run), Meanwhile(wakes), s.threads);
  }

  /**
   With the other threads between calls, the wake-ups that some run gives to a waiting call
   are exactly those that fit it, let it return and have a cause for each timed failure.
   */
  lemma {:induction false} GivenExactly<T(!new)>(s: State<T>, t: nat, c: Call<T>, wakes: seq<Wake<T>>)
    requires Inv(s) && t < |s.threads| && s.threads[t] == In(c, Want) && Waits(c) && OthersOut(s, t)
    ensures (exists run :: Gives(s, run, t, wakes)) <==>
            && Fitting(s.queue, c, t, |s.threads|, wakes) && CallResult(s.queue, c, wakes).1.Done?
            && Caused(s.queue, Meanwhile(wakes))
  {
    if Fitting(s.queue, c, t, |s.threads|, wakes) && CallResult(s.queue, c, wakes).1.Done?
       && Caused(s.queue, Meanwhile(wakes)) {
      var run := MethodCallIsMachineCall(s, t, c, wakes);
      assert Gives(s, run, t, wakes);
    }
    forall run | Gives(s, run, t, wakes)
      ensures Fitting(s.queue, c, t, |s.threads|, wakes) && CallResult(s.queue, c, wakes).1.Done?
      ensures Caused(s.queue, Meanwhile(wakes))
    {
      GivenIsCaused(s, run, t, c, wakes);
    }
  }

  /** While thread 0 waits, thread 1's push_for is refused by an open queue with room, and then accepted. */
  function Causeless<T>(x: T): seq<Wake<T>> {
    [Wake([Event(1, PushFor(x), Refused), Event(1, PushFor(x), Accepted)], false)]
  }

  lemma CauselessFits<T>(capacity: nat, x: T)
    requires capacity >= 1
    ensures Fitting(Fresh(capacity), Pop, 0, 2, Causeless(x))
    ensures CallResult(Fresh(capacity), Pop, Causeless(x)).1 == Done(Got(x))
  {
    var q, log := Fresh<T>(capacity), Causeless(x)[0].meanwhile;
    Snoc(q, [], log[0]);
    Snoc(q, [log[0]], log[1]);
    assert [] + [log[0]] == [log[0]] && [log[0]] + [log[1]] == log;
    assert Replay(q, log).items == [x];
  }

  lemma CauselessIsUncaused<T>(capacity: nat, x: T)
    requires capacity >= 1
    ensures !Caused(Fresh(capacity), Meanwhile(Causeless(x)))
  {
    var q, log := Fresh<T>(capacity), Meanwhile(Causeless(x));
    assert Causeless(x)[1..] == [] && log == Causeless(x)[0].meanwhile + Meanwhile(Causeless(x)[1..]);
    assert log == Causeless(x)[0].meanwhile && log[..0] == [];
    assert log[0] == Event(1, PushFor(x), Refused) && Replay(q, log[..0]) == q;
    assert NeedsCause(q, log, 0);
    forall j: nat ensures !CauseAt(q, log, 0, j) {
      if j == 0 { assert Replay(q, log[..j]) == q; }
    }
  }

  /** Such wake-ups fit the call and let it return, but no run gives them: a cause is needed. */
  lemma {:induction false} CauseIsNeeded<T>(capacity: nat, x: T, run: seq<Action<T>>)
    requires capacity >= 1
    ensures !Gives(State(Fresh<T>(capacity), None, [In(Pop, Want), Idle], []), run, 0, Causeless(x))
  {
    CauselessIsUncaused(capacity, x);
    if Gives(State(Fresh<T>(capacity), None, [In(Pop, Want), Idle], []), run, 0, Causeless(x)) {
      GivenIsCaused(State(Fresh<T>(capacity), None, [In(Pop, Want), Idle], []), run, 0, Pop, Causeless(x));
    }
  }
}
