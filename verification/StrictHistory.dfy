/**
 Strict linearizability: when the event of a timed call that fails is placed where the call
 last found its condition true, the history is legal for a queue in which a push_for is
 refused only if the queue is full or closed, and a pop_for fails only if it is empty.
 */
module StrictHistory {
  import opened AtomicQueue
  import opened Protocol
  import opened Refinement
  import opened CallRefinement

  /** What the first action of a run adds; a thread that falls asleep to time out has its event there. */
  ghost function StrictNew<T>(s: State<T>, run: seq<Action<T>>): seq<Event<T>>
    requires Runs(s, run) && |run| > 0
  {
    var a := run[0];
    if a.Commit? then NewEvents(s, a)
    else if FallsAsleep(s, run, a.t) && ComesExpired(Apply(s, a), run[1..], a.t)
    then [Event(a.t, s.threads[a.t].call, Failure(s.threads[a.t].call))]
    else []
  }

  ghost function StrictEvents<T>(s: State<T>, run: seq<Action<T>>): seq<Event<T>>
    requires Runs(s, run)
    decreases |run|
  {
    if |run| == 0 then [] else StrictNew(s, run) + StrictEvents(Apply(s, run[0]), run[1..])
  }

  lemma {:induction false} ExpiryShifts<T>(s: State<T>, run: seq<Action<T>>, t: nat)
    requires Runs(s, run) && |run| > 0 && !(run[0].Acquire? && run[0].t == t)
    ensures ComesExpired(s, run, t) <==> ComesExpired(Apply(s, run[0]), run[1..], t)
  {
  }

  /** Only timed calls come to the mutex expired. */
  lemma {:induction false} ExpiredIsTimed<T>(s: State<T>, run: seq<Action<T>>, t: nat, c: Call<T>)
    requires Inv(s) && Runs(s, run) && t < |s.threads| && s.threads[t].In? && s.threads[t].call == c
    requires s.threads[t].pc.Asleep? || s.threads[t].pc.Woken? || s.threads[t].pc.Expired?
    requires ComesExpired(s, run, t)
    ensures Timed(c)
    decreases |run|
  {
    assert ThreadOk(s.queue, s.threads[t]);
    if |run| > 0 && !(run[0].Acquire? && run[0].t == t) {
      ExpiryShifts(s, run, t);
      InvStep(s, run[0]);
      if run[0].t != t { OthersStep(s, run[0], t); }
      ExpiredIsTimed(Apply(s, run[0]), run[1..], t, c);
    }
  }

  lemma StrictSingle<T>(q: Queue<T>, e: Event<T>)
    requires StrictLegal(q, e)
    ensures StrictLog(q, [e]) && Replay(q, [e]) == After(q, e)
  {
    SingleEvent(q, e);
    StrictSnoc(q, [], e);
    assert [] + [e] == [e];
  }

  lemma {:induction false} CommitIsStrict<T>(s: State<T>, a: Action<T>)
    requires Inv(s) && Enabled(s, a) && a.Commit?
    ensures var c := s.threads[a.t].call; var e := Event(a.t, c, Execute(s.queue, c).1);
            StrictLegal(s.queue, e) && After(s.queue, e) == Apply(s, a).queue
  {
    assert ThreadOk(s.queue, s.threads[a.t]);
  }

  /** Falling asleep to time out: the call is a timed one, and its condition is true. */
  lemma {:induction false} SleepIsStrict<T>(s: State<T>, run: seq<Action<T>>, t: nat)
    requires Inv(s) && Runs(s, run) && FallsAsleep(s, run, t) && ComesExpired(Apply(s, run[0]), run[1..], t)
    ensures var c := s.threads[t].call; var e := Event(t, c, Failure(c));
            StrictLegal(s.queue, e) && After(s.queue, e) == Apply(s, run[0]).queue
  {
    InvStep(s, run[0]);
    ExpiredIsTimed(Apply(s, run[0]), run[1..], t, s.threads[t].call);
  }

  lemma {:induction false} StrictStep<T>(s: State<T>, run: seq<Action<T>>)
    requires Inv(s) && Runs(s, run) && |run| > 0
    ensures StrictLog(s.queue, StrictNew(s, run)) && Replay(s.queue, StrictNew(s, run)) == Apply(s, run[0]).queue
  {
    var a := run[0];
    if a.Commit? {
      CommitIsStrict(s, a);
      StrictSingle(s.queue, Event(a.t, s.threads[a.t].call, Execute(s.queue, s.threads[a.t].call).1));
    } else if FallsAsleep(s, run, a.t) && ComesExpired(Apply(s, a), run[1..], a.t) {
      SleepIsStrict(s, run, a.t);
      StrictSingle(s.queue, Event(a.t, s.threads[a.t].call, Failure(s.threads[a.t].call)));
    }
  }

  /** Every run has a strict history that leads to its queue. */
  lemma {:induction false} StrictRun<T>(s: State<T>, run: seq<Action<T>>)
    requires Inv(s) && Runs(s, run)
    ensures StrictLog(s.queue, StrictEvents(s, run)) && Replay(s.queue, StrictEvents(s, run)) == End(s, run).queue
    decreases |run|
  {
    if |run| > 0 {
      var s', rest := Apply(s, run[0]), run[1..];
      StrictStep(s, run);
      InvStep(s, run[0]);
      StrictRun(s', rest);
      StrictConcat(s.queue, StrictNew(s, run), StrictEvents(s', rest));
      ReplayConcat(s.queue, StrictNew(s, run), StrictEvents(s', rest));
    }
  }

  /** The call's event is still to come. */
  ghost predicate EventAhead<T>(s: State<T>, run: seq<Action<T>>, t: nat)
    requires Runs(s, run) && t < |s.threads|
  {
    Undecided(s.threads[t]) && (Holds(s.threads[t]) || !ComesExpired(s, run, t))
  }

  lemma {:induction false} StrictNewOfOther<T>(s: State<T>, run: seq<Action<T>>, t: nat)
    requires Runs(s, run) && |run| > 0 && run[0].t != t
    ensures EventsBy(StrictNew(s, run), t) == []
  {
    if |StrictNew(s, run)| > 0 {
      EventsByOne(StrictNew(s, run)[0], t);
      assert StrictNew(s, run) == [StrictNew(s, run)[0]];
    }
  }

  lemma UndecidedIsInvoked<T>(th: Thread<T>)
    ensures Undecided(th) <==> ClientOf(th).Invoked?
  {
  }

  /** Once decided, always decided. */
  lemma {:induction false} DecidedStays<T>(s: State<T>, a: Action<T>, t: nat, c: Call<T>)
    requires Inv(s) && Enabled(s, a) && !(a.Begin? && a.t == t) && Doing(s, t, c) && !Undecided(s.threads[t])
    ensures t < |Apply(s, a).threads| && !Undecided(Apply(s, a).threads[t])
  {
    StepSeenBy(s, a, t, c);
    UndecidedIsInvoked(s.threads[t]);
    UndecidedIsInvoked(Apply(s, a).threads[t]);
  }

  /** Coming to the mutex expired decides the call, whose event has been placed before. */
  lemma {:induction false} ExpiredDecides<T>(s: State<T>, run: seq<Action<T>>, t: nat)
    requires Runs(s, run) && |run| > 0 && run[0] == Acquire(t) && s.threads[t].pc.Expired?
    ensures !EventAhead(s, run, t) && t < |Apply(s, run[0]).threads| && !Undecided(Apply(s, run[0]).threads[t])
  {
  }

  /** A step after which nothing changes for the event of thread `t`. */
  lemma {:induction false} AheadStays<T>(s: State<T>, run: seq<Action<T>>, t: nat, c: Call<T>)
    requires Inv(s) && Runs(s, run) && |run| > 0 && !(run[0].Begin? && run[0].t == t) && Doing(s, t, c)
    requires !(run[0].t == t && run[0].Commit?) && !FallsAsleep(s, run, t)
    ensures t < |Apply(s, run[0]).threads|
    ensures EventAhead(s, run, t) <==> EventAhead(Apply(s, run[0]), run[1..], t)
  {
    if !Undecided(s.threads[t]) {
      DecidedStays(s, run[0], t, c);
    } else if run[0] == Acquire(t) && s.threads[t].pc.Expired? {
      ExpiredDecides(s, run, t);
    } else {
      StillUndecided(s, run[0], t, c);
      if !(run[0].Acquire? && run[0].t == t) { ExpiryShifts(s, run, t); }
    }
  }

  lemma {:induction false} NoStrictNew<T>(s: State<T>, run: seq<Action<T>>, t: nat)
    requires Runs(s, run) && |run| > 0
    requires !(run[0].t == t && run[0].Commit?) && !FallsAsleep(s, run, t)
    ensures EventsBy(StrictNew(s, run), t) == []
  {
    if run[0].t != t { StrictNewOfOther(s, run, t); }
  }

  lemma {:induction false} StrictNewOfOwn<T>(s: State<T>, run: seq<Action<T>>)
    requires Runs(s, run) && |run| > 0
    ensures EventsBy(StrictNew(s, run), run[0].t) == StrictNew(s, run)
  {
    if |StrictNew(s, run)| > 0 {
      EventsByOne(StrictNew(s, run)[0], run[0].t);
      assert StrictNew(s, run) == [StrictNew(s, run)[0]];
    }
  }

  /** Thread `t`'s own commit is the event that was ahead. */
  lemma {:induction false} CommitComes<T>(s: State<T>, run: seq<Action<T>>, t: nat, c: Call<T>)
    requires Inv(s) && Runs(s, run) && SameCall(run, t) && |run| > 0 && Doing(s, t, c) && run[0] == Commit(t)
    requires t < |End(s, run).threads| && End(s, run).threads[t].Returned?
    ensures EventAhead(s, run, t) && t < |Apply(s, run[0]).threads| && !EventAhead(Apply(s, run[0]), run[1..], t)
    ensures EventsBy(StrictNew(s, run), t) == [Event(t, c, End(s, run).threads[t].ret)]
  {
    assert ThreadOk(s.queue, s.threads[t]);
    TailSameCall(run, t);
    InvStep(s, run[0]);
    StaysDoing(s, run[0], t, c);
    StrictNewOfOwn(s, run);
    OneEventAhead(Apply(s, run[0]), run[1..], t, c);
  }

  /** Falling asleep is the event that was ahead if this wait is the one that times out. */
  lemma {:induction false} SleepComes<T>(s: State<T>, run: seq<Action<T>>, t: nat, c: Call<T>)
    requires Inv(s) && Runs(s, run) && SameCall(run, t) && Doing(s, t, c) && FallsAsleep(s, run, t)
    requires t < |End(s, run).threads| && End(s, run).threads[t].Returned?
    ensures EventAhead(s, run, t) && t < |Apply(s, run[0]).threads|
    ensures EventsBy(StrictNew(s, run), t) ==
            if EventAhead(Apply(s, run[0]), run[1..], t) then [] else [Event(t, c, End(s, run).threads[t].ret)]
  {
    var s', rest := Apply(s, run[0]), run[1..];
    TailSameCall(run, t);
    InvStep(s, run[0]);
    StaysDoing(s, run[0], t, c);
    StrictNewOfOwn(s, run);
    assert s'.threads[t] == In(c, Asleep);
    RestOfCall(s', rest, t, c);
    assert AccountOf(s', rest, t).timedOut <==> ComesExpired(s', rest, t);
  }

  lemma {:induction false} OneStrictEvent<T>(s: State<T>, run: seq<Action<T>>, t: nat, c: Call<T>)
    requires Inv(s) && Runs(s, run) && SameCall(run, t) && Doing(s, t, c)
    requires t < |End(s, run).threads| && End(s, run).threads[t].Returned?
    ensures EventsBy(StrictEvents(s, run), t) ==
            if EventAhead(s, run, t) then [Event(t, c, End(s, run).threads[t].ret)] else []
    decreases |run|
  {
    if |run| > 0 {
      var s', rest := Apply(s, run[0]), run[1..];
      TailSameCall(run, t);
      if run[0].t == t && run[0].Commit? {
        CommitComes(s, run, t, c);
      } else if FallsAsleep(s, run, t) {
        SleepComes(s, run, t, c);
      } else {
        AheadStays(s, run, t, c);
        NoStrictNew(s, run, t);
      }
      InvStep(s, run[0]);
      StaysDoing(s, run[0], t, c);
      OneStrictEvent(s', rest, t, c);
      EventsByConcat(StrictNew(s, run), StrictEvents(s', rest), t);
    }
  }

  /**
   Strict linearizability: over any stretch of a run in which thread `t` carries out one call
   from start to return, the strict history is legal for the atomic queue, leads to the
   queue's contents, and holds exactly one event of `t`, for that call and its return value.
   */
  lemma {:induction false} StrictlyLinearizable<T>(s: State<T>, run: seq<Action<T>>, t: nat, c: Call<T>)
    requires Inv(s) && Runs(s, run) && SameCall(run, t)
    requires t < |s.threads| && s.threads[t] == In(c, Want)
    requires t < |End(s, run).threads| && End(s, run).threads[t].Returned?
    ensures StrictLog(s.queue, StrictEvents(s, run)) && Replay(s.queue, StrictEvents(s, run)) == End(s, run).queue
    ensures EventsBy(StrictEvents(s, run), t) == [Event(t, c, End(s, run).threads[t].ret)]
  {
    StrictRun(s, run);
    WantNeverExpires(s, run, t, c);
    OneStrictEvent(s, run, t, c);
  }
}
