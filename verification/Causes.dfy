/**
 When a timed call may fail: in the history of every run, a push_for that is refused, or a
 pop_for that finds nothing, either decided so in its own critical section or found its
 condition true at some earlier point since its thread's previous event.
 */
module Causes {
  import opened AtomicQueue
  import opened Protocol
  import opened Refinement

  /** The critical section of the call gives this event. */
  ghost predicate ByItself<T>(q: Queue<T>, e: Event<T>) {
    !Blocked(q, e.call) && e.ret == Execute(q, e.call).1
  }

  /** Thread `u` has no event from position `j` up to `i`. */
  predicate Silent<T>(log: seq<Event<T>>, j: nat, i: nat, u: nat)
    requires i <= |log|
  {
    forall k :: j <= k < i ==> log[k].caller != u
  }

  /** At `j` the call of the event at `i` found its condition true, its thread having no event in between. */
  ghost predicate CauseAt<T>(q: Queue<T>, log: seq<Event<T>>, i: nat, j: nat)
    requires i < |log|
  {
    j <= i && Silent(log, j, i, log[i].caller) && Blocked(Replay(q, log[..j]), log[i].call)
  }

  ghost predicate HasCause<T>(q: Queue<T>, log: seq<Event<T>>, i: nat)
    requires i < |log|
  {
    exists j: nat :: CauseAt(q, log, i, j)
  }

  ghost predicate NeedsCause<T>(q: Queue<T>, log: seq<Event<T>>, i: nat)
    requires i < |log|
  {
    TimedFailure(log[i]) && !ByItself(Replay(q, log[..i]), log[i])
  }

  /** Every timed failure of the history has a cause in it. */
  ghost predicate Caused<T>(q: Queue<T>, log: seq<Event<T>>) {
    forall i :: 0 <= i < |log| && NeedsCause(q, log, i) ==> HasCause(q, log, i)
  }

  // ---------------------------------------------------------------- causes before the history

  /** Thread `u` is in a wait of the call `c`, so it has found its condition true. */
  ghost predicate Waited<T>(ths: seq<Thread<T>>, u: nat, c: Call<T>) {
    && u < |ths| && ths[u].In? && ths[u].call == c
    && (ths[u].pc.Asleep? || ths[u].pc.Woken? || ths[u].pc.Expired?)
  }

  /** The event at `i` ends a call that was waiting before the history began. */
  ghost predicate Pending<T>(log: seq<Event<T>>, i: nat, ths: seq<Thread<T>>)
    requires i < |log|
  {
    Silent(log, 0, i, log[i].caller) && Waited(ths, log[i].caller, log[i].call)
  }

  /** Every timed failure has a cause in the history, or before it in the waits of these threads. */
  ghost predicate CausedFrom<T>(q: Queue<T>, log: seq<Event<T>>, ths: seq<Thread<T>>) {
    forall i :: 0 <= i < |log| && NeedsCause(q, log, i) ==> HasCause(q, log, i) || Pending(log, i, ths)
  }

  lemma ReplayFront<T>(q: Queue<T>, log: seq<Event<T>>)
    requires |log| > 0
    ensures Replay(q, log) == Replay(After(q, log[0]), log[1..])
    ensures LegalLog(q, log) ==> Legal(q, log[0]) && LegalLog(After(q, log[0]), log[1..])
  {
    var first := [log[0]];
    assert first + log[1..] == log;
    assert first[..0] == [];
    assert Replay(q, first) == After(q, log[0]);
    ReplayConcat(q, first, log[1..]);
  }

  /** Dropping the first event moves all positions by one. */
  lemma Shift<T>(q: Queue<T>, log: seq<Event<T>>, i: nat)
    requires 0 < i < |log|
    ensures NeedsCause(q, log, i) <==> NeedsCause(After(q, log[0]), log[1..], i - 1)
    ensures forall j: nat :: 0 < j <= i ==>
            (CauseAt(q, log, i, j) <==> CauseAt(After(q, log[0]), log[1..], i - 1, j - 1))
  {
    forall j: nat | 0 < j <= i
      ensures Replay(q, log[..j]) == Replay(After(q, log[0]), log[1..][..j - 1])
      ensures Silent(log, j, i, log[i].caller) <==> Silent(log[1..], j - 1, i - 1, log[i].caller)
    {
      assert log[..j][1..] == log[1..][..j - 1];
      ReplayFront(q, log[..j]);
      SilentShift(log, j, i, log[i].caller);
    }
  }

  lemma SilentShift<T>(log: seq<Event<T>>, j: nat, i: nat, u: nat)
    requires 0 < j <= i < |log|
    ensures Silent(log, j, i, u) <==> Silent(log[1..], j - 1, i - 1, u)
  {
    if Silent(log[1..], j - 1, i - 1, u) {
      forall k | j <= k < i ensures log[k].caller != u { assert log[k] == log[1..][k - 1]; }
    }
  }

  // ---------------------------------------------------------------- every run

  lemma {:induction false} OthersOnlyWake<T>(s: State<T>, a: Action<T>, u: nat)
    requires Enabled(s, a) && a.t != u && u < |s.threads|
    ensures var th, th' := s.threads[u], Apply(s, a).threads[u];
            th' == th || (th.In? && th.pc.Asleep? && th' == th.(pc := Woken))
  {
  }

  /** A thread comes into a wait only by finding its condition true. */
  lemma {:induction false} WaitBegins<T>(s: State<T>, a: Action<T>, u: nat, c: Call<T>)
    requires Enabled(s, a) && Waited(Apply(s, a).threads, u, c)
    ensures Waited(s.threads, u, c) || Blocked(s.queue, c)
  {
    if u != a.t { OthersOnlyWake(s, a, u); }
  }

  /** A thread whose event has just happened is not in a wait. */
  lemma {:induction false} EventEndsWait<T>(s: State<T>, a: Action<T>, u: nat, c: Call<T>)
    requires Enabled(s, a) && |NewEvents(s, a)| > 0 && Waited(Apply(s, a).threads, u, c)
    ensures u != a.t && Waited(s.threads, u, c)
  {
  }

  lemma {:induction false} SilentStep<T>(s: State<T>, a: Action<T>, log: seq<Event<T>>)
    requires Enabled(s, a) && NewEvents(s, a) == [] && Apply(s, a).queue == s.queue
    requires CausedFrom(s.queue, log, Apply(s, a).threads)
    ensures CausedFrom(s.queue, log, s.threads)
  {
    forall i | 0 <= i < |log| && NeedsCause(s.queue, log, i)
      ensures HasCause(s.queue, log, i) || Pending(log, i, s.threads)
    {
      if Pending(log, i, Apply(s, a).threads) {
        WaitBegins(s, a, log[i].caller, log[i].call);
        if Blocked(s.queue, log[i].call) { assert CauseAt(s.queue, log, i, 0); }
      }
    }
  }

  lemma {:induction false} EventfulStep<T>(s: State<T>, a: Action<T>, log: seq<Event<T>>)
    requires Inv(s) && Enabled(s, a) && |log| > 0 && NewEvents(s, a) == [log[0]]
    requires CausedFrom(After(s.queue, log[0]), log[1..], Apply(s, a).threads)
    ensures CausedFrom(s.queue, log, s.threads)
  {
    assert ThreadOk(s.queue, s.threads[a.t]);
    forall i | 0 <= i < |log| && NeedsCause(s.queue, log, i)
      ensures HasCause(s.queue, log, i) || Pending(log, i, s.threads)
    {
      if i > 0 {
        Shift(s.queue, log, i);
        var q', rest := After(s.queue, log[0]), log[1..];
        if HasCause(q', rest, i - 1) {
          var j: nat :| CauseAt(q', rest, i - 1, j);
          assert CauseAt(s.queue, log, i, j + 1);
        } else {
          EventEndsWait(s, a, log[i].caller, log[i].call);
          SilentFront(log, i, log[i].caller);
        }
      }
    }
  }

  lemma SilentFront<T>(log: seq<Event<T>>, i: nat, u: nat)
    requires 0 < i < |log|
    ensures Silent(log, 0, i, u) <==> log[0].caller != u && Silent(log[1..], 0, i - 1, u)
  {
    SilentShift(log, 1, i, u);
    assert Silent(log, 0, i, u) <==> log[0].caller != u && Silent(log, 1, i, u);
  }

  /** In every run, from any state, each timed failure has its cause. */
  lemma {:induction false} RunIsCaused<T>(s: State<T>, run: seq<Action<T>>)
    requires Inv(s) && Runs(s, run)
    ensures CausedFrom(s.queue, Events(s, run), s.threads)
    decreases |run|
  {
    if |run| > 0 {
      var s', rest := Apply(s, run[0]), run[1..];
      EventsStep(s, run[0]);
      InvStep(s, run[0]);
      RunIsCaused(s', rest);
      var added, evs := NewEvents(s, run[0]), Events(s, run);
      if added == [] {
        assert evs == Events(s', rest);
        SilentStep(s, run[0], evs);
      } else {
        SingleEvent(s.queue, added[0]);
        assert added == [evs[0]] && evs[1..] == Events(s', rest);
        EventfulStep(s, run[0], evs);
      }
    }
  }

  /** From the start, all causes are in the history. */
  lemma {:induction false} ReachableIsCaused<T>(capacity: nat, n: nat, run: seq<Action<T>>)
    requires Runs(Init<T>(capacity, n), run)
    ensures Caused(Fresh(capacity), Events(Init<T>(capacity, n), run))
  {
    InvInit<T>(capacity, n);
    RunIsCaused(Init<T>(capacity, n), run);
  }

  lemma PrefixIsCaused<T>(q: Queue<T>, log: seq<Event<T>>, log': seq<Event<T>>, ths: seq<Thread<T>>)
    requires CausedFrom(q, log, ths) && log' <= log
    ensures CausedFrom(q, log', ths)
  {
    forall i | 0 <= i < |log'| && NeedsCause(q, log', i)
      ensures HasCause(q, log', i) || Pending(log', i, ths)
    {
      assert log'[..i] == log[..i];
      if HasCause(q, log, i) {
        var j: nat :| CauseAt(q, log, i, j);
        assert log'[..j] == log[..j] && CauseAt(q, log', i, j);
      }
    }
  }
}
