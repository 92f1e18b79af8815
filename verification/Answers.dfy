/**
 What the calls answer, said of the history alone: whether somebody has closed, which items
 have been accepted and which delivered. No queue and no critical section is mentioned.
 */
module Answers {
  import opened AtomicQueue
  import opened Protocol
  import opened Refinement
  import opened BlockingQueue

  /** Somebody has closed the queue. */
  ghost predicate ClosedIn<T>(before: seq<Event<T>>) {
    exists j :: 0 <= j < |before| && before[j].call.Close?
  }

  /** How many items have been accepted and not yet delivered. */
  function Outstanding<T>(before: seq<Event<T>>): int { |AcceptedItems(before)| - |DeliveredItems(before)| }

  /** The call hands out the first accepted item that nobody has got yet. */
  ghost predicate GetsNext<T>(before: seq<Event<T>>, r: Return<T>) {
    Outstanding(before) > 0 && r == Got(AcceptedItems(before)[|DeliveredItems(before)|])
  }

  /** After the events `before`, the event `e` is what the queue promises. */
  ghost predicate Answer<T>(capacity: nat, before: seq<Event<T>>, e: Event<T>) {
    match e.call
    case Push(_) =>
      if e.ret.Refused? then ClosedIn(before)
      else e.ret.Accepted? && !ClosedIn(before) && Outstanding(before) < capacity
    case PushFor(_) =>
      e.ret.Refused? || (e.ret.Accepted? && !ClosedIn(before) && Outstanding(before) < capacity)
    case Pop =>
      if e.ret.Nothing? then ClosedIn(before) && Outstanding(before) == 0 else GetsNext(before, e.ret)
    case PopFor => e.ret.Nothing? || GetsNext(before, e.ret)
    case Close => e.ret.Unit?
    case Closed => e.ret.Flag? && (e.ret.closed <==> ClosedIn(before))
    case Size => e.ret.Count? && e.ret.size == Outstanding(before)
  }

  ghost predicate Answers<T>(capacity: nat, log: seq<Event<T>>) {
    forall i :: 0 <= i < |log| ==> Answer(capacity, log[..i], log[i])
  }

  lemma ClosedInSnoc<T>(before: seq<Event<T>>, e: Event<T>)
    ensures ClosedIn(before + [e]) <==> ClosedIn(before) || e.call.Close?
  {
    if ClosedIn(before) {
      var j :| 0 <= j < |before| && before[j].call.Close?;
      assert (before + [e])[j].call.Close?;
    }
    if e.call.Close? { assert (before + [e])[|before|].call.Close?; }
  }

  /** The queue that a legal history leads to: closed after a close, and holding what waits. */
  lemma {:induction false} QueueOfHistory<T>(capacity: nat, log: seq<Event<T>>)
    requires LegalLog(Fresh(capacity), log)
    ensures var q := Replay(Fresh(capacity), log);
            && q.capacity == capacity && (q.closed <==> ClosedIn(log))
            && Outstanding(log) == |q.items| && q.items == AcceptedItems(log)[|DeliveredItems(log)|..]
    decreases |log|
  {
    FreshConservation(capacity, log);
    Conservation(Fresh(capacity), log);
    if |log| > 0 {
      var n := |log| - 1;
      QueueOfHistory(capacity, log[..n]);
      ClosedInSnoc(log[..n], log[n]);
      assert log[..n] + [log[n]] == log;
    }
  }

  /** The queue and the history agree on whether it is closed, on what it holds and on its front. */
  ghost predicate Agrees<T>(q: Queue<T>, before: seq<Event<T>>) {
    && (q.closed <==> ClosedIn(before)) && Outstanding(before) == |q.items|
    && (|q.items| > 0 ==> q.items[0] == AcceptedItems(before)[|DeliveredItems(before)|])
  }

  lemma AgreedAnswer<T>(q: Queue<T>, before: seq<Event<T>>, e: Event<T>)
    requires Agrees(q, before)
    ensures Legal(q, e) <==> Answer(q.capacity, before, e)
  {
  }

  /** After a legal history, the next event is legal exactly when it answers to the history. */
  lemma AnswerIsLegal<T>(capacity: nat, before: seq<Event<T>>, e: Event<T>)
    requires LegalLog(Fresh(capacity), before)
    ensures Legal(Replay(Fresh(capacity), before), e) <==> Answer(capacity, before, e)
  {
    QueueOfHistory(capacity, before);
    AgreedAnswer(Replay(Fresh(capacity), before), before, e);
  }

  lemma AnswersSnoc<T>(capacity: nat, before: seq<Event<T>>, e: Event<T>)
    ensures Answers(capacity, before + [e]) <==> Answers(capacity, before) && Answer(capacity, before, e)
  {
    var log := before + [e];
    assert log[..|before|] == before;
    assert forall i :: 0 <= i < |before| ==> log[..i] == before[..i] && log[i] == before[i];
    if Answers(capacity, log) {
      forall i | 0 <= i < |before| ensures Answer(capacity, before[..i], before[i]) {
        assert Answer(capacity, log[..i], log[i]);
      }
      assert Answer(capacity, log[..|before|], log[|before|]);
    }
  }

  /** The legal histories of the atomic queue are exactly those in which every event answers. */
  lemma {:induction false} LegalExactly<T>(capacity: nat, log: seq<Event<T>>)
    ensures LegalLog(Fresh(capacity), log) <==> Answers(capacity, log)
    decreases |log|
  {
    if |log| > 0 {
      var n := |log| - 1;
      LegalExactly(capacity, log[..n]);
      assert log[..n] + [log[n]] == log;
      AnswersSnoc(capacity, log[..n], log[n]);
      if LegalLog(Fresh(capacity), log[..n]) { AnswerIsLegal(capacity, log[..n], log[n]); }
    }
  }

  /**
   The methods of the queue object answer too: called on the queue that a history leads to,
   a method that returns under some wake-ups answers to that history and to what the others
   did before it decided.
   */
  lemma MethodAnswers<T>(capacity: nat, log: seq<Event<T>>, c: Call<T>, me: nat, wakes: seq<Wake<T>>)
    requires LegalLog(Fresh(capacity), log) && Plausible(Replay(Fresh(capacity), log), wakes)
    requires CallResult(Replay(Fresh(capacity), log), c, wakes).1.Done?
    ensures var q := Replay(Fresh(capacity), log);
            var h := History(q, c, me, wakes);
            && |h| > 0
            && Answer(capacity, log + h[..|h| - 1], Event(me, c, CallResult(q, c, wakes).1.ret))
  {
    var q := Replay(Fresh(capacity), log);
    var h := History(q, c, me, wakes);
    CallIsOneEvent(q, c, me, wakes);
    ReplayConcat(Fresh(capacity), log, h);
    LegalExactly(capacity, log + h);
    var k := |log + h| - 1;
    assert (log + h)[..k] == log + h[..|h| - 1] && Answer(capacity, (log + h)[..k], (log + h)[k]);
  }

  // ---------------------------------------------------------------- runs of the machine

  /** In every reachable state, all events so far answer to those before them. */
  lemma {:induction false} ReachableAnswers<T>(capacity: nat, n: nat, run: seq<Action<T>>)
    requires Runs(Init<T>(capacity, n), run)
    ensures Answers(capacity, End(Init<T>(capacity, n), run).log)
  {
    var s := Init<T>(capacity, n);
    InvInit<T>(capacity, n);
    EventsRun(s, run);
    LegalExactly(capacity, Events(s, run));
    assert [] + Events(s, run) == Events(s, run);
  }

  lemma {:induction false} EventIsInLog<T>(log: seq<Event<T>>, t: nat, e: Event<T>) returns (k: nat)
    requires EventsBy(log, t) == [e]
    ensures k < |log| && log[k] == e
    decreases |log|
  {
    var n := |log| - 1;
    var rest := EventsBy(log[..n], t);
    if log[n].caller == t {
      k := n;
      assert (rest + [log[n]])[|rest|] == log[n];
    } else {
      k := EventIsInLog(log[..n], t, e);
    }
  }

  /**
   What a caller may rely on: from any state with any history, a call that starts and returns
   has one event during the call, with the value returned, that answers to all before it.
   */
  lemma {:induction false} CallAnswers<T>(s: State<T>, run: seq<Action<T>>, t: nat, c: Call<T>) returns (k: nat)
    requires Inv(s) && Runs(s, run) && SameCall(run, t)
    requires t < |s.threads| && s.threads[t] == In(c, Want)
    requires t < |End(s, run).threads| && End(s, run).threads[t].Returned?
    ensures var log := End(s, run).log;
            && s.log <= log && |s.log| <= k < |log| && log[k] == Event(t, c, End(s, run).threads[t].ret)
            && Answer(s.queue.capacity, log[..k], log[k])
  {
    Linearizable(s, run, t, c);
    EventsRun(s, run);
    var i := EventIsInLog(Events(s, run), t, Event(t, c, End(s, run).threads[t].ret));
    k := |s.log| + i;
    ReplayConcat(Fresh(s.queue.capacity), s.log, Events(s, run));
    LegalExactly(s.queue.capacity, End(s, run).log);
  }
}
