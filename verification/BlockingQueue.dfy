/**
 The queue object as one caller sees it: its fields, its methods with their wait loops, and
 a list of wake-ups saying what the other threads did to the object during each wait.
 */
module BlockingQueue {
  import opened Wrappers
  import opened AtomicQueue

  /** One return from a wait: what the others did meanwhile, and whether a timed wait timed out. */
  datatype Wake<+T> = Wake(meanwhile: seq<Event<T>>, timedOut: bool)

  /** A call either returns or is still asleep when the wake-ups run out. */
  datatype Outcome<+T> = Sleeping | Done(ret: Return<T>)

  /** The whole call as a function of the queue it finds and of the wake-ups it gets. */
  function CallResult<T>(q: Queue<T>, c: Call<T>, wakes: seq<Wake<T>>): (Queue<T>, Outcome<T>)
    decreases |wakes|
  {
    if !Blocked(q, c) then var (q', r) := Execute(q, c); (q', Done(r))
    else if |wakes| == 0 then (q, Sleeping)
    else
      var q' := Replay(q, wakes[0].meanwhile);
      if Timed(c) && wakes[0].timedOut then (q', Done(Failure(c))) else CallResult(q', c, wakes[1..])
  }

  /** The other threads only do what the atomic queue allows them to do. */
  ghost predicate Plausible<T>(q: Queue<T>, wakes: seq<Wake<T>>)
    decreases |wakes|
  {
    |wakes| == 0 || (LegalLog(q, wakes[0].meanwhile) && Plausible(Replay(q, wakes[0].meanwhile), wakes[1..]))
  }

  /** Everything the others did before the call decided, and then the call's own event. */
  ghost function History<T>(q: Queue<T>, c: Call<T>, me: nat, wakes: seq<Wake<T>>): seq<Event<T>>
    decreases |wakes|
  {
    if !Blocked(q, c) then [Event(me, c, Execute(q, c).1)]
    else if |wakes| == 0 then []
    else
      var q' := Replay(q, wakes[0].meanwhile);
      wakes[0].meanwhile +
      (if Timed(c) && wakes[0].timedOut then [Event(me, c, Failure(c))] else History(q', c, me, wakes[1..]))
  }

  /** The account of a call that ends in the queue `q'`. */
  ghost predicate OneEvent<T>(q: Queue<T>, c: Call<T>, me: nat, h: seq<Event<T>>, q': Queue<T>, out: Outcome<T>) {
    && LegalLog(q, h) && Replay(q, h) == q'
    && (out.Done? ==> |h| > 0 && h[|h| - 1] == Event(me, c, out.ret))
    && (out.Sleeping? ==> Blocked(q', c))
  }

  lemma OneEventLater<T>(q: Queue<T>, c: Call<T>, me: nat, log: seq<Event<T>>, h: seq<Event<T>>, q': Queue<T>,
        out: Outcome<T>)
    requires LegalLog(q, log) && OneEvent(Replay(q, log), c, me, h, q', out)
    ensures OneEvent(q, c, me, log + h, q', out)
  {
    ReplayConcat(q, log, h);
  }

  /**
   A blocking call is one atomic event placed after what the others did: its history is legal
   for the atomic queue, leads to the queue the call leaves behind, and ends with the call's
   own event and return value; a call still asleep has its wait condition true.
   */
  lemma {:induction false} CallIsOneEvent<T>(q: Queue<T>, c: Call<T>, me: nat, wakes: seq<Wake<T>>)
    requires Plausible(q, wakes)
    ensures OneEvent(q, c, me, History(q, c, me, wakes), CallResult(q, c, wakes).0, CallResult(q, c, wakes).1)
    decreases |wakes|
  {
    if !Blocked(q, c) {
      SingleEvent(q, Event(me, c, Execute(q, c).1));
    } else if |wakes| > 0 {
      var log := wakes[0].meanwhile;
      var q' := Replay(q, log);
      if Timed(c) && wakes[0].timedOut {
        var e := Event(me, c, Failure(c));
        SingleEvent(q', e);
        OneEventLater(q, c, me, log, [e], q', Done(Failure(c)));
      } else {
        CallIsOneEvent(q', c, me, wakes[1..]);
        var (last, out) := CallResult(q', c, wakes[1..]);
        OneEventLater(q, c, me, log, History(q', c, me, wakes[1..]), last, out);
      }
    }
  }

  lemma {:induction false} ReplayPrefix<T>(q: Queue<T>, log: seq<Event<T>>, k: nat)
    requires LegalLog(q, log) && k <= |log|
    ensures LegalLog(q, log[..k])
    decreases |log|
  {
    if k == |log| {
      assert log[..k] == log;
    } else {
      ReplayPrefix(q, log[..|log| - 1], k);
      assert log[..|log| - 1][..k] == log[..k];
    }
  }

  class BoundedBlockingQueue<T> {
    const capacity: nat
    var items: seq<T>
    var isClosed: bool

    ghost function View(): Queue<T>
      reads this
    {
      Queue(capacity, items, isClosed)
    }

    ghost predicate Valid()
      reads this
    {
      |items| <= capacity
    }

    constructor (capacity: nat)
      ensures Valid() && View() == Fresh(capacity)
    {
      this.capacity := capacity;
      items, isClosed := [], false;
    }

    method Close()
      requires Valid()
      modifies this
      ensures Valid() && View() == old(View()).(closed := true)
      ensures CallResult(old(View()), Call.Close, []) == (View(), Done(Unit))
    {
      isClosed := true;
    }

    method Closed() returns (b: bool)
      ensures b == isClosed && CallResult(View(), Call.Closed, []) == (View(), Done(Flag(b)))
    {
      b := isClosed;
    }

    method Size() returns (n: nat)
      ensures n == |items| && CallResult(View(), Call.Size, []) == (View(), Done(Count(n)))
    {
      n := |items|;
    }

    /** A wait seen from inside: the mutex is released and the others run their events. */
    method Wait(meanwhile: seq<Event<T>>)
      requires Valid() && LegalLog(View(), meanwhile)
      modifies this
      ensures Valid() && View() == Replay(old(View()), meanwhile)
    {
      var i := 0;
      while i < |meanwhile|
        invariant i <= |meanwhile| && Valid()
        invariant View() == Replay(old(View()), meanwhile[..i])
      {
        var e := meanwhile[i];
        ReplayPrefix(old(View()), meanwhile, i + 1);
        assert meanwhile[..i + 1][..i] == meanwhile[..i];
        if !TimedFailure(e) {
          var q := Execute(Queue(capacity, items, isClosed), e.call).0;
          items, isClosed := q.items, q.closed;
        }
        i := i + 1;
      }
      assert meanwhile[..i] == meanwhile;
    }

    /** push: true if accepted, false if closed, None if still asleep after the last wake-up. */
    method Push(item: T, wakes: seq<Wake<T>>) returns (r: Option<bool>)
      requires Valid() && Plausible(View(), wakes)
      modifies this
      ensures Valid()
      ensures var (q, out) := CallResult(old(View()), Call.Push(item), wakes);
              View() == q && (r == match out case Sleeping => None case Done(ret) => Some(ret.Accepted?))
    {
      var k := 0;
      while !isClosed && |items| >= capacity
        invariant k <= |wakes| && Valid() && Plausible(View(), wakes[k..])
        invariant CallResult(old(View()), Call.Push(item), wakes) == CallResult(View(), Call.Push(item), wakes[k..])
        decreases |wakes| - k
      {
        if k == |wakes| { return None; }
        Wait(wakes[k].meanwhile);
        k := k + 1;
        assert wakes[k - 1..][1..] == wakes[k..];
      }
      if isClosed { return Some(false); }
      items := items + [item];
      return Some(true);
    }

    /** push_for: as push, but a wait that times out returns false at once. */
    method PushFor(item: T, wakes: seq<Wake<T>>) returns (r: Option<bool>)
      requires Valid() && Plausible(View(), wakes)
      modifies this
      ensures Valid()
      ensures var (q, out) := CallResult(old(View()), Call.PushFor(item), wakes);
              View() == q && (r == match out case Sleeping => None case Done(ret) => Some(ret.Accepted?))
    {
      var k := 0;
      while !isClosed && |items| >= capacity
        invariant k <= |wakes| && Valid() && Plausible(View(), wakes[k..])
        invariant CallResult(old(View()), Call.PushFor(item), wakes) ==
                  CallResult(View(), Call.PushFor(item), wakes[k..])
        decreases |wakes| - k
      {
        if k == |wakes| { return None; }
        Wait(wakes[k].meanwhile);
        k := k + 1;
        assert wakes[k - 1..][1..] == wakes[k..];
        if wakes[k - 1].timedOut { return Some(false); }
      }
      if isClosed { return Some(false); }
      items := items + [item];
      return Some(true);
    }

    /** pop: the item taken out, or Nothing when closed and empty. */
    method Pop(wakes: seq<Wake<T>>) returns (out: Outcome<T>)
      requires Valid() && Plausible(View(), wakes)
      modifies this
      ensures Valid() && (View(), out) == CallResult(old(View()), Call.Pop, wakes)
    {
      var k := 0;
      while !isClosed && |items| == 0
        invariant k <= |wakes| && Valid() && Plausible(View(), wakes[k..])
        invariant CallResult(old(View()), Call.Pop, wakes) == CallResult(View(), Call.Pop, wakes[k..])
        decreases |wakes| - k
      {
        if k == |wakes| { return Sleeping; }
        Wait(wakes[k].meanwhile);
        k := k + 1;
        assert wakes[k - 1..][1..] == wakes[k..];
      }
      if |items| == 0 { return Done(Nothing); }
      out := Done(Got(items[0]));
      items := items[1..];
    }

    /** pop_for: as pop, but a wait that times out returns false at once. */
    method PopFor(wakes: seq<Wake<T>>) returns (out: Outcome<T>)
      requires Valid() && Plausible(View(), wakes)
      modifies this
      ensures Valid() && (View(), out) == CallResult(old(View()), Call.PopFor, wakes)
    {
      var k := 0;
      while !isClosed && |items| == 0
        invariant k <= |wakes| && Valid() && Plausible(View(), wakes[k..])
        invariant CallResult(old(View()), Call.PopFor, wakes) == CallResult(View(), Call.PopFor, wakes[k..])
        decreases |wakes| - k
      {
        if k == |wakes| { return Sleeping; }
        Wait(wakes[k].meanwhile);
        k := k + 1;
        assert wakes[k - 1..][1..] == wakes[k..];
        if wakes[k - 1].timedOut { return Done(Nothing); }
      }
      if |items| == 0 { return Done(Nothing); }
      out := Done(Got(items[0]));
      items := items[1..];
    }
  }
}
