/**
 The bounded FIFO with a close flag as a value: the wait condition of each call, the
 critical section that runs once the condition is false, and logs of such atomic events.
 The blocking class and the lock-level machine are both proved against this module.
 */
module AtomicQueue {
  datatype Call<+T> = Push(item: T) | PushFor(item: T) | Pop | PopFor | Close | Closed | Size

  /** Accepted/Refused are push's true/false; Got/Nothing are pop's true (with `out`) and false. */
  datatype Return<+T> = Accepted | Refused | Got(item: T) | Nothing | Unit | Flag(closed: bool) | Count(size: nat)

  datatype Queue<+T> = Queue(capacity: nat, items: seq<T>, closed: bool)

  /** One atomic event: which thread's call took effect, and with what return value. */
  datatype Event<+T> = Event(caller: nat, call: Call<T>, ret: Return<T>)

  function Fresh<T>(capacity: nat): Queue<T> { Queue(capacity, [], false) }

  predicate IsPush<T>(c: Call<T>) { c.Push? || c.PushFor? }

  predicate IsPop<T>(c: Call<T>) { c.Pop? || c.PopFor? }

  /** The calls that contain a wait loop. */
  predicate Waits<T>(c: Call<T>) { IsPush(c) || IsPop(c) }

  predicate Timed<T>(c: Call<T>) { c.PushFor? || c.PopFor? }

  predicate Full<T>(q: Queue<T>) { |q.items| >= q.capacity }

  predicate Empty<T>(q: Queue<T>) { |q.items| == 0 }

  /** The guard of the call's wait loop. */
  predicate Blocked<T>(q: Queue<T>, c: Call<T>) {
    !q.closed && ((IsPush(c) && Full(q)) || (IsPop(c) && Empty(q)))
  }

  /** What a waiting call returns for "false". */
  function Failure<T>(c: Call<T>): Return<T> { if IsPush(c) then Refused else Nothing }

  /** The critical section after the wait loop. */
  function Execute<T>(q: Queue<T>, c: Call<T>): (Queue<T>, Return<T>) {
    match c
    case Push(x) => if q.closed then (q, Refused) else (q.(items := q.items + [x]), Accepted)
    case PushFor(x) => if q.closed then (q, Refused) else (q.(items := q.items + [x]), Accepted)
    case Pop => if Empty(q) then (q, Nothing) else (q.(items := q.items[1..]), Got(q.items[0]))
    case PopFor => if Empty(q) then (q, Nothing) else (q.(items := q.items[1..]), Got(q.items[0]))
    case Close => (q.(closed := true), Unit)
    case Closed => (q, Flag(q.closed))
    case Size => (q, Count(|q.items|))
  }

  /** A timed call that reported "false" leaves the queue alone, whatever its state. */
  predicate TimedFailure<T>(e: Event<T>) {
    (e.call.PushFor? && e.ret.Refused?) || (e.call.PopFor? && e.ret.Nothing?)
  }

  ghost predicate Legal<T>(q: Queue<T>, e: Event<T>) {
    TimedFailure(e) || (!Blocked(q, e.call) && e.ret == Execute(q, e.call).1)
  }

  function After<T>(q: Queue<T>, e: Event<T>): Queue<T> {
    if TimedFailure(e) then q else Execute(q, e.call).0
  }

  function Replay<T>(q: Queue<T>, log: seq<Event<T>>): Queue<T> {
    if |log| == 0 then q else After(Replay(q, log[..|log| - 1]), log[|log| - 1])
  }

  ghost predicate LegalLog<T>(q: Queue<T>, log: seq<Event<T>>) {
    |log| == 0 ||
    (LegalLog(q, log[..|log| - 1]) && Legal(Replay(q, log[..|log| - 1]), log[|log| - 1]))
  }

  predicate Accepts<T>(e: Event<T>) { IsPush(e.call) && e.ret.Accepted? }

  function ItemIn<T>(e: Event<T>): seq<T> { if Accepts(e) then [e.call.item] else [] }

  function ItemOut<T>(e: Event<T>): seq<T> { if e.ret.Got? then [e.ret.item] else [] }

  /** The items of the successful pushes, oldest first. */
  function AcceptedItems<T>(log: seq<Event<T>>): seq<T> {
    if |log| == 0 then [] else
      var e, rest := log[|log| - 1], AcceptedItems(log[..|log| - 1]);
      if Accepts(e) then rest + [e.call.item] else rest
  }

  /** The items handed out by the successful pops, oldest first. */
  function DeliveredItems<T>(log: seq<Event<T>>): seq<T> {
    if |log| == 0 then [] else
      var e, rest := log[|log| - 1], DeliveredItems(log[..|log| - 1]);
      if e.ret.Got? then rest + [e.ret.item] else rest
  }

  /** The threads that made the successful pushes, in the same order as AcceptedItems. */
  function Origins<T>(log: seq<Event<T>>): seq<nat> {
    if |log| == 0 then [] else
      var e, rest := log[|log| - 1], Origins(log[..|log| - 1]);
      if Accepts(e) then rest + [e.caller] else rest
  }

  /** The threads that made the successful pops, in the same order as DeliveredItems. */
  function Receivers<T>(log: seq<Event<T>>): seq<nat> {
    if |log| == 0 then [] else
      var e, rest := log[|log| - 1], Receivers(log[..|log| - 1]);
      if e.ret.Got? then rest + [e.caller] else rest
  }

  /** The events of one thread, in order. */
  function EventsBy<T>(log: seq<Event<T>>, t: nat): seq<Event<T>> {
    if |log| == 0 then [] else
      var e, rest := log[|log| - 1], EventsBy(log[..|log| - 1], t);
      if e.caller == t then rest + [e] else rest
  }

  /** The entries of `xs` whose tag is `t`. */
  function Select<T>(xs: seq<T>, tags: seq<nat>, t: nat): seq<T>
    requires |xs| == |tags|
  {
    if |xs| == 0 then [] else
      var n := |xs| - 1;
      var rest := Select(xs[..n], tags[..n], t);
      if tags[n] == t then rest + [xs[n]] else rest
  }

  /** Strictly, a timed call may fail only where it finds its condition true, or by its own critical section. */
  ghost predicate StrictLegal<T>(q: Queue<T>, e: Event<T>) {
    (TimedFailure(e) && Blocked(q, e.call)) || (!Blocked(q, e.call) && e.ret == Execute(q, e.call).1)
  }

  ghost predicate StrictLog<T>(q: Queue<T>, log: seq<Event<T>>) {
    |log| == 0 ||
    (StrictLog(q, log[..|log| - 1]) && StrictLegal(Replay(q, log[..|log| - 1]), log[|log| - 1]))
  }

  lemma Snoc<T>(q: Queue<T>, log: seq<Event<T>>, e: Event<T>)
    ensures Replay(q, log + [e]) == After(Replay(q, log), e)
    ensures LegalLog(q, log + [e]) <==> LegalLog(q, log) && Legal(Replay(q, log), e)
    ensures AcceptedItems(log + [e]) == AcceptedItems(log) + ItemIn(e)
    ensures DeliveredItems(log + [e]) == DeliveredItems(log) + ItemOut(e)
  {
    assert (log + [e])[..|log|] == log;
  }

  lemma SingleEvent<T>(q: Queue<T>, e: Event<T>)
    requires Legal(q, e)
    ensures LegalLog(q, [e]) && Replay(q, [e]) == After(q, e)
  {
    Snoc(q, [], e);
    assert [] + [e] == [e];
  }

  /** Logs compose: running `a` and then `b` is running `a + b`. */
  lemma {:induction false} ReplayConcat<T>(q: Queue<T>, a: seq<Event<T>>, b: seq<Event<T>>)
    ensures Replay(q, a + b) == Replay(Replay(q, a), b)
    ensures LegalLog(q, a + b) <==> LegalLog(q, a) && LegalLog(Replay(q, a), b)
    ensures AcceptedItems(a + b) == AcceptedItems(a) + AcceptedItems(b)
    ensures DeliveredItems(a + b) == DeliveredItems(a) + DeliveredItems(b)
  {
    if |b| == 0 {
      assert a + b == a;
    } else {
      var b', e := b[..|b| - 1], b[|b| - 1];
      assert b == b' + [e] && a + b == (a + b') + [e];
      ReplayConcat(q, a, b');
      Snoc(q, a + b', e);
    }
  }

  lemma EventBalance<T>(q: Queue<T>, e: Event<T>)
    requires Legal(q, e) && |q.items| <= q.capacity
    ensures q.items + ItemIn(e) == ItemOut(e) + After(q, e).items
    ensures |After(q, e).items| <= q.capacity == After(q, e).capacity
  {
  }

  lemma StrictSnoc<T>(q: Queue<T>, log: seq<Event<T>>, e: Event<T>)
    ensures StrictLog(q, log + [e]) <==> StrictLog(q, log) && StrictLegal(Replay(q, log), e)
  {
    assert (log + [e])[..|log|] == log;
  }

  lemma {:induction false} StrictConcat<T>(q: Queue<T>, a: seq<Event<T>>, b: seq<Event<T>>)
    ensures StrictLog(q, a + b) <==> StrictLog(q, a) && StrictLog(Replay(q, a), b)
  {
    if |b| == 0 {
      assert a + b == a;
    } else {
      var b', e := b[..|b| - 1], b[|b| - 1];
      assert b == b' + [e] && a + b == (a + b') + [e];
      StrictConcat(q, a, b');
      ReplayConcat(q, a, b');
      StrictSnoc(q, a + b', e);
    }
  }

  /** A strict history is a legal one. */
  lemma {:induction false} StrictIsLegal<T>(q: Queue<T>, log: seq<Event<T>>)
    requires StrictLog(q, log)
    ensures LegalLog(q, log)
  {
    if |log| > 0 { StrictIsLegal(q, log[..|log| - 1]); }
  }

  /**
   Conservation and FIFO order: what was in the queue, then what was accepted, is what was
   delivered, then what is in the queue now. The bound holds throughout.
   */
  lemma {:induction false} Conservation<T>(q: Queue<T>, log: seq<Event<T>>)
    requires LegalLog(q, log) && |q.items| <= q.capacity
    ensures q.items + AcceptedItems(log) == DeliveredItems(log) + Replay(q, log).items
    ensures |Replay(q, log).items| <= q.capacity == Replay(q, log).capacity
  {
    if |log| > 0 {
      var log', e := log[..|log| - 1], log[|log| - 1];
      Conservation(q, log');
      var mid := Replay(q, log');
      EventBalance(mid, e);
      Regroup(q.items, AcceptedItems(log'), DeliveredItems(log'), mid.items,
              ItemIn(e), ItemOut(e), After(mid, e).items);
    }
  }

  lemma Regroup<T>(q: seq<T>, acc: seq<T>, del: seq<T>, mid: seq<T>, x: seq<T>, y: seq<T>, now: seq<T>)
    requires q + acc == del + mid && mid + x == y + now
    ensures q + (acc + x) == (del + y) + now
  {
    assert q + (acc + x) == (q + acc) + x == del + (mid + x) == (del + y) + now;
  }

  /** From a fresh queue, the accepted items split into the delivered ones and those still queued. */
  lemma FreshConservation<T>(capacity: nat, log: seq<Event<T>>)
    requires LegalLog(Fresh(capacity), log)
    ensures AcceptedItems(log) == DeliveredItems(log) + Replay(Fresh(capacity), log).items
    ensures |Replay(Fresh(capacity), log).items| <= capacity
  {
    Conservation(Fresh(capacity), log);
    assert Fresh<T>(capacity).items + AcceptedItems(log) == AcceptedItems(log);
  }

  /** Closing is final: nothing is accepted any more and the queue only shrinks from the front. */
  lemma {:induction false} ClosedIsFinal<T>(q: Queue<T>, log: seq<Event<T>>)
    requires LegalLog(q, log) && q.closed
    ensures Replay(q, log).closed && AcceptedItems(log) == []
    ensures q.items == DeliveredItems(log) + Replay(q, log).items
  {
    if |log| > 0 {
      ClosedIsFinal(q, log[..|log| - 1]);
    }
  }

  lemma {:induction false} TagCounts<T>(log: seq<Event<T>>)
    ensures |Origins(log)| == |AcceptedItems(log)|
    ensures |Receivers(log)| == |DeliveredItems(log)|
  {
    if |log| > 0 { TagCounts(log[..|log| - 1]); }
  }

  lemma {:induction false} SelectPrefix<T>(xs: seq<T>, tags: seq<nat>, k: nat, t: nat)
    requires |xs| == |tags| && k <= |xs|
    ensures Select(xs[..k], tags[..k], t) <= Select(xs, tags, t)
    decreases |xs|
  {
    if k == |xs| {
      assert xs[..k] == xs && tags[..k] == tags;
    } else {
      var n := |xs| - 1;
      SelectPrefix(xs[..n], tags[..n], k, t);
      assert xs[..n][..k] == xs[..k] && tags[..n][..k] == tags[..k];
    }
  }

  lemma SelectSnoc<T>(xs: seq<T>, tags: seq<nat>, x: T, tag: nat, t: nat)
    requires |xs| == |tags|
    ensures Select(xs + [x], tags + [tag], t) == Select(xs, tags, t) + (if tag == t then [x] else [])
  {
    assert (xs + [x])[..|xs|] == xs && (tags + [tag])[..|xs|] == tags;
  }

  /** A thread's own events carry exactly the accepted items tagged with it. */
  lemma {:induction false} AcceptedByThread<T>(log: seq<Event<T>>, t: nat)
    ensures |Origins(log)| == |AcceptedItems(log)|
    ensures AcceptedItems(EventsBy(log, t)) == Select(AcceptedItems(log), Origins(log), t)
  {
    TagCounts(log);
    if |log| > 0 {
      var log', e := log[..|log| - 1], log[|log| - 1];
      AcceptedByThread(log', t);
      if e.caller == t { Snoc(Fresh(0), EventsBy(log', t), e); }
      if Accepts(e) { SelectSnoc(AcceptedItems(log'), Origins(log'), e.call.item, e.caller, t); }
    }
  }

  /** A thread's own events carry exactly the delivered items tagged with it. */
  lemma {:induction false} DeliveredToThread<T>(log: seq<Event<T>>, t: nat)
    ensures |Receivers(log)| == |DeliveredItems(log)|
    ensures DeliveredItems(EventsBy(log, t)) == Select(DeliveredItems(log), Receivers(log), t)
  {
    TagCounts(log);
    if |log| > 0 {
      var log', e := log[..|log| - 1], log[|log| - 1];
      DeliveredToThread(log', t);
      if e.caller == t { Snoc(Fresh(0), EventsBy(log', t), e); }
      if e.ret.Got? { SelectSnoc(DeliveredItems(log'), Receivers(log'), e.ret.item, e.caller, t); }
    }
  }

  /**
   Many producers, many consumers: the items of producer `p` that have been delivered are a
   prefix of the items `p` had accepted, in `p`'s own order; and what consumer `c` received
   is `c`'s share of the accepted sequence, position by position, so that no accepted item
   is delivered twice.
   */
  lemma OrderPerThread<T>(capacity: nat, log: seq<Event<T>>, p: nat, c: nat)
    requires LegalLog(Fresh(capacity), log)
    ensures var k := |DeliveredItems(log)|;
            && k <= |AcceptedItems(log)| == |Origins(log)| && |Receivers(log)| == k
            && Select(DeliveredItems(log), Origins(log)[..k], p) <= AcceptedItems(EventsBy(log, p))
            && DeliveredItems(EventsBy(log, c)) == Select(AcceptedItems(log)[..k], Receivers(log), c)
  {
    FreshConservation(capacity, log);
    AcceptedByThread(log, p);
    DeliveredToThread(log, c);
    var k := |DeliveredItems(log)|;
    assert AcceptedItems(log)[..k] == DeliveredItems(log);
    SelectPrefix(AcceptedItems(log), Origins(log), k, p);
  }
}
