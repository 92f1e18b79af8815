/**
 A producer that pushes 0 .. n-1 and then closes, and a consumer that pops until pop returns
 false, over every interleaving of the lock-level machine.
 */
module ProducerConsumer {
  import opened AtomicQueue
  import opened Protocol
  import opened WakeUps
  import opened Termination
  import opened Refinement
  import opened Safety

  /** Thread 0 produces, thread 1 consumes; `made` counts the pushes begun. */
  datatype Client = Client(core: State<nat>, n: nat, made: nat, received: seq<nat>)

  datatype Move =
    | Inside(a: Action<nat>)  // a step inside the current calls
    | Produce                // the producer's loop: next push, or the final close
    | Consume                // the consumer's loop: keep the item and pop again

  function Start(capacity: nat, n: nat): Client { Client(Init(capacity, 2), n, 0, []) }

  predicate CanMove(s: Client, m: Move)
    requires |s.core.threads| == 2
  {
    match m
    case Inside(a) => !a.Begin? && Enabled(s.core, a)
    case Produce =>
      var th := s.core.threads[0];
      th.Idle? || (th.Returned? && !th.call.Close?)
    case Consume =>
      var th := s.core.threads[1];
      th.Idle? || (th.Returned? && th.ret.Got?)
  }

  function Moved(s: Client, m: Move): (s': Client)
    requires |s.core.threads| == 2 && CanMove(s, m)
    ensures |s'.core.threads| == 2
    ensures s'.n == s.n && s'.core.queue.capacity == s.core.queue.capacity
  {
    match m
    case Inside(a) => s.(core := Apply(s.core, a))
    case Produce =>
      if s.made < s.n
      then s.(core := Apply(s.core, Begin(0, Push(s.made))), made := s.made + 1)
      else s.(core := Apply(s.core, Begin(0, Close)))
    case Consume =>
      var th := s.core.threads[1];
      s.(core := Apply(s.core, Begin(1, Pop)), received := if th.Idle? then s.received else s.received + [th.ret.item])
  }

  ghost predicate Plays(s: Client, moves: seq<Move>)
    requires |s.core.threads| == 2
    decreases |moves|
  {
    |moves| == 0 || (CanMove(s, moves[0]) && Plays(Moved(s, moves[0]), moves[1..]))
  }

  ghost function Final(s: Client, moves: seq<Move>): (s': Client)
    requires |s.core.threads| == 2 && Plays(s, moves)
    ensures |s'.core.threads| == 2 && s'.n == s.n && s'.core.queue.capacity == s.core.queue.capacity
    decreases |moves|
  {
    if |moves| == 0 then s else Final(Moved(s, moves[0]), moves[1..])
  }

  /** 0, 1, .., k-1. */
  function Iota(k: nat): seq<nat> { if k == 0 then [] else Iota(k - 1) + [k - 1] }

  lemma {:induction false} IotaAt(k: nat)
    ensures |Iota(k)| == k && forall i :: 0 <= i < k ==> Iota(k)[i] == i
  {
    if k > 0 { IotaAt(k - 1); }
  }

  /** How many of the begun pushes have taken effect. */
  function Done(s: Client): int
    requires |s.core.threads| == 2
  {
    var th := s.core.threads[0];
    if th.In? && th.call.Push? && ClientOf(th).Invoked? then s.made - 1 else s.made
  }

  /** The item the consumer's pop has taken out but the consumer has not yet kept. */
  function InHand(s: Client): seq<nat>
    requires |s.core.threads| == 2
  {
    var c := ClientOf(s.core.threads[1]);
    if (c.Effected? || c.Responded?) && c.ret.Got? then [c.ret.item] else []
  }

  ghost predicate ClientInv(s: Client) {
    && |s.core.threads| == 2
    && Inv(s.core) && WakeInv(s.core)
    && ProducerOk(s) && ConsumerOk(s)
  }

  ghost predicate ProducerOk(s: Client)
    requires |s.core.threads| == 2
  {
    var th := s.core.threads[0];
    && s.made <= s.n
    && (th.Idle? ==> s.made == 0)
    && (!th.Idle? ==> (th.call.Push? && s.made > 0 && th.call.item == s.made - 1) || (th.call.Close? && s.made == s.n))
    && (s.core.queue.closed ==> !th.Idle? && th.call.Close?)
    && AcceptedItems(s.core.log) == Iota(Done(s))
  }

  ghost predicate ConsumerOk(s: Client)
    requires |s.core.threads| == 2
  {
    && (!s.core.threads[1].Idle? ==> s.core.threads[1].call.Pop?)
    && DeliveredItems(s.core.log) == s.received + InHand(s)
  }

  predicate Finished(s: Client)
    requires |s.core.threads| == 2
  {
    && s.core.threads[0].Returned? && s.core.threads[0].call.Close?
    && s.core.threads[1].Returned? && s.core.threads[1].ret.Nothing?
  }

  lemma StartOk(capacity: nat, n: nat)
    ensures ClientInv(Start(capacity, n))
  {
    InvInit<nat>(capacity, 2);
    WakeInit<nat>(capacity, 2);
  }

  lemma {:induction false} BeginOk(s: State<nat>, t: nat, c: Call<nat>)
    requires Inv(s) && WakeInv(s) && Enabled(s, Begin(t, c))
    ensures Inv(Apply(s, Begin(t, c))) && WakeInv(Apply(s, Begin(t, c)))
  {
    InvStep(s, Begin(t, c));
    WakeStep(s, Begin(t, c));
  }

  /** Both threads make untimed calls only, so no timeout can occur. */
  lemma {:induction false} NoTimeouts(s: Client, a: Action<nat>)
    requires ClientInv(s) && CanMove(s, Inside(a))
    ensures !a.Timeout? && !a.LateTimeout? && !s.core.threads[a.t].pc.Expired?
    ensures s.core.threads[a.t].call.Push? || s.core.threads[a.t].call.Close? || s.core.threads[a.t].call.Pop?
  {
    assert a.t == 0 || a.t == 1;
    assert ThreadOk(s.core.queue, s.core.threads[a.t]);
  }

  /** The loops cannot tell the two states of the thread apart. */
  ghost predicate SameView(before: Thread<nat>, after: Thread<nat>) {
    var b, a := ClientOf(before), ClientOf(after);
    && (before.Idle? <==> after.Idle?)
    && (!before.Idle? ==> before.call == after.call)
    && (b.Invoked? <==> a.Invoked?)
    && (b.Effected? || b.Responded? ==> (a.Effected? || a.Responded?) && a.ret == b.ret)
  }

  lemma {:induction false} QuietQueue(s: Client, a: Action<nat>)
    requires ClientInv(s) && CanMove(s, Inside(a)) && !a.Commit?
    ensures Apply(s.core, a).log == s.core.log && Apply(s.core, a).queue == s.core.queue && NewEvents(s.core, a) == []
  {
    NoTimeouts(s, a);
    EventsStep(s.core, a);
  }

  /** Away from the commits, nothing that the loops can observe changes. */
  lemma {:induction false} QuietStep(s: Client, a: Action<nat>, t: nat)
    requires ClientInv(s) && CanMove(s, Inside(a)) && !a.Commit? && t < 2
    ensures Apply(s.core, a).log == s.core.log && Apply(s.core, a).queue == s.core.queue
    ensures SameView(s.core.threads[t], Apply(s.core, a).threads[t])
  {
    QuietQueue(s, a);
    if !s.core.threads[t].Idle? {
      StaysDoing(s.core, a, t, s.core.threads[t].call);
      StepSeenBy(s.core, a, t, s.core.threads[t].call);
    }
  }

  /** What the loops cannot see does not concern their invariants. */
  lemma {:induction false} QuietKeepsLoops(s: Client, core: State<nat>)
    requires |s.core.threads| == 2 == |core.threads| && ProducerOk(s) && ConsumerOk(s)
    requires core.log == s.core.log && core.queue == s.core.queue
    requires SameView(s.core.threads[0], core.threads[0]) && SameView(s.core.threads[1], core.threads[1])
    ensures ProducerOk(s.(core := core)) && ConsumerOk(s.(core := core))
  {
  }

  lemma {:induction false} CommitFacts(s: State<nat>, t: nat)
    requires Inv(s) && Enabled(s, Commit(t))
    ensures var s', c := AfterCommit(s, t), s.threads[t].call;
            var (q, r) := Execute(s.queue, c);
            && !Blocked(s.queue, c) && s'.queue == q && |s'.threads| == |s.threads|
            && (forall i :: 0 <= i < |s.threads| && i != t ==> s'.threads[i] == s.threads[i])
            && s'.threads[t].In? && s'.threads[t].call == c && ClientOf(s'.threads[t]) == Effected(c, r)
            && AcceptedItems(s'.log) == AcceptedItems(s.log) + ItemIn(Event(t, c, r))
            && DeliveredItems(s'.log) == DeliveredItems(s.log) + ItemOut(Event(t, c, r))
  {
    var c := s.threads[t].call;
    assert ThreadOk(s.queue, s.threads[t]);
    Snoc(s.queue, s.log, Event(t, c, Execute(s.queue, c).1));
  }

  /** The producer's commit accepts exactly the next number, or closes. */
  lemma {:induction false} ProducerCommit(s: Client)
    requires ClientInv(s) && CanMove(s, Inside(Commit(0)))
    ensures var s' := s.(core := AfterCommit(s.core, 0)); ProducerOk(s') && ConsumerOk(s')
  {
    CommitFacts(s.core, 0);
    if s.core.threads[0].call.Push? {
      assert Iota(s.made) == Iota(s.made - 1) + [s.made - 1];
    }
  }

  /** The consumer's commit takes the item that will be kept, or none. */
  lemma {:induction false} ConsumerCommit(s: Client)
    requires ClientInv(s) && CanMove(s, Inside(Commit(1)))
    ensures var s' := s.(core := AfterCommit(s.core, 1)); ProducerOk(s') && ConsumerOk(s')
  {
    CommitFacts(s.core, 1);
  }

  lemma {:induction false} ClientQueueStep(s: Client, a: Action<nat>)
    requires ClientInv(s) && CanMove(s, Inside(a))
    ensures ClientInv(Moved(s, Inside(a)))
  {
    NoTimeouts(s, a);
    InvStep(s.core, a);
    WakeStep(s.core, a);
    if a == Commit(0) {
      ProducerCommit(s);
    } else if a == Commit(1) {
      ConsumerCommit(s);
    } else {
      QuietStep(s, a, 0);
      QuietStep(s, a, 1);
      QuietKeepsLoops(s, Apply(s.core, a));
    }
  }

  lemma {:induction false} ProduceStep(s: Client)
    requires ClientInv(s) && CanMove(s, Produce)
    ensures ClientInv(Moved(s, Produce))
  {
    assert ThreadOk(s.core.queue, s.core.threads[0]);
    BeginOk(s.core, 0, if s.made < s.n then Push(s.made) else Close);
  }

  lemma {:induction false} ConsumeStep(s: Client)
    requires ClientInv(s) && CanMove(s, Consume)
    ensures ClientInv(Moved(s, Consume))
  {
    BeginOk(s.core, 1, Pop);
    assert s.received + [] == s.received;
  }

  lemma {:induction false} ClientStep(s: Client, m: Move)
    requires ClientInv(s) && CanMove(s, m)
    ensures ClientInv(Moved(s, m))
  {
    match m
    case Inside(a) => ClientQueueStep(s, a);
    case Produce => ProduceStep(s);
    case Consume => ConsumeStep(s);
  }

  lemma {:induction false} ClientRun(s: Client, moves: seq<Move>)
    requires ClientInv(s) && Plays(s, moves)
    ensures ClientInv(Final(s, moves))
    decreases |moves|
  {
    if |moves| > 0 {
      ClientStep(s, moves[0]);
      ClientRun(Moved(s, moves[0]), moves[1..]);
    }
  }

  /** No move but a spurious wake-up is possible. */
  ghost predicate Halted(s: Client)
    requires |s.core.threads| == 2
  {
    forall m: Move :: (m.Inside? ==> !m.a.Spurious?) ==> !CanMove(s, m)
  }

  /** A state without moves is one in which both loops have ended. */
  lemma {:induction false} HaltedIsFinished(s: Client)
    requires ClientInv(s) && s.core.queue.capacity >= 1 && Halted(s)
    ensures Finished(s)
  {
    assert Stuck(s.core) by {
      forall a: Action<nat> | Internal(a) ensures !Enabled(s.core, a) { assert !CanMove(s, Inside(a)); }
    }
    StuckExactly(s.core);
    assert !CanMove(s, Produce) && !CanMove(s, Consume);
    var q, th0, th1 := s.core.queue, s.core.threads[0], s.core.threads[1];
    assert AtRest(q, th0) && AtRest(q, th1) && ThreadOk(q, th0) && ThreadOk(q, th1);
  }

  /** When both loops have ended, the consumer holds 0 .. n-1 in order. */
  lemma {:induction false} FinishedReceivedAll(s: Client)
    requires ClientInv(s) && Finished(s)
    ensures s.received == Iota(s.n) && s.core.queue.items == []
  {
    FalsePopIsFinal(s.core, [], 1);
    FreshConservation(s.core.queue.capacity, s.core.log);
  }

  lemma {:induction false} ReachableClient(capacity: nat, n: nat, moves: seq<Move>)
    requires Plays(Start(capacity, n), moves)
    ensures ClientInv(Final(Start(capacity, n), moves))
  {
    StartOk(capacity, n);
    ClientRun(Start(capacity, n), moves);
  }

  /**
   Safety over whole runs: for every n, every capacity of at least one and every
   interleaving, spurious wake-ups included, the client cannot come to a halt before both
   loops have ended, and then the consumer received exactly 0 .. n-1 in order.
   */
  lemma {:induction false} ClientDeliversAll(capacity: nat, n: nat, moves: seq<Move>)
    requires capacity >= 1 && Plays(Start(capacity, n), moves)
    ensures var s := Final(Start(capacity, n), moves);
            && (Halted(s) <==> Finished(s))
            && (Finished(s) ==> |s.received| == n && forall i :: 0 <= i < n ==> s.received[i] == i)
  {
    var s := Final(Start(capacity, n), moves);
    ReachableClient(capacity, n, moves);
    if Halted(s) { HaltedIsFinished(s); }
    if Finished(s) { FinishedReceivedAll(s); IotaAt(n); }
  }

  // ---------------------------------------------------------------- termination

  /** Steps still to come: those of the calls under way and those of the calls still to begin. */
  function Remaining(s: Client): int
    requires |s.core.threads| == 2
  {
    var th0, th1 := s.core.threads[0], s.core.threads[1];
    Measure(s.core)
    + 8 * (s.n - s.made) + (if !th0.Idle? && th0.call.Close? then 0 else 14)
    + 8 * (s.n - |s.received|) + (if th1.Idle? then 8 else 0)
  }

  lemma {:induction false} ReceivedBound(s: Client)
    requires ClientInv(s)
    ensures |s.received| + |InHand(s)| <= s.n
  {
    FreshConservation(s.core.queue.capacity, s.core.log);
    IotaAt(Done(s));
  }

  lemma {:induction false} BeginCost(s: State<nat>, t: nat, c: Call<nat>)
    requires Enabled(s, Begin(t, c)) && |s.threads| == 2
    ensures Measure(Apply(s, Begin(t, c))) == Measure(s) + (if c.Close? then 13 else 7)
  {
    CostPut(s.threads, t, In(c, Want), 2);
  }

  lemma {:induction false} RemainingInside(s: Client, a: Action<nat>)
    requires ClientInv(s) && CanMove(s, Inside(a)) && !a.Spurious?
    ensures Remaining(Moved(s, Inside(a))) < Remaining(s)
  {
    MeasureFalls(s.core, a);
    if a.Commit? { CommitFacts(s.core, a.t); } else { QuietStep(s, a, 0); QuietStep(s, a, 1); }
  }

  lemma {:induction false} RemainingProduce(s: Client)
    requires ClientInv(s) && CanMove(s, Produce)
    ensures Remaining(Moved(s, Produce)) < Remaining(s)
  {
    BeginCost(s.core, 0, if s.made < s.n then Push(s.made) else Close);
  }

  lemma {:induction false} RemainingConsume(s: Client)
    requires ClientInv(s) && CanMove(s, Consume)
    ensures Remaining(Moved(s, Consume)) < Remaining(s)
  {
    BeginCost(s.core, 1, Pop);
  }

  lemma {:induction false} RemainingFalls(s: Client, m: Move)
    requires ClientInv(s) && CanMove(s, m) && (m.Inside? ==> !m.a.Spurious?)
    ensures Remaining(Moved(s, m)) < Remaining(s)
  {
    match m
    case Inside(a) => RemainingInside(s, a);
    case Produce => RemainingProduce(s);
    case Consume => RemainingConsume(s);
  }

  predicate IsSpurious(m: Move) { m.Inside? && m.a.Spurious? }

  function SpuriousMoves(moves: seq<Move>): nat {
    if |moves| == 0 then 0 else (if IsSpurious(moves[0]) then 1 else 0) + SpuriousMoves(moves[1..])
  }

  lemma {:induction false} RemainingSpurious(s: Client, t: nat)
    requires ClientInv(s) && CanMove(s, Inside(Spurious(t)))
    ensures Remaining(Moved(s, Inside(Spurious(t)))) <= Remaining(s) + 2
  {
    SpuriousCost(s.core, t);
    QuietStep(s, Spurious(t), 0);
    QuietStep(s, Spurious(t), 1);
  }

  lemma {:induction false} ClientRunsAreBounded(s: Client, moves: seq<Move>)
    requires ClientInv(s) && Plays(s, moves)
    ensures |moves| + Remaining(Final(s, moves)) <= Remaining(s) + 3 * SpuriousMoves(moves)
    decreases |moves|
  {
    if |moves| > 0 {
      var m := moves[0];
      if IsSpurious(m) { RemainingSpurious(s, m.a.t); } else { RemainingFalls(s, m); }
      ClientStep(s, m);
      ClientRunsAreBounded(Moved(s, m), moves[1..]);
    }
  }

  /** Every run of the client is finite but for spurious wake-ups, with a bound known in advance. */
  lemma {:induction false} ClientTerminates(capacity: nat, n: nat, moves: seq<Move>)
    requires Plays(Start(capacity, n), moves)
    ensures |moves| <= 16 * n + 22 + 3 * SpuriousMoves(moves)
  {
    StartOk(capacity, n);
    ClientRunsAreBounded(Start(capacity, n), moves);
    ReachableClient(capacity, n, moves);
    ReceivedBound(Final(Start(capacity, n), moves));
    CostNothing(Start(capacity, n).core.threads, 2);
  }
}
