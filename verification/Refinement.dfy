/**
 The lock-level machine refines an atomic bounded FIFO: every call takes effect in one
 indivisible event between its start and its return, and every other step is invisible.
 */
module Refinement {
  import opened Wrappers
  import opened AtomicQueue
  import opened Protocol

  // ---------------------------------------------------------------- the atomic machine

  /** What a thread of the atomic machine is doing. */
  datatype Client<+T> =
    | Quiet
    | Invoked(call: Call<T>)
    | Effected(call: Call<T>, ret: Return<T>)
    | Responded(call: Call<T>, ret: Return<T>)

  datatype Spec<T> = Spec(queue: Queue<T>, clients: seq<Client<T>>)

  datatype Label<+T> = Invoke(t: nat, call: Call<T>) | Effect(t: nat, ret: Return<T>) | Respond(t: nat) | Stutter

  /** An effect must be what the atomic queue does at that instant; a timed call may also fail. */
  ghost predicate SpecStep<T>(sp: Spec<T>, l: Label<T>, sp': Spec<T>) {
    match l
    case Stutter => sp' == sp
    case Invoke(t, c) =>
      && t < |sp.clients| && (sp.clients[t].Quiet? || sp.clients[t].Responded?)
      && sp' == sp.(clients := sp.clients[t := Invoked(c)])
    case Effect(t, r) =>
      && t < |sp.clients| && sp.clients[t].Invoked?
      && var c := sp.clients[t].call;
      && Legal(sp.queue, Event(t, c, r))
      && sp' == Spec(After(sp.queue, Event(t, c, r)), sp.clients[t := Effected(c, r)])
    case Respond(t) =>
      && t < |sp.clients| && sp.clients[t].Effected?
      && sp' == sp.(clients := sp.clients[t := Responded(sp.clients[t].call, sp.clients[t].ret)])
  }

  // ---------------------------------------------------------------- the abstraction

  function ClientOf<T>(th: Thread<T>): Client<T> {
    match th
    case Idle => Quiet
    case Returned(c, r) => Responded(c, r)
    case In(c, pc) =>
      match pc
      case Leave(r) => Effected(c, r)
      case Unlock(r) => Effected(c, r)
      case Notify(r) => Effected(c, r)
      case NotifyConsumers => Effected(c, Unit)
      case NotifyProducers => Effected(c, Unit)
      case _ => Invoked(c)
  }

  function Clients<T>(ths: seq<Thread<T>>): (r: seq<Client<T>>)
    ensures |r| == |ths|
    ensures forall i :: 0 <= i < |ths| ==> r[i] == ClientOf(ths[i])
  {
    if |ths| == 0 then [] else [ClientOf(ths[0])] + Clients(ths[1..])
  }

  function Abs<T>(s: State<T>): Spec<T> { Spec(s.queue, Clients(s.threads)) }

  /** The abstract step that an action amounts to. */
  function LabelOf<T>(s: State<T>, a: Action<T>): Label<T>
    requires Enabled(s, a)
  {
    match a
    case Begin(t, c) => Invoke(t, c)
    case Commit(t) => Effect(t, Execute(s.queue, s.threads[t].call).1)
    case Acquire(t) => if s.threads[t].pc.Expired? then Effect(t, Failure(s.threads[t].call)) else Stutter
    case Release(t) => if s.threads[t].pc.Leave? then Respond(t) else Stutter
    case NotifyOne(t, _) => Respond(t)
    case NotifyAll(t) => if s.threads[t].pc.NotifyProducers? then Respond(t) else Stutter
    case _ => Stutter
  }

  /** What a change of one thread looks like from above. */
  lemma {:induction false} AbsPut<T>(s: State<T>, s': State<T>, t: nat)
    requires t < |s.threads| == |s'.threads| && s'.threads == s.threads[t := s'.threads[t]]
    ensures Abs(s').clients == Abs(s).clients[t := ClientOf(s'.threads[t])]
  {
  }

  lemma {:induction false} AbsSame<T>(s: State<T>, s': State<T>)
    requires |s.threads| == |s'.threads| && s'.queue == s.queue
    requires forall i :: 0 <= i < |s.threads| ==> ClientOf(s'.threads[i]) == ClientOf(s.threads[i])
    ensures Abs(s') == Abs(s)
  {
    assert Clients(s'.threads) == Clients(s.threads);
  }

  lemma {:induction false} RefinesExpired<T>(s: State<T>, t: nat)
    requires Inv(s) && Enabled(s, Acquire(t)) && s.threads[t].pc.Expired?
    ensures SpecStep(Abs(s), Effect(t, Failure(s.threads[t].call)), Abs(AfterAcquire(s, t)))
  {
    assert ThreadOk(s.queue, s.threads[t]);
    AbsPut(s, AfterAcquire(s, t), t);
  }

  lemma {:induction false} RefinesAcquire<T>(s: State<T>, t: nat)
    requires Inv(s) && Enabled(s, Acquire(t))
    ensures SpecStep(Abs(s), LabelOf(s, Acquire(t)), Abs(AfterAcquire(s, t)))
  {
    if s.threads[t].pc.Expired? { RefinesExpired(s, t); } else { AbsSame(s, AfterAcquire(s, t)); }
  }

  lemma {:induction false} RefinesCommit<T>(s: State<T>, t: nat)
    requires Inv(s) && Enabled(s, Commit(t))
    ensures SpecStep(Abs(s), LabelOf(s, Commit(t)), Abs(AfterCommit(s, t)))
  {
    assert ThreadOk(s.queue, s.threads[t]);
    AbsPut(s, AfterCommit(s, t), t);
  }

  lemma {:induction false} RefinesRelease<T>(s: State<T>, t: nat)
    requires Inv(s) && Enabled(s, Release(t))
    ensures SpecStep(Abs(s), LabelOf(s, Release(t)), Abs(AfterRelease(s, t)))
  {
    assert ThreadOk(s.queue, s.threads[t]);
    if s.threads[t].pc.Leave? { AbsPut(s, AfterRelease(s, t), t); } else { AbsSame(s, AfterRelease(s, t)); }
  }

  /** A call that has taken effect and needs no further step returns. */
  lemma {:induction false} RefinesReturn<T>(s: State<T>, t: nat, r: Return<T>)
    requires t < |s.threads| && s.threads[t].In? && ClientOf(s.threads[t]) == Effected(s.threads[t].call, r)
    ensures SpecStep(Abs(s), Respond(t), Abs(Put(s, t, Returned(s.threads[t].call, r))))
  {
    AbsPut(s, Put(s, t, Returned(s.threads[t].call, r)), t);
  }

  lemma {:induction false} WakeOneInvisible<T>(s: State<T>, i: nat)
    requires i < |s.threads| && s.threads[i].In? && s.threads[i].pc.Asleep?
    ensures Abs(Move(s, i, Woken)) == Abs(s)
  {
    AbsSame(s, Move(s, i, Woken));
  }

  lemma {:induction false} RefinesNotifyOne<T>(s: State<T>, t: nat, w: Option<nat>)
    requires Inv(s) && Enabled(s, NotifyOne(t, w))
    ensures SpecStep(Abs(s), Respond(t), Abs(AfterNotifyOne(s, t, w)))
  {
    var r := s.threads[t].pc.ret;
    RefinesReturn(s, t, r);
    if w.Some? { WakeOneInvisible(Put(s, t, Returned(s.threads[t].call, r)), w.value); }
  }

  lemma {:induction false} WakeAllInvisible<T>(s: State<T>, side: Side)
    ensures Abs(s.(threads := WakeAll(s.threads, side))) == Abs(s)
  {
    AbsSame(s, s.(threads := WakeAll(s.threads, side)));
  }

  lemma {:induction false} RefinesNotifyAll<T>(s: State<T>, t: nat)
    requires Inv(s) && Enabled(s, NotifyAll(t))
    ensures SpecStep(Abs(s), LabelOf(s, NotifyAll(t)), Abs(AfterNotifyAll(s, t)))
  {
    assert ThreadOk(s.queue, s.threads[t]);
    var c := s.threads[t].call;
    if s.threads[t].pc.NotifyConsumers? {
      AbsSame(s, Move(s, t, NotifyProducers));
      WakeAllInvisible(Move(s, t, NotifyProducers), Consumers);
    } else {
      RefinesReturn(s, t, Unit);
      WakeAllInvisible(Put(s, t, Returned(c, Unit)), Producers);
    }
  }

  /** Going to sleep, waking and timing out are invisible. */
  lemma {:induction false} RefinesQuiet<T>(s: State<T>, a: Action<T>)
    requires Inv(s) && Enabled(s, a) && (a.Test? || a.Timeout? || a.LateTimeout? || a.Spurious?)
    ensures Abs(Apply(s, a)) == Abs(s)
  {
    AbsSame(s, Apply(s, a));
  }

  lemma {:induction false} RefinesBegin<T>(s: State<T>, t: nat, c: Call<T>)
    requires Inv(s) && Enabled(s, Begin(t, c))
    ensures SpecStep(Abs(s), Invoke(t, c), Abs(Put(s, t, In(c, Want))))
  {
    AbsPut(s, Put(s, t, In(c, Want)), t);
  }

  /** One step of the lock-level machine is one step of the atomic machine, or none. */
  lemma {:induction false} RefinesStep<T>(s: State<T>, a: Action<T>)
    requires Inv(s) && Enabled(s, a)
    ensures SpecStep(Abs(s), LabelOf(s, a), Abs(Apply(s, a)))
  {
    match a
    case Begin(t, c) => RefinesBegin(s, t, c);
    case Acquire(t) => RefinesAcquire(s, t);
    case Commit(t) => RefinesCommit(s, t);
    case Release(t) => RefinesRelease(s, t);
    case NotifyOne(t, w) => RefinesNotifyOne(s, t, w);
    case NotifyAll(t) => RefinesNotifyAll(s, t);
    case _ => RefinesQuiet(s, a);
  }

  ghost predicate SpecRuns<T>(sps: seq<Spec<T>>, labels: seq<Label<T>>) {
    |sps| == |labels| + 1 && forall k :: 0 <= k < |labels| ==> SpecStep(sps[k], labels[k], sps[k + 1])
  }

  /** The labels of a whole run. */
  ghost function Labels<T>(s: State<T>, run: seq<Action<T>>): (r: seq<Label<T>>)
    requires Runs(s, run)
    ensures |r| == |run|
    decreases |run|
  {
    if |run| == 0 then [] else [LabelOf(s, run[0])] + Labels(Apply(s, run[0]), run[1..])
  }

  /** The abstract states of a whole run. */
  ghost function AbsTrace<T>(s: State<T>, run: seq<Action<T>>): (r: seq<Spec<T>>)
    requires Runs(s, run)
    ensures |r| == |run| + 1 && r[0] == Abs(s) && r[|run|] == Abs(End(s, run))
    decreases |run|
  {
    if |run| == 0 then [Abs(s)] else [Abs(s)] + AbsTrace(Apply(s, run[0]), run[1..])
  }

  /** Forward simulation: every run of the lock-level machine is a run of the atomic machine. */
  lemma {:induction false} RefinesRun<T>(s: State<T>, run: seq<Action<T>>)
    requires Inv(s) && Runs(s, run)
    ensures SpecRuns(AbsTrace(s, run), Labels(s, run))
    decreases |run|
  {
    if |run| > 0 {
      var s', rest := Apply(s, run[0]), run[1..];
      RefinesStep(s, run[0]);
      InvStep(s, run[0]);
      RefinesRun(s', rest);
      var sps, labels := AbsTrace(s, run), Labels(s, run);
      forall k | 0 <= k < |labels| ensures SpecStep(sps[k], labels[k], sps[k + 1]) {
        if k > 0 {
          assert SpecStep(AbsTrace(s', rest)[k - 1], Labels(s', rest)[k - 1], AbsTrace(s', rest)[k]);
        }
      }
    }
  }

  // ---------------------------------------------------------------- the events of a run

  /** What an action adds to the log. */
  function NewEvents<T>(s: State<T>, a: Action<T>): seq<Event<T>>
    requires Enabled(s, a)
  {
    if a.Commit? then [Event(a.t, s.threads[a.t].call, Execute(s.queue, s.threads[a.t].call).1)]
    else if a.Acquire? && s.threads[a.t].pc.Expired?
    then [Event(a.t, s.threads[a.t].call, Failure(s.threads[a.t].call))]
    else []
  }

  ghost function Events<T>(s: State<T>, run: seq<Action<T>>): seq<Event<T>>
    requires Runs(s, run)
    decreases |run|
  {
    if |run| == 0 then [] else NewEvents(s, run[0]) + Events(Apply(s, run[0]), run[1..])
  }

  /** The events of the first `k` actions of a run. */
  ghost function EventsUpTo<T>(s: State<T>, run: seq<Action<T>>, k: nat): seq<Event<T>>
    requires Runs(s, run) && k <= |run|
    decreases k
  {
    if k == 0 then [] else NewEvents(s, run[0]) + EventsUpTo(Apply(s, run[0]), run[1..], k - 1)
  }

  lemma {:induction false} EventsStep<T>(s: State<T>, a: Action<T>)
    requires Inv(s) && Enabled(s, a)
    ensures LegalLog(s.queue, NewEvents(s, a))
    ensures Apply(s, a).queue == Replay(s.queue, NewEvents(s, a))
    ensures Apply(s, a).log == s.log + NewEvents(s, a)
  {
    assert ThreadOk(s.queue, s.threads[a.t]);
    if |NewEvents(s, a)| > 0 { SingleEvent(s.queue, NewEvents(s, a)[0]); }
  }

  /** The queue inside a run is the replay of the events so far. */
  lemma {:induction false} QueueAt<T>(s: State<T>, run: seq<Action<T>>, k: nat)
    requires Inv(s) && Runs(s, run) && k <= |run|
    ensures StateAt(s, run, k).queue == Replay(s.queue, EventsUpTo(s, run, k))
    decreases k
  {
    if k > 0 {
      var s', rest := Apply(s, run[0]), run[1..];
      EventsStep(s, run[0]);
      InvStep(s, run[0]);
      QueueAt(s', rest, k - 1);
      ReplayConcat(s.queue, NewEvents(s, run[0]), EventsUpTo(s', rest, k - 1));
    }
  }

  lemma {:induction false} EventsJoin<T>(s: State<T>, s': State<T>, last: State<T>, first: seq<Event<T>>,
        others: seq<Event<T>>)
    requires LegalLog(s.queue, first) && s'.queue == Replay(s.queue, first) && s'.log == s.log + first
    requires LegalLog(s'.queue, others) && last.queue == Replay(s'.queue, others) && last.log == s'.log + others
    ensures LegalLog(s.queue, first + others) && last.queue == Replay(s.queue, first + others)
    ensures last.log == s.log + (first + others)
  {
    ReplayConcat(s.queue, first, others);
  }

  /** The log grows by the run's events, which are a legal history of the atomic queue. */
  lemma {:induction false} EventsRun<T>(s: State<T>, run: seq<Action<T>>)
    requires Inv(s) && Runs(s, run)
    ensures LegalLog(s.queue, Events(s, run))
    ensures End(s, run).queue == Replay(s.queue, Events(s, run))
    ensures End(s, run).log == s.log + Events(s, run)
    decreases |run|
  {
    if |run| > 0 {
      var s', rest := Apply(s, run[0]), run[1..];
      EventsStep(s, run[0]);
      InvStep(s, run[0]);
      EventsRun(s', rest);
      EventsJoin(s, s', End(s', rest), NewEvents(s, run[0]), Events(s', rest));
    }
  }

  lemma {:induction false} EventsByConcat<T>(a: seq<Event<T>>, b: seq<Event<T>>, t: nat)
    ensures EventsBy(a + b, t) == EventsBy(a, t) + EventsBy(b, t)
  {
    if |b| == 0 {
      assert a + b == a;
    } else {
      var n := |b| - 1;
      assert (a + b)[..|a| + n] == a + b[..n];
      EventsByConcat(a, b[..n], t);
    }
  }

  /** The run starts no new call of thread `t`. */
  predicate SameCall<T>(run: seq<Action<T>>, t: nat) {
    forall k :: 0 <= k < |run| ==> !(run[k].Begin? && run[k].t == t)
  }

  lemma {:induction false} TailSameCall<T>(run: seq<Action<T>>, t: nat)
    requires |run| > 0 && SameCall(run, t)
    ensures SameCall(run[1..], t) && !(run[0].Begin? && run[0].t == t)
  {
    forall k | 0 <= k < |run[1..]| ensures !(run[1..][k].Begin? && run[1..][k].t == t) {
      assert run[1..][k] == run[k + 1];
    }
  }

  /** Thread `t` is in, or has just finished, a call of `c`. */
  ghost predicate Doing<T>(s: State<T>, t: nat, c: Call<T>) {
    t < |s.threads| && !s.threads[t].Idle? && s.threads[t].call == c
  }

  lemma {:induction false} StaysDoing<T>(s: State<T>, a: Action<T>, t: nat, c: Call<T>)
    requires Enabled(s, a) && !(a.Begin? && a.t == t) && Doing(s, t, c)
    ensures Doing(Apply(s, a), t, c)
  {
  }

  /** A stretch of the history as thread `t` lives through it: its event falls where its call takes effect. */
  ghost predicate Witnessed<T>(before: Client<T>, after: Client<T>, evs: seq<Event<T>>, t: nat, c: Call<T>) {
    && !after.Quiet?
    && (after.Invoked? ==> before.Invoked?)
    && (before.Effected? || before.Responded? ==> !after.Invoked? && after.ret == before.ret)
    && EventsBy(evs, t) == if before.Invoked? && !after.Invoked? then [Event(t, c, after.ret)] else []
  }

  lemma EventsByOne<T>(e: Event<T>, t: nat)
    ensures EventsBy([e], t) == if e.caller == t then [e] else []
  {
    assert EventsBy([e][..0], t) == [];
  }

  /** The event of an atomic step. */
  function SpecEvents<T>(sp: Spec<T>, l: Label<T>): seq<Event<T>>
    requires l.Effect? ==> l.t < |sp.clients| && sp.clients[l.t].Invoked?
  {
    if l.Effect? then [Event(l.t, sp.clients[l.t].call, l.ret)] else []
  }

  /** How one atomic step looks to a client that stays in the same call. */
  lemma SpecStepSeenBy<T>(sp: Spec<T>, l: Label<T>, sp': Spec<T>, t: nat, c: Call<T>)
    requires SpecStep(sp, l, sp') && !(l.Invoke? && l.t == t)
    requires t < |sp.clients| && !sp.clients[t].Quiet? && sp.clients[t].call == c
    ensures t < |sp'.clients| && Witnessed(sp.clients[t], sp'.clients[t], SpecEvents(sp, l), t, c)
  {
    if l.Effect? { EventsByOne(Event(l.t, sp.clients[l.t].call, l.ret), t); }
  }

  lemma {:induction false} NewEventsAreSpec<T>(s: State<T>, a: Action<T>)
    requires Inv(s) && Enabled(s, a)
    ensures var l := LabelOf(s, a);
            && (l.Invoke? ==> a.Begin? && a.t == l.t)
            && (l.Effect? ==> l.t < |s.threads| && ClientOf(s.threads[l.t]).Invoked?)
            && NewEvents(s, a) == SpecEvents(Abs(s), l)
  {
    assert Abs(s).clients[a.t] == ClientOf(s.threads[a.t]);
  }

  /** How one step looks to a thread that stays in the same call. */
  lemma {:induction false} StepSeenBy<T>(s: State<T>, a: Action<T>, t: nat, c: Call<T>)
    requires Inv(s) && Enabled(s, a) && !(a.Begin? && a.t == t) && Doing(s, t, c)
    ensures t < |Apply(s, a).threads|
    ensures Witnessed(ClientOf(s.threads[t]), ClientOf(Apply(s, a).threads[t]), NewEvents(s, a), t, c)
  {
    RefinesStep(s, a);
    NewEventsAreSpec(s, a);
    assert Abs(s).clients[t] == ClientOf(s.threads[t]);
    SpecStepSeenBy(Abs(s), LabelOf(s, a), Abs(Apply(s, a)), t, c);
    assert Abs(Apply(s, a)).clients[t] == ClientOf(Apply(s, a).threads[t]);
  }

  /** A thread still to take effect has the one event of its call ahead of it; any other has none. */
  lemma {:induction false} OneEventAhead<T>(s: State<T>, run: seq<Action<T>>, t: nat, c: Call<T>)
    requires Inv(s) && Runs(s, run) && SameCall(run, t) && Doing(s, t, c)
    ensures Doing(End(s, run), t, c)
    ensures Witnessed(ClientOf(s.threads[t]), ClientOf(End(s, run).threads[t]), Events(s, run), t, c)
    decreases |run|
  {
    if |run| > 0 {
      var s', rest := Apply(s, run[0]), run[1..];
      TailSameCall(run, t);
      StepSeenBy(s, run[0], t, c);
      StaysDoing(s, run[0], t, c);
      InvStep(s, run[0]);
      OneEventAhead(s', rest, t, c);
      EventsByConcat(NewEvents(s, run[0]), Events(s', rest), t);
    }
  }

  /**
   Linearizability: over any stretch of a run in which thread `t` carries out one call from
   start to return, the atomic history holds exactly one event of `t`, for that call and
   with the value the call returned; the whole history is legal for the atomic queue.
   */
  lemma {:induction false} Linearizable<T>(s: State<T>, run: seq<Action<T>>, t: nat, c: Call<T>)
    requires Inv(s) && Runs(s, run) && SameCall(run, t)
    requires t < |s.threads| && s.threads[t] == In(c, Want)
    requires t < |End(s, run).threads| && End(s, run).threads[t].Returned?
    ensures LegalLog(s.queue, Events(s, run)) && End(s, run).queue == Replay(s.queue, Events(s, run))
    ensures EventsBy(Events(s, run), t) == [Event(t, c, End(s, run).threads[t].ret)]
  {
    EventsRun(s, run);
    OneEventAhead(s, run, t, c);
  }
}
