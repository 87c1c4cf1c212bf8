/**
  Exactly when the ring keeps its promises: first-in first-out order, no value twice, and
  linearizability, for a set of consumers, a capacity and a number of pushes.
 */
module LockFreeQueueExactly {
  import opened Basics
  import opened LockFreeQueue
  import opened LockFreeQueueRing
  import opened LockFreeQueueRefinement
  import opened LockFreeQueueFifo
  import opened LockFreeQueueTwoConsumers
  import BQ = BoundedQueue

  // ---------------------------------------------------------------------------
  // Capacity 1
  // ---------------------------------------------------------------------------

  /** The spare slot is the only one: no push is ever accepted. */
  ghost predicate Stuck<V>(s: State<V>)
  {
    && s.capacity == 1 && s.tail == 0
    && forall p :: !s.At(p).Filling() && !s.At(p).Draining() && !(s.At(p).PopReturn? && s.At(p).result.Some?)
  }

  lemma StepKeepsStuck<V>(s: State<V>, e: Event<V>)
    requires Inv(s) && Stuck(s) && Enabled(s, e)
    ensures Stuck(Step(s, e)) && PopOutcome(s, e) == []
  {
    var s' := Step(s, e);
    assert PcOk(s, e.tid);
    forall p ensures !s'.At(p).Filling() && !s'.At(p).Draining() && !(s'.At(p).PopReturn? && s'.At(p).result.Some?) {
      if p != e.tid { assert s'.At(p) == s.At(p); }
    }
  }

  lemma {:induction false} RunIsStuck<V>(states: seq<State<V>>, events: seq<Event<V>>, i: nat)
    requires IsRun(states, events) && i < |states| && states[0].capacity == 1
    ensures Stuck(states[i]) && PopResults(states, events, i) == []
  {
    if i > 0 {
      RunIsStuck(states, events, i - 1);
      RunKeepsInv(states, events, i - 1);
      StepKeepsStuck(states[i - 1], events[i - 1]);
    }
  }

  // ---------------------------------------------------------------------------
  // Order
  // ---------------------------------------------------------------------------

  ghost predicate PopsFrom<V>(events: seq<Event<V>>, consumers: iset<nat>)
  {
    forall e :: e in events && e.action.CallPop? ==> e.tid in consumers
  }

  /** In every run of a ring of this capacity with these consumers, the values come out in order. */
  ghost predicate AlwaysFifo<V(!new)>(capacity: nat, consumers: iset<nat>)
  {
    forall states: seq<State<V>>, events: seq<Event<V>> ::
      IsRun(states, events) && states[0].capacity == capacity && PopsFrom(events, consumers) ==> Fifo(states, events)
  }

  /** In every such run, no value is popped more often than it was pushed. */
  ghost predicate NeverTwice<V(!new)>(capacity: nat, consumers: iset<nat>)
  {
    forall states: seq<State<V>>, events: seq<Event<V>> ::
      IsRun(states, events) && states[0].capacity == capacity && PopsFrom(events, consumers) ==>
        NoneTwice(states, events)
  }

  ghost predicate AtMostOne(consumers: iset<nat>)
  {
    forall c, d :: c in consumers && d in consumers ==> c == d
  }

  lemma OneOfThem(consumers: iset<nat>) returns (c: nat)
    requires AtMostOne(consumers)
    ensures forall d :: d in consumers ==> d == c
  {
    c := if c: nat :| c in consumers then c else 0;
  }

  /** A run in which no pop returns anything is in order. */
  lemma NoPopsAreFifo<V>(states: seq<State<V>>, events: seq<Event<V>>)
    requires IsRun(states, events) && PopResults(states, events, |events|) == []
    ensures Fifo(states, events)
  {
    hide PopResults, PushResults, ItemsOf;
    forall q ensures PushResults(states, events, q, |events|) <= ItemsOf(states[|events|].issued, q)
      && |ItemsOf(states[|events|].issued, q)| <= |PushResults(states, events, q, |events|)| + 1
    {
      PushesAreIssued(states, events, q, |events|);
    }
  }

  lemma OneConsumerIsFifo<V(!new)>(capacity: nat, consumers: iset<nat>)
    requires capacity == 1 || AtMostOne(consumers)
    ensures AlwaysFifo<V>(capacity, consumers) && NeverTwice<V>(capacity, consumers)
  {
    hide Fifo, NoneTwice;
    forall states: seq<State<V>>, events: seq<Event<V>>
      | IsRun(states, events) && states[0].capacity == capacity && PopsFrom(events, consumers)
      ensures Fifo(states, events) && NoneTwice(states, events)
    {
      if capacity == 1 {
        RunIsStuck(states, events, |events|);
        NoPopsAreFifo(states, events);
      } else {
        var c := OneOfThem(consumers);
        SingleConsumerFifo(states, events, c);
      }
      FifoPopsNoneTwice(states, events);
    }
  }

  lemma TwoConsumersAreNot<V(!new)>(capacity: nat, consumers: iset<nat>, first: V, other: V)
    requires capacity >= 2 && first != other && !AtMostOne(consumers)
    ensures !AlwaysFifo<V>(capacity, consumers) && !NeverTwice<V>(capacity, consumers)
  {
    hide Step, Enabled, PopResults, Fifo, NoneTwice, Called;
    var a, b :| a in consumers && b in consumers && a != b;
    var s := Init(capacity, first);
    var states, events := TwoConsumersPopTwice(s, a + b + 1, a, b, first, other);
    assert PopsFrom(events, consumers);
    PoppedTwice(states, events, a + b + 1, capacity - 1, first, other);
  }

  /**
    Order, and even popping nothing twice, is kept in all runs exactly when at most one
    thread pops, or the capacity is 1 and nothing can be pushed.
   */
  lemma FifoExactlyForOneConsumer<V(!new)>(capacity: nat, consumers: iset<nat>, first: V, other: V)
    requires capacity >= 1 && first != other
    ensures AlwaysFifo<V>(capacity, consumers) <==> capacity == 1 || AtMostOne(consumers)
    ensures NeverTwice<V>(capacity, consumers) <==> capacity == 1 || AtMostOne(consumers)
  {
    hide AlwaysFifo, NeverTwice, AtMostOne;
    if capacity == 1 || AtMostOne(consumers) {
      OneConsumerIsFifo<V>(capacity, consumers);
    } else {
      TwoConsumersAreNot(capacity, consumers, first, other);
    }
  }

  // ---------------------------------------------------------------------------
  // Linearizability
  // ---------------------------------------------------------------------------

  /** Some run of the bounded queue has the same calls and returns the same results. */
  ghost predicate Linearizable<V(!new)>(states: seq<State<V>>, events: seq<Event<V>>)
    requires IsRun(states, events)
  {
    exists queues: seq<BQ.Queue<V>> :: BQ.IsRun(queues, events) && queues[0].bound == states[0].capacity - 1
      && SameResults(states, events, queues)
  }

  /** The calls that may still return `v`: pushes that have not taken effect and pops that have. */
  ghost function Owing<V>(q: BQ.Queue<V>, v: V): set<nat>
  {
    set p | p in q.calls && (q.calls[p] == BQ.Pushing(v) || q.calls[p] == BQ.Popped(Some(v)))
  }

  ghost function Weight<V>(q: BQ.Queue<V>, v: V): nat { multiset(q.items)[v] + |Owing(q, v)| }

  lemma OwingAfter<V>(q: BQ.Queue<V>, q': BQ.Queue<V>, p: nat, v: V)
    requires q.calls - {p} == q'.calls - {p}
    ensures |Owing(q', v)| + (if p in Owing(q, v) then 1 else 0) == |Owing(q, v)| + if p in Owing(q', v) then 1 else 0
  {
    forall r | r != p ensures r in Owing(q, v) <==> r in Owing(q', v) {
      assert r in q.calls <==> r in q.calls - {p};
      assert r in q'.calls <==> r in q'.calls - {p};
      if r in q.calls { assert q.calls[r] == (q.calls - {p})[r] == (q'.calls - {p})[r]; }
    }
    assert Owing(q, v) - {p} == Owing(q', v) - {p};
    CardinalityWithout(Owing(q, v), p);
    CardinalityWithout(Owing(q', v), p);
  }

  lemma CardinalityWithout(a: set<nat>, p: nat)
    ensures |a - {p}| + (if p in a then 1 else 0) == |a|
  {
    if p in a { assert a == (a - {p}) + {p}; } else { assert a == a - {p}; }
  }

  lemma PerformWeighs<V>(q: BQ.Queue<V>, p: nat, v: V)
    requires BQ.Pending(q, p)
    ensures Weight(BQ.Perform(q, p), v) <= Weight(q, v)
  {
    var q' := BQ.Perform(q, p);
    assert q.calls - {p} == q'.calls - {p};
    OwingAfter(q, q', p, v);
    if q.items != [] { assert q.items == [q.items[0]] + q.items[1..]; }
    assert p in Owing(q, v) <==> q.calls[p] == BQ.Pushing(v);
    assert p in Owing(q', v) <==> q'.calls[p] == BQ.Popped(Some(v));
  }

  ghost function Returned<V>(q: BQ.Queue<V>, e: Event<V>, v: V): nat
  {
    if e.action.Return? && e.tid in q.calls && q.calls[e.tid] == BQ.Popped(Some(v)) then 1 else 0
  }

  lemma ReturnedIsPopped<V>(s: State<V>, e: Event<V>, q: BQ.Queue<V>, v: V)
    requires Enabled(s, e)
    requires e.action.Return? ==> e.tid in q.calls && q.calls[e.tid] == Result(s.At(e.tid))
    ensures multiset(PopOutcome(s, e))[v] == Returned(q, e, v)
  {
  }

  /** A step of the bounded queue returns no value that was not there before or pushed in it. */
  lemma StepWeighs<V>(q: BQ.Queue<V>, e: Event<V>, q': BQ.Queue<V>, v: V)
    requires BQ.Next(q, e, q')
    ensures Weight(q', v) + Returned(q, e, v) <= Weight(q, v) + multiset(Asked(e))[v]
  {
    hide BQ.Perform;
    if e.action.Advance? {
      if q' != q { PerformWeighs(q, e.tid, v); }
    } else {
      assert q.calls - {e.tid} == q'.calls - {e.tid};
      OwingAfter(q, q', e.tid, v);
      assert e.tid in Owing(q', v) <==> e.action == CallPush(v);
    }
  }

  lemma NothingWeighs<V>(q: BQ.Queue<V>, v: V)
    requires q.items == [] && q.calls == map[]
    ensures Weight(q, v) == 0
  {
    assert Owing(q, v) == {};
  }

  lemma {:induction false} PopsWereCalled<V>(states: seq<State<V>>, events: seq<Event<V>>, queues: seq<BQ.Queue<V>>,
                                            v: V, n: nat)
    requires IsRun(states, events) && BQ.IsRun(queues, events) && SameResults(states, events, queues) && n <= |events|
    ensures multiset(PopResults(states, events, n))[v] + Weight(queues[n], v) <= multiset(Called(events[..n]))[v]
  {
    hide Step, Enabled, PopOutcome, Asked, Weight, Returned, BQ.Next, WellFormed;
    if n == 0 {
      NothingWeighs(queues[0], v);
    } else {
      PopsWereCalled(states, events, queues, v, n - 1);
      StepWeighs(queues[n - 1], events[n - 1], queues[n], v);
      ReturnedIsPopped(states[n - 1], events[n - 1], queues[n - 1], v);
      assert events[..n][..n - 1] == events[..n - 1];
    }
  }

  /** A linearizable run returns no value more often than pushes were called with it. */
  lemma LinearizablePopsWereCalled<V(!new)>(states: seq<State<V>>, events: seq<Event<V>>, v: V)
    requires IsRun(states, events) && Linearizable(states, events)
    ensures multiset(PopResults(states, events, |events|))[v] <= multiset(Called(events))[v]
  {
    var queues: seq<BQ.Queue<V>> :| BQ.IsRun(queues, events) && queues[0].bound == states[0].capacity - 1
      && SameResults(states, events, queues);
    PopsWereCalled(states, events, queues, v, |events|);
    assert events[..|events|] == events;
  }

  /** All runs of a ring of this capacity with these consumers that accept at most `pushes` pushes. */
  ghost predicate AlwaysLinearizable<V(!new)>(capacity: nat, consumers: iset<nat>, pushes: nat)
  {
    forall states: seq<State<V>>, events: seq<Event<V>> ::
      IsRun(states, events) && states[0].capacity == capacity && PopsFrom(events, consumers)
        && states[|events|].tail <= pushes
      ==> Linearizable(states, events)
  }

  lemma UnlappedIsLinearizable<V(!new)>(capacity: nat, consumers: iset<nat>, pushes: nat)
    requires capacity == 1 || AtMostOne(consumers) || pushes <= capacity
    ensures AlwaysLinearizable<V>(capacity, consumers, pushes)
  {
    forall states: seq<State<V>>, events: seq<Event<V>>
      | IsRun(states, events) && states[0].capacity == capacity && PopsFrom(events, consumers)
        && states[|events|].tail <= pushes
      ensures Linearizable(states, events)
    {
      if capacity == 1 { RunIsStuck(states, events, |events|); }
      if states[|events|].tail <= capacity {
        FirstLapIsUnlapped(states, events);
      } else {
        var c := OneOfThem(consumers);
        SingleConsumerIsSerial(states, events, c);
        SerialIsUnlapped(states, events);
      }
      var queues := RunRefines(states, events);
    }
  }

  lemma SecondLapIsNotLinearizable<V(!new)>(capacity: nat, consumers: iset<nat>, pushes: nat, first: V, other: V)
    requires 2 <= capacity < pushes && first != other && !AtMostOne(consumers)
    ensures !AlwaysLinearizable<V>(capacity, consumers, pushes)
  {
    hide Step, Enabled, PopResults, Linearizable, Called;
    var a, b :| a in consumers && b in consumers && a != b;
    var s := Init(capacity, first);
    var states, events := TwoConsumersPopTwice(s, a + b + 1, a, b, first, other);
    RunKeepsInv(states, events, |events|);
    assert PopsFrom(events, consumers) && states[|events|].tail == capacity + 1;
    var others := seq(capacity - 1, _ => other);
    assert first !in others;
    assert multiset(others)[first] == 0;
    assert multiset(others + [first, first])[first] == 2;
    assert multiset([first] + others + [other])[first] == 1;
    if Linearizable(states, events) { LinearizablePopsWereCalled(states, events, first); }
  }

  /**
    Every run is linearizable exactly when at most one thread pops, or no push is accepted
    beyond the first lap, or the capacity is 1 and none is accepted at all.
   */
  lemma LinearizableExactlyWhen<V(!new)>(capacity: nat, consumers: iset<nat>, pushes: nat, first: V, other: V)
    requires capacity >= 1 && first != other
    ensures AlwaysLinearizable<V>(capacity, consumers, pushes)
      <==> capacity == 1 || AtMostOne(consumers) || pushes <= capacity
  {
    hide AlwaysLinearizable, AtMostOne;
    if capacity == 1 || AtMostOne(consumers) || pushes <= capacity {
      UnlappedIsLinearizable<V>(capacity, consumers, pushes);
    } else {
      SecondLapIsNotLinearizable(capacity, consumers, pushes, first, other);
    }
  }
}
