/**
  What a refused operation and a failed compare-and-swap mean, for any number of
  producers and consumers, and why the spin loops end while no push laps a draining pop.
 */
module LockFreeQueueProgress {
  import opened LockFreeQueue
  import opened LockFreeQueueRing
  import opened RingIndex

  /**
    `try_push` gives up at its load of `head` only if the ring holds `capacity - 1`
    tickets at that moment, and gives up whenever it does and `tail` has not moved.
   */
  lemma PushRefusedExactlyWhenFull<V>(s: State<V>, p: nat)
    requires Inv(s) && s.At(p).PushLoadHead?
    ensures var refused := Step(s, Event(p, Advance)).At(p).PushReturn?;
      refused <==> s.tail - s.head == s.capacity - 1 && s.At(p).seenTail == s.tail
  {
    assert PcOk(s, p);
  }

  /** `try_pop` gives up at its load of `tail` exactly when the ring is empty and `head` has not moved. */
  lemma PopRefusedExactlyWhenEmpty<V>(s: State<V>, p: nat)
    requires Inv(s) && s.At(p).PopLoadTail?
    ensures var refused := Step(s, Event(p, Advance)).At(p).PopReturn?;
      refused <==> s.head == s.tail && s.At(p).seenHead == s.head
  {
    assert PcOk(s, p);
  }

  ghost predicate WinsPush<V>(s: State<V>, e: Event<V>)
  {
    e.action.Advance? && s.At(e.tid).PushCas? && s.At(e.tid).seenTail == s.tail
  }

  ghost predicate WinsPop<V>(s: State<V>, e: Event<V>)
  {
    e.action.Advance? && s.At(e.tid).PopCas? && s.At(e.tid).seenHead == s.head
  }

  predicate SawTail<V>(pc: Pc<V>) { pc.PushLoadHead? || pc.PushCas? }

  predicate SawHead<V>(pc: Pc<V>) { pc.PopLoadTail? || pc.PopCas? }

  lemma StepToSawTail<V>(s: State<V>, e: Event<V>, p: nat)
    requires WellFormed(s) && Enabled(s, e) && SawTail(Step(s, e).At(p))
    ensures if SawTail(s.At(p)) then
        s.At(p).seenTail == Step(s, e).At(p).seenTail && (WinsPush(s, e) ==> e.tid != p)
      else
        e == Event(p, Advance) && s.At(p).PushLoadTail? && s.tail == Step(s, e).At(p).seenTail
  {
  }

  lemma StepToSawHead<V>(s: State<V>, e: Event<V>, p: nat)
    requires WellFormed(s) && Enabled(s, e) && SawHead(Step(s, e).At(p))
    ensures if SawHead(s.At(p)) then
        s.At(p).seenHead == Step(s, e).At(p).seenHead && (WinsPop(s, e) ==> e.tid != p)
      else
        e == Event(p, Advance) && s.At(p).PopLoadHead? && s.head == Step(s, e).At(p).seenHead
  {
  }

  /** Step `j` is the last load of `tail` by thread `p`; it has won no push ticket since. */
  lemma {:induction false} LastTailLoad<V>(states: seq<State<V>>, events: seq<Event<V>>, p: nat, i: nat)
    returns (j: nat)
    requires IsRun(states, events) && i < |states| && SawTail(states[i].At(p))
    ensures j < i && events[j] == Event(p, Advance) && states[j].At(p).PushLoadTail?
    ensures states[j].tail == states[i].At(p).seenTail
    ensures forall m :: j <= m < i && WinsPush(states[m], events[m]) ==> events[m].tid != p
  {
    assert i > 0;
    StepToSawTail(states[i - 1], events[i - 1], p);
    if SawTail(states[i - 1].At(p)) {
      j := LastTailLoad(states, events, p, i - 1);
    } else {
      j := i - 1;
    }
  }

  lemma {:induction false} LastHeadLoad<V>(states: seq<State<V>>, events: seq<Event<V>>, p: nat, i: nat)
    returns (j: nat)
    requires IsRun(states, events) && i < |states| && SawHead(states[i].At(p))
    ensures j < i && events[j] == Event(p, Advance) && states[j].At(p).PopLoadHead?
    ensures states[j].head == states[i].At(p).seenHead
    ensures forall m :: j <= m < i && WinsPop(states[m], events[m]) ==> events[m].tid != p
  {
    assert i > 0;
    StepToSawHead(states[i - 1], events[i - 1], p);
    if SawHead(states[i - 1].At(p)) {
      j := LastHeadLoad(states, events, p, i - 1);
    } else {
      j := i - 1;
    }
  }

  lemma {:induction false} TailMovedBy<V>(states: seq<State<V>>, events: seq<Event<V>>, j: nat, i: nat) returns (k: nat)
    requires IsRun(states, events) && j <= i < |states| && states[j].tail != states[i].tail
    ensures j <= k < i && WinsPush(states[k], events[k])
  {
    if states[i - 1].tail == states[i].tail {
      k := TailMovedBy(states, events, j, i - 1);
    } else {
      k := i - 1;
      assert states[i] == Step(states[k], events[k]);
    }
  }

  lemma {:induction false} HeadMovedBy<V>(states: seq<State<V>>, events: seq<Event<V>>, j: nat, i: nat) returns (k: nat)
    requires IsRun(states, events) && j <= i < |states| && states[j].head != states[i].head
    ensures j <= k < i && WinsPop(states[k], events[k])
  {
    if states[i - 1].head == states[i].head {
      k := HeadMovedBy(states, events, j, i - 1);
    } else {
      k := i - 1;
      assert states[i] == Step(states[k], events[k]);
    }
  }

  /**
    Lock freedom of `try_push`: a compare-and-swap fails only if, since its thread
    loaded `tail`, another thread's compare-and-swap on `tail` succeeded.
   */
  lemma PushCasFailureIsProgress<V>(states: seq<State<V>>, events: seq<Event<V>>, p: nat, i: nat)
    returns (j: nat, k: nat)
    requires IsRun(states, events) && i < |events| && events[i] == Event(p, Advance)
    requires states[i].At(p).PushCas? && states[i + 1].At(p).PushLoadTail?
    ensures j <= k < i && events[j] == Event(p, Advance) && states[j].At(p).PushLoadTail?
    ensures events[k].tid != p && WinsPush(states[k], events[k])
  {
    j := LastTailLoad(states, events, p, i);
    k := TailMovedBy(states, events, j, i);
  }

  /** Lock freedom of `try_pop`, likewise on `head`. */
  lemma PopCasFailureIsProgress<V>(states: seq<State<V>>, events: seq<Event<V>>, p: nat, i: nat)
    returns (j: nat, k: nat)
    requires IsRun(states, events) && i < |events| && events[i] == Event(p, Advance)
    requires states[i].At(p).PopCas? && states[i + 1].At(p).PopLoadHead?
    ensures j <= k < i && events[j] == Event(p, Advance) && states[j].At(p).PopLoadHead?
    ensures events[k].tid != p && WinsPop(states[k], events[k])
  {
    j := LastHeadLoad(states, events, p, i);
    k := HeadMovedBy(states, events, j, i);
  }

  /** A producer never waits: the slot of a fresh push ticket is free. */
  lemma ProducerFindsSlotFree<V>(s: State<V>, p: nat)
    requires Inv(s) && RingInv(s) && s.At(p).PushAwaitSlot?
    ensures !s.readable[s.Slot(s.At(p).ticket)]
  {
    assert PcOk(s, p) && RingPc(s, p);
    assert InWindow(s, s.At(p).ticket) && Held(s, s.At(p).ticket);
  }

  /** How many steps a producer with a ticket is from publishing its slot. */
  function StepsToPublish<V>(pc: Pc<V>): nat
    requires pc.Filling()
  {
    match pc
    case PushAwaitSlot(_, _) => 3
    case PushWriteValue(_, _) => 2
    case PushSetReadable(_, _) => 1
  }

  /** `n` steps of thread `p` alone. */
  function Alone<V>(s: State<V>, p: nat, n: nat): State<V>
    requires WellFormed(s)
    decreases n
  {
    if n == 0 || !Enabled(s, Event(p, Advance)) || !WellFormed(Step(s, Event(p, Advance))) then s
    else Alone(Step(s, Event(p, Advance)), p, n - 1)
  }

  lemma {:induction false} ProducerPublishesAlone<V>(s: State<V>, q: nat)
    requires Inv(s) && RingInv(s) && Unlapped(s) && s.At(q).Filling()
    ensures var n := StepsToPublish(s.At(q)); var t := s.At(q).ticket;
      var s' := Alone(s, q, n);
      && s'.capacity == s.capacity && WellFormed(s')
      && s'.readable[s'.Slot(t)]
      && forall p :: p != q ==> s'.At(p) == s.At(p)
    decreases StepsToPublish(s.At(q))
  {
    var e := Event(q, Advance);
    var s' := Step(s, e);
    StepGrows(s, e);
    StepKeepsInv(s, e);
    assert PcOk(s, q) && RingPc(s, q);
    if s.At(q).PushSetReadable? {
      assert Alone(s', q, 0) == s';
    } else {
      if s.At(q).PushAwaitSlot? { ProducerFindsSlotFree(s, q); }
      assert !s'.At(q).Draining();
      StepKeepsRingInv(s, e);
      ProducerPublishesAlone(s', q);
    }
  }

  /**
    No deadlock at the consumer's spin: whenever a pop with ticket `h` finds its slot
    not readable, the producer holding `h` is at most three steps of its own from
    setting the flag, none of which can wait.
   */
  lemma ConsumerWaitsForProducerOnly<V>(s: State<V>, p: nat)
    requires Inv(s) && RingInv(s) && Unlapped(s)
    requires s.At(p).PopAwaitSlot? && !s.readable[s.Slot(s.At(p).ticket)]
    ensures var h := s.At(p).ticket;
      h < |s.issued| &&
      var q := s.issued[h].owner;
      && s.At(q).Filling() && s.At(q).ticket == h
      && var s' := Alone(s, q, StepsToPublish(s.At(q)));
        s'.At(p) == s.At(p) && WellFormed(s') && s'.readable[s'.Slot(h)]
  {
    var h := s.At(p).ticket;
    assert PcOk(s, p) && RingPc(s, p) && InWindow(s, h);
    assert Held(s, h);
    ProducerPublishesAlone(s, s.issued[h].owner);
  }

  /** How many of the events from `i` to `j` are steps of thread `p`. */
  function OwnSteps<V>(events: seq<Event<V>>, p: nat, i: nat, j: nat): nat
    requires i <= j <= |events|
  {
    if i == j then 0 else OwnSteps(events, p, i, j - 1) + if events[j - 1].tid == p then 1 else 0
  }

  /** A producer with a ticket comes one step closer with each step of its own, and the others do not push it back. */
  lemma StepCountsDown<V>(s: State<V>, e: Event<V>, p: nat)
    requires Inv(s) && RingInv(s) && Enabled(s, e) && s.At(p).Filling()
    ensures var pc, pc' := s.At(p), Step(s, e).At(p);
      if e.tid != p then pc' == pc
      else if pc.PushSetReadable? then
        pc' == PushReturn(pc.item, true) && Step(s, e).readable == s.readable[s.Slot(pc.ticket) := true]
      else
        && pc'.Filling() && pc'.ticket == pc.ticket && pc'.item == pc.item
        && StepsToPublish(pc') == StepsToPublish(pc) - 1
  {
    hide Remainder;
    if s.At(p).PushAwaitSlot? { ProducerFindsSlotFree(s, p); }
  }

  /**
    Whatever the others do in between: before a producer with a ticket has made the steps
    it is away from publishing, at most three, it still holds the ticket.
   */
  lemma {:induction false} ProducerCountsDown<V>(states: seq<State<V>>, events: seq<Event<V>>, p: nat, i: nat, j: nat)
    requires IsRun(states, events) && UnlappedRun(states) && i <= j < |states| && states[i].At(p).Filling()
    requires OwnSteps(events, p, i, j) < StepsToPublish(states[i].At(p))
    ensures var pc, pc' := states[i].At(p), states[j].At(p);
      && pc'.Filling() && pc'.ticket == pc.ticket && pc'.item == pc.item
      && StepsToPublish(pc') == StepsToPublish(pc) - OwnSteps(events, p, i, j)
  {
    if i < j {
      ProducerCountsDown(states, events, p, i, j - 1);
      RunKeepsRingInv(states, events, j - 1);
      StepCountsDown(states[j - 1], events[j - 1], p);
    }
  }

  /** At event `k` the producer that held a ticket in state `i` sets the flag of its slot. */
  ghost predicate PublishesAt<V>(states: seq<State<V>>, events: seq<Event<V>>, p: nat, i: nat, k: nat)
    requires i <= k < |events| < |states| && states[i].At(p).Filling()
  {
    var pc, s := states[i].At(p), states[k + 1];
    && events[k].tid == p && WellFormed(s)
    && s.At(p) == PushReturn(pc.item, true) && s.readable[s.Slot(pc.ticket)]
  }

  lemma LastOwnStep<V>(states: seq<State<V>>, events: seq<Event<V>>, p: nat, i: nat, k: nat)
    requires IsRun(states, events) && UnlappedRun(states) && i <= k < |events| && states[i].At(p).Filling()
    requires OwnSteps(events, p, i, k) + 1 == StepsToPublish(states[i].At(p)) && events[k].tid == p
    ensures PublishesAt(states, events, p, i, k)
  {
    ProducerCountsDown(states, events, p, i, k);
    RunKeepsRingInv(states, events, k);
    StepKeepsCounters(states[k], events[k]);
    StepGrows(states[k], events[k]);
    StepCountsDown(states[k], events[k], p);
    hide Step, Inv, RingInv, Enabled, Remainder;
  }

  /** With that many steps of its own it has published: at the last of them, the third at most. */
  lemma {:induction false} ProducerPublishesInThree<V>(states: seq<State<V>>, events: seq<Event<V>>, p: nat,
                                                       i: nat, j: nat)
    returns (k: nat)
    requires IsRun(states, events) && UnlappedRun(states) && i <= j < |states| && states[i].At(p).Filling()
    requires OwnSteps(events, p, i, j) >= StepsToPublish(states[i].At(p))
    ensures i <= k < j && OwnSteps(events, p, i, k + 1) == StepsToPublish(states[i].At(p)) <= 3
    ensures PublishesAt(states, events, p, i, k)
  {
    hide Step, Enabled, WellFormed, Unlapped, PublishesAt;
    if OwnSteps(events, p, i, j - 1) >= StepsToPublish(states[i].At(p)) {
      k := ProducerPublishesInThree(states, events, p, i, j - 1);
    } else {
      k := j - 1;
      LastOwnStep(states, events, p, i, k);
    }
  }
}
