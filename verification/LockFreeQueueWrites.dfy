/**
  What the two spins of the ring guarantee, for any number of producers, consumers and
  laps: a producer writes only after it saw its slot's flag clear, a consumer reads only
  after it saw it set; and exactly when no value is overwritten before it is released.
 */
module LockFreeQueueWrites {
  import opened Basics
  import opened RingIndex
  import opened LockFreeQueue
  import opened LockFreeQueueRing
  import opened LockFreeQueueFifo
  import opened LockFreeQueueTwoConsumers
  import opened LockFreeQueueExactly

  // ---------------------------------------------------------------------------
  // The spins, along every run
  // ---------------------------------------------------------------------------

  /** Past the producer's spin, up to the flag write. */
  predicate Writing<V>(pc: Pc<V>) { pc.PushWriteValue? || pc.PushSetReadable? }

  /** Past the consumer's spin, up to the flag write. */
  predicate Reading<V>(pc: Pc<V>) { pc.PopReadValue? || pc.PopClearReadable? }

  lemma StepToWriting<V>(s: State<V>, e: Event<V>, p: nat)
    requires WellFormed(s) && Enabled(s, e) && Writing(Step(s, e).At(p))
    ensures var pc, pc' := s.At(p), Step(s, e).At(p);
      if Writing(pc) then pc.ticket == pc'.ticket && pc.item == pc'.item && (e.tid == p ==> pc.PushWriteValue?)
      else e == Event(p, Advance) && pc == PushAwaitSlot(pc'.item, pc'.ticket) && !s.readable[s.Slot(pc'.ticket)]
  {
  }

  lemma StepToReading<V>(s: State<V>, e: Event<V>, p: nat)
    requires WellFormed(s) && Enabled(s, e) && Reading(Step(s, e).At(p))
    ensures var pc, pc' := s.At(p), Step(s, e).At(p);
      if Reading(pc) then pc.ticket == pc'.ticket && (e.tid == p ==> pc.PopReadValue?)
      else e == Event(p, Advance) && pc == PopAwaitSlot(pc'.ticket) && s.readable[s.Slot(pc'.ticket)]
  {
  }

  /**
    A thread that writes its slot saw the flag clear: event `j` is its own last test of the
    flag for that ticket, and it has done nothing since but write the value.
   */
  lemma {:induction false} WriterSawFlagClear<V>(states: seq<State<V>>, events: seq<Event<V>>, p: nat, i: nat)
    returns (j: nat)
    requires IsRun(states, events) && i < |states| && Writing(states[i].At(p))
    ensures j < i
    ensures var pc, s := states[i].At(p), states[j];
      && events[j] == Event(p, Advance) && s.At(p) == PushAwaitSlot(pc.item, pc.ticket)
      && WellFormed(s) && !s.readable[s.Slot(pc.ticket)]
    ensures forall m :: j < m < i && events[m].tid == p ==> states[m].At(p).PushWriteValue?
  {
    hide Remainder, Step, Enabled, WellFormed;
    assert i > 0;
    StepToWriting(states[i - 1], events[i - 1], p);
    if Writing(states[i - 1].At(p)) {
      j := WriterSawFlagClear(states, events, p, i - 1);
    } else {
      j := i - 1;
    }
  }

  /** A thread that reads its slot saw the flag set, likewise. */
  lemma {:induction false} ReaderSawFlagSet<V>(states: seq<State<V>>, events: seq<Event<V>>, p: nat, i: nat)
    returns (j: nat)
    requires IsRun(states, events) && i < |states| && Reading(states[i].At(p))
    ensures j < i
    ensures var pc, s := states[i].At(p), states[j];
      && events[j] == Event(p, Advance) && s.At(p) == PopAwaitSlot(pc.ticket)
      && WellFormed(s) && s.readable[s.Slot(pc.ticket)]
    ensures forall m :: j < m < i && events[m].tid == p ==> states[m].At(p).PopReadValue?
  {
    hide Remainder, Step, Enabled, WellFormed;
    assert i > 0;
    StepToReading(states[i - 1], events[i - 1], p);
    if Reading(states[i - 1].At(p)) {
      j := ReaderSawFlagSet(states, events, p, i - 1);
    } else {
      j := i - 1;
    }
  }

  // ---------------------------------------------------------------------------
  // No overwriting while one thread at a time writes a slot
  // ---------------------------------------------------------------------------

  /** No two threads are past the producer's spin for one slot. */
  ghost predicate OneWriter<V>(s: State<V>)
  {
    WellFormed(s) && forall p, q :: Writing(s.At(p)) && Writing(s.At(q)) && p != q ==>
      s.Slot(s.At(p).ticket) != s.Slot(s.At(q).ticket)
  }

  ghost predicate OneWriterRun<V>(states: seq<State<V>>)
  {
    forall i :: 0 <= i < |states| ==> OneWriter(states[i])
  }

  /** The slot a thread writes is not published, and holds the value once it is written. */
  ghost predicate WriterOk<V>(s: State<V>, p: nat)
    requires WellFormed(s)
  {
    var pc := s.At(p);
    && (Writing(pc) ==> !s.readable[s.Slot(pc.ticket)])
    && (pc.PushSetReadable? ==> s.value[s.Slot(pc.ticket)] == pc.item)
  }

  lemma StepKeepsWriterOk<V>(s: State<V>, e: Event<V>, p: nat)
    requires Inv(s) && OneWriter(s) && Enabled(s, e) && WellFormed(Step(s, e)) && WriterOk(s, p)
    ensures WriterOk(Step(s, e), p)
  {
    var s', pc := Step(s, e), s.At(p);
    StepWrites(s, e);
    StepGrows(s, e);
    if Writing(s'.At(p)) {
      StepToWriting(s, e, p);
      if e.tid == p {
        WritesOwnSlot(s, p, e);
      } else {
        hide Step, Enabled, Remainder;
      }
    }
  }

  lemma WritesOwnSlot<V>(s: State<V>, p: nat, e: Event<V>)
    requires Inv(s) && Enabled(s, e) && e.tid == p && WellFormed(Step(s, e)) && WriterOk(s, p)
    ensures WriterOk(Step(s, e), p)
  {
    hide Remainder;
    assert PcOk(s, p);
  }

  lemma {:induction false} RunKeepsWriterOk<V>(states: seq<State<V>>, events: seq<Event<V>>, i: nat)
    requires IsRun(states, events) && i < |states| && OneWriterRun(states)
    ensures WellFormed(states[i]) && forall p :: WriterOk(states[i], p)
  {
    if i > 0 {
      var s, e := states[i - 1], events[i - 1];
      RunKeepsWriterOk(states, events, i - 1);
      RunKeepsInv(states, events, i - 1);
      StepKeepsInv(s, e);
      forall p ensures WriterOk(states[i], p) {
        assert WriterOk(s, p);
        StepKeepsWriterOk(s, e, p);
      }
    }
  }

  /** The event writes a value into a slot. */
  predicate WritesValue<V>(s: State<V>, e: Event<V>) { e.action.Advance? && s.At(e.tid).PushWriteValue? }

  /** The event publishes the value `v` in slot `k`. */
  ghost predicate Publishes<V>(s: State<V>, e: Event<V>, k: nat, v: V)
    requires s.capacity > 0
  {
    var pc := s.At(e.tid);
    e.action.Advance? && pc.PushSetReadable? && s.Slot(pc.ticket) == k && pc.item == v
  }

  /** The event releases slot `k`. */
  predicate Releases<V>(s: State<V>, e: Event<V>, k: nat)
    requires s.capacity > 0
  {
    e.action.Advance? && s.At(e.tid).PopClearReadable? && s.Slot(s.At(e.tid).ticket) == k
  }

  /** Every value is written into a slot whose flag is clear, however late a pop drains. */
  lemma WritesGoToFreeSlots<V>(states: seq<State<V>>, events: seq<Event<V>>, i: nat)
    requires IsRun(states, events) && OneWriterRun(states) && i < |events| && WritesValue(states[i], events[i])
    ensures var s := states[i]; WellFormed(s) && !s.readable[s.Slot(s.At(events[i].tid).ticket)]
  {
    RunKeepsWriterOk(states, events, i);
    assert WriterOk(states[i], events[i].tid);
  }

  lemma StepKeepsPublished<V>(s: State<V>, e: Event<V>, k: nat)
    requires Inv(s) && Enabled(s, e) && WellFormed(Step(s, e)) && WriterOk(s, e.tid)
    requires k < s.capacity && s.readable[k] && !Releases(s, e, k)
    ensures Step(s, e).readable[k] && Step(s, e).value[k] == s.value[k]
  {
    StepWrites(s, e);
    hide Step, Enabled, Remainder;
  }

  /** A published value stays in its slot, flag set, until a pop releases the slot. */
  lemma {:induction false} PublishedStays<V>(states: seq<State<V>>, events: seq<Event<V>>, j: nat, i: nat, k: nat, v: V)
    requires IsRun(states, events) && OneWriterRun(states) && j < i < |states| && states[j].capacity > 0
    requires Publishes(states[j], events[j], k, v)
    requires forall m :: j < m < i ==> states[m].capacity > 0 && !Releases(states[m], events[m], k)
    ensures var s := states[i]; WellFormed(s) && k < s.capacity && s.readable[k] && s.value[k] == v
  {
    var s, e := states[i - 1], events[i - 1];
    RunKeepsWriterOk(states, events, i - 1);
    RunKeepsInv(states, events, i - 1);
    StepKeepsInv(s, e);
    assert WriterOk(s, e.tid);
    if i == j + 1 {
      StepWrites(s, e);
    } else {
      hide Step, Enabled, Publishes;
      PublishedStays(states, events, j, i - 1, k, v);
      TailGrows(states, events, i - 1, i);
      StepKeepsPublished(s, e, k);
    }
  }

  // When it does.

  /** All pushes accepted so far were made by these threads. */
  ghost predicate AcceptedFrom<V>(s: State<V>, producers: iset<nat>)
  {
    forall k :: 0 <= k < |s.issued| ==> s.issued[k].owner in producers
  }

  lemma {:induction false} IssuedGrows<V>(states: seq<State<V>>, events: seq<Event<V>>, i: nat, j: nat)
    requires IsRun(states, events) && i <= j < |states|
    ensures states[i].issued <= states[j].issued
  {
    if i < j {
      IssuedGrows(states, events, i, j - 1);
      RunKeepsInv(states, events, j - 1);
      StepGrows(states[j - 1], events[j - 1]);
    }
  }

  lemma OneOwnerIsOneWriter<V>(s: State<V>, producers: iset<nat>)
    requires Inv(s) && AcceptedFrom(s, producers) && AtMostOne(producers)
    ensures OneWriter(s)
  {
    forall p, q | Writing(s.At(p)) && Writing(s.At(q)) ensures p == q {
      assert PcOk(s, p) && PcOk(s, q);
    }
  }

  /** With one producer, whatever the consumers do. */
  lemma OneProducerIsOneWriter<V>(states: seq<State<V>>, events: seq<Event<V>>, producers: iset<nat>)
    requires IsRun(states, events) && AcceptedFrom(states[|events|], producers) && AtMostOne(producers)
    ensures OneWriterRun(states)
  {
    hide Inv, OneWriter, AtMostOne, Step, Enabled;
    forall i | 0 <= i < |states| ensures OneWriter(states[i]) {
      RunKeepsInv(states, events, i);
      IssuedGrows(states, events, i, |events|);
      OneOwnerIsOneWriter(states[i], producers);
    }
  }

  /** While no push laps a draining pop, whatever the producers do. */
  lemma UnlappedIsOneWriter<V>(states: seq<State<V>>, events: seq<Event<V>>)
    requires IsRun(states, events) && UnlappedRun(states)
    ensures OneWriterRun(states)
  {
    forall i | 0 <= i < |states| ensures OneWriter(states[i]) {
      RunKeepsRingInv(states, events, i);
      forall p, q | Writing(states[i].At(p)) && Writing(states[i].At(q)) && p != q
        ensures states[i].Slot(states[i].At(p).ticket) != states[i].Slot(states[i].At(q).ticket)
      {
        OneThreadPerSlot(states[i], p, q);
      }
    }
  }

  /** No thread is about to overwrite a value that is published and not released. */
  ghost predicate WritesAreFree<V>(s: State<V>)
  {
    WellFormed(s) && forall p :: s.At(p).PushWriteValue? ==> !s.readable[s.Slot(s.At(p).ticket)]
  }

  /** In every run of a ring of this capacity with accepted pushes and pops of these threads. */
  ghost predicate NeverOverwrites<V(!new)>(capacity: nat, producers: iset<nat>, consumers: iset<nat>)
  {
    forall states: seq<State<V>>, events: seq<Event<V>> ::
      IsRun(states, events) && states[0].capacity == capacity
        && AcceptedFrom(states[|events|], producers) && PopsFrom(events, consumers)
      ==> WritesAreFree(states[|events|])
  }

  lemma OneOnASideIsFree<V(!new)>(capacity: nat, producers: iset<nat>, consumers: iset<nat>)
    requires capacity == 1 || AtMostOne(producers) || AtMostOne(consumers)
    ensures NeverOverwrites<V>(capacity, producers, consumers)
  {
    forall states: seq<State<V>>, events: seq<Event<V>>
      | IsRun(states, events) && states[0].capacity == capacity
        && AcceptedFrom(states[|events|], producers) && PopsFrom(events, consumers)
      ensures WritesAreFree(states[|events|])
    {
      hide AcceptedFrom, PopsFrom, AtMostOne, OneWriter, UnlappedRun, SerialRun, SingleConsumer, Step, Enabled, Stuck;
      if AtMostOne(producers) {
        OneProducerIsOneWriter(states, events, producers);
      } else {
        FewConsumersAreUnlapped(states, events, consumers);
        UnlappedIsOneWriter(states, events);
      }
      RunKeepsWriterOk(states, events, |events|);
      forall p | states[|events|].At(p).PushWriteValue?
        ensures !states[|events|].readable[states[|events|].Slot(states[|events|].At(p).ticket)]
      {
        assert WriterOk(states[|events|], p);
      }
    }
  }

  lemma FewConsumersAreUnlapped<V>(states: seq<State<V>>, events: seq<Event<V>>, consumers: iset<nat>)
    requires IsRun(states, events) && (states[0].capacity == 1 || AtMostOne(consumers)) && PopsFrom(events, consumers)
    ensures UnlappedRun(states)
  {
    hide Step, Enabled, Serial, Unlapped;
    if states[0].capacity == 1 {
      RunIsStuck(states, events, |events|);
      FirstLapIsUnlapped(states, events);
    } else {
      var c := OneOfThem(consumers);
      SingleConsumerIsSerial(states, events, c);
      SerialIsUnlapped(states, events);
    }
  }

  /** Both producers pass their spins for one slot; the slow one publishes before the other writes. */
  lemma Overwrite<V>(x: Execution<V>, slow: nat, fast: nat, first: V, late: V, a: nat, b: nat)
    returns (events: seq<Event<V>>, y: Execution<V>)
    requires var s := x.state;
      && WellFormed(s) && slow != fast && !s.readable[0]
      && s.At(slow) == PushAwaitSlot(first, 0) && s.At(fast) == PushAwaitSlot(late, s.capacity)
    ensures Run(x, events) == Some(y) && OnlyPops(events, a, b)
    ensures y.state.issued == x.state.issued && !WritesAreFree(y.state)
  {
    var s := x.state;
    SameSlot(s);
    hide Remainder, Run;
    var go, come := Event(slow, Advance), Event(fast, Advance);
    var s1 := s.Moved(slow, PushWriteValue(first, 0));
    var s2 := s1.Moved(fast, PushWriteValue(late, s.capacity));
    var s3 := s2.Moved(slow, PushSetReadable(first, 0)).(value := s.value[0 := first]);
    var s4 := s3.Moved(slow, PushReturn(first, true)).(readable := s.readable[0 := true]);
    assert Step(s, go) == s1 && Step(s1, come) == s2 && Step(s2, go) == s3 && Step(s3, go) == s4;
    events := FourSteps(x, s1, s2, s3, s4, go, come, go, go);
    y := x.(state := s4);
    assert s4.At(fast) == PushWriteValue(late, s.capacity) && s4.readable[s4.Slot(s.capacity)];
  }

  /**
    With any two producers and any two consumers, for every capacity from 2 on: a run after
    which a value that was published and not released is about to be overwritten.
   */
  lemma TwoOnEachSideOverwrite<V>(s: State<V>, slow: nat, fast: nat, waiting: nat, busy: nat, first: V, late: V)
    returns (states: seq<State<V>>, events: seq<Event<V>>)
    requires IsInit(s) && s.capacity >= 2
    requires slow != fast && slow != waiting && slow != busy && fast != waiting && fast != busy && waiting != busy
    ensures IsRun(states, events) && states[0] == s && OnlyPops(events, waiting, busy)
    ensures AcceptedFrom(states[|events|], iset{slow, fast}) && !WritesAreFree(states[|events|])
  {
    hide Step, Enabled, Run, Remainder, WritesAreFree;
    var x := Execution(s, [], []);
    events := Stall(x, slow, waiting, first, busy);
    var y := x.(called := x.called + [first], state := s.(
      head := 1, tail := 1, issued := [Issue(slow, first)], claimed := [waiting],
      threads := s.threads[slow := PushAwaitSlot(first, 0)][waiting := PopAwaitSlot(0)]));
    var more, z := PassMany(y, fast, busy, first, waiting, s.capacity - 1);
    events, y := Then(x, events, y, more, waiting, busy);
    more := ClaimPush(y, fast, late);
    assert y.state.At(slow) == PushAwaitSlot(first, 0) && !y.state.readable[0] && y.state.tail == s.capacity;
    events, y := Then(x, events, y, more, waiting, busy);
    more, z := Overwrite(y, slow, fast, first, late, waiting, busy);
    events, y := Then(x, events, y, more, waiting, busy);
    states := RunHasStates(s, events);
  }

  /**
    For producers and consumers that are different threads: no published value is ever
    overwritten before it is released exactly when there is at most one thread on one of
    the two sides, or the capacity is 1 and nothing can be pushed.
   */
  lemma NeverOverwritesExactlyWhen<V(!new)>(capacity: nat, producers: iset<nat>, consumers: iset<nat>, zero: V)
    requires capacity >= 1 && producers !! consumers
    ensures NeverOverwrites<V>(capacity, producers, consumers)
      <==> capacity == 1 || AtMostOne(producers) || AtMostOne(consumers)
  {
    hide WritesAreFree, Step, Enabled;
    if capacity == 1 || AtMostOne(producers) || AtMostOne(consumers) {
      OneOnASideIsFree<V>(capacity, producers, consumers);
    } else {
      var slow, fast :| slow in producers && fast in producers && slow != fast;
      var waiting, busy :| waiting in consumers && busy in consumers && waiting != busy;
      var s := Init(capacity, zero);
      var states, events := TwoOnEachSideOverwrite(s, slow, fast, waiting, busy, zero, zero);
      assert AcceptedFrom(states[|events|], producers) && PopsFrom(events, consumers);
    }
  }
}
