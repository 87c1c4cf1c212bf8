/**
  What the callers of the ring observe when one thread makes all the pops: the values
  returned by `try_pop` and the values whose `try_push` returned true.
 */
module LockFreeQueueFifo {
  import opened LockFreeQueue
  import opened LockFreeQueueRing
  import opened RingIndex

  ghost predicate SingleConsumer<V>(events: seq<Event<V>>, c: nat)
  {
    forall i :: 0 <= i < |events| && events[i].action.CallPop? ==> events[i].tid == c
  }

  predicate InPop<V>(pc: Pc<V>)
  {
    pc.PopLoadHead? || pc.PopLoadTail? || pc.PopCas? || pc.Draining() || pc.PopReturn?
  }

  lemma StepKeepsOthersOutOfPop<V>(s: State<V>, e: Event<V>, c: nat)
    requires WellFormed(s) && Enabled(s, e) && (e.action.CallPop? ==> e.tid == c)
    requires forall p :: InPop(s.At(p)) ==> p == c
    ensures forall p :: InPop(Step(s, e).At(p)) ==> p == c
  {
    var s' := Step(s, e);
    assert InPop(s'.At(e.tid)) ==> InPop(s.At(e.tid)) || e.action.CallPop?;
    forall p | InPop(s'.At(p)) ensures p == c {
      assert p != e.tid ==> s'.At(p) == s.At(p);
    }
  }

  lemma {:induction false} OnlyConsumerPops<V>(states: seq<State<V>>, events: seq<Event<V>>, c: nat, i: nat)
    requires IsRun(states, events) && SingleConsumer(events, c) && i < |states|
    ensures forall p :: InPop(states[i].At(p)) ==> p == c
  {
    if i > 0 {
      OnlyConsumerPops(states, events, c, i - 1);
      StepKeepsOthersOutOfPop(states[i - 1], events[i - 1], c);
    }
  }

  /** A single consumer drains one pop at a time. */
  lemma SingleConsumerIsSerial<V>(states: seq<State<V>>, events: seq<Event<V>>, c: nat)
    requires IsRun(states, events) && SingleConsumer(events, c)
    ensures SerialRun(states)
  {
    forall i | 0 <= i < |states| ensures Serial(states[i]) {
      OnlyConsumerPops(states, events, c, i);
    }
  }

  // What a step returns to the callers, and what a thread still owes its caller.

  ghost function PopOutcome<V>(s: State<V>, e: Event<V>): seq<V>
  {
    var pc := s.At(e.tid);
    if e.action.Return? && pc.PopReturn? && pc.result.Some? then [pc.result.value] else []
  }

  ghost function PushOutcome<V>(s: State<V>, e: Event<V>, q: nat): seq<V>
  {
    var pc := s.At(e.tid);
    if e.tid == q && e.action.Return? && pc.PushReturn? && pc.accepted then [pc.item] else []
  }

  ghost function OwedByPop<V>(s: State<V>, c: nat): seq<V>
  {
    var pc := s.At(c);
    if pc.PopReturn? && pc.result.Some? then [pc.result.value] else []
  }

  ghost function OwedByPush<V>(s: State<V>, q: nat): seq<V>
  {
    var pc := s.At(q);
    if pc.Filling() || (pc.PushReturn? && pc.accepted) then [pc.item] else []
  }

  /** The values returned by `try_pop` during the first `n` events, in order. */
  ghost function PopResults<V>(states: seq<State<V>>, events: seq<Event<V>>, n: nat): seq<V>
    requires n <= |events| <= |states|
  {
    if n == 0 then [] else PopResults(states, events, n - 1) + PopOutcome(states[n - 1], events[n - 1])
  }

  /** The values thread `q` pushed with success during the first `n` events, in call order. */
  ghost function PushResults<V>(states: seq<State<V>>, events: seq<Event<V>>, q: nat, n: nat): seq<V>
    requires n <= |events| <= |states|
  {
    if n == 0 then [] else PushResults(states, events, q, n - 1) + PushOutcome(states[n - 1], events[n - 1], q)
  }

  ghost function Items<V>(issued: seq<Issue<V>>): (items: seq<V>)
    ensures |items| == |issued|
    ensures forall k :: 0 <= k < |issued| ==> items[k] == issued[k].item
  {
    seq(|issued|, k requires 0 <= k < |issued| => issued[k].item)
  }

  /** The values of thread `q`, in ticket order. */
  ghost function ItemsOf<V>(issued: seq<Issue<V>>, q: nat): seq<V>
  {
    if issued == [] then []
    else
      var last := issued[|issued| - 1];
      ItemsOf(issued[..|issued| - 1], q) + if last.owner == q then [last.item] else []
  }

  ghost function TakenItems<V>(taken: seq<Taken<V>>): seq<V>
  {
    seq(|taken|, k requires 0 <= k < |taken| => taken[k].item)
  }

  /** What a step adds to the log of released slots. */
  ghost function NewTaken<V>(s: State<V>, e: Event<V>): seq<Taken<V>>
  {
    var pc := s.At(e.tid);
    if e.action.Advance? && pc.PopClearReadable? then [Taken(e.tid, pc.ticket, pc.found)] else []
  }

  lemma StepPaysPop<V>(s: State<V>, e: Event<V>, c: nat)
    requires WellFormed(s) && Enabled(s, e)
    requires forall p :: InPop(s.At(p)) ==> p == c
    ensures var s', added := Step(s, e), NewTaken(s, e);
      s'.taken == s.taken + added && OwedByPop(s, c) + TakenItems(added) == PopOutcome(s, e) + OwedByPop(s', c)
  {
    hide Remainder;
    var s' := Step(s, e);
    var pc := s.At(e.tid);
    if e.action.Advance? && pc.PopClearReadable? {
      assert TakenItems(NewTaken(s, e)) == [pc.found];
    } else {
      assert e.tid != c ==> s'.At(c) == s.At(c);
    }
  }

  /** A value owed to a caller moves to the results when the call returns. */
  lemma Carry<V>(results: seq<V>, owed: seq<V>, added: seq<V>, outcome: seq<V>, owed': seq<V>)
    requires owed + added == outcome + owed'
    ensures (results + outcome) + owed' == (results + owed) + added
  {
    assert (results + outcome) + owed' == results + (outcome + owed');
    assert (results + owed) + added == results + (owed + added);
  }

  lemma {:induction false} PopsAreTaken<V>(states: seq<State<V>>, events: seq<Event<V>>, c: nat, n: nat)
    requires IsRun(states, events) && SingleConsumer(events, c) && n <= |events|
    ensures PopResults(states, events, n) + OwedByPop(states[n], c) == TakenItems(states[n].taken)
  {
    if n > 0 {
      var s, e := states[n - 1], events[n - 1];
      PopsAreTaken(states, events, c, n - 1);
      OnlyConsumerPops(states, events, c, n - 1);
      StepPaysPop(s, e, c);
      hide Step, Enabled, OwedByPop, PopOutcome, NewTaken, InPop;
      var added := NewTaken(s, e);
      assert TakenItems(s.taken + added) == TakenItems(s.taken) + TakenItems(added);
      Carry(PopResults(states, events, n - 1), OwedByPop(s, c), TakenItems(added), PopOutcome(s, e),
            OwedByPop(Step(s, e), c));
    }
  }

  lemma ItemsOfAppend<V>(issued: seq<Issue<V>>, x: Issue<V>, q: nat)
    ensures ItemsOf(issued + [x], q) == ItemsOf(issued, q) + if x.owner == q then [x.item] else []
  {
    assert (issued + [x])[..|issued|] == issued;
  }

  /** The value for which a step wins a ticket for thread `q`. */
  ghost function NewItems<V>(s: State<V>, e: Event<V>, q: nat): seq<V>
  {
    var pc := s.At(e.tid);
    if e.tid == q && e.action.Advance? && pc.PushCas? && pc.seenTail == s.tail then [pc.item] else []
  }

  lemma StepIssues<V>(s: State<V>, e: Event<V>, q: nat)
    requires WellFormed(s) && Enabled(s, e)
    ensures ItemsOf(Step(s, e).issued, q) == ItemsOf(s.issued, q) + NewItems(s, e, q)
  {
    hide Remainder;
    var pc := s.At(e.tid);
    if e.action.Advance? && pc.PushCas? && pc.seenTail == s.tail {
      ItemsOfAppend(s.issued, Issue(e.tid, pc.item), q);
    } else {
      assert Step(s, e).issued == s.issued;
    }
  }

  lemma StepPaysPush<V>(s: State<V>, e: Event<V>, q: nat)
    requires WellFormed(s) && Enabled(s, e)
    ensures OwedByPush(s, q) + NewItems(s, e, q) == PushOutcome(s, e, q) + OwedByPush(Step(s, e), q)
  {
    hide Remainder;
    assert e.tid != q ==> Step(s, e).At(q) == s.At(q);
  }

  lemma {:induction false} PushesAreIssued<V>(states: seq<State<V>>, events: seq<Event<V>>, q: nat, n: nat)
    requires IsRun(states, events) && n <= |events|
    ensures PushResults(states, events, q, n) + OwedByPush(states[n], q) == ItemsOf(states[n].issued, q)
  {
    if n > 0 {
      var s, e := states[n - 1], events[n - 1];
      PushesAreIssued(states, events, q, n - 1);
      StepIssues(s, e, q);
      StepPaysPush(s, e, q);
      hide Step, Enabled, OwedByPush, PushOutcome, NewItems;
      Carry(PushResults(states, events, q, n - 1), OwedByPush(s, q), NewItems(s, e, q), PushOutcome(s, e, q),
            OwedByPush(Step(s, e), q));
    }
  }

  /**
    The popped values are a prefix of one interleaving of the producers' values, in which
    every producer's values stand in its own call order; at most the value a producer is
    still publishing is ahead of what its calls have returned.
   */
  ghost predicate Fifo<V>(states: seq<State<V>>, events: seq<Event<V>>)
    requires |states| == |events| + 1
  {
    var n := |events|; var issued := states[n].issued;
    && PopResults(states, events, n) <= Items(issued)
    && (forall q :: PushResults(states, events, q, n) <= ItemsOf(issued, q))
    && (forall q :: |ItemsOf(issued, q)| <= |PushResults(states, events, q, n)| + 1)
  }

  /** No value is popped more often than it was pushed. */
  ghost predicate NoneTwice<V>(states: seq<State<V>>, events: seq<Event<V>>)
    requires |states| == |events| + 1
  {
    multiset(PopResults(states, events, |events|)) <= multiset(Items(states[|events|].issued))
  }

  lemma FifoPopsNoneTwice<V>(states: seq<State<V>>, events: seq<Event<V>>)
    requires |states| == |events| + 1 && Fifo(states, events)
    ensures NoneTwice(states, events)
  {
    var popped, items := PopResults(states, events, |events|), Items(states[|events|].issued);
    assert items == popped + items[|popped|..];
  }

  /** First in, first out with one consumer and any number of producers. */
  lemma SingleConsumerFifo<V>(states: seq<State<V>>, events: seq<Event<V>>, c: nat)
    requires IsRun(states, events) && SingleConsumer(events, c)
    ensures Fifo(states, events)
  {
    var n := |events|;
    var s := states[n];
    SingleConsumerIsSerial(states, events, c);
    SerialIsUnlapped(states, events);
    RunKeepsDrainLaw(states, events, n);
    RunKeepsRingInv(states, events, n);
    PopsAreTaken(states, events, c, n);
    assert TakenItems(s.taken) <= Items(s.issued);
    forall q ensures PushResults(states, events, q, n) <= ItemsOf(s.issued, q)
      && |ItemsOf(s.issued, q)| <= |PushResults(states, events, q, n)| + 1
    {
      PushesAreIssued(states, events, q, n);
    }
  }

  /** At rest and empty, every ticket's value has been taken. */
  lemma AllTaken<V>(s: State<V>)
    requires Inv(s) && RingInv(s) && DrainLaw(s) && s.head == s.tail && forall p :: s.At(p).Idle?
    ensures TakenItems(s.taken) == Items(s.issued)
  {
    assert |s.taken| == s.head;
  }

  lemma NothingOwed<V>(results: seq<V>, owed: seq<V>, all: seq<V>)
    requires results + owed == all && owed == []
    ensures results == all
  {
  }

  /**
    Nothing is lost or duplicated: once every call has returned and the ring is empty,
    the popped values are exactly the pushed ones.
   */
  lemma SingleConsumerLosesNothing<V>(states: seq<State<V>>, events: seq<Event<V>>, c: nat)
    requires IsRun(states, events) && SingleConsumer(events, c)
    requires var s := states[|events|]; s.head == s.tail && forall p :: s.At(p).Idle?
    ensures var n := |events|; var issued := states[n].issued;
      && PopResults(states, events, n) == Items(issued)
      && forall q :: PushResults(states, events, q, n) == ItemsOf(issued, q)
  {
    hide Inv, RingInv, DrainLaw, Step, Enabled, Serial, Unlapped, ItemsOf, PopResults, PushResults;
    var n := |events|;
    var s := states[n];
    SingleConsumerIsSerial(states, events, c);
    SerialIsUnlapped(states, events);
    RunKeepsDrainLaw(states, events, n);
    RunKeepsRingInv(states, events, n);
    AllTaken(s);
    PopsAreTaken(states, events, c, n);
    NothingOwed(PopResults(states, events, n), OwedByPop(s, c), TakenItems(s.taken));
    forall q ensures PushResults(states, events, q, n) == ItemsOf(s.issued, q) {
      PushesAreIssued(states, events, q, n);
      NothingOwed(PushResults(states, events, q, n), OwedByPush(s, q), ItemsOf(s.issued, q));
    }
  }
}
