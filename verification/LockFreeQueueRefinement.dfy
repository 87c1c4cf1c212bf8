/**
  While no push laps a draining pop the ring refines the bounded queue of
  `capacity - 1` items: a push takes effect at its compare-and-swap or at the load of
  `head` that finds the ring full, a pop at its compare-and-swap or at the load of
  `tail` that finds the ring empty.
 */
module LockFreeQueueRefinement {
  import opened Basics
  import opened LockFreeQueue
  import opened LockFreeQueueRing
  import BQ = BoundedQueue

  ghost function CallOf<V>(s: State<V>, pc: Pc<V>): BQ.Call<V>
  {
    if pc.Draining() then
      if pc.ticket < |s.issued| then BQ.Popped(Some(s.issued[pc.ticket].item)) else BQ.Popping
    else match pc
    case PushLoadTail(item) => BQ.Pushing(item)
    case PushLoadHead(item, _) => BQ.Pushing(item)
    case PushCas(item, _, _) => BQ.Pushing(item)
    case PushAwaitSlot(item, _) => BQ.Pushed(item, true)
    case PushWriteValue(item, _) => BQ.Pushed(item, true)
    case PushSetReadable(item, _) => BQ.Pushed(item, true)
    case PushReturn(item, accepted) => BQ.Pushed(item, accepted)
    case PopReturn(result) => BQ.Popped(result)
    case _ => BQ.Popping
  }

  /** The queue a ring state stands for: the push tickets no pop has claimed. */
  ghost function Abstract<V>(s: State<V>): BQ.Queue<V>
    requires Inv(s)
  {
    BQ.Queue(s.capacity - 1, WaitingItems(s), Calls(s))
  }

  ghost function WaitingItems<V>(s: State<V>): (items: seq<V>)
    requires Inv(s)
    ensures |items| == s.tail - s.head
    ensures forall k :: 0 <= k < |items| ==> items[k] == s.issued[s.head + k].item
  {
    seq(s.tail - s.head, i requires 0 <= i < s.tail - s.head => s.issued[s.head + i].item)
  }

  ghost function Calls<V>(s: State<V>): map<nat, BQ.Call<V>>
  {
    map p | p in s.threads && !s.threads[p].Idle? :: CallOf(s, s.threads[p])
  }

  /** A move of one thread changes its own call as its new position says, and no other. */
  lemma CallsAfter<V>(s: State<V>, s': State<V>, p: nat, pc: Pc<V>)
    requires Inv(s) && Grows(s, s', p) && s'.threads == s.threads[p := pc]
    ensures Calls(s') == if pc.Idle? then Calls(s) - {p} else Calls(s)[p := CallOf(s', pc)]
  {
    forall q | q in s.threads && q != p ensures CallOf(s', s.threads[q]) == CallOf(s, s.threads[q]) {
      assert s.At(q) == s.threads[q] && PcOk(s, q);
    }
  }

  ghost predicate ClaimsPush<V>(s: State<V>, p: nat) { s.At(p).PushCas? && s.At(p).seenTail == s.tail }

  ghost predicate ClaimsPop<V>(s: State<V>, p: nat) { s.At(p).PopCas? && s.At(p).seenHead == s.head }

  lemma ItemsAfter<V>(s: State<V>, e: Event<V>)
    requires Inv(s) && Enabled(s, e) && Inv(Step(s, e))
    ensures var before, after := WaitingItems(s), WaitingItems(Step(s, e));
      if e.action.Advance? && ClaimsPush(s, e.tid) then after == before + [s.At(e.tid).item]
      else if e.action.Advance? && ClaimsPop(s, e.tid) then before != [] && after == before[1..]
      else after == before
  {
    StepGrows(s, e);
    assert PcOk(s, e.tid);
  }

  /** The steps that claim a ticket perform the call. */
  lemma ClaimRefines<V>(s: State<V>, p: nat)
    requires Inv(s) && Enabled(s, Event(p, Advance)) && (ClaimsPush(s, p) || ClaimsPop(s, p))
    requires Inv(Step(s, Event(p, Advance)))
    ensures BQ.Pending(Abstract(s), p)
    ensures Abstract(Step(s, Event(p, Advance))) == BQ.Perform(Abstract(s), p)
  {
    var e := Event(p, Advance);
    var s' := Step(s, e);
    StepGrows(s, e);
    CallsAfter(s, s', p, s'.At(p));
    ItemsAfter(s, e);
    assert PcOk(s, p);
    assert p in Calls(s);
  }

  /** The load that finds the ring full, or empty, performs the call. */
  lemma RefusalRefines<V>(s: State<V>, p: nat)
    requires Inv(s) && Enabled(s, Event(p, Advance)) && Inv(Step(s, Event(p, Advance)))
    requires (s.At(p).PushLoadHead? && Step(s, Event(p, Advance)).At(p).PushReturn?)
      || (s.At(p).PopLoadTail? && Step(s, Event(p, Advance)).At(p).PopReturn?)
    ensures BQ.Pending(Abstract(s), p)
    ensures Abstract(Step(s, Event(p, Advance))) == BQ.Perform(Abstract(s), p)
  {
    var e := Event(p, Advance);
    var s' := Step(s, e);
    StepGrows(s, e);
    CallsAfter(s, s', p, s'.At(p));
    ItemsAfter(s, e);
    assert PcOk(s, p);
    assert p in Calls(s);
  }

  /** Every other step inside a call leaves the queue as it is. */
  lemma StutterRefines<V>(s: State<V>, p: nat)
    requires Inv(s) && RingInv(s) && Enabled(s, Event(p, Advance)) && Inv(Step(s, Event(p, Advance)))
    requires !ClaimsPush(s, p) && !ClaimsPop(s, p)
    requires s.At(p).PushLoadHead? ==> !Step(s, Event(p, Advance)).At(p).PushReturn?
    requires s.At(p).PopLoadTail? ==> !Step(s, Event(p, Advance)).At(p).PopReturn?
    ensures Abstract(Step(s, Event(p, Advance))) == Abstract(s) && p in Abstract(s).calls
  {
    var e := Event(p, Advance);
    var s' := Step(s, e);
    assert p in Calls(s) && Calls(s)[p] == CallOf(s, s.At(p));
    if s' != s {
      StepGrows(s, e);
      CallsAfter(s, s', p, s'.At(p));
      ItemsAfter(s, e);
      SameCall(s, p);
    }
  }

  lemma SameCall<V>(s: State<V>, p: nat)
    requires Inv(s) && RingInv(s) && Enabled(s, Event(p, Advance)) && Inv(Step(s, Event(p, Advance)))
    requires !ClaimsPush(s, p) && !ClaimsPop(s, p)
    requires s.At(p).PushLoadHead? ==> !Step(s, Event(p, Advance)).At(p).PushReturn?
    requires s.At(p).PopLoadTail? ==> !Step(s, Event(p, Advance)).At(p).PopReturn?
    ensures var s' := Step(s, Event(p, Advance)); !s'.At(p).Idle? && CallOf(s', s'.At(p)) == CallOf(s, s.At(p))
  {
    assert PcOk(s, p) && RingPc(s, p);
  }

  lemma StepRefines<V>(s: State<V>, e: Event<V>)
    requires Inv(s) && RingInv(s) && Enabled(s, e) && Inv(Step(s, e))
    ensures BQ.Next(Abstract(s), e, Abstract(Step(s, e)))
  {
    var p, s' := e.tid, Step(s, e);
    if e.action.Advance? {
      if ClaimsPush(s, p) || ClaimsPop(s, p) {
        ClaimRefines(s, p);
      } else if (s.At(p).PushLoadHead? && s'.At(p).PushReturn?) || (s.At(p).PopLoadTail? && s'.At(p).PopReturn?) {
        RefusalRefines(s, p);
      } else {
        StutterRefines(s, p);
      }
    } else {
      StepGrows(s, e);
      ItemsAfter(s, e);
      CallsAfter(s, s', p, s'.At(p));
      assert s.At(p).Idle? <==> p !in Calls(s);
    }
  }

  lemma RunStepRefines<V>(states: seq<State<V>>, events: seq<Event<V>>, i: nat)
    requires IsRun(states, events) && UnlappedRun(states) && i < |events|
    ensures Inv(states[i]) && Inv(states[i + 1])
    ensures BQ.Next(Abstract(states[i]), events[i], Abstract(states[i + 1]))
  {
    RunKeepsRingInv(states, events, i);
    RunKeepsRingInv(states, events, i + 1);
    StepRefines(states[i], events[i]);
  }

  /** The result a thread is about to return. */
  function Result<V>(pc: Pc<V>): BQ.Call<V>
    requires pc.PushReturn? || pc.PopReturn?
  {
    if pc.PushReturn? then BQ.Pushed(pc.item, pc.accepted) else BQ.Popped(pc.result)
  }

  /** Along a run of the ring, the queue's run returns the same results. */
  ghost predicate SameResults<V>(states: seq<State<V>>, events: seq<Event<V>>, queues: seq<BQ.Queue<V>>)
    requires IsRun(states, events) && BQ.IsRun(queues, events)
  {
    forall i :: 0 <= i < |events| && events[i].action.Return? ==>
      var p := events[i].tid;
      p in queues[i].calls && queues[i].calls[p] == Result(states[i].At(p))
  }

  /**
    Linearizability: every run of the ring in which no push laps a draining pop is a run of
    the bounded queue of `capacity - 1` places, with the same calls and the same results.
   */
  lemma RunRefines<V>(states: seq<State<V>>, events: seq<Event<V>>) returns (queues: seq<BQ.Queue<V>>)
    requires IsRun(states, events) && UnlappedRun(states)
    ensures BQ.IsRun(queues, events) && queues[0].bound == states[0].capacity - 1
    ensures SameResults(states, events, queues)
  {
    forall i | 0 <= i < |states| ensures Inv(states[i]) {
      RunKeepsRingInv(states, events, i);
    }
    queues := seq(|states|, i requires 0 <= i < |states| && Inv(states[i]) => Abstract(states[i]));
    forall i | 0 <= i < |events| ensures BQ.Next(queues[i], events[i], queues[i + 1]) {
      RunStepRefines(states, events, i);
    }
    assert Calls(states[0]) == map[];
  }
}
