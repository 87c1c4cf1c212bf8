/**
  The bounded ring `LFQ` as an interleaving transition system.

  Every shared access of `try_push` and `try_pop` is one step: the two loads, the
  compare-and-swap, one test of the spin condition, the value access and the flag
  access.  Work on local variables belongs to the access before it.  Any number of
  threads, named by natural numbers, may be inside the two operations.
 */
module LockFreeQueue {
  import opened Basics
  import opened RingIndex

  /** Where a thread stands inside `try_push` or `try_pop`, with its local variables. */
  datatype Pc<V> =
    | Idle
    | PushLoadTail(item: V)
    | PushLoadHead(item: V, seenTail: nat)
    | PushCas(item: V, seenTail: nat, seenHead: nat)
    | PushAwaitSlot(item: V, ticket: nat)
    | PushWriteValue(item: V, ticket: nat)
    | PushSetReadable(item: V, ticket: nat)
    | PushReturn(item: V, accepted: bool)
    | PopLoadHead
    | PopLoadTail(seenHead: nat)
    | PopCas(seenHead: nat, seenTail: nat)
    | PopAwaitSlot(ticket: nat)
    | PopReadValue(ticket: nat)
    | PopClearReadable(ticket: nat, found: V)
    | PopReturn(result: Option<V>)
  {
    /** The thread owns a push ticket whose slot it has not published yet. */
    predicate Filling() { PushAwaitSlot? || PushWriteValue? || PushSetReadable? }

    /** The thread owns a pop ticket whose slot it has not released yet. */
    predicate Draining() { PopAwaitSlot? || PopReadValue? || PopClearReadable? }
  }

  /** A push ticket: the thread that won it and the value it carries. */
  datatype Issue<V> = Issue(owner: nat, item: V)

  /** A pop that released its slot. */
  datatype Taken<V> = Taken(owner: nat, ticket: nat, item: V)

  /**
    The shared fields, the threads, and three logs the program does not keep:
    the winner of each push ticket, the winner of each pop ticket, and the pops that
    released their slot, in order of release.
   */
  datatype State<V> = State(
    capacity: nat,
    head: nat,
    tail: nat,
    readable: seq<bool>,
    value: seq<V>,
    threads: map<nat, Pc<V>>,
    issued: seq<Issue<V>>,
    claimed: seq<nat>,
    taken: seq<Taken<V>>)
  {
    function At(p: nat): Pc<V> { if p in threads then threads[p] else Idle }

    function Slot(ticket: nat): nat
      requires capacity > 0
    {
      Remainder(ticket, capacity)
    }

    function Moved(p: nat, pc: Pc<V>): State<V> { this.(threads := threads[p := pc]) }
  }

  datatype Action<V> = CallPush(item: V) | CallPop | Advance | Return
  datatype Event<V> = Event(tid: nat, action: Action<V>)

  function Init<V>(capacity: nat, zero: V): State<V>
  {
    State(capacity, 0, 0, seq(capacity, _ => false), seq(capacity, _ => zero), map[], [], [], [])
  }

  ghost predicate IsInit<V>(s: State<V>)
  {
    && s.capacity >= 1
    && |s.value| == s.capacity
    && s == Init(s.capacity, s.value[0])
  }

  predicate Enabled<V>(s: State<V>, e: Event<V>)
  {
    var pc := s.At(e.tid);
    match e.action
    case CallPush(_) => pc.Idle?
    case CallPop => pc.Idle?
    case Advance => !pc.Idle? && !pc.PushReturn? && !pc.PopReturn?
    case Return => pc.PushReturn? || pc.PopReturn?
  }

  predicate WellFormed<V>(s: State<V>)
  {
    s.capacity >= 1 && |s.readable| == s.capacity && |s.value| == s.capacity
  }

  function Step<V>(s: State<V>, e: Event<V>): State<V>
    requires WellFormed(s) && Enabled(s, e)
  {
    match e.action
    case CallPush(item) => s.Moved(e.tid, PushLoadTail(item))
    case CallPop => s.Moved(e.tid, PopLoadHead)
    case Return => s.Moved(e.tid, Idle)
    case Advance => StepInside(s, e.tid)
  }

  function StepInside<V>(s: State<V>, p: nat): State<V>
    requires WellFormed(s) && Enabled(s, Event(p, Advance))
  {
    match s.At(p)
    case PushLoadTail(item) => s.Moved(p, PushLoadHead(item, s.tail))
    case PushLoadHead(item, t) =>
      if t + 1 - s.head >= s.capacity then s.Moved(p, PushReturn(item, false))
      else s.Moved(p, PushCas(item, t, s.head))
    case PushCas(item, t, h) =>
      if s.tail == t then
        s.Moved(p, PushAwaitSlot(item, t)).(tail := t + 1, issued := s.issued + [Issue(p, item)])
      else s.Moved(p, PushLoadTail(item))
    case PushAwaitSlot(item, t) =>
      if s.readable[s.Slot(t)] then s else s.Moved(p, PushWriteValue(item, t))
    case PushWriteValue(item, t) =>
      s.Moved(p, PushSetReadable(item, t)).(value := s.value[s.Slot(t) := item])
    case PushSetReadable(item, t) =>
      s.Moved(p, PushReturn(item, true)).(readable := s.readable[s.Slot(t) := true])
    case PopLoadHead => s.Moved(p, PopLoadTail(s.head))
    case PopLoadTail(h) =>
      if h == s.tail then s.Moved(p, PopReturn(None)) else s.Moved(p, PopCas(h, s.tail))
    case PopCas(h, t) =>
      if s.head == h then
        s.Moved(p, PopAwaitSlot(h)).(head := h + 1, claimed := s.claimed + [p])
      else s.Moved(p, PopLoadHead)
    case PopAwaitSlot(h) =>
      if !s.readable[s.Slot(h)] then s else s.Moved(p, PopReadValue(h))
    case PopReadValue(h) => s.Moved(p, PopClearReadable(h, s.value[s.Slot(h)]))
    case PopClearReadable(h, found) =>
      s.Moved(p, PopReturn(Some(found))).(
        readable := s.readable[s.Slot(h) := false], taken := s.taken + [Taken(p, h, found)])
  }

  /** A run: the states passed through and the events between them. */
  ghost predicate IsRun<V>(states: seq<State<V>>, events: seq<Event<V>>)
  {
    && |states| == |events| + 1
    && IsInit(states[0])
    && forall i :: 0 <= i < |events| ==>
      WellFormed(states[i]) && Enabled(states[i], events[i]) && states[i + 1] == Step(states[i], events[i])
  }

  // ---------------------------------------------------------------------------
  // Any number of producers and consumers
  // ---------------------------------------------------------------------------

  /** What a thread's local variables know, whoever else is running. */
  ghost predicate PcOk<V>(s: State<V>, p: nat)
  {
    match s.At(p)
    case PushLoadHead(_, t) => t <= s.tail
    case PushCas(_, t, h) => t <= s.tail && h <= s.head && t + 1 - h < s.capacity
    case PushAwaitSlot(item, t) => t < |s.issued| && s.issued[t] == Issue(p, item)
    case PushWriteValue(item, t) => t < |s.issued| && s.issued[t] == Issue(p, item)
    case PushSetReadable(item, t) => t < |s.issued| && s.issued[t] == Issue(p, item)
    case PopLoadTail(h) => h <= s.head
    case PopCas(h, t) => h <= s.head && h < t <= s.tail
    case PopAwaitSlot(h) => h < |s.claimed| && s.claimed[h] == p
    case PopReadValue(h) => h < |s.claimed| && s.claimed[h] == p
    case PopClearReadable(h, _) => h < |s.claimed| && s.claimed[h] == p
    case _ => true
  }

  ghost predicate Inv<V>(s: State<V>)
  {
    && WellFormed(s)
    && |s.issued| == s.tail
    && |s.claimed| == s.head
    && s.head <= s.tail <= s.head + s.capacity - 1
    && forall p :: PcOk(s, p)
  }

  /** What one step never does: touch another thread, rewrite a log, move a ticket counter back. */
  ghost predicate Grows<V>(s: State<V>, s': State<V>, mover: nat)
  {
    && s'.capacity == s.capacity
    && s.tail <= s'.tail
    && s.head <= s'.head
    && s.issued <= s'.issued
    && s.claimed <= s'.claimed
    && forall p {:trigger s.At(p)} {:trigger s'.At(p)} :: p != mover ==> s'.At(p) == s.At(p)
  }

  lemma StepGrows<V>(s: State<V>, e: Event<V>)
    requires Inv(s) && Enabled(s, e)
    ensures Grows(s, Step(s, e), e.tid)
  {
    assert PcOk(s, e.tid);
  }

  lemma OthersKeepPcOk<V>(s: State<V>, s': State<V>, mover: nat, p: nat)
    requires Grows(s, s', mover) && p != mover && PcOk(s, p)
    ensures PcOk(s', p)
  {
  }

  lemma MoverKeepsPcOk<V>(s: State<V>, e: Event<V>)
    requires Inv(s) && Enabled(s, e)
    ensures PcOk(Step(s, e), e.tid)
  {
    assert PcOk(s, e.tid);
  }

  lemma StepKeepsInv<V>(s: State<V>, e: Event<V>)
    requires Inv(s) && Enabled(s, e)
    ensures Inv(Step(s, e))
  {
    var s' := Step(s, e);
    StepGrows(s, e);
    StepKeepsCounters(s, e);
    forall p ensures PcOk(s', p) {
      if p == e.tid { MoverKeepsPcOk(s, e); } else { assert PcOk(s, p); OthersKeepPcOk(s, s', e.tid, p); }
    }
  }

  lemma StepKeepsCounters<V>(s: State<V>, e: Event<V>)
    requires Inv(s) && Enabled(s, e)
    ensures var s' := Step(s, e);
      && WellFormed(s')
      && |s'.issued| == s'.tail
      && |s'.claimed| == s'.head
      && s'.head <= s'.tail <= s'.head + s'.capacity - 1
  {
    assert PcOk(s, e.tid);
  }

  lemma {:induction false} RunKeepsInv<V>(states: seq<State<V>>, events: seq<Event<V>>, i: nat)
    requires IsRun(states, events) && i < |states|
    ensures Inv(states[i])
  {
    if i > 0 {
      RunKeepsInv(states, events, i - 1);
      StepKeepsInv(states[i - 1], events[i - 1]);
    }
  }
}
