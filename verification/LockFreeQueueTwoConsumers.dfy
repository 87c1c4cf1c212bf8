/**
  Why the order theorems ask for one consumer: the flag of a slot does not tell the lap.
  With any two consumers, for every capacity from 2 on, a run pops one value twice, and
  another makes the pop of the first ticket return the value of the push one lap later.
 */
module LockFreeQueueTwoConsumers {
  import opened Basics
  import opened RingIndex
  import opened LockFreeQueue
  import opened LockFreeQueueFifo

  /** A state reached, and the values the pushes were called with and the pops returned on the way. */
  datatype Execution<V> = Execution(state: State<V>, called: seq<V>, popped: seq<V>)

  ghost function Asked<V>(e: Event<V>): seq<V> { if e.action.CallPush? then [e.action.item] else [] }

  /** The values `try_push` was called with, in order. */
  ghost function Called<V>(events: seq<Event<V>>): seq<V>
  {
    if events == [] then [] else Called(events[..|events| - 1]) + Asked(events[|events| - 1])
  }

  ghost predicate Possible<V>(x: Execution<V>, e: Event<V>) { WellFormed(x.state) && Enabled(x.state, e) }

  ghost function After<V>(x: Execution<V>, e: Event<V>): Execution<V>
    requires Possible(x, e)
  {
    Execution(Step(x.state, e), x.called + Asked(e), x.popped + PopOutcome(x.state, e))
  }

  /** The execution after `events`, or None if one of them is not enabled. */
  ghost function Run<V>(x: Execution<V>, events: seq<Event<V>>): Option<Execution<V>>
  {
    if events == [] then Some(x)
    else
      var n := |events| - 1;
      match Run(x, events[..n])
      case None => None
      case Some(y) => if Possible(y, events[n]) then Some(After(y, events[n])) else None
  }

  lemma RunOne<V>(x: Execution<V>, events: seq<Event<V>>, y: Execution<V>, e: Event<V>) returns (more: seq<Event<V>>)
    requires Run(x, events) == Some(y) && Possible(y, e)
    ensures more == events + [e] && Run(x, more) == Some(After(y, e))
  {
    more := events + [e];
    assert more[..|events|] == events;
  }

  lemma {:induction false} RunMore<V>(x: Execution<V>, first: seq<Event<V>>, y: Execution<V>, more: seq<Event<V>>)
    requires Run(x, first) == Some(y) && Run(y, more).Some?
    ensures Run(x, first + more) == Run(y, more)
  {
    hide Step, Enabled, PopOutcome;
    if more == [] {
      assert first + more == first;
    } else {
      var n := |more| - 1;
      RunMore(x, first, y, more[..n]);
      assert first + more == (first + more[..n]) + [more[n]];
      var all := RunOne(x, first + more[..n], Run(y, more[..n]).value, more[n]);
    }
  }

  lemma {:induction false} SameResultsBefore<V>(states: seq<State<V>>, events: seq<Event<V>>,
                                               states': seq<State<V>>, events': seq<Event<V>>, n: nat)
    requires n <= |events| <= |states| && states <= states' && events <= events' && |events'| <= |states'|
    ensures PopResults(states, events, n) == PopResults(states', events', n)
  {
    if n > 0 { SameResultsBefore(states, events, states', events', n - 1); }
  }

  /** An execution is a run in the sense of IsRun, with the pop results it says. */
  lemma {:induction false} RunHasStates<V>(s: State<V>, events: seq<Event<V>>) returns (states: seq<State<V>>)
    requires IsInit(s) && Run(Execution(s, [], []), events).Some?
    ensures IsRun(states, events) && states[0] == s
    ensures Run(Execution(s, [], []), events).value
      == Execution(states[|events|], Called(events), PopResults(states, events, |events|))
  {
    hide Step, Enabled, PopOutcome, WellFormed, IsInit;
    if events == [] {
      states := [s];
    } else {
      var n := |events| - 1;
      var before := RunHasStates(s, events[..n]);
      states := before + [Run(Execution(s, [], []), events).value.state];
      SameResultsBefore(before, events[..n], states, events, n);
    }
  }

  /** Steps other than the call of a push and the return of a successful pop leave both logs alone. */
  lemma Quiet<V>(x: Execution<V>, e: Event<V>, t: State<V>)
    requires Possible(x, e) && (e.action.Return? ==> !x.state.At(e.tid).PopReturn?) && Step(x.state, e) == t
    ensures After(x, e) == x.(state := t, called := x.called + Asked(e))
    ensures !e.action.CallPush? ==> After(x, e) == x.(state := t)
  {
    assert x.popped + [] == x.popped && x.called + [] == x.called;
  }

  /** Thread `p` wins the next push ticket. */
  lemma ClaimPush<V>(x: Execution<V>, p: nat, item: V) returns (events: seq<Event<V>>)
    requires var s := x.state;
      WellFormed(s) && s.At(p).Idle? && s.head <= s.tail && s.tail + 1 - s.head < s.capacity
    ensures var s := x.state;
      Run(x, events) == Some(x.(called := x.called + [item], state := s.Moved(p, PushAwaitSlot(item, s.tail)).(
        tail := s.tail + 1, issued := s.issued + [Issue(p, item)])))
    ensures forall e :: e in events ==> !e.action.CallPop?
  {
    hide Remainder, Run;
    var s, call, go := x.state, Event(p, CallPush(item)), Event(p, Advance);
    var s1, s2 := s.Moved(p, PushLoadTail(item)), s.Moved(p, PushLoadHead(item, s.tail));
    var s3 := s.Moved(p, PushCas(item, s.tail, s.head));
    var s4 := s.Moved(p, PushAwaitSlot(item, s.tail)).(tail := s.tail + 1, issued := s.issued + [Issue(p, item)]);
    assert Step(s1, go) == s2 && Step(s2, go) == s3 && Step(s3, go) == s4;
    events := FourSteps(x, s1, s2, s3, s4, call, go, go, go);
  }

  /** Thread `p` fills the free slot of its ticket and returns. */
  lemma FinishPush<V>(x: Execution<V>, p: nat) returns (events: seq<Event<V>>)
    requires var s := x.state; WellFormed(s) && s.At(p).PushAwaitSlot? && !s.readable[s.Slot(s.At(p).ticket)]
    ensures var s := x.state; var i := s.Slot(s.At(p).ticket);
      Run(x, events) == Some(x.(state := s.Moved(p, Idle).(
        value := s.value[i := s.At(p).item], readable := s.readable[i := true])))
    ensures forall e :: e in events ==> !e.action.CallPop?
  {
    hide Remainder, Run;
    var s, go, item, t := x.state, Event(p, Advance), x.state.At(p).item, x.state.At(p).ticket;
    var i := s.Slot(t);
    var s1 := s.Moved(p, PushWriteValue(item, t));
    var s2 := s.Moved(p, PushSetReadable(item, t)).(value := s.value[i := item]);
    var s3 := s.Moved(p, PushReturn(item, true)).(value := s.value[i := item], readable := s.readable[i := true]);
    var s4 := s.Moved(p, Idle).(value := s.value[i := item], readable := s.readable[i := true]);
    assert Step(s1, go) == s2 && Step(s2, go) == s3 && Step(s3, Event(p, Return)) == s4;
    events := FourSteps(x, s1, s2, s3, s4, go, go, go, Event(p, Return));
  }

  /** Thread `p` wins the next pop ticket. */
  lemma ClaimPop<V>(x: Execution<V>, p: nat) returns (events: seq<Event<V>>)
    requires var s := x.state; WellFormed(s) && s.At(p).Idle? && s.head < s.tail
    ensures var s := x.state;
      Run(x, events) == Some(x.(state := s.Moved(p, PopAwaitSlot(s.head)).(
        head := s.head + 1, claimed := s.claimed + [p])))
    ensures forall e :: e in events ==> e.tid == p
  {
    hide Remainder, Run;
    var s, go := x.state, Event(p, Advance);
    var s1, s2 := s.Moved(p, PopLoadHead), s.Moved(p, PopLoadTail(s.head));
    var s3 := s.Moved(p, PopCas(s.head, s.tail));
    var s4 := s.Moved(p, PopAwaitSlot(s.head)).(head := s.head + 1, claimed := s.claimed + [p]);
    assert Step(s1, go) == s2 && Step(s2, go) == s3 && Step(s3, go) == s4;
    events := FourSteps(x, s1, s2, s3, s4, Event(p, CallPop), go, go, go);
  }

  /** Thread `p` passes its spin and reads the value, but has not cleared the flag. */
  lemma ReadSlot<V>(x: Execution<V>, p: nat) returns (events: seq<Event<V>>)
    requires var s := x.state; WellFormed(s) && s.At(p).PopAwaitSlot? && s.readable[s.Slot(s.At(p).ticket)]
    ensures var s := x.state; var t := s.At(p).ticket;
      Run(x, events) == Some(x.(state := s.Moved(p, PopClearReadable(t, s.value[s.Slot(t)]))))
    ensures forall e :: e in events ==> !e.action.CallPop?
  {
    hide Remainder, Run;
    var s, go, t := x.state, Event(p, Advance), x.state.At(p).ticket;
    var s1, s2 := s.Moved(p, PopReadValue(t)), s.Moved(p, PopClearReadable(t, s.value[s.Slot(t)]));
    assert Step(s, go) == s1 && Step(s1, go) == s2;
    Quiet(x, go, s1);
    events := RunFirst(x, go);
    Quiet(x.(state := s1), go, s2);
    events := RunOne(x, events, x.(state := s1), go);
  }

  ghost predicate EndsWith<T>(s: seq<T>, last: T)
  {
    |s| > 0 && s[|s| - 1] == last
  }

  /** Thread `p` clears the flag and returns. */
  lemma ReleaseSlot<V>(x: Execution<V>, p: nat) returns (events: seq<Event<V>>)
    requires WellFormed(x.state) && x.state.At(p).PopClearReadable?
    ensures var s, t, v := x.state, x.state.At(p).ticket, x.state.At(p).found;
      Run(x, events) == Some(x.(popped := x.popped + [v], state := s.Moved(p, Idle).(
        readable := s.readable[s.Slot(t) := false], taken := s.taken + [Taken(p, t, v)])))
    ensures forall e :: e in events ==> !e.action.CallPop?
    ensures EndsWith(events, Event(p, Return))
  {
    hide Remainder, Run;
    var s, go, t, v := x.state, Event(p, Advance), x.state.At(p).ticket, x.state.At(p).found;
    var s1 := s.Moved(p, PopReturn(Some(v))).(
      readable := s.readable[s.Slot(t) := false], taken := s.taken + [Taken(p, t, v)]);
    var s2 := s.Moved(p, Idle).(readable := s.readable[s.Slot(t) := false], taken := s.taken + [Taken(p, t, v)]);
    assert Step(s, go) == s1 && Step(s1, Event(p, Return)) == s2;
    Quiet(x, go, s1);
    events := RunFirst(x, go);
    events := RunOne(x, events, x.(state := s1), Event(p, Return));
  }

  lemma RunFirst<V>(x: Execution<V>, e: Event<V>) returns (events: seq<Event<V>>)
    requires Possible(x, e)
    ensures events == [e] && Run(x, events) == Some(After(x, e))
  {
    events := RunOne(x, [], x, e);
  }

  ghost predicate Leads<V>(s: State<V>, e: Event<V>, t: State<V>)
  {
    WellFormed(s) && Enabled(s, e) && Step(s, e) == t && (e.action.Return? ==> !s.At(e.tid).PopReturn?)
  }

  lemma FourSteps<V>(x: Execution<V>, s1: State<V>, s2: State<V>, s3: State<V>, s4: State<V>,
                     e1: Event<V>, e2: Event<V>, e3: Event<V>, e4: Event<V>)
    returns (events: seq<Event<V>>)
    requires Leads(x.state, e1, s1) && Leads(s1, e2, s2) && Leads(s2, e3, s3) && Leads(s3, e4, s4)
    requires !e2.action.CallPush? && !e3.action.CallPush? && !e4.action.CallPush?
    ensures events == [e1, e2, e3, e4] && Run(x, events) == Some(x.(state := s4, called := x.called + Asked(e1)))
    ensures !e1.action.CallPush? ==> Run(x, events) == Some(x.(state := s4))
  {
    hide Step, Enabled, Run, After;
    Quiet(x, e1, s1);
    events := RunFirst(x, e1);
    var y := After(x, e1);
    Quiet(y, e2, s2);
    events := RunOne(x, events, y, e2);
    Quiet(y.(state := s2), e3, s3);
    events := RunOne(x, events, y.(state := s2), e3);
    Quiet(y.(state := s3), e4, s4);
    events := RunOne(x, events, y.(state := s3), e4);
  }

  /** Threads `a` and `b` make all the pops. */
  ghost predicate OnlyPops<V>(events: seq<Event<V>>, a: nat, b: nat)
  {
    forall e :: e in events && e.action.CallPop? ==> e.tid == a || e.tid == b
  }

  /** One piece of an execution after another. */
  lemma Then<V>(x: Execution<V>, first: seq<Event<V>>, y: Execution<V>, more: seq<Event<V>>, a: nat, b: nat)
    returns (all: seq<Event<V>>, z: Execution<V>)
    requires Run(x, first) == Some(y) && Run(y, more).Some? && OnlyPops(first, a, b) && OnlyPops(more, a, b)
    ensures all == first + more && Run(x, all) == Some(z) && Run(y, more) == Some(z) && OnlyPops(all, a, b)
  {
    RunMore(x, first, y, more);
    all, z := first + more, Run(y, more).value;
  }

  /** The empty ring after producer `p` pushed an item and consumer `b` popped it, in the first lap. */
  ghost function Passed<V>(x: Execution<V>, p: nat, b: nat, item: V): Execution<V>
    requires x.state.tail < |x.state.value|
  {
    var s := x.state;
    Execution(
      s.(head := s.head + 1, tail := s.tail + 1, value := s.value[s.tail := item],
         threads := s.threads[p := Idle][b := Idle], issued := s.issued + [Issue(p, item)],
         claimed := s.claimed + [b], taken := s.taken + [Taken(b, s.tail, item)]),
      x.called + [item], x.popped + [item])
  }

  /** In the first lap the ring is empty, and both threads stand outside their operations. */
  ghost predicate FirstLap<V>(s: State<V>, p: nat, b: nat)
  {
    && WellFormed(s) && s.capacity >= 2 && p != b && s.At(p).Idle? && s.At(b).Idle?
    && s.head == s.tail < s.capacity && !s.readable[s.tail]
  }

  /** A push in the first lap, from call to return. */
  lemma PushOne<V>(x: Execution<V>, p: nat, item: V, a: nat, b: nat) returns (events: seq<Event<V>>)
    requires var s := x.state;
      && WellFormed(s) && s.At(p).Idle? && s.head <= s.tail < s.capacity && s.tail + 1 - s.head < s.capacity
      && !s.readable[s.tail]
    ensures var s := x.state;
      Run(x, events) == Some(x.(called := x.called + [item], state := s.(
        tail := s.tail + 1, issued := s.issued + [Issue(p, item)], threads := s.threads[p := Idle],
        value := s.value[s.tail := item], readable := s.readable[s.tail := true])))
    ensures OnlyPops(events, a, b)
  {
    hide Step, Enabled, Run;
    var s := x.state;
    events := ClaimPush(x, p, item);
    var y := x.(called := x.called + [item], state := s.Moved(p, PushAwaitSlot(item, s.tail)).(
      tail := s.tail + 1, issued := s.issued + [Issue(p, item)]));
    var more := FinishPush(y, p);
    events, y := Then(x, events, y, more, a, b);
    assert s.threads[p := PushAwaitSlot(item, s.tail)][p := Idle] == s.threads[p := Idle];
  }

  /** A pop in the first lap, from call to return. */
  lemma PopOne<V>(x: Execution<V>, b: nat, a: nat) returns (events: seq<Event<V>>)
    requires var s := x.state;
      WellFormed(s) && s.At(b).Idle? && s.head < s.tail && s.head < s.capacity && s.readable[s.head]
    ensures var s := x.state; var v := s.value[s.head];
      Run(x, events) == Some(x.(popped := x.popped + [v], state := s.(
        head := s.head + 1, claimed := s.claimed + [b], threads := s.threads[b := Idle],
        readable := s.readable[s.head := false], taken := s.taken + [Taken(b, s.head, v)])))
    ensures OnlyPops(events, a, b)
  {
    hide Step, Enabled, Run;
    var s, h := x.state, x.state.head;
    events := ClaimPop(x, b);
    var s1 := s.Moved(b, PopAwaitSlot(h)).(head := h + 1, claimed := s.claimed + [b]);
    var more := ReadSlot(x.(state := s1), b);
    var y;
    events, y := Then(x, events, x.(state := s1), more, a, b);
    var s2 := s1.Moved(b, PopClearReadable(h, s.value[h]));
    assert y == x.(state := s2);
    more := ReleaseSlot(y, b);
    events, y := Then(x, events, y, more, a, b);
    assert s2.threads[b := Idle] == s.threads[b := Idle];
  }

  lemma PassOne<V>(x: Execution<V>, p: nat, b: nat, item: V, a: nat) returns (events: seq<Event<V>>)
    requires FirstLap(x.state, p, b)
    ensures Run(x, events) == Some(Passed(x, p, b, item)) && OnlyPops(events, a, b)
  {
    hide Step, Enabled, Run, Remainder;
    events := PushOne(x, p, item, a, b);
    var s := x.state;
    var y := x.(called := x.called + [item], state := s.(
      tail := s.tail + 1, issued := s.issued + [Issue(p, item)], threads := s.threads[p := Idle],
      value := s.value[s.tail := item], readable := s.readable[s.tail := true]));
    var more := PopOne(y, b, a);
    events, y := Then(x, events, y, more, a, b);
    assert s.readable[s.tail := true][s.tail := false] == s.readable;
  }

  /** After `n` of these. */
  ghost predicate ManyPassed<V>(x: Execution<V>, y: Execution<V>, p: nat, b: nat, item: V, n: nat)
  {
    var s, t := x.state, y.state;
    && WellFormed(t) && t.capacity == s.capacity && t.head == t.tail == s.tail + n
    && t.readable == s.readable && |t.value| == |s.value|
    && (forall i :: 0 <= i < s.tail < |s.value| ==> t.value[i] == s.value[i])
    && t.issued == s.issued + seq(n, _ => Issue(p, item)) && s.claimed <= t.claimed && |t.claimed| == |s.claimed| + n
    && t.At(p).Idle? && t.At(b).Idle? && (forall q :: q != p && q != b ==> t.At(q) == s.At(q))
    && y.popped == x.popped + seq(n, _ => item) && y.called == x.called + seq(n, _ => item)
  }

  lemma {:induction false} PassMany<V>(x: Execution<V>, p: nat, b: nat, item: V, a: nat, n: nat)
    returns (events: seq<Event<V>>, y: Execution<V>)
    requires var s := x.state;
      && WellFormed(s) && s.capacity >= 2 && p != b && s.At(p).Idle? && s.At(b).Idle? && s.head == s.tail
      && s.tail + n <= s.capacity && forall i :: s.tail <= i < s.tail + n ==> !s.readable[i]
    ensures Run(x, events) == Some(y) && ManyPassed(x, y, p, b, item, n) && OnlyPops(events, a, b)
  {
    if n == 0 {
      events, y := [], x;
    } else {
      var before;
      events, before := PassMany(x, p, b, item, a, n - 1);
      var more := PassOne(before, p, b, item, a);
      events, y := Then(x, events, before, more, a, b);
      PassedOneMore(x, before, p, b, item, n);
    }
  }

  lemma PassedOneMore<V>(x: Execution<V>, y: Execution<V>, p: nat, b: nat, item: V, n: nat)
    requires n > 0 && ManyPassed(x, y, p, b, item, n - 1) && FirstLap(y.state, p, b)
    requires x.state.tail < x.state.capacity == |x.state.value|
    ensures ManyPassed(x, Passed(y, p, b, item), p, b, item, n)
  {
    assert seq(n, _ => Issue(p, item)) == seq(n - 1, _ => Issue(p, item)) + [Issue(p, item)];
    assert seq(n, _ => item) == seq(n - 1, _ => item) + [item];
  }

  /** Tickets 0 and `capacity` have the same slot. */
  lemma SameSlot<V>(s: State<V>)
    requires s.capacity >= 1
    ensures s.Slot(0) == 0 && s.Slot(s.capacity) == 0
  {
    assert Remainder(s.capacity - s.capacity, s.capacity) == 0;
  }

  /** Producer `slow` stops right after it won ticket 0, and consumer `waiting` waits for that ticket. */
  lemma Stall<V>(x: Execution<V>, slow: nat, waiting: nat, first: V, b: nat) returns (events: seq<Event<V>>)
    requires IsInit(x.state) && x.state.capacity >= 2 && slow != waiting
    ensures var s := x.state;
      Run(x, events) == Some(x.(called := x.called + [first], state := s.(
        head := 1, tail := 1, issued := [Issue(slow, first)], claimed := [waiting],
        threads := s.threads[slow := PushAwaitSlot(first, 0)][waiting := PopAwaitSlot(0)])))
    ensures OnlyPops(events, waiting, b)
  {
    hide Step, Enabled, Run, Remainder;
    var s := x.state;
    assert s.issued + [Issue(slow, first)] == [Issue(slow, first)] && s.claimed + [waiting] == [waiting];
    events := ClaimPush(x, slow, first);
    var y := x.(called := x.called + [first],
                state := s.Moved(slow, PushAwaitSlot(first, 0)).(tail := 1, issued := [Issue(slow, first)]));
    var more := ClaimPop(y, waiting);
    events, y := Then(x, events, y, more, waiting, b);
  }

  /** The end of the run: ticket `capacity` is filled in the slot of ticket 0, and `waiting` takes it. */
  lemma MixUp<V>(x: Execution<V>, fast: nat, waiting: nat, late: V, b: nat)
    returns (events: seq<Event<V>>, y: Execution<V>)
    requires var s := x.state;
      && WellFormed(s) && s.capacity >= 2 && s.head == s.tail == s.capacity && !s.readable[0] && s.At(fast).Idle?
      && fast != waiting && s.At(waiting) == PopAwaitSlot(0)
    ensures Run(x, events) == Some(y) && OnlyPops(events, waiting, b)
    ensures y.popped == x.popped + [late] && EndsWith(events, Event(waiting, Return))
    ensures var s, t := x.state, y.state;
      && t.issued == s.issued + [Issue(fast, late)] && t.claimed == s.claimed
      && t.taken == s.taken + [Taken(waiting, 0, late)]
      && forall q :: q != fast && q != waiting ==> t.At(q) == s.At(q)
  {
    var s := x.state;
    SameSlot(s);
    hide Step, Enabled, Run, Remainder;
    events := ClaimPush(x, fast, late);
    y := x.(called := x.called + [late], state := s.Moved(fast, PushAwaitSlot(late, s.tail)).(
      tail := s.tail + 1, issued := s.issued + [Issue(fast, late)]));
    var more := FinishPush(y, fast);
    events, y := Then(x, events, y, more, waiting, b);
    assert y.state.readable[0] && y.state.value[0] == late;
    more := ReadSlot(y, waiting);
    events, y := Then(x, events, y, more, waiting, b);
    more := ReleaseSlot(y, waiting);
    events, y := Then(x, events, y, more, waiting, b);
  }

  /**
    A run from `s` that ends with `waiting`, which claimed ticket 0, returning the value of
    ticket `capacity`, although the push holding ticket 0 has not even written its own.
   */
  ghost predicate MixesLaps<V>(states: seq<State<V>>, events: seq<Event<V>>, s: State<V>,
                               slow: nat, fast: nat, waiting: nat, busy: nat, first: V, late: V)
  {
    && IsRun(states, events) && states[0] == s && s.capacity >= 2 && OnlyPops(events, waiting, busy)
    && EndsWith(events, Event(waiting, Return))
    && PopResults(states, events, |events|) == seq(s.capacity - 1, _ => first) + [late]
    && var t := states[|events|];
      && [waiting] <= t.claimed && EndsWith(t.taken, Taken(waiting, 0, late))
      && |t.issued| == s.capacity + 1 && t.issued[0] == Issue(slow, first) && t.issued[s.capacity] == Issue(fast, late)
      && t.At(slow) == PushAwaitSlot(first, 0)
  }

  /** For every capacity from 2 on, any two consumers, any two producers and any two values. */
  lemma TwoConsumersMixLaps<V>(s: State<V>, slow: nat, fast: nat, waiting: nat, busy: nat, first: V, late: V)
    requires IsInit(s) && s.capacity >= 2
    requires slow != fast && slow != waiting && slow != busy && fast != waiting && fast != busy && waiting != busy
    ensures exists states, events :: MixesLaps(states, events, s, slow, fast, waiting, busy, first, late)
  {
    hide Step, Enabled, Run, Remainder;
    var x := Execution(s, [], []);
    var events := Stall(x, slow, waiting, first, busy);
    var y := x.(called := x.called + [first], state := s.(
      head := 1, tail := 1, issued := [Issue(slow, first)], claimed := [waiting],
      threads := s.threads[slow := PushAwaitSlot(first, 0)][waiting := PopAwaitSlot(0)]));
    var more, z := PassMany(y, fast, busy, first, waiting, s.capacity - 1);
    events, y := Then(x, events, y, more, waiting, busy);
    more, z := MixUp(y, fast, waiting, late, busy);
    events, y := Then(x, events, y, more, waiting, busy);
    var states := RunHasStates(s, events);
    assert MixesLaps(states, events, s, slow, fast, waiting, busy, first, late);
  }

  /** Consumer `a` has read the value of ticket 0 and stops before it clears the flag. */
  lemma Hold<V>(x: Execution<V>, p: nat, a: nat, first: V, b: nat) returns (events: seq<Event<V>>, y: Execution<V>)
    requires IsInit(x.state) && x.state.capacity >= 2 && p != a
    ensures Run(x, events) == Some(y) && OnlyPops(events, a, b) && y.popped == x.popped
    ensures y.called == x.called + [first]
    ensures var s, t := x.state, y.state;
      && WellFormed(t) && t.capacity == s.capacity && t.head == t.tail == 1 && t.readable == s.readable[0 := true]
      && t.value == s.value[0 := first] && t.issued == [Issue(p, first)] && t.At(p).Idle?
      && t.At(a) == PopClearReadable(0, first) && forall q :: q != p && q != a ==> t.At(q).Idle?
  {
    hide Step, Enabled, Run;
    var s := x.state;
    assert s.issued + [Issue(p, first)] == [Issue(p, first)];
    events := PushOne(x, p, first, a, b);
    y := x.(called := x.called + [first], state := s.(
      tail := 1, issued := [Issue(p, first)], threads := s.threads[p := Idle],
      value := s.value[0 := first], readable := s.readable[0 := true]));
    var more := ClaimPop(y, a);
    events, y := Then(x, events, y, more, a, b);
    more := ReadSlot(y, a);
    events, y := Then(x, events, y, more, a, b);
  }

  /** One lap later consumer `b` finds the flag of ticket 0 still set, and both return the same value. */
  lemma TakeBoth<V>(x: Execution<V>, p: nat, a: nat, b: nat, first: V, other: V)
    returns (events: seq<Event<V>>, y: Execution<V>)
    requires var s := x.state;
      && WellFormed(s) && s.capacity >= 2 && s.head == s.tail == s.capacity && s.readable[0] && s.value[0] == first
      && p != a && p != b && a != b && s.At(p).Idle? && s.At(b).Idle? && s.At(a) == PopClearReadable(0, first)
    ensures Run(x, events) == Some(y) && OnlyPops(events, a, b)
    ensures y.popped == x.popped + [first, first] && y.called == x.called + [other]
    ensures y.state.issued == x.state.issued + [Issue(p, other)]
  {
    var s := x.state;
    SameSlot(s);
    hide Step, Enabled, Run, Remainder;
    events := ClaimPush(x, p, other);
    y := x.(called := x.called + [other], state := s.Moved(p, PushAwaitSlot(other, s.tail)).(
      tail := s.tail + 1, issued := s.issued + [Issue(p, other)]));
    var more := ClaimPop(y, b);
    events, y := Then(x, events, y, more, a, b);
    more := ReadSlot(y, b);
    events, y := Then(x, events, y, more, a, b);
    more := ReleaseSlot(y, b);
    events, y := Then(x, events, y, more, a, b);
    more := ReleaseSlot(y, a);
    events, y := Then(x, events, y, more, a, b);
  }

  /**
    For every capacity from 2 on, any two consumers, one producer and any two values: a
    run in which `first` is returned twice, although only the first push was called with it
    unless `other` is the same value.
   */
  lemma TwoConsumersPopTwice<V>(s: State<V>, p: nat, a: nat, b: nat, first: V, other: V)
    returns (states: seq<State<V>>, events: seq<Event<V>>)
    requires IsInit(s) && s.capacity >= 2 && p != a && p != b && a != b
    ensures IsRun(states, events) && states[0] == s && OnlyPops(events, a, b)
    ensures PopResults(states, events, |events|) == seq(s.capacity - 1, _ => other) + [first, first]
    ensures states[|events|].issued
      == [Issue(p, first)] + seq(s.capacity - 1, _ => Issue(p, other)) + [Issue(p, other)]
    ensures Called(events) == [first] + seq(s.capacity - 1, _ => other) + [other]
  {
    hide Step, Enabled, Run, Remainder;
    var x := Execution(s, [], []);
    var y;
    events, y := Hold(x, p, a, first, b);
    var more, z := PassMany(y, p, b, other, a, s.capacity - 1);
    events, y := Then(x, events, y, more, a, b);
    more, z := TakeBoth(y, p, a, b, first, other);
    events, y := Then(x, events, y, more, a, b);
    states := RunHasStates(s, events);
  }

  lemma PoppedTwice<V>(states: seq<State<V>>, events: seq<Event<V>>, p: nat, n: nat, first: V, other: V)
    requires |states| == |events| + 1 && first != other
    requires PopResults(states, events, |events|) == seq(n, _ => other) + [first, first]
    requires states[|events|].issued == [Issue(p, first)] + seq(n, _ => Issue(p, other)) + [Issue(p, other)]
    ensures !NoneTwice(states, events) && !Fifo(states, events)
  {
    hide Fifo;
    var others := seq(n, _ => other);
    assert Items(states[|events|].issued) == [first] + others + [other];
    assert first !in others;
    assert multiset(others)[first] == 0;
    assert multiset(PopResults(states, events, |events|))[first] == 2;
    assert multiset([first] + others + [other])[first] == 1;
    if Fifo(states, events) { FifoPopsNoneTwice(states, events); }
  }
}
