/** Timers of the thread pool: when they fire, how often, and that none gets lost. */
module ThreadPoolTimers {
  import opened ThreadPool
  import opened ThreadPoolLaws

  /** The clock value timer `id` was last armed from: its last firing's, or the one of its call. */
  ghost function Since(fired: seq<Firing>, armed: seq<Timer>, id: nat): int
    requires id < |armed|
  {
    if fired == [] then armed[id].since
    else
      var last := fired[|fired| - 1];
      if last.timer.id == id then last.again else Since(fired[..|fired| - 1], armed, id)
  }

  /** An instance of a timer as its last arming left it. */
  ghost predicate Current(t: Timer, fired: seq<Firing>, armed: seq<Timer>)
  {
    && t.id < |armed|
    && t == armed[t.id].(since := Since(fired, armed, t.id))
  }

  ghost predicate IsArmed(timers: seq<Timer>, id: nat)
  {
    exists i :: 0 <= i < |timers| && timers[i].id == id
  }

  ghost predicate HasFired(fired: seq<Firing>, id: nat)
  {
    exists i :: 0 <= i < |fired| && fired[i].timer.id == id
  }

  /** One armed instance of every periodic timer; a one-shot timer is armed or has fired, once. */
  ghost predicate ArmedLaw(s: Pool)
  {
    && (forall i :: 0 <= i < |s.armed| ==> s.armed[i].id == i)
    && (forall i :: 0 <= i < |s.timers| ==> Current(s.timers[i], s.fired, s.armed))
    && (forall i, j :: 0 <= i < j < |s.timers| ==> s.timers[i].id != s.timers[j].id)
    && (forall id: nat :: id < |s.armed| ==>
      (IsArmed(s.timers, id) <==> s.armed[id].periodic || !HasFired(s.fired, id)))
  }

  /** Every firing comes no earlier than its timer's delay after the last arming; a one-shot fires once. */
  ghost predicate FiringLaw(s: Pool)
  {
    && (forall j :: 0 <= j < |s.fired| ==> Current(s.fired[j].timer, s.fired[..j], s.armed))
    && (forall j :: 0 <= j < |s.fired| ==> s.fired[j].timer.Deadline() <= s.fired[j].now)
    && (forall i, j :: 0 <= i < j < |s.fired| && !s.fired[j].timer.periodic ==>
      s.fired[i].timer.id != s.fired[j].timer.id)
  }

  lemma {:induction false} SinceOfMore(fired: seq<Firing>, armed: seq<Timer>, more: Timer, id: nat)
    requires id < |armed|
    ensures Since(fired, armed + [more], id) == Since(fired, armed, id)
  {
    if fired != [] { SinceOfMore(fired[..|fired| - 1], armed, more, id); }
  }

  lemma {:induction false} SinceOfFresh(fired: seq<Firing>, armed: seq<Timer>, id: nat)
    requires id < |armed| && !HasFired(fired, id)
    ensures Since(fired, armed, id) == armed[id].since
  {
    if fired != [] {
      var n := |fired| - 1;
      assert fired[n].timer.id != id;
      forall i | 0 <= i < n ensures fired[..n][i].timer.id != id { assert fired[i].timer.id != id; }
      SinceOfFresh(fired[..n], armed, id);
    }
  }

  lemma NewTimerHasNotFired(s: Pool)
    requires FiringLaw(s)
    ensures !HasFired(s.fired, |s.armed|)
  {
    forall j | 0 <= j < |s.fired| ensures s.fired[j].timer.id != |s.armed| {
      assert Current(s.fired[j].timer, s.fired[..j], s.armed);
    }
  }

  lemma ArmedWithOneMore(timers: seq<Timer>, t: Timer, k: nat)
    ensures IsArmed(timers + [t], k) <==> IsArmed(timers, k) || t.id == k
  {
    if IsArmed(timers, k) {
      var i :| 0 <= i < |timers| && timers[i].id == k;
      assert (timers + [t])[i].id == k;
    }
    assert (timers + [t])[|timers|] == t;
  }

  lemma ArmKeepsArmedLaw(s: Pool, periodic: bool, timeval: int, now: int, wake: nat)
    requires ArmedLaw(s) && FiringLaw(s)
    ensures ArmedLaw(Arm(s, periodic, timeval, now, wake))
  {
    var s', id := Arm(s, periodic, timeval, now, wake), |s.armed|;
    var timer := Timer(id, periodic, timeval, now);
    NewTimerHasNotFired(s);
    SinceOfFresh(s.fired, s'.armed, id);
    forall i | 0 <= i < |s'.timers| ensures Current(s'.timers[i], s'.fired, s'.armed) {
      if i < |s.timers| {
        assert Current(s.timers[i], s.fired, s.armed);
        SinceOfMore(s.fired, s.armed, timer, s.timers[i].id);
      }
    }
    forall k: nat | k < |s'.armed| ensures IsArmed(s'.timers, k) <==> s'.armed[k].periodic || !HasFired(s'.fired, k) {
      ArmedWithOneMore(s.timers, timer, k);
    }
    hide IsArmed, HasFired;
  }

  lemma ArmKeepsFiringLaw(s: Pool, periodic: bool, timeval: int, now: int, wake: nat)
    requires FiringLaw(s)
    ensures FiringLaw(Arm(s, periodic, timeval, now, wake))
  {
    var s' := Arm(s, periodic, timeval, now, wake);
    forall j | 0 <= j < |s'.fired| ensures Current(s'.fired[j].timer, s'.fired[..j], s'.armed) {
      assert Current(s.fired[j].timer, s.fired[..j], s.armed);
      SinceOfMore(s.fired[..j], s.armed, Timer(|s.armed|, periodic, timeval, now), s.fired[j].timer.id);
    }
  }

  /** A one-shot timer that is armed has not fired. */
  lemma ArmedHasNotFired(s: Pool, top: nat)
    requires ArmedLaw(s) && top < |s.timers| && !s.timers[top].periodic
    ensures forall i :: 0 <= i < |s.fired| ==> s.fired[i].timer.id != s.timers[top].id
  {
    assert Current(s.timers[top], s.fired, s.armed) && IsArmed(s.timers, s.timers[top].id);
    assert !HasFired(s.fired, s.timers[top].id);
  }

  lemma FireKeepsFiringLaw(s: Pool, w: nat, now: int, top: nat, again: int)
    requires ArmedLaw(s) && FiringLaw(s) && w < |s.workers| && top < |s.timers| && s.timers[top].Deadline() <= now
    ensures FiringLaw(Fire(s, w, now, top, again))
  {
    hide Current, IsArmed, HasFired;
    var s', n := Fire(s, w, now, top, again), |s.fired|;
    assert s'.fired[..n] == s.fired;
    assert Current(s.timers[top], s.fired, s.armed);
    forall j | 0 <= j < n ensures Current(s'.fired[j].timer, s'.fired[..j], s'.armed) {
      assert s'.fired[..j] == s.fired[..j];
    }
    if !s.timers[top].periodic { ArmedHasNotFired(s, top); }
  }

  lemma FireKeepsCurrent(s: Pool, w: nat, now: int, top: nat, again: int)
    requires ArmedLaw(s) && w < |s.workers| && top < |s.timers|
    ensures var s' := Fire(s, w, now, top, again);
      && (forall i :: 0 <= i < |s'.timers| ==> Current(s'.timers[i], s'.fired, s'.armed))
      && (forall i, j :: 0 <= i < j < |s'.timers| ==> s'.timers[i].id != s'.timers[j].id)
  {
    var s', n := Fire(s, w, now, top, again), |s.fired|;
    assert s'.fired[..n] == s.fired;
    assert Current(s.timers[top], s.fired, s.armed);
    forall i | 0 <= i < |s'.timers| ensures Current(s'.timers[i], s'.fired, s'.armed) {
      if i < |s.timers| - 1 {
        var k := if i < top then i else i + 1;
        assert s'.timers[i] == s.timers[k] && Current(s.timers[k], s.fired, s.armed);
      }
    }
  }

  lemma FireKeepsArmed(s: Pool, w: nat, now: int, top: nat, again: int, id: nat)
    requires ArmedLaw(s) && w < |s.workers| && top < |s.timers| && id < |s.armed|
    ensures var s' := Fire(s, w, now, top, again);
      IsArmed(s'.timers, id) <==> s'.armed[id].periodic || !HasFired(s'.fired, id)
  {
    var s', t, n := Fire(s, w, now, top, again), s.timers[top], |s.fired|;
    assert Current(t, s.fired, s.armed);
    assert s'.fired[n].timer.id == t.id;
    if id == t.id {
      assert IsArmed(s'.timers, id) <==> t.periodic by {
        if t.periodic { assert s'.timers[|s.timers| - 1].id == id; }
      }
    } else {
      assert HasFired(s'.fired, id) <==> HasFired(s.fired, id) by {
        if HasFired(s.fired, id) {
          var i :| 0 <= i < n && s.fired[i].timer.id == id;
          assert s'.fired[i].timer.id == id;
        }
      }
      assert IsArmed(s'.timers, id) <==> IsArmed(s.timers, id) by {
        if IsArmed(s.timers, id) {
          var i :| 0 <= i < |s.timers| && s.timers[i].id == id;
          assert s'.timers[if i < top then i else i - 1].id == id;
        }
      }
    }
  }

  lemma StepKeepsTimers(s: Pool, e: Event)
    requires ArmedLaw(s) && FiringLaw(s) && Enabled(s, e)
    ensures ArmedLaw(Step(s, e)) && FiringLaw(Step(s, e))
  {
    match e
    case AddDelayTask(timeval, now, wake) =>
      ArmKeepsArmedLaw(s, false, timeval, now, wake);
      ArmKeepsFiringLaw(s, false, timeval, now, wake);
    case AddTimerTask(timeval, now, wake) =>
      ArmKeepsArmedLaw(s, true, timeval, now, wake);
      ArmKeepsFiringLaw(s, true, timeval, now, wake);
    case Enter(w, now, top, again) => EnterKeepsTimers(s, w, now, top, again);
    case _ =>
  }

  lemma EnterKeepsTimers(s: Pool, w: nat, now: int, top: nat, again: int)
    requires ArmedLaw(s) && FiringLaw(s) && Enabled(s, Enter(w, now, top, again))
    ensures ArmedLaw(EnterLoop(s, w, now, top, again)) && FiringLaw(EnterLoop(s, w, now, top, again))
  {
    if s.timers != [] && !s.stop && s.timers[top].Deadline() <= now {
      FireKeepsFiringLaw(s, w, now, top, again);
      FireKeepsCurrent(s, w, now, top, again);
      forall id: nat | id < |s.armed|
        ensures IsArmed(Fire(s, w, now, top, again).timers, id)
          <==> s.armed[id].periodic || !HasFired(Fire(s, w, now, top, again).fired, id)
      {
        FireKeepsArmed(s, w, now, top, again, id);
      }
    }
  }

  /** In every interleaving of workers and callers. */
  lemma {:induction false} RunKeepsTimers(states: seq<Pool>, events: seq<Event>, threadNum: nat, i: nat)
    requires IsRun(states, events, threadNum) && i < |states|
    ensures ArmedLaw(states[i]) && FiringLaw(states[i])
  {
    if i > 0 {
      RunKeepsTimers(states, events, threadNum, i - 1);
      StepKeepsTimers(states[i - 1], events[i - 1]);
    }
  }

  /** A step fires no timer, or one that is due and as early as any. */
  lemma FiresTheEarliestDue(s: Pool, e: Event)
    requires Enabled(s, e)
    ensures var s' := Step(s, e);
      s'.fired == s.fired || (e.Enter? && exists f: Firing :: s'.fired == s.fired + [f] && IsEarliestDue(f, s, e))
  {
    if Step(s, e).fired != s.fired {
      var f := Firing(s.timers[e.top], e.now, e.again);
      assert Step(s, e).fired == s.fired + [f];
      assert IsEarliestDue(f, s, e);
    }
  }

  /** Due at the clock value read in this step, and no armed timer is due earlier. */
  ghost predicate IsEarliestDue(f: Firing, s: Pool, e: Event)
  {
    && e.Enter? && f.now == e.now && f.again == e.again && f.timer in s.timers && f.timer.Deadline() <= e.now
    && forall t :: t in s.timers ==> f.timer.Deadline() <= t.Deadline()
  }

  /** Every firing of a run was, in the critical section that made it, the earliest one due. */
  lemma {:induction false} EveryFiringWasEarliestDue(states: seq<Pool>, events: seq<Event>, threadNum: nat, n: nat,
                                                     j: nat)
    returns (k: nat)
    requires IsRun(states, events, threadNum) && n < |states| && j < |states[n].fired|
    ensures k < n && |states[k].fired| == j && IsEarliestDue(states[n].fired[j], states[k], events[k])
    ensures var f, w := states[n].fired[j], events[k].w;
      w < |states[k + 1].workers| && states[k + 1].workers[w] == InTimer(f.timer.id)
  {
    assert n > 0;
    FiresTheEarliestDue(states[n - 1], events[n - 1]);
    if j < |states[n - 1].fired| {
      k := EveryFiringWasEarliestDue(states, events, threadNum, n - 1, j);
      assert states[n].fired[j] == states[n - 1].fired[j];
    } else {
      k := n - 1;
    }
  }

  /** Two firings of one timer are at least its period apart, counted from the clock read by the first. */
  lemma FiringsAreSpaced(states: seq<Pool>, events: seq<Event>, threadNum: nat, n: nat, i: nat, j: nat)
    requires IsRun(states, events, threadNum) && n < |states|
    requires var fired := states[n].fired;
      i < j < |fired| && fired[i].timer.id == fired[j].timer.id
      && forall k :: i < k < j ==> fired[k].timer.id != fired[j].timer.id
    ensures var fired := states[n].fired; fired[j].now >= fired[i].again + fired[j].timer.timeval
  {
    RunKeepsTimers(states, events, threadNum, n);
    var s := states[n];
    assert Current(s.fired[j].timer, s.fired[..j], s.armed);
    SinceLast(s.fired[..j], s.armed, i, s.fired[j].timer.id);
  }

  lemma {:induction false} SinceLast(fired: seq<Firing>, armed: seq<Timer>, i: nat, id: nat)
    requires id < |armed| && i < |fired| && fired[i].timer.id == id
    requires forall k :: i < k < |fired| ==> fired[k].timer.id != id
    ensures Since(fired, armed, id) == fired[i].again
  {
    if i < |fired| - 1 {
      SinceLast(fired[..|fired| - 1], armed, i, id);
    }
  }

  // ---------------------------------------------------------------------------
  // What the caller asked for
  // ---------------------------------------------------------------------------

  /** The log keeps a timer as its call described it: its delay, the clock it was called at, and whether it repeats. */
  lemma {:induction false} TimerOfItsCall(states: seq<Pool>, events: seq<Event>, threadNum: nat, k: nat, i: nat)
    requires IsRun(states, events, threadNum) && k < i < |states| && events[k].AddsTimer()
    ensures var e, id := events[k], |states[k].armed|;
      id < |states[i].armed| && states[i].armed[id] == Timer(id, e.AddTimerTask?, e.timeval, e.now)
    ensures states[k].armed < states[i].armed
  {
    if i > k + 1 { TimerOfItsCall(states, events, threadNum, k, i - 1); }
  }

  /**
    Not before the call's own clock value plus the delay it asked for does a one-shot timer
    fire, or a periodic one for the first time.
   */
  lemma FirstFiringKeepsTheDelay(states: seq<Pool>, events: seq<Event>, threadNum: nat, k: nat, i: nat, j: nat)
    requires IsRun(states, events, threadNum) && k < i < |states| && events[k].AddsTimer()
    requires var fired, id := states[i].fired, |states[k].armed|;
      j < |fired| && fired[j].timer.id == id
      && (events[k].AddDelayTask? || forall m :: 0 <= m < j ==> fired[m].timer.id != id)
    ensures states[i].fired[j].now >= events[k].now + events[k].timeval
  {
    var s, id := states[i], |states[k].armed|;
    TimerOfItsCall(states, events, threadNum, k, i);
    RunKeepsTimers(states, events, threadNum, i);
    assert Current(s.fired[j].timer, s.fired[..j], s.armed);
    SinceOfFresh(s.fired[..j], s.armed, id);
  }

  /** A worker arms a periodic timer again from a clock it reads no earlier than the one it compared with. */
  ghost predicate ClockGoesOn(events: seq<Event>)
  {
    forall e :: e in events && e.Enter? ==> e.now <= e.again
  }

  lemma StepFires(s: Pool, e: Event)
    requires Enabled(s, e)
    ensures var fired' := Step(s, e).fired;
      fired' == s.fired || (e.Enter? && |fired'| == |s.fired| + 1 && s.fired <= fired'
        && fired'[|s.fired|].now == e.now && fired'[|s.fired|].again == e.again)
  {
  }

  lemma {:induction false} FiringsGoOn(states: seq<Pool>, events: seq<Event>, threadNum: nat, i: nat, j: nat)
    requires IsRun(states, events, threadNum) && ClockGoesOn(events) && i < |states| && j < |states[i].fired|
    ensures states[i].fired[j].now <= states[i].fired[j].again
  {
    assert i > 0;
    StepFires(states[i - 1], events[i - 1]);
    if j < |states[i - 1].fired| { FiringsGoOn(states, events, threadNum, i - 1, j); }
  }

  /** With such clocks, and a delay that is not negative, no firing of a timer comes before that. */
  lemma {:induction false} EveryFiringKeepsTheDelay(states: seq<Pool>, events: seq<Event>, threadNum: nat, k: nat,
                                                    i: nat, j: nat)
    requires IsRun(states, events, threadNum) && ClockGoesOn(events) && k < i < |states|
    requires events[k].AddsTimer() && events[k].timeval >= 0
    requires j < |states[i].fired| && states[i].fired[j].timer.id == |states[k].armed|
    ensures states[i].fired[j].now >= events[k].now + events[k].timeval
  {
    var fired, id := states[i].fired, |states[k].armed|;
    var m := LastBefore(fired, j, id);
    if m < j {
      EveryFiringKeepsTheDelay(states, events, threadNum, k, i, m);
      FiringsGoOn(states, events, threadNum, i, m);
      FiringsAreSpaced(states, events, threadNum, i, m, j);
      TimerOfItsCall(states, events, threadNum, k, i);
      RunKeepsTimers(states, events, threadNum, i);
      assert Current(fired[j].timer, fired[..j], states[i].armed);
    } else {
      FirstFiringKeepsTheDelay(states, events, threadNum, k, i, j);
    }
  }

  /** The last firing of timer `id` before firing `j`, or `j` if there is none. */
  lemma {:induction false} LastBefore(fired: seq<Firing>, j: nat, id: nat) returns (m: nat)
    requires j < |fired|
    ensures m <= j && (m < j ==> fired[m].timer.id == id)
    ensures forall l :: 0 <= l < j && (m < l || m == j) ==> fired[l].timer.id != id
  {
    m := j;
    var l := j;
    while l > 0
      invariant 0 <= l <= j && m == j && forall i :: l <= i < j ==> fired[i].timer.id != id
    {
      l := l - 1;
      if fired[l].timer.id == id { return l; }
    }
  }

  lemma OnlyTimerFires(s: Pool, t: Timer, now: int, again: int)
    requires s.timers == [t] && t.periodic && t.Deadline() <= now
    requires !s.stop && s.workers == [AtLock]
    ensures var e := Enter(0, now, 0, again);
      && Enabled(s, e)
      && Step(s, e) == s.(timers := [t.(since := again)], workers := [InTimer(t.id)],
                          fired := s.fired + [Firing(t, now, again)],
                          pendingNum := Minus1(s.pendingNum), runningNum := Plus1(s.runningNum))
  {
    assert s.timers[..0] + s.timers[0 + 1..] == [];
    assert s.workers[0 := InTimer(t.id)] == [InTimer(t.id)];
  }

  /** With a clock that goes back, a periodic timer of period 5 called at 0 fires at 5, and then at -5. */
  lemma ClockGoesBack() returns (states: seq<Pool>, events: seq<Event>)
    ensures IsRun(states, events, 1) && |events| > 0 && events[0] == AddTimerTask(5, 0, 1)
    ensures var fired := states[|events|].fired; |fired| == 2 && fired[0].now == 5 && fired[1].now == -5
  {
    var t := Timer(0, true, 5, 0);
    var s := Start(1);
    states, events := [s], [];
    var s' := s.(timers := [t], armed := [t], workers := [AtLock]);
    states, events := RunOn(states, events, 1, AddTimerTask(5, 0, 1), s');
    hide IsRun;
    OnlyTimerFires(s', t, 5, -10);
    s := Step(s', Enter(0, 5, 0, -10));
    states, events := RunOn(states, events, 1, Enter(0, 5, 0, -10), s);
    s' := s.(workers := [AtLock], runningNum := 0);
    states, events := RunOn(states, events, 1, Finish(0), s');
    OnlyTimerFires(s', t.(since := -10), -5, 0);
    states, events := RunOn(states, events, 1, Enter(0, -5, 0, 0), Step(s', Enter(0, -5, 0, 0)));
  }

  /** Until a timer fires it stands armed, due exactly from the call's clock value plus the delay on. */
  lemma ArmedUntilItFires(states: seq<Pool>, events: seq<Event>, threadNum: nat, k: nat, i: nat) returns (n: nat)
    requires IsRun(states, events, threadNum) && k < i < |states| && events[k].AddsTimer()
    requires !HasFired(states[i].fired, |states[k].armed|)
    ensures n < |states[i].timers| && states[i].timers[n].id == |states[k].armed|
    ensures states[i].timers[n].Deadline() == events[k].now + events[k].timeval
    ensures states[i].timers[n].periodic == events[k].AddTimerTask?
  {
    var s, id := states[i], |states[k].armed|;
    TimerOfItsCall(states, events, threadNum, k, i);
    RunKeepsTimers(states, events, threadNum, i);
    assert IsArmed(s.timers, id);
    n :| 0 <= n < |s.timers| && s.timers[n].id == id;
    assert Current(s.timers[n], s.fired, s.armed);
    SinceOfFresh(s.fired, s.armed, id);
  }

  /** A periodic timer is armed again for its period after the clock read when it last fired. */
  lemma ArmedAgain(states: seq<Pool>, events: seq<Event>, threadNum: nat, k: nat, i: nat, j: nat) returns (n: nat)
    requires IsRun(states, events, threadNum) && k < i < |states| && events[k].AddTimerTask?
    requires var fired, id := states[i].fired, |states[k].armed|;
      j < |fired| && fired[j].timer.id == id && forall m :: j < m < |fired| ==> fired[m].timer.id != id
    ensures n < |states[i].timers| && states[i].timers[n].id == |states[k].armed|
    ensures states[i].timers[n].Deadline() == states[i].fired[j].again + events[k].timeval
  {
    var s, id := states[i], |states[k].armed|;
    TimerOfItsCall(states, events, threadNum, k, i);
    RunKeepsTimers(states, events, threadNum, i);
    assert IsArmed(s.timers, id);
    n :| 0 <= n < |s.timers| && s.timers[n].id == id;
    assert Current(s.timers[n], s.fired, s.armed);
    SinceLast(s.fired, s.armed, j, id);
  }
}
