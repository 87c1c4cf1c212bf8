/** Wakeups, progress and stopping of the thread pool. */
module ThreadPoolStop {
  import opened ThreadPool
  import opened ThreadPoolLaws

  // ---------------------------------------------------------------------------
  // No lost wakeup
  // ---------------------------------------------------------------------------

  ghost predicate SomeoneAwake(workers: seq<Worker>)
  {
    exists w :: 0 <= w < |workers| && workers[w].Awake()
  }

  /** While the pool runs and has work, not every worker sleeps; once it stops, none does. */
  ghost predicate WakeLaw(s: Pool)
  {
    && (s.stop <==> s.stopper.Joining? || s.stopper.Joined?)
    && (!s.stop ==> forall w :: 0 <= w < |s.workers| ==> !s.workers[w].Exited?)
    && (s.stop ==> forall w :: 0 <= w < |s.workers| ==> !s.workers[w].Asleep?)
    && (!s.stop && (s.queue != [] || s.timers != []) && |s.workers| > 0 ==> SomeoneAwake(s.workers))
  }

  lemma NotifyWakes(workers: seq<Worker>, wake: nat)
    requires Notifies(workers, wake) && |workers| > 0
    requires forall w :: 0 <= w < |workers| ==> !workers[w].Exited?
    ensures SomeoneAwake(NotifyOne(workers, wake))
  {
    assert NotifyOne(workers, wake)[if wake < |workers| then wake else 0].Awake();
  }

  lemma AwakeAt(workers: seq<Worker>, w: nat)
    requires w < |workers| && workers[w].Awake()
    ensures SomeoneAwake(workers)
  {
  }

  lemma AddKeepsWakeLaw(s: Pool, e: Event)
    requires WakeLaw(s) && Enabled(s, e) && e.Adds()
    ensures WakeLaw(Step(s, e))
  {
    if !s.stop && |s.workers| > 0 { NotifyWakes(s.workers, e.wake); }
    hide SomeoneAwake;
  }

  lemma StepKeepsWakeLaw(s: Pool, e: Event)
    requires WakeLaw(s) && Enabled(s, e)
    ensures WakeLaw(Step(s, e))
  {
    var s' := Step(s, e);
    match e
    case Enter(w, _, _, _) => if s'.workers[w].Awake() { AwakeAt(s'.workers, w); }
    case Finish(w) => AwakeAt(s'.workers, w);
    case SpuriousWakeup(w) => AwakeAt(s'.workers, w);
    case _ => if e.Adds() { AddKeepsWakeLaw(s, e); }
  }

  lemma {:induction false} RunKeepsWakeLaw(states: seq<Pool>, events: seq<Event>, threadNum: nat, i: nat)
    requires IsRun(states, events, threadNum) && i < |states|
    ensures WakeLaw(states[i]) && |states[i].workers| == threadNum
  {
    if i == 0 {
      if threadNum > 0 { AwakeAt(states[0].workers, 0); }
    } else {
      RunKeepsWakeLaw(states, events, threadNum, i - 1);
      StepKeepsWakeLaw(states[i - 1], events[i - 1]);
    }
  }

  // ---------------------------------------------------------------------------
  // Progress
  // ---------------------------------------------------------------------------

  /** The state after worker events `events`, if each is enabled in its turn. */
  ghost predicate Leads(s: Pool, events: seq<Event>, t: Pool)
    decreases |events|
  {
    if events == [] then s == t else Enabled(s, events[0]) && Leads(Step(s, events[0]), events[1..], t)
  }

  lemma {:induction false} EarliestTimer(timers: seq<Timer>) returns (top: nat)
    requires timers != []
    ensures IsTop(timers, top)
  {
    var n := |timers| - 1;
    if n == 0 {
      top := 0;
    } else {
      top := EarliestTimer(timers[..n]);
      forall i | 0 <= i < n ensures !timers[top].Less(timers[i]) { assert timers[..n][i] == timers[i]; }
      if timers[top].Less(timers[n]) { top := n; }
    }
  }

  /** A worker about to take the mutex starts the front task in at most two of its steps. */
  lemma EnterStartsTask(s: Pool, w: nat, now: int, again: int) returns (events: seq<Event>, t: Pool)
    requires !s.stop && s.queue != [] && w < |s.workers| && MayEnter(s.workers[w])
    ensures |events| <= 2 && Leads(s, events, t) && t.started == s.started + [s.queue[0]]
    ensures forall e :: e in events ==> e == Finish(w) || (e.Enter? && e.w == w && e.now == now && e.again == again)
  {
    var top := 0;
    if s.timers != [] { top := EarliestTimer(s.timers); }
    var e := Enter(w, now, top, again);
    var s1 := Step(s, e);
    if s.timers != [] && s.timers[top].Deadline() <= now {
      events, t := [e, Finish(w)], Step(s1, Finish(w));
      assert events[1..] == [Finish(w)] && events[1..][1..] == [];
    } else {
      events, t := [e], s1;
      assert events[1..] == [];
    }
  }

  /**
    Whenever the deque of a running pool is not empty, some worker needs at most three
    of its own steps, whatever the clock shows, to have started the front task.
   */
  lemma FrontTaskCanStart(s: Pool, now: int, again: int) returns (w: nat, events: seq<Event>, t: Pool)
    requires WakeLaw(s) && !s.stop && s.queue != [] && |s.workers| > 0
    ensures w < |s.workers| && |events| <= 3 && Leads(s, events, t) && t.started == s.started + [s.queue[0]]
    ensures forall e :: e in events ==> e == Finish(w) || (e.Enter? && e.w == w && e.now == now && e.again == again)
  {
    w :| 0 <= w < |s.workers| && s.workers[w].Awake();
    if MayEnter(s.workers[w]) {
      events, t := EnterStartsTask(s, w, now, again);
    } else {
      var s1 := Step(s, Finish(w));
      if s.workers[w].InTimer? {
        events, t := [Finish(w)], s1;
        assert events[1..] == [];
      } else {
        var more;
        more, t := EnterStartsTask(s1, w, now, again);
        events := [Finish(w)] + more;
        assert events[1..] == more;
      }
    }
  }

  /** A worker about to take the mutex fires the earliest timer, if it is due, in that step. */
  lemma EnterFiresTimer(s: Pool, w: nat, now: int, again: int, top: nat) returns (t: Pool)
    requires !s.stop && w < |s.workers| && MayEnter(s.workers[w])
    requires IsTop(s.timers, top) && s.timers[top].Deadline() <= now
    ensures Leads(s, [Enter(w, now, top, again)], t) && t.fired == s.fired + [Firing(s.timers[top], now, again)]
  {
    var e := Enter(w, now, top, again);
    t := Step(s, e);
    assert [e][1..] == [];
  }

  /**
    Whenever the earliest timer of a running pool is due, some worker needs at most three
    of its own steps to fire it: the end of a body, which after a timer takes one more
    task, the end of that task, and the next turn of its loop.
   */
  lemma DueTimerCanFire(s: Pool, now: int, again: int, top: nat) returns (w: nat, events: seq<Event>, t: Pool)
    requires WakeLaw(s) && !s.stop && |s.workers| > 0
    requires IsTop(s.timers, top) && s.timers[top].Deadline() <= now
    ensures w < |s.workers| && |events| <= 3 && Leads(s, events, t)
    ensures t.fired == s.fired + [Firing(s.timers[top], now, again)]
    ensures forall e :: e in events ==> e == Finish(w) || e == Enter(w, now, top, again)
  {
    w :| 0 <= w < |s.workers| && s.workers[w].Awake();
    var e := Enter(w, now, top, again);
    if MayEnter(s.workers[w]) {
      t := EnterFiresTimer(s, w, now, again, top);
      events := [e];
    } else {
      var s1 := Step(s, Finish(w));
      if MayEnter(s1.workers[w]) {
        t := EnterFiresTimer(s1, w, now, again, top);
        events := [Finish(w), e];
        assert events[1..] == [e];
      } else {
        t := EnterFiresTimer(Step(s1, Finish(w)), w, now, again, top);
        events := [Finish(w), Finish(w), e];
        assert events[1..] == [Finish(w), e] && events[1..][1..] == [e];
      }
    }
  }

  // ---------------------------------------------------------------------------
  // Stopping
  // ---------------------------------------------------------------------------

  /**
    What the reading of `pending_num_` in `Stop(true)` means: the poll goes on exactly
    when the deque is as long as the firings so far are many, modulo 2^64.  Without
    firings that is when the deque is empty; after some, an empty deque keeps the poll
    waiting and a nonempty one may let it pass.
   */
  lemma PollPassesExactlyWhen(s: Pool)
    requires CounterLaw(s) && s.stopper.Polling?
    ensures Step(s, PollPending).stopper.AboutToStop? <==> (|s.queue| - |s.fired|) % 0x1_0000_0000_0000_0000 == 0
    ensures |s.fired| == 0 && |s.queue| < WIDTH ==> (Step(s, PollPending).stopper.AboutToStop? <==> s.queue == [])
    ensures s.queue == [] && 0 < |s.fired| < WIDTH ==> Step(s, PollPending) == s
  {
  }

  /** Only graceful stops, and nothing is added once `Stop(true)` has seen zero. */
  ghost predicate GracefulRun(states: seq<Pool>, events: seq<Event>)
    requires |states| == |events| + 1
  {
    && CallStop(false) !in events
    && (forall i :: 0 <= i < |events| && events[i].Adds() ==>
      states[i].stopper.NotStopping? || states[i].stopper.Polling?)
  }

  ghost predicate NoTimers(events: seq<Event>)
  {
    forall e :: e in events ==> !e.AddsTimer()
  }

  /** Nothing has fired, and a stop goes on only with an empty deque. */
  ghost predicate Quiet(s: Pool)
  {
    && (s.timers == [] || s.workers == []) && s.fired == []
    && (s.stopper.AboutToStop? || s.stopper.Joining? || s.stopper.Joined? ==> s.queue == [])
    && (s.stopper.Joined? ==> forall w :: 0 <= w < |s.workers| ==> s.workers[w].Exited?)
  }

  lemma StepKeepsQuiet(s: Pool, e: Event)
    requires Quiet(s) && CounterLaw(s) && s.added < WIDTH && Enabled(s, e)
    requires e != CallStop(false) && (e.AddsTimer() ==> s.workers == [])
    requires e.Adds() ==> s.stopper.NotStopping? || s.stopper.Polling?
    ensures Quiet(Step(s, e))
  {
    if e.PollPending? { PollPassesExactlyWhen(s); }
  }

  lemma {:induction false} AddedGrows(states: seq<Pool>, events: seq<Event>, threadNum: nat, i: nat, j: nat)
    requires IsRun(states, events, threadNum) && i <= j < |states|
    ensures states[i].added <= states[j].added
  {
    if i < j { AddedGrows(states, events, threadNum, i, j - 1); }
  }

  lemma GracefulEvent(states: seq<Pool>, events: seq<Event>, threadNum: nat, i: nat)
    requires |states| == |events| + 1 && i < |events|
    requires GracefulRun(states, events) && (NoTimers(events) || threadNum == 0)
    ensures events[i] != CallStop(false) && (events[i].AddsTimer() ==> threadNum == 0)
    ensures events[i].Adds() ==> states[i].stopper.NotStopping? || states[i].stopper.Polling?
  {
  }

  lemma {:induction false} RunKeepsQuiet(states: seq<Pool>, events: seq<Event>, threadNum: nat, i: nat)
    requires IsRun(states, events, threadNum) && threadNum < WIDTH && i < |states|
    requires GracefulRun(states, events) && (NoTimers(events) || threadNum == 0)
    requires states[|events|].added < WIDTH
    ensures Quiet(states[i])
  {
    hide Step, Enabled, CounterLaw, WakeLaw, GracefulRun, NoTimers;
    if i > 0 {
      hide Quiet;
      RunKeepsQuiet(states, events, threadNum, i - 1);
      RunKeepsCounters(states, events, threadNum, i - 1);
      RunKeepsWakeLaw(states, events, threadNum, i - 1);
      AddedGrows(states, events, threadNum, i - 1, |events|);
      GracefulEvent(states, events, threadNum, i - 1);
      StepKeepsQuiet(states[i - 1], events[i - 1]);
    }
  }

  /**
    Graceful stop: without timers, or without a worker to fire them, and without adds after
    `Stop(true)` has seen zero, once all workers are joined every task ever added has run
    exactly once.
   */
  lemma GracefulStopRunsEverything(states: seq<Pool>, events: seq<Event>, threadNum: nat)
    requires IsRun(states, events, threadNum) && threadNum < WIDTH
    requires GracefulRun(states, events) && (NoTimers(events) || threadNum == 0)
    requires states[|events|].added < WIDTH && states[|events|].stopper.Joined?
    ensures var s := states[|events|];
      NoDuplicates(s.finished) && |s.finished| == s.added && forall id: nat :: id in s.finished <==> id < s.added
  {
    var s := states[|events|];
    RunKeepsQuiet(states, events, threadNum, |events|);
    RunKeepsTasks(states, events, threadNum, |events|);
    RunKeepsCounters(states, events, threadNum, |events|);
    NumOfNone(s.workers, InTaskBody);
    assert s.started + s.queue == s.started;
    forall id: nat | id < s.added ensures id in s.finished {
      assert id in s.started;
      assert !Runs(s, id);
    }
  }
}
