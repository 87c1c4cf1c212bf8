/** The thread that calls `Stop`: when it polls, when it sets `stop_`, and that its joins come to an end. */
module ThreadPoolStopCalls {
  import opened ThreadPool
  import opened ThreadPoolLaws
  import opened ThreadPoolStop

  /** The steps of the thread inside `Stop`. */
  predicate OfStopper(e: Event) { e.CallStop? || e.PollPending? || e.SetStop? || e.JoinAll? }

  /** Without a graceful stop nobody ever polls. */
  lemma {:induction false} NoPolling(states: seq<Pool>, events: seq<Event>, threadNum: nat, i: nat)
    requires IsRun(states, events, threadNum) && i < |states| && CallStop(true) !in events
    ensures !states[i].stopper.Polling? && (i < |events| ==> !events[i].PollPending?)
  {
    if i > 0 { NoPolling(states, events, threadNum, i - 1); }
  }

  /** After `Stop(false)` the caller's next step is to set `stop_`, whatever is queued, running or pending. */
  lemma {:induction false} UngracefulStopsAtOnce(states: seq<Pool>, events: seq<Event>, threadNum: nat, k: nat, i: nat)
    requires IsRun(states, events, threadNum) && k < i < |states| && events[k] == CallStop(false)
    requires forall m :: k < m < i ==> !events[m].SetStop?
    ensures Enabled(states[i], SetStop) && Step(states[i], SetStop).stop
    ensures forall e :: OfStopper(e) && Enabled(states[i], e) ==> e == SetStop
    ensures forall m :: k < m < i ==> !OfStopper(events[m])
  {
    if i > k + 1 { UngracefulStopsAtOnce(states, events, threadNum, k, i - 1); }
  }

  lemma StepTowardsStop(s: Pool, e: Event)
    requires Enabled(s, e) && s.stopper.Polling? && !s.stop
    ensures var s' := Step(s, e); if e == PollPending && s.pendingNum == 0 then s'.stopper.AboutToStop? && !s'.stop
      else s'.stopper.Polling? && !s'.stop
  {
  }

  /** After `Stop(true)` `stop_` is set, or about to be, only when a poll has read zero. */
  lemma {:induction false} GracefulWaitsForZero(states: seq<Pool>, events: seq<Event>, threadNum: nat, k: nat, i: nat)
    returns (p: nat)
    requires IsRun(states, events, threadNum) && k < i < |states| && events[k] == CallStop(true)
    requires states[i].stop || Enabled(states[i], SetStop)
    ensures k < p < i && events[p] == PollPending && states[p].pendingNum == 0
  {
    if i > k + 1 && (states[i - 1].stop || Enabled(states[i - 1], SetStop)) {
      p := GracefulWaitsForZero(states, events, threadNum, k, i - 1);
    } else {
      p := i - 1;
      RunKeepsWakeLaw(states, events, threadNum, k);
      if i > k + 1 {
        StaysPolling(states, events, threadNum, k, i - 1);
        StepTowardsStop(states[i - 1], events[i - 1]);
      }
    }
  }

  lemma {:induction false} StaysPolling(states: seq<Pool>, events: seq<Event>, threadNum: nat, k: nat, i: nat)
    requires IsRun(states, events, threadNum) && k < i < |states| && events[k] == CallStop(true)
    requires !states[i].stop && !Enabled(states[i], SetStop)
    ensures states[i].stopper.Polling?
  {
    RunKeepsWakeLaw(states, events, threadNum, i);
    if i > k + 1 {
      RunKeepsWakeLaw(states, events, threadNum, i - 1);
      StaysPolling(states, events, threadNum, k, i - 1);
    }
  }

  /** `Stop` returns with all workers gone and the counters at zero, and leaves the deque as it is. */
  lemma StopReturns(states: seq<Pool>, events: seq<Event>, threadNum: nat, k: nat)
    requires IsRun(states, events, threadNum) && k < |events| && events[k] == JoinAll
    ensures states[k].stop && forall w :: 0 <= w < |states[k].workers| ==> states[k].workers[w].Exited?
    ensures states[k + 1] == states[k].(pendingNum := 0, runningNum := 0, stopper := Joined)
  {
    RunKeepsWakeLaw(states, events, threadNum, k);
  }

  // ---------------------------------------------------------------------------
  // The joins
  // ---------------------------------------------------------------------------

  /** A step of worker `w` itself. */
  predicate OfWorker(e: Event, w: nat) { (e.Enter? || e.Finish?) && e.w == w }

  /** How many steps a worker of a stopped pool is from its end, at most. */
  function StepsToExit(worker: Worker): nat
  {
    match worker
    case Exited => 0
    case AtLock => 1
    case Asleep => 1
    case Notified => 1
    case InTask(_) => 2
    case InTimer(_) => 3
  }

  /** Every step of its own brings a worker of a stopped pool closer to its end, and it always has one. */
  lemma StoppedWorkerMoves(s: Pool, e: Event, w: nat)
    requires WakeLaw(s) && s.stop && Enabled(s, e) && w < |s.workers|
    ensures Step(s, e).stop && |Step(s, e).workers| == |s.workers|
    ensures var left, left' := StepsToExit(s.workers[w]), StepsToExit(Step(s, e).workers[w]);
      if OfWorker(e, w) then left' < left else left' == left
  {
  }

  lemma StoppedWorkerCanMove(s: Pool, w: nat, now: int, again: int) returns (e: Event)
    requires WakeLaw(s) && s.stop && w < |s.workers| && !s.workers[w].Exited?
    ensures OfWorker(e, w) && Enabled(s, e)
  {
    if s.workers[w].InBody() {
      e := Finish(w);
    } else {
      var top := 0;
      if s.timers != [] { top := EarliestTimer(s.timers); }
      e := Enter(w, now, top, again);
    }
  }

  /** How many of the events from `i` to `j` are steps of worker `w`. */
  function OwnSteps(events: seq<Event>, w: nat, i: nat, j: nat): nat
    requires i <= j <= |events|
  {
    if i == j then 0 else OwnSteps(events, w, i, j - 1) + if OfWorker(events[j - 1], w) then 1 else 0
  }

  /**
    Once `stop_` is set a worker makes at most three more steps of its own, whatever the
    others do; it can always make one until it has exited, and then the joins go on.
   */
  lemma {:induction false} StoppedWorkerExits(states: seq<Pool>, events: seq<Event>, threadNum: nat, w: nat,
                                              i: nat, j: nat)
    requires IsRun(states, events, threadNum) && i <= j < |states| && states[i].stop && w < threadNum
    ensures states[j].stop && |states[i].workers| == |states[j].workers| == threadNum
    ensures StepsToExit(states[j].workers[w]) + OwnSteps(events, w, i, j) <= StepsToExit(states[i].workers[w]) <= 3
  {
    hide Step, Enabled, WakeLaw, OfWorker;
    RunKeepsWakeLaw(states, events, threadNum, i);
    if i < j {
      StoppedWorkerExits(states, events, threadNum, w, i, j - 1);
      RunKeepsWakeLaw(states, events, threadNum, j - 1);
      StoppedWorkerMoves(states[j - 1], events[j - 1], w);
    }
  }
}
