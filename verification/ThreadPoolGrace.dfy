/** What `Stop` leaves undone, with timers and without: how many tasks, and exactly when none. */
module ThreadPoolGrace {
  import opened ThreadPool
  import opened ThreadPoolLaws
  import opened ThreadPoolStop

  const InTimerBody: Worker -> bool := (worker: Worker) => worker.InTimer?

  /** A worker that leaves a timer body takes one more task; queued tasks beyond those workers stay. */
  ghost function LeftBehind(s: Pool): nat
  {
    var taken := Num(s.workers, InTimerBody);
    if |s.queue| <= taken then 0 else |s.queue| - taken
  }

  /** Once `stop_` is set, every other worker exits without another task. */
  lemma StoppedStepKeepsLeftBehind(s: Pool, e: Event)
    requires s.stop && WakeLaw(s) && Enabled(s, e) && !e.Adds()
    ensures LeftBehind(Step(s, e)) == LeftBehind(s)
  {
    match e
    case Enter(w, _, _, _) => NumUpdate(s.workers, InTimerBody, w, Exited);
    case Finish(w) =>
      NumUpdate(s.workers, InTimerBody, w, AtLock);
      if s.workers[w].InTimer? && s.queue != [] {
        var workers := s.workers[w := AtLock];
        NumUpdate(workers, InTimerBody, w, InTask(s.queue[0]));
      }
    case _ =>
  }

  lemma {:induction false} StoppedRunKeepsLeftBehind(states: seq<Pool>, events: seq<Event>, threadNum: nat, a: nat,
                                                     i: nat)
    requires IsRun(states, events, threadNum) && a < i < |states| && events[a] == SetStop
    requires forall j :: a <= j < |events| ==> !events[j].Adds()
    ensures states[i].stop && LeftBehind(states[i]) == LeftBehind(states[a])
  {
    if i == a + 1 {
      NumSame(states[a].workers, NotifyAll(states[a].workers), InTimerBody);
    } else {
      StoppedRunKeepsLeftBehind(states, events, threadNum, a, i - 1);
      RunKeepsWakeLaw(states, events, threadNum, i - 1);
      StoppedStepKeepsLeftBehind(states[i - 1], events[i - 1]);
    }
  }

  ghost predicate JoinedLaw(s: Pool)
  {
    s.stopper.Joined? ==> forall w :: 0 <= w < |s.workers| ==> s.workers[w].Exited?
  }

  lemma {:induction false} RunKeepsJoinedLaw(states: seq<Pool>, events: seq<Event>, threadNum: nat, i: nat)
    requires IsRun(states, events, threadNum) && i < |states|
    ensures JoinedLaw(states[i])
  {
    if i > 0 {
      RunKeepsJoinedLaw(states, events, threadNum, i - 1);
      RunKeepsWakeLaw(states, events, threadNum, i - 1);
    }
  }

  /** Every task ever added has run. */
  ghost predicate AllRun(s: Pool) { forall id: nat :: id < s.added ==> id in s.finished }

  /** When all workers have exited, the tasks that have not run are those still in the deque. */
  lemma UnrunAreQueued(s: Pool)
    requires CounterLaw(s) && QueueLaw(s) && BodyLaw(s) && JoinedLaw(s) && s.stopper.Joined?
    ensures s.added - |s.finished| == |s.queue| && (AllRun(s) <==> s.queue == [])
  {
    NumOfNone(s.workers, InTaskBody);
    if s.queue != [] {
      var all := s.started + s.queue;
      var id := s.queue[0];
      assert all[|s.started|] == id;
      assert id in all;
      forall i | 0 <= i < |s.started| ensures s.started[i] != id {
        assert all[i] == s.started[i];
      }
      assert id !in s.finished;
    } else {
      assert s.started + s.queue == s.started;
      forall id: nat | id < s.added ensures id in s.finished {
        assert id in s.started && !Runs(s, id);
      }
    }
  }

  /**
    What a stop leaves undone, with any use of timers before it: the tasks queued when
    `stop_` is set, less one for each worker then in a timer body.
   */
  lemma StopLeavesBehind(states: seq<Pool>, events: seq<Event>, threadNum: nat, a: nat)
    requires IsRun(states, events, threadNum) && threadNum < WIDTH
    requires a < |events| && events[a] == SetStop && forall j :: a <= j < |events| ==> !events[j].Adds()
    requires states[|events|].stopper.Joined?
    ensures var s := states[|events|];
      && s.added - |s.finished| == LeftBehind(states[a])
      && (AllRun(s) <==> |states[a].queue| <= Num(states[a].workers, InTimerBody))
  {
    var n := |events|;
    var s := states[n];
    StoppedRunKeepsLeftBehind(states, events, threadNum, a, n);
    RunKeepsJoinedLaw(states, events, threadNum, n);
    RunKeepsCounters(states, events, threadNum, n);
    RunKeepsTasks(states, events, threadNum, n);
    NumOfNone(s.workers, InTimerBody);
    UnrunAreQueued(s);
  }

  /** A worker in a timer body has fired that timer. */
  lemma {:induction false} TimerBodiesHaveFired(states: seq<Pool>, events: seq<Event>, threadNum: nat, i: nat)
    requires IsRun(states, events, threadNum) && i < |states|
    ensures Num(states[i].workers, InTimerBody) <= |states[i].fired|
  {
    if i == 0 {
      NumOfNone(states[0].workers, InTimerBody);
    } else {
      TimerBodiesHaveFired(states, events, threadNum, i - 1);
      StepKeepsTimerBodies(states[i - 1], events[i - 1]);
    }
  }

  lemma StepKeepsTimerBodies(s: Pool, e: Event)
    requires Enabled(s, e) && Num(s.workers, InTimerBody) <= |s.fired|
    ensures Num(Step(s, e).workers, InTimerBody) <= |Step(s, e).fired|
  {
    match e
    case Enter(w, _, _, _) => NumUpdate(s.workers, InTimerBody, w, Step(s, e).workers[w]);
    case Finish(w) =>
      NumUpdate(s.workers, InTimerBody, w, Step(s, e).workers[w]);
      assert Step(s, e).workers == s.workers[w := Step(s, e).workers[w]];
    case SpuriousWakeup(w) => NumUpdate(s.workers, InTimerBody, w, Notified);
    case SetStop => NumSame(s.workers, NotifyAll(s.workers), InTimerBody);
    case AddTask(wake) => NotifyKeepsNum(s.workers, wake, InTimerBody);
    case AddPriorityTask(wake) => NotifyKeepsNum(s.workers, wake, InTimerBody);
    case AddDelayTask(_, _, wake) => NotifyKeepsNum(s.workers, wake, InTimerBody);
    case AddTimerTask(_, _, wake) => NotifyKeepsNum(s.workers, wake, InTimerBody);
    case _ =>
  }

  /**
    Graceful stop, exactly: the poll that lets `Stop(true)` go on has seen as many queued
    tasks as firings, modulo 2^64, and every task ever added runs if and only if no more
    tasks are queued when `stop_` is set than workers are in a timer body.
   */
  lemma GracefulStopExactly(states: seq<Pool>, events: seq<Event>, threadNum: nat, p: nat, a: nat)
    requires IsRun(states, events, threadNum) && threadNum < WIDTH
    requires p < a < |events| && events[p] == PollPending && events[a] == SetStop
    requires states[p + 1].stopper.AboutToStop? && forall j :: a <= j < |events| ==> !events[j].Adds()
    requires states[|events|].stopper.Joined?
    ensures (|states[p].queue| - |states[p].fired|) % WIDTH == 0
    ensures AllRun(states[|events|]) <==> |states[a].queue| <= Num(states[a].workers, InTimerBody)
  {
    RunKeepsCounters(states, events, threadNum, p);
    PollPassesExactlyWhen(states[p]);
    StopLeavesBehind(states, events, threadNum, a);
  }

  lemma SameBelowWidth(x: nat, y: nat)
    requires x < WIDTH && y < WIDTH && (x - y) % WIDTH == 0
    ensures x == y
  {
  }

  /**
    When `stop_` is set right after that poll: every task runs exactly if every timer
    firing so far still has its body running; without firings, always.
   */
  lemma GracefulStopAtOnce(states: seq<Pool>, events: seq<Event>, threadNum: nat, p: nat)
    requires IsRun(states, events, threadNum) && threadNum < WIDTH
    requires p + 1 < |events| && events[p] == PollPending && events[p + 1] == SetStop
    requires forall j :: p < j < |events| ==> !events[j].Adds()
    requires |states[p].queue| < WIDTH && |states[p].fired| < WIDTH && states[|events|].stopper.Joined?
    ensures AllRun(states[|events|]) <==> Num(states[p].workers, InTimerBody) == |states[p].fired|
  {
    assert states[p + 1] == Step(states[p], PollPending);
    GracefulStopExactly(states, events, threadNum, p, p + 1);
    SameBelowWidth(|states[p].queue|, |states[p].fired|);
    TimerBodiesHaveFired(states, events, threadNum, p);
  }
}
