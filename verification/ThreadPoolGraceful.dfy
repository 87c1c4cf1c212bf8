/** Whether `Stop(true)` keeps its promise, from what the callers do: exactly when they use no timers. */
module ThreadPoolGraceful {
  import opened ThreadPool
  import opened ThreadPoolLaws
  import opened ThreadPoolStop
  import opened ThreadPoolGrace

  // A run with timers, for every number of workers, in which a task is left behind.

  /** All adds come before the call of `Stop`, which is a graceful one. */
  ghost predicate Orderly(states: seq<Pool>, events: seq<Event>)
  {
    && |states| == |events| + 1
    && (forall i :: 0 <= i < |events| && events[i].Adds() ==> states[i].stopper.NotStopping?)
    && CallStop(false) !in events
  }

  lemma Extend(states: seq<Pool>, events: seq<Event>, n: nat, e: Event, t: Pool)
    returns (states': seq<Pool>, events': seq<Event>)
    requires IsRun(states, events, n) && Orderly(states, events)
    requires var s := states[|events|];
      Enabled(s, e) && Step(s, e) == t && e != CallStop(false) && (e.Adds() ==> s.stopper.NotStopping?)
    ensures events' == events + [e] && states' == states + [t]
    ensures IsRun(states', events', n) && Orderly(states', events')
  {
    states', events' := RunOn(states, events, n, e, t);
  }

  /** The first of `n` workers stands as told; the others have not come to the mutex yet. */
  function Led(first: Worker, n: nat): seq<Worker>
    requires n > 0
  {
    [first] + seq(n - 1, _ => AtLock)
  }

  function Delayed(id: nat): Timer { Timer(id, false, 0, 0) }

  /** One one-shot timer has fired and its body has ended. */
  function Fired1(n: nat): Pool
    requires n > 0
  {
    Start(n).(workers := Led(AtLock, n), pendingNum := WIDTH - 1,
              armed := [Delayed(0)], fired := [Firing(Delayed(0), 0, 0)])
  }

  /** Two one-shot timers have fired: `pending_num_` stands two below zero, modulo 2^64. */
  function Fired2(n: nat): Pool
    requires n > 0
  {
    Start(n).(workers := Led(InTimer(1), n), pendingNum := WIDTH - 2, runningNum := 1,
              armed := [Delayed(0), Delayed(1)], fired := [Firing(Delayed(0), 0, 0), Firing(Delayed(1), 0, 0)])
  }

  /** The leading worker moves on. */
  lemma LedMoves(first: Worker, n: nat, to: Worker)
    requires n > 0
    ensures Led(first, n)[0 := to] == Led(to, n)
    ensures Led(AtLock, n) == Start(n).workers
    ensures !first.Asleep? ==> Notifies(Led(first, n), n)
  {
  }

  /** The one timer armed fires in the leading worker. */
  lemma LeaderFires(s: Pool, id: nat)
    requires s.timers == [Delayed(id)] && !s.stop && |s.workers| > 0 && s.workers[0].AtLock?
    ensures var e := Enter(0, 0, 0, 0);
      && Enabled(s, e)
      && Step(s, e) == s.(timers := [], workers := s.workers[0 := InTimer(id)],
                          fired := s.fired + [Firing(Delayed(id), 0, 0)],
                          pendingNum := Minus1(s.pendingNum), runningNum := Plus1(s.runningNum))
  {
    assert s.timers[..0] + s.timers[0 + 1..] == [];
  }

  /** With no worker asleep a timer is armed and nobody is notified. */
  lemma TimerArmed(s: Pool, n: nat)
    requires Notifies(s.workers, n) && n == |s.workers|
    ensures var e, timer := AddDelayTask(0, 0, n), Timer(|s.armed|, false, 0, 0);
      Enabled(s, e) && Step(s, e) == s.(timers := s.timers + [timer], armed := s.armed + [timer])
  {
  }

  lemma OneFiring(n: nat) returns (states: seq<Pool>, events: seq<Event>)
    requires n > 0
    ensures IsRun(states, events, n) && Orderly(states, events) && states[|events|] == Fired1(n)
  {
    LedMoves(AtLock, n, InTimer(0));
    LedMoves(InTimer(0), n, AtLock);
    var s0 := Start(n);
    var s1 := s0.(timers := [Delayed(0)], armed := [Delayed(0)]);
    TimerArmed(s0, n);
    LeaderFires(s1, 0);
    hide Led, EnterLoop, Arm;
    var s2 := Fired1(n).(workers := Led(InTimer(0), n), runningNum := 1);
    states, events := [s0], [];
    states, events := Extend(states, events, n, AddDelayTask(0, 0, n), s1);
    states, events := Extend(states, events, n, Enter(0, 0, 0, 0), s2);
    states, events := Extend(states, events, n, Finish(0), Fired1(n));
  }

  lemma TwoFirings(n: nat) returns (states: seq<Pool>, events: seq<Event>)
    requires n > 0
    ensures IsRun(states, events, n) && Orderly(states, events) && states[|events|] == Fired2(n)
  {
    LedMoves(AtLock, n, InTimer(1));
    states, events := OneFiring(n);
    var s1 := Fired1(n).(timers := [Delayed(1)], armed := [Delayed(0), Delayed(1)]);
    TimerArmed(Fired1(n), n);
    LeaderFires(s1, 1);
    hide Led, Step, Enabled, Orderly, IsRun;
    states, events := Extend(states, events, n, AddDelayTask(0, 0, n), s1);
    states, events := Extend(states, events, n, Enter(0, 0, 0, 0), Fired2(n));
  }

  /** Two tasks are queued during the second body: the counter is back at zero and `Stop(true)` goes on. */
  lemma TwoTasksHidden(n: nat) returns (states: seq<Pool>, events: seq<Event>)
    requires n > 0
    ensures IsRun(states, events, n) && Orderly(states, events) && CallStop(true) in events
    ensures states[|events|] ==
      Fired2(n).(queue := [0, 1], added := 2, pendingNum := 0, stop := true, stopper := Joining)
  {
    LedMoves(InTimer(1), n, AtLock);
    states, events := TwoFirings(n);
    assert NotifyAll(Led(InTimer(1), n)) == Led(InTimer(1), n);
    hide Led, NotifyAll;
    var s1 := Fired2(n).(queue := [0], added := 1, pendingNum := WIDTH - 1);
    var s2 := Fired2(n).(queue := [0, 1], added := 2, pendingNum := 0);
    states, events := Extend(states, events, n, AddTask(n), s1);
    states, events := Extend(states, events, n, AddTask(n), s2);
    states, events := Extend(states, events, n, CallStop(true), s2.(stopper := Polling));
    states, events := Extend(states, events, n, PollPending, s2.(stopper := AboutToStop));
    states, events := Extend(states, events, n, SetStop, s2.(stop := true, stopper := Joining));
  }

  /** After its timer the first worker takes one of the two tasks, runs it, and exits. */
  lemma OneTaskRuns(n: nat) returns (states: seq<Pool>, events: seq<Event>)
    requires n > 0
    ensures IsRun(states, events, n) && Orderly(states, events) && CallStop(true) in events
    ensures states[|events|] ==
      Fired2(n).(queue := [1], added := 2, started := [0], finished := [0], pendingNum := WIDTH - 1, runningNum := 0,
                 workers := Led(Exited, n), stop := true, stopper := Joining)
  {
    LedMoves(InTimer(1), n, AtLock);
    LedMoves(AtLock, n, InTask(0));
    LedMoves(InTask(0), n, AtLock);
    LedMoves(AtLock, n, Exited);
    states, events := TwoTasksHidden(n);
    var s := states[|events|];
    var s1 := s.(queue := [1], started := [0], workers := Led(InTask(0), n), pendingNum := WIDTH - 1);
    var s2 := s1.(workers := Led(AtLock, n), runningNum := 0, finished := [0]);
    hide Led;
    states, events := Extend(states, events, n, Finish(0), s1);
    states, events := Extend(states, events, n, Finish(0), s2);
    states, events := Extend(states, events, n, Enter(0, 0, 0, 0), s2.(workers := Led(Exited, n)));
  }

  /** The others find `stop_` set and exit, too. */
  lemma {:induction false} OthersExit(n: nat, k: nat) returns (states: seq<Pool>, events: seq<Event>)
    requires 1 <= k <= n
    ensures IsRun(states, events, n) && Orderly(states, events) && CallStop(true) in events
    ensures var s := states[|events|];
      && s.stop && s.stopper.Joining? && s.timers == [] && s.queue == [1] && s.added == 2 && s.finished == [0]
      && s.workers == seq(n, w => if w < k then Exited else AtLock)
  {
    if k == 1 {
      states, events := OneTaskRuns(n);
    } else {
      states, events := OthersExit(n, k - 1);
      var s := states[|events|];
      var t := s.(workers := seq(n, w => if w < k then Exited else AtLock));
      assert t.workers == s.workers[k - 1 := Exited];
      states, events := Extend(states, events, n, Enter(k - 1, 0, 0, 0), t);
    }
  }

  /** With timers the promise fails: `Stop(true)` returns and a task added before it never ran. */
  lemma TimersDefeatGracefulStop(n: nat) returns (states: seq<Pool>, events: seq<Event>)
    requires n > 0
    ensures IsRun(states, events, n) && Orderly(states, events) && CallStop(true) in events
    ensures var s := states[|events|]; s.stopper.Joined? && s.added == 2 && s.finished == [0]
  {
    states, events := OthersExit(n, n);
    var s := states[|events|];
    states, events := Extend(states, events, n, JoinAll, s.(pendingNum := 0, runningNum := 0, stopper := Joined));
  }

  /** A graceful stop of `n` workers that has returned, after timers were used or not. */
  ghost predicate StopsGracefully(states: seq<Pool>, events: seq<Event>, n: nat, timers: bool)
  {
    && IsRun(states, events, n) && GracefulRun(states, events) && (timers || NoTimers(events))
    && states[|events|].stopper.Joined? && states[|events|].added < WIDTH
  }

  ghost predicate AlwaysGraceful(n: nat, timers: bool)
  {
    forall states, events :: StopsGracefully(states, events, n, timers) ==> AllRun(states[|events|])
  }

  /** A graceful stop runs everything in all runs exactly if no timers are used, or there is no worker to fire one. */
  lemma GracefulExactlyWithoutTimers(n: nat, timers: bool)
    requires n < WIDTH
    ensures AlwaysGraceful(n, timers) <==> !timers || n == 0
  {
    hide GracefulRun;
    if !timers || n == 0 {
      forall states, events | StopsGracefully(states, events, n, timers) ensures AllRun(states[|events|]) {
        GracefulStopRunsEverything(states, events, n);
      }
    } else {
      var states, events := TimersDefeatGracefulStop(n);
      OrderlyIsGraceful(states, events);
      assert StopsGracefully(states, events, n, timers);
      assert 1 !in states[|events|].finished;
    }
  }

  lemma OrderlyIsGraceful(states: seq<Pool>, events: seq<Event>)
    requires Orderly(states, events)
    ensures GracefulRun(states, events)
  {
  }
}
