/**
  How many workers are on their way to the mutex.  Counting those in a timer's body there
  are always enough for all the work; counting only those at the mutex or notified there
  are, unless a periodic timer arms itself again, which notifies nobody.
 */
module ThreadPoolAlert {
  import opened ThreadPool
  import opened ThreadPoolLaws
  import opened ThreadPoolStop

  /** At the mutex or notified; or, if these count, in a timer's body, after which all work is looked at. */
  ghost function Ready(counted: bool): Worker -> bool
  {
    (worker: Worker) => worker.AtLock? || worker.Notified? || (counted && worker.InTimer?)
  }

  /** In a body, and not counted as ready. */
  ghost function Busy(counted: bool): Worker -> bool
  {
    (worker: Worker) => worker.InTask? || (!counted && worker.InTimer?)
  }

  function Least(a: int, b: int): int { if a <= b then a else b }

  /** The least of what there is to do and of who could do it. */
  ghost function Wanted(s: Pool, counted: bool): int
  {
    Least(|s.queue| + |s.timers|, |s.workers| - Num(s.workers, Busy(counted)))
  }

  /** While the pool runs, no piece of work waits for a worker that sleeps un-notified. */
  ghost predicate Enough(s: Pool, counted: bool)
  {
    !s.stop ==> Num(s.workers, Ready(counted)) >= Wanted(s, counted)
  }

  ghost predicate NonePeriodic(timers: seq<Timer>)
  {
    forall i :: 0 <= i < |timers| ==> !timers[i].periodic
  }

  lemma {:induction false} ReadyOrBusy(workers: seq<Worker>, counted: bool)
    requires forall w :: 0 <= w < |workers| ==> !workers[w].Asleep? && !workers[w].Exited?
    ensures Num(workers, Ready(counted)) + Num(workers, Busy(counted)) == |workers|
  {
    if workers != [] { ReadyOrBusy(workers[..|workers| - 1], counted); }
  }

  /** One more piece of work: a sleeping worker is notified, or none sleeps. */
  lemma NotifyKeepsEnough(s: Pool, wake: nat, counted: bool)
    requires Enough(s, counted) && !s.stop && Notifies(s.workers, wake)
    requires forall w :: 0 <= w < |s.workers| ==> !s.workers[w].Exited?
    ensures var workers := NotifyOne(s.workers, wake);
      var ready, busy := Num(workers, Ready(counted)), Num(workers, Busy(counted));
      busy == Num(s.workers, Busy(counted)) && (ready >= Wanted(s, counted) + 1 || ready == |workers| - busy)
  {
    NotifyKeepsNum(s.workers, wake, Busy(counted));
    if wake < |s.workers| {
      NumUpdate(s.workers, Ready(counted), wake, Notified);
    } else {
      ReadyOrBusy(s.workers, counted);
    }
  }

  /** A worker moves on, and no more work is done than it takes off the ready ones. */
  lemma MoveKeepsEnough(s: Pool, s': Pool, w: nat, to: Worker, counted: bool)
    requires Enough(s, counted) && !s.stop && w < |s.workers| && s'.workers == s.workers[w := to]
    requires
      var work, work' := |s.queue| + |s.timers|, |s'.queue| + |s'.timers|;
      var from, ready, busy := s.workers[w], Ready(counted), Busy(counted);
      || (ready(to) && work' <= work)
      || (ready(from) && busy(to) && work' == work - 1)
      || (ready(from) && to.Asleep? && work' == work == 0)
      || (busy(from) && busy(to) && work' == work - 1)
    ensures Enough(s', counted)
  {
    NumUpdate(s.workers, Ready(counted), w, to);
    NumUpdate(s.workers, Busy(counted), w, to);
  }

  lemma EnterKeepsEnough(s: Pool, w: nat, now: int, top: nat, again: int, counted: bool)
    requires Enough(s, counted) && Enabled(s, Enter(w, now, top, again)) && (counted || NonePeriodic(s.timers))
    ensures Enough(EnterLoop(s, w, now, top, again), counted)
  {
    var s' := EnterLoop(s, w, now, top, again);
    if !s.stop {
      MoveKeepsEnough(s, s', w, s'.workers[w], counted);
    }
  }

  lemma FinishKeepsEnough(s: Pool, w: nat, counted: bool)
    requires Enough(s, counted) && Enabled(s, Finish(w))
    ensures Enough(FinishBody(s, w), counted)
  {
    var s' := FinishBody(s, w);
    assert s'.workers == s.workers[w := s'.workers[w]];
    if !s.stop {
      MoveKeepsEnough(s, s', w, s'.workers[w], counted);
    }
  }

  lemma AddKeepsEnough(s: Pool, e: Event, counted: bool)
    requires Enough(s, counted) && WakeLaw(s) && Enabled(s, e) && e.Adds()
    ensures Enough(Step(s, e), counted)
  {
    if !s.stop {
      NotifyKeepsEnough(s, e.wake, counted);
    }
  }

  lemma StepKeepsEnough(s: Pool, e: Event, counted: bool)
    requires Enough(s, counted) && WakeLaw(s) && Enabled(s, e) && (counted || NonePeriodic(s.timers))
    ensures Enough(Step(s, e), counted)
  {
    match e
    case Enter(w, now, top, again) => EnterKeepsEnough(s, w, now, top, again, counted);
    case Finish(w) => FinishKeepsEnough(s, w, counted);
    case SpuriousWakeup(w) => if !s.stop { MoveKeepsEnough(s, Step(s, e), w, Notified, counted); }
    case _ => if e.Adds() { AddKeepsEnough(s, e, counted); }
  }

  lemma StepKeepsNonePeriodic(s: Pool, e: Event)
    requires NonePeriodic(s.timers) && Enabled(s, e) && !e.AddTimerTask?
    ensures NonePeriodic(Step(s, e).timers)
  {
  }

  /** With any timers: the workers that will still look for work without being notified are enough for it. */
  lemma {:induction false} RunKeepsReturning(states: seq<Pool>, events: seq<Event>, threadNum: nat, i: nat)
    requires IsRun(states, events, threadNum) && i < |states|
    ensures Enough(states[i], true)
  {
    if i > 0 {
      RunKeepsReturning(states, events, threadNum, i - 1);
      RunKeepsWakeLaw(states, events, threadNum, i - 1);
      StepKeepsEnough(states[i - 1], events[i - 1], true);
    }
  }

  /** Without periodic timers those at the mutex or notified are enough. */
  lemma {:induction false} RunKeepsAlert(states: seq<Pool>, events: seq<Event>, threadNum: nat, i: nat)
    requires IsRun(states, events, threadNum) && i < |states|
    requires forall j :: 0 <= j < i ==> !events[j].AddTimerTask?
    ensures NonePeriodic(states[i].timers) && Enough(states[i], false)
  {
    if i > 0 {
      RunKeepsAlert(states, events, threadNum, i - 1);
      RunKeepsWakeLaw(states, events, threadNum, i - 1);
      StepKeepsEnough(states[i - 1], events[i - 1], false);
      StepKeepsNonePeriodic(states[i - 1], events[i - 1]);
    }
  }

  // ---------------------------------------------------------------------------
  // With periodic timers
  // ---------------------------------------------------------------------------

  /** No queued task, at least, waits for a worker that sleeps un-notified. */
  ghost predicate EnoughForTasks(s: Pool)
  {
    !s.stop ==> Num(s.workers, Ready(false)) >= Least(|s.queue|, |s.workers| - Num(s.workers, Busy(false)))
  }

  /** A single worker that does not sleep is ready or busy, and it does not sleep on work. */
  lemma OneWorkerIsEnough(s: Pool)
    requires WakeLaw(s) && |s.workers| <= 1
    ensures Enough(s, false)
  {
    if s.queue != [] || s.timers != [] {
      if !s.stop { ReadyOrBusy(s.workers, false); }
    }
  }

  ghost predicate NoneAsleep(workers: seq<Worker>)
  {
    forall w :: 0 <= w < |workers| ==> !workers[w].Asleep?
  }

  /** With two workers and a periodic timer, each is woken at the latest when a task is queued too. */
  ghost predicate TwoLaw(s: Pool)
  {
    if NonePeriodic(s.timers) then Enough(s, false) else !s.stop && s.queue != [] ==> NoneAsleep(s.workers)
  }

  lemma TwoLawIsEnough(s: Pool)
    requires TwoLaw(s) && WakeLaw(s)
    ensures EnoughForTasks(s)
  {
    if !s.stop && !NonePeriodic(s.timers) && s.queue != [] { ReadyOrBusy(s.workers, false); }
  }

  /** Of two workers one is awake, so a notification leaves none asleep. */
  lemma NotifyWakesBoth(s: Pool, wake: nat)
    requires WakeLaw(s) && !s.stop && |s.workers| <= 2 && Notifies(s.workers, wake)
    requires s.queue != [] || s.timers != []
    ensures NoneAsleep(NotifyOne(s.workers, wake))
  {
  }

  lemma StepKeepsTwoLaw(s: Pool, e: Event)
    requires TwoLaw(s) && WakeLaw(s) && |s.workers| <= 2 && Enabled(s, e)
    ensures TwoLaw(Step(s, e))
  {
    if NonePeriodic(s.timers) && !e.AddTimerTask? {
      StepKeepsEnough(s, e, false);
      StepKeepsNonePeriodic(s, e);
    } else if e.Adds() && !s.stop && (s.queue != [] || s.timers != []) {
      NotifyWakesBoth(s, e.wake);
      PeriodicStays(s, e);
    } else {
      PeriodicStays(s, e);
    }
  }

  lemma FireKeepsPeriodic(s: Pool, w: nat, now: int, top: nat, again: int)
    requires w < |s.workers| && top < |s.timers| && !NonePeriodic(s.timers)
    ensures !NonePeriodic(Fire(s, w, now, top, again).timers)
  {
    var timers' := Fire(s, w, now, top, again).timers;
    var i :| 0 <= i < |s.timers| && s.timers[i].periodic;
    if i == top {
      assert timers'[|timers'| - 1].periodic;
    } else {
      assert timers'[if i < top then i else i - 1] == s.timers[i];
    }
  }

  lemma MoreTimersPeriodic(timers: seq<Timer>, more: seq<Timer>)
    requires timers <= more && !NonePeriodic(timers)
    ensures !NonePeriodic(more)
  {
    var i :| 0 <= i < |timers| && timers[i].periodic;
    assert more[i].periodic;
  }

  /** A periodic timer is armed for good. */
  lemma PeriodicStays(s: Pool, e: Event)
    requires Enabled(s, e) && (!NonePeriodic(s.timers) || e.AddTimerTask?)
    ensures !NonePeriodic(Step(s, e).timers)
  {
    var timers' := Step(s, e).timers;
    if e.AddTimerTask? {
      assert timers'[|timers'| - 1].periodic;
    } else if e.Enter? && s.timers != [] && !s.stop && s.timers[e.top].Deadline() <= e.now {
      FireKeepsPeriodic(s, e.w, e.now, e.top, e.again);
    } else {
      MoreTimersPeriodic(s.timers, timers');
    }
  }

  lemma {:induction false} RunKeepsTwoLaw(states: seq<Pool>, events: seq<Event>, threadNum: nat, i: nat)
    requires IsRun(states, events, threadNum) && threadNum <= 2 && i < |states|
    ensures TwoLaw(states[i])
  {
    if i > 0 {
      RunKeepsTwoLaw(states, events, threadNum, i - 1);
      RunKeepsWakeLaw(states, events, threadNum, i - 1);
      StepKeepsTwoLaw(states[i - 1], events[i - 1]);
    }
  }

  // Runs in which the workers are not enough.

  /** The first workers stand as told, the others of `n` sleep. */
  function Crew(first: seq<Worker>, n: nat): seq<Worker>
    requires |first| <= n
  {
    first + seq(n - |first|, _ => Asleep)
  }

  /** All workers go to sleep, one after another. */
  lemma {:induction false} AllSleep(n: nat, k: nat) returns (states: seq<Pool>, events: seq<Event>)
    requires k <= n
    ensures IsRun(states, events, n)
    ensures states[|events|] == Start(n).(workers := seq(n, w => if w < k then Asleep else AtLock))
  {
    if k == 0 {
      states, events := [Start(n)], [];
    } else {
      states, events := AllSleep(n, k - 1);
      var t := Start(n).(workers := seq(n, w => if w < k then Asleep else AtLock));
      assert t.workers == states[|events|].workers[k - 1 := Asleep];
      states, events := RunOn(states, events, n, Enter(k - 1, 0, 0, 0), t);
    }
  }

  const Again := Timer(0, true, 0, 0)

  /** A periodic timer for now is armed while all of at least two workers sleep. */
  lemma TimerWakesOne(n: nat) returns (states: seq<Pool>, events: seq<Event>)
    requires n >= 2
    ensures IsRun(states, events, n)
    ensures states[|events|] == Start(n).(timers := [Again], armed := [Again], workers := Crew([Notified], n))
  {
    states, events := AllSleep(n, n);
    var t := Start(n).(timers := [Again], armed := [Again], workers := Crew([Notified], n));
    assert t.workers == states[|events|].workers[0 := Notified];
    states, events := RunOn(states, events, n, AddTimerTask(0, 0, 0), t);
  }

  /** The only timer fires and is armed again for the same time. */
  lemma FiresAgain(s: Pool, w: nat)
    requires s.timers == [Again] && !s.stop && w < |s.workers| && s.workers[w].Notified?
    ensures var e := Enter(w, 0, 0, 0);
      && Enabled(s, e)
      && Step(s, e) == s.(workers := s.workers[w := InTimer(0)], fired := s.fired + [Firing(Again, 0, 0)],
                          pendingNum := Minus1(s.pendingNum), runningNum := Plus1(s.runningNum))
  {
    assert s.timers[..0] + s.timers[0 + 1..] == [];
  }

  lemma {:induction false} NumWithout(workers: seq<Worker>, f: Worker -> bool, w: nat)
    requires w < |workers| && !f(workers[w])
    ensures Num(workers, f) < |workers|
  {
    if w < |workers| - 1 { NumWithout(workers[..|workers| - 1], f, w); }
  }

  /** Nobody is ready although there is work and a sleeping worker. */
  lemma NotEnough(s: Pool, w: nat)
    requires !s.stop && w < |s.workers| && s.workers[w].Asleep?
    requires forall v :: 0 <= v < |s.workers| ==> !Ready(false)(s.workers[v])
    ensures s.timers != [] ==> !Enough(s, false)
    ensures s.queue != [] ==> !EnoughForTasks(s)
  {
    NumOfNone(s.workers, Ready(false));
    NumWithout(s.workers, Busy(false), w);
  }

  /** One firing is enough to leave the timer, armed again, to sleeping workers. */
  lemma PeriodicTimerDefeatsAlert(n: nat) returns (states: seq<Pool>, events: seq<Event>)
    requires n >= 2
    ensures IsRun(states, events, n) && !Enough(states[|events|], false)
  {
    states, events := TimerWakesOne(n);
    var s := states[|events|];
    FiresAgain(s, 0);
    var t := Step(s, Enter(0, 0, 0, 0));
    hide Step, Enabled, IsRun;
    states, events := RunOn(states, events, n, Enter(0, 0, 0, 0), t);
    NotEnough(t, 1);
  }

  /** A periodic timer and a task have each notified one of the workers. */
  function TwoNotified(n: nat): Pool
    requires n >= 2
  {
    Start(n).(queue := [0], timers := [Again], pendingNum := 1, workers := Crew([Notified, Notified], n),
              added := 1, armed := [Again])
  }

  lemma TimerAndTask(n: nat) returns (states: seq<Pool>, events: seq<Event>)
    requires n >= 2
    ensures IsRun(states, events, n) && states[|events|] == TwoNotified(n)
  {
    states, events := TimerWakesOne(n);
    assert Crew([Notified], n)[1 := Notified] == Crew([Notified, Notified], n);
    hide Crew, IsRun;
    states, events := RunOn(states, events, n, AddTask(1), TwoNotified(n));
  }

  /** Two firings take both the workers notified: a task stays queued while a third worker sleeps. */
  lemma PeriodicTimerDelaysTask(n: nat) returns (states: seq<Pool>, events: seq<Event>)
    requires n >= 3
    ensures IsRun(states, events, n)
    ensures var s := states[|events|]; !s.stop && s.queue == [0] && s.workers == Crew([InTimer(0), InTimer(0)], n)
    ensures !EnoughForTasks(states[|events|])
  {
    hide Step, Enabled, IsRun;
    var e, d, s := Enter(0, 0, 0, 0), Enter(1, 0, 0, 0), TwoNotified(n);
    states, events := TimerAndTask(n);
    FiresAgain(s, 0);
    states, events := RunOn(states, events, n, e, Step(s, e));
    s := Step(s, e);
    FiresAgain(s, 1);
    states, events := RunOn(states, events, n, d, Step(s, d));
    assert s.workers[1 := InTimer(0)] == Crew([InTimer(0), InTimer(0)], n);
    NotEnough(Step(s, d), 2);
  }

  // Exactly when they are.

  /** The runs of `n` workers, with periodic timers or without. */
  ghost predicate RunOf(states: seq<Pool>, events: seq<Event>, n: nat, periodic: bool)
  {
    IsRun(states, events, n) && (periodic || forall e :: e in events ==> !e.AddTimerTask?)
  }

  ghost predicate AlwaysEnough(n: nat, periodic: bool)
  {
    forall states, events :: RunOf(states, events, n, periodic) ==> Enough(states[|events|], false)
  }

  ghost predicate AlwaysEnoughForTasks(n: nat, periodic: bool)
  {
    forall states, events :: RunOf(states, events, n, periodic) ==> EnoughForTasks(states[|events|])
  }

  /** The workers at the mutex or notified are always enough exactly without periodic timers or with one worker. */
  lemma EnoughExactlyWhen(n: nat, periodic: bool)
    ensures AlwaysEnough(n, periodic) <==> !periodic || n <= 1
  {
    if !periodic || n <= 1 {
      forall states, events | RunOf(states, events, n, periodic) ensures Enough(states[|events|], false) {
        if periodic {
          RunKeepsWakeLaw(states, events, n, |events|);
          OneWorkerIsEnough(states[|events|]);
        } else {
          RunKeepsAlert(states, events, n, |events|);
        }
      }
    } else {
      var states, events := PeriodicTimerDefeatsAlert(n);
      assert RunOf(states, events, n, periodic);
    }
  }

  /** For the queued tasks alone, exactly without periodic timers or with at most two workers. */
  lemma EnoughForTasksExactlyWhen(n: nat, periodic: bool)
    ensures AlwaysEnoughForTasks(n, periodic) <==> !periodic || n <= 2
  {
    if !periodic || n <= 2 {
      forall states, events | RunOf(states, events, n, periodic) ensures EnoughForTasks(states[|events|]) {
        if periodic {
          RunKeepsWakeLaw(states, events, n, |events|);
          RunKeepsTwoLaw(states, events, n, |events|);
          TwoLawIsEnough(states[|events|]);
        } else {
          RunKeepsAlert(states, events, n, |events|);
        }
      }
    } else {
      var states, events := PeriodicTimerDelaysTask(n);
      assert RunOf(states, events, n, periodic);
    }
  }
}
