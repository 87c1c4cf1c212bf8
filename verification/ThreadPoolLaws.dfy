/** What every reachable state of the thread pool keeps. */
module ThreadPoolLaws {
  import opened ThreadPool

  /** A run goes on with one more step. */
  lemma RunOn(states: seq<Pool>, events: seq<Event>, threadNum: nat, e: Event, t: Pool)
    returns (states': seq<Pool>, events': seq<Event>)
    requires IsRun(states, events, threadNum) && Enabled(states[|events|], e) && Step(states[|events|], e) == t
    ensures events' == events + [e] && states' == states + [t] && IsRun(states', events', threadNum)
  {
    states', events' := states + [t], events + [e];
  }

  // ---------------------------------------------------------------------------
  // Counters
  // ---------------------------------------------------------------------------

  /** How many workers satisfy `f`. */
  ghost function Num(workers: seq<Worker>, f: Worker -> bool): (n: nat)
    ensures n <= |workers|
  {
    if workers == [] then 0
    else Num(workers[..|workers| - 1], f) + if f(workers[|workers| - 1]) then 1 else 0
  }

  lemma {:induction false} NumUpdate(workers: seq<Worker>, f: Worker -> bool, w: nat, to: Worker)
    requires w < |workers|
    ensures Num(workers[w := to], f) ==
      Num(workers, f) - (if f(workers[w]) then 1 else 0) + if f(to) then 1 else 0
  {
    var n := |workers| - 1;
    if w == n {
      assert workers[w := to][..n] == workers[..n];
    } else {
      assert workers[w := to][..n] == workers[..n][w := to];
      NumUpdate(workers[..n], f, w, to);
    }
  }

  lemma {:induction false} NumSame(workers: seq<Worker>, others: seq<Worker>, f: Worker -> bool)
    requires |workers| == |others| && forall w :: 0 <= w < |workers| ==> f(workers[w]) == f(others[w])
    ensures Num(workers, f) == Num(others, f)
  {
    if workers != [] {
      NumSame(workers[..|workers| - 1], others[..|others| - 1], f);
    }
  }

  const InBody: Worker -> bool := (worker: Worker) => worker.InBody()
  const InTaskBody: Worker -> bool := (worker: Worker) => worker.InTask?

  /**
    Tasks added are queued, running or finished; `running_num_` counts the workers in a
    body; `pending_num_` is the length of the deque less the firings, modulo 2^64.
   */
  ghost predicate CounterLaw(s: Pool)
  {
    && |s.workers| < WIDTH
    && s.added == |s.queue| + Num(s.workers, InTaskBody) + |s.finished|
    && |s.started| == Num(s.workers, InTaskBody) + |s.finished|
    && (!s.stopper.Joined? ==>
      && s.runningNum == Num(s.workers, InBody)
      && s.pendingNum < WIDTH
      && (s.pendingNum + |s.fired| - |s.queue|) % WIDTH == 0)
  }

  lemma NotifyKeepsNum(workers: seq<Worker>, wake: nat, f: Worker -> bool)
    requires Notifies(workers, wake) && f(Asleep) == f(Notified)
    ensures Num(NotifyOne(workers, wake), f) == Num(workers, f) && |NotifyOne(workers, wake)| == |workers|
  {
    if wake < |workers| { NumUpdate(workers, f, wake, Notified); }
  }

  lemma StartTaskKeepsCounters(s: Pool, w: nat)
    requires CounterLaw(s) && w < |s.workers| && s.queue != [] && !s.workers[w].InBody()
    ensures CounterLaw(StartTask(s, w))
  {
    NumUpdate(s.workers, InBody, w, InTask(s.queue[0]));
    NumUpdate(s.workers, InTaskBody, w, InTask(s.queue[0]));
  }

  lemma MoveKeepsCounters(s: Pool, w: nat, to: Worker)
    requires CounterLaw(s) && w < |s.workers| && !s.workers[w].InBody() && !to.InBody()
    ensures CounterLaw(s.With(w, to))
  {
    NumUpdate(s.workers, InBody, w, to);
    NumUpdate(s.workers, InTaskBody, w, to);
  }

  lemma FireKeepsCounters(s: Pool, w: nat, now: int, top: nat, again: int)
    requires CounterLaw(s) && w < |s.workers| && top < |s.timers| && !s.workers[w].InBody()
    ensures CounterLaw(Fire(s, w, now, top, again))
  {
    NumUpdate(s.workers, InBody, w, InTimer(s.timers[top].id));
    NumUpdate(s.workers, InTaskBody, w, InTimer(s.timers[top].id));
  }

  lemma EnterKeepsCounters(s: Pool, w: nat, now: int, top: nat, again: int)
    requires CounterLaw(s) && Enabled(s, Enter(w, now, top, again))
    ensures CounterLaw(EnterLoop(s, w, now, top, again))
  {
    var s' := EnterLoop(s, w, now, top, again);
    if s.timers == [] && s.queue == [] && !s.stop {
      MoveKeepsCounters(s, w, Asleep);
    } else if s.stop {
      MoveKeepsCounters(s, w, Exited);
    } else if s.timers != [] && s.timers[top].Deadline() <= now {
      FireKeepsCounters(s, w, now, top, again);
    } else if s.queue != [] {
      StartTaskKeepsCounters(s, w);
    } else {
      MoveKeepsCounters(s, w, AtLock);
    }
  }

  lemma FinishKeepsCounters(s: Pool, w: nat)
    requires CounterLaw(s) && Enabled(s, Finish(w))
    ensures CounterLaw(FinishBody(s, w))
  {
    NumUpdate(s.workers, InBody, w, AtLock);
    NumUpdate(s.workers, InTaskBody, w, AtLock);
    var done := s.With(w, AtLock).(runningNum := Minus1(s.runningNum));
    if s.workers[w].InTimer? {
      assert CounterLaw(done);
      if s.queue != [] { StartTaskKeepsCounters(done, w); }
    }
  }

  lemma OneMorePending(pending: nat, rest: int)
    requires pending < WIDTH && (pending + rest) % WIDTH == 0
    ensures Plus1(pending) < WIDTH && (Plus1(pending) + rest - 1) % WIDTH == 0
  {
  }

  lemma AddKeepsCounters(s: Pool, e: Event)
    requires CounterLaw(s) && Enabled(s, e) && e.Adds()
    ensures CounterLaw(Step(s, e))
  {
    hide Plus1, NotifyOne, Notifies, Num;
    NotifyKeepsNum(s.workers, e.wake, InBody);
    NotifyKeepsNum(s.workers, e.wake, InTaskBody);
    if !s.stopper.Joined? && !e.AddsTimer() { OneMorePending(s.pendingNum, |s.fired| - |s.queue|); }
  }

  lemma StepKeepsCounters(s: Pool, e: Event)
    requires CounterLaw(s) && Enabled(s, e)
    ensures CounterLaw(Step(s, e))
  {
    match e
    case Enter(w, now, top, again) => EnterKeepsCounters(s, w, now, top, again);
    case Finish(w) => FinishKeepsCounters(s, w);
    case SpuriousWakeup(w) => MoveKeepsCounters(s, w, Notified);
    case SetStop =>
      NumSame(s.workers, NotifyAll(s.workers), InBody);
      NumSame(s.workers, NotifyAll(s.workers), InTaskBody);
    case CallStop(_) =>
    case PollPending =>
    case JoinAll =>
    case _ => AddKeepsCounters(s, e);
  }

  lemma {:induction false} NumOfNone(workers: seq<Worker>, f: Worker -> bool)
    requires forall w :: 0 <= w < |workers| ==> !f(workers[w])
    ensures Num(workers, f) == 0
  {
    if workers != [] { NumOfNone(workers[..|workers| - 1], f); }
  }

  /** Conservation at every point of every run. */
  lemma {:induction false} RunKeepsCounters(states: seq<Pool>, events: seq<Event>, threadNum: nat, i: nat)
    requires IsRun(states, events, threadNum) && threadNum < WIDTH && i < |states|
    ensures CounterLaw(states[i])
  {
    if i == 0 {
      NumOfNone(states[0].workers, InBody);
      NumOfNone(states[0].workers, InTaskBody);
    } else {
      RunKeepsCounters(states, events, threadNum, i - 1);
      StepKeepsCounters(states[i - 1], events[i - 1]);
    }
  }

  // ---------------------------------------------------------------------------
  // Every task once, in order
  // ---------------------------------------------------------------------------

  ghost predicate NoDuplicates(s: seq<nat>)
  {
    forall i, j :: 0 <= i < j < |s| ==> s[i] != s[j]
  }

  /** Started tasks come before queued ones, and together they are all tasks added, each once. */
  ghost predicate QueueLaw(s: Pool)
  {
    && NoDuplicates(s.started + s.queue)
    && |s.started + s.queue| == s.added
    && forall id: nat :: id in s.started + s.queue <==> id < s.added
  }

  lemma StepKeepsOrder(s: Pool, e: Event)
    requires Enabled(s, e)
    ensures var s' := Step(s, e);
      s'.started + s'.queue == match e
        case AddTask(_) => s.started + s.queue + [s.added]
        case AddPriorityTask(_) => s.started + [s.added] + s.queue
        case _ => s.started + s.queue
  {
  }

  lemma InsertFresh(a: seq<nat>, b: seq<nat>, x: nat)
    requires NoDuplicates(a + b) && x !in a + b
    ensures NoDuplicates(a + [x] + b)
    ensures forall id: nat :: id in a + [x] + b <==> id in a + b || id == x
  {
    var before, after := a + b, a + [x] + b;
    forall i | 0 <= i < |after| && i != |a| ensures after[i] == before[if i < |a| then i else i - 1] {}
  }

  lemma StepKeepsQueueLaw(s: Pool, e: Event)
    requires QueueLaw(s) && Enabled(s, e)
    ensures QueueLaw(Step(s, e))
  {
    StepKeepsOrder(s, e);
    if e.AddTask? {
      InsertFresh(s.started + s.queue, [], s.added);
      assert s.started + s.queue + [] == s.started + s.queue;
      assert s.started + s.queue + [s.added] + [] == s.started + s.queue + [s.added];
    } else if e.AddPriorityTask? {
      InsertFresh(s.started, s.queue, s.added);
    }
  }

  ghost predicate Runs(s: Pool, id: nat)
  {
    exists w :: 0 <= w < |s.workers| && s.workers[w] == InTask(id)
  }

  /** A task body is run by one worker, once, after its start. */
  ghost predicate BodyLaw(s: Pool)
  {
    && NoDuplicates(s.finished)
    && (forall id: nat :: id in s.finished ==> id in s.started)
    && (forall w :: 0 <= w < |s.workers| && s.workers[w].InTask? ==>
      s.workers[w].id in s.started && s.workers[w].id !in s.finished)
    && (forall v, w :: 0 <= v < w < |s.workers| && s.workers[v].InTask? && s.workers[w].InTask? ==>
      s.workers[v].id != s.workers[w].id)
    && (forall id: nat :: id in s.started && id !in s.finished ==> Runs(s, id))
  }

  lemma StartTaskKeepsBodies(s: Pool, w: nat)
    requires BodyLaw(s) && QueueLaw(s) && w < |s.workers| && s.queue != [] && !s.workers[w].InTask?
    ensures BodyLaw(StartTask(s, w))
  {
    var s', id := StartTask(s, w), s.queue[0];
    assert id !in s.started by {
      assert (s.started + s.queue)[|s.started|] == id;
      assert forall i :: 0 <= i < |s.started| ==> (s.started + s.queue)[i] == s.started[i];
    }
    assert s'.workers[w] == InTask(id);
    KeptRunners(s, s');
  }

  lemma KeptRunners(s: Pool, s': Pool)
    requires |s.workers| == |s'.workers|
    requires forall v :: 0 <= v < |s.workers| && s.workers[v].InTask? ==> s'.workers[v] == s.workers[v]
    ensures forall id: nat :: Runs(s, id) ==> Runs(s', id)
  {
    forall id: nat | Runs(s, id) ensures Runs(s', id) {
      var v :| 0 <= v < |s.workers| && s.workers[v] == InTask(id);
      assert s'.workers[v] == InTask(id);
    }
  }

  /** Workers that run no task may move as they like. */
  lemma MovesKeepBodies(s: Pool, s': Pool)
    requires BodyLaw(s) && |s.workers| == |s'.workers|
    requires forall v :: 0 <= v < |s.workers| ==>
      s'.workers[v] == s.workers[v] || (!s.workers[v].InTask? && !s'.workers[v].InTask?)
    requires s'.started == s.started && s'.finished == s.finished
    ensures BodyLaw(s')
  {
    KeptRunners(s, s');
  }

  lemma EndTaskKeepsBodies(s: Pool, w: nat)
    requires BodyLaw(s) && w < |s.workers| && s.workers[w].InTask?
    ensures BodyLaw(FinishBody(s, w))
  {
    var s', done := FinishBody(s, w), s.workers[w].id;
    forall id: nat | id in s'.started && id !in s'.finished ensures Runs(s', id) {
      assert Runs(s, id) && id != done;
      var v :| 0 <= v < |s.workers| && s.workers[v] == InTask(id);
      assert s'.workers[v] == InTask(id);
    }
  }

  lemma EnterKeepsBodies(s: Pool, w: nat, now: int, top: nat, again: int)
    requires BodyLaw(s) && QueueLaw(s) && Enabled(s, Enter(w, now, top, again))
    ensures BodyLaw(EnterLoop(s, w, now, top, again))
  {
    var s' := EnterLoop(s, w, now, top, again);
    if s'.started == s.started {
      MovesKeepBodies(s, s');
    } else {
      StartTaskKeepsBodies(s, w);
    }
  }

  lemma FinishKeepsBodies(s: Pool, w: nat)
    requires BodyLaw(s) && QueueLaw(s) && Enabled(s, Finish(w))
    ensures BodyLaw(FinishBody(s, w))
  {
    if s.workers[w].InTask? {
      EndTaskKeepsBodies(s, w);
    } else {
      var done := s.With(w, AtLock).(runningNum := Minus1(s.runningNum));
      MovesKeepBodies(s, done);
      if s.queue != [] { StartTaskKeepsBodies(done, w); }
    }
  }

  lemma StepKeepsBodies(s: Pool, e: Event)
    requires BodyLaw(s) && QueueLaw(s) && Enabled(s, e)
    ensures BodyLaw(Step(s, e))
  {
    match e
    case Enter(w, now, top, again) => EnterKeepsBodies(s, w, now, top, again);
    case Finish(w) => FinishKeepsBodies(s, w);
    case _ => MovesKeepBodies(s, Step(s, e));
  }

  lemma {:induction false} RunKeepsTasks(states: seq<Pool>, events: seq<Event>, threadNum: nat, i: nat)
    requires IsRun(states, events, threadNum) && i < |states|
    ensures QueueLaw(states[i]) && BodyLaw(states[i])
  {
    if i == 0 {
      assert states[0].started + states[0].queue == [];
    } else {
      RunKeepsTasks(states, events, threadNum, i - 1);
      StepKeepsQueueLaw(states[i - 1], events[i - 1]);
      StepKeepsBodies(states[i - 1], events[i - 1]);
    }
  }

  /** A step starts no task, or the one at the front of the deque. */
  lemma TasksStartFromFront(s: Pool, e: Event)
    requires Enabled(s, e)
    ensures var s' := Step(s, e);
      s'.started == s.started || (s.queue != [] && s'.started == s.started + [s.queue[0]] && s'.queue == s.queue[1..])
  {
  }

  /** Every start of a run took the task at the front of the deque. */
  lemma {:induction false} EveryStartWasFromFront(states: seq<Pool>, events: seq<Event>, threadNum: nat, n: nat, j: nat)
    returns (k: nat)
    requires IsRun(states, events, threadNum) && n < |states| && j < |states[n].started|
    ensures k < n && |states[k].started| == j && states[k].queue != [] && states[k].queue[0] == states[n].started[j]
  {
    assert n > 0;
    TasksStartFromFront(states[n - 1], events[n - 1]);
    if j < |states[n - 1].started| {
      k := EveryStartWasFromFront(states, events, threadNum, n - 1, j);
      assert states[n].started[j] == states[n - 1].started[j];
    } else {
      k := n - 1;
    }
  }

  /** Without priority tasks, tasks start in the order they were added. */
  lemma {:induction false} StartsInOrder(states: seq<Pool>, events: seq<Event>, threadNum: nat, i: nat)
    requires IsRun(states, events, threadNum) && i < |states|
    requires forall j :: 0 <= j < i ==> !events[j].AddPriorityTask?
    ensures forall k :: 0 <= k < |states[i].started| ==> states[i].started[k] == k
    ensures forall k :: 0 <= k < |states[i].queue| ==> states[i].queue[k] == |states[i].started| + k
  {
    InOrder(states, events, threadNum, i);
    var s := states[i];
    forall k | 0 <= k < |s.started| ensures s.started[k] == k {
      assert (s.started + s.queue)[k] == s.started[k];
    }
    forall k | 0 <= k < |s.queue| ensures s.queue[k] == |s.started| + k {
      assert (s.started + s.queue)[|s.started| + k] == s.queue[k];
    }
  }

  lemma {:induction false} InOrder(states: seq<Pool>, events: seq<Event>, threadNum: nat, i: nat)
    requires IsRun(states, events, threadNum) && i < |states|
    requires forall j :: 0 <= j < i ==> !events[j].AddPriorityTask?
    ensures var all := states[i].started + states[i].queue;
      |all| == states[i].added && forall k :: 0 <= k < |all| ==> all[k] == k
  {
    if i > 0 {
      InOrder(states, events, threadNum, i - 1);
      StepKeepsOrder(states[i - 1], events[i - 1]);
    }
  }
}
