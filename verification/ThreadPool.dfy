/**
  The thread pool as a transition system.  One step is what a thread does while it
  holds the mutex, or one access outside it; task bodies run between two steps.  The
  clock is an input: every reading is an arbitrary integer.
 */
module ThreadPool {

  /** Counters are 64-bit and unsigned. */
  const WIDTH: nat := 0x1_0000_0000_0000_0000

  /** An armed timer: `since` is the clock value its deadline was computed from. */
  datatype Timer = Timer(id: nat, periodic: bool, timeval: int, since: int)
  {
    function Deadline(): int { timeval + since }

    /** `operator<`: reversed, so that the greatest timer of the queue is the next one due. */
    predicate Less(other: Timer) { Deadline() > other.Deadline() }
  }

  /** Where a worker stands in `process`. */
  datatype Worker =
    | AtLock               // about to take the mutex at the top of the loop
    | Asleep               // inside `cond_.wait`
    | Notified             // woken, about to take the mutex again
    | InTimer(id: nat)     // running the body of a timer
    | InTask(id: nat)      // running the body of a queued task
    | Exited
  {
    predicate InBody() { InTimer? || InTask? }
    predicate Awake() { !Asleep? && !Exited? }
  }

  /** Where the thread that calls `Stop` stands. */
  datatype Stopper = NotStopping | Polling | AboutToStop | Joining | Joined

  /** A firing: the timer, the clock value it was compared with and the one it was armed again from. */
  datatype Firing = Firing(timer: Timer, now: int, again: int)

  /**
    The fields of the pool, its threads, and logs the program does not keep.  Tasks from
    `AddTask` and `AddPriorityTask` are numbered in the order of the calls, so are timers.
   */
  datatype Pool = Pool(
    queue: seq<nat>,
    timers: seq<Timer>,
    pendingNum: nat,
    runningNum: nat,
    stop: bool,
    workers: seq<Worker>,
    stopper: Stopper,
    added: nat,
    started: seq<nat>,
    finished: seq<nat>,
    armed: seq<Timer>,
    fired: seq<Firing>)
  {
    function With(w: nat, to: Worker): Pool
      requires w < |workers|
    {
      this.(workers := workers[w := to])
    }
  }

  datatype Event =
    | AddTask(wake: nat)
    | AddPriorityTask(wake: nat)
    | AddDelayTask(timeval: int, now: int, wake: nat)
    | AddTimerTask(timeval: int, now: int, wake: nat)
    | Enter(w: nat, now: int, top: nat, again: int)
    | Finish(w: nat)
    | SpuriousWakeup(w: nat)
    | CallStop(graceful: bool)
    | PollPending
    | SetStop
    | JoinAll
  {
    predicate Adds() { AddTask? || AddPriorityTask? || AddDelayTask? || AddTimerTask? }
    predicate AddsTimer() { AddDelayTask? || AddTimerTask? }
  }

  function Start(threadNum: nat): Pool
  {
    Pool([], [], 0, 0, false, seq(threadNum, _ => AtLock), NotStopping, 0, [], [], [], [])
  }

  function Plus1(n: nat): nat { if n == WIDTH - 1 then 0 else n + 1 }

  function Minus1(n: nat): nat { if n == 0 then WIDTH - 1 else n - 1 }

  /** `notify_one` wakes some sleeping worker if there is one. */
  predicate Notifies(workers: seq<Worker>, wake: nat)
  {
    if wake < |workers| then workers[wake].Asleep? else forall w :: 0 <= w < |workers| ==> !workers[w].Asleep?
  }

  function NotifyOne(workers: seq<Worker>, wake: nat): seq<Worker>
  {
    if wake < |workers| then workers[wake := Notified] else workers
  }

  function NotifyAll(workers: seq<Worker>): seq<Worker>
  {
    seq(|workers|, w requires 0 <= w < |workers| => if workers[w].Asleep? then Notified else workers[w])
  }

  /** `timer_queue_.top()`: no other timer is greater. */
  predicate IsTop(timers: seq<Timer>, top: nat)
  {
    top < |timers| && forall i :: 0 <= i < |timers| ==> !timers[top].Less(timers[i])
  }

  /** The mutex is taken in this step by a worker at the top of its loop. */
  predicate MayEnter(worker: Worker) { worker.AtLock? || worker.Notified? }

  predicate Enabled(s: Pool, e: Event)
  {
    match e
    case AddTask(wake) => Notifies(s.workers, wake)
    case AddPriorityTask(wake) => Notifies(s.workers, wake)
    case AddDelayTask(_, _, wake) => Notifies(s.workers, wake)
    case AddTimerTask(_, _, wake) => Notifies(s.workers, wake)
    case Enter(w, _, top, _) =>
      w < |s.workers| && MayEnter(s.workers[w]) && (s.timers != [] ==> IsTop(s.timers, top))
    case Finish(w) => w < |s.workers| && s.workers[w].InBody()
    case SpuriousWakeup(w) => w < |s.workers| && s.workers[w].Asleep?
    case CallStop(_) => s.stopper.NotStopping?
    case PollPending => s.stopper.Polling?
    case SetStop => s.stopper.AboutToStop?
    case JoinAll => s.stopper.Joining? && forall w :: 0 <= w < |s.workers| ==> s.workers[w].Exited?
  }

  function Arm(s: Pool, periodic: bool, timeval: int, now: int, wake: nat): Pool
  {
    var timer := Timer(|s.armed|, periodic, timeval, now);
    s.(timers := s.timers + [timer], armed := s.armed + [timer], workers := NotifyOne(s.workers, wake))
  }

  /** The worker takes the first task of the deque and leaves the mutex to run it. */
  function StartTask(s: Pool, w: nat): Pool
    requires w < |s.workers| && s.queue != []
  {
    s.With(w, InTask(s.queue[0])).(
      queue := s.queue[1..], started := s.started + [s.queue[0]],
      pendingNum := Minus1(s.pendingNum), runningNum := Plus1(s.runningNum))
  }

  /** The worker takes the due timer at `top`, arms it again if it is periodic, and runs it. */
  function Fire(s: Pool, w: nat, now: int, top: nat, again: int): Pool
    requires w < |s.workers| && top < |s.timers|
  {
    var timer := s.timers[top];
    var rest := s.timers[..top] + s.timers[top + 1..];
    s.With(w, InTimer(timer.id)).(
      timers := if timer.periodic then rest + [timer.(since := again)] else rest,
      fired := s.fired + [Firing(timer, now, again)],
      pendingNum := Minus1(s.pendingNum), runningNum := Plus1(s.runningNum))
  }

  /** One turn of the loop of `process` up to the next task body, wait or end. */
  function EnterLoop(s: Pool, w: nat, now: int, top: nat, again: int): Pool
    requires Enabled(s, Enter(w, now, top, again))
  {
    if s.timers == [] && s.queue == [] && !s.stop then s.With(w, Asleep)
    else if s.stop then s.With(w, Exited)
    else if s.timers != [] && s.timers[top].Deadline() <= now then Fire(s, w, now, top, again)
    else if s.queue != [] then StartTask(s, w)
    else s.With(w, AtLock)
  }

  /** The worker takes the mutex again after a body; after a timer it looks at the deque at once. */
  function FinishBody(s: Pool, w: nat): Pool
    requires Enabled(s, Finish(w))
  {
    var done := s.With(w, AtLock).(runningNum := Minus1(s.runningNum));
    if s.workers[w].InTask? then done.(finished := s.finished + [s.workers[w].id])
    else if s.queue != [] then StartTask(done, w)
    else done
  }

  function Step(s: Pool, e: Event): Pool
    requires Enabled(s, e)
  {
    match e
    case AddTask(wake) =>
      s.(queue := s.queue + [s.added], added := s.added + 1, pendingNum := Plus1(s.pendingNum),
         workers := NotifyOne(s.workers, wake))
    case AddPriorityTask(wake) =>
      s.(queue := [s.added] + s.queue, added := s.added + 1, pendingNum := Plus1(s.pendingNum),
         workers := NotifyOne(s.workers, wake))
    case AddDelayTask(timeval, now, wake) => Arm(s, false, timeval, now, wake)
    case AddTimerTask(timeval, now, wake) => Arm(s, true, timeval, now, wake)
    case Enter(w, now, top, again) => EnterLoop(s, w, now, top, again)
    case Finish(w) => FinishBody(s, w)
    case SpuriousWakeup(w) => s.With(w, Notified)
    case CallStop(graceful) => s.(stopper := if graceful then Polling else AboutToStop)
    case PollPending => if s.pendingNum == 0 then s.(stopper := AboutToStop) else s
    case SetStop => s.(stop := true, workers := NotifyAll(s.workers), stopper := Joining)
    case JoinAll => s.(pendingNum := 0, runningNum := 0, stopper := Joined)
  }

  /** A run of a pool with `threadNum` workers. */
  ghost predicate IsRun(states: seq<Pool>, events: seq<Event>, threadNum: nat)
  {
    && |states| == |events| + 1
    && states[0] == Start(threadNum)
    && forall i :: 0 <= i < |events| ==> Enabled(states[i], events[i]) && states[i + 1] == Step(states[i], events[i])
  }
}
