/** In which order tasks start, with priority tasks among them. */
module ThreadPoolOrder {
  import opened ThreadPool
  import opened ThreadPoolLaws

  /** All tasks added so far, in the order they were started and will be. */
  ghost function Order(s: Pool): seq<nat> { s.started + s.queue }

  ghost predicate Ahead(all: seq<nat>, x: nat, y: nat)
  {
    exists i, j :: 0 <= i < j < |all| && all[i] == x && all[j] == y
  }

  lemma InsertKeepsAhead(a: seq<nat>, b: seq<nat>, z: nat, x: nat, y: nat)
    requires Ahead(a + b, x, y)
    ensures Ahead(a + [z] + b, x, y)
  {
    var before, after := a + b, a + [z] + b;
    var i, j :| 0 <= i < j < |before| && before[i] == x && before[j] == y;
    var i', j' := if i < |a| then i else i + 1, if j < |a| then j else j + 1;
    assert after[i'] == x && after[j'] == y;
  }

  lemma StepKeepsAhead(s: Pool, e: Event, x: nat, y: nat)
    requires Enabled(s, e) && Ahead(Order(s), x, y)
    ensures Ahead(Order(Step(s, e)), x, y)
  {
    StepKeepsOrder(s, e);
    hide Step, Ahead;
    if e.AddTask? {
      assert Order(s) + [] == Order(s) && Order(s) + [s.added] + [] == Order(s) + [s.added];
      InsertKeepsAhead(Order(s), [], s.added, x, y);
    } else if e.AddPriorityTask? {
      InsertKeepsAhead(s.started, s.queue, s.added, x, y);
    }
  }

  /** Of two tasks the one that is ahead stays ahead, whatever is added later. */
  lemma {:induction false} OrderIsKept(states: seq<Pool>, events: seq<Event>, threadNum: nat, i: nat, j: nat, x: nat,
                                       y: nat)
    requires IsRun(states, events, threadNum) && i <= j < |states| && Ahead(Order(states[i]), x, y)
    ensures Ahead(Order(states[j]), x, y)
  {
    if i < j {
      OrderIsKept(states, events, threadNum, i, j - 1, x, y);
      StepKeepsAhead(states[j - 1], events[j - 1], x, y);
    }
  }

  /** The task ahead has started first. */
  lemma StartsFirst(s: Pool, x: nat, y: nat)
    requires QueueLaw(s) && Ahead(Order(s), x, y) && y in s.started
    ensures Ahead(s.started, x, y)
  {
    var all := Order(s);
    var i, j :| 0 <= i < j < |all| && all[i] == x && all[j] == y;
    var k :| 0 <= k < |s.started| && s.started[k] == y;
    assert all[k] == y;
    assert k == j;
    assert s.started[i] == x && s.started[j] == y;
  }

  /** A task added by `AddTask` starts after every task that was queued then. */
  lemma TaskStartsAfterQueued(states: seq<Pool>, events: seq<Event>, threadNum: nat, k: nat, i: nat, x: nat)
    requires IsRun(states, events, threadNum) && k < i < |states| && events[k].AddTask?
    requires x in states[k].queue && states[k].added in states[i].started
    ensures Ahead(states[i].started, x, states[k].added)
  {
    var s, id := states[k], states[k].added;
    var j :| 0 <= j < |s.queue| && s.queue[j] == x;
    StepKeepsOrder(s, events[k]);
    var all := Order(states[k + 1]);
    assert all[|s.started| + j] == x && all[|all| - 1] == id;
    OrderIsKept(states, events, threadNum, k + 1, i, x, id);
    RunKeepsTasks(states, events, threadNum, i);
    StartsFirst(states[i], x, id);
  }

  /** A task added by `AddPriorityTask` starts before every task that was queued then. */
  lemma PriorityTaskStartsBeforeQueued(states: seq<Pool>, events: seq<Event>, threadNum: nat, k: nat, i: nat, x: nat)
    requires IsRun(states, events, threadNum) && k < i < |states| && events[k].AddPriorityTask?
    requires x in states[k].queue && x in states[i].started
    ensures Ahead(states[i].started, states[k].added, x)
  {
    var s, id := states[k], states[k].added;
    var j :| 0 <= j < |s.queue| && s.queue[j] == x;
    StepKeepsOrder(s, events[k]);
    var all := Order(states[k + 1]);
    assert all[|s.started|] == id && all[|s.started| + 1 + j] == x;
    OrderIsKept(states, events, threadNum, k + 1, i, id, x);
    RunKeepsTasks(states, events, threadNum, i);
    StartsFirst(states[i], id, x);
  }
}
