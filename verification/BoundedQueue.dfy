/**
  The specification of the ring: a first-in first-out queue of bounded length on which
  every push and every pop takes effect in one step between its call and its return.
 */
module BoundedQueue {
  import opened Basics
  import opened LockFreeQueue

  /** A call in progress: still to take effect, or done and about to return. */
  datatype Call<V> =
    | Pushing(item: V)
    | Pushed(item: V, accepted: bool)
    | Popping
    | Popped(result: Option<V>)

  datatype Queue<V> = Queue(bound: nat, items: seq<V>, calls: map<nat, Call<V>>)

  ghost predicate Pending<V>(q: Queue<V>, p: nat)
  {
    p in q.calls && (q.calls[p].Pushing? || q.calls[p].Popping?)
  }

  /** The one step in which the call of thread `p` takes effect. */
  function Perform<V>(q: Queue<V>, p: nat): Queue<V>
    requires Pending(q, p)
  {
    match q.calls[p]
    case Pushing(item) =>
      if |q.items| == q.bound then q.(calls := q.calls[p := Pushed(item, false)])
      else q.(items := q.items + [item], calls := q.calls[p := Pushed(item, true)])
    case Popping =>
      if q.items == [] then q.(calls := q.calls[p := Popped(None)])
      else q.(items := q.items[1..], calls := q.calls[p := Popped(Some(q.items[0]))])
  }

  /** Event `e` leads from `q` to `q'`; inside a call nothing visible may happen, or its effect. */
  ghost predicate Next<V>(q: Queue<V>, e: Event<V>, q': Queue<V>)
  {
    match e.action
    case CallPush(item) => e.tid !in q.calls && q' == q.(calls := q.calls[e.tid := Pushing(item)])
    case CallPop => e.tid !in q.calls && q' == q.(calls := q.calls[e.tid := Popping])
    case Return =>
      && e.tid in q.calls && !Pending(q, e.tid)
      && q' == q.(calls := q.calls - {e.tid})
    case Advance => e.tid in q.calls && (q' == q || (Pending(q, e.tid) && q' == Perform(q, e.tid)))
  }

  /** A run of a queue that starts empty. */
  ghost predicate IsRun<V>(queues: seq<Queue<V>>, events: seq<Event<V>>)
  {
    && |queues| == |events| + 1
    && queues[0] == Queue(queues[0].bound, [], map[])
    && forall i :: 0 <= i < |events| ==> Next(queues[i], events[i], queues[i + 1])
  }
}
