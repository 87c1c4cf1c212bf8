/**
  The ring while no push ticket is won a full lap past a pop ticket whose slot is not
  released yet; any number of producers and consumers.  A single consumer guarantees it,
  and so does a first lap.
 */
module LockFreeQueueRing {
  import opened RingIndex
  import opened LockFreeQueue

  /** The tickets won so far end within a lap of every pop that still drains. */
  ghost predicate Unlapped<V>(s: State<V>)
  {
    forall p :: s.At(p).Draining() ==> s.tail <= s.At(p).ticket + s.capacity
  }

  ghost predicate UnlappedRun<V>(states: seq<State<V>>)
  {
    forall i :: 0 <= i < |states| ==> Unlapped(states[i])
  }

  /** Push ticket `k` has been won but its slot is not published yet. */
  ghost predicate Held<V>(s: State<V>, k: nat)
    requires k < |s.issued|
  {
    var pc := s.At(s.issued[k].owner);
    pc.Filling() && pc.ticket == k
  }

  ghost predicate Published<V>(s: State<V>, k: nat)
  {
    k < |s.issued| && !Held(s, k)
  }

  /** Pop ticket `k` has been won but its slot is not released yet. */
  ghost predicate Drained<V>(s: State<V>, k: nat)
    requires k < |s.claimed|
  {
    var pc := s.At(s.claimed[k]);
    pc.Draining() && pc.ticket == k
  }

  ghost predicate Released<V>(s: State<V>, k: nat)
  {
    k < |s.claimed| && !Drained(s, k)
  }

  /** Ticket `k` sits in its slot. */
  ghost predicate Full<V>(s: State<V>, k: nat)
  {
    Published(s, k) && !Released(s, k)
  }

  /** The last `capacity` tickets won; on the first lap, the slots not used so far too. */
  ghost predicate InWindow<V>(s: State<V>, k: nat)
  {
    s.tail <= k + s.capacity && (k < s.tail || k < s.capacity)
  }

  ghost predicate RingPc<V>(s: State<V>, p: nat)
    requires WellFormed(s)
  {
    var pc := s.At(p);
    && (pc.Filling() ==> s.tail <= pc.ticket + s.capacity && !Released(s, pc.ticket))
    && (pc.PushSetReadable? ==> s.value[s.Slot(pc.ticket)] == pc.item)
    && (pc.PopReadValue? ==> Published(s, pc.ticket))
    && (pc.PopClearReadable? ==> Published(s, pc.ticket) && pc.found == s.issued[pc.ticket].item)
  }

  /** The log of the pops that are through: each released ticket once, with the value pushed under it. */
  ghost predicate TakenLaw<V>(s: State<V>)
  {
    && (forall i :: 0 <= i < |s.taken| ==>
      var k := s.taken[i].ticket;
      Released(s, k) && k < |s.issued| && s.taken[i] == Taken(s.claimed[k], k, s.issued[k].item))
    && (forall i, j :: 0 <= i < j < |s.taken| ==> s.taken[i].ticket != s.taken[j].ticket)
    && (forall k: nat :: Released(s, k) ==> exists i :: 0 <= i < |s.taken| && s.taken[i].ticket == k)
  }

  /**
    Every slot belongs to the one ticket of the window that has it: its flag tells whether
    that ticket sits in it, and if so the slot holds the ticket's value.
   */
  ghost predicate RingInv<V>(s: State<V>)
    requires Inv(s)
  {
    && (forall p :: RingPc(s, p))
    && (forall k: nat :: Released(s, k) ==> Published(s, k))
    && (forall k: nat :: InWindow(s, k) ==> s.readable[s.Slot(k)] == Full(s, k))
    && (forall k: nat :: InWindow(s, k) && Full(s, k) ==> s.value[s.Slot(k)] == s.issued[k].item)
    && TakenLaw(s)
  }

  lemma WindowSlotsDiffer<V>(s: State<V>)
    requires WellFormed(s)
    ensures forall j, k :: InWindow(s, j) && InWindow(s, k) && j != k ==> s.Slot(j) != s.Slot(k)
  {
    forall j, k | InWindow(s, j) && InWindow(s, k) && j != k
      ensures s.Slot(j) != s.Slot(k)
    {
      if j < k { SlotsDiffer(s.capacity, j, k); } else { SlotsDiffer(s.capacity, k, j); }
    }
  }

  /** A step of another thread neither publishes a ticket nor takes it back. */
  lemma OthersKeepHeld<V>(s: State<V>, s': State<V>, mover: nat, k: nat)
    requires Grows(s, s', mover) && k < |s.issued| && s.issued[k].owner != mover
    ensures k < |s'.issued| && Held(s', k) == Held(s, k)
  {
  }

  /** The mover goes on holding the ticket it holds, unless it sets the flag. */
  lemma MoverHolds<V>(s: State<V>, e: Event<V>, k: nat)
    requires Inv(s) && Enabled(s, e) && k < |s.issued|
    ensures var pc, pc' := s.At(e.tid), Step(s, e).At(e.tid);
      (pc'.Filling() && pc'.ticket == k)
        == (pc.Filling() && pc.ticket == k && !(e.action.Advance? && pc.PushSetReadable?))
  {
    hide Remainder;
    assert PcOk(s, e.tid);
  }

  lemma OwnerPublishes<V>(s: State<V>, e: Event<V>, k: nat)
    requires Inv(s) && Enabled(s, e) && k < |s.issued| && s.issued[k].owner == e.tid
    ensures k < |Step(s, e).issued|
    ensures Held(Step(s, e), k) == (Held(s, k) && !(e.action.Advance? && s.At(e.tid).PushSetReadable?))
  {
    hide Remainder, Step, Enabled;
    MoverHolds(s, e, k);
    StepGrows(s, e);
  }

  lemma NewTicketIsHeld<V>(s: State<V>, e: Event<V>, k: nat)
    requires Inv(s) && Enabled(s, e) && |s.issued| <= k < |Step(s, e).issued|
    ensures Held(Step(s, e), k)
  {
    hide Remainder;
    assert PcOk(s, e.tid);
  }

  /** A ticket changes from held to published only by its owner's flag write. */
  lemma StepPublishes<V>(s: State<V>, e: Event<V>, k: nat)
    requires Inv(s) && Enabled(s, e)
    ensures var pc := s.At(e.tid);
      var sets := e.action.Advance? && pc.PushSetReadable? && pc.ticket == k;
      Published(Step(s, e), k) == (Published(s, k) || sets)
  {
    hide Remainder, Step, Enabled;
    assert PcOk(s, e.tid);
    if k >= |s.issued| {
      if k < |Step(s, e).issued| { NewTicketIsHeld(s, e, k); }
    } else if s.issued[k].owner == e.tid {
      OwnerPublishes(s, e, k);
    } else {
      StepGrows(s, e);
      OthersKeepHeld(s, Step(s, e), e.tid, k);
    }
  }

  lemma OthersKeepDrained<V>(s: State<V>, s': State<V>, mover: nat, k: nat)
    requires Grows(s, s', mover) && k < |s.claimed| && s.claimed[k] != mover
    ensures k < |s'.claimed| && Drained(s', k) == Drained(s, k)
  {
  }

  /** The mover goes on draining the ticket it drains, unless it clears the flag. */
  lemma MoverDrains<V>(s: State<V>, e: Event<V>, k: nat)
    requires Inv(s) && Enabled(s, e) && k < |s.claimed|
    ensures var pc, pc' := s.At(e.tid), Step(s, e).At(e.tid);
      (pc'.Draining() && pc'.ticket == k)
        == (pc.Draining() && pc.ticket == k && !(e.action.Advance? && pc.PopClearReadable?))
  {
    hide Remainder;
    assert PcOk(s, e.tid);
  }

  lemma OwnerReleases<V>(s: State<V>, e: Event<V>, k: nat)
    requires Inv(s) && Enabled(s, e) && k < |s.claimed| && s.claimed[k] == e.tid
    ensures k < |Step(s, e).claimed|
    ensures Drained(Step(s, e), k) == (Drained(s, k) && !(e.action.Advance? && s.At(e.tid).PopClearReadable?))
  {
    hide Remainder, Step, Enabled;
    MoverDrains(s, e, k);
    StepGrows(s, e);
  }

  lemma NewClaimIsDrained<V>(s: State<V>, e: Event<V>, k: nat)
    requires Inv(s) && Enabled(s, e) && |s.claimed| <= k < |Step(s, e).claimed|
    ensures Drained(Step(s, e), k)
  {
    hide Remainder;
    assert PcOk(s, e.tid);
  }

  /** A ticket is released only by its claimer's clearing of the flag. */
  lemma StepReleases<V>(s: State<V>, e: Event<V>, k: nat)
    requires Inv(s) && Enabled(s, e)
    ensures var pc := s.At(e.tid);
      var clears := e.action.Advance? && pc.PopClearReadable? && pc.ticket == k;
      Released(Step(s, e), k) == (Released(s, k) || clears)
  {
    hide Remainder, Step, Enabled;
    assert PcOk(s, e.tid);
    if k >= |s.claimed| {
      if k < |Step(s, e).claimed| { NewClaimIsDrained(s, e, k); }
    } else if s.claimed[k] == e.tid {
      OwnerReleases(s, e, k);
    } else {
      StepGrows(s, e);
      OthersKeepDrained(s, Step(s, e), e.tid, k);
    }
  }

  /** A thread that owns a push or a pop ticket. */
  predicate Owning<V>(pc: Pc<V>) { pc.Filling() || pc.Draining() }

  /** Whoever owns a ticket owns one of the window. */
  lemma OwnedInWindow<V>(s: State<V>, p: nat)
    requires Inv(s) && RingInv(s) && Unlapped(s) && Owning(s.At(p))
    ensures InWindow(s, s.At(p).ticket) && s.At(p).ticket < s.tail
  {
    hide Remainder;
    assert PcOk(s, p) && RingPc(s, p);
  }

  /** What a step writes to the shared fields, and to the log of the released tickets. */
  lemma StepWrites<V>(s: State<V>, e: Event<V>)
    requires Inv(s) && Enabled(s, e)
    ensures var s', pc, inside := Step(s, e), s.At(e.tid), e.action.Advance?;
      && s'.capacity == s.capacity
      && s'.tail == (if inside && pc.PushCas? && pc.seenTail == s.tail then s.tail + 1 else s.tail)
      && s'.value == (if inside && pc.PushWriteValue? then s.value[s.Slot(pc.ticket) := pc.item] else s.value)
      && s'.readable == (if inside && pc.PushSetReadable? then s.readable[s.Slot(pc.ticket) := true]
                         else if inside && pc.PopClearReadable? then s.readable[s.Slot(pc.ticket) := false]
                         else s.readable)
      && s'.taken == (if inside && pc.PopClearReadable? then s.taken + [Taken(e.tid, pc.ticket, pc.found)]
                      else s.taken)
  {
    hide Remainder;
  }

  /** When a push ticket is won, the ticket that leaves the window has been released. */
  lemma OldestIsReleased<V>(s: State<V>, e: Event<V>)
    requires Inv(s) && RingInv(s) && Enabled(s, e) && Unlapped(Step(s, e))
    requires Step(s, e).tail == s.tail + 1 && s.tail >= s.capacity
    ensures Released(s, s.tail - s.capacity)
  {
    var k, s' := s.tail - s.capacity, Step(s, e);
    StepGrows(s, e);
    StepWrites(s, e);
    hide Step, Enabled, RingInv, Remainder;
    assert PcOk(s, e.tid);
    assert k < |s.claimed|;
    assert s'.At(s.claimed[k]) == s.At(s.claimed[k]) || s.claimed[k] == e.tid;
  }

  lemma StepKeepsFlags<V>(s: State<V>, e: Event<V>, k: nat)
    requires Inv(s) && RingInv(s) && Unlapped(s) && Enabled(s, e) && Unlapped(Step(s, e))
    requires WellFormed(Step(s, e)) && InWindow(Step(s, e), k)
    ensures var s' := Step(s, e); s'.readable[s'.Slot(k)] == Full(s', k)
  {
    var pc := s.At(e.tid);
    StepWrites(s, e);
    StepPublishes(s, e, k);
    StepReleases(s, e, k);
    if InWindow(s, k) {
      WindowSlotsDiffer(s);
      if Owning(pc) { OwnedInWindow(s, e.tid); }
      hide Step, Enabled, Remainder, Published, Released, Unlapped;
      assert RingPc(s, e.tid);
    } else {
      assert k == s.tail >= s.capacity;
      OldestIsReleased(s, e);
      assert s.Slot(k) == s.Slot(k - s.capacity) && InWindow(s, k - s.capacity);
      NewTicketIsHeld(s, e, k);
    }
  }

  lemma StepKeepsValues<V>(s: State<V>, e: Event<V>, k: nat)
    requires Inv(s) && RingInv(s) && Unlapped(s) && Enabled(s, e)
    requires WellFormed(Step(s, e)) && InWindow(Step(s, e), k) && Full(Step(s, e), k)
    ensures var s' := Step(s, e); s'.value[s'.Slot(k)] == s'.issued[k].item
  {
    var pc := s.At(e.tid);
    StepWrites(s, e);
    StepPublishes(s, e, k);
    StepReleases(s, e, k);
    StepGrows(s, e);
    WindowSlotsDiffer(s);
    if Owning(pc) { OwnedInWindow(s, e.tid); }
    hide Step, Enabled, Remainder, Unlapped;
    assert PcOk(s, e.tid) && RingPc(s, e.tid);
    assert InWindow(s, k);
  }

  lemma MoverKeepsRingPc<V>(s: State<V>, e: Event<V>)
    requires Inv(s) && RingInv(s) && Unlapped(s) && Enabled(s, e) && WellFormed(Step(s, e))
    ensures RingPc(Step(s, e), e.tid)
  {
    hide Remainder, Published, Released;
    var pc, s' := s.At(e.tid), Step(s, e);
    assert PcOk(s, e.tid) && RingPc(s, e.tid);
    if Owning(pc) {
      OwnedInWindow(s, e.tid);
      StepPublishes(s, e, pc.ticket);
      StepReleases(s, e, pc.ticket);
      if pc.Draining() { DrainingIsNotReleased(s, e.tid); }
    } else if s'.At(e.tid).Filling() {
      NewTicketIsNotReleased(s, e);
    }
  }

  lemma DrainingIsNotReleased<V>(s: State<V>, p: nat)
    requires Inv(s) && s.At(p).Draining()
    ensures !Released(s, s.At(p).ticket)
  {
    assert PcOk(s, p);
  }

  lemma NewTicketIsNotReleased<V>(s: State<V>, e: Event<V>)
    requires Inv(s) && Enabled(s, e) && !s.At(e.tid).Filling() && Step(s, e).At(e.tid).Filling()
    ensures !Released(Step(s, e), Step(s, e).At(e.tid).ticket)
  {
    hide Remainder;
    assert PcOk(s, e.tid);
  }

  lemma OtherFills<V>(s: State<V>, e: Event<V>, p: nat)
    requires Inv(s) && RingInv(s) && Unlapped(s) && Enabled(s, e) && WellFormed(Step(s, e)) && Unlapped(Step(s, e))
    requires p != e.tid && s.At(p).Filling()
    ensures RingPc(Step(s, e), p)
  {
    hide Remainder, Step, Enabled;
    var pc, mover := s.At(p), s.At(e.tid);
    StepGrows(s, e);
    StepWrites(s, e);
    StepReleases(s, e, pc.ticket);
    if Step(s, e).tail == s.tail + 1 && s.tail >= s.capacity { OldestIsReleased(s, e); }
    OwnedInWindow(s, p);
    if mover.Filling() {
      OwnedInWindow(s, e.tid);
      WindowSlotsDiffer(s);
    }
    hide Released;
    assert PcOk(s, e.tid) && RingPc(s, e.tid) && PcOk(s, p) && RingPc(s, p);
  }

  lemma OtherDrains<V>(s: State<V>, e: Event<V>, p: nat)
    requires Inv(s) && RingInv(s) && Enabled(s, e) && WellFormed(Step(s, e))
    requires p != e.tid && s.At(p).Draining()
    ensures RingPc(Step(s, e), p)
  {
    hide Remainder, Step, Enabled;
    StepGrows(s, e);
    StepPublishes(s, e, s.At(p).ticket);
    hide Published;
    assert PcOk(s, p) && RingPc(s, p);
  }

  lemma OthersKeepRingPc<V>(s: State<V>, e: Event<V>, p: nat)
    requires Inv(s) && RingInv(s) && Unlapped(s) && Enabled(s, e) && WellFormed(Step(s, e)) && Unlapped(Step(s, e))
    requires p != e.tid
    ensures RingPc(Step(s, e), p)
  {
    hide Remainder, Step, Enabled;
    if s.At(p).Draining() {
      OtherDrains(s, e, p);
    } else if s.At(p).Filling() {
      OtherFills(s, e, p);
    } else {
      StepGrows(s, e);
    }
  }

  lemma StepKeepsTakenLaw<V>(s: State<V>, e: Event<V>)
    requires Inv(s) && RingInv(s) && Enabled(s, e)
    ensures TakenLaw(Step(s, e))
  {
    var s', pc := Step(s, e), s.At(e.tid);
    StepWrites(s, e);
    StepGrows(s, e);
    hide Remainder, Step, Enabled, Published;
    assert PcOk(s, e.tid) && RingPc(s, e.tid);
    forall k: nat ensures
      Released(s', k) == (Released(s, k) || (e.action.Advance? && pc.PopClearReadable? && pc.ticket == k))
    {
      StepReleases(s, e, k);
    }
    if e.action.Advance? && pc.PopClearReadable? {
      DrainingIsNotReleased(s, e.tid);
      LogsOneMore(s, s', e.tid);
    }
  }

  lemma LogsOneMore<V>(s: State<V>, s': State<V>, p: nat)
    requires TakenLaw(s) && s.issued <= s'.issued && s.claimed <= s'.claimed
    requires var pc := s.At(p);
      && pc.PopClearReadable? && !Released(s, pc.ticket) && pc.ticket < |s.issued| && pc.ticket < |s.claimed|
      && s.claimed[pc.ticket] == p && pc.found == s.issued[pc.ticket].item
      && s'.taken == s.taken + [Taken(p, pc.ticket, pc.found)]
      && forall k: nat :: Released(s', k) == (Released(s, k) || pc.ticket == k)
    ensures TakenLaw(s')
  {
    assert forall k: nat :: Released(s, k) ==> k < |s.claimed|;
    hide Released;
    var n := |s.taken|;
    forall k: nat | Released(s', k) ensures exists i :: 0 <= i < |s'.taken| && s'.taken[i].ticket == k {
      if Released(s, k) {
        var i :| 0 <= i < n && s.taken[i].ticket == k;
        assert s'.taken[i].ticket == k;
      } else {
        assert s'.taken[n].ticket == k;
      }
    }
  }

  lemma StepKeepsReleased<V>(s: State<V>, e: Event<V>, k: nat)
    requires Inv(s) && RingInv(s) && Enabled(s, e) && Released(Step(s, e), k)
    ensures Published(Step(s, e), k)
  {
    StepReleases(s, e, k);
    StepPublishes(s, e, k);
    hide Step, Enabled, Remainder;
    assert RingPc(s, e.tid);
  }

  lemma StepKeepsRingInv<V>(s: State<V>, e: Event<V>)
    requires Inv(s) && RingInv(s) && Unlapped(s) && Enabled(s, e) && Unlapped(Step(s, e))
    ensures Inv(Step(s, e)) && RingInv(Step(s, e))
  {
    hide Step, Enabled, Unlapped, Remainder;
    var s' := Step(s, e);
    StepKeepsInv(s, e);
    StepKeepsTakenLaw(s, e);
    forall p ensures RingPc(s', p) {
      if p == e.tid { MoverKeepsRingPc(s, e); } else { OthersKeepRingPc(s, e, p); }
    }
    forall k: nat | Released(s', k) ensures Published(s', k) { StepKeepsReleased(s, e, k); }
    forall k: nat | InWindow(s', k) ensures s'.readable[s'.Slot(k)] == Full(s', k) {
      StepKeepsFlags(s, e, k);
    }
    forall k: nat | InWindow(s', k) && Full(s', k) ensures s'.value[s'.Slot(k)] == s'.issued[k].item {
      StepKeepsValues(s, e, k);
    }
  }

  lemma {:induction false} RunKeepsRingInv<V>(states: seq<State<V>>, events: seq<Event<V>>, i: nat)
    requires IsRun(states, events) && i < |states| && UnlappedRun(states)
    ensures Inv(states[i]) && RingInv(states[i])
  {
    if i > 0 {
      RunKeepsRingInv(states, events, i - 1);
      StepKeepsRingInv(states[i - 1], events[i - 1]);
    }
  }

  // ---------------------------------------------------------------------------
  // Who owns a slot
  // ---------------------------------------------------------------------------

  /** Two threads own tickets of one slot only if it is one ticket, pushed by one and popped by the other. */
  ghost predicate OneTicketPerSlot<V>(s: State<V>)
  {
    WellFormed(s) && forall p, q :: Owning(s.At(p)) && Owning(s.At(q)) && s.At(p).ticket != s.At(q).ticket ==>
      s.Slot(s.At(p).ticket) != s.Slot(s.At(q).ticket)
  }

  /** Past its spin a thread accesses the slot of its ticket without another test of the flag. */
  predicate InSlot<V>(pc: Pc<V>)
  {
    pc.PushWriteValue? || pc.PushSetReadable? || pc.PopReadValue? || pc.PopClearReadable?
  }

  lemma WindowedTicketsDiffer<V>(s: State<V>)
    requires Inv(s) && RingInv(s) && Unlapped(s)
    ensures OneTicketPerSlot(s)
  {
    WindowSlotsDiffer(s);
    hide Remainder, Unlapped, InWindow, RingInv, Inv;
    forall p, q | Owning(s.At(p)) && Owning(s.At(q)) && s.At(p).ticket != s.At(q).ticket
      ensures s.Slot(s.At(p).ticket) != s.Slot(s.At(q).ticket)
    {
      OwnedInWindow(s, p);
      OwnedInWindow(s, q);
    }
  }

  /** Mutual exclusion: no two threads are in one slot. */
  lemma OneThreadPerSlot<V>(s: State<V>, p: nat, q: nat)
    requires Inv(s) && RingInv(s) && Unlapped(s) && p != q && InSlot(s.At(p)) && InSlot(s.At(q))
    ensures s.Slot(s.At(p).ticket) != s.Slot(s.At(q).ticket)
  {
    WindowedTicketsDiffer(s);
    hide Remainder, Unlapped, Released, InWindow, Full;
    assert PcOk(s, p) && PcOk(s, q) && RingPc(s, p) && RingPc(s, q);
  }

  /** The step that first laps a draining pop wins a push ticket for the slot that pop drains. */
  lemma LappingSharesSlot<V>(s: State<V>, e: Event<V>)
    requires Inv(s) && Unlapped(s) && Enabled(s, e) && Inv(Step(s, e)) && !Unlapped(Step(s, e))
    ensures !OneTicketPerSlot(Step(s, e))
  {
    var s' := Step(s, e);
    var p :| s'.At(p).Draining() && s'.tail > s'.At(p).ticket + s'.capacity;
    StepGrows(s, e);
    StepWrites(s, e);
    assert PcOk(s', p) && PcOk(s, e.tid);
    var q, k := e.tid, s'.At(p).ticket;
    assert s'.At(q).Filling() && s'.At(q).ticket == s.tail == k + s.capacity;
    assert Remainder(s.tail, s.capacity) == Remainder(s.tail - s.capacity, s.capacity);
    assert Owning(s'.At(p)) && Owning(s'.At(q));
  }

  /**
    What the hypothesis means to the threads: no push laps a draining pop in a run
    exactly if no two tickets of one slot are ever owned at the same time.
   */
  lemma {:induction false} UnlappedExactlyWhen<V>(states: seq<State<V>>, events: seq<Event<V>>)
    requires IsRun(states, events)
    ensures UnlappedRun(states) <==> forall i :: 0 <= i < |states| ==> OneTicketPerSlot(states[i])
  {
    if UnlappedRun(states) {
      forall i | 0 <= i < |states| ensures OneTicketPerSlot(states[i]) {
        RunKeepsRingInv(states, events, i);
        WindowedTicketsDiffer(states[i]);
      }
    } else {
      var i := FirstLap(states, events);
      RunKeepsInv(states, events, i - 1);
      RunKeepsInv(states, events, i);
      LappingSharesSlot(states[i - 1], events[i - 1]);
    }
  }

  lemma FirstLap<V>(states: seq<State<V>>, events: seq<Event<V>>) returns (i: nat)
    requires IsRun(states, events) && !UnlappedRun(states)
    ensures 0 < i < |states| && Unlapped(states[i - 1]) && !Unlapped(states[i])
  {
    i := 0;
    while i < |states| && Unlapped(states[i])
      invariant i <= |states| && forall j :: 0 <= j < i ==> Unlapped(states[j])
    {
      i := i + 1;
    }
  }

  // ---------------------------------------------------------------------------
  // When no push laps a pop
  // ---------------------------------------------------------------------------

  /** At most one pop is between its compare-and-swap and its flag write. */
  ghost predicate Serial<V>(s: State<V>)
  {
    forall p, q :: s.At(p).Draining() && s.At(q).Draining() ==> p == q
  }

  ghost predicate SerialRun<V>(states: seq<State<V>>)
  {
    forall i :: 0 <= i < |states| ==> Serial(states[i])
  }

  /** Pops drain in ticket order, one at a time. */
  ghost predicate DrainLaw<V>(s: State<V>)
  {
    && |s.taken| <= s.head <= |s.taken| + 1
    && (forall p :: s.At(p).Draining() ==> s.At(p).ticket == |s.taken| && s.head == |s.taken| + 1)
    && (forall k :: 0 <= k < |s.taken| ==> s.taken[k].ticket == k)
    && (s.head == |s.taken| + 1 ==> |s.taken| < |s.claimed| && s.At(s.claimed[|s.taken|]).Draining())
  }

  /** What a step does to the pop tickets. */
  lemma StepClaims<V>(s: State<V>, e: Event<V>)
    requires Inv(s) && Enabled(s, e)
    ensures var s', pc := Step(s, e), s.At(e.tid); var pc' := s'.At(e.tid);
      var wins := e.action.Advance? && pc.PopCas? && pc.seenHead == s.head;
      && s'.head == (if wins then s.head + 1 else s.head)
      && s'.claimed == (if wins then s.claimed + [e.tid] else s.claimed)
      && (pc'.Draining() <==> wins || (pc.Draining() && !(e.action.Advance? && pc.PopClearReadable?)))
      && (pc'.Draining() ==> pc'.ticket == if wins then s.head else pc.ticket)
  {
    hide Remainder;
  }

  lemma StepKeepsDrainLaw<V>(s: State<V>, e: Event<V>)
    requires Inv(s) && DrainLaw(s) && Enabled(s, e) && Serial(Step(s, e))
    ensures DrainLaw(Step(s, e))
  {
    hide Remainder, Step, Enabled;
    var s' := Step(s, e);
    StepGrows(s, e);
    StepClaims(s, e);
    StepWrites(s, e);
    if s.head == |s.taken| + 1 {
      var q := s.claimed[|s.taken|];
      assert PcOk(s, q);
      if q != e.tid { assert s'.At(q).Draining() && !s'.At(e.tid).Draining(); }
    }
    forall p | s'.At(p).Draining() ensures s'.At(p).ticket == |s'.taken| && s'.head == |s'.taken| + 1 {
      assert PcOk(s, p) && PcOk(s, e.tid);
    }
  }

  lemma {:induction false} RunKeepsDrainLaw<V>(states: seq<State<V>>, events: seq<Event<V>>, i: nat)
    requires IsRun(states, events) && i < |states| && SerialRun(states)
    ensures Inv(states[i]) && DrainLaw(states[i])
  {
    if i > 0 {
      RunKeepsDrainLaw(states, events, i - 1);
      StepKeepsInv(states[i - 1], events[i - 1]);
      StepKeepsDrainLaw(states[i - 1], events[i - 1]);
    }
  }

  /** With pops draining one at a time, no push laps one. */
  lemma SerialIsUnlapped<V>(states: seq<State<V>>, events: seq<Event<V>>)
    requires IsRun(states, events) && SerialRun(states)
    ensures UnlappedRun(states)
  {
    forall i | 0 <= i < |states| ensures Unlapped(states[i]) {
      RunKeepsDrainLaw(states, events, i);
    }
  }

  lemma {:induction false} TailGrows<V>(states: seq<State<V>>, events: seq<Event<V>>, i: nat, j: nat)
    requires IsRun(states, events) && i <= j < |states|
    ensures states[i].tail <= states[j].tail && states[i].capacity == states[j].capacity
  {
    if i < j {
      TailGrows(states, events, i, j - 1);
      RunKeepsInv(states, events, j - 1);
      StepGrows(states[j - 1], events[j - 1]);
    }
  }

  /** On the first lap, with any number of pops draining, no push laps one. */
  lemma FirstLapIsUnlapped<V>(states: seq<State<V>>, events: seq<Event<V>>)
    requires IsRun(states, events) && states[|events|].tail <= states[0].capacity
    ensures UnlappedRun(states)
  {
    forall i | 0 <= i < |states| ensures Unlapped(states[i]) {
      TailGrows(states, events, i, |events|);
      TailGrows(states, events, 0, i);
    }
  }
}
