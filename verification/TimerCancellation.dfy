/** When cancelling a timer works (muduo/net/TimerQueue.cc): exactly when the loop has inserted the timer. */
module TimerCancellation {
  import opened Machines
  import opened TimerQueues

  /** No callback of the timer was run in a batch later than this one. */
  predicate RanOnlyBy(s: State, sequence: nat, batchNo: nat) {
    s.State? && forall i :: 0 <= i < |s.calls| && s.calls[i].sequence == sequence ==> s.calls[i].batchNo <= batchNo
  }

  ghost predicate NeverRunsAgain(s: State, sequence: nat, batchNo: nat) {
    forall steps | Run(Next, s, steps).Some? :: RanOnlyBy(Run(Next, s, steps).value, sequence, batchNo)
  }

  /** The timer is in the ordered set. */
  predicate Waits(s: State, a: Addr, t: Timer) {
    s.State? && a in s.heap && s.heap[a] == t && a in Addrs(s.timers)
  }

  lemma InvIsState(s: State)
    requires Inv(s)
    ensures s.State? && Core(s) && (if s.calling then s.ran <= |s.batch| else s.batch == [])
  {
  }

  lemma Then(s: State, a: Step, steps: seq<Step>)
    requires Next(s, a).Some? && Run(Next, Next(s, a).value, steps).Some?
    ensures Run(Next, s, [a] + steps) == Run(Next, Next(s, a).value, steps)
  {
    hide Next;
    assert ([a] + steps)[1..] == steps;
  }

  // From the insertion to the batch.

  lemma AddWaits(s: State, a: Addr)
    requires Inv(s) && s.State? && a in s.pending
    ensures a in s.heap && Inv(Apply(s, Add(a))) && Waits(Apply(s, Add(a)), a, s.heap[a])
    ensures Apply(s, Add(a)).batchNo == s.batchNo
  {
    AddKeeps(s, a);
    LooseWhenAdded(s, a);
    InsertKeeps(s.(pending := s.pending - {a}), a);
    hide Inv, Insert, Placed, PlacedBut, Indexed;
  }

  /** Restarting and deleting the timers of a batch leaves those that wait. */
  lemma ResetOneLeaves(s: State, a: Addr, t: Timer)
    requires Core(s) && s.State? && s.batch != [] && Waits(s, a, t)
    ensures Core(ResetOne(s)) && Waits(ResetOne(s), a, t)
    ensures var z := ResetOne(s); z.batch == s.batch[1..] && z.calling == s.calling && z.batchNo == s.batchNo
  {
    ResetOneKeeps(s);
    ResetUnfolds(s);
    FirstOfBatch(s);
    var b := s.batch[0].addr;
    var u := s.(batch := s.batch[1..], heap := s.heap[b := s.heap[b].(expiration := s.readAt + s.heap[b].delta)]);
    if s.heap[b].repeat && Key(s, b) !in s.canceling {
      InsertKeeps(u, b);
    }
    hide Core, Insert, PlacedBut, Indexed;
  }

  lemma {:induction false} ResetLeaves(s: State, a: Addr, t: Timer)
    requires Core(s) && s.State? && !s.calling && Waits(s, a, t)
    ensures Inv(Reset(s)) && Waits(Reset(s), a, t) && !Reset(s).calling && Reset(s).batchNo == s.batchNo
    decreases |s.batch|
  {
    ResetKeeps(s);
    hide Core, Inv, ResetOne;
    if s.batch != [] {
      ResetOneLeaves(s, a, t);
      ResetLeaves(ResetOne(s), a, t);
    }
  }

  /** The batch at hand runs to its end, and the timer goes on waiting. */
  lemma {:induction false} FinishBatch(s: State, a: Addr, t: Timer) returns (steps: seq<Step>)
    requires Inv(s) && s.State? && Waits(s, a, t)
    ensures Run(Next, s, steps).Some?
    ensures var z := Run(Next, s, steps).value; Inv(z) && Waits(z, a, t) && !z.calling && z.batchNo == s.batchNo
    decreases if s.calling then |s.batch| - s.ran else 0
  {
    hide Inv, Reset, Run, Waits;
    if !s.calling {
      steps := [];
      NoSteps(s);
    } else if s.ran < |s.batch| {
      NextInBatch(s);
      StillWaits(s, a, t);
      var more := FinishBatch(Apply(s, RunNext), a, t);
      Then(s, RunNext, more);
      steps := [RunNext] + more;
    } else {
      InvIsState(s);
      MayEnd(s);
      EndLeaves(s, a, t);
      steps := [EndRead];
      OneStep(Next, s, EndRead);
    }
  }

  lemma NoSteps(s: State)
    ensures Run(Next, s, []) == Some(s)
  {
  }

  lemma StillWaits(s: State, a: Addr, t: Timer)
    requires Waits(s, a, t) && Enabled(s, RunNext) && Apply(s, RunNext).State?
    ensures Waits(Apply(s, RunNext), a, t)
  {
  }

  lemma WaitsStill(s: State, a: Addr, t: Timer)
    requires Waits(s, a, t)
    ensures Waits(s.(calling := false), a, t)
  {
  }

  lemma EndLeaves(s: State, a: Addr, t: Timer)
    requires Inv(s) && s.State? && Waits(s, a, t) && Enabled(s, EndRead)
    ensures var z := Apply(s, EndRead); Inv(z) && Waits(z, a, t) && !z.calling && z.batchNo == s.batchNo
  {
    hide Inv, Core, Reset, Waits;
    InvIsState(s);
    NotCalling(s);
    WaitsStill(s, a, t);
    ResetLeaves(s.(calling := false), a, t);
  }

  /** When its time has come the timer is in the batch that begins. */
  lemma BeginsWith(s: State, a: Addr, t: Timer)
    requires Inv(s) && s.State? && !s.calling && Waits(s, a, t) && t.expiration <= s.clock
    ensures var z := Begin(s);
            && Inv(z) && z.State? && z.calling && z.ran == 0 && z.batchNo == s.batchNo + 1
            && a in Addrs(z.batch) && a in z.heap && z.heap[a] == t
  {
    InvIsState(s);
    BeginKeeps(s);
    BeginUp(s);
    BeginRest(s, Begin(s));
    EntryOf(s, a);
    hide Begin, Inv, Core;
    assert Entry(t.expiration, a) in Begin(s).batch;
  }

  /** The callbacks of the batch run up to the timer's. */
  lemma {:induction false} RunUpTo(s: State, k: nat, q: nat) returns (steps: seq<Step>)
    requires Inv(s) && s.State? && s.calling && s.ran <= k < |s.batch|
    requires s.batch[k].addr in s.heap && s.heap[s.batch[k].addr].sequence == q
    ensures Run(Next, s, steps).Some?
    ensures var z := Run(Next, s, steps).value;
        z.State? && z.calls != [] && z.calls[|z.calls| - 1] == Call(q, s.batchNo)
    decreases k - s.ran
  {
    hide Inv, Run;
    NextInBatch(s);
    var z := Apply(s, RunNext);
    if s.ran == k {
      steps := [RunNext];
      OneStep(Next, s, RunNext);
    } else {
      var more := RunUpTo(z, k, q);
      Then(s, RunNext, more);
      steps := [RunNext] + more;
    }
  }

  /** A timer that waits runs in some later batch. */
  lemma WaitingRuns(s: State, a: Addr, t: Timer) returns (steps: seq<Step>)
    requires Inv(s) && s.State? && Waits(s, a, t)
    ensures Run(Next, s, steps).Some? && !RanOnlyBy(Run(Next, s, steps).value, t.sequence, s.batchNo)
  {
    hide Inv, Run, Waits, Begin;
    var first := FinishBatch(s, a, t);
    var x := Run(Next, s, first).value;
    InvIsState(x);
    var tick := Tick(if t.expiration > x.clock then t.expiration else x.clock);
    StepKeeps(x, tick);
    var y := Apply(x, tick);
    TickWaits(x, tick.clock, a, t);
    BeginsWith(y, a, t);
    var z := Begin(y);
    var k := InBatch(z, a);
    var last := RunUpTo(z, k, t.sequence);
    Then(y, BeginRead, last);
    Then(x, tick, [BeginRead] + last);
    RunsCompose(Next, s, first, [tick] + ([BeginRead] + last));
    steps := first + ([tick] + ([BeginRead] + last));
    var end := Run(Next, z, last).value;
    assert end.calls[|end.calls| - 1].batchNo > s.batchNo;
  }

  /** A repeating timer that has run with its batch, and was not cancelled, runs again in a later batch. */
  lemma RepeatingRunsAgain(s: State, a: Addr) returns (steps: seq<Step>)
    requires Inv(s) && s.State? && Enabled(s, EndRead) && a in Addrs(s.batch) && a in s.heap && Restarts(s, a)
    ensures Run(Next, s, steps).Some? && !RanOnlyBy(Run(Next, s, steps).value, s.heap[a].sequence, s.batchNo)
  {
    EndSettles(s);
    StepKeeps(s, EndRead);
    EndKeepsNumber(s);
    hide Inv, Run, Apply;
    var z := Apply(s, EndRead);
    SettledWaits(s, z, a);
    var more := WaitingRuns(z, a, Restarted(s, a));
    Then(s, EndRead, more);
    steps := [EndRead] + more;
  }

  lemma SettledWaits(s: State, z: State, a: Addr)
    requires s.State? && z.State? && BatchSettled(s, z) && a in Addrs(s.batch) && a in s.heap && Restarts(s, a)
    ensures Waits(z, a, Restarted(s, a))
  {
    assert TimerAfter(s, z, a);
    var e := Entry(Restarted(s, a).expiration, a);
    assert EntryAfter(s, z, e);
    assert e.addr in Addrs(z.timers);
  }

  lemma EndKeepsNumber(s: State)
    requires Inv(s) && s.State? && Enabled(s, EndRead)
    ensures Apply(s, EndRead).State? && Apply(s, EndRead).batchNo == s.batchNo
  {
    NotCalling(s);
    hide Inv, Core;
    ResetKeepsNumber(s.(calling := false));
  }

  lemma {:induction false} ResetKeepsNumber(s: State)
    requires Core(s) && s.State? && !s.calling
    ensures Reset(s).State? && Reset(s).batchNo == s.batchNo
    decreases |s.batch|
  {
    if s.batch != [] {
      ResetOneKeeps(s);
      FirstSettled(s);
      ResetOneNumber(s);
      hide Core, ResetOne;
      ResetKeepsNumber(ResetOne(s));
    }
  }

  lemma ResetOneNumber(s: State)
    requires s.State? && s.batch != []
    ensures ResetOne(s).State? ==> ResetOne(s).batchNo == s.batchNo
  {
  }

  lemma TickWaits(s: State, clock: Time, a: Addr, t: Timer)
    requires Waits(s, a, t)
    ensures Waits(s.(clock := clock), a, t)
  {
  }

  lemma InBatch(s: State, a: Addr) returns (k: nat)
    requires s.State? && a in Addrs(s.batch)
    ensures k < |s.batch| && s.batch[k].addr == a
  {
    var e :| e in s.batch && e.addr == a;
    k :| 0 <= k < |s.batch| && s.batch[k] == e;
  }

  lemma InsertedNeverRunsAgain(s: State, id: ActiveTimer)
    requires Inv(s) && s.State? && IsInserted(s, id)
    ensures NeverRunsAgain(CancelTimer(s, id), id.sequence, s.batchNo)
  {
    hide Inv, Run, IsInserted, CancelTimer, Next;
    forall steps | Run(Next, CancelTimer(s, id), steps).Some?
      ensures RanOnlyBy(Run(Next, CancelTimer(s, id), steps).value, id.sequence, s.batchNo)
    {
      CancelledNeverRunsLater(s, id, steps);
    }
  }

  lemma PendingRuns(s: State, a: Addr)
    requires Inv(s) && s.State? && a in s.pending && a in s.heap
    ensures !NeverRunsAgain(CancelTimer(s, Key(s, a)), s.heap[a].sequence, s.batchNo)
  {
    hide Inv, Run, IsInserted, CancelTimer, Waits, Next;
    var id, t := Key(s, a), s.heap[a];
    CancelledTooEarly(s, a);
    CancelKeeps(s, id);
    var z := CancelTimer(s, id);
    AddWaits(z, a);
    AddIsNext(z, a);
    var w := Apply(z, Add(a));
    var more := WaitingRuns(w, a, t);
    Then(z, Add(a), more);
    assert !RanOnlyBy(Run(Next, z, [Add(a)] + more).value, id.sequence, s.batchNo);
  }

  lemma AddIsNext(s: State, a: Addr)
    requires s.State? && a in s.pending
    ensures Next(s, Add(a)) == Some(Apply(s, Add(a)))
  {
  }

  /** A timer that is in the heap is kept from running in later batches by `cancel` exactly when the loop has inserted
      it. One that `addTimer` made and the loop has not inserted yet is inserted all the same, and runs. */
  lemma CancelDecides(s: State, a: Addr)
    requires Inv(s) && s.State? && a in s.heap
    ensures NeverRunsAgain(CancelTimer(s, Key(s, a)), s.heap[a].sequence, s.batchNo) <==> IsInserted(s, Key(s, a))
  {
    hide Inv, NeverRunsAgain, IsInserted, CancelTimer;
    if IsInserted(s, Key(s, a)) {
      InsertedNeverRunsAgain(s, Key(s, a));
    } else {
      NotInserted(s, a);
      PendingRuns(s, a);
    }
  }

  lemma NotInserted(s: State, a: Addr)
    requires Inv(s) && s.State? && a in s.heap && !IsInserted(s, Key(s, a))
    ensures a in s.pending
  {
  }
}
