/** Which slot a worker serves and closes (ThreadPool.c:288-297, HttpServer.c:148-279).
    wait_for_connection does not test its flag again after the wait; these results
    say exactly what that costs. */
module HandoffSessions {
  import opened ThreadPool
  import opened Handoff
  import HandoffWake
  import HandoffOwnership
  import opened HandoffAccounting
  import opened HandoffFairness

  predicate SlotOfSessionUsed(p: PoolState, j: nat)
    requires j < |p.workers| == |p.data.arr|
  {
    HandoffWake.InSession(p.workers[j].pc) ==> !IsFree(p.data, j)
  }

  predicate SessionsUseSlots(n: nat, s: State)
    requires Shaped(s, n)
  {
    forall p, j | 0 <= p < |s.pools| && 0 <= j < n :: SlotOfSessionUsed(s.pools[p], j)
  }

  /** A worker returns from its wait although its slot is free: what a second test
      of msg_received after the wait would rule out. */
  predicate RelocksFree(s: State, step: Step) {
    && step.Pooled? && step.ps.WRelock? && step.p < |s.pools|
    && step.ps.j < |s.pools[step.p].data.arr| && IsFree(s.pools[step.p].data, step.ps.j)
  }

  /** In every state of the run, workers in session have used slots. */
  ghost predicate AlwaysUseSlots(n: nat, s: State, steps: seq<Step>)
    requires Shaped(s, n) && Runs(n, s, steps)
    decreases |steps|
  {
    && SessionsUseSlots(n, s)
    && (steps == [] || (NextKeepsShape(n, s, steps[0]); AlwaysUseSlots(n, Next(n, s, steps[0]), steps[1..])))
  }

  ghost predicate NeverRelocksFree(n: nat, s: State, steps: seq<Step>)
    requires Shaped(s, n) && Runs(n, s, steps)
    decreases |steps|
  {
    steps == [] ||
    (!RelocksFree(s, steps[0]) && (NextKeepsShape(n, s, steps[0]);
                                   NeverRelocksFree(n, Next(n, s, steps[0]), steps[1..])))
  }

  /** Workers in session have used slots, and the flag of a free slot is not set. */
  predicate SlotInv(p: PoolState, j: nat)
    requires j < |p.workers| == |p.data.arr|
  {
    SlotOfSessionUsed(p, j) && (IsFree(p.data, j) ==> p.data.arr[j].msgReceived != 1)
  }

  predicate Inv(n: nat, s: State) {
    Shaped(s, n) && forall p, j | 0 <= p < |s.pools| && 0 <= j < n :: SlotInv(s.pools[p], j)
  }

  lemma InvInitially(n: nat, size: nat)
    requires n > 0 && size > 0
    ensures Inv(n, Init(n, size))
  {
  }

  lemma SessionsUseSlotsNow(n: nat, s: State)
    requires Inv(n, s)
    ensures SessionsUseSlots(n, s)
  {
    forall p, j | 0 <= p < |s.pools| && 0 <= j < n
      ensures SlotOfSessionUsed(s.pools[p], j)
    {
      assert SlotInv(s.pools[p], j);
    }
  }

  lemma PoolStepKeepsSlotInv(n: nat, p: PoolState, ps: PoolStep, j: nat)
    requires Sized(p, n) && InPool(n, p, ps) && j < n && SlotInv(p, j)
    requires ps == WRelock(j) ==> !IsFree(p.data, j)
    ensures Sized(PoolNext(n, p, ps), n) && SlotInv(PoolNext(n, p, ps), j)
  {
  }

  lemma InvPreserved(n: nat, s: State, step: Step)
    requires Inv(n, s) && Enabled(n, s, step) && !RelocksFree(s, step)
    ensures Inv(n, Next(n, s, step))
  {
    var s' := Next(n, s, step);
    NextKeepsShape(n, s, step);
    forall p, j | 0 <= p < |s'.pools| && 0 <= j < n
      ensures SlotInv(s'.pools[p], j)
    {
      if step.Pooled? && step.p == p {
        assert SlotInv(s.pools[p], j);
        PoolStepKeepsSlotInv(n, s.pools[p], step.ps, j);
      } else if p < |s.pools| {
        assert SlotInv(s.pools[p], j);
      }
    }
  }

  lemma FreeRelockShows(n: nat, s: State, step: Step)
    requires Shaped(s, n) && Enabled(n, s, step) && RelocksFree(s, step)
    ensures Shaped(Next(n, s, step), n) && !SessionsUseSlots(n, Next(n, s, step))
  {
    NextKeepsShape(n, s, step);
    assert !SlotOfSessionUsed(Next(n, s, step).pools[step.p], step.ps.j);
  }

  lemma {:induction false} SessionsFrom(n: nat, s: State, steps: seq<Step>)
    requires Inv(n, s) && Runs(n, s, steps)
    ensures AlwaysUseSlots(n, s, steps) <==> NeverRelocksFree(n, s, steps)
    ensures NeverRelocksFree(n, s, steps) ==> Inv(n, After(n, s, steps))
    decreases |steps|
  {
    SessionsUseSlotsNow(n, s);
    if steps == [] {
    } else if RelocksFree(s, steps[0]) {
      FreeRelockShows(n, s, steps[0]);
    } else {
      FirstStep(n, s, steps);
      InvPreserved(n, s, steps[0]);
      SessionsFrom(n, Next(n, s, steps[0]), steps[1..]);
    }
  }

  /** In every state of a run all workers in session have used slots if and only if
      no worker of the run returns from its wait while its slot is free. */
  lemma SessionsUseSlotsExactly(n: nat, size: nat, steps: seq<Step>)
    requires n > 0 && size > 0 && Runs(n, Init(n, size), steps)
    ensures AlwaysUseSlots(n, Init(n, size), steps) <==> NeverRelocksFree(n, Init(n, size), steps)
  {
    InvInitially(n, size);
    SessionsFrom(n, Init(n, size), steps);
  }

  // What a session closes.

  function SlotOf(s: State, p: nat, j: nat): ThreadData
    requires p < |s.pools| && j < |s.pools[p].data.arr|
  {
    s.pools[p].data.arr[j]
  }

  lemma SlotStep(n: nat, s: State, step: Step, p: nat, j: nat)
    requires Shaped(s, n) && Enabled(n, s, step) && p < |s.pools| && j < n && step != Pooled(p, WClose(j))
    ensures Shaped(Next(n, s, step), n) && p < |Next(n, s, step).pools|
    ensures var td, td' := SlotOf(s, p, j), SlotOf(Next(n, s, step), p, j);
            if step == Pooled(p, DFill) && Pick(s.pools[p].data) == j then td.used == FREE && td'.used != FREE
            else td'.used == td.used && td'.connSd == td.connSd
  {
    NextKeepsShape(n, s, step);
  }

  /** From any state up to the next closing of slot j: the slot is used now exactly
      when nothing fills it meanwhile and it is used at the end; then it has the
      same connection throughout. */
  lemma {:induction false} ClosesWhatItBeganWith(n: nat, s: State, steps: seq<Step>, p: nat, j: nat)
    requires Shaped(s, n) && Runs(n, s, steps) && p < |s.pools| && j < n && Pooled(p, WClose(j)) !in steps
    ensures var s' := After(n, s, steps);
            && p < |s'.pools|
            && (SlotOf(s, p, j).used != FREE
                <==> !PickedDuring(n, s, steps, p, j) && SlotOf(s', p, j).used != FREE)
            && (SlotOf(s, p, j).used != FREE ==> SlotOf(s', p, j).connSd == SlotOf(s, p, j).connSd)
    decreases |steps|
  {
    if steps == [] {
    } else {
      FirstStep(n, s, steps);
      SlotStep(n, s, steps[0], p, j);
      ClosesWhatItBeganWith(n, Next(n, s, steps[0]), steps[1..], p, j);
    }
  }

  /** As long as no worker has returned from its wait with its slot free, a session
      ends with the connection it began with: its slot is used when it begins, is
      not filled while it lasts, and holds the same connection when it is closed. */
  lemma NoForeignConnectionClosed(n: nat, size: nat, before: seq<Step>, steps: seq<Step>, p: nat, j: nat)
    requires n > 0 && size > 0 && Runs(n, Init(n, size), before) && NeverRelocksFree(n, Init(n, size), before)
    requires var s := After(n, Init(n, size), before);
             && Runs(n, s, steps) && Pooled(p, WClose(j)) !in steps
             && p < |s.pools| && j < n && HandoffWake.InSession(s.pools[p].workers[j].pc)
    ensures var s := After(n, Init(n, size), before);
            var slot := HandoffOwnership.Slot(p, j);
            && !PickedDuring(n, s, steps, p, j)
            && HandoffOwnership.Holds(s, slot, SlotOf(s, p, j).connSd)
            && HandoffOwnership.Holds(After(n, s, steps), slot, SlotOf(s, p, j).connSd)
  {
    InvInitially(n, size);
    SessionsFrom(n, Init(n, size), before);
    var s := After(n, Init(n, size), before);
    assert SlotInv(s.pools[p], j);
    ClosesWhatItBeganWith(n, s, steps, p, j);
  }

  lemma {:induction false} NoFreeClosings(n: nat, s: State, steps: seq<Step>, p: nat)
    requires Inv(n, s) && Runs(n, s, steps) && NeverRelocksFree(n, s, steps)
    ensures FreeClosings(n, s, steps, p) == 0
    decreases |steps|
  {
    if steps == [] {
    } else {
      FirstStep(n, s, steps);
      if ClosesFreeSlot(s, steps[0], p) {
        assert SlotInv(s.pools[p], steps[0].ps.j);
      }
      InvPreserved(n, s, steps[0]);
      NoFreeClosings(n, Next(n, s, steps[0]), steps[1..], p);
    }
  }

  /** In such a run no free slot is closed, and each pool's counter exceeds its
      occupied slots by exactly the assignments made so far. */
  lemma CounterWithoutFreeRelocks(n: nat, size: nat, steps: seq<Step>, p: nat)
    requires n > 0 && size > 0 && Runs(n, Init(n, size), steps) && NeverRelocksFree(n, Init(n, size), steps)
    ensures FreeClosings(n, Init(n, size), steps, p) == 0
    ensures var s := After(n, Init(n, size), steps);
            CounterOf(s, p) == UsedOf(s, p) + Tally(steps, Assignments(p))
  {
    InvInitially(n, size);
    NoFreeClosings(n, Init(n, size), steps, p);
    CounterIsOccupancyExactly(n, size, steps, p);
  }
}
