/** No worker misses its wake-up (ThreadPool.c:197-205 with 288-297). */
module HandoffWake {
  import opened ThreadPool
  import opened Handoff

  /** The program points at which a worker holds its slot's mutex. */
  predicate HoldsMutex(pc: WorkerPc) {
    pc == Test || pc == Sleep || pc == Leaving
  }

  /** The dispatcher has set msg_received of slot j and has not signalled yet. */
  predicate AboutToSignal(d: DispatcherPc, j: nat) {
    d == Filled(j) || d == Locked(j)
  }

  predicate DispatcherHolds(d: DispatcherPc, j: nat) {
    d == Locked(j) || d == Notified(j)
  }

  /** What every step keeps true of slot j. */
  predicate SlotInv(p: PoolState, j: nat)
    requires j < |p.workers| == |p.data.arr|
  {
    var w, msg := p.workers[j], p.data.arr[j].msgReceived;
    // mutual exclusion over both program counters
    && (w.mutex == TheWorker <==> HoldsMutex(w.pc))
    && (w.mutex == TheDispatcher <==> DispatcherHolds(p.disp, j))
    // a flag set behind the worker's back is followed by a signal
    && (w.pc == Sleep && msg == 1 ==> p.disp == Filled(j))
    && (w.pc == Blocked && msg == 1 ==> AboutToSignal(p.disp, j))
    // the keep-alive budget stays in range
    && 0 <= p.data.arr[j].timer <= TIMER_START
    && 0 <= p.data.arr[j].request <= REQUEST_START
    && (w.pc == Polling ==> p.data.arr[j].request > 0)
  }

  predicate PoolInv(n: nat, p: PoolState) {
    && Sized(p, n)
    && (p.disp.Filled? || p.disp.Locked? || p.disp.Notified? ==> p.disp.nE < n)
    && forall j | 0 <= j < n :: SlotInv(p, j)
  }

  predicate Inv(n: nat, s: State) {
    && Shaped(s, n)
    && forall p | 0 <= p < |s.pools| :: PoolInv(n, s.pools[p])
  }

  lemma PoolInvPreserved(n: nat, p: PoolState, ps: PoolStep)
    requires PoolInv(n, p) && InPool(n, p, ps)
    ensures PoolInv(n, PoolNext(n, p, ps))
  {
    PoolNextKeepsSize(n, p, ps);
    var p' := PoolNext(n, p, ps);
    forall j | 0 <= j < n
      ensures SlotInv(p', j)
    {
      assert SlotInv(p, j);
    }
  }

  lemma PostKeepsPoolInv(n: nat, p: PoolState, conn: int)
    requires PoolInv(n, p)
    ensures PoolInv(n, Posted(p, conn))
  {
    var p' := Posted(p, conn);
    forall j | 0 <= j < n
      ensures SlotInv(p', j)
    {
      assert SlotInv(p, j);
    }
  }

  lemma InvInitially(n: nat, size: nat)
    requires n > 0 && size > 0
    ensures Inv(n, Init(n, size))
  {
  }

  lemma InvPreserved(n: nat, s: State, step: Step)
    requires Inv(n, s) && Enabled(n, s, step)
    ensures Inv(n, Next(n, s, step))
  {
    NextKeepsShape(n, s, step);
    if step.Pooled? {
      PoolInvPreserved(n, s.pools[step.p], step.ps);
    } else if step.MPost? {
      PostKeepsPoolInv(n, s.pools[s.idxPool], s.main.conn);
    }
  }

  /** The invariant holds in every state of every run. */
  lemma {:induction false} InvAlways(n: nat, s: State, steps: seq<Step>)
    requires Inv(n, s) && Runs(n, s, steps)
    ensures Inv(n, After(n, s, steps))
    decreases |steps|
  {
    if steps == [] {
    } else {
      FirstStep(n, s, steps);
      InvPreserved(n, s, steps[0]);
      InvAlways(n, Next(n, s, steps[0]), steps[1..]);
    }
  }

  /** A worker blocked on cond_msg although its flag is set. */
  predicate Stranded(s: State, p: nat, j: nat) {
    && p < |s.pools|
    && At(s.pools[p], j, Blocked)
    && j < |s.pools[p].data.arr|
    && s.pools[p].data.arr[j].msgReceived == 1
  }

  /** No lost wake-up: in every reachable state the dispatcher of a stranded worker
      is before its signal to that very slot, and its next step is enabled, so
      the worker does not hold it up. */
  lemma NoLostWakeUp(n: nat, size: nat, steps: seq<Step>, p: nat, j: nat)
    requires n > 0 && size > 0 && Runs(n, Init(n, size), steps)
    ensures var s := After(n, Init(n, size), steps);
            Stranded(s, p, j) ==>
              && AboutToSignal(s.pools[p].disp, j)
              && s.pools[p].workers[j].mutex != TheWorker
              && Enabled(n, s, Pooled(p, if s.pools[p].disp.Filled? then DLock else DSignal))
  {
    InvInitially(n, size);
    InvAlways(n, Init(n, size), steps);
    var s := After(n, Init(n, size), steps);
    if Stranded(s, p, j) {
      assert SlotInv(s.pools[p], j);
    }
  }

  predicate StepOfDispatcher(step: Step, p: nat) {
    step.Pooled? && step.p == p &&
    (step.ps.DLock? || step.ps.DSignal? || step.ps.DUnlock? || step.ps.DWait? || step.ps.DSpurious?
     || step.ps.DRead? || step.ps.DFill?)
  }

  /** The dispatcher's steps left before the signal. */
  function StepsToSignal(s: State, p: nat): nat
    requires p < |s.pools|
  {
    if s.pools[p].disp.Filled? then 2 else 1
  }

  /** One step from a stranded state: the worker wakes, or it stays stranded and
      the dispatcher comes nearer to the signal exactly when the step was its own. */
  lemma StrandedStep(n: nat, s: State, step: Step, p: nat, j: nat)
    requires Inv(n, s) && Enabled(n, s, step) && Stranded(s, p, j)
    ensures var s' := Next(n, s, step);
            || (p < |s'.pools| && At(s'.pools[p], j, Woken))
            || (Stranded(s', p, j) && StepsToSignal(s', p) == StepsToSignal(s, p)
                                        - (if StepOfDispatcher(step, p) then 1 else 0))
  {
    assert SlotInv(s.pools[p], j);
    InvPreserved(n, s, step);
  }

  function DispatcherSteps(steps: seq<Step>, p: nat): nat {
    if steps == [] then 0
    else (if StepOfDispatcher(steps[0], p) then 1 else 0) + DispatcherSteps(steps[1..], p)
  }

  /** Worker j of pool p is woken in some state of the run. */
  ghost predicate WakesDuring(n: nat, s: State, steps: seq<Step>, p: nat, j: nat)
    requires Shaped(s, n) && Runs(n, s, steps)
    decreases |steps|
  {
    || (p < |s.pools| && At(s.pools[p], j, Woken))
    || (steps != [] && (NextKeepsShape(n, s, steps[0]);
                        WakesDuring(n, Next(n, s, steps[0]), steps[1..], p, j)))
  }

  /** Whatever the other threads do, two steps of its dispatcher wake a stranded worker. */
  lemma {:induction false} StrandedWorkerWakes(n: nat, s: State, steps: seq<Step>, p: nat, j: nat)
    requires Inv(n, s) && Runs(n, s, steps) && Stranded(s, p, j)
    requires DispatcherSteps(steps, p) >= StepsToSignal(s, p)
    ensures WakesDuring(n, s, steps, p, j)
    decreases |steps|
  {
    var s' := Next(n, s, steps[0]);
    StrandedStep(n, s, steps[0], p, j);
    InvPreserved(n, s, steps[0]);
    if At(s'.pools[p], j, Woken) {
    } else {
      StrandedWorkerWakes(n, s', steps[1..], p, j);
    }
  }

  // The flag of a used slot.

  /** From the end of wait_for_connection to the closing of the connection. */
  predicate InSession(pc: WorkerPc) {
    pc == Leaving || pc == Serving || pc == Polling || pc == Closing
  }

  /** A slot with a connection whose worker is not serving it has its flag set. */
  predicate FlagInv(p: PoolState, j: nat)
    requires j < |p.workers| == |p.data.arr|
  {
    p.data.arr[j].used != FREE && !InSession(p.workers[j].pc) ==> p.data.arr[j].msgReceived == 1
  }

  predicate Flagged(n: nat, s: State) {
    Shaped(s, n) && forall p, j | 0 <= p < |s.pools| && 0 <= j < n :: FlagInv(s.pools[p], j)
  }

  lemma PoolStepKeepsFlag(n: nat, p: PoolState, ps: PoolStep, j: nat)
    requires Sized(p, n) && InPool(n, p, ps) && j < n && FlagInv(p, j)
    ensures Sized(PoolNext(n, p, ps), n) && FlagInv(PoolNext(n, p, ps), j)
  {
  }

  lemma FlaggedPreserved(n: nat, s: State, step: Step)
    requires Flagged(n, s) && Enabled(n, s, step)
    ensures Flagged(n, Next(n, s, step))
  {
    var s' := Next(n, s, step);
    NextKeepsShape(n, s, step);
    forall p, j | 0 <= p < |s'.pools| && 0 <= j < n
      ensures FlagInv(s'.pools[p], j)
    {
      if step.Pooled? && step.p == p {
        assert FlagInv(s.pools[p], j);
        PoolStepKeepsFlag(n, s.pools[p], step.ps, j);
      } else if p < |s.pools| {
        assert FlagInv(s.pools[p], j);
      }
    }
  }

  lemma {:induction false} FlaggedAlways(n: nat, s: State, steps: seq<Step>)
    requires Flagged(n, s) && Runs(n, s, steps)
    ensures Flagged(n, After(n, s, steps))
    decreases |steps|
  {
    if steps == [] {
    } else {
      FirstStep(n, s, steps);
      FlaggedPreserved(n, s, steps[0]);
      FlaggedAlways(n, Next(n, s, steps[0]), steps[1..]);
    }
  }

  /** In every reachable state a used slot that is not being served has its flag set;
      if its worker is blocked, its dispatcher has not signalled it yet and is able to go on. */
  lemma NoConnectionWaitsUnseen(n: nat, size: nat, steps: seq<Step>, p: nat, j: nat)
    requires n > 0 && size > 0 && Runs(n, Init(n, size), steps)
    ensures var s := After(n, Init(n, size), steps);
            p < |s.pools| && j < n && s.pools[p].data.arr[j].used != FREE && !InSession(s.pools[p].workers[j].pc) ==>
              && s.pools[p].data.arr[j].msgReceived == 1
              && (At(s.pools[p], j, Blocked) ==>
                    && Stranded(s, p, j) && AboutToSignal(s.pools[p].disp, j)
                    && Enabled(n, s, Pooled(p, if s.pools[p].disp.Filled? then DLock else DSignal)))
  {
    FlaggedAlways(n, Init(n, size), steps);
    NoLostWakeUp(n, size, steps, p, j);
    var s := After(n, Init(n, size), steps);
    if p < |s.pools| && j < n {
      assert FlagInv(s.pools[p], j);
    }
  }
}
