/** How often the descriptor of a connection is shut down (HttpServer.c:206-221,
    ThreadPool.c:94-126): an image-not-present reply closes it and leaves its slot
    in use, and a slot that is free can be closed again. */
module HandoffClosings {
  import opened ThreadPool
  import opened Handoff
  import opened HandoffOwnership
  import HandoffSessions

  /** Closing a used slot, closing a free one, and the reply that closes by itself. */
  datatype Cause = UsedSlot | FreeSlot | NotPresentReply

  /** A step closes the descriptor of `c`. */
  predicate Shuts(s: State, step: Step, c: int) {
    && step.Pooled? && (step.ps.WClose? || step.ps.WNotPresent?) && step.p < |s.pools|
    && step.ps.j < |s.pools[step.p].data.arr| && s.pools[step.p].data.arr[step.ps.j].connSd == c
  }

  predicate ShutsBy(cause: Cause, s: State, step: Step, c: int) {
    && Shuts(s, step, c)
    && match cause
       case NotPresentReply => step.ps.WNotPresent?
       case UsedSlot => step.ps.WClose? && !IsFree(s.pools[step.p].data, step.ps.j)
       case FreeSlot => step.ps.WClose? && IsFree(s.pools[step.p].data, step.ps.j)
  }

  ghost function Shutdowns(n: nat, s: State, steps: seq<Step>, c: int): nat
    requires Shaped(s, n) && Runs(n, s, steps)
    decreases |steps|
  {
    if steps == [] then 0
    else
      NextKeepsShape(n, s, steps[0]);
      (if Shuts(s, steps[0], c) then 1 else 0) + Shutdowns(n, Next(n, s, steps[0]), steps[1..], c)
  }

  ghost function ShutdownsBy(cause: Cause, n: nat, s: State, steps: seq<Step>, c: int): nat
    requires Shaped(s, n) && Runs(n, s, steps)
    decreases |steps|
  {
    if steps == [] then 0
    else
      NextKeepsShape(n, s, steps[0]);
      (if ShutsBy(cause, s, steps[0], c) then 1 else 0)
      + ShutdownsBy(cause, n, Next(n, s, steps[0]), steps[1..], c)
  }

  lemma {:induction false} CausesAddUp(n: nat, s: State, steps: seq<Step>, c: int)
    requires Shaped(s, n) && Runs(n, s, steps)
    ensures Shutdowns(n, s, steps, c)
         == ShutdownsBy(UsedSlot, n, s, steps, c) + ShutdownsBy(FreeSlot, n, s, steps, c)
          + ShutdownsBy(NotPresentReply, n, s, steps, c)
    decreases |steps|
  {
    if steps == [] {
    } else {
      FirstStep(n, s, steps);
      CausesAddUp(n, Next(n, s, steps[0]), steps[1..], c);
    }
  }

  ghost predicate Held(s: State, c: int) {
    exists place :: Holds(s, place, c)
  }

  /** Delivered, and in no dispatcher's hand and no used slot any more. */
  ghost predicate Finished(s: State, c: int) {
    c in s.delivered && !Held(s, c)
  }

  /** A step that delivers nothing and touches no slot of `c` leaves `c` where it is. */
  lemma QuietStepKeepsHeld(n: nat, s: State, p: nat, ps: PoolStep, place: Place, c: int)
    requires Shaped(s, n) && Enabled(n, s, Pooled(p, ps)) && !ps.DRead? && !ps.DFill?
    requires ps.WClose? ==> place != Slot(p, ps.j)
    ensures Holds(Next(n, s, Pooled(p, ps)), place, c) <==> Holds(s, place, c)
  {
  }

  lemma QuietStepFinishes(n: nat, s: State, p: nat, ps: PoolStep, c: int)
    requires Inv(n, s) && s.stale == 0 && Enabled(n, s, Pooled(p, ps)) && !ps.DRead? && !ps.DFill?
    ensures var step := Pooled(p, ps);
            && (Finished(Next(n, s, step), c) <==> Finished(s, c) || ShutsBy(UsedSlot, s, step, c))
            && !(Finished(s, c) && ShutsBy(UsedSlot, s, step, c))
  {
    var s' := Next(n, s, Pooled(p, ps));
    if ps.WClose? && Holds(s, Slot(p, ps.j), c) {
      forall place
        ensures !Holds(s', place, c)
      {
        if place != Slot(p, ps.j) {
          QuietStepKeepsHeld(n, s, p, ps, place, c);
        }
      }
    } else {
      forall place
        ensures Holds(s', place, c) <==> Holds(s, place, c)
      {
        if ps.WClose? && place == Slot(p, ps.j) {
        } else {
          QuietStepKeepsHeld(n, s, p, ps, place, c);
        }
      }
    }
  }

  lemma FillKeepsFinished(n: nat, s: State, p: nat, c: int)
    requires Inv(n, s) && s.stale == 0 && Enabled(n, s, Pooled(p, DFill))
    ensures Finished(Next(n, s, Pooled(p, DFill)), c) <==> Finished(s, c)
  {
    var s', slot := Next(n, s, Pooled(p, DFill)), Slot(p, Pick(s.pools[p].data));
    forall place | Holds(s', place, c)
      ensures Held(s, c)
    {
      FillHolds(n, s, p, place, c);
    }
    forall place | Holds(s, place, c)
      ensures Held(s', c)
    {
      assert Holds(s', if place == Hand(p) then slot else place, c);
    }
  }

  lemma ReadKeepsFinished(n: nat, s: State, p: nat, c: int)
    requires Inv(n, s) && Enabled(n, s, Pooled(p, DRead)) && Next(n, s, Pooled(p, DRead)).stale == 0
    ensures Finished(Next(n, s, Pooled(p, DRead)), c) <==> Finished(s, c)
  {
    var s', conn := Next(n, s, Pooled(p, DRead)), s.pools[p].box.conn;
    assert Unread(s, p, conn);
    assert Holds(s', Hand(p), conn);
    forall place | Holds(s', place, c)
      ensures c == conn || Held(s, c)
    {
      ReadHolds(n, s, p, place, c);
    }
    forall place | Holds(s, place, c)
      ensures Held(s', c)
    {
      assert place != Hand(p);
      assert Holds(s', place, c);
    }
  }

  lemma MainKeepsFinished(n: nat, s: State, step: Step, c: int)
    requires Inv(n, s) && Enabled(n, s, step) && !step.Pooled?
    ensures Finished(Next(n, s, step), c) <==> Finished(s, c)
  {
    var s' := Next(n, s, step);
    assert forall place :: Holds(s', place, c) <==> Holds(s, place, c);
  }

  /** A connection is finished by the closing of its used slot and by nothing else,
      and once finished it stays so. */
  lemma FinishedStep(n: nat, s: State, step: Step, c: int)
    requires Inv(n, s) && Enabled(n, s, step) && Next(n, s, step).stale == 0
    ensures Finished(Next(n, s, step), c) <==> Finished(s, c) || ShutsBy(UsedSlot, s, step, c)
    ensures !(Finished(s, c) && ShutsBy(UsedSlot, s, step, c))
  {
    if !step.Pooled? {
      MainKeepsFinished(n, s, step, c);
    } else if step.ps.DRead? {
      ReadKeepsFinished(n, s, step.p, c);
    } else if step.ps.DFill? {
      FillKeepsFinished(n, s, step.p, c);
    } else {
      QuietStepFinishes(n, s, step.p, step.ps, c);
    }
  }

  lemma {:induction false} StaleNeverFalls(n: nat, s: State, steps: seq<Step>)
    requires Shaped(s, n) && Runs(n, s, steps)
    ensures s.stale <= After(n, s, steps).stale
    decreases |steps|
  {
    if steps == [] {
    } else {
      FirstStep(n, s, steps);
      StaleNeverFalls(n, Next(n, s, steps[0]), steps[1..]);
    }
  }

  lemma {:induction false} FinishedFrom(n: nat, s: State, steps: seq<Step>, c: int)
    requires Inv(n, s) && Runs(n, s, steps) && After(n, s, steps).stale == 0
    ensures (if Finished(After(n, s, steps), c) then 1 else 0)
         == (if Finished(s, c) then 1 else 0) + ShutdownsBy(UsedSlot, n, s, steps, c)
    decreases |steps|
  {
    if steps == [] {
    } else {
      FirstStep(n, s, steps);
      StaleNeverFalls(n, Next(n, s, steps[0]), steps[1..]);
      FinishedStep(n, s, steps[0], c);
      InvPreserved(n, s, steps[0]);
      FinishedFrom(n, Next(n, s, steps[0]), steps[1..], c);
    }
  }

  /** Over a run that delivers at most once, the descriptor of a connection is shut
      down once when its slot is closed, and once more for every image-not-present
      reply and every closing of a free slot that still has it. So a finished
      connection was shut down exactly once if and only if there was neither. */
  lemma ShutDownOnceExactly(n: nat, size: nat, steps: seq<Step>, c: int)
    requires n > 0 && size > 0 && Runs(n, Init(n, size), steps) && After(n, Init(n, size), steps).stale == 0
    ensures var s0 := Init(n, size);
            var finished := Finished(After(n, s0, steps), c);
            var more := ShutdownsBy(FreeSlot, n, s0, steps, c) + ShutdownsBy(NotPresentReply, n, s0, steps, c);
            && Shutdowns(n, s0, steps, c) == (if finished then 1 else 0) + more
            && (finished ==> (Shutdowns(n, s0, steps, c) == 1 <==> more == 0))
  {
    HandoffOwnership.InvInitially(n, size);
    CausesAddUp(n, Init(n, size), steps, c);
    FinishedFrom(n, Init(n, size), steps, c);
  }

  lemma {:induction false} NoFreeShutdowns(n: nat, s: State, steps: seq<Step>, c: int)
    requires HandoffSessions.Inv(n, s) && Runs(n, s, steps) && HandoffSessions.NeverRelocksFree(n, s, steps)
    ensures ShutdownsBy(FreeSlot, n, s, steps, c) == 0
    decreases |steps|
  {
    if steps == [] {
    } else {
      FirstStep(n, s, steps);
      if ShutsBy(FreeSlot, s, steps[0], c) {
        assert HandoffSessions.SlotInv(s.pools[steps[0].p], steps[0].ps.j);
      }
      HandoffSessions.InvPreserved(n, s, steps[0]);
      NoFreeShutdowns(n, Next(n, s, steps[0]), steps[1..], c);
    }
  }

  /** When no worker returns from its wait with its slot free, only image-not-present
      replies close a descriptor that its slot closes again. */
  lemma ShutDownTwiceOnlyByReplies(n: nat, size: nat, steps: seq<Step>, c: int)
    requires n > 0 && size > 0 && Runs(n, Init(n, size), steps) && After(n, Init(n, size), steps).stale == 0
    requires HandoffSessions.NeverRelocksFree(n, Init(n, size), steps)
    ensures Shutdowns(n, Init(n, size), steps, c)
         == (if Finished(After(n, Init(n, size), steps), c) then 1 else 0)
          + ShutdownsBy(NotPresentReply, n, Init(n, size), steps, c)
  {
    HandoffSessions.InvInitially(n, size);
    NoFreeShutdowns(n, Init(n, size), steps, c);
    ShutDownOnceExactly(n, size, steps, c);
  }
}
