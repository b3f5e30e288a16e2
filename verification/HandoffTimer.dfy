/** The keep-alive budget under every interleaving of the threads
    (ThreadPool.c:242-286 and HttpServer.c:148-279 inside the whole server). */
module HandoffTimer {
  import opened ThreadPool
  import opened Handoff
  import HandoffWake
  import HandoffOwnership
  import opened HandoffAccounting

  /** The polls that slot j can still see: none once its requests are used up. */
  function PollsLeft(p: PoolState, j: nat): int
    requires j < |p.workers| && j < |p.data.arr|
  {
    var td := p.data.arr[j];
    if td.request == 0 || p.workers[j].pc == Closing then 0 else 6 * (td.request - 1) + td.timer + 1
  }

  /** The receive rounds that slot j can still see: its requests, and one more
      while the worker is before a receive. */
  function RoundsLeft(p: PoolState, j: nat): int
    requires j < |p.workers| && j < |p.data.arr|
  {
    var pc := p.workers[j].pc;
    p.data.arr[j].request + (if pc == Serving || pc == Polling || pc == Closing then 0 else 1)
  }

  lemma BudgetPoolStep(n: nat, p: PoolState, ps: PoolStep, j: nat)
    requires HandoffWake.PoolInv(n, p) && InPool(n, p, ps) && j < n
    requires p.data.arr[j].used != FREE && ps != WClose(j)
    ensures Sized(PoolNext(n, p, ps), n)
    ensures PollsLeft(PoolNext(n, p, ps), j) <= PollsLeft(p, j) - (if ps.WPoll? && ps.j == j then 1 else 0)
    ensures RoundsLeft(PoolNext(n, p, ps), j) <= RoundsLeft(p, j) - (if ps == WUnlock(j) then 1 else 0)
  {
    assert HandoffWake.SlotInv(p, j);
    PoolNextKeepsSize(n, p, ps);
  }

  lemma BudgetStep(n: nat, s: State, step: Step, p: nat, j: nat)
    requires HandoffWake.Inv(n, s) && Enabled(n, s, step) && p < |s.pools| && j < n
    requires s.pools[p].data.arr[j].used != FREE && step != Pooled(p, WClose(j))
    ensures Shaped(Next(n, s, step), n)
    ensures var q, q' := s.pools[p], Next(n, s, step).pools[p];
            && PollsLeft(q', j) <= PollsLeft(q, j) - (if Is(Polls(p, j), step) then 1 else 0)
            && RoundsLeft(q', j) <= RoundsLeft(q, j) - (if Is(Rounds(p, j), step) then 1 else 0)
  {
    NextKeepsShape(n, s, step);
    if step.Pooled? && step.p == p {
      BudgetPoolStep(n, s.pools[p], step.ps, j);
    }
  }

  lemma {:induction false} BudgetFrom(n: nat, s: State, steps: seq<Step>, p: nat, j: nat)
    requires HandoffWake.Inv(n, s) && Runs(n, s, steps) && p < |s.pools| && j < n
    requires s.pools[p].data.arr[j].used != FREE && Pooled(p, WClose(j)) !in steps
    ensures Tally(steps, Polls(p, j)) <= PollsLeft(s.pools[p], j)
    ensures Tally(steps, Rounds(p, j)) <= RoundsLeft(s.pools[p], j)
    decreases |steps|
  {
    if steps == [] {
      assert HandoffWake.SlotInv(s.pools[p], j);
    } else {
      FirstStep(n, s, steps);
      var s' := Next(n, s, steps[0]);
      BudgetStep(n, s, steps[0], p, j);
      HandoffWake.InvPreserved(n, s, steps[0]);
      HandoffOwnership.UsedSlotKeepsConnection(n, s, steps[0], p, j, s.pools[p].data.arr[j].connSd);
      assert HandoffOwnership.Holds(s', HandoffOwnership.Slot(p, j), s.pools[p].data.arr[j].connSd);
      BudgetFrom(n, s', steps[1..], p, j);
    }
  }

  /** In every run, a used slot sees at most 6000 polls and 1001 receive rounds
      before a step closes it. */
  lemma ClosedWithinBounds(n: nat, size: nat, before: seq<Step>, steps: seq<Step>, p: nat, j: nat)
    requires n > 0 && size > 0 && Runs(n, Init(n, size), before)
    requires var s := After(n, Init(n, size), before);
             && Runs(n, s, steps) && p < |s.pools| && j < n
             && s.pools[p].data.arr[j].used != FREE
    ensures Tally(steps, Polls(p, j)) > 6000 || Tally(steps, Rounds(p, j)) > 1001 ==> Pooled(p, WClose(j)) in steps
  {
    HandoffWake.InvInitially(n, size);
    HandoffWake.InvAlways(n, Init(n, size), before);
    var s := After(n, Init(n, size), before);
    assert HandoffWake.SlotInv(s.pools[p], j);
    if Pooled(p, WClose(j)) !in steps {
      BudgetFrom(n, s, steps, p, j);
    }
  }

  // The flag between a reply and the next request.

  /** After a reply in a used slot the flag is down until a poll of that slot reports a
      request, whatever the other threads do. */
  lemma {:induction false} FlagStaysDown(n: nat, s: State, steps: seq<Step>, p: nat, j: nat)
    requires Shaped(s, n) && Runs(n, s, steps) && p < |s.pools| && j < n
    requires s.pools[p].data.arr[j].used != FREE && s.pools[p].data.arr[j].msgReceived == 0
    requires Pooled(p, WPoll(j, true)) !in steps && Pooled(p, WClose(j)) !in steps
    ensures p < |After(n, s, steps).pools| && After(n, s, steps).pools[p].data.arr[j].msgReceived == 0
    decreases |steps|
  {
    if steps == [] {
    } else {
      FirstStep(n, s, steps);
      QuietFlag(n, s, steps[0], p, j);
      FlagStaysDown(n, Next(n, s, steps[0]), steps[1..], p, j);
    }
  }

  lemma QuietFlag(n: nat, s: State, step: Step, p: nat, j: nat)
    requires Shaped(s, n) && Enabled(n, s, step) && p < |s.pools| && j < n
    requires s.pools[p].data.arr[j].used != FREE && s.pools[p].data.arr[j].msgReceived == 0
    requires step != Pooled(p, WPoll(j, true)) && step != Pooled(p, WClose(j))
    ensures Shaped(Next(n, s, step), n) && p < |Next(n, s, step).pools|
    ensures var td := Next(n, s, step).pools[p].data.arr[j]; td.used != FREE && td.msgReceived == 0
  {
    NextKeepsShape(n, s, step);
  }

  /** Every kind of reply puts the flag down, and it stays down. */
  lemma ReplyPutsFlagDown(n: nat, s: State, step: Step, steps: seq<Step>, p: nat, j: nat)
    requires Shaped(s, n) && (step == Pooled(p, WReplied(j)) || step == Pooled(p, WNotPresent(j)))
    requires Enabled(n, s, step) && s.pools[p].data.arr[j].used != FREE
    requires Shaped(Next(n, s, step), n) && Runs(n, Next(n, s, step), steps)
    requires Pooled(p, WPoll(j, true)) !in steps && Pooled(p, WClose(j)) !in steps
    ensures var s' := After(n, Next(n, s, step), steps);
            p < |s'.pools| && j < |s'.pools[p].data.arr| && s'.pools[p].data.arr[j].msgReceived == 0
  {
    FlagStaysDown(n, Next(n, s, step), steps, p, j);
  }

  /** No reply ends a session by itself, the image-not-present one included: the worker
      polls, and a poll that reports a request sends it back to its wait with its flag
      set and the same connection, unless the timer stood at one. */
  lemma AfterReplyPolls(n: nat, s: State, step: Step, p: nat, j: nat, ready: bool)
    requires Shaped(s, n) && Enabled(n, s, step)
    requires step in {Pooled(p, WReplied(j)), Pooled(p, WOtherStatus(j)), Pooled(p, WNotPresent(j))}
    ensures var s1 := Next(n, s, step);
            && Shaped(s1, n) && Enabled(n, s1, Pooled(p, WPoll(j, ready)))
            && var td, s2 := s.pools[p].data.arr[j], Next(n, s1, Pooled(p, WPoll(j, ready)));
               var td2 := s2.pools[p].data.arr[j];
               && At(s2.pools[p], j, if ready then (if td.timer == 1 then Closing else Start)
                                     else if td.timer == 0 then Closing else Polling)
               && td2.used == td.used && td2.connSd == td.connSd
               && (ready ==> td2.msgReceived == 1 && td2.request == td.request - 1)
               && (!ready ==> td2.request == td.request)
  {
    NextKeepsShape(n, s, step);
  }
}
