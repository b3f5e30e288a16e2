/** Runs that show what the hand-off does not promise. The waits have no loop
    around them that tests a predicate again, and a mailbox holds one connection. */
module HandoffExamples {
  import opened ThreadPool
  import opened Handoff
  import HandoffOwnership
  import HandoffLosses

  predicate Spurious(step: Step) {
    step.Pooled? && (step.ps.DSpurious? || step.ps.WSpurious?)
  }

  /** A run of a server that starts with one pool of one slot reaches `s`, and every
      wait in it ends on a signal. */
  ghost predicate Reached(s: State) {
    exists steps ::
      && Runs(1, Init(1, 1), steps)
      && After(1, Init(1, 1), steps) == s
      && forall step | step in steps :: !Spurious(step)
  }

  lemma {:induction false} AppendStep(n: nat, s: State, steps: seq<Step>, step: Step)
    requires Shaped(s, n) && Runs(n, s, steps) && Enabled(n, After(n, s, steps), step)
    ensures Runs(n, s, steps + [step])
    ensures After(n, s, steps + [step]) == Next(n, After(n, s, steps), step)
    decreases |steps|
  {
    NextKeepsShape(n, After(n, s, steps), step);
    if steps == [] {
      assert steps + [step] == [step];
    } else {
      FirstStep(n, s, steps);
      assert (steps + [step])[1..] == steps[1..] + [step];
      AppendStep(n, Next(n, s, steps[0]), steps[1..], step);
    }
  }

  lemma ReachedBy(s: State, step: Step)
    requires Reached(s) && Shaped(s, 1) && Enabled(1, s, step) && !Spurious(step)
    ensures Reached(Next(1, s, step))
  {
    var steps :| Runs(1, Init(1, 1), steps) && After(1, Init(1, 1), steps) == s
              && forall step | step in steps :: !Spurious(step);
    AppendStep(1, Init(1, 1), steps, step);
    assert forall st | st in steps + [step] :: !Spurious(st);
  }

  const FILLED := ThreadData(1, TIMER_START, REQUEST_START, 1, 1)
  const CLOSED := ThreadData(1, TIMER_START, REQUEST_START, 0, FREE)
  const IDLE := Worker(Start, Nobody)

  function Pool1(slot: ThreadData, counter: int, w: Worker, d: DispatcherPc, box: Mailbox): PoolState {
    PoolState(PoolData([slot], 0, counter), [w], d, box)
  }

  /** Before the first connection has been read. */
  function Early(d: DispatcherPc, box: Mailbox, max: nat, main: MainPc, next: nat): State {
    State([Pool1(FRESH_SLOT, 0, IDLE, d, box)], 1, 0, max, main, next, [], 0, 0)
  }

  /** After the first connection has been read. */
  function Late(slot: ThreadData, counter: int, w: Worker, d: DispatcherPc, max: nat): State {
    State([Pool1(slot, counter, w, d, Mailbox(1, false))], 1, 0, max, Choosing, 2, [1], 0, 0)
  }

  lemma Posted1()
    ensures Reached(Early(Signalled, Mailbox(1, true), 2, Choosing, 2))
  {
    var s0 := Early(Arriving, Mailbox(0, false), 1, Accepting, 1);
    assert Init(1, 1) == s0 by {
      assert FreshPool(1).arr == [FRESH_SLOT];
      assert NewPool(1).workers == [IDLE];
      assert Init(1, 1).pools == [NewPool(1)];
    }
    assert Runs(1, s0, []) && After(1, s0, []) == s0;
    ReachedBy(s0, Pooled(0, DWait));
    var s1 := Early(Waiting, Mailbox(0, false), 1, Accepting, 1);
    assert Next(1, s0, Pooled(0, DWait)) == s1;
    ReachedBy(s1, MAccept);
    var s2 := Early(Waiting, Mailbox(0, false), 2, Posting(1), 2);
    assert Next(1, s1, MAccept) == s2;
    ReachedBy(s2, MPost);
  }

  lemma AssignSingle(slot: ThreadData, counter: int, conn: int)
    requires slot.used == FREE
    ensures var p := PoolData([slot], 0, counter);
            && SomeFree(p) && Pick(p) == 0
            && Assign(p, conn) == PoolData([ThreadData(conn, TIMER_START, REQUEST_START, 1, 1)], 0, counter + 2)
  {
    var p := PoolData([slot], 0, counter);
    assert RingAt(p, 0) == 0;
    assert IsFree(p, 0);
    assert FirstFree(p, 0) == 0;
  }

  lemma Filled1()
    ensures Reached(Late(FILLED, 2, IDLE, Filled(0), 2))
  {
    Posted1();
    ReachedBy(Early(Signalled, Mailbox(1, true), 2, Choosing, 2), Pooled(0, DRead));
    var s := Late(FRESH_SLOT, 0, IDLE, Holding(1), 2);
    assert Reached(s);
    AssignSingle(FRESH_SLOT, 0, 1);
    ReachedBy(s, Pooled(0, DFill));
  }

  /** A dispatcher step other than reading and filling, in the single pool. */
  lemma DispatcherStep(slot: ThreadData, counter: int, w: Worker, d: DispatcherPc, max: nat,
                       ps: PoolStep, w': Worker, d': DispatcherPc)
    requires Reached(Late(slot, counter, w, d, max))
    requires match ps
             case DWait => d == Arriving && d' == Waiting && w' == w
             case DLock => d == Filled(0) && d' == Locked(0) && w.mutex == Nobody && w' == w.(mutex := TheDispatcher)
             case DSignal => d == Locked(0) && d' == Notified(0)
                             && w' == (if w.pc == Blocked then w.(pc := Woken) else w)
             case DUnlock => d == Notified(0) && d' == Arriving && w' == w.(mutex := Nobody)
             case _ => false
    ensures Reached(Late(slot, counter, w', d', max))
  {
    var s, s' := Late(slot, counter, w, d, max), Late(slot, counter, w', d', max);
    ReachedBy(s, Pooled(0, ps));
    assert [w][0 := w'] == [w'] && [w][0 := w] == [w];
    assert Next(1, s, Pooled(0, ps)).pools == s'.pools;
    assert Next(1, s, Pooled(0, ps)) == s';
  }

  /** A worker step before serving, in the single pool. */
  lemma WorkerStep(slot: ThreadData, counter: int, w: Worker, d: DispatcherPc, max: nat, ps: PoolStep, w': Worker)
    requires Reached(Late(slot, counter, w, d, max))
    requires match ps
             case WLock(j) => j == 0 && w == IDLE && w' == Worker(Test, TheWorker)
             case WTest(j) => j == 0 && w.pc == Test
                              && w' == Worker(if slot.msgReceived == 1 then Leaving else Sleep, TheWorker)
             case WWait(j) => j == 0 && w.pc == Sleep && w' == Worker(Blocked, Nobody)
             case WRelock(j) => j == 0 && w == Worker(Woken, Nobody) && w' == Worker(Leaving, TheWorker)
             case WUnlock(j) => j == 0 && w.pc == Leaving && w' == Worker(Serving, Nobody)
             case _ => false
    ensures Reached(Late(slot, counter, w', d, max))
  {
    var s, s' := Late(slot, counter, w, d, max), Late(slot, counter, w', d, max);
    ReachedBy(s, Pooled(0, ps));
    assert [w][0 := w'] == [w'];
    assert Next(1, s, Pooled(0, ps)).pools == s'.pools;
    assert Next(1, s, Pooled(0, ps)) == s';
  }

  lemma CloseStep(slot: ThreadData, counter: int, d: DispatcherPc, max: nat)
    requires Reached(Late(slot, counter, Worker(Serving, Nobody), d, max)) && max > 0
    ensures Reached(Late(ClosedSlot(slot), counter - 1, IDLE, d, max - 1))
  {
    var s := Late(slot, counter, Worker(Serving, Nobody), d, max);
    var s' := Late(ClosedSlot(slot), counter - 1, IDLE, d, max - 1);
    ReachedBy(s, Pooled(0, WClose(0)));
    assert [slot][0 := ClosedSlot(slot)] == [ClosedSlot(slot)];
    assert [Worker(Serving, Nobody)][0 := IDLE] == [IDLE];
    assert Next(1, s, Pooled(0, WClose(0))).pools == s'.pools;
    assert Next(1, s, Pooled(0, WClose(0))) == s';
  }

  lemma BackAtMailbox()
    ensures Reached(Late(FILLED, 2, IDLE, Waiting, 2))
  {
    Filled1();
    var locked := Worker(Start, TheDispatcher);
    DispatcherStep(FILLED, 2, IDLE, Filled(0), 2, DLock, locked, Locked(0));
    DispatcherStep(FILLED, 2, locked, Locked(0), 2, DSignal, locked, Notified(0));
    DispatcherStep(FILLED, 2, locked, Notified(0), 2, DUnlock, IDLE, Arriving);
    DispatcherStep(FILLED, 2, IDLE, Arriving, 2, DWait, IDLE, Waiting);
  }

  /** A dispatcher whose wait ends without a signal delivers its last connection
      again, while the slot that has it is still in use. */
  lemma SpuriousWakeDeliversTwice()
    ensures exists s ::
      && Reached(s)
      && Runs(1, s, [Pooled(0, DSpurious), Pooled(0, DRead)])
      && var s' := After(1, s, [Pooled(0, DSpurious), Pooled(0, DRead)]);
         && s'.delivered == [1, 1]
         && HandoffOwnership.Holds(s', HandoffOwnership.Hand(0), 1)
         && HandoffOwnership.Holds(s', HandoffOwnership.Slot(0, 0), 1)
  {
    BackAtMailbox();
    var s := Late(FILLED, 2, IDLE, Waiting, 2);
    var s1 := Late(FILLED, 2, IDLE, Signalled, 2);
    assert Next(1, s, Pooled(0, DSpurious)).pools == s1.pools;
    assert Next(1, s, Pooled(0, DSpurious)) == s1;
    AppendStep(1, s, [], Pooled(0, DSpurious));
    assert [] + [Pooled(0, DSpurious)] == [Pooled(0, DSpurious)];
    AppendStep(1, s, [Pooled(0, DSpurious)], Pooled(0, DRead));
    assert [Pooled(0, DSpurious)] + [Pooled(0, DRead)] == [Pooled(0, DSpurious), Pooled(0, DRead)];
  }

  /** The worker finds its flag set, serves and closes before the dispatcher locks. */
  lemma ClosedBeforeSignal()
    ensures Reached(Late(CLOSED, 1, IDLE, Filled(0), 1))
  {
    Filled1();
    WorkerStep(FILLED, 2, IDLE, Filled(0), 2, WLock(0), Worker(Test, TheWorker));
    WorkerStep(FILLED, 2, Worker(Test, TheWorker), Filled(0), 2, WTest(0), Worker(Leaving, TheWorker));
    WorkerStep(FILLED, 2, Worker(Leaving, TheWorker), Filled(0), 2, WUnlock(0), Worker(Serving, Nobody));
    CloseStep(FILLED, 2, Filled(0), 2);
  }

  lemma WokenTooLate()
    ensures Reached(Late(CLOSED, 1, Worker(Woken, Nobody), Arriving, 1))
  {
    var blocked, woken := Worker(Blocked, Nobody), Worker(Woken, Nobody);
    ClosedBeforeSignal();
    WorkerStep(CLOSED, 1, IDLE, Filled(0), 1, WLock(0), Worker(Test, TheWorker));
    WorkerStep(CLOSED, 1, Worker(Test, TheWorker), Filled(0), 1, WTest(0), Worker(Sleep, TheWorker));
    WorkerStep(CLOSED, 1, Worker(Sleep, TheWorker), Filled(0), 1, WWait(0), blocked);
    DispatcherStep(CLOSED, 1, blocked, Filled(0), 1, DLock, blocked.(mutex := TheDispatcher), Locked(0));
    DispatcherStep(CLOSED, 1, blocked.(mutex := TheDispatcher), Locked(0), 1,
                   DSignal, woken.(mutex := TheDispatcher), Notified(0));
    DispatcherStep(CLOSED, 1, woken.(mutex := TheDispatcher), Notified(0), 1, DUnlock, woken, Arriving);
  }

  /** A worker that serves and closes before its dispatcher signals waits again, is
      woken by the late signal, and serves and closes its free slot once more:
      after a single assignment the counter and the descriptor count are zero. */
  lemma LateSignalClosesFreeSlot()
    ensures Reached(Late(CLOSED, 1, Worker(Serving, Nobody), Arriving, 1))
    ensures Reached(Late(CLOSED, 0, IDLE, Arriving, 0))
  {
    WokenTooLate();
    WorkerStep(CLOSED, 1, Worker(Woken, Nobody), Arriving, 1, WRelock(0), Worker(Leaving, TheWorker));
    WorkerStep(CLOSED, 1, Worker(Leaving, TheWorker), Arriving, 1, WUnlock(0), Worker(Serving, Nobody));
    CloseStep(CLOSED, 1, Arriving, 1);
  }

  /** Two pools; the first one's dispatcher was signalled and has not read yet. */
  function Two(box: Mailbox, max: nat, main: MainPc, next: nat, lost: nat): State {
    State([Pool1(FRESH_SLOT, 0, IDLE, Signalled, box), NewPool(1)], 2, 0, max, main, next, [], lost, 0)
  }

  lemma GrownToTwo()
    ensures Reached(Two(Mailbox(1, true), 2, Accepting, 2, 0))
  {
    Posted1();
    var s := Early(Signalled, Mailbox(1, true), 2, Choosing, 2);
    assert Grown(1, 1, 2) == 2 && NextPool(1, 1, 2, 0) == 0;
    assert seq(1, _ => NewPool(1)) == [NewPool(1)];
    ReachedBy(s, MChoose);
    assert Next(1, s, MChoose).pools == Two(Mailbox(1, true), 2, Accepting, 2, 0).pools;
    assert Next(1, s, MChoose) == Two(Mailbox(1, true), 2, Accepting, 2, 0);
  }

  lemma SecondAccepted()
    ensures Reached(Two(Mailbox(1, true), 3, Posting(2), 3, 0))
  {
    GrownToTwo();
    ReachedBy(Two(Mailbox(1, true), 2, Accepting, 2, 0), MAccept);
  }

  lemma SecondPosted()
    ensures Reached(Two(Mailbox(2, true), 3, Choosing, 3, 1))
  {
    SecondAccepted();
    var s, s' := Two(Mailbox(1, true), 3, Posting(2), 3, 0), Two(Mailbox(2, true), 3, Choosing, 3, 1);
    ReachedBy(s, MPost);
    assert Next(1, s, MPost).pools == s'.pools;
    assert Next(1, s, MPost) == s';
  }

  /** The accept loop overwrites a mailbox that was not read yet: two connections
      into a run the first one is gone for good. */
  lemma MailboxLosesConnection()
    ensures exists s :: Reached(s) && s.lost == 1 && HandoffLosses.Gone(s, 1)
  {
    SecondPosted();
    var s := Two(Mailbox(2, true), 3, Choosing, 3, 1);
    assert Reached(s) && HandoffLosses.Gone(s, 1);
  }
}
