/** Bookkeeping over whole runs: the descriptor count, the pools' counters,
    and the connections. */
module HandoffAccounting {
  import opened ThreadPool
  import opened Handoff

  /** The kinds of events that the counters are about. */
  datatype Kind =
    | Accepts | Closings | NotPresents
    | Assignments(p: nat) | PoolClosings(p: nat) | Polls(p: nat, j: nat) | Rounds(p: nat, j: nat)

  predicate Is(kind: Kind, step: Step) {
    match kind
    case Accepts => step.MAccept?
    case Closings => step.Pooled? && step.ps.WClose?
    case NotPresents => step.Pooled? && step.ps.WNotPresent?
    case Assignments(p) => step == Pooled(p, DFill)
    case PoolClosings(p) => step.Pooled? && step.p == p && step.ps.WClose?
    case Polls(p, j) => step.Pooled? && step.p == p && step.ps.WPoll? && step.ps.j == j
    case Rounds(p, j) => step == Pooled(p, WUnlock(j))
  }

  function Tally(steps: seq<Step>, kind: Kind): nat {
    if steps == [] then 0 else (if Is(kind, steps[0]) then 1 else 0) + Tally(steps[1..], kind)
  }

  /** A pool that does not exist yet counts nothing. */
  function CounterOf(s: State, p: nat): int {
    if p < |s.pools| then s.pools[p].data.counter else 0
  }

  /** What a step does to max_descriptor. */
  function Delta(step: Step): int {
    if Is(Accepts, step) then 1 else if Is(Closings, step) || Is(NotPresents, step) then -1 else 0
  }

  function Net(steps: seq<Step>): int {
    if steps == [] then 0 else Delta(steps[0]) + Net(steps[1..])
  }

  lemma {:induction false} NetIsTally(steps: seq<Step>)
    ensures Net(steps) == Tally(steps, Accepts) - Tally(steps, Closings) - Tally(steps, NotPresents)
  {
    if steps == [] {
    } else {
      NetIsTally(steps[1..]);
    }
  }

  /** max_descriptor after a step, and after steps. */
  function Bumped(x: nat, step: Step): nat {
    if Delta(step) > 0 then Up(x) else if Delta(step) < 0 then Down(x) else x
  }

  function BumpedBy(x: nat, steps: seq<Step>): nat
    decreases |steps|
  {
    if steps == [] then x else BumpedBy(Bumped(x, steps[0]), steps[1..])
  }

  lemma DescriptorStep(n: nat, s: State, step: Step)
    requires Shaped(s, n) && Enabled(n, s, step)
    ensures Next(n, s, step).maxDescriptor == Bumped(s.maxDescriptor, step)
  {
  }

  lemma {:induction false} DescriptorsFrom(n: nat, s: State, steps: seq<Step>)
    requires Shaped(s, n) && Runs(n, s, steps)
    ensures After(n, s, steps).maxDescriptor == BumpedBy(s.maxDescriptor, steps)
    decreases |steps|
  {
    if steps == [] {
    } else {
      FirstStep(n, s, steps);
      DescriptorStep(n, s, steps[0]);
      DescriptorsFrom(n, Next(n, s, steps[0]), steps[1..]);
    }
  }

  /** Unsigned arithmetic is arithmetic modulo 2^64. */
  lemma BumpedIs(x: int, step: Step)
    ensures Bumped(x % NFDS, step) == (x + Delta(step)) % NFDS
  {
  }

  lemma {:induction false} BumpedByIs(x: int, steps: seq<Step>)
    ensures BumpedBy(x % NFDS, steps) == (x + Net(steps)) % NFDS
    decreases |steps|
  {
    if steps == [] {
    } else {
      BumpedIs(x, steps[0]);
      BumpedByIs(x + Delta(steps[0]), steps[1..]);
      assert x + Net(steps) == x + Delta(steps[0]) + Net(steps[1..]);
    }
  }

  lemma BumpedFromOne(steps: seq<Step>)
    ensures BumpedBy(1, steps)
         == (1 + Tally(steps, Accepts) - Tally(steps, Closings) - Tally(steps, NotPresents)) % NFDS
  {
    BumpedByIs(1, steps);
    NetIsTally(steps);
    var net := Tally(steps, Accepts) - Tally(steps, Closings) - Tally(steps, NotPresents);
    assert 1 + Net(steps) == 1 + net;
  }

  /** max_descriptor over a whole run, as an unsigned 64-bit number. */
  lemma DescriptorsAccount(n: nat, size: nat, steps: seq<Step>)
    requires n > 0 && size > 0 && Runs(n, Init(n, size), steps)
    ensures After(n, Init(n, size), steps).maxDescriptor
         == (1 + Tally(steps, Accepts) - Tally(steps, Closings) - Tally(steps, NotPresents)) % NFDS
  {
    DescriptorsFrom(n, Init(n, size), steps);
    BumpedFromOne(steps);
  }

  lemma CounterStep(n: nat, s: State, step: Step, p: nat)
    requires Shaped(s, n) && Enabled(n, s, step)
    ensures CounterOf(Next(n, s, step), p)
         == CounterOf(s, p) + (if Is(Assignments(p), step) then 2 else 0)
                            - (if Is(PoolClosings(p), step) then 1 else 0)
  {
  }

  lemma {:induction false} CounterFrom(n: nat, s: State, steps: seq<Step>, p: nat)
    requires Shaped(s, n) && Runs(n, s, steps)
    ensures CounterOf(After(n, s, steps), p)
         == CounterOf(s, p) + 2 * Tally(steps, Assignments(p)) - Tally(steps, PoolClosings(p))
    decreases |steps|
  {
    if steps == [] {
    } else {
      FirstStep(n, s, steps);
      CounterStep(n, s, steps[0], p);
      CounterFrom(n, Next(n, s, steps[0]), steps[1..], p);
    }
  }

  /** Each pool's counter counts every assignment twice, in get_E and in dispatch_job. */
  lemma CountersAccount(n: nat, size: nat, steps: seq<Step>, p: nat)
    requires n > 0 && size > 0 && Runs(n, Init(n, size), steps)
    ensures CounterOf(After(n, Init(n, size), steps), p)
         == 2 * Tally(steps, Assignments(p)) - Tally(steps, PoolClosings(p))
  {
    CounterFrom(n, Init(n, size), steps, p);
  }

  // What the counter is documented to be: the number of occupied slots.

  function Used(arr: seq<ThreadData>): nat {
    if arr == [] then 0 else (if arr[0].used != FREE then 1 else 0) + Used(arr[1..])
  }

  lemma {:induction false} UsedAfterUpdate(arr: seq<ThreadData>, j: nat, td: ThreadData)
    requires j < |arr|
    ensures Used(arr[j := td])
         == Used(arr) - (if arr[j].used != FREE then 1 else 0) + (if td.used != FREE then 1 else 0)
  {
    if j == 0 {
      assert arr[j := td][1..] == arr[1..];
    } else {
      assert arr[j := td][1..] == arr[1..][j - 1 := td];
      UsedAfterUpdate(arr[1..], j - 1, td);
    }
  }

  lemma {:induction false} UsedFresh(n: nat)
    ensures Used(FreshPool(n).arr) == 0
  {
    if n == 0 {
    } else {
      assert FreshPool(n).arr[1..] == FreshPool(n - 1).arr;
      UsedFresh(n - 1);
    }
  }

  function UsedOf(s: State, p: nat): nat {
    if p < |s.pools| then Used(s.pools[p].data.arr) else 0
  }

  /** A step that closes a slot which is free already. */
  predicate ClosesFreeSlot(s: State, step: Step, p: nat) {
    && step.Pooled? && step.p == p < |s.pools| && step.ps.WClose?
    && step.ps.j < |s.pools[p].data.arr| && IsFree(s.pools[p].data, step.ps.j)
  }

  ghost function FreeClosings(n: nat, s: State, steps: seq<Step>, p: nat): nat
    requires Shaped(s, n) && Runs(n, s, steps)
    decreases |steps|
  {
    if steps == [] then 0
    else
      NextKeepsShape(n, s, steps[0]);
      (if ClosesFreeSlot(s, steps[0], p) then 1 else 0) + FreeClosings(n, Next(n, s, steps[0]), steps[1..], p)
  }

  lemma UsedPoolStep(n: nat, p: PoolState, ps: PoolStep)
    requires Sized(p, n) && InPool(n, p, ps)
    ensures Used(PoolNext(n, p, ps).data.arr)
         == Used(p.data.arr) + (if ps.DFill? then 1 else 0)
          - (if ps.WClose? && !IsFree(p.data, ps.j) then 1 else 0)
  {
    var arr := p.data.arr;
    match ps
    case DFill =>
      UsedAfterUpdate(arr, Pick(p.data), ThreadData(p.disp.conn, TIMER_START, REQUEST_START, 1, 1));
    case WReplied(j) => UsedAfterUpdate(arr, j, arr[j].(msgReceived := 0));
    case WNotPresent(j) => UsedAfterUpdate(arr, j, arr[j].(msgReceived := 0));
    case WPoll(j, ready) => UsedAfterUpdate(arr, j, Tick(arr[j], ready).0);
    case WClose(j) => UsedAfterUpdate(arr, j, ClosedSlot(arr[j]));
    case _ =>
  }

  lemma UsedStep(n: nat, s: State, step: Step, p: nat)
    requires Shaped(s, n) && Enabled(n, s, step)
    ensures UsedOf(Next(n, s, step), p)
         == UsedOf(s, p) + (if Is(Assignments(p), step) then 1 else 0)
                         - (if Is(PoolClosings(p), step) && !ClosesFreeSlot(s, step, p) then 1 else 0)
  {
    if step.Pooled? && step.p == p {
      UsedPoolStep(n, s.pools[p], step.ps);
    } else if step.MChoose? {
      UsedFresh(n);
    }
  }

  lemma {:induction false} UsedFrom(n: nat, s: State, steps: seq<Step>, p: nat)
    requires Shaped(s, n) && Runs(n, s, steps)
    ensures UsedOf(After(n, s, steps), p)
         == UsedOf(s, p) + Tally(steps, Assignments(p)) - Tally(steps, PoolClosings(p)) + FreeClosings(n, s, steps, p)
    decreases |steps|
  {
    if steps == [] {
    } else {
      FirstStep(n, s, steps);
      UsedStep(n, s, steps[0], p);
      UsedFrom(n, Next(n, s, steps[0]), steps[1..], p);
    }
  }

  /** The counter is not the number of occupied slots: it is that number plus the
      assignments made so far less the closings of slots that were free, and so
      equals it exactly when those two agree. */
  lemma CounterIsOccupancyExactly(n: nat, size: nat, steps: seq<Step>, p: nat)
    requires n > 0 && size > 0 && Runs(n, Init(n, size), steps)
    ensures var s := After(n, Init(n, size), steps);
            && CounterOf(s, p) == UsedOf(s, p) + Tally(steps, Assignments(p))
                                - FreeClosings(n, Init(n, size), steps, p)
            && (CounterOf(s, p) == UsedOf(s, p)
                <==> Tally(steps, Assignments(p)) == FreeClosings(n, Init(n, size), steps, p))
  {
    UsedFresh(n);
    CountersAccount(n, size, steps, p);
    UsedFrom(n, Init(n, size), steps, p);
  }

  // Where the accepted connections are.

  function Waiting(pools: seq<PoolState>): nat {
    if pools == [] then 0 else (if pools[0].box.unread then 1 else 0) + Waiting(pools[1..])
  }

  lemma {:induction false} WaitingAfterUpdate(pools: seq<PoolState>, i: nat, p: PoolState)
    requires i < |pools|
    ensures Waiting(pools[i := p])
         == Waiting(pools) - (if pools[i].box.unread then 1 else 0) + (if p.box.unread then 1 else 0)
  {
    if i == 0 {
      assert pools[i := p][1..] == pools[1..];
    } else {
      assert pools[i := p][1..] == pools[1..][i - 1 := p];
      WaitingAfterUpdate(pools[1..], i - 1, p);
    }
  }

  lemma {:induction false} WaitingAfterGrowth(pools: seq<PoolState>, more: seq<PoolState>)
    requires forall i | 0 <= i < |more| :: !more[i].box.unread
    ensures Waiting(pools + more) == Waiting(pools)
    decreases |pools|, |more|
  {
    if pools != [] {
      assert (pools + more)[1..] == pools[1..] + more;
      WaitingAfterGrowth(pools[1..], more);
    } else if more != [] {
      assert pools + more == more;
      assert [] + more[1..] == more[1..];
      WaitingAfterGrowth([], more[1..]);
    } else {
      assert pools + more == [];
    }
  }

  /** Accepted connections and repeated reads on one side; deliveries, the one in
      the accept loop, those in unread mailboxes and those overwritten there on the other. */
  predicate Conserved(s: State) {
    s.nextConn - 1 + s.stale
    == |s.delivered| + (if s.main.Posting? then 1 else 0) + Waiting(s.pools) + s.lost
  }

  lemma ConservedPreserved(n: nat, s: State, step: Step)
    requires Shaped(s, n) && Enabled(n, s, step) && Conserved(s)
    ensures Conserved(Next(n, s, step))
  {
    match step
    case MAccept =>
    case MPost =>
      WaitingAfterUpdate(s.pools, s.idxPool, Posted(s.pools[s.idxPool], s.main.conn));
    case MChoose =>
      WaitingAfterGrowth(s.pools, seq(Grown(n, s.s, s.maxDescriptor) - s.s, _ => NewPool(n)));
    case Pooled(p, ps) =>
      WaitingAfterUpdate(s.pools, p, PoolNext(n, s.pools[p], ps));
  }

  lemma {:induction false} ConservedAlways(n: nat, s: State, steps: seq<Step>)
    requires Shaped(s, n) && Runs(n, s, steps) && Conserved(s)
    ensures Conserved(After(n, s, steps))
    decreases |steps|
  {
    if steps == [] {
    } else {
      FirstStep(n, s, steps);
      ConservedPreserved(n, s, steps[0]);
      ConservedAlways(n, Next(n, s, steps[0]), steps[1..]);
    }
  }

  /** No connection appears or disappears unaccounted for. */
  lemma ConnectionsAccount(n: nat, size: nat, steps: seq<Step>)
    requires n > 0 && size > 0 && Runs(n, Init(n, size), steps)
    ensures Conserved(After(n, Init(n, size), steps))
  {
    assert Init(n, size).pools == [] + seq(size, _ => NewPool(n));
    WaitingAfterGrowth([], seq(size, _ => NewPool(n)));
    ConservedAlways(n, Init(n, size), steps);
  }
}
