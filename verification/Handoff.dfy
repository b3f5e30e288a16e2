/** The threads of the server as one transition system (ThreadPool.c:94-297,
    HttpServer.c:50-120): the accept loop posts connections to the pools'
    dispatchers, each dispatcher fills a free slot and wakes its worker, workers
    serve and close, and the set of pools doubles under load.

    Granularity. These are single steps: the mailbox write with its signal; the
    ring search with the filling of the slot; the dispatcher's lock, signal and
    unlock; the worker's lock, test, wait, wake-up and unlock; closing a slot;
    and the whole doubling of the pools. Waits may end without a signal. */
module Handoff {
  import opened ThreadPool

  /** Where a worker is: in wait_for_connection (from Start to Leaving), serving a
      request, in handle_timer, or about to close. */
  datatype WorkerPc = Start | Test | Sleep | Blocked | Woken | Leaving | Serving | Polling | Closing

  /** Holder of a slot's mtx_new_request. */
  datatype Owner = Nobody | TheWorker | TheDispatcher

  datatype Worker = Worker(pc: WorkerPc, mutex: Owner)

  /** Where a dispatcher is: about to wait for its mailbox, waiting, woken, holding
      the connection it read, or at line 203, 204 or 205 with slot nE. */
  datatype DispatcherPc =
    | Arriving
    | Waiting
    | Signalled
    | Holding(conn: int)
    | Filled(nE: nat)
    | Locked(nE: nat)
    | Notified(nE: nat)

  /** dispatcher[p].conn_sd; `unread` records that it was not read since it was
      written, and no step looks at it. */
  datatype Mailbox = Mailbox(conn: int, unread: bool)

  datatype PoolState = PoolState(data: PoolData, workers: seq<Worker>, disp: DispatcherPc, box: Mailbox)

  function NewPool(n: nat): PoolState {
    PoolState(FreshPool(n), seq(n, _ => Worker(Start, Nobody)), Arriving, Mailbox(0, false))
  }

  // The steps inside one pool.

  datatype PoolStep =
    | DWait | DSpurious | DRead | DFill | DLock | DSignal | DUnlock
    | WLock(j: nat) | WTest(j: nat) | WWait(j: nat) | WSpurious(j: nat) | WRelock(j: nat) | WUnlock(j: nat)
    | WReplied(j: nat) | WOtherStatus(j: nat) | WNotPresent(j: nat) | WPoll(j: nat, ready: bool) | WClose(j: nat)

  predicate At(p: PoolState, j: nat, pc: WorkerPc) {
    j < |p.workers| && p.workers[j].pc == pc
  }

  predicate Sized(p: PoolState, n: nat) {
    GoodPool(p.data, n) && |p.workers| == n
  }

  predicate InPool(n: nat, p: PoolState, ps: PoolStep)
    requires Sized(p, n)
  {
    match ps
    case DWait => p.disp == Arriving
    case DSpurious => p.disp == Waiting
    case DRead => p.disp == Signalled
    case DFill => p.disp.Holding? && SomeFree(p.data)
    case DLock => p.disp.Filled? && p.disp.nE < n && p.workers[p.disp.nE].mutex == Nobody
    case DSignal => p.disp.Locked? && p.disp.nE < n
    case DUnlock => p.disp.Notified? && p.disp.nE < n
    case WLock(j) => At(p, j, Start) && p.workers[j].mutex == Nobody
    case WTest(j) => At(p, j, Test)
    case WWait(j) => At(p, j, Sleep)
    case WSpurious(j) => At(p, j, Blocked)
    case WRelock(j) => At(p, j, Woken) && p.workers[j].mutex == Nobody
    case WUnlock(j) => At(p, j, Leaving)
    case WReplied(j) => At(p, j, Serving) && p.data.arr[j].request != 0
    case WOtherStatus(j) => At(p, j, Serving) && p.data.arr[j].request != 0
    case WNotPresent(j) => At(p, j, Serving) && p.data.arr[j].request != 0
    case WPoll(j, _) => At(p, j, Polling)
    case WClose(j) => At(p, j, Serving) || At(p, j, Closing)
  }

  function Move(p: PoolState, j: nat, w: Worker): PoolState
    requires j < |p.workers|
  {
    p.(workers := p.workers[j := w])
  }

  function SetSlot(p: PoolState, j: nat, td: ThreadData): PoolState
    requires j < |p.data.arr|
  {
    p.(data := p.data.(arr := p.data.arr[j := td]))
  }

  function PoolNext(n: nat, p: PoolState, ps: PoolStep): PoolState
    requires Sized(p, n) && InPool(n, p, ps)
  {
    match ps
    case DWait => p.(disp := Waiting)
    case DSpurious => p.(disp := Signalled)
    case DRead => p.(disp := Holding(p.box.conn), box := p.box.(unread := false))
    case DFill => p.(data := Assign(p.data, p.disp.conn), disp := Filled(Pick(p.data)))
    case DLock => Move(p, p.disp.nE, p.workers[p.disp.nE].(mutex := TheDispatcher)).(disp := Locked(p.disp.nE))
    case DSignal =>
      var w := p.workers[p.disp.nE];
      Move(p, p.disp.nE, if w.pc == Blocked then w.(pc := Woken) else w).(disp := Notified(p.disp.nE))
    case DUnlock => Move(p, p.disp.nE, p.workers[p.disp.nE].(mutex := Nobody)).(disp := Arriving)
    case WLock(j) => Move(p, j, Worker(Test, TheWorker))
    case WTest(j) => Move(p, j, Worker(if p.data.arr[j].msgReceived != 1 then Sleep else Leaving, TheWorker))
    case WWait(j) => Move(p, j, Worker(Blocked, Nobody))
    case WSpurious(j) => Move(p, j, p.workers[j].(pc := Woken))
    case WRelock(j) => Move(p, j, Worker(Leaving, TheWorker))
    case WUnlock(j) => Move(p, j, Worker(Serving, Nobody))
    case WReplied(j) =>
      SetSlot(Move(p, j, p.workers[j].(pc := Polling)), j, p.data.arr[j].(msgReceived := 0))
    case WOtherStatus(j) => Move(p, j, p.workers[j].(pc := Polling))
    case WNotPresent(j) =>
      SetSlot(Move(p, j, p.workers[j].(pc := Polling)), j, p.data.arr[j].(msgReceived := 0))
    case WPoll(j, ready) =>
      var (td, v) := Tick(p.data.arr[j], ready);
      var pc := if v == PollAgain then Polling else if v == Return(0) then Closing else Start;
      SetSlot(Move(p, j, p.workers[j].(pc := pc)), j, td)
    case WClose(j) =>
      Move(p, j, p.workers[j].(pc := Start)).(data := Close(p.data, j))
  }

  // The whole server.

  /** nfds_t max_descriptor is an unsigned 64-bit number. */
  const NFDS: nat := 0x1_0000_0000_0000_0000

  const MAX_POOLS: nat := 32

  datatype MainPc = Accepting | Posting(conn: int) | Choosing

  /** `nextConn` numbers the accepted connections from 1 on; `delivered`, `lost`
      and `stale` record what happened to the mailboxes, and no step looks at them. */
  datatype State = State(
    pools: seq<PoolState>, s: nat, idxPool: nat, maxDescriptor: nat, main: MainPc,
    nextConn: nat, delivered: seq<int>, lost: nat, stale: nat)

  function Init(n: nat, size: nat): State
    requires size > 0
  {
    State(seq(size, _ => NewPool(n)), size, 0, 1, Accepting, 1, [], 0, 0)
  }

  datatype Step = MAccept | MPost | MChoose | Pooled(p: nat, ps: PoolStep)

  predicate Shaped(s: State, n: nat) {
    && |s.pools| == s.s > s.idxPool
    && forall p | 0 <= p < |s.pools| :: Sized(s.pools[p], n)
  }

  /** The size of the set of pools after the test at HttpServer.c:95-97. */
  function Grown(n: nat, size: nat, maxDescriptor: nat): nat {
    if maxDescriptor >= n * size / 2 && size + size < MAX_POOLS then size + size else size
  }

  /** idx_pool at the end of the loop body, HttpServer.c:112-117. */
  function NextPool(n: nat, size: nat, maxDescriptor: nat, idxPool: nat): nat
    requires size > 0
  {
    var base := if maxDescriptor >= n * size / 2 then n * size else idxPool;
    (base + 1) % Grown(n, size, maxDescriptor)
  }

  function Down(x: nat): nat { if x == 0 then NFDS - 1 else x - 1 }

  function Up(x: nat): nat { if x + 1 == NFDS then 0 else x + 1 }

  predicate Enabled(n: nat, s: State, step: Step)
    requires Shaped(s, n)
  {
    match step
    case MAccept => s.main == Accepting
    case MPost => s.main.Posting?
    case MChoose => s.main == Choosing
    case Pooled(p, ps) => p < |s.pools| && InPool(n, s.pools[p], ps)
  }

  function Posted(p: PoolState, conn: int): PoolState {
    p.(box := Mailbox(conn, true), disp := if p.disp == Waiting then Signalled else p.disp)
  }

  function Next(n: nat, s: State, step: Step): State
    requires Shaped(s, n) && Enabled(n, s, step)
  {
    match step
    case MAccept =>
      s.(main := Posting(s.nextConn), nextConn := s.nextConn + 1, maxDescriptor := Up(s.maxDescriptor))
    case MPost =>
      var p := s.pools[s.idxPool];
      s.(pools := s.pools[s.idxPool := Posted(p, s.main.conn)],
         main := Choosing,
         lost := if p.box.unread then s.lost + 1 else s.lost)
    case MChoose =>
      var size := Grown(n, s.s, s.maxDescriptor);
      s.(pools := s.pools + seq(size - s.s, _ => NewPool(n)),
         s := size,
         idxPool := NextPool(n, s.s, s.maxDescriptor, s.idxPool),
         main := Accepting)
    case Pooled(p, ps) =>
      var s' := s.(pools := s.pools[p := PoolNext(n, s.pools[p], ps)]);
      match ps
      case DRead =>
        s'.(delivered := s.delivered + [s.pools[p].box.conn],
            stale := if s.pools[p].box.unread then s.stale else s.stale + 1)
      case WNotPresent(_) => s'.(maxDescriptor := Down(s.maxDescriptor))
      case WClose(_) => s'.(maxDescriptor := Down(s.maxDescriptor))
      case _ => s'
  }

  lemma NextKeepsShape(n: nat, s: State, step: Step)
    requires Shaped(s, n) && Enabled(n, s, step)
    ensures Shaped(Next(n, s, step), n)
  {
    if step.Pooled? {
      PoolNextKeepsSize(n, s.pools[step.p], step.ps);
    }
  }

  lemma PoolNextKeepsSize(n: nat, p: PoolState, ps: PoolStep)
    requires Sized(p, n) && InPool(n, p, ps)
    ensures Sized(PoolNext(n, p, ps), n)
  {
  }

  // Runs.

  ghost predicate Runs(n: nat, s: State, steps: seq<Step>)
    requires Shaped(s, n)
    decreases |steps|
  {
    steps == [] ||
    (Enabled(n, s, steps[0]) && (NextKeepsShape(n, s, steps[0]); Runs(n, Next(n, s, steps[0]), steps[1..])))
  }

  ghost function After(n: nat, s: State, steps: seq<Step>): (s': State)
    requires Shaped(s, n) && Runs(n, s, steps)
    ensures Shaped(s', n)
    decreases |steps|
  {
    if steps == [] then s
    else
      NextKeepsShape(n, s, steps[0]);
      After(n, Next(n, s, steps[0]), steps[1..])
  }

  /** The first step of a run, and the run it leaves. */
  lemma FirstStep(n: nat, s: State, steps: seq<Step>)
    requires Shaped(s, n) && Runs(n, s, steps) && steps != []
    ensures Enabled(n, s, steps[0]) && Shaped(Next(n, s, steps[0]), n)
    ensures Runs(n, Next(n, s, steps[0]), steps[1..])
    ensures After(n, s, steps) == After(n, Next(n, s, steps[0]), steps[1..])
  {
    NextKeepsShape(n, s, steps[0]);
  }
}
