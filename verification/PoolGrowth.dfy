/** The set of pools and its doubling (HttpServer.c:83-117 and 309-395,
    ThreadPool.c:128-159), with the handshake between the accept loop and
    handle_pool taken as one call. */
module PoolGrowth {
  import opened ThreadPool
  import opened Handoff
  import opened HandoffChoice

  /** struct dispatcher without its synchronisation. */
  datatype Dispatcher = Dispatcher(idxPool: int, connSd: int, request: int)

  class Server {
    const numThreadPool: nat
    const pool: array<Pool?>
    const dispatcher: array<Dispatcher>
    var sizePool: nat
    var s: nat
    var idxPool: nat
    var maxDescriptor: nat

    /** Exactly the first sizePool entries are allocated, each its own pool with its
        own slots. */
    ghost predicate Allocated()
      reads this, pool
    {
      && pool.Length == dispatcher.Length == MAX_POOLS
      && numThreadPool > 0
      && 0 < sizePool <= MAX_POOLS
      && (forall i | 0 <= i < MAX_POOLS :: pool[i] != null <==> i < sizePool)
      && (forall i | 0 <= i < sizePool :: pool[i].numThreadPool == numThreadPool)
      && (forall i, j | 0 <= i < j < sizePool :: pool[i] != pool[j] && pool[i].arr != pool[j].arr)
    }

    /** What holds at the head of the accept loop. */
    ghost predicate AtLoopHead()
      reads this, pool
    {
      Allocated() && s == sizePool && idxPool < s && maxDescriptor < NFDS
    }

    /** init_server and the start of main. */
    constructor (numThreads: nat, size: nat)
      requires numThreads > 0 && 0 < size <= MAX_POOLS
      ensures AtLoopHead() && numThreadPool == numThreads && sizePool == size
      ensures idxPool == 0 && maxDescriptor == 1
      ensures fresh(pool) && fresh(dispatcher)
      ensures forall i | 0 <= i < size ::
                fresh(pool[i]) && fresh(pool[i].arr) && pool[i].Data() == FreshPool(numThreads)
      ensures forall i | 0 <= i < MAX_POOLS :: dispatcher[i] == Dispatcher(if i < size then i else 0, 0, 0)
    {
      numThreadPool := numThreads;
      pool := new Pool?[MAX_POOLS](_ => null);
      dispatcher := new Dispatcher[MAX_POOLS](_ => Dispatcher(0, 0, 0));
      sizePool, s, idxPool, maxDescriptor := size, size, 0, 1;
      new;
      var i := 0;
      while i < sizePool
        invariant 0 <= i <= sizePool == size
        invariant forall k | 0 <= k < MAX_POOLS :: pool[k] != null <==> k < i
        invariant forall k | 0 <= k < i ::
                    pool[k].numThreadPool == numThreads && fresh(pool[k]) && fresh(pool[k].arr)
                    && pool[k].Data() == FreshPool(numThreads)
        invariant forall k, l | 0 <= k < l < i :: pool[k] != pool[l] && pool[k].arr != pool[l].arr
        invariant forall k | 0 <= k < MAX_POOLS :: dispatcher[k] == Dispatcher(0, 0, 0)
        modifies pool
      {
        pool[i] := new Pool(numThreads);
        i := i + 1;
      }
      var counter := 0;
      while counter < sizePool
        invariant 0 <= counter <= sizePool == size
        invariant forall k | 0 <= k < MAX_POOLS :: dispatcher[k] == Dispatcher(if k < counter then k else 0, 0, 0)
        modifies dispatcher
      {
        dispatcher[counter] := dispatcher[counter].(idxPool := counter);
        dispatcher[counter] := dispatcher[counter].(request := 0);
        counter := counter + 1;
      }
    }

    /** ThreadPool.c:144-146: idx_pool is written twice, and the second value stays. */
    method SetUpDispatcher(idx: nat, pp: nat)
      requires idx < dispatcher.Length
      modifies dispatcher
      ensures dispatcher[..] == old(dispatcher[..])[idx := Dispatcher(pp, old(dispatcher[idx].connSd), 0)]
    {
      dispatcher[idx] := dispatcher[idx].(idxPool := idx);
      dispatcher[idx] := dispatcher[idx].(idxPool := pp);
      dispatcher[idx] := dispatcher[idx].(request := 0);
    }

    /** handle_pool, lines 135-153: as many new pools as there are. */
    method HandlePool()
      requires Allocated() && sizePool + sizePool <= MAX_POOLS
      modifies this`sizePool, pool, dispatcher
      ensures Allocated() && sizePool == old(sizePool) + old(sizePool)
      ensures pool[..old(sizePool)] == old(pool[..sizePool])
      ensures forall i | old(sizePool) <= i < sizePool ::
                fresh(pool[i]) && fresh(pool[i].arr) && pool[i].Data() == FreshPool(numThreadPool)
      ensures forall i | 0 <= i < MAX_POOLS ::
                dispatcher[i] == if old(sizePool) <= i < sizePool
                                 then Dispatcher(i - old(sizePool), old(dispatcher[i].connSd), 0)
                                 else old(dispatcher[i])
    {
      var pp := 0;
      while pp < sizePool
        invariant 0 <= pp <= sizePool
        invariant forall i | 0 <= i < MAX_POOLS :: pool[i] != null <==> i < sizePool + pp
        invariant forall i | 0 <= i < sizePool + pp :: pool[i].numThreadPool == numThreadPool
        invariant forall i, j | 0 <= i < j < sizePool + pp :: pool[i] != pool[j] && pool[i].arr != pool[j].arr
        invariant pool[..sizePool] == old(pool[..sizePool])
        invariant forall i | sizePool <= i < sizePool + pp ::
                    fresh(pool[i]) && fresh(pool[i].arr) && pool[i].Data() == FreshPool(numThreadPool)
        invariant forall i | 0 <= i < MAX_POOLS ::
                    dispatcher[i] == if sizePool <= i < sizePool + pp
                                     then Dispatcher(i - sizePool, old(dispatcher[i].connSd), 0)
                                     else old(dispatcher[i])
        modifies pool, dispatcher
      {
        pool[sizePool + pp] := new Pool(numThreadPool);
        SetUpDispatcher(sizePool + pp, pp);
        pp := pp + 1;
      }
      sizePool := sizePool + sizePool;
    }

    /** close_client_with_status on slot e of pool p. */
    method CloseClientWithStatus(p: nat, e: nat)
      requires AtLoopHead() && p < sizePool && pool[p].Valid() && e < numThreadPool
      modifies this`maxDescriptor, pool[p], pool[p].arr
      ensures AtLoopHead() && maxDescriptor == Down(old(maxDescriptor))
      ensures pool[p].Valid() && pool[p].Data() == old(Close(pool[p].Data(), e))
      ensures forall i | 0 <= i < sizePool && i != p :: pool[i].Data() == old(pool[i].Data())
    {
      maxDescriptor := if maxDescriptor == 0 then NFDS - 1 else maxDescriptor - 1;
      pool[p].CloseSlot(e);
    }

    /** The body of the accept loop for one connection. */
    method LoopBody(connSd: int)
      requires AtLoopHead()
      modifies this`sizePool, this`s, this`idxPool, this`maxDescriptor, pool, dispatcher
      ensures AtLoopHead()
      ensures maxDescriptor == Up(old(maxDescriptor))
      ensures sizePool == Grown(numThreadPool, old(sizePool), maxDescriptor)
      ensures idxPool == NextPool(numThreadPool, old(sizePool), maxDescriptor, old(idxPool))
      ensures forall i | 0 <= i < MAX_POOLS ::
                dispatcher[i] == if i == old(idxPool) then old(dispatcher[i]).(connSd := connSd)
                                 else if old(sizePool) <= i < sizePool
                                 then Dispatcher(i - old(sizePool), old(dispatcher[i].connSd), 0)
                                 else old(dispatcher[i])
      ensures pool[..old(sizePool)] == old(pool[..sizePool])
      ensures forall i | old(sizePool) <= i < sizePool ::
                fresh(pool[i]) && fresh(pool[i].arr) && pool[i].Data() == FreshPool(numThreadPool)
    {
      maxDescriptor := if maxDescriptor + 1 == NFDS then 0 else maxDescriptor + 1;
      dispatcher[idxPool] := dispatcher[idxPool].(connSd := connSd);
      if maxDescriptor >= (numThreadPool * s) / 2 {
        if s + s < MAX_POOLS {
          HandlePool();
        }
        idxPool := numThreadPool * s;
        s := sizePool;
      }
      idxPool := (idxPool + 1) % s;
    }
  }

  // The same over the runs of the whole server.

  lemma SizeStep(n: nat, s: State, step: Step)
    requires Shaped(s, n) && Enabled(n, s, step) && s.s <= MAX_POOLS
    ensures s.s <= Next(n, s, step).s <= MAX_POOLS
  {
  }

  lemma {:induction false} SizeAlways(n: nat, s: State, steps: seq<Step>)
    requires Shaped(s, n) && Runs(n, s, steps) && s.s <= MAX_POOLS
    ensures s.s <= After(n, s, steps).s <= MAX_POOLS
    decreases |steps|
  {
    if steps == [] {
    } else {
      FirstStep(n, s, steps);
      SizeStep(n, s, steps[0]);
      SizeAlways(n, Next(n, s, steps[0]), steps[1..]);
    }
  }

  /** In every run the number of pools is the initial one times a power of two, the
      doublings made so far, and at most 32; each index below it is allocated, and the
      accept loop picks one of them. */
  lemma GrowthStaysInArrays(n: nat, size: nat, steps: seq<Step>)
    requires n > 0 && 0 < size <= MAX_POOLS && Runs(n, Init(n, size), steps)
    ensures var s := After(n, Init(n, size), steps);
            && s.s == size * Pow2(Doublings(n, Init(n, size), steps))
            && size <= s.s == |s.pools| <= MAX_POOLS
            && s.idxPool < s.s
  {
    PoolsDoubleExactly(n, size, steps);
    SizeAlways(n, Init(n, size), steps);
  }
}
