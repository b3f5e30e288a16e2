/** One pool of worker slots (ThreadPool.c): the ring allocator, the filling and
    the closing of a slot, and the keep-alive timer. The functions say what each
    operation does to the pool's data; the methods of `Pool` carry it out in
    place and are proved against them. */
module ThreadPool {

  /** struct thread_data, as far as the protocol uses it. */
  datatype ThreadData = ThreadData(connSd: int, timer: int, request: int, msgReceived: int, used: int)

  /** The data of a struct pool_t: the slots, the ring index E and the counter. */
  datatype PoolData = PoolData(arr: seq<ThreadData>, e: nat, counter: int)

  const FREE: int := -1
  const TIMER_START: int := 5
  const REQUEST_START: int := 1000

  /** allocate_pool: zeroed memory, every slot free. */
  const FRESH_SLOT := ThreadData(0, 0, 0, 0, FREE)

  function FreshPool(n: nat): PoolData {
    PoolData(seq(n, _ => FRESH_SLOT), 0, 0)
  }

  predicate GoodPool(p: PoolData, n: nat) {
    n > 0 && |p.arr| == n && p.e < n
  }

  // The ring allocator.

  predicate IsFree(p: PoolData, j: nat)
    requires j < |p.arr|
  {
    p.arr[j].used == FREE
  }

  /** x % n, for the sums that the ring arithmetic meets. */
  function Wrap(x: nat, n: nat): (r: nat)
    requires x < 2 * n
    ensures r == if x < n then x else x - n
  {
    assert x >= n ==> x == n + (x - n) && (n + (x - n)) / n == 1;
    x % n
  }

  /** The slot `i` places after E. */
  function RingAt(p: PoolData, i: nat): (j: nat)
    requires p.e < |p.arr| && i < |p.arr|
    ensures j < |p.arr|
  {
    Wrap(p.e + i, |p.arr|)
  }

  /** How many places the ring search is before it reaches slot `j`. */
  function Distance(p: PoolData, j: nat): (d: nat)
    requires j < |p.arr| && p.e < |p.arr|
    ensures d < |p.arr|
  {
    if j >= p.e then j - p.e else j + |p.arr| - p.e
  }

  /** A search from place `i` on: the first place that holds a free slot, n when none does. */
  function FirstFree(p: PoolData, i: nat): (k: nat)
    requires p.e < |p.arr| && i <= |p.arr|
    ensures i <= k <= |p.arr|
    ensures forall m | i <= m < k :: !IsFree(p, RingAt(p, m))
    ensures k < |p.arr| ==> IsFree(p, RingAt(p, k))
    decreases |p.arr| - i
  {
    if i == |p.arr| || IsFree(p, RingAt(p, i)) then i else FirstFree(p, i + 1)
  }

  predicate SomeFree(p: PoolData)
    requires p.e < |p.arr|
  {
    FirstFree(p, 0) < |p.arr|
  }

  function Pick(p: PoolData): (j: nat)
    requires p.e < |p.arr| && SomeFree(p)
    ensures j < |p.arr| && IsFree(p, j)
  {
    RingAt(p, FirstFree(p, 0))
  }

  /** get_E and the filling of the slot it returns; both count the assignment. */
  function Assign(p: PoolData, connSd: int): PoolData
    requires p.e < |p.arr| && SomeFree(p)
  {
    var j := Pick(p);
    PoolData(p.arr[j := ThreadData(connSd, TIMER_START, REQUEST_START, 1, 1)],
             Wrap(j + 1, |p.arr|),
             p.counter + 2)
  }

  function ClosedSlot(td: ThreadData): ThreadData {
    ThreadData(td.connSd, TIMER_START, REQUEST_START, 0, FREE)
  }

  function Close(p: PoolData, j: nat): PoolData
    requires j < |p.arr|
  {
    p.(arr := p.arr[j := ClosedSlot(p.arr[j])], counter := p.counter - 1)
  }

  // The keep-alive timer.

  datatype Verdict = PollAgain | Return(timer: int)

  /** One turn of the loop of handle_timer, given what poll said. */
  function Tick(td: ThreadData, ready: bool): (ThreadData, Verdict) {
    if td.timer == 0 then
      if ready then (td.(msgReceived := 1, request := td.request - 1, timer := TIMER_START), Return(1))
      else (td, Return(0))
    else if ready then
      var td' := td.(timer := td.timer - 1, msgReceived := 1, request := td.request - 1);
      (td', Return(td'.timer))
    else (td.(timer := td.timer - 1), PollAgain)
  }

  // Properties of the ring.

  lemma RingAtDistance(p: PoolData, j: nat)
    requires j < |p.arr| && p.e < |p.arr|
    ensures RingAt(p, Distance(p, j)) == j
  {
  }

  /** A pass over the ring finds a free slot exactly when there is one. */
  lemma SearchFindsFreeSlot(p: PoolData, n: nat)
    requires GoodPool(p, n)
    ensures SomeFree(p) <==> exists j | 0 <= j < n :: IsFree(p, j)
  {
    if j: nat :| j < n && IsFree(p, j) {
      RingAtDistance(p, j);
      assert IsFree(p, RingAt(p, Distance(p, j)));
    }
  }

  /** The picked slot lies `FirstFree` places from E. */
  lemma PickDistance(p: PoolData, n: nat)
    requires GoodPool(p, n) && SomeFree(p)
    ensures Distance(p, Pick(p)) == FirstFree(p, 0)
  {
  }

  /** A free slot that an allocation passes over is nearer to E afterwards. */
  lemma PassedOverComesNearer(p: PoolData, n: nat, connSd: int, j: nat)
    requires GoodPool(p, n) && SomeFree(p) && j < n && IsFree(p, j) && Pick(p) != j
    ensures GoodPool(Assign(p, connSd), n) && IsFree(Assign(p, connSd), j)
    ensures Distance(Assign(p, connSd), j) < Distance(p, j)
  {
    PickDistance(p, n);
    RingAtDistance(p, j);
    assert FirstFree(p, 0) <= Distance(p, j);
  }

  class Pool {
    const numThreadPool: nat
    const arr: array<ThreadData>
    var E: nat
    var counter: int

    ghost predicate Valid()
      reads this, arr
    {
      GoodPool(Data(), numThreadPool)
    }

    ghost function Data(): PoolData
      reads this, arr
    {
      PoolData(arr[..], E, counter)
    }

    /** allocate_pool */
    constructor (numThreads: nat)
      requires numThreads > 0
      ensures numThreadPool == numThreads && fresh(arr)
      ensures Valid() && Data() == FreshPool(numThreads)
    {
      numThreadPool := numThreads;
      arr := new ThreadData[numThreads](_ => FRESH_SLOT);
      E, counter := 0, 0;
    }

    /** get_E, one pass over the ring. A pass that finds no free slot waits for
        cb_not_full and is made again. */
    method GetE() returns (found: bool, nE: nat)
      requires Valid()
      modifies this`E, this`counter
      ensures Valid()
      ensures found <==> old(SomeFree(Data()))
      ensures found ==> nE == old(Pick(Data()))
      ensures found ==> E == Wrap(nE + 1, numThreadPool) && counter == old(counter) + 1
      ensures !found ==> Data() == old(Data())
    {
      var i := 0;
      nE := 0;
      while i < numThreadPool
        invariant 0 <= i <= numThreadPool
        invariant FirstFree(Data(), 0) == FirstFree(Data(), i)
      {
        nE := (E + i) % numThreadPool;
        if arr[nE].used == FREE {
          E := (nE + 1) % numThreadPool;
          counter := counter + 1;
          return true, nE;
        }
        i := i + 1;
      }
      found := false;
    }

    /** dispatch_job, lines 189-199: find a free slot and fill it. */
    method DispatchJob(connSd: int) returns (found: bool, nE: nat)
      requires Valid()
      modifies this`E, this`counter, arr
      ensures Valid()
      ensures found <==> old(SomeFree(Data()))
      ensures found ==> nE == old(Pick(Data())) && Data() == old(Assign(Data(), connSd))
      ensures !found ==> Data() == old(Data())
    {
      found, nE := GetE();
      if found {
        arr[nE] := arr[nE].(connSd := connSd);
        arr[nE] := arr[nE].(timer := TIMER_START);
        arr[nE] := arr[nE].(request := REQUEST_START);
        arr[nE] := arr[nE].(msgReceived := 1);
        arr[nE] := arr[nE].(used := 1);
        counter := counter + 1;
      }
    }

    /** close_client_with_status, the part that concerns the pool. */
    method CloseSlot(e: nat)
      requires Valid() && e < numThreadPool
      modifies this`counter, arr
      ensures Valid() && Data() == old(Close(Data(), e))
    {
      arr[e] := arr[e].(used := FREE);
      arr[e] := arr[e].(timer := TIMER_START);
      arr[e] := arr[e].(msgReceived := 0);
      arr[e] := arr[e].(request := REQUEST_START);
      counter := counter - 1;
    }
  }
}
