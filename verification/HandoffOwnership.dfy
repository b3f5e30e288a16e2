/** Every accepted connection is delivered at most once and owned by one slot
    (ThreadPool.c:177-240, HttpServer.c:71-93). */
module HandoffOwnership {
  import opened ThreadPool
  import opened Handoff

  /** Where a connection can be once a dispatcher has read it. */
  datatype Place = Hand(p: nat) | Slot(p: nat, j: nat)

  predicate Holds(s: State, place: Place, c: int) {
    && place.p < |s.pools|
    && match place
       case Hand(p) => s.pools[p].disp == Holding(c)
       case Slot(p, j) =>
         && j < |s.pools[p].data.arr|
         && s.pools[p].data.arr[j].used != FREE
         && s.pools[p].data.arr[j].connSd == c
  }

  predicate Distinct(cs: seq<int>) {
    forall i, j | 0 <= i < j < |cs| :: cs[i] != cs[j]
  }

  /** Every delivery is of an accepted connection, and none is delivered twice. */
  predicate AtMostOnce(s: State) {
    Distinct(s.delivered) && forall i | 0 <= i < |s.delivered| :: 0 < s.delivered[i] < s.nextConn
  }

  // Mailboxes.

  predicate Unread(s: State, p: nat, c: int) {
    p < |s.pools| && s.pools[p].box == Mailbox(c, true)
  }

  /** A connection that waits in a mailbox or in the accept loop is accepted, not
      yet delivered, and nowhere else; a mailbox that was read holds nothing new. */
  ghost predicate BoxInv(s: State) {
    && s.nextConn > 0
    && (forall p, c | Unread(s, p, c) :: 0 < c < s.nextConn && c !in s.delivered)
    && (forall p, q, c | Unread(s, p, c) && Unread(s, q, c) :: p == q)
    && (s.main.Posting? ==>
          && 0 < s.main.conn < s.nextConn && s.main.conn !in s.delivered
          && forall p :: !Unread(s, p, s.main.conn))
    && (forall p | 0 <= p < |s.pools| ::
          s.pools[p].box.unread || s.pools[p].box.conn == 0 || s.pools[p].box.conn in s.delivered)
    && (forall i | 0 <= i < |s.delivered| :: s.delivered[i] < s.nextConn)
  }

  /** As long as no mailbox was read twice, whatever is held was delivered, and
      no two places hold the same connection. */
  ghost predicate OwnerInv(s: State) {
    && AtMostOnce(s)
    && (forall place, c | Holds(s, place, c) :: c in s.delivered)
    && (forall place, place', c | Holds(s, place, c) && Holds(s, place', c) :: place == place')
  }

  ghost predicate Inv(n: nat, s: State) {
    && Shaped(s, n)
    && BoxInv(s)
    && (AtMostOnce(s) <==> s.stale == 0)
    && (s.stale == 0 ==> OwnerInv(s))
  }

  lemma InvInitially(n: nat, size: nat)
    requires n > 0 && size > 0
    ensures Inv(n, Init(n, size))
  {
  }

  // What each kind of step does to the places.

  /** A step inside a pool that neither reads the mailbox nor fills a slot gives
      no connection to any place. */
  lemma QuietStepHolds(n: nat, s: State, p: nat, ps: PoolStep, place: Place, c: int)
    requires Shaped(s, n) && Enabled(n, s, Pooled(p, ps)) && !ps.DRead? && !ps.DFill?
    requires Holds(Next(n, s, Pooled(p, ps)), place, c)
    ensures Holds(s, place, c)
  {
  }

  /** Filling moves the connection from the dispatcher's hand to the slot, which was free. */
  lemma FillHolds(n: nat, s: State, p: nat, place: Place, c: int)
    requires Shaped(s, n) && Enabled(n, s, Pooled(p, DFill))
    requires Holds(Next(n, s, Pooled(p, DFill)), place, c)
    ensures if place == Slot(p, Pick(s.pools[p].data)) then Holds(s, Hand(p), c)
            else place != Hand(p) && Holds(s, place, c)
  {
  }

  lemma ReadHolds(n: nat, s: State, p: nat, place: Place, c: int)
    requires Shaped(s, n) && Enabled(n, s, Pooled(p, DRead))
    requires Holds(Next(n, s, Pooled(p, DRead)), place, c)
    ensures if place == Hand(p) then c == s.pools[p].box.conn else Holds(s, place, c)
  {
  }

  lemma PoolStepKeepsBox(n: nat, p: PoolState, ps: PoolStep)
    requires Sized(p, n) && InPool(n, p, ps) && !ps.DRead?
    ensures PoolNext(n, p, ps).box == p.box
  {
  }

  // Preservation.

  lemma QuietStepPreserves(n: nat, s: State, p: nat, ps: PoolStep)
    requires Inv(n, s) && Enabled(n, s, Pooled(p, ps)) && !ps.DRead? && !ps.DFill?
    ensures Inv(n, Next(n, s, Pooled(p, ps)))
  {
    var s' := Next(n, s, Pooled(p, ps));
    NextKeepsShape(n, s, Pooled(p, ps));
    PoolStepKeepsBox(n, s.pools[p], ps);
    assert BoxInv(s') by {
      assert forall q, c :: Unread(s', q, c) <==> Unread(s, q, c);
    }
    if s.stale == 0 {
      forall place, c | Holds(s', place, c)
        ensures Holds(s, place, c)
      {
        QuietStepHolds(n, s, p, ps, place, c);
      }
    }
  }

  lemma FillPreserves(n: nat, s: State, p: nat)
    requires Inv(n, s) && Enabled(n, s, Pooled(p, DFill))
    ensures Inv(n, Next(n, s, Pooled(p, DFill)))
  {
    var s' := Next(n, s, Pooled(p, DFill));
    NextKeepsShape(n, s, Pooled(p, DFill));
    assert BoxInv(s') by {
      assert forall q, c :: Unread(s', q, c) <==> Unread(s, q, c);
    }
    if s.stale == 0 {
      var slot := Slot(p, Pick(s.pools[p].data));
      forall place, c | Holds(s', place, c)
        ensures if place == slot then Holds(s, Hand(p), c) else place != Hand(p) && Holds(s, place, c)
      {
        FillHolds(n, s, p, place, c);
      }
    }
  }

  lemma ReadPreserves(n: nat, s: State, p: nat)
    requires Inv(n, s) && Enabled(n, s, Pooled(p, DRead))
    ensures Inv(n, Next(n, s, Pooled(p, DRead)))
  {
    var s' := Next(n, s, Pooled(p, DRead));
    NextKeepsShape(n, s, Pooled(p, DRead));
    var conn := s.pools[p].box.conn;
    assert s'.delivered == s.delivered + [conn];
    assert BoxInv(s') by {
      assert forall q, c :: Unread(s', q, c) ==> Unread(s, q, c) && q != p;
      if s.pools[p].box.unread {
        assert Unread(s, p, conn);
      }
    }
    if s.pools[p].box.unread {
      assert Unread(s, p, conn);
      if s.stale == 0 {
        forall place, c | Holds(s', place, c)
          ensures if place == Hand(p) then c == conn else Holds(s, place, c)
        {
          ReadHolds(n, s, p, place, c);
        }
      } else if AtMostOnce(s') {
        ExtendedDeliveries(s, s', conn);
      }
    } else {
      StaleReadShows(s, s', conn);
    }
  }

  lemma ExtendedDeliveries(s: State, s': State, conn: int)
    requires s'.delivered == s.delivered + [conn] && s'.nextConn == s.nextConn
    requires AtMostOnce(s')
    ensures AtMostOnce(s)
  {
    assert forall i | 0 <= i < |s.delivered| :: s.delivered[i] == s'.delivered[i];
  }

  /** Reading a mailbox a second time is a delivery too many. */
  lemma StaleReadShows(s: State, s': State, conn: int)
    requires s'.delivered == s.delivered + [conn]
    requires conn == 0 || conn in s.delivered
    ensures !AtMostOnce(s')
  {
    if conn in s.delivered {
      var i :| 0 <= i < |s.delivered| && s.delivered[i] == conn;
      assert s'.delivered[i] == s'.delivered[|s.delivered|];
    } else {
      assert s'.delivered[|s.delivered|] == 0;
    }
  }

  lemma MainPreserves(n: nat, s: State, step: Step)
    requires Inv(n, s) && Enabled(n, s, step) && !step.Pooled?
    ensures Inv(n, Next(n, s, step))
  {
    var s' := Next(n, s, step);
    NextKeepsShape(n, s, step);
    assert forall place, c :: Holds(s', place, c) ==> Holds(s, place, c);
    if step.MPost? {
      assert forall q, c :: Unread(s', q, c) ==> if q == s.idxPool then c == s.main.conn else Unread(s, q, c);
    } else {
      assert forall q, c :: Unread(s', q, c) ==> Unread(s, q, c);
    }
  }

  lemma InvPreserved(n: nat, s: State, step: Step)
    requires Inv(n, s) && Enabled(n, s, step)
    ensures Inv(n, Next(n, s, step))
  {
    if !step.Pooled? {
      MainPreserves(n, s, step);
    } else if step.ps.DRead? {
      ReadPreserves(n, s, step.p);
    } else if step.ps.DFill? {
      FillPreserves(n, s, step.p);
    } else {
      QuietStepPreserves(n, s, step.p, step.ps);
    }
  }

  lemma {:induction false} InvAlways(n: nat, s: State, steps: seq<Step>)
    requires Inv(n, s) && Runs(n, s, steps)
    ensures Inv(n, After(n, s, steps))
    decreases |steps|
  {
    if steps == [] {
    } else {
      FirstStep(n, s, steps);
      InvPreserved(n, s, steps[0]);
      InvAlways(n, Next(n, s, steps[0]), steps[1..]);
    }
  }

  /** At-most-once delivery, exactly: a run delivers only accepted connections, and
      each of them once, if and only if no dispatcher read a mailbox that it had
      read before. */
  lemma AtMostOnceExactly(n: nat, size: nat, steps: seq<Step>)
    requires n > 0 && size > 0 && Runs(n, Init(n, size), steps)
    ensures var s := After(n, Init(n, size), steps); AtMostOnce(s) <==> s.stale == 0
  {
    InvInitially(n, size);
    InvAlways(n, Init(n, size), steps);
  }

  /** In such a run a connection is in at most one dispatcher's hand or one used
      slot across all pools. */
  lemma OneOwner(n: nat, size: nat, steps: seq<Step>, place: Place, place': Place, c: int)
    requires n > 0 && size > 0 && Runs(n, Init(n, size), steps)
    ensures var s := After(n, Init(n, size), steps);
            s.stale == 0 && Holds(s, place, c) && Holds(s, place', c) ==> place == place' && c in s.delivered
  {
    InvInitially(n, size);
    InvAlways(n, Init(n, size), steps);
  }

  predicate NoSpuriousDispatch(steps: seq<Step>) {
    forall step | step in steps :: !(step.Pooled? && step.ps.DSpurious?)
  }

  predicate WokenByPost(s: State) {
    s.stale == 0 && forall p | 0 <= p < |s.pools| :: s.pools[p].disp == Signalled ==> s.pools[p].box.unread
  }

  lemma WokenByPostPreserved(n: nat, s: State, step: Step)
    requires Shaped(s, n) && Enabled(n, s, step) && WokenByPost(s)
    requires !(step.Pooled? && step.ps.DSpurious?)
    ensures WokenByPost(Next(n, s, step))
  {
  }

  lemma {:induction false} WokenByPostAlways(n: nat, s: State, steps: seq<Step>)
    requires Shaped(s, n) && Runs(n, s, steps) && WokenByPost(s) && NoSpuriousDispatch(steps)
    ensures WokenByPost(After(n, s, steps))
    decreases |steps|
  {
    if steps == [] {
    } else {
      FirstStep(n, s, steps);
      WokenByPostPreserved(n, s, steps[0]);
      WokenByPostAlways(n, Next(n, s, steps[0]), steps[1..]);
    }
  }

  /** When waits on the mailboxes end only on a signal, every run delivers at most once. */
  lemma AtMostOnceWithoutSpuriousWakes(n: nat, size: nat, steps: seq<Step>)
    requires n > 0 && size > 0 && Runs(n, Init(n, size), steps) && NoSpuriousDispatch(steps)
    ensures AtMostOnce(After(n, Init(n, size), steps))
  {
    WokenByPostAlways(n, Init(n, size), steps);
    AtMostOnceExactly(n, size, steps);
  }

  /** The connection of a used slot stays in it until the step that closes the slot. */
  lemma UsedSlotKeepsConnection(n: nat, s: State, step: Step, p: nat, j: nat, c: int)
    requires Shaped(s, n) && Enabled(n, s, step) && Holds(s, Slot(p, j), c)
    ensures Holds(Next(n, s, step), Slot(p, j), c) <==> step != Pooled(p, WClose(j))
  {
  }

  /** Over a run: a used slot that no step closes still has its connection. */
  lemma {:induction false} NeverOverwritten(n: nat, s: State, steps: seq<Step>, p: nat, j: nat, c: int)
    requires Shaped(s, n) && Runs(n, s, steps) && Holds(s, Slot(p, j), c)
    requires Pooled(p, WClose(j)) !in steps
    ensures Holds(After(n, s, steps), Slot(p, j), c)
    decreases |steps|
  {
    if steps == [] {
    } else {
      FirstStep(n, s, steps);
      UsedSlotKeepsConnection(n, s, steps[0], p, j, c);
      NeverOverwritten(n, Next(n, s, steps[0]), steps[1..], p, j, c);
    }
  }
}
