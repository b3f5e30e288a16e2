/** Connections that are never delivered (HttpServer.c:71-93 with
    ThreadPool.c:179-183): exactly those overwritten in a mailbox before its
    dispatcher read them. */
module HandoffLosses {
  import opened Handoff
  import opened HandoffOwnership

  /** An accepted connection that is nowhere: not in the accept loop, in no
      mailbox, and not delivered. */
  ghost predicate Gone(s: State, c: int) {
    && 0 < c < s.nextConn && c !in s.delivered
    && s.main != Posting(c)
    && forall p | 0 <= p < |s.pools| :: s.pools[p].box.conn != c
  }

  /** Delivered, still in the accept loop, or waiting in a mailbox. */
  ghost predicate Accounted(s: State, c: int) {
    c in s.delivered || s.main == Posting(c) || exists p :: Unread(s, p, c)
  }

  lemma GoneOrAccounted(n: nat, s: State, c: int)
    requires Inv(n, s) && 0 < c < s.nextConn
    ensures Gone(s, c) <==> !Accounted(s, c)
  {
    if !Accounted(s, c) {
      forall p | 0 <= p < |s.pools|
        ensures s.pools[p].box.conn != c
      {
        assert !Unread(s, p, c);
      }
    } else if exists p: nat :: Unread(s, p, c) {
      var p: nat :| Unread(s, p, c);
      assert s.pools[p].box.conn == c;
    }
  }

  /** The accept loop writes a mailbox whose connection was not read yet. */
  predicate Overwrites(s: State, step: Step) {
    step.MPost? && s.idxPool < |s.pools| && s.pools[s.idxPool].box.unread
  }

  ghost function Overwritings(n: nat, s: State, steps: seq<Step>): nat
    requires Shaped(s, n) && Runs(n, s, steps)
    decreases |steps|
  {
    if steps == [] then 0
    else
      NextKeepsShape(n, s, steps[0]);
      (if Overwrites(s, steps[0]) then 1 else 0) + Overwritings(n, Next(n, s, steps[0]), steps[1..])
  }

  lemma PostGone(n: nat, s: State, c: int)
    requires Inv(n, s) && Enabled(n, s, MPost)
    ensures Gone(Next(n, s, MPost), c)
       <==> Gone(s, c) || (Overwrites(s, MPost) && c == s.pools[s.idxPool].box.conn)
  {
    var s', i := Next(n, s, MPost), s.idxPool;
    if Overwrites(s, MPost) && c == s.pools[i].box.conn {
      assert Unread(s, i, c);
      forall p | 0 <= p < |s'.pools|
        ensures s'.pools[p].box.conn != c
      {
        assert p != i && s.pools[p].box.conn == c ==> !Unread(s, p, c);
      }
    }
    if Gone(s', c) && !Gone(s, c) {
      assert s'.pools[i].box.conn == s.main.conn;
      assert forall p | 0 <= p < |s.pools| && p != i :: s'.pools[p].box == s.pools[p].box;
      assert s.pools[i].box.conn == c;
    }
  }

  lemma PoolStepGone(n: nat, s: State, p: nat, ps: PoolStep, c: int)
    requires Inv(n, s) && Enabled(n, s, Pooled(p, ps))
    ensures Gone(Next(n, s, Pooled(p, ps)), c) <==> Gone(s, c)
  {
    var s' := Next(n, s, Pooled(p, ps));
    if !ps.DRead? {
      PoolStepKeepsBox(n, s.pools[p], ps);
    }
    assert forall q | 0 <= q < |s.pools| :: s'.pools[q].box.conn == s.pools[q].box.conn;
  }

  lemma GrowthGone(n: nat, s: State, c: int)
    requires Inv(n, s) && Enabled(n, s, MChoose)
    ensures Gone(Next(n, s, MChoose), c) <==> Gone(s, c)
  {
    var s' := Next(n, s, MChoose);
    assert forall q | 0 <= q < |s.pools| :: s'.pools[q] == s.pools[q];
    assert forall q | |s.pools| <= q < |s'.pools| :: s'.pools[q].box.conn == 0;
  }

  /** One step: overwriting an unread mailbox makes its connection gone, nothing
      else makes one gone, and none comes back. */
  lemma GoneStep(n: nat, s: State, step: Step, c: int)
    requires Inv(n, s) && Enabled(n, s, step)
    ensures Gone(Next(n, s, step), c)
       <==> Gone(s, c) || (Overwrites(s, step) && c == s.pools[s.idxPool].box.conn)
  {
    match step
    case MAccept =>
      forall p | 0 <= p < |s.pools|
        ensures s.pools[p].box.conn != s.nextConn
      {
        assert s.pools[p].box.unread ==> Unread(s, p, s.pools[p].box.conn);
      }
    case MPost => PostGone(n, s, c);
    case MChoose => GrowthGone(n, s, c);
    case Pooled(p, ps) => PoolStepGone(n, s, p, ps, c);
  }

  /** No continuation of the run ever delivers it. */
  lemma {:induction false} GoneForGood(n: nat, s: State, steps: seq<Step>, c: int)
    requires Inv(n, s) && Runs(n, s, steps) && Gone(s, c)
    ensures Gone(After(n, s, steps), c)
    decreases |steps|
  {
    if steps == [] {
    } else {
      FirstStep(n, s, steps);
      GoneStep(n, s, steps[0], c);
      InvPreserved(n, s, steps[0]);
      GoneForGood(n, Next(n, s, steps[0]), steps[1..], c);
    }
  }

  /** A connection that is overwritten in its mailbox is delivered in no
      continuation of the run, whatever comes after. */
  lemma OverwrittenIsGoneForGood(n: nat, size: nat, before: seq<Step>, after: seq<Step>)
    requires n > 0 && size > 0 && Runs(n, Init(n, size), before)
    requires var s := After(n, Init(n, size), before);
             Enabled(n, s, MPost) && Overwrites(s, MPost) && Shaped(Next(n, s, MPost), n)
             && Runs(n, Next(n, s, MPost), after)
    ensures var s := After(n, Init(n, size), before);
            Gone(After(n, Next(n, s, MPost), after), s.pools[s.idxPool].box.conn)
  {
    HandoffOwnership.InvInitially(n, size);
    InvAlways(n, Init(n, size), before);
    var s := After(n, Init(n, size), before);
    GoneStep(n, s, MPost, s.pools[s.idxPool].box.conn);
    InvPreserved(n, s, MPost);
    GoneForGood(n, Next(n, s, MPost), after, s.pools[s.idxPool].box.conn);
  }

  // How many are gone.

  ghost function GoneSet(s: State): set<int> {
    set c | 0 < c < s.nextConn && Gone(s, c)
  }

  lemma GoneSetStep(n: nat, s: State, step: Step)
    requires Inv(n, s) && Enabled(n, s, step)
    ensures |GoneSet(Next(n, s, step))| == |GoneSet(s)| + (if Overwrites(s, step) then 1 else 0)
  {
    var s' := Next(n, s, step);
    var more := if Overwrites(s, step) then {s.pools[s.idxPool].box.conn} else {};
    forall c
      ensures c in GoneSet(s') <==> c in GoneSet(s) + more
    {
      GoneStep(n, s, step, c);
    }
    assert GoneSet(s') == GoneSet(s) + more;
    assert GoneSet(s) !! more;
  }

  lemma {:induction false} LossesFrom(n: nat, s: State, steps: seq<Step>)
    requires Inv(n, s) && Runs(n, s, steps)
    ensures |GoneSet(After(n, s, steps))| == |GoneSet(s)| + Overwritings(n, s, steps)
    ensures After(n, s, steps).lost == s.lost + Overwritings(n, s, steps)
    decreases |steps|
  {
    if steps == [] {
    } else {
      FirstStep(n, s, steps);
      GoneSetStep(n, s, steps[0]);
      InvPreserved(n, s, steps[0]);
      LossesFrom(n, Next(n, s, steps[0]), steps[1..]);
    }
  }

  /** Over every run: as many connections are gone as posts hit an unread mailbox. */
  lemma GoneAreOverwritten(n: nat, size: nat, steps: seq<Step>)
    requires n > 0 && size > 0 && Runs(n, Init(n, size), steps)
    ensures var s := After(n, Init(n, size), steps);
            |GoneSet(s)| == s.lost == Overwritings(n, Init(n, size), steps)
  {
    HandoffOwnership.InvInitially(n, size);
    assert GoneSet(Init(n, size)) == {};
    LossesFrom(n, Init(n, size), steps);
  }

  /** No accepted connection is lost if and only if no post of the run hits a mailbox
      that was not read; otherwise some connection is gone. */
  lemma NoneLostExactly(n: nat, size: nat, steps: seq<Step>)
    requires n > 0 && size > 0 && Runs(n, Init(n, size), steps)
    ensures var s := After(n, Init(n, size), steps);
            && ((forall c | 0 < c < s.nextConn :: Accounted(s, c))
                <==> Overwritings(n, Init(n, size), steps) == 0)
            && ((exists c :: Gone(s, c)) <==> Overwritings(n, Init(n, size), steps) > 0)
  {
    GoneAreOverwritten(n, size, steps);
    HandoffOwnership.InvInitially(n, size);
    InvAlways(n, Init(n, size), steps);
    var s := After(n, Init(n, size), steps);
    forall c | 0 < c < s.nextConn
      ensures Gone(s, c) <==> !Accounted(s, c)
    {
      GoneOrAccounted(n, s, c);
    }
    if c :| Gone(s, c) {
      assert c in GoneSet(s);
    } else {
      assert GoneSet(s) == {};
    }
  }
}
