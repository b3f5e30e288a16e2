/** Signals to a dispatcher that is not waiting (HttpServer.c:87-93 with
    ThreadPool.c:179-183): the condition variable does not remember them, and the wait
    does not look at the mailbox first. */
module HandoffMailbox {
  import opened Handoff

  /** A dispatcher waits although its mailbox holds a connection it has not read. */
  predicate Overlooks(p: PoolState) {
    p.disp == Waiting && p.box.unread
  }

  predicate NoneOverlooked(s: State) {
    forall p | 0 <= p < |s.pools| :: !Overlooks(s.pools[p])
  }

  /** A dispatcher begins to wait with a connection in its mailbox. */
  predicate WaitsOnUnread(s: State, step: Step) {
    step.Pooled? && step.ps.DWait? && step.p < |s.pools| && s.pools[step.p].box.unread
  }

  ghost predicate NeverOverlooked(n: nat, s: State, steps: seq<Step>)
    requires Shaped(s, n) && Runs(n, s, steps)
    decreases |steps|
  {
    && NoneOverlooked(s)
    && (steps == [] || (NextKeepsShape(n, s, steps[0]); NeverOverlooked(n, Next(n, s, steps[0]), steps[1..])))
  }

  ghost predicate NeverWaitsOnUnread(n: nat, s: State, steps: seq<Step>)
    requires Shaped(s, n) && Runs(n, s, steps)
    decreases |steps|
  {
    steps == [] ||
    (!WaitsOnUnread(s, steps[0]) && (NextKeepsShape(n, s, steps[0]);
                                     NeverWaitsOnUnread(n, Next(n, s, steps[0]), steps[1..])))
  }

  lemma PoolStepOverlooks(n: nat, p: PoolState, ps: PoolStep)
    requires Sized(p, n) && InPool(n, p, ps) && !Overlooks(p)
    ensures Overlooks(PoolNext(n, p, ps)) <==> ps == DWait && p.box.unread
  {
  }

  /** A post wakes a waiting dispatcher, and so overlooks nothing itself. */
  lemma StepOverlooks(n: nat, s: State, step: Step)
    requires Shaped(s, n) && Enabled(n, s, step) && NoneOverlooked(s)
    ensures NoneOverlooked(Next(n, s, step)) <==> !WaitsOnUnread(s, step)
  {
    var s' := Next(n, s, step);
    if step.Pooled? {
      PoolStepOverlooks(n, s.pools[step.p], step.ps);
      assert Overlooks(s'.pools[step.p]) <==> WaitsOnUnread(s, step);
      assert forall p | 0 <= p < |s.pools| && p != step.p :: s'.pools[p] == s.pools[p];
    } else {
      forall p | 0 <= p < |s'.pools|
        ensures !Overlooks(s'.pools[p])
      {
        assert p < |s.pools| ==> !Overlooks(s.pools[p]);
      }
    }
  }

  lemma {:induction false} OverlooksFrom(n: nat, s: State, steps: seq<Step>)
    requires Shaped(s, n) && Runs(n, s, steps) && NoneOverlooked(s)
    ensures NeverOverlooked(n, s, steps) <==> NeverWaitsOnUnread(n, s, steps)
    decreases |steps|
  {
    if steps == [] {
    } else {
      FirstStep(n, s, steps);
      StepOverlooks(n, s, steps[0]);
      if !WaitsOnUnread(s, steps[0]) {
        OverlooksFrom(n, Next(n, s, steps[0]), steps[1..]);
      }
    }
  }

  /** In a run no dispatcher ever sleeps on an unread connection if and only if none
      begins its wait with one in its mailbox. */
  lemma OverlooksExactly(n: nat, size: nat, steps: seq<Step>)
    requires n > 0 && size > 0 && Runs(n, Init(n, size), steps)
    ensures NeverOverlooked(n, Init(n, size), steps) <==> NeverWaitsOnUnread(n, Init(n, size), steps)
  {
    OverlooksFrom(n, Init(n, size), steps);
  }

  /** The first step of every server can be such: the accept loop posts before the
      dispatcher waits, and the connection stays in its mailbox. */
  lemma FirstPostOverlooked(n: nat, size: nat) returns (steps: seq<Step>)
    requires n > 0 && size > 0
    ensures Runs(n, Init(n, size), steps) && !NoneOverlooked(After(n, Init(n, size), steps))
  {
    var s0 := Init(n, size);
    var s1 := Next(n, s0, MAccept);
    NextKeepsShape(n, s0, MAccept);
    var s2 := Next(n, s1, MPost);
    NextKeepsShape(n, s1, MPost);
    var s3 := Next(n, s2, Pooled(0, DWait));
    NextKeepsShape(n, s2, Pooled(0, DWait));
    assert Overlooks(s3.pools[0]);
    steps := [MAccept, MPost, Pooled(0, DWait)];
    assert steps[1..][1..] == [Pooled(0, DWait)] && [Pooled(0, DWait)][1..] == [];
    assert Runs(n, s2, [Pooled(0, DWait)]) && After(n, s2, [Pooled(0, DWait)]) == s3;
    assert Runs(n, s1, steps[1..]) && After(n, s1, steps[1..]) == s3;
  }
}
