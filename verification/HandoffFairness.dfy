/** Bounded bypass of the ring allocator (ThreadPool.c:211-230): a free slot is not
    passed over for long. */
module HandoffFairness {
  import opened ThreadPool
  import opened Handoff
  import opened HandoffAccounting

  /** Some allocation of the run hands out slot j of pool p. */
  ghost predicate PickedDuring(n: nat, s: State, steps: seq<Step>, p: nat, j: nat)
    requires Shaped(s, n) && Runs(n, s, steps)
    decreases |steps|
  {
    && steps != []
    && (|| (steps[0] == Pooled(p, DFill) && Pick(s.pools[p].data) == j)
        || (NextKeepsShape(n, s, steps[0]); PickedDuring(n, Next(n, s, steps[0]), steps[1..], p, j)))
  }

  /** A free slot that a step does not hand out stays free, and comes nearer to E
      exactly when the step is an allocation of its pool. */
  lemma FreeSlotStep(n: nat, s: State, step: Step, p: nat, j: nat)
    requires Shaped(s, n) && Enabled(n, s, step) && p < |s.pools| && j < n && IsFree(s.pools[p].data, j)
    requires step == Pooled(p, DFill) ==> Pick(s.pools[p].data) != j
    ensures Shaped(Next(n, s, step), n)
    ensures var d, d' := s.pools[p].data, Next(n, s, step).pools[p].data;
            && IsFree(d', j)
            && Distance(d', j) <= Distance(d, j)
            && (step == Pooled(p, DFill) ==> Distance(d', j) < Distance(d, j))
  {
    NextKeepsShape(n, s, step);
    if step == Pooled(p, DFill) {
      PassedOverComesNearer(s.pools[p].data, n, s.pools[p].disp.conn, j);
    }
  }

  /** A free slot is handed out before `Distance` other allocations have passed it over. */
  lemma {:induction false} BypassBound(n: nat, s: State, steps: seq<Step>, p: nat, j: nat)
    requires Shaped(s, n) && Runs(n, s, steps) && p < |s.pools| && j < n && IsFree(s.pools[p].data, j)
    requires Tally(steps, Assignments(p)) > Distance(s.pools[p].data, j)
    ensures PickedDuring(n, s, steps, p, j)
    decreases |steps|
  {
    if steps[0] == Pooled(p, DFill) && Pick(s.pools[p].data) == j {
    } else {
      FreeSlotStep(n, s, steps[0], p, j);
      BypassBound(n, Next(n, s, steps[0]), steps[1..], p, j);
    }
  }

  /** In any run, a free slot is handed out within num_thread_pool allocations of
      its pool, whatever other slots are freed meanwhile. */
  lemma BoundedBypass(n: nat, s: State, steps: seq<Step>, p: nat, j: nat)
    requires Shaped(s, n) && Runs(n, s, steps) && p < |s.pools| && j < n && IsFree(s.pools[p].data, j)
    requires Tally(steps, Assignments(p)) >= n
    ensures PickedDuring(n, s, steps, p, j)
  {
    BypassBound(n, s, steps, p, j);
  }
}
