/** The query cache under concurrent calls (HandleDB.c:30-139). The search holds
    db_mtx_cache; the three values of a hit are read one by one after it is
    released; a miss takes the mutex again and writes its entry field by field.
    Each of these reads and writes is a step of its own. */
module QueryCacheThreads {
  import opened CStrings
  import opened QueryText
  import opened QueryCache

  /** Where a thread is in retrieve_dim_from_DB. `at` is the number of insertions
      when its search ended, `vals` are the values read so far, and `marks[k]` is
      the number of insertions that had written the field of vals[k] by then. */
  datatype Phase =
    | Idle
    | HitRow(ua: string, i: nat, at: nat, vals: seq<int>, marks: seq<nat>)
    | HitNoRow(ua: string)
    | Missed(ua: string)
    | Writing(ua: string, stage: nat)
    | Done(ua: string, dims: Dims)

  /** db_mtx_cache, as far as insertions hold it. */
  datatype Mutex = Unlocked | LockedBy(t: nat)

  /** `inserted` records the insertions begun so far. */
  datatype State = State(ring: Ring, threads: seq<Phase>, mutex: Mutex, inserted: seq<string>)

  datatype Step = Search(t: nat, ua: string) | Read(t: nat) | Lock(t: nat) | Write(t: nat) | Return(t: nat)

  /** The fields of an entry in the order in which they are written; the index comes last. */
  const FIELDS: nat := 5

  /** Line 129, 130 or 131: colours, width, height. */
  function Dim(dims: Dims, k: nat): int {
    if k == 0 then dims.colors else if k == 1 then dims.width else dims.height
  }

  /** Lines 79 to 83 and 103 to 109: one field of `e` is written. */
  function WriteField(was: Entry, e: Entry, field: nat): Entry {
    match field
    case 0 => was.(query := e.query)
    case 1 => was.(dims := was.dims.(colors := e.dims.colors))
    case 2 => was.(dims := was.dims.(width := e.dims.width))
    case 3 => was.(dims := was.dims.(height := e.dims.height))
    case _ => was.(valueInDb := e.valueInDb)
  }

  predicate Enabled(s: State, step: Step) {
    && step.t < |s.threads|
    && var phase := s.threads[step.t];
       match step
       case Search(t, ua) => s.mutex == Unlocked && (phase.Idle? || phase.Done?) && Plain(ua)
       case Read(t) => phase.HitRow? && phase.i < SLOTS && |phase.vals| < 3
       case Lock(t) => s.mutex == Unlocked && phase.Missed?
       case Write(t) => phase.Writing? && phase.stage <= FIELDS
       case Return(t) => phase.HitNoRow? || (phase.HitRow? && |phase.vals| == 3)
  }

  /** The fields that the insertion under way has written. */
  function Stage(s: State): nat {
    match s.mutex
    case Unlocked => 0
    case LockedBy(t) => if t < |s.threads| && s.threads[t].Writing? then s.threads[t].stage else 0
  }

  /** The insertions that are complete. */
  function Complete(s: State): nat {
    if s.mutex == Unlocked || s.inserted == [] then |s.inserted| else |s.inserted| - 1
  }

  /** The insertions that have written the field of the k-th read. */
  function Mark(s: State, k: nat): nat {
    if Stage(s) <= k + 1 then Complete(s) else |s.inserted|
  }

  function Next(s: State, table: Table, step: Step): State
    requires |s.ring.entries| == SLOTS && Enabled(s, step)
  {
    var t, phase := step.t, s.threads[step.t];
    match step
    case Search(_, ua) =>
      var i := FirstHit(s.ring.entries, Query(ua), 0);
      s.(threads := s.threads[t :=
        if i == SLOTS then Missed(ua)
        else if s.ring.entries[i].valueInDb then HitRow(ua, i, |s.inserted|, [], [])
        else HitNoRow(ua)])
    case Read(_) =>
      var k := |phase.vals|;
      s.(threads := s.threads[t :=
        phase.(vals := phase.vals + [Dim(s.ring.entries[phase.i].dims, k)], marks := phase.marks + [Mark(s, k)])])
    case Lock(_) =>
      State(s.ring, s.threads[t := Writing(phase.ua, 0)], LockedBy(t), s.inserted + [phase.ua])
    case Write(_) =>
      if phase.stage < FIELDS then
        var slot := s.ring.idx % SLOTS;
        var e := WriteField(s.ring.entries[slot], EntryFor(table, phase.ua), phase.stage);
        s.(ring := s.ring.(entries := s.ring.entries[slot := e]),
           threads := s.threads[t := Writing(phase.ua, phase.stage + 1)])
      else
        s.(ring := s.ring.(idx := (s.ring.idx + 1) % IDX_RANGE),
           threads := s.threads[t := Done(phase.ua, Lookup(table, phase.ua))],
           mutex := Unlocked)
    case Return(_) =>
      s.(threads := s.threads[t :=
        Done(phase.ua, if phase.HitNoRow? then NO_DIMS else Dims(phase.vals[1], phase.vals[2], phase.vals[0]))])
  }

  function Init(threads: nat): State {
    State(EMPTY_RING, seq(threads, _ => Idle), Unlocked, [])
  }

  // What the slots show.

  /** Slot j after the insertions `inserted`. */
  function Shown(table: Table, inserted: seq<string>, j: nat): Entry
    requires j < SLOTS
  {
    var t := Latest(|inserted|, j);
    if t < 0 then EMPTY else EntryFor(table, inserted[t])
  }

  /** An entry of which the first `stage` fields are those of `e`. */
  function Mixed(was: Entry, e: Entry, stage: nat): Entry {
    Entry(if stage > 0 then e.query else was.query,
          if stage > 4 then e.valueInDb else was.valueInDb,
          Dims(if stage > 2 then e.dims.width else was.dims.width,
               if stage > 3 then e.dims.height else was.dims.height,
               if stage > 1 then e.dims.colors else was.dims.colors))
  }

  function Before(s: State): seq<string> {
    s.inserted[..Complete(s)]
  }

  ghost predicate SlotInv(s: State, table: Table, j: nat)
    requires j < SLOTS && |s.ring.entries| == SLOTS
  {
    s.ring.entries[j] == Mixed(Shown(table, Before(s), j), Shown(table, s.inserted, j), Stage(s))
  }

  /** The mutex is held exactly by the thread that writes, for the last insertion. */
  predicate MutexInv(s: State) {
    && (forall t | 0 <= t < |s.threads| && s.threads[t].Writing? :: s.mutex == LockedBy(t))
    && match s.mutex
       case Unlocked => true
       case LockedBy(t) =>
         && t < |s.threads| && s.inserted != [] && Plain(s.inserted[|s.inserted| - 1])
         && s.threads[t].Writing? && s.threads[t].stage <= FIELDS
         && s.threads[t].ua == s.inserted[|s.inserted| - 1]
  }

  ghost predicate RingInv(s: State, table: Table) {
    && |s.ring.entries| == SLOTS && s.ring.idx == Complete(s) % IDX_RANGE
    && forall j | 0 <= j < SLOTS :: SlotInv(s, table, j)
  }

  /** The k-th value read by a hit is the k-th dimension of the user agent inserted
      last in its slot, among those that had written that field. */
  predicate ReadRight(table: Table, inserted: seq<string>, hit: Phase, k: nat)
    requires hit.HitRow? && hit.i < SLOTS && k < |hit.vals| == |hit.marks|
  {
    && hit.at <= hit.marks[k] <= |inserted| && Latest(hit.marks[k], hit.i) >= 0
    && hit.vals[k] == Dim(Lookup(table, inserted[Latest(hit.marks[k], hit.i)]), k)
  }

  /** `complete` insertions are complete. */
  ghost predicate PhaseInv(table: Table, inserted: seq<string>, complete: nat, phase: Phase) {
    match phase
    case HitRow(ua, i, at, vals, marks) =>
      && at <= complete <= |inserted| && i < SLOTS && Latest(at, i) >= 0
      && inserted[Latest(at, i)] == ua
      && |vals| == |marks| <= 3
      && forall k | 0 <= k < |vals| :: ReadRight(table, inserted, phase, k)
    case HitNoRow(ua) => table(Query(ua)).NoRow?
    case Missed(ua) => Plain(ua)
    case _ => true
  }

  ghost predicate Inv(s: State, table: Table) {
    && MutexInv(s) && RingInv(s, table)
    && AllPlain(s.inserted)
    && forall t | 0 <= t < |s.threads| :: PhaseInv(table, s.inserted, Complete(s), s.threads[t])
  }

  // Preservation.

  /** One more insertion changes what its own slot shows, and no other. */
  lemma ShownNext(table: Table, inserted: seq<string>, ua: string, j: nat)
    requires j < SLOTS
    ensures Shown(table, inserted + [ua], j)
         == if j == |inserted| % SLOTS then EntryFor(table, ua) else Shown(table, inserted, j)
  {
    var n := |inserted|;
    if j == n % SLOTS {
      LatestIs(n + 1, n);
    } else {
      LatestElsewhere(n, j);
    }
  }

  lemma LatestElsewhere(n: nat, j: nat)
    requires j < SLOTS && j != n % SLOTS
    ensures Latest(n + 1, j) == Latest(n, j)
  {
  }

  lemma LatestGrows(i: nat, at: nat, now: nat)
    requires i < SLOTS && at <= now
    ensures Latest(at, i) <= Latest(now, i)
  {
  }

  /** Between insertions the ring holds the last of them. */
  lemma UnlockedHoldsLast(s: State, table: Table)
    requires RingInv(s, table) && s.mutex == Unlocked
    ensures HoldsLast(s.ring, table, s.inserted)
  {
    assert Before(s) == s.inserted;
    forall t | 0 <= t < |s.inserted| && t >= |s.inserted| - SLOTS
      ensures s.ring.entries[t % SLOTS] == EntryFor(table, s.inserted[t])
    {
      LatestIs(|s.inserted|, t);
      assert SlotInv(s, table, t % SLOTS);
    }
    forall j | |s.inserted| <= j < SLOTS
      ensures s.ring.entries[j] == EMPTY
    {
      assert SlotInv(s, table, j);
    }
  }

  lemma SearchPreserves(s: State, table: Table, t: nat, ua: string)
    requires Inv(s, table) && Enabled(s, Search(t, ua))
    ensures Inv(Next(s, table, Search(t, ua)), table)
  {
    UnlockedHoldsLast(s, table);
    var i := FirstHit(s.ring.entries, Query(ua), 0);
    if i < SLOTS {
      MatchIsRecent(s.ring, table, s.inserted, ua, i);
      SlotShows(s.ring, table, s.inserted, i);
    }
    PhaseStepPreserves(s, table, t, Next(s, table, Search(t, ua)).threads[t]);
  }

  /** A step of a thread that does not write, on its own phase alone. */
  lemma PhaseStepPreserves(s: State, table: Table, t: nat, phase: Phase)
    requires Inv(s, table) && t < |s.threads| && !s.threads[t].Writing? && !phase.Writing?
    requires PhaseInv(table, s.inserted, Complete(s), phase)
    ensures Inv(s.(threads := s.threads[t := phase]), table)
  {
    var s' := s.(threads := s.threads[t := phase]);
    assert Stage(s') == Stage(s);
    assert forall j | 0 <= j < SLOTS :: SlotInv(s, table, j) ==> SlotInv(s', table, j);
  }

  /** One more value read rightly. */
  lemma HitGrows(table: Table, inserted: seq<string>, complete: nat, hit: Phase, v: int, mark: nat)
    requires hit.HitRow? && PhaseInv(table, inserted, complete, hit) && |hit.vals| < 3
    requires hit.at <= mark <= |inserted| && Latest(mark, hit.i) >= 0
    requires v == Dim(Lookup(table, inserted[Latest(mark, hit.i)]), |hit.vals|)
    ensures PhaseInv(table, inserted, complete, hit.(vals := hit.vals + [v], marks := hit.marks + [mark]))
  {
    var hit' := hit.(vals := hit.vals + [v], marks := hit.marks + [mark]);
    forall k | 0 <= k < |hit'.vals|
      ensures ReadRight(table, inserted, hit', k)
    {
      assert k < |hit.vals| ==> ReadRight(table, inserted, hit, k);
    }
  }

  lemma ReadPreserves(s: State, table: Table, t: nat)
    requires Inv(s, table) && Enabled(s, Read(t))
    ensures Inv(Next(s, table, Read(t)), table)
  {
    var hit := s.threads[t];
    var k := |hit.vals|;
    assert PhaseInv(table, s.inserted, Complete(s), hit);
    ReadIs(s, table, hit.i, k);
    LatestGrows(hit.i, hit.at, Mark(s, k));
    var v := Dim(s.ring.entries[hit.i].dims, k);
    HitGrows(table, s.inserted, Complete(s), hit, v, Mark(s, k));
    PhaseStepPreserves(s, table, t, hit.(vals := hit.vals + [v], marks := hit.marks + [Mark(s, k)]));
  }

  /** What a read finds in a slot. */
  lemma ReadIs(s: State, table: Table, i: nat, k: nat)
    requires MutexInv(s) && RingInv(s, table) && i < SLOTS && k < 3
    ensures Complete(s) <= Mark(s, k) <= |s.inserted|
    ensures Latest(Mark(s, k), i) >= 0
        ==> Dim(s.ring.entries[i].dims, k) == Dim(Lookup(table, s.inserted[Latest(Mark(s, k), i)]), k)
  {
    assert SlotInv(s, table, i);
  }

  lemma LockPreserves(s: State, table: Table, t: nat)
    requires Inv(s, table) && Enabled(s, Lock(t))
    ensures Inv(Next(s, table, Lock(t)), table)
  {
    var s', ua := Next(s, table, Lock(t)), s.threads[t].ua;
    assert PhaseInv(table, s.inserted, Complete(s), s.threads[t]);
    assert Before(s) == s.inserted == Before(s');
    forall j | 0 <= j < SLOTS
      ensures SlotInv(s', table, j)
    {
      assert SlotInv(s, table, j);
    }
    forall u | 0 <= u < |s'.threads|
      ensures PhaseInv(table, s'.inserted, Complete(s'), s'.threads[u])
    {
      if u != t {
        PhaseStays(table, s.inserted, ua, Complete(s), s.threads[u]);
      }
    }
  }

  /** Beginning an insertion takes nothing from what the hits remember. */
  lemma PhaseStays(table: Table, inserted: seq<string>, ua: string, complete: nat, phase: Phase)
    requires PhaseInv(table, inserted, complete, phase)
    ensures PhaseInv(table, inserted + [ua], complete, phase)
  {
    if phase.HitRow? {
      forall k | 0 <= k < |phase.vals|
        ensures ReadRight(table, inserted + [ua], phase, k)
      {
        assert ReadRight(table, inserted, phase, k);
      }
    }
  }

  lemma MixedNext(was: Entry, e: Entry, stage: nat)
    requires stage < FIELDS
    ensures WriteField(Mixed(was, e, stage), e, stage) == Mixed(was, e, stage + 1)
    ensures Mixed(e, e, stage) == e == Mixed(e, e, stage + 1)
  {
  }

  lemma WriteKeepsSlot(s: State, table: Table, t: nat, j: nat)
    requires Inv(s, table) && Enabled(s, Write(t)) && s.threads[t].stage < FIELDS && j < SLOTS
    ensures SlotInv(Next(s, table, Write(t)), table, j)
  {
    var s', ua := Next(s, table, Write(t)), s.threads[t].ua;
    assert s.mutex == LockedBy(t) && s'.mutex == LockedBy(t);
    assert Before(s) == Before(s') && s.inserted == Before(s) + [ua];
    assert SlotInv(s, table, j);
    IndexWraps(Complete(s));
    ShownNext(table, Before(s), ua, j);
    MixedNext(Shown(table, Before(s), j), Shown(table, s.inserted, j), s.threads[t].stage);
  }

  lemma WritePreserves(s: State, table: Table, t: nat)
    requires Inv(s, table) && Enabled(s, Write(t)) && s.threads[t].stage < FIELDS
    ensures Inv(Next(s, table, Write(t)), table)
  {
    var s' := Next(s, table, Write(t));
    assert s.mutex == LockedBy(t) && Complete(s') == Complete(s);
    forall j | 0 <= j < SLOTS
      ensures SlotInv(s', table, j)
    {
      WriteKeepsSlot(s, table, t, j);
    }
  }

  lemma CommitPreserves(s: State, table: Table, t: nat)
    requires Inv(s, table) && Enabled(s, Write(t)) && s.threads[t].stage == FIELDS
    ensures Inv(Next(s, table, Write(t)), table)
  {
    var s' := Next(s, table, Write(t));
    assert s.mutex == LockedBy(t);
    IndexWraps(Complete(s));
    assert Complete(s') == Complete(s) + 1 == |s.inserted| && Before(s') == s'.inserted;
    forall j | 0 <= j < SLOTS
      ensures SlotInv(s', table, j)
    {
      assert SlotInv(s, table, j);
    }
    forall u | 0 <= u < |s'.threads|
      ensures PhaseInv(table, s'.inserted, Complete(s'), s'.threads[u])
    {
      assert u != t ==> PhaseInv(table, s.inserted, Complete(s), s.threads[u]);
    }
  }

  lemma ReturnPreserves(s: State, table: Table, t: nat)
    requires Inv(s, table) && Enabled(s, Return(t))
    ensures Inv(Next(s, table, Return(t)), table)
  {
    PhaseStepPreserves(s, table, t, Next(s, table, Return(t)).threads[t]);
  }

  lemma InvPreserved(s: State, table: Table, step: Step)
    requires Inv(s, table) && Enabled(s, step)
    ensures Inv(Next(s, table, step), table)
  {
    match step
    case Search(t, ua) => SearchPreserves(s, table, t, ua);
    case Read(t) => ReadPreserves(s, table, t);
    case Lock(t) => LockPreserves(s, table, t);
    case Write(t) =>
      if s.threads[t].stage < FIELDS {
        WritePreserves(s, table, t);
      } else {
        CommitPreserves(s, table, t);
      }
    case Return(t) => ReturnPreserves(s, table, t);
  }

  lemma InvInitially(threads: nat, table: Table)
    ensures Inv(Init(threads), table)
  {
    forall j | 0 <= j < SLOTS
      ensures SlotInv(Init(threads), table, j)
    {
      assert Shown(table, [], j) == EMPTY;
    }
  }

  ghost predicate Runs(s: State, table: Table, steps: seq<Step>)
    requires |s.ring.entries| == SLOTS
    decreases |steps|
  {
    steps == [] || (Enabled(s, steps[0]) && Runs(Next(s, table, steps[0]), table, steps[1..]))
  }

  ghost function After(s: State, table: Table, steps: seq<Step>): (s': State)
    requires |s.ring.entries| == SLOTS && Runs(s, table, steps)
    ensures |s'.ring.entries| == SLOTS
    decreases |steps|
  {
    if steps == [] then s else After(Next(s, table, steps[0]), table, steps[1..])
  }

  lemma {:induction false} InvAlways(s: State, table: Table, steps: seq<Step>)
    requires Inv(s, table) && Runs(s, table, steps)
    ensures Inv(After(s, table, steps), table)
    decreases |steps|
  {
    if steps == [] {
    } else {
      InvPreserved(s, table, steps[0]);
      InvAlways(Next(s, table, steps[0]), table, steps[1..]);
    }
  }

  /** What a search tells, in every reachable state: a miss exactly when the user agent
      is not among the last 256 inserted, and otherwise whether the database has a row. */
  lemma SearchTells(threads: nat, table: Table, steps: seq<Step>, t: nat, ua: string)
    requires Runs(Init(threads), table, steps) && Enabled(After(Init(threads), table, steps), Search(t, ua))
    ensures var s := After(Init(threads), table, steps);
            var phase := Next(s, table, Search(t, ua)).threads[t];
            && (phase.Missed? <==> !Recent(s.inserted, ua))
            && (phase.HitRow? <==> Recent(s.inserted, ua) && table(Query(ua)).Found?)
            && (phase.HitNoRow? <==> Recent(s.inserted, ua) && table(Query(ua)).NoRow?)
  {
    InvInitially(threads, table);
    InvAlways(Init(threads), table, steps);
    var s := After(Init(threads), table, steps);
    UnlockedHoldsLast(s, table);
    MissIsNotRecent(s.ring, table, s.inserted, ua);
    var i := FirstHit(s.ring.entries, Query(ua), 0);
    if i < SLOTS {
      MatchIsRecent(s.ring, table, s.inserted, ua, i);
      SlotShows(s.ring, table, s.inserted, i);
    }
  }

  // What a hit answers.

  /** The insertions after which a hit at slot i can still be read. */
  function Window(i: nat, at: nat): nat {
    (i - at) % SLOTS
  }

  /** Slot i shows the same insertion as long as the window is not used up. */
  lemma WindowExact(i: nat, at: nat, now: nat)
    requires i < SLOTS && at <= now
    ensures Latest(now, i) == Latest(at, i) <==> now - at <= Window(i, at)
  {
  }

  /** What a hit reads, for every interleaving of the other threads' reads and writes:
      each value is that dimension of the user agent inserted last in its slot when
      it was read. That is its own insertion exactly while at most (i - k) mod 256
      insertions have written that dimension since the search, k being the number of
      insertions then. */
  lemma HitReads(threads: nat, table: Table, steps: seq<Step>, t: nat, k: nat)
    requires Runs(Init(threads), table, steps)
    ensures var s := After(Init(threads), table, steps);
            t < |s.threads| && s.threads[t].HitRow? && k < |s.threads[t].vals| ==>
              var HitRow(ua, i, at, vals, marks) := s.threads[t];
              && i < SLOTS && |vals| == |marks| <= 3 && at <= marks[k] <= |s.inserted|
              && 0 <= Latest(at, i) <= Latest(marks[k], i)
              && s.inserted[Latest(at, i)] == ua
              && vals[k] == Dim(Lookup(table, s.inserted[Latest(marks[k], i)]), k)
              && (Latest(marks[k], i) == Latest(at, i) <==> marks[k] - at <= Window(i, at))
  {
    InvInitially(threads, table);
    InvAlways(Init(threads), table, steps);
    var s := After(Init(threads), table, steps);
    if t < |s.threads| && s.threads[t].HitRow? && k < |s.threads[t].vals| {
      var hit := s.threads[t];
      assert PhaseInv(table, s.inserted, Complete(s), hit);
      assert ReadRight(table, s.inserted, hit, k);
      WindowExact(hit.i, hit.at, hit.marks[k]);
      LatestGrows(hit.i, hit.at, hit.marks[k]);
    }
  }

  /** A hit whose three reads fall into its window answers as the database does; in
      particular one that is over before the window is used up. */
  lemma HitAnswers(threads: nat, table: Table, steps: seq<Step>, t: nat)
    requires Runs(Init(threads), table, steps)
    requires var s := After(Init(threads), table, steps);
             && t < |s.threads| && s.threads[t].HitRow? && Enabled(s, Return(t))
    ensures var s := After(Init(threads), table, steps);
            var HitRow(ua, i, at, vals, marks) := s.threads[t];
            && |marks| == 3
            && (|s.inserted| - at <= Window(i, at) ==> forall k | 0 <= k < 3 :: marks[k] - at <= Window(i, at))
            && ((forall k | 0 <= k < 3 :: marks[k] - at <= Window(i, at)) ==>
                  Next(s, table, Return(t)).threads[t] == Done(ua, Lookup(table, ua)))
  {
    var s := After(Init(threads), table, steps);
    HitReads(threads, table, steps, t, 0);
    HitReads(threads, table, steps, t, 1);
    HitReads(threads, table, steps, t, 2);
    var HitRow(ua, i, at, vals, marks) := s.threads[t];
    if forall k | 0 <= k < 3 :: marks[k] - at <= Window(i, at) {
      assert marks[0] - at <= Window(i, at) && marks[1] - at <= Window(i, at) && marks[2] - at <= Window(i, at);
    }
  }

  /** A read during the insertion into its slot: the new value when the insertion has
      written that field, and the value of the insertion before it when not. */
  lemma ReadDuringInsertion(s: State, table: Table, t: nat, u: nat)
    requires Inv(s, table) && Enabled(s, Read(t)) && s.mutex == LockedBy(u)
    requires s.threads[t].i == Complete(s) % SLOTS
    ensures var k := |s.threads[t].vals|;
            && Latest(Complete(s), s.threads[t].i) >= 0
            && Next(s, table, Read(t)).threads[t].vals[k]
               == Dim(if Stage(s) > k + 1 then Lookup(table, s.threads[u].ua)
                      else Lookup(table, s.inserted[Latest(Complete(s), s.threads[t].i)]), k)
  {
    var i, k := s.threads[t].i, |s.threads[t].vals|;
    assert PhaseInv(table, s.inserted, Complete(s), s.threads[t]);
    LatestGrows(i, s.threads[t].at, Complete(s));
    LatestGrows(i, s.threads[t].at, |s.inserted|);
    LatestIs(|s.inserted|, Complete(s));
    ReadIs(s, table, i, k);
  }

  /** Misses and hits without a row are answered rightly whatever happens meanwhile. */
  lemma OtherPathsRight(threads: nat, table: Table, steps: seq<Step>, t: nat)
    requires Runs(Init(threads), table, steps)
    ensures var s := After(Init(threads), table, steps);
            t < |s.threads| ==>
              && (s.threads[t].HitNoRow? ==>
                    Next(s, table, Return(t)).threads[t] == Done(s.threads[t].ua, Lookup(table, s.threads[t].ua)))
              && (s.threads[t].Writing? && s.threads[t].stage == FIELDS ==>
                    Next(s, table, Write(t)).threads[t] == Done(s.threads[t].ua, Lookup(table, s.threads[t].ua)))
  {
    InvInitially(threads, table);
    InvAlways(Init(threads), table, steps);
    var s := After(Init(threads), table, steps);
    if t < |s.threads| {
      assert PhaseInv(table, s.inserted, Complete(s), s.threads[t]);
    }
  }
}
