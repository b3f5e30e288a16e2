/** The cache of adapted images under concurrent calls, up to the wrap
    (HandleImage.c:44-51 and 119-127 with Utils.c:295-321). The search and the two
    reads of a hit hold no mutex; a record holds fd_cache_mtx, and stores its path,
    its descriptor and its size one after the other. */
module ImageCacheThreads {
  import opened ImagePaths
  import opened ImageCache
  import opened ImageLookup

  /** Where a thread is. Of a hit, `complete` is the number of complete records when it
      searched, and `sizes` the number of records that had their size written when it
      read its own; `at` is the number of records when a search missed. */
  datatype Phase =
    | Idle
    | Found(path: string, idx: nat, complete: nat)
    | SizeRead(path: string, idx: nat, complete: nat, size: int, sizes: nat)
    | Missed(path: string, at: nat)
    | Recording(record: Stored, at: nat, stage: nat)
    | Done(path: string, reply: Reply)

  datatype Mutex = Unlocked | LockedBy(t: nat)

  /** The map as the sequence of records whose paths it holds; `searchedAt[k]` is the
      number of records when the search was made that led to record k. */
  datatype State = State(
    stored: seq<Stored>, fds: seq<int>, sizes: seq<int>, e: nat,
    threads: seq<Phase>, mutex: Mutex, searchedAt: seq<nat>)

  datatype Step =
    | Search(t: nat, path: string) | ReadSize(t: nat) | ReadFd(t: nat)
    | NotFound(t: nat) | Lock(t: nat, fd: int, size: int)
    | StorePath(t: nat) | StoreFd(t: nat) | StoreSize(t: nat) | Unlock(t: nat)

  ghost predicate Enabled(s: State, step: Step) {
    && step.t < |s.threads|
    && var phase := s.threads[step.t];
       match step
       case Search(_, path) => (phase.Idle? || phase.Done?) && IsImagePath(path)
       case ReadSize(_) => phase.Found? && phase.idx < FDS
       case ReadFd(_) => phase.SizeRead? && phase.idx < FDS
       case NotFound(_) => phase.Missed?
       case Lock(_, _, _) => phase.Missed? && s.mutex == Unlocked
       case StorePath(_) => phase.Recording? && phase.stage == 0 && Unwrapped(s.stored + [phase.record])
       case StoreFd(_) => phase.Recording? && phase.stage == 1
       case StoreSize(_) => phase.Recording? && phase.stage == 2
       case Unlock(_) => phase.Recording? && phase.stage == 3
  }

  predicate Shaped(s: State) {
    |s.fds| == |s.sizes| == FDS && s.e < FDS
  }

  function Stage(s: State): nat {
    match s.mutex
    case Unlocked => 0
    case LockedBy(t) => if t < |s.threads| && s.threads[t].Recording? then s.threads[t].stage else 0
  }

  function LessOne(n: nat, less: bool): nat {
    if less && n > 0 then n - 1 else n
  }

  /** The records whose descriptor, whose size is in the ring, and that are complete. */
  function FdsWritten(s: State): nat { LessOne(|s.stored|, Stage(s) == 1) }

  function SizesWritten(s: State): nat { LessOne(|s.stored|, Stage(s) == 1 || Stage(s) == 2) }

  function Complete(s: State): nat { LessOne(|s.stored|, Stage(s) > 0) }

  /** HandleImage.c:126-127 */
  function Released(s: State, t: nat, phase: Phase): State
    requires t < |s.threads|
  {
    s.(e := (s.e + 1) % FDS, mutex := Unlocked, threads := s.threads[t := phase])
  }

  ghost function Next(s: State, step: Step): State
    requires Shaped(s) && Enabled(s, step)
  {
    var t, phase := step.t, s.threads[step.t];
    match step
    case Search(_, path) =>
      var i := FirstMatch(s.stored, path, 0);
      s.(threads := s.threads[t :=
        if i < |s.stored| then Found(path, i, Complete(s)) else Missed(path, |s.stored|)])
    case ReadSize(_) =>
      s.(threads := s.threads[t :=
        SizeRead(phase.path, phase.idx, phase.complete, s.sizes[phase.idx], SizesWritten(s))])
    case ReadFd(_) =>
      s.(threads := s.threads[t := Done(phase.path, Reply.Image(s.fds[phase.idx], phase.size))])
    case NotFound(_) => s.(threads := s.threads[t := Done(phase.path, NotPresent)])
    case Lock(_, fd, size) =>
      s.(threads := s.threads[t := Recording(Stored(phase.path, fd, size), phase.at, 0)], mutex := LockedBy(t))
    case StorePath(_) =>
      s.(stored := s.stored + [phase.record], threads := s.threads[t := phase.(stage := 1)],
         searchedAt := s.searchedAt + [phase.at])
    case StoreFd(_) =>
      s.(fds := s.fds[s.e := phase.record.fd], threads := s.threads[t := phase.(stage := 2)])
    case StoreSize(_) =>
      s.(sizes := s.sizes[s.e := phase.record.size], threads := s.threads[t := phase.(stage := 3)])
    case Unlock(_) =>
      Released(s, t, Done(phase.record.path, Reply.Image(phase.record.fd, phase.record.size)))
  }

  function Init(threads: nat): State {
    State([], seq(FDS, _ => 0), seq(FDS, _ => 0), 0, seq(threads, _ => Idle), Unlocked, [])
  }

  // What every step keeps.

  predicate Fresh(stored: seq<Stored>, path: string, at: nat) {
    at <= |stored| && forall j | 0 <= j < at :: stored[j].path != path
  }

  predicate FoundFirst(stored: seq<Stored>, path: string, idx: nat) {
    idx < |stored| && FirstWith(stored, path, 0) == idx
  }

  ghost predicate PhaseInv(stored: seq<Stored>, sizesWritten: nat, phase: Phase) {
    match phase
    case Found(path, idx, complete) => FoundFirst(stored, path, idx) && complete <= sizesWritten
    case SizeRead(path, idx, complete, size, sizes) =>
      && FoundFirst(stored, path, idx) && complete <= sizes <= sizesWritten
      && size == if idx < sizes then stored[idx].size else 0
    case Missed(path, at) => Fresh(stored, path, at) && IsImagePath(path)
    case Recording(record, at, stage) =>
      stage <= 3 && IsImagePath(record.path) && (stage == 0 ==> Fresh(stored, record.path, at))
    case _ => true
  }

  predicate MutexInv(s: State) {
    && (forall t | 0 <= t < |s.threads| && s.threads[t].Recording? :: s.mutex == LockedBy(t))
    && (s.mutex.LockedBy? ==> s.mutex.t < |s.threads| && s.threads[s.mutex.t].Recording?)
    && (Stage(s) > 0 ==> s.stored != [] && s.threads[s.mutex.t].record == s.stored[|s.stored| - 1])
  }

  /** Descriptors and sizes are at the ordinals of their paths, and cells not written are zero. */
  predicate RingInv(s: State) {
    && Shaped(s) && |s.stored| <= FDS && s.e == Complete(s) % FDS
    && (forall j | 0 <= j < FDS :: s.fds[j] == if j < FdsWritten(s) then s.stored[j].fd else 0)
    && (forall j | 0 <= j < FDS :: s.sizes[j] == if j < SizesWritten(s) then s.stored[j].size else 0)
  }

  /** What is stored are image paths that fit, and no record was made after a search
      that could have found its path. */
  ghost predicate StoredInv(stored: seq<Stored>, searchedAt: seq<nat>) {
    && Unwrapped(stored)
    && (forall j | 0 <= j < |stored| :: IsImagePath(stored[j].path))
    && |searchedAt| == |stored|
    && forall k | 0 <= k < |stored| :: searchedAt[k] <= k && Fresh(stored, stored[k].path, searchedAt[k])
  }

  ghost predicate PhasesInv(threads: seq<Phase>, stored: seq<Stored>, sizesWritten: nat) {
    forall t | 0 <= t < |threads| :: PhaseInv(stored, sizesWritten, threads[t])
  }

  ghost predicate Inv(s: State) {
    && MutexInv(s) && RingInv(s)
    && StoredInv(s.stored, s.searchedAt)
    && PhasesInv(s.threads, s.stored, SizesWritten(s))
  }

  lemma InvInitially(threads: nat)
    ensures Inv(Init(threads))
  {
  }

  // Mutex and ring.

  lemma QuietKeepsCore(s: State, t: nat, phase: Phase)
    requires MutexInv(s) && RingInv(s) && t < |s.threads| && !s.threads[t].Recording? && !phase.Recording?
    ensures var s' := s.(threads := s.threads[t := phase]);
            MutexInv(s') && RingInv(s') && SizesWritten(s') == SizesWritten(s)
  {
    assert Stage(s.(threads := s.threads[t := phase])) == Stage(s);
  }

  lemma LockKeepsCore(s: State, t: nat, record: Stored, at: nat)
    requires MutexInv(s) && RingInv(s) && t < |s.threads| && s.mutex == Unlocked
    ensures var s' := s.(threads := s.threads[t := Recording(record, at, 0)], mutex := LockedBy(t));
            MutexInv(s') && RingInv(s') && SizesWritten(s') == SizesWritten(s)
  {
    assert Stage(s.(threads := s.threads[t := Recording(record, at, 0)], mutex := LockedBy(t))) == Stage(s) == 0;
  }

  lemma StorePathKeepsCore(s: State, t: nat, searchedAt: seq<nat>)
    requires MutexInv(s) && RingInv(s) && t < |s.threads| && s.threads[t].Recording? && s.threads[t].stage == 0
    requires |s.stored| < FDS
    ensures var s' := s.(stored := s.stored + [s.threads[t].record],
                         threads := s.threads[t := s.threads[t].(stage := 1)], searchedAt := searchedAt);
            MutexInv(s') && RingInv(s') && SizesWritten(s') == SizesWritten(s)
  {
    var s' := s.(stored := s.stored + [s.threads[t].record],
                 threads := s.threads[t := s.threads[t].(stage := 1)], searchedAt := searchedAt);
    assert Stage(s) == 0 && Stage(s') == 1;
    assert FdsWritten(s') == SizesWritten(s') == Complete(s') == |s.stored|;
  }

  lemma StoreFdKeepsCore(s: State, t: nat)
    requires MutexInv(s) && RingInv(s) && t < |s.threads| && s.threads[t].Recording? && s.threads[t].stage == 1
    ensures var s' := s.(fds := s.fds[s.e := s.threads[t].record.fd],
                         threads := s.threads[t := s.threads[t].(stage := 2)]);
            MutexInv(s') && RingInv(s') && SizesWritten(s') == SizesWritten(s)
  {
    assert Stage(s) == 1 && s.e == |s.stored| - 1;
  }

  lemma StoreSizeKeepsCore(s: State, t: nat)
    requires MutexInv(s) && RingInv(s) && t < |s.threads| && s.threads[t].Recording? && s.threads[t].stage == 2
    ensures var s' := s.(sizes := s.sizes[s.e := s.threads[t].record.size],
                         threads := s.threads[t := s.threads[t].(stage := 3)]);
            MutexInv(s') && RingInv(s') && SizesWritten(s) <= SizesWritten(s')
  {
    assert Stage(s) == 2 && s.e == |s.stored| - 1;
  }

  lemma UnlockKeepsCore(s: State, t: nat, phase: Phase)
    requires MutexInv(s) && RingInv(s) && t < |s.threads| && s.threads[t].Recording? && s.threads[t].stage == 3
    requires !phase.Recording?
    ensures var s' := Released(s, t, phase);
            MutexInv(s') && RingInv(s') && SizesWritten(s') == SizesWritten(s)
  {
    assert Stage(s) == 3 && s.e == |s.stored| - 1;
  }

  // Phases.

  lemma SearchedPhase(stored: seq<Stored>, searchedAt: seq<nat>, sizesWritten: nat, complete: nat, path: string)
    requires StoredInv(stored, searchedAt) && IsImagePath(path) && complete <= sizesWritten
    ensures var i := FirstMatch(stored, path, 0);
            PhaseInv(stored, sizesWritten,
                     if i < |stored| then Found(path, i, complete) else Missed(path, |stored|))
  {
    var im :| WellFormed(im) && |im.ext| == 4 && path == Path(im);
    SearchIsExact(stored, im);
  }

  lemma PhaseStays(stored: seq<Stored>, more: seq<Stored>, sizesWritten: nat, sizesWritten': nat, phase: Phase)
    requires PhaseInv(stored, sizesWritten, phase) && sizesWritten <= sizesWritten'
    ensures PhaseInv(stored + more, sizesWritten', phase)
  {
    if phase.Found? || phase.SizeRead? {
      FirstWithStable(stored, more, phase.path, 0);
    }
  }

  lemma PhasesStay(threads: seq<Phase>, stored: seq<Stored>, more: seq<Stored>, sizesWritten: nat,
                   sizesWritten': nat, t: nat, phase: Phase)
    requires PhasesInv(threads, stored, sizesWritten) && sizesWritten <= sizesWritten' && t < |threads|
    requires PhaseInv(stored + more, sizesWritten', phase)
    ensures PhasesInv(threads[t := phase], stored + more, sizesWritten')
  {
    forall u | 0 <= u < |threads| && u != t
      ensures PhaseInv(stored + more, sizesWritten', threads[u])
    {
      PhaseStays(stored, more, sizesWritten, sizesWritten', threads[u]);
    }
  }

  lemma RecordedInv(stored: seq<Stored>, searchedAt: seq<nat>, record: Stored, at: nat)
    requires StoredInv(stored, searchedAt) && Unwrapped(stored + [record])
    requires IsImagePath(record.path) && Fresh(stored, record.path, at)
    ensures StoredInv(stored + [record], searchedAt + [at])
  {
    var stored', searchedAt' := stored + [record], searchedAt + [at];
    forall k | 0 <= k < |stored'|
      ensures searchedAt'[k] <= k && Fresh(stored', stored'[k].path, searchedAt'[k])
    {
      assert k < |stored| ==> Fresh(stored, stored[k].path, searchedAt[k]);
    }
  }

  // Preservation.

  lemma QuietPreserves(s: State, t: nat, phase: Phase)
    requires Inv(s) && t < |s.threads| && !s.threads[t].Recording? && !phase.Recording?
    requires PhaseInv(s.stored, SizesWritten(s), phase)
    ensures Inv(s.(threads := s.threads[t := phase]))
  {
    assert s.stored + [] == s.stored;
    QuietKeepsCore(s, t, phase);
    PhasesStay(s.threads, s.stored, [], SizesWritten(s), SizesWritten(s), t, phase);
  }

  lemma LockPreserves(s: State, t: nat, fd: int, size: int)
    requires Inv(s) && Enabled(s, Lock(t, fd, size))
    ensures Inv(Next(s, Lock(t, fd, size)))
  {
    var s', phase := Next(s, Lock(t, fd, size)), s.threads[t];
    assert s.stored + [] == s.stored;
    assert PhaseInv(s.stored, SizesWritten(s), phase);
    LockKeepsCore(s, t, Stored(phase.path, fd, size), phase.at);
    PhasesStay(s.threads, s.stored, [], SizesWritten(s), SizesWritten(s'), t, s'.threads[t]);
  }

  lemma StoreFdPreserves(s: State, t: nat)
    requires Inv(s) && Enabled(s, StoreFd(t))
    ensures Inv(Next(s, StoreFd(t)))
  {
    var s' := Next(s, StoreFd(t));
    assert s.stored + [] == s.stored;
    assert PhaseInv(s.stored, SizesWritten(s), s.threads[t]);
    StoreFdKeepsCore(s, t);
    PhasesStay(s.threads, s.stored, [], SizesWritten(s), SizesWritten(s'), t, s'.threads[t]);
  }

  lemma StoreSizePreserves(s: State, t: nat)
    requires Inv(s) && Enabled(s, StoreSize(t))
    ensures Inv(Next(s, StoreSize(t)))
  {
    var s' := Next(s, StoreSize(t));
    assert s.stored + [] == s.stored;
    assert PhaseInv(s.stored, SizesWritten(s), s.threads[t]);
    StoreSizeKeepsCore(s, t);
    PhasesStay(s.threads, s.stored, [], SizesWritten(s), SizesWritten(s'), t, s'.threads[t]);
  }

  lemma ReleasePreserves(s: State, t: nat, phase: Phase)
    requires Inv(s) && t < |s.threads| && s.threads[t].Recording? && s.threads[t].stage == 3 && phase.Done?
    ensures Inv(Released(s, t, phase))
  {
    assert s.stored + [] == s.stored;
    UnlockKeepsCore(s, t, phase);
    PhasesStay(s.threads, s.stored, [], SizesWritten(s), SizesWritten(s), t, phase);
  }

  lemma UnlockPreserves(s: State, t: nat)
    requires Inv(s) && Enabled(s, Unlock(t))
    ensures Inv(Next(s, Unlock(t)))
  {
    var record := s.threads[t].record;
    ReleasePreserves(s, t, Done(record.path, Reply.Image(record.fd, record.size)));
  }

  lemma StorePathPreserves(s: State, t: nat)
    requires Inv(s) && Enabled(s, StorePath(t))
    ensures Inv(Next(s, StorePath(t)))
  {
    var s', phase := Next(s, StorePath(t)), s.threads[t];
    assert PhaseInv(s.stored, SizesWritten(s), phase);
    StorePathKeepsCore(s, t, s'.searchedAt);
    RecordedInv(s.stored, s.searchedAt, phase.record, phase.at);
    PhasesStay(s.threads, s.stored, [phase.record], SizesWritten(s), SizesWritten(s'), t, s'.threads[t]);
  }

  lemma SearchPreserves(s: State, t: nat, path: string)
    requires Inv(s) && Enabled(s, Search(t, path))
    ensures Inv(Next(s, Search(t, path)))
  {
    var i := FirstMatch(s.stored, path, 0);
    SearchedPhase(s.stored, s.searchedAt, SizesWritten(s), Complete(s), path);
    QuietPreserves(s, t, if i < |s.stored| then Found(path, i, Complete(s)) else Missed(path, |s.stored|));
  }

  lemma ReadPreserves(s: State, step: Step)
    requires Inv(s) && Enabled(s, step) && (step.ReadSize? || step.ReadFd? || step.NotFound?)
    ensures Inv(Next(s, step))
  {
    assert PhaseInv(s.stored, SizesWritten(s), s.threads[step.t]);
    QuietPreserves(s, step.t, Next(s, step).threads[step.t]);
  }

  lemma InvPreserved(s: State, step: Step)
    requires Inv(s) && Enabled(s, step)
    ensures Inv(Next(s, step))
  {
    match step
    case Search(t, path) => SearchPreserves(s, t, path);
    case Lock(t, fd, size) => LockPreserves(s, t, fd, size);
    case StorePath(t) => StorePathPreserves(s, t);
    case StoreFd(t) => StoreFdPreserves(s, t);
    case StoreSize(t) => StoreSizePreserves(s, t);
    case Unlock(t) => UnlockPreserves(s, t);
    case _ => ReadPreserves(s, step);
  }

  ghost predicate Runs(s: State, steps: seq<Step>)
    requires Shaped(s)
    decreases |steps|
  {
    steps == [] || (Enabled(s, steps[0]) && Runs(Next(s, steps[0]), steps[1..]))
  }

  ghost function After(s: State, steps: seq<Step>): (s': State)
    requires Shaped(s) && Runs(s, steps)
    ensures Shaped(s')
    decreases |steps|
  {
    if steps == [] then s else After(Next(s, steps[0]), steps[1..])
  }

  lemma {:induction false} InvAlways(s: State, steps: seq<Step>)
    requires Inv(s) && Runs(s, steps)
    ensures Inv(After(s, steps))
    decreases |steps|
  {
    if steps == [] {
    } else {
      InvPreserved(s, steps[0]);
      InvAlways(Next(s, steps[0]), steps[1..]);
    }
  }

  // What a hit answers.

  /** In every interleaving up to the wrap, a hit has found the first record of exactly
      its path, and answers with that record's descriptor and size, each if it was
      written before it was read, and zero if not. So every hit on a record that was
      complete when it was found answers with the whole pair. */
  lemma HitReads(threads: nat, steps: seq<Step>, t: nat)
    requires Runs(Init(threads), steps)
    ensures var s := After(Init(threads), steps);
            t < |s.threads| && s.threads[t].SizeRead? ==>
              var SizeRead(path, idx, complete, size, sizes) := s.threads[t];
              && Enabled(s, ReadFd(t)) && idx < |s.stored| && complete <= sizes <= FdsWritten(s)
              && FirstWith(s.stored, path, 0) == idx && s.stored[idx].path == path
              && Next(s, ReadFd(t)).threads[t]
                 == Done(path, Reply.Image(if idx < FdsWritten(s) then s.stored[idx].fd else 0,
                                           if idx < sizes then s.stored[idx].size else 0))
              && (idx < complete ==>
                    Next(s, ReadFd(t)).threads[t] == Done(path, Reply.Image(s.stored[idx].fd, s.stored[idx].size)))
  {
    InvInitially(threads);
    InvAlways(Init(threads), steps);
    var s := After(Init(threads), steps);
    if t < |s.threads| && s.threads[t].SizeRead? {
      assert PhaseInv(s.stored, SizesWritten(s), s.threads[t]);
    }
  }

  lemma RecordInPlace(s: State, t: nat)
    requires MutexInv(s) && RingInv(s) && t < |s.threads| && s.threads[t].Recording? && s.threads[t].stage == 3
    ensures var last := |s.stored| - 1;
            && 0 <= last < FDS && s.threads[t].record == s.stored[last]
            && s.fds[last] == s.stored[last].fd && s.sizes[last] == s.stored[last].size
  {
    assert s.mutex == LockedBy(t) && Stage(s) == 3;
  }

  lemma ReplyOfRecord(s: State, t: nat)
    requires Shaped(s) && t < |s.threads| && s.threads[t].Recording? && s.threads[t].stage == 3
    ensures Enabled(s, Unlock(t))
    ensures var record := s.threads[t].record;
            Next(s, Unlock(t)).threads[t] == Done(record.path, Reply.Image(record.fd, record.size))
  {
  }

  /** A miss answers with the pair that it has recorded: its record is the last one,
      whole and in place when the mutex is released. */
  lemma MissAnswers(threads: nat, steps: seq<Step>, t: nat)
    requires Runs(Init(threads), steps)
    requires var s := After(Init(threads), steps);
             t < |s.threads| && s.threads[t].Recording? && s.threads[t].stage == 3
    ensures var s := After(Init(threads), steps);
            var last := |s.stored| - 1;
            && 0 <= last < FDS && s.fds[last] == s.stored[last].fd && s.sizes[last] == s.stored[last].size
            && Enabled(s, Unlock(t))
            && Next(s, Unlock(t)).threads[t] == Done(s.stored[last].path, Reply.Image(s.fds[last], s.sizes[last]))
  {
    InvInitially(threads);
    InvAlways(Init(threads), steps);
    RecordInPlace(After(Init(threads), steps), t);
    ReplyOfRecord(After(Init(threads), steps), t);
  }

  /** A path is recorded twice only by overlapping misses: the search that led to the
      later record was made before the earlier one was stored. */
  lemma DuplicatesOverlap(threads: nat, steps: seq<Step>, j: nat, k: nat)
    requires Runs(Init(threads), steps)
    ensures var s := After(Init(threads), steps);
            j < k < |s.stored| && s.stored[j].path == s.stored[k].path ==>
              |s.searchedAt| == |s.stored| && s.searchedAt[k] <= j
  {
    InvInitially(threads);
    InvAlways(Init(threads), steps);
    var s := After(Init(threads), steps);
    if j < k < |s.stored| {
      assert Fresh(s.stored, s.stored[k].path, s.searchedAt[k]);
    }
  }

  // A record that is read too early.

  function Zeros(): seq<int> { seq(FDS, _ => 0) }

  function Two(stored: seq<Stored>, t0: Phase, t1: Phase, mutex: Mutex, searchedAt: seq<nat>): State {
    State(stored, Zeros(), Zeros(), 0, [t0, t1], mutex, searchedAt)
  }

  /** One step in front of a run. */
  lemma RunsBack(s: State, step: Step, s': State, steps: seq<Step>)
    requires Shaped(s) && Enabled(s, step) && Next(s, step) == s' && Shaped(s') && Runs(s', steps)
    ensures Runs(s, [step] + steps) && After(s, [step] + steps) == After(s', steps)
  {
    assert ([step] + steps)[1..] == steps;
  }

  lemma ReadEarly(record: Stored, t0: Phase)
    requires IsImagePath(record.path) && t0 == Recording(record, 0, 1)
    ensures var s := Two([record], t0, Idle, LockedBy(0), [0]);
            var steps := [Search(1, record.path)] + ([ReadSize(1)] + ([ReadFd(1)] + []));
            && Runs(s, steps)
            && After(s, steps) == Two([record], t0, Done(record.path, Reply.Image(0, 0)), LockedBy(0), [0])
  {
    var path := record.path;
    var s3 := Two([record], t0, Idle, LockedBy(0), [0]);
    var s4 := Two([record], t0, Found(path, 0, 0), LockedBy(0), [0]);
    var s5 := Two([record], t0, SizeRead(path, 0, 0, 0, 0), LockedBy(0), [0]);
    var s6 := Two([record], t0, Done(path, Reply.Image(0, 0)), LockedBy(0), [0]);
    assert FirstMatch([record], path, 0) == 0 by {
      assert CStrings.OccursAt(path, path, 0);
    }
    assert Next(s3, Search(1, path)) == s4;
    assert Next(s4, ReadSize(1)) == s5;
    assert Next(s5, ReadFd(1)) == s6;
    assert Runs(s6, []);
    RunsBack(s5, ReadFd(1), s6, []);
    RunsBack(s4, ReadSize(1), s5, [ReadFd(1)] + []);
    RunsBack(s3, Search(1, path), s4, [ReadSize(1)] + ([ReadFd(1)] + []));
  }

  lemma OneIsUnwrapped(record: Stored)
    requires Storable(record.path)
    ensures Unwrapped([] + [record])
  {
    assert [] + [record] == [record];
    assert [record][..0] == [] && Pack([]) == "";
  }

  /** The first thread misses, takes the mutex and stores its path. */
  lemma StoresPath(record: Stored, s: State, rest: seq<Step>)
    requires IsImagePath(record.path) && Storable(record.path)
    requires s == Two([record], Recording(record, 0, 1), Idle, LockedBy(0), [0]) && Runs(s, rest)
    ensures var s2 := Two([], Recording(record, 0, 0), Idle, LockedBy(0), []);
            Runs(s2, [StorePath(0)] + rest) && After(s2, [StorePath(0)] + rest) == After(s, rest)
  {
    OneIsUnwrapped(record);
    var s2 := Two([], Recording(record, 0, 0), Idle, LockedBy(0), []);
    assert Next(s2, StorePath(0)) == s;
    RunsBack(s2, StorePath(0), s, rest);
  }

  lemma MissesAndLocks(record: Stored, s: State, rest: seq<Step>)
    requires IsImagePath(record.path)
    requires s == Two([], Recording(record, 0, 0), Idle, LockedBy(0), []) && Runs(s, rest)
    ensures var steps := [Search(0, record.path)] + ([Lock(0, record.fd, record.size)] + rest);
            Runs(Init(2), steps) && After(Init(2), steps) == After(s, rest)
  {
    var s0 := Two([], Idle, Idle, Unlocked, []);
    var s1 := Two([], Missed(record.path, 0), Idle, Unlocked, []);
    assert Init(2) == s0 by {
      assert Init(2).threads == [Idle, Idle];
    }
    assert Next(s1, Lock(0, record.fd, record.size)) == s;
    RunsBack(s1, Lock(0, record.fd, record.size), s, rest);
    assert Next(s0, Search(0, record.path)) == s1;
    RunsBack(s0, Search(0, record.path), s1, [Lock(0, record.fd, record.size)] + rest);
  }

  /** A search between the storing of a path and the storing of its pair: the hit
      answers with descriptor and size zero, whatever the record says. */
  lemma UnwrittenPairIsServed(record: Stored) returns (steps: seq<Step>)
    requires IsImagePath(record.path) && Storable(record.path)
    ensures Runs(Init(2), steps)
    ensures var s := After(Init(2), steps);
            |s.threads| == 2 && s.stored == [record] && s.threads[1] == Done(record.path, Reply.Image(0, 0))
  {
    var path := record.path;
    var rest := [Search(1, path)] + ([ReadSize(1)] + ([ReadFd(1)] + []));
    ReadEarly(record, Recording(record, 0, 1));
    StoresPath(record, Two([record], Recording(record, 0, 1), Idle, LockedBy(0), [0]), rest);
    MissesAndLocks(record, Two([], Recording(record, 0, 0), Idle, LockedBy(0), []), [StorePath(0)] + rest);
    steps := [Search(0, path)] + ([Lock(0, record.fd, record.size)] + ([StorePath(0)] + rest));
  }
}
