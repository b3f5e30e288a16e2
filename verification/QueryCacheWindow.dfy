/** Runs in which a hit is read one insertion too late (HandleDB.c:31-47 with
    127-131): between the search and the reads of one thread, or between two of the
    reads, another thread inserts into the slot that was found. */
module QueryCacheWindow {
  import opened CStrings
  import opened Decimal
  import opened QueryText
  import opened QueryCache
  import opened QueryCacheThreads

  /** A state that two threads reach from an empty cache. */
  ghost predicate Reached(s: State, table: Table) {
    exists steps :: Runs(Init(2), table, steps) && After(Init(2), table, steps) == s
  }

  lemma {:induction false} AppendStep(s: State, table: Table, steps: seq<Step>, step: Step)
    requires |s.ring.entries| == SLOTS && Runs(s, table, steps) && Enabled(After(s, table, steps), step)
    ensures Runs(s, table, steps + [step])
    ensures After(s, table, steps + [step]) == Next(After(s, table, steps), table, step)
    decreases |steps|
  {
    if steps == [] {
      assert steps + [step] == [step];
    } else {
      assert (steps + [step])[1..] == steps[1..] + [step];
      AppendStep(Next(s, table, steps[0]), table, steps[1..], step);
    }
  }

  lemma ReachedBy(s: State, table: Table, step: Step)
    requires Reached(s, table) && Inv(s, table) && Enabled(s, step)
    ensures Reached(Next(s, table, step), table) && Inv(Next(s, table, step), table)
  {
    var steps :| Runs(Init(2), table, steps) && After(Init(2), table, steps) == s;
    AppendStep(Init(2), table, steps, step);
    InvPreserved(s, table, step);
  }

  predicate Different(uas: seq<string>) {
    AllPlain(uas) && forall t, u | 0 <= t < u < |uas| :: uas[t] != uas[u]
  }

  predicate SecondThreadFree(s: State) {
    |s.threads| == 2 && s.mutex == Unlocked && (s.threads[1].Idle? || s.threads[1].Done?)
  }

  /** Thread 1 asks for a user agent that was not inserted: the search misses. */
  lemma SearchMisses(s: State, table: Table, ua: string) returns (s': State)
    requires Reached(s, table) && Inv(s, table) && SecondThreadFree(s) && Plain(ua) && !Recent(s.inserted, ua)
    ensures Reached(s', table) && Inv(s', table)
    ensures s' == s.(threads := s.threads[1 := Missed(ua)])
  {
    UnlockedHoldsLast(s, table);
    MissIsNotRecent(s.ring, table, s.inserted, ua);
    ReachedBy(s, table, Search(1, ua));
    s' := Next(s, table, Search(1, ua));
  }

  /** The writes of thread 1 from `stage` on. */
  lemma {:induction false} WriteAll(s: State, table: Table, ua: string, stage: nat) returns (s': State)
    requires Reached(s, table) && Inv(s, table) && |s.threads| == 2 && s.mutex == LockedBy(1)
    requires stage <= FIELDS && s.threads[1] == Writing(ua, stage)
    ensures Reached(s', table) && Inv(s', table) && SecondThreadFree(s')
    ensures s'.inserted == s.inserted && s'.threads[0] == s.threads[0]
    decreases FIELDS - stage
  {
    ReachedBy(s, table, Write(1));
    s' := Next(s, table, Write(1));
    if stage == FIELDS {
    } else {
      s' := WriteAll(s', table, ua, stage + 1);
    }
  }

  /** Thread 1 inserts after its miss. */
  lemma Inserts(s: State, table: Table, ua: string) returns (s': State)
    requires Reached(s, table) && Inv(s, table) && |s.threads| == 2 && s.mutex == Unlocked
    requires s.threads[1] == Missed(ua)
    ensures Reached(s', table) && Inv(s', table) && SecondThreadFree(s')
    ensures s'.inserted == s.inserted + [ua] && s'.threads[0] == s.threads[0]
  {
    ReachedBy(s, table, Lock(1));
    s' := WriteAll(Next(s, table, Lock(1)), table, ua, 0);
  }

  lemma {:induction false} Insertions(table: Table, uas: seq<string>, k: nat) returns (s: State)
    requires Different(uas) && k <= |uas|
    ensures Reached(s, table) && Inv(s, table) && SecondThreadFree(s)
    ensures s.inserted == uas[..k] && s.threads[0].Idle?
  {
    if k == 0 {
      s := Init(2);
      InvInitially(2, table);
      assert Runs(s, table, []) && After(s, table, []) == s;
    } else {
      s := Insertions(table, uas, k - 1);
      s := SearchMisses(s, table, uas[k - 1]);
      s := Inserts(s, table, uas[k - 1]);
      assert uas[..k] == uas[..k - 1] + [uas[k - 1]];
    }
  }

  /** Both threads have searched a full cache: thread 0 found the first of 257 user
      agents in slot 0, and thread 1 is about to insert the last one there. */
  lemma HitAndMiss(table: Table, uas: seq<string>) returns (s: State)
    requires Different(uas) && |uas| == SLOTS + 1 && table(Query(uas[0])).Found?
    ensures Reached(s, table) && Inv(s, table) && |s.threads| == 2 && s.mutex == Unlocked
    ensures s.inserted == uas[..SLOTS]
    ensures s.threads == [HitRow(uas[0], 0, SLOTS, [], []), Missed(uas[SLOTS])]
  {
    s := Insertions(table, uas, SLOTS);
    FoundInSlotZero(s, table, uas);
    ReachedBy(s, table, Search(0, uas[0]));
    s := Next(s, table, Search(0, uas[0]));
    assert s.threads[0] == HitRow(uas[0], 0, SLOTS, [], []);
    s := SearchMisses(s, table, uas[SLOTS]);
  }

  lemma FoundInSlotZero(s: State, table: Table, uas: seq<string>)
    requires Inv(s, table) && Different(uas) && |uas| == SLOTS + 1 && s.inserted == uas[..SLOTS]
    requires s.mutex == Unlocked
    ensures FirstHit(s.ring.entries, Query(uas[0]), 0) == 0
    ensures s.ring.entries[0] == EntryFor(table, uas[0])
  {
    UnlockedHoldsLast(s, table);
    SlotShows(s.ring, table, s.inserted, 0);
    LatestIs(SLOTS, 0);
    UnmistakableLookup(uas[0], uas[0]);
  }

  /** A read of thread 0 in slot 0 while no insertion is under way. */
  lemma ReadsLast(s: State, table: Table) returns (s': State)
    requires Reached(s, table) && Inv(s, table) && s.mutex == Unlocked && |s.threads| == 2
    requires s.threads[0].HitRow? && s.threads[0].i == 0 && Enabled(s, Read(0)) && |s.inserted| >= SLOTS
    ensures Reached(s', table) && Inv(s', table) && s' == s.(threads := s'.threads)
    ensures var hit, k := s.threads[0], |s.threads[0].vals|;
            var v := Dim(Lookup(table, s.inserted[Latest(|s.inserted|, 0)]), k);
            s'.threads == [hit.(vals := hit.vals + [v], marks := hit.marks + [|s.inserted|]), s.threads[1]]
  {
    ReadIs(s, table, 0, |s.threads[0].vals|);
    ReachedBy(s, table, Read(0));
    s' := Next(s, table, Read(0));
  }

  /** The last two reads and the return, while no insertion is under way. */
  lemma LastTwoReads(s: State, table: Table, ua: string, colors: int) returns (s': State)
    requires Reached(s, table) && Inv(s, table) && s.mutex == Unlocked && |s.threads| == 2
    requires s.threads[0].HitRow? && s.threads[0].ua == ua && s.threads[0].i == 0 && s.threads[0].vals == [colors]
    requires |s.inserted| >= SLOTS
    ensures Reached(s', table) && |s'.threads| == 2
    ensures var last := Lookup(table, s.inserted[Latest(|s.inserted|, 0)]);
            s'.threads[0] == Done(ua, last.(colors := colors))
  {
    var s1 := ReadsLast(s, table);
    assert |s1.threads[0].vals| == 2;
    var s2 := ReadsLast(s1, table);
    ReachedBy(s2, table, Return(0));
    s' := Next(s2, table, Return(0));
  }

  lemma ThreeReads(s: State, table: Table, ua: string) returns (s': State)
    requires Reached(s, table) && Inv(s, table) && s.mutex == Unlocked && |s.threads| == 2
    requires s.threads[0].HitRow? && s.threads[0].ua == ua && s.threads[0].i == 0 && s.threads[0].vals == []
    requires |s.inserted| >= SLOTS
    ensures Reached(s', table) && |s'.threads| == 2
    ensures s'.threads[0] == Done(ua, Lookup(table, s.inserted[Latest(|s.inserted|, 0)]))
  {
    var s1 := ReadsLast(s, table);
    s' := LastTwoReads(s1, table, ua, Lookup(table, s.inserted[Latest(|s.inserted|, 0)]).colors);
  }

  /** All three reads come after the insertion: thread 0, asking for the first user
      agent, is answered with the dimensions of the last one. */
  lemma LateRead(table: Table, uas: seq<string>) returns (s: State)
    requires Different(uas) && |uas| == SLOTS + 1 && table(Query(uas[0])).Found?
    ensures Reached(s, table) && |s.threads| == 2
    ensures s.threads[0] == Done(uas[0], Lookup(table, uas[SLOTS]))
  {
    var s0 := HitAndMiss(table, uas);
    var s1 := Inserts(s0, table, uas[SLOTS]);
    assert s1.inserted == uas;
    assert Latest(SLOTS + 1, 0) == SLOTS by {
      LatestIs(SLOTS + 1, SLOTS);
    }
    s := ThreeReads(s1, table, uas[0]);
  }

  /** The insertion comes between the first read and the second: the answer has the
      colours of the first user agent and the width and height of the last one. */
  lemma TornRead(table: Table, uas: seq<string>) returns (s: State)
    requires Different(uas) && |uas| == SLOTS + 1 && table(Query(uas[0])).Found?
    ensures Reached(s, table) && |s.threads| == 2
    ensures var last := Lookup(table, uas[SLOTS]);
            s.threads[0] == Done(uas[0], last.(colors := Lookup(table, uas[0]).colors))
  {
    s := HitAndMiss(table, uas);
    LatestIs(SLOTS, 0);
    LatestIs(SLOTS + 1, SLOTS);
    s := ReadsLast(s, table);
    s := Inserts(s, table, uas[SLOTS]);
    s := LastTwoReads(s, table, uas[0], Lookup(table, uas[0]).colors);
  }

  // A table and user agents that show it.

  function Agents(): (uas: seq<string>)
    ensures |uas| == SLOTS + 1
  {
    seq(SLOTS + 1, (t: nat) => Digits(t + 1))
  }

  lemma AgentsDiffer()
    ensures Different(Agents())
  {
    forall t | 0 <= t < SLOTS + 1
      ensures Plain(Agents()[t])
    {
      assert Pow10(3) == 1000;
      DigitCount(t + 1, 3);
      QueryShape(Digits(t + 1));
      QuoteFreeIsPlain(Digits(t + 1));
    }
    forall t, u | 0 <= t < u < SLOTS + 1
      ensures Agents()[t] != Agents()[u]
    {
      DigitsInjective(t + 1, u + 1);
    }
  }

  function OneOrTwo(first: string): Table {
    q => var d := Printed(if q == Query(first) then 1 else 2); Found(Row(d, d, d))
  }

  lemma AnswersOfTable(first: string, ua: string)
    ensures var d := if Query(ua) == Query(first) then 1 else 2; Lookup(OneOrTwo(first), ua) == Dims(d, d, d)
  {
    ParseIntOfPrinted(1);
    ParseIntOfPrinted(2);
  }

  lemma QueriesOfAgents()
    ensures Query(Agents()[0]) != Query(Agents()[SLOTS])
  {
    AgentsDiffer();
    QueriesDiffer(Agents()[0], Agents()[SLOTS]);
  }

  /** A request is answered with the dimensions of another device. */
  lemma WrongDimensionsAreServed()
    ensures exists table, s, ua, dims ::
      Reached(s, table) && |s.threads| == 2 && s.threads[0] == Done(ua, dims) && dims != Lookup(table, ua)
  {
    AgentsDiffer();
    QueriesOfAgents();
    var uas := Agents();
    var table := OneOrTwo(uas[0]);
    var s := LateRead(table, uas);
    AnswersOfTable(uas[0], uas[0]);
    AnswersOfTable(uas[0], uas[SLOTS]);
    assert s.threads[0] == Done(uas[0], Lookup(table, uas[SLOTS]));
  }

  /** A request is answered with dimensions that no device of the table has. */
  lemma MixedDimensionsAreServed()
    ensures exists table, s, ua, dims ::
      Reached(s, table) && |s.threads| == 2 && s.threads[0] == Done(ua, dims)
      && forall other :: dims != Lookup(table, other)
  {
    AgentsDiffer();
    QueriesOfAgents();
    var uas := Agents();
    var table := OneOrTwo(uas[0]);
    var s := TornRead(table, uas);
    AnswersOfTable(uas[0], uas[0]);
    AnswersOfTable(uas[0], uas[SLOTS]);
    var dims := Dims(2, 2, 1);
    forall other
      ensures dims != Lookup(table, other)
    {
      AnswersOfTable(uas[0], other);
    }
    assert s.threads[0] == Done(uas[0], dims);
  }
}
