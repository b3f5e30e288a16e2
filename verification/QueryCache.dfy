/** The cache of device queries in front of the database (HandleDB.c:13-139). */
module QueryCache {
  import opened CStrings
  import opened Decimal
  import opened QueryText

  const SLOTS: nat := 256

  /** idx_cache is an unsigned 64-bit counter. */
  const IDX_RANGE: nat := 0x1_0000_0000_0000_0000

  datatype Dims = Dims(width: int, height: int, colors: int)

  const NO_DIMS := Dims(0, 0, 0)

  /** A row of the device table: columns 2, 3 and 7 as the database returns them. */
  datatype Row = Row(height: string, width: string, colors: string)

  datatype Answer = NoRow | Found(row: Row)

  /** The database: a fixed answer to every query text. */
  type Table = string -> Answer

  /** struct cache_query; the initial memory is zero, and zero is NO_VALUE_IN_DB. */
  datatype Entry = Entry(query: string, valueInDb: bool, dims: Dims)

  const EMPTY := Entry("", false, NO_DIMS)

  function RowDims(row: Row): Dims {
    Dims(ParseInt(row.width), ParseInt(row.height), ParseInt(row.colors))
  }

  /** The dimensions a request gets when the database is asked directly. */
  function Lookup(table: Table, ua: string): Dims {
    match table(Query(ua))
    case NoRow => NO_DIMS
    case Found(row) => RowDims(row)
  }

  /** The database says this of a device: a row with a width, a height and a number of
      colours that fit an int, each in its own column. */
  predicate Describes(table: Table, ua: string, width: nat, height: nat, colors: nat) {
    && width <= INT_MAX && height <= INT_MAX && colors <= INT_MAX
    && table(Query(ua)) == Found(Row(Printed(height), Printed(width), Printed(colors)))
  }

  /** The dimensions of a device are those in its row, and zeros when it has none. */
  lemma LookupReadsRow(table: Table, ua: string, width: nat, height: nat, colors: nat)
    ensures Describes(table, ua, width, height, colors) ==> Lookup(table, ua) == Dims(width, height, colors)
    ensures table(Query(ua)).NoRow? ==> Lookup(table, ua) == Dims(0, 0, 0)
  {
    if Describes(table, ua, width, height, colors) {
      ParseIntOfPrinted(width);
      ParseIntOfPrinted(height);
      ParseIntOfPrinted(colors);
    }
  }

  /** What a miss for `ua` writes. */
  function EntryFor(table: Table, ua: string): Entry {
    Entry(Query(ua), table(Query(ua)).Found?, Lookup(table, ua))
  }

  datatype Ring = Ring(entries: seq<Entry>, idx: nat)

  /** The search from slot `i` on: the first slot whose query contains `q`. */
  function FirstHit(entries: seq<Entry>, q: string, i: nat): (k: nat)
    requires i <= |entries|
    ensures i <= k <= |entries|
    ensures forall m | i <= m < k :: !Contains(entries[m].query, q)
    ensures k < |entries| ==> Contains(entries[k].query, q)
    decreases |entries| - i
  {
    if i == |entries| || Contains(entries[i].query, q) then i else FirstHit(entries, q, i + 1)
  }

  function Insert(r: Ring, e: Entry): Ring
    requires |r.entries| == SLOTS
  {
    Ring(r.entries[r.idx % SLOTS := e], (r.idx + 1) % IDX_RANGE)
  }

  /** What a slot that was found says; a slot without a row answers with zeros,
      whatever is stored in it. */
  function Read(e: Entry): Dims {
    if e.valueInDb then e.dims else NO_DIMS
  }

  /** retrieve_dim_from_DB as one atomic call. */
  function Retrieve(r: Ring, table: Table, ua: string): (Ring, Dims)
    requires |r.entries| == SLOTS
  {
    var i := FirstHit(r.entries, Query(ua), 0);
    if i == SLOTS then (Insert(r, EntryFor(table, ua)), Lookup(table, ua))
    else (r, Read(r.entries[i]))
  }

  // What the ring holds.

  /** After the insertions for `inserted`, slot t mod 256 holds the t-th of them if
      it is among the last 256, and the other slots are still empty. */
  ghost predicate HoldsLast(r: Ring, table: Table, inserted: seq<string>) {
    && |r.entries| == SLOTS
    && r.idx == |inserted| % IDX_RANGE
    && (forall t | 0 <= t < |inserted| && t >= |inserted| - SLOTS ::
          r.entries[t % SLOTS] == EntryFor(table, inserted[t]))
    && (forall j | |inserted| <= j < SLOTS :: r.entries[j] == EMPTY)
  }

  /** The insertion that slot j shows after `count` insertions. */
  function Latest(count: nat, j: nat): (t: int)
    requires j < SLOTS
    ensures t < count && t >= count - SLOTS
    ensures t >= 0 ==> t % SLOTS == j
    ensures t < 0 ==> j >= count
  {
    count - 1 - (count - 1 - j) % SLOTS
  }

  lemma LatestIs(count: nat, t: nat)
    requires t < count && t >= count - SLOTS
    ensures Latest(count, t % SLOTS) == t
  {
  }

  /** Every slot is empty or shows the insertion that was made there last. */
  lemma SlotShows(r: Ring, table: Table, inserted: seq<string>, j: nat)
    requires HoldsLast(r, table, inserted) && j < SLOTS
    ensures var t := Latest(|inserted|, j);
            r.entries[j] == if t < 0 then EMPTY else EntryFor(table, inserted[t])
  {
  }

  /** Insertions less than 256 apart use different slots. */
  lemma SlotsDiffer(t: nat, u: nat)
    requires t < u < t + SLOTS
    ensures t % SLOTS != u % SLOTS
  {
  }

  /** The wrap of the 64-bit index keeps the order of the slots: 256 divides 2^64. */
  lemma IndexWraps(count: nat)
    ensures count % IDX_RANGE % SLOTS == count % SLOTS
    ensures (count % IDX_RANGE + 1) % IDX_RANGE == (count + 1) % IDX_RANGE
  {
  }

  lemma InsertKeepsHoldsLast(r: Ring, table: Table, inserted: seq<string>, ua: string)
    requires HoldsLast(r, table, inserted)
    ensures HoldsLast(Insert(r, EntryFor(table, ua)), table, inserted + [ua])
  {
    var e, count := EntryFor(table, ua), |inserted|;
    var entries := r.entries[count % SLOTS := e];
    IndexWraps(count);
    assert Insert(r, e).entries == entries;
    forall t | 0 <= t < count + 1 && t >= count + 1 - SLOTS
      ensures entries[t % SLOTS] == EntryFor(table, (inserted + [ua])[t])
    {
      if t < count {
        SlotsDiffer(t, count);
        assert entries[t % SLOTS] == r.entries[t % SLOTS];
      }
    }
  }

  /** User agents whose stored query is found for themselves only, quote-free ones included. */
  predicate Plain(ua: string) {
    Askable(ua) && Unmistakable(ua)
  }

  lemma QuoteFreeIsPlain(ua: string)
    requires Askable(ua) && Free(ua, QUOTE)
    ensures Plain(ua)
  {
    QuoteFreeIsUnmistakable(ua);
  }

  predicate AllPlain(uas: seq<string>) {
    forall t | 0 <= t < |uas| :: Plain(uas[t])
  }

  /** Two insertions of one query are more than 256 insertions apart. */
  predicate Spaced(inserted: seq<string>) {
    forall t, u | 0 <= t < u < |inserted| && inserted[t] == inserted[u] :: u - t > SLOTS
  }

  /** Whether `ua` is among the last 256 insertions. */
  predicate Recent(inserted: seq<string>, ua: string) {
    exists t | 0 <= t < |inserted| && t >= |inserted| - SLOTS :: inserted[t] == ua
  }

  /** A slot matches the query of `ua` exactly when it shows an insertion of `ua`. */
  lemma MatchIsRecent(r: Ring, table: Table, inserted: seq<string>, ua: string, j: nat)
    requires HoldsLast(r, table, inserted) && AllPlain(inserted) && j < SLOTS && ua != ""
    ensures Contains(r.entries[j].query, Query(ua))
       <==> Latest(|inserted|, j) >= 0 && inserted[Latest(|inserted|, j)] == ua
  {
    var t := Latest(|inserted|, j);
    SlotShows(r, table, inserted, j);
    if t < 0 {
      EmptySlotNeverMatches(ua);
    } else {
      UnmistakableLookup(inserted[t], ua);
    }
  }

  /** The search misses exactly when the query is not among the last 256 inserted. */
  lemma MissIsNotRecent(r: Ring, table: Table, inserted: seq<string>, ua: string)
    requires HoldsLast(r, table, inserted) && AllPlain(inserted) && ua != ""
    ensures FirstHit(r.entries, Query(ua), 0) == SLOTS <==> !Recent(inserted, ua)
  {
    var k := FirstHit(r.entries, Query(ua), 0);
    if k < SLOTS {
      MatchIsRecent(r, table, inserted, ua, k);
    }
    if Recent(inserted, ua) {
      var t :| 0 <= t < |inserted| && t >= |inserted| - SLOTS && inserted[t] == ua;
      LatestIs(|inserted|, t);
      MatchIsRecent(r, table, inserted, ua, t % SLOTS);
    }
  }

  /** One call: the answer is the database's, and the query is inserted when it was
      not among the last 256. */
  lemma RetrieveRefinesLookup(r: Ring, table: Table, inserted: seq<string>, ua: string)
    requires HoldsLast(r, table, inserted) && AllPlain(inserted) && Spaced(inserted) && Plain(ua)
    ensures var (r', dims) := Retrieve(r, table, ua);
            var inserted' := if Recent(inserted, ua) then inserted else inserted + [ua];
            && dims == Lookup(table, ua)
            && HoldsLast(r', table, inserted') && AllPlain(inserted') && Spaced(inserted')
  {
    MissIsNotRecent(r, table, inserted, ua);
    var k := FirstHit(r.entries, Query(ua), 0);
    if k == SLOTS {
      InsertKeepsHoldsLast(r, table, inserted, ua);
    } else {
      MatchIsRecent(r, table, inserted, ua, k);
      SlotShows(r, table, inserted, k);
    }
  }

  /** The answers of a sequence of calls. */
  function Answers(r: Ring, table: Table, uas: seq<string>): seq<Dims>
    requires |r.entries| == SLOTS
    decreases |uas|
  {
    if uas == [] then []
    else var (r', dims) := Retrieve(r, table, uas[0]); [dims] + Answers(r', table, uas[1..])
  }

  function Lookups(table: Table, uas: seq<string>): seq<Dims> {
    if uas == [] then [] else [Lookup(table, uas[0])] + Lookups(table, uas[1..])
  }

  lemma {:induction false} AnswersFrom(r: Ring, table: Table, inserted: seq<string>, uas: seq<string>)
    requires HoldsLast(r, table, inserted) && AllPlain(inserted) && Spaced(inserted) && AllPlain(uas)
    ensures Answers(r, table, uas) == Lookups(table, uas)
    decreases |uas|
  {
    if uas == [] {
    } else {
      RetrieveRefinesLookup(r, table, inserted, uas[0]);
      AnswersFrom(Retrieve(r, table, uas[0]).0, table,
                  if Recent(inserted, uas[0]) then inserted else inserted + [uas[0]], uas[1..]);
    }
  }

  const EMPTY_RING := Ring(seq(SLOTS, _ => EMPTY), 0)

  /** The cache in front of the database changes no answer, in any sequence of calls. */
  lemma CacheRefinesDatabase(table: Table, uas: seq<string>)
    requires AllPlain(uas)
    ensures Answers(EMPTY_RING, table, uas) == Lookups(table, uas)
  {
    AnswersFrom(EMPTY_RING, table, [], uas);
  }

  lemma {:induction false} LookupsAt(table: Table, uas: seq<string>, k: nat)
    requires k < |uas|
    ensures |Lookups(table, uas)| == |uas| && Lookups(table, uas)[k] == Lookup(table, uas[k])
  {
    if |uas| == 1 {
    } else {
      LookupsAt(table, uas[1..], if k == 0 then 0 else k - 1);
    }
  }

  /** In any sequence of calls, hit or miss, a device is answered with the width, the
      height and the colours in its row, and an unknown one with zeros. */
  lemma AnswersAreRows(table: Table, uas: seq<string>, k: nat, width: nat, height: nat, colors: nat)
    requires AllPlain(uas) && k < |uas|
    ensures |Answers(EMPTY_RING, table, uas)| == |uas|
    ensures Describes(table, uas[k], width, height, colors)
        ==> Answers(EMPTY_RING, table, uas)[k] == Dims(width, height, colors)
    ensures table(Query(uas[k])).NoRow? ==> Answers(EMPTY_RING, table, uas)[k] == Dims(0, 0, 0)
  {
    CacheRefinesDatabase(table, uas);
    LookupsAt(table, uas, k);
    LookupReadsRow(table, uas[k], width, height, colors);
  }

  /** The condition on user agents cannot be weakened: once a user agent was asked for
      first, every answer to a second request is the database's, whatever the table,
      if and only if the first one is unmistakable. */
  lemma PlainExactly(stored: string)
    requires Askable(stored)
    ensures Unmistakable(stored)
       <==> forall table, wanted | Askable(wanted) ::
              Answers(EMPTY_RING, table, [stored, wanted]) == Lookups(table, [stored, wanted])
  {
    forall table, wanted | Askable(wanted)
      ensures Answers(EMPTY_RING, table, [stored, wanted])
           == [Lookup(table, stored),
               if Contains(Query(stored), Query(wanted)) then Lookup(table, stored) else Lookup(table, wanted)]
      ensures Lookups(table, [stored, wanted]) == [Lookup(table, stored), Lookup(table, wanted)]
    {
      TwoAnswers(table, stored, wanted);
    }
    if Unmistakable(stored) {
      forall wanted | Askable(wanted)
        ensures Contains(Query(stored), Query(wanted)) ==> stored == wanted
      {
        UnmistakableLookup(stored, wanted);
      }
    } else {
      var wanted := Mistaken(stored);
      var table := RowFor(stored);
      QueriesDiffer(stored, wanted);
      ParseIntOfPrinted(1);
      assert Lookup(table, stored) != Lookup(table, wanted);
      assert Lookups(table, [stored, wanted])[1] != Answers(EMPTY_RING, table, [stored, wanted])[1];
    }
  }

  lemma QueriesDiffer(a: string, b: string)
    requires a != b
    ensures Query(a) != Query(b)
  {
    QueryShape(a);
    QueryShape(b);
  }

  function RowFor(ua: string): Table {
    q => if q == Query(ua) then Found(Row(Printed(1), Printed(1), Printed(1))) else NoRow
  }

  /** The answers to two requests, of which the first fills an empty cache. */
  lemma TwoAnswers(table: Table, first: string, second: string)
    ensures Answers(EMPTY_RING, table, [first, second])
         == [Lookup(table, first),
             if Contains(Query(first), Query(second)) then Lookup(table, first) else Lookup(table, second)]
    ensures Lookups(table, [first, second]) == [Lookup(table, first), Lookup(table, second)]
  {
    EmptySlotNeverMatches(first);
    EmptySlotNeverMatches(second);
    var r := Insert(EMPTY_RING, EntryFor(table, first));
    assert Retrieve(EMPTY_RING, table, first) == (r, Lookup(table, first));
    assert r.entries[0] == EntryFor(table, first);
    assert forall j | 0 < j < SLOTS :: r.entries[j] == EMPTY;
    assert Retrieve(r, table, second).1
        == if Contains(Query(first), Query(second)) then Lookup(table, first) else Lookup(table, second);
    assert [first, second][1..] == [second];
    assert Answers(r, table, [second]) == [Retrieve(r, table, second).1];
    assert Lookups(table, [second]) == [Lookup(table, second)];
  }

  // The contents over whole runs.

  function RingAfter(r: Ring, table: Table, uas: seq<string>): (r': Ring)
    requires |r.entries| == SLOTS
    ensures |r'.entries| == SLOTS
    decreases |uas|
  {
    if uas == [] then r else RingAfter(Retrieve(r, table, uas[0]).0, table, uas[1..])
  }

  /** A first-in first-out queue of 256: what it would insert for a sequence of requests. */
  function Inserted(before: seq<string>, uas: seq<string>): seq<string>
    decreases |uas|
  {
    if uas == [] then before
    else Inserted(if Recent(before, uas[0]) then before else before + [uas[0]], uas[1..])
  }

  lemma {:induction false} FifoFrom(r: Ring, table: Table, inserted: seq<string>, uas: seq<string>)
    requires HoldsLast(r, table, inserted) && AllPlain(inserted) && Spaced(inserted) && AllPlain(uas)
    ensures HoldsLast(RingAfter(r, table, uas), table, Inserted(inserted, uas))
    ensures Spaced(Inserted(inserted, uas))
    decreases |uas|
  {
    if uas == [] {
    } else {
      RetrieveRefinesLookup(r, table, inserted, uas[0]);
      FifoFrom(Retrieve(r, table, uas[0]).0, table,
               if Recent(inserted, uas[0]) then inserted else inserted + [uas[0]], uas[1..]);
    }
  }

  /** After any sequence of calls the ring holds the last 256 insertions of the
      queue, pairwise different, and equal insertions are more than 256 apart; the
      wrap of the 64-bit index changes nothing. */
  lemma RingIsFifo(table: Table, uas: seq<string>)
    requires AllPlain(uas)
    ensures var inserted := Inserted([], uas);
            var r := RingAfter(EMPTY_RING, table, uas);
            && HoldsLast(r, table, inserted)
            && Spaced(inserted)
            && (forall t, u | 0 <= t < u < |inserted| && t >= |inserted| - SLOTS :: inserted[t] != inserted[u])
            && (forall t | 0 <= t < |inserted| && t >= |inserted| - SLOTS ::
                  var e := r.entries[t % SLOTS];
                  && e.query == Query(inserted[t]) && e.dims == Lookup(table, inserted[t])
                  && (e.valueInDb <==> table(Query(inserted[t])).Found?))
  {
    FifoFrom(EMPTY_RING, table, [], uas);
  }

  class Cache {
    const cache: array<Entry>
    var idxCache: nat

    ghost function Model(): Ring
      reads this, cache
    {
      Ring(cache[..], idxCache)
    }

    ghost predicate Valid()
      reads this
    {
      cache.Length == SLOTS && idxCache < IDX_RANGE
    }

    constructor ()
      ensures Valid() && fresh(cache) && Model() == EMPTY_RING
    {
      cache := new Entry[SLOTS](_ => EMPTY);
      idxCache := 0;
    }

    method RetrieveDim(userAgent: string, table: Table) returns (dims: Dims)
      requires Valid() && Askable(userAgent)
      modifies this, cache
      ensures Valid()
      ensures (Model(), dims) == old(Retrieve(Model(), table, userAgent))
    {
      var tmpQuery := Query(userAgent);
      var noRow := false;
      var i := 0;
      while i < SLOTS
        invariant 0 <= i <= SLOTS && !noRow
        invariant FirstHit(cache[..], tmpQuery, 0) == FirstHit(cache[..], tmpQuery, i)
      {
        if Contains(cache[i].query, tmpQuery) {
          noRow := !cache[i].valueInDb;
          break;
        }
        i := i + 1;
      }
      if i == SLOTS {
        match table(tmpQuery) {
          case Found(row) =>
            dims := Dims(ParseInt(row.width), ParseInt(row.height), ParseInt(row.colors));
            cache[idxCache % SLOTS] := Entry(tmpQuery, true, dims);
          case NoRow =>
            dims := NO_DIMS;
            cache[idxCache % SLOTS] := Entry(tmpQuery, false, dims);
        }
        idxCache := (idxCache + 1) % IDX_RANGE;
      } else if noRow {
        dims := NO_DIMS;
      } else {
        dims := cache[i].dims;
      }
    }
  }
}
