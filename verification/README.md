# A verified model of the adaptive image server

The server adapts images to the screen of the device that asks for them. An
accept loop hands connections to pools of worker threads; a worker parses the
request, looks the device up by its user agent, and sends the image resized to
that device, from a cache of images adapted before.

This project models the parts that keep state and proves what they promise.

| files | what they are about |
|---|---|
| `ThreadPool`, `KeepAlive`, `PoolGrowth` | one pool of slots, the life of one connection in its slot, and the doubling set of pools, as classes whose methods update their fields in place |
| `Handoff`, `HandoffWake`, `HandoffMailbox`, `HandoffChoice`, `HandoffOwnership`, `HandoffLosses`, `HandoffSessions`, `HandoffClosings`, `HandoffAccounting`, `HandoffFairness`, `HandoffTimer`, `HandoffExamples` | all threads of the server as one transition system over the same operations, and what holds in every run of it |
| `QueryText`, `QueryCache`, `QueryCacheThreads`, `QueryCacheWindow` | the ring of 256 device queries in front of the database, with atomic calls and with interleaved ones |
| `ImagePaths`, `ImageCache`, `ImageLookup`, `ImageCacheThreads` | the paths of cached images, the byte map that packs them and the ring of descriptors beside it, with calls one after the other and with interleaved ones |
| `CStrings`, `Decimal`, `Numerals`, `CacheKey`, `RequestLine`, `ResponseHeader` | strings, printers and parsers |
| `Service` | parser, query cache and image cache together: one request from its text to its image, and sequences of requests |

The specification of an operation is a function of the old state; a method that
the source writes as a loop or as updates in place is proved equal to it, and
the main results are lemmas about those functions and about runs.

## Modelling assumptions

- Steps of the threads. One step each: the mailbox write with its signal
  (HttpServer.c:87-93); the ring search with the filling of the slot
  (ThreadPool.c:189-199); the dispatcher's lock, signal and unlock
  (ThreadPool.c:203-205); the worker's lock, test, wait, wake-up and unlock
  (ThreadPool.c:290-295); one poll and its bookkeeping (ThreadPool.c:248-281);
  closing a slot (ThreadPool.c:94-126); the growth handshake with the doubling
  (HttpServer.c:97-114 with ThreadPool.c:132-155). At the granularity of single
  statements some ownership claims are false: closing clears `used` at
  ThreadPool.c:96 before the other fields and before the descriptor is closed,
  and filling sets `msg_received` at line 197 before `used` at line 198.
- Steps of the query cache. The search under the mutex is one step
  (HandleDB.c:31-47); each of the three reads of a hit (HandleDB.c:129-131) and each
  field written by an insertion (HandleDB.c:79-84 and 103-110) is a step of its own.
  The results with atomic calls take a whole call as one step.
- Steps of the image cache. The search is one step (Utils.c:301-316); the two reads of
  a hit (HandleImage.c:49-50) are steps of their own, and so are, under the mutex, the
  storing of a path (HandleImage.c:121-123), of its descriptor (line 124), of its size
  (line 125) and the release (lines 126-127).
- Waits on the worker's and on the dispatcher's condition variable may end
  without a signal. Where a result needs that they do not, it says so.
- What `poll`, `recv`, the replies, `open` and the image library report is an
  arbitrary input. The device table is an arbitrary fixed function from the
  text of a query to a row or to no row.
- Connections carry the number of their accept, from 1 on; 0 is the content of a
  mailbox that was never written.
- `max_descriptor` and `idx_cache` are unsigned 64-bit numbers and wrap. `parse_int`
  converts to 32 bits. Other counters are unbounded integers.
- The quality factor is a fixed-point number with eight decimals.
- C strings are sequences of characters without their terminator; buffers are
  arrays of their declared size.

## Where the code and its description part

- `counter` is described as the number of occupied slots (include/ThreadPool.h:55).
  Both `get_E` and `dispatch_job` increment it, so it is not:
  `HandoffAccounting.CounterIsOccupancyExactly` says by how much it is off and
  exactly when it is right.
- `wait_for_connection` is described as returning only when the dispatcher
  signals (include/ThreadPool.h:168-177). It also returns at once when the flag is
  set, so a worker can serve and close before the signal is sent, be woken by it
  afterwards, and close its free slot again:
  `HandoffExamples.LateSignalClosesFreeSlot`. The flag is not tested again after
  the wait (ThreadPool.c:291-294); `HandoffSessions.SessionsUseSlotsExactly` says
  that this is exactly what goes wrong.
- The mutexes at HttpServer.c:90-93 are described as preventing the loss of a
  signal. A mailbox that was not read can still be overwritten:
  `HandoffExamples.MailboxLosesConnection`, and `HandoffLosses.NoneLostExactly` says
  that nothing else loses one. The signal itself is lost when the dispatcher is not
  waiting yet: `HandoffMailbox.FirstPostOverlooked`, and `HandoffMailbox.OverlooksExactly`
  says exactly when. Since the dispatcher's wait has no
  loop around it, one that ends without a signal delivers a connection twice:
  `HandoffExamples.SpuriousWakeDeliversTwice`, exactly described by
  `HandoffOwnership.AtMostOnceExactly`.
- After an image-not-present reply the descriptor is closed and the slot stays in use
  (HttpServer.c:204-221), so the same descriptor is closed again later:
  `HandoffClosings.ShutDownOnceExactly`.
- The values of a query hit are read after the mutex is released (HandleDB.c:127-131):
  `QueryCacheWindow.WrongDimensionsAreServed` is a run in which the answer is another
  device's, `QueryCacheWindow.MixedDimensionsAreServed` one in which it is no device's,
  and `QueryCacheThreads.HitReads` says for each value when a hit still reads its own.
- Under load the accept loop does not spread the connections: after a passed load test
  the index does not depend on where it was (HttpServer.c:112-117), and with 16 pools or
  more it is one each time, `HandoffChoice.LoadedUsesOnePool`.
- An image that cannot be read is reported as not present for a .jpg alone
  (HandleImage.c:62-75); of any other extension it is recorded and sent all the same:
  `Service.NotPresentExactly`.
- A user agent can be mistaken for another one:
  `QueryText.QuotedAgentsCanBeConfused`. `QueryText.NeverMistakenExactly` and
  `QueryCache.PlainExactly` say which user agents are safe; quote-free ones are.
- `fd_cache_mtx` is held while a path and its pair are recorded, and neither the search
  nor the reads of a hit take it. A search that comes between finds the path and reads a
  pair that is not there yet: `ImageCacheThreads.UnwrittenPairIsServed`;
  `ImageCacheThreads.HitReads` says that this happens with no record that was complete
  when it was found.
- The cache name is described as made from name, quality and dimensions
  (include/Strings.h:7-11). It does not determine the dimensions, 12 by 3 and 1 by 23
  being printed alike, and the wrong image is served:
  `CacheKey.DifferentDimensionsShareKey`, `Service.WrongSizeIsServed`.
- The method of a request is recognised anywhere in the first line, the name of the
  image included: `RequestLine.PostCanBeTakenForGet`.
- A poll that reports a request closes the connection when the timer stands at one,
  because the lowered timer is what is returned (ThreadPool.c:272-276):
  the last clause of `KeepAlive.TickLowersMeasure`. A client that always has a request
  ready is cut off after five rounds, not after 1000: `KeepAlive.FilledSlotLasts`.
- A parsed number comes back only up to the largest `int`, and zero is printed as
  the empty string, so the Content-Length of an empty file is empty:
  `Decimal.ParseIntOfPrinted`, `ResponseHeader.LengthFieldExact`.
- `dispatcher[].idx_pool` of a new pool is written twice, and the second value is
  not the pool's index (ThreadPool.c:144-145): `PoolGrowth.Server.SetUpDispatcher`.
  No code of the model reads it.
- An answer of 503 carries the 400 header, because the condition at Strings.c:178
  repeats the one at Strings.c:150; `ResponseHeader.Header` follows the code.

## Model

| member | source | states |
|---|---|---|
| HandoffWake.PoolInvPreserved | ThreadPool.c:189-205 | Every step of dispatcher or worker keeps mutual exclusion over both program counters, the rule that a flag set behind a worker's back is followed by a signal, and the range of the keep-alive budget |
| HandoffWake.InvAlways | ThreadPool.c:288-297 | That invariant holds for every slot of every pool in every state of every run, spurious wake-ups and pool growth included |
| HandoffWake.NoLostWakeUp | ThreadPool.c:197-205 | In every reachable state a worker blocked although its flag is set has its dispatcher between setting the flag of that slot and signalling it, and the dispatcher's next step is enabled |
| HandoffWake.StrandedWorkerWakes | ThreadPool.c:203-205 | Whatever the other threads do, such a worker is woken once its dispatcher has made its one or two remaining steps |
| HandoffWake.NoConnectionWaitsUnseen | ThreadPool.c:193-205 | In every reachable state a used slot that is not being served has its flag set, and if its worker is blocked, its dispatcher is before the signal to it and able to go on |
| HandoffOwnership.InvPreserved | ThreadPool.c:177-240 | Every step keeps: mailboxes hold undelivered connections, each in one mailbox; delivery is at most once exactly as long as no mailbox was read twice, and then every held connection was delivered and has one place |
| HandoffOwnership.AtMostOnceExactly | ThreadPool.c:179-183 | A run delivers only accepted connections, each at most once, if and only if no dispatcher read a mailbox that it had read before |
| HandoffOwnership.AtMostOnceWithoutSpuriousWakes | ThreadPool.c:177-183 | If dispatchers' waits end only on signals, every run delivers each connection at most once |
| HandoffOwnership.OneOwner | ThreadPool.c:177-240 | In every such run a connection is in at most one dispatcher's hand or one used slot across all pools |
| HandoffOwnership.UsedSlotKeepsConnection | ThreadPool.c:94-126 | A step takes the connection out of a used slot if and only if it is the step that closes that slot |
| HandoffOwnership.NeverOverwritten | ThreadPool.c:189-198 | Over any run, the connection of a used slot is not overwritten before the slot is closed |
| HandoffLosses.GoneStep | HttpServer.c:87-93 | A step makes a connection gone, that is, accepted and nowhere, if and only if it overwrites it unread in its mailbox; none comes back |
| HandoffLosses.OverwrittenIsGoneForGood | HttpServer.c:87-93 | In any run, a connection overwritten unread in its mailbox is delivered in no continuation |
| HandoffLosses.GoneAreOverwritten | HttpServer.c:87-93 | Over every run as many connections are gone as posts hit an unread mailbox |
| HandoffLosses.NoneLostExactly | HttpServer.c:71-93 | Every accepted connection is delivered, in the accept loop or in an unread mailbox if and only if no post of the run hits an unread mailbox; otherwise some connection is gone |
| HandoffSessions.SessionsUseSlotsExactly | ThreadPool.c:288-297 | In every state of a run all workers between their wait and their close have used slots if and only if no worker returns from its wait while its slot is free |
| HandoffSessions.ClosesWhatItBeganWith | ThreadPool.c:189-198 | Up to the next closing of a slot: it is used now if and only if nothing fills it meanwhile and it is used at the end, and then its connection is the same throughout |
| HandoffSessions.NoForeignConnectionClosed | HttpServer.c:148-279 | Without such a return, a session ends with the connection it began with: no connection is shut down by a session that began before its slot was filled |
| HandoffSessions.CounterWithoutFreeRelocks | include/ThreadPool.h:55 | Without such a return no free slot is closed, and each counter exceeds the occupied slots by exactly the assignments |
| HandoffClosings.FinishedStep | ThreadPool.c:94-126 | A delivered connection leaves every hand and slot by the closing of its used slot and by nothing else, once |
| HandoffClosings.ShutDownOnceExactly | HttpServer.c:204-221 | Over a run that delivers at most once, the descriptor of a finished connection was shut down exactly once if and only if there was no image-not-present reply on it and no closing of a free slot that still had it |
| HandoffClosings.ShutDownTwiceOnlyByReplies | HttpServer.c:257-273 | If no worker returns from its wait with its slot free, only image-not-present replies add shutdowns |
| HandoffExamples.SpuriousWakeDeliversTwice | ThreadPool.c:179-183 | A reachable state in which a wait that ends without a signal puts one connection in a slot and in the dispatcher's hand |
| HandoffExamples.LateSignalClosesFreeSlot | ThreadPool.c:288-297 | A run without spurious wake-ups in which one assignment is followed by two closings of its slot |
| HandoffExamples.MailboxLosesConnection | HttpServer.c:87-93 | A run without spurious wake-ups in which an accepted connection is lost |
| HandoffMailbox.OverlooksExactly | ThreadPool.c:179-183 | In a run no dispatcher ever sleeps on an unread connection if and only if none begins its wait with one in its mailbox |
| HandoffMailbox.FirstPostOverlooked | HttpServer.c:87-93 | For any number of threads and pools, a run whose first connection is posted before its dispatcher waits and stays in the mailbox |
| HandoffChoice.NextPoolExactly | HttpServer.c:112-117 | The index goes one further around the ring while the load test fails; after a passed test it is 1, or behind the old pools when an odd number of threads doubles, wherever it was before |
| HandoffChoice.PostsFromStart | HttpServer.c:87-117 | From the start of the server, while no choice passes the load test, the k-th connection is posted to pool k modulo the number of pools |
| HandoffChoice.NextPosts | HttpServer.c:87-117 | The same from any state on |
| HandoffChoice.EveryMailboxOnce | HttpServer.c:117 | Then any s consecutive posts reach each of the s mailboxes exactly once |
| HandoffChoice.LoadedUsesOnePool | HttpServer.c:112-117 | With 16 pools or more and the load test passed in every choice, every post goes to the second pool |
| HandoffChoice.GrownExactly | HttpServer.c:95-97 | The pools double if and only if twice the descriptors reach the number of threads, rounded, and there are fewer than 16 pools |
| HandoffChoice.PoolsDoubleExactly | HttpServer.c:95-114 | Over every run the number of pools is the initial one doubled once for each such choice |
| HandoffAccounting.DescriptorsAccount | HttpServer.c:83-85 | Over every run max_descriptor is 1 plus accepts less closings less image-not-present replies, modulo 2^64 |
| HandoffAccounting.CountersAccount | ThreadPool.c:199-224 | Over every run each pool's counter is twice its assignments less its closings |
| HandoffAccounting.CounterIsOccupancyExactly | include/ThreadPool.h:55 | How far the counter is from the number of occupied slots, and that it equals it if and only if the assignments equal the closings of free slots |
| HandoffAccounting.ConnectionsAccount | HttpServer.c:71-93 | Over every run accepted connections plus repeated reads equal deliveries plus those in the accept loop, in unread mailboxes and overwritten there |
| HandoffFairness.BypassBound | ThreadPool.c:216-226 | A free slot is handed out before as many allocations as it is places away from E have passed it over |
| HandoffFairness.BoundedBypass | ThreadPool.c:216-230 | In any run a free slot is handed out within num_thread_pool allocations of its pool, whatever other slots are freed meanwhile |
| HandoffTimer.ClosedWithinBounds | ThreadPool.c:242-286 | In any run under any interleaving, a used slot sees at most 6000 polls and 1001 receive rounds before a step closes it |
| HandoffTimer.ReplyPutsFlagDown | HttpServer.c:249-250 | After a reply in a used slot, the image-not-present one included, the flag is down until a poll of that slot reports a request, under any interleaving |
| HandoffTimer.AfterReplyPolls | HttpServer.c:204-277 | No reply ends a session: the worker polls, and a reported request sends it back to its wait with its flag set and the same connection, unless the timer stood at one |
| ThreadPool.SearchFindsFreeSlot | ThreadPool.c:218-230 | One pass over the ring finds a free slot if and only if there is one |
| ThreadPool.PassedOverComesNearer | ThreadPool.c:220-226 | A free slot that an allocation passes over stays free and gets strictly nearer to E |
| ThreadPool.Pool.constructor | ThreadPool.c:16-54 | A new pool: every slot free and zeroed, E and counter zero |
| ThreadPool.Pool.GetE | ThreadPool.c:211-240 | One pass: the first free slot from E on, E just behind it, the counter incremented; nothing changed when there is none |
| ThreadPool.Pool.DispatchJob | ThreadPool.c:189-199 | The picked slot holds the connection with a full budget, its flag set, marked used; the counter has grown by two in all and no other slot changed |
| ThreadPool.Pool.CloseSlot | ThreadPool.c:94-121 | The slot is free with its budget and flag reset and its old descriptor, the counter one less, nothing else changed |
| KeepAlive.TickLowersMeasure | ThreadPool.c:248-282 | Every poll that does not close lowers 6*request + timer, keeps both in range, and a ready poll closes exactly when the timer stands at one |
| KeepAlive.TimerRunMakesProgress | ThreadPool.c:242-286 | The timer's loop ends within timer + 1 polls, and unless it closes it uses up one request and its share of the budget |
| KeepAlive.TimerRunExactly | ThreadPool.c:242-286 | In terms of the polls: after d idle ones a reported request returns and stores the timer lowered once more, at zero it returns 1 with the timer at 5, and an idle poll at zero returns 0 |
| KeepAlive.ReplyClearsFlag | HttpServer.c:250 | After a reply and a run of the timer the flag is set if and only if the last poll reported a request |
| KeepAlive.EagerSession | ThreadPool.c:270-277 | A client whose every poll reports a request is closed after as many rounds as the timer had left, or with the earlier round in which it is gone or its requests are used up |
| KeepAlive.SessionBounded | HttpServer.c:148-279 | Whatever poll reports and however the rounds end, a connection closes within its budget of polls and one round more than its requests |
| KeepAlive.BudgetIsReached | ThreadPool.c:253-259 | A poll schedule under which a filled slot with r requests lasts exactly its budget, 6*r polls, and r + 1 rounds |
| KeepAlive.FilledSlotLasts | ThreadPool.c:195-196 | The slot that a dispatcher fills lasts at most 6000 polls and 1001 rounds, both are reached, and a client that is always ready gets five polls and five rounds |
| KeepAlive.FreeSlotLasts | ThreadPool.c:96-99 | A worker that returns from its wait with its slot free finds a full budget when the slot was closed before, and closes in the first round when it was never filled |
| KeepAlive.HandleTimer | ThreadPool.c:242-286 | The loop computes the timer's specification in place and touches only its own slot |
| KeepAlive.Round | HttpServer.c:155-279 | One round, for each of its outcomes, is one round of the specified session; it closes the slot or spends one request, and other slots are untouched |
| KeepAlive.HandleClient | HttpServer.c:148-279 | Whatever happens, the rounds end with the slot closed and the rest of the pool unchanged, after exactly the polls and rounds of the specified session |
| PoolGrowth.Server.constructor | HttpServer.c:347-395 | Exactly the first size_pool entries are allocated, each a new pool with slots of its own, and their dispatchers carry their indices |
| PoolGrowth.Server.SetUpDispatcher | ThreadPool.c:144-146 | The second of the two writes of idx_pool stays, and no other dispatcher changes |
| PoolGrowth.Server.HandlePool | ThreadPool.c:128-159 | Doubling keeps the old pools and dispatchers, allocates each index up to the new size once with slots of its own, sets up exactly the new dispatchers, all inside the arrays |
| PoolGrowth.Server.CloseClientWithStatus | ThreadPool.c:94-126 | max_descriptor goes down by one modulo 2^64, the slot is closed, and all other pools are unchanged |
| PoolGrowth.Server.LoopBody | HttpServer.c:83-117 | The accept loop writes the mailbox of the old idx_pool and of no other, grows exactly on its test, ends with s equal to size_pool and idx_pool below it |
| PoolGrowth.GrowthStaysInArrays | HttpServer.c:95-117 | In every run the number of pools is the initial one times two to the number of doublings, at most 32, equal to s, and idx_pool is below it |
| QueryText.QueryLookupExact | HandleDB.c:25-46 | For quote-free stored user agents, one query occurs in another if and only if the user agents are equal |
| QueryText.QueryLookupInGeneral | HandleDB.c:25-46 | For any two user agents, exactly when one query occurs in the other |
| QueryText.EmptySlotNeverMatches | HandleDB.c:34-36 | An empty slot matches no query |
| QueryText.UnmistakableLookup | HandleDB.c:25-46 | For stored user agents in which the end of the pattern does not come back after the first character nor its beginning before the last, one query occurs in another if and only if the user agents are equal |
| QueryText.NeverMistakenExactly | HandleDB.c:25-46 | A stored query is found for its own user agent only, if and only if that user agent is of this kind |
| QueryText.QuotedAgentsCanBeConfused | HandleDB.c:36 | Two different user agents exist of which one, a quote in it, is mistaken for the other |
| QueryCache.IndexWraps | HandleDB.c:79-84 | The wrap of the 64-bit index keeps the order of the slots |
| QueryCache.MissIsNotRecent | HandleDB.c:31-50 | The search misses if and only if the query is not among the last 256 inserted |
| QueryCache.RetrieveRefinesLookup | HandleDB.c:30-139 | One call answers as the database does, inserts exactly when the query is not recent, and keeps contents, spacing and order of the ring |
| QueryCache.CacheRefinesDatabase | HandleDB.c:18-143 | For every sequence of user agents that are never mistaken, quote-free ones included, the cache's answers are the database's, zeros for no row included |
| QueryCache.LookupReadsRow | HandleDB.c:63-67 | A device is given the width, the height and the colours that its row has in columns 3, 2 and 7, and zeros when there is no row |
| QueryCache.AnswersAreRows | HandleDB.c:63-137 | In any sequence of calls, hit or miss, the answer is the width, height and colours of the device's row, or zeros |
| QueryCache.PlainExactly | HandleDB.c:18-143 | After a request for a user agent the next request is answered as by the database, for every table and every user agent, if and only if the first one is never mistaken |
| QueryCache.RingIsFifo | HandleDB.c:102-111 | After any sequence of calls the ring holds the last 256 insertions of a first-in first-out queue with their queries, dimensions and whether there was a row, pairwise different, and equal insertions are more than 256 apart |
| QueryCache.Cache.RetrieveDim | HandleDB.c:18-139 | The loop and the in-place writes compute exactly the specified new ring and dimensions, for every user agent whose query fits its buffer |
| QueryCacheThreads.InvPreserved | HandleDB.c:30-139 | Every step of every thread, single reads and field writes included, keeps: one writer under the mutex, every slot a mixture of its last two insertions as far as the writer has come, and each hit's slot and values those of insertions it can name |
| QueryCacheThreads.SearchTells | HandleDB.c:31-47 | In every reachable state a search misses exactly when the user agent is not among the last 256 inserted, and otherwise tells whether the database has a row |
| QueryCacheThreads.HitReads | HandleDB.c:127-131 | For every interleaving, each value that a hit reads is that dimension of the user agent inserted last in its slot among those that had written it, which is its own if and only if at most (i - k) mod 256 insertions had written that dimension since its search |
| QueryCacheThreads.HitAnswers | HandleDB.c:127-131 | A hit whose three reads fall into that window, in particular one that is over before so many insertions have begun, answers as the database does |
| QueryCacheThreads.ReadDuringInsertion | HandleDB.c:102-111 | A read while an insertion writes its slot gives the new value exactly for the fields written so far, and otherwise that of the insertion before it |
| QueryCacheThreads.OtherPathsRight | HandleDB.c:50-125 | Misses and hits without a row give the database's answer whatever happens meanwhile |
| QueryCacheWindow.LateRead | HandleDB.c:127-131 | For every table and every 257 different user agents of which the first has a row, two threads reach a state in which the first one is answered with the dimensions of the last |
| QueryCacheWindow.TornRead | HandleDB.c:127-131 | Likewise they reach a state in which the first one is answered with its own colours and the width and height of the last |
| QueryCacheWindow.WrongDimensionsAreServed | HandleDB.c:127-131 | From an empty cache a state is reached in which a request got an answer different from the database's |
| QueryCacheWindow.MixedDimensionsAreServed | HandleDB.c:127-131 | From an empty cache a state is reached in which a request got dimensions that no device of the table has |
| ImagePaths.PathLookupIff | Utils.c:301-319 | A path occurs in a stored path if and only if the keys are equal and its extension begins the stored one |
| ImagePaths.PathLookupExact | HttpServer.c:183-186 | With extensions of one length the lookup succeeds if and only if the paths are equal, that is, name, quality, extension and digit tail are |
| ImagePaths.SamePathSameImageExactly | HttpServer.c:183-186 | Two images with one path are the same if and only if the digit counts of their widths and heights agree |
| ImagePaths.ShorterExtensionIsConfused | Utils.c:306 | With a shorter extension a different stored path is found |
| ImageCache.DecodePath | Utils.c:304-311 | Reading the byte map from the start of its i-th string yields the i-th stored path |
| ImageCache.FirstMatchStable | Utils.c:302-315 | A hit stays the first match however many paths are stored after it |
| ImageCache.MapNext | HandleImage.c:121-123 | Writing a path and its terminator at seek_cache appends it to the packed paths |
| ImageCache.RingNext | HandleImage.c:124-126 | Writing the pair at E puts it at the ordinal of the appended path |
| ImageCache.PairsStayExactly | HandleImage.c:124-126 | One more pair leaves all earlier ones at their ordinals if and only if fewer than 128 were stored or it repeats the first one |
| ImageCache.Cache.FindFileInCache | Utils.c:295-321 | The scan of the bytes finds the ordinal of the first stored path that contains the wanted one, and reports absence, with -1, exactly when there is none |
| ImageCache.Cache.GetImageToSend | HandleImage.c:37-133 | A hit returns the pair recorded with the path of that ordinal and changes nothing; a .jpg that can be read under neither spelling is reported as not present and nothing is recorded; any other miss appends path and pair |
| ImageCache.Cache.Record | HandleImage.c:120-127 | Map, seek, ring and ring index after a miss again agree with the stored sequence, one record longer |
| ImageLookup.SearchIsExact | Utils.c:301-319 | Over a map of image paths the substring search finds the first record of exactly the wanted path |
| ImageCacheThreads.InvPreserved | HandleImage.c:119-127 | Every step of every thread up to the wrap keeps: one writer under the mutex, pairs at the ordinals of their paths as far as they were written, each hit on the first record of its path, and no record made after a search that could have found its path |
| ImageCacheThreads.HitReads | HandleImage.c:44-51 | In every interleaving up to the wrap a hit answers with the pair of the first record of exactly its path, each part if it was written before it was read and zero if not; with the whole pair if the record was complete when it was found |
| ImageCacheThreads.MissAnswers | HandleImage.c:119-130 | A miss answers with the pair of the last record, whole and in place when the mutex is released |
| ImageCacheThreads.DuplicatesOverlap | HandleImage.c:54-127 | A path is recorded twice only by overlapping misses: the later record's search was made before the earlier one was stored |
| ImageCacheThreads.UnwrittenPairIsServed | HandleImage.c:120-127 | For every image path, a run in which a search between the storing of the path and of its pair is answered with zeros |
| Decimal.Digits | Strings.c:62-77 | Only digits, no leading zero, and empty exactly for zero |
| Decimal.ValueOfDigits | Strings.c:57-104 | The decimal value of a printed number is the number |
| Decimal.DigitCount | Strings.c:62-66 | A number has at most k digits if and only if it is below 10^k |
| Decimal.ConvertToString | Strings.c:57-104 | The counting loop and the writing loop agree: the cells are written from the last digit down and then the terminator, each once and in bounds, and hold the digits and the terminator |
| Decimal.ParseIntOfPrinted | Utils.c:261-274 | Reading back a printed long gives its low 32 bits: the number itself if and only if it fits an int |
| Numerals.ParseIntOfPrefixed | Utils.c:267 | A number printed in base 8 after 0, or in base 16 after 0x, reads back as its low 32 bits |
| Numerals.ParseIntOfSigned | Utils.c:267 | A minus sign negates, a plus sign and a blank in front do nothing |
| Numerals.ParseIntOfTooLong | Utils.c:266-271 | A number that does not fit a long reads as zero |
| Numerals.ToInt32Is | Utils.c:267 | The conversion yields the int that differs by a multiple of 2^32, the number itself if and only if it fits |
| CacheKey.QualityInjective | Strings.c:216-242 | Qualities in [0.1, 1] have equal texts if and only if they are equal |
| CacheKey.QualityReadsBack | Strings.c:216-242 | The text of a quality, read without its dot, is the quality with eight decimals; above one it reads as one |
| CacheKey.ConvertFloatToString | Strings.c:216-242 | The buffer holds the ten characters of the quality's text and a terminator |
| CacheKey.KeyDeterminesParts | Strings.c:12-44 | For dot-free names and qualities in [0.1, 1], keys are equal if and only if name, quality and digit tail are |
| CacheKey.TailDeterminesDimensions | Strings.c:31-36 | Equal digit tails mean equal dimensions and colours if and only if the digit counts of width and height agree |
| CacheKey.TailReadsBack | Strings.c:31-36 | Read with the digit counts of width and height, the tail gives back width, height and colours in this order |
| CacheKey.KeyReadsBack | Strings.c:12-44 | Read from left to right, a key gives back name, quality, width, height and colours |
| CacheKey.DifferentDimensionsShareKey | Strings.c:31-36 | Two different screens with one key, for every name, quality and number of colours |
| CacheKey.BuildImageNameCache | Strings.c:12-44 | The buffer is exactly large enough and holds the key and its terminator |
| RequestLine.LineRoundTrip | Request.c:120-194 | Parsing a printed request line gives back its name and an extension of at most four bytes; a fifth byte is cut off, and a longer extension leaves its buffer |
| RequestLine.PathWithoutQuery | Request.c:163-171 | After a slash-free method, the empty path is EMPTY_PATH; any other path without "?" is the icon if and only if the line contains "favicon", and not correct otherwise |
| RequestLine.FaviconIsIcon | Request.c:167-168 | A line that asks for /favicon.ico is the icon |
| RequestLine.NameWithoutExtension | Request.c:134-149 | A name without an extension is not correct, up to 128 bytes, and leaves its buffer beyond |
| RequestLine.LongNameOverruns | Request.c:134-151 | A name of 128 bytes or more with an extension leaves its buffer |
| RequestLine.LineWithoutSlash | Request.c:128-192 | A line without a slash is a request for an image with an empty name and extension |
| RequestLine.DecidedAtFirstSlash | Request.c:128-176 | Apart from the favicon test, what stands before the first slash does not matter |
| RequestLine.CommandIsEarliest | Request.c:380-396 | The command is that of the earliest GET or HEAD anywhere in the line, and none exactly when there is neither |
| RequestLine.CommandRoundTrip | Request.c:380-396 | Printed GET and HEAD lines are recognised whatever name follows |
| RequestLine.PostCanBeTakenForGet | Request.c:384-393 | A POST line whose name says GET is taken for GET |
| RequestLine.AgentAfterLine | Request.c:230-231 | The search for the user agent finds the header after the first line if and only if that line does not itself contain the header's name |
| RequestLine.RequestRoundTrip | Request.c:76-118 | A printed request whose line does not contain "User-Agent: " gives back its first line and its user agent |
| RequestLine.GetCommandLine | Request.c:76-118 | The copying loop yields the bytes before the first carriage return |
| RequestLine.GetUserAgent | Request.c:225-252 | The copying loop yields the text after the first "User-Agent: " up to the carriage return |
| RequestLine.ParseCommand | Request.c:380-396 | The loop decides the command of the specification |
| RequestLine.ParseName | Request.c:120-194 | The nested loops and the growing buffer compute the specified outcome for every line, accesses outside a buffer included |
| ResponseHeader.HeaderReadsBack | Strings.c:106-214 | Read back line by line, the 200 and 400 headers are the lines of the source in its order, with an empty line last, and Content-Length is the printed size |
| ResponseHeader.NoHeaderOtherwise | Strings.c:148-178 | Without an image, no header is written if and only if the size is not that of the error page |
| ResponseHeader.LengthFieldExact | Strings.c:136-141 | The field is a decimal number of value size, empty if and only if the size is zero |
| ResponseHeader.HeaderFits | Strings.c:106-214 | Header and terminator fit 512 bytes for every file size |
| ResponseHeader.BuildMessage | Strings.c:106-214 | The bytes written are the header and its terminator, in bounds, and their number is returned |
| Service.ServeExact | HttpServer.c:170-202 | As long as map and ring do not wrap, a request is answered as if the database were asked directly and paths compared for equality, whatever both caches hold, and both invariants are kept |
| Service.SameImageFromThenOn | HandleImage.c:44-51 | Once a request got an image, every later request for the same path gets the same pair, whatever was served before and in between, as long as map and ring have not wrapped by then |
| Service.NotPresentExactly | HandleImage.c:60-75 | "Not present" is the answer if and only if no record of the wanted path is stored and a .jpg can be read under neither spelling |
| Service.PathReadsBack | HttpServer.c:170-186 | The cached path for a device reads back as directory, name, quality, the width, height and colours of the device's row, and extension, in this order |
| Service.WrongSizeIsServed | HttpServer.c:183-195 | A 1 by 23 screen is answered with the image adapted for a 12 by 3 screen, for every quality, number of colours and name whose path fits its buffer |
| Service.PrintedRequestIsRead | Request.c:398-444 | Printing a request as a message and parsing it gives back name, extension and user agent, for every first line that does not contain "User-Agent: " |
| Service.ImageServer.ServeImage | HttpServer.c:170-225 | Query cache, cache name, map scan and descriptor ring together compute the specified reply and the specified new caches; room is needed only for a miss that records |
| Service.ImageServer.HandleRequest | HttpServer.c:167-247 | A message is answered with the image of its parsed request, the icon, or the 400 page, and only the first of these changes the caches; a path without "?" is answered with the icon if and only if it is empty or the line contains "favicon", and with the 400 page otherwise |

## Left out

- Sockets, poll, recv, send, MySQL, ImageMagick, the memory mapping and logging: foreign calls, whose outcomes are inputs where the model needs them.
- Liveness of three waits in which the code can miss a signal: the dispatcher's for its mailbox (ThreadPool.c:179-183), `cb_not_full` (ThreadPool.c:232-236) and the end of the growth (HttpServer.c:105-107). Only safety is claimed there; a pass of `get_E` that finds nothing simply is not a step.
- Interleavings inside the steps listed under the modelling assumptions, and re-use of descriptor numbers by the operating system after a close.
- Interleavings of a search with the single bytes of a path being copied into the map, and of the files behind the descriptors: two misses for one path write the same file.
- Byte-exactness of the send loops under short transfers (Request.c:446-477, Request.c:489-499, Utils.c:349-373).
- `get_list_accept_image` and `get_accept_line`: the quality factor is a parameter, and the image format, which is chosen from it, does not appear.
- The 503 branch of `build_message`, which is never taken, and the HEAD_CMD branch of `handle_client`, because `parse_request` never returns that value.
- The image map after it wraps, or with more than 128 entries, when ordinal and ring index no longer correspond (`ImageCache.PairsStayExactly`): `Unwrapped` and `RoomFor` are explicit conditions.
- Paths of 128 bytes or more, user agents whose query exceeds 127 bytes, qualities below a tenth, messages without a carriage return in their first 512 bytes and user agents not ended within 255 bytes: the code then leaves its buffers.
- The empty user agent: the search then reads an uninitialised buffer (HandleDB.c:25-28).
- Overflow of `counter` in struct pool_t and of the product of num_thread_pool and the number of pools.
- `Config.c`, `Log.c`, `destroy_request`, `destroy_image` and the freeing of memory; rounding of floating-point numbers.
