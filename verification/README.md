# A verified model of the Telegram-backed S3 gateway

The gateway stores S3 objects as documents in a Telegram channel and keeps the bookkeeping in SQLite.
This project models its data path and the bookkeeping behind it in Dafny and proves what they promise.

* **Prefetch reader** (`Prefetch*.dfy`). Workers race for chunk indices through a shared counter and publish into
  one-shot slots; a drainer takes the slots in order, trims them and forwards them through a bounded channel; a consumer
  primes, reads and closes. `PrefetchModel` is the step machine, one event per atomic action of one goroutine.
  `PrefetchReader.Reader` is the same thing as a class whose methods are proved to perform the machine's events.
  `PrefetchInvariant`, `PrefetchTheorems` and `PrefetchProgress` hold what every interleaving guarantees.
* **Chunk maps** (`ChunkMaps`, `Backend`, `BotSource`, `Downloads`, `FileWindows`, `DeleteBatches`, `ByteRanges`,
  `EndToEnd`). How a body is split into messages, found again by binary search, read in aligned windows through a pool of
  bots, and deleted in batches; and that a GET of any range gives back exactly that slice of the body.
* **Ownership** (`Ownership`, `OwnershipProofs`, `Conservation`, `SimpleStore`, `Refinement`, `GatewayReads`, `Handlers`,
  `Multipart`, `Etags`, `LegacyBackfill`). Every request as a step on the metadata tables and the channel, uploads,
  deletions and transactions failing in every way they can. The invariant over whole runs, the exact account of what is
  left behind, the refinement of a store of plain byte strings, and the request handlers as methods of a class whose
  effect is proved to be such a step.
* **Overlapping writes** (`ConcurrentPut`, `ConcurrentLeaks`, `ConcurrentRuns`). All interleavings of the read-old, commit
  and reap steps of PUT, CopyObject and Complete and of the read, delete and drop steps of DELETE; what they leave behind;
  and three runs that go wrong.
* **Listing** (`ByteOrder`, `Listing`, `ListTokens`). One page against the one-shot listing with delimiter rollup, and
  following pages by marker or by continuation token.
* **Wire formats** (`Text`, `TextGrammar`, `ChunkHeaders`, `AwsChunked`, `ChunkedGrammar`, `UriEncoding`, `Base64`,
  `CanonicalQuery`, `Timestamps`) and the **TTL cache** (`TtlCache`). Each format is stated twice, as the code computes it
  and as a grammar over constant texts, and a theorem connects the two for every input.

Nondeterminism of the outside world (what Telegram accepts, which transaction commits, how long a read is, who runs next)
is a parameter of the methods or an event of the step machines, so the theorems hold for all of it.

## Where the code and its comments part ways

The model follows the code. Each of these is a lemma, with the exact condition where there is one.

* `internal/reader/reader.go:50-53` says that slots of capacity one bound the buffered memory by the concurrency. A publish
  never waits (`PublishNeverWaits`), and one worker can buffer a whole object (`OneWorkerBuffersEverything`). The bound
  holds exactly for requests of no more chunks than that (`BufferedBoundedExactly`); what is always bounded is the number
  of fetches in flight (`FetchesBounded`).
* After a cancellation Read can answer EOF early (`EarlyEofAfterCancel`); `EofCompleteExactlyWhen` says when it is complete.
* `internal/reader/bot_source.go:46-60` states a floor of 64 KiB for the prefetch window. `FloorKeptExactlyWhen` gives the
  configured windows for which it holds, `FloorMissed` one for which it does not; in general the floor is 32 KiB
  (`HalvedBounds`).
* A message shorter than recorded ends a chunk read without an error (`internal/reader/bot_source.go:97-102`);
  `BotSource.Chunk` returns the full length exactly when the messages it touches are whole.
* A Delete or Abort whose row drop fails leaves rows that name deleted messages. `InvKeptExactly` gives the exact
  condition, `FailedDropBreaks` an instance, and `RetriedDelete` and `RetriedAbort` show that a retry repairs it.
* A Complete never reaps the parts it did not name; `CleanRunsLeakOnlyUnnamed` shows that nothing else leaks when uploads
  and deletions succeed.
* Two overlapping PUTs of one key can leak the messages of the first (`LostUpdateLeaks`), and a DELETE those of a PUT that
  commits before its drop (`DeleteLeaksLaterWrite`); `LeakExactly` says what leaks.
* The transaction of a Complete does not check that its upload is still there. Two overlapping Completes of one upload can
  lose the object's data (`CompletingTwiceLosesData`); `NextKeeps` gives the exact condition on the commit, and it holds
  whenever no upload is completed by two requests at once (`SingleCompletesNeverClash`).
* Timestamps are compared as text with a trimmed fraction. Within one second that is not time order; `StaleExactly` gives
  the condition and `MissedWithinSecond` an instance.
* A cache lookup that races with a write can miss although the key had a live value all along (`MissDespiteLaterWrite`);
  `MissWrongExactlyWhen` says when.
* `parseByteRange` takes `bytes=-0` and numbers past 2^63-1 for no range at all (`LastBytesMeaning`, `FromToMeaning`).

## Model

| member | source | states |
|---|---|---|
| `PrefetchModel.MakeConfig` | internal/reader/reader.go:79-95 | `New` keeps every argument that is in range, makes a range that would run backwards empty, and defaults the window to 1 MiB, the concurrency and the buffer count to 1 |
| `PrefetchReader.Reader.New` | internal/reader/reader.go:79-143 | a new reader is the initial state of the step machine for its (defaulted) arguments, and satisfies the invariant |
| `PrefetchReader.Reader.ClaimIndex` | internal/reader/reader.go:145-151 | taking an index from the shared counter is the Claim event: an index past the last chunk ends the worker |
| `PrefetchReader.Reader.CheckContext` | internal/reader/reader.go:152-161 | the look at the context before a fetch is the Check event: after a cancellation the worker fills its slot if it is free and exits |
| `PrefetchReader.Reader.FetchChunk` | internal/reader/reader.go:162-172 | the return of the source is the Fetch event: full data, an error, or an abort |
| `PrefetchReader.Reader.PublishChunk` | internal/reader/reader.go:173-177 | handing the buffer to the slot is the Publish event |
| `PrefetchReader.Reader.TrimChunk` | internal/reader/reader.go:200-220 | the two-sided cut of a chunk to the requested range |
| `PrefetchReader.Reader.DrainTake` | internal/reader/reader.go:184-220 | receiving the next slot and cutting it is the Take event |
| `PrefetchReader.Reader.DrainSend` | internal/reader/reader.go:191-225 | forwarding a buffer is the Send event; an error buffer ends the drainer |
| `PrefetchReader.Reader.DrainStop` | internal/reader/reader.go:181-189 | the end of the drain loop, or its exit on a cancellation, closes the delivery channel |
| `PrefetchReader.Reader.Prime` | internal/reader/reader.go:229-251 | Prime is the Prime event and answers what the machine says: the first chunk is staged, or its error or EOF is returned |
| `PrefetchReader.Reader.Stage` | internal/reader/reader.go:260-276 | the loop inside Read stages the next buffer with something left, or ends as the recursive definition of the loop does |
| `PrefetchReader.Reader.Read` | internal/reader/reader.go:253-281 | Read is the Read event, whatever the buffer size, and answers what the machine says |
| `PrefetchReader.Reader.Close` | internal/reader/reader.go:283-302 | Close cancels the workers and starts the discarding of buffered chunks |
| `PrefetchReader.Cursor.Advance` | internal/reader/buffer.go:12-21 | advancing the cursor drops exactly that many of the remaining bytes, and no more than there are |
| `PrefetchGeometry.ChunksCover` | internal/reader/reader.go:115-125 | the aligned chunks cover the requested range: the first contains its start, the last its last byte, and none lies outside |
| `PrefetchGeometry.TrimFull` | internal/reader/reader.go:200-220 | the drainer leaves of a full chunk exactly its intersection with the requested range |
| `PrefetchGeometry.SliceGrows` | internal/reader/reader.go:200-220 | the trims of consecutive chunks join without gap or overlap |
| `PrefetchInvariant.EventKeeps` | internal/reader/reader.go:131-302 | every event of every goroutine keeps the invariant: each index in one place, slots and channel holding the right bytes, delivered bytes followed by staged and queued ones being the slice forwarded so far |
| `PrefetchInvariant.RunKeeps` | internal/reader/reader.go:131-302 | hence every interleaving keeps it |
| `PrefetchInvariant.ReadLoopMeaning` | internal/reader/reader.go:260-281 | a Read returns at most as many bytes as asked for, waits only on an open empty channel, and surfaces an error exactly when it is next |
| `PrefetchInvariant.ReadLoopConserves` | internal/reader/reader.go:260-281 | a Read neither drops nor reorders a byte of what is staged and queued |
| `PrefetchTheorems.DeliveredInOrder` | internal/reader/reader.go:127-130 | in every interleaving the delivered bytes are a prefix of the requested slice |
| `PrefetchTheorems.EofIsComplete` | internal/reader/reader.go:261-266 | in an uncancelled run EOF is answered only when the whole slice has been delivered |
| `PrefetchTheorems.EofCompleteExactlyWhen` | internal/reader/reader.go:186-189 | in any run EOF comes after the whole slice exactly when no requested byte lies past the chunks forwarded |
| `PrefetchTheorems.EarlyEofAfterCancel` | internal/reader/reader.go:186-189 | a cancellation can make Read answer EOF before the first byte of any nonempty range |
| `PrefetchTheorems.CancellationSurfaces` | internal/reader/reader.go:152-161 | a request cancelled before its first fetch can also answer the cancellation, as the worker still fills its slot |
| `PrefetchTheorems.LowestFailureSurfaces` | internal/reader/reader.go:191-199 | in an uncancelled run the error Read returns is that of the lowest failing chunk, after exactly the bytes of the chunks before it, and it is what every Read answers from then on |
| `PrefetchTheorems.FailureIsNotEof` | internal/reader/reader.go:191-199 | in an uncancelled run no Read answers EOF once a chunk has failed |
| `PrefetchTheorems.ErrorIsSticky` | internal/reader/reader.go:256-259 | after a Read that answered an error or EOF, every later Read gives the same answer and no byte, whatever the other goroutines, Close or a cancellation do in between |
| `PrefetchTheorems.PrimeFailureIsSticky` | internal/reader/reader.go:229-251 | an error Prime returned is what every later Read answers |
| `PrefetchTheorems.FirstFailureStopsPrime` | internal/reader/reader.go:229-251 | when chunk 0 fails, Prime returns its error or still waits, nothing has been delivered, and the error it returned is what every later Read answers |
| `PrefetchTheorems.LaterClaimsDiffer` | internal/reader/reader.go:147-151 | the counter hands out every index at most once |
| `PrefetchTheorems.FetchesBounded` | internal/reader/reader.go:127-138 | fetches in flight never exceed the concurrency or the number of chunks, and no two are of the same chunk |
| `PrefetchProgress.FetchesReachBound` | internal/reader/reader.go:131-138 | and that bound is met: as many fetches can be in flight at once as the concurrency and the number of chunks allow |
| `PrefetchTheorems.PublishNeverWaits` | internal/reader/reader.go:173-177 | a worker that publishes always finds its slot empty |
| `PrefetchProgress.StepMeasure` | internal/reader/reader.go:145-227 | every goroutine step lowers a measure and no call of the consumer raises it |
| `PrefetchProgress.StepsAreBounded` | internal/reader/reader.go:145-227 | no interleaving contains more goroutine steps than the measure at its start |
| `PrefetchProgress.WholeRunIsLinear` | internal/reader/reader.go:145-227 | a whole read costs at most nine goroutine steps per chunk and one more, however it is interleaved |
| `PrefetchProgress.NoDeadlock` | internal/reader/reader.go:181-281 | in every reachable uncancelled state some goroutine can move, or the next Read is answered, or that Read lets a goroutine move |
| `PrefetchProgress.ReadingEnds` | internal/reader/reader.go:181-281 | the steps of the goroutines and the Reads that are answered, interleaved in any way, are no more than a bound computed at the start |
| `PrefetchProgress.ReadingGoesOn` | internal/reader/reader.go:181-281 | and until EOF or the failure has been answered, such a step is always possible |
| `PrefetchProgress.ReadingCompletes` | internal/reader/reader.go:181-281 | every reachable uncancelled reader can be read to EOF or its failure within that bound |
| `PrefetchProgress.CancelledRunsFinish` | internal/reader/reader.go:285-302 | after Close or a cancellation all workers and the drainer can go on to exit |
| `PrefetchProgress.StuckMeansQuiet` | internal/reader/reader.go:285-302 | after a cancellation the goroutines cannot get stuck before all of them have exited |
| `PrefetchProgress.OneWorkerBuffersEverything` | internal/reader/reader.go:50-53 | with any concurrency one worker alone can fill the slots of a whole request before anything is read |
| `PrefetchProgress.BufferedBoundedExactly` | internal/reader/reader.go:50-53 | the buffered chunks stay within the concurrency in every reachable state exactly when the request has no more chunks than that |
| `Backend.Pool.Pick` | internal/storage/telegram/mtproto/client.go:381-393 | a pick takes the counter of its kind modulo the pool size and advances only that counter |
| `Backend.Pool.At` | internal/storage/telegram/mtproto/client.go:395-404 | exactly the indices of the pool have a bot, and it is the one with that index |
| `Backend.PicksSpread` | internal/storage/telegram/mtproto/client.go:381-393 | any pool-size picks in a row reach every bot exactly once |
| `Backend.Storage.SendDocument` | internal/storage/telegram/mtproto/upload.go:64-146 | a document is accepted exactly when it is confirmed at full size: sent, its id known, and read back as a document of that size; otherwise at most one new message is left behind |
| `Backend.Storage.Upload` | internal/storage/telegram/mtproto/upload.go:16-56 | a successful upload tiles the body with full-size messages and a shorter last one that hold exactly its bytes, each recorded under the bot whose turn it was; it fails only over the body or a document that was not confirmed; without delete faults a failed one leaves the channel as it was, but for at most the document that was not confirmed |
| `Backend.Storage.Cleanup` | internal/storage/telegram/mtproto/upload.go:188-206 | the cleanup of a failed upload touches only messages that upload sent, and removes all of them when no delete call fails |
| `Backend.Storage.GroupByBot` | internal/storage/telegram/mtproto/delete.go:32-53 | each bot gets exactly the references routed to it, in order: its own and the strays picked for it |
| `Backend.Storage.DeleteForBot` | internal/storage/telegram/mtproto/delete.go:69-93 | the ids of one bot are sent in order in windows of at most 100, in no more calls than that takes, and what the server took is gone |
| `Backend.Storage.DeleteBatch` | internal/storage/telegram/mtproto/delete.go:22-67 | every call goes to a bot of the pool within the size limit and covers the references; the result says whether all calls were taken |
| `DeleteBatches.EveryRefOnce` | internal/storage/telegram/mtproto/delete.go:28-93 | over all bots and windows every reference is sent exactly once |
| `DeleteBatches.CoversRemoves` | internal/storage/telegram/mtproto/delete.go:28-93 | a batch removes nothing but its references, and all of them when no call fails |
| `DeleteBatches.SentToOwnBot` | internal/storage/telegram/mtproto/delete.go:36-45 | a reference whose bot is in the pool is sent to that bot |
| `DeleteBatches.StraysTakeTurns` | internal/storage/telegram/mtproto/delete.go:36-45 | and one whose bot is not is sent to the bot whose turn it is, each such reference taking one turn |
| `ChunkMaps.ContentAt` | internal/metadata/store.go:463-486 | in a chunk map each recorded place in the object holds exactly that message's bytes |
| `ChunkMaps.ContentFrame` | internal/metadata/store.go:463-486 | an object depends on no message its chunk map does not name |
| `FileWindows.FetchRange` | internal/storage/telegram/mtproto/download.go:122-183 | reads of windows that start at consecutive multiples of 1 MiB, with head and tail trims, give exactly the requested bytes that the file has |
| `BotSource.Search` | internal/reader/bot_source.go:110-113 | the binary search finds the first chunk that starts past the offset |
| `BotSource.Locate` | internal/reader/bot_source.go:107-122 | an offset is located exactly when it lies in the object, in the chunk that contains it |
| `BotSource.ReadMessage` | internal/reader/bot_source.go:77-102 | one turn of the loop reads through the pool what the message at the cursor has, up to its end or the end of the request |
| `BotSource.Chunk` | internal/reader/bot_source.go:62-105 | over whole messages a read across any boundaries is exactly that part of the object; it has full length exactly when every message it touches is whole there; it fails only over a message it gets to that some bot may fail on, and always over one that is gone or that no bot it may ask can read |
| `BotSource.ChunkSize` | internal/reader/bot_source.go:50-60 | the loop computes the repeatedly halved window, 4 MiB when none is configured |
| `BotSource.HalvedExactly` | internal/reader/bot_source.go:50-60 | the halved window is the configured one divided by the least power of two that brings it to twice the range or to 64 KiB |
| `BotSource.HalvedBounds` | internal/reader/bot_source.go:46-60 | the window is positive, never more than configured, at least the smaller of it and 32 KiB, and at most twice the range or 64 KiB |
| `BotSource.FloorKeptExactlyWhen` | internal/reader/bot_source.go:46-60 | windows of at least 64 KiB stay so for every range exactly when they lie just above 64 KiB times a power of two |
| `BotSource.FloorMissed` | internal/reader/bot_source.go:46-60 | a configured window of 96 KiB and a range of one byte give 48 KiB |
| `Downloads.Downloader.ResolveLocation` | internal/storage/telegram/mtproto/download.go:185-201 | a live cached location is used, otherwise the server is asked and the answer cached |
| `Downloads.Downloader.FetchRange` | internal/storage/telegram/mtproto/download.go:132-183 | a stale file reference is refused, otherwise the bot reads the range or fails as it does |
| `Downloads.Downloader.DownloadViaBot` | internal/storage/telegram/mtproto/download.go:89-120 | whatever the cache holds, stale locations included, one bot answers as it would with an empty cache |
| `Downloads.Downloader.DownloadRange` | internal/storage/telegram/mtproto/download.go:41-87 | the row's own bot, or a picked one, is asked first and the others in order until one reads it or is found banned |
| `Downloads.EveryBotOnce` | internal/storage/telegram/mtproto/download.go:65-85 | the order asks every bot of the pool exactly once, the first one first and the others by index |
| `Downloads.ReadsExactlyWhen` | internal/storage/telegram/mtproto/download.go:58-86 | a read succeeds exactly when the message is there and some bot works before a banned one is asked, and then gives the range |
| `Downloads.FailsAs` | internal/storage/telegram/mtproto/download.go:58-86 | a failed read names the missing membership exactly when a banned bot was asked before one that could read the message |
| `Downloads.ReachableMeans` | internal/storage/telegram/mtproto/download.go:58-86 | whether the bots that are asked in turn read a message depends only on the first one and on the first that is up |
| `Downloads.OwnBotDecides` | internal/storage/telegram/mtproto/download.go:41-63 | for a row whose bot is in the pool, a read may fail exactly when it must: the message is gone, or that bot is banned, or it is down and the first bot that is up is banned |
| `ByteRanges.RangeInside` | internal/s3api/handler.go:515-570 | a resolved range is nonempty and inside the object |
| `ByteRanges.FromToMeaning` | internal/s3api/handler.go:553-569 | `bytes=first-last` selects the existing positions between them, 416 when there is none, no range when malformed or past 2^63-1 |
| `ByteRanges.FromMeaning` | internal/s3api/handler.go:553-569 | `bytes=first-` selects everything from there on |
| `ByteRanges.LastBytesMeaning` | internal/s3api/handler.go:539-551 | `bytes=-n` selects the last n bytes or the whole object; n of 0 is no range |
| `ByteRanges.ResolvesExactly` | internal/s3api/handler.go:515-570 | for any header text: which texts are a range of either of the three forms, white space and signs included, what each selects, when it is unsatisfiable, and that everything else is no range |
| `EndToEnd.PlanRead` | internal/s3api/handler.go:435-458 | a plan lies inside the object; cut out of any body of that size it is the requested range, or the whole body without one |
| `EndToEnd.PlanGet` | internal/s3api/handler.go:367-433 | a GET is answered 416 exactly for an allowed, unsatisfiable range, in part exactly for an allowed satisfiable one, and in full otherwise; the reader is opened over the slice of the object that was asked for, and its length is announced |
| `EndToEnd.FetchWindow` | internal/reader/bot_source.go:66-105 | over whole messages the source returns for each window exactly the full chunk the reader machine assumes, and fails only over a message some bot may fail on |
| `EndToEnd.WantedIsRequested` | internal/s3api/handler.go:441-458 | what a reader opened over the answer of `PlanGet` is to deliver is the requested slice of the body |
| `EndToEnd.DeliversRequestedPrefix` | internal/s3api/handler.go:367-433 | for any body, chunk size and Range header, in every interleaving, a reader opened over the answer of `PlanGet` has delivered a prefix of the requested slice of the uploaded body |
| `EndToEnd.EofDeliversRequested` | internal/s3api/handler.go:367-433 | and when it ends, exactly that slice, of the announced length |
| `EndToEnd.FailureDeliversPrefix` | internal/s3api/handler.go:498-513 | an interrupted GET has delivered the slice up to the lowest failing chunk, and every later Read answers its error |
| `Etags.HexRoundTrip` | internal/s3api/multipart.go:190-195 | decoding the hexadecimal tag of a part gives back its digest |
| `Etags.HexEncodeAt` | internal/s3api/multipart.go:124-124 | the tag of a digest is its bytes in order, each as two digits of `0123456789abcdef` |
| `Etags.DecodesExactly` | internal/s3api/multipart.go:190-195 | a text decodes to a digest exactly when it spells it, two hexadecimal digits of either case to a byte |
| `Etags.MatchesExactly` | internal/s3api/multipart.go:181-184 | a tag sent matches a stored one exactly when, within any quotes, it spells the same digest in either case |
| `Etags.QuotedMatches` | internal/s3api/multipart.go:181-184 | the tag handed out for a digest, quoted or bare, matches the stored tag of a digest exactly when the two are the same |
| `Etags.UpperMatches` | internal/s3api/multipart.go:181-184 | so does its upper-case form |
| `Multipart.AppendPart` | internal/s3api/multipart.go:202-209 | the chunks of a part are appended with consecutive numbers and contiguous offsets |
| `Multipart.Assemble` | internal/s3api/multipart.go:144-211 | Complete accepts exactly the nonempty requests without a fault and otherwise reports the first fault; accepted, it gathers the named parts' chunks, digests and total size |
| `Multipart.PartsAscend` | internal/s3api/multipart.go:174-180 | in an accepted request part numbers ascend strictly from 1, so no part is used twice |
| `Multipart.PartsQualify` | internal/s3api/multipart.go:181-194 | every named part is stored under a matching tag, and all but the last have at least 5 MiB |
| `Multipart.FaultMeans` | internal/s3api/multipart.go:174-195 | which answer a named part gets: out of order, not stored under that digest, or too small and not the last |
| `Multipart.CorruptMeans` | internal/s3api/multipart.go:190-194 | a stored tag that spells no digest is reported as corrupt, when the part has no fault before that |
| `Multipart.AnotherIsInvalid` | internal/s3api/multipart.go:181-184 | a part named by another digest's tag is a fault, and InvalidPart unless it is out of order |
| `Multipart.DigestsInOrder` | internal/s3api/multipart.go:190-195 | the string hashed for the object's tag is the parts' digests in the order named |
| `Multipart.GatherContent` | internal/s3api/multipart.go:197-209 | the gathered chunks hold the named parts' contents in the order named |
| `Multipart.AcceptedObject` | internal/s3api/multipart.go:166-211 | an accepted Complete yields chunks numbered from 0 that tile the object from 0 to its size and hold the named parts in order |
| `OwnershipProofs.PutRowKeeps` | internal/s3api/handler.go:243-286 | a PUT or copy keeps the ownership invariant whether the upload fails, it is refused and cleaned up, or committed and the old version reaped |
| `OwnershipProofs.PutPartRowKeeps` | internal/s3api/multipart.go:105-138 | so does the upload or re-upload of a part |
| `OwnershipProofs.CompleteKeeps` | internal/s3api/multipart.go:217-231 | so does an accepted Complete, which moves part messages into the object |
| `OwnershipProofs.AbortKeeps` | internal/s3api/multipart.go:255-266 | so does an abort whose row drop commits |
| `OwnershipProofs.DeleteKeeps` | internal/s3api/handler.go:629-651 | so does a delete whose row drop commits |
| `OwnershipProofs.CreateKeeps` | internal/s3api/multipart.go:38-70 | so does the start of a multipart upload |
| `OwnershipProofs.StepKeeps` | internal/metadata/store.go:380-406 | every operation keeps it: each referenced message is live with its recorded size and in one row only, and every object's chunks tile it |
| `Conservation.RunKeeps` | internal/metadata/store.go:380-406 | hence every serial run, failures included, as long as row drops commit |
| `Conservation.InvKeptExactly` | internal/s3api/handler.go:641-651 | an operation breaks the invariant exactly when its row drop fails after it deleted some message the rows name |
| `Conservation.FailedDropBreaks` | internal/s3api/handler.go:641-651 | a reachable instance: one PUT, and a DELETE of it whose row drop fails |
| `Conservation.RetriedDelete` | internal/s3api/handler.go:622-651 | a delete repeated until its row drop commits ends where a single successful one would |
| `Conservation.RetriedAbort` | internal/s3api/multipart.go:252-266 | so does an abort |
| `Conservation.StepAccounted` | internal/s3api/multipart.go:196-231 | exactly the messages in `Trash` become live but unreferenced in each operation |
| `Conservation.RunAccounted` | internal/metadata/store.go:804-830 | over every run the live messages are the referenced ones and exactly what the run left behind, and the two are disjoint |
| `Conservation.CleanTrash` | internal/metadata/store.go:935-949 | when uploads and deletions succeed, a run leaves behind exactly the messages of parts that accepted Completes did not name |
| `Conservation.CleanRunsLeakOnlyUnnamed` | internal/metadata/store.go:935-949 | from empty, in such a run the live messages are the referenced ones and exactly those |
| `Refinement.AcceptsExactly` | internal/s3api/multipart.go:166-211 | the handler's part-by-part checks accept exactly the requests that name stored, matching, ascending parts of which all but the last have 5 MiB |
| `Refinement.CompleteRefines` | internal/s3api/multipart.go:196-231 | an accepted Complete makes the object the concatenation of the named parts and ends the upload |
| `Refinement.StepRefines` | internal/s3api/handler.go:213-286 | every operation, failures included, does to keys and part numbers what its request does to a store of plain byte strings |
| `Refinement.RunRefines` | internal/s3api/handler.go:213-286 | over whole runs the gateway refines that store: writes that fail change nothing a client can read, and other keys are untouched |
| `GatewayReads.HoldsWhatTheStoreHolds` | internal/s3api/handler.go:367-380 | after any run a key exists exactly when the plain store has it, with the same bytes and size |
| `GatewayReads.GetDelivers` | internal/s3api/handler.go:367-433 | after any run, in every interleaving of the reader, a GET of any range has delivered a prefix of that range of what the plain store holds |
| `GatewayReads.GetCompletes` | internal/s3api/handler.go:367-433 | and when the uncancelled reader answers EOF, exactly that range |
| `Handlers.Handler.Reap` | internal/s3api/handler.go:288-300 | a batch deletion removes nothing but the given messages, and all of them when no call fails |
| `Handlers.Handler.Send` | internal/s3api/handler.go:237-251 | an upload that succeeds leaves new messages that tile and hold the body; one that fails leaves only new messages, and fails over the body or over a document |
| `Handlers.Handler.Discard` | internal/s3api/handler.go:353-365 | the cleanup of a rejected write deletes only its own messages |
| `Handlers.Handler.StoreObject` | internal/s3api/handler.go:269-282 | writing the row and reaping the old version is the committed write, a failed transaction the refused one |
| `Handlers.Handler.StorePart` | internal/s3api/multipart.go:124-138 | the same for a part row |
| `Handlers.Handler.PutObject` | internal/s3api/handler.go:213-286 | PUT is a Put step: committed exactly when it reports success, with the body as content, and without effect on the rows otherwise; when nothing outside fails it succeeds exactly when no length is announced or the right one is, another number is answered IncompleteBody and what is no length InvalidArgument |
| `Handlers.SizeChecked` | internal/s3api/handler.go:310-333 | what the check of the announced length answers, by the grammar of decimal numbers |
| `Handlers.AnnouncedLength` | internal/s3api/handler.go:310-333 | the decimal text of a number up to 2^63-1 announces that length |
| `Handlers.Handler.PutChunkedObject` | internal/s3api/handler.go:237-262 | PUT of a chunked body stores exactly the concatenated chunks of a body that is framed as the grammar says, for a client's frames their payload; framing that does not end well, or has a malformed header line, is never stored and is answered IncompleteBody when no document failed, a broken connection UploadFailed |
| `Handlers.Handler.CopyObject` | internal/s3api/copy.go:51-117 | CopyObject is a Copy step of the source's bytes, refused without effect when the source is missing; it never succeeds over a source that has lost a message, and does when nothing outside fails over a whole one |
| `Handlers.Handler.CreateMultipartUpload` | internal/s3api/multipart.go:38-70 | starting an upload adds an empty upload under a new id |
| `Handlers.Handler.UploadPart` | internal/s3api/multipart.go:89-142 | UploadPart is a part step for a valid number and an upload of that bucket and key, and has no effect otherwise; the announced length decides as for PUT, and a malformed body is answered IncompleteBody |
| `Handlers.Handler.UploadPartCopy` | internal/s3api/copy.go:119-177 | UploadPartCopy is a part step of exactly the slice of the source that the range asks for, or of all of it; which reply refuses a missing upload, source or range; it never succeeds when a message the slice touches is gone, and does when nothing outside fails and none is |
| `Handlers.Handler.CompleteMultipartUpload` | internal/s3api/multipart.go:144-239 | Complete is a Complete step that succeeds exactly when the request is acceptable and the transaction commits; every rejection leaves tables and channel unchanged and names the first fault; naming a stored part by another digest's tag is refused, as InvalidPart when nothing before it is at fault |
| `Handlers.Handler.AllChunks` | internal/metadata/store.go:781-800 | all part messages of the upload are collected |
| `Handlers.Handler.AbortUpload` | internal/s3api/multipart.go:252-266 | the abort core is an Abort step, or nothing when the chunks cannot be read |
| `Handlers.Handler.AbortMultipartUpload` | internal/s3api/multipart.go:241-250 | the abort request resolves the upload first |
| `Handlers.Handler.SweepStale` | internal/s3api/janitor.go:33-51 | a sweep is a run of Abort steps, one for each stale upload whose chunks could be read |
| `Handlers.Handler.DeleteOneObject` | internal/s3api/handler.go:622-651 | a delete is a Delete step; a missing object is no error and changes nothing |
| `Handlers.Handler.DeleteObjects` | internal/s3api/deleteobjects.go:14-38 | a bulk delete of 1 to 1000 keys is a run of Delete steps; every key is reported once, as deleted unless the reply is quiet, and none that is not reported as failed is there afterwards |
| `LegacyBackfill.BackfillLegacyChunks` | internal/metadata/store.go:278-332 | the migration fills in exactly the rows that need it, or nothing when it does not commit |
| `LegacyBackfill.MigrationEstablishesInv` | internal/metadata/store.go:278-332 | after the migration every object obeys the ownership invariant, whichever layout it had and whatever multipart uploads are under way |
| `LegacyBackfill.RestartKeeps` | internal/metadata/store.go:245-332 | opening the store again, in the middle of uploads too, changes nothing |
| `LegacyBackfill.MigrationIsIdempotent` | internal/metadata/store.go:281-282 | running it again changes nothing |
| `ConcurrentPut.NextKeeps` | internal/s3api/handler.go:269-282 | a step of overlapping PUT, copy, Complete and DELETE requests keeps the invariant exactly when it is not a commit of a message that some request has already read in order to delete it |
| `ConcurrentPut.RowsStayLive` | internal/s3api/handler.go:629-651 | in every interleaving without such a commit, a message of a row is live unless a DELETE of that key was given it and has not deleted the row |
| `ConcurrentPut.NoReapHurts` | internal/s3api/copy.go:101-111 | in every interleaving without such a commit, no reap and no cleanup deletes a message a committed row references, and a DELETE none that another key's row references |
| `ConcurrentPut.WritesNeverClash` | internal/s3api/handler.go:269-282 | a commit of a PUT or copy is never such a commit |
| `ConcurrentPut.FirstCompleteNeverClashes` | internal/s3api/multipart.go:217-231 | nor is that of a Complete whose messages no row has had |
| `ConcurrentPut.SingleCompletesNeverClash` | internal/metadata/store.go:804-830 | so no run has one in which no upload is completed by two requests at once, whatever else overlaps |
| `ConcurrentPut.WritesStayLive` | internal/s3api/handler.go:269-282 | hence without DELETE every message of every row is live in every such interleaving |
| `ConcurrentLeaks.LeakExactly` | internal/s3api/handler.go:269-282 | when all requests are done and deletions succeed, what is live is what part rows and object rows reference and exactly the once-current messages that no request read and reaped; if every DELETE dropped its row, no row dangles |
| `ConcurrentLeaks.CommitLeaks` | internal/s3api/handler.go:269-276 | a commit leaks what it supersedes without having read it and rescues what it read or writes again |
| `ConcurrentLeaks.DropLeaks` | internal/s3api/handler.go:629-651 | a DELETE leaks exactly what was written into the row since it read it |
| `ConcurrentLeaks.NoLeakIfCurrent` | internal/s3api/handler.go:269-276 | nothing leaks when each commit replaces, and each drop removes, the row its request had read |
| `ConcurrentRuns.LostUpdateLeaks` | internal/s3api/handler.go:269-282 | two PUTs that both read before either commits leak the first one's messages |
| `ConcurrentRuns.DeleteLeaksLaterWrite` | internal/s3api/handler.go:629-651 | a PUT that commits between a DELETE's read and its drop loses its row and leaks its messages |
| `ConcurrentRuns.CompletingTwiceLosesData` | internal/s3api/multipart.go:217-231 | of two overlapping Completes of one upload the second can delete the messages of the row it has just written |
| `ByteOrder.PrefixUpperBound` | internal/metadata/store.go:611-624 | the backward scan gives the upper bound, empty exactly for prefixes of 0xFF bytes |
| `ByteOrder.RangeIsPrefix` | internal/metadata/store.go:549-556 | the range scan selects exactly the keys that start with the prefix |
| `ByteOrder.UpperBoundLeast` | internal/metadata/store.go:611-614 | the bound is the least key above every key with the prefix |
| `ByteOrder.LessExactly` | internal/metadata/store.go:549-556 | a key is below another exactly when it ends, or has the smaller byte, where the two first part |
| `Listing.CommonMeans` | internal/metadata/store.go:577-591 | a key starts with its common prefix and every key that starts with that prefix rolls up to it, for delimiters of any length |
| `Listing.ItemExactly` | internal/metadata/store.go:577-591 | a key rolls up to itself cut off behind the first delimiter that follows the prefix, and is listed on its own when there is none |
| `Listing.CommonIsContiguous` | internal/metadata/store.go:577-591 | keys of one common prefix are contiguous in byte order |
| `Listing.MaxKeysOrDefault` | internal/s3api/handler.go:1055-1060 | a page size from 1 to 1000 is kept, every other becomes 1000 |
| `Listing.ListObjectsPage` | internal/metadata/store.go:532-609 | the scan returns exactly the page: as many first items of the one-shot listing as fit, whether more remain, and the last key consumed |
| `Listing.PageAdvances` | internal/metadata/store.go:524-530 | a page is truncated exactly when a result remains beyond it; it is then full, and the next page starts exactly behind the rows consumed, strictly further on |
| `Listing.PagesConcatenate` | internal/s3api/handler.go:664-743 | following the resume key page by page ends and gives exactly the one-shot listing, nothing skipped or repeated |
| `Listing.ListedObjects` | internal/metadata/store.go:577-603 | a key is listed on its own exactly when it is in the table, behind the start key, starts with the prefix, and no delimiter follows the prefix |
| `Listing.ListedCommons` | internal/metadata/store.go:577-596 | a common prefix is listed exactly when some such key, cut off behind the first delimiter that follows the prefix, is it |
| `Listing.ListingAscends` | internal/metadata/store.go:557-609 | both lists are strictly ascending in byte order |
| `Base64.TokenBack` | internal/s3api/handler.go:745-758 | a continuation token decodes to the key it was made from, and is empty only for the empty key |
| `Base64.EncodesExactly` | internal/s3api/handler.go:745-758 | a token is the base64 text of its key by the table and the 24-bit groups of sections 3.3 and 4 of RFC 4648 |
| `Base64.DecodesPlain` | internal/s3api/handler.go:745-758 | which texts without line ends decode, and to what, by the same table; bits that belong to no byte are ignored |
| `Base64.SkipsLineEnd` | internal/s3api/handler.go:745-758 | a line end anywhere in a token changes nothing |
| `ListTokens.ListObjects` | internal/s3api/handler.go:657-743 | a request of either version returns the page behind its marker, token or start key, with the clamped size and what to send next; only a malformed token is refused |
| `ListTokens.NextResumes` | internal/s3api/handler.go:664-680 | what the reply tells a client to send next resumes exactly behind the last key consumed |
| `ListTokens.RepliesListAll` | internal/s3api/handler.go:657-743 | repeating either version of the request until nothing is left lists exactly the one-shot listing |
| `AwsChunked.Reader.ReadLine` | internal/s3api/chunked.go:95-110 | a header line is read up to its line feed, which has to be within the buffer |
| `AwsChunked.Reader.ReadChunkSize` | internal/s3api/chunked.go:79-93 | a header line of the grammar gives the size it declares and is consumed, any other line is InvalidSize, and one that does not end within 4096 bytes HeaderTooLong or TruncatedHeader |
| `AwsChunked.Reader.ConsumeCrlf` | internal/s3api/chunked.go:112-124 | exactly CR LF ends a chunk |
| `AwsChunked.Reader.NextChunk` | internal/s3api/chunked.go:51-65 | between chunks the next header is entered, or the end or the fault found there is answered |
| `AwsChunked.Reader.ReadData` | internal/s3api/chunked.go:66-76 | inside a chunk a read takes what the buffer and the layer below allow, and its terminator once it is complete |
| `AwsChunked.Reader.Read` | internal/s3api/chunked.go:47-77 | a read without an error takes its bytes off the front of what decoding the whole body gives; the first error comes with all that is left, and is the decoder's unless the end of the body comes with its last bytes, when a missing terminator is reported as a truncated chunk; EOF is permanent |
| `AwsChunked.CountingReader.Read` | internal/s3api/chunked.go:126-138 | the count is the number of bytes read through it |
| `AwsChunked.ReadAll` | internal/s3api/chunked.go:47-77 | for any buffer sizes and short reads the output is that of decoding the whole body at once, and so is the error up to that one difference; enough nonempty reads reach the end |
| `AwsChunked.EncodeReadBack` | internal/s3api/chunked.go:30-36 | for any nonempty chunks, extensions that fit the header buffer and any trailer, de-framing gives back the chunks' bytes and ends cleanly before the trailer |
| `ChunkedGrammar.EndsCleanlyExactly` | internal/s3api/chunked.go:47-62 | the reader ends cleanly exactly when what it consumed is a body of the grammar: header lines that fit the buffer, chunks of the size each declares, each followed by CRLF, up to a zero chunk |
| `ChunkHeaders.HeaderExactly` | internal/s3api/chunked.go:79-93 | a header line declares a size exactly when it is optional white space, an optional sign, hexadecimal digits of that value below 2^63, optional white space, and nothing or a semicolon and anything; every other line is InvalidSize |
| `ChunkedGrammar.BodyRead` | internal/s3api/chunked.go:47-77 | a body of the grammar, whatever follows it, is read as the concatenation of its chunks |
| `ChunkedGrammar.BadHeaderRefused` | internal/s3api/chunked.go:79-93 | behind any chunks, a line that declares no size ends the reading in InvalidSize, with the bytes of those chunks |
| `ChunkedGrammar.OpenHeaderRefused` | internal/s3api/chunked.go:95-110 | behind any chunks, a header line that has no line feed within the buffer ends it in HeaderTooLong or TruncatedHeader |
| `ChunkedGrammar.ShortChunkRefused` | internal/s3api/chunked.go:66-76 | a last chunk that is shorter than declared ends it in TruncatedBody, with the bytes there are |
| `ChunkedGrammar.OpenChunkRefused` | internal/s3api/chunked.go:112-124 | a chunk that CR LF does not follow ends it in MissingTerminator or MalformedTerminator |
| `Text.TrimPlain` | internal/s3api/chunked.go:88-88 | trimming white space leaves printable ASCII alone |
| `TextGrammar.TrimFinds` | internal/s3api/chunked.go:88-88 | trimming removes all white space of Unicode at both ends, and what is left begins and ends with none |
| `TextGrammar.SpacesAreUnicode` | internal/s3api/chunked.go:88-88 | what it takes for white space is the UTF-8 form of the 25 white-space characters |
| `TextGrammar.ParsesExactly` | internal/s3api/chunked.go:88-88 | a text parses to an integer exactly when it is an optional sign and one or more digits of that value, within 64 bits |
| `Text.ParseIntPrint` | internal/s3api/handler.go:540-540 | printing and parsing integers undo each other exactly on the 64-bit range |
| `UriEncoding.AwsUriEncode` | internal/s3api/handler.go:940-962 | the loop leaves the 66 unreserved characters of section 2.3 of RFC 3986, and in paths the slash, as they are, and turns every other byte into `%` and the two digits of `0123456789ABCDEF` that give it |
| `UriEncoding.UnreservedExactly` | internal/s3api/handler.go:948-953 | exactly the characters of the constant text of the 66 unreserved ones are kept |
| `UriEncoding.PrintedPlainly` | internal/s3api/handler.go:948-953 | whatever encodes a text of unreserved characters in that way is the text itself |
| `UriEncoding.DecodeEncode` | internal/s3api/handler.go:940-962 | percent-decoding gives back the encoded text |
| `UriEncoding.EncodeInjective` | internal/s3api/handler.go:940-962 | two texts encode alike only when they are the same |
| `UriEncoding.EncodeAlphabet` | internal/s3api/handler.go:940-962 | only unreserved characters, percent signs and, in paths, slashes come out, so neither `&` nor `=` does |
| `CanonicalQuery.Sort` | internal/s3api/handler.go:988-993 | sorting by name then value, a sorted permutation |
| `CanonicalQuery.JoinAll` | internal/s3api/handler.go:994-1003 | pairs joined by `&` with an explicit `=` |
| `CanonicalQuery.Print` | internal/s3api/handler.go:974-1005 | the canonical query is the unskipped parameters as name=value pairs, encoded as above, each as often as it is given, in the byte order of name then value, joined by `&` |
| `CanonicalQuery.CanonicalPrints` | internal/s3api/handler.go:974-1005 | the specification by sorting and joining has this form |
| `CanonicalQuery.AnyOrder` | internal/s3api/handler.go:978-987 | whatever order the map is iterated in, the same parameters are collected |
| `CanonicalQuery.SortedUnique` | internal/s3api/handler.go:988-993 | two sorted lists of the same pairs are the same list |
| `CanonicalQuery.CanonicalExactly` | internal/s3api/handler.go:974-1005 | two queries print alike exactly when they have the same unskipped parameters, each as often |
| `TtlCache.Cache.Get` | internal/cache/cache.go:49-66 | one caller at a time, a hit is the value of a timed map up to its time of expiry, and every other lookup misses |
| `TtlCache.Cache.Set` | internal/cache/cache.go:68-76 | setting writes the timed map, with the default life for a non-positive one |
| `TtlCache.Cache.Delete` | internal/cache/cache.go:78-81 | deleting removes the key |
| `TtlCache.Cache.Sweep` | internal/cache/cache.go:95-113 | a sweep removes all expired entries and nothing a caller could see |
| `TtlCache.NextKeeps` | internal/cache/cache.go:52-113 | every step of overlapping lookups, writes, deletions and sweeps keeps the cache in agreement with the timed map |
| `TtlCache.CacheAgrees` | internal/cache/cache.go:52-113 | in every interleaving the cache shows at every moment what the timed map shows |
| `TtlCache.HitWasCurrent` | internal/cache/cache.go:52-66 | a hit is the entry that was current when the caller looked and is unexpired at the check |
| `TtlCache.EvictionSparesLaterWrites` | internal/cache/cache.go:58-62 | an eviction, lazy or by the sweeper, removes only the expired entry it had inspected; a key written since is left alone |
| `TtlCache.MissAtCheck` | internal/cache/cache.go:58-64 | at an expired check the key has a live value exactly when it was written since the look and is still live |
| `TtlCache.MissWrongExactlyWhen` | internal/cache/cache.go:52-66 | in every interleaving a miss decided at the check is wrong exactly when a still live entry was stored under the key between the look and the check |
| `TtlCache.MissDespiteLaterWrite` | internal/cache/cache.go:52-66 | a run in which it is wrong though the key had a live value all along |
| `Timestamps.CalendarOrder` | internal/metadata/store.go:642-646 | comparing year, month, day, hour, minute and second in turn is comparing instants |
| `Timestamps.UnixTime` | internal/metadata/store.go:642-646 | the seconds of a date by the closed form for leap years; 1970-01-01 is 62,167,219,200 seconds from the start of year 0 |
| `Timestamps.FormatReads` | internal/metadata/store.go:642-646 | the stored text reads back as the date, time and nanoseconds it was made from, in the layout of RFC 3339 |
| `Timestamps.DifferentSecondsAgree` | internal/metadata/store.go:695-699 | in different whole seconds text order is time order |
| `Timestamps.SameSecondExactly` | internal/metadata/store.go:695-699 | within one second it is right exactly when the earlier fraction's digits are no prefix of the later one's |
| `Timestamps.StaleMultipartUploads` | internal/metadata/store.go:698-715 | the query returns the uploads whose stored text is below the cutoff's, in order |
| `Timestamps.SweptExactly` | internal/s3api/janitor.go:33-42 | an upload of another second than the cutoff's is swept exactly when it is older |
| `Timestamps.StaleExactly` | internal/s3api/janitor.go:33-42 | what the sweep decides about any upload, the cutoff's own second included |
| `Timestamps.MissedWithinSecond` | internal/metadata/store.go:698-699 | an upload half a second older than the cutoff that is not swept |

## Left out

- SQL execution, the write-ahead log and connection pools: a transaction is one step that commits or leaves the tables as they are, and a query returns rows in key order.
- The Telegram client, its authentication, sessions and RPC encodings: the channel is a map from message ids to bytes, ids are never reused, and a file read gives an aligned window cut off at the end of the file.
- Retry, recovery and flood-wait middleware, which only repeat calls.
- HMAC, SHA-256 and MD5: a part's tag is the hexadecimal form of a digest given as a parameter.
- The `encoding-type=url` form of listed keys, which clients decode again (`UriEncoding.DecodeEncode`).
- XML, CORS, canned bucket subresources, header echo, object metadata, routing, and virtual-host or path parsing: branch tables with no property that spans operations.
- Buckets: the checks that a bucket exists, and the refusal to delete a bucket that is not empty.
- Authentication decisions, clock skew, presigned expiry, conditional requests and `If-Range`.
- Wall-clock timeouts: a chunk timeout is one of the ways a fetch fails, and the cache reads a clock that never runs backwards.
- 64-bit overflow of sizes, offsets and pick counters: they are unbounded here; only parsed numbers are limited to 64 bits.
- UploadPart and Abort overlapping each other or a Complete of the same upload: operations on part rows are serial here, and a Complete in `ConcurrentPut` has read its parts in one step.
- Reads that overlap with an overwrite of the same object: a GET is over one state of the channel.
- The order in which groups of deletions are sent to the bots, which follows Go's map iteration; every order is allowed.
- PrefetchReader.Reader.FetchChunk: a fetch returns a full chunk or fails, which `EndToEnd.FetchWindow` derives from messages of recorded size; the silent short read is stated on `BotSource.Chunk`.
- Handlers.Handler.CopyObject: a source whose first window cannot be read is refused before anything is sent, with another of the two 502 codes; here it is an upload that fails with nothing sent. A source message of another length than recorded, which no operation produces, counts as unreadable.
- Handlers.Handler.PutObject: when the body is malformed and a document fails as well, either failure may be the one that is answered.
- Handlers.Handler.PutChunkedObject: the body is decoded before it is sent, not read by read; `AwsChunked.ReadAll` shows that the reads add up to the same.
- Handlers.Handler.CompleteMultipartUpload: the object's own tag, the MD5 of the gathered digests with the part count, is not stored in the modelled row; `Multipart.Assemble` gives the string it is computed from.
- Etags.QuotedMatches: tags are compared up to the case of ASCII letters only, which is all that hexadecimal tags contain.
- AwsChunked.Reader.Read: an error in a chunk terminator is not sticky, so the guarantees are about reads up to the first error, after which callers stop.
- CanonicalQuery.Sort: the library sort is an insertion sort here; equal pairs are identical, so no other sort gives another result.
- Timestamps.StaleMultipartUploads: years run from 0 to 9999, the range of four-digit years.
- TtlCache.Cache.Sweep: the choice of the sweep interval is not modelled, a sweep can start at any time.
