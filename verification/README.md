# Verified model of the medulla client layer and tooling

This project models the stateful and algorithmic core of the medulla Python client and of the build and test
tooling beside it, and proves what that code keeps over every run and every input. It is one Dafny module per
component; `dafny verify dfyconfig.toml` checks all of it.

* **Connection pool** (`ConnectionPools`, `PoolBounds`, `PoolQueues`, `PoolCoroutines`). The coroutines of
  `ConnectionPool` are cut at their `await` points into a state machine; health checks, connects and closes are
  outcomes chosen by the environment. `PoolCoroutines` is the class whose methods are those segments; every object of
  it is in a state that some run reaches.
* **Shard router** (`ShardRouting`, `ShardUnions`, `UnionOrder`). Scatter-gather over shards against the same query
  unsharded.
* **Bounded test runner** (`OutputPumps`, `ActiveTests`, `Supervision`). The incremental line splitter, the test it
  takes to be active, and the timed lifecycle of a supervised child: run, time out, TERM, KILL, reap, orphans.
* **Connector pack** (`ByteStrings`, `FramedDigests`, `Hexadecimal`, `Numerals`, `FrameLayout`, `PackDigests`,
  `PackIdentity`, `PackArchive`, `BuiltPacks`, `PackUpload`, `RefusingUploads`, `ContentKeyedUploads`). Canonical
  digests up to `pack_digest`, the archive layout, and the chunked upload under retries, against three kinds of engine.
* **Order matching** (`OrderMatching`). Conservation and optimality of the greedy matcher, over reals.
* **WebAssembly section walker** (`WasmSections`), against the grammar of sections 5.2.2 and 5.5.2 of the
  WebAssembly Core Specification 1.0.
* **Placement** (`CircuitBreaker`, `TenantClients`, `TenantRecency`, `EpochFencing`).
* **Body codec** (`DecisionBody`), **build cache** (`InputFingerprints`, `WheelCache`), **complexity gate**
  (`ComplexityGate`) and **exhaustive paging** (`FleetCatalog`).
* `Basics` and `Sequences` hold what several modules need: bytes and optional values; deduplication, stable sorting
  and chunks of lists.

SHA-256 is an arbitrary function with 32-byte results. Where a result needs it to be collision free, it asks only
that it tells apart the finite set of strings that were actually hashed (`Separates`).

## What the code does not promise after all

For each of these the code is kept as it is, and the exact condition is proved.

* The pool's cap: a connection is replaced outside the lock, so each failed health check can push the count one
  over `max_size`. The cap holds over all runs exactly when no health check can fail (`CapHoldsIff`), and the
  overshoot of one per failure is attained (`OvershootAttained`).
* A caller waiting on the queue can wait for nobody: exactly when as many connects can fail as the pool may hold
  (`NeverStrandedIff`), or after `close_all` (`CloseAllStrands`).
* `properties_union` is first-found in the caller's order exactly when the listed graphs are in key order
  (`PropertiesUnionFaithfulIff`), which for distinct names means that each shard's graphs are contiguous.
* The label and neighbour unions return the same ids however graphs are placed, but the same rows in the same order
  as the unsharded union, under any limit, exactly when by first listings each shard's graphs are contiguous
  (`LabelUnionFaithfulIff`, `NeighborsUnionFaithfulIff`).
* Which test the watchdog takes to be active depends on how the output is cut into reads: an incomplete line is looked
  at where a read ends, so a start mark can be seen that the complete line does not bear (`CutsDisagree`). The bytes
  alone decide exactly when every such mark that nothing later speaks to names the test active uncut
  (`ActiveByBytesIff`).
* A supervised child that exits 0 and leaves an empty process group is still reported as 124 when its output stays
  open through the drain, as when a process of another session holds the pipe (`HeldPipe`). A run returns 0 exactly
  when the child exits 0 before a timeout, its output ends within the drain and its group is then empty (`Run`).
* The client's pack digest leaves the model profile's input capabilities out, the engine's does not: they agree
  exactly for packs without any (`EngineAgreesIff`).
* Only the begin key of an upload carries the chunk size. Against an engine that answers a known key with the
  recorded reply whatever the content, a retry commits the archive exactly when the size is the same, no chunk had
  arrived, or the first attempt had committed; otherwise it commits less (`RetryCommitsIff`). An engine that refuses
  a key reused with other content refuses another size once a chunk has arrived, and stores nothing more
  (`RefusingRetryIff`). One that folds the content into the key always answers with the archive, but stores it twice
  exactly when the size is another and the first attempt had committed (`ContentRetryIff`).
* Overlapping misses on one tenant lose a client that is never closed (`LossPossibleIff`), and from a new pool any
  number of them (`LossUnbounded`).
* A row that crosses a complexity cap can hide behind a worse row of the same name: exactly when a name keeps several
  rows and gains none (`CollidingNamesIff`). A name with a single row keeps the promise without exception, because
  the dispatch rule never exempts a row whose residual is over the cap (`StampedIff`, `SingleRowPromise`).
* `decode_body` refuses densely numbered bodies of more than 100 chunks (`NotDenseIff`).

## Model

| member | source | states |
|---|---|---|
| `ConnectionPools.PoolSafety` | medulla/pool.py:175-285 | in every reachable state the connection count is the clients queued, checked, dropped, held or being closed; no client is owned twice; the count exceeds the cap by at most the failed health checks; `initialize` never overflows the queue |
| `ConnectionPools.QueueFullNeedsFailedPing` | medulla/pool.py:226-233 | the queue-full branch of `release` is reachable only after a failed health check, with the count above the cap |
| `ConnectionPools.ExecInv` | medulla/pool.py:175-285 | every run of coroutine segments keeps the pool's accounting invariant and its bound |
| `PoolBounds.OvershootAttained` | medulla/pool.py:204-224 | for every cap and every number of failed health checks some run holds exactly cap plus failures connections |
| `PoolBounds.CapHoldsIff` | medulla/pool.py:204-224 | the cap holds over all runs with at most that many failed health checks exactly when none may fail, or nothing may be pooled |
| `PoolBounds.WaitersProvided` | medulla/pool.py:204-224 | without `close_all`, when a caller waits, the connections still alive plus the failed connects are at least the cap |
| `PoolBounds.NeverStrandedIff` | medulla/pool.py:204-224 | without `close_all`, no run leaves a waiter with no client queued, held or reconnecting exactly when fewer connects fail than the cap |
| `PoolBounds.CloseAllStrands` | medulla/pool.py:279-285 | `close_all` alone can leave a waiter with no client, although every connect and health check succeeds |
| `PoolCoroutines.ConnectionPool.Safety` | medulla/pool.py:133-285 | of any pool object between any two segments: the count is exact, no client has two owners, a client handed out is nowhere else, and the cap is exceeded by at most the failed health checks |
| `PoolQueues.FirstInFirstOut` | medulla/pool.py:204-285 | over every run what has been put into the queue is what has been handed out, in that order, followed by what is still there |
| `PoolQueues.LockBackMeansEmpty` | medulla/pool.py:279-285 | in every run `close_all` goes on with the next queued client after each close that succeeds, and gives the lock back exactly when the queue is empty |
| `PoolCoroutines.ConnectionPool.CloseAllAlone` | medulla/pool.py:279-285 | a whole uninterrupted `close_all` closes the queued clients in queue order, each once, up to the first close that fails, and lowers the count by their number |
| `PoolCoroutines.ConnectionPool.AcquireAlone` | medulla/pool.py:204-224 | a whole uninterrupted `acquire`, whatever its health check and connect come to: a returned client is the caller's alone, and the count grows only up to the cap |
| `PoolCoroutines.ConnectionPool.constructor` | medulla/pool.py:136-173 | a new pool owes min(min_size, max_size) connects |
| `PoolCoroutines.ConnectionPool.InitConnectDone` | medulla/pool.py:175-180 | one connect of `initialize`; the pool stays in a reachable state |
| `PoolCoroutines.ConnectionPool.BeginAcquire` | medulla/pool.py:204-218 | `acquire` up to its first await: take from the queue, or ask for the lock; the pool stays in a reachable state |
| `PoolCoroutines.ConnectionPool.PingDone` | medulla/pool.py:209-213 | the end of a health check; the pool stays in a reachable state |
| `PoolCoroutines.ConnectionPool.DropDead` | medulla/pool.py:213-215 | a dead connection gives its slot back under the lock before the reconnect starts; the pool stays in a reachable state |
| `PoolCoroutines.ConnectionPool.ReconnectDone` | medulla/pool.py:215-216 | the reconnect, outside the lock; the pool stays in a reachable state |
| `PoolCoroutines.ConnectionPool.TakeSlot` | medulla/pool.py:218-223 | under the lock, connect when below the cap, else wait on the queue; the pool stays in a reachable state |
| `PoolCoroutines.ConnectionPool.ConnectDone` | medulla/pool.py:219-221 | the connect inside the lock; the pool stays in a reachable state |
| `PoolCoroutines.ConnectionPool.GetQueued` | medulla/pool.py:222-224 | a waiter takes a queued client; the pool stays in a reachable state |
| `PoolCoroutines.ConnectionPool.ReleaseClient` | medulla/pool.py:226-233 | `release`: requeue, or drop the client when the queue is full; the pool stays in a reachable state |
| `PoolCoroutines.ConnectionPool.BeginCloseAll` | medulla/pool.py:279-285 | `close_all` asks for the lock; the pool stays in a reachable state |
| `PoolCoroutines.ConnectionPool.CloseAllLocked` | medulla/pool.py:279-285 | `close_all` takes the next queued client to close; the pool stays in a reachable state |
| `PoolCoroutines.ConnectionPool.CloseDone` | medulla/pool.py:279-285 | the end of a close counts the connection off, or ends the loop when it failed; the pool stays in a reachable state |
| `ShardRouting.GroupByShard` | medulla/pool.py:340-363 | groups by shard in order of first occurrence; a group is all graphs when there is one endpoint, else those the resolver sends there, in caller order; refused exactly when several endpoints are configured and some graph is resolved to none of them |
| `ShardRouting.PropertiesUnion` | medulla/pool.py:461-492 | answers first-found over the graphs in the router's scan order, and succeeds exactly when the one endpoint is up, or every graph is resolved to a configured endpoint that is up |
| `ShardRouting.PropertiesUnionNone` | medulla/pool.py:461-492 | finds nothing exactly when no listed graph has the node |
| `ShardRouting.ScanOrderBefore` | medulla/pool.py:477-491 | one graph is asked before another exactly when its shard's key (the least last index of its graphs) is smaller, or it comes first within one shard |
| `ShardRouting.SameAnswersIff` | medulla/pool.py:461-492 | two lists of the same graphs answer every query alike exactly when they meet the graphs in the same order |
| `ShardRouting.PropertiesUnionFaithfulIff` | medulla/pool.py:461-492 | the sharded answer equals the unsharded first-found answer for all contents exactly when the list is in key order |
| `ShardRouting.DistinctKeyOrderIff` | medulla/pool.py:477-491 | for distinct names, key order is contiguity of each shard's graphs |
| `ShardRouting.InterleavedShards` | medulla/pool.py:477-491 | a graph listed between two graphs of another shard gives a different answer for some contents |
| `ShardRouting.RepeatedName` | medulla/pool.py:477-491 | a repeated name moves its shard back and changes the answer for some contents |
| `ShardUnions.CallShards` | medulla/pool.py:432-459 | one deduplicated answer per shard, in dictionary order, unless a shard fails |
| `ShardUnions.ShardThenGlobal` | medulla/pool.py:494-542 | deduplicating per shard and then across shards is one global deduplication |
| `ShardUnions.MergeShards` | medulla/pool.py:494-521 | the merge loop with early stop returns the global deduplication cut to the limit |
| `ShardUnions.ListByLabelUnion` | medulla/pool.py:494-521 | the label union is the global deduplication of all answers, cut to the limit |
| `ShardUnions.NeighborsUnion` | medulla/pool.py:523-542 | the neighbour union is the global deduplication of all answers |
| `ShardUnions.MergedIds` | medulla/pool.py:494-542 | the merged ids are exactly the ids some listed graph answers with, each once |
| `ShardUnions.PlacementIndependent` | medulla/pool.py:494-542 | for any two route resolvers the same ids, and as many, are returned |
| `ShardUnions.LimitedLength` | medulla/pool.py:494-521 | with limit L > 0 the result is a prefix of length min(L, distinct ids) |
| `UnionOrder.LabelUnionFaithfulIff` | medulla/pool.py:494-521 | under any limit, the label union returns the unsharded union's rows, values and order included, for all contents exactly when by first listings each shard's graphs are contiguous |
| `UnionOrder.NeighborsUnionFaithfulIff` | medulla/pool.py:523-542 | the same for the neighbour union |
| `UnionOrder.UnionBefore` | medulla/pool.py:349-363 | the unions take one graph before another exactly when its shard is named first, or it comes first within the shard |
| `OutputPumps.Progress.Observe` | scripts/bounded_test_runner.py:86-103 | one line moves the progress record: a binary resets the active test, a start mark sets it with its time, a finish mark counts and ends it |
| `OutputPumps.OutputPump.Read` | scripts/bounded_test_runner.py:322-339 | written plus pending text is the decoded stream and the tally that of the complete lines; the active test is that of the last start mark looked at, the incomplete line included, with no finish mark or binary after it; a start time is there exactly with an active test, and lies within the read that brought its mark |
| `OutputPumps.OutputPump.WriteCompleteLines` | scripts/bounded_test_runner.py:341-348 | the loop takes the complete lines one by one, each written, observed and forgotten as a partial name |
| `OutputPumps.TakeLinesViews` | scripts/bounded_test_runner.py:341-348 | all complete lines of the pending text, and no more, are looked at in order, and the newline-free rest stays |
| `OutputPumps.OutputPump.ObservePartialProgress` | scripts/bounded_test_runner.py:350-362 | an incomplete line is observed exactly when it starts another test than it did before |
| `OutputPumps.ReadTimed` | scripts/bounded_test_runner.py:322-362 | when the active test started follows from what a read brought: within it for a new mark, as before for silence or the same incomplete line seen again |
| `OutputPumps.OutputPump.Finish` | scripts/bounded_test_runner.py:364-374 | after the end nothing is pending and everything decoded has been written |
| `OutputPumps.PumpAll` | scripts/bounded_test_runner.py:309-374 | however the bytes are cut into reads, the text written, the binary and the completed tests depend only on the bytes; the active test is that of the last mark looked at |
| `ActiveTests.ActiveByBytesIff` | scripts/bounded_test_runner.py:350-362 | the active test is the same for every cut of the bytes into reads exactly when every cut at which an incomplete line bears a start mark that nothing later speaks to names the test active uncut |
| `ActiveTests.CutsDisagree` | scripts/bounded_test_runner.py:350-362 | two bytes that start a test in two reads and none in one |
| `OutputPumps.SplitUnique` | scripts/bounded_test_runner.py:341-348 | complete lines and a newline-free tail are the only split of their text |
| `OutputPumps.FeedAppend` | scripts/bounded_test_runner.py:322-339 | incremental decoding of consecutive reads is decoding of their concatenation |
| `Supervision.DrainUntil` | scripts/bounded_test_runner.py:394-402 | draining lasts to its deadline, give or take one read, unless the child is gone and its output has ended |
| `Supervision.CheckLive` | scripts/bounded_test_runner.py:542-559 | reports a suite timeout exactly when its time is up and a test timeout only after the test's time, and lets no test be active longer than its timeout and one read |
| `Supervision.Monitor` | scripts/bounded_test_runner.py:562-589 | ends at the first moment at which something is due: no reason exactly when the child is gone and its output has ended; orphaned output exactly when it is gone and the output has stayed open for the whole drain since; a timeout exactly when it is alive and the suite's, else the test's, time is over; within suite timeout plus the drain, and no test active longer than its timeout and one read |
| `Supervision.HungTest` | scripts/bounded_test_runner.py:542-589 | a child that falls silent after a start mark and does not exit ends the watch by the test's timeout and one read after the mark, for that reason if the suite has that long |
| `Supervision.Contain` | scripts/bounded_test_runner.py:405-498 | ends within TERM grace plus twice KILL grace, a child still there has had both graces, the output is closed, and the result is coded by reason, status and survivors |
| `Supervision.FinishProcess` | scripts/bounded_test_runner.py:592-639 | contains the group exactly when it still has members, and reports the child's status otherwise |
| `Supervision.Supervise` | scripts/bounded_test_runner.py:642-713 | the outcome follows from the moment the watch ended at: contained for what was due, otherwise completed exactly when the group is found empty next; within suite timeout, orphan drain, TERM grace and twice KILL grace |
| `Supervision.Run` | scripts/bounded_test_runner.py:642-713 | 0 is returned exactly when a child in its own group exits 0 before a timeout, its output ends within the drain and its group is then empty; a non-zero child status is returned unchanged; other containments return 124, or 125 with survivors; no suite timeout before its time; the run ends within its time limits, except that a child without a group is waited for as long as it takes |
| `Supervision.HeldPipe` | scripts/bounded_test_runner.py:584-589 | a child that exits 0 with an empty group but whose output never ends is reported as 124 |
| `FramedDigests.FieldsInjective` | medulla/generated/digest.py:124-138 | length-prefixed fields of different lists are different bytes |
| `FramedDigests.FrameInjective` | medulla/generated/digest.py:124-138 | different domains or field lists frame to different bytes |
| `FrameLayout.FrameReadsBack` | medulla/generated/digest.py:124-138 | a reader with big-endian lengths, four bytes for the domain and the count and eight for a field, reads a frame back as its domain and its fields in order |
| `ByteStrings.BigEndianAt` | medulla/generated/digest.py:131-137 | the most significant byte comes first |
| `FrameLayout.SingleFields` | medulla/connector_pack.py:92-111 | what numbers, absent numbers and tri-states are written as |
| `FrameLayout.ModelLayout` | medulla/connector_pack.py:131-152 | the fields of a model profile, position by position |
| `FrameLayout.AnnotationsLayout` | medulla/connector_pack.py:155-213 | the fields of annotations, position by position, the tool facts behind their names |
| `FrameLayout.PairsAt` | medulla/connector_pack.py:216-229 | each reference is its URI and then its kind |
| `FrameLayout.EntryLayout` | medulla/connector_pack.py:232-256 | the nine fields of an entry, position by position |
| `FrameLayout.CatalogLayout` | medulla/connector_pack.py:259-271 | the five fields of a catalog binding, position by position |
| `FrameLayout.PackLayout` | medulla/connector_pack.py:274-297 | connector, catalog, server, the count, and then the entries in URI order |
| `FrameLayout.DomainsAreSpelled` | medulla/connector_pack.py:54-64 | the domain of each kind of digest as the engine spells it |
| `FrameLayout.KindsApart` | medulla/connector_pack.py:126-297 | no string hashed for one kind of digest is hashed for another, whatever the fields |
| `Hexadecimal.RawDigestIff` | medulla/connector_pack.py:114-123 | the reader accepts exactly the 64 lower-case hexadecimal characters of 32 bytes, and returns those bytes, although the parser it calls skips white space |
| `Hexadecimal.HexDigits` | medulla/decision_stat.py:48-48 | the digits written are 0 to 9 and a to f, lower case |
| `Hexadecimal.UnhexIff` | medulla/decision_stat.py:72-72 | text is read as bytes exactly when it is their hexadecimal text, in either case |
| `PackDigests.ListDigestIff` | medulla/connector_pack.py:126-128 | list digests agree exactly for equal sets of values |
| `PackDigests.ClientProfileIff` | medulla/connector_pack.py:131-152 | the client's model fields agree exactly for profiles equal but for input capabilities |
| `PackDigests.AnnotationsIff` | medulla/connector_pack.py:155-213 | annotation digests agree exactly for annotations alike: lists as sets, absent and empty text identified |
| `PackDigests.RefsIff` | medulla/connector_pack.py:216-229 | reference digests agree exactly for the same references in any order |
| `PackDigests.EntryIff` | medulla/connector_pack.py:232-256 | entry digests agree exactly for entries alike, wherever their sections lie |
| `PackDigests.CatalogIff` | medulla/connector_pack.py:259-271 | catalog digests agree exactly for equal bindings |
| `PackDigests.PackDigestIff` | medulla/connector_pack.py:274-297 | pack digests agree exactly for the same connector and catalog and alike entries in URI order |
| `PackIdentity.EntryOrderIrrelevant` | medulla/connector_pack.py:274-297 | with unique URIs the order of entries does not change the digest |
| `PackIdentity.SharedUriOrderIff` | medulla/connector_pack.py:274-297 | relisting the entries of any pack keeps its digest exactly when, URI by URI, the entries with that URI are alike one by one in both orders |
| `PackIdentity.EngineAgreesIff` | medulla/connector_pack.py:131-152 | the client's pack digest is the engine's exactly when no model declares input capabilities |
| `PackArchive.Builder.Place` | medulla/connector_pack.py:376-387 | a section starts where the archive ended, covers exactly its bytes and carries their digest |
| `PackArchive.Builder.Materialize` | medulla/connector_pack.py:389-402 | body, input and output schema are laid out one behind the other |
| `PackArchive.Build` | medulla/connector_pack.py:357-406 | the four refusals in their order, and otherwise the archive of the entries sorted by URI |
| `PackArchive.ServerRoundTrip` | medulla/connector_pack.py:374-406 | reading the server entry back through its sections returns its content, and every section carries the digest of the bytes it addresses |
| `PackArchive.ArchiveRoundTrip` | medulla/connector_pack.py:374-406 | the same of any entry |
| `PackArchive.ArchiveSpans` | medulla/connector_pack.py:374-406 | the sections cover the archive end to end in traversal order, without gap or overlap |
| `PackArchive.BuildOrderIrrelevant` | medulla/connector_pack.py:357-406 | the order in which entries are given changes neither the archive nor the refusal |
| `BuiltPacks.BuiltDigestIff` | medulla/connector_pack.py:274-406 | two built packs have one digest exactly when connector and catalog are the same and the contents alike, bodies and schemas byte for byte, unless the hash confuses two of the strings at hand |
| `PackUpload.KeysDistinct` | medulla/connector_pack.py:480-501 | no two RPCs of one operation share a key, except begins of equal chunk size |
| `PackUpload.UploadExactlyOnce` | medulla/connector_pack.py:460-501 | any schedule of first and repeated RPCs at one chunk size that reaches the commit stores exactly the archive, once, and repeated commits answer with it |
| `PackUpload.UploadArchive` | medulla/connector_pack.py:460-501 | refuses an empty key and a chunk size out of range untouched; otherwise begins, sends every chunk under its number and commits |
| `PackUpload.SameSizeCompletes` | medulla/connector_pack.py:460-501 | a retry with the same chunk size commits exactly the archive, however far the first attempt got |
| `PackUpload.RetryCommitsIff` | medulla/connector_pack.py:484-500 | against an engine that replays by key, after any schedule of first and repeated RPCs, a retry with any chunk size commits the archive exactly when the size is the same, no chunk had arrived, or the first attempt had committed |
| `PackUpload.OthersLeaveItNew` | medulla/connector_pack.py:480-501 | after whatever other operations sent to a fresh engine the operation is new to it, as the upload results ask |
| `PackUpload.OnceAmongOthers` | medulla/connector_pack.py:460-501 | after whatever other operations sent to a fresh engine, an upload whose RPCs are repeated at will and that reaches its commit stores exactly the archive, once |
| `RefusingUploads.RefusingRetryIff` | medulla/connector_pack.py:484-500 | against an engine that refuses reused keys, after any schedule of first and repeated RPCs, a retry commits the archive when the size is the same or only a begin had arrived, and is otherwise refused with nothing more stored |
| `RefusingUploads.ScheduleAttempts` | medulla/connector_pack.py:460-501 | any schedule of first and repeated RPCs leaves a refusing engine where the replaying one would be, each key recorded with its request |
| `RefusingUploads.OthersLeaveItUntried` | medulla/connector_pack.py:480-501 | after whatever other operations sent to a fresh refusing engine the operation is untried |
| `ContentKeyedUploads.ContentKeyedStoresAnew` | medulla/connector_pack.py:484-500 | against an engine that folds the content into the key, after any run in which clients name only cursors they were given, an upload whose begin is new stores exactly the archive once more |
| `ContentKeyedUploads.ContentRetryIff` | medulla/connector_pack.py:484-500 | there, after whatever other operations sent and any schedule of the upload, a retry with any chunk size answers with the archive, stored once exactly when the size is the same or the first attempt had not committed, and otherwise twice |
| `OrderMatching.Walk` | medulla/quant.py:131-172 | the loop trades at crossing levels only, splits every level between trade and rest, and keeps the rest sorted with no crossing volume while the order is open |
| `OrderMatching.Match` | medulla/quant.py:131-172 | volume is conserved at each price on the touched side and the other side is only sorted; a buy trades at or below its limit, cheapest first, a sell the other way round, and an order still open leaves nothing it crosses; for a non-negative book the trades fill min(volume, crossing volume) of the caller's book, and no feasible allocation of that volume has a better total price |
| `OrderMatching.MatchFills` | medulla/quant.py:131-172 | the trades' volume is the smaller of the order's volume and the crossing volume of the caller's book |
| `OrderMatching.MatchIsOptimal` | medulla/quant.py:131-172 | no feasible allocation of the same volume from the caller's book has a better total price than the trades |
| `WasmSections.ReadSize` | scripts/build_method_codec_wasm.py:103-117 | reads exactly the grammar's u32 off the front, and reports truncation exactly when the input ends inside a number |
| `WasmSections.ReadIffU` | scripts/build_method_codec_wasm.py:103-117 | the reader's results are exactly the encodings of section 5.2.2, padded ones included |
| `WasmSections.ReadInvertsEncoding` | scripts/build_method_codec_wasm.py:103-117 | reading inverts every encoder of the grammar, at any offset |
| `WasmSections.SectionsIff` | scripts/build_method_codec_wasm.py:120-133 | the walker finds exactly the tilings of its input by sections, so a tiling is unique |
| `WasmSections.VerifyNoImports` | scripts/build_method_codec_wasm.py:120-133 | accepts exactly the header followed by walkable sections none of which has id 2 |
| `WasmSections.AcceptsExactly` | scripts/build_method_codec_wasm.py:120-133 | that is: exactly a header followed by sections that tile the rest, none an import section |
| `CircuitBreaker.NewBreaker` | medulla/placement.py:90-106 | refuses exactly a threshold below one or a reset time not positive; a new breaker has an empty history |
| `CircuitBreaker.Breaker.Current` | medulla/placement.py:107-113 | the state is a function of the failures since the last success and the time of the last failure |
| `CircuitBreaker.Breaker.Allow` | medulla/placement.py:115-116 | calls are refused exactly while the last `threshold` results were failures and the last of them is less than the reset time ago |
| `CircuitBreaker.Breaker.RecordSuccess` | medulla/placement.py:118-120 | appends a success to the history |
| `CircuitBreaker.Breaker.RecordFailure` | medulla/placement.py:122-128 | appends a failure to the history, in every state and for any clock |
| `CircuitBreaker.BreakerCycle` | medulla/placement.py:85-128 | after any history and a success, failures open the breaker exactly at the threshold, it is half-open exactly from the reset time after the last failure, and a failure then opens it again |
| `TenantClients.AnyInterleaving` | medulla/placement.py:156-170 | under every interleaving at most `capacity` clients at every await, no tenant twice, and every client made is cached, evicted or lost, exactly once; each eviction is one close |
| `TenantClients.SerialLosesNone` | medulla/placement.py:156-170 | when calls of one tenant do not overlap no client is lost |
| `TenantClients.OverlapLoses` | medulla/placement.py:163-164 | two overlapping misses on one tenant lose the first client |
| `TenantClients.LossUnbounded` | medulla/placement.py:156-170 | from a new pool of any capacity some run loses any given number of clients while one is cached and none evicted |
| `TenantClients.LossPossibleIff` | medulla/placement.py:156-170 | the calls under way can lose a client exactly when two wait for the factory with one tenant, or one does whose tenant is cached by now |
| `TenantRecency.ByRecencyIs` | medulla/placement.py:156-173 | the recency order lists each tenant used once, by last use |
| `TenantRecency.MostRecentTenants` | medulla/placement.py:156-173 | after any calls one after another, failing factories and closes included, the pool holds the `capacity` most recently served tenants in recency order; clients made are size plus evictions; each evicted client was handed to the close once |
| `TenantRecency.TenantPool.Recent` | medulla/placement.py:156-173 | the same of the fields of any pool between two calls |
| `TenantRecency.NewTenantPool` | medulla/placement.py:138-151 | refuses exactly a capacity below one; a new pool is empty |
| `TenantRecency.TenantPool.Acquire` | medulla/placement.py:156-170 | refuses the empty tenant; a hit moves to the end, a failed factory changes nothing, a miss appends and evicts the oldest beyond capacity even when its close raises |
| `TenantRecency.CallsAreSteps` | medulla/placement.py:156-170 | whole calls taken step by step through the interleaving machine end in the state the pool's calls reach |
| `EpochFencing.EpochsNeverDecrease` | medulla/placement.py:219-268 | over every interleaving accepted epochs never decrease, the routing epoch is the latest accepted, each call makes at most two fetches, and stale rejects are exactly the calls that made a second |
| `EpochFencing.PlacementDirectory.Fencing` | medulla/placement.py:188-268 | the same of the fields of any directory between any two segments of its calls |
| `EpochFencing.PlacementDirectory.CallAlone` | medulla/placement.py:219-268 | an uninterrupted call returns the first answer not stale of at most two, the second only after a stale first, which it counts |
| `EpochFencing.PlacementDirectory.constructor` | medulla/placement.py:191-206 | a new directory has routing epoch 0 and nothing accepted |
| `EpochFencing.PlacementDirectory.BeginCall` | medulla/placement.py:236-262 | a call starts with one fetch that asks for the routing epoch |
| `EpochFencing.PlacementDirectory.Resume` | medulla/placement.py:219-268 | an answer is accepted, rejected and refetched once, or raised, as the routing epoch on arrival decides; the routing epoch never falls |
| `DecisionBody.EncodeRefusesIff` | medulla/decision_stat.py:45-57 | encoding refuses exactly the bodies of more than 96,000 bytes |
| `DecisionBody.NotDenseIff` | medulla/decision_stat.py:64-71 | decoding takes the chunks exactly when they are numbered 0 to n - 1 for some n from 1 to 100 |
| `DecisionBody.DecodeIff` | medulla/decision_stat.py:62-75 | decoding returns a body exactly when the chunks are dense, spell it in hexadecimal of either case and its digest is the one given; each refusal is the first of these that fails |
| `DecisionBody.DecodedIsPinned` | medulla/decision_stat.py:62-75 | what is decoded under the digest of a body is that body, for a hash that tells the two apart |
| `DecisionBody.DecodeInvertsEncode` | medulla/decision_stat.py:45-75 | decoding inverts encoding for every body of 1 to 96,000 bytes, among any other attributes and in any order |
| `InputFingerprints.EscapeInjective` | build_backend.py:258-259 | the two replacements of section 3 of RFC 6901 keep different names different |
| `InputFingerprints.PathInjective` | build_backend.py:249-266 | different paths of names are different field texts |
| `InputFingerprints.FlattenIs` | build_backend.py:249-266 | the fingerprints are exactly the digests of the leaves, each under its path |
| `InputFingerprints.ChangedInputFields` | build_backend.py:269-281 | returns the changed fields in sorted order, each once |
| `InputFingerprints.AssertStableInputs` | build_backend.py:284-292 | raises exactly when some field changed |
| `InputFingerprints.ChangedIff` | build_backend.py:269-281 | the changed fields are exactly the paths whose leaves differ |
| `InputFingerprints.UnchangedIff` | build_backend.py:269-292 | nothing is reported changed exactly when the two trees are equal |
| `WheelCache.ExecInv` | build_backend.py:571-610 | every run, stopped anywhere and with damage to the entry, keeps: a manifest in the entry is the whole manifest of something published |
| `WheelCache.HitIsWhatWasPublished` | build_backend.py:503-561 | after any run, a hit returns exactly the bytes published for equal inputs, never a part of them |
| `WheelCache.RenamedIsHit` | build_backend.py:579-610 | once the temporary directory is renamed the next look-up for those inputs hits the wheel |
| `WheelCache.Disk.Discard` | build_backend.py:571-576 | discarding file by file keeps the invariant; it is done, and the entry gone, exactly when the process lives for as many steps as there are files |
| `WheelCache.Disk.Publish` | build_backend.py:579-610 | publishing byte by byte leaves no entry when stopped; it is done, and the wheel found, exactly when the process lives for the wheel's and the manifest's bytes |
| `WheelCache.BuildEditableCached` | build_backend.py:613-649 | exactly on a hit the cached wheel is copied to the caller's directory and nothing else changes; otherwise the built wheel is there once the old entry is gone, and each end (changed inputs, another key, no wheel, published and found) is reached exactly on its condition, stopped only when the steps run out |
| `ComplexityGate.Judge` | scripts/check_complexity_staged.py:751-772 | the findings are exactly those of the measured names, in sorted order of names |
| `ComplexityGate.SilentIff` | scripts/check_complexity_staged.py:653-748 | a name is silent exactly when no over-cap row was added, no row is cognitively worse than all before, and the first row of greatest cyclomatic value held: by value for an ordinary row, by residual for a dispatcher, by the cap for a former dispatcher |
| `ComplexityGate.SingleSilentIff` | scripts/check_complexity_staged.py:653-748 | the same of a single row, written out on the fields for measured rows |
| `ComplexityGate.RegressionIs` | scripts/check_complexity_staged.py:693-748 | as many NEW findings as over-cap rows were added, with the values of the lowest ones in ascending order, and then exactly if the name did not hold a WORSE finding with the old and the new worst values |
| `ComplexityGate.OversCount` | scripts/check_complexity_staged.py:683-690 | the over-cap rows are exactly those over the cyclomatic cap and not exempt, or over the cognitive cap |
| `ComplexityGate.EachNameSilent` | scripts/check_complexity_staged.py:751-772 | a silent judgement is silent about every name |
| `ComplexityGate.JudgeSelf` | scripts/check_complexity_staged.py:751-772 | a file judged against itself has no findings |
| `ComplexityGate.NewNameIff` | scripts/check_complexity_staged.py:607-613 | a new name is silent exactly when every row is within the cognitive cap, and within the cyclomatic one or exempt |
| `ComplexityGate.StampIs` | scripts/rust_exhaustive_match.py:363-401 | the verdict and the residual of a row by its counts of arms, catch-alls and arms absent from the full build |
| `ComplexityGate.StampedIff` | scripts/check_complexity_staged.py:551-578 | the dispatch rule stamps exactly rows that are exempt only over the cyclomatic and within the cognitive cap, with a residual within the cap; other rows carry no residual |
| `ComplexityGate.SingleRowPromise` | scripts/check_complexity_staged.py:653-748 | for measured rows, when a name with one row on each side is silent, a row over a cap now was over that cap before |
| `ComplexityGate.SingleRowIff` | scripts/check_complexity_staged.py:653-748 | for rows given to `judge` directly the cyclomatic promise holds for every new row exactly when the old row's residual was within the cap |
| `ComplexityGate.CollidingNamesIff` | scripts/check_complexity_staged.py:693-748 | with colliding names, silence bounds the over-cap rows by those before, for all measured rows, exactly when rows were added or one is left |
| `FleetCatalog.AppendUnique` | medulla/fleet_catalog.py:142-148 | accepts exactly rows with ids not seen, each once, and appends them |
| `FleetCatalog.ListAll` | medulla/fleet_catalog.py:95-130 | ends against any server with finitely many cursors, with the result of checking page after page |
| `FleetCatalog.CompleteIsOneSnapshot` | medulla/fleet_catalog.py:95-163 | returned rows are those of the pages served; every page carried one digest and total, ids are distinct, and the count is the total |
| `FleetCatalog.HonestServerIsRead` | medulla/fleet_catalog.py:95-163 | an honest server's snapshot is returned exactly, whatever its page sizes |

## Left out

- The Rust engine, except the field list of its model-facts digest that the client's is compared with.
- `asyncio`: the order in which waiters wake, and cancellation; `initialize` runs once and first.
- `map_concurrent`, `resolve_cluster_endpoints` and `shard_topology`, which only forward to what is modelled.
- `LifecycleConfig`, which rejects time limits that are not positive: the supervisor here takes positive ones.
- Values a digest refuses: integers beyond 64 bits, lists beyond the contract's limits.
- How the engine forms its idempotency keys: three kinds of engine are modelled, not the one in the repository.
- Supervision.Run: the signals sent and the evidence printed are not modelled.
- OutputPumps.PumpAll: the incremental decoder and the regular expressions are arbitrary, except that a line is not
  of two kinds at once.
- OrderMatching.Match: prices and volumes are reals; floating-point rounding is not modelled.
- WheelCache.BuildEditableCached: symbolic links, file modes, the lock and the zip contents behind wheel validation
  are not modelled; a wheel's file name is taken to be local and not that of the manifest.
- WheelCache.HitIsWhatWasPublished: only publication writes manifests, and temporary directories are private.
- DecisionBody.DecodeInvertsEncode: a body is its canonical JSON bytes; JSON itself is not modelled.
- InputFingerprints.FlattenIs: a leaf is its canonical JSON text; keys are strings.
- TenantClients.AnyInterleaving: a factory that returns `None` is not modelled.
- EpochFencing.EpochsNeverDecrease: the contents of snapshots and routes are not modelled, only their epochs.
- FleetCatalog.ListAll: a server with infinitely many cursors can keep the loop going; the query and the row
  contents other than name and id are not modelled.
- The walk over the scanner's report and the reading of `match` arms from Rust text, which supply the rows and the
  arm counts the complexity gate judges.
- The rolling statistics and bandit scores of `medulla/quant.py`, wire probes, command-line entry points, benches.
