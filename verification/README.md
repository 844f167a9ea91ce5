# Verified model of the code-search index and the client protocol loops

This project models, in Dafny, the parts of the repository whose correctness is hardest to see by reading, and
proves what they promise.

- **Incremental index** (`Refresh`, `Incremental`, `Matrix`, `Cache`, `SearchIndex`, `Service`): refreshing an index
  from whatever was cached gives the same payload and matrix as indexing from nothing, the chunks of every file as
  it is read now, and reads only what changed; saving and loading are a round trip that survives a crash at any
  byte; the warm cache in front returns the index of the files walked, or a clean watched one installed less than
  30 seconds ago.
- **Build coordination** (`Singleflight`, `SharedIndex`): one build per key, followers get their leader's result, no
  lost wake-up, and which walk the result of each concurrent call reflects.
- **Chunking** (`Greedy`, `Chunking`): tree ranges, greedy merging with a running character count, line fallback.
- **Ranking and filters** (`Location`, `Selection`, `Ranking`, `Fusion`, `SemanticSearch`, `PathFilters`, `Tokens`): the
  result list does not depend on hash-map order or on how the partial selection breaks ties, the fast paths equal
  the general ones, every signal counts as documented, and comparators, filters and tokens mean what they should.
- **Client** (`Utf8`, `Terminal`, `Routing`, `SessionList`, `Permissions`): streaming decoding equals one-shot decoding,
  the bounded buffer is the longest tail, ids are resolved once, prompts that were shown are answered once.
- **Context budget** (`ContextBudget`): the least number of oldest messages is dropped, and what survives.

`Wrappers`, `Orders`, `Strings` and `Types` hold shared values and orderings. Loops of the source are methods proved
against functions; objects updated in place are classes (`EmbeddingMatrix`, `CacheFiles`, `CodeSearchService`,
`AcpTerminal`); the concurrent protocols and the two client tables are state machines over atomic steps.

Assumptions, all stated as preconditions: the embedding provider is a pointwise function of fixed positive dimension;
equal manifest entries mean equal text; where the files read again are counted, a walk lists each path once; SHA-256
is injective; a metadata document decodes only when complete; a parser's children are nested, ordered and disjoint;
the library's partial selection is a function bound only by its contract. An `f32` is its bit pattern in the index and
a real number in ranking; a read, a directory walk, a clock reading, a file event and a watcher's availability are
parameters.

Where the code and its documentation differ, the model follows the code:

- `cmp_location` is documented to order like `location()`. It does not when a path and a colon begin another path
  (`Location.ColonPathDisagrees`); `Location.LocationOrderIff` says exactly when it does.
- The item size bound of `normalize` is exceeded by what truncation returns (`ContextBudget.TruncationBoundIff`).
- `reserved_recent_turns` counts messages, not turns, and does not protect the current input when it is zero
  (`ContextBudget.NoReserveDropsInput`).
- A permission request must offer an option whose kind starts with `allow`, but only two such kinds can be selected
  (`Permissions.ApprovalSelectsIff`).
- A detached prompt is documented to be completed later; exactly those that registered before the reader stopped
  can be (`Routing.CompletionIff`).
- A permission request is meant to get one response; it gets two exactly when it was answered before it was shown,
  the client was then gone, and the rejection was written (`Permissions.Safety`).
- A new watcher per refresh is documented to avoid races with events during the refresh; an event between the walk
  and the start of the new watcher is missed (`Service.CodeSearchService.StaleWalkIsReused`), and that is the only
  way a reused index can lack a change (`Service.CodeSearchService.Index`).
- The safety interval is documented as the limit within which skipping a walk is still correct, but it runs from the
  installation: a reused walk may be older by as much as the build took (`Service.WalkAgeIff`,
  `Service.CodeSearchService.WalkOlderThanInterval`).
- A follower of a build may get, and store anew, an index walked before its own call (`SharedIndex.Safety`,
  `SharedIndex.MissedIff`).

`dafny verify dfyconfig.toml` checks the whole project.

## Model

| member | source | states |
|---|---|---|
| `Refresh.Refresh` | crates/code-search/src/refresh.rs:39-168 | The refresh loop computes, for every input and every failing branch, exactly the outcome of the functional specification `RefreshResult` |
| `Refresh.StaleCacheIsIgnored` | crates/code-search/src/refresh.rs:46-50 | A previous cache of another version, root, content filter or model, or with unsound row ranges, whatever else it holds, gives the outcome and the counters of a refresh without one |
| `Refresh.RefreshReuses` | crates/code-search/src/refresh.rs:69-95 | The files counted as reused are exactly the first of each path whose last usable record has the file's manifest entry and one row per chunk, and all others are counted as read again |
| `Refresh.PlanSlots` | crates/code-search/src/refresh.rs:64-81 | Each file is reused or queued as planned, queued files carry their slot position, and the deletion count is the records no file asked for |
| `Refresh.ReadAll` | crates/code-search/src/refresh.rs:203-223 | Reading the queue gives one pending record per queued file, in slot order |
| `Refresh.EmbedPendingChunks` | crates/code-search/src/refresh.rs:231-261 | Batching across record borders at 256 texts gives what embedding the flat text list in batches gives, including the first failure and the final count check |
| `Refresh.ProviderCalls` | crates/code-search/src/refresh.rs:231-261 | The provider is called on consecutive batches of 256 texts, the last one shorter; the vectors are those of all batches in order, or the first failure is the result |
| `Refresh.PackSlots` | crates/code-search/src/refresh.rs:98-151 | Packing in slot order equals the specification; the queue position of every pending record is its slot, so no record is ever missing |
| `Refresh.PackOneReused` | crates/code-search/src/refresh.rs:104-121 | Copying a reused record's rows and rewriting its start row is one packing step on the matrix value |
| `Refresh.PackOnePending` | crates/code-search/src/refresh.rs:122-149 | Copying the next changed rows and advancing the cursor is one packing step on the matrix value |
| `Incremental.PointwiseBatches` | crates/code-search/src/refresh.rs:231-261 | With a pointwise provider batching is invisible |
| `Incremental.PackingIsLayout` | crates/code-search/src/refresh.rs:98-151 | However reused and fresh slots mix, packing yields the from-scratch row layout, and no range or dimension error can occur |
| `Incremental.RefreshGivesIdeal` | crates/code-search/src/refresh.rs:39-168 | From any faithful previous cache, or none, a refresh succeeds with the payload and matrix determined by the files alone |
| `Incremental.EveryRefreshEqualsScratch` | crates/code-search/src/refresh.rs:39-168 | Over every run on changing file sets, one refresh included, each refresh fed the previous outcome gives the payload and matrix of a from-scratch refresh of its own files |
| `Incremental.IdealIsFaithful` | crates/code-search/src/refresh.rs:153-167 | What a refresh produces may itself be reused |
| `Incremental.IdealMatches` | crates/code-search/src/cache.rs:252-268 | What a refresh produces passes the check that guards saving |
| `Incremental.RecordsDescribeFiles` | crates/code-search/src/refresh.rs:39-220 | After a refresh from any faithful cache there is one record for each file and no other, reused or not: its digest and chunks are those of the text read now, or no chunks and the digest of nothing or of `unreadable`; its rows are its chunks' vectors; records are sorted by path, and the payload may be reused |
| `Incremental.RefreshTilesRows` | crates/code-search/src/refresh.rs:98-160 | After a refresh the records are path-sorted and their row ranges tile 0 to the row count without gap or overlap |
| `Incremental.RefreshCounts` | crates/code-search/src/refresh.rs:64-95 | Reused plus re-embedded files are all files, and the deleted count is the number of known paths no longer present |
| `Incremental.OnlyChangesAreRead` | crates/code-search/src/refresh.rs:64-95 | A refresh after another one, whatever that one reused, reuses exactly the files with the manifest entry of the earlier walk, reads all others again, and counts as deleted the paths no longer walked; so nothing is read where nothing changed |
| `Matrix.FromVectors` | crates/code-search/src/matrix.rs:52-72 | Row-major flattening of equally long vectors, or the first dimension error |
| `Matrix.NewIff` | crates/code-search/src/matrix.rs:28-50 | Exactly whole rows of a positive width, or nothing at width zero, make a matrix; the error says which of the two failed |
| `Matrix.RowsOfMatrix` | crates/code-search/src/matrix.rs:80-96 | A flattened matrix has one row per vector, row i is vector i, and there is no other row |
| `Matrix.ExtendRowsOf` | crates/code-search/src/matrix.rs:108-143 | Copying a row range between matrices appends exactly those vectors |
| `Matrix.EmbeddingMatrix.ExtendRowsFrom` | crates/code-search/src/matrix.rs:108-143 | In-place extension equals the specification on values, and an error leaves the matrix unchanged |
| `Cache.EncodeInjective` | crates/code-search/src/cache.rs:297-305 | Different row values have different little-endian sidecar bytes |
| `Cache.SidecarBytes` | crates/code-search/src/cache.rs:297-305 | Bytes 4i to 4i+3 of the sidecar are the base-256 digits of the bits of value i, the lowest first |
| `Cache.MatchesIff` | crates/code-search/src/cache.rs:100-118 | A payload is accepted with a matrix exactly when it has cache version 5 and chunker version 2, states its shape and digest, and every record has one row per chunk inside it |
| `Cache.ReadEmbeddings` | crates/code-search/src/cache.rs:270-295 | Returns a matrix exactly when length, digest and shape of the sidecar agree with the metadata |
| `Cache.LoadPayload` | crates/code-search/src/cache.rs:211-222 | Returns the one pair the two files determine, and nothing if any check fails |
| `Cache.CacheFiles.SavePayload` | crates/code-search/src/cache.rs:229-245 | A refused save changes nothing; an accepted one writes the sidecar value by value and then the metadata, and every intermediate disk state is one a crash may leave |
| `Cache.SaveThenLoad` | crates/code-search/src/cache.rs:211-245 | A completed save is loaded back as exactly the saved metadata and matrix |
| `Cache.SaveKeepsWritten` | crates/code-search/src/cache.rs:229-245 | However a save is interrupted, the disk stays explained by the saves attempted |
| `Cache.LoadReturnsASavedPair` | crates/code-search/src/cache.rs:224-245 | Whatever the sequence of completed and torn saves, a load returns nothing or a metadata and matrix pair that one save was given together |
| `SearchIndexes.FromCached` | crates/code-search/src/index.rs:82-109 | The flattening loop equals its specification on every input, including the consistency errors of lines 290 to 319 |
| `SearchIndexes.FlattenFaithful` | crates/code-search/src/index.rs:82-109 | Flattening faithful records never fails and gives their chunks in order with one vector each |
| `SearchIndexes.RowIsChunkEmbedding` | crates/code-search/src/index.rs:82-109 | Row i is the embedding of chunk i, and there are as many rows as chunks |
| `SearchIndexes.FaithfulCacheLoads` | crates/code-search/src/index.rs:82-109 | A faithful cache loads as the index of its own manifest |
| `SearchIndexes.IdealManifests` | crates/code-search/src/files.rs:106-107 | The manifest of a refreshed index is the path-sorted list of input manifests |
| `Types.PathLessIff` | crates/code-search/src/files.rs:106-107 | Paths are ordered by their first differing component, or by the end of one |
| `SearchIndexes.RefreshThenLoad` | crates/code-search/src/service.rs:201-218 | Refreshing and loading gives the index of exactly the files walked |
| `Service.PruneWarmIndexes` | crates/code-search/src/service.rs:307-323 | Keeps at most 8 entries, drops exactly the excess, and every dropped entry was used no later than every kept one |
| `Service.TrustedSave` | crates/code-search/src/service.rs:208-208 | Saving a faithful image keeps the disk trusted wherever the save stops |
| `Service.TrustedLoads` | crates/code-search/src/service.rs:196-200 | A trusted disk only ever loads faithful caches |
| `Service.ReusableIff` | crates/code-search/src/service.rs:471-474 | A warm index may be reused exactly while its watcher is available and clean, for less than 30 seconds after the last manifest check |
| `Service.CodeSearchService.CleanWarmIndex` | crates/code-search/src/service.rs:239-253 | Returns the warm index exactly when its watcher is clean and its manifest check is younger than 30 seconds; only its last-used time changes |
| `Service.CodeSearchService.StoreIndex` | crates/code-search/src/service.rs:290-304 | Installs a warm state with a fresh watcher and the time of the installation, prunes to the bound, drops nothing while there is room, and records the installation |
| `Service.CodeSearchService.MatchingMemoryIndex` | crates/code-search/src/service.rs:259-287 | Succeeds exactly when the warm manifest equals the walked one, and then returns the index of that manifest and installs it again at a later clock reading |
| `Service.CodeSearchService.BuildIsIdeal` | crates/code-search/src/service.rs:195-218 | From a trusted disk the build succeeds, may be saved, and yields the index of exactly the walked files |
| `Service.CodeSearchService.Rebuild` | crates/code-search/src/service.rs:195-218 | Whatever the trusted disk holds, the refresh starts from what it loads for this key, the index is that of exactly the walked files, and the disk holds their image for this key and is otherwise unchanged |
| `Service.CodeSearchService.RebuildAgain` | crates/code-search/src/service.rs:195-218 | A rebuild after another one of the key reads again exactly the files whose manifest entry the earlier walk did not find, and gives the index of the files walked now |
| `Service.CodeSearchService.BuildOrLoad` | crates/code-search/src/service.rs:184-218 | Memory check, load, refresh, save and build together return the index of exactly the walked files, however the clock advances meanwhile; the disk changes only where memory has no equal manifest, and then holds the image of the files walked |
| `Service.CodeSearchService.Index` | crates/code-search/src/service.rs:167-182 | Every index returned is the index of the manifest walked in that call, or one installed less than 30 seconds ago with no file event since, which then lacks a change since its walk exactly when one lies between its walk and its installation |
| `Service.WalkAgeIff` | crates/code-search/src/service.rs:457-475 | The reuse guard bounds the age of the walk by the safety interval plus the time from the walk to the installation and by nothing less; so by 30 seconds if and only if the two read the same time |
| `Service.CodeSearchService.WalkOlderThanInterval` | crates/code-search/src/service.rs:457-475 | After a walk at 0 and an installation at 990 seconds, a call at 1000 seconds returns the index walked 1000 seconds earlier |
| `Service.CodeSearchService.StaleWalkIsReused` | crates/code-search/src/watch.rs:34-63 | From every state with room, the next call within 30 seconds of an installation returns that index, however old its walk and also where a change lies between walk and installation |
| `Service.CodeSearchService.FileEvent` | crates/code-search/src/watch.rs:44-64 | A file event is recorded, makes the warm index unusable without a manifest walk and touches nothing else |
| `Service.CodeSearchService.CrashDuringSave` | crates/code-search/src/service.rs:208-208 | A crash at any point of a save leaves a service state satisfying the same invariant |
| `Singleflight.StepKeepsInv` | crates/code-search/src/singleflight.rs:27-101 | Every atomic step of every caller keeps the protocol invariant |
| `Singleflight.Safety` | crates/code-search/src/singleflight.rs:27-101 | In every interleaving at most one build per key is in flight, a key is registered exactly while its leader has not unregistered it, and every returned caller has its leader's result |
| `Singleflight.FinishedGateIsNeverJoined` | crates/code-search/src/singleflight.rs:72-101 | Once its leader has returned, a gate, failed or not, is never handed to a later caller |
| `Singleflight.SomeStepIsEnabled` | crates/code-search/src/singleflight.rs:27-101 | Until all callers have returned some non-spurious step is enabled: no wake-up is lost |
| `Singleflight.RunsAreBounded` | crates/code-search/src/singleflight.rs:27-101 | A run of n callers has at most 8n steps plus two per spurious wake-up |
| `Singleflight.StepCountsWaiters` | crates/code-search/src/singleflight.rs:27-44 | The waiter counter always equals the number of callers inside `wait` |
| `SharedIndex.StepKeepsInv` | crates/code-search/src/service.rs:167-182 | Every step of concurrent calls, walks, stores, file changes, clock and pruning keeps the invariant tying results and warm indexes to walks |
| `SharedIndex.Safety` | crates/code-search/src/service.rs:167-182 | In every interleaving a builder's result is of its own later walk and lacks no change made before its call; a follower's is of its leader's own walk and can lack one only if that walk precedes the call; a reused index was installed less than 30 seconds ago and lacks one exactly when it came between walk and installation |
| `SharedIndex.MissedIff` | crates/code-search/src/service.rs:167-182 | In every run, a result whose walk precedes its call lacks a change if and only if its files changed between that walk and the call, and is older than the call by the time that passed between the two |
| `SharedIndex.ServedIff` | crates/code-search/src/service.rs:239-253 | A call is answered from memory exactly when its key is warm and clean and was installed less than 30 seconds ago, and goes to the coordinated build otherwise |
| `SharedIndex.NotServedAfter` | crates/code-search/src/service.rs:239-253 | Right after a change of its files, the pruning of its key or 30 seconds, a call goes to the coordinated build |
| `SharedIndex.WarmedByStore` | crates/code-search/src/service.rs:259-304 | Only the store after a build makes a key warm; the store of a matching memory index replaces what is warm already |
| `SharedIndex.FollowerCanMissChange` | crates/code-search/src/service.rs:175-180 | There is a run in which a follower returns and stores an index that lacks a change made before it called, and the next caller reuses it under a clean watcher |
| `Greedy.GreedyIsGrouping` | crates/code-search/src/chunking.rs:102-158 | Greedy merging groups consecutive items into admissible groups |
| `Greedy.GreedyIsMinimal` | crates/code-search/src/chunking.rs:102-158 | No admissible grouping has fewer groups than the greedy one |
| `Greedy.GreedyIsFull` | crates/code-search/src/chunking.rs:102-158 | No greedy group would admit the item after it |
| `Chunking.CountChars` | crates/code-search/src/chunking.rs:193-199 | Both counting paths give the number of decoded characters |
| `Chunking.CollectNodeRanges` | crates/code-search/src/chunking.rs:75-95 | The recursive walk appends exactly the specified ranges in source order; `CollectedIff` says which those are |
| `Chunking.CollectAllOrdered` | crates/code-search/src/chunking.rs:75-95 | For every well-formed tree the collected ranges are sorted, disjoint and nonempty |
| `Chunking.CollectedIff` | crates/code-search/src/chunking.rs:75-95 | A range is collected exactly when it is that of a nonempty node with at most 1500 characters, or without named children, or at depth 500, below no node of at most 1500 characters |
| `Chunking.LeafCollected` | crates/code-search/src/chunking.rs:75-95 | Every nonempty named leaf lies inside some collected range |
| `Chunking.JointChars` | crates/code-search/src/chunking.rs:121-125 | Both branches of the incremental count give the true character count of the joint span |
| `Chunking.MergeRanges` | crates/code-search/src/chunking.rs:102-158 | The loop with its running count yields the chunks of the merged spans, for any ranges with sorted starts |
| `Chunking.MergeIsGreedy` | crates/code-search/src/chunking.rs:115-144 | On ordered ranges merging is greedy grouping under the 1500-character bound |
| `Chunking.AstSpansAreBest` | crates/code-search/src/chunking.rs:44-158 | For every well-formed tree the spans are sorted and disjoint, each one collected range or at most 1500 characters, minimal in number, and every named leaf lies in exactly one |
| `Chunking.SpanSizes` | crates/code-search/src/chunking.rs:44-158 | A span of more than 1500 characters is a single node that is childless or at depth 500, and two neighbouring spans together always have more than 1500 |
| `Chunking.ChunkByAst` | crates/code-search/src/chunking.rs:44-66 | Collecting, sorting and merging produce the chunks of those spans |
| `Chunking.LineStartOffsets` | crates/code-search/src/chunking.rs:183-191 | The loop lists offset 0 and the offset after each newline |
| `Chunking.PartitionPoint` | crates/code-search/src/chunking.rs:269-272 | Binary search finds how many line starts are not beyond an offset |
| `Chunking.ByteToLine` | crates/code-search/src/chunking.rs:269-272 | The line of an offset is one plus the newlines before it, capped at the text's end |
| `Chunking.PushByteChunk` | crates/code-search/src/chunking.rs:162-181 | A blank span adds nothing; any other adds its trimmed text with the lines of its start and end |
| `Chunking.SpansShareLinesIff` | crates/code-search/src/chunking.rs:162-181 | Two spans get the same lines exactly when no newline separates their starts and none their ends, so locations may coincide |
| `Chunking.ChunkByLines` | crates/code-search/src/chunking.rs:205-242 | The line loop yields the chunks of the greedy line groups |
| `Chunking.LineChunksCover` | crates/code-search/src/chunking.rs:205-266 | Line chunks are contiguous from line 1, each the right-trimmed text of exactly its lines, one line or at most 1500 characters, and only a blank remainder is dropped |
| `Chunking.LineChunksAreBest` | crates/code-search/src/chunking.rs:205-266 | Those groups are also the fewest possible |
| `Chunking.LinesBetweenEndings` | crates/code-search/src/chunking.rs:205-213 | The lines of a text are what stands between its LF and CR LF endings, with a last line where the text does not end in one |
| `Chunking.ChunkFile` | crates/code-search/src/chunking.rs:30-38 | Tree chunks when there are any, line chunks otherwise |
| `Location.WriteDecimal` | crates/code-search/src/types.rs:120-140 | Printing into the 32-byte buffer from the last digit gives the decimal text, at most 20 digits for 64-bit values |
| `Location.DecimalIsNumber` | crates/code-search/src/types.rs:119-140 | The decimal text read back is the number, all digits, without a leading zero but for zero itself |
| `Location.LocationTextIs` | crates/code-search/src/types.rs:73-85 | The location text is the path with every backslash a slash, a colon, the first line, a dash and the last line |
| `Types.TextLessIff` | crates/code-search/src/types.rs:88-94 | A text is less than another when it ends first or has the smaller character where they first differ |
| `Location.CmpDecimalTextWithSuffix` | crates/code-search/src/types.rs:119-151 | Compares the decimal texts with their suffix |
| `Location.CmpNormalizedPathWithSuffix` | crates/code-search/src/types.rs:97-116 | Stepping both character streams compares the normalized paths with their suffix lexicographically |
| `Location.CmpLocation` | crates/code-search/src/types.rs:88-94 | The comparator equals path, first line and last line compared as terminated texts |
| `Location.CompareLocationIsOrder` | crates/code-search/src/types.rs:88-94 | The comparator is a total preorder whose ties are exactly equal normalized paths and lines |
| `Location.LocationOrderIff` | crates/code-search/src/types.rs:73-94 | For two paths it orders like the `location()` texts for all 64-bit line numbers if and only if, where one path and its colon begin the other, what follows is above every line range: after fewer than nineteen nines a character above the digits, after nineteen one above the dash, or the dash and then nineteen nines or, after fewer, a character above the digits |
| `Location.ColonFreePathsAgree` | crates/code-search/src/types.rs:73-94 | For paths without a colon it always orders like the `location()` texts |
| `Location.ColonPathDisagrees` | crates/code-search/src/types.rs:87-88 | The documented equality with `location()` order fails for paths `a` and `a:/b` |
| `Ranking.CollectContexts` | crates/code-search/src/ranking.rs:78-84 | Whatever order the map yields, the contexts list every indexed candidate once |
| `Ranking.CountFiles` | crates/code-search/src/ranking.rs:85-89 | The file counts are the multiplicities of the paths |
| `Ranking.UniqueFilesNeedNoBoost` | crates/code-search/src/ranking.rs:115-126 | Where a file has one candidate, boosting and saturating it change nothing |
| `Ranking.UniqueFileScores` | crates/code-search/src/ranking.rs:115-126 | The fast path gives the boosted and saturated values of the general path |
| `Ranking.SeenIsAhead` | crates/code-search/src/ranking.rs:143-161 | The running per-file counter is the number of candidates of the file that come before in score-then-id order |
| `Ranking.Saturate` | crates/code-search/src/ranking.rs:150-161 | The loop gives every candidate its saturated value |
| `Ranking.SaturationRanksFile` | crates/code-search/src/ranking.rs:150-161 | Within a file the saturation counts are distinct, below the file's candidate count, and ordered as the candidates |
| `Ranking.CandidateIs` | crates/code-search/src/ranking.rs:78-84 | A candidate carries the score and the chunk of its id, and its chunk's path with every backslash a slash |
| `Ranking.FinalIs` | crates/code-search/src/ranking.rs:101-161 | A candidate's score is its fused score with 8 percent for each further candidate of its file up to three, adjusted by the query, over 1 plus 0.2 for each candidate ahead in its file |
| `Ranking.AheadIff` | crates/code-search/src/ranking.rs:143-148 | Ahead in a file is the higher boosted score, and of equal ones the smaller id |
| `Selection.SortTop` | crates/code-search/src/ranking.rs:170-177 | Sorting the selected part in place and truncating gives what the function of the selection routine says |
| `Selection.ResultLeIff` | crates/code-search/src/ranking.rs:164-169 | A result may stand before another exactly when its score is higher, or equal with a location not after the other's |
| `Selection.TopOfIsBest` | crates/code-search/src/ranking.rs:170-177 | With any selection routine the results are sorted, as many as asked for or available, and no better one is left out |
| `Selection.SelectionAgreesIff` | crates/code-search/src/ranking.rs:170-174 | Selecting, then sorting the selected part, is the beginning of the full sort for every selection routine if and only if none of the first `k` sorted results ties with a different later one |
| `Ranking.BoostOrderIsFixed` | crates/code-search/src/ranking.rs:136-141 | Whatever order the map yields, sorting the candidates by score and id gives one fixed list |
| `Ranking.Rerank` | crates/code-search/src/ranking.rs:68-184 | For every iteration order of the score map, on the fast path as on the general one, the result is what selecting and sorting makes of one fixed list, also where chunks share a location |
| `Ranking.RankedAreBest` | crates/code-search/src/ranking.rs:170-184 | The result is sorted, as long as asked for or available, and no better candidate is left out |
| `Ranking.SaturationBreaksTies` | crates/code-search/src/ranking.rs:143-161 | With positive scores no two candidates of a file end with the same score, and their final scores are ordered as the boosted ones |
| `Ranking.PositiveTiesAgree` | crates/code-search/src/ranking.rs:164-169 | With positive scores only equal results can tie, also where chunks share a location |
| `Ranking.RankedIsTop` | crates/code-search/src/ranking.rs:170-177 | With positive scores the result is the beginning of the full sort, whatever the selection routine does |
| `Ranking.HigherScoreFirst` | crates/code-search/src/ranking.rs:164-177 | No result stands before, or is returned without, a candidate of higher score |
| `Fusion.AddChannel` | crates/code-search/src/ranking.rs:39-44 | One fusion loop adds each id's reciprocal-rank contribution to its score |
| `Fusion.FusedIsWeighted` | crates/code-search/src/ranking.rs:39-61 | The fused score of a chunk at rank i in the semantic and j in the sparse channel is 0.3/(61+i) + 0.7/(61+j) for a symbol query and 0.5/(61+i) + 0.5/(61+j) for any other, a missing channel giving nothing |
| `Fusion.FusionRespectsAgreement` | crates/code-search/src/ranking.rs:39-61 | A chunk ranked above another by both channels gets the higher fused score |
| `Fusion.PathKeywordBoost` | crates/code-search/src/ranking.rs:226-237 | The loop adds 0.05 for each term the path contains, capped at 1.25 in all |
| `Fusion.KeywordOrder` | crates/code-search/src/ranking.rs:226-237 | Another matching term never lowers the keyword boost and raises it until five match |
| `Fusion.PenaltyIs` | crates/code-search/src/ranking.rs:243-275 | The penalty is the product of 0.82 for tests, 0.88 for examples and docs, 0.78 for legacy code and 0.75 for glue files, told by the path's directory components and its name |
| `Fusion.PenaltyIff` | crates/code-search/src/ranking.rs:243-275 | A path is penalized exactly when it bears one of those marks, and then by at least 12 percent |
| `Fusion.PenaltyPositive` | crates/code-search/src/ranking.rs:243-275 | The up to four penalties never reduce a score to zero |
| `Fusion.ScorePositive` | crates/code-search/src/ranking.rs:101-114 | The query's multipliers keep a positive score positive |
| `Fusion.FusedPositive` | crates/code-search/src/ranking.rs:39-44 | Every fused score is positive, and stays so under the multipliers |
| `Fusion.BetterEndsHigher` | crates/code-search/src/ranking.rs:68-161 | A candidate at least as good in fused score, file count up to four and multipliers, and better in one of them, ends above another of its file and, being the best of its file, above any of another |
| `Fusion.SignalsEndHigher` | crates/code-search/src/ranking.rs:101-114 | All else equal, a chunk defining the queried symbol ends above one that does not, an unmarked path above a marked one, and, below five, one with more query terms in its path above one with fewer |
| `Fusion.SymbolQueriesPreferWords` | crates/code-search/src/ranking.rs:29-61 | Of two single-candidate chunks at equal rank in one channel each, with equal multipliers, a symbol query scores the sparse one higher and any other query both the same |
| `Fusion.RankSearch` | crates/code-search/src/ranking.rs:29-51 | Over-fetching, fusing and reranking give the first `top_k` of the fully sorted final scores, for every index, map order and selection routine |
| `SemanticSearch.Search` | crates/code-search/src/index.rs:149-194 | Sorted hits with exact scores, at most the limit, each an approximate candidate of an unfiltered search or an allowed chunk of a scan; one is missing only when the limit is reached by better ones |
| `SemanticSearch.HitLeIff` | crates/code-search/src/index.rs:186-191 | A hit may stand before another exactly when its score is higher, or equal with an id no larger |
| `SemanticSearch.BestHitsUnique` | crates/code-search/src/index.rs:146-194 | There is exactly one such answer |
| `SemanticSearch.FullRecallIsExact` | crates/code-search/src/index.rs:156-170 | Approximate candidates with full recall give the exact result |
| `SemanticSearch.RelatedByEmbedding` | crates/code-search/src/index.rs:221-273 | The best `limit` related chunks in order: the beginning of the full sort, or, for equal scores and too many chunks, what selecting and sorting gives; nothing for a source without chunk or row. Related is every allowed chunk of the language with a positive score, once, and no other |
| `SemanticSearch.RelatedRows` | crates/code-search/src/index.rs:233-244 | The related rows are listed once each, in increasing order, and are exactly the other allowed rows of the source's language with a positive score |
| `SemanticSearch.RelatedSelectionIff` | crates/code-search/src/index.rs:255-262 | For equal scores the selection agrees with the full sort, for every limit and selection routine, if and only if no two different related chunks share a location |
| `SemanticSearch.RelatedMembers` | crates/code-search/src/index.rs:233-244 | Related chunks are other allowed chunks of the source's language with a positive exact score |
| `PathFilters.LowerIs` | crates/code-search/src/types.rs:321-336 | Lowercasing maps the letters A to Z and keeps every other character |
| `PathFilters.NormalizeFilterPath` | crates/code-search/src/types.rs:267-295 | The component loop computes the functional normal form on ASCII text |
| `PathFilters.FilterPathParts` | crates/code-search/src/types.rs:273-294 | A normal form has no empty or `.` part and no `..` after an ordinary part, and there is none exactly when no part is left |
| `PathFilters.FilterPathIdempotent` | crates/code-search/src/types.rs:267-295 | Normalizing a normal form changes nothing |
| `PathFilters.FilterLeadsToSamePlace` | crates/code-search/src/types.rs:267-295 | For every way of following components in which `..` undoes an ordinary one, and from every place, the normal form leads where its lowercased input leads |
| `PathFilters.ResolutionsFollowPaths` | crates/code-search/src/types.rs:279-290 | Plain and drive-letter resolution both are such ways |
| `PathFilters.MatchesFilterIff` | crates/code-search/src/types.rs:239-246 | Text matching is matching whole leading components |
| `PathFilters.AllowsIff` | crates/code-search/src/types.rs:226-264 | A chunk is allowed exactly when its language is listed, if any is, and some filter's components begin its path's lowercased components, if any filter is |
| `PathFilters.NormalizedFilters` | crates/code-search/src/types.rs:204-223 | The kept filters are exactly the normal forms of the inputs that have one |
| `PathFilters.FilterMeaning` | crates/code-search/src/types.rs:204-264 | Normalized filters admit exactly the chunks in a listed language, unless every language input is blank, below one of the listed paths, unless every path input reduces to nothing |
| `Tokens.SegmentsRejoin` | crates/code-search/src/tokens.rs:84-107 | The segments of a part are nonempty and concatenate back to it |
| `Tokens.PushSegments` | crates/code-search/src/tokens.rs:84-112 | The character loop pushes exactly the lowercase segments, and nothing for an undivided part under the skip |
| `Tokens.RawTokensMembers` | crates/code-search/src/tokens.rs:79-113 | Skipping an undivided part never changes the token set |
| `Tokens.SplitIdentifierTokens` | crates/code-search/src/tokens.rs:74-117 | The result is strictly increasing and holds exactly the lowercased identifiers and their segments |
| `Tokens.RawsAreWords` | crates/code-search/src/tokens.rs:76-79 | The identifiers are exactly the longest stretches of ASCII letters, digits and underscores |
| `Tokens.CapitalizedWordsRecovered` | crates/code-search/src/tokens.rs:74-117 | Words of two or more lowercase letters written together with capitals are all tokens, first word capitalized or not |
| `Tokens.AcronymsRecovered` | crates/code-search/src/tokens.rs:91-107 | An acronym followed by a capitalized word gives both as tokens, also behind a first lowercase word |
| `Tokens.UnderscoredWordsRecovered` | crates/code-search/src/tokens.rs:74-117 | Words joined by underscores are all tokens |
| `Tokens.SpacedWordsRecovered` | crates/code-search/src/tokens.rs:74-117 | Words separated by spaces are all tokens |
| `Tokens.QueryTerms` | crates/code-search/src/tokens.rs:46-50 | Query terms are the tokens longer than two characters |
| `Tokens.EnrichForBm25` | crates/code-search/src/tokens.rs:15-41 | With the four-slot ring the document gets its content, the stem twice and the nearest directories of the path, at most three, in order |
| `Utf8.ScanMeaning` | crates/client/src/acp_terminal.rs:295-318 | Byte-level decoding finds exactly the well-formed sequences of section 4 of RFC 3629, and calls incomplete exactly their proper prefixes |
| `Utf8.LossyIs` | crates/client/src/acp_terminal.rs:244-245 | Lossy decoding keeps every well-formed character and replaces, where there is none, the maximal subpart of section 3.9 of the Unicode Standard by the bytes EF BF BD |
| `Utf8.LossyOfValid` | crates/client/src/acp_terminal.rs:244-245 | Lossy decoding leaves valid text unchanged |
| `Utf8.LossyIsValid` | crates/client/src/acp_terminal.rs:244-245 | Lossy decoding always gives valid text |
| `Terminal.TakeTerminalUtf8Chunks` | crates/client/src/acp_terminal.rs:291-327 | The drain loop emits valid pieces that join to the decoded text and keeps exactly the incomplete rest |
| `Terminal.DecodeThenFlush` | crates/client/src/acp_terminal.rs:213-256 | Emitted text plus the flushed rest is the lossy decoding, and at most 3 bytes are held back |
| `Terminal.DecodeResumes` | crates/client/src/acp_terminal.rs:227-241 | Decoding may stop anywhere and resume with the held bytes |
| `Terminal.EverySplitDecodesAlike` | crates/client/src/acp_terminal.rs:213-256 | At any point of a stream, whatever was seen and however the rest is split, text emitted before and after join to the one-shot lossy decoding |
| `Terminal.StreamingEqualsOneShot` | crates/client/src/acp_terminal.rs:213-256 | From an empty start, the deltas of any split of a stream join to the lossy decoding of the whole stream |
| `Terminal.ReadTerminalOutput` | crates/client/src/acp_terminal.rs:213-256 | The reader loop emits and appends exactly the lossy decoding of the stream up to its end or failure |
| `Terminal.TruncateFromStart` | crates/client/src/acp_terminal.rs:329-344 | Cuts to the longest character-aligned suffix within the limit and reports exactly whether the text was too long |
| `Terminal.TailIsLongest` | crates/client/src/acp_terminal.rs:329-344 | The kept tail is the longest suffix on a character boundary that fits |
| `Terminal.TailAbsorbs` | crates/client/src/acp_terminal.rs:279-289 | Trimming early loses nothing: the tail of a trimmed buffer plus new text is the tail of everything |
| `Terminal.AcpTerminal.Append` | crates/client/src/acp_terminal.rs:279-289 | After an append the buffer is the tail of all text ever appended, and the flag says whether that text exceeds the limit |
| `Terminal.AppendsKeepLongestTail` | crates/client/src/acp_terminal.rs:279-289 | After any sequence of appends the buffer is the tail of their concatenation |
| `Routing.StepKeepsInv` | crates/client/src/client_core.rs:334-370 | Every step of calls, detached prompts, deliveries and reader shutdown keeps the routing invariant |
| `Routing.Safety` | crates/client/src/client_core.rs:334-370 | In every interleaving ids are distinct, an ended call left no pending id, an answer was delivered, bears the call's number as its id and has no method, and a detached prompt's start precedes its at most one completion |
| `Routing.ResolvedOnce` | crates/client/src/client_core.rs:865-877 | A resolved id is never resolved again |
| `Routing.DeliveryIff` | crates/client/src/client_core.rs:739-765 | A payload changes the routing state exactly when it has no method and a pending number as its id, and then fills that slot and nothing else; a server request is never taken for a response, whatever its id |
| `Routing.DuplicateIsIgnored` | crates/client/src/client_core.rs:865-877 | Once a response has been delivered, delivering it again changes nothing at any later point of any run |
| `Routing.EndsAsItWent` | crates/client/src/client_core.rs:347-364 | In every run an ended call was unsent exactly when its write failed, timed out exactly when its wait did, answered only by a delivered payload, and lost only after the reader stopped |
| `Routing.BlockedIff` | crates/client/src/client_core.rs:348-364 | A call that has not ended can take a step, except a detached prompt whose id is pending |
| `Routing.StepsAreBounded` | crates/client/src/client_core.rs:334-370 | Every own step brings a call nearer its end and no other step sets it back |
| `Routing.RunKeepsTiming` | crates/client/src/client_core.rs:768-780 | Whether a call registered before reader shutdown is settled by the shutdown and never changes in any further run |
| `Routing.CompletionIff` | crates/client/src/client_core.rs:675-780 | In every run with a reader shutdown an announced detached prompt can still be completed if and only if it had registered before the reader stopped, and one that had can always take its next step until it has ended |
| `Routing.PromptAfterShutdownStrands` | crates/client/src/client_core.rs:675-733 | There is a run that starts a prompt after reader shutdown, announces it and can never complete it |
| `SessionList.ListSessions` | crates/client/src/client_core.rs:280-323 | Returns all sessions of a complete listing and fails exactly on a failed page or a repeated cursor; each request passes the last cursor, with at most one request more than cursors |
| `SessionList.OneEnd` | crates/client/src/client_core.rs:289-321 | A listing is complete at one page or broken at one page, never both |
| `Permissions.AnswerIsOffered` | crates/client/src/acp_permissions.rs:232-280 | A selected option was offered on the chosen side, of the preferred kind if offered, and nothing is selected exactly when that side offers no known kind |
| `Permissions.AnswerIs` | crates/client/src/acp_permissions.rs:246-280 | Approving for the session takes the first `allow_always`, or else the first `allow_once`; approving otherwise the reverse; denying does the same with the two `reject` kinds; cancelling, or where neither is offered, selects nothing |
| `Permissions.NumberedIff` | crates/client/src/acp_permissions.rs:62-67 | A request may become a prompt exactly when it lists its options and one of their kinds begins with `allow`, and is rejected otherwise |
| `Permissions.ApprovalSelectsIff` | crates/client/src/acp_permissions.rs:62-67 | A prompt that passed the check can be approved with a selection if and only if it offers one of the two known allowing kinds |
| `Permissions.UnknownAllowKindIsCancelled` | crates/client/src/acp_permissions.rs:62-67 | Approving a prompt whose only kind merely starts with `allow` answers `cancelled` |
| `Permissions.StepKeepsInv` | crates/client/src/acp_permissions.rs:47-104 | Every step, an answer to a prompt not yet shown included, keeps the prompt invariant with its history |
| `Permissions.Safety` | crates/client/src/acp_permissions.rs:47-104 | In every interleaving a shown prompt is answered at most once and by the user's decision, a selected option was offered on the side of that decision, no pending prompt has been answered, and a request gets a second response if and only if it was answered before it was shown, the client was then gone, and the rejection was written |
| `Permissions.SecondAnswerChangesNothing` | crates/client/src/acp_permissions.rs:92-104 | Once a prompt has been answered, a further answer changes nothing at any later point of any run |
| `Permissions.EarlyAnswerCanDouble` | crates/client/src/acp_permissions.rs:80-90 | There is a run that answers a prompt before it is shown and writes two responses to its request |
| `ContextBudget.Assemble` | crates/core/src/context_pipeline.rs:58-173 | Pushes the entries in the documented order and estimates exactly the instruction text |
| `ContextBudget.AssembledIs` | crates/core/src/context_pipeline.rs:58-150 | The entries are the base instruction, then exactly what the turn has of the eight middle kinds in the documented order, then the current input |
| `ContextBudget.BuildMessages` | crates/core/src/context_pipeline.rs:418-456 | One message per instruction and per transcript item found, in entry order, with truncations counted |
| `ContextBudget.RolesAre` | crates/core/src/context_pipeline.rs:421-445 | The base instruction becomes a system message, memory, goal, change and skill text developer messages, and every other instruction a user message |
| `ContextBudget.FoundIs` | crates/core/src/context_pipeline.rs:436-439 | The content of a transcript entry is that of the first item with its turn and item |
| `ContextBudget.TokenCounts` | crates/core/src/context_pipeline.rs:519-540 | Tokens are text length over four, rounded down part by part, and other parts count nothing |
| `ContextBudget.FitBudget` | crates/core/src/context_pipeline.rs:458-490 | Drops the least permitted number of oldest other messages that fits; on failure no further drop was permitted and the reported estimate is over budget |
| `ContextBudget.Normalize` | crates/core/src/context_pipeline.rs:407-491 | Both passes together, in terms of the messages of the entries |
| `ContextBudget.KeepAfterMeaning` | crates/core/src/context_pipeline.rs:463-480 | System messages survive in order and the other survivors are a suffix |
| `ContextBudget.FitsIff` | crates/core/src/context_pipeline.rs:463-487 | Some permitted number of drops fits exactly when the largest one does |
| `ContextBudget.SomeOtherSurvivesIff` | crates/core/src/context_pipeline.rs:463-480 | Some message besides the system messages survives all permitted drops if and only if the reserve is at least the number of system messages |
| `ContextBudget.NoReserveDropsInput` | crates/core/src/context_pipeline.rs:463-480 | Without a reserve the current input itself can be dropped |
| `ContextBudget.BaseAndInputSurvive` | crates/core/src/context_pipeline.rs:58-491 | With a reserve, an assembled and normalized context begins with the base instruction and ends with the current input |
| `ContextBudget.EstimatesAgree` | crates/core/src/context_pipeline.rs:152-160 | The normalizer starts from the assembler's estimate plus the transcript's tokens |
| `ContextBudget.TruncationBoundIff` | crates/core/src/context_pipeline.rs:501-513 | The result of truncating meets the size bound if and only if the item does, and is shorter exactly when the item exceeds the bound by more than the notice |
| `ContextBudget.TruncatedIs` | crates/core/src/context_pipeline.rs:501-513 | Content within the bound is unchanged; longer content is its first `max_chars` characters and a notice naming the bound |
| `ContextBudget.TruncatedItemExceedsBound` | crates/core/src/context_pipeline.rs:501-513 | An item of five characters truncated to four ends longer than both |
| `ContextBudget.ItemsBoundedIff` | crates/core/src/context_pipeline.rs:418-456 | The messages of transcript items meet the size bound if and only if the items themselves do |

## Left out

- HNSW, BM25, tree-sitter, model2vec and serde internals: libraries; they appear as arbitrary candidate lists, well-formed trees, a pointwise provider and a document decoder.
- Floating-point rounding, NaN and the cosine formula: ranking scores are reals and a cosine is a function of the row. Rounding may tie scores that reals separate; `Selection.SelectionAgreesIff` says what selection does with ties.
- `contains_symbol_definition` and `is_symbol_query`: an arbitrary predicate of the chunk and a flag of the query.
- `sparse_search`: filtering what BM25 returns.
- Directory walking, ignore rules, notify watchers and I/O errors of the cache directory: a walk and a file event are parameters.
- Mutex poisoning, panics inside builds and dropped request futures: outside the protocol models.
- Unicode lowercasing and trimming: filters and the paths that scoring looks at are ASCII, and trimming is a function the chunker and filters are given, with blank text trimmed to nothing.
- Truncation of non-ASCII transcript items: the source cuts at a byte index; transcript text is ASCII here.
- Overflow of 64-bit counters and of row products: the range check that catches the overflow of `extend_rows_from` gives the same error, and request ids and sizes are unbounded otherwise; decimal printing and the candidate limit do model the 64-bit range.
- Parallel reading of pending files: only the order of the results is kept, which the source restores.
- Singleflight.RunsAreBounded: spurious wake-ups are counted, not bounded, because the condition variable allows any number.
- Service.CodeSearchService.Index: file events fall between calls or at one point between walk and store, and calls run one at a time; concurrent calls are the subject of `SharedIndex`.
- SharedIndex.Safety: one walk, one watcher start or one store is an atomic step, an index is known by its walk and files by the number of their changes, and pruning may drop any entry; the contents are the subject of `Service`.
- Terminal.ReadTerminalOutput: one reader; two readers sharing a terminal interleave appends, which `AppendsKeepLongestTail` covers in any order.
- Routing.Safety: ids are unbounded, so the wrap-around of the 64-bit id counter is not modelled; JSON values are reduced to their id, method and payload.
- SessionList.ListSessions: decoding of session metadata counts as a failed request, and the cursors a server can name are finitely many.
- Compaction (`evaluate`, `emergency_evaluate`), `needs_index_build`, `validate_top_k`, `is_symbol_query`, `find_source_chunk`: single conditions without a property beyond their bodies.
- CLI, auth, self-upgrade, alias dispatch, configuration, provider settings, transports and user interfaces: wiring.
