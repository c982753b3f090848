# Verified model of the federated MLOps stack's algorithmic core

A Dafny 4.11 model of the parts of this repository that hold a protocol, a graph walk, an
encoding or a canonical form, with proofs of what they promise. `dafny verify dfyconfig.toml`
checks everything.

| module | what it models |
|---|---|
| `BatcherProtocol` | the offline-write batcher as a concurrent protocol: one step per locked region, one per store push, a program counter per thread |
| `BatcherRuns`, `BatcherShutdown`, `BatcherProgress` | its runs: when a shutdown writes everything, and why nothing is ever stuck |
| `OfflineWriteBatching` | the batcher's class and its methods; every call is proved to be a run of the protocol |
| `MessageRateLimit` | the message-rate window of the chat websocket |
| `FeatureViews`, `FeatureViewSerialisation`, `FeatureViewRoundTrip`, `FeatureViewSources` | the graph of feature views: the memoised walks of `to_proto` and `from_proto`, their round trip, and the walk that resolves a data source |
| `DocumentChunker` | the overlapping-window chunking loop of the ingestion pipeline |
| `ArrowConversion`, `ArrowRoundTrip` | columns of feature values as Arrow arrays and back |
| `TransparencyLog` | the hash-chained audit log |
| `EtlTransform` | deduplication, median imputation and min-max scaling of the raw table |
| `OlIdentity`, `SpelledIdentities`, `CanonicalIdentities`, `DatasetRegistry` | the OpenLineage identity of a source, what it is for each form of source text, when it is canonical, and the registry keyed by it |
| `JsonPatch`, `AdmissionWebhook` | JSON Patch `add` (section 4.1 of RFC 6902) over JSON Pointers (section 3 of RFC 6901), and the two patches the admission webhook answers with |
| `JobNaming`, `SlashPaths` | sanitised, hierarchical job names |
| `Outcomes`, `Decimals`, `PythonStrings` | small shared definitions |

Main results:

- In every reachable state of the batcher, under any interleaving and with pushes that succeed or
  raise, the frames written for a key, then its in-flight batch, then its buffer are exactly the
  frames enqueued, in order. Pushes of one key never overlap. No size trigger is lost. And nothing
  is ever stuck: from every reachable state some run without another enqueue leaves every thread
  idle, every buffer empty and every frame written; until the server is shut down the timer alone
  brings that about, on a clock that never goes back.
- A shutdown writes everything, whatever the other threads do meanwhile, if and only if, before the
  call, no other thread has unwritten frames in hand or can still come by some.
- `to_proto` raises if and only if a cycle can be reached, and otherwise the memo makes no
  difference. `from_proto(to_proto(v))` raises exactly when a cycle or a view the constructor
  refuses can be reached; a view comes back with everything but the stated losses exactly when its
  batch source is not itself a stream source.
- Encoding and decoding a column brings back exactly the values of the column's type (and the empty
  values of a scalar column).
- Two audit logs with the same last hash have the same payloads, unless two of their own entries
  collide or one hashes to genesis. An append to any file adds a readable, linked record if and only
  if the file ends in a newline and the head that is read is that of the last readable record.
- Every chunk of a document is the text of its window without the white space at its ends; the
  windows end where the delimiters say, lose no character, and overlap exactly as asked for.
- The identity of `scheme://user@host:port/path?query#fragment` is the scheme, host and port as
  written, and the path.
- The identity of a source is canonical if and only if its scheme is not jdbc and its name is
  neither empty nor ends in white space; this is proved for every source whose authority holds no
  white space, semicolon or bracket, whatever else it looks like, and once more as a condition on
  the source text.

Where the code and an expectation about it part, the model follows the code:

- `shutdown` can leave a frame unwritten when the flusher is in the middle of a push (`BatcherShutdown.ShutdownWritesAllIff` says exactly when, `ShutdownCanStrandFrames` shows the case).
- A torn last line swallows the next audit record, and the one after it restarts the chain (`TransparencyLog.TornLineLosesNextRecord`); when only the newline is missing, the last record is lost with the new one (`TransparencyLog.MissingNewlineLosesTwoRecords`). `TransparencyLog.AppendAddsIff` is the exact condition.
- A view whose batch source is a stream source comes back with another batch source (`FeatureViewRoundTrip.RebuiltIsNormalised`; `NestedPushSourceIsLost` is a case).
- The Arrow decoder takes the first list to start at 0 whatever the offsets say (`ArrowConversion.RowsAreMeantIff`).
- An Arrow column of nulls only comes back with the length of the caller's row count (`ArrowRoundTrip.EncodeAndDecode`).
- A registry source in another spelling of a known identity fails on the unique key instead of being reported as a conflict (`DatasetRegistry.OtherSpellingFails`; `UpperAndLowerBucket` is a case).
- With an empty default region, the namespace patch is answered again and again (`AdmissionWebhook.SecondCallIsQuiet`).
- The lineage patch does not append when a pod's `initContainers` or `volumes` is a non-empty value other than a list (`AdmissionWebhook.CreateLineagePatch`).

Assumptions: a store push is all or nothing and `concat` does not raise; the clock of the websocket
does not go back, while the clock the batcher reads may; view names are unique and every source view is in the graph; hex digests hold no
bar. The hash is an arbitrary function: instead of assuming it injective, the log theorem names the
collision that is its only exception. A line of the log that holds a complete record after other
text is not JSON, since a JSON text ends with its first value. Clocks, fresh ids, sampled schemas and the outcome of pushes are
parameters.

## Model

| member | source | states |
|---|---|---|
| BatcherProtocol.StepKeepsInv | feast/sdk/python/feast/feature_server.py:870-1006 | every locked region and every push outcome keeps, for every key, exclusion, conservation and the size trigger |
| BatcherProtocol.RunKeepsInv | feast/sdk/python/feast/feature_server.py:814-1012 | the invariant holds after any run from a state that has it |
| BatcherProtocol.ReachableInv | feast/sdk/python/feast/feature_server.py:814-1012 | the invariant holds in every reachable state, for any number of threads |
| BatcherProtocol.PushesOfAKeyNeverOverlap | feast/sdk/python/feast/feature_server.py:953-962 | a key is in flight exactly when one thread, and only one, holds a drained, non-empty batch for it |
| BatcherProtocol.NothingLostDuplicatedOrReordered | feast/sdk/python/feast/feature_server.py:949-1003 | written frames, then the unresolved batch, then the buffer are the enqueued frames, in enqueue order |
| BatcherProtocol.NoRowLost | feast/sdk/python/feast/feature_server.py:976-988 | the same balance in rows, with each push writing one concatenated frame |
| BatcherProtocol.RowCountIsRows | feast/sdk/python/feast/feature_server.py:871-873 | the number compared with the batch size is the number of rows of all the buffered frames put together |
| BatcherProtocol.NoSizeTriggerLost | feast/sdk/python/feast/feature_server.py:870-882 | a buffer whose concatenated frames have at least as many rows as the batch size is in flight, about to be drained, or was put back by the key's latest push |
| BatcherProtocol.QuietStates | feast/sdk/python/feast/feature_server.py:968-1006 | when all threads rest, nothing is in flight and only a key whose latest push raised may hold as many rows as the batch size |
| BatcherRuns.ThreadFinishes | feast/sdk/python/feast/feature_server.py:964-1012 | any busy thread can run to its end by itself, without another enqueue, whether its pushes succeed or raise |
| BatcherShutdown.UndisturbedCallWritesAll | feast/sdk/python/feast/feature_server.py:884-908 | if no other thread can take frames, every run of a shutdown or flush_all whose own pushes succeed writes everything by the time all threads rest, with at most one push per key, whatever the others do |
| BatcherShutdown.DisturbedShutdown | feast/sdk/python/feast/feature_server.py:893-908 | if another thread can, some run of the shutdown, its own pushes succeeding, ends with frames unwritten |
| BatcherShutdown.ShutdownWritesAllIff | feast/sdk/python/feast/feature_server.py:893-908 | from every reachable state: all runs of the shutdown write everything if and only if before the call no other thread holds, drains, is to drain, or can still scan or snapshot a key with unwritten frames |
| BatcherShutdown.ShutdownCanFinish | feast/sdk/python/feast/feature_server.py:893-908 | there always is such a run |
| BatcherShutdown.ShutdownCanStrandFrames | feast/sdk/python/feast/feature_server.py:898-906 | a concrete case: the flusher is still pushing when the join times out, then its push raises, and the frame stays in the buffer |
| BatcherProgress.FlushAllEmpties | feast/sdk/python/feast/feature_server.py:884-891 | with everybody at rest, every flush_all whose pushes succeed has emptied every buffer when it returns, with at most one push per key |
| BatcherProgress.FlushAllEnds | feast/sdk/python/feast/feature_server.py:884-891 | and it can return |
| BatcherProgress.EveryFrameCanStillBeWritten | feast/sdk/python/feast/feature_server.py:814-1012 | from every reachable state some run without another enqueue ends with every thread idle, every buffer empty and every frame written in order |
| BatcherProgress.TimerAloneSuffices | feast/sdk/python/feast/feature_server.py:912-947 | from every reachable state that is not stopped, whatever time it is, some run without any call and on a clock that never goes back writes everything |
| OfflineWriteBatching.FlushKeysEffect | feast/sdk/python/feast/feature_server.py:884-891 | flushing distinct keys pushes whole, non-empty buffers, at most one push a key, leaves other keys alone, and leaves nothing of these keys if no push raises |
| OfflineWriteBatching.OfflineWriteBatcher.constructor | feast/sdk/python/feast/feature_server.py:824-838 | a new batcher is in the initial state of the protocol |
| OfflineWriteBatching.OfflineWriteBatcher.DrainLocked | feast/sdk/python/feast/feature_server.py:949-962 | nothing for a key in flight or without frames, else the whole buffer, emptied and marked; exactly the protocol's drain step |
| OfflineWriteBatching.OfflineWriteBatcher.PutBackLocked | feast/sdk/python/feast/feature_server.py:988-992 | a failed batch goes back in front of what came in meanwhile; exactly the protocol's step |
| OfflineWriteBatching.OfflineWriteBatcher.CommitLocked | feast/sdk/python/feast/feature_server.py:1000-1004 | the key is released and stamped with a reading of the clock, and asked for again exactly when what came in meanwhile has the batch size in rows; exactly the protocol's step |
| OfflineWriteBatching.OfflineWriteBatcher.PushBatch | feast/sdk/python/feast/feature_server.py:976-1004 | one store call with the concatenated batch, and the two outcomes |
| OfflineWriteBatching.OfflineWriteBatcher.Flush | feast/sdk/python/feast/feature_server.py:964-1012 | the loop ends, whatever the batch size, after at most one push of the whole buffer, and is a run of the protocol |
| OfflineWriteBatching.OfflineWriteBatcher.Enqueue | feast/sdk/python/feast/feature_server.py:853-882 | the frame is buffered, and the key flushed exactly when the rows of its buffered frames, this one among them, reach the batch size |
| OfflineWriteBatching.OfflineWriteBatcher.FlushAll | feast/sdk/python/feast/feature_server.py:884-891 | one flush per buffered key; if no push raises, every buffer is empty and the written frames are those enqueued |
| OfflineWriteBatching.OfflineWriteBatcher.Shutdown | feast/sdk/python/feast/feature_server.py:893-908 | the flusher is stopped, then the same promise as flush_all, nothing else being in flight |
| OfflineWriteBatching.OfflineWriteBatcher.ScanKey | feast/sdk/python/feast/feature_server.py:928-942 | a key with frames and no time stamp is stamped with the next reading of the clock, and due exactly when it is old enough |
| OfflineWriteBatching.OfflineWriteBatcher.CollectDue | feast/sdk/python/feast/feature_server.py:926-942 | exactly the keys with frames whose last flush is at least the interval ago, and a reading of the clock of its own filled in for each that had none |
| OfflineWriteBatching.OfflineWriteBatcher.TimerPass | feast/sdk/python/feast/feature_server.py:923-944 | the due keys, and only those, are flushed, each once |
| OfflineWriteBatching.FinalFlush | feast/sdk/python/feast/feature_server.py:893-908 | flushing every buffered key of a resting batcher with no push raising leaves the written frames equal to the enqueued ones |
| MessageRateLimit.ServeConnection | feast/sdk/python/feast/feature_server.py:622-656 | under a clock that does not go back, the loop with its pruned list accepts and closes exactly as a limiter that remembers every accepted message, holds that history's part since 60 seconds before the last acceptance, and never accepts more than 60 messages in a minute |
| MessageRateLimit.PruneAgain | feast/sdk/python/feast/feature_server.py:638-644 | pruning the pruned list gives the accepted time stamps of the last 60 seconds, none missing |
| MessageRateLimit.AtMostSixtyPerMinute | feast/sdk/python/feast/feature_server.py:611-648 | any closed 60-second interval holds at most 60 accepted messages |
| MessageRateLimit.AcceptedIffFewRecent | feast/sdk/python/feast/feature_server.py:632-648 | on an open connection a message is accepted if and only if it has at most 4096 characters and fewer than 60 were accepted since 60 seconds before; else the connection closes for the one reason or the other |
| MessageRateLimit.OtherEventsClose | feast/sdk/python/feast/feature_server.py:624-656 | a read that times out and a disconnect close the connection and accept nothing |
| FeatureViewSerialisation.UnfoldingUnique | feast/sdk/python/feast/feature_view.py:421-458 | a view has at most one naive recursive unfolding |
| FeatureViewSerialisation.UnfoldingExcludesCycles | feast/sdk/python/feast/feature_view.py:403-413 | a view from which a cycle can be reached has none |
| FeatureViewSerialisation.ToProtoInternal | feast/sdk/python/feast/feature_view.py:403-419 | with any memo of finished and unfinished views, the unfolding or a reachable cycle; the number of unseen views is the measure |
| FeatureViewSerialisation.SourceSpecs | feast/sdk/python/feast/feature_view.py:429-433 | the specs of the source views, in order, are their unfoldings |
| FeatureViewSerialisation.ToProto | feast/sdk/python/feast/feature_view.py:394-401 | raises if and only if a cycle can be reached; else the spec is the naive unfolding, with the root's own meta |
| FeatureViewSerialisation.FromProtoInternal | feast/sdk/python/feast/feature_view.py:484-654 | the recursion over the shared dictionary is the walk by values that the round trip is about |
| FeatureViewRoundTrip.RebuiltIsNormalised | feast/sdk/python/feast/feature_view.py:186-204 | a rebuilt view differs from the original by the stated losses only, if and only if its batch source is not a stream source |
| FeatureViewRoundTrip.RebuiltComesBack | feast/sdk/python/feast/feature_view.py:500-640 | what each field comes back as: a stream source is never replaced, and a stream standing for the batch source gives way to its own batch source |
| FeatureViewRoundTrip.NestedPushSourceIsLost | feast/sdk/python/feast/feature_view.py:186-204 | a concrete case: a push source over a push source comes back with the innermost table |
| FeatureViewRoundTrip.BuildView | feast/sdk/python/feast/feature_view.py:500-525 | inside any partly built graph, building a spec yields the rebuilt view and finishes its sources, or some reachable view is refused |
| FeatureViewRoundTrip.RoundTrip | feast/sdk/python/feast/feature_view.py:480-654 | reading back an acyclic view fails exactly when a reachable view is refused, and else rebuilds exactly the reachable views, the root alone keeping its meta |
| FeatureViewRoundTrip.SerialiseAndBack | feast/sdk/python/feast/feature_view.py:394-654 | the whole round trip: it raises exactly when a cycle or a view without a usable batch source can be reached; else the reachable views come back, field by field as told, and unchanged but for the stated losses exactly when the batch source is plain |
| FeatureViewSources.ChainEndsIffNoRepeat | feast/sdk/python/feast/feature_view_utils.py:68-79 | the walk up the first parents ends if and only if it never meets a view again |
| FeatureViewSources.AcyclicChainEnds | feast/sdk/python/feast/feature_view_utils.py:68-79 | so it ends from any view that serialises |
| FeatureViewSources.OriginalUnique | feast/sdk/python/feast/feature_view_utils.py:68-79 | there is one original view |
| FeatureViewSources.OriginalEndsWalk | feast/sdk/python/feast/feature_view_utils.py:68-79 | and it is the underived view at the end of a walk from each view to its first source view |
| FeatureViewSources.FindOriginalSourceView | feast/sdk/python/feast/feature_view_utils.py:68-79 | the walk terminates at the underived view at its end |
| FeatureViewSources.ResolveSource | feast/sdk/python/feast/feature_view_utils.py:106-201 | on the parameters alone: the sink exactly when a derived view is materialised and its parent's sink is there and exists; otherwise, and always outside materialization, the original view's batch source, at whatever depth; fails exactly when an underived parent has no batch source |
| DocumentChunker.CutsAtPreferredDelimiter | src/rag/rag_pipeline.py:184-192 | the cut is right after the last occurrence of the most preferred delimiter that occurs beyond half the chunk size |
| DocumentChunker.NoDelimiterNoCut | src/rag/rag_pipeline.py:184-192 | without such a delimiter the window is not cut |
| DocumentChunker.FindEnd | src/rag/rag_pipeline.py:182-194 | the loop over the delimiters finds that end |
| DocumentChunker.ChunkDocument | src/rag/rag_pipeline.py:179-208 | the inner loop terminates and makes the chunks of one document, numbered on, with their total length |
| DocumentChunker.ChunkDocuments | src/rag/rag_pipeline.py:171-216 | all chunks of all documents; the returned number is how many there are |
| DocumentChunker.ChunksAreSpans | src/rag/rag_pipeline.py:197-204 | the chunks of a document are those of its windows, in order, numbered on from the first id |
| DocumentChunker.ChunksAreWindows | src/rag/rag_pipeline.py:196-204 | the text of a chunk is the document from some `a` to some `b` within its window, what lies outside is white space, and the text is empty or has none at its ends; source, file name, start, end and id are those of the document and the window |
| DocumentChunker.SpansFollowTheLoop | src/rag/rag_pipeline.py:179-208 | each window starts the overlap before the end of the one before, or one after its start if that is later |
| DocumentChunker.WindowEnd | src/rag/rag_pipeline.py:181-194 | a window ends with the document if it reaches it, else after the last ". ", failing that after the last blank line, newline or space beyond half the size, else after the whole size |
| DocumentChunker.EveryDocumentIsChunked | src/rag/rag_pipeline.py:176-210 | each document contributes the chunks of its own windows, one after another, with their ids numbered on |
| DocumentChunker.ChunksAddUp | src/rag/rag_pipeline.py:171-216 | and there are as many chunks as the documents have windows |
| DocumentChunker.TextLengthIsAllText | src/rag/rag_pipeline.py:205 | the characters counted are those of all the chunks' texts, white space at the ends left out |
| DocumentChunker.IdsAreConsecutive | src/rag/rag_pipeline.py:173-207 | ids run from 0 without gaps across all documents |
| DocumentChunker.SpansCover | src/rag/rag_pipeline.py:180-208 | windows are non-empty, no longer than the size, start one after another at or before the previous end, and the last one reaches the end |
| DocumentChunker.SpansRebuild | src/rag/rag_pipeline.py:180-208 | joining the windows up to each next start, and the last one, rebuilds the document |
| DocumentChunker.OverlapIsExact | src/rag/rag_pipeline.py:208 | with an overlap of at most half the size, a window that ends early shares exactly that many characters with the next, which ends further on |
| DocumentChunker.TailIsExact | src/rag/rag_pipeline.py:208 | once a window reaches the end, exactly min(overlap, n-s-1) more follow, each a suffix starting one later |
| ArrowConversion.Builder.CopyValue | feast/go/types/typeconversion.go:97-158 | one value, nil or not, extends the builder's contents by exactly that value |
| ArrowConversion.CopyProtoValuesToArrowArray | feast/go/types/typeconversion.go:96-164 | the builder ends up holding exactly the column |
| ArrowConversion.ProtoValuesToArrowArray | feast/go/types/typeconversion.go:319-346 | an error, a null array or the encoded column, by the column's type; in an encoded column exactly the nil and empty values are null |
| ArrowConversion.EncodedMarksNulls | feast/go/types/typeconversion.go:98-101 | a row of an encoded column, of lists or not, is null if and only if its value is nil or empty |
| ArrowConversion.OtherKindIsZero | feast/go/types/typeconversion.go:102-158 | a value of another kind is encoded as the zero of the column's kind |
| ArrowConversion.ArrowValuesToProtoValues | feast/go/types/typeconversion.go:166-317 | one value per row: the slice up to the row's offset from the one before, from 0 for the first row, the cell, or the empty value |
| ArrowConversion.RowsAreMeantIff | feast/go/types/typeconversion.go:169-176 | for any valid array, these are the rows it means if and only if its offsets start at 0 or it has no row |
| ArrowRoundTrip.ColumnTypeIsFirst | feast/go/types/typeconversion.go:323-333 | the type is that of the first value that is not null, an error if that one is unsupported, none if all are null |
| ArrowRoundTrip.SliceIsItems | feast/go/types/typeconversion.go:169-175 | the slice of the flat child between two offsets is exactly the original list |
| ArrowRoundTrip.EncodedIsWellFormed | feast/go/types/typeconversion.go:335-342 | offsets of an encoded column start at 0, do not decrease and end at the child's length |
| ArrowRoundTrip.RowIsDecoded | feast/go/types/typeconversion.go:166-317 | the decoder's value of a row of an encoded column is determined by the original value and the column type |
| ArrowRoundTrip.UnchangedIff | feast/go/types/typeconversion.go:97-101 | a value comes back as itself exactly when it has the column's type or is the empty value of a scalar column |
| ArrowRoundTrip.EncodeAndDecode | feast/go/types/typeconversion.go:166-346 | encoding, then decoding: length, rows, and exactly which values come back unchanged |
| TransparencyLog.LogFile.LastChainHash | src/security/transparency.py:67-81 | the hash of the last line that is not blank, genesis without one or if it is no record; raises if it is JSON but no object |
| TransparencyLog.LogFile.Append | src/security/transparency.py:164-199 | the record is chained to the head that was read and written after the last character of the file, onto an unterminated line if there is one; nothing is written if the head cannot be read |
| TransparencyLog.HeadSkipsBlankLines | src/security/transparency.py:71-81 | blank lines after the last line of text make no difference to the head |
| TransparencyLog.LinkedRecordByRecord | src/security/transparency.py:164-167 | a chain, record by record: the previous record's hash, sixty-four zeros for the first, and the hash of that, a bar and the payload |
| TransparencyLog.AppendsMakeAChain | src/security/transparency.py:164-197 | any sequence of appends to an empty log is a chain of exactly those payloads, linked from genesis |
| TransparencyLog.EarlierLinesStay | src/security/transparency.py:196-197 | grown from an empty log, every earlier log is a prefix of the later one |
| TransparencyLog.AppendAddsIff | src/security/transparency.py:67-81 | for every file: an append adds one readable record linked to the last readable one, and keeps the others readable, if and only if the file ends in a newline and the head read is that of the last readable record |
| TransparencyLog.AddedRecordKeepsChain | src/security/transparency.py:164-167 | then a chain stays a chain |
| TransparencyLog.TornLineLosesNextRecord | src/security/transparency.py:196-197 | after a torn write the next record cannot be read back, and the one after it restarts the chain at genesis |
| TransparencyLog.MissingNewlineLosesTwoRecords | src/security/transparency.py:196-197 | with only the newline missing, the last record and the new one both become unreadable |
| TransparencyLog.SplitAtFirstBar | src/security/transparency.py:166 | the chain input can be taken apart again |
| TransparencyLog.HeadDeterminesHistory | src/security/transparency.py:164-167 | two chains with one head are the same chain, or two of their entries collide, or one yields genesis |
| TransparencyLog.LogsWithOneHeadAgree | src/security/transparency.py:151-199 | two logs grown from empty files with the same last hash had the same payloads appended, with the same exceptions |
| EtlTransform.FirstOccurrencesKept | src/etl/transform.py:31 | exactly the first row of each id is kept |
| EtlTransform.IdsUniqueAfterwards | src/etl/transform.py:31 | ids are distinct afterwards and none is lost |
| EtlTransform.MedianSplits | src/etl/transform.py:42 | half of the values are at most the median, half at least |
| EtlTransform.MedianOfOrdered | src/etl/transform.py:42 | however the values are put in order, the median is the middle one, or halfway between the middle two |
| EtlTransform.CountsArePositions | src/etl/transform.py:42 | the counts of these halves are numbers of positions |
| EtlTransform.FillKeepsRange | src/etl/transform.py:40-43 | filling with the median leaves no gap and keeps the minimum and the maximum |
| EtlTransform.ScaleIdempotent | src/etl/transform.py:50-60 | normalising twice is normalising once |
| EtlTransform.TransformOfVarying | src/etl/transform.py:36-58 | a column with two different numbers ends in [0, 1], attains 0 and 1, keeps order, and a present value lies between 0 and 1 as it did between the column's minimum and maximum |
| EtlTransform.TransformOfOther | src/etl/transform.py:55-58 | any other column becomes 0 throughout |
| EtlTransform.DataFrame.Overwrite | src/etl/transform.py:36-43 | each numeric column, and no other, is replaced by its image |
| EtlTransform.DataFrame.Convert | src/etl/transform.py:34-46 | a column is converted cell by cell, or the conversion raises |
| EtlTransform.Clean | src/etl/transform.py:28-47 | raises exactly when the time stamp or label of a kept row does not convert; else the first row of each id, both converted, numeric columns coerced and filled, the others as they were |
| EtlTransform.Normalise | src/etl/transform.py:50-60 | a new frame with the numeric columns scaled |
| EtlTransform.Transform | src/etl/transform.py:63-68 | clean, then normalise |
| SpelledIdentities.SourceIsSpelledOut | dataset-registry/backend/models.py:14-44 | the identity of `scheme://user@host:port/path?query#fragment` in lower case is `scheme://host:port` and `path`, letter by letter as written; user, query, fragment and a port of 0 are no part of it |
| SpelledIdentities.HostIsLowerUpToZone | dataset-registry/backend/models.py:34 | the host is in lower case up to a zone, which is kept; without one it is localhost |
| SpelledIdentities.LowerIsCharByChar | dataset-registry/backend/models.py:33-34 | in ASCII, lower case maps A-Z to a-z and leaves every other character alone |
| SpelledIdentities.PathIsLocal | dataset-registry/backend/models.py:33-42 | a plain path belongs to an unknown scheme on the local host |
| SpelledIdentities.OtherJdbcIsDropped | dataset-registry/backend/models.py:29-30 | any other jdbc prefix makes no difference |
| Decimals.FormatOfDecimal | dataset-registry/backend/models.py:38-39 | a number is written with the digits it was read from, if they had no leading zeros |
| CanonicalIdentities.PlainSourceParts | dataset-registry/backend/models.py:25-44 | the parts of a plainly written source are those it is written with, and it raises exactly when the port is out of range |
| CanonicalIdentities.JdbcPostgresIsPostgres | dataset-registry/backend/models.py:27-28 | a JDBC source of PostgreSQL has the identity of the PostgreSQL source |
| CanonicalIdentities.PartsAreSettled | dataset-registry/backend/models.py:32-42 | the parts of any source with a plain authority are in normal form |
| CanonicalIdentities.SecondParse | dataset-registry/backend/models.py:32-44 | what parsing such parts again yields, for every name |
| CanonicalIdentities.CanonicalIff | dataset-registry/backend/models.py:14-44 | the identity written as a source has that same identity if and only if the scheme is not jdbc and the name is neither empty nor ends in white space |
| CanonicalIdentities.WrittenSourceIsCanonicalIff | dataset-registry/backend/models.py:14-44 | the same as a condition on the source text, with or without query, fragment and parameters |
| CanonicalIdentities.PlainSourcesAreCanonical | dataset-registry/backend/models.py:14-44 | for `scheme://host[:port]/path` without query, fragment, parameters or jdbc the identity is spelled out and canonical; a port without leading zeros stands in it as it was written |
| CanonicalIdentities.ParametersAreCut | dataset-registry/backend/models.py:41-42 | where the scheme takes parameters they are not part of the name |
| CanonicalIdentities.ParametersCanSpoilIt | dataset-registry/backend/models.py:41-44 | a concrete source whose identity is not canonical |
| DatasetRegistry.BreaksKeysIff | dataset-registry/backend/db.py:20-32 | a new row keeps both unique keys if and only if neither its source nor its identity is taken |
| DatasetRegistry.CollectSets | dataset-registry/backend/db.py:143-157 | the collected assignments change exactly the fields that were given |
| DatasetRegistry.Registry.UpdateRow | dataset-registry/backend/db.py:141-171 | one row changes, in the fields that are given and to what is given; its source and identity never do |
| DatasetRegistry.Registry.Create | dataset-registry/backend/app.py:48-59 | exactly when a creation adds a row, is a conflict, fails or is malformed; where each field of the added row comes from; and that no other row changes |
| DatasetRegistry.Registry.Update | dataset-registry/backend/app.py:92-98 | not found exactly for an unknown id; which fields change and to what, an empty schema counting as none given |
| DatasetRegistry.Registry.Lookup | dataset-registry/backend/app.py:68-81 | by source if one is given, else by name; found exactly if there is such a row |
| DatasetRegistry.RunKeepsConsistent | dataset-registry/backend/db.py:20-32 | any sequence of creations, updates and deletions keeps sources distinct, identities distinct and each identity that of its source |
| DatasetRegistry.AnyRegistryIsConsistent | dataset-registry/backend/app.py:48-137 | so that holds of any registry grown from an empty table |
| DatasetRegistry.IdentityNeverChanges | dataset-registry/backend/db.py:141-171 | over any run, a row keeps its source and identity until it is deleted |
| DatasetRegistry.AcceptedIffIdentityIsNew | dataset-registry/backend/app.py:48-57 | a well-formed creation is accepted if and only if its identity parses and is new |
| DatasetRegistry.OtherSpellingFails | dataset-registry/backend/app.py:50-57 | a source whose identity is registered fails, rather than conflicts, exactly when its text differs |
| DatasetRegistry.CanonicalSpellingIsTaken | dataset-registry/backend/app.py:50-57 | in particular under the identity's own spelling |
| DatasetRegistry.UpperAndLowerBucket | dataset-registry/backend/app.py:50-57 | a concrete case: `s3://B/k`, then `s3://b/k` |
| DatasetRegistry.DeletingFrees | dataset-registry/backend/db.py:174-178 | deleting a row frees its source and identity, and no other |
| AdmissionWebhook.CreateLineagePatch | openshift/webhook/webhook-server/webhook.py:117-229 | applied to a pod with a spec, the patch appends exactly one init container and one volume and changes nothing else, if and only if both members are absent, empty or lists; without a spec it does not apply |
| AdmissionWebhook.OnlyTwoListsGrow | openshift/webhook/webhook-server/webhook.py:192-227 | injecting leaves the pod as it is but for two members of its spec, which gain one element at their end or become a list of one |
| AdmissionWebhook.ContainerIsTold | openshift/webhook/webhook-server/webhook.py:126-166 | the container runs the configured image and is told the pod's namespace, or `default`, the configured address and the owner |
| AdmissionWebhook.OwnerIsFirstGiven | openshift/webhook/webhook-server/webhook.py:127-131 | the owner is the name label, failing that the app label, failing that the pod's name, failing that `unknown` |
| AdmissionWebhook.AddedVolumeIsMounted | openshift/webhook/webhook-server/webhook.py:168-190 | the volume the container mounts is the one that is added |
| AdmissionWebhook.AppendOpEffect | openshift/webhook/webhook-server/webhook.py:196-227 | what one of its operations does to any pod with a spec |
| AdmissionWebhook.InjectsIff | openshift/webhook/webhook-server/webhook.py:192-229 | both operations together inject exactly when both members can be appended to |
| AdmissionWebhook.MutateNamespace | openshift/webhook/webhook-server/webhook.py:34-80 | denied exactly when a lookup raises, a patch exactly when a region label is wanted and missing, and applying it gives the namespace with its regions filled |
| AdmissionWebhook.NeedsRegionIff | openshift/webhook/webhook-server/webhook.py:45-52 | a patch is wanted by the namespace fkm and by those of the stack, if and only if one of the two regions is absent or falsy |
| AdmissionWebhook.RegionsAreFilled | openshift/webhook/webhook-server/webhook.py:54-72 | both regions are set, labels already non-empty are kept, no other label or member changes |
| AdmissionWebhook.SecondCallIsQuiet | openshift/webhook/webhook-server/webhook.py:51-52 | a second call finds nothing to do if and only if the default region is not empty |
| JobNaming.SanitizeFixesExactlyTidy | openlineage-oai/openlineage_oai/utils/naming.py:91-129 | results are non-empty, over [a-z0-9.-], without doubled, leading or trailing hyphen; exactly such names are left alone |
| JobNaming.SanitizeJoinsWords | openlineage-oai/openlineage_oai/utils/naming.py:114-129 | the result is all the words of the name, in order, joined by single hyphens, or `unnamed` if there is none |
| JobNaming.KeptIsCharByChar | openlineage-oai/openlineage_oai/utils/naming.py:114-121 | which characters count, one by one |
| JobNaming.JobNameSplits | openlineage-oai/openlineage_oai/utils/naming.py:49-57 | a job name splits back at its slashes into the sanitised parts |
| JobNaming.JobNamesEqualIff | openlineage-oai/openlineage_oai/utils/naming.py:26-57 | two job names are equal if and only if the sanitised tool, name and non-empty context agree |

## Left out

- HTTP, SQL, S3, Milvus, MLflow, Rekor and cosign calls, signatures and policy decisions: only a push that succeeds or raises, and a table with its unique keys, are kept.
- OfflineWriteBatching.OfflineWriteBatcher.Shutdown: does not join the flusher thread with its timeout, because a sequential client has no other thread; shutdowns that overlap other threads are `BatcherShutdown`'s subject.
- `pd.concat` raising inside `_flush`: the batch would stay marked in flight; assumed not to happen.
- BatcherProgress.EveryFrameCanStillBeWritten: says that a good continuation exists, not that the scheduler takes it; it ends with a fresh flush_all, which the server itself only calls in its one `shutdown`.
- The websocket's connection cap, which is not an invariant (its check and the append are separated by an await), and the words streamed back.
- FeatureView transformations, UDFs and BatchFeatureView; entity and schema checks of `__init__` beyond the source; projections; protobuf's encoding of durations and time stamps. Data sources and fields are opaque but for a source's kind and its batch source.
- FeatureViewSerialisation.FromProtoInternal: the view graph is a map from names to views where the code has object references.
- `resolve_feature_view_source_with_fallback` and the transformation fields of the resolved source, which are plumbing.
- DocumentChunker.ChunkDocuments: a negative chunk size or overlap is not modelled; coverage and overlap are stated for a chunk size of at least 1.
- ArrowConversion.ArrowValuesToProtoValues: what the Arrow library hands out as offsets of a sliced array, the 32-bit width of offsets, and the list or scalar types other than the eight handled are not modelled, and the eight cases of each switch are folded into a kind tag.
- TransparencyLog.LogFile.Append: concurrent appenders, and a recorded hash that is no string, are not modelled; the payload is its canonical JSON text.
- EtlTransform.Clean: takes the conversions of time stamps and labels as parameters; numbers are exact reals, without NaN or infinity.
- OlIdentity: characters outside ASCII are not case-folded or normalised, and the address inside brackets is not validated, where `urlparse` does; it raises for an unbalanced bracket or a bad port as modelled.
- CanonicalIdentities.CanonicalIff: is for authorities without brackets, white space and semicolons; a bracketed address loses its brackets, so its identity reads differently again.
- Listing datasets by tag, row time stamps, and the shape in which a row without tags is returned.
- JobNaming.SanitizeFixesExactlyTidy: `str.lower` is modelled as far as ASCII results go; every other character is dropped by the filter either way.
- `mutate`, the gate in front of the lineage patch, and the envelope of the admission response.
- featurestore.go retrieval, the Spark ETL, model training, pipeline wiring, user interfaces and configuration readers.
