# Verified model of the synthesis service

This project models the parts of llm-tts-api where a mistake would be hard to see, and proves
what they promise. `dafny verify dfyconfig.toml` checks all of it.

- **Admission** (`Admission.dfy`, `AdmissionWork.dfy`, `Drain.dfy`): the queue semaphore, the concurrency semaphore and
  the lazily filled model-lock map, shared by the buffered, the streaming and the legacy entry
  point, as a state machine. One step is everything an asyncio task does between two awaits that
  really suspend. Whether a newcomer takes a free semaphore or lock at once or queues behind
  others is left open, and progress is proved whichever it is. A stream handed to a generator that has not started is a state of its own: it
  keeps its permit and its temp file, for ever if the generator is dropped. A worker-thread call
  is taken to finish before its task leaves the lock, and removing a temp file is taken to succeed.
- **Model cache** (`Recency.dfy`, `LruCache.dfy`, `Inclusion.dfy`, `CacheThreads.dfy`): the cache as
  a class, its LRU law, what one more slot changes, and `get_or_load` from any number of threads
  as interleaved steps. Loaders are taken to return fresh objects other than `None`.
- **Text** (`Text.dfy`, `Sentences.dfy`, `Chunker.dfy`, `Punctuation.dfy`, `Stability.dfy`): sentence
  splitting, greedy packing with its optimality, punctuation normal form, stability of re-splitting.
- **Audio** (`Loudness.dfy`, `Audio.dfy`, `Delivery.dfy`): loudness normalisation over exact reals,
  WAV concatenation, durations, and the agreement of streamed and buffered audio, with what the
  `wave` module refuses to write. A provider is a function from chunk texts to payloads that may
  fail, the disconnect probe a function from chunk numbers to answers.
- **Voice store** (`VoiceRepos.dfy`, `VoiceHandlers.dfy`, `VoiceResponses.dfy`, `SeedIngestion.dfy`,
  `VoiceHistory.dfy`): the two file-backed repositories, the CRUD handlers and seed ingestion, with a failure possible at
  every repository call, and whole histories of them. With these repositories no operation
  suspends, so handlers run one after another. The clock is read once per request or pass.
- **Shared** (`Wrappers.dfy`, `Runs.dfy`): optional values and results; a law with an exact step
  condition, carried over to whole runs.
- **Presets** (`Presets.dfy`): startup checks, validate-before-swap reload, provider and model
  resolution.

Files, clocks and environment values are parameters: a file change is an arbitrary new content, a
fault is a value saying which I/O step raises, and the preset file is what its parser returns.

Where the repository's documentation and its code disagree, the model follows the code. Seed
ingestion skips ids that exist, although README.md:319-322 says it overwrites them. A queue depth of
0 rejects every request, although README.md:375-377 says it only disables queueing.

Some expected laws fail, and each is stated with its exact condition for all inputs:

- The prefix form of LRU inclusion fails once a load fails: `Inclusion.InclusionTheorem` says for
  which runs it holds throughout, `Inclusion.LargerCacheIncludesSmaller` what holds for all runs.
- A create that loses both its blob write and its rollback leaves a record without audio, or with
  the audio of a deleted voice if an orphan blob is there: `VoiceHistory.ConsistentThroughoutIff`
  and `VoiceHistory.OwnAudioThroughoutIff` say for which histories neither happens.
- A buffered response does not always exist where a stream succeeds:
  `Delivery.BufferedExistsIff` says when it does.
- Joining sentences and splitting again does not keep a blank line after text without an ender:
  `Stability.SplitUndoesJoinIff` says exactly which sentence lists survive.
- Clipping can push the loudness below the bound for unclipped blocks: `Loudness.LoudnessBounds`
  bounds the output from both sides by the energy clipping takes. Truncation leaves a gap of
  `2 * n * t` between the two sides, so it gives one condition under which the bound holds and one
  under which it fails, not a single one.
- Not all resources come back: `Admission.QuiescentIsClean` names the permits and files that
  dropped streams keep.

## Model

| member | source | states |
|---|---|---|
| Admission.PermitsConserved | src/llm_tts_api/services/synthesize_service.py:506-545 | over every run of buffered, streaming and legacy requests each semaphore value is its capacity minus its holders; active requests never exceed either limit |
| Admission.RejectedIffFull | src/llm_tts_api/services/synthesize_service.py:630-633 | an arrival is answered 429 exactly when every queue permit is out, and then nothing else changes; depth 0 rejects all |
| Admission.MutualExclusion | src/llm_tts_api/services/synthesize_service.py:511-516 | two requests inside the model-lock section for the same provider and model are the same request, whatever their entry points |
| Admission.OneLockPerKey | src/llm_tts_api/services/tts_service.py:216-223 | the lazily filled lock map never replaces the lock of a key |
| Admission.NoDeadlock | src/llm_tts_api/services/synthesize_service.py:431-457 | in every reachable state with admitted work neither finished nor abandoned some request can move forward without a cancellation, wherever newcomers are made to queue |
| Admission.RunsAreBounded | src/llm_tts_api/services/synthesize_service.py:517-545 | without arrivals no run, failures and cancellations included, is longer than the rank of its first state |
| Admission.QuiescentIsClean | src/llm_tts_api/services/synthesize_service.py:454-457 | in a reachable state where nothing can move forward the concurrency semaphore is full, the queue semaphore too but for one permit per abandoned stream, all model locks are free and the temp files left are exactly those of the abandoned streams |
| Admission.CanDrain | src/llm_tts_api/services/tts_service.py:225-251 | from every reachable state and for every policy of who queues behind whom all work in progress can finish by forward steps alone, ending clean and with the abandoned streams unchanged |
| Admission.LeakIsPermanent | src/llm_tts_api/services/synthesize_service.py:636-665 | a stream dropped before its generator starts keeps its queue permit and temp file in every later state; as many of them as the queue is deep leave no permit for anyone |
| Admission.StepKeepsInv | src/llm_tts_api/services/synthesize_service.py:634-635 | every event keeps permits balanced, one holder per lock, and temp files exactly those of buffered and streaming permit holders, generators handed off or abandoned included |
| AdmissionWork.EveryChunkIsSynthesised | src/llm_tts_api/services/synthesize_service.py:518-543 | over every run each request has the kind, key and chunks of its arrival; one that finishes without being cut short has had exactly one call per chunk (a single one on the legacy path), a buffered one probed before each call, a stream pulled after each; while the lock is held the calls so far are the chunks done |
| AdmissionWork.EntersAtOnceIff | src/llm_tts_api/services/synthesize_service.py:506-516 | an admitted buffered or legacy request is inside the lock section at once exactly when fewer than all concurrency permits are out, no request of its key is inside and it is not made to queue; a stream is only handed off |
| AdmissionWork.CanBeCutShort | src/llm_tts_api/services/synthesize_service.py:519-545 | a request in progress can be cut short wherever it stands, and then holds nothing on to |
| Drain.DrainConcurrency | src/llm_tts_api/main.py:144-159 | the polling loop stops at the first poll that sees every permit back or is past the deadline, after at most 20 polls per second plus one |
| Drain.CompleteIffSeenIdle | src/llm_tts_api/main.py:144-159 | however late sleeps wake, the drain completes exactly when some poll sees every permit back and all earlier polls were before the deadline |
| Drain.PunctualReach | src/llm_tts_api/main.py:152-158 | with sleeps that wake on time the polls the deadline allows are exactly the first 20 per second and the one at the deadline |
| Drain.SleepsToTheDeadline | src/llm_tts_api/main.py:152-158 | before the deadline a sleep lasts one interval or to the deadline, whichever is nearer |
| Drain.CompleteMeansIdle | src/llm_tts_api/main.py:147-151 | when every poll looks at a reachable state, a completed drain is reported only where no request holds a concurrency permit |
| Drain.HealthCountsHolders | src/llm_tts_api/routers/health.py:32-45 | in every reachable state the health counters equal the admitted and the active requests, so the clamp at zero never takes effect |
| Recency.PositionIsDistinctSince | src/llm_tts_api/services/model_cache.py:68-71 | a key stands in recency order at the number of different keys touched since its own last touch |
| LruCache.LRUModelCache.LoadedKeys | src/llm_tts_api/services/model_cache.py:68-71 | the keys held are the first max_size different keys of the touch history read backwards |
| LruCache.LRUModelCache.TryHit | src/llm_tts_api/services/model_cache.py:129-135 | a hit returns the stored model and moves the key to the front; a miss changes nothing |
| LruCache.LRUModelCache.Install | src/llm_tts_api/services/model_cache.py:137-157 | an existing entry is adopted; otherwise the entry is inserted and exactly the displaced entry is unloaded afterwards |
| LruCache.LRUModelCache.GetOrLoad | src/llm_tts_api/services/model_cache.py:83-109 | outcome, loader use, the new entries with their unloader flags and key order, and the one unloader called: that of the least recent entry of a full cache; a failing validator or loader leaves the cache as it was |
| LruCache.InstallEvictsOneOther | src/llm_tts_api/services/model_cache.py:145-149 | an install evicts at most one entry, the least recent of a full cache, and never its own |
| Inclusion.InclusionTheorem | src/llm_tts_api/services/model_cache.py:100-109 | for every call sequence, failures included: the keys held with size n are at every point the first n held with size n + 1 exactly when no call is a failing load of a key only the larger cache holds |
| Inclusion.NoFailureKeepsPrefix | src/llm_tts_api/services/model_cache.py:100-109 | in particular the prefix form holds after every run in which no load fails |
| Inclusion.LargerCacheIncludesSmaller | src/llm_tts_api/services/model_cache.py:129-149 | for every call sequence, failures included, one more slot keeps the same keys in the same order plus at most one, and never calls the loader more often |
| Inclusion.PrefixSurvivesIff | src/llm_tts_api/services/model_cache.py:100-109 | the prefix relation survives a call exactly when the call is not a failing load of the key only the larger cache holds |
| Inclusion.FailingLoadBreaksPrefix | src/llm_tts_api/services/model_cache.py:105-108 | the prefix form is false with failing loads: a three-call run on one and two slots |
| CacheThreads.InterleavedLru | src/llm_tts_api/services/model_cache.py:129-149 | the LRU law and the allow-list hold after any interleaving of lookup, load, install and unload steps |
| CacheThreads.ResidentIffFewTouchedSince | src/llm_tts_api/services/model_cache.py:137-149 | under any interleaving a key is resident exactly while fewer than max_size different other keys were touched since |
| CacheThreads.ModelConservation | src/llm_tts_api/services/model_cache.py:137-157 | under any interleaving every loaded model is in exactly one of in flight, resident, unloaded, released, discarded |
| CacheThreads.EvictedUnloadsExactlyOnce | src/llm_tts_api/services/model_cache.py:146-156 | an evicted model never comes back; its unloader is queued or has run exactly once, and has run when no call is in progress |
| CacheThreads.SameObjectUntilEvicted | src/llm_tts_api/services/model_cache.py:139-149 | two gets of a key with no eviction of it between them return the same object |
| CacheThreads.StepKeepsAllowList | src/llm_tts_api/services/tts_providers/cached_model_provider.py:54-62 | a model outside a non-empty allow-list of its provider is never loaded or resident |
| CacheThreads.LookupAnswers | src/llm_tts_api/services/model_cache.py:129-135 | under any interleaving a lookup of a resident key answers with its model and loads nothing; only an absent key goes on to validate and load |
| CacheThreads.EveryThreadCanStep | src/llm_tts_api/services/tts_providers/cached_model_provider.py:54-62 | a thread inside a call can always step; a missed key is loaded exactly when its provider has no list, an empty one, or one naming the model |
| CacheThreads.CallsEnd | src/llm_tts_api/services/model_cache.py:100-157 | every step inside a call brings it closer to its end and leaves the other threads alone |
| Chunker.SplitTextSemantic | src/llm_tts_api/services/text_preprocessing.py:136-191 | chunks are non-empty, within max_chars, absent only for blank text, and keep the non-whitespace characters in order |
| Chunker.Pack | src/llm_tts_api/services/text_preprocessing.py:159-191 | the packing loop emits what the greedy plan of the sentence list renders |
| Chunker.ChunksSpec | src/llm_tts_api/services/text_preprocessing.py:136-191 | safety and content of the chunks for every text and pair of limits |
| Chunker.FittingSentenceIsWhole | src/llm_tts_api/services/text_preprocessing.py:178-186 | a sentence within the limit stands whole at a definite place inside exactly one chunk |
| Chunker.SlicesCut | src/llm_tts_api/services/text_preprocessing.py:171-175 | an oversized sentence is cut into slices of full length and one remainder that concatenate to it |
| Chunker.SplitIsOptimal | src/llm_tts_api/services/text_preprocessing.py:167-189 | no order-preserving packing of the same sentences within the limits yields fewer chunks |
| Sentences.SentencesOfSpec | src/llm_tts_api/services/text_preprocessing.py:148-157 | splitting loses only whitespace and yields non-empty stripped sentences |
| Stability.ParagraphsUnbroken | src/llm_tts_api/services/text_preprocessing.py:152-152 | no paragraph keeps two newlines in a row |
| Stability.SentencesOfOneParagraph | src/llm_tts_api/services/text_preprocessing.py:129-133 | in one paragraph no sentence contains a sentence break and all but the last end with an ender |
| Stability.SplitUndoesJoin | src/llm_tts_api/services/text_preprocessing.py:129-133 | splitting the space-joined sentences of a paragraph gives the sentences back |
| Stability.SplitUndoesJoinIff | src/llm_tts_api/services/text_preprocessing.py:148-157 | for sentences any text yields, splitting their join gives them back exactly when every one before the last ends with an ender |
| Stability.SentencesAreUnbroken | src/llm_tts_api/services/text_preprocessing.py:148-157 | no sentence of any text holds a sentence break or a blank line |
| Stability.SplitIsStable | src/llm_tts_api/services/text_preprocessing.py:148-191 | when no sentence is oversized, splitting the joined chunks gives the sentences of the text exactly when every one before the last ends with an ender, and then the same chunks; text without a blank line always does |
| Stability.HeadingIsNotKept | src/llm_tts_api/services/text_preprocessing.py:152-157 | the unconditional law is false: a blank line after text without an ender |
| Stability.PreprocessedSplitIsStable | src/llm_tts_api/services/text_preprocessing.py:123-126 | after preprocessing the paragraph split is the identity and chunking is stable, for any expansion of dates and numbers |
| Punctuation.CleanIsNormal | src/llm_tts_api/services/text_preprocessing.py:72-78 | the result is in normal form, and exactly the normal texts are left unchanged |
| Punctuation.CleanIsStable | src/llm_tts_api/services/text_preprocessing.py:72-78 | cleaning is idempotent and leaves no newline |
| Punctuation.CleanKeepsSkeleton | src/llm_tts_api/services/text_preprocessing.py:72-78 | apart from whitespace and repeated marks the text is unchanged |
| Punctuation.CleanKeepsWords | src/llm_tts_api/services/text_preprocessing.py:72-78 | as many words as before, in order, none glued or cut, each the same up to repeated marks |
| Punctuation.PreprocessKeepsWords | src/llm_tts_api/services/text_preprocessing.py:123-126 | the preprocessed text is the expanded input word by word, in normal form |
| Punctuation.JoinLinesSpec | src/llm_tts_api/services/text_preprocessing.py:77-77 | no comma, semicolon or colon is left before a line break |
| Audio.ConcatWavs | src/llm_tts_api/services/tts_service.py:55-102 | empty, single and merged payloads, with the error of the first payload that does not fit or of common parameters that cannot be written |
| Audio.NormalizeLevels | src/llm_tts_api/services/audio_postprocessing.py:17-65 | loudness normalisation of a readable WAV fails exactly on audible samples without a frame rate; otherwise inaudible audio comes back unchanged and every other sample is the amplified one, cut off at the full scale of its width and truncated, parameters and count kept |
| Audio.NormalizedLoudness | src/llm_tts_api/services/audio_postprocessing.py:44-55 | the delivered samples of audible 16-bit audio obey the loudness law and stay in range |
| Audio.MergedSpec | src/llm_tts_api/services/tts_service.py:68-102 | payloads merge exactly when there is at most one, or all are WAVs of one set of parameters of width 1 to 4 and a positive rate |
| Audio.SamplesInOrder | src/llm_tts_api/services/tts_service.py:76-101 | the samples of each payload stand between those of the ones before and after it |
| Audio.DurationIsNearest | src/llm_tts_api/services/synthesize_service.py:293-305 | the duration is the exact one to the nearest millisecond, ties to even, and 0 without audio or rate |
| Audio.DurationsAgree | src/llm_tts_api/services/synthesize_service.py:293-305 | for payloads that merge, summing rounded chunk durations is within (n + 1) / 2 ms of the rounded total, equal for one chunk |
| Delivery.RunSynthesis | src/llm_tts_api/services/synthesize_service.py:517-543 | the disconnect probe, then one provider call per chunk, outputs appended in order, or the first failure |
| Delivery.CollectedIff | src/llm_tts_api/services/synthesize_service.py:518-543 | there are outputs exactly when every probe finds the client and no call raises; otherwise the first failing probe or call decides the error |
| Delivery.CollectedIsFlat | src/llm_tts_api/services/synthesize_service.py:518-543 | the outputs are all outputs of all calls, in chunk order |
| Delivery.StreamChunks | src/llm_tts_api/services/synthesize_service.py:439-453 | what is yielded, the trailer totals of exactly that, and the chunk a failing stream stops at |
| Delivery.StreamAgreesWithBuffer | src/llm_tts_api/services/synthesize_service.py:677-690 | with one WAV per chunk and a stream that ran to its end the buffered body exists exactly when there is one chunk or all share parameters that can be written; it is the streamed audio concatenated, with equal chunk counts and bounded duration gap |
| Delivery.StreamKeepsShape | src/llm_tts_api/services/synthesize_service.py:448-453 | with one WAV per chunk a chunk fails to stream exactly when it has audible samples and frame rate 0; otherwise what is sent is that WAV brought to the target amplitude |
| Delivery.StreamSendsFirst | src/llm_tts_api/services/synthesize_service.py:446-448 | a stream sends the first output of a call where the buffered path takes all |
| Delivery.BufferedExistsIff | src/llm_tts_api/services/synthesize_service.py:667-690 | with one WAV per chunk the buffered body exists exactly when the client stays, every chunk can be normalised, and parameters agree and, for two chunks or more, can be written |
| Delivery.BufferedIsLevelled | src/llm_tts_api/services/synthesize_service.py:677-681 | a buffered body is the WAV of each chunk brought to the target amplitude, one after the other under the common parameters |
| Delivery.NormalizeAllFirst | src/llm_tts_api/services/synthesize_service.py:677-680 | a list fails to normalise with the error of the first payload that cannot be normalised |
| Loudness.LoudnessBounds | src/llm_tts_api/services/audio_postprocessing.py:47-55 | 16-bit, n samples, target amplitude t: output energy within 2nt below n*t*t less the energy clipping takes, which is positive exactly when a sample clips; so mean square at most t*t, at least t*t - 2t when nothing clips, below that when clipping takes more than 2nt; samples within range |
| Loudness.RescaleMonotone | src/llm_tts_api/services/audio_postprocessing.py:53-55 | the sample map is monotone |
| Loudness.RescaleOdd | src/llm_tts_api/services/audio_postprocessing.py:53-55 | the sample map is odd |
| Loudness.ClippingLosesEnergy | src/llm_tts_api/services/audio_postprocessing.py:54-54 | a four-sample block whose output, clipped, is strictly below the bound for unclipped blocks |
| Loudness.ClippingMayBeHarmless | src/llm_tts_api/services/audio_postprocessing.py:54-54 | a block that clips and still meets that bound |
| VoiceRepos.FsJsonMetadataRepository.LoadAll | src/llm_tts_api/services/voice_store/fs_json_metadata.py:90-101 | the records of the document, defaults and the current time standing in for missing keys, or the error of an unreadable or malformed document |
| VoiceRepos.FsJsonMetadataRepository.AtomicWrite | src/llm_tts_api/services/voice_store/fs_json_metadata.py:103-124 | a failed write leaves the previous document and no temp file; after a successful one exactly the records are read, whatever the clock says |
| VoiceRepos.FsJsonMetadataRepository.CreateRecord | src/llm_tts_api/services/voice_store/fs_json_metadata.py:143-151 | the repository behaves as a map under every fault and for every document, malformed ones and rows without timestamps included |
| VoiceRepos.FsJsonMetadataRepository.UpdateRecord | src/llm_tts_api/services/voice_store/fs_json_metadata.py:153-161 | the repository behaves as a map under every fault and for every document, malformed ones and rows without timestamps included |
| VoiceRepos.FsJsonMetadataRepository.DeleteRecord | src/llm_tts_api/services/voice_store/fs_json_metadata.py:163-170 | the repository behaves as a map under every fault and for every document, malformed ones and rows without timestamps included |
| VoiceRepos.FailuresLeaveNoTrace | src/llm_tts_api/services/voice_store/fs_json_metadata.py:143-170 | a history with failed operations ends where the history without them ends |
| VoiceRepos.RepoStepSpec | src/llm_tts_api/services/voice_store/fs_json_metadata.py:143-170 | exactly when each operation succeeds and which error it reports otherwise, and that only its subject changes |
| VoiceRepos.FsBlobRepository.Put | src/llm_tts_api/services/voice_store/fs_blob.py:45-63 | the blob is replaced whole or not at all, and no temp file is left |
| VoiceRepos.FsBlobRepository.Remove | src/llm_tts_api/services/voice_store/fs_blob.py:74-79 | removing an absent blob is reported, a failure changes nothing |
| VoiceHandlers.VoicesRouter.CreateVoice | src/llm_tts_api/routers/voices.py:175-232 | both stores and the response after a create, with rollback, for every combination of failures |
| VoiceHandlers.VoicesRouter.UpdateVoice | src/llm_tts_api/routers/voices.py:287-338 | both stores and the response after an update, blob first, for every combination of failures |
| VoiceHandlers.VoicesRouter.DeleteVoice | src/llm_tts_api/routers/voices.py:342-363 | both stores and the response after a delete for every combination of failures |
| VoiceHandlers.VoicesRouter.GetVoiceAudio | src/llm_tts_api/routers/voices.py:253-283 | the audio endpoint answers from both stores and changes neither |
| VoiceResponses.CreateResponds | src/llm_tts_api/routers/voices.py:185-232 | each answer of a create exactly, over consent, audio, presence of the id and failures; success returns the record now stored, new, with the fields sent, and the audio sent is stored |
| VoiceResponses.UpdateResponds | src/llm_tts_api/routers/voices.py:301-338 | each answer of an update exactly; success keeps id, source and creation time and replaces the audio exactly when some was sent |
| VoiceResponses.DeleteResponds | src/llm_tts_api/routers/voices.py:348-363 | each answer of a delete exactly; gone means gone from both stores |
| VoiceResponses.AudioResponds | src/llm_tts_api/routers/voices.py:259-283 | each answer of the audio endpoint exactly |
| VoiceResponses.ReadsBackWhatWasWritten | src/llm_tts_api/routers/voices.py:208-283 | after a successful create or update the audio endpoint sends what was sent, after a successful delete it finds nothing |
| VoiceHistory.TwoStoreConsistency | src/llm_tts_api/routers/voices.py:208-232 | after any history with failures every record carries consent, and the records without audio are exactly those of creates that lost both blob write and rollback and that no update or delete has repaired since |
| VoiceHistory.ConsistencySurvivesIff | src/llm_tts_api/routers/voices.py:208-232 | every record still has audio after an operation exactly when it is not a create that loses both its blob write and its rollback with no blob of the id there |
| VoiceHistory.ConsistentThroughoutIff | src/llm_tts_api/routers/voices.py:208-232 | every record has audio at every operation boundary of a history exactly when no operation of it loses its blob so |
| VoiceHistory.BlobMissingIffRollbackLost | src/llm_tts_api/routers/voices.py:219-231 | on any store the record of a create is without audio afterwards exactly when it was before, or blob write and rollback both fail and no orphan blob of the id stands in |
| VoiceHistory.OwnAudioThroughoutIff | src/llm_tts_api/routers/voices.py:219-231 | the audio of every record is audio sent for that record at every boundary of a history exactly when no create loses its rollback where an orphan blob holds other audio |
| VoiceHistory.OrphanIsServed | src/llm_tts_api/routers/voices.py:356-362 | the provenance law is false: after a delete that loses its unlink and a create that loses its rollback the endpoint serves the deleted audio |
| VoiceHistory.FaultFreeRefinesOneMap | src/llm_tts_api/routers/voices.py:309-363 | fault-free histories, seeding included, refine one map from id to record and audio, which is what the audio endpoint shows |
| SeedIngestion.ParseAndValidate | src/llm_tts_api/services/voice_store/seed_ingestion.py:166-235 | all entries in order, or the first error: one the pass logs, or one that escapes it such as a number too large for a float |
| SeedIngestion.ValidateAllSpec | src/llm_tts_api/services/voice_store/seed_ingestion.py:175-179 | the file is accepted exactly when every entry is, and otherwise stops with the error of the first bad one |
| SeedIngestion.AcceptedIff | src/llm_tts_api/services/voice_store/seed_ingestion.py:182-236 | exactly which raw bodies are accepted, and that an accepted entry holds their fields, a default for each key left out |
| SeedIngestion.EscapesIff | src/llm_tts_api/services/voice_store/seed_ingestion.py:212-235 | exactly which bodies raise instead: a number too large for a float or a path that cannot be looked up, after all earlier checks pass |
| SeedIngestion.WrittenVoiceComesBack | src/llm_tts_api/services/voice_store/seed_ingestion.py:192-236 | a voice written out in full and validated comes back field by field |
| SeedIngestion.VoiceSeedIngestor.IngestOnce | src/llm_tts_api/services/voice_store/seed_ingestion.py:78-140 | both stores and the outcome of a pass with a failure possible at every call |
| SeedIngestion.InvalidEntryChangesNothing | src/llm_tts_api/services/voice_store/seed_ingestion.py:95-104 | one bad entry leaves both stores unchanged, and the first bad one decides whether the pass returns 0 or raises |
| SeedIngestion.IngestAddsExactlyMissing | src/llm_tts_api/services/voice_store/seed_ingestion.py:106-140 | a fault-free pass adds exactly the missing ids, returns their number and touches nothing of an existing id |
| SeedIngestion.AddsWhatTheFileSays | src/llm_tts_api/services/voice_store/seed_ingestion.py:106-138 | each voice added is stored as the body of its entry says, with the bytes of the file it names |
| SeedIngestion.StoppedPass | src/llm_tts_api/services/voice_store/seed_ingestion.py:107-140 | a pass that fails at an entry keeps exactly the voices before it, leaves no record of that one, and returns or raises by what failed |
| SeedIngestion.IngestIsIdempotent | src/llm_tts_api/services/voice_store/seed_ingestion.py:106-140 | ingesting twice equals ingesting once; the second pass reports nothing created unless the file makes both raise |
| Presets.LoadedListIsUsable | src/llm_tts_api/config.py:274-288 | a loaded model list contains its default and only trimmed names |
| Presets.LoadedListIs | src/llm_tts_api/config.py:274-288 | it holds the default and the non-blank names between commas, trimmed, and nothing else |
| Presets.PresetRegistryReloader.ReloadOnce | src/llm_tts_api/services/presets/reloader.py:83-131 | a file that fails any check leaves the live registry, a valid one replaces it |
| Presets.StartsIffGood | src/llm_tts_api/services/presets/startup.py:67-121 | startup succeeds exactly on safe permissions and a file whose presets include the default and pin only registered providers and models they allow; otherwise the first failing check decides the exit |
| Presets.ReloadsIffGood | src/llm_tts_api/services/presets/reloader.py:101-131 | a reload goes live exactly with such a file |
| Presets.LiveIsLastAcceptable | src/llm_tts_api/services/presets/reloader.py:101-131 | over any reload history the live registry is acceptable and is the last acceptable file, or the startup one |
| Presets.ExplicitFieldsWin | src/llm_tts_api/services/synthesize_service.py:183-211 | for any mix of set and unset fields a set one wins and an unset one takes the preset; a field is reported overridden exactly when its effective value is not the pinned one; resolution is idempotent |
| Presets.DefaultPresetAlwaysKnown | src/llm_tts_api/services/synthesize_service.py:164-176 | a request naming no preset never gets preset_unknown |
| Presets.PinnedProviderResolves | src/llm_tts_api/services/presets/config.py:234-251 | a validated provider pin resolves to that registered provider and to the pinned model, or without one to its default |
| Presets.RequestResolvesTo | src/llm_tts_api/services/synthesize_service.py:308-329 | for every request: the provider is the one it names, or the preset does, or the selected one; the model likewise or that provider's own default; and exactly when each rejection arises |
| Presets.PresetOnlyRequestResolvesIff | src/llm_tts_api/services/synthesize_service.py:308-329 | under any live registry a request setting neither provider nor model resolves exactly when the preset is not a model-only one whose model the selected provider disallows, and then to what the preset pins, the selected provider and its default standing in |

## Left out

- Semaphores, locks, coroutines and generators are values of a state machine, not objects; the FIFO order of their waiters is left open.
- Acquiring the queue semaphore is part of the step that finds it unlocked, as in asyncio; nobody ever waits for it.
- The HTTP layer, request parsing, error envelopes, trailers, headers and logging: plumbing.
- Provider backends, `num2words`, the date and number patterns: foreign code; the expansion is an arbitrary function.
- RIFF parsing and printing: part of the `wave` module; a header so short that `wave` raises `EOFError` is not told apart from other unreadable bytes, and a data chunk is as long as its header says.
- Float rounding: durations and loudness use exact numbers, and the loudness bounds are stated for 16-bit samples only.
- Chunk limits below one: `max_chars` is at least 256 by configuration, and 0 would make the slicing range raise.
- Lone surrogates in strings: Dafny characters are Unicode scalar values.
- The per-provider dictionary `_get_model` uses when no shared cache is attached: the shared cache without eviction.
- Postgres and S3 repositories, and handlers interleaved over them.
- The voice-id pattern, content types and magic bytes: ids are accepted by a given predicate, audio parts arrive classified.
- Infinities and NaN in a seed file: JSON numbers that are not integers are exact reals here.
- Preset response format, ignored knobs, header formatting, and `_build_voice_config`: one-branch merges.
- Provider auto-selection: the selected provider is any registered one.
- The startup and reload checks read the preset file through a parser that either fails or returns the presets; the permission check is one boolean.
