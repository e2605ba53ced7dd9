# RayRAG verification models

Dafny models of the algorithmic and stateful cores of RayRAG, with proofs of what they promise. Every method
follows a loop or a state change of the program and is proved against a function; the lemmas prove properties of
those functions, of whole runs and of several functions together.

- **Retrieval metrics** (`Benchmark`, `BenchmarkReport`, `BenchmarkRanks`): nDCG, average precision and reciprocal rank over ranked
  runs, their means and the benchmark loop. The bound nDCG <= 1 is a rearrangement inequality.
- **Feedback ledger** (`ChunkFeedback`, `FeedbackLedger`, `FeedbackService`): the largest-remainder split of a vote,
  and concurrent handlers that change an index and a conversation. The protocol is a state machine over handler
  steps; the classes perform its steps.
- **Checkpoint store** (`AgentCheckpoint`, `AgentCheckpointMeaning`, `AgentCheckpointStore`): claims with leases,
  restarts and transactional persistence, over every run and every clock reading.
- **Type checker** (`CodeExec`): inference, normalisation and validation on printed type strings.
- **Citation repair** (`Dialog`, `CitationPatterns`, `CitationRepair`, `CitationSpans`, `DialogRepair`): four
  rewriting passes over an answer, as scanners.
- **Crypto** (`Crypto`): cipher block chaining with PKCS#7 padding over any block permutation.
- **Document store** (`DocStore`): the in-memory store as a map, and its sorted, paged search.
- **Structure merge** (`Grouping`, `StructureRows`, `StructureKeys`, `StructureMerge`, `StructureBuckets`,
  `StructureCleanup`, `StructureConditions`, `StructureBuild`, `StructureIds`, `StructureStored`,
  `StructureDisabled`, `StructureGhosts`, `StructureSteps`, `StructureRun`, `StructureLostMarker`): bucketed merging
  against one group-by, what a build stores, deletion markers, cleanup and whole merge runs under failing reads.
- **Text chunking** (`Markdown`, `MarkdownLines`, `Slumber`, `CoarseMerge`, `MarkdownChunks`, `Book`, `BookMeaning`):
  markdown blocks, recursive splitting, greedy merging and heading merges.
- **PDF text** (`PdfText`, `PdfCmap`, `PdfPages`): glyph codes, the printed character map and line placement.
- `Text`, `Json` and `Distinctness` are shared vocabulary.

Where the code departs from what its comments or its use suggest, the model follows the code and the exact
condition is a theorem: the clamped feedback ledger (`FeedbackLedger.LedgerTheorem`, `ClampBreaksLedger`), nDCG above
1 or below 0 (`Benchmark.NdcgNeedsDistinctDocs`, `NdcgNeedsNonNegativeQrels`), the file after a restart
(`AgentCheckpoint.RestartAgreement`), entity groups split over buckets (`StructureBuckets.EntityBucketsAgree`,
`EveryHashAgrees`, `SplitEntity`), entities of one name and two types (`StructureStored.EveryWriteStored`,
`TypeLost`), a cleanup whose marker scan failed (`StructureGhosts.SuccessExactly`,
`StructureSteps.BuiltExactly`, `StructureRun.ConsumingRunExactly`, `StructureLostMarker.LostMarker`), graphs that no
run builds (`StructureRun.NamedNowhere`), blank and unknown element types (`CodeExec.ValidationIsAcceptance`,
`EmptyElementQuirk`) and the empty first group (`Book.FirstGroupEmpty`).

`dafny verify dfyconfig.toml` checks the whole project.

## Model

| member | source | states |
|---|---|---|
| Benchmark.Rearrangement | src/benchmark.rs:188-213 | no k values drawn from the relevances gain more DCG than the relevances sorted descending |
| Benchmark.RunDrawnFromQrels | src/benchmark.rs:178-184 | the positive relevances of a run without repeated documents are, with multiplicity, among the judgements |
| Benchmark.NdcgInUnit | src/benchmark.rs:200-213 | nDCG@k lies in [0, 1] for every list of judgements without negative ones and every run without a repeated document in its first k |
| Benchmark.NdcgIsOne | src/benchmark.rs:200-213 | for such judgements and runs nDCG@k is 1 exactly when something relevant is within reach and the first ranks read the ideal gains in order |
| Benchmark.AdjacentSwap | src/benchmark.rs:188-195 | exchanging two neighbours so that the larger gain comes first never lowers DCG, and raises it when the gains differ |
| Benchmark.NdcgAdjacentSwap | src/benchmark.rs:200-213 | exchanging two adjacent documents so that the more relevant one comes first never lowers nDCG@k, and raises it when the relevances differ, the first of the two ranks is below k and the ideal gain is positive |
| Benchmark.NdcgNeedsDistinctDocs | src/benchmark.rs:200-213 | for every run and k: nDCG@k lies in [0, 1] under all judgements without negative ones exactly when no document repeats within the first k ranks |
| Benchmark.RepeatScoresHigh | src/benchmark.rs:200-213 | where a rank below k repeats an earlier document, judging the documents before it relevant scores the run above 1 |
| Benchmark.NdcgNeedsNonNegativeQrels | src/benchmark.rs:200-213 | for judgements of distinct documents: nDCG@k lies in [0, 1] for all runs without a repetition within k exactly when no judgement is negative or the ideal gain within k is not positive |
| BenchmarkReport.AveragePrecisionAtK | src/benchmark.rs:216-230 | the hit-counting loop computes average precision; 0/0 for k = 0 is NaN |
| BenchmarkReport.PrecisionSumBound | src/benchmark.rs:216-230 | the precisions at relevant ranks add up to at most one each, and to exactly one each only when no rank before the last relevant one is missed |
| BenchmarkReport.AveragePrecisionInUnit | src/benchmark.rs:216-230 | AP@k for k > 0 and distinct documents within the first k lies in [0, 1] and is 1 exactly when a document is relevant and the first min(relevant, k) ranks are all relevant |
| BenchmarkReport.ReciprocalRankAtK | src/benchmark.rs:233-240 | the search loop returns the reciprocal rank |
| BenchmarkReport.ReciprocalRankOfFirst | src/benchmark.rs:233-240 | it is 1/(p+1) for the first relevant rank p below k |
| BenchmarkReport.ReciprocalRankZero | src/benchmark.rs:233-240 | it is 0 exactly when no rank below k is relevant |
| BenchmarkReport.Evaluate | src/benchmark.rs:252-270 | the accumulation loop yields the three means over the scored queries and counts them |
| BenchmarkReport.MeansInUnit | src/benchmark.rs:252-270 | every averaged metric stays in [0, 1] when no judgement is negative and no document repeats within the first ten ranks |
| BenchmarkReport.CollectRun | src/benchmark.rs:330-346 | the retrieval loop keeps the answers by query and counts the queries without one |
| BenchmarkReport.RowsAreScored | src/benchmark.rs:348-365 | the printed rows are the scored queries in order, each with its nDCG@10 |
| BenchmarkReport.RunRetrievalBenchmark | src/benchmark.rs:321-373 | the whole run without its latency samples: rows, metrics and dropped count of the given backend |
| BenchmarkReport.ScoredOrEmpty | src/benchmark.rs:252-270 | scored plus dropped queries are all queries |
| BenchmarkRanks.FirstJudgement | src/benchmark.rs:178-184 | a document is worth its first judgement, and nothing without one |
| BenchmarkRanks.DcgIsSum | src/benchmark.rs:188-195 | DCG@k is the sum of the gains of the first k ranks, each over the logarithm of its own rank |
| BenchmarkRanks.Ndcg10Ranks | src/benchmark.rs:200-213 | nDCG@10 of a query is the discounted gain of its first ten ranks over that of its ten best judgements, 0 if those gain nothing |
| BenchmarkRanks.Map5Ranks | src/benchmark.rs:216-230 | MAP@5 of a query adds up the precisions at the relevant ones of the first five ranks and divides by the number of relevant judgements, five at most |
| BenchmarkRanks.Mrr10Ranks | src/benchmark.rs:233-240 | MRR@10 of a query is 1/(p+1) for its first relevant rank p below ten, and 0 if there is none |
| BenchmarkRanks.MeanOfAnswered | src/benchmark.rs:252-270 | each reported mean is the sum of the scores of the answered queries over their number |
| ChunkFeedback.DeduplicateDistinct | src/chunk_feedback.rs:322-332 | the de-duplicated references have distinct keys and no blank identifier |
| ChunkFeedback.DeduplicateCovers | src/chunk_feedback.rs:322-332 | every usable reference keeps a representative |
| ChunkFeedback.DeduplicateKeepsFirst | src/chunk_feedback.rs:322-332 | kept are exactly the first usable references of their keys, with their own scores and in their order |
| ChunkFeedback.SplitIntegerBudget | src/chunk_feedback.rs:356-382 | the in-place loop computes the largest-remainder split |
| ChunkFeedback.ApplySign | src/chunk_feedback.rs:356-382 | the sign is applied to every part |
| ChunkFeedback.SplitSum | src/chunk_feedback.rs:356-382 | the parts add up exactly to the signed budget |
| ChunkFeedback.SplitQuota | src/chunk_feedback.rs:356-382 | every part is the floor or the ceiling of its proportional share, and exactly the share when that is whole |
| ChunkFeedback.SplitMonotone | src/chunk_feedback.rs:356-382 | a strictly smaller magnitude never receives a larger part, for every signed budget |
| ChunkFeedback.AllocationIsOdd | src/chunk_feedback.rs:334-354 | allocating the opposite budget gives exactly the opposite deltas |
| ChunkFeedback.UnitVoteGoesToStrongest | src/chunk_feedback.rs:334-354 | among positive magnitudes a single vote goes whole to the greatest, the first one on ties |
| ChunkFeedback.VoteByMode | src/chunk_feedback.rs:304-354 | a single vote under the uniform mode moves every reference, under the relevance mode the first one with the greatest signal alone, the signal being the greatest positive score or else 1 |
| FeedbackLedger.ApplyDeltasAt | src/chunk_feedback.rs:384-411 | with distinct references each indexed chunk receives its own delta once, clamped to [0, 100] |
| FeedbackLedger.TransitionIsDifference | src/chunk_feedback.rs:413-451 | undo and redo together move each chunk by the difference of the two allocations |
| FeedbackLedger.TransitionBalances | src/chunk_feedback.rs:176-302 | a transition keeps the books exactly when no adjustment is clamped |
| FeedbackLedger.StepKeepsLedger | src/chunk_feedback.rs:176-302 | every step of every handler keeps the ledger, except storing a thumb after a clamped transition |
| FeedbackLedger.LedgerTheorem | src/chunk_feedback.rs:176-302 | over every interleaved run the index always equals its base plus the allocations of all current thumbs if and only if no thumb is stored after a clamp |
| FeedbackLedger.LockHolderUndisturbed | src/chunk_feedback.rs:215-302 | between taking the lock and releasing it nothing else moves the index |
| FeedbackLedger.FailedHandlerRestoresIndex | src/chunk_feedback.rs:453-466 | a handler whose thumb is not stored leaves the index as it found it |
| FeedbackLedger.ClampBreaksLedger | src/search.rs:339-364 | the clamp is reachable: the undisturbed run of one saved thumb down on a chunk at 0 starts balanced and ends unbalanced |
| FeedbackLedger.ThumbMoves | src/chunk_feedback.rs:413-451 | a handler moves each indexed reference by what the new thumb is worth to it less what the prior one was, within [0, 100]: one step up or down under the uniform mode for all, under the relevance mode for the strongest one alone |
| FeedbackLedger.DirectMoves | src/chunk_feedback.rs:80-152 | a vote at the direct endpoint moves each indexed reference the same way |
| FeedbackLedger.CountAppliedIs | src/chunk_feedback.rs:384-411 | the reported counts are the numbers of moved references that are in the index and that are not |
| FeedbackService.SearchEngine.AdjustChunkPagerank | src/search.rs:339-364 | one chunk moves by the delta within [0, 100]; an unknown chunk changes nothing |
| FeedbackService.SearchEngine.ApplyDeltasAndSave | src/chunk_feedback.rs:384-411 | all deltas are applied and saved; what a failed or rejected save leaves behind |
| FeedbackService.SearchEngine.ApplyFeedbackTransition | src/chunk_feedback.rs:413-451 | the combined transition, undone on every failed save |
| FeedbackService.AppState.FeedbackTarget | src/llm.rs:1293-1312 | what a handler reads before the lock |
| FeedbackService.AppState.StoreThumb | src/llm.rs:1314-1357 | the thumb is stored only if the prior thumb still stands |
| FeedbackService.AppState.UpdateMessageFeedback | src/chunk_feedback.rs:176-302 | the handler performs exactly the protocol's two locked steps on the index and the conversation and reports what they did |
| FeedbackService.AppState.ApplyChunkFeedback | src/chunk_feedback.rs:80-152 | the direct endpoint with its disabled and empty cases and its counts; a save rejected by validation leaves the engine changed |
| AgentCheckpoint.ValidateRecords | src/agent_checkpoint.rs:267-300 | accepts exactly the lists with non-empty identities, unique conversations and resume tokens and no lease without a claim |
| AgentCheckpoint.ListedValidity | src/agent_checkpoint.rs:267-300 | the list of a record map is valid exactly when the map is |
| AgentCheckpoint.OpenListed | src/agent_checkpoint.rs:61-90 | collecting the list of a record map by conversation gives the map back |
| AgentCheckpoint.ProposalShape | src/agent_checkpoint.rs:99-210 | every operation touches only its own conversation |
| AgentCheckpoint.RunInvariant | src/agent_checkpoint.rs:61-246 | every reachable state is valid, and file and memory hold the same records up to leases |
| AgentCheckpoint.StepDurability | src/agent_checkpoint.rs:228-246 | a failed operation changes neither side; a successful write leaves the file equal to memory |
| AgentCheckpoint.RestartKeepsRecords | src/agent_checkpoint.rs:61-90 | a crash at any point loses nothing but the leases |
| AgentCheckpoint.RestartAgreement | src/agent_checkpoint.rs:61-90 | after opening, file and memory agree exactly when the file held no claim |
| AgentCheckpoint.DeadForever | src/agent_checkpoint.rs:254-265 | a superseded or ended claim never becomes live again |
| AgentCheckpoint.DeadClaimChangesNothing | src/agent_checkpoint.rs:254-265 | no operation with such a claim changes any record |
| AgentCheckpoint.ClaimEndsAtMostOnce | src/agent_checkpoint.rs:174-208 | over a whole run each claim ends successfully at most once |
| AgentCheckpoint.SecondClaimNeedsCause | src/agent_checkpoint.rs:134-172 | a second claim on a conversation is granted only after the first ended, a restart, or a clock reading at or past its expiry |
| AgentCheckpointMeaning.TakeMeaning | src/agent_checkpoint.rs:134-172 | a claim is granted exactly when the conversation has a record, owner, tenant and agent all agree, the token is absent or the record's own, no unexpired claim stands and the change can be stored; granting changes only the claim, its expiry 15 minutes on and the time of change, and each refusal has its own answer |
| AgentCheckpointMeaning.SaveMeaning | src/agent_checkpoint.rs:99-132 | saving stores a new unclaimed record exactly when the conversation has none, no identity is blank, the token is new and the change can be stored |
| AgentCheckpointMeaning.ReleaseMeaning | src/agent_checkpoint.rs:174-182 | releasing needs the claim the record carries and takes away nothing but the claim |
| AgentCheckpointMeaning.ReplaceMeaning | src/agent_checkpoint.rs:184-200 | replacing needs that claim and gives the record a new token, fingerprint and workflow, keeping its conversation, principals and time of creation |
| AgentCheckpointMeaning.DeleteMeaning | src/agent_checkpoint.rs:202-221 | a record goes exactly with the claim it carries, or unclaimed with its own token |
| AgentCheckpointMeaning.ClaimsGoToTheirSavers | src/agent_checkpoint.rs:99-208 | over every run from an empty store a claim is granted only to the principals for whom its record was saved, and carries the token, fingerprint and workflow last given to the record |
| AgentCheckpointStore.CheckpointStore.InMemory | src/agent_checkpoint.rs:92-97 | a new store is empty and has no file |
| AgentCheckpointStore.CheckpointStore.Open | src/agent_checkpoint.rs:61-90 | opening a valid file loads its records without claims and does not write; an invalid file fails |
| AgentCheckpointStore.CheckpointStore.Install | src/agent_checkpoint.rs:228-246 | a proposed map is validated and persisted first, or nothing changes |
| AgentCheckpointStore.CheckpointStore.SaveWaiting | src/agent_checkpoint.rs:99-132 | the save operation performs its protocol step |
| AgentCheckpointStore.CheckpointStore.TakeClaim | src/agent_checkpoint.rs:134-172 | the claim operation performs its protocol step, whose every answer `AgentCheckpointMeaning.TakeMeaning` states |
| AgentCheckpointStore.CheckpointStore.ClaimedRecord | src/agent_checkpoint.rs:254-265 | finds the record a claim holds, or the error |
| AgentCheckpointStore.CheckpointStore.ReleaseClaim | src/agent_checkpoint.rs:174-182 | the release operation performs its protocol step |
| AgentCheckpointStore.CheckpointStore.ReplaceClaimed | src/agent_checkpoint.rs:184-200 | the replace operation performs its protocol step |
| AgentCheckpointStore.CheckpointStore.DeleteClaimedRecord | src/agent_checkpoint.rs:202-208 | the claimed delete performs its protocol step |
| AgentCheckpointStore.CheckpointStore.DeleteUnclaimedRecord | src/agent_checkpoint.rs:210-221 | the unclaimed delete performs its protocol step |
| AgentCheckpointStore.ReopenListed | src/agent_checkpoint.rs:61-90 | clearing the claims of a file that lists the disk and collecting it is the restart of the protocol, and the cleared list is valid |
| CodeExec.NormalizeIdempotent | src/code_exec.rs:278-302 | normalisation is idempotent on every string |
| CodeExec.PrintedIsNormal | src/code_exec.rs:278-302 | printed types are fixed points of normalisation |
| CodeExec.PrintInjective | src/code_exec.rs:253-275 | different types print differently |
| CodeExec.InferredIsPrinted | src/code_exec.rs:253-275 | inference prints the structural type of the value |
| CodeExec.ValidateMeansMembership | src/code_exec.rs:305-328 | for every string that normalises to a printed type, validation accepts exactly the values of the type |
| CodeExec.SelfValidation | src/code_exec.rs:253-328 | every JSON value validates against its own inferred type, which is normalised |
| CodeExec.SpellingIsNormalization | src/code_exec.rs:278-302 | a string normalises to a printed type exactly when it spells that type |
| CodeExec.SpelledTypeAccepts | src/code_exec.rs:278-328 | any spelling of a type accepts exactly its values |
| CodeExec.EmptyElementQuirk | src/code_exec.rs:305-328 | an array of a blank element accepts every array when it starts with `Array<`, and no value at all in any other letter case |
| CodeExec.ValidationIsAcceptance | src/code_exec.rs:278-328 | for every string and every value, whatever is nested in it: validation accepts exactly what the trimmed text asks for, by an independent recursive definition that covers blank, simple, array, blank-element and unknown types |
| DialogRepair.FindNext | src/dialog.rs:60-80 | finds the leftmost match of a pattern |
| DialogRepair.RewritePass | src/dialog.rs:60-88 | one rewriting pass and the indexes it collects |
| DialogRepair.RepairBadCitationFormats | src/dialog.rs:55-89 | the four passes in order with the collected index set |
| DialogRepair.RepairedIsFixed | src/dialog.rs:55-89 | nothing is left to rewrite for any of the four patterns |
| DialogRepair.ValidAreBracketHits | src/dialog.rs:55-89 | the returned set is the in-range bracket citations of the result |
| DialogRepair.ValidAreMarkers | src/dialog.rs:55-89 | the returned set is exactly the numbers below the limit whose numerals stand in the repaired answer as [ID:n] |
| DialogRepair.RepairIdempotent | src/dialog.rs:55-89 | repairing a repaired answer changes nothing and reports the same indexes |
| DialogRepair.RepairTouchesOnlyCitations | src/dialog.rs:55-89 | apart from digit normalisation the answer changes only where an in-range citation stood |
| DialogRepair.ExtractionFindsValid | src/dialog.rs:93-102 | extraction from the repaired answer finds every reported index |
| DialogRepair.ExtractionIsMarked | src/dialog.rs:93-102 | extraction returns exactly the numbers marked in the answer, Arabic digits read as ASCII ones, that an index can hold |
| DialogRepair.ArabicBlocks | src/dialog.rs:33-47 | the k-th digit of either Arabic block becomes the k-th ASCII digit, and no other character changes |
| CitationPatterns.ValueIsNumber | src/dialog.rs:66-71 | the value read from digits is the number whose decimal numeral they are, behind any zeros |
| CitationPatterns.ClosedMeaning | src/dialog.rs:15-24 | the three bracketed patterns match exactly their brackets around ID, a separator and digits, with white space between |
| CitationPatterns.RefMeaning | src/dialog.rs:24-26 | the ref pattern matches ref in any letter case, white space and all the digits that follow |
| Dialog.CanonMatches | src/dialog.rs:15-29 | a canonical marker is matched whole, with its own digits, by the bracket pattern |
| CitationRepair.RewriteFixes | src/dialog.rs:60-88 | one pass leaves nothing of its own pattern to rewrite |
| CitationRepair.RewritePreserves | src/dialog.rs:60-88 | a pass of another pattern keeps a text fixed for the first |
| CitationRepair.HitsAfterPass | src/dialog.rs:60-88 | a pass adds exactly its own hits to the markers of the text |
| CitationSpans.SegmentPass | src/dialog.rs:60-88 | a pass rewrites whole citations only and keeps every other character |
| Crypto.UnpadPad | src/common.rs:960-983 | PKCS#7 padding is always taken off again (section 6.3 of RFC 5652) |
| Crypto.PadUnpad | src/common.rs:960-983 | only exact paddings are accepted: a successful unpadding pads back to its input |
| Crypto.CbcEncrypt | src/common.rs:985-998 | the block loop computes cipher block chaining (section 6.2 of NIST SP 800-38A) |
| Crypto.CbcDecrypt | src/common.rs:1000-1013 | the block loop computes its inverse direction |
| Crypto.DecryptInvertsEncrypt | src/common.rs:985-1013 | CBC decryption inverts encryption on every aligned text, for every block permutation and vector |
| Crypto.EncryptInvertsDecrypt | src/common.rs:985-1013 | and encryption inverts decryption |
| Crypto.Encrypt | src/common.rs:913-924 | writes header, vector and ciphertext; the length is 4 + 16 + the padded length |
| Crypto.Decrypt | src/common.rs:928-943 | opens a blob; data without the header passes through |
| Crypto.OpenSealed | src/common.rs:913-943 | decrypt(encrypt(d)) = d for every key, vector and text |
| Crypto.SealOpened | src/common.rs:928-943 | a blob with the header decrypts only if encryption writes it |
| Crypto.XorBit | src/common.rs:985-998 | a bit of the exclusive or is set exactly when the two bits differ |
| Crypto.ChainedBlock | src/common.rs:985-998 | every block of the ciphertext is the cipher applied to what its block of the text and the ciphertext block before it, or the vector, differ in, bit by bit |
| DocStore.MemoryDocStore.constructor | src/doc_store.rs:487-492 | a new store is empty |
| DocStore.MemoryDocStore.CreateIdx | src/doc_store.rs:518-529 | the index is added to the index set |
| DocStore.MemoryDocStore.DeleteIdx | src/doc_store.rs:531-537 | the index is removed from the index set |
| DocStore.MemoryDocStore.Insert | src/doc_store.rs:547-573 | each row replaces the row of its key; the identifiers are returned |
| DocStore.MemoryDocStore.Get | src/doc_store.rs:575-590 | finds a row of the identifier in the wanted datasets, or there is none |
| DocStore.MemoryDocStore.Update | src/doc_store.rs:592-613 | new fields are merged into exactly the matching rows; reports whether there was one |
| DocStore.MemoryDocStore.Delete | src/doc_store.rs:615-629 | exactly the matching rows go; reports how many |
| DocStore.MemoryDocStore.Search | src/doc_store.rs:631-653 | filters, sorts and pages the rows |
| DocStore.PushIsMapUpdate | src/doc_store.rs:547-573 | inserting is map update by (index, dataset, id), and keys stay unique |
| DocStore.InsertRefines | src/doc_store.rs:547-573 | a batch is a sequence of map updates |
| DocStore.UpdateRefines | src/doc_store.rs:592-613 | updating merges fields into exactly the matching map entries |
| DocStore.DeleteRefines | src/doc_store.rs:615-629 | deleting keeps exactly the map entries that do not match |
| DocStore.GetRefines | src/doc_store.rs:575-590 | reading one key of one dataset is map lookup |
| DocStore.SortedCorrect | src/doc_store.rs:446-447 | the sort rearranges the rows by score descending, then identifier |
| DocStore.MatchesAreComplete | src/doc_store.rs:631-653 | in one dataset an unscored search lists exactly the matching rows, each once, by increasing identifier |
| DocStore.MatchesAreRanked | src/doc_store.rs:631-653 | any search returns exactly the rows that answer it, by scores that never increase and then by identifier; with match expressions only rows of positive score |
| StructureCleanup.SearchChecked | src/dataset_structure_merger.rs:230-251 | one page of the complete match list |
| StructureCleanup.ScanPages | src/dataset_structure_merger.rs:824-872 | the paging loop returns the pages up to the first failure or short page |
| StructureCleanup.PagesComplete | src/dataset_structure_merger.rs:824-872 | for any page size a scan that reports success has read the complete match list, once and in order |
| StructureConditions.GraphMeaning | src/dataset_structure_merger.rs:985-996 | the rows of a graph are those of the dataset scope, its keyword, its dataset and, if it has one, its template, each as a text or in a list |
| StructureConditions.DocumentMeaning | src/dataset_structure_merger.rs:1014-1033 | the rows a build scans are the entities and relations of the document scope, its keyword and its template |
| StructureConditions.MarkerMeaning | src/dataset_structure_merger.rs:755-765 | a marker is a row of the dataset that says so |
| StructureConditions.ListsMeaning | src/dataset_structure_merger.rs:806-823 | a row is affected when some deleted document is, or is among, its documents |
| StructureConditions.SurvivingKept | src/dataset_structure_merger.rs:845-867 | the documents that survive are exactly those not deleted, in their order |
| StructureRows.LongestFirst | src/dataset_structure_merger.rs:193-204 | the loop returns the longest description |
| StructureRows.LongestIsFirst | src/dataset_structure_merger.rs:193-204 | the chosen item is the first of the longest ones |
| StructureMerge.GroupRows | src/dataset_structure_merger.rs:469-485 | rows grouped by key, keys in first-seen order, each group complete |
| StructureMerge.MergeEntityGroup | src/dataset_structure_merger.rs:488-537 | the merged entity row of one group |
| StructureMerge.MergeRelationGroup | src/dataset_structure_merger.rs:647-685 | the merged relation row of one group |
| StructureMerge.MergeBucket | src/dataset_structure_merger.rs:460-592 | one merged entity row per (name, type) of the bucket |
| StructureMerge.MergeRelations | src/dataset_structure_merger.rs:596-732 | one merged relation row per (source, type, target) of the bucket |
| StructureKeys.EntityKeyMeaning | src/dataset_structure_merger.rs:469-485 | whatever its content is, a row is filed under the lower-cased trimmed name and the trimmed type it speaks of |
| StructureKeys.PlainEntity | src/dataset_structure_merger.rs:469-485 | a content with a name and a type speaks of them; a missing or null type is other |
| StructureKeys.EntitiesShare | src/dataset_structure_merger.rs:460-592 | two rows of a bucket share a merged row exactly when their names agree up to case and outer white space and their types up to outer white space |
| StructureKeys.EntityGroup | src/dataset_structure_merger.rs:488-592 | a merged entity row is made from exactly the rows about its name and type: their mention total, their chunks and documents, the longest name and description |
| StructureKeys.RelationKeyMeaning | src/dataset_structure_merger.rs:604-640 | a relation row is filed under the lower-cased trimmed source, type and target of its content, with the row's keywords as fallback for the ends and related for the type |
| StructureKeys.RelationsShare | src/dataset_structure_merger.rs:596-732 | two relation rows share a merged row exactly when source, type and target agree up to case and outer white space |
| StructureKeys.RelationGroup | src/dataset_structure_merger.rs:641-732 | a merged relation row is made from exactly the rows about its source, type and target |
| StructureKeys.MentionsMeaning | src/dataset_structure_merger.rs:178-190 | a row counts its own mentions, else those of its content, else one; counts are whole parts of numbers or strings that read as numbers |
| StructureKeys.NameMeaning | src/dataset_structure_merger.rs:115-136 | a row contributes the trimmed name it speaks of in its own letter case, nested contents included |
| StructureBuckets.Distribute | src/dataset_structure_merger.rs:1062-1125 | each accepted row lies in exactly its bucket, in scan order; disabled, old and nameless rows are passed over |
| StructureBuckets.MergeBuckets | src/dataset_structure_merger.rs:1132-1144 | the entity rows of all buckets |
| StructureBuckets.MergeRelationBuckets | src/dataset_structure_merger.rs:1145-1157 | the relation rows of all buckets |
| StructureBuckets.RelationBucketsAgree | src/dataset_structure_merger.rs:1082-1157 | for relations the bucketed merge equals one direct group-by up to row order, under every hash function |
| StructureBuckets.EntityBucketsAgree | src/dataset_structure_merger.rs:1112-1144 | for entities it does so exactly when no group is split over two buckets |
| StructureBuckets.EveryHashAgrees | src/dataset_structure_merger.rs:1112-1144 | under all hash functions at once exactly when name_kwd is a function of the group key |
| StructureBuckets.SplitEntity | src/dataset_structure_merger.rs:1112-1144 | two rows of one payload, filed under the names a and b, are written as more rows than the one of the direct group-by under a hash that keeps the names apart, whatever the payload |
| StructureBuckets.NamedEntitiesAgree | src/dataset_structure_merger.rs:1112-1144 | in particular when name_kwd is the lower-cased payload name |
| StructureBuckets.MentionsConserved | src/dataset_structure_merger.rs:178-190 | the total mention count survives the bucketed merge, split groups or not |
| StructureBuckets.MergedRowOfGroup | src/dataset_structure_merger.rs:488-537 | each merged row carries the mention total and the duplicate-free first-seen chunk and document lists of exactly the rows of its key |
| StructureBuckets.FirstSeenOrder | src/dataset_structure_merger.rs:501-511 | the lists keep the order of first occurrences |
| StructureBuckets.DocsAreUnion | src/dataset_structure_merger.rs:512-515 | the documents of a merged row are those of its group, each once |
| Grouping.BucketedIsDirect | src/dataset_structure_merger.rs:1130-1157 | merging by buckets gives the directly merged rows up to order exactly when no group is split, and more rows otherwise |
| Grouping.BucketedTotal | src/dataset_structure_merger.rs:1130-1157 | a total weight is conserved by any bucketing |
| StructureCleanup.CollectDeleted | src/dataset_structure_merger.rs:783-805 | the documents named by the markers |
| StructureCleanup.Classify | src/dataset_structure_merger.rs:845-867 | which found rows are deleted by identifier and which are shrunk to what, in order |
| StructureCleanup.RemoveAndShrink | src/dataset_structure_merger.rs:878-895 | the writes: one delete by the collected identifiers, then one update for each collected shrink |
| StructureCleanup.RewrittenIsClean | src/dataset_structure_merger.rs:845-895 | where the rows of the dataset carry their own trimmed identifiers these writes delete exactly the ghosts and shrink exactly the other affected rows |
| StructureCleanup.CleanupDeletedDocs | src/dataset_structure_merger.rs:742-900 | the two passes as a function of the rows, the index and the failing page reads, for every store |
| StructureGhosts.NoGhostsLeft | src/dataset_structure_merger.rs:742-900 | without read failures the cleanup succeeds, and then no row of the graph names a document of any marker |
| StructureGhosts.SuccessExactly | src/dataset_structure_merger.rs:742-900 | whatever page reads fail: after a reported success the graph names a document no more exactly when it stood on a marker page read before the first failing one, or every row of the graph that named it was sourced by read documents alone |
| StructureGhosts.CleanupIsClean | src/dataset_structure_merger.rs:742-900 | a reported success has removed the documents of the pages read from the graph and nothing else; a reported failure has changed nothing |
| StructureGhosts.UnaddressableStays | src/dataset_structure_merger.rs:868-895 | a row whose id is absent, padded or no string is never touched, whatever the cleanup reports |
| StructureGhosts.RemovedExactly | src/dataset_structure_merger.rs:845-883 | a row disappears exactly when it is in the graph, lists a deleted document and no other |
| StructureGhosts.OthersUntouched | src/dataset_structure_merger.rs:856-895 | every other row is untouched or keeps its surviving documents in order |
| StructureGhosts.CleanupIdempotent | src/dataset_structure_merger.rs:742-900 | without read failures a second cleanup, which scans the markers anew, changes nothing and succeeds |
| StructureBuild.InsertBatched | src/dataset_structure_merger.rs:1141-1143 | batches of 500 write what one insertion would |
| StructureBuild.LoadLastBuildTime | src/dataset_structure_merger.rs:396-417 | the last build time of a graph, if it is positive |
| StructureBuild.SaveBuildTime | src/dataset_structure_merger.rs:420-456 | the build-time row is updated or inserted |
| StructureBuild.Prepare | src/dataset_structure_merger.rs:978-1012 | a full rebuild drops the old dataset rows, an incremental one cleans them, for every store with one row to a key |
| StructureBuild.DoBuild | src/dataset_structure_merger.rs:963-1170 | one build as a function of the stored rows, which keeps one row to a key |
| StructureStored.RelationStored | src/dataset_structure_merger.rs:1082-1170 | for every relation row merged the build leaves a dataset row from its own source to its own target with its own type, lower-cased and trimmed, made from all the merged rows about that relation, with their chunks and documents, unless another merged row has its identifier |
| StructureStored.EntityStored | src/dataset_structure_merger.rs:1112-1170 | for every entity row merged the build leaves a dataset row with its lower-cased name, type, mention count and content, made from all the merged rows about that entity, if the name stands for one type in one bucket and no relation has its identifier |
| StructureStored.WriteStored | src/dataset_structure_merger.rs:1131-1157 | of the rows a build writes under one identifier exactly the last one is in the store afterwards |
| StructureStored.EveryWriteStored | src/dataset_structure_merger.rs:1131-1157 | a build leaves all the rows it writes in the store exactly when no two different ones share an identifier |
| StructureStored.TypeLost | src/dataset_structure_merger.rs:68-80 | of two merged entity rows that agree in name and differ in type not both merged rows are left in the store, since the identifier omits the type |
| StructureStored.RelationKeyBack | src/dataset_structure_merger.rs:604-640 | a stored relation row reads back under the key of its group exactly when trimming and lower-casing leave that key as it is, and with its chunks |
| StructureStored.EntityKeyBack | src/dataset_structure_merger.rs:469-485 | a stored entity row reads back under the key of its group, with the mention count and the chunks of the group |
| StructureIds.NamesApart | src/dataset_structure_merger.rs:54-104 | within a graph merged rows of different names never share an identifier, and none has that of the build time |
| StructureIds.GraphsApart | src/dataset_structure_merger.rs:54-104 | build-time rows and merged rows of different graphs without colons in their names never share an identifier, a missing template counting as an empty one |
| StructureIds.HashKeepsApart | src/structure_compile.rs:765-768 | a hash without collisions on the texts joined by colons keeps the build-time rows and the merged rows of all such graphs apart |
| StructureStored.SourceMeaning | src/dataset_structure_merger.rs:1062-1125 | merged are exactly the scanned rows of no disabled document and not older than the last build: as relations those that say so or have a source keyword, as entities the others with a name |
| StructureStored.ScannedMeaning | src/dataset_structure_merger.rs:1014-1033 | scanned are exactly the document rows of the graph in the prepared store |
| StructureStored.DocumentSurvives | src/dataset_structure_merger.rs:985-1012 | preparing the store, by dropping or by cleaning, leaves the document rows as they are |
| StructureStored.TimeReadsBack | src/dataset_structure_merger.rs:396-456 | the saved build time is the one the next build loads |
| StructureDisabled.DisabledGone | src/dataset_structure_merger.rs:985-1170 | a build that starts anew leaves no row of its graph naming a disabled document |
| StructureDisabled.RunDropsDisabled | src/dataset_structure_merger.rs:1329-1367 | a run with disabled documents builds every graph anew, so that none names such a document after its build |
| StructureBuild.RecordDocDeletion | src/dataset_structure_merger.rs:360-389 | writes the marker row if the index exists |
| StructureBuild.ConsumeDeletionMarkers | src/dataset_structure_merger.rs:903-953 | deletes the found marker rows by identifier |
| StructureSteps.BuiltStep | src/dataset_structure_merger.rs:963-1170 | a build keeps the markers and the shape of the store, and every row that names a deleted document afterwards named it before; without failing page reads in the second pass it reports success |
| StructureSteps.BuiltExactly | src/dataset_structure_merger.rs:963-1170 | whatever marker pages fail: after a build that reports success its graph names the document no more exactly when it started anew, read a marker of it, or had only rows that went with the documents it read or were replaced by merged ones |
| StructureSteps.OutsideStays | src/dataset_structure_merger.rs:963-1170 | a row that names the document, is not in the graph and has none of its identifiers survives the build unchanged |
| StructureSteps.ConsumedExactly | src/dataset_structure_merger.rs:903-953 | consuming removes the markers and nothing else |
| StructureRun.MarkersConsumedOnlyAfterCleanup | src/dataset_structure_merger.rs:1329-1367 | under every page failure: markers are consumed only by an uncancelled run whose builds all reported success, else the marker stays; in a consuming run each build cleaned its graph exactly when it honoured the marker, and then the graph is clean at the end |
| StructureRun.ConsumingRunExactly | src/dataset_structure_merger.rs:1329-1367 | where each graph has rows and identifiers of its own, a consuming run leaves all its graphs clean exactly when every build honoured the marker |
| StructureRun.ReadableRunIsClean | src/dataset_structure_merger.rs:1329-1367 | when the markers can be read, a run that consumes them leaves none of its graphs naming the deleted document |
| StructureRun.NamedNowhere | src/dataset_structure_merger.rs:1329-1367 | after such a run any graph, eligible or not, names the document no more exactly when all its rows that named it were in some eligible graph |
| StructureLostMarker.LostMarker | src/dataset_structure_merger.rs:766-798 | for every document there is a sound store from which a run with one failing marker read finishes and consumes the marker while its graph still names the document |
| StructureRun.UndisturbedRunConsumes | src/dataset_structure_merger.rs:1329-1367 | without read failures in the second pass every run that is not cancelled finishes and consumes the markers |
| StructureRun.RunStructureMerge | src/dataset_structure_merger.rs:1329-1367 | the loop over the eligible graphs and the final consumption, for every store with one row to a key, indexed or not |
| StructureRun.RecordedDeletion | src/dataset_structure_merger.rs:360-389 | a recorded deletion is a marker of the shape a run relies on |
| Markdown.SplitMarkdownBlocks | src/compiler.rs:178-225 | the line loop computes the blocks of the text |
| Markdown.BlocksFollowGrammar | src/compiler.rs:178-225 | every block is a maximal ordinary run, a fence up to its first closing line, or a table up to its last row |
| Markdown.BlocksUnique | src/compiler.rs:178-225 | there is only one way to divide a text so |
| Markdown.BlocksConcat | src/compiler.rs:178-225 | put together the blocks are the text |
| MarkdownLines.FenceShape | src/compiler.rs:159-167 | a line opens a fence exactly when it is white space, then three or more backticks or tildes, then anything that does not go on with the same mark; the fence has that mark and length |
| MarkdownLines.FenceClosing | src/compiler.rs:169-173 | a line closes a fence exactly when it is white space, at least as many of its marks, and white space |
| MarkdownLines.PipeLine | src/compiler.rs:155-157 | a line belongs to a table when its first character that is not white space is a pipe |
| MarkdownLines.SeparatorHasShape | src/compiler.rs:146-153 | a separator line is cells with one pipe between any two and pipes around, every cell three or more dashes with an optional colon on either side and white space around |
| MarkdownLines.ShapeSeparates | src/compiler.rs:146-153 | every line of that shape is a separator line |
| Slumber.TokenCountMonotone | src/chunk/tokenizer.rs:9-24 | a longer text never counts fewer tokens |
| Slumber.TokensOfText | src/chunk/tokenizer.rs:9-38 | a text counts two tokens for every three wide characters and one for every four others, both rounded up, and at least one if it is not blank |
| Slumber.SplitSlumberLevel | src/compiler.rs:598-641 | boundary loop, joining of short parts and dropping of blank ones |
| Slumber.SplitLevelDense | src/compiler.rs:598-641 | splitting loses nothing but white space and returns no blank part |
| Slumber.SplitPartsLong | src/compiler.rs:631-640 | no part but possibly the first has less than 24 trimmed characters |
| Slumber.SplitCutsAtBoundaries | src/compiler.rs:618-631 | text is cut only right after delimiters |
| Slumber.SlumberCandidates | src/compiler.rs:396-431 | recursive splitting with the size fallback |
| Slumber.CandidatesDense | src/compiler.rs:396-431 | it loses and invents nothing but white space, at every level |
| Slumber.OversizedOnlyByFallback | src/compiler.rs:396-431 | every candidate is within the target or is a piece no level could split, behind a newline |
| CoarseMerge.MergeSmallTextChunks | src/compiler.rs:346-392 | the pending-chunk loop computes the merged records; below the floor of 256 nothing changes |
| CoarseMerge.GroupsPartition | src/compiler.rs:346-392 | the merged groups divide the records into consecutive runs |
| CoarseMerge.GroupsGreedy | src/compiler.rs:346-392 | only ordinary records are grouped, each allowed to join, and no group could have taken the next ordinary record |
| CoarseMerge.MergedWithinTarget | src/compiler.rs:346-392 | every result is one of the records, unchanged, or, merged from several, stays within the token target |
| CoarseMerge.NoFurtherMerge | src/compiler.rs:346-392 | of no two neighbouring ordinary results could the second still be merged into the first |
| CoarseMerge.MergedIdempotent | src/compiler.rs:346-392 | merging merged records again changes nothing |
| CoarseMerge.MergedDivide | src/compiler.rs:357-363 | an atomic or blank record comes out as it is, in its place, and divides the merging |
| CoarseMerge.AtomicMeaning | src/compiler.rs:229-270 | a record is atomic exactly when it is marked as a table, image or figure, shows a picture or a place on a page, or its text has a table in Markdown or HTML or a fence |
| MarkdownChunks.NormalizeMarkdown | src/compiler.rs:540-585 | the markdown branch as a function of the text |
| MarkdownChunks.ChunksByBlock | src/compiler.rs:556-585 | the chunks are those of the blocks in order: one verbatim chunk for a table or fence, the merged candidates for ordinary text |
| MarkdownChunks.AtomicBlockVerbatim | src/compiler.rs:556-585 | every table and every fence is the text of exactly one chunk at its place |
| MarkdownChunks.ChunksKeepContent | src/compiler.rs:540-585 | with white space removed the chunk texts put together are the source text |
| Book.Classify | src/book.rs:82-101 | each level lists its sections in order |
| Book.LevelsPartition | src/book.rs:82-101 | a section is in the level of its class and in no other |
| Book.BinarySearch | src/book.rs:105-128 | the greatest member below the target, or -1 |
| Book.BuildChunks | src/book.rs:130-163 | the chunk loop over the reversed levels |
| Book.ChunkShape | src/book.rs:143-160 | a chunk starts with its own section; the others are earlier sections of its or a deeper reversed level |
| Book.EverySectionCovered | src/book.rs:130-163 | every section of the first depth reversed levels occurs in some chunk |
| Book.EverySectionInResult | src/book.rs:130-192 | and its text in some group of the result |
| Book.GroupChunks | src/book.rs:172-192 | the grouping loop |
| Book.GroupingKeepsSequence | src/book.rs:172-192 | grouping keeps every text, in order |
| Book.GroupsStaySmall | src/book.rs:172-192 | groups coalesced from single-section chunks stay below 218 characters; every other chunk is a group of its own |
| Book.FirstGroupEmpty | src/book.rs:172-192 | the result starts with an empty group exactly when the first chunk does not fit it |
| Book.HierarchicalMerge | src/book.rs:63-193 | the whole merge of a chosen bullet family |
| Book.NaiveMerge | src/book.rs:240-288 | the size loop with overlap and position tags, over whole percentages |
| Book.NaiveKeepsText | src/book.rs:240-288 | without overlap and tags the chunks hold the sections and nothing else |
| Book.NaiveGreedy | src/book.rs:240-288 | a chunk is closed only once it exceeds the threshold |
| BookMeaning.TagIsShortest | src/book.rs:55-60 | what is removed as a position tag is the shortest piece from two at signs and a digit to two hashes on one line |
| BookMeaning.LevelMeaning | src/book.rs:82-101 | the level of a section is its first matching pattern; without one it is a title when the layout says so and the title test does not object, and body text otherwise |
| BookMeaning.TailShare | src/book.rs:262-272 | the overlap is the wanted share of the chunk without its tags, rounded up, from its end |
| BookMeaning.OverlapCarries | src/book.rs:240-288 | every chunk but the first begins with the overlap of the one before it |
| PdfText.CharactersCorrect | src/document_writer.rs:368-389 | the code map lists exactly the distinct characters, ascending, so codes are distinct |
| PdfText.EncodePdfText | src/document_writer.rs:560-569 | the encoding loop; it stops at a character without a code |
| PdfText.EncodeIffCovered | src/document_writer.rs:560-569 | encoding fails exactly when a character has no code |
| PdfCmap.UnicodeCmap | src/document_writer.rs:571-593 | the printed map: header, sections of at most 100 entries, trailer |
| PdfCmap.CmapRoundTrip | src/document_writer.rs:571-593 | reading the printed map gives every code its character back |
| PdfCmap.TextRoundTrip | src/document_writer.rs:560-593 | decoding any encoded text through the printed map gives the text back |
| PdfCmap.SectionAnnounces | src/document_writer.rs:571-593 | a section of the map announces exactly the entries it has, 100 but for the last one |
| PdfPages.PagesPartition | src/document_writer.rs:354-366 | each content line lies on exactly one page, in order, no page overfull or empty |
| PdfPages.LinesAboveMargin | src/document_writer.rs:349-353 | for every font size each line stands above y = 70 |
| PdfPages.DrawBody | src/document_writer.rs:441-456 | the line loop draws the non-empty lines at their heights |
| PdfPages.DrawPage | src/document_writer.rs:415-478 | watermark, header, body and footer of one page, never for want of a code |
| PdfPages.WritePdf | src/document_writer.rs:348-481 | laying out and drawing the pages fails exactly when there are more than 65534 distinct characters |
| PdfPages.EveryLineDrawn | src/document_writer.rs:433-448 | every non-empty content line is drawn on its page, above the margin, and reads back as itself |
| PdfPages.LinesApart | src/document_writer.rs:349-360 | the first line stands at 770 and each line at least its font size below the one before it |
| PdfPages.PageFurniture | src/document_writer.rs:415-478 | every page carries watermark and header as given and the footer text with its own page number, readable through the map, header and footer outside the lines |

## Left out

- HTTP connectors, scraping, LLM and async orchestration, authentication, PostgreSQL and zvec back ends: network and library plumbing.
- Floating-point rounding (metrics, feedback signals, timestamps) is modelled over real numbers; `log2(i + 2)` is a table that starts at 1 and increases strictly.
- Lower-casing of ASCII letters only in `Text.Lower`; the structure merge takes lower-casing as an input.
- Regular expressions are explicit scanners; the bullet patterns of `src/paper.rs` and the title test of the heading merge are inputs, and the pattern family has as many patterns as levels.
- UUIDs, clocks, random vectors, xxh3, JSON parsing and printing, the block cipher's inner workings and file I/O are inputs or parameters.
- Feedback: the weighting mode and the reference list of a message are fixed; owners and sessions are not distinguished.
- Feedback ledger: the documentation reads as if every thumb could be undone; `src/search.rs:339-364` clamps to [0, 100], so the ledger theorem is an equivalence with "no clamped commit".
- Checkpoint store: the file is not rewritten on opening, so file and memory may differ in leases after a restart; `AgentCheckpoint.RestartAgreement` says exactly when.
- Checkpoint store: the byte format of the file and its atomic replacement; workflow and fingerprint are texts.
- Structure merge: failing writes and failing reads outside the two cleanup passes; the collection of eligible templates; the sorted order of the deleted-document list, which no condition observes.
- Structure merge: an incremental build is not claimed to equal a full rebuild, since old rows are passed over.
- StructureRun.MarkersConsumedOnlyAfterCleanup: this and the other theorems about runs assume that generated identifiers are trimmed and are those of no marker, that build-time rows and merged rows do not share one (`StructureIds.HashKeepsApart`: so it is under a hash without collisions), that dataset, keyword and template of the graphs have no colon, that stored rows carry their own trimmed identifiers, and that no document-level row of the deleted document is left.
- StructureGhosts.SuccessExactly: for stores whose rows carry their own trimmed identifiers, as the program writes them; `StructureGhosts.UnaddressableStays` says what happens to rows that do not.
- StructureStored.RelationStored: this and the other theorems on stored rows take the hash of identifiers to be free of collisions and its results trimmed; where two merged rows still share the text of an identifier only the last one stays, which `StructureStored.WriteStored` states for every row.
- StructureStored.EntityStored: likewise; for a name of several types or in several buckets only the last merged row stays (`StructureStored.WriteStored`, `StructureStored.TypeLost`).
- StructureMerge.MergeEntityGroup: embeddings, token fields and the structure kind of the merged row.
- StructureMerge.MergeRelationGroup: embeddings, token fields and the structure kind of the merged row.
- StructureBuild.SaveBuildTime: the create_time text of the row.
- BenchmarkReport.RunRetrievalBenchmark: the latency samples and their percentiles.
- DocStore.MemoryDocStore.Search: the scoring of match expressions is an input, and aggregations are not returned.
- Book.NaiveMerge: threshold and overlap are exact whole percentages where `src/book.rs:240-288` truncates an f64 product.
- PdfPages.WritePdf: the PDF container, its streams and their failures.
- Document store: highlighting and SQL.
- Compiler: the JSON, chunk, text and HTML branches of `normalize_upstream_chunks`, which use the same splitting and merging; no token bound for fallback candidates.
- Heading merge: a chunk's order beyond its first section, since a chunk drops at most one heading at a time; `naive_merge` with custom delimiters.
- PDF writer: fonts, colours and compression; other output formats.
- Crypto: key derivation and the choice of the cipher.
