# YARDA analysis core: a Dafny model

YARDA turns an affine loop program into a memory trace and computes exact least-recently-used reuse
distances through a two-level set-associative cache. Next to each fast form the repository keeps, or its
tests promise, a simple one. This project models both and proves that they agree on every run, together
with the arithmetic, budget and rollback rules around them.

Verify with `dafny verify --resource-limit 2000000 --verification-time-limit 0 dfyconfig.toml`.

## Overview

The modules follow the program's components; each file holds one module of its own name.

- **Recency index.** `BinaryIndex`, `PrefixSums`, `LruStack`, `RankedStack`, `Fenwick`, `Recency`: a tree
  over time slots with compaction and a closed-form rebuild is a move-to-front list, with linear total
  compaction work.
- **Cache levels.** `CacheAddress`, `Histogram`, `CacheLevel`, `ExactCsrd`, `OfflineRank`, `BatchCsrd`,
  `ReuseProfiles`, `BlockMerging`, `ResidentCache`: the online analyzer (keyed by block), the offline one
  (keyed by tag within a set), the unpartitioned profiles and the composition of block profiles all equal
  the list stack, and "distance below associativity" is residency in a bounded cache.
- **Two-level hierarchy.** `LineMapping`, `HierarchyModel`, `LevelSummary`, `ServiceSummary`,
  `StreamingTask`, `BatchHierarchy`, `HierarchyModules`, `ResultValidation`, `EventValidation`: the
  interleaved streaming run and the staged batch run produce the same events and summaries, no internal
  consistency error is reachable, and what a run reports is accepted by the validators.
- **Trace execution.** `LoopWork`, `AffineTerms`, `AffineText`, `NameOrder`, `AffineFormat`,
  `IndexBinding`, `IndexMeaning`, `TraceWalk`, `PreparedTrace`: exact trip counts, an affine parser and
  printer that undo each other, and a lazily prepared slot-based traversal that equals a recursive unroll
  with an environment.
- **Inline calls.** `CallSubstitution`, `InlineExpansion`, `ExpansionPaths`, `ModuleExpansion`,
  `CallSemantics`, `SubstitutionMeaning`, `ExpansionMeaning`, `ModuleHygiene`, `UnhygienicCalls`,
  `ExpandedTrace`: expansion succeeds exactly when every call it reaches fits, unrolls the program in
  place, and preserves call-by-value meaning, calls that are left as they are included, when the calls it
  enters are hygienic, with concrete inputs outside the discipline on which it does not.
- **Layouts.** `LayoutTypes`, `StructuredLayout`, `PreparedLayouts`: a structured access selects exactly
  the leaf its path leads to and a legacy one its row-major element, accesses stay inside their object,
  different rows select different bytes, and a recorded plan agrees with the full walk.
- **Instruction counts.** `InstructionTally`, `InstructionCounts`, `InstructionPaths`: the memoised search
  equals plain expansion and the sum over all inline call sequences, and rejects recursion exactly for
  reachable cycles.
- **Artifact publication.** `ArtifactOutput`: staged publication with rollback over an abstract file map in
  which any operation may fail.

`Machine` holds the fixed-width limits and the option and result types.

Conventions: an exception is an error value; a class whose methods update its fields is a Dafny class; a
standard ordered or unordered map is a Dafny map, traversed in name order where the order can be observed;
a vector that the source reassigns is a sequence field; 64-bit arithmetic is on integers with the source's
own checks written out.

`docs/map-affine-indices-v1.md` names two limits of the program, which are made exact here. It says that
loop variables of inlined callees are not renamed, and the code does not rewrite their start and bound
either. So inlining preserves meaning when every call that the expansion enters is hygienic
(`ExpansionMeaning.HygienicNode`), as `ModuleHygiene.RootExpansion` proves; the scoping discipline
`ModuleHygiene.WellScoped` on the functions that a root reaches is sufficient for that, and
`UnhygienicCalls` gives an input for each clause of it. It also says that an index is unresolved when a
partial sum leaves 128 bits, even if another order would cancel the overflow: `IndexMeaning.EvalTextIsExact`
states exactly when an index has its value, `FourNamesExact` that up to four names never lose it, and
`FiveNamesLost` that five can.

## Model

| member | source | states |
|---|---|---|
| BinaryIndex.AndNegationIsLowBit | backend/src/cache/rd/recency_index.cpp:57 | in machine words of any width, `x & (~x + 1)` is the arithmetic low bit (1 for odd, twice the low bit of the half otherwise), so the step of both tree loops is exact |
| BinaryIndex.UpdatePathIsCover | backend/src/cache/rd/recency_index.cpp:62-82 | the upward path from slot `i` visits node `j` exactly when `j - lowbit(j) < i <= j`, i.e. exactly the nodes whose range holds the slot |
| BinaryIndex.SuccessorCovers | backend/src/cache/rd/recency_index.cpp:78-80 | the step from a node leads to the next node that covers the same slots |
| BinaryIndex.NothingBetween | backend/src/cache/rd/recency_index.cpp:78-80 | no node between a slot and its successor covers the slot: the walk skips nothing |
| PrefixSums.SumPacked | backend/src/cache/rd/recency_index.cpp:101-108 | the weights after packing sum, over any window, to the part of the window within the live count: the closed form used by the rebuild |
| LruStack.TouchKeeps | backend/lru_sim.py:16-24 | a touch keeps the stack free of duplicates, adds only the touched key, and puts it first |
| LruStack.StackAfterKeys | backend/lru_sim.py:12-26 | after any trace the stack holds exactly the addresses of the trace, each once |
| LruStack.AboveIsNewer | backend/lru_sim.py:16-24 | the keys above a key on the stack are exactly the distinct keys referenced since its last reference |
| LruStack.DistanceCountsDistinctKeys | backend/lru_sim.py:20 | the stack position of a key is the number of distinct other keys referenced since its last reference, and is absent exactly for a new key |
| RankedStack.MarksAbove | backend/src/cache/rd/recency_index.cpp:42 | the number of live slots above a key's slot is the key's stack position |
| RankedStack.TouchRanked | backend/src/cache/rd/recency_index.cpp:37-47 | stamping a key with a newer slot orders all keys as the touched stack does |
| RankedStack.MovedMarks | backend/src/cache/rd/recency_index.cpp:42-46 | moving one mark from the old slot to the new one keeps exactly the live slots marked |
| Fenwick.FenwickTree.Add | backend/src/cache/rd/batch_csrd.cpp:20-27 | adds a delta to one position: every node again holds the sum of its range |
| Fenwick.FenwickTree.PrefixSum | backend/src/cache/rd/batch_csrd.cpp:29-38 | returns the sum of the weights at the first `position` positions |
| Recency.CreateIndex | backend/src/cache/rd/recency_index.cpp:13-25 | rejects a zero floor or one above the slot ceiling, and a tree that cannot be stored, and nothing else; a created index is empty and satisfies the whole invariant |
| Recency.RecencyIndex.PrefixSum | backend/src/cache/rd/recency_index.cpp:51-60 | returns the number of live slots up to a slot, read through the tree |
| Recency.RecencyIndex.Update | backend/src/cache/rd/recency_index.cpp:62-82 | changes the mark of one slot and every covering node by one; both in-loop assertions hold at each step |
| Recency.RecencyIndex.SortedBySlot | backend/src/cache/rd/recency_index.cpp:91-99 | lists every live key with its slot, strictly ordered by slot |
| Recency.RecencyIndex.RebuiltTree | backend/src/cache/rd/recency_index.cpp:101-108 | the closed-form rebuild is the tree of the packed marks: node `j` counts the live slots in `(j - lowbit(j), j]` |
| Recency.RecencyIndex.PackSlots | backend/src/cache/rd/recency_index.cpp:109-110 | renumbers the live slots 1, 2, ... in their old order |
| Recency.RecencyIndex.CompactStorage | backend/src/cache/rd/recency_index.cpp:84-114 | fails exactly when a checked capacity or storage size overflows; otherwise keeps the stack, leaves a free slot, has capacity `max(floor, 2*live)` and charges exactly that capacity to the work counter |
| Recency.CompactionKeeps | backend/src/cache/rd/recency_index.cpp:98-113 | packing the slots keeps the recency order of all keys and marks exactly the packed slots |
| Recency.RecencyIndex.Stamp | backend/src/cache/rd/recency_index.cpp:30-48 | moves a key to the next slot and returns its stack position before the touch |
| Recency.RecencyIndex.Observe | backend/src/cache/rd/recency_index.cpp:27-49 | for every key sequence and floor returns exactly the key's move-to-front position (absent when new), across any number of compactions; rejects exactly when a compaction is due and overflows; total rebuilt capacity stays within four times the observations and capacity within `max(floor, 2*distinct keys)` |
| CacheAddress.PowerOfTwoTest | backend/src/cache/mapping/address.cpp:10-13 | `value & (value - 1)` is zero exactly for powers of two |
| CacheAddress.SetCount | backend/src/cache/mapping/address.cpp:34-38 | a valid geometry has a positive set count with `sets * associativity == lines` |
| CacheAddress.SetCountIsPower | backend/src/cache/mapping/address.cpp:34-38 | the set count of a valid geometry is a power of two |
| CacheAddress.DecodeRecomposes | backend/src/cache/mapping/address.cpp:40-52 | a decoded address recomposes: `((tag * sets) + set) * line size + offset`, with offset and set in range |
| CacheAddress.TagsNameBlocks | backend/src/cache/mapping/address.cpp:44-51 | two blocks of one set are equal exactly when their tags are |
| CacheLevel.ColdWhenNew | backend/src/cache/rd/exact_csrd.cpp:38-46 | an access is cold exactly when its block was never referenced before |
| CacheLevel.LevelConserves | backend/src/cache/hierarchy/hierarchy_level_analysis.cpp:50-56 | hits, cold and replacement misses add up to the lookups, and every histogram entry is positive and at most the number of lookups |
| CacheLevel.ColdCountsBlocks | backend/src/cache/hierarchy/hierarchy_level_analysis.cpp:70-78 | cold misses count the distinct blocks |
| CacheLevel.LevelCountsExtend | backend/src/cache/rd/exact_csrd.cpp:38-56 | one more access changes exactly the counters and the one histogram entry of its own observation |
| ExactCsrd.ExactCsrdAnalyzer.Observe | backend/src/cache/rd/exact_csrd.cpp:20-57 | rejects exactly the inconsistently decoded addresses; otherwise returns the outcome and distance of the block in its set's list stack |
| ExactCsrd.ExactCsrdAnalyzer.ObserveLine | backend/src/cache/rd/exact_csrd.cpp:30-56 | after any accepted stream the summary counters and histogram are exactly those of the stream; succeeds whenever storage and counters have room |
| ExactCsrd.ExactCsrdAnalyzer.ObserveInSet | backend/src/cache/rd/exact_csrd.cpp:31-37 | each set's index holds exactly the list stack of that set's blocks |
| OfflineRank.NewerPositions | backend/src/cache/rd/batch_csrd.cpp:91-92 | the difference of two prefix sums over last positions is the key's stack position |
| OfflineRank.RankNext | backend/src/cache/rd/batch_csrd.cpp:80-98 | one offline step returns the list-stack distance and moves the key's mark |
| BatchCsrd.StackRenamed | backend/src/cache/rd/batch_csrd.cpp:81-98 | under `block = tag * sets + set` the tag stack of a set is the block stack of that set |
| BatchCsrd.LineObservationIsObserved | backend/src/cache/rd/batch_csrd.cpp:72-100 | ranking a set's lines by tag gives every row the observation of the whole stream keyed by block |
| BatchCsrd.RecordReuse | backend/src/cache/rd/batch_csrd.cpp:50-70 | counts one finite distance in the run and in its set and classifies the row by `distance < associativity` |
| BatchCsrd.AnalyzeSet | backend/src/cache/rd/batch_csrd.cpp:72-100 | fills exactly the rows of one set with their observations and counts them in the run and in the set |
| BatchCsrd.GroupBySet | backend/src/cache/rd/batch_csrd.cpp:112-121 | groups rows by set in input order, or rejects exactly when some set index is out of range |
| BatchCsrd.AnalyzeBatchCsrd | backend/src/cache/rd/batch_csrd.cpp:104-128 | succeeds exactly when all set indexes are in range; every row then has the outcome and distance of the online analyzer in input order, with the same totals and per-set totals |
| ReuseProfiles.ProfileMeaning | backend/lru_sim.py:12-26 | the histogram entry of `d` counts the references whose distance is `d`, and the cold set is the set of addresses |
| ReuseProfiles.Calculate | backend/lru_sim.py:12-26 | the list-stack loop computes the profile |
| ReuseProfiles.CalculateReuseProfile | backend/src/reuse/profile.cpp:42-68 | the tree-based loop computes the same profile for every trace |
| BlockMerging.TouchAllIsStack | backend/merger.py:16-27 | touching a block on the stack of a trace gives the stack of the concatenation |
| BlockMerging.ProfileComposition | backend/merger.py:29-39 | the profile of a concatenation is the sum of the profiles plus the cross reuses of first references on the earlier stack |
| BlockMerging.BlockMerger.AdjustColdMisses | backend/merger.py:11-14 | adds the block's cold addresses to the global cold set |
| BlockMerging.BlockMerger.AdjustArrayReuses | backend/merger.py:16-27 | returns the distances of first references of addresses on the earlier stack and leaves the stack of the concatenation |
| BlockMerging.BlockMerger.MergeBlock | backend/merger.py:29-39 | merging an exact block profile keeps the global profile exact for the concatenation |
| BlockMerging.MergeBlocks | backend/merger.py:29-39 | folding the merge over any blocks yields the profile of the concatenated trace |
| LevelSummary.HistogramMass | backend/src/cache/rd/exact_csrd.cpp:48-52 | for a fixed set count the hits for any associativity are the histogram mass below it, and the rest are replacement misses |
| LevelSummary.StreamsConserve | backend/src/cache/hierarchy/hierarchy_level_analysis.cpp:50-78 | every stream within the counters passes all conservation tests of the summary |
| LevelSummary.SummarizeStreamingLevel | backend/src/cache/streaming/streaming_hierarchy_summary.cpp:11-33 | accepts exactly the summaries whose counters fit and conserve lookups, finite references and unique lines |
| LevelSummary.SummarizeHierarchyLevel | backend/src/cache/hierarchy/hierarchy_level_analysis.cpp:38-80 | accepts exactly the analyses whose counters fit and conserve; unique lines are the distinct blocks |
| LineMapping.TilesOnce | backend/src/cache/mapping/line_mapping.cpp:33-59 | every byte of a range lies in exactly one of its lines |
| LineMapping.LineBlock | backend/src/cache/mapping/line_mapping.cpp:44-57 | the lines of a range are consecutive cache blocks |
| LineMapping.LineInRange | backend/src/cache/mapping/line_mapping.cpp:33-59 | every line address lies inside the range, so no address wraps |
| LineMapping.MapCacheLines | backend/src/cache/mapping/line_mapping.cpp:10-60 | rejects in the source's order exactly on its range and geometry checks; otherwise delivers as many rows as the range touches lines, in order, and every row carries the object, operation, size, offset, address and ordinal of its access, its own span ordinal and decoded address, and an object offset moved as far as its address |
| HierarchyModel.LlcSeesEveryBlock | backend/src/cache/streaming/streaming_hierarchy_task.cpp:55-81 | the LLC sees every block that L1 sees |
| HierarchyModel.ServiceConservation | backend/src/cache/hierarchy/hierarchy_service_summary.cpp:37-42 | L1 hits, LLC hits and all-cache misses add up to the modelled accesses on every run |
| HierarchyModel.EventAt | backend/src/cache/streaming/streaming_hierarchy_task.cpp:84-101 | event `i` depends only on the rows up to `i` |
| HierarchyModel.EventMeaning | backend/src/cache/streaming/streaming_hierarchy_task.cpp:47-102 | event `i` carries its row; L1 reports the position of the block in its set's list stack after the rows before, and the LLC, exactly for L1 misses and with the same line redecoded, after the misses before; the first level that hits services it |
| HierarchyModel.SummaryMeaning | backend/src/cache/streaming/streaming_hierarchy_task.cpp:104-121 | a task reports its identity, its sizes and its complete coverage, and its hits and misses are the numbers of its events by servicing level |
| ServiceSummary.FinalizeHierarchyService | backend/src/cache/hierarchy/hierarchy_service_summary.cpp:16-53 | succeeds exactly when every sum fits, the conservation equations hold and coverage agrees, and then sets all five flags |
| ServiceSummary.StreamsPass | backend/src/cache/hierarchy/hierarchy_service_summary.cpp:16-53 | the counters of every task run within 64 bits pass all of these checks |
| StreamingTask.EmissionBudget.ConsumeSourceAccess | backend/src/trace/execution/emission_budget.cpp:14-23 | admits a source access exactly below the limit and counts it |
| StreamingTask.EmissionBudget.ConsumeLineReference | backend/src/trace/execution/emission_budget.cpp:25-34 | admits a line exactly below the limit and counts it |
| StreamingTask.EventDelivery.Offer | backend/src/cache/streaming/streaming_hierarchy_task.cpp:84-101 | the sink's log stays the longest prefix within the limit of what was offered, and truncation is flagged exactly when something is missing |
| StreamingTask.StreamingHierarchyTask.constructor | backend/src/cache/streaming/streaming_hierarchy_task.cpp:13-27 | a task starts with two empty analyzers that own separate storage |
| StreamingTask.StreamingHierarchyTask.ObserveLine | backend/src/cache/streaming/streaming_hierarchy_task.cpp:47-102 | rejects lines out of source or span order; otherwise advances both levels and the counters by the line and offers its event |
| StreamingTask.StreamingHierarchyTask.ServeLine | backend/src/cache/streaming/streaming_hierarchy_task.cpp:55-101 | L1 observes every line, LLC exactly the L1 misses; the event carries both outcomes and the first service level |
| StreamingTask.StreamingHierarchyTask.Accept | backend/src/cache/streaming/streaming_hierarchy_task.cpp:29-45 | rejects relative addresses, unknown operations and out-of-order ordinals; otherwise streams every line of the access |
| StreamingTask.StreamingHierarchyTask.Finish | backend/src/cache/streaming/streaming_hierarchy_task.cpp:104-121 | returns the summary of all observed rows, or rejects inconsistent coverage |
| StreamingTask.RunStreamingTask | backend/src/cache/streaming/streaming_hierarchy_task.cpp:29-121 | a task succeeds whenever source, storage and budget allow it, and then its summary and offered events are those of its lines |
| BatchHierarchy.AnalyzeHierarchyLevel | backend/src/cache/hierarchy/hierarchy_level_analysis.cpp:82-89 | succeeds exactly when the row count fits and then summarises and observes the whole level |
| BatchHierarchy.FilterMisses | backend/src/cache/hierarchy/hierarchy_analysis.cpp:25-33 | keeps the L1 misses in order, redecoded for the LLC |
| BatchHierarchy.ZipAll | backend/src/cache/hierarchy/hierarchy_aggregation.cpp:45-81 | succeeds exactly when every L1 miss pairs with the next LLC row and none is left over; the events and counters are those of the pairs |
| BatchHierarchy.AggregateHierarchyTask | backend/src/cache/hierarchy/hierarchy_aggregation.cpp:31-91 | succeeds exactly on aligned and paired levels that pass the service checks |
| BatchHierarchy.ZipIsStreaming | backend/src/cache/hierarchy/hierarchy_aggregation.cpp:42-81 | for every row sequence the staged levels pair up without a missing, mismatched or leftover row, and the zip gives the interleaved events at every position |
| BatchHierarchy.ZipSummaryIsTask | backend/src/cache/hierarchy/hierarchy_aggregation.cpp:83-89 | the counters of the zip are those of the interleaved run |
| BatchHierarchy.AnalyzeMappedTask | backend/src/cache/hierarchy/hierarchy_analysis.cpp:20-38 | the staged run of a task (L1 whole, filter, LLC whole, zip) gives the interleaved summary and events |
| HierarchyModules.AddCoverage | backend/src/cache/streaming/streaming_hierarchy_summary.cpp:35-45 | adds coverage field by field, failing exactly when one of the four sums leaves 64 bits |
| HierarchyModules.AnalyzeStreamingHierarchy | backend/src/cache/streaming/streaming_hierarchy.cpp:15-72 | rejects unequal line sizes and an event limit without a sink; every valid module within the source and line limits, the counters and the storage succeeds; a successful run reports every task's summary, the summed coverage within both limits, and a log that is the module's event sequence cut exactly at the limit, each record carrying the fields of the access of its task whose ordinal it names |
| HierarchyModules.ValidateTaskIds | backend/src/trace/output/mapped_trace.cpp:32-47 | accepts exactly a nonempty list of tasks whose identities are nonempty and pairwise different |
| HierarchyModules.AnalyzeBatchHierarchy | backend/src/cache/hierarchy/hierarchy_analysis.cpp:13-40 | succeeds exactly on valid modules with identified tasks whose line counts fit a counter, with one result per task and the summaries, coverage and events of the interleaved run, each event carrying the fields of the access whose ordinal it names |
| HierarchyModules.CompareModes | backend/tests/cache/streaming/streaming_hierarchy_differential_test.cpp:11-32 | on every module: when streaming succeeds batch does exactly if the tasks are identified, and when batch succeeds within the streaming budget streaming does; summaries and coverage are then equal, and the delivered events are the batch events cut at the limit |
| HierarchyModules.RecordsCountLines | backend/src/cache/streaming/streaming_hierarchy.cpp:49-54 | a module has one event per emitted line reference |
| ResultValidation.ValidateLevel | backend/src/cache/output/hierarchy_result_validation.cpp:16-35 | accepts exactly the levels with positive counts at distances below the unique lines whose mass below and from the associativity gives the hits and replacements |
| ResultValidation.LevelExactly | backend/src/cache/output/hierarchy_result_validation.cpp:16-35 | acceptance of a level in other words: every cold miss is a line of its own, every distance counted is below their number, and the whole histogram is the hits and the replacement misses, the hits below the associativity |
| ResultValidation.ValidateTask | backend/src/cache/output/hierarchy_result_validation.cpp:37-53 | accepts exactly the tasks that pass the flag, level, line-count and service checks |
| ResultValidation.DistancesBelowLines | backend/src/cache/output/hierarchy_result_validation.cpp:25-27 | every distance is below the number of distinct lines |
| ResultValidation.StreamsAccepted | backend/src/cache/output/hierarchy_result_validation.cpp:16-35 | every level of every run is accepted |
| ResultValidation.TasksAccepted | backend/src/cache/output/hierarchy_result_validation.cpp:37-53 | every task of a run is accepted, and its LLC has exactly as many unique lines as its L1 |
| EventValidation.ValidateHierarchyEvents | backend/src/cache/output/hierarchy_event_validation.cpp:116-145 | accepts exactly the logs whose digest, delivery metadata, events, task order and span order pass every check |
| EventValidation.MappingAccepted | backend/src/cache/output/hierarchy_event_validation.cpp:39-57 | an accepted row starts at a byte of its source range, which does not wrap, at the same displacement in the object, the first one at the first byte |
| EventValidation.EventValid | backend/src/cache/output/hierarchy_event_validation.cpp:59-91 | every event of a run passes the event check |
| EventValidation.ModuleRecordsOrdered | backend/src/cache/output/hierarchy_event_validation.cpp:127-144 | the events of a run are in task, source and span order |
| EventValidation.LogAccepted | backend/src/cache/output/hierarchy_event_validation.cpp:116-145 | for every limit the delivered log of a run is accepted with its delivery metadata |
| ResidentCache.ResidentIsTop | backend/src/cache/rd/exact_csrd.cpp:48-56 | an explicit bounded least-recently-used list always holds the first entries of the full recency stack |
| ResidentCache.HitIsResident | backend/src/cache/rd/exact_csrd.cpp:48-56 | `distance < associativity` holds exactly when the block is resident |
| ResidentCache.ForwardedIsMissStream | backend/src/cache/streaming/streaming_hierarchy_task.cpp:64-81 | an LLC touched only by blocks not resident in L1 sees exactly the modelled miss stream |
| ResidentCache.ServiceIsSimulated | backend/src/cache/streaming/streaming_hierarchy_task.cpp:55-81 | the first service level of every line is that of two simulated resident caches |
| LoopWork.LoopIterationCount | backend/src/trace/execution/loop_iteration.cpp:33-43 | for all int64 inputs only a zero step is rejected; every int64 and uint64 expression on the way carries a range obligation that is proved |
| LoopWork.TripCountBelow | backend/src/trace/execution/loop_iteration.cpp:26-43 | iteration `k` runs exactly when its induction value satisfies the loop condition |
| LoopWork.TripCountExact | backend/src/trace/execution/prepared_trace.cpp:104-119 | executed induction values are representable and satisfy the condition and the next one does not, so the induction-overflow rejection is unreachable |
| LoopWork.TripCountUnique | backend/src/trace/execution/loop_iteration.cpp:33-43 | the count is the only number with that property |
| LoopWork.ExpansionBudget.ConsumeExpandedNode | backend/src/trace/execution/expansion_budget.hpp:31-35 | takes one node exactly when it fits |
| LoopWork.ExpansionBudget.ConsumeLoopIterations | backend/src/trace/execution/expansion_budget.hpp:37-47 | reserves a whole loop entry exactly when it fits the single and the cumulative limit |
| LoopWork.ExpansionBudget.ValidateInlineCallDepth | backend/src/trace/execution/expansion_budget.hpp:49-57 | admits a depth exactly within the limit and records the maximum |
| AffineTerms.AddAffineExpression | backend/src/trace/index/affine_expression.cpp:37-49 | succeeds exactly when every scaled product and sum fits int64, and gives the exact normalised sum |
| AffineTerms.AddEval | backend/src/trace/index/affine_expression.cpp:37-49 | the sum has the exact value of the scaled sum in every environment |
| AffineTerms.AddKeepsNormal | backend/src/trace/index/affine_expression.cpp:42-47 | addition leaves no zero coefficient |
| AffineText.ReadingIsUnique | backend/src/trace/index/affine_expression.cpp:51-102 | a text reads as a sum of signed terms exactly when it is the text of that sum: the grammar is unambiguous |
| AffineText.ParseMeaning | backend/src/trace/index/affine_expression.cpp:51-102 | every successful parse is normalised over identifiers and has the exact integer meaning of the text |
| AffineFormat.FormatRoundTrip | backend/src/trace/index/affine_expression.cpp:51-112 | parsing the printed form of any normalised expression over identifiers gives the expression back, INT64_MIN included |
| AffineFormat.FormatAffineExpression | backend/src/trace/index/affine_expression.cpp:104-112 | the printing loop writes every name once, in increasing order, with a sign where it is negative or not first and no coefficient of one, then the constant unless it is zero beside names; no number has leading zeros; this is the text that `FormatRoundTrip` reads back |
| AffineFormat.ScanMagnitude | backend/src/trace/index/affine_expression.cpp:66-77 | the digit loop accepts exactly the magnitudes within the signed limit and never overflows |
| AffineFormat.ParseTerm | backend/src/trace/index/affine_expression.cpp:58-98 | one round reads exactly one signed term, or rejects |
| AffineFormat.ParseAffineExpression | backend/src/trace/index/affine_expression.cpp:51-102 | the parsing loop computes the parse, rejecting exactly on syntax or int64 overflow |
| IndexBinding.PrepareIndex | backend/src/trace/index/prepared_index.cpp:36-65 | the constructor binds a text to slots exactly as its rules say, with the nearest scope first |
| IndexBinding.BindTerms | backend/src/trace/index/prepared_index.cpp:58-63 | binds every term in name order or stops at the first unbound name |
| IndexBinding.EvaluateAffine | backend/src/trace/index/prepared_index.cpp:67-80 | sums in 128 bits and rejects exactly when a partial sum or the result leaves its range |
| IndexBinding.EvaluateNumeric | backend/src/trace/index/prepared_index.cpp:12-21 | the numeric value of a bound index is that of its text, re-read in the environment its slots hold |
| IndexBinding.Evaluate | backend/src/trace/index/prepared_index.cpp:82-92 | the spelling of a bound index is the one its text takes in the environment its slots hold |
| IndexBinding.BoundIsEvalText | backend/src/trace/index/prepared_index.cpp:12-80 | binding once and evaluating by slot equals re-reading the text in the environment |
| IndexBinding.BoundIsEvalSpelling | backend/src/trace/index/prepared_index.cpp:82-92 | the same for the string form |
| IndexBinding.IntegerRoundTrip | backend/src/trace/index/prepared_index.cpp:82-92 | the printed form of an int64 reads back as it, with a sign exactly when negative and without leading zeros |
| IndexBinding.ExactIntegerReads | backend/src/trace/layout/access_layout.cpp:39-51 | spaces, an optional sign and digits are read as the integer they spell exactly when it fits int64 |
| IndexBinding.ExactIntegerSpelled | backend/src/trace/layout/access_layout.cpp:39-51 | nothing else is read |
| IndexBinding.TextPriority | backend/src/trace/index/prepared_index.cpp:36-65 | a text means a variable first, then a variable plus an integer if that sum fits, then an integer, and only then an affine expression |
| IndexBinding.SpellingMeaning | backend/src/trace/index/prepared_index.cpp:82-92 | the emitted spelling reads back as the numeric value, and a text without a value is emitted as written |
| IndexMeaning.EvalTextIsExact | backend/src/trace/index/prepared_index.cpp:67-80 | an index over bound names has a value exactly when the exact integer value of the affine expression the text spells fits int64 and the constant plus the exact terms of the first names, in name order, fits 128 bits for every number of names; it is then that value |
| IndexMeaning.FourNamesExact | backend/src/trace/index/prepared_index.cpp:67-80 | an index over at most four bound names has exactly its value whenever that fits int64: no partial sum can lose it |
| IndexMeaning.FiveNamesLost | backend/src/trace/index/prepared_index.cpp:71-75 | four is sharp: the printed text of an expression over five int64 variables, whose exact value is 2, has no numeric value because its first two terms leave 128 bits |
| TraceWalk.OutcomeSeq | backend/src/trace/execution/expansion_budget.hpp:66-76 | metered runs compose: the second continues with what the first charged |
| TraceWalk.BudgetExact | backend/src/trace/execution/expansion_budget.hpp:37-47 | a run stays within budget exactly when no entry exceeds the single limit and the sum of all trip counts fits the cumulative one; the charged work is then that sum and otherwise a prefix was emitted |
| TraceWalk.BudgetReport | backend/src/trace/execution/expansion_budget.hpp:37-47 | the single-loop limit is reported only for an entry that exceeds it |
| TraceWalk.BudgetStops | backend/src/trace/execution/expansion_budget.hpp:37-47 | a run that the budget ends stops at one entry: everything before fits and is emitted, and the error is the single-loop limit exactly when that entry exceeds it, otherwise the cumulative one, which the sum then exceeds |
| TraceWalk.EntryIsIterations | backend/src/trace/execution/prepared_trace.cpp:86-119 | a loop entry is charged exactly the iterations whose induction value meets the loop condition |
| PreparedTrace.PrepareBody | backend/src/trace/execution/prepared_trace.cpp:63-73 | leaves a prepared loop as it is, and otherwise makes every child of the source body pending |
| PreparedTrace.TraceExecutor.PrepareNode | backend/src/trace/execution/prepared_trace.cpp:16-61 | binds a node on first contact, appending one fresh slot for a loop and nothing otherwise, leaves a prepared node as it is, and rejects unknown types and a literal zero step |
| PreparedTrace.TraceExecutor.EmitAccess | backend/src/trace/execution/prepared_trace.cpp:129-134 | emits the access with its target and, index by index, the spelling and the numeric value that the text has in the current environment |
| PreparedTrace.TraceExecutor.ResolveEntry | backend/src/trace/execution/prepared_trace.cpp:86-105 | resolves affine endpoints anew at each entry and gives the exact trip count; reports an unresolved start before an unresolved bound before a zero step, each exactly when it applies |
| PreparedTrace.TraceExecutor.RunIteration | backend/src/trace/execution/prepared_trace.cpp:112-115 | one iteration is one pass over the body with the loop variable bound; slots below the loop are untouched although the vector may grow |
| PreparedTrace.TraceExecutor.Iterate | backend/src/trace/execution/prepared_trace.cpp:110-119 | the counted loop is the plain loop `value, value + step, ...` while the condition holds |
| PreparedTrace.TraceExecutor.ExecuteBody | backend/src/trace/execution/prepared_trace.cpp:114-115 | runs the children in order, sibling loops included |
| PreparedTrace.TraceExecutor.ExecuteLoop | backend/src/trace/execution/prepared_trace.cpp:86-119 | charges the whole entry before its first iteration |
| PreparedTrace.TraceExecutor.ExecuteNode | backend/src/trace/execution/prepared_trace.cpp:75-120 | however much was prepared before, executing a node emits and charges exactly the metered recursive unroll with an environment, shadowing included |
| PreparedTrace.VisitPreparedAccesses | backend/src/trace/execution/prepared_trace.cpp:138-145 | a traversal succeeds exactly when the unroll has no error and its trip counts fit; it then emits every access in order and charges the sum of the trip counts |
| CallSubstitution.ComposeTerms | backend/src/trace/module/call_substitution.cpp:30-46 | composes the terms in name order, failing exactly on an unreadable actual or an overflow |
| CallSubstitution.SubstituteName | backend/src/trace/module/call_substitution.cpp:20-49 | exact formal, affine composition, deferral, or unchanged |
| CallSubstitution.SubstitutionTouches | backend/src/trace/module/call_substitution.cpp:20-49 | a formal becomes its actual, and a text that names no formal, or is no expression, is left exactly as it is |
| CallSubstitution.SubstituteNode | backend/src/trace/module/call_substitution.cpp:158-239 | rewrites indices, arguments and object identities and leaves loop variables and endpoints as they are |
| InlineExpansion.BindArguments | backend/src/trace/module/calls.cpp:79-88 | parameters stand for their arguments and formal objects for the objects passed, the last of equal parameters; nothing else is bound, and no object when the call passes none |
| InlineExpansion.CalleeAccess | backend/src/trace/module/call_substitution.cpp:158-239 | an access of the callee to a formal object becomes one to the object passed for it; any other keeps its own |
| InlineExpansion.AppendExpandedNode | backend/src/trace/module/calls.cpp:30-110 | appends exactly the expansion of a node, charges exactly its charges in order and reports the first error of budget or expansion; terminates on (functions not on the stack, node) |
| InlineExpansion.AppendExpandedBody | backend/src/trace/module/calls.cpp:112-123 | the same for a body in order |
| InlineExpansion.ExpandLoop | backend/src/trace/module/calls.cpp:101-109 | expands the body apart and keeps the loop around it |
| InlineExpansion.ExpandCall | backend/src/trace/module/calls.cpp:51-99 | checks depth, charges the call, checks arity, then splices the substituted body with the callee on the stack |
| InlineExpansion.ExpansionBudgetExact | backend/src/trace/execution/expansion_budget.hpp:31-57 | the budget admits an expansion exactly when its charges and depths fit, and then has taken every charge |
| InlineExpansion.ExpansionBudgetStops | backend/src/trace/execution/expansion_budget.hpp:31-57 | a budget that runs out stops at one charge, a call that is too deep or else the first node above the limit, with every charge before it taken |
| InlineExpansion.DeepestReached | backend/src/trace/execution/expansion_budget.hpp:49-57 | the recorded depth is the greatest one entered |
| ExpansionPaths.ExpansionExact | backend/src/trace/module/calls.cpp:36-77 | budget apart, an expansion succeeds exactly when every call that a chain of entered calls reaches is defined and, if entered, fits in arguments and objects and repeats no active function; otherwise it reports the reason of such a call |
| ExpansionPaths.ChainsAccepted | backend/src/trace/module/calls.cpp:47-57 | after success no chain is rejected for any reason, and the call at the end of a chain of `n` entered calls is charged at `n` levels below the start |
| ExpansionPaths.ChargedChain | backend/src/trace/module/calls.cpp:55-57 | every depth charged is that of such a chain |
| ExpansionPaths.ExpansionUnrolls | backend/src/trace/module/calls.cpp:30-123 | the result is the program with every entered call replaced, in place and in order, by what its callee's body unrolls to: loops stay around, and accesses, calls that are not entered and other nodes are there exactly once |
| ModuleExpansion.ExpandModule | backend/src/trace/module/calls.cpp:125-183 | succeeds exactly when names and roles are well formed, every function to process expands, all charges fit one budget and task mode finds a root; the result holds, in order, exactly the analyzed functions, or outside task mode all of a module without roles, each body unrolling its function's |
| ModuleExpansion.CollectFunctions | backend/src/trace/module/calls.cpp:135-156 | rejects exactly empty, duplicate and conflicting definitions, for the first function refused and in this order of reasons |
| ModuleExpansion.BodiesKeepOnly | backend/src/trace/module/calls.cpp:160-177 | no expanded body of a module keeps a call that should have been expanded |
| ModuleExpansion.RootsNamedApart | backend/src/trace/module/calls.cpp:160-177 | the expanded roots of a well-formed module, which name its tasks, have nonempty and pairwise different names |
| CallSemantics.NodeExtends | backend/src/trace/module/calls.cpp:60-98 | knowing more names never changes what a program with a meaning does |
| SubstitutionMeaning.ComposedValue | backend/src/trace/module/call_substitution.cpp:30-46 | composition keeps the exact integer value |
| SubstitutionMeaning.SubstitutedValue | backend/src/trace/module/call_substitution.cpp:20-49 | a text with a value in the callee has the same value in the caller after substitution |
| SubstitutionMeaning.NodeSubstituted | backend/src/trace/module/call_substitution.cpp:158-239 | a hygienic callee node, substituted and run in the caller, makes the same steps as in its own scope: accesses, calls that are not entered with their values and objects, and other nodes |
| ExpansionMeaning.NodeExpanded | backend/src/trace/module/calls.cpp:30-110 | running the expansion of a node makes exactly the steps of the node with call-by-value parameters, in order: accesses, calls that are not entered with the values and objects they pass, and other nodes |
| ExpansionMeaning.BodyExpanded | backend/src/trace/module/calls.cpp:112-123 | the same for a body |
| ExpansionMeaning.NodeKeepsOnly | backend/src/trace/module/calls.cpp:36-99 | a successful expansion leaves no call that it should have expanded |
| ExpansionMeaning.NodeCharges | backend/src/trace/module/calls.cpp:47-108 | the charges of an expansion are one per node it yields and one per call it enters |
| ModuleHygiene.SubstitutedMentions | backend/src/trace/module/call_substitution.cpp:30-48 | a substituted text mentions only names of the text or of an actual; a deferred text mentions none |
| ModuleHygiene.RootHygienic | backend/src/trace/module/call_substitution.cpp:158-239 | a root whose reachable, expanded functions keep their parameters and loop variables apart enters hygienic calls only; functions it does not reach do not matter |
| ModuleHygiene.SharedHelper | backend/src/trace/module/calls.cpp:89-98 | two roots may use one loop variable for the argument of one helper |
| ModuleHygiene.RootExpansion | backend/src/trace/module/calls.cpp:160-177 | when every call that its expansion enters is hygienic, an expanded root keeps no call to expand and makes exactly the steps of the root with call-by-value parameters, calls that are not entered included |
| ModuleHygiene.ScopedExpansion | backend/src/trace/module/calls.cpp:160-177 | the same from the scoping discipline on the functions that the root reaches |
| UnhygienicCalls.CapturedActual | backend/src/trace/module/call_substitution.cpp:213-219 | outside the discipline meaning is lost: a callee loop variable that occurs in the actual captures it (`A[5]` becomes `A[0]`) |
| UnhygienicCalls.ParameterInEndpoint | backend/src/trace/module/call_substitution.cpp:213-219 | a loop endpoint that mentions a parameter is not rewritten, and the expansion has no meaning where the call had one |
| UnhygienicCalls.ReboundParameter | backend/src/trace/module/call_substitution.cpp:213-219 | a callee loop that rebinds a parameter is replaced through all the same (`A[0]` becomes `A[5]`) |
| UnhygienicCalls.OverflowingComposition | backend/src/trace/module/call_substitution.cpp:20-49 | a composition that overflows int64 is deferred, and the expansion has no meaning where the call had one |
| ExpandedTrace.NodeWalks | backend/src/trace/execution/prepared_trace.cpp:75-120 | a numeric walk of a node performs exactly the accesses of its meaning, up to the first call that is not entered or node of another type, and reports that node; without one it runs to its end |
| ExpandedTrace.NodeResolves | backend/src/trace/execution/prepared_trace.cpp:75-120 | when no text of a node can lose its value, as none over at most four names can, a node with a meaning runs with every index numeric and can only be stopped by a call that is not entered or a node of another type |
| ExpandedTrace.ExecutedExpansion | backend/src/trace/module/calls.cpp:160-177 | end to end: when every call it enters is hygienic, the executed expansion of a root performs, with every index numeric, exactly the accesses of the root with call-by-value parameters; it runs to the end exactly when the root makes no other step, and otherwise stops with an error at the first |
| LayoutTypes.CheckedProductExact | backend/src/trace/layout/access_layout_structured_type.cpp:58-69 | with positive dimensions the checked product fails exactly when the extent leaves int64 |
| LayoutTypes.ReadState | backend/src/trace/layout/access_layout_structured_type.cpp:25-56 | accepts exactly positive integer sizes and dimensions, and then has the kind, element type, size and dimensions found, in order |
| LayoutTypes.MultiplyDimensions | backend/src/trace/layout/access_layout_structured_type.cpp:60-67 | the checked multiplication loop |
| StructuredLayout.ScanFields | backend/src/trace/layout/access_layout_structured_type.cpp:90-106 | finds exactly the first field with the wanted index when its name agrees, rejects a disagreeing or missing name exactly for that field, and an unknown index exactly when no field has it |
| StructuredLayout.FieldInside | backend/src/trace/layout/access_layout_structured.cpp:31-50 | a field step is accepted exactly for a field inside its structure whose size is its type's extent; it lands at the field's offset inside the type it started from, and no overflow rejection is reachable |
| StructuredLayout.IndexInside | backend/src/trace/layout/access_layout_structured.cpp:52-84 | an index step is accepted exactly below the first dimension; it lands on that element, whose extent is the recorded stride, inside the array, and no overflow rejection is reachable |
| StructuredLayout.WalkHere | backend/src/trace/layout/access_layout_structured.cpp:126-168 | the path loop computes the walk and records its plan |
| StructuredLayout.PrepareStructured | backend/src/trace/layout/access_layout_structured.cpp:93-169 | resolves a structured access exactly when its path leads from a known object, no pointer and of an extent within int64, to a leaf with every index used, and then to the bytes of that leaf; with every rejection in the source's order |
| StructuredLayout.WalkLands | backend/src/trace/layout/access_layout_structured.cpp:126-168 | an accepted walk lands where its path leads: field segments move by the offset of the field they name, index segments by whole rows, every index used once and spelled as in the node |
| StructuredLayout.LandsIsAccepted | backend/src/trace/layout/access_layout_structured.cpp:126-168 | and a walk is accepted whenever its path leads to a leaf |
| StructuredLayout.FieldPathDistance | backend/src/trace/layout/access_layout_structured.cpp:31-50 | on a path of field segments the distance is the sum of the offsets of the fields that the segments name, one in the structure of the other |
| StructuredLayout.WalkInside | backend/src/trace/layout/access_layout_structured.cpp:22-84 | at every step `offset + extent(current type) <= object extent`, and the access lies inside the type the walk started from |
| StructuredLayout.StructuredInside | backend/src/trace/layout/access_layout_structured.cpp:93-169 | no structured access is rejected for an overflow or for leaving its object; an accepted one lies inside it |
| StructuredLayout.RowsDisjoint | backend/src/trace/layout/access_layout_structured.cpp:126-168 | two accepted rows that differ select disjoint bytes from any place |
| StructuredLayout.StructuredDisjoint | backend/src/trace/layout/access_layout_structured.cpp:93-169 | distinct accepted index rows of one access select disjoint bytes |
| PreparedLayouts.ResolvePlan | backend/src/trace/layout/prepared_layout.cpp:18-59 | evaluates a plan in the original checked order |
| PreparedLayouts.Linearize | backend/src/trace/layout/access_layout_legacy.cpp:66-87 | the nested loops compute the checked row-major index and record its plan |
| PreparedLayouts.PrepareLegacy | backend/src/trace/layout/access_layout_legacy.cpp:34-121 | an accepted access is one element of the node's size at its row-major place: the sum of each index times the product of the shape entries after its own; it is accepted exactly when the rank fits and no stride, term, partial sum or byte offset leaves int64 on the way |
| PreparedLayouts.RaisedAccess | backend/src/trace/layout/access_layout_legacy.cpp:66-85 | raising one index by one moves the access by the element size times the product of the last shape entries, as many as there are indices after it |
| PreparedLayouts.LegacyDisjoint | backend/src/trace/layout/access_layout_legacy.cpp:55-85 | distinct rows below the matching trailing dimensions select disjoint bytes |
| PreparedLayouts.LegacyInside | backend/src/trace/layout/access_layout_legacy.cpp:55-85 | and these lie inside the element size times the product of the shape, when the shape has the row's rank |
| PreparedLayouts.NonNegativeFits | backend/src/trace/layout/access_layout_legacy.cpp:66-85 | for positive dimensions and non-negative indices only the largest stride and the byte offset can fail to fit |
| PreparedLayouts.PrepareAccess | backend/src/trace/layout/access_layout.cpp:14-21 | dispatches on a field segment in the path: with one, the bytes are those the path leads to, or a rejection; without one, those of the legacy row-major place, or none |
| PreparedLayouts.WalkAgrees | backend/src/trace/layout/prepared_layout.cpp:18-59 | a plan recorded for one row gives every later row of the rank exactly what the full structured walk gives it, rejections included |
| PreparedLayouts.LinearAgrees | backend/src/trace/layout/access_layout_legacy.cpp:66-87 | the same for legacy strides |
| PreparedLayouts.PlanAgrees | backend/src/trace/layout/prepared_layout.cpp:18-59 | after a first success, plan and full walk agree on every later row of the rank: same bytes, no range, or the same rejection |
| InstructionTally.CheckedMultiply | backend/src/trace/module/instruction_model.cpp:25-30 | fails exactly when the product leaves 64 bits |
| InstructionTally.AccumulateExact | backend/src/trace/module/instruction_model.cpp:39-50 | for balanced counts only the totals can overflow, and totals stay the sums over opcodes |
| InstructionTally.Include | backend/src/trace/module/instruction_counts.cpp:17-22 | fails exactly when a weighted total leaves 64 bits, otherwise gives the exact balanced sum |
| InstructionCounts.IncludeBlock | backend/src/trace/module/instruction_model.cpp:94-101 | includes a block weighted by its executions, phi nodes apart |
| InstructionCounts.ReadFunctionModel | backend/src/trace/module/instruction_model.cpp:52-129 | a function is read only if its metadata is exact, unrestricted, of a known version and contract, with distinct blocks that describe every call, and then fails only by overflow; its count of an opcode is the sum over the blocks, dynamically times their executions and without phi nodes, and its calls are those of the sites, block by block, each executed as often as its own block |
| InstructionCounts.UnrelatedActive | backend/src/trace/module/instruction_counts.cpp:31-34 | what is active outside a closed set does not disturb the counts of its members: reusing a memoised result is sound |
| InstructionCounts.FewerActive | backend/src/trace/module/instruction_counts.cpp:60-61 | what is active when a count completes does not matter to the count |
| InstructionCounts.Expansion.CountInstructions | backend/src/trace/module/instruction_counts.cpp:29-62 | the memoised search answers exactly as plain expansion does, errors included |
| InstructionCounts.Expansion.IncludeCalls | backend/src/trace/module/instruction_counts.cpp:41-59 | adds every inline callee weighted by its site's executions |
| InstructionPaths.PathsAreSequences | backend/src/trace/module/instruction_counts.cpp:29-62 | the paths of a counted function are exactly the sequences of inline call sites that start from it, each once, with the function they end in and the product of their executions |
| InstructionPaths.SequenceWalks | backend/src/trace/module/instruction_counts.cpp:41-52 | a call sequence walks along inline calls to the function it ends in |
| InstructionPaths.WalkIsSequence | backend/src/trace/module/instruction_counts.cpp:41-52 | every walk along inline calls is that of a call sequence |
| InstructionPaths.CountIsPathSum | backend/src/trace/module/instruction_counts.cpp:29-62 | every opcode count is the sum over all inline call paths of own counts, dynamic ones times the product of executions |
| InstructionPaths.SuccessIsAcyclic | backend/src/trace/module/instruction_counts.cpp:33-34 | from a function that is counted no walk of inline calls repeats a function |
| InstructionPaths.SuccessIsReadable | backend/src/trace/module/instruction_counts.cpp:41-50 | everything that inline calls reach from a counted function is defined and readable, and a call of it is expanded exactly when its target is defined and inline |
| InstructionPaths.RejectionIsCyclic | backend/src/trace/module/instruction_counts.cpp:33-34 | a recursion rejection comes with a walk that repeats a function |
| InstructionPaths.ReadableCounts | backend/src/trace/module/instruction_counts.cpp:29-62 | when every reachable function reads without error and its calls agree with the roles, counting can fail only by overflow or recursion |
| InstructionPaths.RecursionExact | backend/src/trace/module/instruction_counts.cpp:33-34 | recursion is rejected only with a reachable cycle; success excludes one and makes everything reachable readable with calls that agree with the roles; when everything reachable is so and nothing overflows, recursion is rejected exactly when a cycle is reachable by inline calls |
| InstructionPaths.CollectDefinitions | backend/src/trace/module/instruction_counts.cpp:75-84 | rejects exactly duplicate names and functions that are both root and inline |
| InstructionPaths.CountIrInstructions | backend/src/trace/module/instruction_counts.cpp:70-98 | reports, in module order, exactly the analyzed functions, or when there is none those that are not inline, each with its plain count, and the total of every opcode is the sum over them; there is no answer exactly without such a function; a rejection comes from the first function without a count, or from the first with which the sum leaves 64 bits |
| ArtifactOutput.ValidatePaths | backend/src/cli/artifact_output.cpp:31-50 | accepts exactly usable targets that are no special file, alias no input and do not alias one another |
| ArtifactOutput.StageArtifact | backend/src/cli/artifact_output.cpp:111-126 | fails exactly with one failed operation and then leaves at most its own staging directory behind; otherwise leaves the document and a backup of an existing target |
| ArtifactOutput.PublishStep | backend/src/cli/artifact_output.cpp:128-136 | renaming a staged document publishes exactly its target |
| ArtifactOutput.PublishAll | backend/src/cli/artifact_output.cpp:128-136 | publishes exactly the first documents up to the one whose rename failed, or all of them when none did; the later targets are untouched |
| ArtifactOutput.RestoreOne | backend/src/cli/artifact_output.cpp:80-95 | puts a published target back, or keeps its staging exactly when that operation failed |
| ArtifactOutput.Rollback | backend/src/cli/artifact_output.cpp:77-97 | after rollback every target is as before, except those whose own restoration failed, whose backup is kept |
| ArtifactOutput.CleanStaging | backend/src/cli/artifact_output.cpp:62-75 | removes the staging that is not kept, and reports exactly the directories whose removal failed |
| ArtifactOutput.PublishJsonArtifacts | backend/src/cli/artifact_output.cpp:101-157 | all or nothing: with valid paths and no failed operation every target holds its document plus LF and no staging remains; when only staging or publishing fails, files and directories are as before; otherwise exactly the targets whose restoration failed are retained with their backup and exactly the directories whose removal failed remain |

## Left out

- JSON and YAML parsing, schema enrichment and normalisation, command-line options and report writing: data plumbing; MAP nodes, metadata and results are typed datatypes whose optional fields stand for missing or ill-typed entries.
- ELF reading, symbol tables, hashes, clocks, memory use and host data: library or system calls; object addresses are given.
- ResultValidation.ValidateTask: does not model the floating-point service ratios and their sign checks, because rounding and signed zeros are what they test; integer counts only.
- `validate_hierarchy_result` beyond levels, tasks and events: metadata and naming checks of one branch each.
- Telemetry and the CSRD statistics: measurement; a ghost counter carries the compaction bound.
- Python dilation, volatile-group and higher-dimensional prediction, plotting, benchmarks and experiment drivers: heuristic or outside the core.
- Cache write policy, delays and configuration validation: not used by the analysis.
- `std::sort` and the standard maps themselves: `SortedBySlot` is an insertion sort with the sorting contract, and map iteration where no order is observable picks any key.
- Containers have the capacity limits of `Recency.StorageLimits`; allocation failure is a rejection there and nowhere else.
- Fields of a prepared loop that are malformed in the JSON sense (a missing `var` or `bound`): typed nodes cannot lack them.
- A `Scalar` access and an `Array` access without indices are one node kind; the name string of an access and its textual rewriting in `substitute_text` and `substitute_tokens` are display only.
- CallSubstitution.SubstituteNode: does not model the object-shape checks of `validate_array_binding`, the copying of object metadata, or display names; the checks only add rejections to expansion, and rewritten path segments repeat the node's indices, which are modelled.
- The prepared node tree is a value that the executor takes and returns, since children are owned by their loop; slots, output and budget are updated in place.
- The expander's output array is passed through as a value; its budget is updated in place.
- ModuleExpansion.ExpandModule: does not model `analysis_scope` regions and `validate_task_scopes`, single-branch checks on metadata.
- ModuleHygiene.RootExpansion: one direction only, from hygienic calls to preserved meaning; a call that is not hygienic may keep its meaning when the values it confuses happen to agree.
- ModuleHygiene.ScopedExpansion: the discipline is read off the functions and not off each call, so it also rejects a function that passes a loop variable to one callee while another callee binds it.
- ExpandedTrace.ExecutedExpansion: one direction, for expansions whose texts cannot lose a value whatever the int64 environment; a text that can lose one may still never meet the values that do.
- InstructionPaths.RecursionExact: does not say which of overflow and recursion is reported when a root meets both, because that depends on the order of its calls.
- The per-block, self and callee breakdowns in the instruction report.
- ArtifactOutput.ValidatePaths: aliasing and special files are facts given with the names (`ArtifactOutput.Naming`), not looked up.
- Real file systems: symbolic links, permissions, concurrent writers and crashes; a failing operation changes nothing but staging content.
