# Proofs about the algorithms of vllm-src and spark-vllm-docker

This project models the self-contained algorithms and state machines of the two code bases and
proves properties of the models, for all inputs and for all runs. `dafny verify dfyconfig.toml`
checks everything (Dafny 4.11).

| file | what it models |
|---|---|
| `ninja_sweep.dfy`, `ninja_summary.dfy`, `ninja_log.dfy` | the ninja-log summariser: shares of elapsed time as an integral, the one-pass sweep that computes them, and the log reader that detects builds |
| `graph_partition.dfy` | the backward pass over graph partitions that decides what each takes, returns and frees |
| `memory_plan.dfy` | the memory-planning pass over nested subgraphs, driven by a stack of states |
| `rocm_chunks.dfy`, `rocm_allocator.dfy`, `rocm_runs.dfy` | the chunked allocator on ROCm: chunk arithmetic in 64 bits, create and map with rollback, unmap and release, and sequences of calls from Python |
| `xpu_quant.dfy`, `xpu_topk.dfy`, `xpu_gather.dfy` | the XPU reference operations: the per-token quantiser, the masked top-k, and the gather from a paged cache |
| `dp_chunks.dfy`, `forward_context.dfy` | token shares and chunks of data-parallel ranks, and contexts that nest and survive exceptions |
| `env_file.dfy`, `cluster_nodes.dfy` | the saved cluster configuration and the node list inside it |
| `common.dfy` | notions that several components share |
| `retry.dfy` | fetching with retries, and downloads that clean up after themselves |

Code that updates variables or objects in place is modelled by methods and classes with loops;
each is proved against a specification function, and the lemmas are about that function. Code
made of expressions is modelled by functions.

What the outside world decides is arbitrary in the model: the driver's calls may fail at any
time, the network delivers anything and raises anything, the sort orders tied events in any way,
and top-k and binary search are replaced by loops or functions that satisfy their definitions.
Floats are real numbers.

## What the proofs found

These properties one would expect do not hold of the code. Each has the exact condition under which
it does, and where it helps an input for which it does not.

* The running minimum takes a negative start for "none yet". It is the least start if and only if
  no start is negative or the last step starts first (`EarliestIsLeastIff`), and the running maximum,
  which begins at zero, is the greatest end if and only if some end is not negative
  (`LatestIsGreatestIff`). The reported length is the elapsed time, and bounds the weighted total,
  under these conditions (`LengthIsElapsedIff`, `WeightedTotalWithinLength`,
  `BusyTotalWithinLengthIff`).
* The reader's last build is found greedily from the front, so it need not be the longest final
  stretch that could be one build (`ShorterThanItCouldBe`). It is if and only if it is the whole log
  or the line just before it could not come before the lines kept (`KeepsLongestIff`). It is always
  the last piece of the one way of cutting the log into builds that each go on for as long as they can
  (`OnlyCut`).
* The closing assertion of the planning pass only counts brackets: an exit before its enter slips
  through (`ReversedBracketsPass`). Success means that the list is well bracketed if and only if no
  exit comes before its enter (`BalancedIffSucceeds`); which lists succeed is `SucceedsIff`.
* Handles of device memory can be lost: live, but in no cell, so that no call will release them. Over
  every sequence of calls, whatever fails, that happens if and only if, for some live handle, a call to map
  overwrites every cell that holds it (`Allocator.Session`, `DroppedIff`); unmapping never loses anything
  (`UnmapLedger`). Among the ways are these:
  * Mapping an allocation that is already mapped always fails, and each create that succeeds before the
    failure loses the handle of its chunk. The allocation is as it should be afterwards if and only if not
    even the first create succeeded (`MapAwake`).
  * Of an allocation that is mapped one release is refused, and unmapping reports a failure; the next call to
    map succeeds and overwrites the cell, though no call to map came again (`RefusedReleaseLoses`, and for
    all such runs `RemappedLoses`).
  * If setting the context fails, or an error is pending, the first create is still made. The new handle is
    live and in the first cell, and unmapping releases it; lost is the handle that was there, if the
    allocation was mapped, and then unmapping reports no error (`PendingKeepsHandle`, `PendingThenUnmapped`).
* A call to map that fails because access could not be set leaves the allocation mapped and reports a
  failure. If no call fails that cannot be undone, a sequence of calls can lose a handle if and only if some
  call to map comes again with no call to unmap in between, and that is so even if every call to map reports
  a failure (`CanBreakIff`). With a call to unmap in between, whatever it reports, it never does
  (`AlternatingNeverBreaks`, `QuietRun`). If calls may fail in any way, it can if and only if some call to map
  comes on an allocation that is awake or after any other (`CanLoseIff`).
* The guard on the chunk size from the environment does not keep the later rounding from wrapping
  to zero, by which the code then divides (`RoundUpWraps`, `LargestSettingWraps`, `PlanChunks`).
  When the division that counts the chunks wraps, there are no chunks at all (`PiecesWrap`), and mapping
  may report success though it maps nothing (`NoChunks`).
* The gather looks a position up by its number counted from 1 and takes the slot from its number
  counted from 0, so a position that is a multiple of the block size is looked up one column too
  far (`RecomposesIff`, `AllInTableIff`), and neither layout of the cache is read correctly for
  all positions (`KeyInBlockLayoutIff`, `ScaleInBlockLayoutIff`, `RowLayoutIff`).
* Closing a sizes context inside another on the same metadata leaves the outer one without sizes, and the
  sizes cannot be read there any more (`ReadableIff`, `NestedSizesUnreadable`).

## Model

| member | source | states |
|---|---|---|
| NinjaSweep.StopFollowsStart | vllm-src/tools/report_build_time_ninja.py:223-228 | in every order the sort may leave, a step's start comes before its stop if and only if it does not stop before it starts, equal times included |
| NinjaSweep.OpenIsRunning | vllm-src/tools/report_build_time_ninja.py:240-255 | between two events at different times, the dictionary of started and not yet stopped steps is the set of steps running throughout |
| NinjaSweep.GainIsShare | vllm-src/tools/report_build_time_ninja.py:238-254 | at every event, what was accumulated since a step started is its share of the elementary intervals so far |
| NinjaSweep.SweepIsIntegral | vllm-src/tools/report_build_time_ninja.py:245-252 | the difference of the accumulated weighted times at stop and start is the sum over elementary intervals of length divided by the number of steps running |
| NinjaSweep.TimesIgnoreTies | vllm-src/tools/report_build_time_ninja.py:223-224 | however ties are broken, the i-th event has the same time |
| NinjaSweep.ShareIgnoresTies | vllm-src/tools/report_build_time_ninja.py:223-224 | no step's share depends on the order of tied events |
| NinjaSweep.Conservation | vllm-src/tools/report_build_time_ninja.py:245-253 | the shares of all steps add up to the time during which some step runs |
| NinjaSweep.BusyWithinElapsed | vllm-src/tools/report_build_time_ninja.py:212-259 | busy time is at most elapsed time, with equality if and only if there is no idle gap |
| NinjaSweep.ShareWithinDuration | vllm-src/tools/report_build_time_ninja.py:74-89 | a step's share lies between zero and its own duration, as the accessor asserts |
| NinjaSummary.EarliestIsLeastIff | vllm-src/tools/report_build_time_ninja.py:209-214 | the running minimum is some start, and at most every start if and only if no start is negative or the last step starts first |
| NinjaSummary.LatestIsGreatestIff | vllm-src/tools/report_build_time_ninja.py:210-216 | the running maximum is never below an end, and is some end if and only if one is not negative |
| NinjaSummary.LengthIsElapsedIff | vllm-src/tools/report_build_time_ninja.py:209-220 | the earliest time is that of the first event, and the latest that of the last, exactly under these two conditions |
| NinjaSummary.WeightedTotalWithinLength | vllm-src/tools/report_build_time_ninja.py:220-259 | where the earliest time is right the weighted total is at most the reported length, and equal if and only if the build was never idle and the latest time is right |
| NinjaSummary.BusyTotalWithinLengthIff | vllm-src/tools/report_build_time_ninja.py:209-259 | for a build that was never idle, the bound holds if and only if the earliest time is right |
| NinjaSummary.NegativeStartBreaksLength | vllm-src/tools/report_build_time_ninja.py:209-214 | a log whose weighted total exceeds the length because a negative start was forgotten |
| NinjaSummary.AloneKeepsAll | vllm-src/tools/report_build_time_ninja.py:77-82 | a step that overlaps no other keeps its whole duration |
| NinjaSummary.CpuTimeIsRunning | vllm-src/tools/report_build_time_ninja.py:211-217 | the total CPU time is the sum over elementary intervals of length times number of steps running, and so never less than the busy time |
| NinjaSummary.CollectEvents | vllm-src/tools/report_build_time_ninja.py:207-219 | the list holds every start and stop once, and the minimum, maximum and total are those of all steps |
| NinjaSummary.SortEvents | vllm-src/tools/report_build_time_ninja.py:224 | the sorted list is a rearrangement ordered by time and kind |
| NinjaSummary.HandleEvent | vllm-src/tools/report_build_time_ninja.py:239-255 | one event keeps the sweep's invariant, or the step that stops is not running and then some step stops before it starts |
| NinjaSummary.Sweep | vllm-src/tools/report_build_time_ninja.py:230-256 | succeeds if and only if every step is forward in time; then each weighted duration is the step's share and the total is their sum |
| NinjaSummary.SummarizeEntries | vllm-src/tools/report_build_time_ninja.py:198-265 | no steps is an index error, a backward step a key error; otherwise durations, both totals and length have the values above for every order of ties, each duration is within its step's, the warning is given if and only if length and weighted total differ by more than 500, and where the earliest time is right the total is never too large |
| NinjaLog.LastBuildIsOneBuild | vllm-src/tools/report_build_time_ninja.py:124-143 | what the reader keeps is a final stretch of the log in which end times never decrease and lines with one hash share their times |
| NinjaLog.ResetIffNotOneBuild | vllm-src/tools/report_build_time_ninja.py:124-143 | a line resets the table if and only if it could not belong to the same build as the lines kept |
| NinjaLog.LastBuildIsLast | vllm-src/tools/report_build_time_ninja.py:124-146 | for every way of cutting the log into builds that each go on as long as they can, the last one is what the reader keeps |
| NinjaLog.CutIsBuilds | vllm-src/tools/report_build_time_ninja.py:124-146 | every log can be cut so |
| NinjaLog.CutsAreEqual | vllm-src/tools/report_build_time_ninja.py:124-146 | no log can be cut so in two ways |
| NinjaLog.OnlyCut | vllm-src/tools/report_build_time_ninja.py:124-146 | a list of lists is such a cut of the log if and only if it is the one that opens a build at every reset, and the reader keeps its last build |
| NinjaLog.KeepsLongestIff | vllm-src/tools/report_build_time_ninja.py:124-143 | no longer final stretch could be one build, if and only if the whole log is kept or the line just before could not come before the lines kept |
| NinjaLog.ShorterThanItCouldBe | vllm-src/tools/report_build_time_ninja.py:133-143 | three lines of which the reader keeps one, though the last two could be one build |
| NinjaLog.HashesAreDistinct | vllm-src/tools/report_build_time_ninja.py:132-148 | one group for each hash that occurs |
| NinjaLog.GroupSharesTimes | vllm-src/tools/report_build_time_ninja.py:133-145 | in one build every line of a group has the group's times |
| NinjaLog.EveryNameGroupedOnce | vllm-src/tools/report_build_time_ninja.py:133-148 | every name lands in exactly one group, as often as it was read |
| NinjaLog.TestsDecideReset | vllm-src/tools/report_build_time_ninja.py:124-143 | the code's two tests, on the last end time and on one target, decide the reset over all lines kept |
| NinjaLog.TestsOnDictionary | vllm-src/tools/report_build_time_ninja.py:124-135 | the same two tests as the code makes them, in seconds and on the dictionary |
| NinjaLog.AddLine | vllm-src/tools/report_build_time_ninja.py:132-147 | the dictionary holds the groups of the lines with this one added |
| NinjaLog.ReadLine | vllm-src/tools/report_build_time_ninja.py:124-147 | the dictionary holds the groups of the lines kept after this line |
| NinjaLog.ReadAny | vllm-src/tools/report_build_time_ninja.py:114-147 | a corrupt line is skipped, any other is read |
| NinjaLog.KeptSay | vllm-src/tools/report_build_time_ninja.py:114-147 | the reader keeps the lines that comparing end times, hashes and start times of the lines themselves says: since the last line that ended before a line kept or repeats the command of one at other times, or all |
| NinjaLog.FirstLines | vllm-src/tools/report_build_time_ninja.py:132-145 | one line opens each group, the first with its hash, and the groups are in the order of these lines |
| NinjaLog.ReadTargets | vllm-src/tools/report_build_time_ninja.py:104-148 | the targets are the groups of the lines kept, in order: each has a thousandth of the times of the line that opens it and the names of all lines with its hash, every line kept stands in exactly one, and in the default mode with its own times |
| GraphPartition.MutationLayout | vllm-src/vllm/env_override.py:209-227 | a mutation without a layout has one if and only if the buffer it mutates has |
| GraphPartition.NoneLayoutIff | vllm-src/vllm/env_override.py:209-227 | with renames followed once, a buffer has no layout if and only if it and, for a renamed mutation, the buffer it mutates are declared so |
| GraphPartition.ReturnedIffDefined | vllm-src/vllm/env_override.py:287-301 | a real name is returned if and only if it is passed on, or produced and unmet, or mutated by a produced graph output |
| GraphPartition.UnmetIsLiveness | vllm-src/vllm/env_override.py:326-328 | the real names unmet before a partition are those with a later use, or graph outputs, and no definition before that |
| GraphPartition.UnmetIsClassicalLiveness | vllm-src/vllm/env_override.py:206-328 | without renaming that is textbook liveness, though the code subtracts returned rather than produced names |
| GraphPartition.WantedDefinitionReturned | vllm-src/vllm/env_override.py:297-307 | a definition of a buffer that is still wanted is returned |
| GraphPartition.NeededIsLive | vllm-src/vllm/env_override.py:229-328 | if nothing is freed too soon, every buffer still wanted is live at every point of the forward run |
| GraphPartition.FreedTooSoonIsUnsafe | vllm-src/vllm/env_override.py:262-285 | freeing a buffer that is still wanted makes the forward run unsafe |
| GraphPartition.SafeIffNoUseAfterFree | vllm-src/vllm/env_override.py:192-330 | running the partitions with the computed signatures finds every input live and every graph output at the end if and only if no partition frees a buffer that is still wanted |
| GraphPartition.SignatureTakes | vllm-src/vllm/env_override.py:232-321 | inputs are the nodes that some node reads or writes under a name with a layout that no node outputs, by their real names, and those to be freed that no node outputs; which of them are freed, the constants and the flag likewise |
| GraphPartition.SignatureReturns | vllm-src/vllm/env_override.py:232-328 | outputs are the real names with a layout that are taken in and not freed, or output here and wanted later, or mutated by a graph output that is output here, where wanted is liveness in the nodes' own fields |
| GraphPartition.RunsSafelyIff | vllm-src/vllm/env_override.py:192-330 | running any list of signatures computed so is safe if and only if no partition frees a buffer that is still wanted |
| GraphPartition.UsedIsLive | vllm-src/vllm/env_override.py:246-262 | in a safe run every node that a partition uses from outside is live before it |
| GraphPartition.CollectNames | vllm-src/vllm/env_override.py:232-264 | the growing sets are the names that some node outputs, that some node reads or writes, and that some node uses for the last time |
| GraphPartition.ComputeSignature | vllm-src/vllm/env_override.py:232-328 | the loop body computes the signature and the next unmet set of the specification |
| GraphPartition.SignPartition | vllm-src/vllm/env_override.py:229-328 | fails if and only if a returned name with a layout is no node; keeps the unmet set's invariant |
| GraphPartition.SignBackwards | vllm-src/vllm/env_override.py:229-328 | the backward loop signs every partition with the names unmet after it |
| GraphPartition.GetGraphPartitionSignature | vllm-src/vllm/env_override.py:192-330 | partitions and flags are paired from the end; a key error if and only if some pair returns a name with a layout that is no node; else the signatures in order, whose inputs, frees, constants, flags and outputs are those that the nodes' own fields say, and which run safely if and only if no partition frees a buffer still wanted |
| MemoryPlan.TrimIsMaximal | vllm-src/vllm/env_override.py:160-166 | trimming removes exactly the longest run of dead planning lines at the end |
| MemoryPlan.TrimKeepsBrackets | vllm-src/vllm/env_override.py:160-166 | trimming leaves a list well bracketed if and only if it was |
| MemoryPlan.MachineIsRecursion | vllm-src/vllm/env_override.py:168-178 | wherever the stack machine meets a well-bracketed piece, it plans it as the recursive traversal does and leaves the stack below alone |
| MemoryPlan.OneStatePerSubgraph | vllm-src/vllm/env_override.py:175-178 | one state is retired for each subgraph |
| MemoryPlan.Parse | vllm-src/vllm/env_override.py:171-178 | every well-bracketed list is the list of a forest of subgraphs |
| MemoryPlan.FlattenBalanced | vllm-src/vllm/env_override.py:171-178 | the list of a forest is well bracketed |
| MemoryPlan.EndsDecides | vllm-src/vllm/env_override.py:169-180 | how the pass ends is decided by bracket depths alone, whatever planning does |
| MemoryPlan.WellBracketedPass | vllm-src/vllm/env_override.py:168-180 | on a well-bracketed list the pass succeeds, equals the recursion, ends with one state and retires one per subgraph plus one |
| MemoryPlan.SucceedsIff | vllm-src/vllm/env_override.py:169-180 | the pass succeeds if and only if the list closes as many subgraphs as it opens, has never closed more than one too many, and plans nothing while it has closed one too many |
| MemoryPlan.BalancedIff | vllm-src/vllm/env_override.py:175-178 | a list is well bracketed if and only if its depth is never negative and ends at zero |
| MemoryPlan.BalancedIffSucceeds | vllm-src/vllm/env_override.py:168-180 | a list is well bracketed if and only if the pass succeeds on it and no exit comes before its enter |
| MemoryPlan.ReversedBracketsPass | vllm-src/vllm/env_override.py:177-180 | a badly bracketed list that passes the closing assertion |
| MemoryPlan.BalancedPass | vllm-src/vllm/env_override.py:160-180 | trimming and planning a well-bracketed list succeeds and is the recursion over the subgraphs of the trimmed lines |
| MemoryPlan.RunPlansEachLine | vllm-src/vllm/env_override.py:168-178 | wherever the machine reaches the end, line by line: which state a line is planned with, what becomes of other lines, and which states are retired |
| MemoryPlan.WrapperCodegen.TrimLines | vllm-src/vllm/env_override.py:160-166 | the lines in place become the trimmed lines |
| MemoryPlan.WrapperCodegen.PlanLines | vllm-src/vllm/env_override.py:169-178 | the lines, the stack and the retired states are those of the machine |
| MemoryPlan.WrapperCodegen.MemoryPlanReuse | vllm-src/vllm/env_override.py:160-180 | trims, plans, and ends as the machine's outcome says; on a well-bracketed list that is success, with the lines and the retired states of the recursion; on success every line is planned with the state that the lines before it make of its own subgraph's, and the states retired are those the subgraphs are left with |
| RocmChunks.RoundUpIsLeast | vllm-src/csrc/cumem_allocator.cpp:341 | the aligned size is the least multiple of the granularity that covers the request |
| RocmChunks.RoundUpWraps | vllm-src/csrc/cumem_allocator.cpp:367-368 | the 64-bit rounding is right if and only if the sum does not wrap, and zero if it does |
| RocmChunks.Align | vllm-src/csrc/cumem_allocator.cpp:341 | the rounded value is a multiple of the granularity, and zero if and only if the request is or the sum wraps |
| RocmChunks.PiecesWrap | vllm-src/csrc/cumem_allocator.cpp:369-370 | the 64-bit chunk count is right if the sum does not wrap, and zero if it does |
| RocmChunks.ChunkSizeFits | vllm-src/csrc/cumem_allocator.cpp:24-42 | the chunk size is the setting in bytes whenever these are positive and fit 64 bits, and 256 megabytes for every other setting and for none |
| RocmChunks.LargestSettingWraps | vllm-src/csrc/cumem_allocator.cpp:36-41 | the largest setting the guard admits rounds to zero |
| RocmChunks.ComputeChunks | vllm-src/csrc/cumem_allocator.cpp:369-391 | positive multiples of the granularity, all but the last the chunk size and none larger, that sum to the aligned size; none at all when the count wraps |
| RocmChunks.TilesFit | vllm-src/csrc/cumem_allocator.cpp:388-390 | chunks that tile are positive and total what is reserved, as mapping takes them; there are none if and only if nothing is reserved |
| RocmChunks.TilesAreEqual | vllm-src/csrc/cumem_allocator.cpp:388-390 | only one list of chunks tiles a size |
| RocmChunks.PlanChunks | vllm-src/csrc/cumem_allocator.cpp:341-391 | from request and setting to chunks: divides by zero if and only if rounding the chunk size wraps, otherwise tiles the aligned size, unless the count wraps |
| RocmAllocator.ClearIff | vllm-src/csrc/cumem_allocator.cpp:163 | the driver lets a range be mapped only if no byte of it is |
| RocmAllocator.Allocator.ReleaseFirst | vllm-src/csrc/cumem_allocator.cpp:153-156 | of the first handles, those remain live whose release was refused, one for each failure |
| RocmAllocator.Allocator.CreateAll | vllm-src/csrc/cumem_allocator.cpp:150-159 | one new handle in each cell, of the size of its chunk; or an error, the cells overwritten as far as creates went, and nothing new live but handles of this call that a release refused |
| RocmAllocator.Allocator.UnmapFirst | vllm-src/csrc/cumem_allocator.cpp:165-171 | of the first chunks, those remain mapped where a call failed, one for each failure |
| RocmAllocator.Allocator.RollBack | vllm-src/csrc/cumem_allocator.cpp:164-176 | what was mapped before is mapped again, and besides it only chunks of the allocation that a call refused to unmap; likewise for the handles |
| RocmAllocator.Allocator.MapChunk | vllm-src/csrc/cumem_allocator.cpp:162-163 | chunk i is mapped at the end of those before it, with its size, to the handle in its cell |
| RocmAllocator.Allocator.MapAll | vllm-src/csrc/cumem_allocator.cpp:160-179 | every chunk mapped from the base on without gaps, or an error and the state rolled back, but for chunks and handles of this call that a cleanup call refused |
| RocmAllocator.Allocator.MapCreated | vllm-src/csrc/cumem_allocator.cpp:160-190 | mapping and access after the creates, with the effect that belongs to the stage where it stops |
| RocmAllocator.Allocator.CreateAndMap | vllm-src/csrc/cumem_allocator.cpp:95-193 | for every pattern of failures, by the stage where it stops: which handles and mappings there are, which cells were overwritten, and that whatever a failed call leaves behind it made itself and a cleanup call refused to take; an access failure is not rolled back, and with an error pending one handle may be created, which stays live in the first cell |
| RocmAllocator.Allocator.UnmapChunk | vllm-src/csrc/cumem_allocator.cpp:220-225 | one chunk is unmapped, or it was not mapped, or the call failed |
| RocmAllocator.Allocator.UnmapChunks | vllm-src/csrc/cumem_allocator.cpp:216-226 | tries every chunk: of those that were mapped only some remain, each with a failure of its own; no error if and only if all were mapped and no call failed |
| RocmAllocator.Allocator.ReleaseChunks | vllm-src/csrc/cumem_allocator.cpp:228-233 | tries every handle: of those that were live only some remain, each with a failure of its own; no error if and only if all were live and different and no call failed |
| RocmAllocator.Allocator.CycleAddress | vllm-src/csrc/cumem_allocator.cpp:240-255 | the reservation is freed and taken again, and is the same unless a call fails or gives another address; other reservations are kept |
| RocmAllocator.Allocator.UnmapAndRelease | vllm-src/csrc/cumem_allocator.cpp:195-261 | whatever the state was, every chunk mapped and every handle live is gone but those with a failure of their own; with no error pending it succeeds if and only if all was in place and no call failed, and then the same range is reserved |
| RocmAllocator.Allocator.PythonCreateAndMap | vllm-src/csrc/cumem_allocator.cpp:686-751 | as creating and mapping, and the error code is clear afterwards in every case |
| RocmAllocator.Allocator.PythonUnmapAndRelease | vllm-src/csrc/cumem_allocator.cpp:588-684 | as unmapping and releasing, and the error code is clear afterwards in every case |
| RocmRuns.MapAsleep | vllm-src/csrc/cumem_allocator.cpp:686-751 | mapping an allocation that is asleep loses nothing, whatever fails: it is awake if it succeeds or only access fails; else it is asleep but for what a cleanup call refused, or one handle created with an error pending, and its cells hold these |
| RocmRuns.MapHolding | vllm-src/csrc/cumem_allocator.cpp:150-179 | mapping one whose chunks are mapped fails and leaves the mappings as they are, whatever else fails; live handles are those of before and, of the new ones, those a cleanup call refused or that was created with an error pending |
| RocmRuns.MapAwake | vllm-src/csrc/cumem_allocator.cpp:686-751 | whatever fails, one that is awake stays awake if and only if no create succeeded, if and only if no cell changed, and otherwise loses exactly the handles of the first chunks, one for each create |
| RocmRuns.UnmapAsleep | vllm-src/csrc/cumem_allocator.cpp:588-684 | whatever fails, unmapping one that is asleep reports an error and leaves it asleep |
| RocmRuns.UnmapHolding | vllm-src/csrc/cumem_allocator.cpp:216-259 | unmapping one whose chunks are mapped leaves, whatever fails, its handles that no cell holds, and besides them and the others only what a call refused; there are such handles if and only if a cell had been overwritten, and then it cannot succeed |
| RocmAllocator.MapLedger | vllm-src/csrc/cumem_allocator.cpp:686-751 | mapping, whatever fails: lost is what was lost before and what the cells drop, no other mapping or reservation changes, and on success the live handles are the others, those lost and those in the cells |
| RocmAllocator.DroppedIff | vllm-src/csrc/cumem_allocator.cpp:150-151 | a live handle is dropped if and only if a create overwrites a cell that holds it and no cell left as it was does |
| RocmAllocator.MapBacks | vllm-src/csrc/cumem_allocator.cpp:150-190 | once every chunk is mapped each is backed by a handle of its own size, so that the memory behind them totals the size of all chunks, and after success every chunk can be accessed |
| RocmAllocator.UnmapLedger | vllm-src/csrc/cumem_allocator.cpp:588-684 | unmapping, whatever fails, loses nothing and touches nothing of others; on success the live handles are the others and those lost, every chunk is unmapped, and the range is reserved |
| RocmAllocator.RunLedger | vllm-src/csrc/cumem_allocator.cpp:588-751 | over every sequence of calls and failures, these books are kept at every call, and handles are lost if and only if some call to map drops one |
| RocmAllocator.Allocator.Perform | vllm-src/csrc/cumem_allocator.cpp:588-751 | one call of either kind does what its contract says by the stage and the failures, and leaves the error code clear |
| RocmAllocator.Allocator.Session | vllm-src/csrc/cumem_allocator.cpp:588-751 | over every sequence of calls and every pattern of failures: after each successful call the live handles are exactly the others, those lost, and after a call to map those in the cells, which are as long as their chunks, every chunk is mapped and accessible or none is mapped, and the range is reserved; no call touches others' handles, mappings or reservations; handles are lost if and only if some call to map overwrites the cells that hold a live one; the error code is clear throughout |
| RocmRuns.MapFollows | vllm-src/csrc/cumem_allocator.cpp:686-751 | a call to map without a failure that cannot be undone takes every condition of the allocation to one that follows |
| RocmRuns.StepFollows | vllm-src/csrc/cumem_allocator.cpp:588-751 | the same for both kinds of call, with the result; unmapping succeeds if and only if the allocation was awake, and leaves handles live in no cell if and only if it was broken |
| RocmRuns.QuietRun | vllm-src/csrc/cumem_allocator.cpp:588-751 | over every run without failures that cannot be undone conditions and results follow one another; handles are lost if and only if the allocation was ever broken, and it never is unless a call to map comes again |
| RocmRuns.BreaksIff | vllm-src/csrc/cumem_allocator.cpp:588-751 | an allocation was broken at some time if and only if it still is or was unmapped while it was |
| RocmRuns.AlternatingNeverBreaks | vllm-src/csrc/cumem_allocator.cpp:588-751 | unless a call to map comes again with no unmap in between, no run of calls and results breaks the allocation |
| RocmRuns.CanMap | vllm-src/csrc/cumem_allocator.cpp:150-190 | an allocation asleep can be mapped, with success or with an access failure |
| RocmRuns.CanBreak | vllm-src/csrc/cumem_allocator.cpp:150-177 | one that is awake can be broken by a call to map that creates all handles and fails at the first mapping |
| RocmRuns.CanUnmap | vllm-src/csrc/cumem_allocator.cpp:216-255 | one whose chunks are mapped can be unmapped, with any of the releases refused |
| RocmRuns.CanRefuse | vllm-src/csrc/cumem_allocator.cpp:216-233 | or with every unmapping and release refused, which leaves it as it was |
| RocmRuns.CanBreakIff | vllm-src/csrc/cumem_allocator.cpp:588-751 | from every state of an allocation awake or asleep, some run of these calls, with every call to map failing and no failure that cannot be undone, loses a handle, if and only if a call to map comes again |
| RocmRuns.CanLoseIff | vllm-src/csrc/cumem_allocator.cpp:588-751 | some run of these calls, with any failures, loses a handle, if and only if a call to map comes on an allocation awake or after another |
| RocmRuns.RemappedLoses | vllm-src/csrc/cumem_allocator.cpp:228-233 | what of the cells' handles a call to unmap leaves live is exactly what is lost when the next call to map creates all handles |
| RocmRuns.RefusedReleaseLoses | vllm-src/csrc/cumem_allocator.cpp:228-233 | from every state awake there is such a run: one release refused, then a call to map that succeeds, and one handle lost |
| RocmRuns.PendingKeepsHandle | vllm-src/csrc/cumem_allocator.cpp:150-158 | the handle created with an error pending is live and in the first cell; lost is the one that was there, if it was live and in no other cell |
| RocmRuns.PendingThenUnmapped | vllm-src/csrc/cumem_allocator.cpp:195-261 | unmapping then releases it: one that was asleep is asleep again and an error is reported, one that was awake has lost a handle and none is |
| RocmRuns.NoChunks | vllm-src/csrc/cumem_allocator.cpp:150-187 | without chunks no call changes what is mapped or live, and mapping may report success |
| XpuQuant.ScaledInRange | vllm-src/vllm/_xpu_ops.py:120-134 | before rounding, values lie in the range, or within half a unit of it in asymmetric mode |
| XpuQuant.RoundLeavesRangeOnlyOnTie | vllm-src/vllm/_xpu_ops.py:133-137 | rounding leaves the range if and only if an asymmetric value lies exactly half a unit above it |
| XpuQuant.ScaleIsTight | vllm-src/vllm/_xpu_ops.py:120-130 | the scale times the largest stored value is the span of the row, the largest absolute value or the difference of the extremes, unless the scale is 0.00001 and the span is too small for that |
| XpuQuant.QuantizationError | vllm-src/vllm/_xpu_ops.py:120-137 | the stored value is in range, and stands for one that differs from the input by at most half a scale, that is half of the larger of 0.00001 and the span divided by the largest stored value |
| XpuQuant.RoundsToEven | vllm-src/vllm/_xpu_ops.py:131-134 | rounding gives the nearest whole number, and on a tie the even one |
| XpuQuant.StoresIffEightBits | vllm-src/vllm/_xpu_ops.py:137 | every row's values fit the stored type if and only if there are at most eight bits |
| XpuQuant.LargeValue | vllm-src/vllm/_xpu_ops.py:120-137 | a row whose largest element is stored as the largest value |
| XpuTopK.TopK | vllm-src/vllm/_xpu_ops.py:485 | what top-k means: distinct positions in descending order, none greater left out |
| XpuTopK.VisibleFirst | vllm-src/vllm/_xpu_ops.py:482-485 | a selection over masked logits takes the visible positions first, as many as there is room for |
| XpuTopK.ErasedInOrder | vllm-src/vllm/_xpu_ops.py:485-489 | among the visible places the erased selection is distinct and descending |
| XpuTopK.ErasedIsTop | vllm-src/vllm/_xpu_ops.py:481-489 | no visible position left out is greater than one selected |
| XpuTopK.ErasedIsVisibleTop | vllm-src/vllm/_xpu_ops.py:481-489 | after masking, selecting and erasing, the row holds a top selection of its visible positions, then -1 |
| XpuTopK.DraftSees | vllm-src/vllm/_xpu_ops.py:458-477 | draft token d of request b may look at a position if and only if it lies in the row and before the request's length less the drafts after it, whatever the length |
| XpuTopK.TopKPerRowDecode | vllm-src/vllm/_xpu_ops.py:458-492 | every row of the buffer receives the top of its own request and draft offset, and the rest of the buffer is unchanged |
| XpuGather.TokenHasPlace | vllm-src/vllm/_xpu_ops.py:387-395 | every token gets a sequence and a position from 1 to that sequence's length, and the clamp changes nothing |
| XpuGather.PlaceHasToken | vllm-src/vllm/_xpu_ops.py:387-395 | every place of every sequence is the place of exactly the token counted from the sequence's start |
| XpuGather.PlacesAreOrdered | vllm-src/vllm/_xpu_ops.py:387-395 | tokens are placed in order |
| XpuGather.RecomposesIff | vllm-src/vllm/_xpu_ops.py:397-402 | column and slot make up the position again if and only if it is no multiple of the block size, and otherwise the column is one too far |
| XpuGather.AllInTableIff | vllm-src/vllm/_xpu_ops.py:398-399 | no look-up leaves the block table if and only if every sequence is empty or shorter than the table's columns hold |
| XpuGather.KeyInBlockLayoutIff | vllm-src/vllm/_xpu_ops.py:397-419 | in the documented layout a key is read where it belongs if and only if its position is no multiple of the block size or the next column of the table repeats its block |
| XpuGather.ScaleInBlockLayoutIff | vllm-src/vllm/_xpu_ops.py:421-430 | in that layout a scale is read where it belongs if and only if the block has one slot and the next column repeats it |
| XpuGather.RowLayoutIff | vllm-src/vllm/_xpu_ops.py:351-430 | in the layout the cache write produces, with four bytes of scale, key and scale are read where they were written if and only if the slot is the first of its block, and the block has several or the next column repeats it |
| XpuGather.ScaleSize | vllm-src/vllm/_xpu_ops.py:423 | the two integer divisions never give less than the width of the scale row, and that width whenever it divides four times the key width |
| XpuGather.ReachableIff | vllm-src/vllm/_xpu_ops.py:411-414 | a row can be read if and only if none of its indices is out of range, counting from either end |
| XpuGather.StartsFromLengths | vllm-src/vllm/_xpu_ops.py:386-424 | where the keys and scales of the token at a given offset of a given sequence are read, in the call's own arguments |
| XpuGather.CopyRows | vllm-src/vllm/_xpu_ops.py:414-430 | copies every row from its start, or finds an index out of range, or after that a wrong shape, and writes nothing |
| XpuGather.LocateToken | vllm-src/vllm/_xpu_ops.py:387-402 | one token's block and slot, unless its column is out of range |
| XpuGather.Locate | vllm-src/vllm/_xpu_ops.py:387-402 | all blocks and slots, unless some column is out of range |
| XpuGather.KeyStarts | vllm-src/vllm/_xpu_ops.py:411-412 | the key addresses of all tokens' places |
| XpuGather.ScaleStarts | vllm-src/vllm/_xpu_ops.py:423-424 | the scale addresses of all tokens' places |
| XpuGather.CpGather | vllm-src/vllm/_xpu_ops.py:362-430 | both destinations hold what lies at the addresses of each token's place; or which of two divisions by zero, three index errors or the shape error ends the call, and what was written by then |
| DpChunks.ShareIsLeast | vllm-src/vllm/forward_context.py:64-66 | a share is the least with which the group carries the rank's tokens |
| DpChunks.GroupShares | vllm-src/vllm/forward_context.py:68-69 | where each rank's group lies among the shares, and what stands there |
| DpChunks.GroupTotal | vllm-src/vllm/forward_context.py:61-69 | a group's shares total at least the rank's tokens and less than one more for each member |
| DpChunks.CuTokensAcrossSp | vllm-src/vllm/forward_context.py:179-184 | the cumulative vector is the prefix sums of the shares |
| DpChunks.GroupEnds | vllm-src/vllm/forward_context.py:175-184 | between the ends of neighbouring groups it grows by what the group carries |
| DpChunks.ChunksAddUp | vllm-src/vllm/forward_context.py:79-87 | for any number of chunks, their sizes total what they reach of n, then n exactly with one idle token for each later chunk; as many start before n as a rounded-up division says |
| DpChunks.ChunkSize | vllm-src/vllm/forward_context.py:83-86 | a chunk size is at least 1 and at most the limit |
| DpChunks.ComputeChunkedLocalNumTokens | vllm-src/vllm/forward_context.py:72-87 | the list holds every rank's chunk size |
| ForwardContext.SizesAreUnset | vllm-src/vllm/forward_context.py:146-169 | after any body, however it ends, local sizes are unset on every metadata that had a sizes context opened and untouched on every other |
| ForwardContext.ReadableIff | vllm-src/vllm/forward_context.py:146-173 | inside a sizes context the sizes can be read after any code if and only if that code opened no sizes context on the same metadata, and they are the context's own |
| ForwardContext.NestedSizesUnreadable | vllm-src/vllm/forward_context.py:158-173 | a read after a sizes context nested in another on the same metadata raises, whatever the metadata and the group size |
| ForwardContext.SeesInnermost | vllm-src/vllm/forward_context.py:293-305 | whatever is read anywhere in a body is the context around it or one that an override in it puts in place |
| ForwardContext.OverrideIsScoped | vllm-src/vllm/forward_context.py:293-305 | an override hides the context around it from all code inside, a read directly inside sees it, and a read after it sees the context around it again |
| ForwardContext.RaisingSkips | vllm-src/vllm/forward_context.py:293-305 | what follows code that raises is skipped, and a handler goes on from the state it left |
| ForwardContext.Process.Run | vllm-src/vllm/forward_context.py:293-305 | for every nesting and every point of raising the global context is restored, and the run is the one in which contexts are arguments handed inwards |
| ForwardContext.Process.RunSized | vllm-src/vllm/forward_context.py:118-169 | a sizes context does what the meaning says, in place |
| EnvFile.EntryReadsBack | spark-vllm-docker/run-recipe.py:551-587 | the line of an entry with a good key gives back the key, and the value less what is stripped from it |
| EnvFile.ReadsPadded | spark-vllm-docker/run-recipe.py:551-561 | spaces and tabs around the line, the key and the value do not matter, nor do one pair of single or double quotes around the value |
| EnvFile.UnquoteUndoesQuoteIff | spark-vllm-docker/run-recipe.py:558-587 | stripping undoes quoting if and only if the value has no outer quotes and, unless it was quoted, no outer space |
| EnvFile.OnlyGoodKeysAreRead | spark-vllm-docker/run-recipe.py:555-560 | whatever a line holds, a key that is read is trimmed, has no equals sign and does not start with a hash |
| EnvFile.LoadedAreGood | spark-vllm-docker/run-recipe.py:551-561 | whatever the file holds, the map loaded has such keys and values without line breaks only |
| EnvFile.LoadSaved | spark-vllm-docker/run-recipe.py:551-593 | with good keys and no line breaks, every key loads as its stripped value, in every order of the keys |
| EnvFile.LoadedIsLast | spark-vllm-docker/run-recipe.py:551-561 | a key is loaded if and only if some line sets it, with the value of the last line that does |
| EnvFile.BreaksSeparate | spark-vllm-docker/run-recipe.py:553 | what stands before and after a line feed or a carriage return is read as separate lines |
| EnvFile.RoundTripIff | spark-vllm-docker/run-recipe.py:551-593 | saving and loading gives the same map if and only if every entry is good |
| EnvFile.SplitUndoesJoin | spark-vllm-docker/run-recipe.py:592 | splitting undoes joining pieces without separators |
| EnvFile.SortedKeys | spark-vllm-docker/run-recipe.py:580 | the keys once each in strictly ascending order |
| EnvFile.LeIff | spark-vllm-docker/run-recipe.py:580 | the order of the keys: a prefix first, otherwise by the first character that differs |
| EnvFile.FormatEntry | spark-vllm-docker/run-recipe.py:582-586 | one entry, quoted if its value holds a space or a comma |
| EnvFile.AddEntries | spark-vllm-docker/run-recipe.py:579-586 | the lines of all entries after the header |
| EnvFile.SaveEnvFile | spark-vllm-docker/run-recipe.py:564-593 | the text is the header and the entries in ascending order, and loads as the same map if and only if every entry is good |
| EnvFile.ReadInto | spark-vllm-docker/run-recipe.py:555-560 | one line sets one key, or nothing |
| EnvFile.LoadEnvFile | spark-vllm-docker/run-recipe.py:531-561 | the map of the file's lines, or an empty one without a file |
| ClusterNodes.WorkerNodes | spark-vllm-docker/run-recipe.py:513-528 | head and workers together are the list |
| ClusterNodes.ParseJoinIff | spark-vllm-docker/run-recipe.py:508-510 | a joined list parses back to itself if and only if its nodes are trimmed, not empty and free of commas |
| ClusterNodes.ParseAppend | spark-vllm-docker/run-recipe.py:508-510 | what stands before a comma and what stands after it is parsed on its own, for every text |
| ClusterNodes.ParsePadded | spark-vllm-docker/run-recipe.py:508-510 | a text without commas is one node without the spaces and tabs around it, or none |
| ClusterNodes.ParseNoLonger | spark-vllm-docker/run-recipe.py:508-510 | parsing never gives a list that takes more room to write |
| ClusterNodes.SavedNodesIff | spark-vllm-docker/run-recipe.py:508-593 | a selection of such nodes, saved and loaded, parses to the same list if and only if no quote stands at either end of it |
| Retry.RunAt | vllm-src/vllm/connections.py:124-149 | attempt i has the base timeout times 4^i and failed in a way worth retrying, and pause i is 4^i |
| Retry.RunAddsUp | vllm-src/vllm/connections.py:121-149 | a call makes at most max(retries, 1) attempts, one more than the pauses it completed; these total (4^k - 1) / 3, and with one that is interrupted still no more than the limit allows, and the timeouts the base times (4^(k+1) - 1) / 3 |
| Retry.RunTriesAgain | vllm-src/vllm/connections.py:44-79 | every timeout, connection failure and status of at least 500 is followed by a pause unless the attempts are used up, and nothing follows a lower status, a missing response, any other exception, a return or an interrupt |
| Retry.Connection.DownloadOnce | vllm-src/vllm/connections.py:338-361 | returns with exactly this attempt's chunks in the file, or raises an ordinary exception with no file, unless removing it failed, and then that is the exception |
| Retry.Connection.RetriedCall | vllm-src/vllm/connections.py:119-151 | every call is a run: retried failures with their timeouts and pauses, then one attempt that returns, is interrupted, is not worth retrying or is the last, or whose pause is interrupted; timeouts, connection failures and statuses of at least 500 are tried again until there have been max(retries, 1) attempts, and nothing else is; the closing assertion is never reached, and the file is as the last attempt leaves it |

## Left out

- Kernels, operator bindings, set-up scripts, benchmarks, network clients, argument parsing, printing, interactive prompts, and the CUDA (non-ROCm) branch of the allocator.
- The ninja log's header check, splitting a line at tabs, numbers that do not parse, grouping by extension, and the report.
- Floating-point rounding, infinities and NaN, tensor devices and element types, including the cast of the scale; bit widths for which the largest quantised value is zero.
- GraphPartition: symbolic inputs, the numbering of unnamed outputs, the order of sets, and renames that form a cycle, on which the original would not return.
- GraphPartition.SafeIffNoUseAfterFree: takes what a scheduled graph provides: real names are not renamed again (FinalNames), frees go by real names of buffers with storage (FreesBuffers), a mutation with storage mutates a buffer with storage (LayoutsFollow), what is wanted at the start is a graph input (StartsFrom), and an output that names a mutation is produced by some partition, with its buffer not produced afterwards (OutputsProduced). The code relies on the scheduler for these and does not check them.
- GraphPartition.SignatureReturns: takes what the scheduler provides: real names are not renamed again, and nodes are freed by their real names.
- MemoryPlan: what planning a line does is an arbitrary function of the line and the state.
- RocmAllocator: the early exits of `my_malloc`, `my_free` and an error code that they leave pending before the first call from Python, reference counts and the interpreter lock.
- RocmRuns.QuietRun: takes at least one chunk, as do CanBreakIff and CanLoseIff; NoChunks says what calls do without any, and Session takes any number.
- RocmRuns.CanBreakIff: its runs are steps that the contracts of the calls allow; that a particular driver makes them is outside the model.
- NinjaSummary.WeightedTotalWithinLength: needs the earliest time to be right, which EarliestIsLeastIff decides; BusyTotalWithinLengthIff says when the bound fails without it.
- NinjaSummary.SummarizeEntries: the steps must be different objects, as the log reader makes them.
- XpuTopK: the prefill variant, which selects before it masks.
- XpuTopK.TopKPerRowDecode: takes a buffer large enough for the rows and columns written, and logits that are finite.
- XpuGather.CpGather: takes a cumulative vector that ends at the token count, one table row for each sequence, and destinations with one row for each token.
- XpuGather.RowLayoutIff: takes slots to be given out as the block table has them, since the slot mapping is an argument of the cache write.
- ForwardContext: batch-size logging, platform hooks and the building of a context in `set_forward_context`.
- EnvFile: the file system, shell quoting, and the interactive node selection before a list is joined.
- Retry: real time, the bodies and headers of requests, and other processes that touch the file; the sync and async wrappers have one model, as they differ only in awaiting.
- Retry.Connection.DownloadOnce: says nothing about the file after an interrupt, which the original does not clean up after.
