# A verified model of Swage

Swage turns variable-length dense segments into GPU tasks. This project models
what decides that its results are right, and proves properties of the model over
every input, every order of execution and every reachable state.

- **Task classification** (`TaskPlan`, `RuntimeClassifier`,
  `DescriptorClassifier`): offsets become warp, CTA, partial and merge records.
  The two-pass classifier of the runtime library writes into a caller-owned
  array; the compiler's classifier stages descriptors. Both are proved against
  one plan.
- **Split execution** (`Monoid`, `SplitExecution`): the records are run as tasks
  over scratch and output memory, in any order that respects the two stages.
- **The per-context guard** (`ContextGuard`): threads that take a context while
  they own, release and retake the interpreter lock; a state machine with its
  invariant, progress and termination.
- **Segmented kernels** (`SegmentTiles`, `TaskPartition`, `Device`,
  `TritonKernels`, `RowsKernel`, `PaddedInputs`, `WrappedLanes`): the one-block,
  packed, CTA, fused, looped, looped-task, rank-two and padded forms of one
  reduction, as programs that run in any order over one output that counts its stores.
- **Summation error** (`SumError`, `KernelSums`): arbitrary summation trees over
  the reals, with a relative error per addition, and the trees of the kernels.
- **Fixed launches** (`FixedLaunch`): a try-lock protocol against other threads,
  with a trace of its effects.
- **Harness and validator** (`Rotation`, `BatchGrowth`, `CandidateNames`,
  `CandidateSelection`, `CompiledTasks`, `Compilation`, `RowStatistics`): what the
  benchmark records is what the validator derives on its own.
- **Traces and lengths** (`Decimal`, `TraceCodec`, `MatrixMarket`,
  `VertexSample`, `Distributions`, with `Sorting` and `Sums`): strict parsers
  with their printers, hash-ranked sampling, and length generators.

`dafny verify dfyconfig.toml` checks everything.

## Conventions

A reduction is an associative operation with an identity (`Monoids.Lawful`), and
commutative where the source reorders it. Python exceptions, refusal strings and
C++ error returns are `Result` and `Option` values. Random draws, timer readings,
Python answers and thread schedules are nondeterministic values in their stated
ranges. Device code runs one program after another in any order; every program
stores only cells of its own, so no interleaving is finer than that.

## What holds only under a condition

- The lane indices and loop counters of the rank-one Triton kernels are 32-bit and
  wrap. The loads of a one-block, packed, CTA or fused program are in bounds if and
  only if the last lane of every tile has an i32 index (`TritonKernels.LaneFits`);
  those of a looped program if and only if its counter stays an i32 past its last
  tile (`TritonKernels.LoopFits`). A layout of at most 2^31 - 4096 values meets
  both at every block up to 4096. The launch contracts require them; nothing in the
  harness checks them, and `WrappedLanes` has a layout for each family that does not
  meet them.
- The rank-two kernel adds a column to a 32-bit row offset: its stores are in bounds
  if and only if (segments - 1) * features is at most 2^31 - 1. Its loads and its
  loop counter are 64-bit and need nothing.
- The padded matrix is limited by its last index. Beyond it the clamp does not
  help: a wrapped index is negative, and the mask keeps it.
- The doubled float64 tolerance of a mean covers divisions rounded to nearest,
  which err by at most u / (1 + u). Under the weaker assumption of one unit u,
  which the comment names, two values leave it for every u up to 3/8.
- "Timed, excluded, or skipped" is exclusive for a candidate unless the filter drops
  it, its family cannot run the row, and the filter keeps another of that family
  (`CandidateSelection.ExactlyOneIff`).

## Model

| member | source | states |
|---|---|---|
| TaskPlan.AdmittedIffNotRefused | include/swage-c/Runtime.h:45-61 | a layout is refused for no reason if and only if its limits are ordered and positive, its offsets start at zero, never decrease, are nonnegative i32 values, end at or below the value count, and its descriptors fit in i32 |
| TaskPlan.WalkNamesTheFirst | unittests/TaskClassifierTest.cpp:536-584 | of several defects in the offsets, the refusal names the one at the first bad offset, and range before order |
| TaskPlan.ReasonIff | lib/Runtime/SwageRuntime.c:43-111 | each of the fourteen reasons is given exactly when its own condition fails and every earlier one holds: the four integer ranges, the zero limits, the order of the limits, the count of offsets, the first bad offset by range or by order, the start, the end and the descriptors |
| TaskPlan.ChunksCovered | include/swage-c/Runtime.h:49-52 | a split segment has ceil(length / chunk) partial ranges, each nonempty, inside the segment and at most one chunk long |
| TaskPlan.ChunksAdjoin | include/swage-c/Runtime.h:49-52 | the ranges begin where the segment begins, end where it ends, follow one another without a gap, and all but the last are one full chunk |
| TaskPlan.PlanListsEverySegment | include/swage-c/Runtime.h:49-57 | every segment is in exactly one of the warp, CTA and merge lists, the one that its length asks for; no other id is in any list, and each list is strictly ascending |
| TaskPlan.PlanHoldsEveryElementOnce | include/swage-c/Runtime.h:49-57 | every element from the first offset to the last lies in exactly one warp segment, CTA segment or partial range, and no other element lies in any |
| TaskPlan.MergeOfHolds | include/swage-c/Runtime.h:71-74 | the merge index of a partial task names the one merge whose range holds it, so the merge ranges partition the scratch slots |
| TaskPlan.PlanSizes | include/swage-c/Runtime.h:54-57 | the counts agree: one record per segment over the three lists, and as many partial tasks and merge indices as chunks |
| TaskPlan.PlanGrows | lib/Runtime/SwageRuntime.c:113-147 | the plan of a prefix of the segments is a prefix of every list of the plan, so records are emitted in segment order |
| TaskPlan.PartialTotalBound | lib/Runtime/SwageRuntime.c:90-106 | there are never more partial tasks than elements |
| RuntimeClassifier.DisorderIsRefused | lib/Runtime/SwageRuntime.c:66-88 | the sign of the first offset and one comparison per segment flag a layout exactly when the walk with range and order checks refuses it |
| RuntimeClassifier.FirstOffsetError | lib/Runtime/SwageRuntime.c:28-41 | the second walk reports the same first refusal as the specification |
| RuntimeClassifier.CountSegments | lib/Runtime/SwageRuntime.c:66-88 | branch-free counting equals the sizes of the warp and merge lists, and detects disorder exactly |
| RuntimeClassifier.CountPartials | lib/Runtime/SwageRuntime.c:90-106 | a quotient and a remainder per split segment add up to exactly the chunks of the plan |
| RuntimeClassifier.CountOffsets | lib/Runtime/SwageRuntime.c:62-111 | refusal with the specified reason, or the counts of the specified plan |
| RuntimeClassifier.CountTasks | lib/Runtime/SwageRuntime.c:43-111 | for every input, including a null or mismatched array, each reason is returned exactly under its own condition, written out, with every earlier one met; a refusal leaves the counts untouched, and admission stores the four sizes of the plan |
| RuntimeClassifier.CountedReason | lib/Runtime/SwageRuntime.c:43-62 | the same for a null array, which is refused after the sizes and the count and before any offset is read |
| RuntimeClassifier.OnlyOverflowIsLeft | lib/Runtime/SwageRuntime.c:90-111 | after the earlier checks the only refusal left is a descriptor overflow |
| RuntimeClassifier.WriteChunks | lib/Runtime/SwageRuntime.c:131-146 | the inner loop writes the ranges and merge indices of one split segment and nothing else |
| RuntimeClassifier.WriteSegment | lib/Runtime/SwageRuntime.c:124-146 | one segment advances the five write cursors to those of the longer plan, and only final cells are written |
| RuntimeClassifier.WriteSegments | lib/Runtime/SwageRuntime.c:113-147 | after all segments every cell below the flat size is final, and no cell past it changed |
| RuntimeClassifier.WriteTasks | include/swage-c/Runtime.h:63-79 | the write pass fills exactly counts[0] + counts[1] + 3 counts[2] + 3 counts[3] cells with the documented layout of the plan, and leaves the rest of the buffer as it was |
| DescriptorClassifier.ValidateOffsets | lib/Dialect/SwagePlan/IR/TaskClassifier.cpp:56-76 | the compiler classifier finds the same first offset defect as the runtime |
| DescriptorClassifier.CountDescriptors | lib/Dialect/SwagePlan/IR/TaskClassifier.cpp:88-105 | its overflow check refuses exactly when segments plus partial tasks exceed i32 |
| DescriptorClassifier.AppendSplitTasks | lib/Dialect/SwagePlan/IR/TaskClassifier.cpp:117-135 | a split segment appends its chunks in order, and one merge over exactly their scratch slots |
| DescriptorClassifier.MaterializeTasks | lib/Dialect/SwagePlan/IR/TaskClassifier.cpp:138-157 | stage zero in segment order, then the merges |
| DescriptorClassifier.ClassifyTasks | lib/Dialect/SwagePlan/IR/TaskClassifier.cpp:279-294 | the staged descriptors of the plan; or a refusal, each reason exactly under its own condition, written out, with every earlier one met |
| DescriptorClassifier.DescriptorIs | lib/Dialect/SwagePlan/IR/TaskClassifier.cpp:108-157 | every descriptor is grouped by its own segment; stage zero has the whole of a segment of at most one chunk, run by a warp exactly up to its limit, or one chunk of a longer segment, run by a CTA; stage one has the merges of the plan |
| DescriptorClassifier.Regroup | unittests/TaskClassifierTest.cpp:232-254 | the loop with pushes computes the grouping of the descriptors by stage, policy and split |
| DescriptorClassifier.RecordsAreRegroupedDescriptors | unittests/TaskClassifierTest.cpp:262-300 | the flat record buffer equals the regrouping of the staged descriptors, list by list, for every layout and limits |
| DescriptorClassifier.MergeOfIsExpanded | include/swage-c/Codegen.h:243-253 | the indices expanded from the flat merge list are those of the plan, and each names the one merge whose range holds its partial task |
| SplitExecution.StageOrderIsASchedule | include/swage-c/Codegen.h:160-179 | stage zero, then the merges, is a schedule: each task once, each merge after the partial tasks of its range |
| SplitExecution.OneWriter | include/swage-c/Runtime.h:45-57 | every output cell has exactly one task that stores it |
| SplitExecution.MergeReadsItsChunks | include/swage-c/Codegen.h:172-179 | the scratch range of a merge holds exactly the chunks of its segment, in order |
| SplitExecution.FoldOfChunks | include/swage-c/Codegen.h:160-179 | folding the folds of the chunks is folding the segment, for any associative operation with an identity |
| SplitExecution.SplitSchedulingReducesEverySegment | include/swage-c/Codegen.h:160-179 | for every admitted layout and every schedule that runs merges after their partial tasks, output[s] is the plain fold of segment s, and every scratch and output cell is stored exactly once |
| ContextGuard.SpuriousKeepsInv | python/SwageExtensionNanobind.cpp:169-184 | a spurious wakeup of the condition variable keeps the invariant |
| ContextGuard.StepOrWakeKeepsInv | python/SwageExtensionNanobind.cpp:169-198 | every step of every thread keeps it: one GIL owner, one mutex owner, busy contexts owned by their holders, and no lost wakeup although notification follows the unlock |
| ContextGuard.RunsKeepInv | python/SwageExtensionNanobind.cpp:169-198 | so it holds in every reachable state, for any number of threads, contexts and calls |
| ContextGuard.AtMostOneThreadPerContext | python/SwageExtensionNanobind.cpp:169-184 | two threads never hold the guard of one context |
| ContextGuard.ReachableStateIsSafe | python/SwageExtensionNanobind.cpp:169-259 | in every reachable state no two threads hold one context; a holder or notifier can step once the mutex is free whoever owns the GIL; a call that waits with the GIL held waits for a compile that needs no GIL or for a notification; and some thread can step or all are done |
| ContextGuard.NoDeadlock | python/SwageExtensionNanobind.cpp:1459-1470 | in every reachable state with an unfinished call some thread can take a step |
| ContextGuard.StepCosts | python/SwageExtensionNanobind.cpp:169-198 | every step lowers a total cost, and a spurious wakeup raises it by at most two |
| ContextGuard.RunsAreBounded | python/SwageExtensionNanobind.cpp:169-198 | so the number of steps of any run is bounded by the initial cost and the number of spurious wakeups |
| ContextGuard.EveryMaximalRunCompletes | python/SwageExtensionNanobind.cpp:169-198 | a run that cannot be extended has finished every call, with no busy context, no GIL owner and no mutex owner |
| ContextGuard.EveryCallIsServed | python/SwageExtensionNanobind.cpp:169-259 | in such a run every call of every thread reaches a state where the thread holds the guard and the context is busy for it: a compile without the GIL, a planned launch with it |
| SegmentTiles.LoadsInBoundsIff | benchmarks/benchmark_triton_comparison.py:1427-1437 | the unmasked lanes of a tile stay inside the values if and only if the index of its last lane is an i32 |
| SegmentTiles.FoldOfTile | benchmarks/benchmark_triton_comparison.py:1427-1437 | a masked tile reduces to the values it covers |
| SegmentTiles.FoldOfCombine | benchmarks/benchmark_triton_comparison.py:1580-1590 | accumulating lane by lane is accumulating the reductions, for a commutative operation |
| SegmentTiles.AccumulateTile | benchmarks/benchmark_triton_comparison.py:1580-1590 | one loop step extends the accumulated prefix of the segment by one block |
| TaskPartition.PartitionLengths | benchmarks/benchmark_triton_comparison.py:1770-1791 | the two lists of the specification, or the refusal of the first length outside 0 to 4096, negative or too long, in both directions |
| TaskPartition.PartitionIsPartition | benchmarks/benchmark_triton_comparison.py:1770-1791 | every segment is in exactly one of the two lists, at exactly one place, by its length |
| Device.Buffer.constructor | benchmarks/benchmark_triton_comparison.py:1866-1884 | a fresh output counts no store |
| Device.Buffer.Store | benchmarks/benchmark_triton_comparison.py:1427-1437 | one store changes one cell and counts it |
| TritonKernels.OneBlockProgram | benchmarks/benchmark_triton_comparison.py:1427-1437 | one program stores the reduction of its segment, and only that cell |
| TritonKernels.LaunchOneBlock | benchmarks/benchmark_triton_comparison.py:1427-1437 | in any order of the programs, every output cell holds its segment and was stored once, when the block covers the longest segment |
| TritonKernels.LoopedTotal | benchmarks/benchmark_triton_comparison.py:1580-1590 | the data-dependent loop, whose i32 counter wraps, ends with the accumulated tiles of the segment lane by lane, which reduce to the segment for a commutative operation |
| TritonKernels.LaunchLooped | benchmarks/benchmark_triton_comparison.py:1887-1894 | the same for the looped kernel, any block size and any length whose loop counter stays an i32 |
| TritonKernels.LoopLoadsInBoundsIff | benchmarks/benchmark_triton_comparison.py:1580-1590 | every load of every tile that the loop visits, also after its counter wraps, is in bounds if and only if the counter stays an i32 past every tile |
| TritonKernels.LoopFitsIff | benchmarks/benchmark_triton_comparison.py:1580-1590 | in closed form: if and only if begin + ceil(length / block) * block is at most 2^31 - 1 |
| TritonKernels.LoopReadsOutside | benchmarks/benchmark_triton_comparison.py:1580-1590 | otherwise the loop visits a tile that reads outside the values: its last lane wraps, or the counter does and the next tile is negative |
| WrappedLanes.LoopedRunsOn | benchmarks/benchmark_triton_comparison.py:1580-1590 | a segment that ends at 2^31 - 1 in blocks of 128: the lanes of its own tiles fit, but the counter wraps, the loop goes on below zero and never ends |
| TritonKernels.ShortTotal | benchmarks/benchmark_triton_comparison.py:1446-1472 | a slot of a packed program reduces to its own segment, although four short segments share one tile |
| TritonKernels.PackedHalf | benchmarks/benchmark_triton_comparison.py:1446-1472 | a packed program stores its up to four segments, each once, and nothing else |
| TritonKernels.CtaProgram | benchmarks/benchmark_triton_comparison.py:1476-1487 | a CTA program stores the reduction of its long segment |
| TritonKernels.LoopedTaskProgram | benchmarks/benchmark_triton_comparison.py:1605-1615 | so does a looped CTA program, for any block |
| TritonKernels.StridedTotal | benchmarks/benchmark_triton_comparison.py:1496-1564 | 128 lanes striding through 4096 elements accumulate exactly the segment |
| TritonKernels.LongHalf | benchmarks/benchmark_triton_comparison.py:1496-1564 | the long half of a fused program stores its segment when it is enabled, and nothing otherwise |
| TritonKernels.FusedProgram | benchmarks/benchmark_triton_comparison.py:1496-1564 | one fused program, short or long, completes exactly its own cells |
| TritonKernels.LaunchFused | benchmarks/benchmark_triton_comparison.py:1866-1884 | for lengths up to 4096 partitioned at 32, all programs in any order leave every output equal to its segment, each cell stored once |
| TritonKernels.FusedLoadsInBoundsIff | benchmarks/benchmark_triton_comparison.py:1496-1564 | every unmasked load of every fused program is in bounds if and only if the last lane of every short and long task is an i32 index |
| TritonKernels.SegmentLaunchLoadsInBoundsIff | benchmarks/benchmark_triton_comparison.py:1427-1437 | every load of the one-block launch is in bounds if and only if the last lane of every segment is an i32, and every load of the looped launch if and only if every counter stays one |
| TritonKernels.PlannedLoadsInBoundsIff | benchmarks/benchmark_triton_comparison.py:1809-1863 | the same for the packed launch and the CTA launch after it, in one block or looped |
| TritonKernels.SmallLayoutFits | benchmarks/benchmark_triton_comparison.py:1866-1884 | a layout of at most 2^31 - 4096 values meets every condition on lane indices, at every block up to 4096 |
| WrappedLanes.OneBlockReadsOutside | benchmarks/benchmark_triton_comparison.py:1427-1437 | 2^31 - 1 values in segments of at most 64 elements: the last tile of the one-block kernel reads outside the values |
| WrappedLanes.PackedReadsOutside | benchmarks/benchmark_triton_comparison.py:1446-1472 | 2^31 - 1 values in segments of at most 32 elements: the last slot of the packed and of the fused launch reads outside |
| WrappedLanes.LongReadsOutside | benchmarks/benchmark_triton_comparison.py:1476-1564 | 2^31 - 1 values in segments of at most 4096 elements: the last CTA tile, in a launch of its own or fused, reads outside |
| TritonKernels.StridedLoadsInBoundsIff | benchmarks/benchmark_triton_comparison.py:1496-1564 | the same condition for one strided segment |
| TritonKernels.LaunchPacked | benchmarks/benchmark_triton_comparison.py:1809-1863 | the packed launch completes the cells of its programs only |
| TritonKernels.LaunchLong | benchmarks/benchmark_triton_comparison.py:1809-1863 | the CTA launch completes the remaining cells |
| TritonKernels.LaunchPlanned | benchmarks/benchmark_triton_comparison.py:1809-1863 | packed plus CTA tasks, looped or not, in any order of each grid, reduce every segment, each cell stored once |
| PaddedInputs.GatherInBoundsIff | benchmarks/benchmark_triton_comparison.py:1370-1384 | every index of the padded gather is in bounds if and only if the last index of the last row is an i32; a wrapped index is negative and the clamp leaves it |
| PaddedInputs.MaskIsSegmentIff | benchmarks/benchmark_triton_comparison.py:1370-1384 | under the same condition, and no other, the mask taken before the in-place clamp keeps exactly the cells of each segment |
| PaddedInputs.MaskAndIndices | benchmarks/benchmark_triton_comparison.py:1370-1384 | the mask sees the indices before the clamp |
| WrappedLanes.PaddedIndexWraps | benchmarks/benchmark_triton_comparison.py:1370-1384 | two segments of 2^31 - 1 values together: a padding cell wraps, passes the mask, and is still negative after the clamp |
| PaddedInputs.PaddedInputs | benchmarks/benchmark_triton_comparison.py:1370-1384 | the matrix holds every segment padded with the identity; otherwise the gather fails exactly when some index is one no tensor takes |
| PaddedInputs.PaddedSumIsWanted | benchmarks/benchmark_triton_comparison.py:1387-1389 | the sum of the padded rows is the reduction of every segment |
| RowsKernel.RowsColumns | benchmarks/benchmark_triton_comparison.py:1689-1694 | the column block is a power of two between 4 and 64, less than twice what is needed, and the blocks cover the features exactly |
| RowsKernel.AccumulateRows | benchmarks/benchmark_triton_comparison.py:1635-1686 | a step accumulates the rows it covers in every column |
| RowsKernel.BlockTotals | benchmarks/benchmark_triton_comparison.py:1635-1686 | after the loop every column of the block holds the reduction of the segment rows |
| RowsKernel.StoresInBoundsIff | benchmarks/benchmark_triton_comparison.py:1635-1686 | the stores, at a 32-bit row offset plus a column, stay in the output if and only if (segments - 1) * features is at most 2^31 - 1 |
| RowsKernel.StoresAtTheLimit | benchmarks/benchmark_triton_comparison.py:1683-1685 | 2^30 rows of two columns are in bounds and one row more is not; 715827883 rows of three columns, more than 2^31 cells, are |
| RowsKernel.ColumnLanesFit | benchmarks/benchmark_triton_comparison.py:1635-1686 | column lanes never wrap, because the block divides 2^31 |
| RowsKernel.RowsProgram | benchmarks/benchmark_triton_comparison.py:1635-1686 | one program completes the cells of its segment and column block and no other |
| RowsKernel.LaunchRows | benchmarks/benchmark_triton_comparison.py:1697-1712 | for every feature count, all programs in any order write each cell of the rank-two output once, with the reduction of its column over its segment after the last step of the kind, and the identity for an empty segment |
| RowsKernel.MaximumIsReached | benchmarks/benchmark_triton_comparison.py:1635-1686 | the maximum kind gives a value that bounds every row and is one of them, or minus infinity for none |
| RowsKernel.MinimumIsReached | benchmarks/benchmark_triton_comparison.py:1635-1686 | the minimum kind gives a value that every row bounds and is one of them, or infinity for none |
| RowsKernel.LaunchSum | benchmarks/benchmark_triton_comparison.py:1697-1712 | the sum kind leaves in every cell the sum of the rows of its segment in its column |
| RowsKernel.LaunchMaximum | benchmarks/benchmark_triton_comparison.py:1697-1712 | the maximum kind leaves in every cell a row of its segment that bounds them all, or minus infinity for an empty segment |
| RowsKernel.LaunchMinimum | benchmarks/benchmark_triton_comparison.py:1697-1712 | the minimum kind leaves in every cell a row of its segment that all of them bound, or infinity for an empty segment |
| RowsKernel.LaunchMean | benchmarks/benchmark_triton_comparison.py:1676-1712 | the mean kind leaves in every cell the sum of its rows divided once by their number, and no number for an empty segment |
| RowsKernel.CellRowsAt | benchmarks/benchmark_triton_comparison.py:1635-1686 | row r of output cell i is the value at index (offsets[i / features] + r) * features + i mod features |
| SumError.AnyOrderError | benchmarks/benchmark_triton_comparison.py:1108-1142 | for every summation tree over n values whose additions err by at most u, the result is within ((1 + u)^(n - 1) - 1) times the magnitude; additions of padding cost nothing |
| SumError.GrowthBound | benchmarks/benchmark_triton_comparison.py:1108-1142 | (1 + u)^k (1 - k u) <= 1 |
| SumError.SmallGridIsExact | benchmarks/benchmark_triton_comparison.py:1108-1142 | grid values whose magnitudes total at most exact_integers steps: every partial sum in any order is exact |
| SumError.SumWithinTolerance | benchmarks/benchmark_triton_comparison.py:1108-1142 | every order of summation is within the tolerance, in its exact, bounded and unchecked cases |
| SumError.ExactSumAdmitsNoError | benchmarks/benchmark_triton_comparison.py:1140-1142 | on a grid with a magnitude of at most exact_integers steps the tolerance admits an error if and only if it is zero |
| SumError.SumToleranceIs | benchmarks/benchmark_triton_comparison.py:1108-1142 | otherwise, with k = max(n - 1, 0), it is finite exactly when k u is below one half, and then it is the one number with bound * (1 - k u) = k u * magnitude |
| SumError.SumAdmits | benchmarks/benchmark_triton_comparison.py:1108-1142 | so it admits an error e exactly when |e| (1 - k u) is at most k u times the magnitude |
| SumError.DoubledAdmits | benchmarks/benchmark_triton_comparison.py:1185-1186 | doubled, it admits exactly the errors of twice that size |
| SumError.MeanAdmits | benchmarks/benchmark_triton_comparison.py:1187-1192 | for a mean of n values it admits an error exactly when it is at most the bound over n plus two units of the reference |
| SumError.NearestIff | benchmarks/benchmark_triton_comparison.py:1145-1192 | a division rounded to nearest errs by at most u / (1 + u) of its exact result |
| SumError.SumOfPermutation | benchmarks/benchmark_triton_comparison.py:1145-1192 | a permutation of the values has the same sum and magnitude |
| SumError.TwoOrdersWithinTwice | benchmarks/benchmark_triton_comparison.py:1145-1192 | two orders of the same values, one of them the reference, are within the doubled tolerance |
| SumError.GrowthBoundWithDivision | benchmarks/benchmark_triton_comparison.py:1187-1192 | (1 + u)^(k + 1) (1 - k u) <= 1 + u - k u^2, so gamma(k) has room for one more rounding |
| SumError.MeanWithinTolerance | benchmarks/benchmark_triton_comparison.py:1187-1192 | against an exact reference, the mean tolerance covers the sum and the extra division rounding |
| SumError.DoubleMeanWithinTolerance | benchmarks/benchmark_triton_comparison.py:1145-1192 | against a reference that rounds as well, the doubled bound covers both means when the divisions round to nearest |
| SumError.OneUnitIsNotEnough | benchmarks/benchmark_triton_comparison.py:1145-1192 | with no more than a relative error of one unit per division it does not: two values and their sums in one order leave it, for every unit up to 3/8 |
| KernelSums.LoopedSumWithinTolerance | benchmarks/benchmark_triton_comparison.py:1108-1142 | what the looped kernel stores is a summation tree over a permutation of its segment and zeros, whatever tree the lane reduction takes, so it is within the tolerance of the exact sum |
| KernelSums.StridedSumWithinTolerance | benchmarks/benchmark_triton_comparison.py:1108-1142 | so is what the long half of a fused program stores after its 32 strided tiles |
| KernelSums.TileSumWithinTolerance | benchmarks/benchmark_triton_comparison.py:1108-1142 | and what a program stores that reads its segment in one tile: one block, a packed slot, or a CTA task |
| FixedLaunch.FixedCUDALaunch.constructor | python/SwageExtensionNanobind.cpp:475-627 | a prepared launch holds no lock |
| FixedLaunch.FixedCUDALaunch.Interfere | python/SwageExtensionNanobind.cpp:735-745 | other threads take no lock of this one, change the artifact cache only under the artifact lock, and the rest of the residency only under the CUDA lock |
| FixedLaunch.FixedCUDALaunch.TryLock | python/SwageExtensionNanobind.cpp:450-470 | a lock is taken only when it is free, and a raising acquire takes none |
| FixedLaunch.FixedCUDALaunch.Enqueue | python/SwageExtensionNanobind.cpp:748-814 | a refusal at most reorders the two caches, and a decline after that happens only on the default stream; otherwise everything from the enqueue on is attempted |
| FixedLaunch.FixedCUDALaunch.LaunchAndFence | python/SwageExtensionNanobind.cpp:786-814 | one enqueue of a live entry under both locks, a fence only after a successful enqueue on a caller-owned stream, and unloading blocked after any failure there |
| FixedLaunch.FixedCUDALaunch.CheckEntry | python/SwageExtensionNanobind.cpp:735-785 | under the locks the checks of the artifact, the entry and the context are asked in order, and the first that does not pass decides |
| FixedLaunch.FixedCUDALaunch.Validate | python/SwageExtensionNanobind.cpp:636-733 | the eleven checks before the locks are asked in order, none after the first that does not pass, and no effect happens |
| FixedLaunch.FixedCUDALaunch.EnqueueLocked | python/SwageExtensionNanobind.cpp:738-815 | both locks are given back, in reverse order, on every path |
| FixedLaunch.FixedCUDALaunch.Finish | python/SwageExtensionNanobind.cpp:816-830 | all three stream records and the version update are attempted whatever fails, and the first failure is kept |
| FixedLaunch.FixedCUDALaunch.Call | python/SwageExtensionNanobind.cpp:628-833 | what the eleven checks before the locks answer decides: they are asked in order up to the first that does not pass, and the call then declines or reports its error without any effect; after all of them, both locks, the live entry and the checks under the locks it attempts the launch. All or nothing: a refusal or an earlier error only takes and gives back locks and reorders caches under both; every other outcome is one complete attempt that reports its first failure, for a grid that covers the count without a superfluous block and inputs that are no shifted view of the output |
| FixedLaunch.EffectsOfCall | python/SwageExtensionNanobind.cpp:735-833 | at most one launch; with it, and only with it, three stream records and one version update; the entry was live at the launch, device work and cache reordering happen under both locks and the records under none, and every lock taken is given back |
| FixedLaunch.GeometryIff | python/SwageExtensionNanobind.cpp:636-641 | the geometry is accepted if and only if the block is the prepared one and the grid covers a positive 32-bit count without a superfluous block |
| FixedLaunch.NoShiftedOverlapIff | python/SwageExtensionNanobind.cpp:727-733 | the overlap check passes if and only if each input is the output itself or shares no active byte with it |
| FixedLaunch.FirstFailureConcat | python/SwageExtensionNanobind.cpp:816-832 | the first failure of two runs is that of the first, or else of the second |
| Rotation.OrderPositionCounts | benchmarks/benchmark_triton_comparison.py:616-631 | for any orders of the same candidates the nested loops count every candidate at every position, and refuse exactly an order that is not of every candidate |
| Rotation.RotatedAt | benchmarks/benchmark_triton_comparison.py:601-613 | round r has candidate (r + p) mod width at position p |
| Rotation.OrdersAre | benchmarks/benchmark_triton_comparison.py:601-613 | no candidate, a repeated one, or a negative number of rounds is refused, in this order; otherwise there is one order a round |
| Rotation.CountsPassTheValidator | benchmarks/benchmark_campaign.py:337-349 | the counts accumulated over the rotating orders are the closed form that the validator expects, for any number of candidates and rounds |
| Rotation.RecordedCounts | benchmarks/benchmark_triton_comparison.py:905-912 | every recorded table of counts is accepted and as expected |
| Rotation.PlaceInvertsRotation | benchmarks/benchmark_mixed_sum.py:139-151 | the place of a policy is the one position where the rotated launch order has it |
| BatchGrowth.PowerTest | benchmarks/benchmark_campaign.py:287-296 | launches & (launches - 1) is zero exactly for powers of two |
| BatchGrowth.ValidBatchIff | benchmarks/benchmark_campaign.py:287-296 | the validator takes exactly the doublings of 32 up to 2^20 |
| BatchGrowth.MedianIsPositive | benchmarks/benchmark_campaign.py:183-197 | the median of positive samples is positive |
| BatchGrowth.MedianIs | benchmarks/benchmark_triton_comparison.py:414-423 | the median is the middle of the values in ascending order, or the mean of the two in the middle |
| BatchGrowth.ResolvedIff | benchmarks/benchmark_triton_comparison.py:451-453 | a batch is resolved if and only if a hundred ticks are below its median sample |
| BatchGrowth.TakePass | benchmarks/benchmark_triton_comparison.py:712-719 | one pass reads every candidate once a round at its batch, and files each per-launch sample under its candidate |
| BatchGrowth.FindUnresolved | benchmarks/benchmark_triton_comparison.py:720-724 | exactly the candidates whose tick is not below one percent of the median sample |
| BatchGrowth.DoubleUnresolved | benchmarks/benchmark_triton_comparison.py:727-735 | exactly the batches of the unresolved candidates double, within the limit, and the remaining doublings decrease; or the named candidate is at the limit |
| BatchGrowth.InterleavedBatches | benchmarks/benchmark_triton_comparison.py:680-737 | ends for arbitrary readings: every batch starts at 32, and from pass to pass exactly the batches that are not resolved double; what it returns comes from one final pass in which every candidate is resolved, and what it refuses is a candidate that 2^20 launches do not resolve |
| BatchGrowth.EntryPassesIff | benchmarks/benchmark_campaign.py:257-313 | an entry passes the validator if and only if it is complete, positive, a doubling, and resolved |
| BatchGrowth.AcceptedEntryIff | benchmarks/benchmark_campaign.py:257-313 | any entry passes if and only if it is the one that the harness records for such samples, in every field |
| BatchGrowth.FinalPassIsAccepted | benchmarks/benchmark_campaign.py:257-313 | every candidate timed in every round of the final pass passes the validator with exactly the asked number of samples |
| Decimal.ValueOfDigits | benchmarks/prepare_soc_epinions1_trace.py:232-239 | printing a number and reading it gives the number, without leading zeros |
| Decimal.DigitsOfValue | benchmarks/real_traces.py:256-266 | a canonical decimal is the printed form of its value |
| Decimal.SplitOfJoin | benchmarks/real_traces.py:256-256 | splitting joined lines gives the lines |
| Decimal.JoinOfSplit | benchmarks/real_traces.py:252-256 | joining the lines of data that ends in a line feed gives the data |
| Decimal.SplitLinesIff | benchmarks/prepare_soc_epinions1_trace.py:112-112 | splitting data gives exactly the lines that some line ends make the data of: a line feed, a carriage return, or both, and none after the last |
| TraceCodec.ParseTrace | benchmarks/real_traces.py:250-271 | round trip in both directions: the encoding of any nonempty list of lengths up to 4096 parses to it, and what parses is the encoding of its result; a refusal names the first bad line |
| TraceCodec.LineRefusals | benchmarks/real_traces.py:256-270 | a line is refused as no decimal, as not canonical, or as above 4096, each in both directions; any other line is the printed form of a length |
| TraceCodec.EncodingIsInjective | benchmarks/prepare_soc_epinions1_trace.py:232-239 | two traces with one encoding are equal |
| MatrixMarket.ParseDecimal | benchmarks/prepare_soc_epinions1_trace.py:95-101 | accepts exactly the canonical unsigned decimals, and prints back |
| MatrixMarket.SplitIff | benchmarks/prepare_soc_epinions1_trace.py:133-157 | splitting a line gives exactly the tokens that some spacing lays out as that line |
| MatrixMarket.EntryIff | benchmarks/prepare_soc_epinions1_trace.py:152-175 | a record is the entry (row, column) if and only if its two fields print the row and then the column, both within the bounds and not seen before |
| MatrixMarket.EntryRefusals | benchmarks/prepare_soc_epinions1_trace.py:152-172 | each refusal of a record in both directions: the fields, the row token, the column token, the row bound, the column bound, a duplicate |
| MatrixMarket.HeaderIff | benchmarks/prepare_soc_epinions1_trace.py:112-150 | the header is accepted if and only if it is the banner, comment lines, and one line that prints the expected rows, columns and entries in this order, with as many records below it |
| MatrixMarket.HeaderRefusals | benchmarks/prepare_soc_epinions1_trace.py:126-150 | each refusal of the dimension line and the record count, in both directions |
| MatrixMarket.HeaderAbsent | benchmarks/prepare_soc_epinions1_trace.py:112-125 | a missing banner or dimension line is refused first |
| MatrixMarket.EntriesIff | benchmarks/prepare_soc_epinions1_trace.py:152-178 | the records are accepted as these edges if and only if each prints its edge and the edges are distinct and within the bounds |
| MatrixMarket.RefusalIsFirst | benchmarks/prepare_soc_epinions1_trace.py:152-175 | a refusal is that of the first record that is no new entry |
| MatrixMarket.ParseOfFile | benchmarks/prepare_soc_epinions1_trace.py:104-178 | round trip: a file of the banner, any comments, the dimensions and one record an edge parses to exactly those edges |
| MatrixMarket.OutDegreeIs | benchmarks/prepare_soc_epinions1_trace.py:175-176 | a row count is the number of edges with that row |
| MatrixMarket.RefusalStays | benchmarks/prepare_soc_epinions1_trace.py:152-175 | no later record changes the first refusal |
| MatrixMarket.EntriesAreUnique | benchmarks/prepare_soc_epinions1_trace.py:152-176 | the accepted entries are as many as the records, in bounds, and pairwise different |
| MatrixMarket.CountRecords | benchmarks/prepare_soc_epinions1_trace.py:148-178 | the loop over sets and a count dictionary gives the vertices and out-degrees of the accepted edges, or the first refusal |
| MatrixMarket.ParseMatrixMarket | benchmarks/prepare_soc_epinions1_trace.py:104-178 | for an accepted matrix the vertices are exactly the endpoints, the row counts the out-degrees, and the edges as many as declared |
| MatrixMarket.VerticesOf | benchmarks/prepare_soc_epinions1_trace.py:173-174 | exactly the endpoints of the edges |
| VertexSample.SelectionIsSample | benchmarks/prepare_soc_epinions1_trace.py:181-197 | the sample has the asked size, smaller digests first and smaller ids first among equal digests, and every vertex left out comes after every selected one |
| VertexSample.SelectionRefusals | benchmarks/prepare_soc_epinions1_trace.py:188-196 | a count outside the vertices is refused first, and then an id that is no 64-bit number |
| VertexSample.LengthsAreDegrees | benchmarks/prepare_soc_epinions1_trace.py:200-213 | every selected length is the number of edges that leave the vertex selected there |
| VertexSample.SampleIsUnique | benchmarks/prepare_soc_epinions1_trace.py:181-197 | there is only one such list |
| VertexSample.IterationOrderDoesNotMatter | benchmarks/prepare_soc_epinions1_trace.py:181-197 | so the sample does not depend on the iteration order of the vertices |
| VertexSample.RowCountsAddUp | benchmarks/prepare_soc_epinions1_trace.py:148-178 | the row counts add up to the entries |
| VertexSample.EntriesAreConserved | benchmarks/prepare_soc_epinions1_trace.py:200-213 | the outgoing lengths of all vertices, in hash-ranked order, add up to the entries |
| VertexSample.DeclaredEntriesAreConserved | benchmarks/prepare_soc_epinions1_trace.py:148-213 | for an accepted matrix the row counts, and the selected lengths of all vertices, add up to the declared entries |
| CandidateNames.TablesAgree | benchmarks/benchmark_campaign.py:56-61 | the two family tables differ, but agree on the name of every candidate |
| CandidateNames.NamesAreDistinct | benchmarks/benchmark_triton_comparison.py:329-347 | no two candidates share a name |
| CandidateNames.NamesLikeThese | benchmarks/benchmark_triton_comparison.py:329-357 | one name of every form |
| CandidateSelection.TritonSumConfigs | benchmarks/benchmark_triton_comparison.py:1729-1738 | the sweep loop gives the configurations of the validator |
| CandidateSelection.ConfigsIff | benchmarks/benchmark_triton_comparison.py:1729-1744 | a configuration is swept if and only if its block covers the longest segment and holds 32 elements a warp |
| CandidateSelection.ConfigsRise | benchmarks/benchmark_triton_comparison.py:1729-1744 | blocks rise, and warps within a block |
| CandidateSelection.KeptIff | benchmarks/benchmark_triton_comparison.py:263-283 | the filter keeps a name if and only if it names it or its family, or names nothing, and excludes neither |
| CandidateSelection.LengthLimitsAre | benchmarks/benchmark_triton_comparison.py:359-378 | the fixed, the matched and the fused family cannot run exactly the segments above 4096 elements |
| CandidateSelection.SetupsAreRowCandidates | benchmarks/benchmark_triton_comparison.py:2801-2813 | the setups of a row are its candidates, in base order |
| CandidateSelection.RowIsUnique | benchmarks/benchmark_campaign.py:444-457 | the candidate names of a row are pairwise different |
| CandidateSelection.CaseCandidatesAgree | benchmarks/benchmark_campaign.py:480-492 | what a row times by its filter and longest segment is the same for both |
| CandidateSelection.HarnessRowPasses | benchmarks/benchmark_campaign.py:531-561 | for every length, filter and memory outcome, the lists the harness records pass the selection of the validator |
| CandidateSelection.AcceptedIff | benchmarks/benchmark_campaign.py:531-561 | and it accepts no other: a row passes if and only if the harness records it for some memory outcome |
| CandidateSelection.NoRowIff | benchmarks/benchmark_triton_comparison.py:2817-2825 | there is no row exactly when every kept candidate is of a family that cannot run |
| CandidateSelection.RowIsInOrder | benchmarks/benchmark_triton_comparison.py:2814-2860 | the timed and the excluded names stand in the order of the candidates |
| CandidateSelection.Trichotomy | benchmarks/benchmark_triton_comparison.py:2814-2823 | a candidate is excluded exactly when the filter does not name it or its family, or excludes one of them; and timed exactly when it is not excluded and its family is not skipped |
| CandidateSelection.SkippedIff | benchmarks/benchmark_triton_comparison.py:2814-2823 | a family is skipped if and only if it cannot run the row and the filter keeps one of its candidates |
| CandidateSelection.ExcludedOfSkippedFamilyIff | benchmarks/benchmark_triton_comparison.py:2814-2823 | a candidate is excluded and of a skipped family if and only if the filter drops it, its family cannot run the row, and the filter keeps another of that family |
| CandidateSelection.ExactlyOneIff | benchmarks/benchmark_triton_comparison.py:2814-2823 | timed, excluded and skipped are exclusive for a candidate if and only if that is not so, which filter, length and memory decide before the row |
| CandidateSelection.ExcludedOfSkippedFamily | benchmarks/benchmark_triton_comparison.py:2814-2823 | they overlap for one matched configuration excluded and a longest segment of 5000 |
| Compilation.SignaturesAgree | benchmarks/benchmark_campaign.py:821-837 | the signature the validator recomputes from a row is the one the harness compiled for its case |
| Compilation.ShortCountIs | benchmarks/benchmark_triton_comparison.py:2066-2079 | the counted short lengths are as many as the partitioned ones |
| Compilation.SignatureIs | benchmarks/benchmark_triton_comparison.py:2066-2079 | a signature counts the lengths of at most 32, the others, and programs of up to four short tasks |
| Compilation.ConfigurationsAgree | benchmarks/benchmark_campaign.py:840-923 | both derive the same configurations from the signatures, although they ask different family tables |
| Compilation.CompiledIff | benchmarks/benchmark_triton_comparison.py:2140-2300 | a configuration of each kernel is compiled if and only if some case times its candidate; for the CTA kernels, a case with CTA tasks |
| Compilation.PackedIff | benchmarks/benchmark_triton_comparison.py:2168-2174 | the packed kernel is compiled if and only if a case with short tasks times a matched or a planned looped candidate |
| Compilation.FusedCompiledIff | benchmarks/benchmark_triton_comparison.py:2224-2231 | the fused kernel is compiled for exactly the program counts of the cases that time it |
| Compilation.ConfigurationsRise | benchmarks/benchmark_triton_comparison.py:2140-2300 | every list of configurations rises, so none is compiled twice |
| Compilation.TritonAreDistinct | benchmarks/benchmark_triton_comparison.py:2137-2316 | no two Triton components share a name |
| Compilation.ComponentIsCandidate | benchmarks/benchmark_triton_comparison.py:2161-2164 | the components of the fixed and the looping kernel are named like the candidates that need them |
| Compilation.UsesSwageIff | benchmarks/benchmark_triton_comparison.py:2128-2135 | Swage kernels are compiled if and only if a case times one of the three Swage candidates |
| Compilation.StepsIff | benchmarks/benchmark_triton_comparison.py:2029-2048 | the warp and the CTA kernel always, the mixed kernel for a segment that one task covers, the partial and merge kernels for one that is split |
| Compilation.KernelsNameTheSteps | benchmarks/benchmark_campaign.py:926-945 | the recorded kernel names are one of the allowed sets, and name the compiled components again |
| Compilation.Measure | benchmarks/benchmark_triton_comparison.py:2110-2120 | components are timed in order, one positive sample each, or the timer stopped at the last |
| Compilation.AddTotals | benchmarks/benchmark_triton_comparison.py:2318-2330 | each total is the sum of its components, none of which a total overwrites |
| Compilation.MeasureTriton | benchmarks/benchmark_triton_comparison.py:2140-2316 | the components are measured kind by kind in the order the validator lists them |
| CompiledTasks.HostOffsets | benchmarks/benchmark_triton_comparison.py:1794-1801 | the prefix sums of the lengths, or a refusal exactly for a negative length |
| CompiledTasks.ListsOfCase | benchmarks/benchmark_triton_comparison.py:2017-2028 | the classified plan has warp or CTA tasks exactly when a segment fits one chunk, and merges exactly when one does not |
| CompiledTasks.KindsOfCase | benchmarks/benchmark_triton_comparison.py:2016-2028 | one case: a negative length is refused before the classifier, whose reason is given otherwise, exactly under its condition |
| CompiledTasks.KindsOfCases | benchmarks/benchmark_triton_comparison.py:2016-2028 | the classified cases have a direct task exactly when some segment fits one chunk, and a split one exactly when some segment does not; a refusal is that of the first case that is not classified |
| Compilation.MeasureSegmentedCompilation | benchmarks/benchmark_triton_comparison.py:2082-2358 | for every list of cases, filter and chunk limit, the component order, configurations, totals and timings pass the validator, which derives them from the rows alone; every component is named once and its timing is its own sample; the Swage kernels are those that the lengths need; no case, a case without segments, and a case that is not classified are refused, in both directions, and nothing else but a timer that did not advance |
| Sorting.SortSorts | benchmarks/prepare_soc_epinions1_trace.py:197-197 | a sorted permutation, for any total order |
| Sorting.SortedIsUnique | benchmarks/prepare_soc_epinions1_trace.py:197-197 | and there is only one |
| Sorting.SortedSetIs | benchmarks/benchmark_triton_comparison.py:2141-2148 | sorted(set(...)) holds the same elements, each once, in ascending order |
| Sums.SumOfPermutation | benchmarks/distributions.py:164-176 | a permutation has the same total |
| RowStatistics.SummaryIsConsistent | benchmarks/benchmark_campaign.py:603-615 | the summary of any nonempty list with an i32 total satisfies min <= median <= p95 <= max and min * count <= total <= min(max * count, i32 maximum) |
| RowStatistics.SummaryIs | benchmarks/distributions.py:153-176 | count and total of the lengths, and the least, the middle and the greatest of them in ascending order |
| RowStatistics.P95IsNearestRank | benchmarks/distributions.py:153-176 | the reported percentile is the least value that at least 95 percent of the lengths do not exceed |
| RowStatistics.MaximumIsLongest | benchmarks/distributions.py:164-176 | the reported maximum is the longest segment |
| RowStatistics.PartitionIsConsistent | benchmarks/benchmark_campaign.py:668-675 | the recorded task counts never contradict the recorded statistics |
| Distributions.Shuffle | benchmarks/distributions.py:115-115 | a shuffle exchanges every place, the last first, with a partner not after it, and so keeps every length |
| Distributions.EveryArrangement | benchmarks/distributions.py:115-115 | every arrangement of the lengths is reached by some choice of partners |
| Distributions.GenerateLengths | benchmarks/distributions.py:67-150 | whatever is drawn, a list of the shape of its distribution; refused exactly for a count that is not positive or a bound above i32 |
| Distributions.ShapeIff | benchmarks/distributions.py:100-150 | the lists that draws and shuffles can give are exactly those of the shape: its ranges place by place, or so many long lengths in one range and the others in a lower one, in any order |
| Distributions.PossibleIsBounded | benchmarks/distributions.py:28-64 | every such list has count lengths between 0 and 4096, and a total within the bound |
| Distributions.WorstCaseIsReached | benchmarks/distributions.py:28-64 | some draws reach the bound exactly |
| Distributions.AdmittedIffEveryTotalFits | benchmarks/distributions.py:28-64 | a count is admitted if and only if no draw can overflow an i32 total |
| Distributions.OffsetsFit | benchmarks/distributions.py:67-98 | so every prefix offset of a generated list is an i32 |
| Distributions.GeneratedRowIsConsistent | benchmarks/benchmark_campaign.py:603-615 | the statistics of every generated list pass the validator |

## Left out

- Lowering, PTX emission, the JIT, dialect registration, the persistent queue kernel, the kernel-contract parser and the shuffle butterfly: none of them is part of this model.
- The cooperative programs inside a reduction kernel of the compiler: a direct task is the fold of its segment, a partial task the fold of its range, a merge the fold of its scratch range.
- RuntimeClassifier.CountTasks: takes the offsets as a sequence, since the C code only reads them; the four counts and the records are arrays, as in C. Counts are unbounded integers where the code proves they fit its widths.
- RuntimeClassifier.WriteSegments: the cursors of the C function are one value, and its two nested loops are methods of their own.
- The record classifier of `TaskClassifier.cpp`, lines 161-278, is the algorithm of the runtime library over LLVM containers; only the runtime form is modelled.
- ContextGuard.EveryMaximalRunCompletes: assumes that the operating system eventually runs an enabled thread; the work inside a guarded call always ends. The guarded work itself, the module it compiles and its callbacks are not modelled.
- ContextGuard.AtMostOneThreadPerContext: the set of busy contexts is a map to the holding thread; the extra component is never read by a step.
- TritonKernels.LoopedTotal: offsets and values are read-only sequences, and only the output is a heap array; a loop whose counter wraps has no contract, only the lemmas about its loads.
- TritonKernels.LaunchOneBlock: values are elements of any commutative monoid, so rounding is not part of the kernels; `SumError` bounds it for any order, and `KernelSums` maps the rank-one kernels to their summation trees. The rank-two kernel has no such lemma.
- RowsKernel.LaunchMean: the division is exact, so its rounding is left to `SumError`. Values are no NaN, as the kernel assumes of what it times.
- PaddedInputs.PaddedInputs: device memory limits and data types are left out; a gather fails as a whole.
- SumError.SumWithinTolerance: reals with a relative error per addition, exact when the result is a small grid integer or an operand is zero. Infinities, NaN, subnormal numbers and the rounding of the tolerance itself are left out, and for float32 the float64 reference counts as exact, as in the harness.
- FixedLaunch.FixedCUDALaunch.Call: metadata checks of tensors, attribute lookups and type versions are answers of Python calls; the checks before the locks are one ordered list. Releasing a lock succeeds, and errors that Python only reports are not errors of the call.
- FixedLaunch.FixedCUDALaunch.Interfere: eviction, retirement and unloading are an environment that changes the residency while it holds the lock that protects it; their own policy is not modelled.
- FixedLaunch.FixedCUDALaunch.Enqueue: whether a cache holds other entries, and so is reordered, is arbitrary; the order of the entries is not modelled.
- BatchGrowth.InterleavedBatches: which of several stuck candidates an error names follows the base order; graph capture before a pass is not modelled.
- BatchGrowth.EntryPassesIff: quartiles and the effective rate are recomputed by one expression each and left out, as are type and schema checks of single fields.
- TraceCodec.ParseTrace: Python refuses to convert decimals of more than 4300 digits with the same exception type; the model refuses them as above the maximum.
- MatrixMarket.ParseMatrixMarket: the same limit on digits; such a number is out of bounds or a mismatch here.
- VertexSample.SampleIsUnique: SHA-256 is any function of the vertex id; digests are compared as big-endian numbers.
- CandidateSelection.HarnessRowPasses: reason strings, and the correctness checks and timings of a row, are not part of the selection.
- Compilation.MeasureSegmentedCompilation: the chunk limit of the target is a parameter; what a component compiles, caches and the other fields of the record are left out.
- Distributions.GenerateLengths: the power-law distribution, whose bound needs real powers and a zeta value; weights and the log-normal shape, since only the range of a draw matters here; the seed.
- Everything that only reads and writes files, archives, processes, tables, figures or pages.
