# MatCore in Dafny

A model of MatCore's hard core and proofs about it: the tiled GPU kernels it emits, the loop and memory
transformations of its lowering pipeline, its stateful runtime, and the scheduling, tracing and fusing of graphs.
Verify with `dafny verify dfyconfig.toml`.

Kernels and transformations are modelled by what they compute, as small step programs, not as MLIR. Arithmetic is over
the reals, or over functions nothing is known about where the order of operations is kept. The exponential is any
positive function with exp(a + b) = exp(a) exp(b), and exp(-inf) = 0. Asynchronous copies, events, driver
allocations and thread interleavings are steps of state machines or parameters.

| part | files |
|---|---|
| attention kernel (Family C) | `ExtendedReal`, `Operands`, `AttentionMath`, `Grid`, `FamilyC`, `FamilyCCall` |
| row softmax kernel | `Reduction`, `RowSoftmax` |
| threads between barriers | `Races`, `AttentionThreads`, `SoftmaxThreads` |
| captured launches: reads and writes, hazards, order, levels | `Effects`, `ReadWriteSets`, `KernelOperations`, `Schedule`, `CapturedGraph` |
| memory, streams, handles | `PoolState`, `MemoryPool`, `StreamPool`, `DeviceHandles`, `DeviceBuffers`, `DeviceMemory` |
| plans | `CaptureRuntime`, `ExecutionPlan`, `PlanRuns`, `PlanLifecycle` |
| loop and memory transformations | `AccumulatorHoist`, `DoubleBuffer`, `SplitK`, `TileCopy`, `Staging` |
| tracing and fusion | `Trace`, `TracerTensors`, `FusionRegions`, `FusibleRegions`, `TracedChains`, `FusedChains`, `FamilyA`, `InRegister`, `EpiloguePlacement`, `InLaunch`, `FamilyACall`, `FamilyB` |
| execution cache | `KeyText`, `CacheKey`, `KeyBuilder` |
| shared | `Options`, `Views`, `Grid` |

## Where the code and what it promises part

Each of these is stated with its exact condition.

- Epilogues in registers load the other operand of a binary operation at the store's own indices, which are relative
  to the view the store goes through: the stored element is the graph's, for all operations and arguments, exactly for
  chains without such operands, or when those indices are the element's own (`InRegister.InRegisterIsRightIff`).
- Epilogues inside the launch go before the first barrier of the loop body or launch body: every element is the graph's,
  for all operations and arguments, exactly when the loop runs at all and its last iteration adds nothing behind that
  barrier (`InLaunch.InLaunchIsRightIff`).
- The test for the last K iteration is an unsigned comparison: it holds in the last iteration only, exactly when no
  index after the first is negative (`EpiloguePlacement.GuardIsLastIff`).
- A cache key shows three tensors and no tensor count: a hit is what compiling would give exactly when the
  call passes fewer than three tensors or as many as the kernel takes (`CacheKey.HitIsFreshIff`).
- The capture cache holds one module and one function: a recorded graph replays the kernel exactly when all its
  launches are of one function (`CaptureRuntime.RecordingIsFaithfulIff`).
- Accumulator hoisting starts from zero, the loop it replaces from the output: they agree for every
  multiply-accumulate exactly when the stored cells are zero beforehand (`AccumulatorHoist.HoistingIsExactIff`).
- Staging gives every captured host buffer its own device copy: transparent exactly when no host buffer shares memory
  with another captured one (`Staging.TransparentIff`).
- The strided form of a cooperative copy rounds the number of warps up: with a broken last warp it is complete only if
  that warp gets no row, or no segment it lacks a lane for (`TileCopy.StridedCompleteIff`).
- The split-K epilogue divides a linear offset by a row stride: the workspace address is the original one exactly when
  that stride is the output's, or the store is in row 0 of the cast and the offset within one row
  (`SplitK.ResolveKeepsAddressIff`).
- Reads are inferred from fields and from list items that are a parameter's name, not from names inside an index such as
  `B[0]`: launches stay inside the inferred sets, whatever their operations compute, exactly when no array an operation
  mentions is left out of both while something is still to be stored (`KernelOperations.InferenceIsSoundIff`).
- A traced matmul keeps the transposition of its right operand only, elementwise operations and softmax keep none: on
  inputs the recorded operation is the one asked for, for all arguments, exactly when the operand concerned is no
  transposed view, or is a single element (`TracerTensors.ProductRightIff`, `TracerTensors.UnaryRightIff`).
- Capturing more launches after an analysis does not reset the report, and `execute` runs the analysed launches only:
  that is the memory of all captured launches, whatever they do inside their read and write sets, exactly when none
  captured since can write (`CapturedGraph.StaleReportIsFineIff`).
- A transfer is checked against the size in the handle it is given: what passes stays inside the live buffer exactly
  when the handle reaches none or claims no more than the buffer has (`DeviceHandles.TransfersFitIff`). Handles as they
  are given out never claim more; callers of `include/matcore/device_buffer.h:11` can make others.
- The pool takes a release from anybody: a release by a thread that does not own the pointer is harmless exactly when
  nobody uses it, and otherwise leaves it in two places (`DeviceMemory.ForeignReleaseIsSafeIff`). Such a second release
  is refused while the pointer is pooled, not after its address has gone to another owner.
- A graph-mode plan given host tensors throws out of its capture after the warm-up has computed: the override stays set
  and the capture open on that thread. Later calls on device tensors are recorded and not run, calls on host tensors
  throw. Over any calls of any plans, every call that succeeds has its kernel's effect exactly when none that runs its
  kernel comes behind such a call, unless a later capture has reset the override, and replayed kernels launch one function
  (`PlanRuns.EveryCallHasEffectIff`; a lost call is in `PlanRuns.CallIsLost`).
- Attention over no keys is 0 / 0, not a number (`FamilyC.QuotientIsResult`): a fused region leaves the last node's value
  exactly when there are keys (`FamilyCCall.EmitAndCall`).
- The note at `src/lowering_pipeline.cpp:3620-3622` says the grid mapping pass cuts the K loop; that pass
  does not. The split-K reduction is proved for both: loop cut, and everything in slice 0 with zeroed slices beside it.

## Model

| member | source | states |
|---|---|---|
| FamilyC.Launch | src/fusion_emitter_family_c.cpp:191-567 | for all shapes, plans and block sizes, every output cell is attention of its row and column: softmax weights of its scores times the values, or not a number without keys |
| FamilyC.Block | src/fusion_emitter_family_c.cpp:214-562 | one block writes exactly the valid cells of its tile, each with its attention value, and leaves every other cell as it was |
| FamilyC.VisitKeys | src/fusion_emitter_family_c.cpp:290-528 | after all chunks every valid row has the maximum and shifted exponential sum of all its scores, and every valid accumulator the shifted weighted sum of its values |
| FamilyC.ProcessChunk | src/fusion_emitter_family_c.cpp:319-528 | one chunk, also a partial one, takes row and accumulator states over the first keys to states over the chunk's keys too |
| FamilyC.ReduceRow | src/fusion_emitter_family_c.cpp:366-441 | folding a chunk into a row gives the maximum and sum over all keys seen, the rescaling factor, and weights in place of scores, other rows untouched |
| FamilyC.ScoreChunk | src/fusion_emitter_family_c.cpp:326-362 | the strided threads fill every cell of the chunk: the score of its row and key, minus infinity outside the matrix |
| FamilyC.AccumulateChunk | src/fusion_emitter_family_c.cpp:445-525 | rescaling and adding weighted values leaves every valid accumulator with the weighted sum over all keys seen |
| FamilyC.StoreTile | src/fusion_emitter_family_c.cpp:530-562 | the final division stores the result of exactly the tile's cells inside the output |
| FamilyC.QuotientIsResult | src/fusion_emitter_family_c.cpp:547-560 | accumulator over row sum is the attention value, and not a number when there are no keys |
| AttentionMath.OnlineQuotientIsAttention | src/fusion_emitter_family_c.cpp:399-441 | a weighted sum and a sum shifted by any common maximum have the quotient of unshifted softmax |
| AttentionMath.Rescale | src/fusion_emitter_family_c.cpp:399-409 | multiplying both sums by exp(old - new maximum) shifts them to the new maximum |
| RowSoftmax.Launch | src/mlir_engine.cpp:517-680 | every element of every row becomes its softmax, for all row lengths and rows |
| RowSoftmax.RowMaximum | src/mlir_engine.cpp:572-611 | strided partial maxima and the halving tree give the row's true maximum, also for rows shorter than the block |
| RowSoftmax.RowSum | src/mlir_engine.cpp:614-655 | strided partial sums and the tree give the row's exponential sum shifted by the maximum |
| RowSoftmax.SoftmaxIsDistribution | src/mlir_engine.cpp:658-680 | softmax values lie in (0, 1] and a row of them sums to 1 |
| Reduction.PartialsCover | src/mlir_engine.cpp:572-590 | the shares of all threads of a strided loop together fold the whole row, each element once |
| Reduction.TreeReduce | src/mlir_engine.cpp:592-609 | halving the block level by level leaves the fold of all partial results in cell 0 |
| Races.EveryInterleaving | src/fusion_emitter_family_c.cpp:290-527 | when no thread stores to a cell another one touches, every schedule leaves each thread where it would be alone and each cell as its one writer would leave it |
| Races.InterleavingIsSequential | src/mlir_engine.cpp:589-656 | every complete interleaving leaves the memory that running the threads one after another leaves |
| Races.EveryCellAsIfAlone | src/fusion_emitter_family_c.cpp:290-527 | iterations shared out among threads, none storing to a cell another one touches: in every interleaving each cell ends up as its one iteration leaves it alone |
| Races.StridedDeals | src/fusion_emitter_family_c.cpp:290-302 | a loop from the thread's number in steps of the block size gives every iteration to exactly one thread |
| Races.TwoLoopsDeal | src/fusion_emitter_family_c.cpp:290-315 | so do two such loops without a barrier between them |
| AttentionThreads.BlockLeavesAttention | src/fusion_emitter_family_c.cpp:214-562 | however the threads of a block interleave between barriers, for any tile and block size, it stores attention to exactly the valid cells of its tile and leaves the rest of the output, as `FamilyC.Block` does |
| AttentionThreads.AfterReduce | src/fusion_emitter_family_c.cpp:366-443 | the reducing loop, interleaved anyhow, takes every valid row to the state over the chunk's keys too, with weights in place of scores |
| AttentionThreads.AfterAccumulate | src/fusion_emitter_family_c.cpp:445-527 | so does the accumulating loop for every valid accumulator |
| AttentionThreads.BlockCanRun | src/fusion_emitter_family_c.cpp:214-562 | a block has such a run from every memory |
| SoftmaxThreads.RowLeavesSoftmax | src/mlir_engine.cpp:572-680 | however the 256 threads interleave between barriers, every element of the block's row becomes its softmax and every other cell stays |
| SoftmaxThreads.AfterLevels | src/mlir_engine.cpp:592-609 | the halving tree, each level interleaved anyhow, leaves the fold of all partial results in cell 0 |
| SoftmaxThreads.TotalThenPartialsRace | src/mlir_engine.cpp:611-634 | without the barrier behind the read of the total, a thread would store to the cell others still read |
| Effects.Commute | matcore/graph.py:252-289 | two launches without read-write, write-read or write-write overlap have the same effect in either order |
| Effects.ReorderingIsSound | matcore/graph.py:252-289 | running launches that stay inside their read and write sets in any linear extension of the hazard edges leaves the memory of program order |
| ReadWriteSets.InferReadWriteSets | matcore/graph.py:128-174 | the read and write sets are the owners bound to the names the operations read and write |
| KernelOperations.WriteSetIsTargets | matcore/graph.py:145-146 | the write set holds exactly the arrays that some store names as its tensor |
| KernelOperations.ReadSetIsMentioned | matcore/graph.py:147-155 | the read set holds exactly the arrays some field mentions, in an index by their bare name, other than as the tensor of a store |
| KernelOperations.InferenceIsSoundIff | matcore/graph.py:128-174 | launches that load, compute and store as their operations say stay inside the inferred sets, whatever is computed, exactly when no cell an operation looks at is outside both while a store is still to come |
| KernelOperations.StaysInSets | matcore/graph.py:128-174 | a launch that does its operations, none of which leaks, leaves cells outside its write set alone and depends on its sets only |
| KernelOperations.PlainIndicesDoNotLeak | matcore/graph.py:144-155 | nothing leaks when index expressions mention no array |
| KernelOperations.IndexReadIsMissed | matcore/graph.py:152-155 | a load of A at B[0] and a store: the read of B is not inferred |
| CapturedGraph.NoOverlapIsDisjoint | matcore/graph.py:83-106 | owners the alias check does not flag share no memory |
| CapturedGraph.FusionGraph.FindEdges | matcore/graph.py:252-289 | there is an edge between two launches, forward and once, exactly when they conflict, with the hazards between them |
| CapturedGraph.HazardsAre | matcore/graph.py:258-276 | read after write, write after write and write after read are named exactly when the two sets share a cell; reading together is no hazard |
| CapturedGraph.EdgeIffConflict | matcore/graph.py:252-289 | the report has an edge exactly between launches of which one writes a cell the other may touch |
| CapturedGraph.IndependentIff | matcore/graph.py:291-331 | a node is reported independent exactly when it conflicts with no other |
| CapturedGraph.FusionGraph.AnalyzeFusionOpportunities | matcore/graph.py:238-331 | the report's edges are all conflicts, its order a linear extension of them, its levels and independent nodes as specified |
| CapturedGraph.LevelByLevelIsProgramOrder | matcore/graph.py:212-236 | running level by level, each level in any order, leaves the memory of program order |
| CapturedGraph.FusionGraph.Execute | matcore/graph.py:333-365 | when launches do what their operations say and nothing leaks, the memory ends up as if the analysed launches had run in program order, which is that of all captured launches if nothing captured since the analysis can write |
| CapturedGraph.StaleReportIsFineIff | matcore/graph.py:333-338 | running the analysed nodes only is running all captured ones, for all launches inside their sets and all memories, exactly when no later node can write |
| CapturedGraph.StoreAfterAnalysisIsMissed | matcore/graph.py:48-58 | a store captured after the analysis is missed |
| CapturedGraph.FusionGraph.AddNode | matcore/graph.py:48-58 | a captured node is appended and an older report is kept |
| Schedule.StableTopologicalOrder | matcore/graph.py:186-210 | on forward edges the order is a permutation and a linear extension, first in first out: by the position of a node's last predecessor, then by capture order; it never goes back to an earlier level, and the cycle error cannot arise |
| Schedule.StableOrderUnique | matcore/graph.py:186-210 | there is only one such order |
| Schedule.ParallelizableLevels | matcore/graph.py:212-236 | the level lists partition the nodes, none is empty, and list k holds exactly the nodes of level k, ascending |
| Schedule.LevelIsLongestChain | matcore/graph.py:212-236 | a node's level is the length of the longest chain of edges into it |
| Schedule.LevelIsIndependent | matcore/graph.py:212-236 | no edge joins two nodes of one level |
| Schedule.LevelOrderExtends | matcore/graph.py:186-236 | any order whose levels never fall is a linear extension of the edges |
| PoolState.BytesWithout | src/gpu_runtime_symbols.cpp:463-485 | taking one listed entry out lowers the sum over entries by its size |
| MemoryPool.GpuMemoryPool.Search | src/gpu_runtime_symbols.cpp:383-413 | the rotating search ends once events complete, finds a buffer exactly when one of the size is pooled, whatever stale or pending entries the list has, its fence is done, and the one released last is taken if it need not be waited for |
| MemoryPool.GpuMemoryPool.AcquireLocked | src/gpu_runtime_symbols.cpp:383-419 | a reuse takes exactly one entry out of the pool and its bytes off the count, a miss changes nothing but stale list entries |
| MemoryPool.GpuMemoryPool.ReleaseLocked | src/gpu_runtime_symbols.cpp:462-496 | unknown and already pooled pointers are refused and change nothing; otherwise the pointer is pooled and the least recently released go until the cap holds |
| MemoryPool.GpuMemoryPool.Evict | src/gpu_runtime_symbols.cpp:478-496 | eviction takes the shortest prefix of the release order that brings the bytes under the cap |
| MemoryPool.GpuMemoryPool.Acquire | src/gpu_runtime_symbols.cpp:374-434 | a pooled buffer of the size if there is one, else the driver's new one, with its size on record either way |
| DeviceMemory.NextKeepsInv | src/gpu_runtime_symbols.cpp:374-507 | every locked section and driver call of any thread, and every refused release or free, keeps every pointer in one place, on the device and of recorded size |
| DeviceMemory.Exclusive | src/gpu_runtime_symbols.cpp:860-898 | in every interleaving a pointer is pooled, in one thread's hands, owned through one id or held directly, never two of these |
| DeviceMemory.ReleaseAcceptsExactlyUsed | src/gpu_runtime_symbols.cpp:462-471 | in every interleaving the pool refuses exactly the pointers nobody uses: pooled, evicted or unknown ones; owners never see its errors |
| DeviceMemory.ForeignReleaseIsSafeIff | src/gpu_runtime_symbols.cpp:436-496 | a release of any pointer by a thread that does not own it keeps the invariant exactly when nobody uses the pointer; otherwise the pointer is in two places |
| DeviceMemory.RecycledReleaseIsTaken | src/gpu_runtime_symbols.cpp:462-474 | a run in which a released pointer has gone to another thread, so that a second release would be taken |
| DeviceMemory.GivenHandlesFit | src/gpu_runtime_symbols.cpp:860-923 | through a handle as given out, a transfer that passes at any later time stays inside the buffer |
| DeviceMemory.FreedStaysInvalid | src/gpu_runtime_symbols.cpp:876-898 | a freed handle is never valid again, even when its address is handed out anew |
| DeviceMemory.IdsOnlyGrow | src/gpu_runtime_symbols.cpp:868-872 | allocation ids are never given out twice |
| DeviceMemory.ValidHandlesDiffer | src/gpu_runtime_symbols.cpp:930-938 | two valid handles to one address are the same handle |
| DeviceBuffers.DeviceBufferManager.Allocate | src/gpu_runtime_symbols.cpp:860-874 | a handle has a new id and a pointer no other live handle has; size 0 is refused |
| DeviceBuffers.DeviceBufferManager.Free | src/gpu_runtime_symbols.cpp:876-898 | a handle that matches its live allocation gives its pointer to the pool, any other is refused and changes nothing |
| DeviceBuffers.DeviceBufferManager.CheckTransfer | src/gpu_runtime_symbols.cpp:900-955 | through a valid handle a transfer passes exactly when it fits the live buffer; one that passes without fitting came with a handle that claims too much |
| DeviceHandles.TransfersFitIff | src/gpu_runtime_symbols.cpp:900-943 | all transfers that pass stay inside the live buffer exactly when the handle reaches none or claims no more than it has |
| DeviceHandles.OversizedHandlePasses | src/gpu_runtime_symbols.cpp:900-904 | a handle that claims 8 bytes of a buffer of 4 gets past the end |
| StreamPool.GpuStreamPool.Acquire | src/gpu_runtime_symbols.cpp:557-574 | the stream released last, or a new one when none is idle; no stream is handed out twice |
| StreamPool.GpuStreamPool.GiveBack | src/gpu_runtime_symbols.cpp:576-600 | a pooled stream is refused, a ninth one destroyed, others kept |
| CaptureRuntime.Runtime.InvokeCompiledKernel | src/gpu_runtime_symbols.cpp:620-681 | outside a capture all launches run and no module a warm-up loads goes; during one they are recorded as launches of the cached function, or the first one throws as its module is not cached |
| CaptureRuntime.InvokedRecords | src/gpu_runtime_symbols.cpp:620-731 | under an open capture nothing is performed: every launch is recorded as one of the same function |
| CaptureRuntime.InvokedLoads | src/gpu_runtime_symbols.cpp:620-665 | outside a capture every launch loads a module, and exactly those of a warm-up stay loaded |
| CaptureRuntime.Runtime.ModuleUnload | src/gpu_runtime_symbols.cpp:658-665 | a module is unloaded exactly outside warm-up and capture |
| CaptureRuntime.RecordingIsFaithfulIff | src/gpu_runtime_symbols.cpp:620-681 | replaying a recording has the launches' effect, whatever they do, exactly when all launches are of the last one's function |
| ExecutionPlan.MatcorePlan.Execute | src/jit_runner.cpp:1050-1127 | a successful call runs the kernel's functions once on the tensors' addresses, with the outputs cleared if it accumulates, by running, warming up or replaying, unless it runs under an open capture or replays several functions; exactly changed tensors and pointers are refused, without effect; with nothing open exactly graph mode on host tensors fails, and leaves the override set and the capture open |
| ExecutionPlan.MatcorePlan.ZeroOutputs | src/jit_runner.cpp:1005-1024 | every output that is not null is cleared at once, whatever capture is open, and every other address keeps its value |
| ExecutionPlan.MatcorePlan.ZeroOutputsOnStream | src/jit_runner.cpp:1026-1048 | what is recorded is the clearing of exactly the device outputs; host outputs are cleared at once and every other address keeps its value |
| ExecutionPlan.KernelEffectIs | src/jit_runner.cpp:1114-1127 | clearing the outputs and running the functions on what is left is what the zeroing operations and the launches do |
| ExecutionPlan.ReplayIsKernel | src/jit_runner.cpp:1057-1070 | for kernels of one function, replaying the captured graph on the same pointers is zeroing and running the kernel |
| ExecutionPlan.CallHasEffectIff | src/jit_runner.cpp:1050-1127 | a call that succeeds has its kernel's effect, for all effects and memories, exactly when no capture is open, or it replays a kernel of one function |
| ExecutionPlan.CallMoves | src/jit_runner.cpp:1073-1114 | a call leaves a capture open exactly when it is in graph mode on host tensors, or one was open and it does not capture itself |
| ExecutionPlan.OpenCaptureRefusesHostTensors | src/gpu_runtime_symbols.cpp:774-777 | under an open capture a call on host tensors throws once its outputs are zeroed |
| PlanRuns.EveryCallHasEffectIff | src/jit_runner.cpp:1050-1127 | over any calls of any plans on one thread, every successful call has its kernel's effect exactly once, for all effects and memories, if and only if none that runs its kernel comes after a graph-mode call on host tensors with no later reset, and replayed kernels launch one function |
| PlanRuns.OpenIffStuck | src/gpu_runtime_symbols.cpp:1234-1250 | the thread's override is set exactly when some earlier graph-mode call got host tensors and no later capture has reset it |
| PlanRuns.CallIsLost | src/gpu_runtime_symbols.cpp:727-731 | a graph-mode call on a host tensor, then a plain call on a device tensor that succeeds and performs nothing: its launch is only recorded |
| PlanLifecycle.PlanObject.MoveAssign | src/jit_runner.cpp:855-878 | move assignment destroys what the target had, takes the source's resources and leaves the source empty; self-assignment changes nothing |
| PlanLifecycle.NothingLeaksNothingTwice | src/jit_runner.cpp:826-878 | over any sequence of creations, captures, moves and drops, once all plans are gone every graph and stream has been destroyed exactly once |
| AccumulatorHoist.OriginalLoop | src/lowering_pipeline.cpp:559-616 | load, multiply-accumulate, store in every iteration leaves each fragment with its chain started from the output |
| AccumulatorHoist.HoistedLoop | src/lowering_pipeline.cpp:761-902 | carried accumulators and post-loop stores leave each fragment with its chain started from zero and change nothing else |
| AccumulatorHoist.AccumulateInRegisters | src/lowering_pipeline.cpp:796-870 | the value carried out per group is its chain over all iterations, in program order |
| AccumulatorHoist.GroupByTarget | src/lowering_pipeline.cpp:764-789 | two multiply-accumulates share a group exactly when their first stores have one target, and no group is empty |
| AccumulatorHoist.SafeToSkip | src/lowering_pipeline.cpp:690-755 | the operations left out are the largest closed candidate set without the multiply-accumulates: their results are used by each other and by those only |
| AccumulatorHoist.HoistingIsExactIff | src/lowering_pipeline.cpp:761-902 | original and hoisted loop agree on every multiply-accumulate function exactly when the stored cells are zero beforehand, for any trip count |
| DoubleBuffer.StridedIsValid | src/lowering_pipeline.cpp:1056-1075 | the emitted copies, thread by thread in steps of the thread count, move every cell of a tile exactly once, as the loop's theorems ask |
| DoubleBuffer.SingleBufferLoop | src/lowering_pipeline.cpp:1276-1290 | one buffer, filled and used in turn, accumulates every tile in order |
| DoubleBuffer.NextKeepsInv | src/lowering_pipeline.cpp:1438-1493 | every step of any thread and every landing of a copy keeps buffers, copies in flight, barriers and accumulators in order |
| DoubleBuffer.ComputeSeesItsTile | src/lowering_pipeline.cpp:1566-1668 | in every interleaving a thread computing iteration i sees tile i in every cell, and all copies in flight are of tile i + 1 into the other buffer |
| DoubleBuffer.ResultIsSingleBuffers | src/lowering_pipeline.cpp:1438-1668 | a thread past the loop has the accumulator of the loop with one buffer |
| DoubleBuffer.NeverStuck | src/lowering_pipeline.cpp:1566-1575 | in every reachable state all threads are done or some step is possible: waits and barriers never lock up |
| SplitK.PickTilingFactor | src/gpu_mapping.cpp:26-39 | the largest of the halvings of min(dim, preferred) that divides dim |
| SplitK.ComputeSplitKFactor | src/gpu_mapping.cpp:178-207 | one slice when the grid fills the device or tiles are few; otherwise the largest number of slices, within those that fill the device, that divides the K tiles and leaves three or more to each, or two where there are fewer than six |
| SplitK.LargestFactor | src/gpu_mapping.cpp:192-206 | counting down from the bound finds that largest number |
| SplitK.CeilDivIsLeast | src/gpu_mapping.cpp:41-51 | ceilDiv is the fewest parts that cover, and one at least |
| SplitK.SelectMultiWarp | src/gpu_mapping.cpp:258-318 | 128 by 128 tiles and 16 warps exactly when they divide m and n and fill the device, else 64 by 64 and 4 where those divide and give four blocks; the K tile is 32 exactly when it divides k, else 16; the factor fills the device |
| SplitK.SlicesCover | src/lowering_pipeline.cpp:455-484 | for any factor the slices meet, start at 0 and end at K |
| SplitK.SlicesAligned | src/lowering_pipeline.cpp:455-484 | with a factor that divides the K tiles every slice starts and ends on a tile and all are equally long |
| SplitK.Resolve | src/lowering_pipeline.cpp:2021-2099 | walking the views and dividing the linear offset computes the specified row and column |
| SplitK.ResolveKeepsAddressIff | src/lowering_pipeline.cpp:2021-2099 | the rewritten row and column name the original address exactly when the view is the output's, its cast has the output's row stride, or the store is in row 0 of the cast and the offset within one row |
| SplitK.ResolvesToElement | src/lowering_pipeline.cpp:2021-2099 | under that condition a store to an element of the output goes to the workspace at that element's row and column |
| SplitK.ProductKernel | src/lowering_pipeline.cpp:1971-2099 | storing through the rewritten rows and columns, each workspace slice holds its part of the sum, or all of it in slice 0 and zeros elsewhere when the loop is not cut |
| SplitK.ReductionKernel | src/lowering_pipeline.cpp:2113-2188 | every element of the output, and no other, becomes the sum of its slices |
| SplitK.SplitKProduct | src/lowering_pipeline.cpp:1971-2188 | zeroed workspace, product kernel with rewritten stores and reduction leave the unsplit product |
| TileCopy.MovedExactlyOnce | src/lowering_pipeline.cpp:1035-1095 | in all four forms exactly one thread and iteration moves a given cell of the tile |
| TileCopy.MovedByOneThread | src/gpu_tiling.cpp:642-820 | in all four forms exactly one thread (x, y, z) of the block moves a given cell, in one iteration |
| TileCopy.CopyTile | src/gpu_tiling.cpp:642-818 | when all threads have run the destination is what two nested loops would have copied, and no vector is moved twice |
| TileCopy.ChooseAsync | src/lowering_pipeline.cpp:1029-1052 | cp.async is used exactly when vectors of four divide evenly among the threads, with vectors of eight exactly when those do, and covers the tile |
| TileCopy.ChooseDistributed | src/gpu_tiling.cpp:685-820 | the block's shape picks each of the three forms exactly, and the form covers the tile; blocks of known width 32 are always complete |
| TileCopy.PackedNeedsNoGuard | src/gpu_tiling.cpp:709-746 | when the rows divide evenly no iteration goes past the last row, so leaving out the guard is safe |
| TileCopy.RowPerWarpNeedsNoGuard | src/gpu_tiling.cpp:748-779 | likewise for one row per warp |
| TileCopy.StridedCompleteIff | src/gpu_tiling.cpp:781-820 | some thread moves every cell of the strided form exactly when warps are whole, or the broken one gets no row, or no segment beyond its lanes |
| Staging.BuildAliasSet | src/gpu_data_staging.cpp:83-131 | the fixpoint ends with exactly the values that are views, however indirect, of the buffer |
| Staging.IsWritten | src/gpu_data_staging.cpp:134-175 | a buffer counts as written exactly when some store goes through a view of it |
| Staging.LoadsThroughViews | src/gpu_data_staging.cpp:209-344 | a load reads the buffer element that the views' index maps lead to |
| Staging.TraceToFuncArg | src/gpu_data_staging.cpp:22-47 | the function argument a value is a view of, if the chain of views has no extracted metadata and ends at one |
| Staging.StageDataForLaunch | src/gpu_data_staging.cpp:209-344 | allocating, copying in, running on device copies and copying the written ones back is the specified staged run |
| Staging.TransparentIff | src/gpu_data_staging.cpp:209-344 | a staged run leaves host memory as a direct run does, for every launch, exactly when no host buffer shares memory with another captured one |
| Staging.AllStagedIsDirect | src/gpu_data_staging.cpp:190-207 | any sequence of staged launches leaves memory as the direct ones do |
| Trace.Visit | matcore/frontend.py:1573-1582 | the depth-first search ends and adds exactly the nodes one node depends on, producers first, none twice |
| Trace.TopologicalOrder | matcore/frontend.py:1570-1587 | the order lists exactly the nodes the outputs depend on, once each, producers before consumers |
| Trace.SliceGivesSameOutputs | matcore/frontend.py:1556-1613 | evaluating the listed nodes only gives the outputs of evaluating all nodes in recording order |
| Trace.EvaluatesToMeaning | matcore/frontend.py:1556-1613 | in any order with producers first, evaluated values are what they denote and inputs are untouched |
| Trace.FusionTraceBuilder.NewNode | matcore/frontend.py:1483-1498 | the node is appended, its output's producer set, it joins each input's consumers once per use, and the recording stays typed exactly when the output is declared as the operation makes it |
| Trace.FusionTraceBuilder.NewValue | matcore/frontend.py:1461-1481 | the value is appended without producer or consumers |
| Trace.FusionTraceBuilder.AddOperation | matcore/frontend.py:1507-1554 | a fresh value computed by a new node: a product has the rows of its left operand and the columns of its right one as used, any other result its first operand's shape |
| TracerTensors.MatMul | matcore/frontend.py:1507-1525 | the product is declared with the rows and columns of the views; that is what the recorded node makes exactly when the left operand is no transposed view, or square |
| TracerTensors.MatMulMeans | matcore/frontend.py:1643-1647 | with a plain left operand the recorded matmul is the product asked for, also of a transposed right operand |
| TracerTensors.ProductRightIff | matcore/frontend.py:1630-1647 | a product of two inputs is recorded right, for all arguments, exactly when the left one is no transposed view, or is a single element |
| TracerTensors.UnaryRightIff | matcore/frontend.py:1538-1542 | likewise an elementwise operation on an input |
| Trace.FusionTraceBuilder.Finish | matcore/frontend.py:1556-1612 | outputs are marked and nothing else changes, inputs are those recorded as such, the order is the outputs' slice; a builder finished for the first time gives a well-formed graph, as all fusion theorems ask |
| FusionRegions.GrowRegion | src/fusion_analysis.cpp:338-381 | the region is the longest chain of single uses from its start under the limits on matmuls and kinds |
| FusionRegions.DiscoverCandidates | src/fusion_analysis.cpp:313-397 | the candidates are the regions of all listed nodes, each once, softmax only inside two matmuls |
| FusionRegions.CandidateIff | src/fusion_analysis.cpp:313-397 | from kinds and uses of nodes alone: discovery lists exactly the live chains, each result used only by the next node, of two matmuls with pointwise nodes and softmax between, a matmul with the longest run of pointwise nodes behind it, pointwise nodes and the matmul behind them, or pointwise nodes with none |
| TracedChains.WholeChainIff | src/fusion_analysis.cpp:313-397 | a traced chain of any operations is a candidate as a whole exactly when their kinds are of these forms |
| TracedChains.TraceEveryPattern | src/fusion_analysis.cpp:399-448 | each of the four patterns is that of some traced candidate |
| FusionRegions.SingleUse | src/fusion_analysis.cpp:300-311 | a value with one consumer entry is used once by that node and by no other |
| FusionRegions.RegionUnique | src/fusion_analysis.cpp:338-381 | a start has one region |
| FusionRegions.LimitEndsRegion | src/fusion_analysis.cpp:357-361 | a matmul that reaches the limit is the region's last node |
| FusionRegions.DeadNodesAreNotFused | src/fusion_analysis.cpp:332-381 | a region that starts with a node the outputs depend on holds no other kind, though dead consumers are recorded too |
| FusionRegions.PatternIs | src/fusion_analysis.cpp:399-448 | the pattern of every candidate follows from its ends and whether it has a softmax; a tile chain never arises |
| FusedChains.FindOperands | src/fusion_emitter_family_a.cpp:170-182 | for a value used once, its side and the other operand; for a value used twice the other operand would be taken to be value 0 |
| FusedChains.TwiceUsedIsStored | src/fusion_analysis.cpp:300-311 | a value used twice by a node escapes, so no region goes on behind it |
| FusedChains.TranslateChain | src/fusion_emitter_family_a.cpp:149-216 | the chain is translated exactly when every node is elementwise and other operands are graph inputs of the chain's shape, and each spec says what its node does |
| FusedChains.ChainMeans | src/fusion_emitter_family_b.cpp:129-190 | applying the specs to an element of the first node's result is the last node's element, evaluated node by node |
| FamilyA.EmitFamilyA | src/fusion_emitter_family_a.cpp:27-216 | a region is accepted exactly when it is a plain matmul of graph inputs with agreeing dimensions, a result of the product's shape and a chain that translates |
| FamilyA.AcceptedIsWithEpilogue | src/fusion_emitter_common.cpp:264-279 | a traced chain is accepted exactly when it is a plain matmul of graph inputs with agreeing inner dimensions and elementwise nodes on its result and on inputs of the product's shape; the shapes the tracer declares always agree |
| FamilyACall.TracedKindsFit | src/fusion_emitter_common.cpp:195-209 | no traced node fails the check of kinds against operand counts |
| TracedChains.TakenByA | src/fusion_emitter_family_a.cpp:27-216 | a traced matmul with any elementwise operations behind it is a candidate and is accepted |
| FamilyA.AcceptedPattern | src/fusion_emitter_common.cpp:264-279 | a candidate it accepts is a matmul with an elementwise epilogue to discovery |
| FamilyA.OnlyLastLeaves | src/fusion_analysis.cpp:241-256 | no value but the last node's leaves a region |
| FamilyA.FallbackEpilogue | src/fusion_epilogue_pass.cpp:493-601 | the separate launch applies the chain to every element exactly once |
| FamilyA.FusedCall | src/fusion_emitter_family_a.cpp:141-216 | zeroed output, matmul and separate epilogue leave the last node's value, evaluated node by node |
| FamilyACall.EmitAndCall | src/fusion_epilogue_pass.cpp:401-601 | any discovered region: taken exactly when it is a plain matmul of graph inputs with an elementwise epilogue, and under each of the four strategies the output is the last node's value, evaluated node by node, given that strategy's condition |
| InRegister.InRegisterIsRightIff | src/fusion_epilogue_pass.cpp:417-474 | the element a tagged store leaves is the graph's, for all operations and arguments, exactly when the chain has no boundary operand or the store's indices are the element's |
| InRegister.InRegisterLaunch | src/fusion_epilogue_pass.cpp:422-474 | every tagged store leaves the chain of its accumulator with boundaries loaded at its own indices; where those are right the output is the graph's |
| InLaunch.InLaunchIsRightIff | src/fusion_epilogue_pass.cpp:179-307 | every element is the graph's, for all operations and arguments, exactly when the loop runs and its last iteration adds nothing behind the first barrier |
| InLaunch.LastKIsRightIff | src/fusion_epilogue_pass.cpp:197-265 | the same for a K loop of any step over any inner dimension, which has to be positive |
| InLaunch.SingleTileIsRightIff | src/fusion_epilogue_pass.cpp:267-307 | the same for a launch without a K loop: no store is behind the first barrier |
| InLaunch.TileEpilogue | src/fusion_epilogue_pass.cpp:90-176 | every element of a tile gets the chain once, with the boundary element at its own place, and nothing else changes |
| InLaunch.LastKLaunch | src/fusion_epilogue_pass.cpp:197-265 | every element of every tile ends as its fused loop says, and elements of no tile are untouched |
| InLaunch.SingleTileLaunch | src/fusion_epilogue_pass.cpp:267-307 | the elements of the tile end as the rewritten body says |
| EpiloguePlacement.GuardIsLastIff | src/fusion_epilogue_pass.cpp:238-241 | the unsigned test holds in exactly the last iteration if and only if no index after the first is negative |
| EpiloguePlacement.FusedLoop | src/fusion_epilogue_pass.cpp:197-265 | with the unsigned test as guard the epilogue runs in the last iteration only, for bounds whose indices after the first are not negative |
| EpiloguePlacement.PlacementIsRightIff | src/fusion_epilogue_pass.cpp:179-307 | the element ends as the loop's value with the chain applied once exactly when the loop runs and no store to the output is behind the first barrier |
| EpiloguePlacement.StagedBodyIsWrong | src/fusion_epilogue_pass.cpp:235-241 | a body that copies, waits, accumulates and waits has its epilogue before the last accumulation |
| FamilyB.EmitFamilyB | src/fusion_emitter_family_b.cpp:44-190 | a region is accepted exactly when it is matmul, glue, matmul over graph inputs, both matmuls' dimensions and the result's agree, and the glue translates |
| FamilyB.AcceptedIsWithGlue | src/fusion_emitter_common.cpp:280-335 | a traced chain is accepted exactly when it is matmul, elementwise glue, matmul over graph inputs with agreeing inner dimensions |
| TracedChains.TakenByB | src/fusion_emitter_family_b.cpp:12-190 | a traced matmul, any elementwise operations and a matmul are a candidate and accepted |
| FamilyB.AcceptedPattern | src/fusion_emitter_common.cpp:280-335 | a candidate it accepts is matmul, elementwise glue, matmul to discovery |
| FamilyB.Launch | src/fusion_emitter_family_b.cpp:220-383 | the blocks' 16 by 16 tiles cover the output and every element is the recomputing double sum |
| FamilyB.ElementIsCell | src/fusion_emitter_family_b.cpp:262-383 | that double sum is the second matmul's element, evaluated node by node |
| FamilyB.EmitAndCall | src/fusion_emitter_family_b.cpp:12-383 | any discovered region: taken exactly when it is matmul, elementwise glue, matmul with agreeing dimensions, and then the output is the last node's value, evaluated node by node |
| FamilyCCall.EmitFamilyC | src/fusion_emitter_family_c.cpp:37-187 | a region is accepted exactly when it has two matmuls and a softmax over the last dimension between them, all of graph inputs, no cast, and all dimensions agree |
| FamilyCCall.AcceptedIsWithSoftmax | src/fusion_emitter_common.cpp:336-384 | a candidate is accepted exactly when it is matmul, softmax over the last dimension, matmul, over graph inputs with agreeing inner dimensions; nothing else fits between |
| TracedChains.TakenByC | src/fusion_emitter_family_c.cpp:37-187 | a traced matmul, softmax along -1 or 1 and matmul are a candidate and accepted |
| FamilyCCall.AcceptedPattern | src/fusion_emitter_common.cpp:336-384 | a candidate it accepts is matmul, softmax, matmul to discovery and ends in the second matmul |
| FamilyCCall.ResultIsCell | src/fusion_emitter_family_c.cpp:214-562 | the kernel's element is the last node's, evaluated node by node, exactly with keys, and otherwise not a number |
| FamilyCCall.EmitAndCall | src/fusion_emitter_family_c.cpp:12-567 | any discovered region: taken exactly when it is matmul, softmax, matmul with agreeing dimensions, and then the output is the last node's value, evaluated node by node, if and only if there are keys |
| KeyText.FlatUnique | src/cache_manager.cpp:88-287 | two lists of delimiter-led words with the same text are the same list |
| CacheKey.KeyUnique | src/cache_manager.cpp:155-333 | for delimiter-free names two graph kernel keys are equal exactly when everything they show is: structure, attributes, target, mode, first three tensors |
| CacheKey.CallKeysEqualIff | src/cache_manager.cpp:292-333 | two calls have one key exactly when name, target, mode, graph and quantization are the same and so are symbol, dtype, residency, quantization and first two dimensions of the first three tensors |
| CacheKey.FourthTensorNotShown | src/cache_manager.cpp:312-331 | a tensor after the third leaves no trace in the key |
| CacheKey.PrintedGraphUnique | src/cache_manager.cpp:239-246 | without floating-point immediates the printed graph determines the graph |
| CacheKey.HitIsFreshIff | src/jit_runner.cpp:626-647 | what is found under a call's key is what compiling it would give exactly when it passes fewer than three tensors or as many as the kernel takes |
| CacheKey.HitWhereFreshRefuses | src/fusion_emitter_family_a.cpp:40-43 | a call with one tensor too many finds code that compiling would refuse |
| KeyBuilder.BuildExecutionCacheKey | src/cache_manager.cpp:292-333 | the appends produce exactly the specified key |
| KeyBuilder.Key.PutGraph | src/cache_manager.cpp:155-280 | the appends for a graph kernel are its tokens in order |
| KeyBuilder.MemoryCache.GetOrCreate | src/jit_runner.cpp:626-719 | in any history a call that shows enough gets what compiling afresh gives, forced calls recompile, failures keep nothing, other entries stay |

## Left out

- Rounding, dtype conversion and fast-math; fixed-width index overflow, except that tile sizes are clamped as in the source.
- MLIR itself: pass managers, canonicalisation, outlining, lowering to NVVM or ROCDL, and the handles and errors of the CUDA driver beyond what the runtime does with them.
- What the pool does when a driver call fails half-way.
- CaptureRuntime.Runtime.InvokeCompiledKernel: models one thread's capture state; the source keeps it thread-local.
- CapturedGraph.FusionGraph.Execute: launch results and the validation of arrays against kernels are not modelled, only memory.
- CapturedGraph.FusionGraph.AnalyzeFusionOpportunities: the fusible pairs in the report are left out; nothing runs by them. The guard against cyclic bases of arrays is left out: bases are a finite chain.
- KernelOperations.StaysInSets: a store changes the array its tensor names; a store to an expression that is no parameter's name changes none.
- DoubleBuffer.ResultIsSingleBuffers: for loops that run at least once; the prologue's copy of a first tile that does not exist is not modelled.
- AccumulatorHoist.HoistedLoop: one lane's view, with every fragment element stored; targets that differ are taken to be different cells.
- TileCopy.ChooseAsync: blocks with one layer along z, as the cp.async form numbers threads by x and y only.
- Staging.StageDataForLaunch: a captured value is a buffer; views made outside the launch are buffers of their own.
- FamilyA.FusedCall: the tiled matmul is one triple loop over a zeroed output; the tiling's own steps are the other transformations.
- InLaunch.LastKLaunch: threads run one after another, each on its own tile; one K loop stores to a tile.
- FamilyACall.EmitAndCall: which strategy applies is what the compiler finds in the lowered matmul; here it is a parameter, with the stores, tiles and body it finds.
- FusedChains.TranslateChain: dtypes, and so the check that a boundary has the output's.
- FamilyCCall.EmitFamilyC: dtypes and the tensor count; causal softmax, which the emitter refuses and the tracer never records.
- FamilyA.EmitFamilyA: left operands are never marked transposed, as the tracer marks none; ranks are two; the tensor count is checked in `CacheKey`.
- AttentionThreads.BlockLeavesAttention: what an iteration computes from operands nobody writes, such as a score, is one step of it; blocks have workgroup memory and tiles of their own, and run one after another.
- PlanRuns.EveryCallHasEffectIff: plans stay alive between calls, also one whose capture failed; tensors have elements. Of what the driver forbids under an open capture only loading modules is modelled, as a parameter; zeroing and copies on other streams are taken to be allowed.
- FusionRegions.DiscoverCandidates: scoring of tile shapes, register and occupancy estimates, and which accepted plan is taken; the fused region's last value is taken to be the graph's output.
- KeyBuilder.MemoryCache.GetOrCreate: graph kernels and the memory cache only. The disk cache, keyed by a hash of the key, linear and region keys, and floating-point fields, which print six digits and are not injective, are outside the claim.
- CacheKey.HitIsFreshIff: the compiled code is a function of name, target, mode, graph and residency, with producer and consumer lists those of the nodes; the frontend refuses calls that mix host and device tensors.
- The region tracer and its emitter; eligibility tables for eight-bit floats; argument parsing, diagnostics and configuration.
