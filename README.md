# ModelEngine scheduling core, with the Life and Particle samples

ModelEngine runs a model as a sequence of ticks. Each worker owns a
context that holds two lists:
- `WorkForNextThread`: the work items produced during the tick;
- `WorkForThread`: the items it must process in the next tick.

Between ticks a partitioner collects the produced items and hands them out
again. The constant-width partitioner routes each item to the worker whose
fixed index range holds it. The adaptive-width partitioner takes the items
that are due, sorts them by model index and gives each worker a contiguous
segment, never splitting a run of equal indices. The engine thread flips
every worker's buffer selector and counts iterations. The constant tick
waiter keeps a fixed cadence.

Two sample models run on this engine:
- **Life**: Conway's game of life over a 3×3 neighbourhood bit mask, a
  512-entry rule table and a popcount.
- **Particle**: particles that step along a Bresenham line and bounce off
  the walls of the grid.

The project also covers the samples' set-up code, their CSV records and
the configuration and argument strings of the runner.

The project is Dafny and is organised by source file:

| file | module | models |
|---|---|---|
| basics.dfy | Basics | 64-bit words, `Option`, list helpers, the configured model size |
| work_item.dfy | WorkItems | `WorkItem` and its tick-only ordering |
| worker_context.dfy | WorkerContexts | `WorkerContext`, `WorkerContextOp`, `ProcessCallback` |
| tick_waiter.dfy | TickWaiters | `ConstantTickWaiter` |
| engine_context.dfy | EngineContexts | `ModelEngineContext` and `CreateWorkers` |
| constant_partitioner.dfy | ConstantPartitioning | `ConstantWidthPartitioner` |
| segments.dfy | Segmentation | sorting by index, segment boundaries, the cutoff split |
| adaptive_partitioner.dfy | AdaptivePartitioning | `AdaptiveWidthPartitioner` |
| engine_thread.dfy | EngineThreads | the tick bookkeeping of `ModelEngineThread` |
| bits.dfy | SurroundBits | `GetSurroundingCount` and the neighbourhood mask |
| life.dfy | Life | `LifeImplementation` |
| life_support.dfy | LifeSupports | `LifeSupport` |
| particle.dfy | Particle | `ParticleImplementation`, `ParticleNode`, `ParticleOperation` |
| particle_support.dfy | ParticleSupports | `ParticleSupport` |
| text.dfy | Text | decimal numbers and comma-separated rows |
| records.dfy | Records | `LifeRecord`, `ParticleRecord` |
| configuration.dfy | Configuration | `ConfigurationUtilities` |
| model_runner.dfy | ModelRunners | `ModelRunner` |

Classes model the code that updates objects in place:
- worker contexts, the engine context, the partitioners and the waiter;
- the engine thread;
- the sample implementations, their model carriers and support classes;
- the configuration loaders.

Each method states its new state. The state is written either directly or
as a specification function of the old state, and lemmas prove what the
source promises about that function. Code that only computes becomes
functions: the rule predicate, the Bresenham step, the wall reflection, the
record rows and the path strings.

Calls into the callback are modelled as the list of emissions a method
returns. Each emission is a `(operation, tick delay)` pair, in call order.
`ProcessCallback.Call` shows how one emission becomes a work item.

## Model

| member | source | states |
|---|---|---|
| WorkItems.LessIsStrictOrder | include/WorkItem.h:15-18 | `a < b` holds exactly when `a.Tick < b.Tick`, whatever the operators; the order is irreflexive and transitive; two items with equal ticks are not less than each other |
| WorkerContexts.Flip | include/ModelEngineThread.h:239-242 | a flipped selector always differs from the old one |
| WorkerContexts.FlipTwiceRestores | include/ModelEngineThread.h:235-249 | flipping a selector twice restores it |
| WorkerContexts.EmptyRangeAcceptsNothing | include/WorkerContextOp.h:38-45 | a context with `RangeBegin >= RangeEnd` accepts no index |
| WorkerContexts.ScheduledTick | include/ProcessCallback.h:37-40 | the scheduled tick is `Iterations + tickDelay` modulo 2^64; with the default delay it is `Iterations` itself |
| WorkerContexts.WorkerContext.constructor | include/WorkerContext.h:51-67 | a new context has the given id and range, empty lists and buffer 1 current |
| WorkerContexts.WorkerContext.CaptureWorkForThread | include/WorkerContextOp.h:30-36 | `WorkForThread` becomes exactly the given segment; the old contents are discarded |
| WorkerContexts.WorkerContext.PushIfInRange | include/WorkerContextOp.h:38-45 | returns true iff `RangeBegin <= Index < RangeEnd`; on true the item is appended after the unchanged earlier items, on false the list is unchanged |
| WorkerContexts.ProcessCallback.constructor | include/ProcessCallback.h:31-35 | the callback is bound to the given context |
| WorkerContexts.ProcessCallback.Call | include/ProcessCallback.h:37-40 | appends exactly one item `{Iterations + tickDelay, op}` to the bound context's `WorkForNextThread`; the earlier entries and their order are unchanged |
| TickWaiters.ConstantTickWaiter.constructor | include/ConstantTickWaiter.h:28-34 | the first scheduled tick is the construction time plus one engine period |
| TickWaiters.ConstantTickWaiter.WaitForWorkOrQuit | include/ConstantTickWaiter.h:36-48 | returns the quit flag the wait observed; the next scheduled tick advances by exactly one period, whether or not quit was signalled and however late the wake-up |
| TickWaiters.AdvancedClosedForm | include/ConstantTickWaiter.h:31-42 | after n advances the scheduled tick is `start + n * period`, so after n waits it is `construction + (n + 1) * period` |
| EngineContexts.RangeBeginClosedForm | include/ModelEngineContextOp.h:36-49 | worker k starts at `(k - 1) * (ModelSize / WorkerCount)` |
| EngineContexts.RangeEndClosedForm | include/ModelEngineContextOp.h:36-49 | a worker k other than the last ends at `k * (ModelSize / WorkerCount)` |
| EngineContexts.RangesTile | include/ModelEngineContextOp.h:36-60 | the ranges start at 0, the last ends at `ModelSize`, each range ends where the next begins, and ranges of different workers do not overlap |
| EngineContexts.EveryIndexHasAnOwner | include/ModelEngineContextOp.h:36-60 | every index below `ModelSize` lies in some worker's range |
| EngineContexts.NoIndexHasTwoOwners | include/ModelEngineContextOp.h:36-60 | no index lies in the ranges of two different workers |
| EngineContexts.EngineContext.constructor | include/ModelEngineContext.h:66-81 | the engine period is `ModelTicks` when it is configured and 1000 otherwise; counters start at zero; the external source is empty with buffer 1 current |
| EngineContexts.EngineContext.CreateWorkers | include/ModelEngineContextOp.h:34-67 | appends exactly `WorkerCount` fresh workers with ids 1..`WorkerCount` and the computed ranges, keeping the earlier workers; a negative count appends one fresh worker with that count as its id and the whole model as its range; the external source gets id `WorkerCount + 1` and range `[0, ModelSize)` |
| EngineContexts.MakeWorkers | include/ModelEngineContextOp.h:36-60 | builds `WorkerCount` distinct fresh workers; worker k has id k, the range given by the division and empty lists; for a negative count the loop does not run and the one worker has the count as its id and the range `[0, ModelSize)` |
| ConstantPartitioning.FirstOwnerIsFirst | include/ConstantWidthPartitioner.h:63-67 | the chosen worker's range holds the index and no earlier worker's range does; there is no owner exactly when no range holds the index |
| ConstantPartitioning.LayoutRoutesToOwner | include/ConstantWidthPartitioner.h:57-73 | with the ranges `CreateWorkers` assigns, every index below `ModelSize` goes to the one worker whose range holds it |
| ConstantPartitioning.DistributionIsRouted | include/ConstantWidthPartitioner.h:59-71 | each worker's list after distribution is its old list followed by the items routed to it, in scan order |
| ConstantPartitioning.DistributionAppend | include/ConstantWidthPartitioner.h:59-71 | distributing two batches one after the other equals distributing their concatenation |
| ConstantPartitioning.RoutedAppend | include/ConstantWidthPartitioner.h:59-71 | the items routed to a worker from two batches are those from the first batch followed by those from the second |
| ConstantPartitioning.RoutedCounts | include/ConstantWidthPartitioner.h:61-67 | a worker receives every copy of an item whose first owner it is and nothing else; items without an owner are dropped |
| ConstantPartitioning.DistributionByLayout | include/ConstantWidthPartitioner.h:57-73 | with the `CreateWorkers` layout, a worker receives exactly the pending items whose index lies in its range, each as often as it was pending |
| ConstantPartitioning.ConstantWidthPartitioner.constructor | include/ConstantWidthPartitioner.h:25-29 | the partitioner is bound to the given context |
| ConstantPartitioning.ConstantWidthPartitioner.Partition | include/ConstantWidthPartitioner.h:31-40 | returns the total length of the old `WorkForThread` lists and adds it to `TotalWork`; `Iterations` grows by one; each new `WorkForThread` holds only the pending items routed to that worker; all pending lists are empty; ranges and ids are unchanged |
| ConstantPartitioning.ConstantWidthPartitioner.AccumulateWorkfromWorkers | include/ConstantWidthPartitioner.h:43-55 | returns the total length of the `WorkForThread` lists and adds it to `TotalWork`; all those lists are cleared; pending lists are untouched |
| ConstantPartitioning.ConstantWidthPartitioner.DistributeWorkToWorkers | include/ConstantWidthPartitioner.h:57-73 | every pending item of every worker, in worker and list order, is appended to its first owner; every worker's pending list ends empty; the engine context, including the external source, is untouched |
| ConstantPartitioning.DistributeAll | include/ConstantWidthPartitioner.h:59-72 | the outer loop: after all source workers, the lists are the distribution of all pending items and every pending list is empty |
| ConstantPartitioning.DistributeFrom | include/ConstantWidthPartitioner.h:61-71 | one source worker: its pending items are appended to their owners and its pending list is cleared; the other pending lists are untouched |
| ConstantPartitioning.PushToFirstOwner | include/ConstantWidthPartitioner.h:63-68 | the inner loop: the item is appended to its first owner only, and every other list is unchanged |
| ConstantPartitioning.ClearWorkLists | include/ConstantWidthPartitioner.h:46-52 | returns the total length of the lists and leaves every `WorkForThread` empty, changing nothing else |
| Segmentation.InsertKeepsSorted | include/AdaptiveWidthPartitioner.h:120-126 | inserting an item into a list sorted by `Operator.Index` keeps it sorted |
| Segmentation.SortByIndex | include/AdaptiveWidthPartitioner.h:120-126 | the result is sorted by `Operator.Index` and is a permutation of the input |
| Segmentation.SegmentSize | include/AdaptiveWidthPartitioner.h:131-132 | the segment size is at least 1 and equals `n / WorkerCount` when there are at least as many items as workers |
| Segmentation.NegativeCountSegmentSize | include/AdaptiveWidthPartitioner.h:131-132 | a negative `WorkerCount`, converted to `unsigned long`, gives segment size 1 |
| Segmentation.SoleSegment | include/AdaptiveWidthPartitioner.h:150-165 | a single worker, being the last, receives all the due work |
| EngineContexts.NextRange | include/ModelEngineContextOp.h:36-49 | a worker before the last ends one segment after its start, inside the model |
| Segmentation.RunEnd | include/AdaptiveWidthPartitioner.h:158-160 | the run extension stops at the first item with a different index or at the end |
| Segmentation.SegmentEndIsRunBoundary | include/AdaptiveWidthPartitioner.h:154-165 | the last worker, or a remainder no longer than the segment size, takes everything; otherwise the segment has at least the segment size and ends between two different indices |
| Segmentation.SegmentsConcatenate | include/AdaptiveWidthPartitioner.h:134-145 | there is one segment per worker, and the segments concatenated in worker order give back the sorted due list |
| Segmentation.SegmentsSeparateIndices | include/AdaptiveWidthPartitioner.h:136-161 | for workers i < j, every index given to i is strictly below every index given to j, so no index is split between workers |
| Segmentation.SegmentSizes | include/AdaptiveWidthPartitioner.h:154-165 | a worker other than the last gets the whole remainder or at least the segment size; workers after the remainder is used up get empty lists |
| Segmentation.EmptyAfterEnd | include/AdaptiveWidthPartitioner.h:154-165 | once the list is used up, every further segment is empty |
| Segmentation.DueAndKeptExactly | include/AdaptiveWidthPartitioner.h:56-59 | the due list holds every backlog item with `Tick < cutoff`, each as often as in the backlog; the kept list holds the rest; no item is created or lost |
| Segmentation.SplitIsDueAndKept | include/AdaptiveWidthPartitioner.h:102-114 | a backlog split at the returned position gives the due items before it and the kept items after it |
| Segmentation.DueAndKeptPermuted | include/AdaptiveWidthPartitioner.h:120-126 | sorting the due list keeps the due and kept conservation |
| AdaptivePartitioning.AdaptiveWidthPartitioner.constructor | include/AdaptiveWidthPartitioner.h:44-48 | the partitioner is bound to the context with an empty backlog |
| AdaptivePartitioning.AdaptiveWidthPartitioner.Partition | include/AdaptiveWidthPartitioner.h:50-75 | returns the number of due items (`Tick < cutoff`) and adds it to `TotalWork`; `Iterations` grows by one; due and kept items together are the old backlog plus every pending list; the workers' new lists are the segments of the due items sorted by index; all pending lists are empty |
| AdaptivePartitioning.AdaptiveWidthPartitioner.TakeDueWork | include/AdaptiveWidthPartitioner.h:55-59 | returns the due items and keeps the rest in the backlog, all pending lists drained |
| AdaptivePartitioning.AdaptiveWidthPartitioner.CountAndHandOut | include/AdaptiveWidthPartitioner.h:68-72 | counts the due items into `TotalWork`, increments `Iterations` and hands the sorted items out in segments |
| AdaptivePartitioning.AdaptiveWidthPartitioner.AccumulateWorkFromAllWorkers | include/AdaptiveWidthPartitioner.h:79-100 | the backlog grows by every worker's pending items in worker order, then the external source's; all those pending lists end empty and nothing else changes |
| AdaptivePartitioning.AdaptiveWidthPartitioner.FindCutoffPoint | include/AdaptiveWidthPartitioner.h:102-114 | the backlog becomes a permutation of itself; items before the returned position have `Tick < cutoff` and items after it do not; an empty backlog gives position 0 = end |
| AdaptivePartitioning.AdaptiveWidthPartitioner.CaptureWorkForEachThread | include/AdaptiveWidthPartitioner.h:116-146 | the due items are sorted by index (a permutation); worker i's `WorkForThread` is replaced by the i-th segment; only those lists change |
| AdaptivePartitioning.AdaptiveWidthPartitioner.HandOutSegments | include/AdaptiveWidthPartitioner.h:134-145 | the loop over workers: each worker captures the segment that starts where the previous one ended |
| AdaptivePartitioning.AdaptiveWidthPartitioner.FindSegmentEnd | include/AdaptiveWidthPartitioner.h:148-168 | the end is the specified segment boundary: the end of the list for the last worker, otherwise the segment size extended over a run of equal indices |
| AdaptivePartitioning.DrainPending | include/AdaptiveWidthPartitioner.h:81-89 | returns every worker's pending items in order and leaves each pending list empty |
| EngineThreads.FlipTimesParity | include/ModelEngineThread.h:235-249 | n switches leave a selector as it was when n is even and flipped when n is odd |
| EngineThreads.FirstQuit | include/ModelEngineThread.h:128-144 | the loop's tick count is the position of the first quit signal |
| EngineThreads.IdleTicksAreNotTimed | include/ModelEngineThread.h:227-232 | ticks whose single-thread step found no work add nothing to `PartitionTime` |
| EngineThreads.TimedWorkBounded | include/ModelEngineThread.h:227-232 | `PartitionTime` grows by at most the total elapsed time, and by all of it when every tick had work |
| EngineThreads.ModelEngineThread.constructor | include/ModelEngineThread.h:56-71 | a `WorkerCount` of 0 becomes the hardware concurrency minus one; a configured count is kept |
| EngineThreads.ModelEngineThread.Initialize | include/ModelEngineThread.h:109-118 | the workers are created as by `CreateWorkers`: earlier workers kept, the new ones fresh with their ids and ranges, the external source with id `WorkerCount + 1` and range `[0, ModelSize)`; `Iterations` is 0 and `EngineInitialized` is true |
| EngineThreads.ModelEngineThread.WaitForWorkOrQuit | include/ModelEngineThread.h:162-166 | with no waiter the result is true and nothing changes; otherwise the waiter's answer and cadence step |
| EngineThreads.ModelEngineThread.PartitionWork | include/ModelEngineThread.h:223-233 | `PartitionTime` grows by the elapsed time only when the step reported work |
| EngineThreads.ModelEngineThread.SwitchWorkingBuffersForAllWorkers | include/ModelEngineThread.h:235-249 | every worker's selector and the external source's selector are flipped |
| EngineThreads.ModelEngineThread.Tick | include/ModelEngineThread.h:134-141 | one tick: `PartitionTime` accounting, every selector flipped, `Iterations` incremented modulo 2^64 |
| EngineThreads.ModelEngineThread.Step | include/ModelEngineThread.h:129-143 | an iteration that does not quit runs exactly one tick; one that quits changes only the quit flag and the waiter's cadence |
| EngineThreads.ModelEngineThread.MainLoop | include/ModelEngineThread.h:120-160 | the loop ends at the first quit (at once with no waiter); `Iterations` grows by the number of ticks; each selector is flipped that many times; the waiter advances by one period per wait |
| SurroundBits.LowestBitCleared | samples/life/include/LifeImplementation.h:268-272 | clearing the lowest set bit lowers the popcount by exactly one |
| SurroundBits.GetSurroundingCount | samples/life/include/LifeImplementation.h:264-275 | returns the number of 1-bits of the argument |
| SurroundBits.MaskBits | samples/life/include/LifeImplementation.h:237-251 | bit i of the neighbourhood mask is set exactly when the i-th position is live |
| SurroundBits.MaskBound | samples/life/include/LifeImplementation.h:250 | a mask of at most nine positions is below 512, a valid index into the rule table |
| SurroundBits.NeighbourCountOfMask | samples/life/include/LifeImplementation.h:216-230 | the popcount of the mask without the centre bit is the number of live neighbours |
| Life.Neighbourhood | samples/life/include/LifeImplementation.h:241-243 | the walk visits at most nine positions |
| Life.InteriorNeighbourhood | samples/life/include/LifeImplementation.h:253-262 | past the first row the walk visits the nine cells `cell + dr*width + dc`, row by row |
| Life.FirstRowNeighbourhood | samples/life/include/LifeImplementation.h:241 | a first-row cell's walk visits nothing, because `cellIndex - width_` wraps around |
| Life.SecondRowStartNeighbourhood | samples/life/include/LifeImplementation.h:241 | the cell at index `width` skips its upper row and visits six positions |
| Life.InteriorCellFollowsConway | samples/life/include/LifeImplementation.h:216-251 | past the first row, the looked-up rule is Conway's B3/S23 over the eight index neighbours `cell±1`, `cell±width` and `cell±width±1`: alive next iff three of them are live, or two and the cell alive; indices past `maxIndex_` count as dead |
| Life.FirstColumnCountsLastColumn | samples/life/include/LifeImplementation.h:240-248 | a first-column cell in row `r` counts the last-column cells of rows `r - 2`, `r - 1` and `r` as its left neighbours, since the walk does not check columns |
| Life.LastColumnCountsFirstColumn | samples/life/include/LifeImplementation.h:240-248 | a last-column cell in row `r` counts the first-column cells of rows `r`, `r + 1` and `r + 2` as its right neighbours |
| Life.FirstRowStaysDead | samples/life/include/LifeImplementation.h:237-251 | a first-row cell is never alive next, because its mask is empty |
| Life.EvaluationKeepsAlive | samples/life/include/LifeImplementation.h:170-187 | an evaluation writes only the evaluated cell's `AliveNextTick`, never any `Alive` |
| Life.NextAliveReadsAliveOnly | samples/life/include/LifeImplementation.h:237-251 | the rule result depends only on the `Alive` flags |
| Life.EvaluationsCommute | samples/life/include/LifeImplementation.h:170-187 | evaluating two cells in either order gives the same model |
| Life.EvaluateThenPropagate | samples/life/include/LifeImplementation.h:170-209 | an evaluation emits exactly one Propagate for the cell iff the rule differs from `Alive`, otherwise nothing; the propagation then makes `Alive` the rule result |
| Life.PropagationSignalsNeighbours | samples/life/include/LifeImplementation.h:195-209 | a propagation emits nine Evaluate operations, the cell itself in the middle and its eight index neighbours around it |
| Life.LastRowSignalsPastGrid | samples/life/include/LifeImplementation.h:253-262 | a last-row propagation signals an index at or past `width * height` |
| Life.WorkItemStepKeepsSize | samples/life/include/LifeImplementation.h:140-161 | processing an operation keeps the model's size |
| Life.ProcessAll | samples/life/include/LifeImplementation.h:116-137 | processing a list of items keeps the model's size |
| Life.DedupShape | samples/life/include/LifeImplementation.h:122-136 | after the run filter no two neighbours share an index, and the last index is kept |
| Life.DedupKeepsIndices | samples/life/include/LifeImplementation.h:122-136 | the filter keeps every index that occurs, and only those |
| Life.DedupOfSortedIsStrict | samples/life/include/LifeImplementation.h:122-136 | on a list sorted by index, the kept indices are strictly increasing, so each cell is processed once |
| Life.UniqueByIndex | samples/life/include/LifeImplementation.h:122-136 | the loop keeps the first item of each run of equal indices |
| Life.SurroundPattern | samples/life/include/LifeImplementation.h:239-248 | the two nested loops leave `surround` with bit j set exactly when the j-th position of the walk is below `maxIndex_` and alive |
| Life.LiveRow | samples/life/include/LifeImplementation.h:243-247 | the inner loop ors in one bit per cell of the row, set when the cell is below `maxIndex_` and alive, and moves the single bit of `bitmask` up once per cell |
| Life.SignalAllSurroundingCellsToEvaluate | samples/life/include/LifeImplementation.h:253-262 | emits one Evaluate, with delay 0, per position of the neighbourhood walk, in order |
| Life.LifeImplementation.constructor | samples/life/include/LifeImplementation.h:78-94 | dimensions default to 100 × 100; `maxIndex_` is `width * height` modulo 2^64; the rule table is filled |
| Life.LifeImplementation.GenerateRulesOfLife | samples/life/include/LifeImplementation.h:216-230 | afterwards, entry p of the rule table is the B3/S23 rule for pattern p: a popcount of 3 without the centre, or 2 with the centre set |
| Life.LifeImplementation.LookUpIsRule | samples/life/include/LifeImplementation.h:216-230 | every rule-table entry is the rule for its pattern |
| Life.LifeImplementation.RuleOfPattern | samples/life/include/LifeImplementation.h:220-227 | the loop body computes the rule for one pattern |
| Life.LifeImplementation.ApplyRulesOfLife | samples/life/include/LifeImplementation.h:237-251 | returns the rule-table entry for the neighbourhood mask, which is the specified next state |
| Life.LifeImplementation.ProcessEvaluation | samples/life/include/LifeImplementation.h:170-187 | the model and emissions are those of the specified evaluation |
| Life.LifeImplementation.ProcessPropagation | samples/life/include/LifeImplementation.h:195-209 | sets `Alive := AliveNextTick` and emits the neighbourhood's Evaluate operations |
| Life.LifeImplementation.ProcessWorkItem | samples/life/include/LifeImplementation.h:140-161 | dispatches on the operation: Evaluate to the evaluation, Propagate to the propagation |
| Life.LifeImplementation.Process | samples/life/include/LifeImplementation.h:116-137 | processes the first item of each run of equal indices in order; an empty range does nothing |
| LifeSupports.StopSignalIsARow | samples/life/include/LifeSupport.h:75-80 | away from the edges, a stop signal is three cells of one row |
| LifeSupports.GliderIsAGlider | samples/life/include/LifeSupport.h:82-89 | away from the edges, a glider is a row of three, the cell under its right end and the cell two rows under its centre |
| LifeSupports.InitialSignalsCount | samples/life/include/LifeSupport.h:99-116 | past the first row, each listed cell gives nine calls: 9·n in all |
| LifeSupports.MarkedAliveCells | samples/life/include/LifeSupport.h:91-97 | every listed cell is alive afterwards and keeps its `AliveNextTick`; every cell not listed is unchanged |
| LifeSupports.LifeSupport.constructor | samples/life/include/LifeSupport.h:39-54 | dimensions default to 100 × 100 or take the configured pair |
| LifeSupports.LifeSupport.AllocateModel | samples/life/include/LifeSupport.h:59-68 | as `CreateModel` |
| LifeSupports.LifeSupport.CreateModel | samples/life/include/LifeSupport.h:136-160 | the supplied size is used when non-zero, else the configured one; with size 0 it returns false, leaves the model alone and marks the carrier invalid; otherwise it resizes with dead cells and returns true |
| LifeSupports.LifeSupport.InitializeModel | samples/life/include/LifeSupport.h:70-73 | as `LoadOptionalDimensions` |
| LifeSupports.LifeSupport.LoadOptionalDimensions | samples/life/include/LifeSupport.h:162-179 | configured dimensions replace the current ones; `maxIndex_` is `width * height` modulo 2^64 |
| LifeSupports.LifeSupport.MakeStopSignal | samples/life/include/LifeSupport.h:75-80 | appends exactly `c-1, c, c+1`, in that order |
| LifeSupports.LifeSupport.MakeGlider | samples/life/include/LifeSupport.h:82-89 | appends exactly `c-1, c, c+1, c+width+1, c+2*width`, in that order |
| LifeSupports.LifeSupport.InitializeCells | samples/life/include/LifeSupport.h:91-97 | sets `Alive` for exactly the listed cells |
| LifeSupports.LifeSupport.SignalInitialCells | samples/life/include/LifeSupport.h:99-116 | emits each listed cell's neighbourhood of Evaluate operations, in list order |
| Particle.PropagateOperation | samples/particle/include/ParticleImplementation.h:225 | a Propagate operation carries the index and the name |
| Particle.LandOperation | samples/particle/include/ParticleImplementation.h:166 | a Land operation carries the index, name, vectors, gradient, mass, speed and type |
| Particle.StoredName | samples/particle/include/ParticleNode.h:9 | the name buffer has 20 characters and always ends with a NUL |
| Particle.CString | samples/particle/include/ParticleImplementation.h:134 | the string read from a buffer is its longest prefix without a NUL |
| Particle.StoredNameRoundTrip | samples/particle/include/ParticleSupport.h:84-85 | reading back a stored name gives its first `min(len, 19)` characters |
| Particle.StepsFollowVector | samples/particle/include/ParticleImplementation.h:292-379 | each step is 0 or the sign of its vector component; the base axis is horizontal iff `abs(h) > abs(v)`, and its step is never 0 |
| Particle.GradientUpdate | samples/particle/include/ParticleImplementation.h:365-376 | with a positive gradient the rise step is non-zero and the gradient becomes `g + rise - base`; otherwise the rise step is 0 and the gradient becomes `g + rise` |
| Particle.GradientStaysInBounds | samples/particle/include/ParticleImplementation.h:365-376 | a gradient in `(-base, rise]` stays there after a step |
| Particle.TravelFollowsLine | samples/particle/include/ParticleImplementation.h:292-379 | after n steps the particle is within one cell of the line of its vector: `r·base` stays within one base length of `n·rise` (the Bresenham error term stays in `(-base, rise]`) |
| Particle.ReflectedStaysInside | samples/particle/include/ParticleImplementation.h:247-273 | on an axis of size at least 2, a step followed by a reflection lands inside and moves at most one cell; it is reflected only when the step left the grid |
| Particle.NewPositionInGrid | samples/particle/include/ParticleImplementation.h:233-278 | from a cell of a grid at least 2 × 2, the next index is inside the grid and next to the old cell; each vector component is negated exactly when its axis was reflected |
| Particle.CellOfGrid | samples/particle/include/ParticleImplementation.h:275 | `row * width + column` is a cell of the grid and reads back as that row and column |
| Particle.OneRowGridLetsParticleOut | samples/particle/include/ParticleImplementation.h:250-259 | on a one-row grid, reflecting a step above the top by negation gives row 1, outside the grid |
| Particle.WorkItemStepKeepsSize | samples/particle/include/ParticleImplementation.h:129-148 | processing an operation keeps the model's size |
| Particle.ProcessAll | samples/particle/include/ParticleImplementation.h:105-115 | processing a list of items keeps the model's size |
| Particle.PropagationMovesParticle | samples/particle/include/ParticleImplementation.h:156-174 | emits one Land at the new position with the new vectors and gradient, then vacates the cell: name zeroed and not occupied; the cell keeps the advanced error term and its vectors, mass, speed and type; no other cell changes |
| Particle.LandingOnFreeCell | samples/particle/include/ParticleImplementation.h:210-225 | a free cell becomes occupied with the stored name and every given field; a Propagate for it is scheduled with delay `10 - Speed` |
| Particle.LandingOnOccupiedCell | samples/particle/include/ParticleImplementation.h:195-207 | the occupant keeps everything except its `Gradient`; one Land is emitted with the incoming particle's fields and its vectors bounced |
| Particle.PropagateThenLand | samples/particle/include/ParticleImplementation.h:156-225 | a propagation followed by its Land on a free cell moves the particle: the old cell is empty, the new one holds the same name, mass, speed and type with the new vectors |
| Particle.ParticleImplementation.constructor | samples/particle/include/ParticleImplementation.h:68-83 | dimensions default to 100 × 100; `maxIndex_` is `width * height` modulo 2^64 |
| Particle.ParticleImplementation.ProcessPropagation | samples/particle/include/ParticleImplementation.h:156-174 | the model and emissions are those of the specified propagation |
| Particle.ParticleImplementation.ProcessLanding | samples/particle/include/ParticleImplementation.h:182-226 | the model and emissions are those of the specified landing |
| Particle.ParticleImplementation.ProcessWorkItem | samples/particle/include/ParticleImplementation.h:129-148 | Propagate and Land are dispatched; other operations change nothing |
| Particle.ParticleImplementation.Process | samples/particle/include/ParticleImplementation.h:105-115 | every item is processed in order |
| ParticleSupports.PlacedReadsBack | samples/particle/include/ParticleSupport.h:79-94 | a placed node is occupied, reads back the truncated name and keeps its gradient |
| ParticleSupports.PlacedParticleIsSignalled | samples/particle/include/ParticleSupport.h:96-104 | there is one signal per recorded index, and a placed particle's signal is a Propagate carrying its name |
| ParticleSupports.ParticleSupport.constructor | samples/particle/include/ParticleSupport.h:50-61 | dimensions default to 100 × 100 or take the configured pair; no cells are recorded |
| ParticleSupports.ParticleSupport.AllocateModel | samples/particle/include/ParticleSupport.h:63-72 | as `CreateModel` |
| ParticleSupports.ParticleSupport.CreateModel | samples/particle/include/ParticleSupport.h:111-135 | the supplied size is used when non-zero, else the configured one; with size 0 it returns false, leaves the model alone and marks the carrier invalid; otherwise it resizes with empty nodes |
| ParticleSupports.ParticleSupport.InitializeModel | samples/particle/include/ParticleSupport.h:74-77 | as `LoadOptionalDimensions` |
| ParticleSupports.ParticleSupport.LoadOptionalDimensions | samples/particle/include/ParticleSupport.h:137-154 | configured dimensions replace the current ones; `maxIndex_` is `width * height` modulo 2^64 |
| ParticleSupports.ParticleSupport.InitializeCell | samples/particle/include/ParticleSupport.h:79-94 | the node at `row * width + column` is placed with the given fields, and the index is appended to the recorded cells, duplicates included |
| ParticleSupports.ParticleSupport.SignalInitialCells | samples/particle/include/ParticleSupport.h:96-104 | emits one Propagate per recorded index, in insertion order, carrying that node's current name |
| Text.NatToString | samples/life/include/LifeRecord.h:43 | a number is written as at least one digit, with no leading zero |
| Text.NatToStringRoundTrip | samples/life/include/LifeRecord.h:43 | reading back a written number gives the number |
| Text.IntToStringHasNoComma | samples/particle/include/ParticleRecord.h:77-78 | a written integer holds no comma, so it is one field |
| Text.SplitJoin | samples/particle/include/ParticleRecord.h:73-83 | splitting a row joined from comma-free fields gives the fields back |
| Records.MakeLifeRecord | samples/life/include/LifeRecord.h:26-31 | stores the type and index as given and copies `Alive` from the node |
| Records.LifeHeaderColumns | samples/life/include/LifeRecord.h:33-38 | the header is the eleven fixed columns `Life-Event-Type` … `left` |
| Records.LifeRowFields | samples/life/include/LifeRecord.h:14-18 | a row reads back as the type code (Evaluation 0, Propagate 1), the index and the state 0/1; then one empty field for an evaluation or `N/A,N/A` otherwise |
| Records.ParticleRecordOfNode | samples/particle/include/ParticleRecord.h:39-49 | stores the truncated name, the type, the index and the node's vectors, mass and speed |
| Records.ParticleRecordOfValues | samples/particle/include/ParticleRecord.h:51-61 | stores the truncated name and the given type, index, vectors, mass and speed |
| Records.ParticleHeaderColumns | samples/particle/include/ParticleRecord.h:63-68 | the header is the seven fixed columns `Particle-Name` … `speed` |
| Records.ParticleRowFields | samples/particle/include/ParticleRecord.h:70-88 | a row reads back as name, type code (Propagate 0, Land 1, Collide 2) and index; then h, v, mass and speed for Propagate or Land, four `N/A` for Collide; seven fields, as many as the header |
| Records.CommaInNameShiftsColumns | samples/particle/include/ParticleRecord.h:73 | a name holding a comma is written as it is, so the row gets eight fields |
| Configuration.Member | include/ModelEngineCommon.h:145 | a missing key, or a value that is not an object, reads as null, as the non-const accessor of the loaders gives it |
| Configuration.StripQuotes | include/ModelEngineCommon.h:149 | the result holds no `"` |
| Configuration.StripQuotesKeepsOthers | include/ModelEngineCommon.h:149 | every character other than `"` is kept as often as it occurs |
| Configuration.StripQuotesAppend | include/ModelEngineCommon.h:149 | stripping distributes over concatenation |
| Configuration.StripQuotesKeepsPlainText | include/ModelEngineCommon.h:149 | a string without quotes is kept as it is |
| Configuration.WithJsonSuffix | include/ModelEngineCommon.h:130-131 | the result ends in `.json` and starts with the argument |
| Configuration.JsonSuffixOnce | include/ModelEngineCommon.h:130-131 | suffixing is idempotent; a name is kept iff it ends in `.json`, and gets `.json` appended iff it does not |
| Configuration.LastIndexOf | include/ModelEngineCommon.h:106-108 | the position holds the character and no later position does; nothing is found only if the character is absent |
| Configuration.FindBefore | include/ModelEngineCommon.h:111-113 | the position is an occurrence below the bound with no later one below it |
| Configuration.ProjectName | include/ModelEngineCommon.h:103-116 | the project name holds no `/` |
| Configuration.ProjectNameOfPath | include/ModelEngineCommon.h:103-116 | the project of `dir/name.json` is `name` |
| Configuration.WithTrailingSlash | include/ModelEngineCommon.h:100-101 | the result ends with `/` and is the argument, or the argument plus `/` |
| Configuration.ExtractRecordDirectory | include/ModelEngineCommon.h:93-125 | the directory ends with `/` and starts with `RecordLocation` (default `./`) with its slash |
| Configuration.RecordDirectoryOfProject | include/ModelEngineCommon.h:93-125 | without a control `Configuration` string the directory is the location; for `dir/name.json` it is the location, `name` and `/` |
| Configuration.ComposeRecordPath | include/ModelEngineCommon.h:81-91 | the path is the record directory followed by `RecordFile` (default `ModelEngineRecord.csv`) |
| Configuration.SettingsLoaded | include/ModelEngineCommon.h:128-151 | the settings name gets `.json`; an existing file is read and its quote-stripped `ConfigFilePath` becomes the path; a non-string value throws; a missing file changes nothing else |
| Configuration.ControlLoaded | include/ModelEngineCommon.h:153-169 | the control file is `path/name`; it is valid iff the file exists, and then its contents are read |
| Configuration.ConfigurationLoaded | include/ModelEngineCommon.h:171-192 | a missing `Configuration` string throws; otherwise the quote-stripped, suffixed name under the path is read and validity requires the file |
| Configuration.MonitorLoaded | include/ModelEngineCommon.h:194-215 | a missing `Monitor` string throws; otherwise the monitor file is read when it exists, and validity never changes |
| Configuration.LoadOutcome | include/ModelEngineCommon.h:62-79 | loading stops at the first failing step: valid iff the control and configuration files both exist; their contents are loaded; a missing control file leaves the configuration untouched |
| Configuration.NoSettingsFileMeansRootDirectory | include/ModelEngineCommon.h:62-79 | without a settings file the control file is looked up as `/name` |
| Configuration.DefaultSettingsFileKept | include/ModelEngineCommon.h:43 | the default settings name already ends in `.json` |
| Configuration.ConfigurationUtilities.constructor | include/ModelEngineCommon.h:39-60 | the loader starts invalid with empty names and `./ModelSettings.json` |
| Configuration.ConfigurationUtilities.InitializeConfiguration | include/ModelEngineCommon.h:62-79 | the state is the specified chain of guarded loads, and the result is its validity |
| Configuration.ConfigurationUtilities.LoadSettings | include/ModelEngineCommon.h:128-151 | the new state is the specified settings step |
| Configuration.ConfigurationUtilities.LoadControl | include/ModelEngineCommon.h:153-169 | the new state is the specified control step |
| Configuration.ConfigurationUtilities.LoadConfiguration | include/ModelEngineCommon.h:171-192 | the new state is the specified configuration step |
| Configuration.ConfigurationUtilities.LoadMonitor | include/ModelEngineCommon.h:194-215 | the new state is the specified monitor step |
| ModelRunners.LastControlIndex | include/sdk/ModelRunner.h:133-138 | the position is a non-option argument and every later argument is an option |
| ModelRunners.OptionsAreSkipped | include/sdk/ModelRunner.h:133-138 | a trailing option does not change the parse |
| ModelRunners.ToInt32 | include/sdk/ModelRunner.h:253-256 | the conversion to `int` is in range and congruent modulo 2^32 |
| ModelRunners.ToInt32Keeps | include/sdk/ModelRunner.h:253-256 | a value already in range is kept |
| ModelRunners.EnginePeriod | include/sdk/ModelRunner.h:253-256 | the period is a 32-bit integer |
| ModelRunners.EnginePeriodChoice | include/sdk/ModelRunner.h:253-256 | the period is 1000 unless `ModelTicks` is an integer, and then it is that integer |
| ModelRunners.RunnerRecordPath | include/sdk/ModelRunner.h:272-280 | there is a path iff both `RecordLocation` and `RecordFile` are strings, and it holds no `"` |
| ModelRunners.RunnerRecordPathParts | include/sdk/ModelRunner.h:272-280 | the path is the quote-stripped location followed by the quote-stripped file name, with no slash added |
| ModelRunners.RunResult | include/sdk/ModelRunner.h:90-96 | an invalid runner does not start; a started one has a 32-bit period and a quote-free record path |
| ModelRunners.ModelRunner.constructor | include/sdk/ModelRunner.h:68-84 | parses the arguments, loads settings, then runs the control, configuration and monitor loads only while valid |
| ModelRunners.ModelRunner.ParseArgs | include/sdk/ModelRunner.h:118-152 | the state is the specified parse: invalid with fewer than 2 arguments, or when the last non-option argument after `argv[0]` is missing or empty; otherwise that argument, suffixed with `.json`, and valid |
| ModelRunners.ModelRunner.LoadSettings | include/sdk/ModelRunner.h:154-177 | the new state is the specified settings step |
| ModelRunners.ModelRunner.LoadControl | include/sdk/ModelRunner.h:179-195 | the new state is the specified control step |
| ModelRunners.ModelRunner.LoadConfiguration | include/sdk/ModelRunner.h:197-218 | the new state is the specified configuration step |
| ModelRunners.ModelRunner.LoadMonitor | include/sdk/ModelRunner.h:220-241 | the new state is the specified monitor step |
| ModelRunners.ModelRunner.Run | include/sdk/ModelRunner.h:90-96 | the outcome is the specified run result |
| ModelRunners.ModelRunner.ComposeRecordPath | include/sdk/ModelRunner.h:272-280 | returns the specified record path |
| Basics.ResolvedSizeCases | samples/particle/include/ParticleSupport.h:111-135 | the size is non-zero iff a size is supplied or a non-zero configured `unsigned int` is; a supplied size wins; a configured one is used as it is when it fits 32 bits |
| Basics.IncrementedWraps | include/ModelEngineThread.h:141 | n increments of `Iterations` add n modulo 2^64 |

## Left out

- Threads and their hand-shakes are not modelled: `Worker`, `WorkerThread`, the condition-variable waits and signals, and `ModelEngine::Run/Quit`. Each tick is one sequential step. The waiter's quit flag is an input.
- Clocks are inputs: the construction time of the waiter, the elapsed partition time of each tick and `hardware_concurrency()`. `PartitionTime` and `TotalWork` are unbounded naturals.
- `ConcurrentPartitionStep` and `SingleThreadPartitionStep` belong to a later revision of the partitioners than the one modelled. `MainLoop` takes the work count each step reports as an input.
- The later double-buffer layout (`WorkForTick1`, `WorkForFutureTicks1/2`) is not modelled. Each context has one pending list, as `ProcessCallback.h` and both partitioners use it.
- Logging (`Log.h`), the `Recorder` and every `cout` are not modelled. They only produce diagnostics and files.
- Plugin loading is not modelled: `ModelInitializerProxy`, the initializer interfaces, and the engine creation in `RunModelEngine`. Of `RunModelEngine` only the period choice is modelled.
- JSON parsing, `stat`, `ifstream` and `create_directories` are not modelled. A file system is a map from existing paths to parsed documents, and configured values arrive as parsed values or optional parameters.
- Configuration.Member: indexing a JSON value that is neither an object nor null throws in the library. The model reads it as null; the loaders then take their missing-value branch. The const accessor is not modelled apart: on a null value it throws, and on a missing key its behaviour is undefined.
- Configuration.ExtractRecordDirectory and Configuration.ComposeRecordPath use Member for `configuration_["PostProcessing"][...]` and `control_["Configuration"]`. The source methods are `const`, so they use the library's const accessor. There, a null document throws and a missing key is undefined behaviour. The source reaches the `./` default of `RecordLocation` and the `ModelEngineRecord.csv` default of `RecordFile` only when the member is present with a non-string value. The model also gives these defaults for a missing key or a null document.
- Configuration.ExtractRecordDirectory: an empty `RecordLocation` string makes the source read before the start of the string. The model requires a non-empty location.
- std::sort and std::partition are modelled by an insertion sort and a partition that swaps from both ends. The contracts state only sortedness, the cutoff split and the permutation, as the standard promises. Parallel execution and stability are not modelled.
- Life.InteriorCellFollowsConway: states Conway's rule only for cells past the first row. The first row and the start of the second follow the wrapped walk, which FirstRowNeighbourhood and SecondRowStartNeighbourhood state. The rule counts index neighbours. The walk does not check columns, so in the first and last columns three of them are cells of the opposite edge, one row off; FirstColumnCountsLastColumn and LastColumnCountsFirstColumn state which.
- Life.LifeImplementation.ProcessEvaluation, ProcessPropagation and the particle `Process*` methods require the cell index to be inside the model. The source indexes the vector unchecked, which is undefined behaviour; Life.LastRowSignalsPastGrid shows that last-row signals reach such indices.
- Life.Walkable: the neighbourhood walk requires `width > 0` (with width 0 the source loops forever) and `cell + 2*width + 2 < 2^64`, so that the last row start `cell + 2*width` and the inner bound `cell + width + 2` do not wrap.
- Life.LifeImplementation.ApplyRulesOfLife requires `MaxIndex <= |Carrier.Model|`. The source guards each read only by `step < maxIndex_`; when `width * height` exceeds the size of the model, the read past the vector is undefined behaviour.
- Life.LifeImplementation.ProcessEvaluation requires `MaxIndex <= |Carrier.Model|`, for the same read.
- Life.LifeImplementation.ProcessWorkItem requires `MaxIndex <= |Carrier.Model|`, for the same read.
- Life.LifeImplementation.Process requires `MaxIndex <= |Carrier.Model|`, for the same read.
- LifeSupports.LifeSupport.InitializeCells requires every listed index to be inside the model. The source writes `Model[cellIndex]` unchecked, so an index outside it is undefined behaviour. Such indices do arise: a stop signal centred on cell 0 lists `0 - 1`, which wraps to 2^64 - 1.
- EngineContexts.EngineContext.CreateWorkers, EngineContexts.MakeWorkers and EngineThreads.ModelEngineThread.Initialize require `WorkerCount != 0`. With 0, the source divides by zero, which is undefined behaviour; a hardware concurrency of 1 leads there. They also take `WorkerCount` to be a 32-bit `int`, as declared, and do not wrap the external id `WorkerCount + 1` at the `int` maximum. A negative count, which an unknown hardware concurrency produces as -1, is modelled.
- AdaptivePartitioning.AdaptiveWidthPartitioner.Partition, CountAndHandOut and CaptureWorkForEachThread require the `WorkerCount` converted to `unsigned long` to be non-zero. With 0, the source divides by zero. A negative count is modelled through that conversion.
- ParticleSupports.ParticleSupport.InitializeCell and SignalInitialCells require every index to be inside the model. The source writes `Model[row * width_ + column]` in InitializeCell and reads `Model[index]` in SignalInitialCells without a check, so an index outside the model is undefined behaviour. `row * width_ + column` falls outside whenever the row or column exceeds the configured dimensions.
- Data races between workers reading neighbour cells are not modelled. Each worker runs alone.
- `LifeNode.h` and `LifeCommon.h` are not part of this model's sources. `LifeNode` is taken to be the two flags `Alive` and `AliveNextTick`, and the operation kinds to be Evaluate and Propagate, as the implementation uses them.
- The repository's `ParticleOperation.h` predates names and gradients. The operation is modelled with the fields `ParticleImplementation.h` passes to it.
- Particle.NewPositionInGrid: the bounds are stated for grids of at least 2 × 2. Particle.OneRowGridLetsParticleOut shows a one-row grid where the reflection leaves the grid.
- AdaptivePartitioning.AdaptiveWidthPartitioner.FindSegmentEnd: the source takes the segment size as an `int`, which truncates it when a tick has more than 2^31 - 1 due items per worker. The model passes the size unchanged.
- The 32-bit `int` overflow of particle vectors, gradients, speeds and the `(int)` cast of the dimensions is not modelled. They are unbounded integers; Particle.CellOfGrid states the range where the cast is exact.
- Records.ParticleRowFields: stated for names without a comma. Records.CommaInNameShiftsColumns shows what a comma does.
- Records.LifeRowFields: the row has four or five fields while the header has eleven. This is stated as the source writes it.
- The empty `Initialize`, `Finalize` and `StreamNewInputWork` hooks of the samples are not modelled. They do nothing.
- The terminal front ends and key handling of the samples are not modelled.
