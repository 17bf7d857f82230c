# A verified model of Velox's stateful kernels

Velox is an execution engine for data processing. This project models the parts of it that carry state, arithmetic
or a recursive transformation, and proves what they are for:

- **Aggregates as window functions** (`AggregateWindow`). One output block is evaluated by a fresh incremental pass,
  by a pass resumed from the previous block, or row by row. Over any sequence of partitions, arriving rows and
  blocks, every selected row gets the fold of exactly its frame. When frames start at the first row and their ends
  never go back, rows can be dropped after every block, in blocks of any size: every row is read once and no dropped
  row is needed again. ROWS and RANGE frames up to the current row are such.
- **The queue between drivers and a cursor** (`TaskQueues`, `TaskQueueProtocol`, `TaskQueueProgress`). Every
  interleaving of producers, consumer and `close`: exactly-once FIFO delivery, each promise fulfilled at most once, a
  bound on the queued bytes, and freedom from deadlock exactly when the number of producers is set before the first
  `dequeue`, and either `maxBytes >= 2` or there are no producers. Every run is finite, and one that cannot go on has
  ended with everything delivered.
- **Rewriting of expressions** (`TypedExpressions`, `RewriteInputs`). A substitution lemma against an evaluator with
  lambdas, and the exact condition under which `rewriteInputNames` preserves meaning.
- **Companion signatures** (`CompanionSignatures`, `SignatureNormalization`, `CompanionSelection`, `SuffixStrings`).
  The resolvability test is sound and complete, normal forms and renamings are related exactly, one merge function is
  kept per normal form, and suffixes can be decoded.
- **Serialisation of expressions and plans** (`ExpressionSerde`, `PlanNodes`, `PlanSerde`, `PlanRoundTrip`). Which
  trees, joins included, come back from `create(serialize(..))`, with names that are only kept in an output type.
- **Reference-counted buffers** (`Buffers`, `BufferMemory`, `BitSlices`, `StringArena`). Counts, views and the pool's
  books over all runs, `reallocate` as a list resize on every path, bit slices, stable string views.
- **Smaller kernels** (`UniqueIds`, `GroupCompaction`, `NullCounts`).

`Options` holds the one shared datatype. Code that updates fields or arrays is a class or a method with a loop, and its
`ensures` ties the new state to a function of the old one. Pure code is functions and lemmas.

## Findings

Where a property one would expect does not hold of the code, the code is kept, a lemma gives an input, and another
says when the property does hold.

- With `maxBytes < 2` an oversized batch is never acknowledged, because `totalBytes_ < maxBytes_ / 2` cannot hold;
  a consumer that blocks before `setNumProducers` is not woken by it (`StuckOnTinyLimit`, `StuckOnLateStart`,
  `DeadlockFreeIff`).
- `rewriteInputNames` checks that no parameter of a lambda is mapped, but not that none is captured, and renames a
  column of the whole row to the last name of a nested field access (`Capture`, `WholeRowToSubfield`,
  `PreservesMeaningIff`).
- A concrete type called `T0` normalises like a variable, and a merge function can be lost to it
  (`GeneratedNameCollides`, `GeneratedNameLosesAMerge`). Equal normal forms are a renaming exactly when no place holds
  a variable on one side and a concrete type on the other (`NormalFormsIff`, `OneMergePerClass`).
- The pair of types of a signature is normalised separately, so functions that differ only in which variable they
  return count as duplicates (`DifferentFunctionsShareAKey`, `TypesKeyIff`, `JointKeyIff`).
- Suffixes leave out the precision of `DECIMAL` (`DecimalsCollide`). They are ambiguous for every name that is printed
  as it is and used both with and without parameters (`MixedUseCollides`), for types called `array` or `map`
  (`KeywordsCollide`), for names that read like the end of another (`EndNamesCollide`, `EndNodesCollide`) and for names
  with underscores (`UnderscoresCollide`). Without these they can be decoded (`SuffixDecodes`,
  `ExtractNamesCollideIff`).
- `create` does not pass its context on for a filter, for the filter of a join, for the call and the mask of an
  aggregate, or for a window function and its frame, so constants held in vectors do not come back there even when
  there is a pool (`FilterDropsTheContext`, `JoinFilterDropsTheContext`, `PlanRoundTrip`).
- `AssignUniqueId` refuses the very last row number to tasks with an odd id, and only to them. When there are too few
  numbers left, an odd task gets the error and an even one goes on without numbers (`CheckFailsIff`, `ColumnOutcome`,
  `ExhaustedPool`).
- `appendTo` writes in place whenever there is room, whoever else holds the buffer (`AppendReachesOthers`). Other
  variables see nothing of it exactly when there is no room, nothing to append, or no other variable that shares the
  buffer or a view over a cell that changes (`AppendTo`).

## Model

| member | source | states |
|---|---|---|
| AggregateWindow.WindowPartition.AddRows | velox/exec/WindowPartition.cpp:54-58 | rows are appended to the partition; those dropped before stay dropped |
| AggregateWindow.WindowPartition.RemoveProcessedRows | velox/exec/WindowPartition.cpp:60-81 | the first rows are dropped, and positions still count from the start of the partition |
| AggregateWindow.WindowPartition.ExtractRows | velox/exec/WindowPartition.cpp:104-120 | a range of partition rows is read exactly when none of it has been dropped |
| AggregateWindow.AnalyzeFrameValues | velox/exec/AggregateWindow.cpp:214-255 | first and last row are the minimum start and maximum end over the selected rows, `incremental` is equivalent to a fixed start with ends that never shrink, and the previous block is resumed exactly when its rows are a prefix of the first frame |
| AggregateWindow.AggregateWindowFunction.ResetPartition | velox/exec/AggregateWindow.cpp:115-119 | a new partition forgets the previous block and starts from a valid state |
| AggregateWindow.AggregateWindowFunction.FillArgVectors | velox/exec/AggregateWindow.cpp:257-269 | the argument vectors are exactly the partition rows asked for, and reading fails exactly when one has been dropped |
| AggregateWindow.AggregateWindowFunction.ComputeAggregate | velox/exec/AggregateWindow.cpp:271-284 | the group row goes from the fold of a prefix to the fold of the longer prefix, and the extracted value is that of the group row |
| AggregateWindow.AggregateWindowFunction.SetEmptyFramesResult | velox/exec/WindowFunction.cpp:112-134 | exactly the rows that are not selected get the value of an empty aggregation |
| AggregateWindow.AggregateWindowFunction.IncrementalAggregation | velox/exec/AggregateWindow.cpp:286-313 | with expanding frames, adding only the new rows gives every row the value of its whole frame, and leaves the group row at the last one |
| AggregateWindow.AggregateWindowFunction.SimpleAggregation | velox/exec/AggregateWindow.cpp:315-346 | with arbitrary frames every row gets the value of its whole frame |
| AggregateWindow.AggregateWindowFunction.ApplyIncremental | velox/exec/AggregateWindow.cpp:141-165 | the incremental paths, fresh or resumed, give the values of the block, read no row again that the previous block read, and keep the group row reusable |
| AggregateWindow.AggregateWindowFunction.ApplySimple | velox/exec/AggregateWindow.cpp:166-177 | the per-row path gives the values of the block |
| AggregateWindow.AggregateWindowFunction.Apply | velox/exec/AggregateWindow.cpp:121-178 | whichever path is taken, the output of the block is the fold of each frame from scratch, and nothing outside the block is written |
| AggregateWindow.Run | velox/exec/AggregateWindow.cpp:115-359 | over any run of partitions, arriving rows and blocks, all outputs are those of folding every frame from scratch |
| AggregateWindow.StreamResumes | velox/exec/AggregateWindow.cpp:214-255 | with frames from the first row and ends that do not go back, every block resumes from the one before and reads only rows past the last one read |
| AggregateWindow.ProcessRows | velox/exec/Window.cpp:595-626 | any number of the rows at hand is evaluated and dropped; the outputs are the values of their frames, though earlier rows are gone |
| AggregateWindow.StreamRows | velox/exec/Window.cpp:628-678 | over any arrivals and any blocks, streaming outputs the value of every frame over the whole partition and reads each row once, in order |
| AggregateWindow.PeerEnd | velox/exec/WindowPartition.cpp:193-207 | the last of the rows from a given one on that all have its key |
| AggregateWindow.RowFramesStream | velox/exec/Window.cpp:433-439 | ROWS frames up to the current row can be streamed in any blocks |
| AggregateWindow.RangeFramesStream | velox/exec/Window.cpp:429-432 | so can RANGE frames up to the last peer: the ends among the rows at hand never go back |
| AggregateWindow.PeerEndKept | velox/exec/RowsStreamingWindowBuild.cpp:91-100 | rows handed over where the sort key changes do not move the last peer of any earlier row |
| AggregateWindow.PeersAreRange | velox/exec/RowsStreamingWindowBuild.cpp:91-100 | the frames computed from the rows at hand are the RANGE frames of the complete partition |
| AggregateWindow.StreamRange | velox/exec/RowsStreamingWindowBuild.cpp:75-109 | handing over whole peer groups, and taking and dropping rows in any blocks, streaming outputs the values of the RANGE frames of the complete partition |
| TaskQueues.TaskQueue.SetNumProducers | velox/exec/Cursor.h:99-101 | only the number of producers changes; nobody is woken |
| TaskQueues.TaskQueue.EnqueueNull | velox/exec/Cursor.cpp:46-54 | the end of a producer is the critical section `EnqueueEnd` |
| TaskQueues.TaskQueue.Enqueue | velox/exec/Cursor.cpp:56-77 | a batch is the critical section `EnqueueBatch`: refused when closed, queued, the consumer woken, and a future handed out over the limit |
| TaskQueues.TaskQueue.DequeueLocked | velox/exec/Cursor.cpp:84-106 | the locked part of `dequeue` is the critical section `DequeueSection` |
| TaskQueues.TaskQueue.Close | velox/exec/Cursor.cpp:118-132 | closing fulfils every producer promise and wakes the consumer |
| TaskQueues.CallbackSink.AddInput | velox/exec/CallbackSink.h:32-35 | the sink keeps the future it was given and waits exactly when the queue said so |
| TaskQueues.CallbackSink.IsBlocked | velox/exec/CallbackSink.h:50-57 | the future is handed to the driver once |
| TaskQueues.CallbackSink.Close | velox/exec/CallbackSink.h:64-69 | the sink signals its end and gives up its callback |
| TaskQueues.CloseRepeatedly | velox/exec/CallbackSink.h:45-69 | however often it is closed, a sink signals its end once |
| TaskQueueProtocol.RunInv | velox/exec/Cursor.cpp:43-132 | every action keeps history, promises, producers, consumer, backing and futures consistent, so every reachable state does |
| TaskQueueProtocol.Delivery | velox/exec/Cursor.cpp:59-116 | in every run accepted batches are those returned, in flight and queued, in order; the byte count is exact; and a null from an open queue means all was returned and every producer ended once |
| TaskQueueProtocol.PromisesOnce | velox/exec/Cursor.cpp:66-132 | no promise is fulfilled twice, and with a limit of at least 2 a producer promise left in the queue means a non-empty queue |
| TaskQueueProtocol.CloseReleasesAll | velox/exec/Cursor.cpp:118-132 | after `close` and the promises in flight, nobody waits for an unfulfilled future |
| TaskQueueProtocol.NeverStuck | velox/exec/Cursor.cpp:43-132 | with `start` before `dequeue`, and `maxBytes >= 2` or no producers, no reachable state has the consumer and every unfinished producer waiting |
| TaskQueueProtocol.StuckOnTinyLimit | velox/exec/Cursor.cpp:94-96 | below 2 bytes some run with a producer deadlocks |
| TaskQueueProtocol.StuckOnLateStart | velox/exec/Cursor.cpp:97-105 | a consumer that dequeues before the number of producers is set can sleep for ever |
| TaskQueueProtocol.DeadlockFreeIff | velox/exec/Cursor.cpp:43-132 | for every configuration: no run deadlocks exactly when the cursor starts first, and either `maxBytes >= 2` or there are no producers |
| TaskQueueProgress.CanAlwaysComplete | velox/exec/Cursor.cpp:43-132 | where no run deadlocks: from the state after any run of an open queue some continuation, in which no producer moves while told to wait, ends with a null from `dequeue`, all accepted batches returned in order and one end from every producer |
| TaskQueueProgress.StepWork | velox/exec/Cursor.cpp:43-132 | every step changes nothing, uses up some of the work left, or is new input, which adds a bounded amount |
| TaskQueueProgress.RunsAreBounded | velox/exec/Cursor.cpp:43-132 | a run of P producers with N batches has at most `6 + 3 P + 13 N` steps, apart from those that change nothing |
| TaskQueueProgress.MaximalRunsEnd | velox/exec/Cursor.cpp:43-132 | where no run deadlocks: a run that no step but input, `close` and the end of a waiting producer could change is closed, or has returned all accepted batches in order with one end from every producer |
| TaskQueueProtocol.BackPressure | velox/exec/Cursor.cpp:59-96 | with batches of at most B bytes the queue never holds more than `maxBytes + B * P` bytes, in any run of P producers |
| RewriteInputs.RewriteInputsRecursive | velox/core/ITypedExpr.h:98-106 | the loop rewrites all inputs in order or stops at the first failure |
| RewriteInputs.RewriteAllAt | velox/core/ITypedExpr.h:98-106 | rewriting a list is rewriting each element, and a failure is the failure of one |
| RewriteInputs.Coincidence | velox/core/Expressions.h:560-570 | the value of an expression depends on its free columns only |
| RewriteInputs.Substitution | velox/core/Expressions.h:304-332 | a faithful rewriting evaluates like the original with every mapped column bound to its expression's value |
| RewriteInputs.PreservesMeaningIff | velox/core/Expressions.h:304-332 | for expressions and mappings without a bare whole row, a successful rewriting preserves meaning for every interpretation and environment exactly when nothing is captured and whole-row columns are unmapped or renamed |
| RewriteInputs.RewriteFailsIff | velox/core/Expressions.h:560-570 | rewriting fails exactly when a lambda parameter has the name of a mapped column |
| RewriteInputs.Capture | velox/core/Expressions.h:560-570 | a rewriting that succeeds and captures a lambda parameter |
| RewriteInputs.WholeRowToSubfield | velox/core/Expressions.h:319-331 | a rewriting that renames a column of the whole row wrongly |
| RewriteInputs.TypePreserved | velox/core/Expressions.h:219-224 | rewriting with expressions of the columns' types keeps the type of the expression |
| CompanionSignatures.AddUsedVariables | velox/exec/AggregateCompanionSignatures.cpp:27-38 | the recursive collection adds exactly the variables that occur in the type |
| CompanionSignatures.UsedTypeVariables | velox/exec/AggregateCompanionSignatures.cpp:42-50 | the variables of a list of types are those of its members |
| CompanionSignatures.IsResultTypeResolvable | velox/exec/AggregateCompanionSignatures.cpp:52-71 | the test holds exactly when every variable of the result occurs in the intermediate type |
| CompanionSignatures.InstantiateAgree | velox/exec/AggregateCompanionSignatures.cpp:27-38 | two instances of a type are equal exactly when the substitutions agree on the variables it uses |
| CompanionSignatures.ResolvableIffDetermined | velox/exec/AggregateCompanionSignatures.cpp:52-71 | the test is sound and complete: it holds exactly when equal intermediate instances force equal result instances |
| SignatureNormalization.NormalizeTypeImpl | velox/exec/AggregateCompanionSignatures.cpp:260-287 | the renaming is extended in the order variables are met, as in the recursive definition |
| SignatureNormalization.NormalFormsIff | velox/exec/AggregateCompanionSignatures.cpp:260-294 | for all types: the same normal form, with variables in the same places, exactly when a bijective renaming of variables makes them equal |
| SignatureNormalization.PlainNormalFormsIff | velox/exec/AggregateCompanionSignatures.cpp:260-294 | for types without concrete names of the generated form, the normal form alone decides it |
| SignatureNormalization.GeneratedNameCollides | velox/exec/AggregateCompanionSignatures.cpp:270-279 | a concrete type with a generated name breaks this |
| CompanionSelection.MergeFunctionSignature | velox/exec/AggregateCompanionSignatures.cpp:127-143 | there is a merge signature exactly when the result type is determined |
| CompanionSelection.MergeExtractFunctionSignature | velox/exec/AggregateCompanionSignatures.cpp:172-190 | there is a merge-extract signature exactly when the result type is determined |
| CompanionSelection.MergeFunctionSignatures | velox/exec/AggregateCompanionSignatures.h:132-159 | kept are, in order, the first determined signatures of each normal form |
| CompanionSelection.IntermediateKeyIff | velox/exec/AggregateCompanionSignatures.h:132-159 | two intermediate types with the same key are a renaming of each other exactly when their variables are in the same places |
| CompanionSelection.OneMergePerClass | velox/exec/AggregateCompanionSignatures.h:132-159 | for every determined signature exactly one signature of its normal form is kept, and it is determined; it is a renaming of it exactly when the variables are in the same places, so always without generated names |
| CompanionSelection.GeneratedNameLosesAMerge | velox/exec/AggregateCompanionSignatures.h:132-159 | of array(T0) with a concrete T0 and array(K) with a variable K only the first is kept |
| CompanionSelection.MergeExtractFunctionSignatures | velox/exec/AggregateCompanionSignatures.h:93-128 | kept are, in order, the first determined signatures of each pair of normal forms |
| CompanionSelection.TypesKeyIff | velox/exec/AggregateCompanionSignatures.h:104-112 | two signatures count as duplicates, with variables in the same places, exactly when both their types are alike, each under a renaming of its own |
| CompanionSelection.JointKeyIff | velox/exec/AggregateCompanionSignatures.h:104-112 | one normalisation of both types together would find, with variables in the same places, exactly the signatures of the same function |
| CompanionSelection.DifferentFunctionsShareAKey | velox/exec/AggregateCompanionSignatures.h:104-112 | map(K, V) to K and map(K, V) to V count as duplicates and are not the same function |
| SuffixStrings.ToSuffixString | velox/exec/AggregateCompanionSignatures.cpp:73-98 | the printer with its loop gives the suffix |
| SuffixStrings.SuffixIsJoin | velox/exec/AggregateCompanionSignatures.cpp:73-98 | the suffix is the words of the type's shape joined by underscores |
| SuffixStrings.SuffixDecodes | velox/exec/AggregateCompanionSignatures.cpp:73-98 | a parser gets the shape of the type back from its suffix |
| SuffixStrings.ExtractNamesCollideIff | velox/exec/AggregateCompanionSignatures.cpp:230-234 | extract functions share a name exactly when their result types have the same shape |
| SuffixStrings.SuffixDeterminesType | velox/exec/AggregateCompanionSignatures.cpp:230-234 | where the suffix leaves nothing out, functions with the same name have the same result type |
| SuffixStrings.DecimalsCollide | velox/exec/AggregateCompanionSignatures.cpp:75-78 | decimals of any two precisions have the same suffix |
| SuffixStrings.MixedUseCollides | velox/exec/AggregateCompanionSignatures.cpp:90-97 | for every name x printed as it is, x(x, x(x)) and x(x(x, x)) are different types with one suffix |
| SuffixStrings.KeywordsCollide | velox/exec/AggregateCompanionSignatures.cpp:80-86 | types called array and map are taken for the constructors |
| SuffixStrings.EndNamesCollide | velox/exec/AggregateCompanionSignatures.cpp:90-97 | for every n printed as it is, a type called endn is taken for the end of an n |
| SuffixStrings.EndNodesCollide | velox/exec/AggregateCompanionSignatures.cpp:90-97 | so is a type endn with parameters |
| SuffixStrings.UnderscoresCollide | velox/exec/AggregateCompanionSignatures.cpp:90-97 | a name with an underscore is taken for two, without and with parameters |
| ExpressionSerde.RoundTrip | velox/core/Expressions.cpp:39-265 | an expression comes back as it was if there is a pool or no constant is held in a vector, and otherwise not at all |
| ExpressionSerde.CreateAllSerialized | velox/core/Expressions.cpp:27-54 | a list of inputs comes back exactly when every input does |
| PlanNodes.UnnestColumns | velox/core/PlanNode.cpp:1105-1125 | the loop over unnest variables takes one name per array and two per map, and fails on other types and on too few names |
| PlanNodes.UnnestOutputType | velox/core/PlanNode.cpp:1083-1132 | the output is the replicated columns, the unnested ones and the ordinality |
| PlanNodes.WindowOutputType | velox/core/PlanNode.cpp:1646-1663 | the output is the input columns and one column for each function |
| PlanNodes.CheckJoinOutput | velox/core/PlanNode.cpp:1221-1263 | the checks pass exactly when every output column is on one side only, a side that the join type may output, and a semi-project join ends with a boolean column of a new name |
| PlanNodes.JoinTypeNamesInvert | velox/core/PlanNode.cpp:1294-1324 | every join type comes back from its name |
| PlanSerde.EachBack | velox/core/PlanNode.cpp:352-482 | a list comes back exactly when each of its elements does |
| PlanRoundTrip.AggregateBack | velox/core/PlanNode.cpp:411-450 | an aggregate comes back exactly when its call and mask hold no vector and its sorting keys come back |
| PlanRoundTrip.FunctionBack | velox/core/PlanNode.cpp:1837-1886 | a window function comes back exactly when its call and frame bounds hold no vector |
| PlanRoundTrip.UnnestNamesBack | velox/core/PlanNode.cpp:1136-1157 | the names recovered from the output type build the same output type again |
| PlanRoundTrip.NodeBack | velox/core/PlanNode.cpp:352-482 | over a source that has come back, each kind of node comes back exactly when its vectors reach a pool |
| PlanRoundTrip.ValuesBack | velox/core/PlanNode.cpp:711-749 | a values node comes back, with its flag and its repeat count, exactly when it has no vectors or there is a pool |
| PlanRoundTrip.JoinBack | velox/core/PlanNode.cpp:1281-1366 | over two sources that have come back, a hash join comes back exactly when its keys do and its filter holds no vector |
| PlanRoundTrip.PlanRoundTrip | velox/core/PlanNode.cpp:352-2165 | a plan tree built by the constructors, with joins of any plans, comes back as it was exactly when every vector in it reaches a pool, and otherwise not at all |
| PlanRoundTrip.FilterDropsTheContext | velox/core/PlanNode.cpp:2888-2901 | a vector in a filter is lost though there is a pool; the same vector in a projection is not |
| PlanRoundTrip.JoinFilterDropsTheContext | velox/core/PlanNode.cpp:1340-1366 | a join with a constant as its filter comes back, with a pool, exactly when the constant is not a vector |
| Buffers.PreferredSize | velox/common/memory/MemoryPool.cpp:397-413 | the size the pool prefers covers the request and is less than twice it |
| Buffers.DropOwned | velox/buffer/Buffer.h:74-83 | when the last holder of a block goes, no pointer and no view is left to it |
| Buffers.DropView | velox/buffer/Buffer.cpp:22-31 | when the last holder of a view goes, its hold on the parent is released and nothing else changes |
| Buffers.NewView | velox/buffer/Buffer.cpp:32-56 | a slice, also of a slice, holds its parent and sees only cells of a block that stays alive |
| Buffers.ViewShows | velox/buffer/Buffer.cpp:32-56 | a slice shows its part of what the sliced buffer shows |
| Buffers.OthersShow | velox/buffer/Buffer.h:374-438 | when only a buffer with one holder has changed, all other variables show what they did, through views too |
| Buffers.AllReturned | velox/buffer/Buffer.h:535-537 | in a state without variables every block is back in the pool, with the bytes it was obtained with |
| BufferMemory.FillNewMemory | velox/buffer/Buffer.h:499-522 | exactly the new cells get the initial value, element by element |
| BufferMemory.ResizeCells | velox/buffer/Buffer.h:569-587 | objects are constructed or destroyed between the two sizes and nowhere else |
| BufferMemory.ReleaseResources | velox/buffer/Buffer.h:598-607 | destroying `size / sizeof(T)` objects leaves none alive |
| BufferMemory.ReallocatedCells | velox/buffer/Buffer.h:398-434 | all three ways of filling a new block keep the old cells that fit and initialise the others |
| BufferMemory.Memory.Allocate | velox/buffer/Buffer.h:352-368 | a new block, held once, with all elements initialised; other buffers are as they were |
| BufferMemory.Memory.Release | velox/buffer/Buffer.h:74-83 | releasing a variable frees what nothing holds any more, down a chain of views, and changes nothing for other variables |
| BufferMemory.Memory.Share | velox/buffer/Buffer.h:66-68 | one more holder, counted |
| BufferMemory.Memory.Slice | velox/buffer/Buffer.cpp:32-56 | a slice is made exactly when it is in range, and shows that range |
| BufferMemory.Memory.Reallocate | velox/buffer/Buffer.h:374-438 | in place, copied or moved: the buffer is resized like a list, is then held once, and other holders see nothing of it |
| BufferMemory.Memory.SetSize | velox/buffer/Buffer.h:122-128 | the size changes exactly for a buffer that is no view and within its capacity |
| BufferMemory.Memory.AppendTo | velox/buffer/Buffer.h:447-462 | the items follow the old contents, and every other variable shows what it did exactly when there was no room, nothing to append, or no other variable on the buffer or on a view over a cell that changes |
| BufferMemory.SeesIff | velox/buffer/Buffer.h:447-462 | what a buffer or view shows changes exactly when it is the appended buffer or covers a cell that gets a new value |
| BufferMemory.AppendReachesOthers | velox/buffer/Buffer.h:447-462 | after sharing an empty buffer with room and appending to it, the other variable shows the item |
| BufferMemory.Memory.AppendAll | velox/buffer/Buffer.h:440-462 | any sequence of appends to a buffer held once is the concatenation |
| BufferMemory.Memory.Run | velox/buffer/Buffer.h:66-653 | over any run, counts are the numbers of holders, parents outlive views, live objects are exactly those within the size, and the blocks given back, in order, are all different and each whole |
| BufferMemory.Memory.ReleaseAll | velox/buffer/Buffer.h:535-537 | after any run, releasing the variables gives back every block, once, with the bytes it was obtained with |
| BitSlices.LoadBits | velox/common/base/BitUtil.h:819-833 | the low bits of the loaded word are the bits of memory from the offset on |
| BitSlices.StoreBits | velox/common/base/BitUtil.h:841-856 | exactly the bits asked for are written, across a byte boundary too |
| BitSlices.CopyBits | velox/common/base/BitUtil.h:861-888 | word-by-word copying copies exactly the range, at any two offsets |
| BitSlices.Slice | velox/buffer/Buffer.cpp:58-75 | bit i of the slice is bit offset + i of the buffer, for the view and for the shifted copy, and a view is made exactly when in range |
| BitSlices.SliceOfSlice | velox/buffer/Buffer.cpp:58-75 | a slice of a slice agrees bit for bit with the slice at the summed offset |
| StringArena.StringViewBufferHolder.Reserve | velox/buffer/StringViewBufferHolder.cpp:26-32 | the last buffer has room afterwards, and earlier buffers and views are kept |
| StringArena.StringViewBufferHolder.OwnCharacters | velox/buffer/StringViewBufferHolder.cpp:23-38 | the view shows the characters, and all earlier views keep theirs without overlap |
| StringArena.StringViewBufferHolder.OwnView | velox/buffer/StringViewBufferHolder.cpp:40-45 | a view of the same text that the arena or the view itself owns |
| StringArena.StringViewBufferHolder.MoveBuffers | velox/buffer/StringViewBufferHolder.h:62-66 | the buffers are handed over and views of them stay as they are |
| StringArena.Run | velox/buffer/StringViewBufferHolder.cpp:23-45 | over any calls with characters, with views of other memory and with views of the arena itself, every view still shows its text, views never overlap, and no buffer's size exceeds its capacity |
| UniqueIds.AndShifted | velox/exec/AssignUniqueId.cpp:98-103 | a conjunction with a shifted number is decided by the bits above the shift |
| UniqueIds.CheckFailsIff | velox/exec/AssignUniqueId.cpp:98-103 | the check fails exactly when the last row number below 2^40 is taken and the task id is odd |
| UniqueIds.FirstId | velox/exec/AssignUniqueId.cpp:104-105 | the task's bits and the row number add up without a carry |
| UniqueIds.AssignUniqueId.RequestRowIds | velox/exec/AssignUniqueId.cpp:112-116 | a block of row numbers is taken from the pool, cut off at 2^40 |
| UniqueIds.AssignUniqueId.GenerateIdColumn | velox/exec/AssignUniqueId.cpp:76-110 | the loop gives out the ids of the rounds one after the other, and fails or goes astray where they do |
| UniqueIds.ColumnOutcome | velox/exec/AssignUniqueId.cpp:76-116 | a column of the asked size comes out exactly when enough numbers are left and an odd task is not to have the last one; otherwise an odd task fails and an even one goes astray |
| UniqueIds.ExhaustedPool | velox/exec/AssignUniqueId.cpp:94-116 | with the pool at 2^40, an odd task fails and an even one goes astray |
| UniqueIds.RunKeeps | velox/exec/AssignUniqueId.cpp:76-116 | in every interleaving no two operators hold the same row number, nor one given out before |
| UniqueIds.AllDistinct | velox/exec/AssignUniqueId.cpp:36-116 | in every interleaving of any tasks and operators all ids are different, below 2^64 and carry their task's id |
| GroupCompaction.CompactGroups | velox/exec/AggregateCompanionAdapter.cpp:197-213 | in-place compaction keeps every selected pointer, in order, at the index recorded for its row, and counts them |
| GroupCompaction.IndicesInjective | velox/exec/AggregateCompanionAdapter.cpp:197-213 | different selected rows have different indices |
| GroupCompaction.AddIntermediateResults | velox/exec/AggregateCompanionAdapter.cpp:229-234 | each selected row's state is merged into its own group |
| GroupCompaction.Apply | velox/exec/AggregateCompanionAdapter.cpp:215-247 | each selected row gets the final value of its own intermediate state, through compaction and dictionary |
| NullCounts.Aggregate.IsNull | velox/exec/Aggregate.h:359-361 | the short cut through the counter agrees with the flag |
| NullCounts.Aggregate.SetAllNulls | velox/exec/Aggregate.h:367-374 | new groups are null, and the counter stays the number of null groups |
| NullCounts.Aggregate.SetNull | velox/exec/Aggregate.h:376-383 | the flag is set, other flags are kept, and the counter stays exact |
| NullCounts.Aggregate.ClearNull | velox/exec/Aggregate.h:385-395 | the flag is cleared, whether or not the counter was looked at first, and the counter stays exact |
| NullCounts.CombinedMeans | velox/exec/AggregationHook.h:126-143 | values combined one by one are their sum, wrapped sum, minimum or maximum |
| NullCounts.AggregationHook.AddValue | velox/exec/AggregationHook.h:126-248 | one value is combined into its group, and a checked sum fails exactly when it overflows |
| NullCounts.AggregationHook.AddValues | velox/exec/AggregationHook.h:51-248 | after any values each accumulator is the sum, minimum or maximum of those routed to its group, null exactly when there were none, up to the first overflow of a checked sum |

## Left out

- AggregateWindow: batches added to a group count as a fold over their rows, so floating-point rounding that depends on the batch is not modelled; aggregates whose arguments are all constants read no rows, and then a dropped row is not noticed; out-of-line accumulator storage and its release are not modelled.
- Window frames: bounds other than the current row and its last peer, and the spilling and sorting of partitions.
- TaskQueueProtocol: one consumer; `hasNext` and the outcome of the task itself are not modelled.
- RewriteInputs: functions are interpreted by arbitrary total functions of their arguments; lambdas are values compared by what they map to.
- Constraints on signature variables, and integer variables with their arithmetic.
- SuffixStrings.ToSuffixString: a map with fewer than two parameters, which the source reads out of bounds, is excluded.
- JSON text, Base64, and the encodings of types, variants and vectors: they are atoms that decode to what was encoded.
- Plan nodes other than the ten of `PlanNodes.Plan`: other joins, order by, limit, top-n, exchanges, table scans and writes.
- PlanNodes.CheckJoinOutput: a semi-project join without output columns is an error here and an out-of-bounds read in the source. The kind of a scalar key type is its name, so that DATE and INTEGER keys, which the source lets through, do not match.
- PlanNodes.UnnestColumns: too few names is an error here and an out-of-bounds read in the source.
- Sizes that overflow 64 bits, which the source refuses, and allocations that the pool refuses.
- BufferMemory.Memory.Reallocate: on views, and with an old size that is no multiple of the element size, which the source only checks in debug builds.
- BufferMemory.Memory.FreeToPool: `MemoryPool::reallocate` is modelled as its allocation, copy and release; pool alignment, arbitration and reservations are not.
- BitSlices.Slice: a shifted copy beyond the end of the buffer, which the source does not check.
- End guards and the fill patterns of debug builds.
- UniqueIds: when an even task finds no number left, the source fills nothing and asks again, and its count then becomes negative; the outcome here is `Astray`. Nor is a shared counter more than 2^31 past 2^40 modelled, where the 32-bit row index of the source wraps around.
- NullCounts.AggregationHook.AddValues: accumulators are 64-bit integers; other integer widths, floating-point values and their NaN order are not modelled.
- Destroying groups, whose null flags are not counted down again.
