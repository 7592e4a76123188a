# Android Neural Networks runtime: verified model

A Dafny model of the parts of the runtime whose correctness rests on one another, with proofs. An
operation is an uninterpreted, deterministic function of the types and values of its inputs; everything
is proved for every such function.

## What is modelled

- **Graph and run order** (`Models`, `Sizes`, `Validation`, `RunOrder`, `ModelBuilding`, `ConstantPools`, `Cycles`,
  `Sorting`): building a model, how many bytes a value has in 32-bit arithmetic, where constants are kept,
  whole-model validation, the worklist sort, which operations it drops, and why the order of a
  single-assignment graph does not matter.
- **Partitioner and compound plan** (`SubModels`, `Stepping`, `Partitioning`, `Boundary`, `Exporting`, `Finishing`,
  `PlanFinishing`, `Crossings`, `DeviceChoice`): ready queues per device, the steps and their submodels, what
  crosses a partition boundary, and finished submodels as well-formed models.
- **Execution of a plan** (`Layout`, `Controlling`, `Execution`, `Routing`, `Preservation`): the pool of temporaries in
  32-bit arithmetic, step executors and their argument locations, and the main theorem: running the steps
  leaves in every output buffer what the whole model computes.
- **Driver** (`OutputShapes`, `Jobs`, `Runs`, `Driver`, `Feasibility`): callbacks, output shapes, the step loop with
  retries on the CPU. Drivers and the CPU are an arbitrary function from attempts to outcomes, which may overwrite
  its own outputs when it fails. `Runs` describes a whole run as its rounds of attempts and how it ends; the driver
  makes exactly such runs. A promise about outcomes (`Promise`) says why a run is bound to succeed.
- **Compilation** (`Compilation`, `Witnesses`): from a model and device ratings to a plan, conditions that a caller
  can check before the run, and concrete plans: one for a run that meets all assumptions, one for a run
  that goes wrong, and one that is refused.
- **Slices for older drivers** (`Growing`, `Slicing`, `Supporting`).
- **Burst protocol** (`BurstPackets`, `BurstSlots`, `BurstServing`, `BurstCoherence`): packet formats, slot allocator,
  server cache, cache coherence and faithful replies in every interleaving, and what a lost call does.
- **CPU executor** (`CpuExecution`, `ConsumerCounting`): reference-counted temporaries, and the values of a run.
- **Index arithmetic** (`IndexedShapes`, `Nhwc`, `ReducedShapes`).

Classes mirror the objects of the runtime; each mutating method is tied to a function on values
(`State() == f(old(State()))`), and the theorems are lemmas about those functions.

## Assumptions

- A model handed to the partitioner is well-formed, its inputs and outputs were identified once, it is in
  run order (so acyclic), constants have the length of their type, and every operation reads something
  (`Splittable`, `AllRead`, `Executable`). The source does not check for cycles; `Cycles` says exactly what the sort
  does then.
- The temporaries that cross a partition boundary need less than 4 GiB (`Total(...) < UINT32_LIMIT`).
  `Layout.SoundIffFits` shows that the layout is sound exactly then; the source wraps silently.
  `Compilation.CompiledIsProvided` replaces this condition, and the one on output buffers below, by conditions on
  the model and the lengths of the buffers.
- Results of fully specified type have the size the runtime computes for that type (`ResultsSized`).
- An output buffer that a later step reads back is exactly as long as its value (`ReadBackExact`).
  `StepReadsRightIff` shows that this is exactly what a step needs, and `SpecifiedIsExact` that it holds for
  outputs of fully specified type. The source does not check it for other outputs, and does not preserve the
  meaning of every model there: `DynamicOutputMisread` is a run whose result is wrong.
- The caller's output buffers do not overlap each other or the inputs.
- A backend that reports success has executed the model it was given, and writes nothing but its outputs
  (`Honest`). For the CPU this is proved, from kernels that compute what operations mean (`ComputeOnCpu`).
- In a burst, memories are valid, a bound key names one memory, the remote `freeMemory` succeeds, and the
  service does not die. The source does not look at the outcome of `freeMemory`: `NextKeyServed` says when a
  lost call makes a later request use the wrong memory, and `StaleMemoryUsed` is such a run.
- `AssumptionsCanBeMet` shows that what is assumed of a run can be met together.

## Model

| member | source | states |
|---|---|---|
| Models.OrderIndependence | nn/runtime/ModelBuilder.cpp:482-532 | any two orders in which the same single-assignment operations can run compute the same values of all operands |
| Models.RunAgrees | nn/runtime/ModelBuilder.cpp:482-532 | any order that can run computes exactly the values of any environment that satisfies every operation |
| Models.RunSatisfies | nn/common/CpuExecutor.cpp:535-565 | running operations once each, with single assignment, yields an environment that satisfies every operation and extends the initial one |
| Sizes.SizeIsByteCount | nn/common/Utils.cpp:276-294 | the wrapping loop computes the element size of a scalar, nothing for a tensor without a rank, and for any other tensor the product of element size and all dimensions, truncated once |
| Sizes.SizeExactIff | nn/common/Utils.cpp:276-294 | that is the exact number of bytes if and only if this number fits into 32 bits |
| Sizes.UnknownSizeIff | nn/common/Utils.cpp:296-302 | a size is unknown if and only if there is no rank or some dimension, at whatever position, is zero; equivalently, if there is no rank or the product is zero |
| Sizes.SizedIff | nn/runtime/ModelBuilder.cpp:121-126 | a constant may be a scalar, or a tensor of positive dimensions, and nothing else |
| Validation.ValidateOperandList | nn/common/Utils.cpp:488-498 | succeeds if and only if every index names an operand |
| Validation.ValidateOperation | nn/common/Utils.cpp:543-570 | succeeds if and only if all indexes name operands and the table of the operation allows their types |
| Validation.ValidateOperands | nn/common/ValidateHal.cpp:139-380 | accepts if and only if the table allows every type, and every constant has the length of its type and, if a tensor, a rank |
| Validation.ValidateOperations | nn/common/ValidateHal.cpp:382-434 | accepts if and only if every operation passes its table and every result is written exactly once, nothing else is |
| Validation.ValidateOutputs | nn/common/ValidateHal.cpp:402-417 | accepts if and only if the outputs are results, distinct, and not written before; then the marks are exact |
| Validation.ValidateModelInputOutputs | nn/common/ValidateHal.cpp:456-480 | sorting and looking for equal neighbours accepts if and only if the list is free of repetitions and has the right lifetime throughout |
| Validation.ValidateModel | nn/common/ValidateHal.cpp:482-502 | accepts if and only if operands and operations pass, results are written once, inputs and outputs are listed properly, and the pools are valid |
| Sequences.SortRevealsRepetition | nn/common/ValidateHal.cpp:470-480 | a list has a repetition if and only if its sorted copy has one |
| RunOrder.OperandTracker.Start | nn/runtime/ExecutionPlan.cpp:226-247 | after construction each count is the number of input positions still unknown; exactly the operations that wait for nothing are reported, once each |
| RunOrder.OperandTracker.MarkProcessed | nn/runtime/ExecutionPlan.cpp:249-262 | counts stay exact and never fall below zero; exactly the operations that become ready are reported, once each |
| RunOrder.UnknownLearn | nn/runtime/ExecutionPlan.cpp:252-260 | learning a result lowers the count of an operation by the number of positions that read it |
| RunOrder.WorkStep | nn/runtime/ModelBuilder.cpp:511-530 | after each round the operations done are in topological order and the pending ones are exactly those that can run next; the worklist makes progress |
| ModelBuilding.ModelBuilder.AddOperand | nn/runtime/ModelBuilder.cpp:58-97 | appends an unread temporary, unless the type is refused or the builder is full (bad data) or closed (bad state) |
| ModelBuilding.ModelBuilder.SetOperandValue | nn/runtime/ModelBuilder.cpp:99-165 | succeeds if and only if the length is that of a fully specified type (`SizeIsByteCount`), or there is no value and no length; the operand becomes a copied constant up to 128 bytes, a referenced one that is also recorded for copying beyond, and optional without a value; else bad data, or bad state when closed, and nothing changes |
| ModelBuilding.ModelBuilder.SetOperandValueFromMemory | nn/runtime/ModelBuilder.cpp:279-318 | succeeds if and only if the type is fully specified, the memory no hardware buffer, the length that of the type, and the 32-bit size check passes; the value is the designated region, and admissible exactly when the region lies within the memory; each failure has its own code |
| ModelBuilding.WrappedRegion | nn/runtime/Memory.cpp:46-53 | the size check agrees with the bounds of the memory unless the end of the region wraps; of regions that pass, exactly those inside designate a value |
| ModelBuilding.ModelBuilder.AddOperation | nn/runtime/ModelBuilder.cpp:320-363 | succeeds if and only if the operation passes its table and there is room; adds the operation and one consumer for each input position; else bad data, or bad state when closed |
| ModelBuilding.ModelBuilder.SetArguments | nn/runtime/ModelBuilder.cpp:382-410 | succeeds if and only if the listed operands are distinct temporaries; then exactly they change lifetime; a failure stops at the first that is not, and has changed exactly those before it |
| ModelBuilding.ModelBuilder.IdentifyInputsAndOutputs | nn/runtime/ModelBuilder.cpp:365-417 | succeeds if and only if both lists together name distinct temporaries; a failure on an index out of range changes nothing, a later one leaves exactly what was done up to the first operand that cannot be listed |
| ModelBuilding.ModelBuilder.Finish | nn/runtime/ModelBuilder.cpp:441-480 | succeeds if and only if the builder is open, large values could be copied, and the model with the copies is accepted by validation; then its operations are in a run order; it becomes invalid exactly when validation refuses; the code says which of these failed |
| ModelBuilding.ModelBuilder.CopyLargeValuesToSharedMemory | nn/runtime/ModelBuilder.cpp:241-277 | operands get the buffers recorded for them, or nothing changes when the memory cannot be had |
| ModelBuilding.CopyingIsNeutral | nn/runtime/ModelBuilder.cpp:269-274 | copying changes nothing if and only if every operand still has the value that was recorded for it last |
| ModelBuilding.LastLargeValueWins | nn/runtime/ModelBuilder.cpp:269-274 | of several buffers recorded for an operand, the last one becomes its value |
| ModelBuilding.BufferOutlivesMemory | nn/runtime/ModelBuilder.cpp:279-318 | a value set from memory after a large buffer is lost when the model is finished |
| ModelBuilding.ModelBuilder.SortIntoRunOrder | nn/runtime/ModelBuilder.cpp:482-532 | terminates; records an injective map to original indexes, in topological order, of exactly the operations that can ever run; refuses to sort twice |
| ModelBuilding.AddOperandKeepsCounts | nn/runtime/ModelBuilder.cpp:58-97 | adding an operand keeps consumer counts exact |
| ModelBuilding.SetValueKeepsCounts | nn/runtime/ModelBuilder.cpp:99-165 | so does giving an operand a value; constants have the length of their type, and the copied ones at most 128 bytes |
| ModelBuilding.AddOperationKeepsCounts | nn/runtime/ModelBuilder.cpp:356-358 | adding an operation keeps consumer counts exact |
| ConstantPools.SmallOperandValues.Add | nn/runtime/ModelBuilder.cpp:141-149 | the value lies at the returned offset; what was stored before is kept if and only if the pool stays below 4 GiB |
| ConstantPools.StaysInside | nn/runtime/ModelBuilder.cpp:141-149 | the unchecked copy stays inside the resized vector if and only if the pool stays below 4 GiB, or the offset itself wraps to zero |
| ConstantPools.SmallValuesReadBack | nn/runtime/ModelBuilder.cpp:141-149 | every small value is read back from its location, which is aligned for it |
| ConstantPools.LayOutLargeValues | nn/runtime/ModelBuilder.cpp:246-253 | each large value has the offset of the unbounded layout, truncated to 32 bits |
| ConstantPools.CopiesAreSafeIffFits | nn/runtime/ModelBuilder.cpp:243-275 | copies stay inside the memory and apart from each other if and only if all large values with padding need less than 4 GiB |
| ConstantPools.CopyLargeValuesToSharedMemory | nn/runtime/ModelBuilder.cpp:241-277 | then every value is found at its offset, aligned, after all of them were copied |
| Cycles.LeftOutIffDownstreamOfCycle | nn/runtime/ModelBuilder.cpp:511-531 | the sort drops an operation if and only if a path from a cycle leads to it |
| Cycles.CompleteIffAcyclic | nn/common/ValidateHal.cpp:430-432 | the sort keeps all operations if and only if the graph has no cycle |
| Cycles.RunOrderCovers | nn/runtime/ModelBuilder.cpp:482-532 | whatever some topological order runs, every run order of the sort contains |
| Sorting.FinishedModel | nn/runtime/ModelBuilder.cpp:441-480 | a valid acyclic model is still valid after sorting, and listed in run order |
| Sorting.SortPreservesMeaning | nn/runtime/ModelBuilder.cpp:482-532 | the sorted model computes what the original operations compute in any other topological order |
| Sorting.MeaningUnique | nn/common/CpuExecutor.cpp:535-565 | the values of a run are the only ones that extend constants and arguments and satisfy every operation |
| SubModels.BuildStepFacts | nn/runtime/ExecutionPlan.cpp:271-411 | in every step the operand map is a bijection onto the submodel's operands, copies keep type and constant value, operations are the original ones renamed, and the lists by role hold exactly the operands of that lifetime and kind |
| SubModels.PickMember | nn/runtime/ExecutionPlan.cpp:326-366 | an operand is in a list if and only if it was first met in that role |
| Stepping.ExecutionStep.AddOperand | nn/runtime/ExecutionPlan.cpp:271-368 | imports an operand unless it is known, records it by role and as a definition; cannot fail when there is room |
| Stepping.ExecutionStep.AddOperation | nn/runtime/ExecutionPlan.cpp:370-411 | translates and imports operands, and appends the renamed operation; cannot fail for operations added in topological order |
| Stepping.ExecutionStep.RecordTempAsSubModelOutput | nn/runtime/ExecutionPlan.h:82-86 | the exports are what they were and the pair of the operand and its copy; the set stays in ascending order without repetition when no other copy of the operand is in it |
| Stepping.InsertExportAscending | nn/runtime/ExecutionPlan.h:82-86 | the set of exports stays in ascending order without repetition |
| Stepping.ConvertModelInputsOrOutputs | nn/runtime/ExecutionPlan.cpp:471-491 | positions name the same operands in the original list; an operand that is missing there gets position 0 |
| Stepping.ExecutionStep.FinishSubModel | nn/runtime/ExecutionPlan.cpp:493-580 | fixes the input and output orders, reports an exported temporary of unknown size (`UnknownSizeIff`), and leaves a validated submodel in run order; position lists name the original operands |
| Partitioning.FindNextDeviceToProcess | nn/runtime/ExecutionPlan.cpp:1004-1016 | the last device with waiting operations, so the CPU first |
| Partitioning.EnqueueOnAppropriateDevices | nn/runtime/ExecutionPlan.cpp:992-1002 | every pending operation waits exactly once, in the queue of its device |
| Partitioning.FillStep | nn/runtime/ExecutionPlan.cpp:1028-1040 | fills a nonempty step for one device until nothing ready is left for it; terminates |
| Partitioning.DefineAllFacts | nn/runtime/ExecutionPlan.h:230-235 | after a step, exactly the temporaries it wrote have been recorded in addition, with the index of the step; all other records are unchanged |
| Partitioning.Distribute | nn/runtime/ExecutionPlan.cpp:990-1041 | terminates without failing; the steps are a partition in topological order, each nonempty and on one device, neighbours on different devices, no ready operation left behind; definitions are exact |
| Boundary.PartitionStepFresh | nn/runtime/ExecutionPlan.cpp:274-279 | when an operation is added, none of its outputs has been seen by the step |
| Boundary.KindsExact | nn/runtime/ExecutionPlan.cpp:326-366 | a step meets an operand as an output if and only if it writes it |
| Boundary.DefinedEarlier | nn/runtime/ExecutionPlan.cpp:370-411 | a result that a step meets as an input is computed by a strictly earlier step |
| Exporting.RequestDefined | nn/runtime/ExecutionPlan.cpp:422-433 | the asserts never fire: a requested temporary was recorded, by a strictly earlier step that knows it |
| Exporting.ExportedExact | nn/runtime/ExecutionPlan.cpp:422-433 | a step exports exactly the requested temporaries that it defines |
| Exporting.FindTempsAsSubModelOutputs | nn/runtime/ExecutionPlan.cpp:422-433 | every step ends up with exactly these exports and is otherwise unchanged |
| Finishing.InputMember | nn/runtime/ExecutionPlan.cpp:507-518 | an operand is a submodel input if and only if it was met as an input and is not constant |
| Finishing.OutputMember | nn/runtime/ExecutionPlan.cpp:520-541 | an operand is a submodel output if and only if the step writes it and it is a model output or exported |
| Finishing.InterfaceNoDup | nn/runtime/ExecutionPlan.cpp:507-548 | submodel inputs and outputs are all distinct, hence disjoint |
| Finishing.SubModelValid | nn/runtime/ExecutionPlan.cpp:543-552 | every submodel of a partition is a well-formed model |
| Finishing.SubTopological | nn/runtime/ExecutionPlan.cpp:1031-1040 | operations were added to each submodel in an order in which it can run |
| PlanFinishing.FinishPlan | nn/runtime/ExecutionPlan.cpp:591-609 | finishes every step; fails if and only if an exported temporary has a size known only at run time (`UnknownSizeIff`) |
| Crossings.ExportedIffCrosses | nn/runtime/ExecutionPlan.cpp:409-433 | exactly those temporaries are exported that one step computes and an operation of another one reads; so an unknown size is exported if and only if one crosses |
| PlanFinishing.PartitionStepComplete | nn/runtime/ExecutionPlan.cpp:591-609 | every step of a partition meets what finishing its submodel needs |
| DeviceChoice.FindBestDevice | nn/runtime/ExecutionPlan.cpp:1580-1609 | picks the best device that can run the operation, the first one among equals unless the CPU is among them; fails if and only if no device can |
| DeviceChoice.BestIsUnique | nn/runtime/ExecutionPlan.cpp:1580-1609 | these rules single out one device |
| DeviceChoice.FindBestDeviceForEachOperation | nn/runtime/ExecutionPlan.cpp:1565-1617 | chooses the best device for every operation; fails if and only if some operation has none |
| DeviceChoice.PartitionTheWork | nn/runtime/ExecutionPlan.cpp:964-1052 | an operation without a device is bad data; if one device is best for all, the plan is simple; otherwise the operations are partitioned, which fails if and only if a temporary crosses between steps that has no rank or a dimension, whichever it is, of size zero, and gives the finished compound plan if not |
| Layout.AlignBytesIsPadding | nn/common/Utils.cpp:331-342 | the word arithmetic computes the padding of `Padding`, also for a truncated index |
| Layout.PaddingLeast | nn/common/Utils.cpp:331-342 | that padding reaches the required boundary and no smaller one does |
| Layout.SoundIffFits | nn/runtime/ExecutionPlan.cpp:706-724 | a layout in 32-bit arithmetic is aligned, in bounds and free of overlap if and only if the values need less than 4 GiB |
| Layout.AllocatePointerArgumentsToPool | nn/runtime/ExecutionBuilder.cpp:695-720 | the single check of the final total succeeds if and only if the layout with truncated offsets is sound |
| Controlling.LayOutTemporaries | nn/runtime/ExecutionPlan.cpp:706-724 | each crossing temporary has the offset of the 32-bit layout |
| Controlling.Controller.Next | nn/runtime/ExecutionPlan.cpp:760-882 | hands out the executor of the next step with all its arguments routed; ends once, then fails |
| Controlling.Controller.Fallback | nn/runtime/ExecutionPlan.cpp:739-758 | re-creates the executor handed out last and leaves the position unchanged; fails when there is none |
| Controlling.Controller.MakeExecutor | nn/runtime/ExecutionPlan.cpp:810-878 | input positions hold model inputs, temporaries, model outputs, in this order; output positions model outputs, exports |
| Controlling.StepExecutor.MapInputsAndOutputs | nn/runtime/ExecutionPlan.cpp:413-420 | overwrites exactly the leading positions with the caller's arguments |
| Routing.InputHome | nn/runtime/ExecutionPlan.cpp:810-878 | the location used for input i is the home of the original operand that the finished submodel lists at i |
| Routing.OutputHome | nn/runtime/ExecutionPlan.cpp:810-843 | the same for outputs; model outputs go to the caller, exports to the pool |
| Routing.CrossingNoDup | nn/runtime/ExecutionPlan.cpp:708-724 | every temporary that crosses a boundary is exported by one step, once |
| Routing.TemporaryExported | nn/runtime/ExecutionPlan.cpp:422-433 | what a step reads from another step is exported by a strictly earlier one |
| Routing.HomesDisjoint | nn/runtime/ExecutionPlan.cpp:706-724 | different operands live in disjoint places |
| Execution.ReadUnchanged | nn/runtime/ExecutionBuilder.cpp:419-452 | an attempt that writes elsewhere does not change what is read here |
| Execution.RetryAfterScribbling | nn/runtime/ExecutionBuilder.cpp:419-452 | an attempt after a failed one does what it would have done without it, if inputs and outputs are disjoint |
| Preservation.SubExecutable | nn/runtime/ExecutionPlan.cpp:543-552 | sorting a submodel keeps all its operations and leaves a model that can run |
| Preservation.SubOutputs | nn/runtime/ExecutionPlan.cpp:1018-1043 | given the original values at its inputs, a submodel computes the original values at its outputs |
| Preservation.InputRight | nn/runtime/ExecutionPlan.cpp:810-878 | when earlier steps have delivered, a step finds the original value at each input |
| Preservation.StepAdvances | nn/runtime/ExecutionBuilder.cpp:454-537 | a successful step delivers its outputs and keeps everything delivered before |
| Preservation.AttemptKeeps | nn/runtime/ExecutionBuilder.cpp:419-452 | any attempt, also a failed one, keeps what earlier steps delivered |
| Preservation.StepCanBeRetried | nn/runtime/ExecutionPlan.cpp:739-882 | input and output locations of a step are disjoint |
| Preservation.RetryIsUndisturbed | nn/runtime/ExecutionBuilder.cpp:419-452 | in a plan, a retry has the effect of a first attempt, whatever the failed one wrote to its outputs |
| Preservation.PlanDelivers | nn/runtime/ExecutionPlan.cpp:1018-1043 | when all steps have delivered, the caller's buffers hold the outputs of the original model |
| Preservation.PartitionedExecutionPreservesMeaning | nn/runtime/ExecutionPlan.cpp:1018-1043 | running a compound plan step by step leaves in every output buffer what the whole model computes |
| Preservation.SpecifiedIsExact | nn/runtime/ExecutionBuilder.cpp:86-112 | the length check on outputs makes reading back exact for fully specified types |
| Preservation.ReadBackIffExact | nn/runtime/ExecutionPlan.cpp:867-878 | after the earlier steps, what a step finds at an input is the original value if and only if the input is no model output of an earlier step or the buffer of that output has exactly the length of its value |
| Preservation.StepReadsRightIff | nn/runtime/ExecutionPlan.cpp:867-878 | a step finds all of its inputs right if and only if every model output it reads back is in a buffer of exactly its length |
| Witnesses.DynamicOutputMisread | nn/runtime/ExecutionPlan.cpp:867-878 | a run of a valid plan, with buffers that all values fit into, whose last output is wrong because a longer buffer was read back |
| Witnesses.CompileChain | nn/runtime/CompilationBuilder.cpp:43-91 | the compiler does make that plan of two devices |
| Witnesses.RefuseRagged | nn/runtime/ExecutionPlan.cpp:529-538 | a chain on two devices whose temporary is two by an unknown number is refused: failure, or the CPU where that is allowed |
| Feasibility.PlanCanRun | nn/runtime/ExecutionBuilder.cpp:454-537 | every compound plan can be run to its end when the caller's buffers are long enough and exact where they are read back |
| Witnesses.AssumptionsCanBeMet | nn/runtime/ExecutionBuilder.cpp:539-623 | all that is assumed of a run can be met together, by a plan of two steps and a backend that succeeds; success is assured then |
| OutputShapes.StatusRoundTrip | nn/common/Utils.cpp:1745-1794 | no status is lost when it is turned into a result code and back; of the codes, exactly those of no error, bad data, too small an output, an unavailable device and failure survive; and which codes become which status |
| OutputShapes.RefinesTransitive | nn/runtime/ExecutionBuilder.cpp:633-642 | refinement of shapes composes: a specified rank or dimension never changes |
| OutputShapes.RefinesAntisymmetric | nn/runtime/ExecutionBuilder.cpp:633-642 | two shapes of known rank that refine each other are equal |
| OutputShapes.IsUpdatable | nn/runtime/ExecutionBuilder.cpp:633-642 | decides refinement |
| OutputShapes.UpdateStepShapes | nn/runtime/ExecutionBuilder.cpp:669-691 | takes over shapes up to the first one that contradicts what is known or names no output, and reports whether that was the end; the result refines what was known |
| OutputShapes.TakenOverAt | nn/runtime/ExecutionBuilder.cpp:674-682 | the shapes taken over are at the mapped positions, all others are unchanged |
| OutputShapes.RefusedShapesSurvive | nn/runtime/ExecutionBuilder.cpp:674-690 | when a shape is refused, the list is as before if and only if the shapes before it said nothing new |
| OutputShapes.StaleShape | nn/runtime/ExecutionBuilder.cpp:501-536 | a wrong shape taken over from a failed attempt survives, and the true one is refused afterwards |
| OutputShapes.TruthIsTaken | nn/runtime/ExecutionBuilder.cpp:669-691 | shapes that are true are never refused by a list that only claims what is true |
| OutputShapes.ExecutionBuilder.UpdateOutputShapes | nn/runtime/ExecutionBuilder.cpp:644-658 | all or nothing: succeeds if and only if every shape refines the known one |
| OutputShapes.ExecutionBuilder.Finish | nn/runtime/ExecutionBuilder.cpp:660-667 | is called once; reports failure if and only if a shape contradicts what is known |
| OutputShapes.ExecutionCallback.SetOnFinish | nn/runtime/Callbacks.cpp:155-178 | only the first hook counts, and only before notification |
| OutputShapes.ExecutionCallback.Notify | nn/runtime/Callbacks.cpp:77-98 | stores a consistent pair of status and shapes; only the first notification counts |
| OutputShapes.ExecutionCallback.NotifyInternal | nn/runtime/Callbacks.cpp:180-205 | runs the hook exactly if it was armed, and disarms it |
| Driver.World.StartCompute | nn/runtime/ExecutionBuilder.cpp:818-829 | one attempt: the outcome is the backend's, kept in a callback if the launch succeeded; nothing but the outputs is written, a success has executed the model |
| Driver.Conclude | nn/runtime/Callbacks.cpp:180-205 | notifies and finishes once; the callback gets status and shapes, or a general failure if the shapes contradict what is known or do not go with the status; the outputs get all of the shapes or none (`Delivers`) |
| Driver.ComputeWhole | nn/runtime/ExecutionBuilder.cpp:386-408 | one attempt at the whole model on the CPU, with exactly its outcome |
| Driver.CpuFallbackFull | nn/runtime/ExecutionBuilder.cpp:386-408 | one attempt at the whole model on the CPU and one notification, with the status and the shapes of that attempt; success means the outputs are right, and is certain if the CPU is bound to succeed |
| Driver.AttemptStep | nn/runtime/ExecutionBuilder.cpp:487-511 | exactly one attempt at the step, with the device asked for; status and collected shapes are those of its outcome; success completes the step, failure keeps the progress |
| Driver.CpuFallbackPartial | nn/runtime/ExecutionBuilder.cpp:419-452 | retries the step on the CPU unless it ran there; the run goes on if and only if the retry succeeds; else it ends: with the failure of the retry and the collected shapes if a buffer was too small, with the whole model on the CPU otherwise |
| Driver.DriveStep | nn/runtime/ExecutionBuilder.cpp:463-536 | each round makes exactly the attempts of one step and ends the run if and only if the step was not completed; without a step left it ends in success, with the collected shapes in the callback and in the outputs; with a promise it never ends in failure |
| Driver.AfterFailure | nn/runtime/ExecutionBuilder.cpp:490-536 | without fallback, or when a buffer was too small, the run ends with exactly the failure of the attempt; otherwise the CPU takes over |
| Driver.AsyncStartComputePartitioned | nn/runtime/ExecutionBuilder.cpp:454-537 | terminates, notifies and finishes once on every path; the run is exactly one of `RunEnds`: its rounds, final status, shapes, memory and number of attempts; a run without a step left is a success that delivers the collected shapes, and among them what the completing attempt of each step reported; success means the outputs are those of the original model, and is certain if devices succeed, if the CPU makes up for failures, or if the CPU can do the whole model |
| Runs.CompleteRunDelivers | nn/runtime/ExecutionBuilder.cpp:469-484 | a run that has executed all steps is a success, callback and outputs get the collected shapes, and with them, for every step, the shapes reported by the attempt that completed it |
| Runs.FailureIsLast | nn/runtime/ExecutionBuilder.cpp:434-451 | a run fails with the status of its last attempt: with the collected shapes when a step found a buffer too small, with the outcome of the whole model on the CPU where falling back is allowed, with the failure of the step otherwise |
| Runs.ReportsAreKept | nn/runtime/ExecutionBuilder.cpp:501-517 | what the attempt reported that completed a step stays what is known of its outputs to the end of the run |
| Runs.ShapesHaveSources | nn/runtime/ExecutionBuilder.cpp:669-691 | every collected shape is the initial one or was reported for this very output by an attempt at a step that has it |
| Runs.PositionsApart | nn/runtime/ExecutionBuilder.cpp:669-691 | no two steps report the same output |
| Runs.RunRefines | nn/runtime/ExecutionBuilder.cpp:454-537 | over a whole run shapes only become more specific |
| Driver.Compute | nn/runtime/ExecutionBuilder.cpp:539-623 | runs at most once; code, event, output shapes, memory and number of attempts are exactly those of the run that is recorded; success means that the caller's buffers hold what the original model computes; success is certain when it is assured; shapes only refine |
| Jobs.WholeModelDelivers | nn/runtime/ExecutionBuilder.cpp:386-408 | executing the whole model at once gives every output its value |
| Driver.Launch | nn/runtime/ExecutionPlan.cpp:681-735 | lays out the pool, makes the controller and runs the plan with a callback of its own, which ends up with exactly the run's status and shapes; success certain when it is assured |
| Jobs.FailedShapesSurvive | nn/runtime/ExecutionBuilder.cpp:501-536 | shapes of a failed attempt stay behind if and only if it reported success or too small a buffer and some shape was refused after another one had said something new |
| Jobs.DeviceJudged | nn/runtime/ExecutionBuilder.cpp:487-511 | what each promise says about the status and shapes of an attempt on a device |
| Jobs.CpuJudged | nn/runtime/ExecutionBuilder.cpp:419-452 | and of a retry on the CPU |
| Compilation.CompilationBuilder.Finish | nn/runtime/CompilationBuilder.cpp:43-91 | compiles once; an unsupported operation is bad data; the outcome is the split plan, or one device for everything when it is best everywhere; a temporary of unknown size that crosses between steps leads to the CPU where that is allowed, and to failure otherwise; the plan is valid for the model |
| Compilation.CompiledIsProvided | nn/runtime/ExecutionPlan.cpp:706-724 | for any plan the compilation may have made, it is enough that all operands with padding need less than 4 GiB and that outputs are of specified type and length |
| Compilation.PoolFits | nn/runtime/ExecutionPlan.cpp:706-724 | the temporaries of a plan need no more room than all operands with the largest padding |
| Growing.WithOperationKeeps | nn/runtime/ExecutionPlan.cpp:1446-1508 | adding an operation that reads existing operands and writes new ones keeps a model well-formed, in run order and with exact consumer counts |
| Growing.WithInputKeeps | nn/runtime/ExecutionPlan.cpp:1337-1358 | adding a model input does so too |
| Slicing.Slice.GetIndex | nn/runtime/ExecutionPlan.cpp:1337-1358 | finds the input of a type, or adds one |
| Slicing.MapOperationKeeps | nn/runtime/ExecutionPlan.cpp:1446-1508 | copying a compliant operation keeps the slice well-formed and type-faithful |
| Slicing.MapInputKeeps | nn/runtime/ExecutionPlan.cpp:1417-1444 | turning an operand into an input of its type does so too; there is one input for each type |
| Slicing.SlicedReady | nn/runtime/ExecutionPlan.cpp:1456-1491 | every lookup of an input succeeds, and no output is mapped already |
| Slicing.Slice.InitializeSlice | nn/runtime/ExecutionPlan.cpp:1246-1536 | the slice holds exactly the compliant operations, is well-formed and type-faithful, and outputs are marked exactly; it is rejected if and only if it has no operation or no output, or its types or pools are refused |
| Slicing.TypesNeverReject | nn/runtime/ExecutionPlan.cpp:1208-1239 | if the tables allow the types of the model and of its compliant operations, types are no reason to reject the slice |
| Slicing.CompliantMember | nn/runtime/ExecutionPlan.cpp:1430-1449 | the slice lists an operation if and only if it is compliant |
| Supporting.RemappedResult | nn/runtime/VersionedInterfaces.cpp:497-510 | an operation is marked if and only if some supported sliced operation maps to it |
| Supporting.CompliantAscending | nn/runtime/ExecutionPlan.cpp:1430-1449 | it lists each of them once, in the original order |
| Supporting.GetSupportedOperations | nn/runtime/VersionedInterfaces.cpp:486-598 | a model the device understands is passed on as it is; otherwise the driver is asked about the slice, and exactly the operations are supported whose copies it supports; nothing is when the slice is rejected, and a device that cannot be reached is a failure |
| BurstPackets.SerializeRequest | nn/common/ExecutionBurstController.cpp:57-135 | builds the request packet, with sizes truncated to 32 bits |
| BurstPackets.RequestSections | nn/common/ExecutionBurstController.cpp:57-135 | what is where in the packet: a header with the counts, each input followed by its dimensions, the outputs likewise, the pools, and whether to measure |
| BurstPackets.DeserializeRequest | nn/common/ExecutionBurstServer.cpp:149-294 | agrees with the parser as a function, also in how it fails |
| BurstPackets.RequestRoundTrip | nn/common/ExecutionBurstServer.cpp:149-294 | the parser inverts the serializer if and only if the packet size fits into 32 bits; it rejects all other packets, and reads stay in range |
| BurstPackets.AcceptedRequest | nn/common/ExecutionBurstServer.cpp:149-294 | an accepted packet is exactly the serialization of what was parsed |
| BurstPackets.SerializeResult | nn/common/ExecutionBurstServer.cpp:97-146 | builds the result packet |
| BurstPackets.ResultSections | nn/common/ExecutionBurstServer.cpp:97-146 | the same for results: status and count, each shape followed by its dimensions, the timing |
| BurstPackets.DeserializeResult | nn/common/ExecutionBurstController.cpp:138-218 | agrees with the parser as a function |
| BurstPackets.ResultRoundTrip | nn/common/ExecutionBurstController.cpp:138-218 | as for requests |
| BurstPackets.AcceptedResult | nn/common/ExecutionBurstController.cpp:138-218 | as for requests |
| BurstSlots.ExecutionBurstCallback.AllocateSlotLocked | nn/common/ExecutionBurstController.cpp:419-435 | an empty slot below the new cache size that no key is bound to and that is not free any more: the one freed last, or a new one if none is free; all other slots are unchanged |
| BurstSlots.ExecutionBurstCallback.GetSlotLocked | nn/common/ExecutionBurstController.cpp:405-417 | a bound key keeps its slot, another one is bound; the cache size is the largest number of keys bound at once, and slots are valid 32-bit numbers |
| BurstSlots.ExecutionBurstCallback.GetSlots | nn/common/ExecutionBurstController.cpp:377-388 | slots of all keys, in order: each is the one its key is bound to afterwards |
| BurstSlots.ExecutionBurstCallback.FreeMemory | nn/common/ExecutionBurstController.cpp:390-403 | unbinds a key and empties its slot |
| BurstSlots.ExecutionBurstCallback.GetMemories | nn/common/ExecutionBurstController.cpp:355-375 | succeeds if and only if all slots are in use |
| BurstSlots.BindKeeps | nn/common/ExecutionBurstController.cpp:405-435 | binding keeps bound and free slots a partition of the cache, without duplicates, free slots empty |
| BurstSlots.ReleaseKeeps | nn/common/ExecutionBurstController.cpp:390-403 | so does freeing; other keys keep slot and memory |
| BurstSlots.GetAllKeeps | nn/common/ExecutionBurstController.cpp:377-388 | a key's slot is stable until it is freed |
| BurstSlots.GetAllServes | nn/common/ExecutionBurstController.cpp:377-388 | every listed key has a slot that holds its memory |
| BurstServing.UnknownSlotsFacts | nn/common/ExecutionBurstServer.cpp:506-516 | the slots asked for are exactly the requested ones that are not present, each once |
| BurstServing.BurstExecutorWithCache.EnsureCacheEntriesArePresentLocked | nn/common/ExecutionBurstServer.cpp:505-543 | if the client has memories for all requested slots that are not present, each of these gets the client's memory; otherwise nothing changes; no other entry ever does |
| BurstServing.BurstExecutorWithCache.PoolsFor | nn/common/ExecutionBurstServer.cpp:58-61 | the memory of each slot, empty for one that is not in the cache; looking up leaves such slots in the cache, empty |
| BurstServing.BurstExecutorWithCache.Serve | nn/common/ExecutionBurstServer.cpp:545-583 | a request is answered by what the prepared model says of it and the memories of its slots: a success with shapes and timing, or a general failure if its packet exceeds the channel; any other status alone, without shapes and timing; anything but a request by a general failure |
| BurstServing.SendableAnswers | nn/common/ExecutionBurstServer.cpp:68-87 | dropping shapes and timing of a failure, and replacing what does not fit, makes the answer that `Answers` describes field by field |
| BurstServing.EnsuredCoherent | nn/common/ExecutionBurstServer.cpp:505-543 | afterwards the caches are still coherent and the pools are the client's memories for the slots |
| BurstCoherence.CachesCoherent | nn/common/ExecutionBurstController.cpp:543-582 | in every interleaving, when the lock is free each valid server entry is the client's memory, and every result that the client has returned is the server's answer to this very request, executed with the requested pools position by position |
| BurstCoherence.StepKeeps | nn/common/ExecutionBurstServer.cpp:545-583 | every step of client and server keeps the invariant |
| BurstCoherence.WaitingEnds | nn/common/ExecutionBurstController.cpp:560-571 | a waiting client has a reply to its own request after at most four more steps of the burst, and until then a step can be taken |
| BurstCoherence.LostRemoteFree | nn/common/ExecutionBurstController.cpp:573-582 | if the remote call is lost, the invariant still holds if and only if the server does not hold the slot |
| BurstCoherence.NextKeyServed | nn/common/ExecutionBurstController.cpp:573-582 | after a lost call, from any reachable state, a request for the next key that is bound is executed with the old memory of the slot if the server holds one, and with its own otherwise |
| BurstCoherence.StaleMemoryUsed | nn/common/ExecutionBurstController.cpp:573-582 | a run with one lost call in which a request for one memory is executed with another |
| BurstCoherence.ExecutionBurstController.TryCompute | nn/common/ExecutionBurstController.cpp:543-571 | sends the operands and the slots bound to the keys; another way is to be taken if and only if the request is too long for the channel; the result is what the prepared model says of the request and of the very memories passed, as `Answers` describes; the caches stay coherent |
| BurstCoherence.ExecutionBurstController.FreeMemory | nn/common/ExecutionBurstController.cpp:573-582 | forgets the key on both sides; all other keys keep their slots and the caches stay coherent |
| CpuExecution.InputsReadable | nn/common/CpuExecutor.cpp:651-664 | no operation reads a temporary that was freed, or that was not allocated although it has a size |
| CpuExecution.OperationAdvances | nn/common/CpuExecutor.cpp:666-1760 | after each operation every count is the number of remaining positions that read the temporary |
| CpuExecution.UseCounted | nn/common/CpuExecutor.cpp:651-664 | using one input position lowers its count by one |
| CpuExecution.FoundIs | nn/common/CpuExecutor.cpp:666-1760 | every kernel finds the values of the model at its inputs, although temporaries were freed in between |
| CpuExecution.ValuesAdvance | nn/common/CpuExecutor.cpp:666-1760 | after an operation, everything that is still of use has the value of the model |
| CpuExecution.CpuExecutor.InitializeRunTimeInfo | nn/common/CpuExecutor.cpp:568-649 | counts start as numbers of consumers, nothing but temporaries is counted; inputs and outputs have the caller's buffers |
| CpuExecution.CpuExecutor.ExecuteOperation | nn/common/CpuExecutor.cpp:666-1760 | everything read is there; success if and only if the kernel succeeds and every output has room, and it leads to the next state; otherwise the code of the kernel, or too small an output; failure loses nothing |
| CpuExecution.SufficientIff | nn/common/CpuExecutor.cpp:180-203 | a result finds room if and only if its operand is a temporary, or the caller's buffer is long enough |
| CpuExecution.CpuExecutor.FreeNoLongerUsedOperands | nn/common/CpuExecutor.cpp:651-664 | frees a temporary exactly when its last reader is done |
| CpuExecution.CpuExecutor.Run | nn/common/CpuExecutor.cpp:535-565 | on success and failure every allocated buffer is freed exactly once, no other buffer is, none remains; with right kernels the run succeeds if and only if all of them do and every output fits, and then the outputs have the values of the model; it fails with the code of the first operation that fails |
| CpuExecution.ComputeOnCpu | nn/runtime/ExecutionBuilder.cpp:1043-1052 | the CPU is an honest backend: nothing but the outputs is written, and a run reported as successful is an execution of the model; it is successful if and only if kernels succeed and outputs fit; too small an output is reported as such, and a failing kernel by the status of its code |
| ConsumerCounting.ReorderedCounted | nn/runtime/ModelBuilder.cpp:356-358 | sorting keeps consumer counts exact |
| ConsumerCounting.SubModelCounted | nn/runtime/ExecutionPlan.cpp:370-411 | the submodel of every step has exact consumer counts and can run |
| IndexedShapes.IndexedShapeWrapper.constructor | nn/common/IndexedShapeWrapper.cpp:24-30 | each stride is the number of elements behind its axis, as far as 32 bits hold it |
| IndexedShapes.IndexedShapeWrapper.NextIndexInplace | nn/common/IndexedShapeWrapper.cpp:32-55 | rejects invalid indexes, sets the flag exactly for the last index, otherwise carries |
| IndexedShapes.IndexedShapeWrapper.IndexToFlatIndex | nn/common/IndexedShapeWrapper.cpp:57-66 | accepts exactly the valid indexes; the row-major position, as far as 32 bits hold it |
| IndexedShapes.PositionsExactIff | nn/common/IndexedShapeWrapper.cpp:57-66 | all positions are exact if and only if there are at most 2^32 elements |
| IndexedShapes.CarriedFlat | nn/common/IndexedShapeWrapper.cpp:46-53 | a carry leads to the next position |
| IndexedShapes.LastIffFlat | nn/common/IndexedShapeWrapper.cpp:35-45 | an index is last if and only if its position is the last one |
| IndexedShapes.FlatInjective | nn/common/IndexedShapeWrapper.cpp:57-66 | different indexes have different positions |
| IndexedShapes.EnumerationCounts | nn/common/IndexedShapeWrapper.cpp:32-55 | iterating from zero reaches position k after k steps |
| IndexedShapes.EnumerationStops | nn/common/IndexedShapeWrapper.cpp:32-55 | iteration stops after exactly as many indexes as there are elements |
| IndexedShapes.IndexedShapeWrapper.BroadcastedIndexToFlatIndex | nn/common/IndexedShapeWrapper.cpp:68-82 | accepts exactly the indexes that fit from the end, and gives the position of the clipped suffix, a valid index, as far as 32 bits hold it |
| IndexedShapes.CalculateBroadcastedShape | nn/common/OperationsUtils.cpp:312-336 | succeeds if and only if the types are equal and all axes are compatible from the end; each axis then has the size of the one that is not one |
| IndexedShapes.BroadcastIffCommon | nn/common/OperationsUtils.cpp:312-336 | two shapes can be broadcast if and only if some shape exists that both stretch to: every axis from the end is its own, or has size one |
| IndexedShapes.BroadcastStretches | nn/common/OperationsUtils.cpp:312-336 | the broadcast shape is such a shape, and stretches to every other one |
| IndexedShapes.BroadcastAccepted | nn/common/OperationsUtils.cpp:312-336 | every index of the broadcast shape is accepted by both inputs |
| IndexedShapes.BroadcastUnique | nn/common/OperationsUtils.cpp:312-336 | the contract determines the result |
| IndexedShapes.BroadcastSymmetric | nn/common/OperationsUtils.cpp:312-336 | success and result do not depend on the order of the inputs |
| Nhwc.ConvertToNhwc | nn/common/CpuExecutor.cpp:422-434 | writes every position once; element (n, c, hw) becomes (n, hw, c) |
| Nhwc.ConvertFromNhwc | nn/common/CpuExecutor.cpp:436-448 | the other way round |
| Nhwc.LayoutsDetermineEachOther | nn/common/include/CpuOperationUtils.h:98-136 | either layout determines the other, so the conversions are mutual inverses |
| Nhwc.AtSurjective | nn/common/CpuExecutor.cpp:422-448 | every position is that of some element |
| ReducedShapes.MeanPrepare | nn/common/OperationsUtils.cpp:694-770 | succeeds if and only if the axes are a list of 32-bit numbers and, when axes are dropped, all in range; the output has the type and scaling of the input; kept, the rank of the input and size one exactly at the positions that some axis names from either end; dropped, the sizes at the other positions, in order |
| ReducedShapes.CountAxes | nn/common/OperationsUtils.cpp:726-744 | counts distinct axes, however they are written |
| ReducedShapes.FillRemaining | nn/common/OperationsUtils.cpp:745-762 | every write is in bounds, every position is written once |
| ReducedShapes.RemainingDrops | nn/common/OperationsUtils.cpp:745-762 | the sizes that remain are those at the positions that no axis names, each at the number of such positions before it |
| ReducedShapes.SameElementCount | nn/common/OperationsUtils.cpp:694-770 | keeping and dropping axes agree in the number of elements |
| ReducedShapes.DroppedIsKeptWithoutAxes | nn/common/OperationsUtils.cpp:694-770 | dropping axes is keeping them and then removing them |
| ReducedShapes.CombineDimensions | nn/common/OperationsUtils.cpp:88-113 | the least shape that refines both; fails if and only if the two contradict each other |
| ReducedShapes.CombineFailsRightly | nn/common/OperationsUtils.cpp:88-113 | they contradict each other if and only if no shape refines both |

## Left out

- Compilation and caching of submodels, service lookup, HIDL transport, shared-memory mapping and death recipients: I/O. Compilation is taken to succeed.
- FMQ and futex internals: a channel is a queue of whole packets; a packet longer than the channel is not sent.
- Numeric kernels: operations are uninterpreted; in `CpuExecution` a kernel is any function from the values of the inputs to values of the outputs, which may fail halfway.
- The contents of the type tables (`TypeRules`), and the rules by which an operation complies with an older version: both are parameters. Scales, zero points and extra parameters are part of a type there.
- Extension and OEM types, vendor hooks, timing, tracing and logging; that a model has a vendor operation is a parameter of the compilation.
- Offsets of constants outside `ConstantPools`: elsewhere an operand carries the bytes that its location designates.
- Types given at execution time for arguments; arguments without value occur in `CpuExecution` only.
- Threads: the driver runs to completion on its own; the callback's lock is what makes its steps atomic. The thread of an asynchronous call is taken to have run when the caller looks at the event.
- Output shapes that the CPU executor reports: `CpuExecution` has values and their lengths, not dimensions.
- Value semantics of slices: inputs of equal type are merged on purpose, so only structure and types are stated.
- RunOrder.OperandTracker.Start: the sort has its own copy of the tracker's loops, which this class models as well.
- ModelBuilding.ModelBuilder.SortIntoRunOrder: the last-in first-out choice among ready operations is in the body but not in the contract, which holds for any choice.
- ModelBuilding.ModelBuilder.Finish: demands that operands with recorded large values are still constants in shared memory; the process aborts otherwise.
- ConstantPools.SmallOperandValues.Add: demands that the copy stays inside the vector, beyond which the source is undefined; `StaysInside` says when it does.
- ConstantPools.CopyLargeValuesToSharedMemory: demands a sound layout for the same reason; `CopiesAreSafeIffFits` says when it is.
- BurstPackets.SerializeRequest: the dimension count of a single operand is not truncated to 32 bits; only packets that the size check rejects could tell.
- BurstSlots.ExecutionBurstCallback.GetSlots: demands exactly that the number of slots it needs does not exceed the largest int32; the process aborts otherwise.
- CpuExecution.ComputeOnCpu: demands that inputs and outputs do not overlap, and looks at inputs when they are set up; `StepCanBeRetried` shows that steps of a plan are like that.
- IndexedShapes.IndexedShapeWrapper.constructor: demands a shape with a dimension, without which the source is undefined.
- Nhwc.ConvertToNhwc: positions are unbounded numbers, so a tensor of 2^32 elements or more, whose positions the source truncates, is not described.
- ReducedShapes.MeanPrepare: adding the rank to an axis cannot overflow here; the source computes it in 32 bits.
- `squeezePrepare`, the memory tracker and type manager, and the other shape functions: they would only add easy members.
