/** Two plans for a chain of two operations on two devices. One shows that everything that is assumed of a
  * run can be met, and that such a run succeeds. The other shows what goes wrong when an output of unknown
  * size is read back from a buffer that is longer than its value. */
module Witnesses {
  import opened Sequences
  import opened Models
  import opened Validation
  import opened ModelBuilding
  import opened Sorting
  import opened Cycles
  import opened SubModels
  import opened Stepping
  import opened Partitioning
  import opened Finishing
  import opened PlanFinishing
  import opened Crossings
  import opened DeviceChoice
  import opened Layout
  import opened Controlling
  import opened Execution
  import opened Routing
  import opened Preservation
  import opened OutputShapes
  import opened Jobs
  import opened Driver
  import opened Compilation
  import opened Feasibility

  // ---------------------------------------------------------------- the models

  function Tensor(dimensions: seq<nat>): OperandType {
    OperandType(0, false, 1, dimensions, 0.0, 0, [])
  }

  /** What is between the two operations: a temporary of one byte, a model output whose size is only known
    * at run time, or a temporary whose second dimension is only known then. */
  datatype Middle = Plain | Dynamic | Ragged

  function MiddleOf(middle: Middle): Operand {
    match middle
    case Plain => Operand(Tensor([1]), TemporaryVariable, [], 1)
    case Dynamic => Operand(Tensor([0]), ModelOutput, [], 1)
    case Ragged => Operand(Tensor([2, 0]), TemporaryVariable, [], 1)
  }

  /** Two operations in a row, on tensors of one byte but for what is between them. */
  function Chain(middle: Middle): (m: Model)
    ensures |m.operands| == 3 && |m.operations| == 2
  {
    Model([Operand(Tensor([1]), ModelInput, [], 1), MiddleOf(middle), Operand(Tensor([1]), ModelOutput, [], 0)],
          [Operation(0, [0], [1]), Operation(1, [1], [2])],
          [0], if middle == Dynamic then [1, 2] else [2])
  }

  lemma ChainWrittenOnce(middle: Middle)
    ensures InRange(Chain(middle)) && WrittenOnce(Chain(middle))
  {
    var m := Chain(middle);
    assert m.operations[0].outputs == [1] && m.operations[1].outputs == [2];
    forall o | 0 <= o < 3 && IsDataflow(m.operands[o])
      ensures exists j :: 0 <= j < |m.operations| && o in m.operations[j].outputs
    {
      assert o in m.operations[o - 1].outputs;
    }
  }

  lemma ChainRuns(middle: Middle)
    ensures InRunOrder(Chain(middle))
  {
    var m := Chain(middle);
    var order := Identity(2);
    assert order[..1] == [0] && 0 in order[..1];
    assert 1 in OutputsOf(m, 0);
    assert 1 in Outs(m, order[..1]);
  }

  lemma ChainIsWellFormed(middle: Middle)
    ensures Executable(Chain(middle)) && Splittable(Chain(middle)) && AllRead(Chain(middle))
    ensures Admitted(AnyType(), Chain(middle))
  {
    ChainWrittenOnce(middle);
    ChainRuns(middle);
    ChainInterface(middle);
    ChainAdmitted(middle);
    hide InRange, WrittenOnce, InRunOrder, InterfaceListed, ValidIndexes, Admitted;
  }

  lemma ChainInterface(middle: Middle)
    ensures InterfaceListed(Chain(middle)) && AllRead(Chain(middle))
    ensures ValidIndexes(Chain(middle), Chain(middle).inputIndexes, ModelInput)
    ensures ValidIndexes(Chain(middle), Chain(middle).outputIndexes, ModelOutput)
  {
  }

  lemma ChainAdmitted(middle: Middle)
    ensures Admitted(AnyType(), Chain(middle))
  {
    var m := Chain(middle);
    forall j | 0 <= j < |m.operations| ensures Typed(AnyType(), m, m.operations[j]) {
      assert OperationInRange(m.operands, m.operations[j]) by { ChainWrittenOnce(middle); }
    }
  }

  // ---------------------------------------------------------------- compiling them

  /** Device 0 can run the first operation, device 1 the second. */
  const CAN: seq<seq<bool>> := [[true, false], [false, true]]
  const PERF: seq<seq<real>> := [[1.0, 1.0], [1.0, 1.0]]
  const CPU: nat := 2

  lemma ChainSplits(middle: Middle, best: seq<nat>)
    requires Ratings(Chain(middle), CAN, PERF)
    requires Assigned(Chain(middle), best, 2) && BestFound(Chain(middle), CAN, PERF, CPU, best)
    ensures best == [0, 1] && Differs(best)
  {
    BestCan(middle, best, 0);
    BestCan(middle, best, 1);
    hide BestFound, Ratings;
    assert CAN[0] == [true, false] && CAN[1] == [false, true];
    assert best[0] != best[1];
  }

  lemma BestCan(middle: Middle, best: seq<nat>, j: nat)
    requires Ratings(Chain(middle), CAN, PERF) && j < 2
    requires Assigned(Chain(middle), best, 2) && BestFound(Chain(middle), CAN, PERF, CPU, best)
    ensures best[j] < 2 && CAN[best[j]][j]
  {
    hide Chain;
    assert IsBest(Column(CAN, j), Column(PERF, j), CPU, best[j]);
  }

  /** No temporary has a size that is only known at run time. */
  lemma ChainExportsKnown(middle: Middle, stepOps: seq<seq<nat>>, defs: map<nat, nat>)
    requires middle != Ragged && DefsExact(Chain(middle), stepOps, defs)
    ensures !SomeUnknownExport(Chain(middle), stepOps, defs, |stepOps|)
  {
    var m := Chain(middle);
    forall t | 0 <= t < |stepOps| ensures !UnknownExport(m, ExportsOf(m, stepOps, defs, t)) {
      forall e | e in ExportsOf(m, stepOps, defs, t) && e.0 < |m.operands| ensures !HasUnknownSize(m.operands[e.0].ty) {
        ExportIsTemporary(m, stepOps, defs, t, e);
        assert Tensor([1]).dimensions == [1];
      }
    }
  }

  lemma ExportIsTemporary(m: Model, stepOps: seq<seq<nat>>, defs: map<nat, nat>, t: nat, e: (nat, nat))
    requires DefsExact(m, stepOps, defs) && t < |stepOps| && e in ExportsOf(m, stepOps, defs, t)
    ensures HasLifeTime(m, e.0, TemporaryVariable)
  {
    Exporting.ExportedExact(defs, BuildStep(m, stepOps[t]).operandMap, t, Exporting.Requests(m, stepOps));
  }

  lemma NothingUnsupported()
    ensures !Unsupported(CAN, 0) && !Unsupported(CAN, 1)
  {
    assert CAN[0][0] && CAN[1][1];
  }

  /** The compiler makes a plan of two devices for it. */
  method CompileChain(middle: Middle) returns (body: PlanBody, ghost plan: Plan)
    requires middle != Ragged
    ensures ValidPlan(plan) && plan.model == Chain(middle) && plan.best == [0, 1]
    ensures body.Compound? && |body.steps| == 2 && body == Compound(plan.steps)
  {
    hide Executable, Splittable, Admitted, AllRead, BestFound, Unsupported, Differs, IsPartition, DefsExact;
    hide SomeUnknownExport, UnknownCrosses, IsCompound;
    ChainIsWellFormed(middle);
    NothingUnsupported();
    var builder := new CompilationBuilder(AnyType(), Chain(middle), false, CAN, PERF, CPU, WithoutFallback);
    var code := builder.Finish();
    ChainSplits(middle, builder.plan.best);
    if code != BadData { ChainExportsKnown(middle, builder.plan.stepOps, builder.plan.defs); }
    body, plan := builder.body, builder.plan;
    ChainSteps(plan, middle);
  }

  /** A temporary is refused at the boundary for a dimension that is not its first: splitting fails, whatever
    * devices are chosen by. */
  method RefuseRagged(rules: TypeRules) returns (code: ResultCode)
    requires Admitted(rules, Chain(Ragged))
    ensures code == OpFailed
  {
    hide Splittable, Admitted, AllRead, BestFound, Unsupported, Differs, IsPartition, DefsExact, SomeUnknownExport;
    hide IsCompound, UnknownCrosses, Chain;
    ChainIsWellFormed(Ragged);
    RagCrosses();
    NothingUnsupported();
    var body;
    ghost var best, stepOps, devices, defs;
    body, code, best, stepOps, devices, defs := PartitionTheWork(rules, Chain(Ragged), CAN, PERF, CPU);
    ChainSplits(Ragged, best);
    ChainParts(Ragged, best, stepOps, devices);
  }

  // ---------------------------------------------------------------- the two steps

  lemma FlattenOne(parts: seq<seq<nat>>)
    requires |parts| == 1
    ensures Flatten(parts) == parts[0]
  {
    assert parts[..0] == [];
  }

  lemma FlattenPair(parts: seq<seq<nat>>)
    requires |parts| == 2
    ensures Flatten(parts) == parts[0] + parts[1]
  {
    FlattenOne(parts[..1]);
  }

  /** The second operation reads what the first one writes. */
  lemma ChainReady(middle: Middle)
    ensures |Chain(middle).operations| == 2 && InRange(Chain(middle)) && !Ready(Chain(middle), 1, {})
  {
    var m := Chain(middle);
    ChainWrittenOnce(middle);
    assert 1 in InputsOf(m, 1) && IsDataflow(m.operands[1]);
  }

  /** So it comes second. */
  lemma ChainOrder(middle: Middle, order: seq<nat>)
    requires IsRunOrder(Chain(middle), order)
    ensures order == [0, 1]
  {
    var m := Chain(middle);
    ChainRuns(middle);
    ChainReady(middle);
    RunOrderCovers(m, order, Identity(2), 2);
    hide Chain, InRunOrder, Ready;
    assert Identity(2)[0] == 0 && Identity(2)[1] == 1;
    NoDupBounded(order, 2);
    assert |order| == 2 by { AllPresent(order, 2); }
    FirstIsReady(m, order);
    assert order[0] < 2 && order[1] < 2 && order[0] != order[1];
  }

  lemma FirstIsReady(m: Model, order: seq<nat>)
    requires IsRunOrder(m, order) && order != []
    ensures Ready(m, order[0], {})
  {
    assert order[..0] == [] && Outs(m, []) == {};
  }

  /** So each operation gets a step of its own. */
  lemma ChainParts(middle: Middle, best: seq<nat>, parts: seq<seq<nat>>, devices: seq<nat>)
    requires IsPartition(Chain(middle), best, parts, devices) && best == [0, 1]
    ensures parts == [[0], [1]]
  {
    hide IsRunOrder;
    ChainOrder(middle, Flatten(parts));
    NonemptyParts(parts);
    assert [0, 1][0] == 0 && [0, 1][1] == 1;
    if |parts| == 1 { FlattenOne(parts); }
    assert |parts| == 2;
    FlattenPair(parts);
    assert parts[0] != [] && parts[1] != [];
    assert |parts[0]| == 1 && |parts[1]| == 1;
    assert (parts[0] + parts[1])[0] == parts[0][0] && (parts[0] + parts[1])[1] == parts[1][0];
    assert parts[0] == [0] && parts[1] == [1];
  }

  lemma ChainSteps(p: Plan, middle: Middle)
    requires ValidPlan(p) && p.model == Chain(middle) && p.best == [0, 1]
    ensures p.stepOps == [[0], [1]] && |p.steps| == 2
  {
    hide IsPartition, IsRunOrder, Executable;
    ChainParts(middle, p.best, p.stepOps, p.devices);
  }

  lemma PartsOnDevices(p: Plan)
    requires ValidPlan(p)
    ensures IsRunOrder(p.model, Flatten(p.stepOps)) && |p.devices| == |p.stepOps| == |p.steps|
  {
  }

  /** The second dimension of the temporary between the steps is not specified. */
  lemma RagCrosses()
    ensures UnknownCrosses(Chain(Ragged), [[0], [1]])
  {
    var m, stepOps: seq<seq<nat>> := Chain(Ragged), [[0], [1]];
    assert 0 in stepOps[0] && 1 in stepOps[1] && 1 in OutputsOf(m, 0) && 1 in InputsOf(m, 1);
    assert 1 in Outs(m, stepOps[0]);
    assert Crosses(m, stepOps, 1);
    assert m.operands[1].ty.dimensions[1] == 0;
  }

  // ---------------------------------------------------------------- a run that succeeds

  /** Every result has the size of its type; one of unknown size has one byte. All its bytes tell whether
    * the first input is longer than one byte. */
  function Measure(): Semantics {
    (code: nat, inTypes, values, outTypes, k: nat) =>
      seq(if k < |outTypes| && !HasUnknownSize(outTypes[k]) then SizeOfData(outTypes[k]) else 1,
          i => if |values| > 0 && |values[0]| > 1 then 1 else 0)
  }

  lemma MeasureIsSized()
    ensures ResultsSized(Measure())
  {
  }

  lemma TensorSize()
    ensures SizeOfData(Tensor([1])) == 1 && !HasUnknownSize(Tensor([1])) && HasUnknownSize(Tensor([0]))
  {
    assert [1][..0] == [] && TimesDimensions(1, [1]) == 1;
    assert [0][0] == 0;
  }

  lemma ChainPadding()
    ensures PaddedTotal(Chain(Plain), 3) == 12
  {
    TensorSize();
    assert PaddedTotal(Chain(Plain), 1) == 4 && PaddedTotal(Chain(Plain), 2) == 8;
  }

  /** What the theorems about execution assume holds of a plan on two devices, and success is assured then:
    * neither a retry nor a fallback is needed. */
  lemma AssumptionsCanBeMet(plan: Plan)
    returns (sem: Semantics, backend: Backend, memory: Memory, outputs: seq<OutputShape>)
    requires ValidPlan(plan) && plan.model == Chain(Plain) && plan.best == [0, 1]
    ensures |plan.steps| == 2 && Honest(backend, sem) && Provided(sem, plan, Compound(plan.steps), memory)
    ensures Assured(Devices(outputs), backend, CPU, sem, plan, Compound(plan.steps), memory, false, true)
    ensures |outputs| == |plan.model.outputIndexes| && Truthful(Devices(outputs), outputs, outputs)
  {
    hide ValidPlan, Provided, Honest, Executable, Promised, ResultsSized, IsJob, AllRefine;
    sem, backend, outputs := Measure(), Oracle(Measure()), [Known([1])];
    memory := Memory([[7]], [], [[0]]);
    ChainProvided(plan, memory);
    OracleIsHonest(sem);
    SameRefines(outputs);
    forall job | IsJob(job, sem, plan, Compound(plan.steps), memory)
      ensures Promised(Devices(outputs), backend, CPU, job, false, true)
    {
      ChainRoomy(job, sem, plan, memory);
      DevicesPromised(job, outputs);
    }
  }

  lemma ChainProvided(plan: Plan, memory: Memory)
    requires ValidPlan(plan) && plan.model == Chain(Plain) && plan.best == [0, 1]
    requires |memory.arguments| == 1 && |memory.results| == 1 && |memory.results[0]| == 1
    ensures |plan.steps| == 2 && Provided(Measure(), plan, Compound(plan.steps), memory) && ResultsSized(Measure())
  {
    hide ValidPlan, Provided, Executable, ResultsSized, PaddedTotal, SizeOfData, HasUnknownSize, Splittable, Admitted;
    ChainSteps(plan, Plain);
    TensorSize();
    MeasureIsSized();
    ChainPadding();
    ChainIsWellFormed(Plain);
    CompiledIsProvided(Measure(), plan, Compound(plan.steps), memory);
  }

  lemma DevicesPromised(job: Job, truth: seq<OutputShape>)
    requires ValidJob(job) && Roomy(Original(job.c), job.c.env, job.lengths)
    ensures Promised(Devices(truth), Oracle(job.c.sem), CPU, job, false, true)
  {
    hide ValidJob, Roomy;
    OracleSucceeds(job, CPU, truth, false);
  }

  /** The only output has one byte, and so has its buffer. */
  lemma ChainRoomy(job: Job, sem: Semantics, plan: Plan, memory: Memory)
    requires IsJob(job, sem, plan, Compound(plan.steps), memory) && plan.model == Chain(Plain)
    requires ResultsSized(sem) && |memory.results| == 1 && |memory.results[0]| == 1
    ensures ValidJob(job) && job.c.sem == sem && Roomy(Original(job.c), job.c.env, job.lengths)
  {
    hide ValidPlan, LaidOut, InRange, WrittenOnce, InRunOrder, InterfaceListed, ResultsSized, Meaning, ValidSetting;
    TensorSize();
    SpecifiedOutputSized(sem, plan.model, memory.arguments, job.c.env, 0);
    assert LengthsOf(memory.results)[0] == 1;
  }

  // ---------------------------------------------------------------- a run that goes wrong

  /** The step that holds operation `j` of the chain: it meets operand `j` as an input, then operand
    * `j + 1` as an output. */
  function LinkRoles(j: nat): Roles {
    if j == 0 then Roles([(0, 0)], [(1, 1)], [], []) else Roles([], [(2, 1)], [], [(1, 0)])
  }

  lemma LinkBuilt(j: nat)
    requires j < 2
    ensures BuildStep(Chain(Dynamic), [j]).roles == LinkRoles(j)
    ensures BuildStep(Chain(Dynamic), [j]).operations == [Operation(j, [0], [1])]
    ensures BuildStep(Chain(Dynamic), [j]).origins == [Origin(j, Input), Origin(j + 1, Output)]
  {
    hide CountReads, Import, Meet, MeetAll;
    var m := Chain(Dynamic);
    var op := m.operations[j];
    assert [j][..0] == [] && BuildStep(m, [j]) == AddToStep(m, EMPTY_STEP, op);
    var half := Meet(m, EMPTY_STEP, j, Input);
    MeetOne(m, EMPTY_STEP, j, Input);
    MeetOne(m, half, j + 1, Output);
    LinkMeets(j);
    var met := Meet(m, half, j + 1, Output);
    assert Translate(met.operandMap, op.inputs) == [0] && Translate(met.operandMap, op.outputs) == [1];
  }

  lemma MeetOne(m: Model, s: StepState, o: nat, kind: OperandKind)
    ensures MeetAll(m, s, [o], kind) == Meet(m, s, o, kind)
  {
    assert [o][..0] == [] && MeetAll(m, s, [], kind) == s;
  }

  lemma LinkMeets(j: nat)
    requires j < 2
    ensures var met := Meet(Chain(Dynamic), Meet(Chain(Dynamic), EMPTY_STEP, j, Input), j + 1, Output);
            && met.roles == LinkRoles(j) && met.origins == [Origin(j, Input), Origin(j + 1, Output)]
            && met.operandMap == map[j := 0, j + 1 := 1] && met.operations == []
  {
  }

  /** No step of the dynamic chain exports anything: there is no temporary. */
  lemma NothingToExport(p: Plan, t: nat)
    requires ValidPlan(p) && p.model == Chain(Dynamic) && t < |p.steps|
    ensures p.steps[t].exports == []
  {
    hide ValidPlan;
    if p.steps[t].exports != [] {
      var e := p.steps[t].exports[0];
      assert e in p.steps[t].exports;
      ExportDefined(p, t, e);
    }
  }

  ghost predicate IsLink(r: FinishedStep, t: nat)
    requires t < 2
  {
    && r.roles == LinkRoles(t) && r.exports == [] && r.subModel.operations == [Operation(t, [0], [1])]
    && r.subModel.inputIndexes == [0] && r.subModel.outputIndexes == [1] && |r.subModel.operands| == 2
    && r.subModel.operands[0].ty == Chain(Dynamic).operands[t].ty
    && r.subModel.operands[1].ty == Chain(Dynamic).operands[t + 1].ty
    && r.outputIndexes == [t] && r.inputIndexes == (if t == 0 then [0] else [])
    && r.outputsAsInputsIndexes == (if t == 0 then [] else [0])
  }

  lemma LinkFinished(p: Plan, t: nat)
    requires ValidPlan(p) && p.model == Chain(Dynamic) && p.best == [0, 1] && t < 2
    ensures |p.steps| == 2 && IsLink(p.steps[t], t) && Executable(p.steps[t].subModel)
  {
    hide ValidPlan, Executable;
    ChainSteps(p, Dynamic);
    PartsOnDevices(p);
    NothingToExport(p, t);
    SubExecutable(p, t);
    LinkSorted(p, t);
    LinkTyped(p, t);
    LinkPositions(p, t);
    LinkInterfaceNamed(p, t);
  }

  lemma LinkInterfaceNamed(p: Plan, t: nat)
    requires ValidPlan(p) && t < 2 && t < |p.steps| && p.steps[t].roles == LinkRoles(t) && p.steps[t].exports == []
    ensures p.steps[t].subModel.inputIndexes == [0] && p.steps[t].subModel.outputIndexes == [1]
  {
    hide ValidPlan;
    PairOrder(p, t);
    assert Seconds(InPairs(p.steps[t])) == [0] && Seconds(OutPairs(p.steps[t])) == [1];
  }

  lemma LinkTyped(p: Plan, t: nat)
    requires ValidPlan(p) && p.model == Chain(Dynamic) && t < 2 && t < |p.steps| == |p.stepOps| && p.stepOps[t] == [t]
    ensures |p.steps[t].subModel.operands| == 2
    ensures p.steps[t].subModel.operands[0].ty == Chain(Dynamic).operands[t].ty
    ensures p.steps[t].subModel.operands[1].ty == Chain(Dynamic).operands[t + 1].ty
  {
    hide ValidPlan, BuildStep, Maps, OperationsRenamed;
    LinkBuilt(t);
    SubTypes(p, t);
    assert StateOf(p, t).origins[0].operand == t && StateOf(p, t).origins[1].operand == t + 1;
  }

  lemma LinkSorted(p: Plan, t: nat)
    requires ValidPlan(p) && p.model == Chain(Dynamic) && t < 2 && t < |p.steps| == |p.stepOps| && p.stepOps[t] == [t]
    ensures p.steps[t].roles == LinkRoles(t) && p.steps[t].subModel.operations == [Operation(t, [0], [1])]
  {
    hide ValidPlan, IsRunOrder, StepComplete, BuildStep, Topological, IndexesName;
    LinkBuilt(t);
    StepFacts(p, t);
    SubOrderComplete(p, t);
    assert p.steps[t].order[0] == 0;
  }

  lemma LinkPositions(p: Plan, t: nat)
    requires ValidPlan(p) && p.model == Chain(Dynamic) && t < |p.steps| && t < 2 && p.steps[t].roles == LinkRoles(t)
    ensures p.steps[t].outputIndexes == [t] && p.steps[t].inputIndexes == (if t == 0 then [0] else [])
    ensures p.steps[t].outputsAsInputsIndexes == (if t == 0 then [] else [0])
  {
    hide ValidPlan;
    StepLists(p, t);
    var r := p.steps[t];
    assert Chain(Dynamic).outputIndexes[0] == 1 && Chain(Dynamic).outputIndexes[1] == 2;
    assert r.roles.modelOutputs[0].0 == t + 1;
    assert r.outputIndexes[0] == t;
  }

  lemma LinkSatisfied(r: FinishedStep, t: nat, found: Bytes)
    requires t < 2 && IsLink(r, t) && Executable(r.subModel)
    ensures var e := Meaning(Measure(), r.subModel, [found]);
            0 in e && e[0] == found && Satisfies(Measure(), r.subModel, r.subModel.operations[0], e)
  {
    hide ValidModel, InterfaceListed, InRunOrder, Meaning, InitialEnv, Satisfies, Measure;
    MeaningSatisfies(Measure(), r.subModel, [found]);
    ArgumentValue(r.subModel, [found], 0);
  }

  /** What the step computes from the bytes it finds. */
  lemma LinkComputes(r: FinishedStep, t: nat, found: Bytes)
    requires t < 2 && IsLink(r, t) && Executable(r.subModel)
    ensures OutputValues(Measure(), r.subModel, [found]) == [[if |found| > 1 then 1 else 0]]
  {
    hide ValidModel, WrittenOnce, InterfaceListed, InRunOrder, Meaning, OutputValues, Satisfies, Measure, Chain;
    LinkSatisfied(r, t, found);
    OutputValueAt(Measure(), r.subModel, [found], 0);
    LinkTypes(t);
    ByteResult(r.subModel, r.subModel.operations[0], Meaning(Measure(), r.subModel, [found]), 0, 1);
  }

  lemma LinkTypes(t: nat)
    requires t < 2
    ensures Chain(Dynamic).operands[t + 1].ty == if t == 0 then Tensor([0]) else Tensor([1])
  {
  }

  lemma ResultIs(m: Model, op: Operation, e: Env, from: nat, to: nat)
    requires Satisfies(Measure(), m, op, e) && op.inputs == [from] && op.outputs == [to]
    ensures OperationInRange(m.operands, op) && from in e
    ensures to in e && e[to] == ResultOf(Measure(), m, op, e, 0)
  {
    assert op.inputs[0] == from && op.outputs[0] == to;
    assert from in op.inputs;
  }

  /** The result of an operation with one input and one output, of one byte or of unknown size. */
  lemma ByteResult(m: Model, op: Operation, e: Env, from: nat, to: nat)
    requires Satisfies(Measure(), m, op, e) && op.inputs == [from] && op.outputs == [to] && to < |m.operands|
    requires m.operands[to].ty == Tensor([1]) || m.operands[to].ty == Tensor([0])
    ensures from in e && to in e && e[to] == [if |e[from]| > 1 then 1 else 0]
  {
    hide SizeOfData, HasUnknownSize, Satisfies;
    TensorSize();
    ResultIs(m, op, e, from, to);
    assert op.inputs[0] in op.inputs && op.outputs[0] == to;
    assert ValuesOf(e, op.inputs)[0] == e[from];
  }

  /** What the whole chain computes from one byte. */
  lemma ChainComputes()
    ensures Executable(Chain(Dynamic)) && |Chain(Dynamic).inputIndexes| == 1
    ensures var e := Meaning(Measure(), Chain(Dynamic), [[7]]); 1 in e && 2 in e && e[1] == [0] && e[2] == [0]
  {
    hide ValidModel, WrittenOnce, InterfaceListed, InRunOrder, Meaning, InitialEnv, Satisfies, Measure, Splittable;
    hide Admitted, AllRead;
    ChainIsWellFormed(Dynamic);
    var m := Chain(Dynamic);
    MeaningSatisfies(Measure(), m, [[7]]);
    var e := Meaning(Measure(), m, [[7]]);
    ArgumentValue(m, [[7]], 0);
    assert Satisfies(Measure(), m, m.operations[0], e) && Satisfies(Measure(), m, m.operations[1], e);
    ByteResult(m, m.operations[0], e, 0, 1);
    ByteResult(m, m.operations[1], e, 1, 2);
  }

  /** The run has one argument of one byte, and a buffer of two bytes for the output that is read back. */
  ghost function DynamicSetting(p: Plan): Setting
    requires Executable(p.model) && |p.model.inputIndexes| == 1
  {
    Setting(Measure(), p, map[], 0, [[7]], Meaning(Measure(), p.model, [[7]]))
  }

  const LONG_BUFFER := Memory([[7]], [], [[9, 9], [9]])

  lemma NothingCrosses(p: Plan)
    requires ValidPlan(p) && p.model == Chain(Dynamic)
    ensures Crossing(p.steps) == []
  {
    hide ValidPlan;
    if Crossing(p.steps) != [] {
      var o := Crossing(p.steps)[0];
      CrossingMember(p.steps, o);
      var t, e :| 0 <= t < |p.steps| && e in p.steps[t].exports && e.0 == o;
      NothingToExport(p, t);
    }
  }

  lemma DynamicSettingIsValid(p: Plan)
    requires ValidPlan(p) && p.model == Chain(Dynamic)
    ensures ValidSetting(DynamicSetting(p)) && MemorySized(DynamicSetting(p), LONG_BUFFER)
  {
    hide IsCompound, AllRead, Executable, Solution, ResultsSized, Meaning;
    NothingCrosses(p);
    MeaningIsSolution(Measure(), p.model, [[7]]);
    MeasureIsSized();
  }

  /** The first step reads the argument and fills the long buffer, which the second step reads. */
  lemma LinkLocations(r: FinishedStep, t: nat, offsets: map<nat, nat>)
    requires t < 2 && IsLink(r, t)
    ensures InputLocations(r, offsets) == [if t == 0 then Argument(0) else Result(0)]
    ensures OutputLocations(r, offsets) == [Result(t)]
  {
  }

  /** What a step of the chain may do to memory: what it computes goes to the start of its buffer. */
  lemma LinkExecutes(c: Setting, t: nat, before: Memory, after: Memory, found: Bytes)
    requires t < 2 && t < |c.plan.steps| && IsLink(c.plan.steps[t], t) && Executable(c.plan.steps[t].subModel)
    requires c.sem == Measure() && found == Read(before, if t == 0 then Argument(0) else Result(0))
    requires Confined(before, after, [Result(t)]) && Holds(after, Result(t), [if |found| > 1 then 1 else 0])
    ensures StepExecuted(c, t, before, after)
  {
    hide Executable, OutputValues, Measure, Confined, Holds, Read, IsLink;
    var r := c.plan.steps[t];
    LinkLocations(r, t, c.offsets);
    LinkComputes(r, t, found);
    LinkInterface(r, t);
    assert ReadAll(before, InputLocations(r, c.offsets)) == [found];
  }

  lemma LinkInterface(r: FinishedStep, t: nat)
    requires t < 2 && IsLink(r, t)
    ensures |r.subModel.inputIndexes| == 1 && |r.subModel.outputIndexes| == 1
  {
  }

  /** Memory after the first and after the second step. */
  const HALFWAY := Memory([[7]], [], [[0, 9], [9]])
  const MISREAD := Memory([[7]], [], [[0, 9], [1]])

  /** Without exact buffers for what is read back, running a plan step by step can compute something else
    * than the model, even when every value fits into its buffer. */
  lemma DynamicOutputMisread(p: Plan) returns (c: Setting, states: seq<Memory>)
    requires ValidPlan(p) && p.model == Chain(Dynamic) && p.best == [0, 1]
    ensures ValidSetting(c) && c.plan == p && IsRun(c, states)
    ensures MemorySized(c, states[0]) && Roomy(p.model, c.env, LengthsOf(states[0].results))
    ensures !ReadBackExact(c, states[0]) && !OutputsHold(p.model, c.env, states[|states|-1])
  {
    hide ValidPlan, Executable, Meaning, Measure, ValidSetting, Chain, Roomy, OutputsHold, IsRun, ReadBackExact;
    hide MemorySized;
    ChainComputes();
    c, states := DynamicSetting(p), [LONG_BUFFER, HALFWAY, MISREAD];
    DynamicSettingIsValid(p);
    MisreadingRuns(p);
    BuffersOfMisreading(c.env);
  }

  lemma MisreadingRuns(p: Plan)
    requires ValidPlan(p) && p.model == Chain(Dynamic) && p.best == [0, 1]
    requires Executable(p.model) && |p.model.inputIndexes| == 1
    requires var e := Meaning(Measure(), p.model, [[7]]); 1 in e && e[1] == [0]
    ensures IsRun(DynamicSetting(p), [LONG_BUFFER, HALFWAY, MISREAD])
    ensures !ReadBackExact(DynamicSetting(p), LONG_BUFFER)
  {
    hide ValidPlan, Executable, Meaning, Measure, IsLink, StepExecuted, Chain;
    LinkFinished(p, 0);
    LinkFinished(p, 1);
    var c := DynamicSetting(p);
    LinkExecutes(c, 0, LONG_BUFFER, HALFWAY, [7]);
    LinkExecutes(c, 1, HALFWAY, MISREAD, [0, 9]);
    LinkReadsBack(p.steps[1]);
    assert ReadBack(c, 0) && !ExactBuffer(c, LONG_BUFFER, 0);
  }

  /** The buffers are long enough for the right values, and in the end one does not hold its value. */
  lemma BuffersOfMisreading(env: Env)
    requires 1 in env && 2 in env && env[1] == [0] && env[2] == [0]
    ensures Chain(Dynamic).outputIndexes == [1, 2]
    ensures Roomy(Chain(Dynamic), env, LengthsOf(LONG_BUFFER.results)) && !OutputsHold(Chain(Dynamic), env, MISREAD)
  {
    assert Chain(Dynamic).outputIndexes[1] == 2;
    assert Read(MISREAD, Result(1)) == [1] && [1][..|env[2]|] == [1] && env[2][0] == 0 && [1][0] == 1;
    assert !Holds(MISREAD, Result(1), env[Chain(Dynamic).outputIndexes[1]]);
  }

  lemma LinkReadsBack(r: FinishedStep)
    requires IsLink(r, 1)
    ensures 0 in r.outputsAsInputsIndexes && Chain(Dynamic).outputIndexes == [1, 2]
  {
  }
}
