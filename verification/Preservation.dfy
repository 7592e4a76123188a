/** Splitting a model over devices does not change what it computes. */
module Preservation {
  import opened Sequences
  import opened Models
  import opened RunOrder
  import opened ModelBuilding
  import opened Cycles
  import opened Sorting
  import opened SubModels
  import opened Stepping
  import opened Partitioning
  import opened Boundary
  import opened Finishing
  import opened PlanFinishing
  import opened Layout
  import opened Controlling
  import opened Execution
  import opened Routing

  /** Values of all operands that extend constants and arguments and satisfy every operation. */
  ghost predicate Solution(sem: Semantics, m: Model, arguments: seq<Bytes>, env: Env) {
    && |arguments| == |m.inputIndexes|
    && Agree(InitialEnv(m, arguments), env)
    && (forall j :: 0 <= j < |m.operations| ==> Satisfies(sem, m, m.operations[j], env))
    && (forall o :: 0 <= o < |m.operands| ==> o in env)
  }

  // ---------------------------------------------------------------- submodels can run

  lemma {:induction false} OrderComplete(order: seq<nat>, n: nat)
    requires NoDup(order) && (forall i :: 0 <= i < |order| ==> order[i] < n)
    requires forall j :: 0 <= j < n ==> j in order
    ensures |order| == n
  {
    AllPresent(order, n);
    NoDupBounded(order, n);
  }

  /** Sorting the submodel of a step keeps all its operations. */
  lemma SubOrderComplete(p: Plan, t: nat)
    requires ValidPlan(p) && t < |p.steps|
    ensures |p.steps[t].order| == |p.stepOps[t]|
    ensures Operations(SubModelOf(StateOf(p, t), p.steps[t].exports), p.steps[t].order)
    ensures Topological(SubModelOf(StateOf(p, t), p.steps[t].exports), p.steps[t].order)
    ensures p.steps[t].subModel == Reordered(SubModelOf(StateOf(p, t), p.steps[t].exports), p.steps[t].order)
  {
    StepFacts(p, t);
    var sub, n := SubModelOf(StateOf(p, t), p.steps[t].exports), |p.stepOps[t]|;
    var rest := FlattenSplit(p.stepOps, t);
    var earlier := Through(p.stepOps, t);
    TopologicalPrefix(p.model, earlier + p.stepOps[t], rest);
    OperationsSplit(p.model, earlier + p.stepOps[t], rest);
    SubTopological(p.model, earlier, p.stepOps[t], StateOf(p, t), p.steps[t].exports);
    RunOrderCovers(sub, p.steps[t].order, Identity(n), n);
    forall j | 0 <= j < n ensures j in p.steps[t].order { assert Identity(n)[j] == j; }
    OrderComplete(p.steps[t].order, n);
  }

  lemma PlanModel(p: Plan)
    requires ValidPlan(p)
    ensures ValidModel(p.model) && InterfaceListed(p.model) && InRunOrder(p.model) && AllRead(p.model)
  {
  }

  /** Sorting changes neither lifetimes nor the lists of inputs and outputs. */
  lemma ReorderedExecutable(m: Model, order: seq<nat>)
    requires ValidModel(m) && InterfaceListed(m) && Operations(m, order) && Topological(m, order)
    requires |order| == |m.operations|
    ensures Executable(Reordered(m, order))
  {
    ReorderedValid(m, order);
    ReorderedInRunOrder(m, order);
    hide InRange, WrittenOnce, Topological, InRunOrder;
  }

  lemma StepSize(p: Plan, t: nat)
    requires ValidPlan(p) && t < |p.steps|
    ensures |StateOf(p, t).operations| == |p.stepOps[t]|
  {
    StepFacts(p, t);
  }

  lemma SubExecutable(p: Plan, t: nat)
    requires ValidPlan(p) && t < |p.steps|
    ensures Executable(p.steps[t].subModel)
  {
    PlanModel(p);
    hide ValidPlan, InRange, WrittenOnce, InterfaceListed, Topological, InRunOrder, Executable, ValidIndexes, AllRead;
    StepFacts(p, t);
    SubOrderComplete(p, t);
    StepSize(p, t);
    var s := StateOf(p, t);
    hide StateOf;
    SubModelValid(p.model, p.stepOps[t], s, p.steps[t].exports);
    ReorderedExecutable(SubModelOf(s, p.steps[t].exports), p.steps[t].order);
  }

  // ---------------------------------------------------------------- a solution, seen from a submodel

  /** Values of the copies of operands. */
  ghost function PullBack(s: StepState, env: Env): Env {
    map k: nat | 0 <= k < |s.origins| && s.origins[k].operand in env :: env[s.origins[k].operand]
  }

  lemma ConstantValue(m: Model, arguments: seq<Bytes>, o: nat)
    requires ValidModel(m) && |arguments| == |m.inputIndexes|
    requires o < |m.operands| && IsConstant(m.operands[o])
    ensures o in InitialEnv(m, arguments) && InitialEnv(m, arguments)[o] == m.operands[o].value
  {
    assert o !in m.inputIndexes;
  }

  lemma ArgumentValue(m: Model, arguments: seq<Bytes>, i: nat)
    requires ValidModel(m) && |arguments| == |m.inputIndexes| && i < |m.inputIndexes|
    ensures m.inputIndexes[i] in InitialEnv(m, arguments)
    ensures InitialEnv(m, arguments)[m.inputIndexes[i]] == arguments[i]
  {
    ArgumentEnvAt(m.inputIndexes, arguments, i);
  }

  /** An operation and its renamed copy compute the same. */
  lemma RenamedSatisfies(sem: Semantics, m: Model, s: StepState, sub: Model, from: Operation, to: Operation, env: Env)
    requires Maps(m, s) && Renames(from, to, s.operandMap)
    requires |sub.operands| == |s.origins|
    requires forall k :: 0 <= k < |s.origins| ==> sub.operands[k].ty == m.operands[s.origins[k].operand].ty
    requires Satisfies(sem, m, from, env)
    ensures Satisfies(sem, sub, to, PullBack(s, env))
  {
    var back := PullBack(s, env);
    CopiedOperands(m, s, sub, from.inputs);
    CopiedOperands(m, s, sub, from.outputs);
    CopiedValues(m, s, from.inputs, env);
    forall i | 0 <= i < |to.outputs|
      ensures to.outputs[i] in back && back[to.outputs[i]] == ResultOf(sem, sub, to, back, i)
    {
      assert from.outputs[i] in from.outputs;
      assert env[from.outputs[i]] == ResultOf(sem, m, from, env, i);
    }
  }

  lemma CopiedOperands(m: Model, s: StepState, sub: Model, os: seq<nat>)
    requires Maps(m, s) && forall o :: o in os ==> o in s.operandMap
    requires |sub.operands| == |s.origins|
    requires forall k :: 0 <= k < |s.origins| ==> sub.operands[k].ty == m.operands[s.origins[k].operand].ty
    ensures forall k :: k in Translate(s.operandMap, os) ==> k < |sub.operands|
    ensures forall o :: o in os ==> o < |m.operands|
    ensures TypesOf(sub, Translate(s.operandMap, os)) == TypesOf(m, os)
  {
    var t := Translate(s.operandMap, os);
    forall i | 0 <= i < |os|
      ensures os[i] < |m.operands| && t[i] < |sub.operands| && s.origins[t[i]].operand == os[i]
    {
      assert os[i] in os;
    }
    forall k | k in t ensures k < |sub.operands| {
      var i :| 0 <= i < |t| && t[i] == k;
    }
  }

  lemma CopiedValues(m: Model, s: StepState, os: seq<nat>, env: Env)
    requires Maps(m, s) && forall o :: o in os ==> o in s.operandMap && o in env
    ensures forall k :: k in Translate(s.operandMap, os) ==> k in PullBack(s, env)
    ensures ValuesOf(PullBack(s, env), Translate(s.operandMap, os)) == ValuesOf(env, os)
  {
    var t := Translate(s.operandMap, os);
    forall i | 0 <= i < |os|
      ensures t[i] in PullBack(s, env) && PullBack(s, env)[t[i]] == env[os[i]]
    {
      assert os[i] in os;
    }
    forall k | k in t ensures k in PullBack(s, env) {
      var i :| 0 <= i < |t| && t[i] == k;
    }
  }

  lemma SubTypes(p: Plan, t: nat)
    requires ValidPlan(p) && t < |p.steps|
    ensures Maps(p.model, StateOf(p, t)) && OperationsRenamed(p.model, p.stepOps[t], StateOf(p, t))
    ensures |p.steps[t].subModel.operands| == |StateOf(p, t).origins|
    ensures forall k :: 0 <= k < |StateOf(p, t).origins| ==>
              && StateOf(p, t).origins[k].operand < |p.model.operands|
              && p.steps[t].subModel.operands[k].ty == p.model.operands[StateOf(p, t).origins[k].operand].ty
  {
    StepFacts(p, t);
    forall k | 0 <= k < |StateOf(p, t).origins|
      ensures StateOf(p, t).origins[k].operand < |p.model.operands|
      ensures p.steps[t].subModel.operands[k].ty == p.model.operands[StateOf(p, t).origins[k].operand].ty
    {
      SubLifetime(p.model, StateOf(p, t), p.steps[t].exports, k);
    }
  }

  lemma SubSatisfies(sem: Semantics, p: Plan, t: nat, env: Env, i: nat)
    requires ValidPlan(p) && t < |p.steps| && i < |p.steps[t].subModel.operations|
    requires forall j :: 0 <= j < |p.model.operations| ==> Satisfies(sem, p.model, p.model.operations[j], env)
    ensures Satisfies(sem, p.steps[t].subModel, p.steps[t].subModel.operations[i], PullBack(StateOf(p, t), env))
  {
    SubTypes(p, t);
    SubOrderComplete(p, t);
    var j := p.steps[t].order[i];
    assert p.steps[t].subModel.operations[i] == StateOf(p, t).operations[j];
    RenamedSatisfies(sem, p.model, StateOf(p, t), p.steps[t].subModel,
                     p.model.operations[p.stepOps[t][j]], StateOf(p, t).operations[j], env);
  }

  /** Submodel constants are copies of the original ones. */
  lemma SubConstant(sem: Semantics, p: Plan, t: nat, arguments: seq<Bytes>, env: Env, k: nat)
    requires ValidPlan(p) && t < |p.steps| && Solution(sem, p.model, arguments, env)
    requires k < |p.steps[t].subModel.operands| && IsConstant(p.steps[t].subModel.operands[k])
    ensures k in PullBack(StateOf(p, t), env)
    ensures PullBack(StateOf(p, t), env)[k] == p.steps[t].subModel.operands[k].value
  {
    StepFacts(p, t);
    SubLifetime(p.model, StateOf(p, t), p.steps[t].exports, k);
    var o := StateOf(p, t).origins[k].operand;
    ConstantValue(p.model, arguments, o);
  }

  ghost predicate InputsFit(p: Plan, t: nat, env: Env, values: seq<Bytes>)
    requires t < |p.steps|
  {
    && |values| == |InPairs(p.steps[t])|
    && forall i :: 0 <= i < |values| ==> InPairs(p.steps[t])[i].0 in env && values[i] == env[InPairs(p.steps[t])[i].0]
  }

  lemma SubInitial(sem: Semantics, p: Plan, t: nat, arguments: seq<Bytes>, env: Env, values: seq<Bytes>)
    requires ValidPlan(p) && t < |p.steps| && Solution(sem, p.model, arguments, env)
    requires InputsFit(p, t, env, values)
    ensures |values| == |p.steps[t].subModel.inputIndexes|
    ensures Agree(InitialEnv(p.steps[t].subModel, values), PullBack(StateOf(p, t), env))
  {
    assert t < |p.stepOps|;
    hide ValidPlan, Solution, ValidModel, InterfaceListed, InRunOrder, InputsFit, PullBack, InitialEnv;
    SubExecutable(p, t);
    PairOrder(p, t);
    InputsFitLength(p, t, env, values);
    forall k | k in InitialEnv(p.steps[t].subModel, values)
      ensures k in PullBack(StateOf(p, t), env)
      ensures InitialEnv(p.steps[t].subModel, values)[k] == PullBack(StateOf(p, t), env)[k]
    {
      SubInitialAt(sem, p, t, arguments, env, values, k);
    }
  }

  lemma SubInitialAt(sem: Semantics, p: Plan, t: nat, arguments: seq<Bytes>, env: Env, values: seq<Bytes>, k: nat)
    requires ValidPlan(p) && t < |p.steps| && Solution(sem, p.model, arguments, env) && InputsFit(p, t, env, values)
    requires |values| == |p.steps[t].subModel.inputIndexes| && k in InitialEnv(p.steps[t].subModel, values)
    ensures k in PullBack(StateOf(p, t), env)
    ensures PullBack(StateOf(p, t), env)[k] == InitialEnv(p.steps[t].subModel, values)[k]
  {
    hide ValidPlan, Solution, InRange, WrittenOnce, InterfaceListed, InRunOrder, InputsFit, PullBack, InitialEnv;
    var sub := p.steps[t].subModel;
    SubExecutable(p, t);
    ArgumentEnvKeys(sub, values);
    if k in sub.inputIndexes {
      var i :| 0 <= i < |sub.inputIndexes| && sub.inputIndexes[i] == k;
      ArgumentValue(sub, values, i);
      PairOrder(p, t);
      InputsFitLength(p, t, env, values);
      SubArgument(p, t, env, values, i);
    } else {
      SubConstant(sem, p, t, arguments, env, k);
      ConstantValue(sub, values, k);
    }
  }

  lemma InputsFitLength(p: Plan, t: nat, env: Env, values: seq<Bytes>)
    requires t < |p.steps| && InputsFit(p, t, env, values)
    ensures |values| == |InPairs(p.steps[t])|
  {
  }

  /** The argument at position `i` is the value of the operand whose copy is the `i`-th input. */
  lemma SubArgument(p: Plan, t: nat, env: Env, values: seq<Bytes>, i: nat)
    requires ValidPlan(p) && t < |p.steps| && InputsFit(p, t, env, values) && i < |InPairs(p.steps[t])|
    ensures InPairs(p.steps[t])[i].1 in PullBack(StateOf(p, t), env)
    ensures PullBack(StateOf(p, t), env)[InPairs(p.steps[t])[i].1] == values[i]
  {
    hide ValidPlan;
    assert InPairs(p.steps[t])[i] in InPairs(p.steps[t]);
    PairNames(p, t, InPairs(p.steps[t])[i]);
  }

  lemma PlanSatisfied(sem: Semantics, p: Plan, arguments: seq<Bytes>, env: Env)
    requires Solution(sem, p.model, arguments, env)
    ensures forall j :: 0 <= j < |p.model.operations| ==> Satisfies(sem, p.model, p.model.operations[j], env)
    ensures forall o :: 0 <= o < |p.model.operands| ==> o in env
  {
  }

  /** Given the right inputs, a submodel computes the original values. */
  lemma SubMeaning(sem: Semantics, p: Plan, t: nat, arguments: seq<Bytes>, env: Env, values: seq<Bytes>)
    requires ValidPlan(p) && t < |p.steps| && Solution(sem, p.model, arguments, env) && InputsFit(p, t, env, values)
    ensures Executable(p.steps[t].subModel) && |values| == |p.steps[t].subModel.inputIndexes|
    ensures Agree(Meaning(sem, p.steps[t].subModel, values), PullBack(StateOf(p, t), env))
    ensures forall k :: 0 <= k < |p.steps[t].subModel.operands| ==> k in Meaning(sem, p.steps[t].subModel, values)
  {
    assert t < |p.stepOps|;
    PlanSatisfied(sem, p, arguments, env);
    hide ValidPlan, Solution, InputsFit, PullBack, InitialEnv;
    hide ValidModel, InterfaceListed, InRunOrder, Satisfies, Agree, Meaning;
    var sub, back := p.steps[t].subModel, PullBack(StateOf(p, t), env);
    SubExecutable(p, t);
    ModelInRange(sub);
    SubInitial(sem, p, t, arguments, env, values);
    forall j | 0 <= j < |sub.operations| ensures Satisfies(sem, sub, sub.operations[j], back) {
      SubSatisfies(sem, p, t, env, j);
    }
    MeaningUnique(sem, sub, values, back);
    MeaningSatisfies(sem, sub, values);
  }

  lemma ModelInRange(m: Model)
    requires ValidModel(m)
    ensures InRange(m)
  {
  }

  /** Given the right inputs, a step computes the right outputs, in whatever order its submodel was sorted. */
  lemma SubOutputs(sem: Semantics, p: Plan, t: nat, arguments: seq<Bytes>, env: Env, values: seq<Bytes>, i: nat)
    requires ValidPlan(p) && t < |p.steps| && Solution(sem, p.model, arguments, env)
    requires InputsFit(p, t, env, values) && i < |OutPairs(p.steps[t])|
    ensures Executable(p.steps[t].subModel) && |values| == |p.steps[t].subModel.inputIndexes|
    ensures |p.steps[t].subModel.outputIndexes| == |OutPairs(p.steps[t])|
    ensures OutPairs(p.steps[t])[i].0 in env
    ensures OutputValues(sem, p.steps[t].subModel, values)[i] == env[OutPairs(p.steps[t])[i].0]
  {
    PlanSatisfied(sem, p, arguments, env);
    hide ValidPlan, Solution, InputsFit, Executable, Satisfies, Meaning, OutputValues;
    SubMeaning(sem, p, t, arguments, env, values);
    PairOrder(p, t);
    var e := OutPairs(p.steps[t])[i];
    assert e in OutPairs(p.steps[t]);
    PairNames(p, t, e);
    OutputValueAt(sem, p.steps[t].subModel, values, i);
  }

  // ---------------------------------------------------------------- values between steps

  /** Results of fully specified type have the size that the runtime computes for the type. */
  ghost predicate ResultsSized(sem: Semantics) {
    forall code: nat, inTypes, values, outTypes, k: nat :: k < |outTypes| && !HasUnknownSize(outTypes[k]) ==>
      |sem(code, inTypes, values, outTypes, k)| == SizeOfData(outTypes[k])
  }

  /** A plan, its pool, and the values it is to compute. */
  datatype Setting = Setting(sem: Semantics, plan: Plan, offsets: map<nat, nat>, total: nat,
                             arguments: seq<Bytes>, env: Env)

  ghost predicate ValidSetting(c: Setting) {
    && ValidPlan(c.plan)
    && LaidOut(c.plan.model, Crossing(c.plan.steps), c.offsets, c.total)
    && Total(SizesOf(c.plan.model, Crossing(c.plan.steps))) < UINT32_LIMIT
    && Solution(c.sem, c.plan.model, c.arguments, c.env)
    && ResultsSized(c.sem)
  }

  function Original(c: Setting): Model {
    c.plan.model
  }

  /** Some step reads the model output at position `q`. */
  ghost predicate ReadBack(c: Setting, q: nat) {
    exists t :: 0 <= t < |c.plan.steps| && q in c.plan.steps[t].outputsAsInputsIndexes
  }

  /** A model output that some step reads again is in a buffer of exactly its size. */
  ghost predicate ReadBackExact(c: Setting, mem: Memory) {
    forall q: nat :: ReadBack(c, q) ==> ExactBuffer(c, mem, q)
  }

  ghost predicate ExactBuffer(c: Setting, mem: Memory, q: nat) {
    && q < |mem.results| && q < |Original(c).outputIndexes| && Original(c).outputIndexes[q] in c.env
    && |mem.results[q]| == |c.env[Original(c).outputIndexes[q]]|
  }

  /** The arguments are those of the run, and there is a pool and a buffer for every output. */
  ghost predicate MemorySized(c: Setting, mem: Memory) {
    mem.arguments == c.arguments && |mem.pool| == c.total && |mem.results| == |Original(c).outputIndexes|
  }

  ghost predicate MemoryFits(c: Setting, mem: Memory) {
    MemorySized(c, mem) && ReadBackExact(c, mem)
  }

  /** Output buffers of fully specified type have the length that setting an output demands. */
  ghost predicate SpecifiedOutputs(c: Setting, mem: Memory) {
    forall q: nat :: ReadBack(c, q) ==> SpecifiedBuffer(c, mem, q)
  }

  ghost predicate SpecifiedBuffer(c: Setting, mem: Memory, q: nat) {
    && q < |mem.results| && q < |Original(c).outputIndexes| && Original(c).outputIndexes[q] < |Original(c).operands|
    && !HasUnknownSize(Original(c).operands[Original(c).outputIndexes[q]].ty)
    && |mem.results[q]| == SizeOfData(Original(c).operands[Original(c).outputIndexes[q]].ty)
  }

  lemma SpecifiedOutputSized(sem: Semantics, m: Model, arguments: seq<Bytes>, env: Env, q: nat)
    requires ValidModel(m) && Solution(sem, m, arguments, env) && ResultsSized(sem)
    requires q < |m.outputIndexes| && m.outputIndexes[q] < |m.operands|
    requires !HasUnknownSize(m.operands[m.outputIndexes[q]].ty)
    ensures m.outputIndexes[q] in env && |env[m.outputIndexes[q]]| == SizeOfData(m.operands[m.outputIndexes[q]].ty)
  {
    var o := m.outputIndexes[q];
    assert o in m.outputIndexes;
    var j :| 0 <= j < |m.operations| && o in m.operations[j].outputs;
    ResultSized(sem, m, m.operations[j], env, o);
  }

  /** Outputs of fully specified type can be read back. */
  lemma SpecifiedIsExact(c: Setting, mem: Memory)
    requires ValidModel(Original(c)) && Solution(c.sem, Original(c), c.arguments, c.env) && ResultsSized(c.sem)
    requires SpecifiedOutputs(c, mem)
    ensures ReadBackExact(c, mem)
  {
    forall q: nat | ReadBack(c, q) ensures ExactBuffer(c, mem, q) {
      SpecifiedOutputSized(c.sem, Original(c), c.arguments, c.env, q);
    }
  }

  /** Every output of step `d` is where it belongs. */
  ghost predicate Delivered(c: Setting, d: nat, mem: Memory)
    requires d < |c.plan.steps|
  {
    && |OutputLocations(c.plan.steps[d], c.offsets)| == |OutPairs(c.plan.steps[d])|
    && forall k :: 0 <= k < |OutPairs(c.plan.steps[d])| ==>
         && OutPairs(c.plan.steps[d])[k].0 in c.env
         && Holds(mem, OutputLocations(c.plan.steps[d], c.offsets)[k], c.env[OutPairs(c.plan.steps[d])[k].0])
  }

  /** The outputs of all steps before step `t` are where they belong. */
  ghost predicate DeliveredBefore(c: Setting, t: nat, mem: Memory)
    requires t <= |c.plan.steps|
  {
    forall d :: 0 <= d < t ==> Delivered(c, d, mem)
  }

  lemma ResultSized(sem: Semantics, m: Model, op: Operation, env: Env, o: nat)
    requires ResultsSized(sem) && Satisfies(sem, m, op, env) && o in op.outputs
    requires o < |m.operands| && !HasUnknownSize(m.operands[o].ty)
    ensures o in env && |env[o]| == SizeOfData(m.operands[o].ty)
  {
    var k :| 0 <= k < |op.outputs| && op.outputs[k] == o;
    assert env[op.outputs[k]] == ResultOf(sem, m, op, env, k);
    assert TypesOf(m, op.outputs)[k] == m.operands[o].ty;
  }

  lemma ExportKnown(p: Plan, d: nat, e: (nat, nat)) returns (j: nat)
    requires ValidPlan(p) && d < |p.steps| && e in p.steps[d].exports
    ensures e.0 < |p.model.operands| && !HasUnknownSize(p.model.operands[e.0].ty)
    ensures j < |p.model.operations| && e.0 in p.model.operations[j].outputs
  {
    ExportDefined(p, d, e);
    StepFacts(p, d);
    assert !UnknownExport(p.model, p.steps[d].exports);
    assert e.0 in Outs(p.model, p.stepOps[d]);
    j :| j in p.stepOps[d] && e.0 in OutputsOf(p.model, j);
  }

  /** A value that is exported has the size of its type. */
  lemma ExportSized(c: Setting, d: nat, e: (nat, nat))
    requires ValidSetting(c) && d < |c.plan.steps| && e in c.plan.steps[d].exports
    ensures e.0 < |Original(c).operands| && e.0 in c.env && |c.env[e.0]| == SizeOfData(Original(c).operands[e.0].ty)
  {
    var j := ExportKnown(c.plan, d, e);
    ResultSized(c.sem, Original(c), Original(c).operations[j], c.env, e.0);
  }

  lemma ExportPosition(p: Plan, d: nat, x: (nat, nat)) returns (k: nat)
    requires ValidPlan(p) && d < |p.steps| && x in p.steps[d].exports
    ensures |p.steps[d].roles.modelOutputs| <= k < |OutPairs(p.steps[d])| && OutPairs(p.steps[d])[k] == x
  {
    hide ValidPlan;
    var r := p.steps[d];
    var i :| 0 <= i < |r.exports| && r.exports[i] == x;
    k := |r.roles.modelOutputs| + i;
  }

  /** A value that fills the place it is in. */
  lemma ExactRead(mem: Memory, loc: Location, value: Bytes)
    requires Holds(mem, loc, value) && |Read(mem, loc)| == |value|
    ensures Read(mem, loc) == value
  {
    assert Read(mem, loc)[..|value|] == Read(mem, loc);
  }

  /** A model output that a step reads is written by an earlier step, as a model output. */
  lemma OutputDefinedEarlier(p: Plan, t: nat, e: (nat, nat)) returns (d: nat, k: nat)
    requires ValidPlan(p) && t < |p.steps| && e in p.steps[t].roles.outputsAsSubModelInputs
    ensures d < t && k < |p.steps[d].roles.modelOutputs| && p.steps[d].roles.modelOutputs[k].0 == e.0
  {
    var m := p.model;
    StepFacts(p, t);
    PickMember(m, StateOf(p, t).origins, ModelOutput, Input, e);
    d := DefinedEarlier(m, p.stepOps, t, e.1);
    StepFacts(p, d);
    KindsExact(m, p.stepOps[d]);
    var s := StateOf(p, d);
    var x := (e.0, s.operandMap[e.0]);
    PickMember(m, s.origins, ModelOutput, Output, x);
    k :| 0 <= k < |s.roles.modelOutputs| && s.roles.modelOutputs[k] == x;
  }

  /** What was delivered is what is read. */
  lemma DeliveredIsRead(c: Setting, d: nat, k: nat, loc: Location, mem: Memory)
    requires ValidSetting(c) && d < |c.plan.steps| && Delivered(c, d, mem)
    requires k < |OutPairs(c.plan.steps[d])|
    requires Home(Original(c), c.offsets, OutPairs(c.plan.steps[d])[k].0, loc)
    requires if k < |c.plan.steps[d].roles.modelOutputs| then loc.Result? else loc.Pool?
    ensures OutPairs(c.plan.steps[d])[k].0 in c.env
    ensures Holds(mem, loc, c.env[OutPairs(c.plan.steps[d])[k].0])
  {
    OutputHome(c.plan, c.offsets, c.total, d, k);
    HomeUnique(Original(c), c.offsets, OutPairs(c.plan.steps[d])[k].0, loc,
               OutputLocations(c.plan.steps[d], c.offsets)[k]);
  }

  lemma ReadTemporary(c: Setting, t: nat, e: (nat, nat), loc: Location, mem: Memory)
    requires ValidSetting(c) && MemorySized(c, mem) && t < |c.plan.steps| && DeliveredBefore(c, t, mem)
    requires e in c.plan.steps[t].roles.tempsAsSubModelInputs
    requires Home(Original(c), c.offsets, e.0, loc) && loc.Pool?
    ensures e.0 in c.env && Read(mem, loc) == c.env[e.0]
  {
    hide ValidPlan, LaidOut, Solution, ResultsSized, Delivered;
    var d, x := TemporaryExported(c.plan, t, e);
    var k := ExportPosition(c.plan, d, x);
    assert Delivered(c, d, mem);
    DeliveredIsRead(c, d, k, loc, mem);
    ExportSized(c, d, x);
    HomeInside(Original(c), Crossing(c.plan.steps), c.offsets, c.total, e.0, loc);
    ExactRead(mem, loc, c.env[e.0]);
  }

  /** The buffer of a model output that a step reads holds the value of the output. */
  lemma OutputStored(c: Setting, t: nat, e: (nat, nat), loc: Location, mem: Memory)
    requires ValidSetting(c) && t < |c.plan.steps| && DeliveredBefore(c, t, mem)
    requires e in c.plan.steps[t].roles.outputsAsSubModelInputs
    requires Home(Original(c), c.offsets, e.0, loc) && loc.Result?
    ensures e.0 in c.env && Holds(mem, loc, c.env[e.0])
  {
    hide ValidPlan, LaidOut, Solution, ResultsSized, Delivered;
    var d, k := OutputDefinedEarlier(c.plan, t, e);
    assert OutPairs(c.plan.steps[d])[k].0 == e.0;
    assert Delivered(c, d, mem);
    DeliveredIsRead(c, d, k, loc, mem);
  }

  /** A held value is read back as it is exactly when the place is no longer than the value. */
  lemma HeldIsRead(mem: Memory, loc: Location, value: Bytes)
    requires Holds(mem, loc, value)
    ensures Read(mem, loc) == value <==> |Read(mem, loc)| == |value|
  {
    if |Read(mem, loc)| == |value| { ExactRead(mem, loc, value); }
  }

  lemma ReadArgument(c: Setting, o: nat, loc: Location, mem: Memory)
    requires ValidSetting(c) && MemorySized(c, mem) && Home(Original(c), c.offsets, o, loc) && loc.Argument?
    ensures o in c.env && Read(mem, loc) == c.env[o]
  {
    hide LaidOut, ResultsSized, InterfaceListed, InRunOrder, InRange, WrittenOnce, Satisfies;
    ArgumentValue(Original(c), c.arguments, loc.index);
  }

  /** What a step finds at an input is the original value, except that a model output which is read again
    * has to be in a buffer of exactly its size. */
  lemma ReadBackIffExact(c: Setting, t: nat, i: nat, mem: Memory)
    requires ValidSetting(c) && MemorySized(c, mem) && t < |c.plan.steps| && DeliveredBefore(c, t, mem)
    requires i < |InPairs(c.plan.steps[t])|
    ensures |InputLocations(c.plan.steps[t], c.offsets)| == |InPairs(c.plan.steps[t])|
    ensures InPairs(c.plan.steps[t])[i].0 in c.env
    ensures var loc := InputLocations(c.plan.steps[t], c.offsets)[i];
            Read(mem, loc) == c.env[InPairs(c.plan.steps[t])[i].0] <==> (loc.Result? ==> ExactBuffer(c, mem, loc.index))
  {
    hide ValidPlan, LaidOut, Solution, ResultsSized, DeliveredBefore;
    InputHome(c.plan, c.offsets, c.total, t, i);
    var e, loc := InPairs(c.plan.steps[t])[i], InputLocations(c.plan.steps[t], c.offsets)[i];
    match loc
    case Argument(_) => ReadArgument(c, e.0, loc, mem);
    case Result(_) =>
      OutputStored(c, t, e, loc, mem);
      HeldIsRead(mem, loc, c.env[e.0]);
    case Pool(_, _) => ReadTemporary(c, t, e, loc, mem);
    case Unspecified =>
  }

  /** A step finds the right value at each of its inputs. */
  lemma InputRight(c: Setting, t: nat, i: nat, mem: Memory)
    requires ValidSetting(c) && MemoryFits(c, mem) && t < |c.plan.steps| && DeliveredBefore(c, t, mem)
    requires i < |InPairs(c.plan.steps[t])|
    ensures |InputLocations(c.plan.steps[t], c.offsets)| == |InPairs(c.plan.steps[t])|
    ensures InPairs(c.plan.steps[t])[i].0 in c.env
    ensures Read(mem, InputLocations(c.plan.steps[t], c.offsets)[i]) == c.env[InPairs(c.plan.steps[t])[i].0]
  {
    hide ValidPlan, LaidOut, Solution, ResultsSized, DeliveredBefore, ExactBuffer;
    ReadBackIffExact(c, t, i, mem);
    InputHome(c.plan, c.offsets, c.total, t, i);
    var loc := InputLocations(c.plan.steps[t], c.offsets)[i];
    if loc.Result? { assert ReadBack(c, loc.index); }
  }

  /** A step finds everything it reads exactly when the model outputs among it are in buffers of exactly
    * their size. */
  lemma StepReadsRightIff(c: Setting, t: nat, mem: Memory)
    requires ValidSetting(c) && MemorySized(c, mem) && t < |c.plan.steps| && DeliveredBefore(c, t, mem)
    ensures InputsFit(c.plan, t, c.env, ReadAll(mem, InputLocations(c.plan.steps[t], c.offsets))) <==>
            forall q: nat :: q in c.plan.steps[t].outputsAsInputsIndexes ==> ExactBuffer(c, mem, q)
  {
    hide ValidPlan, LaidOut, Solution, ResultsSized, DeliveredBefore, ExactBuffer;
    var r := c.plan.steps[t];
    var locs := InputLocations(r, c.offsets);
    StepRoutable(c.plan, c.offsets, c.total, t);
    StepLists(c.plan, t);
    forall i | 0 <= i < |InPairs(r)|
      ensures InPairs(r)[i].0 in c.env
      ensures Read(mem, locs[i]) == c.env[InPairs(r)[i].0] <==> (locs[i].Result? ==> ExactBuffer(c, mem, locs[i].index))
      ensures locs[i].Result? ==> locs[i].index in r.outputsAsInputsIndexes
    {
      ReadBackIffExact(c, t, i, mem);
      InputHome(c.plan, c.offsets, c.total, t, i);
    }
    forall q | q in r.outputsAsInputsIndexes ensures exists i :: 0 <= i < |locs| && locs[i] == Result(q) {
      var i :| 0 <= i < |r.outputsAsInputsIndexes| && r.outputsAsInputsIndexes[i] == q;
      var at := |r.roles.modelInputs| + |r.roles.tempsAsSubModelInputs| + i;
      InputAt(r, c.offsets, at);
      assert locs[at] == Result(q);
    }
  }

  lemma InputsRight(c: Setting, t: nat, mem: Memory)
    requires ValidSetting(c) && MemoryFits(c, mem) && t < |c.plan.steps| && DeliveredBefore(c, t, mem)
    ensures InputsFit(c.plan, t, c.env, ReadAll(mem, InputLocations(c.plan.steps[t], c.offsets)))
  {
    StepRoutable(c.plan, c.offsets, c.total, t);
    assert |InputLocations(c.plan.steps[t], c.offsets)| == |InPairs(c.plan.steps[t])|;
    forall i | 0 <= i < |InPairs(c.plan.steps[t])|
      ensures InPairs(c.plan.steps[t])[i].0 in c.env
      ensures Read(mem, InputLocations(c.plan.steps[t], c.offsets)[i]) == c.env[InPairs(c.plan.steps[t])[i].0]
    {
      InputRight(c, t, i, mem);
    }
  }

  // ---------------------------------------------------------------- one step

  ghost predicate StepExecuted(c: Setting, t: nat, before: Memory, after: Memory)
    requires t < |c.plan.steps|
  {
    Executed(c.sem, c.plan.steps[t].subModel, InputLocations(c.plan.steps[t], c.offsets),
             OutputLocations(c.plan.steps[t], c.offsets), before, after)
  }

  /** A step that found the original values delivers its outputs. */
  lemma FittingStepDelivers(c: Setting, t: nat, before: Memory, after: Memory)
    requires ValidSetting(c) && t < |c.plan.steps| && StepExecuted(c, t, before, after)
    requires InputsFit(c.plan, t, c.env, ReadAll(before, InputLocations(c.plan.steps[t], c.offsets)))
    ensures Delivered(c, t, after)
  {
    hide ValidPlan, LaidOut, Solution, ResultsSized, Executable, OutputValues, InputsFit;
    var r := c.plan.steps[t];
    var values := ReadAll(before, InputLocations(r, c.offsets));
    StepRoutable(c.plan, c.offsets, c.total, t);
    assert |OutputLocations(r, c.offsets)| == |OutPairs(r)|;
    forall k | 0 <= k < |OutPairs(r)|
      ensures OutPairs(r)[k].0 in c.env
      ensures Holds(after, OutputLocations(r, c.offsets)[k], c.env[OutPairs(r)[k].0])
    {
      SubOutputs(c.sem, c.plan, t, c.arguments, c.env, values, k);
    }
  }

  /** A step that succeeds delivers its outputs. */
  lemma StepDelivers(c: Setting, t: nat, before: Memory, after: Memory)
    requires ValidSetting(c) && MemoryFits(c, before) && t < |c.plan.steps| && DeliveredBefore(c, t, before)
    requires StepExecuted(c, t, before, after)
    ensures Delivered(c, t, after)
  {
    hide ValidSetting, MemoryFits, DeliveredBefore, StepExecuted, InputsFit;
    InputsRight(c, t, before);
    FittingStepDelivers(c, t, before, after);
  }

  /** It overwrites nothing that earlier steps delivered. */
  lemma StepKeeps(c: Setting, t: nat, d: nat, before: Memory, after: Memory)
    requires ValidSetting(c) && d < t < |c.plan.steps| && Delivered(c, d, before)
    requires Confined(before, after, OutputLocations(c.plan.steps[t], c.offsets))
    ensures Delivered(c, d, after)
  {
    var r, outs := c.plan.steps[d], OutputLocations(c.plan.steps[t], c.offsets);
    StepRoutable(c.plan, c.offsets, c.total, t);
    forall k | 0 <= k < |OutPairs(r)|
      ensures Read(after, OutputLocations(r, c.offsets)[k]) == Read(before, OutputLocations(r, c.offsets)[k])
    {
      OutputHome(c.plan, c.offsets, c.total, d, k);
      forall l | 0 <= l < |outs| ensures Disjoint(OutputLocations(r, c.offsets)[k], outs[l]) {
        OutputHome(c.plan, c.offsets, c.total, t, l);
        OutputsApart(c.plan, d, k, t, l);
        HomesDisjoint(Original(c), Crossing(c.plan.steps), c.offsets, c.total,
                      OutPairs(r)[k].0, OutPairs(c.plan.steps[t])[l].0, OutputLocations(r, c.offsets)[k], outs[l]);
      }
      ReadUnchanged(before, after, outs, OutputLocations(r, c.offsets)[k]);
    }
  }

  lemma FitsStill(c: Setting, before: Memory, after: Memory, outs: seq<Location>)
    requires MemoryFits(c, before) && Confined(before, after, outs)
    ensures MemoryFits(c, after)
  {
    forall q: nat | ReadBack(c, q) ensures ExactBuffer(c, after, q) {
      assert ExactBuffer(c, before, q);
    }
  }

  /** An attempt at a step, successful or not, keeps what earlier steps delivered. */
  lemma AttemptKeeps(c: Setting, t: nat, before: Memory, after: Memory)
    requires ValidSetting(c) && MemoryFits(c, before) && t < |c.plan.steps| && DeliveredBefore(c, t, before)
    requires Confined(before, after, OutputLocations(c.plan.steps[t], c.offsets))
    ensures MemoryFits(c, after) && DeliveredBefore(c, t, after)
  {
    FitsStill(c, before, after, OutputLocations(c.plan.steps[t], c.offsets));
    forall d | 0 <= d < t ensures Delivered(c, d, after) { StepKeeps(c, t, d, before, after); }
  }

  lemma StepAdvances(c: Setting, t: nat, before: Memory, after: Memory)
    requires ValidSetting(c) && MemoryFits(c, before) && t < |c.plan.steps| && DeliveredBefore(c, t, before)
    requires StepExecuted(c, t, before, after)
    ensures MemoryFits(c, after) && DeliveredBefore(c, t + 1, after)
  {
    StepDelivers(c, t, before, after);
    AttemptKeeps(c, t, before, after);
  }

  /** No input of a step is among its outputs, so a step can be attempted again. */
  lemma StepCanBeRetried(c: Setting, t: nat)
    requires ValidSetting(c) && t < |c.plan.steps|
    ensures forall i, k :: 0 <= i < |InputLocations(c.plan.steps[t], c.offsets)| &&
                           0 <= k < |OutputLocations(c.plan.steps[t], c.offsets)| ==>
              Disjoint(InputLocations(c.plan.steps[t], c.offsets)[i], OutputLocations(c.plan.steps[t], c.offsets)[k])
  {
    var r := c.plan.steps[t];
    var ins, outs := InputLocations(r, c.offsets), OutputLocations(r, c.offsets);
    StepRoutable(c.plan, c.offsets, c.total, t);
    forall i, k | 0 <= i < |ins| && 0 <= k < |outs| ensures Disjoint(ins[i], outs[k]) {
      InputHome(c.plan, c.offsets, c.total, t, i);
      OutputHome(c.plan, c.offsets, c.total, t, k);
      InputsApart(c.plan, t, i, k);
      HomesDisjoint(Original(c), Crossing(c.plan.steps), c.offsets, c.total,
                    InPairs(r)[i].0, OutPairs(r)[k].0, ins[i], outs[k]);
    }
  }

  /** Retry safety: whatever a failed attempt wrote into the outputs of a step, an attempt that succeeds
    * afterwards does what it would have done without the failed one. */
  lemma RetryIsUndisturbed(c: Setting, t: nat, before: Memory, scribbled: Memory, after: Memory)
    requires ValidSetting(c) && t < |c.plan.steps|
    requires Confined(before, scribbled, OutputLocations(c.plan.steps[t], c.offsets))
    requires StepExecuted(c, t, scribbled, after)
    ensures StepExecuted(c, t, before, after)
  {
    StepCanBeRetried(c, t);
    RetryAfterScribbling(c.sem, c.plan.steps[t].subModel, InputLocations(c.plan.steps[t], c.offsets),
                         OutputLocations(c.plan.steps[t], c.offsets), before, scribbled, after);
  }

  // ---------------------------------------------------------------- the whole plan

  /** Each output buffer of the caller holds the value of its output. */
  ghost predicate OutputsHold(m: Model, env: Env, mem: Memory) {
    && |mem.results| == |m.outputIndexes|
    && forall q :: 0 <= q < |m.outputIndexes| ==>
         m.outputIndexes[q] in env && Holds(mem, Result(q), env[m.outputIndexes[q]])
  }

  /** Every model output is written by some step. */
  lemma OutputWriter(p: Plan, q: nat) returns (d: nat)
    requires ValidPlan(p) && q < |p.model.outputIndexes|
    ensures d < |p.steps| && p.model.outputIndexes[q] in Outs(p.model, p.stepOps[d])
    ensures HasLifeTime(p.model, p.model.outputIndexes[q], ModelOutput)
  {
    var m := p.model;
    var o := m.outputIndexes[q];
    hide InRunOrder, InterfaceListed, InRange, AllRead, OnOneDevice, PlanFinished, SomeUnknownExport, DefsExact;
    assert o in m.outputIndexes;
    var j :| 0 <= j < |m.operations| && o in m.operations[j].outputs;
    RunOrderCovers(m, Flatten(p.stepOps), Identity(|m.operations|), |m.operations|);
    assert Identity(|m.operations|)[j] == j;
    assert o in OutputsOf(m, j) && j in Flatten(p.stepOps);
    d := WriterStep(m, p.stepOps, o);
  }

  /** It is written as a model output. */
  lemma OutputDelivered(p: Plan, q: nat) returns (d: nat, k: nat)
    requires ValidPlan(p) && q < |p.model.outputIndexes|
    ensures d < |p.steps| && k < |p.steps[d].roles.modelOutputs|
    ensures p.steps[d].roles.modelOutputs[k].0 == p.model.outputIndexes[q]
  {
    var m := p.model;
    var o := m.outputIndexes[q];
    d := OutputWriter(p, q);
    StepFacts(p, d);
    KindsExact(m, p.stepOps[d]);
    hide ValidPlan, BuildStep;
    var s := StateOf(p, d);
    var x := (o, s.operandMap[o]);
    PickMember(m, s.origins, ModelOutput, Output, x);
    k :| 0 <= k < |s.roles.modelOutputs| && s.roles.modelOutputs[k] == x;
  }

  /** When every step has delivered, the caller's buffers hold the outputs of the original model. */
  lemma PlanDelivers(c: Setting, mem: Memory)
    requires ValidSetting(c) && MemoryFits(c, mem) && DeliveredBefore(c, |c.plan.steps|, mem)
    ensures OutputsHold(Original(c), c.env, mem)
  {
    forall q | 0 <= q < |Original(c).outputIndexes|
      ensures Original(c).outputIndexes[q] in c.env && Holds(mem, Result(q), c.env[Original(c).outputIndexes[q]])
    {
      var d, k := OutputDelivered(c.plan, q);
      assert OutPairs(c.plan.steps[d])[k] == c.plan.steps[d].roles.modelOutputs[k];
      DeliveredIsRead(c, d, k, Result(q), mem);
    }
  }

  /** Memory before, between and after the steps of a run in which every step succeeds. */
  ghost predicate IsRun(c: Setting, states: seq<Memory>) {
    && |states| == |c.plan.steps| + 1
    && forall t :: 0 <= t < |c.plan.steps| ==> StepExecuted(c, t, states[t], states[t+1])
  }

  lemma {:induction false} RunDelivers(c: Setting, states: seq<Memory>, t: nat)
    requires ValidSetting(c) && IsRun(c, states) && MemoryFits(c, states[0]) && t <= |c.plan.steps|
    ensures MemoryFits(c, states[t]) && DeliveredBefore(c, t, states[t])
  {
    hide ValidSetting, Delivered, MemoryFits, StepExecuted;
    if t > 0 {
      RunDelivers(c, states, t - 1);
      StepAdvances(c, t - 1, states[t-1], states[t]);
    }
  }

  lemma MeaningIsSolution(sem: Semantics, m: Model, arguments: seq<Bytes>)
    requires Executable(m) && |arguments| == |m.inputIndexes|
    ensures Solution(sem, m, arguments, Meaning(sem, m, arguments))
  {
    MeaningSatisfies(sem, m, arguments);
  }

  /** Partitioned execution preserves meaning: running the steps one after the other, each in the order
    * its own submodel was sorted into, leaves in every output buffer what the whole model computes. */
  lemma PartitionedExecutionPreservesMeaning(sem: Semantics, p: Plan, offsets: map<nat, nat>, total: nat,
                                             arguments: seq<Bytes>, states: seq<Memory>)
    requires ValidPlan(p) && LaidOut(p.model, Crossing(p.steps), offsets, total)
    requires Total(SizesOf(p.model, Crossing(p.steps))) < UINT32_LIMIT
    requires ResultsSized(sem) && |arguments| == |p.model.inputIndexes|
    requires var c := Setting(sem, p, offsets, total, arguments, Meaning(sem, p.model, arguments));
             IsRun(c, states) && MemoryFits(c, states[0])
    ensures OutputsHold(p.model, Meaning(sem, p.model, arguments), states[|p.steps|])
  {
    PlanModel(p);
    MeaningIsSolution(sem, p.model, arguments);
    hide ValidPlan, LaidOut, Solution, IsRun, MemoryFits, DeliveredBefore, OutputsHold, ResultsSized, Meaning;
    var c := Setting(sem, p, offsets, total, arguments, Meaning(sem, p.model, arguments));
    RunDelivers(c, states, |p.steps|);
    PlanDelivers(c, states[|p.steps|]);
  }
}
