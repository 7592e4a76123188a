/** Finishing a compound plan: exports, submodels, and what the finished steps are. */
module PlanFinishing {
  import opened Sequences
  import opened Models
  import opened Validation
  import opened RunOrder
  import opened ModelBuilding
  import opened Cycles
  import opened Sorting
  import opened SubModels
  import opened Stepping
  import opened Partitioning
  import opened Boundary
  import opened Exporting
  import opened Finishing

  /** A step as execution sees it. */
  datatype FinishedStep = FinishedStep(device: nat, subModel: Model, order: seq<nat>,
                                       roles: Roles, exports: RemapVector,
                                       inputIndexes: seq<nat>, outputIndexes: seq<nat>,
                                       outputsAsInputsIndexes: seq<nat>)

  ghost predicate StepFinished(m: Model, ops: seq<nat>, device: nat, exports: RemapVector, r: FinishedStep) {
    var sub := SubModelOf(BuildStep(m, ops), exports);
    && r.device == device && r.roles == BuildStep(m, ops).roles && r.exports == exports
    && IsRunOrder(sub, r.order) && r.subModel == Reordered(sub, r.order)
    && IndexesName(r.roles.modelInputs, r.inputIndexes, m.inputIndexes)
    && IndexesName(r.roles.modelOutputs, r.outputIndexes, m.outputIndexes)
    && IndexesName(r.roles.outputsAsSubModelInputs, r.outputsAsInputsIndexes, m.outputIndexes)
  }

  predicate UnknownExport(m: Model, exports: RemapVector) {
    exists e :: e in exports && e.0 < |m.operands| && HasUnknownSize(m.operands[e.0].ty)
  }

  /** What step `t` hands to other steps. */
  function ExportsOf(m: Model, stepOps: seq<seq<nat>>, defs: map<nat, nat>, t: nat): RemapVector
    requires t < |stepOps|
  {
    Exported(defs, BuildStep(m, stepOps[t]).operandMap, t, Requests(m, stepOps))
  }

  /** Some of the first `n` steps exports a temporary whose size is only known at run time. */
  ghost predicate SomeUnknownExport(m: Model, stepOps: seq<seq<nat>>, defs: map<nat, nat>, n: nat)
    requires n <= |stepOps|
  {
    exists t :: 0 <= t < n && UnknownExport(m, ExportsOf(m, stepOps, defs, t))
  }

  lemma SomeUnknownNext(m: Model, stepOps: seq<seq<nat>>, defs: map<nat, nat>, n: nat)
    requires n < |stepOps|
    ensures SomeUnknownExport(m, stepOps, defs, n + 1) <==>
            SomeUnknownExport(m, stepOps, defs, n) || UnknownExport(m, ExportsOf(m, stepOps, defs, n))
  {
    hide UnknownExport, ExportsOf;
  }

  /** Every operation reads something. */
  ghost predicate AllRead(m: Model) {
    forall j :: 0 <= j < |m.operations| ==> m.operations[j].inputs != []
  }

  lemma StepExportsFit(m: Model, stepOps: seq<seq<nat>>, defs: map<nat, nat>, t: nat)
    requires t < |stepOps| && DefsExact(m, stepOps, defs)
    requires Maps(m, BuildStep(m, stepOps[t])) && KindsMatch(BuildStep(m, stepOps[t]), Outs(m, stepOps[t]))
    ensures ExportsFit(m, BuildStep(m, stepOps[t]), ExportsOf(m, stepOps, defs, t))
  {
    var s := BuildStep(m, stepOps[t]);
    ExportedExact(defs, s.operandMap, t, Requests(m, stepOps));
  }

  /** Every step of a partition is ready to be finished. */
  lemma PartitionStepComplete(m: Model, best: seq<nat>, stepOps: seq<seq<nat>>, devices: seq<nat>, defs: map<nat, nat>,
                              t: nat)
    requires InRange(m) && WrittenOnce(m) && IsPartition(m, best, stepOps, devices) && DefsExact(m, stepOps, defs)
    requires t < |stepOps|
    ensures StepComplete(m, stepOps[t], BuildStep(m, stepOps[t]), ExportsOf(m, stepOps, defs, t))
  {
    PartitionStepFresh(m, stepOps, t);
    BuildStepFacts(m, stepOps[t]);
    KindsExact(m, stepOps[t]);
    StepExportsFit(m, stepOps, defs, t);
  }

  lemma InterfaceIsTemporary(m: Model, s: StepState, exports: RemapVector, k: nat)
    requires OperandFacts(m, s) && ExportsFit(m, s, exports)
    requires k in InputList(s.roles) + OutputList(s.roles, exports)
    ensures k < |s.operands| && s.operands[k].lifetime.TemporaryVariable?
  {
    InputMember(m, s, k);
    OutputMember(m, s, exports, k);
    if (s.origins[k].operand, k) in exports { assert HasLifeTime(m, s.origins[k].operand, TemporaryVariable); }
  }

  lemma RolesListed(m: Model, s: StepState)
    requires InterfaceListed(m) && s.roles == RolesOf(m, s.origins)
    ensures forall e :: e in s.roles.modelInputs ==> e.0 in m.inputIndexes
    ensures forall e :: e in s.roles.modelOutputs || e in s.roles.outputsAsSubModelInputs ==> e.0 in m.outputIndexes
  {
    forall e | e in s.roles.modelInputs ensures e.0 in m.inputIndexes {
      PickMember(m, s.origins, ModelInput, Input, e);
    }
    forall e | e in s.roles.modelOutputs ensures e.0 in m.outputIndexes {
      PickMember(m, s.origins, ModelOutput, Output, e);
    }
    forall e | e in s.roles.outputsAsSubModelInputs ensures e.0 in m.outputIndexes {
      PickMember(m, s.origins, ModelOutput, Input, e);
    }
  }

  lemma SubOperandsAdmitted(rules: TypeRules, m: Model, s: StepState, exports: RemapVector)
    requires Imported(m, s) && OperandsAdmitted(rules, m)
    ensures OperandsAdmitted(rules, SubModelOf(s, exports))
  {
    forall k | 0 <= k < |s.operands| ensures OperandAdmitted(rules, SubModelOf(s, exports).operands[k]) {
      assert OperandAdmitted(rules, m.operands[s.origins[k].operand]);
    }
  }

  lemma SubOperationsTyped(rules: TypeRules, m: Model, ops: seq<nat>, s: StepState, exports: RemapVector)
    requires OperandFacts(m, s) && OperationsRenamed(m, ops, s) && OperationsTyped(rules, m)
    ensures OperationsTyped(rules, SubModelOf(s, exports))
  {
    var sub := SubModelOf(s, exports);
    forall i | 0 <= i < |ops| ensures Typed(rules, sub, sub.operations[i]) {
      var op := m.operations[ops[i]];
      assert Typed(rules, m, op) && Renames(op, s.operations[i], s.operandMap);
      var view := Model(s.operands, s.operations, [], []);
      TranslatedTyped(rules, m, s, op, view);
      assert TypesOf(sub, s.operations[i].inputs) == TypesOf(view, s.operations[i].inputs);
      assert TypesOf(sub, s.operations[i].outputs) == TypesOf(view, s.operations[i].outputs);
    }
  }

  /** Everything that finishing the submodel of a step asks for. */
  lemma SubModelReady(rules: TypeRules, m: Model, ops: seq<nat>, s: StepState, exports: RemapVector)
    requires ValidModel(m) && InterfaceListed(m) && AllRead(m) && Admitted(rules, m)
    requires StepComplete(m, ops, s, exports)
    ensures ValidModel(SubModelOf(s, exports))
    ensures OperandsAdmitted(rules, SubModelOf(s, exports)) && OperationsTyped(rules, SubModelOf(s, exports))
    ensures forall k :: k in InputList(s.roles) + OutputList(s.roles, exports) ==>
              k < |s.operands| && s.operands[k].lifetime.TemporaryVariable?
    ensures NoDup(InputList(s.roles) + OutputList(s.roles, exports))
    ensures forall e :: e in s.roles.modelInputs ==> e.0 in m.inputIndexes
    ensures forall e :: e in s.roles.modelOutputs || e in s.roles.outputsAsSubModelInputs ==> e.0 in m.outputIndexes
    ensures forall e :: e in exports ==> e.1 < |s.operands|
  {
    SubModelValid(m, ops, s, exports);
    SubOperandsAdmitted(rules, m, s, exports);
    SubOperationsTyped(rules, m, ops, s, exports);
    forall k | k in InputList(s.roles) + OutputList(s.roles, exports)
      ensures k < |s.operands| && s.operands[k].lifetime.TemporaryVariable?
    {
      InterfaceIsTemporary(m, s, exports, k);
    }
    InterfaceNoDup(m, s, exports);
    RolesListed(m, s);
  }

  /** Whether a size is known shows in the copies as well as in the originals. */
  lemma UnknownInSubModel(m: Model, s: StepState, exports: RemapVector)
    requires Imported(m, s) && ExportsFit(m, s, exports)
    ensures (exists e :: e in exports && HasUnknownSize(s.operands[e.1].ty)) <==> UnknownExport(m, exports)
  {
    forall e | e in exports
      ensures e.1 < |s.operands| && e.0 < |m.operands| && s.operands[e.1].ty == m.operands[e.0].ty
    {
    }
  }

  method FinishStep(m: Model, step: ExecutionStep, hasOutputOfUnknownSize: bool,
                    ghost ops: seq<nat>, ghost exports: RemapVector)
    returns (r: FinishedStep, unknown: bool, code: ResultCode)
    requires ValidModel(m) && InterfaceListed(m) && AllRead(m)
    requires StepComplete(m, ops, BuildStep(m, ops), exports) && Admitted(step.subModel.rules, m)
    requires step.Building() && step.State() == BuildStep(m, ops) && step.tempsAsSubModelOutputs == exports
    modifies step.subModel, step`inputIndexSubModelToFromModel, step`outputIndexSubModelToFromModel,
             step`outputsAsSubModelInputsIndexToFromModel
    ensures code == NoError && StepFinished(m, ops, step.device, exports, r)
    ensures unknown <==> (hasOutputOfUnknownSize || UnknownExport(m, exports))
  {
    ghost var s := BuildStep(m, ops);
    SubModelReady(step.subModel.rules, m, ops, s, exports);
    UnknownInSubModel(m, s, exports);
    hide ValidModel, InterfaceListed, AllRead, Admitted, StepComplete, IsRunOrder, BuildStep, UnknownExport;
    unknown, code := step.FinishSubModel(m, hasOutputOfUnknownSize);
    r := FinishedStep(step.device, step.subModel.View(), step.subModel.sortedOperationIndexMap,
                      Roles(step.modelInputs, step.modelOutputs, step.tempsAsSubModelInputs,
                            step.outputsAsSubModelInputs),
                      step.tempsAsSubModelOutputs, step.inputIndexSubModelToFromModel,
                      step.outputIndexSubModelToFromModel, step.outputsAsSubModelInputsIndexToFromModel);
  }

  /** The finished steps of a plan. */
  ghost predicate PlanFinished(m: Model, stepOps: seq<seq<nat>>, devices: seq<nat>, defs: map<nat, nat>,
                               finished: seq<FinishedStep>) {
    && |finished| <= |stepOps| && |devices| == |stepOps|
    && forall t :: 0 <= t < |finished| ==>
         StepFinished(m, stepOps[t], devices[t], ExportsOf(m, stepOps, defs, t), finished[t])
  }

  lemma NothingFinished(m: Model, stepOps: seq<seq<nat>>, devices: seq<nat>, defs: map<nat, nat>)
    requires |devices| == |stepOps|
    ensures PlanFinished(m, stepOps, devices, defs, []) && !SomeUnknownExport(m, stepOps, defs, 0)
  {
  }

  lemma PlanFinishedAppend(m: Model, stepOps: seq<seq<nat>>, devices: seq<nat>, defs: map<nat, nat>,
                           finished: seq<FinishedStep>, r: FinishedStep)
    requires PlanFinished(m, stepOps, devices, defs, finished) && |finished| < |stepOps|
    requires StepFinished(m, stepOps[|finished|], devices[|finished|], ExportsOf(m, stepOps, defs, |finished|), r)
    ensures PlanFinished(m, stepOps, devices, defs, finished + [r])
  {
  }

  /** Steps that have not been finished are as they were built. */
  ghost predicate StepsWait(m: Model, steps: seq<ExecutionStep>, stepOps: seq<seq<nat>>, devices: seq<nat>,
                            defs: map<nat, nat>, from: nat)
    reads set i | 0 <= i < |steps| :: steps[i], set i | 0 <= i < |steps| :: steps[i].subModel
  {
    && |steps| == |stepOps| == |devices|
    && forall t :: from <= t < |steps| ==>
         && StepHolds(m, steps[t], t, stepOps[t], devices[t])
         && steps[t].tempsAsSubModelOutputs == ExportsOf(m, stepOps, defs, t)
  }

  lemma StepsExportWait(m: Model, steps: seq<ExecutionStep>, stepOps: seq<seq<nat>>, devices: seq<nat>,
                        defs: map<nat, nat>)
    requires StepsExport(m, steps, stepOps, devices, defs, Requests(m, stepOps))
    ensures |steps| == |stepOps| == |devices| && StepsWait(m, steps, stepOps, devices, defs, 0)
  {
  }

  /** Finishes every step. Fails exactly when some exported temporary has a size that is only known
    * at run time. */
  method FinishPlan(m: Model, plan: ExecutionPlan,
                    ghost best: seq<nat>, ghost stepOps: seq<seq<nat>>, ghost devices: seq<nat>)
    returns (finished: seq<FinishedStep>, code: ResultCode)
    requires ValidModel(m) && InterfaceListed(m) && AllRead(m) && IsPartition(m, best, stepOps, devices)
    requires StepsBuilt(m, plan.steps, stepOps, devices) && Separate(plan.steps)
    requires DefsExact(m, stepOps, plan.defs.temporaryToDefiningStep)
    modifies set i | 0 <= i < |plan.steps| :: plan.steps[i]
    modifies set i | 0 <= i < |plan.steps| :: plan.steps[i].subModel
    ensures |finished| == |stepOps|
    ensures PlanFinished(m, stepOps, devices, plan.defs.temporaryToDefiningStep, finished)
    ensures code == NoError || code == OpFailed
    ensures code == OpFailed <==> SomeUnknownExport(m, stepOps, plan.defs.temporaryToDefiningStep, |stepOps|)
  {
    hide InRange, WrittenOnce, ValidIndexes, InterfaceListed, AllRead, IsPartition, StepsBuilt, StepsExport;
    hide StepsWait, Separate, DefsExact;
    hide StepFinished, PlanFinished, SomeUnknownExport, UnknownExport, ExportsOf, Requests;
    FindTempsAsSubModelOutputs(m, plan, best, stepOps, devices);
    var steps, defs := plan.steps, plan.defs.temporaryToDefiningStep;
    StepsExportWait(m, steps, stepOps, devices, defs);
    var hasSubModelOutputOfUnknownSize := false;
    finished := [];
    NothingFinished(m, stepOps, devices, defs);
    for t := 0 to |steps|
      invariant |finished| == t && PlanFinished(m, stepOps, devices, defs, finished)
      invariant StepsWait(m, steps, stepOps, devices, defs, t)
      invariant hasSubModelOutputOfUnknownSize <==> SomeUnknownExport(m, stepOps, defs, t)
    {
      SomeUnknownNext(m, stepOps, defs, t);
      PartitionStepComplete(m, best, stepOps, devices, defs, t);
      var r, n;
      r, hasSubModelOutputOfUnknownSize, n :=
        FinishNext(m, steps, t, hasSubModelOutputOfUnknownSize, stepOps, devices, defs);
      PlanFinishedAppend(m, stepOps, devices, defs, finished, r);
      finished := finished + [r];
    }
    code := if hasSubModelOutputOfUnknownSize then OpFailed else NoError;
  }

  method FinishNext(m: Model, steps: seq<ExecutionStep>, t: nat, hasOutputOfUnknownSize: bool,
                    ghost stepOps: seq<seq<nat>>, ghost devices: seq<nat>, ghost defs: map<nat, nat>)
    returns (r: FinishedStep, unknown: bool, code: ResultCode)
    requires ValidModel(m) && InterfaceListed(m) && AllRead(m) && Separate(steps)
    requires t < |steps| && StepsWait(m, steps, stepOps, devices, defs, t)
    requires StepComplete(m, stepOps[t], BuildStep(m, stepOps[t]), ExportsOf(m, stepOps, defs, t))
    modifies steps[t], steps[t].subModel
    ensures code == NoError && StepFinished(m, stepOps[t], devices[t], ExportsOf(m, stepOps, defs, t), r)
    ensures unknown <==> (hasOutputOfUnknownSize || UnknownExport(m, ExportsOf(m, stepOps, defs, t)))
    ensures StepsWait(m, steps, stepOps, devices, defs, t + 1)
  {
    assert StepHolds(m, steps[t], t, stepOps[t], devices[t]);
    r, unknown, code := FinishStep(m, steps[t], hasOutputOfUnknownSize, stepOps[t], ExportsOf(m, stepOps, defs, t));
    forall i | t < i < |steps|
      ensures StepHolds(m, steps[i], i, stepOps[i], devices[i])
      ensures steps[i].tempsAsSubModelOutputs == ExportsOf(m, stepOps, defs, i)
    {
      assert old(StepHolds(m, steps[i], i, stepOps[i], devices[i]));
    }
  }
}
