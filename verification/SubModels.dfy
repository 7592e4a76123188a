/** What one partition of the graph becomes: the submodel and the lists that tie its operands to
  * those of the original model, as functions of the operations it is given. */
module SubModels {
  import opened Sequences
  import opened Models
  import opened RunOrder
  import opened ModelBuilding

  datatype OperandKind = Input | Output

  /** The `k`-th operand of a submodel is the `k`-th operand of the original model that the step
    * came across; `kind` tells how it came across it first. */
  datatype Origin = Origin(operand: nat, kind: OperandKind)

  /** Pairs (index in the original model, index in the submodel). */
  type RemapVector = seq<(nat, nat)>

  /** Operands of a step by the role they play at its boundary. */
  datatype Roles = Roles(modelInputs: RemapVector, modelOutputs: RemapVector,
                         tempsAsSubModelInputs: RemapVector, outputsAsSubModelInputs: RemapVector)

  /** A step under construction: submodel, operand map, and operands by role. */
  datatype StepState = StepState(operands: seq<Operand>, operations: seq<Operation>,
                                 operandMap: map<nat, nat>, origins: seq<Origin>, roles: Roles)

  const EMPTY_STEP := StepState([], [], map[], [], Roles([], [], [], []))

  /** A copied operand keeps its type and, for a constant, its value. */
  function Import(from: Operand): Operand {
    if IsConstant(from) then Operand(from.ty, from.lifetime, from.value, 0)
    else Operand(from.ty, TemporaryVariable, [], 0)
  }

  /** Lists a new operand by lifetime and kind. */
  function Enroll(r: Roles, lifetime: LifeTime, kind: OperandKind, e: (nat, nat)): Roles {
    match lifetime
    case ModelInput => r.(modelInputs := r.modelInputs + [e])
    case TemporaryVariable =>
      if kind == Input then r.(tempsAsSubModelInputs := r.tempsAsSubModelInputs + [e]) else r
    case ModelOutput =>
      if kind == Input then r.(outputsAsSubModelInputs := r.outputsAsSubModelInputs + [e])
      else r.(modelOutputs := r.modelOutputs + [e])
    case _ => r
  }

  /** The step after it came across operand `o`. */
  function Meet(m: Model, s: StepState, o: nat, kind: OperandKind): StepState {
    if o in s.operandMap || o >= |m.operands| then s
    else
      StepState(s.operands + [Import(m.operands[o])], s.operations, s.operandMap[o := |s.operands|],
                s.origins + [Origin(o, kind)],
                Enroll(s.roles, m.operands[o].lifetime, kind, (o, |s.operands|)))
  }

  function MeetAll(m: Model, s: StepState, os: seq<nat>, kind: OperandKind): StepState {
    if os == [] then s
    else Meet(m, MeetAll(m, s, os[..|os|-1], kind), os[|os|-1], kind)
  }

  function Translate(operandMap: map<nat, nat>, os: seq<nat>): seq<nat> {
    seq(|os|, i requires 0 <= i < |os| => if os[i] in operandMap then operandMap[os[i]] else 0)
  }

  function MeetOperation(m: Model, s: StepState, op: Operation): StepState {
    MeetAll(m, MeetAll(m, s, op.inputs, Input), op.outputs, Output)
  }

  /** The step after an operation was added. */
  function AddToStep(m: Model, s: StepState, op: Operation): StepState {
    var met := MeetOperation(m, s, op);
    var inputs := Translate(met.operandMap, op.inputs);
    met.(operations := met.operations + [Operation(op.code, inputs, Translate(met.operandMap, op.outputs))],
         operands := CountReads(met.operands, inputs))
  }

  /** The step that holds the listed operations. */
  function BuildStep(m: Model, ops: seq<nat>): StepState {
    if ops == [] then EMPTY_STEP
    else
      var before, j := BuildStep(m, ops[..|ops|-1]), ops[|ops|-1];
      if j < |m.operations| then AddToStep(m, before, m.operations[j]) else before
  }

  /** Defining steps of temporaries after step `index` came across `os` as outputs. */
  function Define(m: Model, defs: map<nat, nat>, os: seq<nat>, index: nat): map<nat, nat> {
    if os == [] then defs
    else
      var o := os[|os|-1];
      var before := Define(m, defs, os[..|os|-1], index);
      if HasLifeTime(m, o, TemporaryVariable) then before[o := index] else before
  }

  predicate HasLifeTime(m: Model, o: nat, lifetime: LifeTime) {
    o < |m.operands| && m.operands[o].lifetime == lifetime
  }

  function Seconds(v: RemapVector): seq<nat> {
    seq(|v|, i requires 0 <= i < |v| => v[i].1)
  }

  /** Input order: model inputs, temporaries of other steps, model outputs computed by other steps. */
  function InputList(r: Roles): seq<nat> {
    Seconds(r.modelInputs) + (Seconds(r.tempsAsSubModelInputs) + Seconds(r.outputsAsSubModelInputs))
  }

  /** Output order: model outputs, exported temporaries. */
  function OutputList(r: Roles, exports: RemapVector): seq<nat> {
    Seconds(r.modelOutputs) + Seconds(exports)
  }

  /** The submodel once its inputs and outputs were identified. */
  function SubModelOf(s: StepState, exports: RemapVector): Model {
    var inputs, outputs := InputList(s.roles), OutputList(s.roles, exports);
    Model(seq(|s.operands|, k requires 0 <= k < |s.operands| => Identified(s.operands[k], k, inputs, outputs)),
          s.operations, inputs, outputs)
  }

  // ---------------------------------------------------------------- what a step contains

  /** Operands of one lifetime and kind, in the order the step came across them. */
  function Pick(m: Model, origins: seq<Origin>, lifetime: LifeTime, kind: OperandKind): RemapVector {
    if origins == [] then []
    else
      var n := |origins| - 1;
      Pick(m, origins[..n], lifetime, kind) +
      (if HasLifeTime(m, origins[n].operand, lifetime) && origins[n].kind == kind
       then [(origins[n].operand, n)]
       else [])
  }

  lemma PickAppend(m: Model, origins: seq<Origin>, t: Origin, lifetime: LifeTime, kind: OperandKind)
    ensures Pick(m, origins + [t], lifetime, kind) ==
            Pick(m, origins, lifetime, kind) +
            (if HasLifeTime(m, t.operand, lifetime) && t.kind == kind then [(t.operand, |origins|)] else [])
  {
    assert (origins + [t])[..|origins|] == origins;
  }

  /** A pair is picked exactly when it describes an operand of that lifetime and kind. */
  lemma {:induction false} PickMember(m: Model, origins: seq<Origin>, lifetime: LifeTime, kind: OperandKind,
                                      e: (nat, nat))
    ensures e in Pick(m, origins, lifetime, kind) <==>
            e.1 < |origins| && origins[e.1] == Origin(e.0, kind) && HasLifeTime(m, e.0, lifetime)
  {
    if origins != [] {
      var n := |origins| - 1;
      PickMember(m, origins[..n], lifetime, kind, e);
    }
  }

  /** Nothing is picked twice. */
  lemma {:induction false} PickNoDup(m: Model, origins: seq<Origin>, lifetime: LifeTime, kind: OperandKind)
    ensures NoDup(Pick(m, origins, lifetime, kind))
  {
    if origins != [] {
      var n := |origins| - 1;
      PickNoDup(m, origins[..n], lifetime, kind);
      PickMember(m, origins[..n], lifetime, kind, (origins[n].operand, n));
    }
  }

  function RolesOf(m: Model, origins: seq<Origin>): Roles {
    Roles(Pick(m, origins, ModelInput, Input), Pick(m, origins, ModelOutput, Output),
          Pick(m, origins, TemporaryVariable, Input), Pick(m, origins, ModelOutput, Input))
  }

  /** The operand map sends each operand to its position; no operand is met twice. */
  ghost predicate Maps(m: Model, s: StepState) {
    && |s.operands| == |s.origins|
    && (forall k :: 0 <= k < |s.origins| ==>
          && s.origins[k].operand < |m.operands|
          && s.origins[k].operand in s.operandMap && s.operandMap[s.origins[k].operand] == k)
    && (forall o :: o in s.operandMap ==> s.operandMap[o] < |s.origins| && s.origins[s.operandMap[o]].operand == o)
  }

  /** Submodel operands are copies of the original ones. */
  ghost predicate Imported(m: Model, s: StepState) {
    && |s.operands| == |s.origins|
    && forall k :: 0 <= k < |s.origins| ==>
         && s.origins[k].operand < |m.operands|
         && s.operands[k] ==
            Import(m.operands[s.origins[k].operand]).(numberOfConsumers := s.operands[k].numberOfConsumers)
  }

  /** Results are the only operands that are met as outputs. */
  ghost predicate Meets(m: Model, os: seq<nat>, kind: OperandKind) {
    forall k :: 0 <= k < |os| ==> os[k] < |m.operands| && (kind == Output ==> IsDataflow(m.operands[os[k]]))
  }

  lemma MeetRoles(m: Model, s: StepState, o: nat, kind: OperandKind)
    requires s.roles == RolesOf(m, s.origins) && |s.operands| == |s.origins|
    requires o < |m.operands| && (kind == Output ==> IsDataflow(m.operands[o]))
    ensures Meet(m, s, o, kind).roles == RolesOf(m, Meet(m, s, o, kind).origins)
  {
    PickAppend(m, s.origins, Origin(o, kind), ModelInput, Input);
    PickAppend(m, s.origins, Origin(o, kind), ModelOutput, Output);
    PickAppend(m, s.origins, Origin(o, kind), TemporaryVariable, Input);
    PickAppend(m, s.origins, Origin(o, kind), ModelOutput, Input);
  }

  lemma MeetMaps(m: Model, s: StepState, o: nat, kind: OperandKind)
    requires Maps(m, s) && o < |m.operands|
    ensures Maps(m, Meet(m, s, o, kind))
  {
  }

  lemma MeetImported(m: Model, s: StepState, o: nat, kind: OperandKind)
    requires Imported(m, s) && o < |m.operands|
    ensures Imported(m, Meet(m, s, o, kind))
  {
  }

  /** Everything a step says about operands. */
  ghost predicate OperandFacts(m: Model, s: StepState) {
    Maps(m, s) && Imported(m, s) && s.roles == RolesOf(m, s.origins)
  }

  /** `after` additionally knows `os`, and keeps what `before` says. */
  ghost predicate Grows(before: map<nat, nat>, os: set<nat>, after: map<nat, nat>) {
    && after.Keys == before.Keys + os
    && (forall o :: o in before ==> o in after && after[o] == before[o])
  }

  lemma MeetGrows(m: Model, s: StepState, o: nat, kind: OperandKind)
    requires o < |m.operands|
    ensures Grows(s.operandMap, {o}, Meet(m, s, o, kind).operandMap)
    ensures Meet(m, s, o, kind).operations == s.operations
  {
  }

  lemma MeetFacts(m: Model, s: StepState, o: nat, kind: OperandKind)
    requires OperandFacts(m, s) && o < |m.operands| && (kind == Output ==> IsDataflow(m.operands[o]))
    ensures OperandFacts(m, Meet(m, s, o, kind))
  {
    MeetRoles(m, s, o, kind);
    MeetMaps(m, s, o, kind);
    MeetImported(m, s, o, kind);
  }

  lemma GrowsTransitive(a: map<nat, nat>, os: set<nat>, b: map<nat, nat>, ps: set<nat>, c: map<nat, nat>)
    requires Grows(a, os, b) && Grows(b, ps, c)
    ensures Grows(a, os + ps, c)
  {
  }

  lemma {:induction false} MeetAllFacts(m: Model, s: StepState, os: seq<nat>, kind: OperandKind)
    requires OperandFacts(m, s) && Meets(m, os, kind)
    ensures OperandFacts(m, MeetAll(m, s, os, kind))
    ensures Grows(s.operandMap, Elements(os), MeetAll(m, s, os, kind).operandMap)
    ensures MeetAll(m, s, os, kind).operations == s.operations
  {
    if os != [] {
      var n := |os| - 1;
      var before := MeetAll(m, s, os[..n], kind);
      MeetAllFacts(m, s, os[..n], kind);
      MeetFacts(m, before, os[n], kind);
      MeetGrows(m, before, os[n], kind);
      GrowsTransitive(s.operandMap, Elements(os[..n]), before.operandMap, {os[n]},
                      Meet(m, before, os[n], kind).operandMap);
      ElementsLast(os);
    }
  }

  ghost predicate Renames(from: Operation, to: Operation, operandMap: map<nat, nat>) {
    && (forall o :: o in from.inputs ==> o in operandMap)
    && (forall o :: o in from.outputs ==> o in operandMap)
    && to == Operation(from.code, Translate(operandMap, from.inputs), Translate(operandMap, from.outputs))
  }

  /** The submodel's operations are the original ones with renamed operands. */
  ghost predicate OperationsRenamed(m: Model, ops: seq<nat>, s: StepState) {
    && |s.operations| == |ops|
    && forall i :: 0 <= i < |ops| ==>
         ops[i] < |m.operations| && Renames(m.operations[ops[i]], s.operations[i], s.operandMap)
  }

  lemma RenamesStable(from: Operation, to: Operation, before: map<nat, nat>, after: map<nat, nat>)
    requires Renames(from, to, before)
    requires forall o :: o in before ==> o in after && after[o] == before[o]
    ensures Renames(from, to, after)
  {
    assert Translate(before, from.inputs) == Translate(after, from.inputs);
    assert Translate(before, from.outputs) == Translate(after, from.outputs);
  }

  lemma OperationsRenamedAppend(m: Model, ops: seq<nat>, s: StepState, j: nat, after: StepState)
    requires OperationsRenamed(m, ops, s) && j < |m.operations|
    requires forall o :: o in s.operandMap ==> o in after.operandMap && after.operandMap[o] == s.operandMap[o]
    requires exists to :: after.operations == s.operations + [to] && Renames(m.operations[j], to, after.operandMap)
    ensures OperationsRenamed(m, ops + [j], after)
  {
    forall i | 0 <= i < |ops| ensures Renames(m.operations[ops[i]], after.operations[i], after.operandMap) {
      RenamesStable(m.operations[ops[i]], s.operations[i], s.operandMap, after.operandMap);
    }
  }

  lemma MeetOperationFacts(m: Model, s: StepState, op: Operation)
    requires OperandFacts(m, s) && Meets(m, op.inputs, Input) && Meets(m, op.outputs, Output)
    ensures OperandFacts(m, MeetOperation(m, s, op))
    ensures Grows(s.operandMap, Elements(op.inputs) + Elements(op.outputs), MeetOperation(m, s, op).operandMap)
    ensures MeetOperation(m, s, op).operations == s.operations
  {
    var half := MeetAll(m, s, op.inputs, Input);
    MeetAllFacts(m, s, op.inputs, Input);
    MeetAllFacts(m, half, op.outputs, Output);
    GrowsTransitive(s.operandMap, Elements(op.inputs), half.operandMap, Elements(op.outputs),
                    MeetOperation(m, s, op).operandMap);
  }

  lemma AddToStepFacts(m: Model, ops: seq<nat>, s: StepState, j: nat)
    requires OperandFacts(m, s) && OperationsRenamed(m, ops, s) && j < |m.operations|
    requires Meets(m, m.operations[j].inputs, Input) && Meets(m, m.operations[j].outputs, Output)
    ensures OperandFacts(m, AddToStep(m, s, m.operations[j]))
    ensures OperationsRenamed(m, ops + [j], AddToStep(m, s, m.operations[j]))
    ensures Grows(s.operandMap, Elements(m.operations[j].inputs) + Elements(m.operations[j].outputs),
                  AddToStep(m, s, m.operations[j]).operandMap)
  {
    var op := m.operations[j];
    MeetOperationFacts(m, s, op);
    var after := AddToStep(m, s, op);
    var to := Operation(op.code, Translate(after.operandMap, op.inputs), Translate(after.operandMap, op.outputs));
    assert after.operations == s.operations + [to] && Renames(op, to, after.operandMap);
    OperationsRenamedAppend(m, ops, s, j, after);
  }

  lemma OperationMeets(m: Model, j: nat)
    requires InRange(m) && WrittenOnce(m) && j < |m.operations|
    ensures Meets(m, m.operations[j].inputs, Input) && Meets(m, m.operations[j].outputs, Output)
  {
    var op := m.operations[j];
    assert forall k :: 0 <= k < |op.inputs| ==> op.inputs[k] in op.inputs;
    assert forall k :: 0 <= k < |op.outputs| ==> op.outputs[k] in op.outputs;
  }

  /** Facts that hold of every step, whatever its operations. */
  lemma {:induction false} BuildStepFacts(m: Model, ops: seq<nat>)
    requires InRange(m) && WrittenOnce(m)
    requires forall p :: 0 <= p < |ops| ==> ops[p] < |m.operations|
    ensures OperandFacts(m, BuildStep(m, ops)) && OperationsRenamed(m, ops, BuildStep(m, ops))
  {
    hide AddToStep, InRange, WrittenOnce;
    if ops == [] {
    } else {
      var n := |ops| - 1;
      var before, j := ops[..n], ops[n];
      BuildStepFacts(m, before);
      OperationMeets(m, j);
      assert ops == before + [j];
      AddToStepFacts(m, before, BuildStep(m, before), j);
    }
  }

  /** The submodel never outgrows the model. */
  lemma StepRoom(m: Model, s: StepState)
    requires Maps(m, s)
    ensures |s.operands| <= |m.operands|
  {
    var met: seq<nat> := seq(|s.origins|, k requires 0 <= k < |s.origins| => s.origins[k].operand);
    assert forall x :: x in met ==> x < |m.operands|;
    assert NoDup(met) by {
      assert forall k :: 0 <= k < |met| ==> s.operandMap[met[k]] == k;
    }
    NoDupBounded(met, |m.operands|);
  }
}
