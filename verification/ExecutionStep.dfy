/** One partition of the graph, built operation by operation. */
module Stepping {
  import opened Sequences
  import opened Models
  import opened RunOrder
  import opened ModelBuilding
  import opened SubModels
  import opened Validation

  /** What adding a copy of an operand to a submodel asks of it. */
  predicate Importable(rules: TypeRules, o: Operand) {
    ConstantFits(o) && rules.addable(o.ty)
  }

  class TemporaryDefs {
    /** Original operand index to defining step index; used for temporaries only. */
    var temporaryToDefiningStep: map<nat, nat>

    constructor ()
      ensures temporaryToDefiningStep == map[]
    {
      temporaryToDefiningStep := map[];
    }

    method RecordTemporaryDef(fromModelIndex: nat, stepIndex: nat)
      requires fromModelIndex !in temporaryToDefiningStep
      modifies this
      ensures temporaryToDefiningStep == old(temporaryToDefiningStep)[fromModelIndex := stepIndex]
    {
      temporaryToDefiningStep := temporaryToDefiningStep[fromModelIndex := stepIndex];
    }
  }

  class ExecutionStep {
    const index: nat
    const device: nat
    const subModel: ModelBuilder
    var modelInputs: RemapVector
    var modelOutputs: RemapVector
    var tempsAsSubModelInputs: RemapVector
    var outputsAsSubModelInputs: RemapVector
    var tempsAsSubModelOutputs: RemapVector
    var operandMap: map<nat, nat>
    /** Indexes of the original model's inputs and outputs, set when the submodel is finished. */
    var inputIndexSubModelToFromModel: seq<nat>
    var outputIndexSubModelToFromModel: seq<nat>
    var outputsAsSubModelInputsIndexToFromModel: seq<nat>
    /** Where each operand of the submodel comes from. */
    ghost var origins: seq<Origin>

    ghost function State(): StepState
      reads this`modelInputs, this`modelOutputs, this`tempsAsSubModelInputs, this`outputsAsSubModelInputs,
            this`operandMap, this`origins, subModel`operands, subModel`operations
    {
      StepState(subModel.operands, subModel.operations, operandMap, origins,
                Roles(modelInputs, modelOutputs, tempsAsSubModelInputs, outputsAsSubModelInputs))
    }

    /** The submodel is still open and has no inputs or outputs yet. */
    ghost predicate Building()
      reads subModel
    {
      subModel.Valid() && subModel.Open() && subModel.largeOperandValues == []
    }

    constructor (stepIndex: nat, dev: nat, rules: TypeRules)
      ensures Building() && State() == EMPTY_STEP && tempsAsSubModelOutputs == []
      ensures index == stepIndex && device == dev && fresh(subModel) && subModel.rules == rules
    {
      index, device := stepIndex, dev;
      subModel := new ModelBuilder(rules);
      modelInputs, modelOutputs, tempsAsSubModelInputs, outputsAsSubModelInputs := [], [], [], [];
      tempsAsSubModelOutputs := [];
      inputIndexSubModelToFromModel, outputIndexSubModelToFromModel := [], [];
      outputsAsSubModelInputsIndexToFromModel := [];
      operandMap := map[];
      origins := [];
    }

    /** Adds a copy of an operand of the original model to the submodel and sets its value. */
    method ImportOperand(operand: Operand) returns (code: ResultCode)
      requires Building() && Importable(subModel.rules, operand) && |subModel.operands| < MAX_NUMBER_OF_OPERANDS
      modifies subModel
      ensures code == NoError && Building()
      ensures subModel.operands == old(subModel.operands) + [Import(operand)]
      ensures subModel.operations == old(subModel.operations)
    {
      var to := |subModel.operands|;
      code := subModel.AddOperand(operand.ty);
      if code != NoError { return; }
      match operand.lifetime {
        case ConstantCopy => code := subModel.SetOperandValue(to, true, operand.value);
        case ConstantReference =>
          assert operand.value[0..0 + |operand.value|] == operand.value;
          code := subModel.SetOperandValueFromMemory(to, SharedMemory(false, operand.value), 0, |operand.value|);
        case NoValue => code := subModel.SetOperandValue(to, false, []);
        case _ =>
      }
    }

    /** Lists a new operand by lifetime and kind. */
    method RecordOperand(from: nat, to: nat, m: Model, kind: OperandKind, defs: TemporaryDefs)
      requires from < |m.operands|
      requires kind == Output ==> from !in defs.temporaryToDefiningStep
      modifies this`modelInputs, this`modelOutputs, this`tempsAsSubModelInputs, this`outputsAsSubModelInputs, defs
      ensures State().roles == Enroll(old(State().roles), m.operands[from].lifetime, kind, (from, to))
      ensures defs.temporaryToDefiningStep ==
              if kind == Output then Define(m, old(defs.temporaryToDefiningStep), [from], index)
              else old(defs.temporaryToDefiningStep)
    {
      DefineOne(m, defs.temporaryToDefiningStep, from, index);
      match m.operands[from].lifetime {
        case TemporaryVariable =>
          if kind == Input {
            tempsAsSubModelInputs := tempsAsSubModelInputs + [(from, to)];
          } else {
            defs.RecordTemporaryDef(from, index);
          }
        case ModelInput =>
          modelInputs := modelInputs + [(from, to)];
        case ModelOutput =>
          if kind == Input {
            outputsAsSubModelInputs := outputsAsSubModelInputs + [(from, to)];
          } else {
            modelOutputs := modelOutputs + [(from, to)];
          }
        case _ =>
      }
    }

    /** The submodel's operand for an operand of the original model, which is imported when the step meets it
      * for the first time. Only as an input can it be met again. */
    method AddOperand(fromOperandIndex: nat, m: Model, kind: OperandKind, defs: TemporaryDefs)
      returns (toOperandIndex: nat, code: ResultCode)
      requires Building() && fromOperandIndex < |m.operands|
      requires Importable(subModel.rules, m.operands[fromOperandIndex])
      requires |Meet(m, State(), fromOperandIndex, kind).operands| <= MAX_NUMBER_OF_OPERANDS
      requires kind == Output ==> fromOperandIndex !in operandMap && fromOperandIndex !in defs.temporaryToDefiningStep
      modifies this`modelInputs, this`modelOutputs, this`tempsAsSubModelInputs, this`outputsAsSubModelInputs,
               this`operandMap, this`origins, subModel, defs
      ensures code == NoError && Building()
      ensures State() == Meet(m, old(State()), fromOperandIndex, kind)
      ensures fromOperandIndex in operandMap && toOperandIndex == operandMap[fromOperandIndex]
      ensures defs.temporaryToDefiningStep ==
              if kind == Output then Define(m, old(defs.temporaryToDefiningStep), [fromOperandIndex], index)
              else old(defs.temporaryToDefiningStep)
    {
      if fromOperandIndex in operandMap {
        return operandMap[fromOperandIndex], NoError;
      }
      toOperandIndex := |subModel.operands|;
      operandMap := operandMap[fromOperandIndex := toOperandIndex];
      code := ImportOperand(m.operands[fromOperandIndex]);
      RecordOperand(fromOperandIndex, toOperandIndex, m, kind, defs);
      origins := origins + [Origin(fromOperandIndex, kind)];
    }

    /** Adds the operands of one operation that are of one kind. */
    method AddOperands(globalOperands: seq<nat>, m: Model, kind: OperandKind, defs: TemporaryDefs)
      returns (localOperands: seq<nat>, code: ResultCode)
      requires Building()
      requires forall o :: o in globalOperands ==> o < |m.operands| && Importable(subModel.rules, m.operands[o])
      requires |MeetAll(m, State(), globalOperands, kind).operands| <= MAX_NUMBER_OF_OPERANDS
      requires kind == Output ==> NoDup(globalOperands)
      requires kind == Output ==>
                 forall o :: o in globalOperands ==> o !in operandMap && o !in defs.temporaryToDefiningStep
      modifies this`modelInputs, this`modelOutputs, this`tempsAsSubModelInputs, this`outputsAsSubModelInputs,
               this`operandMap, this`origins, subModel, defs
      ensures code == NoError && Building()
      ensures State() == MeetAll(m, old(State()), globalOperands, kind)
      ensures localOperands == Translate(operandMap, globalOperands)
      ensures defs.temporaryToDefiningStep ==
              if kind == Output then Define(m, old(defs.temporaryToDefiningStep), globalOperands, index)
              else old(defs.temporaryToDefiningStep)
    {
      localOperands := [];
      code := NoError;
      assert forall k :: 0 <= k < |globalOperands| ==> globalOperands[k] in globalOperands;
      ghost var start, defs0 := State(), defs.temporaryToDefiningStep;
      ghost var added: seq<nat> := [];
      for i := 0 to |globalOperands|
        invariant added == globalOperands[..i] && code == NoError && Building()
        invariant State() == MeetAll(m, start, added, kind)
        invariant localOperands == Translate(operandMap, added)
        invariant defs.temporaryToDefiningStep == if kind == Output then Define(m, defs0, added, index) else defs0
      {
        var o := globalOperands[i];
        assert o in globalOperands && (kind == Output ==> o !in added);
        AddOperandsRound(m, start, globalOperands, i, kind, defs0, index);
        ghost var s := State();
        var localOperand;
        localOperand, code := AddOperand(o, m, kind, defs);
        TranslateAppend(s.operandMap, operandMap, added, o);
        localOperands := localOperands + [localOperand];
        added := added + [o];
      }
      assert added == globalOperands;
    }

    /** Notes that another step reads a temporary that this step writes. */
    method RecordTempAsSubModelOutput(fromModelIndex: nat)
      requires fromModelIndex in operandMap
      modifies this`tempsAsSubModelOutputs
      ensures tempsAsSubModelOutputs ==
              InsertExport(old(tempsAsSubModelOutputs), (fromModelIndex, operandMap[fromModelIndex]))
      ensures forall e :: e in tempsAsSubModelOutputs <==>
                e in old(tempsAsSubModelOutputs) || e == (fromModelIndex, operandMap[fromModelIndex])
      ensures old(AscendingPairs(tempsAsSubModelOutputs)) &&
              old(forall e :: e in tempsAsSubModelOutputs && e.0 == fromModelIndex ==>
                    e.1 == operandMap[fromModelIndex]) ==>
                AscendingPairs(tempsAsSubModelOutputs)
    {
      ghost var was, added := tempsAsSubModelOutputs, (fromModelIndex, operandMap[fromModelIndex]);
      forall e ensures e in InsertExport(was, added) <==> e in was || e == added { InsertExportMember(was, added, e); }
      if AscendingPairs(was) && forall e :: e in was && e.0 == fromModelIndex ==> e.1 == operandMap[fromModelIndex] {
        InsertExportAscending(was, added);
      }
      tempsAsSubModelOutputs := InsertExport(tempsAsSubModelOutputs, (fromModelIndex, operandMap[fromModelIndex]));
    }

    /** Fixes the order of inputs and outputs, validates the submodel and sorts it. */
    method FinishSubModel(m: Model, hasOutputOfUnknownSize: bool) returns (unknown: bool, code: ResultCode)
      requires Building() && subModel.Acceptable(SubModelOf(State(), tempsAsSubModelOutputs))
      requires forall k :: k in InputList(State().roles) + OutputList(State().roles, tempsAsSubModelOutputs) ==>
                 k < |subModel.operands| && subModel.operands[k].lifetime.TemporaryVariable?
      requires NoDup(InputList(State().roles) + OutputList(State().roles, tempsAsSubModelOutputs))
      requires forall e :: e in modelInputs ==> e.0 in m.inputIndexes
      requires forall e :: e in modelOutputs || e in outputsAsSubModelInputs ==> e.0 in m.outputIndexes
      requires forall e :: e in tempsAsSubModelOutputs ==> e.1 < |subModel.operands|
      modifies subModel, this`inputIndexSubModelToFromModel, this`outputIndexSubModelToFromModel,
               this`outputsAsSubModelInputsIndexToFromModel
      ensures code == NoError && subModel.completedModel
      ensures IndexesName(modelInputs, inputIndexSubModelToFromModel, m.inputIndexes)
      ensures IndexesName(modelOutputs, outputIndexSubModelToFromModel, m.outputIndexes)
      ensures IndexesName(outputsAsSubModelInputs, outputsAsSubModelInputsIndexToFromModel, m.outputIndexes)
      ensures IsRunOrder(SubModelOf(old(State()), tempsAsSubModelOutputs), subModel.sortedOperationIndexMap)
      ensures subModel.View() == SubModelOf(old(State()), tempsAsSubModelOutputs).(
                                   operations := Select(old(subModel.operations), subModel.sortedOperationIndexMap))
      ensures unknown <==> (hasOutputOfUnknownSize ||
                exists e :: e in tempsAsSubModelOutputs && HasUnknownSize(old(subModel.operands)[e.1].ty))
    {
      ghost var state := State();
      var inputs, outputs;
      inputs, inputIndexSubModelToFromModel := ConvertModelInputsOrOutputs(modelInputs, m.inputIndexes);
      inputs := inputs + (Seconds(tempsAsSubModelInputs) + Seconds(outputsAsSubModelInputs));
      outputs, outputIndexSubModelToFromModel := ConvertModelInputsOrOutputs(modelOutputs, m.outputIndexes);
      outputs := outputs + Seconds(tempsAsSubModelOutputs);
      unknown := AnyUnknownSize(subModel.operands, tempsAsSubModelOutputs, hasOutputOfUnknownSize);
      ghost var at;
      code, at := subModel.IdentifyInputsAndOutputs(inputs, outputs);
      if code != NoError { return; }
      assert subModel.View() == SubModelOf(state, tempsAsSubModelOutputs);
      code := subModel.Finish(NoError, true);
      if code != NoError { return; }
      code, outputsAsSubModelInputsIndexToFromModel := OutputPositions(outputsAsSubModelInputs, m.outputIndexes);
    }

    /** Adds the operands of an operation of the original model. */
    method MeetOperands(operation: Operation, m: Model, defs: TemporaryDefs)
      returns (inputs: seq<nat>, outputs: seq<nat>, code: ResultCode)
      requires Building() && OperationInRange(m.operands, operation)
      requires forall o :: o in operation.inputs || o in operation.outputs ==> Importable(subModel.rules, m.operands[o])
      requires |MeetOperation(m, State(), operation).operands| <= MAX_NUMBER_OF_OPERANDS
      requires NoDup(operation.outputs)
      requires forall o :: o in operation.outputs ==>
                 o !in operandMap && o !in operation.inputs && o !in defs.temporaryToDefiningStep
      modifies this`modelInputs, this`modelOutputs, this`tempsAsSubModelInputs, this`outputsAsSubModelInputs,
               this`operandMap, this`origins, subModel, defs
      ensures code == NoError && Building()
      ensures State() == MeetOperation(m, old(State()), operation)
      ensures inputs == Translate(operandMap, operation.inputs) && outputs == Translate(operandMap, operation.outputs)
      ensures defs.temporaryToDefiningStep == Define(m, old(defs.temporaryToDefiningStep), operation.outputs, index)
    {
      ghost var start := State();
      IndexesInRange(m, operation);
      MeetAllGrows(m, start, operation.inputs, Input);
      MeetAllGrows(m, MeetAll(m, start, operation.inputs, Input), operation.outputs, Output);
      inputs, code := AddOperands(operation.inputs, m, Input, defs);
      ghost var half := operandMap;
      outputs, code := AddOperands(operation.outputs, m, Output, defs);
      TranslateStable(half, operandMap, operation.inputs);
    }

    /** Adds an operation of the original model. Operations are added in topological order, so none
      * of its outputs has been seen. */
    method AddOperation(operation: Operation, m: Model, defs: TemporaryDefs) returns (code: ResultCode)
      requires Building() && OperandFacts(m, State()) && Typed(subModel.rules, m, operation)
      requires Meets(m, operation.inputs, Input) && Meets(m, operation.outputs, Output)
      requires forall o :: o in operation.inputs || o in operation.outputs ==> Importable(subModel.rules, m.operands[o])
      requires RoomFor(m, State(), operation)
      requires NoDup(operation.outputs)
      requires forall o :: o in operation.outputs ==>
                 o !in operandMap && o !in operation.inputs && o !in defs.temporaryToDefiningStep
      modifies this`modelInputs, this`modelOutputs, this`tempsAsSubModelInputs, this`outputsAsSubModelInputs,
               this`operandMap, this`origins, subModel, defs
      ensures code == NoError && Building()
      ensures State() == AddToStep(m, old(State()), operation)
      ensures defs.temporaryToDefiningStep == Define(m, old(defs.temporaryToDefiningStep), operation.outputs, index)
    {
      ghost var start := State();
      MeetOperationFacts(m, start, operation);
      var inputs, outputs;
      inputs, outputs, code := MeetOperands(operation, m, defs);
      TranslatedTyped(subModel.rules, m, State(), operation, subModel.View());
      code := subModel.AddOperation(Operation(operation.code, inputs, outputs));
    }
  }

  lemma IndexesInRange(m: Model, op: Operation)
    requires OperationInRange(m.operands, op)
    ensures forall k :: 0 <= k < |op.inputs| ==> op.inputs[k] < |m.operands|
    ensures forall k :: 0 <= k < |op.outputs| ==> op.outputs[k] < |m.operands|
  {
    assert forall k :: 0 <= k < |op.inputs| ==> op.inputs[k] in op.inputs;
    assert forall k :: 0 <= k < |op.outputs| ==> op.outputs[k] in op.outputs;
  }

  /** Copies have the types of the originals. */
  lemma TranslatedTypes(m: Model, s: StepState, os: seq<nat>, view: Model)
    requires Maps(m, s) && Imported(m, s) && view.operands == s.operands
    requires forall o :: o in os ==> o < |m.operands| && o in s.operandMap
    ensures forall k :: k in Translate(s.operandMap, os) ==> k < |view.operands|
    ensures TypesOf(view, Translate(s.operandMap, os)) == TypesOf(m, os)
  {
    var ks := Translate(s.operandMap, os);
    forall i | 0 <= i < |os| ensures ks[i] < |s.operands| && s.operands[ks[i]].ty == m.operands[os[i]].ty {
      assert os[i] in os;
    }
    assert forall k :: k in ks ==> exists i :: 0 <= i < |os| && ks[i] == k;
  }

  /** An operation that its table allows in the original model is allowed in the submodel. */
  lemma TranslatedTyped(rules: TypeRules, m: Model, s: StepState, op: Operation, view: Model)
    requires OperandFacts(m, s) && view.operands == s.operands && Typed(rules, m, op)
    requires forall o :: o in op.inputs || o in op.outputs ==> o in s.operandMap
    ensures Typed(rules, view, Operation(op.code, Translate(s.operandMap, op.inputs),
                                         Translate(s.operandMap, op.outputs)))
  {
    TranslatedTypes(m, s, op.inputs, view);
    TranslatedTypes(m, s, op.outputs, view);
  }

  /** The `i`-th index names, in the original model's list, the operand of the `i`-th pair. */
  ghost predicate IndexesName(v: RemapVector, indexes: seq<nat>, list: seq<nat>) {
    && |indexes| == |v|
    && forall i :: 0 <= i < |v| ==> indexes[i] < |list| && list[indexes[i]] == v[i].0
  }

  /** Operand index to position in the list of inputs or outputs. */
  method PositionsOf(list: seq<nat>) returns (positions: map<nat, nat>)
    ensures forall o :: o in positions <==> o in list
    ensures forall o :: o in positions ==> positions[o] < |list| && list[positions[o]] == o
  {
    positions := map[];
    for i := 0 to |list|
      invariant forall o :: o in positions <==> o in list[..i]
      invariant forall o :: o in positions ==> positions[o] < |list| && list[positions[o]] == o
    {
      positions := positions[list[i] := i];
      assert list[..i+1] == list[..i] + [list[i]];
    }
    assert list[..|list|] == list;
  }

  /** Whether some exported temporary has a size that is only known at run time. */
  method AnyUnknownSize(operands: seq<Operand>, exports: RemapVector, flag: bool) returns (unknown: bool)
    requires forall e :: e in exports ==> e.1 < |operands|
    ensures unknown <==> (flag || exists e :: e in exports && HasUnknownSize(operands[e.1].ty))
  {
    unknown := flag;
    for i := 0 to |exports|
      invariant unknown <==> (flag || exists k :: 0 <= k < i && HasUnknownSize(operands[exports[k].1].ty))
    {
      assert exports[i] in exports;
      if HasUnknownSize(operands[exports[i].1].ty) { unknown := true; }
    }
    if e :| e in exports && HasUnknownSize(operands[e.1].ty) {
      var k :| 0 <= k < |exports| && exports[k] == e;
      assert HasUnknownSize(operands[exports[k].1].ty);
    }
    if k :| 0 <= k < |exports| && HasUnknownSize(operands[exports[k].1].ty) {
      assert exports[k] in exports;
    }
  }

  /** Positions of model outputs that are read here; fails when one is not an output of the model. */
  method OutputPositions(v: RemapVector, list: seq<nat>) returns (code: ResultCode, indexes: seq<nat>)
    ensures code == if forall e :: e in v ==> e.0 in list then NoError else BadState
    ensures code == NoError ==> IndexesName(v, indexes, list)
  {
    var positions := PositionsOf(list);
    indexes := [];
    for i := 0 to |v|
      invariant IndexesName(v[..i], indexes, list)
    {
      assert v[i] in v;
      if v[i].0 !in positions { return BadState, indexes; }
      indexes := indexes + [positions[v[i].0]];
    }
    assert v[..|v|] == v;
    assert forall e :: e in v ==> exists i :: 0 <= i < |v| && v[i] == e;
    return NoError, indexes;
  }

  /** Submodel indexes of the listed operands, and their positions in the original model's list. An
    * operand that is missing there gets position 0, as a lookup with a default does. */
  method ConvertModelInputsOrOutputs(v: RemapVector, list: seq<nat>)
    returns (inputsOrOutputs: seq<nat>, indexes: seq<nat>)
    ensures inputsOrOutputs == Seconds(v) && |indexes| == |v|
    ensures forall i :: 0 <= i < |v| ==>
              if v[i].0 in list then indexes[i] < |list| && list[indexes[i]] == v[i].0 else indexes[i] == 0
  {
    var positions := PositionsOf(list);
    inputsOrOutputs, indexes := [], [];
    for i := 0 to |v|
      invariant inputsOrOutputs == Seconds(v[..i]) && |indexes| == i
      invariant forall k :: 0 <= k < i ==>
                  if v[k].0 in list then indexes[k] < |list| && list[indexes[k]] == v[k].0 else indexes[k] == 0
    {
      inputsOrOutputs := inputsOrOutputs + [v[i].1];
      indexes := indexes + [if v[i].0 in positions then positions[v[i].0] else 0];
      assert Seconds(v[..i+1]) == Seconds(v[..i]) + [v[i].1];
    }
    assert v[..|v|] == v;
  }

  /** Insertion into an ordered set of pairs; a pair that is there already changes nothing. */
  function InsertExport(s: RemapVector, e: (nat, nat)): RemapVector {
    if s == [] then [e]
    else
      var n := |s| - 1;
      if s[n] == e then s
      else if s[n].0 < e.0 || (s[n].0 == e.0 && s[n].1 < e.1) then s + [e]
      else InsertExport(s[..n], e) + [s[n]]
  }

  ghost predicate AscendingPairs(s: RemapVector) {
    forall i, j :: 0 <= i < j < |s| ==> s[i].0 < s[j].0
  }

  lemma {:induction false} InsertExportMember(s: RemapVector, e: (nat, nat), x: (nat, nat))
    ensures x in InsertExport(s, e) <==> x in s || x == e
  {
    if s != [] {
      var n := |s| - 1;
      assert s == s[..n] + [s[n]];
      InsertExportMember(s[..n], e, x);
    }
  }

  lemma {:induction false} InsertExportAscending(s: RemapVector, e: (nat, nat))
    requires AscendingPairs(s) && forall x :: x in s && x.0 == e.0 ==> x == e
    ensures AscendingPairs(InsertExport(s, e))
  {
    if s != [] {
      var n := |s| - 1;
      assert s[n] in s && forall x :: x in s[..n] ==> x in s;
      if s[n] != e && e.0 <= s[n].0 {
        InsertExportAscending(s[..n], e);
        forall x | x in InsertExport(s[..n], e) ensures x.0 < s[n].0 { InsertExportMember(s[..n], e, x); }
        AscendingPairsAppend(InsertExport(s[..n], e), s[n]);
      } else if s[n] != e {
        AscendingPairsAppend(s, e);
      }
    }
  }

  lemma AscendingPairsAppend(s: RemapVector, e: (nat, nat))
    requires AscendingPairs(s) && forall x :: x in s ==> x.0 < e.0
    ensures AscendingPairs(s + [e])
  {
    assert forall i :: 0 <= i < |s| ==> s[i] in s;
  }

  lemma DefineOne(m: Model, defs: map<nat, nat>, o: nat, index: nat)
    ensures Define(m, defs, [o], index) == if HasLifeTime(m, o, TemporaryVariable) then defs[o := index] else defs
  {
    assert [o][..0] == [];
  }

  lemma DefineAppend(m: Model, defs: map<nat, nat>, os: seq<nat>, o: nat, index: nat)
    ensures Define(m, Define(m, defs, os, index), [o], index) == Define(m, defs, os + [o], index)
    ensures forall x :: x in Define(m, defs, os, index) ==> x in defs || x in os
  {
    DefineOne(m, Define(m, defs, os, index), o, index);
    assert (os + [o])[..|os|] == os;
    DefineKeys(m, defs, os, index);
  }

  lemma {:induction false} DefineKeys(m: Model, defs: map<nat, nat>, os: seq<nat>, index: nat)
    ensures forall x :: x in Define(m, defs, os, index) <==>
              x in defs || (x in os && HasLifeTime(m, x, TemporaryVariable))
    ensures forall x :: x in Define(m, defs, os, index) ==>
              Define(m, defs, os, index)[x] ==
              if x in os && HasLifeTime(m, x, TemporaryVariable) then index else defs[x]
  {
    if os != [] {
      DefineKeys(m, defs, os[..|os|-1], index);
      assert os == os[..|os|-1] + [os[|os|-1]];
    }
  }

  /** The submodel can take the operation. */
  ghost predicate RoomFor(m: Model, s: StepState, op: Operation) {
    var after := AddToStep(m, s, op);
    && |after.operands| <= MAX_NUMBER_OF_OPERANDS && |s.operations| < MAX_NUMBER_OF_OPERATIONS
    && forall o :: o in after.operandMap ==> after.operandMap[o] < |after.operands|
  }

  lemma {:induction false} MeetAllGrows(m: Model, s: StepState, os: seq<nat>, kind: OperandKind)
    requires forall k :: 0 <= k < |os| ==> os[k] < |m.operands|
    ensures Grows(s.operandMap, Elements(os), MeetAll(m, s, os, kind).operandMap)
    ensures |MeetAll(m, s, os, kind).operands| >= |s.operands|
    ensures MeetAll(m, s, os, kind).operations == s.operations
  {
    if os != [] {
      var n := |os| - 1;
      var before := MeetAll(m, s, os[..n], kind);
      MeetAllGrows(m, s, os[..n], kind);
      MeetGrows(m, before, os[n], kind);
      GrowsTransitive(s.operandMap, Elements(os[..n]), before.operandMap, {os[n]},
                      Meet(m, before, os[n], kind).operandMap);
      ElementsLast(os);
    }
  }

  /** One round of the loop over the operands of an operation. */
  lemma MeetAllStep(m: Model, s: StepState, os: seq<nat>, i: nat, kind: OperandKind)
    requires i < |os|
    ensures MeetAll(m, s, os[..i] + [os[i]], kind) == Meet(m, MeetAll(m, s, os[..i], kind), os[i], kind)
    ensures os[..i] + [os[i]] == os[..i+1]
  {
    assert (os[..i] + [os[i]])[..i] == os[..i];
  }

  /** One round of the loop over the operands of an operation, with the definitions it records. */
  lemma AddOperandsRound(m: Model, s: StepState, os: seq<nat>, i: nat, kind: OperandKind, defs: map<nat, nat>,
                         index: nat)
    requires i < |os| && forall k :: 0 <= k < |os| ==> os[k] < |m.operands|
    ensures MeetAll(m, s, os[..i] + [os[i]], kind) == Meet(m, MeetAll(m, s, os[..i], kind), os[i], kind)
    ensures os[..i] + [os[i]] == os[..i+1]
    ensures |Meet(m, MeetAll(m, s, os[..i], kind), os[i], kind).operands| <= |MeetAll(m, s, os, kind).operands|
    ensures MeetAll(m, s, os[..i], kind).operandMap.Keys == s.operandMap.Keys + Elements(os[..i])
    ensures Define(m, Define(m, defs, os[..i], index), [os[i]], index) == Define(m, defs, os[..i] + [os[i]], index)
    ensures forall x :: x in Define(m, defs, os[..i], index) ==> x in defs || x in os[..i]
  {
    MeetAllStep(m, s, os, i, kind);
    MeetAllRoom(m, s, os, i + 1, kind);
    MeetAllGrows(m, s, os[..i], kind);
    DefineAppend(m, defs, os[..i], os[i], index);
  }

  /** A prefix needs no more room than the whole. */
  lemma MeetAllRoom(m: Model, s: StepState, os: seq<nat>, i: nat, kind: OperandKind)
    requires i <= |os| && forall k :: 0 <= k < |os| ==> os[k] < |m.operands|
    ensures |MeetAll(m, s, os[..i], kind).operands| <= |MeetAll(m, s, os, kind).operands|
  {
    MeetAllConcat(m, s, os[..i], os[i..], kind);
    assert os[..i] + os[i..] == os;
    MeetAllGrows(m, MeetAll(m, s, os[..i], kind), os[i..], kind);
  }

  lemma {:induction false} MeetAllConcat(m: Model, s: StepState, a: seq<nat>, b: seq<nat>, kind: OperandKind)
    ensures MeetAll(m, s, a + b, kind) == MeetAll(m, MeetAll(m, s, a, kind), b, kind)
  {
    if b == [] {
      assert a + b == a;
    } else {
      var n := |b| - 1;
      assert (a + b)[..|a + b|-1] == a + b[..n];
      MeetAllConcat(m, s, a, b[..n], kind);
    }
  }

  lemma TranslateAppend(before: map<nat, nat>, after: map<nat, nat>, os: seq<nat>, o: nat)
    requires forall x :: x in os ==> x in before
    requires forall x :: x in before ==> x in after && after[x] == before[x]
    requires o in after
    ensures Translate(after, os + [o]) == Translate(before, os) + [after[o]]
  {
  }

  lemma TranslateStable(before: map<nat, nat>, after: map<nat, nat>, os: seq<nat>)
    requires forall x :: x in os ==> x in before
    requires forall x :: x in before ==> x in after && after[x] == before[x]
    ensures Translate(after, os) == Translate(before, os)
  {
  }
}
