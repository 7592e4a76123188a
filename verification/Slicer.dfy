/** Extracting the operations that an older driver can understand. */
module Slicing {
  import opened Sequences
  import opened Models
  import opened RunOrder
  import opened Validation
  import opened ModelBuilding
  import opened Sorting
  import opened SubModels
  import opened Growing

  /** Sliced model, and how original operands, operand types and operations are represented in it. */
  datatype SliceState = SliceState(model: Model, operandMap: map<nat, nat>, byType: map<OperandType, nat>,
                                   operationMap: seq<nat>)

  const EMPTY_SLICE := SliceState(EMPTY_MODEL, map[], map[], [])

  /** Operands that the compliant ones among the first `n` operations read. */
  ghost function Consumed(m: Model, noncompliant: set<nat>, n: nat): set<nat> {
    set j, o | 0 <= j < n && j !in noncompliant && o in InputsOf(m, j) :: o
  }

  lemma ConsumedNext(m: Model, noncompliant: set<nat>, n: nat)
    ensures Consumed(m, noncompliant, n + 1) ==
            Consumed(m, noncompliant, n) + (if n in noncompliant then {} else Elements(InputsOf(m, n)))
  {
    var a, b := Consumed(m, noncompliant, n + 1), Consumed(m, noncompliant, n);
    forall o | o in b ensures o in a {
      var j :| 0 <= j < n && j !in noncompliant && o in InputsOf(m, j);
      assert 0 <= j < n + 1;
    }
  }

  function MapConstant(m: Model, s: SliceState, o: nat): SliceState
    requires o < |m.operands|
  {
    s.(model := WithConstant(s.model, m.operands[o].(numberOfConsumers := 0)),
       operandMap := s.operandMap[o := |s.model.operands|])
  }

  /** An original operand becomes an input of the slice. Operands of the same type share one input. */
  function MapInput(m: Model, s: SliceState, o: nat): SliceState
    requires o < |m.operands|
  {
    var ty := m.operands[o].ty;
    if ty in s.byType then s.(operandMap := s.operandMap[o := s.byType[ty]])
    else
      var k := |s.model.operands|;
      s.(model := WithInput(s.model, ty), operandMap := s.operandMap[o := k], byType := s.byType[ty := k])
  }

  /** The copy of an output. If only noncompliant operations read it, it becomes a model output. */
  function SlicedOutput(m: Model, o: nat, consumed: set<nat>): Operand
    requires o < |m.operands|
  {
    var operand := m.operands[o].(numberOfConsumers := 0);
    if o !in consumed && m.operands[o].numberOfConsumers > 0 then operand.(lifetime := ModelOutput) else operand
  }

  function SlicedOutputs(m: Model, os: seq<nat>, consumed: set<nat>): (r: seq<Operand>)
    requires forall o :: o in os ==> o < |m.operands|
    ensures |r| == |os|
  {
    seq(|os|, i requires 0 <= i < |os| => assert os[i] in os; SlicedOutput(m, os[i], consumed))
  }

  function MapOutputs(operandMap: map<nat, nat>, os: seq<nat>, first: nat): map<nat, nat> {
    if os == [] then operandMap
    else MapOutputs(operandMap, os[..|os|-1], first)[os[|os|-1] := first + |os| - 1]
  }

  function MapOperation(m: Model, s: SliceState, j: nat, consumed: set<nat>): SliceState
    requires j < |m.operations| && OperationInRange(m.operands, m.operations[j])
  {
    var op := m.operations[j];
    SliceState(WithOperation(s.model, op.code, Translate(s.operandMap, op.inputs),
                             SlicedOutputs(m, op.outputs, consumed)),
               MapOutputs(s.operandMap, op.outputs, |s.model.operands|), s.byType, s.operationMap + [j])
  }

  // ---------------------------------------------------------------- what slicing keeps

  /** A sliced operand keeps type, dimensions, scale and zero point of the original one; a constant
    * also keeps its value. */
  ghost predicate Faithful(m: Model, s: SliceState) {
    forall o :: o in s.operandMap ==>
      && o < |m.operands| && s.operandMap[o] < |s.model.operands|
      && Copies(m.operands[o], s.model.operands[s.operandMap[o]])
  }

  ghost predicate Copies(from: Operand, to: Operand) {
    && to.ty == from.ty
    && (from.lifetime.NoValue? || from.lifetime.ConstantCopy? || from.lifetime.ConstantReference? ==>
          to.lifetime == from.lifetime && to.value == from.value)
    && (from.lifetime.ModelInput? ==> to.lifetime.ModelInput?)
    && (from.lifetime.TemporaryVariable? ==>
          to.lifetime.TemporaryVariable? || to.lifetime.ModelOutput? || to.lifetime.ModelInput?)
    && (from.lifetime.ModelOutput? ==> to.lifetime.ModelOutput? || to.lifetime.ModelInput?)
  }

  /** There is one input for each type that is needed. */
  ghost predicate TypesShared(s: SliceState) {
    && (forall ty :: ty in s.byType ==>
          && s.byType[ty] < |s.model.operands| && s.model.operands[s.byType[ty]].ty == ty
          && s.model.operands[s.byType[ty]].lifetime.ModelInput?)
    && (forall k :: 0 <= k < |s.model.operands| && s.model.operands[k].lifetime.ModelInput? ==>
          s.model.operands[k].ty in s.byType && s.byType[s.model.operands[k].ty] == k)
  }

  ghost predicate Renamed(m: Model, s: SliceState) {
    && |s.model.operations| == |s.operationMap|
    && forall i :: 0 <= i < |s.operationMap| ==>
         && s.operationMap[i] < |m.operations|
         && RenamesInputs(m.operations[s.operationMap[i]], s.model.operations[i], s.operandMap)
  }

  /** A sliced operation is the original one with renamed operands. */
  ghost predicate RenamesInputs(from: Operation, to: Operation, operandMap: map<nat, nat>) {
    Renames(from, to, operandMap)
  }

  /** An operand has the type of some original one, and a constant also its value. */
  ghost predicate HasSource(m: Model, to: Operand) {
    exists o :: 0 <= o < |m.operands| && m.operands[o].ty == to.ty &&
                (IsConstant(to) ==> m.operands[o].lifetime == to.lifetime && m.operands[o].value == to.value)
  }

  ghost predicate Sourced(m: Model, operands: seq<Operand>) {
    forall k :: 0 <= k < |operands| ==> HasSource(m, operands[k])
  }

  ghost predicate SliceFacts(m: Model, s: SliceState) {
    WellFormed(s.model) && Faithful(m, s) && TypesShared(s) && Renamed(m, s) && Sourced(m, s.model.operands)
  }

  lemma SourcedCounted(m: Model, operands: seq<Operand>, inputs: seq<nat>)
    requires Sourced(m, operands)
    ensures Sourced(m, CountReads(operands, inputs))
  {
    forall k | 0 <= k < |operands| ensures HasSource(m, CountReads(operands, inputs)[k]) {
      assert HasSource(m, operands[k]);
    }
  }

  lemma SourcedConcat(m: Model, a: seq<Operand>, b: seq<Operand>)
    requires Sourced(m, a) && Sourced(m, b)
    ensures Sourced(m, a + b)
  {
  }

  lemma OutputsSourced(m: Model, os: seq<nat>, consumed: set<nat>)
    requires forall o :: o in os ==> o < |m.operands| && IsDataflow(m.operands[o])
    ensures Sourced(m, SlicedOutputs(m, os, consumed))
  {
    var news := SlicedOutputs(m, os, consumed);
    forall k | 0 <= k < |news| ensures HasSource(m, news[k]) {
      assert os[k] in os;
      assert m.operands[os[k]].ty == news[k].ty;
    }
  }

  lemma RenamedStill(m: Model, s: SliceState, after: SliceState)
    requires Renamed(m, s) && after.operationMap == s.operationMap && after.model.operations == s.model.operations
    requires forall o :: o in s.operandMap ==> o in after.operandMap && after.operandMap[o] == s.operandMap[o]
    ensures Renamed(m, after)
  {
    forall i | 0 <= i < |s.operationMap|
      ensures RenamesInputs(m.operations[s.operationMap[i]], after.model.operations[i], after.operandMap)
    {
      assert RenamesInputs(m.operations[s.operationMap[i]], s.model.operations[i], s.operandMap);
      RenamesStable(m.operations[s.operationMap[i]], s.model.operations[i], s.operandMap, after.operandMap);
    }
  }

  lemma ConstantTyped(m: Model, s: SliceState, o: nat)
    requires Faithful(m, s) && TypesShared(s) && o < |m.operands| && IsConstant(m.operands[o]) && o !in s.operandMap
    ensures Faithful(m, MapConstant(m, s, o)) && TypesShared(MapConstant(m, s, o))
  {
    assert Copies(m.operands[o], m.operands[o].(numberOfConsumers := 0));
  }

  lemma MapConstantKeeps(m: Model, s: SliceState, o: nat)
    requires SliceFacts(m, s) && o < |m.operands| && IsConstant(m.operands[o]) && o !in s.operandMap
    ensures SliceFacts(m, MapConstant(m, s, o))
  {
    hide WellFormed;
    WithConstantKeeps(s.model, m.operands[o].(numberOfConsumers := 0));
    var after := MapConstant(m, s, o);
    assert m.operands[o].ty == after.model.operands[|s.model.operands|].ty;
    ConstantTyped(m, s, o);
    RenamedStill(m, s, after);
  }

  lemma MapInputKeeps(m: Model, s: SliceState, o: nat)
    requires SliceFacts(m, s) && o < |m.operands| && !IsConstant(m.operands[o]) && o !in s.operandMap
    ensures SliceFacts(m, MapInput(m, s, o))
  {
    hide WellFormed, Faithful, TypesShared, Renamed;
    WithInputKeeps(s.model, m.operands[o].ty);
    var after := MapInput(m, s, o);
    assert m.operands[o].ty == Operand(m.operands[o].ty, ModelInput, [], 0).ty;
    MapInputKeys(m, s, o);
    RenamedStill(m, s, after);
    MapInputFaithful(m, s, o);
    MapInputTypes(m, s, o);
  }

  lemma MapInputFaithful(m: Model, s: SliceState, o: nat)
    requires Faithful(m, s) && TypesShared(s) && o < |m.operands| && !IsConstant(m.operands[o])
    ensures Faithful(m, MapInput(m, s, o))
  {
    var after := MapInput(m, s, o);
    assert Copies(m.operands[o], after.model.operands[after.operandMap[o]]);
  }

  lemma MapInputTypes(m: Model, s: SliceState, o: nat)
    requires TypesShared(s) && o < |m.operands|
    ensures TypesShared(MapInput(m, s, o))
  {
  }

  lemma MapInputKeys(m: Model, s: SliceState, o: nat)
    requires o < |m.operands|
    ensures MapInput(m, s, o).operandMap.Keys == s.operandMap.Keys + {o}
    ensures MapInput(m, s, o).operationMap == s.operationMap
    ensures MapInput(m, s, o).model.operations == s.model.operations
    ensures forall x :: x in s.operandMap && x != o ==> MapInput(m, s, o).operandMap[x] == s.operandMap[x]
  {
  }

  lemma FilterNext(os: seq<nat>, o: nat, filter: set<nat>)
    ensures (set x | x in os + [o] && x in filter) ==
            (set x | x in os && x in filter) + (if o in filter then {o} else {})
  {
  }

  lemma {:induction false} MapOutputsFacts(operandMap: map<nat, nat>, os: seq<nat>, first: nat)
    requires NoDup(os) && forall o :: o in os ==> o !in operandMap
    ensures MapOutputs(operandMap, os, first).Keys == operandMap.Keys + Elements(os)
    ensures forall o :: o in operandMap ==> MapOutputs(operandMap, os, first)[o] == operandMap[o]
    ensures forall i :: 0 <= i < |os| ==>
              os[i] in MapOutputs(operandMap, os, first) && MapOutputs(operandMap, os, first)[os[i]] == first + i
  {
    if os != [] {
      var n := |os| - 1;
      assert os == os[..n] + [os[n]];
      MapOutputsFacts(operandMap, os[..n], first);
      ElementsLast(os);
    }
  }

  lemma TranslatedInRange(m: Model, s: SliceState, os: seq<nat>)
    requires Faithful(m, s) && forall o :: o in os ==> o in s.operandMap
    ensures forall k :: k in Translate(s.operandMap, os) ==> k < |s.model.operands|
  {
    var t := Translate(s.operandMap, os);
    forall k | k in t ensures k < |s.model.operands| {
      var i :| 0 <= i < |t| && t[i] == k;
      assert os[i] in os;
    }
  }

  lemma MapOperationFaithful(m: Model, s: SliceState, j: nat, consumed: set<nat>)
    requires Faithful(m, s) && j < |m.operations| && OperationInRange(m.operands, m.operations[j])
    requires NoDup(m.operations[j].outputs)
    requires forall o :: o in m.operations[j].outputs ==> o !in s.operandMap && IsDataflow(m.operands[o])
    ensures Faithful(m, MapOperation(m, s, j, consumed))
  {
    hide MapOutputs, OutputsAmong;
    var op := m.operations[j];
    var after := MapOperation(m, s, j, consumed);
    MapOutputsFacts(s.operandMap, op.outputs, |s.model.operands|);
    forall o | o in after.operandMap
      ensures o < |m.operands| && after.operandMap[o] < |after.model.operands|
      ensures Copies(m.operands[o], after.model.operands[after.operandMap[o]])
    {
      if o in s.operandMap {
        assert Copies(m.operands[o], s.model.operands[s.operandMap[o]]);
      } else {
        assert o in Elements(op.outputs);
        var i :| 0 <= i < |op.outputs| && op.outputs[i] == o;
        assert after.model.operands[|s.model.operands| + i] == SlicedOutput(m, o, consumed);
      }
    }
  }

  lemma MapOperationTypes(m: Model, s: SliceState, j: nat, consumed: set<nat>)
    requires TypesShared(s) && j < |m.operations| && OperationInRange(m.operands, m.operations[j])
    requires forall o :: o in m.operations[j].outputs ==> IsDataflow(m.operands[o])
    ensures TypesShared(MapOperation(m, s, j, consumed))
  {
    var op := m.operations[j];
    var news := SlicedOutputs(m, op.outputs, consumed);
    forall i | 0 <= i < |news| ensures !news[i].lifetime.ModelInput? { assert op.outputs[i] in op.outputs; }
  }

  lemma MapOperationRenamed(m: Model, s: SliceState, j: nat, consumed: set<nat>)
    requires Renamed(m, s) && j < |m.operations| && OperationInRange(m.operands, m.operations[j])
    requires NoDup(m.operations[j].outputs)
    requires forall o :: o in m.operations[j].outputs ==> o !in s.operandMap
    requires forall o :: o in m.operations[j].inputs ==> o in s.operandMap
    ensures Renamed(m, MapOperation(m, s, j, consumed))
  {
    hide MapOutputs, OutputsAmong, CountReads, SlicedOutputs;
    var op, n := m.operations[j], |s.operationMap|;
    var after := MapOperation(m, s, j, consumed);
    MapOutputsFacts(s.operandMap, op.outputs, |s.model.operands|);
    forall i | 0 <= i <= n
      ensures RenamesInputs(m.operations[after.operationMap[i]], after.model.operations[i], after.operandMap)
    {
      if i < n {
        assert RenamesInputs(m.operations[s.operationMap[i]], s.model.operations[i], s.operandMap);
        RenamesStable(m.operations[s.operationMap[i]], s.model.operations[i], s.operandMap, after.operandMap);
      } else {
        assert Translate(after.operandMap, op.inputs) == Translate(s.operandMap, op.inputs) by {
          forall x | 0 <= x < |op.inputs| ensures after.operandMap[op.inputs[x]] == s.operandMap[op.inputs[x]] {
            assert op.inputs[x] in op.inputs;
          }
        }
        assert Translate(after.operandMap, op.outputs) == From(|s.model.operands|, |op.outputs|);
      }
    }
  }

  lemma MapOperationKeeps(m: Model, s: SliceState, j: nat, consumed: set<nat>)
    requires SliceFacts(m, s) && j < |m.operations| && OperationInRange(m.operands, m.operations[j])
    requires NoDup(m.operations[j].outputs)
    requires forall o :: o in m.operations[j].outputs ==> o !in s.operandMap && IsDataflow(m.operands[o])
    requires forall o :: o in m.operations[j].inputs ==> o in s.operandMap
    ensures SliceFacts(m, MapOperation(m, s, j, consumed))
  {
    var op := m.operations[j];
    TranslatedInRange(m, s, op.inputs);
    var news := SlicedOutputs(m, op.outputs, consumed);
    forall i | 0 <= i < |news| ensures IsDataflow(news[i]) && news[i].numberOfConsumers == 0 {
      assert op.outputs[i] in op.outputs;
    }
    WithOperationKeeps(s.model, op.code, Translate(s.operandMap, op.inputs), news);
    hide WellFormed, Faithful, TypesShared, Renamed, Sourced;
    SourcedCounted(m, s.model.operands, Translate(s.operandMap, op.inputs));
    OutputsSourced(m, op.outputs, consumed);
    SourcedConcat(m, CountReads(s.model.operands, Translate(s.operandMap, op.inputs)), news);
    MapOperationFaithful(m, s, j, consumed);
    MapOperationTypes(m, s, j, consumed);
    MapOperationRenamed(m, s, j, consumed);
  }

  // ---------------------------------------------------------------- copying outputs

  function WithOutput(m: Model, s: SliceState, o: nat, consumed: set<nat>): SliceState
    requires o < |m.operands|
  {
    var operand, first := SlicedOutput(m, o, consumed), |s.model.operands|;
    s.(model := s.model.(operands := s.model.operands + [operand],
                         outputIndexes := s.model.outputIndexes +
                                          (if operand.lifetime.ModelOutput? then [first] else [])),
       operandMap := s.operandMap[o := first])
  }

  function WithOutputs(m: Model, s: SliceState, os: seq<nat>, consumed: set<nat>): SliceState
    requires forall o :: o in os ==> o < |m.operands|
  {
    var news, first := SlicedOutputs(m, os, consumed), |s.model.operands|;
    s.(model := s.model.(operands := s.model.operands + news,
                         outputIndexes := s.model.outputIndexes + OutputsAmong(news, first)),
       operandMap := MapOutputs(s.operandMap, os, first))
  }

  ghost predicate InOperands(m: Model, os: seq<nat>) {
    forall o :: o in os ==> o < |m.operands|
  }

  lemma WithOutputsNext(m: Model, s: SliceState, os: seq<nat>, i: nat, consumed: set<nat>)
    requires i < |os| && NoDup(os) && forall o :: o in os ==> o < |m.operands| && o !in s.operandMap
    requires InOperands(m, os[..i])
    ensures os[i] < |m.operands| && InOperands(m, os[..i+1])
    ensures os[i] !in WithOutputs(m, s, os[..i], consumed).operandMap
    ensures WithOutputs(m, s, os[..i+1], consumed) ==
            WithOutput(m, WithOutputs(m, s, os[..i], consumed), os[i], consumed)
  {
    hide MapOutputs, OutputsAmong, SlicedOutput;
    var first := |s.model.operands|;
    assert os[i] in os && os[..i+1] == os[..i] + [os[i]];
    MapOutputsPrefix(s.operandMap, os, first, i);
    SlicedOutputsAppend(m, os[..i], os[i], consumed, first);
  }

  /** Outputs of the first `n` operations that exist in the slice. */
  ghost function MappedOutputs(m: Model, noncompliant: set<nat>, consumed: set<nat>, n: nat): set<nat> {
    set j, o | 0 <= j < n && o in OutputsOf(m, j) && Kept(noncompliant, consumed, j, o) :: o
  }

  ghost predicate Kept(noncompliant: set<nat>, consumed: set<nat>, j: nat, o: nat) {
    j !in noncompliant || o in consumed
  }

  lemma MappedOutputsNext(m: Model, noncompliant: set<nat>, consumed: set<nat>, n: nat)
    ensures MappedOutputs(m, noncompliant, consumed, n + 1) ==
            MappedOutputs(m, noncompliant, consumed, n) +
            (set o | o in OutputsOf(m, n) && Kept(noncompliant, consumed, n, o))
  {
    var a, b := MappedOutputs(m, noncompliant, consumed, n + 1), MappedOutputs(m, noncompliant, consumed, n);
    forall o | o in b ensures o in a {
      var j :| 0 <= j < n && o in OutputsOf(m, j) && Kept(noncompliant, consumed, j, o);
      assert 0 <= j < n + 1;
    }
  }

  /** Constants and model inputs among the operands that are read. */
  ghost function MappedSources(m: Model, consumed: set<nat>): set<nat> {
    set o | o in consumed && o < |m.operands| && !IsDataflow(m.operands[o])
  }

  ghost function Mapped(m: Model, noncompliant: set<nat>, consumed: set<nat>, n: nat): set<nat> {
    MappedSources(m, consumed) + MappedOutputs(m, noncompliant, consumed, n)
  }

  /** Outputs of an operation are not in the slice when it is their turn. */
  lemma OutputsUnmapped(m: Model, noncompliant: set<nat>, consumed: set<nat>, n: nat)
    requires WrittenOnce(m) && n < |m.operations|
    ensures forall o :: o in m.operations[n].outputs ==> o !in Mapped(m, noncompliant, consumed, n)
  {
    forall o | o in m.operations[n].outputs ensures o !in Mapped(m, noncompliant, consumed, n) {
      WrittenIsResult(m, n, o);
      assert forall j :: 0 <= j < n ==> o !in OutputsOf(m, j);
    }
  }

  /** Inputs of a compliant operation are in the slice when it is its turn. */
  lemma InputsMapped(m: Model, noncompliant: set<nat>, n: nat, o: nat)
    requires InRange(m) && InRunOrder(m) && n < |m.operations| && n !in noncompliant && o in m.operations[n].inputs
    ensures o in Mapped(m, noncompliant, Consumed(m, noncompliant, |m.operations|), n)
  {
    var consumed := Consumed(m, noncompliant, |m.operations|);
    assert o in InputsOf(m, n) && o in consumed;
    assert OperationInRange(m.operands, m.operations[n]);
    if IsDataflow(m.operands[o]) {
      var order := Identity(|m.operations|);
      assert Ready(m, order[n], Outs(m, order[..n]));
      var j :| j in order[..n] && o in OutputsOf(m, j);
      assert 0 <= j < n && Kept(noncompliant, consumed, j, o);
    }
  }

  // ---------------------------------------------------------------- the slicer

  datatype SlicePhase = Uninitialized | Invalid | Normal

  /** Compliant operations, in order. */
  function Compliant(noncompliant: set<nat>, n: nat): seq<nat> {
    if n == 0 then []
    else Compliant(noncompliant, n - 1) + (if n - 1 in noncompliant then [] else [n - 1])
  }

  lemma {:induction false} CompliantMember(noncompliant: set<nat>, n: nat, j: nat)
    ensures j in Compliant(noncompliant, n) <==> j < n && j !in noncompliant
  {
    if n > 0 { CompliantMember(noncompliant, n - 1, j); }
  }

  class Slice {
    var operands: seq<Operand>
    var operations: seq<Operation>
    var inputIndexes: seq<nat>
    var outputIndexes: seq<nat>
    var origOperandIndexToSlicedIndex: map<nat, nat>
    var inputIndexOfType: map<OperandType, nat>
    var slicedOperationIndexToOrigIndex: seq<nat>
    var phase: SlicePhase

    function State(): SliceState
      reads this
    {
      SliceState(Model(operands, operations, inputIndexes, outputIndexes),
                 origOperandIndexToSlicedIndex, inputIndexOfType, slicedOperationIndexToOrigIndex)
    }

    constructor ()
      ensures State() == EMPTY_SLICE && phase == Uninitialized
    {
      operands, operations, inputIndexes, outputIndexes := [], [], [], [];
      origOperandIndexToSlicedIndex, inputIndexOfType, slicedOperationIndexToOrigIndex := map[], map[], [];
      phase := Uninitialized;
    }

    method CopyConstant(m: Model, o: nat)
      requires o < |m.operands|
      modifies this
      ensures State() == MapConstant(m, old(State()), o) && phase == old(phase)
    {
      origOperandIndexToSlicedIndex := origOperandIndexToSlicedIndex[o := |operands|];
      operands := operands + [m.operands[o].(numberOfConsumers := 0)];
    }

    /** The input of the slice for operands of the given type; a new one if there is none yet. */
    method GetIndex(ty: OperandType) returns (slicedIndex: nat)
      modifies this
      ensures phase == old(phase)
      ensures ty in old(inputIndexOfType) ==> State() == old(State()) && slicedIndex == inputIndexOfType[ty]
      ensures ty !in old(inputIndexOfType) ==>
                && slicedIndex == |old(operands)|
                && State() == old(State()).(model := WithInput(old(State()).model, ty),
                                            byType := old(inputIndexOfType)[ty := slicedIndex])
    {
      if ty in inputIndexOfType { return inputIndexOfType[ty]; }
      slicedIndex := |operands|;
      operands := operands + [Operand(ty, ModelInput, [], 0)];
      inputIndexOfType := inputIndexOfType[ty := slicedIndex];
      inputIndexes := inputIndexes + [slicedIndex];
    }

    method MakeInput(m: Model, o: nat)
      requires o < |m.operands|
      modifies this
      ensures State() == MapInput(m, old(State()), o) && phase == old(phase)
    {
      var slicedIndex := GetIndex(m.operands[o].ty);
      origOperandIndexToSlicedIndex := origOperandIndexToSlicedIndex[o := slicedIndex];
    }

    /** Collects the inputs of one compliant operation and copies those that are constants. */
    method CollectInputs(m: Model, inputs: seq<nat>, before: set<nat>) returns (consumed: set<nat>)
      requires ConstantsCopied(m, State(), before) && forall o :: o in inputs ==> o < |m.operands|
      modifies this
      ensures consumed == before + Elements(inputs) && ConstantsCopied(m, State(), consumed)
      ensures phase == old(phase)
    {
      hide ConstantsCopied;
      consumed := before;
      for i := 0 to |inputs|
        invariant consumed == before + Elements(inputs[..i]) && ConstantsCopied(m, State(), consumed)
        invariant phase == old(phase)
      {
        var o := inputs[i];
        assert o in inputs && inputs[..i+1] == inputs[..i] + [o];
        ConstantsCopiedNext(m, State(), consumed, o);
        if o !in consumed {
          if IsConstant(m.operands[o]) { CopyConstant(m, o); }
        }
        consumed := consumed + {o};
      }
      assert inputs[..|inputs|] == inputs;
    }

    method CollectAll(m: Model, noncompliant: set<nat>) returns (consumed: set<nat>)
      requires InRange(m) && State() == EMPTY_SLICE
      modifies this
      ensures consumed == Consumed(m, noncompliant, |m.operations|) && ConstantsCopied(m, State(), consumed)
      ensures phase == old(phase)
    {
      consumed := {};
      EmptyWellFormed();
      for j := 0 to |m.operations|
        invariant consumed == Consumed(m, noncompliant, j) && ConstantsCopied(m, State(), consumed)
        invariant phase == old(phase)
      {
        ConsumedNext(m, noncompliant, j);
        if j in noncompliant { continue; }
        assert OperationInRange(m.operands, m.operations[j]);
        consumed := CollectInputs(m, m.operations[j].inputs, consumed);
      }
    }

    /** Model inputs that compliant operations read become inputs of the slice. */
    method CopyInputs(m: Model, consumed: set<nat>)
      requires ConstantsCopied(m, State(), consumed) && InterfaceListed(m) &&
               ValidIndexes(m, m.inputIndexes, ModelInput)
      requires forall o :: o in consumed ==> o < |m.operands|
      modifies this
      ensures Sliced(m, {}, State(), consumed, 0) && phase == old(phase)
    {
      InputsCopiedStart(m, State(), consumed);
      assert m.inputIndexes[..0] == [];
      hide ConstantsCopied, InputsCopied, Sliced, InterfaceListed;
      for i := 0 to |m.inputIndexes|
        invariant InputsCopied(m, State(), consumed, m.inputIndexes[..i])
        invariant phase == old(phase)
      {
        var o := m.inputIndexes[i];
        assert o in m.inputIndexes && o !in m.inputIndexes[..i];
        InputsCopiedNext(m, State(), consumed, m.inputIndexes[..i], o);
        assert m.inputIndexes[..i+1] == m.inputIndexes[..i] + [o];
        if o in consumed { MakeInput(m, o); }
      }
      assert m.inputIndexes[..|m.inputIndexes|] == m.inputIndexes;
      InputsCopiedDone(m, State(), consumed);
    }

    /** Adds a compliant operation: its inputs are there, its outputs are not. */
    method CopyOperation(m: Model, j: nat, consumed: set<nat>)
      requires j < |m.operations| && OperationInRange(m.operands, m.operations[j]) && Faithful(m, State())
      requires NoDup(m.operations[j].outputs)
      requires forall o :: o in m.operations[j].inputs ==> o in origOperandIndexToSlicedIndex
      requires forall o :: o in m.operations[j].outputs ==> o !in origOperandIndexToSlicedIndex
      modifies this
      ensures State() == MapOperation(m, old(State()), j, consumed) && phase == old(phase)
    {
      var op := m.operations[j];
      ghost var s := State();
      slicedOperationIndexToOrigIndex := slicedOperationIndexToOrigIndex + [j];
      var inputs := CountInputs(m, op.inputs);
      var outputs := CopyOutputs(m, op.outputs, consumed);
      operations := operations + [Operation(op.code, inputs, outputs)];
    }

    method CountInputs(m: Model, os: seq<nat>) returns (inputs: seq<nat>)
      requires Faithful(m, State())
      requires forall o :: o in os ==> o in origOperandIndexToSlicedIndex
      modifies this`operands
      ensures inputs == Translate(origOperandIndexToSlicedIndex, os)
      ensures operands == CountReads(old(operands), inputs)
    {
      inputs := [];
      for i := 0 to |os|
        invariant inputs == Translate(origOperandIndexToSlicedIndex, os[..i])
        invariant operands == CountReads(old(operands), inputs)
      {
        assert os[i] in os && os[..i+1] == os[..i] + [os[i]];
        var k := origOperandIndexToSlicedIndex[os[i]];
        CountReadsAppend(old(operands), inputs, k);
        operands := operands[k := operands[k].(numberOfConsumers := operands[k].numberOfConsumers + 1)];
        inputs := inputs + [k];
      }
      assert os[..|os|] == os;
    }

    method CopyOutputs(m: Model, os: seq<nat>, consumed: set<nat>) returns (outputs: seq<nat>)
      requires NoDup(os) && forall o :: o in os ==> o < |m.operands| && o !in origOperandIndexToSlicedIndex
      modifies this`operands, this`outputIndexes, this`origOperandIndexToSlicedIndex
      ensures outputs == From(|old(operands)|, |os|)
      ensures State() == WithOutputs(m, old(State()), os, consumed)
    {
      outputs := [];
      assert WithOutputs(m, State(), os[..0], consumed) == State();
      for i := 0 to |os|
        invariant InOperands(m, os[..i])
        invariant outputs == From(|old(operands)|, i) && |operands| == |old(operands)| + i
        invariant State() == WithOutputs(m, old(State()), os[..i], consumed)
      {
        assert os[i] in os;
        assert forall x :: x in os[..i+1] ==> x in os;
        WithOutputsNext(m, old(State()), os, i, consumed);
        CopyOutput(m, os[i], consumed);
        outputs := outputs + [|operands| - 1];
      }
      assert os[..|os|] == os;
    }

    method CopyOutput(m: Model, o: nat, consumed: set<nat>)
      requires o < |m.operands| && o !in origOperandIndexToSlicedIndex
      modifies this`operands, this`outputIndexes, this`origOperandIndexToSlicedIndex
      ensures State() == WithOutput(m, old(State()), o, consumed) && |operands| == |old(operands)| + 1
    {
      var slicedOperand := SlicedOutput(m, o, consumed);
      if slicedOperand.lifetime == ModelOutput {
        outputIndexes := outputIndexes + [|operands|];
      }
      origOperandIndexToSlicedIndex := origOperandIndexToSlicedIndex[o := |operands|];
      operands := operands + [slicedOperand];
    }

    /** Outputs of a noncompliant operation that compliant ones read become inputs of the slice. */
    method CopyBoundary(m: Model, noncompliant: set<nat>, j: nat, consumed: set<nat>)
      requires WrittenOnce(m) && j < |m.operations| && j in noncompliant &&
               Sliced(m, noncompliant, State(), consumed, j)
      modifies this
      ensures Sliced(m, noncompliant, State(), consumed, j + 1) && phase == old(phase)
    {
      var os := m.operations[j].outputs;
      OutputsUnmapped(m, noncompliant, consumed, j);
      assert NoDup(os) && os[..0] == [];
      for i := 0 to |os|
        invariant BoundaryCopied(m, noncompliant, State(), consumed, j, os[..i]) && phase == old(phase)
      {
        var o := os[i];
        assert o in os && o !in os[..i] && os[..i+1] == os[..i] + [o];
        WrittenIsResult(m, j, o);
        BoundaryCopiedNext(m, noncompliant, State(), consumed, j, os[..i], o);
        if o in consumed { MakeInput(m, o); }
      }
      assert os[..|os|] == os;
      BoundaryDone(m, noncompliant, State(), consumed, j);
    }

    /** Whether the slice is of no use. Its pools are those of the original model. */
    method IsInvalid(rules: TypeRules, poolsValid: bool) returns (invalid: bool)
      requires WellFormed(State().model)
      ensures invalid <==> Rejected(rules, poolsValid, State())
    {
      if |operations| == 0 { return true; }
      if |outputIndexes| == 0 { return true; }
      ghost var m := State().model;
      assert outputIndexes[0] in m.outputIndexes;
      var valid := ValidateModel(rules, State().model, poolsValid);
      invalid := !valid;
    }

    /** Makes the slice. No lookup fails, and no operand is mapped twice. A slice with an operation and
      * an output fails validation only for its types or pools. */
    method InitializeSlice(rules: TypeRules, poolsValid: bool, m: Model, noncompliant: set<nat>)
      requires WellFormed(m) && State() == EMPTY_SLICE && phase == Uninitialized
      modifies this
      ensures Sliced(m, noncompliant, State(), Consumed(m, noncompliant, |m.operations|), |m.operations|)
      ensures phase == if Rejected(rules, poolsValid, State()) then Invalid else Normal
    {
      hide InRange, WrittenOnce, ConsumersCounted, Consumed, ConstantsCopied;
      hide Sliced, InterfaceListed, InRunOrder, ValidIndexes, Rejected;
      var consumed := CollectAll(m, noncompliant);
      ConsumedInRange(m, noncompliant, |m.operations|);
      CopyInputs(m, consumed);
      SlicedStart(m, noncompliant, State(), consumed);
      for j := 0 to |m.operations|
        invariant Sliced(m, noncompliant, State(), consumed, j)
        invariant phase == Uninitialized
      {
        CopyNext(m, noncompliant, j, consumed);
      }
      SlicedWellFormed(m, noncompliant, State(), consumed, |m.operations|);
      var invalid := IsInvalid(rules, poolsValid);
      phase := if invalid then Invalid else Normal;
    }

    /** One round of the main loop. */
    method CopyNext(m: Model, noncompliant: set<nat>, j: nat, consumed: set<nat>)
      requires WellFormed(m) && j < |m.operations| && consumed == Consumed(m, noncompliant, |m.operations|)
      requires Sliced(m, noncompliant, State(), consumed, j)
      modifies this
      ensures Sliced(m, noncompliant, State(), consumed, j + 1) && phase == old(phase)
    {
      if j in noncompliant {
        CopyBoundary(m, noncompliant, j, consumed);
      } else {
        assert OperationInRange(m.operands, m.operations[j]);
        SlicedReady(m, noncompliant, State(), j);
        SlicedNext(m, noncompliant, State(), j);
        CopyOperation(m, j, consumed);
      }
    }
  }

  lemma SlicedWellFormed(m: Model, noncompliant: set<nat>, s: SliceState, consumed: set<nat>, n: nat)
    requires Sliced(m, noncompliant, s, consumed, n)
    ensures WellFormed(s.model)
  {
  }

  /** A slice is rejected when it is empty, has no output, or has types or pools that the older version
    * does not know. */
  ghost predicate Rejected(rules: TypeRules, poolsValid: bool, s: SliceState) {
    || s.model.operations == [] || s.model.outputIndexes == [] || !poolsValid
    || !OperandsAdmitted(rules, s.model) || !OperationsTyped(rules, s.model)
  }

  /** When the tables of the older version allow the types of the model and its compliant operations,
    * types are no reason to reject the slice. */
  lemma TypesNeverReject(rules: TypeRules, m: Model, noncompliant: set<nat>, s: SliceState)
    requires Sliced(m, noncompliant, s, Consumed(m, noncompliant, |m.operations|), |m.operations|)
    requires OperandsAdmitted(rules, m)
    requires forall j {:trigger Typed(rules, m, m.operations[j])} ::
               0 <= j < |m.operations| && j !in noncompliant ==> Typed(rules, m, m.operations[j])
    ensures OperandsAdmitted(rules, s.model) && OperationsTyped(rules, s.model)
  {
    hide WellFormed, TypesShared, OutputsMarked, Mapped;
    forall k | 0 <= k < |s.model.operands| ensures OperandAdmitted(rules, s.model.operands[k]) {
      assert HasSource(m, s.model.operands[k]);
      var o :| 0 <= o < |m.operands| && m.operands[o].ty == s.model.operands[k].ty &&
               (IsConstant(s.model.operands[k]) ==> m.operands[o].lifetime == s.model.operands[k].lifetime &&
                                                    m.operands[o].value == s.model.operands[k].value);
      assert OperandAdmitted(rules, m.operands[o]);
    }
    forall i | 0 <= i < |s.model.operations| ensures Typed(rules, s.model, s.model.operations[i]) {
      var j := s.operationMap[i];
      assert j in s.operationMap;
      CompliantMember(noncompliant, |m.operations|, j);
      assert Typed(rules, m, m.operations[j]);
      assert RenamesInputs(m.operations[j], s.model.operations[i], s.operandMap);
      SlicedTypes(m, s, m.operations[j].inputs);
      SlicedTypes(m, s, m.operations[j].outputs);
    }
  }

  lemma SlicedTypes(m: Model, s: SliceState, os: seq<nat>)
    requires Faithful(m, s) && forall o :: o in os ==> o < |m.operands| && o in s.operandMap
    ensures forall k :: k in Translate(s.operandMap, os) ==> k < |s.model.operands|
    ensures TypesOf(s.model, Translate(s.operandMap, os)) == TypesOf(m, os)
  {
    TranslatedInRange(m, s, os);
    var t := Translate(s.operandMap, os);
    forall i | 0 <= i < |os| ensures t[i] < |s.model.operands| && s.model.operands[t[i]].ty == m.operands[os[i]].ty {
      assert os[i] in os && t[i] in t;
      assert Copies(m.operands[os[i]], s.model.operands[s.operandMap[os[i]]]);
    }
  }

  // ---------------------------------------------------------------- facts about the phases

  ghost predicate ConstantsCopied(m: Model, s: SliceState, consumed: set<nat>) {
    && SliceFacts(m, s) && s.byType == map[] && s.operationMap == []
    && s.operandMap.Keys == (set o | o in consumed && o < |m.operands| && IsConstant(m.operands[o]))
  }

  lemma ConstantsCopiedNext(m: Model, s: SliceState, consumed: set<nat>, o: nat)
    requires ConstantsCopied(m, s, consumed) && o < |m.operands|
    ensures if o !in consumed && IsConstant(m.operands[o]) then ConstantsCopied(m, MapConstant(m, s, o), consumed + {o})
            else ConstantsCopied(m, s, consumed + {o})
  {
    hide SliceFacts;
    if o !in consumed && IsConstant(m.operands[o]) {
      MapConstantKeeps(m, s, o);
      assert MapConstant(m, s, o).operandMap.Keys == s.operandMap.Keys + {o};
    }
  }

  ghost predicate InputsCopied(m: Model, s: SliceState, consumed: set<nat>, inputs: seq<nat>) {
    && SliceFacts(m, s) && s.operationMap == []
    && s.operandMap.Keys ==
       (set o | o in consumed && o < |m.operands| && IsConstant(m.operands[o])) + (set o | o in inputs && o in consumed)
  }

  lemma InputsCopiedNext(m: Model, s: SliceState, consumed: set<nat>, inputs: seq<nat>, o: nat)
    requires InputsCopied(m, s, consumed, inputs)
    requires o < |m.operands| && m.operands[o].lifetime.ModelInput? && o !in inputs
    ensures InputsCopied(m, if o in consumed then MapInput(m, s, o) else s, consumed, inputs + [o])
  {
    hide SliceFacts;
    if o in consumed {
      MapInputKeeps(m, s, o);
      MapInputKeys(m, s, o);
    }
    FilterNext(inputs, o, consumed);
  }

  lemma InputsCopiedStart(m: Model, s: SliceState, consumed: set<nat>)
    requires ConstantsCopied(m, s, consumed)
    ensures InputsCopied(m, s, consumed, [])
  {
    hide SliceFacts;
  }

  /** Once the inputs are there, the slice is ready for the first operation, whatever is noncompliant. */
  lemma InputsCopiedDone(m: Model, s: SliceState, consumed: set<nat>)
    requires InputsCopied(m, s, consumed, m.inputIndexes)
    requires InterfaceListed(m) && ValidIndexes(m, m.inputIndexes, ModelInput)
    ensures Sliced(m, {}, s, consumed, 0)
  {
    hide SliceFacts;
    assert forall o :: 0 <= o < |m.operands| ==> (m.operands[o].lifetime.ModelInput? <==> o in m.inputIndexes);
    assert s.operandMap.Keys == MappedSources(m, consumed);
    assert MappedOutputs(m, {}, consumed, 0) == {};
  }

  lemma SlicedStart(m: Model, noncompliant: set<nat>, s: SliceState, consumed: set<nat>)
    requires Sliced(m, {}, s, consumed, 0)
    ensures Sliced(m, noncompliant, s, consumed, 0)
  {
    hide SliceFacts, OutputsMarked;
    assert MappedOutputs(m, noncompliant, consumed, 0) == {} == MappedOutputs(m, {}, consumed, 0);
  }

  lemma ConsumedInRange(m: Model, noncompliant: set<nat>, n: nat)
    requires InRange(m)
    ensures forall o :: o in Consumed(m, noncompliant, n) ==> o < |m.operands|
  {
  }

  lemma MapOutputsAppend(operandMap: map<nat, nat>, os: seq<nat>, o: nat, first: nat)
    ensures MapOutputs(operandMap, os + [o], first) == MapOutputs(operandMap, os, first)[o := first + |os|]
  {
    assert (os + [o])[..|os|] == os;
  }

  lemma MapOutputsPrefix(operandMap: map<nat, nat>, os: seq<nat>, first: nat, i: nat)
    requires NoDup(os) && (forall o :: o in os ==> o !in operandMap) && i < |os|
    ensures os[i] !in MapOutputs(operandMap, os[..i], first)
    ensures MapOutputs(operandMap, os[..i+1], first) == MapOutputs(operandMap, os[..i], first)[os[i] := first + i]
  {
    var prefix := os[..i];
    assert forall o :: o in prefix ==> o in os;
    MapOutputsFacts(operandMap, prefix, first);
    assert os[i] in os && os[i] !in prefix;
    assert os[..i+1] == prefix + [os[i]];
    MapOutputsAppend(operandMap, prefix, os[i], first);
  }

  lemma SlicedOutputsAppend(m: Model, os: seq<nat>, o: nat, consumed: set<nat>, first: nat)
    requires o < |m.operands| && forall x :: x in os ==> x < |m.operands|
    ensures forall x :: x in os + [o] ==> x < |m.operands|
    ensures SlicedOutputs(m, os + [o], consumed) == SlicedOutputs(m, os, consumed) + [SlicedOutput(m, o, consumed)]
    ensures OutputsAmong(SlicedOutputs(m, os + [o], consumed), first) ==
            OutputsAmong(SlicedOutputs(m, os, consumed), first) +
            (if SlicedOutput(m, o, consumed).lifetime.ModelOutput? then [first + |os|] else [])
  {
    var a := SlicedOutputs(m, os, consumed);
    assert SlicedOutputs(m, os + [o], consumed) == a + [SlicedOutput(m, o, consumed)];
    assert (a + [SlicedOutput(m, o, consumed)])[..|a|] == a;
  }

  /** An output of a sliced operation is a model output of the slice exactly when it is one of the
    * original model, or something reads it but no compliant operation does. */
  ghost predicate OutputsMarked(m: Model, s: SliceState, consumed: set<nat>) {
    forall i, o :: 0 <= i < |s.operationMap| && o in OutputsOf(m, s.operationMap[i]) && o < |m.operands| ==>
      Marked(m, s, consumed, o)
  }

  ghost predicate Marked(m: Model, s: SliceState, consumed: set<nat>, o: nat)
    requires o < |m.operands|
  {
    && o in s.operandMap && s.operandMap[o] < |s.model.operands|
    && (s.model.operands[s.operandMap[o]].lifetime.ModelOutput? <==>
          m.operands[o].lifetime.ModelOutput? || (o !in consumed && m.operands[o].numberOfConsumers > 0))
  }

  lemma MapInputMarked(m: Model, s: SliceState, o: nat, consumed: set<nat>)
    requires OutputsMarked(m, s, consumed) && o < |m.operands| && o !in s.operandMap
    ensures OutputsMarked(m, MapInput(m, s, o), consumed)
  {
    var after := MapInput(m, s, o);
    forall i, x | 0 <= i < |s.operationMap| && x in OutputsOf(m, s.operationMap[i]) && x < |m.operands|
      ensures Marked(m, after, consumed, x)
    {
      assert Marked(m, s, consumed, x);
    }
  }

  lemma MapOperationMarked(m: Model, s: SliceState, j: nat, consumed: set<nat>)
    requires OutputsMarked(m, s, consumed) && j < |m.operations| && OperationInRange(m.operands, m.operations[j])
    requires NoDup(m.operations[j].outputs)
    requires forall o :: o in m.operations[j].outputs ==> o !in s.operandMap && IsDataflow(m.operands[o])
    ensures OutputsMarked(m, MapOperation(m, s, j, consumed), consumed)
  {
    var op := m.operations[j];
    var after := MapOperation(m, s, j, consumed);
    MapOutputsFacts(s.operandMap, op.outputs, |s.model.operands|);
    forall i, o | 0 <= i < |after.operationMap| && o in OutputsOf(m, after.operationMap[i]) && o < |m.operands|
      ensures Marked(m, after, consumed, o)
    {
      if i < |s.operationMap| {
        assert Marked(m, s, consumed, o);
      } else {
        var k :| 0 <= k < |op.outputs| && op.outputs[k] == o;
        assert after.model.operands[|s.model.operands| + k] == SlicedOutput(m, o, consumed);
      }
    }
  }

  /** The slice after the first `n` operations. */
  ghost predicate Sliced(m: Model, noncompliant: set<nat>, s: SliceState, consumed: set<nat>, n: nat) {
    && SliceFacts(m, s) && OutputsMarked(m, s, consumed)
    && s.operandMap.Keys == Mapped(m, noncompliant, consumed, n)
    && s.operationMap == Compliant(noncompliant, n)
  }

  ghost predicate BoundaryCopied(m: Model, noncompliant: set<nat>, s: SliceState, consumed: set<nat>, n: nat,
                                 os: seq<nat>) {
    && SliceFacts(m, s) && OutputsMarked(m, s, consumed) && s.operationMap == Compliant(noncompliant, n)
    && s.operandMap.Keys == Mapped(m, noncompliant, consumed, n) + (set o | o in os && o in consumed)
  }

  lemma BoundaryCopiedNext(m: Model, noncompliant: set<nat>, s: SliceState, consumed: set<nat>, n: nat, os: seq<nat>,
                           o: nat)
    requires BoundaryCopied(m, noncompliant, s, consumed, n, os)
    requires o < |m.operands| && IsDataflow(m.operands[o]) && o !in os && o !in Mapped(m, noncompliant, consumed, n)
    ensures BoundaryCopied(m, noncompliant, if o in consumed then MapInput(m, s, o) else s, consumed, n, os + [o])
  {
    hide SliceFacts, OutputsMarked, Mapped, Compliant;
    if o in consumed {
      MapInputKeeps(m, s, o);
      MapInputMarked(m, s, o, consumed);
      MapInputKeys(m, s, o);
    }
    FilterNext(os, o, consumed);
  }

  lemma BoundaryDone(m: Model, noncompliant: set<nat>, s: SliceState, consumed: set<nat>, n: nat)
    requires n in noncompliant && BoundaryCopied(m, noncompliant, s, consumed, n, OutputsOf(m, n))
    ensures Sliced(m, noncompliant, s, consumed, n + 1)
  {
    hide SliceFacts, OutputsMarked;
    MappedOutputsNext(m, noncompliant, consumed, n);
    assert (set o | o in OutputsOf(m, n) && Kept(noncompliant, consumed, n, o)) ==
           (set o | o in OutputsOf(m, n) && o in consumed);
  }

  lemma SlicedReady(m: Model, noncompliant: set<nat>, s: SliceState, n: nat)
    requires WellFormed(m) && n < |m.operations| && n !in noncompliant
    requires s.operandMap.Keys == Mapped(m, noncompliant, Consumed(m, noncompliant, |m.operations|), n)
    ensures forall o :: o in m.operations[n].inputs ==> o in s.operandMap
    ensures forall o :: o in m.operations[n].outputs ==>
              o !in s.operandMap && o < |m.operands| && IsDataflow(m.operands[o])
    ensures OperationInRange(m.operands, m.operations[n]) && NoDup(m.operations[n].outputs)
  {
    var consumed, op := Consumed(m, noncompliant, |m.operations|), m.operations[n];
    assert OperationInRange(m.operands, op);
    forall o | o in op.inputs ensures o in s.operandMap { InputsMapped(m, noncompliant, n, o); }
    OutputsUnmapped(m, noncompliant, consumed, n);
  }

  lemma SlicedKeys(m: Model, noncompliant: set<nat>, consumed: set<nat>, n: nat)
    requires n < |m.operations| && n !in noncompliant
    ensures Mapped(m, noncompliant, consumed, n + 1) ==
            Mapped(m, noncompliant, consumed, n) + Elements(m.operations[n].outputs)
  {
    MappedOutputsNext(m, noncompliant, consumed, n);
    assert (set o | o in OutputsOf(m, n) && Kept(noncompliant, consumed, n, o)) == Elements(m.operations[n].outputs);
  }

  lemma SlicedNext(m: Model, noncompliant: set<nat>, s: SliceState, n: nat)
    requires WellFormed(m) && n < |m.operations| && n !in noncompliant
    requires Sliced(m, noncompliant, s, Consumed(m, noncompliant, |m.operations|), n)
    requires OperationInRange(m.operands, m.operations[n])
    ensures Sliced(m, noncompliant, MapOperation(m, s, n, Consumed(m, noncompliant, |m.operations|)),
                   Consumed(m, noncompliant, |m.operations|), n + 1)
  {
    var consumed, op := Consumed(m, noncompliant, |m.operations|), m.operations[n];
    SlicedReady(m, noncompliant, s, n);
    MapOperationKeeps(m, s, n, consumed);
    MapOperationMarked(m, s, n, consumed);
    MapOutputsFacts(s.operandMap, op.outputs, |s.model.operands|);
    SlicedKeys(m, noncompliant, consumed, n);
  }
}
