/** Whole-model validation (ValidateHal): the well-formedness the rest of the runtime relies on. */
module Validation {
  import opened Sequences
  import opened Models

  /** Result of `validateOperandList`: every index names an operand. */
  method ValidateOperandList(list: seq<nat>, operandCount: nat) returns (code: ResultCode)
    ensures code == NoError || code == BadData
    ensures code == NoError <==> forall o :: o in list ==> o < operandCount
  {
    for i := 0 to |list|
      invariant forall k :: 0 <= k < i ==> list[k] < operandCount
    {
      if list[i] >= operandCount {
        assert list[i] in list;
        return BadData;
      }
    }
    return NoError;
  }

  /** The tables of operand types and of operations. They look at types alone: `addable` is what adding an
    * operand asks of its type, `admissible` what the finished model is asked. */
  datatype TypeRules = TypeRules(addable: OperandType -> bool, admissible: OperandType -> bool,
                                 operation: (nat, seq<OperandType>, seq<OperandType>) -> bool)

  /** The operation names existing operands, of types that its table allows. */
  ghost predicate Typed(rules: TypeRules, m: Model, op: Operation) {
    && OperationInRange(m.operands, op)
    && rules.operation(op.code, TypesOf(m, op.inputs), TypesOf(m, op.outputs))
  }

  /** A constant has the length of its type, and a constant tensor has a rank. */
  ghost predicate OperandAdmitted(rules: TypeRules, o: Operand) {
    && rules.admissible(o.ty)
    && (o.lifetime.ConstantCopy? || o.lifetime.ConstantReference? ==>
          (o.ty.isScalar || o.ty.dimensions != []) && |o.value| == SizeOfData(o.ty))
  }

  ghost predicate OperationsTyped(rules: TypeRules, m: Model) {
    forall j {:trigger Typed(rules, m, m.operations[j])} ::
      0 <= j < |m.operations| ==> Typed(rules, m, m.operations[j])
  }

  ghost predicate OperandsAdmitted(rules: TypeRules, m: Model) {
    forall o {:trigger OperandAdmitted(rules, m.operands[o])} ::
      0 <= o < |m.operands| ==> OperandAdmitted(rules, m.operands[o])
  }

  /** Result of `validateOperation`. */
  method ValidateOperation(rules: TypeRules, m: Model, op: Operation) returns (code: ResultCode)
    ensures code == NoError || code == BadData
    ensures code == NoError <==> Typed(rules, m, op)
  {
    var n := ValidateOperandList(op.inputs, |m.operands|);
    if n != NoError { return n; }
    n := ValidateOperandList(op.outputs, |m.operands|);
    if n != NoError { return n; }
    return if rules.operation(op.code, TypesOf(m, op.inputs), TypesOf(m, op.outputs)) then NoError else BadData;
  }

  method ValidateOperands(rules: TypeRules, m: Model) returns (ok: bool)
    ensures ok <==> OperandsAdmitted(rules, m)
  {
    for i := 0 to |m.operands|
      invariant forall o :: 0 <= o < i ==> OperandAdmitted(rules, m.operands[o])
    {
      ok := ValidateOperand(rules, m.operands[i]);
      if !ok { return; }
    }
    return true;
  }

  method ValidateOperand(rules: TypeRules, operand: Operand) returns (ok: bool)
    ensures ok <==> OperandAdmitted(rules, operand)
  {
    if !rules.admissible(operand.ty) { return false; }
    if operand.lifetime.ConstantCopy? || operand.lifetime.ConstantReference? {
      if !operand.ty.isScalar && |operand.ty.dimensions| == 0 { return false; }
      if |operand.value| != SizeOfData(operand.ty) { return false; }
    }
    return true;
  }

  /** `o` is among the first `k` outputs of operation `j`, or an output of an earlier operation. */
  ghost predicate WrittenBefore(m: Model, j: nat, k: nat, o: nat)
    requires j <= |m.operations| && (j < |m.operations| ==> k <= |m.operations[j].outputs|)
  {
    || (exists i :: 0 <= i < j && o in m.operations[i].outputs)
    || (j < |m.operations| && o in m.operations[j].outputs[..k])
  }

  /** Checks the outputs of operation `j` and marks them as written. */
  method ValidateOutputs(m: Model, j: nat, before: seq<bool>) returns (ok: bool, writtenTo: seq<bool>)
    requires j < |m.operations| && OperationInRange(m.operands, m.operations[j]) && |before| == |m.operands|
    requires forall o :: 0 <= o < |m.operands| ==> (before[o] <==> WrittenBefore(m, j, 0, o))
    ensures ok <==>
            && (forall o :: o in m.operations[j].outputs ==> IsDataflow(m.operands[o]))
            && NoDup(m.operations[j].outputs)
            && (forall i, o :: 0 <= i < j && o in m.operations[i].outputs ==> o !in m.operations[j].outputs)
    ensures ok ==> |writtenTo| == |m.operands|
    ensures ok ==> forall o :: 0 <= o < |m.operands| ==> (writtenTo[o] <==> WrittenBefore(m, j + 1, 0, o))
  {
    writtenTo := before;
    var outputs := m.operations[j].outputs;
    for k := 0 to |outputs|
      invariant |writtenTo| == |m.operands|
      invariant forall o :: 0 <= o < |m.operands| ==> (writtenTo[o] <==> WrittenBefore(m, j, k, o))
      invariant forall o :: o in outputs[..k] ==> o < |m.operands| && IsDataflow(m.operands[o])
      invariant NoDup(outputs[..k])
      invariant forall i, o :: 0 <= i < j && o in m.operations[i].outputs ==> o !in outputs[..k]
    {
      var o := outputs[k];
      assert o in outputs;
      if !IsDataflow(m.operands[o]) { return false, writtenTo; }
      if writtenTo[o] {
        if o in outputs[..k] { assert !NoDup(outputs); }
        return false, writtenTo;
      }
      writtenTo := writtenTo[o := true];
      assert outputs[..k+1] == outputs[..k] + [o];
    }
    assert outputs[..|outputs|] == outputs;
    return true, writtenTo;
  }

  /** Looks for results that no operation writes. */
  method AllResultsWritten(m: Model, writtenTo: seq<bool>) returns (ok: bool)
    requires |writtenTo| == |m.operands|
    requires forall o :: 0 <= o < |m.operands| ==> (writtenTo[o] <==> WrittenBefore(m, |m.operations|, 0, o))
    ensures ok <==> AllWritten(m)
  {
    for i := 0 to |m.operands|
      invariant forall o :: 0 <= o < i && IsDataflow(m.operands[o]) ==> writtenTo[o]
    {
      if !writtenTo[i] {
        assert !WrittenBefore(m, |m.operations|, 0, i);
        if IsDataflow(m.operands[i]) { return false; }
      }
    }
    return true;
  }

  /** Operation `j` passes its table and writes only results that no operation up to there has written. */
  ghost predicate AdmitsOperation(rules: TypeRules, m: Model, j: nat)
    requires j < |m.operations|
  {
    && Typed(rules, m, m.operations[j])
    && (forall o :: o in m.operations[j].outputs ==> o < |m.operands| && IsDataflow(m.operands[o]))
    && NoDup(m.operations[j].outputs)
    && (forall i, o :: 0 <= i < j && o in m.operations[i].outputs ==> o !in m.operations[j].outputs)
  }

  lemma AdmitsAll(rules: TypeRules, m: Model)
    ensures (forall j :: 0 <= j < |m.operations| ==> AdmitsOperation(rules, m, j)) <==>
            OperationsTyped(rules, m) && WrittenAtMostOnce(m)
  {
    if forall j :: 0 <= j < |m.operations| ==> AdmitsOperation(rules, m, j) {
      forall j | 0 <= j < |m.operations|
        ensures Typed(rules, m, m.operations[j]) && NoDup(m.operations[j].outputs)
        ensures forall o :: o in m.operations[j].outputs ==> o < |m.operands| && IsDataflow(m.operands[o])
        ensures forall i, o :: 0 <= i < j && o in m.operations[i].outputs ==> o !in m.operations[j].outputs
      {
        assert AdmitsOperation(rules, m, j);
      }
    }
  }

  /** One round of `ValidateOperations`. */
  method ValidateNext(rules: TypeRules, m: Model, j: nat, before: seq<bool>) returns (ok: bool, writtenTo: seq<bool>)
    requires j < |m.operations| && |before| == |m.operands|
    requires forall o :: 0 <= o < |m.operands| ==> (before[o] <==> WrittenBefore(m, j, 0, o))
    ensures ok <==> AdmitsOperation(rules, m, j)
    ensures ok ==> |writtenTo| == |m.operands|
    ensures ok ==> forall o :: 0 <= o < |m.operands| ==> (writtenTo[o] <==> WrittenBefore(m, j + 1, 0, o))
  {
    var n := ValidateOperation(rules, m, m.operations[j]);
    if n != NoError { return false, before; }
    ok, writtenTo := ValidateOutputs(m, j, before);
  }

  /** Decides whether every operation passes its table, every result is written by exactly one output
    * position of one operation and nothing else is written. */
  method ValidateOperations(rules: TypeRules, m: Model) returns (ok: bool)
    ensures ok <==> OperationsTyped(rules, m) && WrittenOnce(m)
  {
    var writtenTo := seq(|m.operands|, i => false);
    AdmitsAll(rules, m);
    hide OperationsTyped, WrittenAtMostOnce, AllWritten, AdmitsOperation;
    for j := 0 to |m.operations|
      invariant |writtenTo| == |m.operands|
      invariant forall i :: 0 <= i < j ==> AdmitsOperation(rules, m, i)
      invariant forall o :: 0 <= o < |m.operands| ==> (writtenTo[o] <==> WrittenBefore(m, j, 0, o))
    {
      ok, writtenTo := ValidateNext(rules, m, j, writtenTo);
      if !ok { return; }
    }
    ok := AllResultsWritten(m, writtenTo);
  }

  /** Decides whether an index list names operands of the given lifetime, each at most once. */
  method ValidateModelInputOutputs(m: Model, indexes: seq<nat>, lifetime: LifeTime) returns (ok: bool)
    ensures ok <==> ValidIndexes(m, indexes, lifetime)
  {
    ok := LifetimesMatch(m, indexes, lifetime);
    if ok { ok := Distinct(indexes); }
  }

  method LifetimesMatch(m: Model, indexes: seq<nat>, lifetime: LifeTime) returns (ok: bool)
    ensures ok <==> forall o :: o in indexes ==> o < |m.operands| && m.operands[o].lifetime == lifetime
  {
    for i := 0 to |indexes|
      invariant forall k :: 0 <= k < i ==> indexes[k] < |m.operands| && m.operands[indexes[k]].lifetime == lifetime
    {
      assert indexes[i] in indexes;
      if indexes[i] >= |m.operands| { return false; }
      if m.operands[indexes[i]].lifetime != lifetime { return false; }
    }
    return true;
  }

  /** Sorts the list and looks for equal neighbours. */
  method Distinct(indexes: seq<nat>) returns (ok: bool)
    ensures ok <==> NoDup(indexes)
  {
    var sortedIndexes := Sort(indexes);
    var at := AdjacentFind(sortedIndexes);
    SortRevealsRepetition(indexes);
    assert NoDup<int>(indexes) <==> NoDup<nat>(indexes);
    ok := at == |sortedIndexes|;
  }

  lemma TypedInRange(rules: TypeRules, m: Model)
    ensures OperationsTyped(rules, m) ==> InRange(m)
  {
    if OperationsTyped(rules, m) {
      forall j | 0 <= j < |m.operations| ensures OperationInRange(m.operands, m.operations[j]) {
        assert Typed(rules, m, m.operations[j]);
      }
    }
  }

  /** `poolsValid` says whether all memory pools are of a known kind and all locations lie within them. */
  method ValidateModel(rules: TypeRules, m: Model, poolsValid: bool) returns (ok: bool)
    ensures ok <==> ValidModel(m) && OperandsAdmitted(rules, m) && OperationsTyped(rules, m) && poolsValid
  {
    if |m.operations| == 0 || |m.operands| == 0 { return false; }
    TypedInRange(rules, m);
    ok := ValidateOperands(rules, m);
    if ok { ok := ValidateOperations(rules, m); }
    if ok { ok := ValidateModelInputOutputs(m, m.inputIndexes, ModelInput); }
    if ok { ok := ValidateModelInputOutputs(m, m.outputIndexes, ModelOutput); }
    ok := ok && poolsValid;
  }
}
