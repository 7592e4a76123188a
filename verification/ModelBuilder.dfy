/** Building a model operand by operand and sorting its operations into run order. */
module ModelBuilding {
  import opened Sequences
  import opened Models
  import opened RunOrder
  import opened Validation

  const MAX_NUMBER_OF_OPERANDS: nat := 0xFFFF_FFFE
  const MAX_NUMBER_OF_OPERATIONS: nat := 0xFFFF_FFFE
  const MAX_SIZE_OF_IMMEDIATELY_COPIED_VALUES: nat := 128

  /** An order that runs exactly the operations that can ever run, each after what it reads. */
  ghost predicate IsRunOrder(m: Model, order: seq<nat>) {
    && Operations(m, order)
    && Topological(m, order)
    && forall j :: 0 <= j < |m.operations| ==> (j in order <==> Ready(m, j, Outs(m, order)))
  }

  predicate Sized(ty: OperandType) {
    ty.isScalar || !HasUnknownSize(ty)
  }

  /** What `SetOperandValue` and `SetOperandValueFromMemory` leave behind. */
  predicate ConstantFits(o: Operand) {
    && (o.lifetime.ConstantCopy? ==> |o.value| <= MAX_SIZE_OF_IMMEDIATELY_COPIED_VALUES)
    && (o.lifetime.ConstantCopy? || o.lifetime.ConstantReference? ==>
          Sized(o.ty) && |o.value| == SizeOfData(o.ty))
    && (o.lifetime.NoValue? ==> o.value == [])
  }

  function Select(operations: seq<Operation>, order: seq<nat>): seq<Operation>
    requires forall j :: j in order ==> j < |operations|
  {
    seq(|order|, i requires 0 <= i < |order| => assert order[i] in order; operations[order[i]])
  }

  /** Lifetime of an operand that is given a value. */
  function LifeTimeOf(present: bool, buffer: Bytes): LifeTime {
    if !present then NoValue
    else if |buffer| <= MAX_SIZE_OF_IMMEDIATELY_COPIED_VALUES then ConstantCopy
    else ConstantReference
  }

  /** The operands after an operation that reads `inputs` was added. */
  function CountReads(operands: seq<Operand>, inputs: seq<nat>): (r: seq<Operand>)
    ensures |r| == |operands|
  {
    seq(|operands|, o requires 0 <= o < |operands| =>
      operands[o].(numberOfConsumers := operands[o].numberOfConsumers + Count(inputs, o)))
  }

  lemma CountReadsAppend(operands: seq<Operand>, inputs: seq<nat>, o: nat)
    requires o < |operands|
    ensures CountReads(operands, inputs + [o]) ==
            CountReads(operands, inputs)[o := CountReads(operands, inputs)[o].(
              numberOfConsumers := CountReads(operands, inputs)[o].numberOfConsumers + 1)]
  {
    forall x: nat ensures Count(inputs + [o], x) == Count(inputs, x) + (if x == o then 1 else 0) {
      CountAppend(inputs, o, x);
    }
  }

  /** Operand `o` after it was listed as an input or output. */
  function Identified(o: Operand, index: nat, inputs: seq<nat>, outputs: seq<nat>): Operand {
    if index in inputs then o.(lifetime := ModelInput)
    else if index in outputs then o.(lifetime := ModelOutput)
    else o
  }

  lemma NothingLabelled(operands: seq<Operand>, before: seq<nat>, list: seq<nat>, lifetime: LifeTime)
    ensures Relabelled(operands, list[..0], lifetime) == operands && NoDup(list[..0])
    ensures CopiedUpTo(before, list, 0) ==
            seq(|list|, i requires 0 <= i < |list| => if i < |before| then before[i] else 0)
  {
  }

  /** One round of `SetArguments`. */
  lemma RelabelNext(operands: seq<Operand>, before: seq<nat>, list: seq<nat>, lifetime: LifeTime, i: nat)
    requires i < |list| && list[i] < |operands|
    ensures CopiedUpTo(before, list, i + 1) == CopiedUpTo(before, list, i)[i := list[i]]
    ensures Relabelled(operands, list[..i+1], lifetime) ==
            Relabelled(operands, list[..i], lifetime)[list[i] := operands[list[i]].(lifetime := lifetime)]
    ensures Relabelled(operands, list[..i], lifetime)[list[i]] ==
            if list[i] in list[..i] then operands[list[i]].(lifetime := lifetime) else operands[list[i]]
    ensures NoDup(list[..i]) && list[i] !in list[..i] ==> NoDup(list[..i+1])
    ensures NoDup(list) ==> list[i] !in list[..i]
  {
    assert list[..i+1] == list[..i] + [list[i]];
  }

  /** The operands after the listed ones were given a new lifetime. */
  ghost function Relabelled(operands: seq<Operand>, listed: seq<nat>, lifetime: LifeTime): (r: seq<Operand>)
    ensures |r| == |operands|
  {
    seq(|operands|, o requires 0 <= o < |operands| =>
      if o in listed then operands[o].(lifetime := lifetime) else operands[o])
  }

  /** An index list that was resized to the length of another one, of which `n` entries were copied. */
  ghost function CopiedUpTo(before: seq<nat>, list: seq<nat>, n: nat): (r: seq<nat>)
    ensures |r| == |list|
    ensures n >= |list| ==> r == list
  {
    seq(|list|, i requires 0 <= i < |list| => if i < n then list[i] else if i < |before| then before[i] else 0)
  }

  /** The first `at` operands of the list are different temporaries; the next one is none, or was listed. */
  ghost predicate BlockedAt(operands: seq<Operand>, list: seq<nat>, at: nat) {
    && at < |list| && NoDup(list[..at])
    && (forall o :: o in list[..at] ==> o < |operands| && operands[o].lifetime.TemporaryVariable?)
    && (list[at] in list[..at] || (list[at] < |operands| && !operands[list[at]].lifetime.TemporaryVariable?))
  }

  /** The first of two lists was dealt with up to position `at`, or all of it, and then the second one up to
    * the position that is left. */
  ghost predicate Abandoned(m: Model, inputs: seq<nat>, outputs: seq<nat>, at: nat, after: Model) {
    if at < |inputs| then
      && BlockedAt(m.operands, inputs, at) && after.operands == Relabelled(m.operands, inputs[..at], ModelInput)
      && after.inputIndexes == CopiedUpTo(m.inputIndexes, inputs, at + 1) && after.outputIndexes == m.outputIndexes
    else
      var labelled, k := Relabelled(m.operands, inputs, ModelInput), at - |inputs|;
      && BlockedAt(labelled, outputs, k) && after.operands == Relabelled(labelled, outputs[..k], ModelOutput)
      && after.inputIndexes == inputs && after.outputIndexes == CopiedUpTo(m.outputIndexes, outputs, k + 1)
  }

  lemma RelabelledTwice(operands: seq<Operand>, inputs: seq<nat>, outputs: seq<nat>)
    requires forall o :: o in inputs + outputs ==> o < |operands|
    ensures var labelled := Relabelled(operands, inputs, ModelInput);
            && (forall o :: 0 <= o < |operands| ==>
                  Relabelled(labelled, outputs, ModelOutput)[o] ==
                  if o in outputs then operands[o].(lifetime := ModelOutput)
                  else Identified(operands[o], o, inputs, outputs))
            && (forall o :: o in outputs ==> o < |operands|) && (forall o :: o in inputs ==> o < |operands|)
            && ((forall o :: o in outputs ==> labelled[o].lifetime.TemporaryVariable?) <==>
                forall o :: o in outputs ==> o !in inputs && operands[o].lifetime.TemporaryVariable?)
  {
    assert forall o :: o in inputs || o in outputs <==> o in inputs + outputs;
  }

  /** A buffer that is copied to shared memory when the model is finished. */
  datatype LargeValue = LargeValue(operandIndex: nat, buffer: Bytes)

  /** The operands once the recorded buffers were copied, one after the other. */
  function WithLargeValues(operands: seq<Operand>, values: seq<LargeValue>): (r: seq<Operand>)
    ensures |r| == |operands|
  {
    if values == [] then operands
    else
      var before, l := WithLargeValues(operands, values[..|values|-1]), values[|values|-1];
      if l.operandIndex < |operands|
      then before[l.operandIndex := before[l.operandIndex].(value := l.buffer)]
      else before
  }

  /** A memory the caller provides for constants. */
  datatype SharedMemory = SharedMemory(isHardwareBuffer: bool, contents: Bytes)

  /** The size check computes the end of the region in 32 bits. */
  predicate ValidateSize(memory: SharedMemory, offset: nat, length: nat) {
    (offset + length) % UINT32_LIMIT <= |memory.contents|
  }

  /** What a region designates; nothing when it does not lie within the memory. */
  function Designated(memory: SharedMemory, offset: nat, length: nat): Bytes {
    if offset + length <= |memory.contents| then memory.contents[offset..offset + length] else []
  }

  class ModelBuilder {
    const rules: TypeRules
    var operands: seq<Operand>
    var operations: seq<Operation>
    var inputIndexes: seq<nat>
    var outputIndexes: seq<nat>
    var sortedOperationIndexMap: seq<nat>
    var completedModel: bool
    var invalidModel: bool
    var largeOperandValues: seq<LargeValue>

    /** A model that is still being built has not been sorted. */
    ghost predicate Valid()
      reads this`completedModel, this`sortedOperationIndexMap
    {
      !completedModel ==> sortedOperationIndexMap == []
    }

    /** The model with the large values copied. */
    ghost function Copied(): Model
      reads this
    {
      View().(operands := WithLargeValues(operands, largeOperandValues))
    }

    /** Validation accepts the model. */
    ghost predicate Acceptable(m: Model) {
      ValidModel(m) && OperandsAdmitted(rules, m) && OperationsTyped(rules, m)
    }

    /** The model that `setHidlModel` exposes. */
    function View(): Model
      reads this
    {
      Model(operands, operations, inputIndexes, outputIndexes)
    }

    predicate Open()
      reads this
    {
      !completedModel && !invalidModel
    }

    constructor (rules: TypeRules)
      ensures Valid() && Open() && View() == Model([], [], [], [])
      ensures this.rules == rules && largeOperandValues == []
    {
      this.rules, largeOperandValues := rules, [];
      operands, operations, inputIndexes, outputIndexes := [], [], [], [];
      sortedOperationIndexMap, completedModel, invalidModel := [], false, false;
    }

    method AddOperand(ty: OperandType) returns (code: ResultCode)
      requires Valid()
      modifies this
      ensures Valid()
      ensures code == NoError <==> old(Open()) && rules.addable(ty) && |old(operands)| < MAX_NUMBER_OF_OPERANDS
      ensures code != NoError ==> code == if old(Open()) then BadData else BadState
      ensures code == NoError ==>
                operands == old(operands) + [Operand(ty, TemporaryVariable, [], 0)] && operations == old(operations)
      ensures code != NoError ==> View() == old(View())
      ensures Open() == old(Open()) && inputIndexes == old(inputIndexes) && outputIndexes == old(outputIndexes)
      ensures largeOperandValues == old(largeOperandValues)
    {
      if completedModel || invalidModel { return BadState; }
      if !rules.addable(ty) { return BadData; }
      if |operands| >= MAX_NUMBER_OF_OPERANDS { return BadData; }
      operands := operands + [Operand(ty, TemporaryVariable, [], 0)];
      return NoError;
    }

    /** `buffer` is absent for an operand that is given no value. Small values are copied at once, and
      * large ones recorded. */
    method SetOperandValue(index: nat, present: bool, buffer: Bytes) returns (code: ResultCode)
      requires Valid()
      modifies this
      ensures Valid()
      ensures code == NoError <==>
                && old(Open()) && index < |old(operands)|
                && (if present then Sized(old(operands)[index].ty) && |buffer| == SizeOfData(old(operands)[index].ty)
                    else buffer == [])
      ensures code == NoError ==>
                operands == old(operands)[index := old(operands)[index].(
                                            lifetime := LifeTimeOf(present, buffer), value := buffer)]
      ensures code == NoError ==>
                && (!present ==> operands[index].lifetime == NoValue)
                && (present && |buffer| <= 128 ==> operands[index].lifetime == ConstantCopy)
                && (present && |buffer| > 128 ==> operands[index].lifetime == ConstantReference)
      ensures code != NoError ==> operands == old(operands) && code == if old(Open()) then BadData else BadState
      ensures largeOperandValues ==
              old(largeOperandValues) +
              if code == NoError && |buffer| > MAX_SIZE_OF_IMMEDIATELY_COPIED_VALUES
              then [LargeValue(index, buffer)]
              else []
      ensures operations == old(operations) && Open() == old(Open())
      ensures inputIndexes == old(inputIndexes) && outputIndexes == old(outputIndexes)
    {
      if completedModel || invalidModel { return BadState; }
      if index >= |operands| { return BadData; }
      var operand := operands[index];
      if !present {
        if |buffer| != 0 { return BadData; }
        operands := operands[index := operand.(lifetime := NoValue, value := [])];
      } else {
        if !operand.ty.isScalar && HasUnknownSize(operand.ty) { return BadData; }
        if |buffer| >= UINT32_LIMIT { return BadData; }
        if SizeOfData(operand.ty) != |buffer| { return BadData; }
        if |buffer| <= MAX_SIZE_OF_IMMEDIATELY_COPIED_VALUES {
          operands := operands[index := operand.(lifetime := ConstantCopy, value := buffer)];
        } else {
          operands := operands[index := operand.(lifetime := ConstantReference, value := buffer)];
          largeOperandValues := largeOperandValues + [LargeValue(index, buffer)];
        }
      }
      return NoError;
    }

    /** The size check lets pass a region whose end wraps around; the value is then no value of the type,
      * so that validation rejects the model. */
    method SetOperandValueFromMemory(index: nat, memory: SharedMemory, offset: nat, length: nat)
      returns (code: ResultCode)
      requires Valid() && offset < UINT32_LIMIT
      modifies this
      ensures Valid()
      ensures code == NoError <==>
                && old(Open()) && index < |old(operands)|
                && Sized(old(operands)[index].ty) && !memory.isHardwareBuffer
                && length == SizeOfData(old(operands)[index].ty) && ValidateSize(memory, offset, length)
      ensures code == NoError ==>
                operands == old(operands)[index := old(operands)[index].(
                                            lifetime := ConstantReference, value := Designated(memory, offset, length))]
      ensures code == NoError ==>
                (offset + length <= |memory.contents| <==> OperandAdmitted(AnyType(), operands[index]))
      ensures code == NoError && offset + length <= |memory.contents| ==>
                operands[index].value == memory.contents[offset..offset + length]
      ensures code == BadState <==> !old(Open())
      ensures code == Unmappable <==>
                old(Open()) && index < |old(operands)| && Sized(old(operands)[index].ty) && memory.isHardwareBuffer
      ensures code == NoError || code == BadState || code == BadData || code == Unmappable
      ensures code != NoError ==> operands == old(operands)
      ensures operations == old(operations) && Open() == old(Open()) && largeOperandValues == old(largeOperandValues)
      ensures inputIndexes == old(inputIndexes) && outputIndexes == old(outputIndexes)
    {
      if completedModel || invalidModel { return BadState; }
      if index >= |operands| { return BadData; }
      var operand := operands[index];
      if !operand.ty.isScalar && HasUnknownSize(operand.ty) { return BadData; }
      if memory.isHardwareBuffer { return Unmappable; }
      if SizeOfData(operand.ty) != length { return BadData; }
      if !ValidateSize(memory, offset, length) { return BadData; }
      operands := operands[index := operand.(lifetime := ConstantReference,
                                             value := Designated(memory, offset, length))];
      WrappedRegion(memory, offset, length);
      return NoError;
    }

    method AddOperation(op: Operation) returns (code: ResultCode)
      requires Valid()
      modifies this
      ensures Valid()
      ensures code == NoError <==>
                && old(Open()) && Typed(rules, old(View()), op)
                && |old(operations)| < MAX_NUMBER_OF_OPERATIONS
      ensures code != NoError ==> code == if old(Open()) then BadData else BadState
      ensures code == NoError ==>
                operations == old(operations) + [op] && operands == CountReads(old(operands), op.inputs)
      ensures code != NoError ==> View() == old(View())
      ensures Open() == old(Open()) && inputIndexes == old(inputIndexes) && outputIndexes == old(outputIndexes)
      ensures largeOperandValues == old(largeOperandValues)
    {
      if completedModel || invalidModel { return BadState; }
      var n := ValidateOperation(rules, View(), op);
      if n != NoError { return n; }
      if |operations| >= MAX_NUMBER_OF_OPERATIONS { return BadData; }
      operations := operations + [op];
      for i := 0 to |op.inputs|
        invariant operands == CountReads(old(operands), op.inputs[..i])
        invariant operations == old(operations) + [op] && !completedModel && !invalidModel
        invariant inputIndexes == old(inputIndexes) && outputIndexes == old(outputIndexes)
        invariant sortedOperationIndexMap == old(sortedOperationIndexMap)
        invariant largeOperandValues == old(largeOperandValues)
      {
        var o := op.inputs[i];
        assert o in op.inputs;
        CountReadsAppend(old(operands), op.inputs[..i], o);
        assert op.inputs[..i+1] == op.inputs[..i] + [o];
        operands := operands[o := operands[o].(numberOfConsumers := operands[o].numberOfConsumers + 1)];
      }
      assert op.inputs[..|op.inputs|] == op.inputs;
      return NoError;
    }

    /** Succeeds exactly when the two lists name distinct operands that are still plain temporaries. A
      * call that fails later than on an index out of range leaves behind what it did up to the first
      * operand that is no plain temporary any more: position `at` of the one list or the other. */
    method IdentifyInputsAndOutputs(inputs: seq<nat>, outputs: seq<nat>) returns (code: ResultCode, ghost at: nat)
      requires Valid()
      modifies this
      ensures Valid()
      ensures code != NoError ==> code == if old(Open()) then BadData else BadState
      ensures code == NoError <==>
                && old(Open()) && NoDup(inputs + outputs)
                && forall o :: o in inputs + outputs ==>
                     o < |old(operands)| && old(operands)[o].lifetime.TemporaryVariable?
      ensures code == NoError ==>
                && inputIndexes == inputs && outputIndexes == outputs
                && |operands| == |old(operands)|
                && forall o :: 0 <= o < |operands| ==> operands[o] == Identified(old(operands)[o], o, inputs, outputs)
      ensures !old(Open()) || (exists o :: o in inputs + outputs && o >= |old(operands)|) ==> View() == old(View())
      ensures code != NoError && old(Open()) && (forall o :: o in inputs + outputs ==> o < |old(operands)|) ==>
                Abandoned(old(View()), inputs, outputs, at, View())
      ensures operations == old(operations) && Open() == old(Open()) && largeOperandValues == old(largeOperandValues)
    {
      hide Relabelled, BlockedAt, CopiedUpTo;
      at := 0;
      if completedModel || invalidModel { return BadState, at; }
      assert forall o :: o in inputs || o in outputs <==> o in inputs + outputs;
      var n := ValidateOperandList(inputs, |operands|);
      if n != NoError { return n, at; }
      n := ValidateOperandList(outputs, |operands|);
      if n != NoError { return n, at; }

      SplitNoDup(inputs, outputs);
      RelabelledTwice(operands, inputs, outputs);
      var ok;
      ok, inputIndexes, at := SetArguments(inputIndexes, inputs, ModelInput);
      if !ok { return BadData, at; }
      ghost var k;
      ok, outputIndexes, k := SetArguments(outputIndexes, outputs, ModelOutput);
      at := |inputs| + k;
      if !ok { return BadData, at; }
      return NoError, at;
    }

    /** Copies an index list, and gives the listed operands a new lifetime, one after the other; stops
      * at the first operand that is not a plain temporary any more. */
    method SetArguments(before: seq<nat>, indexList: seq<nat>, lifetime: LifeTime)
      returns (ok: bool, indexVector: seq<nat>, ghost at: nat)
      requires lifetime.ModelInput? || lifetime.ModelOutput?
      requires forall o :: o in indexList ==> o < |operands|
      modifies this`operands
      ensures |operands| == |old(operands)| && at <= |indexList|
      ensures ok <==> NoDup(indexList) && forall o :: o in indexList ==> old(operands)[o].lifetime.TemporaryVariable?
      ensures ok <==> at == |indexList|
      ensures operands == Relabelled(old(operands), indexList[..at], lifetime)
      ensures ok ==> indexVector == indexList && operands == Relabelled(old(operands), indexList, lifetime)
      ensures !ok ==> BlockedAt(old(operands), indexList, at) && indexVector == CopiedUpTo(before, indexList, at + 1)
    {
      hide Relabelled, CopiedUpTo, NoDup;
      indexVector := seq(|indexList|, i requires 0 <= i < |indexList| => if i < |before| then before[i] else 0);
      NothingLabelled(operands, before, indexList, lifetime);
      for i := 0 to |indexList|
        invariant |operands| == |old(operands)| && indexVector == CopiedUpTo(before, indexList, i)
        invariant NoDup(indexList[..i])
        invariant forall o :: o in indexList[..i] ==> o < |operands| && old(operands)[o].lifetime.TemporaryVariable?
        invariant operands == Relabelled(old(operands), indexList[..i], lifetime)
      {
        var o := indexList[i];
        assert o in indexList;
        RelabelNext(old(operands), before, indexList, lifetime, i);
        indexVector := indexVector[i := o];
        if !operands[o].lifetime.TemporaryVariable? { return false, indexVector, i; }
        operands := operands[o := operands[o].(lifetime := lifetime)];
        assert indexList[..i+1] == indexList[..i] + [o];
      }
      assert indexList[..|indexList|] == indexList;
      return true, indexVector, |indexList|;
    }

    /** Copies the buffers of large values; `created` is the outcome of allocating and mapping the memory. */
    method CopyLargeValuesToSharedMemory(created: ResultCode) returns (code: ResultCode)
      requires forall l :: l in largeOperandValues ==> l.operandIndex < |operands|
      modifies this`operands
      ensures code == NoError <==> largeOperandValues == [] || created == NoError
      ensures code != NoError ==> code == created && operands == old(operands)
      ensures code == NoError ==> operands == WithLargeValues(old(operands), largeOperandValues)
    {
      if largeOperandValues == [] { return NoError; }
      if created != NoError { return created; }
      ghost var was := operands;
      for i := 0 to |largeOperandValues|
        invariant operands == WithLargeValues(was, largeOperandValues[..i])
      {
        var l := largeOperandValues[i];
        assert l in largeOperandValues;
        assert largeOperandValues[..i+1][..i] == largeOperandValues[..i];
        operands := operands[l.operandIndex := operands[l.operandIndex].(value := l.buffer)];
      }
      assert largeOperandValues[..|largeOperandValues|] == largeOperandValues;
      return NoError;
    }

    /** Copies large values, validates the model and sorts its operations. A model that fails validation
      * stays invalid; one whose values could not be copied stays open. The process aborts when an operand
      * with a large value is no longer a constant in shared memory. */
    method Finish(created: ResultCode, poolsValid: bool) returns (code: ResultCode)
      requires Valid()
      requires Open() ==>
                 forall l :: l in largeOperandValues ==>
                   l.operandIndex < |operands| && operands[l.operandIndex].lifetime.ConstantReference?
      modifies this
      ensures code == NoError <==>
                && old(Open()) && (old(largeOperandValues) == [] || created == NoError)
                && Acceptable(old(Copied())) && poolsValid
      ensures code == NoError ==>
                && completedModel
                && IsRunOrder(old(Copied()), sortedOperationIndexMap)
                && View() == old(Copied()).(operations := Select(old(operations), sortedOperationIndexMap))
      ensures code != NoError ==>
                && sortedOperationIndexMap == old(sortedOperationIndexMap)
                && code == (if !old(Open()) then BadState
                            else if old(largeOperandValues) != [] && created != NoError then created
                            else BadData)
                && View() == if code == BadData && old(Open()) && (old(largeOperandValues) == [] || created == NoError)
                             then old(Copied())
                             else old(View())
      ensures largeOperandValues == old(largeOperandValues)
      ensures invalidModel <==>
                || old(invalidModel)
                || (old(Open()) && code != NoError && (old(largeOperandValues) == [] || created == NoError))
      ensures completedModel <==> old(completedModel) || code == NoError
    {
      if completedModel { return BadState; }
      if invalidModel { return BadState; }
      code := CopyLargeValuesToSharedMemory(created);
      if code != NoError { return; }
      var ok := ValidateModel(rules, View(), poolsValid);
      if !ok {
        invalidModel := true;
        return BadData;
      }
      SortIntoRunOrder();
      completedModel := true;
      return NoError;
    }

    /** Worklist sort. The list of operations that are ready is a stack. */
    method SortIntoRunOrder()
      requires ValidModel(View())
      modifies this`operations, this`sortedOperationIndexMap
      ensures old(sortedOperationIndexMap) != [] ==>
                operations == old(operations) && sortedOperationIndexMap == old(sortedOperationIndexMap)
      ensures old(sortedOperationIndexMap) == [] ==>
                && IsRunOrder(old(View()), sortedOperationIndexMap)
                && operations == Select(old(operations), sortedOperationIndexMap)
    {
      if sortedOperationIndexMap != [] { return; }
      var m := View();
      var runOrder: seq<Operation> := [];
      var tracker := new OperandTracker(m);
      var opsReadyToRun: seq<nat> := tracker.Start();
      WorkStart(m, Elements(opsReadyToRun));
      while |opsReadyToRun| > 0
        invariant tracker.Valid() && tracker.model == m && fresh(tracker)
        invariant operations == m.operations
        invariant NoDup(opsReadyToRun)
        invariant WorkState(m, sortedOperationIndexMap, Elements(opsReadyToRun))
        invariant tracker.known == Outs(m, sortedOperationIndexMap)
        invariant runOrder == Select(m.operations, sortedOperationIndexMap)
        decreases |m.operations| - |sortedOperationIndexMap|
      {
        var opIndex := opsReadyToRun[|opsReadyToRun|-1];
        ghost var pending, sorted := Elements(opsReadyToRun), sortedOperationIndexMap;
        assert opIndex in opsReadyToRun && opsReadyToRun == opsReadyToRun[..|opsReadyToRun|-1] + [opIndex];
        assert opIndex in pending;
        opsReadyToRun := opsReadyToRun[..|opsReadyToRun|-1];
        SelectAppend(m.operations, sorted, opIndex);
        runOrder := runOrder + [m.operations[opIndex]];
        FreshOutputs(m, sorted, opIndex);
        OutsAppend(m, sorted, opIndex);
        sortedOperationIndexMap := sortedOperationIndexMap + [opIndex];
        var newly := tracker.MarkProcessed(opIndex);
        WorkStep(m, sorted, pending, opIndex, Elements(newly));
        WorklistAppend(opsReadyToRun, opIndex, newly);
        opsReadyToRun := opsReadyToRun + newly;
      }
      operations := runOrder;
    }
  }

  /** Tables that let every type pass. */
  function AnyType(): TypeRules {
    TypeRules(ty => true, ty => true, (code, inputs, outputs) => true)
  }

  /** A region that passes the size check designates a value of its length exactly when it lies within
    * the memory; the check lets pass exactly those that do not, but whose wrapped end does. */
  lemma WrappedRegion(memory: SharedMemory, offset: nat, length: nat)
    requires offset < UINT32_LIMIT && length < UINT32_LIMIT
    ensures offset + length < UINT32_LIMIT ==>
              (ValidateSize(memory, offset, length) <==> offset + length <= |memory.contents|)
    ensures offset + length <= |memory.contents| ==> ValidateSize(memory, offset, length)
    ensures ValidateSize(memory, offset, length) ==>
              (|Designated(memory, offset, length)| == length <==> offset + length <= |memory.contents|)
  {
    if offset + length >= UINT32_LIMIT {
      assert (offset + length) % UINT32_LIMIT == offset + length - UINT32_LIMIT;
    }
  }

  /** Position of the last buffer recorded for operand `o`. */
  ghost predicate LastFor(values: seq<LargeValue>, o: nat, k: nat) {
    && k < |values| && values[k].operandIndex == o
    && forall j :: k < j < |values| ==> values[j].operandIndex != o
  }

  lemma {:induction false} OthersKeepValue(operands: seq<Operand>, values: seq<LargeValue>, o: nat)
    requires o < |operands| && forall j :: 0 <= j < |values| ==> values[j].operandIndex != o
    ensures WithLargeValues(operands, values)[o] == operands[o]
  {
    if values != [] { OthersKeepValue(operands, values[..|values|-1], o); }
  }

  lemma {:induction false} SameButValue(operands: seq<Operand>, values: seq<LargeValue>, o: nat)
    requires o < |operands|
    ensures WithLargeValues(operands, values)[o] == operands[o].(value := WithLargeValues(operands, values)[o].value)
  {
    if values != [] { SameButValue(operands, values[..|values|-1], o); }
  }

  /** The last buffer recorded for an operand becomes its value, whatever it was given later by other means. */
  lemma {:induction false} LastLargeValueWins(operands: seq<Operand>, values: seq<LargeValue>, o: nat, k: nat)
    requires o < |operands| && LastFor(values, o, k)
    ensures WithLargeValues(operands, values)[o] == operands[o].(value := values[k].buffer)
  {
    var n := |values| - 1;
    if k < n {
      LastLargeValueWins(operands, values[..n], o, k);
    } else {
      SameButValue(operands, values[..n], o);
    }
  }

  /** Copying changes nothing exactly when every operand still has the value recorded for it last. */
  lemma CopyingIsNeutral(operands: seq<Operand>, values: seq<LargeValue>)
    ensures WithLargeValues(operands, values) == operands <==>
            forall o, k: nat :: 0 <= o < |operands| && LastFor(values, o, k) ==> operands[o].value == values[k].buffer
  {
    forall o | 0 <= o < |operands|
      ensures WithLargeValues(operands, values)[o] == operands[o] <==>
              forall k: nat :: LastFor(values, o, k) ==> operands[o].value == values[k].buffer
    {
      if j :| 0 <= j < |values| && values[j].operandIndex == o {
        var k := FindLast(values, o, j);
        LastLargeValueWins(operands, values, o, k);
        assert forall i: nat :: LastFor(values, o, i) ==> i == k;
      } else {
        OthersKeepValue(operands, values, o);
      }
    }
  }

  lemma {:induction false} FindLast(values: seq<LargeValue>, o: nat, j: nat) returns (k: nat)
    requires j < |values| && values[j].operandIndex == o
    ensures LastFor(values, o, k)
  {
    var n := |values| - 1;
    if values[n].operandIndex == o { return n; }
    k := FindLast(values[..n], o, j);
    assert values[..n][k] == values[k];
  }

  /** A value set from memory is lost when the operand had been given a large buffer before: finishing
    * the model brings back the buffer. */
  lemma BufferOutlivesMemory(operands: seq<Operand>, values: seq<LargeValue>, o: nat, buffer: Bytes, later: Bytes)
    requires o < |operands| && operands[o].value == later
    ensures WithLargeValues(operands, values + [LargeValue(o, buffer)])[o].value == buffer
    ensures buffer != later ==> WithLargeValues(operands, values + [LargeValue(o, buffer)]) != operands
  {
    LastLargeValueWins(operands, values + [LargeValue(o, buffer)], o, |values|);
  }

  lemma SelectAppend(operations: seq<Operation>, order: seq<nat>, j: nat)
    requires (forall i :: i in order ==> i < |operations|) && j < |operations|
    ensures forall i :: i in order + [j] ==> i < |operations|
    ensures Select(operations, order + [j]) == Select(operations, order) + [operations[j]]
  {
  }

  /** Replacing the entry `j` of a worklist by new ones. */
  lemma WorklistAppend(rest: seq<nat>, j: nat, newly: seq<nat>)
    requires NoDup(rest + [j]) && NoDup(newly) && Elements(newly) !! Elements(rest + [j])
    ensures NoDup(rest + newly)
    ensures Elements(rest + newly) == Elements(rest + [j]) - {j} + Elements(newly)
  {
    forall o | o in rest ensures o !in newly && o != j {
      var i :| 0 <= i < |rest| && rest[i] == o;
      assert (rest + [j])[i] == o && (rest + [j])[|rest|] == j;
      assert o in Elements(rest + [j]);
    }
    SplitNoDup(rest, [j]);
    SplitNoDup(rest, newly);
    assert forall o :: o in newly ==> o in Elements(newly);
  }

  // ---------------------------------------------------------------- what building keeps

  /** Consumer counts are exact and constants have the length of their type. */
  ghost predicate Counted(m: Model) {
    && InRange(m) && ConsumersCounted(m)
    && forall o :: 0 <= o < |m.operands| ==> ConstantFits(m.operands[o])
  }

  lemma {:induction false} UnreadOperand(operations: seq<Operation>, n: nat)
    requires forall j :: 0 <= j < |operations| ==> forall o :: o in operations[j].inputs ==> o < n
    ensures Consumers(operations, n) == 0
  {
    if operations != [] {
      UnreadOperand(operations[..|operations|-1], n);
      CountZero(operations[|operations|-1].inputs, n);
    }
  }

  lemma AddOperandKeepsCounts(m: Model, operand: Operand)
    requires Counted(m) && ConstantFits(operand) && operand.numberOfConsumers == 0
    ensures Counted(m.(operands := m.operands + [operand]))
  {
    UnreadOperand(m.operations, |m.operands|);
  }

  lemma SetValueKeepsCounts(m: Model, index: nat, present: bool, buffer: Bytes)
    requires Counted(m) && index < |m.operands|
    requires if present then Sized(m.operands[index].ty) && |buffer| == SizeOfData(m.operands[index].ty)
             else buffer == []
    ensures Counted(m.(operands := m.operands[index := m.operands[index].(lifetime := LifeTimeOf(present, buffer),
                                                                          value := buffer)]))
  {
  }

  lemma AddOperationKeepsCounts(m: Model, op: Operation)
    requires Counted(m) && OperationInRange(m.operands, op)
    ensures Counted(m.(operands := CountReads(m.operands, op.inputs), operations := m.operations + [op]))
  {
    assert (m.operations + [op])[..|m.operations|] == m.operations;
  }
}
