/** The interface of a submodel, and why a finished submodel is a well-formed model. */
module Finishing {
  import opened Sequences
  import opened Models
  import opened RunOrder
  import opened ModelBuilding
  import opened Cycles
  import opened Sorting
  import opened SubModels
  import opened Stepping
  import opened Partitioning
  import opened Boundary
  import opened Exporting

  lemma SecondsMember(v: RemapVector, k: nat)
    ensures k in Seconds(v) <==> exists e :: e in v && e.1 == k
  {
    if k in Seconds(v) {
      var i :| 0 <= i < |v| && Seconds(v)[i] == k;
      assert v[i] in v;
    }
    if e :| e in v && e.1 == k {
      var i :| 0 <= i < |v| && v[i] == e;
      assert Seconds(v)[i] == k;
    }
  }

  /** Positions that are picked for a lifetime and kind are those with that lifetime and kind. */
  lemma PickSeconds(m: Model, origins: seq<Origin>, lifetime: LifeTime, kind: OperandKind, k: nat)
    ensures k in Seconds(Pick(m, origins, lifetime, kind)) <==>
            k < |origins| && origins[k].kind == kind && HasLifeTime(m, origins[k].operand, lifetime)
  {
    SecondsMember(Pick(m, origins, lifetime, kind), k);
    forall e ensures e in Pick(m, origins, lifetime, kind) <==>
              e.1 < |origins| && origins[e.1] == Origin(e.0, kind) && HasLifeTime(m, e.0, lifetime) {
      PickMember(m, origins, lifetime, kind, e);
    }
    if k < |origins| && origins[k].kind == kind && HasLifeTime(m, origins[k].operand, lifetime) {
      assert (origins[k].operand, k) in Pick(m, origins, lifetime, kind);
    }
  }

  lemma {:induction false} PickSecondsNoDup(m: Model, origins: seq<Origin>, lifetime: LifeTime, kind: OperandKind)
    ensures NoDup(Seconds(Pick(m, origins, lifetime, kind)))
  {
    if origins != [] {
      var n := |origins| - 1;
      PickSecondsNoDup(m, origins[..n], lifetime, kind);
      PickSeconds(m, origins[..n], lifetime, kind, n);
      var before := Seconds(Pick(m, origins[..n], lifetime, kind));
      NoDupAppend(before, n);
      if HasLifeTime(m, origins[n].operand, lifetime) && origins[n].kind == kind {
        assert Seconds(Pick(m, origins, lifetime, kind)) == before + [n];
      } else {
        assert Pick(m, origins, lifetime, kind) == Pick(m, origins[..n], lifetime, kind);
      }
    }
  }

  /** Exports of a step: temporaries that it writes, under their submodel index, in ascending order. */
  ghost predicate ExportsFit(m: Model, s: StepState, exports: RemapVector) {
    && AscendingPairs(exports)
    && forall e :: e in exports ==>
         e.1 < |s.origins| && s.origins[e.1] == Origin(e.0, Output) && HasLifeTime(m, e.0, TemporaryVariable)
  }

  lemma ExportsNoDup(m: Model, s: StepState, exports: RemapVector)
    requires ExportsFit(m, s, exports)
    ensures NoDup(Seconds(exports))
  {
    forall i, j | 0 <= i < j < |exports| ensures exports[i].1 != exports[j].1 {
      assert exports[i] in exports && exports[j] in exports;
    }
  }

  /** An operand of the submodel is an input of it exactly when the step met it as an input and it is
    * not a constant. */
  lemma InputMember(m: Model, s: StepState, k: nat)
    requires s.roles == RolesOf(m, s.origins) && Maps(m, s)
    ensures k in InputList(s.roles) <==>
            k < |s.origins| && s.origins[k].kind == Input && !IsConstant(m.operands[s.origins[k].operand])
  {
    PickSeconds(m, s.origins, ModelInput, Input, k);
    PickSeconds(m, s.origins, TemporaryVariable, Input, k);
    PickSeconds(m, s.origins, ModelOutput, Input, k);
  }

  /** It is an output exactly when the step writes it and it is a model output or exported. */
  lemma OutputMember(m: Model, s: StepState, exports: RemapVector, k: nat)
    requires s.roles == RolesOf(m, s.origins) && ExportsFit(m, s, exports)
    ensures k in OutputList(s.roles, exports) <==>
            && k < |s.origins| && s.origins[k].kind == Output
            && (HasLifeTime(m, s.origins[k].operand, ModelOutput) || (s.origins[k].operand, k) in exports)
  {
    PickSeconds(m, s.origins, ModelOutput, Output, k);
    SecondsMember(exports, k);
  }

  /** Inputs and outputs of the submodel are all distinct. */
  lemma InterfaceNoDup(m: Model, s: StepState, exports: RemapVector)
    requires s.roles == RolesOf(m, s.origins) && Maps(m, s) && ExportsFit(m, s, exports)
    ensures NoDup(InputList(s.roles) + OutputList(s.roles, exports))
  {
    PickSecondsNoDup(m, s.origins, ModelInput, Input);
    PickSecondsNoDup(m, s.origins, TemporaryVariable, Input);
    PickSecondsNoDup(m, s.origins, ModelOutput, Input);
    PickSecondsNoDup(m, s.origins, ModelOutput, Output);
    ExportsNoDup(m, s, exports);
    var a, b := Seconds(s.roles.modelInputs), Seconds(s.roles.tempsAsSubModelInputs);
    var c := Seconds(s.roles.outputsAsSubModelInputs);
    var d, e := Seconds(s.roles.modelOutputs), Seconds(exports);
    forall k: nat
      ensures k in a ==> k !in b && k !in c
      ensures k in b ==> k !in c
      ensures k in d ==> k !in e
    {
      PickSeconds(m, s.origins, ModelInput, Input, k);
      PickSeconds(m, s.origins, TemporaryVariable, Input, k);
      PickSeconds(m, s.origins, ModelOutput, Input, k);
      PickSeconds(m, s.origins, ModelOutput, Output, k);
      SecondsMember(exports, k);
    }
    SplitNoDup(b, c);
    SplitNoDup(a, b + c);
    SplitNoDup(d, e);
    forall k | k in InputList(s.roles) ensures k !in OutputList(s.roles, exports) {
      InputMember(m, s, k);
      OutputMember(m, s, exports, k);
    }
    SplitNoDup(InputList(s.roles), OutputList(s.roles, exports));
  }

  // ---------------------------------------------------------------- the submodel as a model

  /** What is known of a step of a partition when its submodel is finished. */
  ghost predicate StepComplete(m: Model, ops: seq<nat>, s: StepState, exports: RemapVector) {
    && s == BuildStep(m, ops) && ops != []
    && Operations(m, ops) && StepFresh(m, ops)
    && OperandFacts(m, s) && OperationsRenamed(m, ops, s)
    && KindsMatch(s, Outs(m, ops)) && ExportsFit(m, s, exports)
  }

  /** Lifetime of a submodel operand after identification. */
  lemma SubLifetime(m: Model, s: StepState, exports: RemapVector, k: nat)
    requires OperandFacts(m, s) && ExportsFit(m, s, exports) && k < |s.origins|
    ensures s.origins[k].operand < |m.operands|
    ensures var sub, o := SubModelOf(s, exports).operands[k], m.operands[s.origins[k].operand];
            && sub.ty == o.ty
            && (IsConstant(o) ==> sub.lifetime == o.lifetime && sub.value == o.value)
            && (sub.lifetime.ModelInput? <==> !IsConstant(o) && s.origins[k].kind == Input)
            && (IsDataflow(sub) <==> !IsConstant(o) && s.origins[k].kind == Output)
            && (sub.lifetime.ModelInput? <==> k in InputList(s.roles))
            && (sub.lifetime.ModelOutput? <==> k in OutputList(s.roles, exports))
  {
    InputMember(m, s, k);
    OutputMember(m, s, exports, k);
    assert SubModelOf(s, exports).operands[k] ==
           Identified(s.operands[k], k, InputList(s.roles), OutputList(s.roles, exports));
    if (s.origins[k].operand, k) in exports { assert HasLifeTime(m, s.origins[k].operand, TemporaryVariable); }
  }

  lemma SubInterfaceListed(m: Model, s: StepState, exports: RemapVector)
    requires OperandFacts(m, s) && ExportsFit(m, s, exports)
    ensures InterfaceListed(SubModelOf(s, exports))
    ensures ValidIndexes(SubModelOf(s, exports), InputList(s.roles), ModelInput)
    ensures ValidIndexes(SubModelOf(s, exports), OutputList(s.roles, exports), ModelOutput)
  {
    var sub := SubModelOf(s, exports);
    forall k | 0 <= k < |sub.operands|
      ensures sub.operands[k].lifetime.ModelInput? <==> k in sub.inputIndexes
      ensures sub.operands[k].lifetime.ModelOutput? <==> k in sub.outputIndexes
    {
      SubLifetime(m, s, exports, k);
    }
    InterfaceNoDup(m, s, exports);
    SplitNoDup(InputList(s.roles), OutputList(s.roles, exports));
    forall k | k in sub.inputIndexes ensures k < |sub.operands| { InputMember(m, s, k); }
    forall k | k in sub.outputIndexes ensures k < |sub.operands| { OutputMember(m, s, exports, k); }
  }

  /** Renaming is faithful: a submodel operation reads and writes the copies of what the original does. */
  lemma RenamedOperand(m: Model, ops: seq<nat>, s: StepState, i: nat, k: nat)
    requires Maps(m, s) && OperationsRenamed(m, ops, s) && i < |ops|
    ensures k in s.operations[i].inputs <==>
            k < |s.origins| && s.origins[k].operand in m.operations[ops[i]].inputs
    ensures k in s.operations[i].outputs <==>
            k < |s.origins| && s.origins[k].operand in m.operations[ops[i]].outputs
  {
    assert Renames(m.operations[ops[i]], s.operations[i], s.operandMap);
    TranslateMember(m, s, m.operations[ops[i]].inputs, k);
    TranslateMember(m, s, m.operations[ops[i]].outputs, k);
  }

  lemma TranslateMember(m: Model, s: StepState, os: seq<nat>, k: nat)
    requires Maps(m, s) && forall o :: o in os ==> o in s.operandMap
    ensures k in Translate(s.operandMap, os) <==> k < |s.origins| && s.origins[k].operand in os
  {
    var t := Translate(s.operandMap, os);
    if k in t {
      var i :| 0 <= i < |os| && t[i] == k;
      assert os[i] in os;
    }
    if k < |s.origins| && s.origins[k].operand in os {
      var i :| 0 <= i < |os| && os[i] == s.origins[k].operand;
      assert t[i] == k;
    }
  }

  lemma TranslateNoDup(m: Model, s: StepState, os: seq<nat>)
    requires Maps(m, s) && (forall o :: o in os ==> o in s.operandMap) && NoDup(os)
    ensures NoDup(Translate(s.operandMap, os))
  {
    forall i, j | 0 <= i < j < |os| ensures s.operandMap[os[i]] != s.operandMap[os[j]] {
      assert os[i] in os && os[j] in os && os[i] != os[j];
    }
  }

  lemma SubInRange(m: Model, ops: seq<nat>, s: StepState, exports: RemapVector)
    requires Maps(m, s) && OperationsRenamed(m, ops, s)
    ensures InRange(SubModelOf(s, exports))
  {
    forall i | 0 <= i < |s.operations|
      ensures OperationInRange(SubModelOf(s, exports).operands, s.operations[i])
    {
      forall k: nat { RenamedOperand(m, ops, s, i, k); }
    }
  }

  lemma OutputsNoDup(m: Model, j: nat)
    requires WrittenOnce(m) && j < |m.operations|
    ensures NoDup(m.operations[j].outputs)
  {
  }

  lemma SubWrittenAtMostOnce(m: Model, ops: seq<nat>, s: StepState, exports: RemapVector)
    requires InRange(m) && WrittenOnce(m) && StepComplete(m, ops, s, exports)
    ensures WrittenAtMostOnce(SubModelOf(s, exports))
  {
    hide InRange, WrittenOnce, Translate;
    var sub := SubModelOf(s, exports);
    forall i | 0 <= i < |s.operations|
      ensures NoDup(s.operations[i].outputs)
      ensures forall k :: k in s.operations[i].outputs ==> k < |sub.operands| && IsDataflow(sub.operands[k])
    {
      assert Renames(m.operations[ops[i]], s.operations[i], s.operandMap);
      OutputsNoDup(m, ops[i]);
      TranslateNoDup(m, s, m.operations[ops[i]].outputs);
      forall k | k in s.operations[i].outputs ensures k < |sub.operands| && IsDataflow(sub.operands[k]) {
        SubOutputIsResult(m, ops, s, exports, i, k);
      }
    }
    forall i, j, k | 0 <= i < j < |s.operations| && k in s.operations[i].outputs ensures k !in s.operations[j].outputs {
      RenamedOperand(m, ops, s, i, k);
      RenamedOperand(m, ops, s, j, k);
      assert ops[i] != ops[j];
      WrittenByOne(m, ops[i], ops[j], s.origins[k].operand);
    }
  }

  lemma SubWrittenOnce(m: Model, ops: seq<nat>, s: StepState, exports: RemapVector)
    requires InRange(m) && WrittenOnce(m) && StepComplete(m, ops, s, exports)
    ensures WrittenOnce(SubModelOf(s, exports))
  {
    hide WrittenAtMostOnce;
    SubWrittenAtMostOnce(m, ops, s, exports);
    var sub := SubModelOf(s, exports);
    forall k | 0 <= k < |sub.operands| && IsDataflow(sub.operands[k])
      ensures exists i :: 0 <= i < |s.operations| && k in s.operations[i].outputs
    {
      SubLifetime(m, s, exports, k);
      var i := SubWriter(m, ops, s, k);
      assert k in s.operations[i].outputs;
    }
  }

  lemma WrittenByOne(m: Model, i: nat, j: nat, o: nat)
    requires WrittenOnce(m) && i != j
    ensures !(o in OutputsOf(m, i) && o in OutputsOf(m, j))
  {
    if o in OutputsOf(m, i) && o in OutputsOf(m, j) { UniqueWriter(m, i, j, o); }
  }

  lemma SubOutputIsResult(m: Model, ops: seq<nat>, s: StepState, exports: RemapVector, i: nat, k: nat)
    requires InRange(m) && WrittenOnce(m) && StepComplete(m, ops, s, exports)
    requires i < |ops| && k in s.operations[i].outputs
    ensures k < |s.origins| && s.origins[k].kind == Output && IsDataflow(SubModelOf(s, exports).operands[k])
  {
    RenamedOperand(m, ops, s, i, k);
    SubLifetime(m, s, exports, k);
    var o := s.origins[k].operand;
    assert o in OutputsOf(m, ops[i]) && ops[i] in ops;
    assert o in Outs(m, ops);
    WrittenIsResult(m, ops[i], o);
  }

  /** What a step met as an output is written by one of its operations. */
  lemma SubWriter(m: Model, ops: seq<nat>, s: StepState, k: nat) returns (i: nat)
    requires Maps(m, s) && OperationsRenamed(m, ops, s) && KindsMatch(s, Outs(m, ops))
    requires k < |s.origins| && s.origins[k].kind == Output
    ensures i < |ops| && k in s.operations[i].outputs && s.origins[k].operand in OutputsOf(m, ops[i])
  {
    var o := s.origins[k].operand;
    assert o in Outs(m, ops);
    var x :| x in ops && o in OutputsOf(m, x);
    i :| 0 <= i < |ops| && ops[i] == x;
    RenamedOperand(m, ops, s, i, k);
  }

  /** Operations were added in an order in which the submodel can run. */
  lemma SubTopological(m: Model, earlier: seq<nat>, ops: seq<nat>, s: StepState, exports: RemapVector)
    requires InRange(m) && WrittenOnce(m) && StepComplete(m, ops, s, exports)
    requires Topological(m, earlier + ops) && Operations(m, earlier + ops)
    ensures Topological(SubModelOf(s, exports), Identity(|ops|))
  {
    var sub := SubModelOf(s, exports);
    OperationsSplit(m, earlier, ops);
    forall p | 0 <= p < |ops|
      ensures Ready(sub, Identity(|ops|)[p], Outs(sub, Identity(|ops|)[..p]))
    {
      IdentityPrefix(|ops|, p);
      forall k | k in s.operations[p].inputs && k < |sub.operands| && IsDataflow(sub.operands[k])
        ensures k in Outs(sub, Identity(p))
      {
        RenamedOperand(m, ops, s, p, k);
        SubLifetime(m, s, exports, k);
        var i := SubWriter(m, ops, s, k);
        WriterComesFirst(m, earlier, ops, p, i, s.origins[k].operand);
        assert Identity(p)[i] == i && i in Identity(p) && k in OutputsOf(sub, i);
      }
    }
  }

  lemma WriterComesFirst(m: Model, earlier: seq<nat>, ops: seq<nat>, p: nat, i: nat, o: nat)
    requires InRange(m) && WrittenOnce(m)
    requires Topological(m, earlier + ops) && Operations(m, earlier + ops)
    requires p < |ops| && i < |ops| && o in InputsOf(m, ops[p]) && o in OutputsOf(m, ops[i])
    ensures i < p
  {
    var all, q := earlier + ops, |earlier| + p;
    assert all[q] == ops[p];
    WrittenIsResult(m, ops[i], o);
    assert Ready(m, all[q], Outs(m, all[..q]));
    var w :| w in all[..q] && o in OutputsOf(m, w);
    UniqueWriter(m, w, ops[i], o);
    var r :| 0 <= r < q && all[r] == w;
    assert all[|earlier| + i] == ops[i];
  }

  /** The submodel of a step is a well-formed model. */
  lemma SubModelValid(m: Model, ops: seq<nat>, s: StepState, exports: RemapVector)
    requires InRange(m) && WrittenOnce(m) && StepComplete(m, ops, s, exports)
    requires m.operations[ops[0]].inputs != []
    ensures ValidModel(SubModelOf(s, exports)) && InterfaceListed(SubModelOf(s, exports))
  {
    SubInRange(m, ops, s, exports);
    SubWrittenOnce(m, ops, s, exports);
    SubInterfaceListed(m, s, exports);
    assert Renames(m.operations[ops[0]], s.operations[0], s.operandMap);
    assert m.operations[ops[0]].inputs[0] in s.operandMap;
  }
}
