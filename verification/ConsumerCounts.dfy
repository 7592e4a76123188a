/** Consumer counts survive sorting and partitioning, so the CPU executor can rely on them. */
module ConsumerCounting {
  import opened Sequences
  import opened Models
  import opened RunOrder
  import opened ModelBuilding
  import opened Cycles
  import opened Sorting
  import opened SubModels
  import opened Stepping
  import opened Finishing
  import opened Execution
  import opened Routing
  import opened Preservation

  lemma {:induction false} ConsumersConcat(a: seq<Operation>, b: seq<Operation>, o: nat)
    ensures Consumers(a + b, o) == Consumers(a, o) + Consumers(b, o)
  {
    if b == [] {
      assert a + b == a;
    } else {
      assert (a + b)[..|a + b|-1] == a + b[..|b|-1];
      ConsumersConcat(a, b[..|b|-1], o);
    }
  }

  /** Taking one operation out of the middle. */
  lemma ConsumersWithout(a: seq<Operation>, x: Operation, b: seq<Operation>, o: nat)
    ensures Consumers(a + [x] + b, o) == Consumers(a + b, o) + Count(x.inputs, o)
  {
    ConsumersConcat(a + [x], b, o);
    ConsumersConcat(a, [x], o);
    ConsumersConcat(a, b, o);
    assert [x][..0] == [];
    assert Consumers([x], o) == Consumers([], o) + Count(x.inputs, o);
  }

  lemma SelectWithout(operations: seq<Operation>, order: seq<nat>, k: nat, o: nat)
    requires k < |order| && forall j :: j in order ==> j < |operations|
    requires forall j :: j in Without(order, k) ==> j < |operations|
    ensures order[k] < |operations|
    ensures Consumers(Select(operations, order), o) ==
            Consumers(Select(operations, Without(order, k)), o) + Count(operations[order[k]].inputs, o)
  {
    assert order[k] in order;
    var rest := Without(order, k);
    var a, b := Select(operations, rest)[..k], Select(operations, rest)[k..];
    assert Select(operations, order) == a + [operations[order[k]]] + b;
    assert Select(operations, rest) == a + b;
    ConsumersWithout(a, operations[order[k]], b, o);
  }

  /** Counting does not depend on the order of the operations. */
  lemma {:induction false} ConsumersPermuted(operations: seq<Operation>, order: seq<nat>, n: nat, o: nat)
    requires n <= |operations| && |order| == n && NoDup(order) && forall j :: j in order ==> j < n
    ensures Consumers(Select(operations, order), o) == Consumers(operations[..n], o)
    decreases n
  {
    if n > 0 {
      NoDupFull(order, n, n - 1);
      var k :| 0 <= k < n && order[k] == n - 1;
      WithoutFacts(order, k);
      SelectWithout(operations, order, k, o);
      ConsumersPermuted(operations, Without(order, k), n - 1, o);
      assert operations[..n][..n-1] == operations[..n-1];
    }
  }

  /** Sorting keeps consumer counts exact, provided it keeps every operation. */
  lemma ReorderedCounted(m: Model, order: seq<nat>)
    requires ConsumersCounted(m) && Operations(m, order) && |order| == |m.operations|
    ensures ConsumersCounted(Reordered(m, order))
  {
    forall o | 0 <= o < |m.operands|
      ensures Consumers(Select(m.operations, order), o) == Consumers(m.operations, o)
    {
      ConsumersPermuted(m.operations, order, |m.operations|, o);
      assert m.operations[..|m.operations|] == m.operations;
    }
  }

  // ---------------------------------------------------------------- submodels

  /** Counts of a step under construction; everything it reads is below its number of operands. */
  ghost predicate StepCounted(s: StepState) {
    && (forall i :: 0 <= i < |s.operations| ==> forall k :: k in s.operations[i].inputs ==> k < |s.operands|)
    && (forall k :: 0 <= k < |s.operands| ==> s.operands[k].numberOfConsumers == Consumers(s.operations, k))
  }

  lemma MeetCounted(m: Model, s: StepState, o: nat, kind: OperandKind)
    requires StepCounted(s)
    ensures StepCounted(Meet(m, s, o, kind))
  {
    UnreadOperand(s.operations, |s.operands|);
  }

  lemma {:induction false} MeetAllCounted(m: Model, s: StepState, os: seq<nat>, kind: OperandKind)
    requires StepCounted(s)
    ensures StepCounted(MeetAll(m, s, os, kind))
  {
    if os != [] {
      MeetAllCounted(m, s, os[..|os|-1], kind);
      MeetCounted(m, MeetAll(m, s, os[..|os|-1], kind), os[|os|-1], kind);
    }
  }

  lemma AddToStepCounted(m: Model, s: StepState, op: Operation)
    requires StepCounted(s)
    requires forall k :: k in Translate(MeetOperation(m, s, op).operandMap, op.inputs) ==>
               k < |MeetOperation(m, s, op).operands|
    ensures StepCounted(AddToStep(m, s, op))
  {
    MeetAllCounted(m, s, op.inputs, Input);
    MeetAllCounted(m, MeetAll(m, s, op.inputs, Input), op.outputs, Output);
    var met, after := MeetOperation(m, s, op), AddToStep(m, s, op);
    assert after.operations[..|after.operations|-1] == met.operations;
  }

  lemma {:induction false} BuildStepCounted(m: Model, ops: seq<nat>)
    requires InRange(m) && WrittenOnce(m) && forall p :: 0 <= p < |ops| ==> ops[p] < |m.operations|
    ensures StepCounted(BuildStep(m, ops))
  {
    if ops != [] {
      var n := |ops| - 1;
      var before, op := BuildStep(m, ops[..n]), m.operations[ops[n]];
      BuildStepCounted(m, ops[..n]);
      BuildStepFacts(m, ops[..n]);
      OperationMeets(m, ops[n]);
      MeetOperationFacts(m, before, op);
      var met := MeetOperation(m, before, op);
      forall k | k in Translate(met.operandMap, op.inputs) ensures k < |met.operands| {
        TranslateMember(m, met, op.inputs, k);
      }
      AddToStepCounted(m, before, op);
    }
  }

  /** The finished submodel of every step can be run by the CPU executor. */
  lemma SubModelCounted(p: Plan, t: nat)
    requires ValidPlan(p) && t < |p.steps|
    ensures Executable(p.steps[t].subModel) && ConsumersCounted(p.steps[t].subModel)
  {
    SubExecutable(p, t);
    SubOrderComplete(p, t);
    StepFacts(p, t);
    BuildStepCounted(p.model, p.stepOps[t]);
    var sub := SubModelOf(StateOf(p, t), p.steps[t].exports);
    assert ConsumersCounted(sub);
    ReorderedCounted(sub, p.steps[t].order);
  }
}