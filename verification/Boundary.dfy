/** What crosses a partition boundary: facts about the steps of a partition. */
module Boundary {
  import opened Sequences
  import opened Models
  import opened RunOrder
  import opened ModelBuilding
  import opened SubModels
  import opened Stepping
  import opened Partitioning

  // ---------------------------------------------------------------- how operands are met

  /** Operands met since `before` are new, come from `os`, and are met as `kind`. */
  ghost predicate NewOrigins(before: StepState, os: seq<nat>, kind: OperandKind, after: StepState) {
    && |before.origins| <= |after.origins|
    && (forall k :: 0 <= k < |before.origins| ==> after.origins[k] == before.origins[k])
    && (forall k :: |before.origins| <= k < |after.origins| ==>
          && after.origins[k].kind == kind && after.origins[k].operand in os
          && after.origins[k].operand !in before.operandMap)
  }

  lemma {:induction false} MeetAllOrigins(m: Model, s: StepState, os: seq<nat>, kind: OperandKind)
    requires forall k :: 0 <= k < |os| ==> os[k] < |m.operands|
    ensures NewOrigins(s, os, kind, MeetAll(m, s, os, kind))
  {
    if os != [] {
      var n := |os| - 1;
      MeetAllOrigins(m, s, os[..n], kind);
      MeetAllGrows(m, s, os[..n], kind);
      assert os == os[..n] + [os[n]];
    }
  }

  /** No operation of the step writes something that the step has come across before. */
  ghost predicate StepFresh(m: Model, ops: seq<nat>) {
    forall p, o :: 0 <= p < |ops| && o in OutputsOf(m, ops[p]) ==>
      o !in BuildStep(m, ops[..p]).operandMap && o !in InputsOf(m, ops[p])
  }

  lemma StepFreshPrefix(m: Model, ops: seq<nat>)
    requires StepFresh(m, ops) && ops != []
    ensures StepFresh(m, ops[..|ops|-1])
  {
    var shorter := ops[..|ops|-1];
    forall p, o | 0 <= p < |shorter| && o in OutputsOf(m, shorter[p])
      ensures o !in BuildStep(m, shorter[..p]).operandMap && o !in InputsOf(m, shorter[p])
    {
      assert shorter[p] == ops[p] && shorter[..p] == ops[..p];
    }
  }

  /** An operand is met as an output exactly when it is among `written`. */
  ghost predicate KindsMatch(s: StepState, written: set<nat>) {
    forall k :: 0 <= k < |s.origins| ==> (s.origins[k].kind.Output? <==> s.origins[k].operand in written)
  }

  lemma MeetOperationKinds(m: Model, s: StepState, op: Operation, written: set<nat>)
    requires Maps(m, s) && KindsMatch(s, written) && written <= s.operandMap.Keys
    requires Meets(m, op.inputs, Input) && Meets(m, op.outputs, Output)
    requires forall o :: o in op.outputs ==> o !in s.operandMap && o !in op.inputs
    ensures KindsMatch(MeetOperation(m, s, op), written + Elements(op.outputs))
    ensures written + Elements(op.outputs) <= MeetOperation(m, s, op).operandMap.Keys
  {
    var half := MeetAll(m, s, op.inputs, Input);
    MeetAllOrigins(m, s, op.inputs, Input);
    MeetAllGrows(m, s, op.inputs, Input);
    MeetAllOrigins(m, half, op.outputs, Output);
    MeetAllGrows(m, half, op.outputs, Output);
    var after := MeetOperation(m, s, op);
    forall k | 0 <= k < |after.origins|
      ensures after.origins[k].kind.Output? <==> after.origins[k].operand in written + Elements(op.outputs)
    {
      if k < |half.origins| {
        assert after.origins[k] == half.origins[k];
        if k < |s.origins| { assert half.origins[k] == s.origins[k]; }
      }
    }
  }

  /** In a step an operand was met as an output exactly when the step writes it. */
  lemma {:induction false} KindsExact(m: Model, ops: seq<nat>)
    requires InRange(m) && WrittenOnce(m) && StepFresh(m, ops)
    requires forall p :: 0 <= p < |ops| ==> ops[p] < |m.operations|
    ensures KindsMatch(BuildStep(m, ops), Outs(m, ops))
    ensures Outs(m, ops) <= BuildStep(m, ops).operandMap.Keys
  {
    if ops == [] {
    } else {
      var n := |ops| - 1;
      var before, j := ops[..n], ops[n];
      assert ops == before + [j];
      StepFreshPrefix(m, ops);
      KindsExact(m, before);
      BuildStepFacts(m, before);
      OperationMeets(m, j);
      assert forall o :: o in OutputsOf(m, ops[n]) ==> o !in BuildStep(m, ops[..n]).operandMap && o !in InputsOf(m, j);
      MeetOperationKinds(m, BuildStep(m, before), m.operations[j], Outs(m, before));
      OutsAppend(m, before, j);
    }
  }

  // ---------------------------------------------------------------- steps of a partition

  lemma TopologicalPrefix(m: Model, a: seq<nat>, b: seq<nat>)
    requires Topological(m, a + b)
    ensures Topological(m, a)
  {
    forall p | 0 <= p < |a| ensures Ready(m, a[p], Outs(m, a[..p])) {
      assert (a + b)[p] == a[p] && (a + b)[..p] == a[..p];
    }
  }

  /** The first operation after a prefix of the order was ready then. */
  lemma TopologicalAt(m: Model, a: seq<nat>, b: seq<nat>)
    requires Topological(m, a + b) && b != []
    ensures Ready(m, b[0], Outs(m, a))
  {
    assert (a + b)[|a|] == b[0] && (a + b)[..|a|] == a;
  }

  lemma OperationsSplit(m: Model, a: seq<nat>, b: seq<nat>)
    requires Operations(m, a + b)
    ensures Operations(m, a) && Operations(m, b) && forall x :: x in b ==> x !in a
  {
    SplitNoDup(a, b);
    assert forall p :: 0 <= p < |a| ==> (a + b)[p] == a[p];
    assert forall p :: 0 <= p < |b| ==> b[p] == (a + b)[|a| + p];
  }

  lemma {:induction false} FlattenSplit(stepOps: seq<seq<nat>>, t: nat) returns (rest: seq<nat>)
    requires t < |stepOps|
    ensures Flatten(stepOps) == Through(stepOps, t) + stepOps[t] + rest
    decreases |stepOps|
  {
    var n := |stepOps| - 1;
    if t == n {
      rest := [];
    } else {
      rest := FlattenSplit(stepOps[..n], t);
      assert stepOps[..n][..t] == stepOps[..t];
      rest := rest + stepOps[n];
    }
  }

  /** The asserts of `addOperand` hold: when an operation is added, its outputs are new to the step. */
  lemma PartitionStepFresh(m: Model, stepOps: seq<seq<nat>>, t: nat)
    requires InRange(m) && WrittenOnce(m) && IsRunOrder(m, Flatten(stepOps)) && t < |stepOps|
    ensures StepFresh(m, stepOps[t]) && Operations(m, stepOps[t])
  {
    var ops := stepOps[t];
    var earlier := Through(stepOps, t);
    var rest := FlattenSplit(stepOps, t);
    var all := earlier + ops;
    TopologicalPrefix(m, all, rest);
    OperationsSplit(m, all, rest);
    OperationsSplit(m, earlier, ops);
    forall p | 0 <= p < |ops|
      ensures ops[p] < |m.operations|
      ensures forall o :: o in OutputsOf(m, ops[p]) ==>
                o !in BuildStep(m, ops[..p]).operandMap && o !in InputsOf(m, ops[p])
    {
      OperationAddedFresh(m, earlier, ops, p);
    }
  }

  lemma OperationAddedFresh(m: Model, earlier: seq<nat>, ops: seq<nat>, p: nat)
    requires InRange(m) && WrittenOnce(m) && p < |ops|
    requires Operations(m, earlier + ops) && Topological(m, earlier + ops)
    ensures ops[p] < |m.operations|
    ensures forall o :: o in OutputsOf(m, ops[p]) ==>
              o !in BuildStep(m, ops[..p]).operandMap && o !in InputsOf(m, ops[p])
  {
    var done, rest := earlier + ops[..p], ops[p..];
    assert earlier + ops == done + rest && rest[0] == ops[p];
    TopologicalPrefix(m, done, rest);
    TopologicalAt(m, done, rest);
    OperationsSplit(m, done, rest);
    OperationsSplit(m, earlier, ops[..p]);
    FreshForStep(m, done, ops[..p], ops[p]);
  }

  /** What a step meets as an input is read by one of its operations and written by none. */
  lemma MetAsInput(m: Model, ops: seq<nat>, k: nat) returns (x: nat)
    requires InRange(m) && WrittenOnce(m) && StepFresh(m, ops) && Operations(m, ops)
    requires k < |BuildStep(m, ops).origins| && BuildStep(m, ops).origins[k].kind == Input
    ensures x in ops && BuildStep(m, ops).origins[k].operand in InputsOf(m, x)
    ensures BuildStep(m, ops).origins[k].operand !in Outs(m, ops)
  {
    var o := BuildStep(m, ops).origins[k].operand;
    KindsExact(m, ops);
    BuildStepFacts(m, ops);
    BuildStepKeys(m, ops, o);
    x :| x in ops && (o in InputsOf(m, x) || o in OutputsOf(m, x));
  }

  /** Something a step meets first as an input, and that some operation computes, is computed by a
    * strictly earlier step. */
  lemma DefinedEarlier(m: Model, stepOps: seq<seq<nat>>, t: nat, k: nat) returns (d: nat)
    requires InRange(m) && WrittenOnce(m) && IsRunOrder(m, Flatten(stepOps)) && t < |stepOps|
    requires k < |BuildStep(m, stepOps[t]).origins|
    requires BuildStep(m, stepOps[t]).origins[k].kind == Input
    requires DataflowAt(m.operands, BuildStep(m, stepOps[t]).origins[k].operand)
    ensures d < t && BuildStep(m, stepOps[t]).origins[k].operand in Outs(m, stepOps[d])
  {
    var ops := stepOps[t];
    var o := BuildStep(m, ops).origins[k].operand;
    PartitionStepFresh(m, stepOps, t);
    var x := MetAsInput(m, ops, k);
    var rest := FlattenSplit(stepOps, t);
    TopologicalPrefix(m, Through(stepOps, t) + ops, rest);
    ReadsAreKnown(m, Through(stepOps, t) + ops, x, o);
    OutsConcat(m, Through(stepOps, t), ops);
    d := WriterStep(m, stepOps[..t], o);
  }

  lemma {:induction false} WriterStep(m: Model, stepOps: seq<seq<nat>>, o: nat) returns (d: nat)
    requires o in Outs(m, Flatten(stepOps))
    ensures d < |stepOps| && o in Outs(m, stepOps[d])
    decreases |stepOps|
  {
    var n := |stepOps| - 1;
    OutsConcat(m, Flatten(stepOps[..n]), stepOps[n]);
    if o in Outs(m, stepOps[n]) {
      d := n;
    } else {
      d := WriterStep(m, stepOps[..n], o);
    }
  }

  lemma {:induction false} FlattenIncludes(m: Model, stepOps: seq<seq<nat>>, t: nat, o: nat)
    requires t < |stepOps| && o in Outs(m, stepOps[t])
    ensures o in Outs(m, Flatten(stepOps))
  {
    var rest := FlattenSplit(stepOps, t);
    OutsConcat(m, Through(stepOps, t), stepOps[t]);
    OutsConcat(m, Through(stepOps, t) + stepOps[t], rest);
  }

  /** Only one step writes an operand. */
  lemma {:induction false} OneWriterStep(m: Model, stepOps: seq<seq<nat>>, d: nat, e: nat, o: nat)
    requires WrittenOnce(m) && NoDup(Flatten(stepOps))
    requires d <= e < |stepOps| && o in Outs(m, stepOps[d]) && o in Outs(m, stepOps[e])
    ensures d == e
  {
    if d < e {
      var rest := FlattenSplit(stepOps, e);
      var i :| i in stepOps[d] && o in OutputsOf(m, i);
      var j :| j in stepOps[e] && o in OutputsOf(m, j);
      UniqueWriter(m, i, j, o);
      assert stepOps[..e][d] == stepOps[d];
      var rest' := FlattenSplit(stepOps[..e], d);
      assert i in Through(stepOps, e);
      SplitNoDup(Through(stepOps, e) + stepOps[e], rest);
      SplitNoDup(Through(stepOps, e), stepOps[e]);
    }
  }
}
