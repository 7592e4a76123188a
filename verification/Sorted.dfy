/** Models whose operations are listed in run order. */
module Sorting {
  import opened Sequences
  import opened Models
  import opened RunOrder
  import opened ModelBuilding
  import opened Cycles

  function Identity(n: nat): (r: seq<nat>)
    ensures |r| == n && forall i :: 0 <= i < n ==> r[i] == i
  {
    seq(n, i => i)
  }

  lemma IdentityPrefix(n: nat, p: nat)
    requires p <= n
    ensures Identity(n)[..p] == Identity(p)
  {
  }

  /** Running the operations as listed gives each of them its inputs in time. */
  ghost predicate InRunOrder(m: Model) {
    Topological(m, Identity(|m.operations|))
  }

  /** The model after its operations were put in the given order. */
  function Reordered(m: Model, order: seq<nat>): Model
    requires forall j :: j in order ==> j < |m.operations|
  {
    m.(operations := Select(m.operations, order))
  }

  lemma ReorderedOuts(m: Model, order: seq<nat>, p: nat)
    requires Operations(m, order) && p <= |order|
    ensures Outs(Reordered(m, order), Identity(|order|)[..p]) == Outs(m, order[..p])
  {
    var f := Reordered(m, order);
    var a, b := Identity(|order|)[..p], order[..p];
    forall o | o in Outs(f, a) ensures o in Outs(m, b) {
      var i :| i in a && o in OutputsOf(f, i);
      var q :| 0 <= q < p && a[q] == i;
      assert q == i && b[i] == order[i] && order[i] in b;
      assert o in OutputsOf(m, order[i]);
    }
    forall o | o in Outs(m, b) ensures o in Outs(f, a) {
      var j :| j in b && o in OutputsOf(m, j);
      var i :| 0 <= i < p && b[i] == j;
      assert a[i] == i && i in a && o in OutputsOf(f, i);
    }
  }

  /** A run order leaves the operations listed in run order. */
  lemma ReorderedInRunOrder(m: Model, order: seq<nat>)
    requires Operations(m, order) && Topological(m, order)
    ensures InRunOrder(Reordered(m, order))
  {
    var f := Reordered(m, order);
    forall p | 0 <= p < |order|
      ensures Ready(f, Identity(|order|)[p], Outs(f, Identity(|order|)[..p]))
    {
      ReorderedOuts(m, order, p);
      assert Ready(m, order[p], Outs(m, order[..p]));
      assert InputsOf(f, p) == InputsOf(m, order[p]);
    }
  }

  /** A run order that keeps every operation keeps the model well-formed. */
  lemma ReorderedValid(m: Model, order: seq<nat>)
    requires ValidModel(m) && Operations(m, order) && |order| == |m.operations|
    ensures ValidModel(Reordered(m, order))
  {
    var f := Reordered(m, order);
    ReorderedWrittenOnce(m, order);
    forall p | 0 <= p < |f.operations| ensures OperationInRange(f.operands, f.operations[p]) {
      assert OperationInRange(m.operands, m.operations[order[p]]);
    }
  }

  lemma WrittenIsResult(m: Model, j: nat, o: nat)
    requires WrittenOnce(m) && o in OutputsOf(m, j)
    ensures o < |m.operands| && IsDataflow(m.operands[o])
  {
  }

  lemma ReorderedOutputs(m: Model, order: seq<nat>, i: nat)
    requires Operations(m, order) && i < |order|
    ensures 0 <= order[i] < |m.operations|
    ensures Reordered(m, order).operations[i] == m.operations[order[i]]
  {
  }

  lemma ReorderedWrittenOnce(m: Model, order: seq<nat>)
    requires WrittenOnce(m) && Operations(m, order) && |order| == |m.operations|
    ensures WrittenOnce(Reordered(m, order))
  {
    var f := Reordered(m, order);
    var ops := f.operations;
    assert |ops| == |order| && f.operands == m.operands;
    forall i | 0 <= i < |ops|
      ensures ops[i] == m.operations[order[i]] && NoDup(ops[i].outputs)
      ensures forall o :: o in ops[i].outputs ==> o < |m.operands| && IsDataflow(m.operands[o])
    {
      ReorderedOutputs(m, order, i);
      forall o | o in ops[i].outputs ensures o < |m.operands| && IsDataflow(m.operands[o]) {
        WrittenIsResult(m, order[i], o);
      }
    }
    forall i, j | 0 <= i < j < |ops|
      ensures forall o :: o in ops[i].outputs ==> o !in ops[j].outputs
    {
      assert order[i] != order[j];
      ReorderedOutputs(m, order, i);
      ReorderedOutputs(m, order, j);
    }
    forall o | 0 <= o < |m.operands| && IsDataflow(m.operands[o])
      ensures exists p :: 0 <= p < |ops| && o in ops[p].outputs
    {
      var j :| 0 <= j < |m.operations| && o in m.operations[j].outputs;
      NoDupFull(order, |m.operations|, j);
      var p :| 0 <= p < |order| && order[p] == j;
      assert o in ops[p].outputs;
    }
  }

  /** What `ModelBuilder.Finish` leaves of an acyclic model: well-formed and listed in run order. */
  lemma FinishedModel(m: Model, order: seq<nat>)
    requires ValidModel(m) && IsRunOrder(m, order) && Acyclic(m)
    ensures ValidModel(Reordered(m, order)) && InRunOrder(Reordered(m, order))
  {
    CompleteIffAcyclic(m, order);
    ReorderedValid(m, order);
    ReorderedInRunOrder(m, order);
  }

  // ---------------------------------------------------------------- running such a model

  lemma {:induction false} ArgumentEnvKeys(m: Model, arguments: seq<Bytes>)
    requires |arguments| == |m.inputIndexes|
    ensures InitialEnv(m, arguments).Keys ==
            (set o: nat | 0 <= o < |m.operands| && IsConstant(m.operands[o])) + Elements(m.inputIndexes)
  {
  }

  /** Constants and arguments are all that the first operation of a topological order needs. */
  lemma OrderRuns(m: Model, arguments: seq<Bytes>, order: seq<nat>)
    requires InRange(m) && InterfaceListed(m) && Operations(m, order) && Topological(m, order)
    requires |arguments| == |m.inputIndexes|
    ensures CanRun(m, order, InitialEnv(m, arguments))
  {
    var env := InitialEnv(m, arguments);
    ArgumentEnvKeys(m, arguments);
    forall p | 0 <= p < |order|
      ensures forall o :: o in m.operations[order[p]].inputs ==> o in env.Keys + Outs(m, order[..p])
    {
      assert Ready(m, order[p], Outs(m, order[..p]));
      assert OperationInRange(m.operands, m.operations[order[p]]);
      forall o | o in m.operations[order[p]].inputs ensures o in env.Keys + Outs(m, order[..p]) {
        if !IsDataflow(m.operands[o]) && !IsConstant(m.operands[o]) {
          assert m.operands[o].lifetime.ModelInput?;
        }
      }
    }
  }

  lemma ListedOrderRuns(m: Model, arguments: seq<Bytes>)
    requires InRange(m) && InterfaceListed(m) && InRunOrder(m)
    requires |arguments| == |m.inputIndexes|
    ensures CanRun(m, Identity(|m.operations|), InitialEnv(m, arguments))
  {
    OrderRuns(m, arguments, Identity(|m.operations|));
  }

  lemma ListedOrderFresh(m: Model, arguments: seq<Bytes>)
    requires InRange(m) && WrittenOnce(m) && InterfaceListed(m)
    requires |arguments| == |m.inputIndexes|
    requires forall o :: o in m.inputIndexes ==> o < |m.operands|
    ensures FreshWrites(m, Identity(|m.operations|), InitialEnv(m, arguments))
  {
    hide Outs, InitialEnv, InRange, InterfaceListed;
    var order := Identity(|m.operations|);
    forall p | 0 <= p < |order| ensures FreshAt(m, order, InitialEnv(m, arguments), p) {
      forall o | o in OutputsOf(m, p) ensures o !in InitialEnv(m, arguments) && o !in Outs(m, order[..p]) {
        WrittenIsNew(m, arguments, p, o);
      }
    }
  }

  /** An output is neither a constant nor an argument, and no earlier operation writes it. */
  lemma WrittenIsNew(m: Model, arguments: seq<Bytes>, p: nat, o: nat)
    requires WrittenOnce(m) && InterfaceListed(m) && |arguments| == |m.inputIndexes|
    requires p < |m.operations| && o in OutputsOf(m, p)
    ensures o !in InitialEnv(m, arguments) && o !in Outs(m, Identity(|m.operations|)[..p])
  {
    ArgumentEnvKeys(m, arguments);
    WrittenIsResult(m, p, o);
    var order := Identity(|m.operations|);
    forall i | i in order[..p] ensures o !in OutputsOf(m, i) {
      var q :| 0 <= q < p && order[q] == i;
      assert i == q;
    }
  }

  /** The values of all operands after the whole model ran. */
  ghost function Meaning(sem: Semantics, m: Model, arguments: seq<Bytes>): Env
    requires InRange(m) && InterfaceListed(m) && InRunOrder(m)
    requires |arguments| == |m.inputIndexes|
  {
    ListedOrderRuns(m, arguments);
    Run(sem, m, Identity(|m.operations|), InitialEnv(m, arguments))
  }

  /** Every operation holds of the meaning, which extends the constants and arguments. */
  lemma MeaningSatisfies(sem: Semantics, m: Model, arguments: seq<Bytes>)
    requires ValidModel(m) && InterfaceListed(m) && InRunOrder(m)
    requires |arguments| == |m.inputIndexes|
    ensures Agree(InitialEnv(m, arguments), Meaning(sem, m, arguments))
    ensures forall j :: 0 <= j < |m.operations| ==> Satisfies(sem, m, m.operations[j], Meaning(sem, m, arguments))
    ensures forall o :: 0 <= o < |m.operands| ==> o in Meaning(sem, m, arguments)
  {
    hide InterfaceListed, InRunOrder, Satisfies, InitialEnv;
    var order := Identity(|m.operations|);
    ListedOrderRuns(m, arguments);
    ListedOrderFresh(m, arguments);
    RunSatisfies(sem, m, order, InitialEnv(m, arguments));
    var e := Meaning(sem, m, arguments);
    forall j | 0 <= j < |m.operations| ensures Satisfies(sem, m, m.operations[j], e) {
      assert order[j] == j;
    }
    MeaningHasAll(sem, m, arguments);
  }

  lemma MeaningHasAll(sem: Semantics, m: Model, arguments: seq<Bytes>)
    requires InRange(m) && AllWritten(m) && InterfaceListed(m) && InRunOrder(m)
    requires |arguments| == |m.inputIndexes|
    ensures forall o :: 0 <= o < |m.operands| ==> o in Meaning(sem, m, arguments)
  {
    var order := Identity(|m.operations|);
    ListedOrderRuns(m, arguments);
    ArgumentEnvKeys(m, arguments);
    hide Run, CanRun, InRange;
    forall o | 0 <= o < |m.operands| ensures o in Meaning(sem, m, arguments) {
      if IsDataflow(m.operands[o]) {
        var j :| 0 <= j < |m.operations| && o in m.operations[j].outputs;
        assert order[j] in order && o in OutputsOf(m, order[j]);
      }
    }
  }

  /** The meaning is the only environment that extends constants and arguments and satisfies every
    * operation. */
  lemma MeaningUnique(sem: Semantics, m: Model, arguments: seq<Bytes>, solution: Env)
    requires InRange(m) && InterfaceListed(m) && InRunOrder(m)
    requires |arguments| == |m.inputIndexes|
    requires Agree(InitialEnv(m, arguments), solution)
    requires forall j :: 0 <= j < |m.operations| ==> Satisfies(sem, m, m.operations[j], solution)
    ensures Agree(Meaning(sem, m, arguments), solution)
  {
    ListedOrderRuns(m, arguments);
    RunAgrees(sem, m, Identity(|m.operations|), InitialEnv(m, arguments), solution);
  }

  lemma SameElements(a: seq<nat>, b: seq<nat>, n: nat)
    requires NoDup(a) && NoDup(b) && |a| == |b| == n
    requires (forall p :: 0 <= p < n ==> a[p] < n) && (forall p :: 0 <= p < n ==> b[p] < n)
    ensures Elements(a) == Elements(b)
  {
    forall j: nat ensures j in a <==> j < n && j in b {
      if j < n {
        NoDupFull(a, n, j);
        NoDupFull(b, n, j);
      }
    }
  }

  /** Sorting does not change what a model computes: the sorted model means what the original model
    * computes when its operations run in any other order that suits them. */
  lemma SortPreservesMeaning(sem: Semantics, m: Model, arguments: seq<Bytes>, order: seq<nat>, other: seq<nat>)
    requires ValidModel(m) && InterfaceListed(m) && |arguments| == |m.inputIndexes|
    requires Operations(m, order) && Topological(m, order) && |order| == |m.operations|
    requires Operations(m, other) && Topological(m, other) && |other| == |m.operations|
    ensures ValidModel(Reordered(m, order)) && InRunOrder(Reordered(m, order))
    ensures CanRun(m, other, InitialEnv(m, arguments))
    ensures Run(sem, m, other, InitialEnv(m, arguments)) == Meaning(sem, Reordered(m, order), arguments)
  {
    hide WrittenOnce, Topological, InRunOrder, Satisfies, InitialEnv, ValidIndexes;
    var f, n := Reordered(m, order), |m.operations|;
    ReorderedValid(m, order);
    ReorderedInRunOrder(m, order);
    SameInitialEnv(m, order, arguments);
    hide InRange, InterfaceListed;
    OrderRuns(m, arguments, other);
    MeaningSatisfies(sem, f, arguments);
    var env := Meaning(sem, f, arguments);
    forall p | 0 <= p < n ensures Satisfies(sem, m, m.operations[other[p]], env) {
      NoDupFull(order, n, other[p]);
      var i :| 0 <= i < n && order[i] == other[p];
      assert Satisfies(sem, f, f.operations[i], env);
      SatisfiesSame(sem, f, m, f.operations[i], env);
    }
    RunAgrees(sem, m, other, InitialEnv(m, arguments), env);
    MeaningKeys(sem, m, arguments, order, other);
    AgreeIsEqual(Run(sem, m, other, InitialEnv(m, arguments)), env);
  }

  lemma SameInitialEnv(m: Model, order: seq<nat>, arguments: seq<Bytes>)
    requires (forall j :: j in order ==> j < |m.operations|) && |arguments| == |m.inputIndexes|
    ensures InitialEnv(Reordered(m, order), arguments) == InitialEnv(m, arguments)
    ensures InterfaceListed(m) ==> InterfaceListed(Reordered(m, order))
  {
  }

  /** The meaning of the sorted model has a value for the operands that any complete order writes. */
  lemma MeaningKeys(sem: Semantics, m: Model, arguments: seq<Bytes>, order: seq<nat>, other: seq<nat>)
    requires Operations(m, order) && |order| == |m.operations| && |arguments| == |m.inputIndexes|
    requires Operations(m, other) && |other| == |m.operations|
    requires InRange(Reordered(m, order)) && InterfaceListed(Reordered(m, order)) && InRunOrder(Reordered(m, order))
    ensures Meaning(sem, Reordered(m, order), arguments).Keys == InitialEnv(m, arguments).Keys + Outs(m, other)
  {
    hide InRange, InterfaceListed, InRunOrder, InitialEnv;
    var n := |m.operations|;
    SameInitialEnv(m, order, arguments);
    SameElements(order, other, n);
    SameOuts(m, order, other);
    ReorderedOuts(m, order, n);
    ListedOrderRuns(Reordered(m, order), arguments);
    assert order[..n] == order && Identity(n)[..n] == Identity(n);
  }

  /** What an operation computes depends on the operands of the model only. */
  lemma SatisfiesSame(sem: Semantics, a: Model, b: Model, op: Operation, env: Env)
    requires Satisfies(sem, a, op, env) && a.operands == b.operands
    ensures Satisfies(sem, b, op, env)
  {
    assert TypesOf(a, op.inputs) == TypesOf(b, op.inputs) && TypesOf(a, op.outputs) == TypesOf(b, op.outputs);
    forall k | 0 <= k < |op.outputs|
      ensures op.outputs[k] in env && env[op.outputs[k]] == ResultOf(sem, b, op, env, k)
    {
      assert env[op.outputs[k]] == ResultOf(sem, a, op, env, k);
    }
  }
}
