/** Operands, operations and models, and what it means to run a model.
  *
  * An operation is an uninterpreted, deterministic function of the types and
  * values of its inputs and of the types of its outputs.
  */
module Models {
  import opened Sequences

  const UINT32_LIMIT: nat := 0x1_0000_0000

  datatype LifeTime =
    | TemporaryVariable
    | ModelInput
    | ModelOutput
    | ConstantCopy
    | ConstantReference
    | NoValue

  datatype ResultCode =
    | NoError
    | OutOfMemory
    | Incomplete
    | UnexpectedNull
    | BadData
    | OpFailed
    | BadState
    | Unmappable
    | OutputInsufficientSize
    | UnavailableDevice

  /** What a copied operand keeps: everything but lifetime, location and consumer count. */
  datatype OperandType = OperandType(code: nat, isScalar: bool, elementSize: nat,
                                     dimensions: seq<nat>, scale: real, zeroPoint: int,
                                     extraParams: seq<nat>)

  type Bytes = seq<bv8>

  /** `value` stands for the bytes that the location of a constant designates. */
  datatype Operand = Operand(ty: OperandType, lifetime: LifeTime, value: Bytes, numberOfConsumers: nat)

  datatype Operation = Operation(code: nat, inputs: seq<nat>, outputs: seq<nat>)

  datatype Model = Model(operands: seq<Operand>, operations: seq<Operation>,
                         inputIndexes: seq<nat>, outputIndexes: seq<nat>)

  /** Product of the dimensions in 32-bit arithmetic; 0 for a tensor of unknown rank. */
  function SizeOfData(ty: OperandType): (size: nat)
    ensures size < UINT32_LIMIT
  {
    if ty.isScalar then ty.elementSize % UINT32_LIMIT
    else if ty.dimensions == [] then 0
    else TimesDimensions(ty.elementSize, ty.dimensions)
  }

  function TimesDimensions(size: nat, dimensions: seq<nat>): (r: nat)
    ensures r < UINT32_LIMIT
  {
    if dimensions == [] then size % UINT32_LIMIT
    else TimesDimensions(size, dimensions[..|dimensions|-1]) * dimensions[|dimensions|-1] % UINT32_LIMIT
  }

  predicate HasUnknownSize(ty: OperandType) {
    ty.dimensions == [] || 0 in ty.dimensions
  }

  // ---------------------------------------------------------------- well-formedness

  predicate IsDataflow(o: Operand) {
    o.lifetime.TemporaryVariable? || o.lifetime.ModelOutput?
  }

  predicate IsConstant(o: Operand) {
    o.lifetime.ConstantCopy? || o.lifetime.ConstantReference? || o.lifetime.NoValue?
  }

  ghost predicate OperationInRange(operands: seq<Operand>, op: Operation) {
    && (forall o :: o in op.inputs ==> o < |operands|)
    && (forall o :: o in op.outputs ==> o < |operands|)
  }

  ghost predicate InRange(m: Model) {
    forall j :: 0 <= j < |m.operations| ==> OperationInRange(m.operands, m.operations[j])
  }

  /** Outputs of operation `j`; none when there is no such operation. */
  function OutputsOf(m: Model, j: nat): seq<nat> {
    if j < |m.operations| then m.operations[j].outputs else []
  }

  function InputsOf(m: Model, j: nat): seq<nat> {
    if j < |m.operations| then m.operations[j].inputs else []
  }

  /** Operands written by the listed operations. */
  ghost function Outs(m: Model, ops: seq<nat>): set<nat> {
    set j, o | j in ops && o in OutputsOf(m, j) :: o
  }

  lemma OutsAppend(m: Model, ops: seq<nat>, j: nat)
    ensures Outs(m, ops + [j]) == Outs(m, ops) + Elements(OutputsOf(m, j))
  {
  }

  lemma OutsConcat(m: Model, a: seq<nat>, b: seq<nat>)
    ensures Outs(m, a + b) == Outs(m, a) + Outs(m, b)
  {
  }

  /** Only results are written, each at most once. */
  ghost predicate WrittenAtMostOnce(m: Model) {
    && (forall j, o :: 0 <= j < |m.operations| && o in m.operations[j].outputs ==>
                         o < |m.operands| && IsDataflow(m.operands[o]))
    && (forall j :: 0 <= j < |m.operations| ==> NoDup(m.operations[j].outputs))
    && (forall i, j, o :: 0 <= i < j < |m.operations| && o in m.operations[i].outputs ==>
                            o !in m.operations[j].outputs)
  }

  /** Every result is written. */
  ghost predicate AllWritten(m: Model) {
    forall o :: 0 <= o < |m.operands| && IsDataflow(m.operands[o]) ==>
      exists j :: 0 <= j < |m.operations| && o in m.operations[j].outputs
  }

  ghost predicate WrittenOnce(m: Model) {
    WrittenAtMostOnce(m) && AllWritten(m)
  }

  ghost predicate ValidIndexes(m: Model, indexes: seq<nat>, lifetime: LifeTime) {
    && (forall o :: o in indexes ==> o < |m.operands| && m.operands[o].lifetime == lifetime)
    && NoDup(indexes)
  }

  ghost predicate ValidModel(m: Model) {
    && m.operations != [] && m.operands != []
    && InRange(m) && WrittenOnce(m)
    && ValidIndexes(m, m.inputIndexes, ModelInput)
    && ValidIndexes(m, m.outputIndexes, ModelOutput)
  }

  /** Lifetimes and index lists agree, as they do when inputs and outputs were identified once. */
  ghost predicate InterfaceListed(m: Model) {
    forall o :: 0 <= o < |m.operands| ==>
      && (m.operands[o].lifetime.ModelInput? <==> o in m.inputIndexes)
      && (m.operands[o].lifetime.ModelOutput? <==> o in m.outputIndexes)
  }

  ghost predicate ConsumersCounted(m: Model) {
    forall o :: 0 <= o < |m.operands| ==> m.operands[o].numberOfConsumers == Consumers(m.operations, o)
  }

  function Consumers(operations: seq<Operation>, o: nat): nat {
    if operations == [] then 0
    else Consumers(operations[..|operations|-1], o) + Count(operations[|operations|-1].inputs, o)
  }

  /** The writer of a result is unique. */
  lemma UniqueWriter(m: Model, i: nat, j: nat, o: nat)
    requires WrittenOnce(m)
    requires o in OutputsOf(m, i) && o in OutputsOf(m, j)
    ensures i == j
  {
  }

  // ---------------------------------------------------------------- orders of operations

  /** Every result that operation `j` reads is in `known`. */
  ghost predicate Ready(m: Model, j: nat, known: set<nat>) {
    forall o :: o in InputsOf(m, j) && o < |m.operands| && IsDataflow(m.operands[o]) ==> o in known
  }

  /** Each listed operation comes after the writers of everything it reads. */
  ghost predicate Topological(m: Model, order: seq<nat>) {
    forall p :: 0 <= p < |order| ==> Ready(m, order[p], Outs(m, order[..p]))
  }

  ghost predicate Operations(m: Model, order: seq<nat>) {
    NoDup(order) && forall p :: 0 <= p < |order| ==> order[p] < |m.operations|
  }

  lemma TopologicalAppend(m: Model, order: seq<nat>, j: nat)
    requires Topological(m, order) && Ready(m, j, Outs(m, order))
    ensures Topological(m, order + [j])
  {
    var next := order + [j];
    forall p | 0 <= p < |next|
      ensures Ready(m, next[p], Outs(m, next[..p]))
    {
      assert next[..p] == order[..p];
      if p == |order| { assert order[..p] == order; }
    }
  }

  // ---------------------------------------------------------------- running a model

  /** Operation code, input types, input values, output types and the number of the wanted output. */
  type Semantics = (nat, seq<OperandType>, seq<Bytes>, seq<OperandType>, nat) -> Bytes

  type Env = map<nat, Bytes>

  function TypesOf(m: Model, os: seq<nat>): seq<OperandType>
    requires forall o :: o in os ==> o < |m.operands|
  {
    seq(|os|, i requires 0 <= i < |os| => assert os[i] in os; m.operands[os[i]].ty)
  }

  function ValuesOf(env: Env, os: seq<nat>): seq<Bytes>
    requires forall o :: o in os ==> o in env
  {
    seq(|os|, i requires 0 <= i < |os| => assert os[i] in os; env[os[i]])
  }

  function ResultOf(sem: Semantics, m: Model, op: Operation, env: Env, k: nat): Bytes
    requires OperationInRange(m.operands, op)
    requires forall o :: o in op.inputs ==> o in env
  {
    sem(op.code, TypesOf(m, op.inputs), ValuesOf(env, op.inputs), TypesOf(m, op.outputs), k)
  }

  /** `env` holds, for every output of `op`, what `op` computes from `env`. */
  ghost predicate Satisfies(sem: Semantics, m: Model, op: Operation, env: Env) {
    && OperationInRange(m.operands, op)
    && (forall o :: o in op.inputs ==> o in env)
    && (forall k :: 0 <= k < |op.outputs| ==>
                      op.outputs[k] in env && env[op.outputs[k]] == ResultOf(sem, m, op, env, k))
  }

  function WriteResults(sem: Semantics, m: Model, op: Operation, env: Env, n: nat): (r: Env)
    requires OperationInRange(m.operands, op) && n <= |op.outputs|
    requires forall o :: o in op.inputs ==> o in env
    ensures r.Keys == env.Keys + Elements(op.outputs[..n])
    ensures forall o :: o in env && o !in op.outputs[..n] ==> r[o] == env[o]
  {
    if n == 0 then env
    else
      assert op.outputs[..n] == op.outputs[..n-1] + [op.outputs[n-1]];
      WriteResults(sem, m, op, env, n - 1)[op.outputs[n-1] := ResultOf(sem, m, op, env, n - 1)]
  }

  ghost predicate Runnable(m: Model, op: Operation, env: Env) {
    OperationInRange(m.operands, op) && forall o :: o in op.inputs ==> o in env
  }

  /** Executes one operation: reads its inputs, writes its outputs. */
  function RunOperation(sem: Semantics, m: Model, op: Operation, env: Env): Env
    requires Runnable(m, op, env)
  {
    WriteResults(sem, m, op, env, |op.outputs|)
  }

  /** Every operation finds its inputs when the listed operations run one after the other. */
  ghost predicate CanRun(m: Model, order: seq<nat>, env: Env) {
    forall p :: 0 <= p < |order| ==>
          && order[p] < |m.operations|
          && OperationInRange(m.operands, m.operations[order[p]])
          && (forall o :: o in m.operations[order[p]].inputs ==> o in env.Keys + Outs(m, order[..p]))
  }

  lemma CanRunPrefix(m: Model, order: seq<nat>, env: Env)
    requires CanRun(m, order, env) && order != []
    ensures CanRun(m, order[..|order|-1], env)
  {
    var shorter := order[..|order|-1];
    forall p | 0 <= p < |shorter|
      ensures shorter[p] < |m.operations| && OperationInRange(m.operands, m.operations[shorter[p]])
      ensures forall o :: o in m.operations[shorter[p]].inputs ==> o in env.Keys + Outs(m, shorter[..p])
    {
      assert shorter[p] == order[p] && shorter[..p] == order[..p];
    }
  }

  /** Runs the listed operations in the listed order. */
  ghost function Run(sem: Semantics, m: Model, order: seq<nat>, env: Env): (r: Env)
    requires CanRun(m, order, env)
    ensures r.Keys == env.Keys + Outs(m, order)
  {
    if order == [] then env
    else
      CanRunPrefix(m, order, env);
      var shorter := order[..|order|-1];
      var j := order[|order|-1];
      assert order == shorter + [j];
      OutsAppend(m, shorter, j);
      assert m.operations[j].outputs[..|m.operations[j].outputs|] == m.operations[j].outputs;
      RunOperation(sem, m, m.operations[j], Run(sem, m, shorter, env))
  }

  /** Values of constants and arguments before the first operation runs. */
  function InitialEnv(m: Model, arguments: seq<Bytes>): Env
    requires |arguments| == |m.inputIndexes|
  {
    (map o: nat | 0 <= o < |m.operands| && IsConstant(m.operands[o]) :: m.operands[o].value) +
    ArgumentEnv(m.inputIndexes, arguments)
  }

  function ArgumentEnv(indexes: seq<nat>, arguments: seq<Bytes>): (env: Env)
    requires |arguments| == |indexes|
    ensures env.Keys == Elements(indexes)
  {
    if indexes == [] then map[]
    else
      var n := |indexes| - 1;
      assert indexes == indexes[..n] + [indexes[n]];
      ArgumentEnv(indexes[..n], arguments[..n])[indexes[n] := arguments[n]]
  }

  lemma {:induction false} ArgumentEnvAt(indexes: seq<nat>, arguments: seq<Bytes>, i: nat)
    requires |arguments| == |indexes| && NoDup(indexes) && i < |indexes|
    ensures indexes[i] in ArgumentEnv(indexes, arguments)
    ensures ArgumentEnv(indexes, arguments)[indexes[i]] == arguments[i]
  {
    if i < |indexes| - 1 {
      ArgumentEnvAt(indexes[..|indexes|-1], arguments[..|indexes|-1], i);
    }
  }

  // ---------------------------------------------------------------- order independence

  ghost predicate Agree(a: Env, b: Env) {
    forall o :: o in a ==> o in b && a[o] == b[o]
  }

  lemma SameInputsSameResult(sem: Semantics, m: Model, op: Operation, env: Env, solution: Env, k: nat)
    requires Runnable(m, op, env) && Agree(env, solution)
    ensures Runnable(m, op, solution) && ResultOf(sem, m, op, env, k) == ResultOf(sem, m, op, solution, k)
  {
    assert ValuesOf(env, op.inputs) == ValuesOf(solution, op.inputs);
  }

  lemma AgreeExtend(a: Env, b: Env, o: nat, v: Bytes)
    requires Agree(a, b) && o in b && b[o] == v
    ensures Agree(a[o := v], b)
  {
  }

  /** Writing the outputs of one operation into an environment that agrees with a solution keeps agreement. */
  lemma {:induction false} WriteAgrees(sem: Semantics, m: Model, op: Operation, env: Env, solution: Env, n: nat)
    requires Runnable(m, op, env) && n <= |op.outputs|
    requires Agree(env, solution) && Satisfies(sem, m, op, solution)
    ensures Agree(WriteResults(sem, m, op, env, n), solution)
  {
    if n > 0 {
      WriteAgrees(sem, m, op, env, solution, n - 1);
      SameInputsSameResult(sem, m, op, env, solution, n - 1);
      AgreeExtend(WriteResults(sem, m, op, env, n - 1), solution, op.outputs[n-1], ResultOf(sem, m, op, env, n - 1));
    }
  }

  ghost predicate SatisfiesAll(sem: Semantics, m: Model, order: seq<nat>, env: Env) {
    forall p :: 0 <= p < |order| ==> order[p] < |m.operations| && Satisfies(sem, m, m.operations[order[p]], env)
  }

  /** Any order in which the operations can run computes the values of any solution. */
  lemma {:induction false} RunAgrees(sem: Semantics, m: Model, order: seq<nat>, env: Env, solution: Env)
    requires CanRun(m, order, env) && Agree(env, solution)
    requires SatisfiesAll(sem, m, order, solution)
    ensures Agree(Run(sem, m, order, env), solution)
    decreases |order|
  {
    if order != [] {
      CanRunPrefix(m, order, env);
      var shorter := order[..|order|-1];
      var j := order[|order|-1];
      RunAgrees(sem, m, shorter, env, solution);
      var before := Run(sem, m, shorter, env);
      WriteAgrees(sem, m, m.operations[j], before, solution, |m.operations[j].outputs|);
    }
  }

  lemma {:induction false} WriteResultsAt(sem: Semantics, m: Model, op: Operation, env: Env, n: nat, k: nat)
    requires Runnable(m, op, env) && k < n <= |op.outputs| && NoDup(op.outputs)
    ensures WriteResults(sem, m, op, env, n)[op.outputs[k]] == ResultOf(sem, m, op, env, k)
  {
    var before := WriteResults(sem, m, op, env, n - 1);
    assert WriteResults(sem, m, op, env, n) == before[op.outputs[n-1] := ResultOf(sem, m, op, env, n - 1)];
    if k < n - 1 {
      WriteResultsAt(sem, m, op, env, n - 1, k);
      assert op.outputs[k] != op.outputs[n-1];
    }
  }

  /** Nothing that is already there or already computed is written again. */
  ghost predicate FreshWrites(m: Model, order: seq<nat>, env: Env) {
    forall p :: 0 <= p < |order| ==> FreshAt(m, order, env, p)
  }

  ghost predicate FreshAt(m: Model, order: seq<nat>, env: Env, p: nat)
    requires p < |order|
  {
    && NoDup(OutputsOf(m, order[p]))
    && forall o :: o in OutputsOf(m, order[p]) ==> o !in env && o !in Outs(m, order[..p])
  }

  lemma SatisfiesExtend(sem: Semantics, m: Model, op: Operation, before: Env, after: Env)
    requires Satisfies(sem, m, op, before) && Agree(before, after)
    ensures Satisfies(sem, m, op, after)
  {
    assert ValuesOf(before, op.inputs) == ValuesOf(after, op.inputs);
  }

  lemma RunOperationSatisfies(sem: Semantics, m: Model, op: Operation, env: Env)
    requires Runnable(m, op, env) && NoDup(op.outputs)
    requires forall o :: o in op.outputs ==> o !in env
    ensures Agree(env, RunOperation(sem, m, op, env))
    ensures Satisfies(sem, m, op, RunOperation(sem, m, op, env))
  {
    var after := RunOperation(sem, m, op, env);
    assert op.outputs[..|op.outputs|] == op.outputs;
    assert ValuesOf(env, op.inputs) == ValuesOf(after, op.inputs);
    forall k | 0 <= k < |op.outputs|
      ensures op.outputs[k] in after && after[op.outputs[k]] == ResultOf(sem, m, op, after, k)
    {
      WriteResultsAt(sem, m, op, env, |op.outputs|, k);
    }
  }

  lemma FreshWritesPrefix(m: Model, order: seq<nat>, env: Env)
    requires FreshWrites(m, order, env) && order != []
    ensures FreshWrites(m, order[..|order|-1], env)
  {
    var shorter := order[..|order|-1];
    forall p | 0 <= p < |shorter| ensures FreshAt(m, shorter, env, p) {
      assert FreshAt(m, order, env, p);
      assert shorter[p] == order[p] && shorter[..p] == order[..p];
    }
  }

  lemma SatisfiesAllAppend(sem: Semantics, m: Model, order: seq<nat>, j: nat, before: Env, after: Env)
    requires SatisfiesAll(sem, m, order, before) && Agree(before, after)
    requires j < |m.operations| && Satisfies(sem, m, m.operations[j], after)
    ensures SatisfiesAll(sem, m, order + [j], after)
  {
    forall p | 0 <= p < |order|
      ensures Satisfies(sem, m, m.operations[order[p]], after)
    {
      SatisfiesExtend(sem, m, m.operations[order[p]], before, after);
    }
  }

  /** A run that writes every operand at most once ends in an environment that satisfies every
    * operation it ran. */
  lemma {:induction false} RunSatisfies(sem: Semantics, m: Model, order: seq<nat>, env: Env)
    requires CanRun(m, order, env) && FreshWrites(m, order, env)
    ensures Agree(env, Run(sem, m, order, env))
    ensures SatisfiesAll(sem, m, order, Run(sem, m, order, env))
    decreases |order|
  {
    hide Satisfies, Outs, FreshWrites, CanRun, Run, RunOperation;
    if order == [] {
      RunNothing(sem, m, env);
    } else {
      var j := order[|order|-1];
      var shorter := order[..|order|-1];
      CanRunPrefix(m, order, env);
      FreshWritesPrefix(m, order, env);
      RunLast(sem, m, order, env);
      RunSatisfies(sem, m, shorter, env);
      var before := Run(sem, m, shorter, env);
      RunOperationSatisfies(sem, m, m.operations[j], before);
      SatisfiesAllAppend(sem, m, shorter, j, before, Run(sem, m, order, env));
      assert order == shorter + [j];
    }
  }

  lemma RunNothing(sem: Semantics, m: Model, env: Env)
    requires CanRun(m, [], env)
    ensures Run(sem, m, [], env) == env
  {
  }

  /** The last operation finds its inputs, and writes what was not there. */
  lemma RunLast(sem: Semantics, m: Model, order: seq<nat>, env: Env)
    requires CanRun(m, order, env) && FreshWrites(m, order, env) && order != []
    requires CanRun(m, order[..|order|-1], env)
    ensures var j, before := order[|order|-1], Run(sem, m, order[..|order|-1], env);
            && j < |m.operations| && NoDup(m.operations[j].outputs)
            && Runnable(m, m.operations[j], before) && (forall o :: o in m.operations[j].outputs ==> o !in before)
            && Run(sem, m, order, env) == RunOperation(sem, m, m.operations[j], before)
  {
    hide RunOperation, Outs;
    assert FreshAt(m, order, env, |order| - 1);
  }

  lemma AgreeIsEqual(a: Env, b: Env)
    requires Agree(a, b) && a.Keys == b.Keys
    ensures a == b
  {
  }

  lemma SameOuts(m: Model, a: seq<nat>, b: seq<nat>)
    requires Elements(a) == Elements(b)
    ensures Outs(m, a) == Outs(m, b)
  {
    assert forall j :: j in b ==> j in Elements(b);
    assert forall j :: j in a ==> j in Elements(a);
  }

  /** Any two orders in which the same single-assignment operations can run compute the same values. */
  lemma OrderIndependence(sem: Semantics, m: Model, a: seq<nat>, b: seq<nat>, env: Env)
    requires CanRun(m, a, env) && CanRun(m, b, env)
    requires FreshWrites(m, a, env)
    requires Elements(a) == Elements(b)
    ensures Run(sem, m, a, env) == Run(sem, m, b, env)
  {
    RunSatisfies(sem, m, a, env);
    var one := Run(sem, m, a, env);
    assert SatisfiesAll(sem, m, b, one) by {
      forall p | 0 <= p < |b|
        ensures Satisfies(sem, m, m.operations[b[p]], one)
      {
        assert b[p] in Elements(b);
        var q :| 0 <= q < |a| && a[q] == b[p];
      }
    }
    RunAgrees(sem, m, b, env, one);
    SameOuts(m, a, b);
    AgreeIsEqual(Run(sem, m, b, env), one);
  }
}
