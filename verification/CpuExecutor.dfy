/** The CPU executor: its reference-counted temporaries, and the values that it computes. */
module CpuExecution {
  import opened Sequences
  import opened Models
  import opened ModelBuilding
  import opened Sorting
  import opened Controlling
  import opened Execution
  import opened OutputShapes

  /** A buffer is absent, was allocated by the executor, or belongs to the model or the caller. */
  datatype Buffer = Null | Owned(id: nat) | Foreign

  /** An operand while the model runs. Its value is what its buffer holds, as far as its dimensions say. */
  datatype RunTimeOperandInfo =
    RunTimeOperandInfo(lifetime: LifeTime, buffer: Buffer, length: nat, numberOfUsesLeft: nat, value: Bytes)

  /** Operands, number of buffers allocated so far, and buffers in the order they were freed. */
  datatype RunState = RunState(operands: seq<RunTimeOperandInfo>, made: nat, freed: seq<nat>)

  /** Every buffer that was allocated is either held by one temporary or was freed once. Nothing else was
    * freed. */
  ghost predicate Balanced(s: RunState) {
    && NoDup(s.freed)
    && (forall i :: 0 <= i < |s.freed| ==> s.freed[i] < s.made)
    && (forall o :: 0 <= o < |s.operands| && s.operands[o].buffer.Owned? ==>
          && s.operands[o].lifetime.TemporaryVariable? && s.operands[o].length > 0
          && s.operands[o].buffer.id < s.made && s.operands[o].buffer.id !in s.freed)
    && (forall o, p :: 0 <= o < p < |s.operands| && s.operands[o].buffer.Owned? && s.operands[p].buffer.Owned? ==>
          s.operands[o].buffer.id != s.operands[p].buffer.id)
    && (forall id: nat :: id < s.made ==> id in s.freed || Held(s, id))
  }

  ghost predicate Held(s: RunState, id: nat) {
    exists o :: 0 <= o < |s.operands| && s.operands[o].buffer == Owned(id)
  }

  /** Temporaries that are still to be read are there; those without a buffer are of size zero. What is
    * not a temporary is never counted. */
  ghost predicate Kept(s: RunState) {
    forall o :: 0 <= o < |s.operands| ==> KeptOperand(s.operands[o])
  }

  predicate KeptOperand(info: RunTimeOperandInfo) {
    && |info.value| <= info.length
    && if info.lifetime.TemporaryVariable?
       then !info.buffer.Foreign? && (info.numberOfUsesLeft > 0 && info.buffer.Null? ==> info.length == 0)
       else info.numberOfUsesLeft == 0 && !info.buffer.Owned?
  }

  /** Each count is the number of positions of `inputs` and of the inputs of `rest` that name the temporary. */
  ghost predicate UsesCounted(s: RunState, inputs: seq<nat>, rest: seq<Operation>) {
    forall o :: 0 <= o < |s.operands| && s.operands[o].lifetime.TemporaryVariable? ==>
      s.operands[o].numberOfUsesLeft == Count(inputs, o) + Consumers(rest, o)
  }

  // ---------------------------------------------------------------- steps

  /** Whether a temporary is to be allocated. */
  predicate Unallocated(info: RunTimeOperandInfo) {
    info.lifetime.TemporaryVariable? && info.buffer.Null?
  }

  /** An operand that is not allocated now has to have room for the value. */
  predicate Sufficient(s: RunState, o: nat, value: Bytes) {
    o < |s.operands| && (Unallocated(s.operands[o]) || |value| <= s.operands[o].length)
  }

  /** A kernel gives an operand its value, if there is room; a temporary gets a buffer for it first. */
  function Allocate(s: RunState, o: nat, value: Bytes): RunState {
    if o >= |s.operands| || !Sufficient(s, o, value) then s
    else if Unallocated(s.operands[o]) && |value| > 0
    then RunState(s.operands[o := s.operands[o].(buffer := Owned(s.made), length := |value|, value := value)],
                  s.made + 1, s.freed)
    else s.(operands := s.operands[o := s.operands[o].(value := value)])
  }

  function Free(s: RunState, o: nat): RunState {
    if o < |s.operands| && s.operands[o].buffer.Owned?
    then RunState(s.operands[o := s.operands[o].(buffer := Null, value := [])], s.made,
                  s.freed + [s.operands[o].buffer.id])
    else s
  }

  function Use(s: RunState, o: nat): RunState {
    if o >= |s.operands| || s.operands[o].numberOfUsesLeft == 0 then s
    else
      var t := s.(operands := s.operands[o := s.operands[o].(numberOfUsesLeft := s.operands[o].numberOfUsesLeft - 1)]);
      if t.operands[o].numberOfUsesLeft == 0 then Free(t, o) else t
  }

  lemma AllocateBalanced(s: RunState, o: nat, value: Bytes)
    requires Balanced(s)
    ensures Balanced(Allocate(s, o, value))
  {
    var t := Allocate(s, o, value);
    if t != s {
      forall id: nat | id < t.made ensures id in t.freed || Held(t, id) {
        if id == s.made {
          assert t.operands[o].buffer == Owned(id);
        } else if id !in s.freed {
          var p :| 0 <= p < |s.operands| && s.operands[p].buffer == Owned(id);
          assert t.operands[p].buffer == Owned(id);
        }
      }
    }
  }

  lemma FreeBalanced(s: RunState, o: nat)
    requires Balanced(s)
    ensures Balanced(Free(s, o))
  {
    var t := Free(s, o);
    if t != s {
      var freed := s.operands[o].buffer.id;
      NoDupAppend(s.freed, freed);
      forall id: nat | id < t.made ensures id in t.freed || Held(t, id) {
        if id == freed {
          assert t.freed[|s.freed|] == id;
        } else if id !in s.freed {
          var p :| 0 <= p < |s.operands| && s.operands[p].buffer == Owned(id);
          assert t.operands[p].buffer == Owned(id);
        }
      }
    }
  }

  lemma UseBalanced(s: RunState, o: nat)
    requires Balanced(s)
    ensures Balanced(Use(s, o))
  {
    if o < |s.operands| && s.operands[o].numberOfUsesLeft > 0 {
      var t := s.(operands := s.operands[o := s.operands[o].(numberOfUsesLeft := s.operands[o].numberOfUsesLeft - 1)]);
      assert Balanced(t) by {
        forall id: nat | id < t.made ensures id in t.freed || Held(t, id) {
          if id !in s.freed {
            var p :| 0 <= p < |s.operands| && s.operands[p].buffer == Owned(id);
            assert t.operands[p].buffer == Owned(id);
          }
        }
      }
      FreeBalanced(t, o);
    }
  }

  lemma UseKept(s: RunState, o: nat)
    requires Kept(s)
    ensures Kept(Use(s, o))
  {
  }

  /** Using the first of the remaining positions. */
  lemma UseCounted(s: RunState, inputs: seq<nat>, rest: seq<Operation>)
    requires inputs != [] && UsesCounted(s, inputs, rest) && Kept(s)
    ensures UsesCounted(Use(s, inputs[0]), inputs[1..], rest)
  {
    forall o: nat ensures Count(inputs, o) == Count(inputs[1..], o) + (if inputs[0] == o then 1 else 0) {
      CountConcat([inputs[0]], inputs[1..], o);
      assert inputs == [inputs[0]] + inputs[1..];
      assert [inputs[0]] == [] + [inputs[0]];
      CountAppend([], inputs[0], o);
    }
  }

  // ---------------------------------------------------------------- running operations

  /** What a kernel does with the values it finds: values for its outputs, as far as it gets, and whether
    * it succeeds. */
  datatype KernelResult = KernelResult(values: seq<Bytes>, code: ResultCode)

  /** What the kernel of operation `j` makes of its inputs. */
  type Kernels = (nat, seq<Bytes>) -> KernelResult

  ghost predicate ProperKernels(m: Model, kernels: Kernels) {
    forall j: nat, found: seq<Bytes> :: j < |m.operations| ==> ProperResult(m.operations[j], kernels(j, found))
  }

  predicate ProperResult(op: Operation, r: KernelResult) {
    |r.values| <= |op.outputs| && (r.code == NoError ==> |r.values| == |op.outputs|)
  }

  function InitialInfo(o: Operand): RunTimeOperandInfo {
    match o.lifetime
    case TemporaryVariable => RunTimeOperandInfo(o.lifetime, Null, 0, o.numberOfConsumers, [])
    case ConstantCopy => RunTimeOperandInfo(o.lifetime, Foreign, |o.value|, 0, o.value)
    case ConstantReference => RunTimeOperandInfo(o.lifetime, Foreign, |o.value|, 0, o.value)
    case NoValue => RunTimeOperandInfo(o.lifetime, Null, |o.value|, 0, o.value)
    case _ => RunTimeOperandInfo(o.lifetime, Null, 0, 0, [])
  }

  /** An argument of the caller: absent, or a buffer with something in it. */
  datatype Argument = NoArgument | Given(data: Bytes)

  function DataOf(a: Argument): Bytes {
    if a.Given? then a.data else []
  }

  function AllData(arguments: seq<Argument>): (r: seq<Bytes>)
    ensures |r| == |arguments|
  {
    seq(|arguments|, i requires 0 <= i < |arguments| => DataOf(arguments[i]))
  }

  function WithArgument(info: RunTimeOperandInfo, a: Argument): RunTimeOperandInfo {
    match a
    case NoArgument => info.(lifetime := NoValue, length := 0, value := [])
    case Given(data) => info.(buffer := Foreign, length := |data|, value := data)
  }

  /** Temporaries stay temporaries, and those that none of the first `n` operations writes have not been
    * touched. */
  ghost predicate Produced(m: Model, s: RunState, n: nat) {
    && |s.operands| == |m.operands|
    && (forall o :: 0 <= o < |m.operands| ==>
          (s.operands[o].lifetime.TemporaryVariable? <==> m.operands[o].lifetime.TemporaryVariable?))
    && (forall o :: 0 <= o < |m.operands| && m.operands[o].lifetime.TemporaryVariable? && o !in Outs(m, Identity(n)) ==>
          s.operands[o].buffer.Null? && s.operands[o].length == 0)
  }

  /** Between two operations. */
  ghost predicate Between(m: Model, s: RunState, n: nat)
    requires n <= |m.operations|
  {
    Balanced(s) && Kept(s) && UsesCounted(s, [], m.operations[n..]) && Produced(m, s, n)
  }

  /** What an operation reads is there: allocated, not freed, or of size zero. */
  ghost predicate Readable(s: RunState, o: nat) {
    o < |s.operands| &&
    (s.operands[o].lifetime.TemporaryVariable? ==>
       s.operands[o].numberOfUsesLeft > 0 && (s.operands[o].buffer.Owned? || s.operands[o].length == 0))
  }

  lemma {:induction false} ConsumersFirst(operations: seq<Operation>, o: nat)
    requires operations != []
    ensures Consumers(operations, o) == Count(operations[0].inputs, o) + Consumers(operations[1..], o)
  {
    if |operations| > 1 {
      var init := operations[..|operations|-1];
      ConsumersFirst(init, o);
      assert operations[1..][..|operations|-2] == init[1..];
    }
  }

  /** No operation reads a temporary that was freed, or that was not allocated although it has a size. */
  lemma InputsReadable(m: Model, s: RunState, n: nat, o: nat)
    requires n < |m.operations| && InRange(m) && InRunOrder(m)
    requires Between(m, s, n) && o in m.operations[n].inputs
    ensures Readable(s, o)
    ensures IsDataflow(m.operands[o]) ==> o in Outs(m, Identity(n))
  {
    hide Balanced;
    assert OperationInRange(m.operands, m.operations[n]);
    ConsumersFirst(m.operations[n..], o);
    assert m.operations[n..][0] == m.operations[n];
    CountZero(m.operations[n].inputs, o);
    assert Ready(m, Identity(|m.operations|)[n], Outs(m, Identity(|m.operations|)[..n]));
    IdentityPrefix(|m.operations|, n);
  }

  // ---------------------------------------------------------------- one operation

  function AllocateAll(s: RunState, os: seq<nat>, values: seq<Bytes>): RunState
    requires |values| <= |os|
  {
    if values == [] then s
    else
      var n := |values| - 1;
      Allocate(AllocateAll(s, os, values[..n]), os[n], values[n])
  }

  ghost predicate AllSufficient(s: RunState, os: seq<nat>, values: seq<Bytes>)
    requires |values| <= |os|
  {
    forall k :: 0 <= k < |values| ==> Sufficient(s, os[k], values[k])
  }

  function UseAll(s: RunState, inputs: seq<nat>): RunState {
    if inputs == [] then s else Use(UseAll(s, inputs[..|inputs|-1]), inputs[|inputs|-1])
  }

  /** Counts and everything outside `os` are as before; only temporaries get other buffers. */
  ghost predicate OnlyAllocates(s: RunState, os: seq<nat>, t: RunState) {
    && |t.operands| == |s.operands|
    && forall o :: 0 <= o < |s.operands| ==>
         AllocatedFrom(s.operands[o], t.operands[o]) && (o !in os ==> t.operands[o] == s.operands[o])
  }

  predicate AllocatedFrom(before: RunTimeOperandInfo, after: RunTimeOperandInfo) {
    && after.lifetime == before.lifetime && after.numberOfUsesLeft == before.numberOfUsesLeft
    && (!before.lifetime.TemporaryVariable? ==> after == before.(value := after.value))
  }

  ghost predicate Untouched(s: RunState, os: seq<nat>) {
    forall k :: 0 <= k < |os| ==> os[k] < |s.operands| && UntouchedOperand(s.operands[os[k]])
  }

  predicate UntouchedOperand(info: RunTimeOperandInfo) {
    info.lifetime.TemporaryVariable? ==> info.buffer.Null? && info.length == 0
  }

  lemma AllocateOne(s: RunState, o: nat, value: Bytes)
    requires Kept(s) && o < |s.operands| && UntouchedOperand(s.operands[o])
    ensures Kept(Allocate(s, o, value)) && OnlyAllocates(s, [o], Allocate(s, o, value))
    ensures Sufficient(s, o, value) ==> Allocate(s, o, value).operands[o].value == value
  {
    assert [o][0] == o;
  }

  lemma {:induction false} AllocateAllFacts(s: RunState, os: seq<nat>, values: seq<Bytes>)
    requires Balanced(s) && Kept(s) && NoDup(os) && |values| <= |os| && Untouched(s, os)
    ensures Balanced(AllocateAll(s, os, values)) && Kept(AllocateAll(s, os, values))
    ensures OnlyAllocates(s, os[..|values|], AllocateAll(s, os, values))
    ensures forall k :: 0 <= k < |values| && Sufficient(s, os[k], values[k]) ==>
              AllocateAll(s, os, values).operands[os[k]].value == values[k]
  {
    hide Balanced, Kept, Allocate, KeptOperand;
    if values != [] {
      var n := |values| - 1;
      var before, after := AllocateAll(s, os, values[..n]), AllocateAll(s, os, values);
      AllocateAllFacts(s, os, values[..n]);
      assert os[n] !in os[..n] && os[..n+1] == os[..n] + [os[n]] && [os[n]][0] == os[n];
      AllocateBalanced(before, os[n], values[n]);
      AllocateOne(before, os[n], values[n]);
      forall k | 0 <= k < n ensures after.operands[os[k]] == before.operands[os[k]] {
        assert os[k] != os[n];
      }
    }
  }

  /** Nothing gets a buffer; whoever still counts keeps its value. */
  ghost predicate OnlyFrees(s: RunState, t: RunState) {
    |t.operands| == |s.operands| && forall o :: 0 <= o < |s.operands| ==> FreedFrom(s.operands[o], t.operands[o])
  }

  predicate FreedFrom(before: RunTimeOperandInfo, after: RunTimeOperandInfo) {
    && after.lifetime == before.lifetime && after.length == before.length
    && (before.buffer.Null? ==> after.buffer.Null?)
    && after.numberOfUsesLeft <= before.numberOfUsesLeft
    && (!before.lifetime.TemporaryVariable? || after.numberOfUsesLeft > 0 ==> after.value == before.value)
  }

  lemma UseOnlyFrees(s: RunState, t: RunState, o: nat)
    requires OnlyFrees(s, t) && Kept(t)
    ensures OnlyFrees(s, Use(t, o))
  {
  }

  lemma {:induction false} UseAllFacts(s: RunState, inputs: seq<nat>, n: nat, rest: seq<Operation>)
    requires n <= |inputs| && Balanced(s) && Kept(s) && UsesCounted(s, inputs, rest)
    ensures Balanced(UseAll(s, inputs[..n])) && Kept(UseAll(s, inputs[..n]))
    ensures UsesCounted(UseAll(s, inputs[..n]), inputs[n..], rest)
    ensures OnlyFrees(s, UseAll(s, inputs[..n]))
  {
    hide Balanced, Kept, Use, UsesCounted;
    if n > 0 {
      UseAllFacts(s, inputs, n - 1, rest);
      var before := UseAll(s, inputs[..n-1]);
      assert UseAll(s, inputs[..n]) == Use(before, inputs[n-1]) by { assert inputs[..n][..n-1] == inputs[..n-1]; }
      UseBalanced(before, inputs[n-1]);
      UseKept(before, inputs[n-1]);
      UseOnlyFrees(s, before, inputs[n-1]);
      UseCounted(before, inputs[n-1..], rest);
      assert inputs[n-1..][1..] == inputs[n..];
    }
  }

  /** The state after operation `n` succeeded. */
  function After(m: Model, s: RunState, n: nat, values: seq<Bytes>): RunState
    requires n < |m.operations| && |values| <= |m.operations[n].outputs|
  {
    UseAll(AllocateAll(s, m.operations[n].outputs, values), m.operations[n].inputs)
  }

  /** An operation that succeeds leads from one intermediate state to the next. */
  lemma OperationAdvances(m: Model, s: RunState, n: nat, values: seq<Bytes>)
    requires n < |m.operations| && InRange(m) && WrittenOnce(m) && |values| == |m.operations[n].outputs|
    requires Between(m, s, n)
    ensures Between(m, After(m, s, n, values), n + 1)
  {
    hide Balanced, Kept, InRange, WrittenOnce, UsesCounted, Produced, OnlyFrees;
    var op := m.operations[n];
    var t := AllocateAll(s, op.outputs, values);
    OutputsUntouched(m, s, n);
    AllocateAllFacts(s, op.outputs, values);
    CountsStay(m, s, n, t);
    UseAllFacts(t, op.inputs, |op.inputs|, m.operations[n+1..]);
    assert op.inputs[..|op.inputs|] == op.inputs && op.inputs[|op.inputs|..] == [];
    assert op.outputs[..|values|] == op.outputs;
    ProducedNext(m, s, n, t, UseAll(t, op.inputs));
  }

  /** Allocating does not count anything. */
  lemma CountsStay(m: Model, s: RunState, n: nat, t: RunState)
    requires n < |m.operations| && UsesCounted(s, [], m.operations[n..])
    requires OnlyAllocates(s, m.operations[n].outputs[..|m.operations[n].outputs|], t)
    ensures UsesCounted(t, m.operations[n].inputs, m.operations[n+1..])
  {
    forall o: nat
      ensures Consumers(m.operations[n..], o) == Count(m.operations[n].inputs, o) + Consumers(m.operations[n+1..], o)
    {
      ConsumersFirst(m.operations[n..], o);
    }
  }

  /** The outputs of the next operation have not been touched. */
  lemma OutputsUntouched(m: Model, s: RunState, n: nat)
    requires n < |m.operations| && WrittenOnce(m) && Produced(m, s, n)
    ensures Untouched(s, m.operations[n].outputs) && NoDup(m.operations[n].outputs)
  {
    var os := m.operations[n].outputs;
    forall k | 0 <= k < |os| ensures os[k] < |s.operands| && UntouchedOperand(s.operands[os[k]]) {
      assert os[k] in os;
      WrittenIsResult(m, n, os[k]);
      assert forall j :: j in Identity(n) ==> os[k] !in OutputsOf(m, j);
    }
  }

  lemma ProducedNext(m: Model, s: RunState, n: nat, t: RunState, u: RunState)
    requires n < |m.operations| && Produced(m, s, n)
    requires OnlyAllocates(s, m.operations[n].outputs, t) && OnlyFrees(t, u)
    ensures Produced(m, u, n + 1)
  {
    assert Identity(n + 1) == Identity(n) + [n];
    OutsAppend(m, Identity(n), n);
  }

  // ---------------------------------------------------------------- before the first operation

  /** Operands as the model and then the request set them up. */
  ghost predicate SetUp(m: Model, inputs: seq<Argument>, outputs: seq<Argument>, operands: seq<RunTimeOperandInfo>)
    requires |inputs| == |m.inputIndexes| && |outputs| == |m.outputIndexes|
  {
    && |operands| == |m.operands|
    && (forall o: nat :: o < |operands| && o !in m.inputIndexes && o !in m.outputIndexes ==>
          operands[o] == InitialInfo(m.operands[o]))
    && (forall i :: 0 <= i < |inputs| ==> ArgumentAt(m, m.inputIndexes[i], inputs[i], operands))
    && (forall i :: 0 <= i < |outputs| ==> ArgumentAt(m, m.outputIndexes[i], outputs[i], operands))
  }

  predicate ArgumentAt(m: Model, o: nat, a: Argument, operands: seq<RunTimeOperandInfo>) {
    o < |m.operands| && o < |operands| && operands[o] == WithArgument(InitialInfo(m.operands[o]), a)
  }

  /** How an operand may look then. */
  predicate Initialized(o: Operand, info: RunTimeOperandInfo) {
    if o.lifetime.TemporaryVariable? then info == InitialInfo(o)
    else !info.lifetime.TemporaryVariable? && info.numberOfUsesLeft == 0 && !info.buffer.Owned? &&
         |info.value| <= info.length
  }

  lemma SetUpInitialized(m: Model, inputs: seq<Argument>, outputs: seq<Argument>, s: RunState, o: nat)
    requires ValidModel(m) && |inputs| == |m.inputIndexes| && |outputs| == |m.outputIndexes|
    requires SetUp(m, inputs, outputs, s.operands) && o < |m.operands|
    ensures Initialized(m.operands[o], s.operands[o])
  {
    hide InRange, WrittenOnce;
    if o in m.inputIndexes {
      var i :| 0 <= i < |m.inputIndexes| && m.inputIndexes[i] == o;
      assert ArgumentAt(m, m.inputIndexes[i], inputs[i], s.operands);
    } else if o in m.outputIndexes {
      var i :| 0 <= i < |m.outputIndexes| && m.outputIndexes[i] == o;
      assert ArgumentAt(m, m.outputIndexes[i], outputs[i], s.operands);
    }
  }

  lemma InitialState(m: Model, inputs: seq<Argument>, outputs: seq<Argument>, s: RunState)
    requires ValidModel(m) && ConsumersCounted(m) && |inputs| == |m.inputIndexes| && |outputs| == |m.outputIndexes|
    requires SetUp(m, inputs, outputs, s.operands) && s.made == 0 && s.freed == []
    ensures Between(m, s, 0)
  {
    hide InRange, WrittenOnce;
    forall o: nat | o < |m.operands| ensures Initialized(m.operands[o], s.operands[o]) {
      SetUpInitialized(m, inputs, outputs, s, o);
    }
    hide ValidModel, SetUp;
    assert m.operations[0..] == m.operations;
    assert Outs(m, Identity(0)) == {};
  }

  // ---------------------------------------------------------------- values

  /** The values that a kernel finds. */
  function Found(operands: seq<RunTimeOperandInfo>, os: seq<nat>): (found: seq<Bytes>)
    ensures |found| == |os|
  {
    seq(|os|, i requires 0 <= i < |os| => if os[i] < |operands| then operands[os[i]].value else [])
  }

  /** Operands whose value is of use after `n` operations: results that were written, temporaries as long
    * as they are counted, and everything that is no result. */
  ghost predicate InUseAfter(m: Model, s: RunState, n: nat, o: nat)
    requires o < |m.operands| && o < |s.operands|
  {
    && (IsDataflow(m.operands[o]) ==> o in Outs(m, Identity(n)))
    && (m.operands[o].lifetime.TemporaryVariable? ==> s.operands[o].numberOfUsesLeft > 0)
  }

  /** These have the values of the environment. */
  ghost predicate Valued(m: Model, env: Env, s: RunState, n: nat) {
    && |s.operands| == |m.operands|
    && forall o: nat :: o < |m.operands| && InUseAfter(m, s, n, o) ==> o in env && s.operands[o].value == env[o]
  }

  /** The lengths of the caller's buffers for the outputs. */
  ghost predicate Rooms(m: Model, outputs: seq<Argument>, s: RunState)
    requires |outputs| == |m.outputIndexes|
  {
    forall i :: 0 <= i < |outputs| ==> RoomAt(m, m.outputIndexes[i], outputs[i], s)
  }

  predicate RoomAt(m: Model, o: nat, a: Argument, s: RunState) {
    o < |s.operands| && !s.operands[o].lifetime.TemporaryVariable? && s.operands[o].length == |DataOf(a)|
  }

  /** Kernels that succeed compute what the operations mean. */
  ghost predicate KernelsRight(sem: Semantics, m: Model, kernels: Kernels) {
    forall j: nat, found: seq<Bytes> :: j < |m.operations| && kernels(j, found).code == NoError ==>
      ResultRight(sem, m, m.operations[j], found, kernels(j, found).values)
  }

  ghost predicate ResultRight(sem: Semantics, m: Model, op: Operation, found: seq<Bytes>, values: seq<Bytes>) {
    OperationInRange(m.operands, op) && |found| == |op.inputs| ==>
      && |values| == |op.outputs|
      && forall k :: 0 <= k < |values| ==>
           values[k] == sem(op.code, TypesOf(m, op.inputs), found, TypesOf(m, op.outputs), k)
  }

  function Lookup(env: Env, os: seq<nat>): (values: seq<Bytes>)
    ensures |values| == |os|
  {
    seq(|os|, i requires 0 <= i < |os| => if os[i] in env then env[os[i]] else [])
  }

  /** The first `n` kernels succeed on the values of the environment. */
  ghost predicate KernelsSucceed(m: Model, kernels: Kernels, env: Env, n: nat) {
    forall j :: 0 <= j < n && j < |m.operations| ==> kernels(j, Lookup(env, m.operations[j].inputs)).code == NoError
  }

  /** Every output fits into the caller's buffer for it. */
  ghost predicate OutputsFit(m: Model, env: Env, outputs: seq<Argument>)
    requires |outputs| == |m.outputIndexes|
  {
    forall i :: 0 <= i < |outputs| ==> m.outputIndexes[i] in env && |env[m.outputIndexes[i]]| <= |DataOf(outputs[i])|
  }

  /** What an operation gives its outputs fits into the caller's buffers, as far as these are concerned. */
  ghost predicate ValuesFit(m: Model, os: seq<nat>, values: seq<Bytes>, outputs: seq<Argument>) {
    forall k, i ::
      0 <= k < |values| && k < |os| && 0 <= i < |outputs| && i < |m.outputIndexes| && os[k] == m.outputIndexes[i] ==>
        |values[k]| <= |DataOf(outputs[i])|
  }

  /** What operation `j` leads to, on the values of the environment: an output that does not fit comes before
    * an error of the kernel. */
  ghost function CodeOf(m: Model, kernels: Kernels, env: Env, outputs: seq<Argument>, j: nat): ResultCode
    requires j < |m.operations|
  {
    var r := kernels(j, Lookup(env, m.operations[j].inputs));
    if !ValuesFit(m, m.operations[j].outputs, r.values, outputs) then OutputInsufficientSize else r.code
  }

  /** Operation `j` is the first one that does not succeed. */
  ghost predicate FirstFailure(m: Model, kernels: Kernels, env: Env, outputs: seq<Argument>, j: nat) {
    && j < |m.operations| && CodeOf(m, kernels, env, outputs, j) != NoError
    && forall i :: 0 <= i < j ==> CodeOf(m, kernels, env, outputs, i) == NoError
  }

  lemma InitialValues(m: Model, inputs: seq<Argument>, outputs: seq<Argument>, s: RunState, env: Env)
    requires ValidModel(m) && InterfaceListed(m) && |inputs| == |m.inputIndexes| && |outputs| == |m.outputIndexes|
    requires SetUp(m, inputs, outputs, s.operands) && Agree(InitialEnv(m, AllData(inputs)), env)
    ensures Valued(m, env, s, 0) && Rooms(m, outputs, s)
  {
    hide InRange, WrittenOnce, InitialEnv;
    assert Outs(m, Identity(0)) == {};
    forall o: nat | o < |m.operands| && InUseAfter(m, s, 0, o) ensures o in env && s.operands[o].value == env[o] {
      InitialValue(m, inputs, outputs, s, o);
    }
    forall i | 0 <= i < |outputs| ensures RoomAt(m, m.outputIndexes[i], outputs[i], s) {
      assert ArgumentAt(m, m.outputIndexes[i], outputs[i], s.operands) && m.outputIndexes[i] in m.outputIndexes;
    }
  }

  lemma InitialValue(m: Model, inputs: seq<Argument>, outputs: seq<Argument>, s: RunState, o: nat)
    requires ValidModel(m) && InterfaceListed(m) && |inputs| == |m.inputIndexes| && |outputs| == |m.outputIndexes|
    requires SetUp(m, inputs, outputs, s.operands) && o < |m.operands| && !IsDataflow(m.operands[o])
    ensures o in InitialEnv(m, AllData(inputs)) && s.operands[o].value == InitialEnv(m, AllData(inputs))[o]
  {
    hide InRange, WrittenOnce;
    ArgumentEnvKeys(m.inputIndexes, AllData(inputs));
    if m.operands[o].lifetime.ModelInput? {
      var i :| 0 <= i < |m.inputIndexes| && m.inputIndexes[i] == o;
      ArgumentEnvAt(m.inputIndexes, AllData(inputs), i);
      assert ArgumentAt(m, m.inputIndexes[i], inputs[i], s.operands);
    } else {
      assert IsConstant(m.operands[o]) && o !in m.inputIndexes && o !in m.outputIndexes;
    }
  }

  lemma ArgumentEnvKeys(indexes: seq<nat>, arguments: seq<Bytes>)
    requires |arguments| == |indexes|
    ensures ArgumentEnv(indexes, arguments).Keys == Elements(indexes)
  {
  }

  /** A kernel finds the values of the environment. */
  lemma FoundIs(m: Model, env: Env, s: RunState, n: nat)
    requires n < |m.operations| && InRange(m) && InRunOrder(m) && Between(m, s, n) && Valued(m, env, s, n)
    ensures OperationInRange(m.operands, m.operations[n])
    ensures forall o :: o in m.operations[n].inputs ==> o in env
    ensures Found(s.operands, m.operations[n].inputs) == Lookup(env, m.operations[n].inputs) ==
            ValuesOf(env, m.operations[n].inputs)
  {
    assert OperationInRange(m.operands, m.operations[n]);
    hide Between, InRunOrder, Outs;
    var inputs := m.operations[n].inputs;
    forall o | o in inputs ensures o in env && s.operands[o].value == env[o] {
      InputsReadable(m, s, n, o);
      ReadableInUse(m, s, n, o);
    }
    forall i | 0 <= i < |inputs|
      ensures Found(s.operands, inputs)[i] == ValuesOf(env, inputs)[i] == Lookup(env, inputs)[i]
    {
      assert inputs[i] in inputs;
    }
  }

  lemma ReadableInUse(m: Model, s: RunState, n: nat, o: nat)
    requires n <= |m.operations| && Between(m, s, n) && o < |m.operands| && Readable(s, o)
    requires IsDataflow(m.operands[o]) ==> o in Outs(m, Identity(n))
    ensures o < |s.operands| && InUseAfter(m, s, n, o)
  {
    hide Balanced, Kept, UsesCounted;
  }

  /** What a kernel computes from them are the values of the environment again. */
  lemma KernelComputes(sem: Semantics, m: Model, kernels: Kernels, env: Env, n: nat, found: seq<Bytes>)
    requires n < |m.operations| && KernelsRight(sem, m, kernels) && Satisfies(sem, m, m.operations[n], env)
    requires found == ValuesOf(env, m.operations[n].inputs) && kernels(n, found).code == NoError
    ensures var values := kernels(n, found).values;
            && |values| == |m.operations[n].outputs|
            && forall k :: 0 <= k < |values| ==>
                 m.operations[n].outputs[k] in env && values[k] == env[m.operations[n].outputs[k]]
  {
    var op := m.operations[n];
    assert ResultRight(sem, m, op, found, kernels(n, found).values);
    forall k | 0 <= k < |op.outputs| ensures kernels(n, found).values[k] == ResultOf(sem, m, op, env, k) {
    }
  }

  /** After the operation they are found where later operations look for them. */
  lemma ValuesAdvance(m: Model, env: Env, s: RunState, n: nat, values: seq<Bytes>)
    requires n < |m.operations| && InRange(m) && WrittenOnce(m) && |values| == |m.operations[n].outputs|
    requires Between(m, s, n) && Valued(m, env, s, n) && AllSufficient(s, m.operations[n].outputs, values)
    requires forall k :: 0 <= k < |values| ==>
               m.operations[n].outputs[k] in env && values[k] == env[m.operations[n].outputs[k]]
    ensures Valued(m, env, After(m, s, n, values), n + 1)
  {
    hide Balanced, Kept, InRange, WrittenOnce, UsesCounted, Produced;
    var op := m.operations[n];
    var t, u := AllocateAll(s, op.outputs, values), After(m, s, n, values);
    AfterFacts(m, s, n, values);
    assert Identity(n + 1) == Identity(n) + [n];
    OutsAppend(m, Identity(n), n);
    hide After, Outs;
    forall o: nat | o < |m.operands| && InUseAfter(m, u, n + 1, o) ensures o in env && u.operands[o].value == env[o] {
      LifetimesAgree(m, s, n, o);
      assert FreedFrom(t.operands[o], u.operands[o]) && AllocatedFrom(s.operands[o], t.operands[o]);
      if o in op.outputs {
        var k :| 0 <= k < |op.outputs| && op.outputs[k] == o;
        assert Sufficient(s, op.outputs[k], values[k]);
      } else {
        assert t.operands[o] == s.operands[o];
        assert InUseAfter(m, s, n, o);
      }
    }
  }

  lemma LifetimesAgree(m: Model, s: RunState, n: nat, o: nat)
    requires Produced(m, s, n) && o < |m.operands|
    ensures o < |s.operands|
    ensures s.operands[o].lifetime.TemporaryVariable? <==> m.operands[o].lifetime.TemporaryVariable?
  {
  }

  /** The two halves of an operation: its outputs get their values, then its inputs are no longer used. */
  lemma AfterFacts(m: Model, s: RunState, n: nat, values: seq<Bytes>)
    requires n < |m.operations| && WrittenOnce(m) && |values| == |m.operations[n].outputs| && Between(m, s, n)
    ensures var t := AllocateAll(s, m.operations[n].outputs, values);
            && OnlyAllocates(s, m.operations[n].outputs, t) && OnlyFrees(t, After(m, s, n, values))
            && forall k :: 0 <= k < |values| && Sufficient(s, m.operations[n].outputs[k], values[k]) ==>
                 t.operands[m.operations[n].outputs[k]].value == values[k]
  {
    hide Balanced, Kept, WrittenOnce, UsesCounted, Produced, OnlyFrees;
    var op := m.operations[n];
    var t := AllocateAll(s, op.outputs, values);
    OutputsUntouched(m, s, n);
    AllocateAllFacts(s, op.outputs, values);
    CountsStay(m, s, n, t);
    UseAllFacts(t, op.inputs, |op.inputs|, m.operations[n+1..]);
    assert op.inputs[..|op.inputs|] == op.inputs && op.outputs[..|values|] == op.outputs;
  }

  lemma RoomsStay(m: Model, outputs: seq<Argument>, s: RunState, os: seq<nat>, t: RunState, u: RunState)
    requires |outputs| == |m.outputIndexes| && Rooms(m, outputs, s) && OnlyAllocates(s, os, t) && OnlyFrees(t, u)
    ensures Rooms(m, outputs, u)
  {
    forall i | 0 <= i < |outputs| ensures RoomAt(m, m.outputIndexes[i], outputs[i], u) {
      var o := m.outputIndexes[i];
      assert RoomAt(m, o, outputs[i], s) && AllocatedFrom(s.operands[o], t.operands[o]) &&
             FreedFrom(t.operands[o], u.operands[o]);
    }
  }

  /** Values have room exactly if those of model outputs fit into the caller's buffers. */
  lemma SufficientIff(m: Model, outputs: seq<Argument>, s: RunState, n: nat, values: seq<Bytes>)
    requires n < |m.operations| && WrittenOnce(m) && InterfaceListed(m) && |outputs| == |m.outputIndexes|
    requires Produced(m, s, n) && Rooms(m, outputs, s) && |values| <= |m.operations[n].outputs|
    ensures AllSufficient(s, m.operations[n].outputs, values) <==>
            ValuesFit(m, m.operations[n].outputs, values, outputs)
  {
    var os := m.operations[n].outputs;
    OutputsUntouched(m, s, n);
    if ValuesFit(m, os, values, outputs) {
      forall k | 0 <= k < |values| ensures Sufficient(s, os[k], values[k]) {
        OutputWritten(m, s, n, k);
        if m.operands[os[k]].lifetime.ModelOutput? {
          var i :| 0 <= i < |m.outputIndexes| && m.outputIndexes[i] == os[k];
          assert RoomAt(m, m.outputIndexes[i], outputs[i], s);
        }
      }
    }
    if AllSufficient(s, os, values) {
      forall k, i | 0 <= k < |values| && 0 <= i < |outputs| && os[k] == m.outputIndexes[i]
        ensures |values[k]| <= |DataOf(outputs[i])|
      {
        assert Sufficient(s, os[k], values[k]) && RoomAt(m, m.outputIndexes[i], outputs[i], s);
      }
    }
  }

  lemma OutputWritten(m: Model, s: RunState, n: nat, k: nat)
    requires n < |m.operations| && WrittenOnce(m) && Untouched(s, m.operations[n].outputs)
    requires k < |m.operations[n].outputs|
    ensures var o := m.operations[n].outputs[k];
            o < |m.operands| && IsDataflow(m.operands[o]) && o < |s.operands| && UntouchedOperand(s.operands[o])
  {
    assert m.operations[n].outputs[k] in m.operations[n].outputs;
    WrittenIsResult(m, n, m.operations[n].outputs[k]);
  }

  /** Right values fit if the outputs of the model do. */
  lemma RightFits(m: Model, env: Env, outputs: seq<Argument>, os: seq<nat>, values: seq<Bytes>)
    requires |outputs| == |m.outputIndexes| && OutputsFit(m, env, outputs) && |values| <= |os|
    requires forall k :: 0 <= k < |values| ==> os[k] in env && values[k] == env[os[k]]
    ensures ValuesFit(m, os, values, outputs)
  {
  }

  /** In the end the outputs have their values, and these fit. */
  lemma OutputsRight(m: Model, env: Env, outputs: seq<Argument>, s: RunState, i: nat)
    requires Executable(m) && |outputs| == |m.outputIndexes| && i < |outputs|
    requires Kept(s) && Valued(m, env, s, |m.operations|) && Rooms(m, outputs, s)
    ensures var o := m.outputIndexes[i];
            o in env && o < |s.operands| && s.operands[o].value == env[o] && |env[o]| <= |DataOf(outputs[i])|
  {
    hide InRange, InRunOrder, WrittenAtMostOnce;
    var o := m.outputIndexes[i];
    assert o in m.outputIndexes;
    assert RoomAt(m, o, outputs[i], s);
    assert m.operands[o].lifetime.ModelOutput? && IsDataflow(m.operands[o]);
    var j :| 0 <= j < |m.operations| && o in m.operations[j].outputs;
    assert j in Identity(|m.operations|) by { assert Identity(|m.operations|)[j] == j; }
    assert o in OutputsOf(m, j) && o in Outs(m, Identity(|m.operations|));
    assert InUseAfter(m, s, |m.operations|, o);
    assert KeptOperand(s.operands[o]);
  }

  // ---------------------------------------------------------------- after the last operation

  function FreeTemporary(s: RunState, o: nat): RunState {
    if o < |s.operands| && s.operands[o].lifetime.TemporaryVariable? then Free(s, o) else s
  }

  function FreeTemporaries(s: RunState, n: nat): RunState {
    if n == 0 then s else FreeTemporary(FreeTemporaries(s, n - 1), n - 1)
  }

  /** The first `n` operands have no buffer of their own any more; the others are as before. */
  ghost predicate Swept(s: RunState, n: nat, t: RunState) {
    && |t.operands| == |s.operands| && t.made == s.made
    && (forall o :: 0 <= o < |s.operands| ==> t.operands[o].lifetime == s.operands[o].lifetime)
    && (forall o :: 0 <= o < n && o < |s.operands| ==> !t.operands[o].buffer.Owned?)
    && (forall o :: 0 <= o < |s.operands| && (n <= o || !s.operands[o].lifetime.TemporaryVariable?) ==>
          t.operands[o] == s.operands[o])
  }

  lemma FreeTemporaryBalanced(s: RunState, o: nat)
    requires Balanced(s)
    ensures Balanced(FreeTemporary(s, o))
  {
    FreeBalanced(s, o);
  }

  lemma {:induction false} FreeTemporariesFacts(s: RunState, n: nat)
    requires Balanced(s) && Kept(s) && n <= |s.operands|
    ensures Balanced(FreeTemporaries(s, n)) && Swept(s, n, FreeTemporaries(s, n))
  {
    hide Balanced, Kept, Swept, FreeTemporary;
    if n == 0 {
      NothingSwept(s);
    } else {
      FreeTemporariesFacts(s, n - 1);
      SweepOne(s, n, FreeTemporaries(s, n - 1));
      FreeTemporaryBalanced(FreeTemporaries(s, n - 1), n - 1);
    }
  }

  lemma NothingSwept(s: RunState)
    ensures Swept(s, 0, s)
  {
  }

  lemma SweepOne(s: RunState, n: nat, before: RunState)
    requires Kept(s) && 0 < n <= |s.operands| && Swept(s, n - 1, before)
    ensures Swept(s, n, FreeTemporary(before, n - 1))
  {
  }

  /** Nothing is left, and every buffer was freed exactly once. */
  ghost predicate AllFreed(s: RunState) {
    && (forall o :: 0 <= o < |s.operands| ==> !s.operands[o].buffer.Owned?)
    && NoDup(s.freed) && (forall id: nat :: id in s.freed <==> id < s.made)
  }

  lemma FinishedFreesAll(s: RunState)
    requires Balanced(s) && Kept(s)
    ensures AllFreed(FreeTemporaries(s, |s.operands|))
  {
    FreeTemporariesFacts(s, |s.operands|);
    var t := FreeTemporaries(s, |s.operands|);
    forall id: nat ensures id in t.freed <==> id < t.made {
      if id in t.freed {
        var i :| 0 <= i < |t.freed| && t.freed[i] == id;
      }
    }
  }

  /** A failed operation may have given values to some of its outputs; nothing is lost. */
  lemma FailureKeeps(m: Model, s: RunState, n: nat, values: seq<Bytes>)
    requires n < |m.operations| && WrittenOnce(m) && |values| <= |m.operations[n].outputs| && Between(m, s, n)
    ensures var t := AllocateAll(s, m.operations[n].outputs, values);
            Balanced(t) && Kept(t) && OnlyAllocates(s, m.operations[n].outputs, t) && OnlyFrees(t, t)
  {
    hide Balanced, Kept, WrittenOnce, UsesCounted, Produced;
    OutputsUntouched(m, s, n);
    AllocateAllFacts(s, m.operations[n].outputs, values);
  }

  // ---------------------------------------------------------------- the executor

  /** An error that comes from a kernel, or from a buffer that is too small. */
  ghost predicate Explained(m: Model, kernels: Kernels, code: ResultCode) {
    || code == OutputInsufficientSize
    || exists j: nat, found: seq<Bytes> :: j < |m.operations| && kernels(j, found).code == code
  }

  class CpuExecutor {
    var operands: seq<RunTimeOperandInfo>
    /** Number of buffers allocated so far. */
    var made: nat
    /** Buffers in the order they were freed. */
    ghost var freed: seq<nat>

    ghost function State(): RunState
      reads this
    {
      RunState(operands, made, freed)
    }

    constructor ()
      ensures State() == RunState([], 0, [])
    {
      operands, made, freed := [], 0, [];
    }

    /** Sets up operands from the model, then those that the request provides. */
    method InitializeRunTimeInfo(m: Model, inputs: seq<Argument>, outputs: seq<Argument>)
      requires ValidModel(m) && ConsumersCounted(m) && State() == RunState([], 0, [])
      requires |inputs| == |m.inputIndexes| && |outputs| == |m.outputIndexes|
      modifies this
      ensures SetUp(m, inputs, outputs, operands) && Between(m, State(), 0)
    {
      hide InRange, WrittenOnce, ConsumersCounted, Between;
      for i := 0 to |m.operands|
        invariant |operands| == i && forall k :: 0 <= k < i ==> operands[k] == InitialInfo(m.operands[k])
        invariant made == 0 && freed == []
      {
        operands := operands + [InitialInfo(m.operands[i])];
      }
      ghost var info := operands;
      UpdateForArguments(m.inputIndexes, inputs);
      assert forall o :: o in m.outputIndexes ==> operands[o] == info[o];
      UpdateForArguments(m.outputIndexes, outputs);
      forall i | 0 <= i < |inputs| ensures ArgumentAt(m, m.inputIndexes[i], inputs[i], operands) {
        assert m.inputIndexes[i] in m.inputIndexes;
      }
      forall i | 0 <= i < |outputs| ensures ArgumentAt(m, m.outputIndexes[i], outputs[i], operands) {
        assert m.outputIndexes[i] in m.outputIndexes;
      }
      InitialState(m, inputs, outputs, State());
    }

    method UpdateForArguments(indexes: seq<nat>, arguments: seq<Argument>)
      requires |arguments| == |indexes| && NoDup(indexes) && forall o :: o in indexes ==> o < |operands|
      modifies this`operands
      ensures |operands| == |old(operands)|
      ensures forall o :: 0 <= o < |operands| && o !in indexes ==> operands[o] == old(operands)[o]
      ensures forall i :: 0 <= i < |indexes| ==>
                indexes[i] < |operands| && operands[indexes[i]] == WithArgument(old(operands)[indexes[i]], arguments[i])
    {
      for i := 0 to |indexes|
        invariant |operands| == |old(operands)|
        invariant forall o :: 0 <= o < |operands| && o !in indexes[..i] ==> operands[o] == old(operands)[o]
        invariant forall k :: 0 <= k < i ==>
                    && indexes[k] < |operands|
                    && operands[indexes[k]] == WithArgument(old(operands)[indexes[k]], arguments[k])
      {
        assert indexes[i] in indexes && indexes[..i+1] == indexes[..i] + [indexes[i]];
        assert indexes[i] !in indexes[..i];
        operands := operands[indexes[i] := WithArgument(operands[indexes[i]], arguments[i])];
      }
      assert indexes[..|indexes|] == indexes;
    }

    /** A kernel gives shape to the outputs one after the other, and fills them; temporaries are allocated
      * then. It stops at the first output without room. */
    method Prepare(os: seq<nat>, values: seq<Bytes>) returns (ok: bool, ghost n: nat)
      requires |values| <= |os| && NoDup(os) && forall o :: o in os ==> o < |operands|
      modifies this
      ensures n <= |values| && State() == AllocateAll(old(State()), os, values[..n])
      ensures ok <==> AllSufficient(old(State()), os, values)
      ensures ok ==> State() == AllocateAll(old(State()), os, values)
    {
      hide AllocateAll, Sufficient;
      ghost var s := State();
      n := 0;
      NothingAllocated(s, os);
      assert forall i :: 0 <= i < |os| ==> os[i] in os;
      for k := 0 to |values|
        invariant n == k && State() == AllocateAll(s, os, values[..k]) && |operands| == |s.operands|
        invariant forall i :: 0 <= i < k ==> Sufficient(s, os[i], values[i])
        invariant forall i :: k <= i < |os| ==> os[i] < |operands| && operands[os[i]] == s.operands[os[i]]
      {
        assert os[k] in os;
        SameRoom(s, State(), os[k], values[k]);
        AllocateNext(s, os, values, k);
        ok := SetInfoAndAllocateIfNeeded(os[k], values[k]);
        if !ok { return; }
        n := k + 1;
      }
      assert values[..|values|] == values;
      ok := true;
    }

    method SetInfoAndAllocateIfNeeded(o: nat, value: Bytes) returns (ok: bool)
      requires o < |operands|
      modifies this
      ensures ok <==> Sufficient(old(State()), o, value)
      ensures State() == Allocate(old(State()), o, value)
      ensures |operands| == |old(operands)|
      ensures forall p :: 0 <= p < |operands| && p != o ==> operands[p] == old(operands)[p]
    {
      if operands[o].lifetime == TemporaryVariable && operands[o].buffer == Null {
        if |value| > 0 {
          operands := operands[o := operands[o].(buffer := Owned(made), length := |value|)];
          made := made + 1;
        }
      }
      if operands[o].length < |value| { return false; }
      operands := operands[o := operands[o].(value := value)];
      ok := true;
    }

    method FreeNoLongerUsedOperands(inputs: seq<nat>)
      requires forall o :: o in inputs ==> o < |operands|
      requires Kept(State())
      modifies this
      ensures State() == UseAll(old(State()), inputs)
    {
      for i := 0 to |inputs|
        invariant State() == UseAll(old(State()), inputs[..i]) && |operands| == |old(operands)| && Kept(State())
      {
        assert inputs[..i+1][..i] == inputs[..i] && inputs[i] in inputs;
        var o := inputs[i];
        UseKept(State(), o);
        if operands[o].numberOfUsesLeft == 0 { continue; }
        operands := operands[o := operands[o].(numberOfUsesLeft := operands[o].numberOfUsesLeft - 1)];
        if operands[o].numberOfUsesLeft == 0 && operands[o].buffer != Null {
          freed := freed + [operands[o].buffer.id];
          operands := operands[o := operands[o].(buffer := Null, value := [])];
        }
      }
      assert inputs[..|inputs|] == inputs;
    }

    /** Executes one operation. Everything it reads is there. It succeeds if its kernel does and there is room
      * for every output, and then leads to the next state; a failure loses nothing. */
    method ExecuteOperation(m: Model, n: nat, kernels: Kernels) returns (code: ResultCode)
      requires n < |m.operations| && InRange(m) && WrittenOnce(m) && InRunOrder(m) && ProperKernels(m, kernels)
      requires Between(m, State(), n)
      modifies this
      ensures forall o :: o in m.operations[n].inputs ==> Readable(old(State()), o)
      ensures var r := kernels(n, Found(old(operands), m.operations[n].inputs));
              && |r.values| <= |m.operations[n].outputs|
              && code == (if AllSufficient(old(State()), m.operations[n].outputs, r.values) then r.code
                          else OutputInsufficientSize)
              && (code == NoError ==> State() == After(m, old(State()), n, r.values))
      ensures code == NoError ==> Between(m, State(), n + 1)
      ensures code != NoError ==> Balanced(State()) && Kept(State())
      ensures exists t :: OnlyAllocates(old(State()), m.operations[n].outputs, t) && OnlyFrees(t, State())
    {
      hide Balanced, UsesCounted, Produced, AllocateAll, UseAll, OnlyAllocates, OnlyFrees, Kept;
      hide AllSufficient, WrittenOnce;
      hide InRunOrder, Readable, Found;
      var op := m.operations[n];
      ghost var s := State();
      assert OperationInRange(m.operands, op);
      forall o | o in op.inputs ensures Readable(s, o) { InputsReadable(m, s, n, o); }
      OperandsThere(m, s, n);
      var r := kernels(n, Found(operands, op.inputs));
      assert ProperResult(op, r);
      var ok, prepared := Prepare(op.outputs, r.values);
      FailureKeeps(m, s, n, r.values[..prepared]);
      if !ok { return OutputInsufficientSize; }
      FailureKeeps(m, s, n, r.values);
      if r.code != NoError { return r.code; }
      AfterFacts(m, s, n, r.values);
      OperationAdvances(m, s, n, r.values);
      AllocatedThere(s, op.outputs, State(), op.inputs);
      FreeNoLongerUsedOperands(op.inputs);
      code := NoError;
    }

    /** Frees what is left. */
    method Finish()
      requires Balanced(State()) && Kept(State())
      modifies this
      ensures AllFreed(State()) && |operands| == |old(operands)|
      ensures forall o :: 0 <= o < |operands| && !old(operands)[o].lifetime.TemporaryVariable? ==>
                operands[o] == old(operands)[o]
    {
      ghost var s := State();
      for i := 0 to |operands|
        invariant |operands| == |s.operands| && State() == FreeTemporaries(s, i)
      {
        FreeTemporariesFacts(s, i);
        if operands[i].lifetime == TemporaryVariable && operands[i].buffer != Null {
          freed := freed + [operands[i].buffer.id];
          operands := operands[i := operands[i].(buffer := Null, value := [])];
        }
      }
      FreeTemporariesFacts(s, |s.operands|);
      FinishedFreesAll(s);
    }

    /** Runs a model. On success and on failure alike, every buffer that was allocated has been freed exactly
      * once, and no other buffer has. If kernels compute what operations mean, the run succeeds exactly if all
      * of them do and every output fits; and then the outputs have the values of the model. */
    method Run(m: Model, inputs: seq<Argument>, outputs: seq<Argument>, kernels: Kernels, ghost sem: Semantics)
      returns (code: ResultCode)
      requires Executable(m) && ConsumersCounted(m) && ProperKernels(m, kernels)
      requires |inputs| == |m.inputIndexes| && |outputs| == |m.outputIndexes|
      requires State() == RunState([], 0, [])
      modifies this
      ensures AllFreed(State())
      ensures code != NoError ==> Explained(m, kernels, code)
      ensures forall i :: 0 <= i < |outputs| ==>
                && m.outputIndexes[i] < |operands|
                && |operands[m.outputIndexes[i]].value| <= |DataOf(outputs[i])|
      ensures KernelsRight(sem, m, kernels) ==>
                var env := Meaning(sem, m, AllData(inputs));
                && (code == NoError <==> KernelsSucceed(m, kernels, env, |m.operations|) && OutputsFit(m, env, outputs))
                && (code == NoError ==> Found(operands, m.outputIndexes) == OutputValues(sem, m, AllData(inputs)))
                && (KernelsSucceed(m, kernels, env, |m.operations|) && !OutputsFit(m, env, outputs) ==>
                      code == OutputInsufficientSize)
                && (code != NoError ==>
                      exists j ::
                        FirstFailure(m, kernels, env, outputs, j) && code == CodeOf(m, kernels, env, outputs, j))
    {
      hide Balanced, Kept, SetUp, InRange, WrittenOnce, InRunOrder, InterfaceListed, Meaning, InitialEnv;
      hide Between, AllFreed;
      hide KernelsRight, KernelsSucceed, OutputsFit, Valued, Rooms, Explained, OutputValues, Found, Satisfies;
      hide FirstFailure, CodeOf;
      InitializeRunTimeInfo(m, inputs, outputs);
      ghost var env := Meaning(sem, m, AllData(inputs));
      MeaningSatisfies(sem, m, AllData(inputs));
      InitialValues(m, inputs, outputs, State(), env);
      code := ExecuteOperations(m, kernels, sem, env, outputs);
      ghost var s := State();
      RoomsHold(m, outputs, s);
      if code == NoError && KernelsRight(sem, m, kernels) { RunRight(sem, m, inputs, outputs, s); }
      Finish();
      OutputsStay(m, outputs, s, State());
    }

    /** Executes the operations in order, up to the first one that fails. */
    method ExecuteOperations(m: Model, kernels: Kernels, ghost sem: Semantics, ghost env: Env,
                             ghost outputs: seq<Argument>)
      returns (code: ResultCode)
      requires Executable(m) && ProperKernels(m, kernels) && Between(m, State(), 0)
      requires |outputs| == |m.outputIndexes| && Rooms(m, outputs, State()) && Valued(m, env, State(), 0)
      requires forall j :: 0 <= j < |m.operations| ==> Satisfies(sem, m, m.operations[j], env)
      modifies this
      ensures Balanced(State()) && Kept(State()) && Rooms(m, outputs, State())
      ensures code != NoError ==> Explained(m, kernels, code)
      ensures code == NoError && KernelsRight(sem, m, kernels) ==>
                Valued(m, env, State(), |m.operations|) && KernelsSucceed(m, kernels, env, |m.operations|)
      ensures KernelsRight(sem, m, kernels) && KernelsSucceed(m, kernels, env, |m.operations|) ==>
                (code == NoError || code == OutputInsufficientSize) && (OutputsFit(m, env, outputs) ==> code == NoError)
      ensures KernelsRight(sem, m, kernels) && code != NoError ==>
                exists j :: FirstFailure(m, kernels, env, outputs, j) && code == CodeOf(m, kernels, env, outputs, j)
    {
      hide Balanced, Kept, InRange, WrittenOnce, InRunOrder, InterfaceListed, KernelsRight, Valued, Rooms, OutputsFit;
      hide OnlyAllocates, OnlyFrees, AllSufficient, Satisfies, After, Found, UsesCounted, Produced, Lookup, CodeOf;
      for n := 0 to |m.operations|
        invariant Between(m, State(), n) && Rooms(m, outputs, State())
        invariant KernelsRight(sem, m, kernels) ==> Valued(m, env, State(), n) && KernelsSucceed(m, kernels, env, n)
        invariant KernelsRight(sem, m, kernels) ==>
                    forall i :: 0 <= i < n ==> CodeOf(m, kernels, env, outputs, i) == NoError
      {
        ghost var s := State();
        code := ExecuteOperation(m, n, kernels);
        ghost var t :| OnlyAllocates(s, m.operations[n].outputs, t) && OnlyFrees(t, State());
        RoomsStay(m, outputs, s, m.operations[n].outputs, t, State());
        if KernelsRight(sem, m, kernels) {
          OperationRight(sem, m, kernels, env, outputs, s, n);
          assert code != NoError ==> FirstFailure(m, kernels, env, outputs, n);
        }
        if code != NoError { return; }
      }
      code := NoError;
    }
  }

  lemma NothingAllocated(s: RunState, os: seq<nat>)
    ensures AllocateAll(s, os, []) == s
  {
  }

  lemma AllocateNext(s: RunState, os: seq<nat>, values: seq<Bytes>, k: nat)
    requires k < |values| <= |os|
    ensures AllocateAll(s, os, values[..k+1]) == Allocate(AllocateAll(s, os, values[..k]), os[k], values[k])
    ensures !Sufficient(AllocateAll(s, os, values[..k]), os[k], values[k]) ==>
              Allocate(AllocateAll(s, os, values[..k]), os[k], values[k]) == AllocateAll(s, os, values[..k])
  {
    assert values[..k+1][..k] == values[..k];
  }

  /** Whether there is room for an output does not depend on the outputs before it. */
  lemma SameRoom(s: RunState, t: RunState, o: nat, value: Bytes)
    requires |t.operands| == |s.operands| && o < |s.operands| && t.operands[o] == s.operands[o]
    ensures Sufficient(s, o, value) <==> Sufficient(t, o, value)
  {
  }

  lemma OperandsThere(m: Model, s: RunState, n: nat)
    requires n < |m.operations| && InRange(m) && WrittenOnce(m) && Between(m, s, n)
    ensures NoDup(m.operations[n].outputs) && forall o :: o in m.operations[n].outputs ==> o < |s.operands|
    ensures forall o :: o in m.operations[n].inputs ==> o < |s.operands|
  {
    assert OperationInRange(m.operands, m.operations[n]);
  }

  lemma AllocatedThere(s: RunState, os: seq<nat>, t: RunState, inputs: seq<nat>)
    requires OnlyAllocates(s, os, t) && forall o :: o in inputs ==> o < |s.operands|
    ensures forall o :: o in inputs ==> o < |t.operands|
  {
  }

  /** One operation, with right kernels. */
  lemma OperationRight(sem: Semantics, m: Model, kernels: Kernels, env: Env, outputs: seq<Argument>,
                       s: RunState, n: nat)
    requires n < |m.operations| && Executable(m) && |outputs| == |m.outputIndexes|
    requires Between(m, s, n) && Valued(m, env, s, n) && Rooms(m, outputs, s)
    requires KernelsRight(sem, m, kernels) && Satisfies(sem, m, m.operations[n], env)
    ensures Found(s.operands, m.operations[n].inputs) == Lookup(env, m.operations[n].inputs)
    ensures var r := kernels(n, Found(s.operands, m.operations[n].inputs));
            r.code == NoError ==>
              && |r.values| == |m.operations[n].outputs|
              && (AllSufficient(s, m.operations[n].outputs, r.values) ==>
                    Valued(m, env, After(m, s, n, r.values), n + 1))
              && (OutputsFit(m, env, outputs) ==> AllSufficient(s, m.operations[n].outputs, r.values))
    ensures var r := kernels(n, Found(s.operands, m.operations[n].inputs));
            |r.values| <= |m.operations[n].outputs| ==>
              CodeOf(m, kernels, env, outputs, n) ==
              if AllSufficient(s, m.operations[n].outputs, r.values) then r.code else OutputInsufficientSize
  {
    hide Balanced, Kept, InRange, WrittenOnce, InRunOrder, InterfaceListed, KernelsRight, Valued, Rooms;
    hide OutputsFit, Found, ValuesFit;
    hide AllSufficient, Satisfies, After, UsesCounted, Produced, Lookup;
    FoundIs(m, env, s, n);
    var r := kernels(n, Found(s.operands, m.operations[n].inputs));
    if |r.values| <= |m.operations[n].outputs| { SufficientIff(m, outputs, s, n, r.values); }
    if r.code == NoError {
      KernelComputes(sem, m, kernels, env, n, Found(s.operands, m.operations[n].inputs));
      if AllSufficient(s, m.operations[n].outputs, r.values) { ValuesAdvance(m, env, s, n, r.values); }
      if OutputsFit(m, env, outputs) { RightFits(m, env, outputs, m.operations[n].outputs, r.values); }
    }
  }

  lemma RoomsHold(m: Model, outputs: seq<Argument>, s: RunState)
    requires |outputs| == |m.outputIndexes| && Kept(s) && Rooms(m, outputs, s)
    ensures forall i :: 0 <= i < |outputs| ==>
              m.outputIndexes[i] < |s.operands| && |s.operands[m.outputIndexes[i]].value| <= |DataOf(outputs[i])|
  {
    forall i | 0 <= i < |outputs|
      ensures m.outputIndexes[i] < |s.operands| && |s.operands[m.outputIndexes[i]].value| <= |DataOf(outputs[i])|
    {
      assert RoomAt(m, m.outputIndexes[i], outputs[i], s) && KeptOperand(s.operands[m.outputIndexes[i]]);
    }
  }

  lemma RunRight(sem: Semantics, m: Model, inputs: seq<Argument>, outputs: seq<Argument>, s: RunState)
    requires Executable(m) && |inputs| == |m.inputIndexes| && |outputs| == |m.outputIndexes|
    requires Kept(s) && Rooms(m, outputs, s) && Valued(m, Meaning(sem, m, AllData(inputs)), s, |m.operations|)
    ensures OutputsFit(m, Meaning(sem, m, AllData(inputs)), outputs)
    ensures Found(s.operands, m.outputIndexes) == OutputValues(sem, m, AllData(inputs))
  {
    hide InRange, InRunOrder, WrittenOnce, InterfaceListed, Kept, Valued, Rooms, Meaning, OutputValues;
    var env := Meaning(sem, m, AllData(inputs));
    forall i | 0 <= i < |outputs|
      ensures m.outputIndexes[i] in env && |env[m.outputIndexes[i]]| <= |DataOf(outputs[i])|
      ensures Found(s.operands, m.outputIndexes)[i] == OutputValues(sem, m, AllData(inputs))[i]
    {
      OutputsRight(m, env, outputs, s, i);
      OutputValueAt(sem, m, AllData(inputs), i);
    }
  }

  lemma OutputsStay(m: Model, outputs: seq<Argument>, s: RunState, t: RunState)
    requires |outputs| == |m.outputIndexes| && Rooms(m, outputs, s) && |t.operands| == |s.operands|
    requires forall o :: 0 <= o < |t.operands| && !s.operands[o].lifetime.TemporaryVariable? ==>
               t.operands[o] == s.operands[o]
    ensures Found(t.operands, m.outputIndexes) == Found(s.operands, m.outputIndexes)
    ensures forall i :: 0 <= i < |outputs| ==>
              m.outputIndexes[i] < |s.operands| && t.operands[m.outputIndexes[i]] == s.operands[m.outputIndexes[i]]
  {
    forall i | 0 <= i < |outputs|
      ensures m.outputIndexes[i] < |s.operands| && t.operands[m.outputIndexes[i]] == s.operands[m.outputIndexes[i]]
    {
      assert RoomAt(m, m.outputIndexes[i], outputs[i], s);
    }
  }

  // ---------------------------------------------------------------- execution on the CPU

  function Buffers(mem: Memory, locs: seq<Location>): (arguments: seq<Argument>)
    ensures |arguments| == |locs|
  {
    seq(|locs|, i requires 0 <= i < |locs| => Given(Read(mem, locs[i])))
  }

  /** Executes a model on the CPU, on the places that inputs and outputs have. Whatever happens, nothing but
    * the outputs is written; a run that is reported as successful is an execution of the model; and any other
    * reports why the first operation failed that did. */
  method ComputeOnCpu(m: Model, ins: seq<Location>, outs: seq<Location>, mem: Memory, kernels: Kernels,
                      ghost sem: Semantics)
    returns (status: ErrorStatus, ghost after: Memory)
    requires Executable(m) && ConsumersCounted(m) && ProperKernels(m, kernels) && KernelsRight(sem, m, kernels)
    requires |ins| == |m.inputIndexes| && |outs| == |m.outputIndexes|
    requires forall i :: 0 <= i < |outs| ==> Writable(mem, outs[i])
    requires forall i, k :: 0 <= i < |ins| && 0 <= k < |outs| ==> Disjoint(ins[i], outs[k])
    requires forall i, k :: 0 <= i < k < |outs| ==> Disjoint(outs[i], outs[k])
    ensures Confined(mem, after, outs)
    ensures status == None ==> Executed(sem, m, ins, outs, mem, after)
    ensures status == None <==>
              var env := Meaning(sem, m, ReadAll(mem, ins));
              KernelsSucceed(m, kernels, env, |m.operations|) && OutputsFit(m, env, Buffers(mem, outs))
    ensures var env := Meaning(sem, m, ReadAll(mem, ins));
            && (KernelsSucceed(m, kernels, env, |m.operations|) && !OutputsFit(m, env, Buffers(mem, outs)) ==>
                  status == InsufficientSize)
            && (status != None ==>
                  exists j :: FirstFailure(m, kernels, env, Buffers(mem, outs), j) &&
                              status == ToErrorStatus(CodeOf(m, kernels, env, Buffers(mem, outs), j)))
  {
    hide Executable, ConsumersCounted, ProperKernels, KernelsRight, KernelsSucceed, OutputsFit, Meaning, OutputValues;
    hide FirstFailure, CodeOf;
    hide AllFreed, Explained, Confined, Writable, Disjoint;
    var executor := new CpuExecutor();
    var code := executor.Run(m, Buffers(mem, ins), Buffers(mem, outs), kernels, sem);
    assert AllData(Buffers(mem, ins)) == ReadAll(mem, ins);
    ghost var values := Found(executor.operands, m.outputIndexes);
    after := WriteAll(mem, outs, values);
    status := ToErrorStatus(code);
  }
}
