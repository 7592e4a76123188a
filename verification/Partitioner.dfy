/** Splitting a model over devices. */
module Partitioning {
  import opened Sequences
  import opened Models
  import opened RunOrder
  import opened ModelBuilding
  import opened SubModels
  import opened Stepping
  import opened Validation

  /** What the partitioner asks of the model it splits. */
  ghost predicate Splittable(m: Model) {
    && ValidModel(m) && InterfaceListed(m)
    && (forall o :: 0 <= o < |m.operands| ==> ConstantFits(m.operands[o]))
    && |m.operands| <= MAX_NUMBER_OF_OPERANDS && |m.operations| <= MAX_NUMBER_OF_OPERATIONS
  }

  /** The tables allow every type and every operation of the model. */
  ghost predicate Admitted(rules: TypeRules, m: Model) {
    && (forall o {:trigger rules.addable(m.operands[o].ty)} ::
          0 <= o < |m.operands| ==> rules.addable(m.operands[o].ty))
    && OperandsAdmitted(rules, m) && OperationsTyped(rules, m)
  }

  lemma OperationImportable(rules: TypeRules, m: Model, j: nat)
    requires Splittable(m) && Admitted(rules, m) && j < |m.operations|
    ensures Typed(rules, m, m.operations[j])
    ensures forall o :: o in m.operations[j].inputs || o in m.operations[j].outputs ==> Importable(rules, m.operands[o])
    ensures Meets(m, m.operations[j].inputs, Input) && Meets(m, m.operations[j].outputs, Output)
  {
    OperationMeets(m, j);
    assert Typed(rules, m, m.operations[j]);
    forall o | o in m.operations[j].inputs || o in m.operations[j].outputs ensures rules.addable(m.operands[o].ty) {}
  }

  ghost predicate Assigned(m: Model, best: seq<nat>, deviceCount: nat) {
    |best| == |m.operations| && forall x :: 0 <= x < |best| ==> best[x] < deviceCount
  }

  // ---------------------------------------------------------------- what a step may take

  /** What a listed operation reads is written by listed operations. */
  lemma ReadsAreKnown(m: Model, done: seq<nat>, x: nat, o: nat)
    requires Topological(m, done) && x in done
    requires o in InputsOf(m, x) && o < |m.operands| && IsDataflow(m.operands[o])
    ensures o in Outs(m, done)
  {
    var p :| 0 <= p < |done| && done[p] == x;
    assert Ready(m, done[p], Outs(m, done[..p]));
    var w :| w in done[..p] && o in OutputsOf(m, w);
    assert w in done;
  }

  lemma {:induction false} BuildStepKeys(m: Model, ops: seq<nat>, o: nat)
    requires InRange(m) && WrittenOnce(m)
    requires forall p :: 0 <= p < |ops| ==> ops[p] < |m.operations|
    requires o in BuildStep(m, ops).operandMap
    ensures exists x :: x in ops && (o in InputsOf(m, x) || o in OutputsOf(m, x))
  {
    if ops != [] {
      var n := |ops| - 1;
      BuildStepFacts(m, ops[..n]);
      OperationMeets(m, ops[n]);
      AddToStepFacts(m, ops[..n], BuildStep(m, ops[..n]), ops[n]);
      if o in BuildStep(m, ops[..n]).operandMap {
        BuildStepKeys(m, ops[..n], o);
      } else {
        assert ops[n] in ops;
      }
    }
  }

  /** A ready operation writes nothing that a step made of earlier operations has come across. */
  lemma FreshForStep(m: Model, done: seq<nat>, ops: seq<nat>, j: nat)
    requires InRange(m) && WrittenOnce(m)
    requires Operations(m, done) && Topological(m, done)
    requires Operations(m, ops) && (forall x :: x in ops ==> x in done)
    requires j < |m.operations| && j !in done && Ready(m, j, Outs(m, done))
    ensures forall o :: o in m.operations[j].outputs ==>
              o !in BuildStep(m, ops).operandMap && o !in m.operations[j].inputs && o !in Outs(m, done)
  {
    FreshOutputs(m, done, j);
    forall o | o in m.operations[j].outputs
      ensures o !in BuildStep(m, ops).operandMap
    {
      forall x | x in ops ensures o !in InputsOf(m, x) && o !in OutputsOf(m, x) {
        if o in InputsOf(m, x) { ReadsAreKnown(m, done, x, o); }
      }
      if o in BuildStep(m, ops).operandMap { BuildStepKeys(m, ops, o); }
    }
  }

  lemma StepHasRoom(m: Model, ops: seq<nat>, j: nat)
    requires Splittable(m) && j < |m.operations| && j !in ops
    requires Operations(m, ops)
    ensures RoomFor(m, BuildStep(m, ops), m.operations[j])
    ensures AddToStep(m, BuildStep(m, ops), m.operations[j]) == BuildStep(m, ops + [j])
  {
    var all := ops + [j];
    NoDupAppend(ops, j);
    NoDupBounded(all, |m.operations|);
    assert all[..|all|-1] == ops;
    BuildStepFacts(m, ops);
    BuildStepFacts(m, all);
    StepRoom(m, BuildStep(m, all));
  }

  // ---------------------------------------------------------------- ready queues

  /** The queue of a device holds exactly the pending operations that were assigned to it, each once. */
  ghost predicate QueueHolds(queue: seq<nat>, best: seq<nat>, pending: set<nat>, d: nat) {
    NoDup(queue) && forall x :: x in queue <==> x in pending && x < |best| && best[x] == d
  }

  /** Each pending operation waits once, in the queue of its device. */
  ghost predicate QueuesHold(queues: seq<seq<nat>>, best: seq<nat>, pending: set<nat>) {
    && (forall d :: 0 <= d < |queues| ==> QueueHolds(queues[d], best, pending, d))
    && (forall x :: x in pending ==> x < |best| && best[x] < |queues|)
  }

  method EnqueueOnAppropriateDevices(queues: seq<seq<nat>>, best: seq<nat>, newly: seq<nat>, ghost pending: set<nat>)
    returns (after: seq<seq<nat>>)
    requires QueuesHold(queues, best, pending) && NoDup(newly) && Elements(newly) !! pending
    requires forall x :: x in newly ==> x < |best| && best[x] < |queues|
    ensures |after| == |queues| && QueuesHold(after, best, pending + Elements(newly))
  {
    after := queues;
    ghost var waiting := pending;
    assert pending + Elements(newly[..0]) == pending;
    for i := 0 to |newly|
      invariant |after| == |queues| && waiting == pending + Elements(newly[..i])
      invariant QueuesHold(after, best, waiting)
    {
      var x := newly[i];
      EnqueueNext(newly, i, pending);
      EnqueueOne(after, best, waiting, x);
      after := after[best[x] := after[best[x]] + [x]];
      waiting := waiting + {x};
    }
    assert newly[..|newly|] == newly;
  }

  lemma EnqueueNext(newly: seq<nat>, i: nat, pending: set<nat>)
    requires NoDup(newly) && Elements(newly) !! pending && i < |newly|
    ensures newly[i] in newly && newly[i] !in pending + Elements(newly[..i])
    ensures pending + Elements(newly[..i+1]) == pending + Elements(newly[..i]) + {newly[i]}
  {
    assert newly[i] in Elements(newly);
    assert newly[..i+1] == newly[..i] + [newly[i]];
  }

  lemma EnqueueOne(queues: seq<seq<nat>>, best: seq<nat>, pending: set<nat>, x: nat)
    requires QueuesHold(queues, best, pending) && x !in pending && x < |best| && best[x] < |queues|
    ensures QueuesHold(queues[best[x] := queues[best[x]] + [x]], best, pending + {x})
  {
    var after := queues[best[x] := queues[best[x]] + [x]];
    forall d | 0 <= d < |after| ensures QueueHolds(after[d], best, pending + {x}, d) {
      assert QueueHolds(queues[d], best, pending, d);
      if d == best[x] { NoDupAppend(queues[d], x); }
    }
  }

  lemma DequeueOne(queues: seq<seq<nat>>, best: seq<nat>, pending: set<nat>, d: nat)
    requires QueuesHold(queues, best, pending) && d < |queues| && queues[d] != []
    ensures queues[d][0] in pending && queues[d][0] < |best| && best[queues[d][0]] == d
    ensures QueuesHold(queues[d := queues[d][1..]], best, pending - {queues[d][0]})
  {
    var x := queues[d][0];
    assert QueueHolds(queues[d], best, pending, d) && x in queues[d];
    TailFacts(queues[d]);
    var after := queues[d := queues[d][1..]];
    forall e | 0 <= e < |after| ensures QueueHolds(after[e], best, pending - {x}, e) {
      assert QueueHolds(queues[e], best, pending, e);
    }
  }

  lemma TailFacts(s: seq<nat>)
    requires NoDup(s) && s != []
    ensures NoDup(s[1..]) && forall y :: y in s[1..] <==> y in s && y != s[0]
  {
    assert s == [s[0]] + s[1..];
    forall i | 0 <= i < |s| - 1 ensures s[1..][i] == s[i+1] {}
  }

  /** The device with the highest index that has work waiting, so the CPU comes first. */
  method FindNextDeviceToProcess(queues: seq<seq<nat>>) returns (device: int)
    ensures -1 <= device < |queues|
    ensures device >= 0 ==> queues[device] != []
    ensures forall d :: device < d < |queues| ==> queues[d] == []
  {
    device := |queues| - 1;
    while device >= 0
      invariant -1 <= device < |queues|
      invariant forall d :: device < d < |queues| ==> queues[d] == []
    {
      if queues[device] != [] { return; }
      device := device - 1;
    }
  }

  // ---------------------------------------------------------------- defining steps

  function DefineAll(m: Model, defs: map<nat, nat>, ops: seq<nat>, index: nat): map<nat, nat> {
    if ops == [] then defs
    else Define(m, DefineAll(m, defs, ops[..|ops|-1], index), OutputsOf(m, ops[|ops|-1]), index)
  }

  lemma {:induction false} DefineAllFacts(m: Model, defs: map<nat, nat>, ops: seq<nat>, index: nat)
    ensures forall o :: o in DefineAll(m, defs, ops, index) <==>
              o in defs || (o in Outs(m, ops) && HasLifeTime(m, o, TemporaryVariable))
    ensures forall o :: o in DefineAll(m, defs, ops, index) ==>
              DefineAll(m, defs, ops, index)[o] ==
              if o in Outs(m, ops) && HasLifeTime(m, o, TemporaryVariable) then index else defs[o]
  {
    if ops != [] {
      var n := |ops| - 1;
      DefineAllFacts(m, defs, ops[..n], index);
      DefineKeys(m, DefineAll(m, defs, ops[..n], index), OutputsOf(m, ops[n]), index);
      OutsAppend(m, ops[..n], ops[n]);
      assert ops == ops[..n] + [ops[n]];
    }
  }

  /** The recorded definitions are those of the temporaries written so far. */
  ghost predicate DefsWritten(m: Model, done: seq<nat>, defs: map<nat, nat>) {
    forall o :: o in defs ==> o in Outs(m, done)
  }

  // ---------------------------------------------------------------- filling one step

  lemma DefinesStep(m: Model, defs0: map<nat, nat>, done: seq<nat>, ops: seq<nat>, j: nat, index: nat)
    ensures DefineAll(m, defs0, ops + [j], index) == Define(m, DefineAll(m, defs0, ops, index), OutputsOf(m, j), index)
    ensures DefsWritten(m, done, DefineAll(m, defs0, ops, index)) ==>
              DefsWritten(m, done + [j], DefineAll(m, defs0, ops + [j], index))
  {
    assert (ops + [j])[..|ops|] == ops;
    DefineKeys(m, DefineAll(m, defs0, ops, index), OutputsOf(m, j), index);
    OutsAppend(m, done, j);
  }

  /** Adds one ready operation to the step. */
  method TakeOperation(m: Model, operationIndex: nat, step: ExecutionStep, defs: TemporaryDefs,
                       ghost done: seq<nat>, ghost ops: seq<nat>, ghost pending: set<nat>)
    returns (code: ResultCode)
    requires Splittable(m) && WorkState(m, done, pending) && operationIndex in pending
    requires Operations(m, ops) && (forall x :: x in ops ==> x in done)
    requires step.Building() && step.State() == BuildStep(m, ops) && Admitted(step.subModel.rules, m)
    requires DefsWritten(m, done, defs.temporaryToDefiningStep)
    modifies step`modelInputs, step`modelOutputs, step`tempsAsSubModelInputs, step`outputsAsSubModelInputs,
             step`operandMap, step`origins, step.subModel, defs
    ensures code == NoError && step.Building()
    ensures NoDup(m.operations[operationIndex].outputs)
    ensures forall o :: o in m.operations[operationIndex].outputs ==> DataflowAt(m.operands, o) && o !in Outs(m, done)
    ensures Operations(m, ops + [operationIndex]) && step.State() == BuildStep(m, ops + [operationIndex])
    ensures defs.temporaryToDefiningStep ==
            Define(m, old(defs.temporaryToDefiningStep), OutputsOf(m, operationIndex), step.index)
  {
    FreshForStep(m, done, ops, operationIndex);
    FreshOutputs(m, done, operationIndex);
    StepHasRoom(m, ops, operationIndex);
    BuildStepFacts(m, ops);
    NoDupAppend(ops, operationIndex);
    OperationImportable(step.subModel.rules, m, operationIndex);
    code := step.AddOperation(m.operations[operationIndex], m, defs);
  }

  ghost predicate StaysOn(ops: seq<nat>, best: seq<nat>, device: nat) {
    forall p :: 0 <= p < |ops| ==> ops[p] < |best| && best[ops[p]] == device
  }

  /** Takes the front of the queue of the device: adds it to the step and enqueues what it makes ready. */
  method ProcessFront(m: Model, best: seq<nat>, device: nat, step: ExecutionStep, defs: TemporaryDefs,
                      tracker: OperandTracker, perDeviceQueue: seq<seq<nat>>,
                      ghost done: seq<nat>, ghost ops: seq<nat>, ghost pending: set<nat>)
    returns (queues: seq<seq<nat>>, operationIndex: nat, ghost waiting: set<nat>, code: ResultCode)
    requires Splittable(m) && Assigned(m, best, |perDeviceQueue|)
    requires WorkState(m, done, pending) && QueuesHold(perDeviceQueue, best, pending)
    requires tracker.Valid() && tracker.model == m && tracker.known == Outs(m, done)
    requires device < |perDeviceQueue| && perDeviceQueue[device] != []
    requires Operations(m, ops) && (forall x :: x in ops ==> x in done)
    requires step.Building() && step.State() == BuildStep(m, ops) && Admitted(step.subModel.rules, m)
    requires DefsWritten(m, done, defs.temporaryToDefiningStep)
    modifies step`modelInputs, step`modelOutputs, step`tempsAsSubModelInputs, step`outputsAsSubModelInputs,
             step`operandMap, step`origins, step.subModel, defs, tracker
    ensures code == NoError && step.Building()
    ensures operationIndex < |best| && best[operationIndex] == device
    ensures Operations(m, ops + [operationIndex]) && step.State() == BuildStep(m, ops + [operationIndex])
    ensures |done| < |m.operations|
    ensures WorkState(m, done + [operationIndex], waiting) && QueuesHold(queues, best, waiting)
    ensures |queues| == |perDeviceQueue|
    ensures tracker.Valid() && tracker.known == Outs(m, done + [operationIndex])
    ensures defs.temporaryToDefiningStep ==
            Define(m, old(defs.temporaryToDefiningStep), OutputsOf(m, operationIndex), step.index)
  {
    operationIndex := perDeviceQueue[device][0];
    DequeueOne(perDeviceQueue, best, pending, device);
    queues := perDeviceQueue[device := perDeviceQueue[device][1..]];
    code := TakeOperation(m, operationIndex, step, defs, done, ops, pending);
    OutsAppend(m, done, operationIndex);
    var newly := tracker.MarkProcessed(operationIndex);
    WorkStep(m, done, pending, operationIndex, Elements(newly));
    NewlyQueueable(newly, best, |m.operations|, |queues|);
    queues := EnqueueOnAppropriateDevices(queues, best, newly, pending - {operationIndex});
    waiting := pending - {operationIndex} + Elements(newly);
  }

  lemma NewlyQueueable(newly: seq<nat>, best: seq<nat>, n: nat, deviceCount: nat)
    requires |best| == n && (forall x :: x in newly ==> x < n) && forall x :: 0 <= x < n ==> best[x] < deviceCount
    ensures forall x :: x in newly ==> x < |best| && best[x] < deviceCount
  {
  }

  /** Assigns as much as possible to one device. */
  method FillStep(m: Model, best: seq<nat>, device: nat, step: ExecutionStep, defs: TemporaryDefs,
                  tracker: OperandTracker, perDeviceQueue: seq<seq<nat>>,
                  ghost done: seq<nat>, ghost pending: set<nat>)
    returns (queues: seq<seq<nat>>, ghost ops: seq<nat>, ghost waiting: set<nat>, code: ResultCode)
    requires Splittable(m) && Assigned(m, best, |perDeviceQueue|)
    requires WorkState(m, done, pending) && QueuesHold(perDeviceQueue, best, pending)
    requires tracker.Valid() && tracker.model == m && tracker.known == Outs(m, done)
    requires device < |perDeviceQueue| && perDeviceQueue[device] != []
    requires step.Building() && step.State() == EMPTY_STEP && Admitted(step.subModel.rules, m)
    requires DefsWritten(m, done, defs.temporaryToDefiningStep)
    modifies step`modelInputs, step`modelOutputs, step`tempsAsSubModelInputs, step`outputsAsSubModelInputs,
             step`operandMap, step`origins, step.subModel, defs, tracker
    ensures code == NoError && step.Building() && step.State() == BuildStep(m, ops)
    ensures ops != [] && StaysOn(ops, best, device)
    ensures WorkState(m, done + ops, waiting) && QueuesHold(queues, best, waiting)
    ensures |queues| == |perDeviceQueue| && queues[device] == []
    ensures tracker.Valid() && tracker.known == Outs(m, done + ops)
    ensures defs.temporaryToDefiningStep == DefineAll(m, old(defs.temporaryToDefiningStep), ops, step.index)
  {
    hide Splittable, Admitted, Assigned, Outs, WorkState, QueuesHold, DefsWritten, Define, AddToStep;
    queues, ops, waiting, code := perDeviceQueue, [], pending, NoError;
    ghost var defs0 := defs.temporaryToDefiningStep;
    ghost var all := done;
    assert done + [] == done;
    while queues[device] != []
      invariant all == done + ops && code == NoError && step.Building()
      invariant |queues| == |perDeviceQueue| && (ops == [] ==> queues[device] != [])
      invariant WorkState(m, all, waiting) && QueuesHold(queues, best, waiting)
      invariant Operations(m, ops) && StaysOn(ops, best, device) && step.State() == BuildStep(m, ops)
      invariant tracker.Valid() && tracker.known == Outs(m, all)
      invariant defs.temporaryToDefiningStep == DefineAll(m, defs0, ops, step.index)
      invariant DefsWritten(m, all, defs.temporaryToDefiningStep)
      decreases |m.operations| - |all|
    {
      var operationIndex;
      ghost var before := waiting;
      queues, operationIndex, waiting, code :=
        ProcessFront(m, best, device, step, defs, tracker, queues, all, ops, before);
      DefinesStep(m, defs0, all, ops, operationIndex, step.index);
      ConcatAppend(done, ops, operationIndex);
      ops := ops + [operationIndex];
      all := all + [operationIndex];
    }
  }

  // ---------------------------------------------------------------- the whole partition

  /** Operations of the first `n` steps, in the order they were added. */
  ghost function Through(stepOps: seq<seq<nat>>, n: nat): seq<nat>
    requires n <= |stepOps|
  {
    Flatten(stepOps[..n])
  }

  /** No operation that could have run on the device of step `s` was left for later. */
  ghost predicate Exhausted(m: Model, best: seq<nat>, stepOps: seq<seq<nat>>, s: nat)
    requires s < |stepOps| && |best| == |m.operations|
  {
    forall x :: 0 <= x < |m.operations| && Ready(m, x, Outs(m, Through(stepOps, s + 1))) &&
                (exists y :: y in stepOps[s] && y < |best| && best[x] == best[y]) ==>
                x in Through(stepOps, s + 1)
  }

  /** Every step is nonempty and stays on one device. */
  ghost predicate OnOneDevice(best: seq<nat>, stepOps: seq<seq<nat>>, devices: seq<nat>) {
    && |devices| == |stepOps|
    && forall s :: 0 <= s < |stepOps| ==>
         stepOps[s] != [] && StaysOn(stepOps[s], best, devices[s])
  }

  /** What the partitioner produces. */
  ghost predicate IsPartition(m: Model, best: seq<nat>, stepOps: seq<seq<nat>>, devices: seq<nat>) {
    && |best| == |m.operations|
    && IsRunOrder(m, Flatten(stepOps))
    && OnOneDevice(best, stepOps, devices)
    && (forall s, t :: 0 <= s < |devices| && t == s + 1 && t < |devices| ==> devices[s] != devices[t])
    && (forall s :: 0 <= s < |stepOps| ==> Exhausted(m, best, stepOps, s))
  }

  /** A temporary is recorded exactly when some step writes it, and for that step. */
  ghost predicate DefsExact(m: Model, stepOps: seq<seq<nat>>, defs: map<nat, nat>) {
    && (forall o :: o in defs <==> o in Outs(m, Flatten(stepOps)) && HasLifeTime(m, o, TemporaryVariable))
    && (forall o :: o in defs ==> defs[o] < |stepOps| && o in Outs(m, stepOps[defs[o]]))
  }

  lemma DefsExactAppend(m: Model, stepOps: seq<seq<nat>>, defs: map<nat, nat>, ops: seq<nat>, after: map<nat, nat>)
    requires DefsExact(m, stepOps, defs) && after == DefineAll(m, defs, ops, |stepOps|)
    ensures DefsExact(m, stepOps + [ops], after)
  {
    FlattenAppend(stepOps, ops);
    OutsConcat(m, Flatten(stepOps), ops);
    DefineAllFacts(m, defs, ops, |stepOps|);
    forall o | o in after
      ensures after[o] < |stepOps + [ops]| && o in Outs(m, (stepOps + [ops])[after[o]])
    {
      if o !in Outs(m, ops) { assert (stepOps + [ops])[defs[o]] == stepOps[defs[o]]; }
    }
  }

  lemma FlattenAppend(stepOps: seq<seq<nat>>, ops: seq<nat>)
    ensures Flatten(stepOps + [ops]) == Flatten(stepOps) + ops
  {
    assert (stepOps + [ops])[..|stepOps|] == stepOps;
  }

  lemma DefsExactWritten(m: Model, stepOps: seq<seq<nat>>, defs: map<nat, nat>)
    requires DefsExact(m, stepOps, defs)
    ensures DefsWritten(m, Flatten(stepOps), defs)
  {
  }

  /** Steps that are complete, between two rounds of the partitioner. */
  ghost predicate Settled(m: Model, best: seq<nat>, queues: seq<seq<nat>>, stepOps: seq<seq<nat>>, devices: seq<nat>) {
    && OnOneDevice(best, stepOps, devices)
    && (forall s, t :: 0 <= s < |devices| && t == s + 1 && t < |devices| ==> devices[s] != devices[t])
    && (forall s :: 0 <= s < |devices| ==> devices[s] < |queues|)
    && (devices != [] ==> queues[devices[|devices|-1]] == [])
    && |best| == |m.operations|
    && (forall s :: 0 <= s < |stepOps| ==> Exhausted(m, best, stepOps, s))
  }

  ghost predicate BetweenSteps(m: Model, best: seq<nat>, queues: seq<seq<nat>>,
                               stepOps: seq<seq<nat>>, devices: seq<nat>, pending: set<nat>) {
    && WorkState(m, Flatten(stepOps), pending)
    && QueuesHold(queues, best, pending)
    && Settled(m, best, queues, stepOps, devices)
  }

  /** When every queue is empty, the steps are a partition. */
  lemma NothingPending(m: Model, best: seq<nat>, queues: seq<seq<nat>>,
                       stepOps: seq<seq<nat>>, devices: seq<nat>, pending: set<nat>)
    requires BetweenSteps(m, best, queues, stepOps, devices, pending)
    requires forall d :: 0 <= d < |queues| ==> queues[d] == []
    ensures IsPartition(m, best, stepOps, devices)
  {
    forall x: nat ensures x !in pending {
      if x < |best| && best[x] < |queues| { assert QueueHolds(queues[best[x]], best, pending, best[x]); }
    }
  }

  lemma SettleStep(m: Model, best: seq<nat>, queues: seq<seq<nat>>, stepOps: seq<seq<nat>>, devices: seq<nat>,
                   device: nat, ops: seq<nat>, after: seq<seq<nat>>, waiting: set<nat>)
    requires Settled(m, best, queues, stepOps, devices) && device < |queues| && queues[device] != []
    requires ops != [] && StaysOn(ops, best, device)
    requires |after| == |queues| && after[device] == []
    requires WorkState(m, Flatten(stepOps) + ops, waiting) && QueuesHold(after, best, waiting)
    ensures Settled(m, best, after, stepOps + [ops], devices + [device])
  {
    hide WorkState, QueuesHold, Exhausted;
    FlattenAppend(stepOps, ops);
    var all, n := stepOps + [ops], |stepOps|;
    forall s | 0 <= s < |all| ensures Exhausted(m, best, all, s) {
      if s < n {
        EarlierExhausted(m, best, stepOps, ops, s);
      } else {
        LastExhausted(m, best, all, device, after, waiting);
      }
    }
  }

  lemma EarlierExhausted(m: Model, best: seq<nat>, stepOps: seq<seq<nat>>, ops: seq<nat>, s: nat)
    requires s < |stepOps| && |best| == |m.operations| && Exhausted(m, best, stepOps, s)
    ensures Exhausted(m, best, stepOps + [ops], s)
  {
    assert (stepOps + [ops])[..s+1] == stepOps[..s+1];
  }

  lemma LastExhausted(m: Model, best: seq<nat>, all: seq<seq<nat>>, device: nat, after: seq<seq<nat>>,
                      waiting: set<nat>)
    requires all != [] && |best| == |m.operations|
    requires StaysOn(all[|all|-1], best, device)
    requires device < |after| && after[device] == []
    requires WorkState(m, Flatten(all), waiting) && QueuesHold(after, best, waiting)
    ensures Exhausted(m, best, all, |all| - 1)
  {
    assert all[..|all|] == all;
    assert Through(all, |all|) == Flatten(all);
  }

  /** One round of the partitioner, seen from outside. */
  lemma SettleRound(m: Model, best: seq<nat>, queues: seq<seq<nat>>, stepOps: seq<seq<nat>>, devices: seq<nat>,
                    defs: map<nat, nat>, device: nat, ops: seq<nat>, after: seq<seq<nat>>, waiting: set<nat>,
                    defsAfter: map<nat, nat>)
    requires Settled(m, best, queues, stepOps, devices) && DefsExact(m, stepOps, defs)
    requires device < |queues| && queues[device] != []
    requires ops != [] && StaysOn(ops, best, device)
    requires |after| == |queues| && after[device] == []
    requires WorkState(m, Flatten(stepOps) + ops, waiting) && QueuesHold(after, best, waiting)
    requires defsAfter == DefineAll(m, defs, ops, |stepOps|)
    ensures BetweenSteps(m, best, after, stepOps + [ops], devices + [device], waiting)
    ensures DefsExact(m, stepOps + [ops], defsAfter)
    ensures Flatten(stepOps + [ops]) == Flatten(stepOps) + ops
    ensures |Flatten(stepOps + [ops])| <= |m.operations|
  {
    FlattenAppend(stepOps, ops);
    SettleStep(m, best, queues, stepOps, devices, device, ops, after, waiting);
    DefsExactAppend(m, stepOps, defs, ops, defsAfter);
    NoDupBounded(Flatten(stepOps + [ops]), |m.operations|);
  }

  class ExecutionPlan {
    var steps: seq<ExecutionStep>
    const defs: TemporaryDefs
    const rules: TypeRules
    /** The steps and their submodels. */
    ghost var Repr: set<object>

    constructor (rules: TypeRules)
      ensures steps == [] && Repr == {} && defs.temporaryToDefiningStep == map[] && fresh(defs) && this.rules == rules
    {
      this.rules, steps, Repr := rules, [], {};
      defs := new TemporaryDefs();
    }

    method CreateNewStep(device: nat) returns (step: ExecutionStep)
      requires Separate(steps) && Owned(steps, Repr)
      modifies this
      ensures fresh(step) && fresh(step.subModel) && step.subModel.rules == rules
      ensures step.Building() && step.State() == EMPTY_STEP && step.tempsAsSubModelOutputs == []
      ensures step.index == |old(steps)| && step.device == device
      ensures steps == old(steps) + [step] && Repr == old(Repr) + {step, step.subModel} && Separate(steps) &&
              Owned(steps, Repr)
    {
      step := new ExecutionStep(|steps|, device, rules);
      steps := steps + [step];
      Repr := Repr + {step, step.subModel};
    }
  }

  /** The step objects hold what they were given. */
  ghost predicate StepsBuilt(m: Model, steps: seq<ExecutionStep>, stepOps: seq<seq<nat>>, devices: seq<nat>)
    reads set i | 0 <= i < |steps| :: steps[i], set i | 0 <= i < |steps| :: steps[i].subModel
  {
    && |steps| == |stepOps| == |devices|
    && forall s :: 0 <= s < |steps| ==> StepBuilt(m, steps[s], s, stepOps[s], devices[s])
  }

  ghost predicate StepBuilt(m: Model, step: ExecutionStep, index: nat, ops: seq<nat>, device: nat)
    reads step, step.subModel
  {
    StepHolds(m, step, index, ops, device) && step.tempsAsSubModelOutputs == []
  }

  /** Everything about a step under construction but the list of what it exports. */
  ghost predicate StepHolds(m: Model, step: ExecutionStep, index: nat, ops: seq<nat>, device: nat)
    reads step`modelInputs, step`modelOutputs, step`tempsAsSubModelInputs, step`outputsAsSubModelInputs,
          step`operandMap, step`origins, step.subModel
  {
    && step.index == index && step.device == device && Admitted(step.subModel.rules, m)
    && step.Building() && step.State() == BuildStep(m, ops)
  }

  /** The steps are different objects, as are their submodels. */
  ghost predicate Separate(steps: seq<ExecutionStep>) {
    forall s, t :: 0 <= s < t < |steps| ==> steps[s] != steps[t] && steps[s].subModel != steps[t].subModel
  }

  /** Steps and submodels are among the objects of the plan. */
  ghost predicate Owned(steps: seq<ExecutionStep>, repr: set<object>) {
    forall s :: 0 <= s < |steps| ==> steps[s] in repr && steps[s].subModel in repr
  }

  /** Between two rounds: the plan holds the steps made so far, and the tracker knows what they write. */
  ghost predicate Underway(m: Model, best: seq<nat>, plan: ExecutionPlan, tracker: OperandTracker,
                           queues: seq<seq<nat>>, stepOps: seq<seq<nat>>, devices: seq<nat>, pending: set<nat>)
    reads plan, plan.defs, plan.Repr, tracker
  {
    && BetweenSteps(m, best, queues, stepOps, devices, pending)
    && tracker.Valid() && tracker.model == m && tracker.known == Outs(m, Flatten(stepOps))
    && DefsExact(m, stepOps, plan.defs.temporaryToDefiningStep)
    && Separate(plan.steps) && Owned(plan.steps, plan.Repr) && StepsBuilt(m, plan.steps, stepOps, devices)
  }

  /** Queues the operations that wait for nothing. */
  method StartQueues(m: Model, best: seq<nat>, deviceCount: nat, plan: ExecutionPlan,
                     tracker: OperandTracker)
    returns (queues: seq<seq<nat>>, ghost pending: set<nat>)
    requires Assigned(m, best, deviceCount) && tracker.model == m
    requires tracker.operandToOperations == map[] && tracker.unknownInputCount == [] && tracker.known == {}
    requires plan.steps == [] && plan.Repr == {} && plan.defs.temporaryToDefiningStep == map[]
    modifies tracker
    ensures |queues| == deviceCount && Underway(m, best, plan, tracker, queues, [], [], pending)
  {
    var ready := tracker.Start();
    pending := Elements(ready);
    WorkStart(m, pending);
    NewlyQueueable(ready, best, |m.operations|, deviceCount);
    queues := EnqueueOnAppropriateDevices(seq(deviceCount, i => []), best, ready, {});
    assert {} + pending == pending;
  }

  /** Distributes the operations over the devices that were chosen for them. */
  method Distribute(m: Model, best: seq<nat>, deviceCount: nat, plan: ExecutionPlan)
    returns (ghost stepOps: seq<seq<nat>>, ghost devices: seq<nat>, code: ResultCode)
    requires Splittable(m) && Admitted(plan.rules, m) && Assigned(m, best, deviceCount)
    requires plan.steps == [] && plan.Repr == {} && plan.defs.temporaryToDefiningStep == map[]
    modifies plan, plan.defs
    ensures code == NoError && IsPartition(m, best, stepOps, devices)
    ensures StepsBuilt(m, plan.steps, stepOps, devices) && Separate(plan.steps) && Owned(plan.steps, plan.Repr)
    ensures fresh(plan.Repr)
    ensures DefsExact(m, stepOps, plan.defs.temporaryToDefiningStep)
  {
    hide BetweenSteps, DefsExact, StepsBuilt, Separate, Owned, IsPartition, Splittable, Admitted, OperandTracker.Valid;
    code := NoError;
    stepOps, devices := [], [];
    var tracker := new OperandTracker(m);
    var perDeviceQueue;
    ghost var pending;
    perDeviceQueue, pending := StartQueues(m, best, deviceCount, plan, tracker);
    while true
      invariant code == NoError && |perDeviceQueue| == deviceCount
      invariant Underway(m, best, plan, tracker, perDeviceQueue, stepOps, devices, pending)
      invariant fresh(tracker) && fresh(plan.Repr)
      decreases |m.operations| - |Flatten(stepOps)|
    {
      var deviceIndex := FindNextDeviceToProcess(perDeviceQueue);
      if deviceIndex < 0 { break; }
      ghost var ops, waiting;
      perDeviceQueue, ops, waiting, code :=
        Round(m, best, deviceIndex, plan, tracker, perDeviceQueue, stepOps, devices, pending);
      stepOps, devices, pending := stepOps + [ops], devices + [deviceIndex], waiting;
    }
    NothingPending(m, best, perDeviceQueue, stepOps, devices, pending);
  }

  /** One round of the partitioner: the plan gets one more step. */
  method Round(m: Model, best: seq<nat>, device: nat, plan: ExecutionPlan, tracker: OperandTracker,
               perDeviceQueue: seq<seq<nat>>,
               ghost stepOps: seq<seq<nat>>, ghost devices: seq<nat>, ghost pending: set<nat>)
    returns (queues: seq<seq<nat>>, ghost ops: seq<nat>, ghost waiting: set<nat>, code: ResultCode)
    requires Splittable(m) && Admitted(plan.rules, m) && Assigned(m, best, |perDeviceQueue|)
    requires Underway(m, best, plan, tracker, perDeviceQueue, stepOps, devices, pending)
    requires device < |perDeviceQueue| && perDeviceQueue[device] != []
    modifies plan, plan.defs, tracker
    ensures code == NoError && |queues| == |perDeviceQueue|
    ensures Underway(m, best, plan, tracker, queues, stepOps + [ops], devices + [device], waiting)
    ensures |Flatten(stepOps)| < |Flatten(stepOps + [ops])| <= |m.operations|
    ensures fresh(plan.Repr - old(plan.Repr))
  {
    ghost var defs0 := plan.defs.temporaryToDefiningStep;
    DefsExactWritten(m, stepOps, defs0);
    queues, ops, waiting, code :=
      NextStep(m, best, device, plan, tracker, perDeviceQueue, stepOps, devices, pending);
    SettleRound(m, best, perDeviceQueue, stepOps, devices, defs0, device, ops, queues, waiting,
                plan.defs.temporaryToDefiningStep);
  }

  /** A new step for the device, filled as far as possible. */
  method NextStep(m: Model, best: seq<nat>, device: nat, plan: ExecutionPlan, tracker: OperandTracker,
                  perDeviceQueue: seq<seq<nat>>,
                  ghost stepOps: seq<seq<nat>>, ghost devices: seq<nat>, ghost pending: set<nat>)
    returns (queues: seq<seq<nat>>, ghost ops: seq<nat>, ghost waiting: set<nat>, code: ResultCode)
    requires Splittable(m) && Admitted(plan.rules, m) && Assigned(m, best, |perDeviceQueue|)
    requires WorkState(m, Flatten(stepOps), pending) && QueuesHold(perDeviceQueue, best, pending)
    requires tracker.Valid() && tracker.model == m && tracker.known == Outs(m, Flatten(stepOps))
    requires device < |perDeviceQueue| && perDeviceQueue[device] != []
    requires StepsBuilt(m, plan.steps, stepOps, devices) && Separate(plan.steps) && Owned(plan.steps, plan.Repr)
    requires DefsWritten(m, Flatten(stepOps), plan.defs.temporaryToDefiningStep)
    modifies plan, plan.defs, tracker
    ensures code == NoError && ops != [] && StaysOn(ops, best, device)
    ensures WorkState(m, Flatten(stepOps) + ops, waiting) && QueuesHold(queues, best, waiting)
    ensures |queues| == |perDeviceQueue| && queues[device] == []
    ensures tracker.Valid() && tracker.known == Outs(m, Flatten(stepOps) + ops)
    ensures plan.defs.temporaryToDefiningStep ==
            DefineAll(m, old(plan.defs.temporaryToDefiningStep), ops, |stepOps|)
    ensures StepsBuilt(m, plan.steps, stepOps + [ops], devices + [device]) && Separate(plan.steps) &&
            Owned(plan.steps, plan.Repr)
    ensures fresh(plan.Repr - old(plan.Repr))
  {
    hide Splittable, Admitted, Assigned, WorkState, QueuesHold, DefsWritten, StaysOn, OperandTracker.Valid;
    hide BuildStep, DefineAll, Outs;
    ghost var steps := plan.steps;
    var step := plan.CreateNewStep(device);
    ghost var repr := plan.Repr;
    assert fresh(repr - old(plan.Repr));
    queues, ops, waiting, code :=
      FillStep(m, best, device, step, plan.defs, tracker, perDeviceQueue, Flatten(stepOps), pending);
    assert plan.Repr == repr;
    forall s | 0 <= s < |steps| ensures StepBuilt(m, steps[s], s, stepOps[s], devices[s]) {
      assert old(StepBuilt(m, steps[s], s, stepOps[s], devices[s]));
    }
    StepsBuiltAppend(m, steps, step, stepOps, ops, devices, device);
  }

  lemma StepsBuiltAppend(m: Model, steps: seq<ExecutionStep>, step: ExecutionStep,
                         stepOps: seq<seq<nat>>, ops: seq<nat>, devices: seq<nat>, device: nat)
    requires StepsBuilt(m, steps, stepOps, devices) && StepBuilt(m, step, |steps|, ops, device)
    ensures StepsBuilt(m, steps + [step], stepOps + [ops], devices + [device])
  {
  }
}
