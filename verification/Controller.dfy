/** Handing out the steps of a plan one after the other, with their arguments routed. */
module Controlling {
  import opened Sequences
  import opened Models
  import opened Sorting
  import opened SubModels
  import opened Stepping
  import opened Exporting
  import opened PlanFinishing
  import opened DeviceChoice
  import opened Layout

  /** Where an argument of a step lives: among the caller's inputs, among the caller's outputs, or in
    * the pool of temporaries. */
  datatype Location =
    | Unspecified
    | Argument(index: nat)
    | Result(index: nat)
    | Pool(offset: nat, length: nat)

  // ---------------------------------------------------------------- the pool of temporaries

  /** Temporaries that cross a partition boundary, step by step. */
  function Crossing(steps: seq<FinishedStep>): seq<nat> {
    if steps == [] then [] else Crossing(steps[..|steps|-1]) + Firsts(steps[|steps|-1].exports)
  }

  function SizesOf(m: Model, os: seq<nat>): (sizes: seq<nat>)
    ensures |sizes| == |os|
  {
    seq(|os|, i requires 0 <= i < |os| => if os[i] < |m.operands| then SizeOfData(m.operands[os[i]].ty) else 0)
  }

  /** Each temporary has the offset that 32-bit arithmetic gives it. */
  ghost predicate LaidOut(m: Model, os: seq<nat>, offsets: map<nat, nat>, total: nat) {
    && offsets.Keys == Elements(os)
    && total == Total(SizesOf(m, os)) % UINT32_LIMIT
    && forall i :: 0 <= i < |os| ==> os[i] in offsets && offsets[os[i]] == WrappedOffsets(SizesOf(m, os))[i]
  }

  /** Advances a 32-bit total over one value. */
  method Advance(total: nat, size: nat, ghost unbounded: nat) returns (offset: nat, after: nat)
    requires total == unbounded % UINT32_LIMIT
    ensures offset == Place(unbounded, size) % UINT32_LIMIT
    ensures after == (Place(unbounded, size) + size) % UINT32_LIMIT
  {
    AlignBytesIsPadding(unbounded, size);
    WrapPlus(unbounded, Padding(unbounded, size));
    WrapPlus(Place(unbounded, size), size);
    offset := (total + AlignBytesNeeded(total, size)) % UINT32_LIMIT;
    after := (offset + size) % UINT32_LIMIT;
  }

  lemma SizesAppend(m: Model, os: seq<nat>, o: nat)
    requires o < |m.operands|
    ensures SizesOf(m, os + [o]) == SizesOf(m, os) + [SizeOfData(m.operands[o].ty)]
  {
  }

  lemma LaidOutAppend(m: Model, os: seq<nat>, offsets: map<nat, nat>, total: nat, o: nat, offset: nat, after: nat)
    requires LaidOut(m, os, offsets, total) && o < |m.operands| && o !in os
    requires var size := SizeOfData(m.operands[o].ty);
             && offset == Place(Total(SizesOf(m, os)), size) % UINT32_LIMIT
             && after == (Place(Total(SizesOf(m, os)), size) + size) % UINT32_LIMIT
    ensures LaidOut(m, os + [o], offsets[o := offset], after)
  {
    hide SizesOf, SizeOfData, Total, Place, WrappedOffsets;
    SizesAppend(m, os, o);
    TotalAppend(SizesOf(m, os), SizeOfData(m.operands[o].ty));
    WrappedAppend(SizesOf(m, os), SizeOfData(m.operands[o].ty));
    forall i | 0 <= i < |os| + 1
      ensures (os + [o])[i] in offsets[o := offset]
      ensures offsets[o := offset][(os + [o])[i]] == WrappedOffsets(SizesOf(m, os + [o]))[i]
    {
      if i < |os| { assert os[i] in os; }
    }
    assert Elements(os + [o]) == Elements(os) + {o};
  }

  method PlaceTemporary(m: Model, o: nat, before: map<nat, nat>, start: nat, ghost os: seq<nat>)
    returns (offsets: map<nat, nat>, total: nat)
    requires LaidOut(m, os, before, start) && o < |m.operands| && o !in os
    ensures LaidOut(m, os + [o], offsets, total)
  {
    var size := SizeOfData(m.operands[o].ty);
    var offset;
    offset, total := Advance(start, size, Total(SizesOf(m, os)));
    LaidOutAppend(m, os, before, start, o, offset, total);
    offsets := before[o := offset];
  }

  /** Lays out what one step exports. */
  method PlaceExports(m: Model, exports: RemapVector, before: map<nat, nat>, start: nat, ghost os: seq<nat>)
    returns (offsets: map<nat, nat>, total: nat)
    requires LaidOut(m, os, before, start) && NoDup(os + Firsts(exports))
    requires forall i :: 0 <= i < |exports| ==> exports[i].0 < |m.operands|
    ensures LaidOut(m, os + Firsts(exports), offsets, total)
  {
    offsets, total := before, start;
    ghost var done := os;
    assert os + Firsts(exports[..0]) == os;
    for i := 0 to |exports|
      invariant done == os + Firsts(exports[..i])
      invariant LaidOut(m, done, offsets, total)
    {
      var o := exports[i].0;
      FirstsAppend(exports, i);
      ConcatAppend(os, Firsts(exports[..i]), o);
      NewInPrefix(os, exports, i);
      offsets, total := PlaceTemporary(m, o, offsets, total, done);
      done := done + [o];
    }
    assert exports[..|exports|] == exports;
  }

  lemma NewInPrefix(os: seq<nat>, exports: RemapVector, i: nat)
    requires NoDup(os + Firsts(exports)) && i < |exports|
    ensures exports[i].0 !in os + Firsts(exports[..i])
  {
    var all := os + Firsts(exports);
    var prefix := os + Firsts(exports[..i]);
    assert all[|os| + i] == exports[i].0;
    forall k | 0 <= k < |prefix| ensures prefix[k] != exports[i].0 {
      assert prefix[k] == all[k];
    }
  }

  lemma {:induction false} NoDupPrefix<T>(a: seq<T>, b: seq<T>)
    requires NoDup(a + b)
    ensures NoDup(a)
  {
    forall i, j | 0 <= i < j < |a| ensures a[i] != a[j] {
      assert (a + b)[i] == a[i] && (a + b)[j] == a[j];
    }
  }

  lemma CrossingNext(steps: seq<FinishedStep>, t: nat)
    requires t < |steps|
    ensures Crossing(steps[..t+1]) == Crossing(steps[..t]) + Firsts(steps[t].exports)
  {
    assert steps[..t+1][..t] == steps[..t];
  }

  lemma {:induction false} CrossingPrefix(steps: seq<FinishedStep>, t: nat)
    requires t <= |steps| && NoDup(Crossing(steps))
    ensures NoDup(Crossing(steps[..t]))
    decreases |steps| - t
  {
    if t < |steps| {
      CrossingPrefix(steps, t + 1);
      CrossingNext(steps, t);
      NoDupPrefix(Crossing(steps[..t]), Firsts(steps[t].exports));
    } else {
      assert steps[..t] == steps;
    }
  }

  ghost predicate ExportsInRange(m: Model, steps: seq<FinishedStep>) {
    forall t, i :: 0 <= t < |steps| && 0 <= i < |steps[t].exports| ==> steps[t].exports[i].0 < |m.operands|
  }

  /** Lays out every temporary that crosses a partition boundary, in 32-bit arithmetic. */
  method LayOutTemporaries(m: Model, steps: seq<FinishedStep>) returns (offsets: map<nat, nat>, total: nat)
    requires NoDup(Crossing(steps)) && ExportsInRange(m, steps)
    ensures LaidOut(m, Crossing(steps), offsets, total)
  {
    offsets, total := map[], 0;
    for t := 0 to |steps|
      invariant LaidOut(m, Crossing(steps[..t]), offsets, total)
    {
      CrossingNext(steps, t);
      CrossingPrefix(steps, t + 1);
      offsets, total := PlaceExports(m, steps[t].exports, offsets, total, Crossing(steps[..t]));
    }
    assert steps[..|steps|] == steps;
  }

  // ---------------------------------------------------------------- routing the arguments of a step

  function Arguments(indexes: seq<nat>): (r: seq<Location>)
    ensures |r| == |indexes|
  {
    seq(|indexes|, i requires 0 <= i < |indexes| => Argument(indexes[i]))
  }

  function Results(indexes: seq<nat>): (r: seq<Location>)
    ensures |r| == |indexes|
  {
    seq(|indexes|, i requires 0 <= i < |indexes| => Result(indexes[i]))
  }

  function PoolLocation(sub: Model, e: (nat, nat), offsets: map<nat, nat>): Location {
    if e.0 in offsets && e.1 < |sub.operands|
    then Pool(offsets[e.0], SizeOfData(sub.operands[e.1].ty)) else Unspecified
  }

  function Pools(sub: Model, v: RemapVector, offsets: map<nat, nat>): (r: seq<Location>)
    ensures |r| == |v|
  {
    seq(|v|, i requires 0 <= i < |v| => PoolLocation(sub, v[i], offsets))
  }

  function InputLocations(r: FinishedStep, offsets: map<nat, nat>): seq<Location> {
    Arguments(r.inputIndexes) +
    (Pools(r.subModel, r.roles.tempsAsSubModelInputs, offsets) + Results(r.outputsAsInputsIndexes))
  }

  function OutputLocations(r: FinishedStep, offsets: map<nat, nat>): seq<Location> {
    Results(r.outputIndexes) + Pools(r.subModel, r.exports, offsets)
  }

  function Overwrite<T>(s: seq<T>, at: nat, v: seq<T>): (r: seq<T>)
    requires at + |v| <= |s|
    ensures |r| == |s|
  {
    s[..at] + v + s[at+|v|..]
  }

  lemma OverwriteNext<T>(s: seq<T>, at: nat, v: seq<T>, i: nat)
    requires at + |v| <= |s| && i < |v|
    ensures Overwrite(s, at, v[..i])[at + i := v[i]] == Overwrite(s, at, v[..i+1])
  {
  }

  /** Lists and submodel of a step fit together, and everything it routes through the pool has an offset. */
  ghost predicate Routable(r: FinishedStep, offsets: map<nat, nat>) {
    && r.subModel.inputIndexes == InputList(r.roles) && r.subModel.outputIndexes == OutputList(r.roles, r.exports)
    && |r.inputIndexes| == |r.roles.modelInputs| && |r.outputIndexes| == |r.roles.modelOutputs|
    && |r.outputsAsInputsIndexes| == |r.roles.outputsAsSubModelInputs|
    && (forall i :: 0 <= i < |r.exports| ==> r.exports[i].0 in offsets && r.exports[i].1 < |r.subModel.operands|)
    && (forall i :: 0 <= i < |r.roles.tempsAsSubModelInputs| ==>
          && r.roles.tempsAsSubModelInputs[i].0 in offsets
          && r.roles.tempsAsSubModelInputs[i].1 < |r.subModel.operands|)
  }

  class StepExecutor {
    const model: Model
    const device: nat
    /** Position of a step's output in the original model's list; absent for a whole model. */
    const outputIndexes: seq<nat>
    const whole: bool
    var inputs: seq<Location>
    var outputs: seq<Location>

    constructor (model: Model, device: nat, outputIndexes: seq<nat>, whole: bool)
      ensures this.model == model && this.device == device
      ensures this.outputIndexes == outputIndexes && this.whole == whole
      ensures inputs == seq(|model.inputIndexes|, i => Unspecified)
      ensures outputs == seq(|model.outputIndexes|, i => Unspecified)
    {
      this.model, this.device, this.outputIndexes, this.whole := model, device, outputIndexes, whole;
      inputs := seq(|model.inputIndexes|, i => Unspecified);
      outputs := seq(|model.outputIndexes|, i => Unspecified);
    }

    /** The executor works on the whole model: its arguments are those of the caller. */
    method MapInputsAndOutputsTrivially()
      modifies this
      ensures inputs == Arguments(Identity(|model.inputIndexes|))
      ensures outputs == Results(Identity(|model.outputIndexes|))
    {
      inputs := Arguments(Identity(|model.inputIndexes|));
      outputs := Results(Identity(|model.outputIndexes|));
    }

    method MapInputsAndOutputs(inputIndexes: seq<nat>)
      requires |inputIndexes| <= |inputs| && |outputIndexes| <= |outputs|
      modifies this
      ensures inputs == Overwrite(old(inputs), 0, Arguments(inputIndexes))
      ensures outputs == Overwrite(old(outputs), 0, Results(outputIndexes))
    {
      for i := 0 to |inputIndexes|
        invariant inputs == Overwrite(old(inputs), 0, Arguments(inputIndexes)[..i]) && outputs == old(outputs)
      {
        OverwriteNext(old(inputs), 0, Arguments(inputIndexes), i);
        inputs := inputs[i := Argument(inputIndexes[i])];
      }
      for i := 0 to |outputIndexes|
        invariant outputs == Overwrite(old(outputs), 0, Results(outputIndexes)[..i])
        invariant inputs == Overwrite(old(inputs), 0, Arguments(inputIndexes))
      {
        OverwriteNext(old(outputs), 0, Results(outputIndexes), i);
        outputs := outputs[i := Result(outputIndexes[i])];
      }
    }

    method SetOutputFromTemporaryMemory(index: nat, offset: nat)
      requires index < |outputs| && index < |model.outputIndexes| && model.outputIndexes[index] < |model.operands|
      modifies this`outputs
      ensures outputs == old(outputs)[index := Pool(offset, SizeOfData(model.operands[model.outputIndexes[index]].ty))]
    {
      outputs := outputs[index := Pool(offset, SizeOfData(model.operands[model.outputIndexes[index]].ty))];
    }

    method SetInputFromTemporaryMemory(index: nat, offset: nat)
      requires index < |inputs| && index < |model.inputIndexes| && model.inputIndexes[index] < |model.operands|
      modifies this`inputs
      ensures inputs == old(inputs)[index := Pool(offset, SizeOfData(model.operands[model.inputIndexes[index]].ty))]
    {
      inputs := inputs[index := Pool(offset, SizeOfData(model.operands[model.inputIndexes[index]].ty))];
    }

    /** Tells the executor about temporaries that the step exports. */
    method RouteExports(v: RemapVector, first: nat, offsets: map<nat, nat>)
      requires first + |v| <= |outputs| && first + |v| <= |model.outputIndexes|
      requires forall i :: 0 <= i < |v| ==>
                 v[i].0 in offsets && v[i].1 < |model.operands| && model.outputIndexes[first + i] == v[i].1
      modifies this`outputs
      ensures outputs == Overwrite(old(outputs), first, Pools(model, v, offsets))
    {
      for i := 0 to |v|
        invariant outputs == Overwrite(old(outputs), first, Pools(model, v, offsets)[..i])
      {
        OverwriteNext(old(outputs), first, Pools(model, v, offsets), i);
        SetOutputFromTemporaryMemory(first + i, offsets[v[i].0]);
      }
    }

    /** Tells the executor about temporaries that the step reads from other steps. */
    method RouteTemporaries(v: RemapVector, first: nat, offsets: map<nat, nat>)
      requires first + |v| <= |inputs| && first + |v| <= |model.inputIndexes|
      requires forall i :: 0 <= i < |v| ==>
                 v[i].0 in offsets && v[i].1 < |model.operands| && model.inputIndexes[first + i] == v[i].1
      modifies this`inputs
      ensures inputs == Overwrite(old(inputs), first, Pools(model, v, offsets))
    {
      for i := 0 to |v|
        invariant inputs == Overwrite(old(inputs), first, Pools(model, v, offsets)[..i])
      {
        OverwriteNext(old(inputs), first, Pools(model, v, offsets), i);
        SetInputFromTemporaryMemory(first + i, offsets[v[i].0]);
      }
    }

    /** Tells the executor about model outputs that the step reads. */
    method MapOutputsToInputs(indexes: seq<nat>, first: nat)
      requires first + |indexes| <= |inputs|
      modifies this`inputs
      ensures inputs == Overwrite(old(inputs), first, Results(indexes))
    {
      for i := 0 to |indexes|
        invariant inputs == Overwrite(old(inputs), first, Results(indexes)[..i])
      {
        OverwriteNext(old(inputs), first, Results(indexes), i);
        inputs := inputs[first + i := Result(indexes[i])];
      }
    }
  }

  lemma ThreeParts<T>(s: seq<T>, a: seq<T>, b: seq<T>, c: seq<T>)
    requires |s| == |a| + |b| + |c|
    ensures Overwrite(Overwrite(Overwrite(s, 0, a), |a|, b), |a| + |b|, c) == a + (b + c)
  {
  }

  lemma TwoParts<T>(s: seq<T>, a: seq<T>, b: seq<T>)
    requires |s| == |a| + |b|
    ensures Overwrite(Overwrite(s, 0, a), |a|, b) == a + b
  {
  }

  // ---------------------------------------------------------------- controller

  const BAD_STEP_INDEX: nat := 0xFFFF_FFFF_FFFF_FFFF

  function StepCount(body: PlanBody): nat {
    match body
    case Empty => 0
    case Simple(_, _) => 1
    case Compound(steps) => |steps|
  }

  class Controller {
    const body: PlanBody
    /** Offset of each temporary that crosses a partition boundary. */
    const offsets: map<nat, nat>
    const totalSizeOfTemporaries: nat
    var nextStepIndex: nat

    ghost predicate Valid()
      reads this
    {
      && StepCount(body) < BAD_STEP_INDEX
      && (nextStepIndex <= StepCount(body) || nextStepIndex == BAD_STEP_INDEX)
      && (body.Compound? ==> forall t :: 0 <= t < |body.steps| ==> Routable(body.steps[t], offsets))
    }

    /** `available` tells whether the memory for a nonempty pool could be had. */
    constructor (body: PlanBody, offsets: map<nat, nat>, total: nat, available: bool)
      ensures this.body == body && this.offsets == offsets && totalSizeOfTemporaries == total
      ensures nextStepIndex == if total != 0 && !available then BAD_STEP_INDEX else 0
    {
      this.body, this.offsets, totalSizeOfTemporaries := body, offsets, total;
      nextStepIndex := if total != 0 && !available then BAD_STEP_INDEX else 0;
    }

    /** The executor of step `t`, and what its arguments are. */
    ghost predicate Executes(executor: StepExecutor, t: nat)
      requires t < StepCount(body)
      reads executor
    {
      match body
      case Simple(model, device) =>
        && executor.model == model && executor.device == device && executor.whole
        && executor.inputs == Arguments(Identity(|model.inputIndexes|))
        && executor.outputs == Results(Identity(|model.outputIndexes|))
      case Compound(steps) =>
        && executor.model == steps[t].subModel && executor.device == steps[t].device
        && !executor.whole && executor.outputIndexes == steps[t].outputIndexes
        && executor.inputs == InputLocations(steps[t], offsets)
        && executor.outputs == OutputLocations(steps[t], offsets)
    }

    /** The executor of the next step; none after the last step. */
    method Next() returns (executor: StepExecutor?, code: ResultCode)
      requires Valid()
      modifies this
      ensures Valid()
      ensures old(nextStepIndex) == BAD_STEP_INDEX ==>
                code == OpFailed && executor == null && nextStepIndex == BAD_STEP_INDEX
      ensures old(nextStepIndex) == StepCount(body) ==>
                code == NoError && executor == null && nextStepIndex == BAD_STEP_INDEX
      ensures old(nextStepIndex) < StepCount(body) ==>
                && code == NoError && executor != null && fresh(executor)
                && nextStepIndex == old(nextStepIndex) + 1
                && Executes(executor, old(nextStepIndex))
    {
      executor := null;
      if nextStepIndex == BAD_STEP_INDEX { return null, OpFailed; }
      if body.Empty? {
        nextStepIndex := BAD_STEP_INDEX;
        return null, NoError;
      }
      if body.Simple? {
        if nextStepIndex == 0 {
          executor := new StepExecutor(body.model, body.device, [], true);
          executor.MapInputsAndOutputsTrivially();
          nextStepIndex := 1;
          return executor, NoError;
        }
        nextStepIndex := BAD_STEP_INDEX;
        return null, NoError;
      }
      if nextStepIndex == |body.steps| {
        nextStepIndex := BAD_STEP_INDEX;
        return null, NoError;
      }
      executor := MakeExecutor(body.steps[nextStepIndex]);
      nextStepIndex := nextStepIndex + 1;
      code := NoError;
    }

    method MakeExecutor(step: FinishedStep) returns (executor: StepExecutor)
      requires Routable(step, offsets)
      ensures fresh(executor)
      ensures executor.model == step.subModel && executor.device == step.device
      ensures !executor.whole && executor.outputIndexes == step.outputIndexes
      ensures executor.inputs == InputLocations(step, offsets)
      ensures executor.outputs == OutputLocations(step, offsets)
    {
      executor := new StepExecutor(step.subModel, step.device, step.outputIndexes, false);
      ghost var ins, outs := executor.inputs, executor.outputs;
      executor.MapInputsAndOutputs(step.inputIndexes);
      executor.RouteExports(step.exports, |step.roles.modelOutputs|, offsets);
      executor.RouteTemporaries(step.roles.tempsAsSubModelInputs, |step.roles.modelInputs|, offsets);
      executor.MapOutputsToInputs(step.outputsAsInputsIndexes,
                                  |step.roles.modelInputs| + |step.roles.tempsAsSubModelInputs|);
      ThreeParts(ins, Arguments(step.inputIndexes), Pools(step.subModel, step.roles.tempsAsSubModelInputs, offsets),
                 Results(step.outputsAsInputsIndexes));
      TwoParts(outs, Results(step.outputIndexes), Pools(step.subModel, step.exports, offsets));
    }

    /** Makes the executor of the last step again. */
    method Fallback() returns (executor: StepExecutor?, code: ResultCode)
      requires Valid()
      modifies this
      ensures Valid()
      ensures old(nextStepIndex) == 0 || old(nextStepIndex) == BAD_STEP_INDEX ==>
                code == OpFailed && executor == null && nextStepIndex == old(nextStepIndex)
      ensures 0 < old(nextStepIndex) <= StepCount(body) ==>
                && code == NoError && executor != null && fresh(executor)
                && nextStepIndex == old(nextStepIndex)
                && Executes(executor, old(nextStepIndex) - 1)
    {
      if nextStepIndex == 0 { return null, OpFailed; }
      if nextStepIndex == BAD_STEP_INDEX { return null, OpFailed; }
      nextStepIndex := nextStepIndex - 1;
      executor, code := Next();
    }
  }
}
