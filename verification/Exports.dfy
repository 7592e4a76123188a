/** Working out which temporaries each step has to hand to other steps. */
module Exporting {
  import opened Sequences
  import opened Models
  import opened RunOrder
  import opened ModelBuilding
  import opened SubModels
  import opened Stepping
  import opened Partitioning
  import opened Boundary

  function Firsts(v: RemapVector): seq<nat> {
    seq(|v|, i requires 0 <= i < |v| => v[i].0)
  }

  /** Temporaries that steps read from other steps, in the order the plan asks for them. */
  function Requests(m: Model, stepOps: seq<seq<nat>>): seq<nat> {
    if stepOps == [] then []
    else Requests(m, stepOps[..|stepOps|-1]) + Firsts(BuildStep(m, stepOps[|stepOps|-1]).roles.tempsAsSubModelInputs)
  }

  /** What step `t` exports once the requests were recorded. */
  function Exported(defs: map<nat, nat>, operandMap: map<nat, nat>, t: nat, requests: seq<nat>): RemapVector {
    if requests == [] then []
    else
      var o := requests[|requests|-1];
      var before := Exported(defs, operandMap, t, requests[..|requests|-1]);
      if o in defs && defs[o] == t && o in operandMap then InsertExport(before, (o, operandMap[o])) else before
  }

  /** A step exports exactly the requested temporaries that it defines, in ascending order. */
  lemma {:induction false} ExportedExact(defs: map<nat, nat>, operandMap: map<nat, nat>, t: nat, requests: seq<nat>)
    ensures AscendingPairs(Exported(defs, operandMap, t, requests))
    ensures forall e :: e in Exported(defs, operandMap, t, requests) <==>
              && e.0 in requests && e.0 in defs && defs[e.0] == t
              && e.0 in operandMap && e.1 == operandMap[e.0]
  {
    if requests != [] {
      var n := |requests| - 1;
      ExportedExact(defs, operandMap, t, requests[..n]);
      assert requests == requests[..n] + [requests[n]];
      var o := requests[n];
      if o in operandMap {
        var before := Exported(defs, operandMap, t, requests[..n]);
        InsertExportAscending(before, (o, operandMap[o]));
        forall x ensures x in InsertExport(before, (o, operandMap[o])) <==> x in before || x == (o, operandMap[o]) {
          InsertExportMember(before, (o, operandMap[o]), x);
        }
      }
    }
  }

  lemma ExportedNext(defs: map<nat, nat>, operandMap: map<nat, nat>, t: nat, requests: seq<nat>, o: nat)
    ensures Exported(defs, operandMap, t, requests + [o]) ==
            if o in defs && defs[o] == t && o in operandMap
            then InsertExport(Exported(defs, operandMap, t, requests), (o, operandMap[o]))
            else Exported(defs, operandMap, t, requests)
  {
    assert (requests + [o])[..|requests|] == requests;
  }

  lemma {:induction false} RequestMember(m: Model, stepOps: seq<seq<nat>>, o: nat)
    ensures o in Requests(m, stepOps) <==>
            exists t, e :: 0 <= t < |stepOps| && e in BuildStep(m, stepOps[t]).roles.tempsAsSubModelInputs && e.0 == o
  {
    hide BuildStep;
    if stepOps != [] {
      var n := |stepOps| - 1;
      RequestMember(m, stepOps[..n], o);
      var v := BuildStep(m, stepOps[n]).roles.tempsAsSubModelInputs;
      FirstsMember(v, o);
      if t, e :| 0 <= t < |stepOps| && e in BuildStep(m, stepOps[t]).roles.tempsAsSubModelInputs && e.0 == o {
        if t < n { assert stepOps[..n][t] == stepOps[t]; }
      }
      if o in Requests(m, stepOps[..n]) {
        var t, e :| 0 <= t < n && e in BuildStep(m, stepOps[..n][t]).roles.tempsAsSubModelInputs && e.0 == o;
        assert stepOps[..n][t] == stepOps[t];
      }
    }
  }

  lemma FirstsMember(v: RemapVector, o: nat)
    ensures o in Firsts(v) <==> exists e :: e in v && e.0 == o
  {
    if o in Firsts(v) {
      var i :| 0 <= i < |v| && Firsts(v)[i] == o;
      assert v[i] in v;
    }
    if e :| e in v && e.0 == o {
      var i :| 0 <= i < |v| && v[i] == e;
      assert Firsts(v)[i] == o;
    }
  }

  lemma FirstsAppend(v: RemapVector, i: nat)
    requires i < |v|
    ensures Firsts(v[..i+1]) == Firsts(v[..i]) + [v[i].0]
  {
  }

  /** Neither assert of `findTempsAsSubModelOutputs` can fire: whatever a step asks for was recorded,
    * by a strictly earlier step, which knows it. */
  lemma RequestDefined(m: Model, best: seq<nat>, stepOps: seq<seq<nat>>, devices: seq<nat>, defs: map<nat, nat>,
                       t: nat, e: (nat, nat))
    requires InRange(m) && WrittenOnce(m) && IsPartition(m, best, stepOps, devices) && DefsExact(m, stepOps, defs)
    requires t < |stepOps| && e in BuildStep(m, stepOps[t]).roles.tempsAsSubModelInputs
    ensures e.0 in defs && defs[e.0] < t
    ensures e.0 in BuildStep(m, stepOps[defs[e.0]]).operandMap
  {
    PartitionStepFresh(m, stepOps, t);
    BuildStepFacts(m, stepOps[t]);
    PickMember(m, BuildStep(m, stepOps[t]).origins, TemporaryVariable, Input, e);
    var d := DefinedEarlier(m, stepOps, t, e.1);
    FlattenIncludes(m, stepOps, d, e.0);
    OneWriterStepBoth(m, stepOps, d, defs[e.0], e.0);
    PartitionStepFresh(m, stepOps, d);
    KindsExact(m, stepOps[d]);
  }

  lemma OneWriterStepBoth(m: Model, stepOps: seq<seq<nat>>, d: nat, e: nat, o: nat)
    requires WrittenOnce(m) && NoDup(Flatten(stepOps))
    requires d < |stepOps| && e < |stepOps| && o in Outs(m, stepOps[d]) && o in Outs(m, stepOps[e])
    ensures d == e
  {
    if d <= e { OneWriterStep(m, stepOps, d, e, o); } else { OneWriterStep(m, stepOps, e, d, o); }
  }

  /** The steps after the requests so far were recorded. */
  ghost predicate StepsExport(m: Model, steps: seq<ExecutionStep>, stepOps: seq<seq<nat>>, devices: seq<nat>,
                              defs: map<nat, nat>, requests: seq<nat>)
    reads set i | 0 <= i < |steps| :: steps[i], set i | 0 <= i < |steps| :: steps[i].subModel
  {
    && |steps| == |stepOps| == |devices|
    && forall s :: 0 <= s < |steps| ==>
         && StepHolds(m, steps[s], s, stepOps[s], devices[s])
         && steps[s].tempsAsSubModelOutputs == Exported(defs, BuildStep(m, stepOps[s]).operandMap, s, requests)
  }

  method RecordRequest(m: Model, steps: seq<ExecutionStep>, defs: map<nat, nat>, fromModelIndex: nat,
                       ghost stepOps: seq<seq<nat>>, ghost devices: seq<nat>, ghost requests: seq<nat>)
    requires Separate(steps) && StepsExport(m, steps, stepOps, devices, defs, requests)
    requires fromModelIndex in defs && defs[fromModelIndex] < |steps|
    requires fromModelIndex in BuildStep(m, stepOps[defs[fromModelIndex]]).operandMap
    modifies (set i | 0 <= i < |steps| :: steps[i])`tempsAsSubModelOutputs
    ensures StepsExport(m, steps, stepOps, devices, defs, requests + [fromModelIndex])
  {
    var stepIndex := defs[fromModelIndex];
    assert StepHolds(m, steps[stepIndex], stepIndex, stepOps[stepIndex], devices[stepIndex]);
    steps[stepIndex].RecordTempAsSubModelOutput(fromModelIndex);
    forall s | 0 <= s < |steps|
      ensures StepHolds(m, steps[s], s, stepOps[s], devices[s])
      ensures steps[s].tempsAsSubModelOutputs ==
              Exported(defs, BuildStep(m, stepOps[s]).operandMap, s, requests + [fromModelIndex])
    {
      ExportedNext(defs, BuildStep(m, stepOps[s]).operandMap, s, requests, fromModelIndex);
      assert old(StepHolds(m, steps[s], s, stepOps[s], devices[s]));
    }
  }

  /** Records what one step asks for. */
  method RecordRequests(m: Model, steps: seq<ExecutionStep>, defs: map<nat, nat>, inputs: RemapVector,
                        ghost stepOps: seq<seq<nat>>, ghost devices: seq<nat>, ghost requests: seq<nat>)
    requires Separate(steps) && StepsExport(m, steps, stepOps, devices, defs, requests)
    requires forall i :: 0 <= i < |inputs| ==> Recordable(m, stepOps, defs, inputs[i].0)
    modifies (set i | 0 <= i < |steps| :: steps[i])`tempsAsSubModelOutputs
    ensures StepsExport(m, steps, stepOps, devices, defs, requests + Firsts(inputs))
  {
    ghost var recorded := requests;
    for i := 0 to |inputs|
      invariant recorded == requests + Firsts(inputs[..i])
      invariant StepsExport(m, steps, stepOps, devices, defs, recorded)
    {
      RecordRequest(m, steps, defs, inputs[i].0, stepOps, devices, recorded);
      FirstsAppend(inputs, i);
      ConcatAppend(requests, Firsts(inputs[..i]), inputs[i].0);
      recorded := recorded + [inputs[i].0];
    }
    assert inputs[..|inputs|] == inputs;
  }

  /** Some step defines the temporary and knows it. */
  ghost predicate Recordable(m: Model, stepOps: seq<seq<nat>>, defs: map<nat, nat>, o: nat) {
    o in defs && defs[o] < |stepOps| && o in BuildStep(m, stepOps[defs[o]]).operandMap
  }

  lemma RequestsRecordable(m: Model, best: seq<nat>, stepOps: seq<seq<nat>>, devices: seq<nat>, defs: map<nat, nat>,
                           t: nat)
    requires InRange(m) && WrittenOnce(m) && IsPartition(m, best, stepOps, devices) && DefsExact(m, stepOps, defs)
    requires t < |stepOps|
    ensures forall i :: 0 <= i < |BuildStep(m, stepOps[t]).roles.tempsAsSubModelInputs| ==>
              Recordable(m, stepOps, defs, BuildStep(m, stepOps[t]).roles.tempsAsSubModelInputs[i].0)
  {
    var inputs := BuildStep(m, stepOps[t]).roles.tempsAsSubModelInputs;
    forall i | 0 <= i < |inputs| ensures Recordable(m, stepOps, defs, inputs[i].0) {
      RequestDefined(m, best, stepOps, devices, defs, t, inputs[i]);
    }
  }

  lemma RequestsNext(m: Model, stepOps: seq<seq<nat>>, s: nat)
    requires s < |stepOps|
    ensures Requests(m, stepOps[..s+1]) ==
            Requests(m, stepOps[..s]) + Firsts(BuildStep(m, stepOps[s]).roles.tempsAsSubModelInputs)
  {
    assert stepOps[..s+1][..s] == stepOps[..s];
  }

  /** Before any request is recorded, nothing is exported. */
  lemma NothingExported(m: Model, steps: seq<ExecutionStep>, stepOps: seq<seq<nat>>, devices: seq<nat>,
                        defs: map<nat, nat>)
    requires StepsBuilt(m, steps, stepOps, devices)
    ensures |steps| == |stepOps| && StepsExport(m, steps, stepOps, devices, defs, [])
  {
    forall s | 0 <= s < |steps|
      ensures StepHolds(m, steps[s], s, stepOps[s], devices[s]) && steps[s].tempsAsSubModelOutputs == []
    {
      assert StepBuilt(m, steps[s], s, stepOps[s], devices[s]);
    }
  }

  lemma StepAsks(m: Model, steps: seq<ExecutionStep>, stepOps: seq<seq<nat>>, devices: seq<nat>, defs: map<nat, nat>,
                 requests: seq<nat>, s: nat)
    requires StepsExport(m, steps, stepOps, devices, defs, requests) && s < |steps|
    ensures steps[s].tempsAsSubModelInputs == BuildStep(m, stepOps[s]).roles.tempsAsSubModelInputs
  {
    assert StepHolds(m, steps[s], s, stepOps[s], devices[s]);
  }

  method FindTempsAsSubModelOutputs(m: Model, plan: ExecutionPlan,
                                    ghost best: seq<nat>, ghost stepOps: seq<seq<nat>>, ghost devices: seq<nat>)
    requires InRange(m) && WrittenOnce(m) && IsPartition(m, best, stepOps, devices)
    requires StepsBuilt(m, plan.steps, stepOps, devices) && Separate(plan.steps)
    requires DefsExact(m, stepOps, plan.defs.temporaryToDefiningStep)
    modifies (set i | 0 <= i < |plan.steps| :: plan.steps[i])`tempsAsSubModelOutputs
    ensures StepsExport(m, plan.steps, stepOps, devices, plan.defs.temporaryToDefiningStep, Requests(m, stepOps))
  {
    hide StepsExport, StepsBuilt, IsPartition, DefsExact, Separate, InRange, WrittenOnce;
    var steps, defs := plan.steps, plan.defs.temporaryToDefiningStep;
    NothingExported(m, steps, stepOps, devices, defs);
    assert stepOps[..0] == [];
    for s := 0 to |steps|
      invariant |steps| == |stepOps|
      invariant StepsExport(m, steps, stepOps, devices, defs, Requests(m, stepOps[..s]))
    {
      RequestsRecordable(m, best, stepOps, devices, defs, s);
      RequestsNext(m, stepOps, s);
      StepAsks(m, steps, stepOps, devices, defs, Requests(m, stepOps[..s]), s);
      RecordRequests(m, steps, defs, steps[s].tempsAsSubModelInputs, stepOps, devices, Requests(m, stepOps[..s]));
    }
    assert stepOps[..|stepOps|] == stepOps;
  }
}
