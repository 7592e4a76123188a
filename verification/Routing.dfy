/** A finished compound plan: what its steps exchange, and where. */
module Routing {
  import opened Sequences
  import opened Models
  import opened RunOrder
  import opened ModelBuilding
  import opened Cycles
  import opened Sorting
  import opened SubModels
  import opened Stepping
  import opened Partitioning
  import opened Boundary
  import opened Exporting
  import opened Finishing
  import opened PlanFinishing
  import opened DeviceChoice
  import opened Layout
  import opened Controlling
  import opened Execution

  /** A compound plan that was made for a model. */
  datatype Plan = Plan(model: Model, best: seq<nat>, stepOps: seq<seq<nat>>, devices: seq<nat>,
                       defs: map<nat, nat>, steps: seq<FinishedStep>)

  ghost predicate ValidPlan(p: Plan) {
    && Executable(p.model)
    && IsCompound(p.model, p.best, p.stepOps, p.devices, p.defs, p.steps)
    && AllRead(p.model)
  }

  function StateOf(p: Plan, t: nat): StepState
    requires t < |p.stepOps|
  {
    BuildStep(p.model, p.stepOps[t])
  }

  /** What a step reads from outside, in the order of the submodel's inputs. */
  function InPairs(r: FinishedStep): RemapVector {
    r.roles.modelInputs + (r.roles.tempsAsSubModelInputs + r.roles.outputsAsSubModelInputs)
  }

  function OutPairs(r: FinishedStep): RemapVector {
    r.roles.modelOutputs + r.exports
  }

  lemma StepFacts(p: Plan, t: nat)
    requires ValidPlan(p) && t < |p.steps|
    ensures StepComplete(p.model, p.stepOps[t], StateOf(p, t), p.steps[t].exports)
    ensures StepFinished(p.model, p.stepOps[t], p.devices[t], p.steps[t].exports, p.steps[t])
    ensures p.steps[t].exports == ExportsOf(p.model, p.stepOps, p.defs, t)
  {
    PartitionStepComplete(p.model, p.best, p.stepOps, p.devices, p.defs, t);
  }

  /** The lists of a finished step. */
  lemma StepLists(p: Plan, t: nat)
    requires ValidPlan(p) && t < |p.steps|
    ensures p.steps[t].subModel.inputIndexes == InputList(p.steps[t].roles)
    ensures p.steps[t].subModel.outputIndexes == OutputList(p.steps[t].roles, p.steps[t].exports)
    ensures IndexesName(p.steps[t].roles.modelInputs, p.steps[t].inputIndexes, p.model.inputIndexes)
    ensures IndexesName(p.steps[t].roles.modelOutputs, p.steps[t].outputIndexes, p.model.outputIndexes)
    ensures IndexesName(p.steps[t].roles.outputsAsSubModelInputs, p.steps[t].outputsAsInputsIndexes,
                        p.model.outputIndexes)
  {
    StepFacts(p, t);
  }

  lemma SecondsConcat(v: RemapVector, w: RemapVector)
    ensures Seconds(v + w) == Seconds(v) + Seconds(w)
  {
  }

  /** Submodel inputs and outputs are listed in the order of the pairs. */
  lemma PairOrder(p: Plan, t: nat)
    requires ValidPlan(p) && t < |p.steps|
    ensures p.steps[t].subModel.inputIndexes == Seconds(InPairs(p.steps[t]))
    ensures p.steps[t].subModel.outputIndexes == Seconds(OutPairs(p.steps[t]))
  {
    StepLists(p, t);
    var r := p.steps[t].roles;
    SecondsConcat(r.tempsAsSubModelInputs, r.outputsAsSubModelInputs);
    SecondsConcat(r.modelInputs, r.tempsAsSubModelInputs + r.outputsAsSubModelInputs);
    SecondsConcat(r.modelOutputs, p.steps[t].exports);
  }

  /** Every pair names an operand of the original model and its copy in the submodel. */
  lemma PairNames(p: Plan, t: nat, e: (nat, nat))
    requires ValidPlan(p) && t < |p.steps|
    requires e in InPairs(p.steps[t]) || e in OutPairs(p.steps[t])
    ensures e.0 < |p.model.operands| && e.1 < |StateOf(p, t).origins| && StateOf(p, t).origins[e.1].operand == e.0
    ensures e.1 < |p.steps[t].subModel.operands| && p.steps[t].subModel.operands[e.1].ty == p.model.operands[e.0].ty
  {
    StepFacts(p, t);
    var s := StateOf(p, t);
    PickMember(p.model, s.origins, ModelInput, Input, e);
    PickMember(p.model, s.origins, TemporaryVariable, Input, e);
    PickMember(p.model, s.origins, ModelOutput, Input, e);
    PickMember(p.model, s.origins, ModelOutput, Output, e);
    SubLifetime(p.model, s, p.steps[t].exports, e.1);
  }

  // ---------------------------------------------------------------- exports

  lemma ExportDefined(p: Plan, t: nat, e: (nat, nat))
    requires ValidPlan(p) && t < |p.steps|
    ensures e in p.steps[t].exports ==>
              e.0 in p.defs && p.defs[e.0] == t && HasLifeTime(p.model, e.0, TemporaryVariable)
  {
    StepFacts(p, t);
    ExportedExact(p.defs, StateOf(p, t).operandMap, t, Requests(p.model, p.stepOps));
  }

  /** A temporary that a step reads from another step is exported by an earlier one. */
  lemma TemporaryExported(p: Plan, t: nat, e: (nat, nat)) returns (d: nat, x: (nat, nat))
    requires ValidPlan(p) && t < |p.steps| && e in p.steps[t].roles.tempsAsSubModelInputs
    ensures d < t && x in p.steps[d].exports && x.0 == e.0
  {
    StepFacts(p, t);
    RequestDefined(p.model, p.best, p.stepOps, p.devices, p.defs, t, e);
    d := p.defs[e.0];
    StepFacts(p, d);
    RequestMember(p.model, p.stepOps, e.0);
    x := (e.0, StateOf(p, d).operandMap[e.0]);
    ExportedExact(p.defs, StateOf(p, d).operandMap, d, Requests(p.model, p.stepOps));
  }

  lemma {:induction false} CrossingMember(steps: seq<FinishedStep>, o: nat)
    ensures o in Crossing(steps) <==> exists t, e :: 0 <= t < |steps| && e in steps[t].exports && e.0 == o
  {
    if steps != [] {
      var n := |steps| - 1;
      CrossingMember(steps[..n], o);
      FirstsMember(steps[n].exports, o);
      assert steps == steps[..n] + [steps[n]];
    }
  }

  lemma ExportedCrosses(p: Plan, t: nat, i: nat)
    requires ValidPlan(p) && t < |p.steps| && i < |p.steps[t].exports|
    ensures p.steps[t].exports[i].0 in Crossing(p.steps)
  {
    assert p.steps[t].exports[i] in p.steps[t].exports;
    CrossingMember(p.steps, p.steps[t].exports[i].0);
  }

  /** What a step exports was not exported by an earlier step. */
  lemma ExportNew(p: Plan, n: nat, o: nat)
    requires ValidPlan(p) && n < |p.steps| && o in Crossing(p.steps[..n])
    ensures o !in Firsts(p.steps[n].exports)
  {
    hide ValidPlan;
    CrossingMember(p.steps[..n], o);
    var t, e :| 0 <= t < n && e in p.steps[..n][t].exports && e.0 == o;
    ExportDefined(p, t, e);
    FirstsMember(p.steps[n].exports, o);
    forall x | x in p.steps[n].exports ensures x.0 != o { ExportDefined(p, n, x); }
  }

  lemma ExportsDistinct(p: Plan, t: nat)
    requires ValidPlan(p) && t < |p.steps|
    ensures NoDup(Firsts(p.steps[t].exports))
  {
    StepFacts(p, t);
    AscendingFirsts(p.steps[t].exports);
  }

  lemma AscendingFirsts(v: RemapVector)
    requires AscendingPairs(v)
    ensures NoDup(Firsts(v))
  {
    forall i, j | 0 <= i < j < |v| ensures Firsts(v)[i] != Firsts(v)[j] {
      assert v[i].0 < v[j].0;
    }
  }

  /** Step `t` exports each temporary once, and none that an earlier step exports. */
  ghost predicate NewExports(steps: seq<FinishedStep>, t: nat)
    requires t < |steps|
  {
    NoDup(Firsts(steps[t].exports)) && forall o: nat :: o in Crossing(steps[..t]) ==> o !in Firsts(steps[t].exports)
  }

  lemma ExportsNew(p: Plan, t: nat)
    requires ValidPlan(p) && t < |p.steps|
    ensures NewExports(p.steps, t)
  {
    ExportsDistinct(p, t);
    forall o: nat | o in Crossing(p.steps[..t]) ensures o !in Firsts(p.steps[t].exports) { ExportNew(p, t, o); }
  }

  lemma {:induction false} CrossingOnce(steps: seq<FinishedStep>, n: nat)
    requires n <= |steps| && forall t :: 0 <= t < n ==> NewExports(steps, t)
    ensures NoDup(Crossing(steps[..n]))
  {
    if n > 0 {
      CrossingOnce(steps, n - 1);
      CrossingNext(steps, n - 1);
      assert NewExports(steps, n - 1);
      SplitNoDup(Crossing(steps[..n-1]), Firsts(steps[n-1].exports));
    }
  }

  /** Every temporary that crosses a boundary is exported once. */
  lemma CrossingNoDup(p: Plan)
    requires ValidPlan(p)
    ensures NoDup(Crossing(p.steps))
  {
    forall t | 0 <= t < |p.steps| ensures NewExports(p.steps, t) { ExportsNew(p, t); }
    CrossingOnce(p.steps, |p.steps|);
    assert p.steps[..|p.steps|] == p.steps;
  }

  /** The preconditions of laying out the pool hold. */
  lemma LayoutReady(p: Plan)
    requires ValidPlan(p)
    ensures NoDup(Crossing(p.steps)) && ExportsInRange(p.model, p.steps)
  {
    CrossingNoDup(p);
    forall t, i | 0 <= t < |p.steps| && 0 <= i < |p.steps[t].exports|
      ensures p.steps[t].exports[i].0 < |p.model.operands|
    {
      ExportDefined(p, t, p.steps[t].exports[i]);
    }
  }

  /** Routing never looks up a temporary that has no place in the pool. */
  lemma StepRoutable(p: Plan, offsets: map<nat, nat>, total: nat, t: nat)
    requires ValidPlan(p) && LaidOut(p.model, Crossing(p.steps), offsets, total) && t < |p.steps|
    ensures Routable(p.steps[t], offsets)
  {
    var r := p.steps[t];
    StepFacts(p, t);
    forall i | 0 <= i < |r.exports|
      ensures r.exports[i].0 in offsets && r.exports[i].1 < |r.subModel.operands|
    {
      ExportedCrosses(p, t, i);
      PairNames(p, t, r.exports[i]);
    }
    forall i | 0 <= i < |r.roles.tempsAsSubModelInputs|
      ensures r.roles.tempsAsSubModelInputs[i].0 in offsets
      ensures r.roles.tempsAsSubModelInputs[i].1 < |r.subModel.operands|
    {
      var e := r.roles.tempsAsSubModelInputs[i];
      assert e in InPairs(r);
      PairNames(p, t, e);
      var d, x := TemporaryExported(p, t, e);
      CrossingMember(p.steps, e.0);
    }
  }

  // ---------------------------------------------------------------- locations

  /** Where the value of an operand of the original model is kept between steps. */
  predicate Home(m: Model, offsets: map<nat, nat>, o: nat, loc: Location) {
    match loc
    case Argument(i) => i < |m.inputIndexes| && m.inputIndexes[i] == o
    case Result(i) => i < |m.outputIndexes| && m.outputIndexes[i] == o
    case Pool(offset, length) =>
      o in offsets && offset == offsets[o] && o < |m.operands| && length == SizeOfData(m.operands[o].ty)
    case Unspecified => false
  }

  /** An indirect argument is at home in the pool. */
  lemma PoolHome(p: Plan, offsets: map<nat, nat>, t: nat, e: (nat, nat))
    requires ValidPlan(p) && t < |p.steps| && (e in InPairs(p.steps[t]) || e in OutPairs(p.steps[t]))
    requires e.0 in offsets
    ensures PoolLocation(p.steps[t].subModel, e, offsets).Pool?
    ensures Home(p.model, offsets, e.0, PoolLocation(p.steps[t].subModel, e, offsets))
  {
    PairNames(p, t, e);
  }

  /** The input at position `i` is of one of three sorts. */
  lemma InputAt(r: FinishedStep, offsets: map<nat, nat>, i: nat)
    requires Routable(r, offsets) && i < |InPairs(r)|
    ensures |InputLocations(r, offsets)| == |InPairs(r)|
    ensures var e, loc := InPairs(r)[i], InputLocations(r, offsets)[i];
            var n, k := |r.roles.modelInputs|, |r.roles.tempsAsSubModelInputs|;
            if i < n then e == r.roles.modelInputs[i] && loc == Argument(r.inputIndexes[i])
            else if i < n + k then
              && e == r.roles.tempsAsSubModelInputs[i-n] && e in r.roles.tempsAsSubModelInputs
              && e.0 in offsets && loc == PoolLocation(r.subModel, e, offsets)
            else
              && i < n + k + |r.roles.outputsAsSubModelInputs|
              && e == r.roles.outputsAsSubModelInputs[i-n-k] && e in r.roles.outputsAsSubModelInputs
              && loc == Result(r.outputsAsInputsIndexes[i-n-k])
  {
  }

  lemma OutputAt(r: FinishedStep, offsets: map<nat, nat>, i: nat)
    requires Routable(r, offsets) && i < |OutPairs(r)|
    ensures |OutputLocations(r, offsets)| == |OutPairs(r)|
    ensures var e, loc := OutPairs(r)[i], OutputLocations(r, offsets)[i];
            var n := |r.roles.modelOutputs|;
            if i < n then e == r.roles.modelOutputs[i] && loc == Result(r.outputIndexes[i])
            else
              && i < n + |r.exports| && e == r.exports[i-n] && e in r.exports
              && e.0 in offsets && loc == PoolLocation(r.subModel, e, offsets)
  {
  }

  /** The positions that `next` uses name the operands that the finished submodel lists there. */
  lemma InputHome(p: Plan, offsets: map<nat, nat>, total: nat, t: nat, i: nat)
    requires ValidPlan(p) && LaidOut(p.model, Crossing(p.steps), offsets, total) && t < |p.steps|
    requires i < |InPairs(p.steps[t])|
    ensures |InputLocations(p.steps[t], offsets)| == |InPairs(p.steps[t])|
    ensures Home(p.model, offsets, InPairs(p.steps[t])[i].0, InputLocations(p.steps[t], offsets)[i])
    ensures InputLocations(p.steps[t], offsets)[i].Pool? ==>
              InPairs(p.steps[t])[i] in p.steps[t].roles.tempsAsSubModelInputs
    ensures InputLocations(p.steps[t], offsets)[i].Result? ==>
              && InPairs(p.steps[t])[i] in p.steps[t].roles.outputsAsSubModelInputs
              && InputLocations(p.steps[t], offsets)[i].index in p.steps[t].outputsAsInputsIndexes
  {
    StepLists(p, t);
    StepRoutable(p, offsets, total, t);
    InputAt(p.steps[t], offsets, i);
    var e := InPairs(p.steps[t])[i];
    assert e in InPairs(p.steps[t]);
    if e.0 in offsets { PoolHome(p, offsets, t, e); }
  }

  lemma OutputHome(p: Plan, offsets: map<nat, nat>, total: nat, t: nat, i: nat)
    requires ValidPlan(p) && LaidOut(p.model, Crossing(p.steps), offsets, total) && t < |p.steps|
    requires i < |OutPairs(p.steps[t])|
    ensures |OutputLocations(p.steps[t], offsets)| == |OutPairs(p.steps[t])|
    ensures Home(p.model, offsets, OutPairs(p.steps[t])[i].0, OutputLocations(p.steps[t], offsets)[i])
    ensures if i < |p.steps[t].roles.modelOutputs| then OutputLocations(p.steps[t], offsets)[i].Result?
            else OutputLocations(p.steps[t], offsets)[i].Pool?
  {
    StepLists(p, t);
    StepRoutable(p, offsets, total, t);
    OutputAt(p.steps[t], offsets, i);
    var e := OutPairs(p.steps[t])[i];
    assert e in OutPairs(p.steps[t]);
    if e.0 in offsets { PoolHome(p, offsets, t, e); }
  }

  lemma PoolsApart(m: Model, os: seq<nat>, offsets: map<nat, nat>, total: nat, i: nat, j: nat)
    requires LaidOut(m, os, offsets, total) && Total(SizesOf(m, os)) < UINT32_LIMIT
    requires i < |os| && j < |os| && i != j
    ensures Apart(offsets[os[i]], SizesOf(m, os)[i], offsets[os[j]], SizesOf(m, os)[j])
  {
    SoundWithoutWrap(SizesOf(m, os));
    if i < j {
      assert Apart(WrappedOffsets(SizesOf(m, os))[i], SizesOf(m, os)[i], WrappedOffsets(SizesOf(m, os))[j],
                   SizesOf(m, os)[j]);
    } else {
      assert Apart(WrappedOffsets(SizesOf(m, os))[j], SizesOf(m, os)[j], WrappedOffsets(SizesOf(m, os))[i],
                   SizesOf(m, os)[i]);
    }
  }

  /** Different operands have disjoint homes, if the pool did not wrap around. */
  lemma HomesDisjoint(m: Model, os: seq<nat>, offsets: map<nat, nat>, total: nat, a: nat, b: nat, x: Location,
                      y: Location)
    requires LaidOut(m, os, offsets, total) && Total(SizesOf(m, os)) < UINT32_LIMIT
    requires Home(m, offsets, a, x) && Home(m, offsets, b, y) && a != b && !y.Argument?
    ensures Disjoint(x, y)
  {
    if x.Pool? && y.Pool? {
      assert a in Elements(os) && b in Elements(os);
      var i :| 0 <= i < |os| && os[i] == a;
      var j :| 0 <= j < |os| && os[j] == b;
      PoolsApart(m, os, offsets, total, i, j);
    }
  }

  /** A home in the pool lies inside the pool. */
  lemma HomeInside(m: Model, os: seq<nat>, offsets: map<nat, nat>, total: nat, o: nat, loc: Location)
    requires LaidOut(m, os, offsets, total) && Total(SizesOf(m, os)) < UINT32_LIMIT
    requires Home(m, offsets, o, loc) && loc.Pool?
    ensures loc.offset + loc.length <= total
  {
    assert o in Elements(os);
    var i :| 0 <= i < |os| && os[i] == o;
    NotWrapped(SizesOf(m, os), i);
    WrapSmall(Total(SizesOf(m, os)));
  }

  /** An operand has one home of each sort. */
  lemma HomeUnique(m: Model, offsets: map<nat, nat>, o: nat, x: Location, y: Location)
    requires NoDup(m.inputIndexes) && NoDup(m.outputIndexes)
    requires Home(m, offsets, o, x) && Home(m, offsets, o, y)
    requires (x.Argument? && y.Argument?) || (x.Result? && y.Result?) || (x.Pool? && y.Pool?)
    ensures x == y
  {
  }

  /** No input of a step is among its outputs. */
  lemma InputsApart(p: Plan, t: nat, i: nat, k: nat)
    requires ValidPlan(p) && t < |p.steps| && i < |InPairs(p.steps[t])| && k < |OutPairs(p.steps[t])|
    ensures InPairs(p.steps[t])[i].0 != OutPairs(p.steps[t])[k].0
  {
    StepFacts(p, t);
    var r, s := p.steps[t], StateOf(p, t);
    var e, x := InPairs(r)[i], OutPairs(r)[k];
    assert e in InPairs(r) && x in OutPairs(r);
    PairNames(p, t, e);
    PairNames(p, t, x);
    PickMember(p.model, s.origins, ModelInput, Input, e);
    PickMember(p.model, s.origins, TemporaryVariable, Input, e);
    PickMember(p.model, s.origins, ModelOutput, Input, e);
    PickMember(p.model, s.origins, ModelOutput, Output, x);
  }

  /** Different steps write different operands. */
  lemma OutputsApart(p: Plan, t: nat, k: nat, u: nat, l: nat)
    requires ValidPlan(p) && t < u < |p.steps| && k < |OutPairs(p.steps[t])| && l < |OutPairs(p.steps[u])|
    ensures OutPairs(p.steps[t])[k].0 != OutPairs(p.steps[u])[l].0
  {
    var a, b := OutPairs(p.steps[t])[k].0, OutPairs(p.steps[u])[l].0;
    OutputWritten(p, t, k);
    OutputWritten(p, u, l);
    if a == b { OneWriterStep(p.model, p.stepOps, t, u, a); }
  }

  /** What a step lists as an output is written by it. */
  lemma OutputWritten(p: Plan, t: nat, k: nat)
    requires ValidPlan(p) && t < |p.steps| && k < |OutPairs(p.steps[t])|
    ensures OutPairs(p.steps[t])[k].0 in Outs(p.model, p.stepOps[t])
  {
    StepFacts(p, t);
    var r, s := p.steps[t], StateOf(p, t);
    var e := OutPairs(r)[k];
    assert e in OutPairs(r);
    PairNames(p, t, e);
    PickMember(p.model, s.origins, ModelOutput, Output, e);
  }
}
