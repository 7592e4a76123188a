/** Which temporaries cross a partition boundary, seen from the graph. */
module Crossings {
  import opened Sequences
  import opened Models
  import opened RunOrder
  import opened ModelBuilding
  import opened SubModels
  import opened Partitioning
  import opened Boundary
  import opened Exporting
  import opened PlanFinishing

  /** One step computes the operand, and an operation of another one reads it. */
  ghost predicate Crosses(m: Model, stepOps: seq<seq<nat>>, o: nat) {
    exists s, t, j :: 0 <= s < |stepOps| && 0 <= t < |stepOps| && s != t &&
                      o in Outs(m, stepOps[s]) && j in stepOps[t] && o in InputsOf(m, j)
  }

  ghost predicate IsExported(m: Model, stepOps: seq<seq<nat>>, defs: map<nat, nat>, o: nat) {
    exists t, e :: 0 <= t < |stepOps| && e in ExportsOf(m, stepOps, defs, t) && e.0 == o
  }

  /** A temporary that crosses has no rank, or one of its dimensions is not specified. */
  ghost predicate UnknownCrosses(m: Model, stepOps: seq<seq<nat>>) {
    exists o :: 0 <= o < |m.operands| && m.operands[o].lifetime.TemporaryVariable? && Crosses(m, stepOps, o) &&
                (m.operands[o].ty.dimensions == [] ||
                 exists i :: 0 <= i < |m.operands[o].ty.dimensions| && m.operands[o].ty.dimensions[i] == 0)
  }

  lemma ExportedCrosses(m: Model, best: seq<nat>, stepOps: seq<seq<nat>>, devices: seq<nat>, defs: map<nat, nat>,
                        t: nat, e: (nat, nat))
    requires InRange(m) && WrittenOnce(m) && IsPartition(m, best, stepOps, devices) && DefsExact(m, stepOps, defs)
    requires t < |stepOps| && e in ExportsOf(m, stepOps, defs, t)
    ensures HasLifeTime(m, e.0, TemporaryVariable) && Crosses(m, stepOps, e.0)
  {
    var o := e.0;
    ExportedExact(defs, BuildStep(m, stepOps[t]).operandMap, t, Requests(m, stepOps));
    RequestMember(m, stepOps, o);
    var r, x :| 0 <= r < |stepOps| && x in BuildStep(m, stepOps[r]).roles.tempsAsSubModelInputs && x.0 == o;
    RequestDefined(m, best, stepOps, devices, defs, r, x);
    PartitionStepFresh(m, stepOps, r);
    BuildStepFacts(m, stepOps[r]);
    PickMember(m, BuildStep(m, stepOps[r]).origins, TemporaryVariable, Input, x);
    var j := MetAsInput(m, stepOps[r], x.1);
  }

  lemma CrossingExported(m: Model, best: seq<nat>, stepOps: seq<seq<nat>>, devices: seq<nat>, defs: map<nat, nat>,
                         o: nat)
    requires InRange(m) && WrittenOnce(m) && IsPartition(m, best, stepOps, devices) && DefsExact(m, stepOps, defs)
    requires HasLifeTime(m, o, TemporaryVariable) && Crosses(m, stepOps, o)
    ensures IsExported(m, stepOps, defs, o)
  {
    var s, t, j :| 0 <= s < |stepOps| && 0 <= t < |stepOps| && s != t &&
                   o in Outs(m, stepOps[s]) && j in stepOps[t] && o in InputsOf(m, j);
    var x := ReadFromOutside(m, best, stepOps, devices, s, t, j, o);
    RequestMember(m, stepOps, o);
    FlattenIncludes(m, stepOps, s, o);
    OneWriterStepBoth(m, stepOps, s, defs[o], o);
    PartitionStepFresh(m, stepOps, s);
    KindsExact(m, stepOps[s]);
    ExportedExact(defs, BuildStep(m, stepOps[s]).operandMap, s, Requests(m, stepOps));
    assert (o, BuildStep(m, stepOps[s]).operandMap[o]) in ExportsOf(m, stepOps, defs, s);
  }

  /** What a step reads of another one is listed among the temporaries it asks for. */
  lemma ReadFromOutside(m: Model, best: seq<nat>, stepOps: seq<seq<nat>>, devices: seq<nat>, s: nat, t: nat, j: nat,
                        o: nat)
    returns (x: (nat, nat))
    requires InRange(m) && WrittenOnce(m) && IsPartition(m, best, stepOps, devices)
    requires s < |stepOps| && t < |stepOps| && s != t && HasLifeTime(m, o, TemporaryVariable)
    requires o in Outs(m, stepOps[s]) && j in stepOps[t] && o in InputsOf(m, j)
    ensures x in BuildStep(m, stepOps[t]).roles.tempsAsSubModelInputs && x.0 == o
  {
    var step := BuildStep(m, stepOps[t]);
    PartitionStepFresh(m, stepOps, t);
    KindsExact(m, stepOps[t]);
    BuildStepFacts(m, stepOps[t]);
    BuildStepKeys(m, stepOps[t], o);
    if o in Outs(m, stepOps[t]) { OneWriterStepBoth(m, stepOps, s, t, o); }
    var k := step.operandMap[o];
    x := (o, k);
    PickMember(m, step.origins, TemporaryVariable, Input, x);
  }

  /** Exactly the temporaries that cross are exported; so splitting fails exactly when one of them has a size
    * that is only known at run time. */
  lemma ExportedIffCrosses(m: Model, best: seq<nat>, stepOps: seq<seq<nat>>, devices: seq<nat>, defs: map<nat, nat>)
    requires InRange(m) && WrittenOnce(m) && IsPartition(m, best, stepOps, devices) && DefsExact(m, stepOps, defs)
    ensures forall o :: IsExported(m, stepOps, defs, o) <==>
                        HasLifeTime(m, o, TemporaryVariable) && Crosses(m, stepOps, o)
    ensures SomeUnknownExport(m, stepOps, defs, |stepOps|) <==> UnknownCrosses(m, stepOps)
  {
    hide Crosses, IsPartition, DefsExact, InRange, WrittenOnce, ExportsOf;
    forall o ensures IsExported(m, stepOps, defs, o) <==>
                     HasLifeTime(m, o, TemporaryVariable) && Crosses(m, stepOps, o)
    {
      if t, e :| 0 <= t < |stepOps| && e in ExportsOf(m, stepOps, defs, t) && e.0 == o {
        ExportedCrosses(m, best, stepOps, devices, defs, t, e);
      }
      if HasLifeTime(m, o, TemporaryVariable) && Crosses(m, stepOps, o) {
        CrossingExported(m, best, stepOps, devices, defs, o);
      }
    }
    if SomeUnknownExport(m, stepOps, defs, |stepOps|) {
      var t :| 0 <= t < |stepOps| && UnknownExport(m, ExportsOf(m, stepOps, defs, t));
      var e :| e in ExportsOf(m, stepOps, defs, t) && e.0 < |m.operands| && HasUnknownSize(m.operands[e.0].ty);
      assert IsExported(m, stepOps, defs, e.0);
    }
    if UnknownCrosses(m, stepOps) {
      var o :| 0 <= o < |m.operands| && m.operands[o].lifetime.TemporaryVariable? && Crosses(m, stepOps, o) &&
               (m.operands[o].ty.dimensions == [] ||
                exists i :: 0 <= i < |m.operands[o].ty.dimensions| && m.operands[o].ty.dimensions[i] == 0);
      assert IsExported(m, stepOps, defs, o);
      var t, e :| 0 <= t < |stepOps| && e in ExportsOf(m, stepOps, defs, t) && e.0 == o;
      assert UnknownExport(m, ExportsOf(m, stepOps, defs, t));
    }
  }
}
