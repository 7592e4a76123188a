/** Choosing a device for each operation, and making a plan. */
module DeviceChoice {
  import opened Sequences
  import opened Models
  import opened ModelBuilding
  import opened SubModels
  import opened Stepping
  import opened Partitioning
  import opened Exporting
  import opened PlanFinishing
  import opened Validation
  import opened Crossings

  /** For one operation: which devices can run it and how well they do. A device takes precedence
    * over those that do worse, over the ones after it that do as well, and, when it is the CPU, over
    * all that do as well. */
  ghost predicate IsBest(can: seq<bool>, perf: seq<real>, cpu: nat, best: nat)
    requires |can| == |perf|
  {
    && best < |can| && can[best]
    && (forall d :: 0 <= d < |can| && can[d] ==> perf[best] <= perf[d])
    && (forall d :: 0 <= d < |can| && can[d] && perf[d] == perf[best] && (d == cpu || d < best) ==>
          best == cpu || d == best)
    && (cpu < |can| && can[cpu] && perf[cpu] == perf[best] ==> best == cpu)
  }

  /** There is only one best device. */
  lemma BestIsUnique(can: seq<bool>, perf: seq<real>, cpu: nat, a: nat, b: nat)
    requires |can| == |perf| && IsBest(can, perf, cpu, a) && IsBest(can, perf, cpu, b)
    ensures a == b
  {
  }

  method FindBestDevice(can: seq<bool>, perf: seq<real>, cpu: nat) returns (bestChoice: int)
    requires |can| == |perf|
    ensures bestChoice >= 0 ==> IsBest(can, perf, cpu, bestChoice)
    ensures bestChoice < 0 <==> forall d :: 0 <= d < |can| ==> !can[d]
  {
    bestChoice := -1;
    var bestPerfVal := 0.0;
    for d := 0 to |can|
      invariant -1 <= bestChoice < d
      invariant bestChoice >= 0 ==> bestPerfVal == perf[bestChoice] && IsBest(can[..d], perf[..d], cpu, bestChoice)
      invariant bestChoice < 0 ==> forall i :: 0 <= i < d ==> !can[i]
    {
      if can[d] {
        var perfVal := perf[d];
        if bestChoice < 0 || perfVal < bestPerfVal || (perfVal == bestPerfVal && d == cpu) {
          bestChoice, bestPerfVal := d, perfVal;
        }
      }
    }
    assert can[..|can|] == can && perf[..|perf|] == perf;
  }

  /** What the devices say: for each device, for each operation, whether and how well it runs it. */
  ghost predicate Ratings(m: Model, can: seq<seq<bool>>, perf: seq<seq<real>>) {
    && |can| == |perf| && |can| > 0
    && forall d :: 0 <= d < |can| ==> |can[d]| == |perf[d]| == |m.operations|
  }

  function Column<T>(rows: seq<seq<T>>, j: nat): (r: seq<T>)
    requires forall d :: 0 <= d < |rows| ==> j < |rows[d]|
    ensures |r| == |rows|
  {
    seq(|rows|, d requires 0 <= d < |rows| => rows[d][j])
  }

  /** No device can run operation `j`. */
  predicate Unsupported(can: seq<seq<bool>>, j: nat) {
    forall d :: 0 <= d < |can| ==> j < |can[d]| && !can[d][j]
  }

  ghost predicate BestFound(m: Model, can: seq<seq<bool>>, perf: seq<seq<real>>, cpu: nat, best: seq<nat>)
    requires Ratings(m, can, perf)
  {
    forall j :: 0 <= j < |best| && j < |m.operations| ==> IsBest(Column(can, j), Column(perf, j), cpu, best[j])
  }

  method FindBestDeviceForEachOperation(m: Model, can: seq<seq<bool>>, perf: seq<seq<real>>, cpu: nat)
    returns (best: seq<nat>, code: ResultCode)
    requires Ratings(m, can, perf)
    ensures code == NoError || code == BadData
    ensures code == NoError ==> Assigned(m, best, |can|) && BestFound(m, can, perf, cpu, best)
    ensures code == BadData <==> exists j :: 0 <= j < |m.operations| && Unsupported(can, j)
  {
    best := [];
    for j := 0 to |m.operations|
      invariant |best| == j && BestFound(m, can, perf, cpu, best)
      invariant forall x :: 0 <= x < j ==> best[x] < |can|
    {
      var bestChoice := FindBestDevice(Column(can, j), Column(perf, j), cpu);
      if bestChoice < 0 {
        assert forall d :: 0 <= d < |can| ==> Column(can, j)[d] == can[d][j];
        assert Unsupported(can, j);
        return best, BadData;
      }
      best := best + [bestChoice];
    }
    forall j | 0 <= j < |m.operations|
      ensures !Unsupported(can, j)
    {
      assert IsBest(Column(can, j), Column(perf, j), cpu, best[j]);
      assert Column(can, j)[best[j]] == can[best[j]][j];
    }
    code := NoError;
  }

  datatype PlanBody =
    | Empty
    | Simple(model: Model, device: nat)
    | Compound(steps: seq<FinishedStep>)

  /** A compound plan that finished successfully. */
  ghost predicate IsCompound(m: Model, best: seq<nat>, stepOps: seq<seq<nat>>, devices: seq<nat>, defs: map<nat, nat>,
                             finished: seq<FinishedStep>) {
    && IsPartition(m, best, stepOps, devices) && DefsExact(m, stepOps, defs)
    && |finished| == |stepOps| && PlanFinished(m, stepOps, devices, defs, finished)
    && !SomeUnknownExport(m, stepOps, defs, |stepOps|)
  }

  /** Some operation and its successor go to different devices. */
  predicate Differs(best: seq<nat>) {
    exists i, j :: 0 <= i < |best| && j == i + 1 && j < |best| && best[i] != best[j]
  }

  lemma {:induction false} SameDevice(best: seq<nat>, i: nat)
    requires !Differs(best) && i < |best|
    ensures best[i] == best[0]
  {
    if i > 0 { SameDevice(best, i - 1); }
  }

  /** Whether neighbouring operations go to different devices. */
  method AdjacentDiffer(best: seq<nat>) returns (differs: bool)
    ensures differs <==> Differs(best)
  {
    var at := 0;
    while at + 1 < |best|
      invariant forall i, j :: 0 <= i < |best| && j == i + 1 && j < |best| && i < at ==> best[i] == best[j]
    {
      if best[at] != best[at + 1] { return true; }
      at := at + 1;
    }
    return false;
  }

  /** Makes the plan. One device for all operations needs no splitting. Otherwise the operations are
    * split, which fails exactly when a temporary crosses from one step to another that has no rank, or a
    * dimension that is not specified. */
  method PartitionTheWork(rules: TypeRules, m: Model, can: seq<seq<bool>>, perf: seq<seq<real>>, cpu: nat)
    returns (body: PlanBody, code: ResultCode, ghost best: seq<nat>,
             ghost stepOps: seq<seq<nat>>, ghost devices: seq<nat>, ghost defs: map<nat, nat>)
    requires Splittable(m) && Admitted(rules, m) && AllRead(m) && Ratings(m, can, perf)
    ensures code == NoError || code == BadData || code == OpFailed
    ensures code == BadData <==> exists j :: 0 <= j < |m.operations| && Unsupported(can, j)
    ensures code != BadData ==> Assigned(m, best, |can|) && BestFound(m, can, perf, cpu, best)
    ensures code != BadData && !Differs(best) ==> code == NoError && |best| > 0 && body == Simple(m, best[0])
    ensures code != BadData && Differs(best) ==>
              && IsPartition(m, best, stepOps, devices) && DefsExact(m, stepOps, defs)
              && (code == OpFailed <==> SomeUnknownExport(m, stepOps, defs, |stepOps|))
              && (code == OpFailed <==> UnknownCrosses(m, stepOps))
    ensures code == NoError && Differs(best) ==>
              body.Compound? && IsCompound(m, best, stepOps, devices, defs, body.steps)
  {
    hide Splittable, InRange, WrittenOnce, InterfaceListed, Admitted, AllRead, BestFound, Unsupported;
    hide IsPartition, DefsExact, StepsBuilt, Separate, PlanFinished, SomeUnknownExport, UnknownCrosses;
    stepOps, devices, defs, body := [], [], map[], Empty;
    var bestDeviceForOperation;
    bestDeviceForOperation, code := FindBestDeviceForEachOperation(m, can, perf, cpu);
    best := bestDeviceForOperation;
    if code != NoError { return; }
    SplittableFacts(m);
    var differs := AdjacentDiffer(bestDeviceForOperation);
    if !differs {
      body := Simple(m, bestDeviceForOperation[0]);
      return;
    }
    var plan := new ExecutionPlan(rules);
    stepOps, devices, code := Distribute(m, bestDeviceForOperation, |can|, plan);
    var steps;
    steps, code := FinishPlan(m, plan, best, stepOps, devices);
    body, defs := Compound(steps), plan.defs.temporaryToDefiningStep;
    SplittableGraph(m);
    ExportedIffCrosses(m, best, stepOps, devices, defs);
  }

  lemma SplittableGraph(m: Model)
    requires Splittable(m)
    ensures InRange(m) && WrittenOnce(m)
  {
  }

  lemma SplittableFacts(m: Model)
    requires Splittable(m)
    ensures ValidModel(m) && InterfaceListed(m) && |m.operations| > 0
  {
  }
}
