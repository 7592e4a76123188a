/** Compiling a model, and what the caller has to provide to execute it. */
module Compilation {
  import opened Sequences
  import opened Models
  import opened Validation
  import opened ModelBuilding
  import opened Sorting
  import opened SubModels
  import opened Stepping
  import opened Partitioning
  import opened PlanFinishing
  import opened Crossings
  import opened DeviceChoice
  import opened Layout
  import opened Controlling
  import opened Execution
  import opened Routing
  import opened Preservation
  import opened OutputShapes
  import opened Jobs
  import opened Driver

  datatype PartitioningMode = No | WithFallback | WithoutFallback

  class CompilationBuilder {
    const rules: TypeRules
    const model: Model
    /** The model has an OEM or an extension operation, which the CPU cannot run. */
    const hasVendorOperation: bool
    /** For each device and operation: whether it can run it, and how well. */
    const can: seq<seq<bool>>
    const perf: seq<seq<real>>
    const cpu: nat
    const partitioning: PartitioningMode
    var finished: bool
    var body: PlanBody
    /** How the operations were split, also when the plan does without it. */
    ghost var plan: Plan

    ghost predicate Valid() {
      Executable(model) && Splittable(model) && Admitted(rules, model) && AllRead(model) && Ratings(model, can, perf)
    }

    /** A plan that can be executed. */
    ghost predicate Planned()
      reads this
    {
      && plan.model == model
      && (body.Simple? ==> body.model == model)
      && (body.Compound? ==> ValidPlan(plan) && body.steps == plan.steps)
      && !body.Empty?
    }

    predicate SomeUnsupported() {
      exists j :: 0 <= j < |model.operations| && Unsupported(can, j)
    }

    /** What splitting the work leads to: one device for everything, the split plan, or, when a temporary
      * of unknown size would cross a boundary, the CPU for everything, where that is allowed. */
    ghost predicate SplitOutcome(code: ResultCode)
      requires Ratings(model, can, perf)
      reads this
    {
      && Assigned(model, plan.best, |can|) && BestFound(model, can, perf, cpu, plan.best)
      && (if !Differs(plan.best) then code == NoError && |plan.best| > 0 && body == Simple(model, plan.best[0])
          else
            && IsPartition(model, plan.best, plan.stepOps, plan.devices) && DefsExact(model, plan.stepOps, plan.defs)
            && (SomeUnknownExport(model, plan.stepOps, plan.defs, |plan.stepOps|) <==>
                UnknownCrosses(model, plan.stepOps))
            && if !SomeUnknownExport(model, plan.stepOps, plan.defs, |plan.stepOps|)
               then code == NoError && body == Compound(plan.steps)
               else if partitioning == WithFallback && !hasVendorOperation
               then code == NoError && body == Simple(model, cpu)
               else code == OpFailed)
    }

    constructor (rules: TypeRules, model: Model, hasVendorOperation: bool, can: seq<seq<bool>>, perf: seq<seq<real>>,
                 cpu: nat, partitioning: PartitioningMode)
      ensures this.rules == rules && this.model == model && this.hasVendorOperation == hasVendorOperation
      ensures this.can == can && this.perf == perf && this.cpu == cpu && this.partitioning == partitioning
      ensures !finished && body == Empty
    {
      this.rules, this.model, this.hasVendorOperation := rules, model, hasVendorOperation;
      this.can, this.perf, this.cpu, this.partitioning := can, perf, cpu, partitioning;
      finished, body := false, Empty;
      plan := Plan(model, [], [], [], map[], []);
    }

    /** Makes a plan. Whatever goes wrong in splitting is made up for by running everything on the CPU,
      * where that is allowed; an operation that no device supports is an error of the caller. */
    method Finish() returns (code: ResultCode)
      requires Valid()
      modifies this
      ensures old(finished) ==> code == BadState && body == old(body) && plan == old(plan)
      ensures finished
      ensures !old(finished) ==> (code == BadData <==> partitioning != No && SomeUnsupported())
      ensures !old(finished) && partitioning != No && !SomeUnsupported() ==> SplitOutcome(code)
      ensures !old(finished) && partitioning == No ==> code == NoError && body == Simple(model, cpu)
      ensures !old(finished) && code == NoError ==> Planned()
    {
      hide Executable, Splittable, Admitted, AllRead, BestFound, Unsupported;
      hide IsPartition, DefsExact, PlanFinished, SomeUnknownExport, UnknownCrosses, Differs;
      if finished { return BadState; }
      finished := true;
      plan := Plan(model, [], [], [], map[], []);
      if partitioning != No {
        ghost var best, stepOps, devices, defs;
        body, code, best, stepOps, devices, defs := PartitionTheWork(rules, model, can, perf, cpu);
        plan := Plan(model, best, stepOps, devices, defs, if body.Compound? then body.steps else []);
        if code == NoError { return; }
        if code == BadData || code == UnexpectedNull { return; }
        if partitioning != WithFallback { return; }
        if hasVendorOperation { return; }
      }
      body := Simple(model, cpu);
      code := NoError;
    }
  }

  // ---------------------------------------------------------------- room for temporaries

  function PaddedSize(m: Model, o: nat): nat {
    if o < |m.operands| then SizeOfData(m.operands[o].ty) + 3 else 0
  }

  /** Size of the first `n` operands, each with the largest padding. */
  function PaddedTotal(m: Model, n: nat): nat {
    if n == 0 then 0 else PaddedTotal(m, n - 1) + PaddedSize(m, n - 1)
  }

  function PaddedTotalOf(m: Model, os: seq<nat>): nat {
    if os == [] then 0 else PaddedTotalOf(m, os[..|os|-1]) + PaddedSize(m, os[|os|-1])
  }

  lemma {:induction false} TotalIsPadded(m: Model, os: seq<nat>)
    requires forall i :: 0 <= i < |os| ==> os[i] < |m.operands|
    ensures Total(SizesOf(m, os)) <= PaddedTotalOf(m, os)
  {
    if os != [] {
      var n := |os| - 1;
      TotalIsPadded(m, os[..n]);
      assert SizesOf(m, os)[..n] == SizesOf(m, os[..n]);
    }
  }

  lemma {:induction false} PaddedTotalWithout(m: Model, os: seq<nat>, k: nat)
    requires k < |os|
    ensures PaddedTotalOf(m, os) == PaddedTotalOf(m, Without(os, k)) + PaddedSize(m, os[k])
  {
    var n := |os| - 1;
    if k == n {
      assert Without(os, k) == os[..n];
    } else {
      PaddedTotalWithout(m, os[..n], k);
      assert Without(os, k)[..n-1] == Without(os[..n], k);
    }
  }

  /** Distinct operands need no more room than all operands. */
  lemma {:induction false} PaddedTotalCovers(m: Model, os: seq<nat>, n: nat)
    requires NoDup(os) && forall j :: j in os ==> j < n
    ensures PaddedTotalOf(m, os) <= PaddedTotal(m, n)
    decreases n
  {
    NoDupBounded(os, n);
    if n > 0 {
      if n - 1 in os {
        var k :| 0 <= k < |os| && os[k] == n - 1;
        PaddedTotalWithout(m, os, k);
        WithoutFacts(os, k);
        PaddedTotalCovers(m, Without(os, k), n - 1);
      } else {
        PaddedTotalCovers(m, os, n - 1);
      }
    }
  }

  lemma PoolFits(p: Plan)
    requires ValidPlan(p) && PaddedTotal(p.model, |p.model.operands|) < UINT32_LIMIT
    ensures Total(SizesOf(p.model, Crossing(p.steps))) < UINT32_LIMIT
  {
    var os := Crossing(p.steps);
    LayoutReady(p);
    forall j | j in os ensures j < |p.model.operands| {
      CrossingMember(p.steps, j);
      var t, e :| 0 <= t < |p.steps| && e in p.steps[t].exports && e.0 == j;
      ExportDefined(p, t, e);
    }
    forall i | 0 <= i < |os| ensures os[i] < |p.model.operands| { assert os[i] in os; }
    TotalIsPadded(p.model, os);
    PaddedTotalCovers(p.model, os, |p.model.operands|);
  }

  /** Every output is of fully specified type, and its buffer has the length of the type. */
  ghost predicate OutputsSpecified(m: Model, memory: Memory) {
    && |memory.results| == |m.outputIndexes|
    && forall q :: 0 <= q < |m.outputIndexes| ==>
         && m.outputIndexes[q] < |m.operands| && !HasUnknownSize(m.operands[m.outputIndexes[q]].ty)
         && |memory.results[q]| == SizeOfData(m.operands[m.outputIndexes[q]].ty)
  }

  lemma ReadBackPosition(p: Plan, t: nat, q: nat)
    requires ValidPlan(p) && t < |p.steps| && q in p.steps[t].outputsAsInputsIndexes
    ensures q < |p.model.outputIndexes|
  {
    StepLists(p, t);
    var i :| 0 <= i < |p.steps[t].outputsAsInputsIndexes| && p.steps[t].outputsAsInputsIndexes[i] == q;
  }

  /** What the caller can check before the run is enough for any plan the compilation may have made. */
  lemma CompiledIsProvided(sem: Semantics, plan: Plan, body: PlanBody, memory: Memory)
    requires Executable(plan.model) && !body.Empty?
    requires body.Simple? ==> body.model == plan.model
    requires body.Compound? ==> ValidPlan(plan) && body.steps == plan.steps
    requires |plan.model.operations| < BAD_STEP_INDEX && PaddedTotal(plan.model, |plan.model.operands|) < UINT32_LIMIT
    requires ResultsSized(sem) && |memory.arguments| == |plan.model.inputIndexes| &&
             OutputsSpecified(plan.model, memory)
    ensures Provided(sem, plan, body, memory)
  {
    if body.Compound? {
      PoolFits(plan);
      var c := Setting(sem, plan, map[], 0, memory.arguments, Meaning(sem, plan.model, memory.arguments));
      MeaningSatisfies(sem, plan.model, memory.arguments);
      forall q: nat | ReadBack(c, q) ensures SpecifiedBuffer(c, memory, q) {
        var t :| 0 <= t < |plan.steps| && q in plan.steps[t].outputsAsInputsIndexes;
        ReadBackPosition(plan, t, q);
      }
      SpecifiedIsExact(c, memory);
      StepsBounded(plan);
    }
  }

  lemma {:induction false} NonemptyParts(parts: seq<seq<nat>>)
    requires forall t :: 0 <= t < |parts| ==> parts[t] != []
    ensures |parts| <= |Flatten(parts)|
  {
    if parts != [] { NonemptyParts(parts[..|parts|-1]); }
  }

  /** There are no more steps than operations. */
  lemma StepsBounded(p: Plan)
    requires ValidPlan(p)
    ensures |p.steps| <= |p.model.operations|
  {
    NonemptyParts(p.stepOps);
    NoDupBounded(Flatten(p.stepOps), |p.model.operations|);
  }
}
