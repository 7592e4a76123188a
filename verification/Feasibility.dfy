/** Runs that succeed exist: what is asked of devices can be done. */
module Feasibility {
  import opened Sequences
  import opened Models
  import opened Sorting
  import opened SubModels
  import opened PlanFinishing
  import opened DeviceChoice
  import opened Controlling
  import opened Execution
  import opened Routing
  import opened Preservation
  import opened OutputShapes
  import opened Jobs

  // ---------------------------------------------------------------- outputs of one step

  /** The outputs of a step are different operands. */
  lemma OutputsDiffer(p: Plan, t: nat, k: nat, l: nat)
    requires ValidPlan(p) && t < |p.steps| && k < l < |OutPairs(p.steps[t])|
    ensures OutPairs(p.steps[t])[k].0 != OutPairs(p.steps[t])[l].0
  {
    SubExecutable(p, t);
    SubTypes(p, t);
    PairOrder(p, t);
    hide ValidPlan, InterfaceListed, InRunOrder, InRange, WrittenOnce, OperationsRenamed;
    var a, b := OutPairs(p.steps[t])[k], OutPairs(p.steps[t])[l];
    assert a in OutPairs(p.steps[t]) && b in OutPairs(p.steps[t]);
    PairNames(p, t, a);
    PairNames(p, t, b);
    assert Seconds(OutPairs(p.steps[t]))[k] == a.1 && Seconds(OutPairs(p.steps[t]))[l] == b.1;
  }

  lemma StepOutputsDisjoint(c: Setting, t: nat, k: nat, l: nat)
    requires ValidSetting(c) && t < |c.plan.steps| && k < l < |OutPairs(c.plan.steps[t])|
    ensures |OutputLocations(c.plan.steps[t], c.offsets)| == |OutPairs(c.plan.steps[t])|
    ensures Disjoint(OutputLocations(c.plan.steps[t], c.offsets)[k], OutputLocations(c.plan.steps[t], c.offsets)[l])
  {
    hide ValidPlan, LaidOut, Solution, ResultsSized;
    OutputsDiffer(c.plan, t, k, l);
    OutputHome(c.plan, c.offsets, c.total, t, k);
    OutputHome(c.plan, c.offsets, c.total, t, l);
    HomesDisjoint(Original(c), Crossing(c.plan.steps), c.offsets, c.total,
                  OutPairs(c.plan.steps[t])[k].0, OutPairs(c.plan.steps[t])[l].0,
                  OutputLocations(c.plan.steps[t], c.offsets)[k], OutputLocations(c.plan.steps[t], c.offsets)[l]);
  }

  /** Every value fits into the caller's buffer for it. */
  ghost predicate Roomy(m: Model, env: Env, lengths: seq<nat>) {
    && |lengths| == |m.outputIndexes|
    && forall q :: 0 <= q < |lengths| ==> m.outputIndexes[q] in env && |env[m.outputIndexes[q]]| <= lengths[q]
  }

  lemma OutputFits(c: Setting, t: nat, k: nat, mem: Memory)
    requires ValidSetting(c) && MemorySized(c, mem) && Roomy(Original(c), c.env, LengthsOf(mem.results))
    requires t < |c.plan.steps| && k < |OutPairs(c.plan.steps[t])|
    ensures |OutputLocations(c.plan.steps[t], c.offsets)| == |OutPairs(c.plan.steps[t])|
    ensures OutPairs(c.plan.steps[t])[k].0 in c.env && Writable(mem, OutputLocations(c.plan.steps[t], c.offsets)[k])
    ensures |c.env[OutPairs(c.plan.steps[t])[k].0]| <= |Read(mem, OutputLocations(c.plan.steps[t], c.offsets)[k])|
  {
    hide ValidPlan, LaidOut, Solution, ResultsSized;
    OutputHome(c.plan, c.offsets, c.total, t, k);
    var r, e, loc := c.plan.steps[t], OutPairs(c.plan.steps[t])[k], OutputLocations(c.plan.steps[t], c.offsets)[k];
    if k >= |r.roles.modelOutputs| {
      assert r.exports[k - |r.roles.modelOutputs|] == e;
      ExportSized(c, t, e);
      HomeInside(Original(c), Crossing(c.plan.steps), c.offsets, c.total, e.0, loc);
    }
  }

  /** A step that finds the original values can be executed, if the caller's buffers are long enough. */
  lemma StepFeasible(c: Setting, t: nat, mem: Memory) returns (after: Memory)
    requires ValidSetting(c) && MemorySized(c, mem) && Roomy(Original(c), c.env, LengthsOf(mem.results))
    requires t < |c.plan.steps|
    requires InputsFit(c.plan, t, c.env, ReadAll(mem, InputLocations(c.plan.steps[t], c.offsets)))
    ensures StepExecuted(c, t, mem, after)
  {
    hide ValidPlan, LaidOut, Solution, ResultsSized, InputsFit, Executable, OutputValues, Roomy, MemorySized;
    var r := c.plan.steps[t];
    var ins, outs := InputLocations(r, c.offsets), OutputLocations(r, c.offsets);
    var values := ReadAll(mem, ins);
    SubMeaning(c.sem, c.plan, t, c.arguments, c.env, values);
    PairOrder(c.plan, t);
    StepRoutable(c.plan, c.offsets, c.total, t);
    assert |outs| == |OutPairs(r)|;
    forall k | 0 <= k < |outs|
      ensures Writable(mem, outs[k]) && |OutputValues(c.sem, r.subModel, values)[k]| <= |Read(mem, outs[k])|
    {
      SubOutputs(c.sem, c.plan, t, c.arguments, c.env, values, k);
      OutputFits(c, t, k, mem);
    }
    forall k, l | 0 <= k < l < |outs| ensures Disjoint(outs[k], outs[l]) { StepOutputsDisjoint(c, t, k, l); }
    after := ExecutionExists(c.sem, r.subModel, ins, outs, mem);
  }

  /** So can the whole model. */
  lemma WholeFeasible(sem: Semantics, m: Model, arguments: seq<Bytes>, env: Env, mem: Memory) returns (after: Memory)
    requires Executable(m) && Solution(sem, m, arguments, env) && mem.arguments == arguments
    requires Roomy(m, env, LengthsOf(mem.results))
    ensures Executed(sem, m, WholeInputs(m), WholeOutputs(m), mem, after)
  {
    var values, outs := ReadAll(mem, WholeInputs(m)), WholeOutputs(m);
    assert values == arguments;
    MeaningUnique(sem, m, arguments, env);
    hide Executable, Solution, Meaning, OutputValues;
    forall q | 0 <= q < |outs|
      ensures Writable(mem, outs[q]) && |OutputValues(sem, m, values)[q]| <= |Read(mem, outs[q])|
    {
      OutputValueAt(sem, m, arguments, q);
      assert outs[q] == Result(q) && LengthsOf(mem.results)[q] == |mem.results[q]|;
    }
    after := ExecutionExists(sem, m, WholeInputs(m), outs, mem);
  }

  /** Every compound plan can be run to its end, if the caller's buffers are long enough. */
  lemma {:induction false} PlanCanRun(c: Setting, mem: Memory, t: nat) returns (states: seq<Memory>)
    requires ValidSetting(c) && MemoryFits(c, mem) && Roomy(Original(c), c.env, LengthsOf(mem.results))
    requires t <= |c.plan.steps|
    ensures |states| == t + 1 && states[0] == mem
    ensures forall i :: 0 <= i < t ==> StepExecuted(c, i, states[i], states[i+1])
    ensures MemoryFits(c, states[t]) && DeliveredBefore(c, t, states[t])
    ensures LengthsOf(states[t].results) == LengthsOf(mem.results)
  {
    hide ValidSetting, Delivered, ReadBackExact, StepExecuted, InputsFit, Roomy;
    if t == 0 {
      states := [mem];
    } else {
      var before := PlanCanRun(c, mem, t - 1);
      InputsRight(c, t - 1, before[t-1]);
      var after := StepFeasible(c, t - 1, before[t-1]);
      StepAdvances(c, t - 1, before[t-1], after);
      StepKeepsLengths(c, t - 1, before[t-1], after);
      states := before + [after];
    }
  }

  lemma StepKeepsLengths(c: Setting, t: nat, before: Memory, after: Memory)
    requires t < |c.plan.steps| && StepExecuted(c, t, before, after)
    ensures LengthsOf(after.results) == LengthsOf(before.results)
  {
    hide Executable, OutputValues;
    ConfinedLengths(before, after, OutputLocations(c.plan.steps[t], c.offsets));
  }

  // ---------------------------------------------------------------- a backend that does what can be done

  /** Executes whatever can be executed, reports no shapes, and fails otherwise. */
  ghost function Oracle(sem: Semantics): Backend {
    (n, cpu, m, ins, outs, mem) =>
      if exists after :: Executed(sem, m, ins, outs, mem, after) then
        var after :| Executed(sem, m, ins, outs, mem, after);
        Outcome(NoError, None, [], after)
      else Outcome(OpFailed, GeneralFailure, [], mem)
  }

  lemma OracleIsHonest(sem: Semantics)
    ensures Honest(Oracle(sem), sem)
  {
    hide Executable;
  }

  lemma OracleDoes(sem: Semantics, n: nat, cpu: bool, m: Model, ins: seq<Location>, outs: seq<Location>,
                   mem: Memory, after: Memory, truth: seq<OutputShape>)
    requires Executed(sem, m, ins, outs, mem, after)
    ensures Succeeds(Oracle(sem)(n, cpu, m, ins, outs, mem), outs, truth)
  {
    hide Executed;
  }

  /** With buffers that are long enough, every step succeeds on such a backend, whatever the job. */
  lemma OracleSucceeds(job: Job, cpu: nat, truth: seq<OutputShape>, onCpu: bool)
    requires ValidJob(job) && Roomy(Original(job.c), job.c.env, job.lengths)
    ensures StepsSucceed(Oracle(job.c.sem), cpu, job, truth, onCpu)
  {
    forall n: nat, t: nat, mem: Memory ensures SucceedsAt(Oracle(job.c.sem), cpu, job, truth, onCpu, n, t, mem) {
      if t < StepCount(job.body) && Progress(job, t, mem) {
        var after := AttemptFeasible(job, t, mem);
        OracleDoes(job.c.sem, n, onCpu || StepDevice(job, t) == cpu, StepModel(job, t), StepInputs(job, t),
                   StepOutputs(job, t), mem, after, truth);
      }
    }
  }

  lemma AttemptFeasible(job: Job, t: nat, mem: Memory) returns (after: Memory)
    requires ValidJob(job) && Roomy(Original(job.c), job.c.env, job.lengths)
    requires t < StepCount(job.body) && Progress(job, t, mem)
    ensures Executed(job.c.sem, StepModel(job, t), StepInputs(job, t), StepOutputs(job, t), mem, after)
  {
    if job.body.Compound? {
      PlanSetting(job);
      InputsRight(job.c, t, mem);
      after := StepFeasible(job.c, t, mem);
    } else {
      after := WholeFeasible(job.c.sem, Original(job.c), job.c.arguments, job.c.env, mem);
    }
  }
}
