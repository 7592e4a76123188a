/** Running a plan step by step, with retries on the CPU. */
module Driver {
  import opened Sequences
  import opened Models
  import opened ModelBuilding
  import opened Sorting
  import opened PlanFinishing
  import opened DeviceChoice
  import opened Layout
  import opened Controlling
  import opened Execution
  import opened Routing
  import opened Preservation
  import opened OutputShapes
  import opened Jobs
  import opened Runs

  // ---------------------------------------------------------------- attempts

  /** The callback of an attempt that was launched holds what the attempt reported. */
  ghost predicate HoldsOutcome(callback: ExecutionCallback, o: Outcome)
    reads callback, callback.onFinish
  {
    && callback.Valid() && callback.notified && callback.onFinish == null
    && callback.errorStatus == Reported(o)
    && callback.outputShapes == ExecutionCallback.Checked(o.status, o.shapes).1
  }

  class World {
    var memory: Memory
    var attempts: nat
    const backend: Backend
    const cpu: nat

    constructor (memory: Memory, backend: Backend, cpu: nat)
      ensures this.memory == memory && attempts == 0 && this.backend == backend && this.cpu == cpu
    {
      this.memory, attempts, this.backend, this.cpu := memory, 0, backend, cpu;
    }

    /** Executes the model of a step executor on its device or on the CPU. The callback, present when
      * the launch succeeded, has been notified. */
    method StartCompute(executor: StepExecutor, onCpu: bool, ghost sem: Semantics)
      returns (callback: ExecutionCallback?, code: ResultCode)
      requires Honest(backend, sem)
      modifies this
      ensures attempts == old(attempts) + 1
      ensures var o := backend(old(attempts), onCpu, executor.model, executor.inputs, executor.outputs, old(memory));
              && memory == o.memory && code == o.launch && (code == NoError <==> callback != null)
              && (callback != null ==> HoldsOutcome(callback, o))
      ensures callback != null ==> fresh(callback)
      ensures Confined(old(memory), memory, executor.outputs)
      ensures callback != null && callback.errorStatus == None ==>
                Executed(sem, executor.model, executor.inputs, executor.outputs, old(memory), memory)
    {
      hide Confined, Executed;
      var o := backend(attempts, onCpu, executor.model, executor.inputs, executor.outputs, memory);
      memory, attempts := o.memory, attempts + 1;
      callback, code := null, o.launch;
      if o.launch == NoError {
        callback := new ExecutionCallback();
        callback.Notify(o.status, o.shapes);
      }
    }
  }

  /** The callback of a run that is still going on. */
  ghost predicate Pending(callback: ExecutionCallback, builder: ExecutionBuilder)
    reads callback, builder
  {
    callback.onFinish == builder && callback.Valid() && !callback.notified && !builder.finished
  }

  /** The run is over: one notification, the execution finished once. */
  twostate predicate Concluded(callback: ExecutionCallback, builder: ExecutionBuilder)
    reads callback, builder
  {
    && callback.onFinish == null && callback.Valid() && callback.notified
    && callback.timesNotified == old(callback.timesNotified) + 1
    && builder.finished && builder.timesFinished == old(builder.timesFinished) + 1
    && AllRefine(old(builder.outputs), builder.outputs)
  }

  /** What the caller finds in the callback and in the execution. */
  function NoticeOf(callback: ExecutionCallback, builder: ExecutionBuilder): Notice
    reads callback, builder
  {
    Notice(callback.errorStatus, callback.outputShapes, builder.outputs)
  }

  function EndingOf(callback: ExecutionCallback, builder: ExecutionBuilder, world: World): Ending
    reads callback, builder, world
  {
    Ending(NoticeOf(callback, builder), world.memory, world.attempts)
  }

  /** Notifies the callback of a run, which finishes the execution. */
  method Conclude(callback: ExecutionCallback, builder: ExecutionBuilder, status: ErrorStatus, shapes: seq<OutputShape>)
    requires Pending(callback, builder)
    modifies callback, builder
    ensures Concluded(callback, builder) && builder.started == old(builder.started)
    ensures var r := ExecutionCallback.Checked(status, shapes);
            if r.1 == [] then callback.errorStatus == r.0 && builder.outputs == old(builder.outputs)
            else if AllRefine(old(builder.outputs), r.1) then callback.errorStatus == r.0 && builder.outputs == r.1
            else callback.errorStatus == GeneralFailure && builder.outputs == old(builder.outputs)
    ensures Delivers(status, shapes, old(builder.outputs), NoticeOf(callback, builder))
  {
    SameRefines(builder.outputs);
    callback.Notify(status, shapes);
  }

  /** Executes the full model on the CPU. */
  method ComputeWhole(ghost job: Job, model: Model, world: World)
    returns (fallbackCallback: ExecutionCallback?, code: ResultCode)
    requires ValidJob(job) && Jobs.Sized(job, world.memory) && Honest(world.backend, job.c.sem)
    requires model == Original(job.c)
    modifies world
    ensures world.attempts == old(world.attempts) + 1
    ensures var o := WholeAttempt(world.backend, job, old(world.attempts), old(world.memory));
            && code == o.launch && (code == NoError <==> fallbackCallback != null) && world.memory == o.memory
            && (fallbackCallback != null ==> HoldsOutcome(fallbackCallback, o))
    ensures fallbackCallback != null ==> fresh(fallbackCallback)
    ensures fallbackCallback != null && fallbackCallback.errorStatus == None ==>
              OutputsHold(Original(job.c), job.c.env, world.memory)
  {
    JobSolution(job, world.memory);
    hide ValidJob, Executable, Solution, Executed, Confined, OutputsHold, Jobs.Sized, Honest;
    var executor := new StepExecutor(model, world.cpu, [], true);
    executor.MapInputsAndOutputsTrivially();
    ghost var before := world.memory;
    fallbackCallback, code := world.StartCompute(executor, true, job.c.sem);
    if fallbackCallback != null && fallbackCallback.errorStatus == None {
      WholeModelDelivers(job.c.sem, model, job.c.arguments, job.c.env, before, world.memory);
    }
  }

  lemma JobSolution(job: Job, mem: Memory)
    requires ValidJob(job) && Jobs.Sized(job, mem)
    ensures Executable(Original(job.c)) && Solution(job.c.sem, Original(job.c), job.c.arguments, job.c.env)
    ensures mem.arguments == job.c.arguments && |mem.results| == |Original(job.c).outputIndexes|
  {
  }

  /** When the CPU is bound to succeed with the whole model, its shapes refine what is known. */
  lemma WholeIsAccepted(promise: Promise, backend: Backend, job: Job, n: nat, mem: Memory, outputs: seq<OutputShape>)
    requires promise.Whole? && WholeSucceeds(backend, job, promise.truth) && Jobs.Sized(job, mem)
    requires AllRefine(outputs, promise.truth) && |outputs| == |Original(job.c).outputIndexes|
    ensures var o := WholeAttempt(backend, job, n, mem);
            o.launch == NoError && o.status == None && (o.shapes == [] || AllRefine(outputs, o.shapes))
  {
    hide Jobs.Sized;
    var o := WholeAttempt(backend, job, n, mem);
    assert Succeeds(o, WholeOutputs(Original(job.c)), promise.truth);
    WholeMapsOutputs(Original(job.c), []);
  }

  /** What the run has come to, with the shapes collected so far. */
  function Now(world: World, shapes: seq<OutputShape>): Point
    reads world
  {
    Point(world.attempts, world.memory, shapes)
  }

  /** Executes the full model on the CPU and notifies. */
  method CpuFallbackFull(ghost job: Job, builder: ExecutionBuilder, world: World, callback: ExecutionCallback,
                         ghost promise: Promise)
    requires ValidJob(job) && Jobs.Sized(job, world.memory) && Honest(world.backend, job.c.sem)
    requires Pending(callback, builder) && builder.model == Original(job.c)
    requires |builder.outputs| == |builder.model.outputIndexes|
    requires promise.Whole? ==>
               WholeSucceeds(world.backend, job, promise.truth) && AllRefine(builder.outputs, promise.truth)
    modifies callback, builder, world
    ensures Concluded(callback, builder) && builder.started == old(builder.started)
    ensures world.attempts == old(world.attempts) + 1
    ensures callback.errorStatus == None ==> OutputsHold(Original(job.c), job.c.env, world.memory)
    ensures promise.Whole? ==> callback.errorStatus == None
    ensures EndsWithWhole(world.backend, job, old(world.attempts), old(world.memory), old(builder.outputs),
                          EndingOf(callback, builder, world))
  {
    hide ValidJob, OutputsHold, Jobs.Sized, WholeSucceeds, Honest, AllRefine, Delivers;
    ghost var outputs, o := builder.outputs, WholeAttempt(world.backend, job, world.attempts, world.memory);
    if promise.Whole? {
      WholeIsAccepted(promise, world.backend, job, world.attempts, world.memory, builder.outputs);
    }
    var fallbackCallback, n := ComputeWhole(job, builder.model, world);
    if fallbackCallback == null {
      Conclude(callback, builder, ToErrorStatus(n), []);
    } else {
      Conclude(callback, builder, fallbackCallback.errorStatus, fallbackCallback.outputShapes);
      AcceptedDelivers(o.status, o.shapes, outputs, NoticeOf(callback, builder));
    }
  }

  /** Takes over the shapes an executor reports. */
  method UpdateStepOutputs(executor: StepExecutor, from: seq<OutputShape>, to: seq<OutputShape>)
    returns (ok: bool, updated: seq<OutputShape>)
    ensures AllRefine(to, updated)
    ensures Accepts(executor.whole, executor.outputIndexes, to, from, ok, updated)
  {
    SameRefines(to);
    if !executor.whole {
      ok, updated := UpdateStepShapes(from, executor.outputIndexes, to);
    } else {
      if |from| == 0 { return true, to; }
      if |from| != |to| { return false, to; }
      ok, updated := UpdateStepShapes(from, Identity(|from|), to);
    }
  }

  /** A controller that hands out the steps of a job. */
  ghost predicate Controls(controller: Controller, job: Job)
    reads controller
  {
    controller.Valid() && controller.body == job.body && controller.offsets == job.c.offsets
  }

  lemma ExecutorShapes(controller: Controller, job: Job, executor: StepExecutor, t: nat)
    requires ValidJob(job) && Controls(controller, job) && t < StepCount(job.body) && controller.Executes(executor, t)
    ensures executor.model == StepModel(job, t) && executor.device == StepDevice(job, t)
    ensures executor.inputs == StepInputs(job, t) && executor.outputs == StepOutputs(job, t)
    ensures MapsOutputs(job.body.Simple?, PositionsOfStep(job, t), StepOutputs(job, t),
                        |Original(job.c).outputIndexes|)
    ensures executor.whole == job.body.Simple?
    ensures !executor.whole ==> executor.outputIndexes == PositionsOfStep(job, t)
  {
    StepMapsOutputs(job, t);
    if job.body.Simple? { WholeMapsOutputs(Original(job.c), PositionsOfStep(job, t)); }
  }

  /** For a whole model the mapping is of no account. */
  lemma JudgedByStep(o: Outcome, whole: bool, mapping: seq<nat>, positions: seq<nat>, to: seq<OutputShape>,
                     code: ResultCode, status: ErrorStatus, updated: seq<OutputShape>)
    requires Judged(o, whole, mapping, to, code, status, updated) && (!whole ==> mapping == positions)
    ensures Judged(o, whole, positions, to, code, status, updated)
  {
    if o.launch == NoError {
      var r := ExecutionCallback.Checked(o.status, o.shapes);
      var ok :| Accepts(whole, mapping, to, r.1, ok, updated) && status == if ok then r.0 else GeneralFailure;
      assert Accepts(whole, positions, to, r.1, ok, updated);
    }
  }

  /** The shapes collected so far refine those the caller gave. */
  ghost predicate Collected(job: Job, builder: ExecutionBuilder, shapes: seq<OutputShape>)
    reads builder
  {
    && builder.model == Original(job.c) && |builder.outputs| == |shapes| == |builder.model.outputIndexes|
    && AllRefine(builder.outputs, shapes)
  }

  /** One attempt at step `t`, on its device or on the CPU: success completes the step, failure leaves
    * the progress as it was. */
  method AttemptStep(ghost job: Job, ghost t: nat, controller: Controller, executor: StepExecutor, onCpu: bool,
                     builder: ExecutionBuilder, world: World, outputShapes: seq<OutputShape>)
    returns (status: ErrorStatus, code: ResultCode, updated: seq<OutputShape>, ghost tried: Tried)
    requires ValidJob(job) && Controls(controller, job) && t < StepCount(job.body)
    requires controller.Executes(executor, t)
    requires Progress(job, t, world.memory) && Honest(world.backend, job.c.sem)
    requires Collected(job, builder, outputShapes)
    modifies world
    ensures tried.outcome.launch == code && tried.status == status && tried.shapes == updated
    ensures IsTry(world.backend, job, t, onCpu, old(Now(world, outputShapes)), tried)
    ensures Now(world, updated) == AfterTry(old(Now(world, outputShapes)), tried)
    ensures Progress(job, t, world.memory) && Collected(job, builder, updated)
    ensures code == NoError && status == None ==> Progress(job, t + 1, world.memory)
  {
    hide ValidJob, Progress, Controls, Controller.Executes, Honest, Executed, Confined, MapsOutputs, Judged, AllRefine;
    ExecutorShapes(controller, job, executor, t);
    ghost var before, o := world.memory, Attempt(world.backend, job, world.attempts, t, onCpu, world.memory);
    LaunchFailed(o, executor.whole, executor.outputIndexes, outputShapes);
    updated, status := outputShapes, GeneralFailure;
    var callback;
    callback, code := world.StartCompute(executor, onCpu, job.c.sem);
    AttemptKeepsProgress(job, t, before, world.memory);
    if callback != null {
      if callback.errorStatus == None { SuccessProgresses(job, t, before, world.memory); }
      status, updated := Judge(o, executor, callback, outputShapes);
      AllRefineTransitive(builder.outputs, outputShapes, updated);
    }
    tried := Tried(o, status, updated);
    JudgedByStep(o, executor.whole, executor.outputIndexes, PositionsOfStep(job, t), outputShapes, code, status,
                 updated);
  }

  lemma LaunchFailed(o: Outcome, whole: bool, mapping: seq<nat>, to: seq<OutputShape>)
    ensures o.launch != NoError ==> Judged(o, whole, mapping, to, o.launch, GeneralFailure, to)
  {
  }

  /** Status and shapes after an attempt that was launched. */
  method Judge(ghost o: Outcome, executor: StepExecutor, callback: ExecutionCallback, outputShapes: seq<OutputShape>)
    returns (status: ErrorStatus, updated: seq<OutputShape>)
    requires o.launch == NoError && HoldsOutcome(callback, o)
    ensures Judged(o, executor.whole, executor.outputIndexes, outputShapes, NoError, status, updated)
    ensures AllRefine(outputShapes, updated) && (status == None ==> callback.errorStatus == None)
  {
    hide AllRefine, Accepts;
    status := callback.errorStatus;
    var ok;
    ok, updated := UpdateStepOutputs(executor, callback.outputShapes, outputShapes);
    if !ok { status := GeneralFailure; }
  }

  lemma ProgressSized(job: Job, t: nat, mem: Memory)
    requires t <= StepCount(job.body) && Progress(job, t, mem)
    ensures Jobs.Sized(job, mem)
  {
  }

  /** Attempts the step that failed again, on the CPU. If that does not work either, executes the full
    * model on the CPU. Either the step is done and the run goes on, or the run is over. */
  method CpuFallbackPartial(ghost job: Job, controller: Controller, builder: ExecutionBuilder, world: World,
                            callback: ExecutionCallback, outputShapes: seq<OutputShape>, ghost promise: Promise)
    returns (ok: bool, updated: seq<OutputShape>, ghost tries: seq<Tried>)
    requires ValidJob(job) && Controls(controller, job) && Honest(world.backend, job.c.sem)
    requires 0 < controller.nextStepIndex <= StepCount(job.body)
    requires Progress(job, controller.nextStepIndex - 1, world.memory)
    requires Collected(job, builder, outputShapes) && Pending(callback, builder)
    requires Promised(promise, world.backend, world.cpu, job, true, true) && !promise.Devices?
    requires Truthful(promise, builder.outputs, outputShapes)
    requires promise.Retries? ==> StepDevice(job, controller.nextStepIndex - 1) != world.cpu
    modifies controller, builder, world, callback
    ensures world.attempts <= old(world.attempts) + 2
    ensures ok ==> && world.attempts == old(world.attempts) + 1
                   && Controls(controller, job) && controller.nextStepIndex == old(controller.nextStepIndex)
                   && Progress(job, controller.nextStepIndex, world.memory)
                   && builder.outputs == old(builder.outputs) && builder.timesFinished == old(builder.timesFinished)
                   && callback.timesNotified == old(callback.timesNotified)
                   && Collected(job, builder, updated) && Pending(callback, builder)
                   && Truthful(promise, builder.outputs, updated)
    ensures !ok ==> Concluded(callback, builder)
    ensures !ok && callback.errorStatus == None ==> OutputsHold(Original(job.c), job.c.env, world.memory)
    ensures promise.Retries? ==> ok
    ensures promise.Whole? && !ok ==> callback.errorStatus == None
    ensures builder.started == old(builder.started)
    ensures RetryMade(world.backend, world.cpu, job, old(controller.nextStepIndex) - 1, old(Now(world, outputShapes)),
                      tries)
    ensures ok <==> tries != [] && Good(tries[0])
    ensures ok ==> Now(world, updated) == AfterTry(old(Now(world, outputShapes)), tries[0])
    ensures !ok ==> RetryStopped(world.backend, job, old(Now(world, outputShapes)), tries, old(builder.outputs),
                                 EndingOf(callback, builder, world))
  {
    hide ValidJob, Progress, Jobs.Sized, Honest, OutputsHold, AllRefine, MapsOutputs, StepsSucceed, StepsRecover;
    hide NeverTooSmall, WholeSucceeds, Judged, EndsWithWhole, Delivers, PositionsOfStep;
    tries := [];
    ghost var t := controller.nextStepIndex - 1;
    ProgressSized(job, t, world.memory);
    updated := outputShapes;
    var executor, n := controller.Fallback();
    ExecutorShapes(controller, job, executor, t);
    if n != NoError || executor.device == world.cpu {
      CpuFallbackFull(job, builder, world, callback, promise);
      return false, updated, tries;
    }
    var status;
    ghost var tried;
    ghost var number, before := world.attempts, world.memory;
    status, n, updated, tried := AttemptStep(job, t, controller, executor, true, builder, world, outputShapes);
    tries := [tried];
    CpuJudged(promise, world.backend, world.cpu, job, true, number, t, before, job.body.Simple?,
              PositionsOfStep(job, t), builder.outputs, outputShapes, n, status, updated);
    ProgressSized(job, t, world.memory);
    if n != NoError {
      CpuFallbackFull(job, builder, world, callback, promise);
      return false, updated, tries;
    }
    if status != None {
      if status == InsufficientSize {
        Conclude(callback, builder, status, updated);
      } else {
        CpuFallbackFull(job, builder, world, callback, promise);
      }
      return false, updated, tries;
    }
    return true, updated, tries;
  }

  /** What is left to do before the controller runs out of steps. */
  ghost function StepsLeft(controller: Controller): nat
    requires controller.Valid()
    reads controller
  {
    if controller.nextStepIndex == BAD_STEP_INDEX then 0 else StepCount(controller.body) - controller.nextStepIndex + 1
  }

  /** Between two rounds of the driver. */
  ghost predicate Running(job: Job, controller: Controller, builder: ExecutionBuilder, world: World,
                          callback: ExecutionCallback, outputShapes: seq<OutputShape>, promise: Promise)
    requires ValidJob(job)
    reads controller, builder, world, callback
  {
    && Controls(controller, job)
    && Collected(job, builder, outputShapes) && Pending(callback, builder)
    && Jobs.Sized(job, world.memory)
    && (controller.nextStepIndex != BAD_STEP_INDEX ==> Progress(job, controller.nextStepIndex, world.memory))
    && Truthful(promise, builder.outputs, outputShapes)
    && (promise.Devices? || promise.Retries? ==> controller.nextStepIndex != BAD_STEP_INDEX)
  }

  /** Runs the plan. Terminates, notifies the callback exactly once on every path, finishes the
    * execution exactly once, and reports success only if the caller's buffers hold the outputs of the
    * original model, whatever failed attempts left behind. It does report success when it was promised
    * that devices or the CPU would succeed. */
  method AsyncStartComputePartitioned(ghost job: Job, controller: Controller, allowFallback: bool,
                                      builder: ExecutionBuilder, world: World, callback: ExecutionCallback,
                                      ghost promise: Promise)
    returns (ghost rounds: seq<Round>)
    requires ValidJob(job) && Controls(controller, job) && Honest(world.backend, job.c.sem)
    requires controller.nextStepIndex == 0 || controller.nextStepIndex == BAD_STEP_INDEX
    requires Pending(callback, builder) && builder.model == Original(job.c)
    requires |builder.outputs| == |builder.model.outputIndexes|
    requires Jobs.Sized(job, world.memory)
    requires Promised(promise, world.backend, world.cpu, job, allowFallback, controller.nextStepIndex == 0)
    requires Truthful(promise, builder.outputs, builder.outputs)
    modifies controller, builder, world, callback
    ensures Concluded(callback, builder) && builder.started == old(builder.started)
    ensures callback.errorStatus == None ==> OutputsHold(Original(job.c), job.c.env, world.memory)
    ensures !promise.Nothing? ==> callback.errorStatus == None
    ensures world.attempts <= old(world.attempts) + 2 * StepCount(job.body) + 1
    ensures !allowFallback ==> world.attempts <= old(world.attempts) + StepCount(job.body)
    ensures promise.Devices? ==> world.attempts == old(world.attempts) + StepCount(job.body)
    ensures RunEnds(world.backend, world.cpu, job, allowFallback, old(controller.nextStepIndex) == 0,
                    old(builder.outputs), old(Now(world, InitialShapes(builder.outputs))), rounds,
                    EndingOf(callback, builder, world))
    ensures old(controller.nextStepIndex) == 0 && Complete(job, rounds) ==>
              && callback.errorStatus == None && callback.outputShapes == builder.outputs
              && builder.outputs == PointAt(old(Now(world, InitialShapes(builder.outputs))), rounds, |rounds|).shapes
              && forall t :: 0 <= t < |rounds| && Final(rounds[t]).outcome.shapes != [] ==>
                             AllReported(job, t, Final(rounds[t]), builder.outputs)
  {
    hide ValidJob, Progress, Jobs.Sized, Honest, OutputsHold, AllRefine, StepsSucceed, StepsRecover, NeverTooSmall;
    hide WholeSucceeds, Truthful, RunEnds, IsRunOf, IsRound, Stopped, EndsWithoutStep, AllReported;
    var outputShapes := builder.InitializeOutputShapes();
    ghost var outputs, first, ready := builder.outputs, Now(world, outputShapes), controller.nextStepIndex == 0;
    rounds := [];
    NoRound(world.backend, world.cpu, job, allowFallback, first);
    StartShapes(outputs, outputShapes);
    StartsTruthful(promise, builder.outputs, outputShapes);
    StartsFromNothing(job, world.memory);
    ghost var start, n := world.attempts, StepCount(job.body);
    while true
      invariant Running(job, controller, builder, world, callback, outputShapes, promise)
      invariant builder.outputs == old(builder.outputs) && builder.timesFinished == old(builder.timesFinished)
      invariant callback.timesNotified == old(callback.timesNotified) && builder.started == old(builder.started)
      invariant world.attempts <=
                start + (if controller.nextStepIndex == BAD_STEP_INDEX then 0 else 2 * controller.nextStepIndex)
      invariant allowFallback || world.attempts <=
                  start + (if controller.nextStepIndex == BAD_STEP_INDEX then 0 else controller.nextStepIndex)
      invariant promise.Devices? ==> world.attempts == start + controller.nextStepIndex
      invariant IsRunOf(world.backend, world.cpu, job, allowFallback, first, rounds) && GoesOn(rounds)
      invariant |rounds| <= n && Now(world, outputShapes) == PointAt(first, rounds, |rounds|)
      invariant if ready then controller.nextStepIndex == |rounds|
                else controller.nextStepIndex == BAD_STEP_INDEX && rounds == []
      decreases StepsLeft(controller)
    {
      var over;
      ghost var made;
      over, outputShapes, made :=
        DriveStep(job, controller, allowFallback, builder, world, callback, outputShapes, promise);
      if made != [] {
        NextRound(world.backend, world.cpu, job, allowFallback, first, rounds, made[0]);
        rounds := rounds + [made[0]];
        assert rounds[|rounds|-1] == made[0];
      }
      if over {
        RunIsOver(world.backend, world.cpu, job, allowFallback, ready, outputs, first, rounds,
                  EndingOf(callback, builder, world));
        if ready && Complete(job, rounds) {
          CompleteRunDelivers(world.backend, world.cpu, job, allowFallback, outputs, first, rounds,
                              EndingOf(callback, builder, world));
        }
        return;
      }
    }
  }

  lemma NoRound(backend: Backend, cpu: nat, job: Job, allowFallback: bool, start: Point)
    ensures IsRunOf(backend, cpu, job, allowFallback, start, [])
  {
  }

  /** The shapes that a run starts with. */
  function InitialShapes(outputs: seq<OutputShape>): (shapes: seq<OutputShape>)
    ensures |shapes| == |outputs|
  {
    seq(|outputs|, i requires 0 <= i < |outputs| => OutputShape(outputs[i].dimensions, true))
  }

  lemma StartShapes(outputs: seq<OutputShape>, shapes: seq<OutputShape>)
    requires |shapes| == |outputs|
    requires forall i :: 0 <= i < |outputs| ==> shapes[i] == OutputShape(outputs[i].dimensions, true)
    ensures shapes == InitialShapes(outputs)
  {
  }

  lemma StartsFromNothing(job: Job, mem: Memory)
    requires Jobs.Sized(job, mem)
    ensures Progress(job, 0, mem)
  {
  }

  lemma StartsTruthful(promise: Promise, outputs: seq<OutputShape>, shapes: seq<OutputShape>)
    requires Truthful(promise, outputs, outputs) && |shapes| == |outputs|
    requires forall i :: 0 <= i < |outputs| ==> shapes[i].dimensions == outputs[i].dimensions
    ensures Truthful(promise, outputs, shapes)
  {
  }

  predicate NoneLeft(job: Job, index: nat) {
    index == BAD_STEP_INDEX || index == StepCount(job.body)
  }

  /** One round of the driver. */
  method DriveStep(ghost job: Job, controller: Controller, allowFallback: bool, builder: ExecutionBuilder,
                   world: World, callback: ExecutionCallback, outputShapes: seq<OutputShape>, ghost promise: Promise)
    returns (over: bool, updated: seq<OutputShape>, ghost made: seq<Round>)
    requires ValidJob(job) && Honest(world.backend, job.c.sem)
    requires Running(job, controller, builder, world, callback, outputShapes, promise)
    requires Promised(promise, world.backend, world.cpu, job, allowFallback, true)
    modifies controller, builder, world, callback
    ensures builder.started == old(builder.started)
    ensures over ==> Concluded(callback, builder)
    ensures over && callback.errorStatus == None ==> OutputsHold(Original(job.c), job.c.env, world.memory)
    ensures over && !promise.Nothing? ==> callback.errorStatus == None
    ensures over && NoneLeft(job, old(controller.nextStepIndex)) ==>
              world.attempts <= old(world.attempts) + if allowFallback then 1 else 0
    ensures over && !NoneLeft(job, old(controller.nextStepIndex)) ==>
              world.attempts <= old(world.attempts) + if allowFallback then 3 else 1
    ensures over && promise.Devices? ==>
              old(controller.nextStepIndex) == StepCount(job.body) && world.attempts == old(world.attempts)
    ensures !over ==> && Running(job, controller, builder, world, callback, updated, promise)
                      && old(controller.nextStepIndex) < StepCount(job.body)
                      && controller.nextStepIndex == old(controller.nextStepIndex) + 1
                      && world.attempts <= old(world.attempts) + 2
                      && builder.outputs == old(builder.outputs) && builder.timesFinished == old(builder.timesFinished)
                      && callback.timesNotified == old(callback.timesNotified)
    ensures !over && (!allowFallback || promise.Devices?) ==> world.attempts == old(world.attempts) + 1
    ensures NoneLeft(job, old(controller.nextStepIndex)) ==>
              && made == []
              && over
              && EndsWithoutStep(world.backend, job, allowFallback, old(controller.nextStepIndex) != BAD_STEP_INDEX,
                                 old(Now(world, outputShapes)), old(builder.outputs),
                                 EndingOf(callback, builder, world))
    ensures !NoneLeft(job, old(controller.nextStepIndex)) ==>
              && |made| == 1
              && IsRound(world.backend, world.cpu, job, allowFallback, old(controller.nextStepIndex),
                         old(Now(world, outputShapes)), made[0])
              && (!over <==> Good(Final(made[0])))
              && (!over ==> Now(world, updated) == AfterRound(old(Now(world, outputShapes)), made[0]))
              && (over ==>
                    Stopped(world.backend, job, allowFallback, AfterRound(old(Now(world, outputShapes)), made[0]),
                            Final(made[0]), old(builder.outputs), EndingOf(callback, builder, world)))
  {
    hide ValidJob, Progress, Jobs.Sized, Honest, OutputsHold, AllRefine, StepsSucceed, StepsRecover, NeverTooSmall;
    hide WholeSucceeds, Judged, IsRound, Stopped, EndsWithWhole, Delivers;
    made := [];
    ghost var t := controller.nextStepIndex;
    updated := outputShapes;
    over := true;
    var executor, n := controller.Next();
    if n != NoError {
      if allowFallback {
        CpuFallbackFull(job, builder, world, callback, promise);
      } else {
        Conclude(callback, builder, ToErrorStatus(n), []);
      }
      return;
    }
    if executor == null {
      ProgressCompletes(job, world.memory);
      Conclude(callback, builder, None, updated);
      return;
    }
    ghost var round;
    over, updated, round :=
      ExecuteStep(job, t, executor, controller, allowFallback, builder, world, callback, outputShapes, promise);
    made := [round];
  }

  /** Attempts a step that was handed out, and deals with failure. */
  method ExecuteStep(ghost job: Job, ghost t: nat, executor: StepExecutor, controller: Controller, allowFallback: bool,
                     builder: ExecutionBuilder, world: World, callback: ExecutionCallback,
                     outputShapes: seq<OutputShape>, ghost promise: Promise)
    returns (over: bool, updated: seq<OutputShape>, ghost round: Round)
    requires ValidJob(job) && Controls(controller, job) && Honest(world.backend, job.c.sem)
    requires t < StepCount(job.body) && controller.nextStepIndex == t + 1 && controller.Executes(executor, t)
    requires Progress(job, t, world.memory)
    requires Collected(job, builder, outputShapes) && Pending(callback, builder)
    requires Promised(promise, world.backend, world.cpu, job, allowFallback, true)
    requires Truthful(promise, builder.outputs, outputShapes)
    modifies controller, builder, world, callback
    ensures builder.started == old(builder.started)
    ensures over ==> Concluded(callback, builder) && !promise.Devices?
    ensures over && callback.errorStatus == None ==> OutputsHold(Original(job.c), job.c.env, world.memory)
    ensures over && !promise.Nothing? ==> callback.errorStatus == None
    ensures world.attempts <= old(world.attempts) + if over then 3 else 2
    ensures !allowFallback || promise.Devices? ==> world.attempts == old(world.attempts) + 1
    ensures !over ==> && Running(job, controller, builder, world, callback, updated, promise)
                      && controller.nextStepIndex == t + 1
                      && builder.outputs == old(builder.outputs) && builder.timesFinished == old(builder.timesFinished)
                      && callback.timesNotified == old(callback.timesNotified)
    ensures IsRound(world.backend, world.cpu, job, allowFallback, t, old(Now(world, outputShapes)), round)
    ensures !over <==> Good(Final(round))
    ensures !over ==> Now(world, updated) == AfterRound(old(Now(world, outputShapes)), round)
    ensures over ==> Stopped(world.backend, job, allowFallback, AfterRound(old(Now(world, outputShapes)), round),
                             Final(round), old(builder.outputs), EndingOf(callback, builder, world))
  {
    hide ValidJob, Progress, Jobs.Sized, Honest, OutputsHold, AllRefine, StepsSucceed, StepsRecover, NeverTooSmall;
    hide WholeSucceeds, Judged, MapsOutputs, StepOutputs, StepDevice, Controller.Executes, Promised, Truthful;
    hide Stopped, RetryStopped, RetryMade, IsRound, PositionsOfStep;
    ExecutorShapes(controller, job, executor, t);
    ghost var number, before, p, outputs := world.attempts, world.memory, Now(world, outputShapes), builder.outputs;
    var status, n;
    ghost var first, tries;
    status, n, updated, first :=
      AttemptStep(job, t, controller, executor, executor.device == world.cpu, builder, world, outputShapes);
    DeviceJudged(promise, world.backend, world.cpu, job, allowFallback, number, t, before, job.body.Simple?,
                 PositionsOfStep(job, t), builder.outputs, outputShapes, n, status, updated);
    if n == NoError && status == None {
      ProgressSized(job, t + 1, world.memory);
      round := Once(first);
      GoodRound(world.backend, world.cpu, job, allowFallback, t, p, first);
      return false, updated, round;
    }
    over, updated, tries :=
      AfterFailure(job, controller, allowFallback, builder, world, callback, n, status, updated, promise, first);
    if !over { ProgressSized(job, t + 1, world.memory); }
    round := RoundOf(first, tries);
    FailedRound(world.backend, world.cpu, job, allowFallback, t, p, first, tries);
    if over {
      FailedRoundStops(world.backend, job, allowFallback, p, first, tries, outputs, EndingOf(callback, builder, world));
    }
  }

  lemma GoodRound(backend: Backend, cpu: nat, job: Job, allowFallback: bool, t: nat, p: Point, first: Tried)
    requires t < StepCount(job.body) && IsTry(backend, job, t, StepDevice(job, t) == cpu, p, first) && Good(first)
    ensures IsRound(backend, cpu, job, allowFallback, t, p, Once(first))
    ensures AfterRound(p, Once(first)) == AfterTry(p, first)
  {
  }

  /** What follows a failed attempt: a retry on the CPU, or the end of the run. */
  method AfterFailure(ghost job: Job, controller: Controller, allowFallback: bool, builder: ExecutionBuilder,
                      world: World, callback: ExecutionCallback, n: ResultCode, status: ErrorStatus,
                      outputShapes: seq<OutputShape>, ghost promise: Promise, ghost first: Tried)
    returns (over: bool, updated: seq<OutputShape>, ghost tries: seq<Tried>)
    requires first.outcome.launch == n && first.status == status
    requires ValidJob(job) && Controls(controller, job) && Honest(world.backend, job.c.sem)
    requires 0 < controller.nextStepIndex <= StepCount(job.body)
    requires Progress(job, controller.nextStepIndex - 1, world.memory)
    requires Collected(job, builder, outputShapes) && Pending(callback, builder)
    requires n != NoError || status != None
    requires Promised(promise, world.backend, world.cpu, job, allowFallback, true) && !promise.Devices?
    requires Truthful(promise, builder.outputs, outputShapes)
    requires promise.Retries? ==> StepDevice(job, controller.nextStepIndex - 1) != world.cpu
    requires promise.Retries? || promise.Whole? ==> n != NoError || status != InsufficientSize
    modifies controller, builder, world, callback
    ensures world.attempts <= old(world.attempts) + 2
    ensures !over ==> && world.attempts == old(world.attempts) + 1
                      && Controls(controller, job) && controller.nextStepIndex == old(controller.nextStepIndex)
                      && Progress(job, controller.nextStepIndex, world.memory)
                      && builder.outputs == old(builder.outputs) && builder.timesFinished == old(builder.timesFinished)
                      && callback.timesNotified == old(callback.timesNotified)
                      && Collected(job, builder, updated) && Pending(callback, builder)
                      && Truthful(promise, builder.outputs, updated)
    ensures over ==> Concluded(callback, builder)
    ensures over && callback.errorStatus == None ==> OutputsHold(Original(job.c), job.c.env, world.memory)
    ensures over && !promise.Nothing? ==> callback.errorStatus == None
    ensures !allowFallback || (n == NoError && status == InsufficientSize) ==>
              && over && world.attempts == old(world.attempts)
              && EndsInFailure(n, status, outputShapes, callback.errorStatus, old(builder.outputs), builder.outputs)
    ensures builder.started == old(builder.started)
    ensures if MayRetry(allowFallback, first)
            then
              && RetryMade(world.backend, world.cpu, job, old(controller.nextStepIndex) - 1,
                           old(Now(world, outputShapes)), tries)
              && (!over <==> tries != [] && Good(tries[0]))
              && (!over ==> Now(world, updated) == AfterTry(old(Now(world, outputShapes)), tries[0]))
              && (over ==> RetryStopped(world.backend, job, old(Now(world, outputShapes)), tries, old(builder.outputs),
                                        EndingOf(callback, builder, world)))
            else
              && tries == [] && over
              && Stopped(world.backend, job, allowFallback, old(Now(world, outputShapes)), first, old(builder.outputs),
                         EndingOf(callback, builder, world))
  {
    hide ValidJob, Progress, Honest, OutputsHold, AllRefine, StepsSucceed, StepsRecover, NeverTooSmall, WholeSucceeds;
    hide RetryStopped, RetryMade, EndsWithWhole, Delivers;
    updated, tries := outputShapes, [];
    over := true;
    if allowFallback && (n != NoError || status != InsufficientSize) {
      var ok;
      ok, updated, tries := CpuFallbackPartial(job, controller, builder, world, callback, updated, promise);
      over := !ok;
    } else {
      ConcludeFailure(callback, builder, n, status, updated);
    }
  }

  /** How a run ends that may not fall back to the CPU: with the failure of the attempt. Shapes are handed
    * on only when a buffer was too small. */
  ghost predicate EndsInFailure(n: ResultCode, status: ErrorStatus, shapes: seq<OutputShape>,
                                result: ErrorStatus, before: seq<OutputShape>, after: seq<OutputShape>) {
    if n != NoError then
      result == (if n == OutputInsufficientSize then GeneralFailure else ToErrorStatus(n)) && after == before
    else if status != InsufficientSize then result == status && after == before
    else if shapes == [] then result == GeneralFailure && after == before
    else result == InsufficientSize && after == shapes
  }

  /** Ends a run that may not fall back to the CPU. */
  method ConcludeFailure(callback: ExecutionCallback, builder: ExecutionBuilder, n: ResultCode, status: ErrorStatus,
                         outputShapes: seq<OutputShape>)
    requires Pending(callback, builder) && (n != NoError || status != None) && AllRefine(builder.outputs, outputShapes)
    modifies callback, builder
    ensures Concluded(callback, builder) && builder.started == old(builder.started)
    ensures EndsInFailure(n, status, outputShapes, callback.errorStatus, old(builder.outputs), builder.outputs)
    ensures callback.errorStatus != None
    ensures if n == NoError && status == InsufficientSize
            then Delivers(status, outputShapes, old(builder.outputs), NoticeOf(callback, builder))
            else Delivers(if n != NoError then ToErrorStatus(n) else status, [], old(builder.outputs),
                          NoticeOf(callback, builder))
  {
    hide AllRefine;
    if n != NoError {
      Conclude(callback, builder, ToErrorStatus(n), []);
    } else if status == InsufficientSize {
      Conclude(callback, builder, status, outputShapes);
    } else {
      Conclude(callback, builder, status, []);
    }
  }

  // ---------------------------------------------------------------- the whole execution

  /** What the caller must provide for a plan to be executed: input values, and output buffers that are
    * exact where a step reads an output back; the temporaries fit into one pool. */
  ghost predicate Provided(sem: Semantics, plan: Plan, body: PlanBody, memory: Memory)
    requires Executable(plan.model)
  {
    && ResultsSized(sem)
    && |memory.arguments| == |plan.model.inputIndexes| && |memory.results| == |plan.model.outputIndexes|
    && (body.Simple? ==> body.model == plan.model)
    && (body.Compound? ==>
          && ValidPlan(plan) && body.steps == plan.steps && |plan.steps| < BAD_STEP_INDEX
          && Total(SizesOf(plan.model, Crossing(plan.steps))) < UINT32_LIMIT
          && ReadBackExact(Setting(sem, plan, map[], 0, memory.arguments, Meaning(sem, plan.model, memory.arguments)),
                           memory))
  }

  /** A job that executes the plan with the caller's memory. */
  ghost predicate IsJob(job: Job, sem: Semantics, plan: Plan, body: PlanBody, memory: Memory) {
    && Executable(plan.model) && |memory.arguments| == |plan.model.inputIndexes|
    && ValidJob(job) && job.body == body && job.c.sem == sem && job.c.plan == plan
    && job.c.arguments == memory.arguments && job.c.env == Meaning(sem, plan.model, memory.arguments)
    && job.lengths == LengthsOf(memory.results)
  }

  /** The promise holds of any such job. `available` says whether memory for temporaries can be had. */
  ghost predicate Assured(promise: Promise, backend: Backend, cpu: nat, sem: Semantics, plan: Plan, body: PlanBody,
                          memory: Memory, allowFallback: bool, available: bool) {
    forall job :: IsJob(job, sem, plan, body, memory) ==> Promised(promise, backend, cpu, job, allowFallback, available)
  }

  /** Lays out the pool and makes a controller for a plan. */
  method MakeController(ghost sem: Semantics, ghost plan: Plan, model: Model, body: PlanBody, memory: Memory,
                        available: bool)
    returns (controller: Controller, provided: Memory, ghost job: Job)
    requires !body.Empty? && Executable(plan.model) && model == plan.model && Provided(sem, plan, body, memory)
    ensures fresh(controller) && Controls(controller, job)
    ensures controller.nextStepIndex == if available || job.c.total == 0 then 0 else BAD_STEP_INDEX
    ensures IsJob(job, sem, plan, body, memory)
    ensures provided == memory.(pool := provided.pool) && Jobs.Sized(job, provided)
  {
    hide Executable, ValidPlan, LaidOut, ReadBackExact, Meaning, ResultsSized, Routable, ValidJob, Jobs.Sized;
    var offsets: map<nat, nat>, total: nat := map[], 0;
    if body.Compound? { offsets, total := LayOutPool(plan, model, body.steps); }
    controller := new Controller(body, offsets, total, available);
    provided := memory.(pool := seq(total, i => 0));
    job := JobFor(sem, plan, body, offsets, total, memory);
    JobIsValid(sem, plan, body, offsets, total, memory, provided);
  }

  ghost function JobFor(sem: Semantics, plan: Plan, body: PlanBody, offsets: map<nat, nat>, total: nat,
                        memory: Memory): Job
    requires Executable(plan.model) && |memory.arguments| == |plan.model.inputIndexes|
  {
    Job(body, Setting(sem, plan, offsets, total, memory.arguments, Meaning(sem, plan.model, memory.arguments)),
        LengthsOf(memory.results))
  }

  lemma JobIsValid(sem: Semantics, plan: Plan, body: PlanBody, offsets: map<nat, nat>, total: nat,
                   memory: Memory, provided: Memory)
    requires !body.Empty? && Executable(plan.model) && Provided(sem, plan, body, memory)
    requires body.Compound? ==> LaidOut(plan.model, Crossing(plan.steps), offsets, total)
    requires provided == memory.(pool := provided.pool) && |provided.pool| == total
    ensures ValidJob(JobFor(sem, plan, body, offsets, total, memory))
    ensures Jobs.Sized(JobFor(sem, plan, body, offsets, total, memory), provided)
  {
    MeaningIsSolution(sem, plan.model, memory.arguments);
    hide Executable, Solution, ValidPlan, LaidOut, ReadBackExact, Meaning, ResultsSized;
    if body.Compound? { ReadBackStill(sem, plan, offsets, total, memory, provided); }
  }

  /** Lays out the pool of a compound plan; all its steps can be routed then. */
  method LayOutPool(ghost plan: Plan, model: Model, steps: seq<FinishedStep>)
    returns (offsets: map<nat, nat>, total: nat)
    requires ValidPlan(plan) && model == plan.model && steps == plan.steps
    requires Total(SizesOf(plan.model, Crossing(plan.steps))) < UINT32_LIMIT
    ensures LaidOut(plan.model, Crossing(plan.steps), offsets, total)
    ensures total == Total(SizesOf(plan.model, Crossing(plan.steps)))
    ensures forall t :: 0 <= t < |plan.steps| ==> Routable(plan.steps[t], offsets)
  {
    LayoutReady(plan);
    offsets, total := LayOutTemporaries(model, steps);
    WrapSmall(Total(SizesOf(plan.model, Crossing(plan.steps))));
    forall t | 0 <= t < |plan.steps| ensures Routable(plan.steps[t], offsets) { StepRoutable(plan, offsets, total, t); }
  }

  lemma ReadBackStill(sem: Semantics, plan: Plan, offsets: map<nat, nat>, total: nat, memory: Memory, provided: Memory)
    requires Executable(plan.model) && |memory.arguments| == |plan.model.inputIndexes|
    requires provided.results == memory.results
    requires ReadBackExact(Setting(sem, plan, map[], 0, memory.arguments, Meaning(sem, plan.model, memory.arguments)),
                           memory)
    ensures ReadBackExact(Setting(sem, plan, offsets, total, memory.arguments,
                                  Meaning(sem, plan.model, memory.arguments)), provided)
  {
    var a := Setting(sem, plan, map[], 0, memory.arguments, Meaning(sem, plan.model, memory.arguments));
    var b := Setting(sem, plan, offsets, total, memory.arguments, Meaning(sem, plan.model, memory.arguments));
    forall q: nat | ReadBack(b, q) ensures ExactBuffer(b, provided, q) {
      assert ReadBack(a, q) && ExactBuffer(a, memory, q);
    }
  }

  /** The output buffers hold what the original model computes from the arguments. */
  ghost predicate ComputesMeaning(sem: Semantics, plan: Plan, before: Memory, after: Memory)
  {
    && Executable(plan.model) && |before.arguments| == |plan.model.inputIndexes|
    && OutputsHold(plan.model, Meaning(sem, plan.model, before.arguments), after)
  }

  /** A run of the plan with the caller's memory and outputs, which ended as recorded. */
  ghost predicate Recorded(record: Record, sem: Semantics, plan: Plan, body: PlanBody, memory: Memory, attempts: nat,
                           outputs: seq<OutputShape>, backend: Backend, cpu: nat, allowFallback: bool,
                           available: bool) {
    && record.Ran? && IsJob(record.job, sem, plan, body, memory)
    && record.start == Point(attempts, memory.(pool := record.start.memory.pool), InitialShapes(outputs))
    && RunEnds(backend, cpu, record.job, allowFallback, available || record.job.c.total == 0, outputs, record.start,
               record.rounds, record.end)
  }

  /** Execution of a plan. It runs at most once; if it succeeds, the caller's buffers hold what the
    * original model computes, and shapes have only become more specific; and it does succeed when that was
    * assured. A synchronous call returns the outcome. An asynchronous one returns a callback that knows the
    * outcome when the caller has waited for it; its thread is taken to have run then. Either way the outcome
    * is that of the run that `record` tells. */
  method Compute(ghost sem: Semantics, ghost plan: Plan, body: PlanBody, builder: ExecutionBuilder, world: World,
                 argumentsSpecified: bool, allowFallback: bool, available: bool, synchronous: bool,
                 ghost promise: Promise)
    returns (code: ResultCode, event: ExecutionCallback?, ghost record: Record)
    requires !body.Empty? && Executable(plan.model) && Provided(sem, plan, body, world.memory) &&
             Honest(world.backend, sem)
    requires builder.model == plan.model && |builder.outputs| == |plan.model.outputIndexes|
    requires builder.finished ==> builder.started
    requires Assured(promise, world.backend, world.cpu, sem, plan, body, world.memory, allowFallback, available)
    requires Truthful(promise, builder.outputs, builder.outputs)
    modifies builder, world
    ensures old(builder.started) ==> code == BadState && event == null && world.memory == old(world.memory)
    ensures !old(builder.started) && !argumentsSpecified ==>
              code == BadData && event == null && world.memory == old(world.memory)
    ensures if !old(builder.started) && argumentsSpecified
            then builder.started && builder.finished && builder.timesFinished == old(builder.timesFinished) + 1
            else builder.timesFinished == old(builder.timesFinished)
    ensures !old(builder.started) && argumentsSpecified && !synchronous ==>
              code == NoError && event != null && fresh(event) && event.notified
    ensures (synchronous && code == NoError) || (event != null && event.errorStatus == None) ==>
              ComputesMeaning(sem, plan, old(world.memory), world.memory)
    ensures !old(builder.started) && argumentsSpecified && !promise.Nothing? ==>
              code == NoError && (event != null ==> event.errorStatus == None)
    ensures synchronous ==> event == null
    ensures old(builder.started) || !argumentsSpecified ==>
              builder.outputs == old(builder.outputs) && world.attempts == old(world.attempts)
    ensures AllRefine(old(builder.outputs), builder.outputs)
    ensures !old(builder.started) && argumentsSpecified ==>
              && Recorded(record, sem, plan, body, old(world.memory), old(world.attempts), old(builder.outputs),
                          world.backend, world.cpu, allowFallback, available)
              && world.memory == record.end.memory && world.attempts == record.end.attempts
              && builder.outputs == record.end.notice.outputs
              && code == (if synchronous then ToResultCode(record.end.notice.status) else NoError)
              && (event != null ==> NoticeOf(event, builder) == record.end.notice)
  {
    hide Executable, Honest, Provided, Assured, AllRefine, ComputesMeaning, Truthful, Recorded;
    SameRefines(builder.outputs);
    event, record := null, NotRun;
    if builder.started { return BadState, null, record; }
    if !argumentsSpecified { return BadData, null, record; }
    builder.started := true;
    var callback;
    callback, record := Launch(sem, plan, body, builder, world, allowFallback, available, promise);
    if synchronous {
      code := ToResultCode(callback.errorStatus);
    } else {
      code, event := NoError, callback;
    }
  }

  /** Makes a controller and runs the plan, with a callback that finishes the execution. */
  method Launch(ghost sem: Semantics, ghost plan: Plan, body: PlanBody, builder: ExecutionBuilder, world: World,
                allowFallback: bool, available: bool, ghost promise: Promise)
    returns (callback: ExecutionCallback, ghost record: Record)
    requires !body.Empty? && Executable(plan.model) && Provided(sem, plan, body, world.memory) &&
             Honest(world.backend, sem)
    requires builder.model == plan.model && |builder.outputs| == |plan.model.outputIndexes| && !builder.finished
    requires Assured(promise, world.backend, world.cpu, sem, plan, body, world.memory, allowFallback, available)
    requires Truthful(promise, builder.outputs, builder.outputs)
    modifies builder, world
    ensures fresh(callback) && callback.notified
    ensures builder.finished && builder.timesFinished == old(builder.timesFinished) + 1
    ensures builder.started == old(builder.started) && AllRefine(old(builder.outputs), builder.outputs)
    ensures callback.errorStatus == None ==> ComputesMeaning(sem, plan, old(world.memory), world.memory)
    ensures !promise.Nothing? ==> callback.errorStatus == None
    ensures Recorded(record, sem, plan, body, old(world.memory), old(world.attempts), old(builder.outputs),
                     world.backend, world.cpu, allowFallback, available)
    ensures record.Ran? && record.end == EndingOf(callback, builder, world)
  {
    hide Executable, ValidJob, Provided, Honest, AllRefine, OutputsHold, Meaning, Truthful, Jobs.Sized, RunEnds;
    var controller, memory;
    ghost var job;
    controller, memory, job := MakeController(sem, plan, builder.model, body, world.memory, available);
    world.memory := memory;
    callback := new ExecutionCallback();
    callback.SetOnFinish(builder);
    ghost var start := Now(world, InitialShapes(builder.outputs));
    ghost var rounds := AsyncStartComputePartitioned(job, controller, allowFallback, builder, world, callback, promise);
    record := Ran(job, start, rounds, EndingOf(callback, builder, world));
  }
}
