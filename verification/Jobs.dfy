/** Runs of a plan, seen from outside: attempts, progress, and what can be promised about them. */
module Jobs {
  import opened Sequences
  import opened Models
  import opened Sorting
  import opened PlanFinishing
  import opened DeviceChoice
  import opened Layout
  import opened Controlling
  import opened Execution
  import opened Routing
  import opened Preservation
  import opened OutputShapes

  /** What became of one attempt to execute something: launch result; status and shapes reported; memory. */
  datatype Outcome = Outcome(launch: ResultCode, status: ErrorStatus, shapes: seq<OutputShape>, memory: Memory)

  /** Drivers and the CPU: anything may happen at each attempt, which is identified by a number. */
  type Backend = (nat, bool, Model, seq<Location>, seq<Location>, Memory) -> Outcome

  /** An attempt writes nothing but the outputs it was given; if it reports success, they are right. */
  ghost predicate Honest(backend: Backend, sem: Semantics) {
    forall n: nat, cpu, m, ins, outs, mem ::
      var o := backend(n, cpu, m, ins, outs, mem);
      && Confined(mem, o.memory, outs)
      && (o.launch == NoError && o.status == None ==> Executed(sem, m, ins, outs, mem, o.memory))
  }

  // ---------------------------------------------------------------- progress of a run

  /** A plan, the values it is to compute, and the lengths of the caller's output buffers. */
  datatype Job = Job(body: PlanBody, c: Setting, lengths: seq<nat>)

  ghost predicate ValidJob(job: Job) {
    && Executable(Original(job.c))
    && Solution(job.c.sem, Original(job.c), job.c.arguments, job.c.env)
    && !job.body.Empty?
    && (job.body.Simple? ==> job.body.model == Original(job.c))
    && (job.body.Compound? ==> ValidSetting(job.c) && job.body.steps == job.c.plan.steps)
  }

  function LengthsOf(buffers: seq<Bytes>): (r: seq<nat>)
    ensures |r| == |buffers|
  {
    seq(|buffers|, i requires 0 <= i < |buffers| => |buffers[i]|)
  }

  ghost predicate Sized(job: Job, mem: Memory) {
    && mem.arguments == job.c.arguments && |mem.results| == |Original(job.c).outputIndexes|
    && LengthsOf(mem.results) == job.lengths
    && (job.body.Compound? ==> MemoryFits(job.c, mem))
  }

  /** The first `t` steps have been executed successfully. */
  ghost predicate Progress(job: Job, t: nat, mem: Memory)
    requires t <= StepCount(job.body)
  {
    && Sized(job, mem)
    && (job.body.Simple? && t == 1 ==> OutputsHold(Original(job.c), job.c.env, mem))
    && (job.body.Compound? && ValidJob(job) ==> DeliveredBefore(job.c, t, mem))
  }

  function StepModel(job: Job, t: nat): Model
    requires t < StepCount(job.body)
  {
    match job.body
    case Simple(model, _) => model
    case Compound(steps) => steps[t].subModel
  }

  function StepDevice(job: Job, t: nat): nat
    requires t < StepCount(job.body)
  {
    match job.body
    case Simple(_, device) => device
    case Compound(steps) => steps[t].device
  }

  function StepInputs(job: Job, t: nat): seq<Location>
    requires t < StepCount(job.body)
  {
    match job.body
    case Simple(model, _) => WholeInputs(model)
    case Compound(steps) => InputLocations(steps[t], job.c.offsets)
  }

  function StepOutputs(job: Job, t: nat): seq<Location>
    requires t < StepCount(job.body)
  {
    match job.body
    case Simple(model, _) => WholeOutputs(model)
    case Compound(steps) => OutputLocations(steps[t], job.c.offsets)
  }

  function WholeInputs(m: Model): seq<Location> {
    Arguments(Identity(|m.inputIndexes|))
  }

  function WholeOutputs(m: Model): seq<Location> {
    Results(Identity(|m.outputIndexes|))
  }

  /** Executing the whole model at once gives every output its value. */
  lemma WholeModelDelivers(sem: Semantics, m: Model, arguments: seq<Bytes>, env: Env, before: Memory, after: Memory)
    requires Executable(m) && Solution(sem, m, arguments, env) && before.arguments == arguments
    requires Executed(sem, m, WholeInputs(m), WholeOutputs(m), before, after)
    requires |before.results| == |m.outputIndexes|
    ensures OutputsHold(m, env, after)
  {
    var values := ReadAll(before, WholeInputs(m));
    assert values == arguments;
    MeaningUnique(sem, m, arguments, env);
    hide Executable, Solution, Meaning, OutputValues;
    forall q | 0 <= q < |m.outputIndexes|
      ensures m.outputIndexes[q] in env && Holds(after, Result(q), env[m.outputIndexes[q]])
    {
      assert WholeOutputs(m)[q] == Result(q);
      OutputValueAt(sem, m, arguments, q);
    }
  }

  lemma ConfinedLengths(before: Memory, after: Memory, outs: seq<Location>)
    requires Confined(before, after, outs)
    ensures LengthsOf(after.results) == LengthsOf(before.results)
  {
  }

  lemma PlanSetting(job: Job)
    requires ValidJob(job) && job.body.Compound?
    ensures ValidSetting(job.c) && job.body.steps == job.c.plan.steps
  {
  }

  /** A failed attempt at the next step leaves the progress as it was. */
  lemma AttemptKeepsProgress(job: Job, t: nat, before: Memory, after: Memory)
    requires ValidJob(job) && t < StepCount(job.body) && Progress(job, t, before)
    requires Confined(before, after, StepOutputs(job, t))
    ensures Progress(job, t, after)
  {
    ConfinedLengths(before, after, StepOutputs(job, t));
    if job.body.Compound? {
      PlanSetting(job);
      hide ValidSetting, DeliveredBefore, ReadBackExact;
      AttemptKeeps(job.c, t, before, after);
    }
  }

  /** A successful one completes the step. */
  lemma SuccessProgresses(job: Job, t: nat, before: Memory, after: Memory)
    requires ValidJob(job) && t < StepCount(job.body) && Progress(job, t, before)
    requires Executed(job.c.sem, StepModel(job, t), StepInputs(job, t), StepOutputs(job, t), before, after)
    ensures Progress(job, t + 1, after)
  {
    ConfinedLengths(before, after, StepOutputs(job, t));
    hide Solution, Executable, DeliveredBefore, ReadBackExact, OutputsHold;
    if job.body.Compound? {
      PlanSetting(job);
      StepAdvances(job.c, t, before, after);
    } else {
      WholeModelDelivers(job.c.sem, Original(job.c), job.c.arguments, job.c.env, before, after);
    }
  }

  /** When the last step is done, the caller has the outputs of the original model. */
  lemma ProgressCompletes(job: Job, mem: Memory)
    requires ValidJob(job) && Progress(job, StepCount(job.body), mem)
    ensures OutputsHold(Original(job.c), job.c.env, mem)
  {
    if job.body.Compound? { PlanDelivers(job.c, mem); }
  }

  // ---------------------------------------------------------------- attempts

  /** Attempt number `n`: at step `t`, on its device or on the CPU. */
  function Attempt(backend: Backend, job: Job, n: nat, t: nat, onCpu: bool, mem: Memory): Outcome
    requires t < StepCount(job.body)
  {
    backend(n, onCpu, StepModel(job, t), StepInputs(job, t), StepOutputs(job, t), mem)
  }

  /** Attempt number `n`: at the whole model, on the CPU. */
  function WholeAttempt(backend: Backend, job: Job, n: nat, mem: Memory): Outcome {
    backend(n, true, Original(job.c), WholeInputs(Original(job.c)), WholeOutputs(Original(job.c)), mem)
  }

  /** The status that the callback of an attempt ends up with. */
  function Reported(o: Outcome): ErrorStatus {
    ExecutionCallback.Checked(o.status, o.shapes).0
  }

  /** No shapes, or for every output that is one of the caller's, its true dimensions. */
  ghost predicate TrueShapes(shapes: seq<OutputShape>, outs: seq<Location>, truth: seq<OutputShape>) {
    || shapes == []
    || (&& |shapes| == |outs|
        && forall i :: 0 <= i < |outs| && outs[i].Result? && outs[i].index < |truth| ==>
             shapes[i].dimensions == truth[outs[i].index].dimensions)
  }

  ghost predicate Succeeds(o: Outcome, outs: seq<Location>, truth: seq<OutputShape>) {
    o.launch == NoError && o.status == None && TrueShapes(o.shapes, outs, truth)
  }

  /** A failure after which the driver may still go on. */
  predicate Recoverable(o: Outcome) {
    o.launch != NoError || (Reported(o) != None && Reported(o) != InsufficientSize)
  }

  // ---------------------------------------------------------------- promises

  /** Step `t` succeeds, at attempt number `n`, if the steps before it have been executed. */
  ghost predicate SucceedsAt(backend: Backend, cpu: nat, job: Job, truth: seq<OutputShape>, onCpu: bool,
                             n: nat, t: nat, mem: Memory) {
    t < StepCount(job.body) && Progress(job, t, mem) ==>
      Succeeds(Attempt(backend, job, n, t, onCpu || StepDevice(job, t) == cpu, mem), StepOutputs(job, t), truth)
  }

  /** Each step succeeds: on its device, or on the CPU. */
  ghost predicate StepsSucceed(backend: Backend, cpu: nat, job: Job, truth: seq<OutputShape>, onCpu: bool) {
    forall n: nat, t: nat, mem :: SucceedsAt(backend, cpu, job, truth, onCpu, n, t, mem)
  }

  ghost predicate RecoversAt(backend: Backend, cpu: nat, job: Job, truth: seq<OutputShape>, n: nat, t: nat,
                             mem: Memory) {
    t < StepCount(job.body) && Progress(job, t, mem) ==>
      var o := Attempt(backend, job, n, t, StepDevice(job, t) == cpu, mem);
      Succeeds(o, StepOutputs(job, t), truth) || Recoverable(o)
  }

  /** A step that fails on its device fails in a way that can be recovered from. */
  ghost predicate StepsRecover(backend: Backend, cpu: nat, job: Job, truth: seq<OutputShape>) {
    forall n: nat, t: nat, mem :: RecoversAt(backend, cpu, job, truth, n, t, mem)
  }

  ghost predicate RoomAt(backend: Backend, job: Job, n: nat, t: nat, onCpu: bool, mem: Memory) {
    t < StepCount(job.body) && Progress(job, t, mem) ==>
      var o := Attempt(backend, job, n, t, onCpu, mem);
      o.launch != NoError || Reported(o) != InsufficientSize
  }

  /** No attempt at a step complains about the size of a buffer. */
  ghost predicate NeverTooSmall(backend: Backend, job: Job) {
    forall n: nat, t: nat, onCpu, mem :: RoomAt(backend, job, n, t, onCpu, mem)
  }

  ghost predicate WholeSucceeds(backend: Backend, job: Job, truth: seq<OutputShape>) {
    forall n: nat, mem :: Sized(job, mem) ==>
      Succeeds(WholeAttempt(backend, job, n, mem), WholeOutputs(Original(job.c)), truth)
  }

  /** Reasons why a run is bound to succeed: every device does its work; what the devices leave undone the
    * CPU does, step by step; or the CPU can execute the whole model in the end. `truth` are the shapes that
    * the outputs really have. */
  datatype Promise =
    | Nothing
    | Devices(truth: seq<OutputShape>)
    | Retries(truth: seq<OutputShape>)
    | Whole(truth: seq<OutputShape>)

  /** `ready` says whether the memory for temporaries could be had. */
  ghost predicate Promised(promise: Promise, backend: Backend, cpu: nat, job: Job, allowFallback: bool, ready: bool) {
    match promise
    case Nothing => true
    case Devices(truth) => ready && StepsSucceed(backend, cpu, job, truth, false)
    case Retries(truth) =>
      && ready && allowFallback
      && StepsSucceed(backend, cpu, job, truth, true) && StepsRecover(backend, cpu, job, truth)
    case Whole(truth) => allowFallback && WholeSucceeds(backend, job, truth) && NeverTooSmall(backend, job)
  }

  /** What is known about the outputs is true: of the caller's list, and, when steps are relied on, of the
    * list that is collected. */
  ghost predicate Truthful(promise: Promise, outputs: seq<OutputShape>, collected: seq<OutputShape>) {
    match promise
    case Nothing => true
    case Devices(truth) => AllRefine(outputs, truth) && AllRefine(collected, truth)
    case Retries(truth) => AllRefine(outputs, truth) && AllRefine(collected, truth)
    case Whole(truth) => AllRefine(outputs, truth)
  }

  // ---------------------------------------------------------------- what an attempt reports

  /** Takes over shapes: those of a step by its mapping, those of a whole model position by position. */
  ghost predicate Accepts(whole: bool, mapping: seq<nat>, to: seq<OutputShape>, from: seq<OutputShape>,
                          ok: bool, updated: seq<OutputShape>) {
    if !whole then TakesOver(mapping, to, from, ok, updated)
    else if from != [] && |from| != |to| then !ok && updated == to
    else TakesOver(Identity(|from|), to, from, ok, updated)
  }

  /** How the driver judges an attempt: a launch failure changes nothing; otherwise shapes are taken over,
    * and a contradiction turns any status into a general failure. */
  ghost predicate Judged(o: Outcome, whole: bool, mapping: seq<nat>, to: seq<OutputShape>,
                         code: ResultCode, status: ErrorStatus, updated: seq<OutputShape>) {
    && code == o.launch
    && (o.launch != NoError ==> updated == to)
    && (o.launch == NoError ==>
          var r := ExecutionCallback.Checked(o.status, o.shapes);
          exists ok :: Accepts(whole, mapping, to, r.1, ok, updated) && status == if ok then r.0 else GeneralFailure)
  }

  /** The first outputs of an executor are the caller's outputs that its mapping lists. */
  ghost predicate MapsOutputs(whole: bool, mapping: seq<nat>, outs: seq<Location>, n: nat) {
    if whole then |outs| == n && forall i :: 0 <= i < n ==> outs[i] == Result(i)
    else |mapping| <= |outs| && forall i :: 0 <= i < |mapping| ==> mapping[i] < n && outs[i] == Result(mapping[i])
  }

  lemma JudgedSuccess(o: Outcome, whole: bool, mapping: seq<nat>, outs: seq<Location>, to: seq<OutputShape>,
                      code: ResultCode, status: ErrorStatus, updated: seq<OutputShape>, truth: seq<OutputShape>)
    requires Judged(o, whole, mapping, to, code, status, updated) && MapsOutputs(whole, mapping, outs, |truth|)
    requires Succeeds(o, outs, truth) && AllRefine(to, truth)
    ensures code == NoError && status == None && AllRefine(updated, truth)
  {
    var r := ExecutionCallback.Checked(o.status, o.shapes);
    var ok :| Accepts(whole, mapping, to, r.1, ok, updated) && status == if ok then r.0 else GeneralFailure;
    var used := if whole then Identity(|r.1|) else mapping;
    assert SayTruth(used, r.1, truth);
    TruthIsTaken(used, to, r.1, ok, updated, truth);
  }

  /** A recoverable failure leaves no shapes behind. */
  lemma JudgedRecoverable(o: Outcome, whole: bool, mapping: seq<nat>, to: seq<OutputShape>,
                          code: ResultCode, status: ErrorStatus, updated: seq<OutputShape>)
    requires Judged(o, whole, mapping, to, code, status, updated) && Recoverable(o)
    ensures updated == to && (code != NoError || (status != None && status != InsufficientSize))
  {
  }

  /** The shapes that a failed attempt leaves behind. Nothing is left unless the attempt reports success or
    * too small a buffer; and when the run then goes on, there is something left exactly when a shape was
    * refused after another one had said something new. */
  lemma FailedShapesSurvive(o: Outcome, mapping: seq<nat>, to: seq<OutputShape>,
                            code: ResultCode, status: ErrorStatus, updated: seq<OutputShape>)
    requires Judged(o, false, mapping, to, code, status, updated) && NoDup(mapping)
    requires code != NoError || (status != None && status != InsufficientSize)
    ensures updated != to <==>
            && code == NoError && (Reported(o) == None || Reported(o) == InsufficientSize)
            && |mapping| <= |o.shapes|
            && exists n: nat, i: nat ::
                 StopsAt(to, mapping, o.shapes, n) && i < n < |mapping| && o.shapes[i] != to[mapping[i]]
  {
    if code == NoError && (Reported(o) == None || Reported(o) == InsufficientSize) {
      var r := ExecutionCallback.Checked(o.status, o.shapes);
      assert r.1 == o.shapes;
      var ok :| Accepts(false, mapping, to, r.1, ok, updated) && status == if ok then r.0 else GeneralFailure;
      if o.shapes != [] && |mapping| <= |o.shapes| {
        var n :| StopsAt(to, mapping, o.shapes, n) && updated == TakenOver(to, mapping, o.shapes, n) &&
                 (ok <==> n == |mapping|);
        RefusedShapesSurvive(to, mapping, o.shapes, n);
        forall k | StopsAt(to, mapping, o.shapes, k) ensures k == n { StopsOnce(to, mapping, o.shapes, k, n); }
      }
    }
  }

  /** The outputs of a step that are the caller's come first, in the order of its mapping. */
  lemma StepMapsOutputs(job: Job, t: nat)
    requires ValidJob(job) && t < StepCount(job.body)
    ensures job.body.Simple? ==> MapsOutputs(true, [], StepOutputs(job, t), |Original(job.c).outputIndexes|)
    ensures job.body.Compound? ==>
              MapsOutputs(false, job.body.steps[t].outputIndexes, StepOutputs(job, t), |Original(job.c).outputIndexes|)
  {
    if job.body.Compound? {
      PlanSetting(job);
      StepLists(job.c.plan, t);
    }
  }

  lemma WholeMapsOutputs(m: Model, mapping: seq<nat>)
    ensures MapsOutputs(true, mapping, WholeOutputs(m), |m.outputIndexes|)
  {
  }

  /** What a promise says about an attempt at a step on its own device. */
  lemma DeviceJudged(promise: Promise, backend: Backend, cpu: nat, job: Job, allowFallback: bool,
                     n: nat, t: nat, mem: Memory, whole: bool, mapping: seq<nat>, outputs: seq<OutputShape>,
                     to: seq<OutputShape>, code: ResultCode, status: ErrorStatus, updated: seq<OutputShape>)
    requires t < StepCount(job.body) && Progress(job, t, mem)
    requires Promised(promise, backend, cpu, job, allowFallback, true) && Truthful(promise, outputs, to)
    requires MapsOutputs(whole, mapping, StepOutputs(job, t), |outputs|)
    requires Judged(Attempt(backend, job, n, t, StepDevice(job, t) == cpu, mem), whole, mapping, to, code, status,
                    updated)
    ensures Truthful(promise, outputs, updated)
    ensures promise.Devices? ==> code == NoError && status == None
    ensures promise.Retries? && (code != NoError || status != None) ==>
              StepDevice(job, t) != cpu && (code != NoError || status != InsufficientSize)
    ensures promise.Whole? ==> code != NoError || status != InsufficientSize
  {
    hide Progress;
    var o := Attempt(backend, job, n, t, StepDevice(job, t) == cpu, mem);
    match promise
    case Nothing =>
    case Devices(truth) =>
      assert SucceedsAt(backend, cpu, job, truth, false, n, t, mem);
      JudgedSuccess(o, whole, mapping, StepOutputs(job, t), to, code, status, updated, truth);
    case Retries(truth) =>
      assert SucceedsAt(backend, cpu, job, truth, true, n, t, mem) && RecoversAt(backend, cpu, job, truth, n, t, mem);
      if Succeeds(o, StepOutputs(job, t), truth) {
        JudgedSuccess(o, whole, mapping, StepOutputs(job, t), to, code, status, updated, truth);
      } else {
        JudgedRecoverable(o, whole, mapping, to, code, status, updated);
      }
    case Whole(truth) =>
      assert RoomAt(backend, job, n, t, StepDevice(job, t) == cpu, mem);
  }

  /** What it says about an attempt on the CPU. */
  lemma CpuJudged(promise: Promise, backend: Backend, cpu: nat, job: Job, allowFallback: bool,
                  n: nat, t: nat, mem: Memory, whole: bool, mapping: seq<nat>, outputs: seq<OutputShape>,
                  to: seq<OutputShape>, code: ResultCode, status: ErrorStatus, updated: seq<OutputShape>)
    requires t < StepCount(job.body) && Progress(job, t, mem) && !promise.Devices?
    requires Promised(promise, backend, cpu, job, allowFallback, true) && Truthful(promise, outputs, to)
    requires MapsOutputs(whole, mapping, StepOutputs(job, t), |outputs|)
    requires Judged(Attempt(backend, job, n, t, true, mem), whole, mapping, to, code, status, updated)
    ensures Truthful(promise, outputs, updated)
    ensures promise.Retries? ==> code == NoError && status == None
    ensures promise.Whole? ==> code != NoError || status != InsufficientSize
  {
    hide Progress;
    var o := Attempt(backend, job, n, t, true, mem);
    match promise
    case Nothing =>
    case Retries(truth) =>
      assert SucceedsAt(backend, cpu, job, truth, true, n, t, mem);
      JudgedSuccess(o, whole, mapping, StepOutputs(job, t), to, code, status, updated, truth);
    case Whole(truth) =>
      assert RoomAt(backend, job, n, t, true, mem);
  }
}
