/** Runs of the driver as values: which attempts were made, what they reported, and how the run ended. */
module Runs {
  import opened Sequences
  import opened Models
  import opened Sorting
  import opened SubModels
  import opened PlanFinishing
  import opened DeviceChoice
  import opened Controlling
  import opened Execution
  import opened Routing
  import opened Preservation
  import opened OutputShapes
  import opened Finishing
  import opened Jobs

  /** An attempt at a step: what became of it, the status that the driver makes of it, and the shapes that have
    * been collected then. */
  datatype Tried = Tried(outcome: Outcome, status: ErrorStatus, shapes: seq<OutputShape>)

  predicate Good(e: Tried) {
    e.outcome.launch == NoError && e.status == None
  }

  predicate TooSmall(e: Tried) {
    e.outcome.launch == NoError && e.status == InsufficientSize
  }

  /** A step takes one attempt, or a second one on the CPU. */
  datatype Round = Once(first: Tried) | Twice(first: Tried, second: Tried)

  function Final(r: Round): Tried {
    if r.Once? then r.first else r.second
  }

  /** What a run has come to. */
  datatype Point = Point(attempts: nat, memory: Memory, shapes: seq<OutputShape>)

  function AfterTry(p: Point, e: Tried): Point {
    Point(p.attempts + 1, e.outcome.memory, e.shapes)
  }

  function AfterRound(p: Point, r: Round): Point {
    if r.Once? then AfterTry(p, r.first) else AfterTry(AfterTry(p, r.first), r.second)
  }

  function PointAt(start: Point, rounds: seq<Round>, n: nat): Point
    requires n <= |rounds|
  {
    if n == 0 then start else AfterRound(PointAt(start, rounds, n - 1), rounds[n-1])
  }

  /** Position, among the caller's outputs, of each output that step `t` reports. */
  function PositionsOfStep(job: Job, t: nat): seq<nat>
    requires t < StepCount(job.body)
  {
    match job.body
    case Simple(_, _) => Identity(|Original(job.c).outputIndexes|)
    case Compound(steps) => steps[t].outputIndexes
  }

  /** The next attempt, at step `t`. */
  ghost predicate IsTry(backend: Backend, job: Job, t: nat, onCpu: bool, p: Point, e: Tried)
    requires t < StepCount(job.body)
  {
    && e.outcome == backend(p.attempts, onCpu, StepModel(job, t), StepInputs(job, t), StepOutputs(job, t), p.memory)
    && Judged(e.outcome, job.body.Simple?, PositionsOfStep(job, t), p.shapes, e.outcome.launch, e.status, e.shapes)
  }

  /** The attempts at step `t`: on its own device; and on the CPU, when this failed on another device in a way
    * that can be recovered from, and falling back is allowed. */
  ghost predicate IsRound(backend: Backend, cpu: nat, job: Job, allowFallback: bool, t: nat, p: Point, r: Round) {
    && t < StepCount(job.body)
    && IsTry(backend, job, t, StepDevice(job, t) == cpu, p, r.first)
    && (r.Twice? <==> allowFallback && !Good(r.first) && !TooSmall(r.first) && StepDevice(job, t) != cpu)
    && (r.Twice? ==> IsTry(backend, job, t, true, AfterTry(p, r.first), r.second))
  }

  /** One round for each step, in order, up to the first one that does not succeed. */
  ghost predicate IsRunOf(backend: Backend, cpu: nat, job: Job, allowFallback: bool, start: Point, rounds: seq<Round>) {
    && (forall t :: 0 <= t < |rounds| ==>
          IsRound(backend, cpu, job, allowFallback, t, PointAt(start, rounds, t), rounds[t]))
    && (forall t :: 0 <= t < |rounds| - 1 ==> Good(Final(rounds[t])))
  }

  // ---------------------------------------------------------------- how a run ends

  /** What the caller finds: status and shapes of the notification, and the shapes of the outputs. */
  datatype Notice = Notice(status: ErrorStatus, reported: seq<OutputShape>, outputs: seq<OutputShape>)

  datatype Ending = Ending(notice: Notice, memory: Memory, attempts: nat)

  /** A run is concluded with a status and shapes. Shapes come with a success, or with too small a buffer, and
    * are all taken over or none; contradicting shapes, missing ones and unexpected ones are a general failure. */
  ghost predicate Delivers(status: ErrorStatus, shapes: seq<OutputShape>, outputs: seq<OutputShape>, n: Notice) {
    if shapes == [] && status != InsufficientSize then n == Notice(status, [], outputs)
    else if shapes == [] || (status != None && status != InsufficientSize) then n == Notice(GeneralFailure, [], outputs)
    else if AllRefine(outputs, shapes) then n == Notice(status, shapes, shapes)
    else n == Notice(GeneralFailure, shapes, outputs)
  }

  /** Handing on what a callback has accepted leads to the same. */
  lemma AcceptedDelivers(status: ErrorStatus, shapes: seq<OutputShape>, outputs: seq<OutputShape>, n: Notice)
    requires var r := ExecutionCallback.Checked(status, shapes); Delivers(r.0, r.1, outputs, n)
    ensures Delivers(status, shapes, outputs, n)
  {
  }

  ghost predicate EndsAt(p: Point, end: Ending) {
    end.attempts == p.attempts && end.memory == p.memory
  }

  /** Everything is left to one attempt at the whole model on the CPU: it decides status and shapes. */
  ghost predicate EndsWithWhole(backend: Backend, job: Job, number: nat, mem: Memory, outputs: seq<OutputShape>,
                                end: Ending) {
    var o := backend(number, true, Original(job.c), WholeInputs(Original(job.c)), WholeOutputs(Original(job.c)), mem);
    && end.attempts == number + 1 && end.memory == o.memory
    && if o.launch == NoError then Delivers(o.status, o.shapes, outputs, end.notice)
       else Delivers(ToErrorStatus(o.launch), [], outputs, end.notice)
  }

  function FailureOf(e: Tried): ErrorStatus {
    if e.outcome.launch != NoError then ToErrorStatus(e.outcome.launch) else e.status
  }

  /** How a run ends after a step whose last attempt `e` has failed. */
  ghost predicate Stopped(backend: Backend, job: Job, allowFallback: bool, p: Point, e: Tried,
                          outputs: seq<OutputShape>, end: Ending) {
    if TooSmall(e) then EndsAt(p, end) && Delivers(InsufficientSize, p.shapes, outputs, end.notice)
    else if allowFallback then EndsWithWhole(backend, job, p.attempts, p.memory, outputs, end)
    else EndsAt(p, end) && Delivers(FailureOf(e), [], outputs, end.notice)
  }

  /** All steps have been executed. */
  ghost predicate Complete(job: Job, rounds: seq<Round>) {
    |rounds| == StepCount(job.body) && (rounds == [] || Good(Final(rounds[|rounds|-1])))
  }

  /** A whole run. `ready` says whether there is memory for temporaries; no step is executed without. */
  ghost predicate RunEnds(backend: Backend, cpu: nat, job: Job, allowFallback: bool, ready: bool,
                          outputs: seq<OutputShape>, start: Point, rounds: seq<Round>, end: Ending) {
    var p := PointAt(start, rounds, |rounds|);
    && IsRunOf(backend, cpu, job, allowFallback, start, rounds)
    && if !ready then
         && rounds == []
         && if allowFallback then EndsWithWhole(backend, job, p.attempts, p.memory, outputs, end)
            else EndsAt(p, end) && Delivers(GeneralFailure, [], outputs, end.notice)
       else if Complete(job, rounds) then EndsAt(p, end) && Delivers(None, p.shapes, outputs, end.notice)
       else
         && rounds != [] && !Good(Final(rounds[|rounds|-1]))
         && Stopped(backend, job, allowFallback, p, Final(rounds[|rounds|-1]), outputs, end)
  }

  /** How a run ends when there is no step to execute: because all have been, or for lack of memory. */
  ghost predicate EndsWithoutStep(backend: Backend, job: Job, allowFallback: bool, ready: bool, p: Point,
                                  outputs: seq<OutputShape>, end: Ending) {
    if ready then EndsAt(p, end) && Delivers(None, p.shapes, outputs, end.notice)
    else if allowFallback then EndsWithWhole(backend, job, p.attempts, p.memory, outputs, end)
    else EndsAt(p, end) && Delivers(GeneralFailure, [], outputs, end.notice)
  }

  /** A record of a run: what was to be computed, the attempts, and the end. */
  datatype Record = NotRun | Ran(job: Job, start: Point, rounds: seq<Round>, end: Ending)

  // ---------------------------------------------------------------- runs under way

  /** Every step so far was executed. */
  ghost predicate GoesOn(rounds: seq<Round>) {
    rounds == [] || Good(Final(rounds[|rounds|-1]))
  }

  lemma {:induction false} PointOfPrefix(start: Point, rounds: seq<Round>, more: seq<Round>, n: nat)
    requires n <= |rounds|
    ensures PointAt(start, rounds + more, n) == PointAt(start, rounds, n)
  {
    if n > 0 {
      PointOfPrefix(start, rounds, more, n - 1);
      assert (rounds + more)[n-1] == rounds[n-1];
    }
  }

  lemma NextRound(backend: Backend, cpu: nat, job: Job, allowFallback: bool, start: Point, rounds: seq<Round>, r: Round)
    requires IsRunOf(backend, cpu, job, allowFallback, start, rounds) && GoesOn(rounds)
    requires IsRound(backend, cpu, job, allowFallback, |rounds|, PointAt(start, rounds, |rounds|), r)
    ensures IsRunOf(backend, cpu, job, allowFallback, start, rounds + [r])
    ensures PointAt(start, rounds + [r], |rounds| + 1) == AfterRound(PointAt(start, rounds, |rounds|), r)
  {
    hide IsRound, AfterRound;
    var all := rounds + [r];
    forall t | 0 <= t < |all| ensures IsRound(backend, cpu, job, allowFallback, t, PointAt(start, all, t), all[t]) {
      PointOfPrefix(start, rounds, [r], t);
      assert t < |rounds| ==> all[t] == rounds[t];
    }
    forall t | 0 <= t < |all| - 1 ensures Good(Final(all[t])) {
      assert all[t] == rounds[t];
    }
    PointOfPrefix(start, rounds, [r], |rounds|);
  }

  /** Attempts at a step, put together. */
  function RoundOf(first: Tried, tries: seq<Tried>): Round {
    if tries == [] then Once(first) else Twice(first, tries[0])
  }

  /** One retry on the CPU, or none when the CPU has been tried already. */
  ghost predicate RetryMade(backend: Backend, cpu: nat, job: Job, t: nat, p: Point, tries: seq<Tried>) {
    && t < StepCount(job.body) && |tries| <= 1
    && (tries == [] <==> StepDevice(job, t) == cpu)
    && (tries != [] ==> IsTry(backend, job, t, true, p, tries[0]))
  }

  /** The retry did not help, or was not to be had. */
  ghost predicate RetryStopped(backend: Backend, job: Job, p: Point, tries: seq<Tried>, outputs: seq<OutputShape>,
                               end: Ending)
  {
    if tries == [] then EndsWithWhole(backend, job, p.attempts, p.memory, outputs, end)
    else !Good(tries[0]) && Stopped(backend, job, true, AfterTry(p, tries[0]), tries[0], outputs, end)
  }

  /** The driver may try again after a failure. */
  predicate MayRetry(allowFallback: bool, first: Tried) {
    allowFallback && !TooSmall(first)
  }

  lemma FailedRound(backend: Backend, cpu: nat, job: Job, allowFallback: bool, t: nat, p: Point, first: Tried,
                    tries: seq<Tried>)
    requires t < StepCount(job.body) && IsTry(backend, job, t, StepDevice(job, t) == cpu, p, first) && !Good(first)
    requires if MayRetry(allowFallback, first) then RetryMade(backend, cpu, job, t, AfterTry(p, first), tries)
             else tries == []
    ensures IsRound(backend, cpu, job, allowFallback, t, p, RoundOf(first, tries))
    ensures AfterRound(p, RoundOf(first, tries)) ==
            if tries == [] then AfterTry(p, first) else AfterTry(AfterTry(p, first), tries[0])
    ensures Good(Final(RoundOf(first, tries))) <==> tries != [] && Good(tries[0])
  {
  }

  lemma FailedRoundStops(backend: Backend, job: Job, allowFallback: bool, p: Point, first: Tried, tries: seq<Tried>,
                         outputs: seq<OutputShape>, end: Ending)
    requires !Good(first) && (!MayRetry(allowFallback, first) ==> tries == [])
    requires if MayRetry(allowFallback, first) then RetryStopped(backend, job, AfterTry(p, first), tries, outputs, end)
             else Stopped(backend, job, allowFallback, AfterTry(p, first), first, outputs, end)
    ensures var r := RoundOf(first, tries);
            Stopped(backend, job, allowFallback, AfterRound(p, r), Final(r), outputs, end)
  {
    hide EndsWithWhole, Delivers;
  }

  /** How the pieces of a run make up the whole. */
  lemma RunIsOver(backend: Backend, cpu: nat, job: Job, allowFallback: bool, ready: bool, outputs: seq<OutputShape>,
                  start: Point, rounds: seq<Round>, end: Ending)
    requires IsRunOf(backend, cpu, job, allowFallback, start, rounds) && (!ready ==> rounds == [])
    requires var p := PointAt(start, rounds, |rounds|);
             if !ready || Complete(job, rounds)
             then EndsWithoutStep(backend, job, allowFallback, ready, p, outputs, end)
             else rounds != [] && !Good(Final(rounds[|rounds|-1])) &&
                  Stopped(backend, job, allowFallback, p, Final(rounds[|rounds|-1]), outputs, end)
    ensures RunEnds(backend, cpu, job, allowFallback, ready, outputs, start, rounds, end)
  {
    hide EndsWithWhole, Delivers, Stopped, IsRunOf;
  }

  // ---------------------------------------------------------------- what becomes of shapes

  lemma {:induction false} TakenOverRefines(to: seq<OutputShape>, mapping: seq<nat>, from: seq<OutputShape>, n: nat)
    requires n <= |mapping| && n <= |from| && forall i :: 0 <= i < n ==> mapping[i] < |to|
    requires forall i :: 0 <= i < n ==> CanTake(to, mapping, from, i)
    ensures AllRefine(to, TakenOver(to, mapping, from, n))
  {
    if n == 0 {
      SameRefines(to);
    } else {
      TakenOverRefines(to, mapping, from, n - 1);
      assert CanTake(to, mapping, from, n - 1);
      RefinesTransitive(to[mapping[n-1]].dimensions, TakenOver(to, mapping, from, n - 1)[mapping[n-1]].dimensions,
                        from[n-1].dimensions);
    }
  }

  /** Whatever is taken over refines what was known; it touches the mapped positions only. */
  lemma TakesOverFacts(mapping: seq<nat>, to: seq<OutputShape>, from: seq<OutputShape>, ok: bool,
                       updated: seq<OutputShape>, o: nat)
    requires TakesOver(mapping, to, from, ok, updated)
    ensures AllRefine(to, updated) && |updated| == |to|
    ensures o < |to| && o !in mapping ==> updated[o] == to[o]
    ensures o < |to| ==> updated[o] == to[o] || exists i :: 0 <= i < |mapping| && i < |from| &&
                                                            mapping[i] == o && updated[o] == from[i]
    ensures ok && from != [] && NoDup(mapping) ==>
              && |mapping| <= |from|
              && forall i :: 0 <= i < |mapping| ==> mapping[i] < |to| && updated[mapping[i]] == from[i]
  {
    SameRefines(to);
    if from != [] && |mapping| <= |from| {
      var n :| StopsAt(to, mapping, from, n) && updated == TakenOver(to, mapping, from, n) && (ok <==> n == |mapping|);
      TakenOverRefines(to, mapping, from, n);
      if o < |to| {
        TakenOverAt(to, mapping, from, n, o);
        TakenOverFrom(to, mapping, from, n, o);
      }
      if ok && NoDup(mapping) {
        forall i | 0 <= i < |mapping| ensures updated[mapping[i]] == from[i] {
          TakenOverAt(to, mapping, from, n, mapping[i]);
        }
      }
    }
  }

  lemma {:induction false} TakenOverFrom(to: seq<OutputShape>, mapping: seq<nat>, from: seq<OutputShape>, n: nat,
                                         o: nat)
    requires n <= |mapping| && n <= |from| && forall i :: 0 <= i < n ==> mapping[i] < |to|
    requires o < |to|
    ensures TakenOver(to, mapping, from, n)[o] == to[o] ||
            exists i :: 0 <= i < n && mapping[i] == o && TakenOver(to, mapping, from, n)[o] == from[i]
  {
    if n > 0 { TakenOverFrom(to, mapping, from, n - 1, o); }
  }

  lemma IdentityNoDup(n: nat)
    ensures NoDup(Identity(n))
  {
  }

  /** What an attempt does to the shapes collected so far. */
  lemma TryFacts(backend: Backend, job: Job, t: nat, onCpu: bool, p: Point, e: Tried, o: nat)
    requires t < StepCount(job.body) && IsTry(backend, job, t, onCpu, p, e)
    requires NoDup(PositionsOfStep(job, t)) && |p.shapes| == |Original(job.c).outputIndexes|
    ensures AllRefine(p.shapes, e.shapes) && |e.shapes| == |p.shapes|
    ensures o < |p.shapes| && o !in PositionsOfStep(job, t) ==> e.shapes[o] == p.shapes[o]
    ensures o < |p.shapes| ==> e.shapes[o] == p.shapes[o] || Reports(job, t, e, o, e.shapes[o])
    ensures Good(e) && e.outcome.shapes != [] ==> AllReported(job, t, e, e.shapes)
  {
    hide AllRefine, TakesOver, NoDup;
    var mapping, whole := PositionsOfStep(job, t), job.body.Simple?;
    AllRefineSame(p.shapes);
    if e.outcome.launch == NoError {
      var r := ExecutionCallback.Checked(e.outcome.status, e.outcome.shapes);
      var ok :| Accepts(whole, mapping, p.shapes, r.1, ok, e.shapes) && e.status == if ok then r.0 else GeneralFailure;
      if whole && r.1 != [] && |r.1| != |p.shapes| {
      } else {
        var used := if whole then Identity(|r.1|) else mapping;
        IdentityNoDup(|r.1|);
        TakesOverFacts(used, p.shapes, r.1, ok, e.shapes, o);
        TakesOverUnmapped(used, p.shapes, r.1, ok, e.shapes, o);
      }
    }
  }

  lemma AllRefineSame(a: seq<OutputShape>)
    ensures AllRefine(a, a) && forall b :: AllRefine(a, b) ==> |a| == |b|
  {
    SameRefines(a);
  }

  lemma TakesOverUnmapped(mapping: seq<nat>, to: seq<OutputShape>, from: seq<OutputShape>, ok: bool,
                          updated: seq<OutputShape>, o: nat)
    requires TakesOver(mapping, to, from, ok, updated)
    ensures from == [] ==> updated == to
  {
  }

  /** The attempt reports the given shape for the caller's output `o`. */
  ghost predicate Reports(job: Job, t: nat, e: Tried, o: nat, shape: OutputShape)
    requires t < StepCount(job.body)
  {
    exists i :: 0 <= i < |PositionsOfStep(job, t)| && i < |e.outcome.shapes| &&
                PositionsOfStep(job, t)[i] == o && e.outcome.shapes[i] == shape
  }

  /** Every output of the step has the shape that the attempt reports for it. */
  ghost predicate AllReported(job: Job, t: nat, e: Tried, shapes: seq<OutputShape>)
    requires t < StepCount(job.body)
  {
    var positions := PositionsOfStep(job, t);
    |positions| <= |e.outcome.shapes| &&
    forall i :: 0 <= i < |positions| ==> positions[i] < |shapes| && shapes[positions[i]] == e.outcome.shapes[i]
  }

  // ---------------------------------------------------------------- positions

  /** The first output positions of a step that are the caller's are distinct. */
  lemma PositionsNoDup(job: Job, t: nat)
    requires ValidJob(job) && t < StepCount(job.body)
    ensures NoDup(PositionsOfStep(job, t))
  {
    if job.body.Compound? {
      PlanSetting(job);
      PlanPositionsNoDup(job.c.plan, t);
    } else {
      IdentityNoDup(|Original(job.c).outputIndexes|);
    }
  }

  lemma PlanPositionsNoDup(p: Plan, t: nat)
    requires ValidPlan(p) && t < |p.steps|
    ensures NoDup(p.steps[t].outputIndexes)
  {
    StepLists(p, t);
    StepFacts(p, t);
    hide ValidPlan, StepFinished, StepComplete;
    var r, s := p.steps[t], StateOf(p, t);
    forall i, k | 0 <= i < k < |r.outputIndexes| ensures r.outputIndexes[i] != r.outputIndexes[k] {
      PositionNames(p, t, i);
      PositionNames(p, t, k);
      DistinctOutputs(p, t, i, k);
    }
  }

  lemma PositionNames(p: Plan, t: nat, i: nat)
    requires ValidPlan(p) && t < |p.steps| && i < |p.steps[t].outputIndexes|
    ensures i < |p.steps[t].roles.modelOutputs| && p.steps[t].outputIndexes[i] < |p.model.outputIndexes|
    ensures p.model.outputIndexes[p.steps[t].outputIndexes[i]] == p.steps[t].roles.modelOutputs[i].0
    ensures i < |OutPairs(p.steps[t])| && OutPairs(p.steps[t])[i] == p.steps[t].roles.modelOutputs[i]
  {
    StepLists(p, t);
  }

  /** Outputs of a step are different operands of the original model. */
  lemma DistinctOutputs(p: Plan, t: nat, i: nat, k: nat)
    requires ValidPlan(p) && t < |p.steps| && i < k < |p.steps[t].roles.modelOutputs|
    ensures p.steps[t].roles.modelOutputs[i].0 != p.steps[t].roles.modelOutputs[k].0
  {
    StepFacts(p, t);
    var v, s := p.steps[t].roles.modelOutputs, StateOf(p, t);
    PickNoDup(p.model, s.origins, ModelOutput, Output);
    assert v[i] in v && v[k] in v;
    PickMember(p.model, s.origins, ModelOutput, Output, v[i]);
    PickMember(p.model, s.origins, ModelOutput, Output, v[k]);
  }

  /** No two steps report the same output. */
  lemma PositionsApart(job: Job, t: nat, u: nat, i: nat)
    requires ValidJob(job) && t < u < StepCount(job.body) && i < |PositionsOfStep(job, t)|
    ensures PositionsOfStep(job, t)[i] !in PositionsOfStep(job, u)
  {
    PlanSetting(job);
    var p := job.c.plan;
    hide ValidPlan;
    PositionNames(p, t, i);
    forall k | 0 <= k < |p.steps[u].outputIndexes|
      ensures p.steps[u].outputIndexes[k] != p.steps[t].outputIndexes[i]
    {
      PositionNames(p, u, k);
      OutputsApart(p, t, i, u, k);
    }
  }

  // ---------------------------------------------------------------- whole runs

  lemma RoundOfRun(backend: Backend, cpu: nat, job: Job, allowFallback: bool, start: Point, rounds: seq<Round>, t: nat)
    requires IsRunOf(backend, cpu, job, allowFallback, start, rounds) && t < |rounds|
    ensures t < StepCount(job.body)
    ensures IsRound(backend, cpu, job, allowFallback, t, PointAt(start, rounds, t), rounds[t])
    ensures t < |rounds| - 1 ==> Good(Final(rounds[t]))
  {
    assert IsRound(backend, cpu, job, allowFallback, t, PointAt(start, rounds, t), rounds[t]);
  }

  lemma RoundFacts(backend: Backend, cpu: nat, job: Job, allowFallback: bool, t: nat, p: Point, r: Round, o: nat)
    requires ValidJob(job) && IsRound(backend, cpu, job, allowFallback, t, p, r)
    requires |p.shapes| == |Original(job.c).outputIndexes|
    ensures var q := AfterRound(p, r);
            && AllRefine(p.shapes, q.shapes) && |q.shapes| == |p.shapes|
            && (o < |p.shapes| && o !in PositionsOfStep(job, t) ==> q.shapes[o] == p.shapes[o])
            && (o < |p.shapes| ==>
                  || q.shapes[o] == p.shapes[o] || Reports(job, t, r.first, o, q.shapes[o])
                  || (r.Twice? && Reports(job, t, r.second, o, q.shapes[o])))
            && (Good(Final(r)) && Final(r).outcome.shapes != [] ==> AllReported(job, t, Final(r), q.shapes))
  {
    hide ValidJob, AllRefine, IsTry, Reports, AllReported, NoDup;
    PositionsNoDup(job, t);
    TryFacts(backend, job, t, StepDevice(job, t) == cpu, p, r.first, o);
    if r.Twice? {
      TryFacts(backend, job, t, true, AfterTry(p, r.first), r.second, o);
      AllRefineTransitive(p.shapes, r.first.shapes, r.second.shapes);
    }
  }

  /** Shapes only become more specific. */
  lemma {:induction false} RunRefines(backend: Backend, cpu: nat, job: Job, allowFallback: bool, start: Point,
                                      rounds: seq<Round>, n: nat)
    requires ValidJob(job) && IsRunOf(backend, cpu, job, allowFallback, start, rounds) && n <= |rounds|
    requires |start.shapes| == |Original(job.c).outputIndexes|
    ensures AllRefine(start.shapes, PointAt(start, rounds, n).shapes)
    ensures |PointAt(start, rounds, n).shapes| == |start.shapes|
  {
    hide ValidJob, AllRefine, IsRound, IsRunOf, AfterRound, Reports, AllReported, PositionsOfStep;
    AllRefineSame(start.shapes);
    if n > 0 {
      RunRefines(backend, cpu, job, allowFallback, start, rounds, n - 1);
      RoundOfRun(backend, cpu, job, allowFallback, start, rounds, n - 1);
      var before := PointAt(start, rounds, n - 1);
      RoundFacts(backend, cpu, job, allowFallback, n - 1, before, rounds[n-1], 0);
      AllRefineTransitive(start.shapes, before.shapes, AfterRound(before, rounds[n-1]).shapes);
    }
  }

  /** What the attempt reported that completed a step is what is known of its outputs from then on. */
  lemma {:induction false} ReportsAreKept(backend: Backend, cpu: nat, job: Job, allowFallback: bool, start: Point,
                                          rounds: seq<Round>, t: nat, n: nat)
    requires ValidJob(job) && IsRunOf(backend, cpu, job, allowFallback, start, rounds) && t < n <= |rounds|
    requires |start.shapes| == |Original(job.c).outputIndexes|
    requires Good(Final(rounds[t])) && Final(rounds[t]).outcome.shapes != []
    ensures AllReported(job, t, Final(rounds[t]), PointAt(start, rounds, n).shapes)
  {
    hide ValidJob, AllRefine, IsRound, IsRunOf, Reports, AfterRound;
    var before := PointAt(start, rounds, n - 1);
    RunRefines(backend, cpu, job, allowFallback, start, rounds, n - 1);
    RoundOfRun(backend, cpu, job, allowFallback, start, rounds, n - 1);
    RoundOfRun(backend, cpu, job, allowFallback, start, rounds, t);
    if t == n - 1 {
      RoundFacts(backend, cpu, job, allowFallback, t, before, rounds[t], 0);
    } else {
      ReportsAreKept(backend, cpu, job, allowFallback, start, rounds, t, n - 1);
      RunRefines(backend, cpu, job, allowFallback, start, rounds, n);
      var positions, e, after := PositionsOfStep(job, t), Final(rounds[t]), PointAt(start, rounds, n);
      forall i | 0 <= i < |positions|
        ensures positions[i] < |after.shapes| && after.shapes[positions[i]] == e.outcome.shapes[i]
      {
        PositionsApart(job, t, n - 1, i);
        RoundFacts(backend, cpu, job, allowFallback, n - 1, before, rounds[n-1], positions[i]);
      }
    }
  }

  /** Some attempt of one of the first `n` rounds reports the shape for the output. */
  ghost predicate ReportedBy(job: Job, rounds: seq<Round>, n: nat, o: nat, shape: OutputShape)
    requires n <= |rounds| && n <= StepCount(job.body)
  {
    exists t :: 0 <= t < n &&
                (Reports(job, t, rounds[t].first, o, shape) ||
                 (rounds[t].Twice? && Reports(job, t, rounds[t].second, o, shape)))
  }

  /** No shape comes from nowhere: each is the one that the run started with, or was reported for this very
    * output by an attempt at a step. */
  lemma {:induction false} ShapesHaveSources(backend: Backend, cpu: nat, job: Job, allowFallback: bool, start: Point,
                                             rounds: seq<Round>, n: nat, o: nat)
    requires ValidJob(job) && IsRunOf(backend, cpu, job, allowFallback, start, rounds) && n <= |rounds|
    requires |start.shapes| == |Original(job.c).outputIndexes| && o < |start.shapes| && n <= StepCount(job.body)
    ensures |PointAt(start, rounds, n).shapes| == |start.shapes|
    ensures var shape := PointAt(start, rounds, n).shapes[o];
            shape == start.shapes[o] || ReportedBy(job, rounds, n, o, shape)
  {
    hide ValidJob, AllRefine, IsRound, IsRunOf, Reports, AfterRound;
    RunRefines(backend, cpu, job, allowFallback, start, rounds, n);
    if n > 0 {
      var before := PointAt(start, rounds, n - 1);
      RunRefines(backend, cpu, job, allowFallback, start, rounds, n - 1);
      ShapesHaveSources(backend, cpu, job, allowFallback, start, rounds, n - 1, o);
      RoundOfRun(backend, cpu, job, allowFallback, start, rounds, n - 1);
      RoundFacts(backend, cpu, job, allowFallback, n - 1, before, rounds[n-1], o);
      var shape := PointAt(start, rounds, n).shapes[o];
      if shape == before.shapes[o] && ReportedBy(job, rounds, n - 1, o, shape) {
        var t :| 0 <= t < n - 1 && (Reports(job, t, rounds[t].first, o, shape) ||
                                    (rounds[t].Twice? && Reports(job, t, rounds[t].second, o, shape)));
        assert ReportedBy(job, rounds, n, o, shape);
      }
    }
  }

  /** A run that has executed all steps is a success. The caller gets the collected shapes, and with them, for
    * every step, what the attempt reported that completed it. */
  lemma CompleteRunDelivers(backend: Backend, cpu: nat, job: Job, allowFallback: bool, outputs: seq<OutputShape>,
                            start: Point, rounds: seq<Round>, end: Ending)
    requires ValidJob(job) && RunEnds(backend, cpu, job, allowFallback, true, outputs, start, rounds, end)
    requires Complete(job, rounds) && |start.shapes| == |Original(job.c).outputIndexes|
    requires AllRefine(outputs, start.shapes)
    ensures var shapes := PointAt(start, rounds, |rounds|).shapes; end.notice == Notice(None, shapes, shapes)
    ensures forall t :: 0 <= t < |rounds| && Final(rounds[t]).outcome.shapes != [] ==>
                        AllReported(job, t, Final(rounds[t]), end.notice.outputs)
  {
    hide ValidJob, AllRefine, AllReported, IsRound, IsRunOf;
    RunRefines(backend, cpu, job, allowFallback, start, rounds, |rounds|);
    AllRefineTransitive(outputs, start.shapes, PointAt(start, rounds, |rounds|).shapes);
    AllRefineSame(outputs);
    AllRefineSame(start.shapes);
    forall t | 0 <= t < |rounds| && Final(rounds[t]).outcome.shapes != []
      ensures AllReported(job, t, Final(rounds[t]), end.notice.outputs)
    {
      RoundOfRun(backend, cpu, job, allowFallback, start, rounds, t);
      ReportsAreKept(backend, cpu, job, allowFallback, start, rounds, t, |rounds|);
    }
  }

  /** A run fails with the status of its last attempt: of the whole model, where falling back is allowed and the
    * last step did not find a buffer too small; and of that step otherwise. */
  lemma FailureIsLast(backend: Backend, cpu: nat, job: Job, allowFallback: bool, outputs: seq<OutputShape>,
                      start: Point, rounds: seq<Round>, end: Ending)
    requires ValidJob(job) && RunEnds(backend, cpu, job, allowFallback, true, outputs, start, rounds, end)
    requires end.notice.status != None && |start.shapes| == |Original(job.c).outputIndexes|
    requires AllRefine(outputs, start.shapes)
    ensures rounds != [] && !Good(Final(rounds[|rounds|-1]))
    ensures var p, e := PointAt(start, rounds, |rounds|), Final(rounds[|rounds|-1]);
            if TooSmall(e) && outputs != [] then
              end.notice == Notice(InsufficientSize, p.shapes, p.shapes) && EndsAt(p, end)
            else if allowFallback && !TooSmall(e) then EndsWithWhole(backend, job, p.attempts, p.memory, outputs, end)
            else
              && EndsAt(p, end)
              && end.notice ==
                 Notice(if FailureOf(e) == InsufficientSize then GeneralFailure else FailureOf(e), [], outputs)
  {
    hide ValidJob, AllRefine, IsRound, IsRunOf;
    RunRefines(backend, cpu, job, allowFallback, start, rounds, |rounds|);
    AllRefineTransitive(outputs, start.shapes, PointAt(start, rounds, |rounds|).shapes);
    AllRefineSame(outputs);
    AllRefineSame(start.shapes);
  }
}
