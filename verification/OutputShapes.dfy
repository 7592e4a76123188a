/** Output shapes reported by executions, and the execution that collects them. */
module OutputShapes {
  import opened Sequences
  import opened Models

  datatype ErrorStatus =
    | None
    | DeviceUnavailable
    | GeneralFailure
    | InsufficientSize
    | InvalidArgument

  function ToErrorStatus(code: ResultCode): ErrorStatus {
    match code
    case NoError => None
    case BadData => InvalidArgument
    case UnexpectedNull => InvalidArgument
    case OutputInsufficientSize => InsufficientSize
    case UnavailableDevice => DeviceUnavailable
    case _ => GeneralFailure
  }

  function ToResultCode(status: ErrorStatus): ResultCode {
    match status
    case None => NoError
    case InvalidArgument => BadData
    case InsufficientSize => OutputInsufficientSize
    case DeviceUnavailable => UnavailableDevice
    case GeneralFailure => OpFailed
  }

  /** No status is lost on the way through a result code, and only these codes keep what they say. */
  lemma StatusRoundTrip(status: ErrorStatus, code: ResultCode)
    ensures ToErrorStatus(ToResultCode(status)) == status
    ensures ToResultCode(ToErrorStatus(code)) == code <==>
              code in {NoError, BadData, OutputInsufficientSize, UnavailableDevice, OpFailed}
    ensures ToErrorStatus(code) == None <==> code == NoError
    ensures ToErrorStatus(code) == InvalidArgument <==> code == BadData || code == UnexpectedNull
    ensures ToErrorStatus(code) == InsufficientSize <==> code == OutputInsufficientSize
    ensures ToErrorStatus(code) == DeviceUnavailable <==> code == UnavailableDevice
  {
  }

  datatype OutputShape = OutputShape(dimensions: seq<nat>, isSufficient: bool)

  /** `from` says at least as much as `to`: what `to` specifies stays the same. */
  ghost predicate Refines(to: seq<nat>, from: seq<nat>) {
    to == [] || (|to| == |from| && forall i :: 0 <= i < |to| ==> to[i] == from[i] || to[i] == 0)
  }

  /** Refinement composes: a rank or dimension that was specified once never changes. */
  lemma RefinesTransitive(a: seq<nat>, b: seq<nat>, c: seq<nat>)
    requires Refines(a, b) && Refines(b, c)
    ensures Refines(a, c)
  {
  }

  lemma RefinesReflexive(a: seq<nat>)
    ensures Refines(a, a)
  {
  }

  /** Two refinements in both directions leave a shape of known rank as it was. */
  lemma RefinesAntisymmetric(a: seq<nat>, b: seq<nat>)
    requires Refines(a, b) && Refines(b, a) && a != []
    ensures a == b
  {
  }

  method IsUpdatable(to: seq<nat>, from: seq<nat>) returns (ok: bool)
    ensures ok <==> Refines(to, from)
  {
    if |to| == 0 { return true; }
    if |to| != |from| { return false; }
    for i := 0 to |to|
      invariant forall k :: 0 <= k < i ==> to[k] == from[k] || to[k] == 0
    {
      if !(to[i] == from[i] || to[i] == 0) { return false; }
    }
    return true;
  }

  ghost predicate AllRefine(to: seq<OutputShape>, from: seq<OutputShape>) {
    && |to| == |from|
    && forall i :: 0 <= i < |to| ==> Refines(to[i].dimensions, from[i].dimensions)
  }

  lemma AllRefineTransitive(a: seq<OutputShape>, b: seq<OutputShape>, c: seq<OutputShape>)
    requires AllRefine(a, b) && AllRefine(b, c)
    ensures AllRefine(a, c)
  {
    forall i | 0 <= i < |a| ensures Refines(a[i].dimensions, c[i].dimensions) {
      RefinesTransitive(a[i].dimensions, b[i].dimensions, c[i].dimensions);
    }
  }

  // ---------------------------------------------------------------- shapes of one step

  /** The run's shapes after the first `n` shapes of a step were taken over. */
  function TakenOver(to: seq<OutputShape>, mapping: seq<nat>, from: seq<OutputShape>, n: nat): (r: seq<OutputShape>)
    requires n <= |mapping| && n <= |from|
    requires forall i :: 0 <= i < n ==> mapping[i] < |to|
    ensures |r| == |to|
  {
    if n == 0 then to else TakenOver(to, mapping, from, n - 1)[mapping[n-1] := from[n-1]]
  }

  lemma {:induction false} TakenOverAt(to: seq<OutputShape>, mapping: seq<nat>, from: seq<OutputShape>, n: nat, o: nat)
    requires n <= |mapping| && n <= |from| && o < |to|
    requires forall i :: 0 <= i < n ==> mapping[i] < |to|
    ensures o !in mapping[..n] ==> TakenOver(to, mapping, from, n)[o] == to[o]
    ensures NoDup(mapping) ==> forall i :: 0 <= i < n && mapping[i] == o ==>
              TakenOver(to, mapping, from, n)[o] == from[i]
  {
    if n > 0 {
      TakenOverAt(to, mapping, from, n - 1, o);
      assert mapping[..n] == mapping[..n-1] + [mapping[n-1]];
    }
  }

  /** The step's shapes up to position `n` can be taken over, and the next one cannot. */
  ghost predicate StopsAt(to: seq<OutputShape>, mapping: seq<nat>, from: seq<OutputShape>, n: nat) {
    && n <= |mapping| && n <= |from|
    && (forall i :: 0 <= i < n ==> mapping[i] < |to|)
    && (forall i :: 0 <= i < n ==> CanTake(to, mapping, from, i))
    && (n < |mapping| ==> n < |from| && !CanTake(to, mapping, from, n))
  }

  /** The shape at position `n` can be taken over after those before it. */
  ghost predicate CanTake(to: seq<OutputShape>, mapping: seq<nat>, from: seq<OutputShape>, n: nat)
    requires n < |mapping| && n < |from| && forall i :: 0 <= i < n ==> mapping[i] < |to|
  {
    mapping[n] < |to| && Refines(TakenOver(to, mapping, from, n)[mapping[n]].dimensions, from[n].dimensions)
  }

  /** There is one such position. */
  lemma StopsOnce(to: seq<OutputShape>, mapping: seq<nat>, from: seq<OutputShape>, a: nat, b: nat)
    requires StopsAt(to, mapping, from, a) && StopsAt(to, mapping, from, b)
    ensures a == b
  {
  }

  /** What taking over the shapes of a step leads to. No shapes change nothing; otherwise there must be
    * enough of them, and they are taken over up to the first one that cannot be. */
  ghost predicate TakesOver(mapping: seq<nat>, to: seq<OutputShape>, from: seq<OutputShape>, ok: bool,
                            updated: seq<OutputShape>) {
    if from == [] then ok && updated == to
    else if |mapping| > |from| then !ok && updated == to
    else exists n ::
           StopsAt(to, mapping, from, n) && updated == TakenOver(to, mapping, from, n) && (ok <==> n == |mapping|)
  }

  /** Takes over the shapes that a step reports for its model outputs. Stops at the first shape that
    * contradicts what is known; shapes before that one have been taken over then. */
  method UpdateStepShapes(from: seq<OutputShape>, mapping: seq<nat>, to: seq<OutputShape>)
    returns (ok: bool, updated: seq<OutputShape>)
    ensures TakesOver(mapping, to, from, ok, updated) && AllRefine(to, updated)
  {
    updated := to;
    SameRefines(to);
    if |from| == 0 { return true, updated; }
    if |mapping| > |from| { return false, updated; }
    for i := 0 to |mapping|
      invariant forall k :: 0 <= k < i ==> mapping[k] < |to|
      invariant forall k :: 0 <= k < i ==> CanTake(to, mapping, from, k)
      invariant updated == TakenOver(to, mapping, from, i)
      invariant AllRefine(to, updated)
    {
      var toIndex := mapping[i];
      if toIndex >= |updated| {
        assert StopsAt(to, mapping, from, i);
        return false, updated;
      }
      var updatable := IsUpdatable(updated[toIndex].dimensions, from[i].dimensions);
      if !updatable {
        assert StopsAt(to, mapping, from, i);
        return false, updated;
      }
      RefinesTransitive(to[toIndex].dimensions, updated[toIndex].dimensions, from[i].dimensions);
      updated := updated[toIndex := from[i]];
    }
    assert StopsAt(to, mapping, from, |mapping|);
    return true, updated;
  }

  lemma SameRefines(a: seq<OutputShape>)
    ensures AllRefine(a, a)
  {
    forall i | 0 <= i < |a| ensures Refines(a[i].dimensions, a[i].dimensions) { RefinesReflexive(a[i].dimensions); }
  }

  /** Shapes that say what is true of the outputs they are about. */
  ghost predicate SayTruth(mapping: seq<nat>, from: seq<OutputShape>, truth: seq<OutputShape>) {
    || from == []
    || (&& |mapping| <= |from|
        && forall i :: 0 <= i < |mapping| ==>
             mapping[i] < |truth| && from[i].dimensions == truth[mapping[i]].dimensions)
  }

  lemma {:induction false} TakenOverTruth(to: seq<OutputShape>, mapping: seq<nat>, from: seq<OutputShape>, n: nat,
                                          truth: seq<OutputShape>)
    requires AllRefine(to, truth) && SayTruth(mapping, from, truth)
    requires n <= |mapping| && n <= |from| && forall i :: 0 <= i < n ==> mapping[i] < |to|
    ensures AllRefine(TakenOver(to, mapping, from, n), truth)
  {
    if n > 0 {
      TakenOverTruth(to, mapping, from, n - 1, truth);
      RefinesReflexive(from[n-1].dimensions);
    }
  }

  /** True shapes are never refused by a list that only claims what is true. */
  lemma TruthIsTaken(mapping: seq<nat>, to: seq<OutputShape>, from: seq<OutputShape>, ok: bool,
                     updated: seq<OutputShape>, truth: seq<OutputShape>)
    requires TakesOver(mapping, to, from, ok, updated)
    requires AllRefine(to, truth) && SayTruth(mapping, from, truth)
    ensures ok && AllRefine(updated, truth)
  {
    if from != [] {
      var n :| StopsAt(to, mapping, from, n) && updated == TakenOver(to, mapping, from, n) && (ok <==> n == |mapping|);
      TakenOverTruth(to, mapping, from, n, truth);
    }
  }

  /** When shapes are refused at position `n`, those before it survive: the list is unchanged exactly when
    * they said nothing new. */
  lemma RefusedShapesSurvive(to: seq<OutputShape>, mapping: seq<nat>, from: seq<OutputShape>, n: nat)
    requires StopsAt(to, mapping, from, n) && n < |mapping| && NoDup(mapping)
    ensures TakenOver(to, mapping, from, n) == to <==> forall i :: 0 <= i < n ==> from[i] == to[mapping[i]]
  {
    forall o | 0 <= o < |to|
      ensures o !in mapping[..n] ==> TakenOver(to, mapping, from, n)[o] == to[o]
      ensures forall i :: 0 <= i < n && mapping[i] == o ==> TakenOver(to, mapping, from, n)[o] == from[i]
    {
      TakenOverAt(to, mapping, from, n, o);
    }
  }

  function Known(dimensions: seq<nat>): OutputShape {
    OutputShape(dimensions, true)
  }

  /** Of two one-dimensional outputs, the first unknown and the second of three elements, a failed attempt
    * claims five and four elements. The claim about the first survives; the truth about it, four and three
    * elements, is refused afterwards. */
  lemma StaleShape()
    ensures var to, mapping, wrong, right := [Known([0]), Known([3])], [0, 1], [Known([5]), Known([4])],
                                             [Known([4]), Known([3])];
            && TakesOver(mapping, to, wrong, false, [Known([5]), Known([3])])
            && TakesOver(mapping, to, right, true, right)
            && TakesOver(mapping, [Known([5]), Known([3])], right, false, [Known([5]), Known([3])])
  {
    var to, mapping := [Known([0]), Known([3])], [0, 1];
    var wrong, right := [Known([5]), Known([4])], [Known([4]), Known([3])];
    var stale := [Known([5]), Known([3])];
    assert [3][0] != [4][0] && [5][0] != [4][0] && [3][0] != 0 && [5][0] != 0;
    assert !Refines([3], [4]) && !Refines([5], [4]);
    assert TakenOver(to, mapping, wrong, 1) == stale && StopsAt(to, mapping, wrong, 1);
    assert TakenOver(to, mapping, right, 1) == [Known([4]), Known([3])] && TakenOver(to, mapping, right, 2) == right;
    assert StopsAt(to, mapping, right, 2);
    assert TakenOver(stale, mapping, right, 0) == stale && StopsAt(stale, mapping, right, 0);
  }

  // ---------------------------------------------------------------- the execution

  class ExecutionBuilder {
    const model: Model
    /** Shapes of the caller's outputs. */
    var outputs: seq<OutputShape>
    var started: bool
    var finished: bool
    /** How often the execution was finished. */
    ghost var timesFinished: nat

    constructor (model: Model, outputs: seq<OutputShape>)
      ensures this.model == model && this.outputs == outputs && !started && !finished && timesFinished == 0
    {
      this.model := model;
      this.outputs, started, finished, timesFinished := outputs, false, false, 0;
    }

    method InitializeOutputShapes() returns (shapes: seq<OutputShape>)
      ensures |shapes| == |outputs| && AllRefine(outputs, shapes)
      ensures forall i :: 0 <= i < |outputs| ==> shapes[i] == OutputShape(outputs[i].dimensions, true)
    {
      shapes := seq(|outputs|, i requires 0 <= i < |outputs| reads this => OutputShape(outputs[i].dimensions, true));
    }

    /** All or nothing: either every shape is taken over, or none is. */
    method UpdateOutputShapes(shapes: seq<OutputShape>) returns (ok: bool)
      modifies this`outputs
      ensures ok <==> shapes == [] || AllRefine(old(outputs), shapes)
      ensures outputs == if ok && shapes != [] then shapes else old(outputs)
    {
      if |shapes| == 0 { return true; }
      if |shapes| != |outputs| { return false; }
      for i := 0 to |shapes|
        invariant outputs == old(outputs)
        invariant forall k :: 0 <= k < i ==> Refines(outputs[k].dimensions, shapes[k].dimensions)
      {
        var updatable := IsUpdatable(outputs[i].dimensions, shapes[i].dimensions);
        if !updatable { return false; }
      }
      for i := 0 to |shapes|
        invariant |outputs| == |shapes|
        invariant forall k :: 0 <= k < i ==> outputs[k] == shapes[k]
      {
        outputs := outputs[i := shapes[i]];
      }
      return true;
    }

    /** Must not be called twice. */
    method Finish(shapes: seq<OutputShape>) returns (status: ErrorStatus)
      requires !finished
      modifies this
      ensures finished && timesFinished == old(timesFinished) + 1 && started == old(started)
      ensures status == if shapes == [] || AllRefine(old(outputs), shapes) then None else GeneralFailure
      ensures outputs == if status == None && shapes != [] then shapes else old(outputs)
    {
      finished := true;
      timesFinished := timesFinished + 1;
      var ok := UpdateOutputShapes(shapes);
      status := if ok then None else GeneralFailure;
    }
  }

  // ---------------------------------------------------------------- callbacks

  class ExecutionCallback {
    var notified: bool
    var errorStatus: ErrorStatus
    var outputShapes: seq<OutputShape>
    /** The execution to finish on notification, if any. */
    var onFinish: ExecutionBuilder?
    /** How often the callback was notified. */
    ghost var timesNotified: nat

    /** An armed hook has not run and belongs to an execution that is not finished. */
    ghost predicate Valid()
      reads this, onFinish
    {
      && (notified <==> timesNotified > 0)
      && (onFinish != null ==> !notified && !onFinish.finished)
    }

    constructor ()
      ensures Valid() && !notified && onFinish == null && timesNotified == 0
    {
      notified, errorStatus, outputShapes, onFinish, timesNotified := false, GeneralFailure, [], null, 0;
    }

    /** Only the first hook counts, and only before notification. */
    method SetOnFinish(finish: ExecutionBuilder?)
      requires Valid() && (finish != null ==> !finish.finished)
      modifies this`onFinish
      ensures Valid()
      ensures onFinish == if old(onFinish) == null && !notified then finish else old(onFinish)
    {
      if onFinish != null { return; }
      if finish == null { return; }
      if notified { return; }
      onFinish := finish;
    }

    /** The status and shapes that are stored for a notification. */
    static function Checked(status: ErrorStatus, shapes: seq<OutputShape>): (r: (ErrorStatus, seq<OutputShape>))
      ensures r.0 == None <==> status == None
    {
      if status == InsufficientSize then (if shapes == [] then (GeneralFailure, []) else (status, shapes))
      else if status != None && shapes != [] then (GeneralFailure, [])
      else (status, shapes)
    }

    method Notify(status: ErrorStatus, shapes: seq<OutputShape>)
      requires Valid()
      modifies this, onFinish
      ensures Valid() && notified && timesNotified == old(timesNotified) + 1
      ensures Stored(old(notified), old(onFinish), old(if onFinish != null then onFinish.outputs else []),
                     old(if onFinish != null then onFinish.timesFinished else 0),
                     Checked(status, shapes))
      ensures old(onFinish) != null ==> old(onFinish).started == old(onFinish.started)
      ensures old(notified) ==> errorStatus == old(errorStatus) && outputShapes == old(outputShapes)
    {
      if status == InsufficientSize {
        if |shapes| == 0 {
          NotifyInternal(GeneralFailure, []);
          return;
        }
      } else if status != None {
        if |shapes| != 0 {
          NotifyInternal(GeneralFailure, []);
          return;
        }
      }
      NotifyInternal(status, shapes);
    }

    /** What a notification leaves behind: the result, and the hook run exactly if it was armed. */
    ghost predicate Stored(before: bool, hook: ExecutionBuilder?, outputs: seq<OutputShape>, times: nat,
                           result: (ErrorStatus, seq<OutputShape>))
      reads this, hook
    {
      && onFinish == null
      && (!before ==> outputShapes == result.1)
      && (!before && hook == null ==> errorStatus == result.0)
      && (hook != null ==>
            && hook.finished && hook.timesFinished == times + 1
            && (if result.1 == [] || AllRefine(outputs, result.1)
                then errorStatus == result.0 && hook.outputs == (if result.1 == [] then outputs else result.1)
                else errorStatus == GeneralFailure && hook.outputs == outputs))
    }

    /** The first notification counts; it runs the hook. */
    method NotifyInternal(status: ErrorStatus, shapes: seq<OutputShape>)
      requires Valid()
      modifies this, onFinish
      ensures Valid() && notified && timesNotified == old(timesNotified) + 1
      ensures Stored(old(notified), old(onFinish), old(if onFinish != null then onFinish.outputs else []),
                     old(if onFinish != null then onFinish.timesFinished else 0), (status, shapes))
      ensures old(onFinish) != null ==> old(onFinish).started == old(onFinish.started)
      ensures old(notified) ==> errorStatus == old(errorStatus) && outputShapes == old(outputShapes)
    {
      timesNotified := timesNotified + 1;
      if notified { return; }
      errorStatus, outputShapes := status, shapes;
      notified := true;
      if onFinish != null {
        var finished := onFinish.Finish(outputShapes);
        onFinish := null;
        if finished != None { errorStatus := finished; }
      }
    }
  }
}
