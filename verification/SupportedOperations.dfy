/** Asking an older driver, by way of a slice, which operations of a model it supports. */
module Supporting {
  import opened Sequences
  import opened Models
  import opened Validation
  import opened OutputShapes
  import opened Growing
  import opened Slicing

  /** The slice lists each compliant operation once, in the original order. */
  lemma {:induction false} CompliantAscending(noncompliant: set<nat>, n: nat)
    ensures forall i, k :: 0 <= i < k < |Compliant(noncompliant, n)| ==>
              Compliant(noncompliant, n)[i] < Compliant(noncompliant, n)[k]
  {
    if n > 0 {
      CompliantAscending(noncompliant, n - 1);
      var before := Compliant(noncompliant, n - 1);
      forall i | 0 <= i < |before| ensures before[i] < n - 1 {
        assert before[i] in before;
        CompliantMember(noncompliant, n - 1, before[i]);
      }
    }
  }

  datatype Answer = Unreachable | Answered(status: ErrorStatus, supported: seq<bool>)

  type Driver = Model -> Answer

  /** Interface versions a device can have; an older one may not know every operation of a model. */
  datatype DeviceVersion = Unavailable | Latest | Older

  /** A driver does not claim to support operations it was not asked about. */
  ghost predicate Sensible(driver: Driver) {
    forall model, i :: driver(model).Answered? && 0 <= i < |driver(model).supported| && driver(model).supported[i] ==>
      i < |model.operations|
  }

  /** Translates an answer about a slice into one about the whole model. */
  method RemappedResult(operationCount: nat, supported: seq<bool>, operationMap: seq<nat>) returns (remapped: seq<bool>)
    requires forall i :: 0 <= i < |supported| && supported[i] ==> i < |operationMap|
    requires forall i :: 0 <= i < |operationMap| ==> operationMap[i] < operationCount
    ensures IsRemapped(operationCount, supported, operationMap, remapped)
  {
    remapped := seq(operationCount, j => false);
    for i := 0 to |supported|
      invariant |remapped| == operationCount
      invariant forall j :: 0 <= j < operationCount ==>
                  (remapped[j] <==>
                     exists k :: 0 <= k < i && k < |operationMap| && supported[k] && operationMap[k] == j)
    {
      if supported[i] {
        remapped := remapped[operationMap[i] := true];
      }
    }
  }

  /** An operation is marked exactly when some supported operation of the slice maps to it. */
  ghost predicate IsRemapped(operationCount: nat, supported: seq<bool>, operationMap: seq<nat>, remapped: seq<bool>) {
    && |remapped| == operationCount
    && forall j :: 0 <= j < operationCount ==>
         (remapped[j] <==>
            exists i :: 0 <= i < |supported| && i < |operationMap| && supported[i] && operationMap[i] == j)
  }

  method NoneSupported(operationCount: nat) returns (supported: seq<bool>)
    ensures |supported| == operationCount && forall j :: 0 <= j < operationCount ==> !supported[j]
  {
    supported := seq(operationCount, j => false);
  }

  /** The answer about a model that an older driver has to be asked about by way of a slice. */
  ghost predicate AnswerBySlice(rules: TypeRules, poolsValid: bool, m: Model, noncompliant: set<nat>, driver: Driver,
                                s: SliceState, status: ErrorStatus, supported: seq<bool>) {
    && Sliced(m, noncompliant, s, Consumed(m, noncompliant, |m.operations|), |m.operations|)
    && (if Rejected(rules, poolsValid, s) then
          status == None && |supported| == |m.operations| && forall j :: 0 <= j < |supported| ==> !supported[j]
        else if driver(s.model).Unreachable? then
          status == GeneralFailure && supported == []
        else
          status == driver(s.model).status && SupportedBy(driver(s.model).supported, m, noncompliant, s, supported))
  }

  /** Exactly the operations are supported whose copies the driver supports; those without a copy are not. */
  ghost predicate SupportedBy(answer: seq<bool>, m: Model, noncompliant: set<nat>, s: SliceState,
                              supported: seq<bool>) {
    && |supported| == |m.operations|
    && (forall j :: 0 <= j < |supported| && j in noncompliant ==> !supported[j])
    && (forall i :: 0 <= i < |s.operationMap| ==>
          && s.operationMap[i] < |supported|
          && (supported[s.operationMap[i]] <==> i < |answer| && answer[i]))
  }

  /** Asks the device. A model that it may not understand is sliced, if there is a slicer; without one
    * nothing is said about any operation. */
  method GetSupportedOperations(version: DeviceVersion, hasSlicer: bool, rules: TypeRules, poolsValid: bool,
                                m: Model, noncompliant: set<nat>, driver: Driver)
    returns (status: ErrorStatus, supported: seq<bool>)
    requires WellFormed(m) && Sensible(driver)
    ensures version == Unavailable ==> status == GeneralFailure && supported == []
    ensures version == Latest || (version == Older && noncompliant == {}) ==>
              if driver(m).Unreachable? then status == GeneralFailure && supported == []
              else status == driver(m).status && supported == driver(m).supported
    ensures version == Older && noncompliant != {} && !hasSlicer ==> status == None && supported == []
    ensures version == Older && noncompliant != {} && hasSlicer ==>
              exists s :: AnswerBySlice(rules, poolsValid, m, noncompliant, driver, s, status, supported)
  {
    if version == Unavailable { return GeneralFailure, []; }
    if version == Latest || noncompliant == {} {
      var answer := driver(m);
      if answer.Unreachable? { return GeneralFailure, []; }
      return answer.status, answer.supported;
    }
    if !hasSlicer { return None, []; }
    var slice := new Slice();
    slice.InitializeSlice(rules, poolsValid, m, noncompliant);
    ghost var s := slice.State();
    if slice.phase == Invalid {
      supported := NoneSupported(|m.operations|);
      assert AnswerBySlice(rules, poolsValid, m, noncompliant, driver, s, None, supported);
      return None, supported;
    }
    var answer := driver(slice.State().model);
    if answer.Unreachable? {
      assert AnswerBySlice(rules, poolsValid, m, noncompliant, driver, s, GeneralFailure, []);
      return GeneralFailure, [];
    }
    var operationMap := slice.slicedOperationIndexToOrigIndex;
    CompliantBounded(noncompliant, |m.operations|);
    assert |s.model.operations| == |operationMap|;
    supported := RemappedResult(|m.operations|, answer.supported, operationMap);
    SupportedOnce(m, noncompliant, s, answer.supported, supported);
    status := answer.status;
    assert AnswerBySlice(rules, poolsValid, m, noncompliant, driver, s, status, supported);
  }

  lemma CompliantBounded(noncompliant: set<nat>, n: nat)
    ensures forall i :: 0 <= i < |Compliant(noncompliant, n)| ==>
              Compliant(noncompliant, n)[i] < n && Compliant(noncompliant, n)[i] !in noncompliant
  {
    var c := Compliant(noncompliant, n);
    forall i | 0 <= i < |c| ensures c[i] < n && c[i] !in noncompliant {
      assert c[i] in c;
      CompliantMember(noncompliant, n, c[i]);
    }
  }

  lemma SupportedOnce(m: Model, noncompliant: set<nat>, s: SliceState, answer: seq<bool>, supported: seq<bool>)
    requires s.operationMap == Compliant(noncompliant, |m.operations|)
    requires IsRemapped(|m.operations|, answer, s.operationMap, supported)
    ensures SupportedBy(answer, m, noncompliant, s, supported)
  {
    CompliantAscending(noncompliant, |m.operations|);
    CompliantBounded(noncompliant, |m.operations|);
  }
}
