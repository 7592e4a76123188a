/** Growing a model that stays well-formed: the steps from which a slice is made. */
module Growing {
  import opened Sequences
  import opened Models
  import opened RunOrder
  import opened ModelBuilding
  import opened Sorting

  /** Everything but the demand that there be operations and operands at all. */
  ghost predicate WellFormed(m: Model) {
    && InRange(m) && WrittenOnce(m)
    && ValidIndexes(m, m.inputIndexes, ModelInput) && ValidIndexes(m, m.outputIndexes, ModelOutput)
    && InterfaceListed(m) && ConsumersCounted(m) && InRunOrder(m)
  }

  const EMPTY_MODEL := Model([], [], [], [])

  function From(first: nat, n: nat): (r: seq<nat>)
    ensures |r| == n && forall i :: 0 <= i < n ==> r[i] == first + i
  {
    seq(n, i requires 0 <= i < n => first + i)
  }

  /** Positions of the model outputs among operands that are put at `first`. */
  function OutputsAmong(news: seq<Operand>, first: nat): seq<nat> {
    if news == [] then []
    else
      var n := |news| - 1;
      OutputsAmong(news[..n], first) + (if news[n].lifetime.ModelOutput? then [first + n] else [])
  }

  function WithConstant(m: Model, operand: Operand): Model {
    m.(operands := m.operands + [operand])
  }

  function WithInput(m: Model, ty: OperandType): Model {
    m.(operands := m.operands + [Operand(ty, ModelInput, [], 0)], inputIndexes := m.inputIndexes + [|m.operands|])
  }

  /** One more operation, whose outputs are new operands. */
  function WithOperation(m: Model, code: nat, inputs: seq<nat>, news: seq<Operand>): Model {
    var first := |m.operands|;
    Model(CountReads(m.operands, inputs) + news,
          m.operations + [Operation(code, inputs, From(first, |news|))],
          m.inputIndexes, m.outputIndexes + OutputsAmong(news, first))
  }

  lemma {:induction false} OutputsAmongMember(news: seq<Operand>, first: nat, o: nat)
    ensures o in OutputsAmong(news, first) <==>
            first <= o < first + |news| && news[o - first].lifetime.ModelOutput?
  {
    if news != [] {
      OutputsAmongMember(news[..|news|-1], first, o);
    }
  }

  lemma {:induction false} OutputsAmongNoDup(news: seq<Operand>, first: nat)
    ensures NoDup(OutputsAmong(news, first))
  {
    if news != [] {
      var n := |news| - 1;
      OutputsAmongNoDup(news[..n], first);
      OutputsAmongMember(news[..n], first, first + n);
    }
  }

  lemma EmptyWellFormed()
    ensures WellFormed(EMPTY_MODEL)
  {
  }

  /** Readiness only depends on operations and on which operands are results. */
  lemma RunOrderStill(m: Model, after: Model)
    requires InRange(m) && InRunOrder(m) && after.operations == m.operations && |m.operands| <= |after.operands|
    requires forall o :: 0 <= o < |m.operands| ==> after.operands[o].lifetime == m.operands[o].lifetime
    ensures InRunOrder(after)
  {
    var order := Identity(|m.operations|);
    forall p | 0 <= p < |order| ensures Ready(after, order[p], Outs(after, order[..p])) {
      SameOutsOf(m, after, order[..p]);
      assert Ready(m, order[p], Outs(m, order[..p]));
      assert OperationInRange(m.operands, m.operations[p]);
    }
  }

  lemma SameOutsOf(m: Model, after: Model, ops: seq<nat>)
    requires forall j :: j in ops ==> OutputsOf(after, j) == OutputsOf(m, j)
    ensures Outs(after, ops) == Outs(m, ops)
  {
  }

  /** One more operand that no operation touches. */
  lemma OperandAppended(m: Model, operand: Operand)
    requires InRange(m) && WrittenOnce(m) && ConsumersCounted(m) && InRunOrder(m)
    requires !IsDataflow(operand) && operand.numberOfConsumers == 0
    ensures var after := m.(operands := m.operands + [operand]);
            InRange(after) && WrittenOnce(after) && ConsumersCounted(after) && InRunOrder(after)
  {
    var after := m.(operands := m.operands + [operand]);
    UnreadOperand(m.operations, |m.operands|);
    RunOrderStill(m, after);
  }

  lemma WithConstantKeeps(m: Model, operand: Operand)
    requires WellFormed(m) && IsConstant(operand) && operand.numberOfConsumers == 0
    ensures WellFormed(WithConstant(m, operand))
  {
    OperandAppended(m, operand);
  }

  lemma WithInputKeeps(m: Model, ty: OperandType)
    requires WellFormed(m)
    ensures WellFormed(WithInput(m, ty))
  {
    var operand := Operand(ty, ModelInput, [], 0);
    OperandAppended(m, operand);
    var mid := m.(operands := m.operands + [operand]);
    var after := WithInput(m, ty);
    RunOrderStill(mid, after);
    assert after.inputIndexes[|m.inputIndexes|] == |m.operands|;
    NoDupAppend(m.inputIndexes, |m.operands|);
  }

  lemma WithOperationInRange(m: Model, code: nat, inputs: seq<nat>, news: seq<Operand>)
    requires InRange(m) && forall k :: k in inputs ==> k < |m.operands|
    ensures InRange(WithOperation(m, code, inputs, news))
  {
    var after := WithOperation(m, code, inputs, news);
    forall j | 0 <= j < |after.operations| ensures OperationInRange(after.operands, after.operations[j]) {
      if j < |m.operations| { assert OperationInRange(m.operands, m.operations[j]); }
    }
  }

  lemma WithOperationWrittenOnce(m: Model, code: nat, inputs: seq<nat>, news: seq<Operand>)
    requires InRange(m) && WrittenOnce(m)
    requires forall i :: 0 <= i < |news| ==> IsDataflow(news[i])
    ensures WrittenOnce(WithOperation(m, code, inputs, news))
  {
    var after, n := WithOperation(m, code, inputs, news), |m.operations|;
    forall j, o | 0 <= j < |after.operations| && o in after.operations[j].outputs
      ensures o < |after.operands| && IsDataflow(after.operands[o])
      ensures j == n <==> o >= |m.operands|
    {
      if j < n { assert o in m.operations[j].outputs; }
    }
    forall o | 0 <= o < |after.operands| && IsDataflow(after.operands[o])
      ensures exists j :: 0 <= j < |after.operations| && o in after.operations[j].outputs
    {
      if o < |m.operands| {
        var j :| 0 <= j < n && o in m.operations[j].outputs;
        assert o in after.operations[j].outputs;
      } else {
        assert after.operations[n].outputs[o - |m.operands|] == o;
      }
    }
  }

  lemma WithOperationCounted(m: Model, code: nat, inputs: seq<nat>, news: seq<Operand>)
    requires InRange(m) && ConsumersCounted(m)
    requires forall k :: k in inputs ==> k < |m.operands|
    requires forall i :: 0 <= i < |news| ==> news[i].numberOfConsumers == 0
    ensures ConsumersCounted(WithOperation(m, code, inputs, news))
  {
    var after := WithOperation(m, code, inputs, news);
    assert after.operations[..|after.operations|-1] == m.operations;
    forall o | |m.operands| <= o < |after.operands|
      ensures Consumers(m.operations, o) == 0 && Count(inputs, o) == 0
    {
      Unread(m, o);
      CountZero(inputs, o);
    }
  }

  lemma {:induction false} Unread(m: Model, o: nat)
    requires InRange(m) && o >= |m.operands|
    ensures Consumers(m.operations, o) == 0
  {
    forall j | 0 <= j < |m.operations| ensures forall k :: k in m.operations[j].inputs ==> k < o {
      assert OperationInRange(m.operands, m.operations[j]);
    }
    UnreadOperand(m.operations, o);
  }

  lemma WithOperationInterface(m: Model, code: nat, inputs: seq<nat>, news: seq<Operand>)
    requires ValidIndexes(m, m.inputIndexes, ModelInput) && ValidIndexes(m, m.outputIndexes, ModelOutput)
    requires InterfaceListed(m) && forall i :: 0 <= i < |news| ==> IsDataflow(news[i])
    ensures var after := WithOperation(m, code, inputs, news);
            && ValidIndexes(after, after.inputIndexes, ModelInput)
            && ValidIndexes(after, after.outputIndexes, ModelOutput)
            && InterfaceListed(after)
  {
    var after, first := WithOperation(m, code, inputs, news), |m.operands|;
    forall o: nat
      ensures o in OutputsAmong(news, first) <==>
              first <= o < first + |news| && news[o - first].lifetime.ModelOutput?
    {
      OutputsAmongMember(news, first, o);
    }
    OutputsAmongNoDup(news, first);
    SplitNoDup(m.outputIndexes, OutputsAmong(news, first));
  }

  /** Everything written is written by the operations as listed. */
  lemma ResultListed(m: Model, o: nat)
    requires WrittenOnce(m) && o < |m.operands| && IsDataflow(m.operands[o])
    ensures o in Outs(m, Identity(|m.operations|))
  {
    var n := |m.operations|;
    var j :| 0 <= j < n && o in m.operations[j].outputs;
    assert Identity(n)[j] == j && j in Identity(n) && o in OutputsOf(m, j);
  }

  lemma WithOperationInRunOrder(m: Model, code: nat, inputs: seq<nat>, news: seq<Operand>)
    requires InRange(m) && WrittenOnce(m) && InRunOrder(m) && forall k :: k in inputs ==> k < |m.operands|
    ensures InRunOrder(WithOperation(m, code, inputs, news))
  {
    hide WrittenOnce, InRange;
    var after, n := WithOperation(m, code, inputs, news), |m.operations|;
    var order := Identity(n + 1);
    forall p | 0 <= p <= n ensures Ready(after, order[p], Outs(after, order[..p])) {
      IdentityPrefix(n + 1, p);
      SameOutsOf(m, after, Identity(p));
      if p < n {
        OldStillReady(m, after, p);
      } else {
        forall o | o in inputs && IsDataflow(m.operands[o]) ensures o in Outs(m, Identity(n)) { ResultListed(m, o); }
      }
    }
  }

  /** Operations that were there find their inputs when they did before. */
  lemma OldStillReady(m: Model, after: Model, p: nat)
    requires InRange(m) && InRunOrder(m) && p < |m.operations| < |after.operations|
    requires after.operations[p] == m.operations[p] && |m.operands| <= |after.operands|
    requires forall o :: 0 <= o < |m.operands| ==> after.operands[o].lifetime == m.operands[o].lifetime
    ensures Ready(after, p, Outs(m, Identity(p)))
  {
    var n := |m.operations|;
    IdentityPrefix(n, p);
    assert Ready(m, Identity(n)[p], Outs(m, Identity(n)[..p]));
    assert OperationInRange(m.operands, m.operations[p]);
  }

  /** An operation that reads what is there and writes new results keeps the model well-formed. */
  lemma WithOperationKeeps(m: Model, code: nat, inputs: seq<nat>, news: seq<Operand>)
    requires WellFormed(m) && forall k :: k in inputs ==> k < |m.operands|
    requires forall i :: 0 <= i < |news| ==> IsDataflow(news[i]) && news[i].numberOfConsumers == 0
    ensures WellFormed(WithOperation(m, code, inputs, news))
  {
    WithOperationInRange(m, code, inputs, news);
    WithOperationWrittenOnce(m, code, inputs, news);
    WithOperationCounted(m, code, inputs, news);
    WithOperationInterface(m, code, inputs, news);
    WithOperationInRunOrder(m, code, inputs, news);
  }
}
