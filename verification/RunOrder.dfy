/** Which operations can run next: the bookkeeping behind the run order and the partitioner. */
module RunOrder {
  import opened Sequences
  import opened Models

  predicate DataflowAt(operands: seq<Operand>, o: nat) {
    o < |operands| && IsDataflow(operands[o])
  }

  /** Number of input positions whose value is still to be computed. */
  function UnknownCount(operands: seq<Operand>, inputs: seq<nat>, known: set<nat>): nat {
    if inputs == [] then 0
    else
      var last := inputs[|inputs|-1];
      UnknownCount(operands, inputs[..|inputs|-1], known) +
      (if DataflowAt(operands, last) && last !in known then 1 else 0)
  }

  lemma {:induction false} UnknownZero(operands: seq<Operand>, inputs: seq<nat>, known: set<nat>)
    ensures UnknownCount(operands, inputs, known) == 0 <==>
            forall o :: o in inputs && DataflowAt(operands, o) ==> o in known
  {
    if inputs != [] {
      var init, last := inputs[..|inputs|-1], inputs[|inputs|-1];
      UnknownZero(operands, init, known);
      assert inputs == init + [last];
    }
  }

  lemma ReadyIffZero(m: Model, j: nat, known: set<nat>)
    requires j < |m.operations|
    ensures Ready(m, j, known) <==> UnknownCount(m.operands, m.operations[j].inputs, known) == 0
  {
    UnknownZero(m.operands, m.operations[j].inputs, known);
  }

  /** Learning one more result lowers the count by the number of positions that read it. */
  lemma {:induction false} UnknownLearn(operands: seq<Operand>, inputs: seq<nat>, known: set<nat>, o: nat)
    requires o !in known && DataflowAt(operands, o)
    ensures UnknownCount(operands, inputs, known) ==
            UnknownCount(operands, inputs, known + {o}) + Count(inputs, o)
  {
    if inputs != [] {
      UnknownLearn(operands, inputs[..|inputs|-1], known, o);
    }
  }

  type Multimap = map<nat, seq<nat>>

  function Entries(mm: Multimap, key: nat): seq<nat> {
    if key in mm then mm[key] else []
  }

  /** How often operation `x` is listed under operand `o` once the constructor has worked through
    * the first `j` operations and the first `i` inputs of the next one. */
  function Listings(m: Model, o: nat, x: nat, j: nat, i: nat): nat
    requires j < |m.operations| ==> i <= |m.operations[j].inputs|
  {
    if !DataflowAt(m.operands, o) || x >= |m.operations| then 0
    else if x < j then Count(m.operations[x].inputs, o)
    else if x == j then Count(m.operations[x].inputs[..i], o)
    else 0
  }

  ghost predicate Listed(m: Model, mm: Multimap, j: nat, i: nat)
    requires j < |m.operations| ==> i <= |m.operations[j].inputs|
  {
    forall o, x :: Count(Entries(mm, o), x) == Listings(m, o, x, j, i)
  }

  function Enlist(m: Model, mm: Multimap, operand: nat, j: nat): Multimap {
    if DataflowAt(m.operands, operand) then mm[operand := Entries(mm, operand) + [j]] else mm
  }

  lemma ListInput(m: Model, mm: Multimap, j: nat, i: nat)
    requires j < |m.operations| && i < |m.operations[j].inputs| && Listed(m, mm, j, i)
    ensures Listed(m, Enlist(m, mm, m.operations[j].inputs[i], j), j, i + 1)
  {
    var inputs := m.operations[j].inputs;
    var operand := inputs[i];
    var after := Enlist(m, mm, operand, j);
    forall o, x
      ensures Count(Entries(after, o), x) == Listings(m, o, x, j, i + 1)
    {
      CountAppend(inputs[..i], operand, o);
      assert inputs[..i+1] == inputs[..i] + [operand];
      assert Count(Entries(mm, o), x) == Listings(m, o, x, j, i);
      if o == operand { CountAppend(Entries(mm, o), j, x); }
    }
  }

  lemma ListNext(m: Model, mm: Multimap, j: nat)
    requires j < |m.operations| && Listed(m, mm, j, |m.operations[j].inputs|)
    ensures Listed(m, mm, j + 1, 0)
  {
    var inputs := m.operations[j].inputs;
    assert inputs[..|inputs|] == inputs;
    forall o, x
      ensures Count(Entries(mm, o), x) == Listings(m, o, x, j + 1, 0)
    {
      assert Count(Entries(mm, o), x) == Listings(m, o, x, j, |inputs|);
    }
  }

  class OperandTracker {
    const model: Model
    var operandToOperations: Multimap
    var unknownInputCount: seq<nat>
    ghost var known: set<nat>

    /** The counts say how much each operation still waits for. */
    ghost predicate Valid()
      reads this
    {
      && |unknownInputCount| == |model.operations|
      && Listed(model, operandToOperations, |model.operations|, 0)
      && (forall x :: 0 <= x < |model.operations| ==>
            unknownInputCount[x] == UnknownCount(model.operands, model.operations[x].inputs, known))
    }

    constructor (m: Model)
      ensures model == m && operandToOperations == map[] && unknownInputCount == [] && known == {}
    {
      model := m;
      operandToOperations := map[];
      unknownInputCount := [];
      known := {};
    }

    /** Works through the operations once; returns those that wait for nothing, in order. */
    method Start() returns (ready: seq<nat>)
      requires operandToOperations == map[] && unknownInputCount == [] && known == {}
      modifies this
      ensures Valid() && known == {}
      ensures NoDup(ready)
      ensures forall x: nat :: x in ready <==> x < |model.operations| && Ready(model, x, {})
    {
      ready := [];
      var j := 0;
      while j < |model.operations|
        invariant 0 <= j <= |model.operations| && known == {}
        invariant |unknownInputCount| == j
        invariant Listed(model, operandToOperations, j, 0)
        invariant forall x :: 0 <= x < j ==>
                    unknownInputCount[x] == UnknownCount(model.operands, model.operations[x].inputs, {})
        invariant NoDup(ready)
        invariant forall x: nat :: x in ready <==> x < j && Ready(model, x, {})
      {
        var inputs := model.operations[j].inputs;
        var count, i := 0, 0;
        label Loop:
        while i < |inputs|
          invariant 0 <= i <= |inputs|
          invariant known == {} && unknownInputCount == old@Loop(unknownInputCount)
          invariant Listed(model, operandToOperations, j, i)
          invariant count == UnknownCount(model.operands, inputs[..i], {})
        {
          assert inputs[..i+1][..i] == inputs[..i];
          ListInput(model, operandToOperations, j, i);
          if DataflowAt(model.operands, inputs[i]) {
            count := count + 1;
            operandToOperations := operandToOperations[inputs[i] := Entries(operandToOperations, inputs[i]) + [j]];
          }
          i := i + 1;
        }
        ListNext(model, operandToOperations, j);
        assert inputs[..i] == inputs;
        ReadyIffZero(model, j, {});
        if count == 0 {
          ready := ready + [j];
        }
        unknownInputCount := unknownInputCount + [count];
        j := j + 1;
      }
    }

    /** Marks the outputs of operation `index` as known. Returns the operations that became ready,
      * each once. No count falls below zero. */
    method MarkProcessed(index: nat) returns (newly: seq<nat>)
      requires Valid() && index < |model.operations|
      requires NoDup(model.operations[index].outputs)
      requires forall o :: o in model.operations[index].outputs ==> DataflowAt(model.operands, o) && o !in known
      modifies this
      ensures Valid() && known == old(known) + Elements(model.operations[index].outputs)
      ensures NoDup(newly)
      ensures forall x: nat :: x in newly <==>
                x < |model.operations| && !Ready(model, x, old(known)) && Ready(model, x, known)
    {
      newly := [];
      var outputs := model.operations[index].outputs;
      var k := 0;
      while k < |outputs|
        invariant 0 <= k <= |outputs|
        invariant Valid() && known == old(known) + Elements(outputs[..k])
        invariant NoDup(newly)
        invariant forall x :: 0 <= x < |model.operations| ==> unknownInputCount[x] <= old(unknownInputCount)[x]
        invariant forall x: nat :: x in newly <==>
                    x < |model.operations| && unknownInputCount[x] == 0 && old(unknownInputCount)[x] > 0
      {
        var operand := outputs[k];
        assert operand !in known;
        var entries := Entries(operandToOperations, operand);
        ghost var learned := known + {operand};
        forall x | 0 <= x < |model.operations|
          ensures unknownInputCount[x] ==
                  UnknownCount(model.operands, model.operations[x].inputs, learned) + Count(entries, x)
        {
          UnknownLearn(model.operands, model.operations[x].inputs, known, operand);
        }
        forall x | x >= |model.operations| ensures x !in entries { CountZero(entries, x); }
        newly := Decrement(entries, learned, newly, old(unknownInputCount));
        assert outputs[..k+1] == outputs[..k] + [operand];
        k := k + 1;
      }
      assert outputs[..k] == outputs;
      forall x | 0 <= x < |model.operations|
        ensures Ready(model, x, known) <==> unknownInputCount[x] == 0
        ensures Ready(model, x, old(known)) <==> old(unknownInputCount)[x] == 0
      {
        ReadyIffZero(model, x, known);
        ReadyIffZero(model, x, old(known));
      }
    }

    /** The inner loop of `MarkProcessed`: one decrement per listed position. */
    method Decrement(entries: seq<nat>, ghost learned: set<nat>, before: seq<nat>, ghost start: seq<nat>)
      returns (newly: seq<nat>)
      requires |unknownInputCount| == |start| == |model.operations|
      requires Listed(model, operandToOperations, |model.operations|, 0)
      requires forall x :: 0 <= x < |start| ==>
                 unknownInputCount[x] ==
                 UnknownCount(model.operands, model.operations[x].inputs, learned) + Count(entries, x)
      requires forall x :: x in entries ==> x < |start|
      requires forall x :: 0 <= x < |start| ==> unknownInputCount[x] <= start[x]
      requires NoDup(before)
      requires forall x: nat :: x in before <==> x < |start| && unknownInputCount[x] == 0 && start[x] > 0
      modifies this
      ensures Valid() && known == learned
      ensures NoDup(newly)
      ensures forall x :: 0 <= x < |start| ==> unknownInputCount[x] <= start[x]
      ensures forall x: nat :: x in newly <==> x < |start| && unknownInputCount[x] == 0 && start[x] > 0
    {
      newly := before;
      var i := 0;
      while i < |entries|
        invariant 0 <= i <= |entries|
        invariant operandToOperations == old(operandToOperations)
        invariant |unknownInputCount| == |start|
        invariant forall x :: 0 <= x < |start| ==>
                    unknownInputCount[x] ==
                    UnknownCount(model.operands, model.operations[x].inputs, learned) + Count(entries[i..], x)
        invariant forall x :: 0 <= x < |start| ==> unknownInputCount[x] <= start[x]
        invariant NoDup(newly)
        invariant forall x: nat :: x in newly <==> x < |start| && unknownInputCount[x] == 0 && start[x] > 0
      {
        var reader := entries[i];
        assert reader in entries;
        forall x: nat
          ensures Count(entries[i..], x) == Count(entries[i+1..], x) + (if x == reader then 1 else 0)
        {
          CountConcat([reader], entries[i+1..], x);
          assert entries[i..] == [reader] + entries[i+1..];
          assert [reader] == [] + [reader];
          CountAppend([], reader, x);
        }
        unknownInputCount := unknownInputCount[reader := unknownInputCount[reader] - 1];
        if unknownInputCount[reader] == 0 {
          newly := newly + [reader];
        }
        i := i + 1;
      }
      known := learned;
    }
  }

  /** An operation that has not been listed writes nothing that the listed ones write. */
  lemma FreshOutputs(m: Model, order: seq<nat>, j: nat)
    requires InRange(m) && WrittenOnce(m) && Operations(m, order)
    requires j < |m.operations| && j !in order
    ensures forall o :: o in m.operations[j].outputs ==>
              o < |m.operands| && IsDataflow(m.operands[o]) && o !in Outs(m, order)
  {
    forall o | o in m.operations[j].outputs
      ensures o !in Outs(m, order)
    {
      if o in Outs(m, order) {
        var i :| i in order && o in OutputsOf(m, i);
        UniqueWriter(m, i, j, o);
      }
    }
  }

  lemma ReadyGrows(m: Model, a: set<nat>, b: set<nat>)
    requires a <= b
    ensures forall x :: Ready(m, x, a) ==> Ready(m, x, b)
  {
  }

  /** Between two rounds of a worklist: `done` has run in order, and `pending` are exactly the
    * operations that could run next. */
  ghost predicate WorkState(m: Model, done: seq<nat>, pending: set<nat>) {
    && Operations(m, done)
    && Topological(m, done)
    && (forall x :: x in pending ==> x < |m.operations| && x !in done)
    && (forall x :: 0 <= x < |m.operations| ==> (x in pending || x in done <==> Ready(m, x, Outs(m, done))))
  }

  lemma WorkStart(m: Model, pending: set<nat>)
    requires forall x: nat :: x in pending <==> x < |m.operations| && Ready(m, x, {})
    ensures WorkState(m, [], pending)
  {
    assert Outs(m, []) == {};
  }

  lemma WorkStep(m: Model, done: seq<nat>, pending: set<nat>, j: nat, newly: set<nat>)
    requires WorkState(m, done, pending) && j in pending
    requires forall x: nat :: x in newly <==>
               x < |m.operations| && !Ready(m, x, Outs(m, done)) && Ready(m, x, Outs(m, done + [j]))
    ensures WorkState(m, done + [j], pending - {j} + newly)
    ensures newly !! pending && (forall x :: x in newly ==> x !in done + [j])
    ensures |done| < |m.operations|
  {
    TopologicalAppend(m, done, j);
    NoDupAppend(done, j);
    NoDupBounded(done + [j], |m.operations|);
    OutsAppend(m, done, j);
    ReadyGrows(m, Outs(m, done), Outs(m, done + [j]));
  }
}
