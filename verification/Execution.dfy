/** What executing a step does to memory. */
module Execution {
  import opened Sequences
  import opened Models
  import opened Sorting
  import opened Controlling

  /** The caller's inputs, the pool of temporaries, and the caller's output buffers. */
  datatype Memory = Memory(arguments: seq<Bytes>, pool: Bytes, results: seq<Bytes>)

  function Read(mem: Memory, loc: Location): Bytes {
    match loc
    case Unspecified => []
    case Argument(i) => if i < |mem.arguments| then mem.arguments[i] else []
    case Result(i) => if i < |mem.results| then mem.results[i] else []
    case Pool(offset, length) =>
      if offset + length <= |mem.pool| then mem.pool[offset..offset + length] else []
  }

  function ReadAll(mem: Memory, locs: seq<Location>): (values: seq<Bytes>)
    ensures |values| == |locs|
  {
    seq(|locs|, i requires 0 <= i < |locs| => Read(mem, locs[i]))
  }

  /** A buffer holds a value when the value fits and is found at its start. */
  predicate Holds(mem: Memory, loc: Location, value: Bytes) {
    |value| <= |Read(mem, loc)| && Read(mem, loc)[..|value|] == value
  }

  predicate Covers(loc: Location, k: nat) {
    loc.Pool? && loc.offset <= k < loc.offset + loc.length
  }

  /** Nothing but the listed locations has changed, and nothing has changed its size. */
  ghost predicate Confined(before: Memory, after: Memory, outs: seq<Location>) {
    && after.arguments == before.arguments
    && |after.pool| == |before.pool| && |after.results| == |before.results|
    && (forall k :: 0 <= k < |before.pool| && (forall i :: 0 <= i < |outs| ==> !Covers(outs[i], k)) ==>
          after.pool[k] == before.pool[k])
    && (forall r :: 0 <= r < |before.results| ==>
          && |after.results[r]| == |before.results[r]|
          && (Result(r) !in outs ==> after.results[r] == before.results[r]))
  }

  lemma ConfinedTwice(a: Memory, b: Memory, c: Memory, outs: seq<Location>)
    requires Confined(a, b, outs) && Confined(b, c, outs)
    ensures Confined(a, c, outs)
  {
  }

  /** Two places of which writing one does not change the other. */
  predicate Disjoint(a: Location, b: Location) {
    match (a, b)
    case (Argument(_), _) => true
    case (Result(i), Result(j)) => i != j
    case (Result(_), Pool(_, _)) => true
    case (Pool(_, _), Result(_)) => true
    case (Pool(x, m), Pool(y, n)) => m == 0 || n == 0 || x + m <= y || y + n <= x
    case _ => false
  }

  /** Writing elsewhere does not change what is read here. */
  lemma ReadUnchanged(before: Memory, after: Memory, outs: seq<Location>, loc: Location)
    requires Confined(before, after, outs)
    requires forall i :: 0 <= i < |outs| ==> Disjoint(loc, outs[i])
    ensures Read(after, loc) == Read(before, loc)
  {
    match loc
    case Unspecified =>
    case Argument(_) =>
    case Result(r) =>
      if r < |before.results| { assert Result(r) !in outs; }
    case Pool(offset, length) =>
      if offset + length <= |before.pool| {
        forall k | offset <= k < offset + length ensures after.pool[k] == before.pool[k] {
          assert forall i :: 0 <= i < |outs| ==> !Covers(outs[i], k);
        }
        assert after.pool[offset..offset + length] == before.pool[offset..offset + length];
      }
  }

  /** A model that was finished successfully: well-formed and listed in run order. */
  ghost predicate Executable(m: Model) {
    ValidModel(m) && InterfaceListed(m) && InRunOrder(m)
  }

  /** Values of the outputs of a model that is run on the given inputs. */
  ghost function OutputValues(sem: Semantics, m: Model, arguments: seq<Bytes>): (values: seq<Bytes>)
    requires Executable(m) && |arguments| == |m.inputIndexes|
    ensures |values| == |m.outputIndexes|
  {
    MeaningSatisfies(sem, m, arguments);
    seq(|m.outputIndexes|, i requires 0 <= i < |m.outputIndexes| =>
      assert m.outputIndexes[i] in m.outputIndexes;
      Meaning(sem, m, arguments)[m.outputIndexes[i]])
  }

  lemma OutputValueAt(sem: Semantics, m: Model, arguments: seq<Bytes>, i: nat)
    requires Executable(m) && |arguments| == |m.inputIndexes| && i < |m.outputIndexes|
    ensures m.outputIndexes[i] in Meaning(sem, m, arguments)
    ensures OutputValues(sem, m, arguments)[i] == Meaning(sem, m, arguments)[m.outputIndexes[i]]
  {
    MeaningSatisfies(sem, m, arguments);
    assert m.outputIndexes[i] in m.outputIndexes;
  }

  /** A successful execution: the outputs hold the values computed from the inputs. What lies behind
    * a value in a larger buffer is unspecified. */
  ghost predicate Executed(sem: Semantics, m: Model, ins: seq<Location>, outs: seq<Location>, before: Memory,
                           after: Memory) {
    && Executable(m) && |ins| == |m.inputIndexes| && |outs| == |m.outputIndexes|
    && Confined(before, after, outs)
    && forall i :: 0 <= i < |outs| ==> Holds(after, outs[i], OutputValues(sem, m, ReadAll(before, ins))[i])
  }

  /** A failed attempt at a step may have overwritten the outputs of the step. A later attempt still
    * does what it would have done, because no input of the step is among its outputs. */
  lemma RetryAfterScribbling(sem: Semantics, m: Model, ins: seq<Location>, outs: seq<Location>,
                             before: Memory, scribbled: Memory, after: Memory)
    requires Confined(before, scribbled, outs)
    requires forall i, k :: 0 <= i < |ins| && 0 <= k < |outs| ==> Disjoint(ins[i], outs[k])
    requires Executed(sem, m, ins, outs, scribbled, after)
    ensures Executed(sem, m, ins, outs, before, after)
  {
    ConfinedTwice(before, scribbled, after, outs);
    forall i | 0 <= i < |ins| ensures Read(scribbled, ins[i]) == Read(before, ins[i]) {
      ReadUnchanged(before, scribbled, outs, ins[i]);
    }
    assert ReadAll(scribbled, ins) == ReadAll(before, ins);
  }

  // ---------------------------------------------------------------- executions exist

  /** A place that can be written and is there. */
  predicate Writable(mem: Memory, loc: Location) {
    match loc
    case Result(i) => i < |mem.results|
    case Pool(offset, length) => offset + length <= |mem.pool|
    case _ => false
  }

  function WriteTo(mem: Memory, loc: Location, value: Bytes): Memory
    requires Writable(mem, loc) && |value| <= |Read(mem, loc)|
  {
    match loc
    case Result(i) => mem.(results := mem.results[i := value + mem.results[i][|value|..]])
    case Pool(offset, length) => mem.(pool := mem.pool[..offset] + value + mem.pool[offset + |value|..])
  }

  lemma WriteToHolds(mem: Memory, loc: Location, value: Bytes)
    requires Writable(mem, loc) && |value| <= |Read(mem, loc)|
    ensures Holds(WriteTo(mem, loc, value), loc, value) && Confined(mem, WriteTo(mem, loc, value), [loc])
  {
    assert [loc][0] == loc;
    var after := WriteTo(mem, loc, value);
    if loc.Pool? {
      forall k | 0 <= k < |mem.pool| && !Covers(loc, k) ensures after.pool[k] == mem.pool[k] {}
    }
  }

  lemma ConfinedSizes(before: Memory, after: Memory, outs: seq<Location>, loc: Location)
    requires Confined(before, after, outs)
    ensures |Read(after, loc)| == |Read(before, loc)| && (Writable(before, loc) <==> Writable(after, loc))
  {
  }

  lemma ConfinedMore(before: Memory, after: Memory, some: seq<Location>, all: seq<Location>)
    requires Confined(before, after, some) && forall l :: l in some ==> l in all
    ensures Confined(before, after, all)
  {
    forall k | 0 <= k < |before.pool| && (forall i :: 0 <= i < |all| ==> !Covers(all[i], k))
      ensures after.pool[k] == before.pool[k]
    {
      forall i | 0 <= i < |some| ensures !Covers(some[i], k) {
        assert some[i] in some;
        var j :| 0 <= j < |all| && all[j] == some[i];
      }
    }
  }

  /** Disjoint places can be given values that fit, one after the other. */
  lemma {:induction false} WriteAll(mem: Memory, outs: seq<Location>, values: seq<Bytes>) returns (after: Memory)
    requires |values| == |outs|
    requires forall i :: 0 <= i < |outs| ==> Writable(mem, outs[i]) && |values[i]| <= |Read(mem, outs[i])|
    requires forall i, j :: 0 <= i < j < |outs| ==> Disjoint(outs[i], outs[j])
    ensures Confined(mem, after, outs) && forall i :: 0 <= i < |outs| ==> Holds(after, outs[i], values[i])
    decreases |outs|
  {
    if outs == [] {
      after := mem;
    } else {
      var n := |outs| - 1;
      var before := WriteAll(mem, outs[..n], values[..n]);
      ConfinedSizes(mem, before, outs[..n], outs[n]);
      WriteToHolds(before, outs[n], values[n]);
      after := WriteTo(before, outs[n], values[n]);
      ConfinedMore(mem, before, outs[..n], outs);
      ConfinedMore(before, after, [outs[n]], outs);
      ConfinedTwice(mem, before, after, outs);
      forall i | 0 <= i < n ensures Holds(after, outs[i], values[i]) {
        assert outs[..n][i] == outs[i];
        ReadUnchanged(before, after, [outs[n]], outs[i]);
      }
    }
  }

  /** A model can be executed when the values of its outputs fit where they belong. */
  lemma ExecutionExists(sem: Semantics, m: Model, ins: seq<Location>, outs: seq<Location>, before: Memory)
    returns (after: Memory)
    requires Executable(m) && |ins| == |m.inputIndexes| && |outs| == |m.outputIndexes|
    requires forall i :: 0 <= i < |outs| ==>
               Writable(before, outs[i]) && |OutputValues(sem, m, ReadAll(before, ins))[i]| <= |Read(before, outs[i])|
    requires forall i, j :: 0 <= i < j < |outs| ==> Disjoint(outs[i], outs[j])
    ensures Executed(sem, m, ins, outs, before, after)
  {
    after := WriteAll(before, outs, OutputValues(sem, m, ReadAll(before, ins)));
  }
}
