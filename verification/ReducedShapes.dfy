/** Shapes of reductions, and combining two partial specifications of a shape. */
module ReducedShapes {
  import opened IndexedShapes
  import opened Sizes
  import opened OutputShapes

  /** Axes may be given from the end, as negative numbers. */
  predicate NamesAxis(axis: int, rank: nat, idx: nat) {
    axis == idx || axis + rank == idx
  }

  predicate IsAxis(axes: seq<int>, rank: nat, idx: nat) {
    exists i :: 0 <= i < |axes| && NamesAxis(axes[i], rank, idx)
  }

  /** Sizes of the axes below `k` that are not reduced, in order. */
  function Remaining(dims: seq<nat>, axes: seq<int>, k: nat): (r: seq<nat>)
    requires k <= |dims|
    ensures |r| <= k
  {
    if k == 0 then []
    else Remaining(dims, axes, k - 1) + (if IsAxis(axes, |dims|, k - 1) then [] else [dims[k-1]])
  }

  function RemainingShape(dims: seq<nat>, axes: seq<int>): seq<nat> {
    Remaining(dims, axes, |dims|)
  }

  function ReducedAxes(axes: seq<int>, rank: nat, k: nat): set<nat> {
    set idx | 0 <= idx < k && IsAxis(axes, rank, idx)
  }

  lemma {:induction false} RemainingLength(dims: seq<nat>, axes: seq<int>, k: nat)
    requires k <= |dims|
    ensures |Remaining(dims, axes, k)| + |ReducedAxes(axes, |dims|, k)| == k
  {
    var before := if k == 0 then {} else ReducedAxes(axes, |dims|, k - 1);
    if k == 0 {
      assert ReducedAxes(axes, |dims|, 0) == {};
    } else {
      RemainingLength(dims, axes, k - 1);
      if IsAxis(axes, |dims|, k - 1) {
        assert ReducedAxes(axes, |dims|, k) == before + {k - 1};
      } else {
        assert ReducedAxes(axes, |dims|, k) == before;
      }
    }
  }

  lemma {:induction false} RemainingPrefix(dims: seq<nat>, axes: seq<int>, j: nat, k: nat)
    requires j <= k <= |dims|
    ensures |Remaining(dims, axes, j)| <= |Remaining(dims, axes, k)|
    decreases k
  {
    if j < k { RemainingPrefix(dims, axes, j, k - 1); }
  }

  function Normal(axis: int, rank: nat): int {
    if axis < 0 then axis + rank else axis
  }

  function Normals(axes: seq<int>, rank: nat, n: nat): set<int>
    requires n <= |axes|
  {
    set i | 0 <= i < n :: Normal(axes[i], rank)
  }

  lemma NormalsNext(axes: seq<int>, rank: nat, n: nat)
    requires n < |axes|
    ensures |Normals(axes, rank, n + 1)| ==
            |Normals(axes, rank, n)| + if Normal(axes[n], rank) in Normals(axes, rank, n) then 0 else 1
  {
    assert forall i :: 0 <= i < n ==> Normal(axes[i], rank) in Normals(axes, rank, n + 1);
    assert Normals(axes, rank, n + 1) == Normals(axes, rank, n) + {Normal(axes[n], rank)};
    if Normal(axes[n], rank) in Normals(axes, rank, n) {
      assert Normals(axes, rank, n + 1) == Normals(axes, rank, n);
    }
  }

  lemma NormalsNone(axes: seq<int>, rank: nat)
    ensures Normals(axes, rank, 0) == {}
  {
  }

  /** In range, the distinct axes are the reduced ones. */
  lemma NormalsAreAxes(axes: seq<int>, rank: nat)
    requires forall i :: 0 <= i < |axes| ==> 0 <= Normal(axes[i], rank) < rank
    ensures forall x: nat :: x in Normals(axes, rank, |axes|) <==> x in ReducedAxes(axes, rank, rank)
    ensures |Normals(axes, rank, |axes|)| == |ReducedAxes(axes, rank, rank)|
  {
    var a, b := Normals(axes, rank, |axes|), ReducedAxes(axes, rank, rank);
    forall x: nat ensures x in a <==> x in b {
      if x in a {
        var i :| 0 <= i < |axes| && Normal(axes[i], rank) == x;
        assert NamesAxis(axes[i], rank, x);
      }
      if x in b {
        var i :| 0 <= i < |axes| && NamesAxis(axes[i], rank, x);
        assert Normal(axes[i], rank) == x;
      }
    }
    SameSize(a, b);
  }

  lemma {:induction false} SameSize(a: set<int>, b: set<nat>)
    requires (forall x :: x in a ==> x >= 0) && forall x: nat :: x in a <==> x in b
    ensures |a| == |b|
    decreases |b|
  {
    if b == {} {
      forall x: int ensures x !in a {
        if x >= 0 {
          var y: nat := x;
          assert y in a <==> y in b;
        }
      }
    } else {
      var x :| x in b;
      SameSize(a - {x}, b - {x});
    }
  }

  /** Whether one of the first `n` axes is the given one. */
  method SeenBefore(axes: seq<int>, rank: nat, n: nat, current: int) returns (seen: bool)
    requires n <= |axes|
    ensures seen <==> current in Normals(axes, rank, n)
  {
    for j := 0 to n
      invariant forall k :: 0 <= k < j ==> Normal(axes[k], rank) != current
    {
      var previous := axes[j];
      if previous < 0 { previous := previous + rank; }
      if current == previous {
        assert Normal(axes[j], rank) in Normals(axes, rank, n);
        return true;
      }
    }
    return false;
  }

  /** Number of distinct axes; fails when one is out of range. */
  method CountAxes(axes: seq<int>, rank: nat) returns (ok: bool, count: nat)
    ensures ok <==> AxesInRange(axes, rank)
    ensures ok ==> count == |ReducedAxes(axes, rank, rank)|
  {
    hide Normals, ReducedAxes;
    count := |axes|;
    NormalsNone(axes, rank);
    for i := 0 to |axes|
      invariant forall k :: 0 <= k < i ==> 0 <= Normal(axes[k], rank) < rank
      invariant count == |axes| - i + |Normals(axes, rank, i)|
    {
      var current := axes[i];
      if current < 0 { current := current + rank; }
      assert Normal(axes[i], rank) == current;
      if !(0 <= current < rank) { return false, count; }
      NormalsNext(axes, rank, i);
      var seen := SeenBefore(axes, rank, i, current);
      if seen { count := count - 1; }
    }
    NormalsAreAxes(axes, rank);
    ok := true;
  }

  method FindAxis(axes: seq<int>, rank: nat, idx: nat) returns (isAxis: bool)
    ensures isAxis <==> IsAxis(axes, rank, idx)
  {
    for i := 0 to |axes|
      invariant forall k :: 0 <= k < i ==> !NamesAxis(axes[k], rank, idx)
    {
      if axes[i] == idx || axes[i] + rank == idx {
        assert NamesAxis(axes[i], rank, idx);
        return true;
      }
    }
    return false;
  }

  function KeptShape(dims: seq<nat>, axes: seq<int>): (r: seq<nat>)
    ensures |r| == |dims|
  {
    seq(|dims|, idx requires 0 <= idx < |dims| => if IsAxis(axes, |dims|, idx) then 1 else dims[idx])
  }

  /** Sizes of the axes that are not named are left, in order: each at the position that is its own less the
    * number of named axes before it, and nothing else. */
  ghost predicate Drops(dims: seq<nat>, axes: seq<int>, out: seq<nat>) {
    && |out| + |NamedBelow(axes, |dims|, |dims|)| == |dims|
    && forall idx :: 0 <= idx < |dims| && !Named(axes, |dims|, idx) ==>
         var at := idx - |NamedBelow(axes, |dims|, idx)|;
         0 <= at < |out| && out[at] == dims[idx]
  }

  /** Some axis is `idx`, counted from the front, or from the end as a negative number. */
  ghost predicate Named(axes: seq<int>, rank: nat, idx: nat) {
    exists i :: 0 <= i < |axes| && (axes[i] == idx || axes[i] == idx - rank)
  }

  ghost function NamedBelow(axes: seq<int>, rank: nat, k: nat): set<nat> {
    set idx | 0 <= idx < k && Named(axes, rank, idx)
  }

  lemma NamedAxes(axes: seq<int>, rank: nat)
    ensures forall idx: nat :: IsAxis(axes, rank, idx) <==> Named(axes, rank, idx)
    ensures forall k: nat :: ReducedAxes(axes, rank, k) == NamedBelow(axes, rank, k)
  {
    forall idx: nat ensures IsAxis(axes, rank, idx) <==> Named(axes, rank, idx) {
      if i :| 0 <= i < |axes| && NamesAxis(axes[i], rank, idx) { assert Named(axes, rank, idx); }
      if i :| 0 <= i < |axes| && (axes[i] == idx || axes[i] == idx - rank) { assert NamesAxis(axes[i], rank, idx); }
    }
  }

  lemma {:induction false} RemainingAt(dims: seq<nat>, axes: seq<int>, k: nat, idx: nat)
    requires idx < k <= |dims| && !IsAxis(axes, |dims|, idx)
    ensures var at := idx - |ReducedAxes(axes, |dims|, idx)|;
            0 <= at < |Remaining(dims, axes, k)| && Remaining(dims, axes, k)[at] == dims[idx]
  {
    RemainingLength(dims, axes, k - 1);
    if idx < k - 1 { RemainingAt(dims, axes, k - 1, idx); }
  }

  lemma RemainingDrops(dims: seq<nat>, axes: seq<int>)
    ensures Drops(dims, axes, RemainingShape(dims, axes))
  {
    NamedAxes(axes, |dims|);
    RemainingLength(dims, axes, |dims|);
    forall idx | 0 <= idx < |dims| && !Named(axes, |dims|, idx)
      ensures var at := idx - |NamedBelow(axes, |dims|, idx)|;
              0 <= at < |RemainingShape(dims, axes)| && RemainingShape(dims, axes)[at] == dims[idx]
    {
      RemainingAt(dims, axes, |dims|, idx);
    }
  }

  const TENSOR_INT32: nat := 4

  /** The axes are given as a list of 32-bit numbers. */
  ghost predicate IsAxisTensor(axisShape: Shape) {
    axisShape.ty == TENSOR_INT32 && |axisShape.dimensions| == 1
  }

  /** Axes count from the front, or, if negative, from the end. */
  ghost predicate AxesInRange(axes: seq<int>, rank: nat) {
    forall i :: 0 <= i < |axes| ==> 0 - rank <= axes[i] < rank
  }

  /** The shape of a reduction. Axes that are kept get size one, and may be out of range then. */
  method MeanPrepare(input: Shape, axisData: seq<int>, axisShape: Shape, keepDims: bool)
    returns (ok: bool, output: Shape)
    requires IsAxisTensor(axisShape) ==> |axisData| >= axisShape.dimensions[0]
    ensures ok <==>
            && axisShape.ty == TENSOR_INT32 && |axisShape.dimensions| == 1
            && (keepDims || forall i :: 0 <= i < axisShape.dimensions[0] ==>
                              -|input.dimensions| <= axisData[i] < |input.dimensions|)
    ensures ok ==> output == input.(dimensions := output.dimensions)
    ensures ok && keepDims ==>
              var dims, axes := input.dimensions, axisData[..axisShape.dimensions[0]];
              && |output.dimensions| == |dims|
              && forall idx :: 0 <= idx < |dims| ==>
                   output.dimensions[idx] ==
                   if exists i :: 0 <= i < |axes| && (axes[i] == idx || axes[i] == idx - |dims|) then 1 else dims[idx]
    ensures ok && !keepDims ==> Drops(input.dimensions, axisData[..axisShape.dimensions[0]], output.dimensions)
    ensures ok ==> var dims, axes := input.dimensions, axisData[..axisShape.dimensions[0]];
                   output.dimensions == if keepDims then KeptShape(dims, axes) else RemainingShape(dims, axes)
  {
    output := input;
    if axisShape.ty != TENSOR_INT32 { return false, output; }
    if |axisShape.dimensions| != 1 { return false, output; }
    var dims, axes := input.dimensions, axisData[..axisShape.dimensions[0]];
    if keepDims {
      var out := KeepAxes(dims, axes);
      NamedAxes(axes, |dims|);
      return true, input.(dimensions := out);
    }
    var numReduceAxis;
    ok, numReduceAxis := CountAxes(axes, |dims|);
    if !ok { return false, output; }
    RemainingLength(dims, axes, |dims|);
    RemainingDrops(dims, axes);
    var outDims := new nat[|dims| - numReduceAxis](i => 0);
    FillRemaining(dims, axes, outDims);
    output := input.(dimensions := outDims[..]);
  }

  method KeepAxes(dims: seq<nat>, axes: seq<int>) returns (out: seq<nat>)
    ensures out == KeptShape(dims, axes)
  {
    out := seq(|dims|, idx => 0);
    for idx := 0 to |dims|
      invariant |out| == |dims|
      invariant forall k :: 0 <= k < idx ==> out[k] == KeptShape(dims, axes)[k]
    {
      var isAxis := FindAxis(axes, |dims|, idx);
      out := out[idx := if isAxis then 1 else dims[idx]];
    }
  }

  /** Writes the remaining axes. Every write is in bounds, and every position is written once. */
  method FillRemaining(dims: seq<nat>, axes: seq<int>, outDims: array<nat>)
    requires outDims.Length == |Remaining(dims, axes, |dims|)|
    modifies outDims
    ensures outDims[..] == Remaining(dims, axes, |dims|)
  {
    var numSkipAxis := 0;
    for idx := 0 to |dims|
      invariant 0 <= numSkipAxis <= idx && idx - numSkipAxis == |Remaining(dims, axes, idx)| <= outDims.Length
      invariant outDims[..idx - numSkipAxis] == Remaining(dims, axes, idx)
    {
      RemainingPrefix(dims, axes, idx + 1, |dims|);
      var isAxis := FindAxis(axes, |dims|, idx);
      if isAxis {
        numSkipAxis := numSkipAxis + 1;
      } else {
        outDims[idx - numSkipAxis] := dims[idx];
        assert outDims[..idx - numSkipAxis + 1] == outDims[..idx - numSkipAxis] + [dims[idx]];
      }
    }
  }

  /** Dropping the axes is keeping them with size one and then removing them. */
  lemma {:induction false} DroppedIsKeptWithoutAxes(dims: seq<nat>, axes: seq<int>, k: nat)
    requires k <= |dims|
    ensures Remaining(KeptShape(dims, axes), axes, k) == Remaining(dims, axes, k)
  {
    if k > 0 { DroppedIsKeptWithoutAxes(dims, axes, k - 1); }
  }

  /** Keeping the axes with size one and dropping them leave the same number of elements. */
  lemma SameElementCount(dims: seq<nat>, axes: seq<int>)
    ensures Product(KeptShape(dims, axes)) == Product(RemainingShape(dims, axes))
  {
    SameCountUpTo(dims, axes, |dims|);
    assert KeptShape(dims, axes)[..|dims|] == KeptShape(dims, axes);
  }

  lemma {:induction false} SameCountUpTo(dims: seq<nat>, axes: seq<int>, k: nat)
    requires k <= |dims|
    ensures Product(KeptShape(dims, axes)[..k]) == Product(Remaining(dims, axes, k))
  {
    if k > 0 {
      var kept, left := KeptShape(dims, axes)[..k], Remaining(dims, axes, k - 1);
      SameCountUpTo(dims, axes, k - 1);
      ProductLast(kept);
      assert kept[..k-1] == KeptShape(dims, axes)[..k-1];
      if !IsAxis(axes, |dims|, k - 1) {
        ProductLast(left + [dims[k-1]]);
        assert (left + [dims[k-1]])[..|left|] == left;
      } else {
        assert Remaining(dims, axes, k) == left && kept[k-1] == 1;
      }
    }
  }

  // ---------------------------------------------------------------- combining shapes

  ghost predicate CanCombine(lhs: seq<nat>, rhs: seq<nat>) {
    lhs == [] || rhs == [] ||
    (|lhs| == |rhs| && forall i :: 0 <= i < |lhs| ==> lhs[i] == 0 || rhs[i] == 0 || lhs[i] == rhs[i])
  }

  /** What two partial specifications of a shape say together. */
  method CombineDimensions(lhs: seq<nat>, rhs: seq<nat>) returns (ok: bool, combined: seq<nat>)
    ensures ok <==> CanCombine(lhs, rhs)
    ensures ok ==> Refines(lhs, combined) && Refines(rhs, combined)
    ensures ok ==> forall other :: Refines(lhs, other) && Refines(rhs, other) ==> Refines(combined, other)
  {
    if rhs == [] { return true, lhs; }
    if lhs == [] { return true, rhs; }
    if |lhs| != |rhs| { return false, []; }
    combined := seq(|lhs|, i => 0);
    for i := 0 to |lhs|
      invariant |combined| == |lhs|
      invariant forall k :: 0 <= k < i ==> lhs[k] == 0 || rhs[k] == 0 || lhs[k] == rhs[k]
      invariant forall k :: 0 <= k < i ==> combined[k] == if lhs[k] == 0 then rhs[k] else lhs[k]
    {
      if lhs[i] == 0 {
        combined := combined[i := rhs[i]];
        continue;
      }
      if rhs[i] == 0 {
        combined := combined[i := lhs[i]];
        continue;
      }
      if lhs[i] != rhs[i] { return false, []; }
      combined := combined[i := lhs[i]];
    }
    ok := true;
  }

  /** Combining fails only when no shape meets both specifications. */
  lemma CombineFailsRightly(lhs: seq<nat>, rhs: seq<nat>)
    ensures CanCombine(lhs, rhs) <==> exists shape :: Refines(lhs, shape) && Refines(rhs, shape)
  {
    if CanCombine(lhs, rhs) {
      var shape := if lhs == [] then rhs else if rhs == [] then lhs
                   else seq(|lhs|, i requires 0 <= i < |lhs| => if lhs[i] == 0 then rhs[i] else lhs[i]);
      RefinesReflexive(lhs);
      RefinesReflexive(rhs);
      assert Refines(lhs, shape) && Refines(rhs, shape);
    }
  }
}
