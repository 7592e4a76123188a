/** Tensor indexes, flat indexes, and broadcasting. */
module IndexedShapes {
  import opened Models

  /** What a kernel knows of a tensor; sizes of dimensions are 32-bit numbers. */
  datatype Shape = Shape(ty: nat, dimensions: seq<nat>, scale: real, offset: int)

  /** Multiplication as repeated addition, which keeps the arguments below linear. */
  function Times(a: nat, p: nat): nat {
    if a == 0 then 0 else Times(a - 1, p) + p
  }

  lemma {:induction false} TimesIs(a: nat, p: nat)
    ensures Times(a, p) == a * p
  {
    if a > 0 {
      TimesIs(a - 1, p);
      assert a * p == (a - 1) * p + p;
    }
  }

  lemma {:induction false} TimesLess(a: nat, b: nat, p: nat)
    requires a < b
    ensures Times(a, p) + p <= Times(b, p)
  {
    if a < b - 1 { TimesLess(a, b - 1, p); }
  }

  /** Number of elements of a tensor. */
  function Product(shape: seq<nat>): nat {
    if shape == [] then 1 else Times(shape[0], Product(shape[1..]))
  }

  /** Position of an element in row-major order. */
  function Flat(shape: seq<nat>, index: seq<nat>): nat
    requires |index| == |shape|
  {
    if shape == [] then 0 else Times(index[0], Product(shape[1..])) + Flat(shape[1..], index[1..])
  }

  predicate ValidIndex(shape: seq<nat>, index: seq<nat>) {
    |index| == |shape| && forall i :: 0 <= i < |shape| ==> index[i] < shape[i]
  }

  ghost predicate Positive(shape: seq<nat>) {
    forall i :: 0 <= i < |shape| ==> shape[i] > 0
  }

  lemma ValidTail(shape: seq<nat>, index: seq<nat>)
    requires ValidIndex(shape, index) && shape != []
    ensures ValidIndex(shape[1..], index[1..]) && index[0] < shape[0]
  {
  }

  lemma {:induction false} FlatBound(shape: seq<nat>, index: seq<nat>)
    requires ValidIndex(shape, index)
    ensures Flat(shape, index) < Product(shape)
  {
    if shape != [] {
      ValidTail(shape, index);
      FlatBound(shape[1..], index[1..]);
      TimesLess(index[0], shape[0], Product(shape[1..]));
    }
  }

  /** Different indexes have different positions. */
  lemma {:induction false} FlatInjective(shape: seq<nat>, a: seq<nat>, b: seq<nat>)
    requires ValidIndex(shape, a) && ValidIndex(shape, b) && Flat(shape, a) == Flat(shape, b)
    ensures a == b
  {
    if shape != [] {
      ValidTail(shape, a);
      ValidTail(shape, b);
      var p := Product(shape[1..]);
      var x, y := Flat(shape[1..], a[1..]), Flat(shape[1..], b[1..]);
      FlatBound(shape[1..], a[1..]);
      FlatBound(shape[1..], b[1..]);
      SameDigits(p, a[0], x, b[0], y);
      FlatInjective(shape[1..], a[1..], b[1..]);
      assert a == [a[0]] + a[1..] && b == [b[0]] + b[1..];
    }
  }

  lemma SameDigits(p: nat, a: nat, x: nat, b: nat, y: nat)
    requires x < p && y < p && Times(a, p) + x == Times(b, p) + y
    ensures a == b && x == y
  {
    if a < b { TimesLess(a, b, p); }
    if b < a { TimesLess(b, a, p); }
  }

  /** Every component is as large as it can be. */
  predicate IsLast(shape: seq<nat>, index: seq<nat>)
    requires |index| == |shape|
  {
    forall i :: 0 <= i < |shape| ==> index[i] + 1 == shape[i]
  }

  /** The last index is the one with the last position. */
  lemma {:induction false} LastIffFlat(shape: seq<nat>, index: seq<nat>)
    requires ValidIndex(shape, index)
    ensures IsLast(shape, index) <==> Flat(shape, index) + 1 == Product(shape)
  {
    if shape != [] {
      ValidTail(shape, index);
      LastIffFlat(shape[1..], index[1..]);
      FlatBound(shape[1..], index[1..]);
      LastTail(shape, index);
      if index[0] + 1 < shape[0] { TimesLess(index[0] + 1, shape[0], Product(shape[1..])); }
    }
  }

  lemma LastTail(shape: seq<nat>, index: seq<nat>)
    requires |index| == |shape| && shape != []
    ensures IsLast(shape, index) <==> index[0] + 1 == shape[0] && IsLast(shape[1..], index[1..])
  {
    if index[0] + 1 == shape[0] && IsLast(shape[1..], index[1..]) {
      forall i | 0 <= i < |shape| ensures index[i] + 1 == shape[i] {
        if i > 0 { assert index[1..][i-1] + 1 == shape[1..][i-1]; }
      }
    }
    if IsLast(shape, index) {
      forall i | 0 <= i < |shape| - 1 ensures index[1..][i] + 1 == shape[1..][i] {
        assert index[i+1] + 1 == shape[i+1];
      }
    }
  }

  // ---------------------------------------------------------------- the next index

  /** `after` is `before` with a carry into position `p`. */
  ghost predicate Carried(shape: seq<nat>, before: seq<nat>, after: seq<nat>, p: nat)
    requires |before| == |shape|
  {
    && p < |shape| && |after| == |shape| && before[p] + 1 < shape[p]
    && (forall i :: 0 <= i < p ==> after[i] == before[i])
    && after[p] == before[p] + 1
    && (forall i :: p < i < |shape| ==> after[i] == 0 && before[i] + 1 == shape[i])
  }

  lemma {:induction false} FlatZero(shape: seq<nat>, index: seq<nat>)
    requires |index| == |shape| && forall i :: 0 <= i < |index| ==> index[i] == 0
    ensures Flat(shape, index) == 0
  {
    if shape != [] { FlatZero(shape[1..], index[1..]); }
  }

  /** A carry leads to the next position. */
  lemma {:induction false} CarriedFlat(shape: seq<nat>, before: seq<nat>, after: seq<nat>, p: nat)
    requires ValidIndex(shape, before) && Carried(shape, before, after, p)
    ensures ValidIndex(shape, after) && Flat(shape, after) == Flat(shape, before) + 1
  {
    ValidTail(shape, before);
    var rest := shape[1..];
    if p == 0 {
      FlatZero(rest, after[1..]);
      LastIffFlat(rest, before[1..]);
      assert Times(before[0] + 1, Product(rest)) == Times(before[0], Product(rest)) + Product(rest);
    } else {
      CarriedFlat(rest, before[1..], after[1..], p - 1);
    }
  }

  class IndexedShapeWrapper {
    const shape: seq<nat>
    var strides: seq<nat>

    ghost predicate Valid()
      reads this
    {
      shape != [] && StridesFit(shape, strides)
    }

    /** Strides are computed with 32 bits, whatever the sizes of the dimensions are. */
    constructor (shape: seq<nat>)
      requires shape != []
      ensures this.shape == shape && Valid()
    {
      this.shape := shape;
      var n := |shape|;
      var filled: seq<nat> := seq(n, i => 0)[n - 1 := 1];
      assert shape[n..] == [] && Product(shape[n..]) == 1;
      for i := n - 1 downto 0
        invariant |filled| == n
        invariant StridesFitFrom(shape, filled, i)
      {
        assert shape[i+1..][0] == shape[i+1] && shape[i+1..][1..] == shape[i+2..];
        Wrapped(0, filled[i + 1], Product(shape[i+2..]), shape[i + 1]);
        filled := filled[i := (shape[i + 1] * filled[i + 1]) % UINT32_LIMIT];
      }
      assert StridesFit(shape, filled);
      strides := filled;
    }

    /** Advances an index in place. Sets the flag for the last index, which it leaves alone. */
    method NextIndexInplace(index: array<nat>, flag: bool) returns (ok: bool, lastIndex: bool)
      requires Valid()
      modifies index
      ensures ok <==> ValidIndex(shape, old(index[..]))
      ensures lastIndex <==> flag || (ok && IsLast(shape, old(index[..])))
      ensures !ok || IsLast(shape, old(index[..])) ==> index[..] == old(index[..])
      ensures ok && !IsLast(shape, old(index[..])) ==> Advances(shape, old(index[..]), index[..])
    {
      ok := IsValid(index[..]);
      lastIndex := flag;
      if !ok { return; }
      ghost var before := index[..];
      var anyIndicesLeft := false;
      for i := 0 to index.Length
        invariant !anyIndicesLeft && forall k :: 0 <= k < i ==> before[k] + 1 == shape[k]
      {
        if index[i] < shape[i] - 1 {
          anyIndicesLeft := true;
          assert !IsLast(shape, before);
          break;
        }
      }
      if !anyIndicesLeft {
        lastIndex := true;
        return;
      }
      var i := index.Length - 1;
      while i >= 0
        invariant -1 <= i < index.Length
        invariant forall k :: 0 <= k <= i ==> index[k] == before[k]
        invariant forall k :: i < k < index.Length ==> index[k] == 0 && before[k] + 1 == shape[k]
      {
        index[i] := index[i] + 1;
        if index[i] == shape[i] {
          index[i] := 0;
        } else {
          assert Carried(shape, before, index[..], i);
          return;
        }
        i := i - 1;
      }
      assert false;
    }

    method IsValid(index: seq<nat>) returns (ok: bool)
      ensures ok <==> ValidIndex(shape, index)
    {
      if |index| != |shape| { return false; }
      for i := 0 to |index|
        invariant forall k :: 0 <= k < i ==> index[k] < shape[k]
      {
        if index[i] >= shape[i] { return false; }
      }
      return true;
    }

    /** The position of an index, as far as 32 bits hold it. */
    method IndexToFlatIndex(index: seq<nat>) returns (ok: bool, flatIndex: nat)
      requires Valid()
      ensures ok <==> ValidIndex(shape, index)
      ensures ok ==> flatIndex == Flat(shape, index) % UINT32_LIMIT
    {
      hide Flat, Times, Product;
      ok := IsValid(index);
      flatIndex := 0;
      if !ok { return; }
      ghost var exact: nat := 0;
      assert shape[0..] == shape && index[0..] == index;
      NoAxes();
      assert shape[|shape|..] == [] && index[|shape|..] == [];
      for i := 0 to |index|
        invariant exact + Flat(shape[i..], index[i..]) == Flat(shape, index) && flatIndex == exact % UINT32_LIMIT
      {
        FlatFrom(shape, index, i);
        Wrapped(exact, strides[i], Product(shape[i+1..]), index[i]);
        flatIndex := (flatIndex + (strides[i] * index[i]) % UINT32_LIMIT) % UINT32_LIMIT;
        exact := exact + Times(index[i], Product(shape[i+1..]));
      }
    }

    /** The position of an index of a larger shape that this shape is broadcast to. */
    method BroadcastedIndexToFlatIndex(index: seq<nat>) returns (ok: bool, flatIndex: nat)
      requires Valid()
      ensures ok <==> Accepts(shape, index)
      ensures ok ==> ValidIndex(shape, Clipped(shape, index))
      ensures ok ==> flatIndex == Flat(shape, Clipped(shape, index)) % UINT32_LIMIT
    {
      hide Flat, Times, Product, ValidIndex;
      NoAxes();
      flatIndex := 0;
      if |index| < |shape| { return false, 0; }
      var n := |shape|;
      ghost var clipped := Clipped(shape, index);
      assert shape[n..] == [] && clipped[n..] == [];
      for i := 1 to n + 1
        invariant flatIndex == Flat(shape[n-i+1..], clipped[n-i+1..]) % UINT32_LIMIT
        invariant forall k :: n - i + 1 <= k < n ==> AcceptsAt(shape, index, k)
      {
        var currentIndex, currentDimSize := index[|index| - i], shape[n - i];
        assert AcceptsAt(shape, index, n - i) <==> currentIndex < currentDimSize || currentDimSize == 1;
        if !(currentIndex < currentDimSize || currentDimSize == 1) { return false, 0; }
        FlatFrom(shape, clipped, n - i);
        if currentDimSize != 1 {
          assert clipped[n - i] == currentIndex;
          Wrapped(Flat(shape[n-i+1..], clipped[n-i+1..]), strides[n - i], Product(shape[n-i+1..]), currentIndex);
          flatIndex := (flatIndex + (strides[n - i] * index[|index| - i]) % UINT32_LIMIT) % UINT32_LIMIT;
        } else {
          NoSteps(Product(shape[n-i+1..]));
        }
      }
      ok := true;
      ClippedValid(shape, index);
      assert shape[0..] == shape && clipped[0..] == clipped;
    }
  }

  lemma NoAxes()
    ensures Flat([], []) == 0 && Product([]) == 1
  {
  }

  lemma NoSteps(p: nat)
    ensures Times(0, p) == 0
  {
  }

  lemma FlatFrom(shape: seq<nat>, index: seq<nat>, i: nat)
    requires |index| == |shape| && i < |shape|
    ensures Flat(shape[i..], index[i..]) == Times(index[i], Product(shape[i+1..])) + Flat(shape[i+1..], index[i+1..])
  {
    assert shape[i..][1..] == shape[i+1..] && index[i..][1..] == index[i+1..];
  }

  /** Adding a multiple of a stride with 32 bits is adding it and truncating the sum. */
  lemma Wrapped(x: nat, stride: nat, p: nat, a: nat)
    requires stride == p % UINT32_LIMIT
    ensures (x % UINT32_LIMIT + (stride * a) % UINT32_LIMIT) % UINT32_LIMIT == (x + Times(a, p)) % UINT32_LIMIT
    ensures (a * stride) % UINT32_LIMIT == Times(a, p) % UINT32_LIMIT
  {
    hide Times;
    TimesSplit(stride, p, a);
    WrappedSum(x, stride * a, a * (p / UINT32_LIMIT));
    WrappedSum(0, stride * a, a * (p / UINT32_LIMIT));
  }

  lemma TimesSplit(stride: nat, p: nat, a: nat)
    requires stride == p % UINT32_LIMIT
    ensures Times(a, p) == stride * a + UINT32_LIMIT * (a * (p / UINT32_LIMIT)) && stride * a == a * stride
  {
    TimesIs(a, p);
    Distributed(a, stride, p / UINT32_LIMIT);
  }

  lemma Distributed(a: nat, b: nat, k: nat)
    ensures a * (b + UINT32_LIMIT * k) == a * b + UINT32_LIMIT * (a * k)
  {
  }

  lemma WrappedSum(x: nat, low: nat, high: nat)
    ensures (x + (low + UINT32_LIMIT * high)) % UINT32_LIMIT == (x % UINT32_LIMIT + low % UINT32_LIMIT) % UINT32_LIMIT
  {
  }

  /** Each stride is the number of elements that lie behind its axis, as far as 32 bits hold it. */
  ghost predicate StridesFit(shape: seq<nat>, strides: seq<nat>) {
    StridesFitFrom(shape, strides, 0)
  }

  ghost predicate StridesFitFrom(shape: seq<nat>, strides: seq<nat>, from: nat) {
    && |strides| == |shape|
    && forall i :: from <= i < |shape| ==> strides[i] == Product(shape[i+1..]) % UINT32_LIMIT
  }

  /** The positions of all elements are exact if and only if there are at most as many elements as 32 bits
    * can number. */
  lemma PositionsExactIff(shape: seq<nat>)
    ensures (forall index :: ValidIndex(shape, index) ==> Flat(shape, index) % UINT32_LIMIT == Flat(shape, index)) <==>
            Product(shape) <= UINT32_LIMIT
  {
    forall index | ValidIndex(shape, index) && Product(shape) <= UINT32_LIMIT
      ensures Flat(shape, index) % UINT32_LIMIT == Flat(shape, index)
    {
      FlatBound(shape, index);
    }
    if Product(shape) > UINT32_LIMIT {
      NoEmptyAxis(shape);
      var last := seq(|shape|, i requires 0 <= i < |shape| => if shape[i] == 0 then 0 else shape[i] - 1);
      assert ValidIndex(shape, last) && IsLast(shape, last);
      LastIffFlat(shape, last);
    }
  }

  lemma {:induction false} NoEmptyAxis(shape: seq<nat>)
    requires Product(shape) > 0
    ensures Positive(shape)
  {
    if shape != [] {
      TimesIs(shape[0], Product(shape[1..]));
      NoEmptyAxis(shape[1..]);
      forall i | 0 <= i < |shape| ensures shape[i] > 0 {
        if i > 0 { assert shape[1..][i-1] > 0; }
      }
    }
  }

  // ---------------------------------------------------------------- enumeration

  /** The index that is reached from the first one in `k` steps. */
  ghost predicate Reached(shape: seq<nat>, states: seq<seq<nat>>) {
    && states != [] && |states[0]| == |shape| && (forall i :: 0 <= i < |shape| ==> states[0][i] == 0)
    && forall k :: 0 <= k < |states| - 1 ==>
         Advances(shape, states[k], states[k+1])
  }

  ghost predicate Advances(shape: seq<nat>, before: seq<nat>, after: seq<nat>) {
    |before| == |shape| && exists p :: Carried(shape, before, after, p)
  }

  /** Iterating from zero visits the positions one after the other, each once. */
  lemma {:induction false} EnumerationCounts(shape: seq<nat>, states: seq<seq<nat>>, k: nat)
    requires Positive(shape) && Reached(shape, states) && k < |states|
    ensures ValidIndex(shape, states[k]) && Flat(shape, states[k]) == k
  {
    if k == 0 {
      FlatZero(shape, states[0]);
    } else {
      EnumerationCounts(shape, states, k - 1);
      assert Advances(shape, states[k-1], states[k-1+1]);
      var p :| Carried(shape, states[k-1], states[k], p);
      CarriedFlat(shape, states[k-1], states[k], p);
    }
  }

  /** It stops exactly after the last position. */
  lemma EnumerationStops(shape: seq<nat>, states: seq<seq<nat>>)
    requires Positive(shape) && Reached(shape, states)
    ensures |states| <= Product(shape)
    ensures |states[|states|-1]| == |shape|
    ensures IsLast(shape, states[|states|-1]) <==> |states| == Product(shape)
  {
    var n := |states| - 1;
    EnumerationCounts(shape, states, n);
    FlatBound(shape, states[n]);
    LastIffFlat(shape, states[n]);
  }

  // ---------------------------------------------------------------- broadcasting

  ghost predicate AcceptsAt(shape: seq<nat>, index: seq<nat>, k: nat)
    requires k < |shape| <= |index|
  {
    index[|index| - |shape| + k] < shape[k] || shape[k] == 1
  }

  ghost predicate Accepts(shape: seq<nat>, index: seq<nat>) {
    |index| >= |shape| && forall k :: 0 <= k < |shape| ==> AcceptsAt(shape, index, k)
  }

  /** The suffix of an index, with zero where the axis has size one. */
  ghost function Clipped(shape: seq<nat>, index: seq<nat>): (r: seq<nat>)
    requires |index| >= |shape|
    ensures |r| == |shape|
  {
    seq(|shape|, k requires 0 <= k < |shape| => if shape[k] == 1 then 0 else index[|index| - |shape| + k])
  }

  lemma ClippedValid(shape: seq<nat>, index: seq<nat>)
    requires Accepts(shape, index)
    ensures ValidIndex(shape, Clipped(shape, index))
  {
    forall k | 0 <= k < |shape| ensures Clipped(shape, index)[k] < shape[k] {
      assert AcceptsAt(shape, index, k);
    }
  }

  /** Size of the `i`-th axis from the end; one behind the first axis. */
  function FromEnd(shape: seq<nat>, i: nat): nat {
    if 1 <= i <= |shape| then shape[|shape| - i] else 1
  }

  predicate Compatible(a: nat, b: nat) {
    a == b || a == 1 || b == 1
  }

  ghost predicate IsBroadcast(in1: seq<nat>, in2: seq<nat>, out: seq<nat>) {
    && |out| == (if |in1| >= |in2| then |in1| else |in2|)
    && forall i :: 1 <= i <= |out| ==>
         && Compatible(FromEnd(in1, i), FromEnd(in2, i))
         && FromEnd(out, i) == Joined(FromEnd(in1, i), FromEnd(in2, i))
  }

  ghost predicate CanBroadcast(in1: seq<nat>, in2: seq<nat>) {
    forall i :: 1 <= i <= |in1| || 1 <= i <= |in2| ==> Compatible(FromEnd(in1, i), FromEnd(in2, i))
  }

  /** The axes of a shape, counted from the end, are those of the other one or have size one. */
  ghost predicate Stretches(shape: seq<nat>, out: seq<nat>) {
    |shape| <= |out| && forall k :: 0 <= k < |shape| ==> shape[k] == out[|out| - |shape| + k] || shape[k] == 1
  }

  /** Two shapes can be broadcast if and only if there is a shape that both stretch to. */
  lemma BroadcastIffCommon(in1: seq<nat>, in2: seq<nat>)
    ensures CanBroadcast(in1, in2) <==> exists out :: Stretches(in1, out) && Stretches(in2, out)
  {
    hide Stretches, CanBroadcast, IsBroadcast;
    if CanBroadcast(in1, in2) {
      var out := BroadcastExists(in1, in2);
      BroadcastStretches(in1, in2, out);
    }
    if out :| Stretches(in1, out) && Stretches(in2, out) { CommonCompatible(in1, in2, out); }
  }

  /** Size of an axis of the broadcast shape, from the sizes in the inputs. */
  ghost function Joined(a: nat, b: nat): nat {
    if a == 1 then b else a
  }

  ghost function JoinedShape(in1: seq<nat>, in2: seq<nat>, n: nat): (r: seq<nat>)
    ensures |r| == n
  {
    if n == 0 then [] else [Joined(FromEnd(in1, n), FromEnd(in2, n))] + JoinedShape(in1, in2, n - 1)
  }

  lemma {:induction false} JoinedAt(in1: seq<nat>, in2: seq<nat>, n: nat, i: nat)
    requires 1 <= i <= n
    ensures FromEnd(JoinedShape(in1, in2, n), i) == Joined(FromEnd(in1, i), FromEnd(in2, i))
  {
    if i < n { JoinedAt(in1, in2, n - 1, i); }
  }

  lemma BroadcastExists(in1: seq<nat>, in2: seq<nat>) returns (out: seq<nat>)
    requires CanBroadcast(in1, in2)
    ensures IsBroadcast(in1, in2, out)
  {
    hide Compatible, Joined, JoinedShape, FromEnd;
    var n := if |in1| >= |in2| then |in1| else |in2|;
    out := JoinedShape(in1, in2, n);
    forall i | 1 <= i <= n ensures FromEnd(out, i) == Joined(FromEnd(in1, i), FromEnd(in2, i)) {
      JoinedAt(in1, in2, n, i);
    }
  }

  lemma CommonCompatible(in1: seq<nat>, in2: seq<nat>, out: seq<nat>)
    requires Stretches(in1, out) && Stretches(in2, out)
    ensures CanBroadcast(in1, in2)
  {
    forall i | 1 <= i <= |in1| || 1 <= i <= |in2| ensures Compatible(FromEnd(in1, i), FromEnd(in2, i)) {
      if i <= |in1| { assert in1[|in1| - i] == out[|out| - i] || in1[|in1| - i] == 1; }
      if i <= |in2| { assert in2[|in2| - i] == out[|out| - i] || in2[|in2| - i] == 1; }
    }
  }

  /** The broadcast shape is the common one, and no smaller one is. */
  lemma BroadcastStretches(in1: seq<nat>, in2: seq<nat>, out: seq<nat>)
    requires IsBroadcast(in1, in2, out)
    ensures Stretches(in1, out) && Stretches(in2, out)
    ensures forall other :: Stretches(in1, other) && Stretches(in2, other) ==> Stretches(out, other)
  {
    forall k | 0 <= k < |in1| ensures in1[k] == out[|out| - |in1| + k] || in1[k] == 1 {
      assert FromEnd(in1, |in1| - k) == in1[k] && FromEnd(out, |in1| - k) == out[|out| - |in1| + k];
    }
    forall k | 0 <= k < |in2| ensures in2[k] == out[|out| - |in2| + k] || in2[k] == 1 {
      assert FromEnd(in2, |in2| - k) == in2[k] && FromEnd(out, |in2| - k) == out[|out| - |in2| + k];
    }
    forall other, k | Stretches(in1, other) && Stretches(in2, other) && 0 <= k < |out|
      ensures out[k] == other[|other| - |out| + k] || out[k] == 1
    {
      var i := |out| - k;
      assert FromEnd(out, i) == out[k];
      if i <= |in1| { assert in1[|in1| - i] == other[|other| - i] || in1[|in1| - i] == 1; }
      if i <= |in2| { assert in2[|in2| - i] == other[|other| - i] || in2[|in2| - i] == 1; }
    }
  }

  method CalculateBroadcastedShape(shape1: Shape, shape2: Shape) returns (ok: bool, out: seq<nat>)
    ensures ok <==> shape1.ty == shape2.ty && CanBroadcast(shape1.dimensions, shape2.dimensions)
    ensures ok ==> IsBroadcast(shape1.dimensions, shape2.dimensions, out)
  {
    if shape1.ty != shape2.ty { return false, []; }
    var in1, in2 := shape1.dimensions, shape2.dimensions;
    var maxDims := if |in1| >= |in2| then |in1| else |in2|;
    out := seq(maxDims, i => 0);
    for i := 1 to maxDims + 1
      invariant |out| == maxDims
      invariant forall k :: 1 <= k < i ==>
                  && Compatible(FromEnd(in1, k), FromEnd(in2, k))
                  && FromEnd(out, k) == if FromEnd(in1, k) == 1 then FromEnd(in2, k) else FromEnd(in1, k)
    {
      var dim1, dim2 := FromEnd(in1, i), FromEnd(in2, i);
      if dim1 != dim2 && dim1 != 1 && dim2 != 1 {
        assert !Compatible(FromEnd(in1, i), FromEnd(in2, i));
        return false, out;
      }
      out := out[maxDims - i := if dim1 == 1 then dim2 else dim1];
    }
    ok := true;
  }

  /** Success and result do not depend on the order of the inputs. */
  lemma BroadcastSymmetric(in1: seq<nat>, in2: seq<nat>, out: seq<nat>)
    ensures CanBroadcast(in1, in2) <==> CanBroadcast(in2, in1)
    ensures IsBroadcast(in1, in2, out) <==> IsBroadcast(in2, in1, out)
  {
  }

  lemma BroadcastUnique(in1: seq<nat>, in2: seq<nat>, out: seq<nat>, other: seq<nat>)
    requires IsBroadcast(in1, in2, out) && IsBroadcast(in1, in2, other)
    ensures out == other
  {
    forall k | 0 <= k < |out| ensures out[k] == other[k] {
      assert FromEnd(out, |out| - k) == FromEnd(other, |out| - k);
    }
  }

  /** Every index of the broadcast shape is accepted by both inputs. */
  lemma BroadcastAccepted(in1: seq<nat>, in2: seq<nat>, out: seq<nat>, index: seq<nat>)
    requires IsBroadcast(in1, in2, out) && ValidIndex(out, index)
    ensures Accepts(in1, index) && Accepts(in2, index)
  {
    forall k | 0 <= k < |in1| ensures AcceptsAt(in1, index, k) {
      var i := |in1| - k;
      assert FromEnd(out, i) == out[|out| - i] && FromEnd(in1, i) == in1[k];
    }
    forall k | 0 <= k < |in2| ensures AcceptsAt(in2, index, k) {
      var i := |in2| - k;
      assert FromEnd(out, i) == out[|out| - i] && FromEnd(in2, i) == in2[k];
    }
  }
}
