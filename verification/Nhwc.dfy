/** Converting between the layouts NCHW and NHWC. */
module Nhwc {
  import opened IndexedShapes

  /** Position of element (i, j, k) when the last two axes have sizes `b` and `c`. */
  function At(b: nat, c: nat, i: nat, j: nat, k: nat): nat {
    Times(Times(i, b) + j, c) + k
  }

  lemma AtBound(a: nat, b: nat, c: nat, i: nat, j: nat, k: nat)
    requires i < a && j < b && k < c
    ensures At(b, c, i, j, k) < Times(Times(a, b), c)
  {
    TimesLess(i, a, b);
    TimesLess(Times(i, b) + j, Times(a, b), c);
  }

  lemma AtInjective(b: nat, c: nat, i: nat, j: nat, k: nat, x: nat, y: nat, z: nat)
    requires j < b && k < c && y < b && z < c && At(b, c, i, j, k) == At(b, c, x, y, z)
    ensures i == x && j == y && k == z
  {
    SameDigits(c, Times(i, b) + j, k, Times(x, b) + y, z);
    SameDigits(b, i, j, x, y);
  }

  lemma {:induction false} Digits(a: nat, p: nat, position: nat) returns (digit: nat, rest: nat)
    requires position < Times(a, p)
    ensures digit < a && rest < p && position == Times(digit, p) + rest
  {
    if position >= Times(a - 1, p) {
      digit, rest := a - 1, position - Times(a - 1, p);
    } else {
      digit, rest := Digits(a - 1, p, position);
    }
  }

  /** Every position is that of some element. */
  lemma AtSurjective(a: nat, b: nat, c: nat, position: nat) returns (i: nat, j: nat, k: nat)
    requires position < Times(Times(a, b), c)
    ensures i < a && j < b && k < c && position == At(b, c, i, j, k)
  {
    var ij;
    ij, k := Digits(Times(a, b), c, position);
    i, j := Digits(a, b, ij);
  }

  /** Batches, channels and spatial positions of a four-dimensional tensor. */
  datatype Dims = Dims(n: nat, c: nat, s: nat)

  function Size(d: Dims): nat {
    Times(Times(d.n, d.c), d.s)
  }

  lemma {:induction false} TimesCommutes(n: nat, a: nat, b: nat)
    ensures Times(Times(n, a), b) == Times(Times(n, b), a)
  {
    TimesIs(n, a);
    TimesIs(n, b);
    TimesIs(n * a, b);
    TimesIs(n * b, a);
    Associative(n, a, b);
    Associative(n, b, a);
  }

  lemma Associative(x: nat, y: nat, z: nat)
    ensures (x * y) * z == x * (y * z)
  {
  }

  /** The same tensor in both layouts: element (n, c, hw) of the one is element (n, hw, c) of the other. */
  ghost predicate SameTensor<T>(d: Dims, nchw: seq<T>, nhwc: seq<T>) {
    && |nchw| == |nhwc| == Size(d)
    && forall n, c, hw :: 0 <= n < d.n && 0 <= c < d.c && 0 <= hw < d.s ==> Matches(d, nchw, nhwc, n, c, hw)
  }

  ghost predicate Matches<T>(d: Dims, nchw: seq<T>, nhwc: seq<T>, n: nat, c: nat, hw: nat) {
    && At(d.c, d.s, n, c, hw) < |nchw| && At(d.s, d.c, n, hw, c) < |nhwc|
    && nhwc[At(d.s, d.c, n, hw, c)] == nchw[At(d.c, d.s, n, c, hw)]
  }

  /** Each layout determines the other, so the conversions are mutual inverses. */
  lemma LayoutsDetermineEachOther<T>(d: Dims, nchw: seq<T>, nhwc: seq<T>, nchw': seq<T>, nhwc': seq<T>)
    requires SameTensor(d, nchw, nhwc) && SameTensor(d, nchw', nhwc')
    ensures nchw == nchw' <==> nhwc == nhwc'
  {
    TimesCommutes(d.n, d.c, d.s);
    if nhwc == nhwc' {
      forall p | 0 <= p < |nchw| ensures nchw[p] == nchw'[p] {
        var n, c, hw := AtSurjective(d.n, d.c, d.s, p);
        assert Matches(d, nchw, nhwc, n, c, hw) && Matches(d, nchw', nhwc', n, c, hw);
      }
    }
    if nchw == nchw' {
      forall p | 0 <= p < |nhwc| ensures nhwc[p] == nhwc'[p] {
        var n, hw, c := AtSurjective(d.n, d.s, d.c, p);
        assert Matches(d, nchw, nhwc, n, c, hw) && Matches(d, nchw', nhwc', n, c, hw);
      }
    }
  }

  /** Elements whose position in the output is before `to` have been written. */
  ghost predicate WrittenNhwc<T>(d: Dims, from: seq<T>, out: seq<T>, to: nat) {
    forall n, c, hw :: 0 <= n < d.n && 0 <= c < d.c && 0 <= hw < d.s && At(d.s, d.c, n, hw, c) < to ==>
      Matches(d, from, out, n, c, hw)
  }

  lemma WriteNhwc<T>(d: Dims, from: seq<T>, out: seq<T>, n: nat, c: nat, hw: nat)
    requires |from| == |out| == Size(d) && n < d.n && c < d.c && hw < d.s
    requires WrittenNhwc(d, from, out, At(d.s, d.c, n, hw, c))
    ensures At(d.c, d.s, n, c, hw) < |from| && At(d.s, d.c, n, hw, c) < |out|
    ensures WrittenNhwc(d, from, out[At(d.s, d.c, n, hw, c) := from[At(d.c, d.s, n, c, hw)]],
                        At(d.s, d.c, n, hw, c) + 1)
  {
    TimesCommutes(d.n, d.c, d.s);
    AtBound(d.n, d.c, d.s, n, c, hw);
    AtBound(d.n, d.s, d.c, n, hw, c);
    var p := At(d.s, d.c, n, hw, c);
    var after := out[p := from[At(d.c, d.s, n, c, hw)]];
    forall x, y, z | 0 <= x < d.n && 0 <= y < d.c && 0 <= z < d.s && At(d.s, d.c, x, z, y) < p + 1
      ensures Matches(d, from, after, x, y, z)
    {
      if At(d.s, d.c, x, z, y) == p {
        AtInjective(d.s, d.c, x, z, y, n, hw, c);
      } else {
        assert Matches(d, from, out, x, y, z);
      }
    }
  }

  /** Position of an element in the form the program computes it. */
  lemma FromIndex(b: nat, c: nat, i: nat, j: nat, k: nat)
    ensures At(b, c, i, j, k) == i * b * c + j * c + k
  {
    TimesIs(i, b);
    TimesIs(i * b + j, c);
    assert (i * b + j) * c == i * b * c + j * c;
  }

  /** Innermost statement of the loop nests. */
  method CopyElement<T>(to: array<T>, next: nat, from: seq<T>, b: nat, c: nat, i: nat, j: nat, k: nat)
    requires next < to.Length && At(b, c, i, j, k) < |from|
    modifies to
    ensures to[..] == old(to[..])[next := from[At(b, c, i, j, k)]]
  {
    FromIndex(b, c, i, j, k);
    var fromIndex := i * b * c + j * c + k;
    to[next] := from[fromIndex];
  }

  /** Writes every position once, in order. */
  method ConvertToNhwc<T>(to: array<T>, from: seq<T>, d: Dims)
    requires to.Length == |from| == Size(d)
    modifies to
    ensures SameTensor(d, from, to[..])
  {
    var next := 0;
    TimesCommutes(d.n, d.c, d.s);
    for n := 0 to d.n
      invariant next == At(d.s, d.c, n, 0, 0) && WrittenNhwc(d, from, to[..], next)
    {
      for hw := 0 to d.s
        invariant next == At(d.s, d.c, n, hw, 0) && WrittenNhwc(d, from, to[..], next)
      {
        for c := 0 to d.c
          invariant next == At(d.s, d.c, n, hw, c) && WrittenNhwc(d, from, to[..], next)
        {
          WriteNhwc(d, from, to[..], n, c, hw);
          CopyElement(to, next, from, d.c, d.s, n, c, hw);
          next := next + 1;
        }
      }
    }
    forall n, c, hw | 0 <= n < d.n && 0 <= c < d.c && 0 <= hw < d.s ensures Matches(d, from, to[..], n, c, hw) {
      AtBound(d.n, d.s, d.c, n, hw, c);
    }
  }

  ghost predicate WrittenNchw<T>(d: Dims, from: seq<T>, out: seq<T>, to: nat) {
    forall n, c, hw :: 0 <= n < d.n && 0 <= c < d.c && 0 <= hw < d.s && At(d.c, d.s, n, c, hw) < to ==>
      Matches(d, out, from, n, c, hw)
  }

  lemma WriteNchw<T>(d: Dims, from: seq<T>, out: seq<T>, n: nat, c: nat, hw: nat)
    requires |from| == |out| == Size(d) && n < d.n && c < d.c && hw < d.s
    requires WrittenNchw(d, from, out, At(d.c, d.s, n, c, hw))
    ensures At(d.c, d.s, n, c, hw) < |out| && At(d.s, d.c, n, hw, c) < |from|
    ensures WrittenNchw(d, from, out[At(d.c, d.s, n, c, hw) := from[At(d.s, d.c, n, hw, c)]],
                        At(d.c, d.s, n, c, hw) + 1)
  {
    TimesCommutes(d.n, d.c, d.s);
    AtBound(d.n, d.c, d.s, n, c, hw);
    AtBound(d.n, d.s, d.c, n, hw, c);
    var p := At(d.c, d.s, n, c, hw);
    var after := out[p := from[At(d.s, d.c, n, hw, c)]];
    forall x, y, z | 0 <= x < d.n && 0 <= y < d.c && 0 <= z < d.s && At(d.c, d.s, x, y, z) < p + 1
      ensures Matches(d, after, from, x, y, z)
    {
      if At(d.c, d.s, x, y, z) == p {
        AtInjective(d.c, d.s, x, y, z, n, c, hw);
      } else {
        assert Matches(d, out, from, x, y, z);
      }
    }
  }

  method ConvertFromNhwc<T>(to: array<T>, from: seq<T>, d: Dims)
    requires to.Length == |from| == Size(d)
    modifies to
    ensures SameTensor(d, to[..], from)
  {
    var next := 0;
    for n := 0 to d.n
      invariant next == At(d.c, d.s, n, 0, 0) && WrittenNchw(d, from, to[..], next)
    {
      for c := 0 to d.c
        invariant next == At(d.c, d.s, n, c, 0) && WrittenNchw(d, from, to[..], next)
      {
        for hw := 0 to d.s
          invariant next == At(d.c, d.s, n, c, hw) && WrittenNchw(d, from, to[..], next)
        {
          WriteNchw(d, from, to[..], n, c, hw);
          CopyElement(to, next, from, d.s, d.c, n, hw, c);
          next := next + 1;
        }
      }
    }
    forall n, c, hw | 0 <= n < d.n && 0 <= c < d.c && 0 <= hw < d.s ensures Matches(d, to[..], from, n, c, hw) {
      AtBound(d.n, d.c, d.s, n, c, hw);
    }
  }
}
