/** How many bytes the values of a type have: the 32-bit arithmetic of the runtime against plain products. */
module Sizes {
  import opened Sequences
  import opened Models
  import opened ModelBuilding
  import opened IndexedShapes

  lemma {:induction false} ProductLast(dimensions: seq<nat>)
    requires dimensions != []
    ensures Product(dimensions) == Product(dimensions[..|dimensions|-1]) * dimensions[|dimensions|-1]
  {
    var n := |dimensions| - 1;
    TimesIs(dimensions[0], Product(dimensions[1..]));
    if n == 0 {
      assert dimensions[..0] == [] && dimensions[1..] == [];
    } else {
      var init := dimensions[..n];
      ProductLast(dimensions[1..]);
      assert dimensions[1..][..n-1] == init[1..] && dimensions[1..][n-1] == dimensions[n];
      TimesIs(init[0], Product(init[1..]));
      ThreeFactors(dimensions[0], Product(init[1..]), dimensions[n]);
    }
  }

  lemma ThreeFactors(a: nat, b: nat, c: nat)
    ensures a * (b * c) == (a * b) * c
  {
  }

  /** Truncating a factor first makes no difference. */
  lemma TruncatedFactor(a: nat, b: nat)
    ensures (a % UINT32_LIMIT) * b % UINT32_LIMIT == a * b % UINT32_LIMIT
  {
    var q, r := a / UINT32_LIMIT, a % UINT32_LIMIT;
    assert a == UINT32_LIMIT * q + r;
    assert a * b == (UINT32_LIMIT * q) * b + r * b;
    ThreeFactors(UINT32_LIMIT, q, b);
    Multiples(r * b, q * b);
  }

  lemma {:induction false} Multiples(a: nat, n: nat)
    ensures (UINT32_LIMIT * n + a) % UINT32_LIMIT == a % UINT32_LIMIT
  {
    if n > 0 {
      Multiples(a, n - 1);
      var before := UINT32_LIMIT * (n - 1) + a;
      assert UINT32_LIMIT * n + a == before + UINT32_LIMIT;
      assert (before + UINT32_LIMIT) % UINT32_LIMIT == before % UINT32_LIMIT;
    }
  }

  /** The wrapping product is the product, wrapped once. */
  lemma {:induction false} TimesDimensionsIs(size: nat, dimensions: seq<nat>)
    ensures TimesDimensions(size, dimensions) == size * Product(dimensions) % UINT32_LIMIT
  {
    if dimensions != [] {
      var init, last := dimensions[..|dimensions|-1], dimensions[|dimensions|-1];
      TimesDimensionsIs(size, init);
      TruncatedFactor(size * Product(init), last);
      ProductLast(dimensions);
      ThreeFactors(size, Product(init), last);
    }
  }

  /** The size of a scalar is that of its type, a tensor without a rank has none, and that of any other
    * tensor is the size of an element times all dimensions, truncated to 32 bits. */
  lemma SizeIsByteCount(ty: OperandType)
    ensures ty.isScalar ==> SizeOfData(ty) == ty.elementSize % UINT32_LIMIT
    ensures !ty.isScalar && ty.dimensions == [] ==> SizeOfData(ty) == 0
    ensures !ty.isScalar && ty.dimensions != [] ==>
              SizeOfData(ty) == ty.elementSize * Product(ty.dimensions) % UINT32_LIMIT
  {
    TimesDimensionsIs(ty.elementSize, ty.dimensions);
  }

  /** It is the exact number of bytes if and only if that number fits into 32 bits. */
  lemma SizeExactIff(ty: OperandType)
    requires !ty.isScalar && ty.dimensions != []
    ensures SizeOfData(ty) == ty.elementSize * Product(ty.dimensions) <==>
            ty.elementSize * Product(ty.dimensions) < UINT32_LIMIT
  {
    SizeIsByteCount(ty);
  }

  /** A product is zero exactly if one of its factors is. */
  lemma {:induction false} ZeroFactor(dimensions: seq<nat>)
    ensures Product(dimensions) == 0 <==> exists i :: 0 <= i < |dimensions| && dimensions[i] == 0
  {
    if dimensions != [] {
      var rest := dimensions[1..];
      ZeroFactor(rest);
      TimesIs(dimensions[0], Product(rest));
      if i :| 0 <= i < |rest| && rest[i] == 0 { assert dimensions[i + 1] == 0; }
      if i :| 0 <= i < |dimensions| && dimensions[i] == 0 {
        if i > 0 { assert rest[i - 1] == 0; }
      }
      if dimensions[0] > 0 && Product(rest) > 0 { PositiveFactors(dimensions[0], Product(rest)); }
    }
  }

  lemma PositiveFactors(a: nat, b: nat)
    requires a > 0 && b > 0
    ensures a * b > 0
  {
  }

  /** A size is only known at run time exactly if there is no rank or one of the dimensions, whichever it
    * is, is not specified. */
  lemma UnknownSizeIff(ty: OperandType)
    ensures HasUnknownSize(ty) <==> ty.dimensions == [] || exists i :: 0 <= i < |ty.dimensions| && ty.dimensions[i] == 0
    ensures HasUnknownSize(ty) <==> ty.dimensions == [] || Product(ty.dimensions) == 0
  {
    ZeroFactor(ty.dimensions);
  }

  /** Types that a constant may have: scalars, and tensors all of whose dimensions are positive. */
  lemma SizedIff(ty: OperandType)
    ensures Sized(ty) <==> ty.isScalar || (ty.dimensions != [] && Positive(ty.dimensions))
  {
    UnknownSizeIff(ty);
  }

  /** A tensor of floats with two rows of three elements takes 24 bytes. */
  lemma FloatMatrix()
    ensures SizeOfData(OperandType(3, false, 4, [2, 3], 0.0, 0, [])) == 24
  {
    assert [2, 3][..1] == [2] && [2][..0] == [];
    assert TimesDimensions(4, [2]) == 8;
  }
}
