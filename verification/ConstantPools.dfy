/** Where the bytes of constants are kept: small values in a growing vector, large ones in shared memory.
  *
  * Offsets and the sizes of both pools are 32-bit numbers, and neither place checks that they fit.
  */
module ConstantPools {
  import opened Sequences
  import opened Models
  import opened ModelBuilding
  import opened Layout

  function Lengths(values: seq<Bytes>): (r: seq<nat>)
    ensures |r| == |values|
  {
    seq(|values|, i requires 0 <= i < |values| => |values[i]|)
  }

  /** The bytes at a location are the given value. */
  ghost predicate Holds(pool: Bytes, offset: nat, value: Bytes) {
    offset + |value| <= |pool| && pool[offset..offset + |value|] == value
  }

  // ---------------------------------------------------------------- small values

  /** Contents of a vector after `resize`: cut off, or filled up with zeros. */
  function Resized(bytes: Bytes, size: nat): (r: Bytes)
    ensures |r| == size
  {
    seq(size, i requires 0 <= i < size => if i < |bytes| then bytes[i] else 0)
  }

  /** The pool after one more small value. */
  function WithSmall(pool: Bytes, value: Bytes): (r: Bytes)
    ensures |r| == Place(|pool|, |value|) + |value|
  {
    Resized(pool, Place(|pool|, |value|)) + value
  }

  /** Whether the pool stays below 4 GiB with one more value. */
  predicate Fits(size: nat, length: nat) {
    Place(size, length) + length < UINT32_LIMIT
  }

  /** The copy lies within the vector, which was resized to a 32-bit sum. */
  predicate CopyStaysInside(size: nat, length: nat) {
    Place(size, length) % UINT32_LIMIT + length <= (Place(size, length) + length) % UINT32_LIMIT
  }

  lemma WrapOnce(a: nat)
    requires UINT32_LIMIT <= a < 2 * UINT32_LIMIT
    ensures a % UINT32_LIMIT == a - UINT32_LIMIT
  {
  }

  /** Beyond 4 GiB the copy leaves the vector, unless the offset wraps around to zero itself. */
  lemma StaysInside(size: nat, length: nat)
    requires size < UINT32_LIMIT && length <= MAX_SIZE_OF_IMMEDIATELY_COPIED_VALUES
    ensures CopyStaysInside(size, length) <==> Fits(size, length) || Place(size, length) == UINT32_LIMIT
  {
    var offset := Place(size, length);
    PlaceStops(size, length);
    if offset < UINT32_LIMIT { WrapSmall(offset); } else { WrapOnce(offset); }
    if offset + length < UINT32_LIMIT { WrapSmall(offset + length); } else { WrapOnce(offset + length); }
  }

  class SmallOperandValues {
    var bytes: Bytes

    constructor ()
      ensures bytes == []
    {
      bytes := [];
    }

    /** Appends a value at the next offset that is aligned for it. The values set before are kept exactly
      * when the pool stays below 4 GiB. */
    method Add(buffer: Bytes) returns (offset: nat)
      requires |buffer| <= MAX_SIZE_OF_IMMEDIATELY_COPIED_VALUES
      requires |bytes| < UINT32_LIMIT && CopyStaysInside(|bytes|, |buffer|)
      modifies this
      ensures Holds(bytes, offset, buffer) && |bytes| < UINT32_LIMIT
      ensures Fits(|old(bytes)|, |buffer|) ==>
                bytes == WithSmall(old(bytes), buffer) && offset == Place(|old(bytes)|, |buffer|)
      ensures Fits(|old(bytes)|, |buffer|) <==> old(bytes) <= bytes
    {
      var existingSize := |bytes| % UINT32_LIMIT;
      WrapSmall(|bytes|);
      var extraBytes := AlignBytesNeeded(existingSize, |buffer|);
      AlignBytesIsPadding(|bytes|, |buffer|);
      StaysInside(|bytes|, |buffer|);
      var size := (existingSize + extraBytes + |buffer|) % UINT32_LIMIT;
      offset := (existingSize + extraBytes) % UINT32_LIMIT;
      ghost var place := Place(|bytes|, |buffer|);
      if Fits(|bytes|, |buffer|) {
        WrapSmall(place);
        WrapSmall(place + |buffer|);
      } else {
        WrapOnce(place);
        WrapOnce(place + |buffer|);
      }
      var resized := Resized(bytes, size);
      bytes := resized[..offset] + buffer + resized[offset + |buffer|..];
    }
  }

  /** The pool of small values that were set one after the other. */
  function SmallPool(values: seq<Bytes>): Bytes {
    if values == [] then [] else WithSmall(SmallPool(values[..|values|-1]), values[|values|-1])
  }

  lemma LengthsAppend(values: seq<Bytes>, n: nat)
    requires n < |values|
    ensures Lengths(values[..n+1]) == Lengths(values[..n]) + [|values[n]|]
    ensures Lengths(values)[..n] == Lengths(values[..n])
  {
  }

  lemma WithSmallHolds(pool: Bytes, value: Bytes)
    ensures pool <= WithSmall(pool, value) && Holds(WithSmall(pool, value), Place(|pool|, |value|), value)
  {
  }

  lemma HoldsLonger(pool: Bytes, longer: Bytes, offset: nat, value: Bytes)
    requires Holds(pool, offset, value) && pool <= longer
    ensures Holds(longer, offset, value)
  {
    assert longer[offset..offset + |value|] == pool[offset..offset + |value|];
  }

  /** Every value can be read back from its location. */
  lemma {:induction false} SmallValuesReadBack(values: seq<Bytes>, i: nat)
    requires i < |values|
    ensures Holds(SmallPool(values), OffsetAt(Lengths(values), i), values[i])
    ensures Aligned(OffsetAt(Lengths(values), i), |values[i]|)
  {
    var n := |values| - 1;
    OffsetAligned(Lengths(values), i);
    LengthsAppend(values, n);
    var before := SmallPool(values[..n]);
    WithSmallHolds(before, values[n]);
    if i < n {
      SmallValuesReadBack(values[..n], i);
      assert Lengths(values[..n])[..i] == Lengths(values)[..i];
      HoldsLonger(before, SmallPool(values), OffsetAt(Lengths(values[..n]), i), values[i]);
    } else {
      SmallPoolSize(values[..n]);
    }
  }

  lemma {:induction false} SmallPoolSize(values: seq<Bytes>)
    ensures |SmallPool(values)| == Total(Lengths(values))
  {
    if values != [] {
      var n := |values| - 1;
      SmallPoolSize(values[..n]);
      LengthsAppend(values, n);
      assert values[..n+1] == values;
    }
  }

  // ---------------------------------------------------------------- large values

  /** One round of laying out large values. */
  lemma LaidOutNext(sizes: seq<nat>, length: nat)
    ensures Total(sizes) + AlignBytesNeeded(Total(sizes) % UINT32_LIMIT, length) == Place(Total(sizes), length)
    ensures Total(sizes + [length]) == Place(Total(sizes), length) + length
    ensures WrappedOffsets(sizes + [length]) == WrappedOffsets(sizes) + [Place(Total(sizes), length) % UINT32_LIMIT]
  {
    AlignBytesIsPadding(Total(sizes), length);
    TotalAppend(sizes, length);
    WrappedAppend(sizes, length);
  }

  /** Offsets are counted in `size_t` and truncated as they are assigned. */
  method LayOutLargeValues(values: seq<Bytes>) returns (offsets: seq<nat>, poolSize: nat)
    ensures offsets == WrappedOffsets(Lengths(values)) && poolSize == Total(Lengths(values))
  {
    offsets, poolSize := [], 0;
    ghost var sizes: seq<nat> := [];
    for i := 0 to |values|
      invariant |sizes| == i && forall k :: 0 <= k < i ==> sizes[k] == |values[k]|
      invariant offsets == WrappedOffsets(sizes) && poolSize == Total(sizes)
    {
      LaidOutNext(sizes, |values[i]|);
      sizes := sizes + [|values[i]|];
      poolSize := poolSize + AlignBytesNeeded(poolSize % UINT32_LIMIT, |values[i]|);
      offsets := offsets + [poolSize % UINT32_LIMIT];
      poolSize := poolSize + |values[i]|;
    }
    assert sizes == Lengths(values);
  }

  /** Copies one buffer into the mapped memory. */
  method CopyBytes(memory: array<bv8>, offset: nat, value: Bytes)
    requires offset + |value| <= memory.Length
    modifies memory
    ensures memory[offset..offset + |value|] == value
    ensures memory[..offset] == old(memory[..offset])
    ensures memory[offset + |value|..] == old(memory[offset + |value|..])
  {
    for k := 0 to |value|
      invariant memory[offset..offset + k] == value[..k]
      invariant memory[..offset] == old(memory[..offset])
      invariant memory[offset + k..] == old(memory[offset + k..])
    {
      memory[offset + k] := value[k];
      assert memory[offset..offset + k + 1] == memory[offset..offset + k] + [value[k]];
    }
  }

  /** Copies every buffer to its offset; the copies do not disturb each other when the layout is sound. */
  method CopyLargeValues(values: seq<Bytes>, offsets: seq<nat>, memory: array<bv8>)
    requires |offsets| == |values| && Sound(Lengths(values), offsets, memory.Length)
    modifies memory
    ensures forall i :: 0 <= i < |values| ==> Holds(memory[..], offsets[i], values[i])
  {
    for i := 0 to |values|
      invariant forall k :: 0 <= k < i ==> Holds(memory[..], offsets[k], values[k])
    {
      ghost var before := memory[..];
      CopyBytes(memory, offsets[i], values[i]);
      forall k | 0 <= k < i ensures Holds(memory[..], offsets[k], values[k]) {
        ApartKept(before, memory[..], offsets[i], values[i], offsets[k], values[k]);
      }
    }
  }

  /** A copy leaves alone what lies apart from it. */
  lemma ApartKept(before: Bytes, after: Bytes, offset: nat, value: Bytes, other: nat, held: Bytes)
    requires |after| == |before| && offset + |value| <= |before|
    requires after[..offset] == before[..offset] && after[offset + |value|..] == before[offset + |value|..]
    requires Apart(other, |held|, offset, |value|) && Holds(before, other, held)
    ensures Holds(after, other, held)
  {
    forall i | other <= i < other + |held| ensures after[i] == before[i] {
      if i < offset {
        assert after[..offset][i] == before[..offset][i];
      } else {
        assert after[offset + |value|..][i - offset - |value|] == before[offset + |value|..][i - offset - |value|];
      }
    }
    assert after[other..other + |held|] == before[other..other + |held|];
  }

  /** The memory that is allocated has a 32-bit size. Nothing checks that the total fits into it; the
    * copies stay inside the memory and apart from each other exactly when it does. */
  lemma CopiesAreSafeIffFits(values: seq<Bytes>)
    ensures Sound(Lengths(values), WrappedOffsets(Lengths(values)), Total(Lengths(values)) % UINT32_LIMIT) <==>
            Total(Lengths(values)) < UINT32_LIMIT
  {
    SoundIffFits(Lengths(values));
  }

  /** Lays out the large values, allocates the memory and copies them. */
  method CopyLargeValuesToSharedMemory(values: seq<Bytes>) returns (offsets: seq<nat>, memory: array<bv8>)
    requires Sound(Lengths(values), WrappedOffsets(Lengths(values)), Total(Lengths(values)) % UINT32_LIMIT)
    ensures fresh(memory) && |offsets| == |values|
    ensures forall i :: 0 <= i < |values| ==>
              Holds(memory[..], offsets[i], values[i]) && Aligned(offsets[i], |values[i]|)
  {
    var poolSize;
    offsets, poolSize := LayOutLargeValues(values);
    memory := new bv8[poolSize % UINT32_LIMIT](i => 0);
    CopyLargeValues(values, offsets, memory);
  }
}
