/** Placing values one after the other in one pool, each aligned for its length. */
module Layout {
  import opened Sequences
  import opened Models

  /** Values of two or three bytes start at even offsets, longer ones at multiples of four. */
  predicate Aligned(index: nat, length: nat) {
    length < 2 || (if length < 4 then index % 2 == 0 else index % 4 == 0)
  }

  /** Bitwise complement of a 32-bit word. */
  function Complement(x: nat): nat
    requires x < UINT32_LIMIT
  {
    UINT32_LIMIT - 1 - x
  }

  /** Padding in front of a value: `(~(index - 1)) & pattern` for the pattern 0, 1 or 3. The index is
    * truncated to 32 bits; masking with one less than a power of two leaves a remainder. */
  function AlignBytesNeeded(index: nat, length: nat): (extra: nat)
    ensures extra < 4
  {
    var word := Complement((index % UINT32_LIMIT - 1) % UINT32_LIMIT);
    if length < 2 then 0 else if length < 4 then word % 2 else word % 4
  }

  /** The least padding that reaches the boundary. */
  function Padding(index: nat, length: nat): (extra: nat)
    ensures extra < 4
  {
    if Aligned(index, length) then 0
    else if Aligned(index + 1, length) then 1
    else if Aligned(index + 2, length) then 2
    else 3
  }

  lemma PaddingLeast(index: nat, length: nat)
    ensures Aligned(index + Padding(index, length), length)
    ensures forall i: nat :: index <= i < index + Padding(index, length) ==> !Aligned(i, length)
  {
    Remainders(index);
  }

  lemma Remainder4(x: nat, a: int, r: nat)
    requires x == 4 * a + r && r < 4
    ensures x % 4 == r && x % 2 == r % 2
  {
    assert x / 4 == a;
    assert x == 2 * (2 * a + r / 2) + r % 2;
  }

  lemma Remainders(index: nat)
    ensures var r := index % 4;
            && (index % 2 == if r == 0 || r == 2 then 0 else 1)
            && (index + 1) % 4 == (if r == 3 then 0 else r + 1)
            && (index + 2) % 4 == (if r >= 2 then r - 2 else r + 2)
            && (index + 3) % 4 == (if r >= 1 then r - 1 else r + 3)
            && (index + 1) % 2 == (if r == 0 || r == 2 then 1 else 0)
  {
    var a, r := index / 4, index % 4;
    Remainder4(index, a, r);
    Remainder4(index + 1, if r == 3 then a + 1 else a, if r == 3 then 0 else r + 1);
    Remainder4(index + 2, if r >= 2 then a + 1 else a, if r >= 2 then r - 2 else r + 2);
    Remainder4(index + 3, if r >= 1 then a + 1 else a, if r >= 1 then r - 1 else r + 3);
  }

  /** The word arithmetic computes the least padding. */
  lemma AlignBytesIsPadding(index: nat, length: nat)
    ensures AlignBytesNeeded(index % UINT32_LIMIT, length) == AlignBytesNeeded(index, length) == Padding(index, length)
  {
    var k, q := index / UINT32_LIMIT, index % UINT32_LIMIT;
    assert index == UINT32_LIMIT * k + q;
    var a, r := q / 4, q % 4;
    Remainder4(index, 0x4000_0000 * k + a, r);
    Remainders(index);
    var word := if q == 0 then 0 else UINT32_LIMIT - q;
    assert Complement((q - 1) % UINT32_LIMIT) == word;
    if q == 0 {
    } else if r == 0 {
      Remainder4(word, 0x4000_0000 - a, 0);
    } else {
      Remainder4(word, 0x4000_0000 - a - 1, 4 - r);
    }
  }

  /** Where a value of the given length is put when the pool has grown to `total` bytes. */
  function Place(total: nat, length: nat): (offset: nat)
    ensures total <= offset < total + 4
  {
    total + Padding(total, length)
  }

  /** Bytes that the values take up, in unbounded arithmetic. */
  function Total(sizes: seq<nat>): nat {
    if sizes == [] then 0
    else Place(Total(sizes[..|sizes|-1]), sizes[|sizes|-1]) + sizes[|sizes|-1]
  }

  function OffsetAt(sizes: seq<nat>, i: nat): nat
    requires i < |sizes|
  {
    Place(Total(sizes[..i]), sizes[i])
  }

  lemma TotalAppend(sizes: seq<nat>, size: nat)
    ensures Total(sizes + [size]) == Place(Total(sizes), size) + size
    ensures forall i :: 0 <= i < |sizes| ==> OffsetAt(sizes + [size], i) == OffsetAt(sizes, i)
    ensures OffsetAt(sizes + [size], |sizes|) == Place(Total(sizes), size)
  {
    assert (sizes + [size])[..|sizes|] == sizes;
    assert forall i :: 0 <= i < |sizes| ==> (sizes + [size])[..i] == sizes[..i];
  }

  /** Values are placed in order, without overlap, inside the total. */
  lemma {:induction false} Increasing(sizes: seq<nat>, i: nat, n: nat)
    requires i < n <= |sizes|
    ensures OffsetAt(sizes, i) + sizes[i] <= Total(sizes[..n])
    ensures n < |sizes| ==> OffsetAt(sizes, i) + sizes[i] <= OffsetAt(sizes, n)
    decreases n
  {
    var shorter := sizes[..n-1];
    assert sizes[..n] == shorter + [sizes[n-1]];
    TotalAppend(shorter, sizes[n-1]);
    if i < n - 1 {
      Increasing(sizes, i, n - 1);
    }
  }

  lemma WrapSmall(a: nat)
    requires a < UINT32_LIMIT
    ensures a % UINT32_LIMIT == a
  {
  }

  lemma WrapPlus(a: nat, b: nat)
    ensures (a % UINT32_LIMIT + b) % UINT32_LIMIT == (a + b) % UINT32_LIMIT
  {
  }

  // ---------------------------------------------------------------- soundness

  ghost predicate Apart(a: nat, aSize: nat, b: nat, bSize: nat) {
    aSize == 0 || bSize == 0 || a + aSize <= b || b + bSize <= a
  }

  /** Nonempty values do not overlap and lie inside the pool; every value is aligned. */
  ghost predicate Sound(sizes: seq<nat>, offsets: seq<nat>, total: nat)
    requires |sizes| == |offsets|
  {
    && (forall i :: 0 <= i < |sizes| ==> offsets[i] + sizes[i] <= total && Aligned(offsets[i], sizes[i]))
    && (forall i, j :: 0 <= i < j < |sizes| ==> Apart(offsets[i], sizes[i], offsets[j], sizes[j]))
  }

  /** The offsets that 32-bit arithmetic computes. */
  function WrappedOffsets(sizes: seq<nat>): (offsets: seq<nat>)
    ensures |offsets| == |sizes|
  {
    seq(|sizes|, i requires 0 <= i < |sizes| => OffsetAt(sizes, i) % UINT32_LIMIT)
  }

  lemma InsideTotal(sizes: seq<nat>, i: nat)
    requires i < |sizes|
    ensures OffsetAt(sizes, i) + sizes[i] <= Total(sizes)
  {
    assert sizes[..|sizes|] == sizes;
    Increasing(sizes, i, |sizes|);
  }

  lemma OffsetAligned(sizes: seq<nat>, i: nat)
    requires i < |sizes|
    ensures Aligned(OffsetAt(sizes, i), sizes[i])
  {
    PaddingLeast(Total(sizes[..i]), sizes[i]);
  }

  lemma NotWrapped(sizes: seq<nat>, i: nat)
    requires Total(sizes) < UINT32_LIMIT && i < |sizes|
    ensures WrappedOffsets(sizes)[i] == OffsetAt(sizes, i)
    ensures OffsetAt(sizes, i) + sizes[i] <= Total(sizes)
    ensures Aligned(OffsetAt(sizes, i), sizes[i])
  {
    InsideTotal(sizes, i);
    OffsetAligned(sizes, i);
    WrapSmall(OffsetAt(sizes, i));
  }

  lemma SoundWithoutWrap(sizes: seq<nat>)
    requires Total(sizes) < UINT32_LIMIT
    ensures Sound(sizes, WrappedOffsets(sizes), Total(sizes))
  {
    var offsets := WrappedOffsets(sizes);
    forall i | 0 <= i < |sizes|
      ensures offsets[i] + sizes[i] <= Total(sizes) && Aligned(offsets[i], sizes[i])
    {
      NotWrapped(sizes, i);
    }
    forall i, j | 0 <= i < j < |sizes| ensures Apart(offsets[i], sizes[i], offsets[j], sizes[j]) {
      NotWrapped(sizes, i);
      NotWrapped(sizes, j);
      Increasing(sizes, i, j);
    }
  }

  /** Something that takes up space comes first. */
  lemma {:induction false} FirstOffset(sizes: seq<nat>) returns (f: nat)
    requires Total(sizes) > 0
    ensures f < |sizes| && OffsetAt(sizes, f) == 0 && sizes[f] > 0
  {
    var n := |sizes| - 1;
    assert sizes == sizes[..n] + [sizes[n]];
    TotalAppend(sizes[..n], sizes[n]);
    if Total(sizes[..n]) > 0 {
      f := FirstOffset(sizes[..n]);
    } else {
      f := n;
    }
  }

  /** The value at which the total first reaches 2^32. */
  lemma {:induction false} FirstWrap(sizes: seq<nat>) returns (k: nat)
    requires Total(sizes) >= UINT32_LIMIT
    ensures k < |sizes| && Total(sizes[..k]) < UINT32_LIMIT
    ensures OffsetAt(sizes, k) + sizes[k] >= UINT32_LIMIT
  {
    var n := |sizes| - 1;
    if Total(sizes[..n]) < UINT32_LIMIT {
      k := n;
    } else {
      k := FirstWrap(sizes[..n]);
      assert sizes[..n][..k] == sizes[..k];
    }
  }

  /** The padding never steps over 2^32, which every alignment divides. */
  lemma PlaceStops(total: nat, length: nat)
    requires total < UINT32_LIMIT
    ensures Place(total, length) <= UINT32_LIMIT
  {
  }

  /** A value that reaches over 2^32 does not lie inside the wrapped total. */
  lemma ReachesOver(sizes: seq<nat>, k: nat)
    requires k < |sizes| && OffsetAt(sizes, k) < UINT32_LIMIT <= OffsetAt(sizes, k) + sizes[k]
    ensures !Sound(sizes, WrappedOffsets(sizes), Total(sizes) % UINT32_LIMIT)
  {
    WrapSmall(OffsetAt(sizes, k));
    assert WrappedOffsets(sizes)[k] + sizes[k] > Total(sizes) % UINT32_LIMIT;
  }

  /** A value that starts at 2^32 overlaps with the first one that takes up space. */
  lemma StartsOver(sizes: seq<nat>, k: nat)
    requires k < |sizes| && OffsetAt(sizes, k) == UINT32_LIMIT
    requires 0 < Total(sizes[..k]) && sizes[k] > 0
    ensures !Sound(sizes, WrappedOffsets(sizes), Total(sizes) % UINT32_LIMIT)
  {
    var f := FirstOffset(sizes[..k]);
    assert sizes[..k][..f] == sizes[..f];
    assert WrappedOffsets(sizes)[k] == 0 && WrappedOffsets(sizes)[f] == 0;
    assert !Apart(0, sizes[f], 0, sizes[k]);
  }

  lemma UnsoundWithWrap(sizes: seq<nat>)
    requires Total(sizes) >= UINT32_LIMIT
    ensures !Sound(sizes, WrappedOffsets(sizes), Total(sizes) % UINT32_LIMIT)
  {
    var k := FirstWrap(sizes);
    PlaceStops(Total(sizes[..k]), sizes[k]);
    if OffsetAt(sizes, k) < UINT32_LIMIT { ReachesOver(sizes, k); } else { StartsOver(sizes, k); }
  }

  /** A layout in 32-bit arithmetic is sound exactly when the values fit into less than 4 GiB. */
  lemma SoundIffFits(sizes: seq<nat>)
    ensures Sound(sizes, WrappedOffsets(sizes), Total(sizes) % UINT32_LIMIT) <==> Total(sizes) < UINT32_LIMIT
  {
    if Total(sizes) < UINT32_LIMIT {
      SoundWithoutWrap(sizes);
      WrapSmall(Total(sizes));
    } else {
      UnsoundWithWrap(sizes);
    }
  }

  // ---------------------------------------------------------------- arguments given by pointer

  /** An argument is given by pointer, and then has to be placed, or it is not. */
  datatype ArgumentInfo = ArgumentInfo(byPointer: bool, length: nat, offset: nat)

  function PointerSizes(args: seq<ArgumentInfo>): seq<nat> {
    if args == [] then []
    else
      var n := |args| - 1;
      PointerSizes(args[..n]) + (if args[n].byPointer then [args[n].length] else [])
  }

  function PointerOffsets(args: seq<ArgumentInfo>): seq<nat> {
    if args == [] then []
    else
      var n := |args| - 1;
      PointerOffsets(args[..n]) + (if args[n].byPointer then [args[n].offset] else [])
  }

  lemma {:induction false} PointerCounts(args: seq<ArgumentInfo>)
    ensures |PointerSizes(args)| == |PointerOffsets(args)|
  {
    if args != [] { PointerCounts(args[..|args|-1]); }
  }

  /** The first arguments have been placed, and nothing but offsets has changed. */
  ghost predicate Placed(args: seq<ArgumentInfo>, placed: seq<ArgumentInfo>, total: nat) {
    && |placed| == |args|
    && (forall i :: 0 <= i < |args| ==>
          && placed[i].byPointer == args[i].byPointer && placed[i].length == args[i].length
          && (!args[i].byPointer ==> placed[i] == args[i]))
    && PointerSizes(placed) == PointerSizes(args)
    && PointerOffsets(placed) == WrappedOffsets(PointerSizes(args))
    && total == Total(PointerSizes(args))
  }

  lemma PointerAppend(args: seq<ArgumentInfo>, info: ArgumentInfo)
    ensures PointerSizes(args + [info]) ==
            if info.byPointer then PointerSizes(args) + [info.length] else PointerSizes(args)
    ensures PointerOffsets(args + [info]) ==
            if info.byPointer then PointerOffsets(args) + [info.offset] else PointerOffsets(args)
  {
    assert (args + [info])[..|args|] == args;
    assert PointerSizes(args) + [] == PointerSizes(args) && PointerOffsets(args) + [] == PointerOffsets(args);
  }

  lemma PlacedAppend(args: seq<ArgumentInfo>, placed: seq<ArgumentInfo>, total: nat, info: ArgumentInfo)
    requires Placed(args, placed, total)
    ensures !info.byPointer ==> Placed(args + [info], placed + [info], total)
    ensures info.byPointer ==>
              var offset := Place(total, info.length);
              Placed(args + [info], placed + [info.(offset := offset % UINT32_LIMIT)], offset + info.length)
  {
    PointerAppend(args, info);
    if info.byPointer {
      var offset := Place(total, info.length);
      PointerAppend(placed, info.(offset := offset % UINT32_LIMIT));
      TotalAppend(PointerSizes(args), info.length);
      WrappedAppend(PointerSizes(args), info.length);
    } else {
      PointerAppend(placed, info);
    }
  }

  /** Lays out the arguments given by pointer. Offsets are truncated to 32 bits as they are assigned,
    * and only the final total is checked. The check succeeds exactly when the layout is sound. */
  method AllocatePointerArgumentsToPool(args: seq<ArgumentInfo>)
    returns (placed: seq<ArgumentInfo>, total: nat, code: ResultCode)
    requires forall i :: 0 <= i < |args| ==> args[i].length < UINT32_LIMIT
    ensures Placed(args, placed, total)
    ensures code == NoError || code == BadData
    ensures code == NoError <==> Sound(PointerSizes(args), WrappedOffsets(PointerSizes(args)), total % UINT32_LIMIT)
  {
    placed, total := [], 0;
    for i := 0 to |args|
      invariant Placed(args[..i], placed, total)
    {
      var info := args[i];
      PlacedAppend(args[..i], placed, total, info);
      AlignBytesIsPadding(total, info.length);
      assert args[..i+1] == args[..i] + [args[i]];
      if info.byPointer {
        total := total + AlignBytesNeeded(total % UINT32_LIMIT, info.length);
        info := info.(offset := total % UINT32_LIMIT);
        total := total + info.length;
      }
      placed := placed + [info];
    }
    assert args[..|args|] == args;
    SoundIffFits(PointerSizes(args));
    code := if total > 0xFFFF_FFFF then BadData else NoError;
  }

  lemma WrappedAppend(sizes: seq<nat>, size: nat)
    ensures WrappedOffsets(sizes + [size]) ==
            WrappedOffsets(sizes) + [Place(Total(sizes), size) % UINT32_LIMIT]
  {
    TotalAppend(sizes, size);
    forall i | 0 <= i < |sizes| ensures WrappedOffsets(sizes + [size])[i] == WrappedOffsets(sizes)[i] {
      assert OffsetAt(sizes + [size], i) == OffsetAt(sizes, i);
    }
  }
}
