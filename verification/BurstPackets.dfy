/** Request and result packets of a burst: serializers, parsers, and why they are inverse. */
module BurstPackets {
  import opened Models
  import opened OutputShapes

  datatype DataLocation = DataLocation(poolIndex: nat, offset: nat, length: nat)

  datatype Timing = Timing(timeOnDevice: nat, timeInDriver: nat)

  datatype Kind = Input | Output | Shape

  /** What an operand says besides its dimensions: in a request, and in a result. */
  datatype OperandHead =
    | ArgumentHead(hasNoValue: bool, location: DataLocation)
    | ShapeHead(isSufficient: bool)

  /** One element of a channel. Requests and results share the type; the constructor together with the
    * kind is the discriminator. */
  datatype Datum =
    | RequestInformation(packetSize: nat, numberOfInputOperands: nat, numberOfOutputOperands: nat, numberOfPools: nat)
    | ResultInformation(packetSize: nat, errorStatus: ErrorStatus, numberOfOperands: nat)
    | OperandInformation(kind: Kind, head: OperandHead, numberOfDimensions: nat)
    | OperandDimensionValue(kind: Kind, dimension: nat)
    | PoolIdentifier(slot: int)
    | MeasureTiming(measure: bool)
    | ExecutionTiming(timing: Timing)

  /** Outcome of parsing. `OutOfRange` stands for a read behind the end of the data, where the program
    * has no check. */
  datatype Parsed<T> =
    | Accepted(value: T, index: nat)
    | IllFormed
    | OutOfRange

  // ---------------------------------------------------------------- data that starts with a part

  /** The data holds `part` from `index` on. */
  ghost predicate At(data: seq<Datum>, index: nat, part: seq<Datum>) {
    if part == [] then index <= |data|
    else
      var n := |part| - 1;
      At(data, index, part[..n]) && index + n < |data| && data[index + n] == part[n]
  }

  lemma {:induction false} AtSlice(data: seq<Datum>, index: nat, part: seq<Datum>)
    ensures At(data, index, part) <==> index + |part| <= |data| && data[index..index + |part|] == part
  {
    if part != [] {
      var n := |part| - 1;
      AtSlice(data, index, part[..n]);
      if index + |part| <= |data| {
        assert data[index..index + |part|] == data[index..index + n] + [data[index + n]];
        assert part == part[..n] + [part[n]];
        assert data[index..index + |part|][..n] == data[index..index + n];
      }
    }
  }

  lemma {:induction false} AtConcat(data: seq<Datum>, index: nat, a: seq<Datum>, b: seq<Datum>)
    ensures At(data, index, a + b) <==> At(data, index, a) && At(data, index + |a|, b)
  {
    if b == [] {
      assert a + b == a;
      AtSlice(data, index, a);
    } else {
      var n := |b| - 1;
      assert (a + b)[..|a + b|-1] == a + b[..n];
      AtConcat(data, index, a, b[..n]);
    }
  }

  lemma AtOne(data: seq<Datum>, index: nat, d: Datum)
    ensures At(data, index, [d]) <==> index < |data| && data[index] == d
  {
    assert [d][..0] == [];
  }

  /** Data that consists of a header, some part and one more element. */
  lemma LastElement(data: seq<Datum>, part: seq<Datum>, last: Datum)
    requires |data| == |part| + 2
    ensures At(data, 1, part) && data[|part| + 1] == last <==> data[1..] == part + [last]
  {
    AtSlice(data, 1, part + [last]);
    assert (part + [last])[..|part|] == part;
    assert data[1..1 + |part| + 1] == data[1..];
  }

  // ---------------------------------------------------------------- operands with dimensions

  datatype Block = Block(head: OperandHead, dimensions: seq<nat>)

  function DimensionData(kind: Kind, dimensions: seq<nat>): (data: seq<Datum>)
    ensures |data| == |dimensions|
  {
    seq(|dimensions|, i requires 0 <= i < |dimensions| => OperandDimensionValue(kind, dimensions[i]))
  }

  function BlockData(kind: Kind, b: Block): seq<Datum> {
    [OperandInformation(kind, b.head, |b.dimensions|)] + DimensionData(kind, b.dimensions)
  }

  function BlocksData(kind: Kind, bs: seq<Block>): seq<Datum> {
    if bs == [] then [] else BlocksData(kind, bs[..|bs|-1]) + BlockData(kind, bs[|bs|-1])
  }

  function ReadDimensions(kind: Kind, data: seq<Datum>, index: nat, n: nat): Parsed<seq<nat>> {
    if n == 0 then Accepted([], index)
    else
      var before := ReadDimensions(kind, data, index, n - 1);
      if !before.Accepted? then before
      else if before.index >= |data| then OutOfRange
      else if !data[before.index].OperandDimensionValue? || data[before.index].kind != kind then IllFormed
      else Accepted(before.value + [data[before.index].dimension], before.index + 1)
  }

  function ReadBlocks(kind: Kind, data: seq<Datum>, index: nat, n: nat): Parsed<seq<Block>> {
    if n == 0 then Accepted([], index)
    else
      var before := ReadBlocks(kind, data, index, n - 1);
      if !before.Accepted? then before
      else if before.index >= |data| then OutOfRange
      else
        var datum := data[before.index];
        if !datum.OperandInformation? || datum.kind != kind then IllFormed
        else
          var dimensions := ReadDimensions(kind, data, before.index + 1, datum.numberOfDimensions);
          if dimensions.IllFormed? then IllFormed
          else if dimensions.OutOfRange? then OutOfRange
          else Accepted(before.value + [Block(datum.head, dimensions.value)], dimensions.index)
  }

  lemma DimensionDataAppend(kind: Kind, dimensions: seq<nat>, v: nat)
    ensures DimensionData(kind, dimensions + [v]) == DimensionData(kind, dimensions) + [OperandDimensionValue(kind, v)]
  {
  }

  lemma {:induction false} DimensionsAccepted(kind: Kind, data: seq<Datum>, index: nat, n: nat)
    requires index <= |data| && ReadDimensions(kind, data, index, n).Accepted?
    ensures var r := ReadDimensions(kind, data, index, n);
            |r.value| == n && r.index == index + n && At(data, index, DimensionData(kind, r.value))
  {
    if n > 0 {
      DimensionsAccepted(kind, data, index, n - 1);
      var before := ReadDimensions(kind, data, index, n - 1).value;
      var d := data[index + n - 1];
      DimensionDataAppend(kind, before, d.dimension);
      AtOne(data, index + n - 1, d);
      AtConcat(data, index, DimensionData(kind, before), [d]);
    }
  }

  lemma {:induction false} DimensionsComplete(kind: Kind, data: seq<Datum>, index: nat, dimensions: seq<nat>)
    requires At(data, index, DimensionData(kind, dimensions))
    ensures ReadDimensions(kind, data, index, |dimensions|) == Accepted(dimensions, index + |dimensions|)
  {
    if dimensions != [] {
      var n := |dimensions| - 1;
      var d := OperandDimensionValue(kind, dimensions[n]);
      assert dimensions == dimensions[..n] + [dimensions[n]];
      DimensionDataAppend(kind, dimensions[..n], dimensions[n]);
      AtConcat(data, index, DimensionData(kind, dimensions[..n]), [d]);
      AtOne(data, index + n, d);
      DimensionsComplete(kind, data, index, dimensions[..n]);
    }
  }

  lemma NoBlocks(kind: Kind, data: seq<Datum>, index: nat)
    ensures BlocksData(kind, []) == [] && ReadBlocks(kind, data, index, 0) == Accepted([], index)
    ensures At(data, index, []) <==> index <= |data|
  {
  }

  lemma BlocksDataAppend(kind: Kind, bs: seq<Block>, b: Block)
    ensures BlocksData(kind, bs + [b]) == BlocksData(kind, bs) + BlockData(kind, b)
  {
    assert (bs + [b])[..|bs|] == bs;
  }

  lemma BlockAt(kind: Kind, data: seq<Datum>, at: nat, b: Block)
    ensures At(data, at, BlockData(kind, b)) <==>
              at < |data| && data[at] == OperandInformation(kind, b.head, |b.dimensions|) &&
              At(data, at + 1, DimensionData(kind, b.dimensions))
  {
    var d := OperandInformation(kind, b.head, |b.dimensions|);
    AtConcat(data, at, [d], DimensionData(kind, b.dimensions));
    AtOne(data, at, d);
  }

  /** What it takes to read one more operand. */
  lemma LastBlockRead(kind: Kind, data: seq<Datum>, index: nat, n: nat) returns (at: nat, init: seq<Block>, last: Block)
    requires ReadBlocks(kind, data, index, n + 1).Accepted?
    ensures ReadBlocks(kind, data, index, n) == Accepted(init, at)
    ensures ReadBlocks(kind, data, index, n + 1) == Accepted(init + [last], at + |BlockData(kind, last)|)
    ensures at <= |data| ==> At(data, at, BlockData(kind, last))
  {
    hide At;
    at, init := ReadBlocks(kind, data, index, n).index, ReadBlocks(kind, data, index, n).value;
    last := ReadBlocks(kind, data, index, n + 1).value[|init|];
    DimensionsAccepted(kind, data, at + 1, data[at].numberOfDimensions);
    BlockAt(kind, data, at, last);
  }

  lemma {:induction false} BlocksAccepted(kind: Kind, data: seq<Datum>, index: nat, n: nat)
    requires index <= |data| && ReadBlocks(kind, data, index, n).Accepted?
    ensures var r := ReadBlocks(kind, data, index, n);
            && |r.value| == n && r.index == index + |BlocksData(kind, r.value)| && r.index <= |data|
            && At(data, index, BlocksData(kind, r.value))
  {
    hide At, BlockData, BlocksData, ReadBlocks;
    if n == 0 {
      NoBlocks(kind, data, index);
    } else {
      var at, init, last := LastBlockRead(kind, data, index, n - 1);
      BlocksAccepted(kind, data, index, n - 1);
      BlocksDataAppend(kind, init, last);
      AtConcat(data, index, BlocksData(kind, init), BlockData(kind, last));
      AtSlice(data, at, BlockData(kind, last));
    }
  }

  /** One more operand is read. */
  lemma ReadBlocksNext(kind: Kind, data: seq<Datum>, index: nat, bs: seq<Block>, at: nat, b: Block)
    requires ReadBlocks(kind, data, index, |bs|) == Accepted(bs, at)
    requires At(data, at, BlockData(kind, b))
    ensures ReadBlocks(kind, data, index, |bs| + 1) == Accepted(bs + [b], at + |BlockData(kind, b)|)
  {
    hide At, ReadDimensions;
    BlockAt(kind, data, at, b);
    DimensionsComplete(kind, data, at + 1, b.dimensions);
  }

  lemma {:induction false} BlocksComplete(kind: Kind, data: seq<Datum>, index: nat, bs: seq<Block>)
    requires At(data, index, BlocksData(kind, bs))
    ensures ReadBlocks(kind, data, index, |bs|) == Accepted(bs, index + |BlocksData(kind, bs)|)
  {
    hide At, BlockData, BlocksData, ReadBlocks;
    if bs == [] {
      NoBlocks(kind, data, index);
    } else {
      var n := |bs| - 1;
      var init := BlocksData(kind, bs[..n]);
      assert bs == bs[..n] + [bs[n]];
      BlocksDataAppend(kind, bs[..n], bs[n]);
      AtConcat(data, index, init, BlockData(kind, bs[n]));
      BlocksComplete(kind, data, index, bs[..n]);
      ReadBlocksNext(kind, data, index, bs[..n], index + |init|, bs[n]);
    }
  }

  // ---------------------------------------------------------------- slots

  function SlotData(slots: seq<int>): (data: seq<Datum>)
    ensures |data| == |slots|
  {
    seq(|slots|, i requires 0 <= i < |slots| => PoolIdentifier(slots[i]))
  }

  function ReadSlots(data: seq<Datum>, index: nat, n: nat): Parsed<seq<int>> {
    if n == 0 then Accepted([], index)
    else
      var before := ReadSlots(data, index, n - 1);
      if !before.Accepted? then before
      else if before.index >= |data| then OutOfRange
      else if !data[before.index].PoolIdentifier? then IllFormed
      else Accepted(before.value + [data[before.index].slot], before.index + 1)
  }

  lemma {:induction false} SlotsAccepted(data: seq<Datum>, index: nat, n: nat)
    requires index <= |data| && ReadSlots(data, index, n).Accepted?
    ensures var r := ReadSlots(data, index, n);
            |r.value| == n && r.index == index + n && At(data, index, SlotData(r.value))
  {
    if n > 0 {
      SlotsAccepted(data, index, n - 1);
      var before := ReadSlots(data, index, n - 1).value;
      var d := data[index + n - 1];
      assert SlotData(before + [d.slot]) == SlotData(before) + [d];
      AtOne(data, index + n - 1, d);
      AtConcat(data, index, SlotData(before), [d]);
    }
  }

  lemma {:induction false} SlotsComplete(data: seq<Datum>, index: nat, slots: seq<int>)
    requires At(data, index, SlotData(slots))
    ensures ReadSlots(data, index, |slots|) == Accepted(slots, index + |slots|)
  {
    if slots != [] {
      var n := |slots| - 1;
      var d := PoolIdentifier(slots[n]);
      assert slots == slots[..n] + [slots[n]];
      assert SlotData(slots) == SlotData(slots[..n]) + [d];
      AtConcat(data, index, SlotData(slots[..n]), [d]);
      AtOne(data, index + n, d);
      SlotsComplete(data, index, slots[..n]);
    }
  }

  // ---------------------------------------------------------------- loops of serializers and parsers

  method PackBlock(kind: Kind, before: seq<Datum>, b: Block) returns (data: seq<Datum>)
    ensures data == before + BlockData(kind, b)
  {
    data := before + [OperandInformation(kind, b.head, |b.dimensions|)];
    for k := 0 to |b.dimensions|
      invariant data == before + [OperandInformation(kind, b.head, |b.dimensions|)] +
                DimensionData(kind, b.dimensions[..k])
    {
      data := data + [OperandDimensionValue(kind, b.dimensions[k])];
      assert b.dimensions[..k+1] == b.dimensions[..k] + [b.dimensions[k]];
      DimensionDataAppend(kind, b.dimensions[..k], b.dimensions[k]);
    }
    assert b.dimensions[..|b.dimensions|] == b.dimensions;
  }

  method PackBlocks(kind: Kind, before: seq<Datum>, bs: seq<Block>) returns (data: seq<Datum>)
    ensures data == before + BlocksData(kind, bs)
  {
    hide BlockData, BlocksData;
    data := before;
    NoBlocks(kind, [], 0);
    assert bs[..0] == [];
    for i := 0 to |bs|
      invariant data == before + BlocksData(kind, bs[..i])
    {
      assert bs[..i+1] == bs[..i] + [bs[i]];
      BlocksDataAppend(kind, bs[..i], bs[i]);
      data := PackBlock(kind, data, bs[i]);
    }
    assert bs[..|bs|] == bs;
  }

  method PackSlots(before: seq<Datum>, slots: seq<int>) returns (data: seq<Datum>)
    ensures data == before + SlotData(slots)
  {
    data := before;
    for i := 0 to |slots|
      invariant data == before + SlotData(slots[..i])
    {
      data := data + [PoolIdentifier(slots[i])];
      assert SlotData(slots[..i+1]) == SlotData(slots[..i]) + [PoolIdentifier(slots[i])];
    }
    assert slots[..|slots|] == slots;
  }

  lemma {:induction false} DimensionsFail(kind: Kind, data: seq<Datum>, index: nat, k: nat, n: nat)
    requires k <= n && !ReadDimensions(kind, data, index, k).Accepted?
    ensures ReadDimensions(kind, data, index, n) == ReadDimensions(kind, data, index, k)
  {
    if k < n { DimensionsFail(kind, data, index, k, n - 1); }
  }

  lemma {:induction false} BlocksFail(kind: Kind, data: seq<Datum>, index: nat, k: nat, n: nat)
    requires k <= n && !ReadBlocks(kind, data, index, k).Accepted?
    ensures ReadBlocks(kind, data, index, n) == ReadBlocks(kind, data, index, k)
  {
    if k < n { BlocksFail(kind, data, index, k, n - 1); }
  }

  lemma {:induction false} SlotsFail(data: seq<Datum>, index: nat, k: nat, n: nat)
    requires k <= n && !ReadSlots(data, index, k).Accepted?
    ensures ReadSlots(data, index, n) == ReadSlots(data, index, k)
  {
    if k < n { SlotsFail(data, index, k, n - 1); }
  }

  method UnpackDimensions(kind: Kind, data: seq<Datum>, start: nat, n: nat) returns (r: Parsed<seq<nat>>)
    ensures r == ReadDimensions(kind, data, start, n)
  {
    var dimensions: seq<nat>, index: nat := [], start;
    for i := 0 to n
      invariant ReadDimensions(kind, data, start, i) == Accepted(dimensions, index)
    {
      if index >= |data| {
        DimensionsFail(kind, data, start, i + 1, n);
        return OutOfRange;
      }
      if !data[index].OperandDimensionValue? || data[index].kind != kind {
        DimensionsFail(kind, data, start, i + 1, n);
        return IllFormed;
      }
      dimensions := dimensions + [data[index].dimension];
      index := index + 1;
    }
    return Accepted(dimensions, index);
  }

  method UnpackBlocks(kind: Kind, data: seq<Datum>, start: nat, n: nat) returns (r: Parsed<seq<Block>>)
    ensures r == ReadBlocks(kind, data, start, n)
  {
    hide ReadDimensions;
    var operands: seq<Block>, index: nat := [], start;
    for i := 0 to n
      invariant ReadBlocks(kind, data, start, i) == Accepted(operands, index)
    {
      if index >= |data| {
        BlocksFail(kind, data, start, i + 1, n);
        return OutOfRange;
      }
      var info := data[index];
      if !info.OperandInformation? || info.kind != kind {
        BlocksFail(kind, data, start, i + 1, n);
        return IllFormed;
      }
      var dimensions := UnpackDimensions(kind, data, index + 1, info.numberOfDimensions);
      if !dimensions.Accepted? {
        BlocksFail(kind, data, start, i + 1, n);
        return if dimensions.IllFormed? then IllFormed else OutOfRange;
      }
      operands := operands + [Block(info.head, dimensions.value)];
      index := dimensions.index;
    }
    return Accepted(operands, index);
  }

  method UnpackSlots(data: seq<Datum>, start: nat, n: nat) returns (r: Parsed<seq<int>>)
    ensures r == ReadSlots(data, start, n)
  {
    var slots: seq<int>, index: nat := [], start;
    for i := 0 to n
      invariant ReadSlots(data, start, i) == Accepted(slots, index)
    {
      if index >= |data| {
        SlotsFail(data, start, i + 1, n);
        return OutOfRange;
      }
      if !data[index].PoolIdentifier? {
        SlotsFail(data, start, i + 1, n);
        return IllFormed;
      }
      slots := slots + [data[index].slot];
      index := index + 1;
    }
    return Accepted(slots, index);
  }

  function DimensionCount(operands: seq<Block>): nat {
    if operands == [] then 0
    else DimensionCount(operands[..|operands|-1]) + |operands[|operands|-1].dimensions|
  }

  lemma {:induction false} BlocksDataLength(kind: Kind, bs: seq<Block>)
    ensures |BlocksData(kind, bs)| == |bs| + DimensionCount(bs)
  {
    if bs != [] { BlocksDataLength(kind, bs[..|bs|-1]); }
  }

  /** The operand is at a position, and its dimensions follow in order. */
  ghost predicate BlockPlaced(data: seq<Datum>, at: nat, kind: Kind, b: Block) {
    && at + |b.dimensions| < |data|
    && data[at] == OperandInformation(kind, b.head, |b.dimensions|)
    && forall d :: 0 <= d < |b.dimensions| ==> data[at + 1 + d] == OperandDimensionValue(kind, b.dimensions[d])
  }

  /** An operand comes after one element for each earlier one and for each of their dimensions. */
  ghost predicate Placed(data: seq<Datum>, start: nat, kind: Kind, bs: seq<Block>) {
    forall i :: 0 <= i < |bs| ==> BlockPlaced(data, start + i + DimensionCount(bs[..i]), kind, bs[i])
  }

  lemma PlacedLonger(before: seq<Datum>, data: seq<Datum>, rest: seq<Datum>, at: nat, kind: Kind, b: Block)
    requires BlockPlaced(data, at, kind, b)
    ensures BlockPlaced(before + (data + rest), |before| + at, kind, b)
  {
    var all := before + (data + rest);
    forall d | 0 <= d < |b.dimensions|
      ensures all[|before| + at + 1 + d] == OperandDimensionValue(kind, b.dimensions[d])
    {
      assert all[|before| + (at + 1 + d)] == data[at + 1 + d];
    }
  }

  lemma OwnPlace(kind: Kind, b: Block)
    ensures BlockPlaced(BlockData(kind, b), 0, kind, b)
  {
  }

  lemma LastPlaced(kind: Kind, bs: seq<Block>)
    requires bs != []
    ensures BlockPlaced(BlocksData(kind, bs), |bs| - 1 + DimensionCount(bs[..|bs|-1]), kind, bs[|bs|-1])
  {
    hide BlockPlaced, BlockData;
    var n := |bs| - 1;
    var before, last := BlocksData(kind, bs[..n]), BlockData(kind, bs[n]);
    OwnPlace(kind, bs[n]);
    PlacedLonger(before, last, [], 0, kind, bs[n]);
    BlocksDataLength(kind, bs[..n]);
    assert before + (last + []) == BlocksData(kind, bs);
  }

  lemma {:induction false} OnePlaced(kind: Kind, bs: seq<Block>, i: nat)
    requires i < |bs|
    ensures BlockPlaced(BlocksData(kind, bs), i + DimensionCount(bs[..i]), kind, bs[i])
  {
    hide BlockPlaced, BlockData, DimensionCount;
    var n := |bs| - 1;
    if i == n {
      LastPlaced(kind, bs);
    } else {
      var before, last := BlocksData(kind, bs[..n]), BlockData(kind, bs[n]);
      OnePlaced(kind, bs[..n], i);
      assert bs[..n][..i] == bs[..i];
      PlacedLonger([], before, last, i + DimensionCount(bs[..i]), kind, bs[i]);
      assert [] + (before + last) == BlocksData(kind, bs);
    }
  }

  lemma BlocksPlaced(kind: Kind, bs: seq<Block>)
    ensures Placed(BlocksData(kind, bs), 0, kind, bs)
  {
    hide BlockPlaced, BlocksData, DimensionCount;
    forall i | 0 <= i < |bs| ensures BlockPlaced(BlocksData(kind, bs), 0 + i + DimensionCount(bs[..i]), kind, bs[i]) {
      OnePlaced(kind, bs, i);
    }
  }

  lemma PlacedWithin(before: seq<Datum>, data: seq<Datum>, rest: seq<Datum>, kind: Kind, bs: seq<Block>)
    requires Placed(data, 0, kind, bs)
    ensures Placed(before + (data + rest), |before|, kind, bs)
  {
    hide BlockPlaced;
    forall i | 0 <= i < |bs|
      ensures BlockPlaced(before + (data + rest), |before| + i + DimensionCount(bs[..i]), kind, bs[i])
    {
      PlacedLonger(before, data, rest, i + DimensionCount(bs[..i]), kind, bs[i]);
    }
  }

  /** Number of elements that the serializer counts before it packs anything. */
  method CountElements(operands: seq<Block>, ghost kind: Kind) returns (count: nat)
    ensures count == |BlocksData(kind, operands)| && count >= |operands|
  {
    count := |operands|;
    for i := 0 to |operands|
      invariant count == |operands| + DimensionCount(operands[..i])
    {
      assert operands[..i+1][..i] == operands[..i];
      count := count + |operands[i].dimensions|;
    }
    assert operands[..|operands|] == operands;
    BlocksDataLength(kind, operands);
  }

  lemma Untruncated(x: nat)
    requires x < UINT32_LIMIT
    ensures x % UINT32_LIMIT == x
  {
  }

  // ---------------------------------------------------------------- requests

  /** A request; its pools are represented by slots. */
  datatype Request = Request(inputs: seq<Block>, outputs: seq<Block>, slots: seq<int>, measure: bool)

  function RequestOperands(r: Request): seq<Datum> {
    BlocksData(Input, r.inputs) + (BlocksData(Output, r.outputs) + SlotData(r.slots))
  }

  /** Sizes and counts are truncated to 32 bits. */
  function RequestPacket(r: Request): seq<Datum> {
    [RequestInformation((2 + |RequestOperands(r)|) % UINT32_LIMIT, |r.inputs| % UINT32_LIMIT,
                        |r.outputs| % UINT32_LIMIT, |r.slots| % UINT32_LIMIT)] +
    (RequestOperands(r) + [MeasureTiming(r.measure)])
  }

  method SerializeRequest(r: Request) returns (data: seq<Datum>)
    ensures data == RequestPacket(r)
  {
    var inputs := CountElements(r.inputs, Input);
    var outputs := CountElements(r.outputs, Output);
    var count := 2 + inputs + outputs + |r.slots|;
    var header := RequestInformation(count % UINT32_LIMIT, |r.inputs| % UINT32_LIMIT,
                                     |r.outputs| % UINT32_LIMIT, |r.slots| % UINT32_LIMIT);
    assert count == 2 + |RequestOperands(r)|;
    data := PackOperands([header], r);
    data := data + [MeasureTiming(r.measure)];
  }

  method PackOperands(before: seq<Datum>, r: Request) returns (data: seq<Datum>)
    ensures data == before + RequestOperands(r)
  {
    hide BlocksData;
    data := PackBlocks(Input, before, r.inputs);
    data := PackBlocks(Output, data, r.outputs);
    data := PackSlots(data, r.slots);
  }

  function ParseBody(data: seq<Datum>, info: Datum): Parsed<Request>
    requires info.RequestInformation?
  {
    var inputs := ReadBlocks(Input, data, 1, info.numberOfInputOperands);
    if !inputs.Accepted? then (if inputs.IllFormed? then IllFormed else OutOfRange)
    else
      var outputs := ReadBlocks(Output, data, inputs.index, info.numberOfOutputOperands);
      if !outputs.Accepted? then (if outputs.IllFormed? then IllFormed else OutOfRange)
      else
        var slots := ReadSlots(data, outputs.index, info.numberOfPools);
        if !slots.Accepted? then (if slots.IllFormed? then IllFormed else OutOfRange)
        else if slots.index >= |data| then OutOfRange
        else if !data[slots.index].MeasureTiming? then IllFormed
        else if slots.index + 1 != info.packetSize then IllFormed
        else Accepted(Request(inputs.value, outputs.value, slots.value, data[slots.index].measure), slots.index + 1)
  }

  function ParseRequest(data: seq<Datum>): Parsed<Request> {
    if |data| == 0 || !data[0].RequestInformation? then IllFormed
    else if |data| != data[0].packetSize then IllFormed
    else ParseBody(data, data[0])
  }

  method DeserializeRequest(data: seq<Datum>) returns (r: Parsed<Request>)
    ensures r == ParseRequest(data)
  {
    hide ReadBlocks, ReadSlots;
    if |data| == 0 || !data[0].RequestInformation? { return IllFormed; }
    var info := data[0];
    if |data| != info.packetSize { return IllFormed; }
    var inputs := UnpackBlocks(Input, data, 1, info.numberOfInputOperands);
    if !inputs.Accepted? { return if inputs.IllFormed? then IllFormed else OutOfRange; }
    var outputs := UnpackBlocks(Output, data, inputs.index, info.numberOfOutputOperands);
    if !outputs.Accepted? { return if outputs.IllFormed? then IllFormed else OutOfRange; }
    var slots := UnpackSlots(data, outputs.index, info.numberOfPools);
    if !slots.Accepted? { return if slots.IllFormed? then IllFormed else OutOfRange; }
    if slots.index >= |data| { return OutOfRange; }
    if !data[slots.index].MeasureTiming? { return IllFormed; }
    if slots.index + 1 != info.packetSize { return IllFormed; }
    return Accepted(Request(inputs.value, outputs.value, slots.value, data[slots.index].measure), slots.index + 1);
  }

  function RequestCounts(r: Request, size: nat): Datum {
    RequestInformation(size, |r.inputs|, |r.outputs|, |r.slots|)
  }

  lemma OperandsAt(data: seq<Datum>, r: Request)
    ensures var a, b := BlocksData(Input, r.inputs), BlocksData(Output, r.outputs);
            At(data, 1, RequestOperands(r)) <==>
              At(data, 1, a) && At(data, 1 + |a|, b) && At(data, 1 + |a| + |b|, SlotData(r.slots))
  {
    hide At, BlocksData, SlotData;
    var a, b := BlocksData(Input, r.inputs), BlocksData(Output, r.outputs);
    AtConcat(data, 1, a, b + SlotData(r.slots));
    AtConcat(data, 1 + |a|, b, SlotData(r.slots));
  }

  lemma BodyUnfolds(data: seq<Datum>, info: Datum) returns (i: nat, j: nat)
    requires info.RequestInformation? && info.packetSize == |data| && ParseBody(data, info).Accepted?
    ensures var r := ParseBody(data, info).value;
            && ReadBlocks(Input, data, 1, info.numberOfInputOperands) == Accepted(r.inputs, i)
            && ReadBlocks(Output, data, i, info.numberOfOutputOperands) == Accepted(r.outputs, j)
            && ReadSlots(data, j, info.numberOfPools) == Accepted(r.slots, |data| - 1)
            && data[|data| - 1] == MeasureTiming(r.measure)
  {
    hide ReadBlocks, ReadSlots;
    i := ReadBlocks(Input, data, 1, info.numberOfInputOperands).index;
    j := ReadBlocks(Output, data, i, info.numberOfOutputOperands).index;
  }

  lemma OperandsWereThere(data: seq<Datum>, r: Request, i: nat, j: nat, n: nat, k: nat, l: nat)
    requires |data| >= 2
    requires ReadBlocks(Input, data, 1, n) == Accepted(r.inputs, i)
    requires ReadBlocks(Output, data, i, k) == Accepted(r.outputs, j)
    requires ReadSlots(data, j, l) == Accepted(r.slots, |data| - 1)
    ensures At(data, 1, RequestOperands(r)) && |data| == 2 + |RequestOperands(r)|
    ensures |r.inputs| == n && |r.outputs| == k && |r.slots| == l
  {
    hide At, ReadBlocks, ReadSlots;
    var a, b := BlocksData(Input, r.inputs), BlocksData(Output, r.outputs);
    assert At(data, 1, a) && i == 1 + |a| && i <= |data| && |r.inputs| == n by { BlocksAccepted(Input, data, 1, n); }
    assert At(data, i, b) && j == i + |b| && j <= |data| && |r.outputs| == k by { BlocksAccepted(Output, data, i, k); }
    assert At(data, j, SlotData(r.slots)) && |data| - 1 == j + |r.slots| && |r.slots| == l by {
      SlotsAccepted(data, j, l);
    }
    OperandsAt(data, r);
  }

  lemma BodyAccepted(data: seq<Datum>, info: Datum)
    requires info.RequestInformation? && info.packetSize == |data| && |data| >= 2
    requires ParseBody(data, info).Accepted?
    ensures var r := ParseBody(data, info).value;
            && data[1..] == RequestOperands(r) + [MeasureTiming(r.measure)]
            && info == RequestCounts(r, |data|)
  {
    hide At, ReadBlocks, ReadSlots, ParseBody;
    var r := ParseBody(data, info).value;
    var i, j := BodyUnfolds(data, info);
    OperandsWereThere(data, r, i, j, info.numberOfInputOperands, info.numberOfOutputOperands, info.numberOfPools);
    LastElement(data, RequestOperands(r), MeasureTiming(r.measure));
  }

  lemma OperandsLength(r: Request)
    ensures |RequestOperands(r)| == |BlocksData(Input, r.inputs)| + |BlocksData(Output, r.outputs)| + |r.slots|
  {
  }

  lemma OperandsRead(data: seq<Datum>, r: Request, i: nat, j: nat)
    requires At(data, 1, RequestOperands(r))
    requires i == 1 + |BlocksData(Input, r.inputs)| && j == i + |BlocksData(Output, r.outputs)|
    ensures ReadBlocks(Input, data, 1, |r.inputs|) == Accepted(r.inputs, i)
    ensures ReadBlocks(Output, data, i, |r.outputs|) == Accepted(r.outputs, j)
    ensures ReadSlots(data, j, |r.slots|) == Accepted(r.slots, j + |r.slots|)
  {
    hide At, ReadBlocks, ReadSlots;
    assert At(data, 1, BlocksData(Input, r.inputs)) && At(data, i, BlocksData(Output, r.outputs)) &&
           At(data, j, SlotData(r.slots)) by {
      OperandsAt(data, r);
    }
    BlocksComplete(Input, data, 1, r.inputs);
    BlocksComplete(Output, data, i, r.outputs);
    SlotsComplete(data, j, r.slots);
  }

  lemma BodyJoined(data: seq<Datum>, r: Request, i: nat, j: nat, k: nat)
    requires ReadBlocks(Input, data, 1, |r.inputs|) == Accepted(r.inputs, i)
    requires ReadBlocks(Output, data, i, |r.outputs|) == Accepted(r.outputs, j)
    requires ReadSlots(data, j, |r.slots|) == Accepted(r.slots, k)
    requires |data| == k + 1 && data[k] == MeasureTiming(r.measure)
    ensures ParseBody(data, RequestCounts(r, |data|)) == Accepted(r, |data|)
  {
    hide ReadBlocks, ReadSlots;
  }

  lemma BodyComplete(data: seq<Datum>, r: Request)
    requires |data| == 2 + |RequestOperands(r)| && data[1..] == RequestOperands(r) + [MeasureTiming(r.measure)]
    ensures ParseBody(data, RequestCounts(r, |data|)) == Accepted(r, |data|)
  {
    hide At, ReadBlocks, ReadSlots, ParseBody;
    var i := 1 + |BlocksData(Input, r.inputs)|;
    LastElement(data, RequestOperands(r), MeasureTiming(r.measure));
    var j := i + |BlocksData(Output, r.outputs)|;
    OperandsRead(data, r, i, j);
    OperandsLength(r);
    BodyJoined(data, r, i, j, j + |r.slots|);
  }

  /** The counts in the header are not truncated when the packet size is not. */
  lemma HeaderExact(r: Request)
    requires 2 + |RequestOperands(r)| < UINT32_LIMIT
    ensures RequestPacket(r)[0] == RequestCounts(r, 2 + |RequestOperands(r)|)
  {
    BlocksDataLength(Input, r.inputs);
    BlocksDataLength(Output, r.outputs);
    Untruncated(2 + |RequestOperands(r)|);
    Untruncated(|r.inputs|);
    Untruncated(|r.outputs|);
    Untruncated(|r.slots|);
  }

  lemma PacketLongEnough(data: seq<Datum>)
    requires ParseRequest(data).Accepted?
    ensures |data| >= 2
  {
  }

  /** The packet from outside: a header, inputs with their dimensions, outputs with theirs, pools, and whether
    * to measure. */
  lemma RequestSections(r: Request)
    ensures var data, i := RequestPacket(r), 1 + |r.inputs| + DimensionCount(r.inputs);
            var j := i + |r.outputs| + DimensionCount(r.outputs);
            && |data| == j + |r.slots| + 1
            && data[0] == RequestInformation(|data| % UINT32_LIMIT, |r.inputs| % UINT32_LIMIT,
                                             |r.outputs| % UINT32_LIMIT, |r.slots| % UINT32_LIMIT)
            && Placed(data, 1, Input, r.inputs) && Placed(data, i, Output, r.outputs)
            && (forall k :: 0 <= k < |r.slots| ==> data[j + k] == PoolIdentifier(r.slots[k]))
            && data[|data| - 1] == MeasureTiming(r.measure)
  {
    hide Placed, BlocksData, DimensionCount;
    var data, a, b := RequestPacket(r), BlocksData(Input, r.inputs), BlocksData(Output, r.outputs);
    BlocksDataLength(Input, r.inputs);
    BlocksDataLength(Output, r.outputs);
    BlocksPlaced(Input, r.inputs);
    BlocksPlaced(Output, r.outputs);
    PlacedWithin([data[0]], a, b + SlotData(r.slots) + [MeasureTiming(r.measure)], Input, r.inputs);
    PlacedWithin([data[0]] + a, b, SlotData(r.slots) + [MeasureTiming(r.measure)], Output, r.outputs);
    assert data == [data[0]] + (a + (b + SlotData(r.slots) + [MeasureTiming(r.measure)]));
    assert data == ([data[0]] + a) + (b + (SlotData(r.slots) + [MeasureTiming(r.measure)]));
  }

  /** Whatever is accepted is exactly what the serializer makes of the parsed request. */
  lemma AcceptedRequest(data: seq<Datum>)
    requires ParseRequest(data).Accepted? && |data| < UINT32_LIMIT
    ensures data == RequestPacket(ParseRequest(data).value)
  {
    hide ParseBody, RequestOperands;
    PacketLongEnough(data);
    BodyAccepted(data, data[0]);
    HeaderExact(ParseRequest(data).value);
    assert data == [data[0]] + data[1..];
  }

  /** The parser inverts the serializer exactly on the requests whose packet size fits into 32 bits; all
    * others it rejects. Reads on serialized packets stay in range. */
  lemma RequestRoundTrip(r: Request)
    ensures ParseRequest(RequestPacket(r)) == Accepted(r, |RequestPacket(r)|) <==> |RequestPacket(r)| < UINT32_LIMIT
    ensures |RequestPacket(r)| >= UINT32_LIMIT ==> ParseRequest(RequestPacket(r)) == IllFormed
  {
    var data := RequestPacket(r);
    if |data| < UINT32_LIMIT {
      HeaderExact(r);
      assert data[1..] == RequestOperands(r) + [MeasureTiming(r.measure)];
      BodyComplete(data, r);
    } else {
      assert data[0].packetSize < UINT32_LIMIT;
    }
  }

  // ---------------------------------------------------------------- results

  datatype Result = Result(status: ErrorStatus, shapes: seq<Block>, timing: Timing)

  function ResultPacket(r: Result): seq<Datum> {
    [ResultInformation((2 + |BlocksData(Shape, r.shapes)|) % UINT32_LIMIT, r.status, |r.shapes| % UINT32_LIMIT)] +
    (BlocksData(Shape, r.shapes) + [ExecutionTiming(r.timing)])
  }

  lemma ResultSections(r: Result)
    ensures var data := ResultPacket(r);
            && |data| == 2 + |r.shapes| + DimensionCount(r.shapes)
            && data[0] == ResultInformation(|data| % UINT32_LIMIT, r.status, |r.shapes| % UINT32_LIMIT)
            && Placed(data, 1, Shape, r.shapes) && data[|data| - 1] == ExecutionTiming(r.timing)
  {
    hide Placed, BlocksData;
    var data := ResultPacket(r);
    BlocksDataLength(Shape, r.shapes);
    BlocksPlaced(Shape, r.shapes);
    PlacedWithin([data[0]], BlocksData(Shape, r.shapes), [ExecutionTiming(r.timing)], Shape, r.shapes);
  }

  method SerializeResult(r: Result) returns (data: seq<Datum>)
    ensures data == ResultPacket(r)
  {
    var shapes := CountElements(r.shapes, Shape);
    var header := ResultInformation((2 + shapes) % UINT32_LIMIT, r.status, |r.shapes| % UINT32_LIMIT);
    data := PackBlocks(Shape, [header], r.shapes);
    data := data + [ExecutionTiming(r.timing)];
  }

  function ParseResult(data: seq<Datum>): Parsed<Result> {
    if |data| == 0 || !data[0].ResultInformation? then IllFormed
    else if |data| != data[0].packetSize then IllFormed
    else
      var shapes := ReadBlocks(Shape, data, 1, data[0].numberOfOperands);
      if !shapes.Accepted? then (if shapes.IllFormed? then IllFormed else OutOfRange)
      else if shapes.index >= |data| then OutOfRange
      else if !data[shapes.index].ExecutionTiming? then IllFormed
      else if shapes.index + 1 != data[0].packetSize then IllFormed
      else Accepted(Result(data[0].errorStatus, shapes.value, data[shapes.index].timing), shapes.index + 1)
  }

  method DeserializeResult(data: seq<Datum>) returns (r: Parsed<Result>)
    ensures r == ParseResult(data)
  {
    hide ReadBlocks;
    if |data| == 0 || !data[0].ResultInformation? { return IllFormed; }
    var info := data[0];
    if |data| != info.packetSize { return IllFormed; }
    var shapes := UnpackBlocks(Shape, data, 1, info.numberOfOperands);
    if !shapes.Accepted? { return if shapes.IllFormed? then IllFormed else OutOfRange; }
    if shapes.index >= |data| { return OutOfRange; }
    if !data[shapes.index].ExecutionTiming? { return IllFormed; }
    if shapes.index + 1 != info.packetSize { return IllFormed; }
    return Accepted(Result(info.errorStatus, shapes.value, data[shapes.index].timing), shapes.index + 1);
  }

  lemma ResultHeaderExact(r: Result)
    requires 2 + |BlocksData(Shape, r.shapes)| < UINT32_LIMIT
    ensures ResultPacket(r)[0] == ResultInformation(2 + |BlocksData(Shape, r.shapes)|, r.status, |r.shapes|)
  {
    BlocksDataLength(Shape, r.shapes);
    Untruncated(2 + |BlocksData(Shape, r.shapes)|);
    Untruncated(|r.shapes|);
  }

  lemma ResultBodyAccepted(data: seq<Datum>)
    requires ParseResult(data).Accepted?
    ensures var r := ParseResult(data).value;
            && data[1..] == BlocksData(Shape, r.shapes) + [ExecutionTiming(r.timing)]
            && data[0] == ResultInformation(|data|, r.status, |r.shapes|)
  {
    var r := ParseResult(data).value;
    BlocksAccepted(Shape, data, 1, data[0].numberOfOperands);
    LastElement(data, BlocksData(Shape, r.shapes), ExecutionTiming(r.timing));
  }

  lemma AcceptedResult(data: seq<Datum>)
    requires ParseResult(data).Accepted? && |data| < UINT32_LIMIT
    ensures data == ResultPacket(ParseResult(data).value)
  {
    ResultBodyAccepted(data);
    ResultHeaderExact(ParseResult(data).value);
    assert data == [data[0]] + data[1..];
  }

  lemma ResultBodyComplete(data: seq<Datum>, r: Result)
    requires |data| == 2 + |BlocksData(Shape, r.shapes)|
    requires data[1..] == BlocksData(Shape, r.shapes) + [ExecutionTiming(r.timing)]
    requires data[0] == ResultInformation(|data|, r.status, |r.shapes|)
    ensures ParseResult(data) == Accepted(r, |data|)
  {
    LastElement(data, BlocksData(Shape, r.shapes), ExecutionTiming(r.timing));
    BlocksComplete(Shape, data, 1, r.shapes);
  }

  lemma ResultRoundTrip(r: Result)
    ensures ParseResult(ResultPacket(r)) == Accepted(r, |ResultPacket(r)|) <==> |ResultPacket(r)| < UINT32_LIMIT
    ensures |ResultPacket(r)| >= UINT32_LIMIT ==> ParseResult(ResultPacket(r)) == IllFormed
  {
    var data := ResultPacket(r);
    if |data| < UINT32_LIMIT {
      ResultHeaderExact(r);
      assert data[1..] == BlocksData(Shape, r.shapes) + [ExecutionTiming(r.timing)];
      ResultBodyComplete(data, r);
    } else {
      assert data[0].packetSize < UINT32_LIMIT;
    }
  }
}
