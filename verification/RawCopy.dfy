/**
 tpu_sync/core/utils.h: the byte ranges a raw copy of major-dimension slices
 moves between a device buffer and a host buffer.
 */
module RawCopy {
  import opened Arith
  import TiledLayout
  import MajorSlices

  datatype Chunk = Chunk(src: int, dst: int, size: int)

  datatype CopyError = LengthMismatch | NegativeSpec | BufferTooSmall | SourceRange | DestinationRange

  datatype Result<T> = Ok(value: T) | Err(error: CopyError)

  /** Source offsets, destination offsets and sizes, in major-dimension indices. */
  datatype Spec = Spec(src: seq<int>, dst: seq<int>, size: seq<int>)

  predicate SameLengths(spec: Spec)
  {
    |spec.src| == |spec.dst| == |spec.size|
  }

  predicate NonNegative(spec: Spec)
    requires SameLengths(spec)
  {
    forall i :: 0 <= i < |spec.src| ==> spec.src[i] >= 0 && spec.dst[i] >= 0 && spec.size[i] >= 0
  }

  method ValidatePartialSpec(spec: Spec) returns (r: Result<()>)
    ensures r == Err(LengthMismatch) <==> !SameLengths(spec)
    ensures r.Ok? <==> SameLengths(spec) && NonNegative(spec)
  {
    var present := spec.src != [] || spec.dst != [] || spec.size != [];
    if present && (|spec.src| != |spec.dst| || |spec.src| != |spec.size|) {
      return Err(LengthMismatch);
    }
    for i := 0 to |spec.src|
      invariant forall j :: 0 <= j < i ==> spec.src[j] >= 0 && spec.dst[j] >= 0 && spec.size[j] >= 0
    {
      if spec.src[i] < 0 || spec.dst[i] < 0 || spec.size[i] < 0 {
        return Err(NegativeSpec);
      }
    }
    return Ok(());
  }

  function ChunkAt(spec: Spec, slice: int, i: nat): (c: Chunk)
    requires SameLengths(spec) && i < |spec.src|
  {
    Chunk(spec.src[i] * slice, spec.dst[i] * slice, spec.size[i] * slice)
  }

  /** Every chunk stays inside a source of `srcSize` and a destination of `dstSize` bytes. */
  predicate Fits(spec: Spec, slice: int, srcSize: int, dstSize: int)
    requires SameLengths(spec)
  {
    forall i :: 0 <= i < |spec.src| ==> Within(ChunkAt(spec, slice, i), srcSize, dstSize)
  }

  predicate Within(c: Chunk, srcSize: int, dstSize: int)
  {
    c.src + c.size <= srcSize && c.dst + c.size <= dstSize
  }

  // ---- 64-bit arithmetic ----

  const MAX64 := 0x7fff_ffff_ffff_ffff
  const RANGE64 := 0x1_0000_0000_0000_0000

  predicate InInt64(x: int)
  {
    -MAX64 - 1 <= x <= MAX64
  }

  /** An overflowing 64-bit operation is taken to wrap around. */
  function Wrap(x: int): (r: int)
    ensures InInt64(r) && (InInt64(x) ==> r == x)
  {
    var low := x % RANGE64;
    if low > MAX64 then low - RANGE64 else low
  }

  /** The chunk as the code computes it. */
  function WrappedChunkAt(spec: Spec, slice: int, i: nat): (c: Chunk)
    requires SameLengths(spec) && i < |spec.src|
  {
    Chunk(Wrap(spec.src[i] * slice), Wrap(spec.dst[i] * slice), Wrap(spec.size[i] * slice))
  }

  predicate WrappedFits(spec: Spec, slice: int, srcSize: int, dstSize: int)
    requires SameLengths(spec)
  {
    forall i :: 0 <= i < |spec.src| ==> WrappedWithin(WrappedChunkAt(spec, slice, i), srcSize, dstSize)
  }

  predicate WrappedWithin(c: Chunk, srcSize: int, dstSize: int)
  {
    Wrap(c.src + c.size) <= srcSize && Wrap(c.dst + c.size) <= dstSize
  }

  /** Entry `i` is the first one refused, with this error. */
  predicate RefusedAt(spec: Spec, slice: int, srcSize: int, dstSize: int, i: nat, error: CopyError)
    requires SameLengths(spec)
  {
    && i < |spec.src|
    && (forall j :: 0 <= j < i ==> WrappedWithin(WrappedChunkAt(spec, slice, j), srcSize, dstSize))
    && var c := WrappedChunkAt(spec, slice, i);
       if Wrap(c.src + c.size) > srcSize then error == SourceRange
       else Wrap(c.dst + c.size) > dstSize && error == DestinationRange
  }

  predicate Refused(spec: Spec, slice: int, srcSize: int, dstSize: int, error: CopyError)
    requires SameLengths(spec)
  {
    exists i :: 0 <= i < |spec.src| && RefusedAt(spec, slice, srcSize, dstSize, i, error)
  }

  /** No product and no sum the loop forms for entry `i` leaves 64 bits. */
  predicate EntryInRange(spec: Spec, slice: int, i: nat)
    requires SameLengths(spec) && i < |spec.src|
  {
    var c := ChunkAt(spec, slice, i);
    InInt64(c.src) && InInt64(c.dst) && InInt64(c.size) && InInt64(c.src + c.size) && InInt64(c.dst + c.size)
  }

  predicate NoOverflow(spec: Spec, slice: int)
    requires SameLengths(spec)
  {
    forall i :: 0 <= i < |spec.src| ==> EntryInRange(spec, slice, i)
  }

  /** What a caller can check beforehand: every range ends within the addressable slices. */
  predicate Addressable(spec: Spec, slice: int)
    requires SameLengths(spec)
  {
    slice > 0 ==> forall i :: 0 <= i < |spec.src| ==>
      spec.src[i] + spec.size[i] <= MAX64 / slice && spec.dst[i] + spec.size[i] <= MAX64 / slice
  }

  lemma ProductBound(n: int, slice: int)
    requires slice > 0
    ensures n * slice <= MAX64 <==> n <= MAX64 / slice
  {
    var q := MAX64 / slice;
    assert MAX64 == q * slice + MAX64 % slice;
    if n <= q {
      MulMonotone(n, q, slice);
    } else {
      MulMonotone(q + 1, n, slice);
    }
  }

  lemma {:induction false} EntryInRangeExactly(spec: Spec, slice: int, i: nat)
    requires SameLengths(spec) && NonNegative(spec) && slice >= 0 && i < |spec.src|
    ensures EntryInRange(spec, slice, i) <==>
              (slice > 0 ==>
                 spec.src[i] + spec.size[i] <= MAX64 / slice && spec.dst[i] + spec.size[i] <= MAX64 / slice)
  {
    var a, b, n := spec.src[i], spec.dst[i], spec.size[i];
    MulMonotone(0, a, slice);
    MulMonotone(0, b, slice);
    MulMonotone(0, n, slice);
    assert (a + n) * slice == a * slice + n * slice && (b + n) * slice == b * slice + n * slice;
    if slice > 0 {
      ProductBound(a + n, slice);
      ProductBound(b + n, slice);
    }
  }

  /** The bound is exact: it holds if and only if nothing overflows. */
  lemma NoOverflowExactly(spec: Spec, slice: int)
    requires SameLengths(spec) && NonNegative(spec) && slice >= 0
    ensures NoOverflow(spec, slice) <==> Addressable(spec, slice)
  {
    forall i | 0 <= i < |spec.src|
      ensures EntryInRange(spec, slice, i) <==>
                (slice > 0 ==>
                   spec.src[i] + spec.size[i] <= MAX64 / slice && spec.dst[i] + spec.size[i] <= MAX64 / slice)
    {
      EntryInRangeExactly(spec, slice, i);
    }
  }

  lemma EntryIsExact(spec: Spec, slice: int, i: nat, srcSize: int, dstSize: int)
    requires SameLengths(spec) && i < |spec.src| && EntryInRange(spec, slice, i)
    ensures WrappedChunkAt(spec, slice, i) == ChunkAt(spec, slice, i)
    ensures WrappedWithin(WrappedChunkAt(spec, slice, i), srcSize, dstSize)
       <==> Within(ChunkAt(spec, slice, i), srcSize, dstSize)
  {
  }

  /** Without overflow the computed chunks are the requested ones. */
  lemma WithoutOverflowExact(spec: Spec, slice: int, srcSize: int, dstSize: int)
    requires SameLengths(spec) && NoOverflow(spec, slice)
    ensures WrappedFits(spec, slice, srcSize, dstSize) <==> Fits(spec, slice, srcSize, dstSize)
    ensures forall i :: 0 <= i < |spec.src| ==> WrappedChunkAt(spec, slice, i) == ChunkAt(spec, slice, i)
  {
    forall i | 0 <= i < |spec.src|
      ensures WrappedChunkAt(spec, slice, i) == ChunkAt(spec, slice, i)
      ensures WrappedWithin(WrappedChunkAt(spec, slice, i), srcSize, dstSize)
         <==> Within(ChunkAt(spec, slice, i), srcSize, dstSize)
    {
      EntryIsExact(spec, slice, i, srcSize, dstSize);
    }
  }

  /** A request the bound shuts out fits no buffer. */
  lemma OnlyAddressableFits(spec: Spec, slice: int, srcSize: int, dstSize: int)
    requires SameLengths(spec) && NonNegative(spec) && slice >= 0 && srcSize <= MAX64 && dstSize <= MAX64
    requires Fits(spec, slice, srcSize, dstSize)
    ensures Addressable(spec, slice)
  {
    NoOverflowExactly(spec, slice);
    if !NoOverflow(spec, slice) {
      var i :| 0 <= i < |spec.src| && !EntryInRange(spec, slice, i);
      assert Within(ChunkAt(spec, slice, i), srcSize, dstSize);
      TooFarToFit(spec, slice, i);
    }
  }

  lemma TooFarToFit(spec: Spec, slice: int, i: nat)
    requires SameLengths(spec) && NonNegative(spec) && slice >= 0 && i < |spec.src| && !EntryInRange(spec, slice, i)
    ensures var c := ChunkAt(spec, slice, i);
            c.src + c.size > MAX64 || c.dst + c.size > MAX64
  {
    MulMonotone(0, spec.src[i], slice);
    MulMonotone(0, spec.dst[i], slice);
    MulMonotone(0, spec.size[i], slice);
  }

  /** Slice 2^52 of a one-slice buffer is accepted and copies slice 0. */
  lemma OverflowIsAccepted()
    ensures var spec := Spec([0x10_0000_0000_0000], [0], [1]);
            && SameLengths(spec) && NonNegative(spec) && !Addressable(spec, 4096)
            && !Fits(spec, 4096, 4096, 4096)
            && WrappedFits(spec, 4096, 4096, 4096)
            && WrappedChunkAt(spec, 4096, 0) == Chunk(0, 0, 4096)
  {
    var spec := Spec([0x10_0000_0000_0000], [0], [1]);
    assert ChunkAt(spec, 4096, 0).src == RANGE64;
  }

  /**
   Accepts as the wrapped products and sums decide. If nothing overflows that is exactly
   when every requested slice fits, and the list is then the requested one.
   */
  method ComputeAndValidateChunks(slice: int, physicalSize: int, cpuSize: int, partial: bool, spec: Spec, d2h: bool)
    returns (r: Result<seq<Chunk>>)
    requires SameLengths(spec)
    ensures !partial ==> r == if cpuSize < physicalSize then Err(BufferTooSmall) else Ok([Chunk(0, 0, physicalSize)])
    ensures partial ==> (r.Ok? <==> if d2h then WrappedFits(spec, slice, physicalSize, cpuSize)
                                    else WrappedFits(spec, slice, cpuSize, physicalSize))
    ensures partial && r.Ok? ==> |r.value| == |spec.src|
                                 && forall i :: 0 <= i < |spec.src| ==> r.value[i] == WrappedChunkAt(spec, slice, i)
    ensures partial && r.Err? ==>
              if d2h then Refused(spec, slice, physicalSize, cpuSize, r.error)
              else Refused(spec, slice, cpuSize, physicalSize, r.error)
    ensures partial && NoOverflow(spec, slice) ==>
              (r.Ok? <==> if d2h then Fits(spec, slice, physicalSize, cpuSize)
                          else Fits(spec, slice, cpuSize, physicalSize))
    ensures partial && NoOverflow(spec, slice) && r.Ok? ==> r.value == Chunks(spec, slice)
  {
    if !partial {
      if d2h {
        if cpuSize < physicalSize {
          return Err(BufferTooSmall);
        }
      } else {
        if cpuSize < physicalSize {
          return Err(BufferTooSmall);
        }
      }
      return Ok([Chunk(0, 0, physicalSize)]);
    }
    if NoOverflow(spec, slice) {
      WithoutOverflowExact(spec, slice, if d2h then physicalSize else cpuSize, if d2h then cpuSize else physicalSize);
    }
    r := WrappedChunks(slice, physicalSize, cpuSize, spec, d2h);
  }

  method WrappedChunks(slice: int, physicalSize: int, cpuSize: int, spec: Spec, d2h: bool)
    returns (r: Result<seq<Chunk>>)
    requires SameLengths(spec)
    ensures r.Ok? <==> if d2h then WrappedFits(spec, slice, physicalSize, cpuSize)
                       else WrappedFits(spec, slice, cpuSize, physicalSize)
    ensures r.Ok? ==> |r.value| == |spec.src|
                      && forall i :: 0 <= i < |spec.src| ==> r.value[i] == WrappedChunkAt(spec, slice, i)
    ensures r.Err? ==> if d2h then Refused(spec, slice, physicalSize, cpuSize, r.error)
                       else Refused(spec, slice, cpuSize, physicalSize, r.error)
  {
    var srcSize, dstSize := if d2h then physicalSize else cpuSize, if d2h then cpuSize else physicalSize;
    var chunks: seq<Chunk> := [];
    for i := 0 to |spec.src|
      invariant |chunks| == i && forall j :: 0 <= j < i ==> chunks[j] == WrappedChunkAt(spec, slice, j)
      invariant forall j :: 0 <= j < i ==>
                  WrappedWithin(WrappedChunkAt(spec, slice, j), srcSize, dstSize)
    {
      var srcOffset := Wrap(spec.src[i] * slice);
      var dstOffset := Wrap(spec.dst[i] * slice);
      var sizeToCopy := Wrap(spec.size[i] * slice);
      var chunk := Chunk(srcOffset, dstOffset, sizeToCopy);
      assert WrappedChunkAt(spec, slice, i) == chunk;
      var error := CheckRange(chunk, srcSize, dstSize);
      if error.Err? {
        assert RefusedAt(spec, slice, srcSize, dstSize, i, error.error);
        return Err(error.error);
      }
      chunks := chunks + [chunk];
    }
    return Ok(chunks);
  }

  /** The two range tests, source before destination. */
  method CheckRange(c: Chunk, srcSize: int, dstSize: int) returns (r: Result<()>)
    ensures r.Ok? <==> WrappedWithin(c, srcSize, dstSize)
    ensures r == Err(SourceRange) <==> Wrap(c.src + c.size) > srcSize
    ensures r.Err? ==> r.error == SourceRange || r.error == DestinationRange
  {
    if Wrap(c.src + c.size) > srcSize { return Err(SourceRange); }
    if Wrap(c.dst + c.size) > dstSize { return Err(DestinationRange); }
    return Ok(());
  }

  function Chunks(spec: Spec, slice: int): (r: seq<Chunk>)
    requires SameLengths(spec)
    ensures |r| == |spec.src|
  {
    seq(|spec.src|, i requires 0 <= i < |spec.src| => ChunkAt(spec, slice, i))
  }

  lemma {:induction false} MajorRange(i: int, cells: int, offset: int, item: int, start: int, count: int)
    requires item > 0 && i * cells <= offset < (i + 1) * cells
    ensures start <= i < start + count ==>
              start * (cells * item) <= offset * item && offset * item + item <= (start + count) * (cells * item)
    ensures !(start <= i < start + count) ==>
              offset * item + item <= start * (cells * item) || (start + count) * (cells * item) <= offset * item
  {
    MajorSlices.ScaleRange(i, cells, offset, item);
    assert cells > 0 by { assert (i + 1) * cells == i * cells + cells; }
    assert (offset + 1) * item == offset * item + item;
    var slice := cells * item;
    if start <= i < start + count {
      MulMonotone(start, i, slice);
      MulMonotone(i + 1, start + count, slice);
    } else if i < start {
      MulMonotone(i + 1, start, slice);
    } else {
      MulMonotone(start + count, i, slice);
    }
  }

  // ---- copying there and back ----

  type Buffer = seq<int>

  predicate InRange(c: Chunk, srcSize: int, dstSize: int)
  {
    0 <= c.size && 0 <= c.src && c.src + c.size <= srcSize && 0 <= c.dst && c.dst + c.size <= dstSize
  }

  predicate AllInRange(chunks: seq<Chunk>, srcSize: int, dstSize: int)
  {
    forall i :: 0 <= i < |chunks| ==> InRange(chunks[i], srcSize, dstSize)
  }

  function Copy(dst: Buffer, src: Buffer, c: Chunk): (r: Buffer)
    requires InRange(c, |src|, |dst|)
    ensures |r| == |dst|
  {
    dst[..c.dst] + src[c.src..c.src + c.size] + dst[c.dst + c.size..]
  }

  /** The chunks of one transfer, applied in list order. */
  function CopyAll(dst: Buffer, src: Buffer, chunks: seq<Chunk>): (r: Buffer)
    requires AllInRange(chunks, |src|, |dst|)
    ensures |r| == |dst|
    decreases |chunks|
  {
    if chunks == [] then dst else CopyAll(Copy(dst, src, chunks[0]), src, chunks[1..])
  }

  function Back(c: Chunk): (r: Chunk)
  {
    Chunk(c.dst, c.src, c.size)
  }

  predicate Reverses(back: seq<Chunk>, chunks: seq<Chunk>)
  {
    |back| == |chunks| && forall i :: 0 <= i < |chunks| ==> back[i] == Back(chunks[i])
  }

  function Exchange(spec: Spec): (r: Spec)
  {
    Spec(spec.dst, spec.src, spec.size)
  }

  predicate DisjointTargets(chunks: seq<Chunk>)
  {
    forall i, j :: 0 <= i < j < |chunks| ==>
      chunks[i].dst + chunks[i].size <= chunks[j].dst || chunks[j].dst + chunks[j].size <= chunks[i].dst
  }

  predicate Holds(dst: Buffer, src: Buffer, c: Chunk)
    requires InRange(c, |src|, |dst|)
  {
    dst[c.dst..c.dst + c.size] == src[c.src..c.src + c.size]
  }

  lemma {:induction false} CopyAllKeeps(dst: Buffer, src: Buffer, chunks: seq<Chunk>, d: Chunk)
    requires AllInRange(chunks, |src|, |dst|) && InRange(d, |src|, |dst|) && Holds(dst, src, d)
    requires forall i :: 0 <= i < |chunks| ==>
               chunks[i].dst + chunks[i].size <= d.dst || d.dst + d.size <= chunks[i].dst
    ensures Holds(CopyAll(dst, src, chunks), src, d)
    decreases |chunks|
  {
    if chunks != [] {
      CopyAllKeeps(Copy(dst, src, chunks[0]), src, chunks[1..], d);
    }
  }

  /** After a transfer with disjoint targets every chunk has arrived. */
  lemma {:induction false} CopyAllHolds(dst: Buffer, src: Buffer, chunks: seq<Chunk>, i: nat)
    requires AllInRange(chunks, |src|, |dst|) && DisjointTargets(chunks) && i < |chunks|
    ensures Holds(CopyAll(dst, src, chunks), src, chunks[i])
    decreases |chunks|
  {
    var next := Copy(dst, src, chunks[0]);
    if i == 0 {
      CopyAllKeeps(next, src, chunks[1..], chunks[0]);
    } else {
      CopyAllHolds(next, src, chunks[1..], i - 1);
    }
  }

  // ---- what a transfer of major slices moves ----

  /** One 2D tile over the minor dimensions, and later tiles that only subdivide it. */
  predicate SlicedLayout(dims: seq<int>, layout: MajorSlices.Layout)
  {
    && |dims| >= 3 && layout.Layout? && MajorSlices.MajorOutermost(layout.minorToMajor, |dims|)
    && layout.tiles != [] && |layout.tiles[0]| == 2
    && MajorSlices.TilesBelowMajor(layout.tiles, |dims|)
    && MajorSlices.Subdivides(
         TiledLayout.TileMinor(MajorSlices.Below(dims, layout.minorToMajor, MajorSlices.Zeros(|dims|)), layout.tiles[0]),
         layout.tiles[1..])
  }

  /** The slice size GetMajorSliceByteSize returns for such a layout, from its first tile alone. */
  function SliceBytes(dims: seq<int>, layout: MajorSlices.Layout, itemSize: int): (r: int)
    requires SlicedLayout(dims, layout)
  {
    MajorSlices.SliceCells(dims, layout.minorToMajor, MajorSlices.TilesUsed(layout, |dims|)) * itemSize
  }

  /**
   Copying the chunk list brings the bytes of the source's cell `at` to the destination's
   cell `to` and changes no byte outside the destination slices.
   */
  predicate Transferred(at: int, to: int, item: int, chunks: seq<Chunk>, src: Buffer, dst: Buffer)
    requires item >= 0
  {
    && AllInRange(chunks, |src|, |dst|)
    && 0 <= at * item && at * item + item <= |src| && 0 <= to * item && to * item + item <= |dst|
    && CopyAll(dst, src, chunks)[to * item..to * item + item] == src[at * item..at * item + item]
    && AgreeOutside(CopyAll(dst, src, chunks), dst, chunks)
  }

  /**
   A validated transfer with the slice size GetMajorSliceByteSize returns, in either
   direction, moves every element of the requested majors whole to its place in the
   destination slice and changes nothing else.
   */
  lemma {:induction false} TransferMovesRequestedMajors(dims: seq<int>, layout: MajorSlices.Layout, itemSize: int,
                                                        slice: int, spec: Spec, src: Buffer, dst: Buffer,
                                                        element: seq<int>, i: nat)
    requires SlicedLayout(dims, layout) && itemSize > 0 && slice == SliceBytes(dims, layout, itemSize)
    requires SameLengths(spec) && NonNegative(spec) && Fits(spec, slice, |src|, |dst|)
    requires DisjointTargets(Chunks(spec, slice))
    requires i < |spec.src| && TiledLayout.InShape(element, dims)
    requires spec.src[i] <= element[0] < spec.src[i] + spec.size[i]
    ensures var moved := element[0 := element[0] - spec.src[i] + spec.dst[i]];
            Transferred(TiledLayout.DeviceOffset(dims, layout.minorToMajor, layout.tiles, element),
                        TiledLayout.DeviceOffset(dims, layout.minorToMajor, layout.tiles, moved),
                        itemSize, Chunks(spec, slice), src, dst)
  {
    SliceBytesOfAllTiles(dims, layout, itemSize);
    ElementArrives(dims, layout.minorToMajor, layout.tiles, itemSize, slice, spec, src, dst, element, i);
  }

  lemma SliceBytesOfAllTiles(dims: seq<int>, layout: MajorSlices.Layout, itemSize: int)
    requires SlicedLayout(dims, layout)
    ensures SliceBytes(dims, layout, itemSize)
         == MajorSlices.SliceCells(dims, layout.minorToMajor, layout.tiles) * itemSize
  {
    MajorSlices.SubtilesKeepSliceCells(dims, layout.minorToMajor, layout.tiles);
  }

  lemma {:induction false} ElementArrives(dims: seq<int>, m: seq<int>, tiles: seq<seq<int>>, itemSize: int, slice: int,
                                          spec: Spec, src: Buffer, dst: Buffer, element: seq<int>, i: nat)
    requires MajorSlices.MajorOutermost(m, |dims|) && MajorSlices.TilesBelowMajor(tiles, |dims|) && itemSize > 0
    requires slice == MajorSlices.SliceCells(dims, m, tiles) * itemSize
    requires SameLengths(spec) && NonNegative(spec) && Fits(spec, slice, |src|, |dst|)
    requires DisjointTargets(Chunks(spec, slice))
    requires i < |spec.src| && TiledLayout.InShape(element, dims)
    requires spec.src[i] <= element[0] < spec.src[i] + spec.size[i]
    ensures var moved := element[0 := element[0] - spec.src[i] + spec.dst[i]];
            Transferred(TiledLayout.DeviceOffset(dims, m, tiles, element),
                        TiledLayout.DeviceOffset(dims, m, tiles, moved), itemSize, Chunks(spec, slice), src, dst)
  {
    var major := element[0] - spec.src[i] + spec.dst[i];
    MajorSlices.SliceHoldsMajorIndex(dims, m, tiles, element, major);
    BytesArrive(TiledLayout.DeviceOffset(dims, m, tiles, element),
                TiledLayout.DeviceOffset(dims, m, tiles, element[0 := major]), element[0],
                MajorSlices.SliceCells(dims, m, tiles), itemSize, slice, spec, src, dst, i);
  }

  /** The same for cells `at` and `to` of slices `major` and its destination. */
  lemma {:induction false} BytesArrive(at: int, to: int, major: int, cells: int, item: int, slice: int,
                                       spec: Spec, src: Buffer, dst: Buffer, i: nat)
    requires item > 0 && slice == cells * item && major * cells <= at < (major + 1) * cells
    requires SameLengths(spec) && NonNegative(spec) && Fits(spec, slice, |src|, |dst|)
    requires DisjointTargets(Chunks(spec, slice)) && i < |spec.src|
    requires spec.src[i] <= major < spec.src[i] + spec.size[i]
    requires to == at + (major - spec.src[i] + spec.dst[i] - major) * cells
    ensures Transferred(at, to, item, Chunks(spec, slice), src, dst)
  {
    SlicePositive(major, cells, at, item);
    PlaceInRange(at, major, cells, item, spec.src[i], spec.dst[i], spec.size[i]);
    ChunkArrives(spec, slice, src, dst, i, at * item - spec.src[i] * slice, item);
  }

  /** Any `n` bytes of a chunk arrive as far into its target as they were in its source. */
  lemma {:induction false} ChunkArrives(spec: Spec, slice: int, src: Buffer, dst: Buffer, i: nat, k: int, n: int)
    requires SameLengths(spec) && NonNegative(spec) && slice >= 0 && Fits(spec, slice, |src|, |dst|)
    requires DisjointTargets(Chunks(spec, slice)) && i < |spec.src|
    requires 0 <= k && 0 <= n && k + n <= spec.size[i] * slice
    ensures var chunks := Chunks(spec, slice);
            var from, to := spec.src[i] * slice + k, spec.dst[i] * slice + k;
            && AllInRange(chunks, |src|, |dst|)
            && 0 <= from && from + n <= |src| && 0 <= to && to + n <= |dst|
            && CopyAll(dst, src, chunks)[to..to + n] == src[from..from + n]
            && AgreeOutside(CopyAll(dst, src, chunks), dst, chunks)
  {
    var chunks := Chunks(spec, slice);
    ChunksFit(spec, slice, |src|, |dst|);
    CopyAllHolds(dst, src, chunks, i);
    CopyAllOutside(dst, src, chunks);
    assert InRange(chunks[i], |src|, |dst|) && chunks[i] == ChunkAt(spec, slice, i);
    InsideChunk(CopyAll(dst, src, chunks), src, chunks[i], k, n);
  }

  lemma SlicePositive(i: int, cells: int, at: int, item: int)
    requires item > 0 && i * cells <= at < (i + 1) * cells
    ensures cells * item > 0
  {
    assert (i + 1) * cells == i * cells + cells;
    MulMonotone(1, cells, item);
  }

  lemma {:induction false} PlaceInRange(at: int, i: int, cells: int, item: int, a: int, b: int, count: int)
    requires item > 0 && i * cells <= at < (i + 1) * cells && a <= i < a + count
    ensures var slice := cells * item;
            && 0 <= at * item - a * slice && at * item - a * slice + item <= count * slice
            && (at + (i - a + b - i) * cells) * item - b * slice == at * item - a * slice
  {
    MajorRange(i, cells, at, item, a, count);
    ShiftBytes(at, cells, item, a, b);
    assert i - a + b - i == b - a;
    assert (a + count) * (cells * item) == a * (cells * item) + count * (cells * item);
  }

  lemma {:induction false} ChunksFit(spec: Spec, slice: int, srcSize: int, dstSize: int)
    requires SameLengths(spec) && NonNegative(spec) && slice >= 0 && Fits(spec, slice, srcSize, dstSize)
    ensures AllInRange(Chunks(spec, slice), srcSize, dstSize)
  {
    forall i | 0 <= i < |spec.src|
      ensures InRange(Chunks(spec, slice)[i], srcSize, dstSize)
    {
      MulMonotone(0, spec.src[i], slice);
      MulMonotone(0, spec.dst[i], slice);
      MulMonotone(0, spec.size[i], slice);
      assert Within(ChunkAt(spec, slice, i), srcSize, dstSize);
    }
  }

  lemma {:induction false} CopyAllOutside(dst: Buffer, src: Buffer, chunks: seq<Chunk>)
    requires AllInRange(chunks, |src|, |dst|)
    ensures AgreeOutside(CopyAll(dst, src, chunks), dst, chunks)
    decreases |chunks|
  {
    if chunks != [] {
      var next := Copy(dst, src, chunks[0]);
      CopyAllOutside(next, src, chunks[1..]);
      forall p | 0 <= p < |dst| && !Covered(chunks, p)
        ensures CopyAll(dst, src, chunks)[p] == dst[p]
      {
        assert !Covered(chunks[1..], p);
        assert !(chunks[0].dst <= p < chunks[0].dst + chunks[0].size);
      }
    }
  }

  lemma ShiftBytes(offset: int, cells: int, item: int, a: int, b: int)
    ensures (offset + (b - a) * cells) * item == offset * item + b * (cells * item) - a * (cells * item)
  {
    assert (b - a) * cells == b * cells - a * cells;
    MulAssoc(b, cells, item);
    MulAssoc(a, cells, item);
  }

  lemma InsideChunk(dst: Buffer, src: Buffer, c: Chunk, k: int, n: int)
    requires InRange(c, |src|, |dst|) && Holds(dst, src, c) && 0 <= k && 0 <= n && k + n <= c.size
    ensures dst[c.dst + k..c.dst + k + n] == src[c.src + k..c.src + k + n]
  {
    var a, b := dst[c.dst + k..c.dst + k + n], src[c.src + k..c.src + k + n];
    forall j | 0 <= j < n
      ensures a[j] == b[j]
    {
      assert dst[c.dst..c.dst + c.size][k + j] == src[c.src..c.src + c.size][k + j];
    }
  }

  predicate Covered(chunks: seq<Chunk>, p: int)
  {
    exists i :: 0 <= i < |chunks| && chunks[i].dst <= p < chunks[i].dst + chunks[i].size
  }

  /** `a` and `b` differ only where some chunk writes. */
  predicate AgreeOutside(a: Buffer, b: Buffer, chunks: seq<Chunk>)
  {
    |a| == |b| && forall p :: 0 <= p < |a| && !Covered(chunks, p) ==> a[p] == b[p]
  }

  lemma {:induction false} CopiesRestore(stale: Buffer, original: Buffer, host: Buffer, chunks: seq<Chunk>)
    requires AllInRange(chunks, |host|, |stale|)
    requires AgreeOutside(stale, original, chunks)
    requires forall i :: 0 <= i < |chunks| ==> Holds(original, host, chunks[i])
    ensures CopyAll(stale, host, chunks) == original
    decreases |chunks|
  {
    if chunks == [] {
      assert forall p :: 0 <= p < |stale| ==> !Covered(chunks, p);
    } else {
      var next := Copy(stale, host, chunks[0]);
      CopyNarrows(stale, original, host, chunks);
      CopiesRestore(next, original, host, chunks[1..]);
    }
  }

  lemma {:induction false} CopyNarrows(stale: Buffer, original: Buffer, host: Buffer, chunks: seq<Chunk>)
    requires chunks != [] && AllInRange(chunks, |host|, |stale|)
    requires AgreeOutside(stale, original, chunks) && Holds(original, host, chunks[0])
    ensures AgreeOutside(Copy(stale, host, chunks[0]), original, chunks[1..])
  {
    var c := chunks[0];
    var next := Copy(stale, host, c);
    forall p | 0 <= p < |next| && !Covered(chunks[1..], p)
      ensures next[p] == original[p]
    {
      if c.dst <= p < c.dst + c.size {
        assert next[p] == host[c.src..c.src + c.size][p - c.dst];
        assert original[p] == original[c.dst..c.dst + c.size][p - c.dst];
      } else {
        assert next[p] == stale[p];
        assert forall i :: 1 <= i < |chunks| ==> chunks[i] == chunks[1..][i - 1];
        assert !Covered(chunks, p);
      }
    }
  }

  /**
   Device to host and back: a device-to-host transfer whose host ranges are
   disjoint, followed by the host-to-device transfer of the exchanged offset
   lists, restores a device buffer that was overwritten only in the moved
   slices. Both chunk lists pass validation together.
   */
  lemma {:induction false} RoundTripRestoresDevice(spec: Spec, slice: int, device: Buffer, host: Buffer, stale: Buffer)
    requires SameLengths(spec) && NonNegative(spec) && slice >= 0
    requires Fits(spec, slice, |device|, |host|)
    requires DisjointTargets(Chunks(spec, slice))
    requires AgreeOutside(stale, device, Chunks(Exchange(spec), slice))
    ensures Fits(Exchange(spec), slice, |host|, |device|)
    ensures AllInRange(Chunks(spec, slice), |device|, |host|)
    ensures AllInRange(Chunks(Exchange(spec), slice), |host|, |stale|)
    ensures CopyAll(stale, CopyAll(host, device, Chunks(spec, slice)), Chunks(Exchange(spec), slice)) == device
  {
    ExchangeFits(spec, slice, |device|, |host|);
    ThereAndBack(Chunks(spec, slice), Chunks(Exchange(spec), slice), device, host, stale);
  }

  lemma {:induction false} ThereAndBack(out: seq<Chunk>, back: seq<Chunk>, device: Buffer, host: Buffer, stale: Buffer)
    requires AllInRange(out, |device|, |host|) && DisjointTargets(out) && Reverses(back, out)
    requires AgreeOutside(stale, device, back)
    ensures AllInRange(back, |host|, |stale|)
    ensures CopyAll(stale, CopyAll(host, device, out), back) == device
  {
    var host' := CopyAll(host, device, out);
    forall i | 0 <= i < |back|
      ensures Holds(device, host', back[i])
    {
      ChunkArrived(out, back, device, host, i);
    }
    CopiesRestore(stale, device, host', back);
  }

  lemma {:induction false} ChunkArrived(out: seq<Chunk>, back: seq<Chunk>, device: Buffer, host: Buffer, i: nat)
    requires AllInRange(out, |device|, |host|) && DisjointTargets(out) && i < |out| == |back|
    requires back[i] == Back(out[i])
    ensures InRange(back[i], |host|, |device|) && Holds(device, CopyAll(host, device, out), back[i])
  {
    CopyAllHolds(host, device, out, i);
  }

  lemma ExchangeFits(spec: Spec, slice: int, srcSize: int, dstSize: int)
    requires SameLengths(spec) && Fits(spec, slice, srcSize, dstSize)
    ensures Fits(Exchange(spec), slice, dstSize, srcSize)
    ensures Reverses(Chunks(Exchange(spec), slice), Chunks(spec, slice))
  {
    forall i | 0 <= i < |spec.src|
      ensures Within(ChunkAt(Exchange(spec), slice, i), dstSize, srcSize)
    {
      assert Within(ChunkAt(spec, slice, i), srcSize, dstSize);
    }
  }
}
