/**
 Bounds of repeated strided chunks, in 64-bit arithmetic without overflow
 (tpu_sync/core/utils.h). Every operation below is checked to stay in range.
 */
module StridedSpan {
  import opened Arith

  newtype Int64 = x: int | -0x8000_0000_0000_0000 <= x < 0x8000_0000_0000_0000

  /** Chunk `k` of the span starts here. */
  function ChunkStart(offset: Int64, stride: Int64, k: int): (r: int)
  {
    offset as int + k * stride as int
  }

  predicate WellSigned(offset: Int64, stride: Int64, size: Int64, count: Int64, blockSize: Int64)
  {
    offset >= 0 && stride >= 0 && size > 0 && count > 0 && blockSize > 0
  }

  /** Every chunk lies inside the block. */
  ghost predicate AllChunksInside(offset: Int64, stride: Int64, size: Int64, count: Int64, blockSize: Int64)
  {
    forall k :: 0 <= k < count as int ==>
      0 <= ChunkStart(offset, stride, k) && ChunkStart(offset, stride, k) + size as int <= blockSize as int
  }

  /** Exact in both directions, although the product is never formed. */
  function StridedSpanFitsBlock(offset: Int64, stride: Int64, size: Int64, count: Int64, blockSize: Int64): (r: bool)
    ensures r <==> WellSigned(offset, stride, size, count, blockSize)
                   && AllChunksInside(offset, stride, size, count, blockSize)
  {
    if offset < 0 || stride < 0 || size <= 0 || count <= 0 || blockSize <= 0
       || offset > blockSize || size > blockSize - offset then
      FirstChunkInside(offset, stride, size, count, blockSize);
      false
    else if count == 1 then
      true
    else
      var remaining := blockSize - offset - size;
      QuotientBounds(remaining as int, (count - 1) as int, stride as int);
      LastChunkDecides(offset, stride, size, count, blockSize);
      stride <= remaining / (count - 1)
  }

  lemma FirstChunkInside(offset: Int64, stride: Int64, size: Int64, count: Int64, blockSize: Int64)
    ensures WellSigned(offset, stride, size, count, blockSize) && AllChunksInside(offset, stride, size, count, blockSize)
            ==> offset as int + size as int <= blockSize as int
  {
    assert ChunkStart(offset, stride, 0) == offset as int;
  }

  /** Dividing the space left decides the same as multiplying the stride. */
  lemma {:induction false} QuotientBounds(space: int, n: int, stride: int)
    requires space >= 0 && n > 0
    ensures stride <= space / n <==> n * stride <= space
  {
    assert space == (space / n) * n + space % n;
    if stride <= space / n {
      MulMonotone(stride, space / n, n);
    } else {
      MulMonotone(space / n + 1, stride, n);
    }
  }

  lemma LastChunkDecides(offset: Int64, stride: Int64, size: Int64, count: Int64, blockSize: Int64)
    requires WellSigned(offset, stride, size, count, blockSize)
    ensures AllChunksInside(offset, stride, size, count, blockSize)
       <==> offset as int + (count as int - 1) * stride as int + size as int <= blockSize as int
  {
    var last := count as int - 1;
    if ChunkStart(offset, stride, last) + size as int <= blockSize as int {
      forall k | 0 <= k < count as int
        ensures 0 <= ChunkStart(offset, stride, k)
        ensures ChunkStart(offset, stride, k) + size as int <= blockSize as int
      {
        MulMonotone(0, k, stride as int);
        MulMonotone(k, last, stride as int);
      }
    }
  }

  lemma ChunkInside(offset: Int64, stride: Int64, size: Int64, count: Int64, blockSize: Int64, k: int)
    requires StridedSpanFitsBlock(offset, stride, size, count, blockSize) && 0 <= k < count as int
    ensures 0 <= k * stride as int <= ChunkStart(offset, stride, k) < ChunkStart(offset, stride, k) + size as int
    ensures ChunkStart(offset, stride, k) + size as int <= blockSize as int
  {
    MulMonotone(0, k, stride as int);
    assert 0 <= ChunkStart(offset, stride, k);
  }

  /** Holds exactly when the span fits the block and every chunk is covered by the regions. */
  method StridedSpanFitsRegions(offset: Int64, stride: Int64, size: Int64, count: Int64, blockSize: Int64,
                                covers: (Int64, Int64) -> bool)
    returns (r: bool)
    ensures r <==> StridedSpanFitsBlock(offset, stride, size, count, blockSize)
                   && forall repeat: Int64 :: 0 <= repeat < count ==>
                        Covered(offset, stride, size, blockSize, covers, repeat)
  {
    if !StridedSpanFitsBlock(offset, stride, size, count, blockSize) { return false; }
    var repeat: Int64 := 0;
    while repeat < count
      invariant 0 <= repeat <= count
      invariant forall k: Int64 :: 0 <= k < repeat ==> Covered(offset, stride, size, blockSize, covers, k)
    {
      ChunkInside(offset, stride, size, count, blockSize, repeat as int);
      var start := offset + repeat * stride;
      assert Covered(offset, stride, size, blockSize, covers, repeat) <==> covers(start, start + size);
      if !covers(start, start + size) { return false; }
      repeat := repeat + 1;
    }
    return true;
  }

  ghost predicate Covered(offset: Int64, stride: Int64, size: Int64, blockSize: Int64,
                          covers: (Int64, Int64) -> bool, repeat: Int64)
  {
    var start := ChunkStart(offset, stride, repeat as int);
    && 0 <= start && 0 < size && start + size as int <= blockSize as int
    && covers(start as Int64, (start + size as int) as Int64)
  }
}
