/** Splitting one video segment into blocks of random bytes. */
module Segments {
  import opened Types

  const MAX_BLOCK_SIZE: nat := 524288
  const STANDARD_BLOCK_SIZE: nat := 262144

  /** The sizes a segment of `total` bytes must have: all blocks full but the last, which has the rest. */
  ghost predicate IsSplit(blocks: seq<Block>, total: nat, size: nat)
    requires size > 0
  {
    && blocks != []
    && (forall k | 0 <= k < |blocks| - 1 :: |blocks[k].data| == size)
    && 1 <= |blocks[|blocks| - 1].data| <= size
    && TotalSize(blocks) == total
  }

  ghost function TotalSize(blocks: seq<Block>): nat {
    if blocks == [] then 0 else TotalSize(blocks[..|blocks| - 1]) + |blocks[|blocks| - 1].data|
  }

  lemma {:induction false} FullBlocks(blocks: seq<Block>, size: nat)
    requires forall k | 0 <= k < |blocks| :: |blocks[k].data| == size
    ensures TotalSize(blocks) == |blocks| * size
  {
    if blocks != [] {
      FullBlocks(blocks[..|blocks| - 1], size);
      assert |blocks| * size == (|blocks| - 1) * size + size;
    }
  }

  /** A split uses as few blocks of that size as possible: their number is the quotient rounded up. */
  lemma SplitIsCeiling(blocks: seq<Block>, total: nat, size: nat)
    requires size > 0 && IsSplit(blocks, total, size)
    ensures (|blocks| - 1) * size < total <= |blocks| * size
  {
    FullBlocks(blocks[..|blocks| - 1], size);
    OneMore(|blocks|, size);
  }

  /** The number of blocks the loop makes. With no bytes to split its counter starts at 0, and the
      first decrement wraps. */
  function BlockCount(total: nat, size: nat): nat
    requires size > 0
  {
    if total == 0 then U64_RANGE else total / size + (if total % size > 0 then 1 else 0)
  }

  /** Bits in a segment. */
  function SegmentBits(bitrate: u64, segmentLength: u64): (r: nat)
    ensures r == bitrate * segmentLength
  {
    bitrate * segmentLength
  }

  /** The number of bytes the program computes for that many bits: the product wraps at 64 bits. */
  function TotalBytes(bits: nat): (r: u64)
    ensures bits < U64_RANGE ==> r == bits / 8
    ensures bits >= U64_RANGE ==> r < bits / 8
  {
    bits % U64_RANGE / 8
  }

  lemma QuotientAndRest(total: nat, size: nat)
    requires size > 0
    ensures total == total / size * size + total % size
    ensures total > 0 && total % size == 0 ==> total / size > 0
  {
  }

  lemma OneMore(q: int, size: int)
    ensures q * size == (q - 1) * size + size
  {
  }

  /** The size of the last block: the remainder, or a full block when there is none. */
  function LastSize(total: nat, size: nat): nat
    requires size > 0
  {
    if total % size > 0 then total % size else size
  }

  lemma CountFits(total: nat, size: nat)
    requires size > 0
    ensures BlockCount(total, size) > 0 && 1 <= LastSize(total, size) <= size
    ensures (BlockCount(total, size) - 1) * size + LastSize(total, size) == total <==> total > 0
  {
    QuotientAndRest(total, size);
    OneMore(total / size, size);
    if total == 0 { assert (U64_RANGE - 1) * size >= 0; }
  }

  /** Full blocks and one last block of the remainder split the segment, unless it has no bytes. */
  lemma LoopSplits(blocks: seq<Block>, total: nat, size: nat)
    requires size > 0 && |blocks| == BlockCount(total, size)
    requires forall k | 0 <= k < |blocks| - 1 :: |blocks[k].data| == size
    requires blocks != [] ==> |blocks[|blocks| - 1].data| == LastSize(total, size)
    ensures blocks != []
    ensures IsSplit(blocks, total, size) <==> total > 0
  {
    CountFits(total, size);
    FullBlocks(blocks[..|blocks| - 1], size);
  }

  lemma QuotientBound(total: u64, size: nat)
    requires size > 0
    ensures total / size + (if total % size > 0 then 1 else 0) < U64_RANGE
    ensures total > 0 ==> total / size + (if total % size > 0 then 1 else 0) > 0
  {
    QuotientAndRest(total, size);
    Grows(total / size, size);
  }

  lemma Grows(q: nat, size: nat)
    requires size > 0
    ensures q * size >= q && (size > 1 ==> q * size >= 2 * q)
  {
    assert q * (size - 1) >= 0;
    if size > 1 { assert q * (size - 2) >= 0; }
  }

  /** The starting value of the block counter, and the size of a last block that is not full, if any. */
  function CountAndRest(total: u64, size: nat): (r: (u64, nat))
    requires size > 0
    ensures r.0 == if total == 0 then 0 else BlockCount(total, size)
    ensures r.1 == total % size < size && BlockCount(total, size) > 0
  {
    var div, rem := total / size, total % size;
    QuotientBound(total, size);
    (if rem > 0 then div + 1 else div, rem)
  }

  /** The counting loop: blocks of `blockSize` bytes, and a last one with the rest if there is one.
      `fill(k, n)` stands for the k-th `n` bytes of the generator. */
  method FillBlocks(fill: (nat, nat) -> Bytes, digest: Bytes -> Cid, totalBytes: u64, blockSize: nat)
    returns (blocks: seq<Block>)
    requires 0 < blockSize < U64_RANGE
    requires forall k: nat, n: nat :: |fill(k, n)| == n
    ensures |blocks| == BlockCount(totalBytes, blockSize)
    ensures IsSplit(blocks, totalBytes, blockSize) <==> totalBytes > 0
    ensures forall k | 0 <= k < |blocks| ::
      blocks[k].cid == digest(blocks[k].data) && blocks[k].data == fill(k, |blocks[k].data|)
  {
    var (div, rem) := CountAndRest(totalBytes, blockSize);
    ghost var count := BlockCount(totalBytes, blockSize);
    var numBlocks: u64 := div;
    blocks := [];
    while true
      invariant |blocks| < count
      invariant numBlocks == if blocks == [] then div else count - |blocks|
      invariant forall k | 0 <= k < |blocks| :: |blocks[k].data| == blockSize
      invariant forall k | 0 <= k < |blocks| ::
        blocks[k].cid == digest(blocks[k].data) && blocks[k].data == fill(k, |blocks[k].data|)
      decreases count - |blocks|
    {
      numBlocks := WrappingSub(numBlocks, 1);
      var size := if numBlocks == 0 && rem > 0 then rem else blockSize;
      var data := fill(|blocks|, size);
      blocks := blocks + [Block(digest(data), data)];
      if numBlocks == 0 { break; }
    }
    LoopSplits(blocks, totalBytes, blockSize);
  }

  /** The loop's blocks split a segment of `bits` bits, in fewer than 2^64 blocks, exactly when the
      segment has a byte and its number of bits fits 64 bits. */
  lemma SplitsExactlyWhen(blocks: seq<Block>, bits: nat, size: nat)
    requires size > 0 && |blocks| == BlockCount(TotalBytes(bits), size)
    requires IsSplit(blocks, TotalBytes(bits), size) <==> TotalBytes(bits) > 0
    ensures 8 <= bits < 0x1_0000_0000_0000_0000 <==>
      |blocks| < 0x1_0000_0000_0000_0000 && IsSplit(blocks, bits / 8, size)
  {
    QuotientBound(TotalBytes(bits), size);
  }

  /** What is made of a byte count that may have wrapped: a split into as few blocks as possible, or 2^64
      blocks when there is not a byte. */
  ghost predicate IsWrappedSplit(blocks: seq<Block>, bytes: nat, size: nat)
    requires size > 0
  {
    if bytes == 0 then |blocks| == 0x1_0000_0000_0000_0000
    else IsSplit(blocks, bytes, size) && (|blocks| - 1) * size < bytes <= |blocks| * size
  }

  /** One segment's blocks. Arithmetic is 64 bits wide and wraps, as in a release build. */
  method GenerateBlocks(fill: (nat, nat) -> Bytes, digest: Bytes -> Cid,
                        bitrate: u64, segmentLength: u64, maxSize: bool) returns (blocks: seq<Block>)
    requires forall k: nat, n: nat :: |fill(k, n)| == n
    ensures var bits := SegmentBits(bitrate, segmentLength);
      var size := if maxSize then 524288 else 262144;
      && IsWrappedSplit(blocks, bits % 0x1_0000_0000_0000_0000 / 8, size)
      && (8 <= bits < 0x1_0000_0000_0000_0000 <==>
            |blocks| < 0x1_0000_0000_0000_0000 && IsSplit(blocks, bits / 8, size))
    ensures forall k | 0 <= k < |blocks| ::
      blocks[k].cid == digest(blocks[k].data) && blocks[k].data == fill(k, |blocks[k].data|)
  {
    var bits := SegmentBits(bitrate, segmentLength);
    var blockSize := if maxSize then MAX_BLOCK_SIZE else STANDARD_BLOCK_SIZE;
    blocks := FillBlocks(fill, digest, TotalBytes(bits), blockSize);
    SplitsExactlyWhen(blocks, bits, blockSize);
    if TotalBytes(bits) > 0 { SplitIsCeiling(blocks, TotalBytes(bits), blockSize); }
  }

  /** 6 Mbit/s for 4 seconds: 12 blocks of the standard size, or 6 of the largest. */
  lemma TwelveBlocks()
    ensures BlockCount(TotalBytes(SegmentBits(6000000, 4)), STANDARD_BLOCK_SIZE) == 12
    ensures BlockCount(TotalBytes(SegmentBits(6000000, 4)), MAX_BLOCK_SIZE) == 6
  {
  }
}
