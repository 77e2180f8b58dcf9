/** The producer's plan in FileHasher::do_hash, as functions: how many blocks
    there are, how many each read takes, what each pack's buffer holds and where
    each block's digest goes. The producer method of the engine is proved to
    push exactly these packs. */
module Schedule {
  import opened Common
  import opened Hashers
  import opened Packs
  import Grouping

  /** `block_count` of line 75: the whole blocks of `size_without_last` (line 68)
      plus one for a partial tail, so the blocks just cover the file. */
  function BlockCount(fileSize: nat, blockSize: nat): (r: nat)
    requires blockSize > 0
    ensures fileSize <= r * blockSize < fileSize + blockSize
  {
    var sizeWithoutLast := fileSize - fileSize % blockSize;
    assert sizeWithoutLast == blockSize * (fileSize / blockSize);
    MulDiv(blockSize, fileSize / blockSize);
    sizeWithoutLast / blockSize + (if fileSize - sizeWithoutLast != 0 then 1 else 0)
  }

  /** `blockCount` blocks of `blockSize` bytes just cover a file of
      `fileSize` bytes: they hold it, and one block fewer would not. */
  predicate Covers(fileSize: nat, blockSize: nat, blockCount: nat)
  {
    blockSize > 0 && fileSize <= blockCount * blockSize < fileSize + blockSize
  }

  /** `block_count` is the one count of blocks that just covers the file. */
  lemma CoversIsBlockCount(fileSize: nat, blockSize: nat, blockCount: nat)
    requires blockSize > 0
    ensures Covers(fileSize, blockSize, blockCount) <==> blockCount == BlockCount(fileSize, blockSize)
  {
    var r := BlockCount(fileSize, blockSize);
    if Covers(fileSize, blockSize, blockCount) && blockCount != r {
      if blockCount < r {
        MulLess(blockCount, r, blockSize);
      } else {
        MulLess(r, blockCount, blockSize);
      }
      assert false;
    }
  }

  /** A larger count of blocks is at least one block longer. */
  lemma MulLess(a: nat, b: nat, c: nat)
    requires a < b
    ensures a * c + c <= b * c
  {
    MulMono(a + 1, b, c);
    MulAdd(a, 1, c);
  }

  /** A block `k`, starting at offset `at`, that lies wholly inside the file
      is one of its `block_count` blocks. */
  lemma BlockInside(fileSize: nat, blockSize: nat, k: nat, at: nat)
    requires blockSize > 0 && at == k * blockSize && at + blockSize <= fileSize
    ensures k < BlockCount(fileSize, blockSize)
  {
    var c := BlockCount(fileSize, blockSize);
    if k >= c {
      MulMono(c, k, blockSize);
    }
  }

  /** The block count is the ceiling of `fileSize / blockSize`. */
  lemma BlockCountIsCeiling(fileSize: nat, blockSize: nat)
    requires blockSize > 0
    ensures BlockCount(fileSize, blockSize) == (fileSize + blockSize - 1) / blockSize
  {
    var c := BlockCount(fileSize, blockSize);
    DivUnique(fileSize + blockSize - 1, blockSize, c, fileSize + blockSize - 1 - c * blockSize);
  }

  /** `count` of line 81 for a read starting at block `i <= blockCount`. */
  function PackCount(blockCount: nat, minOptBlockCount: nat, i: nat): (r: nat)
    requires i <= blockCount && minOptBlockCount >= 1
    ensures 1 <= r <= minOptBlockCount
    ensures i < blockCount ==> i + r <= blockCount
    ensures i == blockCount ==> r == 1
  {
    Min(Max(blockCount - i, 1), minOptBlockCount)
  }

  /** The bytes of a fresh buffer of the read starting at block `i` that the
      source never writes: `new std::byte[]` leaves them indeterminate. */
  type Fill = (nat, nat) -> byte

  /** The buffer of the read starting at block `i` of `count` blocks: first
      whatever the read delivered, then the buffer's indeterminate bytes, except
      that the pack at `i == blockCount` had its first block zeroed first. */
  function PackRaw(input: seq<byte>, blockSize: nat, blockCount: nat, i: nat, count: nat, fill: Fill): (r: seq<byte>)
    ensures |r| == Max(count * blockSize, |Delivered(input, blockSize, i, count)|)
  {
    var got := Delivered(input, blockSize, i, count);
    got + seq(Max(count * blockSize - |got|, 0), k requires 0 <= k =>
      var at := |got| + k;
      if i == blockCount && at < blockSize then 0 else fill(i, at))
  }

  /** What `m_input.read(data, block_size * count)` delivers when the input has
      been read up to block `i`: the file's bytes from there, up to the count or
      the end of the file. */
  function Delivered(input: seq<byte>, blockSize: nat, i: nat, count: nat): (r: seq<byte>)
    ensures |r| <= count * blockSize
  {
    var from := Min(i * blockSize, |input|);
    var to := Min((i + count) * blockSize, |input|);
    assert (i + count) * blockSize == i * blockSize + count * blockSize;
    input[from..Max(from, to)]
  }

  /** The blocks of the pack starting at block `i`: block `j` slices the buffer
      at `j * block_size` and writes at `position + j * output_size`, where
      `position == i * output_size` (lines 91-97, 103). */
  function PackBlocks(h: Hasher, i: nat, count: nat): (r: seq<Block>)
    ensures |r| == count
  {
    seq(count, j requires 0 <= j < count => Block(h, j * h.InputSize(), i * h.OutputSize() + j * h.OutputSize()))
  }

  /** The pack pushed at line 99 for the read of `count` blocks from block `i`. */
  function MakePack(h: Hasher, input: seq<byte>, blockCount: nat, i: nat, count: nat, fill: Fill): BlocksPack
  {
    BlocksPack(PackBlocks(h, i, count), PackRaw(input, h.InputSize(), blockCount, i, count, fill))
  }

  /** One iteration of the producer loop: the read of `count` blocks from block `start`. */
  datatype Read = Read(start: nat, count: nat)

  /** The reads the loop of lines 77-104 makes from block `i` on. */
  function Plan(blockCount: nat, minOptBlockCount: nat, i: nat): seq<Read>
    requires i <= blockCount + 1 && minOptBlockCount >= 1
    decreases blockCount + 1 - i
  {
    if i > blockCount then []
    else
      var count := PackCount(blockCount, minOptBlockCount, i);
      [Read(i, count)] + Plan(blockCount, minOptBlockCount, i + count)
  }

  /** Read `k` of the plan is the loop's read from block `i` when the rest
      of the plan from `k` on is the loop's plan from `i`. */
  lemma PlanStep(blockCount: nat, minOptBlockCount: nat, i: nat, plan: seq<Read>, k: nat)
    requires i <= blockCount && minOptBlockCount >= 1
    requires k <= |plan| && plan[k..] == Plan(blockCount, minOptBlockCount, i)
    ensures var count := PackCount(blockCount, minOptBlockCount, i);
      && k < |plan| && plan[k] == Read(i, count)
      && plan[k + 1..] == Plan(blockCount, minOptBlockCount, i + count)
  {
    var count := PackCount(blockCount, minOptBlockCount, i);
    var rest := Plan(blockCount, minOptBlockCount, i + count);
    assert plan[k..] == [Read(i, count)] + rest;
    assert plan[k + 1..] == plan[k..][1..];
  }

  /** The packs of a plan, in the order they are pushed. */
  function PlanPacks(h: Hasher, input: seq<byte>, blockCount: nat, fill: Fill, plan: seq<Read>): (r: seq<BlocksPack>)
    ensures |r| == |plan|
    decreases |plan|, 1
  {
    if |plan| == 0 then [] else PlanPacksLast(h, input, blockCount, fill, plan)
  }

  /** The packs of all reads of `plan` but the last, then the last read's pack. */
  function PlanPacksLast(h: Hasher, input: seq<byte>, blockCount: nat, fill: Fill, plan: seq<Read>): (r: seq<BlocksPack>)
    requires |plan| > 0
    ensures |r| == |plan|
    decreases |plan|, 0
  {
    var last := plan[|plan| - 1];
    PlanPacks(h, input, blockCount, fill, plan[..|plan| - 1]) + [MakePack(h, input, blockCount, last.start, last.count, fill)]
  }

  /** Pack `k` of a plan's packs is the pack of read `k`. */
  lemma {:induction false} PlanPacksAt(h: Hasher, input: seq<byte>, blockCount: nat, fill: Fill, plan: seq<Read>, k: nat)
    requires k < |plan|
    ensures PlanPacks(h, input, blockCount, fill, plan)[k] == MakePack(h, input, blockCount, plan[k].start, plan[k].count, fill)
    decreases |plan|
  {
    if k < |plan| - 1 {
      PlanPacksAt(h, input, blockCount, fill, plan[..|plan| - 1], k);
    }
  }

  /** Pack `k` of the packs of a plan whose rest from `k` on is the loop's
      plan from block `i` is the pack of the loop's read from `i`. */
  lemma PlanPackStep(h: Hasher, input: seq<byte>, blockCount: nat, minOptBlockCount: nat, fill: Fill,
                     plan: seq<Read>, k: nat, i: nat)
    requires i <= blockCount && minOptBlockCount >= 1
    requires k <= |plan| && plan[k..] == Plan(blockCount, minOptBlockCount, i)
    ensures k < |plan|
    ensures PlanPacks(h, input, blockCount, fill, plan)[k]
         == MakePack(h, input, blockCount, i, PackCount(blockCount, minOptBlockCount, i), fill)
  {
    PlanStep(blockCount, minOptBlockCount, i, plan, k);
    PlanPacksAt(h, input, blockCount, fill, plan, k);
  }

  /** `plan` reads the blocks `from .. to - 1` in order, each read at least one block. */
  predicate Tiles(plan: seq<Read>, from: nat, to: nat)
    decreases |plan|
  {
    if |plan| == 0 then from == to
    else plan[0].start == from && plan[0].count >= 1 && Tiles(plan[1..], from + plan[0].count, to)
  }

  /** The loop reads every block from `i` to `block_count` exactly once, in
      order, in reads of 1 to `min_opt_block_count` blocks; so it ends with
      `i == block_count + 1`. */
  lemma {:induction false} PlanTiles(blockCount: nat, minOptBlockCount: nat, i: nat)
    requires i <= blockCount + 1 && minOptBlockCount >= 1
    ensures Tiles(Plan(blockCount, minOptBlockCount, i), i, blockCount + 1)
    ensures forall n :: 0 <= n < |Plan(blockCount, minOptBlockCount, i)| ==>
      1 <= Plan(blockCount, minOptBlockCount, i)[n].count <= minOptBlockCount
    decreases blockCount + 1 - i
  {
    if i <= blockCount {
      var count := PackCount(blockCount, minOptBlockCount, i);
      PlanTiles(blockCount, minOptBlockCount, i + count);
      var plan := Plan(blockCount, minOptBlockCount, i);
      assert plan[1..] == Plan(blockCount, minOptBlockCount, i + count);
    }
  }

  /** The last read is the single block `block_count`, the one zeroed at lines 84-85. */
  lemma {:induction false} PlanEndsWithExtraBlock(blockCount: nat, minOptBlockCount: nat, i: nat)
    requires i <= blockCount && minOptBlockCount >= 1
    ensures |Plan(blockCount, minOptBlockCount, i)| >= 1
    ensures Plan(blockCount, minOptBlockCount, i)[|Plan(blockCount, minOptBlockCount, i)| - 1] == Read(blockCount, 1)
    decreases blockCount - i
  {
    var count := PackCount(blockCount, minOptBlockCount, i);
    if i < blockCount {
      PlanEndsWithExtraBlock(blockCount, minOptBlockCount, i + count);
    }
  }

  /** The total number of blocks a plan reads. */
  function PlanBlocks(plan: seq<Read>): nat
    decreases |plan|
  {
    if |plan| == 0 then 0 else plan[0].count + PlanBlocks(plan[1..])
  }

  /** Tiling `from .. to - 1` reads `to - from` blocks: `block_count + 1` for the whole loop. */
  lemma {:induction false} TilesCount(plan: seq<Read>, from: nat, to: nat)
    requires Tiles(plan, from, to)
    ensures from <= to && PlanBlocks(plan) == to - from
    decreases |plan|
  {
    if |plan| > 0 {
      TilesCount(plan[1..], from + plan[0].count, to);
    }
  }

  /** A tiling without its last read tiles up to where that read starts. */
  lemma {:induction false} TilesLast(plan: seq<Read>, from: nat, to: nat)
    requires Tiles(plan, from, to) && |plan| > 0
    ensures Tiles(plan[..|plan| - 1], from, plan[|plan| - 1].start)
    ensures plan[|plan| - 1].count >= 1 && plan[|plan| - 1].start + plan[|plan| - 1].count == to
    decreases |plan|
  {
    if |plan| == 1 {
      assert plan[..0] == [];
    } else {
      var rest := plan[1..];
      TilesLast(rest, from + plan[0].count, to);
      assert plan[..|plan| - 1][1..] == rest[..|rest| - 1];
    }
  }

  /** In a tiling, every read starts at or after `from` and ends by `to`. */
  lemma {:induction false} TilesBounds(plan: seq<Read>, from: nat, to: nat, n: nat)
    requires Tiles(plan, from, to) && n < |plan|
    ensures from <= plan[n].start && plan[n].start + plan[n].count <= to
    decreases |plan|
  {
    TilesCount(plan[1..], from + plan[0].count, to);
    if n > 0 {
      TilesBounds(plan[1..], from + plan[0].count, to, n - 1);
    }
  }

  /** In a tiling, a later read starts after an earlier one ends: the reads are disjoint. */
  lemma {:induction false} TilesOrdered(plan: seq<Read>, from: nat, to: nat, m: nat, n: nat)
    requires Tiles(plan, from, to) && m < n < |plan|
    ensures plan[m].start + plan[m].count <= plan[n].start
    decreases |plan|
  {
    if m == 0 {
      TilesBounds(plan[1..], from + plan[0].count, to, n - 1);
    } else {
      TilesOrdered(plan[1..], from + plan[0].count, to, m - 1, n - 1);
    }
  }

  /** In a tiling, every block `from <= k < to` lies in some read. */
  lemma {:induction false} TilesCover(plan: seq<Read>, from: nat, to: nat, k: nat) returns (n: nat)
    requires Tiles(plan, from, to) && from <= k < to
    ensures n < |plan| && plan[n].start <= k < plan[n].start + plan[n].count
    decreases |plan|
  {
    if k < from + plan[0].count {
      n := 0;
    } else {
      var n' := TilesCover(plan[1..], from + plan[0].count, to, k);
      n := n' + 1;
    }
  }

  /** Byte `at` of the buffer of the read from block `i`: the file's byte at
      `i * block_size + at` if there is one, otherwise a zero of the memset at
      lines 84-85 or an indeterminate byte. */
  lemma PackRawAt(input: seq<byte>, blockSize: nat, blockCount: nat, i: nat, count: nat, fill: Fill, at: nat)
    requires at < count * blockSize
    ensures |PackRaw(input, blockSize, blockCount, i, count, fill)| == count * blockSize
    ensures PackRaw(input, blockSize, blockCount, i, count, fill)[at] ==
      if i * blockSize + at < |input| then input[i * blockSize + at]
      else if i == blockCount && at < blockSize then 0
      else fill(i, at)
  {
    assert (i + count) * blockSize == i * blockSize + count * blockSize;
  }

  /** The blocks of a read of `count` blocks from block `i`: block `j` slices
      a buffer of `block_size * count` bytes at `j * block_size`, inside it,
      and writes at `(i + j) * output_size`. */
  lemma PackBlocksShape(h: Hasher, i: nat, count: nat)
    ensures var blocks := PackBlocks(h, i, count);
      && PackInputBytes(blocks) == count * h.InputSize()
      && forall j :: 0 <= j < count ==>
           && blocks[j].hasher == h
           && blocks[j].data == j * h.InputSize()
           && blocks[j].data + h.InputSize() <= count * h.InputSize()
           && blocks[j].position == (i + j) * h.OutputSize()
  {
    var blocks := PackBlocks(h, i, count);
    var bs := h.InputSize();
    forall j | 0 <= j < count
      ensures blocks[j].data + bs <= count * bs
      ensures blocks[j].position == (i + j) * h.OutputSize()
    {
      assert j * bs + bs == (j + 1) * bs;
      MulMono(j + 1, count, bs);
      assert (i + j) * h.OutputSize() == i * h.OutputSize() + j * h.OutputSize();
    }
    UniformInputBytes(blocks, bs);
  }

  /** The pack of a read is well formed: `count` blocks of this hasher with a
      buffer of `block_size * count` bytes, block `j` slicing it at
      `j * block_size`, inside the buffer, and writing at `(i + j) * output_size`. */
  lemma MakePackShape(h: Hasher, input: seq<byte>, blockCount: nat, i: nat, count: nat, fill: Fill)
    ensures var p := MakePack(h, input, blockCount, i, count, fill);
      && |p.blocks| == count
      && |p.raw| == count * h.InputSize()
      && SlicesInside(p)
      && PackInputBytes(p.blocks) == count * h.InputSize()
      && forall j :: 0 <= j < count ==>
           && p.blocks[j].hasher == h
           && p.blocks[j].data == j * h.InputSize()
           && p.blocks[j].position == (i + j) * h.OutputSize()
  {
    PackBlocksShape(h, i, count);
  }

  /** The buffer of a read fits a `size_t` when the file and one block do. */
  lemma PackBytesFit(fileSize: nat, blockSize: nat, blockCount: nat, minOptBlockCount: nat, i: nat)
    requires Covers(fileSize, blockSize, blockCount) && minOptBlockCount >= 1
    requires fileSize + blockSize < SIZE_MODULUS && i <= blockCount
    ensures PackCount(blockCount, minOptBlockCount, i) * blockSize < SIZE_MODULUS
  {
    var count := PackCount(blockCount, minOptBlockCount, i);
    if i < blockCount {
      MulMono(count, blockCount, blockSize);
    }
  }

  lemma MulMono(a: nat, b: nat, c: nat)
    requires a <= b
    ensures a * c <= b * c
  {
    assert b * c == a * c + (b - a) * c;
  }

  /** Byte `t` of block `j` of the read from block `i`; the block is block
      `i + j` of the file, and `at` is the byte's offset in the file. */
  lemma BlockBytesAt(h: Hasher, input: seq<byte>, blockCount: nat, i: nat, count: nat, fill: Fill, j: nat, t: nat, at: nat)
    requires j < count && t < h.InputSize() && at == (i + j) * h.InputSize() + t
    ensures SlicesInside(MakePack(h, input, blockCount, i, count, fill))
    ensures BlockBytes(MakePack(h, input, blockCount, i, count, fill), j)[t] ==
        if at < |input| then input[at]
        else if i == blockCount && j == 0 then 0
        else fill(i, j * h.InputSize() + t)
  {
    var bs := h.InputSize();
    MakePackShape(h, input, blockCount, i, count, fill);
    assert j * bs + t < count * bs by {
      MulMono(j + 1, count, bs);
    }
    PackRawAt(input, bs, blockCount, i, count, fill, j * bs + t);
    assert (i + j) * bs == i * bs + j * bs;
    if j > 0 {
      MulMono(1, j, bs);
    }
  }

  // ---------------------------------------------------------------------------
  // The loop as written reads one block too many and leaves a short tail
  // uninitialised

  /** A file of one block (`block_count == 1`, one block per read): the loop
      makes a second read, of block 1, which lies past the end of the file. */
  lemma ExtraRead()
    ensures Plan(1, 1, 0) == [Read(0, 1), Read(1, 1)]
  {
    assert Plan(1, 1, 1) == [Read(1, 1)] + Plan(1, 1, 2);
  }

  /** That extra block of a 2-byte file in blocks of 2 is the memset zeros,
      whatever the memory held, and its digest is written to the output. */
  lemma ExtraZeroBlock(h: Hasher, fill: Fill)
    requires h.InputSize() == 2
    ensures BlockCount(2, 2) == 1
    ensures SlicesInside(MakePack(h, [7, 7], 1, 1, 1, fill))
    ensures BlockBytes(MakePack(h, [7, 7], 1, 1, 1, fill), 0) == [0, 0]
  {
    var block := BlockBytes(MakePack(h, [7, 7], 1, 1, 1, fill), 0);
    assert block[0] == 0 by {
      BlockBytesAt(h, [7, 7], 1, 1, 1, fill, 0, 0, 2);
    }
    assert block[1] == 0 by {
      BlockBytesAt(h, [7, 7], 1, 1, 1, fill, 0, 1, 3);
    }
  }

  /** A file of 1 byte in blocks of 2: the block hashed is the file's byte
      followed by whatever the fresh buffer held. */
  lemma ShortTailIndeterminate(h: Hasher, fill: Fill)
    requires h.InputSize() == 2
    ensures BlockCount(1, 2) == 1
    ensures SlicesInside(MakePack(h, [7], 1, 0, 1, fill))
    ensures BlockBytes(MakePack(h, [7], 1, 0, 1, fill), 0) == [7, fill(0, 1)]
  {
    BlockBytesAt(h, [7], 1, 0, 1, fill, 0, 0, 0);
    BlockBytesAt(h, [7], 1, 0, 1, fill, 0, 1, 1);
  }

  // ---------------------------------------------------------------------------
  // The evident intent: `block_count` reads' worth of blocks, the last one
  // padded with zeros

  /** `count` for a read from block `i < blockCount`, never past the last block. */
  function IntendedCount(blockCount: nat, minOptBlockCount: nat, i: nat): (r: nat)
    requires i < blockCount && minOptBlockCount >= 1
    ensures 1 <= r <= minOptBlockCount && i + r <= blockCount
  {
    Min(blockCount - i, minOptBlockCount)
  }

  /** The reads of a loop `for (i = 0; i < block_count;)`. */
  function IntendedPlan(blockCount: nat, minOptBlockCount: nat, i: nat): seq<Read>
    requires i <= blockCount && minOptBlockCount >= 1
    decreases blockCount - i
  {
    if i == blockCount then []
    else
      var count := IntendedCount(blockCount, minOptBlockCount, i);
      [Read(i, count)] + IntendedPlan(blockCount, minOptBlockCount, i + count)
  }

  /** The buffer of a read when the whole buffer is zeroed before reading. */
  function PaddedRaw(input: seq<byte>, blockSize: nat, i: nat, count: nat): (r: seq<byte>)
    ensures |r| == count * blockSize
  {
    var got := Delivered(input, blockSize, i, count);
    got + Zeros(count * blockSize - |got|)
  }

  function IntendedPack(h: Hasher, input: seq<byte>, i: nat, count: nat): BlocksPack
  {
    BlocksPack(PackBlocks(h, i, count), PaddedRaw(input, h.InputSize(), i, count))
  }

  /** The intended loop reads every block of the file exactly once, in order,
      and no block beyond. */
  lemma {:induction false} IntendedPlanTiles(blockCount: nat, minOptBlockCount: nat, i: nat)
    requires i <= blockCount && minOptBlockCount >= 1
    ensures Tiles(IntendedPlan(blockCount, minOptBlockCount, i), i, blockCount)
    ensures forall n :: 0 <= n < |IntendedPlan(blockCount, minOptBlockCount, i)| ==>
      1 <= IntendedPlan(blockCount, minOptBlockCount, i)[n].count <= minOptBlockCount
    decreases blockCount - i
  {
    if i < blockCount {
      var count := IntendedCount(blockCount, minOptBlockCount, i);
      IntendedPlanTiles(blockCount, minOptBlockCount, i + count);
      assert IntendedPlan(blockCount, minOptBlockCount, i)[1..] == IntendedPlan(blockCount, minOptBlockCount, i + count);
    }
  }

  /** Byte `at` of the zero-padded buffer of the read from block `i`. */
  lemma PaddedRawAt(input: seq<byte>, blockSize: nat, i: nat, count: nat, at: nat)
    requires at < count * blockSize
    ensures PaddedRaw(input, blockSize, i, count)[at] ==
      if i * blockSize + at < |input| then input[i * blockSize + at] else 0
  {
    assert (i + count) * blockSize == i * blockSize + count * blockSize;
  }

  /** Byte `t` of block `j` of an intended pack from block `i` is the file's
      byte at offset `at` if there is one, and otherwise zero: no block depends
      on uninitialised memory. */
  lemma IntendedBlockBytes(h: Hasher, input: seq<byte>, i: nat, count: nat, j: nat, t: nat, at: nat)
    requires j < count && t < h.InputSize() && at == (i + j) * h.InputSize() + t
    ensures SlicesInside(IntendedPack(h, input, i, count))
    ensures BlockBytes(IntendedPack(h, input, i, count), j)[t] == if at < |input| then input[at] else 0
  {
    var bs := h.InputSize();
    PackBlocksShape(h, i, count);
    assert j * bs + t < count * bs by {
      MulMono(j + 1, count, bs);
    }
    PaddedRawAt(input, bs, i, count, j * bs + t);
    assert (i + j) * bs == i * bs + j * bs;
  }
}
