/** The work items of FileHasher.h: a Block names its hasher, its slice of the
    pack's buffer and the output position of its digest; a BlocksPack owns the
    buffer its blocks slice. */
module Packs {
  import opened Common
  import opened Hashers

  /** FileHasher::Block. `data` is the offset of the block's slice in the
      owning pack's buffer (the address `raw + data`); the slice has
      `hasher.InputSize()` bytes. `position` is the output offset. */
  datatype Block = Block(hasher: Hasher, data: nat, position: nat)

  /** FileHasher::BlocksPack. The buffer is written once, by the read that
      fills it, before the pack is queued; from then on it is only read, so a
      value stands for the owning `unique_ptr<std::byte[]>`. A pack without
      blocks is the end-of-work signal. */
  datatype BlocksPack = BlocksPack(blocks: seq<Block>, raw: seq<byte>)

  predicate IsSentinel(p: BlocksPack) { |p.blocks| == 0 }

  /** Every block's slice lies inside its pack's buffer. */
  predicate SlicesInside(p: BlocksPack)
  {
    forall j :: 0 <= j < |p.blocks| ==> p.blocks[j].data + p.blocks[j].hasher.InputSize() <= |p.raw|
  }

  /** Where the digest slot of global block `k` starts, `k * outputSize`,
      defined by repeated addition. */
  function Slot(k: nat, outputSize: nat): nat
    decreases k
  {
    if k == 0 then 0 else Slot(k - 1, outputSize) + outputSize
  }

  lemma {:induction false} SlotIsProduct(k: nat, outputSize: nat)
    ensures Slot(k, outputSize) == k * outputSize
    decreases k
  {
    if k > 0 {
      SlotIsProduct(k - 1, outputSize);
    }
  }

  /** `p` holds the `count` consecutive blocks from global block `i` on, all
      hashed by `h`: block `j` writes its digest in slot `i + j`. */
  ghost predicate Laid(p: BlocksPack, h: Hasher, i: nat, count: nat)
  {
    && SlicesInside(p)
    && |p.blocks| == count
    && forall j :: 0 <= j < count ==> p.blocks[j].hasher == h && p.blocks[j].position == Slot(i + j, h.OutputSize())
  }

  /** The bytes block `j` hands to its hasher. */
  function BlockBytes(p: BlocksPack, j: nat): (r: seq<byte>)
    requires SlicesInside(p) && j < |p.blocks|
    ensures |r| == p.blocks[j].hasher.InputSize()
  {
    var b := p.blocks[j];
    p.raw[b.data..b.data + b.hasher.InputSize()]
  }

  /** The bytes a pack's blocks take from the memory counter when they are written. */
  function PackInputBytes(blocks: seq<Block>): nat
  {
    if |blocks| == 0 then 0 else PackInputBytes(blocks[..|blocks| - 1]) + blocks[|blocks| - 1].hasher.InputSize()
  }

  /** The bytes still counted in `m_memsize` for the packs in a queue. */
  function QueuedBytes(queue: seq<BlocksPack>): nat
  {
    if |queue| == 0 then 0 else PackInputBytes(queue[0].blocks) + QueuedBytes(queue[1..])
  }

  lemma {:induction false} QueuedBytesAppend(queue: seq<BlocksPack>, p: BlocksPack)
    ensures QueuedBytes(queue + [p]) == QueuedBytes(queue) + PackInputBytes(p.blocks)
    decreases |queue|
  {
    if |queue| == 0 {
      assert queue + [p] == [p];
      assert [p][1..] == [];
    } else {
      assert (queue + [p])[1..] == queue[1..] + [p];
      QueuedBytesAppend(queue[1..], p);
    }
  }

  lemma QueuedBytesLast(queue: seq<BlocksPack>)
    requires |queue| > 0
    ensures QueuedBytes(queue) == QueuedBytes(queue[..|queue| - 1]) + PackInputBytes(queue[|queue| - 1].blocks)
  {
    assert queue == queue[..|queue| - 1] + [queue[|queue| - 1]];
    QueuedBytesAppend(queue[..|queue| - 1], queue[|queue| - 1]);
  }

  /** Every block of `blocks` reads `blockSize` bytes. */
  lemma {:induction false} UniformInputBytes(blocks: seq<Block>, blockSize: nat)
    requires forall j :: 0 <= j < |blocks| ==> blocks[j].hasher.InputSize() == blockSize
    ensures PackInputBytes(blocks) == |blocks| * blockSize
    decreases |blocks|
  {
    if |blocks| > 0 {
      UniformInputBytes(blocks[..|blocks| - 1], blockSize);
    }
  }
}
