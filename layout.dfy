/** Where the digests land: the output file that the producer's packs yield
    when every block is written with its digest from a cleared buffer. Block
    `k` of the file owns the output bytes `k * output_size() ..
    (k + 1) * output_size() - 1`, so the reads' writes never overlap. */
module Layout {
  import opened Common
  import opened Hashers
  import opened Packs
  import opened Schedule
  import opened Sink

  /** Offset `t` of the digest of block `k` lies in the digest slot of block
      `m` exactly when `k == m`: the slots do not overlap. */
  lemma SlotUnique(os: nat, k: nat, t: nat, m: nat)
    requires t < os
    ensures Slot(m, os) <= Slot(k, os) + t < Slot(m, os) + os <==> k == m
  {
    SlotIsProduct(k, os);
    SlotIsProduct(m, os);
    if k < m {
      MulMono(k + 1, m, os);
    } else if k > m {
      MulMono(m + 1, k, os);
    }
  }

  /** The bytes `Written` leaves at `q`, given what `prev` held there:
      `before` says whether an earlier write reached `q`, `hit` whether this
      one does. */
  lemma WrittenAt(file: File, prev: File, pos: nat, bytes: seq<byte>, q: nat, before: bool, hit: bool)
    requires hit <==> pos <= q < pos + |bytes|
    requires q in prev <==> q in file || before
    requires q in file && !before ==> prev[q] == file[q]
    ensures q in Written(prev, pos, bytes) <==> q in file || before || hit
    ensures q in file && !before && !hit ==> Written(prev, pos, bytes)[q] == file[q]
    ensures hit ==> Written(prev, pos, bytes)[q] == bytes[q - pos]
    ensures before && !hit ==> Written(prev, pos, bytes)[q] == prev[q]
  {
  }

  /** After the first `j` blocks of a laid-out pack from block `i`, offset `t`
      of block `k`'s slot (the output byte `q`) is written exactly when the
      block is one of them, and otherwise keeps its old byte. */
  lemma {:induction false} WritePackKeeps(file: File, p: BlocksPack, h: Hasher, i: nat, count: nat, j: nat, k: nat, t: nat, q: nat, d: DigestFn)
    requires Laid(p, h, i, count) && j <= count && Sized(d, h)
    requires t < h.OutputSize() && q == Slot(k, h.OutputSize()) + t
    ensures q in WritePack(file, p, j, d) <==> q in file || i <= k < i + j
    ensures q in file && !(i <= k < i + j) ==> WritePack(file, p, j, d)[q] == file[q]
    decreases j
  {
    if j > 0 {
      var os, m := h.OutputSize(), i + j - 1;
      var b := p.blocks[j - 1];
      assert b.hasher == h && b.position == Slot(m, os);
      var prev, digest := WritePack(file, p, j - 1, d), d(h, BlockBytes(p, j - 1));
      assert WritePack(file, p, j, d) == Written(prev, b.position, digest);
      WritePackKeeps(file, p, h, i, count, j - 1, k, t, q, d);
      SlotUnique(os, k, t, m);
      assert |digest| == os;
      WrittenAt(file, prev, b.position, digest, q, i <= k < m, k == m);
    }
  }

  /** When the block is one of them, that byte is byte `t` of its digest. */
  lemma {:induction false} WritePackAt(file: File, p: BlocksPack, h: Hasher, i: nat, count: nat, j: nat, k: nat, t: nat, q: nat, d: DigestFn)
    requires Laid(p, h, i, count) && j <= count && i <= k < i + j && Sized(d, h)
    requires t < h.OutputSize() && q == Slot(k, h.OutputSize()) + t
    ensures q in WritePack(file, p, j, d) && WritePack(file, p, j, d)[q] == d(h, BlockBytes(p, k - i))[t]
    decreases j
  {
    var os, m := h.OutputSize(), i + j - 1;
    var b := p.blocks[j - 1];
    assert b.hasher == h && b.position == Slot(m, os);
    var prev, digest := WritePack(file, p, j - 1, d), d(h, BlockBytes(p, j - 1));
    assert WritePack(file, p, j, d) == Written(prev, b.position, digest);
    SlotUnique(os, k, t, m);
    assert |digest| == os;
    if k == m {
      WritePackKeeps(file, p, h, i, count, j - 1, k, t, q, d);
      WrittenAt(file, prev, b.position, digest, q, false, true);
      assert q - b.position == t && d(h, BlockBytes(p, k - i)) == digest;
    } else {
      WritePackAt(file, p, h, i, count, j - 1, k, t, q, d);
      WrittenAt(file, prev, b.position, digest, q, true, false);
    }
  }

  /** Pack `n` holds the blocks of read `n`, all hashed by `h`. */
  ghost predicate LaidOut(packs: seq<BlocksPack>, plan: seq<Read>, h: Hasher)
  {
    |packs| == |plan| && forall n :: 0 <= n < |plan| ==> Laid(packs[n], h, plan[n].start, plan[n].count)
  }

  /** Writing the packs of a tiling of blocks `from .. to - 1`: offset `t` of
      block `k`'s slot (the output byte `q`) is written exactly when
      `from <= k < to`, and otherwise keeps its old byte. */
  lemma {:induction false} WritePacksKeeps(file: File, packs: seq<BlocksPack>, plan: seq<Read>, h: Hasher,
                                           from: nat, to: nat, k: nat, t: nat, q: nat, d: DigestFn)
    requires LaidOut(packs, plan, h) && Tiles(plan, from, to) && Sized(d, h)
    requires t < h.OutputSize() && q == Slot(k, h.OutputSize()) + t
    ensures AllSlicesInside(packs)
    ensures q in WritePacks(file, packs, d) <==> q in file || from <= k < to
    ensures q in file && !(from <= k < to) ==> WritePacks(file, packs, d)[q] == file[q]
    decreases |packs|
  {
    LaidOutSlices(packs, plan, h);
    if |packs| > 0 {
      var m := |packs| - 1;
      var last := plan[m];
      LaidOutLast(file, packs, plan, h, from, to, d);
      WritePacksKeeps(file, packs[..m], plan[..m], h, from, last.start, k, t, q, d);
      WritePackKeeps(WritePacks(file, packs[..m], d), packs[m], h, last.start, last.count, last.count, k, t, q, d);
    }
  }

  /** In the same writes, when `from <= k < to` that byte is byte `t` of the
      digest of block `k`, which is block `j` of read `n`. */
  lemma {:induction false} WritePacksAt(file: File, packs: seq<BlocksPack>, plan: seq<Read>, h: Hasher,
                                        from: nat, to: nat, k: nat, t: nat, q: nat, d: DigestFn)
    returns (n: nat, j: nat)
    requires LaidOut(packs, plan, h) && Tiles(plan, from, to) && from <= k < to && Sized(d, h)
    requires t < h.OutputSize() && q == Slot(k, h.OutputSize()) + t
    ensures AllSlicesInside(packs) && n < |plan| && j < plan[n].count && plan[n].start + j == k
    ensures q in WritePacks(file, packs, d) && WritePacks(file, packs, d)[q] == d(h, BlockBytes(packs[n], j))[t]
    decreases |packs|
  {
    LaidOutSlices(packs, plan, h);
    WritePacksKeeps(file, packs, plan, h, from, to, k, t, q, d);
    var m := |packs| - 1;
    var last := plan[m];
    LaidOutLast(file, packs, plan, h, from, to, d);
    var before := WritePacks(file, packs[..m], d);
    if last.start <= k {
      WritePackAt(before, packs[m], h, last.start, last.count, last.count, k, t, q, d);
      n, j := m, k - last.start;
    } else {
      WritePackKeeps(before, packs[m], h, last.start, last.count, last.count, k, t, q, d);
      n, j := WritePacksAt(file, packs[..m], plan[..m], h, from, last.start, k, t, q, d);
      assert packs[..m][n] == packs[n] && plan[..m][n] == plan[n];
    }
  }

  lemma LaidOutSlices(packs: seq<BlocksPack>, plan: seq<Read>, h: Hasher)
    requires LaidOut(packs, plan, h)
    ensures AllSlicesInside(packs)
  {
    forall m | 0 <= m < |packs|
      ensures SlicesInside(packs[m])
    {
      assert Laid(packs[m], h, plan[m].start, plan[m].count);
    }
  }

  /** Splitting off the last pack of a laid-out tiling. */
  lemma LaidOutLast(file: File, packs: seq<BlocksPack>, plan: seq<Read>, h: Hasher, from: nat, to: nat, d: DigestFn)
    requires LaidOut(packs, plan, h) && Tiles(plan, from, to) && |packs| > 0
    ensures var m := |packs| - 1;
      && LaidOut(packs[..m], plan[..m], h)
      && Tiles(plan[..m], from, plan[m].start)
      && from <= plan[m].start && plan[m].start + plan[m].count == to
      && Laid(packs[m], h, plan[m].start, plan[m].count)
      && AllSlicesInside(packs) && AllSlicesInside(packs[..m])
      && WritePacks(file, packs, d) == WritePack(WritePacks(file, packs[..m], d), packs[m], plan[m].count, d)
  {
    var m := |packs| - 1;
    TilesLast(plan, from, to);
    TilesCount(plan[..m], from, plan[m].start);
    assert LaidOut(packs[..m], plan[..m], h);
    LaidOutSlices(packs, plan, h);
    LaidOutSlices(packs[..m], plan[..m], h);
  }

  /** The packs of any plan are laid out by its reads. */
  lemma PlanLaidOut(h: Hasher, input: seq<byte>, blockCount: nat, fill: Fill, plan: seq<Read>)
    ensures LaidOut(PlanPacks(h, input, blockCount, fill, plan), plan, h)
  {
    var packs := PlanPacks(h, input, blockCount, fill, plan);
    forall n | 0 <= n < |plan|
      ensures Laid(packs[n], h, plan[n].start, plan[n].count)
    {
      PlanPacksAt(h, input, blockCount, fill, plan, n);
      MakePackShape(h, input, blockCount, plan[n].start, plan[n].count, fill);
      forall j | 0 <= j < plan[n].count
        ensures packs[n].blocks[j].position == Slot(plan[n].start + j, h.OutputSize())
      {
        SlotIsProduct(plan[n].start + j, h.OutputSize());
      }
    }
  }

  /** A block that lies wholly inside the file hands its hasher exactly the
      file's bytes, whatever the uninitialised memory held; `k` is the
      block's offset in the file and `b` its index. */
  lemma FullBlockBytes(h: Hasher, input: seq<byte>, blockCount: nat, i: nat, count: nat, fill: Fill, j: nat, b: nat, k: nat)
    requires j < count && b == i + j && k == b * h.InputSize() && k + h.InputSize() <= |input|
    ensures SlicesInside(MakePack(h, input, blockCount, i, count, fill))
    ensures BlockBytes(MakePack(h, input, blockCount, i, count, fill), j) == input[k..k + h.InputSize()]
  {
    var bs := h.InputSize();
    var p := MakePack(h, input, blockCount, i, count, fill);
    assert SlicesInside(p) by {
      MakePackShape(h, input, blockCount, i, count, fill);
    }
    forall t | 0 <= t < bs
      ensures BlockBytes(p, j)[t] == input[k + t]
    {
      BlockBytesAt(h, input, blockCount, i, count, fill, j, t, k + t);
    }
  }

  /** The packs the producer pushes for `input`, in order. */
  function PlannedPacks(h: Hasher, input: seq<byte>, minOptBlockCount: nat, fill: Fill): (r: seq<BlocksPack>)
    requires h.InputSize() > 0 && minOptBlockCount >= 1
    ensures AllSlicesInside(r)
    ensures LaidOut(r, Plan(BlockCount(|input|, h.InputSize()), minOptBlockCount, 0), h)
  {
    var blockCount := BlockCount(|input|, h.InputSize());
    var plan := Plan(blockCount, minOptBlockCount, 0);
    PlanLaidOut(h, input, blockCount, fill, plan);
    LaidOutSlices(PlanPacks(h, input, blockCount, fill, plan), plan, h);
    PlanPacks(h, input, blockCount, fill, plan)
  }

  /** The file the producer's packs yield, with each block's digest taken
      from a cleared buffer. Offset `t` of digest slot `k` is the output byte
      `q`, and block `k` starts at the input offset `at`. On top of the old
      file the output has exactly the `block_count + 1` digest slots (the
      extra zero block included), and every block that lies wholly inside the
      input has the digest of its own bytes in its slot. */
  lemma PlannedFile(h: Hasher, input: seq<byte>, minOptBlockCount: nat, fill: Fill, file: File,
                    k: nat, t: nat, q: nat, at: nat)
    requires h.InputSize() > 0 && minOptBlockCount >= 1 && t < h.OutputSize()
    requires q == k * h.OutputSize() + t && at == k * h.InputSize()
    ensures var out := WritePacks(file, PlannedPacks(h, input, minOptBlockCount, fill), Fresh);
      && (q in out <==> q in file || k <= BlockCount(|input|, h.InputSize()))
      && (q in file && k > BlockCount(|input|, h.InputSize()) ==> out[q] == file[q])
      && (k <= BlockCount(|input|, h.InputSize()) && h.NoneHasher? ==> out[q] == NONE_PATTERN[t])
      && (at + h.InputSize() <= |input| ==>
            k < BlockCount(|input|, h.InputSize()) && out[q] == Fresh(h, input[at..at + h.InputSize()])[t])
  {
    var blockCount := BlockCount(|input|, h.InputSize());
    var plan := Plan(blockCount, minOptBlockCount, 0);
    var packs := PlannedPacks(h, input, minOptBlockCount, fill);
    PlanTiles(blockCount, minOptBlockCount, 0);
    SlotIsProduct(k, h.OutputSize());
    FreshSized(h);
    WritePacksKeeps(file, packs, plan, h, 0, blockCount + 1, k, t, q, Fresh);
    if at + h.InputSize() <= |input| {
      BlockInside(|input|, h.InputSize(), k, at);
    }
    if k <= blockCount {
      PlannedSlot(h, input, minOptBlockCount, fill, file, k, t, q, at);
    }
  }

  /** The digest the producer's packs leave at offset `t` of slot `k <= block_count`. */
  lemma PlannedSlot(h: Hasher, input: seq<byte>, minOptBlockCount: nat, fill: Fill, file: File,
                    k: nat, t: nat, q: nat, at: nat)
    requires h.InputSize() > 0 && minOptBlockCount >= 1 && t < h.OutputSize()
    requires q == Slot(k, h.OutputSize()) + t && at == k * h.InputSize() && k <= BlockCount(|input|, h.InputSize())
    ensures var out := WritePacks(file, PlannedPacks(h, input, minOptBlockCount, fill), Fresh);
      && q in out
      && (h.NoneHasher? ==> out[q] == NONE_PATTERN[t])
      && (at + h.InputSize() <= |input| ==> out[q] == Fresh(h, input[at..at + h.InputSize()])[t])
  {
    var bs := h.InputSize();
    var blockCount := BlockCount(|input|, bs);
    var plan := Plan(blockCount, minOptBlockCount, 0);
    var packs := PlannedPacks(h, input, minOptBlockCount, fill);
    PlanTiles(blockCount, minOptBlockCount, 0);
    FreshSized(h);
    var n, j := WritePacksAt(file, packs, plan, h, 0, blockCount + 1, k, t, q, Fresh);
    if at + bs <= |input| {
      PlanPacksAt(h, input, blockCount, fill, plan, n);
      FullBlockBytes(h, input, blockCount, plan[n].start, plan[n].count, fill, j, k, at);
    }
  }

  /** A laid-out pack writes exactly the slots of its own blocks. */
  lemma PackWritesAt(p: BlocksPack, h: Hasher, i: nat, count: nat, k: nat, t: nat, q: nat, d: DigestFn)
    requires Laid(p, h, i, count) && Sized(d, h)
    requires t < h.OutputSize() && q == Slot(k, h.OutputSize()) + t
    ensures q in PackWrites(p, count, d) <==> i <= k < i + count
  {
    WritePackOverlays(map[], p, count, d);
    WritePackKeeps(map[], p, h, i, count, count, k, t, q, d);
    assert map[] + PackWrites(p, count, d) == PackWrites(p, count, d);
  }

  /** No two packs the producer pushes write the same output byte. */
  lemma PlannedPacksDisjoint(h: Hasher, input: seq<byte>, minOptBlockCount: nat, fill: Fill, n: nat, m: nat, q: nat, d: DigestFn)
    requires h.InputSize() > 0 && minOptBlockCount >= 1 && Sized(d, h)
    requires n < m < |PlannedPacks(h, input, minOptBlockCount, fill)|
    ensures var packs := PlannedPacks(h, input, minOptBlockCount, fill);
      !(q in PackWrites(packs[n], |packs[n].blocks|, d) && q in PackWrites(packs[m], |packs[m].blocks|, d))
  {
    var packs := PlannedPacks(h, input, minOptBlockCount, fill);
    var blockCount := BlockCount(|input|, h.InputSize());
    var plan := Plan(blockCount, minOptBlockCount, 0);
    var os := h.OutputSize();
    HasherSizes(h);
    var k, t := q / os, q % os;
    SlotIsProduct(k, os);
    assert Laid(packs[n], h, plan[n].start, plan[n].count);
    assert Laid(packs[m], h, plan[m].start, plan[m].count);
    PackWritesAt(packs[n], h, plan[n].start, plan[n].count, k, t, q, d);
    PackWritesAt(packs[m], h, plan[m].start, plan[m].count, k, t, q, d);
    PlanTiles(blockCount, minOptBlockCount, 0);
    TilesOrdered(plan, 0, blockCount + 1, n, m);
  }

  /** With a stateless hasher any two of the producer's packs may be
      processed in either order, by any worker: the file comes out the same. */
  lemma PlannedPacksCommute(h: Hasher, input: seq<byte>, minOptBlockCount: nat, fill: Fill, n: nat, m: nat,
                            s: WorkState, s': WorkState, outFill: OutFill, outFill': OutFill)
    requires h.InputSize() > 0 && minOptBlockCount >= 1 && Stateless(h)
    requires n < m < |PlannedPacks(h, input, minOptBlockCount, fill)|
    requires s.file == s'.file
    ensures var packs := PlannedPacks(h, input, minOptBlockCount, fill);
      Drain(s, [packs[n], packs[m]], outFill).file == Drain(s', [packs[m], packs[n]], outFill').file
  {
    var packs := PlannedPacks(h, input, minOptBlockCount, fill);
    var plan := Plan(BlockCount(|input|, h.InputSize()), minOptBlockCount, 0);
    assert Laid(packs[n], h, plan[n].start, plan[n].count);
    assert Laid(packs[m], h, plan[m].start, plan[m].count);
    FreshSized(h);
    forall q | q in PackWrites(packs[n], |packs[n].blocks|, Fresh)
      ensures q !in PackWrites(packs[m], |packs[m].blocks|, Fresh)
    {
      PlannedPacksDisjoint(h, input, minOptBlockCount, fill, n, m, q, Fresh);
    }
    PacksCommute(s, s', packs[n], packs[m], outFill, outFill');
  }

  /** No two of the producer's packs write the same output byte. */
  lemma PlannedPairwiseDisjoint(h: Hasher, input: seq<byte>, minOptBlockCount: nat, fill: Fill, d: DigestFn)
    requires h.InputSize() > 0 && minOptBlockCount >= 1 && Sized(d, h)
    ensures PairwiseDisjoint(PlannedPacks(h, input, minOptBlockCount, fill), d)
  {
    var packs := PlannedPacks(h, input, minOptBlockCount, fill);
    forall n, m | 0 <= n < |packs| && 0 <= m < |packs| && n != m
      ensures DisjointWrites(packs[n], packs[m], d)
    {
      forall q | q in PackWrites(packs[n], |packs[n].blocks|, d)
        ensures q !in PackWrites(packs[m], |packs[m].blocks|, d)
      {
        if n < m {
          PlannedPacksDisjoint(h, input, minOptBlockCount, fill, n, m, q, d);
        } else {
          PlannedPacksDisjoint(h, input, minOptBlockCount, fill, m, n, q, d);
        }
      }
    }
  }

  /** With a stateless hasher every planned pack is stateless. */
  lemma PlannedStateless(h: Hasher, input: seq<byte>, minOptBlockCount: nat, fill: Fill)
    requires h.InputSize() > 0 && minOptBlockCount >= 1 && Stateless(h)
    ensures StatelessPacks(PlannedPacks(h, input, minOptBlockCount, fill))
  {
    var packs := PlannedPacks(h, input, minOptBlockCount, fill);
    var plan := Plan(BlockCount(|input|, h.InputSize()), minOptBlockCount, 0);
    forall n | 0 <= n < |packs|
      ensures StatelessPack(packs[n])
    {
      assert Laid(packs[n], h, plan[n].start, plan[n].count);
    }
  }

  /** The whole plan written in any order `perm` of its packs leaves the
      same file as the plan in the order it is pushed. */
  lemma PlannedPacksAnyOrder(h: Hasher, input: seq<byte>, minOptBlockCount: nat, fill: Fill, perm: seq<nat>, file: File)
    requires h.InputSize() > 0 && minOptBlockCount >= 1
    requires IsPermutation(perm, |PlannedPacks(h, input, minOptBlockCount, fill)|)
    ensures var packs := PlannedPacks(h, input, minOptBlockCount, fill);
      && AllSlicesInside(Reordered(packs, perm))
      && WritePacks(file, Reordered(packs, perm), Fresh) == WritePacks(file, packs, Fresh)
  {
    FreshSized(h);
    PlannedPairwiseDisjoint(h, input, minOptBlockCount, fill, Fresh);
    WritePacksReordered(file, PlannedPacks(h, input, minOptBlockCount, fill), perm, Fresh);
  }

  /** With a stateless hasher, a worker that drains the plan's packs in any
      order `perm`, from any state, leaves the file a worker leaves that
      drains them in the order they are pushed. */
  lemma PlannedDrainAnyOrder(h: Hasher, input: seq<byte>, minOptBlockCount: nat, fill: Fill, perm: seq<nat>,
                             s: WorkState, s': WorkState, outFill: OutFill, outFill': OutFill)
    requires h.InputSize() > 0 && minOptBlockCount >= 1 && Stateless(h)
    requires IsPermutation(perm, |PlannedPacks(h, input, minOptBlockCount, fill)|) && s.file == s'.file
    ensures var packs := PlannedPacks(h, input, minOptBlockCount, fill);
      && AllSlicesInside(Reordered(packs, perm))
      && Drain(s, Reordered(packs, perm), outFill).file == Drain(s', packs, outFill').file
  {
    FreshSized(h);
    PlannedPairwiseDisjoint(h, input, minOptBlockCount, fill, Fresh);
    PlannedStateless(h, input, minOptBlockCount, fill);
    DrainReordered(s, s', PlannedPacks(h, input, minOptBlockCount, fill), perm, outFill, outFill');
  }

  /** The plan's packs split between two workers: one takes the first `c`
      packs of the order `perm`, and another, in any state `t`, takes the
      rest on the file the first one left. With a stateless hasher the file
      is the one a single worker leaves with the packs in pushed order. */
  lemma PlannedRelay(h: Hasher, input: seq<byte>, minOptBlockCount: nat, fill: Fill, perm: seq<nat>, c: nat,
                     s: WorkState, t: WorkState, u: WorkState, outFill: OutFill, outFill': OutFill, outFill'': OutFill)
    requires h.InputSize() > 0 && minOptBlockCount >= 1 && Stateless(h)
    requires IsPermutation(perm, |PlannedPacks(h, input, minOptBlockCount, fill)|) && c <= |perm| && u.file == s.file
    requires AllSlicesInside(Reordered(PlannedPacks(h, input, minOptBlockCount, fill), perm)[..c])
    requires t.file == Drain(s, Reordered(PlannedPacks(h, input, minOptBlockCount, fill), perm)[..c], outFill).file
    ensures var packs := PlannedPacks(h, input, minOptBlockCount, fill);
      && AllSlicesInside(Reordered(packs, perm)[c..])
      && Drain(t, Reordered(packs, perm)[c..], outFill').file == Drain(u, packs, outFill'').file
  {
    FreshSized(h);
    PlannedPairwiseDisjoint(h, input, minOptBlockCount, fill, Fresh);
    PlannedStateless(h, input, minOptBlockCount, fill);
    RelayReordered(s, t, u, PlannedPacks(h, input, minOptBlockCount, fill), perm, c, outFill, outFill', outFill'');
  }

  /** The main result for a stateless hasher: a worker that drains the
      producer's packs, from any state, leaves the old file with exactly the
      `block_count + 1` digest slots written, NONE's constant in each slot,
      and each block that lies wholly inside the input with the digest of its
      own bytes. Offset `t` of slot `k` is the output byte `q`, and block `k`
      starts at the input offset `at`. */
  lemma StatelessRunFile(h: Hasher, input: seq<byte>, minOptBlockCount: nat, fill: Fill, s: WorkState, outFill: OutFill,
                         k: nat, t: nat, q: nat, at: nat)
    requires h.InputSize() > 0 && minOptBlockCount >= 1 && Stateless(h) && t < h.OutputSize()
    requires q == k * h.OutputSize() + t && at == k * h.InputSize()
    ensures var out := Drain(s, PlannedPacks(h, input, minOptBlockCount, fill), outFill).file;
      && (q in out <==> q in s.file || k <= BlockCount(|input|, h.InputSize()))
      && (q in s.file && k > BlockCount(|input|, h.InputSize()) ==> out[q] == s.file[q])
      && (k <= BlockCount(|input|, h.InputSize()) && h.NoneHasher? ==> out[q] == NONE_PATTERN[t])
      && (at + h.InputSize() <= |input| ==>
            k < BlockCount(|input|, h.InputSize()) && out[q] == Fresh(h, input[at..at + h.InputSize()])[t])
  {
    PlannedStateless(h, input, minOptBlockCount, fill);
    DrainFile(s, PlannedPacks(h, input, minOptBlockCount, fill), outFill);
    PlannedFile(h, input, minOptBlockCount, fill, s.file, k, t, q, at);
  }

  // ---------------------------------------------------------------------------
  // The intended producer: `block_count` blocks, the last one zero-padded

  /** The packs of the intended loop, in order. */
  function IntendedPacks(h: Hasher, input: seq<byte>, minOptBlockCount: nat): (r: seq<BlocksPack>)
    requires h.InputSize() > 0 && minOptBlockCount >= 1
    ensures AllSlicesInside(r)
    ensures LaidOut(r, IntendedPlan(BlockCount(|input|, h.InputSize()), minOptBlockCount, 0), h)
  {
    var plan := IntendedPlan(BlockCount(|input|, h.InputSize()), minOptBlockCount, 0);
    var packs := seq(|plan|, n requires 0 <= n < |plan| => IntendedPack(h, input, plan[n].start, plan[n].count));
    forall n | 0 <= n < |plan|
      ensures Laid(packs[n], h, plan[n].start, plan[n].count)
    {
      PackBlocksShape(h, plan[n].start, plan[n].count);
      forall j | 0 <= j < plan[n].count
        ensures packs[n].blocks[j].position == Slot(plan[n].start + j, h.OutputSize())
      {
        SlotIsProduct(plan[n].start + j, h.OutputSize());
      }
    }
    LaidOutSlices(packs, plan, h);
    packs
  }

  /** The `blockSize` bytes of the file from offset `from`, zero-padded past its end. */
  function PaddedBlock(input: seq<byte>, blockSize: nat, from: nat): (r: seq<byte>)
    ensures |r| == blockSize
    ensures forall t :: 0 <= t < blockSize ==> r[t] == if from + t < |input| then input[from + t] else 0
  {
    seq(blockSize, t requires 0 <= t => if from + t < |input| then input[from + t] else 0)
  }

  /** The file of the intended producer: on top of the old file, exactly the
      `block_count` digest slots, and in slot `k` the digest of block `k` of
      the file, zero-padded; nothing depends on uninitialised memory. */
  lemma IntendedFile(h: Hasher, input: seq<byte>, minOptBlockCount: nat, file: File, k: nat, t: nat, q: nat, at: nat)
    requires h.InputSize() > 0 && minOptBlockCount >= 1 && t < h.OutputSize()
    requires q == k * h.OutputSize() + t && at == k * h.InputSize()
    ensures var out := WritePacks(file, IntendedPacks(h, input, minOptBlockCount), Fresh);
      && (q in out <==> q in file || k < BlockCount(|input|, h.InputSize()))
      && (q in file && k >= BlockCount(|input|, h.InputSize()) ==> out[q] == file[q])
      && (k < BlockCount(|input|, h.InputSize()) ==> out[q] == Fresh(h, PaddedBlock(input, h.InputSize(), at))[t])
  {
    var bs := h.InputSize();
    var blockCount := BlockCount(|input|, bs);
    var plan := IntendedPlan(blockCount, minOptBlockCount, 0);
    var packs := IntendedPacks(h, input, minOptBlockCount);
    IntendedPlanTiles(blockCount, minOptBlockCount, 0);
    SlotIsProduct(k, h.OutputSize());
    FreshSized(h);
    WritePacksKeeps(file, packs, plan, h, 0, blockCount, k, t, q, Fresh);
    if k < blockCount {
      var n, j := WritePacksAt(file, packs, plan, h, 0, blockCount, k, t, q, Fresh);
      IntendedPackBytes(h, input, plan[n].start, plan[n].count, j, k, at);
    }
  }

  /** Block `j` of the intended pack from block `i` is block `b` of the file,
      zero-padded; `k` is its offset in the file. */
  lemma IntendedPackBytes(h: Hasher, input: seq<byte>, i: nat, count: nat, j: nat, b: nat, k: nat)
    requires j < count && b == i + j && k == b * h.InputSize()
    ensures SlicesInside(IntendedPack(h, input, i, count))
    ensures BlockBytes(IntendedPack(h, input, i, count), j) == PaddedBlock(input, h.InputSize(), k)
  {
    var bs := h.InputSize();
    var p := IntendedPack(h, input, i, count);
    assert SlicesInside(p) by {
      PackBlocksShape(h, i, count);
    }
    forall t | 0 <= t < bs
      ensures BlockBytes(p, j)[t] == PaddedBlock(input, bs, k)[t]
    {
      IntendedBlockBytes(h, input, i, count, j, t, k + t);
    }
  }
}
